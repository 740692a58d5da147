/**
 * TextEncoder: UTF-16 code units to UTF-8 bytes (section 3 of RFC 3629). An
 * unpaired surrogate becomes U+FFFD first, so the encoder loses information on
 * exactly the strings that contain one.
 */
module Utf8 {
  import opened Wrappers
  import opened Text

  predicate IsHigh(u: CodeUnit) { 0xD800 <= u < 0xDC00 }

  predicate IsLow(u: CodeUnit) { 0xDC00 <= u < 0xE000 }

  predicate StartsWithPair(s: Utf16) {
    |s| >= 2 && IsHigh(s[0]) && IsLow(s[1])
  }

  /** No unpaired surrogate anywhere. */
  predicate WellFormed(s: Utf16)
    decreases |s|
  {
    if s == [] then true
    else if StartsWithPair(s) then WellFormed(s[2..])
    else !IsHigh(s[0]) && !IsLow(s[0]) && WellFormed(s[1..])
  }

  type CodePoint = p: int | 0 <= p < 0x11_0000

  const REPLACEMENT: CodePoint := 0xFFFD

  function Pair(high: CodeUnit, low: CodeUnit): CodePoint
    requires IsHigh(high) && IsLow(low)
  {
    0x1_0000 + (high - 0xD800) * 0x400 + (low - 0xDC00)
  }

  function EncodePoint(p: CodePoint): (r: Bytes)
    ensures 1 <= |r| <= 4
  {
    if p < 0x80 then [p]
    else if p < 0x800 then [0xC0 + p / 64, 0x80 + p % 64]
    else if p < 0x1_0000 then [0xE0 + p / 4096, 0x80 + p / 64 % 64, 0x80 + p % 64]
    else [0xF0 + p / 262144, 0x80 + p / 4096 % 64, 0x80 + p / 64 % 64, 0x80 + p % 64]
  }

  /** The bytes of a string. */
  function Encode(s: Utf16): Bytes
    decreases |s|
  {
    if s == [] then []
    else if StartsWithPair(s) then EncodePoint(Pair(s[0], s[1])) + Encode(s[2..])
    else EncodePoint(if IsHigh(s[0]) || IsLow(s[0]) then REPLACEMENT else s[0]) + Encode(s[1..])
  }

  predicate IsTail(b: Byte) { 0x80 <= b < 0xC0 }

  /** The payload bits of a byte whose marker is the number mark. */
  function Low(b: Byte, mark: int): int { b - mark }

  /** Reads one code point off the front of b, with its length in bytes; a longer form than needed is refused. */
  function ReadPoint(b: Bytes): (r: Option<(CodePoint, nat)>)
    ensures r.Some? ==> 1 <= r.value.1 <= |b|
  {
    if b == [] then None
    else if b[0] < 0x80 then Some((b[0], 1))
    else if 0xC2 <= b[0] < 0xE0 && |b| >= 2 && IsTail(b[1]) then
      Some((Low(b[0], 0xC0) * 64 + Low(b[1], 0x80), 2))
    else if 0xE0 <= b[0] < 0xF0 && |b| >= 3 && IsTail(b[1]) && IsTail(b[2]) then
      var p := Low(b[0], 0xE0) * 4096 + Low(b[1], 0x80) * 64 + Low(b[2], 0x80);
      if 0x800 <= p then Some((p, 3)) else None
    else if 0xF0 <= b[0] < 0xF5 && |b| >= 4 && IsTail(b[1]) && IsTail(b[2]) && IsTail(b[3]) then
      var p := Low(b[0], 0xF0) * 262144 + Low(b[1], 0x80) * 4096 + Low(b[2], 0x80) * 64 + Low(b[3], 0x80);
      if 0x1_0000 <= p < 0x11_0000 then Some((p, 4)) else None
    else None
  }

  function Units(p: CodePoint): Utf16 {
    if p < 0x1_0000 then [p]
    else [0xD800 + (p - 0x1_0000) / 0x400, 0xDC00 + (p - 0x1_0000) % 0x400]
  }

  /** The reader that undoes Encode on well-formed strings. */
  function Decode(b: Bytes): Option<Utf16>
    decreases |b|
  {
    if b == [] then Some([])
    else match ReadPoint(b)
      case None => None
      case Some((p, n)) =>
        match Decode(b[n..])
        case None => None
        case Some(s) => Some(Units(p) + s)
  }

  lemma ReadEncodedPoint(p: CodePoint, rest: Bytes)
    ensures ReadPoint(EncodePoint(p) + rest) == Some((p, |EncodePoint(p)|))
  {
    assert p / 4096 == p / 64 / 64 && p / 262144 == p / 64 / 64 / 64;
  }

  lemma DecodeEncodedPoint(p: CodePoint, rest: Bytes)
    requires Decode(rest).Some?
    ensures Decode(EncodePoint(p) + rest) == Some(Units(p) + Decode(rest).value)
  {
    ReadEncodedPoint(p, rest);
    assert (EncodePoint(p) + rest)[|EncodePoint(p)|..] == rest;
  }

  lemma UnitsOfPair(high: CodeUnit, low: CodeUnit)
    requires IsHigh(high) && IsLow(low)
    ensures Units(Pair(high, low)) == [high, low]
  {
  }

  lemma DecodePairThen(high: CodeUnit, low: CodeUnit, rest: Bytes)
    requires IsHigh(high) && IsLow(low) && Decode(rest).Some?
    ensures Decode(EncodePoint(Pair(high, low)) + rest) == Some([high, low] + Decode(rest).value)
  {
    DecodeEncodedPoint(Pair(high, low), rest);
    UnitsOfPair(high, low);
  }

  lemma {:induction false} DecodeEncode(s: Utf16)
    requires WellFormed(s)
    ensures Decode(Encode(s)) == Some(s)
    decreases |s|
  {
    if s == [] {
    } else if StartsWithPair(s) {
      DecodeEncode(s[2..]);
      DecodePairThen(s[0], s[1], Encode(s[2..]));
      assert s == [s[0], s[1]] + s[2..];
    } else {
      DecodeEncode(s[1..]);
      DecodeEncodedPoint(s[0], Encode(s[1..]));
      assert s == [s[0]] + s[1..];
    }
  }

  lemma EncodeInjective(a: Utf16, b: Utf16)
    requires WellFormed(a) && WellFormed(b)
    ensures Encode(a) == Encode(b) <==> a == b
  {
    DecodeEncode(a);
    DecodeEncode(b);
  }

  /** TextEncoder alone is not injective: two lone surrogates meet at U+FFFD. */
  lemma LoneSurrogatesCollide()
    ensures Encode([0xD800]) == Encode([0xDFFF])
  {
  }

  // ------------------------------------------------- which strings share bytes

  /** No lone surrogate, and no U+FFFD that could stand for one. */
  predicate Faithful(s: Utf16) {
    WellFormed(s) && forall i | 0 <= i < |s| :: s[i] != REPLACEMENT
  }

  /** Each lone surrogate replaced as the encoder does it. */
  function Scrubbed(s: Utf16): Utf16
    decreases |s|
  {
    if s == [] then []
    else if StartsWithPair(s) then s[..2] + Scrubbed(s[2..])
    else [if IsHigh(s[0]) || IsLow(s[0]) then REPLACEMENT else s[0]] + Scrubbed(s[1..])
  }

  lemma {:induction false} EncodeScrubbed(s: Utf16)
    ensures WellFormed(Scrubbed(s)) && Encode(Scrubbed(s)) == Encode(s)
    decreases |s|
  {
    var t := Scrubbed(s);
    if s == [] {
    } else if StartsWithPair(s) {
      EncodeScrubbed(s[2..]);
      assert t[0] == s[0] && t[1] == s[1] && t[2..] == Scrubbed(s[2..]);
    } else {
      EncodeScrubbed(s[1..]);
      assert !IsHigh(t[0]) && !IsLow(t[0]) && t[1..] == Scrubbed(s[1..]);
    }
  }

  lemma {:induction false} ScrubbedSameIff(s: Utf16)
    ensures WellFormed(s) <==> Scrubbed(s) == s
    ensures WellFormed(s) || exists i | 0 <= i < |Scrubbed(s)| :: Scrubbed(s)[i] == REPLACEMENT
    decreases |s|
  {
    var t := Scrubbed(s);
    if s == [] {
    } else if StartsWithPair(s) {
      ScrubbedSameIff(s[2..]);
      assert s == s[..2] + s[2..];
      assert t[2..] == Scrubbed(s[2..]);
    } else {
      ScrubbedSameIff(s[1..]);
      assert s == [s[0]] + s[1..];
      assert t[1..] == Scrubbed(s[1..]);
    }
  }

  /** Each U+FFFD replaced by a lone surrogate. */
  function Unscrubbed(s: Utf16): Utf16
    decreases |s|
  {
    if s == [] then []
    else if StartsWithPair(s) then s[..2] + Unscrubbed(s[2..])
    else [if s[0] == REPLACEMENT then 0xDC00 else s[0]] + Unscrubbed(s[1..])
  }

  lemma {:induction false} EncodeUnscrubbed(s: Utf16)
    requires WellFormed(s)
    ensures Encode(Unscrubbed(s)) == Encode(s)
    ensures Unscrubbed(s) == s ==> Faithful(s)
    decreases |s|
  {
    var t := Unscrubbed(s);
    if s == [] {
    } else if StartsWithPair(s) {
      EncodeUnscrubbed(s[2..]);
      assert t[0] == s[0] && t[1] == s[1] && t[2..] == Unscrubbed(s[2..]);
      assert forall i | 2 <= i < |s| :: s[i] == s[2..][i - 2];
    } else {
      EncodeUnscrubbed(s[1..]);
      assert !IsHigh(t[0]) && t[1..] == Unscrubbed(s[1..]);
      assert forall i | 1 <= i < |s| :: s[i] == s[1..][i - 1];
    }
  }

  /** A string that is not faithful shares its bytes with another. */
  lemma UnfaithfulShares(s: Utf16) returns (other: Utf16)
    requires !Faithful(s)
    ensures other != s && Encode(other) == Encode(s)
  {
    if WellFormed(s) {
      other := Unscrubbed(s);
      EncodeUnscrubbed(s);
    } else {
      other := Scrubbed(s);
      EncodeScrubbed(s);
      ScrubbedSameIff(s);
    }
  }

  /** A faithful string shares its bytes with no other. */
  lemma FaithfulAlone(s: Utf16, other: Utf16)
    requires Faithful(s) && Encode(other) == Encode(s)
    ensures other == s
  {
    EncodeScrubbed(other);
    ScrubbedSameIff(other);
    EncodeInjective(Scrubbed(other), s);
  }

  lemma {:induction false} AsciiWellFormed(s: Utf16)
    requires IsAscii(s)
    ensures WellFormed(s)
    decreases |s|
  {
    if s != [] {
      AsciiWellFormed(s[1..]);
    }
  }

  lemma {:induction false} WellFormedConcat(a: Utf16, b: Utf16)
    requires WellFormed(a) && WellFormed(b)
    ensures WellFormed(a + b)
    decreases |a|
  {
    if a == [] {
      assert a + b == b;
    } else if StartsWithPair(a) {
      WellFormedConcat(a[2..], b);
      assert (a + b)[2..] == a[2..] + b;
    } else {
      WellFormedConcat(a[1..], b);
      assert (a + b)[1..] == a[1..] + b;
    }
  }
}
