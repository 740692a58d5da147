/**
 * JavaScript strings as sequences of UTF-16 code units, and the decimal form of
 * a natural number. A Dafny char cannot be a lone surrogate and a JavaScript
 * code unit can, so code units are numbers here.
 */
module Text {

  type CodeUnit = u: int | 0 <= u < 0x1_0000
  type Utf16 = seq<CodeUnit>

  type Byte = b: int | 0 <= b < 0x100
  type Bytes = seq<Byte>

  /** An ASCII literal as code units. */
  function Ascii(s: string): (r: Utf16)
    requires forall i | 0 <= i < |s| :: s[i] as int < 128
    ensures |r| == |s|
    ensures forall i | 0 <= i < |s| :: r[i] == s[i] as int
  {
    seq(|s|, i requires 0 <= i < |s| => s[i] as int)
  }

  /** The UTF-8 bytes of an ASCII literal. */
  function AsciiBytes(s: string): Bytes
    requires forall i | 0 <= i < |s| :: s[i] as int < 128
  {
    seq(|s|, i requires 0 <= i < |s| => s[i] as int)
  }

  predicate IsAscii(s: Utf16) {
    forall i | 0 <= i < |s| :: s[i] < 128
  }

  const ZERO: CodeUnit := 48

  predicate IsDigit(u: CodeUnit) {
    48 <= u <= 57
  }

  predicate AllDigits(s: Utf16) {
    forall i | 0 <= i < |s| :: IsDigit(s[i])
  }

  /** Matches /^[1-9][0-9]*$/. */
  predicate IsCanonicalDecimal(s: Utf16) {
    s != [] && s[0] != ZERO && AllDigits(s)
  }

  /** The decimal digits of n; JavaScript prints these for every integer up to 2^53. */
  function Digits(n: nat): (s: Utf16)
    ensures s != [] && AllDigits(s)
    ensures n > 0 ==> IsCanonicalDecimal(s)
    ensures n == 0 ==> s == [ZERO]
  {
    if n < 10 then [ZERO + n] else Digits(n / 10) + [ZERO + n % 10]
  }

  /** The number a string of digits denotes, as BigInt reads it. */
  function Value(s: Utf16): nat
    requires AllDigits(s)
  {
    if s == [] then 0 else Value(s[..|s| - 1]) * 10 + (s[|s| - 1] - ZERO)
  }

  lemma {:induction false} ValueOfDigits(n: nat)
    ensures Value(Digits(n)) == n
  {
    if n < 10 {
      assert Digits(n)[..0] == [];
    } else {
      var s := Digits(n);
      assert s[..|s| - 1] == Digits(n / 10);
      ValueOfDigits(n / 10);
    }
  }

  lemma {:induction false} DigitsOfValue(s: Utf16)
    requires IsCanonicalDecimal(s)
    ensures Digits(Value(s)) == s
    ensures Value(s) > 0
  {
    var front := s[..|s| - 1];
    if front == [] {
      assert Value(front) == 0;
    } else {
      DigitsOfValue(front);
      assert Value(s) / 10 == Value(front);
      assert s == front + [s[|s| - 1]];
    }
  }

  lemma DigitsInjective(m: nat, n: nat)
    ensures Digits(m) == Digits(n) <==> m == n
  {
    ValueOfDigits(m);
    ValueOfDigits(n);
  }
}
