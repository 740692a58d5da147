/** The bytes a co-admin grant signature covers (src/lib/member-grant.ts). */
module MemberGrant {
  import opened Wrappers
  import opened Text
  import Utf8

  datatype MemberGrant = MemberGrant(memberUserId: Utf16, workspaceKeyId: Utf16, wrappedMekCiphertext: Utf16)

  const CONTEXT: string := "orangerails:add-member:mek-wrap:v1"
  const TWO_TO_THE_32: nat := 0x1_0000_0000

  /** The four bytes of a 32-bit number, the most significant first. */
  function BigEndian(w: nat): (r: Bytes)
    requires w < TWO_TO_THE_32
    ensures |r| == 4
  {
    [w / 0x100_0000, w / 0x1_0000 % 0x100, w / 0x100 % 0x100, w % 0x100]
  }

  /** DataView.setUint32: the length is reduced modulo 2^32. */
  function Uint32BE(n: nat): (r: Bytes)
    ensures |r| == 4
  {
    BigEndian(n % TWO_TO_THE_32)
  }

  function ReadUint32BE(b: Bytes): nat
    requires |b| >= 4
  {
    Horner(b[0], b[1], b[2], b[3])
  }

  function Horner(b0: nat, b1: nat, b2: nat, b3: nat): nat {
    ((b0 * 0x100 + b1) * 0x100 + b2) * 0x100 + b3
  }

  lemma Base256(n: nat)
    ensures Horner(n / 0x100_0000, n / 0x1_0000 % 0x100, n / 0x100 % 0x100, n % 0x100) == n
  {
    var a := n / 0x100;
    var b := a / 0x100;
    assert n / 0x1_0000 == b;
    assert n / 0x100_0000 == b / 0x100;
  }

  lemma BigEndianRoundTrip(w: nat)
    requires w < TWO_TO_THE_32
    ensures ReadUint32BE(BigEndian(w)) == w
  {
    hide Horner;
    Base256(w);
  }

  lemma Uint32RoundTrip(n: nat)
    requires n < TWO_TO_THE_32
    ensures ReadUint32BE(Uint32BE(n)) == n
  {
    hide BigEndian, ReadUint32BE;
    BigEndianRoundTrip(n);
  }

  /** The specification of _lenField on bytes. */
  function LenField(utf8: Bytes): Bytes {
    Uint32BE(|utf8|) + utf8
  }

  function Flatten(parts: seq<Bytes>): Bytes {
    if parts == [] then [] else parts[0] + Flatten(parts[1..])
  }

  function Fields(grant: MemberGrant): seq<Bytes> {
    [Utf8.Encode(Ascii(CONTEXT)), Utf8.Encode(grant.memberUserId),
     Utf8.Encode(grant.workspaceKeyId), Utf8.Encode(grant.wrappedMekCiphertext)]
  }

  function Prefixed(fields: seq<Bytes>): seq<Bytes> {
    seq(|fields|, i requires 0 <= i < |fields| => LenField(fields[i]))
  }

  /** The canonical bytes of a grant. */
  function GrantBytes(grant: MemberGrant): Bytes {
    Flatten(Prefixed(Fields(grant)))
  }

  method LenFieldOf(s: Utf16) returns (field: array<Byte>)
    ensures field[..] == LenField(Utf8.Encode(s)) && fresh(field)
  {
    var utf8 := Utf8.Encode(s);
    field := new Byte[4 + |utf8|];
    var head := Uint32BE(|utf8|);
    field[0], field[1], field[2], field[3] := head[0], head[1], head[2], head[3];
    Set(field, utf8, 4);
    assert field[..4] == head;
    assert field[..] == field[..4] + field[4..];
  }

  /** Copies p over the bytes that start at offset. */
  method Set(out: array<Byte>, p: Bytes, offset: nat)
    requires offset + |p| <= out.Length
    modifies out
    ensures out[..] == old(out[..offset]) + p + old(out[offset + |p|..])
  {
    for i := 0 to |p|
      invariant out[..offset] == old(out[..offset])
      invariant out[offset..offset + i] == p[..i]
      invariant out[offset + |p|..] == old(out[offset + |p|..])
    {
      out[offset + i] := p[i];
      assert out[offset..offset + i + 1] == out[offset..offset + i] + [p[i]];
    }
    assert out[..] == out[..offset] + out[offset..offset + |p|] + out[offset + |p|..];
  }

  function Total(parts: seq<Bytes>): nat {
    |Flatten(parts)|
  }

  lemma {:induction false} FlattenSnoc(parts: seq<Bytes>, p: Bytes)
    ensures Flatten(parts + [p]) == Flatten(parts) + p
  {
    if parts == [] {
      assert parts + [p] == [p];
    } else {
      assert (parts + [p])[1..] == parts[1..] + [p];
      FlattenSnoc(parts[1..], p);
    }
  }

  lemma {:induction false} FlattenPrefix(parts: seq<Bytes>, n: nat)
    requires n <= |parts|
    ensures Flatten(parts) == Flatten(parts[..n]) + Flatten(parts[n..])
  {
    if n == 0 {
      assert parts[0..] == parts;
    } else {
      FlattenPrefix(parts, n - 1);
      assert parts[..n] == parts[..n - 1] + [parts[n - 1]];
      FlattenSnoc(parts[..n - 1], parts[n - 1]);
      assert parts[n - 1..][1..] == parts[n..];
    }
  }

  lemma FlattenStep(parts: seq<Bytes>, i: nat)
    requires i < |parts|
    ensures Flatten(parts[..i + 1]) == Flatten(parts[..i]) + parts[i]
    ensures |Flatten(parts[..i])| + |parts[i]| <= Total(parts)
  {
    assert parts[..i + 1] == parts[..i] + [parts[i]];
    FlattenSnoc(parts[..i], parts[i]);
    FlattenPrefix(parts, i + 1);
  }

  /** Allocates the output and copies each part in at a moving offset. */
  method Concatenate(parts: seq<Bytes>) returns (out: array<Byte>)
    ensures out[..] == Flatten(parts) && fresh(out)
  {
    out := new Byte[Total(parts)];
    var offset := 0;
    for i := 0 to |parts|
      invariant offset == |Flatten(parts[..i])| <= out.Length
      invariant out[..offset] == Flatten(parts[..i])
    {
      FlattenStep(parts, i);
      Set(out, parts[i], offset);
      offset := offset + |parts[i]|;
    }
    assert parts[..|parts|] == parts;
    assert out[..offset] == out[..];
  }

  lemma PartsArePrefixed(fields: seq<Bytes>, parts: seq<Bytes>)
    requires |parts| == |fields| && forall i | 0 <= i < |parts| :: parts[i] == LenField(fields[i])
    ensures parts == Prefixed(fields)
  {
  }

  /** canonicalGrantBytes */
  method CanonicalGrantBytes(grant: MemberGrant) returns (out: array<Byte>)
    ensures out[..] == GrantBytes(grant) && fresh(out)
  {
    hide LenField, Utf8.Encode, Prefixed, Flatten;
    var context := LenFieldOf(Ascii(CONTEXT));
    var member := LenFieldOf(grant.memberUserId);
    var workspace := LenFieldOf(grant.workspaceKeyId);
    var wrapped := LenFieldOf(grant.wrappedMekCiphertext);
    var parts := [context[..], member[..], workspace[..], wrapped[..]];
    PartsArePrefixed(Fields(grant), parts);
    out := Concatenate(parts);
  }

  // ----------------------------------------------------------------- reader

  /** Reads count length-prefixed fields; returns them and what follows. */
  function ReadFields(b: Bytes, count: nat): Option<(seq<Bytes>, Bytes)> {
    if count == 0 then Some(([], b))
    else if |b| < 4 then None
    else
      var n := ReadUint32BE(b);
      if |b| < 4 + n then None
      else match ReadFields(b[4 + n..], count - 1)
        case None => None
        case Some((more, rest)) => Some(([b[4..4 + n]] + more, rest))
  }

  predicate AllShort(fields: seq<Bytes>) {
    forall f | f in fields :: |f| < TWO_TO_THE_32
  }

  lemma ReadOneField(f: Bytes, after: Bytes)
    requires |f| < TWO_TO_THE_32
    ensures var b := LenField(f) + after;
            ReadUint32BE(b) == |f| && b[4..4 + |f|] == f && b[4 + |f|..] == after
  {
    Uint32RoundTrip(|f|);
    var b := LenField(f) + after;
    assert b[..4] == Uint32BE(|f|);
    assert b[0] == b[..4][0] && b[1] == b[..4][1] && b[2] == b[..4][2] && b[3] == b[..4][3];
  }

  lemma {:induction false} ReadPrefixed(fields: seq<Bytes>, rest: Bytes)
    requires AllShort(fields)
    ensures ReadFields(Flatten(Prefixed(fields)) + rest, |fields|) == Some((fields, rest))
  {
    if fields == [] {
      assert Flatten(Prefixed(fields)) + rest == rest;
    } else {
      var after := Flatten(Prefixed(fields[1..])) + rest;
      assert Prefixed(fields)[1..] == Prefixed(fields[1..]);
      assert Flatten(Prefixed(fields)) + rest == LenField(fields[0]) + after;
      ReadOneField(fields[0], after);
      ReadPrefixed(fields[1..], rest);
      assert fields == [fields[0]] + fields[1..];
    }
  }

  predicate ShortFields(grant: MemberGrant) {
    AllShort(Fields(grant))
  }

  /** The length-prefix reader gets the four fields back. */
  lemma ReadGrant(grant: MemberGrant, rest: Bytes)
    requires ShortFields(grant)
    ensures ReadFields(GrantBytes(grant) + rest, 4) ==
            Some(([Utf8.Encode(Ascii("orangerails:add-member:mek-wrap:v1")), Utf8.Encode(grant.memberUserId),
                   Utf8.Encode(grant.workspaceKeyId), Utf8.Encode(grant.wrappedMekCiphertext)], rest))
  {
    ReadPrefixed(Fields(grant), rest);
  }

  lemma PrefixedNotProperPrefix(a: seq<Bytes>, b: seq<Bytes>)
    requires AllShort(a) && AllShort(b) && |a| == |b|
    requires Flatten(Prefixed(a)) <= Flatten(Prefixed(b))
    ensures a == b
  {
    var x, y := Flatten(Prefixed(a)), Flatten(Prefixed(b));
    var rest := y[|x|..];
    assert x + rest == y == y + [];
    ReadPrefixed(a, rest);
    ReadPrefixed(b, []);
  }

  /**
   * Equal signed bytes mean byte-for-byte equal fields, and no signed message
   * is a proper prefix of another.
   */
  lemma GrantBytesInjective(a: MemberGrant, b: MemberGrant)
    requires ShortFields(a) && ShortFields(b)
    ensures GrantBytes(a) <= GrantBytes(b) <==> Fields(a) == Fields(b)
    ensures GrantBytes(a) == GrantBytes(b) <==> Fields(a) == Fields(b)
  {
    if GrantBytes(a) <= GrantBytes(b) {
      PrefixedNotProperPrefix(Fields(a), Fields(b));
    }
  }

  predicate WellFormedGrant(grant: MemberGrant) {
    && Utf8.WellFormed(grant.memberUserId)
    && Utf8.WellFormed(grant.workspaceKeyId)
    && Utf8.WellFormed(grant.wrappedMekCiphertext)
  }

  /** Over fields without lone surrogates the signed bytes name exactly one grant. */
  lemma SignedBytesNameOneGrant(a: MemberGrant, b: MemberGrant)
    requires ShortFields(a) && ShortFields(b) && WellFormedGrant(a) && WellFormedGrant(b)
    ensures GrantBytes(a) == GrantBytes(b) <==> a == b
  {
    GrantBytesInjective(a, b);
    Utf8.EncodeInjective(a.memberUserId, b.memberUserId);
    Utf8.EncodeInjective(a.workspaceKeyId, b.workspaceKeyId);
    Utf8.EncodeInjective(a.wrappedMekCiphertext, b.wrappedMekCiphertext);
    if Fields(a) == Fields(b) {
      assert Fields(a)[1] == Fields(b)[1] && Fields(a)[2] == Fields(b)[2] && Fields(a)[3] == Fields(b)[3];
    }
  }

  /** No field has a lone surrogate or the replacement character. */
  predicate FaithfulGrant(grant: MemberGrant) {
    && Utf8.Faithful(grant.memberUserId)
    && Utf8.Faithful(grant.workspaceKeyId)
    && Utf8.Faithful(grant.wrappedMekCiphertext)
  }

  lemma SameFields(a: MemberGrant, b: MemberGrant)
    ensures Fields(a) == Fields(b) <==>
            && Utf8.Encode(a.memberUserId) == Utf8.Encode(b.memberUserId)
            && Utf8.Encode(a.workspaceKeyId) == Utf8.Encode(b.workspaceKeyId)
            && Utf8.Encode(a.wrappedMekCiphertext) == Utf8.Encode(b.wrappedMekCiphertext)
  {
    hide Utf8.Encode;
    if Fields(a) == Fields(b) {
      assert Fields(a)[1] == Fields(b)[1] && Fields(a)[2] == Fields(b)[2] && Fields(a)[3] == Fields(b)[3];
    }
  }

  /** A grant with another member, workspace key or ciphertext of the same bytes. */
  lemma UnfaithfulGrantShares(a: MemberGrant) returns (b: MemberGrant)
    requires !FaithfulGrant(a)
    ensures b != a && Fields(b) == Fields(a)
  {
    hide Utf8.Encode, Utf8.Faithful;
    if !Utf8.Faithful(a.memberUserId) {
      var other := Utf8.UnfaithfulShares(a.memberUserId);
      b := a.(memberUserId := other);
    } else if !Utf8.Faithful(a.workspaceKeyId) {
      var other := Utf8.UnfaithfulShares(a.workspaceKeyId);
      b := a.(workspaceKeyId := other);
    } else {
      var other := Utf8.UnfaithfulShares(a.wrappedMekCiphertext);
      b := a.(wrappedMekCiphertext := other);
    }
    SameFields(a, b);
  }

  lemma FaithfulGrantAlone(a: MemberGrant, b: MemberGrant)
    requires FaithfulGrant(a) && Fields(a) == Fields(b)
    ensures a == b
  {
    hide Utf8.Encode, Utf8.Faithful;
    SameFields(a, b);
    Utf8.FaithfulAlone(a.memberUserId, b.memberUserId);
    Utf8.FaithfulAlone(a.workspaceKeyId, b.workspaceKeyId);
    Utf8.FaithfulAlone(a.wrappedMekCiphertext, b.wrappedMekCiphertext);
  }

  /** The signed bytes of a grant are those of no other exactly when it is faithful. */
  lemma SignedBytesUniqueIff(a: MemberGrant)
    requires ShortFields(a)
    ensures FaithfulGrant(a) <==> forall b | ShortFields(b) && GrantBytes(b) == GrantBytes(a) :: b == a
  {
    hide Utf8.Encode, Utf8.Faithful, GrantBytes, Fields;
    if FaithfulGrant(a) {
      forall b | ShortFields(b) && GrantBytes(b) == GrantBytes(a)
        ensures b == a
      {
        GrantBytesInjective(a, b);
        FaithfulGrantAlone(a, b);
      }
    } else {
      var b := UnfaithfulGrantShares(a);
      GrantBytesInjective(a, b);
    }
  }

  /** With lone surrogates they need not: two different members, one message. */
  lemma LoneSurrogateGrantsCollide(workspaceKeyId: Utf16, wrapped: Utf16)
    ensures var a := MemberGrant([0xD800], workspaceKeyId, wrapped);
            var b := MemberGrant([0xDFFF], workspaceKeyId, wrapped);
            a != b && GrantBytes(a) == GrantBytes(b)
  {
  }
}
