/** The associated data a wrapped keyring is bound to (src/lib/keyring.ts). */
module KeyringBinding {
  import opened Wrappers
  import opened Text
  import Utf8

  /** A JavaScript value as canonicalKeyringEpoch and canonicalizeUserId see it. */
  datatype JsValue =
    | JsNumber(value: real)
    | JsNonFinite
    | JsString(s: Utf16)
    | JsOther

  const MAX_SAFE_INTEGER: nat := 0x1F_FFFF_FFFF_FFFF
  const AAD_PREFIX: string := "orangerails-keyring-v1"
  const BAR: CodeUnit := 124
  const HYPHEN: CodeUnit := 45

  datatype BindingError = BadEpoch | BadUserId

  function Abs(i: int): nat {
    if i < 0 then -i else i
  }

  predicate IsSafeInteger(x: real) {
    x == x.Floor as real && Abs(x.Floor) <= MAX_SAFE_INTEGER
  }

  /** canonicalKeyringEpoch */
  function CanonicalEpoch(v: JsValue): Result<Utf16, BindingError> {
    match v
    case JsNumber(x) =>
      if !IsSafeInteger(x) || x < 1.0 then Failure(BadEpoch) else Success(Digits(x.Floor))
    case JsString(s) =>
      if !IsCanonicalDecimal(s) then Failure(BadEpoch)
      else if Value(s) > MAX_SAFE_INTEGER then Failure(BadEpoch)
      else Success(s)
    case _ => Failure(BadEpoch)
  }

  /** The epoch a value stands for, said without the canonical form. */
  ghost predicate DenotesEpoch(v: JsValue, epoch: int) {
    && 1 <= epoch <= MAX_SAFE_INTEGER
    && (v == JsNumber(epoch as real) || v == JsString(Digits(epoch)))
  }

  /** Exactly the integers 1 to 2^53 - 1 are accepted, each in two spellings. */
  lemma AcceptedEpochs(v: JsValue)
    ensures CanonicalEpoch(v).Success? <==> exists epoch :: DenotesEpoch(v, epoch)
    ensures forall epoch :: DenotesEpoch(v, epoch) ==> CanonicalEpoch(v) == Success(Digits(epoch))
  {
    forall epoch | DenotesEpoch(v, epoch)
      ensures CanonicalEpoch(v) == Success(Digits(epoch))
    {
      ValueOfDigits(epoch);
    }
    if CanonicalEpoch(v).Success? {
      match v
      case JsNumber(x) =>
        assert DenotesEpoch(v, x.Floor);
      case JsString(s) =>
        DigitsOfValue(s);
        assert DenotesEpoch(v, Value(s));
    }
  }

  predicate IsHexDigit(u: CodeUnit) {
    IsDigit(u) || 97 <= u <= 102 || 65 <= u <= 70
  }

  predicate IsHyphenPlace(i: int) {
    i == 8 || i == 13 || i == 18 || i == 23
  }

  /** UUID_SHAPE: 8-4-4-4-12 hexadecimal digits in either case. */
  predicate IsUuid(s: Utf16) {
    |s| == 36 && forall i | 0 <= i < 36 :: if IsHyphenPlace(i) then s[i] == HYPHEN else IsHexDigit(s[i])
  }

  function Lower(u: CodeUnit): CodeUnit {
    if 65 <= u <= 90 then u + 32 else u
  }

  function ToLowerCase(s: Utf16): (r: Utf16)
    ensures |r| == |s|
  {
    seq(|s|, i requires 0 <= i < |s| => Lower(s[i]))
  }

  /** canonicalizeUserId */
  function CanonicalUserId(v: JsValue): Result<Utf16, BindingError> {
    match v
    case JsString(s) => if !IsUuid(s) then Failure(BadUserId) else Success(ToLowerCase(s))
    case _ => Failure(BadUserId)
  }

  /** Equal but for the case of ASCII letters. */
  predicate SameUpToCase(a: Utf16, b: Utf16) {
    && |a| == |b|
    && forall i | 0 <= i < |a| ::
         || a[i] == b[i]
         || (65 <= a[i] <= 90 && b[i] == a[i] + 32)
         || (65 <= b[i] <= 90 && a[i] == b[i] + 32)
  }

  lemma LowerCaseMeans(a: Utf16, b: Utf16)
    ensures ToLowerCase(a) == ToLowerCase(b) <==> SameUpToCase(a, b)
  {
    if ToLowerCase(a) == ToLowerCase(b) {
      forall i | 0 <= i < |a|
        ensures Lower(a[i]) == Lower(b[i])
      {
        assert ToLowerCase(a)[i] == ToLowerCase(b)[i];
      }
    } else if SameUpToCase(a, b) {
      assert forall i | 0 <= i < |a| :: ToLowerCase(a)[i] == ToLowerCase(b)[i];
    }
  }

  /** Exactly the strings of UUID shape are accepted; the canonical form is the same id in lower case. */
  lemma AcceptedUserIds(v: JsValue)
    ensures CanonicalUserId(v).Success? <==> v.JsString? && IsUuid(v.s)
    ensures CanonicalUserId(v).Success? ==>
              && IsUuid(CanonicalUserId(v).value) && SameUpToCase(v.s, CanonicalUserId(v).value)
              && forall i | 0 <= i < 36 :: !(65 <= CanonicalUserId(v).value[i] <= 90)
  {
  }

  datatype Binding = Binding(userId: JsValue, keyringEpoch: JsValue)

  function AadText(userId: Utf16, epoch: Utf16): Utf16 {
    Ascii(AAD_PREFIX) + [BAR] + userId + [BAR] + epoch
  }

  /** aadBytes */
  function AadBytes(b: Binding): Result<Bytes, BindingError> {
    var userId :- CanonicalUserId(b.userId);
    var epoch :- CanonicalEpoch(b.keyringEpoch);
    Success(Utf8.Encode(AadText(userId, epoch)))
  }

  lemma AadTextInjective(u1: Utf16, e1: Utf16, u2: Utf16, e2: Utf16)
    requires |u1| == |u2|
    requires AadText(u1, e1) == AadText(u2, e2)
    ensures u1 == u2 && e1 == e2
  {
    var n := |AAD_PREFIX| + 1;
    assert u1 == AadText(u1, e1)[n..n + |u1|];
    assert u2 == AadText(u2, e2)[n..n + |u2|];
    assert e1 == AadText(u1, e1)[n + |u1| + 1..];
    assert e2 == AadText(u2, e2)[n + |u2| + 1..];
  }

  lemma AadTextAscii(userId: Utf16, epoch: Utf16)
    requires IsUuid(userId) && AllDigits(epoch)
    ensures Utf8.WellFormed(AadText(ToLowerCase(userId), epoch))
  {
    Utf8.AsciiWellFormed(AadText(ToLowerCase(userId), epoch));
  }

  lemma CanonicalEpochIsDigits(v: JsValue)
    ensures CanonicalEpoch(v).Success? ==> IsCanonicalDecimal(CanonicalEpoch(v).value)
  {
  }

  /** Two bindings share their bytes exactly when both canonical fields agree. */
  lemma AadBytesInjective(a: Binding, b: Binding)
    requires AadBytes(a).Success? && AadBytes(b).Success?
    ensures AadBytes(a) == AadBytes(b) <==>
            && CanonicalUserId(a.userId) == CanonicalUserId(b.userId)
            && CanonicalEpoch(a.keyringEpoch) == CanonicalEpoch(b.keyringEpoch)
  {
    var u1, e1 := CanonicalUserId(a.userId).value, CanonicalEpoch(a.keyringEpoch).value;
    var u2, e2 := CanonicalUserId(b.userId).value, CanonicalEpoch(b.keyringEpoch).value;
    CanonicalEpochIsDigits(a.keyringEpoch);
    CanonicalEpochIsDigits(b.keyringEpoch);
    AadTextAscii(a.userId.s, e1);
    AadTextAscii(b.userId.s, e2);
    Utf8.EncodeInjective(AadText(u1, e1), AadText(u2, e2));
    if AadBytes(a) == AadBytes(b) {
      AadTextInjective(u1, e1, u2, e2);
    }
  }

  /** ... that is, when the epochs are the same number and the ids match up to case. */
  lemma AadBytesMean(a: Binding, b: Binding, m: int, n: int)
    requires AadBytes(a).Success? && AadBytes(b).Success?
    requires DenotesEpoch(a.keyringEpoch, m) && DenotesEpoch(b.keyringEpoch, n)
    ensures AadBytes(a) == AadBytes(b) <==> m == n && SameUpToCase(a.userId.s, b.userId.s)
  {
    LowerCaseMeans(a.userId.s, b.userId.s);
    AadBytesInjective(a, b);
    AcceptedEpochs(a.keyringEpoch);
    AcceptedEpochs(b.keyringEpoch);
    DigitsInjective(m, n);
  }
}
