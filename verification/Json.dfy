/**
 * JSON.stringify on the values this code serializes, and a reader that undoes
 * it. Strings are escaped as in section 7 of RFC 8259, with the well-formed
 * JSON.stringify rule that an unpaired surrogate is written as \uXXXX.
 */
module Json {
  import opened Wrappers
  import opened Text
  import opened Sequences
  import Utf8

  datatype Json =
    | JNull
    | JNum(n: nat)
    | JStr(s: Utf16)
    | JArr(items: seq<Json>)
    | JObj(fields: seq<(Utf16, Json)>)

  const QUOTE: CodeUnit := 34
  const BACKSLASH: CodeUnit := 92
  const COMMA: CodeUnit := 44
  const COLON: CodeUnit := 58
  const OPEN_ARRAY: CodeUnit := 91
  const CLOSE_ARRAY: CodeUnit := 93
  const OPEN_OBJECT: CodeUnit := 123
  const CLOSE_OBJECT: CodeUnit := 125
  const LETTER_U: CodeUnit := 117

  // ---------------------------------------------------------------- strings

  function HexDigit(d: nat): CodeUnit
    requires d < 16
  {
    if d < 10 then 48 + d else 87 + d
  }

  function HexValue(u: CodeUnit): Option<nat> {
    if 48 <= u <= 57 then Some(u - 48)
    else if 97 <= u <= 102 then Some(u - 87)
    else if 65 <= u <= 70 then Some(u - 55)
    else None
  }

  function UnicodeEscape(u: CodeUnit): Utf16 {
    [BACKSLASH, LETTER_U,
     HexDigit(u / 16 / 16 / 16), HexDigit(u / 16 / 16 % 16), HexDigit(u / 16 % 16), HexDigit(u % 16)]
  }

  /** The letter of a two-character escape, for the units that have one. */
  function ShortEscape(u: CodeUnit): Option<CodeUnit> {
    if u == 8 then Some(98)
    else if u == 9 then Some(116)
    else if u == 10 then Some(110)
    else if u == 12 then Some(102)
    else if u == 13 then Some(114)
    else if u == QUOTE then Some(QUOTE)
    else if u == BACKSLASH then Some(BACKSLASH)
    else None
  }

  /** One code unit that is not half of a surrogate pair. */
  function EscapeUnit(u: CodeUnit): Utf16 {
    if ShortEscape(u).Some? then [BACKSLASH, ShortEscape(u).value]
    else if u < 0x20 || Utf8.IsHigh(u) || Utf8.IsLow(u) then UnicodeEscape(u)
    else [u]
  }

  function EscapeBody(s: Utf16): Utf16
    decreases |s|
  {
    if s == [] then []
    else if Utf8.StartsWithPair(s) then s[..2] + EscapeBody(s[2..])
    else EscapeUnit(s[0]) + EscapeBody(s[1..])
  }

  function Quote(s: Utf16): Utf16 {
    [QUOTE] + EscapeBody(s) + [QUOTE]
  }

  function UnescapeLetter(u: CodeUnit): Option<CodeUnit> {
    if u == 98 then Some(8)
    else if u == 116 then Some(9)
    else if u == 110 then Some(10)
    else if u == 102 then Some(12)
    else if u == 114 then Some(13)
    else if u == QUOTE || u == BACKSLASH || u == 47 then Some(u)
    else None
  }

  function ReadHex(t: Utf16): Option<CodeUnit>
    requires |t| >= 4
  {
    match (HexValue(t[0]), HexValue(t[1]), HexValue(t[2]), HexValue(t[3]))
    case (Some(a), Some(b), Some(c), Some(d)) =>
      if a < 16 && b < 16 && c < 16 && d < 16 then Some(a * 4096 + b * 256 + c * 16 + d) else None
    case _ => None
  }

  function Push(u: CodeUnit, r: Option<(Utf16, Utf16)>): Option<(Utf16, Utf16)> {
    match r
    case None => None
    case Some((s, rest)) => Some(([u] + s, rest))
  }

  /** Reads a string body up to its closing quote; returns it and what follows. */
  function ReadBody(t: Utf16): (r: Option<(Utf16, Utf16)>)
    ensures r.Some? ==> |r.value.1| < |t|
    decreases |t|
  {
    if t == [] then None
    else if t[0] == QUOTE then Some(([], t[1..]))
    else if t[0] != BACKSLASH then
      if t[0] < 0x20 then None else Push(t[0], ReadBody(t[1..]))
    else if |t| < 2 then None
    else if t[1] == LETTER_U then
      if |t| < 6 || ReadHex(t[2..]).None? then None
      else Push(ReadHex(t[2..]).value, ReadBody(t[6..]))
    else match UnescapeLetter(t[1])
      case None => None
      case Some(u) => Push(u, ReadBody(t[2..]))
  }

  lemma ReadUnicodeEscape(u: CodeUnit, tail: Utf16)
    ensures ReadBody(UnicodeEscape(u) + tail) == Push(u, ReadBody(tail))
  {
  }

  lemma ReadShortEscape(u: CodeUnit, tail: Utf16)
    requires ShortEscape(u).Some?
    ensures ReadBody([BACKSLASH, ShortEscape(u).value] + tail) == Push(u, ReadBody(tail))
  {
  }

  lemma ReadEscapedUnit(u: CodeUnit, tail: Utf16)
    ensures ReadBody(EscapeUnit(u) + tail) == Push(u, ReadBody(tail))
  {
    if ShortEscape(u).Some? {
      ReadShortEscape(u, tail);
    } else if u < 0x20 || Utf8.IsHigh(u) || Utf8.IsLow(u) {
      ReadUnicodeEscape(u, tail);
    } else {
      ReadRawUnit(u, tail);
    }
  }

  lemma ReadRawUnit(u: CodeUnit, tail: Utf16)
    requires u >= 0x20 && u != QUOTE && u != BACKSLASH
    ensures ReadBody([u] + tail) == Push(u, ReadBody(tail))
  {
  }

  lemma ReadRawPair(high: CodeUnit, low: CodeUnit, tail: Utf16)
    requires Utf8.IsHigh(high) && Utf8.IsLow(low)
    ensures ReadBody([high, low] + tail) == Push(high, Push(low, ReadBody(tail)))
  {
  }

  lemma EscapesLowerCase(u: CodeUnit)
    ensures |EscapeUnit(u)| > 1 ==> forall x | x in EscapeUnit(u) :: !(65 <= x <= 90)
  {
  }

  /** No shorter text reads as the same unit. */
  lemma ShortestEscape(u: CodeUnit, t: Utf16)
    requires t != [] && !Utf8.IsHigh(u) && !Utf8.IsLow(u)
    requires ReadBody(t).Some? && [u] <= ReadBody(t).value.0
    ensures |EscapeUnit(u)| <= |t| - |ReadBody(t).value.1|
  {
    hide ReadHex;
    assert ReadBody(t).value.0[0] == u;
  }

  lemma {:induction false} ReadEscapedBody(s: Utf16, rest: Utf16)
    ensures ReadBody(EscapeBody(s) + ([QUOTE] + rest)) == Some((s, rest))
    decreases |s|
  {
    var tail := [QUOTE] + rest;
    if s == [] {
      assert EscapeBody(s) + tail == tail;
      assert tail[1..] == rest;
    } else if Utf8.StartsWithPair(s) {
      var body := EscapeBody(s[2..]);
      ReadEscapedBody(s[2..], rest);
      Assoc(s[..2], body, tail);
      assert s[..2] == [s[0], s[1]];
      ReadRawPair(s[0], s[1], body + tail);
      assert s == [s[0]] + ([s[1]] + s[2..]);
    } else {
      var body := EscapeBody(s[1..]);
      ReadEscapedBody(s[1..], rest);
      Assoc(EscapeUnit(s[0]), body, tail);
      ReadEscapedUnit(s[0], body + tail);
      assert s == [s[0]] + s[1..];
    }
  }

  lemma {:induction false} EscapedBodyWellFormed(s: Utf16)
    ensures Utf8.WellFormed(EscapeBody(s))
    decreases |s|
  {
    if s == [] {
    } else if Utf8.StartsWithPair(s) {
      EscapedBodyWellFormed(s[2..]);
      assert Utf8.WellFormed(s[..2]);
      Utf8.WellFormedConcat(s[..2], EscapeBody(s[2..]));
    } else {
      EscapedBodyWellFormed(s[1..]);
      if ShortEscape(s[0]).Some? || s[0] < 0x20 || Utf8.IsHigh(s[0]) || Utf8.IsLow(s[0]) {
        Utf8.AsciiWellFormed(EscapeUnit(s[0]));
      }
      Utf8.WellFormedConcat(EscapeUnit(s[0]), EscapeBody(s[1..]));
    }
  }

  lemma QuoteWellFormed(s: Utf16)
    ensures Utf8.WellFormed(Quote(s))
  {
    EscapedBodyWellFormed(s);
    Utf8.WellFormedConcat([QUOTE], EscapeBody(s));
    Utf8.WellFormedConcat([QUOTE] + EscapeBody(s), [QUOTE]);
  }

  // ----------------------------------------------------------------- values

  /** JSON.stringify(j) with no indentation. */
  function Print(j: Json): Utf16
    decreases j, 1
  {
    match j
    case JNull => Ascii("null")
    case JNum(n) => Digits(n)
    case JStr(s) => Quote(s)
    case JArr(items) => [OPEN_ARRAY] + PrintItems(items) + [CLOSE_ARRAY]
    case JObj(fields) => [OPEN_OBJECT] + PrintFields(fields) + [CLOSE_OBJECT]
  }

  function PrintItems(items: seq<Json>): Utf16
    decreases items, 0
  {
    if items == [] then []
    else if |items| == 1 then Print(items[0])
    else Print(items[0]) + [COMMA] + PrintItems(items[1..])
  }

  function PrintField(f: (Utf16, Json)): Utf16
    decreases f, 2
  {
    Quote(f.0) + [COLON] + Print(f.1)
  }

  function PrintFields(fields: seq<(Utf16, Json)>): Utf16
    decreases fields, 0
  {
    if fields == [] then []
    else if |fields| == 1 then PrintField(fields[0])
    else PrintField(fields[0]) + [COMMA] + PrintFields(fields[1..])
  }

  /** How many digits t starts with. */
  function DigitRun(t: Utf16): (n: nat)
    ensures n <= |t| && AllDigits(t[..n])
  {
    if t == [] || !IsDigit(t[0]) then 0
    else
      assert AllDigits(t[1..][..DigitRun(t[1..])]);
      1 + DigitRun(t[1..])
  }

  /** Reads one value off the front of t; returns it and what follows. */
  function ReadValue(t: Utf16): (r: Option<(Json, Utf16)>)
    ensures r.Some? ==> |r.value.1| < |t|
    decreases |t|, 1
  {
    if t == [] then None
    else if t[0] == QUOTE then
      match ReadBody(t[1..])
      case None => None
      case Some((s, rest)) => Some((JStr(s), rest))
    else if IsDigit(t[0]) then
      var n := DigitRun(t);
      if n == 0 || (t[0] == ZERO && n > 1) then None else Some((JNum(Value(t[..n])), t[n..]))
    else if t[0] == OPEN_ARRAY then
      if |t| >= 2 && t[1] == CLOSE_ARRAY then Some((JArr([]), t[2..]))
      else match ReadItems(t[1..])
        case None => None
        case Some((items, rest)) => Some((JArr(items), rest))
    else if t[0] == OPEN_OBJECT then
      if |t| >= 2 && t[1] == CLOSE_OBJECT then Some((JObj([]), t[2..]))
      else match ReadFields(t[1..])
        case None => None
        case Some((fields, rest)) => Some((JObj(fields), rest))
    else if |t| >= 4 && t[..4] == Ascii("null") then Some((JNull, t[4..]))
    else None
  }

  /** Reads one or more comma-separated values and the closing bracket. */
  function ReadItems(t: Utf16): (r: Option<(seq<Json>, Utf16)>)
    ensures r.Some? ==> |r.value.1| < |t|
    decreases |t|, 2
  {
    match ReadValue(t)
    case None => None
    case Some((first, rest)) =>
      if rest == [] then None
      else if rest[0] == CLOSE_ARRAY then Some(([first], rest[1..]))
      else if rest[0] != COMMA then None
      else match ReadItems(rest[1..])
        case None => None
        case Some((more, after)) => Some(([first] + more, after))
  }

  function ReadField(t: Utf16): (r: Option<((Utf16, Json), Utf16)>)
    ensures r.Some? ==> |r.value.1| < |t|
    decreases |t|, 0
  {
    if t == [] || t[0] != QUOTE then None
    else match ReadBody(t[1..])
      case None => None
      case Some((name, rest)) =>
        if rest == [] || rest[0] != COLON then None
        else match ReadValue(rest[1..])
          case None => None
          case Some((j, after)) => Some(((name, j), after))
  }

  /** Reads one or more comma-separated fields and the closing brace. */
  function ReadFields(t: Utf16): (r: Option<(seq<(Utf16, Json)>, Utf16)>)
    ensures r.Some? ==> |r.value.1| < |t|
    decreases |t|, 2
  {
    match ReadField(t)
    case None => None
    case Some((first, rest)) =>
      if rest == [] then None
      else if rest[0] == CLOSE_OBJECT then Some(([first], rest[1..]))
      else if rest[0] != COMMA then None
      else match ReadFields(rest[1..])
        case None => None
        case Some((more, after)) => Some(([first] + more, after))
  }

  /** JSON.parse, on the compact texts JSON.stringify produces. */
  function Parse(t: Utf16): Option<Json> {
    match ReadValue(t)
    case None => None
    case Some((j, rest)) => if rest == [] then Some(j) else None
  }

  // ------------------------------------------------- reading undoes printing

  predicate NoDigitFirst(rest: Utf16) {
    rest == [] || !IsDigit(rest[0])
  }

  lemma {:induction false} DigitRunStops(s: Utf16, rest: Utf16)
    requires AllDigits(s) && NoDigitFirst(rest)
    ensures DigitRun(s + rest) == |s|
  {
    if s == [] {
      assert s + rest == rest;
    } else {
      assert (s + rest)[1..] == s[1..] + rest;
      DigitRunStops(s[1..], rest);
    }
  }

  lemma ReadPrintedNumber(n: nat, rest: Utf16)
    requires NoDigitFirst(rest)
    ensures ReadValue(Digits(n) + rest) == Some((JNum(n), rest))
  {
    var t := Digits(n) + rest;
    DigitRunStops(Digits(n), rest);
    ValueOfDigits(n);
    assert t[..|Digits(n)|] == Digits(n) && t[|Digits(n)|..] == rest;
    assert t[0] == Digits(n)[0];
  }

  lemma ReadQuoted(s: Utf16, rest: Utf16)
    ensures var t := Quote(s) + rest; t[0] == QUOTE && ReadBody(t[1..]) == Some((s, rest))
  {
    ReadEscapedBody(s, rest);
    assert (Quote(s) + rest)[1..] == EscapeBody(s) + ([QUOTE] + rest);
  }

  lemma PrintStart(j: Json)
    ensures Print(j) != [] && Print(j)[0] != CLOSE_ARRAY && Print(j)[0] != CLOSE_OBJECT
  {
  }

  lemma {:induction false} ReadPrinted(j: Json, rest: Utf16)
    requires NoDigitFirst(rest)
    ensures ReadValue(Print(j) + rest) == Some((j, rest))
    decreases j, 1
  {
    match j
    case JNull => ReadNull(rest);
    case JNum(n) => ReadPrintedNumber(n, rest);
    case JStr(s) => ReadQuoted(s, rest);
    case JArr(items) =>
      if items != [] {
        ReadPrintedItems(items, rest);
      }
      ReadArray(items, rest);
    case JObj(fields) =>
      if fields != [] {
        ReadPrintedFields(fields, rest);
      }
      ReadObject(fields, rest);
  }

  lemma ReadNull(rest: Utf16)
    ensures ReadValue(Print(JNull) + rest) == Some((JNull, rest))
  {
  }

  lemma ArrayOf(t: Utf16, items: seq<Json>, rest: Utf16)
    requires |t| >= 2 && t[0] == OPEN_ARRAY && t[1] != CLOSE_ARRAY
    requires ReadItems(t[1..]) == Some((items, rest))
    ensures ReadValue(t) == Some((JArr(items), rest))
  {
  }

  lemma ObjectOf(t: Utf16, fields: seq<(Utf16, Json)>, rest: Utf16)
    requires |t| >= 2 && t[0] == OPEN_OBJECT && t[1] != CLOSE_OBJECT
    requires ReadFields(t[1..]) == Some((fields, rest))
    ensures ReadValue(t) == Some((JObj(fields), rest))
  {
  }

  lemma ReadArray(items: seq<Json>, rest: Utf16)
    requires items != [] ==> ReadItems(PrintItems(items) + ([CLOSE_ARRAY] + rest)) == Some((items, rest))
    ensures ReadValue(Print(JArr(items)) + rest) == Some((JArr(items), rest))
  {
    var inner := PrintItems(items) + ([CLOSE_ARRAY] + rest);
    Wrapped(OPEN_ARRAY, PrintItems(items), CLOSE_ARRAY, rest);
    DropFirst(OPEN_ARRAY, inner);
    if items == [] {
      assert Print(JArr(items)) + rest == [OPEN_ARRAY, CLOSE_ARRAY] + rest;
      assert ([OPEN_ARRAY, CLOSE_ARRAY] + rest)[2..] == rest;
    } else {
      PrintStart(items[0]);
      assert inner[0] == Print(items[0])[0];
      ArrayOf([OPEN_ARRAY] + inner, items, rest);
    }
  }

  lemma ReadObject(fields: seq<(Utf16, Json)>, rest: Utf16)
    requires fields != [] ==> ReadFields(PrintFields(fields) + ([CLOSE_OBJECT] + rest)) == Some((fields, rest))
    ensures ReadValue(Print(JObj(fields)) + rest) == Some((JObj(fields), rest))
  {
    var inner := PrintFields(fields) + ([CLOSE_OBJECT] + rest);
    Wrapped(OPEN_OBJECT, PrintFields(fields), CLOSE_OBJECT, rest);
    DropFirst(OPEN_OBJECT, inner);
    if fields == [] {
      assert Print(JObj(fields)) + rest == [OPEN_OBJECT, CLOSE_OBJECT] + rest;
      assert ([OPEN_OBJECT, CLOSE_OBJECT] + rest)[2..] == rest;
    } else {
      assert inner[0] == PrintField(fields[0])[0] == QUOTE;
      ObjectOf([OPEN_OBJECT] + inner, fields, rest);
    }
  }

  lemma LastItem(t: Utf16, first: Json, rest: Utf16)
    requires ReadValue(t) == Some((first, [CLOSE_ARRAY] + rest))
    ensures ReadItems(t) == Some(([first], rest))
  {
  }

  lemma MoreItems(t: Utf16, first: Json, after: Utf16, more: seq<Json>, rest: Utf16)
    requires ReadValue(t) == Some((first, [COMMA] + after))
    requires ReadItems(after) == Some((more, rest))
    ensures ReadItems(t) == Some(([first] + more, rest))
  {
  }

  lemma LastField(t: Utf16, first: (Utf16, Json), rest: Utf16)
    requires ReadField(t) == Some((first, [CLOSE_OBJECT] + rest))
    ensures ReadFields(t) == Some(([first], rest))
  {
  }

  lemma MoreFields(t: Utf16, first: (Utf16, Json), after: Utf16, more: seq<(Utf16, Json)>, rest: Utf16)
    requires ReadField(t) == Some((first, [COMMA] + after))
    requires ReadFields(after) == Some((more, rest))
    ensures ReadFields(t) == Some(([first] + more, rest))
  {
  }

  lemma {:induction false} ReadPrintedItems(items: seq<Json>, rest: Utf16)
    requires items != []
    ensures ReadItems(PrintItems(items) + ([CLOSE_ARRAY] + rest)) == Some((items, rest))
    decreases items, 0
  {
    hide Print, ReadValue, ReadItems;
    var tail := [CLOSE_ARRAY] + rest;
    if |items| == 1 {
      ReadPrinted(items[0], tail);
      LastItem(Print(items[0]) + tail, items[0], rest);
      assert [items[0]] == items;
    } else {
      var after := PrintItems(items[1..]) + tail;
      ReadPrinted(items[0], [COMMA] + after);
      ReadPrintedItems(items[1..], rest);
      AfterHead(Print(items[0]), [COMMA], PrintItems(items[1..]), tail);
      MoreItems(Print(items[0]) + ([COMMA] + after), items[0], after, items[1..], rest);
      assert items == [items[0]] + items[1..];
    }
  }

  lemma {:induction false} ReadPrintedField(f: (Utf16, Json), rest: Utf16)
    requires NoDigitFirst(rest)
    ensures ReadField(PrintField(f) + rest) == Some((f, rest))
    decreases f, 2
  {
    var tail := [COLON] + (Print(f.1) + rest);
    ReadQuoted(f.0, tail);
    ReadPrinted(f.1, rest);
    AfterHead(Quote(f.0), [COLON], Print(f.1), rest);
    DropFirst(COLON, Print(f.1) + rest);
  }

  lemma {:induction false} ReadPrintedFields(fields: seq<(Utf16, Json)>, rest: Utf16)
    requires fields != []
    ensures ReadFields(PrintFields(fields) + ([CLOSE_OBJECT] + rest)) == Some((fields, rest))
    decreases fields, 0
  {
    hide Print, PrintField, ReadValue, ReadField, ReadFields;
    var tail := [CLOSE_OBJECT] + rest;
    if |fields| == 1 {
      ReadPrintedField(fields[0], tail);
      LastField(PrintField(fields[0]) + tail, fields[0], rest);
      assert [fields[0]] == fields;
    } else {
      var after := PrintFields(fields[1..]) + tail;
      ReadPrintedField(fields[0], [COMMA] + after);
      ReadPrintedFields(fields[1..], rest);
      AfterHead(PrintField(fields[0]), [COMMA], PrintFields(fields[1..]), tail);
      MoreFields(PrintField(fields[0]) + ([COMMA] + after), fields[0], after, fields[1..], rest);
      assert fields == [fields[0]] + fields[1..];
    }
  }

  /** The round trip: what was stringified is what is parsed. */
  lemma ParsePrint(j: Json)
    ensures Parse(Print(j)) == Some(j)
  {
    ReadPrinted(j, []);
    assert Print(j) + [] == Print(j);
  }

  // ------------------------------------- printed text survives the UTF-8 step

  lemma {:induction false} PrintWellFormed(j: Json)
    ensures Utf8.WellFormed(Print(j))
    decreases j, 1
  {
    match j
    case JNull => Utf8.AsciiWellFormed(Print(j));
    case JNum(n) => Utf8.AsciiWellFormed(Print(j));
    case JStr(s) => QuoteWellFormed(s);
    case JArr(items) =>
      PrintItemsWellFormed(items);
      Bracketed(OPEN_ARRAY, PrintItems(items), CLOSE_ARRAY);
    case JObj(fields) =>
      PrintFieldsWellFormed(fields);
      Bracketed(OPEN_OBJECT, PrintFields(fields), CLOSE_OBJECT);
  }

  lemma Bracketed(open: CodeUnit, s: Utf16, close: CodeUnit)
    requires open < 128 && close < 128 && Utf8.WellFormed(s)
    ensures Utf8.WellFormed([open] + s + [close])
  {
    Utf8.WellFormedConcat([open], s);
    Utf8.WellFormedConcat([open] + s, [close]);
  }

  lemma Joined(a: Utf16, mid: CodeUnit, b: Utf16)
    requires mid < 128 && Utf8.WellFormed(a) && Utf8.WellFormed(b)
    ensures Utf8.WellFormed(a + [mid] + b)
  {
    Utf8.WellFormedConcat(a, [mid]);
    Utf8.WellFormedConcat(a + [mid], b);
  }

  lemma {:induction false} PrintItemsWellFormed(items: seq<Json>)
    ensures Utf8.WellFormed(PrintItems(items))
    decreases items, 0
  {
    if items != [] {
      PrintWellFormed(items[0]);
      if |items| > 1 {
        PrintItemsWellFormed(items[1..]);
        Joined(Print(items[0]), COMMA, PrintItems(items[1..]));
      }
    }
  }

  lemma {:induction false} PrintFieldWellFormed(f: (Utf16, Json))
    ensures Utf8.WellFormed(PrintField(f))
    decreases f, 2
  {
    QuoteWellFormed(f.0);
    PrintWellFormed(f.1);
    Joined(Quote(f.0), COLON, Print(f.1));
  }

  lemma {:induction false} PrintFieldsWellFormed(fields: seq<(Utf16, Json)>)
    ensures Utf8.WellFormed(PrintFields(fields))
    decreases fields, 0
  {
    if fields != [] {
      PrintFieldWellFormed(fields[0]);
      if |fields| > 1 {
        PrintFieldsWellFormed(fields[1..]);
        Joined(PrintField(fields[0]), COMMA, PrintFields(fields[1..]));
      }
    }
  }

  /** The bytes that get sealed: TextEncoder over JSON.stringify. */
  function Serialize(j: Json): Bytes {
    Utf8.Encode(Print(j))
  }

  /** TextDecoder, then JSON.parse. */
  function Deserialize(b: Bytes): Option<Json> {
    match Utf8.Decode(b)
    case None => None
    case Some(t) => Parse(t)
  }

  lemma DeserializeSerialize(j: Json)
    ensures Deserialize(Serialize(j)) == Some(j)
  {
    PrintWellFormed(j);
    Utf8.DecodeEncode(Print(j));
    ParsePrint(j);
  }

  lemma SerializeInjective(a: Json, b: Json)
    ensures Serialize(a) == Serialize(b) <==> a == b
  {
    DeserializeSerialize(a);
    DeserializeSerialize(b);
  }
}
