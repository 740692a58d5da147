/**
 * CSV export (src/lib/csv.ts) and a strict reader of section 2 of RFC 4180 in
 * which CRLF separates records.
 */
module Csv {
  import opened Wrappers
  import opened Text
  import opened Sequences

  const COMMA: CodeUnit := 44
  const QUOTE: CodeUnit := 34
  const CR: CodeUnit := 13
  const LF: CodeUnit := 10
  const CRLF: Utf16 := [CR, LF]

  /** A cell: null or undefined, or any other value by its String(value). */
  datatype Cell = Absent | Present(text: Utf16)

  function CellText(c: Cell): Utf16 {
    if c.Absent? then [] else c.text
  }

  function Texts(record: seq<Cell>): seq<Utf16> {
    seq(|record|, i requires 0 <= i < |record| => CellText(record[i]))
  }

  function AllTexts(records: seq<seq<Cell>>): seq<seq<Utf16>> {
    seq(|records|, i requires 0 <= i < |records| => Texts(records[i]))
  }

  predicate IsSpecial(u: CodeUnit) {
    u == COMMA || u == QUOTE || u == CR || u == LF
  }

  predicate NeedsQuotes(s: Utf16) {
    exists i | 0 <= i < |s| :: IsSpecial(s[i])
  }

  function DoubleQuotes(s: Utf16): Utf16 {
    if s == [] then []
    else (if s[0] == QUOTE then [QUOTE, QUOTE] else [s[0]]) + DoubleQuotes(s[1..])
  }

  function EscapeField(c: Cell): Utf16 {
    var s := CellText(c);
    if NeedsQuotes(s) then [QUOTE] + DoubleQuotes(s) + [QUOTE] else s
  }

  /** A cell is quoted exactly when it holds a comma, a quote, a CR or an LF. */
  lemma QuotedIff(c: Cell)
    ensures EscapeField(c) == CellText(c) <==>
            forall i | 0 <= i < |CellText(c)| :: CellText(c)[i] !in {COMMA, QUOTE, CR, LF}
  {
    var s := CellText(c);
    DoubledIsLonger(s);
    assert NeedsQuotes(s) ==> |EscapeField(c)| > |s|;
  }

  lemma {:induction false} DoubledIsLonger(s: Utf16)
    ensures |DoubleQuotes(s)| >= |s|
  {
    if s != [] {
      DoubledIsLonger(s[1..]);
    }
  }

  function Join(parts: seq<Utf16>, separator: Utf16): Utf16 {
    if parts == [] then []
    else if |parts| == 1 then parts[0]
    else parts[0] + separator + Join(parts[1..], separator)
  }

  /** The escaped cells with commas between them. */
  function RecordText(record: seq<Cell>): Utf16 {
    Join(seq(|record|, i requires 0 <= i < |record| => EscapeField(record[i])), [COMMA])
  }

  function Lines(records: seq<seq<Cell>>): seq<Utf16> {
    seq(|records|, i requires 0 <= i < |records| => RecordText(records[i]))
  }

  /** Every row has at least one cell. */
  predicate NoEmptyRow(records: seq<seq<Cell>>) {
    forall i | 0 <= i < |records| :: records[i] != []
  }

  function CsvText(records: seq<seq<Cell>>): Utf16 {
    Join(Lines(records), CRLF)
  }

  method BuildCsv(headers: seq<Cell>, rows: seq<seq<Cell>>) returns (text: Utf16)
    ensures text == CsvText([headers] + rows)
    ensures NoEmptyRow([headers] + rows) ==> ReadCsv(text) == Some(AllTexts([headers] + rows))
  {
    var lines := [RecordText(headers)];
    for i := 0 to |rows|
      invariant lines == Lines([headers] + rows[..i])
    {
      lines := lines + [RecordText(rows[i])];
      assert [headers] + rows[..i + 1] == ([headers] + rows[..i]) + [rows[i]];
    }
    assert rows[..|rows|] == rows;
    text := Join(lines, CRLF);
    if NoEmptyRow([headers] + rows) {
      ReadBuilt([headers] + rows);
    }
  }

  // ----------------------------------------------------------------- reader

  /** Reads up to the closing quote; a doubled quote stands for one. */
  function ReadQuoted(t: Utf16): (r: Option<(Utf16, Utf16)>)
    ensures r.Some? ==> |r.value.1| < |t|
    decreases |t|
  {
    if t == [] then None
    else if t[0] != QUOTE then Prepend(t[0], ReadQuoted(t[1..]))
    else if |t| > 1 && t[1] == QUOTE then Prepend(QUOTE, ReadQuoted(t[2..]))
    else Some(([], t[1..]))
  }

  function Prepend(u: CodeUnit, r: Option<(Utf16, Utf16)>): Option<(Utf16, Utf16)> {
    match r
    case None => None
    case Some((s, rest)) => Some(([u] + s, rest))
  }

  /** An unquoted field: everything up to a special unit. */
  function PlainRun(t: Utf16): (n: nat)
    ensures n <= |t|
  {
    if t == [] || IsSpecial(t[0]) then 0 else 1 + PlainRun(t[1..])
  }

  function ReadField(t: Utf16): (r: Option<(Utf16, Utf16)>)
    ensures r.Some? ==> |r.value.1| <= |t|
  {
    if t != [] && t[0] == QUOTE then ReadQuoted(t[1..])
    else Some((t[..PlainRun(t)], t[PlainRun(t)..]))
  }

  function ReadRecord(t: Utf16): (r: Option<(seq<Utf16>, Utf16)>)
    ensures r.Some? ==> |r.value.1| <= |t|
    decreases |t|
  {
    match ReadField(t)
    case None => None
    case Some((field, rest)) =>
      if rest == [] || rest[0] != COMMA then Some(([field], rest))
      else match ReadRecord(rest[1..])
        case None => None
        case Some((more, after)) => Some(([field] + more, after))
  }

  /** Every record of t; None when t is not strict CSV. */
  function ReadCsv(t: Utf16): Option<seq<seq<Utf16>>>
    decreases |t|
  {
    match ReadRecord(t)
    case None => None
    case Some((record, rest)) =>
      if rest == [] then Some([record])
      else if |rest| < 2 || rest[..2] != CRLF then None
      else match ReadCsv(rest[2..])
        case None => None
        case Some(more) => Some([record] + more)
  }

  // ------------------------------------------------ reading undoes building

  predicate Delimits(rest: Utf16) {
    rest == [] || rest[0] == COMMA || rest[0] == CR
  }

  lemma {:induction false} ReadDoubled(s: Utf16, rest: Utf16)
    requires rest == [] || rest[0] != QUOTE
    ensures ReadQuoted(DoubleQuotes(s) + ([QUOTE] + rest)) == Some((s, rest))
  {
    var tail := [QUOTE] + rest;
    if s == [] {
      assert DoubleQuotes(s) + tail == tail;
      assert tail[1..] == rest;
    } else {
      var after := DoubleQuotes(s[1..]) + tail;
      ReadDoubled(s[1..], rest);
      assert s == [s[0]] + s[1..];
      if s[0] == QUOTE {
        assert DoubleQuotes(s) + tail == [QUOTE, QUOTE] + after;
        assert ([QUOTE, QUOTE] + after)[2..] == after;
      } else {
        assert DoubleQuotes(s) + tail == [s[0]] + after;
        assert ([s[0]] + after)[1..] == after;
      }
    }
  }

  lemma {:induction false} PlainRunStops(s: Utf16, rest: Utf16)
    requires !NeedsQuotes(s) && Delimits(rest)
    ensures PlainRun(s + rest) == |s|
  {
    if s == [] {
      assert s + rest == rest;
    } else {
      assert (s + rest)[1..] == s[1..] + rest;
      assert forall i | 0 <= i < |s[1..]| :: s[1..][i] == s[i + 1];
      assert !NeedsQuotes(s[1..]);
      PlainRunStops(s[1..], rest);
    }
  }

  lemma ReadQuotedField(s: Utf16, rest: Utf16)
    requires Delimits(rest)
    ensures ReadField(([QUOTE] + DoubleQuotes(s) + [QUOTE]) + rest) == Some((s, rest))
  {
    var inner := DoubleQuotes(s) + ([QUOTE] + rest);
    ReadDoubled(s, rest);
    Wrapped(QUOTE, DoubleQuotes(s), QUOTE, rest);
    DropFirst(QUOTE, inner);
  }

  lemma ReadPlainField(s: Utf16, rest: Utf16)
    requires Delimits(rest) && !NeedsQuotes(s)
    ensures ReadField(s + rest) == Some((s, rest))
  {
    var t := s + rest;
    PlainRunStops(s, rest);
    assert t[..|s|] == s && t[|s|..] == rest;
    assert s == [] ==> t == rest;
    assert t == [] || t[0] != QUOTE;
  }

  lemma ReadEscaped(c: Cell, rest: Utf16)
    requires Delimits(rest)
    ensures ReadField(EscapeField(c) + rest) == Some((CellText(c), rest))
  {
    if NeedsQuotes(CellText(c)) {
      ReadQuotedField(CellText(c), rest);
    } else {
      ReadPlainField(CellText(c), rest);
    }
  }

  lemma RecordTextMore(record: seq<Cell>)
    requires |record| > 1
    ensures RecordText(record) == EscapeField(record[0]) + [COMMA] + RecordText(record[1..])
  {
    var parts := seq(|record|, i requires 0 <= i < |record| => EscapeField(record[i]));
    var tail := record[1..];
    assert parts[1..] == seq(|tail|, i requires 0 <= i < |tail| => EscapeField(tail[i]));
  }

  lemma LastField(t: Utf16, field: Utf16, rest: Utf16)
    requires ReadField(t) == Some((field, rest)) && (rest == [] || rest[0] != COMMA)
    ensures ReadRecord(t) == Some(([field], rest))
  {
  }

  lemma MoreFields(t: Utf16, field: Utf16, after: Utf16, more: seq<Utf16>, rest: Utf16)
    requires ReadField(t) == Some((field, [COMMA] + after))
    requires ReadRecord(after) == Some((more, rest))
    ensures ReadRecord(t) == Some(([field] + more, rest))
  {
  }

  lemma TextsMore(record: seq<Cell>)
    requires record != []
    ensures Texts(record) == [CellText(record[0])] + Texts(record[1..])
  {
  }

  lemma ReadOneCell(c: Cell, rest: Utf16)
    requires rest == [] || rest[0] == CR
    ensures ReadRecord(EscapeField(c) + rest) == Some(([CellText(c)], rest))
  {
    ReadEscaped(c, rest);
    LastField(EscapeField(c) + rest, CellText(c), rest);
  }

  lemma ReadCellThen(c: Cell, after: Utf16, more: seq<Utf16>, rest: Utf16)
    requires ReadRecord(after) == Some((more, rest))
    ensures ReadRecord(EscapeField(c) + ([COMMA] + after)) == Some(([CellText(c)] + more, rest))
  {
    ReadEscaped(c, [COMMA] + after);
    MoreFields(EscapeField(c) + ([COMMA] + after), CellText(c), after, more, rest);
  }

  lemma {:induction false} ReadRecordText(record: seq<Cell>, rest: Utf16)
    requires record != [] && (rest == [] || rest[0] == CR)
    ensures ReadRecord(RecordText(record) + rest) == Some((Texts(record), rest))
  {
    TextsMore(record);
    if |record| == 1 {
      ReadOneCell(record[0], rest);
      assert Texts(record) == [CellText(record[0])];
      assert RecordText(record) == EscapeField(record[0]);
    } else {
      ReadRecordText(record[1..], rest);
      RecordTextMore(record);
      AfterHead(EscapeField(record[0]), [COMMA], RecordText(record[1..]), rest);
      ReadCellThen(record[0], RecordText(record[1..]) + rest, Texts(record[1..]), rest);
    }
  }

  lemma CsvTextMore(records: seq<seq<Cell>>)
    requires |records| > 1
    ensures CsvText(records) == RecordText(records[0]) + CRLF + CsvText(records[1..])
  {
    assert Lines(records)[1..] == Lines(records[1..]);
  }

  lemma LastRecord(t: Utf16, record: seq<Utf16>)
    requires ReadRecord(t) == Some((record, []))
    ensures ReadCsv(t) == Some([record])
  {
  }

  lemma MoreRecords(t: Utf16, record: seq<Utf16>, after: Utf16, more: seq<seq<Utf16>>)
    requires ReadRecord(t) == Some((record, CRLF + after)) && ReadCsv(after) == Some(more)
    ensures ReadCsv(t) == Some([record] + more)
  {
  }

  lemma AllTextsMore(records: seq<seq<Cell>>)
    requires records != []
    ensures AllTexts(records) == [Texts(records[0])] + AllTexts(records[1..])
  {
  }

  lemma ReadOneRecord(record: seq<Cell>)
    requires record != []
    ensures ReadCsv(RecordText(record)) == Some([Texts(record)])
  {
    ReadRecordText(record, []);
    assert RecordText(record) + [] == RecordText(record);
    LastRecord(RecordText(record), Texts(record));
  }

  lemma ReadRecordThen(record: seq<Cell>, after: Utf16, more: seq<seq<Utf16>>)
    requires record != [] && ReadCsv(after) == Some(more)
    ensures ReadCsv(RecordText(record) + (CRLF + after)) == Some([Texts(record)] + more)
  {
    ReadRecordText(record, CRLF + after);
    MoreRecords(RecordText(record) + (CRLF + after), Texts(record), after, more);
  }

  /** The strict reader returns exactly the cells that were written. */
  lemma {:induction false} ReadBuilt(records: seq<seq<Cell>>)
    requires records != []
    requires NoEmptyRow(records)
    ensures ReadCsv(CsvText(records)) == Some(AllTexts(records))
  {
    AllTextsMore(records);
    if |records| == 1 {
      ReadOneRecord(records[0]);
      assert AllTexts(records) == [Texts(records[0])];
      assert CsvText(records) == RecordText(records[0]);
    } else {
      ReadBuilt(records[1..]);
      CsvTextMore(records);
      Assoc(RecordText(records[0]), CRLF, CsvText(records[1..]));
      ReadRecordThen(records[0], CsvText(records[1..]), AllTexts(records[1..]));
    }
  }

  // ------------------------------------------- the optional ending line break

  predicate EndsInBreak(t: Utf16) {
    |t| >= 2 && t[|t| - 2..] == CRLF
  }

  /** The other reading RFC 4180 allows: one ending line break closes the last record. */
  function ReadCsvLoosely(t: Utf16): Option<seq<seq<Utf16>>> {
    ReadCsv(if EndsInBreak(t) then t[..|t| - 2] else t)
  }

  predicate EndsInEmptyRow(records: seq<seq<Cell>>) {
    |records| > 1 && RecordText(records[|records| - 1]) == []
  }

  lemma {:induction false} RecordEnd(record: seq<Cell>)
    requires record != []
    ensures RecordText(record) != [] ==> RecordText(record)[|RecordText(record)| - 1] != LF
  {
    if |record| > 1 {
      RecordEnd(record[1..]);
      RecordTextMore(record);
    }
  }

  lemma {:induction false} CsvTextSnoc(front: seq<seq<Cell>>, last: seq<Cell>)
    requires front != []
    ensures CsvText(front + [last]) == CsvText(front) + CRLF + RecordText(last)
  {
    var records := front + [last];
    CsvTextMore(records);
    if |front| == 1 {
      assert records[1..] == [last];
      assert CsvText([last]) == RecordText(last);
      assert CsvText(front) == RecordText(front[0]);
    } else {
      assert records[1..] == front[1..] + [last];
      CsvTextSnoc(front[1..], last);
      CsvTextMore(front);
      var more := CsvText(front[1..]);
      AfterHead(RecordText(front[0]), CRLF, more, CRLF + RecordText(last));
      Assoc(more, CRLF, RecordText(last));
      Assoc(CsvText(front), CRLF, RecordText(last));
      Assoc(RecordText(front[0]), CRLF, more + CRLF + RecordText(last));
    }
  }

  lemma EndingUnit(t: Utf16)
    ensures EndsInBreak(t) ==> t[|t| - 1] == LF
  {
  }

  lemma EndingBreak(records: seq<seq<Cell>>)
    requires records != []
    requires NoEmptyRow(records)
    ensures EndsInBreak(CsvText(records)) <==> EndsInEmptyRow(records)
    ensures EndsInEmptyRow(records) ==>
              var t := CsvText(records); t[..|t| - 2] == CsvText(records[..|records| - 1])
  {
    var last := records[|records| - 1];
    var front := records[..|records| - 1];
    RecordEnd(last);
    assert records == front + [last];
    if front == [] {
      assert CsvText(records) == RecordText(last);
      EndingUnit(CsvText(records));
    } else {
      CsvTextSnoc(front, last);
      var t := CsvText(records);
      if RecordText(last) != [] {
        EndingUnit(t);
        assert t[|t| - 1] == RecordText(last)[|RecordText(last)| - 1];
      }
    }
  }

  /**
   * A reader that drops an ending line break gets the table back exactly when
   * the last of several rows is not a lone empty cell.
   */
  lemma LooseReaderAgrees(records: seq<seq<Cell>>)
    requires records != []
    requires NoEmptyRow(records)
    ensures ReadCsvLoosely(CsvText(records)) == Some(AllTexts(records)) <==> !EndsInEmptyRow(records)
  {
    hide ReadCsv, CsvText, RecordText, EndsInBreak;
    EndingBreak(records);
    ReadBuilt(records);
    if EndsInEmptyRow(records) {
      var front := records[..|records| - 1];
      ReadBuilt(front);
      assert |AllTexts(front)| == |AllTexts(records)| - 1;
    }
  }
}
