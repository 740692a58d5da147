/**
 * The two tables a rotation re-encrypts. Other sessions insert and delete rows
 * between any two calls; reads are ordered and may be cut short by a server cap;
 * an update's answer can be lost and the update can land late.
 */
module Tables {
  import opened Wrappers
  import opened Text
  import opened Symbolic

  const ID_SPACE: nat := 0x1_0000_0000_0000_0000_0000_0000_0000_0000

  /** A row's uuid, in the order Postgres sorts by. */
  type Id = i: int | 0 <= i < ID_SPACE

  datatype Row =
    | Connection(credentials: Column, encryptedLabel: Option<Column>)
    | Transaction(payload: Column, sealedUnder: Utf16)

  type Rows = map<Id, Row>

  /** The literal stored when the provider holds the credentials. */
  const CREDENTIALS_HELD_BY_PROVIDER: Column := Plain(Ascii("quiltt-managed"))

  const SEALED_UNDER_VAULT_KEY: Utf16 := Ascii("ort")

  /** What the paged read and the exact count both filter by. */
  predicate Visible(row: Row) {
    row.Transaction? ==> row.sealedUnder == SEALED_UNDER_VAULT_KEY
  }

  function VisibleIds(rows: Rows): set<Id> {
    set id | id in rows && Visible(rows[id])
  }

  /** The columns one UPDATE sets. */
  datatype Patch =
    | ConnectionPatch(credentials: Option<Column>, encryptedLabel: Option<Column>)
    | TransactionPatch(payload: Column)

  function Patched(row: Row, patch: Patch): Row {
    match (row, patch)
    case (Connection(c, l), ConnectionPatch(c', l')) =>
      Connection(if c'.Some? then c'.value else c, if l'.Some? then l' else l)
    case (Transaction(_, s), TransactionPatch(p')) => Transaction(p', s)
    case _ => row
  }

  datatype Write = Write(id: Id, patch: Patch)

  /** rows is met with this one update applied. */
  predicate Landed(met: Rows, rows: Rows, write: Write) {
    write.id in met && rows == met[write.id := Patched(met[write.id], write.patch)]
  }

  /** NoNumber: the answer carries no error and no count either. */
  datatype CountAnswer = Counted(total: nat) | CountFailed | NoNumber

  datatype UpdateAnswer = Changed(count: nat) | NoAnswer

  predicate Above(id: Id, after: Option<Id>) {
    after.None? || id > after.value
  }

  function Smaller(a: nat, b: nat): nat { if a <= b then a else b }

  /** The first size visible rows above the cursor, in ascending order of id. */
  ghost predicate IsPage(page: seq<(Id, Row)>, rows: Rows, after: Option<Id>, size: nat) {
    && |page| <= size
    && (forall i | 0 <= i < |page| ::
          page[i].0 in VisibleIds(rows) && rows[page[i].0] == page[i].1 && Above(page[i].0, after))
    && (forall i, j | 0 <= i < j < |page| :: page[i].0 < page[j].0)
    && (forall id | id in VisibleIds(rows) && Above(id, after) ::
          || (exists i | 0 <= i < |page| :: page[i].0 == id)
          || (|page| == size && forall i | 0 <= i < |page| :: page[i].0 < id))
  }

  function IdsOf(page: seq<(Id, Row)>): set<Id> {
    set i | 0 <= i < |page| :: page[i].0
  }

  // -------------------------------------------------------- the other sessions

  /**
   * What other sessions may do in one stretch: delete rows, insert rows under ids
   * never issued before, and let an update already in flight land. No row is
   * edited in place.
   */
  predicate OthersMay(rows: Rows, inFlight: Option<Write>, issued: set<Id>, rows': Rows) {
    forall id | id in rows' ::
      if id in rows
      then rows'[id] == rows[id] ||
           (inFlight.Some? && inFlight.value.id == id && rows'[id] == Patched(rows[id], inFlight.value.patch))
      else id !in issued
  }

  /** Each id's row as it first appeared. */
  function Firsts(original: Rows, rows: Rows): Rows {
    original + (map id | id in rows && id !in original :: rows[id])
  }

  lemma NoNewFirsts(original: Rows, rows: Rows)
    requires rows.Keys <= original.Keys
    ensures Firsts(original, rows) == original
  {
  }

  function Latest(history: seq<Rows>): Rows
    requires history != []
  {
    history[|history| - 1]
  }

  /** Each row's first form is on record, and its seal never changed. */
  ghost predicate FirstsKnown(rows: Rows, original: Rows) {
    forall id | id in rows :: id in original && Visible(rows[id]) == Visible(original[id])
  }

  /** An id that went does not come back. */
  ghost predicate StaysGone(history: seq<Rows>, id: Id) {
    forall i, k, j | 0 <= i <= k <= j < |history| && id in history[i] && id in history[j] :: id in history[k]
  }

  ghost predicate Appeared(history: seq<Rows>, id: Id) {
    exists i | 0 <= i < |history| :: id in history[i]
  }

  ghost predicate TrailSound(history: seq<Rows>, original: Rows) {
    && history != []
    && (forall i | 0 <= i < |history| :: FirstsKnown(history[i], original))
    && (forall id: Id :: StaysGone(history, id))
    && (forall id {:trigger Appeared(history, id)} | id in original :: Appeared(history, id))
  }

  /** What is on record stays on record. */
  ghost predicate Extends(history: seq<Rows>, original: Rows, history': seq<Rows>, original': Rows) {
    history <= history' && forall id | id in original :: id in original' && original'[id] == original[id]
  }

  lemma ExtendsOn(h: seq<Rows>, o: Rows, h': seq<Rows>, o': Rows, h'': seq<Rows>, o'': Rows)
    requires Extends(h, o, h', o') && Extends(h', o', h'', o'')
    ensures Extends(h, o, h'', o'')
  {
  }

  lemma TrailGrows(history: seq<Rows>, original: Rows, inFlight: Option<Write>, rows': Rows)
    requires TrailSound(history, original)
    requires OthersMay(Latest(history), inFlight, original.Keys, rows')
    ensures TrailSound(history + [rows'], Firsts(original, rows'))
    ensures Firsts(original, rows').Keys == original.Keys + rows'.Keys
    ensures Extends(history, original, history + [rows'], Firsts(original, rows'))
  {
    var h, o := history + [rows'], Firsts(original, rows');
    forall i | 0 <= i < |h|
      ensures FirstsKnown(h[i], o)
    {
      assert FirstsKnown(Latest(history), original);
      if i < |history| {
        assert h[i] == history[i] && FirstsKnown(history[i], original);
      }
    }
    forall id: Id
      ensures StaysGone(h, id)
    {
      StaysGoneAfter(history, original, inFlight, rows', id);
    }
    forall id | id in o
      ensures Appeared(h, id)
    {
      AppearedAfter(history, rows', id);
    }
  }

  lemma AppearedAfter(history: seq<Rows>, rows': Rows, id: Id)
    requires Appeared(history, id) || id in rows'
    ensures Appeared(history + [rows'], id)
  {
    var h := history + [rows'];
    if i :| 0 <= i < |history| && id in history[i] {
      assert h[i] == history[i];
    } else {
      assert h[|history|] == rows';
    }
  }

  lemma StaysGoneAfter(history: seq<Rows>, original: Rows, inFlight: Option<Write>, rows': Rows, id: Id)
    requires TrailSound(history, original)
    requires OthersMay(Latest(history), inFlight, original.Keys, rows')
    ensures StaysGone(history + [rows'], id)
  {
    var h, n := history + [rows'], |history|;
    assert StaysGone(history, id);
    forall i, k, j | 0 <= i <= k <= j < |h| && id in h[i] && id in h[j]
      ensures id in h[k]
    {
      if k < n && i < n && j == n {
        assert FirstsKnown(history[i], original);
        assert id in original && id in history[n - 1];
      }
    }
  }

  predicate IsLeast(m: Id, ids: set<Id>) {
    m in ids && forall id | id in ids :: m <= id
  }

  lemma LeastIsBelow(m: Id, ids: set<Id>, id: Id)
    requires IsLeast(m, ids) && id in ids
    ensures m <= id
  {
  }

  lemma {:induction false} LeastExists(ids: set<Id>) returns (least: Id)
    requires ids != {}
    ensures IsLeast(least, ids)
  {
    var y :| y in ids;
    if ids == {y} {
      least := y;
    } else {
      var rest := ids - {y};
      var m := LeastExists(rest);
      least := if m <= y then m else y;
      assert forall id | id in ids :: id == y || id in rest;
    }
  }

  predicate Ascending(ids: seq<Id>) {
    forall i, j | 0 <= i < j < |ids| :: ids[i] < ids[j]
  }

  function RowsAt(rows: Rows, ids: seq<Id>): (page: seq<(Id, Row)>)
    requires forall i | 0 <= i < |ids| :: ids[i] in rows
    ensures |page| == |ids| && forall i | 0 <= i < |ids| :: page[i].0 == ids[i] && page[i].1 == rows[ids[i]]
  {
    seq(|ids|, i requires 0 <= i < |ids| => (ids[i], rows[ids[i]]))
  }

  /** ORDER BY id LIMIT size */
  method SmallestIds(candidates: set<Id>, size: nat) returns (ids: seq<Id>)
    ensures |ids| <= size && Ascending(ids)
    ensures forall i | 0 <= i < |ids| :: ids[i] in candidates
    ensures forall id | id in candidates :: id in ids || (|ids| == size && forall i | 0 <= i < |ids| :: ids[i] < id)
  {
    ids := [];
    var left := candidates;
    while |ids| < size && left != {}
      invariant |ids| <= size && Ascending(ids)
      invariant left <= candidates
      invariant forall i | 0 <= i < |ids| :: ids[i] in candidates
      invariant forall id | id in candidates :: id in ids || id in left
      invariant forall i, id | 0 <= i < |ids| && id in left :: ids[i] < id
      decreases left
    {
      ghost var least := LeastExists(left);
      assert least in left;
      var m :| m in left && IsLeast(m, left);
      forall id | id in left - {m}
        ensures m < id
      {
        LeastIsBelow(m, left, id);
        assert m <= id;
        assert m != id;
      }
      ids := ids + [m];
      left := left - {m};
    }
  }

  /** How often a read failed, a count failed or came without a number, and an update was refused or went unanswered. */
  datatype Faults = Faults(unread: nat, uncounted: nat, unnumbered: nat, refused: nat, unanswered: nat)

  predicate NoFewer(before: Faults, now: Faults) {
    && before.unread <= now.unread && before.uncounted <= now.uncounted && before.unnumbered <= now.unnumbered
    && before.refused <= now.refused && before.unanswered <= now.unanswered
  }

  class Table {
    /** The server-side maximum number of rows in one read. */
    const rowCap: nat

    var rows: Rows

    /** An update whose answer was given up on and which may still arrive. */
    var inFlight: Option<Write>

    /** Every row as it first appeared, also of ids that are gone. */
    var original: Rows

    /** Every state of the table so far, the current one last. */
    ghost var history: seq<Rows>

    ghost var faults: Faults

    ghost predicate Valid()
      reads this
    {
      TrailSound(history, original) && Latest(history) == rows
    }

    constructor (rows: Rows, rowCap: nat)
      ensures Valid() && this.rows == rows && this.rowCap == rowCap
      ensures history == [rows] && original == rows && inFlight.None? && faults == Faults(0, 0, 0, 0, 0)
    {
      this.rows, this.rowCap, original, inFlight := rows, rowCap, rows, None;
      history, faults := [rows], Faults(0, 0, 0, 0, 0);
      new;
      assert history[0] == rows;
    }

    method Interfere()
      requires Valid()
      modifies this
      ensures Valid() && OthersMay(old(rows), inFlight, old(original).Keys, rows)
      ensures history == old(history) + [rows] && original == Firsts(old(original), rows)
      ensures Extends(old(history), old(original), history, original)
      ensures inFlight == old(inFlight) && faults == old(faults)
    {
      var next: Rows := *;
      if !OthersMay(rows, inFlight, original.Keys, next) {
        next := rows;
      }
      TrailGrows(history, original, inFlight, next);
      original := Firsts(original, next);
      rows := next;
      history := history + [rows];
    }

    /** One ordered, limited read of the visible rows above the cursor. */
    method ReadPage(after: Option<Id>, limit: nat) returns (page: Option<seq<(Id, Row)>>)
      requires Valid()
      modifies this
      ensures Valid() && OthersMay(old(rows), inFlight, old(original).Keys, rows)
      ensures history == old(history) + [rows] && original == Firsts(old(original), rows)
      ensures Extends(old(history), old(original), history, original)
      ensures inFlight == old(inFlight)
      ensures faults == if page.Some? then old(faults) else old(faults).(unread := old(faults).unread + 1)
      ensures page.Some? ==> IsPage(page.value, rows, after, Smaller(limit, rowCap))
    {
      Interfere();
      var answered: bool := *;
      if !answered {
        faults := faults.(unread := faults.unread + 1);
        return None;
      }
      var candidates := set id | id in VisibleIds(rows) && Above(id, after);
      var ids := SmallestIds(candidates, Smaller(limit, rowCap));
      page := Some(RowsAt(rows, ids));
      forall id | id in VisibleIds(rows) && Above(id, after) && id in ids
        ensures exists i | 0 <= i < |page.value| :: page.value[i].0 == id
      {
        var i :| 0 <= i < |ids| && ids[i] == id;
        assert page.value[i].0 == id;
      }
    }

    /** The exact count, which no cap clips. */
    method ExactRowCount() returns (count: CountAnswer)
      requires Valid()
      modifies this
      ensures Valid() && OthersMay(old(rows), inFlight, old(original).Keys, rows)
      ensures history == old(history) + [rows] && original == Firsts(old(original), rows)
      ensures Extends(old(history), old(original), history, original)
      ensures inFlight == old(inFlight)
      ensures faults == match count
                        case Counted(_) => old(faults)
                        case CountFailed => old(faults).(uncounted := old(faults).uncounted + 1)
                        case NoNumber => old(faults).(unnumbered := old(faults).unnumbered + 1)
      ensures count.Counted? ==> count.total == |VisibleIds(rows)|
    {
      Interfere();
      var answered: bool, numbered: bool := *, *;
      if !answered {
        faults := faults.(uncounted := faults.uncounted + 1);
        count := CountFailed;
      } else if !numbered {
        faults := faults.(unnumbered := faults.unnumbered + 1);
        count := NoNumber;
      } else {
        count := Counted(|VisibleIds(rows)|);
      }
    }

    /** The server runs an UPDATE ... WHERE id. */
    method Overwrite(id: Id, patch: Patch)
      requires Valid() && id in rows
      modifies this
      ensures Valid() && rows == old(rows)[id := Patched(old(rows)[id], patch)]
      ensures history == old(history) + [rows] && original == old(original)
      ensures inFlight == old(inFlight) && faults == old(faults)
    {
      rows := rows[id := Patched(rows[id], patch)];
      TrailGrows(history, original, Some(Write(id, patch)), rows);
      history := history + [rows];
      NoNewFirsts(original, rows);
    }

    /** An UPDATE asking for the changed rows; met is the table it arrived at. */
    method Update(id: Id, patch: Patch) returns (answer: UpdateAnswer, ghost met: Rows)
      requires Valid() && inFlight.None?
      modifies this
      ensures Valid() && OthersMay(old(rows), None, old(original).Keys, met)
      ensures original == Firsts(old(original), met)
      ensures rows == met || Landed(met, rows, Write(id, patch))
      ensures history == old(history) + [met] + [rows] || (rows == met && history == old(history) + [met])
      ensures Extends(old(history), old(original), history, original)
      ensures inFlight.None? || (answer.NoAnswer? && inFlight == Some(Write(id, patch)))
      ensures answer.Changed? ==> answer.count <= 1
      ensures answer == Changed(1) ==> Landed(met, rows, Write(id, patch))
      ensures answer == Changed(0) ==> rows == met
      ensures NoFewer(old(faults), faults)
      ensures answer.NoAnswer? <==> faults.unanswered > old(faults).unanswered
      ensures answer == Changed(0) ==> faults.refused > old(faults).refused || id !in met
      ensures faults == old(faults) ==> answer == Changed(if id in met then 1 else 0)
    {
      Interfere();
      met := rows;
      var arrives: bool, permitted: bool, answered: bool := *, *, *;
      var changes := arrives && permitted && id in rows;
      if changes {
        Overwrite(id, patch);
      }
      if !arrives {
        inFlight := Some(Write(id, patch));
      }
      if !permitted {
        faults := faults.(refused := faults.refused + 1);
      }
      if !arrives || !answered {
        faults := faults.(unanswered := faults.unanswered + 1);
      }
      answer := if !arrives || !answered then NoAnswer else if changes then Changed(1) else Changed(0);
    }
  }
}
