/**
 * Grants and revokes whose statements interleave: from two tabs, or because a
 * statement reaches the database long after its attempt was given up (src/lib/co-admin.ts).
 */
module CoAdminInterleaving {
  import opened CoAdmin

  /** The four statements. One that was refused or lost is no step. */
  datatype Statement = ListInsert | KeyInsert(row: KeyRow) | KeyDelete | ListDelete

  datatype Step = Step(attempt: nat, user: UserId, statement: Statement)

  function Executed(t: Tables, s: Step): Tables {
    match s.statement
    case ListInsert => t.(admins := t.admins + {s.user})
    case KeyInsert(row) => if s.user in t.keys then t else t.(keys := t.keys[s.user := row])
    case KeyDelete => t.(keys := t.keys - {s.user})
    case ListDelete => t.(admins := t.admins - {s.user})
  }

  function After(t: Tables, steps: seq<Step>): Tables {
    if steps == [] then t else Executed(After(t, steps[..|steps| - 1]), steps[|steps| - 1])
  }

  predicate OfGrant(s: Statement) {
    s.ListInsert? || s.KeyInsert?
  }

  /** An attempt is a grant or a revoke, for one user. */
  ghost predicate AttemptsSound(steps: seq<Step>) {
    forall i, j | 0 <= i < |steps| && 0 <= j < |steps| && steps[i].attempt == steps[j].attempt ::
      steps[i].user == steps[j].user && (OfGrant(steps[i].statement) <==> OfGrant(steps[j].statement))
  }

  /** The same attempt's earlier statement, before step n. */
  ghost predicate Preceded(steps: seq<Step>, n: nat, first: Statement)
    requires n < |steps|
  {
    exists m | 0 <= m < n :: steps[m].attempt == steps[n].attempt && steps[m].statement == first
  }

  /** A grant writes its key after its list entry, a revoke removes its list entry after its key. */
  ghost predicate WellOrdered(steps: seq<Step>) {
    && AttemptsSound(steps)
    && (forall n | 0 <= n < |steps| && steps[n].statement.KeyInsert? :: Preceded(steps, n, ListInsert))
    && (forall n | 0 <= n < |steps| && steps[n].statement.ListDelete? :: Preceded(steps, n, KeyDelete))
  }

  lemma OwnFirst(steps: seq<Step>, n: nat, first: Statement) returns (m: nat)
    requires n < |steps| && AttemptsSound(steps) && Preceded(steps, n, first)
    ensures m < n && steps[m] == Step(steps[n].attempt, steps[n].user, first)
  {
    m :| m < n && steps[m].attempt == steps[n].attempt && steps[m].statement == first;
  }

  // ---------------------------------------------------- which statement counts

  /** No key of the user is deleted from position lo up to hi. */
  ghost predicate KeyKept(steps: seq<Step>, user: UserId, lo: nat, hi: nat)
    requires hi <= |steps|
  {
    forall m | lo <= m < hi :: steps[m].user == user ==> !steps[m].statement.KeyDelete?
  }

  /** The user is not listed from position lo up to hi. */
  ghost predicate NotListed(steps: seq<Step>, user: UserId, lo: nat, hi: nat)
    requires hi <= |steps|
  {
    forall m | lo <= m < hi :: steps[m].user == user ==> !steps[m].statement.ListInsert?
  }

  ghost predicate KeyWrittenLast(steps: seq<Step>, user: UserId, k: nat) {
    && k < |steps| && steps[k].user == user && steps[k].statement.KeyInsert?
    && KeyKept(steps, user, k + 1, |steps|)
  }

  ghost predicate UnlistedLast(steps: seq<Step>, user: UserId, x: nat) {
    && x < |steps| && steps[x].user == user && steps[x].statement.ListDelete?
    && NotListed(steps, user, x + 1, |steps|)
  }

  /** A key is stored when it was written and not deleted since, or was there and never deleted. */
  lemma {:induction false} KeyStoredIff(t: Tables, steps: seq<Step>, user: UserId)
    ensures user in After(t, steps).keys <==>
            || (exists k: nat :: KeyWrittenLast(steps, user, k))
            || (user in t.keys && KeyKept(steps, user, 0, |steps|))
  {
    if steps != [] {
      var n := |steps| - 1;
      var front, last := steps[..n], steps[n];
      KeyStoredIff(t, front, user);
      forall k: nat | k < n
        ensures KeyWrittenLast(steps, user, k) <==>
                KeyWrittenLast(front, user, k) && !(last.user == user && last.statement.KeyDelete?)
      {
      }
      assert KeyKept(steps, user, 0, |steps|) <==>
             KeyKept(front, user, 0, n) && !(last.user == user && last.statement.KeyDelete?);
      assert last.user == user && last.statement.KeyInsert? ==> KeyWrittenLast(steps, user, n);
    }
  }

  /** A user is missing from the list when removed and not listed since, or never listed at all. */
  lemma {:induction false} UnlistedIff(t: Tables, steps: seq<Step>, user: UserId)
    ensures user !in After(t, steps).admins <==>
            || (exists x: nat :: UnlistedLast(steps, user, x))
            || (user !in t.admins && NotListed(steps, user, 0, |steps|))
  {
    if steps != [] {
      var n := |steps| - 1;
      var front, last := steps[..n], steps[n];
      UnlistedIff(t, front, user);
      forall x: nat | x < n
        ensures UnlistedLast(steps, user, x) <==>
                UnlistedLast(front, user, x) && !(last.user == user && last.statement.ListInsert?)
      {
      }
      assert NotListed(steps, user, 0, |steps|) <==>
             NotListed(front, user, 0, n) && !(last.user == user && last.statement.ListInsert?);
      assert last.user == user && last.statement.ListDelete? ==> UnlistedLast(steps, user, n);
    }
  }

  // ------------------------------------------------------- the exact condition

  /**
   * A grant's key write at k and a revoke's list delete at x, for one user: the
   * entry goes while the key written is still there, or is gone when the key is written.
   */
  ghost predicate Clash(steps: seq<Step>, k: nat, x: nat) {
    && k < |steps| && x < |steps| && steps[k].user == steps[x].user
    && steps[k].statement.KeyInsert? && steps[x].statement.ListDelete?
    && (|| (k < x && KeyKept(steps, steps[k].user, k + 1, x))
        || (x < k && NotListed(steps, steps[k].user, x + 1, k)))
  }

  ghost predicate Conflict(steps: seq<Step>) {
    exists k: nat, x: nat :: Clash(steps, k, x)
  }

  ghost predicate EvidentAlways(t: Tables, steps: seq<Step>) {
    forall n | 0 <= n <= |steps| :: Evident(After(t, steps[..n]))
  }

  lemma ClashBreaks(t: Tables, steps: seq<Step>, k: nat, x: nat)
    requires Clash(steps, k, x)
    ensures !EvidentAlways(t, steps)
  {
    var n := if k < x then x + 1 else k + 1;
    var p, user := steps[..n], steps[k].user;
    KeyStoredIff(t, p, user);
    UnlistedIff(t, p, user);
    assert KeyWrittenLast(p, user, k);
    assert UnlistedLast(p, user, x);
    assert user in After(t, p).keys.Keys;
    assert !Evident(After(t, p));
  }

  lemma PrefixClash(steps: seq<Step>, n: nat, k: nat, x: nat)
    requires n <= |steps| && Clash(steps[..n], k, x)
    ensures Clash(steps, k, x)
  {
    assert forall m | 0 <= m < n :: steps[..n][m] == steps[m];
  }

  lemma PrefixWellOrdered(steps: seq<Step>, n: nat)
    requires n <= |steps| && WellOrdered(steps)
    ensures WellOrdered(steps[..n])
  {
    var p := steps[..n];
    forall i | 0 <= i < n && p[i].statement.KeyInsert?
      ensures Preceded(p, i, ListInsert)
    {
      assert Preceded(steps, i, ListInsert);
      var m :| 0 <= m < i && steps[m].attempt == steps[i].attempt && steps[m].statement == ListInsert;
      assert p[m] == steps[m];
    }
    forall i | 0 <= i < n && p[i].statement.ListDelete?
      ensures Preceded(p, i, KeyDelete)
    {
      assert Preceded(steps, i, KeyDelete);
      var m :| 0 <= m < i && steps[m].attempt == steps[i].attempt && steps[m].statement == KeyDelete;
      assert p[m] == steps[m];
    }
  }

  lemma UnlistedMeansKeyDeleted(steps: seq<Step>, user: UserId, x: nat)
    requires WellOrdered(steps) && UnlistedLast(steps, user, x)
    ensures !KeyKept(steps, user, 0, |steps|)
  {
    var d := OwnFirst(steps, x, KeyDelete);
  }

  /** A key stored without a list entry comes from a clash. */
  lemma HiddenKeyMeansClash(t: Tables, steps: seq<Step>, user: UserId)
    requires Evident(t) && WellOrdered(steps)
    requires user in After(t, steps).keys && user !in After(t, steps).admins
    ensures Conflict(steps)
  {
    KeyStoredIff(t, steps, user);
    UnlistedIff(t, steps, user);
    assert user in t.keys ==> user in t.keys.Keys;
    if x: nat :| UnlistedLast(steps, user, x) {
      UnlistedMeansKeyDeleted(steps, user, x);
    }
    var k: nat :| KeyWrittenLast(steps, user, k);
    var l := OwnFirst(steps, k, ListInsert);
    var x: nat :| UnlistedLast(steps, user, x);
    assert Clash(steps, k, x);
  }

  /** Every state of an interleaving keeps the rule exactly when no key write clashes with a list delete. */
  lemma EvidentIffNoConflict(t: Tables, steps: seq<Step>)
    requires Evident(t) && WellOrdered(steps)
    ensures EvidentAlways(t, steps) <==> !Conflict(steps)
  {
    if Conflict(steps) {
      var k: nat, x: nat :| Clash(steps, k, x);
      ClashBreaks(t, steps, k, x);
    } else {
      forall n | 0 <= n <= |steps|
        ensures Evident(After(t, steps[..n]))
      {
        PrefixWellOrdered(steps, n);
        NoConflictEvident(t, steps, n);
      }
    }
  }

  lemma NoConflictEvident(t: Tables, steps: seq<Step>, n: nat)
    requires Evident(t) && n <= |steps| && WellOrdered(steps[..n]) && !Conflict(steps)
    ensures Evident(After(t, steps[..n]))
  {
    var p := steps[..n];
    if user :| user in After(t, p).keys.Keys && user !in After(t, p).admins {
      HiddenKeyMeansClash(t, p, user);
      var k: nat, x: nat :| Clash(p, k, x);
      PrefixClash(steps, n, k, x);
    }
  }

  /** In a clash the key write falls after the key delete of the same revoke. */
  lemma ClashFallsAfterKeyDelete(steps: seq<Step>, k: nat, x: nat)
    requires WellOrdered(steps) && Clash(steps, k, x)
    ensures exists d: nat | d < |steps| && d < x ::
              d < k && steps[d].attempt == steps[x].attempt && steps[d].statement.KeyDelete?
  {
    var d := OwnFirst(steps, x, KeyDelete);
  }

  // -------------------------------------------------- one attempt after another

  /** The statements of an attempt are not interrupted. */
  ghost predicate Sequential(steps: seq<Step>) {
    forall i, j, k | 0 <= i < j < k < |steps| && steps[i].attempt == steps[k].attempt ::
      steps[j].attempt == steps[i].attempt
  }

  lemma NoSequentialClash(steps: seq<Step>, k: nat, x: nat)
    requires WellOrdered(steps) && Sequential(steps)
    requires k < |steps| && x < |steps| && steps[k].user == steps[x].user
    requires steps[k].statement.KeyInsert? && steps[x].statement.ListDelete?
    ensures !Clash(steps, k, x)
  {
    var l := OwnFirst(steps, k, ListInsert);
    var d := OwnFirst(steps, x, KeyDelete);
    assert steps[k].attempt != steps[x].attempt;
    assert k < x ==> k < d;
    assert x < k ==> x < l;
  }

  lemma SequentialHasNoConflict(steps: seq<Step>)
    requires WellOrdered(steps) && Sequential(steps)
    ensures !Conflict(steps)
  {
    hide WellOrdered, Sequential, Preceded;
    forall k: nat, x: nat
      ensures !Clash(steps, k, x)
    {
      if k < |steps| && x < |steps| && steps[k].user == steps[x].user {
        if steps[k].statement.KeyInsert? && steps[x].statement.ListDelete? {
          NoSequentialClash(steps, k, x);
        }
      }
    }
  }

  /** So attempts made one after another keep the rule. */
  lemma SequentialStaysEvident(t: Tables, steps: seq<Step>)
    requires Evident(t) && WellOrdered(steps) && Sequential(steps)
    ensures EvidentAlways(t, steps)
  {
    SequentialHasNoConflict(steps);
    EvidentIffNoConflict(t, steps);
  }

  // ------------------------------------- the attempts of CoAdmin as schedules

  /** The statements of one attempt. */
  ghost predicate IsBlock(block: seq<Step>, id: nat) {
    WellOrdered(block) && forall i | 0 <= i < |block| :: block[i].attempt == id
  }

  lemma AfterOne(t: Tables, s: Step)
    ensures After(t, [s]) == Executed(t, s)
  {
    assert [s][..0] == [];
  }

  lemma AfterTwo(t: Tables, s: Step, u: Step)
    ensures After(t, [s, u]) == Executed(Executed(t, s), u)
  {
    AfterOne(t, s);
    assert [s, u][..1] == [s];
  }

  lemma TwoAreABlock(id: nat, user: UserId, first: Statement, second: Statement)
    requires (first.ListInsert? && second.KeyInsert?) || (first.KeyDelete? && second.ListDelete?)
    ensures IsBlock([Step(id, user, first), Step(id, user, second)], id)
  {
    var block := [Step(id, user, first), Step(id, user, second)];
    assert block[0].statement == first && block[1].statement == second;
    assert Preceded(block, 1, first);
  }

  /** Whatever an attempt may do is what some of its statements do, in their order. */
  lemma AttemptIsABlock(t: Tables, t': Tables, a: Attempt, id: nat) returns (block: seq<Step>)
    requires AttemptMay(t, t', a)
    ensures IsBlock(block, id) && After(t, block) == t'
  {
    var user := a.user;
    if t' == t {
      block := [];
    } else if a.GrantAttempt? {
      var first, second := Step(id, user, ListInsert), Step(id, user, KeyInsert(a.row));
      AfterOne(t, first);
      AfterTwo(t, first, second);
      TwoAreABlock(id, user, ListInsert, KeyInsert(a.row));
      block := if t'.keys == t.keys then [first] else [first, second];
    } else {
      var first, second := Step(id, user, KeyDelete), Step(id, user, ListDelete);
      AfterOne(t, first);
      AfterTwo(t, first, second);
      TwoAreABlock(id, user, KeyDelete, ListDelete);
      block := if t'.admins == t.admins then [first] else [first, second];
    }
  }

  lemma {:induction false} AfterAppend(t: Tables, steps: seq<Step>, block: seq<Step>)
    ensures After(t, steps + block) == After(After(t, steps), block)
  {
    if block == [] {
      assert steps + block == steps;
    } else {
      var n := |block| - 1;
      AfterAppend(t, steps, block[..n]);
      assert (steps + block)[..|steps| + n] == steps + block[..n];
    }
  }

  ghost predicate AttemptsBelow(steps: seq<Step>, id: nat) {
    forall i | 0 <= i < |steps| :: steps[i].attempt < id
  }

  lemma PrecededInFront(steps: seq<Step>, block: seq<Step>, n: nat, first: Statement)
    requires n < |steps| && Preceded(steps, n, first)
    ensures Preceded(steps + block, n, first)
  {
    var m :| 0 <= m < n && steps[m].attempt == steps[n].attempt && steps[m].statement == first;
    assert (steps + block)[m] == steps[m];
  }

  lemma PrecededBehind(steps: seq<Step>, block: seq<Step>, n: nat, first: Statement)
    requires n < |block| && Preceded(block, n, first)
    ensures Preceded(steps + block, |steps| + n, first)
  {
    var m :| 0 <= m < n && block[m].attempt == block[n].attempt && block[m].statement == first;
    assert (steps + block)[|steps| + m] == block[m];
  }

  lemma AppendedSound(steps: seq<Step>, block: seq<Step>, id: nat)
    requires AttemptsSound(steps) && AttemptsBelow(steps, id) && IsBlock(block, id)
    ensures AttemptsSound(steps + block) && AttemptsBelow(steps + block, id + 1)
  {
  }

  lemma AppendBlock(steps: seq<Step>, block: seq<Step>, id: nat)
    requires WellOrdered(steps) && Sequential(steps) && AttemptsBelow(steps, id) && IsBlock(block, id)
    ensures WellOrdered(steps + block) && Sequential(steps + block) && AttemptsBelow(steps + block, id + 1)
  {
    AppendedSound(steps, block, id);
    var all := steps + block;
    forall n | 0 <= n < |all|
      ensures all[n].statement.KeyInsert? ==> Preceded(all, n, ListInsert)
      ensures all[n].statement.ListDelete? ==> Preceded(all, n, KeyDelete)
    {
      var first := if all[n].statement.KeyInsert? then ListInsert else KeyDelete;
      if all[n].statement.KeyInsert? || all[n].statement.ListDelete? {
        if n < |steps| {
          assert Preceded(steps, n, first);
          PrecededInFront(steps, block, n, first);
        } else {
          assert Preceded(block, n - |steps|, first);
          PrecededBehind(steps, block, n - |steps|, first);
        }
      }
    }
  }

  /** A run of attempts one after another is a sequential schedule with the same outcome. */
  lemma {:induction false} RunIsSequential(states: seq<Tables>, attempts: seq<Attempt>) returns (steps: seq<Step>)
    requires IsRun(states, attempts)
    ensures WellOrdered(steps) && Sequential(steps) && AttemptsBelow(steps, |attempts|)
    ensures After(states[0], steps) == states[|attempts|]
    decreases |attempts|
  {
    if attempts == [] {
      steps := [];
    } else {
      var n := |attempts| - 1;
      var front := RunIsSequential(states[..n + 1], attempts[..n]);
      assert AttemptMay(states[n], states[n + 1], attempts[n]);
      var block := AttemptIsABlock(states[n], states[n + 1], attempts[n], n);
      AppendBlock(front, block, n);
      AfterAppend(states[0], front, block);
      steps := front + block;
    }
  }
}
