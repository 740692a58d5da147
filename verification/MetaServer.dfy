/**
 * The writers of the user_vault_meta row (src/lib/vault-persist.ts), against a
 * server whose answers can be lost and where other sessions act between any two calls.
 */
module MetaServer {
  import opened Wrappers
  import opened Text
  import opened Symbolic
  import opened VaultMeta

  /** Rows(n): n rows changed. NoAnswer: an error, a throw, or a lost response. */
  datatype CasAnswer = Rows(changed: nat) | NoAnswer

  datatype MetaReadBack = Landed | NotLanded | Unknown

  /** RowsChanged is the judged answer; Raised(warned) is a thrown failure. */
  datatype WriteResult = RowsChanged(changed: nat) | Raised(warned: bool)

  datatype SaveOutcome = Saved | SaveFailed | Conflict | NotProven

  const META_WRITE_ATTEMPTS: nat := 4

  /** The judgement of readBackRotatedMeta on the row it could read. */
  function Judge(row: Option<MetaRow>, r: Request): MetaReadBack
    requires r.Rotate?
  {
    match row
    case None => Unknown
    case Some(stored) =>
      if stored.recovery == r.recovery && stored.verifier == r.verifier && stored.keyVersion == r.keyVersion then Landed
      else if stored.recovery == r.prior then NotLanded
      else Unknown
  }

  /**
   * How the writer may conclude from what it saw: it goes on only past an
   * unanswered write that the read-back shows did not land; one row, or a
   * read-back that shows all three values, is success; zero rows is returned
   * unless a read-back after the first attempt shows success; it gives up on an
   * unknown read-back or after the last attempt.
   */
  ghost predicate Concludes(result: WriteResult, warned: bool, answers: seq<CasAnswer>, judged: seq<MetaReadBack>) {
    var n := |answers|;
    && 1 <= n <= META_WRITE_ATTEMPTS
    && (forall i | 0 <= i < n - 1 :: i < |judged| && answers[i] == NoAnswer && judged[i] == NotLanded)
    && match answers[n - 1]
       case NoAnswer =>
         && |judged| == n
         && result == (if judged[n - 1].Landed? then RowsChanged(1) else Raised(warned))
         && (judged[n - 1].NotLanded? ==> n == META_WRITE_ATTEMPTS)
       case Rows(changed) =>
         if changed == 0 && n > 1
         then |judged| == n && result == RowsChanged(if judged[n - 1].Landed? then 1 else 0)
         else |judged| == n - 1 && result == RowsChanged(changed)
  }

  /** The request took effect and nobody has replaced its envelopes since. */
  ghost predicate TookEffectAndStored(w: World, r: Request)
    requires w.past != []
  {
    r in w.log && Current(w).recovery == r.recovery
  }

  class MetaServer {
    ghost const start: World
    ghost var events: seq<Event>
    var world: World

    /** How many reads of the row failed. */
    ghost var unread: nat

    /** How many writes were refused, lost or went unanswered. */
    ghost var lost: nat

    ghost predicate Valid()
      reads this
    {
      Initial(start) && world == Run(start, events)
    }

    constructor (row: MetaRow)
      requires OneMek(row)
      ensures Valid() && world == World([row], {}, {}, [], {})
    {
      world := World([row], {}, {}, [], {});
      start := World([row], {}, {}, [], {});
      events, unread, lost := [], 0, 0;
    }

    lemma Sound()
      requires Valid()
      ensures Inv(world) && Lineage(world)
    {
      RunKeepsInv(start, events);
      RunKeepsLineage(start, events);
    }

    method Step(e: Event)
      requires Valid()
      modifies this`world, this`events
      ensures Valid() && world == Next(old(world), e) && Grows(old(world), world)
      ensures old(events) <= events
    {
      NextGrows(world, e);
      world := Next(world, e);
      events := events + [e];
      assert events[..|events| - 1] == old(events);
    }

    /** Other sessions act any number of times; only this one sends the requests in mine. */
    method Interfere(mine: set<Request>)
      requires Valid()
      modifies this`world, this`events
      ensures Valid() && Grows(old(world), world)
      ensures world.sent * mine == old(world).sent * mine
      ensures old(events) <= events
    {
      var steps: nat := *;
      while steps > 0
        invariant Valid() && Grows(old(world), world)
        invariant world.sent * mine == old(world).sent * mine
        invariant old(events) <= events
      {
        var e: Event := *;
        if !(e.Send? && e.request in mine) {
          Step(e);
        }
        steps := steps - 1;
      }
    }

    /** Reads the row after others have acted; None when it cannot be read. */
    method ReadMeta(mine: set<Request>) returns (row: Option<MetaRow>)
      requires Valid()
      modifies this`world, this`events, this`unread
      ensures Valid() && Grows(old(world), world)
      ensures world.sent * mine == old(world).sent * mine
      ensures row.Some? ==> row.value == Current(world)
      ensures unread == old(unread) + if row.Some? then 0 else 1
    {
      Interfere(mine);
      var readable: bool := *;
      if !readable {
        unread := unread + 1;
      }
      row := if readable then Some(Current(world)) else None;
    }

    /** A sent request that matches changes the row. */
    method Deliver(r: Request)
      requires Valid() && r in world.sent && Matches(Current(world), r)
      modifies this`world, this`events
      ensures Valid() && Grows(old(world), world)
      ensures r in world.log && TookEffectAt(world.past, r, |world.past| - 1)
    {
      Step(Event.Deliver(r));
      assert world.log[|world.log| - 1] == r;
    }

    /** Others act, then the statement goes out; its first copy has not taken effect. */
    method Submit(r: Request)
      requires Valid() && r in world.built
      modifies this`world, this`events
      ensures Valid() && Grows(old(world), world) && r in world.sent
      ensures r !in old(world).sent ==> r !in world.log
    {
      hide Inv, Lineage, MayBuild, Apply;
      Interfere({r});
      assert r in old(world).sent * {r} <==> r in world.sent * {r};
      Sound();
      if r !in world.sent {
        UnsentMeansUnused(world, r);
      }
      Step(Send(r));
    }

    /**
     * One compare-and-swap UPDATE. It may be refused, or arrive after its answer
     * was given up on; returned is the row it changed.
     */
    method CompareAndSwap(r: Request) returns (answer: CasAnswer, returned: MetaRow)
      requires Valid() && r in world.built
      modifies this`world, this`events, this`lost
      ensures Valid() && Grows(old(world), world) && r in world.sent
      ensures lost >= old(lost)
      ensures lost == old(lost) ==> answer.Rows? && (answer == Rows(0) ==> !Matches(Current(world), r))
      ensures answer == Rows(1) ==> TookEffectAndStored(world, r) && TookEffectAt(world.past, r, |world.past| - 1)
      ensures answer == Rows(0) && r !in old(world).sent ==> r !in world.log
      ensures answer.Rows? ==> answer.changed <= 1
      ensures returned == Current(world)
    {
      assert world.past != [];
      hide MetaServer.Valid;
      Submit(r);
      var arrives: bool, permitted: bool, answered: bool := *, *, *;
      var landed := arrives && permitted && Matches(Current(world), r);
      if landed {
        Deliver(r);
      }
      if !arrives || !permitted || !answered {
        lost := lost + 1;
      }
      returned := Current(world);
      answer := if !answered || !arrives then NoAnswer else if landed then Rows(1) else Rows(0);
    }

    /** readBackRotatedMeta */
    method ReadBackRotatedMeta(r: Request) returns (judged: MetaReadBack)
      requires Valid() && r.Rotate? && r in world.built
      modifies this`world, this`events, this`unread
      ensures Valid() && Grows(old(world), world)
      ensures unread >= old(unread)
      ensures judged.Landed? ==> TookEffectAndStored(world, r)
      ensures judged.NotLanded? ==> r !in world.log && Current(world).recovery == r.prior
      ensures unread == old(unread) ==>
                && (judged.Landed? <==> TookEffectAndStored(world, r))
                && (judged.NotLanded? <==> Current(world).recovery == r.prior)
    {
      var row := ReadMeta({});
      judged := Judge(row, r);
      Sound();
      if judged.Landed? {
        StoredMeansLanded(world, r);
      }
      if judged.NotLanded? {
        GuardMeansUnused(world, r);
      }
      if TookEffectAndStored(world, r) {
        LandedValuesStored(world, r);
      }
    }

    /**
     * writeVaultMetaRetryingLostResponses. The transcript is the answers the
     * writes got and what each read-back showed, in order.
     */
    method WriteVaultMetaRetryingLostResponses(r: Request, rowsAlreadyWritten: bool)
      returns (result: WriteResult, ghost answers: seq<CasAnswer>, ghost judged: seq<MetaReadBack>)
      requires Valid() && r.Rotate? && r in world.built
      modifies this
      ensures Valid() && Grows(old(world), world)
      ensures result == RowsChanged(1) ==> r in world.log
      ensures unread >= old(unread) && lost >= old(lost)
      ensures result != RowsChanged(1) ==> lost > old(lost) || !Matches(Current(world), r)
      ensures result.RowsChanged? ==> result.changed <= 1
      ensures result.Raised? ==> lost > old(lost)
      ensures Concludes(result, rowsAlreadyWritten, answers, judged)
      ensures unread == old(unread) && (r !in old(world).sent || answers[0] != Rows(0)) ==>
                (result == RowsChanged(1) <==> TookEffectAndStored(world, r))
    {
      assert world.past != [];
      hide MetaServer.Valid, TookEffectAt;
      answers, judged := [], [];
      for attempt := 1 to META_WRITE_ATTEMPTS + 1
        invariant Valid() && Grows(old(world), world)
        invariant r in world.built && (attempt == 1 ==> r in world.sent ==> r in old(world).sent)
        invariant |answers| == |judged| == attempt - 1
        invariant unread >= old(unread) && lost >= old(lost) + attempt - 1
        invariant unread == old(unread) && attempt > META_WRITE_ATTEMPTS ==> !TookEffectAndStored(world, r)
        invariant forall i | 0 <= i < |answers| :: answers[i] == NoAnswer && judged[i] == NotLanded
      {
        var answer, _ := CompareAndSwap(r);
        answers := answers + [answer];
        assert |answers| == attempt;
        if answer.Rows? {
          if attempt >= 2 && answer.changed == 0 {
            var late := ReadBackRotatedMeta(r);
            judged := judged + [late];
            if late.Landed? {
              return RowsChanged(1), answers, judged;
            }
          }
          return RowsChanged(answer.changed), answers, judged;
        }
        var readBack := ReadBackRotatedMeta(r);
        judged := judged + [readBack];
        if readBack.Landed? {
          return RowsChanged(1), answers, judged;
        }
        assert answers[attempt - 1] == NoAnswer;
        if readBack.Unknown? {
          return Raised(rowsAlreadyWritten), answers, judged;
        }
        if attempt < META_WRITE_ATTEMPTS {
          Interfere({});
        }
      }
      result := Raised(rowsAlreadyWritten);
    }

    /**
     * persistRewrappedVaultMeta, with verifyPersisted given by the two keys and
     * the MEK it closes over.
     */
    method PersistRewrappedVaultMeta(r: Request, passwordKey: Key, recoveryKey: Key, mek: Bytes)
      returns (outcome: SaveOutcome, ghost answer: CasAnswer)
      requires Valid() && r.Rewrap? && r in world.built
      modifies this`world, this`events, this`lost
      ensures Valid() && Grows(old(world), world)
      ensures outcome.Saved? ==>
                && r in world.log
                && Decrypt(Current(world).encMek, passwordKey) == Success(mek)
                && Decrypt(Current(world).recovery, recoveryKey) == Success(mek)
                && OneMek(Current(world)) && MekOf(Current(world)) == mek
      ensures outcome.SaveFailed? <==> answer.NoAnswer?
      ensures outcome.Conflict? <==> answer == Rows(0)
      ensures outcome.Saved? <==>
                && answer == Rows(1)
                && Decrypt(r.encMek, passwordKey) == Success(mek) && Decrypt(r.recovery, recoveryKey) == Success(mek)
      ensures outcome.NotProven? ==> answer == Rows(1)
      ensures lost >= old(lost) && unread == old(unread)
      ensures outcome.SaveFailed? ==> lost > old(lost)
      ensures outcome.Conflict? ==> lost > old(lost) || !Matches(Current(world), r)
      ensures outcome.Conflict? && r !in old(world).sent ==> r !in world.log
    {
      hide MetaServer.Valid, Contiguous, RequestsSound, RetiredSound;
      var given, returned := CompareAndSwap(r);
      answer := given;
      if given.NoAnswer? {
        return SaveFailed, answer;
      }
      if given.changed == 0 {
        return Conflict, answer;
      }
      if Decrypt(returned.encMek, passwordKey) != Success(mek) ||
         Decrypt(returned.recovery, recoveryKey) != Success(mek)
      {
        return NotProven, answer;
      }
      Sound();
      outcome := Saved;
    }

    /** Random nonces do not repeat. */
    method DrawNonce() returns (nonce: nat)
      requires Valid()
      ensures FreshNonce(KnownEnvelopes(world), nonce)
    {
      ghost var least := FreshNonceExists(KnownEnvelopes(world));
      nonce :| FreshNonce(KnownEnvelopes(world), nonce);
    }

    /** Registers a request whose envelopes were sealed under fresh nonces. */
    method Register(r: Request)
      requires Valid() && MayBuild(world, r)
      modifies this`world, this`events
      ensures Valid() && Grows(old(world), world)
      ensures world == old(world).(built := old(world).built + {r})
    {
      Step(Build(r));
    }

    /** ensurePqcKeypairs: its read and its write as one step, as the code assumes. */
    method EnsurePqcKeypairs(kemPublic: Utf16, kemSecret: Column, sigPublic: Utf16, sigSecret: Column)
      returns (generated: bool)
      requires Valid()
      modifies this`world, this`events
      ensures Valid() && Grows(old(world), world)
      ensures generated <==> !HasText(Current(old(world)).kemPublic)
      ensures !generated ==> world == old(world)
      ensures generated ==>
                && Current(world).kemPublic == Some(kemPublic) && Current(world).sigPublic == Some(sigPublic)
                && Current(world).kemSecret == Some(kemSecret) && Current(world).sigSecret == Some(sigSecret)
      ensures Envelopes(Current(world)) == Envelopes(Current(old(world)))
      ensures Current(world).verifier == Current(old(world)).verifier
    {
      generated := !HasText(Current(world).kemPublic);
      Step(PublishPqc(kemPublic, kemSecret, sigPublic, sigSecret));
    }
  }
}
