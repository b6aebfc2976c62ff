/**
  A reorganisation from end to end, with both boundary errors of the cleanup: rows left closed by the orphaned block
  after the last consistent one, and the last consistent block processed once more.
*/
module Convergence {
  import opened Chain
  import opened Positions
  import opened Replay
  import opened Ledger
  import opened Effects
  import opened TimeTravel
  import opened Processing
  import opened Rollback
  import opened Rows
  import opened Healing
  import opened Reindex

  /** The cleanup as written leaves a stale version of what the exact cleanup gives back. */
  lemma CleanupIsStale(t: Table, height: int)
    ensures StaleVersion(CleanupFromBlock(t, height), ExactCleanup(t, height), height)
    ensures
      var a, b := CleanupFromBlock(t, height), ExactCleanup(t, height);
      forall i :: (StaleAt(a, b, i, height) <==> 0 <= i < |a| && a[i].end == Some(height))
  {
    hide DeleteAbove;
  }

  /** Once only later blocks follow, a row that covered the height goes on covering it, and new rows start above it. */
  ghost predicate KeepsUpTo(t: Table, u: Table, height: int) {
    && |t| <= |u|
    && (forall i :: 0 <= i < |t| && t[i].Covers(height) ==> u[i].Covers(height))
    && (forall i :: |t| <= i < |u| ==> u[i].start > height)
  }

  lemma KeepsStep(t: Table, u: Table, w: Table, block: int, height: int)
    requires KeepsUpTo(t, u, height) && AgreeBelow(u, w, block) && block > height
    ensures KeepsUpTo(t, w, height)
  {
    forall i | 0 <= i < |t| && t[i].Covers(height) ensures w[i].Covers(height) {
      assert SameBelow(u[i], w[i], block);
    }
    forall i | |t| <= i < |w| ensures w[i].start > height {
      assert i < |u| ==> SameBelow(u[i], w[i], block);
    }
  }

  lemma {:induction false} LaterRunKeeps(t: Table, tip: int, events: seq<Log>, height: int)
    requires Valid(t, tip) && Indexable(events) && RunFrom(Complete, t, events).Ok?
    requires forall i :: 0 <= i < |events| ==> events[i].block > height && events[i].block >= tip
    ensures KeepsUpTo(t, RunFrom(Complete, t, events).value, height)
    ensures Valid(RunFrom(Complete, t, events).value, if events == [] then tip else LastBlock(events))
  {
    hide Valid, Step, WellFormed, IsSelfTransfer, AgreeBelow, KeepsUpTo, Effect, Rejected;
    if events == [] {
      KeepsItself(t, height);
    } else {
      var init, last := events[..|events| - 1], events[|events| - 1];
      LaterRunKeeps(t, tip, init, height);
      var u := RunFrom(Complete, t, init).value;
      var before := if init == [] then tip else LastBlock(init);
      StepMeaning(u, before, last);
      EffectKeepsValid(u, before, last);
      KeepsStep(t, u, Effect(u, last), last.block, height);
    }
  }

  lemma KeepsItself(t: Table, height: int)
    ensures KeepsUpTo(t, t, height)
  {
  }

  /**
    A deposit or transfer of the last block, processed once more, opens a row there or terminates one just below it.
  */
  ghost predicate Marked(a: Table, b: Table, n: nat, height: int)
  {
    || (n < |a| && a[n].start == height)
    || exists i :: 0 <= i < n <= |b| && Frozen(a, i) && a[i].end == Some(height - 1) && b[i].Covers(height)
  }

  lemma {:induction false} UpdateAllEnds(t: Table, updates: seq<PositionUpdate>, i: nat, end: int)
    requires i < |t| && (t[i].end == Some(end) || exists j :: 0 <= j < |updates| && updates[j].id == t[i].Id())
    requires forall j :: 0 <= j < |updates| ==> updates[j].end == end
    ensures |UpdateAll(t, updates)| == |t| && UpdateAll(t, updates)[i].end == Some(end)
    decreases |updates|
  {
    if updates != [] {
      if updates[0].id != t[i].Id() && t[i].end != Some(end) {
        var j :| 0 <= j < |updates| && updates[j].id == t[i].Id();
        assert updates[1..][j - 1] == updates[j];
      }
      UpdateAllEnds(UpdateRows(t, updates[0]), updates[1..], i, end);
    }
  }

  lemma FoundCovers(t: Table, u: Table, tip: int, i: int, height: int)
    requires Valid(u, tip) && tip <= height && StaleVersion(t, u, height) && IsFound(t, i)
    ensures u[i].Covers(height)
  {
    hide Lookup, Tracked;
    StaleIsNumbered(t, u, height);
    FoundIsNotFrozen(t, i);
    if t[i] == u[i] {
      var k := u[i].HeldBy();
      forall j | i < j < |u| ensures u[j].HeldBy() != k {
        assert t[j].HeldBy() == u[j].HeldBy();
      }
      assert !Frozen(u, i);
      assert u[i].end.Some? && !u[i].terminated ==> Continued(u, i);
    }
  }

  lemma MoveLeavesMark(t: Table, u: Table, tip: int, log: Log, height: int)
    requires Valid(u, tip) && tip <= height && StaleVersion(t, u, height)
    requires log.block == height && Credited(log).Some? && Step(Complete, t, log).Ok?
    ensures Marked(Step(Complete, t, log).value, u, |t|, height)
  {
    hide Valid, Lookup, Handle, MaxIndexId, Sound, UpdateAll, Concerns, Extends, StaleVersion, Numbered;
    NumberedOf(u, tip);
    StaleIsNumbered(t, u, height);
    var k := Credited(log).value;
    ConcernsMeans(log, k);
    CreditConcerns(log, k);
    UpdatesOfHandle(t, log);
    HandleIsSound(t, log);
    var ops, a := Handle(t, log).value, Step(Complete, t, log).value;
    SoundExecuted(t, log.vault, ops);
    UpdateAllKeepsShape(t, ops.updates);
    if ops.inserts != [] {
      assert a[|t|] == InsertedRow(ops.inserts[0]);
    } else {
      FoundIsLast(t, k);
      assert Lookup(t, k).Some?;
      var i :| IsFound(t, i) && t[i].HeldBy() == k && t[i] == Lookup(t, k).value;
      assert IsSettled(t, ops, k);
      HitsTerminate(t, log, ops, i);
      UpdateAllTerminates(t, ops.updates, i);
      UpdateAllEnds(t, ops.updates, i, height - 1);
      FoundCovers(t, u, tip, i, height);
      StaleLength(t, u, height);
      assert Frozen(a, i);
    }
  }

  lemma CreditConcerns(log: Log, k: Holder)
    requires Credits(log, k)
    ensures Concerns(log, k)
  {
  }

  lemma StaleLength(t: Table, u: Table, height: int)
    requires StaleVersion(t, u, height)
    ensures |t| == |u|
  {
  }

  /** The mark stays whatever is processed next, and no run without the repetition has it. */
  lemma MarkedDiffers(a: Table, b: Table, c: Table, d: Table, n: nat, height: int)
    requires Marked(a, b, n, height) && Extends(a, c) && n == |b| && KeepsUpTo(b, d, height)
    ensures c != d
  {
    if n < |a| && a[n].start == height {
      assert SameRecord(a[n], c[n]);
    } else {
      var i :| 0 <= i < n <= |b| && Frozen(a, i) && a[i].end == Some(height - 1) && b[i].Covers(height);
      ExtendsFrozen(a, c, i);
    }
  }

  // ------------------------------------------------------ the whole condition

  lemma {:induction false} SilentPositions(t: Table, events: seq<Log>)
    requires forall e :: e in events ==> Silent(e)
    ensures RunFrom(Complete, t, events) == Ok(t)
  {
    hide Step, Silent;
    if events != [] {
      SilentPositions(t, events[..|events| - 1]);
      SilentPosition(t, events[|events| - 1]);
    }
  }

  lemma SilentPosition(t: Table, log: Log)
    requires Silent(log)
    ensures Step(Complete, t, log) == Ok(t)
  {
    hide MaxIndexId, GetMostRecentPosition, AmountText, ApplyAll;
    NothingExecuted(t);
  }

  /** The first event that derives something, of events none of which derives a keyed row. */
  lemma {:induction false} FirstMove(events: seq<Log>) returns (i: nat)
    requires exists e :: e in events && !Silent(e)
    requires forall e :: e in events ==> !Keyed(e)
    ensures i < |events| && Credited(events[i]).Some? && forall e :: e in events[..i] ==> Silent(e)
  {
    if exists e :: e in events[..|events| - 1] && !Silent(e) {
      i := FirstMove(events[..|events| - 1]);
      assert events[..|events| - 1][..i] == events[..i];
    } else {
      i := |events| - 1;
      var e :| e in events && !Silent(e);
      assert events == events[..i] + [events[i]];
      assert events[i] in events && e == events[i];
    }
  }

  /** A repeated deposit or transfer of the last block shows, whatever the stale rows do. */
  lemma RepeatShows(t: Table, u: Table, tip: int, again: seq<Log>, canonical: seq<Log>, height: int)
    requires Valid(u, tip) && tip <= height && StaleVersion(t, u, height) && Indexable(canonical)
    requires forall e :: e in again ==> e.block == height && !Keyed(e)
    requires exists e :: e in again && !Silent(e)
    requires forall i :: 0 <= i < |canonical| ==> canonical[i].block > height
    requires RunFrom(Complete, u, canonical).Ok?
    ensures RunFrom(Complete, t, again + canonical) != RunFrom(Complete, u, canonical)
  {
    hide Valid, Step, StaleVersion, Indexable, RunFrom, Marked, Extends, KeepsUpTo, Silent, Keyed, Numbered;
    var i := FirstMove(again);
    var later := again[i + 1..] + canonical;
    assert again + canonical == again[..i] + ([again[i]] + later);
    RunConcat(Complete, t, again[..i], [again[i]] + later);
    SilentPositions(t, again[..i]);
    RunFront(t, [again[i]] + later);
    assert ([again[i]] + later)[1..] == later;
    assert again[i] in again;
    LaterRunKeeps(u, tip, canonical, height);
    if RunFrom(Complete, t, again + canonical).Ok? {
      MoveLeavesMark(t, u, tip, again[i], height);
      NumberedOf(u, tip);
      StaleIsNumbered(t, u, height);
      StaleLength(t, u, height);
      var a := Step(Complete, t, again[i]).value;
      StepExtends(Complete, t, again[i]);
      RunExtends(Complete, a, later);
      MarkedDiffers(a, u, RunFrom(Complete, a, later).value, RunFrom(Complete, u, canonical).value, |t|, height);
    }
  }

  /** From one set of keys, two runs over the same events agree exactly when their positions do. */
  lemma SameKeysSameEnd(d: Derived, e: Derived, before: seq<Log>, events: seq<Log>)
    requires HoldsKeysOf(d, before) && HoldsKeysOf(e, before) && ProcessFrom(Complete, e, events).Ok?
    ensures ProcessFrom(Complete, d, events) == ProcessFrom(Complete, e, events)
       <==> RunFrom(Complete, d.positions, events) == RunFrom(Complete, e.positions, events)
  {
    hide ProcessFrom, RunFrom, KeysFree, Requests, Rates;
    ProcessingSplits(Complete, d, before, events);
    ProcessingSplits(Complete, e, before, events);
  }

  /**
    The reorganisation after orphaned events were processed: the last block is repeated in full, and rows may be stale.
  */
  lemma ReorgAfterOrphans(common: seq<Log>, gone: seq<Log>, canonical: seq<Log>, height: Height)
    requires Forks(common, gone, canonical, height)
    requires ProcessAll(Complete, common + gone).Ok? && ProcessAll(Complete, common + canonical).Ok?
    ensures
      var d := CleanupAll(ProcessAll(Complete, common + gone).value, height, height + 1);
      var again := EventsAt(common, height);
      var converges := ProcessFrom(Complete, d, again + canonical) == ProcessAll(Complete, common + canonical);
      converges <==> (forall e :: e in again ==> Silent(e)) && AllHealed(d.positions, canonical, height)
  {
    hide ProcessFrom, RunFrom, EventsAt, Indexable, Valid, Silent, Keyed, Cleanup, Requests, Rates, KeptRequests,
      KeptRates,
      KeysFree, Healed, Stale, UpTo;
    var again, p := EventsAt(common, height), ProcessAll(Complete, common + gone).value;
    var d, exact := CleanupAll(p, height, height + 1), CleanupAll(p, height, height);
    CommonPart(common, gone, height);
    ProcessingAllSplits(Complete, common);
    assert HoldsKeysOf(exact, common) && HoldsKeysOf(d, common);
    CleanupIsStale(p.positions, height);
    ProcessConcat(Complete, NOTHING_DERIVED, common, canonical);
    CanonicalPart(common, canonical, height);
    ReachableIsValid(common);
    var tip := LastBlock(common);
    ProcessingSplits(Complete, exact, common, canonical);
    if forall e :: e in again ==> Silent(e) {
      SilentRun(d, again);
      ProcessConcat(Complete, d, again, canonical);
      SameKeysSameEnd(d, exact, common, canonical);
      HealsExactly(d.positions, exact.positions, tip, canonical, height);
    } else if ProcessFrom(Complete, d, again + canonical) == ProcessAll(Complete, common + canonical) {
      ProcessingSplits(Complete, d, common, again + canonical);
      AgainIsCommon(common, height);
      KeyedRepeats(common, again, canonical);
      RepeatShows(d.positions, exact.positions, tip, again, canonical, height);
    }
  }

  /** Undone exactly, the orphaned events leave the common part. */
  lemma CommonPart(common: seq<Log>, gone: seq<Log>, height: Height)
    requires Indexable(common + gone) && ProcessAll(Complete, common + gone).Ok?
    requires forall i :: 0 <= i < |common| ==> common[i].block <= height
    requires forall i :: 0 <= i < |gone| ==> gone[i].block > height
    ensures Indexable(common) && ProcessAll(Complete, common).Ok?
    ensures CleanupAll(ProcessAll(Complete, common + gone).value, height, height) == ProcessAll(Complete, common).value
  {
    hide ProcessFrom, CleanupAll, Indexable;
    RollbackAllIsInverse(common + gone, height);
    UpToConcat(common, gone, height);
    UpToAll(common, height);
    IndexablePart(common + gone, 0, |common|);
    assert (common + gone)[0..|common|] == common;
  }

  lemma CanonicalPart(common: seq<Log>, canonical: seq<Log>, height: Height)
    requires Indexable(common + canonical)
    requires forall i :: 0 <= i < |common| ==> common[i].block <= height
    requires forall i :: 0 <= i < |canonical| ==> canonical[i].block > height
    ensures Indexable(canonical) && LastBlock(common) <= height
    ensures forall i :: 0 <= i < |canonical| ==> canonical[i].block >= LastBlock(common)
  {
    hide Indexable;
    IndexablePart(common + canonical, |common|, |common + canonical|);
    assert (common + canonical)[|common|..|common + canonical|] == canonical;
  }

  /**
    A reorganisation as written, when the first n stored events had been processed: after the cleanup and the restart
    the derived rows end up as on a chain that never forked, if and only if what had been processed of the last
    consistent block derives nothing, and every row closed by the block after it is healed by the canonical chain.
  */
  lemma ReorgAsWritten(common: seq<Log>, orphaned: seq<Log>, canonical: seq<Log>, n: nat, height: Height)
    requires Forks(common, orphaned, canonical, height) && n <= |common + orphaned|
    requires ProcessAll(Complete, (common + orphaned)[..n]).Ok? && ProcessAll(Complete, common + canonical).Ok?
    ensures
      var processed := (common + orphaned)[..n];
      var s := ReorgCleanup(Store(common + orphaned, ProcessAll(Complete, processed).value), height);
      var resumed := ProcessFrom(Complete, s.derived, Remaining(common, n, canonical, height));
      var silent := forall e :: e in EventsAt(processed, height) ==> Silent(e);
      && s.events + EventsAt(common, height) == common
      && (resumed == ProcessAll(Complete, common + canonical) <==>
        silent && AllHealed(s.derived.positions, canonical, height))
  {
    hide ProcessFrom, EventsAt, Indexable, CleanupAll, Silent, AllHealed, UpTo;
    DeletedEvents(common, orphaned, height);
    if n <= |common| {
      assert (common + orphaned)[..n] == common[..n];
      ReorgBeforeOrphans(common, orphaned, canonical, n, height);
    } else {
      var gone := orphaned[..n - |common|];
      assert (common + orphaned)[..n] == common + gone;
      IndexablePart(common + orphaned, 0, n);
      assert (common + orphaned)[0..n] == common + gone;
      ReorgAfterOrphans(common, gone, canonical, height);
      IndexablePart(common, 0, 0);
      AllProcessedBelow(common, n, canonical, height);
      EventsAtConcat(common, gone, height);
      EventsAtOther(gone, height);
      assert EventsAt(common, height) + [] == EventsAt(common, height);
    }
  }

  lemma AllProcessedBelow(common: seq<Log>, n: nat, canonical: seq<Log>, height: int)
    requires InBlockOrder(common) && n >= |common|
    ensures Remaining(common, n, canonical, height) == EventsAt(common, height) + canonical
  {
    hide UpTo, EventsAt;
    UpToIsPrefix(common, height - 1);
    assert [] + EventsAt(common, height) == EventsAt(common, height);
  }

  // ------------------------------------------------------- when it gets stuck

  /**
    A repeated withdraw request or rate update is a duplicate key, whatever else happens: the restart never gets past
    it.
  */
  lemma KeyedBlockIsStuck(common: seq<Log>, orphaned: seq<Log>, canonical: seq<Log>, n: nat, height: Height)
    requires Forks(common, orphaned, canonical, height) && n <= |common + orphaned|
    requires ProcessAll(Complete, (common + orphaned)[..n]).Ok?
    requires exists e :: e in EventsAt((common + orphaned)[..n], height) && Keyed(e)
    ensures
      var d := CleanupAll(ProcessAll(Complete, (common + orphaned)[..n]).value, height, height + 1);
      ProcessFrom(Complete, d, Remaining(common, n, canonical, height)).Err?
  {
    hide ProcessFrom, RunFrom, EventsAt, Indexable, Keyed, Cleanup, KeysFree, Requests, Rates, Remaining, KeptRequests,
      KeptRates, UpTo;
    var processed := (common + orphaned)[..n];
    var d := CleanupAll(ProcessAll(Complete, processed).value, height, height + 1);
    if n <= |common| {
      assert processed == common[..n];
      var done, extra, rest := RepeatSplit(common, orphaned, n, canonical, height);
      CleanupBeforeOrphans(done, height);
      ProcessingAllSplits(Complete, done);
      AgainIsCommon(done, height);
      StuckOn(d, done, extra, rest);
    } else {
      var gone := orphaned[..n - |common|];
      assert processed == common + gone;
      IndexablePart(common + orphaned, 0, n);
      assert (common + orphaned)[0..n] == common + gone;
      CommonPart(common, gone, height);
      ProcessingAllSplits(Complete, common);
      IndexablePart(common, 0, 0);
      AllProcessedBelow(common, n, canonical, height);
      EventsAtConcat(common, gone, height);
      EventsAtOther(gone, height);
      assert EventsAt(common, height) + [] == EventsAt(common, height);
      AgainIsCommon(common, height);
      StuckOn(d, common, EventsAt(common, height), canonical);
    }
  }
}
