/**
  The reorganisation path as written deletes the raw events of the last consistent block itself, but keeps
  the rows derived from them, so a restart fetches and processes that block a second time.
*/
module Reindex {
  import opened Chain
  import opened Rounding
  import opened Positions
  import opened Replay
  import opened Ledger
  import opened Effects
  import opened TimeTravel
  import opened Processing
  import opened Acceptance
  import opened Rollback
  import opened Rows
  import opened Tally
  import opened Healing

  /** The raw events and the rows derived from them. */
  datatype Store = Store(events: seq<Log>, derived: Derived)

  /** DELETE FROM events WHERE block_number >= height, with the row cleanup as written. */
  function ReorgCleanup(s: Store, height: int): Store {
    Store(UpTo(s.events, height - 1), CleanupAll(s.derived, height, height + 1))
  }

  /** The events of exactly one block. */
  function EventsAt(events: seq<Log>, height: int): seq<Log> {
    if events == [] then []
    else
      var last := events[|events| - 1];
      EventsAt(events[..|events| - 1], height) + if last.block == height then [last] else []
  }

  // --------------------------------------------------- an event more or less

  /** Events that derive nothing: logs of mints and burns, and events without a handler. */
  predicate Silent(log: Log) {
    log.body.OtherEvent? || (log.body.Transfer? && !IsRealTransfer(log))
  }

  /** Events that derive a row with a unique key. */
  predicate Keyed(log: Log) {
    log.body.WithdrawRequested? || log.body.RateUpdated?
  }

  lemma SilentStep(d: Derived, log: Log)
    requires Silent(log)
    ensures Process(Complete, d, log) == Ok(d)
  {
    hide MaxIndexId, GetMostRecentPosition, AmountText, ApplyAll;
    NothingExecuted(d.positions);
    assert d.requests + [] == d.requests && d.rates + [] == d.rates;
  }

  lemma {:induction false} SilentRun(d: Derived, events: seq<Log>)
    requires forall e :: e in events ==> Silent(e)
    ensures ProcessFrom(Complete, d, events) == Ok(d)
  {
    hide Process, Silent;
    if events != [] {
      SilentRun(d, events[..|events| - 1]);
      SilentStep(d, events[|events| - 1]);
    }
  }

  lemma {:induction false} RequestsConcat(a: seq<Log>, b: seq<Log>)
    ensures |Requests(a + b)| == |Requests(a)| + |Requests(b)|
    ensures |Rates(a + b)| == |Rates(a)| + |Rates(b)|
  {
    if b == [] {
      assert a + b == a;
    } else {
      RequestsConcat(a, b[..|b| - 1]);
      assert (a + b)[..|a + b| - 1] == a + b[..|b| - 1];
    }
  }

  lemma {:induction false} MovesConcat(a: seq<Log>, b: seq<Log>, k: Holder)
    ensures Moves(a + b, k) == Moves(a, k) + Moves(b, k)
  {
    hide MovesOn;
    if b == [] {
      assert a + b == a;
    } else {
      MovesConcat(a, b[..|b| - 1], k);
      assert (a + b)[..|a + b| - 1] == a + b[..|b| - 1];
    }
  }

  lemma MoveIsCounted(log: Log)
    ensures log.body.Deposit? || IsRealTransfer(log) ==> exists k :: MovesOn(log, k) == 1
  {
    if log.body.Deposit? || IsRealTransfer(log) {
      ConcernsMeans(log, Credited(log).value);
      assert MovesOn(log, Credited(log).value) == 1;
    }
  }

  lemma NoRequestsMeans(events: seq<Log>)
    requires Requests(events) == [] && Rates(events) == []
    ensures forall e :: e in events ==> !Keyed(e)
  {
    hide AmountText, RoundToFloat64, Requests, Rates;
    forall e | e in events ensures !Keyed(e) {
      if e.body.WithdrawRequested? {
        RequestsMembers(events, RequestOf(e)[0]);
      } else if e.body.RateUpdated? {
        RatesMembers(events, RateOf(e)[0]);
      }
    }
  }

  lemma {:induction false} NoMovesMeans(events: seq<Log>, k: Holder)
    requires Moves(events, k) == 0
    ensures forall e :: e in events ==> MovesOn(e, k) == 0
  {
    hide MovesOn;
    if events != [] {
      var init := events[..|events| - 1];
      NoMovesMeans(init, k);
      assert events == init + [events[|events| - 1]];
    }
  }

  /** Events that leave no request, no rate and no move are silent. */
  lemma NoTraceIsSilent(events: seq<Log>)
    requires Requests(events) == [] && Rates(events) == [] && forall k :: Moves(events, k) == 0
    ensures forall e :: e in events ==> Silent(e)
  {
    hide Moves, MovesOn, Requests, Rates;
    NoRequestsMeans(events);
    forall e | e in events ensures Silent(e) {
      MoveIsCounted(e);
      if k :| MovesOn(e, k) == 1 {
        NoMovesMeans(events, k);
      }
    }
  }

  /**
    Extra events always show. Wherever they are processed in between, and whatever comes after, the derived rows end
    up as without them if and only if all of them are silent.
  */
  lemma ExtraEventsShow(done: seq<Log>, extra: seq<Log>, rest: seq<Log>)
    requires Indexable(done + extra + rest) && Indexable(done + rest) && ProcessAll(Complete, done + rest).Ok?
    ensures ProcessAll(Complete, done + extra + rest) == ProcessAll(Complete, done + rest)
       <==> forall e :: e in extra ==> Silent(e)
  {
    hide Process, ProcessFrom, Silent, Requests, Rates, Moves, Indexable, RunFrom, KeysFree, Numbered, Unclaimed,
      TallyOf;
    var with, without := done + extra + rest, done + rest;
    if forall e :: e in extra ==> Silent(e) {
      ProcessConcat(Complete, NOTHING_DERIVED, done, rest);
      ProcessConcat(Complete, NOTHING_DERIVED, done + extra, rest);
      ProcessConcat(Complete, NOTHING_DERIVED, done, extra);
      if d :| ProcessAll(Complete, done) == Ok(d) {
        SilentRun(d, extra);
      }
    } else if ProcessAll(Complete, with) == ProcessAll(Complete, without) {
      ProcessingAllSplits(Complete, with);
      ProcessingAllSplits(Complete, without);
      RequestsConcat(done + extra, rest);
      RequestsConcat(done, extra);
      RequestsConcat(done, rest);
      NoSelfTransfers(with);
      NoSelfTransfers(without);
      forall k ensures Moves(extra, k) == 0 {
        TallyCountsMoves(with, k);
        TallyCountsMoves(without, k);
        MovesConcat(done + extra, rest, k);
        MovesConcat(done, extra, k);
        MovesConcat(done, rest, k);
      }
      NoTraceIsSilent(extra);
    }
  }

  lemma NoSelfTransfers(events: seq<Log>)
    requires Indexable(events)
    ensures forall i :: 0 <= i < |events| ==> !IsSelfTransfer(events[i])
  {
  }

  // ------------------------------------------------ the reorganisation path

  /** In block order, the events up to a height are those below it and then those at it. */
  lemma {:induction false} SplitAtBlock(events: seq<Log>, height: int)
    requires InBlockOrder(events)
    requires forall i :: 0 <= i < |events| ==> events[i].block <= height
    ensures events == UpTo(events, height - 1) + EventsAt(events, height)
    ensures forall i :: 0 <= i < |EventsAt(events, height)| ==> EventsAt(events, height)[i].block == height
  {
    if events != [] {
      var init, last := events[..|events| - 1], events[|events| - 1];
      SplitAtBlock(init, height);
      if last.block < height {
        UpToAll(events, height - 1);
        UpToAll(init, height - 1);
        assert |EventsAt(init, height)| == 0;
      }
      assert events == init + [last];
    }
  }

  /** Deleting from the last consistent block on loses exactly that block's events of the common chain. */
  lemma DeletedEvents(common: seq<Log>, orphaned: seq<Log>, height: int)
    requires Indexable(common + orphaned)
    requires forall i :: 0 <= i < |common| ==> common[i].block <= height
    requires forall i :: 0 <= i < |orphaned| ==> orphaned[i].block > height
    ensures UpTo(common + orphaned, height - 1) + EventsAt(common, height) == common
    ensures Indexable(common) && Indexable(EventsAt(common, height))
    ensures forall i :: 0 <= i < |EventsAt(common, height)| ==> EventsAt(common, height)[i].block == height
  {
    hide EventsAt, UpTo, Indexable;
    var all, again, kept := common + orphaned, EventsAt(common, height), UpTo(common, height - 1);
    UpToConcat(common, orphaned, height - 1);
    assert common == all[0..|common|];
    IndexablePart(all, 0, |common|);
    IndexablePart(common, 0, 0);
    SplitAtBlock(common, height);
    assert again == common[|kept|..|common|];
    IndexablePart(common, |kept|, |common|);
  }

  lemma IndexablePart(events: seq<Log>, i: nat, j: nat)
    requires i <= j <= |events| && Indexable(events)
    ensures InBlockOrder(events) && Indexable(events[i..j])
  {
    hide WellFormed, IsSelfTransfer;
  }

  lemma {:induction false} EventsAtConcat(a: seq<Log>, b: seq<Log>, height: int)
    ensures EventsAt(a + b, height) == EventsAt(a, height) + EventsAt(b, height)
  {
    if b == [] {
      assert a + b == a;
    } else {
      EventsAtConcat(a, b[..|b| - 1], height);
      assert (a + b)[..|a + b| - 1] == a + b[..|b| - 1];
    }
  }

  lemma {:induction false} EventsAtOther(events: seq<Log>, height: int)
    requires forall i :: 0 <= i < |events| ==> events[i].block != height
    ensures EventsAt(events, height) == []
  {
    if events != [] {
      EventsAtOther(events[..|events| - 1], height);
    }
  }

  lemma {:induction false} EventsAtOnly(events: seq<Log>, height: int)
    requires forall i :: 0 <= i < |events| ==> events[i].block == height
    ensures EventsAt(events, height) == events
  {
    if events != [] {
      EventsAtOnly(events[..|events| - 1], height);
    }
  }

  /**
    What is left to process after a restart, when n events had been processed: the kept events that were not, then
    the last consistent block again, then the canonical chain.
  */
  function Remaining(common: seq<Log>, n: nat, canonical: seq<Log>, height: int): seq<Log> {
    var below := UpTo(common, height - 1);
    (if n < |below| then below[n..] else []) + EventsAt(common, height) + canonical
  }

  /** Every stale row of the cleaned table is healed by what comes. */
  ghost predicate AllHealed(t: Table, events: seq<Log>, height: int) {
    forall i :: 0 <= i < |t| && t[i].end == Some(height) ==> Healed(t[i], events, height)
  }

  lemma CutBelow(below: seq<Log>, at: seq<Log>, canonical: seq<Log>, n: nat)
    requires n < |below|
    ensures (below + at)[..n] == below[..n] && below[n..] + at + canonical == (below + at + canonical)[n..]
  {
  }

  lemma CutAt(below: seq<Log>, at: seq<Log>, canonical: seq<Log>, m: nat)
    requires m <= |at|
    ensures (below + at)[..|below| + m] == below + at[..m]
    ensures at + canonical == at[..m] + (below + at + canonical)[|below| + m..]
  {
    assert (below + at + canonical)[|below| + m..] == at[m..] + canonical;
  }

  lemma CutAnywhere(common: seq<Log>, canonical: seq<Log>, n: nat)
    requires n <= |common|
    ensures common[..n] + (common + canonical)[n..] == common + canonical
  {
  }

  /**
    As far as only common events had been processed: those of the last block are processed twice, no more and no less.
  */
  lemma RemainingRepeats(common: seq<Log>, n: nat, canonical: seq<Log>, height: int)
    requires InBlockOrder(common) && n <= |common| && forall i :: 0 <= i < |common| ==> common[i].block <= height
    ensures Remaining(common, n, canonical, height) == EventsAt(common[..n], height) + (common + canonical)[n..]
    ensures common[..n] + (common + canonical)[n..] == common + canonical
  {
    hide UpTo, EventsAt;
    var below, at := UpTo(common, height - 1), EventsAt(common, height);
    SplitAtBlock(common, height);
    UpToIsPrefix(common, height - 1);
    CutAnywhere(common, canonical, n);
    if n < |below| {
      CutBelow(below, at, canonical, n);
      EventsAtOther(common[..n], height);
    } else {
      CutAt(below, at, canonical, n - |below|);
      EventsAtBoth(below, at[..n - |below|], height);
      assert [] + at + canonical == at + canonical;
    }
  }

  lemma EventsAtBoth(below: seq<Log>, at: seq<Log>, height: int)
    requires forall i :: 0 <= i < |below| ==> below[i].block != height
    requires forall i :: 0 <= i < |at| ==> at[i].block == height
    ensures EventsAt(below + at, height) == at
  {
    hide EventsAt;
    EventsAtConcat(below, at, height);
    EventsAtOther(below, height);
    EventsAtOnly(at, height);
  }

  /** A cleanup at a height that was not exceeded leaves the derived rows alone, and no row ends at the height. */
  lemma CleanupBeforeOrphans(events: seq<Log>, height: Height)
    requires Indexable(events) && ProcessAll(Complete, events).Ok?
    requires forall i :: 0 <= i < |events| ==> events[i].block <= height
    ensures CleanupAll(ProcessAll(Complete, events).value, height, height + 1) == ProcessAll(Complete, events).value
    ensures
      forall i :: 0 <= i < |ProcessAll(Complete, events).value.positions| ==>
        ProcessAll(Complete, events).value.positions[i].end != Some(height)
  {
    hide ProcessFrom, RunFrom, Requests, Rates, KeysFree, KeptRequests, KeptRates, Indexable, UpTo, Numbered, Chained,
      Clean;
    ProcessingAllSplits(Complete, events);
    ReachableIsValid(events);
    var t := Run(Complete, events).value;
    CleanupIsIdle(t, height);
    BoundariesDiffer(t, height);
    KeptKeys(events, height);
    UpToAll(events, height);
  }

  lemma RepeatIsInOrder(done: seq<Log>, extra: seq<Log>, rest: seq<Log>, height: int)
    requires InBlockOrder(done) && InBlockOrder(rest)
    requires forall i :: 0 <= i < |done| ==> done[i].block <= height
    requires forall i :: 0 <= i < |extra| ==> extra[i].block == height
    requires forall i :: 0 <= i < |rest| ==> rest[i].block >= height
    ensures InBlockOrder(done + extra + rest)
  {
    var all := done + extra + rest;
    forall i, j | 0 <= i < j < |all| ensures all[i].block <= all[j].block {
      assert all[i] ==
        if i < |done| then done[i] else if i < |done| + |extra| then extra[i - |done|] else rest[i - |done| - |extra|];
      assert all[j] ==
        if j < |done| then done[j] else if j < |done| + |extra| then extra[j - |done|] else rest[j - |done| - |extra|];
    }
  }

  /** Blocks never go down, across a common part, its last block once more, and what follows. */
  lemma RepeatIsIndexable(done: seq<Log>, extra: seq<Log>, rest: seq<Log>, height: int)
    requires Indexable(done + rest) && Indexable(extra)
    requires forall i :: 0 <= i < |done| ==> done[i].block <= height
    requires forall i :: 0 <= i < |extra| ==> extra[i].block == height
    requires extra != [] ==> forall i :: 0 <= i < |rest| ==> rest[i].block >= height
    ensures Indexable(done + extra + rest)
  {
    hide WellFormed, IsSelfTransfer;
    var all := done + extra + rest;
    forall i | 0 <= i < |all| ensures WellFormed(all[i]) && !IsSelfTransfer(all[i]) {
      assert i < |done| ==> all[i] == (done + rest)[i];
      assert i >= |done| + |extra| ==> all[i] == (done + rest)[i - |extra|];
    }
    if extra == [] {
      assert all == done + rest;
    } else {
      IndexablePart(done + rest, 0, |done|);
      IndexablePart(done + rest, |done|, |done + rest|);
      assert (done + rest)[0..|done|] == done && (done + rest)[|done|..|done + rest|] == rest;
      RepeatIsInOrder(done, extra, rest, height);
    }
  }

  /** The premises of a reorganisation: a common part up to the height, and two continuations above it. */
  ghost predicate Forks(common: seq<Log>, orphaned: seq<Log>, canonical: seq<Log>, height: Height) {
    && Indexable(common + orphaned) && Indexable(common + canonical)
    && (forall i :: 0 <= i < |common| ==> common[i].block <= height)
    && (forall i :: 0 <= i < |orphaned| ==> orphaned[i].block > height)
    && (forall i :: 0 <= i < |canonical| ==> canonical[i].block > height)
  }

  /** When only common events had been processed: what was processed of the last block, and what still has to be. */
  lemma RepeatSplit(common: seq<Log>, orphaned: seq<Log>, n: nat, canonical: seq<Log>, height: Height)
    returns (done: seq<Log>, extra: seq<Log>, rest: seq<Log>)
    requires Forks(common, orphaned, canonical, height) && n <= |common|
    ensures done == common[..n] && extra == EventsAt(done, height)
    ensures Remaining(common, n, canonical, height) == extra + rest && done + rest == common + canonical
    ensures Indexable(done) && Indexable(done + extra + rest)
    ensures forall i :: 0 <= i < |done| ==> done[i].block <= height
  {
    hide EventsAt, Indexable, UpTo, Remaining;
    done, rest := common[..n], (common + canonical)[n..];
    assert common + canonical == (common + canonical)[0..|common + canonical|];
    IndexablePart(common + canonical, 0, |common|);
    assert (common + canonical)[0..|common|] == common;
    IndexablePart(common, 0, n);
    assert common[0..n] == done;
    RemainingRepeats(common, n, canonical, height);
    SplitAtBlock(done, height);
    extra := EventsAt(done, height);
    IndexablePart(done, |done| - |extra|, |done|);
    assert done[|done| - |extra|..|done|] == extra;
    RestIsLater(common, canonical, n, done, extra, height);
    RepeatIsIndexable(done, extra, rest, height);
  }

  lemma RestIsLater(common: seq<Log>, canonical: seq<Log>, n: nat, done: seq<Log>, extra: seq<Log>, height: Height)
    requires InBlockOrder(common + canonical) && n <= |common| && done == common[..n]
    requires extra != [] ==> n > 0 && done[n - 1].block == height
    ensures extra != [] ==> forall i :: 0 <= i < |(common + canonical)[n..]| ==>
      (common + canonical)[n..][i].block >= height
  {
    if extra != [] {
      assert (common + canonical)[n - 1] == done[n - 1];
    }
  }

  /** The reorganisation before any orphaned event was processed. */
  lemma ReorgBeforeOrphans(common: seq<Log>, orphaned: seq<Log>, canonical: seq<Log>, n: nat, height: Height)
    requires Forks(common, orphaned, canonical, height) && n <= |common|
    requires ProcessAll(Complete, common[..n]).Ok? && ProcessAll(Complete, common + canonical).Ok?
    ensures
      var d := CleanupAll(ProcessAll(Complete, common[..n]).value, height, height + 1);
      && (ProcessFrom(Complete, d, Remaining(common, n, canonical, height)) == ProcessAll(Complete, common + canonical)
          <==> forall e :: e in EventsAt(common[..n], height) ==> Silent(e))
      && AllHealed(d.positions, canonical, height)
  {
    hide ProcessFrom, EventsAt, Indexable, Remaining, CleanupAll, Silent, Healed;
    var done, extra, rest := RepeatSplit(common, orphaned, n, canonical, height);
    CleanupBeforeOrphans(done, height);
    ExtraEventsShow(done, extra, rest);
    assert done + extra + rest == done + (extra + rest);
    ProcessConcat(Complete, NOTHING_DERIVED, done, extra + rest);
  }

  // ------------------------------------------------------- when it gets stuck

  lemma KeyedRepeats(done: seq<Log>, extra: seq<Log>, rest: seq<Log>)
    requires (forall e :: e in extra ==> e in done) && KeysFree(done, extra + rest)
    ensures forall e :: e in extra ==> !Keyed(e)
  {
    hide RoundToFloat64;
    forall e | e in extra ensures !Keyed(e) {
      var i :| 0 <= i < |extra| && extra[i] == e;
      assert (extra + rest)[i] == e && KeyFree(done + (extra + rest)[..i], e);
      assert e in done + (extra + rest)[..i];
    }
  }

  lemma {:induction false} AgainIsCommon(common: seq<Log>, height: int)
    ensures forall e :: e in EventsAt(common, height) ==> e in common && e.block == height
  {
    if common != [] {
      AgainIsCommon(common[..|common| - 1], height);
      assert common == common[..|common| - 1] + [common[|common| - 1]];
    }
  }

  lemma StuckOn(d: Derived, done: seq<Log>, extra: seq<Log>, rest: seq<Log>)
    requires HoldsKeysOf(d, done) && (forall e :: e in extra ==> e in done) && exists e :: e in extra && Keyed(e)
    ensures ProcessFrom(Complete, d, extra + rest).Err?
  {
    hide ProcessFrom, RunFrom, KeysFree, Keyed, Requests, Rates;
    ProcessingSplits(Complete, d, done, extra + rest);
    if KeysFree(done, extra + rest) {
      KeyedRepeats(done, extra, rest);
    }
  }

  lemma RepeatedKeysAreFree(done: seq<Log>, extra: seq<Log>, rest: seq<Log>)
    requires KeysFree([], done + rest) && forall e :: e in extra ==> e in done
    ensures KeysFree([], done + extra + rest) <==> forall e :: e in extra ==> !Keyed(e)
  {
    hide KeyFree, Keyed;
    var with, without := done + extra + rest, done + rest;
    if forall e :: e in extra ==> !Keyed(e) {
      forall i | 0 <= i < |with| ensures KeyFree([] + with[..i], with[i]) {
        if |done| <= i < |done| + |extra| {
          assert with[i] in extra;
          UnkeyedIsFree([] + with[..i], with[i]);
        } else {
          var j := if i < |done| then i else i - |extra|;
          assert with[i] == without[j] && KeyFree([] + without[..j], without[j]);
          forall e | e in with[..i] ensures e in without[..j] {
            var m :| 0 <= m < i && with[m] == e;
            if i >= |done| + |extra| && |done| <= m < |done| + |extra| {
              assert e in extra && e in done;
              assert without[..j][..|done|] == done;
            } else {
              assert without[..j][if m < |done| then m else m - |extra|] == e;
            }
          }
          FewerKeys([] + without[..j], [] + with[..i], with[i]);
        }
      }
    } else if KeysFree([], with) {
      assert done + (extra + rest) == with;
      KeysFreeLater(done, extra + rest);
      KeyedRepeats(done, extra, rest);
    }
  }

  lemma UnkeyedIsFree(before: seq<Log>, log: Log)
    requires !Keyed(log)
    ensures KeyFree(before, log)
  {
  }

  lemma KeysFreeLater(done: seq<Log>, more: seq<Log>)
    requires KeysFree([], done + more)
    ensures KeysFree(done, more)
  {
    hide KeyFree;
    forall i | 0 <= i < |more| ensures KeyFree(done + more[..i], more[i]) {
      assert (done + more)[|done| + i] == more[i];
      assert [] + (done + more)[..|done| + i] == done + more[..i];
    }
  }

  /**
    Before any orphaned event was processed, the restart gets stuck if and only if it repeats a keyed row, or a transfer
    whose sender the repetition has left without a position. Otherwise the last block simply counts twice.
  */
  lemma StuckOrCountedTwice(common: seq<Log>, orphaned: seq<Log>, canonical: seq<Log>, n: nat, height: Height)
    requires Forks(common, orphaned, canonical, height) && n <= |common|
    requires ProcessAll(Complete, common[..n]).Ok? && ProcessAll(Complete, common + canonical).Ok?
    ensures
      var d := CleanupAll(ProcessAll(Complete, common[..n]).value, height, height + 1);
      var remaining := Remaining(common, n, canonical, height);
      var twice := common[..n] + remaining;
      var repeatsKey := exists e :: e in EventsAt(common[..n], height) && Keyed(e);
      var lacksSender := exists i :: 0 <= i < |twice| && !PositionsAccept(twice[..i], twice[i]);
      && ProcessFrom(Complete, d, remaining) == ProcessAll(Complete, twice)
      && (ProcessAll(Complete, twice).Err? <==> repeatsKey || lacksSender)
  {
    hide ProcessFrom, RunFrom, EventsAt, Indexable, Keyed, KeysFree, Remaining, CleanupAll, PositionsAccept, HasOpen,
      HasPosition, Requests, Rates;
    var done, extra, rest := RepeatSplit(common, orphaned, n, canonical, height);
    CleanupBeforeOrphans(done, height);
    ProcessConcat(Complete, NOTHING_DERIVED, done, extra + rest);
    assert done + (extra + rest) == done + extra + rest;
    ProcessingAllSplits(Complete, done + extra + rest);
    ProcessingAllSplits(Complete, done + rest);
    AgainIsCommon(done, height);
    RepeatedKeysAreFree(done, extra, rest);
    PositionsSucceedIffAccepted(done + extra + rest);
  }
}
