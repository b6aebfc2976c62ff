/** Undoing the derived rows of a reorganised chain, and indexing the canonical chain on top. */
module Rollback {
  import opened Chain
  import opened Decimal
  import opened Rounding
  import opened Positions
  import opened Replay
  import opened Ledger
  import opened Effects
  import opened TimeTravel
  import opened Processing

  /** DELETE FROM positions WHERE position_start_height > height */
  function DeleteAbove(t: Table, height: int): Table {
    if t == [] then []
    else DeleteAbove(t[..|t| - 1], height) + if t[|t| - 1].start > height then [] else [t[|t| - 1]]
  }

  function Reopened(r: Row, reopenFrom: int): Row {
    if r.end.Some? && r.end.value >= reopenFrom then r.(terminated := false, end := None, receiver := None) else r
  }

  /** UPDATE positions SET the closing columns back WHERE position_end_height >= reopenFrom */
  function ReopenFrom(t: Table, reopenFrom: int): Table {
    seq(|t|, i requires 0 <= i < |t| => Reopened(t[i], reopenFrom))
  }

  /** The two statements in order; the comparison of the second one is a parameter. */
  function Cleanup(t: Table, height: int, reopenFrom: int): Table {
    ReopenFrom(DeleteAbove(t, height), reopenFrom)
  }

  /** The statements as written: reopen rows with an end height above the given height. */
  function CleanupFromBlock(t: Table, height: int): Table {
    Cleanup(t, height, height + 1)
  }

  /** The same with rows ending at the height included. */
  function ExactCleanup(t: Table, height: int): Table {
    Cleanup(t, height, height)
  }

  // ---------------------------------------------------------- exact inverse

  lemma CleanupAppend(t: Table, r: Row, height: int, reopenFrom: int)
    ensures Cleanup(t + [r], height, reopenFrom)
         == Cleanup(t, height, reopenFrom) + if r.start > height then [] else [Reopened(r, reopenFrom)]
  {
    assert (t + [r])[..|t|] == t;
  }

  /** Two rows the cleanup cannot tell apart. */
  ghost predicate SameAfterCleanup(r: Row, s: Row, height: int) {
    r.start == s.start && (r.start <= height ==> Reopened(r, height) == Reopened(s, height))
  }

  lemma {:induction false} CleanupPointwise(t: Table, u: Table, height: int)
    requires |t| == |u| && forall i :: 0 <= i < |t| ==> SameAfterCleanup(t[i], u[i], height)
    ensures ExactCleanup(t, height) == ExactCleanup(u, height)
  {
    if t != [] {
      var a, b := t[..|t| - 1], u[..|u| - 1];
      CleanupPointwise(a, b, height);
      assert t == a + [t[|t| - 1]] && u == b + [u[|u| - 1]];
      CleanupAppend(a, t[|t| - 1], height, height);
      CleanupAppend(b, u[|u| - 1], height, height);
      assert SameAfterCleanup(t[|t| - 1], u[|u| - 1], height);
    }
  }

  /** A table that only knows blocks up to the height is left alone. */
  lemma {:induction false} CleanupIsIdle(t: Table, height: int)
    requires forall i :: 0 <= i < |t| ==> t[i].start <= height && (t[i].end.Some? ==> t[i].end.value < height)
    ensures ExactCleanup(t, height) == t
  {
    if t != [] {
      var init := t[..|t| - 1];
      CleanupIsIdle(init, height);
      assert t == init + [t[|t| - 1]];
      CleanupAppend(init, t[|t| - 1], height, height);
    }
  }

  lemma SupersedeIsUndone(t: Table, x: nat, amount: nat, block: Height, receiver: Option<Address>, height: int)
    requires Clean(t) && x < |t| && t[x].IsOpen() && block > height
    ensures ExactCleanup(Supersede(t, x, amount, block, receiver), height) == ExactCleanup(t, height)
  {
    hide Print, MaxIndexId, Canonical, Tracked;
    var closed := t[x := ClosedRow(t[x], amount == 0, block, receiver)];
    CleanupPointwise(t, closed, height);
    if amount != 0 {
      CleanupAppend(closed, NewRow(t, t[x].HeldBy(), amount, block), height, height);
    } else {
      assert Supersede(t, x, amount, block, receiver) == closed;
    }
  }

  lemma CreditIsUndone(t: Table, holder: Holder, amount: nat, block: Height, height: int)
    requires Clean(t) && block > height
    ensures ExactCleanup(Credit(t, holder, amount, block), height) == ExactCleanup(t, height)
  {
    if HasOpen(t, holder) {
      SupersedeIsUndone(t, OpenIndex(t, holder), Owned(t, holder) + amount, block, None, height);
    } else {
      CleanupAppend(t, NewRow(t, holder, amount, block), height, height);
    }
  }

  lemma DebitIsUndone(t: Table, holder: Holder, amount: nat, block: Height, receiver: Option<Address>, height: int)
    requires Clean(t) && block > height
    ensures ExactCleanup(Debit(t, holder, amount, block, receiver), height) == ExactCleanup(t, height)
  {
    if HasOpen(t, holder) {
      SupersedeIsUndone(t, OpenIndex(t, holder), Monus(Owned(t, holder), amount), block, receiver, height);
    }
  }

  /** An event above the height leaves no trace after the cleanup. */
  lemma EffectIsUndone(t: Table, tip: int, log: Log, height: int)
    requires Valid(t, tip) && log.block >= tip && log.block > height && WellFormed(log)
    ensures ExactCleanup(Effect(t, log), height) == ExactCleanup(t, height)
  {
    hide ExactCleanup, Credit, Debit, RoundToFloat64;
    var amount := RoundToFloat64(Shares(log));
    match log.body
    case Deposit(sender, _, _) =>
      CreditIsUndone(t, Holder(log.vault, sender), amount, log.block, height);
    case Transfer(from, to, _) =>
      if IsRealTransfer(log) {
        var mid := Credit(t, Holder(log.vault, to), amount, log.block);
        CreditKeepsValid(t, tip, Holder(log.vault, to), amount, log.block);
        CreditIsUndone(t, Holder(log.vault, to), amount, log.block, height);
        DebitIsUndone(mid, Holder(log.vault, from), amount, log.block, None, height);
      }
    case WithdrawRequested(holder, receiver, _, _) =>
      DebitIsUndone(t, Holder(log.vault, holder), amount, log.block, Some(receiver), height);
    case RateUpdated(_) | OtherEvent(_) =>
  }

  /** With `end >= height` the cleanup gives back exactly the table after the last event up to the height. */
  lemma {:induction false} RollbackIsInverse(events: seq<Log>, height: int)
    requires Indexable(events) && Run(Complete, events).Ok?
    ensures Run(Complete, UpTo(events, height)).Ok?
    ensures ExactCleanup(Run(Complete, events).value, height) == Run(Complete, UpTo(events, height)).value
  {
    if events == [] {
      assert ExactCleanup([], height) == [];
    } else {
      var init, last := events[..|events| - 1], events[|events| - 1];
      if last.block <= height {
        UpToAll(events, height);
        ReachableIsValid(events);
        CleanupIsIdle(Run(Complete, events).value, height);
      } else {
        RollbackIsInverse(init, height);
        ReachableIsValid(init);
        var t := Run(Complete, init).value;
        StepMeaning(t, LastBlock(init), last);
        EffectIsUndone(t, LastBlock(init), last, height);
        assert UpTo(events, height) == UpTo(init, height);
      }
    }
  }

  /** Some row was closed by an event in the very next block. */
  ghost predicate ClosedByNextBlock(t: Table, height: int) {
    exists i :: 0 <= i < |t| && t[i].start <= height && t[i].end == Some(height)
  }

  lemma {:induction false} BoundariesDiffer(t: Table, height: int)
    ensures CleanupFromBlock(t, height) == ExactCleanup(t, height) <==> !ClosedByNextBlock(t, height)
  {
    if t == [] {
      assert CleanupFromBlock(t, height) == [] == ExactCleanup(t, height);
    } else {
      var init, last := t[..|t| - 1], t[|t| - 1];
      BoundariesDiffer(init, height);
      assert t == init + [last];
      CleanupAppend(init, last, height, height);
      CleanupAppend(init, last, height, height + 1);
      SameLength(init, height);
      var a, b := CleanupFromBlock(init, height), ExactCleanup(init, height);
      if last.start <= height {
        SnocEqual(a, b, Reopened(last, height + 1), Reopened(last, height));
        assert Reopened(last, height + 1) == Reopened(last, height) <==> last.end != Some(height);
      } else {
        assert CleanupFromBlock(t, height) == a && ExactCleanup(t, height) == b;
      }
      ClosedInPrefixOrLast(init, last, height);
    }
  }

  lemma SnocEqual<T>(a: seq<T>, b: seq<T>, x: T, y: T)
    requires |a| == |b|
    ensures a + [x] == b + [y] <==> a == b && x == y
  {
    if a + [x] == b + [y] {
      assert (a + [x])[..|a|] == a && (b + [y])[..|b|] == b;
      assert (a + [x])[|a|] == x && (b + [y])[|b|] == y;
    }
  }

  lemma ClosedInPrefixOrLast(init: Table, last: Row, height: int)
    ensures ClosedByNextBlock(init + [last], height) <==>
      ClosedByNextBlock(init, height) || (last.start <= height && last.end == Some(height))
  {
    var t := init + [last];
    if ClosedByNextBlock(init, height) {
      var i :| 0 <= i < |init| && init[i].start <= height && init[i].end == Some(height);
      assert t[i] == init[i];
    }
    assert t[|init|] == last;
  }

  lemma SameLength(t: Table, height: int)
    ensures |CleanupFromBlock(t, height)| == |ExactCleanup(t, height)|
  {
  }

  /** As written, the cleanup restores that table exactly when no surviving row was closed by block height + 1. */
  lemma RollbackAsWritten(events: seq<Log>, height: int)
    requires Indexable(events) && Run(Complete, events).Ok?
    ensures Run(Complete, UpTo(events, height)).Ok?
    ensures CleanupFromBlock(Run(Complete, events).value, height) == Run(Complete, UpTo(events, height)).value
       <==> !ClosedByNextBlock(Run(Complete, events).value, height)
  {
    RollbackIsInverse(events, height);
    BoundariesDiffer(Run(Complete, events).value, height);
  }

  // ------------------------------------------------------------ convergence

  lemma {:induction false} RunConcat(mode: Mode, t: Table, a: seq<Log>, b: seq<Log>)
    ensures RunFrom(mode, t, a + b) ==
      match RunFrom(mode, t, a) { case Err(e) => Err(e) case Ok(u) => RunFrom(mode, u, b) }
  {
    hide Step;
    if b == [] {
      assert a + b == a;
    } else {
      RunConcat(mode, t, a, b[..|b| - 1]);
      assert (a + b)[..|a + b| - 1] == a + b[..|b| - 1];
    }
  }

  lemma {:induction false} UpToConcat(a: seq<Log>, b: seq<Log>, height: int)
    requires forall i :: 0 <= i < |b| ==> b[i].block > height
    ensures UpTo(a + b, height) == UpTo(a, height)
  {
    if b == [] {
      assert a + b == a;
    } else {
      UpToConcat(a, b[..|b| - 1], height);
      assert (a + b)[..|a + b| - 1] == a + b[..|b| - 1];
    }
  }

  /** Undoing an orphaned suffix and processing the canonical one equals indexing the canonical chain from scratch. */
  lemma ReorgConverges(common: seq<Log>, orphaned: seq<Log>, canonical: seq<Log>, height: int)
    requires Indexable(common + orphaned) && Run(Complete, common + orphaned).Ok?
    requires forall i :: 0 <= i < |common| ==> common[i].block <= height
    requires forall i :: 0 <= i < |orphaned| ==> orphaned[i].block > height
    ensures RunFrom(Complete, ExactCleanup(Run(Complete, common + orphaned).value, height), canonical)
         == Run(Complete, common + canonical)
  {
    RollbackIsInverse(common + orphaned, height);
    UpToConcat(common, orphaned, height);
    UpToAll(common, height);
    RunConcat(Complete, [], common, canonical);
  }

  // ------------------------------------------------- requests and rates too

  /** DELETE FROM withdraw_requests WHERE block_number > height */
  function KeptRequests(requests: seq<WithdrawRequest>, height: int): seq<WithdrawRequest> {
    if requests == [] then []
    else
      var last := requests[|requests| - 1];
      KeptRequests(requests[..|requests| - 1], height) + if last.block > height then [] else [last]
  }

  /** DELETE FROM rate_updates WHERE block_number > height */
  function KeptRates(rates: seq<RateUpdate>, height: int): seq<RateUpdate> {
    if rates == [] then []
    else
      var last := rates[|rates| - 1];
      KeptRates(rates[..|rates| - 1], height) + if last.block > height then [] else [last]
  }

  /** All statements of a cleanup; the comparison that reopens positions is a parameter. */
  function CleanupAll(d: Derived, height: int, reopenFrom: int): Derived {
    Derived(Cleanup(d.positions, height, reopenFrom), KeptRequests(d.requests, height), KeptRates(d.rates, height))
  }

  lemma {:induction false} KeptKeys(events: seq<Log>, height: int)
    ensures KeptRequests(Requests(events), height) == Requests(UpTo(events, height))
    ensures KeptRates(Rates(events), height) == Rates(UpTo(events, height))
  {
    if events != [] {
      var init, last := events[..|events| - 1], events[|events| - 1];
      KeptKeys(init, height);
      KeptSnoc(init, last, height);
      if last.block <= height {
        assert (UpTo(init, height) + [last])[..|UpTo(init, height)|] == UpTo(init, height);
      } else {
        assert UpTo(events, height) == UpTo(init, height);
        assert KeptRequests(Requests(init), height) + [] == KeptRequests(Requests(init), height);
        assert KeptRates(Rates(init), height) + [] == KeptRates(Rates(init), height);
      }
    }
  }

  lemma KeptSnoc(init: seq<Log>, last: Log, height: int)
    ensures KeptRequests(Requests(init) + RequestOf(last), height)
         == KeptRequests(Requests(init), height) + if last.block <= height then RequestOf(last) else []
    ensures KeptRates(Rates(init) + RateOf(last), height)
         == KeptRates(Rates(init), height) + if last.block <= height then RateOf(last) else []
  {
    hide RoundToFloat64, AmountText;
    if RequestOf(last) == [] {
      assert Requests(init) + RequestOf(last) == Requests(init);
    } else {
      assert (Requests(init) + RequestOf(last))[..|Requests(init)|] == Requests(init);
    }
    if RateOf(last) == [] {
      assert Rates(init) + RateOf(last) == Rates(init);
    } else {
      assert (Rates(init) + RateOf(last))[..|Rates(init)|] == Rates(init);
    }
  }

  lemma KeysFreePrefix(events: seq<Log>, kept: seq<Log>)
    requires KeysFree([], events) && kept <= events
    ensures KeysFree([], kept)
  {
    hide KeyFree;
    forall i | 0 <= i < |kept| ensures KeyFree([] + kept[..i], kept[i]) {
      assert kept[..i] == events[..i] && kept[i] == events[i];
    }
  }

  /** With `end >= height`, all derived rows are given back exactly: positions, requests and rates. */
  lemma RollbackAllIsInverse(events: seq<Log>, height: int)
    requires Indexable(events) && ProcessAll(Complete, events).Ok?
    ensures ProcessAll(Complete, UpTo(events, height)).Ok?
    ensures CleanupAll(ProcessAll(Complete, events).value, height, height)
      == ProcessAll(Complete, UpTo(events, height)).value
  {
    hide RunFrom, ProcessFrom, Requests, Rates, KeysFree, KeptRequests, KeptRates, Cleanup, UpTo;
    ProcessingAllSplits(Complete, events);
    RollbackIsInverse(events, height);
    UpToIsPrefix(events, height);
    KeysFreePrefix(events, UpTo(events, height));
    ProcessingAllSplits(Complete, UpTo(events, height));
    KeptKeys(events, height);
  }

  /**
    Undoing an orphaned suffix exactly and processing the canonical one equals indexing the canonical chain from
    scratch.
  */
  lemma ReorgAllConverges(common: seq<Log>, orphaned: seq<Log>, canonical: seq<Log>, height: int)
    requires Indexable(common + orphaned) && ProcessAll(Complete, common + orphaned).Ok?
    requires forall i :: 0 <= i < |common| ==> common[i].block <= height
    requires forall i :: 0 <= i < |orphaned| ==> orphaned[i].block > height
    ensures ProcessFrom(Complete, CleanupAll(ProcessAll(Complete, common + orphaned).value, height, height), canonical)
         == ProcessAll(Complete, common + canonical)
  {
    hide ProcessFrom, CleanupAll;
    RollbackAllIsInverse(common + orphaned, height);
    UpToConcat(common, orphaned, height);
    UpToAll(common, height);
    ProcessConcat(Complete, NOTHING_DERIVED, common, canonical);
  }
}
