/** Which runs go through, told from the events alone: no table, no rows. */
module Acceptance {
  import opened Chain
  import opened Decimal
  import opened Rounding
  import opened Positions
  import opened Replay
  import opened Ledger
  import opened Effects
  import opened TimeTravel
  import opened Processing

  /** One event on one account: a credit opens a position, and a change that leaves nothing ends it. */
  function PositionAfter(has: bool, balance: nat, log: Log, holder: Holder): bool {
    var amount := RoundToFloat64(Shares(log));
    var credited := if Credits(log, holder) then !has || balance + amount > 0 else has;
    var owned := if Credits(log, holder) then balance + amount else balance;
    if Debits(log, holder) then credited && owned > amount else credited
  }

  function HasPosition(events: seq<Log>, holder: Holder): bool {
    if events == [] then false
    else
      var init := events[..|events| - 1];
      PositionAfter(HasPosition(init, holder), Balance(init, holder), events[|events| - 1], holder)
  }

  /** The transfer's sender has a position, and a withdraw id fits its column. */
  predicate PositionsAccept(before: seq<Log>, log: Log) {
    && (IsRealTransfer(log) ==> HasPosition(before, Holder(log.vault, log.body.from)))
    && (log.body.WithdrawRequested? ==> RoundToFloat64(log.body.id) < INT64_LIMIT)
  }

  /** Besides, its request or rate does not repeat a key. */
  ghost predicate Acceptable(before: seq<Log>, log: Log) {
    PositionsAccept(before, log) && KeyFree(before, log)
  }

  lemma SupersedeOpens(t: Table, height: int, x: nat, amount: nat, block: Height, receiver: Option<Address>, k: Holder)
    requires Valid(t, height) && x < |t| && t[x].IsOpen()
    ensures HasOpen(Supersede(t, x, amount, block, receiver), k) <==>
      if k == t[x].HeldBy() then amount > 0 else HasOpen(t, k)
  {
    hide MaxIndexId, Print, Tracked;
    var u := Supersede(t, x, amount, block, receiver);
    LookupFindsOpenRow(t, height, k);
    forall y | 0 <= y < |t| && y != x ensures OpenAt(u, y, k) <==> OpenAt(t, y, k) {
    }
    if k == t[x].HeldBy() {
      assert OpenAt(t, x, k) && !OpenAt(u, x, k);
      assert amount != 0 ==> OpenAt(u, |t|, k);
    } else {
      assert HasOpen(t, k) ==> OpenAt(u, OpenIndex(t, k), k);
      assert HasOpen(u, k) ==> OpenAt(t, OpenIndex(u, k), k);
    }
  }

  lemma CreditOpens(t: Table, height: int, holder: Holder, amount: nat, block: Height, k: Holder)
    requires Valid(t, height)
    ensures HasOpen(Credit(t, holder, amount, block), k)
       <==> if k == holder then !HasOpen(t, k) || Owned(t, k) + amount > 0 else HasOpen(t, k)
  {
    hide Valid, MaxIndexId, Print;
    if HasOpen(t, holder) {
      SupersedeOpens(t, height, OpenIndex(t, holder), Owned(t, holder) + amount, block, None, k);
    } else {
      var u := t + [NewRow(t, holder, amount, block)];
      assert OpenAt(u, |t|, holder);
      assert HasOpen(t, k) ==> OpenAt(u, OpenIndex(t, k), k);
      assert HasOpen(u, k) && k != holder ==> OpenAt(t, OpenIndex(u, k), k);
    }
  }

  lemma DebitOpens(
    t: Table, height: int, holder: Holder, amount: nat, block: Height, receiver: Option<Address>, k: Holder)
    requires Valid(t, height)
    ensures HasOpen(Debit(t, holder, amount, block, receiver), k)
       <==> HasOpen(t, k) && (k == holder ==> Owned(t, k) > amount)
  {
    hide Valid, Owned;
    if HasOpen(t, holder) {
      SupersedeOpens(t, height, OpenIndex(t, holder), Monus(Owned(t, holder), amount), block, receiver, k);
    }
  }

  lemma EffectOpens(t: Table, height: int, log: Log, k: Holder)
    requires Valid(t, height) && log.block >= height && WellFormed(log)
    ensures HasOpen(Effect(t, log), k) <==> PositionAfter(HasOpen(t, k), Owned(t, k), log, k)
  {
    hide Valid, Owned, HasOpen, Credit, Debit, RoundToFloat64;
    var amount := RoundToFloat64(Shares(log));
    match log.body
    case Deposit(sender, _, _) =>
      CreditOpens(t, height, Holder(log.vault, sender), amount, log.block, k);
    case Transfer(from, to, _) =>
      if IsRealTransfer(log) {
        var mid := Credit(t, Holder(log.vault, to), amount, log.block);
        CreditKeepsValid(t, height, Holder(log.vault, to), amount, log.block);
        CreditOpens(t, height, Holder(log.vault, to), amount, log.block, k);
        DebitOpens(mid, log.block, Holder(log.vault, from), amount, log.block, None, k);
      }
    case WithdrawRequested(holder, receiver, _, _) =>
      DebitOpens(t, height, Holder(log.vault, holder), amount, log.block, Some(receiver), k);
    case RateUpdated(_) | OtherEvent(_) =>
  }

  /** The position changes of a run go through exactly when the earlier ones allow each event. */
  lemma {:induction false} PositionsSucceedIffAccepted(events: seq<Log>)
    requires Indexable(events)
    ensures Run(Complete, events).Ok? <==> forall i :: 0 <= i < |events| ==> PositionsAccept(events[..i], events[i])
    ensures Run(Complete, events).Ok? ==>
      forall k :: HasOpen(Run(Complete, events).value, k) <==> HasPosition(events, k)
  {
    hide Valid, HasOpen, Owned, Effect, Step, PositionAfter, RoundToFloat64, Balance;
    if events == [] {
      forall k ensures !HasOpen([], k) {
        NothingOpen(k);
      }
    } else {
      var init, last := events[..|events| - 1], events[|events| - 1];
      PositionsSucceedIffAccepted(init);
      assert forall i :: 0 <= i < |init| ==> init[..i] == events[..i] && init[i] == events[i];
      if Run(Complete, init).Ok? {
        var t := Run(Complete, init).value;
        ReachableIsValid(init);
        StepMeaning(t, LastBlock(init), last);
        assert Rejected(t, last) <==> !PositionsAccept(init, last);
        if !Rejected(t, last) {
          forall k ensures HasOpen(Run(Complete, events).value, k) <==> HasPosition(events, k) {
            EffectOpens(t, LastBlock(init), last, k);
          }
        }
      }
    }
  }

  lemma NothingOpen(k: Holder)
    ensures !HasOpen([], k)
  {
  }

  /** A run of transactions goes through exactly when each of its events is acceptable after the earlier ones. */
  lemma RunSucceedsIffAcceptable(events: seq<Log>)
    requires Indexable(events)
    ensures ProcessAll(Complete, events).Ok? <==> forall i :: 0 <= i < |events| ==> Acceptable(events[..i], events[i])
  {
    hide RunFrom, ProcessFrom, PositionsAccept, KeyFree, Indexable, HasPosition, HasOpen;
    ProcessingAllSplits(Complete, events);
    PositionsSucceedIffAccepted(events);
    forall i | 0 <= i < |events| ensures [] + events[..i] == events[..i] {
    }
  }

  lemma {:induction false} BalanceNeedsPosition(events: seq<Log>, holder: Holder)
    ensures Balance(events, holder) > 0 ==> HasPosition(events, holder)
  {
    hide RoundToFloat64;
    if events != [] {
      BalanceNeedsPosition(events[..|events| - 1], holder);
    }
  }

  /** Transfers move a positive amount that the sender owns, withdraw ids fit their column, and no key repeats. */
  ghost predicate Backed(events: seq<Log>) {
    && (forall i :: 0 <= i < |events| && IsRealTransfer(events[i]) ==>
          0 < RoundToFloat64(Shares(events[i])) <= Balance(events[..i], Holder(events[i].vault, events[i].body.from)))
    && (forall i :: 0 <= i < |events| && events[i].body.WithdrawRequested? ==>
          RoundToFloat64(events[i].body.id) < INT64_LIMIT)
    && KeysFree([], events)
  }

  /**
    On a chain where nobody sends what the index says he does not own, every run goes through and is a time-travel
    index.
  */
  lemma BackedRunsAreIndexed(events: seq<Log>, holder: Holder, h: int)
    requires Indexable(events) && Backed(events)
    ensures ProcessAll(Complete, events).Ok?
    ensures Reads(ProcessAll(Complete, events).value.positions, holder, h, Balance(UpTo(events, h), holder))
  {
    hide RoundToFloat64, Balance, HasPosition, RunFrom, ProcessFrom, Reads, UpTo, KeysFree, Indexable;
    forall i | 0 <= i < |events| ensures PositionsAccept(events[..i], events[i]) {
      if IsRealTransfer(events[i]) {
        BalanceNeedsPosition(events[..i], Holder(events[i].vault, events[i].body.from));
      }
    }
    PositionsSucceedIffAccepted(events);
    ProcessingAllSplits(Complete, events);
    ProcessedTimeTravel(events, holder, h);
  }
}
