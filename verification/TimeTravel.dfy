/** The positions table answers "what did this holder own at height h" for every height. */
module TimeTravel {
  import opened Chain
  import opened Decimal
  import opened Rounding
  import opened Positions
  import opened Replay
  import opened Ledger
  import opened Effects

  ghost predicate Matches(t: Table, i: int, holder: Holder, h: int) {
    0 <= i < |t| && t[i].HeldBy() == holder && t[i].Covers(h)
  }

  /** At height h the table says the holder owns b: at most one row covers h, it shows b, and no row means zero. */
  ghost predicate Reads(t: Table, holder: Holder, h: int, b: nat) {
    && (forall i, j :: Matches(t, i, holder, h) && Matches(t, j, holder, h) ==> i == j)
    && (forall i :: Matches(t, i, holder, h) ==> t[i].amount == Print(b))
    && ((forall i :: !Matches(t, i, holder, h)) ==> b == 0)
  }

  /** Logs in block order whose accounts can be looked up and which are not self-transfers. */
  ghost predicate Indexable(events: seq<Log>) {
    && InBlockOrder(events)
    && forall i :: 0 <= i < |events| ==> WellFormed(events[i]) && !IsSelfTransfer(events[i])
  }

  function LastBlock(events: seq<Log>): int {
    if events == [] then 0 else events[|events| - 1].block
  }

  /** From the last processed block on, the rows that match are the open ones. */
  lemma ReadsNow(t: Table, height: int, holder: Holder, h: int)
    requires Valid(t, height) && h >= height
    ensures Reads(t, holder, h, Owned(t, holder))
  {
    LookupFindsOpenRow(t, height, holder);
    forall i ensures Matches(t, i, holder, h) <==> OpenAt(t, i, holder) {
    }
    forall i | Matches(t, i, holder, h) ensures t[i].amount == Print(Owned(t, holder)) {
      assert i == OpenIndex(t, holder);
      ReadThenPrint(t[i].amount);
    }
    if HasOpen(t, holder) {
      assert Matches(t, OpenIndex(t, holder), holder, h);
    }
  }

  /** A change at a block leaves every answer below it alone. */
  lemma ReadsPast(t: Table, u: Table, block: int, holder: Holder, h: int, b: nat)
    requires AgreeBelow(t, u, block) && h < block && Reads(t, holder, h, b)
    ensures Reads(u, holder, h, b)
  {
    forall i ensures Matches(u, i, holder, h) <==> Matches(t, i, holder, h) {
      if 0 <= i < |t| { assert SameBelow(t[i], u[i], block); }
    }
    forall i | Matches(u, i, holder, h) ensures u[i].amount == t[i].amount {
      assert SameBelow(t[i], u[i], block);
    }
  }

  lemma AgreeTwice(t: Table, u: Table, w: Table, block: int)
    requires AgreeBelow(t, u, block) && AgreeBelow(u, w, block)
    ensures AgreeBelow(t, w, block)
  {
    forall i | 0 <= i < |w| ensures if i < |t| then SameBelow(t[i], w[i], block) else w[i].start == block {
      if i < |t| {
        assert SameBelow(t[i], u[i], block) && SameBelow(u[i], w[i], block);
      } else if i < |u| {
        assert SameBelow(u[i], w[i], block);
      }
    }
  }

  /** One event keeps the table valid and keeps the past. */
  lemma EffectKeepsValid(t: Table, height: int, log: Log)
    requires Valid(t, height) && log.block >= height && WellFormed(log)
    ensures Valid(Effect(t, log), log.block)
    ensures AgreeBelow(t, Effect(t, log), log.block)
  {
    var amount := RoundToFloat64(Shares(log));
    match log.body
    case Deposit(sender, _, _) =>
      CreditKeepsValid(t, height, Holder(log.vault, sender), amount, log.block);
    case Transfer(from, to, _) =>
      if IsRealTransfer(log) {
        MoveKeepsValid(t, height, Holder(log.vault, from), Holder(log.vault, to), amount, log.block);
      } else {
        Unchanged(t, height, log.block);
      }
    case WithdrawRequested(holder, receiver, _, _) =>
      DebitKeepsValid(t, height, Holder(log.vault, holder), amount, log.block, Some(receiver));
    case RateUpdated(_) | OtherEvent(_) =>
      Unchanged(t, height, log.block);
  }

  /** One event moves every balance as the plain replay does. */
  lemma EffectMovesBalance(t: Table, height: int, log: Log, k: Holder)
    requires Valid(t, height) && log.block >= height && WellFormed(log)
    ensures Owned(Effect(t, log), k) == Replayed(Owned(t, k), log, k)
  {
    hide Valid, Owned, AgreeBelow, Credit, Debit, RoundToFloat64;
    var amount := RoundToFloat64(Shares(log));
    match log.body
    case Deposit(sender, _, _) =>
      CreditKeepsValid(t, height, Holder(log.vault, sender), amount, log.block);
    case Transfer(from, to, _) =>
      if IsRealTransfer(log) {
        MoveKeepsValid(t, height, Holder(log.vault, from), Holder(log.vault, to), amount, log.block);
      }
    case WithdrawRequested(holder, receiver, _, _) =>
      DebitKeepsValid(t, height, Holder(log.vault, holder), amount, log.block, Some(receiver));
    case RateUpdated(_) | OtherEvent(_) =>
  }

  lemma MoveKeepsValid(t: Table, height: int, from: Holder, to: Holder, amount: nat, block: Height)
    requires Valid(t, height) && block >= height && Tracked(to.owner)
    ensures
      var u := Debit(Credit(t, to, amount, block), from, amount, block, None);
      && Valid(u, block) && AgreeBelow(t, u, block)
      && forall k ::
           var credited := if k == to then Owned(t, k) + amount else Owned(t, k);
           Owned(u, k) == if k == from then Monus(credited, amount) else credited
  {
    var mid := Credit(t, to, amount, block);
    CreditKeepsValid(t, height, to, amount, block);
    DebitKeepsValid(mid, block, from, amount, block, None);
    AgreeTwice(t, mid, Debit(mid, from, amount, block, None), block);
  }

  lemma Unchanged(t: Table, height: int, block: int)
    requires Valid(t, height) && block >= height
    ensures Valid(t, block) && AgreeBelow(t, t, block)
  {
    forall i | 0 <= i < |t| ensures SameBelow(t[i], t[i], block) {
    }
  }

  /** Every reachable table is valid and its open rows show the balances of the plain replay. */
  lemma {:induction false} ReachableIsValid(events: seq<Log>)
    requires Indexable(events) && Run(Complete, events).Ok?
    ensures Valid(Run(Complete, events).value, LastBlock(events))
    ensures forall k :: Owned(Run(Complete, events).value, k) == Balance(events, k)
  {
    if events != [] {
      var init, last := events[..|events| - 1], events[|events| - 1];
      ReachableIsValid(init);
      var t := Run(Complete, init).value;
      StepMeaning(t, LastBlock(init), last);
      EffectKeepsValid(t, LastBlock(init), last);
      forall k ensures Owned(Run(Complete, events).value, k) == Balance(events, k) {
        EffectMovesBalance(t, LastBlock(init), last, k);
      }
    }
  }

  lemma StepKeepsPast(init: seq<Log>, last: Log)
    requires Indexable(init + [last]) && Run(Complete, init + [last]).Ok?
    ensures Run(Complete, init).Ok?
    ensures AgreeBelow(Run(Complete, init).value, Run(Complete, init + [last]).value, last.block)
  {
    assert (init + [last])[..|init|] == init;
    assert Indexable(init) by {
      assert forall i :: 0 <= i < |init| ==> (init + [last])[i] == init[i];
    }
    ReachableIsValid(init);
    StepMeaning(Run(Complete, init).value, LastBlock(init), last);
    EffectKeepsValid(Run(Complete, init).value, LastBlock(init), last);
  }

  /**
    The time-travel index: for every run, holder and height, the table reads the balance replayed up to that height.
  */
  lemma {:induction false} TimeTravelIndex(events: seq<Log>, holder: Holder, h: int)
    requires Indexable(events) && Run(Complete, events).Ok?
    ensures Reads(Run(Complete, events).value, holder, h, Balance(UpTo(events, h), holder))
  {
    hide Step, Valid, Owned, AgreeBelow, WellFormed, IsSelfTransfer;
    if events == [] {
      forall i ensures !Matches([], i, holder, h) {
      }
    } else {
      var init, last := events[..|events| - 1], events[|events| - 1];
      ReachableIsValid(events);
      if h >= last.block {
        UpToAll(events, h);
        ReadsNow(Run(Complete, events).value, LastBlock(events), holder, h);
      } else {
        TimeTravelIndex(init, holder, h);
        assert init + [last] == events && UpTo(events, h) == UpTo(init, h);
        StepKeepsPast(init, last);
        ReadsPast(Run(Complete, init).value, Run(Complete, events).value, last.block, holder, h,
          Balance(UpTo(events, h), holder));
      }
    }
  }
}
