/**
  Share amounts are neither created nor lost: what is open in a vault is what was deposited minus what was withdrawn.
*/
module Conservation {
  import opened Chain
  import opened Decimal
  import opened Rounding
  import opened Positions
  import opened Replay
  import opened Ledger
  import opened Effects
  import opened TimeTravel

  /** The sum of all open amounts of a vault. */
  function OpenShares(t: Table, vault: Address): int {
    if t == [] then 0
    else
      var last := t[|t| - 1];
      OpenShares(t[..|t| - 1], vault) + if last.vault == vault && last.IsOpen() then AmountOf(last) else 0
  }

  function Min(a: nat, b: nat): nat { if a < b then a else b }

  lemma OpenSharesAppend(t: Table, r: Row, vault: Address)
    ensures OpenShares(t + [r], vault)
         == OpenShares(t, vault) + if r.vault == vault && r.IsOpen() then AmountOf(r) else 0
  {
    assert (t + [r])[..|t|] == t;
  }

  lemma {:induction false} OpenSharesClose(t: Table, x: nat, closed: Row, vault: Address)
    requires x < |t| && t[x].IsOpen() && !closed.IsOpen()
    ensures OpenShares(t[x := closed], vault)
         == OpenShares(t, vault) - if t[x].vault == vault then AmountOf(t[x]) else 0
  {
    hide AmountOf;
    var init, u := t[..|t| - 1], t[x := closed];
    if x == |t| - 1 {
      assert u[..|t| - 1] == init;
    } else {
      assert u[..|t| - 1] == init[x := closed];
      OpenSharesClose(init, x, closed, vault);
    }
  }

  lemma SupersedeShares(t: Table, x: nat, amount: nat, block: Height, receiver: Option<Address>, vault: Address)
    requires x < |t| && t[x].IsOpen()
    ensures OpenShares(Supersede(t, x, amount, block, receiver), vault)
         == OpenShares(t, vault) + if t[x].vault == vault then amount - AmountOf(t[x]) else 0
  {
    hide MaxIndexId, Value, Print, AllDigits;
    PrintThenRead(amount);
    var closed := t[x := ClosedRow(t[x], amount == 0, block, receiver)];
    OpenSharesClose(t, x, ClosedRow(t[x], amount == 0, block, receiver), vault);
    if amount == 0 {
      assert Supersede(t, x, amount, block, receiver) == closed;
    } else {
      OpenSharesAppend(closed, NewRow(t, t[x].HeldBy(), amount, block), vault);
    }
  }

  lemma CreditShares(t: Table, holder: Holder, amount: nat, block: Height, vault: Address)
    ensures OpenShares(Credit(t, holder, amount, block), vault)
         == OpenShares(t, vault) + if holder.vault == vault then amount else 0
  {
    hide OpenShares, MaxIndexId, Value, Print, AllDigits;
    if HasOpen(t, holder) {
      SupersedeShares(t, OpenIndex(t, holder), Owned(t, holder) + amount, block, None, vault);
    } else {
      PrintThenRead(amount);
      OpenSharesAppend(t, NewRow(t, holder, amount, block), vault);
    }
  }

  lemma DebitShares(t: Table, holder: Holder, amount: nat, block: Height, receiver: Option<Address>, vault: Address)
    ensures OpenShares(Debit(t, holder, amount, block, receiver), vault)
         == OpenShares(t, vault) - if holder.vault == vault then Min(amount, Owned(t, holder)) else 0
  {
    hide OpenShares, MaxIndexId, Value, Print, AllDigits;
    if HasOpen(t, holder) {
      SupersedeShares(t, OpenIndex(t, holder), Monus(Owned(t, holder), amount), block, receiver, vault);
    }
  }

  /** The part of a transfer the sender does not own; zero for every other event. */
  function Overdraft(log: Log, owned: nat): nat {
    if IsRealTransfer(log) then Monus(RoundToFloat64(Shares(log)), owned) else 0
  }

  /** Whose balance an event takes from. */
  function Payer(log: Log): Holder {
    match log.body
    case Deposit(sender, _, _) => Holder(log.vault, sender)
    case Transfer(from, _, _) => Holder(log.vault, from)
    case WithdrawRequested(holder, _, _, _) => Holder(log.vault, holder)
    case RateUpdated(_) | OtherEvent(_) => Holder(log.vault, ZERO_ADDRESS)
  }

  /**
    What one event adds to the vault's shares: deposits add, withdrawals take at most what is there, transfers only an
    overdraft.
  */
  function Issued(log: Log, owned: nat): int {
    match log.body
    case Deposit(_, _, minted) => RoundToFloat64(minted)
    case Transfer(_, _, _) => Overdraft(log, owned)
    case WithdrawRequested(_, _, shares, _) => 0 - Min(RoundToFloat64(shares), owned)
    case RateUpdated(_) | OtherEvent(_) => 0
  }

  lemma EffectShares(t: Table, height: int, log: Log, vault: Address)
    requires Valid(t, height) && log.block >= height && WellFormed(log) && !IsSelfTransfer(log)
    ensures OpenShares(Effect(t, log), vault)
         == OpenShares(t, vault) + if log.vault == vault then Issued(log, Owned(t, Payer(log))) else 0
  {
    hide OpenShares, RoundToFloat64, Credit, Debit, Owned;
    var amount := RoundToFloat64(Shares(log));
    match log.body
    case Deposit(sender, _, _) =>
      CreditShares(t, Holder(log.vault, sender), amount, log.block, vault);
    case Transfer(from, to, _) =>
      if IsRealTransfer(log) {
        var mid := Credit(t, Holder(log.vault, to), amount, log.block);
        CreditKeepsValid(t, height, Holder(log.vault, to), amount, log.block);
        CreditShares(t, Holder(log.vault, to), amount, log.block, vault);
        DebitShares(mid, Holder(log.vault, from), amount, log.block, None, vault);
      }
    case WithdrawRequested(holder, receiver, _, _) =>
      DebitShares(t, Holder(log.vault, holder), amount, log.block, Some(receiver), vault);
    case RateUpdated(_) | OtherEvent(_) =>
  }

  // ------------------------------------------------------------- whole runs

  function Deposited(events: seq<Log>, vault: Address): nat {
    if events == [] then 0
    else
      var log := events[|events| - 1];
      Deposited(events[..|events| - 1], vault) +
        if log.vault == vault && log.body.Deposit? then RoundToFloat64(Shares(log)) else 0
  }

  /** Withdrawals count for what was actually there. */
  function Withdrawn(events: seq<Log>, vault: Address): nat {
    if events == [] then 0
    else
      var init, log := events[..|events| - 1], events[|events| - 1];
      Withdrawn(init, vault) +
        if log.vault == vault && log.body.WithdrawRequested?
        then Min(RoundToFloat64(Shares(log)), Balance(init, Payer(log))) else 0
  }

  function Overdrawn(events: seq<Log>, vault: Address): nat {
    if events == [] then 0
    else
      var init, log := events[..|events| - 1], events[|events| - 1];
      Overdrawn(init, vault) + if log.vault == vault then Overdraft(log, Balance(init, Payer(log))) else 0
  }

  /** Every transfer of the vault moves no more than its sender owns at that point. */
  ghost predicate Covered(events: seq<Log>, vault: Address) {
    forall i :: 0 <= i < |events| && events[i].vault == vault && IsRealTransfer(events[i]) ==>
      RoundToFloat64(Shares(events[i])) <= Balance(events[..i], Payer(events[i]))
  }

  /** On every run, the open shares of a vault are deposits minus effective withdrawals plus overdrafts. */
  lemma {:induction false} SharesAreConserved(events: seq<Log>, vault: Address)
    requires Indexable(events) && Run(Complete, events).Ok?
    ensures OpenShares(Run(Complete, events).value, vault)
         == Deposited(events, vault) - Withdrawn(events, vault) + Overdrawn(events, vault)
  {
    hide RoundToFloat64, Effect, Valid, Balance, Step, Rejected;
    if events == [] {
    } else {
      var init, last := events[..|events| - 1], events[|events| - 1];
      assert Indexable(init);
      assert Run(Complete, init).Ok?;
      SharesAreConserved(init, vault);
      ReachableIsValid(init);
      var t := Run(Complete, init).value;
      StepMeaning(t, LastBlock(init), last);
      EffectShares(t, LastBlock(init), last, vault);
    }
  }

  /** Nothing appears out of thin air exactly when every transfer is covered. */
  lemma {:induction false} OverdrawnIffUncovered(events: seq<Log>, vault: Address)
    ensures Overdrawn(events, vault) == 0 <==> Covered(events, vault)
  {
    hide RoundToFloat64, Balance;
    if events != [] {
      var init, last := events[..|events| - 1], events[|events| - 1];
      OverdrawnIffUncovered(init, vault);
      assert forall i :: 0 <= i < |init| ==> init[..i] == events[..i] && init[i] == events[i];
      assert events[..|init|] == init;
      var lastCovered :=
        last.vault == vault && IsRealTransfer(last) ==> RoundToFloat64(Shares(last)) <= Balance(init, Payer(last));
      assert Covered(events, vault) <==> (Covered(init, vault) && lastCovered);
    }
  }
}
