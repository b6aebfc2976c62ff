/** The row a withdraw request or a rate update leaves, field by field, and what it leaves in the positions. */
module Recording {
  import opened Chain
  import opened Decimal
  import opened Rounding
  import opened Positions
  import opened Ledger
  import opened Effects
  import opened Processing
  import opened Persistence
  import opened Healing

  /** The text is the decimal number, with nothing superfluous. */
  ghost predicate Shows(text: string, n: nat) {
    Canonical(text) && Value(text) == n
  }

  /** A withdraw request adds one request row with its own owner, receiver, id and amount, and no rate. */
  lemma RequestIsRecorded(mode: Mode, d: Derived, log: Log)
    requires log.body.WithdrawRequested? && Process(mode, d, log).Ok?
    ensures
      var u := Process(mode, d, log).value;
      && |u.requests| == |d.requests| + 1 && u.requests[..|d.requests|] == d.requests && u.rates == d.rates
      && var r := u.requests[|d.requests|];
        && r.owner == log.body.holder && r.receiver == log.body.receiver
        && r.vault == log.vault && r.block == log.block
        && r.id == RoundToFloat64(log.body.id) && Shows(r.amount, RoundToFloat64(log.body.shares))
  {
    hide RoundToFloat64, Step, Print;
    PrintThenRead(RoundToFloat64(log.body.shares));
  }

  /** A rate update adds one rate row for its vault and block, no request, and leaves the positions alone. */
  lemma RateIsRecorded(mode: Mode, d: Derived, log: Log)
    requires log.body.RateUpdated? && Process(mode, d, log).Ok?
    ensures
      var u := Process(mode, d, log).value;
      && |u.rates| == |d.rates| + 1 && u.rates[..|d.rates|] == d.rates && u.requests == d.requests
      && u.positions == d.positions
      && var r := u.rates[|d.rates|];
        r.vault == log.vault && r.block == log.block && Shows(r.rate, RoundToFloat64(log.body.newRate))
  {
    hide RoundToFloat64, Print, ApplyAll, MaxIndexId, UpdateAll;
    NothingExecuted(d.positions);
    assert d.positions + InsertedRows(FirstOf([])) == d.positions;
    NoUpdates(d.positions);
    PrintThenRead(RoundToFloat64(log.body.newRate));
  }

  /** Every other event leaves requests and rates alone. */
  lemma NothingElseIsRecorded(mode: Mode, d: Derived, log: Log)
    requires !log.body.WithdrawRequested? && !log.body.RateUpdated? && Process(mode, d, log).Ok?
    ensures Process(mode, d, log).value.requests == d.requests && Process(mode, d, log).value.rates == d.rates
  {
    hide Step;
  }

  /**
    A withdraw request of a holder with a position closes that position just below its block, with its receiver noted,
    as terminated exactly when nothing is left; what is left is shown by one new open row of the holder.
  */
  lemma WithdrawClosesPosition(mode: Mode, d: Derived, height: int, log: Log, x: nat)
    requires log.body.WithdrawRequested? && Process(mode, d, log).Ok?
    requires Valid(d.positions, height) && log.block >= height
    requires OpenAt(d.positions, x, Holder(log.vault, log.body.holder))
    ensures
      var u := Process(mode, d, log).value.positions;
      var owned, amount := Value(d.positions[x].amount), RoundToFloat64(log.body.shares);
      && x < |d.positions| <= |u|
      && u[x].end == Some(log.block - 1) && u[x].receiver == Some(log.body.receiver)
      && (u[x].terminated <==> owned <= amount)
      && u[x].HeldBy() == d.positions[x].HeldBy() && u[x].amount == d.positions[x].amount
      && u[x].start == d.positions[x].start && u[x].indexId == d.positions[x].indexId
      && |u| == |d.positions| + (if owned <= amount then 0 else 1)
      && (owned > amount ==>
            var r := u[|d.positions|];
            && r.HeldBy() == Holder(log.vault, log.body.holder) && Shows(r.amount, owned - amount)
            && r.start == log.block && r.IsOpen() && !r.terminated && r.receiver.None?)
      && forall i :: 0 <= i < |d.positions| && i != x ==> u[i] == d.positions[i]
  {
    hide RoundToFloat64, Step, Print, MaxIndexId, Ordered, Numbered, Chained;
    PositionSuperseded(mode, d, height, log, x);
    SupersededFields(d.positions, x, RoundToFloat64(log.body.shares), log.block, log.body.receiver);
  }

  lemma PositionSuperseded(mode: Mode, d: Derived, height: int, log: Log, x: nat)
    requires log.body.WithdrawRequested? && Process(mode, d, log).Ok?
    requires Valid(d.positions, height) && log.block >= height
    requires OpenAt(d.positions, x, Holder(log.vault, log.body.holder))
    ensures Canonical(d.positions[x].amount)
    ensures
      var next := Monus(Value(d.positions[x].amount), RoundToFloat64(log.body.shares));
      Process(mode, d, log).value.positions == Supersede(d.positions, x, next, log.block, Some(log.body.receiver))
  {
    hide RoundToFloat64, Step, Print, Supersede, Ordered, Numbered, Chained, Value;
    SingleRowEvents(d.positions, log);
    IdFits(d.positions, log);
    StepMeaningOfWithdraw(d.positions, height, log, x);
    AmountIsValue(d.positions, height, x);
  }

  lemma SupersededFields(t: Table, x: nat, amount: nat, block: Height, receiver: Address)
    requires x < |t| && t[x].IsOpen() && Canonical(t[x].amount)
    ensures
      var owned := Value(t[x].amount);
      var u := Supersede(t, x, Monus(owned, amount), block, Some(receiver));
      && |t| <= |u|
      && u[x].end == Some(block - 1) && u[x].receiver == Some(receiver) && (u[x].terminated <==> owned <= amount)
      && u[x].HeldBy() == t[x].HeldBy() && u[x].amount == t[x].amount
      && u[x].start == t[x].start && u[x].indexId == t[x].indexId
      && |u| == |t| + (if owned <= amount then 0 else 1)
      && (owned > amount ==>
            var r := u[|t|];
            && r.HeldBy() == t[x].HeldBy() && Shows(r.amount, owned - amount)
            && r.start == block && r.IsOpen() && !r.terminated && r.receiver.None?)
      && forall i :: 0 <= i < |t| && i != x ==> u[i] == t[i]
  {
    hide MaxIndexId, Print, Value;
    PrintThenRead(Monus(Value(t[x].amount), amount));
  }

  lemma AmountIsValue(t: Table, height: int, x: nat)
    requires Valid(t, height) && x < |t|
    ensures Canonical(t[x].amount) && AmountOf(t[x]) == Value(t[x].amount)
  {
    hide Value;
  }

  /** A withdraw id is refused exactly when, decoded, it exceeds the greatest signed 64-bit integer. */
  lemma WithdrawIdLimit(t: Table, log: Log)
    requires log.body.WithdrawRequested?
    ensures Handle(t, log) == Err(BadWithdrawId) <==> RoundToFloat64(log.body.id) > 9223372036854775807
  {
    hide RoundToFloat64, AmountText, MaxIndexId, GetMostRecentPosition, Parse, PrintInt;
  }

  /** A request is a duplicate exactly when the same vault already has a stored request with the decoded id. */
  lemma DuplicatesExactly(mode: Mode, d: Derived, log: Log)
    requires Step(mode, d.positions, log).Ok?
    ensures Process(mode, d, log) == Err(DuplicateRequest) <==>
      log.body.WithdrawRequested? &&
      exists r :: r in d.requests && r.vault == log.vault && r.id == RoundToFloat64(log.body.id)
    ensures Process(mode, d, log) == Err(DuplicateRate) <==>
      log.body.RateUpdated? && exists r :: r in d.rates && r.vault == log.vault && r.block == log.block
  {
    hide RoundToFloat64, Step;
    if log.body.WithdrawRequested? {
      if r :| r in d.requests && r.vault == log.vault && r.id == RoundToFloat64(log.body.id) {
        var i :| 0 <= i < |d.requests| && d.requests[i] == r;
      }
    } else if log.body.RateUpdated? {
      if r :| r in d.rates && r.vault == log.vault && r.block == log.block {
        var i :| 0 <= i < |d.rates| && d.rates[i] == r;
      }
    }
  }
}
