/**
  What reaches the table. The statement builders use only the first element of a list of rows, so an event
  whose computation returns two inserts or two updates is only partly executed.
*/
module Persistence {
  import opened Chain
  import opened Decimal
  import opened Rounding
  import opened Positions
  import opened Replay
  import opened Ledger
  import opened Effects
  import opened TimeTravel
  import opened Acceptance
  import opened Rows
  import opened Tally

  /** Deposits, withdrawals and the logs of mints and burns never ask for more than one insert and one update. */
  lemma SingleRowEvents(t: Table, log: Log)
    requires !IsRealTransfer(log)
    ensures Step(FirstOnly, t, log) == Step(Complete, t, log)
  {
    hide ComputeNewAmountShares, RoundToFloat64, Print, MostRecentRow, MaxIndexId, Tracked, ApplyAll;
    if Handle(t, log).Ok? {
      var ops := Handle(t, log).value;
      assert FirstOf(ops.inserts) == ops.inserts && FirstOf(ops.updates) == ops.updates;
    }
  }

  /** The receiver gets a first row and the sender is left with none. */
  ghost predicate DrainsIntoNew(t: Table, log: Log)
    requires log.body.Transfer?
  {
    !HasOpen(t, Holder(log.vault, log.body.to)) &&
    RoundToFloat64(Shares(log)) >= Owned(t, Holder(log.vault, log.body.from))
  }

  ghost predicate OrdinaryTransfer(t: Table, height: int, log: Log) {
    Valid(t, height) && log.block >= height && WellFormed(log) && IsRealTransfer(log) && !IsSelfTransfer(log) &&
      !Rejected(t, log)
  }

  lemma ApplyOne(t: Table, ops: Operations)
    requires |ops.updates| == 1
    ensures ApplyAll(t, ops) == UpdateRows(t + InsertedRows(ops.inserts), ops.updates[0])
  {
    UpdateAllOne(t + InsertedRows(ops.inserts), ops.updates);
  }

  /** With a receiver who has a position, the first elements are exactly the receiver's half. */
  lemma FirstHalfOnly(t: Table, height: int, log: Log)
    requires OrdinaryTransfer(t, height, log) && HasOpen(t, Holder(log.vault, log.body.to))
    requires Owned(t, Holder(log.vault, log.body.to)) + RoundToFloat64(Shares(log)) > 0
    ensures Step(FirstOnly, t, log)
      == Ok(Credit(t, Holder(log.vault, log.body.to), RoundToFloat64(Shares(log)), log.block))
  {
    hide ApplyAll, Handle, RoundToFloat64, Credit, Debit, Valid, Owned;
    var credit, debit := TransferHalves(t, height, log);
    var ops := Combine(credit, ChangeToOperations(debit));
    assert FirstOf(ops.inserts) == credit.inserts && FirstOf(ops.updates) == credit.updates;
  }

  /** With a new receiver and a sender who keeps something, the sender's replacement row is lost. */
  lemma ReplacementLost(t: Table, height: int, log: Log) returns (u: Table)
    requires OrdinaryTransfer(t, height, log) && !HasOpen(t, Holder(log.vault, log.body.to))
    requires RoundToFloat64(Shares(log)) < Owned(t, Holder(log.vault, log.body.from))
    ensures Step(FirstOnly, t, log) == Ok(u)
    ensures |u| == |t| + 1 && |Effect(t, log)| == |t| + 2
    ensures forall i :: !Matches(u, i, Holder(log.vault, log.body.from), log.block)
  {
    hide Handle, RoundToFloat64, Owned, MaxIndexId, CountRows, Print, Canonical, ComputeNewAmountShares, UpdateAll;
    var from, to := Holder(log.vault, log.body.from), Holder(log.vault, log.body.to);
    var credit, debit := TransferHalves(t, height, log);
    var ops := Combine(credit, ChangeToOperations(debit));
    var first := Operations(FirstOf(ops.inserts), FirstOf(ops.updates));
    assert first.inserts == credit.inserts && first.updates == [debit.update.value];
    u := ApplyAll(t, first);
    ApplyOne(t, first);
    var grown := t + InsertedRows(credit.inserts);
    assert grown[|t|].HeldBy() == to by {
      assert UpdateAll(grown, []) == grown by { NoUpdates(grown); }
      assert ApplyAll(t, credit) == grown == Credit(t, to, RoundToFloat64(Shares(log)), log.block);
    }
    UpdateAllKeepsShape(t + InsertedRows(ops.inserts), ops.updates);
    TransferMeaning(t, height, log);
    ClosedEverywhere(t, height, from, log.block, debit.update.value);
    assert forall i :: 0 <= i < |t| ==> u[i] == UpdatedRow(t[i], debit.update.value);
  }

  /** Closing the open row below a block leaves no row of the holder that covers the block. */
  lemma ClosedEverywhere(t: Table, height: int, holder: Holder, block: Height, u: PositionUpdate)
    requires Valid(t, height) && block >= height && HasOpen(t, holder)
    requires u.id == t[OpenIndex(t, holder)].Id() && u.end == block - 1
    ensures forall i :: 0 <= i < |t| && t[i].HeldBy() == holder ==> !UpdatedRow(t[i], u).Covers(block)
  {
    LookupFindsOpenRow(t, height, holder);
    forall i | 0 <= i < |t| && t[i].HeldBy() == holder ensures !UpdatedRow(t[i], u).Covers(block) {
      if i != OpenIndex(t, holder) { assert !OpenAt(t, i, holder); }
    }
  }

  /** With a new receiver and a drained sender there is one insert and one update, and both are executed. */
  lemma NothingLost(t: Table, height: int, log: Log)
    requires OrdinaryTransfer(t, height, log) && DrainsIntoNew(t, log)
    ensures Step(FirstOnly, t, log) == Step(Complete, t, log)
  {
    hide ApplyAll, Handle, RoundToFloat64, Credit, Debit, Valid, Owned;
    var credit, debit := TransferHalves(t, height, log);
    var ops := Combine(credit, ChangeToOperations(debit));
    assert FirstOf(ops.inserts) == ops.inserts && FirstOf(ops.updates) == ops.updates;
  }

  /** With a receiver who has a position, the sender's row stays open. */
  lemma SenderNotClosed(t: Table, height: int, log: Log) returns (x: nat)
    requires OrdinaryTransfer(t, height, log) && HasOpen(t, Holder(log.vault, log.body.to))
    ensures Step(FirstOnly, t, log).Ok?
    ensures x < |t| && x < |Step(FirstOnly, t, log).value| && x < |Effect(t, log)|
    ensures Step(FirstOnly, t, log).value[x].IsOpen() && !Effect(t, log)[x].IsOpen()
  {
    hide Handle, RoundToFloat64, Owned, MaxIndexId, CountRows, Print, Canonical, ComputeNewAmountShares, UpdateAll;
    var from, to := Holder(log.vault, log.body.from), Holder(log.vault, log.body.to);
    var credit, debit := TransferHalves(t, height, log);
    var ops := Combine(credit, ChangeToOperations(debit));
    var first := Operations(FirstOf(ops.inserts), FirstOf(ops.updates));
    ApplyOne(t, first);
    x := OpenIndex(t, from);
    assert first.updates == credit.updates;
    CreditLeavesOthers(t, height, from, to, RoundToFloat64(Shares(log)), log.block);
    assert ApplyAll(t, credit)[x].IsOpen();
    ApplyOne(t, credit);
  }

  /**
    For an ordinary transfer, what is executed equals what was computed exactly when the sender drains into a new
    receiver.
  */
  lemma TransferPersistence(t: Table, height: int, log: Log)
    requires OrdinaryTransfer(t, height, log)
    ensures Step(FirstOnly, t, log) == Step(Complete, t, log) <==> DrainsIntoNew(t, log)
  {
    hide Step, RoundToFloat64, Owned, Effect, Valid;
    TransferMeaning(t, height, log);
    if DrainsIntoNew(t, log) {
      NothingLost(t, height, log);
    } else if HasOpen(t, Holder(log.vault, log.body.to)) {
      var x := SenderNotClosed(t, height, log);
    } else {
      var u := ReplacementLost(t, height, log);
    }
  }

  // -------------------------------------------- what a reader sees afterwards

  /** After the event every holder's balance at its block reads as the plain replay says. */
  ghost predicate ReadsRight(u: Table, t: Table, log: Log) {
    forall k :: Reads(u, k, log.block, Replayed(Owned(t, k), log, k))
  }

  lemma ReadsOneValue(u: Table, k: Holder, h: int, a: nat, b: nat)
    requires Reads(u, k, h, a) && Reads(u, k, h, b)
    ensures a == b
  {
    PrintThenRead(a);
    PrintThenRead(b);
  }

  lemma CompleteReadsRight(t: Table, height: int, log: Log)
    requires Valid(t, height) && log.block >= height && WellFormed(log)
    ensures ReadsRight(Effect(t, log), t, log)
  {
    hide Valid, Effect, Reads, Owned, Replayed;
    EffectKeepsValid(t, height, log);
    forall k ensures Reads(Effect(t, log), k, log.block, Replayed(Owned(t, k), log, k)) {
      EffectMovesBalance(t, height, log, k);
      ReadsNow(Effect(t, log), log.block, k, log.block);
    }
  }

  /**
    The literal execution of a transfer of a positive amount leaves all balances readable exactly when the
    sender drains into a new receiver, or had nothing to begin with.
  */
  lemma PersistedTransferReads(t: Table, height: int, log: Log)
    requires OrdinaryTransfer(t, height, log) && RoundToFloat64(Shares(log)) > 0
    ensures Step(FirstOnly, t, log).Ok?
    ensures ReadsRight(Step(FirstOnly, t, log).value, t, log)
       <==> DrainsIntoNew(t, log) || Owned(t, Holder(log.vault, log.body.from)) == 0
  {
    hide Step, RoundToFloat64, Owned, Effect, Valid, Reads, Credit;
    var from, to := Holder(log.vault, log.body.from), Holder(log.vault, log.body.to);
    var amount := RoundToFloat64(Shares(log));
    TransferMeaning(t, height, log);
    if DrainsIntoNew(t, log) {
      NothingLost(t, height, log);
      CompleteReadsRight(t, height, log);
    } else if HasOpen(t, to) {
      FirstHalfOnly(t, height, log);
      var u := Credit(t, to, amount, log.block);
      CreditKeepsValid(t, height, to, amount, log.block);
      forall k ensures Reads(u, k, log.block, Owned(u, k)) {
        ReadsNow(u, log.block, k, log.block);
      }
      if ReadsRight(u, t, log) {
        ReadsOneValue(u, from, log.block, Owned(u, from), Replayed(Owned(t, from), log, from));
      }
    } else {
      var u := ReplacementLost(t, height, log);
      if ReadsRight(u, t, log) {
        NoRowReadsZero(u, from, log.block, Replayed(Owned(t, from), log, from));
      }
    }
  }

  lemma NoRowReadsZero(u: Table, k: Holder, h: int, b: nat)
    requires (forall i :: !Matches(u, i, k, h)) && Reads(u, k, h, b)
    ensures b == 0
  {
  }

  // ----------------------------------------------- falling behind for good

  /** Some row is open although no lookup will ever find it again. */
  ghost predicate Broken(t: Table) {
    exists i :: 0 <= i < |t| && Frozen(t, i) && t[i].IsOpen()
  }

  /** What of a transfer's halves reaches the table: the credit in full, of the debit only what fits. */
  function Fitting(a: Operations, b: Operations): Operations {
    if a.updates == [] then Operations([], b.updates)
    else if a.inserts != [] then NO_OPERATIONS
    else Operations(b.inserts, [])
  }

  lemma FittingIsExecuted(a: Operations, b: Operations)
    requires |a.inserts| <= 1 && |a.updates| <= 1 && |b.inserts| <= 1 && |b.updates| == 1
    requires a.updates == [] ==> a.inserts != []
    ensures Combine(a, Fitting(a, b)) == Executed(FirstOnly, Combine(a, b))
  {
    var fits, first := Combine(a, Fitting(a, b)), Executed(FirstOnly, Combine(a, b));
    assert fits.inserts == first.inserts;
    assert fits.updates == first.updates;
  }

  /** The halves of a transfer, and how much of a move is left of the debit. */
  lemma FirstHalves(t: Table, log: Log) returns (credit: Operations, debit: Operations, all: Operations)
    requires Numbered(t) && IsRealTransfer(log) && !IsSelfTransfer(log) && Handle(t, log).Ok?
    ensures all == Handle(t, log).value
    ensures Combine(credit, debit) == Executed(FirstOnly, all)
    ensures IsSmallHalf(t, CreditHolder(log), credit) && IsSmallHalf(t, DebitHolder(log), debit)
    ensures HalfTally(credit, CreditHolder(log), CreditHolder(log)) == 1
    ensures HalfTally(debit, DebitHolder(log), DebitHolder(log)) ==
      if Lookup(t, Holder(log.vault, log.body.to)).None? then (if |all.inserts| == 1 then 1 else 0)
      else if credit.inserts == [] then |debit.inserts| else 0
    ensures Lookup(t, Holder(log.vault, log.body.to)).Some? ==> debit.updates == []
    ensures Lookup(t, Holder(log.vault, log.body.to)).None? ==> |all.inserts| >= 1
  {
    hide Numbered, Lookup, IsHalf, MaxIndexId, UpdateGain, Executed, Handle, IsFound;
    var a, b := HandleHalves(t, log);
    all := Combine(a, b);
    HalvesAreSmall(t, log, a, b);
    var maxId := MaxIndexId(t, log.vault);
    HalfGain(t, Credited(log).value, a, log, true, None, maxId);
    HalfGain(t, Debited(log).value, b, log, false, None, maxId + |a.inserts|);
    GainOf(b.updates[0]);
    credit, debit := a, Fitting(a, b);
    assert a.updates == [] ==> a.inserts != [];
    FittingIsExecuted(a, b);
  }

  lemma GainOf(u: PositionUpdate)
    ensures u.receiver.None? ==> UpdateGain(u) == if u.terminated then 1 else 0
  {
  }

  /** Executed in part, an event never adds more than its moves. */
  lemma FirstOnlyTally(t: Table, log: Log, k: Holder)
    requires Numbered(t) && Unclaimed(t, k) && !IsSelfTransfer(log) && Step(FirstOnly, t, log).Ok?
    ensures TallyOf(Step(FirstOnly, t, log).value, k) <= TallyOf(t, k) + MovesOn(log, k)
  {
    hide Numbered, Unclaimed, Handle, ApplyAll, Lookup, TallyOf, UpdateGain, Sound, MaxIndexId;
    if IsRealTransfer(log) {
      var credit, debit, all := FirstHalves(t, log);
      HandleIsSound(t, log);
      FirstIsSound(t, log.vault, all);
      TallyOfHalves(t, log.vault, CreditHolder(log), credit, DebitHolder(log), debit, k);
      ConcernsMeans(log, k);
    } else {
      SingleRowEvents(t, log);
      TallyStep(t, log, k);
    }
  }

  /** A transfer that does not drain into a new receiver costs the sender a move, or leaves a broken row. */
  lemma FallsBehind(t: Table, height: int, log: Log)
    requires OrdinaryTransfer(t, height, log) && Unclaimed(t, Holder(log.vault, log.body.from)) &&
      !DrainsIntoNew(t, log)
    ensures Step(FirstOnly, t, log).Ok?
    ensures
      var from, u := Holder(log.vault, log.body.from), Step(FirstOnly, t, log).value;
      TallyOf(u, from) < TallyOf(t, from) + MovesOn(log, from) || Broken(u)
  {
    hide Unclaimed, Handle, ApplyAll, Lookup, TallyOf, UpdateGain, Sound, MaxIndexId, RoundToFloat64, Valid, Owned,
      IsSmallHalf;
    var from, to := Holder(log.vault, log.body.from), Holder(log.vault, log.body.to);
    TransferMeaning(t, height, log);
    LookupMeans(t, height, to);
    var c, d := TransferHalves(t, height, log);
    ValidIsNumbered(t, height);
    var credit, debit, all := FirstHalves(t, log);
    HandleIsSound(t, log);
    FirstIsSound(t, log.vault, all);
    TallyOfHalves(t, log.vault, CreditHolder(log), credit, DebitHolder(log), debit, from);
    if HasOpen(t, to) && credit.inserts == [] && |debit.inserts| == 1 {
      LeavesBroken(t, height, log, credit, debit);
    }
  }

  lemma ValidIsNumbered(t: Table, height: int)
    requires Valid(t, height)
    ensures Numbered(t)
  {
  }

  lemma LookupMeans(t: Table, height: int, k: Holder)
    requires Valid(t, height)
    ensures Lookup(t, k).Some? <==> HasOpen(t, k)
  {
    LookupIndex(t, height, k);
  }

  /** The sender's next row is inserted without its old row being closed. */
  lemma LeavesBroken(t: Table, height: int, log: Log, credit: Operations, debit: Operations)
    requires OrdinaryTransfer(t, height, log)
    requires Handle(t, log).Ok? && Combine(credit, debit) == Executed(FirstOnly, Handle(t, log).value)
    requires IsSmallHalf(t, Holder(log.vault, log.body.to), credit) &&
      IsSmallHalf(t, Holder(log.vault, log.body.from), debit)
    requires credit.inserts == [] && |debit.inserts| == 1 && debit.updates == []
    ensures Broken(Step(FirstOnly, t, log).value)
  {
    hide Handle, ApplyAll, Lookup, MaxIndexId, RoundToFloat64, Owned, Sound, UpdateAll, Tracked;
    var from := Holder(log.vault, log.body.from);
    var ops, x := Combine(credit, debit), OpenIndex(t, from);
    HandleIsSound(t, log);
    FirstIsSound(t, log.vault, Handle(t, log).value);
    SoundExecuted(t, log.vault, ops);
    var u := ApplyAll(t, ops);
    UpdateAllKeepsShape(t, ops.updates);
    assert u[|t|] == InsertedRow(debit.inserts[0]);
    forall j | 0 <= j < |ops.updates| ensures ops.updates[j].id != t[x].Id() {
      var y :| IsFound(t, y) && t[y].HeldBy() == Holder(log.vault, log.body.to) && t[y].Id() == credit.updates[0].id;
      if t[x].Id() == t[y].Id() { SameIdSameRow(t, x, y); }
    }
    UpdateAllAt(t, ops.updates, x);
    assert u[x] == t[x];
    assert Frozen(u, x);
  }

  /** The table lags behind the events it was fed, in a way no later event makes up for. */
  ghost predicate Behind(t: Table, events: seq<Log>) {
    && Numbered(t)
    && (forall k :: Unclaimed(t, k))
    && (forall k :: TallyOf(t, k) <= Moves(events, k))
    && (Broken(t) || exists k :: TallyOf(t, k) < Moves(events, k))
  }

  lemma StaysBehind(t: Table, events: seq<Log>, log: Log)
    requires Behind(t, events) && !IsSelfTransfer(log) && Step(FirstOnly, t, log).Ok?
    ensures Behind(Step(FirstOnly, t, log).value, events + [log])
  {
    hide Numbered, Unclaimed, Step, TallyOf, MovesOn, Extends, Frozen;
    var u := Step(FirstOnly, t, log).value;
    assert (events + [log])[..|events|] == events;
    StepExtends(FirstOnly, t, log);
    forall k ensures Unclaimed(u, k) {
      UnclaimedStays(FirstOnly, t, log, k);
    }
    forall k ensures TallyOf(u, k) <= TallyOf(t, k) + MovesOn(log, k) {
      FirstOnlyTally(t, log, k);
    }
    if Broken(t) {
      var i :| 0 <= i < |t| && Frozen(t, i) && t[i].IsOpen();
      ExtendsFrozen(t, u, i);
    }
  }

  /** A table that lags behind is not the complete one. */
  lemma BehindIsIncomplete(t: Table, events: seq<Log>)
    requires Behind(t, events) && Indexable(events) && Run(Complete, events).Ok?
    ensures t != Run(Complete, events).value
  {
    hide RunFrom, Numbered, Unclaimed, TallyOf, Moves, Indexable, Valid;
    forall k ensures TallyOf(Run(Complete, events).value, k) == Moves(events, k) {
      IndexableHasNoSelfTransfer(events);
      TallyCountsMoves(events, k);
    }
    ReachableIsValid(events);
    ValidIsNotBroken(Run(Complete, events).value, LastBlock(events));
  }

  lemma IndexableHasNoSelfTransfer(events: seq<Log>)
    requires Indexable(events)
    ensures forall i :: 0 <= i < |events| ==> !IsSelfTransfer(events[i])
  {
  }

  lemma ValidIsNotBroken(t: Table, height: int)
    requires Valid(t, height)
    ensures !Broken(t)
  {
    forall i | Frozen(t, i) ensures !t[i].IsOpen() {
      if !t[i].terminated {
        var j :| i < j < |t| && t[j].HeldBy() == t[i].HeldBy();
        assert Apart(t, i, j);
      }
    }
  }

  // ------------------------------------------------------------- whole runs

  /** Told from the events: the receiver has no position and the sender is left with none. */
  ghost predicate DrainsAfter(before: seq<Log>, log: Log)
    requires log.body.Transfer?
  {
    !HasPosition(before, Holder(log.vault, log.body.to)) &&
    RoundToFloat64(Shares(log)) >= Balance(before, Holder(log.vault, log.body.from))
  }

  /** Every real transfer of the run drains its sender into a receiver without a position. */
  ghost predicate AllDrain(events: seq<Log>) {
    forall i :: 0 <= i < |events| && IsRealTransfer(events[i]) ==> DrainsAfter(events[..i], events[i])
  }

  lemma AllDrainSnoc(init: seq<Log>, last: Log)
    ensures AllDrain(init + [last]) <==> AllDrain(init) && (IsRealTransfer(last) ==> DrainsAfter(init, last))
  {
    hide DrainsAfter;
    var all := init + [last];
    assert forall i :: 0 <= i < |init| ==> all[..i] == init[..i] && all[i] == init[i];
    assert all[..|init|] == init;
  }

  /** On a reached table, draining reads the same from the events and from the rows. */
  lemma DrainsMeans(events: seq<Log>, log: Log)
    requires Indexable(events) && Run(Complete, events).Ok? && log.body.Transfer?
    ensures DrainsAfter(events, log) <==> DrainsIntoNew(Run(Complete, events).value, log)
  {
    hide HasPosition, HasOpen, Owned, Balance, RoundToFloat64, RunFrom, Indexable, Valid;
    PositionsSucceedIffAccepted(events);
    ReachableIsValid(events);
  }

  /** One event on a table that is complete so far. */
  lemma PersistedStep(events: seq<Log>, log: Log)
    requires Indexable(events + [log]) && Run(Complete, events + [log]).Ok?
    ensures Run(Complete, events).Ok?
    ensures
      var t := Run(Complete, events).value;
      && (IsRealTransfer(log) ==> DrainsAfter(events, log)) ==> Step(FirstOnly, t, log) == Step(Complete, t, log)
    ensures
      var t := Run(Complete, events).value;
      IsRealTransfer(log) && !DrainsAfter(events, log) && Step(FirstOnly, t, log).Ok? ==>
        Behind(Step(FirstOnly, t, log).value, events + [log])
  {
    hide Step, Valid, Unclaimed, Numbered, DrainsAfter, DrainsIntoNew, TallyOf, MovesOn, Rejected, IsSelfTransfer;
    assert (events + [log])[..|events|] == events;
    PrefixOfIndexable(events, log);
    ReachableIsValid(events);
    var t := Run(Complete, events).value;
    StepMeaning(t, LastBlock(events), log);
    IndexableHasNoSelfTransfer(events);
    TallyCountsMoves(events, Holder("", ""));
    forall k ensures TallyOf(t, k) == Moves(events, k) && Unclaimed(t, k) {
      TallyCountsMoves(events, k);
    }
    if IsRealTransfer(log) {
      DrainsMeans(events, log);
      TransferPersistence(t, LastBlock(events), log);
      if !DrainsAfter(events, log) {
        FallsBehind(t, LastBlock(events), log);
        forall k ensures Unclaimed(Step(FirstOnly, t, log).value, k) {
          UnclaimedStays(FirstOnly, t, log, k);
        }
        StepExtends(FirstOnly, t, log);
        forall k ensures TallyOf(Step(FirstOnly, t, log).value, k) <= TallyOf(t, k) + MovesOn(log, k) {
          FirstOnlyTally(t, log, k);
        }
      }
    } else {
      SingleRowEvents(t, log);
    }
  }

  lemma PrefixOfIndexable(events: seq<Log>, log: Log)
    requires Indexable(events + [log])
    ensures Indexable(events) && WellFormed(log) && !IsSelfTransfer(log) && log.block >= LastBlock(events)
  {
    hide WellFormed, IsSelfTransfer;
    var all := events + [log];
    assert all[|events|] == log;
    assert forall i :: 0 <= i < |events| ==> all[i] == events[i];
  }

  /** Up to the first transfer that does not drain the tables agree, and from there on they never do. */
  lemma {:induction false} AgreesOrBehind(events: seq<Log>)
    requires Indexable(events) && Run(Complete, events).Ok?
    ensures AllDrain(events) ==> Run(FirstOnly, events) == Run(Complete, events)
    ensures !AllDrain(events) && Run(FirstOnly, events).Ok? ==> Behind(Run(FirstOnly, events).value, events)
  {
    hide Step, Indexable, AllDrain, Behind, DrainsAfter;
    if events == [] {
      assert AllDrain([]) by { NothingDrains(); }
    } else {
      var init, last := events[..|events| - 1], events[|events| - 1];
      assert events == init + [last];
      PrefixOfIndexable(init, last);
      AgreesOrBehind(init);
      AllDrainSnoc(init, last);
      PersistedStep(init, last);
      if !AllDrain(init) && Run(FirstOnly, events).Ok? {
        StaysBehind(Run(FirstOnly, init).value, init, last);
      }
    }
  }

  lemma NothingDrains()
    ensures AllDrain([])
  {
  }

  /** The table as executed is the complete one if and only if every transfer so far drained into a new receiver. */
  lemma PersistedExactly(events: seq<Log>)
    requires Indexable(events) && Run(Complete, events).Ok?
    ensures Run(FirstOnly, events) == Run(Complete, events) <==> AllDrain(events)
  {
    hide RunFrom, Indexable, AllDrain, Behind;
    AgreesOrBehind(events);
    if !AllDrain(events) && Run(FirstOnly, events).Ok? {
      BehindIsIncomplete(Run(FirstOnly, events).value, events);
    }
  }

  /** On such runs the table as executed is a time-travel index. */
  lemma PersistedTimeTravel(events: seq<Log>, holder: Holder, h: int)
    requires Indexable(events) && AllDrain(events) && Run(Complete, events).Ok?
    ensures Run(FirstOnly, events).Ok?
    ensures Reads(Run(FirstOnly, events).value, holder, h, Balance(UpTo(events, h), holder))
  {
    hide RunFrom, Indexable, AllDrain, Reads;
    PersistedExactly(events);
    TimeTravelIndex(events, holder, h);
  }

  /** While all transfers drain, the executed run fails exactly when the complete one does. */
  lemma {:induction false} PersistedRunFails(events: seq<Log>)
    requires Indexable(events) && AllDrain(events)
    ensures Run(FirstOnly, events).Ok? <==> Run(Complete, events).Ok?
  {
    hide Handle, ApplyAll, Indexable, AllDrain, DrainsAfter;
    if events != [] {
      var init, last := events[..|events| - 1], events[|events| - 1];
      assert events == init + [last];
      PrefixOfIndexable(init, last);
      AllDrainSnoc(init, last);
      PersistedRunFails(init);
      if Run(Complete, init).Ok? {
        AgreesOrBehind(init);
      }
    }
  }
}
