/**
  A count that a table keeps of its own past. Every deposit and every side of a transfer either adds a row or
  terminates one, and only withdrawals leave a receiver behind, so rows plus terminated rows minus rows with a receiver
  tell how many deposits and transfers a holder has seen, whatever the amounts were.
*/
module Tally {
  import opened Chain
  import opened Decimal
  import opened Positions
  import opened Replay
  import opened Ledger
  import opened Effects
  import opened Rows

  function RowTally(r: Row): int {
    1 + (if r.terminated then 1 else 0) - (if r.receiver.Some? then 1 else 0)
  }

  function TallyOf(t: Table, k: Holder): int {
    if t == [] then 0
    else TallyOf(t[..|t| - 1], k) + if t[|t| - 1].HeldBy() == k then RowTally(t[|t| - 1]) else 0
  }

  /** Deposits to a holder and transfers from or to it. */
  function MovesOn(log: Log, k: Holder): nat {
    if Credits(log, k) || (IsRealTransfer(log) && Debits(log, k)) then 1 else 0
  }

  function Moves(events: seq<Log>, k: Holder): nat {
    if events == [] then 0 else Moves(events[..|events| - 1], k) + MovesOn(events[|events| - 1], k)
  }

  /** The row that a lookup of the holder finds has not been closed by a withdrawal. */
  ghost predicate Unclaimed(t: Table, k: Holder) {
    forall i {:trigger IsFound(t, i)} :: IsFound(t, i) && t[i].HeldBy() == k ==> t[i].receiver.None?
  }

  // --------------------------------------------------------------- the sums

  lemma {:induction false} TallyConcat(t: Table, rest: Table, k: Holder)
    ensures TallyOf(t + rest, k) == TallyOf(t, k) + TallyOf(rest, k)
  {
    if rest == [] {
      assert t + rest == t;
    } else {
      TallyConcat(t, rest[..|rest| - 1], k);
      assert (t + rest)[..|t + rest| - 1] == t + rest[..|rest| - 1];
    }
  }

  lemma {:induction false} TallyReplace(t: Table, x: nat, r: Row, k: Holder)
    requires x < |t| && r.HeldBy() == t[x].HeldBy()
    ensures TallyOf(t[x := r], k) == TallyOf(t, k) + if r.HeldBy() == k then RowTally(r) - RowTally(t[x]) else 0
  {
    hide RowTally;
    var init := t[..|t| - 1];
    if x == |t| - 1 {
      assert t[x := r][..|t| - 1] == init;
    } else {
      assert t[x := r][..|t| - 1] == init[x := r];
      TallyReplace(init, x, r, k);
    }
  }

  /** What one update adds to the tally of the row's holder. */
  function UpdateGain(u: PositionUpdate): int {
    (if u.terminated then 1 else 0) - (if u.receiver.Some? then 1 else 0)
  }

  lemma TallyUpdate(t: Table, x: nat, u: PositionUpdate, k: Holder)
    requires Numbered(t) && x < |t| && t[x].Id() == u.id
    requires t[x].HeldBy() == k ==> !t[x].terminated && t[x].receiver.None?
    ensures TallyOf(UpdateRows(t, u), k) == TallyOf(t, k) + if t[x].HeldBy() == k then UpdateGain(u) else 0
  {
    hide Numbered;
    UpdateTouchesOneRow(t, x, u);
    TallyReplace(t, x, UpdatedRow(t[x], u), k);
  }

  lemma TallyTwoUpdates(t: Table, x: nat, u: PositionUpdate, y: nat, w: PositionUpdate, k: Holder)
    requires Numbered(t) && x < |t| && y < |t| && x != y
    requires t[x].Id() == u.id && (t[x].HeldBy() == k ==> !t[x].terminated && t[x].receiver.None?)
    requires t[y].Id() == w.id && (t[y].HeldBy() == k ==> !t[y].terminated && t[y].receiver.None?)
    ensures TallyOf(UpdateAll(t, [u, w]), k)
         == TallyOf(t, k)
          + (if t[x].HeldBy() == k then UpdateGain(u) else 0)
          + (if t[y].HeldBy() == k then UpdateGain(w) else 0)
  {
    hide Numbered, UpdateGain;
    TallyUpdate(t, x, u, k);
    var once := UpdateRows(t, u);
    UpdateTouchesOneRow(t, x, u);
    ClosingIsNumbered(t, once);
    TallyUpdate(once, y, w, k);
    assert [u, w][1..] == [w];
    UpdateAllOne(once, [w]);
  }

  function InsertTally(inserts: seq<PositionInsert>, i: nat, k: Holder): nat {
    if i < |inserts| && Holder(inserts[i].vault, inserts[i].owner) == k then 1 else 0
  }

  lemma TallyOfInserts(inserts: seq<PositionInsert>, k: Holder)
    requires |inserts| <= 2
    ensures TallyOf(InsertedRows(inserts), k) == InsertTally(inserts, 0, k) + InsertTally(inserts, 1, k)
  {
    if inserts != [] {
      TallyOfOne(InsertedRow(inserts[0]), k);
      if |inserts| == 2 {
        TallyOfOne(InsertedRow(inserts[1]), k);
        TallyConcat([InsertedRow(inserts[0])], [InsertedRow(inserts[1])], k);
        assert InsertedRows(inserts) == [InsertedRow(inserts[0])] + [InsertedRow(inserts[1])];
      } else {
        assert InsertedRows(inserts) == [InsertedRow(inserts[0])];
      }
    }
  }

  lemma TallyOfOne(r: Row, k: Holder)
    ensures TallyOf([r], k) == if r.HeldBy() == k then RowTally(r) else 0
  {
    assert [r][..0] == [];
  }

  // ------------------------------------------------------------- one event

  /** Whether a half adds a move to its holder; a withdrawal does not. */
  ghost predicate IsMove(t: Table, k: Holder, isAddition: bool, receiver: Option<Address>) {
    receiver.None? && (isAddition || Lookup(t, k).Some?)
  }

  /** The rows and updates of one half. */
  lemma HalfGain(
    t: Table, k: Holder, half: Operations, log: Log, isAddition: bool, receiver: Option<Address>, maxId: int)
    requires Numbered(t) && IsHalf(t, k, half, log, isAddition, receiver, maxId) && (isAddition ==> receiver.None?)
    ensures |half.inserts| <= 1 && |half.updates| <= 1 && (half.updates == [] <==> Lookup(t, k).None?)
    ensures half.inserts != [] ==> Holder(half.inserts[0].vault, half.inserts[0].owner) == k
    ensures half.updates != [] ==>
      exists x :: IsFound(t, x) && t[x].HeldBy() == k && t[x].Id() == half.updates[0].id && !t[x].terminated
    ensures half.updates != [] ==>
      && half.updates[0].receiver == receiver && half.updates[0].end == log.block - 1
      && (half.updates[0].terminated <==> half.inserts == [])
    ensures |half.inserts| + (if half.updates != [] then UpdateGain(half.updates[0]) else 0)
         == if IsMove(t, k, isAddition, receiver) then 1 else 0
  {
    hide ComputeNewAmountShares, AmountText, GetMostRecentPosition, Numbered;
    LookupIsHeld(t, k);
    FoundIsLast(t, k);
  }

  /** The contribution of one executed half to a holder's tally. */
  function HalfTally(half: Operations, owner: Holder, k: Holder): int {
    if owner != k then 0 else |half.inserts| + if half.updates != [] then UpdateGain(half.updates[0]) else 0
  }

  ghost predicate IsSmallHalf(t: Table, owner: Holder, half: Operations) {
    && |half.inserts| <= 1 && |half.updates| <= 1
    && (half.inserts != [] ==> Holder(half.inserts[0].vault, half.inserts[0].owner) == owner)
    && (half.updates != [] ==>
          exists x :: IsFound(t, x) && t[x].HeldBy() == owner && t[x].Id() == half.updates[0].id && !t[x].terminated)
  }

  lemma TallyOfHalves(t: Table, vault: Address, a: Holder, credit: Operations, b: Holder, debit: Operations, k: Holder)
    requires Numbered(t) && Unclaimed(t, k) && a != b && Sound(t, vault, Combine(credit, debit))
    requires IsSmallHalf(t, a, credit) && IsSmallHalf(t, b, debit)
    ensures TallyOf(ApplyAll(t, Combine(credit, debit)), k)
         == TallyOf(t, k) + HalfTally(credit, a, k) + HalfTally(debit, b, k)
  {
    hide Numbered, Unclaimed, Lookup, Sound, TallyOf, RowTally, ApplyAll, UpdateAll, UpdateGain, IsFound, Extends;
    var ops := Combine(credit, debit);
    SoundExecuted(t, vault, ops);
    TallyConcat(UpdateAll(t, ops.updates), InsertedRows(ops.inserts), k);
    TallyOfInserts(ops.inserts, k);
    TallyOfUpdates(t, a, credit.updates, b, debit.updates, k);
  }

  lemma TallyOfUpdates(t: Table, a: Holder, us: seq<PositionUpdate>, b: Holder, ws: seq<PositionUpdate>, k: Holder)
    requires Numbered(t) && Unclaimed(t, k) && a != b
    requires IsSmallHalf(t, a, Operations([], us)) && IsSmallHalf(t, b, Operations([], ws))
    ensures TallyOf(UpdateAll(t, us + ws), k)
         == TallyOf(t, k)
          + (if a == k && us != [] then UpdateGain(us[0]) else 0)
          + (if b == k && ws != [] then UpdateGain(ws[0]) else 0)
  {
    hide Numbered, Lookup, UpdateGain, UpdateAll;
    if us != [] && ws != [] {
      var x: nat :| IsFound(t, x) && t[x].HeldBy() == a && t[x].Id() == us[0].id && !t[x].terminated;
      var y: nat :| IsFound(t, y) && t[y].HeldBy() == b && t[y].Id() == ws[0].id && !t[y].terminated;
      assert us + ws == [us[0], ws[0]];
      TallyTwoUpdates(t, x, us[0], y, ws[0], k);
    } else if us != [] {
      var x: nat :| IsFound(t, x) && t[x].HeldBy() == a && t[x].Id() == us[0].id && !t[x].terminated;
      UpdateAllOne(t, us + ws);
      TallyUpdate(t, x, us[0], k);
    } else if ws != [] {
      var y: nat :| IsFound(t, y) && t[y].HeldBy() == b && t[y].Id() == ws[0].id && !t[y].terminated;
      UpdateAllOne(t, us + ws);
      TallyUpdate(t, y, ws[0], k);
    } else {
      assert us + ws == [];
      NoUpdates(t);
    }
  }

  /**
    An event executed in full adds to every holder's tally exactly the deposits and transfers it is for that holder.
  */
  lemma TallyStep(t: Table, log: Log, k: Holder)
    requires Numbered(t) && Unclaimed(t, k) && !IsSelfTransfer(log) && Step(Complete, t, log).Ok?
    ensures TallyOf(Step(Complete, t, log).value, k) == TallyOf(t, k) + MovesOn(log, k)
  {
    hide Numbered, Unclaimed, Handle, ApplyAll, IsHalf, Lookup, RowTally, MaxIndexId, UpdateGain, Sound;
    var credit, debit := HandleHalves(t, log);
    var a, b := CreditHolder(log), DebitHolder(log);
    HalvesAreSmall(t, log, credit, debit);
    HandleIsSound(t, log);
    TallyOfHalves(t, log.vault, a, credit, b, debit, k);
    ConcernsMeans(log, k);
  }

  /** The holders of the two halves; a missing one is made up, different from the other. */
  function CreditHolder(log: Log): Holder {
    if Credited(log).Some? then Credited(log).value else Holder(log.vault, DebitHolder(log).owner + "+")
  }

  function DebitHolder(log: Log): Holder {
    if Debited(log).Some? then Debited(log).value
    else if Credited(log).Some? then Holder(log.vault, Credited(log).value.owner + "-")
    else Holder(log.vault, "")
  }

  lemma HalvesAreSmall(t: Table, log: Log, credit: Operations, debit: Operations)
    requires Numbered(t) && AreHalves(t, log, credit, debit) && !IsSelfTransfer(log)
    requires IsRealTransfer(log) ==> Lookup(t, Holder(log.vault, log.body.from)).Some?
    ensures CreditHolder(log) != DebitHolder(log)
    ensures IsSmallHalf(t, CreditHolder(log), credit) && IsSmallHalf(t, DebitHolder(log), debit)
    ensures HalfTally(credit, CreditHolder(log), CreditHolder(log)) == if Credited(log).Some? then 1 else 0
    ensures HalfTally(debit, DebitHolder(log), DebitHolder(log)) == if IsRealTransfer(log) then 1 else 0
  {
    hide Numbered, IsHalf, Lookup, MaxIndexId, UpdateGain;
    var maxId := MaxIndexId(t, log.vault);
    if Credited(log).Some? {
      HalfGain(t, Credited(log).value, credit, log, true, None, maxId);
      if Debited(log).None? { LongerIsOther(Credited(log).value.owner, "-"); }
    } else if Debited(log).Some? {
      LongerIsOther(Debited(log).value.owner, "+");
    }
    if Debited(log).Some? {
      HalfGain(t, Debited(log).value, debit, log, false, ReceiverNoted(log), maxId + |credit.inserts|);
    }
  }

  lemma LongerIsOther(owner: Address, mark: string)
    requires mark != ""
    ensures owner + mark != owner
  {
    assert |owner + mark| > |owner|;
  }

  // ---------------------------------------------------- keeping the premise

  /** A holder's last row that is not terminated is what a lookup finds. */
  lemma LastIsFound(t: Table, i: int)
    requires Numbered(t) && 0 <= i < |t| && !Frozen(t, i) && Tracked(t[i].owner)
    ensures IsFound(t, i)
  {
    hide Tracked, Numbered;
    var k := t[i].HeldBy();
    MostRecentIsLast(t, k);
    assert MostRecentRow(t, k).Some?;
    var x :| 0 <= x < |t| && t[x] == MostRecentRow(t, k).value && t[x].HeldBy() == k
      && forall j :: x < j < |t| ==> t[j].HeldBy() != k;
    assert x == i;
  }

  lemma FoundIsTracked(t: Table, i: int)
    requires IsFound(t, i)
    ensures Tracked(t[i].owner)
  {
  }

  lemma {:induction false} ReceiversStay(t: Table, updates: seq<PositionUpdate>, i: nat)
    requires i < |t| && forall j :: 0 <= j < |updates| ==> updates[j].receiver.None?
    ensures |UpdateAll(t, updates)| == |t| && UpdateAll(t, updates)[i].receiver == t[i].receiver
    decreases |updates|
  {
    if updates != [] {
      ReceiversStay(UpdateRows(t, updates[0]), updates[1..], i);
    }
  }

  /** Only withdrawals note a receiver, and a withdrawal that leaves something also opens the next row. */
  lemma ClaimsOfHandle(mode: Mode, t: Table, log: Log)
    requires Numbered(t) && Handle(t, log).Ok?
    ensures
      var ops := Executed(mode, Handle(t, log).value);
      && (!log.body.WithdrawRequested? ==> forall j :: 0 <= j < |ops.updates| ==> ops.updates[j].receiver.None?)
      && (log.body.WithdrawRequested? ==>
            && |ops.updates| <= 1 && |ops.inserts| <= 1
            && (ops.updates != [] ==> AimsAtHolder(t, ops.updates[0], Holder(log.vault, log.body.holder)))
            && (ops.updates != [] && !ops.updates[0].terminated ==>
                  ops.inserts != [] &&
                    Holder(ops.inserts[0].vault, ops.inserts[0].owner) == Holder(log.vault, log.body.holder)))
  {
    hide Numbered, Handle, IsHalf, Lookup, MaxIndexId, UpdateGain;
    var credit, debit := HandleHalves(t, log);
    var maxId := MaxIndexId(t, log.vault);
    if Credited(log).Some? {
      HalfGain(t, Credited(log).value, credit, log, true, None, maxId);
    }
    if Debited(log).Some? {
      HalfGain(t, Debited(log).value, debit, log, false, ReceiverNoted(log), maxId + |credit.inserts|);
    }
  }

  ghost predicate AimsAtHolder(t: Table, u: PositionUpdate, k: Holder) {
    exists x :: IsFound(t, x) && t[x].HeldBy() == k && t[x].Id() == u.id
  }

  /** A row that can still be found after an event has no receiver. */
  lemma NotClaimed(mode: Mode, t: Table, log: Log, i: nat)
    requires i < |t| && Unclaimed(t, t[i].HeldBy())
    requires Numbered(t) && Step(mode, t, log).Ok? && Tracked(t[i].owner)
    requires !Frozen(Step(mode, t, log).value, i)
    ensures i < |Step(mode, t, log).value| && Step(mode, t, log).value[i].receiver.None?
  {
    hide Numbered, Handle, Lookup, MaxIndexId, Sound, Tracked;
    var ops, u := Executed(mode, Handle(t, log).value), Step(mode, t, log).value;
    HandleIsSound(t, log);
    FirstIsSound(t, log.vault, Handle(t, log).value);
    SoundExecuted(t, log.vault, ops);
    if Frozen(t, i) { ExtendsFrozen(t, u, i); }
    LastIsFound(t, i);
    ClaimsOfHandle(mode, t, log);
    UpdateAllKeepsShape(t, ops.updates);
    assert ops.inserts != [] ==> u[|t|] == InsertedRow(ops.inserts[0]);
    if !log.body.WithdrawRequested? {
      ReceiversStay(t, ops.updates, i);
    } else if ops.updates != [] && ops.updates[0].id == t[i].Id() {
      UpdateAllOne(t, ops.updates);
      var x :| IsFound(t, x) && t[x].HeldBy() == Holder(log.vault, log.body.holder) && t[x].Id() == ops.updates[0].id;
      SameIdSameRow(t, i, x);
    } else {
      UpdateAllAt(t, ops.updates, i);
    }
  }

  /** A found row of the later table that the event did not claim was found before, or is new. */
  lemma UnclaimedStays(mode: Mode, t: Table, log: Log, k: Holder)
    requires Numbered(t) && Unclaimed(t, k) && Step(mode, t, log).Ok?
    ensures Unclaimed(Step(mode, t, log).value, k)
  {
    hide Numbered, Handle, ApplyAll, Lookup, MaxIndexId, Sound, Tracked, Frozen;
    var ops := Executed(mode, Handle(t, log).value);
    HandleIsSound(t, log);
    FirstIsSound(t, log.vault, Handle(t, log).value);
    SoundExecuted(t, log.vault, ops);
    StepExtends(mode, t, log);
    var u := Step(mode, t, log).value;
    UpdateAllKeepsShape(t, ops.updates);
    forall i | IsFound(u, i) && u[i].HeldBy() == k ensures u[i].receiver.None? {
      FoundIsNotFrozen(u, i);
      FoundIsTracked(u, i);
      if i < |t| {
        assert SameRecord(t[i], u[i]);
        NotClaimed(mode, t, log, i);
      }
    }
  }

  /** Over a whole run, the tally is the number of deposits and transfers: it can be read off the final table. */
  lemma {:induction false} TallyCountsMoves(events: seq<Log>, k: Holder)
    requires Run(Complete, events).Ok? && forall i :: 0 <= i < |events| ==> !IsSelfTransfer(events[i])
    ensures Numbered(Run(Complete, events).value) && Unclaimed(Run(Complete, events).value, k)
    ensures TallyOf(Run(Complete, events).value, k) == Moves(events, k)
  {
    hide Step, Unclaimed, Numbered, IsSelfTransfer, MovesOn;
    if events == [] {
      NothingIsUnclaimed(k);
    } else {
      var init, last := events[..|events| - 1], events[|events| - 1];
      TallyCountsMoves(init, k);
      var t := Run(Complete, init).value;
      TallyStep(t, last, k);
      UnclaimedStays(Complete, t, last, k);
      StepExtends(Complete, t, last);
    }
  }

  lemma NothingIsUnclaimed(k: Holder)
    ensures Unclaimed([], k) && Numbered([])
  {
  }
}
