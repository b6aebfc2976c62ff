/**
  What one event does to a table row by row, for any table with unique ids: also for tables that a cleanup or a
  partly executed event has put out of order.
*/
module Rows {
  import opened Chain
  import opened Decimal
  import opened Rounding
  import opened Positions
  import opened Replay
  import opened Ledger
  import opened Effects

  function Lookup(t: Table, k: Holder): Option<Row> {
    GetMostRecentPosition(t, k.owner, k.vault)
  }

  /** Row i is what a lookup of its holder finds. */
  ghost predicate IsFound(t: Table, i: int) {
    0 <= i < |t| && Lookup(t, t[i].HeldBy()) == Some(t[i])
  }

  /** No lookup will ever find row i again: it is terminated or the holder has a later row. */
  ghost predicate Frozen(t: Table, i: int) {
    0 <= i < |t| && (t[i].terminated || exists j :: i < j < |t| && t[j].HeldBy() == t[i].HeldBy())
  }

  /** The row a lookup finds, by index: not terminated, and the holder's last. */
  lemma FoundIsLast(t: Table, k: Holder)
    requires Numbered(t)
    ensures Lookup(t, k).Some? ==> exists i :: IsFound(t, i) && t[i].HeldBy() == k && t[i] == Lookup(t, k).value
    ensures forall i :: IsFound(t, i) ==> !Frozen(t, i)
  {
    hide Numbered, Tracked;
    MostRecentIsLast(t, k);
    forall i | IsFound(t, i) ensures !Frozen(t, i) {
      FoundIsNotFrozen(t, i);
    }
  }

  lemma FoundIsNotFrozen(t: Table, i: int)
    requires Numbered(t) && IsFound(t, i)
    ensures !Frozen(t, i)
  {
    hide Tracked, MostRecentRow;
    var k := t[i].HeldBy();
    MostRecentIsLast(t, k);
    var x :| 0 <= x < |t| && t[x] == MostRecentRow(t, k).value && t[x].HeldBy() == k
      && forall j :: x < j < |t| ==> t[j].HeldBy() != k;
    SameIdSameRow(t, i, x);
  }

  lemma SameIdSameRow(t: Table, i: int, j: int)
    requires Numbered(t) && 0 <= i < |t| && 0 <= j < |t| && t[i].Id() == t[j].Id()
    ensures i == j
  {
    if i < j { IdsIncrease(t, i, j); }
    if j < i { IdsIncrease(t, j, i); }
  }

  // ------------------------------------------------------------- the halves

  /** The part of an event's operations that concerns one holder. */
  ghost predicate IsHalf(
    t: Table, k: Holder, half: Operations, log: Log, isAddition: bool, receiver: Option<Address>, maxId: int) {
    var found, amount := Lookup(t, k), AmountText(Shares(log));
    if found.None? then
      var opening := Operations([PositionInsert(maxId + 1, k.vault, k.owner, amount, log.block)], []);
      half == if isAddition then opening else NO_OPERATIONS
    else
      var change := ChangeOf(UpdateInput(found, k.owner, amount, log.block, isAddition, receiver), maxId);
      change.Ok? && half == ChangeToOperations(change.value)
  }

  /** Whom an event credits, and whom it debits. */
  function Credited(log: Log): Option<Holder> {
    match log.body
    case Deposit(sender, _, _) => Some(Holder(log.vault, sender))
    case Transfer(_, to, _) => if IsRealTransfer(log) then Some(Holder(log.vault, to)) else None
    case _ => None
  }

  function Debited(log: Log): Option<Holder> {
    match log.body
    case Transfer(from, _, _) => if IsRealTransfer(log) then Some(Holder(log.vault, from)) else None
    case WithdrawRequested(holder, _, _, _) => Some(Holder(log.vault, holder))
    case _ => None
  }

  function ReceiverNoted(log: Log): Option<Address> {
    if log.body.WithdrawRequested? then Some(log.body.receiver) else None
  }

  predicate Concerns(log: Log, k: Holder) {
    Credits(log, k) || Debits(log, k)
  }

  lemma ConcernsMeans(log: Log, k: Holder)
    ensures Credits(log, k) <==> Credited(log) == Some(k)
    ensures Debits(log, k) <==> Debited(log) == Some(k)
  {
  }

  /** The halves of an event that goes through; a half without a holder is empty. */
  ghost predicate AreHalves(t: Table, log: Log, credit: Operations, debit: Operations) {
    var maxId := MaxIndexId(t, log.vault);
    && (if Credited(log).Some?
        then IsHalf(t, Credited(log).value, credit, log, true, None, maxId)
        else credit == NO_OPERATIONS)
    && (if Debited(log).Some?
        then IsHalf(t, Debited(log).value, debit, log, false, ReceiverNoted(log), maxId + |credit.inserts|)
        else debit == NO_OPERATIONS)
  }

  lemma NothingCombined(ops: Operations)
    ensures Combine(ops, NO_OPERATIONS) == ops && Combine(NO_OPERATIONS, ops) == ops
  {
    assert ops.inserts + [] == ops.inserts == [] + ops.inserts && ops.updates + [] == ops.updates == [] + ops.updates;
  }

  lemma LookupIsHeld(t: Table, k: Holder)
    ensures Lookup(t, k).Some? ==> Lookup(t, k).value.HeldBy() == k && !Lookup(t, k).value.terminated
  {
    hide Tracked;
    FoundRowIsHeld(t, k);
  }

  lemma {:induction false} FoundRowIsHeld(t: Table, holder: Holder)
    ensures MostRecentRow(t, holder).Some? ==> MostRecentRow(t, holder).value.HeldBy() == holder
  {
    if t != [] {
      FoundRowIsHeld(t[..|t| - 1], holder);
    }
  }

  /** What an event asks for, taken apart. */
  lemma HandleHalves(t: Table, log: Log) returns (credit: Operations, debit: Operations)
    requires Handle(t, log).Ok?
    ensures AreHalves(t, log, credit, debit) && Handle(t, log).value == Combine(credit, debit)
    ensures IsRealTransfer(log) ==> Lookup(t, Holder(log.vault, log.body.from)).Some?
  {
    hide ChangeOf, AmountText, MaxIndexId, GetMostRecentPosition;
    var ops := Handle(t, log).value;
    NothingCombined(ops);
    match log.body
    case Deposit(sender, _, _) =>
      credit, debit := ops, NO_OPERATIONS;
    case Transfer(from, to, value) =>
      if IsRealTransfer(log) {
        credit, debit := TransferSplit(t, log);
      } else {
        credit, debit := NO_OPERATIONS, NO_OPERATIONS;
      }
    case WithdrawRequested(holder, _, _, _) =>
      WithdrawOfNothing(t, log);
      credit, debit := NO_OPERATIONS, ops;
    case RateUpdated(_) | OtherEvent(_) =>
      credit, debit := NO_OPERATIONS, NO_OPERATIONS;
  }

  lemma WithdrawOfNothing(t: Table, log: Log)
    requires log.body.WithdrawRequested?
    ensures Lookup(t, Holder(log.vault, log.body.holder)).None? ==>
      Handle(t, log) == if RoundToFloat64(log.body.id) >= INT64_LIMIT then Err(BadWithdrawId) else Ok(NO_OPERATIONS)
  {
    hide GetMostRecentPosition, MaxIndexId, AmountText;
  }

  lemma TransferSplit(t: Table, log: Log) returns (credit: Operations, debit: Operations)
    requires Handle(t, log).Ok? && IsRealTransfer(log)
    ensures AreHalves(t, log, credit, debit) && Handle(t, log).value == Combine(credit, debit)
    ensures Lookup(t, Holder(log.vault, log.body.from)).Some?
  {
    hide ChangeOf, AmountText, MaxIndexId, GetMostRecentPosition;
    LookupIsHeld(t, Holder(log.vault, log.body.to));
    var m := MovementOf(log);
    var from, to := GetMostRecentPosition(t, m.sender, m.vault), GetMostRecentPosition(t, m.receiver, m.vault);
    var maxId := MaxIndexId(t, log.vault);
    credit := ReceiverOperations(m, to, maxId).value;
    var change := ChangeOf(UpdateInput(from, m.sender, m.amount, m.block, false, None), maxId + |credit.inserts|);
    debit := ChangeToOperations(change.value);
  }

  // ------------------------------------------------- executing sound changes

  /** Updates aim at found rows, and inserts take the ids after the vault's greatest. */
  ghost predicate Sound(t: Table, vault: Address, ops: Operations) {
    && (forall j :: 0 <= j < |ops.updates| ==> AimsAtFound(t, ops.updates[j]))
    && (forall j :: 0 <= j < |ops.inserts| ==>
          ops.inserts[j].vault == vault && ops.inserts[j].indexId == MaxIndexId(t, vault) + 1 + j)
  }

  ghost predicate AimsAtFound(t: Table, u: PositionUpdate) {
    exists i :: IsFound(t, i) && t[i].Id() == u.id
  }

  lemma HalfIsSound(
    t: Table, k: Holder, half: Operations, log: Log, isAddition: bool, receiver: Option<Address>, maxId: int)
    requires Numbered(t) && IsHalf(t, k, half, log, isAddition, receiver, maxId)
    ensures forall j :: 0 <= j < |half.updates| ==> AimsAtFound(t, half.updates[j])
    ensures |half.inserts| <= 1 && |half.updates| <= 1
    ensures half.inserts != [] ==>
      half.inserts[0].vault == k.vault && half.inserts[0].indexId == maxId + 1 && half.inserts[0].owner == k.owner
      && half.inserts[0].start == log.block
  {
    hide ComputeNewAmountShares, AmountText, GetMostRecentPosition, Numbered;
    LookupIsHeld(t, k);
    FoundIsLast(t, k);
  }

  lemma HandleIsSound(t: Table, log: Log)
    requires Numbered(t) && Handle(t, log).Ok?
    ensures Sound(t, log.vault, Handle(t, log).value)
  {
    hide Numbered, IsHalf, Handle, AimsAtFound, MaxIndexId;
    var credit, debit := HandleHalves(t, log);
    var maxId := MaxIndexId(t, log.vault);
    if Credited(log).Some? {
      HalfIsSound(t, Credited(log).value, credit, log, true, None, maxId);
    }
    if Debited(log).Some? {
      HalfIsSound(t, Debited(log).value, debit, log, false, ReceiverNoted(log), maxId + |credit.inserts|);
    }
  }

  /** Same row, possibly closed since. */
  ghost predicate SameRecord(r: Row, s: Row) {
    s.HeldBy() == r.HeldBy() && s.indexId == r.indexId && s.amount == r.amount && s.start == r.start
  }

  /** A later table keeps all rows in place, and frozen rows exactly as they are. */
  ghost predicate Extends(t: Table, u: Table) {
    && |t| <= |u|
    && (forall i :: 0 <= i < |t| ==> SameRecord(t[i], u[i]))
    && (forall i {:trigger Frozen(t, i)} :: Frozen(t, i) ==> u[i] == t[i])
  }

  lemma {:induction false} UpdateAllAt(t: Table, updates: seq<PositionUpdate>, i: nat)
    requires i < |t|
    ensures |UpdateAll(t, updates)| == |t| && SameRecord(t[i], UpdateAll(t, updates)[i])
    ensures (forall j :: 0 <= j < |updates| ==> updates[j].id != t[i].Id()) ==> UpdateAll(t, updates)[i] == t[i]
    decreases |updates|
  {
    if updates != [] {
      UpdateAllAt(UpdateRows(t, updates[0]), updates[1..], i);
    }
  }

  /** Executing sound operations keeps ids in order and frozen rows as they are, and appends the inserted rows. */
  lemma SoundExecuted(t: Table, vault: Address, ops: Operations)
    requires Numbered(t) && Sound(t, vault, ops)
    ensures
      var u := ApplyAll(t, ops);
      && u == UpdateAll(t, ops.updates) + InsertedRows(ops.inserts)
      && Numbered(u) && Extends(t, u)
  {
    hide MaxIndexId, IsFound, Lookup;
    var u := ApplyAll(t, ops);
    var rest := InsertedRows(ops.inserts);
    forall i, j | 0 <= i < |rest| && 0 <= j < |ops.updates| ensures rest[i].Id() != ops.updates[j].id {
      assert AimsAtFound(t, ops.updates[j]);
      var x := AimedAt(t, ops.updates[j]);
      MaxIdBounds(t, x);
    }
    UpdateAllSkips(t, rest, ops.updates);
    UpdateAllKeepsShape(t, ops.updates);
    AppendAllNumbered(t, vault, ops.inserts);
    ClosingIsNumbered(t + rest, u);
    forall i | 0 <= i < |t| ensures SameRecord(t[i], u[i]) && (Frozen(t, i) ==> u[i] == t[i]) {
      if Frozen(t, i) { FrozenIsMissed(t, ops.updates, i); }
      UpdateAllAt(t, ops.updates, i);
    }
  }

  lemma AimedAt(t: Table, u: PositionUpdate) returns (x: nat)
    requires AimsAtFound(t, u)
    ensures IsFound(t, x) && t[x].Id() == u.id
  {
    x :| IsFound(t, x) && t[x].Id() == u.id;
  }

  lemma FrozenIsMissed(t: Table, updates: seq<PositionUpdate>, i: nat)
    requires Numbered(t) && i < |t| && Frozen(t, i)
    requires forall j :: 0 <= j < |updates| ==> AimsAtFound(t, updates[j])
    ensures forall j :: 0 <= j < |updates| ==> updates[j].id != t[i].Id()
  {
    forall j | 0 <= j < |updates| ensures updates[j].id != t[i].Id() {
      var x := AimedAt(t, updates[j]);
      FoundIsNotFrozen(t, x);
      if t[i].Id() == t[x].Id() { SameIdSameRow(t, i, x); }
    }
  }

  lemma {:induction false} AppendAllNumbered(t: Table, vault: Address, inserts: seq<PositionInsert>)
    requires Numbered(t)
    requires forall j :: 0 <= j < |inserts| ==>
      inserts[j].vault == vault && inserts[j].indexId == MaxIndexId(t, vault) + 1 + j
    ensures Numbered(t + InsertedRows(inserts))
    ensures MaxIndexId(t + InsertedRows(inserts), vault) == MaxIndexId(t, vault) + |inserts|
  {
    if inserts == [] {
      assert t + InsertedRows(inserts) == t;
    } else {
      var init := inserts[..|inserts| - 1];
      AppendAllNumbered(t, vault, init);
      var u, r := t + InsertedRows(init), InsertedRow(inserts[|inserts| - 1]);
      AppendIsNumbered(u, r);
      assert t + InsertedRows(inserts) == u + [r];
      assert (u + [r])[..|u|] == u;
    }
  }

  // ------------------------------------------------------------------ steps

  lemma FirstIsSound(t: Table, vault: Address, ops: Operations)
    requires Sound(t, vault, ops)
    ensures Sound(t, vault, Operations(FirstOf(ops.inserts), FirstOf(ops.updates)))
  {
    hide MaxIndexId;
  }

  /** What reaches the table of an event's operations. */
  function Executed(mode: Mode, ops: Operations): Operations {
    match mode
    case Complete => ops
    case FirstOnly => Operations(FirstOf(ops.inserts), FirstOf(ops.updates))
  }

  /** Any event, executed in full or in part, extends any table with unique ids. */
  lemma StepExtends(mode: Mode, t: Table, log: Log)
    requires Numbered(t) && Step(mode, t, log).Ok?
    ensures Numbered(Step(mode, t, log).value) && Extends(t, Step(mode, t, log).value)
  {
    hide Numbered, Handle, ApplyAll, Sound, Extends;
    HandleIsSound(t, log);
    FirstIsSound(t, log.vault, Handle(t, log).value);
    SoundExecuted(t, log.vault, Executed(mode, Handle(t, log).value));
  }

  lemma ExtendsFrozen(t: Table, u: Table, i: int)
    requires Extends(t, u) && Frozen(t, i)
    ensures Frozen(u, i) && u[i] == t[i]
  {
    assert SameRecord(t[i], u[i]);
    if !t[i].terminated {
      var j :| i < j < |t| && t[j].HeldBy() == t[i].HeldBy();
      assert SameRecord(t[j], u[j]);
    }
  }

  lemma ExtendsTwice(t: Table, u: Table, w: Table)
    requires Extends(t, u) && Extends(u, w)
    ensures Extends(t, w)
  {
    forall i | 0 <= i < |t| ensures SameRecord(t[i], w[i]) {
      assert SameRecord(t[i], u[i]) && SameRecord(u[i], w[i]);
    }
    forall i | Frozen(t, i) ensures w[i] == t[i] {
      ExtendsFrozen(t, u, i);
    }
  }

  lemma ExtendsItself(t: Table)
    ensures Extends(t, t)
  {
  }

  lemma {:induction false} RunExtends(mode: Mode, t: Table, events: seq<Log>)
    requires Numbered(t) && RunFrom(mode, t, events).Ok?
    ensures Numbered(RunFrom(mode, t, events).value) && Extends(t, RunFrom(mode, t, events).value)
  {
    hide Numbered, Step, Extends;
    if events == [] {
      ExtendsItself(t);
    } else {
      var init := events[..|events| - 1];
      RunExtends(mode, t, init);
      var u := RunFrom(mode, t, init).value;
      StepExtends(mode, u, events[|events| - 1]);
      ExtendsTwice(t, u, RunFrom(mode, t, events).value);
    }
  }
}
