/**
  Rows that the cleanup as written leaves closed. Such a stale row was closed by the orphaned block right after the
  last consistent one. Later events of the canonical chain can make up for it, and this says exactly which ones do.
*/
module Healing {
  import opened Chain
  import opened Decimal
  import opened Rounding
  import opened Positions
  import opened Replay
  import opened Ledger
  import opened Effects
  import opened TimeTravel
  import opened Rollback
  import opened Rows
  import opened Tally

  /** Row x is row y, which is open, but for having been closed at the height. */
  ghost predicate Stale(x: Row, y: Row, height: int) {
    && y.IsOpen() && !y.terminated && y.receiver.None?
    && x == y.(end := Some(height), terminated := x.terminated, receiver := x.receiver)
  }

  /** Table t is table u with some open rows stale. */
  ghost predicate StaleVersion(t: Table, u: Table, height: int) {
    |t| == |u| && forall i :: 0 <= i < |t| ==> t[i] == u[i] || Stale(t[i], u[i], height)
  }

  ghost predicate StaleAt(t: Table, u: Table, i: int, height: int) {
    0 <= i < |t| && i < |u| && Stale(t[i], u[i], height)
  }

  /**
    What makes up for a stale row when it is the first event of its holder: a withdrawal, or any event if no receiver
    was noted; a terminated row only by the very withdrawal that would have terminated it in that block.
  */
  predicate HealedBy(r: Row, log: Log, height: int) {
    if r.terminated then
      && log.body.WithdrawRequested? && log.block == height + 1
      && RoundToFloat64(log.body.shares) >= AmountOf(r) && r.receiver == Some(log.body.receiver)
    else log.body.WithdrawRequested? || r.receiver.None?
  }

  /** The first event of the holder makes up for the row. */
  predicate Healed(r: Row, events: seq<Log>, height: int) {
    events != [] &&
    if Concerns(events[0], r.HeldBy()) then HealedBy(r, events[0], height) else Healed(r, events[1..], height)
  }

  // ---------------------------------------------------------------- lookups

  lemma StaleIsNumbered(t: Table, u: Table, height: int)
    requires Numbered(u) && StaleVersion(t, u, height)
    ensures Numbered(t)
  {
    hide Numbered;
    forall i | 0 <= i < |t| ensures t[i].Id() == u[i].Id() {
    }
    ClosingIsNumbered(u, t);
  }

  /** A stale row is its holder's last; it is found in the one table, and in the other unless it is terminated. */
  lemma StaleLookup(t: Table, u: Table, tip: int, i: int, height: int)
    requires Valid(u, tip) && StaleVersion(t, u, height) && StaleAt(t, u, i, height)
    ensures IsFound(u, i) && OpenAt(u, i, u[i].HeldBy()) && forall j :: i < j < |u| ==> u[j].HeldBy() != u[i].HeldBy()
    ensures t[i].terminated ==> Lookup(t, t[i].HeldBy()).None?
    ensures !t[i].terminated ==> IsFound(t, i)
  {
    hide Tracked, Lookup;
    StaleIsNumbered(t, u, height);
    forall j | i < j < |u| ensures u[j].HeldBy() != u[i].HeldBy() {
      assert Apart(u, i, j);
    }
    LastIsFound(u, i);
    if t[i].terminated {
      TerminatedIsNotFound(t, i);
    } else {
      LastIsFound(t, i);
    }
  }

  lemma TerminatedIsNotFound(t: Table, i: int)
    requires Numbered(t) && 0 <= i < |t| && t[i].terminated
    requires forall j :: i < j < |t| ==> t[j].HeldBy() != t[i].HeldBy()
    ensures Lookup(t, t[i].HeldBy()).None?
  {
    hide Tracked;
    MostRecentIsLast(t, t[i].HeldBy());
  }

  ghost predicate IsLastOf(t: Table, x: int, k: Holder) {
    0 <= x < |t| && t[x].HeldBy() == k && forall j :: x < j < |t| ==> t[j].HeldBy() != k
  }

  lemma LastOf(t: Table, k: Holder) returns (x: int)
    requires Numbered(t)
    ensures MostRecentRow(t, k).Some? ==> IsLastOf(t, x, k) && t[x] == MostRecentRow(t, k).value
    ensures MostRecentRow(t, k).None? ==> forall i :: 0 <= i < |t| ==> t[i].HeldBy() != k
  {
    hide Numbered, MostRecentRow;
    MostRecentIsLast(t, k);
    x := 0;
    if MostRecentRow(t, k).Some? {
      x :| 0 <= x < |t| && t[x] == MostRecentRow(t, k).value && t[x].HeldBy() == k
        && forall j :: x < j < |t| ==> t[j].HeldBy() != k;
    }
  }

  lemma LastOfBoth(t: Table, u: Table, x: int, y: int, k: Holder)
    requires |t| == |u| && forall i :: 0 <= i < |t| ==> t[i].HeldBy() == u[i].HeldBy()
    requires IsLastOf(t, x, k) && IsLastOf(u, y, k)
    ensures x == y
  {
    assert u[x].HeldBy() == k && t[y].HeldBy() == k;
  }

  /** Without a stale row of the holder both lookups give the same row. */
  lemma OtherLookup(t: Table, u: Table, k: Holder, height: int)
    requires Numbered(u) && StaleVersion(t, u, height)
    requires forall i :: StaleAt(t, u, i, height) ==> t[i].HeldBy() != k
    ensures Lookup(t, k) == Lookup(u, k)
  {
    hide Tracked, Numbered, MostRecentRow, IsLastOf;
    StaleIsNumbered(t, u, height);
    var x := LastOf(t, k);
    var y := LastOf(u, k);
    if MostRecentRow(t, k).Some? && MostRecentRow(u, k).Some? {
      LastOfBoth(t, u, x, y, k);
      LastInRange(t, x, k);
      assert !StaleAt(t, u, x, height);
    } else if MostRecentRow(t, k).Some? {
      LastInRange(t, x, k);
    } else if MostRecentRow(u, k).Some? {
      LastInRange(u, y, k);
    }
  }

  lemma LastInRange(t: Table, x: int, k: Holder)
    requires IsLastOf(t, x, k)
    ensures 0 <= x < |t| && t[x].HeldBy() == k
  {
  }

  /** As far as an event's computations go, the two lookups give the same. */
  ghost predicate AskTheSame(t: Table, u: Table, k: Holder) {
    var a, b := Lookup(t, k), Lookup(u, k);
    && (a.None? <==> b.None?)
    && (a.Some? ==>
      a.value.Id() == b.value.Id() && a.value.amount == b.value.amount && !a.value.terminated && !b.value.terminated)
  }

  lemma LookupsAskTheSame(t: Table, u: Table, tip: int, k: Holder, height: int)
    requires Valid(u, tip) && StaleVersion(t, u, height)
    requires forall i :: StaleAt(t, u, i, height) && t[i].HeldBy() == k ==> !t[i].terminated
    ensures AskTheSame(t, u, k)
  {
    hide Valid, Lookup, StaleVersion;
    LookupIsHeld(t, k);
    LookupIsHeld(u, k);
    if i :| StaleAt(t, u, i, height) && t[i].HeldBy() == k {
      StaleLookup(t, u, tip, i, height);
    } else {
      NumberedOf(u, tip);
      OtherLookup(t, u, k, height);
    }
  }

  lemma NumberedOf(t: Table, tip: int)
    requires Valid(t, tip)
    ensures Numbered(t)
  {
  }

  lemma SameMaxId(t: Table, u: Table, vault: Address, height: int)
    requires StaleVersion(t, u, height)
    ensures MaxIndexId(t, vault) == MaxIndexId(u, vault)
  {
    CountIgnoresClosing(t, u, vault);
  }

  /** Asked the same, the computations ask for the same changes. */
  lemma ChangesAreTheSame(a: UpdateInput, b: UpdateInput, maxId: int)
    requires a.current.Some? && b.current.Some?
    requires b == a.(current := b.current)
    requires a.current.value.Id() == b.current.value.Id() && a.current.value.amount == b.current.value.amount
    ensures ChangeOf(a, maxId) == ChangeOf(b, maxId)
  {
    hide ComputeNewAmountShares;
  }

  lemma HandlesAreTheSame(t: Table, u: Table, tip: int, log: Log, height: int)
    requires Valid(u, tip) && StaleVersion(t, u, height)
    requires forall i :: StaleAt(t, u, i, height) && Concerns(log, t[i].HeldBy()) ==> !t[i].terminated
    ensures Handle(t, log) == Handle(u, log)
  {
    hide Valid, GetMostRecentPosition, MaxIndexId, AmountText, ChangeOf, StaleVersion, RoundToFloat64, StaleAt;
    SameMaxId(t, u, log.vault, height);
    forall k | Concerns(log, k) ensures AskTheSame(t, u, k) {
      LookupsAskTheSame(t, u, tip, k, height);
    }
    AnswersAreTheSame(t, u, log);
  }

  lemma AnswersAreTheSame(t: Table, u: Table, log: Log)
    requires MaxIndexId(t, log.vault) == MaxIndexId(u, log.vault)
    requires forall k :: Concerns(log, k) ==> AskTheSame(t, u, k)
    ensures Handle(t, log) == Handle(u, log)
  {
    hide GetMostRecentPosition, MaxIndexId, AmountText, ChangeOf, RoundToFloat64;
    var maxId, amount := MaxIndexId(t, log.vault), AmountText(Shares(log));
    forall k, isAddition, receiver, id | Concerns(log, k) && Lookup(t, k).Some?
      ensures ChangeOf(UpdateInput(Lookup(t, k), k.owner, amount, log.block, isAddition, receiver), id)
           == ChangeOf(UpdateInput(Lookup(u, k), k.owner, amount, log.block, isAddition, receiver), id)
    {
      var a := UpdateInput(Lookup(t, k), k.owner, amount, log.block, isAddition, receiver);
      ChangesAreTheSame(a, a.(current := Lookup(u, k)), id);
    }
    match log.body
    case Deposit(sender, _, _) =>
      assert AskTheSame(t, u, Holder(log.vault, sender));
    case Transfer(from, to, _) =>
      if IsRealTransfer(log) {
        assert AskTheSame(t, u, Holder(log.vault, from)) && AskTheSame(t, u, Holder(log.vault, to));
      }
    case WithdrawRequested(holder, _, _, _) =>
      assert AskTheSame(t, u, Holder(log.vault, holder));
    case RateUpdated(_) | OtherEvent(_) =>
  }

  // ------------------------------------------------------------ one healing

  lemma {:induction false} UpdateAllAgrees(t: Table, u: Table, updates: seq<PositionUpdate>, i: nat)
    requires i < |t| == |u| && t[i] == u[i]
    ensures |UpdateAll(t, updates)| == |UpdateAll(u, updates)| == |t|
    ensures UpdateAll(t, updates)[i] == UpdateAll(u, updates)[i]
    decreases |updates|
  {
    if updates != [] {
      UpdateAllAgrees(UpdateRows(t, updates[0]), UpdateRows(u, updates[0]), updates[1..], i);
    }
  }

  /** An update of a stale row overwrites everything that is stale, unless a receiver stays behind. */
  lemma {:induction false} UpdateAllMeets(t: Table, u: Table, updates: seq<PositionUpdate>, i: nat, height: int)
    requires |t| == |u| && StaleAt(t, u, i, height)
    requires exists j :: 0 <= j < |updates| && updates[j].id == t[i].Id()
    requires t[i].receiver.None? || forall j :: 0 <= j < |updates| ==> updates[j].receiver.Some?
    ensures |UpdateAll(t, updates)| == |UpdateAll(u, updates)| == |t|
    ensures UpdateAll(t, updates)[i] == UpdateAll(u, updates)[i]
    decreases |updates|
  {
    var a, b := UpdateRows(t, updates[0]), UpdateRows(u, updates[0]);
    if updates[0].id == t[i].Id() {
      UpdateAllAgrees(a, b, updates[1..], i);
    } else {
      var j :| 0 <= j < |updates| && updates[j].id == t[i].Id();
      assert updates[1..][j - 1] == updates[j];
      UpdateAllMeets(a, b, updates[1..], i, height);
    }
  }

  /** Every update notes the event's receiver and height and aims at the found row of a holder the event concerns. */
  ghost predicate UpdatesFit(t: Table, log: Log, ops: Operations) {
    forall j :: 0 <= j < |ops.updates| ==>
      && ops.updates[j].receiver == ReceiverNoted(log) && ops.updates[j].end == log.block - 1
      && AimsAtConcerned(t, log, ops, ops.updates[j])
  }

  ghost predicate AimsAtConcerned(t: Table, log: Log, ops: Operations, u: PositionUpdate) {
    exists x :: IsFound(t, x) && Concerns(log, t[x].HeldBy()) && t[x].Id() == u.id &&
      (u.terminated || IsOpened(ops, t[x].HeldBy()))
  }

  /** The holder gets a new row. */
  ghost predicate IsOpened(ops: Operations, k: Holder) {
    exists m :: 0 <= m < |ops.inserts| && Holder(ops.inserts[m].vault, ops.inserts[m].owner) == k
  }

  /** The found row of a holder is updated. */
  ghost predicate IsSettled(t: Table, ops: Operations, k: Holder)
    requires Lookup(t, k).Some?
  {
    exists j :: 0 <= j < |ops.updates| && ops.updates[j].id == Lookup(t, k).value.Id()
  }

  ghost predicate UpdateFits(t: Table, log: Log, ops: Operations, u: PositionUpdate) {
    u.receiver == ReceiverNoted(log) && u.end == log.block - 1 && AimsAtConcerned(t, log, ops, u)
  }

  /** One half of an event's operations, as part of all of them. */
  lemma HalfFits(t: Table, k: Holder, half: Operations, log: Log, isAddition: bool, maxId: int, ops: Operations)
    requires Numbered(t) && IsHalf(t, k, half, log, isAddition, ReceiverNoted(log), maxId) && Concerns(log, k)
    requires isAddition ==> ReceiverNoted(log).None?
    requires forall i :: i in half.inserts ==> i in ops.inserts
    requires forall u :: u in half.updates ==> u in ops.updates
    ensures forall u :: u in half.updates ==> UpdateFits(t, log, ops, u)
    ensures forall i :: i in half.inserts ==> i.start == log.block
    ensures Lookup(t, k).Some? ==> IsSettled(t, ops, k)
    ensures isAddition && Lookup(t, k).None? ==> IsOpened(ops, k)
  {
    hide Numbered, IsHalf, Lookup, UpdateGain, Concerns;
    HalfGain(t, k, half, log, isAddition, ReceiverNoted(log), maxId);
    HalfIsSound(t, k, half, log, isAddition, ReceiverNoted(log), maxId);
    LookupIsHeld(t, k);
    if half.inserts != [] {
      assert half.inserts[0] in ops.inserts;
      var m :| 0 <= m < |ops.inserts| && ops.inserts[m] == half.inserts[0];
    }
    if half.updates != [] {
      assert half.updates[0] in ops.updates;
      var j :| 0 <= j < |ops.updates| && ops.updates[j] == half.updates[0];
    }
  }

  lemma UpdatesOfHandle(t: Table, log: Log)
    requires Numbered(t) && Handle(t, log).Ok?
    ensures UpdatesFit(t, log, Handle(t, log).value)
    ensures forall k :: Concerns(log, k) && Lookup(t, k).Some? ==> IsSettled(t, Handle(t, log).value, k)
    ensures forall k :: Credits(log, k) && Lookup(t, k).None? ==> IsOpened(Handle(t, log).value, k)
    ensures forall i :: i in Handle(t, log).value.inserts ==> i.start == log.block
  {
    hide Numbered, Handle, IsHalf, Lookup, MaxIndexId, Credits, Debits, AimsAtConcerned, IsSettled, IsOpened;
    var credit, debit := HandleHalves(t, log);
    var ops, maxId := Combine(credit, debit), MaxIndexId(t, log.vault);
    forall k ensures (Credits(log, k) <==> Credited(log) == Some(k)) && (Debits(log, k) <==> Debited(log) == Some(k)) {
      ConcernsMeans(log, k);
    }
    if Credited(log).Some? {
      HalfFits(t, Credited(log).value, credit, log, true, maxId, ops);
    }
    if Debited(log).Some? {
      HalfFits(t, Debited(log).value, debit, log, false, maxId + |credit.inserts|, ops);
    }
    forall j | 0 <= j < |ops.updates| ensures UpdateFits(t, log, ops, ops.updates[j]) {
      assert ops.updates[j] in credit.updates || ops.updates[j] in debit.updates;
    }
  }

  /**
    Two tables after the same operations: new rows and unaffected rows agree, and a stale row meets its version when
    hit.
  */
  lemma SameOperations(t: Table, u: Table, vault: Address, ops: Operations)
    requires Numbered(t) && Numbered(u) && Sound(t, vault, ops) && Sound(u, vault, ops) && |t| == |u|
    ensures
      var a, b := ApplyAll(t, ops), ApplyAll(u, ops);
      && |a| == |b| && |t| <= |a|
      && |UpdateAll(t, ops.updates)| == |t| && |UpdateAll(u, ops.updates)| == |t|
      && (forall i :: 0 <= i < |t| ==> a[i] == UpdateAll(t, ops.updates)[i] && b[i] == UpdateAll(u, ops.updates)[i])
      && (forall i :: |t| <= i < |a| ==> a[i] == b[i])
  {
    hide Numbered, Sound, UpdateAll, Extends;
    SoundExecuted(t, vault, ops);
    SoundExecuted(u, vault, ops);
    UpdateAllKeepsShape(t, ops.updates);
    UpdateAllKeepsShape(u, ops.updates);
  }

  /** The stale rows after an event are those before it that it does not concern, unchanged. */
  ghost predicate StaleRemain(t: Table, u: Table, a: Table, b: Table, log: Log, height: int) {
    && StaleVersion(a, b, height)
    && |t| <= |a|
    && (forall i :: StaleAt(a, b, i, height) ==> StaleAt(t, u, i, height) && a[i] == t[i])
    && (forall i :: StaleAt(t, u, i, height) ==> (StaleAt(a, b, i, height) <==> !Concerns(log, t[i].HeldBy())))
  }

  /** A row the event does not concern is not updated. */
  lemma NotConcernedNotHit(u: Table, log: Log, ops: Operations, i: nat)
    requires Numbered(u) && UpdatesFit(u, log, ops) && i < |u| && !Concerns(log, u[i].HeldBy())
    ensures forall j :: 0 <= j < |ops.updates| ==> ops.updates[j].id != u[i].Id()
  {
    hide Numbered, Lookup;
    forall j | 0 <= j < |ops.updates| ensures ops.updates[j].id != u[i].Id() {
      assert AimsAtConcerned(u, log, ops, ops.updates[j]);
      var x :| IsFound(u, x) && Concerns(log, u[x].HeldBy()) && u[x].Id() == ops.updates[j].id;
      if u[x].Id() == u[i].Id() { SameIdSameRow(u, x, i); }
    }
  }

  lemma StaleRowAfter(t: Table, u: Table, tip: int, log: Log, ops: Operations, i: int, height: int)
    requires Valid(u, tip) && StaleVersion(t, u, height) && StaleAt(t, u, i, height)
    requires Handle(u, log) == Ok(ops)
    requires Concerns(log, t[i].HeldBy()) ==> HealedBy(t[i], log, height) && !t[i].terminated
    ensures |UpdateAll(t, ops.updates)| == |UpdateAll(u, ops.updates)| == |t|
    ensures Concerns(log, t[i].HeldBy()) ==> UpdateAll(t, ops.updates)[i] == UpdateAll(u, ops.updates)[i]
    ensures !Concerns(log, t[i].HeldBy()) ==>
      UpdateAll(t, ops.updates)[i] == t[i] && UpdateAll(u, ops.updates)[i] == u[i]
  {
    hide Valid, Handle, Lookup, UpdateAll, Concerns, IsFound;
    NumberedOf(u, tip);
    UpdatesOfHandle(u, log);
    UpdateAllKeepsShape(t, ops.updates);
    UpdateAllKeepsShape(u, ops.updates);
    if Concerns(log, t[i].HeldBy()) {
      StaleIsFound(t, u, tip, i, height);
      var j :| 0 <= j < |ops.updates| && ops.updates[j].id == Lookup(u, u[i].HeldBy()).value.Id();
      assert ReceiverNoted(log).None? ==> t[i].receiver.None?;
      UpdateAllMeets(t, u, ops.updates, i, height);
    } else {
      NotConcernedNotHit(u, log, ops, i);
      UpdateAllAt(t, ops.updates, i);
      UpdateAllAt(u, ops.updates, i);
    }
  }

  lemma StaleIsFound(t: Table, u: Table, tip: int, i: int, height: int)
    requires Valid(u, tip) && StaleVersion(t, u, height) && StaleAt(t, u, i, height)
    ensures Lookup(u, u[i].HeldBy()) == Some(u[i])
  {
    hide Lookup;
    StaleLookup(t, u, tip, i, height);
  }

  /** An event that concerns no terminated stale row and heals those it concerns. */
  lemma HealsOpenRows(t: Table, u: Table, tip: int, log: Log, height: int)
    requires Valid(u, tip) && StaleVersion(t, u, height) && Step(Complete, u, log).Ok?
    requires forall i :: StaleAt(t, u, i, height) && Concerns(log, t[i].HeldBy()) ==>
      HealedBy(t[i], log, height) && !t[i].terminated
    ensures Step(Complete, t, log).Ok?
    ensures StaleRemain(t, u, Step(Complete, t, log).value, Step(Complete, u, log).value, log, height)
  {
    hide Valid, Handle, Lookup, UpdateAll, Concerns, IsFound, Numbered, Sound, ApplyAll, HealedBy, Stale;
    NumberedOf(u, tip);
    StaleIsNumbered(t, u, height);
    HandlesAreTheSame(t, u, tip, log, height);
    var ops := Handle(u, log).value;
    HandleIsSound(t, log);
    HandleIsSound(u, log);
    SameOperations(t, u, log.vault, ops);
    var a, b := ApplyAll(t, ops), ApplyAll(u, ops);
    forall i | 0 <= i < |t| ensures RowRemains(t, u, a, b, log, i, height) {
      if t[i] == u[i] {
        UpdateAllAgrees(t, u, ops.updates, i);
        NotStale(t[i], height);
        NotStale(a[i], height);
      } else {
        StaleRowAfter(t, u, tip, log, ops, i, height);
        NotStale(a[i], height);
      }
    }
    forall i | |t| <= i < |a| ensures a[i] == b[i] && !Stale(a[i], b[i], height) {
      NotStale(a[i], height);
    }
    RowsRemain(t, u, a, b, log, height);
  }

  lemma NotStale(r: Row, height: int)
    ensures !Stale(r, r, height)
  {
  }

  ghost predicate RowRemains(t: Table, u: Table, a: Table, b: Table, log: Log, i: nat, height: int)
    requires i < |t| <= |a| && |t| == |u| && |a| == |b|
  {
    if StaleAt(t, u, i, height) && !Concerns(log, t[i].HeldBy()) then a[i] == t[i] && StaleAt(a, b, i, height)
    else a[i] == b[i] && !StaleAt(a, b, i, height)
  }

  lemma RowsRemain(t: Table, u: Table, a: Table, b: Table, log: Log, height: int)
    requires |t| == |u| && |a| == |b| && |t| <= |a|
    requires forall i :: 0 <= i < |t| ==> RowRemains(t, u, a, b, log, i, height)
    requires forall i :: |t| <= i < |a| ==> a[i] == b[i] && !Stale(a[i], b[i], height)
    ensures StaleRemain(t, u, a, b, log, height)
  {
    hide Concerns, Stale;
    forall i | StaleAt(t, u, i, height) ensures StaleAt(a, b, i, height) <==> !Concerns(log, t[i].HeldBy()) {
      assert RowRemains(t, u, a, b, log, i, height);
    }
    forall i | StaleAt(a, b, i, height) ensures StaleAt(t, u, i, height) && a[i] == t[i] {
      assert i < |t| ==> RowRemains(t, u, a, b, log, i, height);
    }
    forall i | 0 <= i < |a| ensures a[i] == b[i] || Stale(a[i], b[i], height) {
      assert i < |t| ==> RowRemains(t, u, a, b, log, i, height);
    }
  }

  /**
    A withdrawal of a holder whose row is terminated here and open there: nothing happens here, the row is closed there.
  */
  lemma WithdrawOnTerminated(t: Table, u: Table, tip: int, log: Log, i: int, height: int)
    requires Valid(u, tip) && log.block >= tip && StaleVersion(t, u, height) && StaleAt(t, u, i, height) &&
      t[i].terminated
    requires log.body.WithdrawRequested? && t[i].HeldBy() == Holder(log.vault, log.body.holder)
    requires RoundToFloat64(log.body.id) < INT64_LIMIT
    ensures Step(Complete, t, log) == Ok(t)
    ensures Step(Complete, u, log).Ok? && |u| <= |Step(Complete, u, log).value|
    ensures
      var next := Monus(AmountOf(t[i]), RoundToFloat64(log.body.shares));
      var b := Step(Complete, u, log).value;
      && b == Supersede(u, i, next, log.block, Some(log.body.receiver))
      && b[i] == ClosedRow(u[i], next == 0, log.block, Some(log.body.receiver))
  {
    hide Valid, Lookup, RoundToFloat64, MaxIndexId, Print, Supersede, AmountText, ApplyAll;
    var k := t[i].HeldBy();
    StaleLookup(t, u, tip, i, height);
    WithdrawOfNothing(t, log);
    NothingExecuted(t);
    StepMeaningOfWithdraw(u, tip, log, i);
    SupersededRow(u, i, Monus(AmountOf(t[i]), RoundToFloat64(log.body.shares)), log.block, Some(log.body.receiver));
  }

  lemma NothingExecuted(t: Table)
    ensures ApplyAll(t, NO_OPERATIONS) == t
  {
    assert t + InsertedRows([]) == t;
    NoUpdates(t);
  }

  lemma SupersededRow(t: Table, x: nat, amount: nat, block: Height, receiver: Option<Address>)
    requires x < |t|
    ensures |t| <= |Supersede(t, x, amount, block, receiver)|
    ensures Supersede(t, x, amount, block, receiver)[x] == ClosedRow(t[x], amount == 0, block, receiver)
  {
    hide MaxIndexId, Print;
  }

  lemma StepMeaningOfWithdraw(u: Table, tip: int, log: Log, i: int)
    requires Valid(u, tip) && log.block >= tip && log.body.WithdrawRequested?
    requires OpenAt(u, i, Holder(log.vault, log.body.holder)) && RoundToFloat64(log.body.id) < INT64_LIMIT
    ensures Step(Complete, u, log)
         == Ok(Supersede(u, i, Monus(AmountOf(u[i]), RoundToFloat64(log.body.shares)), log.block,
           Some(log.body.receiver)))
  {
    hide Valid, RoundToFloat64, Step, Supersede, AmountOf;
    var k := Holder(log.vault, log.body.holder);
    OpenIsUnique(u, tip, k, i);
    StepMeaning(u, tip, log);
  }

  lemma OpenIsUnique(u: Table, tip: int, k: Holder, i: int)
    requires Valid(u, tip) && OpenAt(u, i, k)
    ensures HasOpen(u, k) && OpenIndex(u, k) == i
  {
    LookupFindsOpenRow(u, tip, k);
  }

  /** The withdrawal that terminated a row is repeated on the canonical chain, in the same block. */
  lemma HealsTerminatedRow(t: Table, u: Table, tip: int, log: Log, i: int, height: Height)
    requires Valid(u, tip) && log.block >= tip && StaleVersion(t, u, height) && StaleAt(t, u, i, height) &&
      t[i].terminated
    requires Concerns(log, t[i].HeldBy()) && HealedBy(t[i], log, height) && Step(Complete, u, log).Ok?
    ensures Step(Complete, t, log).Ok?
    ensures StaleRemain(t, u, Step(Complete, t, log).value, Step(Complete, u, log).value, log, height)
  {
    hide Valid, RoundToFloat64, MaxIndexId, Print, AmountText, Step, AmountOf;
    IdFits(u, log);
    WithdrawOnTerminated(t, u, tip, log, i, height);
    var b := Step(Complete, u, log).value;
    assert b == u[i := t[i]];
    forall j | 0 <= j < |t| ensures RowRemains(t, u, t, b, log, j, height) {
      if j != i && StaleAt(t, u, j, height) && Concerns(log, t[j].HeldBy()) {
        StaleLookup(t, u, tip, i, height);
        StaleLookup(t, u, tip, j, height);
      }
    }
    RowsRemain(t, u, t, b, log, height);
  }

  lemma IdFits(u: Table, log: Log)
    requires Step(Complete, u, log).Ok? && log.body.WithdrawRequested?
    ensures RoundToFloat64(log.body.id) < INT64_LIMIT
  {
    hide RoundToFloat64, AmountText, GetMostRecentPosition, MaxIndexId, WithdrawOperations, ApplyAll;
  }

  /** An event that heals every stale row it concerns. */
  lemma HealingStep(t: Table, u: Table, tip: int, log: Log, height: Height)
    requires Valid(u, tip) && log.block >= tip && StaleVersion(t, u, height) && Step(Complete, u, log).Ok?
    requires forall i :: StaleAt(t, u, i, height) && Concerns(log, t[i].HeldBy()) ==> HealedBy(t[i], log, height)
    ensures Step(Complete, t, log).Ok?
    ensures StaleRemain(t, u, Step(Complete, t, log).value, Step(Complete, u, log).value, log, height)
  {
    hide Valid, HealedBy, Step, StaleRemain, Concerns, StaleVersion;
    if i :| StaleAt(t, u, i, height) && Concerns(log, t[i].HeldBy()) && t[i].terminated {
      HealsTerminatedRow(t, u, tip, log, i, height);
    } else {
      HealsOpenRows(t, u, tip, log, height);
    }
  }

  // --------------------------------------------------------- lasting damage

  /** The tables differ in a row that neither will change any more, or in how many moves a holder's rows tell of. */
  ghost predicate ApartForGood(a: Table, b: Table) {
    && Numbered(a) && Numbered(b)
    && ((exists i :: Frozen(a, i) && Frozen(b, i) && a[i] != b[i])
        || exists k :: Unclaimed(a, k) && Unclaimed(b, k) && TallyOf(a, k) != TallyOf(b, k))
  }

  lemma ApartStep(a: Table, b: Table, log: Log)
    requires ApartForGood(a, b) && !IsSelfTransfer(log) && Step(Complete, a, log).Ok? && Step(Complete, b, log).Ok?
    ensures ApartForGood(Step(Complete, a, log).value, Step(Complete, b, log).value)
  {
    hide Numbered, Step, Unclaimed, TallyOf, Extends;
    var c, d := Step(Complete, a, log).value, Step(Complete, b, log).value;
    StepExtends(Complete, a, log);
    StepExtends(Complete, b, log);
    if i :| Frozen(a, i) && Frozen(b, i) && a[i] != b[i] {
      ExtendsFrozen(a, c, i);
      ExtendsFrozen(b, d, i);
    } else {
      var k :| Unclaimed(a, k) && Unclaimed(b, k) && TallyOf(a, k) != TallyOf(b, k);
      TallyStep(a, log, k);
      TallyStep(b, log, k);
      UnclaimedStays(Complete, a, log, k);
      UnclaimedStays(Complete, b, log, k);
    }
  }

  lemma {:induction false} ApartRuns(a: Table, b: Table, events: seq<Log>)
    requires ApartForGood(a, b) && RunFrom(Complete, b, events).Ok?
    requires forall i :: 0 <= i < |events| ==> !IsSelfTransfer(events[i])
    ensures RunFrom(Complete, a, events).Ok? ==>
      ApartForGood(RunFrom(Complete, a, events).value, RunFrom(Complete, b, events).value)
    ensures RunFrom(Complete, a, events) != RunFrom(Complete, b, events)
  {
    hide Step, Numbered, Unclaimed, TallyOf, Frozen, IsSelfTransfer;
    if events != [] {
      var init, last := events[..|events| - 1], events[|events| - 1];
      ApartRuns(a, b, init);
      if RunFrom(Complete, a, events).Ok? {
        ApartStep(RunFrom(Complete, a, init).value, RunFrom(Complete, b, init).value, last);
      }
    }
  }

  lemma {:induction false} UpdateAllTerminates(t: Table, updates: seq<PositionUpdate>, i: nat)
    requires i < |t| && (t[i].terminated || exists j :: 0 <= j < |updates| && updates[j].id == t[i].Id())
    requires forall j :: 0 <= j < |updates| && updates[j].id == t[i].Id() ==> updates[j].terminated
    ensures |UpdateAll(t, updates)| == |t| && UpdateAll(t, updates)[i].terminated
    decreases |updates|
  {
    if updates != [] {
      if updates[0].id != t[i].Id() && !t[i].terminated {
        var j :| 0 <= j < |updates| && updates[j].id == t[i].Id();
        assert updates[1..][j - 1] == updates[j];
      }
      UpdateAllTerminates(UpdateRows(t, updates[0]), updates[1..], i);
    }
  }

  lemma HitsTerminate(t: Table, log: Log, ops: Operations, i: nat)
    requires Numbered(t) && UpdatesFit(t, log, ops) && i < |t| && !IsOpened(ops, t[i].HeldBy())
    ensures forall j :: 0 <= j < |ops.updates| && ops.updates[j].id == t[i].Id() ==> ops.updates[j].terminated
  {
    hide Numbered, Lookup, IsOpened;
    forall j | 0 <= j < |ops.updates| && ops.updates[j].id == t[i].Id() ensures ops.updates[j].terminated {
      assert AimsAtConcerned(t, log, ops, ops.updates[j]);
      var x :| IsFound(t, x) && Concerns(log, t[x].HeldBy()) && t[x].Id() == ops.updates[j].id
        && (ops.updates[j].terminated || IsOpened(ops, t[x].HeldBy()));
      SameIdSameRow(t, x, i);
    }
  }

  /** A row of a holder the event concerns is settled for good. */
  lemma ConcernedFreezes(t: Table, log: Log, i: int)
    requires Numbered(t) && IsFound(t, i) && Concerns(log, t[i].HeldBy()) && Step(Complete, t, log).Ok?
    ensures Frozen(Step(Complete, t, log).value, i)
    ensures !log.body.WithdrawRequested? ==> Step(Complete, t, log).value[i].receiver == t[i].receiver
  {
    hide Numbered, Handle, Lookup, MaxIndexId, Sound, Concerns, Extends, UpdateAll;
    var ops, u := Handle(t, log).value, Step(Complete, t, log).value;
    var k := t[i].HeldBy();
    UpdatesOfHandle(t, log);
    HandleIsSound(t, log);
    SoundExecuted(t, log.vault, ops);
    UpdateAllKeepsShape(t, ops.updates);
    if !log.body.WithdrawRequested? {
      ReceiversStay(t, ops.updates, i);
    }
    assert IsSettled(t, ops, k);
    UpdateAllAt(t, ops.updates, i);
    if IsOpened(ops, k) {
      var m :| 0 <= m < |ops.inserts| && Holder(ops.inserts[m].vault, ops.inserts[m].owner) == k;
      assert u[|t| + m] == InsertedRow(ops.inserts[m]);
    } else {
      HitsTerminate(t, log, ops, i);
      UpdateAllTerminates(t, ops.updates, i);
    }
  }

  lemma {:induction false} TallySame(t: Table, u: Table, k: Holder)
    requires |t| == |u| && forall j :: 0 <= j < |t| ==> t[j] == u[j] || (t[j].HeldBy() != k && u[j].HeldBy() != k)
    ensures TallyOf(t, k) == TallyOf(u, k)
  {
    if t != [] {
      TallySame(t[..|t| - 1], u[..|u| - 1], k);
    }
  }

  /** A row terminated by a transfer of the orphaned chain can never be accounted for. */
  lemma TerminatedByTransfer(t: Table, u: Table, tip: int, i: int, height: int)
    requires Valid(u, tip) && StaleVersion(t, u, height) && StaleAt(t, u, i, height)
    requires t[i].terminated && t[i].receiver.None?
    ensures ApartForGood(t, u)
  {
    hide Valid, Lookup, Numbered, StaleVersion;
    NumberedOf(u, tip);
    StaleIsNumbered(t, u, height);
    StaleIsFound(t, u, tip, i, height);
    StaleLookup(t, u, tip, i, height);
    var k := t[i].HeldBy();
    OnlyStaleRow(t, u, tip, i, height);
    TallySame(t, u[i := t[i]], k);
    TallyReplace(u, i, t[i], k);
    assert Unclaimed(t, k) && Unclaimed(u, k);
  }

  lemma OnlyStaleRow(t: Table, u: Table, tip: int, i: int, height: int)
    requires Valid(u, tip) && StaleVersion(t, u, height) && StaleAt(t, u, i, height)
    ensures |t| == |u| && forall j :: 0 <= j < |t| && j != i ==>
      t[j] == u[j] || (t[j].HeldBy() != t[i].HeldBy() && u[j].HeldBy() != t[i].HeldBy())
  {
    hide Valid, Lookup;
    forall j | 0 <= j < |t| && j != i && t[j] != u[j] ensures t[j].HeldBy() != t[i].HeldBy() {
      StaleLookup(t, u, tip, i, height);
      StaleLookup(t, u, tip, j, height);
    }
  }

  lemma NoSenderNoTransfer(t: Table, log: Log)
    requires IsRealTransfer(log) && Lookup(t, Holder(log.vault, log.body.from)).None?
    ensures Step(Complete, t, log).Err?
  {
    hide Handle, Lookup, ApplyAll;
    if Handle(t, log).Ok? {
      var credit, debit := HandleHalves(t, log);
    }
  }

  /** An event that concerns a stale row without healing it fails, or sets the tables apart for good. */
  lemma HarmingStep(t: Table, u: Table, tip: int, log: Log, i: int, height: int)
    requires Valid(u, tip) && log.block >= tip && !IsSelfTransfer(log) && StaleVersion(t, u, height) &&
      StaleAt(t, u, i, height)
    requires Concerns(log, t[i].HeldBy()) && !HealedBy(t[i], log, height)
    requires Step(Complete, u, log).Ok? && Step(Complete, t, log).Ok?
    ensures ApartForGood(Step(Complete, t, log).value, Step(Complete, u, log).value)
  {
    hide Valid, Lookup, Numbered, StaleVersion, Step, RoundToFloat64, Extends, Unclaimed, TallyOf, AmountOf;
    NumberedOf(u, tip);
    StaleIsNumbered(t, u, height);
    StaleLookup(t, u, tip, i, height);
    StepExtends(Complete, t, log);
    StepExtends(Complete, u, log);
    ConcernedFreezes(u, log, i);
    if !t[i].terminated {
      ConcernedFreezes(t, log, i);
    } else if t[i].receiver.None? {
      TerminatedByTransfer(t, u, tip, i, height);
      ApartStep(t, u, log);
    } else {
      assert Frozen(t, i);
      ExtendsFrozen(t, Step(Complete, t, log).value, i);
      if log.body.WithdrawRequested? {
        IdFits(u, log);
        WithdrawOnTerminated(t, u, tip, log, i, height);
      } else if Debits(log, t[i].HeldBy()) {
        NoSenderNoTransfer(t, log);
      }
    }
  }

  // ------------------------------------------------------------- whole runs

  lemma RunFront(t: Table, events: seq<Log>)
    requires events != []
    ensures RunFrom(Complete, t, events) ==
      match Step(Complete, t, events[0]) { case Err(e) => Err(e) case Ok(u) => RunFrom(Complete, u, events[1..]) }
  {
    hide Step;
    assert events == [events[0]] + events[1..];
    RunConcat(Complete, t, [events[0]], events[1..]);
    assert [events[0]][..0] == [];
  }

  lemma IndexableRest(events: seq<Log>, tip: int)
    requires events != [] && Indexable(events) && forall i :: 0 <= i < |events| ==> events[i].block >= tip
    ensures WellFormed(events[0]) && !IsSelfTransfer(events[0]) && Indexable(events[1..])
    ensures forall i :: 0 <= i < |events| - 1 ==>
      events[1..][i].block >= events[0].block && !IsSelfTransfer(events[1..][i])
  {
    hide WellFormed, IsSelfTransfer;
  }

  /**
    A run over a table with stale rows ends like the run over the table without them if and only if, for every stale
    row, the first event of its holder heals it.
  */
  lemma {:induction false} HealsExactly(t: Table, u: Table, tip: int, events: seq<Log>, height: Height)
    requires Valid(u, tip) && StaleVersion(t, u, height) && Indexable(events)
    requires forall i :: 0 <= i < |events| ==> events[i].block >= tip
    requires RunFrom(Complete, u, events).Ok?
    ensures RunFrom(Complete, t, events) == RunFrom(Complete, u, events)
       <==> forall i :: StaleAt(t, u, i, height) ==> Healed(t[i], events, height)
    decreases |events|
  {
    hide Valid, HealedBy, Step, Concerns, Stale, Indexable, RunFrom, ApartForGood, WellFormed, IsSelfTransfer;
    if events == [] {
      NoEvents(t, u, height);
    } else {
      var log, rest := events[0], events[1..];
      RunFront(t, events);
      RunFront(u, events);
      IndexableRest(events, tip);
      if i :| StaleAt(t, u, i, height) && Concerns(log, t[i].HeldBy()) && !HealedBy(t[i], log, height) {
        assert !Healed(t[i], events, height);
        if Step(Complete, t, log).Ok? {
          HarmingStep(t, u, tip, log, i, height);
          ApartRuns(Step(Complete, t, log).value, Step(Complete, u, log).value, rest);
        }
      } else {
        HealingStep(t, u, tip, log, height);
        var a, b := Step(Complete, t, log).value, Step(Complete, u, log).value;
        StepKeepsValid(u, tip, log);
        HealsExactly(a, b, log.block, rest, height);
        HealedLater(t, u, a, b, events, height);
      }
    }
  }

  lemma NoEvents(t: Table, u: Table, height: int)
    requires StaleVersion(t, u, height)
    ensures RunFrom(Complete, t, []) == RunFrom(Complete, u, [])
       <==> forall i :: StaleAt(t, u, i, height) ==> Healed(t[i], [], height)
  {
    if t != u {
      var i :| 0 <= i < |t| && t[i] != u[i];
      assert StaleAt(t, u, i, height) && !Healed(t[i], [], height);
    } else {
      forall i ensures !StaleAt(t, u, i, height) {
      }
    }
  }

  lemma StepKeepsValid(u: Table, tip: int, log: Log)
    requires Valid(u, tip) && log.block >= tip && WellFormed(log) && !IsSelfTransfer(log) && Step(Complete, u, log).Ok?
    ensures Valid(Step(Complete, u, log).value, log.block)
  {
    hide Valid, Step, Effect, Rejected;
    StepMeaning(u, tip, log);
    EffectKeepsValid(u, tip, log);
  }

  lemma HealedLater(t: Table, u: Table, a: Table, b: Table, events: seq<Log>, height: int)
    requires events != [] && StaleRemain(t, u, a, b, events[0], height)
    requires forall i :: StaleAt(t, u, i, height) && Concerns(events[0], t[i].HeldBy()) ==>
      HealedBy(t[i], events[0], height)
    ensures (forall i :: StaleAt(a, b, i, height) ==> Healed(a[i], events[1..], height))
       <==> (forall i :: StaleAt(t, u, i, height) ==> Healed(t[i], events, height))
  {
    hide Concerns, HealedBy, Stale;
    forall i | StaleAt(t, u, i, height)
      ensures Healed(t[i], events, height) <==> (StaleAt(a, b, i, height) ==> Healed(a[i], events[1..], height))
    {
    }
  }
}
