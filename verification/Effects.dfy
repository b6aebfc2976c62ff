/** The row changes computed for one event, executed in full, are exactly credits and debits. */
module Effects {
  import opened Chain
  import opened Decimal
  import opened Rounding
  import opened Positions
  import opened Replay
  import opened Ledger

  // ------------------------------------------------- executing operation lists

  lemma {:induction false} UpdateAllKeepsShape(t: Table, updates: seq<PositionUpdate>)
    ensures |UpdateAll(t, updates)| == |t|
    ensures forall i :: 0 <= i < |t| ==> UpdateAll(t, updates)[i].Id() == t[i].Id()
    decreases |updates|
  {
    if updates != [] {
      UpdateAllKeepsShape(UpdateRows(t, updates[0]), updates[1..]);
    }
  }

  lemma {:induction false} UpdateAllConcat(t: Table, a: seq<PositionUpdate>, b: seq<PositionUpdate>)
    ensures UpdateAll(t, a + b) == UpdateAll(UpdateAll(t, a), b)
    decreases |a|
  {
    if a == [] {
      assert a + b == b;
    } else {
      UpdateAllConcat(UpdateRows(t, a[0]), a[1..], b);
      assert (a + b)[1..] == a[1..] + b;
    }
  }

  /** Updates aimed at earlier rows do not see rows appended behind them. */
  lemma {:induction false} UpdateAllSkips(t: Table, rest: Table, updates: seq<PositionUpdate>)
    requires forall i, j :: 0 <= i < |rest| && 0 <= j < |updates| ==> rest[i].Id() != updates[j].id
    ensures UpdateAll(t + rest, updates) == UpdateAll(t, updates) + rest
    decreases |updates|
  {
    if updates != [] {
      assert UpdateRows(t + rest, updates[0]) == UpdateRows(t, updates[0]) + rest;
      UpdateAllSkips(UpdateRows(t, updates[0]), rest, updates[1..]);
    }
  }

  /** Two halves of one event executed together equal the halves executed one after the other. */
  lemma CombineIsSequential(t: Table, a: Operations, b: Operations)
    requires forall i, j :: 0 <= i < |b.inserts| && 0 <= j < |a.updates| ==>
      RowId(b.inserts[i].vault, b.inserts[i].indexId) != a.updates[j].id
    ensures ApplyAll(t, Combine(a, b)) == ApplyAll(ApplyAll(t, a), b)
  {
    var grown := t + InsertedRows(a.inserts);
    var rest := InsertedRows(b.inserts);
    assert t + InsertedRows(a.inserts + b.inserts) == grown + rest;
    UpdateAllSkips(grown, rest, a.updates);
    UpdateAllConcat(grown + rest, a.updates, b.updates);
  }

  /** Ids are unique, so an update by id touches one row. */
  lemma UpdateTouchesOneRow(t: Table, x: nat, u: PositionUpdate)
    requires Numbered(t) && x < |t| && t[x].Id() == u.id
    ensures UpdateRows(t, u) == t[x := UpdatedRow(t[x], u)]
  {
    forall i | 0 <= i < |t| && i != x ensures t[i].Id() != u.id {
      if t[i].vault == t[x].vault {
        if i < x { IdsIncrease(t, i, x); } else { IdsIncrease(t, x, i); }
      }
    }
  }

  /** The greatest id of a vault bounds the id of each of its rows. */
  lemma {:induction false} MaxIdBounds(t: Table, i: nat)
    requires i < |t|
    ensures t[i].indexId <= MaxIndexId(t, t[i].vault)
  {
    if i < |t| - 1 {
      MaxIdBounds(t[..|t| - 1], i);
    }
  }

  // --------------------------------------------------- changing one position

  /** The change that closes a row and puts the next amount in its place. */
  function Replacement(r: Row, maxId: int, next: nat, block: Height, receiver: Option<Address>): Change {
    var insert := PositionInsert(maxId + 1, r.vault, r.owner, Print(next), block);
    Change(if next == 0 then None else Some(insert), Some(PositionUpdate(r.Id(), next == 0, block - 1, receiver)))
  }

  function NextAmount(r: Row, amount: nat, isAddition: bool): nat {
    if isAddition then AmountOf(r) + amount else Monus(AmountOf(r), amount)
  }

  lemma NextText(r: Row, amount: nat, isAddition: bool)
    requires Canonical(r.amount)
    ensures
      var next := NextAmount(r, amount, isAddition);
      && ComputeNewAmountShares(Some(r.amount), Print(amount), isAddition) == Ok(Print(next))
      && (Print(next) == "0" <==> next == 0)
  {
    PrintThenRead(amount);
    TextArithmeticRefinesNaturals(r.amount, Print(amount), isAddition);
  }

  lemma ChangeIsReplacement(r: Row, maxId: int, amount: nat, block: Height, isAddition: bool, receiver: Option<Address>)
    requires Canonical(r.amount)
    ensures ChangeOf(UpdateInput(Some(r), r.owner, Print(amount), block, isAddition, receiver), maxId)
         == Ok(Replacement(r, maxId, NextAmount(r, amount, isAddition), block, receiver))
  {
    NextText(r, amount, isAddition);
  }

  lemma InsertedOption(o: Option<PositionInsert>)
    ensures InsertedRows(OptionToSeq(o)) == if o.None? then [] else [InsertedRow(o.value)]
  {
  }

  /** Executing the replacement of an open row is one superseding step. */
  lemma ReplacementSupersedes(t: Table, x: nat, next: nat, block: Height, receiver: Option<Address>)
    requires Numbered(t) && x < |t| && t[x].IsOpen() && t[x].receiver.None?
    ensures ApplyAll(t, ChangeToOperations(Replacement(t[x], MaxIndexId(t, t[x].vault), next, block, receiver)))
         == Supersede(t, x, next, block, receiver)
  {
    hide MaxIndexId, Numbered, Print, UpdateAll, UpdateRows, InsertedRows;
    var change := Replacement(t[x], MaxIndexId(t, t[x].vault), next, block, receiver);
    var u := change.update.value;
    InsertedOption(change.insert);
    var grown := t + if next == 0 then [] else [NewRow(t, t[x].HeldBy(), next, block)];
    if next == 0 {
      assert grown == t;
    } else {
      AppendIsNumbered(t, NewRow(t, t[x].HeldBy(), next, block));
    }
    UpdateTouchesOneRow(grown, x, u);
    UpdateAllOne(grown, [u]);
    assert grown[x := ClosedRow(t[x], next == 0, block, receiver)] == Supersede(t, x, next, block, receiver);
  }

  lemma UpdateAllOne(t: Table, updates: seq<PositionUpdate>)
    requires |updates| == 1
    ensures UpdateAll(t, updates) == UpdateRows(t, updates[0])
  {
    assert UpdateAll(UpdateRows(t, updates[0]), updates[1..]) == UpdateRows(t, updates[0]);
  }

  lemma NoUpdates(t: Table)
    ensures UpdateAll(t, []) == t
  {
  }

  /** What the lookup hands to the computations, by index. */
  lemma LookupIndex(t: Table, height: int, holder: Holder)
    requires Valid(t, height)
    ensures
      var found := GetMostRecentPosition(t, holder.owner, holder.vault);
      && (found.Some? <==> HasOpen(t, holder))
      && (found.Some? ==> found.value == t[OpenIndex(t, holder)] && !found.value.terminated)
  {
    LookupFindsOpenRow(t, height, holder);
  }

  lemma SupersedeMaxId(t: Table, x: nat, next: nat, block: Height, receiver: Option<Address>)
    requires x < |t|
    ensures MaxIndexId(Supersede(t, x, next, block, receiver), t[x].vault)
         == MaxIndexId(t, t[x].vault) + if next == 0 then 0 else 1
  {
    var closed := t[x := ClosedRow(t[x], next == 0, block, receiver)];
    CountIgnoresClosing(t, closed, t[x].vault);
    var u := Supersede(t, x, next, block, receiver);
    if next == 0 {
      assert u == closed;
    } else {
      assert u[..|u| - 1] == closed;
    }
  }

  lemma OpeningExecuted(t: Table, m: Movement, amount: nat)
    requires m.amount == Print(amount)
    ensures
      var holder := Holder(m.vault, m.receiver);
      var u := t + [NewRow(t, holder, amount, m.block)];
      && ApplyAll(t, FreshRow(m, m.receiver, MaxIndexId(t, m.vault) + 1)) == u
      && MaxIndexId(u, m.vault) == MaxIndexId(t, m.vault) + 1
  {
    var first := PositionInsert(MaxIndexId(t, m.vault) + 1, m.vault, m.receiver, m.amount, m.block);
    InsertedOption(Some(first));
    var u := t + [NewRow(t, Holder(m.vault, m.receiver), amount, m.block)];
    assert t + InsertedRows([first]) == u && UpdateAll(u, []) == u;
    assert u[..|u| - 1] == t;
  }

  /** The receiver's half of a transfer is a credit; it uses up the ids it inserts and updates only older rows. */
  lemma ReceiverHalf(t: Table, height: int, m: Movement, amount: nat)
    requires Valid(t, height) && m.amount == Print(amount)
    ensures
      var maxId := MaxIndexId(t, m.vault);
      var r := ReceiverOperations(m, GetMostRecentPosition(t, m.receiver, m.vault), maxId);
      var u := Credit(t, Holder(m.vault, m.receiver), amount, m.block);
      && r.Ok?
      && ApplyAll(t, r.value) == u
      && |r.value.updates| == (if HasOpen(t, Holder(m.vault, m.receiver)) then 1 else 0)
      && |r.value.inserts|
        == (if HasOpen(t, Holder(m.vault, m.receiver)) && Owned(t, Holder(m.vault, m.receiver)) + amount == 0
            then 0 else 1)
      && (forall j :: 0 <= j < |r.value.updates| ==> r.value.updates[j].id.indexId <= maxId)
      && MaxIndexId(u, m.vault) == maxId + |r.value.inserts|
  {
    hide ComputeNewAmountShares, MaxIndexId, CountRows, Print, Canonical;
    var holder := Holder(m.vault, m.receiver);
    LookupIndex(t, height, holder);
    if HasOpen(t, holder) {
      var x := OpenIndex(t, holder);
      var next := NextAmount(t[x], amount, true);
      ChangeIsReplacement(t[x], MaxIndexId(t, m.vault), amount, m.block, true, None);
      ReplacementSupersedes(t, x, next, m.block, None);
      MaxIdBounds(t, x);
      SupersedeMaxId(t, x, next, m.block, None);
    } else {
      OpeningExecuted(t, m, amount);
    }
  }

  // ------------------------------------------------------------- one event

  /** Addresses of a decoded log: the chain never mints from, or transfers to, an address the indexer cannot look up. */
  predicate WellFormed(log: Log) {
    (log.body.Deposit? ==> Tracked(log.body.sender)) && (IsRealTransfer(log) ==> Tracked(log.body.to))
  }

  predicate IsSelfTransfer(log: Log) {
    IsRealTransfer(log) && log.body.from == log.body.to
  }

  /** The table after an event, in terms of balances. */
  ghost function Effect(t: Table, log: Log): Table {
    var amount := RoundToFloat64(Shares(log));
    match log.body
    case Deposit(sender, _, _) => Credit(t, Holder(log.vault, sender), amount, log.block)
    case Transfer(from, to, _) =>
      if !IsRealTransfer(log) then t
      else
        Debit(Credit(t, Holder(log.vault, to), amount, log.block), Holder(log.vault, from), amount, log.block, None)
    case WithdrawRequested(holder, receiver, _, _) =>
      Debit(t, Holder(log.vault, holder), amount, log.block, Some(receiver))
    case RateUpdated(_) | OtherEvent(_) => t
  }

  /** An event fails exactly on an oversized withdraw id or on a transfer from a holder without an open row. */
  ghost predicate Rejected(t: Table, log: Log) {
    (log.body.WithdrawRequested? && RoundToFloat64(log.body.id) >= INT64_LIMIT) ||
    (IsRealTransfer(log) && !HasOpen(t, Holder(log.vault, log.body.from)))
  }

  /** Crediting one holder leaves the open row of another where it was. */
  lemma CreditLeavesOthers(t: Table, height: int, from: Holder, to: Holder, amount: nat, block: Height)
    requires Valid(t, height) && block >= height && Tracked(to.owner)
    requires from != to && HasOpen(t, from)
    ensures
      var mid, x := Credit(t, to, amount, block), OpenIndex(t, from);
      && Numbered(mid) && x < |mid| && mid[x] == t[x]
      && Canonical(t[x].amount) && t[x].receiver.None?
      && HasOpen(mid, from) && OpenIndex(mid, from) == x
  {
    var mid, x := Credit(t, to, amount, block), OpenIndex(t, from);
    CreditKeepsValid(t, height, to, amount, block);
    assert mid[x] == t[x] && OpenAt(mid, x, from);
    LookupFindsOpenRow(mid, block, from);
  }

  /** The sender's half is computed from the original table but fits the table after the receiver's half. */
  lemma SenderHalf(mid: Table, x: nat, from: Holder, amount: nat, block: Height)
    requires Numbered(mid) && HasOpen(mid, from) && OpenIndex(mid, from) == x
    requires Canonical(mid[x].amount) && mid[x].receiver.None?
    ensures
      var input := UpdateInput(Some(mid[x]), from.owner, Print(amount), block, false, None);
      var change := Replacement(mid[x], MaxIndexId(mid, from.vault), NextAmount(mid[x], amount, false), block, None);
      && ChangeOf(input, MaxIndexId(mid, from.vault)) == Ok(change)
      && ApplyAll(mid, ChangeToOperations(change)) == Debit(mid, from, amount, block, None)
  {
    ChangeIsReplacement(mid[x], MaxIndexId(mid, from.vault), amount, block, false, None);
    ReplacementSupersedes(mid, x, NextAmount(mid[x], amount, false), block, None);
  }

  function MovementOf(log: Log): Movement
    requires log.body.Transfer?
  {
    Movement(log.body.from, log.body.to, log.vault, AmountText(log.body.value), log.block)
  }

  /** A transfer's operations are its two halves, the second numbered after the first. */
  lemma TransferAssembled(t: Table, log: Log, from: Row, credit: Operations, debit: Change)
    requires IsRealTransfer(log)
    requires GetMostRecentPosition(t, log.body.from, log.vault) == Some(from)
    requires
      var m := MovementOf(log);
      var maxId := MaxIndexId(t, log.vault);
      && ReceiverOperations(m, GetMostRecentPosition(t, log.body.to, log.vault), maxId) == Ok(credit)
      && ChangeOf(UpdateInput(Some(from), m.sender, m.amount, m.block, false, None), maxId + |credit.inserts|)
        == Ok(debit)
    ensures Handle(t, log) == Ok(Combine(credit, ChangeToOperations(debit)))
  {
    hide ComputeNewAmountShares, RoundToFloat64, Print;
  }

  /** The table after the receiver's half, and the change the sender's half asks for. */
  lemma TransferHalves(t: Table, height: int, log: Log) returns (credit: Operations, debit: Change)
    requires Valid(t, height) && log.block >= height && WellFormed(log)
    requires IsRealTransfer(log) && !IsSelfTransfer(log) && !Rejected(t, log)
    ensures Handle(t, log) == Ok(Combine(credit, ChangeToOperations(debit)))
    ensures
      var amount := RoundToFloat64(Shares(log));
      var mid := Credit(t, Holder(log.vault, log.body.to), amount, log.block);
      && ApplyAll(t, credit) == mid
      && ApplyAll(mid, ChangeToOperations(debit))
        == Debit(mid, Holder(log.vault, log.body.from), amount, log.block, None)
    ensures forall j :: 0 <= j < |credit.updates| ==> credit.updates[j].id.indexId <= MaxIndexId(t, log.vault)
    ensures debit.insert.Some? ==> debit.insert.value.indexId > MaxIndexId(t, log.vault)
    ensures
      var from, to := Holder(log.vault, log.body.from), Holder(log.vault, log.body.to);
      var amount := RoundToFloat64(Shares(log));
      && |credit.updates| == (if HasOpen(t, to) then 1 else 0)
      && |credit.inserts| == (if HasOpen(t, to) && Owned(t, to) + amount == 0 then 0 else 1)
      && debit.update.Some? && debit.update.value.id == t[OpenIndex(t, from)].Id() &&
        debit.update.value.end == log.block - 1
      && (debit.insert.Some? <==> amount < Owned(t, from))
  {
    hide ComputeNewAmountShares, MaxIndexId, CountRows, Print, Canonical, RoundToFloat64, TransferOperations;
    var from, to := Holder(log.vault, log.body.from), Holder(log.vault, log.body.to);
    var amount := RoundToFloat64(Shares(log));
    var m := MovementOf(log);
    LookupIndex(t, height, from);
    ReceiverHalf(t, height, m, amount);
    CreditLeavesOthers(t, height, from, to, amount, log.block);
    var mid, x := Credit(t, to, amount, log.block), OpenIndex(t, from);
    SenderHalf(mid, x, from, amount, log.block);
    credit := ReceiverOperations(m, GetMostRecentPosition(t, m.receiver, m.vault), MaxIndexId(t, log.vault)).value;
    debit := Replacement(mid[x], MaxIndexId(mid, log.vault), NextAmount(mid[x], amount, false), log.block, None);
    TransferAssembled(t, log, t[x], credit, debit);
  }

  lemma TransferMeaning(t: Table, height: int, log: Log)
    requires Valid(t, height) && log.block >= height && WellFormed(log)
    requires IsRealTransfer(log) && !IsSelfTransfer(log) && !Rejected(t, log)
    ensures Step(Complete, t, log) == Ok(Effect(t, log))
  {
    var credit, debit := TransferHalves(t, height, log);
    CombineIsSequential(t, credit, ChangeToOperations(debit));
  }

  /** One event: an error exactly when it is rejected, otherwise the credits and debits it stands for. */
  lemma StepMeaning(t: Table, height: int, log: Log)
    requires Valid(t, height) && log.block >= height && WellFormed(log) && !IsSelfTransfer(log)
    ensures Step(Complete, t, log).Err? <==> Rejected(t, log)
    ensures !Rejected(t, log) ==> Step(Complete, t, log) == Ok(Effect(t, log))
  {
    var amount := RoundToFloat64(Shares(log));
    match log.body
    case Deposit(sender, _, _) =>
      var holder := Holder(log.vault, sender);
      var m := Movement(sender, sender, log.vault, Print(amount), log.block);
      LookupIndex(t, height, holder);
      ReceiverHalf(t, height, m, amount);
    case Transfer(from, to, _) =>
      if IsRealTransfer(log) {
        if Rejected(t, log) {
          LookupIndex(t, height, Holder(log.vault, from));
          ReceiverHalf(t, height, Movement(from, to, log.vault, Print(amount), log.block), amount);
        } else {
          TransferMeaning(t, height, log);
        }
      } else {
        assert ApplyAll(t, NO_OPERATIONS) == t;
      }
    case WithdrawRequested(owner, receiver, _, _) =>
      var holder := Holder(log.vault, owner);
      LookupIndex(t, height, holder);
      if HasOpen(t, holder) {
        var x := OpenIndex(t, holder);
        ChangeIsReplacement(t[x], MaxIndexId(t, log.vault), amount, log.block, false, Some(receiver));
        ReplacementSupersedes(t, x, NextAmount(t[x], amount, false), log.block, Some(receiver));
      } else {
        assert ApplyAll(t, ChangeToOperations(Change(None, None))) == t;
      }
    case RateUpdated(_) | OtherEvent(_) =>
      assert ApplyAll(t, NO_OPERATIONS) == t;
  }
}
