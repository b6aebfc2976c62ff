/** A transfer from an account to itself: the one kind of well-formed event the index cannot always digest. */
module SelfTransfer {
  import opened Chain
  import opened Decimal
  import opened Rounding
  import opened Positions
  import opened Replay
  import opened Ledger
  import opened Effects
  import opened TimeTravel

  lemma PrintIsInjective(a: nat, b: nat)
    requires Print(a) == Print(b)
    ensures a == b
  {
    PrintThenRead(a);
    PrintThenRead(b);
  }

  /** The two halves of a self-transfer: both replace the same row. */
  lemma SelfTransferOperations(t: Table, height: int, log: Log) returns (more: Change, less: Change)
    requires Valid(t, height) && IsSelfTransfer(log) && HasOpen(t, Holder(log.vault, log.body.from))
    ensures Handle(t, log) == Ok(Combine(ChangeToOperations(more), ChangeToOperations(less)))
    ensures
      var r, maxId := t[OpenIndex(t, Holder(log.vault, log.body.from))], MaxIndexId(t, log.vault);
      var amount := RoundToFloat64(Shares(log));
      && more == Replacement(r, maxId, NextAmount(r, amount, true), log.block, None)
      && less == Replacement(r, maxId + |OptionToSeq(more.insert)|, NextAmount(r, amount, false), log.block, None)
  {
    hide ComputeNewAmountShares, MaxIndexId, CountRows, Print, Canonical, RoundToFloat64, Handle;
    var holder := Holder(log.vault, log.body.from);
    var amount, maxId := RoundToFloat64(Shares(log)), MaxIndexId(t, log.vault);
    LookupIndex(t, height, holder);
    var r := t[OpenIndex(t, holder)];
    ChangeIsReplacement(r, maxId, amount, log.block, true, None);
    more := Replacement(r, maxId, NextAmount(r, amount, true), log.block, None);
    ChangeIsReplacement(r, maxId + |OptionToSeq(more.insert)|, amount, log.block, false, None);
    less := Replacement(r, maxId + |OptionToSeq(more.insert)|, NextAmount(r, amount, false), log.block, None);
    TransferAssembled(t, log, r, ChangeToOperations(more), less);
  }

  /** Both replacements are appended behind the table, and the shared row is closed twice. */
  lemma SelfTransferRows(t: Table, height: int, log: Log) returns (rest: Table, updates: seq<PositionUpdate>)
    requires Valid(t, height) && IsSelfTransfer(log) && HasOpen(t, Holder(log.vault, log.body.from))
    ensures Step(Complete, t, log) == Ok(UpdateAll(t, updates) + rest)
    ensures
      var holder := Holder(log.vault, log.body.from);
      var owned, amount := Owned(t, holder), RoundToFloat64(Shares(log));
      var more, less := owned + amount, Monus(owned, amount);
      && |rest| == (if more == 0 then 0 else 1) + (if less == 0 then 0 else 1)
      && (more != 0 ==> rest[0].amount == Print(more))
      && (forall i :: 0 <= i < |rest| ==> rest[i].HeldBy() == holder && rest[i].start == log.block && rest[i].IsOpen())
      && |updates| == 2
      && forall j :: 0 <= j < 2 ==> updates[j].id == t[OpenIndex(t, holder)].Id() && updates[j].end == log.block - 1
  {
    hide ComputeNewAmountShares, MaxIndexId, CountRows, Print, Canonical, RoundToFloat64, Handle, UpdateAll;
    var more, less := SelfTransferOperations(t, height, log);
    var ops := Combine(ChangeToOperations(more), ChangeToOperations(less));
    rest, updates := InsertedRows(ops.inserts), ops.updates;
    MaxIdBounds(t, OpenIndex(t, Holder(log.vault, log.body.from)));
    UpdateAllSkips(t, rest, updates);
  }

  /** A self-transfer leaves the balance readable exactly when the account is empty and nothing is sent. */
  lemma SelfTransferExact(t: Table, height: int, log: Log)
    requires Valid(t, height) && log.block >= height && IsSelfTransfer(log)
    requires HasOpen(t, Holder(log.vault, log.body.from))
    ensures
      var holder := Holder(log.vault, log.body.from);
      var u := Step(Complete, t, log);
      && u.Ok?
      && (Reads(u.value, holder, log.block, Owned(t, holder))
          <==> Owned(t, holder) == 0 && RoundToFloat64(Shares(log)) == 0)
  {
    hide RoundToFloat64, Print, Canonical, Step;
    var holder := Holder(log.vault, log.body.from);
    var owned, amount := Owned(t, holder), RoundToFloat64(Shares(log));
    var rest, updates := SelfTransferRows(t, height, log);
    var closed := UpdateAll(t, updates);
    var u := closed + rest;
    UpdateAllKeepsShape(t, updates);
    if owned + amount > 0 {
      assert u[|t|] == rest[0] && Matches(u, |t|, holder, log.block);
      if amount < owned {
        assert u[|t| + 1] == rest[1] && Matches(u, |t| + 1, holder, log.block);
      } else if u[|t|].amount == Print(owned) {
        PrintIsInjective(owned + amount, owned);
      }
    } else {
      assert u == closed;
      NothingCovers(t, height, holder, log.block, updates);
    }
  }

  lemma NothingCovers(t: Table, height: int, holder: Holder, block: Height, updates: seq<PositionUpdate>)
    requires Valid(t, height) && block >= height && HasOpen(t, holder) && |updates| == 2
    requires forall j :: 0 <= j < 2 ==> updates[j].id == t[OpenIndex(t, holder)].Id() && updates[j].end == block - 1
    ensures forall i :: !Matches(UpdateAll(t, updates), i, holder, block)
  {
    var x := OpenIndex(t, holder);
    var once := UpdateRows(t, updates[0]);
    var twice := UpdateRows(once, updates[1]);
    assert UpdateAll(t, updates) == UpdateAll(once, updates[1..]);
    UpdateAllOne(once, updates[1..]);
    LookupFindsOpenRow(t, height, holder);
    forall i | 0 <= i < |t| && t[i].HeldBy() == holder ensures !twice[i].Covers(block) {
      if i != x { assert !OpenAt(t, i, holder); }
    }
  }
}
