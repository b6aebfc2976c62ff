/** The positions table and the computation of the row changes one vault event asks for. */
module Positions {
  import opened Chain
  import opened Decimal
  import opened Rounding

  /** One share balance: an owner inside a vault. */
  datatype Holder = Holder(vault: Address, owner: Address)

  /** The identity of a row: index ids are unique inside a vault. */
  datatype RowId = RowId(vault: Address, indexId: int)

  datatype Row = Row(
    indexId: int, vault: Address, owner: Address, amount: string,
    start: int, end: Option<int>, terminated: bool, receiver: Option<Address>)
  {
    function Id(): RowId { RowId(vault, indexId) }

    function HeldBy(): Holder { Holder(vault, owner) }

    predicate IsOpen() { end.None? }

    /** The row says what the holder owned at height h. */
    predicate Covers(h: int) {
      start <= h && (end.Some? ==> h <= end.value)
    }
  }

  /** Rows in the order in which they were inserted. */
  type Table = seq<Row>

  datatype PositionInsert = PositionInsert(indexId: int, vault: Address, owner: Address, amount: string, start: int)

  datatype PositionUpdate = PositionUpdate(id: RowId, terminated: bool, end: int, receiver: Option<Address>)

  datatype Operations = Operations(inserts: seq<PositionInsert>, updates: seq<PositionUpdate>)

  const NO_OPERATIONS := Operations([], [])

  // ---------------------------------------------------------------- queries

  /** The holder's row with the greatest index id. */
  function MostRecentRow(t: Table, holder: Holder): Option<Row> {
    if t == [] then None
    else
      var last := t[|t| - 1];
      var best := MostRecentRow(t[..|t| - 1], holder);
      if last.HeldBy() == holder && (best.Some? ==> best.value.indexId <= last.indexId) then Some(last) else best
  }

  /** The most recent row unless it is terminated; whether the row is closed is not looked at. */
  function GetMostRecentPosition(t: Table, owner: Address, vault: Address): Option<Row> {
    if !Tracked(owner) then None
    else
      var r := MostRecentRow(t, Holder(vault, owner));
      if r.Some? && r.value.terminated then None else r
  }

  /** The greatest index id of the vault, zero when it has no rows. */
  function MaxIndexId(t: Table, vault: Address): int {
    if t == [] then 0
    else
      var last := t[|t| - 1];
      var best := MaxIndexId(t[..|t| - 1], vault);
      if last.vault == vault && last.indexId > best then last.indexId else best
  }

  // ------------------------------------------------------- row computations

  datatype Movement = Movement(sender: Address, receiver: Address, vault: Address, amount: string, block: Height)

  datatype UpdateInput = UpdateInput(
    current: Option<Row>, owner: Address, amount: string, block: Height, isAddition: bool, receiver: Option<Address>)

  datatype Change = Change(insert: Option<PositionInsert>, update: Option<PositionUpdate>)

  /** int64(block - 1) with block an unsigned 64-bit number: the wrap at block 0 lands on -1. */
  function EndHeight(block: Height): (h: int)
    ensures h == block - 1
  {
    var unsigned := (block - 1) % UINT64_LIMIT;
    if unsigned >= INT64_LIMIT then unsigned - UINT64_LIMIT else unsigned
  }

  /** What updating one position means: the row to close, and the row that replaces it unless nothing is left. */
  function ChangeOf(input: UpdateInput, maxId: int): Result<Change> {
    match input.current
    case None => Ok(Change(None, None))
    case Some(row) =>
      match ComputeNewAmountShares(Some(row.amount), input.amount, input.isAddition)
      case Err(e) => Err(e)
      case Ok(text) =>
        var insert := if text == "0" then None
                      else Some(PositionInsert(maxId + 1, row.vault, input.owner, text, input.block));
        Ok(Change(insert, Some(PositionUpdate(row.Id(), text == "0", EndHeight(input.block), input.receiver))))
  }

  function OptionToSeq<T>(o: Option<T>): seq<T> {
    if o.Some? then [o.value] else []
  }

  function ChangeToOperations(c: Change): Operations {
    Operations(OptionToSeq(c.insert), OptionToSeq(c.update))
  }

  function Combine(a: Operations, b: Operations): Operations {
    Operations(a.inserts + b.inserts, a.updates + b.updates)
  }

  function FreshRow(m: Movement, owner: Address, indexId: int): Operations {
    Operations([PositionInsert(indexId, m.vault, owner, m.amount, m.block)], [])
  }

  function DepositOperations(m: Movement, existing: Option<Row>, maxId: int): Result<Operations> {
    if existing.None? then Ok(FreshRow(m, m.sender, maxId + 1))
    else
      match ChangeOf(UpdateInput(existing, m.sender, m.amount, m.block, true, None), maxId)
      case Err(e) => Err(e)
      case Ok(c) => Ok(ChangeToOperations(c))
  }

  function WithdrawOperations(m: Movement, existing: Option<Row>, maxId: int): Result<Operations> {
    match ChangeOf(UpdateInput(existing, m.sender, m.amount, m.block, false, Some(m.receiver)), maxId)
    case Err(e) => Err(e)
    case Ok(c) => Ok(ChangeToOperations(c))
  }

  /** The receiver's half comes first and takes the first index id. */
  function ReceiverOperations(m: Movement, to: Option<Row>, maxId: int): Result<Operations> {
    if to.None? || to.value.terminated then Ok(FreshRow(m, m.receiver, maxId + 1))
    else
      match ChangeOf(UpdateInput(to, m.receiver, m.amount, m.block, true, None), maxId)
      case Err(e) => Err(e)
      case Ok(c) => Ok(ChangeToOperations(c))
  }

  function TransferOperations(m: Movement, from: Option<Row>, to: Option<Row>, maxId: int): Result<Operations> {
    match ReceiverOperations(m, to, maxId)
    case Err(e) => Err(e)
    case Ok(credit) =>
      if m.sender != ZERO_ADDRESS && m.receiver != ZERO_ADDRESS && from.None? then Err(PositionNotFound)
      else
        match ChangeOf(UpdateInput(from, m.sender, m.amount, m.block, false, None), maxId + |credit.inserts|)
        case Err(e) => Err(e)
        case Ok(c) => Ok(Combine(credit, ChangeToOperations(c)))
  }

  // ------------------------------------------ the same, as the program runs it

  /** A running index id that is passed by reference. */
  class IndexCounter {
    var value: int

    constructor (value: int)
      ensures this.value == value
    {
      this.value := value;
    }
  }

  /** Advances the caller's counter exactly when a replacement row is asked for. */
  method UpdatePosition(input: UpdateInput, maxPositionIndexId: IndexCounter) returns (r: Result<Change>)
    modifies maxPositionIndexId
    ensures r == ChangeOf(input, old(maxPositionIndexId.value))
    ensures maxPositionIndexId.value ==
      old(maxPositionIndexId.value) + if r.Ok? && r.value.insert.Some? then 1 else 0
  {
    if input.current.None? {
      return Ok(Change(None, None));
    }
    var row := input.current.value;
    var newAmount := ComputeNewAmountShares(Some(row.amount), input.amount, input.isAddition);
    if newAmount.Err? {
      return Err(newAmount.error);
    }
    var endHeight := EndHeight(input.block);
    var isTerminated := newAmount.value == "0";
    var insert: Option<PositionInsert> := None;
    if !isTerminated {
      maxPositionIndexId.value := maxPositionIndexId.value + 1;
      insert := Some(PositionInsert(maxPositionIndexId.value, row.vault, input.owner, newAmount.value, input.block));
    }
    return Ok(Change(insert, Some(PositionUpdate(row.Id(), isTerminated, endHeight, input.receiver))));
  }

  method ComputeDeposit(m: Movement, existing: Option<Row>, maxId: int) returns (r: Result<Operations>)
    ensures r == DepositOperations(m, existing, maxId)
  {
    hide ComputeNewAmountShares;
    var inserts: seq<PositionInsert>, updates: seq<PositionUpdate> := [], [];
    var counter := new IndexCounter(maxId);
    if existing.None? {
      counter.value := counter.value + 1;
      inserts := inserts + [PositionInsert(counter.value, m.vault, m.sender, m.amount, m.block)];
    } else {
      var change := UpdatePosition(UpdateInput(existing, m.sender, m.amount, m.block, true, None), counter);
      if change.Err? {
        return Err(change.error);
      }
      updates := updates + OptionToSeq(change.value.update);
      inserts := inserts + OptionToSeq(change.value.insert);
    }
    assert inserts == DepositOperations(m, existing, maxId).value.inserts;
    assert updates == DepositOperations(m, existing, maxId).value.updates;
    return Ok(Operations(inserts, updates));
  }

  method ComputeWithdraw(m: Movement, existing: Option<Row>, maxId: int) returns (r: Result<Operations>)
    ensures r == WithdrawOperations(m, existing, maxId)
  {
    hide ComputeNewAmountShares;
    var inserts: seq<PositionInsert>, updates: seq<PositionUpdate> := [], [];
    var counter := new IndexCounter(maxId);
    var change := UpdatePosition(UpdateInput(existing, m.sender, m.amount, m.block, false, Some(m.receiver)), counter);
    if change.Err? {
      return Err(change.error);
    }
    updates := updates + OptionToSeq(change.value.update);
    inserts := inserts + OptionToSeq(change.value.insert);
    assert inserts == OptionToSeq(change.value.insert) && updates == OptionToSeq(change.value.update);
    return Ok(Operations(inserts, updates));
  }

  method ComputeTransfer(m: Movement, from: Option<Row>, to: Option<Row>, maxId: int) returns (r: Result<Operations>)
    ensures r == TransferOperations(m, from, to, maxId)
  {
    hide ComputeNewAmountShares;
    var inserts: seq<PositionInsert>, updates: seq<PositionUpdate> := [], [];
    var counter := new IndexCounter(maxId);
    if to.None? || to.value.terminated {
      counter.value := counter.value + 1;
      inserts := inserts + [PositionInsert(counter.value, m.vault, m.receiver, m.amount, m.block)];
    } else {
      var credit := UpdatePosition(UpdateInput(to, m.receiver, m.amount, m.block, true, None), counter);
      if credit.Err? {
        return Err(credit.error);
      }
      updates := updates + OptionToSeq(credit.value.update);
      inserts := inserts + OptionToSeq(credit.value.insert);
    }
    ghost var before := Operations(inserts, updates);
    assert before == ReceiverOperations(m, to, maxId).value by {
      assert inserts == ReceiverOperations(m, to, maxId).value.inserts;
      assert updates == ReceiverOperations(m, to, maxId).value.updates;
    }
    var isTransfer := m.sender != ZERO_ADDRESS && m.receiver != ZERO_ADDRESS;
    if isTransfer && from.None? {
      return Err(PositionNotFound);
    }
    var debit := UpdatePosition(UpdateInput(from, m.sender, m.amount, m.block, false, None), counter);
    if debit.Err? {
      return Err(debit.error);
    }
    updates := updates + OptionToSeq(debit.value.update);
    inserts := inserts + OptionToSeq(debit.value.insert);
    assert inserts == before.inserts + OptionToSeq(debit.value.insert);
    assert updates == before.updates + OptionToSeq(debit.value.update);
    return Ok(Operations(inserts, updates));
  }

  // --------------------------------------------------------- event handlers

  /** The text of a decoded amount: a 64-bit float printed without decimals. */
  function AmountText(shares: nat): string {
    Print(RoundToFloat64(shares))
  }

  /** The row changes an event asks for, read off the table as it stands. */
  function Handle(t: Table, log: Log): Result<Operations> {
    var maxId := MaxIndexId(t, log.vault);
    match log.body
    case Deposit(sender, _, minted) =>
      var m := Movement(sender, "", log.vault, AmountText(minted), log.block);
      DepositOperations(m, GetMostRecentPosition(t, sender, log.vault), maxId)
    case Transfer(from, to, value) =>
      // mints and burns are accounted for by the deposit and withdraw events
      if from == ZERO_ADDRESS || to == ZERO_ADDRESS then Ok(NO_OPERATIONS)
      else
        var m := Movement(from, to, log.vault, AmountText(value), log.block);
        TransferOperations(m, GetMostRecentPosition(t, from, log.vault), GetMostRecentPosition(t, to, log.vault), maxId)
    case WithdrawRequested(holder, receiver, shares, id) =>
      if RoundToFloat64(id) >= INT64_LIMIT then Err(BadWithdrawId)
      else
        var m := Movement(holder, receiver, log.vault, AmountText(shares), log.block);
        WithdrawOperations(m, GetMostRecentPosition(t, holder, log.vault), maxId)
    case RateUpdated(_) | OtherEvent(_) => Ok(NO_OPERATIONS)
  }

  // -------------------------------------------------- executing the changes

  function InsertedRow(i: PositionInsert): Row {
    Row(i.indexId, i.vault, i.owner, i.amount, i.start, None, false, None)
  }

  function InsertedRows(inserts: seq<PositionInsert>): Table {
    seq(|inserts|, i requires 0 <= i < |inserts| => InsertedRow(inserts[i]))
  }

  /** A missing receiver leaves the column as it is. */
  function UpdatedRow(r: Row, u: PositionUpdate): Row {
    if r.Id() == u.id
    then
      var receiver := if u.receiver.Some? then u.receiver else r.receiver;
      r.(terminated := u.terminated, end := Some(u.end), receiver := receiver)
    else r
  }

  function UpdateRows(t: Table, u: PositionUpdate): Table {
    seq(|t|, i requires 0 <= i < |t| => UpdatedRow(t[i], u))
  }

  function UpdateAll(t: Table, updates: seq<PositionUpdate>): Table
    decreases |updates|
  {
    if |updates| == 0 then t else UpdateAll(UpdateRows(t, updates[0]), updates[1..])
  }

  /** Inserts run before updates. */
  function ApplyAll(t: Table, ops: Operations): Table {
    UpdateAll(t + InsertedRows(ops.inserts), ops.updates)
  }

  /** How much of a computed list reaches the table: all of it, or only its first element. */
  datatype Mode = Complete | FirstOnly

  function FirstOf<T>(s: seq<T>): seq<T> {
    if s == [] then [] else [s[0]]
  }

  /** The statement builders take element 0 of a list of rows, which is the FirstOnly mode. */
  function Persist(mode: Mode, t: Table, ops: Operations): Table {
    match mode
    case Complete => ApplyAll(t, ops)
    case FirstOnly => ApplyAll(t, Operations(FirstOf(ops.inserts), FirstOf(ops.updates)))
  }

  function Step(mode: Mode, t: Table, log: Log): Result<Table> {
    match Handle(t, log)
    case Err(e) => Err(e)
    case Ok(ops) => Ok(Persist(mode, t, ops))
  }

  /** Processing events one after the other, starting at table t; the first error stops the run. */
  function RunFrom(mode: Mode, t: Table, events: seq<Log>): Result<Table> {
    if events == [] then Ok(t)
    else
      match RunFrom(mode, t, events[..|events| - 1])
      case Err(e) => Err(e)
      case Ok(before) => Step(mode, before, events[|events| - 1])
  }

  function Run(mode: Mode, events: seq<Log>): Result<Table> {
    RunFrom(mode, [], events)
  }
}
