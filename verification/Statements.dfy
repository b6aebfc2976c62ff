/** The position rows as the database sees them: executing the built statements is the FirstOnly mode of the ledger. */
module Statements {
  import opened Chain
  import opened Positions
  import opened SqlBuilder

  const POSITIONS := "positions"
  const ID := "id"
  const INDEX_ID := "position_index_id"
  const OWNER := "owner_address"
  const CONTRACT := "contract_address"
  const AMOUNT := "amount_shares"
  const START := "position_start_height"
  const END := "position_end_height"
  const TERMINATED := "is_terminated"
  const RECEIVER := "withdraw_receiver_address"

  lemma ColumnsDiffer()
    ensures |ID| == 2 && |INDEX_ID| == 17 && |CONTRACT| == 16 && |START| == 21 && |END| == 19 && |RECEIVER| == 25
    ensures |OWNER| == |AMOUNT| == |TERMINATED| == 13
    ensures OWNER != AMOUNT && AMOUNT != TERMINATED && OWNER != TERMINATED
  {
    assert OWNER[0] != AMOUNT[0] && AMOUNT[0] != TERMINATED[0] && OWNER[0] != TERMINATED[0];
  }

  function Nullable(o: Option<string>): Value {
    if o.Some? then SqlBuilder.Text(o.value) else Null
  }

  /** A row with its columns by name. */
  function Encode(r: Row): DbRow {
    map[
      ID := Identity(r.Id()), INDEX_ID := Number(r.indexId), CONTRACT := Text(r.vault), OWNER := Text(r.owner),
      AMOUNT := Text(r.amount), START := Number(r.start),
      END := if r.end.Some? then Number(r.end.value) else Null,
      TERMINATED := Flag(r.terminated), RECEIVER := Nullable(r.receiver)]
  }

  /** The insert struct; its receiver is always nil. */
  function InsertRecord(i: PositionInsert): Record {
    [
      Field(INDEX_ID, Some(Number(i.indexId))), Field(OWNER, Some(Text(i.owner))), Field(CONTRACT, Some(Text(i.vault))),
      Field(AMOUNT, Some(Text(i.amount))), Field(START, Some(Number(i.start))), Field(RECEIVER, None)]
  }

  /** The update struct. */
  function UpdateRecord(u: PositionUpdate): Record {
    [
      Field(ID, Some(Identity(u.id))), Field(TERMINATED, Some(Flag(u.terminated))), Field(END, Some(Number(u.end))),
      Field(RECEIVER, if u.receiver.Some? then Some(Text(u.receiver.value)) else None)]
  }

  /** Column defaults of a new row; the generated id stands for the vault and index id it is inserted with. */
  function Defaults(i: PositionInsert): DbRow {
    map[
      ID := Identity(RowId(i.vault, i.indexId)), END := Null, TERMINATED := Flag(false), RECEIVER := Null]
  }

  function InsertRecords(inserts: seq<PositionInsert>): seq<Record> {
    seq(|inserts|, i requires 0 <= i < |inserts| => InsertRecord(inserts[i]))
  }

  function UpdateRecords(updates: seq<PositionUpdate>): seq<Record> {
    seq(|updates|, i requires 0 <= i < |updates| => UpdateRecord(updates[i]))
  }

  lemma {:induction false} UsedConcat(a: Record, b: Record)
    ensures Used(a + b) == Used(a) + Used(b)
  {
    if b == [] {
      assert a + b == a;
    } else {
      UsedConcat(a, b[..|b| - 1]);
      assert (a + b)[..|a + b| - 1] == a + b[..|b| - 1];
    }
  }

  lemma {:induction false} AllUsed(a: Record)
    requires forall i :: 0 <= i < |a| ==> IsUsed(a[i])
    ensures Used(a) == a
  {
    if a != [] {
      AllUsed(a[..|a| - 1]);
    }
  }

  lemma UsedOfUpdate(u: PositionUpdate)
    ensures Used(UpdateRecord(u)) == if u.receiver.Some? then UpdateRecord(u) else UpdateRecord(u)[..3]
    ensures DistinctColumns(Used(UpdateRecord(u)))
  {
    hide Used;
    ColumnsDiffer();
    var r := UpdateRecord(u);
    if u.receiver.Some? {
      AllUsed(r);
    } else {
      AllUsed(r[..3]);
      UsedConcat(r[..3], r[3..]);
      NotUsed(r[3]);
      assert r[3..] == [r[3]] && r == r[..3] + r[3..];
    }
  }

  lemma UsedOfInsert(i: PositionInsert)
    ensures Used(InsertRecord(i)) == InsertRecord(i)[..5] && DistinctColumns(Used(InsertRecord(i)))
  {
    hide Used;
    ColumnsDiffer();
    var r := InsertRecord(i);
    AllUsed(r[..5]);
    UsedConcat(r[..5], r[5..]);
    NotUsed(r[5]);
    assert r[5..] == [r[5]] && r == r[..5] + r[5..];
  }

  lemma NotUsed(f: Field)
    requires f.value.None?
    ensures Used([f]) == []
  {
  }

  /** What is overwritten determines the row. */
  lemma OverwrittenIsUnique(used: Record, keys: set<string>, row: DbRow, u: DbRow, w: DbRow)
    requires IsOverwritten(used, keys, row, u) && IsOverwritten(used, keys, row, w)
    ensures u == w
  {
    forall column ensures (column in u <==> column in w) && (column in u ==> u[column] == w[column]) {
      if f :| f in used && f.column !in keys && f.column == column {
        assert u[f.column] == w[f.column];
      }
    }
  }

  /** Executing an UPDATE on one row. */
  ghost function ExecuteUpdate(b: Built, row: DbRow): DbRow
    requires b.Built? && b.statement.Update? && Bound(b.statement.sets, b.args) && Bound(b.statement.wheres, b.args)
  {
    if Selects(b.statement.wheres, b.args, row) then Assigned(b.statement.sets, b.args, row) else row
  }

  lemma UpdateIsTarget(r: Row, u: PositionUpdate)
    ensures IsTarget(Used(UpdateRecord(u)), {ID}, Encode(r)) <==> r.Id() == u.id
  {
    hide Used;
    ColumnsDiffer();
    UsedOfUpdate(u);
    var used := Used(UpdateRecord(u));
    assert used[0] == Field(ID, Some(Identity(u.id))) && used[0] in used;
    assert forall f :: f in used && f.column == ID ==> f == used[0];
  }

  lemma UpdateField(r: Row, u: PositionUpdate, f: Field)
    requires r.Id() == u.id && f in UpdateRecord(u) && f.column != ID && f.value.Some?
    ensures f.column in Encode(UpdatedRow(r, u)) && Encode(UpdatedRow(r, u))[f.column] == f.value.value
  {
    ColumnsDiffer();
  }

  lemma UpdateOther(r: Row, u: PositionUpdate, column: string)
    requires r.Id() == u.id && column != TERMINATED && column != END && (column == RECEIVER ==> u.receiver.None?)
    ensures column in Encode(UpdatedRow(r, u)) <==> column in Encode(r)
    ensures column in Encode(r) ==> Encode(UpdatedRow(r, u))[column] == Encode(r)[column]
  {
    ColumnsDiffer();
  }

  lemma UpdateIsOverwrite(r: Row, u: PositionUpdate)
    requires r.Id() == u.id
    ensures IsOverwritten(Used(UpdateRecord(u)), {ID}, Encode(r), Encode(UpdatedRow(r, u)))
  {
    hide Used, Encode;
    UsedOfUpdate(u);
    var used, w := Used(UpdateRecord(u)), Encode(UpdatedRow(r, u));
    forall f | f in used && f.column !in {ID} ensures f.value.Some? && f.column in w && w[f.column] == f.value.value {
      UpdateField(r, u, f);
    }
    ColumnsDiffer();
    assert used[1] in used && used[2] in used;
    if u.receiver.Some? { assert used[3] in used; }
    forall column | (forall f :: f in used && f.column !in {ID} ==> f.column != column)
      ensures (column in w <==> column in Encode(r)) && (column in Encode(r) ==> w[column] == Encode(r)[column])
    {
      UpdateOther(r, u, column);
    }
  }

  /** The statement built for a list of updates does to every row what the first update says. */
  lemma UpdateStatement(r: Row, updates: seq<PositionUpdate>)
    requires updates != []
    ensures
      var b := UpdateOf(POSITIONS, Many(UpdateRecords(updates)), {ID});
      && b.Built? && b.statement.Update? && Bound(b.statement.sets, b.args) && Bound(b.statement.wheres, b.args)
      && ExecuteUpdate(b, Encode(r)) == Encode(UpdatedRow(r, updates[0]))
  {
    hide Used, Clauses, Values, Encode, IsTarget, IsOverwritten, UpdateRecord, DistinctColumns, Selects, Assigned;
    var u, data := updates[0], Many(UpdateRecords(updates));
    assert RecordOf(data) == Some(UpdateRecord(u));
    UsedOfUpdate(u);
    UpdateIsBuilt(u);
    UpdateMeans(POSITIONS, data, {ID}, Encode(r));
    UpdateIsTarget(r, u);
    if r.Id() == u.id {
      UpdateIsOverwrite(r, u);
      var b := UpdateOf(POSITIONS, data, {ID});
      OverwrittenIsUnique(Used(UpdateRecord(u)), {ID}, Encode(r), Assigned(b.statement.sets, b.args, Encode(r)),
        Encode(UpdatedRow(r, u)));
    }
  }

  lemma UpdateIsBuilt(u: PositionUpdate)
    ensures Clauses(Used(UpdateRecord(u)), {ID}, false) != [] && Clauses(Used(UpdateRecord(u)), {ID}, true) != []
  {
    hide Used, Clauses;
    ColumnsDiffer();
    UsedOfUpdate(u);
    var used := Used(UpdateRecord(u));
    UsedAreUsed(UpdateRecord(u));
    ClausesAreAligned(used, {ID}, false);
    ClausesAreAligned(used, {ID}, true);
    assert Clause(ID, 1) in Clauses(used, {ID}, true) && Clause(TERMINATED, 2) in Clauses(used, {ID}, false);
  }

  /** The statement built for a list of inserts adds the first row of the list. */
  lemma InsertStatement(inserts: seq<PositionInsert>)
    requires inserts != []
    ensures
      var b := InsertOf(POSITIONS, Many(InsertRecords(inserts)));
      && b.Built? && b.statement.Insert? && Bound(b.statement.values, b.args)
      && Assigned(b.statement.values, b.args, Defaults(inserts[0])) == Encode(InsertedRow(inserts[0]))
  {
    hide Used, Clauses, Values, Encode, IsOverwritten, InsertRecord, DistinctColumns, Assigned, Defaults;
    var i, data := inserts[0], Many(InsertRecords(inserts));
    assert RecordOf(data) == Some(InsertRecord(i));
    UsedOfInsert(i);
    InsertIsBuilt(i);
    InsertMeans(POSITIONS, data, Defaults(i));
    InsertIsOverwrite(i);
    var b := InsertOf(POSITIONS, data);
    OverwrittenIsUnique(Used(InsertRecord(i)), {}, Defaults(i), Assigned(b.statement.values, b.args, Defaults(i)),
      Encode(InsertedRow(i)));
  }

  lemma InsertIsBuilt(i: PositionInsert)
    ensures Clauses(Used(InsertRecord(i)), {}, false) != []
  {
    hide Used, Clauses;
    UsedOfInsert(i);
    UsedAreUsed(InsertRecord(i));
    ClausesAreAligned(Used(InsertRecord(i)), {}, false);
    assert Clause(INDEX_ID, 1) in Clauses(Used(InsertRecord(i)), {}, false);
  }

  lemma InsertField(i: PositionInsert, f: Field)
    requires f in InsertRecord(i)[..5]
    ensures f.value.Some? && f.column in Encode(InsertedRow(i)) && Encode(InsertedRow(i))[f.column] == f.value.value
  {
    ColumnsDiffer();
  }

  lemma InsertOther(i: PositionInsert, column: string)
    requires column != INDEX_ID && column != OWNER && column != CONTRACT && column != AMOUNT && column != START
    ensures column in Encode(InsertedRow(i)) <==> column in Defaults(i)
    ensures column in Defaults(i) ==> Encode(InsertedRow(i))[column] == Defaults(i)[column]
  {
    ColumnsDiffer();
  }

  lemma InsertIsOverwrite(i: PositionInsert)
    ensures IsOverwritten(Used(InsertRecord(i)), {}, Defaults(i), Encode(InsertedRow(i)))
  {
    hide Used, Encode, Defaults;
    UsedOfInsert(i);
    var used, u := Used(InsertRecord(i)), Encode(InsertedRow(i));
    forall f | f in used ensures f.value.Some? && f.column in u && u[f.column] == f.value.value {
      InsertField(i, f);
    }
    assert used[0] in used && used[1] in used && used[2] in used && used[3] in used && used[4] in used;
    forall column | (forall f :: f in used ==> f.column != column)
      ensures (column in u <==> column in Defaults(i)) && (column in Defaults(i) ==> u[column] == Defaults(i)[column])
    {
      InsertOther(i, column);
    }
  }

  function EncodeTable(t: Table): seq<DbRow> {
    seq(|t|, i requires 0 <= i < |t| => Encode(t[i]))
  }

  /** The statement built for a list of inserts, on a database. */
  ghost function ExecuteInserts(db: Database, inserts: seq<PositionInsert>): Database
    requires inserts != []
  {
    InsertStatement(inserts);
    ExecuteOn(db, InsertOf(POSITIONS, Many(InsertRecords(inserts))), Defaults(inserts[0]))
  }

  /** The statement built for a list of updates, on a database. */
  ghost function ExecuteUpdates(db: Database, updates: seq<PositionUpdate>): Database
    requires updates != []
  {
    UpdateStatement(InsertedRow(PositionInsert(0, "", "", "", 0)), updates);
    ExecuteOn(db, UpdateOf(POSITIONS, Many(UpdateRecords(updates)), {ID}), map[])
  }

  /** What the transaction of an event executes on the positions: at most one INSERT, then at most one UPDATE. */
  ghost function ExecuteOperations(db: Database, ops: Operations): Database {
    var grown := if ops.inserts == [] then db else ExecuteInserts(db, ops.inserts);
    if ops.updates == [] then grown else ExecuteUpdates(grown, ops.updates)
  }

  /** The database holds these position rows, in its table of that name. */
  ghost predicate Holds(db: Database, t: Table) {
    "positions" in db && db["positions"] == EncodeTable(t)
  }

  lemma InsertsExecuted(db: Database, t: Table, inserts: seq<PositionInsert>)
    requires inserts != [] && Holds(db, t)
    ensures Holds(ExecuteInserts(db, inserts), t + InsertedRows(FirstOf(inserts)))
    ensures OnlyTable(db, ExecuteInserts(db, inserts), "positions")
  {
    hide Encode, InsertOf, Defaults, Assigned;
    InsertStatement(inserts);
    var row := InsertedRow(inserts[0]);
    assert InsertedRows(FirstOf(inserts)) == [row];
    assert EncodeTable(t + [row]) == EncodeTable(t) + [Encode(row)];
    assert InsertOf(POSITIONS, Many(InsertRecords(inserts))).statement.table == "positions" by {
      NamedTable(inserts);
    }
  }

  lemma NamedTable(inserts: seq<PositionInsert>)
    requires inserts != [] && InsertOf(POSITIONS, Many(InsertRecords(inserts))).Built?
    ensures InsertOf(POSITIONS, Many(InsertRecords(inserts))).statement.table == "positions"
  {
    hide Used, Clauses;
  }

  lemma NamedTableOfUpdate(updates: seq<PositionUpdate>)
    requires updates != [] && UpdateOf(POSITIONS, Many(UpdateRecords(updates)), {ID}).Built?
    ensures UpdateOf(POSITIONS, Many(UpdateRecords(updates)), {ID}).statement.table == "positions"
  {
    hide Used, Clauses;
  }

  lemma UpdatesExecuted(db: Database, t: Table, updates: seq<PositionUpdate>)
    requires updates != [] && Holds(db, t)
    ensures Holds(ExecuteUpdates(db, updates), UpdateRows(t, updates[0]))
    ensures OnlyTable(db, ExecuteUpdates(db, updates), "positions")
  {
    hide Encode, UpdateOf, Selects, Assigned;
    UpdateStatement(InsertedRow(PositionInsert(0, "", "", "", 0)), updates);
    NamedTableOfUpdate(updates);
    var b := UpdateOf(POSITIONS, Many(UpdateRecords(updates)), {ID});
    forall i | 0 <= i < |t| ensures ExecuteUpdate(b, Encode(t[i])) == Encode(UpdatedRow(t[i], updates[0])) {
      UpdateStatement(t[i], updates);
    }
    var rows := ExecuteUpdates(db, updates)["positions"];
    assert forall i :: 0 <= i < |t| ==> rows[i] == ExecuteUpdate(b, Encode(t[i]));
    assert rows == EncodeTable(UpdateRows(t, updates[0]));
  }

  /**
    Executing the built statements is the FirstOnly mode: of each list, the first element and nothing else, in the
    positions table and no other.
  */
  lemma StatementsPersistFirstOnly(db: Database, t: Table, ops: Operations)
    requires Holds(db, t)
    ensures Holds(ExecuteOperations(db, ops), Persist(FirstOnly, t, ops))
    ensures OnlyTable(db, ExecuteOperations(db, ops), "positions")
  {
    hide EncodeTable, ExecuteInserts, ExecuteUpdates, UpdateAll;
    var grown := t + InsertedRows(FirstOf(ops.inserts));
    if ops.inserts != [] {
      InsertsExecuted(db, t, ops.inserts);
    } else {
      assert grown == t;
    }
    var inserted := if ops.inserts == [] then db else ExecuteInserts(db, ops.inserts);
    if ops.updates != [] {
      UpdatesExecuted(inserted, grown, ops.updates);
      FirstUpdateOnly(grown, ops.updates);
    } else {
      NothingUpdated(grown);
    }
  }

  lemma NothingUpdated(t: Table)
    ensures UpdateAll(t, FirstOf([])) == t
  {
  }

  lemma FirstUpdateOnly(t: Table, updates: seq<PositionUpdate>)
    requires updates != []
    ensures UpdateAll(t, FirstOf(updates)) == UpdateRows(t, updates[0])
  {
    assert UpdateAll(UpdateRows(t, updates[0]), FirstOf(updates)[1..]) == UpdateRows(t, updates[0]);
  }

  /** The columns of a stored row by the names of the schema. */
  lemma RowsFollowTheSchema(r: Row)
    ensures
      var row := Encode(r);
      && row["position_index_id"] == Number(r.indexId) && row["contract_address"] == Text(r.vault)
      && row["owner_address"] == Text(r.owner) && row["amount_shares"] == Text(r.amount)
      && row["position_start_height"] == Number(r.start)
      && row["position_end_height"] == (if r.end.Some? then Number(r.end.value) else Null)
      && row["is_terminated"] == Flag(r.terminated)
      && row["withdraw_receiver_address"] == (if r.receiver.Some? then SqlBuilder.Text(r.receiver.value) else Null)
  {
    ColumnsDiffer();
  }
}
