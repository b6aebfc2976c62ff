/** Building parameterised statements from a struct's fields, and what the statements do to a table. */
module SqlBuilder {
  import opened Chain
  import opened Positions

  datatype Value = Null | Text(text: string) | Number(number: int) | Flag(flag: bool) | Identity(id: RowId)

  /** One struct field: its column tag and its database value, none for a nil pointer. */
  datatype Field = Field(column: string, value: Option<Value>)

  type Record = seq<Field>

  /** A struct, or a slice of structs. */
  datatype Data = One(record: Record) | Many(records: seq<Record>)

  datatype BuildError = EmptySlice | NoFieldsToInsert | NoFieldsToUpdate | NoWhereCondition

  /** column = $placeholder */
  datatype Clause = Clause(column: string, placeholder: nat)

  datatype Statement =
    | Insert(table: string, values: seq<Clause>)
    | Update(table: string, sets: seq<Clause>, wheres: seq<Clause>)
    | Delete(table: string, wheres: seq<Clause>)

  datatype Built = Built(statement: Statement, args: seq<Value>) | Failed(error: BuildError)

  // -------------------------------------------------------- specification

  /** Of a slice only the first element is used. */
  function RecordOf(data: Data): Option<Record> {
    match data
    case One(record) => Some(record)
    case Many(records) => if records == [] then None else Some(records[0])
  }

  predicate IsUsed(f: Field) {
    f.column != "-" && f.column != "" && f.value.Some?
  }

  /** The fields that take part: tagged and not nil. */
  function Used(record: Record): Record {
    if record == [] then []
    else Used(record[..|record| - 1]) + if IsUsed(record[|record| - 1]) then [record[|record| - 1]] else []
  }

  function ValueOf(f: Field): Value {
    if f.value.Some? then f.value.value else Null
  }

  function Values(used: Record): seq<Value> {
    seq(|used|, i requires 0 <= i < |used| => ValueOf(used[i]))
  }

  /** The clauses of the fields inside, or outside, a set of columns; placeholders count all fields. */
  function Clauses(used: Record, columns: set<string>, inside: bool): seq<Clause> {
    if used == [] then []
    else
      var last := used[|used| - 1];
      Clauses(used[..|used| - 1], columns, inside) +
        if (last.column in columns) == inside then [Clause(last.column, |used|)] else []
  }

  /** The fields whose column is in the set. */
  function Restrict(record: Record, columns: set<string>): Record {
    if record == [] then []
    else
      var last := record[|record| - 1];
      Restrict(record[..|record| - 1], columns) + if last.column in columns then [last] else []
  }

  lemma {:induction false} UsedAreUsed(record: Record)
    ensures forall i :: 0 <= i < |Used(record)| ==> IsUsed(Used(record)[i])
  {
    if record != [] {
      UsedAreUsed(record[..|record| - 1]);
    }
  }

  lemma {:induction false} RestrictKeepsUsed(record: Record, columns: set<string>)
    requires forall i :: 0 <= i < |record| ==> IsUsed(record[i])
    ensures forall i :: 0 <= i < |Restrict(record, columns)| ==>
      IsUsed(Restrict(record, columns)[i]) && Restrict(record, columns)[i].column in columns
  {
    if record != [] {
      RestrictKeepsUsed(record[..|record| - 1], columns);
    }
  }

  function UpdateOf(table: string, data: Data, keys: set<string>): Built {
    match RecordOf(data)
    case None => Failed(EmptySlice)
    case Some(record) =>
      var sets, wheres := Clauses(Used(record), keys, false), Clauses(Used(record), keys, true);
      if sets == [] then Failed(NoFieldsToUpdate)
      else if wheres == [] then Failed(NoWhereCondition)
      else Built(Update(table, sets, wheres), Values(Used(record)))
  }

  function InsertOf(table: string, data: Data): Built {
    match RecordOf(data)
    case None => Failed(EmptySlice)
    case Some(record) =>
      var values := Clauses(Used(record), {}, false);
      if values == [] then Failed(NoFieldsToInsert) else Built(Insert(table, values), Values(Used(record)))
  }

  function DeleteOf(table: string, data: Data, keys: set<string>): Built {
    match RecordOf(data)
    case None => Failed(EmptySlice)
    case Some(record) =>
      var wheres := Clauses(Restrict(Used(record), keys), keys, true);
      if wheres == [] then Failed(NoWhereCondition)
      else Built(Delete(table, wheres), Values(Restrict(Used(record), keys)))
  }

  // ------------------------------------------------------------ the program

  lemma UsedSnoc(v: Record, i: nat)
    requires i < |v|
    ensures Used(v[..i + 1]) == Used(v[..i]) + if IsUsed(v[i]) then [v[i]] else []
  {
    assert v[..i + 1][..i] == v[..i];
  }

  /** One more used field adds one argument and one clause on its side. */
  lemma ClausesSnoc(used: Record, f: Field, columns: set<string>)
    ensures forall inside ::
      (Clauses(used + [f], columns, inside)
       == Clauses(used, columns, inside)
          + if (f.column in columns) == inside then [Clause(f.column, |used| + 1)] else [])
    ensures Values(used + [f]) == Values(used) + [ValueOf(f)]
    ensures Restrict(used + [f], columns) == Restrict(used, columns) + if f.column in columns then [f] else []
  {
    assert (used + [f])[..|used|] == used;
  }

  method BuildUpdate(table: string, data: Data, whereKeys: set<string>) returns (r: Built)
    ensures r == UpdateOf(table, data, whereKeys)
  {
    hide Used, Clauses, Values, Restrict;
    if data.Many? && |data.records| == 0 {
      return Failed(EmptySlice);
    }
    var v := if data.Many? then data.records[0] else data.record;
    var setClauses: seq<Clause>, whereClauses: seq<Clause>, args: seq<Value> := [], [], [];
    var argIndex := 1;
    ghost var used := NothingUsed(v, whereKeys);
    for i := 0 to |v|
      invariant used == Used(v[..i]) && argIndex == |used| + 1 && args == Values(used)
      invariant setClauses == Clauses(used, whereKeys, false) && whereClauses == Clauses(used, whereKeys, true)
    {
      UsedSnoc(v, i);
      var field := v[i];
      if field.column == "-" || field.column == "" || field.value.None? {
        assert used + [] == used;
        continue;
      }
      ClausesSnoc(used, field, whereKeys);
      if field.column in whereKeys {
        whereClauses := whereClauses + [Clause(field.column, argIndex)];
      } else {
        setClauses := setClauses + [Clause(field.column, argIndex)];
      }
      args := args + [field.value.value];
      argIndex := argIndex + 1;
      used := used + [field];
    }
    assert v[..|v|] == v;
    if setClauses == [] {
      return Failed(NoFieldsToUpdate);
    }
    if whereClauses == [] {
      return Failed(NoWhereCondition);
    }
    return Built(Update(table, setClauses, whereClauses), args);
  }

  lemma NothingUsed(v: Record, columns: set<string>) returns (used: Record)
    ensures used == [] == Used(v[..0]) && Values(used) == [] && Restrict(used, columns) == []
    ensures forall inside :: Clauses(used, columns, inside) == []
  {
    used := [];
  }

  method BuildInsert(table: string, data: Data) returns (r: Built)
    ensures r == InsertOf(table, data)
  {
    hide Used, Clauses, Values, Restrict;
    if data.Many? && |data.records| == 0 {
      return Failed(EmptySlice);
    }
    var v := if data.Many? then data.records[0] else data.record;
    var columns: seq<Clause>, args: seq<Value> := [], [];
    var argIndex := 1;
    ghost var used := NothingUsed(v, {});
    for i := 0 to |v|
      invariant used == Used(v[..i]) && argIndex == |used| + 1 && args == Values(used)
      invariant columns == Clauses(used, {}, false)
    {
      UsedSnoc(v, i);
      var field := v[i];
      if field.column == "-" || field.column == "" || field.value.None? {
        assert used + [] == used;
        continue;
      }
      ClausesSnoc(used, field, {});
      columns := columns + [Clause(field.column, argIndex)];
      args := args + [field.value.value];
      argIndex := argIndex + 1;
      used := used + [field];
    }
    assert v[..|v|] == v;
    if columns == [] {
      return Failed(NoFieldsToInsert);
    }
    return Built(Insert(table, columns), args);
  }

  method BuildDelete(table: string, data: Data, whereKeys: set<string>) returns (r: Built)
    ensures r == DeleteOf(table, data, whereKeys)
  {
    hide Used, Clauses, Values, Restrict;
    if data.Many? && |data.records| == 0 {
      return Failed(EmptySlice);
    }
    var v := if data.Many? then data.records[0] else data.record;
    var whereClauses: seq<Clause>, args: seq<Value> := [], [];
    var argIndex := 1;
    ghost var used := NothingUsed(v, whereKeys);
    ghost var kept := used;
    for i := 0 to |v|
      invariant used == Used(v[..i]) && kept == Restrict(used, whereKeys)
      invariant argIndex == |kept| + 1 && args == Values(kept)
      invariant whereClauses == Clauses(kept, whereKeys, true)
    {
      UsedSnoc(v, i);
      var field := v[i];
      ClausesSnoc(used, field, whereKeys);
      ClausesSnoc(kept, field, whereKeys);
      used := Used(v[..i + 1]);
      if field.column == "-" || field.column == "" || field.column !in whereKeys || field.value.None? {
        assert Used(v[..i]) + [] == Used(v[..i]) && kept + [] == kept;
        continue;
      }
      whereClauses := whereClauses + [Clause(field.column, argIndex)];
      args := args + [field.value.value];
      argIndex := argIndex + 1;
      kept := kept + [field];
    }
    assert v[..|v|] == v;
    if whereClauses == [] {
      return Failed(NoWhereCondition);
    }
    return Built(Delete(table, whereClauses), args);
  }

  // --------------------------------------------------------------- meaning

  /** A stored row: every column has a value, possibly null. */
  type DbRow = map<string, Value>

  ghost predicate Bound(clauses: seq<Clause>, args: seq<Value>) {
    forall i :: 0 <= i < |clauses| ==> 1 <= clauses[i].placeholder <= |args|
  }

  /** All conditions hold: column = $k for each clause, and null never equals anything. */
  ghost predicate Selects(wheres: seq<Clause>, args: seq<Value>, row: DbRow)
    requires Bound(wheres, args)
  {
    forall i :: 0 <= i < |wheres| ==>
      wheres[i].column in row && row[wheres[i].column] == args[wheres[i].placeholder - 1] &&
        !args[wheres[i].placeholder - 1].Null?
  }

  /** The assignments from left to right. */
  function Assigned(sets: seq<Clause>, args: seq<Value>, row: DbRow): DbRow
    requires forall i :: 0 <= i < |sets| ==> 1 <= sets[i].placeholder <= |args|
  {
    if sets == [] then row
    else
      var last := sets[|sets| - 1];
      Assigned(sets[..|sets| - 1], args, row)[last.column := args[last.placeholder - 1]]
  }

  ghost predicate DistinctTargets(clauses: seq<Clause>) {
    forall i, j :: 0 <= i < j < |clauses| ==> clauses[i].column != clauses[j].column
  }

  ghost predicate DistinctColumns(record: Record) {
    forall i, j :: 0 <= i < j < |record| ==> record[i].column != record[j].column
  }

  /** Each clause names one field and is bound to that field's value; in order, none is left out. */
  lemma {:induction false} ClausesAreAligned(used: Record, columns: set<string>, inside: bool)
    requires forall i :: 0 <= i < |used| ==> IsUsed(used[i])
    ensures Bound(Clauses(used, columns, inside), Values(used))
    ensures forall c :: c in Clauses(used, columns, inside) <==>
      1 <= c.placeholder <= |used| && used[c.placeholder - 1].column == c.column && ((c.column in columns) == inside)
  {
    if used != [] {
      ClausesAreAligned(used[..|used| - 1], columns, inside);
      var cs := Clauses(used, columns, inside);
      var init := Clauses(used[..|used| - 1], columns, inside);
      assert forall c :: c in cs <==> c in init || (c == Clause(used[|used| - 1].column, |used|) && c in cs);
    }
  }

  function Placeholders(clauses: seq<Clause>): multiset<nat> {
    if clauses == [] then multiset{}
    else Placeholders(clauses[..|clauses| - 1]) + multiset{clauses[|clauses| - 1].placeholder}
  }

  function OneTo(n: nat): multiset<nat> {
    if n == 0 then multiset{} else OneTo(n - 1) + multiset{n}
  }

  lemma PlaceholdersSnoc(cs: seq<Clause>, c: Clause)
    ensures Placeholders(cs + [c]) == Placeholders(cs) + multiset{c.placeholder}
  {
    assert (cs + [c])[..|cs|] == cs;
  }

  /** The SET and WHERE clauses together use $1, ..., $n, each exactly once. */
  lemma {:induction false} PlaceholdersUsedOnce(used: Record, keys: set<string>)
    ensures Placeholders(Clauses(used, keys, false)) + Placeholders(Clauses(used, keys, true)) == OneTo(|used|)
  {
    hide Placeholders;
    if used == [] {
      assert Placeholders([]) == multiset{} by { NoPlaceholders(); }
    } else {
      var init, c := used[..|used| - 1], Clause(used[|used| - 1].column, |used|);
      PlaceholdersUsedOnce(init, keys);
      PlaceholdersSnoc(Clauses(init, keys, false), c);
      PlaceholdersSnoc(Clauses(init, keys, true), c);
      assert forall inside :: Clauses(init, keys, inside) + [] == Clauses(init, keys, inside);
    }
  }

  lemma NoPlaceholders()
    ensures Placeholders([]) == multiset{}
  {
  }

  /** Assignments with distinct columns give each of those columns its value. */
  lemma {:induction false} AssignedSets(sets: seq<Clause>, args: seq<Value>, row: DbRow, i: nat)
    requires Bound(sets, args) && DistinctTargets(sets) && i < |sets|
    ensures sets[i].column in Assigned(sets, args, row)
    ensures Assigned(sets, args, row)[sets[i].column] == args[sets[i].placeholder - 1]
  {
    if i < |sets| - 1 {
      AssignedSets(sets[..|sets| - 1], args, row, i);
    }
  }

  /** Every other column keeps its value. */
  lemma {:induction false} AssignedLeaves(sets: seq<Clause>, args: seq<Value>, row: DbRow, column: string)
    requires Bound(sets, args) && forall c :: c in sets ==> c.column != column
    ensures column in Assigned(sets, args, row) <==> column in row
    ensures column in row ==> Assigned(sets, args, row)[column] == row[column]
  {
    if sets != [] {
      AssignedLeaves(sets[..|sets| - 1], args, row, column);
      assert sets[|sets| - 1] in sets;
    }
  }

  lemma {:induction false} ClauseColumnsDistinct(used: Record, columns: set<string>, inside: bool)
    requires DistinctColumns(used) && forall i :: 0 <= i < |used| ==> IsUsed(used[i])
    ensures DistinctTargets(Clauses(used, columns, inside))
  {
    if used != [] {
      var init, last := used[..|used| - 1], used[|used| - 1];
      ClauseColumnsDistinct(init, columns, inside);
      ClausesAreAligned(init, columns, inside);
      var before, cs := Clauses(init, columns, inside), Clauses(used, columns, inside);
      forall i | 0 <= i < |before| ensures before[i].column != last.column {
        assert before[i] in before;
        assert used[before[i].placeholder - 1].column == before[i].column;
      }
      forall i, j | 0 <= i < j < |cs| ensures cs[i].column != cs[j].column {
        assert cs[i] == before[i];
      }
    }
  }

  /** The rows an update is meant for: all non-nil key fields match. */
  ghost predicate IsTarget(used: Record, keys: set<string>, row: DbRow) {
    forall f :: f in used && f.column in keys ==>
      f.value.Some? && f.column in row && row[f.column] == f.value.value && !f.value.value.Null?
  }

  /** u is row with exactly the non-nil non-key fields written over it. */
  ghost predicate IsOverwritten(used: Record, keys: set<string>, row: DbRow, u: DbRow) {
    && (forall f :: f in used && f.column !in keys ==> f.value.Some? && f.column in u && u[f.column] == f.value.value)
    && (forall column :: (forall f :: f in used && f.column !in keys ==> f.column != column) ==>
          ((column in u <==> column in row) && (column in row ==> u[column] == row[column])))
  }

  /**
    The built WHERE clause selects exactly the target rows, and the built SET clause overwrites exactly the other
    fields.
  */
  lemma UpdateMeans(table: string, data: Data, keys: set<string>, row: DbRow)
    requires UpdateOf(table, data, keys).Built? && DistinctColumns(Used(RecordOf(data).value))
    ensures
      var built := UpdateOf(table, data, keys);
      var used := Used(RecordOf(data).value);
      && built.statement.Update? && built.statement.table == table
      && Bound(built.statement.sets, built.args) && Bound(built.statement.wheres, built.args)
      && (Selects(built.statement.wheres, built.args, row) <==> IsTarget(used, keys, row))
      && IsOverwritten(used, keys, row, Assigned(built.statement.sets, built.args, row))
  {
    hide DistinctColumns, Used, Clauses, Values;
    var built := UpdateOf(table, data, keys);
    var used := Used(RecordOf(data).value);
    UsedAreUsed(RecordOf(data).value);
    SelectsMeans(used, keys, row);
    SetsMean(used, keys, row);
  }

  lemma SelectsMeans(used: Record, keys: set<string>, row: DbRow)
    requires forall i :: 0 <= i < |used| ==> IsUsed(used[i])
    ensures Bound(Clauses(used, keys, true), Values(used))
    ensures Selects(Clauses(used, keys, true), Values(used), row) <==> IsTarget(used, keys, row)
  {
    hide Clauses;
    ClausesAreAligned(used, keys, true);
    var wheres, args := Clauses(used, keys, true), Values(used);
    if Selects(wheres, args, row) {
      forall f | f in used && f.column in keys
        ensures f.value.Some? && f.column in row && row[f.column] == f.value.value && !f.value.value.Null?
      {
        var i :| 0 <= i < |used| && used[i] == f;
        assert Clause(f.column, i + 1) in wheres;
      }
    }
    if IsTarget(used, keys, row) {
      forall i | 0 <= i < |wheres| ensures
        wheres[i].column in row && row[wheres[i].column] == args[wheres[i].placeholder - 1] &&
          !args[wheres[i].placeholder - 1].Null?
      {
        assert wheres[i] in wheres;
        assert used[wheres[i].placeholder - 1] in used;
      }
    }
  }

  lemma SetsMean(used: Record, keys: set<string>, row: DbRow)
    requires DistinctColumns(used) && forall i :: 0 <= i < |used| ==> IsUsed(used[i])
    ensures Bound(Clauses(used, keys, false), Values(used))
    ensures IsOverwritten(used, keys, row, Assigned(Clauses(used, keys, false), Values(used), row))
  {
    hide Clauses, Assigned, DistinctColumns, DistinctTargets;
    ClausesAreAligned(used, keys, false);
    ClauseColumnsDistinct(used, keys, false);
    var sets, args := Clauses(used, keys, false), Values(used);
    var u := Assigned(sets, args, row);
    forall f | f in used && f.column !in keys ensures f.value.Some? && f.column in u && u[f.column] == f.value.value {
      var i :| 0 <= i < |used| && used[i] == f;
      assert Clause(f.column, i + 1) in sets;
      var k :| 0 <= k < |sets| && sets[k] == Clause(f.column, i + 1);
      AssignedSets(sets, args, row, k);
    }
    forall column | (forall f :: f in used && f.column !in keys ==> f.column != column)
      ensures (column in u <==> column in row) && (column in row ==> u[column] == row[column])
    {
      forall c | c in sets ensures c.column != column {
        assert used[c.placeholder - 1] in used;
      }
      AssignedLeaves(sets, args, row, column);
    }
  }

  /** The inserted row is the defaults with exactly the non-nil fields written over them. */
  lemma InsertMeans(table: string, data: Data, defaults: DbRow)
    requires InsertOf(table, data).Built? && DistinctColumns(Used(RecordOf(data).value))
    ensures
      var built := InsertOf(table, data);
      && built.statement.Insert? && built.statement.table == table
      && Bound(built.statement.values, built.args)
      && IsOverwritten(Used(RecordOf(data).value), {}, defaults, Assigned(built.statement.values, built.args, defaults))
  {
    hide DistinctColumns, Used, Clauses, Values;
    UsedAreUsed(RecordOf(data).value);
    SetsMean(Used(RecordOf(data).value), {}, defaults);
  }

  lemma {:induction false} RestrictMembers(record: Record, columns: set<string>)
    ensures forall f :: f in Restrict(record, columns) <==> f in record && f.column in columns
  {
    if record != [] {
      RestrictMembers(record[..|record| - 1], columns);
      assert record == record[..|record| - 1] + [record[|record| - 1]];
    }
  }

  /** The built deletion selects exactly the target rows. */
  lemma DeleteMeans(table: string, data: Data, keys: set<string>, row: DbRow)
    requires DeleteOf(table, data, keys).Built?
    ensures
      var built := DeleteOf(table, data, keys);
      && built.statement.Delete? && built.statement.table == table
      && Bound(built.statement.wheres, built.args)
      && (Selects(built.statement.wheres, built.args, row) <==> IsTarget(Used(RecordOf(data).value), keys, row))
  {
    hide Used, Clauses, Values, Restrict;
    var used := Used(RecordOf(data).value);
    UsedAreUsed(RecordOf(data).value);
    RestrictKeepsUsed(used, keys);
    RestrictMembers(used, keys);
    SelectsMeans(Restrict(used, keys), keys, row);
  }

  /** Only the first element of a slice matters, and an empty slice is an error. */
  lemma OnlyFirstElement(table: string, records: seq<Record>, keys: set<string>)
    ensures records == [] ==>
      UpdateOf(table, Many(records), keys) == InsertOf(table, Many(records)) == DeleteOf(table, Many(records), keys)
        == Failed(EmptySlice)
    ensures records != [] ==>
      && UpdateOf(table, Many(records), keys) == UpdateOf(table, One(records[0]), keys)
      && InsertOf(table, Many(records)) == InsertOf(table, One(records[0]))
      && DeleteOf(table, Many(records), keys) == DeleteOf(table, One(records[0]), keys)
  {
  }

  /** The fields that take part, in terms of the struct: a tag that is neither empty nor a dash, and no nil pointer. */
  ghost predicate TakesPart(record: Record, f: Field) {
    f in record && f.column != "" && f.column != "-" && f.value.Some?
  }

  lemma {:induction false} UsedMembers(record: Record)
    ensures forall f :: f in Used(record) <==> TakesPart(record, f)
  {
    if record != [] {
      UsedMembers(record[..|record| - 1]);
      assert record == record[..|record| - 1] + [record[|record| - 1]];
    }
  }

  lemma NoClausesMeans(used: Record, columns: set<string>, inside: bool)
    requires forall i :: 0 <= i < |used| ==> IsUsed(used[i])
    ensures Clauses(used, columns, inside) == [] <==> forall f :: f in used ==> (f.column in columns) != inside
  {
    hide Clauses;
    ClausesAreAligned(used, columns, inside);
    if f :| f in used && (f.column in columns) == inside {
      var i :| 0 <= i < |used| && used[i] == f;
      assert Clause(f.column, i + 1) in Clauses(used, columns, inside);
    } else if Clauses(used, columns, inside) != [] {
      var c := Clauses(used, columns, inside)[0];
      assert c in Clauses(used, columns, inside);
      assert used[c.placeholder - 1] in used;
    }
  }

  /** When no statement is built, told from the struct's fields. */
  lemma BuildingFails(table: string, data: Data, keys: set<string>)
    ensures data == Many([]) ==>
      InsertOf(table, data) == UpdateOf(table, data, keys) == DeleteOf(table, data, keys) == Failed(EmptySlice)
    ensures data != Many([]) ==>
      var record := if data.One? then data.record else data.records[0];
      var some := exists f :: TakesPart(record, f);
      var key := exists f :: TakesPart(record, f) && f.column in keys;
      var nonKey := exists f :: TakesPart(record, f) && f.column !in keys;
      && (if some then InsertOf(table, data).Built? else InsertOf(table, data) == Failed(NoFieldsToInsert))
      && (if !nonKey then UpdateOf(table, data, keys) == Failed(NoFieldsToUpdate)
          else if !key then UpdateOf(table, data, keys) == Failed(NoWhereCondition)
          else UpdateOf(table, data, keys).Built?)
      && (if key then DeleteOf(table, data, keys).Built? else DeleteOf(table, data, keys) == Failed(NoWhereCondition))
  {
    hide Used, Clauses, Values, Restrict;
    if data != Many([]) {
      var record := if data.One? then data.record else data.records[0];
      var used := Used(record);
      UsedMembers(record);
      UsedAreUsed(record);
      RestrictKeepsUsed(used, keys);
      RestrictMembers(used, keys);
      NoClausesMeans(used, {}, false);
      NoClausesMeans(used, keys, false);
      NoClausesMeans(used, keys, true);
      NoClausesMeans(Restrict(used, keys), keys, true);
    }
  }

  // ------------------------------------------------- executing on a database

  /** Tables by name. */
  type Database = map<string, seq<DbRow>>

  /** Every clause is bound to an argument. */
  ghost predicate IsBound(b: Built) {
    b.Built? &&
    match b.statement
    case Insert(_, values) => Bound(values, b.args)
    case Update(_, sets, wheres) => Bound(sets, b.args) && Bound(wheres, b.args)
    case Delete(_, wheres) => Bound(wheres, b.args)
  }

  ghost function UpdatedRows(rows: seq<DbRow>, sets: seq<Clause>, wheres: seq<Clause>, args: seq<Value>): seq<DbRow>
    requires Bound(sets, args) && Bound(wheres, args)
  {
    seq(|rows|, i requires 0 <= i < |rows| =>
      if Selects(wheres, args, rows[i]) then Assigned(sets, args, rows[i]) else rows[i])
  }

  ghost function KeptRows(rows: seq<DbRow>, wheres: seq<Clause>, args: seq<Value>): seq<DbRow>
    requires Bound(wheres, args)
  {
    if rows == [] then []
    else
      var last := rows[|rows| - 1];
      KeptRows(rows[..|rows| - 1], wheres, args) + if Selects(wheres, args, last) then [] else [last]
  }

  /** A statement acts on the table it names; a table that does not exist is an error and nothing changes. */
  ghost function ExecuteOn(db: Database, b: Built, defaults: DbRow): Database
    requires IsBound(b)
  {
    match b.statement
    case Insert(table, values) =>
      if table in db then db[table := db[table] + [Assigned(values, b.args, defaults)]] else db
    case Update(table, sets, wheres) =>
      if table in db then db[table := UpdatedRows(db[table], sets, wheres, b.args)] else db
    case Delete(table, wheres) =>
      if table in db then db[table := KeptRows(db[table], wheres, b.args)] else db
  }

  /** All other tables are as they were. */
  ghost predicate OnlyTable(db: Database, after: Database, table: string) {
    after.Keys == db.Keys && forall other :: other in db && other != table ==> after[other] == db[other]
  }

  /** An update overwrites, in the table it was built for, exactly the target rows, and no other table. */
  lemma UpdateExecuted(db: Database, table: string, data: Data, keys: set<string>, defaults: DbRow)
    requires UpdateOf(table, data, keys).Built? && DistinctColumns(Used(RecordOf(data).value)) && table in db
    ensures IsBound(UpdateOf(table, data, keys))
    ensures
      var after := ExecuteOn(db, UpdateOf(table, data, keys), defaults);
      var used := Used(RecordOf(data).value);
      && OnlyTable(db, after, table) && |after[table]| == |db[table]|
      && forall i :: 0 <= i < |db[table]| ==>
        if IsTarget(used, keys, db[table][i])
        then IsOverwritten(used, keys, db[table][i], after[table][i])
        else after[table][i] == db[table][i]
  {
    hide UpdateOf, Used, DistinctColumns, IsTarget, IsOverwritten, Selects, Assigned;
    UpdateMeans(table, data, keys, map[]);
    forall row: DbRow {
      UpdateMeans(table, data, keys, row);
    }
  }

  /** An insert adds one row to the table it was built for, and touches no other table. */
  lemma InsertExecuted(db: Database, table: string, data: Data, defaults: DbRow)
    requires InsertOf(table, data).Built? && DistinctColumns(Used(RecordOf(data).value)) && table in db
    ensures IsBound(InsertOf(table, data))
    ensures
      var after := ExecuteOn(db, InsertOf(table, data), defaults);
      && OnlyTable(db, after, table)
      && |after[table]| == |db[table]| + 1 && after[table][..|db[table]|] == db[table]
      && IsOverwritten(Used(RecordOf(data).value), {}, defaults, after[table][|db[table]|])
  {
    hide InsertOf, Used, DistinctColumns, IsOverwritten, Assigned;
    InsertMeans(table, data, defaults);
  }

  lemma {:induction false} KeptMeans(rows: seq<DbRow>, wheres: seq<Clause>, args: seq<Value>, row: DbRow)
    requires Bound(wheres, args)
    ensures multiset(KeptRows(rows, wheres, args))[row] == if Selects(wheres, args, row) then 0 else multiset(rows)[row]
  {
    hide Selects;
    if rows != [] {
      var init, last := rows[..|rows| - 1], rows[|rows| - 1];
      KeptMeans(init, wheres, args, row);
      CountSnoc(init, last, row);
      CountSnoc(KeptRows(init, wheres, args), last, row);
      assert rows == init + [last];
      assert KeptRows(init, wheres, args) + [] == KeptRows(init, wheres, args);
    }
  }

  lemma CountSnoc(rows: seq<DbRow>, last: DbRow, row: DbRow)
    ensures multiset(rows + [last])[row] == multiset(rows)[row] + if last == row then 1 else 0
  {
  }

  /** A deletion takes, from the table it was built for, exactly the target rows, and touches no other table. */
  lemma DeleteExecuted(db: Database, table: string, data: Data, keys: set<string>, defaults: DbRow)
    requires DeleteOf(table, data, keys).Built? && table in db
    ensures IsBound(DeleteOf(table, data, keys))
    ensures
      var after := ExecuteOn(db, DeleteOf(table, data, keys), defaults);
      && OnlyTable(db, after, table)
      && forall row: DbRow ::
        multiset(after[table])[row]
          == if IsTarget(Used(RecordOf(data).value), keys, row) then 0 else multiset(db[table])[row]
  {
    var used := Used(RecordOf(data).value);
    hide DeleteOf, Used, IsTarget, Selects;
    DeleteMeans(table, data, keys, map[]);
    var b := DeleteOf(table, data, keys);
    var after := ExecuteOn(db, b, defaults);
    forall row: DbRow
      ensures multiset(after[table])[row] == if IsTarget(used, keys, row) then 0 else multiset(db[table])[row]
    {
      DeleteMeans(table, data, keys, row);
      KeptMeans(db[table], b.statement.wheres, b.args, row);
    }
  }
}
