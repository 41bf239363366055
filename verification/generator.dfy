/** The relationship-aware generator: fills tables with records, one table at a time in
    dependency order, so that a column a relationship or a foreign key covers can take its value
    from a table generated before. Each column is filled, in this order of precedence, by the
    relationship generator (a relationship of the table lists it among its source columns), the
    foreign-key generator (a foreign key of the table is declared on it) or the scalar generator.

    Three variants read three kinds of earlier output: generated records (`generateFakeData`),
    generated keys (`generateTableData`), or both (`generateTableDataWithGeneratedData`). */
module Generator {
  import opened Wrappers
  import opened Strings
  import opened Seqs
  import opened Schema
  import opened Values
  import BasicValue
  import Sorter
  import RelationshipValues
  import ForeignKeyValues

  /** Faker's answer for column `column` of table `table` in row `i`: the string a scalar value
      drawn at random becomes. Faker's randomness is this parameter. */
  type Faker = (string, string, nat) -> string

  /** The scalar generator: the value of column `c` of table `t` in row `i` when nothing links
      the column. The generator receives it as a dependency; `BasicScalars` is the one it is
      built with. */
  type Scalars = (Table, Column, nat) -> Value

  /** `BasicValueGenerator.generate`, type tests in the source's order, with its Faker draws
      answered by `faker`. */
  function BasicScalars(faker: Faker): Scalars {
    (t: Table, c: Column, i: nat) => BasicValue.Realise(BasicValue.GenerateAsWritten(c, i, t), faker(t.name, c.name, i))
  }

  /** The same with the 16-bit test before the `int` test (`BasicValue.Generate`). */
  function CorrectedScalars(faker: Faker): Scalars {
    (t: Table, c: Column, i: nat) => BasicValue.Realise(BasicValue.Generate(c, i, t), faker(t.name, c.name, i))
  }

  /** A key column gets its unique value, never a Faker draw, whatever Faker answers. */
  lemma KeyColumnsIgnoreFaker(faker1: Faker, faker2: Faker, t: Table, c: Column, i: nat)
    requires BasicValue.IsKeyColumn(t, c.name)
    ensures BasicScalars(faker1)(t, c, i) == BasicScalars(faker2)(t, c, i)
         == BasicValue.UniqueValue(c, i, Lower(c.dataType))
  {
    var g := BasicValue.GenerateAsWritten(c, i, t);
    assert g == BasicValue.Exact(BasicValue.UniqueValue(c, i, Lower(c.dataType)));
    assert BasicScalars(faker1)(t, c, i) == BasicValue.Realise(g, faker1(t.name, c.name, i));
    assert BasicScalars(faker2)(t, c, i) == BasicValue.Realise(g, faker2(t.name, c.name, i));
  }

  /** What the linked columns read.
      `Records`: the records of the tables generated so far, and the draws the one-to-many
      selector makes (see `ChildDraws`).
      `Keys`: the keys the database generated for the tables inserted so far.
      `KeysAndRecords`: both, and the value a record's iterator yields first (see
      `ForeignKeyValues.RecordValue`). */
  datatype Source =
    | Records(rows: RowsMap, children: ChildDraws)
    | Keys(keys: KeysMap)
    | KeysAndRecords(keys: KeysMap, data: RowsMap, anyValue: Row -> Value)

  /** The record-based one-to-many selector draws `numberBetween(2, 6)` children per parent
      afresh on every call: `children(table, column, i)` is the draw made when it fills `column`
      of record `i` of `table`. */
  type ChildDraws = (string, string, nat) -> nat

  /** Every draw is one `numberBetween(2, 6)` can make. */
  ghost predicate ValidDraws(children: ChildDraws) {
    forall table, column, i :: RelationshipValues.MinChildren <= children(table, column, i) < RelationshipValues.ChildrenBound
  }

  ghost predicate ValidSource(src: Source) {
    src.Records? ==> ValidDraws(src.children)
  }

  /** Every relationship names a source and a target column, as every relationship the analyzer
      builds does. */
  predicate LinksHaveColumns(s: DatabaseSchema) {
    forall rel :: rel in s.relationships ==> RelationshipValues.HasColumns(rel)
  }

  // ---------------------------------------------------------------------------
  // Which generator fills a column
  // ---------------------------------------------------------------------------

  /** `getRelationshipsForTable`: the schema's relationships whose source table has the bare
      name of `tableName`, in schema order. */
  function RelationshipsFor(s: DatabaseSchema, tableName: string): (r: seq<Relationship>)
    ensures forall rel :: rel in r <==> rel in s.relationships && rel.source.name == Unqualified(tableName)
  {
    Filter(s.relationships, (rel: Relationship) => rel.source.name == Unqualified(tableName))
  }

  /** The relationship that fills `column` of table `t`. The record-reading variants build a
      column-to-relationship map, so the last relationship listing the column wins; the key-reading
      variant scans the list, so the first one wins. */
  function LinkFor(s: DatabaseSchema, t: Table, column: string, src: Source): (r: Option<Relationship>)
    ensures r.Some? ==> r.value in s.relationships && r.value.source.name == Unqualified(t.name)
                        && column in r.value.sourceColumns
    ensures r.None? <==> forall rel :: rel in s.relationships && rel.source.name == Unqualified(t.name) ==>
                           column !in rel.sourceColumns
  {
    var rels := RelationshipsFor(s, t.name);
    var p := (rel: Relationship) => column in rel.sourceColumns;
    if src.Keys? then FindFirst(rels, p) else FindLast(rels, p)
  }

  /** The foreign key that fills `column` of table `t`: the last one declared on it for the
      record-reading variants (a column-to-key map), the first one for the key-reading variant. */
  function ForeignKeyFor(t: Table, column: string, src: Source): (r: Option<ForeignKey>)
    ensures r.Some? ==> r.value in t.foreignKeys && r.value.columnName == column
    ensures r.None? <==> forall fk :: fk in t.foreignKeys ==> fk.columnName != column
  {
    var p := (fk: ForeignKey) => fk.columnName == column;
    if src.Keys? then FindFirst(t.foreignKeys, p) else FindLast(t.foreignKeys, p)
  }

  /** The relationship generator's value for `column` in row `i`, from the variant's inputs. */
  function LinkedValue(rel: Relationship, column: string, i: nat, src: Source): (r: Value)
    requires RelationshipValues.HasColumns(rel) && ValidSource(src)
    ensures src.Records? ==>
      r == VInt(1) || r == VInt(Succ(i))
      || InRows(r, src.rows, rel.source.name, rel.sourceColumns[0])
      || InRows(r, src.rows, rel.target.name, rel.targetColumns[0])
    ensures src.Keys? ==>
      r == VInt(Succ(i))
      || InKeys(r, src.keys, Unqualified(rel.source.name)) || InKeys(r, src.keys, Unqualified(rel.target.name))
  {
    match src
    case Records(rows, children) => RelationshipValues.FromRows(rel, column, i, rows, children(rel.source.name, column, i))
    case Keys(keys) => RelationshipValues.FromKeys(rel, column, i, keys)
    case KeysAndRecords(keys, data, _) => RelationshipValues.FromData(rel, column, i, keys, data)
  }

  /** The foreign-key generator's value in row `i`, from the variant's inputs. */
  function KeyedValue(fk: ForeignKey, i: nat, src: Source): (r: Value)
    ensures src.Records? ==>
      r == VInt(Succ(i))
      || InRows(r, src.rows, Unqualified(fk.referencedTableName), fk.referencedColumnName)
    ensures src.Keys? ==>
      r == VNull
      || exists name :: name in ForeignKeyValues.TableSpellings(fk.referencedTableName) && InKeys(r, src.keys, name)
  {
    match src
    case Records(rows, _) => ForeignKeyValues.FromRows(fk, rows, i)
    case Keys(keys) => ForeignKeyValues.FromKeys(fk, keys, i)
    case KeysAndRecords(keys, data, anyValue) => ForeignKeyValues.FromData(fk, keys, data, i, anyValue)
  }

  /** The value of column `c` of table `t` in row `i`: a relationship's value when one of the
      table's relationships lists the column, else a foreign key's value when one is declared on
      it, else the scalar generator's. */
  function Cell(s: DatabaseSchema, t: Table, c: Column, i: nat, src: Source, scalar: Scalars): (r: Value)
    requires LinksHaveColumns(s) && ValidSource(src)
    ensures LinkFor(s, t, c.name, src).None? && ForeignKeyFor(t, c.name, src).None? ==> r == scalar(t, c, i)
  {
    var link := LinkFor(s, t, c.name, src);
    if link.Some? then LinkedValue(link.value, c.name, i, src)
    else
      var fk := ForeignKeyFor(t, c.name, src);
      if fk.Some? then KeyedValue(fk.value, i, src) else scalar(t, c, i)
  }

  /** Whatever the variant, a linked column holds a value read from earlier output or one of the
      generators' fallbacks (`1`, `i + 1`, or null where nothing resolves). */
  lemma CellOrigin(s: DatabaseSchema, t: Table, c: Column, i: nat, src: Source, scalar: Scalars)
    requires LinksHaveColumns(s) && ValidSource(src)
    ensures var r := Cell(s, t, c, i, src, scalar);
      src.Records? ==>
        r == scalar(t, c, i) || r == VInt(1) || r == VInt(Succ(i))
        || exists name, column :: InRows(r, src.rows, name, column)
    ensures var r := Cell(s, t, c, i, src, scalar);
      src.Keys? ==>
        r == scalar(t, c, i) || r == VNull || r == VInt(Succ(i))
        || exists name :: InKeys(r, src.keys, name)
  {
  }

  // ---------------------------------------------------------------------------
  // Records
  // ---------------------------------------------------------------------------

  /** The names of a column list. */
  function ColumnNames(cols: seq<Column>): set<string> {
    set k | 0 <= k < |cols| :: cols[k].name
  }

  /** No column after position `k` has the name of column `k`: its value is the one a record
      keeps under that name. */
  predicate LastNamed(cols: seq<Column>, k: int) {
    0 <= k < |cols| && forall j :: k < j < |cols| ==> cols[j].name != cols[k].name
  }

  /** A record: every column's value (`cell`) put under the column's name, in column order. The
      record has exactly the column names as keys, and a name two columns share holds the later
      column's value. */
  function Record(cols: seq<Column>, cell: Column -> Value): (r: Row)
    ensures r.Keys == ColumnNames(cols)
    ensures forall k :: LastNamed(cols, k) ==> cols[k].name in r && r[cols[k].name] == cell(cols[k])
  {
    var entries := seq(|cols|, k requires 0 <= k < |cols| => (cols[k].name, cell(cols[k])));
    assert forall k :: LastNamed(cols, k) ==>
      cols[k].name in PutAll(entries) && PutAll(entries)[cols[k].name] == cell(cols[k]) by {
      forall k | LastNamed(cols, k)
        ensures cols[k].name in PutAll(entries) && PutAll(entries)[cols[k].name] == cell(cols[k])
      {
        assert LastPut(entries, k);
        PutAllKeepsLast(entries, k);
      }
    }
    assert PutAll(entries).Keys == ColumnNames(cols) by {
      assert forall k :: 0 <= k < |cols| ==> entries[k].0 == cols[k].name;
    }
    PutAll(entries)
  }

  /** Two ways of filling the columns that agree on every column make the same record. */
  lemma RecordAgrees(cols: seq<Column>, cell1: Column -> Value, cell2: Column -> Value)
    requires forall c :: c in cols ==> cell1(c) == cell2(c)
    ensures Record(cols, cell1) == Record(cols, cell2)
  {
    var e1 := seq(|cols|, k requires 0 <= k < |cols| => (cols[k].name, cell1(cols[k])));
    var e2 := seq(|cols|, k requires 0 <= k < |cols| => (cols[k].name, cell2(cols[k])));
    assert e1 == e2;
  }

  /** How row `i` of table `t` fills a column. */
  function RowCells(s: DatabaseSchema, t: Table, i: nat, src: Source, scalar: Scalars): (cell: Column -> Value)
    requires LinksHaveColumns(s) && ValidSource(src)
    ensures forall c :: cell(c) == Cell(s, t, c, i, src, scalar)
  {
    (c: Column) => Cell(s, t, c, i, src, scalar)
  }

  /** The number of records a loop `for (i = 0; i < count; i++)` produces. */
  function RowCount(count: int): (r: nat)
    ensures count >= 0 ==> r == count
    ensures count < 0 ==> r == 0
  {
    if count > 0 then count else 0
  }

  /** Why a generator call fails: `new ArrayList<>(recordCount)` throws an
      `IllegalArgumentException` for a negative initial capacity. */
  datatype GenError = IllegalCapacity(capacity: int)

  /** The message of that exception, as `ArrayList` words it. */
  function Message(e: GenError): string {
    "Illegal Capacity: " + IntToString(e.capacity)
  }

  /** The record list allocated with `recordCount` as its initial capacity: the capacity, or
      the exception when it is negative. */
  function RecordList(count: int): (r: Result<nat, GenError>)
    ensures r.Ok? <==> count >= 0
    ensures r.Ok? ==> r.value == count
    ensures r.Err? ==> r.error == IllegalCapacity(count)
  {
    if count < 0 then Err(IllegalCapacity(count)) else Ok(count)
  }

  /** The loop of `generateTableRecords` once its record list exists: `count` records of table
      `t`; record `i` is row `i` and has one entry per column name. */
  function TableRecords(s: DatabaseSchema, t: Table, count: nat, src: Source, scalar: Scalars): (r: seq<Row>)
    requires LinksHaveColumns(s) && ValidSource(src)
    ensures |r| == count
    ensures forall i :: 0 <= i < |r| ==> r[i].Keys == ColumnNames(t.columns)
    ensures forall i, k :: 0 <= i < |r| && LastNamed(t.columns, k) ==>
      t.columns[k].name in r[i] && r[i][t.columns[k].name] == Cell(s, t, t.columns[k], i, src, scalar)
  {
    var r := seq(count, i requires 0 <= i < count => Record(t.columns, RowCells(s, t, i, src, scalar)));
    assert forall i :: 0 <= i < |r| ==> RowOf(s, t, i, src, scalar, r[i]) by {
      forall i | 0 <= i < |r|
        ensures RowOf(s, t, i, src, scalar, r[i])
      {
        RecordCells(s, t, i, src, scalar);
      }
    }
    r
  }

  /** `row` has the column names as keys and the cell of each last-named column of `t`. */
  ghost predicate RowOf(s: DatabaseSchema, t: Table, i: nat, src: Source, scalar: Scalars, row: Row)
    requires LinksHaveColumns(s) && ValidSource(src)
  {
    row.Keys == ColumnNames(t.columns)
    && forall k :: LastNamed(t.columns, k) ==>
         t.columns[k].name in row && row[t.columns[k].name] == Cell(s, t, t.columns[k], i, src, scalar)
  }

  lemma RecordCells(s: DatabaseSchema, t: Table, i: nat, src: Source, scalar: Scalars)
    requires LinksHaveColumns(s) && ValidSource(src)
    ensures RowOf(s, t, i, src, scalar, Record(t.columns, RowCells(s, t, i, src, scalar)))
  {
  }

  // ---------------------------------------------------------------------------
  // generateFakeData
  // ---------------------------------------------------------------------------

  /** The records map after the first `k` tables of `ts`: each table's records are made by `gen`
      from the map built before it and put under the table's name. */
  function PutTables(ts: seq<Table>, k: nat, gen: (Table, RowsMap) -> seq<Row>): (r: RowsMap)
    requires k <= |ts|
    decreases k
  {
    if k == 0 then map[]
    else
      var acc := PutTables(ts, k - 1, gen);
      acc[ts[k - 1].name := gen(ts[k - 1], acc)]
  }

  /** The map holds exactly the names of the tables put. */
  lemma {:induction false} PutTablesKeys(ts: seq<Table>, k: nat, gen: (Table, RowsMap) -> seq<Row>)
    requires k <= |ts|
    ensures PutTables(ts, k, gen).Keys == set j | 0 <= j < k :: ts[j].name
    decreases k
  {
    if k > 0 {
      PutTablesKeys(ts, k - 1, gen);
      assert (set j | 0 <= j < k :: ts[j].name) == (set j | 0 <= j < k - 1 :: ts[j].name) + {ts[k - 1].name};
    }
  }

  /** Once put, a table's records stay as they were: the tables put later have other names and
      never overwrite them. */
  lemma {:induction false} EarlierTablesKept(ts: seq<Table>, k: nat, m: nat, gen: (Table, RowsMap) -> seq<Row>)
    requires k < m <= |ts| && Sorter.DistinctNames(ts)
    ensures ts[k].name in PutTables(ts, m, gen)
    ensures PutTables(ts, m, gen)[ts[k].name] == gen(ts[k], PutTables(ts, k, gen))
    decreases m
  {
    if m > k + 1 {
      EarlierTablesKept(ts, k, m - 1, gen);
      assert ts[k].name != ts[m - 1].name;
      PutTablesStep(ts, m, gen, ts[k].name);
    } else {
      PutTablesLast(ts, m, gen);
    }
  }

  /** Table `m - 1` is put from the map built before it. */
  lemma PutTablesLast(ts: seq<Table>, m: nat, gen: (Table, RowsMap) -> seq<Row>)
    requires 0 < m <= |ts|
    ensures ts[m - 1].name in PutTables(ts, m, gen)
    ensures PutTables(ts, m, gen)[ts[m - 1].name] == gen(ts[m - 1], PutTables(ts, m - 1, gen))
  {
  }

  /** Putting table `m - 1` leaves every other name alone. */
  lemma PutTablesStep(ts: seq<Table>, m: nat, gen: (Table, RowsMap) -> seq<Row>, name: string)
    requires 0 < m <= |ts| && name in PutTables(ts, m - 1, gen) && name != ts[m - 1].name
    ensures name in PutTables(ts, m, gen) && PutTables(ts, m, gen)[name] == PutTables(ts, m - 1, gen)[name]
  {
  }

  /** How `generateFakeData` makes the records of one table from the records made so far. */
  function TableStep(s: DatabaseSchema, count: nat, children: ChildDraws, scalar: Scalars): (gen: (Table, RowsMap) -> seq<Row>)
    requires LinksHaveColumns(s)
    requires ValidDraws(children)
    ensures forall t, acc :: |gen(t, acc)| == count
  {
    (t: Table, acc: RowsMap) => TableRecords(s, t, count, Records(acc, children), scalar)
  }

  /** The records map `generateFakeData` holds when it reaches position `k` of the order. */
  function FakeDataBefore(s: DatabaseSchema, count: nat, children: ChildDraws, scalar: Scalars, k: nat): (r: RowsMap)
    requires LinksHaveColumns(s)
    requires ValidDraws(children)
    requires k <= |Sorter.OrderedTables(s)|
    ensures var ts := Sorter.OrderedTables(s);
      r.Keys == set j | 0 <= j < k :: ts[j].name
  {
    PutTablesKeys(Sorter.OrderedTables(s), k, TableStep(s, count, children, scalar));
    PutTables(Sorter.OrderedTables(s), k, TableStep(s, count, children, scalar))
  }

  /** `generateFakeData`: the records of every table of the schema, under its name, generated in
      the dependency order of `Sorter.OrderedTables`, `count` records each. A negative count
      makes the first table's record list throw, so it fails exactly when the schema has a
      table; without tables the map stays empty. */
  function GenerateFakeData(s: DatabaseSchema, count: int, children: ChildDraws, scalar: Scalars): (r: Result<RowsMap, GenError>)
    requires LinksHaveColumns(s)
    requires ValidDraws(children)
    ensures r.Err? <==> count < 0 && |s.tables| > 0
    ensures r.Err? ==> r.error == IllegalCapacity(count)
    ensures r.Ok? ==> r.value.Keys == Sorter.Names(s)
    ensures r.Ok? ==> forall name :: name in r.value ==> |r.value[name]| == count
  {
    var ts := Sorter.OrderedTables(s);
    OrderedTablesPresent(s);
    if |ts| == 0 then Ok(map[])
    else
      match RecordList(count)
      case Err(e) => Err(e)
      case Ok(n) => Ok(FakeData(s, n, children, scalar))
  }

  /** A schema has tables to order exactly when it has tables. */
  lemma OrderedTablesPresent(s: DatabaseSchema)
    ensures |Sorter.OrderedTables(s)| > 0 <==> |s.tables| > 0
  {
    if |s.tables| > 0 {
      assert s.tables[0].name in Sorter.Names(s);
    }
  }

  /** The records map once every ordered table is put: every name, `count` records each. */
  function FakeData(s: DatabaseSchema, count: nat, children: ChildDraws, scalar: Scalars): (r: RowsMap)
    requires LinksHaveColumns(s)
    requires ValidDraws(children)
    ensures r.Keys == Sorter.Names(s)
    ensures forall name :: name in r ==> |r[name]| == count
  {
    var ts := Sorter.OrderedTables(s);
    var r := FakeDataBefore(s, count, children, scalar, |ts|);
    assert r.Keys == Sorter.NamesOf(ts);
    forall name | name in r
      ensures |r[name]| == count
    {
      var k :| 0 <= k < |ts| && ts[k].name == name;
      EarlierTablesKept(ts, k, |ts|, TableStep(s, count, children, scalar));
    }
    r
  }

  /** Each table of the schema is generated from the records of exactly the tables ordered
      before it. */
  lemma GeneratedFromEarlierTables(s: DatabaseSchema, count: nat, children: ChildDraws, scalar: Scalars, k: nat)
    requires LinksHaveColumns(s)
    requires ValidDraws(children)
    requires k < |Sorter.OrderedTables(s)|
    ensures var ts := Sorter.OrderedTables(s);
      var before := FakeDataBefore(s, count, children, scalar, k);
      before.Keys == (set j | 0 <= j < k :: ts[j].name)
      && GenerateFakeData(s, count, children, scalar).Ok?
      && ts[k].name in GenerateFakeData(s, count, children, scalar).value
      && GenerateFakeData(s, count, children, scalar).value[ts[k].name]
         == TableRecords(s, ts[k], count, Records(before, children), scalar)
  {
    var ts := Sorter.OrderedTables(s);
    assert GenerateFakeData(s, count, children, scalar) == Ok(FakeData(s, count, children, scalar));
    EarlierTablesKept(ts, k, |ts|, TableStep(s, count, children, scalar));
  }

  /** Referential integrity of `generateFakeData` for foreign-key columns: in the table at
      position `k` of the order, a column filled by a foreign key holds `i + 1` or a value of the
      referenced column in a record of a table generated before it. */
  lemma ForeignKeyReadsEarlierTable(s: DatabaseSchema, count: nat, children: ChildDraws, scalar: Scalars,
                                    k: nat, c: Column, i: nat)
    requires LinksHaveColumns(s)
    requires ValidDraws(children)
    requires k < |Sorter.OrderedTables(s)|
    requires var ts := Sorter.OrderedTables(s);
      var src := Records(FakeDataBefore(s, count, children, scalar, k), children);
      LinkFor(s, ts[k], c.name, src).None? && ForeignKeyFor(ts[k], c.name, src).Some?
    ensures var ts := Sorter.OrderedTables(s);
      var before := FakeDataBefore(s, count, children, scalar, k);
      var src := Records(before, children);
      var fk := ForeignKeyFor(ts[k], c.name, src).value;
      var v := Cell(s, ts[k], c, i, src, scalar);
      v == VInt(Succ(i))
      || exists j :: 0 <= j < k && ts[j].name == Unqualified(fk.referencedTableName)
                     && InRows(v, before, ts[j].name, fk.referencedColumnName)
  {
    var ts := Sorter.OrderedTables(s);
    var before := FakeDataBefore(s, count, children, scalar, k);
    var src := Records(before, children);
    var fk := ForeignKeyFor(ts[k], c.name, src).value;
    var v := Cell(s, ts[k], c, i, src, scalar);
    assert v == ForeignKeyValues.FromRows(fk, before, i);
    var name := Unqualified(fk.referencedTableName);
    if name in before && |before[name]| > 0 {
      assert name in (set j | 0 <= j < k :: ts[j].name);
      var j :| 0 <= j < k && ts[j].name == name;
      assert InRows(v, before, ts[j].name, fk.referencedColumnName);
    }
  }

  // ---------------------------------------------------------------------------
  // The per-table variants
  // ---------------------------------------------------------------------------

  /** The table a per-table variant works on: the schema prefix of `tableName` is dropped before
      the lookup, which drops it again. */
  function TableFor(s: DatabaseSchema, tableName: string): (r: Option<Table>)
    ensures r == TableByName(s, tableName)
  {
    UnqualifiedIdempotent(tableName);
    TableByName(s, Unqualified(tableName))
  }

  /** `generateTableData`: the records of the table `tableName` names, reading generated keys;
      none when the schema has no such table. Its record list has no initial capacity, so a
      negative count makes the loop run zero times. */
  function TableData(s: DatabaseSchema, tableName: string, count: int, keys: KeysMap, scalar: Scalars): (r: seq<Row>)
    requires LinksHaveColumns(s)
    ensures TableByName(s, tableName).None? ==> r == []
    ensures TableByName(s, tableName).Some? ==>
      |r| == RowCount(count)
      && forall i :: 0 <= i < |r| ==> r[i].Keys == ColumnNames(TableByName(s, tableName).value.columns)
  {
    var t := TableFor(s, tableName);
    if t.Some? then TableRecords(s, t.value, RowCount(count), Keys(keys), scalar) else []
  }

  /** `generateTableDataWithGeneratedData`: the same, reading generated keys and records. For
      a known table the record list is allocated with `count` as its capacity, so a negative
      count throws; an unknown table still gives no records. */
  function TableDataWithData(s: DatabaseSchema, tableName: string, count: int, keys: KeysMap, data: RowsMap,
                             anyValue: Row -> Value, scalar: Scalars): (r: Result<seq<Row>, GenError>)
    requires LinksHaveColumns(s)
    ensures TableByName(s, tableName).None? ==> r == Ok([])
    ensures TableByName(s, tableName).Some? && count < 0 ==> r == Err(IllegalCapacity(count))
    ensures TableByName(s, tableName).Some? && count >= 0 ==>
      r.Ok? && |r.value| == count
      && forall i :: 0 <= i < |r.value| ==> r.value[i].Keys == ColumnNames(TableByName(s, tableName).value.columns)
  {
    var t := TableFor(s, tableName);
    if t.None? then Ok([])
    else
      match RecordList(count)
      case Err(e) => Err(e)
      case Ok(n) => Ok(TableRecords(s, t.value, n, KeysAndRecords(keys, data, anyValue), scalar))
  }

  /** The reported name of a table (`Sorter.QualifiedName`, as `getOrderedTableNames` builds it)
      leads both per-table variants to the table's own records. */
  lemma ReportedNameFindsTable(s: DatabaseSchema, t: Table, count: int, keys: KeysMap, data: RowsMap,
                               anyValue: Row -> Value, scalar: Scalars)
    requires LinksHaveColumns(s) && t in s.tables && '.' !in t.name
    ensures var name := Sorter.QualifiedName(t);
      TableByName(s, name).Some? &&
      var u := TableByName(s, name).value;
      u.name == t.name
      && TableData(s, name, count, keys, scalar) == TableRecords(s, u, RowCount(count), Keys(keys), scalar)
      && TableDataWithData(s, name, count, keys, data, anyValue, scalar)
         == (if count < 0 then Err(IllegalCapacity(count))
             else Ok(TableRecords(s, u, RowCount(count), KeysAndRecords(keys, data, anyValue), scalar)))
  {
    var name := Sorter.QualifiedName(t);
    Sorter.QualifiedNameResolves(s, t);
    var u := TableByName(s, name).value;
    TableDataOf(s, name, u, count, keys, scalar);
    TableDataWithDataOf(s, name, u, count, keys, data, anyValue, scalar);
  }

  lemma TableDataOf(s: DatabaseSchema, name: string, u: Table, count: int, keys: KeysMap, scalar: Scalars)
    requires LinksHaveColumns(s) && TableByName(s, name) == Some(u)
    ensures TableData(s, name, count, keys, scalar) == TableRecords(s, u, RowCount(count), Keys(keys), scalar)
  {
    assert TableFor(s, name) == Some(u);
  }

  lemma TableDataWithDataOf(s: DatabaseSchema, name: string, u: Table, count: int, keys: KeysMap, data: RowsMap,
                            anyValue: Row -> Value, scalar: Scalars)
    requires LinksHaveColumns(s) && TableByName(s, name) == Some(u)
    ensures TableDataWithData(s, name, count, keys, data, anyValue, scalar)
         == (if count < 0 then Err(IllegalCapacity(count))
             else Ok(TableRecords(s, u, RowCount(count), KeysAndRecords(keys, data, anyValue), scalar)))
  {
    assert TableFor(s, name) == Some(u);
  }

  // ---------------------------------------------------------------------------
  // Precedence
  // ---------------------------------------------------------------------------

  /** A column both a relationship and a foreign key cover is filled by the relationship
      generator; the foreign key is consulted only for columns no relationship lists. */
  lemma RelationshipBeforeForeignKey(s: DatabaseSchema, t: Table, c: Column, i: nat, rows: RowsMap,
                                     children: ChildDraws, scalar: Scalars, rel: Relationship, fk: ForeignKey)
    requires LinksHaveColumns(s)
    requires ValidDraws(children)
    requires RelationshipsFor(s, t.name) == [rel] && c.name in rel.sourceColumns
    requires fk in t.foreignKeys && fk.columnName == c.name
    ensures Cell(s, t, c, i, Records(rows, children), scalar) == LinkedValue(rel, c.name, i, Records(rows, children))
  {
    SoleLink(s, t, c.name, Records(rows, children), rel);
  }

  /** A table's only relationship fills every column it lists, in every variant. */
  lemma SoleLink(s: DatabaseSchema, t: Table, column: string, src: Source, rel: Relationship)
    requires RelationshipsFor(s, t.name) == [rel] && column in rel.sourceColumns
    ensures LinkFor(s, t, column, src) == Some(rel)
  {
    assert rel in RelationshipsFor(s, t.name);
  }

  /** When two of a table's relationships list the same column, the record-reading variants use
      the later one and the key-reading variant the earlier one. */
  lemma SharedColumnLinksDiffer(s: DatabaseSchema, t: Table, column: string, a: Relationship, b: Relationship,
                                rows: RowsMap, keys: KeysMap)
    requires RelationshipsFor(s, t.name) == [a, b]
    requires column in a.sourceColumns && column in b.sourceColumns
    ensures LinkFor(s, t, column, Keys(keys)) == Some(a)
    ensures LinkFor(s, t, column, Records(rows, (_, _, _) => RelationshipValues.MinChildren)) == Some(b)
  {
    var p := (rel: Relationship) => column in rel.sourceColumns;
    assert FindIndex([a, b], p) == Some(0);
    assert FindLast([a, b], p) == Some(b);
  }

  /** When at most one relationship and at most one foreign key of the table cover a column, the
      first-match and the last-match lookups pick the same ones. */
  lemma LookupsAgreeWhenUnique(s: DatabaseSchema, t: Table, column: string, src1: Source, src2: Source)
    requires forall a, b ::
      (a in s.relationships && b in s.relationships
       && a.source.name == Unqualified(t.name) && b.source.name == Unqualified(t.name)
       && column in a.sourceColumns && column in b.sourceColumns) ==> a == b
    requires forall f, g :: f in t.foreignKeys && g in t.foreignKeys && f.columnName == column && g.columnName == column ==> f == g
    ensures LinkFor(s, t, column, src1) == LinkFor(s, t, column, src2)
    ensures ForeignKeyFor(t, column, src1) == ForeignKeyFor(t, column, src2)
  {
  }

  /** A column that neither a relationship nor a foreign key covers holds the scalar generator's
      value in every variant: what earlier tables produced does not matter to it. */
  lemma UnlinkedColumnIgnoresSource(s: DatabaseSchema, t: Table, c: Column, i: nat, src1: Source, src2: Source, scalar: Scalars)
    requires LinksHaveColumns(s) && ValidSource(src1) && ValidSource(src2)
    requires forall rel :: rel in s.relationships && rel.source.name == Unqualified(t.name) ==> c.name !in rel.sourceColumns
    requires forall fk :: fk in t.foreignKeys ==> fk.columnName != c.name
    ensures Cell(s, t, c, i, src1, scalar) == Cell(s, t, c, i, src2, scalar) == scalar(t, c, i)
  {
  }

  /** A table without relationships or foreign keys gets the same records from every variant. */
  lemma PlainTableIgnoresSource(s: DatabaseSchema, t: Table, count: nat, src1: Source, src2: Source, scalar: Scalars)
    requires LinksHaveColumns(s) && ValidSource(src1) && ValidSource(src2)
    requires forall rel :: rel in s.relationships ==> rel.source.name != Unqualified(t.name)
    requires t.foreignKeys == []
    ensures TableRecords(s, t, count, src1, scalar) == TableRecords(s, t, count, src2, scalar)
  {
    forall i: nat, c | c in t.columns
      ensures Cell(s, t, c, i, src1, scalar) == Cell(s, t, c, i, src2, scalar)
    {
      UnlinkedColumnIgnoresSource(s, t, c, i, src1, src2, scalar);
    }
    forall i: nat
      ensures Record(t.columns, RowCells(s, t, i, src1, scalar)) == Record(t.columns, RowCells(s, t, i, src2, scalar))
    {
      RecordAgrees(t.columns, RowCells(s, t, i, src1, scalar), RowCells(s, t, i, src2, scalar));
    }
  }
}
