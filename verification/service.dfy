/** The generation service: the input checks, the connection pool size, the clean-up before an
    insert run, and the table-by-table loop that generates each table from the keys and records of
    the tables inserted before it and hands the records to the database. */
module Service {
  import opened Wrappers
  import opened Strings
  import opened Schema
  import opened Values
  import Sorter
  import Generator
  import Connection

  // ---------------------------------------------------------------------------
  // Settings and errors
  // ---------------------------------------------------------------------------

  /** The settings the service reads: the record-count limits, the three record-count
      thresholds of the pool size, and the four pool sizes. */
  datatype Properties = Properties(
    minRecordCount: int, maxRecordCount: int,
    threshold1: int, threshold2: int, threshold3: int,
    small: int, medium: int, large: int, xlarge: int)

  /** The shipped settings. */
  const Defaults: Properties := Properties(1, 10_000_000, 1_000, 100_000, 1_000_000, 5, 10, 15, 20)

  /** Thresholds and pool sizes both ascend, as in the shipped settings. */
  predicate Ascending(p: Properties) {
    p.threshold1 <= p.threshold2 <= p.threshold3 && p.small <= p.medium <= p.large <= p.xlarge
  }

  /** What the service throws. */
  datatype ServiceError =
    | NullSchema
    | TooFewRecords(min: int, given: int)
    | TooManyRecords(max: int, given: int)
    | MissingConnection
    | NoTables
    | DeleteFailed(table: string)
    | InsertFailed(table: string, message: string)
    | GenerationFailed(error: Generator.GenError)

  // ---------------------------------------------------------------------------
  // Input checks and pool size
  // ---------------------------------------------------------------------------

  /** `validateInput`: the first check that fails, in the order null schema, too few records, too
      many records, insert requested without connection details, schema without tables. */
  function ValidateInput(p: Properties, schema: Option<DatabaseSchema>, count: int, insert: bool,
                         dbInfo: Option<Connection.ConnectionInfo>): (r: Option<ServiceError>)
    ensures r.None? <==> schema.Some? && p.minRecordCount <= count <= p.maxRecordCount
                         && (insert ==> dbInfo.Some?) && |schema.value.tables| > 0
    ensures r == Some(NullSchema) <==> schema.None?
    ensures r == Some(TooFewRecords(p.minRecordCount, count)) <==> schema.Some? && count < p.minRecordCount
    ensures r == Some(TooManyRecords(p.maxRecordCount, count)) <==>
      schema.Some? && p.minRecordCount <= count && p.maxRecordCount < count
    ensures r == Some(MissingConnection) <==>
      schema.Some? && p.minRecordCount <= count <= p.maxRecordCount && insert && dbInfo.None?
  {
    if schema.None? then Some(NullSchema)
    else if count < p.minRecordCount then Some(TooFewRecords(p.minRecordCount, count))
    else if count > p.maxRecordCount then Some(TooManyRecords(p.maxRecordCount, count))
    else if insert && dbInfo.None? then Some(MissingConnection)
    else if |schema.value.tables| == 0 then Some(NoTables)
    else None
  }

  /** `calculateOptimalPoolSize`: the pool size of the record-count band `count` falls in. */
  function PoolSize(p: Properties, count: int): (r: int)
    ensures r == p.small || r == p.medium || r == p.large || r == p.xlarge
  {
    if count < p.threshold1 then p.small
    else if count < p.threshold2 then p.medium
    else if count < p.threshold3 then p.large
    else p.xlarge
  }

  /** With ascending settings, more records never get a smaller pool, and every pool size lies
      between the small and the extra-large one. */
  lemma PoolSizeMonotone(p: Properties, a: int, b: int)
    requires Ascending(p) && a <= b
    ensures PoolSize(p, a) <= PoolSize(p, b)
    ensures p.small <= PoolSize(p, a) <= p.xlarge
  {
  }

  /** The shipped settings are ascending and give 5 connections below 1,000 records, 10 below
      100,000, 15 below 1,000,000 and 20 from there on. */
  lemma DefaultPoolSizes(count: int)
    ensures Ascending(Defaults)
    ensures count < 1_000 ==> PoolSize(Defaults, count) == 5
    ensures 1_000 <= count < 100_000 ==> PoolSize(Defaults, count) == 10
    ensures 100_000 <= count < 1_000_000 ==> PoolSize(Defaults, count) == 15
    ensures 1_000_000 <= count ==> PoolSize(Defaults, count) == 20
  {
  }

  // ---------------------------------------------------------------------------
  // Quoting table names
  // ---------------------------------------------------------------------------

  /** A closing bracket doubled, as a bracket-quoted identifier spells it. */
  function Escape(s: string): string {
    ReplaceChar(s, ']', "]]")
  }

  /** The text before the last dot of `s`. */
  function Qualifier(s: string): (r: string)
    requires '.' in s
    ensures r + "." + Unqualified(s) == s
  {
    var u := Unqualified(s);
    if |u| == |s| then
      assert false;
      s
    else
      assert s == s[..|s| - |u| - 1] + "." + u;
      s[..|s| - |u| - 1]
  }

  /** `sanitizeTableName`: a name with a dot is split at its last dot, and each part is put in
      brackets with every `]` doubled. */
  function SanitizeTableName(name: string): (r: string)
    ensures |r| >= 2 && r[0] == '[' && r[|r| - 1] == ']'
  {
    if '.' in name then "[" + Escape(Qualifier(name)) + "].[" + Escape(Unqualified(name)) + "]"
    else "[" + Escape(name) + "]"
  }

  /** Reads a bracket-quoted body up to its closing bracket, where a doubled `]` stands for one:
      the body and the text after the closing bracket. */
  function ReadBody(e: string): (r: Option<(string, string)>)
    decreases |e|
  {
    if |e| == 0 then None
    else if e[0] == ']' then
      if |e| >= 2 && e[1] == ']' then
        match ReadBody(e[2..])
        case None => None
        case Some(body) => Some(("]" + body.0, body.1))
      else Some(([], e[1..]))
    else
      match ReadBody(e[1..])
      case None => None
      case Some(body) => Some(([e[0]] + body.0, body.1))
  }

  function ReadQuoted(e: string): Option<(string, string)> {
    if |e| > 0 && e[0] == '[' then ReadBody(e[1..]) else None
  }

  /** Reads a quoted table name back: one quoted part, or two joined by a dot. */
  function Unsanitize(r: string): Option<string> {
    match ReadQuoted(r)
    case None => None
    case Some(first) =>
      if first.1 == [] then Some(first.0)
      else if first.1[0] != '.' then None
      else
        match ReadQuoted(first.1[1..])
        case None => None
        case Some(second) => if second.1 == [] then Some(first.0 + "." + second.0) else None
  }

  /** An escaped body followed by its closing bracket reads back as the body, as long as the
      text after the bracket does not start with another `]`. */
  lemma {:induction false} ReadEscaped(s: string, rest: string)
    requires |rest| == 0 || rest[0] != ']'
    ensures ReadBody(Escape(s) + "]" + rest) == Some((s, rest))
    decreases |s|
  {
    if |s| == 0 {
      assert Escape(s) + "]" + rest == "]" + rest;
      ReadClosing(rest);
    } else {
      var tail := Escape(s[1..]) + "]" + rest;
      ReadEscaped(s[1..], rest);
      assert Escape(s) + "]" + rest == (if s[0] == ']' then "]]" else [s[0]]) + tail;
      ReadOneMore(s[0], tail, s[1..], rest);
      assert [s[0]] + s[1..] == s;
    }
  }

  /** A single `]` closes the body. */
  lemma ReadClosing(rest: string)
    requires |rest| == 0 || rest[0] != ']'
    ensures ReadBody("]" + rest) == Some(([], rest))
  {
    assert ("]" + rest)[1..] == rest;
  }

  /** One more character of the name, escaped, in front of a body that reads as `body`. */
  lemma ReadOneMore(c: char, tail: string, body: string, rest: string)
    requires ReadBody(tail) == Some((body, rest))
    ensures ReadBody((if c == ']' then "]]" else [c]) + tail) == Some(([c] + body, rest))
  {
    if c == ']' {
      assert ("]]" + tail)[2..] == tail;
    } else {
      assert ([c] + tail)[1..] == tail;
    }
  }

  /** The quoting can be undone: no `]` in a name closes its bracket early, and the dot between
      the two parts is the last dot of the name. */
  lemma SanitizeRoundTrip(name: string)
    ensures Unsanitize(SanitizeTableName(name)) == Some(name)
  {
    if '.' in name {
      var q, u := Qualifier(name), Unqualified(name);
      var second := "[" + Escape(u) + "]";
      ReadEscaped(q, "." + second);
      ReadEscaped(u, []);
      ReadTwo(q, u, Escape(q), Escape(u));
    } else {
      ReadEscaped(name, []);
      ReadOne(name, Escape(name));
    }
  }

  lemma ReadOne(a: string, ea: string)
    requires ReadBody(ea + "]" + []) == Some((a, []))
    ensures Unsanitize("[" + ea + "]") == Some(a)
  {
    assert ("[" + ea + "]")[1..] == ea + "]" + [];
  }

  lemma ReadTwo(a: string, b: string, ea: string, eb: string)
    requires ReadBody(ea + "]" + ("." + ("[" + eb + "]"))) == Some((a, "." + ("[" + eb + "]")))
    requires ReadBody(eb + "]" + []) == Some((b, []))
    ensures Unsanitize("[" + ea + "].[" + eb + "]") == Some(a + "." + b)
  {
    var second := "[" + eb + "]";
    assert ("[" + ea + "].[" + eb + "]")[1..] == ea + "]" + ("." + second);
    assert ("." + second)[1..] == second;
    assert second[1..] == eb + "]" + [];
  }

  /** Different names never quote to the same text. */
  lemma SanitizeInjective(a: string, b: string)
    ensures SanitizeTableName(a) == SanitizeTableName(b) ==> a == b
  {
    SanitizeRoundTrip(a);
    SanitizeRoundTrip(b);
  }

  // ---------------------------------------------------------------------------
  // Emptying the tables
  // ---------------------------------------------------------------------------

  /** The order `deleteExistingData` empties the tables in: from the last of the insert order to
      the first. */
  function DeleteOrder<T>(xs: seq<T>): (r: seq<T>)
    ensures |r| == |xs|
    ensures forall k :: 0 <= k < |r| ==> r[k] == xs[|xs| - 1 - k]
  {
    if |xs| == 0 then [] else [xs[|xs| - 1]] + DeleteOrder(xs[..|xs| - 1])
  }

  lemma DeleteOrderInvolution<T>(xs: seq<T>)
    ensures DeleteOrder(DeleteOrder(xs)) == xs
  {
  }

  function DeleteSql(name: string): string {
    "DELETE FROM " + SanitizeTableName(name)
  }

  /** The statements `deleteExistingData` sends, in order, until the database rejects one
      (`accepted` says which it executes); a rejected statement aborts the run naming its table. */
  function RunDeletes(order: seq<string>, accepted: string -> bool): (r: Result<seq<string>, ServiceError>)
    ensures r.Ok? <==> forall k :: 0 <= k < |order| ==> accepted(DeleteSql(order[k]))
    ensures r.Ok? ==> r.value == Map(order, DeleteSql)
    ensures r.Err? ==> exists k :: 0 <= k < |order| && r.error == DeleteFailed(order[k])
                                   && !accepted(DeleteSql(order[k]))
                                   && forall j :: 0 <= j < k ==> accepted(DeleteSql(order[j]))
  {
    RunDeletesFrom(order, 0, DeleteSql, accepted)
  }

  /** The statements for the tables from position `i` on; `sql` writes a table's statement. */
  function RunDeletesFrom(order: seq<string>, i: nat, sql: string -> string, accepted: string -> bool): (r: Result<seq<string>, ServiceError>)
    requires i <= |order|
    ensures r.Ok? <==> forall k :: i <= k < |order| ==> accepted(sql(order[k]))
    ensures r.Ok? ==> r.value == Map(order[i..], sql)
    ensures r.Err? ==> exists k :: i <= k < |order| && r.error == DeleteFailed(order[k])
                                   && !accepted(sql(order[k]))
                                   && forall j :: i <= j < k ==> accepted(sql(order[j]))
    decreases |order| - i
  {
    if i == |order| then Ok([])
    else if !accepted(sql(order[i])) then Err(DeleteFailed(order[i]))
    else
      match RunDeletesFrom(order, i + 1, sql, accepted)
      case Err(e) => Err(e)
      case Ok(rest) =>
        assert order[i..] == [order[i]] + order[i + 1..];
        Ok([sql(order[i])] + rest)
  }

  /** On a schema without dependency cycles, a table is emptied only after every table that
      depends on it: of two tables in delete order, the later one never depends on the earlier. */
  lemma DeleteOrderSafe(s: DatabaseSchema, rank: string -> nat)
    requires Sorter.Ranked(s, rank) && Sorter.PlainTargets(s)
    ensures var dt := DeleteOrder(Sorter.OrderedTables(s));
      var order := DeleteOrder(Sorter.OrderedTableNames(s));
      |order| == |dt|
      && (forall k :: 0 <= k < |order| ==> order[k] == Sorter.QualifiedName(dt[k]))
      && forall a, b :: 0 <= a < b < |dt| ==> !Sorter.Edge(s, dt[b].name, dt[a].name)
  {
    var ts := Sorter.OrderedTables(s);
    ReversedNamesMatch(ts, Sorter.OrderedTableNames(s), Sorter.QualifiedName);
    DeletedTablesSafe(s, rank, ts);
  }

  lemma DeletedTablesSafe(s: DatabaseSchema, rank: string -> nat, ts: seq<Table>)
    requires Sorter.Ranked(s, rank) && Sorter.PlainTargets(s) && ts == Sorter.OrderedTables(s)
    ensures var dt := DeleteOrder(ts);
      forall a, b :: 0 <= a < b < |dt| ==> !Sorter.Edge(s, dt[b].name, dt[a].name)
  {
    Sorter.OrderedTablesRespectDependencies(s, rank);
    ReversedKeepsNoEdge(s, ts);
  }

  /** Reversing two lists that match position by position keeps them matched. */
  lemma ReversedNamesMatch<T, U>(xs: seq<T>, ys: seq<U>, f: T -> U)
    requires |ys| == |xs| && forall k :: 0 <= k < |xs| ==> ys[k] == f(xs[k])
    ensures var rx, ry := DeleteOrder(xs), DeleteOrder(ys);
      |ry| == |rx| && forall k :: 0 <= k < |rx| ==> ry[k] == f(rx[k])
  {
  }

  /** Reversing a list of tables none of which depends on a later one gives a list none of which
      depends on an earlier one. */
  lemma ReversedKeepsNoEdge(s: DatabaseSchema, ts: seq<Table>)
    requires forall i, j :: 0 <= i < j < |ts| ==> !Sorter.Edge(s, ts[i].name, ts[j].name)
    ensures var r := DeleteOrder(ts);
      forall a, b :: 0 <= a < b < |r| ==> !Sorter.Edge(s, r[b].name, r[a].name)
  {
    var r := DeleteOrder(ts);
    forall a, b | 0 <= a < b < |r|
      ensures !Sorter.Edge(s, r[b].name, r[a].name)
    {
      var i, j := |ts| - 1 - b, |ts| - 1 - a;
      assert r[b] == ts[i] && r[a] == ts[j] && i < j;
    }
  }

  // ---------------------------------------------------------------------------
  // The insert loop
  // ---------------------------------------------------------------------------

  /** The database side of one table's insert (`insertRecordsWithJdbcTemplate`): the keys it
      generated, or the message of the exception it threw. */
  type Insert = (string, seq<Row>) -> Result<seq<int>, string>

  /** How one table's records are made from the keys and records collected so far
      (`generateTableDataWithGeneratedData`; see `Generated`), or the message of the exception
      it threw. */
  type TableGen = (string, KeysMap, RowsMap) -> Result<seq<Row>, string>

  /** The generator the service runs: `Generator.TableDataWithData` for the schema and record
      count, its failure turned into the exception's message. */
  function Generated(s: DatabaseSchema, count: int, anyValue: Row -> Value, scalar: Generator.Scalars): (gen: TableGen)
    requires Generator.LinksHaveColumns(s)
    ensures forall name, keys, data :: gen(name, keys, data).Err? <==>
      Generator.TableDataWithData(s, name, count, keys, data, anyValue, scalar).Err?
    ensures forall name, keys, data :: gen(name, keys, data).Ok? ==>
      Generator.TableDataWithData(s, name, count, keys, data, anyValue, scalar) == Ok(gen(name, keys, data).value)
  {
    (name: string, keys: KeysMap, data: RowsMap) =>
      match Generator.TableDataWithData(s, name, count, keys, data, anyValue, scalar)
      case Ok(rows) => Ok(rows)
      case Err(e) => Err(Generator.Message(e))
  }

  /** What the loop has collected: the generated keys and records per inserted table, the number
      of records inserted per table, and their total. */
  datatype Progress = Progress(keys: KeysMap, data: RowsMap, counts: map<string, int>, inserted: int)

  const Start: Progress := Progress(map[], map[], map[], 0)

  /** The maps cover the same tables; each count is the number of keys, and no recorded table is
      empty. */
  predicate Consistent(p: Progress) {
    p.counts.Keys == p.data.Keys && p.data.Keys == p.keys.Keys
    && forall n :: n in p.counts ==> p.counts[n] == |p.keys[n]| && p.data[n] != []
  }

  /** The loop over the ordered table names: each table is generated from what was inserted
      before it; a table that gets records is inserted and recorded, one that gets none is
      skipped; a failed generation or insert aborts the whole run (both are caught by the same
      `catch` and rethrown with the table's name). */
  function InsertTables(gen: TableGen, names: seq<string>, insert: Insert, p: Progress): (r: Result<Progress, ServiceError>)
    ensures r.Ok? ==> p.counts.Keys <= r.value.counts.Keys
                      && forall n :: n in r.value.counts && n !in p.counts ==> n in names
    ensures r.Ok? ==> forall n :: n in p.counts && n !in names ==> r.value.counts[n] == p.counts[n]
    ensures r.Ok? && Consistent(p) ==> Consistent(r.value)
    ensures (forall n, k, d :: gen(n, k, d).Ok?) && (forall n, rows :: insert(n, rows).Ok?) ==> r.Ok?
    ensures r.Err? ==> r.error.InsertFailed? && r.error.table in names
    ensures |names| > 0 && gen(names[0], p.keys, p.data).Err? ==>
      r == Err(InsertFailed(names[0], gen(names[0], p.keys, p.data).error))
    decreases |names|
  {
    if |names| == 0 then Ok(p)
    else
      var name := names[0];
      match gen(name, p.keys, p.data)
      case Err(e) => Err(InsertFailed(name, e))
      case Ok(rows) =>
        if rows == [] then InsertTables(gen, names[1..], insert, p)
        else
          match insert(name, rows)
          case Err(e) => Err(InsertFailed(name, e))
          case Ok(keys) =>
            var next := Record(p, name, keys, rows);
            RecordKeepsConsistent(p, name, keys, rows);
            InsertTables(gen, names[1..], insert, next)
  }

  /** One inserted table recorded in the collected maps and the total. */
  function Record(p: Progress, name: string, keys: seq<int>, rows: seq<Row>): (r: Progress)
    ensures r.counts.Keys == p.counts.Keys + {name} && r.counts[name] == |keys|
    ensures forall n :: n in p.counts && n != name ==> r.counts[n] == p.counts[n]
    ensures r.inserted == p.inserted + |keys|
  {
    Progress(p.keys[name := keys], p.data[name := rows], p.counts[name := |keys|], p.inserted + |keys|)
  }

  lemma RecordKeepsConsistent(p: Progress, name: string, keys: seq<int>, rows: seq<Row>)
    requires rows != []
    ensures Consistent(p) ==> Consistent(Record(p, name, keys, rows))
  {
    if Consistent(p) {
      var r := Record(p, name, keys, rows);
      forall n | n in r.counts
        ensures r.counts[n] == |r.keys[n]| && r.data[n] != []
      {
        if n != name {
          assert n in p.counts;
        }
      }
    }
  }

  /** The sum of `counts` over the listed names it holds. */
  function SumOf(names: seq<string>, counts: map<string, int>): int {
    if |names| == 0 then 0
    else (if names[0] in counts then counts[names[0]] else 0) + SumOf(names[1..], counts)
  }

  predicate Distinct(names: seq<string>) {
    forall i, j :: 0 <= i < j < |names| ==> names[i] != names[j]
  }

  /** The running total the loop returns is the sum of the per-table counts it records. */
  lemma {:induction false} InsertedIsSumOfCounts(gen: TableGen, names: seq<string>, insert: Insert, p: Progress)
    requires Distinct(names) && forall n :: n in names ==> n !in p.counts
    ensures var r := InsertTables(gen, names, insert, p);
      r.Ok? ==> r.value.inserted == p.inserted + SumOf(names, r.value.counts)
    decreases |names|
  {
    var r := InsertTables(gen, names, insert, p);
    if |names| > 0 && r.Ok? {
      var name := names[0];
      assert name !in names[1..];
      var rows := gen(name, p.keys, p.data).value;
      if rows == [] {
        InsertedIsSumOfCounts(gen, names[1..], insert, p);
      } else {
        var keys := insert(name, rows).value;
        var next := Record(p, name, keys, rows);
        assert r == InsertTables(gen, names[1..], insert, next);
        InsertedIsSumOfCounts(gen, names[1..], insert, next);
      }
    }
  }

  // ---------------------------------------------------------------------------
  // The service entry point
  // ---------------------------------------------------------------------------

  /** What the service returns: the records per table, the total inserted, the count per
      inserted table, and the DELETE statements it ran. */
  datatype Outcome = Outcome(fakeData: RowsMap, totalInserted: int, counts: map<string, int>, deleted: seq<string>)

  /** The path without insert: the records of `generateFakeData`, nothing inserted; the
      generator's exception for a negative count is not caught. */
  function GenerateOnly(s: DatabaseSchema, count: int, children: Generator.ChildDraws, scalar: Generator.Scalars): (r: Result<Outcome, ServiceError>)
    requires Generator.LinksHaveColumns(s) && Generator.ValidDraws(children)
    ensures r.Err? <==> count < 0 && |s.tables| > 0
    ensures r.Err? ==> r.error == GenerationFailed(Generator.IllegalCapacity(count))
    ensures r.Ok? ==> r.value.totalInserted == 0 && r.value.counts == map[] && r.value.deleted == []
    ensures r.Ok? ==> r.value.fakeData.Keys == Sorter.Names(s)
    ensures r.Ok? ==> forall name :: name in r.value.fakeData ==> |r.value.fakeData[name]| == count
  {
    match Generator.GenerateFakeData(s, count, children, scalar)
    case Err(e) => Err(GenerationFailed(e))
    case Ok(data) => Ok(Outcome(data, 0, map[], []))
  }

  /** The insert path over the table names in insert order: empty the tables in reverse order,
      then run the insert loop from empty maps. */
  function InsertRun(gen: TableGen, names: seq<string>, accepted: string -> bool, sink: Insert): (r: Result<Outcome, ServiceError>)
    ensures r.Ok? ==>
      r.value.counts.Keys == r.value.fakeData.Keys
      && (forall n :: n in r.value.counts ==> n in names && r.value.fakeData[n] != [])
      && r.value.deleted == Map(DeleteOrder(names), DeleteSql)
    ensures
      (forall sql :: accepted(sql)) && (forall n, k, d :: gen(n, k, d).Ok?) && (forall n, rows :: sink(n, rows).Ok?)
      ==> r.Ok?
  {
    match RunDeletes(DeleteOrder(names), accepted)
    case Err(e) => Err(e)
    case Ok(deleted) =>
      match InsertTables(gen, names, sink, Start)
      case Err(e) => Err(e)
      case Ok(done) => Ok(Outcome(done.data, done.inserted, done.counts, deleted))
  }

  /** `generateAndInsertData`: the input checks, then one of the two paths. The connection itself
      is not modelled; `accepted` and `sink` stand for the database. */
  function GenerateAndInsert(p: Properties, schema: Option<DatabaseSchema>, count: int, insert: bool,
                             dbInfo: Option<Connection.ConnectionInfo>, children: Generator.ChildDraws,
                             scalar: Generator.Scalars, anyValue: Row -> Value,
                             accepted: string -> bool, sink: Insert): (r: Result<Outcome, ServiceError>)
    requires schema.Some? ==> Generator.LinksHaveColumns(schema.value)
    requires Generator.ValidDraws(children)
    ensures var v := ValidateInput(p, schema, count, insert, dbInfo);
      v.Some? ==> r == Err(v.value)
    ensures var v := ValidateInput(p, schema, count, insert, dbInfo);
      v.None? && !insert ==> r == GenerateOnly(schema.value, count, children, scalar)
    ensures var v := ValidateInput(p, schema, count, insert, dbInfo);
      v.None? && insert ==>
        r == InsertRun(Generated(schema.value, count, anyValue, scalar), Sorter.OrderedTableNames(schema.value), accepted, sink)
  {
    var v := ValidateInput(p, schema, count, insert, dbInfo);
    if v.Some? then Err(v.value)
    else if !insert then GenerateOnly(schema.value, count, children, scalar)
    else InsertRun(Generated(schema.value, count, anyValue, scalar), Sorter.OrderedTableNames(schema.value), accepted, sink)
  }

  /** `xs` with `f` applied to each element. */
  function Map(xs: seq<string>, f: string -> string): (r: seq<string>)
    ensures |r| == |xs| && forall k :: 0 <= k < |xs| ==> r[k] == f(xs[k])
  {
    if |xs| == 0 then [] else [f(xs[0])] + Map(xs[1..], f)
  }

  /** With distinct table names, the total the insert path reports is the sum of its per-table
      counts, and each count is the number of keys the database gave that table. */
  lemma TotalIsSumOfCounts(gen: TableGen, names: seq<string>, accepted: string -> bool, sink: Insert)
    requires Distinct(names)
    ensures var r := InsertRun(gen, names, accepted, sink);
      r.Ok? ==> r.value.totalInserted == SumOf(names, r.value.counts)
  {
    InsertedIsSumOfCounts(gen, names, sink, Start);
  }

  // ---------------------------------------------------------------------------
  // Negative record counts
  // ---------------------------------------------------------------------------

  /** With a non-negative minimum, as in the shipped settings, a count that passes the input
      checks never makes the generator throw: the generate-only path succeeds and the insert
      path's generator never fails. */
  lemma ValidatedCountGenerates(p: Properties, s: DatabaseSchema, count: int, insert: bool,
                                dbInfo: Option<Connection.ConnectionInfo>, children: Generator.ChildDraws,
                                scalar: Generator.Scalars, anyValue: Row -> Value)
    requires Generator.LinksHaveColumns(s) && Generator.ValidDraws(children)
    requires p.minRecordCount >= 0 && ValidateInput(p, Some(s), count, insert, dbInfo).None?
    ensures GenerateOnly(s, count, children, scalar).Ok?
    ensures forall name, keys, data :: Generated(s, count, anyValue, scalar)(name, keys, data).Ok?
  {
  }

  /** A negative minimum lets a negative count through the input checks; the generator then
      throws on the first table it finds, so both paths fail when every table name is plain. */
  lemma NegativeCountFails(s: DatabaseSchema, count: int, children: Generator.ChildDraws,
                           scalar: Generator.Scalars, anyValue: Row -> Value,
                           accepted: string -> bool, sink: Insert)
    requires Generator.LinksHaveColumns(s) && Generator.ValidDraws(children)
    requires count < 0 && |s.tables| > 0
    requires forall t :: t in s.tables ==> '.' !in t.name
    ensures GenerateOnly(s, count, children, scalar) == Err(GenerationFailed(Generator.IllegalCapacity(count)))
    ensures InsertRun(Generated(s, count, anyValue, scalar), Sorter.OrderedTableNames(s), accepted, sink).Err?
  {
    var names := Sorter.OrderedTableNames(s);
    var ts := Sorter.OrderedTables(s);
    Generator.OrderedTablesPresent(s);
    Sorter.QualifiedNameResolves(s, ts[0]);
    GeneratedFailsOnKnownTable(s, count, anyValue, scalar, names[0], Start.keys, Start.data);
    FirstTableFails(Generated(s, count, anyValue, scalar), names, accepted, sink);
  }

  lemma GeneratedFailsOnKnownTable(s: DatabaseSchema, count: int, anyValue: Row -> Value, scalar: Generator.Scalars,
                                   name: string, keys: KeysMap, data: RowsMap)
    requires Generator.LinksHaveColumns(s)
    requires count < 0 && TableByName(s, name).Some?
    ensures Generated(s, count, anyValue, scalar)(name, keys, data).Err?
  {
  }

  lemma FirstTableFails(gen: TableGen, names: seq<string>, accepted: string -> bool, sink: Insert)
    requires |names| > 0 && gen(names[0], Start.keys, Start.data).Err?
    ensures InsertRun(gen, names, accepted, sink).Err?
  {
  }
}
