/** The insert repository: which columns of the generated records an INSERT lists, the SQL text
    it prepares, the parameters it binds for each record and the key list it returns. Running the
    statement is left to the database; the keys the database reports are an input. */
module InsertRepository {
  import opened Wrappers
  import opened Strings
  import opened Seqs
  import opened Schema
  import opened Values
  import opened Whitelist
  import opened Conversion

  /** The argument errors the repository raises. */
  datatype InsertError =
    | TableNotFound(name: string)
    | UnknownTable(name: string)
    | UnknownColumn(table: string, column: string)
    | NoColumns(table: string)

  /** A prepared statement, the parameters bound for each record in order, and the key list
      the call returns. */
  datatype Statement = Statement(sql: string, params: seq<seq<Param>>, keys: seq<int>)

  // ---------------------------------------------------------------------------
  // SQL text
  // ---------------------------------------------------------------------------

  /** `n` copies of `item`, separated by commas. */
  function Items(item: string, n: nat): string {
    Join(seq(n, _ => item), ", ")
  }

  /** `INSERT INTO <table> (<columns>) VALUES (<values>)`. */
  function InsertSql(table: string, columns: seq<string>, values: string): string {
    "INSERT INTO " + table + " (" + Join(columns, ", ") + ") VALUES (" + values + ")"
  }

  /** The number of occurrences of `c` in `s`. */
  function Count(s: string, c: char): (n: nat)
    ensures n <= |s|
    decreases |s|
  {
    if |s| == 0 then 0 else Count(s[..|s| - 1], c) + (if s[|s| - 1] == c then 1 else 0)
  }

  lemma {:induction false} CountAppend(a: string, b: string, c: char)
    ensures Count(a + b, c) == Count(a, c) + Count(b, c)
    decreases |b|
  {
    if |b| == 0 {
      assert a + b == a;
    } else {
      assert (a + b)[..|a + b| - 1] == a + b[..|b| - 1];
      CountAppend(a, b[..|b| - 1], c);
    }
  }

  lemma {:induction false} CountAbsent(s: string, c: char)
    requires c !in s
    ensures Count(s, c) == 0
    decreases |s|
  {
    if |s| > 0 {
      assert forall x :: x in s[..|s| - 1] ==> x in s;
      CountAbsent(s[..|s| - 1], c);
    }
  }

  /** Joining pieces that each hold `m` copies of `c` with a separator that holds none gives
      `m` copies per piece. */
  lemma {:induction false} CountJoin(xs: seq<string>, sep: string, c: char, m: nat)
    requires Count(sep, c) == 0
    requires forall k :: 0 <= k < |xs| ==> Count(xs[k], c) == m
    ensures Count(Join(xs, sep), c) == m * |xs|
    decreases |xs|
  {
    if |xs| > 1 {
      CountJoin(xs[1..], sep, c, m);
      CountAppend(xs[0], sep, c);
      CountAppend(xs[0] + sep, Join(xs[1..], sep), c);
      MulStep(m, |xs[1..]|);
    } else if |xs| == 0 {
      assert Join(xs, sep) == [];
    }
  }

  lemma MulStep(m: nat, n: nat)
    ensures m * (n + 1) == m + m * n
  {
  }

  /** The value list `?, ?, ..., ?` holds exactly `n` placeholders. */
  lemma PlaceholdersCount(n: nat)
    ensures Count(Items("?", n), '?') == n
  {
    CountAbsent(", ", '?');
    assert Count("?", '?') == 1;
    CountJoin(seq(n, _ => "?"), ", ", '?', 1);
  }

  /** The value list `NULL, ..., NULL` holds no placeholder. */
  lemma NullsCount(n: nat)
    ensures Count(Items("NULL", n), '?') == 0
  {
    CountAbsent(", ", '?');
    CountAbsent("NULL", '?');
    CountJoin(seq(n, _ => "NULL"), ", ", '?', 0);
  }

  /** No `?` in any of the names. */
  predicate NoMarks(names: seq<string>) {
    forall k :: 0 <= k < |names| ==> '?' !in names[k]
  }

  /** With names free of `?`, the placeholders of an INSERT are those of its value list. */
  lemma InsertSqlCount(table: string, columns: seq<string>, values: string)
    requires '?' !in table && NoMarks(columns)
    ensures Count(InsertSql(table, columns, values), '?') == Count(values, '?')
  {
    var cs := Join(columns, ", ");
    CountAbsent("INSERT INTO ", '?');
    CountAbsent(table, '?');
    CountAbsent(" (", '?');
    CountAbsent(") VALUES (", '?');
    CountAbsent(")", '?');
    CountAbsent(", ", '?');
    forall k | 0 <= k < |columns|
      ensures Count(columns[k], '?') == 0
    {
      CountAbsent(columns[k], '?');
    }
    CountJoin(columns, ", ", '?', 0);
    CountAppend("INSERT INTO ", table, '?');
    CountAppend("INSERT INTO " + table, " (", '?');
    CountAppend("INSERT INTO " + table + " (", cs, '?');
    CountAppend("INSERT INTO " + table + " (" + cs, ") VALUES (", '?');
    CountAppend("INSERT INTO " + table + " (" + cs + ") VALUES (", values, '?');
    CountAppend("INSERT INTO " + table + " (" + cs + ") VALUES (" + values, ")", '?');
  }

  /** An INSERT listing `n` columns with a placeholder each has `n` placeholders. */
  lemma PlaceholderPerColumn(table: string, columns: seq<string>)
    requires '?' !in table && NoMarks(columns)
    ensures Count(InsertSql(table, columns, Items("?", |columns|)), '?') == |columns|
  {
    InsertSqlCount(table, columns, Items("?", |columns|));
    PlaceholdersCount(|columns|);
  }

  // ---------------------------------------------------------------------------
  // Binding
  // ---------------------------------------------------------------------------

  /** The parameter bound for column `name` of a record: converted by the declared type of the
      first table column of that name, or the value itself when the table has no such column. */
  function BindValue(t: Table, name: string, rec: Row, accepts: Accepts): (p: Param)
    ensures ColumnByName(t, name).None? ==> p == Raw(Get(rec, name))
    ensures Get(rec, name) == VNull ==> p == Raw(VNull)
  {
    match ColumnByName(t, name)
    case Some(c) => Convert(Get(rec, name), c, accepts)
    case None => Raw(Get(rec, name))
  }

  /** The parameters of one record, one per listed column, in order. */
  function BindRow(t: Table, columns: seq<string>, rec: Row, accepts: Accepts): (r: seq<Param>)
    ensures |r| == |columns|
    ensures forall j :: 0 <= j < |columns| ==> r[j] == BindValue(t, columns[j], rec, accepts)
  {
    seq(|columns|, j requires 0 <= j < |columns| => BindValue(t, columns[j], rec, accepts))
  }

  /** The parameters of every record. */
  function BindAll(t: Table, columns: seq<string>, records: seq<Row>, accepts: Accepts): (r: seq<seq<Param>>)
    ensures |r| == |records|
    ensures forall i :: 0 <= i < |records| ==> |r[i]| == |columns|
  {
    seq(|records|, i requires 0 <= i < |records| => BindRow(t, columns, records[i], accepts))
  }

  /** `n` zero keys. */
  function Zeros(n: nat): (r: seq<int>)
    ensures |r| == n && forall i :: 0 <= i < n ==> r[i] == 0
  {
    seq(n, _ => 0)
  }

  /** The keys `1, ..., n`. */
  function Counted(n: nat): (r: seq<int>)
    ensures |r| == n && forall i :: 0 <= i < n ==> r[i] == i + 1
  {
    seq(n, i => i + 1)
  }

  // ---------------------------------------------------------------------------
  // insertRecords
  // ---------------------------------------------------------------------------

  /** A key names an auto-increment column of the table. */
  predicate IsAutoIncrement(t: Table, name: string) {
    ColumnByName(t, name).Some? && ColumnByName(t, name).value.isAutoIncrement
  }

  /** The keys listed in the INSERT, in iteration order: every key but the auto-increment ones. */
  function ListedKeys(t: Table, keyOrder: seq<string>): (r: seq<string>)
    ensures forall n :: n in r <==> n in keyOrder && !IsAutoIncrement(t, n)
  {
    Filter(keyOrder, n => !IsAutoIncrement(t, n))
  }

  /** Iteration order: one more key is listed after the keys iterated before it, exactly when
      it is not auto-increment. */
  lemma ListedKeysAppend(t: Table, keyOrder: seq<string>, n: string)
    ensures ListedKeys(t, keyOrder + [n]) == ListedKeys(t, keyOrder) + (if !IsAutoIncrement(t, n) then [n] else [])
  {
    var p := (n: string) => !IsAutoIncrement(t, n);
    FilterAppend(keyOrder, [n], p);
    assert Filter([n], p) == (if p(n) then [n] else []) + Filter([n][1..], p);
  }

  /** The auto-increment keys, in iteration order. */
  function AutoKeys(t: Table, keyOrder: seq<string>): (r: seq<string>)
    ensures forall n :: n in r <==> n in keyOrder && IsAutoIncrement(t, n)
  {
    Filter(keyOrder, n => IsAutoIncrement(t, n))
  }

  /** A filter and its complement split the sequence. */
  lemma {:induction false} FilterSplits<T(!new)>(xs: seq<T>, p: T -> bool, q: T -> bool)
    requires forall x :: q(x) == !p(x)
    ensures |Filter(xs, p)| + |Filter(xs, q)| == |xs|
    decreases |xs|
  {
    if |xs| > 0 {
      FilterSplits(xs[1..], p, q);
    }
  }

  /** Each key of the first record is listed or is auto-increment, never both. */
  lemma KeysPartitioned(t: Table, keyOrder: seq<string>)
    ensures |ListedKeys(t, keyOrder)| + |AutoKeys(t, keyOrder)| == |keyOrder|
  {
    FilterSplits(keyOrder, n => IsAutoIncrement(t, n), n => !IsAutoIncrement(t, n));
  }

  /** `keyOrder` enumerates the key set of the first record, each key once. */
  ghost predicate IsKeyOrder(records: seq<Row>, keyOrder: seq<string>) {
    |records| > 0 ==>
      && (forall n :: n in keyOrder <==> n in records[0])
      && (forall i, j :: 0 <= i < j < |keyOrder| ==> keyOrder[i] != keyOrder[j])
  }

  /** `insertRecords`. `keyOrder` is the order in which the first record's key set is iterated;
      the key list is `1, ..., n` when the table has an auto-increment key, whatever the batch
      does, and empty otherwise. */
  function InsertRecords(s: DatabaseSchema, tableName: string, records: seq<Row>, keyOrder: seq<string>,
                         accepts: Accepts): (r: Result<Option<Statement>, InsertError>)
    requires IsKeyOrder(records, keyOrder)
    ensures r.Err? <==> |records| > 0 && TableByName(s, tableName).None?
    ensures r.Err? ==> r.error == TableNotFound(tableName)
    ensures r.Ok? && r.value.Some? ==> |records| > 0 && |r.value.value.params| == |records|
  {
    if |records| == 0 then Ok(None)
    else match TableByName(s, tableName)
      case None => Err(TableNotFound(tableName))
      case Some(t) =>
        var columns := ListedKeys(t, keyOrder);
        if |columns| == 0 then Ok(None)
        else
          var keys := if |AutoKeys(t, keyOrder)| > 0 then Counted(|records|) else [];
          Ok(Some(Statement(InsertSql(tableName, columns, Items("?", |columns|)),
                            BindAll(t, columns, records, accepts), keys)))
  }

  /** What a statement of `insertRecords` looks like: it lists the non-auto-increment keys of
      the first record with one placeholder each, binds that many parameters per record, and
      returns `1, ..., n` exactly when some key is auto-increment. */
  lemma InsertRecordsShape(s: DatabaseSchema, tableName: string, records: seq<Row>, keyOrder: seq<string>,
                           accepts: Accepts)
    requires IsKeyOrder(records, keyOrder)
    requires InsertRecords(s, tableName, records, keyOrder, accepts).Ok?
    requires InsertRecords(s, tableName, records, keyOrder, accepts).value.Some?
    ensures var st := InsertRecords(s, tableName, records, keyOrder, accepts).value.value;
      var t := TableByName(s, tableName).value;
      var columns := ListedKeys(t, keyOrder);
      && (forall n :: n in columns <==> n in records[0] && !IsAutoIncrement(t, n))
      && st.sql == InsertSql(tableName, columns, Items("?", |columns|))
      && (forall i :: 0 <= i < |records| ==> |st.params[i]| == |columns|)
      && (st.keys == if |AutoKeys(t, keyOrder)| > 0 then Counted(|records|) else [])
  {
  }

  /** No auto-increment column is ever listed, and with names free of `?` every record binds as
      many parameters as the SQL has placeholders. */
  lemma InsertRecordsMatchesPlaceholders(s: DatabaseSchema, tableName: string, records: seq<Row>,
                                         keyOrder: seq<string>, accepts: Accepts)
    requires IsKeyOrder(records, keyOrder)
    requires InsertRecords(s, tableName, records, keyOrder, accepts).Ok?
    requires InsertRecords(s, tableName, records, keyOrder, accepts).value.Some?
    requires '?' !in tableName && NoMarks(keyOrder)
    ensures var st := InsertRecords(s, tableName, records, keyOrder, accepts).value.value;
      forall i :: 0 <= i < |records| ==> |st.params[i]| == Count(st.sql, '?')
  {
    var t := TableByName(s, tableName).value;
    var columns := ListedKeys(t, keyOrder);
    assert NoMarks(columns) by {
      forall k | 0 <= k < |columns|
        ensures '?' !in columns[k]
      {
        assert columns[k] in keyOrder;
      }
    }
    InsertRecordsShape(s, tableName, records, keyOrder, accepts);
    PlaceholderPerColumn(tableName, columns);
  }

  /** An empty record list prepares nothing and returns no keys. */
  lemma NoRecordsNoStatement(s: DatabaseSchema, tableName: string, keyOrder: seq<string>, accepts: Accepts)
    ensures InsertRecords(s, tableName, [], keyOrder, accepts) == Ok(None)
  {
  }

  // ---------------------------------------------------------------------------
  // insertAllRecords
  // ---------------------------------------------------------------------------

  /** The keys a call returned. */
  function KeysOf(r: Option<Statement>): seq<int> {
    match r
    case Some(st) => st.keys
    case None => []
  }

  /** A name has generated records. */
  predicate HasRows(data: RowsMap, name: string) {
    name in data && |data[name]| > 0
  }

  /** Each table's key order enumerates its first record's keys. */
  ghost predicate KeyOrders(data: RowsMap, keyOrders: string -> seq<string>) {
    forall name :: name in data ==> IsKeyOrder(data[name], keyOrders(name))
  }

  /** `insertAllRecords` over the first `n` ordered names: tables are inserted in order, a
      table without records is skipped, and the first error ends the run. */
  function InsertAll(data: RowsMap, ordered: seq<string>, n: nat, s: DatabaseSchema,
                     keyOrders: string -> seq<string>, accepts: Accepts): (r: Result<KeysMap, InsertError>)
    requires n <= |ordered| && KeyOrders(data, keyOrders)
    ensures r.Ok? ==> forall name :: name in r.value <==> name in ordered[..n] && HasRows(data, name)
    decreases n
  {
    if n == 0 then Ok(map[])
    else
      var name := ordered[n - 1];
      assert ordered[..n] == ordered[..n - 1] + [name];
      match InsertAll(data, ordered, n - 1, s, keyOrders, accepts)
      case Err(e) => Err(e)
      case Ok(m) =>
        if HasRows(data, name) then
          match InsertRecords(s, name, data[name], keyOrders(name), accepts)
          case Err(e) => Err(e)
          case Ok(st) => Ok(m[name := KeysOf(st)])
        else Ok(m)
  }

  /** Every table of the run inserts successfully exactly when every ordered name with records
      is a schema table; the keys of each are then those of its own call. */
  lemma {:induction false} InsertAllSucceeds(data: RowsMap, ordered: seq<string>, n: nat, s: DatabaseSchema,
                                            keyOrders: string -> seq<string>, accepts: Accepts)
    requires n <= |ordered| && KeyOrders(data, keyOrders)
    ensures InsertAll(data, ordered, n, s, keyOrders, accepts).Ok? <==> AllKnown(data, ordered, n, s)
    decreases n
  {
    if n > 0 {
      InsertAllSucceeds(data, ordered, n - 1, s, keyOrders, accepts);
      InsertAllStep(data, ordered, n, s, keyOrders, accepts);
      AllKnownStep(data, ordered, n, s);
    }
  }

  /** Every one of the first `n` ordered names that has records is a schema table. */
  predicate AllKnown(data: RowsMap, ordered: seq<string>, n: nat, s: DatabaseSchema)
    requires n <= |ordered|
  {
    forall k :: 0 <= k < n && HasRows(data, ordered[k]) ==> TableByName(s, ordered[k]).Some?
  }

  lemma AllKnownStep(data: RowsMap, ordered: seq<string>, n: nat, s: DatabaseSchema)
    requires 0 < n <= |ordered|
    ensures AllKnown(data, ordered, n, s) <==>
      AllKnown(data, ordered, n - 1, s) && (HasRows(data, ordered[n - 1]) ==> TableByName(s, ordered[n - 1]).Some?)
  {
    PrefixStep(ordered, n, name => HasRows(data, name), name => TableByName(s, name).Some?);
  }

  /** A property of the first `n` elements is that of the first `n - 1` and of the last. */
  lemma PrefixStep<T>(xs: seq<T>, n: nat, p: T -> bool, q: T -> bool)
    requires 0 < n <= |xs|
    ensures (forall k :: 0 <= k < n && p(xs[k]) ==> q(xs[k])) <==>
      (forall k :: 0 <= k < n - 1 && p(xs[k]) ==> q(xs[k])) && (p(xs[n - 1]) ==> q(xs[n - 1]))
  {
  }

  /** One step of the run: the first `n` tables insert when the first `n - 1` do and the
      `n`-th, if it has records, is a schema table. */
  lemma InsertAllStep(data: RowsMap, ordered: seq<string>, n: nat, s: DatabaseSchema,
                      keyOrders: string -> seq<string>, accepts: Accepts)
    requires 0 < n <= |ordered| && KeyOrders(data, keyOrders)
    ensures InsertAll(data, ordered, n, s, keyOrders, accepts).Ok? <==>
      InsertAll(data, ordered, n - 1, s, keyOrders, accepts).Ok? &&
      (HasRows(data, ordered[n - 1]) ==> TableByName(s, ordered[n - 1]).Some?)
  {
  }

  // ---------------------------------------------------------------------------
  // insertRecordsWithJdbcTemplate
  // ---------------------------------------------------------------------------

  /** The names of columns, in order. */
  function NamesOfColumns(cols: seq<Column>): (r: seq<string>)
    ensures |r| == |cols| && forall k :: 0 <= k < |cols| ==> r[k] == cols[k].name
  {
    seq(|cols|, k requires 0 <= k < |cols| => cols[k].name)
  }

  /** The table's columns that are not auto-increment, in declaration order. */
  function PlainColumns(t: Table): (r: seq<string>)
    ensures forall n :: n in r ==> exists c :: c in t.columns && c.name == n && !c.isAutoIncrement
  {
    var cs := Filter(t.columns, (c: Column) => !c.isAutoIncrement);
    var r := NamesOfColumns(cs);
    assert forall n :: n in r ==> exists c :: c in cs && c.name == n;
    r
  }

  /** The table's auto-increment columns, in declaration order. */
  function IdentityColumns(t: Table): (r: seq<string>)
    ensures forall n :: n in r ==> exists c :: c in t.columns && c.name == n && c.isAutoIncrement
  {
    var cs := Filter(t.columns, (c: Column) => c.isAutoIncrement);
    var r := NamesOfColumns(cs);
    assert forall n :: n in r ==> exists c :: c in cs && c.name == n;
    r
  }

  /** The first column of this name is declared NOT NULL. */
  predicate NotNullColumn(t: Table, name: string) {
    ColumnByName(t, name).Some? && !ColumnByName(t, name).value.isNullable
  }

  /** The plain columns the first record supplies: present with a value, or present with null
      in a NOT NULL column. */
  function SuppliedColumns(t: Table, first: Row): (r: seq<string>)
    ensures forall n :: n in r <==> n in PlainColumns(t) && n in first && (Get(first, n) != VNull || NotNullColumn(t, n))
  {
    Filter(PlainColumns(t), n => Supplies(t, first, n))
  }

  /** The first record supplies column `n`. */
  predicate Supplies(t: Table, first: Row, n: string) {
    n in first && (Get(first, n) != VNull || NotNullColumn(t, n))
  }

  /** The keys the database reports, one per executed record, cut at the record count. */
  function Reported(returned: seq<int>, n: nat): (r: seq<int>)
    ensures |r| <= n && |r| <= |returned| && r == returned[..|r|]
  {
    if |returned| <= n then returned else returned[..n]
  }

  /** The statement for a known table. `corrected` chooses which column list the
      non-auto-increment path binds: all plain columns, as the code does, or the supplied ones
      the SQL lists. */
  function TemplateStatement(w: Whitelist, t: Table, tableName: string, nameOnly: string, records: seq<Row>,
                             accepts: Accepts, returned: seq<int>, corrected: bool): (r: Result<Option<Statement>, InsertError>)
    requires |records| > 0
    ensures r.Ok? ==> r.value.Some? && |r.value.value.params| == |records|
  {
    var plain := PlainColumns(t);
    var identity := IdentityColumns(t);
    var supplied := SuppliedColumns(t, records[0]);
    match FindFirst(supplied, n => !IsAllowedColumn(w, nameOnly, n))
    case Some(n) => Err(UnknownColumn(nameOnly, n))
    case None =>
      if |plain| == 0 && |identity| == 0 then Err(NoColumns(tableName))
      else
        var sql := if |plain| == 0 then InsertSql(tableName, identity, Items("NULL", |identity|))
                   else InsertSql(tableName, supplied, Items("?", |supplied|));
        if |identity| > 0 then
          Ok(Some(Statement(sql, BindAll(t, supplied, records, accepts), Reported(returned, |records|))))
        else
          var bound := if corrected then supplied else plain;
          Ok(Some(Statement(sql, BindAll(t, bound, records, accepts), Zeros(|records|))))
  }

  /** `insertRecordsWithJdbcTemplate` as the code has it: the path without auto-increment
      columns binds every plain column, although the SQL lists only the supplied ones. */
  function InsertWithTemplateAsWritten(s: DatabaseSchema, tableName: string, records: seq<Row>, accepts: Accepts,
                                       returned: seq<int>): (r: Result<Option<Statement>, InsertError>)
    ensures r.Ok? && r.value.None? <==> |records| == 0
    ensures r.Ok? && r.value.Some? ==> |r.value.value.params| == |records|
  {
    if |records| == 0 then Ok(None)
    else if !IsAllowedTable(Build(s), tableName) then Err(UnknownTable(tableName))
    else
      var nameOnly := Unqualified(tableName);
      match TableByName(s, nameOnly)
      case None => Err(TableNotFound(nameOnly))
      case Some(t) => TemplateStatement(Build(s), t, tableName, nameOnly, records, accepts, returned, false)
  }

  /** `insertRecordsWithJdbcTemplate` with the binding corrected to the columns the SQL lists. */
  function InsertWithTemplate(s: DatabaseSchema, tableName: string, records: seq<Row>, accepts: Accepts,
                              returned: seq<int>): (r: Result<Option<Statement>, InsertError>)
    ensures r.Ok? && r.value.None? <==> |records| == 0
    ensures r.Ok? && r.value.Some? ==> |r.value.value.params| == |records|
  {
    if |records| == 0 then Ok(None)
    else if !IsAllowedTable(Build(s), tableName) then Err(UnknownTable(tableName))
    else
      var nameOnly := Unqualified(tableName);
      match TableByName(s, nameOnly)
      case None => Err(TableNotFound(nameOnly))
      case Some(t) => TemplateStatement(Build(s), t, tableName, nameOnly, records, accepts, returned, true)
  }

  /** Every supplied column passes the column check: the names come from the table itself. */
  lemma SuppliedColumnsAllowed(s: DatabaseSchema, t: Table, nameOnly: string, first: Row)
    requires TableByName(s, nameOnly) == Some(t) && '.' !in nameOnly
    ensures forall n :: n in SuppliedColumns(t, first) ==> IsAllowedColumn(Build(s), nameOnly, n)
  {
    forall n | n in SuppliedColumns(t, first)
      ensures IsAllowedColumn(Build(s), nameOnly, n)
    {
      var c :| c in t.columns && c.name == n && !c.isAutoIncrement;
      assert Pair(Unqualified(nameOnly), n) == Pair(t.name, c.name);
    }
  }

  /** For a known table whose supplied columns all pass the column check, the statement fails
      only when the table has no columns at all. */
  lemma KnownTableErrors(w: Whitelist, t: Table, tableName: string, nameOnly: string, records: seq<Row>,
                         accepts: Accepts, returned: seq<int>, corrected: bool)
    requires |records| > 0
    requires forall n :: n in SuppliedColumns(t, records[0]) ==> IsAllowedColumn(w, nameOnly, n)
    ensures var r := TemplateStatement(w, t, tableName, nameOnly, records, accepts, returned, corrected);
      (r.Err? <==> |t.columns| == 0) && (r.Err? ==> r.error == NoColumns(tableName))
  {
    var supplied := SuppliedColumns(t, records[0]);
    assert FindFirst(supplied, n => !IsAllowedColumn(w, nameOnly, n)).None?;
    ColumnsSplit(t);
  }

  /** The errors of the corrected template insert: an unknown table, or a known table without
      columns. The lookup after the table check and the column check never fail. */
  lemma TemplateErrors(s: DatabaseSchema, tableName: string, records: seq<Row>, accepts: Accepts,
                       returned: seq<int>)
    requires |records| > 0
    ensures var r := InsertWithTemplate(s, tableName, records, accepts, returned);
      && (r.Err? <==> TableByName(s, tableName).None? || |TableByName(s, tableName).value.columns| == 0)
      && (r.Err? ==> r.error == if TableByName(s, tableName).None? then UnknownTable(tableName) else NoColumns(tableName))
  {
    if TableByName(s, tableName).None? {
      UnknownTableRejected(s, tableName, records, accepts, returned);
    } else {
      KnownTableLookup(s, tableName);
      KnownTableOnly(s, TableByName(s, tableName).value, tableName, Unqualified(tableName), records, accepts, returned, true);
    }
  }

  /** The same errors for the template insert as written. */
  lemma TemplateAsWrittenErrors(s: DatabaseSchema, tableName: string, records: seq<Row>, accepts: Accepts,
                                returned: seq<int>)
    requires |records| > 0
    ensures var r := InsertWithTemplateAsWritten(s, tableName, records, accepts, returned);
      && (r.Err? <==> TableByName(s, tableName).None? || |TableByName(s, tableName).value.columns| == 0)
      && (r.Err? ==> r.error == if TableByName(s, tableName).None? then UnknownTable(tableName) else NoColumns(tableName))
  {
    if TableByName(s, tableName).None? {
      UnknownTableRejected(s, tableName, records, accepts, returned);
    } else {
      KnownTableLookup(s, tableName);
      KnownTableOnly(s, TableByName(s, tableName).value, tableName, Unqualified(tableName), records, accepts, returned, false);
    }
  }

  /** A name the lookup does not resolve fails the table check. */
  lemma UnknownTableRejected(s: DatabaseSchema, tableName: string, records: seq<Row>, accepts: Accepts,
                             returned: seq<int>)
    requires |records| > 0 && TableByName(s, tableName).None?
    ensures InsertWithTemplate(s, tableName, records, accepts, returned) == Err(UnknownTable(tableName))
    ensures InsertWithTemplateAsWritten(s, tableName, records, accepts, returned) == Err(UnknownTable(tableName))
  {
    AllowedTableIffFound(s, tableName);
  }

  /** A name the lookup resolves passes the table check, and so does the lookup of its
      unqualified part. */
  lemma KnownTableLookup(s: DatabaseSchema, tableName: string)
    requires TableByName(s, tableName).Some?
    ensures IsAllowedTable(Build(s), tableName)
    ensures TableByName(s, Unqualified(tableName)) == TableByName(s, tableName)
  {
    AllowedTableIffFound(s, tableName);
    UnqualifiedIdempotent(tableName);
  }

  /** For a table the lookup finds, the statement fails only when the table has no columns. */
  lemma KnownTableOnly(s: DatabaseSchema, t: Table, tableName: string, nameOnly: string, records: seq<Row>,
                       accepts: Accepts, returned: seq<int>, corrected: bool)
    requires |records| > 0 && '.' !in nameOnly && TableByName(s, nameOnly) == Some(t)
    ensures var r := TemplateStatement(Build(s), t, tableName, nameOnly, records, accepts, returned, corrected);
      (r.Err? <==> |t.columns| == 0) && (r.Err? ==> r.error == NoColumns(tableName))
  {
    SuppliedColumnsAllowed(s, t, nameOnly, records[0]);
    KnownTableErrors(Build(s), t, tableName, nameOnly, records, accepts, returned, corrected);
  }

  /** A table has columns exactly when it has plain or auto-increment ones. */
  lemma ColumnsSplit(t: Table)
    ensures |PlainColumns(t)| + |IdentityColumns(t)| == |t.columns|
  {
    FilterSplits(t.columns, (c: Column) => c.isAutoIncrement, (c: Column) => !c.isAutoIncrement);
  }

  /** With the correction, every record binds exactly as many parameters as the SQL has
      placeholders, on every path. */
  lemma TemplateMatchesPlaceholders(s: DatabaseSchema, tableName: string, records: seq<Row>, accepts: Accepts,
                                    returned: seq<int>)
    requires |records| > 0
    requires InsertWithTemplate(s, tableName, records, accepts, returned).Ok?
    requires InsertWithTemplate(s, tableName, records, accepts, returned).value.Some?
    requires '?' !in tableName
    requires forall t, c :: t in s.tables && c in t.columns ==> '?' !in c.name
    ensures var st := InsertWithTemplate(s, tableName, records, accepts, returned).value.value;
      forall i :: 0 <= i < |records| ==> |st.params[i]| == Count(st.sql, '?')
  {
    if TableByName(s, tableName).None? {
      UnknownTableRejected(s, tableName, records, accepts, returned);
    } else {
      var t := TableByName(s, tableName).value;
      KnownTableLookup(s, tableName);
      StatementMatchesPlaceholders(Build(s), t, tableName, Unqualified(tableName), records, accepts, returned);
    }
  }

  /** The corrected statement for one table binds one parameter per placeholder. */
  lemma StatementMatchesPlaceholders(w: Whitelist, t: Table, tableName: string, nameOnly: string, records: seq<Row>,
                                     accepts: Accepts, returned: seq<int>)
    requires |records| > 0
    requires TemplateStatement(w, t, tableName, nameOnly, records, accepts, returned, true).Ok?
    requires '?' !in tableName && forall c :: c in t.columns ==> '?' !in c.name
    ensures var st := TemplateStatement(w, t, tableName, nameOnly, records, accepts, returned, true).value.value;
      forall i :: 0 <= i < |records| ==> |st.params[i]| == Count(st.sql, '?')
  {
    var identity := IdentityColumns(t);
    var supplied := SuppliedColumns(t, records[0]);
    assert NoMarks(identity) by {
      forall k | 0 <= k < |identity|
        ensures '?' !in identity[k]
      {
        assert identity[k] in identity;
      }
    }
    assert NoMarks(supplied) by {
      forall k | 0 <= k < |supplied|
        ensures '?' !in supplied[k]
      {
        assert supplied[k] in supplied;
        assert supplied[k] in PlainColumns(t);
      }
    }
    if |PlainColumns(t)| == 0 {
      assert supplied == [];
      InsertSqlCount(tableName, identity, Items("NULL", |identity|));
      NullsCount(|identity|);
    } else {
      PlaceholderPerColumn(tableName, supplied);
    }
  }

  /** As written, a table without auto-increment columns whose first record leaves a nullable
      column null prepares fewer placeholders than the parameters it binds. */
  lemma TemplateAsWrittenOverbinds(s: DatabaseSchema, t: Table, records: seq<Row>, accepts: Accepts,
                                   returned: seq<int>)
    requires t in s.tables && '.' !in t.name && '?' !in t.name
    requires TableByName(s, t.name) == Some(t)
    requires IdentityColumns(t) == [] && forall c :: c in t.columns ==> '?' !in c.name
    requires |records| > 0 && |SuppliedColumns(t, records[0])| < |PlainColumns(t)|
    ensures var r := InsertWithTemplateAsWritten(s, t.name, records, accepts, returned);
      && r.Ok? && Count(r.value.value.sql, '?') == |SuppliedColumns(t, records[0])|
      && |r.value.value.params[0]| == |PlainColumns(t)|
  {
    var supplied := SuppliedColumns(t, records[0]);
    assert IsAllowedTable(Build(s), t.name);
    SuppliedColumnsAllowed(s, t, t.name, records[0]);
    assert FindFirst(supplied, n => !IsAllowedColumn(Build(s), t.name, n)).None?;
    assert NoMarks(supplied) by {
      forall k | 0 <= k < |supplied|
        ensures '?' !in supplied[k]
      {
        assert supplied[k] in supplied;
      }
    }
    PlaceholderPerColumn(t.name, supplied);
  }

  /** Corrected, the same table binds one parameter per supplied column, which is one per
      placeholder. */
  lemma TemplateCorrectedBindsSupplied(s: DatabaseSchema, t: Table, records: seq<Row>, accepts: Accepts,
                                       returned: seq<int>)
    requires t in s.tables && '.' !in t.name && '?' !in t.name
    requires TableByName(s, t.name) == Some(t)
    requires IdentityColumns(t) == [] && |PlainColumns(t)| > 0 && forall c :: c in t.columns ==> '?' !in c.name
    requires |records| > 0
    ensures var r := InsertWithTemplate(s, t.name, records, accepts, returned);
      && r.Ok? && Count(r.value.value.sql, '?') == |SuppliedColumns(t, records[0])|
      && |r.value.value.params[0]| == |SuppliedColumns(t, records[0])|
  {
    var supplied := SuppliedColumns(t, records[0]);
    assert IsAllowedTable(Build(s), t.name);
    SuppliedColumnsAllowed(s, t, t.name, records[0]);
    assert FindFirst(supplied, n => !IsAllowedColumn(Build(s), t.name, n)).None?;
    assert NoMarks(supplied) by {
      forall k | 0 <= k < |supplied|
        ensures '?' !in supplied[k]
      {
        assert supplied[k] in supplied;
      }
    }
    PlaceholderPerColumn(t.name, supplied);
  }

  /** The smallest instance: a table with a NOT NULL column `a` and a nullable column `b`, and
      a first record `{a: 1, b: null}`. As written the SQL has one placeholder and each record
      binds two parameters; the corrected insert binds one. */
  lemma NullableNullOverbinds(tn: string, a: string, b: string, ta: string, tb: string,
                              accepts: Accepts, returned: seq<int>)
    requires '.' !in tn && '?' !in tn && '?' !in a && '?' !in b && a != b
    ensures var t := Table(tn, "", [Column(a, ta, false, false, false, None, -1),
                                    Column(b, tb, false, false, true, None, -1)], [], []);
      var s := DatabaseSchema("", [t], map[], []);
      var rec := map[a := VInt(1), b := VNull];
      var asWritten := InsertWithTemplateAsWritten(s, tn, [rec], accepts, returned);
      var corrected := InsertWithTemplate(s, tn, [rec], accepts, returned);
      && asWritten.Ok? && Count(asWritten.value.value.sql, '?') == 1 && |asWritten.value.value.params[0]| == 2
      && corrected.Ok? && Count(corrected.value.value.sql, '?') == 1 && |corrected.value.value.params[0]| == 1
  {
    var t := Table(tn, "", [Column(a, ta, false, false, false, None, -1),
                            Column(b, tb, false, false, true, None, -1)], [], []);
    TwoColumnShape(tn, a, b, ta, tb);
    assert forall c :: c in t.columns ==> '?' !in c.name;
    OverbindsOn(DatabaseSchema("", [t], map[], []), t, map[a := VInt(1), b := VNull], a, b, accepts, returned);
    CorrectedOn(DatabaseSchema("", [t], map[], []), t, map[a := VInt(1), b := VNull], a, b, accepts, returned);
  }

  /** The instance as written, for any one-table schema whose table has the column lists
      above. */
  lemma OverbindsOn(s: DatabaseSchema, t: Table, rec: Row, a: string, b: string, accepts: Accepts, returned: seq<int>)
    requires s.tables == [t] && '.' !in t.name && '?' !in t.name && '?' !in a && '?' !in b
    requires IdentityColumns(t) == [] && PlainColumns(t) == [a, b] && SuppliedColumns(t, rec) == [a]
    requires forall c :: c in t.columns ==> '?' !in c.name
    ensures var asWritten := InsertWithTemplateAsWritten(s, t.name, [rec], accepts, returned);
      asWritten.Ok? && Count(asWritten.value.value.sql, '?') == 1 && |asWritten.value.value.params[0]| == 2
  {
    OnlyTableFound(s, t);
    TemplateAsWrittenOverbinds(s, t, [rec], accepts, returned);
  }

  /** The same instance, corrected. */
  lemma CorrectedOn(s: DatabaseSchema, t: Table, rec: Row, a: string, b: string, accepts: Accepts, returned: seq<int>)
    requires s.tables == [t] && '.' !in t.name && '?' !in t.name && '?' !in a && '?' !in b
    requires IdentityColumns(t) == [] && PlainColumns(t) == [a, b] && SuppliedColumns(t, rec) == [a]
    requires forall c :: c in t.columns ==> '?' !in c.name
    ensures var corrected := InsertWithTemplate(s, t.name, [rec], accepts, returned);
      corrected.Ok? && Count(corrected.value.value.sql, '?') == 1 && |corrected.value.value.params[0]| == 1
  {
    OnlyTableFound(s, t);
    TemplateCorrectedBindsSupplied(s, t, [rec], accepts, returned);
  }

  /** In a schema of one table with a dot-free name, the lookup finds it by that name. */
  lemma OnlyTableFound(s: DatabaseSchema, t: Table)
    requires s.tables == [t] && '.' !in t.name
    ensures TableByName(s, t.name) == Some(t) && Unqualified(t.name) == t.name
  {
  }

  /** The column lists of the two-column table above. */
  lemma TwoColumnShape(tn: string, a: string, b: string, ta: string, tb: string)
    requires a != b
    ensures var t := Table(tn, "", [Column(a, ta, false, false, false, None, -1),
                                    Column(b, tb, false, false, true, None, -1)], [], []);
      && IdentityColumns(t) == [] && PlainColumns(t) == [a, b]
      && SuppliedColumns(t, map[a := VInt(1), b := VNull]) == [a]
  {
    TwoColumnLists(tn, a, b, ta, tb);
    var ca := Column(a, ta, false, false, false, None, -1);
    var cb := Column(b, tb, false, false, true, None, -1);
    var t := Table(tn, "", [ca, cb], [], []);
    var rec := map[a := VInt(1), b := VNull];
    assert ColumnByName(t, b) == Some(cb);
    assert Supplies(t, rec, a) && !Supplies(t, rec, b);
    assert [a, b][1..] == [b];
    assert [b][1..] == [];
    assert Filter([b], n => Supplies(t, rec, n)) == [];
    assert Filter([a, b], n => Supplies(t, rec, n)) == [a];
  }

  lemma TwoColumnLists(tn: string, a: string, b: string, ta: string, tb: string)
    ensures var t := Table(tn, "", [Column(a, ta, false, false, false, None, -1),
                                    Column(b, tb, false, false, true, None, -1)], [], []);
      IdentityColumns(t) == [] && PlainColumns(t) == [a, b]
  {
    var ca := Column(a, ta, false, false, false, None, -1);
    var cb := Column(b, tb, false, false, true, None, -1);
    var t := Table(tn, "", [ca, cb], [], []);
    assert [ca, cb][1..] == [cb];
    assert [cb][1..] == [];
    assert Filter(t.columns, (c: Column) => c.isAutoIncrement) == [];
    assert Filter(t.columns, (c: Column) => !c.isAutoIncrement) == [ca, cb];
  }
}
