/** The identifier whitelist the insert path checks table and column names against before it
    writes them into SQL text: the set of schema table names and the set of `table.column`
    pairs, both built once from the schema. */
module Whitelist {
  import opened Strings
  import opened Schema

  datatype Whitelist = Whitelist(tables: set<string>, pairs: set<string>)

  /** The entry recorded for one column of one table. */
  function Pair(table: string, column: string): string {
    table + "." + column
  }

  /** The whitelist of a list of tables, built table by table as the constructor's loop does. */
  function BuildFrom(ts: seq<Table>): (w: Whitelist)
    ensures w.tables == TableNames(ts) && w.pairs == TablePairs(ts)
    decreases |ts|
  {
    if |ts| == 0 then Whitelist({}, {})
    else
      var front := ts[..|ts| - 1];
      var last := ts[|ts| - 1];
      var w := BuildFrom(front);
      Whitelist(w.tables + {last.name}, w.pairs + ColumnPairs(last.name, last.columns))
  }

  /** The table names recorded for `ts`. */
  function TableNames(ts: seq<Table>): (r: set<string>)
    ensures forall n :: n in r <==> exists t :: t in ts && t.name == n
    decreases |ts|
  {
    if |ts| == 0 then {}
    else
      var front := ts[..|ts| - 1];
      assert ts == front + [ts[|ts| - 1]];
      TableNames(front) + {ts[|ts| - 1].name}
  }

  /** The pairs recorded for `ts`. */
  function TablePairs(ts: seq<Table>): (r: set<string>)
    ensures forall p :: p in r <==>
      exists t, c :: t in ts && c in t.columns && p == Pair(t.name, c.name)
    decreases |ts|
  {
    if |ts| == 0 then {}
    else
      var front := ts[..|ts| - 1];
      var last := ts[|ts| - 1];
      assert ts == front + [last];
      TablePairs(front) + ColumnPairs(last.name, last.columns)
  }

  /** The pairs of one table's columns. */
  function ColumnPairs(table: string, cols: seq<Column>): (r: set<string>)
    ensures forall p :: p in r <==> exists c :: c in cols && p == Pair(table, c.name)
    decreases |cols|
  {
    if |cols| == 0 then {}
    else
      var front := cols[..|cols| - 1];
      assert cols == front + [cols[|cols| - 1]];
      ColumnPairs(table, front) + {Pair(table, cols[|cols| - 1].name)}
  }

  /** `new IdentifierValidator(schema)`. */
  function Build(s: DatabaseSchema): (w: Whitelist)
    ensures forall n :: n in w.tables <==> exists t :: t in s.tables && t.name == n
    ensures forall p :: p in w.pairs <==>
      exists t, c :: t in s.tables && c in t.columns && p == Pair(t.name, c.name)
  {
    BuildFrom(s.tables)
  }

  /** `isAllowedTable`: the part after the last dot names a schema table. */
  predicate IsAllowedTable(w: Whitelist, tableName: string) {
    Unqualified(tableName) in w.tables
  }

  /** `isAllowedColumn`: the pair of the unqualified table name and the column is recorded. */
  predicate IsAllowedColumn(w: Whitelist, tableName: string, column: string) {
    Pair(Unqualified(tableName), column) in w.pairs
  }

  // ---------------------------------------------------------------------------
  // Properties
  // ---------------------------------------------------------------------------

  /** The table check accepts exactly the names the schema lookup resolves, qualified or not. */
  lemma AllowedTableIffFound(s: DatabaseSchema, tableName: string)
    ensures IsAllowedTable(Build(s), tableName) <==> TableByName(s, tableName).Some?
  {
  }

  /** A qualified spelling is judged as its unqualified part, whatever the qualifier. */
  lemma QualifierIgnored(s: DatabaseSchema, q: string, name: string, column: string)
    requires '.' !in name
    ensures IsAllowedTable(Build(s), q + "." + name) <==> IsAllowedTable(Build(s), name)
    ensures IsAllowedColumn(Build(s), q + "." + name, column) <==> IsAllowedColumn(Build(s), name, column)
  {
    UnqualifiedOfQualified(q, name);
  }

  /** The first dot of a pair is the one after a dot-free table part. */
  lemma FirstDot(a: string, b: string)
    requires '.' !in a
    ensures Pair(a, b)[|a|] == '.'
    ensures forall k :: 0 <= k < |a| ==> Pair(a, b)[k] != '.'
  {
    assert forall k :: 0 <= k < |a| ==> Pair(a, b)[k] == a[k];
  }

  /** Two pairs whose table parts have no dot are equal only when both parts are. */
  lemma PairInjective(a: string, b: string, c: string, d: string)
    requires '.' !in a && '.' !in c
    ensures Pair(a, b) == Pair(c, d) <==> a == c && b == d
  {
    if Pair(a, b) == Pair(c, d) {
      var p := Pair(a, b);
      FirstDot(a, b);
      FirstDot(c, d);
      assert |a| == |c|;
      assert a == p[..|a|] == c;
      assert b == p[|a| + 1..] == d;
    }
  }

  /** With dot-free table names the column check is exact: the column is allowed iff the table
      the unqualified name denotes has a column of exactly that name. */
  lemma AllowedColumnExact(s: DatabaseSchema, tableName: string, column: string)
    requires forall t :: t in s.tables ==> '.' !in t.name
    ensures IsAllowedColumn(Build(s), tableName, column) <==>
      exists t, c :: t in s.tables && c in t.columns && t.name == Unqualified(tableName) && c.name == column
  {
    var w := BuildFrom(s.tables);
    var n := Unqualified(tableName);
    if IsAllowedColumn(w, tableName, column) {
      var t, c :| t in s.tables && c in t.columns && Pair(n, column) == Pair(t.name, c.name);
      PairInjective(n, column, t.name, c.name);
    }
  }

  /** Every column of a schema table with a dot-free name passes the check under that name. */
  lemma OwnColumnsAllowed(s: DatabaseSchema, t: Table, c: Column)
    requires t in s.tables && c in t.columns && '.' !in t.name
    ensures IsAllowedColumn(Build(s), t.name, c.name)
  {
    assert Pair(Unqualified(t.name), c.name) == Pair(t.name, c.name);
  }

  /** A dotted table name in the schema lets a pair through for a table the schema does not
      have: a table `a.b` with a column `c` records `a.b.c`, which is also the pair of table `a`
      and column `b.c`. */
  lemma DottedTableNameCollides(s: DatabaseSchema, t: Table, c: Column, a: string, b: string)
    requires t in s.tables && c in t.columns && t.name == a + "." + b && '.' !in a
    requires forall u :: u in s.tables ==> u.name != a
    ensures IsAllowedColumn(Build(s), a, b + "." + c.name)
    ensures TableByName(s, a).None?
  {
    PairRegroups(a, b, c.name);
    assert Pair(t.name, c.name) in Build(s).pairs;
    assert TableByName(s, a).None? by {
      NoTableNamed(s, a);
    }
  }

  /** Where the dots fall does not matter to a pair. */
  lemma PairRegroups(a: string, b: string, c: string)
    requires '.' !in a
    ensures Pair(Unqualified(a), b + "." + c) == Pair(a + "." + b, c)
  {
    assert Unqualified(a) == a;
    Regroup(a, b, c, ".");
  }

  lemma Regroup(a: string, b: string, c: string, d: string)
    ensures a + d + (b + d + c) == a + d + b + d + c
  {
  }

  lemma NoTableNamed(s: DatabaseSchema, a: string)
    requires '.' !in a && forall u :: u in s.tables ==> u.name != a
    ensures TableByName(s, a).None?
  {
  }
}
