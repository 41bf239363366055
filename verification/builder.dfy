/** The table builder: completes each extracted table from the maps the extractors filled (its
    columns, its primary key, its unique columns and its foreign keys, all looked up under the
    table's key) and adds it to the schema, in extraction order. */
module Builder {
  import opened Wrappers
  import opened Strings
  import opened Schema
  import opened Extractors
  import Analyzer

  /** The key a table's entries are looked up under: `schema.name` when schema names are kept
      and the table has a schema name, the bare name otherwise. */
  function TableKey(t: Table, keep: bool): string {
    if keep && t.schemaName != "" then t.schemaName + "." + t.name else t.name
  }

  /** `addColumnsToTable`, per column: flagged as a primary key when the key list names it,
      otherwise left as it was. */
  function MarkKeys(columns: seq<Column>, pks: seq<string>): (r: seq<Column>)
    ensures |r| == |columns|
    ensures forall k :: 0 <= k < |r| ==>
      r[k] == columns[k].(isPrimaryKey := r[k].isPrimaryKey)
      && (r[k].isPrimaryKey <==> columns[k].isPrimaryKey || columns[k].name in pks)
  {
    seq(|columns|, k requires 0 <= k < |columns| =>
      if columns[k].name in pks then columns[k].(isPrimaryKey := true) else columns[k])
  }

  /** The constraint `addPrimaryKeyConstraints` adds for a non-empty key list. */
  function PrimaryKeyConstraint(tableName: string, pks: seq<string>): Constraint {
    Constraint("pk_" + tableName + "_" + Join(pks, "_"), PrimaryKey, pks)
  }

  /** The constraint `addUniqueConstraints` adds for one unique column. */
  function UniqueConstraint(tableName: string, column: string): Constraint {
    Constraint("u_" + tableName + "_" + column, Unique, [column])
  }

  /** One single-column UNIQUE constraint per listed column, in list order. */
  function UniqueConstraints(tableName: string, us: seq<string>): (r: seq<Constraint>)
    ensures |r| == |us|
    ensures forall k :: 0 <= k < |us| ==> r[k] == UniqueConstraint(tableName, us[k])
  {
    if |us| == 0 then [] else [UniqueConstraint(tableName, us[0])] + UniqueConstraints(tableName, us[1..])
  }

  /** `addColumnsToTable`: the columns appended in order, each marked against the key list. */
  function WithColumns(t: Table, columns: seq<Column>, pks: seq<string>): (r: Table)
    ensures r == t.(columns := t.columns + MarkKeys(columns, pks))
  {
    t.(columns := t.columns + MarkKeys(columns, pks))
  }

  /** `addPrimaryKeyConstraints`: nothing for an empty key list, otherwise one PRIMARY KEY
      constraint over the listed columns. */
  function WithPrimaryKey(t: Table, pks: seq<string>): (r: Table)
    ensures pks == [] ==> r == t
    ensures pks != [] ==> r == AddConstraint(t, PrimaryKeyConstraint(t.name, pks))
  {
    if pks == [] then t
    else
      var c := AddConstraintColumns(NewConstraint("pk_" + t.name + "_" + Join(pks, "_"), PrimaryKey), pks);
      assert [] + pks == pks;
      AddConstraint(t, c)
  }

  /** The constraint after `addColumn` of each listed column in turn. */
  function AddConstraintColumns(c: Constraint, columns: seq<string>): (r: Constraint)
    ensures r == c.(columns := c.columns + columns)
    decreases |columns|
  {
    if |columns| == 0 then
      assert c.columns + columns == c.columns;
      c
    else
      var r := AddConstraintColumns(AddConstraintColumn(c, columns[0]), columns[1..]);
      AppendAssoc(c.columns, [columns[0]], columns[1..]);
      assert [columns[0]] + columns[1..] == columns;
      r
  }

  /** `addUniqueConstraints`: one UNIQUE constraint per listed column, appended in list order;
      nothing else about the table changes. */
  function WithUniques(t: Table, us: seq<string>): (r: Table)
    ensures r == t.(constraints := t.constraints + UniqueConstraints(t.name, us))
    decreases |us|
  {
    if |us| == 0 then
      assert t.constraints + [] == t.constraints;
      t
    else
      var c := AddConstraintColumn(NewConstraint("u_" + t.name + "_" + us[0], Unique), us[0]);
      var r := WithUniques(AddConstraint(t, c), us[1..]);
      assert c == UniqueConstraint(t.name, us[0]);
      AppendAssoc(t.constraints, [c], UniqueConstraints(t.name, us[1..]));
      r
  }

  /** `addForeignKeys`: the foreign keys appended in order. */
  function WithForeignKeys(t: Table, fks: seq<ForeignKey>): (r: Table)
    ensures r == t.(foreignKeys := t.foreignKeys + fks)
    decreases |fks|
  {
    if |fks| == 0 then
      assert t.foreignKeys + fks == t.foreignKeys;
      t
    else
      var r := WithForeignKeys(AddForeignKey(t, fks[0]), fks[1..]);
      AppendAssoc(t.foreignKeys, [fks[0]], fks[1..]);
      assert [fks[0]] + fks[1..] == fks;
      r
  }

  /** The maps the extractors fill, as the builder reads them. */
  datatype Filed = Filed(
    columns: map<string, seq<Column>>,
    primaryKeys: map<string, seq<string>>,
    uniques: map<string, seq<string>>,
    foreignKeys: map<string, seq<ForeignKey>>)

  /** One table completed from the maps: columns, then the primary key constraint, then the
      unique constraints, then the foreign keys, each list read under the table's key and
      missing lists read as empty. */
  function BuildTable(t: Table, filed: Filed, keep: bool): (r: Table)
    ensures var key := TableKey(t, keep);
      var pks := ListOf(filed.primaryKeys, key);
      r.name == t.name && r.schemaName == t.schemaName
      && r.columns == t.columns + MarkKeys(ListOf(filed.columns, key), pks)
      && r.constraints == t.constraints + (if pks == [] then [] else [PrimaryKeyConstraint(t.name, pks)])
                          + UniqueConstraints(t.name, ListOf(filed.uniques, key))
      && r.foreignKeys == t.foreignKeys + ListOf(filed.foreignKeys, key)
  {
    var key := TableKey(t, keep);
    var pks := ListOf(filed.primaryKeys, key);
    WithForeignKeys(WithUniques(WithPrimaryKey(WithColumns(t, ListOf(filed.columns, key), pks), pks),
                                ListOf(filed.uniques, key)),
                    ListOf(filed.foreignKeys, key))
  }

  /** `buildTablesAndAddToSchema`: every table completed and added, in order; the dependencies,
      relationships and name of the schema are untouched. */
  function BuildTables(s: DatabaseSchema, tables: seq<Table>, filed: Filed, keep: bool): (r: DatabaseSchema)
    ensures r.schemaName == s.schemaName && r.dependencies == s.dependencies && r.relationships == s.relationships
    ensures |r.tables| == |s.tables| + |tables| && r.tables[..|s.tables|] == s.tables
    ensures forall k :: 0 <= k < |tables| ==> r.tables[|s.tables| + k] == BuildTable(tables[k], filed, keep)
    decreases |tables|
  {
    if |tables| == 0 then
      assert s.tables[..|s.tables|] == s.tables;
      s
    else
      var s' := AddTable(s, BuildTable(tables[0], filed, keep));
      var r := BuildTables(s', tables[1..], filed, keep);
      BuildTablesStep(s, s', r, tables, filed, keep);
      r
  }

  lemma BuildTablesStep(s: DatabaseSchema, s': DatabaseSchema, r: DatabaseSchema, tables: seq<Table>, filed: Filed, keep: bool)
    requires |tables| > 0
    requires s'.tables == s.tables + [BuildTable(tables[0], filed, keep)]
    requires |r.tables| == |s'.tables| + |tables| - 1 && r.tables[..|s'.tables|] == s'.tables
    requires forall k :: 0 <= k < |tables| - 1 ==> r.tables[|s'.tables| + k] == BuildTable(tables[1..][k], filed, keep)
    ensures |r.tables| == |s.tables| + |tables| && r.tables[..|s.tables|] == s.tables
    ensures forall k :: 0 <= k < |tables| ==> r.tables[|s.tables| + k] == BuildTable(tables[k], filed, keep)
  {
    var n := |s.tables|;
    assert r.tables[..n] == r.tables[..|s'.tables|][..n];
    forall k | 0 <= k < |tables|
      ensures r.tables[n + k] == BuildTable(tables[k], filed, keep)
    {
      if k == 0 {
        assert r.tables[n] == r.tables[..|s'.tables|][n];
      } else {
        assert r.tables[n + k] == r.tables[|s'.tables| + (k - 1)];
        assert tables[1..][k - 1] == tables[k];
      }
    }
  }

  // ---------------------------------------------------------------------------
  // What the analyzer reads from a built table
  // ---------------------------------------------------------------------------

  /** Columns the extractor parsed are never flagged, so after building a column is a primary
      key exactly when the table's key list names it. */
  lemma KeyColumnsAreNamed(t: Table, filed: Filed, keep: bool)
    requires t.columns == []
    requires forall c :: c in ListOf(filed.columns, TableKey(t, keep)) ==> !c.isPrimaryKey
    ensures var r := BuildTable(t, filed, keep);
      forall c :: c in PrimaryKeyColumns(r) <==>
        c in r.columns && c.name in ListOf(filed.primaryKeys, TableKey(t, keep))
  {
    var r := BuildTable(t, filed, keep);
    var key := TableKey(t, keep);
    var cols := ListOf(filed.columns, key);
    assert r.columns == MarkKeys(cols, ListOf(filed.primaryKeys, key));
    forall c | c in r.columns
      ensures c.isPrimaryKey <==> c.name in ListOf(filed.primaryKeys, key)
    {
      var k :| 0 <= k < |r.columns| && r.columns[k] == c;
      assert cols[k] in cols;
    }
  }

  /** The constraints a built table starts without, split by kind. */
  lemma BuiltConstraints(t: Table, filed: Filed, keep: bool, c: Constraint)
    requires t.constraints == []
    ensures var r := BuildTable(t, filed, keep);
      var key := TableKey(t, keep);
      var pks := ListOf(filed.primaryKeys, key);
      c in r.constraints <==>
        (pks != [] && c == PrimaryKeyConstraint(t.name, pks))
        || (exists u :: u in ListOf(filed.uniques, key) && c == UniqueConstraint(t.name, u))
  {
    var r := BuildTable(t, filed, keep);
    var key := TableKey(t, keep);
    var pks := ListOf(filed.primaryKeys, key);
    var us := ListOf(filed.uniques, key);
    var uc := UniqueConstraints(t.name, us);
    var head: seq<Constraint> := if pks == [] then [] else [PrimaryKeyConstraint(t.name, pks)];
    assert r.constraints == head + uc;
    InUniqueConstraints(t.name, us, c);
  }

  lemma InUniqueConstraints(tableName: string, us: seq<string>, c: Constraint)
    ensures c in UniqueConstraints(tableName, us) <==> exists u :: u in us && c == UniqueConstraint(tableName, u)
  {
    var uc := UniqueConstraints(tableName, us);
    if c in uc {
      var k :| 0 <= k < |uc| && uc[k] == c;
      assert us[k] in us;
    }
    if exists u :: u in us && c == UniqueConstraint(tableName, u) {
      var u :| u in us && c == UniqueConstraint(tableName, u);
      var k :| 0 <= k < |us| && us[k] == u;
      assert uc[k] == c;
    }
  }

  /** The one PRIMARY KEY constraint of a built table, present when the key list is not empty. */
  lemma BuiltPrimaryKey(t: Table, filed: Filed, keep: bool, c: Constraint)
    requires t.constraints == []
    ensures var pks := ListOf(filed.primaryKeys, TableKey(t, keep));
      c in BuildTable(t, filed, keep).constraints && c.kind == PrimaryKey <==>
        pks != [] && c == PrimaryKeyConstraint(t.name, pks)
  {
    BuiltConstraints(t, filed, keep, c);
  }

  /** The UNIQUE constraints of a built table, one per listed unique column. */
  lemma BuiltUnique(t: Table, filed: Filed, keep: bool, c: Constraint)
    requires t.constraints == []
    ensures c in BuildTable(t, filed, keep).constraints && c.kind == Unique <==>
      exists u :: u in ListOf(filed.uniques, TableKey(t, keep)) && c == UniqueConstraint(t.name, u)
  {
    BuiltConstraints(t, filed, keep, c);
  }

  /** A built table is a junction table (composite primary key) exactly when its key list has
      more than one column: the unique constraints each span one column. */
  lemma CompositeIffManyKeys(t: Table, filed: Filed, keep: bool)
    requires t.constraints == []
    ensures Analyzer.IsCompositePrimaryKeyTable(BuildTable(t, filed, keep)) <==>
      |ListOf(filed.primaryKeys, TableKey(t, keep))| > 1
  {
    var r := BuildTable(t, filed, keep);
    var pks := ListOf(filed.primaryKeys, TableKey(t, keep));
    if Analyzer.IsCompositePrimaryKeyTable(r) {
      var c :| c in r.constraints && c.kind == PrimaryKey && |c.columns| > 1;
      BuiltPrimaryKey(t, filed, keep, c);
    }
    if |pks| > 1 {
      BuiltPrimaryKey(t, filed, keep, PrimaryKeyConstraint(t.name, pks));
    }
  }

  /** A column of a built table is under a UNIQUE constraint exactly when the unique list of its
      table names it. */
  lemma UniqueIffListed(t: Table, filed: Filed, keep: bool, column: string)
    requires t.constraints == []
    ensures Analyzer.HasUniqueConstraint(BuildTable(t, filed, keep), column) <==>
      column in ListOf(filed.uniques, TableKey(t, keep))
  {
    var r := BuildTable(t, filed, keep);
    var us := ListOf(filed.uniques, TableKey(t, keep));
    if Analyzer.HasUniqueConstraint(r, column) {
      var c :| c in r.constraints && c.kind == Unique && column in c.columns;
      BuiltUnique(t, filed, keep, c);
    }
    if column in us {
      BuiltUnique(t, filed, keep, UniqueConstraint(t.name, column));
    }
  }

  /** How the analyzer classifies a foreign key of a built table, read straight off the maps:
      one-to-one when the column is listed unique, many-to-many when the key list has several
      columns, many-to-one otherwise. */
  lemma ClassifyBuilt(t: Table, filed: Filed, keep: bool, fk: ForeignKey)
    requires t.constraints == []
    ensures var key := TableKey(t, keep);
      Analyzer.Classify(BuildTable(t, filed, keep), fk) ==
        if fk.columnName in ListOf(filed.uniques, key) then OneToOne
        else if |ListOf(filed.primaryKeys, key)| > 1 then ManyToMany
        else ManyToOne
  {
    UniqueIffListed(t, filed, keep, fk.columnName);
    CompositeIffManyKeys(t, filed, keep);
  }

  /** What the analyzer reads from one built table whose columns the extractor parsed: the key
      columns are those the key list names, and the classification of its foreign keys. */
  lemma BuiltTableFacts(t: Table, filed: Filed, keep: bool, fk: ForeignKey, r: Table)
    requires t.columns == [] && t.constraints == []
    requires forall c :: c in ListOf(filed.columns, TableKey(t, keep)) ==> !c.isPrimaryKey
    requires r == BuildTable(t, filed, keep)
    ensures var key := TableKey(t, keep);
      (forall c :: c in PrimaryKeyColumns(r) <==> c in r.columns && c.name in ListOf(filed.primaryKeys, key))
      && Analyzer.Classify(r, fk) ==
           (if fk.columnName in ListOf(filed.uniques, key) then OneToOne
            else if |ListOf(filed.primaryKeys, key)| > 1 then ManyToMany
            else ManyToOne)
  {
    KeyColumnsAreNamed(t, filed, keep);
    ClassifyBuilt(t, filed, keep, fk);
  }

  /** Built into an empty schema, every table has the name of one of the given tables. */
  lemma BuiltNames(s: DatabaseSchema, tables: seq<Table>, filed: Filed, keep: bool, t: Table)
    requires s.tables == [] && t in BuildTables(s, tables, filed, keep).tables
    ensures exists k :: 0 <= k < |tables| && t.name == tables[k].name
  {
    var r := BuildTables(s, tables, filed, keep);
    var i :| 0 <= i < |r.tables| && r.tables[i] == t;
    assert r.tables[0 + i] == BuildTable(tables[i], filed, keep);
  }

  /** Every foreign key of a table built into an empty schema, from tables without foreign
      keys, was filed under some key. */
  lemma BuiltForeignKeysFiled(s: DatabaseSchema, tables: seq<Table>, filed: Filed, keep: bool, t: Table, fk: ForeignKey)
    requires s.tables == [] && forall k :: 0 <= k < |tables| ==> tables[k].foreignKeys == []
    requires t in BuildTables(s, tables, filed, keep).tables && fk in t.foreignKeys
    ensures exists key :: key in filed.foreignKeys && fk in filed.foreignKeys[key]
  {
    var r := BuildTables(s, tables, filed, keep);
    var i :| 0 <= i < |r.tables| && r.tables[i] == t;
    assert r.tables[0 + i] == BuildTable(tables[i], filed, keep);
    var key := TableKey(tables[i], keep);
    assert t.foreignKeys == [] + ListOf(filed.foreignKeys, key);
  }

  /** The builder looks a table up under the key its extractors filed it under, whenever schema
      names are dropped or the table's schema name is not empty. */
  lemma TableKeyMatchesFiling(ms: seq<TableMatch>, keep: bool, k: nat)
    requires k < |ms|
    requires keep ==> Lower(ms[k].schemaName) != ""
    ensures TableKey(ExtractTables(ms, keep)[k], keep) == MatchKey(ms[k].schemaName, ms[k].tableName, keep)
  {
  }
}
