/** The schema parser: rejects blank text, runs the five extractors over what the patterns
    captured, builds the tables and analyzes their relationships. */
module Parser {
  import opened Wrappers
  import opened Strings
  import opened Schema
  import opened Extractors
  import opened Builder
  import Analyzer

  /** What the patterns capture from one schema text, each list in match order: the
      `CREATE CLASS` lines, the attribute blocks, the primary keys, the foreign keys, and the
      unique constraints of the one-line and of the multi-line form. */
  datatype Captures = Captures(
    tables: seq<TableMatch>,
    attributes: seq<AttributeMatch>,
    keys: seq<KeyMatch>,
    foreignKeys: seq<ForeignKeyMatch>,
    attributeUniques: seq<UniqueMatch>,
    constraintUniques: seq<UniqueMatch>)

  /** Why parsing fails: the text is missing or blank, or it declares no table. */
  datatype ParseError = BlankText | NoTables

  /** `schemaText == null || schemaText.trim().isEmpty()`. */
  predicate Blank(text: Option<string>) {
    text.None? || Trim(text.value) == []
  }

  /** The maps the extractors fill. The primary keys are extracted first: the foreign-key
      extractor reads them to choose referenced columns. */
  function FiledFrom(m: Captures, keep: bool): Filed {
    var pkMap := ExtractPrimaryKeys(m.keys, keep);
    Filed(ExtractColumns(m.attributes, keep), pkMap,
          ExtractUniques(m.attributeUniques, m.constraintUniques, keep),
          ExtractForeignKeys(m.foreignKeys, keep, pkMap))
  }

  /** The schema the builder produces before the analysis. */
  function Built(m: Captures, keep: bool): DatabaseSchema {
    BuildTables(NewSchema("unknown"), ExtractTables(m.tables, keep), FiledFrom(m, keep), keep)
  }

  /** `parseSchema`: blank text and text without tables are rejected, in that order. Otherwise
      the schema is named `unknown`, holds one built table per `CREATE CLASS` in order, and its
      relationships are the links of all foreign keys whose table exists, with the dependency
      lists recording exactly their targets. */
  function ParseSchema(text: Option<string>, m: Captures, keep: bool): (r: Result<DatabaseSchema, ParseError>)
    ensures r == Err(BlankText) <==> Blank(text)
    ensures r == Err(NoTables) <==> !Blank(text) && m.tables == []
    ensures r.Ok? ==>
      r.value.schemaName == "unknown" && |r.value.tables| == |m.tables|
      && (forall k :: 0 <= k < |m.tables| ==>
            r.value.tables[k] == BuildTable(ExtractTables(m.tables, keep)[k], FiledFrom(m, keep), keep))
      && r.value.relationships == Analyzer.TablesLinks(r.value.tables, r.value.tables)
      && (forall a :: DependenciesOf(r.value, a) == Analyzer.TargetNames(r.value.relationships, a))
  {
    if Blank(text) then Err(BlankText)
    else if m.tables == [] then Err(NoTables)
    else
      var s := Built(m, keep);
      var r := Analyzer.Analyze(s);
      Analyzed(s, r);
      Ok(r)
  }

  /** The analysis of a freshly built schema: same tables, the links as relationships, and the
      dependency lists mirroring them. */
  lemma Analyzed(s: DatabaseSchema, r: DatabaseSchema)
    requires s.relationships == [] && s.dependencies == map[]
    requires r == Analyzer.Analyze(s)
    ensures r.tables == s.tables && r.schemaName == s.schemaName
    ensures r.relationships == Analyzer.TablesLinks(s.tables, s.tables)
    ensures forall a :: DependenciesOf(r, a) == Analyzer.TargetNames(r.relationships, a)
  {
    Analyzer.AnalyzeLinks(s);
    assert r.relationships == [] + Analyzer.TablesLinks(s.tables, s.tables);
    assert Analyzer.Added(s, r) == r.relationships;
    forall a
      ensures DependenciesOf(r, a) == Analyzer.TargetNames(r.relationships, a)
    {
      assert DependenciesOf(s, a) == [];
      assert DependenciesOf(r, a) == [] + Analyzer.TargetNames(Analyzer.Added(s, r), a);
    }
  }

  /** Every table of a parsed schema is completed from the maps under its own key: a column is
      a primary key exactly when the key list names it, and the analyzer classifies its foreign
      keys from the unique and key lists alone. */
  lemma ParsedTable(text: Option<string>, m: Captures, keep: bool, k: nat, fk: ForeignKey)
    requires !Blank(text) && k < |m.tables|
    ensures var t := ExtractTables(m.tables, keep)[k];
      var f := FiledFrom(m, keep);
      var key := TableKey(t, keep);
      var r := ParseSchema(text, m, keep).value.tables[k];
      (forall c :: c in PrimaryKeyColumns(r) <==> c in r.columns && c.name in ListOf(f.primaryKeys, key))
      && Analyzer.Classify(r, fk) ==
           (if fk.columnName in ListOf(f.uniques, key) then OneToOne
            else if |ListOf(f.primaryKeys, key)| > 1 then ManyToMany
            else ManyToOne)
  {
    var t := ExtractTables(m.tables, keep)[k];
    var f := FiledFrom(m, keep);
    ParsedIsBuilt(text, m, keep, k);
    ParsedColumnsUnflagged(m, keep, TableKey(t, keep));
    BuiltTableFacts(t, f, keep, fk, ParseSchema(text, m, keep).value.tables[k]);
  }

  lemma ParsedIsBuilt(text: Option<string>, m: Captures, keep: bool, k: nat)
    requires !Blank(text) && k < |m.tables|
    ensures ParseSchema(text, m, keep).Ok? && k < |ParseSchema(text, m, keep).value.tables|
    ensures ParseSchema(text, m, keep).value.tables[k] == BuildTable(ExtractTables(m.tables, keep)[k], FiledFrom(m, keep), keep)
  {
  }

  lemma ParsedColumnsUnflagged(m: Captures, keep: bool, key: string)
    ensures forall c :: c in ListOf(FiledFrom(m, keep).columns, key) ==> !c.isPrimaryKey
  {
    var cols := ExtractColumns(m.attributes, keep);
    assert FiledFrom(m, keep).columns == cols;
  }

  // ---------------------------------------------------------------------------
  // Keeping schema names
  // ---------------------------------------------------------------------------

  /** When schema names are kept, the foreign-key extractor writes every referenced table as
      `schema.table`, while the tables keep their bare names; the analyzer compares the two
      as they are, so, as long as no table name has a dot, no relationship and no dependency is
      ever found. */
  lemma KeepingSchemaNamesLinksNothing(text: Option<string>, m: Captures)
    requires !Blank(text) && m.tables != []
    requires forall k :: 0 <= k < |m.tables| ==> '.' !in m.tables[k].tableName
    ensures ParseSchema(text, m, true).Ok?
    ensures ParseSchema(text, m, true).value.relationships == []
    ensures ParseSchema(text, m, true).value.dependencies == map[]
  {
    var s := Built(m, true);
    BuiltNamesPlain(m);
    BuiltReferencesQualified(m);
    NoMatches(s.tables, s.tables);
    Analyzer.AnalyzeNoMatches(s);
  }

  lemma BuiltNamesPlain(m: Captures)
    requires forall k :: 0 <= k < |m.tables| ==> '.' !in m.tables[k].tableName
    ensures forall t :: t in Built(m, true).tables ==> '.' !in t.name
  {
    var ts := ExtractTables(m.tables, true);
    ExtractedNamesPlain(m.tables, ts);
    PlainNamesStayPlain(ts, FiledFrom(m, true));
  }

  lemma ExtractedNamesPlain(ms: seq<TableMatch>, ts: seq<Table>)
    requires forall k :: 0 <= k < |ms| ==> '.' !in ms[k].tableName
    requires ts == ExtractTables(ms, true)
    ensures forall t :: t in ts ==> '.' !in t.name
  {
    forall k | 0 <= k < |ts|
      ensures '.' !in ts[k].name
    {
      LowerKeepsDots(ms[k].tableName);
    }
  }

  lemma PlainNamesStayPlain(ts: seq<Table>, f: Filed)
    requires forall t :: t in ts ==> '.' !in t.name
    ensures forall t :: t in BuildTables(NewSchema("unknown"), ts, f, true).tables ==> '.' !in t.name
  {
    forall t | t in BuildTables(NewSchema("unknown"), ts, f, true).tables
      ensures '.' !in t.name
    {
      BuiltNames(NewSchema("unknown"), ts, f, true, t);
    }
  }

  lemma BuiltReferencesQualified(m: Captures)
    ensures forall t, fk :: t in Built(m, true).tables && fk in t.foreignKeys ==> '.' in fk.referencedTableName
  {
    var ts := ExtractTables(m.tables, true);
    var f := FiledFrom(m, true);
    FiledReferencesQualified(m);
    forall t: Table, fk: ForeignKey | t in Built(m, true).tables && fk in t.foreignKeys
      ensures '.' in fk.referencedTableName
    {
      BuiltForeignKeysFiled(NewSchema("unknown"), ts, f, true, t, fk);
    }
  }

  lemma FiledReferencesQualified(m: Captures)
    ensures var f := FiledFrom(m, true);
      forall key, fk :: key in f.foreignKeys && fk in f.foreignKeys[key] ==> '.' in fk.referencedTableName
  {
    var pkMap := ExtractPrimaryKeys(m.keys, true);
    Extractors.KeptReferencesQualified(m.foreignKeys, pkMap);
  }

  /** No foreign key of the listed tables references an existing table. */
  lemma {:induction false} NoMatches(tables: seq<Table>, ts: seq<Table>)
    requires forall t :: t in tables ==> '.' !in t.name
    requires forall t, fk :: t in ts && fk in t.foreignKeys ==> '.' in fk.referencedTableName
    ensures Analyzer.TablesMatchCount(tables, ts) == 0
    decreases |ts|
  {
    if |ts| > 0 {
      NoKeyMatches(tables, ts[0], ts[0].foreignKeys);
      NoMatches(tables, ts[1..]);
    }
  }

  lemma {:induction false} NoKeyMatches(tables: seq<Table>, source: Table, fks: seq<ForeignKey>)
    requires forall t :: t in tables ==> '.' !in t.name
    requires forall fk :: fk in fks ==> '.' in fk.referencedTableName
    ensures Analyzer.MatchCount(tables, fks) == 0
    decreases |fks|
  {
    if |fks| > 0 {
      Analyzer.QualifiedReferenceNeverLinks(tables, source, fks[0]);
      NoKeyMatches(tables, source, fks[1..]);
    }
  }
}
