/** The relationship analyzer: for every foreign key of every table whose referenced table exists
    (compared without regard to case), records a dependency of the table on the referenced table
    and a relationship between them, classified from the source table's constraints. */
module Analyzer {
  import opened Wrappers
  import opened Strings
  import opened Seqs
  import opened Schema

  /** Some UNIQUE constraint of `t` lists `column` (exact comparison). */
  function HasUniqueConstraint(t: Table, column: string): (r: bool)
    ensures r <==> exists c :: c in t.constraints && c.kind == Unique && column in c.columns
  {
    var p := (c: Constraint) => c.kind == Unique && column in c.columns;
    AnyIff(t.constraints, p);
    Any(t.constraints, p)
  }

  /** Some PRIMARY KEY constraint of `t` spans more than one column. */
  function IsCompositePrimaryKeyTable(t: Table): (r: bool)
    ensures r <==> exists c :: c in t.constraints && c.kind == PrimaryKey && |c.columns| > 1
  {
    var p := (c: Constraint) => c.kind == PrimaryKey && |c.columns| > 1;
    AnyIff(t.constraints, p);
    Any(t.constraints, p)
  }

  /** `determineRelationshipType`: a foreign-key column under a UNIQUE constraint makes the link
      one-to-one; otherwise a table with a composite primary key is a junction table and the link
      is many-to-many; otherwise it is many-to-one. One-to-many is never produced. */
  function Classify(source: Table, fk: ForeignKey): (r: RelationshipType)
    ensures r != OneToMany
    ensures r == OneToOne <==>
      exists c :: c in source.constraints && c.kind == Unique && fk.columnName in c.columns
    ensures r == ManyToMany <==>
      !HasUniqueConstraint(source, fk.columnName) &&
      exists c :: c in source.constraints && c.kind == PrimaryKey && |c.columns| > 1
    ensures r == ManyToOne <==>
      !HasUniqueConstraint(source, fk.columnName) && !IsCompositePrimaryKeyTable(source)
  {
    if HasUniqueConstraint(source, fk.columnName) then OneToOne
    else if IsCompositePrimaryKeyTable(source) then ManyToMany
    else ManyToOne
  }

  /** The first table whose name equals `name` without regard to case. */
  function FindReferenced(tables: seq<Table>, name: string): (r: Option<Table>)
    ensures r.Some? ==> r.value in tables && EqualsIgnoreCase(r.value.name, name)
    ensures r.None? <==> forall t :: t in tables ==> !EqualsIgnoreCase(t.name, name)
  {
    FindFirst(tables, (t: Table) => EqualsIgnoreCase(t.name, name))
  }

  /** The relationship one foreign key of `source` gives rise to, if its table exists: from
      `source` to the referenced table, over the foreign-key column and the referenced column. */
  function Link(tables: seq<Table>, source: Table, fk: ForeignKey): (r: Option<Relationship>)
    ensures r.None? <==> forall t :: t in tables ==> !EqualsIgnoreCase(t.name, fk.referencedTableName)
    ensures r.Some? ==>
      r.value.source == source && r.value.target in tables &&
      EqualsIgnoreCase(r.value.target.name, fk.referencedTableName) &&
      r.value.sourceColumns == [fk.columnName] && r.value.targetColumns == [fk.referencedColumnName] &&
      r.value.kind == Classify(source, fk) && r.value.isNullable
  {
    match FindReferenced(tables, fk.referencedTableName)
    case None => None
    case Some(target) =>
      var rel := NewRelationship(source, target, Classify(source, fk));
      Some(AddTargetColumn(AddSourceColumn(rel, fk.columnName), fk.referencedColumnName))
  }

  /** The target names of the relationships whose source is named `a`, in order. */
  function TargetNames(rels: seq<Relationship>, a: string): seq<string> {
    if |rels| == 0 then []
    else (if rels[0].source.name == a then [rels[0].target.name] else []) + TargetNames(rels[1..], a)
  }

  lemma {:induction false} TargetNamesAppend(x: seq<Relationship>, y: seq<Relationship>, a: string)
    ensures TargetNames(x + y, a) == TargetNames(x, a) + TargetNames(y, a)
    decreases |x|
  {
    if |x| == 0 {
      assert x + y == y;
    } else {
      var head := if x[0].source.name == a then [x[0].target.name] else [];
      TargetNamesCons(x, y, a);
      TargetNamesAppend(x[1..], y, a);
      AppendAssociates(head, TargetNames(x[1..], a), TargetNames(y, a));
    }
  }

  lemma TargetNamesCons(x: seq<Relationship>, y: seq<Relationship>, a: string)
    requires |x| > 0
    ensures TargetNames(x + y, a) ==
      (if x[0].source.name == a then [x[0].target.name] else []) + TargetNames(x[1..] + y, a)
  {
    assert (x + y)[0] == x[0];
    assert (x + y)[1..] == x[1..] + y;
  }

  lemma AppendAssociates(p: seq<string>, q: seq<string>, r: seq<string>)
    ensures p + (q + r) == (p + q) + r
  {
  }

  /** How many foreign keys in the list reference an existing table. */
  function MatchCount(tables: seq<Table>, fks: seq<ForeignKey>): nat {
    if |fks| == 0 then 0
    else (if FindReferenced(tables, fks[0].referencedTableName).Some? then 1 else 0) + MatchCount(tables, fks[1..])
  }

  /** How many foreign keys of the listed tables reference an existing table. */
  function TablesMatchCount(tables: seq<Table>, ts: seq<Table>): nat {
    if |ts| == 0 then 0 else MatchCount(tables, ts[0].foreignKeys) + TablesMatchCount(tables, ts[1..])
  }

  /** `rel` is the relationship some foreign key of a listed table gives rise to. */
  ghost predicate Derived(tables: seq<Table>, ts: seq<Table>, rel: Relationship) {
    exists t, fk :: t in ts && fk in t.foreignKeys && Link(tables, t, fk) == Some(rel)
  }

  /** The relationships `r` holds beyond those of `acc`. */
  function Added(acc: DatabaseSchema, r: DatabaseSchema): seq<Relationship>
    requires |acc.relationships| <= |r.relationships|
  {
    r.relationships[|acc.relationships|..]
  }

  /** `r` extends `acc`: same tables, the old relationships kept in front. */
  predicate Kept(acc: DatabaseSchema, r: DatabaseSchema) {
    r.tables == acc.tables && r.schemaName == acc.schemaName
    && |acc.relationships| <= |r.relationships|
    && r.relationships[..|acc.relationships|] == acc.relationships
  }

  /** The dependency lists of `r` are those of `acc` grown by exactly the target names of the
      added relationships, source by source. */
  ghost predicate DepsMirror(acc: DatabaseSchema, r: DatabaseSchema)
    requires Kept(acc, r)
  {
    (forall a :: DependenciesOf(r, a) == DependenciesOf(acc, a) + TargetNames(Added(acc, r), a))
    && (forall a :: a in r.dependencies <==> a in acc.dependencies || TargetNames(Added(acc, r), a) != [])
  }

  /** `r` grows `acc` by relationships derived from foreign keys of the listed tables, and the
      dependency lists mirror them. */
  ghost predicate Grown(tables: seq<Table>, ts: seq<Table>, acc: DatabaseSchema, r: DatabaseSchema) {
    Kept(acc, r)
    && (forall rel :: rel in Added(acc, r) ==> Derived(tables, ts, rel))
    && DepsMirror(acc, r)
  }

  /** The inner loop of `analyze`: each foreign key of `source` whose table exists adds a
      dependency and a relationship. */
  function AnalyzeForeignKeys(tables: seq<Table>, source: Table, fks: seq<ForeignKey>, acc: DatabaseSchema): (r: DatabaseSchema)
    requires forall fk :: fk in fks ==> fk in source.foreignKeys
    ensures Grown(tables, [source], acc, r)
    ensures |r.relationships| == |acc.relationships| + MatchCount(tables, fks)
    decreases |fks|
  {
    if |fks| == 0 then
      assert acc.relationships[|acc.relationships|..] == [];
      acc
    else
      var fk := fks[0];
      var acc' := match Link(tables, source, fk)
        case None => acc
        case Some(rel) => AddRelationship(AddDependency(acc, source.name, rel.target.name), rel);
      LinkGrows(tables, source, fk, acc);
      var r := AnalyzeForeignKeys(tables, source, fks[1..], acc');
      GrowStep(tables, [source], acc, acc', r);
      r
  }

  /** One foreign key of `source` grows the schema by its relationship, if it has one. */
  lemma LinkGrows(tables: seq<Table>, source: Table, fk: ForeignKey, acc: DatabaseSchema)
    requires fk in source.foreignKeys
    ensures var acc' := match Link(tables, source, fk)
        case None => acc
        case Some(rel) => AddRelationship(AddDependency(acc, source.name, rel.target.name), rel);
      Grown(tables, [source], acc, acc') &&
      |acc'.relationships| == |acc.relationships| + MatchCount(tables, [fk])
  {
    assert acc.relationships[|acc.relationships|..] == [];
    match Link(tables, source, fk) {
      case None =>
      case Some(rel) =>
        LinkGrowsBy(tables, source, fk, rel, acc);
    }
  }

  lemma LinkGrowsBy(tables: seq<Table>, source: Table, fk: ForeignKey, rel: Relationship, acc: DatabaseSchema)
    requires fk in source.foreignKeys && Link(tables, source, fk) == Some(rel)
    ensures Grown(tables, [source], acc, AddRelationship(AddDependency(acc, source.name, rel.target.name), rel))
  {
    var r := AddRelationship(AddDependency(acc, source.name, rel.target.name), rel);
    OneAdded(acc, r, rel);
    assert Derived(tables, [source], rel);
    OneDependency(acc, r, rel);
  }

  /** Appending one relationship keeps the schema and adds just that relationship. */
  lemma OneAdded(acc: DatabaseSchema, r: DatabaseSchema, rel: Relationship)
    requires r.tables == acc.tables && r.schemaName == acc.schemaName
    requires r.relationships == acc.relationships + [rel]
    ensures Kept(acc, r) && Added(acc, r) == [rel]
  {
    assert r.relationships[..|acc.relationships|] == acc.relationships;
  }

  /** Recording `rel`'s target under its source mirrors the one added relationship. */
  lemma OneDependency(acc: DatabaseSchema, r: DatabaseSchema, rel: Relationship)
    requires Kept(acc, r) && Added(acc, r) == [rel]
    requires r.dependencies.Keys == acc.dependencies.Keys + {rel.source.name}
    requires DependenciesOf(r, rel.source.name) == DependenciesOf(acc, rel.source.name) + [rel.target.name]
    requires forall k :: k != rel.source.name ==> DependenciesOf(r, k) == DependenciesOf(acc, k)
    ensures DepsMirror(acc, r)
  {
    forall a
      ensures DependenciesOf(r, a) == DependenciesOf(acc, a) + TargetNames(Added(acc, r), a)
      ensures a in r.dependencies <==> a in acc.dependencies || TargetNames(Added(acc, r), a) != []
    {
      assert TargetNames([rel], a) == (if rel.source.name == a then [rel.target.name] else []) + TargetNames([], a);
    }
  }

  /** Keeping composes, and what is added over two steps is what each step added, in order. */
  lemma KeptStep(acc: DatabaseSchema, mid: DatabaseSchema, r: DatabaseSchema)
    requires Kept(acc, mid) && Kept(mid, r)
    ensures Kept(acc, r) && Added(acc, r) == Added(acc, mid) + Added(mid, r)
  {
    var n0, n1 := |acc.relationships|, |mid.relationships|;
    assert r.relationships[..n0] == r.relationships[..n1][..n0];
  }

  lemma DerivedStep(tables: seq<Table>, ts: seq<Table>, acc: DatabaseSchema, mid: DatabaseSchema, r: DatabaseSchema)
    requires Kept(acc, mid) && Kept(mid, r) && Kept(acc, r)
    requires Added(acc, r) == Added(acc, mid) + Added(mid, r)
    requires forall rel :: rel in Added(acc, mid) ==> Derived(tables, ts, rel)
    requires forall rel :: rel in Added(mid, r) ==> Derived(tables, ts, rel)
    ensures forall rel :: rel in Added(acc, r) ==> Derived(tables, ts, rel)
  {
  }

  /** One dependency list across two steps. */
  lemma ListStep(d0: seq<string>, d1: seq<string>, d2: seq<string>, x: seq<Relationship>, y: seq<Relationship>, a: string)
    requires d1 == d0 + TargetNames(x, a) && d2 == d1 + TargetNames(y, a)
    ensures d2 == d0 + TargetNames(x + y, a)
  {
    TargetNamesAppend(x, y, a);
    assert d0 + TargetNames(x, a) + TargetNames(y, a) == d0 + (TargetNames(x, a) + TargetNames(y, a));
  }

  /** Whether a source has a dependency list, across two steps. */
  lemma MemberStep(m0: bool, m1: bool, m2: bool, x: seq<Relationship>, y: seq<Relationship>, a: string)
    requires m1 <==> m0 || TargetNames(x, a) != []
    requires m2 <==> m1 || TargetNames(y, a) != []
    ensures m2 <==> m0 || TargetNames(x + y, a) != []
  {
    TargetNamesAppend(x, y, a);
  }

  lemma DepsStep(acc: DatabaseSchema, mid: DatabaseSchema, r: DatabaseSchema)
    requires Kept(acc, mid) && Kept(mid, r) && Kept(acc, r)
    requires Added(acc, r) == Added(acc, mid) + Added(mid, r)
    requires DepsMirror(acc, mid) && DepsMirror(mid, r)
    ensures DepsMirror(acc, r)
  {
    forall a
      ensures DependenciesOf(r, a) == DependenciesOf(acc, a) + TargetNames(Added(acc, r), a)
      ensures a in r.dependencies <==> a in acc.dependencies || TargetNames(Added(acc, r), a) != []
    {
      ListStep(DependenciesOf(acc, a), DependenciesOf(mid, a), DependenciesOf(r, a), Added(acc, mid), Added(mid, r), a);
      MemberStep(a in acc.dependencies, a in mid.dependencies, a in r.dependencies, Added(acc, mid), Added(mid, r), a);
    }
  }

  /** Growth composes: growing `acc` into `mid`, then `mid` into `r`. */
  lemma GrowStep(tables: seq<Table>, ts: seq<Table>, acc: DatabaseSchema, mid: DatabaseSchema, r: DatabaseSchema)
    requires Grown(tables, ts, acc, mid) && Grown(tables, ts, mid, r)
    ensures Grown(tables, ts, acc, r)
  {
    KeptStep(acc, mid, r);
    DerivedStep(tables, ts, acc, mid, r);
    DepsStep(acc, mid, r);
  }

  lemma GrownWiden(tables: seq<Table>, ts: seq<Table>, ts': seq<Table>, acc: DatabaseSchema, r: DatabaseSchema)
    requires Grown(tables, ts, acc, r) && forall t :: t in ts ==> t in ts'
    ensures Grown(tables, ts', acc, r)
  {
    forall rel | rel in Added(acc, r)
      ensures Derived(tables, ts', rel)
    {
      var t, fk :| t in ts && fk in t.foreignKeys && Link(tables, t, fk) == Some(rel);
      assert t in ts';
    }
  }

  /** The outer loop of `analyze`, over the listed tables in order. */
  function AnalyzeTables(tables: seq<Table>, ts: seq<Table>, acc: DatabaseSchema): (r: DatabaseSchema)
    ensures Grown(tables, ts, acc, r)
    ensures |r.relationships| == |acc.relationships| + TablesMatchCount(tables, ts)
    decreases |ts|
  {
    if |ts| == 0 then
      assert acc.relationships[|acc.relationships|..] == [];
      acc
    else
      var mid := AnalyzeForeignKeys(tables, ts[0], ts[0].foreignKeys, acc);
      GrownWiden(tables, [ts[0]], ts, acc, mid);
      var r := AnalyzeTables(tables, ts[1..], mid);
      GrownWiden(tables, ts[1..], ts, mid, r);
      GrowStep(tables, ts, acc, mid, r);
      r
  }

  /** `analyze`: the schema with its dependencies and relationships extended. */
  function Analyze(s: DatabaseSchema): (r: DatabaseSchema)
    ensures Grown(s.tables, s.tables, s, r)
    ensures |r.relationships| == |s.relationships| + TablesMatchCount(s.tables, s.tables)
  {
    AnalyzeTables(s.tables, s.tables, s)
  }

  /** Every relationship the analyzer adds links a schema table to a schema table over one
      column pair, and the dependency lists record exactly those links. */
  lemma AnalyzeSound(s: DatabaseSchema)
    ensures forall k :: |s.relationships| <= k < |Analyze(s).relationships| ==>
      var rel := Analyze(s).relationships[k];
      rel.source in s.tables && rel.target in s.tables && rel.kind != OneToMany &&
      |rel.sourceColumns| == 1 && |rel.targetColumns| == 1 && rel.isNullable &&
      exists fk :: fk in rel.source.foreignKeys && rel.sourceColumns[0] == fk.columnName &&
        EqualsIgnoreCase(rel.target.name, fk.referencedTableName)
  {
    var r := Analyze(s);
    forall k | |s.relationships| <= k < |r.relationships|
      ensures r.relationships[k].source in s.tables && r.relationships[k].target in s.tables
      ensures r.relationships[k].kind != OneToMany && r.relationships[k].isNullable
      ensures |r.relationships[k].sourceColumns| == 1 && |r.relationships[k].targetColumns| == 1
      ensures exists fk :: (fk in r.relationships[k].source.foreignKeys &&
        r.relationships[k].sourceColumns[0] == fk.columnName &&
        EqualsIgnoreCase(r.relationships[k].target.name, fk.referencedTableName))
    {
      assert r.relationships[k] in Added(s, r);
      var t, fk :| t in s.tables && fk in t.foreignKeys && Link(s.tables, t, fk) == Some(r.relationships[k]);
    }
  }

  /** The relationships the listed foreign keys of `source` give rise to, in list order; a key
      whose table does not exist contributes nothing. */
  function Links(tables: seq<Table>, source: Table, fks: seq<ForeignKey>): seq<Relationship> {
    if |fks| == 0 then []
    else
      (match Link(tables, source, fks[0]) case None => [] case Some(rel) => [rel])
      + Links(tables, source, fks[1..])
  }

  /** The relationships the foreign keys of the listed tables give rise to: table by table, and
      within a table key by key. */
  function TablesLinks(tables: seq<Table>, ts: seq<Table>): seq<Relationship> {
    if |ts| == 0 then [] else Links(tables, ts[0], ts[0].foreignKeys) + TablesLinks(tables, ts[1..])
  }

  /** The inner loop appends exactly the links of the foreign keys it visits, in order. */
  lemma {:induction false} ForeignKeysAdd(tables: seq<Table>, source: Table, fks: seq<ForeignKey>, acc: DatabaseSchema)
    requires forall fk :: fk in fks ==> fk in source.foreignKeys
    ensures Added(acc, AnalyzeForeignKeys(tables, source, fks, acc)) == Links(tables, source, fks)
    decreases |fks|
  {
    var r := AnalyzeForeignKeys(tables, source, fks, acc);
    if |fks| == 0 {
      assert acc.relationships[|acc.relationships|..] == [];
    } else {
      var fk := fks[0];
      var acc' := match Link(tables, source, fk)
        case None => acc
        case Some(rel) => AddRelationship(AddDependency(acc, source.name, rel.target.name), rel);
      var step := match Link(tables, source, fk) case None => [] case Some(rel) => [rel];
      LinkGrows(tables, source, fk, acc);
      match Link(tables, source, fk) {
        case None =>
          assert acc.relationships[|acc.relationships|..] == [];
        case Some(rel) =>
          OneAdded(acc, acc', rel);
      }
      assert Added(acc, acc') == step;
      assert r == AnalyzeForeignKeys(tables, source, fks[1..], acc');
      ForeignKeysAdd(tables, source, fks[1..], acc');
      KeptStep(acc, acc', r);
    }
  }

  /** The outer loop appends the links of the listed tables, in order. */
  lemma {:induction false} TablesAdd(tables: seq<Table>, ts: seq<Table>, acc: DatabaseSchema)
    ensures Added(acc, AnalyzeTables(tables, ts, acc)) == TablesLinks(tables, ts)
    decreases |ts|
  {
    var r := AnalyzeTables(tables, ts, acc);
    if |ts| == 0 {
      assert acc.relationships[|acc.relationships|..] == [];
    } else {
      var mid := AnalyzeForeignKeys(tables, ts[0], ts[0].foreignKeys, acc);
      ForeignKeysAdd(tables, ts[0], ts[0].foreignKeys, acc);
      assert r == AnalyzeTables(tables, ts[1..], mid);
      TablesAdd(tables, ts[1..], mid);
      KeptStep(acc, mid, r);
    }
  }

  /** `analyze` keeps the schema's relationships and appends, in order, the relationship of every
      foreign key whose referenced table exists: table by table in schema order, and within a
      table in the order of its foreign keys. */
  lemma AnalyzeLinks(s: DatabaseSchema)
    ensures Analyze(s).relationships == s.relationships + TablesLinks(s.tables, s.tables)
  {
    TablesAdd(s.tables, s.tables, s);
    KeptSplits(s, Analyze(s));
  }

  /** A kept schema's relationships are the old ones followed by the added ones. */
  lemma KeptSplits(acc: DatabaseSchema, r: DatabaseSchema)
    requires Kept(acc, r)
    ensures r.relationships == acc.relationships + Added(acc, r)
  {
    var n := |acc.relationships|;
    assert r.relationships == r.relationships[..n] + r.relationships[n..];
  }

  /** A schema none of whose foreign keys names an existing table is left exactly as it was. */
  lemma AnalyzeNoMatches(s: DatabaseSchema)
    requires TablesMatchCount(s.tables, s.tables) == 0
    ensures Analyze(s) == s
  {
    var r := Analyze(s);
    assert r.relationships == s.relationships;
    assert r.relationships[|s.relationships|..] == [];
    assert r.dependencies.Keys == s.dependencies.Keys;
    forall a | a in s.dependencies
      ensures r.dependencies[a] == s.dependencies[a]
    {
      assert DependenciesOf(r, a) == DependenciesOf(s, a);
    }
  }

  /** A schema-qualified reference (the form the extractor writes when it keeps schema names)
      never matches a table whose name has no dot, so it yields no relationship. */
  lemma QualifiedReferenceNeverLinks(tables: seq<Table>, source: Table, fk: ForeignKey)
    requires '.' in fk.referencedTableName
    requires forall t :: t in tables ==> '.' !in t.name
    ensures Link(tables, source, fk) == None
  {
    forall t | t in tables
      ensures !EqualsIgnoreCase(t.name, fk.referencedTableName)
    {
      LowerKeepsDots(t.name);
      LowerKeepsDots(fk.referencedTableName);
    }
  }
}
