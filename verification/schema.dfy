/** The parsed schema: columns, constraints, foreign keys, relationships, tables and the schema
    that holds them, with the small operations the model classes offer. Java objects that the
    parser mutates while it builds them are immutable values here; each adder returns the
    updated value. */
module Schema {
  import opened Wrappers
  import opened Strings
  import opened Seqs

  // ---------------------------------------------------------------------------
  // Column
  // ---------------------------------------------------------------------------

  /** A column of a table. `defaultValue` is `None` where the Java field is `null`. */
  datatype Column = Column(
    name: string,
    dataType: string,
    isPrimaryKey: bool,
    isAutoIncrement: bool,
    isNullable: bool,
    defaultValue: Option<string>,
    maxLength: int)

  /** `new Column(name, dataType)`: not a key, not an identity, nullable, no default, no length. */
  function NewColumn(name: string, dataType: string): (c: Column)
    ensures c.name == name && c.dataType == dataType
    ensures !c.isPrimaryKey && !c.isAutoIncrement && c.isNullable
    ensures c.defaultValue == None && c.maxLength == -1
  {
    Column(name, dataType, false, false, true, None, -1)
  }

  /** The declared type with its length appended, for a `varchar` type with a positive length. */
  function FullDataType(c: Column): (r: string)
    ensures r == c.dataType || (c.maxLength > 0 && Contains(Lower(c.dataType), "varchar"))
    ensures c.maxLength > 0 && Contains(Lower(c.dataType), "varchar") ==>
      r == c.dataType + "(" + NatToString(c.maxLength) + ")"
  {
    if c.maxLength > 0 && Contains(Lower(c.dataType), "varchar") then
      c.dataType + "(" + NatToString(c.maxLength) + ")"
    else
      c.dataType
  }

  // ---------------------------------------------------------------------------
  // Constraint
  // ---------------------------------------------------------------------------

  datatype ConstraintType = PrimaryKey | ForeignKeyConstraint | Unique | Check | NotNull

  /** A named constraint over a list of columns. The check condition and referenced-table fields
      of the Java class are never read by the generator and are not modelled. */
  datatype Constraint = Constraint(name: string, kind: ConstraintType, columns: seq<string>)

  /** `new Constraint(name, type)`: no columns yet. */
  function NewConstraint(name: string, kind: ConstraintType): (c: Constraint)
    ensures c.name == name && c.kind == kind && c.columns == []
  {
    Constraint(name, kind, [])
  }

  /** `Constraint.addColumn`: appends, keeping earlier columns in order. */
  function AddConstraintColumn(c: Constraint, column: string): (r: Constraint)
    ensures r.name == c.name && r.kind == c.kind
    ensures |r.columns| == |c.columns| + 1 && r.columns[..|c.columns|] == c.columns
    ensures r.columns[|c.columns|] == column
  {
    c.(columns := c.columns + [column])
  }

  // ---------------------------------------------------------------------------
  // ForeignKey
  // ---------------------------------------------------------------------------

  datatype ForeignKey = ForeignKey(
    columnName: string,
    referencedTableName: string,
    referencedColumnName: string,
    constraintName: Option<string>,
    onDeleteAction: string,
    onUpdateAction: string)

  /** `new ForeignKey(column, table, column)`: unnamed, both actions `RESTRICT`. */
  function NewForeignKey(column: string, refTable: string, refColumn: string): (fk: ForeignKey)
    ensures fk.columnName == column && fk.referencedTableName == refTable
    ensures fk.referencedColumnName == refColumn && fk.constraintName == None
    ensures fk.onDeleteAction == "RESTRICT" && fk.onUpdateAction == "RESTRICT"
  {
    ForeignKey(column, refTable, refColumn, None, "RESTRICT", "RESTRICT")
  }

  /** The four-argument constructor: as `NewForeignKey`, with a constraint name. */
  function NewNamedForeignKey(name: string, column: string, refTable: string, refColumn: string): (fk: ForeignKey)
    ensures fk == NewForeignKey(column, refTable, refColumn).(constraintName := Some(name))
  {
    ForeignKey(column, refTable, refColumn, Some(name), "RESTRICT", "RESTRICT")
  }

  /** `referencedTable.referencedColumn`: the two names around one dot, so that, when the
      column name has no dot, the column is what follows the last dot and the table what comes
      before it. */
  function FullReference(fk: ForeignKey): (r: string)
    ensures |r| == |fk.referencedTableName| + 1 + |fk.referencedColumnName|
    ensures r[..|fk.referencedTableName|] == fk.referencedTableName
    ensures r[|fk.referencedTableName|] == '.'
    ensures r[|fk.referencedTableName| + 1..] == fk.referencedColumnName
    ensures '.' !in fk.referencedColumnName ==> Unqualified(r) == fk.referencedColumnName
  {
    var r := fk.referencedTableName + "." + fk.referencedColumnName;
    if '.' in fk.referencedColumnName then r
    else
      UnqualifiedOfQualified(fk.referencedTableName, fk.referencedColumnName);
      r
  }

  // ---------------------------------------------------------------------------
  // Table
  // ---------------------------------------------------------------------------

  /** A table. The Java field `schemaName` may be `null`; the model writes the empty string for
      it, which every null check of the generator treats the same way. */
  datatype Table = Table(
    name: string,
    schemaName: string,
    columns: seq<Column>,
    foreignKeys: seq<ForeignKey>,
    constraints: seq<Constraint>)

  /** `new Table(name)`. */
  function NewTable(name: string): (t: Table)
    ensures t.name == name && t.schemaName == ""
    ensures t.columns == [] && t.foreignKeys == [] && t.constraints == []
  {
    Table(name, "", [], [], [])
  }

  /** `new Table(schemaName, name)`. */
  function NewQualifiedTable(schemaName: string, name: string): (t: Table)
    ensures t.name == name && t.schemaName == schemaName
    ensures t.columns == [] && t.foreignKeys == [] && t.constraints == []
  {
    Table(name, schemaName, [], [], [])
  }

  /** `getFullName` gives the bare table name, without the schema. */
  function FullName(t: Table): (r: string)
    ensures r == t.name
  {
    t.name
  }

  function AddColumn(t: Table, c: Column): (r: Table)
    ensures r.columns == t.columns + [c]
    ensures r.name == t.name && r.schemaName == t.schemaName
    ensures r.foreignKeys == t.foreignKeys && r.constraints == t.constraints
  {
    t.(columns := t.columns + [c])
  }

  function AddForeignKey(t: Table, fk: ForeignKey): (r: Table)
    ensures r.foreignKeys == t.foreignKeys + [fk]
    ensures r.name == t.name && r.schemaName == t.schemaName
    ensures r.columns == t.columns && r.constraints == t.constraints
  {
    t.(foreignKeys := t.foreignKeys + [fk])
  }

  function AddConstraint(t: Table, c: Constraint): (r: Table)
    ensures r.constraints == t.constraints + [c]
    ensures r.name == t.name && r.schemaName == t.schemaName
    ensures r.columns == t.columns && r.foreignKeys == t.foreignKeys
  {
    t.(constraints := t.constraints + [c])
  }

  /** The first column with exactly this name. */
  function ColumnByName(t: Table, name: string): (r: Option<Column>)
    ensures r.Some? ==> r.value in t.columns && r.value.name == name
    ensures r.Some? ==>
      exists k :: 0 <= k < |t.columns| && t.columns[k] == r.value && forall j :: 0 <= j < k ==> t.columns[j].name != name
    ensures r.None? <==> forall c :: c in t.columns ==> c.name != name
  {
    FindFirst(t.columns, (c: Column) => c.name == name)
  }

  /** The columns flagged as primary key, in declaration order. */
  function PrimaryKeyColumns(t: Table): (r: seq<Column>)
    ensures forall c :: c in r <==> c in t.columns && c.isPrimaryKey
  {
    Filter(t.columns, (c: Column) => c.isPrimaryKey)
  }

  /** Declaration order: adding a column appends it to the key columns exactly when it is
      flagged, after the key columns declared before it. */
  lemma PrimaryKeyColumnsAppend(t: Table, c: Column)
    ensures PrimaryKeyColumns(AddColumn(t, c)) == PrimaryKeyColumns(t) + (if c.isPrimaryKey then [c] else [])
  {
    var p := (c: Column) => c.isPrimaryKey;
    FilterAppend(t.columns, [c], p);
    assert Filter([c], p) == (if p(c) then [c] else []) + Filter([c][1..], p);
  }

  /** Some foreign key names exactly this referenced table. */
  predicate HasForeignKeyTo(t: Table, tableName: string) {
    Any(t.foreignKeys, (fk: ForeignKey) => fk.referencedTableName == tableName)
  }

  lemma HasForeignKeyToIff(t: Table, tableName: string)
    ensures HasForeignKeyTo(t, tableName) <==>
      exists fk :: fk in t.foreignKeys && fk.referencedTableName == tableName
  {
    AnyIff(t.foreignKeys, (fk: ForeignKey) => fk.referencedTableName == tableName);
  }

  /** `isReferencedBy` is a stub: no table is ever reported as referenced. */
  predicate IsReferencedBy(t: Table, tableName: string) {
    false
  }

  // ---------------------------------------------------------------------------
  // Relationship
  // ---------------------------------------------------------------------------

  datatype RelationshipType = OneToOne | OneToMany | ManyToOne | ManyToMany

  /** A directed link from a source table (the one holding the reference) to a target table.
      The Java object holds references to the very table objects of the schema; here it holds
      their values. */
  datatype Relationship = Relationship(
    source: Table,
    target: Table,
    sourceColumns: seq<string>,
    targetColumns: seq<string>,
    kind: RelationshipType,
    isNullable: bool)

  /** `new Relationship(source, target, type)`: no columns, nullable. */
  function NewRelationship(source: Table, target: Table, kind: RelationshipType): (r: Relationship)
    ensures r.source == source && r.target == target && r.kind == kind
    ensures r.sourceColumns == [] && r.targetColumns == [] && r.isNullable
  {
    Relationship(source, target, [], [], kind, true)
  }

  function AddSourceColumn(r: Relationship, column: string): (r': Relationship)
    ensures r'.sourceColumns == r.sourceColumns + [column]
    ensures r' == r.(sourceColumns := r'.sourceColumns)
  {
    r.(sourceColumns := r.sourceColumns + [column])
  }

  function AddTargetColumn(r: Relationship, column: string): (r': Relationship)
    ensures r'.targetColumns == r.targetColumns + [column]
    ensures r' == r.(targetColumns := r'.targetColumns)
  {
    r.(targetColumns := r.targetColumns + [column])
  }

  // ---------------------------------------------------------------------------
  // DatabaseSchema
  // ---------------------------------------------------------------------------

  /** The whole schema: its tables in declaration order, the dependency lists keyed by table
      name, and the relationships found between tables. */
  datatype DatabaseSchema = DatabaseSchema(
    schemaName: string,
    tables: seq<Table>,
    dependencies: map<string, seq<string>>,
    relationships: seq<Relationship>)

  function NewSchema(schemaName: string): (s: DatabaseSchema)
    ensures s.schemaName == schemaName && s.tables == [] && s.dependencies == map[] && s.relationships == []
  {
    DatabaseSchema(schemaName, [], map[], [])
  }

  function AddTable(s: DatabaseSchema, t: Table): (r: DatabaseSchema)
    ensures r.tables == s.tables + [t]
    ensures r.dependencies == s.dependencies && r.relationships == s.relationships
    ensures r.schemaName == s.schemaName
  {
    s.(tables := s.tables + [t])
  }

  /** The dependency list of `table`, empty when it has none. */
  function DependenciesOf(s: DatabaseSchema, table: string): seq<string> {
    if table in s.dependencies then s.dependencies[table] else []
  }

  /** `addDependency`: appends `dependsOn` to the list of `table`, creating it when absent;
      every other list is unchanged. */
  function AddDependency(s: DatabaseSchema, table: string, dependsOn: string): (r: DatabaseSchema)
    ensures table in r.dependencies
    ensures DependenciesOf(r, table) == DependenciesOf(s, table) + [dependsOn]
    ensures r.dependencies.Keys == s.dependencies.Keys + {table}
    ensures forall k :: k != table ==> DependenciesOf(r, k) == DependenciesOf(s, k)
    ensures r.tables == s.tables && r.relationships == s.relationships && r.schemaName == s.schemaName
  {
    s.(dependencies := s.dependencies[table := DependenciesOf(s, table) + [dependsOn]])
  }

  function AddRelationship(s: DatabaseSchema, rel: Relationship): (r: DatabaseSchema)
    ensures r.relationships == s.relationships + [rel]
    ensures r.tables == s.tables && r.dependencies == s.dependencies && r.schemaName == s.schemaName
  {
    s.(relationships := s.relationships + [rel])
  }

  /** `getTableByName`: drops any schema prefix from `name`, then takes the first table whose
      name is exactly the rest. */
  function TableByName(s: DatabaseSchema, name: string): (r: Option<Table>)
    ensures r.Some? ==> r.value in s.tables && r.value.name == Unqualified(name)
    ensures r.Some? ==>
      exists k :: 0 <= k < |s.tables| && s.tables[k] == r.value && forall j :: 0 <= j < k ==> s.tables[j].name != Unqualified(name)
    ensures r.None? <==> forall t :: t in s.tables ==> t.name != Unqualified(name)
  {
    var bare := Unqualified(name);
    FindFirst(s.tables, (t: Table) => t.name == bare)
  }

  /** A schema prefix makes no difference to the lookup. */
  lemma TableByNameIgnoresQualifier(s: DatabaseSchema, q: string, name: string)
    requires '.' !in name
    ensures TableByName(s, q + "." + name) == TableByName(s, name)
  {
    UnqualifiedOfQualified(q, name);
  }

  /** A table of the schema whose name has no dot is found by its own name. */
  lemma TableByNameFindsMember(s: DatabaseSchema, t: Table)
    requires t in s.tables && '.' !in t.name
    ensures TableByName(s, t.name).Some?
    ensures TableByName(s, t.name).value.name == t.name
  {
  }

  /** `getRootTables`: the tables with no dependency list, in declaration order. */
  function RootTables(s: DatabaseSchema): (r: seq<Table>)
    ensures forall t :: t in r <==> t in s.tables && t.name !in s.dependencies
  {
    Filter(s.tables, (t: Table) => t.name !in s.dependencies)
  }

  /** Declaration order: adding a table appends it to the roots exactly when it has no
      dependency list, after the roots declared before it. */
  lemma RootTablesAppend(s: DatabaseSchema, t: Table)
    ensures RootTables(AddTable(s, t)) == RootTables(s) + (if t.name !in s.dependencies then [t] else [])
  {
    var p := (u: Table) => u.name !in s.dependencies;
    FilterAppend(s.tables, [t], p);
    assert Filter([t], p) == (if p(t) then [t] else []) + Filter([t][1..], p);
  }

  /** Recording a dependency of a table takes it out of the roots, and touches no other. */
  lemma AddDependencyRoots(s: DatabaseSchema, table: string, dependsOn: string)
    ensures forall t :: t in RootTables(AddDependency(s, table, dependsOn)) <==>
      t in RootTables(s) && t.name != table
  {
  }

  /** `getTableBySchemaAndName`: the first table with exactly this schema and this name. */
  function TableBySchemaAndName(s: DatabaseSchema, schemaName: string, name: string): (r: Option<Table>)
    ensures r.Some? ==> r.value in s.tables && r.value.schemaName == schemaName && r.value.name == name
    ensures r.None? <==> forall t :: t in s.tables ==> !(t.schemaName == schemaName && t.name == name)
  {
    FindFirst(s.tables, (t: Table) => t.schemaName == schemaName && t.name == name)
  }
}
