# FakeDataGen, modelled in Dafny

FakeDataGen reads the schema of a CUBRID database as text and fills its tables with fake records that honour the schema's keys.
It works in four steps:

- the schema parser turns `CREATE CLASS` text into tables with columns, primary keys, unique columns and foreign keys;
- the relationship analyzer links each foreign key to the table it references and records the dependency;
- the generator visits the tables in dependency order and builds each table's records, drawing scalar values at random and taking linked columns from records or keys already generated;
- the service optionally empties the target tables and inserts the records over JDBC, collecting the keys the database hands back.

The model is functional. Java objects become immutable datatypes, and `null` becomes `Option`. A thrown exception becomes a `Result` error. Each Java component is one module:

- `Schema`: the model classes.
- `Extractors`, `Builder`, `Parser`: the schema parser.
- `Analyzer`: the relationship analyzer.
- `Sorter`: the topological orderer.
- `TypeParse`, `BasicValue`, `TypeFacts`: the scalar generator and its per-type facts.
- `RelationshipValues`, `ForeignKeyValues`: the linked-value generators.
- `Generator`: the relationship-aware orchestrator.
- `Whitelist`, `Conversion`, `InsertRepository`: the insert repository.
- `Connection`: the connection details.
- `Service`: the generation service.
- `Strings`, `Seqs`, `Values`, `Wrappers`: the Java library behaviour the rest relies on.

Anything the program leaves to chance or to the database is a parameter of the model:

- Faker's answers;
- the one-to-many child counts;
- the order a `HashMap` yields its entries in;
- whether a parser accepts a string;
- whether the database accepts a statement;
- the keys the database generates.

Each contract therefore holds whatever those parameters are.

## Model

| member | source | states |
|---|---|---|
| Schema.NewColumn | src/main/java/com/example/fakedatagen/model/Column.java:6-15 | a new column carries the given name and type and the defaults: not a key, not an identity, nullable, no default value, length -1 |
| Schema.FullDataType | src/main/java/com/example/fakedatagen/model/Column.java:74-79 | the type gains `(length)` exactly when the length is positive and the lower-cased type mentions `varchar`; otherwise it is the declared type |
| Schema.NewConstraint | src/main/java/com/example/fakedatagen/model/Constraint.java:9-21 | a new constraint has its name and kind and no columns |
| Schema.AddConstraintColumn | src/main/java/com/example/fakedatagen/model/Constraint.java:72-74 | appends one column and keeps the earlier ones in order, name and kind unchanged |
| Schema.NewForeignKey | src/main/java/com/example/fakedatagen/model/ForeignKey.java:8-15 | the three-argument foreign key is unnamed, with both actions `RESTRICT` |
| Schema.NewNamedForeignKey | src/main/java/com/example/fakedatagen/model/ForeignKey.java:17-22 | the four-argument foreign key differs from the three-argument one only by its constraint name |
| Schema.FullReference | src/main/java/com/example/fakedatagen/model/ForeignKey.java:73-75 | the referenced table and column around one dot; when the column has no dot, the part after the last dot is the column |
| Schema.NewTable | src/main/java/com/example/fakedatagen/model/Table.java:10-16 | a table made from a name alone has no schema name and no columns, foreign keys or constraints |
| Schema.NewQualifiedTable | src/main/java/com/example/fakedatagen/model/Table.java:10-21 | a table made from a schema and a name keeps both and starts with empty lists |
| Schema.AddColumn | src/main/java/com/example/fakedatagen/model/Table.java:68-70 | appends one column and leaves name, schema, foreign keys and constraints unchanged |
| Schema.AddForeignKey | src/main/java/com/example/fakedatagen/model/Table.java:72-74 | appends one foreign key and leaves everything else unchanged |
| Schema.AddConstraint | src/main/java/com/example/fakedatagen/model/Table.java:76-78 | appends one constraint and leaves everything else unchanged |
| Schema.ColumnByName | src/main/java/com/example/fakedatagen/model/Table.java:80-85 | finds a column of exactly that name, the first one, and finds nothing exactly when no column has that name |
| Schema.PrimaryKeyColumns | src/main/java/com/example/fakedatagen/model/Table.java:87-91 | a column is listed exactly when it belongs to the table and is flagged as primary key (the order is stated by `Schema.PrimaryKeyColumnsAppend`) |
| Schema.PrimaryKeyColumnsAppend | src/main/java/com/example/fakedatagen/model/Table.java:87-91 | the key columns keep declaration order: adding a column appends it after the earlier key columns exactly when it is flagged |
| Schema.HasForeignKeyToIff | src/main/java/com/example/fakedatagen/model/Table.java:93-96 | true exactly when some foreign key names that referenced table, compared exactly |
| Schema.NewRelationship | src/main/java/com/example/fakedatagen/model/Relationship.java:9-22 | a new relationship has its source, target and kind, no columns, and is nullable |
| Schema.AddSourceColumn | src/main/java/com/example/fakedatagen/model/Relationship.java:73-75 | appends one source column and changes nothing else |
| Schema.AddTargetColumn | src/main/java/com/example/fakedatagen/model/Relationship.java:77-79 | appends one target column and changes nothing else |
| Schema.NewSchema | src/main/java/com/example/fakedatagen/model/DatabaseSchema.java:8-15 | a new schema has its name and no tables, dependencies or relationships |
| Schema.AddTable | src/main/java/com/example/fakedatagen/model/DatabaseSchema.java:49-51 | appends one table and changes nothing else |
| Schema.AddDependency | src/main/java/com/example/fakedatagen/model/DatabaseSchema.java:53-55 | the table's list gains the dependency at its end (created when absent, duplicates kept); every other list and the rest of the schema are unchanged |
| Schema.AddRelationship | src/main/java/com/example/fakedatagen/model/DatabaseSchema.java:57-59 | appends one relationship and changes nothing else |
| Schema.TableByName | src/main/java/com/example/fakedatagen/model/DatabaseSchema.java:61-70 | finds the first table named exactly like the text after the last dot, and nothing exactly when no table has that name |
| Schema.TableByNameIgnoresQualifier | src/main/java/com/example/fakedatagen/model/DatabaseSchema.java:62-64 | a schema prefix before a dot-free name does not change the lookup |
| Schema.TableByNameFindsMember | src/main/java/com/example/fakedatagen/model/DatabaseSchema.java:61-70 | every table whose name has no dot is found by its own name |
| Schema.RootTables | src/main/java/com/example/fakedatagen/model/DatabaseSchema.java:72-76 | a table is a root exactly when it has no dependency entry (the order is stated by `Schema.RootTablesAppend`) |
| Schema.RootTablesAppend | src/main/java/com/example/fakedatagen/model/DatabaseSchema.java:72-76 | the roots keep table order: adding a table appends it after the earlier roots exactly when it has no dependency entry |
| Schema.AddDependencyRoots | src/main/java/com/example/fakedatagen/model/DatabaseSchema.java:53-55 | recording a dependency removes exactly that table from the roots |
| Schema.TableBySchemaAndName | src/main/java/com/example/fakedatagen/model/DatabaseSchema.java:78-83 | finds a table only when both schema and name are equal, and nothing exactly when none matches |
| Extractors.FileAll | src/main/java/com/example/fakedatagen/parser/extractor/ColumnExtractor.java:62-83 | filing entries into a map (the `computeIfAbsent(key, ...).add(...)` idiom of every extractor) leaves each key holding its earlier list followed by exactly the items gathered for it in entry order, and adds exactly the keys some entry creates |
| Extractors.MatchKey | src/main/java/com/example/fakedatagen/parser/extractor/ColumnExtractor.java:36-45 | the key is the lower-cased `schema.table` when schema names are kept and the lower-cased table name otherwise |
| Extractors.RemoveBrackets | src/main/java/com/example/fakedatagen/parser/extractor/PrimaryKeyExtractor.java:45 | no bracket is left, every character kept comes from the input, and bracket-free text is unchanged |
| Extractors.RemoveBracketsAppend | src/main/java/com/example/fakedatagen/parser/extractor/PrimaryKeyExtractor.java:45 | removing brackets distributes over concatenation |
| Extractors.SplitAllJoins | src/main/java/com/example/fakedatagen/parser/extractor/PrimaryKeyExtractor.java:45 | the pieces between commas, joined back with the comma, give the text again |
| Extractors.JavaSplit | src/main/java/com/example/fakedatagen/parser/extractor/PrimaryKeyExtractor.java:45 | `String.split` on one character: text without it is one piece, otherwise the pieces between occurrences with trailing empty pieces dropped; no piece holds the character |
| Extractors.ExtractTables | src/main/java/com/example/fakedatagen/parser/extractor/TableExtractor.java:24-44 | one empty table per match in match order, names lower-cased, the schema name kept only when asked for and empty otherwise |
| Extractors.ParseColumn | src/main/java/com/example/fakedatagen/parser/extractor/ColumnExtractor.java:70-80 | the column name is lower-cased, the type trimmed with every `;` removed, and the column is an identity column exactly when the lower-cased block contains `[name] integer auto_increment`; the other fields keep their defaults |
| Extractors.ExtractColumns | src/main/java/com/example/fakedatagen/parser/extractor/ColumnExtractor.java:26-84 | a key is present exactly when some match is filed under it (even one with no column), its list is the parsed columns of all its matches in order, and no column is flagged as a primary key |
| Extractors.KeyColumnList | src/main/java/com/example/fakedatagen/parser/extractor/PrimaryKeyExtractor.java:45-48 | one name per `split` piece of the bracket-free list, each trimmed and lower-cased, in order |
| Extractors.KeyColumnListReadsNames | src/main/java/com/example/fakedatagen/parser/extractor/PrimaryKeyExtractor.java:45-48 | a key list written `[n1], [n2], ...` of plain names reads back as exactly its names, lower-cased, in order |
| Extractors.ExtractPrimaryKeys | src/main/java/com/example/fakedatagen/parser/extractor/PrimaryKeyExtractor.java:25-52 | a key is present exactly when some match for it yields at least one name; its list is the names of all its matches in order, and is never empty |
| Extractors.ReferencedColumn | src/main/java/com/example/fakedatagen/parser/extractor/ForeignKeyExtractor.java:72-99 | the first key column extracted for the referenced table when there is one (looked up as `schema.table` or `table` like the extractors file it), otherwise always `<table>_id` |
| Extractors.ParseForeignKey | src/main/java/com/example/fakedatagen/parser/extractor/ForeignKeyExtractor.java:39-62 | the column is the trimmed, bracket-free, lower-cased column group; the referenced table is `schema.table` exactly when schema names are kept; the referenced column comes from the key map; the key is unnamed with default actions |
| Extractors.ExtractForeignKeys | src/main/java/com/example/fakedatagen/parser/extractor/ForeignKeyExtractor.java:27-67 | a key is present exactly when some match (with trimmed groups) is filed under it, its list is its matches' foreign keys in order, and every listed foreign key is the parse of one of its own matches |
| Extractors.KeptReferencesQualified | src/main/java/com/example/fakedatagen/parser/extractor/ForeignKeyExtractor.java:48-50 | with schema names kept, every extracted reference contains a dot |
| Extractors.BracketBodies | src/main/java/com/example/fakedatagen/parser/extractor/UniqueConstraintExtractor.java:126-133 | the successive `[...]` bodies the pattern finds, none empty and none holding `]` |
| Extractors.BracketListBodies | src/main/java/com/example/fakedatagen/parser/extractor/UniqueConstraintExtractor.java:126-133 | a list `[n1], [n2], ...` of non-empty names without `]` yields exactly those names |
| Extractors.ColumnNames | src/main/java/com/example/fakedatagen/parser/extractor/UniqueConstraintExtractor.java:119-136 | every returned name is non-empty |
| Extractors.ColumnNamesReadsNames | src/main/java/com/example/fakedatagen/parser/extractor/UniqueConstraintExtractor.java:119-136 | a list `[n1], [n2], ...` of trimmed, non-blank names reads back as exactly its names, lower-cased, in order |
| Extractors.NothingFoundInBlank | src/main/java/com/example/fakedatagen/parser/extractor/UniqueConstraintExtractor.java:121-123 | blank text holds no bracket body, so the early return for blank text gives what the scan would give |
| Extractors.ExtractUniques | src/main/java/com/example/fakedatagen/parser/extractor/UniqueConstraintExtractor.java:28-113 | a key holds the names of its one-line matches followed by those of its multi-line matches; it is present exactly when a one-line match, or a multi-line match whose column text is at most 200 characters, yields a name for it; no name is empty |
| Builder.MarkKeys | src/main/java/com/example/fakedatagen/parser/builder/TableBuilder.java:44-51 | same columns in the same order, each changed at most in its key flag, which is set exactly when it was set or the key list names the column |
| Builder.UniqueConstraints | src/main/java/com/example/fakedatagen/parser/builder/TableBuilder.java:65-73 | one constraint `u_<table>_<col>` per listed unique column, in list order |
| Builder.WithColumns | src/main/java/com/example/fakedatagen/parser/builder/TableBuilder.java:44-51 | the table gains the marked columns at the end and nothing else changes |
| Builder.WithPrimaryKey | src/main/java/com/example/fakedatagen/parser/builder/TableBuilder.java:53-63 | an empty key list leaves the table alone; otherwise exactly one PRIMARY KEY constraint `pk_<table>_<cols joined by _>` over the key columns in order is appended |
| Builder.AddConstraintColumns | src/main/java/com/example/fakedatagen/model/Constraint.java:72-74 | adding columns one by one appends them all in order |
| Builder.WithUniques | src/main/java/com/example/fakedatagen/parser/builder/TableBuilder.java:65-73 | exactly the unique constraints of the list are appended and nothing else changes |
| Builder.WithForeignKeys | src/main/java/com/example/fakedatagen/parser/builder/TableBuilder.java:75-79 | the foreign keys are appended in input order and nothing else changes |
| Builder.BuildTable | src/main/java/com/example/fakedatagen/parser/builder/TableBuilder.java:25-39 | a table keeps name and schema and gains, from the lists under its key (missing lists read as empty), its marked columns, its key constraint, its unique constraints and its foreign keys |
| Builder.BuildTables | src/main/java/com/example/fakedatagen/parser/builder/TableBuilder.java:16-42 | every input table is completed and added exactly once, in input order, after the tables already present; dependencies, relationships and schema name are untouched |
| Builder.KeyColumnsAreNamed | src/main/java/com/example/fakedatagen/parser/builder/TableBuilder.java:44-51 | for extracted columns, a column of the built table is a key column exactly when the key list names it |
| Builder.BuiltConstraints | src/main/java/com/example/fakedatagen/parser/builder/TableBuilder.java:53-73 | a built table's constraints are exactly the key constraint (for a non-empty key list) and one unique constraint per listed column |
| Builder.BuiltPrimaryKey | src/main/java/com/example/fakedatagen/parser/builder/TableBuilder.java:53-63 | the only PRIMARY KEY constraint of a built table is the one over its non-empty key list |
| Builder.BuiltUnique | src/main/java/com/example/fakedatagen/parser/builder/TableBuilder.java:65-73 | the UNIQUE constraints of a built table are exactly one per listed unique column |
| Builder.CompositeIffManyKeys | src/main/java/com/example/fakedatagen/parser/builder/TableBuilder.java:53-73 | a built table counts as having a composite key exactly when its key list has more than one column |
| Builder.UniqueIffListed | src/main/java/com/example/fakedatagen/parser/builder/TableBuilder.java:65-73 | a column of a built table is under a UNIQUE constraint exactly when its unique list names it |
| Builder.ClassifyBuilt | src/main/java/com/example/fakedatagen/parser/builder/TableBuilder.java:53-73 | the relationship kind of a built table's foreign key follows from the maps alone: one-to-one when the column is listed unique, else many-to-many when the key list has several columns, else many-to-one |
| Builder.BuiltTableFacts | src/main/java/com/example/fakedatagen/parser/builder/TableBuilder.java:25-73 | both facts above together, for a table with extracted columns |
| Builder.BuiltNames | src/main/java/com/example/fakedatagen/parser/builder/TableBuilder.java:25-41 | every table built into an empty schema carries the name of one of the input tables |
| Builder.BuiltForeignKeysFiled | src/main/java/com/example/fakedatagen/parser/builder/TableBuilder.java:38 | every foreign key of a built table came from the foreign-key map |
| Parser.ParseSchema | src/main/java/com/example/fakedatagen/parser/CubridSchemaParser.java:81-117 | missing or blank text is rejected first, then text without tables; otherwise the schema is named `unknown`, holds one built table per table match in order, and after the analysis its relationships are the links of all foreign keys in table order with the dependency lists recording exactly their targets |
| Parser.Analyzed | src/main/java/com/example/fakedatagen/parser/CubridSchemaParser.java:110-115 | analysing a freshly built schema keeps its tables and name, makes the relationships exactly the links, and the dependency lists mirror them |
| Parser.ParsedTable | src/main/java/com/example/fakedatagen/parser/CubridSchemaParser.java:97-114 | each parsed table's key columns are exactly those its key list names, and each of its foreign keys is classified from its unique and key lists |
| Parser.ParsedIsBuilt | src/main/java/com/example/fakedatagen/parser/CubridSchemaParser.java:87-111 | a parse of non-blank text with tables succeeds, and its k-th table is the k-th extracted table built from the maps |
| Parser.KeepingSchemaNamesLinksNothing | src/main/java/com/example/fakedatagen/parser/CubridSchemaParser.java:103-114 | with schema names kept and dot-free table names, parsing succeeds with no relationship and no dependency at all |
| Parser.BuiltNamesPlain | src/main/java/com/example/fakedatagen/parser/extractor/TableExtractor.java:33-40 | dot-free table names stay dot-free through extraction and building |
| Parser.BuiltReferencesQualified | src/main/java/com/example/fakedatagen/parser/extractor/ForeignKeyExtractor.java:48-50 | with schema names kept, every foreign key of every built table has a dotted reference |
| Analyzer.HasUniqueConstraint | src/main/java/com/example/fakedatagen/parser/analyzer/RelationshipAnalyzer.java:74-82 | true exactly when some UNIQUE constraint of the table lists the column, compared exactly |
| Analyzer.IsCompositePrimaryKeyTable | src/main/java/com/example/fakedatagen/parser/analyzer/RelationshipAnalyzer.java:87-95 | true exactly when some PRIMARY KEY constraint spans more than one column |
| Analyzer.Classify | src/main/java/com/example/fakedatagen/parser/analyzer/RelationshipAnalyzer.java:54-69 | never one-to-many; one-to-one exactly when the column is under a UNIQUE constraint; many-to-many exactly when it is not and the table has a composite key; many-to-one exactly when neither holds |
| Analyzer.FindReferenced | src/main/java/com/example/fakedatagen/parser/analyzer/RelationshipAnalyzer.java:21-24 | the table found has the referenced name ignoring case, the first such table; none is found exactly when no table has that name |
| Analyzer.Link | src/main/java/com/example/fakedatagen/parser/analyzer/RelationshipAnalyzer.java:21-39 | no relationship exactly when no table has the referenced name ignoring case; otherwise one from the table to the referenced table over the one column pair, of the classified kind, nullable |
| Analyzer.TargetNamesAppend | src/main/java/com/example/fakedatagen/model/DatabaseSchema.java:53-55 | the dependency targets of two runs of relationships are those of the first run followed by those of the second |
| Analyzer.AnalyzeForeignKeys | src/main/java/com/example/fakedatagen/parser/analyzer/RelationshipAnalyzer.java:19-41 | the inner loop keeps the tables and earlier relationships, adds one relationship per foreign key whose table exists, each derived from a foreign key of the table, with the dependency lists grown by exactly their targets |
| Analyzer.LinkGrows | src/main/java/com/example/fakedatagen/parser/analyzer/RelationshipAnalyzer.java:26-40 | one foreign key adds its relationship and the matching dependency when its table exists, and nothing otherwise |
| Analyzer.AnalyzeTables | src/main/java/com/example/fakedatagen/parser/analyzer/RelationshipAnalyzer.java:18-42 | the outer loop grows the schema by relationships derived from the listed tables' foreign keys, as many as reference an existing table |
| Analyzer.Analyze | src/main/java/com/example/fakedatagen/parser/analyzer/RelationshipAnalyzer.java:17-43 | the schema keeps its tables and its earlier relationships, gains one relationship per foreign key whose referenced table exists, each derived from a foreign key, and its dependency lists record exactly the added targets |
| Analyzer.AnalyzeSound | src/main/java/com/example/fakedatagen/parser/analyzer/RelationshipAnalyzer.java:26-39 | every added relationship runs between two schema tables over one column pair named by a foreign key of the source, is not one-to-many, and is nullable |
| Analyzer.ForeignKeysAdd | src/main/java/com/example/fakedatagen/parser/analyzer/RelationshipAnalyzer.java:19-41 | the inner loop appends exactly the links of the keys it visits, in key order |
| Analyzer.TablesAdd | src/main/java/com/example/fakedatagen/parser/analyzer/RelationshipAnalyzer.java:18-42 | the outer loop appends exactly the links of the listed tables, table by table |
| Analyzer.AnalyzeLinks | src/main/java/com/example/fakedatagen/parser/analyzer/RelationshipAnalyzer.java:17-43 | the relationships after the analysis are the earlier ones followed by the link of every matching foreign key, tables in schema order and keys in table order |
| Analyzer.AnalyzeNoMatches | src/main/java/com/example/fakedatagen/parser/analyzer/RelationshipAnalyzer.java:26 | a schema none of whose foreign keys names an existing table is left exactly as it was |
| Analyzer.QualifiedReferenceNeverLinks | src/main/java/com/example/fakedatagen/parser/analyzer/RelationshipAnalyzer.java:21-24 | a dotted reference never matches a dot-free table name, so it yields no relationship |
| Sorter.Visit | src/main/java/com/example/fakedatagen/generator/TopologicalSorter.java:58-101 | a table on the current path or already finished is skipped; otherwise its dependencies and relationship targets are walked first and it is then output and finished; the walk only outputs schema tables, each name once, and finishes nothing on the path |
| Sorter.FinishTable | src/main/java/com/example/fakedatagen/generator/TopologicalSorter.java:98-100 | outputting an unfinished schema table keeps every name in the output once and extends the walk |
| Sorter.VisitName | src/main/java/com/example/fakedatagen/generator/TopologicalSorter.java:77-81 | a name is resolved with the schema's table lookup and, when it resolves, that table ends up on the path or finished |
| Sorter.VisitDeps | src/main/java/com/example/fakedatagen/generator/TopologicalSorter.java:74-83 | the dependency loop walks every listed name that resolves, in list order, keeping the walk's invariant |
| Sorter.VisitRels | src/main/java/com/example/fakedatagen/generator/TopologicalSorter.java:86-96 | the relationship loop walks the target of every relationship out of the table, keeping the walk's invariant |
| Sorter.OrderFrom | src/main/java/com/example/fakedatagen/generator/TopologicalSorter.java:25-30 | the outer loop leaves every remaining schema table finished |
| Sorter.OrderedTables | src/main/java/com/example/fakedatagen/generator/TopologicalSorter.java:20-32 | outputs only schema tables, no table name twice, every table name of the schema, and nothing for an empty schema |
| Sorter.OrderedTablesCount | src/main/java/com/example/fakedatagen/generator/TopologicalSorter.java:20-32 | outputs exactly as many tables as there are distinct table names |
| Sorter.OrderedTablesPermutation | src/main/java/com/example/fakedatagen/generator/TopologicalSorter.java:20-32 | when table names are distinct, the output is a permutation of the schema's tables |
| Sorter.VisitOrdered | src/main/java/com/example/fakedatagen/generator/TopologicalSorter.java:58-101 | on an acyclic graph, a walk keeps every output table after the schema tables it points at |
| Sorter.BothLoopsFinish | src/main/java/com/example/fakedatagen/generator/TopologicalSorter.java:73-96 | on an acyclic graph, once both loops of a table have run, every schema table it points at through a dependency or a relationship is finished |
| Sorter.VisitNameFinishes | src/main/java/com/example/fakedatagen/generator/TopologicalSorter.java:77-81 | walking a name a table points at, while that table is on the path, finishes the resolved table |
| Sorter.VisitDepsFinishes | src/main/java/com/example/fakedatagen/generator/TopologicalSorter.java:74-83 | after the dependency loop every resolving dependency of the table is finished |
| Sorter.VisitRelsFinishes | src/main/java/com/example/fakedatagen/generator/TopologicalSorter.java:86-96 | after the relationship loop every resolving relationship target of the table is finished |
| Sorter.OrderedTablesRespectDependencies | src/main/java/com/example/fakedatagen/generator/TopologicalSorter.java:20-101 | on a schema without dependency cycles, every table comes after every schema table it points at, and no earlier table points at a later one |
| Sorter.QualifiedName | src/main/java/com/example/fakedatagen/generator/TopologicalSorter.java:46-48 | `schema.name` when the schema name is not empty, the bare name otherwise |
| Sorter.OrderedTableNames | src/main/java/com/example/fakedatagen/generator/TopologicalSorter.java:40-53 | one reported name per ordered table, position by position, in the same order |
| Sorter.QualifiedNameResolves | src/main/java/com/example/fakedatagen/generator/TopologicalSorter.java:40-53 | a reported name resolves back, through the schema's lookup, to a table of the same bare name |
| TypeParse.FirstAt | src/main/java/com/example/fakedatagen/generator/BasicValueGenerator.java:29 | the leftmost position where the pattern matches, or none exactly when it matches nowhere |
| TypeParse.ParseInt | src/main/java/com/example/fakedatagen/generator/BasicValueGenerator.java:30 | a digit group is read only when its value fits in a Java `int` |
| TypeParse.ExtractMaxLength | src/main/java/com/example/fakedatagen/generator/BasicValueGenerator.java:24-36 | the value of the first `(digits)` group; 0 when no such group exists or its digits overflow an `int`; never above the `int` range |
| TypeParse.ExtractPrecisionScale | src/main/java/com/example/fakedatagen/generator/BasicValueGenerator.java:42-64 | precision and scale of the first `(p, s)` group; otherwise `(p, 0)` from the first `(p)` group; otherwise `(10, 0)` |
| TypeParse.MaxLengthOfDeclared | src/main/java/com/example/fakedatagen/generator/BasicValueGenerator.java:24-36 | a type written `w(n)` gets back length `n` for every `n` that fits in an `int` |
| TypeParse.PrecisionScaleOfDeclared | src/main/java/com/example/fakedatagen/generator/BasicValueGenerator.java:42-51 | a type written `w(p, s)` gets back `(p, s)`, whatever the spaces after the comma |
| TypeParse.PrecisionOfDeclared | src/main/java/com/example/fakedatagen/generator/BasicValueGenerator.java:53-60 | a type written `w(p)` gets back `(p, 0)` |
| TypeParse.NoParenthesisDefaults | src/main/java/com/example/fakedatagen/generator/BasicValueGenerator.java:24-64 | a type with no parenthesis gets length 0 and precision and scale `(10, 0)` |
| TypeParse.MaxLengthIgnoresPair | src/main/java/com/example/fakedatagen/generator/BasicValueGenerator.java:26-29 | the length pattern does not match a `(p, s)` group, so `numeric(10,2)` has length 0 |
| BasicValue.IsPrimaryKeyColumn | src/main/java/com/example/fakedatagen/generator/BasicValueGenerator.java:144-152 | true exactly when some PRIMARY KEY constraint of the table lists the column under the same spelling |
| BasicValue.HasUniqueConstraint | src/main/java/com/example/fakedatagen/generator/BasicValueGenerator.java:121-139 | true exactly when some UNIQUE constraint lists the column, ignoring case |
| BasicValue.UniqueTestsCompared | src/main/java/com/example/fakedatagen/generator/BasicValueGenerator.java:121-139 | every column the analyzer's exact UNIQUE test finds, this test finds too; a column spelled `ID` in the constraint and `id` in the table is found here only |
| BasicValue.ColumnSeed | src/main/java/com/example/fakedatagen/generator/BasicValueGenerator.java:72 | the per-column seed lies in 0..999 |
| BasicValue.UniqueText | src/main/java/com/example/fakedatagen/generator/BasicValueGenerator.java:75-88 | a unique `varchar(n)` value never exceeds `n` characters, and is `seed_index` whenever that fits or the type has no length |
| BasicValue.UniqueFixed | src/main/java/com/example/fakedatagen/generator/BasicValueGenerator.java:89-98 | a unique `char(n)` value is exactly `n` digits |
| BasicValue.UniqueValueDistinct | src/main/java/com/example/fakedatagen/generator/BasicValueGenerator.java:70-119 | two different rows of a key column get different unique values, for every type branch, as long as a `char(n)` or `varchar(n)` column has room for 10^n rows |
| BasicValue.Realise | src/main/java/com/example/fakedatagen/generator/BasicValueGenerator.java:20-22 | a fixed value is returned as it is; a random request becomes the string it produced |
| BasicValue.TextOrClock | src/main/java/com/example/fakedatagen/generator/BasicValueGenerator.java:169-236 | of the text and clock branches, only `char` without a length gives a fixed value, the letter `A` |
| BasicValue.IntegerAsWritten | src/main/java/com/example/fakedatagen/generator/BasicValueGenerator.java:237-261 | of the integer branches as ordered in the source, only an identity column gets a fixed value |
| BasicValue.IntegerCorrected | src/main/java/com/example/fakedatagen/generator/BasicValueGenerator.java:237-256 | with the 16-bit test first, still only an identity column gets a fixed value |
| BasicValue.OtherTypes | src/main/java/com/example/fakedatagen/generator/BasicValueGenerator.java:262-336 | the numeric, floating, boolean, bit and fallback branches always ask the Faker for a value |
| BasicValue.GenerateAsWritten | src/main/java/com/example/fakedatagen/generator/BasicValueGenerator.java:153-338 | a key column takes the unique path before any type test; only a key column, an identity column or a `char` column without a length gets a value that is not random |
| BasicValue.Generate | src/main/java/com/example/fakedatagen/generator/BasicValueGenerator.java:153-338 | a key column takes the unique path; only a key column, an identity column or a `char` column without a length gets a value that is not random; this is the dispatch with `smallint` and `short` tested before `int` |
| TypeFacts.KeyColumnValuesDistinct | src/main/java/com/example/fakedatagen/generator/BasicValueGenerator.java:160-167 | a key column's rows get fixed values that differ from row to row |
| TypeFacts.VarcharFits | src/main/java/com/example/fakedatagen/generator/BasicValueGenerator.java:170-177 | a non-key `varchar(n)` column gets between 1 and `n` characters (at most 1000) |
| TypeFacts.CharFits | src/main/java/com/example/fakedatagen/generator/BasicValueGenerator.java:182-195 | a non-key `char(n)` column gets exactly `min(n, 2048)` upper-case letters and digits |
| TypeFacts.ClockColumns | src/main/java/com/example/fakedatagen/generator/BasicValueGenerator.java:205-236 | `timestamp` and `datetime` get a recent date and time, `date` a recent date and `time` a time of day |
| TypeFacts.IdentityColumnCounts | src/main/java/com/example/fakedatagen/generator/BasicValueGenerator.java:237-243 | a non-key `int` identity column numbers its rows from 1 |
| TypeFacts.IdentityColumnDistinct | src/main/java/com/example/fakedatagen/generator/BasicValueGenerator.java:237-243 | two rows of such a column never get the same number |
| TypeFacts.SmallintOverflowsAsWritten | src/main/java/com/example/fakedatagen/generator/BasicValueGenerator.java:237-256 | as written, a `smallint` column draws from the full 32-bit range, which admits 40000, above the 16-bit maximum |
| TypeFacts.SmallintFitsCorrected | src/main/java/com/example/fakedatagen/generator/BasicValueGenerator.java:252-256 | with the 16-bit test first, every value a `smallint` column can get lies in -32768..32767 |
| TypeFacts.AsWrittenAgreesWithoutShort | src/main/java/com/example/fakedatagen/generator/BasicValueGenerator.java:237-261 | the two orders give the same result for every type that mentions neither `short` nor `smallint` |
| TypeFacts.LongBranchUnreachable | src/main/java/com/example/fakedatagen/generator/BasicValueGenerator.java:257-261 | the 64-bit branch is never taken: every type mentioning `bigint` already mentions `int` |
| TypeFacts.BigintColumnAs32Bit | src/main/java/com/example/fakedatagen/generator/BasicValueGenerator.java:237-246 | so a non-key, non-identity `bigint` column draws from the 32-bit range |
| TypeFacts.NumericScaledBounds | src/main/java/com/example/fakedatagen/generator/BasicValueGenerator.java:262-276 | a non-key `numeric(p, s)` with `0 < s <= p` draws a decimal of scale `s` within `10^(p-s) - 1` either side of zero, cast to `int` (exact when `p - s <= 9`) |
| TypeFacts.NumericWholeFits | src/main/java/com/example/fakedatagen/generator/BasicValueGenerator.java:262-284 | a non-key `numeric(p)` with `p <= 18` gets a whole number of at most `p` digits |
| TypeFacts.BitFits | src/main/java/com/example/fakedatagen/generator/BasicValueGenerator.java:302-316 | a non-key `bit(n)` column gets exactly `n` binary digits |
| TypeFacts.BooleanColumn | src/main/java/com/example/fakedatagen/generator/BasicValueGenerator.java:296-301 | a non-key `boolean` column gets `true` or `false` |
| RelationshipValues.AtIndex | src/main/java/com/example/fakedatagen/generator/RelationshipValueGenerator.java:137-141 | element `i` of the list stored under a name, exactly when the list exists and is that long |
| RelationshipValues.Cycling | src/main/java/com/example/fakedatagen/generator/RelationshipValueGenerator.java:183-188 | round-robin: element `i mod length` of the list, exactly when it exists and is non-empty |
| RelationshipValues.CyclingBoth | src/main/java/com/example/fakedatagen/generator/RelationshipValueGenerator.java:168-175 | the round-robin pick over one list, taken only when both lists exist and are non-empty |
| RelationshipValues.CompositeSide | src/main/java/com/example/fakedatagen/generator/RelationshipValueGenerator.java:115-127 | a column is served from the source side exactly when it is a source column with source data; otherwise from the target side only when it is a target column with target data |
| RelationshipValues.StrategyOf | src/main/java/com/example/fakedatagen/generator/RelationshipValueGenerator.java:21-95 | one-to-one links and many-to-one links over a unique column (ignoring case) get the one-to-one selector; many-to-many links get the composite-key selector exactly when the source has a composite primary key |
| RelationshipValues.PickRecord | src/main/java/com/example/fakedatagen/generator/RelationshipValueGenerator.java:111-190 | a record-based selector returns only a value found in the referenced column of the source's or the target's records |
| RelationshipValues.PickKey | src/main/java/com/example/fakedatagen/generator/RelationshipValueGenerator.java:194-301 | a key-based selector returns only one of the source's or the target's generated keys |
| RelationshipValues.RecordFallback | src/main/java/com/example/fakedatagen/generator/RelationshipValueGenerator.java:111-190 | a record-based selector that finds nothing returns `index + 1` or 1 |
| RelationshipValues.FromRows | src/main/java/com/example/fakedatagen/generator/RelationshipValueGenerator.java:47-69 | the value comes from the referenced column of the records stored under either table's name as written, or is one of the fallbacks |
| RelationshipValues.FromKeys | src/main/java/com/example/fakedatagen/generator/RelationshipValueGenerator.java:72-95 | the value is one of the keys generated for either table, looked up unqualified, or `index + 1` |
| RelationshipValues.FromData | src/main/java/com/example/fakedatagen/generator/RelationshipValueGenerator.java:21-44 | the value comes from the generated records or keys of either table, looked up unqualified, or is `index + 1` |
| RelationshipValues.UniqueManyToOneServedOneToOne | src/main/java/com/example/fakedatagen/generator/RelationshipValueGenerator.java:21-95 | a many-to-one link over a unique column gives, in all three entry points, exactly what a one-to-one link would |
| RelationshipValues.AnalyzedLinkStrategy | src/main/java/com/example/fakedatagen/generator/RelationshipValueGenerator.java:21-95 | a link classified by the analyzer is never served one-to-many nor by the plain many-to-many selector |
| RelationshipValues.OneToOneKeysDistinct | src/main/java/com/example/fakedatagen/generator/RelationshipValueGenerator.java:194-207 | over distinct generated keys, one-to-one gives different rows different keys |
| RelationshipValues.OneToOneKeyAt | src/main/java/com/example/fakedatagen/generator/RelationshipValueGenerator.java:194-207 | one-to-one gives row `i` the `i`-th target key while there are that many |
| RelationshipValues.OneToOneRowsDistinct | src/main/java/com/example/fakedatagen/generator/RelationshipValueGenerator.java:132-144 | over records with distinct referenced values, one-to-one gives different rows different values |
| RelationshipValues.OneToManyKeyFamilies | src/main/java/com/example/fakedatagen/generator/RelationshipValueGenerator.java:211-228 | parent key `p` goes to each child row `i = 3p + c` with `c < 3` (rows `3p`, `3p+1`, `3p+2`) |
| RelationshipValues.OneToManyKeysExhausted | src/main/java/com/example/fakedatagen/generator/RelationshipValueGenerator.java:211-228 | rows beyond three per parent key get `index + 1` |
| RelationshipValues.OneToManyRowFamilies | src/main/java/com/example/fakedatagen/generator/RelationshipValueGenerator.java:146-161 | over records, row `children * p + c` with that call's draw refers to parent record `p` |
| RelationshipValues.CyclingPeriodic | src/main/java/com/example/fakedatagen/generator/RelationshipValueGenerator.java:183-188 | round-robin picks repeat with the list's length as period |
| RelationshipValues.ManyToOneKeysCover | src/main/java/com/example/fakedatagen/generator/RelationshipValueGenerator.java:231-245 | many-to-one gives row `k` the `k`-th target key, so every key is used |
| RelationshipValues.ManyToOneKeysPeriodic | src/main/java/com/example/fakedatagen/generator/RelationshipValueGenerator.java:231-245 | the many-to-one assignment of target keys to rows repeats with the number of keys as period |
| RelationshipValues.StrategyIgnoresNames | src/main/java/com/example/fakedatagen/generator/RelationshipValueGenerator.java:21-95 | the dispatch reads only the link's kind and the source's constraints |
| RelationshipValues.QualifyPreserves | src/main/java/com/example/fakedatagen/generator/RelationshipValueGenerator.java:197-200 | qualifying dot-free table names leaves their unqualified forms and the dispatch unchanged |
| RelationshipValues.PicksReadColumnsOnly | src/main/java/com/example/fakedatagen/generator/RelationshipValueGenerator.java:111-301 | the selectors read the link's columns and never its tables |
| RelationshipValues.KeysIgnoreQualifier | src/main/java/com/example/fakedatagen/generator/RelationshipValueGenerator.java:72-95 | the key-based entry point gives the same value whether or not the table names carry a schema prefix |
| RelationshipValues.DataIgnoresQualifier | src/main/java/com/example/fakedatagen/generator/RelationshipValueGenerator.java:21-44 | so does the data-based one |
| RelationshipValues.RowsNeedNameAsWritten | src/main/java/com/example/fakedatagen/generator/RelationshipValueGenerator.java:47-69 | the record-based entry point finds no record when neither table name, as written, has records, and falls back |
| RelationshipValues.NoRecordsNoPick | src/main/java/com/example/fakedatagen/generator/RelationshipValueGenerator.java:305-474 | no selector finds a record in an empty record map |
| RelationshipValues.DataWithoutRecordsIsKeys | src/main/java/com/example/fakedatagen/generator/RelationshipValueGenerator.java:21-44 | with no generated records, the data-based entry point gives what the key-based one gives |
| RelationshipValues.DataPrefersRecords | src/main/java/com/example/fakedatagen/generator/RelationshipValueGenerator.java:305-474 | once a record serves the column, the generated keys do not affect the result |
| RelationshipValues.DataAgreesWithRows | src/main/java/com/example/fakedatagen/generator/RelationshipValueGenerator.java:21-69 | on unqualified names with three children per parent, the data-based entry point returns the record the record-based one returns, except for plain many-to-many |
| RelationshipValues.ManyToManySides | src/main/java/com/example/fakedatagen/generator/RelationshipValueGenerator.java:163-426 | plain many-to-many reads the target's records in the record-based entry point and the source's in the data-based one |
| RelationshipValues.CompositeKeysFromOwnSide | src/main/java/com/example/fakedatagen/generator/RelationshipValueGenerator.java:273-301 | composite keys: a source column is served from the source's keys only, and an empty source list yields `index + 1` without consulting the target |
| ForeignKeyValues.PickedKey | src/main/java/com/example/fakedatagen/generator/ForeignKeyValueGenerator.java:59-60 | the round-robin pick is one of the keys stored under the name |
| ForeignKeyValues.FirstKey | src/main/java/com/example/fakedatagen/generator/ForeignKeyValueGenerator.java:55-104 | the key found belongs to one of the spellings tried; with zero keys skipped it is never 0; without skipping it is missing exactly when no spelling has keys |
| ForeignKeyValues.FirstPresent | src/main/java/com/example/fakedatagen/generator/ForeignKeyValueGenerator.java:124-129 | the first non-null value among the tried column names, missing exactly when all are null |
| ForeignKeyValues.RecordValue | src/main/java/com/example/fakedatagen/generator/ForeignKeyValueGenerator.java:113-137 | the referenced column when it is set; nothing exactly when the record is empty; otherwise a non-null value of the record or the record's first value |
| ForeignKeyValues.PickedRecord | src/main/java/com/example/fakedatagen/generator/ForeignKeyValueGenerator.java:110-111 | the round-robin pick is one of the records stored under the name |
| ForeignKeyValues.FirstRecordValue | src/main/java/com/example/fakedatagen/generator/ForeignKeyValueGenerator.java:106-140 | nothing exactly when no spelling has a non-empty record list whose picked record yields something |
| ForeignKeyValues.FromRows | src/main/java/com/example/fakedatagen/generator/ForeignKeyValueGenerator.java:17-38 | with records under the unqualified name, the referenced column of one of them; otherwise `index + 1` |
| ForeignKeyValues.FromKeys | src/main/java/com/example/fakedatagen/generator/ForeignKeyValueGenerator.java:43-71 | null exactly when no spelling has keys; otherwise a key stored under one of the spellings |
| ForeignKeyValues.FromData | src/main/java/com/example/fakedatagen/generator/ForeignKeyValueGenerator.java:76-147 | a zero is never taken from the keys, so a 0 result comes from a record |
| ForeignKeyValues.KeysPreferNameAsWritten | src/main/java/com/example/fakedatagen/generator/ForeignKeyValueGenerator.java:43-64 | keys stored under the name as written take precedence over every other spelling |
| ForeignKeyValues.KeysFoundUnderLowerUnqualified | src/main/java/com/example/fakedatagen/generator/ForeignKeyValueGenerator.java:52 | a qualified, upper-case reference still finds keys stored under the lower-case bare name |
| ForeignKeyValues.SkipZeroHarmless | src/main/java/com/example/fakedatagen/generator/ForeignKeyValueGenerator.java:98 | without zero keys in play, skipping zeros changes nothing |
| ForeignKeyValues.DataAgreesWithKeys | src/main/java/com/example/fakedatagen/generator/ForeignKeyValueGenerator.java:76-104 | when some spelling has keys and none of the picked keys is 0, the data-based entry point returns what the key-based one returns |
| ForeignKeyValues.DataFallsBackToRecords | src/main/java/com/example/fakedatagen/generator/ForeignKeyValueGenerator.java:106-137 | with no keys, a record under the name as written whose referenced column is set supplies that value |
| ForeignKeyValues.RecordFallsBackToId | src/main/java/com/example/fakedatagen/generator/ForeignKeyValueGenerator.java:114-129 | a picked record with a null referenced column gives its `id` column |
| ForeignKeyValues.KeysUnresolvedIsNull | src/main/java/com/example/fakedatagen/generator/ForeignKeyValueGenerator.java:66-151 | an unresolved reference is null in the key-based entry point, since every foreign key counts as nullable |
| ForeignKeyValues.DataUnresolvedIsNull | src/main/java/com/example/fakedatagen/generator/ForeignKeyValueGenerator.java:142-151 | an unresolved reference is null in the data-based entry point as well, since every foreign key counts as nullable |
| Generator.KeyColumnsIgnoreFaker | src/main/java/com/example/fakedatagen/generator/RelationshipAwareGenerator.java:101 | a key column gets its unique value whatever the Faker answers |
| Generator.RelationshipsFor | src/main/java/com/example/fakedatagen/generator/RelationshipAwareGenerator.java:276-287 | exactly the schema's relationships whose source table has the bare name of the table |
| Generator.LinkFor | src/main/java/com/example/fakedatagen/generator/RelationshipAwareGenerator.java:54-64 | the relationship found lists the column among its source columns and belongs to the table; there is none exactly when no such relationship exists |
| Generator.ForeignKeyFor | src/main/java/com/example/fakedatagen/generator/RelationshipAwareGenerator.java:66-69 | the foreign key found is declared on the column; there is none exactly when no foreign key of the table is |
| Generator.LinkedValue | src/main/java/com/example/fakedatagen/generator/RelationshipAwareGenerator.java:91-93 | a relationship-filled column holds what the relationship generator returns for the variant's inputs: a value of earlier records or keys, or a fallback |
| Generator.KeyedValue | src/main/java/com/example/fakedatagen/generator/RelationshipAwareGenerator.java:97-99 | a foreign-key-filled column holds a referenced value of earlier records, a generated key, null or `index + 1` |
| Generator.Cell | src/main/java/com/example/fakedatagen/generator/RelationshipAwareGenerator.java:84-102 | a column that no relationship and no foreign key covers holds the scalar generator's value |
| Generator.CellOrigin | src/main/java/com/example/fakedatagen/generator/RelationshipAwareGenerator.java:84-102 | whatever the variant, a column holds the scalar value, a value read from earlier output, or a fallback |
| Generator.Record | src/main/java/com/example/fakedatagen/generator/RelationshipAwareGenerator.java:73-78 | a record has one entry per column name, holding the value of the last column of that name |
| Generator.RecordAgrees | src/main/java/com/example/fakedatagen/generator/RelationshipAwareGenerator.java:73-78 | two ways of filling the columns that agree on every column make the same record |
| Generator.RowCount | src/main/java/com/example/fakedatagen/generator/RelationshipAwareGenerator.java:120-122 | the loop `for (i = 0; i < recordCount; i++)` of `generateTableData`, whose list has no initial capacity, runs `recordCount` times, and zero times for a negative count |
| Generator.TableRecords | src/main/java/com/example/fakedatagen/generator/RelationshipAwareGenerator.java:72-81 | once the record list exists (a non-negative count): `recordCount` records, each with an entry for every column name, record `i` made from row `i` |
| Generator.PutTablesKeys | src/main/java/com/example/fakedatagen/generator/RelationshipAwareGenerator.java:44-48 | after the first `k` tables, the map holds exactly their names |
| Generator.EarlierTablesKept | src/main/java/com/example/fakedatagen/generator/RelationshipAwareGenerator.java:44-48 | once put, a table's records are never replaced by a later table |
| Generator.GenerateFakeData | src/main/java/com/example/fakedatagen/generator/RelationshipAwareGenerator.java:36-81 | fails with the illegal-capacity exception exactly when the count is negative and the schema has a table; otherwise every schema table name is a key of the result, nothing else, each with `recordCount` records |
| Generator.GeneratedFromEarlierTables | src/main/java/com/example/fakedatagen/generator/RelationshipAwareGenerator.java:36-52 | the table at position `k` of the dependency order is generated from the records of exactly the tables ordered before it |
| Generator.ForeignKeyReadsEarlierTable | src/main/java/com/example/fakedatagen/generator/RelationshipAwareGenerator.java:36-99 | a foreign-key column holds `index + 1` or a referenced value from a table generated earlier |
| Generator.TableFor | src/main/java/com/example/fakedatagen/generator/RelationshipAwareGenerator.java:114-115 | the schema prefix is dropped before the lookup, which drops it again, so the lookup is the schema's own |
| Generator.TableData | src/main/java/com/example/fakedatagen/generator/RelationshipAwareGenerator.java:113-135 | no records for a name the schema lacks; otherwise `recordCount` records with one entry per column name |
| Generator.TableDataWithData | src/main/java/com/example/fakedatagen/generator/RelationshipAwareGenerator.java:147-190 | no records for a name the schema lacks; for a known table, the illegal-capacity exception when the count is negative, otherwise `recordCount` records with one entry per column name |
| Generator.ReportedNameFindsTable | src/main/java/com/example/fakedatagen/generator/RelationshipAwareGenerator.java:289-302 | the name `getOrderedTableNames` reports for a table leads both per-table variants to that table's records, or to the exception for a negative count in the variant that allocates with a capacity |
| Generator.RelationshipBeforeForeignKey | src/main/java/com/example/fakedatagen/generator/RelationshipAwareGenerator.java:89-99 | a column covered by both a relationship and a foreign key is filled by the relationship generator |
| Generator.SoleLink | src/main/java/com/example/fakedatagen/generator/RelationshipAwareGenerator.java:58-64 | a table's only relationship fills every column it lists, in every variant |
| Generator.SharedColumnLinksDiffer | src/main/java/com/example/fakedatagen/generator/RelationshipAwareGenerator.java:217-273 | when two relationships list the same column, the key-reading variant uses the first and the record-reading variants the last |
| Generator.LookupsAgreeWhenUnique | src/main/java/com/example/fakedatagen/generator/RelationshipAwareGenerator.java:217-273 | with at most one covering relationship and foreign key, first-match and last-match lookups agree |
| Generator.UnlinkedColumnIgnoresSource | src/main/java/com/example/fakedatagen/generator/RelationshipAwareGenerator.java:217-273 | an uncovered column holds the scalar value in every variant |
| Generator.PlainTableIgnoresSource | src/main/java/com/example/fakedatagen/generator/RelationshipAwareGenerator.java:113-190 | a table without relationships or foreign keys gets the same records from every variant |
| Whitelist.BuildFrom | src/main/java/com/example/fakedatagen/repository/IdentifierValidator.java:21-26 | the loop records exactly the names of the tables and the `table.column` pairs of their columns |
| Whitelist.TableNames | src/main/java/com/example/fakedatagen/repository/IdentifierValidator.java:22 | exactly the names of the listed tables |
| Whitelist.TablePairs | src/main/java/com/example/fakedatagen/repository/IdentifierValidator.java:23-25 | exactly the `table.column` pairs of the listed tables' columns |
| Whitelist.ColumnPairs | src/main/java/com/example/fakedatagen/repository/IdentifierValidator.java:23-25 | exactly the pairs of one table's columns |
| Whitelist.Build | src/main/java/com/example/fakedatagen/repository/IdentifierValidator.java:18-27 | a name is recorded exactly when a schema table has it, and a pair exactly when a schema table has that column |
| Whitelist.AllowedTableIffFound | src/main/java/com/example/fakedatagen/repository/IdentifierValidator.java:29-32 | the table check accepts exactly the names the schema's table lookup resolves, qualified or not |
| Whitelist.QualifierIgnored | src/main/java/com/example/fakedatagen/repository/IdentifierValidator.java:29-37 | a qualified name is judged as its part after the last dot, whatever the qualifier |
| Whitelist.PairInjective | src/main/java/com/example/fakedatagen/repository/IdentifierValidator.java:24 | with dot-free table names, two pairs are equal only when table and column both are |
| Whitelist.AllowedColumnExact | src/main/java/com/example/fakedatagen/repository/IdentifierValidator.java:34-37 | with dot-free table names, a column is allowed exactly when the named table has it |
| Whitelist.OwnColumnsAllowed | src/main/java/com/example/fakedatagen/repository/IdentifierValidator.java:34-37 | every column of a schema table passes the check under the table's name |
| Whitelist.DottedTableNameCollides | src/main/java/com/example/fakedatagen/repository/IdentifierValidator.java:24 | a schema table named `a.b` lets the pair of `a` and `b.c` through although no table `a` exists |
| Conversion.IntWordGivesInteger | src/main/java/com/example/fakedatagen/repository/DatabaseInsertRepository.java:45-59 | every type mentioning `int` is bound as an integer of some width |
| Conversion.TimestampWordNotDate | src/main/java/com/example/fakedatagen/repository/DatabaseInsertRepository.java:78-89 | a type mentioning `datetime` or `timestamp` is never bound as a bare date or time |
| Conversion.SmallintConvertsAsShort | src/main/java/com/example/fakedatagen/repository/DatabaseInsertRepository.java:50-54 | `smallint` is bound as a 16-bit number, tested before `int` |
| Conversion.BigintConvertsAsLong | src/main/java/com/example/fakedatagen/repository/DatabaseInsertRepository.java:45-49 | `bigint` is bound as a 64-bit number |
| Conversion.TimestampConvertsAsTimestamp | src/main/java/com/example/fakedatagen/repository/DatabaseInsertRepository.java:90-105 | `timestamp` is bound as a timestamp |
| Conversion.DatetimeConvertsAsTimestamp | src/main/java/com/example/fakedatagen/repository/DatabaseInsertRepository.java:90-105 | `datetime` is bound as a timestamp |
| Conversion.DateConvertsAsDate | src/main/java/com/example/fakedatagen/repository/DatabaseInsertRepository.java:78-83 | `date` is bound as a date |
| Conversion.ParseDecimal | src/main/java/com/example/fakedatagen/repository/DatabaseInsertRepository.java:47 | a decimal with an optional sign is read exactly when its digits are present |
| Conversion.ParseInRange | src/main/java/com/example/fakedatagen/repository/DatabaseInsertRepository.java:47-57 | a read that must fit a Java integer type succeeds only within its range |
| Conversion.ParseRendered | src/main/java/com/example/fakedatagen/repository/DatabaseInsertRepository.java:47-57 | reading back a number's decimal rendering gives the number |
| Conversion.ReplaceWith | src/main/java/com/example/fakedatagen/repository/DatabaseInsertRepository.java:95 | `String.replace`: same length, every `from` becomes `to`, nothing else changes |
| Conversion.NormaliseDateTime | src/main/java/com/example/fakedatagen/repository/DatabaseInsertRepository.java:93-102 | the text handed to `LocalDateTime.parse` is cut to 19 characters with every space made `T` |
| Conversion.NormaliseIdempotent | src/main/java/com/example/fakedatagen/repository/DatabaseInsertRepository.java:93-102 | the normal form has no space and normalising it again changes nothing |
| Conversion.IsoSpellingsAgree | src/main/java/com/example/fakedatagen/repository/DatabaseInsertRepository.java:93-102 | `date time`, `date time.fraction` and `dateTtime` normalise to the same text |
| Conversion.ConvertAs | src/main/java/com/example/fakedatagen/repository/DatabaseInsertRepository.java:43-123 | null stays null; an integer value is bound as it is in every typed branch; a text branch binds the string form; a parsed object is one the branch's parser accepts |
| Conversion.Convert | src/main/java/com/example/fakedatagen/repository/DatabaseInsertRepository.java:36-125 | null stays null; a text column binds the value's string form; a typed column passes an integer through unchanged; any raw parameter is the value itself, and a parsed one has the column's kind and text the parser accepts |
| Conversion.IntegerTextRoundTrip | src/main/java/com/example/fakedatagen/repository/DatabaseInsertRepository.java:45-59 | a number written in decimal converts back to that number in an integer branch whose range holds it |
| Conversion.IntegerOverflowKeepsText | src/main/java/com/example/fakedatagen/repository/DatabaseInsertRepository.java:118-123 | out of range, the parser throws and the original string is bound |
| Conversion.NonNumberKeepsText | src/main/java/com/example/fakedatagen/repository/DatabaseInsertRepository.java:118-123 | a string that is not a number is bound unchanged in every integer branch |
| Conversion.TimestampSpellingsAgree | src/main/java/com/example/fakedatagen/repository/DatabaseInsertRepository.java:90-105 | both ISO spellings of one instant bind the same timestamp, or both keep their text |
| Conversion.BooleanBranch | src/main/java/com/example/fakedatagen/repository/DatabaseInsertRepository.java:107-111 | the boolean branch binds `true` for any capitalisation of `true` and `false` for anything else |
| InsertRepository.Count | src/main/java/com/example/fakedatagen/repository/DatabaseInsertRepository.java:180-186 | the number of placeholders in a text never exceeds its length |
| InsertRepository.PlaceholdersCount | src/main/java/com/example/fakedatagen/repository/DatabaseInsertRepository.java:180-186 | the value list `?, ..., ?` for `n` columns holds exactly `n` placeholders |
| InsertRepository.NullsCount | src/main/java/com/example/fakedatagen/repository/DatabaseInsertRepository.java:382-386 | the value list `NULL, ..., NULL` holds none |
| InsertRepository.InsertSqlCount | src/main/java/com/example/fakedatagen/repository/DatabaseInsertRepository.java:171-187 | with names free of `?`, the placeholders of an INSERT are those of its value list |
| InsertRepository.PlaceholderPerColumn | src/main/java/com/example/fakedatagen/repository/DatabaseInsertRepository.java:171-187 | an INSERT listing `n` columns with a placeholder each has `n` placeholders |
| InsertRepository.BindValue | src/main/java/com/example/fakedatagen/repository/DatabaseInsertRepository.java:198-201 | a column the table lacks binds the raw value; a null value binds null |
| InsertRepository.BindRow | src/main/java/com/example/fakedatagen/repository/DatabaseInsertRepository.java:196-201 | one parameter per listed column, in order |
| InsertRepository.BindAll | src/main/java/com/example/fakedatagen/repository/DatabaseInsertRepository.java:195-203 | one parameter list per record, each as long as the column list |
| InsertRepository.ListedKeys | src/main/java/com/example/fakedatagen/repository/DatabaseInsertRepository.java:154-162 | a key is listed exactly when the first record has it and it is not an auto-increment column (the order is stated by `InsertRepository.ListedKeysAppend`) |
| InsertRepository.ListedKeysAppend | src/main/java/com/example/fakedatagen/repository/DatabaseInsertRepository.java:154-162 | the listed keys keep iteration order: one more key is appended after the earlier listed keys exactly when it is not auto-increment |
| InsertRepository.AutoKeys | src/main/java/com/example/fakedatagen/repository/DatabaseInsertRepository.java:154-162 | the first record's keys that are auto-increment columns |
| InsertRepository.KeysPartitioned | src/main/java/com/example/fakedatagen/repository/DatabaseInsertRepository.java:154-162 | every key of the first record is listed or auto-increment, never both |
| InsertRepository.InsertRecords | src/main/java/com/example/fakedatagen/repository/DatabaseInsertRepository.java:136-252 | fails exactly for a non-empty record list naming a table the schema lacks; otherwise a statement binds one parameter list per record |
| InsertRepository.InsertRecordsShape | src/main/java/com/example/fakedatagen/repository/DatabaseInsertRepository.java:150-216 | the statement lists the non-auto-increment keys with one placeholder each, binds that many per record, and returns keys `1..n` exactly when some key is auto-increment |
| InsertRepository.InsertRecordsMatchesPlaceholders | src/main/java/com/example/fakedatagen/repository/DatabaseInsertRepository.java:171-238 | with names free of `?`, every record binds as many parameters as the SQL has placeholders |
| InsertRepository.NoRecordsNoStatement | src/main/java/com/example/fakedatagen/repository/DatabaseInsertRepository.java:137-139 | an empty record list prepares nothing and returns no keys |
| InsertRepository.InsertAll | src/main/java/com/example/fakedatagen/repository/DatabaseInsertRepository.java:264-277 | a successful run holds keys for exactly the ordered names that have records |
| InsertRepository.InsertAllSucceeds | src/main/java/com/example/fakedatagen/repository/DatabaseInsertRepository.java:264-277 | the run succeeds exactly when every ordered name that has records is a schema table |
| InsertRepository.AllKnownStep | src/main/java/com/example/fakedatagen/repository/DatabaseInsertRepository.java:268-275 | the condition for `n` names is the one for `n - 1` names plus the last |
| InsertRepository.InsertAllStep | src/main/java/com/example/fakedatagen/repository/DatabaseInsertRepository.java:268-275 | one step of the run: the first `n` tables insert when the first `n - 1` do and the `n`-th does |
| InsertRepository.NamesOfColumns | src/main/java/com/example/fakedatagen/repository/DatabaseInsertRepository.java:335-342 | the names of the columns, position by position |
| InsertRepository.PlainColumns | src/main/java/com/example/fakedatagen/repository/DatabaseInsertRepository.java:335-342 | only non-auto-increment columns of the table |
| InsertRepository.IdentityColumns | src/main/java/com/example/fakedatagen/repository/DatabaseInsertRepository.java:335-342 | only auto-increment columns of the table |
| InsertRepository.SuppliedColumns | src/main/java/com/example/fakedatagen/repository/DatabaseInsertRepository.java:344-360 | exactly the plain columns the first record holds with a value, or holds as null when they are NOT NULL |
| InsertRepository.Reported | src/main/java/com/example/fakedatagen/repository/DatabaseInsertRepository.java:426-443 | the keys reported are a prefix of those returned, at most one per record |
| InsertRepository.TemplateStatement | src/main/java/com/example/fakedatagen/repository/DatabaseInsertRepository.java:362-473 | a statement for a known table binds one parameter list per record |
| InsertRepository.InsertWithTemplateAsWritten | src/main/java/com/example/fakedatagen/repository/DatabaseInsertRepository.java:305-475 | no statement exactly when there are no records; otherwise one parameter list per record |
| InsertRepository.InsertWithTemplate | src/main/java/com/example/fakedatagen/repository/DatabaseInsertRepository.java:305-475 | no statement exactly when there are no records; otherwise one parameter list per record, with the corrected binding |
| InsertRepository.SuppliedColumnsAllowed | src/main/java/com/example/fakedatagen/repository/DatabaseInsertRepository.java:351-355 | every supplied column passes the column check, since the names come from the table itself |
| InsertRepository.KnownTableErrors | src/main/java/com/example/fakedatagen/repository/DatabaseInsertRepository.java:371-395 | for a known table, the statement fails only when the table has no columns at all |
| InsertRepository.TemplateErrors | src/main/java/com/example/fakedatagen/repository/DatabaseInsertRepository.java:305-395 | the corrected insert fails exactly for an unknown table or a table without columns, with the matching error |
| InsertRepository.TemplateAsWrittenErrors | src/main/java/com/example/fakedatagen/repository/DatabaseInsertRepository.java:305-395 | the insert as written fails on exactly the same inputs |
| InsertRepository.UnknownTableRejected | src/main/java/com/example/fakedatagen/repository/DatabaseInsertRepository.java:311-314 | a name the schema lookup does not resolve fails the table check |
| InsertRepository.KnownTableLookup | src/main/java/com/example/fakedatagen/repository/DatabaseInsertRepository.java:317-323 | a name the lookup resolves passes the table check, and its unqualified lookup finds the same table |
| InsertRepository.KnownTableOnly | src/main/java/com/example/fakedatagen/repository/DatabaseInsertRepository.java:317-395 | for a table the lookup finds, the statement fails only when the table has no columns |
| InsertRepository.ColumnsSplit | src/main/java/com/example/fakedatagen/repository/DatabaseInsertRepository.java:335-342 | the plain and auto-increment columns together make up all columns |
| InsertRepository.TemplateMatchesPlaceholders | src/main/java/com/example/fakedatagen/repository/DatabaseInsertRepository.java:362-473 | with the correction, every record binds exactly as many parameters as the SQL has placeholders, on every path |
| InsertRepository.TemplateAsWrittenOverbinds | src/main/java/com/example/fakedatagen/repository/DatabaseInsertRepository.java:451-467 | as written, a table without auto-increment columns whose first record leaves a nullable column null binds more parameters than the SQL has placeholders |
| InsertRepository.TemplateCorrectedBindsSupplied | src/main/java/com/example/fakedatagen/repository/DatabaseInsertRepository.java:394-405 | corrected, the same table binds one parameter per supplied column, one per placeholder |
| InsertRepository.NullableNullOverbinds | src/main/java/com/example/fakedatagen/repository/DatabaseInsertRepository.java:344-467 | for a NOT NULL column `a`, a nullable column `b` and a first record `{a: 1, b: null}`, the SQL has one placeholder, the code binds two parameters and the correction binds one |
| Connection.NewConnectionInfo | src/main/java/com/example/fakedatagen/model/DatabaseConnectionInfo.java:16-51 | succeeds exactly when host and database name are present and not blank, the port lies in 1..65535 and user name and password are present; the failures come in that order; the stored host and database name are trimmed |
| Connection.TrimIdempotent | src/main/java/com/example/fakedatagen/model/DatabaseConnectionInfo.java:36 | trimming a trimmed string changes nothing |
| Connection.RebuildIdentity | src/main/java/com/example/fakedatagen/model/DatabaseConnectionInfo.java:16-51 | building a value again from a built value's own fields gives it back |
| Connection.JdbcUrl | src/main/java/com/example/fakedatagen/model/DatabaseConnectionInfo.java:57-59 | the URL starts with `jdbc:cubrid:` and ends with `:::` |
| Connection.SplitFirst | src/main/java/com/example/fakedatagen/model/DatabaseConnectionInfo.java:58 | the text before and after the first occurrence of a character, or none exactly when it does not occur |
| Connection.ParseUrl | src/main/java/com/example/fakedatagen/model/DatabaseConnectionInfo.java:55-59 | reads back a host without a colon from a URL of that layout |
| Connection.UrlRoundTrip | src/main/java/com/example/fakedatagen/model/DatabaseConnectionInfo.java:57-59 | reading a built value's URL gives back its host, port and database name, whenever the host has no colon |
| Connection.UrlIdentifiesDatabase | src/main/java/com/example/fakedatagen/model/DatabaseConnectionInfo.java:57-59 | two built values with colon-free hosts and the same URL name the same host, port and database |
| Connection.EqualsMatchesHash | src/main/java/com/example/fakedatagen/model/DatabaseConnectionInfo.java:107-121 | `equals` holds exactly when the hashed fields agree; changing the password changes neither |
| Connection.SameConnectionEquivalence | src/main/java/com/example/fakedatagen/model/DatabaseConnectionInfo.java:107-116 | `equals` is reflexive, symmetric and transitive |
| Service.ValidateInput | src/main/java/com/example/fakedatagen/service/DataGenerationService.java:242-262 | the input is accepted exactly when a schema is given, the record count lies within the configured bounds, connection details are given whenever insertion is requested and the schema has a table; otherwise the first failing check in the source's order is reported |
| Service.PoolSize | src/main/java/com/example/fakedatagen/service/DataGenerationService.java:293-306 | the pool size is one of the four configured sizes |
| Service.PoolSizeMonotone | src/main/java/com/example/fakedatagen/service/DataGenerationService.java:293-306 | with ascending thresholds and sizes, more records never get a smaller pool, and every pool lies between the small and the extra-large size |
| Service.DefaultPoolSizes | src/main/java/com/example/fakedatagen/config/FakeDataGenProperties.java:149-152 | with the shipped settings, counts below 1,000, 100,000 and 1,000,000 get 5, 10 and 15 connections and larger counts get 20 |
| Service.Qualifier | src/main/java/com/example/fakedatagen/service/DataGenerationService.java:224-227 | the qualifier, a dot and the unqualified name put back together give the name |
| Service.SanitizeTableName | src/main/java/com/example/fakedatagen/service/DataGenerationService.java:224-232 | the quoted name is wrapped in square brackets |
| Service.ReadEscaped | src/main/java/com/example/fakedatagen/service/DataGenerationService.java:224-232 | a body with every `]` doubled, followed by one closing bracket, reads back as the original body |
| Service.SanitizeRoundTrip | src/main/java/com/example/fakedatagen/service/DataGenerationService.java:224-232 | quoting can be undone: the quoted text reads back as the original name, dots and brackets included |
| Service.SanitizeInjective | src/main/java/com/example/fakedatagen/service/DataGenerationService.java:224-232 | different table names never quote to the same text |
| Service.DeleteOrder | src/main/java/com/example/fakedatagen/service/DataGenerationService.java:202-207 | the tables are emptied in exactly the reverse of the insert order |
| Service.DeleteOrderInvolution | src/main/java/com/example/fakedatagen/service/DataGenerationService.java:202-207 | reversing the delete order gives the insert order back |
| Service.RunDeletes | src/main/java/com/example/fakedatagen/service/DataGenerationService.java:202-222 | the deletes all succeed exactly when the database accepts every `DELETE FROM` statement, and then the statements are those of the delete order; otherwise the error names a table of the order |
| Service.DeleteOrderSafe | src/main/java/com/example/fakedatagen/service/DataGenerationService.java:202-207 | on a schema without dependency cycles, no table is emptied before a table that depends on it |
| Service.InsertTables | src/main/java/com/example/fakedatagen/service/DataGenerationService.java:116-157 | the insert loop keeps the tables recorded before it, only records tables it was given, fails only with an error of one of those tables (a failed generation of the first table is that table's error), and succeeds whenever generation never fails and the database accepts every insert |
| Service.Record | src/main/java/com/example/fakedatagen/service/DataGenerationService.java:143-148 | recording a table sets its count to the number of generated keys and adds that number to the total, leaving the other counts alone |
| Service.RecordKeepsConsistent | src/main/java/com/example/fakedatagen/service/DataGenerationService.java:143-148 | recording a non-empty table keeps every count equal to its number of keys |
| Service.InsertedIsSumOfCounts | src/main/java/com/example/fakedatagen/service/DataGenerationService.java:115-158 | the running total is the sum of the per-table counts |
| Service.GenerateOnly | src/main/java/com/example/fakedatagen/service/DataGenerationService.java:72-92 | without insertion, the generator's exception escapes exactly when the count is negative and the schema has a table; otherwise every table of the schema gets `recordCount` generated records, nothing is counted as inserted and nothing is deleted |
| Service.InsertRun | src/main/java/com/example/fakedatagen/service/DataGenerationService.java:94-169 | with insertion, only given tables are recorded, each with records; the delete statements are those of the reverse order; and the run succeeds whenever generation never fails and the database accepts every statement |
| Service.GenerateAndInsert | src/main/java/com/example/fakedatagen/service/DataGenerationService.java:60-179 | a rejected input is reported before anything is generated; otherwise the insert flag chooses between the generate-only path and the insert path |
| Service.ValidatedCountGenerates | src/main/java/com/example/fakedatagen/service/DataGenerationService.java:246-254 | with a non-negative minimum record count, a count that passes the input checks never makes the generator throw, on either path |
| Service.NegativeCountFails | src/main/java/com/example/fakedatagen/service/DataGenerationService.java:246-254 | a negative minimum lets a negative count through the checks, and then both paths fail on a schema of plain table names |
| Service.TotalIsSumOfCounts | src/main/java/com/example/fakedatagen/service/DataGenerationService.java:112-169 | the total inserted the service reports is the sum of the per-table counts |

## Left out

- Regular-expression scanning of the schema text is not modelled. Each extractor takes the groups a match captured as input, and what is modelled exactly is the normalisation of each match.
- Composite foreign keys are not modelled. A foreign key carries one column and one referenced column, as the extractor builds it.
- JDBC, Spring, the connection pool, transactions, `RetryHelper`, `MemoryMonitor`, `PerformanceMetrics`, logging, `recordFakerMapping`, `toString`, `testConnection`, `closeDataSource`, `tableExists` and `getActualDataFromTable` are left out. They perform I/O or only report, and the database's answers are parameters instead.
- The exception wrapping and logging in `CubridSchemaParser` (lines 118-123) is left out. A failure is an error value.
- Faker is a deterministic function of (table, column, row). Java draws fresh randomness on every call. The contracts quantify over every such function, so they hold for any sequence of draws.
- Floating-point draws (`double` columns, retry back-off) are described by their range and are not computed.
- `HashMap` iteration order is a parameter wherever the program depends on it: the "first value" fallback of the key-and-record resolver, and last-wins filing.
- Strings.Lower: case mapping, `equalsIgnoreCase` and the decimal parsing in `Conversion` are ASCII-only. Java folds case and reads digits over all of Unicode, and schema identifiers are ASCII in practice.
- Schema.TableBySchemaAndName: a `null` schema name is modelled as the empty string. The `NullPointerException` that `getTableBySchemaAndName` throws for a table without a schema name (DatabaseSchema.java line 80) is therefore never reproduced. Every other reader treats `null` and empty alike.
- The check-condition, referenced-table and referenced-column fields of `Constraint` are dropped. No modelled operation reads them.
- Generator.GenerateFakeData: its own contract gives the table names and record counts only. What the records hold is stated by `Generator.GeneratedFromEarlierTables` and `Generator.ForeignKeyReadsEarlierTable`.
- BasicValue.UniqueValue: the row index is an unbounded `nat`. The service caps the record count at 10,000,000, below which Java's `int` and `long` arithmetic in the unique-value path never wraps.
- Service.ValidateInput: it follows the code, which rejects an insert request without connection details. The service's test expects the generate-only path instead.

## Findings

| source | as written | input that shows it | evidently intended | confidence | as-written member | corrected member |
|---|---|---|---|---|---|---|
| src/main/java/com/example/fakedatagen/generator/BasicValueGenerator.java:246-261 | `smallint` is tested after `int`, and the lower-cased `smallint` contains `int`, so a `smallint` column draws from the full 32-bit range | a non-key `smallint` column, for which Faker may return 40000, above SMALLINT's 32767 | `short` and `smallint` are tested before `int`, giving a value in -32768..32767 | not executed | TypeFacts.SmallintOverflowsAsWritten | TypeFacts.SmallintFitsCorrected |
| src/main/java/com/example/fakedatagen/repository/DatabaseInsertRepository.java:451-467 | for a table without identity columns, each record binds one parameter per name in `columnNames`, while the SQL lists only `finalColumnNames` (lines 394-405), which drops nullable columns whose first-record value is null | a NOT NULL column `a`, a nullable column `b` and a first record `{a: 1, b: null}`: one placeholder, two parameters | one parameter per column the SQL lists | not executed | InsertRepository.TemplateAsWrittenOverbinds | InsertRepository.TemplateMatchesPlaceholders |
