/** The relationship value generator: the value of a column that a relationship ties to another
    table, chosen from the rows or primary keys already generated for that table. Three entry
    points share one dispatch on the relationship's kind; they differ in where they look:
    `FromRows` reads generated records under the table's name as written, `FromKeys` reads
    generated primary keys under the table's unqualified name, and `FromData` tries records and
    then keys, both under the unqualified name. */
module RelationshipValues {
  import opened Wrappers
  import opened Strings
  import opened Schema
  import opened Values
  import BasicValue
  import Analyzer

  /** Children per parent when a one-to-many link reads keys or generated data. */
  const KeyChildrenPerParent: nat := 3

  /** The record-based one-to-many selector draws its children per parent from
      `numberBetween(2, 6)`: at least 2 and below 6. */
  const MinChildren: nat := 2
  const ChildrenBound: nat := 6

  /** The record-reading selectors read the first source or target column; a relationship without
      one would make them throw. */
  predicate HasColumns(rel: Relationship) {
    |rel.sourceColumns| > 0 && |rel.targetColumns| > 0
  }

  // ---------------------------------------------------------------------------
  // Picking an element of a generated list
  // ---------------------------------------------------------------------------

  /** Element `i` of the non-empty list stored under `name`, when the list is that long. */
  function AtIndex<T>(m: map<string, seq<T>>, name: string, i: nat): (r: Option<T>)
    ensures r.Some? <==> name in m && i < |m[name]|
    ensures r.Some? ==> r.value == m[name][i]
  {
    if name in m && |m[name]| > 0 && i < |m[name]| then Some(m[name][i]) else None
  }

  /** Round-robin over the non-empty list stored under `name`. */
  function Cycling<T>(m: map<string, seq<T>>, name: string, i: nat): (r: Option<T>)
    ensures r.Some? <==> name in m && |m[name]| > 0
    ensures r.Some? ==> r.value in m[name] && r.value == m[name][i % |m[name]|]
  {
    if name in m && |m[name]| > 0 then Some(m[name][i % |m[name]|]) else None
  }

  /** Round-robin over the list under `a`, taken only when the list under `b` is non-empty as
      well (the many-to-many selectors demand both tables). */
  function CyclingBoth<T>(m: map<string, seq<T>>, a: string, b: string, i: nat): (r: Option<T>)
    ensures r.Some? <==> a in m && b in m && |m[a]| > 0 && |m[b]| > 0
    ensures r.Some? ==> r == Cycling(m, a, i)
  {
    if a in m && b in m then
      if |m[a]| > 0 && |m[b]| > 0 then Cycling(m, a, i) else None
    else None
  }

  datatype Side = SourceSide | TargetSide

  /** The side of a composite-key relationship a column is served from: the source side when it
      is a source column and the source table has an entry in `m`; else the target side when it is
      a target column and the target table has an entry. A present but empty entry still claims
      the side, so the other side is not tried. */
  function CompositeSide<T>(rel: Relationship, column: string, m: map<string, seq<T>>, s: string, t: string): (r: Option<Side>)
    ensures r == Some(SourceSide) <==> column in rel.sourceColumns && s in m
    ensures r == Some(TargetSide) ==> column in rel.targetColumns && t in m
    ensures r.None? ==> (column !in rel.sourceColumns || s !in m) && (column !in rel.targetColumns || t !in m)
  {
    if column in rel.sourceColumns && s in m then Some(SourceSide)
    else if column in rel.targetColumns && t in m then Some(TargetSide)
    else None
  }

  /** The value of `column` in the picked record. */
  function Field(o: Option<Row>, column: string): (r: Option<Value>)
    ensures r.Some? <==> o.Some?
    ensures r.Some? ==> r.value == Get(o.value, column)
  {
    match o
    case Some(row) => Some(Get(row, column))
    case None => None
  }

  /** The picked key as a value. */
  function Key(o: Option<int>): (r: Option<Value>)
    ensures r.Some? <==> o.Some?
    ensures r.Some? ==> r.value == VInt(o.value)
  {
    match o
    case Some(k) => Some(VInt(k))
    case None => None
  }

  function CompositeFields(rel: Relationship, column: string, i: nat, m: RowsMap, s: string, t: string): (r: Option<Value>)
    ensures r.Some? ==>
      (|rel.sourceColumns| > 0 && InRows(r.value, m, s, rel.sourceColumns[0])) ||
      (|rel.targetColumns| > 0 && InRows(r.value, m, t, rel.targetColumns[0]))
  {
    match CompositeSide(rel, column, m, s, t)
    case Some(SourceSide) => Field(Cycling(m, s, i), rel.sourceColumns[0])
    case Some(TargetSide) => Field(Cycling(m, t, i), rel.targetColumns[0])
    case None => None
  }

  function CompositeKeys(rel: Relationship, column: string, i: nat, m: KeysMap, s: string, t: string): (r: Option<Value>)
    ensures r.Some? ==> InKeys(r.value, m, s) || InKeys(r.value, m, t)
  {
    match CompositeSide(rel, column, m, s, t)
    case Some(SourceSide) => Key(Cycling(m, s, i))
    case Some(TargetSide) => Key(Cycling(m, t, i))
    case None => None
  }

  // ---------------------------------------------------------------------------
  // Dispatch on the relationship's kind
  // ---------------------------------------------------------------------------

  /** Which selector serves a column. */
  datatype Strategy =
    | OneToOneStrategy      // record or key number `index` of the target
    | OneToManyStrategy     // the parent owning child number `index` of the source
    | ManyToOneStrategy     // round-robin over the target
    | ManyToManyStrategy    // round-robin, demanding both tables
    | CompositeKeyStrategy  // round-robin over the side the column belongs to

  /** The dispatch every entry point performs: a many-to-one link whose column is unique (compared
      without regard to case) is served one-to-one, and a many-to-many link whose source has a
      composite primary key is served by the composite-key selector. */
  function StrategyOf(rel: Relationship, column: string): (r: Strategy)
    ensures r == OneToOneStrategy <==>
      rel.kind == OneToOne || (rel.kind == ManyToOne && BasicValue.HasUniqueConstraint(rel.source, column))
    ensures r == OneToManyStrategy <==> rel.kind == OneToMany
    ensures r == ManyToOneStrategy <==>
      rel.kind == ManyToOne && !BasicValue.HasUniqueConstraint(rel.source, column)
    ensures r == ManyToManyStrategy <==>
      rel.kind == ManyToMany && !Analyzer.IsCompositePrimaryKeyTable(rel.source)
    ensures r == CompositeKeyStrategy <==>
      rel.kind == ManyToMany && Analyzer.IsCompositePrimaryKeyTable(rel.source)
  {
    match rel.kind
    case OneToOne => OneToOneStrategy
    case OneToMany => OneToManyStrategy
    case ManyToOne =>
      if BasicValue.HasUniqueConstraint(rel.source, column) then OneToOneStrategy else ManyToOneStrategy
    case ManyToMany =>
      if Analyzer.IsCompositePrimaryKeyTable(rel.source) then CompositeKeyStrategy else ManyToManyStrategy
  }

  /** The record a selector reads from a record map, with `s` and `t` the names it looks the
      source and target under. The record-based many-to-many selector reads the target's records
      and every other many-to-many selector the source's, hence `pairFromTarget`. */
  function PickRecord(st: Strategy, rel: Relationship, column: string, i: nat, m: RowsMap,
                      s: string, t: string, children: nat, pairFromTarget: bool): (r: Option<Value>)
    requires HasColumns(rel) && children > 0
    ensures r.Some? ==> InRows(r.value, m, s, rel.sourceColumns[0]) || InRows(r.value, m, t, rel.targetColumns[0])
  {
    match st
    case OneToOneStrategy => Field(AtIndex(m, t, i), rel.targetColumns[0])
    case OneToManyStrategy => Field(AtIndex(m, s, i / children), rel.sourceColumns[0])
    case ManyToOneStrategy => Field(Cycling(m, t, i), rel.targetColumns[0])
    case ManyToManyStrategy =>
      if pairFromTarget then Field(CyclingBoth(m, t, s, i), rel.targetColumns[0])
      else Field(CyclingBoth(m, s, t, i), rel.sourceColumns[0])
    case CompositeKeyStrategy => CompositeFields(rel, column, i, m, s, t)
  }

  /** The key a selector reads from a key map. */
  function PickKey(st: Strategy, rel: Relationship, column: string, i: nat, m: KeysMap,
                   s: string, t: string): (r: Option<Value>)
    ensures r.Some? ==> InKeys(r.value, m, s) || InKeys(r.value, m, t)
  {
    match st
    case OneToOneStrategy => Key(AtIndex(m, t, i))
    case OneToManyStrategy => Key(AtIndex(m, s, i / KeyChildrenPerParent))
    case ManyToOneStrategy => Key(Cycling(m, t, i))
    case ManyToManyStrategy => Key(CyclingBoth(m, s, t, i))
    case CompositeKeyStrategy => CompositeKeys(rel, column, i, m, s, t)
  }

  /** What the record-based selectors return when they find nothing: `index + 1` for the
      one-to-one and many-to-one selectors, `1` for the others. */
  function RecordFallback(st: Strategy, i: nat): (r: Value)
    ensures r == VInt(1) || r == VInt(Succ(i))
  {
    if st == OneToOneStrategy || st == ManyToOneStrategy then VInt(Succ(i)) else VInt(1)
  }

  // ---------------------------------------------------------------------------
  // Entry points
  // ---------------------------------------------------------------------------

  /** `generateFromFakeData`: records are looked up under the table names as written;
      `children` is the one-to-many selector's draw from `numberBetween(2, 6)`. */
  function FromRows(rel: Relationship, column: string, i: nat, rows: RowsMap, children: nat): (r: Value)
    requires HasColumns(rel)
    requires MinChildren <= children < ChildrenBound
    ensures r == VInt(1) || r == VInt(Succ(i))
         || InRows(r, rows, rel.source.name, rel.sourceColumns[0])
         || InRows(r, rows, rel.target.name, rel.targetColumns[0])
  {
    var st := StrategyOf(rel, column);
    PickRecord(st, rel, column, i, rows, rel.source.name, rel.target.name, children, true)
      .GetOr(RecordFallback(st, i))
  }

  /** `generateFromKeys`: keys are looked up under the unqualified table names. */
  function FromKeys(rel: Relationship, column: string, i: nat, keys: KeysMap): (r: Value)
    ensures r == VInt(Succ(i))
         || InKeys(r, keys, Unqualified(rel.source.name))
         || InKeys(r, keys, Unqualified(rel.target.name))
  {
    PickKey(StrategyOf(rel, column), rel, column, i, keys,
            Unqualified(rel.source.name), Unqualified(rel.target.name))
      .GetOr(VInt(Succ(i)))
  }

  /** `generateFromData`: generated records first, then generated keys, both under the
      unqualified table names, and `index + 1` when neither serves. */
  function FromData(rel: Relationship, column: string, i: nat, keys: KeysMap, data: RowsMap): (r: Value)
    requires HasColumns(rel)
    ensures r == VInt(Succ(i))
         || InRows(r, data, Unqualified(rel.source.name), rel.sourceColumns[0])
         || InRows(r, data, Unqualified(rel.target.name), rel.targetColumns[0])
         || InKeys(r, keys, Unqualified(rel.source.name))
         || InKeys(r, keys, Unqualified(rel.target.name))
  {
    var st := StrategyOf(rel, column);
    var s, t := Unqualified(rel.source.name), Unqualified(rel.target.name);
    match PickRecord(st, rel, column, i, data, s, t, KeyChildrenPerParent, false)
    case Some(v) => v
    case None => PickKey(st, rel, column, i, keys, s, t).GetOr(VInt(Succ(i)))
  }

  // ---------------------------------------------------------------------------
  // Properties
  // ---------------------------------------------------------------------------

  /** A many-to-one link over a unique column is served exactly as if it were one-to-one, by all
      three entry points. */
  lemma UniqueManyToOneServedOneToOne(rel: Relationship, column: string, i: nat, rows: RowsMap,
                                      children: nat, keys: KeysMap, data: RowsMap)
    requires rel.kind == ManyToOne && BasicValue.HasUniqueConstraint(rel.source, column)
    requires HasColumns(rel) && MinChildren <= children < ChildrenBound
    ensures FromRows(rel, column, i, rows, children) == FromRows(rel.(kind := OneToOne), column, i, rows, children)
    ensures FromKeys(rel, column, i, keys) == FromKeys(rel.(kind := OneToOne), column, i, keys)
    ensures FromData(rel, column, i, keys, data) == FromData(rel.(kind := OneToOne), column, i, keys, data)
  {
  }

  /** The links the analyzer derives from a foreign key are never one-to-many, and are served by
      the plain many-to-many selector never: a many-to-many link always has a composite-key
      source, so it goes to the composite-key selector. */
  lemma AnalyzedLinkStrategy(source: Table, fk: ForeignKey, rel: Relationship)
    requires rel.source == source && rel.kind == Analyzer.Classify(source, fk)
    ensures StrategyOf(rel, fk.columnName) != OneToManyStrategy
    ensures StrategyOf(rel, fk.columnName) != ManyToManyStrategy
    ensures StrategyOf(rel, fk.columnName) == CompositeKeyStrategy <==>
      Analyzer.IsCompositePrimaryKeyTable(source) && !Analyzer.HasUniqueConstraint(source, fk.columnName)
  {
  }

  /** Pairwise distinct elements. */
  predicate Distinct<T(==)>(xs: seq<T>) {
    forall a, b :: 0 <= a < b < |xs| ==> xs[a] != xs[b]
  }

  /** One-to-one links hand out each generated key once: different row indexes within the key
      list receive different keys. */
  lemma OneToOneKeysDistinct(rel: Relationship, column: string, i: nat, j: nat, keys: KeysMap)
    requires StrategyOf(rel, column) == OneToOneStrategy
    requires Unqualified(rel.target.name) in keys && Distinct(keys[Unqualified(rel.target.name)])
    requires i != j && i < |keys[Unqualified(rel.target.name)]| && j < |keys[Unqualified(rel.target.name)]|
    ensures FromKeys(rel, column, i, keys) != FromKeys(rel, column, j, keys)
  {
    var ks := keys[Unqualified(rel.target.name)];
    OneToOneKeyAt(rel, column, i, keys);
    OneToOneKeyAt(rel, column, j, keys);
    if i < j { assert ks[i] != ks[j]; } else { assert ks[j] != ks[i]; }
  }

  /** One-to-one over keys: row `i` gets key number `i` while there are that many. */
  lemma OneToOneKeyAt(rel: Relationship, column: string, i: nat, keys: KeysMap)
    requires StrategyOf(rel, column) == OneToOneStrategy
    requires Unqualified(rel.target.name) in keys && i < |keys[Unqualified(rel.target.name)]|
    ensures FromKeys(rel, column, i, keys) == VInt(keys[Unqualified(rel.target.name)][i])
  {
  }

  /** The same for records: when the target's records carry pairwise distinct values in the
      referenced column, different row indexes within the record list receive different values. */
  lemma OneToOneRowsDistinct(rel: Relationship, column: string, i: nat, j: nat, rows: RowsMap, children: nat)
    requires HasColumns(rel) && MinChildren <= children < ChildrenBound
    requires StrategyOf(rel, column) == OneToOneStrategy
    requires rel.target.name in rows
    requires i != j && i < |rows[rel.target.name]| && j < |rows[rel.target.name]|
    requires forall a, b :: 0 <= a < b < |rows[rel.target.name]| ==>
      Get(rows[rel.target.name][a], rel.targetColumns[0]) != Get(rows[rel.target.name][b], rel.targetColumns[0])
    ensures FromRows(rel, column, i, rows, children) != FromRows(rel, column, j, rows, children)
  {
    var rs := rows[rel.target.name];
    var c := rel.targetColumns[0];
    if i < j { assert Get(rs[i], c) != Get(rs[j], c); } else { assert Get(rs[j], c) != Get(rs[i], c); }
  }

  /** One-to-many over keys: parent key number `p` is given to the three child rows
      `i = 3p + c`, `c < 3`. */
  lemma OneToManyKeyFamilies(rel: Relationship, column: string, i: nat, p: nat, c: nat, keys: KeysMap)
    requires StrategyOf(rel, column) == OneToManyStrategy
    requires Unqualified(rel.source.name) in keys && p < |keys[Unqualified(rel.source.name)]|
    requires c < KeyChildrenPerParent && i == KeyChildrenPerParent * p + c
    ensures FromKeys(rel, column, i, keys) == VInt(keys[Unqualified(rel.source.name)][p])
  {
    DivModUnique(i, KeyChildrenPerParent, p, c);
    OneToManyKeyAt(rel, column, i, keys, p);
  }

  /** A one-to-many row whose parent number `q` lies within the parent's keys gets key `q`. */
  lemma OneToManyKeyAt(rel: Relationship, column: string, i: nat, keys: KeysMap, q: nat)
    requires StrategyOf(rel, column) == OneToManyStrategy
    requires i / KeyChildrenPerParent == q
    requires Unqualified(rel.source.name) in keys && q < |keys[Unqualified(rel.source.name)]|
    ensures FromKeys(rel, column, i, keys) == VInt(keys[Unqualified(rel.source.name)][q])
  {
    var s, t := Unqualified(rel.source.name), Unqualified(rel.target.name);
    assert PickKey(OneToManyStrategy, rel, column, i, keys, s, t) == Some(VInt(keys[s][q]));
  }

  /** Rows past three per parent key fall back to `index + 1`. */
  lemma OneToManyKeysExhausted(rel: Relationship, column: string, i: nat, keys: KeysMap)
    requires StrategyOf(rel, column) == OneToManyStrategy
    requires Unqualified(rel.source.name) in keys
    requires i >= KeyChildrenPerParent * |keys[Unqualified(rel.source.name)]|
    ensures FromKeys(rel, column, i, keys) == VInt(Succ(i))
  {
    var s, t := Unqualified(rel.source.name), Unqualified(rel.target.name);
    DivModUnique(i, KeyChildrenPerParent, i / KeyChildrenPerParent, i % KeyChildrenPerParent);
    assert PickKey(OneToManyStrategy, rel, column, i, keys, s, t).None?;
  }

  /** One-to-many over records: a call for row `children * p + c` (with `c < children`) whose
      own draw is `children` references parent record number `p`. The draw is made afresh on each
      call, so rows of one table need not share it and this is not a grouping of the table's
      rows into families of equal size. */
  lemma OneToManyRowFamilies(rel: Relationship, column: string, p: nat, c: nat, rows: RowsMap, children: nat)
    requires HasColumns(rel) && MinChildren <= children < ChildrenBound
    requires StrategyOf(rel, column) == OneToManyStrategy
    requires rel.source.name in rows && p < |rows[rel.source.name]| && c < children
    ensures FromRows(rel, column, children * p + c, rows, children) ==
      Get(rows[rel.source.name][p], rel.sourceColumns[0])
  {
    DivModUnique(children * p + c, children, p, c);
  }

  /** Round-robin picks repeat with the list's length as period. */
  lemma CyclingPeriodic<T>(m: map<string, seq<T>>, name: string, i: nat)
    requires name in m && |m[name]| > 0
    ensures Cycling(m, name, i + |m[name]|) == Cycling(m, name, i)
  {
    var n := |m[name]|;
    DivModUnique(i + n, n, i / n + 1, i % n);
  }

  /** Many-to-one over keys: row `k` below the number of target keys gets key `k`, so every key
      is referenced. */
  lemma ManyToOneKeysCover(rel: Relationship, column: string, k: nat, keys: KeysMap)
    requires StrategyOf(rel, column) == ManyToOneStrategy
    requires Unqualified(rel.target.name) in keys && k < |keys[Unqualified(rel.target.name)]|
    ensures FromKeys(rel, column, k, keys) == VInt(keys[Unqualified(rel.target.name)][k])
  {
    var ks := keys[Unqualified(rel.target.name)];
    DivModUnique(k, |ks|, 0, k);
  }

  /** ... and the assignment repeats with the number of keys as period. */
  lemma ManyToOneKeysPeriodic(rel: Relationship, column: string, i: nat, keys: KeysMap)
    requires StrategyOf(rel, column) == ManyToOneStrategy
    requires Unqualified(rel.target.name) in keys && |keys[Unqualified(rel.target.name)]| > 0
    ensures FromKeys(rel, column, i + |keys[Unqualified(rel.target.name)]|, keys) == FromKeys(rel, column, i, keys)
  {
    CyclingPeriodic(keys, Unqualified(rel.target.name), i);
  }

  /** A relationship whose two tables carry the schema prefix `q`. */
  function Qualify(rel: Relationship, q: string): Relationship {
    rel.(source := rel.source.(name := q + "." + rel.source.name),
         target := rel.target.(name := q + "." + rel.target.name))
  }

  /** Renaming the tables leaves the dispatch alone: it reads only the kind and the source's
      constraints. */
  lemma StrategyIgnoresNames(rel: Relationship, rel': Relationship, column: string)
    requires rel'.kind == rel.kind && rel'.source.constraints == rel.source.constraints
    ensures StrategyOf(rel', column) == StrategyOf(rel, column)
  {
  }

  /** Qualifying dot-free names leaves their unqualified forms, and the dispatch, unchanged. */
  lemma QualifyPreserves(rel: Relationship, q: string, column: string)
    requires '.' !in rel.source.name && '.' !in rel.target.name
    ensures Unqualified(Qualify(rel, q).source.name) == rel.source.name
    ensures Unqualified(Qualify(rel, q).target.name) == rel.target.name
    ensures StrategyOf(Qualify(rel, q), column) == StrategyOf(rel, column)
  {
    UnqualifiedOfQualified(q, rel.source.name);
    UnqualifiedOfQualified(q, rel.target.name);
    StrategyIgnoresNames(rel, Qualify(rel, q), column);
  }

  /** The selectors read a relationship's columns, never its tables. */
  lemma PicksReadColumnsOnly(st: Strategy, rel: Relationship, rel': Relationship, column: string, i: nat,
                             keys: KeysMap, data: RowsMap, s: string, t: string)
    requires rel'.sourceColumns == rel.sourceColumns && rel'.targetColumns == rel.targetColumns
    ensures PickKey(st, rel', column, i, keys, s, t) == PickKey(st, rel, column, i, keys, s, t)
    ensures HasColumns(rel) ==>
      PickRecord(st, rel', column, i, data, s, t, KeyChildrenPerParent, false) ==
      PickRecord(st, rel, column, i, data, s, t, KeyChildrenPerParent, false)
  {
    assert CompositeSide(rel', column, keys, s, t) == CompositeSide(rel, column, keys, s, t);
    assert CompositeSide(rel', column, data, s, t) == CompositeSide(rel, column, data, s, t);
  }

  /** The key-based entry point ignores a schema prefix on the table names. */
  lemma KeysIgnoreQualifier(rel: Relationship, q: string, column: string, i: nat, keys: KeysMap)
    requires '.' !in rel.source.name && '.' !in rel.target.name
    ensures FromKeys(Qualify(rel, q), column, i, keys) == FromKeys(rel, column, i, keys)
  {
    QualifyPreserves(rel, q, column);
    PicksReadColumnsOnly(StrategyOf(rel, column), rel, Qualify(rel, q), column, i, keys, map[],
                         rel.source.name, rel.target.name);
  }

  /** So does the data-based one. */
  lemma DataIgnoresQualifier(rel: Relationship, q: string, column: string, i: nat, keys: KeysMap, data: RowsMap)
    requires HasColumns(rel)
    requires '.' !in rel.source.name && '.' !in rel.target.name
    ensures FromData(Qualify(rel, q), column, i, keys, data) == FromData(rel, column, i, keys, data)
  {
    var rel' := Qualify(rel, q);
    var st, s, t := StrategyOf(rel, column), rel.source.name, rel.target.name;
    QualifyPreserves(rel, q, column);
    PicksReadColumnsOnly(st, rel, rel', column, i, keys, data, s, t);
    assert FromData(rel', column, i, keys, data) ==
      match PickRecord(st, rel', column, i, data, s, t, KeyChildrenPerParent, false)
      case Some(v) => v
      case None => PickKey(st, rel', column, i, keys, s, t).GetOr(VInt(Succ(i)));
  }

  /** The record-based entry point does not: when neither table name, as written, has records,
      it falls back. */
  lemma RowsNeedNameAsWritten(rel: Relationship, column: string, i: nat, rows: RowsMap, children: nat)
    requires HasColumns(rel) && MinChildren <= children < ChildrenBound
    requires rel.source.name !in rows && rel.target.name !in rows
    ensures FromRows(rel, column, i, rows, children) == RecordFallback(StrategyOf(rel, column), i)
  {
  }

  /** No selector finds a record in an empty record map. */
  lemma NoRecordsNoPick(st: Strategy, rel: Relationship, column: string, i: nat, s: string, t: string)
    requires HasColumns(rel)
    ensures PickRecord(st, rel, column, i, map[], s, t, KeyChildrenPerParent, false).None?
  {
  }

  /** With no generated records, the data-based entry point is the key-based one. */
  lemma DataWithoutRecordsIsKeys(rel: Relationship, column: string, i: nat, keys: KeysMap)
    requires HasColumns(rel)
    ensures FromData(rel, column, i, keys, map[]) == FromKeys(rel, column, i, keys)
  {
    NoRecordsNoPick(StrategyOf(rel, column), rel, column, i, Unqualified(rel.source.name), Unqualified(rel.target.name));
  }

  /** Records take precedence: once a record serves the column, the keys do not matter. */
  lemma DataPrefersRecords(rel: Relationship, column: string, i: nat, keys1: KeysMap, keys2: KeysMap, data: RowsMap)
    requires HasColumns(rel)
    requires PickRecord(StrategyOf(rel, column), rel, column, i, data, Unqualified(rel.source.name),
                        Unqualified(rel.target.name), KeyChildrenPerParent, false).Some?
    ensures FromData(rel, column, i, keys1, data) == FromData(rel, column, i, keys2, data)
  {
  }

  /** On unqualified names and with three children per parent, the data-based and record-based
      entry points agree whenever a record serves the column, for every selector except the plain
      many-to-many one. */
  lemma DataAgreesWithRows(rel: Relationship, column: string, i: nat, keys: KeysMap, data: RowsMap)
    requires HasColumns(rel)
    requires '.' !in rel.source.name && '.' !in rel.target.name
    requires StrategyOf(rel, column) != ManyToManyStrategy
    requires PickRecord(StrategyOf(rel, column), rel, column, i, data, rel.source.name,
                        rel.target.name, KeyChildrenPerParent, true).Some?
    ensures FromData(rel, column, i, keys, data) == FromRows(rel, column, i, data, KeyChildrenPerParent)
  {
  }

  /** The plain many-to-many selectors disagree on the side: the record-based one reads the
      target's records, the data-based one the source's. */
  lemma ManyToManySides(rel: Relationship, column: string, i: nat, keys: KeysMap, data: RowsMap, children: nat)
    requires HasColumns(rel) && MinChildren <= children < ChildrenBound
    requires '.' !in rel.source.name && '.' !in rel.target.name
    requires StrategyOf(rel, column) == ManyToManyStrategy
    requires rel.source.name in data && rel.target.name in data
    requires |data[rel.source.name]| > 0 && |data[rel.target.name]| > 0
    ensures var ts := data[rel.target.name];
      FromRows(rel, column, i, data, children) == Get(ts[i % |ts|], rel.targetColumns[0])
    ensures var ss := data[rel.source.name];
      FromData(rel, column, i, keys, data) == Get(ss[i % |ss|], rel.sourceColumns[0])
  {
  }

  /** Composite keys: a source column is served from the source's keys only; once the source has
      an entry, even an empty one, the target is not consulted. A column that is only a target
      column is served from the target's keys. */
  lemma CompositeKeysFromOwnSide(rel: Relationship, column: string, i: nat, keys: KeysMap)
    requires StrategyOf(rel, column) == CompositeKeyStrategy
    ensures var s := Unqualified(rel.source.name);
      column in rel.sourceColumns && s in keys ==>
        if |keys[s]| > 0 then FromKeys(rel, column, i, keys) == VInt(keys[s][i % |keys[s]|])
        else FromKeys(rel, column, i, keys) == VInt(Succ(i))
    ensures var t := Unqualified(rel.target.name);
      column !in rel.sourceColumns && column in rel.targetColumns && t in keys ==>
        if |keys[t]| > 0 then FromKeys(rel, column, i, keys) == VInt(keys[t][i % |keys[t]|])
        else FromKeys(rel, column, i, keys) == VInt(Succ(i))
    ensures column !in rel.sourceColumns && column !in rel.targetColumns ==>
      FromKeys(rel, column, i, keys) == VInt(Succ(i))
  {
    var s, t := Unqualified(rel.source.name), Unqualified(rel.target.name);
    var side := CompositeSide(rel, column, keys, s, t);
    if side == Some(SourceSide) {
      CompositeKeyFrom(rel, column, i, keys, s);
    } else if side == Some(TargetSide) {
      CompositeKeyFrom(rel, column, i, keys, t);
    } else {
      CompositeKeyNone(rel, column, i, keys);
    }
  }

  /** A composite-key column served from the keys under `n` cycles through them, and falls back
      to `index + 1` when they are empty. */
  lemma CompositeKeyFrom(rel: Relationship, column: string, i: nat, keys: KeysMap, n: string)
    requires StrategyOf(rel, column) == CompositeKeyStrategy && n in keys
    requires CompositeKeys(rel, column, i, keys, Unqualified(rel.source.name), Unqualified(rel.target.name))
             == Key(Cycling(keys, n, i))
    ensures if |keys[n]| > 0 then FromKeys(rel, column, i, keys) == VInt(keys[n][i % |keys[n]|])
            else FromKeys(rel, column, i, keys) == VInt(Succ(i))
  {
  }

  lemma CompositeKeyNone(rel: Relationship, column: string, i: nat, keys: KeysMap)
    requires StrategyOf(rel, column) == CompositeKeyStrategy
    requires CompositeSide(rel, column, keys, Unqualified(rel.source.name), Unqualified(rel.target.name)).None?
    ensures FromKeys(rel, column, i, keys) == VInt(Succ(i))
  {
  }
}
