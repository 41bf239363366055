/** The five extractors of the schema parser. Each scans the CUBRID schema text with a regular
    expression and post-processes every match. The scanning itself is not modelled: each match
    arrives as the tuple of its captured groups, in the order the matcher finds them. What is
    modelled exactly is the per-match normalisation (lower-casing, trimming, bracket stripping,
    comma splitting, the reference-column choice) and the way results are filed under table keys
    in a `HashMap<String, List<...>>`. */
module Extractors {
  import opened Wrappers
  import opened Strings
  import opened Seqs
  import opened Schema

  // ---------------------------------------------------------------------------
  // Filing lists under table keys
  // ---------------------------------------------------------------------------

  /** The list under `key`, empty when there is none (`getOrDefault(key, emptyList())`). */
  function ListOf<T>(m: map<string, seq<T>>, key: string): seq<T> {
    if key in m then m[key] else []
  }

  /** What one match contributes: `items` appended to the list of `key`. With `always` the list
      is created even when nothing is appended (`computeIfAbsent` ahead of the loop); without it
      only an appended item creates it (`computeIfAbsent` inside the loop). */
  datatype Entry<T> = Entry(key: string, items: seq<T>, always: bool)

  predicate Creates<T>(e: Entry<T>) {
    e.always || e.items != []
  }

  /** Reference definition: the keys some entry creates. */
  function Mentioned<T>(es: seq<Entry<T>>): set<string> {
    if |es| == 0 then {} else (if Creates(es[0]) then {es[0].key} else {}) + Mentioned(es[1..])
  }

  /** Reference definition: the items of the entries for `key`, in entry order. */
  function Gathered<T>(es: seq<Entry<T>>, key: string): seq<T> {
    if |es| == 0 then [] else (if es[0].key == key then es[0].items else []) + Gathered(es[1..], key)
  }

  function File<T>(m: map<string, seq<T>>, e: Entry<T>): (r: map<string, seq<T>>)
    ensures r.Keys == m.Keys + (if Creates(e) then {e.key} else {})
    ensures forall key :: key in r ==> r[key] == ListOf(m, key) + (if e.key == key then e.items else [])
  {
    if Creates(e) then m[e.key := ListOf(m, e.key) + e.items] else m
  }

  /** The map after filing the entries in turn: each key holds what it held before followed by
      the items gathered for it, and exactly the created keys are added. */
  function {:induction false} FileAll<T>(m: map<string, seq<T>>, es: seq<Entry<T>>): (r: map<string, seq<T>>)
    ensures r.Keys == m.Keys + Mentioned(es)
    ensures forall key :: key in r ==> r[key] == ListOf(m, key) + Gathered(es, key)
    decreases |es|
  {
    if |es| == 0 then m
    else
      var r := FileAll(File(m, es[0]), es[1..]);
      FileAllStep(m, es, r);
      r
  }

  /** One entry filed, then the rest: what `FileAll` needs from its recursive call. */
  lemma FileAllStep<T>(m: map<string, seq<T>>, es: seq<Entry<T>>, r: map<string, seq<T>>)
    requires |es| > 0
    requires var m' := File(m, es[0]);
      r.Keys == m'.Keys + Mentioned(es[1..])
      && forall key :: key in r ==> r[key] == ListOf(m', key) + Gathered(es[1..], key)
    ensures r.Keys == m.Keys + Mentioned(es)
    ensures forall key :: key in r ==> r[key] == ListOf(m, key) + Gathered(es, key)
  {
    FileAllKeys(m, es, r.Keys);
    FileAllLists(m, es, r);
  }

  lemma FileAllKeys<T>(m: map<string, seq<T>>, es: seq<Entry<T>>, keys: set<string>)
    requires |es| > 0
    requires keys == File(m, es[0]).Keys + Mentioned(es[1..])
    ensures keys == m.Keys + Mentioned(es)
  {
  }

  lemma FileAllLists<T>(m: map<string, seq<T>>, es: seq<Entry<T>>, r: map<string, seq<T>>)
    requires |es| > 0
    requires forall key :: key in r ==> r[key] == ListOf(File(m, es[0]), key) + Gathered(es[1..], key)
    ensures forall key :: key in r ==> r[key] == ListOf(m, key) + Gathered(es, key)
  {
    forall key | key in r
      ensures r[key] == ListOf(m, key) + Gathered(es, key)
    {
      FileAllListAt(m, es, r[key], key);
    }
  }

  lemma FileAllListAt<T>(m: map<string, seq<T>>, es: seq<Entry<T>>, list: seq<T>, key: string)
    requires |es| > 0
    requires list == ListOf(File(m, es[0]), key) + Gathered(es[1..], key)
    ensures list == ListOf(m, key) + Gathered(es, key)
  {
    var head := if es[0].key == key then es[0].items else [];
    FileListOf(m, es[0], key);
    GatheredCons(es, key);
    AppendAssoc(ListOf(m, key), head, Gathered(es[1..], key));
  }

  lemma AppendAssoc<T>(a: seq<T>, b: seq<T>, c: seq<T>)
    ensures (a + b) + c == a + (b + c)
  {
  }

  lemma FileListOf<T>(m: map<string, seq<T>>, e: Entry<T>, key: string)
    ensures ListOf(File(m, e), key) == ListOf(m, key) + (if e.key == key then e.items else [])
  {
  }

  lemma GatheredCons<T>(es: seq<Entry<T>>, key: string)
    requires |es| > 0
    ensures Gathered(es, key) == (if es[0].key == key then es[0].items else []) + Gathered(es[1..], key)
  {
  }

  /** Every item filed under a key comes from an entry for that key. */
  lemma {:induction false} GatheredFrom<T>(es: seq<Entry<T>>, key: string, x: T)
    requires x in Gathered(es, key)
    ensures exists k :: 0 <= k < |es| && es[k].key == key && x in es[k].items
    decreases |es|
  {
    var head := if es[0].key == key then es[0].items else [];
    GatheredCons(es, key);
    if x !in head {
      GatheredFrom(es[1..], key, x);
      var k :| 0 <= k < |es[1..]| && es[1..][k].key == key && x in es[1..][k].items;
      assert es[k + 1] == es[1..][k];
    }
  }

  /** A key is created exactly when some entry for it creates it. */
  lemma {:induction false} MentionedIff<T>(es: seq<Entry<T>>, key: string)
    ensures key in Mentioned(es) <==> exists k :: 0 <= k < |es| && es[k].key == key && Creates(es[k])
    decreases |es|
  {
    if |es| > 0 {
      MentionedIff(es[1..], key);
      if key in Mentioned(es[1..]) {
        var k :| 0 <= k < |es[1..]| && es[1..][k].key == key && Creates(es[1..][k]);
        assert es[k + 1] == es[1..][k];
      }
      if exists k :: 0 <= k < |es| && es[k].key == key && Creates(es[k]) {
        var k :| 0 <= k < |es| && es[k].key == key && Creates(es[k]);
        if k > 0 {
          assert es[1..][k - 1] == es[k];
        }
      }
    }
  }

  // ---------------------------------------------------------------------------
  // Keys and text clean-up
  // ---------------------------------------------------------------------------

  /** The key a match is filed under: `schema.table` when schema names are kept, the bare table
      name otherwise; both lower-cased. */
  function MatchKey(schemaName: string, tableName: string, keep: bool): (r: string)
    ensures keep ==> r == Lower(schemaName) + "." + Lower(tableName)
    ensures !keep ==> r == Lower(tableName)
  {
    if keep then Lower(schemaName) + "." + Lower(tableName) else Lower(tableName)
  }

  /** `replaceAll("\\[|\\]", "")`: every bracket removed, every other character kept in order. */
  function RemoveBrackets(s: string): (r: string)
    ensures '[' !in r && ']' !in r
    ensures '[' !in s && ']' !in s ==> r == s
    ensures forall c :: c in r ==> c in s
  {
    if |s| == 0 then []
    else (if s[0] == '[' || s[0] == ']' then [] else [s[0]]) + RemoveBrackets(s[1..])
  }

  lemma {:induction false} RemoveBracketsAppend(a: string, b: string)
    ensures RemoveBrackets(a + b) == RemoveBrackets(a) + RemoveBrackets(b)
    decreases |a|
  {
    if |a| > 0 {
      var head := if a[0] == '[' || a[0] == ']' then [] else [a[0]];
      assert (a + b)[0] == a[0] && (a + b)[1..] == a[1..] + b;
      assert RemoveBrackets(a) == head + RemoveBrackets(a[1..]);
      assert RemoveBrackets(a + b) == head + RemoveBrackets(a[1..] + b);
      RemoveBracketsAppend(a[1..], b);
      AppendAssoc(head, RemoveBrackets(a[1..]), RemoveBrackets(b));
    } else {
      assert a + b == b;
    }
  }

  /** Brackets around a name come off, in both positions a key list uses them. */
  lemma RemoveBracketsAround(n: string)
    requires '[' !in n && ']' !in n
    ensures RemoveBrackets("[" + n + "]") == n
    ensures RemoveBrackets("[" + n + "], ") == n + ", "
  {
    RemoveBracketsOpen(n);
    RemoveBracketsOne(']');
    RemoveBracketsAppend("[" + n, "]");
    RemoveBracketsSeparator();
    RemoveBracketsAppend("[" + n, "], ");
  }

  lemma RemoveBracketsOpen(n: string)
    requires '[' !in n && ']' !in n
    ensures RemoveBrackets("[" + n) == n
  {
    RemoveBracketsOne('[');
    RemoveBracketsAppend("[", n);
  }

  lemma RemoveBracketsSeparator()
    ensures RemoveBrackets("], ") == ", "
  {
    var sep: string := "], ";
    assert sep == [']'] + ", ";
    RemoveBracketsOne(']');
    RemoveBracketsAppend([']'], ", ");
  }

  lemma RemoveBracketsOne(c: char)
    ensures RemoveBrackets([c]) == if c == '[' || c == ']' then [] else [c]
  {
    assert [c][1..] == [];
  }

  /** The pieces of `s` between occurrences of `c`, empty pieces included, so there is one more
      piece than there are `c`s. */
  function SplitAll(s: string, c: char): (r: seq<string>)
    ensures |r| >= 1
    ensures forall k :: 0 <= k < |r| ==> c !in r[k]
    decreases |s|
  {
    if |s| == 0 then [[]]
    else
      var rest := SplitAll(s[1..], c);
      if s[0] == c then [[]] + rest else [[s[0]] + rest[0]] + rest[1..]
  }

  /** Joining the pieces with `c` gives back the text. */
  lemma {:induction false} SplitAllJoins(s: string, c: char)
    ensures Join(SplitAll(s, c), [c]) == s
    decreases |s|
  {
    if |s| > 0 {
      var rest := SplitAll(s[1..], c);
      SplitAllJoins(s[1..], c);
      if s[0] == c {
        assert s == [c] + s[1..];
      } else if |rest| == 1 {
        assert s == [s[0]] + s[1..];
      } else {
        var first := [s[0]] + rest[0];
        assert ([first] + rest[1..])[1..] == rest[1..];
        assert Join(rest, [c]) == rest[0] + [c] + Join(rest[1..], [c]);
        assert s == [s[0]] + s[1..];
      }
    }
  }

  /** Text without `c` is one piece. */
  lemma {:induction false} SplitAllNone(s: string, c: char)
    requires c !in s
    ensures SplitAll(s, c) == [s]
    decreases |s|
  {
    if |s| > 0 {
      SplitAllNone(s[1..], c);
      assert [s[0]] + s[1..] == s;
    }
  }

  /** A first piece without `c`, then `c`: the first piece splits off. */
  lemma {:induction false} SplitAllAfter(a: string, c: char, b: string)
    requires c !in a
    ensures SplitAll(a + [c] + b, c) == [a] + SplitAll(b, c)
    decreases |a|
  {
    var s := a + [c] + b;
    if |a| == 0 {
      assert s[1..] == b;
    } else {
      assert s[1..] == a[1..] + [c] + b;
      SplitAllAfter(a[1..], c, b);
      assert [a[0]] + a[1..] == a;
    }
  }

  /** The pieces up to the last non-empty one. */
  function DropTrailingEmpty(xs: seq<string>): (r: seq<string>)
    ensures |r| <= |xs| && r == xs[..|r|]
    ensures |r| == 0 || r[|r| - 1] != []
    ensures forall k :: |r| <= k < |xs| ==> xs[k] == []
  {
    if |xs| == 0 || xs[|xs| - 1] != [] then xs else DropTrailingEmpty(xs[..|xs| - 1])
  }

  /** `String.split` on one character: text without the character is returned whole; otherwise
      the pieces between occurrences, with trailing empty pieces dropped. */
  function JavaSplit(s: string, c: char): (r: seq<string>)
    ensures c !in s ==> r == [s]
    ensures c in s ==> r == DropTrailingEmpty(SplitAll(s, c))
    ensures forall k :: 0 <= k < |r| ==> c !in r[k]
  {
    if c !in s then [s] else DropTrailingEmpty(SplitAll(s, c))
  }

  // ---------------------------------------------------------------------------
  // TableExtractor
  // ---------------------------------------------------------------------------

  /** The two groups of a `CREATE CLASS [schema].[table]` match. */
  datatype TableMatch = TableMatch(schemaName: string, tableName: string)

  /** One empty table per match, in match order: names lower-cased, the schema name kept only
      when asked for and otherwise empty. */
  function ExtractTables(ms: seq<TableMatch>, keep: bool): (r: seq<Table>)
    ensures |r| == |ms|
    ensures forall k :: 0 <= k < |ms| ==>
      r[k].name == Lower(ms[k].tableName) && Lower(r[k].name) == r[k].name
      && r[k].schemaName == (if keep then Lower(ms[k].schemaName) else "")
      && r[k].columns == [] && r[k].foreignKeys == [] && r[k].constraints == []
  {
    var r := seq(|ms|, k requires 0 <= k < |ms| =>
      NewQualifiedTable(if keep then Lower(ms[k].schemaName) else "", Lower(ms[k].tableName)));
    forall k | 0 <= k < |ms|
      ensures Lower(r[k].name) == r[k].name
    {
      LowerIdempotent(ms[k].tableName);
    }
    r
  }

  // ---------------------------------------------------------------------------
  // ColumnExtractor
  // ---------------------------------------------------------------------------

  /** The groups of one column definition inside an attribute block: name and type. */
  datatype ColumnCapture = ColumnCapture(name: string, dataType: string)

  /** An `ALTER CLASS [schema].[table] ADD ATTRIBUTE ...` match: its groups, and the column
      definitions the inner pattern finds in the attribute block, in order. */
  datatype AttributeMatch = AttributeMatch(schemaName: string, tableName: string, block: string,
                                           columns: seq<ColumnCapture>)

  const AutoIncrementMarker: string := "] integer auto_increment"

  /** A column definition: the name lower-cased, the type trimmed with `;` removed, and flagged
      as an identity column exactly when the lower-cased block spells `[name] integer
      auto_increment`. Nothing else is set. */
  function ParseColumn(block: string, c: ColumnCapture): (col: Column)
    ensures col.name == Lower(c.name)
    ensures ';' !in col.dataType
    ensures ';' !in Trim(c.dataType) ==> col.dataType == Trim(c.dataType)
    ensures col.isAutoIncrement <==> Contains(Lower(block), "[" + Lower(c.name) + AutoIncrementMarker)
    ensures !col.isPrimaryKey && col.isNullable && col.defaultValue == None && col.maxLength == -1
  {
    var name := Lower(c.name);
    NewColumn(name, ReplaceChar(Trim(c.dataType), ';', ""))
      .(isAutoIncrement := Contains(Lower(block), "[" + name + AutoIncrementMarker))
  }

  function ColumnEntry(m: AttributeMatch, keep: bool): (e: Entry<Column>)
    ensures forall c :: c in e.items ==> !c.isPrimaryKey
  {
    Entry(MatchKey(m.schemaName, m.tableName, keep),
          seq(|m.columns|, k requires 0 <= k < |m.columns| => ParseColumn(m.block, m.columns[k])),
          true)
  }

  function ColumnEntries(ms: seq<AttributeMatch>, keep: bool): (es: seq<Entry<Column>>)
    ensures |es| == |ms| && forall k :: 0 <= k < |ms| ==> es[k] == ColumnEntry(ms[k], keep)
  {
    seq(|ms|, k requires 0 <= k < |ms| => ColumnEntry(ms[k], keep))
  }

  /** `ColumnExtractor.extract`: every match creates its table's list, even with no column in
      its block, and the parsed columns of all matches for a table follow one another in match
      order. */
  function ExtractColumns(ms: seq<AttributeMatch>, keep: bool): (r: map<string, seq<Column>>)
    ensures forall key :: key in r <==> exists k :: 0 <= k < |ms| && MatchKey(ms[k].schemaName, ms[k].tableName, keep) == key
    ensures forall key :: key in r ==> r[key] == Gathered(ColumnEntries(ms, keep), key)
    ensures forall key, col :: key in r && col in r[key] ==> !col.isPrimaryKey
  {
    var r := FileAll(map[], ColumnEntries(ms, keep));
    forall key
      ensures key in r <==> exists k :: 0 <= k < |ms| && MatchKey(ms[k].schemaName, ms[k].tableName, keep) == key
    {
      ColumnKeyAt(ms, keep, key);
    }
    forall key, col | key in r && col in r[key]
      ensures !col.isPrimaryKey
    {
      ColumnFromEntry(ms, keep, key, col);
    }
    r
  }

  lemma ColumnKeyAt(ms: seq<AttributeMatch>, keep: bool, key: string)
    ensures key in Mentioned(ColumnEntries(ms, keep)) <==>
      exists k :: 0 <= k < |ms| && MatchKey(ms[k].schemaName, ms[k].tableName, keep) == key
  {
    var es := ColumnEntries(ms, keep);
    MentionedIff(es, key);
    if exists k :: 0 <= k < |ms| && MatchKey(ms[k].schemaName, ms[k].tableName, keep) == key {
      var k :| 0 <= k < |ms| && MatchKey(ms[k].schemaName, ms[k].tableName, keep) == key;
      assert es[k].key == key && Creates(es[k]);
    }
  }

  lemma ColumnFromEntry(ms: seq<AttributeMatch>, keep: bool, key: string, col: Column)
    requires col in Gathered(ColumnEntries(ms, keep), key)
    ensures !col.isPrimaryKey
  {
    var es := ColumnEntries(ms, keep);
    GatheredFrom(es, key, col);
    var k :| 0 <= k < |es| && es[k].key == key && col in es[k].items;
    assert es[k] == ColumnEntry(ms[k], keep);
  }

  // ---------------------------------------------------------------------------
  // PrimaryKeyExtractor
  // ---------------------------------------------------------------------------

  /** The groups of an `ALTER CLASS [schema].[table] ADD ATTRIBUTE CONSTRAINT [name] PRIMARY
      KEY(columns)` match that are read: schema, table and the column list. */
  datatype KeyMatch = KeyMatch(schemaName: string, tableName: string, columns: string)

  /** The column list of a key: brackets removed, split at commas (`String.split`), each piece
      trimmed and lower-cased. */
  function KeyColumnList(columns: string): (r: seq<string>)
    ensures var pieces := JavaSplit(RemoveBrackets(columns), ',');
      |r| == |pieces| && forall k :: 0 <= k < |r| ==> r[k] == Lower(Trim(pieces[k]))
  {
    var pieces := JavaSplit(RemoveBrackets(columns), ',');
    seq(|pieces|, k requires 0 <= k < |pieces| => Lower(Trim(pieces[k])))
  }

  /** `[n1], [n2], ...`: names in brackets separated by a comma and a space. */
  function BracketList(ns: seq<string>): string {
    if |ns| == 0 then [] else if |ns| == 1 then "[" + ns[0] + "]" else "[" + ns[0] + "], " + BracketList(ns[1..])
  }

  /** `n1, n2, ...` */
  function CommaList(ns: seq<string>): string {
    if |ns| == 0 then [] else if |ns| == 1 then ns[0] else ns[0] + ", " + CommaList(ns[1..])
  }

  /** Each name lower-cased. */
  function LowerEach(ns: seq<string>): (r: seq<string>)
    ensures |r| == |ns| && forall k :: 0 <= k < |ns| ==> r[k] == Lower(ns[k])
  {
    if |ns| == 0 then [] else [Lower(ns[0])] + LowerEach(ns[1..])
  }

  /** Each name after one space. */
  function SpaceEach(ns: seq<string>): (r: seq<string>)
    ensures |r| == |ns| && forall k :: 0 <= k < |ns| ==> r[k] == " " + ns[k]
  {
    if |ns| == 0 then [] else [" " + ns[0]] + SpaceEach(ns[1..])
  }

  /** What a name may be for the list to read back: no bracket or comma, nothing `trim` would cut. */
  predicate PlainName(n: string) {
    '[' !in n && ']' !in n && ',' !in n && Trim(n) == n
  }

  lemma {:induction false} BracketListUnbracketed(ns: seq<string>)
    requires forall k :: 0 <= k < |ns| ==> '[' !in ns[k] && ']' !in ns[k]
    ensures RemoveBrackets(BracketList(ns)) == CommaList(ns)
    decreases |ns|
  {
    if |ns| == 1 {
      RemoveBracketsAround(ns[0]);
    } else if |ns| > 1 {
      var tail := BracketList(ns[1..]);
      BracketListUnbracketed(ns[1..]);
      RemoveBracketsAround(ns[0]);
      RemoveBracketsAppend("[" + ns[0] + "], ", tail);
    }
  }

  /** The comma-separated pieces of a list: the first name, then each later one after a space. */
  lemma {:induction false} CommaListSplits(ns: seq<string>)
    requires |ns| >= 1 && forall k :: 0 <= k < |ns| ==> ',' !in ns[k]
    ensures SplitAll(CommaList(ns), ',') == [ns[0]] + SpaceEach(ns[1..])
    decreases |ns|
  {
    if |ns| == 1 {
      SplitAllNone(ns[0], ',');
    } else {
      var tail := CommaList(ns[1..]);
      CommaListSplits(ns[1..]);
      CommaListJoins(ns[0], tail);
      SplitAllAfter(ns[0], ',', " " + tail);
      SplitAllSpace(tail, ns[1], SpaceEach(ns[2..]));
    }
  }

  lemma CommaListJoins(n: string, tail: string)
    ensures n + ", " + tail == n + [','] + (" " + tail)
  {
    assert n + ", " + tail == n + ([','] + [' '] + tail);
    assert n + [','] + (" " + tail) == n + ([','] + ([' '] + tail));
  }

  lemma SplitAllSpace(tail: string, first: string, rest: seq<string>)
    requires SplitAll(tail, ',') == [first] + rest
    ensures SplitAll(" " + tail, ',') == [" " + first] + rest
  {
    assert (" " + tail)[0] == ' ' && (" " + tail)[1..] == tail;
  }

  lemma TrimAfterSpace(n: string)
    requires Trim(n) == n
    ensures Trim(" " + n) == n
  {
    assert (" " + n)[1..] == n;
  }

  /** A key written `[n1], [n2], ...` reads back as its lower-cased names. */
  lemma KeyColumnListReadsNames(ns: seq<string>)
    requires |ns| >= 1 && forall k :: 0 <= k < |ns| ==> PlainName(ns[k])
    ensures KeyColumnList(BracketList(ns)) == LowerEach(ns)
  {
    BracketListUnbracketed(ns);
    CommaListPieces(ns);
    ReadsLowered(KeyColumnList(BracketList(ns)), JavaSplit(CommaList(ns), ','), ns);
  }

  lemma ReadsLowered(r: seq<string>, pieces: seq<string>, ns: seq<string>)
    requires |r| == |pieces| == |ns|
    requires forall k :: 0 <= k < |r| ==> r[k] == Lower(Trim(pieces[k]))
    requires forall k :: 0 <= k < |ns| ==> Trim(pieces[k]) == ns[k]
    ensures r == LowerEach(ns)
  {
  }

  /** The pieces `String.split` cuts a comma list into trim back to the names. */
  lemma CommaListPieces(ns: seq<string>)
    requires |ns| >= 1 && forall k :: 0 <= k < |ns| ==> PlainName(ns[k])
    ensures var pieces := JavaSplit(CommaList(ns), ',');
      |pieces| == |ns| && forall k :: 0 <= k < |ns| ==> Trim(pieces[k]) == ns[k]
  {
    var text := CommaList(ns);
    if |ns| == 1 {
      assert text == ns[0];
    } else {
      CommaListSplits(ns);
      SpacedPieces(text, ns);
    }
  }

  /** Once the pieces are the first name and then the others after a space, `String.split`
      keeps them all and each trims back to its name. */
  lemma SpacedPieces(text: string, ns: seq<string>)
    requires |ns| >= 2 && forall k :: 0 <= k < |ns| ==> PlainName(ns[k])
    requires SplitAll(text, ',') == [ns[0]] + SpaceEach(ns[1..])
    ensures var pieces := JavaSplit(text, ',');
      |pieces| == |ns| && forall k :: 0 <= k < |ns| ==> Trim(pieces[k]) == ns[k]
  {
    var all := SplitAll(text, ',');
    SpacedShape(all, ns);
    if ',' !in text {
      SplitAllNone(text, ',');
      assert false;
    }
    var pieces := JavaSplit(text, ',');
    assert pieces == DropTrailingEmpty(all);
    assert pieces == all;
    forall k | 0 <= k < |ns|
      ensures Trim(pieces[k]) == ns[k]
    {
      assert PlainName(ns[k]);
      TrimPiece(pieces[k], ns[k], k > 0);
    }
  }

  lemma TrimPiece(piece: string, n: string, spaced: bool)
    requires Trim(n) == n && piece == (if spaced then " " + n else n)
    ensures Trim(piece) == n
  {
    if spaced {
      TrimAfterSpace(n);
    }
  }

  lemma SpacedShape(all: seq<string>, ns: seq<string>)
    requires |ns| >= 2 && all == [ns[0]] + SpaceEach(ns[1..])
    ensures |all| == |ns| && all[0] == ns[0] && all[|all| - 1] != []
    ensures forall k :: 1 <= k < |ns| ==> all[k] == " " + ns[k]
  {
    var tail := SpaceEach(ns[1..]);
    assert all[|all| - 1] == tail[|ns| - 2];
    forall k | 1 <= k < |ns|
      ensures all[k] == " " + ns[k]
    {
      assert all[k] == tail[k - 1];
    }
  }

  function KeyEntry(m: KeyMatch, keep: bool): Entry<string> {
    Entry(MatchKey(m.schemaName, m.tableName, keep), KeyColumnList(m.columns), false)
  }

  function KeyEntries(ms: seq<KeyMatch>, keep: bool): (es: seq<Entry<string>>)
    ensures |es| == |ms| && forall k :: 0 <= k < |ms| ==> es[k] == KeyEntry(ms[k], keep)
  {
    seq(|ms|, k requires 0 <= k < |ms| => KeyEntry(ms[k], keep))
  }

  /** `PrimaryKeyExtractor.extract`: the key columns of each match appended under its table key;
      a match whose column list splits into no piece at all creates nothing. */
  function ExtractPrimaryKeys(ms: seq<KeyMatch>, keep: bool): (r: map<string, seq<string>>)
    ensures forall key :: key in r <==>
      exists k :: 0 <= k < |ms| && MatchKey(ms[k].schemaName, ms[k].tableName, keep) == key && KeyColumnList(ms[k].columns) != []
    ensures forall key :: key in r ==> r[key] == Gathered(KeyEntries(ms, keep), key) && r[key] != []
  {
    var r := FileAll(map[], KeyEntries(ms, keep));
    forall key
      ensures key in r <==>
        exists k :: 0 <= k < |ms| && MatchKey(ms[k].schemaName, ms[k].tableName, keep) == key && KeyColumnList(ms[k].columns) != []
    {
      PrimaryKeyAt(ms, keep, key);
    }
    forall key | key in r
      ensures Gathered(KeyEntries(ms, keep), key) != []
    {
      PrimaryKeyFilled(ms, keep, key);
    }
    r
  }

  lemma PrimaryKeyAt(ms: seq<KeyMatch>, keep: bool, key: string)
    ensures key in Mentioned(KeyEntries(ms, keep)) <==>
      exists k :: 0 <= k < |ms| && MatchKey(ms[k].schemaName, ms[k].tableName, keep) == key && KeyColumnList(ms[k].columns) != []
  {
    var es := KeyEntries(ms, keep);
    MentionedIff(es, key);
    if exists k :: 0 <= k < |ms| && MatchKey(ms[k].schemaName, ms[k].tableName, keep) == key && KeyColumnList(ms[k].columns) != [] {
      var k :| 0 <= k < |ms| && MatchKey(ms[k].schemaName, ms[k].tableName, keep) == key && KeyColumnList(ms[k].columns) != [];
      assert es[k].key == key && Creates(es[k]);
    }
  }

  lemma PrimaryKeyFilled(ms: seq<KeyMatch>, keep: bool, key: string)
    requires key in Mentioned(KeyEntries(ms, keep))
    ensures Gathered(KeyEntries(ms, keep), key) != []
  {
    var es := KeyEntries(ms, keep);
    MentionedIff(es, key);
    var k :| 0 <= k < |es| && es[k].key == key && Creates(es[k]);
    GatheredHolds(es, key, k);
  }

  /** The items of an entry for `key` are among those gathered for it. */
  lemma {:induction false} GatheredHolds<T>(es: seq<Entry<T>>, key: string, k: nat)
    requires k < |es| && es[k].key == key && es[k].items != []
    ensures Gathered(es, key) != []
    decreases |es|
  {
    GatheredCons(es, key);
    if k > 0 {
      assert es[1..][k - 1] == es[k];
      GatheredHolds(es[1..], key, k - 1);
    }
  }

  // ---------------------------------------------------------------------------
  // ForeignKeyExtractor
  // ---------------------------------------------------------------------------

  /** The six groups of an `ALTER CLASS [schema].[table] ADD CONSTRAINT [name] FOREIGN KEY(columns)
      ... REFERENCES [schema].[table]` match. */
  datatype ForeignKeyMatch = ForeignKeyMatch(schemaName: string, tableName: string, constraintName: string,
                                             columns: string, refSchemaName: string, refTableName: string)

  /** `findReferencedPrimaryKeyColumn`: the first key column extracted for the referenced table,
      looked up under the same kind of key the extractors file it under; when there is none, the
      referenced table's name followed by `_id`. The other candidate spellings the method lists
      are never returned. */
  function ReferencedColumn(refSchema: string, refTable: string, pkMap: map<string, seq<string>>, keep: bool): (r: string)
    ensures var refKey := if keep then refSchema + "." + refTable else refTable;
      (ListOf(pkMap, refKey) != [] ==> r == pkMap[refKey][0])
      && (ListOf(pkMap, refKey) == [] ==> r == refTable + "_id")
  {
    var refKey := if keep then refSchema + "." + refTable else refTable;
    if refKey in pkMap && pkMap[refKey] != [] then pkMap[refKey][0] else refTable + "_id"
  }

  /** The foreign key one match describes: every group trimmed, names lower-cased, the column
      list stripped of brackets; the referenced table is `schema.table` when schema names are
      kept. The constraint name is read but not stored. */
  function ParseForeignKey(m: ForeignKeyMatch, keep: bool, pkMap: map<string, seq<string>>): (fk: ForeignKey)
    ensures fk.columnName == Lower(Trim(RemoveBrackets(Trim(m.columns))))
    ensures keep ==> fk.referencedTableName == Lower(Trim(m.refSchemaName)) + "." + Lower(Trim(m.refTableName))
    ensures !keep ==> fk.referencedTableName == Lower(Trim(m.refTableName))
    ensures fk.referencedColumnName ==
      ReferencedColumn(Lower(Trim(m.refSchemaName)), Lower(Trim(m.refTableName)), pkMap, keep)
    ensures fk.constraintName == None && fk.onDeleteAction == "RESTRICT" && fk.onUpdateAction == "RESTRICT"
  {
    var refSchema := Lower(Trim(m.refSchemaName));
    var refTable := Lower(Trim(m.refTableName));
    var refName := if keep then refSchema + "." + refTable else refTable;
    var column := Lower(Trim(RemoveBrackets(Trim(m.columns))));
    NewForeignKey(column, refName, ReferencedColumn(refSchema, refTable, pkMap, keep))
  }

  function ForeignKeyEntry(m: ForeignKeyMatch, keep: bool, pkMap: map<string, seq<string>>): Entry<ForeignKey> {
    Entry(MatchKey(Trim(m.schemaName), Trim(m.tableName), keep), [ParseForeignKey(m, keep, pkMap)], true)
  }

  function ForeignKeyEntries(ms: seq<ForeignKeyMatch>, keep: bool, pkMap: map<string, seq<string>>): (es: seq<Entry<ForeignKey>>)
    ensures |es| == |ms| && forall k :: 0 <= k < |ms| ==> es[k] == ForeignKeyEntry(ms[k], keep, pkMap)
  {
    seq(|ms|, k requires 0 <= k < |ms| => ForeignKeyEntry(ms[k], keep, pkMap))
  }

  /** `ForeignKeyExtractor.extract`: one foreign key per match, appended under its table's key
      in match order. */
  function ExtractForeignKeys(ms: seq<ForeignKeyMatch>, keep: bool, pkMap: map<string, seq<string>>): (r: map<string, seq<ForeignKey>>)
    ensures forall key :: key in r <==> exists k :: 0 <= k < |ms| && MatchKey(Trim(ms[k].schemaName), Trim(ms[k].tableName), keep) == key
    ensures forall key :: key in r ==> r[key] == Gathered(ForeignKeyEntries(ms, keep, pkMap), key)
    ensures forall key, fk :: key in r && fk in r[key] ==>
      exists k :: 0 <= k < |ms| && MatchKey(Trim(ms[k].schemaName), Trim(ms[k].tableName), keep) == key && fk == ParseForeignKey(ms[k], keep, pkMap)
  {
    var r := FileAll(map[], ForeignKeyEntries(ms, keep, pkMap));
    forall key
      ensures key in r <==> exists k :: 0 <= k < |ms| && MatchKey(Trim(ms[k].schemaName), Trim(ms[k].tableName), keep) == key
    {
      ForeignKeyAt(ms, keep, pkMap, key);
    }
    forall key, fk | key in r && fk in r[key]
      ensures exists k :: 0 <= k < |ms| && MatchKey(Trim(ms[k].schemaName), Trim(ms[k].tableName), keep) == key && fk == ParseForeignKey(ms[k], keep, pkMap)
    {
      ForeignKeyFrom(ms, keep, pkMap, key, fk);
    }
    r
  }

  lemma ForeignKeyAt(ms: seq<ForeignKeyMatch>, keep: bool, pkMap: map<string, seq<string>>, key: string)
    ensures key in Mentioned(ForeignKeyEntries(ms, keep, pkMap)) <==>
      exists k :: 0 <= k < |ms| && MatchKey(Trim(ms[k].schemaName), Trim(ms[k].tableName), keep) == key
  {
    var es := ForeignKeyEntries(ms, keep, pkMap);
    MentionedIff(es, key);
    if exists k :: 0 <= k < |ms| && MatchKey(Trim(ms[k].schemaName), Trim(ms[k].tableName), keep) == key {
      var k :| 0 <= k < |ms| && MatchKey(Trim(ms[k].schemaName), Trim(ms[k].tableName), keep) == key;
      assert es[k].key == key && Creates(es[k]);
    }
  }

  lemma ForeignKeyFrom(ms: seq<ForeignKeyMatch>, keep: bool, pkMap: map<string, seq<string>>, key: string, fk: ForeignKey)
    requires fk in Gathered(ForeignKeyEntries(ms, keep, pkMap), key)
    ensures exists k :: 0 <= k < |ms| && MatchKey(Trim(ms[k].schemaName), Trim(ms[k].tableName), keep) == key && fk == ParseForeignKey(ms[k], keep, pkMap)
  {
    var es := ForeignKeyEntries(ms, keep, pkMap);
    GatheredFrom(es, key, fk);
    var k :| 0 <= k < |es| && es[k].key == key && fk in es[k].items;
    SingleItem(es[k], ForeignKeyEntry(ms[k], keep, pkMap), fk);
  }

  /** An item of a one-item entry is that item. */
  lemma SingleItem<T>(e: Entry<T>, f: Entry<T>, x: T)
    requires e == f && |f.items| == 1 && x in e.items
    ensures x == f.items[0] && e.key == f.key
  {
  }

  /** With schema names kept, every extracted foreign key names its table as `schema.table`, so
      the reference holds a dot. */
  lemma KeptReferencesQualified(ms: seq<ForeignKeyMatch>, pkMap: map<string, seq<string>>)
    ensures var r := ExtractForeignKeys(ms, true, pkMap);
      forall key, fk :: key in r && fk in r[key] ==> '.' in fk.referencedTableName
  {
    var r := ExtractForeignKeys(ms, true, pkMap);
    forall key: string, fk: ForeignKey | key in r && fk in r[key]
      ensures '.' in fk.referencedTableName
    {
      var k :| 0 <= k < |ms| && MatchKey(Trim(ms[k].schemaName), Trim(ms[k].tableName), true) == key
               && fk == ParseForeignKey(ms[k], true, pkMap);
      KeptReferenceQualified(ms[k], pkMap);
    }
  }

  lemma KeptReferenceQualified(m: ForeignKeyMatch, pkMap: map<string, seq<string>>)
    ensures '.' in ParseForeignKey(m, true, pkMap).referencedTableName
  {
    var fk := ParseForeignKey(m, true, pkMap);
    var s := Lower(Trim(m.refSchemaName));
    assert fk.referencedTableName[|s|] == '.';
  }

  // ---------------------------------------------------------------------------
  // UniqueConstraintExtractor
  // ---------------------------------------------------------------------------

  /** The groups of a UNIQUE match that are read: schema, table and the column text. */
  datatype UniqueMatch = UniqueMatch(schemaName: string, tableName: string, columns: string)

  /** Column texts longer than this are taken for a runaway match of the multi-line pattern. */
  const MaxUniqueColumnsLength: nat := 200

  /** The bodies of `[...]` groups, left to right, as successive `find`s of `\[([^\]]+)\]` report
      them: at a `[`, the body runs to the first `]` and must not be empty; where that fails the
      search resumes one character further on. */
  function BracketBodies(s: string): (r: seq<string>)
    ensures forall k :: 0 <= k < |r| ==> r[k] != [] && ']' !in r[k]
    decreases |s|
  {
    if |s| == 0 then []
    else if s[0] != '[' then BracketBodies(s[1..])
    else
      match FindIndex(s[1..], (ch: char) => ch == ']')
      case Some(j) =>
        if j > 0 then
          assert forall i :: 0 <= i < j ==> s[1..][..j][i] != ']';
          [s[1..][..j]] + BracketBodies(s[1..][j + 1..])
        else BracketBodies(s[1..])
      case None => BracketBodies(s[1..])
  }

  lemma BracketBodiesSkip(c: char, rest: string)
    requires c != '['
    ensures BracketBodies([c] + rest) == BracketBodies(rest)
  {
    assert ([c] + rest)[1..] == rest;
  }

  /** A bracketed non-empty body is found, and the search goes on after its `]`. */
  lemma BracketBodiesFind(n: string, rest: string)
    requires n != [] && ']' !in n
    ensures BracketBodies("[" + n + "]" + rest) == [n] + BracketBodies(rest)
  {
    var s := "[" + n + "]" + rest;
    assert s[1..] == n + "]" + rest;
    var j := FindIndex(s[1..], (ch: char) => ch == ']');
    assert s[1..][|n|] == ']';
    assert forall i :: 0 <= i < |n| ==> s[1..][i] == n[i];
    assert j == Some(|n|);
    assert s[1..][..|n|] == n;
    assert s[1..][|n| + 1..] == rest;
  }

  /** `extractColumnNames`: blank text gives nothing; otherwise each body trimmed and lower-cased,
      keeping those that are not empty then. */
  function ColumnNames(columns: string): (r: seq<string>)
    ensures forall k :: 0 <= k < |r| ==> r[k] != []
  {
    if Trim(columns) == [] then [] else NonEmptyNames(BracketBodies(columns))
  }

  function NonEmptyNames(bodies: seq<string>): (r: seq<string>)
    ensures forall k :: 0 <= k < |r| ==> r[k] != []
  {
    if |bodies| == 0 then []
    else
      var n := Lower(Trim(bodies[0]));
      (if n != [] then [n] else []) + NonEmptyNames(bodies[1..])
  }

  /** A list written `[n1], [n2], ...` of names that are not blank reads back as its lower-cased
      names. */
  lemma {:induction false} BracketListBodies(ns: seq<string>)
    requires forall k :: 0 <= k < |ns| ==> ns[k] != [] && ']' !in ns[k]
    ensures BracketBodies(BracketList(ns)) == ns
    decreases |ns|
  {
    if |ns| == 1 {
      BracketBodiesFind(ns[0], []);
      assert BracketList(ns) == "[" + ns[0] + "]" + [];
    } else if |ns| > 1 {
      var tail := BracketList(ns[1..]);
      BracketListBodies(ns[1..]);
      assert BracketList(ns) == "[" + ns[0] + "]" + (", " + tail);
      BracketBodiesFind(ns[0], ", " + tail);
      BracketBodiesSkip(',', " " + tail);
      BracketBodiesSkip(' ', tail);
      assert ", " + tail == [','] + (" " + tail);
      assert " " + tail == [' '] + tail;
    }
  }

  lemma {:induction false} NonEmptyNamesLower(ns: seq<string>)
    requires forall k :: 0 <= k < |ns| ==> ns[k] != [] && Trim(ns[k]) == ns[k]
    ensures NonEmptyNames(ns) == LowerEach(ns)
    decreases |ns|
  {
    if |ns| > 0 {
      NonEmptyNamesLower(ns[1..]);
      assert |Lower(Trim(ns[0]))| == |ns[0]|;
    }
  }

  /** A list written `[n1], [n2], ...` of trimmed names that are not blank reads back as its
      lower-cased names. */
  lemma ColumnNamesReadsNames(ns: seq<string>)
    requires |ns| >= 1 && forall k :: 0 <= k < |ns| ==> ns[k] != [] && ']' !in ns[k] && Trim(ns[k]) == ns[k]
    ensures ColumnNames(BracketList(ns)) == LowerEach(ns)
  {
    BracketListBodies(ns);
    NonEmptyNamesLower(ns);
    if Trim(BracketList(ns)) == [] {
      NothingFoundInBlank(BracketList(ns));
    }
  }

  /** Text that trims to nothing holds no `[`, so the blank-text guard never changes the result. */
  lemma NothingFoundInBlank(s: string)
    requires Trim(s) == []
    ensures BracketBodies(s) == []
    ensures ColumnNames(s) == NonEmptyNames(BracketBodies(s))
  {
    TrimEmptyAllAway(s);
    NoBracketNoBodies(s);
  }

  lemma TrimEmptyAllAway(s: string)
    requires Trim(s) == []
    ensures forall k :: 0 <= k < |s| ==> TrimmedAway(s[k])
  {
    TrimEndEmpty(TrimStart(s));
    assert TrimStart(s) == [];
    TrimStartDrops(s);
  }

  lemma {:induction false} TrimEndEmpty(s: string)
    requires TrimEnd(s) == []
    ensures forall k :: 0 <= k < |s| ==> TrimmedAway(s[k])
    decreases |s|
  {
    if |s| > 0 {
      TrimEndEmpty(s[..|s| - 1]);
      assert forall k :: 0 <= k < |s| - 1 ==> s[k] == s[..|s| - 1][k];
    }
  }

  /** `TrimStart` drops exactly a prefix of characters it trims away. */
  lemma {:induction false} TrimStartDrops(s: string)
    ensures forall k :: 0 <= k < |s| - |TrimStart(s)| ==> TrimmedAway(s[k])
    decreases |s|
  {
    if |s| > 0 && TrimmedAway(s[0]) {
      var t := s[1..];
      TrimStartDrops(t);
      assert TrimStart(s) == TrimStart(t);
      forall k | 1 <= k < |s| - |TrimStart(s)|
        ensures TrimmedAway(s[k])
      {
        assert s[k] == t[k - 1];
      }
    }
  }

  lemma {:induction false} NoBracketNoBodies(s: string)
    requires forall k :: 0 <= k < |s| ==> TrimmedAway(s[k])
    ensures BracketBodies(s) == []
    decreases |s|
  {
    if |s| > 0 {
      assert s[0] != '[';
      NoBracketNoBodies(s[1..]);
    }
  }

  function UniqueEntry(m: UniqueMatch, keep: bool, guarded: bool): Entry<string> {
    if guarded && |m.columns| > MaxUniqueColumnsLength then Entry(MatchKey(m.schemaName, m.tableName, keep), [], false)
    else Entry(MatchKey(m.schemaName, m.tableName, keep), ColumnNames(m.columns), false)
  }

  function UniqueEntries(ms: seq<UniqueMatch>, keep: bool, guarded: bool): (es: seq<Entry<string>>)
    ensures |es| == |ms| && forall k :: 0 <= k < |ms| ==> es[k] == UniqueEntry(ms[k], keep, guarded)
  {
    seq(|ms|, k requires 0 <= k < |ms| => UniqueEntry(ms[k], keep, guarded))
  }

  /** `UniqueConstraintExtractor.extract`: the matches of the one-line `ADD ATTRIBUTE CONSTRAINT`
      pattern, then those of the multi-line `ADD CONSTRAINT` pattern, whose column text must not
      exceed 200 characters. Each match's column names are appended under its table key; a match
      that yields no name creates nothing. */
  function ExtractUniques(first: seq<UniqueMatch>, second: seq<UniqueMatch>, keep: bool): (r: map<string, seq<string>>)
    ensures forall key :: key in r ==>
      r[key] == Gathered(UniqueEntries(first, keep, false), key) + Gathered(UniqueEntries(second, keep, true), key)
    ensures forall key :: key in r <==>
      (exists k :: 0 <= k < |first| && MatchKey(first[k].schemaName, first[k].tableName, keep) == key
                   && ColumnNames(first[k].columns) != [])
      || (exists k :: 0 <= k < |second| && MatchKey(second[k].schemaName, second[k].tableName, keep) == key
                      && |second[k].columns| <= MaxUniqueColumnsLength && ColumnNames(second[k].columns) != [])
    ensures forall key, n :: key in r && n in r[key] ==> n != []
  {
    UniquesGathered(first, second, keep);
    UniquesKeysIff(first, second, keep);
    UniquesFilled(first, second, keep);
    UniquesFiled(first, second, keep)
  }

  /** Both runs of unique entries filed into one map, the one-line form first. */
  function UniquesFiled(first: seq<UniqueMatch>, second: seq<UniqueMatch>, keep: bool): map<string, seq<string>> {
    FileAll(FileAll(map[], UniqueEntries(first, keep, false)), UniqueEntries(second, keep, true))
  }

  lemma UniquesGathered(first: seq<UniqueMatch>, second: seq<UniqueMatch>, keep: bool)
    ensures var r := UniquesFiled(first, second, keep);
      forall key :: key in r ==>
        r[key] == Gathered(UniqueEntries(first, keep, false), key) + Gathered(UniqueEntries(second, keep, true), key)
  {
    var e1, e2 := UniqueEntries(first, keep, false), UniqueEntries(second, keep, true);
    var r := UniquesFiled(first, second, keep);
    forall key | key in r
      ensures r[key] == Gathered(e1, key) + Gathered(e2, key)
    {
      FileTwice(e1, e2, key);
    }
  }

  lemma UniquesKeysIff(first: seq<UniqueMatch>, second: seq<UniqueMatch>, keep: bool)
    ensures var r := UniquesFiled(first, second, keep);
      forall key :: key in r <==>
        (exists k :: 0 <= k < |first| && MatchKey(first[k].schemaName, first[k].tableName, keep) == key
                     && ColumnNames(first[k].columns) != [])
        || (exists k :: 0 <= k < |second| && MatchKey(second[k].schemaName, second[k].tableName, keep) == key
                        && |second[k].columns| <= MaxUniqueColumnsLength && ColumnNames(second[k].columns) != [])
  {
    forall key
      ensures key in UniquesFiled(first, second, keep) <==>
        (exists k :: 0 <= k < |first| && MatchKey(first[k].schemaName, first[k].tableName, keep) == key
                     && ColumnNames(first[k].columns) != [])
        || (exists k :: 0 <= k < |second| && MatchKey(second[k].schemaName, second[k].tableName, keep) == key
                        && |second[k].columns| <= MaxUniqueColumnsLength && ColumnNames(second[k].columns) != [])
    {
      UniqueKeys(first, second, keep, key);
    }
  }

  lemma UniquesFilled(first: seq<UniqueMatch>, second: seq<UniqueMatch>, keep: bool)
    ensures var r := UniquesFiled(first, second, keep);
      forall key, n :: key in r && n in r[key] ==> n != []
  {
    var r := UniquesFiled(first, second, keep);
    UniquesGathered(first, second, keep);
    forall key, n | key in r && n in r[key]
      ensures n != []
    {
      if n in Gathered(UniqueEntries(first, keep, false), key) {
        UniqueNameFilled(first, keep, false, key, n);
      } else {
        UniqueNameFilled(second, keep, true, key, n);
      }
    }
  }

  /** Filing two runs of entries one after the other: a key holds the items of the first run
      and then those of the second. */
  lemma FileTwice<T>(e1: seq<Entry<T>>, e2: seq<Entry<T>>, key: string)
    requires key in FileAll(FileAll(map[], e1), e2)
    ensures FileAll(FileAll(map[], e1), e2)[key] == Gathered(e1, key) + Gathered(e2, key)
  {
    var m1 := FileAll(map[], e1);
    assert FileAll(m1, e2)[key] == ListOf(m1, key) + Gathered(e2, key);
    assert ListOf(m1, key) == Gathered(e1, key) by {
      if key in m1 {
        var empty: map<string, seq<T>> := map[];
        assert ListOf(empty, key) == [];
        EmptyAppend(Gathered(e1, key));
      } else {
        GatheredUnmentioned(e1, key);
      }
    }
  }

  lemma EmptyAppend<T>(xs: seq<T>)
    ensures [] + xs == xs
  {
  }

  /** A key no entry creates gathers nothing. */
  lemma {:induction false} GatheredUnmentioned<T>(es: seq<Entry<T>>, key: string)
    requires key !in Mentioned(es)
    ensures Gathered(es, key) == []
    decreases |es|
  {
    if |es| > 0 {
      GatheredCons(es, key);
      GatheredUnmentioned(es[1..], key);
    }
  }

  lemma UniqueKeys(first: seq<UniqueMatch>, second: seq<UniqueMatch>, keep: bool, key: string)
    ensures key in FileAll(FileAll(map[], UniqueEntries(first, keep, false)), UniqueEntries(second, keep, true)) <==>
      (exists k :: 0 <= k < |first| && MatchKey(first[k].schemaName, first[k].tableName, keep) == key
                   && ColumnNames(first[k].columns) != [])
      || (exists k :: 0 <= k < |second| && MatchKey(second[k].schemaName, second[k].tableName, keep) == key
                      && |second[k].columns| <= MaxUniqueColumnsLength && ColumnNames(second[k].columns) != [])
  {
    UniqueKeyAt(first, keep, false, key);
    UniqueKeyAt(second, keep, true, key);
  }

  lemma UniqueKeyAt(ms: seq<UniqueMatch>, keep: bool, guarded: bool, key: string)
    ensures key in Mentioned(UniqueEntries(ms, keep, guarded)) <==>
      exists k :: 0 <= k < |ms| && MatchKey(ms[k].schemaName, ms[k].tableName, keep) == key
                  && (!guarded || |ms[k].columns| <= MaxUniqueColumnsLength) && ColumnNames(ms[k].columns) != []
  {
    var es := UniqueEntries(ms, keep, guarded);
    MentionedIff(es, key);
    if exists k :: 0 <= k < |ms| && MatchKey(ms[k].schemaName, ms[k].tableName, keep) == key
                   && (!guarded || |ms[k].columns| <= MaxUniqueColumnsLength) && ColumnNames(ms[k].columns) != [] {
      var k :| 0 <= k < |ms| && MatchKey(ms[k].schemaName, ms[k].tableName, keep) == key
               && (!guarded || |ms[k].columns| <= MaxUniqueColumnsLength) && ColumnNames(ms[k].columns) != [];
      assert es[k].key == key && Creates(es[k]);
    }
  }

  lemma UniqueNameFilled(ms: seq<UniqueMatch>, keep: bool, guarded: bool, key: string, n: string)
    requires n in Gathered(UniqueEntries(ms, keep, guarded), key)
    ensures n != []
  {
    var es := UniqueEntries(ms, keep, guarded);
    GatheredFrom(es, key, n);
  }
}
