/** The scalar generator: a deterministic unique value for primary-key and UNIQUE columns, and
    otherwise a random value chosen by a substring test on the lower-cased column type. The
    random part is not modelled as values: the generator returns the request it would make to the
    Faker library (a `Draw`), and `Admits` says which strings that request can produce. */
module BasicValue {
  import opened Wrappers
  import opened Strings
  import opened Seqs
  import opened Schema
  import opened Values
  import opened TypeParse
  import Analyzer

  // ---------------------------------------------------------------------------
  // Random requests
  // ---------------------------------------------------------------------------

  /** A request to the Faker library. */
  datatype Draw =
    | Characters(minLength: nat, maxLength: nat)     // lorem().characters(min, max)
    | Word                                           // lorem().word()
    | Sentence                                       // lorem().sentence()
    | Paragraph                                      // lorem().paragraph()
    | Alphanumeric(count: nat)                       // count picks from CharAlphabet
    | RecentDateTime                                 // now minus 1..364 days, random time of day
    | RecentDate                                     // today minus 1..364 days
    | TimeOfDay                                      // a random hour, minute and second
    | IntBetween(lo: int, hi: int)                   // number().numberBetween(lo, hi), rendered
    | DecimalBetween(scale: nat, lo: int, hi: int)   // number().randomDouble(scale, lo, hi), rendered
    | Coin                                           // bool().bool(), rendered
    | Bits(count: nat)                               // count coin flips written as 0/1
    | BitsUpTo(maxCount: nat)                        // numberBetween(1, maxCount) coin flips

  /** What the generator returns: a value fixed by its inputs, or a random request. */
  datatype Gen = Exact(value: Value) | Drawn(draw: Draw)

  /** The letters `CHAR(n)` columns are filled from. */
  const CharAlphabet: string := "ABCDEFGHIJKLMNOPQRSTUVWXYZ0123456789"

  /** Faker's `numberBetween(lo, hi)`: `lo` inclusive, `hi` exclusive, and `lo` itself when the
      bounds are equal. */
  predicate Between(x: int, lo: int, hi: int) {
    if lo < hi then lo <= x < hi else x == lo
  }

  predicate IsBits(s: string) {
    forall i :: 0 <= i < |s| ==> s[i] == '0' || s[i] == '1'
  }

  /** The strings a request can produce. Lorem text, dates read off the clock and rendered
      doubles are left unconstrained. */
  ghost predicate Admits(d: Draw, s: string) {
    match d
    case Characters(lo, hi) => lo <= |s| <= hi
    case Alphanumeric(n) => |s| == n && forall i :: 0 <= i < |s| ==> s[i] in CharAlphabet
    case IntBetween(lo, hi) => exists x :: Between(x, lo, hi) && s == IntToString(x)
    case Coin => s == "true" || s == "false"
    case Bits(n) => |s| == n && IsBits(s)
    case BitsUpTo(n) => Between(|s|, 1, n) && IsBits(s)
    case _ => true
  }

  /** The value a generation result stands for, given the string a random request produced. */
  function Realise(g: Gen, pick: string): (v: Value)
    ensures g.Exact? ==> v == g.value
    ensures g.Drawn? ==> v == VStr(pick)
  {
    match g
    case Exact(v) => v
    case Drawn(_) => VStr(pick)
  }

  // ---------------------------------------------------------------------------
  // Key columns
  // ---------------------------------------------------------------------------

  /** `isPrimaryKeyColumn`: some PRIMARY KEY constraint lists the column, compared exactly. */
  function IsPrimaryKeyColumn(t: Table, column: string): (r: bool)
    ensures r <==> exists c :: c in t.constraints && c.kind == PrimaryKey && column in c.columns
  {
    var p := (c: Constraint) => c.kind == PrimaryKey && column in c.columns;
    AnyIff(t.constraints, p);
    Any(t.constraints, p)
  }

  /** `hasUniqueConstraint`: some UNIQUE constraint lists the column, compared without regard
      to case. */
  function HasUniqueConstraint(t: Table, column: string): (r: bool)
    ensures r <==> exists c, k :: c in t.constraints && c.kind == Unique && k in c.columns && EqualsIgnoreCase(k, column)
  {
    var p := (c: Constraint) => c.kind == Unique && Any(c.columns, (k: string) => EqualsIgnoreCase(k, column));
    AnyIff(t.constraints, p);
    forall c | c in t.constraints
      ensures p(c) <==> c.kind == Unique && exists k :: k in c.columns && EqualsIgnoreCase(k, column)
    {
      AnyIff(c.columns, (k: string) => EqualsIgnoreCase(k, column));
    }
    Any(t.constraints, p)
  }

  /** The analyzer's exact UNIQUE test is the stricter one: a column it finds, the generator
      finds too, but a column spelled in another case only the generator finds. */
  lemma UniqueTestsCompared(t: Table, column: string)
    ensures Analyzer.HasUniqueConstraint(t, column) ==> HasUniqueConstraint(t, column)
    ensures var u := Constraint("u", Unique, ["ID"]);
      var t' := t.(constraints := [u]);
      HasUniqueConstraint(t', "id") && !Analyzer.HasUniqueConstraint(t', "id")
  {
    var u := Constraint("u", Unique, ["ID"]);
    var t' := t.(constraints := [u]);
    assert Lower("ID") == "id";
    assert Lower("id") == "id";
    assert "ID" in u.columns;
  }

  /** A column that takes the unique path. */
  predicate IsKeyColumn(t: Table, column: string) {
    IsPrimaryKeyColumn(t, column) || HasUniqueConstraint(t, column)
  }

  // ---------------------------------------------------------------------------
  // Unique values
  // ---------------------------------------------------------------------------

  /** `Math.abs(name.hashCode() % 1000)`: a per-column seed, so that two key columns of one
      table start from different values. */
  function ColumnSeed(column: string): (r: nat)
    ensures r < 1000
  {
    Abs(JavaRem(StringHash(column), 1000))
  }

  /** `seed + "_" + index`. */
  function SeedText(seed: nat, index: nat): string {
    NatToString(seed) + "_" + NatToString(index)
  }

  /** The unique value of a `varchar(n)` row: `seed_index` when it fits in `n` characters (or
      there is no length), else the last `n` digits of `seed * 1000000 + index`. */
  function UniqueText(seed: nat, index: nat, n: nat): (r: string)
    ensures n > 0 ==> |r| <= n
    ensures n == 0 || |SeedText(seed, index)| <= n ==> r == SeedText(seed, index)
  {
    var plain := SeedText(seed, index);
    var shortened :=
      if n > 0 && |plain| > n then ZeroPad((seed * 1_000_000 + index) % LongPow10(n), n) else plain;
    if n > 0 && |shortened| > n then shortened[..n] else shortened
  }

  /** The unique value of a `char(n)` row: `seed * 1000000 + index` modulo 10^n, zero-padded to
      exactly `n` digits. */
  function UniqueFixed(seed: nat, index: nat, n: nat): (r: string)
    requires n > 0
    ensures |r| == n && AllDigits(r)
  {
    var z := ZeroPad((seed * 1_000_000 + index) % LongPow10(n), n);
    if |z| > n then z[|z| - n..] else z
  }

  /** The branches of `generateUniqueValue`, tested in this order on the lower-cased type. */
  datatype UniqueKind = TextKind | CharKind | IntKind | LongKind | DecimalKind | OtherKind

  function UniqueKindOf(dataType: string): UniqueKind {
    if Contains(dataType, "varchar") || Contains(dataType, "character varying") then TextKind
    else if Contains(dataType, "char") then CharKind
    else if Contains(dataType, "integer") || Contains(dataType, "int") then IntKind
    else if Contains(dataType, "bigint") || Contains(dataType, "long") then LongKind
    else if Contains(dataType, "decimal") || Contains(dataType, "numeric") then DecimalKind
    else OtherKind
  }

  /** `generateUniqueValue` for row `index` of column `c` whose lower-cased type is `dataType`. */
  function UniqueValue(c: Column, index: nat, dataType: string): Value {
    var seed := ColumnSeed(c.name);
    var n := ExtractMaxLength(dataType);
    match UniqueKindOf(dataType)
    case TextKind => VStr(UniqueText(seed, index, n))
    case CharKind =>
      if n > 0 then VStr(UniqueFixed(seed, index, n)) else VStr(IntToString(Wrap32(seed + index)))
    case IntKind => IntKey(c, seed, index)
    case LongKind => VStr(NatToString(seed * 1_000_000_000 + index))
    case DecimalKind => VInt(Wrap32(seed * 1000 + index))
    case OtherKind => VStr(SeedText(seed, index))
  }

  /** The rows a unique column can tell apart: 10^n for a `char(n)` or `varchar(n)` type,
      every `int` index otherwise. */
  predicate WithinCapacity(dataType: string, index: nat) {
    index <= IntMax &&
    (UniqueKindOf(dataType) in {TextKind, CharKind} && ExtractMaxLength(dataType) > 0 ==>
      index < Pow10(ExtractMaxLength(dataType)))
  }

  /** Different rows give different `seed_index` texts. */
  lemma SeedTextInjective(seed: nat, i: nat, j: nat)
    ensures SeedText(seed, i) == SeedText(seed, j) ==> i == j
  {
    var a := NatToString(seed) + "_";
    assert SeedText(seed, i) == a + NatToString(i);
    assert SeedText(seed, j) == a + NatToString(j);
    assert SeedText(seed, i)[|a|..] == NatToString(i);
    assert SeedText(seed, j)[|a|..] == NatToString(j);
    NatToStringInjective(i, j);
  }

  /** A three-digit seed and an `int` index make at most 14 characters. */
  lemma SeedTextLength(seed: nat, i: nat)
    requires seed < 1000 && i <= IntMax
    ensures |SeedText(seed, i)| <= 14
  {
    assert Pow10(3) == 1000;
    NatToStringLength(seed, 3);
    Pow10Bounds();
    NatToStringLength(i, 10);
  }

  /** A `seed_index` text is never all digits, so it never equals a shortened value. */
  lemma SeedTextNotDigits(seed: nat, i: nat)
    ensures !AllDigits(SeedText(seed, i))
  {
    assert SeedText(seed, i)[|NatToString(seed)|] == '_';
  }

  /** Adding a constant and reducing modulo `m` keeps indices below `m` apart. */
  lemma ModShiftInjective(c: nat, i: nat, j: nat, m: nat)
    requires m > 0 && i < m && j < m
    ensures (c + i) % m == (c + j) % m ==> i == j
  {
    var qi, qj := (c + i) / m, (c + j) / m;
    assert c + i == m * qi + (c + i) % m;
    assert c + j == m * qj + (c + j) % m;
    if (c + i) % m == (c + j) % m {
      assert i - j == m * (qi - qj);
      if qi > qj {
        MulAtLeast(m, qi - qj);
      } else if qi < qj {
        MulAtLeast(m, qj - qi);
      }
    }
  }

  /** A unique `varchar(n)` text always fits in `n` characters. */
  lemma UniqueTextFits(seed: nat, index: nat, n: nat)
    requires n > 0
    ensures |UniqueText(seed, index, n)| <= n
  {
  }

  /** A `seed_index` text too long for `varchar(n)` is replaced by exactly `n` digits: the
      number modulo 10^n, zero-padded. */
  lemma UniqueTextShortened(seed: nat, index: nat, n: nat)
    requires seed < 1000 && index <= IntMax && n > 0 && |SeedText(seed, index)| > n
    ensures n < 14 && (seed * 1_000_000 + index) % Pow10(n) < Pow10(n)
    ensures UniqueText(seed, index, n) == ZeroPad((seed * 1_000_000 + index) % Pow10(n), n)
  {
    SeedTextLength(seed, index);
    var v := (seed * 1_000_000 + index) % Pow10(n);
    assert LongPow10(n) == Pow10(n);
    ZeroPadWidth(v, n);
  }

  /** Two shortened texts differ when the indices are below 10^n. */
  lemma ShortenedTextsDiffer(seed: nat, i: nat, j: nat, n: nat)
    requires n > 0 && i != j && i < Pow10(n) && j < Pow10(n)
    ensures ZeroPad((seed * 1_000_000 + i) % Pow10(n), n) != ZeroPad((seed * 1_000_000 + j) % Pow10(n), n)
  {
    var c := seed * 1_000_000;
    ZeroPadRoundTrip((c + i) % Pow10(n), n);
    ZeroPadRoundTrip((c + j) % Pow10(n), n);
    ModShiftInjective(c, i, j, Pow10(n));
  }

  /** One row keeps its `seed_index` text and the other is shortened to digits: they differ. */
  lemma PlainAndShortenedDiffer(seed: nat, i: nat, j: nat, n: nat)
    requires seed < 1000 && i <= IntMax && j <= IntMax && n > 0
    requires |SeedText(seed, i)| <= n && |SeedText(seed, j)| > n
    ensures UniqueText(seed, i, n) != UniqueText(seed, j, n)
  {
    UniqueTextShortened(seed, j, n);
    SeedTextNotDigits(seed, i);
  }

  /** Two rows of a unique `varchar(n)` column get different texts as long as both indices are
      below 10^n; without a length every two rows differ. */
  lemma UniqueTextDistinct(seed: nat, i: nat, j: nat, n: nat)
    requires seed < 1000 && i != j && i <= IntMax && j <= IntMax
    requires n > 0 ==> i < Pow10(n) && j < Pow10(n)
    ensures UniqueText(seed, i, n) != UniqueText(seed, j, n)
  {
    var li, lj := |SeedText(seed, i)|, |SeedText(seed, j)|;
    if n == 0 || (li <= n && lj <= n) {
      SeedTextInjective(seed, i, j);
    } else if li > n && lj > n {
      UniqueTextShortened(seed, i, n);
      UniqueTextShortened(seed, j, n);
      ShortenedTextsDiffer(seed, i, j, n);
    } else if li <= n {
      PlainAndShortenedDiffer(seed, i, j, n);
    } else {
      PlainAndShortenedDiffer(seed, j, i, n);
    }
  }

  /** The `char(n)` value before its (never needed) trimming: a number below 10^n, zero-padded. */
  lemma UniqueFixedValue(seed: nat, index: nat, n: nat)
    requires n > 0 && seed < 1000 && index <= IntMax
    ensures (seed * 1_000_000 + index) % LongPow10(n) < Pow10(n)
    ensures UniqueFixed(seed, index, n) == ZeroPad((seed * 1_000_000 + index) % LongPow10(n), n)
  {
    var v := (seed * 1_000_000 + index) % LongPow10(n);
    if n > 18 {
      Pow10Bounds();
      Pow10Monotone(19, n);
    }
    ZeroPadWidth(v, n);
  }

  /** A `char(n)` value reads back as the number it was padded from. */
  lemma UniqueFixedDecodes(seed: nat, index: nat, n: nat)
    requires n > 0 && seed < 1000 && index <= IntMax
    ensures DigitsValue(UniqueFixed(seed, index, n)) == (seed * 1_000_000 + index) % LongPow10(n)
  {
    UniqueFixedValue(seed, index, n);
    ZeroPadRoundTrip((seed * 1_000_000 + index) % LongPow10(n), n);
  }

  /** An `int` index below 10^n is also below `(long) Math.pow(10, n)`. */
  lemma BelowLongPow10(i: nat, n: nat)
    requires i <= IntMax && i < Pow10(n)
    ensures i < LongPow10(n)
  {
    if n > 18 {
      assert LongPow10(n) == LongMax;
    }
  }

  /** Two rows of a unique `char(n)` column get different values as long as both indices are
      below 10^n. */
  lemma UniqueFixedDistinct(seed: nat, i: nat, j: nat, n: nat)
    requires n > 0 && seed < 1000 && i <= IntMax && j <= IntMax && i < Pow10(n) && j < Pow10(n)
    ensures UniqueFixed(seed, i, n) == UniqueFixed(seed, j, n) ==> i == j
  {
    BelowLongPow10(i, n);
    BelowLongPow10(j, n);
    UniqueFixedApart(seed, i, j, n);
  }

  lemma UniqueFixedApart(seed: nat, i: nat, j: nat, n: nat)
    requires n > 0 && seed < 1000 && i <= IntMax && j <= IntMax
    requires i < LongPow10(n) && j < LongPow10(n)
    ensures UniqueFixed(seed, i, n) == UniqueFixed(seed, j, n) ==> i == j
  {
    var x, y := UniqueFixed(seed, i, n), UniqueFixed(seed, j, n);
    if x == y {
      var c, m := seed * 1_000_000, LongPow10(n);
      UniqueFixedDecodes(seed, i, n);
      UniqueFixedDecodes(seed, j, n);
      DecodedApart(x, y, c, i, j, m);
    }
  }

  /** Two texts that decode to `c + i` and `c + j` modulo `m` differ when `i` and `j` do. */
  lemma DecodedApart(x: string, y: string, c: nat, i: nat, j: nat, m: nat)
    requires m > 0 && i < m && j < m && AllDigits(x) && AllDigits(y)
    requires DigitsValue(x) == (c + i) % m && DigitsValue(y) == (c + j) % m
    ensures x == y ==> i == j
  {
    ModShiftInjective(c, i, j, m);
  }

  /** An `int` sum rendered as text keeps `int` indices apart. */
  lemma WrappedTextInjective(c: nat, i: nat, j: nat)
    requires i <= IntMax && j <= IntMax
    ensures IntToString(Wrap32(c + i)) == IntToString(Wrap32(c + j)) ==> i == j
  {
    IntToStringInjective(Wrap32(c + i), Wrap32(c + j));
    Wrap32Injective(c + i, c + j);
  }

  /** Distinct rows of a unique `varchar` or `char` column. */
  lemma TextKeysDistinct(c: Column, dataType: string, i: nat, j: nat)
    requires UniqueKindOf(dataType) in {TextKind, CharKind}
    requires i != j && WithinCapacity(dataType, i) && WithinCapacity(dataType, j)
    ensures UniqueValue(c, i, dataType) != UniqueValue(c, j, dataType)
  {
    var seed, n := ColumnSeed(c.name), ExtractMaxLength(dataType);
    WithinTextCapacity(dataType, i, n);
    WithinTextCapacity(dataType, j, n);
    if UniqueKindOf(dataType) == TextKind {
      TextValueIs(c, dataType, i, seed, n);
      TextValueIs(c, dataType, j, seed, n);
      UniqueTextDistinct(seed, i, j, n);
    } else {
      CharValueIs(c, dataType, i, seed, n);
      CharValueIs(c, dataType, j, seed, n);
      CharKeysDistinct(seed, i, j, n);
    }
  }

  lemma WithinTextCapacity(dataType: string, i: nat, n: nat)
    requires UniqueKindOf(dataType) in {TextKind, CharKind} && WithinCapacity(dataType, i)
    requires n == ExtractMaxLength(dataType)
    ensures i <= IntMax && (n > 0 ==> i < Pow10(n))
  {
  }

  lemma TextValueIs(c: Column, dataType: string, i: nat, seed: nat, n: nat)
    requires UniqueKindOf(dataType) == TextKind
    requires seed == ColumnSeed(c.name) && n == ExtractMaxLength(dataType)
    ensures UniqueValue(c, i, dataType) == VStr(UniqueText(seed, i, n))
  {
  }

  lemma CharValueIs(c: Column, dataType: string, i: nat, seed: nat, n: nat)
    requires UniqueKindOf(dataType) == CharKind
    requires seed == ColumnSeed(c.name) && n == ExtractMaxLength(dataType)
    ensures UniqueValue(c, i, dataType) ==
      VStr(if n > 0 then UniqueFixed(seed, i, n) else IntToString(Wrap32(seed + i)))
  {
  }

  lemma CharKeysDistinct(seed: nat, i: nat, j: nat, n: nat)
    requires seed < 1000 && i != j && i <= IntMax && j <= IntMax
    requires n > 0 ==> i < Pow10(n) && j < Pow10(n)
    ensures (if n > 0 then UniqueFixed(seed, i, n) else IntToString(Wrap32(seed + i)))
         != (if n > 0 then UniqueFixed(seed, j, n) else IntToString(Wrap32(seed + j)))
  {
    if n > 0 {
      UniqueFixedDistinct(seed, i, j, n);
    } else {
      WrappedTextInjective(seed, i, j);
    }
  }

  /** Distinct rows of a unique `int`, `bigint`/`long` or `decimal`/`numeric` column. */
  lemma NumberKeysDistinct(c: Column, dataType: string, i: nat, j: nat)
    requires UniqueKindOf(dataType) in {IntKind, LongKind, DecimalKind}
    requires i != j && i <= IntMax && j <= IntMax
    ensures UniqueValue(c, i, dataType) != UniqueValue(c, j, dataType)
  {
    var seed := ColumnSeed(c.name);
    match UniqueKindOf(dataType)
    case IntKind =>
      assert UniqueValue(c, i, dataType) == IntKey(c, seed, i);
      assert UniqueValue(c, j, dataType) == IntKey(c, seed, j);
      IntKeysDistinct(c, seed, i, j);
    case LongKind =>
      NatToStringInjective(seed * 1_000_000_000 + i, seed * 1_000_000_000 + j);
    case DecimalKind =>
      Wrap32Injective(seed * 1000 + i, seed * 1000 + j);
  }

  function IntKey(c: Column, seed: nat, index: nat): Value {
    if !c.isAutoIncrement then VStr(NatToString(seed * 1_000_000 + index))
    else VStr(IntToString(Wrap32(index + 1)))
  }

  lemma IntKeysDistinct(c: Column, seed: nat, i: nat, j: nat)
    requires i != j && i <= IntMax && j <= IntMax
    ensures IntKey(c, seed, i) != IntKey(c, seed, j)
  {
    if c.isAutoIncrement {
      assert 1 + i == i + 1 && 1 + j == j + 1;
      WrappedTextInjective(1, i, j);
    } else {
      var base := seed * 1_000_000;
      NatToStringInjective(base + i, base + j);
    }
  }

  /** Different rows of a unique column get different values, for every type branch, within the
      capacity of a text column with a length. */
  lemma UniqueValueDistinct(c: Column, dataType: string, i: nat, j: nat)
    requires i != j && WithinCapacity(dataType, i) && WithinCapacity(dataType, j)
    ensures UniqueValue(c, i, dataType) != UniqueValue(c, j, dataType)
  {
    match UniqueKindOf(dataType)
    case TextKind => TextKeysDistinct(c, dataType, i, j);
    case CharKind => TextKeysDistinct(c, dataType, i, j);
    case OtherKind => SeedTextInjective(ColumnSeed(c.name), i, j);
    case _ => NumberKeysDistinct(c, dataType, i, j);
  }

  // ---------------------------------------------------------------------------
  // The type dispatch
  // ---------------------------------------------------------------------------

  function Min(a: nat, b: nat): nat {
    if a < b then a else b
  }

  /** The first branches of the dispatch: variable text, fixed characters, long text and values
      read off the clock. `None` when the type reaches none of them. */
  function TextOrClock(dt: string): (r: Option<Gen>)
    ensures r.Some? && r.value.Exact? ==> r.value.value == VStr("A")
  {
    if Contains(dt, "varchar") || Contains(dt, "char varying") then
      var n := ExtractMaxLength(dt);
      Some(if n > 0 then Drawn(Characters(1, Min(n, 1000))) else Drawn(Word))
    else if Contains(dt, "char(") then
      var n := ExtractMaxLength(dt);
      Some(if n > 0 then Drawn(Alphanumeric(Min(n, 2048))) else Exact(VStr("A")))
    else if Contains(dt, "string") then Some(Drawn(Sentence))
    else if Contains(dt, "text") then Some(Drawn(Paragraph))
    else if Contains(dt, "timestamp") then Some(Drawn(RecentDateTime))
    else if Contains(dt, "datetime") then Some(Drawn(RecentDateTime))
    else if Contains(dt, "date") && !Contains(dt, "datetime") && !Contains(dt, "timestamp") then
      Some(Drawn(RecentDate))
    else if Contains(dt, "time") && !Contains(dt, "datetime") && !Contains(dt, "timestamp") then
      Some(Drawn(TimeOfDay))
    else None
  }

  /** An `int` column: the row number counted from 1 for an identity column, else a random
      32-bit number. */
  function IntColumn(c: Column, index: nat): Gen {
    if c.isAutoIncrement then Exact(VStr(IntToString(Wrap32(index + 1))))
    else Drawn(IntBetween(IntMin, IntMax))
  }

  /** The integer branches in the order the source tests them: `int` first, so the `short` test
      sees no `smallint` and the `bigint` test sees nothing at all. */
  function IntegerAsWritten(c: Column, index: nat, dt: string): (r: Option<Gen>)
    ensures r.Some? && r.value.Exact? ==> c.isAutoIncrement
  {
    if Contains(dt, "integer") || Contains(dt, "int") then Some(IntColumn(c, index))
    else if Contains(dt, "short") || Contains(dt, "smallint") then Some(Drawn(IntBetween(-32768, 32767)))
    else if Contains(dt, "bigint") then Some(Drawn(IntBetween(LongMin, LongMax)))
    else None
  }

  /** The integer branches with the 16-bit test moved before the `int` test, so that `smallint`
      columns get 16-bit values. */
  function IntegerCorrected(c: Column, index: nat, dt: string): (r: Option<Gen>)
    ensures r.Some? && r.value.Exact? ==> c.isAutoIncrement
  {
    if Contains(dt, "short") || Contains(dt, "smallint") then Some(Drawn(IntBetween(-32768, 32767)))
    else IntegerAsWritten(c, index, dt)
  }

  /** The bounds of a `numeric(p, s)` column: a double of scale `s` within `10^(p-s) - 1` (cast to
      `int`) when `s > 0`, else a `long` within `10^p - 1`. */
  function NumericDraw(dt: string): Draw {
    var ps := ExtractPrecisionScale(dt);
    NumericBounds(ps.0, ps.1)
  }

  function NumericBounds(p: nat, s: nat): Draw {
    if s > 0 then
      if p < s then DecimalBetween(s, 0, 0)
      else DecimalBetween(s, ClampInt(-(Pow10(p - s) - 1)), ClampInt(Pow10(p - s) - 1))
    else
      IntBetween(-(LongPow10(p) - 1), LongPow10(p) - 1)
  }

  /** The branches after the integer ones. */
  function OtherTypes(dt: string): (g: Gen)
    ensures g.Drawn?
  {
    if Contains(dt, "numeric") || Contains(dt, "decimal") then Drawn(NumericDraw(dt))
    else if Contains(dt, "float") || Contains(dt, "real") then Drawn(DecimalBetween(7, -340000000, 340000000))
    else if Contains(dt, "double") then Drawn(DecimalBetween(15, -1700000000, 1700000000))
    else if Contains(dt, "boolean") || Contains(dt, "bool") then Drawn(Coin)
    else if Contains(dt, "bit(") then
      var n := ExtractMaxLength(dt);
      Drawn(if n > 0 then Bits(n) else Bits(1))
    else if Contains(dt, "bit varying") then
      var n := ExtractMaxLength(dt);
      Drawn(if n > 0 then BitsUpTo(n) else Bits(1))
    else Drawn(Word)
  }

  /** `generateBasicValue` exactly as the source orders its tests. A key column takes the unique
      path before any type test, and only a key column, an identity column or a `char` column
      without a length gets a value that is not random. */
  function GenerateAsWritten(c: Column, index: nat, t: Table): (g: Gen)
    ensures IsKeyColumn(t, c.name) ==> g == Exact(UniqueValue(c, index, Lower(c.dataType)))
    ensures g.Exact? ==> IsKeyColumn(t, c.name) || c.isAutoIncrement || g.value == VStr("A")
  {
    var dt := Lower(c.dataType);
    if IsKeyColumn(t, c.name) then Exact(UniqueValue(c, index, dt))
    else match TextOrClock(dt)
      case Some(g) => g
      case None =>
        match IntegerAsWritten(c, index, dt)
        case Some(g) => g
        case None => OtherTypes(dt)
  }

  /** `generateBasicValue` with `smallint` routed to the 16-bit range; the same guarantees as
      `GenerateAsWritten`. */
  function Generate(c: Column, index: nat, t: Table): (g: Gen)
    ensures IsKeyColumn(t, c.name) ==> g == Exact(UniqueValue(c, index, Lower(c.dataType)))
    ensures g.Exact? ==> IsKeyColumn(t, c.name) || c.isAutoIncrement || g.value == VStr("A")
  {
    var dt := Lower(c.dataType);
    if IsKeyColumn(t, c.name) then Exact(UniqueValue(c, index, dt))
    else match TextOrClock(dt)
      case Some(g) => g
      case None =>
        match IntegerCorrected(c, index, dt)
        case Some(g) => g
        case None => OtherTypes(dt)
  }
}
