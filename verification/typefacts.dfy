/** What the scalar generator gives for particular column types. Each fact is proved in two
    steps: which keyword tests of the dispatch a type name passes or fails (a keyword is absent
    when the name lacks one of its characters), and what the branch it reaches then draws. */
module TypeFacts {
  import opened Wrappers
  import opened Strings
  import opened Schema
  import opened Values
  import opened TypeParse
  import opened BasicValue

  // ---------------------------------------------------------------------------
  // The stages of the dispatch
  // ---------------------------------------------------------------------------

  lemma GenerateText(c: Column, index: nat, t: Table)
    requires !IsKeyColumn(t, c.name) && TextOrClock(Lower(c.dataType)).Some?
    ensures Generate(c, index, t) == TextOrClock(Lower(c.dataType)).value
    ensures GenerateAsWritten(c, index, t) == TextOrClock(Lower(c.dataType)).value
  {
  }

  lemma GenerateInteger(c: Column, index: nat, t: Table)
    requires !IsKeyColumn(t, c.name) && TextOrClock(Lower(c.dataType)) == None
    requires IntegerCorrected(c, index, Lower(c.dataType)).Some?
    ensures Generate(c, index, t) == IntegerCorrected(c, index, Lower(c.dataType)).value
  {
  }

  lemma GenerateIntegerAsWritten(c: Column, index: nat, t: Table)
    requires !IsKeyColumn(t, c.name) && TextOrClock(Lower(c.dataType)) == None
    requires IntegerAsWritten(c, index, Lower(c.dataType)).Some?
    ensures GenerateAsWritten(c, index, t) == IntegerAsWritten(c, index, Lower(c.dataType)).value
  {
  }

  lemma GenerateOther(c: Column, index: nat, t: Table)
    requires !IsKeyColumn(t, c.name) && TextOrClock(Lower(c.dataType)) == None
    requires IntegerCorrected(c, index, Lower(c.dataType)) == None
    ensures Generate(c, index, t) == OtherTypes(Lower(c.dataType))
  {
  }

  // ---------------------------------------------------------------------------
  // Keyword groups
  // ---------------------------------------------------------------------------

  predicate NoTextKeyword(dt: string) {
    !Contains(dt, "varchar") && !Contains(dt, "char varying") && !Contains(dt, "char(")
    && !Contains(dt, "string") && !Contains(dt, "text")
  }

  predicate NoClockKeyword(dt: string) {
    !Contains(dt, "timestamp") && !Contains(dt, "datetime") && !Contains(dt, "date")
    && !Contains(dt, "time")
  }

  predicate NoIntegerKeyword(dt: string) {
    !Contains(dt, "short") && !Contains(dt, "smallint") && !Contains(dt, "integer")
    && !Contains(dt, "int") && !Contains(dt, "bigint")
  }

  predicate NoNumberKeyword(dt: string) {
    !Contains(dt, "numeric") && !Contains(dt, "decimal") && !Contains(dt, "float")
    && !Contains(dt, "real") && !Contains(dt, "double")
  }

  lemma TextKeywordsAbsent(dt: string, a: char, b: char, c: char, d: char, e: char)
    requires a in "varchar" && b in "char varying" && c in "char(" && d in "string" && e in "text"
    requires a !in dt && b !in dt && c !in dt && d !in dt && e !in dt
    ensures NoTextKeyword(dt)
  {
    ContainsChars(dt, "varchar", a);
    ContainsChars(dt, "char varying", b);
    ContainsChars(dt, "char(", c);
    ContainsChars(dt, "string", d);
    ContainsChars(dt, "text", e);
  }

  lemma ClockKeywordsAbsent(dt: string, a: char, b: char, c: char, d: char)
    requires a in "timestamp" && b in "datetime" && c in "date" && d in "time"
    requires a !in dt && b !in dt && c !in dt && d !in dt
    ensures NoClockKeyword(dt)
  {
    ContainsChars(dt, "timestamp", a);
    ContainsChars(dt, "datetime", b);
    ContainsChars(dt, "date", c);
    ContainsChars(dt, "time", d);
  }

  lemma IntegerKeywordsAbsent(dt: string, a: char, b: char, c: char, d: char, e: char)
    requires a in "short" && b in "smallint" && c in "integer" && d in "int" && e in "bigint"
    requires a !in dt && b !in dt && c !in dt && d !in dt && e !in dt
    ensures NoIntegerKeyword(dt)
  {
    ContainsChars(dt, "short", a);
    ContainsChars(dt, "smallint", b);
    ContainsChars(dt, "integer", c);
    ContainsChars(dt, "int", d);
    ContainsChars(dt, "bigint", e);
  }

  lemma NumberKeywordsAbsent(dt: string, a: char, b: char, c: char, d: char, e: char)
    requires a in "numeric" && b in "decimal" && c in "float" && d in "real" && e in "double"
    requires a !in dt && b !in dt && c !in dt && d !in dt && e !in dt
    ensures NoNumberKeyword(dt)
  {
    ContainsChars(dt, "numeric", a);
    ContainsChars(dt, "decimal", b);
    ContainsChars(dt, "float", c);
    ContainsChars(dt, "real", d);
    ContainsChars(dt, "double", e);
  }

  lemma TextOrClockNone(dt: string)
    requires NoTextKeyword(dt) && NoClockKeyword(dt)
    ensures TextOrClock(dt) == None
  {
  }

  lemma IntegerNone(c: Column, index: nat, dt: string)
    requires NoIntegerKeyword(dt)
    ensures IntegerCorrected(c, index, dt) == None && IntegerAsWritten(c, index, dt) == None
  {
  }

  /** A type name with none of the text, clock or integer keywords goes to the last stage. */
  lemma OtherShape(c: Column, index: nat, t: Table, dt: string, d: Draw)
    requires dt == Lower(c.dataType) && !IsKeyColumn(t, c.name)
    requires NoTextKeyword(dt) && NoClockKeyword(dt) && NoIntegerKeyword(dt)
    requires OtherTypes(dt) == Drawn(d)
    ensures Generate(c, index, t) == Drawn(d)
  {
    TextOrClockNone(dt);
    IntegerNone(c, index, dt);
    GenerateOther(c, index, t);
  }

  /** `sub` sits at the start of `s`. */
  lemma StartsWithWord(s: string, sub: string)
    requires |sub| <= |s| && s[..|sub|] == sub
    ensures Contains(s, sub)
  {
    assert s[0..|sub|] == sub;
    ContainsWindow(s, sub, 0);
  }

  // ---------------------------------------------------------------------------
  // Declared types
  // ---------------------------------------------------------------------------

  /** A type declared with one length, as in `varchar(50)` or `bit(8)`. */
  function Decl(w: string, n: nat): string {
    w + "(" + NatToString(n) + ")"
  }

  /** A character that is neither in `w`, a digit nor a parenthesis is not in `w(n)`. */
  lemma DeclLacks(w: string, n: nat, x: char)
    requires x !in w && !IsDigit(x) && x != '(' && x != ')'
    ensures x !in Decl(w, n)
  {
    var d := NatToString(n);
    assert Decl(w, n) == w + "(" + d + ")";
    assert x !in d by {
      forall k | 0 <= k < |d|
        ensures d[k] != x
      {
      }
    }
  }

  /** A character that is neither in `w`, a digit, a parenthesis, a comma nor a blank is not in
      `w(p, s)`. */
  lemma PairDeclLacks(w: string, p: nat, spaces: nat, s: nat, x: char)
    requires x !in w && !IsDigit(x) && x != '(' && x != ')' && x != ',' && x != ' '
    ensures x !in PairDecl(w, p, spaces, s)
  {
    var dp, ds, sp := NatToString(p), NatToString(s), Repeat(' ', spaces);
    assert PairDecl(w, p, spaces, s) == w + "(" + dp + "," + sp + ds + ")";
    assert x !in dp by {
      forall k | 0 <= k < |dp|
        ensures dp[k] != x
      {
      }
    }
    assert x !in ds by {
      forall k | 0 <= k < |ds|
        ensures ds[k] != x
      {
      }
    }
    assert x !in sp by {
      forall k | 0 <= k < |sp|
        ensures sp[k] != x
      {
      }
    }
  }

  lemma DeclStarts(w: string, n: nat)
    ensures Contains(Decl(w, n), w + "(")
  {
    var t := Decl(w, n);
    assert t == (w + "(") + (NatToString(n) + ")");
    StartsWithWord(t, w + "(");
  }

  lemma PairDeclStarts(w: string, p: nat, spaces: nat, s: nat)
    ensures Contains(PairDecl(w, p, spaces, s), w)
  {
    var t := PairDecl(w, p, spaces, s);
    assert t == w + ("(" + NatToString(p) + "," + Repeat(' ', spaces) + NatToString(s) + ")");
    StartsWithWord(t, w);
  }

  lemma PrefixContains(s: string, w: string)
    requires Contains(s, w + "(")
    ensures Contains(s, w)
  {
    ContainsInner(s, w + "(", 0, |w|);
    assert (w + "(")[0..|w|] == w;
  }

  // ---------------------------------------------------------------------------
  // Key columns
  // ---------------------------------------------------------------------------

  /** A key column gets a value of the unique path, and two rows of it get different values
      within the capacity of the column. */
  lemma KeyColumnValuesDistinct(c: Column, t: Table, i: nat, j: nat)
    requires IsKeyColumn(t, c.name) && i != j
    requires WithinCapacity(Lower(c.dataType), i) && WithinCapacity(Lower(c.dataType), j)
    ensures Generate(c, i, t).Exact? && Generate(c, j, t).Exact?
    ensures Generate(c, i, t) != Generate(c, j, t)
  {
    UniqueValueDistinct(c, Lower(c.dataType), i, j);
  }

  // ---------------------------------------------------------------------------
  // varchar(n) and char(n)
  // ---------------------------------------------------------------------------

  lemma VarcharText(dt: string, n: nat)
    requires dt == Decl("varchar", n) && 0 < n <= IntMax
    ensures TextOrClock(dt) == Some(Drawn(Characters(1, Min(n, 1000))))
  {
    DeclStarts("varchar", n);
    PrefixContains(dt, "varchar");
    MaxLengthOfDeclared("varchar", n);
  }

  /** A `varchar(n)` column that is not a key gets between 1 and `n` characters. */
  lemma VarcharFits(c: Column, index: nat, t: Table, n: nat, s: string)
    requires Lower(c.dataType) == Decl("varchar", n) && 0 < n <= IntMax && !IsKeyColumn(t, c.name)
    ensures Generate(c, index, t) == Drawn(Characters(1, Min(n, 1000)))
    ensures Admits(Generate(c, index, t).draw, s) ==> 1 <= |s| <= n
  {
    VarcharText(Lower(c.dataType), n);
    GenerateText(c, index, t);
  }

  lemma CharFacts(dt: string, n: nat)
    requires dt == Decl("char", n) && n <= IntMax
    ensures 'v' !in dt && Contains(dt, "char(") && ExtractMaxLength(dt) == n
  {
    DeclLacks("char", n, 'v');
    DeclStarts("char", n);
    MaxLengthOfDeclared("char", n);
  }

  lemma CharBranch(dt: string, n: nat)
    requires 'v' !in dt && Contains(dt, "char(") && ExtractMaxLength(dt) == n && n > 0
    ensures TextOrClock(dt) == Some(Drawn(Alphanumeric(Min(n, 2048))))
  {
    ContainsChars(dt, "varchar", 'v');
    ContainsChars(dt, "char varying", 'v');
  }

  lemma CharText(dt: string, n: nat)
    requires dt == Decl("char", n) && 0 < n <= IntMax
    ensures TextOrClock(dt) == Some(Drawn(Alphanumeric(Min(n, 2048))))
  {
    CharFacts(dt, n);
    CharBranch(dt, n);
  }

  /** A `char(n)` column that is not a key gets exactly `min(n, 2048)` upper-case letters and
      digits. */
  lemma CharFits(c: Column, index: nat, t: Table, n: nat, s: string)
    requires Lower(c.dataType) == Decl("char", n) && 0 < n <= IntMax && !IsKeyColumn(t, c.name)
    ensures Generate(c, index, t) == Drawn(Alphanumeric(Min(n, 2048)))
    ensures Admits(Generate(c, index, t).draw, s) ==>
      |s| <= n && |s| == Min(n, 2048) && forall k :: 0 <= k < |s| ==> s[k] in CharAlphabet
  {
    CharText(Lower(c.dataType), n);
    GenerateText(c, index, t);
  }

  // ---------------------------------------------------------------------------
  // The clock types
  // ---------------------------------------------------------------------------

  lemma ClockNamesLack(dt: string)
    requires dt == "timestamp" || dt == "datetime" || dt == "date" || dt == "time"
    ensures 'v' !in dt && 'c' !in dt && 'g' !in dt && 'x' !in dt
  {
  }

  lemma ClockNamesNotText(dt: string)
    requires dt == "timestamp" || dt == "datetime" || dt == "date" || dt == "time"
    ensures NoTextKeyword(dt)
  {
    ClockNamesLack(dt);
    TextKeywordsAbsent(dt, 'v', 'c', 'c', 'g', 'x');
  }

  lemma TimestampText(dt: string)
    requires dt == "timestamp"
    ensures TextOrClock(dt) == Some(Drawn(RecentDateTime))
  {
    ClockNamesNotText(dt);
    StartsWithWord(dt, "timestamp");
  }

  lemma DatetimeText(dt: string)
    requires dt == "datetime"
    ensures TextOrClock(dt) == Some(Drawn(RecentDateTime))
  {
    ClockNamesNotText(dt);
    ContainsChars(dt, "timestamp", 's');
    StartsWithWord(dt, "datetime");
  }

  lemma DateText(dt: string)
    requires dt == "date"
    ensures TextOrClock(dt) == Some(Drawn(RecentDate))
  {
    ClockNamesNotText(dt);
    ContainsChars(dt, "timestamp", 's');
    ContainsChars(dt, "datetime", 'i');
    StartsWithWord(dt, "date");
  }

  lemma TimeText(dt: string)
    requires dt == "time"
    ensures TextOrClock(dt) == Some(Drawn(TimeOfDay))
  {
    ClockNamesNotText(dt);
    ContainsChars(dt, "timestamp", 's');
    ContainsChars(dt, "datetime", 'd');
    ContainsChars(dt, "date", 'd');
    StartsWithWord(dt, "time");
  }

  /** The clock types that are not keys: a `timestamp` or `datetime` column gets a date with a
      time, a `date` column a date alone, and a `time` column a time of day. */
  lemma ClockColumns(c: Column, index: nat, t: Table)
    requires !IsKeyColumn(t, c.name)
    ensures Lower(c.dataType) == "timestamp" ==> Generate(c, index, t) == Drawn(RecentDateTime)
    ensures Lower(c.dataType) == "datetime" ==> Generate(c, index, t) == Drawn(RecentDateTime)
    ensures Lower(c.dataType) == "date" ==> Generate(c, index, t) == Drawn(RecentDate)
    ensures Lower(c.dataType) == "time" ==> Generate(c, index, t) == Drawn(TimeOfDay)
  {
    var dt := Lower(c.dataType);
    if dt == "timestamp" {
      TimestampText(dt);
    } else if dt == "datetime" {
      DatetimeText(dt);
    } else if dt == "date" {
      DateText(dt);
    } else if dt == "time" {
      TimeText(dt);
    }
    if TextOrClock(dt).Some? {
      GenerateText(c, index, t);
    }
  }

  // ---------------------------------------------------------------------------
  // The integer types
  // ---------------------------------------------------------------------------

  lemma IntNamesLack(dt: string)
    requires dt == "int" || dt == "integer"
    ensures 'v' !in dt && 'c' !in dt && 's' !in dt && 'x' !in dt && 'p' !in dt && 'd' !in dt && 'm' !in dt
  {
  }

  /** A type name missing one letter of each text keyword and one letter of each date and time
      keyword (the letters `a` to `e` and `f` to `h` name them) is neither text nor clock. */
  lemma KeywordsAbsentSkipText(dt: string, a: char, b: char, d: char, e: char, f: char, g: char, h: char)
    requires a in "varchar" && b in "char varying" && b in "char(" && d in "string" && e in "text"
    requires f in "timestamp" && g in "datetime" && g in "date" && h in "time"
    requires a !in dt && b !in dt && d !in dt && e !in dt && f !in dt && g !in dt && h !in dt
    ensures TextOrClock(dt) == None
  {
    TextKeywordsAbsent(dt, a, b, b, d, e);
    ClockKeywordsAbsent(dt, f, g, g, h);
  }

  lemma SmallintLacks(dt: string)
    requires dt == "smallint"
    ensures 'v' !in dt && 'c' !in dt && 'r' !in dt && 'x' !in dt && 'p' !in dt && 'd' !in dt && 'e' !in dt
  {
  }

  lemma IntInteger(c: Column, index: nat, dt: string)
    requires dt == "int" || dt == "integer"
    ensures IntegerCorrected(c, index, dt) == Some(IntColumn(c, index))
  {
    ContainsChars(dt, "short", 's');
    ContainsChars(dt, "smallint", 's');
    StartsWithWord(dt, "int");
  }

  lemma IntNameDispatch(c: Column, index: nat, dt: string)
    requires dt == "int" || dt == "integer"
    ensures TextOrClock(dt) == None && IntegerCorrected(c, index, dt) == Some(IntColumn(c, index))
  {
    IntNamesLack(dt);
    KeywordsAbsentSkipText(dt, 'v', 'c', 's', 'x', 'p', 'd', 'm');
    IntInteger(c, index, dt);
  }

  lemma IdentityNumber(c: Column, index: nat)
    requires c.isAutoIncrement && index < IntMax
    ensures IntColumn(c, index) == Exact(VStr(NatToString(index + 1)))
  {
  }

  /** An `int` identity column that is not a key is numbered from 1 in row order. */
  lemma IdentityColumnCounts(c: Column, index: nat, t: Table)
    requires Lower(c.dataType) == "int" || Lower(c.dataType) == "integer"
    requires c.isAutoIncrement && !IsKeyColumn(t, c.name) && index < IntMax
    ensures Generate(c, index, t) == Exact(VStr(NatToString(index + 1)))
  {
    IntNameDispatch(c, index, Lower(c.dataType));
    GenerateInteger(c, index, t);
    IdentityNumber(c, index);
  }

  lemma CountedRowsDiffer(c: Column, i: nat, j: nat, t: Table)
    requires i != j
    requires Generate(c, i, t) == Exact(VStr(NatToString(i + 1)))
    requires Generate(c, j, t) == Exact(VStr(NatToString(j + 1)))
    ensures Generate(c, i, t) != Generate(c, j, t)
  {
    NatToStringInjective(i + 1, j + 1);
  }

  /** Two rows of such a column never get the same number. */
  lemma IdentityColumnDistinct(c: Column, i: nat, j: nat, t: Table)
    requires Lower(c.dataType) == "int" || Lower(c.dataType) == "integer"
    requires c.isAutoIncrement && !IsKeyColumn(t, c.name) && i < IntMax && j < IntMax && i != j
    ensures Generate(c, i, t) != Generate(c, j, t)
  {
    IdentityColumnCounts(c, i, t);
    IdentityColumnCounts(c, j, t);
    CountedRowsDiffer(c, i, j, t);
  }

  lemma SmallintAsWrittenInteger(c: Column, index: nat, dt: string)
    requires dt == "smallint"
    ensures IntegerAsWritten(c, index, dt) == Some(IntColumn(c, index))
  {
    ContainsWindow(dt, "int", 5);
  }

  lemma SmallintCorrectedInteger(c: Column, index: nat, dt: string)
    requires dt == "smallint"
    ensures IntegerCorrected(c, index, dt) == Some(Drawn(IntBetween(-32768, 32767)))
  {
    StartsWithWord(dt, "smallint");
  }

  /** The full 32-bit draw may produce any `int` but the largest, the upper bound being exclusive. */
  lemma FullRangeAdmits(x: int)
    requires IntMin <= x < IntMax
    ensures Admits(IntBetween(IntMin, IntMax), IntToString(x))
  {
    assert Between(x, IntMin, IntMax);
  }

  /** As written, a `smallint` column that is not a key or identity column draws from the full
      32-bit range, so that `40000`, which a SMALLINT cannot hold, is a value it may produce. */
  lemma SmallintOverflowsAsWritten(c: Column, index: nat, t: Table)
    requires Lower(c.dataType) == "smallint" && !IsKeyColumn(t, c.name) && !c.isAutoIncrement
    ensures GenerateAsWritten(c, index, t) == Drawn(IntBetween(IntMin, IntMax))
    ensures Admits(GenerateAsWritten(c, index, t).draw, IntToString(40000)) && 40000 > 32767
  {
    SmallintLacks(Lower(c.dataType));
    KeywordsAbsentSkipText(Lower(c.dataType), 'v', 'c', 'r', 'x', 'p', 'd', 'e');
    SmallintAsWrittenInteger(c, index, Lower(c.dataType));
    GenerateIntegerAsWritten(c, index, t);
    FullRangeAdmits(40000);
  }

  /** The two dispatches differ only for types that mention `short` or `smallint`. */
  lemma AsWrittenAgreesWithoutShort(c: Column, index: nat, t: Table)
    requires !Contains(Lower(c.dataType), "short") && !Contains(Lower(c.dataType), "smallint")
    ensures GenerateAsWritten(c, index, t) == Generate(c, index, t)
  {
    assert IntegerCorrected(c, index, Lower(c.dataType)) == IntegerAsWritten(c, index, Lower(c.dataType));
  }

  /** Whatever mentions `bigint` mentions `int`. */
  lemma BigintMentionsInt(dt: string)
    ensures Contains(dt, "bigint") ==> Contains(dt, "int")
  {
    ContainsInner(dt, "bigint", 3, 6);
    assert "bigint"[3..6] == "int";
  }

  /** The 64-bit branch is never reached: a type that mentions `bigint` has already passed the
      `int` test, in either order of the tests. */
  lemma LongBranchUnreachable(c: Column, index: nat, dt: string)
    ensures IntegerAsWritten(c, index, dt) != Some(Drawn(IntBetween(LongMin, LongMax)))
    ensures IntegerCorrected(c, index, dt) != Some(Drawn(IntBetween(LongMin, LongMax)))
  {
    BigintMentionsInt(dt);
  }

  /** A non-key column whose type mentions `bigint` (and no text or clock keyword) gets the
      32-bit `int` treatment: the row number for an identity column, else a 32-bit draw. */
  lemma BigintDrawsInt(c: Column, index: nat, t: Table)
    requires !IsKeyColumn(t, c.name) && TextOrClock(Lower(c.dataType)) == None
    requires Contains(Lower(c.dataType), "bigint")
    ensures GenerateAsWritten(c, index, t) == IntColumn(c, index)
  {
    BigintMentionsInt(Lower(c.dataType));
    GenerateIntegerAsWritten(c, index, t);
  }

  lemma BigintLacks(dt: string)
    requires dt == "bigint"
    ensures 'v' !in dt && 'c' !in dt && 's' !in dt && 'x' !in dt && 'p' !in dt && 'd' !in dt && 'm' !in dt
  {
  }

  /** So a plain `bigint` column draws from the 32-bit range, never beyond it. */
  lemma BigintColumnAs32Bit(c: Column, index: nat, t: Table)
    requires Lower(c.dataType) == "bigint" && !IsKeyColumn(t, c.name) && !c.isAutoIncrement
    ensures GenerateAsWritten(c, index, t) == Drawn(IntBetween(IntMin, IntMax))
  {
    BigintLacks(Lower(c.dataType));
    KeywordsAbsentSkipText(Lower(c.dataType), 'v', 'c', 's', 'x', 'p', 'd', 'm');
    assert Contains("bigint", "bigint") by {
      ContainsWindow("bigint", "bigint", 0);
    }
    BigintDrawsInt(c, index, t);
  }

  /** With the 16-bit test first, every value a `smallint` column may get fits in 16 bits. */
  lemma SmallintFitsCorrected(c: Column, index: nat, t: Table, s: string)
    requires Lower(c.dataType) == "smallint" && !IsKeyColumn(t, c.name)
    ensures Generate(c, index, t) == Drawn(IntBetween(-32768, 32767))
    ensures Admits(Generate(c, index, t).draw, s) ==>
      exists x :: -32768 <= x <= 32767 && s == IntToString(x)
  {
    SmallintLacks(Lower(c.dataType));
    KeywordsAbsentSkipText(Lower(c.dataType), 'v', 'c', 'r', 'x', 'p', 'd', 'e');
    SmallintCorrectedInteger(c, index, Lower(c.dataType));
    GenerateInteger(c, index, t);
  }

  // ---------------------------------------------------------------------------
  // numeric(p, s) and numeric(p)
  // ---------------------------------------------------------------------------

  lemma NumericLacks(dt: string)
    requires 'v' !in dt && 'h' !in dt && 's' !in dt && 't' !in dt && 'g' !in dt && 'b' !in dt
    ensures TextOrClock(dt) == None && NoIntegerKeyword(dt)
  {
    TextKeywordsAbsent(dt, 'v', 'h', 'h', 's', 't');
    ClockKeywordsAbsent(dt, 't', 't', 't', 't');
    IntegerKeywordsAbsent(dt, 's', 's', 'g', 't', 'b');
  }

  lemma NumericPairSkips(dt: string, p: nat, spaces: nat, s: nat)
    requires dt == PairDecl("numeric", p, spaces, s)
    ensures TextOrClock(dt) == None && NoIntegerKeyword(dt)
  {
    PairDeclLacks("numeric", p, spaces, s, 'v');
    PairDeclLacks("numeric", p, spaces, s, 'h');
    PairDeclLacks("numeric", p, spaces, s, 's');
    PairDeclLacks("numeric", p, spaces, s, 't');
    PairDeclLacks("numeric", p, spaces, s, 'g');
    PairDeclLacks("numeric", p, spaces, s, 'b');
    NumericLacks(dt);
  }

  lemma NumericDeclSkips(dt: string, p: nat)
    requires dt == Decl("numeric", p)
    ensures TextOrClock(dt) == None && NoIntegerKeyword(dt)
  {
    DeclLacks("numeric", p, 'v');
    DeclLacks("numeric", p, 'h');
    DeclLacks("numeric", p, 's');
    DeclLacks("numeric", p, 't');
    DeclLacks("numeric", p, 'g');
    DeclLacks("numeric", p, 'b');
    NumericLacks(dt);
  }

  lemma OtherNumeric(dt: string)
    requires Contains(dt, "numeric")
    ensures OtherTypes(dt) == Drawn(NumericDraw(dt))
  {
  }

  lemma NumericDrawOfPair(dt: string, p: nat, spaces: nat, s: nat)
    requires dt == PairDecl("numeric", p, spaces, s) && p <= IntMax && s <= IntMax
    ensures NumericDraw(dt) == NumericBounds(p, s)
  {
    PrecisionScaleOfDeclared("numeric", p, spaces, s);
  }

  lemma NumericDrawOfDecl(dt: string, p: nat)
    requires dt == Decl("numeric", p) && p <= IntMax
    ensures NumericDraw(dt) == NumericBounds(p, 0)
  {
    PrecisionOfDeclared("numeric", p);
  }

  lemma NumericScaledShape(c: Column, index: nat, t: Table, p: nat, spaces: nat, s: nat)
    requires Lower(c.dataType) == PairDecl("numeric", p, spaces, s) && !IsKeyColumn(t, c.name)
    requires 0 < s <= p <= IntMax
    ensures Generate(c, index, t) == Drawn(NumericBounds(p, s))
  {
    var dt := Lower(c.dataType);
    NumericPairSkips(dt, p, spaces, s);
    IntegerNone(c, index, dt);
    GenerateOther(c, index, t);
    PairDeclStarts("numeric", p, spaces, s);
    OtherNumeric(dt);
    NumericDrawOfPair(dt, p, spaces, s);
  }

  lemma ScaledBoundsExact(k: nat)
    requires k <= 9
    ensures ClampInt(-(Pow10(k) - 1)) == -(Pow10(k) - 1) && ClampInt(Pow10(k) - 1) == Pow10(k) - 1
  {
    Pow10Monotone(k, 9);
    assert Pow10(9) == 1_000_000_000;
  }

  lemma ScaledBounds(p: nat, s: nat)
    requires 0 < s <= p
    ensures NumericBounds(p, s) ==
      DecimalBetween(s, ClampInt(-(Pow10(p - s) - 1)), ClampInt(Pow10(p - s) - 1))
    ensures p - s <= 9 ==>
      NumericBounds(p, s) == DecimalBetween(s, -(Pow10(p - s) - 1), Pow10(p - s) - 1)
  {
    if p - s <= 9 {
      ScaledBoundsExact(p - s);
    }
  }

  /** A `numeric(p, s)` column with `0 < s <= p` that is not a key gets a decimal of scale `s`
      whose bounds are `10^(p-s) - 1` either side of zero, cast to `int`; so the bounds are exact
      whenever `p - s <= 9`. */
  lemma NumericScaledBounds(c: Column, index: nat, t: Table, p: nat, spaces: nat, s: nat)
    requires Lower(c.dataType) == PairDecl("numeric", p, spaces, s) && !IsKeyColumn(t, c.name)
    requires 0 < s <= p <= IntMax
    ensures Generate(c, index, t) ==
      Drawn(DecimalBetween(s, ClampInt(-(Pow10(p - s) - 1)), ClampInt(Pow10(p - s) - 1)))
    ensures p - s <= 9 ==>
      Generate(c, index, t) == Drawn(DecimalBetween(s, -(Pow10(p - s) - 1), Pow10(p - s) - 1))
  {
    NumericScaledShape(c, index, t, p, spaces, s);
    ScaledBounds(p, s);
  }

  lemma WholeBounds(p: nat)
    requires p <= 18
    ensures NumericBounds(p, 0) == IntBetween(-(Pow10(p) - 1), Pow10(p) - 1)
  {
  }

  lemma NumericWholeShape(c: Column, index: nat, t: Table, p: nat)
    requires Lower(c.dataType) == Decl("numeric", p) && !IsKeyColumn(t, c.name) && p <= 18
    ensures Generate(c, index, t) == Drawn(NumericBounds(p, 0))
  {
    var dt := Lower(c.dataType);
    NumericDeclSkips(dt, p);
    IntegerNone(c, index, dt);
    GenerateOther(c, index, t);
    DeclStarts("numeric", p);
    PrefixContains(dt, "numeric");
    OtherNumeric(dt);
    NumericDrawOfDecl(dt, p);
  }

  lemma WholeDrawFits(p: nat, v: string)
    ensures Admits(IntBetween(-(Pow10(p) - 1), Pow10(p) - 1), v) ==>
      exists x: int :: -(Pow10(p) as int) < x < Pow10(p) && v == IntToString(x)
  {
    if Admits(IntBetween(-(Pow10(p) - 1), Pow10(p) - 1), v) {
      var x :| Between(x, -(Pow10(p) - 1), Pow10(p) - 1) && v == IntToString(x);
      assert -(Pow10(p) as int) < x < Pow10(p);
    }
  }

  /** A `numeric(p)` column with `p <= 18` that is not a key gets a whole number of at most `p`
      digits. */
  lemma NumericWholeFits(c: Column, index: nat, t: Table, p: nat, v: string)
    requires Lower(c.dataType) == Decl("numeric", p) && !IsKeyColumn(t, c.name) && p <= 18
    ensures Generate(c, index, t) == Drawn(IntBetween(-(Pow10(p) - 1), Pow10(p) - 1))
    ensures Admits(Generate(c, index, t).draw, v) ==>
      exists x: int :: -(Pow10(p) as int) < x < Pow10(p) && v == IntToString(x)
  {
    NumericWholeShape(c, index, t, p);
    WholeBounds(p);
    WholeDrawFits(p, v);
  }

  // ---------------------------------------------------------------------------
  // bit(n) and boolean
  // ---------------------------------------------------------------------------

  lemma BitLacks(dt: string, n: nat)
    requires dt == Decl("bit", n)
    ensures 'v' !in dt && 'c' !in dt && 's' !in dt && 'e' !in dt && 'd' !in dt
    ensures 'n' !in dt && 'g' !in dt && 'f' !in dt && 'r' !in dt && 'o' !in dt
  {
    DeclLacks("bit", n, 'v');
    DeclLacks("bit", n, 'c');
    DeclLacks("bit", n, 's');
    DeclLacks("bit", n, 'e');
    DeclLacks("bit", n, 'd');
    DeclLacks("bit", n, 'n');
    DeclLacks("bit", n, 'g');
    DeclLacks("bit", n, 'f');
    DeclLacks("bit", n, 'r');
    DeclLacks("bit", n, 'o');
  }

  lemma BitKeywords(dt: string)
    requires 'v' !in dt && 'c' !in dt && 's' !in dt && 'e' !in dt && 'd' !in dt
    requires 'n' !in dt && 'g' !in dt && 'f' !in dt && 'r' !in dt && 'o' !in dt
    ensures NoTextKeyword(dt) && NoClockKeyword(dt) && NoIntegerKeyword(dt) && NoNumberKeyword(dt)
    ensures !Contains(dt, "boolean") && !Contains(dt, "bool")
  {
    TextKeywordsAbsent(dt, 'v', 'c', 'c', 's', 'e');
    ClockKeywordsAbsent(dt, 'e', 'e', 'd', 'e');
    IntegerKeywordsAbsent(dt, 's', 's', 'e', 'n', 'g');
    NumberKeywordsAbsent(dt, 'n', 'd', 'f', 'r', 'd');
    ContainsChars(dt, "boolean", 'o');
    ContainsChars(dt, "bool", 'o');
  }

  lemma BitFacts(dt: string, n: nat)
    requires dt == Decl("bit", n) && n <= IntMax
    ensures NoTextKeyword(dt) && NoClockKeyword(dt) && NoIntegerKeyword(dt) && NoNumberKeyword(dt)
    ensures !Contains(dt, "boolean") && !Contains(dt, "bool")
    ensures Contains(dt, "bit(") && ExtractMaxLength(dt) == n
  {
    BitLacks(dt, n);
    BitKeywords(dt);
    DeclStarts("bit", n);
    MaxLengthOfDeclared("bit", n);
  }

  lemma BitOther(dt: string, n: nat)
    requires NoNumberKeyword(dt) && !Contains(dt, "boolean") && !Contains(dt, "bool")
    requires Contains(dt, "bit(") && ExtractMaxLength(dt) == n && n > 0
    ensures OtherTypes(dt) == Drawn(Bits(n))
  {
  }

  lemma BitColumn(c: Column, index: nat, t: Table, n: nat)
    requires Lower(c.dataType) == Decl("bit", n) && 0 < n <= IntMax && !IsKeyColumn(t, c.name)
    ensures Generate(c, index, t) == Drawn(Bits(n))
  {
    var dt := Lower(c.dataType);
    BitFacts(dt, n);
    BitOther(dt, n);
    OtherShape(c, index, t, dt, Bits(n));
  }

  /** A `bit(n)` column that is not a key gets exactly `n` binary digits. */
  lemma BitFits(c: Column, index: nat, t: Table, n: nat, s: string)
    requires Lower(c.dataType) == Decl("bit", n) && 0 < n <= IntMax && !IsKeyColumn(t, c.name)
    ensures Generate(c, index, t) == Drawn(Bits(n))
    ensures Admits(Generate(c, index, t).draw, s) ==>
      |s| == n && forall k :: 0 <= k < |s| ==> s[k] == '0' || s[k] == '1'
  {
    BitColumn(c, index, t, n);
  }

  lemma BooleanLacks(dt: string)
    requires dt == "boolean"
    ensures 'v' !in dt && 'c' !in dt && 's' !in dt && 't' !in dt && 'i' !in dt
    ensures 'm' !in dt && 'd' !in dt && 'f' !in dt && 'r' !in dt
  {
  }

  lemma BooleanKeywords(dt: string)
    requires 'v' !in dt && 'c' !in dt && 's' !in dt && 't' !in dt && 'i' !in dt
    requires 'm' !in dt && 'd' !in dt && 'f' !in dt && 'r' !in dt
    ensures NoTextKeyword(dt) && NoClockKeyword(dt) && NoIntegerKeyword(dt) && NoNumberKeyword(dt)
  {
    TextKeywordsAbsent(dt, 'v', 'c', 'c', 's', 't');
    ClockKeywordsAbsent(dt, 't', 't', 't', 't');
    IntegerKeywordsAbsent(dt, 's', 's', 'i', 'i', 'i');
    NumberKeywordsAbsent(dt, 'm', 'd', 'f', 'r', 'd');
  }

  lemma BooleanOther(dt: string)
    requires dt == "boolean" && NoNumberKeyword(dt)
    ensures OtherTypes(dt) == Drawn(Coin)
  {
    StartsWithWord(dt, "boolean");
  }

  lemma BooleanShape(c: Column, index: nat, t: Table)
    requires Lower(c.dataType) == "boolean" && !IsKeyColumn(t, c.name)
    ensures Generate(c, index, t) == Drawn(Coin)
  {
    var dt := Lower(c.dataType);
    BooleanLacks(dt);
    BooleanKeywords(dt);
    BooleanOther(dt);
    OtherShape(c, index, t, dt, Coin);
  }

  /** A `boolean` column that is not a key gets `true` or `false`. */
  lemma BooleanColumn(c: Column, index: nat, t: Table, s: string)
    requires Lower(c.dataType) == "boolean" && !IsKeyColumn(t, c.name)
    ensures Generate(c, index, t) == Drawn(Coin)
    ensures Admits(Generate(c, index, t).draw, s) ==> s == "true" || s == "false"
  {
    BooleanShape(c, index, t);
  }
}
