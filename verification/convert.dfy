/** The conversion of a generated value into the object bound to a JDBC parameter, chosen by
    the column's declared type. The typed branches parse strings and pass every other value
    through; a string that does not parse is bound as it is. */
module Conversion {
  import opened Wrappers
  import opened Strings
  import opened Schema
  import opened Values

  /** The branches of the conversion, in the order they are tested. */
  datatype Kind = BigIntKind | SmallIntKind | IntKind | DecimalKind | FloatKind | DoubleKind
                | DateKind | TimeKind | DateTimeKind | BoolKind | TextKind

  /** The branch a lower-cased declared type takes: the integer tests, then the other numeric
      tests, then the rest. */
  function KindOfLower(dt: string): Kind {
    if Contains(dt, "bigint") || Contains(dt, "long") then BigIntKind
    else if Contains(dt, "smallint") || Contains(dt, "short") then SmallIntKind
    else if Contains(dt, "integer") || Contains(dt, "int") then IntKind
    else if Contains(dt, "numeric") || Contains(dt, "decimal") then DecimalKind
    else if Contains(dt, "float") || Contains(dt, "real") then FloatKind
    else if Contains(dt, "double") then DoubleKind
    else ClockOrOther(dt)
  }

  /** The tests after the numeric ones. */
  function ClockOrOther(dt: string): Kind {
    if Contains(dt, "date") && !Contains(dt, "datetime") && !Contains(dt, "timestamp") then DateKind
    else if Contains(dt, "time") && !Contains(dt, "datetime") && !Contains(dt, "timestamp") then TimeKind
    else if Contains(dt, "datetime") || Contains(dt, "timestamp") then DateTimeKind
    else if Contains(dt, "boolean") || Contains(dt, "bool") then BoolKind
    else TextKind
  }

  /** The branch a declared type takes; the test is made on its lower-case form. */
  function KindOf(dataType: string): Kind {
    KindOfLower(Lower(dataType))
  }

  // ---------------------------------------------------------------------------
  // Properties of the dispatch
  // ---------------------------------------------------------------------------

  /** Every type that mentions `int` is bound as an integer of some width. */
  lemma IntWordGivesInteger(dt: string)
    requires Contains(dt, "int")
    ensures IsIntegerKind(KindOfLower(dt))
  {
  }

  /** A type that mentions `datetime` or `timestamp` is never bound as a bare date or time. */
  lemma TimestampWordNotDate(dt: string)
    requires Contains(dt, "datetime") || Contains(dt, "timestamp")
    ensures KindOfLower(dt) != DateKind && KindOfLower(dt) != TimeKind
  {
  }

  predicate NoNumericWord(dt: string) {
    !Contains(dt, "bigint") && !Contains(dt, "long") && !Contains(dt, "smallint")
    && !Contains(dt, "short") && !Contains(dt, "integer") && !Contains(dt, "int")
    && !Contains(dt, "numeric") && !Contains(dt, "decimal") && !Contains(dt, "float")
    && !Contains(dt, "real") && !Contains(dt, "double")
  }

  /** A type missing one letter of each numeric keyword skips the numeric tests. */
  lemma NumericWordsAbsent(dt: string, a: char, b: char, c: char, d: char, e: char, f: char,
                           g: char, h: char, i: char, j: char, k: char)
    requires a in "bigint" && b in "long" && c in "smallint" && d in "short" && e in "integer"
    requires f in "int" && g in "numeric" && h in "decimal" && i in "float" && j in "real" && k in "double"
    requires a !in dt && b !in dt && c !in dt && d !in dt && e !in dt && f !in dt
    requires g !in dt && h !in dt && i !in dt && j !in dt && k !in dt
    ensures NoNumericWord(dt)
    ensures KindOfLower(dt) == ClockOrOther(dt)
  {
    ContainsChars(dt, "bigint", a);
    ContainsChars(dt, "long", b);
    ContainsChars(dt, "smallint", c);
    ContainsChars(dt, "short", d);
    ContainsChars(dt, "integer", e);
    ContainsChars(dt, "int", f);
    ContainsChars(dt, "numeric", g);
    ContainsChars(dt, "decimal", h);
    ContainsChars(dt, "float", i);
    ContainsChars(dt, "real", j);
    ContainsChars(dt, "double", k);
  }

  /** `sub` sits at the start of `s`. */
  lemma StartsWithContains(s: string, sub: string)
    requires StartsWith(s, sub)
    ensures Contains(s, sub)
  {
  }

  /** `smallint` is bound as a 16-bit number: the conversion tests it before `int`, unlike the
      scalar generator. */
  lemma SmallintConvertsAsShort(dt: string)
    requires dt == "smallint"
    ensures KindOfLower(dt) == SmallIntKind
  {
    SmallintLacks(dt);
    ContainsChars(dt, "bigint", 'b');
    ContainsChars(dt, "long", 'o');
    StartsWithContains(dt, "smallint");
  }

  lemma SmallintLacks(dt: string)
    requires dt == "smallint"
    ensures 'b' !in dt && 'o' !in dt
  {
  }

  /** `bigint` is bound as a 64-bit number. */
  lemma BigintConvertsAsLong(dt: string)
    requires dt == "bigint"
    ensures KindOfLower(dt) == BigIntKind
  {
    StartsWithContains(dt, "bigint");
  }

  /** The letters the clock type names lack. */
  predicate LacksNumericLetters(dt: string) {
    'b' !in dt && 'l' !in dt && 'h' !in dt && 'n' !in dt && 'c' !in dt && 'f' !in dt
    && 'r' !in dt && 'o' !in dt
  }

  lemma TimestampLacks(dt: string)
    requires dt == "timestamp"
    ensures LacksNumericLetters(dt) && 'd' !in dt
  {
  }

  lemma DatetimeLacks(dt: string)
    requires dt == "datetime"
    ensures LacksNumericLetters(dt)
  {
  }

  lemma DateLacks(dt: string)
    requires dt == "date"
    ensures LacksNumericLetters(dt)
  {
  }

  /** A clock type name skips every numeric test. */
  lemma ClockSkipsNumeric(dt: string)
    requires LacksNumericLetters(dt)
    ensures KindOfLower(dt) == ClockOrOther(dt)
  {
    NumericWordsAbsent(dt, 'b', 'l', 'l', 'h', 'n', 'n', 'n', 'c', 'f', 'r', 'o');
  }

  /** `timestamp` is bound as a timestamp ... */
  lemma TimestampConvertsAsTimestamp(dt: string)
    requires dt == "timestamp"
    ensures KindOfLower(dt) == DateTimeKind
  {
    TimestampLacks(dt);
    ClockSkipsNumeric(dt);
    StartsWithContains(dt, "timestamp");
    ContainsChars(dt, "date", 'd');
  }

  /** ... and so is `datetime`. */
  lemma DatetimeConvertsAsTimestamp(dt: string)
    requires dt == "datetime"
    ensures KindOfLower(dt) == DateTimeKind
  {
    DatetimeLacks(dt);
    ClockSkipsNumeric(dt);
    StartsWithContains(dt, "datetime");
  }

  /** `date` is bound as a date. */
  lemma DateConvertsAsDate(dt: string)
    requires dt == "date"
    ensures KindOfLower(dt) == DateKind
  {
    DateLacks(dt);
    ClockSkipsNumeric(dt);
    NotContainsLonger(dt, "datetime");
    NotContainsLonger(dt, "timestamp");
    StartsWithContains(dt, "date");
  }

  // ---------------------------------------------------------------------------
  // Parsing
  // ---------------------------------------------------------------------------

  const ShortMin: int := -0x8000
  const ShortMax: int := 0x7FFF

  /** The digits after an optional sign. */
  function Unsigned(s: string): string {
    if |s| > 0 && (s[0] == '-' || s[0] == '+') then s[1..] else s
  }

  /** `Long.parseLong`, `Integer.parseInt` and `Short.parseShort` before their range check: an
      optional sign followed by at least one ASCII digit. */
  function ParseDecimal(s: string): (r: Option<int>)
    ensures r.Some? <==> |Unsigned(s)| > 0 && AllDigits(Unsigned(s))
  {
    var digits := Unsigned(s);
    if |digits| > 0 && AllDigits(digits) then
      var v: int := DigitsValue(digits);
      Some(if |s| > 0 && s[0] == '-' then -v else v)
    else None
  }

  /** A parse whose value must lie in `[lo, hi]`. */
  function ParseInRange(s: string, lo: int, hi: int): (r: Option<int>)
    ensures r.Some? ==> lo <= r.value <= hi && ParseDecimal(s) == r
    ensures r.None? ==> ParseDecimal(s).None? || !(lo <= ParseDecimal(s).value <= hi)
  {
    match ParseDecimal(s)
    case Some(n) => if lo <= n <= hi then Some(n) else None
    case None => None
  }

  /** Reading back the decimal rendering of a number gives the number. */
  lemma ParseRendered(n: int)
    ensures ParseDecimal(IntToString(n)) == Some(n)
  {
    var s := IntToString(n);
    IntToStringSign(n);
    if n < 0 {
      NatToStringRoundTrip(-n);
      assert Unsigned(s) == NatToString(-n);
    } else {
      NatToStringRoundTrip(n);
      assert IsDigit(s[0]);
      assert Unsigned(s) == s;
    }
  }

  /** `Boolean.parseBoolean`: true exactly for `true` in any case; it never fails. */
  predicate ParseBoolean(s: string) {
    EqualsIgnoreCase(s, "true")
  }

  // ---------------------------------------------------------------------------
  // Date-time normalisation
  // ---------------------------------------------------------------------------

  /** `String.replace(char, char)`. */
  function ReplaceWith(s: string, from: char, to: char): (r: string)
    ensures |r| == |s|
    ensures forall k :: 0 <= k < |s| ==> r[k] == if s[k] == from then to else s[k]
  {
    seq(|s|, k requires 0 <= k < |s| => if s[k] == from then to else s[k])
  }

  /** The date-time string handed to `LocalDateTime.parse`: `T` becomes a space, the text is cut
      to 19 characters, then every space becomes `T`. */
  function NormaliseDateTime(s: string): (r: string)
    ensures |r| == if |s| > 19 then 19 else |s|
    ensures forall k :: 0 <= k < |r| ==> r[k] == if s[k] == ' ' then 'T' else s[k]
  {
    var spaced := ReplaceWith(s, 'T', ' ');
    var cut := if |spaced| > 19 then spaced[..19] else spaced;
    ReplaceWith(cut, ' ', 'T')
  }

  /** The normal form has no space, and normalising it again changes nothing. */
  lemma NormaliseIdempotent(s: string)
    ensures ' ' !in NormaliseDateTime(s)
    ensures NormaliseDateTime(NormaliseDateTime(s)) == NormaliseDateTime(s)
  {
  }

  /** Both ISO spellings, `date time` and `dateTtime`, with or without a fraction of a second,
      reach the parser as `dateTtime`. */
  lemma IsoSpellingsAgree(date: string, time: string, fraction: string)
    requires |date| == 10 && |time| == 8
    requires ' ' !in date && ' ' !in time
    ensures NormaliseDateTime(date + " " + time + fraction) == date + "T" + time
    ensures NormaliseDateTime(date + "T" + time) == date + "T" + time
  {
    var a := NormaliseDateTime(date + " " + time + fraction);
    var b := NormaliseDateTime(date + "T" + time);
    var want := date + "T" + time;
    assert forall k :: 0 <= k < 19 ==> a[k] == want[k];
    assert forall k :: 0 <= k < 19 ==> b[k] == want[k];
  }

  // ---------------------------------------------------------------------------
  // Conversion
  // ---------------------------------------------------------------------------

  /** The object bound to a parameter. `Raw` is the generated value itself; `Parsed` is a
      decimal, floating-point, date, time or timestamp object built from `text` by a library
      parser. */
  datatype Param = Raw(v: Value) | LongParam(n: int) | ShortParam(n: int) | IntParam(n: int)
                 | Parsed(kind: Kind, text: string) | BoolParam(b: bool) | TextParam(s: string)

  /** Whether the library parser of a kind (`BigDecimal`, `Float.parseFloat`,
      `Double.parseDouble`, `LocalDate.parse`, `LocalTime.parse`, `LocalDateTime.parse`) accepts
      a string. */
  type Accepts = (Kind, string) -> bool

  /** `toString` of a value. */
  function Text(v: Value): string {
    match v
    case VInt(n) => IntToString(n)
    case VStr(s) => s
    case VNull => "null"
  }

  /** The integer kinds and their ranges. */
  predicate IsIntegerKind(k: Kind) {
    k == BigIntKind || k == SmallIntKind || k == IntKind
  }

  function KindMin(k: Kind): int
    requires IsIntegerKind(k)
  {
    match k
    case BigIntKind => LongMin
    case SmallIntKind => ShortMin
    case _ => IntMin
  }

  function KindMax(k: Kind): int
    requires IsIntegerKind(k)
  {
    match k
    case BigIntKind => LongMax
    case SmallIntKind => ShortMax
    case _ => IntMax
  }

  predicate InKindRange(k: Kind, n: int)
    requires IsIntegerKind(k)
  {
    KindMin(k) <= n <= KindMax(k)
  }

  function IntegerParam(k: Kind, n: int): Param
    requires IsIntegerKind(k)
  {
    match k
    case BigIntKind => LongParam(n)
    case SmallIntKind => ShortParam(n)
    case _ => IntParam(n)
  }

  /** A string in a typed branch: the parsed object, or `None` when the parser throws. */
  function ParseAs(k: Kind, s: string, accepts: Accepts): (r: Option<Param>)
    requires k != TextKind
  {
    if IsIntegerKind(k) then
      (match ParseInRange(s, KindMin(k), KindMax(k))
       case Some(n) => Some(IntegerParam(k, n))
       case None => None)
    else if k == BoolKind then Some(BoolParam(ParseBoolean(s)))
    else if k == DateTimeKind then
      var n := NormaliseDateTime(s);
      if accepts(k, n) then Some(Parsed(k, n)) else None
    else if accepts(k, s) then Some(Parsed(k, s))
    else None
  }

  /** The conversion once the branch is chosen. */
  function ConvertAs(v: Value, k: Kind, accepts: Accepts): (r: Param)
    ensures v == VNull ==> r == Raw(VNull)
    ensures v.VInt? && k != TextKind ==> r == Raw(v)
    ensures v != VNull && k == TextKind ==> r == TextParam(Text(v))
    ensures r.Raw? ==> r.v == v
    ensures r.Parsed? ==> r.kind == k && accepts(r.kind, r.text)
  {
    if v == VNull then Raw(v)
    else if k == TextKind then TextParam(Text(v))
    else if v.VStr? then
      match ParseAs(k, v.s, accepts)
      case Some(p) => p
      case None => Raw(v)
    else Raw(v)
  }

  /** `convertValueByColumnType`: null stays null; a text column binds the value's string form;
      a typed column parses a string and passes any other value through; a string that does not
      parse is bound as it is. */
  function Convert(v: Value, c: Column, accepts: Accepts): (r: Param)
    ensures v == VNull ==> r == Raw(VNull)
    ensures v != VNull && KindOf(c.dataType) == TextKind ==> r == TextParam(Text(v))
    ensures v.VInt? && KindOf(c.dataType) != TextKind ==> r == Raw(v)
    ensures r.Raw? ==> r.v == v
    ensures r.Parsed? ==> r.kind == KindOf(c.dataType) && accepts(r.kind, r.text)
  {
    ConvertAs(v, KindOf(c.dataType), accepts)
  }

  // ---------------------------------------------------------------------------
  // Properties
  // ---------------------------------------------------------------------------

  /** A number written out in decimal converts back to that number in an integer branch whose
      range holds it ... */
  lemma IntegerTextRoundTrip(k: Kind, n: int, accepts: Accepts)
    requires IsIntegerKind(k) && InKindRange(k, n)
    ensures ConvertAs(VStr(IntToString(n)), k, accepts) == IntegerParam(k, n)
  {
    ParseRendered(n);
  }

  /** ... and is bound as the original string when the range does not hold it. */
  lemma IntegerOverflowKeepsText(k: Kind, n: int, accepts: Accepts)
    requires IsIntegerKind(k) && !InKindRange(k, n)
    ensures ConvertAs(VStr(IntToString(n)), k, accepts) == Raw(VStr(IntToString(n)))
  {
    ParseRendered(n);
  }

  /** A string that is not a number is bound unchanged in every integer branch. */
  lemma NonNumberKeepsText(k: Kind, s: string, accepts: Accepts)
    requires IsIntegerKind(k) && ParseDecimal(s).None?
    ensures ConvertAs(VStr(s), k, accepts) == Raw(VStr(s))
  {
  }

  /** In the timestamp branch both ISO spellings of the same instant, the one with a space and
      any fraction and the one with a `T`, reach the parser as the same text: both bind the
      parsed timestamp when it accepts that text, and each is bound unchanged otherwise. */
  lemma TimestampSpellingsAgree(date: string, time: string, fraction: string, accepts: Accepts)
    requires |date| == 10 && |time| == 8 && ' ' !in date && ' ' !in time
    ensures accepts(DateTimeKind, date + "T" + time) ==>
      && ConvertAs(VStr(date + " " + time + fraction), DateTimeKind, accepts) == Parsed(DateTimeKind, date + "T" + time)
      && ConvertAs(VStr(date + "T" + time), DateTimeKind, accepts) == Parsed(DateTimeKind, date + "T" + time)
    ensures !accepts(DateTimeKind, date + "T" + time) ==>
      && ConvertAs(VStr(date + " " + time + fraction), DateTimeKind, accepts) == Raw(VStr(date + " " + time + fraction))
      && ConvertAs(VStr(date + "T" + time), DateTimeKind, accepts) == Raw(VStr(date + "T" + time))
  {
    IsoSpellingsAgree(date, time, fraction);
  }

  /** The boolean branch binds `true` for any capitalisation of `true` and `false` for any other
      string. */
  lemma BooleanBranch(s: string, accepts: Accepts)
    ensures ConvertAs(VStr(s), BoolKind, accepts) == BoolParam(Lower(s) == "true")
  {
    assert Lower("true") == "true";
    assert ParseBoolean(s) == (Lower(s) == "true");
    assert ParseAs(BoolKind, s, accepts) == Some(BoolParam(ParseBoolean(s)));
  }
}
