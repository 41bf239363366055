/** Reading lengths, precisions and scales out of a lower-cased SQL type such as `varchar(50)` or
    `numeric(10, 2)`. The scalar generator finds the first match of `\((\d+)\)` or of
    `\((\d+),\s*(\d+)\)` and parses the groups with `Integer.parseInt`; a number too large for an
    `int` makes the parse throw, which the generator catches and answers with its default. */
module TypeParse {
  import opened Wrappers
  import opened Strings

  /** The characters `\s` matches: space, tab, newline, vertical tab, form feed, carriage return. */
  predicate IsRegexSpace(c: char) {
    c == ' ' || c == '\t' || c == '\n' || c == '\U{0B}' || c == '\U{0C}' || c == '\r'
  }

  /** The length of the run of ASCII digits starting at `i` (what a greedy `\d+` consumes). */
  function DigitRun(s: string, i: nat): (n: nat)
    requires i <= |s|
    ensures i + n <= |s|
    ensures forall k :: i <= k < i + n ==> IsDigit(s[k])
    ensures i + n < |s| ==> !IsDigit(s[i + n])
    decreases |s| - i
  {
    if i < |s| && IsDigit(s[i]) then 1 + DigitRun(s, i + 1) else 0
  }

  /** The length of the run of `\s` characters starting at `i`. */
  function SpaceRun(s: string, i: nat): (n: nat)
    requires i <= |s|
    ensures i + n <= |s|
    ensures forall k :: i <= k < i + n ==> IsRegexSpace(s[k])
    ensures i + n < |s| ==> !IsRegexSpace(s[i + n])
    decreases |s| - i
  {
    if i < |s| && IsRegexSpace(s[i]) then 1 + SpaceRun(s, i + 1) else 0
  }

  /** The digits starting at `i`. */
  function DigitsFrom(s: string, i: nat): (d: string)
    requires i <= |s|
    ensures AllDigits(d) && |d| == DigitRun(s, i)
  {
    s[i..i + DigitRun(s, i)]
  }

  /** `\((\d+)\)` matches at position `i`. */
  predicate LengthAt(s: string, i: nat) {
    i < |s| && s[i] == '(' && DigitRun(s, i + 1) > 0 &&
    i + 1 + DigitRun(s, i + 1) < |s| && s[i + 1 + DigitRun(s, i + 1)] == ')'
  }

  /** After the opening parenthesis at `j - 1`: digits, a comma, then the scale part. */
  predicate PairTail(s: string, j: nat)
    requires j <= |s|
  {
    var p := DigitRun(s, j);
    p > 0 && j + p < |s| && s[j + p] == ',' && ScaleTail(s, j + p + 1)
  }

  /** After the comma at `k - 1`: optional `\s` characters, digits, a closing parenthesis. */
  predicate ScaleTail(s: string, k: nat)
    requires k <= |s|
  {
    var w := SpaceRun(s, k);
    var q := DigitRun(s, k + w);
    q > 0 && k + w + q < |s| && s[k + w + q] == ')'
  }

  /** `\((\d+),\s*(\d+)\)` matches at position `i`. */
  predicate PairAt(s: string, i: nat) {
    i < |s| && s[i] == '(' && PairTail(s, i + 1)
  }

  /** Where the scale digits of a pair match at `i` start. */
  function ScaleStart(s: string, i: nat): (k: nat)
    requires PairAt(s, i)
    ensures k < |s|
  {
    var k := i + 2 + DigitRun(s, i + 1);
    k + SpaceRun(s, k)
  }

  /** `Matcher.find()`: the leftmost position at or after `from` where `m` matches. */
  function FirstAt(s: string, m: (string, nat) -> bool, from: nat): (r: Option<nat>)
    requires from <= |s|
    ensures r.Some? ==> from <= r.value < |s| && m(s, r.value)
    ensures r.Some? ==> forall k :: from <= k < r.value ==> !m(s, k)
    ensures r.None? <==> forall k :: from <= k < |s| ==> !m(s, k)
    decreases |s| - from
  {
    if from == |s| then None
    else if m(s, from) then Some(from)
    else FirstAt(s, m, from + 1)
  }

  /** `Integer.parseInt` of a digit string: fails when the value does not fit in an `int`. */
  function ParseInt(d: string): (r: Option<nat>)
    requires AllDigits(d)
    ensures r.Some? <==> DigitsValue(d) <= IntMax
    ensures r.Some? ==> r.value == DigitsValue(d)
  {
    if DigitsValue(d) <= IntMax then Some(DigitsValue(d)) else None
  }

  /** `extractMaxLength`: the number in the first `(digits)` of the type, or 0 when there is
      none or it does not fit in an `int`. */
  function ExtractMaxLength(t: string): (r: nat)
    ensures r <= IntMax
    ensures (forall i :: 0 <= i < |t| ==> !LengthAt(t, i)) ==> r == 0
    ensures r > 0 ==> exists i :: 0 <= i < |t| && LengthAt(t, i) && DigitsValue(DigitsFrom(t, i + 1)) == r
  {
    match FirstAt(t, LengthAt, 0)
    case None => 0
    case Some(i) => ParseInt(DigitsFrom(t, i + 1)).GetOr(0)
  }

  /** `extractNumericPrecisionScale`: `(p, s)` from the first `(p, s)` group; failing that `(p, 0)`
      from the first `(p)` group; failing that, or when a number does not fit in an `int`, the
      default `(10, 0)`. */
  function ExtractPrecisionScale(t: string): (r: (nat, nat))
    ensures r.0 <= IntMax && r.1 <= IntMax
    ensures (forall i :: 0 <= i < |t| ==> !PairAt(t, i) && !LengthAt(t, i)) ==> r == (10, 0)
  {
    match FirstAt(t, PairAt, 0)
    case Some(i) =>
      var p := ParseInt(DigitsFrom(t, i + 1));
      var s := ParseInt(DigitsFrom(t, ScaleStart(t, i)));
      if p.Some? && s.Some? then (p.value, s.value) else (10, 0)
    case None =>
      match FirstAt(t, LengthAt, 0)
      case Some(i) =>
        var p := ParseInt(DigitsFrom(t, i + 1));
        if p.Some? then (p.value, 0) else (10, 0)
      case None => (10, 0)
  }

  // ---------------------------------------------------------------------------
  // Reading back what a type declaration writes
  // ---------------------------------------------------------------------------

  /** The digit run starting at `j` is exactly `d` when `d` sits there and no digit follows. */
  lemma {:induction false} DigitRunOf(s: string, j: nat, d: string)
    requires j + |d| <= |s| && s[j..j + |d|] == d && AllDigits(d)
    requires j + |d| < |s| ==> !IsDigit(s[j + |d|])
    ensures DigitRun(s, j) == |d|
    decreases |d|
  {
    if |d| > 0 {
      assert s[j + 1..j + 1 + |d[1..]|] == d[1..];
      DigitRunOf(s, j + 1, d[1..]);
    }
  }

  /** When a match exists at `i` and nowhere before it, the scan finds `i`. */
  lemma FirstAtIs(s: string, m: (string, nat) -> bool, i: nat)
    requires i < |s| && m(s, i)
    requires forall k :: 0 <= k < i ==> !m(s, k)
    ensures FirstAt(s, m, 0) == Some(i)
  {
  }

  /** The type `w(n)` has length `n`, whatever the word `w` before it, as long as it has no
      parenthesis and `n` fits in an `int`. */
  lemma MaxLengthOfDeclared(w: string, n: nat)
    requires '(' !in w && n <= IntMax
    ensures ExtractMaxLength(w + "(" + NatToString(n) + ")") == n
  {
    var d := NatToString(n);
    var s := w + "(" + d + ")";
    assert s[|w| + 1..|w| + 1 + |d|] == d;
    DigitRunOf(s, |w| + 1, d);
    assert LengthAt(s, |w|);
    forall k | 0 <= k < |w|
      ensures !LengthAt(s, k)
    {
      assert s[k] == w[k];
    }
    FirstAtIs(s, LengthAt, |w|);
    assert DigitsFrom(s, |w| + 1) == d;
    NatToStringRoundTrip(n);
  }

  /** The layout `w(p,<spaces>s)`. */
  function PairDecl(w: string, p: nat, spaces: nat, s: nat): string {
    w + "(" + NatToString(p) + "," + Repeat(' ', spaces) + NatToString(s) + ")"
  }

  /** `(`, the digits `dp`, `,`, `spaces` blanks, the digits `ds` and `)`, from position `i` to
      the end of `t`. */
  predicate PairLayout(t: string, i: nat, dp: string, spaces: nat, ds: string) {
    var k := i + 2 + |dp|;
    |t| == k + spaces + |ds| + 1 && t[i] == '(' &&
    t[i + 1..i + 1 + |dp|] == dp && t[k - 1] == ',' &&
    t[k..k + spaces] == Repeat(' ', spaces) &&
    t[k + spaces..k + spaces + |ds|] == ds && t[k + spaces + |ds|] == ')'
  }

  /** Where the parts of `w(p,<spaces>s)` sit. */
  lemma PairDeclParts(w: string, p: nat, spaces: nat, s: nat)
    ensures PairLayout(PairDecl(w, p, spaces, s), |w|, NatToString(p), spaces, NatToString(s))
  {
    var dp, ds, sp := NatToString(p), NatToString(s), Repeat(' ', spaces);
    var t := PairDecl(w, p, spaces, s);
    var k := |w| + 2 + |dp|;
    assert t == (w + "(" + dp + ",") + sp + (ds + ")");
    assert t[|w| + 1..|w| + 1 + |dp|] == dp;
    assert t[k..k + spaces] == sp;
    assert t[k + spaces..k + spaces + |ds|] == ds;
  }

  /** The only parenthesis that opens in `w(p,<spaces>s)` is the one after `w`. */
  lemma PairDeclParens(w: string, p: nat, spaces: nat, s: nat)
    requires '(' !in w
    ensures var t := PairDecl(w, p, spaces, s);
      forall i :: 0 <= i < |t| && i != |w| ==> t[i] != '('
  {
    var t := PairDecl(w, p, spaces, s);
    var rest := NatToString(p) + "," + Repeat(' ', spaces) + NatToString(s) + ")";
    assert t == w + "(" + rest;
    assert '(' !in rest;
    forall i | 0 <= i < |t| && i != |w|
      ensures t[i] != '('
    {
      if i < |w| {
        assert t[i] == w[i];
      } else {
        assert t[i] == rest[i - |w| - 1];
      }
    }
  }

  /** The precision digits of `w(p,<spaces>s)` are followed by the comma. */
  lemma PairDeclFirstGroup(w: string, p: nat, spaces: nat, s: nat)
    ensures var t := PairDecl(w, p, spaces, s);
      |w| + 1 + |NatToString(p)| < |t| &&
      DigitRun(t, |w| + 1) == |NatToString(p)| && t[|w| + 1 + |NatToString(p)|] == ','
  {
    var t := PairDecl(w, p, spaces, s);
    var dp := NatToString(p);
    PairDeclParts(w, p, spaces, s);
    assert |w| + 1 + |dp| == |w| + 2 + |dp| - 1;
    DigitGroupOf(t, |w| + 1, dp);
  }

  /** Digits `dp` followed by a non-digit are the digit group starting at `j`. */
  lemma DigitGroupOf(t: string, j: nat, dp: string)
    requires j + |dp| < |t| && AllDigits(dp) && t[j..j + |dp|] == dp && !IsDigit(t[j + |dp|])
    ensures DigitRun(t, j) == |dp| && DigitsFrom(t, j) == dp
  {
    DigitRunOf(t, j, dp);
  }

  /** Blanks, then digits, then `)` make a scale part. */
  lemma ScaleTailOf(t: string, k: nat, spaces: nat, ds: string)
    requires k + spaces + |ds| < |t| && |ds| > 0 && AllDigits(ds)
    requires t[k..k + spaces] == Repeat(' ', spaces)
    requires t[k + spaces..k + spaces + |ds|] == ds && t[k + spaces + |ds|] == ')'
    ensures ScaleTail(t, k) && SpaceRun(t, k) == spaces && DigitsFrom(t, k + spaces) == ds
  {
    assert IsDigit(ds[0]) && t[k + spaces] == ds[0];
    SpaceRunOf(t, k, spaces);
    DigitGroupOf(t, k + spaces, ds);
  }

  /** A pair layout is a pair match whose groups are its two digit strings. */
  lemma PairLayoutMatches(t: string, i: nat, dp: string, spaces: nat, ds: string)
    requires PairLayout(t, i, dp, spaces, ds)
    requires |dp| > 0 && AllDigits(dp) && |ds| > 0 && AllDigits(ds)
    ensures PairAt(t, i) && DigitsFrom(t, i + 1) == dp && DigitsFrom(t, ScaleStart(t, i)) == ds
  {
    var k := i + 2 + |dp|;
    assert k - 1 == i + 1 + |dp|;
    DigitGroupOf(t, i + 1, dp);
    ScaleTailOf(t, k, spaces, ds);
    assert PairTail(t, i + 1);
  }

  /** The pattern `(p, s)` matches right after `w`, with the two digit groups `p` and `s`. */
  lemma PairDeclLayout(w: string, p: nat, spaces: nat, s: nat)
    ensures var t := PairDecl(w, p, spaces, s);
      PairAt(t, |w|) && DigitsFrom(t, |w| + 1) == NatToString(p) &&
      DigitsFrom(t, ScaleStart(t, |w|)) == NatToString(s)
  {
    PairDeclParts(w, p, spaces, s);
    PairLayoutMatches(PairDecl(w, p, spaces, s), |w|, NatToString(p), spaces, NatToString(s));
  }

  /** The space run starting at `k` is exactly `n` spaces when they sit there and are followed by
      a digit. */
  lemma {:induction false} SpaceRunOf(s: string, k: nat, n: nat)
    requires k + n < |s| && s[k..k + n] == Repeat(' ', n) && IsDigit(s[k + n])
    ensures SpaceRun(s, k) == n
    decreases n
  {
    if n > 0 {
      assert s[k] == ' ';
      assert s[k + 1..k + 1 + (n - 1)] == Repeat(' ', n - 1);
      SpaceRunOf(s, k + 1, n - 1);
    }
  }

  /** `numeric(p, s)` reads back as `(p, s)`, with any number of spaces after the comma. */
  lemma PrecisionScaleOfDeclared(w: string, p: nat, spaces: nat, s: nat)
    requires '(' !in w && p <= IntMax && s <= IntMax
    ensures ExtractPrecisionScale(PairDecl(w, p, spaces, s)) == (p, s)
  {
    var t := PairDecl(w, p, spaces, s);
    PairDeclLayout(w, p, spaces, s);
    PairDeclParens(w, p, spaces, s);
    FirstAtIs(t, PairAt, |w|);
    NatToStringRoundTrip(p);
    NatToStringRoundTrip(s);
  }

  /** `t` holds `(d)` at `i`, no opening parenthesis before it, and nothing after it. */
  predicate SingleLayout(t: string, i: nat, d: string) {
    |t| == i + |d| + 2 && t[i] == '(' && t[i + 1..i + 1 + |d|] == d && t[i + 1 + |d|] == ')' &&
    forall k :: 0 <= k < i ==> t[k] != '('
  }

  lemma SingleDeclLayout(w: string, p: nat)
    requires '(' !in w
    ensures SingleLayout(w + "(" + NatToString(p) + ")", |w|, NatToString(p))
  {
    var d := NatToString(p);
    var t := w + "(" + d + ")";
    assert t[|w| + 1..|w| + 1 + |d|] == d;
    forall k | 0 <= k < |w|
      ensures t[k] != '('
    {
      assert t[k] == w[k];
    }
  }

  /** No `(p, s)` group matches in such a layout. */
  lemma SingleHasNoPair(t: string, i: nat, d: string)
    requires SingleLayout(t, i, d) && AllDigits(d)
    ensures forall k :: 0 <= k < |t| ==> !PairAt(t, k)
  {
    DigitRunOf(t, i + 1, d);
    forall k | 0 <= k < |t|
      ensures !PairAt(t, k)
    {
      if i < k < i + 1 + |d| {
        assert t[k] == d[k - i - 1];
      }
    }
  }

  /** The `(n)` group of such a layout matches first, and its digits are `d`. */
  lemma SingleLengthFirst(t: string, i: nat, d: string)
    requires SingleLayout(t, i, d) && AllDigits(d) && |d| > 0
    ensures FirstAt(t, LengthAt, 0) == Some(i) && DigitsFrom(t, i + 1) == d
  {
    DigitRunOf(t, i + 1, d);
    assert LengthAt(t, i);
    FirstAtIs(t, LengthAt, i);
  }

  /** `numeric(p)` reads back as `(p, 0)`. */
  lemma PrecisionOfDeclared(w: string, p: nat)
    requires '(' !in w && p <= IntMax
    ensures ExtractPrecisionScale(w + "(" + NatToString(p) + ")") == (p, 0)
  {
    var d := NatToString(p);
    var t := w + "(" + d + ")";
    SingleDeclLayout(w, p);
    SingleHasNoPair(t, |w|, d);
    SingleLengthFirst(t, |w|, d);
    NatToStringRoundTrip(p);
  }

  /** A type without any parenthesis gets the default precision and scale, and no length. */
  lemma NoParenthesisDefaults(t: string)
    requires '(' !in t
    ensures ExtractPrecisionScale(t) == (10, 0)
    ensures ExtractMaxLength(t) == 0
  {
    forall i | 0 <= i < |t|
      ensures !PairAt(t, i) && !LengthAt(t, i)
    {
      assert t[i] != '(';
    }
  }

  /** The length pattern does not see a precision and scale: `numeric(10,2)` has length 0. */
  lemma MaxLengthIgnoresPair(w: string, p: nat, spaces: nat, s: nat)
    requires '(' !in w
    ensures ExtractMaxLength(PairDecl(w, p, spaces, s)) == 0
  {
    var t := PairDecl(w, p, spaces, s);
    PairDeclFirstGroup(w, p, spaces, s);
    PairDeclParens(w, p, spaces, s);
    forall i | 0 <= i < |t|
      ensures !LengthAt(t, i)
    {
      if i == |w| {
        assert t[i + 1 + DigitRun(t, i + 1)] == ',';
      }
    }
  }
}
