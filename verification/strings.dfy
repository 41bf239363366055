/** The string and number helpers of java.lang.String, Integer and Long that the generator relies
    on: ASCII case mapping, substring search, qualifier stripping, trimming, splitting, decimal
    rendering and zero padding. */
module Strings {
  import opened Wrappers

  // ---------------------------------------------------------------------------
  // Case mapping (ASCII letters only)
  // ---------------------------------------------------------------------------

  function LowerChar(c: char): char {
    if 'A' <= c <= 'Z' then (c as int + 32) as char else c
  }

  function UpperChar(c: char): char {
    if 'a' <= c <= 'z' then (c as int - 32) as char else c
  }

  /** `String.toLowerCase` restricted to ASCII letters. */
  function Lower(s: string): (r: string)
    ensures |r| == |s|
    ensures forall i :: 0 <= i < |s| ==> r[i] == LowerChar(s[i])
  {
    seq(|s|, i requires 0 <= i < |s| => LowerChar(s[i]))
  }

  /** `String.toUpperCase` restricted to ASCII letters. */
  function Upper(s: string): (r: string)
    ensures |r| == |s|
    ensures forall i :: 0 <= i < |s| ==> r[i] == UpperChar(s[i])
  {
    seq(|s|, i requires 0 <= i < |s| => UpperChar(s[i]))
  }

  /** `String.equalsIgnoreCase` restricted to ASCII letters. */
  predicate EqualsIgnoreCase(a: string, b: string) {
    Lower(a) == Lower(b)
  }

  lemma LowerIdempotent(s: string)
    ensures Lower(Lower(s)) == Lower(s)
  {
  }

  /** Case mapping never introduces or removes a dot. */
  lemma LowerKeepsDots(s: string)
    ensures ('.' in Lower(s)) <==> ('.' in s)
  {
    if '.' in s {
      var i :| 0 <= i < |s| && s[i] == '.';
      assert Lower(s)[i] == '.';
    }
    if '.' in Lower(s) {
      var i :| 0 <= i < |s| && Lower(s)[i] == '.';
      assert s[i] == '.';
    }
  }

  /** Case mapping works character by character, so it distributes over concatenation. */
  lemma LowerAppend(a: string, b: string)
    ensures Lower(a + b) == Lower(a) + Lower(b)
  {
  }

  /** Digits and punctuation are unchanged by case mapping. */
  lemma LowerNoLetters(s: string)
    requires forall i :: 0 <= i < |s| ==> !('A' <= s[i] <= 'Z')
    ensures Lower(s) == s
  {
  }

  // ---------------------------------------------------------------------------
  // Substring search
  // ---------------------------------------------------------------------------

  predicate StartsWith(s: string, prefix: string) {
    |prefix| <= |s| && s[..|prefix|] == prefix
  }

  /** `String.contains`, scanning from the left. */
  predicate Contains(s: string, sub: string)
    decreases |s|
  {
    StartsWith(s, sub) || (|s| > 0 && Contains(s[1..], sub))
  }

  /** `sub` occurs in `s` starting at position `i`. */
  predicate WindowAt(s: string, sub: string, i: int) {
    0 <= i && i + |sub| <= |s| && s[i..i + |sub|] == sub
  }

  /** The scan agrees with the definition "some window of `s` equals `sub`". */
  lemma {:induction false} ContainsIff(s: string, sub: string)
    ensures Contains(s, sub) <==> exists i :: WindowAt(s, sub, i)
    decreases |s|
  {
    if StartsWith(s, sub) {
      assert WindowAt(s, sub, 0);
    } else if |s| > 0 {
      ContainsIff(s[1..], sub);
      if Contains(s[1..], sub) {
        var i :| WindowAt(s[1..], sub, i);
        assert WindowAt(s, sub, i + 1);
      }
      if exists i :: WindowAt(s, sub, i) {
        var i :| WindowAt(s, sub, i);
        assert i != 0;
        assert WindowAt(s[1..], sub, i - 1);
      }
    }
  }

  /** A window witnesses containment. */
  lemma ContainsWindow(s: string, sub: string, i: nat)
    requires WindowAt(s, sub, i)
    ensures Contains(s, sub)
  {
    ContainsIff(s, sub);
  }

  /** A string is contained in anything that has it as a part. */
  lemma ContainsConcat(a: string, sub: string, b: string)
    ensures Contains(a + sub + b, sub)
  {
    var s := a + sub + b;
    assert s[|a|..|a| + |sub|] == sub;
    ContainsWindow(s, sub, |a|);
  }

  /** A single character is contained exactly when it occurs. */
  lemma ContainsChar(s: string, c: char)
    ensures Contains(s, [c]) <==> c in s
  {
    ContainsIff(s, [c]);
    if c in s {
      var i :| 0 <= i < |s| && s[i] == c;
      assert WindowAt(s, [c], i);
    }
    if Contains(s, [c]) {
      var i :| WindowAt(s, [c], i);
      assert s[i] == c;
    }
  }

  /** Every character of a contained string occurs in the containing one. */
  lemma ContainedChars(s: string, sub: string)
    ensures Contains(s, sub) ==> forall k :: 0 <= k < |sub| ==> sub[k] in s
  {
    ContainsIff(s, sub);
    if Contains(s, sub) {
      var i :| WindowAt(s, sub, i);
      forall k | 0 <= k < |sub|
        ensures sub[k] in s
      {
        assert s[i + k] == sub[k];
      }
    }
  }

  /** Whatever contains a string contains each of its parts. */
  lemma ContainsInner(s: string, sub: string, a: nat, b: nat)
    requires a <= b <= |sub|
    ensures Contains(s, sub) ==> Contains(s, sub[a..b])
  {
    ContainsIff(s, sub);
    ContainsIff(s, sub[a..b]);
    if Contains(s, sub) {
      var i :| WindowAt(s, sub, i);
      forall k | 0 <= k < b - a
        ensures s[i + a..i + b][k] == sub[a..b][k]
      {
        assert s[i + a + k] == s[i..i + |sub|][a + k];
      }
      assert s[i + a..i + b] == sub[a..b];
      assert WindowAt(s, sub[a..b], i + a);
    }
  }

  /** So a character missing from `s` rules out containment. */
  lemma ContainsChars(s: string, sub: string, c: char)
    requires c in sub && c !in s
    ensures !Contains(s, sub)
  {
    ContainedChars(s, sub);
  }

  /** Nothing longer than `s` is contained in `s`. */
  lemma NotContainsLonger(s: string, sub: string)
    requires |sub| > |s|
    ensures !Contains(s, sub)
  {
    ContainsIff(s, sub);
  }

  // ---------------------------------------------------------------------------
  // Qualified names
  // ---------------------------------------------------------------------------

  /** The part of `s` after its last dot, or `s` itself when it has no dot: the expression
      `name.contains(".") ? name.substring(name.lastIndexOf(".") + 1) : name` used throughout
      the generator to drop a schema prefix. */
  function Unqualified(s: string): (r: string)
    ensures '.' !in r
    ensures |r| <= |s| && r == s[|s| - |r|..]
    ensures |r| < |s| ==> s[|s| - |r| - 1] == '.'
    ensures '.' !in s ==> r == s
    decreases |s|
  {
    if |s| == 0 then s
    else if s[|s| - 1] == '.' then []
    else
      var head := Unqualified(s[..|s| - 1]);
      LastStep(s, head);
      head + [s[|s| - 1]]
  }

  /** The dot-free tail of `s` without its last character, extended by that character when it
      is not a dot, is the dot-free tail of `s`. */
  lemma LastStep(s: string, head: string)
    requires |s| > 0 && s[|s| - 1] != '.'
    requires var p := s[..|s| - 1];
      '.' !in head && |head| <= |p| && head == p[|p| - |head|..]
      && (|head| < |p| ==> p[|p| - |head| - 1] == '.') && ('.' !in p ==> head == p)
    ensures var r := head + [s[|s| - 1]];
      '.' !in r && |r| <= |s| && r == s[|s| - |r|..]
      && (|r| < |s| ==> s[|s| - |r| - 1] == '.') && ('.' !in s ==> r == s)
  {
    var p := s[..|s| - 1];
    assert s == p + [s[|s| - 1]];
    assert head + [s[|s| - 1]] == s[|s| - |head| - 1..];
    if '.' !in s {
      assert '.' !in p;
    }
  }

  /** Dropping the qualifier undoes qualification by one dotted prefix. */
  lemma {:induction false} UnqualifiedOfQualified(q: string, n: string)
    requires '.' !in n
    ensures Unqualified(q + "." + n) == n
    decreases |n|
  {
    if |n| == 0 {
      assert (q + "." + n)[|q + "." + n| - 1] == '.';
    } else {
      var s := q + "." + n;
      assert s[..|s| - 1] == q + "." + n[..|n| - 1];
      UnqualifiedOfQualified(q, n[..|n| - 1]);
      assert n[..|n| - 1] + [n[|n| - 1]] == n;
    }
  }

  lemma UnqualifiedIdempotent(s: string)
    ensures Unqualified(Unqualified(s)) == Unqualified(s)
  {
  }

  // ---------------------------------------------------------------------------
  // Trimming, blank test, character replacement, splitting, joining
  // ---------------------------------------------------------------------------

  /** `String.trim` removes characters up to U+0020 from both ends. */
  predicate TrimmedAway(c: char) {
    c <= ' '
  }

  function TrimStart(s: string): (r: string)
    ensures |r| <= |s| && r == s[|s| - |r|..]
    ensures |r| > 0 ==> !TrimmedAway(r[0])
    decreases |s|
  {
    if |s| > 0 && TrimmedAway(s[0]) then TrimStart(s[1..]) else s
  }

  function TrimEnd(s: string): (r: string)
    ensures |r| <= |s| && r == s[..|r|]
    ensures |r| > 0 ==> !TrimmedAway(r[|r| - 1])
    decreases |s|
  {
    if |s| > 0 && TrimmedAway(s[|s| - 1]) then TrimEnd(s[..|s| - 1]) else s
  }

  function Trim(s: string): (r: string)
    ensures |r| <= |s|
    ensures |r| > 0 ==> !TrimmedAway(r[0]) && !TrimmedAway(r[|r| - 1])
  {
    TrimEnd(TrimStart(s))
  }

  /** `Character.isWhitespace` on the ASCII range. */
  predicate IsWhitespace(c: char) {
    c == ' ' || '\t' <= c <= '\r' || '\U{1C}' <= c <= '\U{1F}'
  }

  /** `String.isBlank`. */
  predicate IsBlank(s: string) {
    forall i :: 0 <= i < |s| ==> IsWhitespace(s[i])
  }

  /** `String.replace` of one character by a string, at every occurrence. */
  function ReplaceChar(s: string, c: char, rep: string): (r: string)
    ensures c !in rep ==> c !in r
    ensures c !in s ==> r == s
  {
    if |s| == 0 then []
    else (if s[0] == c then rep else [s[0]]) + ReplaceChar(s[1..], c, rep)
  }

  /** `String.join`. */
  function Join(xs: seq<string>, sep: string): string {
    if |xs| == 0 then []
    else if |xs| == 1 then xs[0]
    else xs[0] + sep + Join(xs[1..], sep)
  }

  function Repeat(c: char, n: nat): (r: string)
    ensures |r| == n && forall i :: 0 <= i < n ==> r[i] == c
  {
    if n == 0 then [] else [c] + Repeat(c, n - 1)
  }

  // ---------------------------------------------------------------------------
  // Decimal numbers
  // ---------------------------------------------------------------------------

  predicate IsDigit(c: char) {
    '0' <= c <= '9'
  }

  predicate AllDigits(s: string) {
    forall i :: 0 <= i < |s| ==> IsDigit(s[i])
  }

  function DigitChar(d: nat): (c: char)
    requires d < 10
    ensures IsDigit(c) && c as int - '0' as int == d
  {
    (d + '0' as int) as char
  }

  /** The value of a string of decimal digits, as `Long.parseLong` reads it (leading zeros allowed). */
  function DigitsValue(s: string): nat
    requires AllDigits(s)
    decreases |s|
  {
    if |s| == 0 then 0
    else DigitsValue(s[..|s| - 1]) * 10 + (s[|s| - 1] as int - '0' as int)
  }

  /** `String.valueOf` of a non-negative number. */
  function NatToString(n: nat): (r: string)
    ensures |r| > 0 && AllDigits(r)
    decreases n
  {
    if n < 10 then [DigitChar(n)] else NatToString(n / 10) + [DigitChar(n % 10)]
  }

  /** `String.valueOf` of any number. */
  function IntToString(n: int): string {
    if n < 0 then "-" + NatToString(-n) else NatToString(n)
  }

  function Pow10(k: nat): (r: nat)
    ensures r >= 1
  {
    if k == 0 then 1 else 10 * Pow10(k - 1)
  }

  /** Reading back a rendered number gives the number. */
  lemma {:induction false} NatToStringRoundTrip(n: nat)
    ensures DigitsValue(NatToString(n)) == n
    decreases n
  {
    if n >= 10 {
      var s := NatToString(n);
      assert s[..|s| - 1] == NatToString(n / 10);
      NatToStringRoundTrip(n / 10);
    }
  }

  lemma NatToStringInjective(a: nat, b: nat)
    ensures NatToString(a) == NatToString(b) ==> a == b
  {
    NatToStringRoundTrip(a);
    NatToStringRoundTrip(b);
  }

  /** A rendered number has at most `k` digits exactly when it is below 10^k. */
  lemma {:induction false} NatToStringLength(n: nat, k: nat)
    requires k >= 1
    ensures |NatToString(n)| <= k <==> n < Pow10(k)
    decreases n
  {
    if n >= 10 {
      if k == 1 {
        assert |NatToString(n)| >= 2;
      } else {
        NatToStringLength(n / 10, k - 1);
      }
    }
  }

  /** Leading zeros do not change the value of a digit string. */
  lemma {:induction false} LeadingZeros(k: nat, s: string)
    requires AllDigits(s)
    ensures AllDigits(Repeat('0', k) + s)
    ensures DigitsValue(Repeat('0', k) + s) == DigitsValue(s)
    decreases |s|, k
  {
    var z := Repeat('0', k);
    if |s| == 0 {
      assert z + s == z;
      if k > 0 {
        assert z[..|z| - 1] == Repeat('0', k - 1);
        LeadingZeros(k - 1, s);
        assert Repeat('0', k - 1) + s == Repeat('0', k - 1);
      }
    } else {
      assert (z + s)[..|z + s| - 1] == z + s[..|s| - 1];
      LeadingZeros(k, s[..|s| - 1]);
    }
  }

  /** `String.format("%0<width>d", v)`: the decimal digits of `v`, left-padded with zeros to at
      least `width` characters. */
  function ZeroPad(v: nat, width: nat): (r: string)
    ensures AllDigits(r)
    ensures |r| == if |NatToString(v)| < width then width else |NatToString(v)|
  {
    var digits := NatToString(v);
    if |digits| < width then Repeat('0', width - |digits|) + digits else digits
  }

  /** Zero padding is undone by reading the digits back. */
  lemma ZeroPadRoundTrip(v: nat, width: nat)
    ensures DigitsValue(ZeroPad(v, width)) == v
  {
    var digits := NatToString(v);
    NatToStringRoundTrip(v);
    if |digits| < width {
      var z := Repeat('0', width - |digits|);
      assert ZeroPad(v, width) == z + digits;
      LeadingZeros(width - |digits|, digits);
    } else {
      assert ZeroPad(v, width) == digits;
    }
  }

  /** A number below 10^width is padded to exactly `width` characters. */
  lemma ZeroPadWidth(v: nat, width: nat)
    requires width >= 1 && v < Pow10(width)
    ensures |ZeroPad(v, width)| == width
  {
    NatToStringLength(v, width);
  }

  // ---------------------------------------------------------------------------
  // Java integer arithmetic
  // ---------------------------------------------------------------------------

  const IntMin: int := -0x8000_0000
  const IntMax: int := 0x7FFF_FFFF
  const LongMin: int := -0x8000_0000_0000_0000
  const LongMax: int := 0x7FFF_FFFF_FFFF_FFFF

  /** Java's `%`, which truncates toward zero: the remainder takes the sign of the dividend. */
  function JavaRem(a: int, b: int): (r: int)
    requires b > 0
    ensures -b < r < b
    ensures a >= 0 ==> r == a % b
    ensures a < 0 ==> r <= 0
  {
    if a >= 0 then a % b else -((-a) % b)
  }

  function Abs(a: int): nat {
    if a < 0 then -a else a
  }

  /** A Java `(int)` cast of an integral double: saturates at the bounds of `int`. */
  function ClampInt(x: int): (r: int)
    ensures IntMin <= r <= IntMax
    ensures IntMin <= x <= IntMax ==> r == x
  {
    if x < IntMin then IntMin else if x > IntMax then IntMax else x
  }

  /** `(long) Math.pow(10, k)`: exact while 10^k fits in a `long` (k <= 18), saturated beyond. */
  function LongPow10(k: nat): (r: nat)
    ensures r >= 1
    ensures k <= 18 ==> r == Pow10(k)
  {
    if k <= 18 then Pow10(k) else LongMax
  }

  /** Java `int` arithmetic: the value of `x` wrapped into the 32-bit two's-complement range. */
  function Wrap32(x: int): (r: int)
    ensures IntMin <= r <= IntMax
    ensures (x - r) % 0x1_0000_0000 == 0
    ensures IntMin <= x <= IntMax ==> r == x
  {
    (x - IntMin) % 0x1_0000_0000 + IntMin
  }

  /** Wrapping loses nothing on any range of fewer than 2^32 consecutive values. */
  lemma Wrap32Injective(x: int, y: int)
    requires -0x1_0000_0000 < x - y < 0x1_0000_0000
    ensures Wrap32(x) == Wrap32(y) ==> x == y
  {
    var d := 0x1_0000_0000;
    if Wrap32(x) == Wrap32(y) {
      assert (x - y) % d == 0 by {
        assert x - y == (x - Wrap32(x)) - (y - Wrap32(y));
      }
    }
  }

  /** `String.hashCode`: `h = 31 * h + c` over the characters, in `int` arithmetic. */
  function StringHash(s: string): (r: int)
    ensures IntMin <= r <= IntMax
    decreases |s|
  {
    if |s| == 0 then 0 else Wrap32(31 * StringHash(s[..|s| - 1]) + s[|s| - 1] as int)
  }

  /** The rendering of a number starts with a minus sign exactly when it is negative. */
  lemma IntToStringSign(n: int)
    ensures |IntToString(n)| > 0
    ensures IntToString(n)[0] == '-' <==> n < 0
    ensures n < 0 ==> IntToString(n)[1..] == NatToString(-n)
  {
    if n >= 0 {
      assert IsDigit(NatToString(n)[0]);
    }
  }

  /** Distinct numbers render differently, signs included. */
  lemma IntToStringInjective(a: int, b: int)
    ensures IntToString(a) == IntToString(b) ==> a == b
  {
    IntToStringSign(a);
    IntToStringSign(b);
    if a < 0 && b < 0 {
      NatToStringInjective(-a, -b);
    } else if a >= 0 && b >= 0 {
      NatToStringInjective(a, b);
    }
  }

  lemma {:induction false} Pow10Add(a: nat, b: nat)
    ensures Pow10(a + b) == Pow10(a) * Pow10(b)
    decreases a
  {
    if a > 0 {
      Pow10Add(a - 1, b);
    }
  }

  /** 10^19 is beyond `Long.MAX_VALUE`, and 10^10 beyond `Integer.MAX_VALUE`. */
  lemma Pow10Bounds()
    ensures Pow10(10) == 10_000_000_000
    ensures Pow10(19) == 10_000_000_000_000_000_000
    ensures Pow10(10) > IntMax && Pow10(19) > LongMax
  {
    assert Pow10(5) == 100_000;
    Pow10Add(5, 5);
    Pow10Add(10, 5);
    Pow10Add(15, 4);
    assert Pow10(4) == 10_000;
  }

  lemma {:induction false} Pow10Monotone(a: nat, b: nat)
    requires a <= b
    ensures Pow10(a) <= Pow10(b)
    decreases b
  {
    if a < b {
      Pow10Monotone(a, b - 1);
    }
  }

  /** A positive multiple of `n` is at least `n`. */
  lemma {:induction false} MulAtLeast(n: nat, k: nat)
    requires k >= 1
    ensures n * k >= n
    decreases k
  {
    if k > 1 {
      MulAtLeast(n, k - 1);
      assert n * k == n * (k - 1) + n;
    }
  }

  /** Quotient and remainder are determined by any decomposition `x == n * a + r` with
      `0 <= r < n`. */
  lemma DivModUnique(x: int, n: int, a: int, r: int)
    requires n > 0 && 0 <= r < n && x == n * a + r
    ensures x / n == a && x % n == r
  {
    var q := x / n;
    if q > a {
      MulAtLeast(n, q - a);
    } else if q < a {
      MulAtLeast(n, a - q);
    }
  }
}
