/** The Python string operations the ingestion path relies on, on `seq<char>`:
    decimal rendering of integers (f-strings), `str.strip`, `str.upper`,
    `str.replace` and `"\n".join`, each with the function that undoes it or
    the property that characterises it. */
module Text {
  import opened Basics

  // ---------------------------------------------------------------------
  // Decimal numerals, as an f-string renders an `int`

  predicate IsDigit(c: char) {
    '0' <= c <= '9'
  }

  predicate AllDigits(s: string) {
    forall i | 0 <= i < |s| :: IsDigit(s[i])
  }

  function DigitChar(d: nat): (c: char)
    requires d < 10
    ensures IsDigit(c)
  {
    "0123456789"[d]
  }

  function DigitValue(c: char): (d: nat)
    requires IsDigit(c)
    ensures d < 10
  {
    (c as int - '0' as int) as nat
  }

  lemma DigitValueOfChar(d: nat)
    requires d < 10
    ensures DigitValue(DigitChar(d)) == d
  {
  }

  /** The numeral of `n` without leading zeros. */
  function NatToString(n: nat): (s: string)
    ensures |s| >= 1 && AllDigits(s)
    ensures n > 0 ==> s[0] != '0'
    ensures n < 10 <==> |s| == 1
  {
    if n < 10 then [DigitChar(n)] else NatToString(n / 10) + [DigitChar(n % 10)]
  }

  /** The value of a numeral, most significant digit first. */
  function DigitsValue(s: string): nat
    requires AllDigits(s)
  {
    if s == [] then 0 else DigitsValue(s[..|s| - 1]) * 10 + DigitValue(s[|s| - 1])
  }

  lemma {:induction false} NatToStringRoundTrip(n: nat)
    ensures DigitsValue(NatToString(n)) == n
  {
    var s := NatToString(n);
    if n < 10 {
      DigitValueOfChar(n);
    } else {
      assert s[..|s| - 1] == NatToString(n / 10);
      NatToStringRoundTrip(n / 10);
      DigitValueOfChar(n % 10);
    }
  }

  /** The longest prefix of `s` made of digits. */
  function LeadingDigits(s: string): (d: string)
    ensures |d| <= |s| && d == s[..|d|] && AllDigits(d)
    ensures |d| == |s| || !IsDigit(s[|d|])
  {
    if s == [] || !IsDigit(s[0]) then [] else [s[0]] + LeadingDigits(s[1..])
  }

  lemma {:induction false} LeadingDigitsOfNumeral(d: string, rest: string)
    requires AllDigits(d)
    requires rest == [] || !IsDigit(rest[0])
    ensures LeadingDigits(d + rest) == d
  {
    if d != [] {
      assert (d + rest)[1..] == d[1..] + rest;
      LeadingDigitsOfNumeral(d[1..], rest);
    } else {
      assert d + rest == rest;
    }
  }

  /** Reads a numeral at the head of `s`: its value and what follows it. */
  function ReadNat(s: string): Option<(nat, string)> {
    var d := LeadingDigits(s);
    if d == [] then None else Some((DigitsValue(d), s[|d|..]))
  }

  lemma ReadNatRoundTrip(n: nat, rest: string)
    requires rest == [] || !IsDigit(rest[0])
    ensures ReadNat(NatToString(n) + rest) == Some((n, rest))
  {
    var s := NatToString(n);
    LeadingDigitsOfNumeral(s, rest);
    NatToStringRoundTrip(n);
    assert (s + rest)[|s|..] == rest;
  }

  /** A numeral between a prefix and text not starting with a digit reads back. */
  lemma ReadNatAfter(head: string, n: nat, rest: string)
    requires rest == [] || !IsDigit(rest[0])
    ensures StartsWith(head + NatToString(n) + rest, head)
    ensures ReadNat((head + NatToString(n) + rest)[|head|..]) == Some((n, rest))
  {
    var s := head + NatToString(n) + rest;
    assert s[..|head|] == head;
    assert s[|head|..] == NatToString(n) + rest;
    ReadNatRoundTrip(n, rest);
  }

  lemma StartsWithAppend(a: string, b: string)
    ensures StartsWith(a + b, a) && (a + b)[|a|..] == b
  {
    assert (a + b)[..|a|] == a;
  }

  /** `f"{i}"` for a Python `int`: a minus sign before the magnitude when negative. */
  function IntToString(i: int): (s: string)
    ensures |s| >= 1
    ensures s[0] == '-' <==> i < 0
  {
    if i < 0 then "-" + NatToString(-i) else NatToString(i)
  }

  /** Reads an optionally signed numeral at the head of `s`. */
  function ReadInt(s: string): Option<(int, string)> {
    var negative := s != [] && s[0] == '-';
    var magnitude := ReadNat(if negative then s[1..] else s);
    if magnitude.None? then None
    else
      var n: int := magnitude.value.0;
      Some((if negative then -n else n, magnitude.value.1))
  }

  lemma ReadIntRoundTrip(i: int, rest: string)
    requires rest == [] || !IsDigit(rest[0])
    ensures ReadInt(IntToString(i) + rest) == Some((i, rest))
  {
    if i < 0 {
      ReadNatAfter("-", -i, rest);
      assert IntToString(i) + rest == "-" + NatToString(-i) + rest;
    } else {
      ReadNatRoundTrip(i, rest);
      var s := NatToString(i) + rest;
      assert s[0] == NatToString(i)[0];
    }
  }

  // ---------------------------------------------------------------------
  // Prefixes and suffixes

  predicate StartsWith(s: string, prefix: string) {
    |prefix| <= |s| && s[..|prefix|] == prefix
  }

  /** `s.endswith(suffix)` */
  predicate EndsWith(s: string, suffix: string) {
    |suffix| <= |s| && s[|s| - |suffix|..] == suffix
  }

  lemma EndsWithAppended(s: string, suffix: string)
    ensures EndsWith(s + suffix, suffix)
  {
    assert (s + suffix)[|s|..] == suffix;
  }

  // ---------------------------------------------------------------------
  // `str.strip()` and `str.upper()`

  /** Python's `str.isspace()`: the characters `str.strip()` removes. */
  predicate IsSpace(c: char) {
    || c == ' ' || ('\t' <= c <= '\r') || ('\U{1C}' <= c <= '\U{1F}')
    || c == '\U{85}' || c == '\U{A0}' || c == '\U{1680}'
    || ('\U{2000}' <= c <= '\U{200A}') || c == '\U{2028}' || c == '\U{2029}'
    || c == '\U{202F}' || c == '\U{205F}' || c == '\U{3000}'
  }

  predicate AllSpace(s: string) {
    forall i | 0 <= i < |s| :: IsSpace(s[i])
  }

  function StripLeading(s: string): (r: string)
    ensures |r| <= |s| && r == s[|s| - |r|..]
    ensures AllSpace(s[..|s| - |r|])
    ensures r == [] || !IsSpace(r[0])
  {
    if s == [] || !IsSpace(s[0]) then s else StripLeading(s[1..])
  }

  function StripTrailing(s: string): (r: string)
    ensures |r| <= |s| && r == s[..|r|]
    ensures AllSpace(s[|r|..])
    ensures r == [] || !IsSpace(r[|r| - 1])
  {
    if s == [] || !IsSpace(s[|s| - 1]) then s
    else
      var r := StripTrailing(s[..|s| - 1]);
      assert s[..|r|] == s[..|s| - 1][..|r|];
      assert s[|r|..] == s[..|s| - 1][|r|..] + [s[|s| - 1]];
      r
  }

  /** `s.strip()`: the longest infix of `s` with no surrounding whitespace. */
  function Strip(s: string): (r: string)
    ensures |r| <= |s|
    ensures r == [] || (!IsSpace(r[0]) && !IsSpace(r[|r| - 1]))
  {
    StripTrailing(StripLeading(s))
  }

  lemma {:induction false} StripLeadingPadded(w: string, t: string)
    requires AllSpace(w)
    requires t == [] || !IsSpace(t[0])
    ensures StripLeading(w + t) == t
  {
    if w == [] {
      assert w + t == t;
    } else {
      assert (w + t)[1..] == w[1..] + t;
      StripLeadingPadded(w[1..], t);
    }
  }

  lemma {:induction false} StripTrailingPadded(t: string, w: string)
    requires AllSpace(w)
    requires t == [] || !IsSpace(t[|t| - 1])
    ensures StripTrailing(t + w) == t
  {
    if w == [] {
      assert t + w == t;
    } else {
      assert (t + w)[..|t + w| - 1] == t + w[..|w| - 1];
      StripTrailingPadded(t, w[..|w| - 1]);
    }
  }

  /** Stripping removes exactly the whitespace around a token. */
  lemma StripPadded(before: string, token: string, after: string)
    requires AllSpace(before) && AllSpace(after)
    requires token == [] || (!IsSpace(token[0]) && !IsSpace(token[|token| - 1]))
    ensures Strip(before + token + after) == token
  {
    if token == [] {
      assert before + token + after == (before + after) + [];
      StripLeadingPadded(before + after, []);
    } else {
      assert before + token + after == before + (token + after);
      StripLeadingPadded(before, token + after);
      StripTrailingPadded(token, after);
    }
  }

  /** `str.upper()` on one character: ASCII letters, and U+017F (long s),
      whose upper case is the ASCII 'S'. */
  function UpperChar(c: char): (u: char)
    ensures 'a' <= c <= 'z' ==> u as int == c as int - 32
    ensures !('a' <= c <= 'z') && c != 'ſ' ==> u == c
  {
    if 'a' <= c <= 'z' then (c as int - 32) as char
    else if c == '\U{17F}' then 'S'
    else c
  }

  function Upper(s: string): (r: string)
    ensures |r| == |s|
    ensures forall i | 0 <= i < |s| :: r[i] == UpperChar(s[i])
  {
    seq(|s|, i requires 0 <= i < |s| => UpperChar(s[i]))
  }

  /** ASCII lower case, used to state that `Upper` ignores case. */
  function LowerChar(c: char): (l: char)
    ensures 'A' <= c <= 'Z' ==> l as int == c as int + 32
  {
    if 'A' <= c <= 'Z' then (c as int + 32) as char else c
  }

  function Lower(s: string): (r: string)
    ensures |r| == |s|
    ensures forall i | 0 <= i < |s| :: r[i] == LowerChar(s[i])
  {
    seq(|s|, i requires 0 <= i < |s| => LowerChar(s[i]))
  }

  lemma UpperIgnoresCase(s: string)
    ensures Upper(Lower(s)) == Upper(s)
    ensures Upper(Upper(s)) == Upper(s)
  {
  }

  // ---------------------------------------------------------------------
  // `str.replace`

  /** The position of the first `c` in `s`, or `|s|` when there is none. */
  function IndexOf(s: string, c: char): (i: nat)
    ensures i <= |s|
    ensures i < |s| ==> s[i] == c
    ensures forall j | 0 <= j < i :: s[j] != c
    ensures i == |s| <==> c !in s
  {
    if s == [] then 0 else if s[0] == c then 0 else 1 + IndexOf(s[1..], c)
  }

  /** `s.replace(a, b)` for one-character arguments: every `a` becomes `b`. */
  function ReplaceChar(s: string, a: char, b: char): (r: string)
    ensures |r| == |s|
    ensures forall i | 0 <= i < |s| :: r[i] == if s[i] == a then b else s[i]
  {
    seq(|s|, i requires 0 <= i < |s| => if s[i] == a then b else s[i])
  }

  /** `s.replace(a, b, 1)`: only the first `a` becomes `b`. */
  function ReplaceFirstChar(s: string, a: char, b: char): (r: string)
    ensures |r| == |s|
    ensures forall i | 0 <= i < |s| :: r[i] == if i == IndexOf(s, a) then b else s[i]
  {
    if s == [] then []
    else if s[0] == a then [b] + s[1..]
    else [s[0]] + ReplaceFirstChar(s[1..], a, b)
  }

  /** `s.replace(pattern, replacement)`: every occurrence of `pattern`, scanned left to
      right without overlap, becomes `replacement`. */
  function ReplaceAll(s: string, pattern: string, replacement: string): string
    requires pattern != []
    decreases |s|
  {
    if |s| < |pattern| then s
    else if s[..|pattern|] == pattern then replacement + ReplaceAll(s[|pattern|..], pattern, replacement)
    else [s[0]] + ReplaceAll(s[1..], pattern, replacement)
  }

  /** `pattern` occurs in `s` at position `i`. */
  predicate OccursAt(s: string, pattern: string, i: nat) {
    i + |pattern| <= |s| && s[i..i + |pattern|] == pattern
  }

  /** `pattern` occurs nowhere in `s`. */
  predicate FreeOf(s: string, pattern: string) {
    forall i: nat | i <= |s| :: !OccursAt(s, pattern, i)
  }

  /** Text in which `pattern` does not occur is left as it is. */
  lemma {:induction false} ReplaceFree(s: string, pattern: string, replacement: string)
    requires pattern != []
    requires FreeOf(s, pattern)
    ensures ReplaceAll(s, pattern, replacement) == s
    decreases |s|
  {
    if |s| >= |pattern| {
      assert !OccursAt(s, pattern, 0);
      assert s[0..0 + |pattern|] == s[..|pattern|];
      var tail := s[1..];
      forall i: nat | i <= |tail| ensures !OccursAt(tail, pattern, i) {
        assert !OccursAt(s, pattern, i + 1);
        if i + |pattern| <= |tail| {
          assert tail[i..i + |pattern|] == s[i + 1..i + 1 + |pattern|];
        }
      }
      ReplaceFree(tail, pattern, replacement);
      assert [s[0]] + tail == s;
    }
  }

  /** The first occurrence of `pattern` is replaced, and the scan goes on after it:
      when no occurrence starts inside `a`, `a + pattern + b` becomes
      `a + replacement` followed by the replacement of `b`. */
  lemma {:induction false} ReplaceFirstOccurrence(a: string, b: string, pattern: string, replacement: string)
    requires pattern != []
    requires forall i: nat | i < |a| :: !OccursAt(a + pattern, pattern, i)
    ensures ReplaceAll(a + pattern + b, pattern, replacement) == a + replacement + ReplaceAll(b, pattern, replacement)
    decreases |a|
  {
    var s := a + pattern + b;
    var rest := ReplaceAll(b, pattern, replacement);
    if a == [] {
      assert s == pattern + b;
      assert s[..|pattern|] == pattern && s[|pattern|..] == b;
    } else {
      var tail := a[1..];
      ReplaceSkipsFirst(a, b, pattern, replacement);
      OccursShift(a, pattern);
      ReplaceFirstOccurrence(tail, b, pattern, replacement);
      assert [a[0]] + (tail + replacement + rest) == a + replacement + rest;
    }
  }

  /** No occurrence at the start: the first character is kept and the scan moves on. */
  lemma ReplaceSkipsFirst(a: string, b: string, pattern: string, replacement: string)
    requires pattern != [] && a != []
    requires !OccursAt(a + pattern, pattern, 0)
    ensures ReplaceAll(a + pattern + b, pattern, replacement)
         == [a[0]] + ReplaceAll(a[1..] + pattern + b, pattern, replacement)
  {
    var u := a + pattern;
    var s := u + b;
    assert s[..|pattern|] == u[..|pattern|];
    assert s[1..] == a[1..] + pattern + b;
  }

  /** Positions inside `a[1..]` are positions inside `a`, one further on. */
  lemma OccursShift(a: string, pattern: string)
    requires a != []
    requires forall i: nat | i < |a| :: !OccursAt(a + pattern, pattern, i)
    ensures forall i: nat | i < |a[1..]| :: !OccursAt(a[1..] + pattern, pattern, i)
  {
    var u, tail := a + pattern, a[1..];
    forall i: nat | i < |tail| ensures !OccursAt(tail + pattern, pattern, i) {
      assert !OccursAt(u, pattern, i + 1);
      assert (tail + pattern)[i..i + |pattern|] == u[i + 1..i + 1 + |pattern|];
    }
  }

  /** A `pattern` that occurs in `s + pattern` only as the suffix is the only
      occurrence replaced. */
  lemma ReplaceTrailing(s: string, pattern: string, replacement: string)
    requires pattern != []
    requires forall i: nat | i < |s| :: !OccursAt(s + pattern, pattern, i)
    ensures ReplaceAll(s + pattern, pattern, replacement) == s + replacement
  {
    ReplaceFirstOccurrence(s, [], pattern, replacement);
    assert s + pattern + [] == s + pattern;
    assert s + replacement + [] == s + replacement;
  }

  /** The one-character `str.replace` is the general one for patterns of length 1. */
  lemma {:induction false} ReplaceCharIsReplaceAll(s: string, a: char, b: char)
    ensures ReplaceChar(s, a, b) == ReplaceAll(s, [a], [b])
  {
    if s != [] {
      ReplaceCharIsReplaceAll(s[1..], a, b);
      assert s[..1] == [s[0]];
      var r, t := ReplaceChar(s, a, b), ReplaceChar(s[1..], a, b);
      assert r == [if s[0] == a then b else s[0]] + t;
    }
  }

  // ---------------------------------------------------------------------
  // `sep.join(xs)` and `s.split(sep)`

  function Join(xs: seq<string>, sep: char): string {
    if |xs| == 0 then "" else if |xs| == 1 then xs[0] else xs[0] + [sep] + Join(xs[1..], sep)
  }

  function Split(s: string, sep: char): (parts: seq<string>)
    ensures |parts| >= 1
    decreases |s|
  {
    var i := IndexOf(s, sep);
    if i == |s| then [s] else [s[..i]] + Split(s[i + 1..], sep)
  }

  lemma {:induction false} SplitJoin(xs: seq<string>, sep: char)
    requires |xs| >= 1
    requires forall k | 0 <= k < |xs| :: sep !in xs[k]
    ensures Split(Join(xs, sep), sep) == xs
  {
    if |xs| > 1 {
      var s := Join(xs, sep);
      var x, tail := xs[0], xs[1..];
      var rest := Join(tail, sep);
      assert s == x + ([sep] + rest);
      IndexOfPrefix(x, [sep] + rest, sep);
      assert s[..|x|] == x;
      assert s[|x| + 1..] == rest;
      assert Split(s, sep) == [x] + Split(rest, sep);
      forall k | 0 <= k < |tail| ensures sep !in tail[k] {
        assert tail[k] == xs[k + 1];
      }
      SplitJoin(tail, sep);
      assert xs == [x] + tail;
    }
  }

  lemma IndexOfPrefix(x: string, rest: string, c: char)
    requires c !in x
    requires rest != [] && rest[0] == c
    ensures IndexOf(x + rest, c) == |x|
  {
    var s := x + rest;
    assert s[|x|] == c;
    assert forall j | 0 <= j < |x| :: s[j] == x[j];
  }
}
