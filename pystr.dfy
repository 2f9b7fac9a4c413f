/**
  The Python string built-ins the pipeline relies on, over `string` (= seq<char>):
  strip, lstrip, split, join, find, startswith, endswith, `in`, count, replace(pat, ''),
  upper (ASCII letters only), int() of a decimal string, eval() of a decimal literal, str() of an
  int and str() of a list of strings.
 */
module PyStr {
  import opened Wrappers

  /** The characters for which Python's `str.isspace()` holds. */
  predicate IsSpace(c: char) {
    || c == ' ' || ('\t' <= c <= '\r') || ('\U{1c}' <= c <= '\U{1f}')
    || c == '\U{85}' || c == '\U{a0}' || c == '\U{1680}' || ('\U{2000}' <= c <= '\U{200a}')
    || c == '\U{2028}' || c == '\U{2029}' || c == '\U{202f}' || c == '\U{205f}' || c == '\U{3000}'
  }

  /** The number of leading characters that satisfy `p`. */
  function LeadingCount(s: string, p: char -> bool): (n: nat)
    ensures n <= |s|
  {
    if s != [] && p(s[0]) then 1 + LeadingCount(s[1..], p) else 0
  }

  /** The number of trailing characters that satisfy `p`. */
  function TrailingCount(s: string, p: char -> bool): (n: nat)
    ensures n <= |s|
  {
    if s != [] && p(s[|s| - 1]) then 1 + TrailingCount(s[..|s| - 1], p) else 0
  }

  /** `LeadingCount` counts exactly the leading run of characters satisfying `p`. */
  lemma {:induction false} LeadingCountSpec(s: string, p: char -> bool)
    ensures forall i :: 0 <= i < LeadingCount(s, p) ==> p(s[i])
    ensures LeadingCount(s, p) < |s| ==> !p(s[LeadingCount(s, p)])
  {
    if s != [] && p(s[0]) {
      LeadingCountSpec(s[1..], p);
      forall i | 1 <= i < LeadingCount(s, p) ensures p(s[i]) {
        assert s[i] == s[1..][i - 1];
      }
    }
  }

  /** A run of `p`-characters followed by a character outside `p` is the leading run. */
  lemma {:induction false} LeadingCountOf(a: string, b: string, p: char -> bool)
    requires forall i :: 0 <= i < |a| ==> p(a[i])
    requires b != [] ==> !p(b[0])
    ensures LeadingCount(a + b, p) == |a|
  {
    if a != [] {
      assert (a + b)[1..] == a[1..] + b;
      LeadingCountOf(a[1..], b, p);
    } else {
      assert a + b == b;
    }
  }

  /** Drops the leading characters that satisfy `p`. */
  function LStripBy(s: string, p: char -> bool): string {
    s[LeadingCount(s, p)..]
  }

  /** Drops the trailing characters that satisfy `p`. */
  function RStripBy(s: string, p: char -> bool): string {
    s[..|s| - TrailingCount(s, p)]
  }

  /** Exactly the leading characters satisfying `p` are dropped. */
  lemma {:induction false} LStripBySpec(s: string, p: char -> bool)
    ensures var r := LStripBy(s, p);
      && (r != [] ==> !p(r[0]))
      && forall i :: 0 <= i < |s| - |r| ==> p(s[i])
  {
    if s != [] && p(s[0]) {
      LStripBySpec(s[1..], p);
      assert LStripBy(s, p) == LStripBy(s[1..], p);
      forall i | 1 <= i < LeadingCount(s, p) ensures p(s[i]) {
        assert s[i] == s[1..][i - 1];
      }
    }
  }

  /** Exactly the trailing characters satisfying `p` are dropped. */
  lemma {:induction false} RStripBySpec(s: string, p: char -> bool)
    ensures var r := RStripBy(s, p);
      && (r != [] ==> !p(r[|r| - 1]))
      && forall i :: |r| <= i < |s| ==> p(s[i])
  {
    if s != [] && p(s[|s| - 1]) {
      var init := s[..|s| - 1];
      RStripBySpec(init, p);
      assert RStripBy(s, p) == RStripBy(init, p);
      forall i | |RStripBy(s, p)| <= i < |s| ensures p(s[i]) {
        if i < |s| - 1 {
          assert s[i] == init[i];
        }
      }
    }
  }

  /** `s.strip()` */
  function Strip(s: string): string {
    RStripBy(LStripBy(s, IsSpace), IsSpace)
  }

  /** Membership in `chars`, as the test `strip(chars)` applies to each character. */
  function InSet(chars: set<char>): char -> bool {
    c => c in chars
  }

  /** `s.strip(chars)` */
  function StripChars(s: string, chars: set<char>): string {
    RStripBy(LStripBy(s, InSet(chars)), InSet(chars))
  }

  /** `s.lstrip(chars)` */
  function LStripChars(s: string, chars: set<char>): string {
    LStripBy(s, InSet(chars))
  }

  /** `s.lstrip(chars)` keeps a suffix of `s` that does not start with one of `chars`. */
  lemma LStripCharsSpec(s: string, chars: set<char>)
    ensures var r := LStripChars(s, chars);
      && |r| <= |s| && r == s[|s| - |r|..]
      && (r != [] ==> r[0] !in chars)
      && forall i :: 0 <= i < |s| - |r| ==> s[i] in chars
  {
    LStripBySpec(s, InSet(chars));
  }

  predicate StartsWith(s: string, prefix: string) {
    |prefix| <= |s| && s[..|prefix|] == prefix
  }

  predicate EndsWith(s: string, suffix: string) {
    |suffix| <= |s| && s[|s| - |suffix|..] == suffix
  }

  /** `s.count(c)` for a one-character argument. */
  function Count(s: string, c: char): nat {
    multiset(s)[c]
  }

  /** `pat` occurs in `s` at index `j`. */
  predicate MatchAt(s: string, pat: string, j: nat) {
    j + |pat| <= |s| && s[j..j + |pat|] == pat
  }

  lemma MatchTail(s: string, pat: string)
    requires |s| >= 1
    ensures forall j: nat :: 1 <= j ==> MatchAt(s, pat, j) == MatchAt(s[1..], pat, j - 1)
  {
    forall j: nat | 1 <= j ensures MatchAt(s, pat, j) == MatchAt(s[1..], pat, j - 1) {
      if j + |pat| <= |s| {
        var t := s[1..];
        var u, w := s[j..j + |pat|], t[j - 1..j - 1 + |pat|];
        forall k | 0 <= k < |pat| ensures u[k] == w[k] {
        }
        assert u == w;
      }
    }
  }

  lemma MatchPrefix(a: string, b: string, pat: string, j: nat)
    requires j + |pat| <= |a|
    ensures MatchAt(a + b, pat, j) == MatchAt(a, pat, j)
  {
    assert (a + b)[j..j + |pat|] == a[j..j + |pat|];
  }

  lemma MatchChar(s: string, c: char, j: nat)
    ensures MatchAt(s, [c], j) <==> j < |s| && s[j] == c
  {
    if j < |s| {
      assert s[j..j + 1] == [s[j]];
    }
  }

  /**
    `s.find(pat)` for a non-empty pattern, except that "not found" is `|s|` rather than -1:
    the index of the leftmost occurrence.
   */
  function Find(s: string, pat: string): (r: nat)
    requires |pat| > 0
    ensures r <= |s|
    ensures r < |s| ==> MatchAt(s, pat, r)
    ensures forall j: nat :: j < r ==> !MatchAt(s, pat, j)
    decreases |s|
  {
    if |s| < |pat| then |s|
    else if s[..|pat|] == pat then 0
    else
      var r' := Find(s[1..], pat);
      MatchTail(s, pat);
      1 + r'
  }

  /** The leftmost occurrence is the only index with an occurrence and none before it. */
  lemma FindUnique(s: string, pat: string, r: nat)
    requires |pat| > 0 && MatchAt(s, pat, r)
    requires forall j: nat :: j < r ==> !MatchAt(s, pat, j)
    ensures Find(s, pat) == r
  {
  }

  /** An occurrence found in `a` stays the leftmost one in any extension of `a`. */
  lemma FindExtend(a: string, b: string, pat: string)
    requires |pat| > 0 && Find(a, pat) < |a|
    ensures Find(a + b, pat) == Find(a, pat)
  {
    var r := Find(a, pat);
    MatchPrefix(a, b, pat, r);
    forall j: nat | j < r ensures !MatchAt(a + b, pat, j) {
      MatchPrefix(a, b, pat, j);
    }
    FindUnique(a + b, pat, r);
  }

  /** `pat in s` */
  predicate Contains(s: string, pat: string) {
    |pat| == 0 || Find(s, pat) < |s|
  }

  lemma ContainsAt(s: string, pat: string, i: nat)
    requires MatchAt(s, pat, i)
    ensures Contains(s, pat)
  {
  }

  /** `s.split(sep)` for a non-empty separator. */
  function Split(s: string, sep: string): (r: seq<string>)
    requires |sep| > 0
    ensures |r| >= 1
    decreases |s|
  {
    var i := Find(s, sep);
    if i == |s| then [s] else [s[..i]] + Split(s[i + |sep|..], sep)
  }

  /** `sep.join(xs)` */
  function Join(xs: seq<string>, sep: string): string {
    if |xs| == 0 then ""
    else if |xs| == 1 then xs[0]
    else xs[0] + sep + Join(xs[1..], sep)
  }

  /** Splitting and joining again gives back the string, whatever it is. */
  lemma {:induction false} JoinSplit(s: string, sep: string)
    requires |sep| > 0
    ensures Join(Split(s, sep), sep) == s
    decreases |s|
  {
    var i := Find(s, sep);
    if i < |s| {
      var rest := s[i + |sep|..];
      var tail := Split(rest, sep);
      JoinSplit(rest, sep);
      assert Split(s, sep) == [s[..i]] + tail;
      assert Join([s[..i]] + tail, sep) == s[..i] + sep + Join(tail, sep) by {
        assert ([s[..i]] + tail)[1..] == tail;
      }
      assert s[i..i + |sep|] == sep;
      assert s == s[..i] + s[i..i + |sep|] + rest;
    }
  }

  /** Joining one more element appends the separator and that element. */
  lemma {:induction false} JoinAppend(xs: seq<string>, y: string, sep: string)
    requires |xs| > 0
    ensures Join(xs + [y], sep) == Join(xs, sep) + sep + y
  {
    if |xs| > 1 {
      assert (xs + [y])[1..] == xs[1..] + [y];
      JoinAppend(xs[1..], y, sep);
    }
  }

  /** Every character of every joined element occurs in the joined string. */
  lemma {:induction false} JoinMember(xs: seq<string>, sep: string, k: nat, j: nat)
    requires k < |xs| && j < |xs[k]|
    ensures xs[k][j] in Join(xs, sep)
  {
    if |xs| > 1 {
      if k == 0 {
        assert Join(xs, sep)[j] == xs[0][j];
      } else {
        JoinMember(xs[1..], sep, k - 1, j);
        var i :| 0 <= i < |Join(xs[1..], sep)| && Join(xs[1..], sep)[i] == xs[k][j];
        assert Join(xs, sep)[|xs[0]| + |sep| + i] == xs[k][j];
      }
    }
  }

  /** No piece of `s.split(c)` contains `c`. */
  lemma {:induction false} SplitFree(s: string, c: char)
    ensures forall k, j :: 0 <= k < |Split(s, [c])| && 0 <= j < |Split(s, [c])[k]| ==> Split(s, [c])[k][j] != c
    decreases |s|
  {
    var i := Find(s, [c]);
    forall j | 0 <= j < i ensures s[j] != c {
      assert !MatchAt(s, [c], j);
      assert s[j..j + 1] == [s[j]];
    }
    if i < |s| {
      SplitFree(s[i + 1..], c);
    }
  }

  /**
    Joining and splitting again gives back the list when, for every element x, the first
    occurrence of the separator in x + sep is the appended one.
   */
  lemma {:induction false} SplitJoin(xs: seq<string>, sep: string)
    requires |sep| > 0 && |xs| > 0
    requires forall i :: 0 <= i < |xs| ==> Find(xs[i] + sep, sep) == |xs[i]|
    ensures Split(Join(xs, sep), sep) == xs
  {
    var x := xs[0];
    if |xs| == 1 {
      if Find(x, sep) < |x| {
        FindExtend(x, sep, sep);
        assert false;
      }
    } else {
      var tail := Join(xs[1..], sep);
      var s := Join(xs, sep);
      assert s == (x + sep) + tail;
      assert (x + sep)[|x|..] == sep;
      FindExtend(x + sep, tail, sep);
      assert s[..|x|] == x;
      assert s[|x| + |sep|..] == tail;
      SplitJoin(xs[1..], sep);
    }
  }

  /** Stripping `chars` from `[a] + s + [b]`, with `a` and `b` in `chars` and `s` starting and ending outside them, gives `s`. */
  lemma StripEnclosed(a: char, s: string, b: char, chars: set<char>)
    requires a in chars && b in chars
    requires |s| > 0 && s[0] !in chars && s[|s| - 1] !in chars
    ensures StripChars([a] + s + [b], chars) == s
  {
    var p := InSet(chars);
    LeadingCountOf([a], s + [b], p);
    assert [a] + s + [b] == [a] + (s + [b]);
    var l := LStripBy([a] + s + [b], p);
    assert l == s + [b];
    assert l[..|l| - 1] == s;
    assert TrailingCount(l, p) == 1 + TrailingCount(s, p);
  }

  /** The first and last characters of a join are those of the first and last pieces. */
  lemma {:induction false} JoinEnds(xs: seq<string>, sep: string)
    requires |xs| > 0 && forall i :: 0 <= i < |xs| ==> |xs[i]| > 0
    ensures var s, last := Join(xs, sep), xs[|xs| - 1];
      |s| > 0 && s[0] == xs[0][0] && s[|s| - 1] == last[|last| - 1]
  {
    if |xs| > 1 {
      JoinEnds(xs[1..], sep);
    }
  }

  /** Removing a character that occurs only once, at the end, leaves what precedes it. */
  lemma {:induction false} RemoveTrail(x: string, c: char)
    requires c !in x
    ensures Remove(x + [c], [c]) == x
  {
    if x != [] {
      assert (x + [c])[1..] == x[1..] + [c];
      RemoveTrail(x[1..], c);
      assert [x[0]] + x[1..] == x;
    } else {
      assert Remove([c], [c]) == Remove([], [c]);
    }
  }

  /** A one-character separator that does not occur is not found. */
  lemma FindAbsent(s: string, c: char)
    requires c !in s
    ensures Find(s, [c]) == |s|
  {
    var i := Find(s, [c]);
    if i < |s| {
      MatchChar(s, c, i);
    }
  }

  /** Splitting `a + [c] + b` on `c`, when neither part holds `c`, gives the two parts. */
  lemma SplitOnce(a: string, b: string, c: char)
    requires c !in a && c !in b
    ensures Split(a + [c] + b, [c]) == [a, b]
  {
    var s := a + [c] + b;
    MatchChar(s, c, |a|);
    forall j: nat | j < |a| ensures !MatchAt(s, [c], j) {
      MatchChar(s, c, j);
      assert s[j] == a[j];
    }
    FindUnique(s, [c], |a|);
    assert s[..|a|] == a && s[|a| + 1..] == b;
    FindAbsent(b, c);
  }

  /** The number of pieces `s.split(c)` yields is one more than the occurrences of `c`. */
  lemma {:induction false} SplitCount(s: string, c: char)
    ensures |Split(s, [c])| == Count(s, c) + 1
    decreases |s|
  {
    var i := Find(s, [c]);
    forall j: nat | j < i ensures j < |s| ==> s[j] != c {
      MatchChar(s, c, j);
    }
    if i == |s| {
      assert c !in s;
    } else {
      MatchChar(s, c, i);
      assert s == s[..i] + [c] + s[i + 1..];
      assert c !in s[..i];
      SplitCount(s[i + 1..], c);
    }
  }

  /** `s.count(pat)`: non-overlapping occurrences, scanning left to right. */
  function CountSub(s: string, pat: string): nat
    requires |pat| > 0
    decreases |s|
  {
    if |s| < |pat| then 0
    else if s[..|pat|] == pat then 1 + CountSub(s[|pat|..], pat)
    else CountSub(s[1..], pat)
  }

  /** `s.replace(pat, '')`: every non-overlapping occurrence, leftmost first, removed. */
  function Remove(s: string, pat: string): (r: string)
    ensures |r| <= |s|
    decreases |s|
  {
    if |pat| == 0 || |s| < |pat| then s
    else if s[..|pat|] == pat then Remove(s[|pat|..], pat)
    else [s[0]] + Remove(s[1..], pat)
  }

  /** `pat` does not occur anywhere in `s`. */
  predicate Lacks(s: string, pat: string) {
    forall i: nat :: i <= |s| ==> !MatchAt(s, pat, i)
  }

  lemma {:induction false} RemoveAbsent(s: string, pat: string)
    requires |pat| > 0 && Lacks(s, pat)
    ensures Remove(s, pat) == s
    decreases |s|
  {
    if |s| >= |pat| {
      assert !MatchAt(s, pat, 0);
      MatchTail(s, pat);
      assert Lacks(s[1..], pat) by {
        forall i: nat | i <= |s[1..]| ensures !MatchAt(s[1..], pat, i) {
          assert !MatchAt(s, pat, i + 1);
        }
      }
      RemoveAbsent(s[1..], pat);
      assert [s[0]] + s[1..] == s;
    }
  }

  function UpperChar(c: char): char {
    if 'a' <= c <= 'z' then (c as int - 32) as char else c
  }

  /** `s.upper()`, for the ASCII letters. */
  function Upper(s: string): (r: string)
    ensures |r| == |s|
    ensures forall i :: 0 <= i < |s| ==> r[i] == UpperChar(s[i])
  {
    seq(|s|, i requires 0 <= i < |s| => UpperChar(s[i]))
  }

  predicate IsDigit(c: char) {
    '0' <= c <= '9'
  }

  predicate AllDigits(s: string) {
    forall i :: 0 <= i < |s| ==> IsDigit(s[i])
  }

  /** The value of a run of decimal digits in which `_` separators are skipped. */
  function DigitsValue(s: string): nat
    requires forall i :: 0 <= i < |s| ==> IsDigit(s[i]) || s[i] == '_'
  {
    if s == [] then 0
    else if s[|s| - 1] == '_' then DigitsValue(s[..|s| - 1])
    else
      assert IsDigit(s[|s| - 1]);
      10 * DigitsValue(s[..|s| - 1]) + (s[|s| - 1] as int - '0' as int)
  }

  /** A decimal integer as `int()` reads it: digits, with single `_` between two digits. */
  predicate IntBody(s: string) {
    && |s| > 0 && IsDigit(s[0]) && IsDigit(s[|s| - 1])
    && (forall i :: 0 <= i < |s| ==> IsDigit(s[i]) || s[i] == '_')
    && (forall i :: 0 <= i < |s| - 1 ==> IsDigit(s[i]) || IsDigit(s[i + 1]))
  }

  /** `int(s)` for a base-10 string: surrounding whitespace, an optional sign, then the digits. */
  function ParseInt(s: string): Result<int> {
    var t := Strip(s);
    if t == [] then Failure(ValueError)
    else
      var neg := t[0] == '-';
      var body := if t[0] == '-' || t[0] == '+' then t[1..] else t;
      if IntBody(body) then
        var v: int := DigitsValue(body);
        Success(if neg then -v else v)
      else Failure(ValueError)
  }

  /**
    `eval(s)` where `s` is meant to be an optionally negated decimal literal. Python 3 refuses a
    literal with a leading zero unless it is all zeros ("05" is a SyntaxError, "00" is 0).
   */
  function EvalInt(s: string): Result<int> {
    var neg := |s| > 0 && s[0] == '-';
    var body := if neg then s[1..] else s;
    if body != [] && AllDigits(body) && (body[0] != '0' || forall i :: 0 <= i < |body| ==> body[i] == '0')
    then
      var v: int := DigitsValue(body);
      Success(if neg then -v else v)
    else Failure(SyntaxError)
  }

  /** A single non-zero digit evaluates to its value. */
  lemma EvalDigit(d: char)
    requires '1' <= d <= '9'
    ensures EvalInt([d]) == Success(d as int - '0' as int)
  {
    var s := [d];
    assert s[..0] == [] && s[0] == d;
    assert AllDigits(s);
    assert DigitsValue(s) == 10 * DigitsValue([]) + (d as int - '0' as int);
  }

  /** `str(n)` for an int. */
  function IntToString(n: int): (r: string)
    ensures forall i :: 0 <= i < |r| ==> IsDigit(r[i]) || r[i] == '-'
    ensures |r| > 0
  {
    if n < 0 then "-" + NatToString(-n) else NatToString(n)
  }

  function NatToString(n: nat): (r: string)
    ensures AllDigits(r) && |r| > 0
  {
    var d := ['0' + (n % 10) as char];
    if n < 10 then d else NatToString(n / 10) + d
  }

  /** A string that Python's repr writes as itself between single quotes. */
  predicate Plain(s: string) {
    forall i :: 0 <= i < |s| ==> ' ' <= s[i] <= '~' && s[i] != '\'' && s[i] != '\\'
  }

  /** `repr(s)` for a plain string. */
  function ReprStr(s: string): string
    requires Plain(s)
  {
    "'" + s + "'"
  }

  /** `str(xs)` for a list of plain strings, e.g. "['-1', '-2']". */
  function ReprList(xs: seq<string>): string
    requires forall i :: 0 <= i < |xs| ==> Plain(xs[i])
  {
    "[" + Join(seq(|xs|, i requires 0 <= i < |xs| => ReprStr(xs[i])), ", ") + "]"
  }
}
