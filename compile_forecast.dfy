/**
  Compiling FORECasT labels: parsing SelfTarget indel tokens, the per-oligo deletion and
  1-bp-insertion ratios, the test/validation/training split and the aligned selection that is
  pickled.
 */
module CompileForecast {
  import opened Wrappers
  import opened PyStr
  import opened Sums
  import RF = ReadForecastData

  // ---------------------------------------------------------------------------------------------
  // token_to_full_indel

  /** One match of `([CLRDI]+)(-?\d+)`: the letter group and the number as written. */
  datatype CigarMatch = CigarMatch(letters: string, val: string)

  /**
    One match of `([MNDSI]+)(-?\d+)(\[[ATGC]+\])?`; `nucl` is the bracket group as written,
    brackets included, or "" when it did not take part.
   */
  datatype MutMatch = MutMatch(letters: string, val: string, nucl: string)

  /** A mutation `(letter, position, bases)` of the `muts` list. */
  datatype Mutation = Mutation(letters: string, pos: int, bases: string)

  /** The tuple `(kind, size, details, muts)` that `token_to_full_indel` returns. */
  datatype FullIndel = FullIndel(kind: char, size: int, details: map<string, int>, muts: seq<Mutation>)

  predicate IsCigarLetter(c: char) { c == 'C' || c == 'L' || c == 'R' || c == 'D' || c == 'I' }
  predicate IsMutLetter(c: char) { c == 'M' || c == 'N' || c == 'D' || c == 'S' || c == 'I' }
  predicate IsNucl(c: char) { c == 'A' || c == 'T' || c == 'G' || c == 'C' }

  /** The end of the run of `p`-characters of `s` that starts at index `i`. */
  function RunEnd(s: string, i: nat, p: char -> bool): (j: nat)
    requires i <= |s|
    ensures i <= j <= |s|
    decreases |s| - i
  {
    if i < |s| && p(s[i]) then RunEnd(s, i + 1, p) else i
  }

  /** The end of the match of `-?\d+` at index `i` (greedy), or `i` when there is none. */
  function NumEnd(s: string, i: nat): (j: nat)
    requires i <= |s|
    ensures i <= j <= |s|
  {
    if i < |s| && s[i] == '-' && RunEnd(s, i + 1, IsDigit) > i + 1 then RunEnd(s, i + 1, IsDigit)
    else RunEnd(s, i, IsDigit)
  }

  /** The end of the match of `\[[ATGC]+\]` at index `i`, or `i` when there is none. */
  function BracketEnd(s: string, i: nat): (j: nat)
    requires i <= |s|
    ensures i <= j <= |s|
  {
    if i < |s| && s[i] == '[' then
      var k := RunEnd(s, i + 1, IsNucl);
      if k > i + 1 && k < |s| && s[k] == ']' then k + 1 else i
    else i
  }

  /**
    The match of `([CLRDI]+)(-?\d+)` at the start of `s`, with the text after it: the longest
    letter run, then the number (`-?\d+` is greedy, and a shorter letter run cannot help since
    the character after it is again a letter).
   */
  function CigarAt(s: string): (r: Option<(CigarMatch, string)>)
    ensures r.Some? ==> |r.value.1| < |s|
  {
    var l := RunEnd(s, 0, IsCigarLetter);
    var e := NumEnd(s, l);
    if l > 0 && e > l then Some((CigarMatch(s[..l], s[l..e]), s[e..])) else None
  }

  /** The match of `([MNDSI]+)(-?\d+)(\[[ATGC]+\])?` at the start of `s`, with the text after it. */
  function MutAt(s: string): (r: Option<(MutMatch, string)>)
    ensures r.Some? ==> |r.value.1| < |s|
  {
    var l := RunEnd(s, 0, IsMutLetter);
    var e := NumEnd(s, l);
    if l > 0 && e > l then
      var f := BracketEnd(s, e);
      Some((MutMatch(s[..l], s[l..e], s[e..f]), s[f..]))
    else None
  }

  /**
    `re.findall(r'([CLRDI]+)(-?\d+)', s)`: matches are collected left to right without overlap;
    where no match starts, the scan moves on by one character.
   */
  function FindCigar(s: string): seq<CigarMatch>
    decreases |s|
  {
    if s == [] then []
    else
      match CigarAt(s)
      case Some((m, rest)) => [m] + FindCigar(rest)
      case None => FindCigar(s[1..])
  }

  /** `re.findall(r'([MNDSI]+)(-?\d+)(\[[ATGC]+\])?', s)`. */
  function FindMut(s: string): seq<MutMatch>
    decreases |s|
  {
    if s == [] then []
    else
      match MutAt(s)
      case Some((m, rest)) => [m] + FindMut(rest)
      case None => FindMut(s[1..])
  }

  /** What `-?\d+` matches: an optional minus sign and at least one digit. */
  predicate NumShaped(v: string) {
    || (v != [] && AllDigits(v))
    || (|v| > 1 && v[0] == '-' && AllDigits(v[1..]))
  }

  predicate CigarShaped(m: CigarMatch) {
    && m.letters != [] && (forall i :: 0 <= i < |m.letters| ==> IsCigarLetter(m.letters[i]))
    && NumShaped(m.val)
  }

  /** What `\[[ATGC]+\]` matches. */
  predicate BracketShaped(b: string) {
    |b| >= 3 && b[0] == '[' && b[|b| - 1] == ']' && forall i :: 1 <= i < |b| - 1 ==> IsNucl(b[i])
  }

  predicate MutShaped(m: MutMatch) {
    && m.letters != [] && (forall i :: 0 <= i < |m.letters| ==> IsMutLetter(m.letters[i]))
    && NumShaped(m.val)
    && (m.nucl == [] || BracketShaped(m.nucl))
  }

  /** `eval` of the number of a details match. */
  function CigarValue(m: CigarMatch): Result<int> {
    EvalInt(m.val)
  }

  function Letters(ms: seq<CigarMatch>): (r: seq<string>)
    ensures |r| == |ms| && forall i :: 0 <= i < |ms| ==> r[i] == ms[i].letters
  {
    seq(|ms|, i requires 0 <= i < |ms| => ms[i].letters)
  }

  /** Only I, D and C get a default. */
  const DefaultDetails: map<string, int> := map["I" := 0, "D" := 0, "C" := 0]

  /** The `details` dictionary: the defaults, then one assignment per match in order. */
  function Details(ms: seq<CigarMatch>): Result<map<string, int>> {
    match MapAll(ms, CigarValue)
    case Failure(e) => Failure(e)
    case Success(vals) => Success(DefaultDetails + RF.ToDict(Letters(ms), vals))
  }

  /** One `muts.append((letter, eval(val), nucl[1:-1]))`, a missing bracket read as "[]". */
  function ToMutation(m: MutMatch): Result<Mutation> {
    var nucl := if m.nucl == "" then "[]" else m.nucl;
    match EvalInt(m.val)
    case Failure(e) => Failure(e)
    case Success(v) => Success(Mutation(m.letters, v, RF.PySlice(nucl, 1, -1)))
  }

  /** The segments of a token, split on `_`. */
  function Segments(indel: string): (toks: seq<string>)
    ensures |toks| >= 1
  {
    Split(indel, "_")
  }

  /** Mutations are read when there are three segments or more, or two after a `-` type. */
  predicate ReadsMutations(toks: seq<string>)
    requires |toks| >= 1
  {
    |toks| > 2 || (toks[0] == "-" && |toks| > 1)
  }

  /** The segment read for details: the second one, or "" when there is none. */
  function DetailsSegment(toks: seq<string>): string {
    if |toks| > 1 then toks[1] else ""
  }

  /** The mutation matches read: those of the last segment, when mutations are read at all. */
  function MutMatches(toks: seq<string>): seq<MutMatch>
    requires |toks| >= 1
  {
    if ReadsMutations(toks) then FindMut(toks[|toks| - 1]) else []
  }

  /**
    `token_to_full_indel`: the details are evaluated first, then the mutations, then the type's
    first character is taken (IndexError for an empty type) and the size evaluated.
   */
  function FullIndelOf(indel: string): Result<FullIndel> {
    var toks := Segments(indel);
    match Details(FindCigar(DetailsSegment(toks)))
    case Failure(e) => Failure(e)
    case Success(details) =>
      match MapAll(MutMatches(toks), ToMutation)
      case Failure(e) => Failure(e)
      case Success(muts) =>
        var indelType := toks[0];
        if indelType == [] then Failure(IndexError)
        else if indelType[0] == '-' then Success(FullIndel('-', 0, details, muts))
        else
          match EvalInt(indelType[1..])
          case Failure(e) => Failure(e)
          case Success(size) => Success(FullIndel(indelType[0], size, details, muts))
  }

  /**
    `token_to_full_indel`, as the source runs it: fill `details` match by match, then append the
    mutations one by one, then read the type and size.
   */
  method TokenToFullIndel(indel: string) returns (r: Result<FullIndel>)
    ensures r == FullIndelOf(indel)
  {
    var toks := Split(indel, "_");
    var indelType, indelDetails := toks[0], "";
    if |toks| > 1 {
      indelDetails := toks[1];
    }
    var details := FillDetails(FindCigar(indelDetails));
    if details.Failure? {
      return Failure(details.error);
    }
    var muts: Result<seq<Mutation>> := Success([]);
    if |toks| > 2 || (indelType == "-" && |toks| > 1) {
      muts := CollectMutations(FindMut(toks[|toks| - 1]));
    }
    assert muts == MapAll(MutMatches(toks), ToMutation);
    if muts.Failure? {
      return Failure(muts.error);
    }
    if indelType == [] {
      return Failure(IndexError);
    }
    if indelType[0] == '-' {
      return Success(FullIndel('-', 0, details.value, muts.value));
    }
    var size := EvalInt(indelType[1..]);
    if size.Failure? {
      return Failure(size.error);
    }
    r := Success(FullIndel(indelType[0], size.value, details.value, muts.value));
  }

  /** The loop `for (letter, val) in cigar_toks: details[letter] = eval(val)`. */
  method FillDetails(cigarToks: seq<CigarMatch>) returns (r: Result<map<string, int>>)
    ensures r == Details(cigarToks)
  {
    var details := DefaultDetails;
    ghost var vals: seq<int> := [];
    for i := 0 to |cigarToks|
      invariant MapAll(cigarToks[..i], CigarValue) == Success(vals)
      invariant details == DefaultDetails + RF.ToDict(Letters(cigarToks[..i]), vals)
    {
      var v := EvalInt(cigarToks[i].val);
      if v.Failure? {
        assert cigarToks[..i + 1][..i] == cigarToks[..i];
        MapAllPrefixFailure(cigarToks, CigarValue, i + 1);
        return Failure(v.error);
      }
      FillStep(cigarToks, i, vals, v.value);
      details := details[cigarToks[i].letters := v.value];
      vals := vals + [v.value];
    }
    assert cigarToks[..|cigarToks|] == cigarToks;
    r := Success(details);
  }

  /** The loop `for (letter, val, nucl) in mut_toks: ... muts.append(...)`. */
  method CollectMutations(mutToks: seq<MutMatch>) returns (r: Result<seq<Mutation>>)
    ensures r == MapAll(mutToks, ToMutation)
  {
    var muts: seq<Mutation> := [];
    for i := 0 to |mutToks|
      invariant MapAll(mutToks[..i], ToMutation) == Success(muts)
    {
      assert mutToks[..i + 1][..i] == mutToks[..i];
      var nucl := mutToks[i].nucl;
      if nucl == "" {
        nucl := "[]";
      }
      var v := EvalInt(mutToks[i].val);
      if v.Failure? {
        MapAllPrefixFailure(mutToks, ToMutation, i + 1);
        return Failure(v.error);
      }
      muts := muts + [Mutation(mutToks[i].letters, v.value, RF.PySlice(nucl, 1, -1))];
    }
    assert mutToks[..|mutToks|] == mutToks;
    r := Success(muts);
  }

  /** One more match evaluated and assigned. */
  lemma FillStep(ms: seq<CigarMatch>, i: nat, vals: seq<int>, v: int)
    requires i < |ms| && MapAll(ms[..i], CigarValue) == Success(vals) && EvalInt(ms[i].val) == Success(v)
    ensures MapAll(ms[..i + 1], CigarValue) == Success(vals + [v])
    ensures DefaultDetails + RF.ToDict(Letters(ms[..i + 1]), vals + [v])
      == (DefaultDetails + RF.ToDict(Letters(ms[..i]), vals))[ms[i].letters := v]
  {
    ValuesStep(ms, i, vals, v);
    LettersStep(ms, i);
    DetailsStep(Letters(ms[..i]), vals, ms[i].letters, v);
  }

  lemma ValuesStep(ms: seq<CigarMatch>, i: nat, vals: seq<int>, v: int)
    requires i < |ms| && MapAll(ms[..i], CigarValue) == Success(vals) && EvalInt(ms[i].val) == Success(v)
    ensures MapAll(ms[..i + 1], CigarValue) == Success(vals + [v])
  {
    assert ms[..i + 1][..i] == ms[..i];
  }

  lemma LettersStep(ms: seq<CigarMatch>, i: nat)
    requires i < |ms|
    ensures Letters(ms[..i + 1]) == Letters(ms[..i]) + [ms[i].letters]
  {
  }

  /** One more assignment `details[k] = v` is one more entry at the end of the dictionary's rows. */
  lemma DetailsStep(keys: seq<string>, vals: seq<int>, k: string, v: int)
    requires |keys| == |vals|
    ensures DefaultDetails + RF.ToDict(keys + [k], vals + [v]) == (DefaultDetails + RF.ToDict(keys, vals))[k := v]
  {
    assert (keys + [k])[..|keys|] == keys;
    assert (vals + [v])[..|keys|] == vals;
  }

  // Properties of the regular-expression scans

  /** A match found at the start of `s` is shaped like the pattern. */
  lemma CigarAtShaped(s: string)
    requires CigarAt(s).Some?
    ensures CigarShaped(CigarAt(s).value.0)
  {
    var l := RunEnd(s, 0, IsCigarLetter);
    RunEndSpec(s, 0, IsCigarLetter);
    NumEndShaped(s, l);
  }

  lemma MutAtShaped(s: string)
    requires MutAt(s).Some?
    ensures MutShaped(MutAt(s).value.0)
  {
    var l := RunEnd(s, 0, IsMutLetter);
    RunEndSpec(s, 0, IsMutLetter);
    NumEndShaped(s, l);
    BracketEndShaped(s, NumEnd(s, l));
  }

  /** Every details match is a non-empty run of C/L/R/D/I letters and a signed decimal number. */
  lemma {:induction false} FindCigarShaped(s: string)
    ensures forall i :: 0 <= i < |FindCigar(s)| ==> CigarShaped(FindCigar(s)[i])
    decreases |s|
  {
    if s != [] {
      match CigarAt(s)
      case Some((m, rest)) =>
        CigarAtShaped(s);
        FindCigarShaped(rest);
      case None =>
        FindCigarShaped(s[1..]);
    }
  }

  /** Every mutation match is a run of M/N/D/S/I letters, a signed number and an optional bracket of bases. */
  lemma {:induction false} FindMutShaped(s: string)
    ensures forall i :: 0 <= i < |FindMut(s)| ==> MutShaped(FindMut(s)[i])
    decreases |s|
  {
    if s != [] {
      match MutAt(s)
      case Some((m, rest)) =>
        MutAtShaped(s);
        FindMutShaped(rest);
      case None =>
        FindMutShaped(s[1..]);
    }
  }

  /** Every character of the run is a `p`-character, and the one after it (if any) is not. */
  lemma {:induction false} RunEndSpec(s: string, i: nat, p: char -> bool)
    requires i <= |s|
    ensures forall k :: i <= k < RunEnd(s, i, p) ==> p(s[k])
    ensures RunEnd(s, i, p) < |s| ==> !p(s[RunEnd(s, i, p)])
    decreases |s| - i
  {
    if i < |s| && p(s[i]) {
      RunEndSpec(s, i + 1, p);
    }
  }

  /** A run of `p`-characters from `i` to `j` that is not followed by one ends at `j`. */
  lemma {:induction false} RunEndOf(s: string, i: nat, j: nat, p: char -> bool)
    requires i <= j <= |s|
    requires forall k :: i <= k < j ==> p(s[k])
    requires j < |s| ==> !p(s[j])
    ensures RunEnd(s, i, p) == j
    decreases j - i
  {
    if i < j {
      RunEndOf(s, i + 1, j, p);
    }
  }

  /** A non-empty number match has the shape of `-?\d+`. */
  lemma NumEndShaped(s: string, i: nat)
    requires i <= |s| && NumEnd(s, i) > i
    ensures NumShaped(s[i..NumEnd(s, i)])
  {
    var v := s[i..NumEnd(s, i)];
    if s[i] == '-' && RunEnd(s, i + 1, IsDigit) > i + 1 {
      RunEndSpec(s, i + 1, IsDigit);
      forall k | 0 <= k < |v| - 1 ensures IsDigit(v[1..][k]) {
        assert v[1..][k] == s[i + 1 + k];
      }
    } else {
      RunEndSpec(s, i, IsDigit);
    }
  }

  /** A non-empty bracket match is `[`, at least one base, `]`. */
  lemma BracketEndShaped(s: string, i: nat)
    requires i <= |s|
    ensures BracketEnd(s, i) > i ==> BracketShaped(s[i..BracketEnd(s, i)])
  {
    if BracketEnd(s, i) > i {
      RunEndSpec(s, i + 1, IsNucl);
    }
  }

  /** A number that is not followed by a digit is matched in full by `-?\d+`. */
  lemma NumEndOf(s: string, i: nat, j: nat)
    requires i <= j <= |s| && NumShaped(s[i..j]) && (j < |s| ==> !IsDigit(s[j]))
    ensures NumEnd(s, i) == j
  {
    var v := s[i..j];
    if s[i] == '-' {
      assert v[0] == '-';
      forall k | i + 1 <= k < j ensures IsDigit(s[k]) {
        assert s[k] == v[1..][k - i - 1];
      }
      RunEndOf(s, i + 1, j, IsDigit);
    } else {
      assert AllDigits(v);
      forall k | i <= k < j ensures IsDigit(s[k]) {
        assert s[k] == v[k - i];
      }
      RunEndOf(s, i, j, IsDigit);
    }
  }

  /** A bracket group is matched in full by `\[[ATGC]+\]`. */
  lemma BracketEndOf(s: string, i: nat, j: nat)
    requires i <= j <= |s| && BracketShaped(s[i..j])
    ensures BracketEnd(s, i) == j
  {
    var b := s[i..j];
    forall k | i + 1 <= k < j - 1 ensures IsNucl(s[k]) {
      assert s[k] == b[k - i];
    }
    assert s[j - 1] == b[|b| - 1];
    RunEndOf(s, i + 1, j - 1, IsNucl);
  }

  /** The text a sequence of details matches is written back to. */
  function RenderCigar(ms: seq<CigarMatch>): string {
    if ms == [] then "" else ms[0].letters + (ms[0].val + RenderCigar(ms[1..]))
  }

  /** The text a sequence of mutation matches is written back to. */
  function RenderMut(ms: seq<MutMatch>): string {
    if ms == [] then "" else ms[0].letters + (ms[0].val + (ms[0].nucl + RenderMut(ms[1..])))
  }

  lemma HeadTail<T>(xs: seq<T>)
    requires xs != []
    ensures xs == [xs[0]] + xs[1..]
  {
  }

  /** A written-out details match followed by the next one (or nothing) is matched in full. */
  lemma CigarAtRendered(m: CigarMatch, rest: string)
    requires CigarShaped(m) && (rest != [] ==> IsCigarLetter(rest[0]))
    ensures CigarAt(m.letters + (m.val + rest)) == Some((m, rest))
  {
    RunAtStart(m.letters, m.val + rest, IsCigarLetter);
    NumEndAt(m.letters, m.val, rest);
    RenderedSlices(m.letters, m.val, rest);
  }

  /** A written-out mutation followed by the next one (or nothing) is matched in full. */
  lemma MutAtRendered(m: MutMatch, rest: string)
    requires MutShaped(m) && (rest != [] ==> IsMutLetter(rest[0]))
    ensures MutAt(m.letters + (m.val + (m.nucl + rest))) == Some((m, rest))
  {
    RenderedSlices(m.letters, m.val, m.nucl + rest);
    RenderedSlices'(m.letters, m.val, m.nucl, rest);
    MutAtParts(m.letters + (m.val + (m.nucl + rest)), m, rest);
  }

  /** A string made of a written-out mutation and what follows it is matched in full. */
  lemma MutAtParts(s: string, m: MutMatch, rest: string)
    requires MutShaped(m) && (rest != [] ==> IsMutLetter(rest[0]))
    requires |s| == |m.letters| + |m.val| + |m.nucl| + |rest|
    requires var l := |m.letters|; var e := l + |m.val|; var f := e + |m.nucl|;
      s[..l] == m.letters && s[l..e] == m.val && s[e..f] == m.nucl && s[f..] == rest
    ensures MutAt(s) == Some((m, rest))
  {
    var l := |m.letters|;
    var e := l + |m.val|;
    var f := e + |m.nucl|;
    forall k | 0 <= k < l ensures IsMutLetter(s[k]) {
      assert s[k] == m.letters[k];
    }
    assert s[l] == m.val[0];
    RunEndOf(s, 0, l, IsMutLetter);
    assert e < |s| ==> s[e] == (if m.nucl != [] then m.nucl[0] else rest[0]);
    NumEndOf(s, l, e);
    if m.nucl != [] {
      BracketEndOf(s, e, f);
    }
    MutAtBy(s, l, e, f);
  }

  /** `MutAt` in terms of where its three groups end. */
  lemma MutAtBy(s: string, l: nat, e: nat, f: nat)
    requires 0 < l < e <= f <= |s|
    requires RunEnd(s, 0, IsMutLetter) == l && NumEnd(s, l) == e && BracketEnd(s, e) == f
    ensures MutAt(s) == Some((MutMatch(s[..l], s[l..e], s[e..f]), s[f..]))
  {
  }

  /** A run of `p`-characters followed by something else is the run found at the start. */
  lemma RunAtStart(a: string, b: string, p: char -> bool)
    requires forall k :: 0 <= k < |a| ==> p(a[k])
    requires b != [] ==> !p(b[0])
    ensures RunEnd(a + b, 0, p) == |a|
  {
    var s := a + b;
    forall k | 0 <= k < |a| ensures p(s[k]) {
      assert s[k] == a[k];
    }
    assert |a| < |s| ==> s[|a|] == b[0];
    RunEndOf(s, 0, |a|, p);
  }

  /** A number written after `a` and followed by a non-digit is matched in full. */
  lemma NumEndAt(a: string, v: string, r: string)
    requires NumShaped(v) && (r != [] ==> !IsDigit(r[0]))
    ensures NumEnd(a + (v + r), |a|) == |a| + |v|
  {
    var s := a + (v + r);
    RenderedSlices(a, v, r);
    assert |a| + |v| < |s| ==> s[|a| + |v|] == r[0];
    NumEndOf(s, |a|, |a| + |v|);
  }

  /** Both parts of `a + (b + c)` are found back by slicing. */
  lemma RenderedSlices(a: string, b: string, c: string)
    ensures var s := a + (b + c);
      s[..|a|] == a && s[|a|..|a| + |b|] == b && s[|a| + |b|..] == c
  {
    var s := a + (b + c);
    assert s[|a|..] == b + c;
    assert s[|a|..][..|b|] == s[|a|..|a| + |b|];
  }

  /** The third and fourth parts of `a + (b + (c + d))` are found back by slicing. */
  lemma RenderedSlices'(a: string, b: string, c: string, d: string)
    ensures var s := a + (b + (c + d));
      s[|a| + |b|..|a| + |b| + |c|] == c && s[|a| + |b| + |c|..] == d
  {
    var s := a + (b + (c + d));
    assert s[|a| + |b|..] == c + d;
    assert s[|a| + |b|..][..|c|] == s[|a| + |b|..|a| + |b| + |c|];
  }

  /** Scanning the written-out details finds exactly the matches that were written. */
  lemma {:induction false} FindCigarRender(ms: seq<CigarMatch>)
    requires forall i :: 0 <= i < |ms| ==> CigarShaped(ms[i])
    ensures FindCigar(RenderCigar(ms)) == ms
  {
    if ms != [] {
      var rest := RenderCigar(ms[1..]);
      assert rest != [] ==> rest[0] == ms[1].letters[0];
      CigarAtRendered(ms[0], rest);
      FindCigarRender(ms[1..]);
      HeadTail(ms);
    }
  }

  /** Scanning the written-out mutations finds exactly the matches that were written. */
  lemma {:induction false} FindMutRender(ms: seq<MutMatch>)
    requires forall i :: 0 <= i < |ms| ==> MutShaped(ms[i])
    ensures FindMut(RenderMut(ms)) == ms
  {
    if ms != [] {
      var rest := RenderMut(ms[1..]);
      assert rest != [] ==> rest[0] == ms[1].letters[0];
      MutAtRendered(ms[0], rest);
      FindMutRender(ms[1..]);
      HeadTail(ms);
    }
  }

  // Properties of token_to_full_indel

  /** The number last assigned to key `k` by the matches, if any: later matches overwrite earlier ones. */
  function Assigned(ms: seq<CigarMatch>, k: string): Option<string> {
    if ms == [] then None
    else if ms[|ms| - 1].letters == k then Some(ms[|ms| - 1].val)
    else Assigned(ms[..|ms| - 1], k)
  }

  /** The details are built exactly when every matched number evaluates. */
  lemma DetailsSucceed(ms: seq<CigarMatch>)
    ensures Details(ms).Success? <==> forall i :: 0 <= i < |ms| ==> EvalInt(ms[i].val).Success?
  {
    MapAllElements(ms, CigarValue);
  }

  /**
    The details dictionary holds I, D and C and every letter group matched; a key holds the
    number of its last match, and a default key never matched holds 0.
   */
  lemma {:induction false} DetailsSpec(ms: seq<CigarMatch>)
    requires Details(ms).Success?
    ensures forall k :: k in Details(ms).value <==> k in DefaultDetails || Assigned(ms, k).Some?
    ensures forall k :: k in Details(ms).value ==>
      (Assigned(ms, k).Some? ==> EvalInt(Assigned(ms, k).value) == Success(Details(ms).value[k]))
    ensures forall k :: k in Details(ms).value ==>
      (Assigned(ms, k).None? ==> Details(ms).value[k] == 0)
  {
    if ms != [] {
      var init, last := ms[..|ms| - 1], ms[|ms| - 1];
      DetailsExtend(ms);
      DetailsSpec(init);
    }
  }

  /** Details of one more match: the previous dictionary with that key assigned. */
  lemma DetailsExtend(ms: seq<CigarMatch>)
    requires ms != [] && Details(ms).Success?
    ensures var init, last := ms[..|ms| - 1], ms[|ms| - 1];
      && Details(init).Success? && EvalInt(last.val).Success?
      && Details(ms).value == Details(init).value[last.letters := EvalInt(last.val).value]
  {
    var init, last := ms[..|ms| - 1], ms[|ms| - 1];
    var vals := MapAll(init, CigarValue).value;
    assert Letters(ms) == Letters(init) + [last.letters];
    DetailsStep(Letters(init), vals, last.letters, EvalInt(last.val).value);
  }

  /** The kind is the first character of the first segment; the size is 0 for `-`, else the rest evaluated. */
  lemma TokenKindSize(indel: string)
    requires FullIndelOf(indel).Success?
    ensures var r, t := FullIndelOf(indel).value, Segments(indel)[0];
      && t != [] && r.kind == t[0]
      && (t[0] == '-' ==> r.size == 0)
      && (t[0] != '-' ==> EvalInt(t[1..]) == Success(r.size))
  {
  }

  /**
    What a token needs to parse: every number matched in the details and mutation segments
    evaluates, the first segment is not empty, and after a kind other than `-` it evaluates.
   */
  predicate Parses(indel: string) {
    var toks := Segments(indel);
    var cs, ms := FindCigar(DetailsSegment(toks)), MutMatches(toks);
    && (forall i :: 0 <= i < |cs| ==> EvalInt(cs[i].val).Success?)
    && (forall i :: 0 <= i < |ms| ==> EvalInt(ms[i].val).Success?)
    && toks[0] != [] && (toks[0][0] == '-' || EvalInt(toks[0][1..]).Success?)
  }

  /** `token_to_full_indel` returns exactly for the tokens that parse, and raises for every other. */
  lemma TokenSucceeds(indel: string)
    ensures FullIndelOf(indel).Success? <==> Parses(indel)
  {
    var toks := Segments(indel);
    DetailsSucceed(FindCigar(DetailsSegment(toks)));
    MutationsSucceed(MutMatches(toks));
  }

  /** The mutations are built exactly when every matched number evaluates. */
  lemma MutationsSucceed(ms: seq<MutMatch>)
    ensures MapAll(ms, ToMutation).Success? <==> forall i :: 0 <= i < |ms| ==> EvalInt(ms[i].val).Success?
  {
    MapAllElements(ms, ToMutation);
    assert forall i :: 0 <= i < |ms| ==> (ToMutation(ms[i]).Success? <==> EvalInt(ms[i].val).Success?);
  }

  /** One mutation: its letters and number, and the bases inside the brackets ("" without brackets). */
  lemma ToMutationSpec(m: MutMatch)
    requires MutShaped(m) && ToMutation(m).Success?
    ensures var r := ToMutation(m).value;
      && r.letters == m.letters && EvalInt(m.val) == Success(r.pos)
      && (m.nucl == "" ==> r.bases == "")
      && (m.nucl != "" ==> m.nucl == "[" + r.bases + "]" && r.bases != [])
      && forall i :: 0 <= i < |r.bases| ==> IsNucl(r.bases[i])
  {
    if m.nucl != "" {
      var b := m.nucl[1..|m.nucl| - 1];
      assert RF.PySlice(m.nucl, 1, -1) == b;
      assert m.nucl == "[" + b + "]";
      forall i | 0 <= i < |b| ensures IsNucl(b[i]) {
        assert b[i] == m.nucl[i + 1];
      }
    }
  }

  /** A mutation as the matches of the last segment describe it. */
  predicate MutationOf(m: MutMatch, r: Mutation) {
    && r.letters == m.letters && EvalInt(m.val) == Success(r.pos)
    && (m.nucl == "" ==> r.bases == "")
    && (m.nucl != "" ==> m.nucl == "[" + r.bases + "]")
    && forall i :: 0 <= i < |r.bases| ==> IsNucl(r.bases[i])
  }

  /** Each shaped match gives the mutation it describes, in order. */
  lemma MutationsSpec(ms: seq<MutMatch>)
    requires forall i :: 0 <= i < |ms| ==> MutShaped(ms[i])
    requires MapAll(ms, ToMutation).Success?
    ensures var muts := MapAll(ms, ToMutation).value;
      |muts| == |ms| && forall j :: 0 <= j < |ms| ==> MutationOf(ms[j], muts[j])
  {
    MapAllElements(ms, ToMutation);
    forall j | 0 <= j < |ms| ensures MutationOf(ms[j], MapAll(ms, ToMutation).value[j]) {
      ToMutationSpec(ms[j]);
    }
  }

  /**
    Mutations come only from the last segment, and only when there are at least three segments
    or the type is exactly `-` with a second segment; there is one per match, in order.
   */
  lemma TokenMutations(indel: string)
    requires FullIndelOf(indel).Success?
    ensures var toks, muts := Segments(indel), FullIndelOf(indel).value.muts;
      !ReadsMutations(toks) ==> muts == []
    ensures var toks, muts := Segments(indel), FullIndelOf(indel).value.muts;
      var ms := FindMut(toks[|toks| - 1]);
      ReadsMutations(toks) ==> |muts| == |ms| && forall j :: 0 <= j < |ms| ==> MutationOf(ms[j], muts[j])
  {
    var toks := Segments(indel);
    if ReadsMutations(toks) {
      FindMutShaped(toks[|toks| - 1]);
      MutationsSpec(MutMatches(toks));
    }
  }

  /** Text without any C/L/R/D/I letter holds no details match. */
  lemma {:induction false} FindCigarNoLetters(s: string)
    requires forall i :: 0 <= i < |s| ==> !IsCigarLetter(s[i])
    ensures FindCigar(s) == []
    decreases |s|
  {
    if s != [] {
      FindCigarNoLetters(s[1..]);
    }
  }

  /**
    With exactly two segments only a type written exactly `-` reads mutations: any other type,
    `-3` included, yields none whatever the second segment holds.
   */
  lemma TwoSegmentsNoMutations(a: string, b: string)
    requires '_' !in a && '_' !in b && a != "-"
    ensures FullIndelOf(a + "_" + b).Success? ==> FullIndelOf(a + "_" + b).value.muts == []
  {
    SegmentsOf(a, b);
  }

  /** After a bare `-` type, the second segment is read both for details and for mutations. */
  lemma DashSegmentReadTwice(b: string)
    requires '_' !in b
    ensures var toks := Segments("-" + "_" + b);
      ReadsMutations(toks) && DetailsSegment(toks) == b && MutMatches(toks) == FindMut(b)
  {
    SegmentsOf("-", b);
  }

  lemma SegmentsOf(a: string, b: string)
    requires '_' !in a && '_' !in b
    ensures Segments(a + "_" + b) == [a, b]
  {
    SplitOnce(a, b, '_');
  }

  // ---------------------------------------------------------------------------------------------
  // get_indel_freq

  /** The outcome table: per oligo, the count of each indel token. */
  type Counts = map<RF.OligoKey, map<string, int>>

  /** `cigar.startswith("D")` and `cigar.startswith("I")`. */
  predicate IsDeletionKey(k: string) { |k| > 0 && k[0] == 'D' }
  predicate IsInsertionKey(k: string) { |k| > 0 && k[0] == 'I' }

  /** The count of a token, as a function over all strings (0 off the table). */
  function CountOf(inner: map<string, int>): string -> int {
    k => Get(inner, k)
  }

  /** The count of a deletion token, 0 for any other. */
  function DelPart(inner: map<string, int>): string -> int {
    k => if IsDeletionKey(k) then Get(inner, k) else 0
  }

  /** The count of an insertion token, 0 for any other. */
  function InsPart(inner: map<string, int>): string -> int {
    k => if IsInsertionKey(k) then Get(inner, k) else 0
  }

  ghost function Total(inner: map<string, int>): int { SetSum(inner.Keys, CountOf(inner)) }
  ghost function DelSum(inner: map<string, int>): int { SetSum(inner.Keys, DelPart(inner)) }
  ghost function InsSum(inner: map<string, int>): int { SetSum(inner.Keys, InsPart(inner)) }

  /** Every token of the oligo is a deletion or an insertion. */
  predicate IndelKeysOnly(inner: map<string, int>) {
    forall k :: k in inner ==> IsDeletionKey(k) || IsInsertionKey(k)
  }

  /** The pair `this = [deletions, insertions]` of one oligo, or the exception a foreign token raises. */
  ghost function IndelTally(inner: map<string, int>): Result<(int, int)> {
    if IndelKeysOnly(inner) then Success((DelSum(inner), InsSum(inner))) else Failure(RaisedException)
  }

  /**
    `label_dict[oligo]` on the nested defaultdict the reader builds: an oligo the table does not
    hold reads as an empty dictionary of tokens.
   */
  function OligoCounts(labels: Counts, o: RF.OligoKey): map<string, int> {
    if o in labels then labels[o] else map[]
  }

  /** `label_dict[oligo]` followed by its tally. */
  ghost function IndelTallyIn(labels: Counts): RF.OligoKey -> Result<(int, int)> {
    o => IndelTally(OligoCounts(labels, o))
  }

  /** numpy's `a / (a + b)` on integers; a zero denominator gives NaN or infinity, here `None`. */
  function Ratio(a: int, b: int): Option<real> {
    if a + b == 0 then None else Some(a as real / (a + b) as real)
  }

  /** The column-wise `freq[:,0] / (freq[:,0] + freq[:,1])`. */
  function Ratios(rows: seq<(int, int)>): seq<Option<real>> {
    seq(|rows|, i requires 0 <= i < |rows| => Ratio(rows[i].0, rows[i].1))
  }

  /**
    `get_indel_freq`: the tallies of the listed oligos in order, then the deletion share of each.
    With no oligo the array has shape (0,) and the column index `[:,0]` fails.
   */
  ghost function IndelFreq(labels: Counts, labelOligos: seq<RF.OligoKey>): Result<seq<Option<real>>> {
    match MapAll(labelOligos, IndelTallyIn(labels))
    case Failure(e) => Failure(e)
    case Success(rows) => if rows == [] then Failure(IndexError) else Success(Ratios(rows))
  }

  /** The inner loop of `get_indel_freq`, over the tokens of one oligo in dictionary order. */
  method TallyIndels(inner: map<string, int>) returns (r: Result<(int, int)>)
    ensures r == IndelTally(inner)
  {
    var cigars := Enumerate(inner.Keys);
    var del, ins := 0, 0;
    for i := 0 to |cigars|
      invariant forall j :: 0 <= j < i ==> IsDeletionKey(cigars[j]) || IsInsertionKey(cigars[j])
      invariant del == SumOver(cigars[..i], DelPart(inner))
      invariant ins == SumOver(cigars[..i], InsPart(inner))
    {
      var cigar := cigars[i];
      assert cigars[..i + 1][..i] == cigars[..i];
      if IsDeletionKey(cigar) {
        del := del + inner[cigar];
      } else if IsInsertionKey(cigar) {
        ins := ins + inner[cigar];
      } else {
        assert !IndelKeysOnly(inner) by { assert cigar in inner; }
        return Failure(RaisedException);
      }
    }
    assert cigars[..|cigars|] == cigars;
    SumOverSet(cigars, inner.Keys, DelPart(inner));
    SumOverSet(cigars, inner.Keys, InsPart(inner));
    r := Success((del, ins));
  }

  /** `get_indel_freq`, one oligo after the other. */
  method GetIndelFreq(labels: Counts, labelOligos: seq<RF.OligoKey>) returns (r: Result<seq<Option<real>>>)
    ensures r == IndelFreq(labels, labelOligos)
  {
    var freq: seq<(int, int)> := [];
    for i := 0 to |labelOligos|
      invariant MapAll(labelOligos[..i], IndelTallyIn(labels)) == Success(freq)
    {
      assert labelOligos[..i + 1][..i] == labelOligos[..i];
      var oligo := labelOligos[i];
      var tally := TallyIndels(OligoCounts(labels, oligo));
      if tally.Failure? {
        MapAllPrefixFailure(labelOligos, IndelTallyIn(labels), i + 1);
        return Failure(tally.error);
      }
      freq := freq + [tally.value];
    }
    assert labelOligos[..|labelOligos|] == labelOligos;
    if freq == [] {
      return Failure(IndexError);
    }
    r := Success(Ratios(freq));
  }


  // Properties of get_indel_freq

  /** Tokens are either deletions or insertions, so the two sums make up the oligo's total. */
  lemma DelInsTotal(inner: map<string, int>)
    requires IndelKeysOnly(inner)
    ensures DelSum(inner) + InsSum(inner) == Total(inner)
  {
    forall k | k in inner.Keys ensures CountOf(inner)(k) == DelPart(inner)(k) + InsPart(inner)(k) {
      assert IsDeletionKey(k) || IsInsertionKey(k);
    }
    SetSumLinear(inner.Keys, DelPart(inner), InsPart(inner), CountOf(inner));
  }

  /**
    `get_indel_freq` succeeds exactly when some oligo is listed and all tokens of every listed
    oligo start with D or I; entry i is then oligo i's deletion sum over its total.
   */
  lemma IndelFreqSpec(labels: Counts, labelOligos: seq<RF.OligoKey>)
    ensures IndelFreq(labels, labelOligos).Success? <==>
      labelOligos != [] &&
      forall i :: 0 <= i < |labelOligos| ==> IndelKeysOnly(OligoCounts(labels, labelOligos[i]))
    ensures IndelFreq(labels, labelOligos).Success? ==>
      var freq := IndelFreq(labels, labelOligos).value;
      |freq| == |labelOligos| &&
      forall i :: 0 <= i < |labelOligos| ==>
        var inner := OligoCounts(labels, labelOligos[i]);
        freq[i] == Ratio(DelSum(inner), InsSum(inner)) && DelSum(inner) + InsSum(inner) == Total(inner)
  {
    var f := IndelTallyIn(labels);
    MapAllElements(labelOligos, f);
    if IndelFreq(labels, labelOligos).Success? {
      forall i | 0 <= i < |labelOligos|
        ensures IndelKeysOnly(OligoCounts(labels, labelOligos[i]))
      {
        assert f(labelOligos[i]).Success?;
      }
      forall i | 0 <= i < |labelOligos|
        ensures var inner := OligoCounts(labels, labelOligos[i]);
          DelSum(inner) + InsSum(inner) == Total(inner)
      {
        DelInsTotal(OligoCounts(labels, labelOligos[i]));
      }
    }
  }

  /** A listed oligo the table lacks contributes the row `[0, 0]`, whose share is NaN. */
  lemma IndelFreqMissingOligo(labels: Counts, labelOligos: seq<RF.OligoKey>, i: nat)
    requires i < |labelOligos| && labelOligos[i] !in labels
    requires IndelFreq(labels, labelOligos).Success?
    ensures IndelFreq(labels, labelOligos).value[i] == None
  {
    IndelFreqSpec(labels, labelOligos);
    assert OligoCounts(labels, labelOligos[i]) == map[];
    assert DelSum(map[]) == 0 && InsSum(map[]) == 0;
  }

  /** With non-negative counts, `a / (a + b)` lies between 0 and 1 wherever it is defined. */
  lemma RatioBounds(a: int, b: int)
    requires a >= 0 && b >= 0
    ensures Ratio(a, b).Some? <==> a + b > 0
    ensures Ratio(a, b).Some? ==> 0.0 <= Ratio(a, b).value <= 1.0
  {
    if a + b > 0 {
      var d := (a + b) as real;
      assert a as real <= d;
      assert a as real / d <= d / d;
    }
  }

  /** Every count of the table is non-negative, as read from SelfTarget outcome files. */
  predicate NonNegative(labels: Counts) {
    forall o, k :: o in labels && k in labels[o] ==> labels[o][k] >= 0
  }

  lemma SetSumNonNegative(keys: set<string>, f: string -> int)
    requires forall k :: k in keys ==> f(k) >= 0
    ensures SetSum(keys, f) >= 0
  {
    SetSumMono(keys, _ => 0, f);
    SetSumZero(keys, _ => 0);
  }

  /** With non-negative counts every deletion share is in [0, 1], and it is undefined only for an oligo without counts. */
  lemma IndelFreqBounds(labels: Counts, labelOligos: seq<RF.OligoKey>)
    requires NonNegative(labels)
    ensures IndelFreq(labels, labelOligos).Success? ==>
      forall i :: 0 <= i < |labelOligos| ==>
        var v := IndelFreq(labels, labelOligos).value[i];
        (v.None? <==> Total(OligoCounts(labels, labelOligos[i])) == 0) && (v.Some? ==> 0.0 <= v.value <= 1.0)
  {
    IndelFreqSpec(labels, labelOligos);
    if IndelFreq(labels, labelOligos).Success? {
      forall i | 0 <= i < |labelOligos|
        ensures var v := IndelFreq(labels, labelOligos).value[i];
          (v.None? <==> Total(OligoCounts(labels, labelOligos[i])) == 0) && (v.Some? ==> 0.0 <= v.value <= 1.0)
      {
        var inner := OligoCounts(labels, labelOligos[i]);
        SetSumNonNegative(inner.Keys, DelPart(inner));
        SetSumNonNegative(inner.Keys, InsPart(inner));
        RatioBounds(DelSum(inner), InsSum(inner));
      }
    }
  }


  // ---------------------------------------------------------------------------------------------
  // get_1bp_insertion

  /** The token parses to kind `I` with size 1. */
  predicate IsOneBpInsertion(cigar: string) {
    var f := FullIndelOf(cigar);
    f.Success? && f.value.kind == 'I' && f.value.size == 1
  }

  /** Every token of the oligo parses. */
  predicate TokensParse(inner: map<string, int>) {
    forall k {:trigger Returns(k)} :: k in inner ==> Returns(k)
  }

  /** `token_to_full_indel` returns for the token (it does not raise). */
  predicate Returns(cigar: string) {
    FullIndelOf(cigar).Success?
  }

  /** Every element of the listing satisfies `ok`, taken from the front as a loop does. */
  predicate AllOf(xs: seq<string>, ok: string -> bool) {
    xs == [] || (AllOf(xs[..|xs| - 1], ok) && ok(xs[|xs| - 1]))
  }

  lemma {:induction false} AllOfSpec(xs: seq<string>, ok: string -> bool)
    ensures AllOf(xs, ok) <==> forall j :: 0 <= j < |xs| ==> ok(xs[j])
  {
    if xs != [] {
      var init := xs[..|xs| - 1];
      AllOfSpec(init, ok);
      assert forall j :: 0 <= j < |init| ==> init[j] == xs[j];
    }
  }

  /** A listing of the keys parses exactly when every key does. */
  lemma AllParseKeys(cigars: seq<string>, inner: map<string, int>)
    requires forall k :: k in inner.Keys <==> k in cigars
    ensures AllOf(cigars, Returns) <==> TokensParse(inner)
  {
    AllOfSpec(cigars, Returns);
    if AllOf(cigars, Returns) {
      forall k | k in inner ensures Returns(k) {
        assert k in cigars;
        var j :| 0 <= j < |cigars| && cigars[j] == k;
      }
    } else {
      var j :| 0 <= j < |cigars| && !Returns(cigars[j]);
      assert cigars[j] in inner;
    }
  }

  /** The count of a 1-bp insertion token, 0 for any other. */
  function OneBpPart(inner: map<string, int>): string -> int {
    k => if IsOneBpInsertion(k) then Get(inner, k) else 0
  }

  /** The count of any token that is not a 1-bp insertion. */
  function OtherPart(inner: map<string, int>): string -> int {
    k => if IsOneBpInsertion(k) then 0 else Get(inner, k)
  }

  ghost function OneBpSum(inner: map<string, int>): int { SetSum(inner.Keys, OneBpPart(inner)) }
  ghost function OtherSum(inner: map<string, int>): int { SetSum(inner.Keys, OtherPart(inner)) }
  ghost function OneBpCounts(inner: map<string, int>): (int, int) { (OneBpSum(inner), OtherSum(inner)) }

  /** The rows `[1-bp insertions, everything else]` of the listed oligos. */
  ghost function OneBpRows(labels: Counts, labelOligos: seq<RF.OligoKey>): (rows: seq<(int, int)>)
    ensures |rows| == |labelOligos|
  {
    if labelOligos == [] then []
    else
      var o := labelOligos[|labelOligos| - 1];
      OneBpRows(labels, labelOligos[..|labelOligos| - 1]) + [OneBpCounts(OligoCounts(labels, o))]
  }

  /** The tokens of every listed oligo before position `i` all parse. */
  ghost predicate ParsedUpTo(labels: Counts, labelOligos: seq<RF.OligoKey>, i: nat)
    requires i <= |labelOligos|
  {
    forall j {:trigger OligoParses(labels, labelOligos[j])} :: 0 <= j < i ==> OligoParses(labels, labelOligos[j])
  }

  /** The tokens the table holds for the oligo all parse (an oligo it lacks has none). */
  ghost predicate OligoParses(labels: Counts, o: RF.OligoKey) {
    TokensParse(OligoCounts(labels, o))
  }

  /**
    `get_1bp_insertion` stops at oligo `i` with error `e`: one of its tokens fails to parse with
    `e`. Which failing token comes first depends on the dictionary's order, which the model
    leaves open.
   */
  ghost predicate StopsAt(labels: Counts, labelOligos: seq<RF.OligoKey>, i: nat, e: PyError)
    requires i < |labelOligos|
  {
    ParsedUpTo(labels, labelOligos, i) && FailsWith(OligoCounts(labels, labelOligos[i]), e)
  }

  /** Some token of the oligo makes `token_to_full_indel` raise `e`. */
  ghost predicate FailsWith(inner: map<string, int>, e: PyError) {
    exists k :: k in inner && FullIndelOf(k) == Failure(e)
  }

  /** The inner loop of `get_1bp_insertion`: `[1-bp insertions, everything else]` for one oligo. */
  method TallyOneBp(inner: map<string, int>) returns (r: Result<(int, int)>)
    ensures r.Success? <==> TokensParse(inner)
    ensures r.Success? ==> r.value == OneBpCounts(inner)
    ensures r.Failure? ==> FailsWith(inner, r.error)
  {
    var cigars := Enumerate(inner.Keys);
    var sums := TallyOneBpOver(inner, cigars);
    if sums.Failure? {
      return Failure(sums.error);
    }
    AllParseKeys(cigars, inner);
    SumOverSet(cigars, inner.Keys, OneBpPart(inner));
    SumOverSet(cigars, inner.Keys, OtherPart(inner));
    r := sums;
  }

  /** The loop of `TallyOneBp` over a listing of the oligo's tokens. */
  method TallyOneBpOver(inner: map<string, int>, cigars: seq<string>) returns (r: Result<(int, int)>)
    requires forall k :: k in cigars ==> k in inner
    ensures r.Success? ==> AllOf(cigars, Returns)
    ensures r.Success? ==> r.value == (SumOver(cigars, OneBpPart(inner)), SumOver(cigars, OtherPart(inner)))
    ensures r.Failure? ==> !TokensParse(inner) && FailsWith(inner, r.error)
  {
    var ins1, other := 0, 0;
    for i := 0 to |cigars|
      invariant AllOf(cigars[..i], Returns)
      invariant ins1 == SumOver(cigars[..i], OneBpPart(inner))
      invariant other == SumOver(cigars[..i], OtherPart(inner))
    {
      var cigar := cigars[i];
      var fullIndel := TokenToFullIndel(cigar);
      if fullIndel.Failure? {
        TokenFails(inner, cigar, fullIndel.error);
        return Failure(fullIndel.error);
      }
      var count := inner[cigar];
      TallyStep(inner, cigars, i);
      if fullIndel.value.kind == 'I' && fullIndel.value.size == 1 {
        ins1 := ins1 + count;
      } else {
        other := other + count;
      }
    }
    assert cigars[..|cigars|] == cigars;
    r := Success((ins1, other));
  }

  /** One more token of the listing parsed and counted on its side. */
  lemma TallyStep(inner: map<string, int>, cigars: seq<string>, i: nat)
    requires i < |cigars| && cigars[i] in inner && FullIndelOf(cigars[i]).Success?
    ensures AllOf(cigars[..i + 1], Returns) == AllOf(cigars[..i], Returns)
    ensures SumOver(cigars[..i + 1], OneBpPart(inner))
      == SumOver(cigars[..i], OneBpPart(inner)) + (if IsOneBpInsertion(cigars[i]) then inner[cigars[i]] else 0)
    ensures SumOver(cigars[..i + 1], OtherPart(inner))
      == SumOver(cigars[..i], OtherPart(inner)) + (if IsOneBpInsertion(cigars[i]) then 0 else inner[cigars[i]])
  {
    assert cigars[..i + 1][..i] == cigars[..i];
  }

  /** A token of the oligo that fails to parse makes the oligo fail with its error. */
  lemma TokenFails(inner: map<string, int>, cigar: string, e: PyError)
    requires cigar in inner && FullIndelOf(cigar) == Failure(e)
    ensures !TokensParse(inner) && FailsWith(inner, e)
  {
    assert !Returns(cigar);
  }

  /** `get_1bp_insertion`: per listed oligo, the 1-bp insertion count over the oligo's total. */
  method GetOneBpInsertion(labels: Counts, labelOligos: seq<RF.OligoKey>) returns (r: Result<seq<Option<real>>>)
    ensures r.Success? <==> labelOligos != [] && ParsedUpTo(labels, labelOligos, |labelOligos|)
    ensures r.Success? ==> r.value == Ratios(OneBpRows(labels, labelOligos))
    ensures r.Failure? ==>
      (labelOligos == [] && r.error == IndexError) ||
      exists i :: 0 <= i < |labelOligos| && StopsAt(labels, labelOligos, i, r.error)
  {
    var prob: seq<(int, int)> := [];
    for i := 0 to |labelOligos|
      invariant ParsedUpTo(labels, labelOligos, i)
      invariant prob == OneBpRows(labels, labelOligos[..i])
    {
      var step := OneBpRowOf(labels, labelOligos, i, prob);
      if step.Failure? {
        return Failure(step.error);
      }
      prob := step.value;
    }
    assert labelOligos[..|labelOligos|] == labelOligos;
    if prob == [] {
      return Failure(IndexError);
    }
    r := Success(Ratios(prob));
  }

  /** One pass of the outer loop of `get_1bp_insertion`: look the oligo up and tally its tokens. */
  method OneBpRowOf(labels: Counts, labelOligos: seq<RF.OligoKey>, i: nat, prob: seq<(int, int)>)
    returns (r: Result<seq<(int, int)>>)
    requires i < |labelOligos| && ParsedUpTo(labels, labelOligos, i)
    requires prob == OneBpRows(labels, labelOligos[..i])
    ensures r.Success? ==> ParsedUpTo(labels, labelOligos, i + 1) && r.value == OneBpRows(labels, labelOligos[..i + 1])
    ensures r.Failure? ==> StopsAt(labels, labelOligos, i, r.error) && !ParsedUpTo(labels, labelOligos, |labelOligos|)
  {
    assert labelOligos[..i + 1][..i] == labelOligos[..i];
    var oligo := labelOligos[i];
    var tally := TallyOneBp(OligoCounts(labels, oligo));
    if tally.Failure? {
      StopsHere(labels, labelOligos, i, tally.error);
      return Failure(tally.error);
    }
    ParsedStep(labels, labelOligos, i);
    r := Success(prob + [tally.value]);
  }

  lemma StopsHere(labels: Counts, labelOligos: seq<RF.OligoKey>, i: nat, e: PyError)
    requires i < |labelOligos| && ParsedUpTo(labels, labelOligos, i)
    requires FailsWith(OligoCounts(labels, labelOligos[i]), e)
    ensures StopsAt(labels, labelOligos, i, e) && !ParsedUpTo(labels, labelOligos, |labelOligos|)
  {
    var inner := OligoCounts(labels, labelOligos[i]);
    var k :| k in inner && FullIndelOf(k) == Failure(e);
    assert !Returns(k);
    assert !TokensParse(inner);
    assert !OligoParses(labels, labelOligos[i]);
  }

  lemma ParsedStep(labels: Counts, labelOligos: seq<RF.OligoKey>, i: nat)
    requires i < |labelOligos| && ParsedUpTo(labels, labelOligos, i)
    requires TokensParse(OligoCounts(labels, labelOligos[i]))
    ensures ParsedUpTo(labels, labelOligos, i + 1)
  {
    assert OligoParses(labels, labelOligos[i]);
  }

  // Properties of get_1bp_insertion

  /** Every token counts on exactly one side, so the denominator is the oligo's total count. */
  lemma OneBpTotal(inner: map<string, int>)
    ensures OneBpSum(inner) + OtherSum(inner) == Total(inner)
  {
    SetSumLinear(inner.Keys, OneBpPart(inner), OtherPart(inner), CountOf(inner));
  }

  /**
    With non-negative counts each 1-bp insertion share is in [0, 1], undefined only for an oligo
    without counts.
   */
  lemma OneBpBounds(inner: map<string, int>)
    requires forall k :: k in inner ==> inner[k] >= 0
    ensures var v := Ratio(OneBpSum(inner), OtherSum(inner));
      (v.None? <==> Total(inner) == 0) && (v.Some? ==> 0.0 <= v.value <= 1.0)
  {
    OneBpTotal(inner);
    SetSumNonNegative(inner.Keys, OneBpPart(inner));
    SetSumNonNegative(inner.Keys, OtherPart(inner));
    RatioBounds(OneBpSum(inner), OtherSum(inner));
  }

  /**
    A listed oligo the table lacks parses trivially and contributes the row `[0, 0]`, whose share
    is NaN: `get_1bp_insertion` goes on past it.
   */
  lemma OneBpMissingOligo(labels: Counts, o: RF.OligoKey)
    requires o !in labels
    ensures OligoParses(labels, o)
    ensures OneBpCounts(OligoCounts(labels, o)) == (0, 0)
    ensures Ratio(OneBpCounts(OligoCounts(labels, o)).0, OneBpCounts(OligoCounts(labels, o)).1) == None
  {
    assert OligoCounts(labels, o) == map[];
    assert OneBpSum(map[]) == 0 && OtherSum(map[]) == 0;
  }


  // ---------------------------------------------------------------------------------------------
  // split_train_val_test

  /** Default proportions of the test and validation sets. */
  const DefaultTestProp: real := 0.1
  const DefaultValProp: real := 0.1


  /**
    What `np.random.choice(np.arange(n), n, replace=False)` draws: the indices 0 .. n - 1, each
    exactly once, in some order.
   */
  ghost predicate IsPermutation(idx: seq<int>, n: nat) {
    && |idx| == n
    && (forall k :: k in idx <==> 0 <= k < n)
    && Distinct(idx)
  }

  /** The three index arrays `(test_idx, val_idx, train_idx)`. */
  datatype IndexSplit = IndexSplit(test: seq<int>, val: seq<int>, train: seq<int>)

  /**
    `split_train_val_test(label_oligos, test_prop, val_prop)` with the random draw `idx` passed in:
    the first `int(n * test_prop)` drawn indices are the test set, the next `int(n * val_prop)` the
    validation set and the rest the training set.
   */
  function SplitTrainValTest<T>(labelOligos: seq<T>, idx: seq<int>, testProp: real, valProp: real): IndexSplit {
    SplitAt(idx, SetCount(|labelOligos|, testProp), SetCount(|labelOligos|, valProp))
  }

  /** `int(n_sample * prop)`. */
  function SetCount(n: nat, prop: real): int {
    Trunc(n as real * prop)
  }

  /** `idx[0:t], idx[t:t + v], idx[t + v:]`, with Python's slice clamping. */
  function SplitAt(idx: seq<int>, t: int, v: int): IndexSplit {
    IndexSplit(RF.PySlice(idx, 0, t), RF.PySlice(idx, t, t + v), RF.PySlice(idx, t + v, |idx|))
  }

  /** The set sizes `int(n * p)` are non-negative for a non-negative proportion and add up to at most n. */
  lemma SetSizes(n: nat, testProp: real, valProp: real)
    requires testProp >= 0.0 && valProp >= 0.0
    ensures SetCount(n, testProp) >= 0 && SetCount(n, valProp) >= 0
    ensures testProp + valProp <= 1.0 ==> SetCount(n, testProp) + SetCount(n, valProp) <= n
  {
    var x, y := n as real * testProp, n as real * valProp;
    assert x >= 0.0 && y >= 0.0;
    if testProp + valProp <= 1.0 {
      var rest := 1.0 - (testProp + valProp);
      assert n as real * rest >= 0.0;
      assert x + y + n as real * rest == n as real;
      assert (SetCount(n, testProp) + SetCount(n, valProp)) as real <= x + y;
    }
  }

  /** With non-negative counts the three parts, in order, are exactly the draw. */
  lemma SplitAtConcat(idx: seq<int>, t: nat, v: nat)
    ensures var s := SplitAt(idx, t, v);
      s.test + s.val + s.train == idx
  {
    var a, b := RF.Min(t, |idx|), RF.Min(t + v, |idx|);
    var s := SplitAt(idx, t, v);
    assert s.test == idx[..a] && s.val == idx[a..b] && s.train == idx[b..];
    assert idx[..a] + idx[a..b] + idx[b..] == idx;
  }

  /** With non-negative proportions the test, validation and training sets, in order, are exactly the draw. */
  lemma SplitConcat<T>(labelOligos: seq<T>, idx: seq<int>, testProp: real, valProp: real)
    requires testProp >= 0.0 && valProp >= 0.0
    ensures var s := SplitTrainValTest(labelOligos, idx, testProp, valProp);
      s.test + s.val + s.train == idx
  {
    var n := |labelOligos|;
    SetSizes(n, testProp, valProp);
    SplitAtConcat(idx, SetCount(n, testProp), SetCount(n, valProp));
  }

  /**
    When the proportions add up to at most 1 (and the draw covers the oligos), the test and
    validation sets have exactly `int(n * test_prop)` and `int(n * val_prop)` entries and the
    training set holds the remainder.
   */
  lemma SplitSizes<T>(labelOligos: seq<T>, idx: seq<int>, testProp: real, valProp: real)
    requires |idx| == |labelOligos|
    requires testProp >= 0.0 && valProp >= 0.0 && testProp + valProp <= 1.0
    ensures var s := SplitTrainValTest(labelOligos, idx, testProp, valProp);
      var n := |labelOligos|;
      && |s.test| == SetCount(n, testProp)
      && |s.val| == SetCount(n, valProp)
      && |s.train| == n - SetCount(n, testProp) - SetCount(n, valProp)
  {
    var n := |labelOligos|;
    SetSizes(n, testProp, valProp);
    var t, v := SetCount(n, testProp), SetCount(n, valProp);
    var s := SplitAt(idx, t, v);
    assert s.test == idx[..t] && s.val == idx[t..t + v] && s.train == idx[t + v..];
  }

  /** Slices at disjoint positions of a sequence without repeats share no element. */
  lemma DistinctSlices(s: seq<int>, a: nat, b: nat, c: nat, d: nat)
    requires a <= b <= c <= d <= |s| && Distinct(s)
    ensures forall x :: !(x in s[a..b] && x in s[c..d])
  {
    forall x | x in s[a..b] ensures x !in s[c..d] {
      var i :| a <= i < b && s[i] == x;
      forall j | c <= j < d ensures s[j] != x {
        assert i < j;
      }
    }
  }

  /** For non-negative counts, the parts hold the draw's elements between them, and no two share one when the draw has no repeats. */
  lemma SplitAtParts(idx: seq<int>, t: nat, v: nat)
    ensures var s := SplitAt(idx, t, v);
      forall k :: k in s.test || k in s.val || k in s.train <==> k in idx
    ensures var s := SplitAt(idx, t, v);
      Distinct(idx) ==>
        && (forall k :: !(k in s.test && k in s.val))
        && (forall k :: !(k in s.test && k in s.train))
        && (forall k :: !(k in s.val && k in s.train))
  {
    var n := |idx|;
    var a, b := RF.Min(t, n), RF.Min(t + v, n);
    var s := SplitAt(idx, t, v);
    assert s.test == idx[0..a] && s.val == idx[a..b] && s.train == idx[b..n];
    SplitAtConcat(idx, t, v);
    forall k ensures k in s.test || k in s.val || k in s.train <==> k in idx {
      assert k in idx <==> k in s.test + s.val + s.train;
    }
    if Distinct(idx) {
      DistinctSlices(idx, 0, a, a, b);
      DistinctSlices(idx, 0, a, b, n);
      DistinctSlices(idx, a, b, b, n);
    }
  }

  /**
    For a permutation of 0 .. n - 1 and non-negative proportions, the test, validation and
    training sets are pairwise disjoint and together hold every index.
   */
  lemma SplitPartition<T>(labelOligos: seq<T>, idx: seq<int>, testProp: real, valProp: real)
    requires IsPermutation(idx, |labelOligos|)
    requires testProp >= 0.0 && valProp >= 0.0
    ensures var s := SplitTrainValTest(labelOligos, idx, testProp, valProp);
      && (forall k :: k in s.test || k in s.val || k in s.train <==> 0 <= k < |labelOligos|)
      && (forall k :: !(k in s.test && k in s.val))
      && (forall k :: !(k in s.test && k in s.train))
      && (forall k :: !(k in s.val && k in s.train))
  {
    var n := |labelOligos|;
    SetSizes(n, testProp, valProp);
    var t, v := SetCount(n, testProp), SetCount(n, valProp);
    SplitAtParts(idx, t, v);
  }

  // ---------------------------------------------------------------------------------------------
  // dump_pickle

  /** The `labels` argument: a list of label arrays, one array, or any other object. */
  datatype Labels<T> = LabelList(columns: seq<seq<T>>) | LabelArray(rows: seq<T>) | OtherLabels

  /** numpy accepts an index into an axis of length n when -n <= i < n. */
  predicate InBounds(idx: seq<int>, n: nat) {
    forall k :: 0 <= k < |idx| ==> -(n as int) <= idx[k] < n
  }

  /** The position numpy reads for index i: a negative index counts from the end. */
  function Wrap(i: int, n: nat): (p: nat)
    requires -(n as int) <= i < n
    ensures p < n
  {
    if i < 0 then i + n else i
  }

  /** Integer-array indexing `a[idx]`: IndexError as soon as one index is out of bounds. */
  function Take<T>(a: seq<T>, idx: seq<int>): Result<seq<T>> {
    if InBounds(idx, |a|) then Success(seq(|idx|, k requires 0 <= k < |idx| => a[Wrap(idx[k], |a|)]))
    else Failure(IndexError)
  }

  /** `y_[idx]` for one label column. */
  function TakeAt<T>(idx: seq<int>): seq<T> -> Result<seq<T>> {
    col => Take(col, idx)
  }

  /**
    `dump_pickle(seqs, labels, idx)` without the optional file: `seqs[idx]` first, then every label
    column (or the label array) at the same indices; any other labels type raises.
   */
  function DumpPickle<S, T>(seqs: seq<S>, labels: Labels<T>, idx: seq<int>): Result<(seq<S>, Labels<T>)> {
    match Take(seqs, idx)
    case Failure(e) => Failure(e)
    case Success(x) =>
      match labels
      case LabelList(cols) =>
        (match MapAll(cols, TakeAt(idx))
         case Failure(e) => Failure(e)
         case Success(ys) => Success((x, LabelList(ys))))
      case LabelArray(rows) =>
        (match Take(rows, idx)
         case Failure(e) => Failure(e)
         case Success(y) => Success((x, LabelArray(y))))
      case OtherLabels => Failure(RaisedException)
  }

  /** Label data whose every column (or row list) is as long as the inputs. */
  predicate LabelsSized<T>(labels: Labels<T>, n: nat) {
    match labels
    case LabelList(cols) => forall c :: 0 <= c < |cols| ==> |cols[c]| == n
    case LabelArray(rows) => |rows| == n
    case OtherLabels => true
  }

  /**
    With labels as long as the inputs, `dump_pickle` succeeds exactly when every index is in bounds
    and the labels are a list or an array (otherwise it raises, IndexError first); on success every
    output has one entry per index, and entry k of x and of every label column comes from the same
    input position.
   */
  lemma DumpAligned<S, T>(seqs: seq<S>, labels: Labels<T>, idx: seq<int>)
    requires LabelsSized(labels, |seqs|)
    ensures var r := DumpPickle(seqs, labels, idx);
      && (r.Success? <==> InBounds(idx, |seqs|) && !labels.OtherLabels?)
      && (r.Failure? && !InBounds(idx, |seqs|) ==> r.error == IndexError)
      && (r.Failure? && InBounds(idx, |seqs|) ==> r.error == RaisedException)
    ensures var r := DumpPickle(seqs, labels, idx);
      r.Success? ==>
        && |r.value.0| == |idx|
        && (forall k :: 0 <= k < |idx| ==> r.value.0[k] == seqs[Wrap(idx[k], |seqs|)])
    ensures var r := DumpPickle(seqs, labels, idx);
      r.Success? && labels.LabelList? ==>
        && |r.value.1.columns| == |labels.columns|
        && forall c :: 0 <= c < |labels.columns| ==>
          |r.value.1.columns[c]| == |idx| &&
          forall k :: 0 <= k < |idx| ==> r.value.1.columns[c][k] == labels.columns[c][Wrap(idx[k], |seqs|)]
    ensures var r := DumpPickle(seqs, labels, idx);
      r.Success? && labels.LabelArray? ==>
        && |r.value.1.rows| == |idx|
        && forall k :: 0 <= k < |idx| ==> r.value.1.rows[k] == labels.rows[Wrap(idx[k], |seqs|)]
  {
    if InBounds(idx, |seqs|) && labels.LabelList? {
      var cols := labels.columns;
      MapAllElements(cols, TakeAt(idx));
      forall c | 0 <= c < |cols| ensures TakeAt(idx)(cols[c]).Success? {
        assert |cols[c]| == |seqs|;
      }
    }
  }

  /**
    The split and the selection fit together: each of the three index sets of a permutation of
    the oligos selects rows without error from inputs and labels as long as the oligo list.
   */
  lemma SplitSelectable<S, T>(labelOligos: seq<S>, idx: seq<int>, testProp: real, valProp: real, labels: Labels<T>)
    requires IsPermutation(idx, |labelOligos|)
    requires testProp >= 0.0 && valProp >= 0.0
    requires LabelsSized(labels, |labelOligos|) && !labels.OtherLabels?
    ensures var s := SplitTrainValTest(labelOligos, idx, testProp, valProp);
      && DumpPickle(labelOligos, labels, s.test).Success?
      && DumpPickle(labelOligos, labels, s.val).Success?
      && DumpPickle(labelOligos, labels, s.train).Success?
  {
    var s := SplitTrainValTest(labelOligos, idx, testProp, valProp);
    SplitPartition(labelOligos, idx, testProp, valProp);
    assert InBounds(s.test, |labelOligos|) by {
      forall k | 0 <= k < |s.test| ensures 0 <= s.test[k] < |labelOligos| { assert s.test[k] in s.test; }
    }
    assert InBounds(s.val, |labelOligos|) by {
      forall k | 0 <= k < |s.val| ensures 0 <= s.val[k] < |labelOligos| { assert s.val[k] in s.val; }
    }
    assert InBounds(s.train, |labelOligos|) by {
      forall k | 0 <= k < |s.train| ensures 0 <= s.train[k] < |labelOligos| { assert s.train[k] in s.train; }
    }
    DumpAligned(labelOligos, labels, s.test);
    DumpAligned(labelOligos, labels, s.val);
    DumpAligned(labelOligos, labels, s.train);
  }

  // ---------------------------------------------------------------------------------------------
  // main: the oligos with both labels and a target sequence

  /** `[k for k in label_dict if k in oligo_dict]`: the table's oligos in order, kept when they have a sequence. */
  function LabelOligos(order: seq<RF.OligoKey>, oligoDict: map<string, string>): seq<RF.OligoKey> {
    if order == [] then []
    else
      var init, k := order[..|order| - 1], order[|order| - 1];
      if k.Some? && k.value in oligoDict then LabelOligos(init, oligoDict) + [k] else LabelOligos(init, oligoDict)
  }

  /**
    The label oligos are exactly the table's oligos that have a target sequence (the `None` oligo
    of lines before any header never does), each once, so that every later lookup of an oligo in
    either dictionary succeeds.
   */
  lemma {:induction false} LabelOligosSpec(order: seq<RF.OligoKey>, oligoDict: map<string, string>)
    requires Distinct(order)
    ensures forall k :: k in LabelOligos(order, oligoDict) <==> k in order && k.Some? && k.value in oligoDict
    ensures Distinct(LabelOligos(order, oligoDict))
    ensures |LabelOligos(order, oligoDict)| <= |order|
  {
    if order != [] {
      var init, k := order[..|order| - 1], order[|order| - 1];
      assert Distinct(init) by {
        forall i, j | 0 <= i < j < |init| ensures init[i] != init[j] { assert init[i] == order[i] && init[j] == order[j]; }
      }
      LabelOligosSpec(init, oligoDict);
      assert order == init + [k];
      assert k !in init by {
        forall i | 0 <= i < |init| ensures init[i] != k { assert init[i] == order[i]; }
      }
      var r := LabelOligos(init, oligoDict);
      if k.Some? && k.value in oligoDict {
        var r' := r + [k];
        forall i, j | 0 <= i < j < |r'| ensures r'[i] != r'[j] {
          if j == |r| { assert r'[i] in r; }
        }
      }
    }
  }

  /**
    On a well-formed count table, neither `get_indel_freq` nor `get_1bp_insertion` can stop with
    a KeyError on the main's oligo list: every label oligo is a key of the table.
   */
  lemma LabelOligosInTable(t: RF.CountTable, oligoDict: map<string, string>)
    requires RF.TableValid(t)
    ensures forall i :: 0 <= i < |LabelOligos(t.oligos, oligoDict)| ==> LabelOligos(t.oligos, oligoDict)[i] in t.counts
    ensures forall i :: 0 <= i < |LabelOligos(t.oligos, oligoDict)| ==>
      LabelOligos(t.oligos, oligoDict)[i].Some? && LabelOligos(t.oligos, oligoDict)[i].value in oligoDict
  {
    assert Distinct(t.oligos) by {
      forall i, j | 0 <= i < j < |t.oligos| ensures t.oligos[i] != t.oligos[j] { }
    }
    LabelOligosSpec(t.oligos, oligoDict);
    var r := LabelOligos(t.oligos, oligoDict);
    forall i | 0 <= i < |r| ensures r[i] in t.counts && r[i].Some? && r[i].value in oligoDict {
      assert r[i] in r;
      var j :| 0 <= j < |t.oligos| && t.oligos[j] == r[i];
    }
  }

}
