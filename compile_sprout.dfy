/**
  Compiling the Sprout (Leenay et al.) labels: each gene's master table of outcome counts (the
  simple indels of every replicate counts file plus the merged insertion samples), and the
  1 bp insertion and deletion probabilities and the frameshift frequencies written into the key
  table.
 */
module CompileSprout {
  import opened Wrappers
  import opened PyStr
  import opened Sums
  import RS = ReadSproutData

  /** One row of a counts file: the outcome and its `total`, `seq` (here `sequence`) and `seqlen` columns. */
  datatype CountRow = CountRow(cigar: string, total: int, sequence: string, seqlen: int)

  function Cigars(rows: seq<CountRow>): (cs: seq<string>)
    ensures |cs| == |rows| && forall j :: 0 <= j < |rows| ==> cs[j] == rows[j].cigar
  {
    seq(|rows|, j requires 0 <= j < |rows| => rows[j].cigar)
  }

  // ---------------------------------------------------------------------------------------------
  // The outcomes left out of a master table and of the frameshift counts

  /** One SNV, no variant, or a complex outcome (two indels, or "Other"). */
  predicate Excluded(cigar: string) {
    || CountSub(cigar, "SNV") == 1
    || cigar == "no variant"
    || RS.IsComplex(cigar)
  }

  /**
    The exclusion loop of `get_master_df`: two separate if-chains, so a position may be listed
    twice; the positions listed are exactly those of the excluded outcomes.
   */
  method MasterExclusions(cigars: seq<string>) returns (inds: seq<int>)
    ensures forall j :: j in inds <==> 0 <= j < |cigars| && Excluded(cigars[j])
  {
    inds := [];
    for ind := 0 to |cigars|
      invariant forall j :: j in inds <==> j in RS.IndicesWhere(cigars[..ind], Excluded)
    {
      RS.IndicesWhereNext(cigars, ind, Excluded);
      var c := cigars[ind];
      if CountSub(c, "SNV") == 1 {
        inds := inds + [ind];
      } else if c == "no variant" {
        inds := inds + [ind];
      }
      if Count(c, 'I') > 0 && Count(c, 'D') > 0 {
        inds := inds + [ind];
      } else if Count(c, 'I') > 1 || Count(c, 'D') > 1 {
        inds := inds + [ind];
      } else if c == "Other" {
        inds := inds + [ind];
      }
    }
    assert cigars[..|cigars|] == cigars;
    RS.IndicesWhereSpec(cigars, Excluded);
  }

  /**
    The exclusion loop of `add_frameshift_freq`: one if-chain in another order, which lists the
    positions of the same outcomes, each once and in order.
   */
  method FrameshiftExclusions(cigars: seq<string>) returns (inds: seq<nat>)
    ensures inds == RS.IndicesWhere(cigars, Excluded)
  {
    inds := [];
    for ind := 0 to |cigars|
      invariant inds == RS.IndicesWhere(cigars[..ind], Excluded)
    {
      RS.IndicesWhereNext(cigars, ind, Excluded);
      var c := cigars[ind];
      if CountSub(c, "SNV") == 1 {
        inds := inds + [ind];
      } else if c == "no variant" {
        inds := inds + [ind];
      } else if c == "Other" {
        inds := inds + [ind];
      } else if Count(c, 'I') > 0 && Count(c, 'D') > 0 {
        inds := inds + [ind];
      } else if Count(c, 'I') > 1 || Count(c, 'D') > 1 {
        inds := inds + [ind];
      }
    }
    assert cigars[..|cigars|] == cigars;
  }

  /** `df[~df.index.isin(inds)]` on a table indexed 0 .. n - 1: the rows whose position is not listed. */
  function DropAt<T>(rows: seq<T>, inds: seq<int>): seq<T> {
    if rows == [] then []
    else
      var n := |rows| - 1;
      if n in inds then DropAt(rows[..n], inds) else DropAt(rows[..n], inds) + [rows[n]]
  }

  /** The rows of the outcomes that are not excluded, in order. */
  function Kept(rows: seq<CountRow>): seq<CountRow> {
    if rows == [] then []
    else
      var n := |rows| - 1;
      if Excluded(rows[n].cigar) then Kept(rows[..n]) else Kept(rows[..n]) + [rows[n]]
  }

  /** Dropping the listed positions keeps the rows of the outcomes that are not excluded. */
  lemma {:induction false} DropExcluded(rows: seq<CountRow>, inds: seq<int>)
    requires forall j :: 0 <= j < |rows| ==> (j in inds <==> Excluded(rows[j].cigar))
    ensures DropAt(rows, inds) == Kept(rows)
  {
    if rows != [] {
      var n := |rows| - 1;
      var init := rows[..n];
      assert forall j :: 0 <= j < n ==> init[j] == rows[j];
      DropExcluded(init, inds);
      assert (n in inds) == Excluded(rows[n].cigar);
    }
  }

  /** A kept row is a row of the table whose outcome is a simple indel or carries no SNV count of 1. */
  lemma {:induction false} KeptSpec(rows: seq<CountRow>)
    ensures forall r :: r in Kept(rows) <==> r in rows && !Excluded(r.cigar)
  {
    if rows != [] {
      var n := |rows| - 1;
      KeptSpec(rows[..n]);
      assert rows == rows[..n] + [rows[n]];
    }
  }

  // ---------------------------------------------------------------------------------------------
  // add_frameshift_freq

  /** The length after the ':' of an indel outcome, with its letter removed (`int(cigar.split(':')[1].replace(letter, ''))`). */
  function IndelLen(cigar: string, letter: char): Result<int> {
    var parts := Split(cigar, ":");
    if |parts| < 2 then Failure(IndexError) else ParseInt(Remove(parts[1], [letter]))
  }

  /** The length one indel letter appends, if the outcome holds it: 60 + sign * n. */
  function LetterLens(cigar: string, letter: char, sign: int): Result<seq<int>> {
    if letter !in cigar then Success([])
    else
      match IndelLen(cigar, letter)
      case Failure(e) => Failure(e)
      case Success(n) => Success([60 + sign * n])
  }

  /** The sequence lengths one outcome appends: 60 - n for a deletion, then 60 + n for an insertion. */
  function CigarLens(cigar: string): Result<seq<int>> {
    match LetterLens(cigar, 'D', -1)
    case Failure(e) => Failure(e)
    case Success(d) =>
      match LetterLens(cigar, 'I', 1)
      case Failure(e) => Failure(e)
      case Success(i) => Success(d + i)
  }

  /** The `seqlens` list over the outcomes, up to the first outcome whose length cannot be read. */
  function SeqLensOf(cigars: seq<string>): Result<seq<int>> {
    if cigars == [] then Success([])
    else
      match SeqLensOf(cigars[..|cigars| - 1])
      case Failure(e) => Failure(e)
      case Success(lens) =>
        match CigarLens(cigars[|cigars| - 1])
        case Failure(e) => Failure(e)
        case Success(l) => Success(lens + l)
  }

  /**
    The loop over the kept outcomes that builds `seqlens`; each outcome appends what its two
    `if` blocks append.
   */
  method SeqLens(cigars: seq<string>) returns (r: Result<seq<int>>)
    ensures r == SeqLensOf(cigars)
  {
    var seqlens: seq<int> := [];
    for i := 0 to |cigars|
      invariant SeqLensOf(cigars[..i]) == Success(seqlens)
    {
      SeqLensNext(cigars, i);
      var lens := CigarLens(cigars[i]);
      if lens.Failure? {
        SeqLensStops(cigars, i + 1);
        return Failure(lens.error);
      }
      seqlens := seqlens + lens.value;
    }
    assert cigars[..|cigars|] == cigars;
    r := Success(seqlens);
  }

  lemma SeqLensNext(cigars: seq<string>, i: nat)
    requires i < |cigars| && SeqLensOf(cigars[..i]).Success?
    ensures SeqLensOf(cigars[..i + 1]) ==
      match CigarLens(cigars[i])
      case Failure(e) => Failure(e)
      case Success(l) => Success(SeqLensOf(cigars[..i]).value + l)
  {
    assert cigars[..i + 1][..i] == cigars[..i];
  }

  lemma {:induction false} SeqLensStops(cigars: seq<string>, n: nat)
    requires n <= |cigars| && SeqLensOf(cigars[..n]).Failure?
    ensures SeqLensOf(cigars) == SeqLensOf(cigars[..n])
    decreases |cigars| - n
  {
    if n < |cigars| {
      assert cigars[..n + 1][..n] == cigars[..n];
      SeqLensStops(cigars, n + 1);
    } else {
      assert cigars[..n] == cigars;
    }
  }

  /** The outcome holds an indel letter (`'D' in cigar or 'I' in cigar`). */
  predicate HasIndel(cigar: string) {
    'D' in cigar || 'I' in cigar
  }

  /** The outcome does not hold both indel letters. */
  predicate OneKind(cigar: string) {
    !('D' in cigar && 'I' in cigar)
  }

  /** A kept outcome never holds both letters, and holds one exactly when it counts one. */
  lemma KeptOneKind(cigar: string)
    requires !Excluded(cigar)
    ensures OneKind(cigar)
    ensures HasIndel(cigar) <==> Count(cigar, 'D') > 0 || Count(cigar, 'I') > 0
  {
  }

  lemma SeqLensLast(cigars: seq<string>)
    requires cigars != [] && SeqLensOf(cigars).Success?
    ensures var n := |cigars| - 1;
      && SeqLensOf(cigars[..n]).Success? && CigarLens(cigars[n]).Success?
      && SeqLensOf(cigars).value == SeqLensOf(cigars[..n]).value + CigarLens(cigars[n]).value
  {
  }

  /**
    Over outcomes that never hold both letters, as the kept ones, `seqlens` has one entry per
    outcome exactly when every outcome holds an indel letter; otherwise it is shorter and the
    column assignment fails.
   */
  lemma {:induction false} SeqLensLength(cigars: seq<string>)
    requires forall j :: 0 <= j < |cigars| ==> OneKind(cigars[j])
    requires SeqLensOf(cigars).Success?
    ensures |SeqLensOf(cigars).value| <= |cigars|
    ensures |SeqLensOf(cigars).value| == |cigars| <==> AllIndels(cigars)
  {
    if cigars != [] {
      var n := |cigars| - 1;
      var init := cigars[..n];
      SeqLensLast(cigars);
      SeqLensLength(init);
      assert |CigarLens(cigars[n]).value| == if HasIndel(cigars[n]) then 1 else 0;
      AllIndelsLast(cigars);
    }
  }

  /** Every outcome holds an indel letter. */
  predicate AllIndels(cigars: seq<string>) {
    forall j :: 0 <= j < |cigars| ==> HasIndel(cigars[j])
  }

  lemma AllIndelsLast(cigars: seq<string>)
    requires cigars != []
    ensures var n := |cigars| - 1; AllIndels(cigars) <==> AllIndels(cigars[..n]) && HasIndel(cigars[n])
  {
    var n := |cigars| - 1;
    if AllIndels(cigars[..n]) && HasIndel(cigars[n]) {
      forall j | 0 <= j < |cigars| ensures HasIndel(cigars[j]) {
        if j < n {
          assert cigars[j] == cigars[..n][j];
        }
      }
    }
    if AllIndels(cigars) {
      forall j | 0 <= j < n ensures HasIndel(cigars[..n][j]) {
        assert cigars[j] == cigars[..n][j];
      }
    }
  }

  /** `(seqlen - 60) % 3`: Python's remainder by a positive divisor is never negative. */
  function Mod3(seqlen: int): (m: int)
    ensures 0 <= m < 3 && (seqlen - 60 - m) % 3 == 0
  {
    (seqlen - 60) % 3
  }

  /**
    The running totals `total`, `total_onemod3` and `total_twomod3`: all rows, and the rows whose
    length change is 1 and 2 modulo 3.
   */
  datatype Totals = Totals(total: int, one: int, two: int)

  function AddTotals(a: Totals, b: Totals): Totals {
    Totals(a.total + b.total, a.one + b.one, a.two + b.two)
  }

  /** `counts['total'].sum()` and the same sum over the rows with mod3 equal to 1 and to 2. */
  function FileTotals(rows: seq<CountRow>, seqlens: seq<int>): Totals
    requires |rows| == |seqlens|
  {
    if rows == [] then Totals(0, 0, 0)
    else
      var n := |rows| - 1;
      var t := rows[n].total;
      var m := Mod3(seqlens[n]);
      AddTotals(FileTotals(rows[..n], seqlens[..n]), Totals(t, if m == 1 then t else 0, if m == 2 then t else 0))
  }

  /** The two frameshift buckets are parts of the total. */
  predicate Bounded(t: Totals) {
    0 <= t.one && 0 <= t.two && t.one + t.two <= t.total
  }

  /** With non-negative counts, the frameshift buckets of a file never exceed its total. */
  lemma {:induction false} FileTotalsBounded(rows: seq<CountRow>, seqlens: seq<int>)
    requires |rows| == |seqlens| && forall j :: 0 <= j < |rows| ==> rows[j].total >= 0
    ensures Bounded(FileTotals(rows, seqlens))
  {
    if rows != [] {
      var n := |rows| - 1;
      FileTotalsBounded(rows[..n], seqlens[..n]);
    }
  }

  /** One counts file of a gene: its kept outcomes, their lengths, and the three totals. */
  function FileFrameshift(rows: seq<CountRow>): Result<Totals> {
    var kept := Kept(rows);
    match SeqLensOf(Cigars(kept))
    case Failure(e) => Failure(e)
    case Success(lens) => if |lens| != |kept| then Failure(ValueError) else Success(FileTotals(kept, lens))
  }

  /** The name of a replicate counts file: `'counts-' + genename + ending + '.txt'`. */
  function CountsName(path: string): string {
    "counts-" + path
  }

  /** One replicate file by name: a missing file is `FileNotFound` (`pd.read_csv`). */
  function FileResult(files: map<string, seq<CountRow>>, name: string): Result<Totals> {
    if name in files then FileFrameshift(files[name]) else Failure(FileNotFound)
  }

  /** The totals of a gene over its first n replicate files, summed before any division. */
  function GeneFrameshift(paths: seq<string>, files: map<string, seq<CountRow>>, n: nat): Result<Totals>
    requires n <= |paths|
  {
    if n == 0 then Success(Totals(0, 0, 0))
    else
      match GeneFrameshift(paths, files, n - 1)
      case Failure(e) => Failure(e)
      case Success(acc) =>
        match FileResult(files, CountsName(paths[n - 1]))
        case Failure(e) => Failure(e)
        case Success(t) => Success(AddTotals(acc, t))
  }

  /** One replicate file: read it, drop the excluded outcomes, read their lengths, and total the buckets. */
  method ReadFileTotals(files: map<string, seq<CountRow>>, name: string) returns (r: Result<Totals>)
    ensures r == FileResult(files, name)
  {
    if name !in files {
      return Failure(FileNotFound);
    }
    var rows := files[name];
    var cigars := Cigars(rows);
    var inds := FrameshiftExclusions(cigars);
    RS.IndicesWhereSpec(cigars, Excluded);
    DropExcluded(rows, inds);
    var kept := DropAt(rows, inds);
    var seqlens := SeqLens(Cigars(kept));
    if seqlens.Failure? {
      return Failure(seqlens.error);
    }
    if |seqlens.value| != |kept| {
      return Failure(ValueError);
    }
    r := Success(FileTotals(kept, seqlens.value));
  }

  /** The per-gene loop of `add_frameshift_freq` over the replicate files. */
  method GeneFrameshiftLoop(paths: seq<string>, files: map<string, seq<CountRow>>) returns (r: Result<Totals>)
    ensures r == GeneFrameshift(paths, files, |paths|)
  {
    var acc := Totals(0, 0, 0);
    for j := 0 to |paths|
      invariant GeneFrameshift(paths, files, j) == Success(acc)
    {
      var t := ReadFileTotals(files, CountsName(paths[j]));
      GeneFrameshiftStep(paths, files, j, acc, t);
      if t.Failure? {
        GeneFrameshiftStops(paths, files, j + 1);
        return Failure(t.error);
      }
      acc := AddTotals(acc, t.value);
    }
    r := Success(acc);
  }

  /** One more replicate file: its failure, or its totals added to the running totals. */
  lemma GeneFrameshiftStep(paths: seq<string>, files: map<string, seq<CountRow>>, j: nat, acc: Totals, t: Result<Totals>)
    requires j < |paths| && GeneFrameshift(paths, files, j) == Success(acc)
    requires t == FileResult(files, CountsName(paths[j]))
    ensures t.Failure? ==> GeneFrameshift(paths, files, j + 1) == Failure(t.error)
    ensures t.Success? ==> GeneFrameshift(paths, files, j + 1) == Success(AddTotals(acc, t.value))
  {
  }

  lemma {:induction false} GeneFrameshiftStops(paths: seq<string>, files: map<string, seq<CountRow>>, n: nat)
    requires n <= |paths| && GeneFrameshift(paths, files, n).Failure?
    ensures GeneFrameshift(paths, files, |paths|) == GeneFrameshift(paths, files, n)
    decreases |paths| - n
  {
    if n < |paths| {
      GeneFrameshiftStops(paths, files, n + 1);
    }
  }

  /** With non-negative counts in every file, a gene's frameshift buckets never exceed its total. */
  lemma {:induction false} GeneFrameshiftBounded(paths: seq<string>, files: map<string, seq<CountRow>>, n: nat)
    requires n <= |paths| && GeneFrameshift(paths, files, n).Success?
    requires forall name, j :: name in files && 0 <= j < |files[name]| ==> files[name][j].total >= 0
    ensures Bounded(GeneFrameshift(paths, files, n).value)
  {
    if n > 0 {
      GeneFrameshiftBounded(paths, files, n - 1);
      var rows := files[CountsName(paths[n - 1])];
      var kept := Kept(rows);
      KeptSpec(rows);
      assert forall j :: 0 <= j < |kept| ==> kept[j].total >= 0 by {
        forall j | 0 <= j < |kept| ensures kept[j].total >= 0 {
          assert kept[j] in rows;
        }
      }
      FileTotalsBounded(kept, SeqLensOf(Cigars(kept)).value);
    }
  }

  /** The three columns written per key row. */
  datatype FrameshiftCols = FrameshiftCols(onemod3: Option<real>, twomod3: Option<real>, frameshift: Option<real>)

  /** numpy's sum of two frequencies: NaN as soon as either is. */
  function AddFreq(a: Option<real>, b: Option<real>): Option<real> {
    if a.Some? && b.Some? then Some(a.value + b.value) else None
  }

  /** `total_onemod3 / total`, `total_twomod3 / total` and their sum. */
  function Freqs(t: Totals): FrameshiftCols {
    var one, two := Div(t.one, t.total), Div(t.two, t.total);
    FrameshiftCols(one, two, AddFreq(one, two))
  }

  /**
    The frameshift frequency is the share of the total in the two frameshift buckets; it is a
    frequency when the buckets are parts of a non-zero total, and NaN for a zero total.
   */
  lemma FreqsSpec(t: Totals)
    ensures Freqs(t).frameshift == Div(t.one + t.two, t.total)
    ensures Bounded(t) && t.total != 0 ==>
      && 0.0 <= Freqs(t).onemod3.value <= 1.0
      && 0.0 <= Freqs(t).twomod3.value <= 1.0
      && 0.0 <= Freqs(t).frameshift.value <= 1.0
  {
    if t.total != 0 {
      var d := t.total as real;
      assert t.one as real / d + t.two as real / d == (t.one + t.two) as real / d;
      if Bounded(t) {
        DivBounds(t.one, t.total);
        DivBounds(t.two, t.total);
        DivBounds(t.one + t.two, t.total);
      }
    }
  }

  // ---------------------------------------------------------------------------------------------
  // Tables keyed by (cigar, seq, seqlen), combined by outer merges that add the totals

  /** The merge key `['cigar', 'seq', 'seqlen']`; insertion samples merge on `['Allele', 'insseq', 'seqlen']`. */
  datatype MasterKey = MasterKey(cigar: string, sequence: string, seqlen: int)

  /** One row of a master table: its key and its `total` (written out as `count`). */
  datatype MasterRow = MasterRow(key: MasterKey, total: int)

  /** A merged table: the summed total of every key it holds. */
  type Table = map<MasterKey, int>

  /** `pd.merge(a, b, on=key, how='outer')`, missing totals filled with 0, then `total_x + total_y`. */
  function Merge(a: Table, b: Table): (m: Table)
    ensures m.Keys == a.Keys + b.Keys
    ensures forall k :: Get(m, k) == Get(a, k) + Get(b, k)
  {
    map k | k in a.Keys + b.Keys :: Get(a, k) + Get(b, k)
  }

  /** Adds `v` to the total of key `k`, inserting the key if it is new. */
  function Add(t: Table, k: MasterKey, v: int): Table {
    t[k := Get(t, k) + v]
  }

  /** The rows of a table read as a merged table: rows with the same key add up. */
  function Tally(rows: seq<MasterRow>): Table {
    if rows == [] then map[]
    else
      var r := rows[|rows| - 1];
      Add(Tally(rows[..|rows| - 1]), r.key, r.total)
  }

  /** The summed totals of the rows whose key satisfies `p` (a filter and `.sum()`). */
  function RowWeight(rows: seq<MasterRow>, p: MasterKey -> bool): int {
    if rows == [] then 0
    else
      var r := rows[|rows| - 1];
      RowWeight(rows[..|rows| - 1], p) + (if p(r.key) then r.total else 0)
  }

  /** The total of `k` in `t` when `p` holds of it, and 0 otherwise. */
  function Part(t: Table, p: MasterKey -> bool): MasterKey -> int {
    k => if p(k) then Get(t, k) else 0
  }

  /** The summed totals of the keys of a table that satisfy `p`. */
  ghost function Weight(t: Table, p: MasterKey -> bool): int {
    SetSum(t.Keys, Part(t, p))
  }

  /** Merging adds the weights: no total is lost or counted twice, whatever the filter. */
  lemma MergeWeight(a: Table, b: Table, p: MasterKey -> bool)
    ensures Weight(Merge(a, b), p) == Weight(a, p) + Weight(b, p)
  {
    var m := Merge(a, b);
    var keys := a.Keys + b.Keys;
    SetSumLinear(keys, Part(a, p), Part(b, p), Part(m, p));
    SetSumSubset(a.Keys, keys, Part(a, p));
    SetSumSubset(b.Keys, keys, Part(b, p));
  }

  /** Merging is symmetric: the order in which tables are merged does not change the result. */
  lemma MergeCommutes(a: Table, b: Table)
    ensures Merge(a, b) == Merge(b, a)
  {
  }

  /** Adding to one key is merging with a one-key table. */
  lemma AddIsMerge(t: Table, k: MasterKey, v: int)
    ensures Add(t, k, v) == Merge(t, map[k := v])
  {
    assert Add(t, k, v).Keys == Merge(t, map[k := v]).Keys;
  }

  /** Reading rows as a table keeps every total: the weight of the tally is the weight of the rows. */
  lemma {:induction false} TallyWeight(rows: seq<MasterRow>, p: MasterKey -> bool)
    ensures Weight(Tally(rows), p) == RowWeight(rows, p)
  {
    if rows == [] {
      var empty: Table := map[];
      SetSumZero(empty.Keys, Part(empty, p));
    } else {
      var r, init := rows[|rows| - 1], rows[..|rows| - 1];
      TallyWeight(init, p);
      var one: Table := map[r.key := r.total];
      AddIsMerge(Tally(init), r.key, r.total);
      MergeWeight(Tally(init), one, p);
      SetSumRemove(one.Keys, Part(one, p), r.key);
      assert one.Keys - {r.key} == {};
    }
  }

  /** A tally holds exactly the keys of the rows. */
  lemma {:induction false} TallyKeys(rows: seq<MasterRow>)
    ensures forall k :: k in Tally(rows) <==> exists r :: r in rows && r.key == k
  {
    if rows != [] {
      var init := rows[..|rows| - 1];
      TallyKeys(init);
      assert rows == init + [rows[|rows| - 1]];
    }
  }

  // ---------------------------------------------------------------------------------------------
  // get_master_df: the insertion samples merged into one table

  /** One row of an insertions file: its `Sample`, `Allele`, `Count`, `insseq` and `seqlen` columns. */
  datatype InsRow = InsRow(sample: string, allele: string, count: int, insseq: string, seqlen: int)

  /** An insertion row under the merge key, renamed as `Allele` -> `cigar`, `insseq` -> `seq`. */
  function InsMaster(r: InsRow): MasterRow {
    MasterRow(MasterKey(r.allele, r.insseq, r.seqlen), r.count)
  }

  /** Every row of an insertions file as a master row. */
  function InsMasters(ins: seq<InsRow>): (rows: seq<MasterRow>)
    ensures |rows| == |ins| && forall j :: 0 <= j < |ins| ==> rows[j] == InsMaster(ins[j])
  {
    seq(|ins|, j requires 0 <= j < |ins| => InsMaster(ins[j]))
  }

  /** The rows of the samples in `samples`, in order (`grouped.get_group` for each). */
  function OfSamples(ins: seq<InsRow>, samples: set<string>): seq<MasterRow> {
    if ins == [] then []
    else
      var r := ins[|ins| - 1];
      var init := OfSamples(ins[..|ins| - 1], samples);
      if r.sample in samples then init + [InsMaster(r)] else init
  }

  /** One sample as a table. */
  function SampleTable(ins: seq<InsRow>, sample: string): Table {
    Tally(OfSamples(ins, {sample}))
  }

  /** The merge loop over the samples in the order `order` lists them: the first, then each next one merged in. */
  function SampleMerge(ins: seq<InsRow>, order: seq<string>, n: nat): Table
    requires 1 <= n <= |order|
  {
    if n == 1 then SampleTable(ins, order[0])
    else Merge(SampleMerge(ins, order, n - 1), SampleTable(ins, order[n - 1]))
  }

  method MergeSamples(ins: seq<InsRow>, order: seq<string>) returns (t: Table)
    requires |order| > 0
    ensures t == SampleMerge(ins, order, |order|)
  {
    t := SampleTable(ins, order[0]);
    for i := 1 to |order|
      invariant t == SampleMerge(ins, order, i)
    {
      t := Merge(t, SampleTable(ins, order[i]));
    }
  }

  /** The samples listed in `order`. */
  function Samples(order: seq<string>): set<string> {
    set s | s in order
  }

  /** Two tables that hold the same keys with the same totals are equal. */
  lemma TableEq(x: Table, y: Table)
    requires x.Keys == y.Keys && forall k :: Get(x, k) == Get(y, k)
    ensures x == y
  {
    forall k | k in x ensures x[k] == y[k] {
      assert Get(x, k) == Get(y, k);
    }
  }

  /** Adding to a key of the left table before a merge is adding to it after. */
  lemma AddMergeLeft(a: Table, b: Table, k: MasterKey, v: int)
    ensures Merge(Add(a, k, v), b) == Add(Merge(a, b), k, v)
  {
    var l, m := Merge(Add(a, k, v), b), Add(Merge(a, b), k, v);
    assert l.Keys == m.Keys;
    TableEq(l, m);
  }

  /** Adding to a key of the right table before a merge is adding to it after. */
  lemma AddMergeRight(a: Table, b: Table, k: MasterKey, v: int)
    ensures Merge(a, Add(b, k, v)) == Add(Merge(a, b), k, v)
  {
    var r, m := Merge(a, Add(b, k, v)), Add(Merge(a, b), k, v);
    assert r.Keys == m.Keys;
    TableEq(r, m);
  }

  /** Merging in one more sample merges in its rows. */
  lemma {:induction false} OfSamplesSplit(ins: seq<InsRow>, samples: set<string>, s: string)
    requires s !in samples
    ensures Tally(OfSamples(ins, samples + {s})) == Merge(Tally(OfSamples(ins, samples)), SampleTable(ins, s))
  {
    if ins == [] {
      var e: Table := map[];
      assert Merge(e, e) == e;
    } else {
      var init := ins[..|ins| - 1];
      var r := InsMaster(ins[|ins| - 1]);
      OfSamplesSplit(init, samples, s);
      var a, b := Tally(OfSamples(init, samples)), SampleTable(init, s);
      if ins[|ins| - 1].sample in samples {
        AddMergeLeft(a, b, r.key, r.total);
      } else if ins[|ins| - 1].sample == s {
        AddMergeRight(a, b, r.key, r.total);
      }
    }
  }

  /** With the samples listed once each, the merge loop yields the table of their rows. */
  lemma {:induction false} SampleMergeRows(ins: seq<InsRow>, order: seq<string>, n: nat)
    requires 1 <= n <= |order| && Distinct(order)
    ensures SampleMerge(ins, order, n) == Tally(OfSamples(ins, Samples(order[..n])))
  {
    if n == 1 {
      assert Samples(order[..1]) == {order[0]};
    } else {
      SampleMergeRows(ins, order, n - 1);
      var s := order[n - 1];
      assert s !in Samples(order[..n - 1]) by {

      }
      assert Samples(order[..n]) == Samples(order[..n - 1]) + {s} by {
        assert order[..n] == order[..n - 1] + [s];
      }
      OfSamplesSplit(ins, Samples(order[..n - 1]), s);
    }
  }

  /** Every row is kept when its sample is among those asked for. */
  lemma {:induction false} OfAllSamples(ins: seq<InsRow>, samples: set<string>)
    requires forall j :: 0 <= j < |ins| ==> ins[j].sample in samples
    ensures OfSamples(ins, samples) == InsMasters(ins)
  {
    if ins != [] {
      OfAllSamples(ins[..|ins| - 1], samples);
    }
  }

  /**
    With `order` the samples of the file, each once (`list(set(ins.Sample))`), the merged
    insertion table holds every key of the file with the sum of its counts over all samples,
    whatever order the samples come in.
   */
  lemma InsertionMerge(ins: seq<InsRow>, order: seq<string>)
    requires |order| > 0 && Distinct(order)
    requires forall j :: 0 <= j < |ins| ==> ins[j].sample in order
    ensures SampleMerge(ins, order, |order|) == Tally(InsMasters(ins))
  {
    SampleMergeRows(ins, order, |order|);
    assert order[..|order|] == order;
    OfAllSamples(ins, Samples(order));
  }

  /** Each key's total in a tally is the sum of the totals of the rows with that key. */
  lemma {:induction false} TallyGet(rows: seq<MasterRow>, k: MasterKey)
    ensures Get(Tally(rows), k) == RowWeight(rows, x => x == k)
  {
    if rows != [] {
      TallyGet(rows[..|rows| - 1], k);
    }
  }

  // ---------------------------------------------------------------------------------------------
  // get_master_df: the kept outcomes of a counts file, then the merged insertions

  /** `maxlen`: insertions longer than 20 bp (sequence length above 80) are left out. */
  const MaxLen := 80

  /** A counts row under the merge key, with the `['cigar', 'total', 'seq', 'seqlen']` columns kept. */
  function CountMaster(r: CountRow): MasterRow {
    MasterRow(MasterKey(r.cigar, r.sequence, r.seqlen), r.total)
  }

  function CountMasters(rows: seq<CountRow>): (ms: seq<MasterRow>)
    ensures |ms| == |rows| && forall j :: 0 <= j < |rows| ==> ms[j] == CountMaster(rows[j])
  {
    seq(|rows|, j requires 0 <= j < |rows| => CountMaster(rows[j]))
  }

  /** `.str.upper()` on the `seq` column of one row. */
  function UpperRow(r: MasterRow): MasterRow {
    MasterRow(r.key.(sequence := Upper(r.key.sequence)), r.total)
  }

  function UpperRows(rows: seq<MasterRow>): (us: seq<MasterRow>)
    ensures |us| == |rows| && forall j :: 0 <= j < |rows| ==> us[j] == UpperRow(rows[j])
  {
    seq(|rows|, j requires 0 <= j < |rows| => UpperRow(rows[j]))
  }

  /** The rows of a merged table in the order `keys` lists them, those with `seqlen <= maxlen` only. */
  function Listed(t: Table, keys: seq<MasterKey>, maxlen: int): seq<MasterRow> {
    if keys == [] then []
    else
      var k := keys[|keys| - 1];
      var init := Listed(t, keys[..|keys| - 1], maxlen);
      if k in t && k.seqlen <= maxlen then init + [MasterRow(k, t[k])] else init
  }

  /**
    The two orders `get_master_df` takes from Python and pandas: `order`, from
    `list(set(ins.Sample))`, lists every sample of the file once; `keys`, the row order of the
    outer merge, lists every key of the merged table once.
   */
  ghost predicate MergeOrders(ins: seq<InsRow>, order: seq<string>, keys: seq<MasterKey>) {
    && |order| > 0 && Distinct(order)
    && (forall j :: 0 <= j < |ins| ==> ins[j].sample in order)
    && Distinct(keys)
    && (forall k :: k in keys <==> k in SampleMerge(ins, order, |order|))
  }

  /**
    The insertion rows appended to a master table: none when the insertions file is missing
    (`os.path.exists`) or empty; otherwise the samples merged in the order `order` gives
    (`list(set(ins.Sample))`), listed in the order `keys` gives, and filtered on `maxlen`.
   */
  function InsPart(ins: Option<seq<InsRow>>, order: seq<string>, keys: seq<MasterKey>, maxlen: int): seq<MasterRow>
    requires ins.Some? && ins.value != [] ==> MergeOrders(ins.value, order, keys)
  {
    if ins.None? || ins.value == [] then []
    else Listed(SampleMerge(ins.value, order, |order|), keys, maxlen)
  }

  /** The master table of one replicate: the kept counts rows, then the insertions, upper-cased. */
  function MasterOf(counts: seq<CountRow>, ins: Option<seq<InsRow>>, order: seq<string>, keys: seq<MasterKey>, maxlen: int): seq<MasterRow>
    requires ins.Some? && ins.value != [] ==> MergeOrders(ins.value, order, keys)
  {
    UpperRows(CountMasters(Kept(counts)) + InsPart(ins, order, keys, maxlen))
  }

  method GetMasterDf(counts: seq<CountRow>, ins: Option<seq<InsRow>>, order: seq<string>, keys: seq<MasterKey>, maxlen: int)
    returns (master: seq<MasterRow>)
    requires ins.Some? && ins.value != [] ==> MergeOrders(ins.value, order, keys)
    ensures master == MasterOf(counts, ins, order, keys, maxlen)
  {
    var cigars := Cigars(counts);
    var inds := MasterExclusions(cigars);
    DropExcluded(counts, inds);
    var rows := CountMasters(DropAt(counts, inds));
    if ins.Some? && ins.value != [] {
      var t := MergeSamples(ins.value, order);
      rows := rows + Listed(t, keys, maxlen);
    }
    master := UpperRows(rows);
  }

  /** Upper-casing twice is upper-casing once. */
  lemma UpperTwice(s: string)
    ensures Upper(Upper(s)) == Upper(s)
  {
  }

  /** No key has two rows. */
  predicate KeysOnce(rows: seq<MasterRow>) {
    forall a, b :: 0 <= a < b < |rows| ==> rows[a].key != rows[b].key
  }

  /**
    The listed rows are rows of the table whose keys `keys` lists, within `maxlen`; every such key
    listed is there; and when `keys` repeats no key, no key has two rows.
   */
  lemma {:induction false} ListedSpec(t: Table, keys: seq<MasterKey>, maxlen: int)
    ensures forall r :: r in Listed(t, keys, maxlen) ==>
      r.key in keys && r.key in t && r.total == t[r.key] && r.key.seqlen <= maxlen
    ensures forall k :: k in keys && k in t && k.seqlen <= maxlen ==> exists r :: r in Listed(t, keys, maxlen) && r.key == k
    ensures Distinct(keys) ==> KeysOnce(Listed(t, keys, maxlen))
  {
    if keys != [] {
      var init := keys[..|keys| - 1];
      var k := keys[|keys| - 1];
      ListedSpec(t, init, maxlen);
      assert keys == init + [k];
      if Distinct(keys) {
        assert Distinct(init);
        assert k !in init;
        var l0 := Listed(t, init, maxlen);
        forall a | 0 <= a < |l0| ensures l0[a].key != k {
          assert l0[a] in l0;
        }
        if k in t && k.seqlen <= maxlen {
          var l := l0 + [MasterRow(k, t[k])];
          assert Listed(t, keys, maxlen) == l;
          forall a, b | 0 <= a < b < |l| ensures l[a].key != l[b].key {
            if b < |l0| {
              assert l[a] == l0[a] && l[b] == l0[b];
            } else {
              assert l[a] == l0[a] && l[b].key == k;
            }
          }
        } else {
          assert Listed(t, keys, maxlen) == l0;
        }
      }
    }
  }

  /**
    A master table holds the kept outcomes of the counts file first, in their order, then
    insertion rows no longer than `maxlen`, and every sequence in it is upper case.
   */
  lemma MasterOfSpec(counts: seq<CountRow>, ins: Option<seq<InsRow>>, order: seq<string>, keys: seq<MasterKey>, maxlen: int)
    requires ins.Some? && ins.value != [] ==> MergeOrders(ins.value, order, keys)
    ensures var m, kept := MasterOf(counts, ins, order, keys, maxlen), Kept(counts);
      && |kept| <= |m|
      && (forall j :: 0 <= j < |m| ==> Upper(m[j].key.sequence) == m[j].key.sequence)
      && (forall j :: 0 <= j < |kept| ==> m[j] == UpperRow(CountMaster(kept[j])) && !Excluded(m[j].key.cigar))
      && (forall j :: |kept| <= j < |m| ==> m[j].key.seqlen <= maxlen)
  {
    KeptSpec(counts);
    var kept := Kept(counts);
    var rows := CountMasters(kept) + InsPart(ins, order, keys, maxlen);
    forall j | 0 <= j < |rows| ensures Upper(UpperRow(rows[j]).key.sequence) == UpperRow(rows[j]).key.sequence {
      UpperTwice(rows[j].key.sequence);
    }
    forall j | 0 <= j < |kept| ensures !Excluded(kept[j].cigar) {
      assert kept[j] in kept;
    }
    if ins.Some? && ins.value != [] {
      ListedSpec(SampleMerge(ins.value, order, |order|), keys, maxlen);
      forall j | |kept| <= j < |rows| ensures rows[j].key.seqlen <= maxlen {
        assert rows[j] in InsPart(ins, order, keys, maxlen);
      }
    }
  }

  /**
    Every insertion row of a master table carries, for its key, the sum of the counts of all the
    file's rows with that key; every key of the file within `maxlen` has a row; and no key has two.
   */
  lemma InsPartSpec(ins: seq<InsRow>, order: seq<string>, keys: seq<MasterKey>, maxlen: int)
    requires ins != [] && MergeOrders(ins, order, keys)
    ensures forall r :: r in InsPart(Some(ins), order, keys, maxlen) ==>
      r.key.seqlen <= maxlen && r.total == RowWeight(InsMasters(ins), x => x == r.key)
    ensures forall j :: 0 <= j < |ins| && ins[j].seqlen <= maxlen ==>
      exists r :: r in InsPart(Some(ins), order, keys, maxlen) && r.key == InsMaster(ins[j]).key
    ensures KeysOnce(InsPart(Some(ins), order, keys, maxlen))
  {
    InsertionMerge(ins, order);
    var t := Tally(InsMasters(ins));
    ListedSpec(t, keys, maxlen);
    TallyKeys(InsMasters(ins));
    forall r | r in InsPart(Some(ins), order, keys, maxlen) ensures r.total == RowWeight(InsMasters(ins), x => x == r.key) {
      TallyGet(InsMasters(ins), r.key);
    }
    forall j | 0 <= j < |ins| ensures InsMaster(ins[j]).key in t && InsMaster(ins[j]).key in keys {
      assert InsMasters(ins)[j] in InsMasters(ins);
    }
  }

  // ---------------------------------------------------------------------------------------------
  // create_master_files: the replicate files of a gene and their master tables merged

  /** `id_ending_lst.strip('][').split(', ')`, then `'` removed from each piece. */
  function ParseIdEnding(s: string): (ends: seq<string>)
    ensures |ends| >= 1
  {
    var parts := Split(StripChars(s, {'[', ']'}), ", ");
    seq(|parts|, i requires 0 <= i < |parts| => Remove(parts[i], "'"))
  }

  /**
    Parsing inverts `str(list)`: the `id_ending` list written into the key table is read back
    as it was, for a non-empty list of plain endings without a comma.
   */
  lemma ParseIdEndingRoundTrip(xs: seq<string>)
    requires |xs| > 0
    requires forall i :: 0 <= i < |xs| ==> Plain(xs[i]) && ',' !in xs[i]
    ensures ParseIdEnding(ReprList(xs)) == xs
  {
    var reprs := seq(|xs|, i requires 0 <= i < |xs| => ReprStr(xs[i]));
    var inner := Join(reprs, ", ");
    assert ReprList(xs) == ['['] + inner + [']'];
    JoinEnds(reprs, ", ");
    StripEnclosed('[', inner, ']', {'[', ']'});
    forall i | 0 <= i < |reprs| ensures Find(reprs[i] + ", ", ", ") == |reprs[i]| {
      NoCommaFind(reprs[i]);
    }
    SplitJoin(reprs, ", ");
    forall i | 0 <= i < |xs| ensures Remove(reprs[i], "'") == xs[i] {
      QuotesRemoved(xs[i]);
    }
  }

  /** An empty list, written as "[]", reads back as one empty ending. */
  lemma ParseEmptyList()
    ensures ParseIdEnding(ReprList([])) == [""]
  {
    assert ReprList([]) == ['['] + [']'];
    var p := InSet({'[', ']'});
    assert LStripBy("[]", p) == "";
    assert Split("", ", ") == [""];
  }

  /** In a piece without a comma followed by ", ", the first ", " is the appended one. */
  lemma NoCommaFind(r: string)
    requires ',' !in r
    ensures Find(r + ", ", ", ") == |r|
  {
    var s := r + ", ";
    assert s[|r|..|r| + 2] == ", ";
    forall j: nat | j < |r| ensures !MatchAt(s, ", ", j) {
      assert s[j] == r[j];
      if j + 2 <= |s| {
        assert s[j..j + 2][0] == s[j];
      }
    }
    FindUnique(s, ", ", |r|);
  }

  /** Removing the quotes of `repr(x)` gives back a plain `x`. */
  lemma QuotesRemoved(x: string)
    requires Plain(x)
    ensures Remove(ReprStr(x), "'") == x
  {
    var s := ReprStr(x);
    assert s[..1] == "'";
    assert s[1..] == x + "'";
    assert '\'' !in x by {
      forall i | 0 <= i < |x| ensures x[i] != '\'' {
      }
    }
    RemoveTrail(x, '\'');
  }

  /** The replicate paths of a gene: `genename + end + '.txt'` for each ending. */
  function GenePaths(genename: string, ends: seq<string>): (paths: seq<string>)
    ensures |paths| == |ends| && forall i :: 0 <= i < |ends| ==> paths[i] == genename + ends[i] + ".txt"
  {
    seq(|ends|, i requires 0 <= i < |ends| => genename + ends[i] + ".txt")
  }

  /** `'master-' + genename + '.txt'` */
  function MasterName(genename: string): string {
    "master-" + genename + ".txt"
  }

  /** The merge loop of `create_master_files`: the first replicate's table, then each next one merged in. */
  function ReplicateMerge(paths: seq<string>, reps: map<string, seq<MasterRow>>, n: nat): Table
    requires 1 <= n <= |paths| && forall j :: 0 <= j < n ==> paths[j] in reps
  {
    if n == 1 then Tally(reps[paths[0]])
    else Merge(ReplicateMerge(paths, reps, n - 1), Tally(reps[paths[n - 1]]))
  }

  /**
    The master table of a gene from its replicate paths: `reps` maps each replicate path to the
    master table `get_master_df` builds for it, and a path it lacks is a missing counts file.
   */
  function GeneMaster(paths: seq<string>, reps: map<string, seq<MasterRow>>): Result<Table>
    requires |paths| >= 1
  {
    if forall j :: 0 <= j < |paths| ==> paths[j] in reps
    then Success(ReplicateMerge(paths, reps, |paths|))
    else Failure(FileNotFound)
  }

  /** The replicate loop of `create_master_files`. */
  method MergeReplicates(paths: seq<string>, reps: map<string, seq<MasterRow>>) returns (r: Result<Table>)
    requires |paths| >= 1
    ensures r == GeneMaster(paths, reps)
  {
    var master: Table := map[];
    for j := 0 to |paths|
      invariant forall i :: 0 <= i < j ==> paths[i] in reps
      invariant j > 0 ==> master == ReplicateMerge(paths, reps, j)
    {
      if paths[j] !in reps {
        return Failure(FileNotFound);
      }
      var table := Tally(reps[paths[j]]);
      if j == 0 {
        master := table;
      } else {
        master := Merge(master, table);
      }
    }
    r := Success(master);
  }

  /** The master file of a gene from its key-table row: its name and its merged table. */
  function MasterFile(genename: string, idEnding: string, reps: map<string, seq<MasterRow>>): Result<(string, Table)> {
    match GeneMaster(GenePaths(genename, ParseIdEnding(idEnding)), reps)
    case Failure(e) => Failure(e)
    case Success(t) => Success((MasterName(genename), t))
  }

  /** The body of the gene loop of `create_master_files`. */
  method CreateMasterFile(genename: string, idEnding: string, reps: map<string, seq<MasterRow>>)
    returns (r: Result<(string, Table)>)
    ensures r == MasterFile(genename, idEnding, reps)
  {
    var paths := GenePaths(genename, ParseIdEnding(idEnding));
    var master := MergeReplicates(paths, reps);
    if master.Failure? {
      return Failure(master.error);
    }
    r := Success((MasterName(genename), master.value));
  }

  /** The weight of one replicate's master table, 0 for a path that has none. */
  function RepWeight(reps: map<string, seq<MasterRow>>, p: MasterKey -> bool): string -> int {
    path => if path in reps then RowWeight(reps[path], p) else 0
  }

  /**
    The merged master table keeps every total: for any filter on the key, its weight is the sum
    over the replicates of their weights.
   */
  lemma {:induction false} ReplicateMergeWeight(paths: seq<string>, reps: map<string, seq<MasterRow>>, n: nat, p: MasterKey -> bool)
    requires 1 <= n <= |paths| && forall j :: 0 <= j < n ==> paths[j] in reps
    ensures Weight(ReplicateMerge(paths, reps, n), p) == SumOver(paths[..n], RepWeight(reps, p))
  {
    assert paths[..n][..n - 1] == paths[..n - 1];
    TallyWeight(reps[paths[n - 1]], p);
    if n > 1 {
      ReplicateMergeWeight(paths, reps, n - 1, p);
      MergeWeight(ReplicateMerge(paths, reps, n - 1), Tally(reps[paths[n - 1]]), p);
    }
  }

  /** The merged master table holds exactly the keys of the replicates' tables: no key is lost. */
  lemma {:induction false} ReplicateMergeKeys(paths: seq<string>, reps: map<string, seq<MasterRow>>, n: nat)
    requires 1 <= n <= |paths| && forall j :: 0 <= j < n ==> paths[j] in reps
    ensures forall k :: k in ReplicateMerge(paths, reps, n) <==>
      exists j, r :: 0 <= j < n && r in reps[paths[j]] && r.key == k
  {
    TallyKeys(reps[paths[n - 1]]);
    if n > 1 {
      ReplicateMergeKeys(paths, reps, n - 1);
    }
  }

  /**
    When every replicate's table is upper case, so is every key of the merge: the final
    `.str.upper()` of `create_master_files` changes nothing.
   */
  lemma ReplicateMergeUpper(paths: seq<string>, reps: map<string, seq<MasterRow>>, n: nat)
    requires 1 <= n <= |paths| && forall j :: 0 <= j < n ==> paths[j] in reps
    requires forall j, r :: 0 <= j < n && r in reps[paths[j]] ==> Upper(r.key.sequence) == r.key.sequence
    ensures forall k :: k in ReplicateMerge(paths, reps, n) ==> Upper(k.sequence) == k.sequence
  {
    ReplicateMergeKeys(paths, reps, n);
  }

  // ---------------------------------------------------------------------------------------------
  // add_proba_1bp_insertion / add_proba_1bp_deletion

  /** A row of the key table as the label steps read it back: `id_ending` is the written list. */
  datatype KeyEntry = KeyEntry(genename: string, idEnding: string, insertions: Option<int>, deletions: Option<int>)

  /** The sequence length of a 1 bp insertion and of a 1 bp deletion in the 60 bp window. */
  const OneBpIns := 61
  const OneBpDel := 59

  /** The keys with sequence length `len`. */
  function HasLen(len: int): MasterKey -> bool {
    (k: MasterKey) => k.seqlen == len
  }

  /** `total_1bp / total_indels`: NaN (`None`) when a count is NaN or the two add up to 0. */
  function Proba(count: int, e: KeyEntry): (q: Option<real>)
    ensures q.None? <==> e.insertions.None? || e.deletions.None? || e.insertions.value + e.deletions.value == 0
    ensures q.Some? ==> q == Div(count, e.insertions.value + e.deletions.value)
  {
    match RS.OptAdd(e.insertions, e.deletions)
    case None => None
    case Some(total) => Div(count, total)
  }

  /**
    The probability of one key row: `masters` maps a master file name to its rows, and a
    missing master file is `FileNotFound`.
   */
  function ProbaOf(masters: map<string, seq<MasterRow>>, len: int): KeyEntry -> Result<Option<real>> {
    (e: KeyEntry) => var name := MasterName(e.genename);
      if name in masters then Success(Proba(RowWeight(masters[name], HasLen(len)), e)) else Failure(FileNotFound)
  }

  /** The probability column, one key row after the other. */
  function ProbaColumn(keys: seq<KeyEntry>, masters: map<string, seq<MasterRow>>, len: int): Result<seq<Option<real>>> {
    MapAll(keys, ProbaOf(masters, len))
  }

  /** The key-row loop shared by the two probability labels. */
  method AddProba(keys: seq<KeyEntry>, masters: map<string, seq<MasterRow>>, len: int) returns (r: Result<seq<Option<real>>>)
    ensures r == ProbaColumn(keys, masters, len)
  {
    var col := [];
    for i := 0 to |keys|
      invariant MapAll(keys[..i], ProbaOf(masters, len)) == Success(col)
    {
      assert keys[..i + 1][..i] == keys[..i];
      var name := MasterName(keys[i].genename);
      if name !in masters {
        MapAllPrefixFailure(keys, ProbaOf(masters, len), i + 1);
        return Failure(FileNotFound);
      }
      col := col + [Proba(RowWeight(masters[name], HasLen(len)), keys[i])];
    }
    assert keys[..|keys|] == keys;
    r := Success(col);
  }

  /** `add_proba_1bp_insertion`: the counts of 1 bp insertions over all indels. */
  method AddProba1bpInsertion(keys: seq<KeyEntry>, masters: map<string, seq<MasterRow>>) returns (r: Result<seq<Option<real>>>)
    ensures r == ProbaColumn(keys, masters, OneBpIns)
  {
    r := AddProba(keys, masters, OneBpIns);
  }

  /** `add_proba_1bp_deletion`: the counts of 1 bp deletions over all indels. */
  method AddProba1bpDeletion(keys: seq<KeyEntry>, masters: map<string, seq<MasterRow>>) returns (r: Result<seq<Option<real>>>)
    ensures r == ProbaColumn(keys, masters, OneBpDel)
  {
    r := AddProba(keys, masters, OneBpDel);
  }

  /**
    The column is filled when every gene has a master file, and then holds, row by row, the
    counts at `len` in that gene's master file over the row's insertions plus deletions.
   */
  lemma ProbaColumnSpec(keys: seq<KeyEntry>, masters: map<string, seq<MasterRow>>, len: int)
    ensures ProbaColumn(keys, masters, len).Success? <==> forall i :: 0 <= i < |keys| ==> MasterName(keys[i].genename) in masters
    ensures ProbaColumn(keys, masters, len).Success? ==>
      var col := ProbaColumn(keys, masters, len).value;
      |col| == |keys| && forall i :: 0 <= i < |keys| ==>
        col[i] == Proba(RowWeight(masters[MasterName(keys[i].genename)], HasLen(len)), keys[i])
  {
    MapAllElements(keys, ProbaOf(masters, len));
  }

  /** A merged table written out (`to_csv`): one row per key, in the order `ks` lists them. */
  function Written(t: Table, ks: seq<MasterKey>): (rows: seq<MasterRow>)
    requires forall i :: 0 <= i < |ks| ==> ks[i] in t
    ensures |rows| == |ks| && forall i :: 0 <= i < |ks| ==> rows[i] == MasterRow(ks[i], t[ks[i]])
  {
    seq(|ks|, i requires 0 <= i < |ks| => MasterRow(ks[i], t[ks[i]]))
  }

  lemma {:induction false} WrittenSum(t: Table, ks: seq<MasterKey>, p: MasterKey -> bool)
    requires forall i :: 0 <= i < |ks| ==> ks[i] in t
    ensures RowWeight(Written(t, ks), p) == SumOver(ks, Part(t, p))
  {
    if ks != [] {
      var n := |ks| - 1;
      assert Written(t, ks)[..n] == Written(t, ks[..n]);
      WrittenSum(t, ks[..n], p);
    }
  }

  /** A table written out with each key once keeps its weight. */
  lemma WrittenWeight(t: Table, ks: seq<MasterKey>, p: MasterKey -> bool)
    requires Distinct(ks) && forall k :: k in ks <==> k in t
    ensures RowWeight(Written(t, ks), p) == Weight(t, p)
  {
    WrittenSum(t, ks, p);
    SumOverSet(ks, t.Keys, Part(t, p));
  }

  /**
    Read from the master file `create_master_files` writes, the numerator of a 1 bp probability
    is the sum over the gene's replicates of their counts at that sequence length.
   */
  lemma ProbaFromReplicates(e: KeyEntry, paths: seq<string>, reps: map<string, seq<MasterRow>>, ks: seq<MasterKey>, len: int)
    requires |paths| >= 1 && GeneMaster(paths, reps).Success?
    requires Distinct(ks) && forall k :: k in ks <==> k in GeneMaster(paths, reps).value
    ensures Proba(RowWeight(Written(GeneMaster(paths, reps).value, ks), HasLen(len)), e)
      == Proba(SumOver(paths, RepWeight(reps, HasLen(len))), e)
  {
    var t := GeneMaster(paths, reps).value;
    WrittenWeight(t, ks, HasLen(len));
    ReplicateMergeWeight(paths, reps, |paths|, HasLen(len));
    assert paths[..|paths|] == paths;
  }

  // ---------------------------------------------------------------------------------------------
  // add_frameshift_freq over the key table

  /** The three frequency columns of one key row: its replicate files, their totals, the ratios. */
  function GeneFreqs(e: KeyEntry, files: map<string, seq<CountRow>>): Result<FrameshiftCols> {
    var paths := GenePaths(e.genename, ParseIdEnding(e.idEnding));
    match GeneFrameshift(paths, files, |paths|)
    case Failure(err) => Failure(err)
    case Success(t) => Success(Freqs(t))
  }

  function GeneFreqsIn(files: map<string, seq<CountRow>>): KeyEntry -> Result<FrameshiftCols> {
    (e: KeyEntry) => GeneFreqs(e, files)
  }

  /** The frequency columns, one key row after the other. */
  function FrameshiftColumn(keys: seq<KeyEntry>, files: map<string, seq<CountRow>>): Result<seq<FrameshiftCols>> {
    MapAll(keys, GeneFreqsIn(files))
  }

  /** `add_frameshift_freq`: the key-row loop, appending the frequencies of each gene. */
  method AddFrameshiftFreq(keys: seq<KeyEntry>, files: map<string, seq<CountRow>>) returns (r: Result<seq<FrameshiftCols>>)
    ensures r == FrameshiftColumn(keys, files)
  {
    var col := [];
    for i := 0 to |keys|
      invariant MapAll(keys[..i], GeneFreqsIn(files)) == Success(col)
    {
      MapAllStep(keys, GeneFreqsIn(files), i, col);
      var f := GeneFreqsRow(keys[i], files);
      if f.Failure? {
        MapAllPrefixFailure(keys, GeneFreqsIn(files), i + 1);
        return Failure(f.error);
      }
      col := col + [f.value];
    }
    assert keys[..|keys|] == keys;
    r := Success(col);
  }

  /** The body of the key-row loop: one gene's replicate files, totalled, then the ratios. */
  method GeneFreqsRow(e: KeyEntry, files: map<string, seq<CountRow>>) returns (f: Result<FrameshiftCols>)
    ensures f == GeneFreqsIn(files)(e)
  {
    var paths := GenePaths(e.genename, ParseIdEnding(e.idEnding));
    var t := GeneFrameshiftLoop(paths, files);
    if t.Failure? {
      return Failure(t.error);
    }
    f := Success(Freqs(t.value));
  }

  /** Each frequency is NaN or lies in [0, 1], and the frameshift frequency is the sum of the two others. */
  predicate FreqsOk(f: FrameshiftCols) {
    && (f.onemod3.Some? ==> 0.0 <= f.onemod3.value <= 1.0)
    && (f.twomod3.Some? ==> 0.0 <= f.twomod3.value <= 1.0)
    && (f.frameshift.Some? ==> 0.0 <= f.frameshift.value <= 1.0)
    && f.frameshift == AddFreq(f.onemod3, f.twomod3)
  }

  /** With non-negative counts in every file, a gene's frequencies are frequencies. */
  lemma GeneFreqsOk(e: KeyEntry, files: map<string, seq<CountRow>>)
    requires GeneFreqs(e, files).Success?
    requires forall name, j :: name in files && 0 <= j < |files[name]| ==> files[name][j].total >= 0
    ensures FreqsOk(GeneFreqs(e, files).value)
  {
    var paths := GenePaths(e.genename, ParseIdEnding(e.idEnding));
    var t := GeneFrameshift(paths, files, |paths|).value;
    GeneFrameshiftBounded(paths, files, |paths|);
    FreqsSpec(t);
  }

  /** The columns are filled when every gene's files are, and then hold each gene's own frequencies. */
  lemma FrameshiftColumnSpec(keys: seq<KeyEntry>, files: map<string, seq<CountRow>>)
    ensures FrameshiftColumn(keys, files).Success? <==> forall i :: 0 <= i < |keys| ==> GeneFreqsIn(files)(keys[i]).Success?
    ensures FrameshiftColumn(keys, files).Success? ==>
      var col := FrameshiftColumn(keys, files).value;
      |col| == |keys| && forall i :: 0 <= i < |keys| ==> GeneFreqsIn(files)(keys[i]) == Success(col[i])
  {
    MapAllElements(keys, GeneFreqsIn(files));
  }
}
