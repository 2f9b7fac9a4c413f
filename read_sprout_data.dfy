/**
  Reading the Leenay et al. (Sprout) outcome counts: each counts file's rows are classified into
  insertions, deletions and complex outcomes and totalled into the final table; genes that share a
  refseq are grouped, the key table collects each gene's count-file endings and collapses the
  groups onto one base name, and the per-gene totals and deletion frequency are added to it.
 */
module ReadSproutData {
  import opened Wrappers
  import opened PyStr
  import opened Sums

  // ---------------------------------------------------------------------------------------------
  // add_num_indels: classifying the outcome rows of one counts file

  /** One insertion and no deletion. */
  predicate IsInsertion(cigar: string) {
    Count(cigar, 'I') == 1 && Count(cigar, 'D') == 0
  }

  /** One deletion and no insertion. */
  predicate IsDeletion(cigar: string) {
    Count(cigar, 'D') == 1 && Count(cigar, 'I') == 0
  }

  /** Both an insertion and a deletion, more than one of either, or the catch-all "Other". */
  predicate IsComplex(cigar: string) {
    || (Count(cigar, 'I') > 0 && Count(cigar, 'D') > 0)
    || Count(cigar, 'I') > 1 || Count(cigar, 'D') > 1
    || cigar == "Other"
  }

  predicate IsSimple(cigar: string) {
    !IsComplex(cigar)
  }

  /** The three classes: insertions and deletions are disjoint, and neither is complex. */
  lemma ClassesDisjoint(cigar: string)
    ensures !(IsInsertion(cigar) && IsDeletion(cigar))
    ensures IsInsertion(cigar) ==> IsSimple(cigar)
    ensures IsDeletion(cigar) ==> IsSimple(cigar)
  {
    if cigar == "Other" {
      assert Count(cigar, 'I') == 0 && Count(cigar, 'D') == 0 by {
        assert multiset(cigar) == multiset{'O', 't', 'h', 'e', 'r'};
      }
    }
  }

  /** One row of a counts file: the outcome (its index column) and one count per sample column. */
  datatype OutcomeRow = OutcomeRow(cigar: string, values: seq<int>)

  /** A counts file once its `seq`, `seqlen`, `proba` and `total` columns are dropped. */
  datatype CountsFile = CountsFile(columns: seq<string>, rows: seq<OutcomeRow>)

  function Cigars(rows: seq<OutcomeRow>): (cs: seq<string>)
    ensures |cs| == |rows| && forall i :: 0 <= i < |rows| ==> cs[i] == rows[i].cigar
  {
    seq(|rows|, i requires 0 <= i < |rows| => rows[i].cigar)
  }

  /** The positions, in order, of the outcomes that satisfy `p`. */
  function IndicesWhere(cigars: seq<string>, p: string -> bool): seq<nat> {
    if cigars == [] then []
    else
      var n := |cigars| - 1;
      if p(cigars[n]) then IndicesWhere(cigars[..n], p) + [n] else IndicesWhere(cigars[..n], p)
  }

  /** `IndicesWhere` lists exactly the positions whose outcome satisfies `p`, each once and in range. */
  lemma {:induction false} IndicesWhereSpec(cigars: seq<string>, p: string -> bool)
    ensures forall j :: j in IndicesWhere(cigars, p) <==> 0 <= j < |cigars| && p(cigars[j])
  {
    if cigars != [] {
      var n := |cigars| - 1;
      IndicesWhereSpec(cigars[..n], p);
    }
  }

  lemma IndicesWhereNext(cigars: seq<string>, ind: nat, p: string -> bool)
    requires ind < |cigars|
    ensures IndicesWhere(cigars[..ind + 1], p) ==
      if p(cigars[ind]) then IndicesWhere(cigars[..ind], p) + [ind] else IndicesWhere(cigars[..ind], p)
  {
    assert cigars[..ind + 1][..ind] == cigars[..ind];
  }

  /**
    The loop of `add_num_indels` over the rows of one file: the positions of the insertions, of the
    deletions and of the complex outcomes.
   */
  method ClassifyRows(cigars: seq<string>) returns (ins: seq<nat>, dels: seq<nat>, complex: seq<nat>)
    ensures ins == IndicesWhere(cigars, IsInsertion)
    ensures dels == IndicesWhere(cigars, IsDeletion)
    ensures complex == IndicesWhere(cigars, IsComplex)
  {
    ins, dels, complex := [], [], [];
    for ind := 0 to |cigars|
      invariant ins == IndicesWhere(cigars[..ind], IsInsertion)
      invariant dels == IndicesWhere(cigars[..ind], IsDeletion)
      invariant complex == IndicesWhere(cigars[..ind], IsComplex)
    {
      IndicesWhereNext(cigars, ind, IsInsertion);
      IndicesWhereNext(cigars, ind, IsDeletion);
      IndicesWhereNext(cigars, ind, IsComplex);
      var c := cigars[ind];
      if Count(c, 'I') == 1 && Count(c, 'D') == 0 {
        ins := ins + [ind];
      } else if Count(c, 'D') == 1 && Count(c, 'I') == 0 {
        dels := dels + [ind];
      }
      if Count(c, 'I') > 0 && Count(c, 'D') > 0 {
        complex := complex + [ind];
      } else if Count(c, 'I') > 1 || Count(c, 'D') > 1 {
        complex := complex + [ind];
      } else if c == "Other" {
        complex := complex + [ind];
      }
    }
    assert cigars[..|cigars|] == cigars;
  }

  /** All the counts of one row, over every sample column. */
  function RowTotal(r: OutcomeRow): int {
    SeqSum(r.values)
  }

  /** `counts.iloc[inds].to_numpy().sum()` */
  function SumAt(rows: seq<OutcomeRow>, inds: seq<nat>): int
    requires forall k :: 0 <= k < |inds| ==> inds[k] < |rows|
  {
    if inds == [] then 0 else SumAt(rows, inds[..|inds| - 1]) + RowTotal(rows[inds[|inds| - 1]])
  }

  /** The counts of the rows whose outcome satisfies `p`, over every sample column. */
  function SumWhere(rows: seq<OutcomeRow>, p: string -> bool): int {
    if rows == [] then 0
    else
      var n := |rows| - 1;
      SumWhere(rows[..n], p) + (if p(rows[n].cigar) then RowTotal(rows[n]) else 0)
  }

  /** Summing the listed positions is summing the rows that satisfy `p`. */
  lemma {:induction false} SumAtIndices(rows: seq<OutcomeRow>, p: string -> bool)
    ensures var inds := IndicesWhere(Cigars(rows), p);
      (forall k :: 0 <= k < |inds| ==> inds[k] < |rows|) && SumAt(rows, inds) == SumWhere(rows, p)
  {
    IndicesWhereSpec(Cigars(rows), p);
    if rows != [] {
      var n := |rows| - 1;
      assert Cigars(rows)[..n] == Cigars(rows[..n]);
      SumAtIndices(rows[..n], p);
      SumAtPrefix(rows, rows[..n], IndicesWhere(Cigars(rows[..n]), p));
    }
  }

  /** Positions that fall in a prefix of the rows sum the same over the prefix and the whole. */
  lemma {:induction false} SumAtPrefix(rows: seq<OutcomeRow>, pre: seq<OutcomeRow>, inds: seq<nat>)
    requires pre <= rows
    requires forall k :: 0 <= k < |inds| ==> inds[k] < |pre|
    ensures SumAt(rows, inds) == SumAt(pre, inds)
  {
    if inds != [] {
      SumAtPrefix(rows, pre, inds[..|inds| - 1]);
    }
  }

  /** With non-negative counts, two disjoint classes of rows inside a third sum to at most its total. */
  lemma {:induction false} SumWhereDisjoint(rows: seq<OutcomeRow>, p: string -> bool, q: string -> bool, r: string -> bool)
    requires forall i, k :: 0 <= i < |rows| && 0 <= k < |rows[i].values| ==> rows[i].values[k] >= 0
    requires forall c :: !(p(c) && q(c)) && (p(c) ==> r(c)) && (q(c) ==> r(c))
    ensures SumWhere(rows, p) + SumWhere(rows, q) <= SumWhere(rows, r)
  {
    if rows != [] {
      var n := |rows| - 1;
      SumWhereDisjoint(rows[..n], p, q, r);
      SeqSumNonNegative(rows[n].values);
    }
  }

  lemma {:induction false} SeqSumNonNegative(xs: seq<int>)
    requires forall k :: 0 <= k < |xs| ==> xs[k] >= 0
    ensures SeqSum(xs) >= 0
  {
    if xs != [] {
      SeqSumNonNegative(xs[..|xs| - 1]);
    }
  }

  /** What `add_num_indels` writes for one file: `total_out`, `insertions` and `deletions`. */
  datatype Stats = Stats(totalOut: int, ins: int, dels: int)

  /**
    The statistics of one counts file, keyed by its first column name: every simple row
    (single-edit outcomes, SNVs and "no variant") counts towards `total_out`; a file without
    columns has no first column name.
   */
  function StatsOf(file: CountsFile): Result<(string, Stats)> {
    if file.columns == [] then Failure(IndexError)
    else Success((file.columns[0], Stats(SumWhere(file.rows, IsSimple), SumWhere(file.rows, IsInsertion), SumWhere(file.rows, IsDeletion))))
  }

  /** With non-negative counts, the insertions and deletions of a file are part of its `total_out`. */
  lemma StatsBound(file: CountsFile)
    requires forall i, k :: 0 <= i < |file.rows| && 0 <= k < |file.rows[i].values| ==> file.rows[i].values[k] >= 0
    requires StatsOf(file).Success?
    ensures var st := StatsOf(file).value.1; 0 <= st.ins && 0 <= st.dels && st.ins + st.dels <= st.totalOut
  {
    forall c ensures !(IsInsertion(c) && IsDeletion(c)) && (IsInsertion(c) ==> IsSimple(c)) && (IsDeletion(c) ==> IsSimple(c)) {
      ClassesDisjoint(c);
    }
    SumWhereDisjoint(file.rows, IsInsertion, IsDeletion, IsSimple);
    SumWhereNonNegative(file.rows, IsInsertion);
    SumWhereNonNegative(file.rows, IsDeletion);
  }

  lemma {:induction false} SumWhereNonNegative(rows: seq<OutcomeRow>, p: string -> bool)
    requires forall i, k :: 0 <= i < |rows| && 0 <= k < |rows[i].values| ==> rows[i].values[k] >= 0
    ensures SumWhere(rows, p) >= 0
  {
    if rows != [] {
      SumWhereNonNegative(rows[..|rows| - 1], p);
      SeqSumNonNegative(rows[|rows| - 1].values);
    }
  }

  /**
    The per-file part of `add_num_indels`: classify the rows, then sum the simple rows (those
    whose outcome is not among the complex ones), the insertion rows and the deletion rows.
   */
  method FileStats(file: CountsFile) returns (r: Result<(string, Stats)>)
    ensures r == StatsOf(file)
  {
    var cigars := Cigars(file.rows);
    var ins, dels, complex := ClassifyRows(cigars);
    IndicesWhereSpec(cigars, IsComplex);
    var complexRows := set j | j in complex :: cigars[j];
    forall i | 0 <= i < |file.rows| ensures file.rows[i].cigar in complexRows <==> IsComplex(file.rows[i].cigar) {
      if IsComplex(cigars[i]) {
        assert i in complex;
      }
      if cigars[i] in complexRows {
        var j :| j in complex && cigars[j] == cigars[i];
      }
    }
    var sim := SimpleRows(file.rows, complexRows);
    SimpleRowsSum(file.rows, complexRows);
    SumAtIndices(file.rows, IsInsertion);
    SumAtIndices(file.rows, IsDeletion);
    var totalOut := SumWhere(sim, _ => true);
    var insSum := SumAt(file.rows, ins);
    var delSum := SumAt(file.rows, dels);
    if file.columns == [] {
      return Failure(IndexError);
    }
    r := Success((file.columns[0], Stats(totalOut, insSum, delSum)));
  }

  /** `counts[~counts.index.isin(labels)]`: the rows whose outcome is not one of `labels`. */
  function SimpleRows(rows: seq<OutcomeRow>, labels: set<string>): seq<OutcomeRow> {
    if rows == [] then []
    else
      var n := |rows| - 1;
      if rows[n].cigar in labels then SimpleRows(rows[..n], labels) else SimpleRows(rows[..n], labels) + [rows[n]]
  }

  /** Dropping the rows labelled complex leaves exactly the simple rows' counts. */
  lemma {:induction false} SimpleRowsSum(rows: seq<OutcomeRow>, labels: set<string>)
    requires forall i :: 0 <= i < |rows| ==> (rows[i].cigar in labels <==> IsComplex(rows[i].cigar))
    ensures SumWhere(SimpleRows(rows, labels), _ => true) == SumWhere(rows, IsSimple)
  {
    if rows != [] {
      var n := |rows| - 1;
      SimpleRowsSum(rows[..n], labels);
      var pre := SimpleRows(rows[..n], labels);
      if rows[n].cigar !in labels {
        var post := pre + [rows[n]];
        assert post[..|post| - 1] == pre;
      }
    }
  }

  // ---------------------------------------------------------------------------------------------
  // add_num_indels: the final table

  /**
    A row of the final table. The three added columns start as NaN (`None`) and are filled from
    the counts file whose first column name occurs in the row's `bams`.
   */
  datatype FinalRow = FinalRow(
    number: int, genename: string, refseq: Option<string>, bams: string,
    insertions: Option<int>, deletions: Option<int>, totalOut: Option<int>)

  /** The listing position of the file that is never read. */
  const SkippedFile: nat := 822

  /** `for col in ['insertions', 'deletions', 'total_out']: df[col] = np.nan` on one row. */
  function Cleared(row: FinalRow): FinalRow {
    row.(insertions := None, deletions := None, totalOut := None)
  }

  /** The `df.loc[df_index, ...]` writes of one file on one row. */
  function Apply(row: FinalRow, bam: string, st: Stats): FinalRow {
    if Contains(row.bams, bam) then row.(totalOut := Some(st.totalOut), insertions := Some(st.ins), deletions := Some(st.dels))
    else row
  }

  /** One row after the files' statistics are applied in order: the last matching file wins. */
  function Final(row: FinalRow, done: seq<(string, Stats)>): FinalRow {
    if done == [] then row
    else
      var n := |done| - 1;
      Apply(Final(row, done[..n]), done[n].0, done[n].1)
  }

  /** The statistics of the files read, in listing order, without the skipped position. */
  function ReadStats(files: seq<CountsFile>): Result<seq<(string, Stats)>> {
    if files == [] then Success([])
    else
      var n := |files| - 1;
      match ReadStats(files[..n])
      case Failure(e) => Failure(e)
      case Success(done) =>
        if n == SkippedFile then Success(done)
        else match StatsOf(files[n])
          case Failure(e) => Failure(e)
          case Success(st) => Success(done + [st])
  }

  /**
    `add_num_indels` with the listing of the counts directory passed in: every file but the
    skipped one is classified, and the rows whose `bams` mention its first column get its totals.
   */
  method AddNumIndels(df: seq<FinalRow>, files: seq<CountsFile>) returns (r: Result<seq<FinalRow>>)
    ensures ReadStats(files).Failure? <==> r.Failure?
    ensures r.Failure? ==> r.error == ReadStats(files).error
    ensures r.Success? ==>
      && |r.value| == |df|
      && forall i :: 0 <= i < |df| ==> r.value[i] == Final(Cleared(df[i]), ReadStats(files).value)
  {
    var rows := seq(|df|, i requires 0 <= i < |df| => Cleared(df[i]));
    ghost var done: seq<(string, Stats)> := [];
    for fileNum := 0 to |files|
      invariant ReadStats(files[..fileNum]) == Success(done)
      invariant |rows| == |df| && forall i :: 0 <= i < |df| ==> rows[i] == Final(Cleared(df[i]), done)
    {
      assert files[..fileNum + 1][..fileNum] == files[..fileNum];
      if fileNum != SkippedFile {
        var st := FileStats(files[fileNum]);
        if st.Failure? {
          ReadStatsStops(files, fileNum + 1);
          return Failure(st.error);
        }
        var bam, stats := st.value.0, st.value.1;
        rows := seq(|rows|, i requires 0 <= i < |rows| => Apply(rows[i], bam, stats));
        done := done + [(bam, stats)];
        assert forall i :: 0 <= i < |df| ==> rows[i] == Final(Cleared(df[i]), done) by {
          assert done[..|done| - 1] == done[..|done| - 1];
        }
      }
    }
    assert files[..|files|] == files;
    r := Success(rows);
  }

  /** Once a prefix of the files fails, reading all of them fails with the same error. */
  lemma {:induction false} ReadStatsStops(files: seq<CountsFile>, k: nat)
    requires k <= |files| && ReadStats(files[..k]).Failure?
    ensures ReadStats(files) == ReadStats(files[..k])
    decreases |files| - k
  {
    if k < |files| {
      assert files[..k + 1][..k] == files[..k];
      ReadStatsStops(files, k + 1);
    } else {
      assert files[..k] == files;
    }
  }

  /** A row that no file's first column matches keeps NaN in all three columns. */
  lemma {:induction false} FinalUnmatched(row: FinalRow, done: seq<(string, Stats)>)
    requires forall k :: 0 <= k < |done| ==> !Contains(row.bams, done[k].0)
    ensures Final(Cleared(row), done) == Cleared(row)
  {
    if done != [] {
      FinalUnmatched(row, done[..|done| - 1]);
    }
  }

  /**
    A row matched by some file ends with the totals of the last file that matches it, and with the
    insertions and deletions within `total_out` when the counts are non-negative.
   */
  lemma {:induction false} FinalLastMatch(row: FinalRow, done: seq<(string, Stats)>, k: nat)
    requires k < |done| && Contains(row.bams, done[k].0)
    requires forall j :: k < j < |done| ==> !Contains(row.bams, done[j].0)
    ensures var f := Final(Cleared(row), done);
      f == row.(totalOut := Some(done[k].1.totalOut), insertions := Some(done[k].1.ins), deletions := Some(done[k].1.dels))
  {
    var n := |done| - 1;
    FinalOthers(Cleared(row), done[..n]);
    if k < n {
      FinalLastMatch(row, done[..n], k);
    }
  }

  /** Applying statistics changes only the three added columns. */
  lemma {:induction false} FinalOthers(row: FinalRow, done: seq<(string, Stats)>)
    ensures var f := Final(row, done);
      f.number == row.number && f.genename == row.genename && f.refseq == row.refseq && f.bams == row.bams
  {
    if done != [] {
      FinalOthers(row, done[..|done| - 1]);
    }
  }

  // ---------------------------------------------------------------------------------------------
  // get_refseq_dups

  /**
    `df[df['refseq'] == refseq]['genename']` as a set, for row i's refseq; NaN equals nothing, so
    a row without refseq gives the empty set.
   */
  function GroupOf(rows: seq<FinalRow>, i: nat): set<string>
    requires i < |rows|
  {
    set j | 0 <= j < |rows| && rows[j].refseq.Some? && rows[j].refseq == rows[i].refseq :: rows[j].genename
  }

  /** The groups the first loop collects from rows 0 .. n - 1: every one whose size is not 1. */
  function DupGroups(rows: seq<FinalRow>, n: nat): seq<set<string>>
    requires n <= |rows|
  {
    if n == 0 then []
    else if |GroupOf(rows, n - 1)| != 1 then DupGroups(rows, n - 1) + [GroupOf(rows, n - 1)]
    else DupGroups(rows, n - 1)
  }

  /**
    `get_refseq_dups` on the final table. A group is kept as a set of names: the order in which
    Python lists it is fixed later, as a parameter of the key-table construction.
   */
  method GetRefseqDups(rows: seq<FinalRow>) returns (groups: seq<set<string>>)
    ensures groups == Dedup(DupGroups(rows, |rows|))
  {
    var dups: seq<set<string>> := [];
    for i := 0 to |rows|
      invariant dups == DupGroups(rows, i)
    {
      var names := GroupOf(rows, i);
      if |names| != 1 {
        dups := dups + [names];
      }
    }
    groups := [];
    for k := 0 to |dups|
      invariant groups == Dedup(dups[..k])
    {
      assert dups[..k + 1][..k] == dups[..k];
      if dups[k] !in groups {
        groups := groups + [dups[k]];
      }
    }
    assert dups[..|dups|] == dups;
  }

  /** Each collected group is some row's group and is not a single name. */
  lemma {:induction false} DupGroupsSpec(rows: seq<FinalRow>, n: nat)
    requires n <= |rows|
    ensures forall g :: g in DupGroups(rows, n) ==> |g| != 1 && exists i :: 0 <= i < n && g == GroupOf(rows, i)
    ensures forall i :: 0 <= i < n && |GroupOf(rows, i)| != 1 ==> GroupOf(rows, i) in DupGroups(rows, n)
  {
    if n > 0 {
      DupGroupsSpec(rows, n - 1);
    }
  }

  /**
    The refseq duplicate groups: no group twice; each holds at least two names sharing one refseq,
    except the empty group that a row without refseq contributes; and every refseq shared by two
    different names is among them.
   */
  lemma RefseqDupsSpec(rows: seq<FinalRow>)
    ensures var groups := Dedup(DupGroups(rows, |rows|));
      && Distinct(groups)
      && (forall g :: g in groups ==> exists i :: 0 <= i < |rows| && g == GroupOf(rows, i))
      && (forall g :: g in groups ==> |g| >= 2 || (g == {} && exists i :: 0 <= i < |rows| && rows[i].refseq.None?))
      && (forall i, j ::
            (0 <= i < |rows| && 0 <= j < |rows| && rows[i].refseq.Some? && rows[j].refseq == rows[i].refseq &&
             rows[i].genename != rows[j].genename) ==> GroupOf(rows, i) in groups)
  {
    var dups := DupGroups(rows, |rows|);
    DupGroupsSpec(rows, |rows|);
    DedupSpec(dups);
    forall g | g in dups ensures |g| >= 2 || (g == {} && exists i :: 0 <= i < |rows| && rows[i].refseq.None?) {
      var i :| 0 <= i < |rows| && g == GroupOf(rows, i);
      GroupShape(rows, i);
    }
    forall i, j | 0 <= i < |rows| && 0 <= j < |rows| && rows[i].refseq.Some? && rows[j].refseq == rows[i].refseq &&
        rows[i].genename != rows[j].genename
      ensures GroupOf(rows, i) in dups
    {
      SharedGroup(rows, i, j);
    }
  }

  /** A row with a refseq is in its own group; a row without one has the empty group. */
  lemma GroupShape(rows: seq<FinalRow>, i: nat)
    requires i < |rows|
    ensures rows[i].refseq.Some? ==> rows[i].genename in GroupOf(rows, i)
    ensures rows[i].refseq.None? ==> GroupOf(rows, i) == {}
  {
  }

  /** Two names sharing a refseq make a group of at least two. */
  lemma SharedGroup(rows: seq<FinalRow>, i: nat, j: nat)
    requires i < |rows| && j < |rows| && rows[i].refseq.Some? && rows[j].refseq == rows[i].refseq
    requires rows[i].genename != rows[j].genename
    ensures |GroupOf(rows, i)| >= 2
  {
    var g := GroupOf(rows, i);
    assert rows[i].genename in g && rows[j].genename in g;
    assert |{rows[i].genename, rows[j].genename}| == 2;
    SubsetCard({rows[i].genename, rows[j].genename}, g);
  }

  lemma SubsetCard<T>(a: set<T>, b: set<T>)
    requires a <= b
    ensures |a| <= |b|
  {
    assert b == a + (b - a);
  }

  // ---------------------------------------------------------------------------------------------
  // create_key_df

  /** A row of the key table; `idEnding` is the list written out with `str(list)`. */
  datatype KeyRow = KeyRow(genename: string, refseq: Option<string>, idEnding: seq<string>)

  function UpperOpt(s: Option<string>): Option<string> {
    if s.Some? then Some(Upper(s.value)) else None
  }

  /** `df[['genename', 'refseq']]` with the refseq upper-cased, then `drop_duplicates()`. */
  function KeyPairs(df: seq<FinalRow>): seq<(string, Option<string>)> {
    Dedup(seq(|df|, i requires 0 <= i < |df| => (df[i].genename, UpperOpt(df[i].refseq))))
  }

  /** `['-' + str(x) for x in df[df['genename'] == g]['Number']]`, in row order. */
  function Endings(df: seq<FinalRow>, g: string): seq<string> {
    if df == [] then []
    else
      var n := |df| - 1;
      if df[n].genename == g then Endings(df[..n], g) + ["-" + IntToString(df[n].number)] else Endings(df[..n], g)
  }

  /** One ending per row of the gene, in row order. */
  lemma {:induction false} EndingsSpec(df: seq<FinalRow>, g: string)
    ensures |Endings(df, g)| == |IndicesWhereName(df, g)|
    ensures forall k :: 0 <= k < |Endings(df, g)| ==>
      IndicesWhereName(df, g)[k] < |df| && Endings(df, g)[k] == "-" + IntToString(df[IndicesWhereName(df, g)[k]].number)
  {
    if df != [] {
      var n := |df| - 1;
      EndingsSpec(df[..n], g);
      IndicesNameBounded(df[..n], g);
    }
  }

  /** The positions of the rows of gene g. */
  function IndicesWhereName(df: seq<FinalRow>, g: string): seq<nat> {
    if df == [] then []
    else
      var n := |df| - 1;
      if df[n].genename == g then IndicesWhereName(df[..n], g) + [n] else IndicesWhereName(df[..n], g)
  }

  lemma {:induction false} IndicesNameBounded(df: seq<FinalRow>, g: string)
    ensures forall k :: 0 <= k < |IndicesWhereName(df, g)| ==>
      IndicesWhereName(df, g)[k] < |df| && df[IndicesWhereName(df, g)[k]].genename == g
    ensures forall i :: 0 <= i < |df| && df[i].genename == g ==> i in IndicesWhereName(df, g)
  {
    if df != [] {
      IndicesNameBounded(df[..|df| - 1], g);
    }
  }

  /** The first loop of `create_key_df`: each key row gets the endings of its gene's rows. */
  method KeyTable(df: seq<FinalRow>) returns (keys: seq<KeyRow>)
    ensures |keys| == |KeyPairs(df)|
    ensures forall i :: 0 <= i < |keys| ==>
      keys[i] == KeyRow(KeyPairs(df)[i].0, KeyPairs(df)[i].1, Endings(df, KeyPairs(df)[i].0))
  {
    var pairs := KeyPairs(df);
    keys := [];
    for i := 0 to |pairs|
      invariant |keys| == i
      invariant forall k :: 0 <= k < i ==> keys[k] == KeyRow(pairs[k].0, pairs[k].1, Endings(df, pairs[k].0))
    {
      keys := keys + [KeyRow(pairs[i].0, pairs[i].1, Endings(df, pairs[i].0))];
    }
  }

  /** `min(dup_lst, key=len)`: the first of the shortest names in the listing. */
  function Shortest(names: seq<string>): (b: string)
    requires |names| > 0
    ensures b in names && forall k :: 0 <= k < |names| ==> |b| <= |names[k]|
  {
    if |names| == 1 then names[0]
    else
      var rest := Shortest(names[1..]);
      assert forall k :: 1 <= k < |names| ==> names[k] == names[1..][k - 1];
      if |rest| < |names[0]| then rest else names[0]
  }

  /** Ties go to the earliest name: no name before the base is as short. */
  lemma {:induction false} ShortestFirst(names: seq<string>, k: nat)
    requires k < |names| && names[k] == Shortest(names)
    requires forall j :: 0 <= j < k ==> names[j] != names[k]
    ensures forall j :: 0 <= j < k ==> |names[j]| > |names[k]|
  {
    if k > 0 {
      assert Shortest(names) != names[0];
      assert names[1..][k - 1] == names[k];
      forall j | 0 <= j < k - 1 ensures names[1..][j] != names[1..][k - 1] {
        assert names[1..][j] == names[j + 1];
      }
      ShortestFirst(names[1..], k - 1);
      forall j | 1 <= j < k ensures |names[j]| > |names[k]| {
        assert names[j] == names[1..][j - 1];
      }
    }
  }

  /** The first key row of gene g, if any (`key_df.loc[key_df['genename'] == g].tolist()[0]`). */
  function FirstRow(table: seq<KeyRow>, g: string): (r: Option<nat>)
    ensures r.Some? ==> r.value < |table| && table[r.value].genename == g
  {
    if table == [] then None
    else if table[0].genename == g then Some(0)
    else match FirstRow(table[1..], g)
      case None => None
      case Some(j) => Some(j + 1)
  }

  /** FirstRow finds the first row of g, and finds none exactly when g has no row. */
  lemma {:induction false} FirstRowSpec(table: seq<KeyRow>, g: string)
    ensures var r := FirstRow(table, g);
      && (r.Some? ==> forall j :: 0 <= j < r.value ==> table[j].genename != g)
      && (r.None? <==> forall j :: 0 <= j < |table| ==> table[j].genename != g)
  {
    if table != [] && table[0].genename != g {
      FirstRowSpec(table[1..], g);
      forall j | 1 <= j < |table| ensures table[j].genename == table[1..][j - 1].genename { }
    }
  }

  /** `key_df[key_df['genename'] != g]` */
  function Without(table: seq<KeyRow>, g: string): seq<KeyRow> {
    if table == [] then []
    else
      var n := |table| - 1;
      if table[n].genename == g then Without(table[..n], g) else Without(table[..n], g) + [table[n]]
  }

  /** Without keeps exactly the rows of the other genes. */
  lemma {:induction false} WithoutSpec(table: seq<KeyRow>, g: string)
    ensures forall row :: row in Without(table, g) <==> row in table && row.genename != g
  {
    if table != [] {
      var n := |table| - 1;
      WithoutSpec(table[..n], g);
      assert table == table[..n] + [table[n]];
    }
  }

  /** `key_df.loc[key_df['genename'] == g, 'id_ending'] = str(endings)` */
  function SetEndings(table: seq<KeyRow>, g: string, endings: seq<string>): (r: seq<KeyRow>)
    ensures |r| == |table|
  {
    seq(|table|, j requires 0 <= j < |table| => if table[j].genename == g then table[j].(idEnding := endings) else table[j])
  }

  /** `[extra + end for end in id_end]` */
  function Prefixed(extra: string, ends: seq<string>): (r: seq<string>)
    ensures |r| == |ends| && forall k :: 0 <= k < |ends| ==> r[k] == extra + ends[k]
  {
    seq(|ends|, k requires 0 <= k < |ends| => extra + ends[k])
  }

  /**
    The inner loop over the first n members of a group: each member's endings, prefixed with the
    member's name less the base, are collected, and its rows are removed unless that prefix is
    empty. A member without a key row left is an IndexError.
   */
  function Collect(table: seq<KeyRow>, names: seq<string>, base: string, n: nat): Result<(seq<KeyRow>, seq<string>)>
    requires n <= |names|
  {
    if n == 0 then Success((table, []))
    else
      match Collect(table, names, base, n - 1)
      case Failure(e) => Failure(e)
      case Success(acc) => Absorb(acc.0, acc.1, names[n - 1], base)
  }

  /** One member of the group: its endings collected, its rows removed when its prefix is non-empty. */
  function Absorb(t: seq<KeyRow>, endings: seq<string>, name: string, base: string): Result<(seq<KeyRow>, seq<string>)> {
    var extra := Remove(name, base);
    match FirstRow(t, name)
    case None => Failure(IndexError)
    case Some(j) =>
      var endings' := endings + Prefixed(extra, t[j].idEnding);
      if extra != "" then Success((Without(t, name), endings')) else Success((t, endings'))
  }

  /** Absorbing a member keeps only rows that were there, and leaves none of it when its prefix is non-empty. */
  lemma AbsorbRows(t: seq<KeyRow>, endings: seq<string>, name: string, base: string)
    requires Absorb(t, endings, name, base).Success?
    ensures forall row :: row in Absorb(t, endings, name, base).value.0 ==>
      row in t && (Remove(name, base) != "" ==> row.genename != name)
    ensures forall row :: row in t && row.genename != name ==> row in Absorb(t, endings, name, base).value.0
  {
    WithoutSpec(t, name);
  }

  /**
    One pass of the loop over the duplicate groups, with the group listed in Python's set order:
    the members' endings are merged onto the rows of the shortest name.
   */
  function CollapseGroup(table: seq<KeyRow>, names: seq<string>): Result<seq<KeyRow>> {
    if names == [] then Failure(ValueError)
    else
      var base := Shortest(names);
      match Collect(table, names, base, |names|)
      case Failure(e) => Failure(e)
      case Success(acc) => Success(SetEndings(acc.0, base, acc.1))
  }

  /** The groups collapsed one after another. */
  function CollapseAll(table: seq<KeyRow>, lists: seq<seq<string>>): Result<seq<KeyRow>> {
    if lists == [] then Success(table)
    else
      match CollapseAll(table, lists[..|lists| - 1])
      case Failure(e) => Failure(e)
      case Success(t) => CollapseGroup(t, lists[|lists| - 1])
  }

  /**
    `create_key_df`: the key table of distinct (gene name, upper-cased refseq) pairs with each
    gene's endings, then every duplicate group collapsed onto its base name. `lists` gives each
    group in the order Python iterates its set.
   */
  /** `lists[k]` lists the names of `groups[k]`, each once: Python's iteration order of the set. */
  ghost predicate Lists(lists: seq<seq<string>>, groups: seq<set<string>>) {
    |lists| == |groups| && forall k :: 0 <= k < |lists| ==> Distinct(lists[k]) && (forall x :: x in lists[k] <==> x in groups[k])
  }

  method CreateKeyDf(df: seq<FinalRow>, lists: seq<seq<string>>) returns (r: Result<seq<KeyRow>>)
    requires Lists(lists, Dedup(DupGroups(df, |df|)))
    ensures var keys := seq(|KeyPairs(df)|, i requires 0 <= i < |KeyPairs(df)| =>
        KeyRow(KeyPairs(df)[i].0, KeyPairs(df)[i].1, Endings(df, KeyPairs(df)[i].0)));
      r == CollapseAll(keys, lists)
  {
    var keys := KeyTable(df);
    assert keys == seq(|KeyPairs(df)|, i requires 0 <= i < |KeyPairs(df)| =>
      KeyRow(KeyPairs(df)[i].0, KeyPairs(df)[i].1, Endings(df, KeyPairs(df)[i].0)));
    var table := keys;
    for k := 0 to |lists|
      invariant CollapseAll(keys, lists[..k]) == Success(table)
    {
      assert lists[..k + 1][..k] == lists[..k];
      var step := CollapseGroupLoop(table, lists[k]);
      if step.Failure? {
        CollapseAllStops(keys, lists, k + 1);
        return Failure(step.error);
      }
      table := step.value;
    }
    assert lists[..|lists|] == lists;
    r := Success(table);
  }

  lemma {:induction false} CollapseAllStops(table: seq<KeyRow>, lists: seq<seq<string>>, k: nat)
    requires k <= |lists| && CollapseAll(table, lists[..k]).Failure?
    ensures CollapseAll(table, lists) == CollapseAll(table, lists[..k])
    decreases |lists| - k
  {
    if k < |lists| {
      assert lists[..k + 1][..k] == lists[..k];
      CollapseAllStops(table, lists, k + 1);
    } else {
      assert lists[..k] == lists;
    }
  }

  /** The body of the loop over the groups, with its inner loop over the members. */
  method CollapseGroupLoop(table: seq<KeyRow>, names: seq<string>) returns (r: Result<seq<KeyRow>>)
    ensures r == CollapseGroup(table, names)
  {
    if names == [] {
      return Failure(ValueError);
    }
    var base := Shortest(names);
    var t := table;
    var endings: seq<string> := [];
    for n := 0 to |names|
      invariant Collect(table, names, base, n) == Success((t, endings))
    {
      CollectExtend(table, names, base, n);
      var name := names[n];
      var extra := Remove(name, base);
      var j := FirstRow(t, name);
      if j.None? {
        CollectStops(table, names, base, n + 1);
        return Failure(IndexError);
      }
      endings := endings + Prefixed(extra, t[j.value].idEnding);
      if extra != "" {
        t := Without(t, name);
      }
    }
    r := Success(SetEndings(t, base, endings));
  }

  lemma {:induction false} CollectStops(table: seq<KeyRow>, names: seq<string>, base: string, n: nat)
    requires n <= |names| && Collect(table, names, base, n).Failure?
    ensures Collect(table, names, base, |names|) == Collect(table, names, base, n)
    decreases |names| - n
  {
    if n < |names| {
      CollectStops(table, names, base, n + 1);
    }
  }

  /**
    A member named as the base plus a suffix that does not contain the base keeps that suffix as
    its prefix, so the base name followed by a prefixed ending rebuilds the member's own file name.
   */
  lemma RebuildName(base: string, suffix: string, ending: string)
    requires |base| > 0 && Lacks(suffix, base)
    ensures Remove(base + suffix, base) == suffix
    ensures base + (Remove(base + suffix, base) + ending) + ".txt" == (base + suffix) + ending + ".txt"
  {
    var s := base + suffix;
    assert s[..|base|] == base && s[|base|..] == suffix;
    RemoveAbsent(suffix, base);
  }

  /** The base is found in the table after the collapse exactly where it was before, with the collected endings. */
  lemma {:induction false} CollectKeepsOthers(table: seq<KeyRow>, names: seq<string>, base: string, n: nat, g: string)
    requires n <= |names| && Collect(table, names, base, n).Success?
    requires forall k :: 0 <= k < n ==> names[k] != g
    ensures forall row :: row in table && row.genename == g ==> row in Collect(table, names, base, n).value.0
    ensures forall row :: row in Collect(table, names, base, n).value.0 ==> row in table
  {
    if n > 0 {
      CollectNext(table, names, base, n);
      CollectKeepsOthers(table, names, base, n - 1, g);
      var acc := Collect(table, names, base, n - 1).value;
      AbsorbRows(acc.0, acc.1, names[n - 1], base);
    }
  }

  /**
    After a collapse: the base name's rows hold the collected endings; no member whose prefix is
    non-empty has a row left; and every row of a gene outside the group is kept as it was.
   */
  lemma CollapseGroupSpec(table: seq<KeyRow>, names: seq<string>)
    requires CollapseGroup(table, names).Success?
    ensures var base := Shortest(names);
      var r := CollapseGroup(table, names).value;
      var acc := Collect(table, names, base, |names|).value;
      && (forall j :: 0 <= j < |r| && r[j].genename == base ==> r[j].idEnding == acc.1)
      && (forall j :: 0 <= j < |r| ==> r[j].genename !in names || r[j].genename == base || Remove(r[j].genename, base) == "")
      && (forall row :: row in table && row.genename !in names ==> row in r)
  {
    var base := Shortest(names);
    var acc := Collect(table, names, base, |names|).value;
    var r := CollapseGroup(table, names).value;
    CollectRemoves(table, names, base, |names|);
    forall k | 0 <= k < |names| ensures Gone(acc.0, names[k], base) { }
    forall row | row in table && row.genename !in names ensures row in r {
      CollectKeepsOthers(table, names, base, |names|, row.genename);
      var j :| 0 <= j < |acc.0| && acc.0[j] == row;
      assert r[j] == row;
    }
    forall j | 0 <= j < |r| ensures r[j].genename !in names || r[j].genename == base || Remove(r[j].genename, base) == "" {
      assert r[j].genename == acc.0[j].genename;
    }
  }

  /** No row of `name` is left in t when its prefix is non-empty. */
  ghost predicate Gone(t: seq<KeyRow>, name: string, base: string) {
    Remove(name, base) != "" ==> forall row :: row in t ==> row.genename != name
  }

  /** After the first n members, no row is left of a member with a non-empty prefix. */
  lemma {:induction false} CollectRemoves(table: seq<KeyRow>, names: seq<string>, base: string, n: nat)
    requires n <= |names| && Collect(table, names, base, n).Success?
    ensures forall k :: 0 <= k < n ==> Gone(Collect(table, names, base, n).value.0, names[k], base)
  {
    if n > 0 {
      CollectNext(table, names, base, n);
      CollectRemoves(table, names, base, n - 1);
      var acc := Collect(table, names, base, n - 1).value;
      AbsorbGone(acc.0, acc.1, names, base, n);
    }
  }

  /** Absorbing the n-th member keeps the earlier members gone and makes it gone too. */
  lemma AbsorbGone(t: seq<KeyRow>, endings: seq<string>, names: seq<string>, base: string, n: nat)
    requires 0 < n <= |names| && Absorb(t, endings, names[n - 1], base).Success?
    requires forall k :: 0 <= k < n - 1 ==> Gone(t, names[k], base)
    ensures forall k :: 0 <= k < n ==> Gone(Absorb(t, endings, names[n - 1], base).value.0, names[k], base)
  {
    var t' := Absorb(t, endings, names[n - 1], base).value.0;
    AbsorbRows(t, endings, names[n - 1], base);
    forall k | 0 <= k < n ensures Gone(t', names[k], base) {
      if k < n - 1 {
        assert Gone(t, names[k], base);
      }
    }
  }

  lemma CollectExtend(table: seq<KeyRow>, names: seq<string>, base: string, n: nat)
    requires n < |names| && Collect(table, names, base, n).Success?
    ensures var acc := Collect(table, names, base, n).value;
      Collect(table, names, base, n + 1) == Absorb(acc.0, acc.1, names[n], base)
  {
  }

  /** A successful collection of n members extends the one of the first n - 1 by the n-th. */
  lemma CollectNext(table: seq<KeyRow>, names: seq<string>, base: string, n: nat)
    requires 0 < n <= |names| && Collect(table, names, base, n).Success?
    ensures Collect(table, names, base, n - 1).Success?
    ensures var acc := Collect(table, names, base, n - 1).value;
      Collect(table, names, base, n) == Absorb(acc.0, acc.1, names[n - 1], base)
  {
  }

  // ---------------------------------------------------------------------------------------------
  // get_indels_and_totalout

  /** numpy's `.sum()` of a column that may hold NaN: NaN as soon as one value is. */
  function OptAdd(a: Option<int>, b: Option<int>): Option<int> {
    if a.Some? && b.Some? then Some(a.value + b.value) else None
  }

  /** The sums of the three columns over the rows of gene g. */
  function GeneSums(df: seq<FinalRow>, g: string): (Option<int>, Option<int>, Option<int>) {
    if df == [] then (Some(0), Some(0), Some(0))
    else
      var n := |df| - 1;
      var s := GeneSums(df[..n], g);
      if df[n].genename == g then (OptAdd(s.0, df[n].insertions), OptAdd(s.1, df[n].deletions), OptAdd(s.2, df[n].totalOut))
      else s
  }

  /** The columns `get_indels_and_totalout` writes for one key row. */
  datatype GeneTotals = GeneTotals(insertions: Option<int>, deletions: Option<int>, totalOut: Option<int>, delfreq: Option<real>)

  /** `df['deletions'] / (df['deletions'] + df['insertions'])`, NaN when either is NaN. */
  function DelFreq(ins: Option<int>, dels: Option<int>): Option<real> {
    if ins.Some? && dels.Some? then Div(dels.value, dels.value + ins.value) else None
  }

  /** `get_indels_and_totalout`: per key row, the sums over the final rows of its gene. */
  method GetIndelsAndTotalOut(keys: seq<KeyRow>, df: seq<FinalRow>) returns (cols: seq<GeneTotals>)
    ensures |cols| == |keys|
    ensures forall i :: 0 <= i < |keys| ==>
      var s := GeneSums(df, keys[i].genename);
      cols[i] == GeneTotals(s.0, s.1, s.2, DelFreq(s.0, s.1))
  {
    var sums: seq<(Option<int>, Option<int>, Option<int>)> := [];
    for i := 0 to |keys|
      invariant |sums| == i && forall k :: 0 <= k < i ==> sums[k] == GeneSums(df, keys[k].genename)
    {
      sums := sums + [GeneSums(df, keys[i].genename)];
    }
    cols := seq(|sums|, i requires 0 <= i < |sums| => GeneTotals(sums[i].0, sums[i].1, sums[i].2, DelFreq(sums[i].0, sums[i].1)));
  }

  /** A final row whose three columns are filled, with its insertions and deletions within `total_out`. */
  predicate Bounded(row: FinalRow) {
    && row.insertions.Some? && row.deletions.Some? && row.totalOut.Some?
    && 0 <= row.insertions.value && 0 <= row.deletions.value
    && row.insertions.value + row.deletions.value <= row.totalOut.value
  }

  /**
    When every row of the final table is filled and bounded (as the per-file statistics are for
    non-negative counts), each gene's sums are numbers, its insertions and deletions stay within
    its `total_out`, and its deletion frequency lies in [0, 1] or is NaN for a gene without indels.
   */
  lemma {:induction false} GeneSumsBounded(df: seq<FinalRow>, g: string)
    requires forall i :: 0 <= i < |df| ==> Bounded(df[i])
    ensures var s := GeneSums(df, g);
      && s.0.Some? && s.1.Some? && s.2.Some?
      && 0 <= s.0.value && 0 <= s.1.value && s.0.value + s.1.value <= s.2.value
      && (DelFreq(s.0, s.1).None? <==> s.0.value + s.1.value == 0)
      && (DelFreq(s.0, s.1).Some? ==> 0.0 <= DelFreq(s.0, s.1).value <= 1.0)
  {
    if df != [] {
      GeneSumsBounded(df[..|df| - 1], g);
    }
    var s := GeneSums(df, g);
    if s.0.value + s.1.value > 0 {
      DivBounds(s.1.value, s.1.value + s.0.value);
    }
  }

  /** Every row's statistics come from a file, so, for non-negative counts, they are bounded. */
  lemma FinalBounded(row: FinalRow, done: seq<(string, Stats)>, k: nat)
    requires k < |done| && Contains(row.bams, done[k].0)
    requires forall j :: k < j < |done| ==> !Contains(row.bams, done[j].0)
    requires 0 <= done[k].1.ins && 0 <= done[k].1.dels && done[k].1.ins + done[k].1.dels <= done[k].1.totalOut
    ensures Bounded(Final(Cleared(row), done))
  {
    FinalLastMatch(row, done, k);
  }
}
