/**
  Reading FORECasT training data: centring a target sequence on the Cas9 cut site, its reverse
  complement, and folding the outcome files into a table oligo -> outcome -> count.
 */
module ReadForecastData {
  import opened Wrappers
  import opened PyStr
  import opened Sums

  function Min(a: int, b: int): int { if a <= b then a else b }
  function Max(a: int, b: int): int { if a <= b then b else a }

  // ---------------------------------------------------------------------------------------------
  // get_recenter_pam and reverse_complement

  /** Where a Python slice bound `x` lands in a string of length `n`: negative bounds count from the end. */
  function SliceBound(n: nat, x: int): (b: nat)
    ensures b <= n
    ensures 0 <= x <= n ==> b == x
  {
    if x < 0 then Max(0, x + n) else Min(x, n)
  }

  /** Python `s[i:j]` on a string, list or one-dimensional array. */
  function PySlice<T>(s: seq<T>, i: int, j: int): seq<T> {
    var lo, hi := SliceBound(|s|, i), SliceBound(|s|, j);
    if lo <= hi then s[lo..hi] else []
  }

  /** The cut site lies 3 nt upstream of the PAM on the forward strand, downstream otherwise. */
  function CutIndex(pamIndex: int, strand: string): int {
    if strand == "FORWARD" then pamIndex - 3 else pamIndex + 3
  }

  function Ns(n: nat): (r: string)
    ensures |r| == n && forall i :: 0 <= i < n ==> r[i] == 'N'
  {
    seq(n, _ => 'N')
  }

  /** `'N' * (f - len(x)) + x` when `x` is shorter than `f`. */
  function PadLeft(x: string, f: nat): string {
    if |x| < f then Ns(f - |x|) + x else x
  }

  /** `x + 'N' * (f - len(x))` when `x` is shorter than `f`. */
  function PadRight(x: string, f: nat): string {
    if |x| < f then x + Ns(f - |x|) else x
  }

  /** `get_recenter_pam`: `out_len // 2` bases on each side of the cut site, padded with N. */
  function RecenterPam(s: string, pamIndex: int, strand: string, outLen: nat): string {
    var f := outLen / 2;
    var cut := CutIndex(pamIndex, strand);
    PadLeft(PySlice(s, Max(0, cut - f), cut), f) + PadRight(PySlice(s, cut, Min(|s|, cut + f)), f)
  }

  /** The base at index `i` of `s`, or the padding base N when `i` lies outside `s`. */
  function BaseOrN(s: string, i: int): char {
    if 0 <= i < |s| then s[i] else 'N'
  }

  /**
    The window the recentring is meant to produce: position k holds the base at cut - f + k,
    N where that lies outside the sequence.
   */
  function CentredWindow(s: string, cut: int, f: nat): (r: string) {
    seq(2 * f, k requires 0 <= k < 2 * f => BaseOrN(s, cut - f + k))
  }

  /** The left half holds the `f` bases before a cut that lies inside the sequence. */
  lemma LeftHalf(s: string, cut: nat, f: nat)
    requires cut <= |s|
    ensures var l := PadLeft(PySlice(s, Max(0, cut - f), cut), f);
      |l| == f && forall k :: 0 <= k < f ==> l[k] == BaseOrN(s, cut - f + k)
  {
    var lo := Max(0, cut - f);
    var left := PySlice(s, lo, cut);
    assert left == s[lo..cut];
    var l := PadLeft(left, f);
    forall k | 0 <= k < f ensures l[k] == BaseOrN(s, cut - f + k) {
      if k >= f - |left| {
        assert l[k] == left[k - (f - |left|)];
      }
    }
  }

  /** The right half holds the `f` bases from any non-negative cut on. */
  lemma RightHalf(s: string, cut: nat, f: nat)
    ensures var r := PadRight(PySlice(s, cut, Min(|s|, cut + f)), f);
      |r| == f && forall k :: 0 <= k < f ==> r[k] == BaseOrN(s, cut + k)
  {
    var right := PySlice(s, cut, Min(|s|, cut + f));
    if cut <= |s| {
      assert right == s[cut..Min(|s|, cut + f)];
    } else {
      assert right == [];
    }
  }

  /**
    With the cut inside the sequence, the recentred sequence is the intended window, so each
    position keeps its offset from the cut.
   */
  lemma RecenterPamWindow(s: string, pamIndex: int, strand: string, outLen: nat)
    requires 0 <= CutIndex(pamIndex, strand) <= |s|
    ensures RecenterPam(s, pamIndex, strand, outLen) == CentredWindow(s, CutIndex(pamIndex, strand), outLen / 2)
  {
    var f, cut := outLen / 2, CutIndex(pamIndex, strand);
    var l := PadLeft(PySlice(s, Max(0, cut - f), cut), f);
    var r := PadRight(PySlice(s, cut, Min(|s|, cut + f)), f);
    LeftHalf(s, cut, f);
    RightHalf(s, cut, f);
    var w := CentredWindow(s, cut, f);
    forall k | 0 <= k < 2 * f ensures (l + r)[k] == w[k] {
      if k >= f {
        assert (l + r)[k] == r[k - f];
      }
    }
  }

  /** Away from both ends the window is the plain slice around the cut, with no N added. */
  lemma WindowInterior(s: string, cut: int, f: nat)
    requires cut >= f && cut + f <= |s|
    ensures CentredWindow(s, cut, f) == s[cut - f..cut + f]
  {
    var w, t := CentredWindow(s, cut, f), s[cut - f..cut + f];
    forall k | 0 <= k < 2 * f ensures w[k] == t[k] {
      assert t[k] == s[cut - f + k];
    }
  }

  /** Sequences of bases give windows of bases. */
  lemma WindowAlphabet(s: string, cut: int, f: nat)
    requires forall i :: 0 <= i < |s| ==> IsBase(s[i])
    ensures forall i :: 0 <= i < 2 * f ==> IsBase(CentredWindow(s, cut, f)[i])
  {
    forall i | 0 <= i < 2 * f ensures IsBase(CentredWindow(s, cut, f)[i]) {
      var j := cut - f + i;
      assert CentredWindow(s, cut, f)[i] == BaseOrN(s, j);
      if 0 <= j < |s| {
        assert IsBase(s[j]);
      }
    }
  }

  /**
    A cut past the end of the sequence does not keep positions: the left half is the tail of the
    sequence right-aligned against the cut ("NNT"), where the bases at cut - 3 .. cut - 1 are "TNN".
   */
  lemma RecenterPastEnd()
    ensures CutIndex(3, "REVERSE") == 6
    ensures RecenterPam("ACGT", 3, "REVERSE", 6) == "NNTNNN"
    ensures CentredWindow("ACGT", 6, 3) == "TNNNNN"
  {
    assert PySlice("ACGT", 3, 6) == "T";
    assert PySlice("ACGT", 6, 4) == "";
    assert Ns(2) == "NN" && Ns(3) == "NNN";
    assert CentredWindow("ACGT", 6, 3)[0] == 'T';
  }

  /**
    A forward PAM before index 3 gives a negative cut, which Python slicing counts from the end:
    the left half becomes nearly the whole sequence and the result is longer than `out_len`.
   */
  lemma RecenterNegativeCut()
    ensures CutIndex(2, "FORWARD") == -1
    ensures RecenterPam("ACGTACGT", 2, "FORWARD", 4) == "ACGTACGNN"
    ensures |RecenterPam("ACGTACGT", 2, "FORWARD", 4)| != 4
  {
    assert PySlice("ACGTACGT", 0, -1) == "ACGTACG";
    assert PySlice("ACGTACGT", -1, 1) == "";
    assert Ns(2) == "NN";
  }

  /** The worked example: a forward strand PAM at 6 cuts at 3, giving "AAA" + "CCC". */
  lemma RecenterExample()
    ensures RecenterPam("AAACCCGGGTTT", 6, "FORWARD", 6) == "AAACCC"
  {
    assert CutIndex(6, "FORWARD") == 3;
    RecenterPamWindow("AAACCCGGGTTT", 6, "FORWARD", 6);
    WindowInterior("AAACCCGGGTTT", 3, 3);
    assert "AAACCCGGGTTT"[0..6] == "AAACCC";
  }

  predicate IsBase(c: char) {
    c == 'A' || c == 'C' || c == 'G' || c == 'T' || c == 'N'
  }

  /** The complement map A<->T, C<->G, N<->N; any other character is missing from it. */
  function Complement(c: char): (r: Option<char>)
    ensures r.Some? <==> IsBase(c)
  {
    match c
    case 'A' => Some('T')
    case 'C' => Some('G')
    case 'G' => Some('C')
    case 'T' => Some('A')
    case 'N' => Some('N')
    case _ => None
  }

  /** The reverse complement; `None` stands for the KeyError a character outside ACGTN raises. */
  function ReverseComplement(s: string): (r: Option<string>)
    ensures r.Some? <==> forall i :: 0 <= i < |s| ==> IsBase(s[i])
    ensures r.Some? ==> |r.value| == |s| && forall i :: 0 <= i < |s| ==>
      Complement(s[|s| - 1 - i]) == Some(r.value[i])
  {
    if forall i :: 0 <= i < |s| ==> IsBase(s[i]) then
      Some(seq(|s|, i requires 0 <= i < |s| => Complement(s[|s| - 1 - i]).value))
    else None
  }

  /** Complementing is a pairing of the five bases. */
  lemma ComplementPair(c: char, d: char)
    requires Complement(c) == Some(d)
    ensures IsBase(d) && Complement(d) == Some(c)
  {
  }

  /** Taking the reverse complement twice gives the sequence back. */
  lemma ReverseComplementInvolution(s: string)
    requires forall i :: 0 <= i < |s| ==> IsBase(s[i])
    ensures ReverseComplement(s).Some?
    ensures ReverseComplement(ReverseComplement(s).value) == Some(s)
  {
    var r := ReverseComplement(s).value;
    forall i | 0 <= i < |r| ensures IsBase(r[i]) {
      ComplementPair(s[|s| - 1 - i], r[i]);
    }
    var rr := ReverseComplement(r).value;
    assert |rr| == |r| == |s|;
    forall i | 0 <= i < |s| ensures rr[i] == s[i] {
      var j := |r| - 1 - i;
      assert Complement(r[j]) == Some(rr[i]);
      ComplementPair(s[|s| - 1 - j], r[j]);
    }
    assert rr == s;
  }

  // ---------------------------------------------------------------------------------------------
  // read_oligo_seq

  /** One row of the guide/target table. */
  datatype OligoRow = OligoRow(id: string, targetSequence: string, pamIndex: int, strand: string)

  /** What `read_oligo_seq` stores for one row: the 60 nt window, reverse-complemented on REVERSE rows. */
  function CenteredSeq(row: OligoRow): (r: Result<string>)
    ensures r.Failure? ==> r.error == KeyError
  {
    var w := RecenterPam(row.targetSequence, row.pamIndex, row.strand, 60);
    if row.strand != "REVERSE" then Success(w)
    else if ReverseComplement(w).Some? then Success(ReverseComplement(w).value)
    else Failure(KeyError)
  }

  /** Stored sequences are 60 nt long whenever the cut is not before the sequence. */
  lemma CenteredSeqLength(row: OligoRow)
    requires CutIndex(row.pamIndex, row.strand) >= 0 && CenteredSeq(row).Success?
    ensures |CenteredSeq(row).value| == 60
  {
    var cut := CutIndex(row.pamIndex, row.strand);
    RightHalf(row.targetSequence, cut, 30);
    var s := row.targetSequence;
    var left := PySlice(s, Max(0, cut - 30), cut);
    assert |left| <= 30;
  }

  /**
    On a REVERSE row the window is cut in the original strand's coordinates and only then
    complemented: position i holds the complement of the original base at pam + 3 + 29 - i.
   */
  lemma ReverseRowPositions(row: OligoRow, i: nat)
    requires row.strand == "REVERSE" && CenteredSeq(row).Success?
    requires 0 <= row.pamIndex + 3 <= |row.targetSequence| && i < 60
    ensures |CenteredSeq(row).value| == 60
    ensures Complement(BaseOrN(row.targetSequence, row.pamIndex + 3 + 29 - i)) == Some(CenteredSeq(row).value[i])
  {
    var s, cut := row.targetSequence, row.pamIndex + 3;
    assert CutIndex(row.pamIndex, row.strand) == cut by {
      assert row.strand[0] != "FORWARD"[0];
    }
    RecenterPamWindow(s, row.pamIndex, row.strand, 60);
    var w := CentredWindow(s, cut, 30);
    assert RecenterPam(s, row.pamIndex, row.strand, 60) == w by {
      assert 60 / 2 == 30;
    }
    var v := ReverseComplement(w).value;
    assert CenteredSeq(row) == Success(v);
    assert Complement(w[59 - i]) == Some(v[i]);
  }

  /** On a FORWARD row position j holds the original base at pam - 3 - 30 + j. */
  lemma ForwardRowPositions(row: OligoRow, j: nat)
    requires row.strand == "FORWARD"
    requires 0 <= row.pamIndex - 3 <= |row.targetSequence| && j < 60
    ensures CenteredSeq(row).Success?
    ensures |CenteredSeq(row).value| == 60
    ensures CenteredSeq(row).value[j] == BaseOrN(row.targetSequence, row.pamIndex - 3 - 30 + j)
  {
    assert row.strand != "REVERSE" by {
      assert row.strand[0] != "REVERSE"[0];
    }
    RecenterPamWindow(row.targetSequence, row.pamIndex, row.strand, 60);
    assert 60 / 2 == 30;
  }

  /** A strand that is neither FORWARD nor REVERSE is cut as a reverse one but not complemented. */
  lemma OtherStrandNotComplemented(row: OligoRow)
    requires row.strand != "FORWARD" && row.strand != "REVERSE"
    ensures CutIndex(row.pamIndex, row.strand) == row.pamIndex + 3
    ensures CenteredSeq(row) == Success(RecenterPam(row.targetSequence, row.pamIndex, row.strand, 60))
  {
  }

  /** The index of the last occurrence of `x` in `xs`. */
  function LastIndex(xs: seq<string>, x: string): (k: nat)
    requires x in xs
    ensures k < |xs| && xs[k] == x
    ensures forall j :: k < j < |xs| ==> xs[j] != x
  {
    if xs[|xs| - 1] == x then |xs| - 1 else LastIndex(xs[..|xs| - 1], x)
  }

  /**
    `Series.to_dict` on a column indexed by `keys`: later rows overwrite earlier ones with the
    same key.
   */
  function ToDict<V>(keys: seq<string>, values: seq<V>): map<string, V>
    requires |keys| == |values|
  {
    if keys == [] then map[]
    else ToDict(keys[..|keys| - 1], values[..|keys| - 1])[keys[|keys| - 1] := values[|keys| - 1]]
  }

  /** Every key is in the dictionary, mapped to the value in the row of its last occurrence. */
  lemma {:induction false} ToDictSpec<V>(keys: seq<string>, values: seq<V>)
    requires |keys| == |values|
    ensures ToDict(keys, values).Keys == set k | k in keys
    ensures forall k :: k in ToDict(keys, values) ==> ToDict(keys, values)[k] == values[LastIndex(keys, k)]
  {
    if keys != [] {
      var n := |keys| - 1;
      ToDictSpec(keys[..n], values[..n]);
      assert keys == keys[..n] + [keys[n]];
      forall k | k in keys[..n] && k != keys[n]
        ensures LastIndex(keys, k) == LastIndex(keys[..n], k)
      {
      }
    }
  }

  function Ids(rows: seq<OligoRow>): (ids: seq<string>)
    ensures |ids| == |rows| && forall i :: 0 <= i < |rows| ==> ids[i] == rows[i].id
  {
    seq(|rows|, i requires 0 <= i < |rows| => rows[i].id)
  }

  function CountReverse(rows: seq<OligoRow>): nat {
    if rows == [] then 0
    else CountReverse(rows[..|rows| - 1]) + (if rows[|rows| - 1].strand == "REVERSE" then 1 else 0)
  }

  /** The centred-sequence column, filled row by row; the first failing row raises. */
  function CenteredColumn(rows: seq<OligoRow>): Result<seq<string>>
  {
    MapAll(rows, CenteredSeq)
  }

  /** The dictionary `read_oligo_seq` returns. */
  function OligoDict(rows: seq<OligoRow>): Result<map<string, string>>
  {
    match CenteredColumn(rows)
    case Failure(e) => Failure(e)
    case Success(col) => Success(ToDict(Ids(rows), col))
  }

  /**
    `read_oligo_seq` succeeds exactly when every row can be centred; its dictionary has one key per
    ID, holding the centred sequence of the last row with that ID.
   */
  lemma OligoDictRows(rows: seq<OligoRow>)
    ensures OligoDict(rows).Success? <==> forall i :: 0 <= i < |rows| ==> CenteredSeq(rows[i]).Success?
    ensures OligoDict(rows).Success? ==> OligoDict(rows).value.Keys == set i | 0 <= i < |rows| :: rows[i].id
    ensures OligoDict(rows).Success? ==> forall id :: id in OligoDict(rows).value ==>
      OligoDict(rows).value[id] == CenteredSeq(rows[LastIndex(Ids(rows), id)]).value
  {
    MapAllElements(rows, CenteredSeq);
    if CenteredColumn(rows).Success? {
      KeyedColumn(rows, CenteredSeq);
    }
  }

  /** A column computed row by row, keyed by the row IDs, holds each ID's last row's value. */
  lemma KeyedColumn(rows: seq<OligoRow>, f: OligoRow -> Result<string>)
    requires MapAll(rows, f).Success? && |MapAll(rows, f).value| == |rows|
    requires forall i :: 0 <= i < |rows| ==> f(rows[i]) == Success(MapAll(rows, f).value[i])
    ensures ToDict(Ids(rows), MapAll(rows, f).value).Keys == set i | 0 <= i < |rows| :: rows[i].id
    ensures forall id :: id in ToDict(Ids(rows), MapAll(rows, f).value) ==>
      ToDict(Ids(rows), MapAll(rows, f).value)[id] == f(rows[LastIndex(Ids(rows), id)]).value
  {
    var ids, col := Ids(rows), MapAll(rows, f).value;
    ToDictSpec(ids, col);
    assert (set k | k in ids) == set j | 0 <= j < |rows| :: rows[j].id;
  }

  /**
    `read_oligo_seq`: fills the centred-sequence column row by row, counting REVERSE rows, then
    turns (ID, sequence) into a dictionary. A row that cannot be complemented raises KeyError.
   */
  method ReadOligoSeq(rows: seq<OligoRow>) returns (r: Result<map<string, string>>, nRev: nat)
    ensures r == OligoDict(rows)
    ensures r.Success? ==> nRev == CountReverse(rows)
  {
    var column: seq<string> := [];
    nRev := 0;
    for i := 0 to |rows|
      invariant CenteredColumn(rows[..i]) == Success(column)
      invariant nRev == CountReverse(rows[..i])
    {
      var row := rows[i];
      assert rows[..i + 1][..i] == rows[..i];
      var s := RecenterPam(row.targetSequence, row.pamIndex, row.strand, 60);
      if row.strand == "REVERSE" {
        var rc := ReverseComplement(s);
        nRev := nRev + 1;
        if rc.None? {
          assert CenteredColumn(rows[..i + 1]) == Failure(KeyError);
          MapAllPrefixFailure(rows, CenteredSeq, i + 1);
          return Failure(KeyError), nRev;
        }
        s := rc.value;
      }
      assert CenteredSeq(row) == Success(s);
      column := column + [s];
    }
    assert rows[..|rows|] == rows;
    r := Success(ToDict(Ids(rows), column));
  }


  // ---------------------------------------------------------------------------------------------
  // read_single_outcome

  /** The current oligo; `None` until the first "@@@" header line, as in the source. */
  type OligoKey = Option<string>

  /**
    The nested `defaultdict`: outcome counts per oligo, with the oligos in the order in which they
    were first created.
   */
  datatype CountTable = CountTable(oligos: seq<OligoKey>, counts: map<OligoKey, map<string, int>>)

  const EmptyTable := CountTable([], map[])

  /** The oligo order lists every key of the table exactly once. */
  predicate TableValid(t: CountTable) {
    && (forall o :: o in t.counts ==> o in t.oligos)
    && (forall i :: 0 <= i < |t.oligos| ==> t.oligos[i] in t.counts)
    && (forall i, j :: 0 <= i < j < |t.oligos| ==> t.oligos[i] != t.oligos[j])
  }

  /** `label_dict[o][key]`, 0 when either level is missing. */
  function Lookup(c: map<OligoKey, map<string, int>>, o: OligoKey, key: string): int {
    if o in c then Get(c[o], key) else 0
  }

  /** `label_dict[o][key] += n`: creates both levels on first use. */
  function AddCounts(c: map<OligoKey, map<string, int>>, o: OligoKey, key: string, n: int): map<OligoKey, map<string, int>> {
    c[o := Bump(Inner(c, o), key, n)]
  }

  /** `label_dict[o]`, empty when `o` has no entry yet. */
  function Inner(c: map<OligoKey, map<string, int>>, o: OligoKey): map<string, int> {
    if o in c then c[o] else map[]
  }

  /** `d[key] += n` on one inner dictionary. */
  function Bump(d: map<string, int>, key: string, n: int): map<string, int> {
    d[key := Get(d, key) + n]
  }

  /** `label_dict[o][key] += n` on the table: a new oligo goes to the end of the order. */
  function Add(t: CountTable, o: OligoKey, key: string, n: int): CountTable {
    var c := AddCounts(t.counts, o, key, n);
    if o in t.counts then CountTable(t.oligos, c) else CountTable(t.oligos + [o], c)
  }

  /** Adding keeps the oligo order in step with the keys. */
  lemma AddKeepsValid(t: CountTable, o: OligoKey, key: string, n: int)
    requires TableValid(t)
    ensures TableValid(Add(t, o, key, n))
  {
    var c := AddCounts(t.counts, o, key, n);
    assert c.Keys == t.counts.Keys + {o};
    if o !in t.counts {
      assert o !in t.oligos;
      var os := t.oligos + [o];
      forall i, j | 0 <= i < j < |os| ensures os[i] != os[j] {
        if j == |t.oligos| {
          assert os[i] in t.oligos;
        }
      }
    }
  }

  /** Adding to one entry changes that entry by `n` and leaves every other entry as it was. */
  lemma AddCountsEffect(c: map<OligoKey, map<string, int>>, o: OligoKey, key: string, n: int)
    ensures Lookup(AddCounts(c, o, key, n), o, key) == Lookup(c, o, key) + n
    ensures forall o', k' :: (o', k') != (o, key) ==> Lookup(AddCounts(c, o, key, n), o', k') == Lookup(c, o', k')
    ensures AddCounts(c, o, key, n).Keys == c.Keys + {o}
  {
  }

  datatype ReadState = ReadState(table: CountTable, current: OligoKey)

  /** What one line of an outcome file says. */
  datatype Line = Header(oligo: string) | Data(key: string, count: int)

  /**
    One line, stripped: a "@@@" line names the next oligo (leading @ removed); any other line is
    split on tabs, with the count in field 2 and the key in field 1 (token mode) or field 3.
   */
  function ParseLine(line: string, token: bool): Result<Line> {
    var l := Strip(line);
    if StartsWith(l, "@@@") then Success(Header(LStripChars(l, {'@'})))
    else
      var ele := Split(l, "\t");
      if |ele| < 2 then Failure(IndexError)
      else
        match ParseInt(ele[1])
        case Failure(e) => Failure(e)
        case Success(count) =>
          if token then Success(Data(ele[0], count))
          else if |ele| < 3 then Failure(IndexError)
          else Success(Data(ele[2], count))
  }

  /** Every line of a file, parsed; reading stops at the first line whose parse failed. */
  function ParseAll(lines: seq<string>, token: bool): (r: seq<Result<Line>>)
    ensures |r| == |lines| && forall i :: 0 <= i < |lines| ==> r[i] == ParseLine(lines[i], token)
  {
    seq(|lines|, i requires 0 <= i < |lines| => ParseLine(lines[i], token))
  }

  /** The effect of one parsed line on the table and the current oligo. */
  function Step(st: ReadState, line: Result<Line>): Result<ReadState> {
    match line
    case Failure(e) => Failure(e)
    case Success(Header(o)) => Success(ReadState(st.table, Some(o)))
    case Success(Data(k, n)) => Success(ReadState(Add(st.table, st.current, k, n), st.current))
  }

  /** The lines folded in order, stopping at the first line that raises. */
  function ReadLines(st: ReadState, lines: seq<Result<Line>>): Result<ReadState> {
    if lines == [] then Success(st)
    else
      match ReadLines(st, lines[..|lines| - 1])
      case Failure(e) => Failure(e)
      case Success(s) => Step(s, lines[|lines| - 1])
  }

  /** Once a line raises, the lines after it are never read. */
  lemma {:induction false} ReadLinesStopsAtFailure(st: ReadState, lines: seq<Result<Line>>, k: nat)
    requires k <= |lines| && ReadLines(st, lines[..k]).Failure?
    ensures ReadLines(st, lines) == ReadLines(st, lines[..k])
    decreases |lines| - k
  {
    if k < |lines| {
      assert lines[..k + 1][..k] == lines[..k];
      ReadLinesStopsAtFailure(st, lines, k + 1);
    } else {
      assert lines[..k] == lines;
    }
  }

  /** Reading lines keeps the oligo order in step with the keys. */
  lemma {:induction false} ReadLinesValid(st: ReadState, lines: seq<Result<Line>>)
    requires TableValid(st.table)
    ensures ReadLines(st, lines).Success? ==> TableValid(ReadLines(st, lines).value.table)
  {
    if lines != [] {
      ReadLinesValid(st, lines[..|lines| - 1]);
      var prev := ReadLines(st, lines[..|lines| - 1]);
      if prev.Success? && lines[|lines| - 1].Success? && lines[|lines| - 1].value.Data? {
        var d := lines[|lines| - 1].value;
        AddKeepsValid(prev.value.table, prev.value.current, d.key, d.count);
      }
    }
  }

  /** What reading one file does to the table: every file starts with no current oligo. */
  function ReadFile(t: CountTable, lines: seq<string>, token: bool): Result<CountTable> {
    match ReadLines(ReadState(t, None), ParseAll(lines, token))
    case Success(st) => Success(st.table)
    case Failure(e) => Failure(e)
  }

  /** The body of the line loop of `read_single_outcome`. */
  method ReadLine(line: string, t: CountTable, oligo: OligoKey, token: bool) returns (r: Result<ReadState>)
    ensures r == Step(ReadState(t, oligo), ParseLine(line, token))
  {
    var l := Strip(line);
    if StartsWith(l, "@@@") {
      return Success(ReadState(t, Some(LStripChars(l, {'@'}))));
    }
    var ele := Split(l, "\t");
    if |ele| < 2 {
      return Failure(IndexError);
    }
    var count := ParseInt(ele[1]);
    if count.Failure? {
      return Failure(count.error);
    }
    if token {
      r := Success(ReadState(Add(t, oligo, ele[0], count.value), oligo));
    } else {
      if |ele| < 3 {
        return Failure(IndexError);
      }
      r := Success(ReadState(Add(t, oligo, ele[2], count.value), oligo));
    }
  }

  /** `read_single_outcome`: the line loop over one file, updating the shared table. */
  method ReadSingleOutcome(lines: seq<string>, labels: CountTable, token: bool) returns (r: Result<CountTable>)
    ensures r == ReadFile(labels, lines, token)
  {
    ghost var parsed := ParseAll(lines, token);
    var st: Result<ReadState> := Success(ReadState(labels, None));
    for i := 0 to |lines|
      invariant st == ReadLines(ReadState(labels, None), parsed[..i])
    {
      assert parsed[..i + 1][..i] == parsed[..i];
      if st.Failure? {
        ReadLinesStopsAtFailure(ReadState(labels, None), parsed, i);
        return Failure(st.error);
      }
      st := ReadLine(lines[i], st.value.table, st.value.current, token);
    }
    assert parsed[..|lines|] == parsed;
    r := if st.Success? then Success(st.value.table) else Failure(st.error);
  }


  /** A header line adds no count; the new current oligo is the line with its leading @ removed. */
  lemma HeaderLineAddsNothing(st: ReadState, line: string, token: bool)
    requires StartsWith(Strip(line), "@@@")
    ensures Step(st, ParseLine(line, token)).Success?
    ensures Step(st, ParseLine(line, token)).value.table == st.table
    ensures var o := Step(st, ParseLine(line, token)).value.current;
      o.Some? && (o.value == [] || o.value[0] != '@') && EndsWith(Strip(line), o.value)
  {
    LStripCharsSpec(Strip(line), {'@'});
  }

  /**
    A data line adds its count to the entry of the current oligo and its key, and leaves every
    other entry and the current oligo as they were.
   */
  lemma DataLineAddsOne(st: ReadState, key: string, count: int)
    ensures Step(st, Success(Data(key, count))).Success?
    ensures var c, c' := st.table.counts, Step(st, Success(Data(key, count))).value.table.counts;
      && Lookup(c', st.current, key) == Lookup(c, st.current, key) + count
      && (forall o, k :: (o, k) != (st.current, key) ==> Lookup(c', o, k) == Lookup(c, o, k))
      && Step(st, Success(Data(key, count))).value.current == st.current
  {
    AddCountsEffect(st.table.counts, st.current, key, count);
  }

  /** In token mode a data line's key is its first field and its count the integer in the second. */
  lemma TokenLineFields(line: string, key: string, count: int)
    requires ParseLine(line, true) == Success(Data(key, count))
    ensures var ele := Split(Strip(line), "\t");
      !StartsWith(Strip(line), "@@@") && |ele| >= 2 && ele[0] == key && ParseInt(ele[1]) == Success(count)
  {
  }

  /** The counts a file contributes, as (oligo, key, count) entries independent of the table. */
  datatype Entry = Entry(oligo: OligoKey, key: string, count: int)

  function LineEntries(cur: OligoKey, lines: seq<Result<Line>>): Result<(OligoKey, seq<Entry>)> {
    if lines == [] then Success((cur, []))
    else
      match LineEntries(cur, lines[..|lines| - 1])
      case Failure(e) => Failure(e)
      case Success(p) =>
        match lines[|lines| - 1]
        case Failure(e) => Failure(e)
        case Success(Header(o)) => Success((Some(o), p.1))
        case Success(Data(k, n)) => Success((p.0, p.1 + [Entry(p.0, k, n)]))
  }

  function ApplyCounts(c: map<OligoKey, map<string, int>>, es: seq<Entry>): map<OligoKey, map<string, int>> {
    if es == [] then c
    else
      var e := es[|es| - 1];
      AddCounts(ApplyCounts(c, es[..|es| - 1]), e.oligo, e.key, e.count)
  }

  /** Reading lines is applying the entries they parse to, whatever the table holds. */
  lemma {:induction false} ReadLinesIsApply(t: CountTable, cur: OligoKey, lines: seq<Result<Line>>)
    ensures ReadLines(ReadState(t, cur), lines).Success? == LineEntries(cur, lines).Success?
    ensures ReadLines(ReadState(t, cur), lines).Success? ==>
      && ReadLines(ReadState(t, cur), lines).value.current == LineEntries(cur, lines).value.0
      && ReadLines(ReadState(t, cur), lines).value.table.counts == ApplyCounts(t.counts, LineEntries(cur, lines).value.1)
  {
    if lines != [] {
      var init, last := lines[..|lines| - 1], lines[|lines| - 1];
      ReadLinesIsApply(t, cur, init);
      var es := LineEntries(cur, init);
      if es.Success? && last.Success? {
        var p := es.value;
        var st := ReadLines(ReadState(t, cur), init).value;
        match last.value
        case Header(o) =>
        case Data(k, n) =>
          var e := Entry(p.0, k, n);
          assert Add(st.table, st.current, k, n).counts == AddCounts(st.table.counts, st.current, k, n);
          assert (p.1 + [e])[..|p.1|] == p.1;
      }
    }
  }

  /** Two increments commute. */
  /** Two `+=` on one inner dictionary commute. */
  lemma BumpCommute(d: map<string, int>, k1: string, n1: int, k2: string, n2: int)
    ensures Bump(Bump(d, k1, n1), k2, n2) == Bump(Bump(d, k2, n2), k1, n1)
  {
    if k1 != k2 {
      assert Get(Bump(d, k1, n1), k2) == Get(d, k2) && Get(Bump(d, k2, n2), k1) == Get(d, k1);
    }
  }

  lemma AddCountsCommute(c: map<OligoKey, map<string, int>>, a: Entry, b: Entry)
    ensures AddCounts(AddCounts(c, a.oligo, a.key, a.count), b.oligo, b.key, b.count) ==
            AddCounts(AddCounts(c, b.oligo, b.key, b.count), a.oligo, a.key, a.count)
  {
    var xa, xb := Bump(Inner(c, a.oligo), a.key, a.count), Bump(Inner(c, b.oligo), b.key, b.count);
    var ca, cb := c[a.oligo := xa], c[b.oligo := xb];
    if a.oligo == b.oligo {
      BumpCommute(Inner(c, a.oligo), a.key, a.count, b.key, b.count);
    } else {
      assert Inner(ca, b.oligo) == Inner(c, b.oligo);
      assert Inner(cb, a.oligo) == Inner(c, a.oligo);
      UpdatesCommute(c, a.oligo, xa, b.oligo, xb);
    }
  }

  /** Updates of two different keys commute. */
  lemma UpdatesCommute<K, V>(m: map<K, V>, k1: K, v1: V, k2: K, v2: V)
    requires k1 != k2
    ensures m[k1 := v1][k2 := v2] == m[k2 := v2][k1 := v1]
  {
  }

  lemma {:induction false} ApplyOneCommutes(c: map<OligoKey, map<string, int>>, es: seq<Entry>, e: Entry)
    ensures ApplyCounts(ApplyCounts(c, es), [e]) == ApplyCounts(ApplyCounts(c, [e]), es)
    decreases |es|
  {
    if es != [] {
      var init, last := es[..|es| - 1], es[|es| - 1];
      ApplyOneCommutes(c, init, e);
      AddCountsCommute(ApplyCounts(c, init), last, e);
    }
  }

  /** Applying two batches of entries in either order yields the same counts. */
  lemma {:induction false} ApplyCommutes(c: map<OligoKey, map<string, int>>, xs: seq<Entry>, ys: seq<Entry>)
    ensures ApplyCounts(ApplyCounts(c, xs), ys) == ApplyCounts(ApplyCounts(c, ys), xs)
    decreases |ys|
  {
    if ys != [] {
      var init, last := ys[..|ys| - 1], ys[|ys| - 1];
      ApplyCommutes(c, xs, init);
      // ApplyCounts(ApplyCounts(c, xs), ys) == ApplyCounts(ApplyCounts(ApplyCounts(c, init), xs), [last])
      ApplyOneCommutes(ApplyCounts(c, init), xs, last);
      assert ApplyCounts(ApplyCounts(c, init), [last]) == ApplyCounts(c, ys);
    }
  }

  /**
    The order in which outcome files are read does not change the counts: reading `a` then `b`
    succeeds exactly when reading `b` then `a` does, and both give the same counts.
   */
  lemma FileOrderIrrelevant(t: CountTable, a: seq<string>, b: seq<string>, token: bool)
    requires ReadFile(t, a, token).Success? && ReadFile(ReadFile(t, a, token).value, b, token).Success?
    ensures ReadFile(t, b, token).Success? && ReadFile(ReadFile(t, b, token).value, a, token).Success?
    ensures ReadFile(ReadFile(t, a, token).value, b, token).value.counts ==
            ReadFile(ReadFile(t, b, token).value, a, token).value.counts
  {
    var pa, pb := ParseAll(a, token), ParseAll(b, token);
    var ta := ReadFile(t, a, token).value;
    ReadLinesIsApply(t, None, pa);
    ReadLinesIsApply(ta, None, pb);
    ReadLinesIsApply(t, None, pb);
    var tb := ReadFile(t, b, token).value;
    ReadLinesIsApply(tb, None, pa);
    ApplyCommutes(t.counts, LineEntries(None, pa).value.1, LineEntries(None, pb).value.1);
  }

  // ---------------------------------------------------------------------------------------------
  // read_outcomes

  /** The data directory: run directories, each with sample directories holding outcome files. */
  datatype OutcomeFile = OutcomeFile(name: string, lines: seq<string>)
  datatype SampleDir = SampleDir(name: string, files: seq<OutcomeFile>)
  datatype RunDir = RunDir(name: string, samples: seq<SampleDir>)

  /** The filters of `read_outcomes`; an empty string is a falsy argument that filters nothing. */
  datatype Filters = Filters(cellLine: string, replicate: string, dpi: string, coverage: string)

  /**
    A run directory is read when its name splits into exactly seven `_` fields and each truthy
    filter matches: the replicate as a suffix of the 6th field, the others exactly.
   */
  predicate DirSelected(name: string, f: Filters) {
    var x := Split(name, "_");
    && |x| == 7
    && (f.replicate == "" || EndsWith(x[5], f.replicate))
    && (f.cellLine == "" || x[3] == f.cellLine)
    && (f.coverage == "" || x[4] == f.coverage)
    && (f.dpi == "" || x[6] == f.dpi)
  }

  /** A name is never selected unless it has exactly six underscores; without filters, always then. */
  lemma DirSelectedUnderscores(name: string, f: Filters)
    ensures DirSelected(name, f) ==> Count(name, '_') == 6
    ensures f == Filters("", "", "", "") ==> (DirSelected(name, f) <==> Count(name, '_') == 6)
  {
    SplitCount(name, '_');
  }

  const IndelSuffix := "_processedindels.txt"

  /** The files `read_outcomes` reads, in the order it reads them. */
  function SelectedFiles(dirs: seq<RunDir>, f: Filters): seq<OutcomeFile> {
    FilesOf(SelectedSamples(dirs, f))
  }

  function SelectedSamples(dirs: seq<RunDir>, f: Filters): seq<SampleDir> {
    if dirs == [] then []
    else
      var d := dirs[|dirs| - 1];
      SelectedSamples(dirs[..|dirs| - 1], f) + (if DirSelected(d.name, f) then d.samples else [])
  }

  function FilesOf(samples: seq<SampleDir>): seq<OutcomeFile> {
    if samples == [] then []
    else FilesOf(samples[..|samples| - 1]) + IndelFiles(samples[|samples| - 1].files)
  }

  function IndelFiles(files: seq<OutcomeFile>): seq<OutcomeFile> {
    if files == [] then []
    else
      var x := files[|files| - 1];
      IndelFiles(files[..|files| - 1]) + (if EndsWith(x.name, IndelSuffix) then [x] else [])
  }

  lemma {:induction false} IndelFilesMembers(files: seq<OutcomeFile>, x: OutcomeFile)
    ensures x in IndelFiles(files) <==> x in files && EndsWith(x.name, IndelSuffix)
  {
    if files != [] {
      IndelFilesMembers(files[..|files| - 1], x);
      assert files == files[..|files| - 1] + [files[|files| - 1]];
    }
  }

  lemma {:induction false} FilesOfMembers(samples: seq<SampleDir>, x: OutcomeFile)
    ensures x in FilesOf(samples) <==>
      (exists s :: s in samples && x in s.files) && EndsWith(x.name, IndelSuffix)
  {
    if samples != [] {
      var init, last := samples[..|samples| - 1], samples[|samples| - 1];
      FilesOfMembers(init, x);
      IndelFilesMembers(last.files, x);
      assert samples == init + [last];
    }
  }

  lemma {:induction false} SelectedSamplesMembers(dirs: seq<RunDir>, f: Filters, s: SampleDir)
    ensures s in SelectedSamples(dirs, f) <==> exists d :: d in dirs && DirSelected(d.name, f) && s in d.samples
  {
    if dirs != [] {
      var init, last := dirs[..|dirs| - 1], dirs[|dirs| - 1];
      SelectedSamplesMembers(init, f, s);
      assert dirs == init + [last];
    }
  }

  /**
    A file is read exactly when its name ends in "_processedindels.txt" and it lies in a sample
    directory of a selected run directory.
   */
  lemma SelectedFilesMembers(dirs: seq<RunDir>, f: Filters, x: OutcomeFile)
    ensures x in SelectedFiles(dirs, f) <==>
      && EndsWith(x.name, IndelSuffix)
      && exists d, s :: d in dirs && DirSelected(d.name, f) && s in d.samples && x in s.files
  {
    FilesOfMembers(SelectedSamples(dirs, f), x);
    if x in SelectedFiles(dirs, f) {
      var s :| s in SelectedSamples(dirs, f) && x in s.files;
      SelectedSamplesMembers(dirs, f, s);
    }
    if EndsWith(x.name, IndelSuffix) && exists d, s :: d in dirs && DirSelected(d.name, f) && s in d.samples && x in s.files {
      var d, s :| d in dirs && DirSelected(d.name, f) && s in d.samples && x in s.files;
      SelectedSamplesMembers(dirs, f, s);
    }
  }

  /** The files read in order, each starting with no current oligo; the first error stops all. */
  function ReadFiles(t: CountTable, files: seq<OutcomeFile>, token: bool): Result<CountTable> {
    if files == [] then Success(t)
    else
      match ReadFiles(t, files[..|files| - 1], token)
      case Failure(e) => Failure(e)
      case Success(t') => ReadFile(t', files[|files| - 1].lines, token)
  }

  /** Once a file fails, the files after it are not read and the error is the result. */
  lemma {:induction false} ReadFilesStopsAtFailure(t: CountTable, files: seq<OutcomeFile>, token: bool, k: nat)
    requires k <= |files| && ReadFiles(t, files[..k], token).Failure?
    ensures ReadFiles(t, files, token) == ReadFiles(t, files[..k], token)
    decreases |files| - k
  {
    if k < |files| {
      assert files[..k + 1][..k] == files[..k];
      ReadFilesStopsAtFailure(t, files, token, k + 1);
    } else {
      assert files[..k] == files;
    }
  }

  /** Every table `read_outcomes` returns lists each of its oligos once, in creation order. */
  lemma {:induction false} ReadFilesValid(t: CountTable, files: seq<OutcomeFile>, token: bool)
    requires TableValid(t)
    ensures ReadFiles(t, files, token).Success? ==> TableValid(ReadFiles(t, files, token).value)
  {
    if files != [] {
      ReadFilesValid(t, files[..|files| - 1], token);
      var prev := ReadFiles(t, files[..|files| - 1], token);
      if prev.Success? {
        ReadLinesValid(ReadState(prev.value, None), ParseAll(files[|files| - 1].lines, token));
      }
    }
  }

  /** The sample directories of every selected run directory, in listing order. */
  method CollectSampleDirs(dirs: seq<RunDir>, f: Filters) returns (subdirs: seq<SampleDir>)
    ensures subdirs == SelectedSamples(dirs, f)
  {
    subdirs := [];
    var i := 0;
    while i < |dirs|
      invariant 0 <= i <= |dirs|
      invariant subdirs == SelectedSamples(dirs[..i], f)
    {
      assert dirs[..i + 1][..i] == dirs[..i];
      if DirSelected(dirs[i].name, f) {
        subdirs := subdirs + dirs[i].samples;
      }
      i := i + 1;
    }
    assert dirs[..i] == dirs;
  }

  /** The outcome files of the given sample directories, in listing order. */
  method CollectOutcomeFiles(subdirs: seq<SampleDir>) returns (fpList: seq<OutcomeFile>)
    ensures fpList == FilesOf(subdirs)
  {
    fpList := [];
    var j := 0;
    while j < |subdirs|
      invariant 0 <= j <= |subdirs|
      invariant fpList == FilesOf(subdirs[..j])
    {
      assert subdirs[..j + 1][..j] == subdirs[..j];
      var files := subdirs[j].files;
      var k := 0;
      ghost var before := fpList;
      while k < |files|
        invariant 0 <= k <= |files|
        invariant fpList == before + IndelFiles(files[..k])
      {
        assert files[..k + 1][..k] == files[..k];
        if EndsWith(files[k].name, IndelSuffix) {
          fpList := fpList + [files[k]];
        }
        k := k + 1;
      }
      assert files[..k] == files;
      j := j + 1;
    }
    assert subdirs[..j] == subdirs;
  }

  /** The file loop of `read_outcomes`: each file is read into the shared table in turn. */
  method ReadAllFiles(fpList: seq<OutcomeFile>, token: bool) returns (r: Result<CountTable>)
    ensures r == ReadFiles(EmptyTable, fpList, token)
  {
    r := Success(EmptyTable);
    for n := 0 to |fpList|
      invariant r == ReadFiles(EmptyTable, fpList[..n], token)
    {
      assert fpList[..n + 1][..n] == fpList[..n];
      if r.Failure? {
        ReadFilesStopsAtFailure(EmptyTable, fpList, token, n);
        return;
      }
      r := ReadSingleOutcome(fpList[n].lines, r.value, token);
    }
    assert fpList[..|fpList|] == fpList;
  }


  /** `read_outcomes`: collects the sample directories, then the outcome files, then reads them. */
  method ReadOutcomes(dirs: seq<RunDir>, token: bool, f: Filters) returns (r: Result<CountTable>)
    ensures r == ReadFiles(EmptyTable, SelectedFiles(dirs, f), token)
  {
    var subdirs := CollectSampleDirs(dirs, f);
    var fpList := CollectOutcomeFiles(subdirs);
    r := ReadAllFiles(fpList, token);
  }

}
