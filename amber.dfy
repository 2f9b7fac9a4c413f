/**
  The arithmetic around the architecture search (model_creation/model_search/amber_cnn_sumstats.py):
  picking label columns out of a compiled data bundle, the filter schedule of the search
  space, the token layout of a randomly sampled architecture, and the best architecture in a
  controller's training history.

  The random draws are parameters; the search library's `ModelSpace` and `Operation` are
  represented by the values the code passes to them.
 */
module Amber {
  import opened Wrappers
  import opened Sums

  /** `TASK_IDENTIFIER`: the label column of each task. */
  const TaskIdentifier: map<string, nat> := map[
    "del_freq" := 0, "1ins_freq" := 1, "1del_freq" := 2, "avgdel_len" := 3, "avgins_len" := 4,
    "entropy" := 5, "onemod3_freq" := 6, "twomod3_freq" := 7, "frameshift_freq" := 8]

  // ---------------------------------------------------------------------------------------
  // load_pickle_data

  /** `data[1][TASK_IDENTIFIER[task]]`: KeyError for an unknown task, IndexError past the last column. */
  function ColumnOf(labels: seq<seq<real>>, task: string): Result<seq<real>> {
    if task !in TaskIdentifier then Failure(KeyError)
    else if TaskIdentifier[task] >= |labels| then Failure(IndexError)
    else Success(labels[TaskIdentifier[task]])
  }

  /** `ColumnOf` as a one-argument function, for mapping over the requested task names. */
  function ColumnIn(labels: seq<seq<real>>): string -> Result<seq<real>> {
    (task: string) => ColumnOf(labels, task)
  }

  predicate Rectangular(cols: seq<seq<real>>) {
    forall k :: 0 <= k < |cols| ==> |cols[k]| == |cols[0]|
  }

  /**
    `np.array(cols).transpose()`: the columns side by side, one row per entity. Columns of
    different lengths make a ragged array, which numpy refuses with ValueError; no column at
    all gives an empty array.
   */
  function Transpose(cols: seq<seq<real>>): Result<seq<seq<real>>> {
    if cols == [] then Success([])
    else if !Rectangular(cols) then Failure(ValueError)
    else Success(seq(|cols[0]|, i requires 0 <= i < |cols[0]| =>
      seq(|cols|, k requires 0 <= k < |cols| && Rectangular(cols) => cols[k][i])))
  }

  /** What `load_pickle_data` returns for the unpickled bundle `(x, labels)`. */
  function Loaded<X>(x: X, labels: seq<seq<real>>, tasks: seq<string>): Result<(X, seq<seq<real>>)> {
    match MapAll(tasks, ColumnIn(labels))
    case Failure(e) => Failure(e)
    case Success(ys) =>
      match Transpose(ys)
      case Failure(e) => Failure(e)
      case Success(y) => Success((x, y))
  }

  method LoadPickleData<X>(x: X, labels: seq<seq<real>>, tasks: seq<string>) returns (r: Result<(X, seq<seq<real>>)>)
    ensures r == Loaded(x, labels, tasks)
  {
    var ys: seq<seq<real>> := [];
    for i := 0 to |tasks|
      invariant MapAll(tasks[..i], ColumnIn(labels)) == Success(ys)
    {
      MapAllStep(tasks, ColumnIn(labels), i, ys);
      if tasks[i] !in TaskIdentifier {
        MapAllPrefixFailure(tasks, ColumnIn(labels), i + 1);
        return Failure(KeyError);
      }
      var col := TaskIdentifier[tasks[i]];
      if col >= |labels| {
        MapAllPrefixFailure(tasks, ColumnIn(labels), i + 1);
        return Failure(IndexError);
      }
      ys := ys + [labels[col]];
    }
    assert tasks[..|tasks|] == tasks;
    var y := Transpose(ys);
    if y.Failure? {
      return Failure(y.error);
    }
    r := Success((x, y.value));
  }

  /**
    Loading succeeds exactly when every task is known, names an existing column, and those
    columns have one length; then column `k` of every row comes from the column of task `k`.
   */
  lemma LoadedSpec<X>(x: X, labels: seq<seq<real>>, tasks: seq<string>)
    ensures Loaded(x, labels, tasks).Success? <==>
      (forall k :: 0 <= k < |tasks| ==> tasks[k] in TaskIdentifier && TaskIdentifier[tasks[k]] < |labels|) &&
      (forall j, k :: 0 <= j < |tasks| && 0 <= k < |tasks| ==>
         |labels[TaskIdentifier[tasks[j]]]| == |labels[TaskIdentifier[tasks[k]]]|)
    ensures Loaded(x, labels, tasks).Success? ==>
      var y := Loaded(x, labels, tasks).value.1;
      Loaded(x, labels, tasks).value.0 == x &&
      forall i, k :: 0 <= i < |y| && 0 <= k < |tasks| ==>
        |y[i]| == |tasks| && i < |labels[TaskIdentifier[tasks[k]]]| &&
        y[i][k] == labels[TaskIdentifier[tasks[k]]][i]
  {
    var f := ColumnIn(labels);
    MapAllElements(tasks, f);
    if MapAll(tasks, f).Success? {
      var ys := MapAll(tasks, f).value;
      forall k | 0 <= k < |tasks| ensures ys[k] == labels[TaskIdentifier[tasks[k]]] {
        assert f(tasks[k]) == Success(ys[k]);
      }
    } else {
      var k :| 0 <= k < |tasks| && f(tasks[k]) == Failure(MapAll(tasks, f).error);
    }
  }

  // ---------------------------------------------------------------------------------------
  // get_model_space

  datatype OpKind =
    | Conv1d(kernelSize: nat, dilation: Option<nat>)   // activation 'relu'
    | MaxPool1d(poolSize: nat, strides: nat)
    | AvgPool1d(poolSize: nat, strides: nat)
    | Identity

  datatype Operation = Operation(kind: OpKind, filters: int)

  /** The seven candidate operations of every layer, all with `filters` filters. */
  function LayerOps(filters: int): (ops: seq<Operation>)
    ensures |ops| == 7
    ensures forall k :: 0 <= k < 7 ==> ops[k].filters == filters
  {
    [ Operation(Conv1d(8, None), filters), Operation(Conv1d(4, None), filters),
      Operation(Conv1d(8, Some(4)), filters), Operation(Conv1d(4, Some(4)), filters),
      Operation(MaxPool1d(4, 1), filters), Operation(AvgPool1d(4, 1), filters),
      Operation(Identity, filters) ]
  }

  /** `expand_layers`: the layers after which the filter count doubles. */
  function ExpandLayers(numLayers: nat, numPool: nat): (e: seq<int>)
    ensures |e| == numPool
  {
    seq(numPool, i requires 0 <= i < numPool => numLayers / numPool * i - 1)
  }

  /** The number of layers before layer `i` that are expand layers. */
  function Doublings(expand: seq<int>, i: nat): nat {
    if i == 0 then 0 else Doublings(expand, i - 1) + (if i - 1 in expand then 1 else 0)
  }

  function Pow2(n: nat): nat {
    if n == 0 then 1 else 2 * Pow2(n - 1)
  }

  /** The filter count at layer `i`. */
  function FiltersAt(outFilters: int, numLayers: nat, numPool: nat, i: nat): int {
    outFilters * Pow2(Doublings(ExpandLayers(numLayers, numPool), i))
  }

  /** `get_model_space`: layer `i` offers the seven operations at that layer's filter count. */
  method GetModelSpace(outFilters: int, numLayers: nat, numPool: nat) returns (space: seq<seq<Operation>>)
    ensures |space| == numLayers
    ensures forall i :: 0 <= i < numLayers ==> space[i] == LayerOps(FiltersAt(outFilters, numLayers, numPool, i))
  {
    var expand := ExpandLayers(numLayers, numPool);
    var filters := outFilters;
    space := [];
    for i := 0 to numLayers
      invariant |space| == i
      invariant filters == FiltersAt(outFilters, numLayers, numPool, i)
      invariant forall j :: 0 <= j < i ==> space[j] == LayerOps(FiltersAt(outFilters, numLayers, numPool, j))
    {
      space := space + [LayerOps(filters)];
      if i in expand {
        filters := filters * 2;
      }
    }
  }

  /** Counting the expand layers before `i`: an element contributes at most once, and only if it is in `[0, i)`. */
  lemma {:induction false} DoublingsCons(x: int, rest: seq<int>, i: nat)
    ensures Doublings([x] + rest, i) <= Doublings(rest, i) + (if 0 <= x < i then 1 else 0)
  {
    if i > 0 {
      DoublingsCons(x, rest, i - 1);
    }
  }

  /** No more doublings than expand layers that are valid layer numbers. */
  lemma {:induction false} DoublingsAtMost(expand: seq<int>, i: nat)
    ensures Doublings(expand, i) <= |expand|
  {
    if expand == [] {
      DoublingsNone(expand, i);
    } else {
      assert [expand[0]] + expand[1..] == expand;
      DoublingsCons(expand[0], expand[1..], i);
      DoublingsAtMost(expand[1..], i);
    }
  }

  lemma {:induction false} DoublingsNone(expand: seq<int>, i: nat)
    requires forall k :: 0 <= k < |expand| ==> expand[k] < 0
    ensures Doublings(expand, i) == 0
  {
    if i > 0 {
      DoublingsNone(expand, i - 1);
    }
  }

  /**
    The first expand layer is -1, which is never a layer, so there are at most `num_pool - 1`
    doublings, and none when `num_pool` is 1: the filter count at any layer is at most
    `out_filters * 2^(num_pool - 1)`.
   */
  lemma DoublingsBound(numLayers: nat, numPool: nat, i: nat)
    requires numPool >= 1
    ensures Doublings(ExpandLayers(numLayers, numPool), i) <= numPool - 1
    ensures numPool == 1 ==> Doublings(ExpandLayers(numLayers, numPool), i) == 0
  {
    var expand := ExpandLayers(numLayers, numPool);
    assert expand[0] == -1;
    assert [expand[0]] + expand[1..] == expand;
    DoublingsCons(expand[0], expand[1..], i);
    DoublingsAtMost(expand[1..], i);
  }

  /** Doubling never decreases from one layer to the next. */
  lemma {:induction false} DoublingsMonotone(expand: seq<int>, i: nat, j: nat)
    requires i <= j
    ensures Doublings(expand, i) <= Doublings(expand, j)
    decreases j
  {
    if i < j {
      DoublingsMonotone(expand, i, j - 1);
    }
  }

  /**
    The default space (64 filters, 9 layers, 4 pools) expands after layers 1, 3 and 5, so
    its layers have 64, 64, 128, 128, 256, 256, 512, 512 and 512 filters.
   */
  lemma DefaultFilters()
    ensures ExpandLayers(9, 4) == [-1, 1, 3, 5]
    ensures forall i :: 0 <= i < 9 ==>
      FiltersAt(64, 9, 4, i) == [64, 64, 128, 128, 256, 256, 512, 512, 512][i]
  {
    var e := ExpandLayers(9, 4);
    assert e == [-1, 1, 3, 5];
    assert Doublings(e, 2) == 1;
    assert Doublings(e, 4) == 2;
    assert Doublings(e, 6) == 3;
    assert Doublings(e, 8) == 3;
    assert Doublings(e, 9) == 3;
  }

  // ---------------------------------------------------------------------------------------
  // random_sample_controller

  /** `sum(range(n))`: the number of skip connections among `n` layers. */
  function Tri(n: nat): nat {
    if n == 0 then 0 else Tri(n - 1) + (n - 1)
  }

  lemma {:induction false} TriClosed(n: nat)
    ensures 2 * Tri(n) == n * (n - 1)
  {
    if n > 0 {
      TriClosed(n - 1);
    }
  }

  lemma {:induction false} TriMonotone(i: nat, j: nat)
    requires i <= j
    ensures Tri(i) + i <= Tri(j) + j
    ensures i < j ==> Tri(i) + i <= Tri(j)
    decreases j
  {
    if i < j {
      TriMonotone(i, j - 1);
    }
  }

  /** `int(num_skips * skip_target)`: how many skip connections are switched on. */
  function SkipCount(numLayers: nat, skipTarget: real): int {
    Trunc(Tri(numLayers) as real * skipTarget)
  }

  /** `skips`: zeros with a one at every drawn index. */
  function SkipBits(n: nat, drawn: set<nat>): (bits: seq<nat>)
    ensures |bits| == n
  {
    seq(n, i requires 0 <= i < n => if i in drawn then 1 else 0)
  }

  /**
    What numpy's draws guarantee: `skips_idx` is `size` distinct indices below `num_skips`,
    and each layer's operation index is below that layer's operation count.
   */
  predicate ValidDraws(layerSizes: seq<nat>, skipTarget: real, skipDraw: seq<nat>, opDraws: seq<nat>) {
    var size := SkipCount(|layerSizes|, skipTarget);
    |opDraws| == |layerSizes| &&
    (forall l :: 0 <= l < |layerSizes| && layerSizes[l] > 0 ==> opDraws[l] < layerSizes[l]) &&
    (0 <= size <= Tri(|layerSizes|) ==>
       |skipDraw| == size && Distinct(skipDraw) &&
       forall k :: 0 <= k < |skipDraw| ==> skipDraw[k] < Tri(|layerSizes|))
  }

  /** The tokens of the first `l` layers: each layer's operation, then its `l` skip bits. */
  function Arc(opDraws: seq<nat>, bits: seq<nat>, l: nat): (arc: seq<nat>)
    requires l <= |opDraws| && Tri(l) <= |bits|
    ensures |arc| == l + Tri(l)
  {
    if l == 0 then []
    else
      TriMonotone(l - 1, l);
      Arc(opDraws, bits, l - 1) + [opDraws[l - 1]] + bits[Tri(l - 1)..Tri(l)]
  }

  /**
    `random_sample_controller`: ValueError when the skip count is negative or larger than
    the number of skips (no sampling without replacement), or when a layer has no operation
    to draw from; otherwise the layer-by-layer token list.
   */
  function Sampled(layerSizes: seq<nat>, skipTarget: real, skipDraw: seq<nat>, opDraws: seq<nat>): Result<seq<nat>>
    requires ValidDraws(layerSizes, skipTarget, skipDraw, opDraws)
  {
    var n := |layerSizes|;
    var size := SkipCount(n, skipTarget);
    if size < 0 || size > Tri(n) then Failure(ValueError)
    else if exists l :: 0 <= l < n && layerSizes[l] == 0 then Failure(ValueError)
    else Success(Arc(opDraws, SkipBits(Tri(n), Elements(skipDraw)), n))
  }

  method RandomSampleController(layerSizes: seq<nat>, skipTarget: real, skipDraw: seq<nat>, opDraws: seq<nat>)
    returns (r: Result<seq<nat>>)
    requires ValidDraws(layerSizes, skipTarget, skipDraw, opDraws)
    ensures r == Sampled(layerSizes, skipTarget, skipDraw, opDraws)
  {
    var numLayers := |layerSizes|;
    var numSkips := Tri(numLayers);
    var size := SkipCount(numLayers, skipTarget);
    if size < 0 || size > numSkips {
      return Failure(ValueError);
    }
    r := SampleLayers(layerSizes, opDraws, SkipBits(numSkips, Elements(skipDraw)));
  }

  /** The layer loop of `random_sample_controller` over the skip list `bits`. */
  method SampleLayers(layerSizes: seq<nat>, opDraws: seq<nat>, bits: seq<nat>) returns (r: Result<seq<nat>>)
    requires |opDraws| == |layerSizes| && |bits| == Tri(|layerSizes|)
    ensures (exists l :: 0 <= l < |layerSizes| && layerSizes[l] == 0) ==> r == Failure(ValueError)
    ensures (forall l :: 0 <= l < |layerSizes| ==> layerSizes[l] != 0) ==> r == Success(Arc(opDraws, bits, |layerSizes|))
  {
    var numLayers := |layerSizes|;
    var skips := bits;
    var arc: seq<nat> := [];
    for l := 0 to numLayers
      invariant forall j :: 0 <= j < l ==> layerSizes[j] > 0
      invariant Tri(l) <= |bits| && skips == bits[Tri(l)..]
      invariant arc == Arc(opDraws, bits, l)
    {
      if layerSizes[l] == 0 {
        return Failure(ValueError);
      }
      ArcStep(opDraws, bits, l, numLayers);
      var count := [opDraws[l]];
      if l > 0 {
        count := count + skips[..l];
        skips := skips[l..];
      }
      arc := arc + count;
    }
    r := Success(arc);
  }

  /** One more layer: its operation and the next `l` skip bits, which the pops take off the front. */
  lemma ArcStep(opDraws: seq<nat>, bits: seq<nat>, l: nat, n: nat)
    requires l < n && n <= |opDraws| && Tri(n) <= |bits|
    ensures Tri(l + 1) <= Tri(n) && Tri(l + 1) == Tri(l) + l
    ensures Arc(opDraws, bits, l + 1) == Arc(opDraws, bits, l) + [opDraws[l]] + bits[Tri(l)..][..l]
    ensures bits[Tri(l)..][l..] == bits[Tri(l + 1)..]
  {
    TriMonotone(l + 1, n);
    assert bits[Tri(l)..][..l] == bits[Tri(l)..Tri(l + 1)];
  }

  /**
    Layer `l`'s tokens start at `l + Tri(l)`: first its operation index, below the layer's
    operation count, then its `l` skip bits, which are skip bits `Tri(l) .. Tri(l) + l`.
   */
  lemma {:induction false} ArcLayout(opDraws: seq<nat>, bits: seq<nat>, n: nat, l: nat)
    requires l < n <= |opDraws| && Tri(n) <= |bits|
    ensures Tri(l) + l <= Tri(n) && l + Tri(l) < |Arc(opDraws, bits, n)|
    ensures Arc(opDraws, bits, n)[l + Tri(l)] == opDraws[l]
    ensures Arc(opDraws, bits, n)[l + Tri(l) + 1 .. 2 * l + Tri(l) + 1] == bits[Tri(l) .. Tri(l) + l]
    decreases n
  {
    TriMonotone(l, n);
    TriMonotone(l + 1, n);
    var arc := Arc(opDraws, bits, n);
    var prev := Arc(opDraws, bits, n - 1);
    assert arc == prev + [opDraws[n - 1]] + bits[Tri(n - 1)..Tri(n)];
    if l < n - 1 {
      ArcLayout(opDraws, bits, n - 1, l);
      TriMonotone(l + 1, n - 1);
      assert arc[..|prev|] == prev;
      assert arc[l + Tri(l) + 1 .. 2 * l + Tri(l) + 1] == prev[l + Tri(l) + 1 .. 2 * l + Tri(l) + 1];
    }
  }

  /** The number of ones among the skip bits. */
  function Ones(bits: seq<nat>): nat {
    if bits == [] then 0 else Ones(bits[..|bits| - 1]) + (if bits[|bits| - 1] == 1 then 1 else 0)
  }

  lemma {:induction false} OnesSkipBits(n: nat, drawn: set<nat>)
    requires forall k :: k in drawn ==> k < n
    ensures Ones(SkipBits(n, drawn)) == |drawn|
  {
    if n > 0 {
      var rest := drawn - {n - 1};
      OnesSkipBits(n - 1, rest);
      assert SkipBits(n, drawn)[..n - 1] == SkipBits(n - 1, rest);
    }
  }

  /** The drawn indices as a set. */
  function Elements(xs: seq<nat>): set<nat> {
    set k | k in xs
  }

  /** Distinct draws are as many indices as there are draws. */
  lemma {:induction false} DistinctCard(xs: seq<nat>)
    requires Distinct(xs)
    ensures |Elements(xs)| == |xs|
  {
    if xs != [] {
      var init, last := xs[..|xs| - 1], xs[|xs| - 1];
      assert Distinct(init);
      DistinctCard(init);
      assert last !in Elements(init);
      assert Elements(xs) == Elements(init) + {last} by {
        assert xs == init + [last];
      }
    }
  }

  /**
    A successful sample has `L + L*(L-1)/2` tokens, and exactly `int(num_skips * skip_target)`
    of its skip bits are ones.
   */
  lemma SampledSpec(layerSizes: seq<nat>, skipTarget: real, skipDraw: seq<nat>, opDraws: seq<nat>)
    requires ValidDraws(layerSizes, skipTarget, skipDraw, opDraws)
    ensures Sampled(layerSizes, skipTarget, skipDraw, opDraws).Success? ==>
      var n := |layerSizes|;
      2 * |Sampled(layerSizes, skipTarget, skipDraw, opDraws).value| == 2 * n + n * (n - 1) &&
      Ones(SkipBits(Tri(n), Elements(skipDraw))) == SkipCount(n, skipTarget)
  {
    var n := |layerSizes|;
    TriClosed(n);
    if Sampled(layerSizes, skipTarget, skipDraw, opDraws).Success? {
      var drawn := Elements(skipDraw);
      var arc := Arc(opDraws, SkipBits(Tri(n), drawn), n);
      assert Sampled(layerSizes, skipTarget, skipDraw, opDraws).value == arc;
      assert |arc| == n + Tri(n);
      assert 0 <= SkipCount(n, skipTarget) <= Tri(n);
      assert |skipDraw| == SkipCount(n, skipTarget);
      DistinctCard(skipDraw);
      forall k | k in drawn ensures k < Tri(n) {
        var i :| 0 <= i < |skipDraw| && skipDraw[i] == k;
      }
      OnesSkipBits(Tri(n), drawn);
    }
  }

  // ---------------------------------------------------------------------------------------
  // read_controller_train_history

  /** A row of the controller history: episode number, reward (column 2) and architecture tokens (columns 3 on). */
  datatype HistoryRow = HistoryRow(episode: int, auc: real, arc: seq<real>)

  /** The rows of the last `last_only` episodes (`episode >= nrows - last_only`), in their order; all rows without `last_only`. */
  function Recent(rows: seq<HistoryRow>, lastOnly: Option<int>): seq<HistoryRow> {
    if lastOnly.None? then rows else RecentFrom(rows, |rows| - lastOnly.value)
  }

  function RecentFrom(rows: seq<HistoryRow>, start: int): seq<HistoryRow> {
    if rows == [] then []
    else
      var init := RecentFrom(rows[..|rows| - 1], start);
      if rows[|rows| - 1].episode >= start then init + [rows[|rows| - 1]] else init
  }

  lemma {:induction false} RecentFromSpec(rows: seq<HistoryRow>, start: int)
    ensures forall r :: r in RecentFrom(rows, start) <==> r in rows && r.episode >= start
  {
    if rows != [] {
      RecentFromSpec(rows[..|rows| - 1], start);
      assert rows == rows[..|rows| - 1] + [rows[|rows| - 1]];
    }
  }

  /** Row `b` has the highest reward, and every earlier row a strictly lower one. */
  predicate FirstBest(d: seq<HistoryRow>, b: int) {
    0 <= b < |d| &&
    (forall j :: 0 <= j < |d| ==> d[j].auc <= d[b].auc) &&
    (forall j :: 0 <= j < b ==> d[j].auc < d[b].auc)
  }

  /**
    `read_controller_train_history`: the architecture and reward of the first row with the
    highest reward (a later row replaces the best only when strictly better); with no rows,
    no architecture and a reward of minus infinity (`None`).
   */
  method ReadControllerTrainHistory(rows: seq<HistoryRow>, lastOnly: Option<int>)
    returns (bestArc: Option<seq<real>>, bestAuc: Option<real>)
    ensures var d := Recent(rows, lastOnly);
      (d == [] ==> bestArc == None && bestAuc == None) &&
      (d != [] ==> exists b :: FirstBest(d, b) && bestArc == Some(d[b].arc) && bestAuc == Some(d[b].auc))
  {
    var d := Recent(rows, lastOnly);
    bestAuc := None;
    bestArc := None;
    ghost var b := -1;
    for i := 0 to |d|
      invariant i == 0 ==> bestArc == None && bestAuc == None
      invariant i > 0 ==> FirstBest(d[..i], b) && bestArc == Some(d[b].arc) && bestAuc == Some(d[b].auc)
    {
      if bestAuc.None? || d[i].auc > bestAuc.value {
        bestArc := Some(d[i].arc);
        bestAuc := Some(d[i].auc);
        b := i;
      }
    }
    if d != [] {
      assert d[..|d|] == d;
    }
  }
}
