/**
  The evaluation script's one-hot encoder (model_creation/model_evaluation/evaluate.py).

  `one_hot_encode` splits the sequence on `N`, encodes each chunk through the base map and
  stacks the chunks with a uniform row in place of each `N`; `one_hot_encode_lst` stacks the
  encodings of a column of sequences and reshapes the stack to `(count, len_, 4)`.
 */
module Evaluate {
  import opened Wrappers
  import opened PyStr
  import opened OneHot

  /** `TASK_IDENTIFIER`: the prediction column of each summary statistic. */
  const TaskIdentifier: map<string, nat> := map[
    "delfreq" := 0, "prob_1bpins" := 1, "prob_1bpdel" := 2,
    "onemod3_freq" := 3, "twomod3_freq" := 4, "frameshift_freq" := 5]

  /** What one character of the sequence becomes: a uniform row for `N`, its identity row otherwise. */
  function EncodeChar(mapping: map<char, nat>, c: char): Result<Row> {
    if c == 'N' then Success(Quarter) else CharRowOf(mapping, c)
  }

  /** `EncodeChar` as a one-argument function, for mapping over a sequence. */
  function Encode(mapping: map<char, nat>): char -> Result<Row> {
    (c: char) => EncodeChar(mapping, c)
  }

  /** The encoding of a whole sequence, one row per character. */
  function OneHotOf(s: string, baseMap: string): Result<seq<Row>> {
    MapAll(s, Encode(Mapping(baseMap)))
  }

  /** Stacking the encoding of a chunk with no `N` in it is the same as encoding it. */
  lemma ChunkRows(s: string, n: nat, mapping: map<char, nat>)
    requires n < |Split(s, "N")|
    ensures MapAll(Split(s, "N")[n], CharRow(mapping)) == MapAll(Split(s, "N")[n], Encode(mapping))
  {
    SplitFree(s, 'N');
    MapAllCongruent(Split(s, "N")[n], CharRow(mapping), Encode(mapping));
  }

  /** A character that is neither `N` nor a key of the mapping makes the whole encoding raise KeyError. */
  lemma OneHotRejects(s: string, baseMap: string, i: nat)
    requires i < |s| && s[i] != 'N' && s[i] !in Mapping(baseMap)
    ensures OneHotOf(s, baseMap) == Failure(KeyError)
  {
    var f := Encode(Mapping(baseMap));
    MapAllElements(s, f);
    MappingBounded(baseMap);
    assert f(s[i]).Failure?;
    var k :| 0 <= k < |s| && f(s[k]) == Failure(MapAll(s, f).error);
  }

  /**
    `one_hot_encode`: the first chunk, then for every further chunk a uniform row followed by
    that chunk's rows.
   */
  method OneHotEncode(s: string, baseMap: string) returns (r: Result<seq<Row>>)
    ensures r == OneHotOf(s, baseMap)
  {
    var mapping := Mapping(baseMap);
    var parts := Split(s, "N");
    var first := MapAll(parts[0], CharRow(mapping));
    if first.Failure? {
      RejectedChunk(s, baseMap, parts, 0);
      return Failure(KeyError);
    }
    ChunkRows(s, 0, mapping);
    assert parts[..1] == [parts[0]];
    var rows := first.value;
    var n := 1;
    while n < |parts|
      invariant 1 <= n <= |parts|
      invariant MapAll(Join(parts[..n], "N"), Encode(mapping)) == Success(rows)
    {
      var next := MapAll(parts[n], CharRow(mapping));
      if next.Failure? {
        RejectedChunk(s, baseMap, parts, n);
        return Failure(KeyError);
      }
      ChunkRows(s, n, mapping);
      StackStep(parts, n, mapping, rows);
      rows := rows + [Quarter] + next.value;
      n := n + 1;
    }
    assert parts[..n] == parts;
    JoinSplit(s, "N");
    r := Success(rows);
  }

  /** A chunk of `s.split('N')` that raises makes the encoding of `s` raise KeyError. */
  lemma RejectedChunk(s: string, baseMap: string, parts: seq<string>, n: nat)
    requires parts == Split(s, "N") && n < |parts|
    requires MapAll(parts[n], CharRow(Mapping(baseMap))).Failure?
    ensures OneHotOf(s, baseMap) == Failure(KeyError)
  {
    var mapping := Mapping(baseMap);
    SplitFree(s, 'N');
    JoinSplit(s, "N");
    MapAllElements(parts[n], CharRow(mapping));
    MappingBounded(baseMap);
    var j :| 0 <= j < |parts[n]| && CharRow(mapping)(parts[n][j]).Failure?;
    JoinMember(parts, "N", n, j);
    var i :| 0 <= i < |s| && s[i] == parts[n][j];
    OneHotRejects(s, baseMap, i);
  }

  /** One more chunk: the stack grows by a uniform row and the chunk's rows. */
  lemma StackStep(parts: seq<string>, n: nat, mapping: map<char, nat>, rows: seq<Row>)
    requires 1 <= n < |parts|
    requires MapAll(Join(parts[..n], "N"), Encode(mapping)) == Success(rows)
    requires MapAll(parts[n], Encode(mapping)).Success?
    ensures MapAll(Join(parts[..n + 1], "N"), Encode(mapping)) ==
      Success(rows + [Quarter] + MapAll(parts[n], Encode(mapping)).value)
  {
    var f := Encode(mapping);
    assert parts[..n + 1] == parts[..n] + [parts[n]];
    JoinAppend(parts[..n], parts[n], "N");
    var pre := Join(parts[..n], "N");
    assert MapAll("N", f) == Success([Quarter]) by {
      assert f('N') == Success(Quarter);
      MapAllSingle('N', f);
    }
    MapAllAppend(pre, "N", f);
    MapAllAppend(pre + "N", parts[n], f);
  }

  /**
    The encoding succeeds exactly when every character is `N` or a key of the mapping; then
    it has one row per character, an `N` giving the uniform row and any other character the
    identity row at its index, and every row has four entries summing to one.
   */
  lemma OneHotSpec(s: string, baseMap: string)
    ensures OneHotOf(s, baseMap).Success? <==>
      forall i :: 0 <= i < |s| ==> s[i] == 'N' || s[i] in Mapping(baseMap)
    ensures OneHotOf(s, baseMap).Success? ==>
      var rows := OneHotOf(s, baseMap).value;
      |rows| == |s| &&
      forall i :: 0 <= i < |s| ==>
        (s[i] != 'N' ==> s[i] in Mapping(baseMap) && Mapping(baseMap)[s[i]] < 4) &&
        rows[i] == (if s[i] == 'N' then Quarter else Unit(Mapping(baseMap)[s[i]])) &&
        |rows[i]| == 4 && RowSum(rows[i]) == 1.0
  {
    var mapping := Mapping(baseMap);
    var f := Encode(mapping);
    MapAllElements(s, f);
    MappingBounded(baseMap);
    if MapAll(s, f).Success? {
      var rows := MapAll(s, f).value;
      forall i | 0 <= i < |s| ensures |rows[i]| == 4 && RowSum(rows[i]) == 1.0 {
        assert f(s[i]) == Success(rows[i]);
        if s[i] != 'N' {
          UnitSum(mapping[s[i]]);
        }
      }
    }
  }

  /** The encoding of `base_map` itself, when its four characters are distinct and not `N`, is the identity matrix. */
  lemma OneHotIdentity(baseMap: string)
    requires |baseMap| == 4
    requires forall j, k :: 0 <= j < k < 4 ==> baseMap[j] != baseMap[k]
    requires forall j :: 0 <= j < 4 ==> baseMap[j] != 'N'
    ensures OneHotOf(baseMap, baseMap) == Success([Unit(0), Unit(1), Unit(2), Unit(3)])
  {
    forall i | 0 <= i < 4 ensures baseMap[i] in Mapping(baseMap) && Mapping(baseMap)[baseMap[i]] == i {
      MappingIndex(baseMap, i);
    }
    OneHotSpec(baseMap, baseMap);
    var rows := OneHotOf(baseMap, baseMap).value;
    assert rows == [rows[0], rows[1], rows[2], rows[3]];
  }

  /** The rows of several encodings stacked one after another (`np.concatenate`). */
  function Concat(blocks: seq<seq<Row>>): seq<Row> {
    if blocks == [] then [] else Concat(blocks[..|blocks| - 1]) + blocks[|blocks| - 1]
  }

  /** Cutting a stack of `number * width` rows into `number` consecutive blocks of `width` rows. */
  function Blocks(rows: seq<Row>, number: nat, width: nat): (bs: seq<seq<Row>>)
    requires |rows| == number * width
    ensures |bs| == number
    ensures forall k :: 0 <= k < number ==> |bs[k]| == width
  {
    if number == 0 then []
    else
      assert |rows| == (number - 1) * width + width;
      Blocks(rows[..|rows| - width], number - 1, width) + [rows[|rows| - width..]]
  }

  /** `np.reshape(stack, (number, len_, 4))`: possible only when the row count is `number * len_`. */
  function Reshape(rows: seq<Row>, number: nat, width: nat): Result<seq<seq<Row>>> {
    if |rows| == number * width then Success(Blocks(rows, number, width)) else Failure(ValueError)
  }

  /** The encoder as a one-argument function, for mapping over a column of sequences. */
  function OneHotIn(baseMap: string): string -> Result<seq<Row>> {
    (s: string) => OneHotOf(s, baseMap)
  }

  /**
    `one_hot_encode_lst`: `seq_col[0]` on an empty column raises KeyError (a pandas label
    lookup); otherwise every sequence is encoded in turn and the stack reshaped.
   */
  function EncodedColumn(col: seq<string>, width: nat, baseMap: string): Result<seq<seq<Row>>> {
    if col == [] then Failure(KeyError)
    else
      match MapAll(col, OneHotIn(baseMap))
      case Failure(e) => Failure(e)
      case Success(encs) => Reshape(Concat(encs), |col|, width)
  }

  method OneHotEncodeLst(col: seq<string>, width: nat, baseMap: string) returns (r: Result<seq<seq<Row>>>)
    ensures r == EncodedColumn(col, width, baseMap)
  {
    if col == [] {
      return Failure(KeyError);
    }
    var number := 1;
    var first := OneHotEncode(col[0], baseMap);
    if first.Failure? {
      MapAllPrefixFailure(col, OneHotIn(baseMap), 1);
      return Failure(first.error);
    }
    assert col[..1] == [col[0]];
    assert OneHotIn(baseMap)(col[0]) == first;
    MapAllSingle(col[0], OneHotIn(baseMap));
    var stack := first.value;
    assert Concat([first.value]) == stack by {
      assert [first.value][..0] == [];
    }
    ghost var encs := [first.value];
    for i := 1 to |col|
      invariant number == i
      invariant MapAll(col[..i], OneHotIn(baseMap)) == Success(encs)
      invariant stack == Concat(encs)
    {
      var enc := OneHotEncode(col[i], baseMap);
      MapAllStep(col, OneHotIn(baseMap), i, encs);
      if enc.Failure? {
        MapAllPrefixFailure(col, OneHotIn(baseMap), i + 1);
        return Failure(enc.error);
      }
      assert (encs + [enc.value])[..|encs|] == encs;
      stack := stack + enc.value;
      encs := encs + [enc.value];
      number := number + 1;
    }
    assert col[..|col|] == col;
    r := Reshape(stack, number, width);
  }

  /** Stacking blocks of equal width and cutting the stack again gives back the blocks. */
  lemma {:induction false} BlocksConcat(encs: seq<seq<Row>>, width: nat)
    requires forall k :: 0 <= k < |encs| ==> |encs[k]| == width
    ensures |Concat(encs)| == |encs| * width
    ensures Blocks(Concat(encs), |encs|, width) == encs
  {
    if encs != [] {
      var init := encs[..|encs| - 1];
      BlocksConcat(init, width);
      var rows := Concat(encs);
      assert rows == Concat(init) + encs[|encs| - 1];
      assert |rows| == |init| * width + width;
      assert rows[..|rows| - width] == Concat(init);
      assert rows[|rows| - width..] == encs[|encs| - 1];
      assert init + [encs[|encs| - 1]] == encs;
    }
  }

  /** The rows in a stack are the sum of the blocks' lengths. */
  function TotalLength(col: seq<string>): nat {
    if col == [] then 0 else TotalLength(col[..|col| - 1]) + |col[|col| - 1]|
  }

  lemma {:induction false} ConcatLength(col: seq<string>, encs: seq<seq<Row>>)
    requires |encs| == |col|
    requires forall k :: 0 <= k < |col| ==> |encs[k]| == |col[k]|
    ensures |Concat(encs)| == TotalLength(col)
  {
    if col != [] {
      ConcatLength(col[..|col| - 1], encs[..|encs| - 1]);
    }
  }

  /**
    When every sequence of a non-empty column encodes and has `len_` characters, block `k`
    of the result is the encoding of sequence `k`.
   */
  lemma ColumnBlocks(col: seq<string>, width: nat, baseMap: string)
    requires col != []
    requires forall k :: 0 <= k < |col| ==> |col[k]| == width && OneHotOf(col[k], baseMap).Success?
    ensures EncodedColumn(col, width, baseMap).Success?
    ensures |EncodedColumn(col, width, baseMap).value| == |col|
    ensures forall k :: 0 <= k < |col| ==>
      EncodedColumn(col, width, baseMap).value[k] == OneHotOf(col[k], baseMap).value
  {
    var f := OneHotIn(baseMap);
    MapAllElements(col, f);
    var encs := MapAll(col, f).value;
    forall k | 0 <= k < |col| ensures encs[k] == OneHotOf(col[k], baseMap).value && |encs[k]| == width {
      assert f(col[k]) == Success(encs[k]);
      OneHotSpec(col[k], baseMap);
    }
    BlocksConcat(encs, width);
  }

  /**
    The reshape checks only the total: a non-empty column whose sequences all encode succeeds
    exactly when their lengths add up to `count * len_`, whatever the individual lengths.
   */
  lemma ColumnTotalOnly(col: seq<string>, width: nat, baseMap: string)
    requires col != []
    requires forall k :: 0 <= k < |col| ==> OneHotOf(col[k], baseMap).Success?
    ensures EncodedColumn(col, width, baseMap).Success? <==> TotalLength(col) == |col| * width
  {
    var f := OneHotIn(baseMap);
    MapAllElements(col, f);
    var encs := MapAll(col, f).value;
    forall k | 0 <= k < |col| ensures |encs[k]| == |col[k]| {
      assert f(col[k]) == Success(encs[k]);
      OneHotSpec(col[k], baseMap);
    }
    ConcatLength(col, encs);
  }

  /** A column with any sequence that does not encode raises KeyError. */
  lemma ColumnRejects(col: seq<string>, width: nat, baseMap: string, k: nat)
    requires k < |col| && OneHotOf(col[k], baseMap).Failure?
    ensures EncodedColumn(col, width, baseMap) == Failure(KeyError)
  {
    var f := OneHotIn(baseMap);
    MapAllElements(col, f);
    var j :| 0 <= j < |col| && f(col[j]) == Failure(MapAll(col, f).error);
    OneHotError(col[j], baseMap);
  }

  /** The encoder's only error is KeyError. */
  lemma OneHotError(s: string, baseMap: string)
    ensures OneHotOf(s, baseMap).Failure? ==> OneHotOf(s, baseMap).error == KeyError
  {
    var f := Encode(Mapping(baseMap));
    MapAllElements(s, f);
    MappingBounded(baseMap);
    if MapAll(s, f).Failure? {
      var i :| 0 <= i < |s| && f(s[i]) == Failure(MapAll(s, f).error);
    }
  }
}
