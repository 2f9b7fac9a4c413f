/**
  The pieces both one-hot encoders share: the character-to-column mapping built by
  `dict(zip(base_map, range(4)))` and the rows of `np.eye(4)`.

  Matrix entries are exact reals, so a row of `np.eye(4)` is a sequence of four reals.
 */
module OneHot {
  import opened Wrappers

  type Row = seq<real>

  /** Row `i` of the 4x4 identity matrix. */
  function Unit(i: nat): (r: Row)
    requires i < 4
    ensures |r| == 4 && r[i] == 1.0
    ensures forall j :: 0 <= j < 4 && j != i ==> r[j] == 0.0
  {
    seq(4, j requires 0 <= j < 4 => if j == i then 1.0 else 0.0)
  }

  /** The row an `N` contributes in the evaluation encoder. */
  const Quarter: Row := [0.25, 0.25, 0.25, 0.25]

  function RowSum(r: Row): real
    requires |r| == 4
  {
    r[0] + r[1] + r[2] + r[3]
  }

  /** Every unit row sums to one. */
  lemma UnitSum(i: nat)
    requires i < 4
    ensures RowSum(Unit(i)) == 1.0
  {
    var r := Unit(i);
    if i == 0 {
      assert r == [1.0, 0.0, 0.0, 0.0];
    } else if i == 1 {
      assert r == [0.0, 1.0, 0.0, 0.0];
    } else if i == 2 {
      assert r == [0.0, 0.0, 1.0, 0.0];
    } else {
      assert r == [0.0, 0.0, 0.0, 1.0];
    }
  }

  /** The dictionary built from the first `n` pairs of `zip(base_map, range(4))`, a later key overriding an earlier one. */
  function Zip(baseMap: string, n: nat): map<char, nat>
    requires n <= |baseMap| && n <= 4
  {
    if n == 0 then map[] else Zip(baseMap, n - 1)[baseMap[n - 1] := n - 1]
  }

  /** The number of pairs `zip` produces: it stops at the shorter of `base_map` and `range(4)`. */
  function Width(baseMap: string): nat {
    if |baseMap| < 4 then |baseMap| else 4
  }

  /** `dict(zip(base_map, range(4)))` */
  function Mapping(baseMap: string): map<char, nat> {
    Zip(baseMap, Width(baseMap))
  }

  /**
    The keys are the characters among the first `n` of `base_map`, and each maps to the
    position of its last occurrence among them.
   */
  lemma {:induction false} ZipSpec(baseMap: string, n: nat)
    requires n <= |baseMap| && n <= 4
    ensures forall c :: c in Zip(baseMap, n) <==> c in baseMap[..n]
    ensures forall c :: c in Zip(baseMap, n) ==>
      Zip(baseMap, n)[c] < n && baseMap[Zip(baseMap, n)[c]] == c &&
      forall j :: Zip(baseMap, n)[c] < j < n ==> baseMap[j] != c
  {
    if n > 0 {
      ZipSpec(baseMap, n - 1);
      assert baseMap[..n] == baseMap[..n - 1] + [baseMap[n - 1]];
    }
  }

  /** A character of the first four of `base_map` maps to the index of its last occurrence there; nothing else is a key. */
  lemma MappingSpec(baseMap: string)
    ensures forall c :: c in Mapping(baseMap) <==> c in baseMap[..Width(baseMap)]
    ensures forall c :: c in Mapping(baseMap) ==>
      Mapping(baseMap)[c] < Width(baseMap) && baseMap[Mapping(baseMap)[c]] == c &&
      forall j :: Mapping(baseMap)[c] < j < Width(baseMap) ==> baseMap[j] != c
  {
    ZipSpec(baseMap, Width(baseMap));
  }

  /** When the first four characters are distinct, each maps to its own index. */
  lemma MappingIndex(baseMap: string, i: nat)
    requires i < Width(baseMap)
    requires forall j, k :: 0 <= j < k < Width(baseMap) ==> baseMap[j] != baseMap[k]
    ensures baseMap[i] in Mapping(baseMap) && Mapping(baseMap)[baseMap[i]] == i
  {
    MappingSpec(baseMap);
    var c := baseMap[i];
    assert c in baseMap[..Width(baseMap)] by {
      assert baseMap[..Width(baseMap)][i] == c;
    }
  }

  /** The map the web view and the evaluation script use: A, C, G, T to columns 0 to 3. */
  lemma MappingACGT()
    ensures Mapping("ACGT") == map['A' := 0, 'C' := 1, 'G' := 2, 'T' := 3]
  {
    var m := Mapping("ACGT");
    MappingSpec("ACGT");
    forall i | 0 <= i < 4 ensures "ACGT"[i] in m && m["ACGT"[i]] == i {
      MappingIndex("ACGT", i);
    }
    assert m.Keys == {'A', 'C', 'G', 'T'};
  }

  /** `np.eye(4)[mapping[c]]`, raising KeyError for a character that is not a key. */
  function CharRowOf(mapping: map<char, nat>, c: char): Result<Row> {
    if c !in mapping then Failure(KeyError)
    else if mapping[c] < 4 then Success(Unit(mapping[c]))
    else Failure(IndexError)
  }

  /** `CharRowOf` as a one-argument function, for mapping over a sequence. */
  function CharRow(mapping: map<char, nat>): char -> Result<Row> {
    (c: char) => CharRowOf(mapping, c)
  }

  /** The mapping's values are row indices of the identity matrix. */
  lemma MappingBounded(baseMap: string)
    ensures forall c :: c in Mapping(baseMap) ==> Mapping(baseMap)[c] < 4
  {
    MappingSpec(baseMap);
  }
}
