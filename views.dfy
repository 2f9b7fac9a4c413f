/**
  The web view's encoder (app/views.py): upper-case the submitted sequence, look every
  character up in the base map and take the matching identity rows, then reshape the
  result to the model's `(1, 60, 4)` input.
 */
module Views {
  import opened Wrappers
  import opened PyStr
  import opened OneHot
  import opened Forms

  /** The base map the view passes to the encoder. */
  const ViewBaseMap: string := "ACGT"

  /** The sequence length the prediction models take. */
  const ModelLength: nat := 60

  /** `one_hot_encode` of the view: no `N` handling, every character must be a key after upper-casing. */
  function ViewOneHot(s: string, baseMap: string): Result<seq<Row>> {
    MapAll(Upper(s), CharRow(Mapping(baseMap)))
  }

  /**
    The encoding succeeds exactly when every upper-cased character is a key; then it has one
    row per character, row `i` being the identity row at the index of `upper(s[i])`.
   */
  lemma ViewOneHotSpec(s: string, baseMap: string)
    ensures ViewOneHot(s, baseMap).Success? <==>
      forall i :: 0 <= i < |s| ==> UpperChar(s[i]) in Mapping(baseMap)
    ensures ViewOneHot(s, baseMap).Success? ==>
      var rows := ViewOneHot(s, baseMap).value;
      |rows| == |s| &&
      forall i :: 0 <= i < |s| ==>
        UpperChar(s[i]) in Mapping(baseMap) && Mapping(baseMap)[UpperChar(s[i])] < 4 &&
        rows[i] == Unit(Mapping(baseMap)[UpperChar(s[i])]) && RowSum(rows[i]) == 1.0
  {
    var f := CharRow(Mapping(baseMap));
    var u := Upper(s);
    MapAllElements(u, f);
    MappingBounded(baseMap);
    if MapAll(u, f).Success? {
      var rows := MapAll(u, f).value;
      forall i | 0 <= i < |s| ensures RowSum(rows[i]) == 1.0 {
        assert f(u[i]) == Success(rows[i]);
        UnitSum(Mapping(baseMap)[u[i]]);
      }
    }
  }

  /** Upper- and lower-case inputs encode alike. */
  lemma ViewCaseInsensitive(s: string, baseMap: string)
    ensures ViewOneHot(Upper(s), baseMap) == ViewOneHot(s, baseMap)
  {
    assert Upper(Upper(s)) == Upper(s);
  }

  /** `np.reshape(rows, (1, 60, 4))`: one block of all the rows, or ValueError unless there are exactly 60. */
  function ModelInput(rows: seq<Row>): (r: Result<seq<seq<Row>>>)
    ensures r.Success? <==> |rows| == ModelLength
    ensures r.Success? ==> r.value == [rows]
  {
    if |rows| == ModelLength then Success([rows]) else Failure(ValueError)
  }

  /**
    Every sequence the form accepts encodes under the view's base map (the form's alphabet
    upper-cases into it), to 79 rows, which the `(1, 60, 4)` reshape then rejects.
   */
  lemma AcceptedInputRejected(s: string)
    requires Accepted(s)
    ensures ViewOneHot(s, ViewBaseMap).Success?
    ensures |ViewOneHot(s, ViewBaseMap).value| == InputLength
    ensures ModelInput(ViewOneHot(s, ViewBaseMap).value) == Failure(ValueError)
  {
    MappingACGT();
    ViewOneHotSpec(s, ViewBaseMap);
    forall i | 0 <= i < |s| ensures UpperChar(s[i]) in Mapping(ViewBaseMap) {
      assert s[i] in Bases;
    }
  }
}
