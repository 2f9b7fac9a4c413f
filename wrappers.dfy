/**
  Failure-carrying values shared by every module of the model.

  Python code in the pipeline signals failure by raising; each raise the model keeps becomes a
  `Failure` carrying the kind of exception the interpreter would raise, and a value that numpy
  would turn into NaN or inf becomes `None`.
 */
module Wrappers {

  datatype Option<+T> = None | Some(value: T)

  /** The Python exceptions that the modelled code can raise. */
  datatype PyError =
    | KeyError        // a dictionary lookup of a missing key
    | IndexError      // a list, string or array index out of range
    | ValueError      // int() of a malformed literal, a shape or length mismatch, a bad sample size
    | SyntaxError     // eval() of a malformed integer literal
    | TypeError       // a value of the wrong type
    | FileNotFound    // a file the code opens that does not exist
    | RaisedException // an explicit `raise Exception(...)`

  datatype Result<+T> = Success(value: T) | Failure(error: PyError)

  /** Applying a raising function to each element in turn; the first failure propagates. */
  function MapAll<T, U>(xs: seq<T>, f: T -> Result<U>): (r: Result<seq<U>>)
    ensures r.Success? ==> |r.value| == |xs|
  {
    if xs == [] then Success([])
    else
      match MapAll(xs[..|xs| - 1], f)
      case Failure(e) => Failure(e)
      case Success(ys) =>
        match f(xs[|xs| - 1])
        case Failure(e) => Failure(e)
        case Success(y) => Success(ys + [y])
  }

  /** Once a prefix has failed, `MapAll` fails with the same error. */
  lemma {:induction false} MapAllPrefixFailure<T, U>(xs: seq<T>, f: T -> Result<U>, k: nat)
    requires k <= |xs| && MapAll(xs[..k], f).Failure?
    ensures MapAll(xs, f) == MapAll(xs[..k], f)
    decreases |xs|
  {
    if k < |xs| {
      var init := xs[..|xs| - 1];
      assert init[..k] == xs[..k];
      MapAllPrefixFailure(init, f, k);
    } else {
      assert xs[..k] == xs;
    }
  }

  /** `MapAll` succeeds exactly when every element does, with the results in order. */
  lemma {:induction false} MapAllElements<T, U>(xs: seq<T>, f: T -> Result<U>)
    ensures MapAll(xs, f).Success? <==> forall i :: 0 <= i < |xs| ==> f(xs[i]).Success?
    ensures MapAll(xs, f).Failure? ==> exists i :: 0 <= i < |xs| && f(xs[i]) == Failure(MapAll(xs, f).error)
    ensures MapAll(xs, f).Success? ==> |MapAll(xs, f).value| == |xs|
    ensures MapAll(xs, f).Success? ==>
      forall i :: 0 <= i < |xs| ==> f(xs[i]) == Success(MapAll(xs, f).value[i])
  {
    if xs != [] {
      var init, last := xs[..|xs| - 1], xs[|xs| - 1];
      MapAllElements(init, f);
      assert forall i :: 0 <= i < |init| ==> xs[i] == init[i];
      if MapAll(init, f).Success? && f(last).Success? {
        var ys := MapAll(init, f).value + [f(last).value];
        forall i | 0 <= i < |xs| ensures f(xs[i]) == Success(ys[i]) {
          if i < |init| {
            assert ys[i] == MapAll(init, f).value[i];
          }
        }
      } else if MapAll(init, f).Success? {
        assert f(xs[|xs| - 1]) == Failure(MapAll(xs, f).error);
      } else {
        var k :| 0 <= k < |init| && f(init[k]) == Failure(MapAll(init, f).error);
        assert f(xs[k]) == Failure(MapAll(xs, f).error);
      }
    }
  }

  /** One more element: `MapAll` extends by that element's result, or fails with its error. */
  lemma MapAllStep<T, U>(xs: seq<T>, f: T -> Result<U>, i: nat, ys: seq<U>)
    requires i < |xs| && MapAll(xs[..i], f) == Success(ys)
    ensures f(xs[i]).Failure? ==> MapAll(xs[..i + 1], f) == Failure(f(xs[i]).error)
    ensures f(xs[i]).Success? ==> MapAll(xs[..i + 1], f) == Success(ys + [f(xs[i]).value])
  {
    assert xs[..i + 1][..i] == xs[..i];
  }
  /** `MapAll` over a concatenation: the first part's failure, else the second's, else both results in order. */
  lemma {:induction false} MapAllAppend<T, U>(a: seq<T>, b: seq<T>, f: T -> Result<U>)
    ensures MapAll(a, f).Failure? ==> MapAll(a + b, f) == MapAll(a, f)
    ensures MapAll(a, f).Success? && MapAll(b, f).Failure? ==> MapAll(a + b, f) == Failure(MapAll(b, f).error)
    ensures MapAll(a, f).Success? && MapAll(b, f).Success? ==>
      MapAll(a + b, f) == Success(MapAll(a, f).value + MapAll(b, f).value)
    decreases |b|
  {
    if b == [] {
      assert a + b == a;
      if MapAll(a, f).Success? {
        assert MapAll(a, f).value + [] == MapAll(a, f).value;
      }
    } else if MapAll(a, f).Failure? {
      assert (a + b)[..|a|] == a;
      MapAllPrefixFailure(a + b, f, |a|);
    } else {
      var init := b[..|b| - 1];
      assert (a + b)[..|a + b| - 1] == a + init;
      assert (a + b)[|a + b| - 1] == b[|b| - 1];
      MapAllAppend(a, init, f);
      if MapAll(init, f).Success? && f(b[|b| - 1]).Success? {
        assert MapAll(a, f).value + MapAll(init, f).value + [f(b[|b| - 1]).value]
            == MapAll(a, f).value + (MapAll(init, f).value + [f(b[|b| - 1]).value]);
      }
    }
  }

  /** Two functions that agree on every element give the same `MapAll`. */
  lemma {:induction false} MapAllCongruent<T, U>(xs: seq<T>, f: T -> Result<U>, g: T -> Result<U>)
    requires forall i :: 0 <= i < |xs| ==> f(xs[i]) == g(xs[i])
    ensures MapAll(xs, f) == MapAll(xs, g)
  {
    if xs != [] {
      var init := xs[..|xs| - 1];
      assert forall i :: 0 <= i < |init| ==> init[i] == xs[i];
      MapAllCongruent(init, f, g);
    }
  }
  /** `MapAll` over one element is that element's result. */
  lemma MapAllSingle<T, U>(x: T, f: T -> Result<U>)
    ensures f(x).Failure? ==> MapAll([x], f) == Failure(f(x).error)
    ensures f(x).Success? ==> MapAll([x], f) == Success([f(x).value])
  {
    assert [x][..0] == [] && [x][0] == x;
    assert MapAll([x][..0], f) == Success([]);
    if f(x).Success? {
      assert [] + [f(x).value] == [f(x).value];
    }
  }
}
