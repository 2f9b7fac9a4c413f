/**
  Sums over sequences and over the keys of a map: what `sum(...)`, `+=` in a loop and
  numpy's `.sum()` compute in the pipeline.
 */
module Sums {
  import opened Wrappers

  /** The sum of a sequence, added up from the front as a loop does. */
  function SeqSum(xs: seq<int>): int {
    if xs == [] then 0 else SeqSum(xs[..|xs| - 1]) + xs[|xs| - 1]
  }

  lemma {:induction false} SeqSumAppend(xs: seq<int>, ys: seq<int>)
    ensures SeqSum(xs + ys) == SeqSum(xs) + SeqSum(ys)
    decreases |ys|
  {
    if ys != [] {
      assert (xs + ys)[..|xs + ys| - 1] == xs + ys[..|ys| - 1];
      SeqSumAppend(xs, ys[..|ys| - 1]);
    } else {
      assert xs + ys == xs;
    }
  }

  /** The sum of `f` over a finite set of keys. */
  ghost function SetSum<K>(keys: set<K>, f: K -> int): int {
    if keys == {} then 0 else var k :| k in keys; f(k) + SetSum(keys - {k}, f)
  }

  /** Any key can be taken out first: the order of summation does not matter. */
  lemma SetSumRemove<K>(keys: set<K>, f: K -> int, k: K)
    requires k in keys
    ensures SetSum(keys, f) == f(k) + SetSum(keys - {k}, f)
  {
    var k' :| k' in keys && SetSum(keys, f) == f(k') + SetSum(keys - {k'}, f);
    if k' != k {
      SetSumRemove(keys - {k'}, f, k);
      SetSumRemove(keys - {k}, f, k');
      assert keys - {k'} - {k} == keys - {k} - {k'};
    }
  }

  /** Adding a key that is not yet there adds its value. */
  lemma SetSumInsert<K>(keys: set<K>, f: K -> int, k: K)
    requires k !in keys
    ensures SetSum(keys + {k}, f) == SetSum(keys, f) + f(k)
  {
    SetSumRemove(keys + {k}, f, k);
    assert keys + {k} - {k} == keys;
  }

  /** Sums of functions that agree on the keys are equal, and the sum is linear. */
  lemma {:induction false} SetSumLinear<K>(keys: set<K>, f: K -> int, g: K -> int, h: K -> int)
    requires forall k :: k in keys ==> h(k) == f(k) + g(k)
    ensures SetSum(keys, h) == SetSum(keys, f) + SetSum(keys, g)
    decreases |keys|
  {
    if keys != {} {
      var k :| k in keys;
      SetSumRemove(keys, f, k);
      SetSumRemove(keys, g, k);
      SetSumRemove(keys, h, k);
      SetSumLinear(keys - {k}, f, g, h);
    }
  }

  lemma SetSumCongruent<K>(keys: set<K>, f: K -> int, g: K -> int)
    requires forall k :: k in keys ==> f(k) == g(k)
    ensures SetSum(keys, f) == SetSum(keys, g)
  {
    SetSumLinear(keys, f, _ => 0, g);
    SetSumZero(keys, _ => 0);
  }

  lemma {:induction false} SetSumZero<K>(keys: set<K>, f: K -> int)
    requires forall k :: k in keys ==> f(k) == 0
    ensures SetSum(keys, f) == 0
    decreases |keys|
  {
    if keys != {} {
      var k :| k in keys;
      SetSumRemove(keys, f, k);
      SetSumZero(keys - {k}, f);
    }
  }

  /** Keys on which `f` is zero do not change the sum. */
  lemma {:induction false} SetSumSubset<K>(small: set<K>, big: set<K>, f: K -> int)
    requires small <= big
    requires forall k :: k in big - small ==> f(k) == 0
    ensures SetSum(big, f) == SetSum(small, f)
    decreases |big|
  {
    if big - small == {} {
      forall x | x in big ensures x in small {
        assert x !in big - small;
      }
      assert big == small;
    } else {
      var k :| k in big - small;
      SetSumRemove(big, f, k);
      SetSumSubset(small, big - {k}, f);
    }
  }

  lemma {:induction false} SetSumMono<K>(keys: set<K>, f: K -> int, g: K -> int)
    requires forall k :: k in keys ==> f(k) <= g(k)
    ensures SetSum(keys, f) <= SetSum(keys, g)
    decreases |keys|
  {
    if keys != {} {
      var k :| k in keys;
      SetSumRemove(keys, f, k);
      SetSumRemove(keys, g, k);
      SetSumMono(keys - {k}, f, g);
    }
  }

  /** The value stored under `k`, or 0 for a missing key (a `defaultdict(int)` lookup). */
  function Get<K>(m: map<K, int>, k: K): int {
    if k in m then m[k] else 0
  }

  /** The sum of `f` over a sequence of keys, added up from the front. */
  function SumOver<K>(ks: seq<K>, f: K -> int): int {
    if ks == [] then 0 else SumOver(ks[..|ks| - 1], f) + f(ks[|ks| - 1])
  }

  predicate Distinct<K(==)>(ks: seq<K>) {
    forall i, j :: 0 <= i < j < |ks| ==> ks[i] != ks[j]
  }

  /** Summing over a listing of the keys without repeats is summing over the set. */
  lemma {:induction false} SumOverSet<K>(ks: seq<K>, keys: set<K>, f: K -> int)
    requires Distinct(ks) && forall k :: k in keys <==> k in ks
    ensures SumOver(ks, f) == SetSum(keys, f)
    decreases |ks|
  {
    if ks != [] {
      var last, init := ks[|ks| - 1], ks[..|ks| - 1];
      forall j | 0 <= j < |init| ensures init[j] != last {
        assert init[j] == ks[j];
      }
      forall k ensures k in keys - {last} <==> k in init {
        if k in ks && k != last {
          var j :| 0 <= j < |ks| && ks[j] == k;
          assert j < |ks| - 1;
          assert init[j] == k;
        }
      }
      SumOverSet(init, keys - {last}, f);
      SetSumRemove(keys, f, last);
    } else {
      assert keys == {};
    }
  }

  /** Iterating over a dictionary: every key once, in an order the model does not fix. */
  method Enumerate<K(==)>(keys: set<K>) returns (ks: seq<K>)
    ensures Distinct(ks) && forall k :: k in keys <==> k in ks
  {
    ks := [];
    var rest := keys;
    while rest != {}
      invariant rest <= keys
      invariant Distinct(ks)
      invariant forall k :: k in keys <==> k in ks || k in rest
      invariant forall k :: k in ks ==> k !in rest
      decreases |rest|
    {
      var k :| k in rest;
      ks, rest := ks + [k], rest - {k};
    }
  }
  /** A loop that appends each element not yet collected: the first occurrences, in order. */
  function Dedup<T(==)>(xs: seq<T>): seq<T> {
    if xs == [] then []
    else
      var init := Dedup(xs[..|xs| - 1]);
      if xs[|xs| - 1] in init then init else init + [xs[|xs| - 1]]
  }

  /** Deduplicating keeps every element once and adds nothing. */
  lemma {:induction false} DedupSpec<T>(xs: seq<T>)
    ensures Distinct(Dedup(xs))
    ensures forall x :: x in Dedup(xs) <==> x in xs
    ensures |Dedup(xs)| <= |xs|
  {
    if xs != [] {
      var init, last := xs[..|xs| - 1], xs[|xs| - 1];
      DedupSpec(init);
      assert xs == init + [last];
      var d := Dedup(init);
      if last !in d {
        var d' := d + [last];
        forall i, j | 0 <= i < j < |d'| ensures d'[i] != d'[j] {
          if j == |d| { assert d'[i] in d; }
        }
      }
    }
  }

  /** numpy's `a / b` on counts: `None` stands for the NaN or inf of a zero denominator. */
  function Div(a: int, b: int): (q: Option<real>)
    ensures q.None? <==> b == 0
  {
    if b == 0 then None else Some(a as real / b as real)
  }

  /** A part of a positive whole is a fraction between 0 and 1. */
  lemma DivBounds(a: int, b: int)
    requires 0 <= a <= b && b > 0
    ensures Div(a, b).Some? && 0.0 <= Div(a, b).value <= 1.0
  {
    assert a as real / b as real <= b as real / b as real;
  }

  /** Python's `int(x)` on a float: truncation toward zero. */
  function Trunc(x: real): (t: int)
    ensures x >= 0.0 ==> 0 <= t && t as real <= x < t as real + 1.0
    ensures x < 0.0 ==> t <= 0 && t as real - 1.0 < x <= t as real
  {
    if x >= 0.0 then x.Floor else -((-x).Floor)
  }
}
