/** Small numeric building blocks shared by the division-feature model:
    Python 2 rounding, sums and maxima of real lists, and the enumeration of
    unordered pairs used by the angle and size-ratio features. */
module Numeric {

  type Vec = seq<real>

  function Abs(x: real): (r: real)
    ensures r >= 0.0 && (r == x || r == -x)
  {
    if x < 0.0 then -x else x
  }

  function MinInt(a: int, b: int): (r: int)
    ensures r <= a && r <= b && (r == a || r == b)
  {
    if a <= b then a else b
  }

  function MaxInt(a: int, b: int): (r: int)
    ensures r >= a && r >= b && (r == a || r == b)
  {
    if a >= b then a else b
  }

  /** Python 2 `round`: the nearest integer, halves rounded away from zero. */
  function Round(x: real): (r: int)
    ensures x - 0.5 <= r as real <= x + 0.5
    ensures r as real == x + 0.5 ==> x > 0.0
    ensures r as real == x - 0.5 ==> x < 0.0
  {
    if x >= 0.0 then (x + 0.5).Floor else -((-x + 0.5).Floor)
  }

  /** Coordinate-wise rounding of a region centre. */
  function RoundVec(v: Vec): (r: seq<int>)
    ensures |r| == |v|
    ensures forall i :: 0 <= i < |v| ==> r[i] == Round(v[i])
  {
    seq(|v|, i requires 0 <= i < |v| => Round(v[i]))
  }

  /** Coordinate-wise difference `u - v` (numpy subtraction of equal-length rows). */
  function Sub(u: Vec, v: Vec): (r: Vec)
    requires |u| == |v|
    ensures |r| == |u|
    ensures forall i :: 0 <= i < |u| ==> r[i] + v[i] == u[i]
  {
    seq(|u|, i requires 0 <= i < |u| => u[i] - v[i])
  }

  /** `numpy.ones(n) * x`: `n` copies of `x`. */
  function Fill(n: nat, x: real): (r: seq<real>)
    ensures |r| == n
    ensures forall i :: 0 <= i < n ==> r[i] == x
  {
    seq(n, _ => x)
  }

  function Sum(xs: seq<real>): real
  {
    if |xs| == 0 then 0.0 else xs[0] + Sum(xs[1..])
  }

  /** Python's `max` of a non-empty list: one of its elements, and no smaller than any. */
  function Max(xs: seq<real>): (r: real)
    requires |xs| > 0
    ensures r in xs
    ensures forall i :: 0 <= i < |xs| ==> xs[i] <= r
  {
    if |xs| == 1 then xs[0]
    else
      var m := Max(xs[1..]);
      assert forall i :: 1 <= i < |xs| ==> xs[i] == xs[1..][i - 1];
      if xs[0] >= m then xs[0] else m
  }

  /** The source's idiom `if len(l) == 0: l = [0]` followed by `max(l)`. */
  function MaxOrZero(xs: seq<real>): (r: real)
    ensures |xs| == 0 ==> r == 0.0
    ensures |xs| > 0 ==> r in xs && forall i :: 0 <= i < |xs| ==> xs[i] <= r
  {
    if |xs| == 0 then 0.0 else Max(xs)
  }

  /** `f(x, rest[j])` for every element of `rest`, in order. */
  function PairsWith<T>(x: T, rest: seq<T>, f: (T, T) -> real): (r: seq<real>)
    ensures |r| == |rest|
    ensures forall j :: 0 <= j < |rest| ==> r[j] == f(x, rest[j])
  {
    seq(|rest|, j requires 0 <= j < |rest| => f(x, rest[j]))
  }

  /** The values of `f` on every unordered pair `s[i], s[j]` with `i < j`, in the
      order of the source's nested loop `for idx, a in enumerate(s): for b in s[idx+1:]`. */
  function PairValues<T>(s: seq<T>, f: (T, T) -> real): seq<real>
  {
    if |s| == 0 then [] else PairsWith(s[0], s[1..], f) + PairValues(s[1..], f)
  }

  lemma {:induction false} PairValuesLength<T>(s: seq<T>, f: (T, T) -> real)
    ensures |PairValues(s, f)| == |s| * (|s| - 1) / 2
  {
    if |s| > 0 {
      PairValuesLength(s[1..], f);
      assert |s| * (|s| - 1) == 2 * (|s| - 1) + (|s| - 1) * (|s| - 2);
    }
  }

  /** Every pair `i < j` contributes its value. */
  lemma {:induction false} PairValuesComplete<T>(s: seq<T>, f: (T, T) -> real, i: int, j: int)
    requires 0 <= i < j < |s|
    ensures f(s[i], s[j]) in PairValues(s, f)
  {
    var head := PairsWith(s[0], s[1..], f);
    assert PairValues(s, f) == head + PairValues(s[1..], f);
    if i == 0 {
      assert head[j - 1] == f(s[i], s[j]);
    } else {
      PairValuesComplete(s[1..], f, i - 1, j - 1);
      assert s[1..][i - 1] == s[i] && s[1..][j - 1] == s[j];
    }
  }

  /** Every value comes from some pair `i < j`. */
  lemma {:induction false} PairValuesSound<T>(s: seq<T>, f: (T, T) -> real, v: real)
    requires v in PairValues(s, f)
    ensures exists i, j :: 0 <= i < j < |s| && v == f(s[i], s[j])
  {
    var head := PairsWith(s[0], s[1..], f);
    assert PairValues(s, f) == head + PairValues(s[1..], f);
    if v in head {
      var j :| 0 <= j < |head| && head[j] == v;
      assert v == f(s[0], s[j + 1]);
    } else {
      PairValuesSound(s[1..], f, v);
      var i, j :| 0 <= i < j < |s| - 1 && v == f(s[1..][i], s[1..][j]);
      assert v == f(s[i + 1], s[j + 1]);
    }
  }

  /** The maximum of `f` over unordered pairs, 0 when there is no pair: it
      dominates every pair and is attained by one. */
  lemma MaxOverPairs<T>(s: seq<T>, f: (T, T) -> real)
    ensures |s| < 2 ==> MaxOrZero(PairValues(s, f)) == 0.0
    ensures forall i, j :: 0 <= i < j < |s| ==> f(s[i], s[j]) <= MaxOrZero(PairValues(s, f))
    ensures |s| >= 2 ==>
      exists i, j :: 0 <= i < j < |s| && MaxOrZero(PairValues(s, f)) == f(s[i], s[j])
  {
    var vs := PairValues(s, f);
    forall i, j | 0 <= i < j < |s|
      ensures f(s[i], s[j]) <= MaxOrZero(vs)
    {
      PairValuesComplete(s, f, i, j);
    }
    if |s| >= 2 {
      PairValuesComplete(s, f, 0, 1);
      PairValuesSound(s, f, MaxOrZero(vs));
    } else {
      PairValuesLength(s, f);
    }
  }
}
