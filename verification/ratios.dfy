/** The ratio features of `OpCellFeatures`: children size ratio, squared
    distance ratio, parent/children size ratio, children mean ratio and
    parent/children mean ratio. Divisions that numpy turns into NaN are a
    zero-denominator branch returning 0; divisions that would turn into an
    infinity are excluded by the preconditions where they are not absorbed. */
module Ratios {
  import opened Numeric
  import opened Selection

  /** The facts about a quotient of a non-negative number by a positive one
      that the ratios below rely on. */
  lemma QuotientFacts(x: real, y: real)
    requires x >= 0.0 && y > 0.0
    ensures (x / y) * y == x
    ensures x / y >= 0.0
    ensures x / y > 1.0 <==> x > y
    ensures x / y == 1.0 <==> x == y
    ensures x / y == 0.0 <==> x == 0.0
  {
    var q := x / y;
    assert q * y == x;
    if q == 1.0 { assert x == 1.0 * y; }
    if x == y { assert q * y == 1.0 * y; }
  }

  /** `float(a) / b`, inverted when above 1, NaN read as 0. With `b == 0` numpy
      yields NaN (a == 0) or infinity, which the inversion turns into 0. */
  function PairRatio(a: nat, b: nat): (r: real)
    ensures 0.0 <= r <= 1.0
    ensures a > 0 && b > 0 && a <= b ==> r * (b as real) == a as real
    ensures a > 0 && b > 0 && b <= a ==> r * (a as real) == b as real
    ensures r == 1.0 <==> a == b && a > 0
    ensures r == 0.0 <==> a == 0 || b == 0
  {
    if b == 0 then 0.0
    else
      var ratio := a as real / b as real;
      QuotientFacts(a as real, b as real);
      if ratio > 1.0 then
        QuotientFacts(b as real, a as real);
        assert 1.0 / ratio == b as real / a as real;
        1.0 / ratio
      else ratio
  }

  /** The pair ratio does not depend on the order of the two sizes. */
  lemma PairRatioSymmetric(a: nat, b: nat)
    ensures PairRatio(a, b) == PairRatio(b, a)
  {
    if a > 0 && b > 0 {
      if a <= b {
        assert PairRatio(b, a) * (b as real) == a as real;
      } else {
        assert PairRatio(a, b) * (a as real) == b as real;
      }
    }
  }

  /** `getChildrenSizeRatio(sizes_next)`. */
  function ChildrenSizeRatio(sizes: seq<nat>): (r: real)
    ensures |sizes| < 2 ==> r == 0.0
    ensures 0.0 <= r <= 1.0
    ensures forall i, j :: 0 <= i < j < |sizes| ==> PairRatio(sizes[i], sizes[j]) <= r
    ensures |sizes| >= 2 ==> exists i, j :: 0 <= i < j < |sizes| && r == PairRatio(sizes[i], sizes[j])
  {
    MaxOverPairs(sizes, PairRatio);
    MaxOrZero(PairValues(sizes, PairRatio))
  }

  /** Two children of equal positive size give the largest possible ratio. */
  lemma ChildrenSizeRatioEqualSizes(sizes: seq<nat>, i: int, j: int)
    requires 0 <= i < j < |sizes|
    requires sizes[i] == sizes[j] > 0
    ensures ChildrenSizeRatio(sizes) == 1.0
  {
    assert PairRatio(sizes[i], sizes[j]) == 1.0;
  }

  /** With at least two children, all of positive size, the ratio is positive. */
  lemma ChildrenSizeRatioPositive(sizes: seq<nat>)
    requires |sizes| >= 2
    requires forall k :: 0 <= k < |sizes| ==> sizes[k] > 0
    ensures 0.0 < ChildrenSizeRatio(sizes) <= 1.0
  {
    assert PairRatio(sizes[0], sizes[1]) > 0.0;
  }

  /** A computed value, or the failure of a Python `assert`. */
  datatype Checked = Value(v: real) | AssertionFailed

  /** `getSquaredDistanceRatio(squaredDistancesSorted)`: the closest distance
      over the second closest, guarded by `assert ratio <= 1`. A zero second
      distance gives NaN (first also zero, read as 0) or infinity (assertion). */
  function SquaredDistanceRatio(rows: seq<Row>): (r: Checked)
    ensures |rows| < 2 ==> r == Value(0.0)
    ensures r.AssertionFailed? <==> |rows| >= 2 && rows[0].dist > rows[1].dist
    ensures r.Value? ==> 0.0 <= r.v <= 1.0
    ensures |rows| >= 2 && r.Value? && rows[1].dist > 0.0 ==> r.v * rows[1].dist == rows[0].dist
    ensures |rows| >= 2 && rows[1].dist == 0.0 && r.Value? ==> r.v == 0.0
  {
    if |rows| < 2 then Value(0.0)
    else
      var d0 := rows[0].dist;
      var d1 := rows[1].dist;
      if d1 == 0.0 then (if d0 == 0.0 then Value(0.0) else AssertionFailed)
      else
        var ratio := d0 / d1;
        QuotientFacts(d0, d1);
        if ratio > 1.0 then AssertionFailed else Value(ratio)
  }

  /** The assertion at the end of `getSquaredDistanceRatio` never fails on
      rows sorted by distance, which is what `getSquaredDistances` returns. */
  lemma SortedRowsPassAssertion(rows: seq<Row>)
    requires SortedByDistance(rows)
    ensures SquaredDistanceRatio(rows).Value?
    ensures 0.0 <= SquaredDistanceRatio(rows).v <= 1.0
  {
    if |rows| >= 2 {
      assert rows[0].dist <= rows[1].dist;
    }
  }

  /** `getParentChildrenSizeRatio(size_cur, sizes_next)`: the parent's size over
      the summed sizes of the first two children. A zero sum with a positive
      parent would be an infinity; it is excluded. */
  function ParentChildrenSizeRatio(sizeCur: nat, sizes: seq<nat>): (r: real)
    requires |sizes| >= 2 && sizes[0] + sizes[1] == 0 ==> sizeCur == 0
    ensures |sizes| < 2 ==> r == 0.0
    ensures r >= 0.0
    ensures |sizes| >= 2 && sizes[0] + sizes[1] > 0 ==> r * (sizes[0] + sizes[1]) as real == sizeCur as real
    ensures r == 1.0 <==> |sizes| >= 2 && sizes[0] + sizes[1] > 0 && sizeCur == sizes[0] + sizes[1]
  {
    if |sizes| < 2 then 0.0
    else
      var denom := sizes[0] + sizes[1];
      if denom == 0 then 0.0
      else
        QuotientFacts(sizeCur as real, denom as real);
        sizeCur as real / denom as real
  }

  /** Only the first two children enter the parent/children size ratio. */
  lemma ParentChildrenSizeRatioFirstTwo(sizeCur: nat, sizes: seq<nat>, other: seq<nat>)
    requires |sizes| >= 2 && |other| >= 2
    requires sizes[..2] == other[..2]
    requires sizes[0] + sizes[1] > 0
    ensures ParentChildrenSizeRatio(sizeCur, sizes) == ParentChildrenSizeRatio(sizeCur, other)
  {
    assert sizes[0] == sizes[..2][0] && sizes[1] == sizes[..2][1];
    assert other[0] == other[..2][0] && other[1] == other[..2][1];
  }

  /** `getChildrenMeanRatio(means_next)`: first mean over second, inverted when
      above 1. A zero second mean gives NaN or +infinity (both read as 0 after
      the inversion); a negative first mean over zero (-infinity) is excluded. */
  function ChildrenMeanRatio(means: seq<real>): (r: real)
    requires |means| >= 2 && means[1] == 0.0 ==> means[0] >= 0.0
    ensures |means| < 2 ==> r == 0.0
    ensures r <= 1.0
    ensures (forall k :: 0 <= k < |means| ==> means[k] >= 0.0) ==> 0.0 <= r
    ensures r == 1.0 <==> |means| >= 2 && means[0] == means[1] != 0.0
  {
    if |means| < 2 then 0.0
    else if means[1] == 0.0 then 0.0
    else
      var ratio := means[0] / means[1];
      if ratio > 1.0 then 1.0 / ratio else ratio
  }

  /** For positive means the children mean ratio is the smaller mean over the
      larger, so it does not depend on which child came first. */
  lemma ChildrenMeanRatioSymmetric(a: real, b: real, rest: seq<real>)
    requires a > 0.0 && b > 0.0
    ensures ChildrenMeanRatio([a, b] + rest) == ChildrenMeanRatio([b, a] + rest)
    ensures a <= b ==> ChildrenMeanRatio([a, b] + rest) * b == a
    ensures b <= a ==> ChildrenMeanRatio([a, b] + rest) * a == b
  {
    var s1 := [a, b] + rest;
    var s2 := [b, a] + rest;
    assert s1[0] == a && s1[1] == b && s2[0] == b && s2[1] == a;
    if a < b {
      assert b / a > 1.0;
      assert 1.0 / (b / a) == a / b;
    } else if b < a {
      assert a / b > 1.0;
      assert 1.0 / (a / b) == b / a;
    }
  }

  /** The first two children's mean ratio: the mean of smaller magnitude over
      the other when both have the same sign, the first over the second when
      their signs differ (the quotient is then negative, never inverted), and
      0 when either mean is 0. */
  predicate SmallerOverLarger(r: real, means: seq<real>)
    requires |means| >= 2
  {
    var m0, m1 := means[0], means[1];
    && (m0 == 0.0 || m1 == 0.0 ==> r == 0.0)
    && (m0 * m1 > 0.0 && Abs(m0) <= Abs(m1) ==> r * m1 == m0)
    && (m0 * m1 > 0.0 && Abs(m1) <= Abs(m0) ==> r * m0 == m1)
    && (m0 * m1 < 0.0 ==> r * m1 == m0)
  }

  /** Wherever `getChildrenMeanRatio` gives a finite value it is the one
      `SmallerOverLarger` describes, negative means included. */
  lemma ChildrenMeanRatioSmallerOverLarger(means: seq<real>)
    requires |means| >= 2 && means[1] == 0.0 ==> means[0] >= 0.0
    ensures |means| >= 2 ==> SmallerOverLarger(ChildrenMeanRatio(means), means)
  {
    if |means| >= 2 && means[1] != 0.0 {
      var m0, m1 := means[0], means[1];
      var q := m0 / m1;
      var r := ChildrenMeanRatio(means);
      assert q * m1 == m0;
      if m0 * m1 > 0.0 {
        assert q > 0.0;
        assert Abs(m0) == q * Abs(m1);
        if q > 1.0 {
          assert r == 1.0 / q;
          assert r * m0 == m1;
          assert Abs(m0) > Abs(m1);
        } else {
          assert r == q;
          assert Abs(m1) <= Abs(m0) ==> q == 1.0;
        }
      } else if m0 * m1 < 0.0 {
        assert q < 0.0;
        assert r == q;
      } else {
        assert m0 == 0.0;
      }
    }
  }

  /** Means of opposite signs give a negative children mean ratio: 1 over -2
      is -0.5, which is not above 1 and so is kept as it is. */
  lemma NegativeMeanExample()
    ensures ChildrenMeanRatio([1.0, -2.0]) == -0.5
    ensures SmallerOverLarger(-0.5, [1.0, -2.0])
  {
  }

  /** `mean_cur / float(m_n)` with NaN read as 0, shifted by -1 so that equal
      means give 0. A zero child mean with a non-zero parent is excluded. */
  function ShiftedMeanRatio(meanCur: real, m: real): (r: real)
    requires m == 0.0 ==> meanCur == 0.0
    ensures m != 0.0 ==> (r + 1.0) * m == meanCur
    ensures m == 0.0 ==> r == -1.0
    ensures r == 0.0 <==> m != 0.0 && meanCur == m
  {
    (if m == 0.0 then 0.0 else meanCur / m) - 1.0
  }

  function ShiftedMeanRatios(meanCur: real, means: seq<real>): (rs: seq<real>)
    requires forall k :: 0 <= k < |means| && means[k] == 0.0 ==> meanCur == 0.0
    ensures |rs| == |means|
    ensures forall k :: 0 <= k < |means| ==> rs[k] == ShiftedMeanRatio(meanCur, means[k])
  {
    seq(|means|, k requires 0 <= k < |means| => ShiftedMeanRatio(meanCur, means[k]))
  }

  /** The loop of `getParentChildrenMeanRatio` from index `i` on, with the
      running index `idx` and the running value `absMax`. As in the source,
      the test compares `abs(r)` with `absMax` but stores the signed `r`. */
  function TrackAbsMax(rs: seq<real>, i: nat, idx: nat, absMax: real): (k: nat)
    requires i <= |rs| && idx < |rs|
    ensures k < |rs|
    ensures k == idx || i <= k
    decreases |rs| - i
  {
    if i == |rs| then idx
    else if Abs(rs[i]) > absMax then TrackAbsMax(rs, i + 1, i, rs[i])
    else TrackAbsMax(rs, i + 1, idx, absMax)
  }

  /** `getParentChildrenMeanRatio(mean_cur, means_next)`: the shifted ratio of
      the first child whose ratio is at least the magnitude of every later
      child's. With mixed signs this need not be the largest magnitude. */
  function ParentChildrenMeanRatio(meanCur: real, means: seq<real>): (r: real)
    requires forall k :: 0 <= k < |means| && means[k] == 0.0 ==> meanCur == 0.0
    ensures |means| == 0 ==> r == 0.0
    ensures |means| > 0 ==> r in ShiftedMeanRatios(meanCur, means)
    ensures |means| > 0 ==> FirstBounding(r, ShiftedMeanRatios(meanCur, means))
  {
    if |means| == 0 then 0.0
    else
      var rs := ShiftedMeanRatios(meanCur, means);
      TrackAbsMaxFirstBound(rs, 0, 0, 0.0);
      rs[TrackAbsMax(rs, 0, 0, 0.0)]
  }

  /** While every value seen is non-negative, the tracker keeps the first
      value of largest magnitude. */
  lemma {:induction false} TrackAbsMaxNonNegative(rs: seq<real>, i: nat, idx: nat, absMax: real)
    requires i <= |rs| && idx < |rs|
    requires forall k :: 0 <= k < |rs| ==> rs[k] >= 0.0
    requires absMax >= 0.0
    requires forall k :: 0 <= k < i ==> rs[k] <= absMax
    requires i > 0 ==> absMax == rs[idx]
    requires i == 0 ==> absMax == 0.0 && idx == 0
    ensures forall k :: 0 <= k < |rs| ==> rs[k] <= rs[TrackAbsMax(rs, i, idx, absMax)]
    decreases |rs| - i
  {
    if i < |rs| {
      if Abs(rs[i]) > absMax {
        TrackAbsMaxNonNegative(rs, i + 1, i, rs[i]);
      } else {
        TrackAbsMaxNonNegative(rs, i + 1, idx, absMax);
      }
    }
  }

  /** When the parent's mean is at least every child's (all means positive),
      no shifted ratio is negative and the result is the one of largest magnitude. */
  lemma ParentChildrenMeanRatioLargest(meanCur: real, means: seq<real>)
    requires forall k :: 0 <= k < |means| ==> 0.0 < means[k] <= meanCur
    ensures forall k :: 0 <= k < |means| ==>
      Abs(ShiftedMeanRatio(meanCur, means[k])) <= Abs(ParentChildrenMeanRatio(meanCur, means))
  {
    if |means| > 0 {
      var rs := ShiftedMeanRatios(meanCur, means);
      forall k | 0 <= k < |rs| ensures rs[k] >= 0.0 {
        assert meanCur / means[k] >= 1.0;
      }
      TrackAbsMaxNonNegative(rs, 0, 0, 0.0);
    }
  }

  /** Once a negative value has been stored in `absMax`, the next value always
      replaces it: a negative value survives only from the last position. */
  lemma {:induction false} TrackAbsMaxNegativeOnlyLast(rs: seq<real>, i: nat, idx: nat, absMax: real)
    requires i <= |rs| && idx < |rs|
    requires absMax >= 0.0 || (0 < i && idx == i - 1 && absMax == rs[idx])
    requires absMax >= 0.0 && rs[idx] < 0.0 ==> i == 0 && absMax == 0.0 && idx == 0
    ensures var k := TrackAbsMax(rs, i, idx, absMax); rs[k] < 0.0 ==> k == |rs| - 1
    decreases |rs| - i
  {
    if i < |rs| {
      if Abs(rs[i]) > absMax {
        TrackAbsMaxNegativeOnlyLast(rs, i + 1, i, rs[i]);
      } else {
        TrackAbsMaxNegativeOnlyLast(rs, i + 1, idx, absMax);
      }
    }
  }

  /** The signed bookkeeping of `abs_max`: a negative shifted ratio is
      returned only when it belongs to the last child. */
  lemma ParentChildrenMeanRatioNegativeOnlyLast(meanCur: real, means: seq<real>)
    requires forall k :: 0 <= k < |means| && means[k] == 0.0 ==> meanCur == 0.0
    requires |means| > 0
    ensures var rs := ShiftedMeanRatios(meanCur, means);
      ParentChildrenMeanRatio(meanCur, means) < 0.0 ==>
        ParentChildrenMeanRatio(meanCur, means) == rs[|rs| - 1]
  {
    var rs := ShiftedMeanRatios(meanCur, means);
    TrackAbsMaxNegativeOnlyLast(rs, 0, 0, 0.0);
  }

  /** `rs[k]` is no smaller than the magnitude of any value after it. */
  predicate BoundsLater(rs: seq<real>, k: nat)
    requires k < |rs|
  {
    forall j :: k < j < |rs| ==> Abs(rs[j]) <= rs[k]
  }

  /** `r` is the value at the first index of `rs` that bounds the magnitude of
      every later value. */
  predicate FirstBounding(r: real, rs: seq<real>)
  {
    exists k :: 0 <= k < |rs| && r == rs[k] && BoundsLater(rs, k) && forall m :: 0 <= m < k ==> !BoundsLater(rs, m)
  }

  /** The tracker ends on the first index whose value bounds the magnitude of
      every later value: it never leaves such an index once stored, and it
      passes every earlier one because some later magnitude exceeds it. */
  lemma {:induction false} TrackAbsMaxFirstBound(rs: seq<real>, i: nat, idx: nat, absMax: real)
    requires i <= |rs| && idx < |rs|
    requires i == 0 ==> idx == 0 && absMax == 0.0
    requires i > 0 ==> idx < i && absMax == rs[idx]
    requires forall j :: idx < j < i ==> Abs(rs[j]) <= absMax
    requires forall m :: 0 <= m < idx ==> exists j :: m < j <= idx && Abs(rs[j]) > rs[m]
    ensures var k := TrackAbsMax(rs, i, idx, absMax);
      BoundsLater(rs, k) && forall m :: 0 <= m < k ==> !BoundsLater(rs, m)
    decreases |rs| - i
  {
    if i == |rs| {
      forall m | 0 <= m < idx ensures !BoundsLater(rs, m) {
        var j :| m < j <= idx && Abs(rs[j]) > rs[m];
      }
    } else if Abs(rs[i]) > absMax {
      NewRecordOutbounds(rs, i, idx, absMax);
      TrackAbsMaxFirstBound(rs, i + 1, i, rs[i]);
    } else {
      if i == 0 {
        assert rs[0] == 0.0;
      }
      TrackAbsMaxFirstBound(rs, i + 1, idx, absMax);
    }
  }

  /** A new record `rs[i]` exceeds in magnitude every value before it that
      was not already exceeded by a later one. */
  lemma NewRecordOutbounds(rs: seq<real>, i: nat, idx: nat, absMax: real)
    requires i < |rs| && idx < |rs| && Abs(rs[i]) > absMax
    requires i == 0 ==> idx == 0 && absMax == 0.0
    requires i > 0 ==> idx < i && absMax == rs[idx]
    requires forall j :: idx < j < i ==> Abs(rs[j]) <= absMax
    requires forall m :: 0 <= m < idx ==> exists j :: m < j <= idx && Abs(rs[j]) > rs[m]
    ensures forall m :: 0 <= m < i ==> exists j :: m < j <= i && Abs(rs[j]) > rs[m]
  {
    forall m | 0 <= m < i ensures exists j :: m < j <= i && Abs(rs[j]) > rs[m] {
      if m >= idx {
        assert Abs(rs[i]) > rs[m] by {
          if m > idx { assert Abs(rs[m]) <= absMax; }
        }
      } else {
        var j :| m < j <= idx && Abs(rs[j]) > rs[m];
      }
    }
  }

  /** The mixed-sign case: parent mean 1 and child means 2 and 0.8 give shifted
      ratios -0.5 and 0.25; -0.5 does not bound 0.25, so the result is 0.25. */
  lemma MixedSignExample()
    ensures ShiftedMeanRatios(1.0, [2.0, 0.8]) == [-0.5, 0.25]
    ensures ParentChildrenMeanRatio(1.0, [2.0, 0.8]) == 0.25
  {
    var rs := ShiftedMeanRatios(1.0, [2.0, 0.8]);
    assert rs[0] == -0.5 && rs[1] == 0.25;
    assert TrackAbsMax(rs, 0, 0, 0.0) == TrackAbsMax(rs, 1, 0, -0.5);
    assert TrackAbsMax(rs, 1, 0, -0.5) == TrackAbsMax(rs, 2, 1, 0.25);
  }

  /** An instance of the bookkeeping: parent mean 1, child means 2 and 1 give
      shifted ratios -0.5 and 0, and the result is 0, not the larger magnitude -0.5. */
  lemma SignedAbsMaxExample()
    ensures ShiftedMeanRatios(1.0, [2.0, 1.0]) == [-0.5, 0.0]
    ensures ParentChildrenMeanRatio(1.0, [2.0, 1.0]) == 0.0
  {
    var rs := ShiftedMeanRatios(1.0, [2.0, 1.0]);
    assert rs[0] == -0.5 && rs[1] == 0.0;
    assert TrackAbsMax(rs, 0, 0, 0.0) == TrackAbsMax(rs, 1, 0, -0.5);
    assert TrackAbsMax(rs, 1, 0, -0.5) == TrackAbsMax(rs, 2, 1, 0.0);
  }
}
