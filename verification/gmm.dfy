/** The arithmetic of the cell-classification features: the number of free
    parameters of a Gaussian mixture (`gmm_num_parameters`) and the
    normalisation of the per-object score list. The mixture fit and its
    log-likelihood are inputs. */
module Gmm {
  import opened Numeric

  /** The covariance structures of a Gaussian mixture (`gmm.cvtype`). */
  datatype CovarianceType = Full | Diag | Tied | Spherical

  /** Python's `int(x)`: truncation toward zero. */
  function Trunc(x: real): (r: int)
    ensures x >= 0.0 ==> r as real <= x < r as real + 1.0
    ensures x < 0.0 ==> r as real - 1.0 < x <= r as real
  {
    if x >= 0.0 then x.Floor else -((-x).Floor)
  }

  /** `gmm_num_parameters(gmm)` for a mixture of `k` components in `d`
      dimensions, with the source's float division `/ 2.` and `int(...)`. */
  function NumParameters(cv: CovarianceType, d: nat, k: nat): int
  {
    var covParams: real := match cv
      case Full => (k * d * (d + 1)) as real / 2.0
      case Diag => (k * d) as real
      case Tied => (d * (d + 1)) as real / 2.0
      case Spherical => k as real;
    var meanParams := d * k;
    Trunc(covParams + meanParams as real + k as real - 1.0)
  }

  /** The entries on or above the diagonal of a `d` by `d` matrix: the free
      entries of a symmetric covariance matrix. */
  function UpperTriangle(d: nat): set<(int, int)>
  {
    set i, j | 0 <= i <= j < d :: (i, j)
  }

  /** The column `c` of the upper triangle, rows `0 .. n - 1`. */
  function ColumnPart(n: nat, c: int): set<(int, int)>
  {
    set i | 0 <= i < n :: (i, c)
  }

  lemma {:induction false} ColumnPartSize(n: nat, c: int)
    ensures |ColumnPart(n, c)| == n
  {
    if n > 0 {
      ColumnPartSize(n - 1, c);
      assert ColumnPart(n, c) == ColumnPart(n - 1, c) + {(n - 1, c)};
      assert (n - 1, c) !in ColumnPart(n - 1, c);
    }
  }

  /** A symmetric `d` by `d` matrix has `d * (d + 1) / 2` free entries. */
  lemma {:induction false} UpperTriangleSize(d: nat)
    ensures |UpperTriangle(d)| == d * (d + 1) / 2
  {
    if d > 0 {
      UpperTriangleSize(d - 1);
      ColumnPartSize(d, d - 1);
      assert UpperTriangle(d) == UpperTriangle(d - 1) + ColumnPart(d, d - 1);
      assert UpperTriangle(d - 1) !! ColumnPart(d, d - 1);
      assert d * (d + 1) == (d - 1) * d + 2 * d;
    }
  }

  /** The free covariance parameters, counted from the structure of each type:
      one symmetric matrix per component, one diagonal per component, one
      shared symmetric matrix, or one variance per component. */
  function CovarianceEntries(cv: CovarianceType, d: nat, k: nat): nat
  {
    match cv
    case Full => k * |UpperTriangle(d)|
    case Diag => k * d
    case Tied => |UpperTriangle(d)|
    case Spherical => k
  }

  /** The source's formula counts exactly the free parameters of the mixture:
      `k - 1` mixing weights, `k * d` means, and the covariance entries. The
      float divisions are exact, so `int(...)` truncates nothing. */
  lemma NumParametersCounts(cv: CovarianceType, d: nat, k: nat)
    ensures NumParameters(cv, d, k) == (k - 1) + k * d + CovarianceEntries(cv, d, k)
  {
    UpperTriangleSize(d);
    var h := d * (d + 1) / 2;
    assert d * (d + 1) == 2 * h by {
      assert d * (d + 1) % 2 == 0 by { EvenProduct(d); }
    }
    assert (k * d * (d + 1)) as real / 2.0 == (k * h) as real by {
      assert k * d * (d + 1) == 2 * (k * h);
    }
    assert (d * (d + 1)) as real / 2.0 == h as real;
  }

  lemma {:induction false} EvenProduct(d: nat)
    ensures d * (d + 1) % 2 == 0
  {
    if d > 0 {
      EvenProduct(d - 1);
      assert d * (d + 1) == (d - 1) * d + 2 * d;
    }
  }

  /** More structure in the covariance means more parameters. */
  lemma NumParametersOrdered(d: nat, k: nat)
    requires k >= 1
    ensures NumParameters(Spherical, d, k) <= NumParameters(Diag, d, k) || d == 0
    ensures NumParameters(Diag, d, k) <= NumParameters(Full, d, k)
    ensures NumParameters(Tied, d, k) <= NumParameters(Full, d, k)
    ensures k == 1 ==> NumParameters(Tied, d, k) == NumParameters(Full, d, k)
  {
    var h := |UpperTriangle(d)|;
    UpperTriangleSize(d);
    assert d <= h by {
      assert d * (d + 1) >= 2 * d;
    }
    var kd, kh := k * d, k * h;
    MulMono(k, d, h);
    MulMono(h, 1, k);
    assert k <= kd || d == 0 by {
      if d >= 1 { MulMono(k, 1, d); }
    }
    assert NumParameters(Spherical, d, k) <= NumParameters(Diag, d, k) || d == 0 by {
      NumParametersCounts(Spherical, d, k);
      NumParametersCounts(Diag, d, k);
    }
    assert NumParameters(Diag, d, k) <= NumParameters(Full, d, k) by {
      NumParametersCounts(Diag, d, k);
      NumParametersCounts(Full, d, k);
    }
    assert NumParameters(Tied, d, k) <= NumParameters(Full, d, k) by {
      NumParametersCounts(Tied, d, k);
      NumParametersCounts(Full, d, k);
    }
    assert k == 1 ==> NumParameters(Tied, d, k) == NumParameters(Full, d, k) by {
      NumParametersCounts(Tied, d, k);
      NumParametersCounts(Full, d, k);
    }
  }

  lemma MulMono(c: nat, a: nat, b: nat)
    requires a <= b
    ensures c * a <= c * b
  {
  }

  lemma {:induction false} SumFill(n: nat, x: real)
    ensures Sum(Fill(n, x)) == n as real * x
  {
    if n > 0 {
      assert Fill(n, x)[1..] == Fill(n - 1, x);
      SumFill(n - 1, x);
    }
  }

  function Scale(xs: seq<real>, s: real): (r: seq<real>)
    requires s != 0.0
    ensures |r| == |xs|
    ensures forall i :: 0 <= i < |xs| ==> r[i] == xs[i] / s
  {
    seq(|xs|, i requires 0 <= i < |xs| => xs[i] / s)
  }

  lemma {:induction false} SumScale(xs: seq<real>, s: real)
    requires s != 0.0
    ensures Sum(Scale(xs, s)) == Sum(xs) / s
  {
    if |xs| > 0 {
      assert Scale(xs, s)[1..] == Scale(xs[1..], s);
      SumScale(xs[1..], s);
      assert xs[0] / s + Sum(xs[1..]) / s == (xs[0] + Sum(xs[1..])) / s;
    }
  }

  /** The normalisation of `bic_score_list`: divide by the sum, or make every
      entry `1/len` when the sum is zero. */
  function Normalize(scores: seq<real>): (r: seq<real>)
    ensures |r| == |scores|
    ensures |scores| > 0 ==> Sum(r) == 1.0
    ensures Sum(scores) == 0.0 ==> forall i :: 0 <= i < |r| ==> r[i] == 1.0 / |scores| as real
    ensures Sum(scores) != 0.0 ==> forall i :: 0 <= i < |r| ==> r[i] * Sum(scores) == scores[i]
  {
    var s := Sum(scores);
    if s == 0.0 then
      var n := |scores|;
      if n == 0 then [] else
        SumFill(n, 1.0 / n as real);
        Fill(n, 1.0 / n as real)
    else
      SumScale(scores, s);
      Scale(scores, s)
  }

  /** Normalising twice changes nothing: a non-empty result sums to 1, and
      the empty list stays empty. */
  lemma NormalizeIdempotent(scores: seq<real>)
    ensures Normalize(Normalize(scores)) == Normalize(scores)
  {
    var r := Normalize(scores);
    var r2 := Normalize(r);
    if |scores| > 0 {
      assert Sum(r) == 1.0;
      forall i | 0 <= i < |r| ensures r2[i] == r[i] {
        assert r2[i] * 1.0 == r[i];
      }
    }
  }

  /** The score list of one object: `ndim` zeros for objects not above the
      size filter, the fitted scores otherwise; then normalised. */
  function ClassificationScores(size: int, sizeFilter: int, ndim: nat, fitted: seq<real>): (r: seq<real>)
    ensures size <= sizeFilter ==> |r| == ndim && forall i :: 0 <= i < ndim ==> r[i] == 1.0 / ndim as real
    ensures size > sizeFilter ==> |r| == |fitted|
    ensures |r| > 0 ==> Sum(r) == 1.0
  {
    if size <= sizeFilter then
      SumFill(ndim, 0.0);
      Normalize(Fill(ndim, 0.0))
    else
      Normalize(fitted)
  }
}
