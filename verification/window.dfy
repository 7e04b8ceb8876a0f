/** The search window of `extractDivisionFeatures`: per axis, the interval
    `[round(c) - templateSize/2, round(c) + templateSize/2)` clamped to the
    image, and the Python slice semantics with which numpy reads it. */
module Window {
  import opened Numeric

  /** `slice(start, stop)` on one axis. */
  datatype Slice = Slice(start: int, stop: int)

  /** One axis of the window around the rounded centre coordinate `c`. */
  function AxisWindow(c: int, half: nat, extent: nat): (w: Slice)
    ensures w.start >= 0 && w.stop <= extent
    ensures w.stop - w.start <= 2 * half
    ensures 0 <= c <= extent ==> w.start <= c <= w.stop
  {
    Slice(MaxInt(c - half, 0), MinInt(c + half, extent))
  }

  /** The list of slices `roi` built for one region centre. */
  function SearchWindow(center: Vec, shape: seq<nat>, templateSize: nat): (w: seq<Slice>)
    requires |center| <= |shape|
    ensures |w| == |center|
    ensures forall i :: 0 <= i < |w| ==>
      0 <= w[i].start && w[i].stop <= shape[i] && w[i].stop - w[i].start <= templateSize
    ensures forall i :: 0 <= i < |w| && 0 <= Round(center[i]) <= shape[i] ==>
      w[i].start <= Round(center[i]) <= w[i].stop
  {
    var half := templateSize / 2;
    seq(|center|, i requires 0 <= i < |center| => AxisWindow(Round(center[i]), half, shape[i]))
  }

  /** Python's reading of a slice bound on an axis of length `extent`:
      negative bounds count from the end, and every bound is clamped. */
  function Resolve(b: int, extent: nat): (r: nat)
    ensures r <= extent
    ensures 0 <= b <= extent ==> r == b
  {
    if b < 0 then MaxInt(b + extent, 0) else MinInt(b, extent)
  }

  /** Index `x` is read by `slice(s.start, s.stop)` on an axis of length `extent`. */
  predicate Selects(s: Slice, extent: nat, x: int)
  {
    Resolve(s.start, extent) <= x < Resolve(s.stop, extent)
  }

  /** For a centre no farther than `half` below the origin, the window reads
      exactly the in-image indices within `[c - half, c + half)`. */
  lemma AxisWindowCovers(c: int, half: nat, extent: nat, x: int)
    requires c + half >= 0
    ensures Selects(AxisWindow(c, half, extent), extent, x) <==>
      0 <= x < extent && c - half <= x < c + half
  {
  }

  /** For a centre more than `half` below the origin, the negative stop is read
      from the end of the axis, so the window reads indices far from the centre. */
  lemma NegativeStopReadsFromEnd()
    ensures AxisWindow(-20, 15, 100) == Slice(0, -5)
    ensures Selects(AxisWindow(-20, 15, 100), 100, 0)
    ensures Selects(AxisWindow(-20, 15, 100), 100, 94)
  {
  }

  /** The grid point `p` lies in the sub-image `img[roi]`. */
  predicate InWindow(w: seq<Slice>, shape: seq<nat>, p: seq<int>)
    requires |w| <= |shape|
  {
    |p| == |w| && forall i :: 0 <= i < |w| ==> Selects(w[i], shape[i], p[i])
  }

  /** The window of a centre whose rounded coordinates are at least `-half`
      reads exactly the in-image points within half a template of the centre. */
  lemma SearchWindowCovers(center: Vec, shape: seq<nat>, templateSize: nat, p: seq<int>)
    requires |center| <= |shape|
    requires |p| == |center|
    requires forall i :: 0 <= i < |center| ==> Round(center[i]) + templateSize / 2 >= 0
    ensures InWindow(SearchWindow(center, shape, templateSize), shape, p) <==>
      forall i :: 0 <= i < |p| ==>
        0 <= p[i] < shape[i] &&
        Round(center[i]) - templateSize / 2 <= p[i] < Round(center[i]) + templateSize / 2
  {
    var w := SearchWindow(center, shape, templateSize);
    forall i | 0 <= i < |p|
      ensures Selects(w[i], shape[i], p[i]) <==>
        0 <= p[i] < shape[i] &&
        Round(center[i]) - templateSize / 2 <= p[i] < Round(center[i]) + templateSize / 2
    {
      AxisWindowCovers(Round(center[i]), templateSize / 2, shape[i], p[i]);
    }
  }
}
