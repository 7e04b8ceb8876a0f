/** `OpCellFeatures.extractDivisionFeatures` for one parent object, and the
    translation correction of region centres in `execute`. The object
    labels present in a window of the next label image, the Euclidean norm
    and the angle of two vectors are parameters. */
module Extraction {
  import opened Numeric
  import opened Selection
  import opened Window
  import opened Ratios
  import opened Angles

  /** `RegionCenter`, `Count` and `Mean` of one channel of one frame, indexed by
      object label (label 0 is the background row). */
  datatype RegionFeatures = RegionFeatures(centers: seq<Vec>, counts: seq<nat>, means: seq<real>)

  /** All three tables have one row per label, and every centre has `dim` coordinates. */
  predicate WellFormed(rf: RegionFeatures, dim: nat)
  {
    && |rf.counts| == |rf.centers|
    && |rf.means| == |rf.centers|
    && forall l :: 0 <= l < |rf.centers| ==> |rf.centers[l]| == dim
  }

  /** `numpy.linalg.norm` of a difference vector. */
  type NormFn = Vec -> Distance

  function Zeros(n: nat): (r: Vec)
    ensures |r| == n
    ensures forall i :: 0 <= i < n ==> r[i] == 0.0
  {
    seq(n, _ => 0.0)
  }

  /** The rows of `RegionCenter_corr`: row 0 stays zero, every other row is the
      rounded centre plus the translation vector found at that grid point. */
  function CorrectedCenters(centers: seq<Vec>, dim: nat, translation: seq<int> -> Vec): (r: seq<Vec>)
    requires forall l :: 0 <= l < |centers| ==> |centers[l]| == dim
    requires forall l :: 1 <= l < |centers| ==> |translation(RoundVec(centers[l]))| == dim
    ensures |r| == |centers|
    ensures forall l :: 0 <= l < |r| ==> |r[l]| == dim
    ensures |centers| > 0 ==> r[0] == Zeros(dim)
    ensures forall l, i :: 1 <= l < |r| && 0 <= i < dim ==>
      r[l][i] == Round(centers[l][i]) as real + translation(RoundVec(centers[l]))[i]
    ensures forall l, i :: 1 <= l < |r| && 0 <= i < dim ==>
      var moved := centers[l][i] + translation(RoundVec(centers[l]))[i];
      moved - 0.5 <= r[l][i] <= moved + 0.5
  {
    var r := seq(|centers|, l requires 0 <= l < |centers| =>
      if l == 0 then Zeros(dim) else CorrectedRow(RoundVec(centers[l]), translation(RoundVec(centers[l]))));
    assert forall l :: 0 <= l < |r| ==> |r[l]| == dim by {
      forall l | 0 <= l < |r| ensures |r[l]| == dim {
        if l > 0 {
          var c := RoundVec(centers[l]);
          assert |c| == dim;
          assert r[l] == CorrectedRow(c, translation(c));
        } else {
          assert r[l] == Zeros(dim);
        }
      }
    }
    r
  }

  /** A rounded centre moved by a translation vector. */
  function CorrectedRow(coord: seq<int>, t: Vec): (r: Vec)
    requires |t| == |coord|
    ensures |r| == |coord|
    ensures forall i :: 0 <= i < |r| ==> r[i] == coord[i] as real + t[i]
  {
    seq(|coord|, i requires 0 <= i < |coord| => coord[i] as real + t[i])
  }

  /** A centre that lies on the pixel grid is moved by exactly the translation vector. */
  lemma CorrectedCenterOnGrid(centers: seq<Vec>, dim: nat, translation: seq<int> -> Vec, l: int, i: int)
    requires forall l :: 0 <= l < |centers| ==> |centers[l]| == dim
    requires forall l :: 1 <= l < |centers| ==> |translation(RoundVec(centers[l]))| == dim
    requires 1 <= l < |centers| && 0 <= i < dim
    requires centers[l][i] == centers[l][i].Floor as real
    ensures CorrectedCenters(centers, dim, translation)[l][i] ==
      centers[l][i] + translation(RoundVec(centers[l]))[i]
  {
    assert Round(centers[l][i]) == centers[l][i].Floor;
  }

  /** A translation can move a corrected centre below the origin. An object
      at 5 moved by -25 lands at -20; its window's stop, -20 + 15, is
      negative, and Python then reads the axis from 0 up to index 94
      instead of an empty range. */
  lemma CorrectedWindowReadsFromEnd()
    ensures CorrectedCenters([[0.0], [5.0]], 1, _ => [-25.0])[1] == [-20.0]
    ensures SearchWindow([-20.0], [100], 30) == [Slice(0, -5)]
    ensures Selects(SearchWindow([-20.0], [100], 30)[0], 100, 0)
    ensures Selects(SearchWindow([-20.0], [100], 30)[0], 100, 94)
  {
    var r := CorrectedCenters([[0.0], [5.0]], 1, _ => [-25.0]);
    assert Round(5.0) == 5;
    assert r[1][0] == -20.0;
    assert Round(-20.0) == -20;
    NegativeStopReadsFromEnd();
  }

  /** Every label found has a row in the next frame's tables. */
  predicate KnownLabels(present: seq<int>, next: RegionFeatures)
  {
    forall k :: 0 <= k < |present| ==> 0 <= present[k] < |next.centers|
  }

  /** `coms_next` and `sizes_next`: every non-background label found, with the
      distance from the parent's centre to its centre and its size. */
  function Candidates(present: seq<int>, parent: Vec, next: RegionFeatures, norm: NormFn): (r: seq<Candidate>)
    requires WellFormed(next, |parent|) && KnownLabels(present, next)
    ensures forall c :: c in r ==>
      && c.row.id in present && c.row.id != 0 && 0 <= c.row.id < |next.centers|
      && c.size == next.counts[c.row.id]
      && c.row.dist == norm(Sub(next.centers[c.row.id], parent))
    ensures forall k :: 0 <= k < |present| && present[k] != 0 ==> exists c :: c in r && c.row.id == present[k]
  {
    if |present| == 0 then []
    else
      var rest := Candidates(present[1..], parent, next, norm);
      assert forall x :: x in present[1..] ==> x in present;
      assert forall k :: 1 <= k < |present| ==> present[k] == present[1..][k - 1];
      var l := present[0];
      if l == 0 then rest
      else [Candidate(Row(l, norm(Sub(next.centers[l], parent))), next.counts[l])] + rest
  }

  /** `numpy.unique` lists each label once, in ascending order. */
  predicate Ascending(present: seq<int>)
  {
    forall i, j :: 0 <= i < j < |present| ==> present[i] < present[j]
  }

  /** The keys of `coms_next` whose `sizes_next` entry passes the size filter:
      the non-background labels found in the window whose objects are at
      least `sizeFilter` pixels large. */
  function WindowChildren(present: seq<int>, next: RegionFeatures, sizeFilter: int): set<int>
  {
    set l | l in present && l != 0 && 0 <= l < |next.counts| && next.counts[l] >= sizeFilter
  }

  /** The window children of a label list: its first label if that one
      qualifies, and the children of the rest. */
  lemma WindowChildrenCons(present: seq<int>, next: RegionFeatures, sizeFilter: int)
    requires |present| > 0
    ensures var l := present[0];
      if l != 0 && 0 <= l < |next.counts| && next.counts[l] >= sizeFilter
      then WindowChildren(present, next, sizeFilter) == {l} + WindowChildren(present[1..], next, sizeFilter)
      else WindowChildren(present, next, sizeFilter) == WindowChildren(present[1..], next, sizeFilter)
  {
    assert forall x :: x in present <==> x == present[0] || x in present[1..];
  }

  /** With each label listed once, there are as many qualifying candidates as
      window children. */
  lemma {:induction false} QualifyingWindowChildren(present: seq<int>, parent: Vec, next: RegionFeatures,
                                                    norm: NormFn, sizeFilter: int)
    requires WellFormed(next, |parent|) && KnownLabels(present, next) && Ascending(present)
    ensures |Qualifying(Candidates(present, parent, next, norm), sizeFilter)| ==
            |WindowChildren(present, next, sizeFilter)|
  {
    if |present| > 0 {
      var rest := present[1..];
      var l := present[0];
      AscendingTail(present);
      QualifyingWindowChildren(rest, parent, next, norm, sizeFilter);
      WindowChildrenCons(present, next, sizeFilter);
      var w, wr := WindowChildren(present, next, sizeFilter), WindowChildren(rest, next, sizeFilter);
      var q, qr := Qualifying(Candidates(present, parent, next, norm), sizeFilter),
                   Qualifying(Candidates(rest, parent, next, norm), sizeFilter);
      if l != 0 {
        var c := Candidate(Row(l, norm(Sub(next.centers[l], parent))), next.counts[l]);
        assert Candidates(present, parent, next, norm) == [c] + Candidates(rest, parent, next, norm);
        QualifyingCons(c, Candidates(rest, parent, next, norm), sizeFilter);
        if next.counts[l] >= sizeFilter {
          AddFresh(wr, l);
        } else {
          assert q == [] + qr;
        }
      }
    }
  }

  /** Adding a new element grows a set by one. */
  lemma AddFresh(s: set<int>, x: int)
    requires x !in s
    ensures |{x} + s| == |s| + 1
  {
    assert {x} + s == s + {x};
  }

  /** The rest of an ascending list is ascending, known labels stay known, and
      the first label does not occur again. */
  lemma AscendingTail(present: seq<int>)
    requires |present| > 0 && Ascending(present)
    ensures Ascending(present[1..])
    ensures present[0] !in present[1..]
  {
    assert forall k :: 0 <= k < |present| - 1 ==> present[1..][k] == present[k + 1];
  }

  /** The labels of the kept rows: the keys of `coms_next_reduced`. */
  function KeptLabels(rows: seq<Row>): set<int>
  {
    set x | x in rows :: x.id
  }

  /** A row whose label is not among the kept labels is not kept. */
  lemma NotKept(rows: seq<Row>, x: Row)
    requires x.id !in KeptLabels(rows)
    ensures x !in rows
  {
  }

  /** What `getSquaredDistances` promises about the kept rows of a parent at
      `parent`, in terms of the window's children: each kept row is a child at
      its measured distance; with each label listed once there are
      `min(num_best, number of children)` rows (Python's slice length for a
      negative `num_best`); and no child left out is nearer than the last row
      kept. */
  predicate NearestChildren(rows: seq<Row>, parent: Vec, present: seq<int>, next: RegionFeatures,
                            numBest: int, sizeFilter: int, norm: NormFn)
    requires WellFormed(next, |parent|)
  {
    var children := WindowChildren(present, next, sizeFilter);
    && (forall x :: x in rows ==> x.id in children && x.dist == norm(Sub(next.centers[x.id], parent)))
    && (Ascending(present) ==> |rows| == SliceLength(|children|, numBest))
    && (|rows| > 0 ==> forall l :: l in children && l !in KeptLabels(rows) ==>
          rows[|rows| - 1].dist <= norm(Sub(next.centers[l], parent)))
  }

  /** With labels listed once and `num_best > 0`, a window with a child keeps
      one, and the first row kept is a child no other child is nearer than. */
  lemma {:induction false} NearestKeptFirst(rows: seq<Row>, parent: Vec, present: seq<int>, next: RegionFeatures,
                                            numBest: int, sizeFilter: int, norm: NormFn)
    requires WellFormed(next, |parent|) && Ascending(present) && numBest > 0
    requires NearestChildren(rows, parent, present, next, numBest, sizeFilter, norm) && SortedByDistance(rows)
    ensures |rows| > 0 <==> WindowChildren(present, next, sizeFilter) != {}
    ensures |rows| > 0 ==>
      && rows[0].id in WindowChildren(present, next, sizeFilter)
      && forall l :: l in WindowChildren(present, next, sizeFilter) ==>
           rows[0].dist <= norm(Sub(next.centers[l], parent))
  {
    var children := WindowChildren(present, next, sizeFilter);
    if children != {} {
      var c :| c in children;
      assert |children| > 0;
    }
    if |rows| > 0 {
      assert rows[0] in rows;
      forall l | l in children ensures rows[0].dist <= norm(Sub(next.centers[l], parent)) {
        if l in KeptLabels(rows) {
          var x :| x in rows && x.id == l;
          var i :| 0 <= i < |rows| && rows[i] == x;
          assert Dist(rows[0]) <= Dist(rows[i]);
        } else {
          assert Dist(rows[0]) <= Dist(rows[|rows| - 1]);
        }
      }
    }
  }

  /** The rows `getSquaredDistances` keeps are the nearest children of the window. */
  lemma SelectedNearest(present: seq<int>, parent: Vec, next: RegionFeatures, norm: NormFn,
                        numBest: int, sizeFilter: int)
    requires WellFormed(next, |parent|) && KnownLabels(present, next)
    ensures NearestChildren(SquaredDistances(Candidates(present, parent, next, norm), numBest, sizeFilter),
                            parent, present, next, numBest, sizeFilter, norm)
  {
    SelectedAreChildren(present, parent, next, norm, numBest, sizeFilter);
    if Ascending(present) {
      QualifyingWindowChildren(present, parent, next, norm, sizeFilter);
    }
    NoneLeftNearer(present, parent, next, norm, numBest, sizeFilter);
  }

  /** Every kept row is a window child at its measured distance. */
  lemma SelectedAreChildren(present: seq<int>, parent: Vec, next: RegionFeatures, norm: NormFn,
                            numBest: int, sizeFilter: int)
    requires WellFormed(next, |parent|) && KnownLabels(present, next)
    ensures var rows := SquaredDistances(Candidates(present, parent, next, norm), numBest, sizeFilter);
      forall x :: x in rows ==>
        x.id in WindowChildren(present, next, sizeFilter) && x.dist == norm(Sub(next.centers[x.id], parent))
  {
    var cands := Candidates(present, parent, next, norm);
    var rows := SquaredDistances(cands, numBest, sizeFilter);
    forall x | x in rows
      ensures x.id in WindowChildren(present, next, sizeFilter) && x.dist == norm(Sub(next.centers[x.id], parent))
    {
      var c :| c in cands && c.size >= sizeFilter && c.row == x;
    }
  }

  /** No window child left out is nearer than the last row kept. */
  lemma NoneLeftNearer(present: seq<int>, parent: Vec, next: RegionFeatures, norm: NormFn,
                       numBest: int, sizeFilter: int)
    requires WellFormed(next, |parent|) && KnownLabels(present, next)
    ensures var rows := SquaredDistances(Candidates(present, parent, next, norm), numBest, sizeFilter);
      |rows| > 0 ==> forall l :: l in WindowChildren(present, next, sizeFilter) && l !in KeptLabels(rows) ==>
        rows[|rows| - 1].dist <= norm(Sub(next.centers[l], parent))
  {
    var rows := SquaredDistances(Candidates(present, parent, next, norm), numBest, sizeFilter);
    forall l | l in WindowChildren(present, next, sizeFilter) && l !in KeptLabels(rows)
      ensures |rows| > 0 ==> rows[|rows| - 1].dist <= norm(Sub(next.centers[l], parent))
    {
      var d := norm(Sub(next.centers[l], parent));
      assert Row(l, d) !in rows by {
        NotKept(rows, Row(l, d));
      }
      ChildLeftOut(present, parent, next, norm, numBest, sizeFilter, l);
    }
  }

  /** One window child whose row was not kept is no nearer than the last row kept. */
  lemma ChildLeftOut(present: seq<int>, parent: Vec, next: RegionFeatures, norm: NormFn,
                     numBest: int, sizeFilter: int, l: int)
    requires WellFormed(next, |parent|) && KnownLabels(present, next)
    requires l in WindowChildren(present, next, sizeFilter)
    requires Row(l, norm(Sub(next.centers[l], parent))) !in
             SquaredDistances(Candidates(present, parent, next, norm), numBest, sizeFilter)
    ensures var rows := SquaredDistances(Candidates(present, parent, next, norm), numBest, sizeFilter);
      |rows| > 0 ==> rows[|rows| - 1].dist <= norm(Sub(next.centers[l], parent))
  {
    var cands := Candidates(present, parent, next, norm);
    var k :| 0 <= k < |present| && present[k] == l;
    var c :| c in cands && c.row.id == present[k];
    LeftOutNoNearer(cands, numBest, sizeFilter, c);
  }

  /** The division features of one parent object. */
  datatype DivisionFeatures = DivisionFeatures(
    rows: seq<Row>,
    angle: real,
    childrenSizeRatio: real,
    squaredDistanceRatio: real,
    parentChildrenSizeRatio: real,
    childrenMeanRatio: real,
    parentChildrenMeanRatio: real)

  /** Every label found has a positive size: it covers at least one pixel. */
  predicate PositiveCounts(present: seq<int>, next: RegionFeatures)
    requires KnownLabels(present, next) && |next.counts| == |next.centers|
  {
    forall k :: 0 <= k < |present| && present[k] != 0 ==> next.counts[present[k]] > 0
  }

  /** A zero child mean goes with a zero parent mean and with no negative
      child mean, so that no mean ratio divides a non-zero value by 0 into an
      infinity the source would keep. */
  predicate FiniteMeanRatios(present: seq<int>, next: RegionFeatures, parentMean: real)
    requires KnownLabels(present, next) && |next.means| == |next.centers|
  {
    && (forall k :: 0 <= k < |present| && present[k] != 0 ==>
          (next.means[present[k]] == 0.0 ==> parentMean == 0.0))
    && (forall k, j :: 0 <= k < |present| && 0 <= j < |present| && present[k] != 0 && present[j] != 0 ==>
          (next.means[present[k]] == 0.0 ==> next.means[present[j]] >= 0.0))
  }

  /** Every label found has a non-negative mean intensity. */
  predicate ChildMeansNonNegative(present: seq<int>, next: RegionFeatures)
    requires KnownLabels(present, next) && |next.means| == |next.centers|
  {
    forall k :: 0 <= k < |present| && present[k] != 0 ==> next.means[present[k]] >= 0.0
  }

  /** The kept rows name non-background labels found in the window, of
      size at least the filter. */
  predicate RowsFromWindow(rows: seq<Row>, present: seq<int>, next: RegionFeatures, sizeFilter: int)
    requires |next.counts| == |next.centers|
  {
    forall x :: x in rows ==>
      x.id in present && x.id != 0 && 0 <= x.id < |next.centers| && next.counts[x.id] >= sizeFilter
  }

  lemma SelectedRowsFromWindow(present: seq<int>, parent: Vec, next: RegionFeatures, norm: NormFn,
                               numBest: int, sizeFilter: int)
    requires WellFormed(next, |parent|) && KnownLabels(present, next)
    ensures RowsFromWindow(SquaredDistances(Candidates(present, parent, next, norm), numBest, sizeFilter),
                           present, next, sizeFilter)
  {
  }

  /** Every kept row names a label with a row in the next frame's tables. */
  predicate RowsKnown(rows: seq<Row>, next: RegionFeatures)
  {
    forall x :: x in rows ==> 0 <= x.id < |next.centers| && x.id < |next.counts| && x.id < |next.means|
  }

  /** The kept rows in ascending label order: `sorted(coms_next_reduced.keys())`.
      The source iterates `coms_next_reduced.keys()` in dictionary order,
      which this order stands in for. */
  function ByLabel(rows: seq<Row>): (r: seq<Row>)
    ensures |r| == |rows|
    ensures SortedBy(r, Id)
    ensures multiset(r) == multiset(rows)
    ensures forall x :: x in r <==> x in rows
  {
    var byLabel := SortBy(rows, Id);
    forall x ensures x in byLabel <==> x in rows {
      assert x in byLabel <==> x in multiset(byLabel);
      assert x in rows <==> x in multiset(rows);
    }
    byLabel
  }

  /** `[coms_next_reduced[l] for l in sorted(coms_next_reduced.keys())]`: the
      kept children's centres in ascending label order. */
  function CentresByLabel(rows: seq<Row>, next: RegionFeatures, dim: nat): (coms: seq<Vec>)
    requires WellFormed(next, dim) && RowsKnown(rows, next)
    ensures |coms| == |rows|
    ensures forall k :: 0 <= k < |coms| ==> |coms[k]| == dim
    ensures forall k :: 0 <= k < |coms| ==> ByLabel(rows)[k] in rows && coms[k] == next.centers[ByLabel(rows)[k].id]
  {
    var byLabel := ByLabel(rows);
    assert forall i :: 0 <= i < |byLabel| ==> byLabel[i] in rows;
    seq(|byLabel|, i requires 0 <= i < |byLabel| => next.centers[byLabel[i].id])
  }

  /** The `Count` of the given rows, in their order. */
  function SizesOf(rows: seq<Row>, next: RegionFeatures): (sizes: seq<nat>)
    requires RowsKnown(rows, next)
    ensures |sizes| == |rows|
    ensures forall i :: 0 <= i < |rows| ==> sizes[i] == next.counts[rows[i].id]
  {
    seq(|rows|, i requires 0 <= i < |rows| => assert rows[i] in rows; next.counts[rows[i].id])
  }

  /** The `Mean` of the kept rows, in their order. */
  function MeansOf(rows: seq<Row>, next: RegionFeatures): (means: seq<real>)
    requires RowsKnown(rows, next)
    ensures |means| == |rows|
    ensures forall i :: 0 <= i < |rows| ==> means[i] == next.means[rows[i].id]
  {
    seq(|rows|, i requires 0 <= i < |rows| => assert rows[i] in rows; next.means[rows[i].id])
  }

  /** With non-negative means, every shifted ratio `meanCur / m - 1` is at least -1. */
  lemma ShiftedRatiosAtLeastMinusOne(meanCur: real, means: seq<real>)
    requires forall k :: 0 <= k < |means| ==> (means[k] == 0.0 ==> meanCur == 0.0)
    ensures meanCur >= 0.0 && (forall k :: 0 <= k < |means| ==> means[k] >= 0.0) ==>
      forall x :: x in ShiftedMeanRatios(meanCur, means) ==> x >= -1.0
  {
    var rs := ShiftedMeanRatios(meanCur, means);
    forall x | x in rs && meanCur >= 0.0 && (forall k :: 0 <= k < |means| ==> means[k] >= 0.0) ensures x >= -1.0 {
      var k :| 0 <= k < |rs| && rs[k] == x;
      if means[k] != 0.0 {
        assert (x + 1.0) * means[k] == meanCur;
        assert x + 1.0 >= 0.0;
      }
    }
  }

  /** The kept children all cover a pixel and have means that are zero only
      when the parent's mean is zero too, and a zero second mean does not
      follow a negative first one: no mean ratio becomes an infinity. */
  predicate ChildRows(rows: seq<Row>, next: RegionFeatures, parentMean: real)
  {
    && RowsKnown(rows, next)
    && (forall x :: x in rows ==> next.counts[x.id] > 0 && (next.means[x.id] == 0.0 ==> parentMean == 0.0))
    && (|rows| >= 2 && next.means[rows[1].id] == 0.0 ==> next.means[rows[0].id] >= 0.0)
  }

  /** Every kept child has a non-negative mean intensity. */
  predicate RowMeansNonNegative(rows: seq<Row>, next: RegionFeatures)
    requires RowsKnown(rows, next)
  {
    forall x :: x in rows ==> next.means[x.id] >= 0.0
  }

  /** `a` is the largest reflected angle at `parent` over the pairs `i < j` of
      `coms`, attained by one of them, and 0 with fewer than two. */
  ghost predicate LargestPairAngle(a: real, parent: Vec, coms: seq<Vec>, angle: AngleFn)
    requires AnglesInRange(angle) && forall k :: 0 <= k < |coms| ==> |coms[k]| == |parent|
  {
    && (|coms| < 2 ==> a == 0.0)
    && (forall i, j :: 0 <= i < j < |coms| ==> ChildAngle(parent, angle, coms[i], coms[j]) <= a)
    && (|coms| >= 2 ==> exists i, j :: 0 <= i < j < |coms| && a == ChildAngle(parent, angle, coms[i], coms[j]))
  }

  /** `r` is the largest size ratio over the pairs `i < j` of `sizes`, attained
      by one of them, and 0 with fewer than two. */
  predicate LargestPairRatio(r: real, sizes: seq<nat>)
  {
    && (|sizes| < 2 ==> r == 0.0)
    && (forall i, j :: 0 <= i < j < |sizes| ==> PairRatio(sizes[i], sizes[j]) <= r)
    && (|sizes| >= 2 ==> exists i, j :: 0 <= i < j < |sizes| && r == PairRatio(sizes[i], sizes[j]))
  }

  /** The angle feature of the kept rows: the largest over pairs of their
      centres in ascending label order, the order of `getMaxAngle`'s pairs. */
  ghost predicate AngleFeature(a: real, parent: Vec, rows: seq<Row>, next: RegionFeatures, angle: AngleFn)
    requires WellFormed(next, |parent|) && RowsKnown(rows, next) && AnglesInRange(angle)
  {
    LargestPairAngle(a, parent, CentresByLabel(rows, next, |parent|), angle)
  }

  /** The two size features of the kept rows, whose sizes are taken in
      ascending label order as `sizes_next` is: the largest pair ratio, and
      the parent's size over the first two sizes. */
  predicate SizeFeatures(childrenRatio: real, parentRatio: real, parentSize: nat, rows: seq<Row>, next: RegionFeatures)
    requires RowsKnown(rows, next)
  {
    var sizes := SizesOf(ByLabel(rows), next);
    && LargestPairRatio(childrenRatio, sizes)
    && (|sizes| >= 2 ==> parentRatio * (sizes[0] + sizes[1]) as real == parentSize as real)
  }

  /** The distance feature: the nearest distance over the second nearest. */
  predicate DistanceFeature(ratio: real, rows: seq<Row>)
  {
    && (|rows| >= 2 && rows[1].dist > 0.0 ==> ratio * rows[1].dist == rows[0].dist)
    && (|rows| >= 2 && rows[1].dist == 0.0 ==> ratio == 0.0)
  }

  /** The means of admissible kept rows meet the conditions of the two mean ratios. */
  lemma MeansOfChildRows(rows: seq<Row>, next: RegionFeatures, parentMean: real)
    requires ChildRows(rows, next, parentMean)
    ensures var means := MeansOf(rows, next);
      && (forall k :: 0 <= k < |means| ==> (means[k] == 0.0 ==> parentMean == 0.0))
      && (|means| >= 2 && means[1] == 0.0 ==> means[0] >= 0.0)
      && (RowMeansNonNegative(rows, next) ==> forall k :: 0 <= k < |means| ==> means[k] >= 0.0)
  {
    assert forall i :: 0 <= i < |rows| ==> rows[i] in rows;
  }

  /** The two mean features, over the means of the rows nearest first: the
      smaller of the first two over the larger, and the shifted ratio of the
      first child whose ratio bounds the magnitude of every later child's. */
  predicate MeanFeatures(childrenRatio: real, parentRatio: real, parentMean: real, rows: seq<Row>, next: RegionFeatures)
    requires ChildRows(rows, next, parentMean)
  {
    var means := MeansOf(rows, next);
    && (|means| >= 2 ==> SmallerOverLarger(childrenRatio, means))
    && (|means| > 0 ==> FirstBounding(parentRatio, ShiftedMeanRatios(parentMean, means)))
  }

  /** What the six features of a parent say about its kept rows `f.rows`. */
  ghost predicate FeaturesFromRows(f: DivisionFeatures, parent: Vec, parentSize: nat, parentMean: real,
                                   next: RegionFeatures, angle: AngleFn)
    requires WellFormed(next, |parent|) && ChildRows(f.rows, next, parentMean) && AnglesInRange(angle)
  {
    && AngleFeature(f.angle, parent, f.rows, next, angle)
    && SizeFeatures(f.childrenSizeRatio, f.parentChildrenSizeRatio, parentSize, f.rows, next)
    && DistanceFeature(f.squaredDistanceRatio, f.rows)
    && MeanFeatures(f.childrenMeanRatio, f.parentChildrenMeanRatio, parentMean, f.rows, next)
  }

  /** Rows sorted by distance give a distance ratio that is the nearest
      distance over the second nearest. */
  lemma DistanceFeatureHolds(rows: seq<Row>)
    requires SortedByDistance(rows)
    ensures SquaredDistanceRatio(rows).Value?
    ensures DistanceFeature(SquaredDistanceRatio(rows).v, rows)
  {
    SortedRowsPassAssertion(rows);
  }

  /** The size ratios computed from the kept rows' sizes in label order. */
  lemma SizeFeaturesHold(parentSize: nat, parentMean: real, rows: seq<Row>, next: RegionFeatures)
    requires ChildRows(rows, next, parentMean)
    ensures var sizes := SizesOf(ByLabel(rows), next);
      && (|sizes| >= 2 ==> sizes[0] + sizes[1] > 0)
      && SizeFeatures(ChildrenSizeRatio(sizes), ParentChildrenSizeRatio(parentSize, sizes), parentSize, rows, next)
  {
    var kids := ByLabel(rows);
    if |kids| >= 2 {
      assert kids[0] in rows;
    }
  }

  /** The six features of one parent computed from its kept rows. */
  function RowFeatures(parent: Vec, parentSize: nat, parentMean: real, rows: seq<Row>,
                       next: RegionFeatures, angle: AngleFn): (f: DivisionFeatures)
    requires WellFormed(next, |parent|) && ChildRows(rows, next, parentMean)
    requires SortedByDistance(rows) && AnglesInRange(angle)
    ensures f.rows == rows
    ensures 0.0 <= f.angle <= 180.0
    ensures 0.0 <= f.childrenSizeRatio <= 1.0
    ensures 0.0 <= f.squaredDistanceRatio <= 1.0
    ensures f.parentChildrenSizeRatio >= 0.0
    ensures f.childrenMeanRatio <= 1.0
    ensures RowMeansNonNegative(rows, next) ==> 0.0 <= f.childrenMeanRatio
    ensures parentMean >= 0.0 && RowMeansNonNegative(rows, next) ==> f.parentChildrenMeanRatio >= -1.0
    ensures |rows| < 2 ==>
      && f.angle == 0.0 && f.childrenSizeRatio == 0.0 && f.squaredDistanceRatio == 0.0
      && f.parentChildrenSizeRatio == 0.0 && f.childrenMeanRatio == 0.0
    ensures |rows| == 0 ==> f.parentChildrenMeanRatio == 0.0
    ensures SquaredDistanceRatio(rows) == Value(f.squaredDistanceRatio)
  {
    // `sizes_next` follows the keys of `coms_next_reduced`, `means_next` the rows
    var byLabel := ByLabel(rows);
    var sizes := SizesOf(byLabel, next);
    var means := MeansOf(rows, next);
    assert forall i :: 0 <= i < |byLabel| ==> byLabel[i] in rows;
    MeansOfChildRows(rows, next, parentMean);
    ShiftedRatiosAtLeastMinusOne(parentMean, means);
    SortedRowsPassAssertion(rows);
    var sq := SquaredDistanceRatio(rows).v;
    DivisionFeatures(
      rows,
      MaxAngle(parent, CentresByLabel(rows, next, |parent|), angle),
      ChildrenSizeRatio(sizes),
      sq,
      ParentChildrenSizeRatio(parentSize, sizes),
      ChildrenMeanRatio(means),
      ParentChildrenMeanRatio(parentMean, means))
  }

  /** The six features computed from the kept rows are the ones
      `FeaturesFromRows` describes. */
  lemma RowFeaturesMeaning(parent: Vec, parentSize: nat, parentMean: real, rows: seq<Row>,
                           next: RegionFeatures, angle: AngleFn)
    requires WellFormed(next, |parent|) && ChildRows(rows, next, parentMean)
    requires SortedByDistance(rows) && AnglesInRange(angle)
    ensures FeaturesFromRows(RowFeatures(parent, parentSize, parentMean, rows, next, angle),
                             parent, parentSize, parentMean, next, angle)
  {
    RowAngleFeature(parent, parentSize, parentMean, rows, next, angle);
    RowSizeFeatures(parent, parentSize, parentMean, rows, next, angle);
    RowDistanceFeature(parent, parentSize, parentMean, rows, next, angle);
    RowMeanFeatures(parent, parentSize, parentMean, rows, next, angle);
  }

  /** The angle feature of `RowFeatures`. */
  lemma RowAngleFeature(parent: Vec, parentSize: nat, parentMean: real, rows: seq<Row>,
                        next: RegionFeatures, angle: AngleFn)
    requires WellFormed(next, |parent|) && ChildRows(rows, next, parentMean)
    requires SortedByDistance(rows) && AnglesInRange(angle)
    ensures AngleFeature(RowFeatures(parent, parentSize, parentMean, rows, next, angle).angle, parent, rows, next, angle)
  {
  }

  /** The two size features of `RowFeatures`. */
  lemma RowSizeFeatures(parent: Vec, parentSize: nat, parentMean: real, rows: seq<Row>,
                        next: RegionFeatures, angle: AngleFn)
    requires WellFormed(next, |parent|) && ChildRows(rows, next, parentMean)
    requires SortedByDistance(rows) && AnglesInRange(angle)
    ensures var f := RowFeatures(parent, parentSize, parentMean, rows, next, angle);
      SizeFeatures(f.childrenSizeRatio, f.parentChildrenSizeRatio, parentSize, rows, next)
  {
    SizeFeaturesHold(parentSize, parentMean, rows, next);
  }

  /** The distance feature of `RowFeatures`. */
  lemma RowDistanceFeature(parent: Vec, parentSize: nat, parentMean: real, rows: seq<Row>,
                           next: RegionFeatures, angle: AngleFn)
    requires WellFormed(next, |parent|) && ChildRows(rows, next, parentMean)
    requires SortedByDistance(rows) && AnglesInRange(angle)
    ensures DistanceFeature(RowFeatures(parent, parentSize, parentMean, rows, next, angle).squaredDistanceRatio, rows)
  {
    DistanceFeatureHolds(rows);
  }

  /** The two mean features of `RowFeatures`. */
  lemma RowMeanFeatures(parent: Vec, parentSize: nat, parentMean: real, rows: seq<Row>,
                        next: RegionFeatures, angle: AngleFn)
    requires WellFormed(next, |parent|) && ChildRows(rows, next, parentMean)
    requires SortedByDistance(rows) && AnglesInRange(angle)
    ensures var f := RowFeatures(parent, parentSize, parentMean, rows, next, angle);
      MeanFeatures(f.childrenMeanRatio, f.parentChildrenMeanRatio, parentMean, rows, next)
  {
    var means := MeansOf(rows, next);
    assert forall i :: 0 <= i < |rows| ==> rows[i] in rows;
    ChildrenMeanRatioSmallerOverLarger(means);
  }

  /** The rows kept from the window's candidates meet the conditions of `RowFeatures`. */
  lemma SelectedChildRows(present: seq<int>, parent: Vec, parentMean: real, next: RegionFeatures,
                          norm: NormFn, numBest: int, sizeFilter: int)
    requires WellFormed(next, |parent|) && KnownLabels(present, next)
    requires PositiveCounts(present, next) && FiniteMeanRatios(present, next, parentMean)
    ensures var rows := SquaredDistances(Candidates(present, parent, next, norm), numBest, sizeFilter);
      && ChildRows(rows, next, parentMean) && RowsFromWindow(rows, present, next, sizeFilter)
      && (ChildMeansNonNegative(present, next) ==> RowMeansNonNegative(rows, next))
  {
    var rows := SquaredDistances(Candidates(present, parent, next, norm), numBest, sizeFilter);
    SelectedRowsFromWindow(present, parent, next, norm, numBest, sizeFilter);
    forall x | x in rows
      ensures next.counts[x.id] > 0 && (next.means[x.id] == 0.0 ==> parentMean == 0.0)
      ensures ChildMeansNonNegative(present, next) ==> next.means[x.id] >= 0.0
    {
      var k :| 0 <= k < |present| && present[k] == x.id;
    }
    if |rows| >= 2 {
      assert rows[0] in rows && rows[1] in rows;
      var k :| 0 <= k < |present| && present[k] == rows[1].id;
      var j :| 0 <= j < |present| && present[j] == rows[0].id;
    }
  }

  /** The body of the loop of `extractDivisionFeatures` for one parent with
      centre `parent`, size `parentSize` and mean `parentMean`, given the labels
      `present` in its window of the next frame. */
  function ObjectFeatures(parent: Vec, parentSize: nat, parentMean: real, present: seq<int>,
                          next: RegionFeatures, numBest: int, sizeFilter: int,
                          norm: NormFn, angle: AngleFn): (f: DivisionFeatures)
    requires WellFormed(next, |parent|) && KnownLabels(present, next)
    requires PositiveCounts(present, next) && FiniteMeanRatios(present, next, parentMean)
    requires AnglesInRange(angle)
    ensures numBest >= 0 ==> |f.rows| <= numBest
    ensures SortedByDistance(f.rows)
    ensures RowsFromWindow(f.rows, present, next, sizeFilter)
    ensures 0.0 <= f.angle <= 180.0
    ensures 0.0 <= f.childrenSizeRatio <= 1.0
    ensures 0.0 <= f.squaredDistanceRatio <= 1.0
    ensures f.parentChildrenSizeRatio >= 0.0
    ensures f.childrenMeanRatio <= 1.0
    ensures ChildMeansNonNegative(present, next) ==> 0.0 <= f.childrenMeanRatio
    ensures parentMean >= 0.0 && ChildMeansNonNegative(present, next) ==> f.parentChildrenMeanRatio >= -1.0
    ensures |f.rows| < 2 ==>
      && f.angle == 0.0 && f.childrenSizeRatio == 0.0 && f.squaredDistanceRatio == 0.0
      && f.parentChildrenSizeRatio == 0.0 && f.childrenMeanRatio == 0.0
    ensures |f.rows| == 0 ==> f.parentChildrenMeanRatio == 0.0
    ensures SquaredDistanceRatio(f.rows) == Value(f.squaredDistanceRatio)
  {
    var rows := SquaredDistances(Candidates(present, parent, next, norm), numBest, sizeFilter);
    SelectedChildRows(present, parent, parentMean, next, norm, numBest, sizeFilter);
    RowFeatures(parent, parentSize, parentMean, rows, next, angle)
  }

  /** The features of a parent are the nearest window children's: the rows
      are the children nearest first, and the six features are those that
      `FeaturesFromRows` describes. */
  lemma ObjectFeaturesMeaning(parent: Vec, parentSize: nat, parentMean: real, present: seq<int>,
                              next: RegionFeatures, numBest: int, sizeFilter: int,
                              norm: NormFn, angle: AngleFn)
    requires WellFormed(next, |parent|) && KnownLabels(present, next)
    requires PositiveCounts(present, next) && FiniteMeanRatios(present, next, parentMean)
    requires AnglesInRange(angle)
    ensures var f := ObjectFeatures(parent, parentSize, parentMean, present, next, numBest, sizeFilter, norm, angle);
      && NearestChildren(f.rows, parent, present, next, numBest, sizeFilter, norm)
      && ChildRows(f.rows, next, parentMean)
      && FeaturesFromRows(f, parent, parentSize, parentMean, next, angle)
  {
    var rows := SquaredDistances(Candidates(present, parent, next, norm), numBest, sizeFilter);
    SelectedChildRows(present, parent, parentMean, next, norm, numBest, sizeFilter);
    SelectedNearest(present, parent, next, norm, numBest, sizeFilter);
    RowFeaturesMeaning(parent, parentSize, parentMean, rows, next, angle);
  }

  /** With labels listed once and `num_best > 0`, a parent keeps a row exactly
      when its window holds a child, and the first row is the nearest child. */
  lemma ObjectFeaturesNearest(parent: Vec, parentSize: nat, parentMean: real, present: seq<int>,
                              next: RegionFeatures, numBest: int, sizeFilter: int,
                              norm: NormFn, angle: AngleFn)
    requires WellFormed(next, |parent|) && KnownLabels(present, next)
    requires PositiveCounts(present, next) && FiniteMeanRatios(present, next, parentMean)
    requires AnglesInRange(angle) && Ascending(present) && numBest > 0
    ensures var f := ObjectFeatures(parent, parentSize, parentMean, present, next, numBest, sizeFilter, norm, angle);
      var children := WindowChildren(present, next, sizeFilter);
      && (|f.rows| > 0 <==> children != {})
      && (|f.rows| > 0 ==>
            && f.rows[0].id in children && f.rows[0].dist == norm(Sub(next.centers[f.rows[0].id], parent))
            && forall c :: c in children ==> f.rows[0].dist <= norm(Sub(next.centers[c], parent)))
  {
    var rows := SquaredDistances(Candidates(present, parent, next, norm), numBest, sizeFilter);
    SelectedNearest(present, parent, next, norm, numBest, sizeFilter);
    NearestKeptFirst(rows, parent, present, next, numBest, sizeFilter, norm);
    if |rows| > 0 {
      assert rows[0] in rows;
    }
  }

  /** Only the non-background labels found are candidates. */
  lemma {:induction false} BackgroundOnlyNoCandidates(present: seq<int>, parent: Vec, next: RegionFeatures, norm: NormFn)
    requires WellFormed(next, |parent|) && KnownLabels(present, next)
    requires forall k :: 0 <= k < |present| ==> present[k] == 0
    ensures Candidates(present, parent, next, norm) == []
  {
    if |present| > 0 {
      BackgroundOnlyNoCandidates(present[1..], parent, next, norm);
    }
  }

  /** A window without any object of the next frame (for instance an empty
      one) gives no rows and all-zero features. */
  lemma NoCandidatesAllZero(parent: Vec, parentSize: nat, parentMean: real, present: seq<int>,
                            next: RegionFeatures, numBest: int, sizeFilter: int,
                            norm: NormFn, angle: AngleFn)
    requires WellFormed(next, |parent|) && KnownLabels(present, next)
    requires PositiveCounts(present, next) && FiniteMeanRatios(present, next, parentMean)
    requires AnglesInRange(angle)
    requires forall k :: 0 <= k < |present| ==> present[k] == 0
    ensures var f := ObjectFeatures(parent, parentSize, parentMean, present, next, numBest, sizeFilter, norm, angle);
      f.rows == [] && f.angle == 0.0 && f.childrenSizeRatio == 0.0 && f.squaredDistanceRatio == 0.0
      && f.parentChildrenSizeRatio == 0.0 && f.childrenMeanRatio == 0.0 && f.parentChildrenMeanRatio == 0.0
  {
    BackgroundOnlyNoCandidates(present, parent, next, norm);
  }
}
