/** `OpCellFeatures.extractDivisionFeatures` over all objects of one channel,
    writing into that channel's feature columns, and the division-feature part
    of the per-channel body of `execute`. */
module ChannelFeatures {
  import opened Numeric
  import opened Selection
  import opened Window
  import opened Angles
  import opened Extraction
  import opened FeatureNames

  /** `numNeighbors`, `size_filter_from_divfeat` and `templateSize`. */
  datatype Settings = Settings(numNeighbors: int, sizeFilter: int, templateSize: nat)

  /** What the model takes from outside: the norm and the angle of vectors,
      `numpy.unique` of the next label image read through a window, and the
      translation vector stored at a grid point of frame `t`. */
  datatype Env = Env(norm: NormFn, angle: AngleFn, labelsIn: seq<Slice> -> seq<int>,
                     translation: seq<int> -> Vec)

  /** The outside functions behave as the source relies on: angles within a
      full turn, window labels that have rows in the next frame's tables, and
      translation vectors of the data's dimension. */
  ghost predicate EnvFits(env: Env, next: RegionFeatures, dim: nat)
  {
    && AnglesInRange(env.angle)
    && (forall w :: KnownLabels(env.labelsIn(w), next))
    && forall c :: |env.translation(c)| == dim
  }

  /** `numpy.unique` lists the labels of every window once each, in ascending
      order. The lemmas that count or rank a window's children rely on it. */
  ghost predicate LabelsAscending(env: Env)
  {
    forall w :: Ascending(env.labelsIn(w))
  }

  /** Every object of the next frame covers a pixel and has a non-zero mean
      intensity, so that no mean ratio divides by a zero mean. */
  predicate ObjectsNonEmpty(next: RegionFeatures)
    requires |next.counts| == |next.centers| && |next.means| == |next.centers|
  {
    forall l :: 1 <= l < |next.centers| ==> next.counts[l] > 0 && next.means[l] != 0.0
  }

  /** Every object of the next frame has a non-negative mean intensity, as
      the means of a non-negative intensity image have. */
  predicate MeansNonNegative(next: RegionFeatures)
    requires |next.means| == |next.centers|
  {
    forall l :: 1 <= l < |next.centers| ==> next.means[l] >= 0.0
  }

  /** The two frames one extraction works on, with `dim`-dimensional centres,
      and the shape of the next label image. */
  predicate Fits(cur: RegionFeatures, next: RegionFeatures, shape: seq<nat>, dim: nat)
  {
    WellFormed(cur, dim) && WellFormed(next, dim) && dim <= |shape| && ObjectsNonEmpty(next)
  }

  /** The features of object `obj` of the current frame. */
  function ObjectAt(cur: RegionFeatures, next: RegionFeatures, shape: seq<nat>, dim: nat,
                    s: Settings, env: Env, obj: nat): DivisionFeatures
    requires Fits(cur, next, shape, dim) && EnvFits(env, next, dim)
    requires 1 <= obj < |cur.centers|
  {
    var com := cur.centers[obj];
    var present := env.labelsIn(SearchWindow(com, shape, s.templateSize));
    assert KnownLabels(present, next);
    ObjectFeatures(com, cur.counts[obj], cur.means[obj], present, next,
                   s.numNeighbors, s.sizeFilter, env.norm, env.angle)
  }

  /** `feats_at_cur[key][obj][0] = v`. */
  function SetEntry(cols: Columns, key: string, obj: nat, v: real): (r: Columns)
    requires key in cols && obj < |cols[key]|
    ensures r.Keys == cols.Keys
    ensures r[key] == cols[key][obj := v]
    ensures forall k :: k in cols && k != key ==> r[k] == cols[k]
  {
    cols[key := cols[key][obj := v]]
  }

  /** Every listed feature has a column, with the suffix, holding an entry for `obj`. */
  predicate CanWrite(cols: Columns, divFeatures: seq<string>, suffix: string, obj: nat)
  {
    forall name :: name in divFeatures ==> Key(name, suffix) in cols && obj < |cols[Key(name, suffix)]|
  }

  /** Same keys and same column lengths. */
  predicate SameShape(r: Columns, cols: Columns)
  {
    r.Keys == cols.Keys && forall key :: key in cols ==> |r[key]| == |cols[key]|
  }

  /** `if name in divFeatures: feats_at_cur[name+suffix][obj][0] = v`. */
  function Gated(cols: Columns, name: string, divFeatures: seq<string>, suffix: string,
                 obj: nat, v: real): (r: Columns)
    requires CanWrite(cols, divFeatures, suffix, obj)
    ensures SameShape(r, cols) && CanWrite(r, divFeatures, suffix, obj)
    ensures name in divFeatures ==> r[Key(name, suffix)] == cols[Key(name, suffix)][obj := v]
    ensures forall k :: k in cols && (name !in divFeatures || k != Key(name, suffix)) ==> r[k] == cols[k]
  {
    if name in divFeatures then SetEntry(cols, Key(name, suffix), obj, v) else cols
  }

  /** The column of feature `name` in a pass with `suffix`: `name + suffix`.
      The plain pass's empty suffix leaves the name as it is. */
  function Key(name: string, suffix: string): string
  {
    if suffix == "" then name else name + suffix
  }

  /** No two of `names` name the same column once suffixed. */
  predicate DistinctWith(names: seq<string>, suffix: string)
  {
    forall i, j :: 0 <= i < j < |names| ==> Key(names[i], suffix) != Key(names[j], suffix)
  }

  /** `key` is the column of a listed name among `names[from..]`. */
  predicate GatedTarget(key: string, names: seq<string>, from: nat, divFeatures: seq<string>, suffix: string)
  {
    exists j :: from <= j < |names| && names[j] in divFeatures && key == Key(names[j], suffix)
  }

  /** A target among `names[idx + 1..]` is one among `names[idx..]`, and the
      column of `names[idx]` is not among the later ones. */
  lemma GatedTargetFrom(names: seq<string>, idx: nat, divFeatures: seq<string>, suffix: string)
    requires idx < |names| && DistinctWith(names, suffix)
    ensures forall key :: GatedTarget(key, names, idx + 1, divFeatures, suffix) ==>
      GatedTarget(key, names, idx, divFeatures, suffix)
    ensures !GatedTarget(Key(names[idx], suffix), names, idx + 1, divFeatures, suffix)
  {
    forall j | idx < j < |names| ensures Key(names[idx], suffix) != Key(names[j], suffix) {
    }
  }

  /** A run of gated writes `names[idx..]` / `values[idx..]` into entry `obj`. */
  function WriteGated(cols: Columns, names: seq<string>, values: seq<real>, idx: nat, obj: nat,
                      divFeatures: seq<string>, suffix: string): (r: Columns)
    requires |names| == |values| && idx <= |names| && DistinctWith(names, suffix)
    requires CanWrite(cols, divFeatures, suffix, obj)
    ensures SameShape(r, cols) && CanWrite(r, divFeatures, suffix, obj)
    ensures forall j :: idx <= j < |names| && names[j] in divFeatures ==> r[Key(names[j], suffix)][obj] == values[j]
    ensures forall key, i ::
      (key in cols && 0 <= i < |cols[key]| && (i != obj || !GatedTarget(key, names, idx, divFeatures, suffix)))
      ==> r[key][i] == cols[key][i]
    decreases |names| - idx
  {
    if idx == |names| then cols
    else
      var c := Gated(cols, names[idx], divFeatures, suffix, obj, values[idx]);
      GatedTargetFrom(names, idx, divFeatures, suffix);
      WriteGated(c, names, values, idx + 1, obj, divFeatures, suffix)
  }

  /** A slot name is none of the six ratio feature names. */
  lemma SlotNameNotRatio(k: nat)
    ensures SlotName(k) !in RatioNames
  {
    var s := SlotName(k);
    assert s[0] == 'S';
    assert IsDigit(s[|Prefix|]);
  }

  /** The six ratio feature names, in the order the source writes them. */
  const RatioNames: seq<string> := [AngleName, ChildrenSizeRatioName, SquaredDistanceRatioName,
    ParentChildrenSizeRatioName, ChildrenMeanRatioName, ParentChildrenMeanRatioName]

  /** The columns object features `f` may write, in the source's order: the
      distance slot of each kept row, then the six ratios. */
  function WrittenNames(f: DivisionFeatures): seq<string>
  {
    SlotNames(|f.rows|) + RatioNames
  }

  /** The values that go with `WrittenNames(f)`. */
  function WrittenValues(f: DivisionFeatures): (v: seq<real>)
    ensures |v| == |WrittenNames(f)|
  {
    seq(|f.rows|, k requires 0 <= k < |f.rows| => f.rows[k].dist)
      + [f.angle, f.childrenSizeRatio, f.squaredDistanceRatio,
         f.parentChildrenSizeRatio, f.childrenMeanRatio, f.parentChildrenMeanRatio]
  }

  /** All columns one object writes are different, whatever the suffix. */
  lemma WrittenNamesDistinct(f: DivisionFeatures, suffix: string)
    ensures DistinctWith(WrittenNames(f), suffix)
  {
    var names := WrittenNames(f);
    var n := |f.rows|;
    forall i, j | 0 <= i < j < |names| ensures Key(names[i], suffix) != Key(names[j], suffix) {
      SuffixCancel(names[i], names[j], suffix);
      if j < n {
        if names[i] == names[j] { SlotNameInjective(i, j); }
      } else if i < n {
        SlotNameNotRatio(i);
        assert names[j] == RatioNames[j - n];
      } else {
        assert names[i] == RatioNames[i - n] && names[j] == RatioNames[j - n];
      }
    }
  }

  /** `key` is the column of a listed feature. */
  predicate Target(key: string, divFeatures: seq<string>, suffix: string)
  {
    exists name :: name in divFeatures && key == Key(name, suffix)
  }

  /** What object `obj` leaves in the columns: each listed slot of a kept
      row holds that row's distance, and each listed ratio feature its value. */
  predicate ObjectWritten(r: Columns, obj: nat, f: DivisionFeatures, divFeatures: seq<string>, suffix: string)
    requires CanWrite(r, divFeatures, suffix, obj)
  {
    && (forall k: nat :: k < |f.rows| && SlotName(k) in divFeatures ==> r[Key(SlotName(k), suffix)][obj] == f.rows[k].dist)
    && (AngleName in divFeatures ==> r[Key(AngleName, suffix)][obj] == f.angle)
    && (ChildrenSizeRatioName in divFeatures ==> r[Key(ChildrenSizeRatioName, suffix)][obj] == f.childrenSizeRatio)
    && (SquaredDistanceRatioName in divFeatures ==> r[Key(SquaredDistanceRatioName, suffix)][obj] == f.squaredDistanceRatio)
    && (ParentChildrenSizeRatioName in divFeatures ==>
          r[Key(ParentChildrenSizeRatioName, suffix)][obj] == f.parentChildrenSizeRatio)
    && (ChildrenMeanRatioName in divFeatures ==> r[Key(ChildrenMeanRatioName, suffix)][obj] == f.childrenMeanRatio)
    && (ParentChildrenMeanRatioName in divFeatures ==>
          r[Key(ParentChildrenMeanRatioName, suffix)][obj] == f.parentChildrenMeanRatio)
  }

  /** The writes of one iteration of the loop of `extractDivisionFeatures`:
      the distance slots of the kept rows, then the six ratios. */
  function WriteObject(cols: Columns, obj: nat, f: DivisionFeatures,
                       divFeatures: seq<string>, suffix: string): (r: Columns)
    requires CanWrite(cols, divFeatures, suffix, obj)
    ensures SameShape(r, cols) && CanWrite(r, divFeatures, suffix, obj)
    ensures ObjectWritten(r, obj, f, divFeatures, suffix)
    ensures forall key, i ::
      (key in cols && 0 <= i < |cols[key]| && (i != obj || !Target(key, divFeatures, suffix)))
      ==> r[key][i] == cols[key][i]
    ensures forall k: nat :: k >= |f.rows| && SlotName(k) in divFeatures ==>
      r[Key(SlotName(k), suffix)][obj] == cols[Key(SlotName(k), suffix)][obj]
  {
    var names := WrittenNames(f);
    var values := WrittenValues(f);
    WrittenNamesDistinct(f, suffix);
    var r := WriteGated(cols, names, values, 0, obj, divFeatures, suffix);
    assert forall key :: GatedTarget(key, names, 0, divFeatures, suffix) ==> Target(key, divFeatures, suffix);
    WrittenValuesInPlace(r, obj, f, divFeatures, suffix);
    forall k: nat | k >= |f.rows| && SlotName(k) in divFeatures
      ensures r[Key(SlotName(k), suffix)][obj] == cols[Key(SlotName(k), suffix)][obj]
    {
      UnfilledSlotNotWritten(f, k, divFeatures, suffix);
    }
    r
  }

  /** Entry `obj` of every written column holds its value: the object's features are in place. */
  lemma WrittenValuesInPlace(r: Columns, obj: nat, f: DivisionFeatures, divFeatures: seq<string>, suffix: string)
    requires CanWrite(r, divFeatures, suffix, obj)
    requires forall j :: 0 <= j < |WrittenNames(f)| && WrittenNames(f)[j] in divFeatures ==>
      r[Key(WrittenNames(f)[j], suffix)][obj] == WrittenValues(f)[j]
    ensures ObjectWritten(r, obj, f, divFeatures, suffix)
  {
    var names := WrittenNames(f);
    var values := WrittenValues(f);
    var n := |f.rows|;
    assert forall k :: 0 <= k < n ==> names[k] == SlotName(k) && values[k] == f.rows[k].dist;
    assert names[n] == AngleName && values[n] == f.angle;
    assert names[n + 1] == ChildrenSizeRatioName && values[n + 1] == f.childrenSizeRatio;
    assert names[n + 2] == SquaredDistanceRatioName && values[n + 2] == f.squaredDistanceRatio;
    assert names[n + 3] == ParentChildrenSizeRatioName && values[n + 3] == f.parentChildrenSizeRatio;
    assert names[n + 4] == ChildrenMeanRatioName && values[n + 4] == f.childrenMeanRatio;
    assert names[n + 5] == ParentChildrenMeanRatioName && values[n + 5] == f.parentChildrenMeanRatio;
  }

  /** The slot of a neighbour index beyond the kept rows is not among the
      columns the object writes. */
  lemma UnfilledSlotNotWritten(f: DivisionFeatures, k: nat, divFeatures: seq<string>, suffix: string)
    requires k >= |f.rows|
    ensures !GatedTarget(Key(SlotName(k), suffix), WrittenNames(f), 0, divFeatures, suffix)
  {
    var names := WrittenNames(f);
    var n := |f.rows|;
    forall j | 0 <= j < |names| ensures Key(SlotName(k), suffix) != Key(names[j], suffix) {
      SuffixCancel(SlotName(k), names[j], suffix);
      if j < n {
        if SlotName(k) == names[j] { SlotNameInjective(k, j); }
      } else {
        SlotNameNotRatio(k);
        assert names[j] == RatioNames[j - n];
      }
    }
  }

  /** Entries that agree at `obj` carry the same object features. */
  lemma ObjectWrittenKept(c: Columns, r: Columns, obj: nat, f: DivisionFeatures,
                          divFeatures: seq<string>, suffix: string)
    requires CanWrite(c, divFeatures, suffix, obj) && CanWrite(r, divFeatures, suffix, obj)
    requires ObjectWritten(c, obj, f, divFeatures, suffix)
    requires forall name :: name in divFeatures ==> r[Key(name, suffix)][obj] == c[Key(name, suffix)][obj]
    ensures ObjectWritten(r, obj, f, divFeatures, suffix)
  {
  }

  /** Every listed feature has a column, with the suffix, of one entry per object. */
  predicate HasColumns(cols: Columns, divFeatures: seq<string>, suffix: string, num: nat)
  {
    forall name :: name in divFeatures ==> Key(name, suffix) in cols && |cols[Key(name, suffix)]| == num
  }

  /** The loop of `extractDivisionFeatures` from object `obj` on, writing the
      features `feats[l]` of each object `l`. */
  function WriteObjects(cols: Columns, feats: seq<DivisionFeatures>, obj: nat,
                        divFeatures: seq<string>, suffix: string): (r: Columns)
    requires HasColumns(cols, divFeatures, suffix, |feats|)
    ensures SameShape(r, cols) && HasColumns(r, divFeatures, suffix, |feats|)
    ensures forall l :: obj <= l < |feats| ==> ObjectWritten(r, l, feats[l], divFeatures, suffix)
    ensures forall key, i ::
      (key in cols && 0 <= i < |cols[key]| && (i < obj || !Target(key, divFeatures, suffix)))
      ==> r[key][i] == cols[key][i]
    ensures forall l, k: nat ::
      (obj <= l < |feats| && k >= |feats[l].rows| && SlotName(k) in divFeatures)
      ==> r[Key(SlotName(k), suffix)][l] == cols[Key(SlotName(k), suffix)][l]
    decreases |feats| - obj
  {
    if obj >= |feats| then cols
    else
      var c := WriteObject(cols, obj, feats[obj], divFeatures, suffix);
      var r := WriteObjects(c, feats, obj + 1, divFeatures, suffix);
      ObjectWrittenKept(c, r, obj, feats[obj], divFeatures, suffix);
      r
  }

  /** The features of every object of the current frame; the background row
      gets none. */
  function AllObjects(cur: RegionFeatures, next: RegionFeatures, shape: seq<nat>, dim: nat,
                      s: Settings, env: Env): (feats: seq<DivisionFeatures>)
    requires Fits(cur, next, shape, dim) && EnvFits(env, next, dim)
    ensures |feats| == |cur.centers|
    ensures forall l :: 1 <= l < |feats| ==> feats[l] == ObjectAt(cur, next, shape, dim, s, env, l)
  {
    seq(|cur.centers|, l requires 0 <= l < |cur.centers| =>
      if l == 0 then DivisionFeatures([], 0.0, 0.0, 0.0, 0.0, 0.0, 0.0)
      else ObjectAt(cur, next, shape, dim, s, env, l))
  }

  /** `extractDivisionFeatures(feats_at_cur, feats_at_next, img_at_next,
      divFeatures, numNeighbors, size_filter_from, suffix)`: every object but
      the background gets its features written into its entry of the listed
      columns, and nothing else changes. */
  function ExtractDivisionFeatures(cols: Columns, cur: RegionFeatures, next: RegionFeatures,
                                   shape: seq<nat>, dim: nat, s: Settings, env: Env,
                                   divFeatures: seq<string>, suffix: string): (r: Columns)
    requires Fits(cur, next, shape, dim) && EnvFits(env, next, dim)
    requires HasColumns(cols, divFeatures, suffix, |cur.centers|)
    ensures SameShape(r, cols) && HasColumns(r, divFeatures, suffix, |cur.centers|)
    ensures forall key :: key in cols && !Target(key, divFeatures, suffix) ==> r[key] == cols[key]
    ensures forall key :: key in cols && |cols[key]| > 0 ==> r[key][0] == cols[key][0]
    ensures forall l, k: nat ::
      (1 <= l < |cur.centers| && k >= |ObjectAt(cur, next, shape, dim, s, env, l).rows| && SlotName(k) in divFeatures)
      ==> r[Key(SlotName(k), suffix)][l] == cols[Key(SlotName(k), suffix)][l]
  {
    var feats := AllObjects(cur, next, shape, dim, s, env);
    var r := WriteObjects(cols, feats, 1, divFeatures, suffix);
    forall key | key in cols && !Target(key, divFeatures, suffix) ensures r[key] == cols[key] {
      assert forall i :: 0 <= i < |cols[key]| ==> r[key][i] == cols[key][i];
    }
    r
  }

  /** After `extractDivisionFeatures` every object but the background has its
      features in its entries of the listed columns. */
  lemma ExtractWritesObjects(cols: Columns, cur: RegionFeatures, next: RegionFeatures,
                             shape: seq<nat>, dim: nat, s: Settings, env: Env,
                             divFeatures: seq<string>, suffix: string)
    requires Fits(cur, next, shape, dim) && EnvFits(env, next, dim)
    requires HasColumns(cols, divFeatures, suffix, |cur.centers|)
    ensures var r := ExtractDivisionFeatures(cols, cur, next, shape, dim, s, env, divFeatures, suffix);
      forall l :: 1 <= l < |cur.centers| ==>
        CanWrite(r, divFeatures, suffix, l) && ObjectWritten(r, l, ObjectAt(cur, next, shape, dim, s, env, l), divFeatures, suffix)
  {
    var feats := AllObjects(cur, next, shape, dim, s, env);
    var r := WriteObjects(cols, feats, 1, divFeatures, suffix);
    assert r == ExtractDivisionFeatures(cols, cur, next, shape, dim, s, env, divFeatures, suffix);
    WriteObjectsWrites(cols, feats, divFeatures, suffix);
  }

  /** The write loop from object 1 on has written every object but the first. */
  lemma WriteObjectsWrites(cols: Columns, feats: seq<DivisionFeatures>, divFeatures: seq<string>, suffix: string)
    requires HasColumns(cols, divFeatures, suffix, |feats|)
    ensures var r := WriteObjects(cols, feats, 1, divFeatures, suffix);
      forall l :: 1 <= l < |feats| ==> CanWrite(r, divFeatures, suffix, l) && ObjectWritten(r, l, feats[l], divFeatures, suffix)
  {
  }

  /** No listed name is another listed name with the correction suffix, so the
      corrected pass never writes a plain column. */
  predicate NoSuffixedNames(names: seq<string>)
  {
    forall x, y :: x in names && y in names ==> x != y + CorrSuffix
  }

  /** A name that does not end in `r` does not carry the correction suffix. */
  lemma NotSuffixed(x: string)
    requires |x| > 0 && x[|x| - 1] != 'r'
    ensures forall y :: x != y + CorrSuffix
  {
    forall y ensures x != y + CorrSuffix {
      assert (y + CorrSuffix)[|y + CorrSuffix| - 1] == 'r';
    }
  }

  /** None of the six ratio names carries the correction suffix. */
  lemma RatioNamesUnsuffixed(x: string)
    requires x in RatioNames
    ensures forall y :: x != y + CorrSuffix
  {
    NotSuffixed(x);
  }

  /** The name list after the first run has no suffixed names. */
  lemma UpdatedNamesUnsuffixed(numNeighbors: int)
    requires numNeighbors > 0
    ensures NoSuffixedNames(UpdateNames(InitialNames, numNeighbors))
  {
    SecondRunUnchanged(numNeighbors, numNeighbors);
    var names := UpdateNames(InitialNames, numNeighbors);
    assert names == RatioNames + SlotNames(numNeighbors) by {
      assert InitialNames[1..] == RatioNames;
    }
    forall x | x in names ensures forall y :: x != y + CorrSuffix {
      if x in RatioNames {
        RatioNamesUnsuffixed(x);
      } else {
        assert x in SlotNames(numNeighbors);
        var k :| 0 <= k < numNeighbors && SlotNames(numNeighbors)[k] == x;
        SlotNameDistinct(k);
      }
    }
  }

  /** After the zero loop every listed name has a column of zeros, plain
      and corrected as the flags say. */
  lemma InitialColumnsShape(cols: Columns, names: seq<string>, numNeighbors: int, num: nat,
                            plain: bool, corrected: bool)
    ensures var c := InitialColumns(cols, names, numNeighbors, num, plain, corrected);
      && (plain ==> HasColumns(c, names, "", num))
      && (corrected ==> HasColumns(c, names, CorrSuffix, num))
      && forall key :: ZeroedBy(names, plain, corrected, key) ==> key in c && c[key] == Fill(num, 0.0)
  {
    var d := DefaultDistanceSlots(cols, 0, RangeCount(numNeighbors), num, plain, corrected);
    forall key ensures ZeroedBy(names, plain, corrected, key) ==>
      key in ZeroSlots(d, names, num, plain, corrected) && ZeroSlots(d, names, num, plain, corrected)[key] == Fill(num, 0.0)
    {
      ZeroSlotsSpec(d, names, num, plain, corrected, key);
    }
    forall name | name in names ensures Key(name, "") == name {
    }
  }

  /** The centre table the corrected pass reads: `RegionCenter_corr` with the
      same `Count` and `Mean`. */
  function Corrected(cur: RegionFeatures, dim: nat, env: Env): (corr: RegionFeatures)
    requires WellFormed(cur, dim) && forall c :: |env.translation(c)| == dim
    ensures WellFormed(corr, dim)
    ensures corr.counts == cur.counts && corr.means == cur.means && |corr.centers| == |cur.centers|
  {
    RegionFeatures(CorrectedCenters(cur.centers, dim, env.translation), cur.counts, cur.means)
  }

  /** The division-feature columns of one channel at timestep `t` of
      `numTimesteps`: the default and zero loops, then, except at the last
      timestep, `extractDivisionFeatures` on the plain centres and on the
      translation-corrected ones, as the two flags say. */
  function ChannelColumns(cols: Columns, names: seq<string>, t: int, numTimesteps: nat,
                          cur: RegionFeatures, next: RegionFeatures, shape: seq<nat>, dim: nat,
                          s: Settings, env: Env, plain: bool, corrected: bool): (r: Columns)
    requires Fits(cur, next, shape, dim) && EnvFits(env, next, dim)
    ensures plain ==> HasColumns(r, names, "", |cur.centers|)
    ensures corrected ==> HasColumns(r, names, CorrSuffix, |cur.centers|)
    ensures t >= numTimesteps - 1 ==>
      forall key :: ZeroedBy(names, plain, corrected, key) ==> key in r && r[key] == Fill(|cur.centers|, 0.0)
    ensures forall key :: ZeroedBy(names, plain, corrected, key) ==> key in r && |r[key]| == |cur.centers|
    ensures forall key :: ZeroedBy(names, plain, corrected, key) && |cur.centers| > 0 ==> r[key][0] == 0.0
    ensures corrected && t < numTimesteps - 1 ==> forall l :: 1 <= l < |cur.centers| ==>
      ObjectWritten(r, l, ObjectAt(Corrected(cur, dim, env), next, shape, dim, s, env, l), names, CorrSuffix)
  {
    var num := |cur.centers|;
    var c0 := InitialColumns(cols, names, s.numNeighbors, num, plain, corrected);
    InitialColumnsShape(cols, names, s.numNeighbors, num, plain, corrected);
    if t >= numTimesteps - 1 then c0
    else
      var c1 := if plain then ExtractDivisionFeatures(c0, cur, next, shape, dim, s, env, names, "") else c0;
      var corr := Corrected(cur, dim, env);
      if corrected then
        ExtractWritesObjects(c1, corr, next, shape, dim, s, env, names, CorrSuffix);
        ExtractDivisionFeatures(c1, corr, next, shape, dim, s, env, names, CorrSuffix)
      else c1
  }

  /** Except at the last timestep, every object's plain features are in its
      entry of the plain columns: the corrected pass writes only suffixed columns. */
  lemma ChannelPlainFeatures(cols: Columns, names: seq<string>, t: int, numTimesteps: nat,
                             cur: RegionFeatures, next: RegionFeatures, shape: seq<nat>, dim: nat,
                             s: Settings, env: Env, corrected: bool, l: int)
    requires Fits(cur, next, shape, dim) && EnvFits(env, next, dim)
    requires NoSuffixedNames(names)
    requires t < numTimesteps - 1 && 1 <= l < |cur.centers|
    ensures var r := ChannelColumns(cols, names, t, numTimesteps, cur, next, shape, dim, s, env, true, corrected);
      ObjectWritten(r, l, ObjectAt(cur, next, shape, dim, s, env, l), names, "")
  {
    var num := |cur.centers|;
    var c0 := InitialColumns(cols, names, s.numNeighbors, num, true, corrected);
    InitialColumnsShape(cols, names, s.numNeighbors, num, true, corrected);
    var c1 := ExtractDivisionFeatures(c0, cur, next, shape, dim, s, env, names, "");
    var f := ObjectAt(cur, next, shape, dim, s, env, l);
    ExtractWritesObjects(c0, cur, next, shape, dim, s, env, names, "");
    assert ObjectWritten(c1, l, f, names, "");
    if corrected {
      var c2 := ExtractDivisionFeatures(c1, Corrected(cur, dim, env), next, shape, dim, s, env, names, CorrSuffix);
      PlainColumnsKept(c1, c2, names, l, f);
    }
  }

  /** A pass that writes only suffixed columns keeps what a plain pass wrote. */
  lemma PlainColumnsKept(c1: Columns, c2: Columns, names: seq<string>, l: nat, f: DivisionFeatures)
    requires NoSuffixedNames(names)
    requires CanWrite(c1, names, "", l) && ObjectWritten(c1, l, f, names, "")
    requires forall key :: key in c1 && !Target(key, names, CorrSuffix) ==> key in c2 && c2[key] == c1[key]
    ensures CanWrite(c2, names, "", l) && ObjectWritten(c2, l, f, names, "")
  {
    forall name | name in names ensures Key(name, "") in c2 && c2[Key(name, "")] == c1[Key(name, "")] {
      assert Key(name, "") == name;
      assert !Target(name, names, CorrSuffix);
    }
    ObjectWrittenKept(c1, c2, l, f, names, "");
  }


  /** Object `l`'s distance slots `0 .. n-1` hold the distances of its kept
      rows, in order, and 0 beyond them. */
  predicate SlotEntries(r: Columns, l: nat, f: DivisionFeatures, n: nat)
  {
    forall k: nat :: k < n ==>
      && SlotName(k) in r && l < |r[SlotName(k)]|
      && r[SlotName(k)][l] == if k < |f.rows| then f.rows[k].dist else 0.0
  }

  /** A pass leaves the distance slot of an object beyond its kept rows as it was. */
  lemma PassKeepsSlot(c0: Columns, cur: RegionFeatures, next: RegionFeatures, shape: seq<nat>, dim: nat,
                      s: Settings, env: Env, names: seq<string>, suffix: string, l: int, k: nat)
    requires Fits(cur, next, shape, dim) && EnvFits(env, next, dim)
    requires HasColumns(c0, names, suffix, |cur.centers|)
    requires 1 <= l < |cur.centers| && SlotName(k) in names
    requires k >= |ObjectAt(cur, next, shape, dim, s, env, l).rows|
    ensures var c1 := ExtractDivisionFeatures(c0, cur, next, shape, dim, s, env, names, suffix);
      && Key(SlotName(k), suffix) in c0 && Key(SlotName(k), suffix) in c1
      && l < |c1[Key(SlotName(k), suffix)]| && c1[Key(SlotName(k), suffix)][l] == c0[Key(SlotName(k), suffix)][l]
  {
  }

  /** The corrected pass never writes an unsuffixed distance slot. */
  lemma CorrectedPassKeepsSlot(c1: Columns, corr: RegionFeatures, next: RegionFeatures, shape: seq<nat>, dim: nat,
                               s: Settings, env: Env, names: seq<string>, k: nat)
    requires Fits(corr, next, shape, dim) && EnvFits(env, next, dim)
    requires HasColumns(c1, names, CorrSuffix, |corr.centers|)
    requires SlotName(k) in c1
    ensures var c2 := ExtractDivisionFeatures(c1, corr, next, shape, dim, s, env, names, CorrSuffix);
      SlotName(k) in c2 && c2[SlotName(k)] == c1[SlotName(k)]
  {
    SlotNameDistinct(k);
    assert !Target(SlotName(k), names, CorrSuffix);
  }

  /** A distance slot beyond an object's kept rows holds 0 once the name
      list has been updated: the default distance 1000 written first is
      overwritten by the zero loop, and no pass writes the slot afterwards. */
  lemma UnfilledSlotZero(cols: Columns, t: int, numTimesteps: nat,
                         cur: RegionFeatures, next: RegionFeatures, shape: seq<nat>, dim: nat,
                         s: Settings, env: Env, corrected: bool, l: int, k: nat)
    requires Fits(cur, next, shape, dim) && EnvFits(env, next, dim)
    requires t < numTimesteps - 1 && 1 <= l < |cur.centers|
    requires k < s.numNeighbors && k >= |ObjectAt(cur, next, shape, dim, s, env, l).rows|
    ensures var r := ChannelColumns(cols, UpdateNames(InitialNames, s.numNeighbors), t, numTimesteps,
                                    cur, next, shape, dim, s, env, true, corrected);
      SlotName(k) in r && l < |r[SlotName(k)]| && r[SlotName(k)][l] == 0.0
  {
    var names := UpdateNames(InitialNames, s.numNeighbors);
    var key := SlotName(k);
    var num := |cur.centers|;
    var c0 := InitialColumns(cols, names, s.numNeighbors, num, true, corrected);
    FirstRunZeroesDistances(cols, s.numNeighbors, num, corrected, k);
    InitialColumnsShape(cols, names, s.numNeighbors, num, true, corrected);
    var c1 := ExtractDivisionFeatures(c0, cur, next, shape, dim, s, env, names, "");
    PassKeepsSlot(c0, cur, next, shape, dim, s, env, names, "", l, k);
    assert Key(key, "") == key;
    var corr := Corrected(cur, dim, env);
    var r := if corrected then ExtractDivisionFeatures(c1, corr, next, shape, dim, s, env, names, CorrSuffix) else c1;
    assert r == ChannelColumns(cols, names, t, numTimesteps, cur, next, shape, dim, s, env, true, corrected);
    if corrected {
      CorrectedPassKeepsSlot(c1, corr, next, shape, dim, s, env, names, k);
    }
  }

  /** An object keeps at most `numNeighbors` rows, nearest first. */
  lemma ObjectAtRows(cur: RegionFeatures, next: RegionFeatures, shape: seq<nat>, dim: nat,
                     s: Settings, env: Env, l: int)
    requires Fits(cur, next, shape, dim) && EnvFits(env, next, dim)
    requires s.numNeighbors >= 0 && 1 <= l < |cur.centers|
    ensures var f := ObjectAt(cur, next, shape, dim, s, env, l);
      |f.rows| <= s.numNeighbors && SortedByDistance(f.rows)
  {
  }

  /** A plain-pass slot of a kept row holds that row's distance. */
  lemma FilledSlot(r: Columns, l: nat, f: DivisionFeatures, names: seq<string>, k: nat)
    requires CanWrite(r, names, "", l) && ObjectWritten(r, l, f, names, "")
    requires k < |f.rows| && SlotName(k) in names
    ensures SlotName(k) in r && l < |r[SlotName(k)]| && r[SlotName(k)][l] == f.rows[k].dist
  {
    assert Key(SlotName(k), "") == SlotName(k);
  }

  /** Once the name list has been updated, every distance slot of an object
      holds, in order, the distances of its kept neighbours, ascending, and 0
      for the slots beyond them: the default distance 1000 never survives. */
  lemma ChannelDistanceSlots(cols: Columns, t: int, numTimesteps: nat,
                             cur: RegionFeatures, next: RegionFeatures, shape: seq<nat>, dim: nat,
                             s: Settings, env: Env, corrected: bool, l: int)
    requires Fits(cur, next, shape, dim) && EnvFits(env, next, dim)
    requires s.numNeighbors > 0
    requires t < numTimesteps - 1 && 1 <= l < |cur.centers|
    ensures var r := ChannelColumns(cols, UpdateNames(InitialNames, s.numNeighbors), t, numTimesteps,
                                    cur, next, shape, dim, s, env, true, corrected);
      var f := ObjectAt(cur, next, shape, dim, s, env, l);
      && |f.rows| <= s.numNeighbors
      && SlotEntries(r, l, f, s.numNeighbors)
      && SortedByDistance(f.rows)
  {
    var names := UpdateNames(InitialNames, s.numNeighbors);
    var r := ChannelColumns(cols, names, t, numTimesteps, cur, next, shape, dim, s, env, true, corrected);
    var f := ObjectAt(cur, next, shape, dim, s, env, l);
    ObjectAtRows(cur, next, shape, dim, s, env, l);
    UpdatedNamesUnsuffixed(s.numNeighbors);
    ChannelPlainFeatures(cols, names, t, numTimesteps, cur, next, shape, dim, s, env, corrected, l);
    forall k: nat | k < s.numNeighbors
      ensures SlotName(k) in r && l < |r[SlotName(k)]|
      ensures r[SlotName(k)][l] == if k < |f.rows| then f.rows[k].dist else 0.0
    {
      if k < |f.rows| {
        SlotInUpdatedNames(s.numNeighbors, k);
        FilledSlot(r, l, f, names, k);
      } else {
        UnfilledSlotZero(cols, t, numTimesteps, cur, next, shape, dim, s, env, corrected, l, k);
      }
    }
  }

  /** The first distance slot of an object holds the distance from its centre
      to the nearest child in its window of the next frame, and 0 when the
      window holds no child. */
  lemma ChannelNearestSlot(cols: Columns, t: int, numTimesteps: nat,
                           cur: RegionFeatures, next: RegionFeatures, shape: seq<nat>, dim: nat,
                           s: Settings, env: Env, corrected: bool, l: int)
    requires Fits(cur, next, shape, dim) && EnvFits(env, next, dim) && LabelsAscending(env)
    requires s.numNeighbors > 0
    requires t < numTimesteps - 1 && 1 <= l < |cur.centers|
    ensures var r := ChannelColumns(cols, UpdateNames(InitialNames, s.numNeighbors), t, numTimesteps,
                                    cur, next, shape, dim, s, env, true, corrected);
      var com := cur.centers[l];
      var children := WindowChildren(env.labelsIn(SearchWindow(com, shape, s.templateSize)), next, s.sizeFilter);
      && SlotName(0) in r && l < |r[SlotName(0)]|
      && (children == {} ==> r[SlotName(0)][l] == 0.0)
      && (children != {} ==>
            && (exists c :: c in children && r[SlotName(0)][l] == env.norm(Sub(next.centers[c], com)))
            && forall c :: c in children ==> r[SlotName(0)][l] <= env.norm(Sub(next.centers[c], com)))
  {
    var r := ChannelColumns(cols, UpdateNames(InitialNames, s.numNeighbors), t, numTimesteps,
                            cur, next, shape, dim, s, env, true, corrected);
    var f := ObjectAt(cur, next, shape, dim, s, env, l);
    assert SlotName(0) in r && l < |r[SlotName(0)]| && r[SlotName(0)][l] == if 0 < |f.rows| then f.rows[0].dist else 0.0 by {
      ChannelDistanceSlots(cols, t, numTimesteps, cur, next, shape, dim, s, env, corrected, l);
    }
    ObjectAtNearest(cur, next, shape, dim, s, env, l);
  }

  /** The first row kept for an object is the nearest child in its window,
      and there is one whenever the window holds a child. */
  lemma ObjectAtNearest(cur: RegionFeatures, next: RegionFeatures, shape: seq<nat>, dim: nat,
                        s: Settings, env: Env, l: int)
    requires Fits(cur, next, shape, dim) && EnvFits(env, next, dim) && LabelsAscending(env)
    requires s.numNeighbors > 0 && 1 <= l < |cur.centers|
    ensures var f := ObjectAt(cur, next, shape, dim, s, env, l);
      var com := cur.centers[l];
      var children := WindowChildren(env.labelsIn(SearchWindow(com, shape, s.templateSize)), next, s.sizeFilter);
      && (|f.rows| > 0 <==> children != {})
      && (|f.rows| > 0 ==>
            && f.rows[0].id in children && f.rows[0].dist == env.norm(Sub(next.centers[f.rows[0].id], com))
            && forall c :: c in children ==> f.rows[0].dist <= env.norm(Sub(next.centers[c], com)))
  {
    var com := cur.centers[l];
    var present := env.labelsIn(SearchWindow(com, shape, s.templateSize));
    assert KnownLabels(present, next);
    ObjectFeaturesNearest(com, cur.counts[l], cur.means[l], present, next,
                          s.numNeighbors, s.sizeFilter, env.norm, env.angle);
  }

  /** The ranges of the six ratio features of an object with mean `parentMean`;
      the lower bounds of the two mean ratios need non-negative child means. */
  predicate RatiosInRange(f: DivisionFeatures, parentMean: real, meansNonNegative: bool)
  {
    && 0.0 <= f.angle <= 180.0
    && 0.0 <= f.childrenSizeRatio <= 1.0
    && 0.0 <= f.squaredDistanceRatio <= 1.0
    && 0.0 <= f.parentChildrenSizeRatio
    && f.childrenMeanRatio <= 1.0
    && (meansNonNegative ==> 0.0 <= f.childrenMeanRatio)
    && (parentMean >= 0.0 && meansNonNegative ==> -1.0 <= f.parentChildrenMeanRatio)
  }

  lemma ObjectAtInRange(cur: RegionFeatures, next: RegionFeatures, shape: seq<nat>, dim: nat,
                        s: Settings, env: Env, l: int)
    requires Fits(cur, next, shape, dim) && EnvFits(env, next, dim)
    requires 1 <= l < |cur.centers|
    ensures RatiosInRange(ObjectAt(cur, next, shape, dim, s, env, l), cur.means[l], MeansNonNegative(next))
  {
    var present := env.labelsIn(SearchWindow(cur.centers[l], shape, s.templateSize));
    assert KnownLabels(present, next);
    assert MeansNonNegative(next) ==> ChildMeansNonNegative(present, next);
  }

  /** The plain ratio columns of an object hold its six ratios. */
  predicate RatioEntries(r: Columns, l: nat, f: DivisionFeatures)
  {
    && AngleName in r && l < |r[AngleName]| && r[AngleName][l] == f.angle
    && ChildrenSizeRatioName in r && l < |r[ChildrenSizeRatioName]| && r[ChildrenSizeRatioName][l] == f.childrenSizeRatio
    && SquaredDistanceRatioName in r && l < |r[SquaredDistanceRatioName]|
    && r[SquaredDistanceRatioName][l] == f.squaredDistanceRatio
    && ParentChildrenSizeRatioName in r && l < |r[ParentChildrenSizeRatioName]|
    && r[ParentChildrenSizeRatioName][l] == f.parentChildrenSizeRatio
    && ChildrenMeanRatioName in r && l < |r[ChildrenMeanRatioName]| && r[ChildrenMeanRatioName][l] == f.childrenMeanRatio
    && ParentChildrenMeanRatioName in r && l < |r[ParentChildrenMeanRatioName]|
    && r[ParentChildrenMeanRatioName][l] == f.parentChildrenMeanRatio
  }

  lemma PlainRatioEntries(r: Columns, l: nat, f: DivisionFeatures, names: seq<string>)
    requires forall x :: x in RatioNames ==> x in names
    requires CanWrite(r, names, "", l) && ObjectWritten(r, l, f, names, "")
    ensures RatioEntries(r, l, f)
  {
    forall x | x in RatioNames ensures Key(x, "") == x {
    }
  }

  /** The plain ratio columns hold, for object `l`, values within the ranges
      of their features. */
  predicate ColumnRatiosInRange(r: Columns, l: nat, parentMean: real, meansNonNegative: bool)
  {
    && AngleName in r && l < |r[AngleName]| && 0.0 <= r[AngleName][l] <= 180.0
    && ChildrenSizeRatioName in r && l < |r[ChildrenSizeRatioName]| && 0.0 <= r[ChildrenSizeRatioName][l] <= 1.0
    && SquaredDistanceRatioName in r && l < |r[SquaredDistanceRatioName]|
    && 0.0 <= r[SquaredDistanceRatioName][l] <= 1.0
    && ParentChildrenSizeRatioName in r && l < |r[ParentChildrenSizeRatioName]|
    && 0.0 <= r[ParentChildrenSizeRatioName][l]
    && ChildrenMeanRatioName in r && l < |r[ChildrenMeanRatioName]| && r[ChildrenMeanRatioName][l] <= 1.0
    && (meansNonNegative ==> 0.0 <= r[ChildrenMeanRatioName][l])
    && ParentChildrenMeanRatioName in r && l < |r[ParentChildrenMeanRatioName]|
    && (parentMean >= 0.0 && meansNonNegative ==> -1.0 <= r[ParentChildrenMeanRatioName][l])
  }

  /** Every ratio column entry of an object lies within the range of its feature. */
  lemma ChannelRatioBounds(cols: Columns, names: seq<string>, t: int, numTimesteps: nat,
                           cur: RegionFeatures, next: RegionFeatures, shape: seq<nat>, dim: nat,
                           s: Settings, env: Env, corrected: bool, l: int)
    requires Fits(cur, next, shape, dim) && EnvFits(env, next, dim)
    requires NoSuffixedNames(names) && forall x :: x in RatioNames ==> x in names
    requires t < numTimesteps - 1 && 1 <= l < |cur.centers|
    ensures ColumnRatiosInRange(ChannelColumns(cols, names, t, numTimesteps, cur, next, shape, dim, s, env, true, corrected),
                                l, cur.means[l], MeansNonNegative(next))
  {
    var r := ChannelColumns(cols, names, t, numTimesteps, cur, next, shape, dim, s, env, true, corrected);
    var f := ObjectAt(cur, next, shape, dim, s, env, l);
    ChannelPlainFeatures(cols, names, t, numTimesteps, cur, next, shape, dim, s, env, corrected, l);
    PlainRatioEntries(r, l, f, names);
    ObjectAtInRange(cur, next, shape, dim, s, env, l);
    EntriesInRange(r, l, f, cur.means[l], MeansNonNegative(next));
  }

  lemma EntriesInRange(r: Columns, l: nat, f: DivisionFeatures, parentMean: real, meansNonNegative: bool)
    requires RatioEntries(r, l, f) && RatiosInRange(f, parentMean, meansNonNegative)
    ensures ColumnRatiosInRange(r, l, parentMean, meansNonNegative)
  {
  }
}
