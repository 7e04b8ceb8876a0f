/** Nearest-candidate selection (`OpCellFeatures.getSquaredDistances`): keep
    the next-frame objects that are large enough, order them by distance to
    the parent centre with a stable sort, and keep at most `num_best` rows. */
module Selection {
  import opened Numeric

  /** A Euclidean distance as `numpy.linalg.norm` returns it. */
  type Distance = r: real | r >= 0.0

  /** One row of the result array: `[label_next, dist]`. */
  datatype Row = Row(id: int, dist: Distance)

  /** One entry of the `coms_next` / `sizes_next` dictionaries, with the
      distance of its centre from the parent's centre already measured. */
  datatype Candidate = Candidate(row: Row, size: int)

  /** `s` is in ascending order of `key`. */
  predicate SortedBy<T>(s: seq<T>, key: T -> real)
  {
    forall i, j :: 0 <= i < j < |s| ==> key(s[i]) <= key(s[j])
  }

  function Dist(r: Row): real
  {
    r.dist
  }

  function Id(r: Row): real
  {
    r.id as real
  }

  predicate SortedByDistance(s: seq<Row>)
  {
    SortedBy(s, Dist)
  }

  /** The candidates that pass the size filter, as rows, in dictionary order. */
  function Qualifying(cands: seq<Candidate>, sizeFilter: int): (r: seq<Row>)
    ensures |r| <= |cands|
    ensures forall x :: x in r <==> exists c :: c in cands && c.size >= sizeFilter && c.row == x
  {
    if |cands| == 0 then []
    else
      var rest := Qualifying(cands[1..], sizeFilter);
      assert forall c :: c in cands[1..] ==> c in cands;
      assert forall c :: c in cands ==> c == cands[0] || c in cands[1..];
      if cands[0].size >= sizeFilter then [cands[0].row] + rest else rest
  }

  lemma QualifyingCons(c: Candidate, rest: seq<Candidate>, sizeFilter: int)
    ensures Qualifying([c] + rest, sizeFilter) ==
      (if c.size >= sizeFilter then [c.row] else []) + Qualifying(rest, sizeFilter)
  {
    assert ([c] + rest)[1..] == rest;
  }

  /** The positions of the candidates from `lo` on that pass the size filter. */
  function PassingFrom(cands: seq<Candidate>, sizeFilter: int, lo: nat): set<int>
  {
    set i | lo <= i < |cands| && cands[i].size >= sizeFilter
  }

  lemma {:induction false} QualifyingCountFrom(cands: seq<Candidate>, sizeFilter: int, lo: nat)
    requires lo <= |cands|
    ensures |Qualifying(cands[lo..], sizeFilter)| == |PassingFrom(cands, sizeFilter, lo)|
    decreases |cands| - lo
  {
    if lo == |cands| {
      assert PassingFrom(cands, sizeFilter, lo) == {};
    } else {
      QualifyingCountFrom(cands, sizeFilter, lo + 1);
      assert cands[lo..][1..] == cands[lo + 1..];
      if cands[lo].size >= sizeFilter {
        assert PassingFrom(cands, sizeFilter, lo) == {lo} + PassingFrom(cands, sizeFilter, lo + 1);
      } else {
        assert PassingFrom(cands, sizeFilter, lo) == PassingFrom(cands, sizeFilter, lo + 1);
      }
    }
  }

  /** One row per candidate that passes the filter, counted with repetition:
      the length of the filtered list is the number of passing positions. */
  lemma QualifyingCount(cands: seq<Candidate>, sizeFilter: int)
    ensures |Qualifying(cands, sizeFilter)| == |set i | 0 <= i < |cands| && cands[i].size >= sizeFilter|
  {
    QualifyingCountFrom(cands, sizeFilter, 0);
    assert cands[0..] == cands;
    assert PassingFrom(cands, sizeFilter, 0) == set i | 0 <= i < |cands| && cands[i].size >= sizeFilter;
  }

  /** Inserts `x` into a sorted list ahead of the first element whose key is
      not smaller than its own, so ahead of any element of equal key. */
  function InsertBy<T(==)>(x: T, s: seq<T>, key: T -> real): (r: seq<T>)
    requires SortedBy(s, key)
    ensures multiset(r) == multiset(s) + multiset{x}
    ensures |r| == |s| + 1
    ensures r[0] == x || (|s| > 0 && r[0] == s[0])
    ensures SortedBy(r, key)
  {
    if |s| == 0 || key(x) <= key(s[0]) then
      assert forall i :: 1 <= i < |s| + 1 ==> ([x] + s)[i] == s[i - 1];
      [x] + s
    else
      var t := InsertBy(x, s[1..], key);
      assert s == [s[0]] + s[1..];
      SortedCons(s[0], t, key);
      [s[0]] + t
  }

  lemma SortedCons<T>(y: T, t: seq<T>, key: T -> real)
    requires SortedBy(t, key)
    requires |t| > 0 ==> key(y) <= key(t[0])
    ensures SortedBy([y] + t, key)
  {
    var r := [y] + t;
    forall i, j | 0 <= i < j < |r|
      ensures key(r[i]) <= key(r[j])
    {
      if i == 0 {
        assert r[j] == t[j - 1];
        assert key(t[0]) <= key(t[j - 1]);
      } else {
        assert r[i] == t[i - 1] && r[j] == t[j - 1];
      }
    }
  }

  /** Python's stable `sorted(s, key=key)`, by insertion: each element goes
      into the sorted rest of the list ahead of the later elements of equal key. */
  function SortBy<T(==)>(s: seq<T>, key: T -> real): (r: seq<T>)
    ensures multiset(r) == multiset(s)
    ensures |r| == |s|
    ensures SortedBy(r, key)
  {
    if |s| == 0 then []
    else
      assert s == [s[0]] + s[1..];
      InsertBy(s[0], SortBy(s[1..], key), key)
  }

  /** Length of the Python slice `a[0:k]` of a sequence of length `n`. */
  function SliceLength(n: nat, k: int): (r: nat)
    ensures r <= n
    ensures k >= 0 ==> r == MinInt(n, k)
    ensures k < 0 ==> r == if n + k >= 0 then n + k else 0
  {
    if k >= n then n else if k >= 0 then k else if n + k >= 0 then n + k else 0
  }

  /** The sorted, truncated part of `getSquaredDistances`, on the rows that
      passed the size filter. */
  function NearestRows(q: seq<Row>, numBest: int): (r: seq<Row>)
    ensures |r| == SliceLength(|q|, numBest)
    ensures SortedByDistance(r)
    ensures multiset(r) <= multiset(q)
    ensures |r| > 0 ==> forall x :: x in multiset(q) - multiset(r) ==> r[|r| - 1].dist <= x.dist
  {
    var sorted := SortBy(q, Dist);
    var k := SliceLength(|sorted|, numBest);
    if |sorted| == 0 then []
    else
      PrefixFacts(sorted, k);
      sorted[..k]
  }

  /** `getSquaredDistances(com_cur, coms_next, sizes_next, num_best, size_filter_from)`. */
  function SquaredDistances(cands: seq<Candidate>, numBest: int, sizeFilter: int): (r: seq<Row>)
    ensures |r| == SliceLength(|Qualifying(cands, sizeFilter)|, numBest)
    ensures numBest >= 0 ==> |r| == MinInt(numBest, |Qualifying(cands, sizeFilter)|)
    ensures numBest >= 0 ==> |r| == MinInt(numBest, |set i | 0 <= i < |cands| && cands[i].size >= sizeFilter|)
    ensures SortedByDistance(r)
    ensures multiset(r) <= multiset(Qualifying(cands, sizeFilter))
    ensures forall x :: x in r ==> exists c :: c in cands && c.size >= sizeFilter && c.row == x
    ensures |r| > 0 ==>
      forall x :: x in multiset(Qualifying(cands, sizeFilter)) - multiset(r) ==> r[|r| - 1].dist <= x.dist
    ensures (forall c :: c in cands ==> c.size < sizeFilter) ==> r == []
  {
    var q := Qualifying(cands, sizeFilter);
    var r := NearestRows(q, numBest);
    SubMultisetMembers(r, q);
    QualifyingCount(cands, sizeFilter);
    assert |q| > 0 ==> q[0] in q;
    r
  }

  /** A passing candidate that was not kept is no nearer than the last row kept. */
  lemma LeftOutNoNearer(cands: seq<Candidate>, numBest: int, sizeFilter: int, c: Candidate)
    requires c in cands && c.size >= sizeFilter
    requires c.row !in SquaredDistances(cands, numBest, sizeFilter)
    ensures var r := SquaredDistances(cands, numBest, sizeFilter);
      |r| > 0 ==> r[|r| - 1].dist <= c.row.dist
  {
    var r := SquaredDistances(cands, numBest, sizeFilter);
    var q := Qualifying(cands, sizeFilter);
    assert c.row in q;
    assert c.row !in multiset(r);
    assert c.row in multiset(q) - multiset(r);
  }

  /** A prefix of a sorted list: it is a sub-multiset, and what it leaves out
      is no closer than its last row. */
  lemma PrefixFacts(sorted: seq<Row>, k: nat)
    requires SortedByDistance(sorted)
    requires k <= |sorted|
    ensures multiset(sorted[..k]) <= multiset(sorted)
    ensures k > 0 ==> forall x :: x in multiset(sorted) - multiset(sorted[..k]) ==> sorted[k - 1].dist <= x.dist
  {
    assert sorted == sorted[..k] + sorted[k..];
    assert multiset(sorted) == multiset(sorted[..k]) + multiset(sorted[k..]);
    if k > 0 {
      forall x | x in multiset(sorted) - multiset(sorted[..k])
        ensures sorted[k - 1].dist <= x.dist
      {
        assert x in multiset(sorted[k..]);
        assert x in sorted[k..];
        var j :| k <= j < |sorted| && sorted[j] == x;
      }
    }
  }

  lemma SubMultisetMembers(r: seq<Row>, q: seq<Row>)
    requires multiset(r) <= multiset(q)
    ensures forall x :: x in r ==> x in q
  {
    forall x | x in r ensures x in q {
      assert x in multiset(r);
    }
  }
}
