/** The division-feature names and the initial feature columns of one
    channel. The class-level list `divisionFeatures` starts with the template
    `'SquaredDistance%02d'`; the first run replaces the template by the
    concrete names `SquaredDistance00 ..`, and every run then fills the
    distance slots with the default distance and, afterwards, every listed
    name with zeros. */
module FeatureNames {
  import opened Numeric

  const Template: string := "SquaredDistance%02d"
  const Prefix: string := "SquaredDistance"
  const CorrSuffix: string := "_corr"
  const DefaultSquaredDistance: real := 1000.0

  const AngleName: string := "AngleDaughters"
  const ChildrenSizeRatioName: string := "ChildrenSizeRatio"
  const SquaredDistanceRatioName: string := "SquaredDistanceRatio"
  const ParentChildrenSizeRatioName: string := "ParentChildrenSizeRatio"
  const ChildrenMeanRatioName: string := "ChildrenMeanRatio"
  const ParentChildrenMeanRatioName: string := "ParentChildrenMeanRatio"

  /** The class attribute `divisionFeatures` before the first run. */
  const InitialNames: seq<string> := [Template, AngleName, ChildrenSizeRatioName,
    SquaredDistanceRatioName, ParentChildrenSizeRatioName, ChildrenMeanRatioName, ParentChildrenMeanRatioName]

  predicate IsDigit(c: char)
  {
    '0' <= c <= '9'
  }

  function DigitChar(d: nat): (c: char)
    requires d < 10
    ensures IsDigit(c)
  {
    ['0', '1', '2', '3', '4', '5', '6', '7', '8', '9'][d]
  }

  function DigitValue(c: char): (d: nat)
    requires IsDigit(c)
    ensures d < 10
    ensures DigitChar(d) == c
  {
    if c == '0' then 0 else if c == '1' then 1 else if c == '2' then 2
    else if c == '3' then 3 else if c == '4' then 4 else if c == '5' then 5
    else if c == '6' then 6 else if c == '7' then 7 else if c == '8' then 8 else 9
  }

  predicate AllDigits(s: string)
  {
    forall i :: 0 <= i < |s| ==> IsDigit(s[i])
  }

  /** Python's `str(n)` for a non-negative integer. */
  function Decimal(n: nat): (s: string)
    ensures |s| >= 1 && AllDigits(s)
  {
    if n < 10 then [DigitChar(n)] else Decimal(n / 10) + [DigitChar(n % 10)]
  }

  /** The value of a string of decimal digits; leading zeros are allowed. */
  function ParseDecimal(s: string): nat
    requires AllDigits(s)
  {
    if |s| == 0 then 0 else ParseDecimal(s[..|s| - 1]) * 10 + DigitValue(s[|s| - 1])
  }

  lemma {:induction false} ParseDecimalRoundTrip(n: nat)
    ensures ParseDecimal(Decimal(n)) == n
  {
    if n >= 10 {
      var s := Decimal(n);
      assert s[..|s| - 1] == Decimal(n / 10);
      ParseDecimalRoundTrip(n / 10);
    } else {
      assert Decimal(n)[..0] == [];
    }
  }

  lemma {:induction false} ParseLeadingZero(s: string)
    requires AllDigits(s)
    ensures ParseDecimal("0" + s) == ParseDecimal(s)
  {
    if |s| == 0 {
      assert ("0" + s)[..0] == [];
    } else {
      assert ("0" + s)[..|"0" + s| - 1] == "0" + s[..|s| - 1];
      ParseLeadingZero(s[..|s| - 1]);
    }
  }

  /** `'%02d' % n`: at least two digits, zero-padded. */
  function Pad2(n: nat): (s: string)
    ensures |s| >= 2 && AllDigits(s)
  {
    if n < 10 then "0" + Decimal(n) else Decimal(n)
  }

  /** Reading the padded number back gives the number. */
  lemma Pad2RoundTrip(n: nat)
    ensures ParseDecimal(Pad2(n)) == n
  {
    ParseDecimalRoundTrip(n);
    if n < 10 {
      ParseLeadingZero(Decimal(n));
    }
  }

  /** `'SquaredDistance%02d' % n`. */
  function SlotName(n: nat): (s: string)
    ensures |s| >= |Prefix| + 2
    ensures s[..|Prefix|] == Prefix && AllDigits(s[|Prefix|..])
  {
    assert (Prefix + Pad2(n))[|Prefix|..] == Pad2(n);
    Prefix + Pad2(n)
  }

  /** Different neighbour indices get different slot names. */
  lemma SlotNameInjective(m: nat, n: nat)
    requires SlotName(m) == SlotName(n)
    ensures m == n
  {
    assert SlotName(m)[|Prefix|..] == Pad2(m);
    assert SlotName(n)[|Prefix|..] == Pad2(n);
    Pad2RoundTrip(m);
    Pad2RoundTrip(n);
  }

  /** Appending the same suffix keeps different names different. */
  lemma SuffixCancel(a: string, b: string, suffix: string)
    ensures a + suffix == b + suffix <==> a == b
  {
    if a + suffix == b + suffix {
      assert a == (a + suffix)[..|a|];
      assert b == (b + suffix)[..|b|];
    }
  }

  /** No slot name is the template, and none carries the correction suffix. */
  lemma SlotNameDistinct(n: nat)
    ensures SlotName(n) != Template
    ensures forall x: string :: SlotName(n) != x + CorrSuffix
  {
    var s := SlotName(n);
    assert IsDigit(s[|Prefix|]);
    assert Template[|Prefix|] == '%';
    assert IsDigit(s[|s| - 1]);
    forall x: string ensures s != x + CorrSuffix {
      assert (x + CorrSuffix)[|x + CorrSuffix| - 1] == 'r';
    }
  }

  /** `SquaredDistance00 .. SquaredDistance(count-1)`. */
  function SlotNames(count: nat): (r: seq<string>)
    ensures |r| == count
    ensures forall n :: 0 <= n < count ==> r[n] == SlotName(n)
  {
    seq(count, n requires 0 <= n < count => SlotName(n))
  }

  /** Python's `list.remove(x)` on a list that holds `x`: drops the first occurrence. */
  function RemoveFirst(s: seq<string>, x: string): (r: seq<string>)
    requires x in s
    ensures |r| == |s| - 1
    ensures multiset(r) == multiset(s) - multiset{x}
  {
    if s[0] == x then
      assert s == [x] + s[1..];
      s[1..]
    else
      assert s == [s[0]] + s[1..];
      [s[0]] + RemoveFirst(s[1..], x)
  }

  lemma {:induction false} RemoveFirstAppend(s: seq<string>, t: seq<string>, x: string)
    requires x in s
    ensures RemoveFirst(s + t, x) == RemoveFirst(s, x) + t
  {
    assert (s + t)[0] == s[0];
    if s[0] != x {
      assert (s + t)[1..] == s[1..] + t;
      RemoveFirstAppend(s[1..], t, x);
    }
  }

  /** The loop of lines 135-140 from iteration `n` on, acting on the names only. */
  function NamesLoop(names: seq<string>, n: nat, count: nat): seq<string>
    decreases count - n
  {
    if n >= count then names
    else
      var next :=
        if Template in names then
          var appended := names + [SlotName(n)];
          if n == count - 1 then RemoveFirst(appended, Template) else appended
        else names;
      NamesLoop(next, n + 1, count)
  }

  /** `range(numNeighbors)` is empty for a non-positive count. */
  function RangeCount(numNeighbors: int): nat
  {
    if numNeighbors <= 0 then 0 else numNeighbors
  }

  /** The name list after one run with `numNeighbors`. */
  function UpdateNames(names: seq<string>, numNeighbors: int): seq<string>
  {
    NamesLoop(names, 0, RangeCount(numNeighbors))
  }

  lemma SlotNamesSnoc(n: nat)
    ensures SlotNames(n + 1) == SlotNames(n) + [SlotName(n)]
  {
  }

  lemma {:induction false} NamesLoopReplaces(orig: seq<string>, n: nat, count: nat)
    requires Template in orig
    requires n < count
    ensures NamesLoop(orig + SlotNames(n), n, count) == RemoveFirst(orig, Template) + SlotNames(count)
    decreases count - n
  {
    var names := orig + SlotNames(n);
    assert Template in names;
    var appended := names + [SlotName(n)];
    assert appended == orig + SlotNames(n + 1) by {
      SlotNamesSnoc(n);
    }
    if n == count - 1 {
      assert NamesLoop(names, n, count) == RemoveFirst(appended, Template);
      RemoveFirstAppend(orig, SlotNames(count), Template);
    } else {
      assert NamesLoop(names, n, count) == NamesLoop(appended, n + 1, count);
      NamesLoopReplaces(orig, n + 1, count);
    }
  }

  lemma {:induction false} NamesLoopIdle(names: seq<string>, n: nat, count: nat)
    requires Template !in names
    ensures NamesLoop(names, n, count) == names
    decreases count - n
  {
    if n < count {
      NamesLoopIdle(names, n + 1, count);
    }
  }

  /** The first run with at least one neighbour removes the template and
      appends one concrete name per neighbour; a list without the template,
      or a run with no neighbours, leaves the list as it is. */
  lemma UpdateNamesSpec(names: seq<string>, numNeighbors: int)
    ensures Template in names && numNeighbors > 0 ==>
      UpdateNames(names, numNeighbors) == RemoveFirst(names, Template) + SlotNames(numNeighbors)
    ensures Template !in names || numNeighbors <= 0 ==> UpdateNames(names, numNeighbors) == names
  {
    if Template in names && numNeighbors > 0 {
      assert names + SlotNames(0) == names;
      NamesLoopReplaces(names, 0, numNeighbors);
    } else if Template !in names {
      NamesLoopIdle(names, 0, RangeCount(numNeighbors));
    }
  }

  /** From the second run on the list no longer changes, whatever the number
      of neighbours: the template occurs once and is gone after the first run. */
  lemma SecondRunUnchanged(numNeighbors: int, laterNeighbors: int)
    requires numNeighbors > 0
    ensures var names := UpdateNames(InitialNames, numNeighbors);
      UpdateNames(names, laterNeighbors) == names
      && names == InitialNames[1..] + SlotNames(numNeighbors)
  {
    UpdateNamesSpec(InitialNames, numNeighbors);
    var names := UpdateNames(InitialNames, numNeighbors);
    assert RemoveFirst(InitialNames, Template) == InitialNames[1..];
    forall k | 0 <= k < numNeighbors ensures SlotNames(numNeighbors)[k] != Template {
      SlotNameDistinct(k);
    }
    assert Template !in InitialNames[1..];
    assert Template !in names;
    UpdateNamesSpec(names, laterNeighbors);
  }

  /** A channel's feature columns, one value per object label. */
  type Columns = map<string, seq<real>>

  /** Lines 141-145 from iteration `n` on: every distance slot gets the default distance. */
  function DefaultDistanceSlots(cols: Columns, n: nat, count: nat, num: nat, plain: bool, corrected: bool): (r: Columns)
    decreases count - n
  {
    if n >= count then cols
    else
      var name := SlotName(n);
      var c1 := if plain then cols[name := Fill(num, DefaultSquaredDistance)] else cols;
      var c2 := if corrected then c1[name + CorrSuffix := Fill(num, DefaultSquaredDistance)] else c1;
      DefaultDistanceSlots(c2, n + 1, count, num, plain, corrected)
  }

  /** Lines 147-151: every listed name gets a column of zeros. */
  function ZeroSlots(cols: Columns, names: seq<string>, num: nat, plain: bool, corrected: bool): Columns
    decreases |names|
  {
    if |names| == 0 then cols
    else
      var c1 := if plain then cols[names[0] := Fill(num, 0.0)] else cols;
      var c2 := if corrected then c1[names[0] + CorrSuffix := Fill(num, 0.0)] else c1;
      ZeroSlots(c2, names[1..], num, plain, corrected)
  }

  /** The division-feature columns a run adds to a channel holding `cols`,
      given the name list after that run's update. */
  function InitialColumns(cols: Columns, names: seq<string>, numNeighbors: int, num: nat,
                          plain: bool, corrected: bool): Columns
  {
    ZeroSlots(DefaultDistanceSlots(cols, 0, RangeCount(numNeighbors), num, plain, corrected),
              names, num, plain, corrected)
  }

  /** Lines 141-145 from iteration `n` on: every later slot holds the default
      distance, under its plain name when `plain` and under its suffixed name
      when `corrected`. */
  lemma {:induction false} DefaultDistanceSlotsSpec(cols: Columns, n: nat, count: nat, num: nat,
                                                    plain: bool, corrected: bool, k: nat)
    requires n <= k < count
    ensures var r := DefaultDistanceSlots(cols, n, count, num, plain, corrected);
      && (plain ==> SlotName(k) in r && r[SlotName(k)] == Fill(num, DefaultSquaredDistance))
      && (corrected ==> SlotName(k) + CorrSuffix in r
                        && r[SlotName(k) + CorrSuffix] == Fill(num, DefaultSquaredDistance))
    decreases count - n
  {
    var name := SlotName(n);
    var c1 := if plain then cols[name := Fill(num, DefaultSquaredDistance)] else cols;
    var c2 := if corrected then c1[name + CorrSuffix := Fill(num, DefaultSquaredDistance)] else c1;
    if k == n {
      assert name != name + CorrSuffix by {
        SlotNameDistinct(n);
      }
      assert plain ==> name in c2 && c2[name] == Fill(num, DefaultSquaredDistance);
      DefaultDistanceSlotsKeep(c2, n + 1, count, num, plain, corrected, k);
    } else {
      DefaultDistanceSlotsSpec(c2, n + 1, count, num, plain, corrected, k);
    }
  }

  /** Later iterations leave slot `k < n` alone, plain and suffixed. */
  lemma {:induction false} DefaultDistanceSlotsKeep(cols: Columns, n: nat, count: nat, num: nat,
                                                    plain: bool, corrected: bool, k: nat)
    requires k < n
    ensures var r := DefaultDistanceSlots(cols, n, count, num, plain, corrected);
      && (SlotName(k) in cols ==> SlotName(k) in r && r[SlotName(k)] == cols[SlotName(k)])
      && (SlotName(k) + CorrSuffix in cols ==>
            SlotName(k) + CorrSuffix in r && r[SlotName(k) + CorrSuffix] == cols[SlotName(k) + CorrSuffix])
    decreases count - n
  {
    if n < count {
      var name := SlotName(n);
      var c1 := if plain then cols[name := Fill(num, DefaultSquaredDistance)] else cols;
      var c2 := if corrected then c1[name + CorrSuffix := Fill(num, DefaultSquaredDistance)] else c1;
      SlotNameDistinct(k);
      SlotNameDistinct(n);
      if SlotName(k) == name {
        SlotNameInjective(k, n);
      }
      SuffixCancel(SlotName(k), name, CorrSuffix);
      DefaultDistanceSlotsKeep(c2, n + 1, count, num, plain, corrected, k);
    }
  }

  /** A column written by the zero loop: a listed name, or a listed name with the suffix. */
  predicate ZeroedBy(names: seq<string>, plain: bool, corrected: bool, key: string)
  {
    (plain && key in names) || (corrected && exists x :: x in names && key == x + CorrSuffix)
  }

  /** After the zero loop every column it writes holds zeros, and every other
      column is as before. */
  lemma {:induction false} ZeroSlotsSpec(cols: Columns, names: seq<string>, num: nat,
                                         plain: bool, corrected: bool, key: string)
    ensures var r := ZeroSlots(cols, names, num, plain, corrected);
      (ZeroedBy(names, plain, corrected, key) ==> key in r && r[key] == Fill(num, 0.0))
      && (!ZeroedBy(names, plain, corrected, key) ==>
            (key in r <==> key in cols) && (key in cols ==> r[key] == cols[key]))
    decreases |names|
  {
    if |names| > 0 {
      var c1 := if plain then cols[names[0] := Fill(num, 0.0)] else cols;
      var c2 := if corrected then c1[names[0] + CorrSuffix := Fill(num, 0.0)] else c1;
      ZeroSlotsSpec(c2, names[1..], num, plain, corrected, key);
      assert forall x :: x in names[1..] ==> x in names;
      assert forall x :: x in names ==> x == names[0] || x in names[1..];
      if ZeroedBy(names, plain, corrected, key) && !ZeroedBy(names[1..], plain, corrected, key) {
        assert key == names[0] || key == names[0] + CorrSuffix;
      }
    }
  }

  /** The order of lines 141-151: a distance slot, plain or suffixed, keeps the
      default distance only when its name is not listed; a listed slot is
      overwritten with 0. (A suffixed slot is also zeroed by the plain loop if
      the list holds its suffixed name verbatim.) */
  lemma DistanceSlotValue(cols: Columns, names: seq<string>, numNeighbors: int, num: nat,
                          plain: bool, corrected: bool, k: nat)
    requires k < RangeCount(numNeighbors)
    ensures var r := InitialColumns(cols, names, numNeighbors, num, plain, corrected);
      var zero, default := Fill(num, 0.0), Fill(num, DefaultSquaredDistance);
      && (plain ==> SlotName(k) in r && r[SlotName(k)] == if SlotName(k) in names then zero else default)
      && (corrected ==>
            && SlotName(k) + CorrSuffix in r
            && r[SlotName(k) + CorrSuffix] ==
                 if SlotName(k) in names || (plain && SlotName(k) + CorrSuffix in names) then zero else default)
  {
    var d := DefaultDistanceSlots(cols, 0, RangeCount(numNeighbors), num, plain, corrected);
    DefaultDistanceSlotsSpec(cols, 0, RangeCount(numNeighbors), num, plain, corrected, k);
    SlotNameDistinct(k);
    ZeroSlotsSpec(d, names, num, plain, corrected, SlotName(k));
    ZeroSlotsSpec(d, names, num, plain, corrected, SlotName(k) + CorrSuffix);
    if corrected {
      forall x | x in names ensures SlotName(k) + CorrSuffix == x + CorrSuffix <==> x == SlotName(k) {
        SuffixCancel(SlotName(k), x, CorrSuffix);
      }
    }
  }

  /** Every distance slot below `numNeighbors` is on the updated list. */
  lemma SlotInUpdatedNames(numNeighbors: int, k: nat)
    requires k < numNeighbors
    ensures SlotName(k) in UpdateNames(InitialNames, numNeighbors)
  {
    SecondRunUnchanged(numNeighbors, numNeighbors);
    var names := UpdateNames(InitialNames, numNeighbors);
    assert names[|InitialNames| - 1 + k] == SlotNames(numNeighbors)[k];
  }

  /** On the first run, and on every later run with the same number of
      neighbours, every distance slot, plain and suffixed, ends up 0, not the
      default 1000. */
  lemma FirstRunZeroesDistances(cols: Columns, numNeighbors: int, num: nat, corrected: bool, k: nat)
    requires 0 <= k < numNeighbors
    ensures var names := UpdateNames(InitialNames, numNeighbors);
      var r := InitialColumns(cols, names, numNeighbors, num, true, corrected);
      && SlotName(k) in names && SlotName(k) in r && r[SlotName(k)] == Fill(num, 0.0)
      && (corrected ==> SlotName(k) + CorrSuffix in r && r[SlotName(k) + CorrSuffix] == Fill(num, 0.0))
  {
    SecondRunUnchanged(numNeighbors, numNeighbors);
    var names := UpdateNames(InitialNames, numNeighbors);
    assert SlotName(k) in names by {
      assert names[|InitialNames| - 1 + k] == SlotNames(numNeighbors)[k];
    }
    DistanceSlotValue(cols, names, numNeighbors, num, true, corrected, k);
  }
}
