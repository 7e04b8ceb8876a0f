/** `OpCellFeatures.getMaxAngle`: the largest angle, in degrees, between the
    vectors from the parent centre to two candidate children. The angle of
    two vectors (`math.acos` of the normalised dot product, in degrees) is a
    parameter of the model. */
module Angles {
  import opened Numeric

  /** The angle between two vectors, in degrees. */
  type AngleFn = (Vec, Vec) -> real

  /** The source tolerates angles up to a full turn and reflects those above
      a half turn. */
  ghost predicate AnglesInRange(angle: AngleFn)
  {
    forall u: Vec, v: Vec :: 0.0 <= angle(u, v) <= 360.0
  }

  /** `if ang > 180: ang = 360 - ang`. */
  function Reflect(a: real): (r: real)
    requires 0.0 <= a <= 360.0
    ensures 0.0 <= r <= 180.0
    ensures a <= 180.0 ==> r == a
    ensures a > 180.0 ==> r + a == 360.0
  {
    if a > 180.0 then 360.0 - a else a
  }

  /** The angle at the parent `p` between the children `c1` and `c2`, reflected
      into `[0, 180]`. Coordinates beyond the parent's dimension are ignored. */
  function ChildAngle(p: Vec, angle: AngleFn, c1: Vec, c2: Vec): (r: real)
    requires AnglesInRange(angle)
    requires |c1| == |p| && |c2| == |p|
    ensures 0.0 <= r <= 180.0
  {
    Reflect(angle(Sub(c1, p), Sub(c2, p)))
  }

  /** `getMaxAngle(com_cur, coms_next)`, with `coms` the children's centres in
      ascending label order (the source's `sorted(coms_next.keys())`). */
  function MaxAngle(p: Vec, coms: seq<Vec>, angle: AngleFn): (r: real)
    requires AnglesInRange(angle)
    requires forall k :: 0 <= k < |coms| ==> |coms[k]| == |p|
    ensures |coms| < 2 ==> r == 0.0
    ensures 0.0 <= r <= 180.0
    ensures forall i, j :: 0 <= i < j < |coms| ==> ChildAngle(p, angle, coms[i], coms[j]) <= r
    ensures |coms| >= 2 ==>
      exists i, j :: 0 <= i < j < |coms| && r == ChildAngle(p, angle, coms[i], coms[j])
  {
    // `f` is applied to centres of `coms` only, which all have `|p|` coordinates
    var f := (c1: Vec, c2: Vec) => if |c1| == |p| && |c2| == |p| then ChildAngle(p, angle, c1, c2) else 0.0;
    MaxOverPairs(coms, f);
    MaxOrZero(PairValues(coms, f))
  }

  /** With a symmetric angle function the order in which two children are
      listed does not matter. */
  lemma MaxAngleSwapTwo(p: Vec, a: Vec, b: Vec, angle: AngleFn)
    requires AnglesInRange(angle)
    requires |a| == |p| && |b| == |p|
    requires forall u: Vec, v: Vec :: angle(u, v) == angle(v, u)
    ensures MaxAngle(p, [a, b], angle) == MaxAngle(p, [b, a], angle)
    ensures MaxAngle(p, [a, b], angle) == ChildAngle(p, angle, a, b)
  {
    var r1 := MaxAngle(p, [a, b], angle);
    var r2 := MaxAngle(p, [b, a], angle);
    assert r1 == ChildAngle(p, angle, a, b);
    assert r2 == ChildAngle(p, angle, b, a);
    assert angle(Sub(a, p), Sub(b, p)) == angle(Sub(b, p), Sub(a, p));
  }
}
