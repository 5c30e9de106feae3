/** Evaluation of a Bezier curve of any degree at evenly spaced parameters. */
module BezierCurves {
  import opened Numeric
  import opened Geometry
  import opened Sampling

  /** The first i terms of the Bernstein-weighted sum of the control points at t,
      added coordinate by coordinate in control-point order. */
  function PartialSum(ctrl: seq<Point>, t: real, i: nat): Point
    requires i <= |ctrl|
  {
    if i == 0 then Origin
    else
      var acc := PartialSum(ctrl, t, i - 1);
      var b := Bernstein(|ctrl| - 1, i - 1, t);
      Point(acc.x + b * ctrl[i - 1].x, acc.y + b * ctrl[i - 1].y)
  }

  /** The point of the Bezier curve of degree |ctrl| - 1 at parameter t. */
  function BezierAt(ctrl: seq<Point>, t: real): Point
  {
    PartialSum(ctrl, t, |ctrl|)
  }

  /** The reference curve: num samples at linspace(0, 1, num), none for no control points. */
  function BezierCurve(ctrl: seq<Point>, num: nat): (c: seq<Point>)
    ensures |c| == if ctrl == [] then 0 else num
  {
    if ctrl == [] then []
    else seq(num, j requires 0 <= j < num => BezierAt(ctrl, LinspaceAt(0.0, 1.0, num, j)))
  }

  /** At t == 0 only the first control point has weight. */
  lemma {:induction false} PartialSumAtZero(ctrl: seq<Point>, i: nat)
    requires 1 <= i <= |ctrl|
    ensures PartialSum(ctrl, 0.0, i) == ctrl[0]
  {
    if i > 1 {
      PartialSumAtZero(ctrl, i - 1);
      assert Bernstein(|ctrl| - 1, i - 1, 0.0) == 0.0;
    } else {
      assert Bernstein(|ctrl| - 1, 0, 0.0) == 1.0;
    }
  }

  /** At t == 1 every control point but the last has weight 0. */
  lemma {:induction false} PartialSumAtOne(ctrl: seq<Point>, i: nat)
    requires i < |ctrl|
    ensures PartialSum(ctrl, 1.0, i) == Origin
  {
    if i > 0 {
      PartialSumAtOne(ctrl, i - 1);
      assert Bernstein(|ctrl| - 1, i - 1, 1.0) == 0.0;
    }
  }

  /** The curve interpolates its end control points: the first sample is the first
      control point, and with two or more samples the last is the last one. */
  lemma BezierEndpoints(ctrl: seq<Point>, num: nat)
    requires |ctrl| > 0
    ensures num >= 1 ==> BezierCurve(ctrl, num)[0] == ctrl[0]
    ensures num >= 2 ==> BezierCurve(ctrl, num)[num - 1] == ctrl[|ctrl| - 1]
  {
    if num >= 1 {
      assert LinspaceAt(0.0, 1.0, num, 0) == 0.0;
      PartialSumAtZero(ctrl, |ctrl|);
    }
    if num >= 2 {
      assert LinspaceAt(0.0, 1.0, num, num - 1) == 1.0;
      PartialSumAtOne(ctrl, |ctrl| - 1);
      assert Bernstein(|ctrl| - 1, |ctrl| - 1, 1.0) == 1.0;
    }
  }

  lemma PartialSumStep(ctrl: seq<Point>, t: real, i: nat, acc: Point, b: real)
    requires i < |ctrl|
    requires acc == PartialSum(ctrl, t, i) && b == Bernstein(|ctrl| - 1, i, t)
    ensures PartialSum(ctrl, t, i + 1) == Point(acc.x + b * ctrl[i].x, acc.y + b * ctrl[i].y)
  {
  }

  lemma SamplesAreCurve(ctrl: seq<Point>, num: nat, ts: seq<real>, curve: seq<Point>)
    requires ctrl != [] && |ts| == num && |curve| == num
    requires forall q :: 0 <= q < num ==> ts[q] == LinspaceAt(0.0, 1.0, num, q)
    requires forall q :: 0 <= q < num ==> curve[q] == PartialSum(ctrl, ts[q], |ctrl|)
    ensures curve == BezierCurve(ctrl, num)
  {
  }

  /** bezier: starts from num zero points and, for each control point in turn,
      adds its Bernstein-weighted contribution to every sample. */
  method Bezier(ctrl: seq<Point>, num: nat) returns (curve: seq<Point>)
    ensures curve == BezierCurve(ctrl, num)
    ensures ctrl == [] ==> curve == []
    ensures ctrl != [] ==> |curve| == num
    ensures ctrl != [] && num >= 1 ==> curve[0] == ctrl[0]
    ensures ctrl != [] && num >= 2 ==> curve[num - 1] == ctrl[|ctrl| - 1]
  {
    var n := |ctrl|;
    if n == 0 {
      return [];
    }
    var ts := Linspace(0.0, 1.0, num);
    assert |ts| == num;
    var acc := new Point[num](_ => Origin);
    var i := 0;
    while i < n
      invariant 0 <= i <= n
      invariant forall q :: 0 <= q < num ==> acc[q] == PartialSum(ctrl, ts[q], i)
    {
      var j := 0;
      while j < num
        invariant 0 <= j <= num
        invariant forall q :: 0 <= q < j ==> acc[q] == PartialSum(ctrl, ts[q], i + 1)
        invariant forall q :: j <= q < num ==> acc[q] == PartialSum(ctrl, ts[q], i)
      {
        var bern := Bernstein(n - 1, i, ts[j]);
        PartialSumStep(ctrl, ts[j], i, acc[j], bern);
        acc[j] := Point(acc[j].x + bern * ctrl[i].x, acc[j].y + bern * ctrl[i].y);
        j := j + 1;
      }
      i := i + 1;
    }
    curve := acc[..];
    SamplesAreCurve(ctrl, num, ts, curve);
    BezierEndpoints(ctrl, num);
  }
}
