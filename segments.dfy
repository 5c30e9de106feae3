/** The cubic Bezier segments joining consecutive vertices, and the full curve
    obtained by chaining them. */
module Segments {
  import opened Numeric
  import opened Geometry
  import opened BezierCurves

  /** A cubic segment from p1 to p2 that leaves p1 in direction angle1 and
      arrives at p2 in direction angle2 (the source's `Segment`, whose fields
      are fixed once its constructor has run). */
  datatype Segment = Segment(
    p1: Point, p2: Point,
    angle1: real, angle2: real,
    numpoints: nat,
    rFactor: real,
    rDist: real,
    controlPoints: seq<Point>,
    curvePoints: seq<Point>)

  /** The inner control point leaving p1 at angle1, rDist away. */
  function LeaveHandle(m: Math, p1: Point, angle1: real, rDist: real): Point
  {
    p1.Add(Point(rDist * m.cos(angle1), rDist * m.sin(angle1)))
  }

  /** The inner control point before p2, rDist away against angle2. */
  function ArriveHandle(m: Math, p2: Point, angle2: real, rDist: real): Point
  {
    p2.Add(Point(rDist * m.cos(angle2 + PI), rDist * m.sin(angle2 + PI)))
  }

  /** The segment the constructor builds: rDist is rFactor times the chord
      length, the control polygon is p1, the two handles, p2, and the curve is
      numpoints samples of that cubic. */
  function SegmentOf(m: Math, p1: Point, p2: Point, angle1: real, angle2: real,
                     numpoints: nat, rFactor: real): Segment
  {
    var rDist := RDist(m, p1, p2, rFactor);
    var ctrl := ControlPolygon(m, p1, p2, angle1, angle2, rDist);
    Segment(p1, p2, angle1, angle2, numpoints, rFactor, rDist, ctrl, BezierCurve(ctrl, numpoints))
  }

  /** r_dist: r_factor times the distance from p1 to p2. */
  function RDist(m: Math, p1: Point, p2: Point, rFactor: real): real
  {
    rFactor * p2.Sub(p1).Mag(m)
  }

  /** The four control points: p1, the two handles, p2. */
  function ControlPolygon(m: Math, p1: Point, p2: Point, angle1: real, angle2: real, rDist: real): seq<Point>
  {
    [p1, LeaveHandle(m, p1, angle1, rDist), ArriveHandle(m, p2, angle2, rDist), p2]
  }

  /** calc_intermediate_points: fills in control points 1 and 2 and leaves the
      end points alone. */
  method CalcIntermediatePoints(m: Math, ctrl: array<Point>, p1: Point, p2: Point,
                                angle1: real, angle2: real, rDist: real)
    requires ctrl.Length == 4
    modifies ctrl
    ensures ctrl[..] == old(ctrl[..])[1 := LeaveHandle(m, p1, angle1, rDist)][2 := ArriveHandle(m, p2, angle2, rDist)]
  {
    ghost var before := ctrl[..];
    ctrl[1] := p1.Add(Point(rDist * m.cos(angle1), rDist * m.sin(angle1)));
    ctrl[2] := p2.Add(Point(rDist * m.cos(angle2 + PI), rDist * m.sin(angle2 + PI)));
    assert ctrl[1] == LeaveHandle(m, p1, angle1, rDist);
    assert ctrl[2] == ArriveHandle(m, p2, angle2, rDist);
    assert ctrl[0] == before[0] && ctrl[3] == before[3];
  }

  /** The Segment constructor: a four-slot control array whose ends are the
      segment's end points, the handles filled in, then the curve sampled. */
  method NewSegment(m: Math, p1: Point, p2: Point, angle1: real, angle2: real,
                    numpoints: nat, rFactor: real) returns (s: Segment)
    ensures s == SegmentOf(m, p1, p2, angle1, angle2, numpoints, rFactor)
    ensures |s.controlPoints| == 4 && s.controlPoints[0] == p1 && s.controlPoints[3] == p2
    ensures |s.curvePoints| == numpoints
    ensures numpoints >= 1 ==> s.curvePoints[0] == p1
    ensures numpoints >= 2 ==> s.curvePoints[numpoints - 1] == p2
  {
    var diff := p2.Sub(p1);
    var dDist := diff.Mag(m);
    var rDist := rFactor * dDist;
    assert rDist == RDist(m, p1, p2, rFactor);
    var ctrl := new Point[4](_ => Origin);
    ctrl[0] := p1;
    ctrl[3] := p2;
    ghost var before := ctrl[..];
    CalcIntermediatePoints(m, ctrl, p1, p2, angle1, angle2, rDist);
    var cp := ctrl[..];
    FilledControls(m, before, cp, p1, p2, angle1, angle2, rDist);
    var curve := Bezier(cp, numpoints);
    s := Segment(p1, p2, angle1, angle2, numpoints, rFactor, rDist, cp, curve);
  }

  /** End points in slots 0 and 3 and the two handles written in between make
      the control polygon. */
  lemma FilledControls(m: Math, before: seq<Point>, cp: seq<Point>, p1: Point, p2: Point,
                       angle1: real, angle2: real, rDist: real)
    requires |before| == 4 && before[0] == p1 && before[3] == p2
    requires cp == before[1 := LeaveHandle(m, p1, angle1, rDist)][2 := ArriveHandle(m, p2, angle2, rDist)]
    ensures cp == ControlPolygon(m, p1, p2, angle1, angle2, rDist)
  {
    assert cp[0] == p1 && cp[3] == p2;
  }

  /** sqrt of a perfect square of a non-negative number is that number. */
  lemma SqrtOfSquare(m: Math, d: real)
    requires m.Valid() && d >= 0.0
    ensures m.sqrt(d * d) == d
  {
    var s := m.sqrt(d * d);
    assert s >= 0.0 && s * s == d * d;
    assert (s - d) * (s + d) == s * s - d * d;
    if s != d {
      assert s + d > 0.0;
      ZeroProduct(s - d, s + d);
    }
  }

  lemma ZeroProduct(a: real, b: real)
    requires a * b == 0.0 && b != 0.0
    ensures a == 0.0
  {
    assert a == (a * b) / b;
  }

  /** A handle of length rDist >= 0 in direction a has magnitude rDist. */
  lemma HandleLength(m: Math, rDist: real, a: real)
    requires m.Valid() && rDist >= 0.0
    ensures Point(rDist * m.cos(a), rDist * m.sin(a)).Mag(m) == rDist
  {
    var h := Point(rDist * m.cos(a), rDist * m.sin(a));
    ScaledUnit(rDist, m.cos(a), m.sin(a));
    assert h.MagSq() == rDist * rDist;
    SqrtOfSquare(m, rDist);
  }

  lemma ScaledUnit(d: real, c: real, s: real)
    requires c * c + s * s == 1.0
    ensures (d * c) * (d * c) + (d * s) * (d * s) == d * d
  {
    calc {
      (d * c) * (d * c) + (d * s) * (d * s);
      d * d * (c * c + s * s);
      d * d;
    }
  }

  /** With a non-negative r_factor, rDist is non-negative and its square is
      r_factor^2 times the squared distance from p1 to p2. */
  lemma RDistFacts(m: Math, p1: Point, p2: Point, rFactor: real)
    requires m.Valid() && rFactor >= 0.0
    ensures RDist(m, p1, p2, rFactor) >= 0.0
    ensures RDist(m, p1, p2, rFactor) * RDist(m, p1, p2, rFactor) == rFactor * rFactor * p2.Sub(p1).MagSq()
  {
    var d := p2.Sub(p1).Mag(m);
    MagFacts(m, p2.Sub(p1));
    NonNegProduct(rFactor, d);
    SquareOfProduct(rFactor, d);
  }

  lemma SquareOfProduct(a: real, b: real)
    ensures (a * b) * (a * b) == a * a * (b * b)
  {
  }

  /** For a non-negative rDist both handles sit exactly rDist from their end point. */
  lemma HandleLengths(m: Math, p1: Point, p2: Point, angle1: real, angle2: real, rDist: real)
    requires m.Valid() && rDist >= 0.0
    ensures ControlPolygon(m, p1, p2, angle1, angle2, rDist)[1].Sub(p1).Mag(m) == rDist
    ensures ControlPolygon(m, p1, p2, angle1, angle2, rDist)[2].Sub(p2).Mag(m) == rDist
  {
    var c := ControlPolygon(m, p1, p2, angle1, angle2, rDist);
    assert c[1].Sub(p1) == Point(rDist * m.cos(angle1), rDist * m.sin(angle1));
    HandleLength(m, rDist, angle1);
    var back := angle2 + PI;
    var h := Point(rDist * m.cos(back), rDist * m.sin(back));
    assert c[2] == p2.Add(h);
    assert c[2].Sub(p2) == h;
    HandleLength(m, rDist, back);
    assert h.Mag(m) == rDist;
  }

  lemma NonNegProduct(a: real, b: real)
    requires a >= 0.0 && b >= 0.0
    ensures a * b >= 0.0
  {
  }

  /** The segment from each vertex to the next, carrying both vertices' angles. */
  function SegmentsOf(m: Math, pw: seq<PointWithAngle>, numpoints: nat, r: real): (segs: seq<Segment>)
    ensures |segs| == if |pw| < 2 then 0 else |pw| - 1
  {
    if |pw| < 2 then []
    else
      seq(|pw| - 1, i requires 0 <= i < |pw| - 1 =>
        SegmentOf(m, pw[i].p, pw[i + 1].p, pw[i].angle, pw[i + 1].angle, numpoints, r))
  }

  /** The curve points of all segments, in order. */
  function Flatten(segs: seq<Segment>): seq<Point>
  {
    if segs == [] then [] else Flatten(segs[..|segs| - 1]) + segs[|segs| - 1].curvePoints
  }

  /** Every segment carries exactly num curve points. */
  ghost predicate UniformSamples(segs: seq<Segment>, num: nat)
  {
    forall i :: 0 <= i < |segs| ==> |segs[i].curvePoints| == num
  }

  /** With num points per segment, the flattened curve holds |segs| * num points. */
  lemma {:induction false} FlattenLength(segs: seq<Segment>, num: nat)
    requires UniformSamples(segs, num)
    ensures |Flatten(segs)| == |segs| * num
  {
    if segs != [] {
      var n := |segs|;
      assert UniformSamples(segs[..n - 1], num);
      FlattenLength(segs[..n - 1], num);
      assert |Flatten(segs)| == (n - 1) * num + num;
    }
  }

  /** Point k * num + j of the flattened curve is point j of segment k. */
  lemma {:induction false} FlattenAt(segs: seq<Segment>, num: nat, k: nat, j: nat)
    requires UniformSamples(segs, num) && k < |segs| && j < num
    ensures k * num + j < |Flatten(segs)|
    ensures Flatten(segs)[k * num + j] == segs[k].curvePoints[j]
  {
    var n := |segs|;
    var init := segs[..n - 1];
    assert UniformSamples(init, num);
    FlattenLength(init, num);
    FlattenLength(segs, num);
    IndexBound(k, j, n, num);
    assert Flatten(segs) == Flatten(init) + segs[n - 1].curvePoints;
    if k < n - 1 {
      IndexBound(k, j, n - 1, num);
      FlattenAt(init, num, k, j);
    } else {
      assert k * num + j == (n - 1) * num + j;
    }
  }

  /** k * num + j stays below (n * num) when k < n and j < num. */
  lemma IndexBound(k: nat, j: nat, n: nat, num: nat)
    requires k < n && j < num
    ensures k * num + j < n * num
  {
    assert (k + 1) * num <= n * num;
  }

  /** The segments of SegmentsOf all have numpoints curve points, the first
      sample of segment k is vertex k and (with two or more samples) its last
      sample is vertex k + 1. */
  lemma SegmentsInterpolate(m: Math, pw: seq<PointWithAngle>, numpoints: nat, r: real)
    ensures UniformSamples(SegmentsOf(m, pw, numpoints, r), numpoints)
    ensures forall k :: 0 <= k < |SegmentsOf(m, pw, numpoints, r)| && numpoints >= 1 ==>
      SegmentsOf(m, pw, numpoints, r)[k].curvePoints[0] == pw[k].p
    ensures forall k :: 0 <= k < |SegmentsOf(m, pw, numpoints, r)| && numpoints >= 2 ==>
      SegmentsOf(m, pw, numpoints, r)[k].curvePoints[numpoints - 1] == pw[k + 1].p
  {
    var segs := SegmentsOf(m, pw, numpoints, r);
    forall k | 0 <= k < |segs|
      ensures |segs[k].curvePoints| == numpoints
      ensures numpoints >= 1 ==> segs[k].curvePoints[0] == pw[k].p
      ensures numpoints >= 2 ==> segs[k].curvePoints[numpoints - 1] == pw[k + 1].p
    {
      BezierEndpoints(segs[k].controlPoints, numpoints);
    }
  }

  /** The full curve passes through every vertex: with numpoints >= 2, point
      k * numpoints is vertex k and point k * numpoints + numpoints - 1 is
      vertex k + 1, for every segment k. */
  lemma CurveThroughVertices(m: Math, pw: seq<PointWithAngle>, numpoints: nat, r: real)
    requires |pw| >= 2 && numpoints >= 2
    ensures |Flatten(SegmentsOf(m, pw, numpoints, r))| == (|pw| - 1) * numpoints
    ensures forall k :: 0 <= k < |pw| - 1 ==>
      && k * numpoints + numpoints - 1 < |Flatten(SegmentsOf(m, pw, numpoints, r))|
      && Flatten(SegmentsOf(m, pw, numpoints, r))[k * numpoints] == pw[k].p
      && Flatten(SegmentsOf(m, pw, numpoints, r))[k * numpoints + numpoints - 1] == pw[k + 1].p
  {
    SegmentsInterpolate(m, pw, numpoints, r);
    ChainThroughVertices(SegmentsOf(m, pw, numpoints, r), pw, numpoints);
  }

  /** Chaining segments that each run from vertex k to vertex k + 1 gives a
      curve through every vertex. */
  lemma ChainThroughVertices(segs: seq<Segment>, pw: seq<PointWithAngle>, num: nat)
    requires num >= 2 && |segs| == |pw| - 1 && UniformSamples(segs, num)
    requires forall k :: 0 <= k < |segs| ==> segs[k].curvePoints[0] == pw[k].p
    requires forall k :: 0 <= k < |segs| ==> segs[k].curvePoints[num - 1] == pw[k + 1].p
    ensures |Flatten(segs)| == |segs| * num
    ensures forall k :: 0 <= k < |segs| ==>
      && k * num + num - 1 < |Flatten(segs)|
      && Flatten(segs)[k * num] == pw[k].p
      && Flatten(segs)[k * num + num - 1] == pw[k + 1].p
  {
    FlattenLength(segs, num);
    forall k | 0 <= k < |segs|
      ensures && k * num + num - 1 < |Flatten(segs)|
              && Flatten(segs)[k * num] == pw[k].p
              && Flatten(segs)[k * num + num - 1] == pw[k + 1].p
    {
      FlattenAt(segs, num, k, 0);
      FlattenAt(segs, num, k, num - 1);
    }
  }

  /** get_curve: one segment per consecutive pair of vertices, then all their
      curve points appended in order; nothing for fewer than two vertices. */
  method GetCurve(m: Math, pw: seq<PointWithAngle>, numpoints: nat, r: real)
    returns (segs: seq<Segment>, curve: seq<Point>)
    ensures segs == SegmentsOf(m, pw, numpoints, r)
    ensures curve == Flatten(segs)
    ensures |pw| < 2 ==> segs == [] && curve == []
    ensures |curve| == |segs| * numpoints
  {
    segs := [];
    if |pw| < 2 {
      return segs, [];
    }
    var i := 0;
    while i < |pw| - 1
      invariant 0 <= i <= |pw| - 1
      invariant segs == SegmentsOf(m, pw, numpoints, r)[..i]
    {
      var s := NewSegment(m, pw[i].p, pw[i + 1].p, pw[i].angle, pw[i + 1].angle, numpoints, r);
      segs := segs + [s];
      i := i + 1;
    }
    assert segs == SegmentsOf(m, pw, numpoints, r);
    curve := [];
    var k := 0;
    while k < |segs|
      invariant 0 <= k <= |segs|
      invariant curve == Flatten(segs[..k])
    {
      assert segs[..k + 1][..k] == segs[..k];
      curve := curve + segs[k].curvePoints;
      k := k + 1;
    }
    assert segs[..k] == segs;
    SegmentsInterpolate(m, pw, numpoints, r);
    FlattenLength(segs, numpoints);
  }
}
