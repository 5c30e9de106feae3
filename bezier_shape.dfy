/** get_bezier_curve: a smooth closed outline through a set of seed points. */
module BezierShape {
  import opened Numeric
  import opened Geometry
  import opened Ccw
  import opened Segments

  /** Samples per segment used by get_bezier_curve. */
  const SAMPLES_PER_SEGMENT: nat := 100

  /** p_edgy_factor: atan(edgy) / pi + 0.5, strictly between 0 and 1, and
      one half for edgy == 0. */
  function Weight(m: Math, edgy: real): (w: real)
    ensures m.Valid() ==> 0.0 < w < 1.0
    ensures m.Valid() && edgy == 0.0 ==> w == 0.5
  {
    var at := m.atan(edgy);
    assert m.Valid() ==> -PI / 2.0 < at < PI / 2.0;
    at / PI + 0.5
  }

  /** The direction of the edge from a to b, wrapped into [0, 2*pi). */
  function EdgeAngle(m: Math, a: Point, b: Point): real
  {
    NormalizeAnglePositive(m.atan2(b.y - a.y, b.x - a.x))
  }

  /** The tangent blended from the outgoing edge angle ang1 and the incoming
      edge angle ang2: w * ang1 + (1 - w) * ang2, turned by pi when the two
      differ by more than pi, then wrapped into [0, 2*pi). */
  function BlendTangent(w: real, ang1: real, ang2: real): real
  {
    var t := w * ang1 + (1.0 - w) * ang2;
    NormalizeAnglePositive(if Abs(ang2 - ang1) > PI then t + PI else t)
  }

  /** The angle of the edge leaving vertex i of the closed polygon s. */
  function OutEdge(m: Math, s: seq<Point>, i: int): real
    requires 0 <= i < |s|
  {
    EdgeAngle(m, s[i], s[(i + 1) % |s|])
  }

  /** The tangent at vertex i of the closed polygon s: vertex 0 takes the last
      edge as its incoming edge, the others the edge before them. */
  function VertexTangent(m: Math, w: real, s: seq<Point>, i: int): real
    requires 0 <= i < |s|
  {
    BlendTangent(w, OutEdge(m, s, i), OutEdge(m, s, if i == 0 then |s| - 1 else i - 1))
  }

  /** A blended tangent is a wrapped angle, and joining two edges of the same
      direction keeps that direction. */
  lemma BlendTangentFacts(w: real, ang1: real, ang2: real)
    ensures 0.0 <= BlendTangent(w, ang1, ang2) < TWO_PI
    ensures ang1 == ang2 && 0.0 <= ang1 < TWO_PI ==> BlendTangent(w, ang1, ang2) == ang1
  {
    if ang1 == ang2 {
      assert w * ang1 + (1.0 - w) * ang2 == ang1;
    }
  }

  /** Without the pi turn, the blended value lies between the two edge angles
      whenever the weight comes from a proper atan. */
  lemma BlendBetween(m: Math, edgy: real, ang1: real, ang2: real)
    requires m.Valid() && ang1 <= ang2
    ensures var w := Weight(m, edgy);
      ang1 <= w * ang1 + (1.0 - w) * ang2 <= ang2
  {
    BlendRange(Weight(m, edgy), ang1, ang2);
  }

  /** A convex combination of a and b lies between them. */
  lemma BlendRange(w: real, a: real, b: real)
    requires 0.0 < w < 1.0 && a <= b
    ensures a <= w * a + (1.0 - w) * b <= b
  {
    var d := b - a;
    assert w * a + (1.0 - w) * b == a + (1.0 - w) * d;
    assert w * a + (1.0 - w) * b == b - w * d;
    NonNegProduct(1.0 - w, d);
    NonNegProduct(w, d);
  }

  function Points(pw: seq<PointWithAngle>): (ps: seq<Point>)
    ensures |ps| == |pw| && forall i :: 0 <= i < |pw| ==> ps[i] == pw[i].p
  {
    seq(|pw|, i requires 0 <= i < |pw| => pw[i].p)
  }

  function Xs(c: seq<Point>): (xs: seq<real>)
    ensures |xs| == |c| && forall i :: 0 <= i < |c| ==> xs[i] == c[i].x
  {
    seq(|c|, i requires 0 <= i < |c| => c[i].x)
  }

  function Ys(c: seq<Point>): (ys: seq<real>)
    ensures |ys| == |c| && forall i :: 0 <= i < |c| ==> ys[i] == c[i].y
  {
    seq(|c|, i requires 0 <= i < |c| => c[i].y)
  }

  /** The closed polygon of the sorted points: vertex i carries its blended
      tangent, and a copy of vertex 0 with the same angle closes the loop. */
  ghost predicate IsAugmented(m: Math, w: real, sorted: seq<Point>, aug: seq<PointWithAngle>)
    requires |sorted| > 0
  {
    && |aug| == |sorted| + 1
    && (forall i {:trigger aug[i]} :: 0 <= i < |sorted| ==> aug[i] == PointWithAngle(sorted[i], VertexTangent(m, w, sorted, i)))
    && aug[|sorted|] == PointWithAngle(sorted[0], VertexTangent(m, w, sorted, 0))
  }

  /** The result of get_bezier_curve. */
  datatype BezierCurveResult = BezierCurveResult(
    xCoords: seq<real>,
    yCoords: seq<real>,
    augmentedPoints: seq<PointWithAngle>)

  /** The first loop and the push_back after it: every sorted point with angle
      0, then a copy of the first. */
  method CloseLoop(sorted: seq<Point>) returns (aw: array<PointWithAngle>)
    requires |sorted| > 0
    ensures fresh(aw) && aw.Length == |sorted| + 1
    ensures forall k :: 0 <= k < |sorted| ==> aw[k] == PointWithAngle(sorted[k], 0.0)
    ensures aw[|sorted|] == PointWithAngle(sorted[0], 0.0)
  {
    var n := |sorted|;
    var withAngles: seq<PointWithAngle> := [];
    var i := 0;
    while i < n
      invariant 0 <= i <= n
      invariant |withAngles| == i
      invariant forall k :: 0 <= k < i ==> withAngles[k] == PointWithAngle(sorted[k], 0.0)
    {
      withAngles := withAngles + [PointWithAngle(sorted[i], 0.0)];
      i := i + 1;
    }
    withAngles := withAngles + [PointWithAngle(sorted[0], 0.0)];
    aw := new PointWithAngle[n + 1](k requires 0 <= k < n + 1 => withAngles[k]);
  }

  /** segment_angles: the wrapped direction of each edge of the closed loop. */
  method SegmentAngles(m: Math, aw: array<PointWithAngle>, sorted: seq<Point>) returns (angles: seq<real>)
    requires |sorted| > 0 && aw.Length == |sorted| + 1
    requires forall k :: 0 <= k < |sorted| ==> aw[k].p == sorted[k]
    requires aw[|sorted|].p == sorted[0]
    ensures |angles| == |sorted|
    ensures forall k :: 0 <= k < |sorted| ==> angles[k] == OutEdge(m, sorted, k)
  {
    var n := |sorted|;
    angles := [];
    var i := 0;
    while i < n
      invariant 0 <= i <= n
      invariant |angles| == i
      invariant forall k :: 0 <= k < i ==> angles[k] == OutEdge(m, sorted, k)
    {
      var diff := aw[i + 1].p.Sub(aw[i].p);
      assert aw[i + 1].p == sorted[(i + 1) % n];
      angles := angles + [NormalizeAnglePositive(m.atan2(diff.y, diff.x))];
      i := i + 1;
    }
  }

  /** tangent_angles_at_vertices: the blend at every vertex. */
  method TangentAngles(m: Math, w: real, segmentAngles: seq<real>, sorted: seq<Point>) returns (tangents: array<real>)
    requires |sorted| > 0 && |segmentAngles| == |sorted|
    requires forall k :: 0 <= k < |sorted| ==> segmentAngles[k] == OutEdge(m, sorted, k)
    ensures fresh(tangents) && tangents.Length == |sorted|
    ensures forall k :: 0 <= k < |sorted| ==> tangents[k] == VertexTangent(m, w, sorted, k)
  {
    var n := |sorted|;
    tangents := new real[n];
    var i := 0;
    while i < n
      invariant 0 <= i <= n
      invariant forall k :: 0 <= k < i ==> tangents[k] == VertexTangent(m, w, sorted, k)
    {
      var ang1 := segmentAngles[i];
      var ang2 := if i == 0 then segmentAngles[n - 1] else segmentAngles[i - 1];
      var tangent := w * ang1 + (1.0 - w) * ang2;
      if Abs(ang2 - ang1) > PI {
        tangent := tangent + PI;
      }
      BlendStep(w, ang1, ang2, tangent);
      assert ang2 == OutEdge(m, sorted, if i == 0 then n - 1 else i - 1);
      tangents[i] := NormalizeAnglePositive(tangent);
      i := i + 1;
    }
  }

  lemma BlendStep(w: real, ang1: real, ang2: real, tangent: real)
    requires tangent == if Abs(ang2 - ang1) > PI then w * ang1 + (1.0 - w) * ang2 + PI else w * ang1 + (1.0 - w) * ang2
    ensures NormalizeAnglePositive(tangent) == BlendTangent(w, ang1, ang2)
  {
  }

  /** Writes each vertex's tangent into the loop in place, and vertex 0's into
      the closing copy. */
  method WriteAngles(aw: array<PointWithAngle>, tangents: array<real>)
    requires tangents.Length > 0 && aw.Length == tangents.Length + 1
    modifies aw
    ensures forall k :: 0 <= k < tangents.Length ==> aw[k] == old(aw[k]).(angle := tangents[k])
    ensures aw[tangents.Length] == old(aw[tangents.Length]).(angle := tangents[0])
  {
    var i := 0;
    while i < tangents.Length
      invariant 0 <= i <= tangents.Length
      invariant forall k :: 0 <= k < i ==> aw[k] == old(aw[k]).(angle := tangents[k])
      invariant forall k :: i <= k < aw.Length ==> aw[k] == old(aw[k])
    {
      aw[i] := aw[i].(angle := tangents[i]);
      i := i + 1;
    }
    aw[tangents.Length] := aw[tangents.Length].(angle := tangents[0]);
  }

  /** The loop that copies the curve into the two coordinate vectors. */
  method Coordinates(curve: seq<Point>) returns (xs: seq<real>, ys: seq<real>)
    ensures xs == Xs(curve) && ys == Ys(curve)
  {
    xs, ys := [], [];
    var q := 0;
    while q < |curve|
      invariant 0 <= q <= |curve|
      invariant xs == Xs(curve[..q]) && ys == Ys(curve[..q])
    {
      xs := xs + [curve[q].x];
      ys := ys + [curve[q].y];
      q := q + 1;
    }
    assert curve[..q] == curve;
  }

  /** Closes the sorted loop and gives every vertex its blended tangent. */
  method Augment(m: Math, w: real, sorted: seq<Point>) returns (aug: seq<PointWithAngle>)
    requires |sorted| > 0
    ensures IsAugmented(m, w, sorted, aug)
  {
    var n := |sorted|;
    var aw := CloseLoop(sorted);
    var segmentAngles := SegmentAngles(m, aw, sorted);
    var tangents := TangentAngles(m, w, segmentAngles, sorted);
    WriteAngles(aw, tangents);
    aug := aw[..];
  }

  /** get_bezier_curve: sort the points counter-clockwise, close the loop,
      give every vertex a blended tangent, and sample one cubic segment per
      edge at SAMPLES_PER_SEGMENT points each. */
  method GetBezierCurve(m: Math, aPts: seq<Point>, rad: real, edgy: real) returns (res: BezierCurveResult)
    ensures aPts == [] ==> res == BezierCurveResult([], [], [])
    ensures aPts != [] ==>
      var n := |aPts|;
      var aug := res.augmentedPoints;
      && |aug| == n + 1
      && IsCcwOrder(m, aPts, Points(aug[..n]))
      && IsAugmented(m, Weight(m, edgy), Points(aug[..n]), aug)
      && res.xCoords == Xs(Flatten(SegmentsOf(m, aug, SAMPLES_PER_SEGMENT, rad)))
      && res.yCoords == Ys(Flatten(SegmentsOf(m, aug, SAMPLES_PER_SEGMENT, rad)))
      && |res.xCoords| == |res.yCoords| == SAMPLES_PER_SEGMENT * n
      && res.xCoords[0] == res.xCoords[SAMPLES_PER_SEGMENT * n - 1] == aug[0].p.x
      && res.yCoords[0] == res.yCoords[SAMPLES_PER_SEGMENT * n - 1] == aug[0].p.y
  {
    if aPts == [] {
      return BezierCurveResult([], [], []);
    }
    var w := Weight(m, edgy);
    var sorted := CcwSort(m, aPts);
    var n := |sorted|;
    var aug := Augment(m, w, sorted);
    assert Points(aug[..n]) == sorted;
    var segs, curve := GetCurve(m, aug, SAMPLES_PER_SEGMENT, rad);
    var xs, ys := Coordinates(curve);
    res := BezierCurveResult(xs, ys, aug);
    ClosedCurve(m, aug, rad, n);
  }

  /** With n + 1 vertices whose last copies the first, the flattened curve has
      SAMPLES_PER_SEGMENT * n points and starts and ends at vertex 0. */
  lemma ClosedCurve(m: Math, aug: seq<PointWithAngle>, rad: real, n: nat)
    requires n >= 1 && |aug| == n + 1 && aug[n].p == aug[0].p
    ensures var c := Flatten(SegmentsOf(m, aug, SAMPLES_PER_SEGMENT, rad));
      && |c| == SAMPLES_PER_SEGMENT * n
      && c[0] == aug[0].p && c[SAMPLES_PER_SEGMENT * n - 1] == aug[0].p
  {
    CurveThroughVertices(m, aug, SAMPLES_PER_SEGMENT, rad);
    var c := Flatten(SegmentsOf(m, aug, SAMPLES_PER_SEGMENT, rad));
    assert c[0 * SAMPLES_PER_SEGMENT] == aug[0].p;
    assert c[(n - 1) * SAMPLES_PER_SEGMENT + SAMPLES_PER_SEGMENT - 1] == aug[n].p;
  }
}
