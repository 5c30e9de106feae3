/** generateAsteroidModel: a unit-sized outline centred on the origin, from the
    Bezier shape generator or, failing that, a jittered regular polygon. */
module AsteroidModel {
  import opened Numeric
  import opened Geometry
  import opened Ccw
  import opened Segments
  import opened RandomPoints
  import opened BezierShape

  /** The largest value rand() returns (glibc). */
  const RAND_MAX: nat := 2147483647

  /** The magnitude below which an outline is treated as degenerate. */
  const MAG_EPSILON: real := 0.000001

  /** static_cast<double>(rand()) / RAND_MAX. */
  function RandUnit(r: nat): (u: real)
    ensures u >= 0.0
    ensures r <= RAND_MAX ==> u <= 1.0
  {
    r as real / RAND_MAX as real
  }

  /** The number of seed points asked of get_random_points. */
  function BasePointCount(r: nat): (k: nat)
    ensures 5 <= k <= 9
  {
    5 + r % 5
  }

  function RadFactor(r: nat): (f: real)
    ensures f >= 0.2 && (r <= RAND_MAX ==> f <= 0.7)
  {
    0.2 + RandUnit(r) * 0.5
  }

  function EdgyFactor(r: nat): (f: real)
    ensures f >= 0.1 && (r <= RAND_MAX ==> f <= 0.7)
  {
    0.1 + RandUnit(r) * 0.6
  }

  /** The vertex count of the fallback polygon. */
  function FallbackVertexCount(r: nat): (k: nat)
    ensures 8 <= k <= 15
  {
    8 + r % 8
  }

  function FallbackRadius(r: nat): (f: real)
    ensures f >= 0.7 && (r <= RAND_MAX ==> f <= 1.3)
  {
    0.7 + RandUnit(r) * 0.6
  }

  /** Vertex i of a verts-gon: i / verts of a full turn, at radius FallbackRadius(r),
      with x from the sine and y from the cosine. */
  function FallbackVertex(m: Math, verts: nat, i: nat, r: nat): (p: Point)
    requires verts > 0
  {
    var a := i as real / verts as real * TWO_PI;
    var rf := FallbackRadius(r);
    Point(rf * m.sin(a), rf * m.cos(a))
  }

  /** The fallback polygon drawn with rand() values from cursor c on: the count
      first, then one radius per vertex. */
  function FallbackPolygon(m: Math, crand: nat -> nat, c: nat): (poly: seq<Point>)
    ensures 8 <= |poly| <= 15
  {
    var verts := FallbackVertexCount(crand(c));
    seq(verts, i requires 0 <= i < verts => FallbackVertex(m, verts, i, crand(c + 1 + i)))
  }

  /** Every fallback vertex lies at its own radius from the origin. */
  lemma FallbackVertexOnCircle(m: Math, verts: nat, i: nat, r: nat)
    requires m.Valid() && verts > 0
    ensures var rf := FallbackRadius(r); FallbackVertex(m, verts, i, r).MagSq() == rf * rf
  {
    var a := i as real / verts as real * TWO_PI;
    assert m.cos(a) * m.cos(a) + m.sin(a) * m.sin(a) == 1.0;
    ScaledUnit(FallbackRadius(r), m.sin(a), m.cos(a));
  }

  /** The running maximum of the magnitudes, starting from 0 as max_mag does. */
  function MaxMag(m: Math, s: seq<Point>): (r: real)
    ensures r >= 0.0
    decreases |s|
  {
    if s == [] then 0.0
    else
      var prev := MaxMag(m, s[..|s| - 1]);
      var g := s[|s| - 1].Mag(m);
      if g > prev then g else prev
  }

  /** MaxMag bounds every magnitude and is one of them unless it is the initial 0. */
  lemma {:induction false} MaxMagIsMax(m: Math, s: seq<Point>)
    ensures forall i :: 0 <= i < |s| ==> s[i].Mag(m) <= MaxMag(m, s)
    ensures MaxMag(m, s) == 0.0 || exists i :: 0 <= i < |s| && MaxMag(m, s) == s[i].Mag(m)
    decreases |s|
  {
    if s != [] {
      var n := |s|;
      MaxMagIsMax(m, s[..n - 1]);
      assert forall i :: 0 <= i < n - 1 ==> s[..n - 1][i] == s[i];
      if MaxMag(m, s) != 0.0 && MaxMag(m, s) != s[n - 1].Mag(m) {
        var i :| 0 <= i < n - 1 && MaxMag(m, s[..n - 1]) == s[..n - 1][i].Mag(m);
        assert MaxMag(m, s) == s[i].Mag(m);
      }
    }
  }

  /** Every point divided coordinate-wise by k. */
  function Normalized(s: seq<Point>, k: real): (r: seq<Point>)
    requires k > 0.0
    ensures |r| == |s| && forall i :: 0 <= i < |s| ==> r[i] == Point(s[i].x / k, s[i].y / k)
  {
    seq(|s|, i requires 0 <= i < |s| => Point(s[i].x / k, s[i].y / k))
  }

  /** The outline centred on its centroid, and the largest magnitude after centring. */
  function Centred(s: seq<Point>): (r: seq<Point>)
    requires |s| > 0
    ensures |r| == |s|
  {
    Recentred(s, Centroid(s))
  }

  /** The fallback model: the polygon normalised when it is not degenerate,
      and left as drawn otherwise. */
  function FallbackModel(m: Math, poly: seq<Point>): (model: seq<Point>)
    requires |poly| > 0
    ensures |model| == |poly|
  {
    var k := MaxMag(m, Centred(poly));
    if k > MAG_EPSILON then Normalized(Centred(poly), k) else poly
  }

  /** A point no longer than k lands in the unit disc once divided by k. */
  lemma WithinUnitDisc(m: Math, p: Point, k: real)
    requires m.Valid() && k > 0.0 && p.Mag(m) <= k
    ensures Point(p.x / k, p.y / k).MagSq() <= 1.0
  {
    MagFacts(m, p);
    var g := p.Mag(m);
    var q := Point(p.x / k, p.y / k);
    assert p.x == q.x * k && p.y == q.y * k;
    SquareOfProduct(q.x, k);
    SquareOfProduct(q.y, k);
    assert g * g <= g * k;
    assert g * k <= k * k;
    calc {
      q.MagSq() * (k * k);
      p.MagSq();
      g * g;
    <=
      k * k;
    }
    RatioAtMostOne(q.MagSq(), k);
  }

  lemma RatioAtMostOne(r: real, k: real)
    requires k > 0.0 && r * (k * k) <= k * k
    ensures r <= 1.0
  {
    assert 0.0 < k * k;
  }

  /** Dividing by the largest magnitude puts every point in the unit disc. */
  lemma NormalizedInUnitDisc(m: Math, s: seq<Point>)
    requires m.Valid() && MaxMag(m, s) > 0.0
    ensures forall i :: 0 <= i < |s| ==> Normalized(s, MaxMag(m, s))[i].MagSq() <= 1.0
  {
    MaxMagIsMax(m, s);
    forall i | 0 <= i < |s|
      ensures Normalized(s, MaxMag(m, s))[i].MagSq() <= 1.0
    {
      WithinUnitDisc(m, s[i], MaxMag(m, s));
    }
  }

  /** Dividing every point by k divides their sum by k. */
  lemma {:induction false} SumNormalized(s: seq<Point>, k: real)
    requires k > 0.0
    ensures Sum(Normalized(s, k)) == Point(Sum(s).x / k, Sum(s).y / k)
    decreases |s|
  {
    if s != [] {
      var n := |s|;
      assert Normalized(s, k)[..n - 1] == Normalized(s[..n - 1], k);
      SumNormalized(s[..n - 1], k);
    }
  }

  /** A centred outline stays centred on the origin after normalisation. */
  lemma NormalizedStaysCentred(s: seq<Point>, k: real)
    requires |s| > 0 && k > 0.0
    ensures Centroid(Normalized(Centred(s), k)) == Origin
  {
    var c := Centred(s);
    CentroidOfRecentredIsOrigin(s);
    var n := |s| as real;
    assert Sum(c).x / n == 0.0 && Sum(c).y / n == 0.0;
    assert Sum(c).x == 0.0 && Sum(c).y == 0.0 by {
      ZeroProduct(Sum(c).x / n, n);
      assert Sum(c).x == (Sum(c).x / n) * n;
      assert Sum(c).y == (Sum(c).y / n) * n;
    }
    SumNormalized(c, k);
  }

  /** The coordinate vectors x_coords and y_coords paired back into points. */
  function Pairs(xs: seq<real>, ys: seq<real>): (ps: seq<Point>)
    requires |xs| == |ys|
    ensures |ps| == |xs| && forall i :: 0 <= i < |xs| ==> ps[i] == Point(xs[i], ys[i])
  {
    seq(|xs|, i requires 0 <= i < |xs| => Point(xs[i], ys[i]))
  }

  /** Splitting a curve into coordinates and pairing them again gives the curve. */
  lemma PairsOfCoordinates(c: seq<Point>)
    ensures Pairs(Xs(c), Ys(c)) == c
  {
    assert forall i :: 0 <= i < |c| ==> Pairs(Xs(c), Ys(c))[i] == Point(c[i].x, c[i].y);
  }

  /** curve is what get_bezier_curve flattens for these seeds: one segment per
      edge of an augmented counter-clockwise order. */
  ghost predicate IsShapeCurve(m: Math, seeds: seq<Point>, rad: real, edgy: real, curve: seq<Point>)
    requires |seeds| > 0
  {
    exists aug: seq<PointWithAngle> ::
      && |aug| == |seeds| + 1
      && IsCcwOrder(m, seeds, Points(aug[..|seeds|]))
      && IsAugmented(m, Weight(m, edgy), Points(aug[..|seeds|]), aug)
      && curve == Flatten(SegmentsOf(m, aug, SAMPLES_PER_SEGMENT, rad))
  }

  /** The success branch's first loop: pair the coordinates and accumulate the
      centroid. */
  method CollectPoints(xs: seq<real>, ys: seq<real>) returns (pts: seq<Point>, centroid: Point)
    requires |xs| == |ys| > 0
    ensures pts == Pairs(xs, ys) && centroid == Centroid(pts)
  {
    pts := [];
    var acc := Origin;
    var i := 0;
    while i < |xs|
      invariant 0 <= i <= |xs|
      invariant pts == Pairs(xs[..i], ys[..i])
      invariant acc == Sum(pts)
    {
      var p := Point(xs[i], ys[i]);
      SumSnoc(pts, p);
      pts := pts + [p];
      acc := Point(acc.x + p.x, acc.y + p.y);
      i := i + 1;
    }
    assert xs[..i] == xs && ys[..i] == ys;
    centroid := Point(acc.x / |pts| as real, acc.y / |pts| as real);
  }

  /** Subtracts c from every point in place while tracking the largest magnitude. */
  method RecentreInPlace(m: Math, a: array<Point>, c: Point) returns (maxMag: real)
    modifies a
    ensures a[..] == Recentred(old(a[..]), c)
    ensures maxMag == MaxMag(m, a[..])
  {
    maxMag := 0.0;
    var i := 0;
    while i < a.Length
      invariant 0 <= i <= a.Length
      invariant forall k :: 0 <= k < i ==> a[k] == old(a[k]).Sub(c)
      invariant forall k :: i <= k < a.Length ==> a[k] == old(a[k])
      invariant maxMag == MaxMag(m, a[..i])
    {
      a[i] := a[i].Sub(c);
      var mag := a[i].Mag(m);
      assert a[..i + 1][..i] == a[..i];
      if mag > maxMag {
        maxMag := mag;
      }
      i := i + 1;
    }
    assert a[..i] == a[..];
  }

  /** The fallback's copy loop: recentred points into a new vector, and the
      largest magnitude among them. */
  method RecentredCopy(m: Math, s: seq<Point>, c: Point) returns (t: seq<Point>, maxMag: real)
    ensures t == Recentred(s, c) && maxMag == MaxMag(m, t)
  {
    t := [];
    maxMag := 0.0;
    var i := 0;
    while i < |s|
      invariant 0 <= i <= |s|
      invariant t == Recentred(s[..i], c)
      invariant maxMag == MaxMag(m, t)
    {
      var p := s[i].Sub(c);
      assert (t + [p])[..|t|] == t;
      t := t + [p];
      var mag := p.Mag(m);
      if mag > maxMag {
        maxMag := mag;
      }
      i := i + 1;
    }
    assert s[..i] == s;
  }

  /** The push_back loop that divides every point by k. */
  method NormalizeBy(s: seq<Point>, k: real) returns (model: seq<Point>)
    requires k > 0.0
    ensures model == Normalized(s, k)
  {
    model := [];
    var i := 0;
    while i < |s|
      invariant 0 <= i <= |s|
      invariant model == Normalized(s[..i], k)
    {
      model := model + [Point(s[i].x / k, s[i].y / k)];
      i := i + 1;
    }
    assert s[..i] == s;
  }

  /** The fallback polygon's vertex loop, one rand() per vertex after the count. */
  method DrawFallbackPolygon(m: Math, crand: nat -> nat, c: nat) returns (poly: seq<Point>, next: nat)
    ensures poly == FallbackPolygon(m, crand, c) && next == c + 1 + |poly|
  {
    var verts := FallbackVertexCount(crand(c));
    poly := [];
    var i := 0;
    while i < verts
      invariant 0 <= i <= verts
      invariant |poly| == i
      invariant forall k :: 0 <= k < i ==> poly[k] == FallbackVertex(m, verts, k, crand(c + 1 + k))
    {
      poly := poly + [FallbackVertex(m, verts, i, crand(c + 1 + i))];
      i := i + 1;
    }
    next := c + 1 + verts;
  }

  /** The success branch: pair the coordinates, centre them, and divide by the
      largest magnitude; nothing comes back for fewer than 3 points or a
      degenerate outline. */
  method NormalizeOutline(m: Math, xs: seq<real>, ys: seq<real>) returns (model: seq<Point>)
    requires |xs| == |ys|
    ensures |xs| >= 3 && MaxMag(m, Centred(Pairs(xs, ys))) > MAG_EPSILON ==>
      model == Normalized(Centred(Pairs(xs, ys)), MaxMag(m, Centred(Pairs(xs, ys))))
    ensures !(|xs| >= 3 && MaxMag(m, Centred(Pairs(xs, ys))) > MAG_EPSILON) ==> model == []
  {
    model := [];
    if |xs| >= 3 {
      var pts, centroid := CollectPoints(xs, ys);
      var a := new Point[|pts|](i requires 0 <= i < |pts| => pts[i]);
      assert a[..] == pts;
      var maxMag := RecentreInPlace(m, a, centroid);
      if maxMag > MAG_EPSILON {
        model := NormalizeBy(a[..], maxMag);
      }
    }
  }

  /** The fallback branch: draw the polygon, centre a copy, and normalise it
      unless it is degenerate. */
  method Fallback(m: Math, crand: nat -> nat, c: nat) returns (model: seq<Point>, next: nat)
    ensures var poly := FallbackPolygon(m, crand, c);
      model == FallbackModel(m, poly) && next == c + 1 + |poly|
  {
    var poly;
    poly, next := DrawFallbackPolygon(m, crand, c);
    var centroidFallback := ComputeCentroid(poly);
    var temp, maxMagFallback := RecentredCopy(m, poly, centroidFallback);
    if maxMagFallback > MAG_EPSILON {
      model := NormalizeBy(temp, maxMagFallback);
    } else {
      model := poly;
    }
  }

  /** What get_bezier_curve returns, paired into points, is a shape curve of
      its seeds. */
  lemma BezierResultIsShapeCurve(m: Math, seeds: seq<Point>, rad: real, edgy: real, res: BezierCurveResult)
    requires |seeds| > 0
    requires var n := |seeds|;
      var aug := res.augmentedPoints;
      && |aug| == n + 1
      && IsCcwOrder(m, seeds, Points(aug[..n]))
      && IsAugmented(m, Weight(m, edgy), Points(aug[..n]), aug)
      && res.xCoords == Xs(Flatten(SegmentsOf(m, aug, SAMPLES_PER_SEGMENT, rad)))
      && res.yCoords == Ys(Flatten(SegmentsOf(m, aug, SAMPLES_PER_SEGMENT, rad)))
    ensures |res.xCoords| == |res.yCoords|
    ensures IsShapeCurve(m, seeds, rad, edgy, Pairs(res.xCoords, res.yCoords))
  {
    PairsOfCoordinates(Flatten(SegmentsOf(m, res.augmentedPoints, SAMPLES_PER_SEGMENT, rad)));
  }

  /** generateAsteroidModel.  rand() is crand read from rcur on; the seed
      generator's uniform draws are draw read from dcur on.  The result has at
      least 3 points: either the Bezier outline centred and divided by its
      largest magnitude, or the fallback polygon.  The ghost outputs expose the
      Bezier outline and which branch was taken. */
  method GenerateAsteroidModel(m: Math, crand: nat -> nat, rcur: nat, draw: nat -> real, dcur: nat)
    returns (model: seq<Point>, rnext: nat, dnext: nat, ghost curve: seq<Point>, ghost fellBack: bool)
    ensures |model| >= 3
    ensures |curve| == SAMPLES_PER_SEGMENT * BasePointCount(crand(rcur))
    ensures fellBack <==> MaxMag(m, Centred(curve)) <= MAG_EPSILON
    ensures !fellBack ==>
      && model == Normalized(Centred(curve), MaxMag(m, Centred(curve)))
      && rnext == rcur + 3
    ensures fellBack ==>
      var poly := FallbackPolygon(m, crand, rcur + 3);
      && model == FallbackModel(m, poly)
      && rnext == rcur + 4 + |poly|
    ensures exists seeds: seq<Point>, retries: nat ::
      && |seeds| == BasePointCount(crand(rcur))
      && Outcome(m, draw, dcur, |seeds|, 1.0, 0.1, 0, retries, seeds, dnext)
      && IsShapeCurve(m, seeds, RadFactor(crand(rcur + 1)), EdgyFactor(crand(rcur + 2)), curve)
  {
    var numBasePoints := BasePointCount(crand(rcur));
    var radFactor := RadFactor(crand(rcur + 1));
    var edgyFactor := EdgyFactor(crand(rcur + 2));
    rnext := rcur + 3;
    var seeds;
    seeds, dnext := GetRandomPoints(m, draw, dcur, numBasePoints, 1.0, 0.1, 0);
    var bezier := GetBezierCurve(m, seeds, radFactor, edgyFactor);
    BezierResultIsShapeCurve(m, seeds, radFactor, edgyFactor, bezier);
    curve := Pairs(bezier.xCoords, bezier.yCoords);
    model := NormalizeOutline(m, bezier.xCoords, bezier.yCoords);
    fellBack := |model| < 3;
    if |model| < 3 {
      model, rnext := Fallback(m, crand, rnext);
    }
  }

  /** Whichever branch is taken, a model of at least 3 points comes back, and a
      normalised one lies in the unit disc around its centroid at the origin. */
  lemma SuccessModelIsUnitAndCentred(m: Math, curve: seq<Point>)
    requires m.Valid() && |curve| > 0 && MaxMag(m, Centred(curve)) > MAG_EPSILON
    ensures var model := Normalized(Centred(curve), MaxMag(m, Centred(curve)));
      && |model| == |curve|
      && Centroid(model) == Origin
      && forall i :: 0 <= i < |model| ==> model[i].MagSq() <= 1.0
  {
    NormalizedInUnitDisc(m, Centred(curve));
    NormalizedStaysCentred(curve, MaxMag(m, Centred(curve)));
  }

  /** The fallback model has 8 to 15 vertices, and when normalised it lies in
      the unit disc around its centroid at the origin. */
  lemma FallbackModelShape(m: Math, crand: nat -> nat, c: nat)
    requires m.Valid()
    ensures var poly := FallbackPolygon(m, crand, c);
      var model := FallbackModel(m, poly);
      && 8 <= |model| <= 15
      && (MaxMag(m, Centred(poly)) > MAG_EPSILON ==>
            Centroid(model) == Origin && forall i :: 0 <= i < |model| ==> model[i].MagSq() <= 1.0)
  {
    var poly := FallbackPolygon(m, crand, c);
    if MaxMag(m, Centred(poly)) > MAG_EPSILON {
      SuccessModelIsUnitAndCentred(m, poly);
    }
  }
}
