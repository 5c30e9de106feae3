/** The 2D point type of the shape generator and the centroid of a point set. */
module Geometry {
  import opened Numeric

  /** A point or vector with real coordinates (the source's `Point`). */
  datatype Point = Point(x: real, y: real)
  {
    function Add(o: Point): Point { Point(x + o.x, y + o.y) }

    function Sub(o: Point): Point { Point(x - o.x, y - o.y) }

    function Scale(s: real): Point { Point(x * s, y * s) }

    function Dot(o: Point): real { x * o.x + y * o.y }

    function MagSq(): (r: real)
      ensures r >= 0.0
      ensures r == Dot(this)
    {
      x * x + y * y
    }

    /** The Euclidean length, through the supplied square root. */
    function Mag(m: Math): real
    {
      m.sqrt(MagSq())
    }
  }

  /** With a proper square root, the length is non-negative and squares to MagSq. */
  lemma MagFacts(m: Math, p: Point)
    requires m.Valid()
    ensures p.Mag(m) >= 0.0 && p.Mag(m) * p.Mag(m) == p.MagSq()
  {
    assert p.MagSq() >= 0.0;
  }

  const Origin: Point := Point(0.0, 0.0)

  /** A polygon vertex annotated with the tangent direction the curve takes through it. */
  datatype PointWithAngle = PointWithAngle(p: Point, angle: real)

  /** The coordinate-wise sum of s, accumulated from the front as the source's loops do. */
  function Sum(s: seq<Point>): Point
  {
    if s == [] then Origin
    else var acc := Sum(s[..|s| - 1]); Point(acc.x + s[|s| - 1].x, acc.y + s[|s| - 1].y)
  }

  /** The arithmetic mean of a non-empty point set. */
  function Centroid(s: seq<Point>): Point
    requires |s| > 0
  {
    Point(Sum(s).x / |s| as real, Sum(s).y / |s| as real)
  }

  /** Every point of s with c subtracted. */
  function Recentred(s: seq<Point>, c: Point): (r: seq<Point>)
    ensures |r| == |s|
    ensures forall i :: 0 <= i < |s| ==> r[i] == s[i].Sub(c)
  {
    seq(|s|, i requires 0 <= i < |s| => s[i].Sub(c))
  }

  /** Sum distributes over subtracting the same point from every element. */
  lemma {:induction false} SumRecentred(s: seq<Point>, c: Point)
    ensures Sum(Recentred(s, c)) == Point(Sum(s).x - |s| as real * c.x, Sum(s).y - |s| as real * c.y)
  {
    if s != [] {
      var n := |s|;
      var r := Recentred(s, c);
      assert r[..n - 1] == Recentred(s[..n - 1], c);
      SumRecentred(s[..n - 1], c);
    }
  }

  /** Subtracting the centroid puts the centroid at the origin. */
  lemma CentroidOfRecentredIsOrigin(s: seq<Point>)
    requires |s| > 0
    ensures Centroid(Recentred(s, Centroid(s))) == Origin
  {
    var c := Centroid(s);
    var n := |s| as real;
    SumRecentred(s, c);
    assert n * c.x == Sum(s).x;
    assert n * c.y == Sum(s).y;
  }

  /** Adding the centroid loop's body: the running sum after one more point. */
  lemma SumSnoc(s: seq<Point>, p: Point)
    ensures Sum(s + [p]) == Point(Sum(s).x + p.x, Sum(s).y + p.y)
  {
    assert (s + [p])[..|s|] == s;
  }

  /** The centroid loop of ccw_sort and generateAsteroidModel: add every point,
      then divide each coordinate by the count. */
  method ComputeCentroid(s: seq<Point>) returns (c: Point)
    requires |s| > 0
    ensures c == Centroid(s)
  {
    var acc := Origin;
    var i := 0;
    while i < |s|
      invariant 0 <= i <= |s|
      invariant acc == Sum(s[..i])
    {
      SumSnoc(s[..i], s[i]);
      assert s[..i + 1] == s[..i] + [s[i]];
      acc := Point(acc.x + s[i].x, acc.y + s[i].y);
      i := i + 1;
    }
    assert s[..i] == s;
    c := Point(acc.x / |s| as real, acc.y / |s| as real);
  }
}
