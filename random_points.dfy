/** get_random_points: seed points drawn until their spacing is acceptable or
    the retry budget is spent. */
module RandomPoints {
  import opened Numeric
  import opened Geometry
  import opened Ccw

  /** The recursion level at which a draw is accepted whatever its spacing. */
  const MAX_REC: int := 200

  /** min_dist_val: the caller's threshold, or 0.7 / n when it is negative. */
  function MinDist(n: nat, mindstParam: real): (d: real)
    ensures mindstParam >= 0.0 ==> d == mindstParam
    ensures mindstParam < 0.0 && n > 0 ==> d == 0.7 / n as real && d > 0.0
    ensures n > 0 ==> d >= 0.0
  {
    if mindstParam < 0.0 then (if n == 0 then 0.7 else 0.7 / n as real) else mindstParam
  }

  /** The threshold handed to the recursive call is the one already in force. */
  lemma ThresholdStable(n: nat, mindstParam: real)
    requires n > 0
    ensures MinDist(n, MinDist(n, mindstParam)) == MinDist(n, mindstParam)
  {
  }

  /** The n points of one attempt: point i takes draws 2i and 2i + 1 after
      start.  Which of the two becomes x is a choice of the model: the two
      random_double() calls are arguments of one constructor call, whose
      evaluation order C++ leaves unspecified. */
  function Draws(draw: nat -> real, start: nat, n: nat): (pts: seq<Point>)
    ensures |pts| == n
    ensures forall i :: 0 <= i < n ==> pts[i] == Point(draw(start + 2 * i), draw(start + 2 * i + 1))
  {
    seq(n, i requires 0 <= i < n => Point(draw(start + 2 * i), draw(start + 2 * i + 1)))
  }

  function Scaled(pts: seq<Point>, scale: real): (r: seq<Point>)
    ensures |r| == |pts| && forall i :: 0 <= i < |pts| ==> r[i] == pts[i].Scale(scale)
  {
    seq(|pts|, i requires 0 <= i < |pts| => pts[i].Scale(scale))
  }

  /** The spacing proxy between sorted neighbours i and i + 1, and between the
      last and the first: |dx + dy|, which is not a distance. */
  function Spacing(s: seq<Point>, i: int): real
    requires 0 <= i < |s|
  {
    var diff := if i < |s| - 1 then s[i + 1].Sub(s[i]) else s[0].Sub(s[|s| - 1]);
    Abs(diff.x + diff.y)
  }

  /** Every cyclic neighbour pair of s is at least d apart by the proxy. */
  ghost predicate WellSpaced(s: seq<Point>, d: real)
  {
    forall i :: 0 <= i < |s| ==> Spacing(s, i) >= d
  }

  /** Fills current_points with the next n pairs of draws. */
  method DrawPoints(draw: nat -> real, cursor: nat, n: nat) returns (a: array<Point>, next: nat)
    ensures fresh(a) && a[..] == Draws(draw, cursor, n) && next == cursor + 2 * n
  {
    a := new Point[n](_ => Origin);
    var i := 0;
    while i < n
      invariant 0 <= i <= n
      invariant forall k :: 0 <= k < i ==> a[k] == Point(draw(cursor + 2 * k), draw(cursor + 2 * k + 1))
    {
      a[i] := Point(draw(cursor + 2 * i), draw(cursor + 2 * i + 1));
      i := i + 1;
    }
    next := cursor + 2 * n;
  }

  /** pt = pt * scale for every point, in place. */
  method ScaleInPlace(a: array<Point>, scale: real)
    modifies a
    ensures a[..] == Scaled(old(a[..]), scale)
  {
    var i := 0;
    while i < a.Length
      invariant 0 <= i <= a.Length
      invariant forall k :: 0 <= k < i ==> a[k] == old(a[k]).Scale(scale)
      invariant forall k :: i <= k < a.Length ==> a[k] == old(a[k])
    {
      a[i] := a[i].Scale(scale);
      i := i + 1;
    }
  }

  /** distances: the proxy between each sorted point and the next, then between
      the last and the first. */
  method Distances(s: seq<Point>) returns (ds: seq<real>)
    requires |s| >= 2
    ensures |ds| == |s| && forall i :: 0 <= i < |s| ==> ds[i] == Spacing(s, i)
  {
    ds := [];
    var i := 0;
    while i < |s| - 1
      invariant 0 <= i <= |s| - 1
      invariant |ds| == i && forall k :: 0 <= k < i ==> ds[k] == Spacing(s, k)
    {
      var diff := s[i + 1].Sub(s[i]);
      ds := ds + [Abs(diff.x + diff.y)];
      i := i + 1;
    }
    var diff := s[0].Sub(s[|s| - 1]);
    ds := ds + [Abs(diff.x + diff.y)];
  }

  /** The scan with early exit: true exactly when no distance is below minDist. */
  method AllAtLeast(ds: seq<real>, minDist: real) returns (ok: bool)
    ensures ok <==> forall i :: 0 <= i < |ds| ==> ds[i] >= minDist
  {
    ok := true;
    var i := 0;
    while i < |ds|
      invariant 0 <= i <= |ds|
      invariant ok <==> forall k :: 0 <= k < i ==> ds[k] >= minDist
      invariant ok
    {
      if ds[i] < minDist {
        ok := false;
        break;
      }
      i := i + 1;
    }
  }

  /** Where the draws of attempt r begin: each attempt takes 2n of them. */
  function AttemptStart(cursor: nat, n: nat, r: nat): (start: nat)
  {
    cursor + 2 * n * r
  }

  /** Attempt r from cursor is attempt r - 1 from the end of the first one. */
  lemma AttemptShift(cursor: nat, n: nat, r: nat)
    requires r > 0
    ensures AttemptStart(cursor, n, r) == AttemptStart(cursor + 2 * n, n, r - 1)
  {
    assert 2 * n * r == 2 * n * (r - 1) + 2 * n;
  }

  /** The attempt drawn from start has a counter-clockwise order that is well
      spaced. */
  ghost predicate Accepted(m: Math, draw: nat -> real, start: nat, n: nat, minDist: real)
  {
    exists sorted :: IsCcwOrder(m, Draws(draw, start, n), sorted) && WellSpaced(sorted, minDist)
  }

  /** The attempt drawn from start has a counter-clockwise order with a gap
      below minDist; since ties make the order ambiguous this is not the
      negation of Accepted. */
  ghost predicate Rejected(m: Math, draw: nat -> real, start: nat, n: nat, minDist: real)
  {
    exists sorted :: IsCcwOrder(m, Draws(draw, start, n), sorted) && !WellSpaced(sorted, minDist)
  }

  /** What a call that retried `retries` times returns: the last attempt's
      draws, unsorted and scaled, with the cursor past every attempt.  No retry
      is made at or beyond level MAX_REC; every attempt that was retried
      failed the spacing test, and an attempt accepted below MAX_REC passed it. */
  ghost predicate Outcome(m: Math, draw: nat -> real, cursor: nat, n: nat, scale: real,
                          minDist: real, rec: int, retries: nat, pts: seq<Point>, next: nat)
  {
    && next == AttemptStart(cursor, n, retries + 1)
    && pts == Scaled(Draws(draw, AttemptStart(cursor, n, retries), n), scale)
    && (rec >= MAX_REC || n <= 1 ==> retries == 0)
    && (rec < MAX_REC ==> rec + retries <= MAX_REC)
    && (forall r :: 0 <= r < retries ==> Rejected(m, draw, AttemptStart(cursor, n, r), n, minDist))
    && (n >= 2 && rec + retries < MAX_REC ==> Accepted(m, draw, AttemptStart(cursor, n, retries), n, minDist))
  }

  /** get_random_points.  Draw n points; for two or more, sort a copy
      counter-clockwise and measure the cyclic spacing; accept when no gap is
      below min_dist_val or rec has reached MAX_REC, otherwise retry one level
      deeper with the same threshold. */
  method GetRandomPoints(m: Math, draw: nat -> real, cursor: nat, n: nat, scale: real,
                         mindstParam: real, rec: int)
    returns (pts: seq<Point>, next: nat)
    ensures n == 0 ==> pts == [] && next == cursor
    ensures |pts| == n
    ensures n > 0 ==> exists retries: nat :: Outcome(m, draw, cursor, n, scale, MinDist(n, mindstParam), rec, retries, pts, next)
    decreases if rec >= MAX_REC then 0 else MAX_REC - rec
  {
    var minDistVal := MinDist(n, mindstParam);
    if n == 0 {
      return [], cursor;
    }
    var current, afterDraws := DrawPoints(draw, cursor, n);
    if n <= 1 {
      ScaleInPlace(current, scale);
      pts, next := current[..], afterDraws;
      AcceptOutcome(m, draw, cursor, n, scale, minDistVal, rec, pts, next);
      return;
    }
    var allOk := SpacingOk(m, current[..], minDistVal);
    if allOk || rec >= MAX_REC {
      ScaleInPlace(current, scale);
      pts, next := current[..], afterDraws;
      AcceptOutcome(m, draw, cursor, n, scale, minDistVal, rec, pts, next);
    } else {
      pts, next := GetRandomPoints(m, draw, afterDraws, n, scale, minDistVal, rec + 1);
      ThresholdStable(n, mindstParam);
      RetryOutcome(m, draw, cursor, afterDraws, n, scale, minDistVal, rec, rec + 1, pts, next);
    }
  }

  /** The spacing test of one attempt: sort a copy counter-clockwise, take the
      cyclic distances and check that none is below minDist. */
  method SpacingOk(m: Math, drawn: seq<Point>, minDist: real) returns (allOk: bool)
    requires |drawn| >= 2
    ensures allOk ==> exists sorted :: IsCcwOrder(m, drawn, sorted) && WellSpaced(sorted, minDist)
    ensures !allOk ==> exists sorted :: IsCcwOrder(m, drawn, sorted) && !WellSpaced(sorted, minDist)
  {
    var sorted := CcwSort(m, drawn);
    var distances := Distances(sorted);
    allOk := AllAtLeast(distances, minDist);
    assert allOk <==> WellSpaced(sorted, minDist);
  }

  /** When no attempt is ambiguous (no tie in the angle sort makes one order
      pass and another fail), the outcome is unique: the call returns the
      first well-spaced attempt, or the one at level MAX_REC. */
  lemma OutcomeIsDetermined(m: Math, draw: nat -> real, cursor: nat, n: nat, scale: real,
                            minDist: real, rec: int, t1: nat, pts1: seq<Point>, next1: nat,
                            t2: nat, pts2: seq<Point>, next2: nat)
    requires forall r: nat :: !(Accepted(m, draw, AttemptStart(cursor, n, r), n, minDist)
                                && Rejected(m, draw, AttemptStart(cursor, n, r), n, minDist))
    requires Outcome(m, draw, cursor, n, scale, minDist, rec, t1, pts1, next1)
    requires Outcome(m, draw, cursor, n, scale, minDist, rec, t2, pts2, next2)
    ensures t1 == t2 && pts1 == pts2 && next1 == next2
  {
  }

  /** An attempt accepted on the spot is an outcome without retries. */
  lemma AcceptOutcome(m: Math, draw: nat -> real, cursor: nat, n: nat, scale: real,
                      minDist: real, rec: int, pts: seq<Point>, next: nat)
    requires pts == Scaled(Draws(draw, cursor, n), scale) && next == cursor + 2 * n
    requires n >= 2 && rec < MAX_REC ==> Accepted(m, draw, cursor, n, minDist)
    ensures Outcome(m, draw, cursor, n, scale, minDist, rec, 0, pts, next)
  {
    assert AttemptStart(cursor, n, 0) == cursor;
  }

  /** A retry from one level deeper is one more attempt at this level. */
  lemma RetryOutcome(m: Math, draw: nat -> real, cursor: nat, after: nat, n: nat, scale: real,
                     minDist: real, rec: int, deeper: int, pts: seq<Point>, next: nat)
    requires n >= 2 && rec < MAX_REC && deeper == rec + 1 && after == cursor + 2 * n
    requires Rejected(m, draw, cursor, n, minDist)
    requires exists t: nat :: Outcome(m, draw, after, n, scale, minDist, deeper, t, pts, next)
    ensures exists t: nat :: Outcome(m, draw, cursor, n, scale, minDist, rec, t, pts, next)
  {
    var t: nat :| Outcome(m, draw, after, n, scale, minDist, deeper, t, pts, next);
    AttemptShift(cursor, n, t + 1);
    AttemptShift(cursor, n, t + 2);
    forall r | 0 <= r < t + 1
      ensures Rejected(m, draw, AttemptStart(cursor, n, r), n, minDist)
    {
      if r == 0 {
        assert AttemptStart(cursor, n, 0) == cursor;
      } else {
        AttemptShift(cursor, n, r);
      }
    }
    assert Outcome(m, draw, cursor, n, scale, minDist, rec, t + 1, pts, next);
  }
}
