/** ccw_sort: ordering points by their angle around the centroid. */
module Ccw {
  import opened Numeric
  import opened Geometry
  import opened Sorting

  /** The polar angle of p seen from c, as atan2(p.y - c.y, p.x - c.x). */
  function Angle(m: Math, c: Point, p: Point): real
  {
    m.atan2(p.y - c.y, p.x - c.x)
  }

  /** Consecutive elements of s never decrease in angle around c. */
  ghost predicate SortedByAngle(m: Math, c: Point, s: seq<Point>)
  {
    forall p, q :: 0 <= p < q < |s| ==> Angle(m, c, s[p]) <= Angle(m, c, s[q])
  }

  /** output is input rearranged into non-decreasing angle around the
      centroid of input; ties may come in any order. */
  ghost predicate IsCcwOrder(m: Math, input: seq<Point>, output: seq<Point>)
  {
    && |output| == |input|
    && multiset(output) == multiset(input)
    && (|input| > 0 ==> SortedByAngle(m, Centroid(input), output))
  }

  /** The ordering ccw_sort hands to the sort: angle a <= angle b. */
  function AngleLe(m: Math, c: Point): (le: (Point, Point) -> bool)
    ensures forall p, q :: le(p, q) <==> Angle(m, c, p) <= Angle(m, c, q)
  {
    (p: Point, q: Point) => Angle(m, c, p) <= Angle(m, c, q)
  }

  /** ccw_sort: the centroid, then an in-place sort by angle around it. */
  method CcwSort(m: Math, pVec: seq<Point>) returns (r: seq<Point>)
    ensures pVec == [] ==> r == []
    ensures IsCcwOrder(m, pVec, r)
  {
    if pVec == [] {
      return [];
    }
    var centroid := ComputeCentroid(pVec);
    var a := new Point[|pVec|](i requires 0 <= i < |pVec| => pVec[i]);
    assert a[..] == pVec;
    var le := AngleLe(m, centroid);
    InsertionSort(a, le);
    r := a[..];
    assert SortedBy(r, le);
  }

  /** The sorted order is unique up to ties: any two ccw orders of the same
      input are permutations of each other and agree on every angle. */
  lemma {:induction false} CcwOrdersAgreeOnAngles(m: Math, input: seq<Point>, r1: seq<Point>, r2: seq<Point>)
    requires |input| > 0 && IsCcwOrder(m, input, r1) && IsCcwOrder(m, input, r2)
    ensures multiset(r1) == multiset(r2)
    ensures forall i :: 0 <= i < |r1| ==> Angle(m, Centroid(input), r1[i]) == Angle(m, Centroid(input), r2[i])
  {
    var c := Centroid(input);
    forall i | 0 <= i < |r1|
      ensures Angle(m, c, r1[i]) == Angle(m, c, r2[i])
    {
      var ks := Keys(m, c, r1);
      var ls := Keys(m, c, r2);
      KeysPerm(m, c, r1, r2);
      var le := (x: real, y: real) => x <= y;
      assert SortedBy(ks, le) && SortedBy(ls, le);
      SortedUnique(ks, ls, le);
      assert ks[i] == ls[i];
    }
  }

  /** The angle of every element around c. */
  function Keys(m: Math, c: Point, s: seq<Point>): (k: seq<real>)
    ensures |k| == |s|
    ensures forall i :: 0 <= i < |s| ==> k[i] == Angle(m, c, s[i])
  {
    seq(|s|, i requires 0 <= i < |s| => Angle(m, c, s[i]))
  }

  /** Mapping a function over two permutations of each other gives two
      permutations of each other. */
  lemma {:induction false} KeysPerm(m: Math, c: Point, s: seq<Point>, t: seq<Point>)
    requires multiset(s) == multiset(t)
    ensures multiset(Keys(m, c, s)) == multiset(Keys(m, c, t))
    decreases |s|
  {
    if s != [] {
      var n := |s|;
      var x := s[n - 1];
      assert x in multiset(s);
      var j :| 0 <= j < |t| && t[j] == x;
      var t' := t[..j] + t[j + 1..];
      MultisetRemoveAt(s, n - 1);
      MultisetRemoveAt(t, j);
      assert s[..n - 1] + s[n..] == s[..n - 1];
      KeysPerm(m, c, s[..n - 1], t');
      KeysRemove(m, c, t, j);
      KeysRemove(m, c, s, n - 1);
      var a := Angle(m, c, x);
      assert Keys(m, c, s)[n - 1] == a;
      assert Keys(m, c, t)[j] == a;
      AddBack(multiset(Keys(m, c, s)), multiset(Keys(m, c, t)), a);
    }
  }

  lemma AddBack<T>(A: multiset<T>, B: multiset<T>, a: T)
    requires a in A && a in B && A - multiset{a} == B - multiset{a}
    ensures A == B
  {
    forall z
      ensures A[z] == B[z]
    {
      assert (A - multiset{a})[z] == (B - multiset{a})[z];
    }
  }

  /** Removing element j removes its key. */
  lemma KeysRemove(m: Math, c: Point, t: seq<Point>, j: int)
    requires 0 <= j < |t|
    ensures multiset(Keys(m, c, t[..j] + t[j + 1..])) == multiset(Keys(m, c, t)) - multiset{Angle(m, c, t[j])}
  {
    var t' := t[..j] + t[j + 1..];
    var k := Keys(m, c, t);
    var k' := Keys(m, c, t');
    assert |k'| == |k| - 1;
    forall i | 0 <= i < |k'|
      ensures k'[i] == (k[..j] + k[j + 1..])[i]
    {
      if i < j {
        assert t'[i] == t[i];
      } else {
        assert t'[i] == t[i + 1];
      }
    }
    assert k' == k[..j] + k[j + 1..];
    MultisetRemoveAt(k, j);
  }
}
