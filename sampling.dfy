/** linspace, the binomial coefficient and the Bernstein basis. */
module Sampling {
  import opened Numeric

  /** The i-th value linspace(start, end, num) produces: start for a single
      sample, otherwise start plus i steps of (end - start) / (num - 1). */
  function LinspaceAt(start: real, end: real, num: int, i: int): real
  {
    if num == 1 then start else start + (end - start) / (num - 1) as real * i as real
  }

  /** linspace: num evenly spaced values from start to end, both included. */
  method Linspace(start: real, end: real, num: int) returns (r: seq<real>)
    ensures num <= 0 ==> r == []
    ensures num == 1 ==> r == [start]
    ensures num >= 2 ==> |r| == num && r[0] == start && r[num - 1] == end
    ensures num >= 2 ==> forall i :: 0 <= i < num - 1 ==> r[i + 1] - r[i] == (end - start) / (num - 1) as real
    ensures forall i :: 0 <= i < |r| ==> r[i] == LinspaceAt(start, end, num, i)
  {
    r := [];
    if num == 0 { return; }
    if num == 1 {
      r := r + [start];
      return;
    }
    var delta := (end - start) / (num - 1) as real;
    var i := 0;
    while i < num
      invariant 0 <= i <= if num < 0 then 0 else num
      invariant |r| == i
      invariant forall j :: 0 <= j < i ==> r[j] == start + delta * j as real
    {
      r := r + [start + delta * i as real];
      i := i + 1;
    }
    if num >= 2 {
      assert delta * (num - 1) as real == end - start;
    }
  }

  /** C(n, k) by Pascal's rule: the number of k-element subsets of an n-element set. */
  function Choose(n: int, k: int): nat
    decreases n
  {
    if k < 0 || k > n then 0
    else if k == 0 || k == n then 1
    else Choose(n - 1, k - 1) + Choose(n - 1, k)
  }

  /** Pascal's rule holds at the boundary cases too. */
  lemma Pascal(n: int, k: int)
    requires n >= 1
    ensures Choose(n, k) == Choose(n - 1, k - 1) + Choose(n - 1, k)
  {
  }

  /** C(n, k) == C(n, n - k). */
  lemma {:induction false} ChooseSymmetric(n: int, k: int)
    ensures Choose(n, k) == Choose(n, n - k)
    decreases n
  {
    if 0 < k < n {
      ChooseSymmetric(n - 1, k - 1);
      ChooseSymmetric(n - 1, k);
    }
  }

  /** The absorption identity k * C(n, k) == n * C(n - 1, k - 1). */
  lemma {:induction false} ChooseAbsorb(n: int, k: int)
    ensures k * Choose(n, k) == n * Choose(n - 1, k - 1)
    decreases n
  {
    if k < 1 || k > n {
      assert Choose(n - 1, k - 1) == 0;
      assert k < 0 || k > n || k == 0;
    } else if k == n {
      assert Choose(n, k) == 1 && Choose(n - 1, k - 1) == 1;
    } else {
      Pascal(n, k);
      Pascal(n - 1, k - 1);
      ChooseAbsorb(n - 1, k - 1);
      ChooseAbsorb(n - 1, k);
      AbsorbStep(n, k, Choose(n - 1, k - 1), Choose(n - 1, k), Choose(n - 2, k - 2), Choose(n - 2, k - 1));
    }
  }

  /** The arithmetic of the inductive step of ChooseAbsorb. */
  lemma AbsorbStep(n: int, k: int, a: int, b: int, c: int, d: int)
    requires (k - 1) * a == (n - 1) * c
    requires k * b == (n - 1) * d
    requires a == c + d
    ensures k * (a + b) == n * a
  {
    calc {
      k * (a + b);
      k * a + k * b;
      (k - 1) * a + a + k * b;
      (n - 1) * c + a + (n - 1) * d;
      (n - 1) * (c + d) + a;
      (n - 1) * a + a;
      n * a;
    }
  }

  /** One step of binom's loop is exact: C(n, i - 1) * (n - i + 1) == C(n, i) * i. */
  lemma BinomStep(n: int, i: int)
    requires 1 <= i <= n
    ensures Choose(n, i - 1) * (n - i + 1) == Choose(n, i) * i
  {
    ChooseAbsorb(n, i);
    ChooseSymmetric(n, i - 1);
    ChooseAbsorb(n, n - i + 1);
    ChooseSymmetric(n - 1, n - i);
  }

  lemma ExactQuotient(a: int, i: int)
    requires i > 0
    ensures (a * i) / i == a
  {
    var q, r := (a * i) / i, (a * i) % i;
    assert a * i == q * i + r && 0 <= r < i;
    assert (a - q) * i == r;
    if a - q >= 1 {
      assert false;
    } else if a - q <= -1 {
      assert false;
    }
  }

  /** binom: the binomial coefficient by the multiplicative formula, after
      replacing k by n - k when k > n / 2.  The source's 64-bit overflow is not
      modelled. */
  method Binom(n: int, k: int) returns (r: int)
    ensures k < 0 || k > n ==> r == 0
    ensures 0 <= k <= n && (k == 0 || k == n) ==> r == 1
    ensures r == Choose(n, k)
  {
    if k < 0 || k > n {
      return 0;
    }
    if k == 0 || k == n {
      return 1;
    }
    var kk := k;
    if kk > n / 2 {
      ChooseSymmetric(n, k);
      kk := n - kk;
    }
    var res := 1;
    var i := 1;
    while i <= kk
      invariant 1 <= i <= kk + 1
      invariant res == Choose(n, i - 1)
    {
      BinomStep(n, i);
      ExactQuotient(Choose(n, i), i);
      res := res * (n - i + 1) / i;
      i := i + 1;
    }
    return res;
  }

  /** bernstein(n, k, t) == C(n, k) * t^k * (1 - t)^(n - k).  Outside 0 <= k <= n
      the coefficient is 0 and the model returns 0. */
  function Bernstein(n: int, k: int, t: real): (b: real)
    ensures k < 0 || k > n ==> b == 0.0
    ensures 0 <= k <= n && t == 0.0 ==> b == if k == 0 then 1.0 else 0.0
    ensures 0 <= k <= n && t == 1.0 ==> b == if k == n then 1.0 else 0.0
  {
    if k < 0 || k > n then 0.0
    else Choose(n, k) as real * Pow(t, k) * Pow(1.0 - t, n - k)
  }
}
