/** Finite sums and linear combinations over the reals, shared by the whole project. */
module Sums {

  // Products of reals are named, so that inductions over lists can hide them and leave the
  // nonlinear algebra to small lemmas over plain reals.

  function Times(x: real, y: real): real {
    x * y
  }

  /** x + s*y */
  function Axpy(x: real, s: real, y: real): real {
    x + s * y
  }

  function Pow2(n: nat): (p: int)
    ensures p > 0
  {
    if n == 0 then 1 else 2 * Pow2(n - 1)
  }

  /** f(0) + ... + f(n-1) */
  function Sum(n: nat, f: nat -> real): real {
    if n == 0 then 0.0 else Sum(n - 1, f) + f(n - 1)
  }

  /** c[0]*w(0) + ... + c[|c|-1]*w(|c|-1): a series with coefficients `c` over the basis `w`. */
  function Combine(c: seq<real>, w: nat -> real): real {
    if |c| == 0 then 0.0 else Axpy(Combine(c[..|c| - 1], w), c[|c| - 1], w(|c| - 1))
  }

  lemma MulNonneg(x: real, y: real)
    requires x >= 0.0 && y >= 0.0
    ensures x * y >= 0.0
  {
  }

  lemma MulPositive(x: real, y: real)
    requires x > 0.0 && y > 0.0
    ensures x * y > 0.0
  {
  }

  lemma TimesOne(x: real)
    ensures Times(1.0, x) == x == Times(x, 1.0)
  {
  }

  lemma TimesZero(x: real)
    ensures Times(x, 0.0) == 0.0 == Times(0.0, x)
  {
  }

  lemma TimesCommutes(x: real, y: real)
    ensures Times(x, y) == Times(y, x)
  {
  }

  lemma TimesSum(x: real, y: real, z: real)
    ensures Times(x, y + z) == Times(x, y) + Times(x, z)
  {
  }

  lemma Square(x: real)
    ensures x * x >= 0.0
  {
  }

  function Zeros(n: nat): seq<real> {
    seq(n, i => 0.0)
  }

  // ----- Sum

  lemma {:induction false} SumExt(n: nat, f: nat -> real, g: nat -> real)
    requires forall i: nat :: i < n ==> f(i) == g(i)
    ensures Sum(n, f) == Sum(n, g)
  {
    if n > 0 {
      SumExt(n - 1, f, g);
    }
  }

  lemma {:induction false} SumZero(n: nat, f: nat -> real)
    requires forall i: nat :: i < n ==> f(i) == 0.0
    ensures Sum(n, f) == 0.0
  {
    if n > 0 {
      SumZero(n - 1, f);
    }
  }

  lemma {:induction false} SumPoint(n: nat, f: nat -> real, at: nat)
    requires at < n && forall i: nat :: i < n && i != at ==> f(i) == 0.0
    ensures Sum(n, f) == f(at)
  {
    if at == n - 1 {
      SumZero(n - 1, f);
    } else {
      SumPoint(n - 1, f, at);
    }
  }

  lemma {:induction false} SumAtLeast(n: nat, f: nat -> real, at: nat)
    requires at < n && forall i: nat :: i < n ==> f(i) >= 0.0
    ensures Sum(n, f) >= f(at)
  {
    if at == n - 1 {
      SumNonneg(n - 1, f);
    } else {
      SumAtLeast(n - 1, f, at);
    }
  }

  lemma {:induction false} SumNonneg(n: nat, f: nat -> real)
    requires forall i: nat :: i < n ==> f(i) >= 0.0
    ensures Sum(n, f) >= 0.0
  {
    if n > 0 {
      SumNonneg(n - 1, f);
    }
  }

  lemma {:induction false} SumAdd(n: nat, f: nat -> real, g: nat -> real, h: nat -> real)
    requires forall i: nat :: i < n ==> h(i) == f(i) + g(i)
    ensures Sum(n, h) == Sum(n, f) + Sum(n, g)
  {
    if n > 0 {
      SumAdd(n - 1, f, g, h);
    }
  }

  /** A sum split at `m`. */
  lemma {:induction false} SumSplit(m: nat, n: nat, f: nat -> real, g: nat -> real)
    requires forall i: nat :: i < n ==> g(i) == f(m + i)
    ensures Sum(m + n, f) == Sum(m, f) + Sum(n, g)
  {
    if n > 0 {
      SumSplit(m, n - 1, f, g);
    }
  }

  // ----- Combine

  lemma LastTerm(c: seq<real>, w: nat -> real)
    requires |c| > 0
    ensures Combine(c, w) == Axpy(Combine(c[..|c| - 1], w), c[|c| - 1], w(|c| - 1))
  {
  }

  lemma {:induction false} CombineZeros(n: nat, w: nat -> real)
    ensures Combine(Zeros(n), w) == 0.0
  {
    if n > 0 {
      assert Zeros(n)[..n - 1] == Zeros(n - 1);
      CombineZeros(n - 1, w);
    }
  }

  /** Adding `d` to one coefficient adds `d` times its basis value. */
  lemma {:induction false} CombineBump(c: seq<real>, i: nat, d: real, w: nat -> real)
    requires i < |c|
    ensures Combine(c[i := c[i] + d], w) == Axpy(Combine(c, w), d, w(i))
  {
    hide Axpy;
    var n := |c| - 1;
    var bumped := c[i := c[i] + d];
    if i == n {
      assert bumped[..n] == c[..n];
      AxpyCoefficient(Combine(c[..n], w), c[n], d, w(n));
    } else {
      assert bumped[..n] == c[..n][i := c[..n][i] + d];
      CombineBump(c[..n], i, d, w);
      AxpySwap(Combine(c[..n], w), d, w(i), c[n], w(n));
    }
  }

  lemma AxpyCoefficient(x: real, c: real, d: real, y: real)
    ensures Axpy(x, c + d, y) == Axpy(Axpy(x, c, y), d, y)
  {
  }

  lemma AxpySwap(x: real, c: real, y: real, d: real, z: real)
    ensures Axpy(Axpy(x, c, y), d, z) == Axpy(Axpy(x, d, z), c, y)
  {
  }

  /** p*x + q*y */
  function Mix(p: real, x: real, q: real, y: real): real {
    p * x + q * y
  }

  lemma MixStep(p: real, x: real, a: real, q: real, y: real, b: real, w: real)
    ensures Axpy(Mix(p, x, q, y), Mix(p, a, q, b), w) == Mix(p, Axpy(x, a, w), q, Axpy(y, b, w))
  {
    calc {
      Mix(p, Axpy(x, a, w), q, Axpy(y, b, w));
      p * x + p * (a * w) + (q * y + q * (b * w));
      p * x + q * y + (p * a + q * b) * w;
    }
  }

  lemma {:induction false} CombineLinear(a: seq<real>, p: real, b: seq<real>, q: real, c: seq<real>, w: nat -> real)
    requires |a| == |b| == |c|
    requires forall i :: 0 <= i < |c| ==> c[i] == Mix(p, a[i], q, b[i])
    ensures Combine(c, w) == Mix(p, Combine(a, w), q, Combine(b, w))
  {
    var n := |c| - 1;
    if n >= 0 {
      hide Mix, Axpy;
      CombineLinear(a[..n], p, b[..n], q, c[..n], w);
      MixStep(p, Combine(a[..n], w), a[n], q, Combine(b[..n], w), b[n], w(n));
    }
  }

  /** Combine is monotone in its coefficients over a nonnegative basis. */
  lemma {:induction false} CombineBound(c: seq<real>, w: nat -> real, bound: nat -> real)
    requires forall i: nat :: i < |c| ==> -bound(i) <= w(i) <= bound(i)
    ensures -Combine(Magnitudes(c), bound) <= Combine(c, w) <= Combine(Magnitudes(c), bound)
  {
    var n := |c| - 1;
    if n >= 0 {
      hide Axpy, Abs;
      CombineBound(c[..n], w, bound);
      assert Magnitudes(c)[..n] == Magnitudes(c[..n]);
      AxpyBound(Combine(c[..n], w), Combine(Magnitudes(c[..n]), bound), c[n], w(n), bound(n));
    }
  }

  lemma AxpyBound(x: real, most: real, c: real, w: real, bound: real)
    requires -most <= x <= most && -bound <= w <= bound
    ensures -Axpy(most, Abs(c), bound) <= Axpy(x, c, w) <= Axpy(most, Abs(c), bound)
  {
    MagnitudeProduct(c, w, bound);
  }

  function Abs(x: real): real {
    if x < 0.0 then -x else x
  }

  function Magnitudes(c: seq<real>): seq<real> {
    seq(|c|, i requires 0 <= i < |c| => Abs(c[i]))
  }

  lemma MagnitudeProduct(c: real, w: real, bound: real)
    requires -bound <= w <= bound
    ensures -(Abs(c) * bound) <= c * w <= Abs(c) * bound
  {
    if c >= 0.0 {
      MulNonneg(c, bound - w);
      MulNonneg(c, bound + w);
      Distribute(c, bound, w);
    } else {
      MulNonneg(-c, bound - w);
      MulNonneg(-c, bound + w);
      Distribute(-c, bound, w);
      assert (-c) * w == -(c * w);
    }
  }

  lemma Distribute(c: real, x: real, y: real)
    ensures c * (x + y) == c * x + c * y
    ensures c * (x - y) == c * x - c * y
  {
  }
}
