/** Chebyshev polynomials of the first kind, powers, and the series over both bases. */
module Chebyshev {
  import opened Sums

  function T(n: nat, x: real): real {
    if n == 0 then 1.0 else if n == 1 then x else 2.0 * x * T(n - 1, x) - T(n - 2, x)
  }

  function Basis(x: real): nat -> real {
    (n: nat) => T(n, x)
  }

  /** sum of c[k] * T_k(x) */
  function Series(c: seq<real>, x: real): real {
    Combine(c, Basis(x))
  }

  function Pow(t: real, n: nat): real {
    if n == 0 then 1.0 else Times(t, Pow(t, n - 1))
  }

  function Powers(t: real): nat -> real {
    (n: nat) => Pow(t, n)
  }

  /** sum of p[k] * t^k */
  function Poly(p: seq<real>, t: real): real {
    Combine(p, Powers(t))
  }

  lemma {:induction false} PowAdd(t: real, a: nat, b: nat)
    ensures Pow(t, a + b) == Times(Pow(t, a), Pow(t, b))
  {
    hide Times;
    TimesOne(Pow(t, b));
    if a > 0 {
      PowAdd(t, a - 1, b);
      Associate(t, Pow(t, a - 1), Pow(t, b));
    }
  }

  // The algebra of each inductive step is a lemma over plain reals. The inductions themselves
  // only see the two relations below by name, which keeps nonlinear terms out of them.

  /** The three-term recurrence, as a relation between three consecutive values. */
  ghost predicate Step(high: real, x: real, mid: real, low: real) {
    high == 2.0 * x * mid - low
  }

  /** 2*p*q == s + d */
  ghost predicate Splits(p: real, q: real, s: real, d: real) {
    2.0 * p * q == s + d
  }

  lemma Recurrence(n: nat, x: real)
    ensures T(0, x) == 1.0 && T(1, x) == x
    ensures n >= 2 ==> Step(T(n, x), x, T(n - 1, x), T(n - 2, x))
  {
  }

  lemma {:induction false} ProductSplits(a: nat, b: nat, x: real)
    requires b <= a
    ensures Splits(T(a, x), T(b, x), T(a + b, x), T(a - b, x))
  {
    hide T, Step, Splits;
    Recurrence(b, x);
    if b == 0 {
      SplitsOne(T(a, x));
    } else if b == 1 {
      Recurrence(a + 1, x);
      SplitsX(T(a, x), x, T(a + 1, x), T(a - 1, x));
    } else {
      ProductSplits(a, b - 1, x);
      ProductSplits(a, b - 2, x);
      Recurrence(a + b, x);
      Recurrence(a - b + 2, x);
      ProductStep(T(a, x), x, T(b, x), T(b - 1, x), T(b - 2, x), T(a + b, x), T(a + b - 1, x), T(a + b - 2, x),
                  T(a - b, x), T(a - b + 1, x), T(a - b + 2, x));
    }
  }

  lemma SplitsOne(t: real)
    ensures Splits(t, 1.0, t, t)
  {
  }

  lemma SplitsX(t: real, x: real, high: real, low: real)
    requires Step(high, x, t, low)
    ensures Splits(t, x, high, low)
  {
  }

  lemma ProductStep(t: real, x: real, b0: real, b1: real, b2: real, s0: real, s1: real, s2: real, d0: real, d1: real, d2: real)
    requires Splits(t, b1, s1, d1) && Splits(t, b2, s2, d2)
    requires Step(b0, x, b1, b2) && Step(s0, x, s1, s2) && Step(d2, x, d1, d0)
    ensures Splits(t, b0, s0, d0)
  {
    calc {
      2.0 * t * b0;
      2.0 * t * (2.0 * x * b1 - b2);
      2.0 * x * (2.0 * t * b1) - 2.0 * t * b2;
      2.0 * x * (s1 + d1) - (s2 + d2);
      (2.0 * x * s1 - s2) + (2.0 * x * d1 - d2);
      s0 + d0;
    }
  }

  lemma StepUnique(a: real, x: real, mid: real, low: real, b: real)
    requires Step(a, x, mid, low) && Step(b, x, mid, low)
    ensures a == b
  {
  }

  lemma SplitsStep(mid: real, x: real, high: real, low: real)
    requires Splits(mid, x, high, low)
    ensures Step(high, x, mid, low)
  {
  }

  lemma Associate(x: real, y: real, z: real)
    ensures Times(x, Times(y, z)) == Times(Times(x, y), z)
  {
    assert x * (y * z) == (x * y) * z;
  }

  /** T_2k = T_k composed with T_2. */
  lemma {:induction false} Doubling(k: nat, x: real)
    ensures T(2 * k, x) == T(k, T(2, x))
  {
    hide *;
    var z := T(2, x);
    Recurrence(0, x);
    Recurrence(k, z);
    if k >= 2 {
      Doubling(k - 1, x);
      Doubling(k - 2, x);
      ProductSplits(2 * k - 2, 2, x);
      SplitsStep(T(2 * k - 2, x), z, T(2 * k, x), T(2 * k - 4, x));
      StepUnique(T(2 * k, x), z, T(k - 1, z), T(k - 2, z), T(k, z));
    }
  }

  /** Chebyshev polynomials of the second kind, as the companion in the Pell identity. */
  function U(n: nat, x: real): real {
    if n == 0 then 0.0 else x * U(n - 1, x) + T(n - 1, x)
  }

  ghost predicate PellPair(t: real, u: real, x: real, next: real) {
    t * t + (1.0 - x * x) * (u * u) == 1.0 && next == x * t - (1.0 - x * x) * u
  }

  ghost predicate CompanionStep(u': real, x: real, u: real, t: real) {
    u' == x * u + t
  }

  lemma Companion(n: nat, x: real)
    ensures U(0, x) == 0.0
    ensures n > 0 ==> CompanionStep(U(n, x), x, U(n - 1, x), T(n - 1, x))
  {
  }

  lemma {:induction false} Pell(n: nat, x: real)
    ensures PellPair(T(n, x), U(n, x), x, T(n + 1, x))
  {
    hide T, U, Step, CompanionStep, PellPair;
    Recurrence(n + 1, x);
    Companion(n, x);
    if n == 0 {
      PellFirst(x);
    } else {
      Pell(n - 1, x);
      PellStep(T(n - 1, x), U(n - 1, x), x, T(n, x), U(n, x), T(n + 1, x));
    }
  }

  lemma PellFirst(x: real)
    ensures PellPair(1.0, 0.0, x, x)
  {
  }

  lemma PellStep(t: real, u: real, x: real, t': real, u': real, t'': real)
    requires PellPair(t, u, x, t') && CompanionStep(u', x, u, t) && Step(t'', x, t', t)
    ensures PellPair(t', u', x, t'')
  {
    var s := 1.0 - x * x;
    PellSquares(t, u, x, s);
    PellNext(t, u, x, s);
  }

  lemma PellSquares(t: real, u: real, x: real, s: real)
    requires s == 1.0 - x * x
    ensures (x * t - s * u) * (x * t - s * u) + s * ((x * u + t) * (x * u + t)) == t * t + s * (u * u)
  {
    calc {
      (x * t - s * u) * (x * t - s * u) + s * ((x * u + t) * (x * u + t));
      (x * x + s) * (t * t) + s * (s + x * x) * (u * u);
      t * t + s * (u * u);
    }
  }

  lemma PellNext(t: real, u: real, x: real, s: real)
    requires s == 1.0 - x * x
    ensures 2.0 * x * (x * t - s * u) - t == x * (x * t - s * u) - s * (x * u + t)
  {
    calc {
      x * (x * t - s * u) - t + s * (x * u + t);
      (x * x + s) * t - t;
      0.0;
    }
  }

  /** Each T_n stays in [-1,1] on [-1,1]. */
  lemma UnitBound(n: nat, x: real)
    requires -1.0 <= x <= 1.0
    ensures -1.0 <= T(n, x) <= 1.0
  {
    hide T, U;
    Pell(n, x);
    MulNonneg(1.0 - x, 1.0 + x);
    Square(U(n, x));
    MulNonneg(1.0 - x * x, U(n, x) * U(n, x));
    SquareAtMostOne(T(n, x));
  }

  lemma SquareAtMostOne(t: real)
    requires t * t <= 1.0
    ensures -1.0 <= t <= 1.0
  {
    if t > 1.0 {
      MulNonneg(t - 1.0, t - 1.0);
      assert false;
    } else if t < -1.0 {
      MulNonneg(-1.0 - t, -1.0 - t);
      assert false;
    }
  }

  /** A series is bounded on [-1,1] by the l1 norm of its coefficients. */
  lemma SeriesBound(c: seq<real>, x: real)
    requires -1.0 <= x <= 1.0
    ensures -Norm1(c) <= Series(c, x) <= Norm1(c)
  {
    forall i: nat
      ensures -One()(i) <= Basis(x)(i) <= One()(i)
    {
      UnitBound(i, x);
    }
    CombineBound(c, Basis(x), One());
    Norm1Combine(c);
  }

  function One(): nat -> real {
    (n: nat) => 1.0
  }

  /** |c[0]| + ... + |c[|c|-1]| */
  function Norm1(c: seq<real>): (s: real)
    ensures s >= 0.0
  {
    if |c| == 0 then 0.0 else Norm1(c[..|c| - 1]) + Abs(c[|c| - 1])
  }

  lemma {:induction false} Norm1Combine(c: seq<real>)
    ensures Combine(Magnitudes(c), One()) == Norm1(c)
  {
    var n := |c| - 1;
    if n >= 0 {
      assert Magnitudes(c)[..n] == Magnitudes(c[..n]);
      Norm1Combine(c[..n]);
    }
  }
}
