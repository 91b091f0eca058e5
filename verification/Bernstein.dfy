/** Bernstein form on [0,1]: change of basis, midpoint subdivision and the convex-hull bound. */
module Bernstein {
  import opened Sums
  import opened Chebyshev

  /** Binomial coefficients by Pascal's rule; zero when k > n. */
  function Comb(n: nat, k: nat): nat {
    if k == 0 then 1 else if n == 0 then 0 else Comb(n - 1, k - 1) + Comb(n - 1, k)
  }

  lemma {:induction false} CombSupport(n: nat, k: nat)
    ensures Comb(n, k) > 0 <==> k <= n
  {
    if k > 0 && n > 0 {
      CombSupport(n - 1, k - 1);
      CombSupport(n - 1, k);
    }
  }

  /** Value at t of the polynomial with Bernstein coefficients c. */
  function Eval(c: seq<real>, t: real): real
    requires |c| > 0
  {
    if |c| == 1 then c[0] else Lerp(Eval(c[..|c| - 1], t), Eval(c[1..], t), t)
  }

  function Lerp(a: real, b: real, t: real): real {
    (1.0 - t) * a + t * b
  }

  // ----- change of basis

  /** The terms of Bernstein coefficient i. */
  function Term(p: seq<real>, i: nat): nat -> real {
    (k: nat) => if k < |p| then p[k] * Ratio(i, k, |p| - 1) else 0.0
  }

  function Ratio(i: nat, k: nat, degree: nat): real {
    if Comb(degree, k) == 0 then 0.0 else Comb(i, k) as real / Comb(degree, k) as real
  }

  function PowerToBernstein(p: seq<real>): (b: seq<real>)
    ensures |b| == |p|
  {
    seq(|p|, i requires 0 <= i < |p| => Sum(i + 1, Term(p, i)))
  }

  /** Changing basis does not change the polynomial. */
  lemma PowerToBernsteinKeepsValue(p: seq<real>, t: real)
    requires |p| > 0
    ensures Eval(PowerToBernstein(p), t) == Poly(p, t)
  {
    forall i: nat | i < |p|
      ensures Sum(i + 1, Term(p, i)) == Sum(|p|, Term(p, i))
    {
      DropLateTerms(p, i, |p|);
    }
    assert PowerToBernstein(p) == Partial(p, |p|);
    PartialValue(p, |p|, t);
    assert p[..|p|] == p;
  }

  /** Coefficient i only needs the powers up to i. */
  lemma {:induction false} DropLateTerms(p: seq<real>, i: nat, n: nat)
    requires i < n <= |p|
    ensures Sum(i + 1, Term(p, i)) == Sum(n, Term(p, i))
  {
    if i + 1 < n {
      DropLateTerms(p, i, n - 1);
      CombSupport(i, n - 1);
      assert Ratio(i, n - 1, |p| - 1) == 0.0;
    }
  }

  /** The change of basis restricted to the first K powers. */
  ghost function Partial(p: seq<real>, K: nat): seq<real> {
    seq(|p|, i requires 0 <= i < |p| => Sum(K, Term(p, i)))
  }

  ghost function Column(n: nat, k: nat): seq<real> {
    seq(n + 1, i requires 0 <= i <= n => Comb(i, k) as real)
  }

  lemma {:induction false} PartialValue(p: seq<real>, K: nat, t: real)
    requires 0 < |p| && K <= |p|
    ensures Eval(Partial(p, K), t) == Combine(p[..K], Powers(t))
  {
    hide *;
    if K == 0 {
      PartialEmpty(p, t);
    } else {
      var n, k := |p| - 1, K - 1;
      PartialValue(p, k, t);
      ColumnValue(n, k, t);
      PartialGrows(p, k);
      EvalLinear(Partial(p, k), 1.0, Column(n, k), Scale(p, k), Partial(p, K), t);
      CancelScale(p, k, Combine(p[..k], Powers(t)), t);
      assert p[..K][..k] == p[..k];
      LastTerm(p[..K], Powers(t));
    }
  }

  lemma PartialEmpty(p: seq<real>, t: real)
    requires |p| > 0
    ensures |Partial(p, 0)| == |p| && Eval(Partial(p, 0), t) == Combine(p[..0], Powers(t))
  {
    EvalZero(Partial(p, 0), t);
  }

  ghost function Scale(p: seq<real>, k: nat): real
    requires k < |p|
  {
    CombSupport(|p| - 1, k);
    p[k] / Comb(|p| - 1, k) as real
  }

  lemma PartialGrows(p: seq<real>, k: nat)
    requires k < |p|
    ensures |Partial(p, k)| == |Partial(p, k + 1)| == |Column(|p| - 1, k)| == |p|
    ensures forall i :: 0 <= i < |p| ==> Partial(p, k + 1)[i] == Mix(1.0, Partial(p, k)[i], Scale(p, k), Column(|p| - 1, k)[i])
  {
    forall i: nat | i < |p|
      ensures Partial(p, k + 1)[i] == Mix(1.0, Partial(p, k)[i], Scale(p, k), Column(|p| - 1, k)[i])
    {
      PartialGrowsAt(p, k, i);
    }
  }

  lemma PartialGrowsAt(p: seq<real>, k: nat, i: nat)
    requires k < |p| && i < |p|
    ensures Sum(k + 1, Term(p, i)) == Mix(1.0, Sum(k, Term(p, i)), Scale(p, k), Comb(i, k) as real)
  {
    hide *;
    var a, b := Comb(i, k) as real, Comb(|p| - 1, k) as real;
    CombSupport(|p| - 1, k);
    TermMeans(p, k, i);
    DivideThrough(p[k], a, b);
    MixOne(Sum(k, Term(p, i)), p[k] / b, a);
  }

  lemma TermMeans(p: seq<real>, k: nat, i: nat)
    requires k < |p| && i < |p| && Comb(|p| - 1, k) > 0
    ensures Sum(k + 1, Term(p, i)) == Sum(k, Term(p, i)) + p[k] * (Comb(i, k) as real / Comb(|p| - 1, k) as real)
    ensures Scale(p, k) == p[k] / Comb(|p| - 1, k) as real
  {
    hide Comb;
  }

  lemma MixOne(x: real, q: real, y: real)
    ensures Mix(1.0, x, q, y) == x + q * y
  {
  }

  lemma DivideThrough(x: real, a: real, b: real)
    requires b != 0.0
    ensures x * (a / b) == (x / b) * a
  {
  }

  lemma CancelScale(p: seq<real>, k: nat, sum: real, t: real)
    requires k < |p|
    ensures Mix(1.0, sum, Scale(p, k), ColumnPoly(|p| - 1, k, t)) == Axpy(sum, p[k], Powers(t)(k))
  {
    hide Pow, Comb;
    CombSupport(|p| - 1, k);
    assert Powers(t)(k) == Pow(t, k);
    Cancel(p[k], Comb(|p| - 1, k) as real, Pow(t, k));
  }

  lemma Cancel(x: real, b: real, y: real)
    requires b != 0.0
    ensures (x / b) * (b * y) == x * y
  {
    assert (x / b) * b == x;
  }

  lemma {:induction false} EvalZero(c: seq<real>, t: real)
    requires |c| > 0 && forall i :: 0 <= i < |c| ==> c[i] == 0.0
    ensures Eval(c, t) == 0.0
  {
    if |c| > 1 {
      EvalZero(c[..|c| - 1], t);
      EvalZero(c[1..], t);
    }
  }

  lemma {:induction false} EvalLinear(a: seq<real>, p: real, b: seq<real>, q: real, c: seq<real>, t: real)
    requires 0 < |a| == |b| == |c|
    requires forall i :: 0 <= i < |c| ==> c[i] == Mix(p, a[i], q, b[i])
    ensures Eval(c, t) == Mix(p, Eval(a, t), q, Eval(b, t))
    decreases |c|
  {
    hide Lerp, Mix;
    var n := |c| - 1;
    if n > 0 {
      EvalLinear(a[..n], p, b[..n], q, c[..n], t);
      EvalLinear(a[1..], p, b[1..], q, c[1..], t);
      LerpLinear(Eval(a[..n], t), Eval(a[1..], t), p, Eval(b[..n], t), Eval(b[1..], t), q, t);
    }
  }

  lemma LerpLinear(a0: real, a1: real, p: real, b0: real, b1: real, q: real, t: real)
    ensures Lerp(Mix(p, a0, q, b0), Mix(p, a1, q, b1), t) == Mix(p, Lerp(a0, a1, t), q, Lerp(b0, b1, t))
  {
    calc {
      Lerp(Mix(p, a0, q, b0), Mix(p, a1, q, b1), t);
      (1.0 - t) * (p * a0 + q * b0) + t * (p * a1 + q * b1);
      p * ((1.0 - t) * a0 + t * a1) + q * ((1.0 - t) * b0 + t * b1);
    }
  }

  ghost function ColumnPoly(n: nat, k: nat, t: real): real {
    Comb(n, k) as real * Pow(t, k)
  }

  /** The column of binomials C(0,k), ..., C(n,k) is the Bernstein form of C(n,k) * t^k. */
  lemma {:induction false} ColumnValue(n: nat, k: nat, t: real)
    ensures Eval(Column(n, k), t) == ColumnPoly(n, k, t)
  {
    hide Lerp, Mix, ColumnPoly;
    var c := Column(n, k);
    if n == 0 {
      ColumnBase(k, t);
    } else {
      assert c[..n] == Column(n - 1, k);
      ColumnValue(n - 1, k, t);
      ColumnPascal(n, k, t);
      if k == 0 {
        assert c[1..] == Column(n - 1, 0);
      } else {
        ColumnValue(n - 1, k - 1, t);
        MixOnes();
        forall i | 0 <= i < n
          ensures c[1..][i] == Mix(1.0, Column(n - 1, k - 1)[i], 1.0, Column(n - 1, k)[i])
        {
          assert Comb(i + 1, k) == Comb(i, k - 1) + Comb(i, k);
        }
        EvalLinear(Column(n - 1, k - 1), 1.0, Column(n - 1, k), 1.0, c[1..], t);
      }
    }
  }

  lemma ColumnBase(k: nat, t: real)
    ensures ColumnPoly(0, k, t) == Comb(0, k) as real
  {
    if k > 0 {
      assert Comb(0, k) == 0;
    }
  }

  lemma MixOnes()
    ensures forall x: real, y: real :: Mix(1.0, x, 1.0, y) == x + y
  {
  }

  lemma ColumnPascal(n: nat, k: nat, t: real)
    requires n > 0
    ensures k == 0 ==> Lerp(ColumnPoly(n - 1, 0, t), ColumnPoly(n - 1, 0, t), t) == ColumnPoly(n, 0, t)
    ensures k > 0 ==> Lerp(ColumnPoly(n - 1, k, t), Mix(1.0, ColumnPoly(n - 1, k - 1, t), 1.0, ColumnPoly(n - 1, k, t)), t)
                      == ColumnPoly(n, k, t)
  {
    if k > 0 {
      PascalLerp(Comb(n - 1, k - 1) as real, Comb(n - 1, k) as real, Pow(t, k - 1), t);
    }
  }

  lemma PascalLerp(below: real, same: real, power: real, t: real)
    ensures Lerp(same * (t * power), Mix(1.0, below * power, 1.0, same * (t * power)), t) == (below + same) * (t * power)
  {
    calc {
      Lerp(same * (t * power), Mix(1.0, below * power, 1.0, same * (t * power)), t);
      (1.0 - t) * (same * (t * power)) + t * (below * power) + t * (same * (t * power));
      same * (t * power) + below * (t * power);
    }
  }

  // ----- midpoint subdivision

  function Midpoints(c: seq<real>): seq<real>
    requires |c| > 0
  {
    seq(|c| - 1, i requires 0 <= i < |c| - 1 => (c[i] + c[i + 1]) / 2.0)
  }

  /** Bernstein coefficients on the left half: the first entry of every de Casteljau row. */
  function Left(c: seq<real>): (r: seq<real>)
    requires |c| > 0
    ensures |r| == |c|
    decreases |c|
  {
    if |c| == 1 then c else [c[0]] + Left(Midpoints(c))
  }

  /** Bernstein coefficients on the right half: the last entries, last row first. */
  function Right(c: seq<real>): (r: seq<real>)
    requires |c| > 0
    ensures |r| == |c|
    decreases |c|
  {
    if |c| == 1 then c else Right(Midpoints(c)) + [c[|c| - 1]]
  }

  method SubdivideMidpoint(coefficients: seq<real>) returns (left: seq<real>, right: seq<real>)
    requires |coefficients| > 0
    ensures left == Left(coefficients) && right == Right(coefficients)
  {
    hide Midpoints;
    var row := coefficients;
    left := [row[0]];
    right := [row[|row| - 1]];
    while |row| > 1
      invariant 1 <= |row| <= |coefficients|
      invariant |left| > 0 && left[|left| - 1] == row[0]
      invariant |right| > 0 && right[|right| - 1] == row[|row| - 1]
      invariant Left(coefficients) == left[..|left| - 1] + Left(row)
      invariant Right(coefficients) == Right(row) + Reversed(right[..|right| - 1])
      decreases |row|
    {
      var next := Midpoints(row);
      MidpointsShrink(row);
      LeftRowDone(left, row);
      RightRowDone(right, row);
      row := next;
      assert (left + [row[0]])[..|left|] == left && (right + [row[|row| - 1]])[..|right|] == right;
      left := left + [row[0]];
      right := right + [row[|row| - 1]];
    }
    assert left == left[..|left| - 1] + row;
    ReversedLast(right);
    right := Reversed(right);
  }

  lemma MidpointsShrink(row: seq<real>)
    requires |row| > 1
    ensures |Midpoints(row)| == |row| - 1
  {
  }

  lemma LeftRowDone(left: seq<real>, row: seq<real>)
    requires |row| > 1 && |left| > 0 && left[|left| - 1] == row[0]
    ensures left[..|left| - 1] + Left(row) == left + Left(Midpoints(row))
  {
    MidpointsShrink(row);
    hide Midpoints;
    var earlier, first, lower := left[..|left| - 1], [row[0]], Left(Midpoints(row));
    assert left == earlier + first;
    assert Left(row) == first + lower;
    assert earlier + (first + lower) == (earlier + first) + lower;
  }

  lemma RightRowDone(right: seq<real>, row: seq<real>)
    requires |row| > 1 && |right| > 0 && right[|right| - 1] == row[|row| - 1]
    ensures Right(row) + Reversed(right[..|right| - 1]) == Right(Midpoints(row)) + Reversed(right)
  {
    ReversedLast(right);
    MidpointsShrink(row);
    hide Midpoints, Reversed;
    var upper, last, lower := Right(Midpoints(row)), [row[|row| - 1]], Reversed(right[..|right| - 1]);
    assert Right(row) == upper + last;
    assert (upper + last) + lower == upper + (last + lower);
  }

  lemma ReversedLast(s: seq<real>)
    requires |s| > 0
    ensures Reversed(s) == [s[|s| - 1]] + Reversed(s[..|s| - 1])
  {
  }

  function Reversed(s: seq<real>): seq<real> {
    seq(|s|, i requires 0 <= i < |s| => s[|s| - 1 - i])
  }

  lemma {:induction false} LeftOfPrefix(c: seq<real>)
    requires |c| > 1
    ensures Left(c)[..|c| - 1] == Left(c[..|c| - 1])
    decreases |c|
  {
    if |c| > 2 {
      var m := Midpoints(c);
      LeftOfPrefix(m);
      assert m[..|m| - 1] == Midpoints(c[..|c| - 1]);
      assert Left(c)[..|c| - 1] == [c[0]] + Left(m)[..|m| - 1];
    }
  }

  lemma {:induction false} RightOfSuffix(c: seq<real>)
    requires |c| > 1
    ensures Right(c)[1..] == Right(c[1..])
    decreases |c|
  {
    if |c| > 2 {
      var m := Midpoints(c);
      RightOfSuffix(m);
      assert m[1..] == Midpoints(c[1..]);
      assert Right(c)[1..] == Right(m)[1..] + [c[|c| - 1]];
    }
  }

  lemma MixHalves()
    ensures forall x: real, y: real :: Mix(0.5, x, 0.5, y) == (x + y) / 2.0
  {
  }

  lemma EvalMidpoints(c: seq<real>, t: real)
    requires |c| > 1
    ensures Eval(Midpoints(c), t) == (Eval(c[..|c| - 1], t) + Eval(c[1..], t)) / 2.0
  {
    MixHalves();
    hide Mix, Lerp;
    EvalLinear(c[..|c| - 1], 0.5, c[1..], 0.5, Midpoints(c), t);
  }

  /** The left half is the same polynomial on [0,1/2]. */
  lemma {:induction false} LeftHalf(c: seq<real>, s: real)
    requires |c| > 0
    ensures Eval(Left(c), s) == Eval(c, s / 2.0)
    decreases |c|
  {
    var n := |c| - 1;
    if n > 0 {
      hide Lerp;
      LeftOfPrefix(c);
      assert Left(c)[1..] == Left(Midpoints(c));
      LeftHalf(c[..n], s);
      LeftHalf(Midpoints(c), s);
      EvalMidpoints(c, s / 2.0);
      LerpLeft(Eval(c[..n], s / 2.0), Eval(c[1..], s / 2.0), s);
    }
  }

  /** The right half is the same polynomial on [1/2,1]. */
  lemma {:induction false} RightHalf(c: seq<real>, s: real)
    requires |c| > 0
    ensures Eval(Right(c), s) == Eval(c, (1.0 + s) / 2.0)
    decreases |c|
  {
    var n := |c| - 1;
    if n > 0 {
      hide Lerp;
      RightOfSuffix(c);
      assert Right(c)[..n] == Right(Midpoints(c));
      RightHalf(c[1..], s);
      RightHalf(Midpoints(c), s);
      EvalMidpoints(c, (1.0 + s) / 2.0);
      LerpRight(Eval(c[..n], (1.0 + s) / 2.0), Eval(c[1..], (1.0 + s) / 2.0), s);
    }
  }

  lemma LerpLeft(a: real, b: real, s: real)
    ensures Lerp(a, (a + b) / 2.0, s) == Lerp(a, b, s / 2.0)
  {
    assert s * ((a + b) / 2.0) == s / 2.0 * a + s / 2.0 * b;
  }

  lemma LerpRight(a: real, b: real, s: real)
    ensures Lerp((a + b) / 2.0, b, s) == Lerp(a, b, (1.0 + s) / 2.0)
  {
    assert (1.0 - s) * ((a + b) / 2.0) == (1.0 - s) / 2.0 * a + (1.0 - s) / 2.0 * b;
    assert 1.0 - (1.0 + s) / 2.0 == (1.0 - s) / 2.0;
    assert (1.0 - s) / 2.0 * b + s * b == (1.0 + s) / 2.0 * b;
  }

  // ----- convex hull

  /** A Bernstein polynomial stays between bounds of its coefficients. */
  lemma {:induction false} ConvexHull(c: seq<real>, low: real, high: real, t: real)
    requires |c| > 0 && 0.0 <= t <= 1.0
    requires forall i :: 0 <= i < |c| ==> low <= c[i] <= high
    ensures low <= Eval(c, t) <= high
  {
    if |c| > 1 {
      ConvexHull(c[..|c| - 1], low, high, t);
      ConvexHull(c[1..], low, high, t);
      LerpBetween(Eval(c[..|c| - 1], t), Eval(c[1..], t), low, high, t);
    }
  }

  lemma LerpBetween(a: real, b: real, low: real, high: real, t: real)
    requires 0.0 <= t <= 1.0 && low <= a <= high && low <= b <= high
    ensures low <= Lerp(a, b, t) <= high
  {
    MulNonneg(1.0 - t, a - low);
    MulNonneg(t, b - low);
    MulNonneg(1.0 - t, high - a);
    MulNonneg(t, high - b);
    assert Lerp(a, b, t) - low == (1.0 - t) * (a - low) + t * (b - low);
    assert high - Lerp(a, b, t) == (1.0 - t) * (high - a) + t * (high - b);
  }

  /** End coefficients are end values. */
  lemma {:induction false} Endpoints(c: seq<real>)
    requires |c| > 0
    ensures Eval(c, 0.0) == c[0] && Eval(c, 1.0) == c[|c| - 1]
  {
    if |c| > 1 {
      Endpoints(c[..|c| - 1]);
      Endpoints(c[1..]);
    }
  }
}
