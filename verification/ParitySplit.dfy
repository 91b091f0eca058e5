/** experiments/security128/screen_polynomials.py, parity_split: p(x) = A(T_2(x)) + x*B(T_2(x)). */
module ParitySplit {
  import opened Sums
  import opened Chebyshev

  // ----- even and odd coefficients

  /** c[start], c[start+2], ... */
  function EverySecond(c: seq<real>, start: nat): (r: seq<real>)
    requires start < 2
  {
    seq((|c| + 1 - start) / 2, k requires 0 <= k < (|c| + 1 - start) / 2 => c[2 * k + start])
  }

  function EvenBasis(x: real): nat -> real {
    (k: nat) => T(2 * k, x)
  }

  function OddBasis(x: real): nat -> real {
    (k: nat) => T(2 * k + 1, x)
  }

  /** Even and odd coefficients are evaluated separately. */
  lemma {:induction false} ParitySum(c: seq<real>, x: real)
    ensures Series(c, x) == Combine(EverySecond(c, 0), EvenBasis(x)) + Combine(EverySecond(c, 1), OddBasis(x))
    decreases |c|
  {
    hide T, Axpy, Combine, EverySecond;
    if |c| > 0 {
      var n := |c| - 1;
      var even, odd := EverySecond(c, 0), EverySecond(c, 1);
      LastTerm(c, Basis(x));
      ParitySum(c[..n], x);
      DropLast(c);
      var k := n / 2;
      AxpyApart(Combine(EverySecond(c[..n], 0), EvenBasis(x)), Combine(EverySecond(c[..n], 1), OddBasis(x)), c[n], T(n, x));
      if n % 2 == 0 {
        LastTerm(even, EvenBasis(x));
      } else {
        LastTerm(odd, OddBasis(x));
      }
    } else {
      NothingSplit(x);
    }
  }

  lemma NothingSplit(x: real)
    ensures Series([], x) == 0.0 && Combine(EverySecond([], 0), EvenBasis(x)) == 0.0 && Combine(EverySecond([], 1), OddBasis(x)) == 0.0
  {
  }

  /** The last coefficient is the last of the even or of the odd ones. */
  lemma DropLast(c: seq<real>)
    requires |c| > 0
    ensures var n := |c| - 1; var even, odd := EverySecond(c, 0), EverySecond(c, 1);
            if n % 2 == 0 then
              |even| == n / 2 + 1 && even[..n / 2] == EverySecond(c[..n], 0) && even[n / 2] == c[n] && odd == EverySecond(c[..n], 1)
            else
              |odd| == n / 2 + 1 && odd[..n / 2] == EverySecond(c[..n], 1) && odd[n / 2] == c[n] && even == EverySecond(c[..n], 0)
  {
  }

  lemma AxpyApart(a: real, b: real, c: real, t: real)
    ensures Axpy(a + b, c, t) == Axpy(a, c, t) + b == a + Axpy(b, c, t)
  {
  }

  lemma {:induction false} SameBasis(c: seq<real>, v: nat -> real, w: nat -> real)
    requires forall k: nat :: k < |c| ==> v(k) == w(k)
    ensures Combine(c, v) == Combine(c, w)
    decreases |c|
  {
    if |c| > 0 {
      SameBasis(c[..|c| - 1], v, w);
    }
  }

  // ----- the odd half

  /** T_{2k+1}(x) / x as a polynomial in z = T_2(x). */
  function V(k: nat, z: real): real {
    if k == 0 then 1.0 else 2.0 * T(k, z) - V(k - 1, z)
  }

  lemma {:induction false} OddIsTimesX(k: nat, x: real)
    ensures T(2 * k + 1, x) == x * V(k, T(2, x))
  {
    if k > 0 {
      OddIsTimesX(k - 1, x);
      Doubling(k, x);
      OddStep(x, T(2 * k + 1, x), T(2 * k, x), T(2 * k - 1, x), V(k - 1, T(2, x))) by {
        Recurrence(2 * k + 1, x);
      }
    }
  }

  lemma OddStep(x: real, high: real, mid: real, low: real, v: real)
    requires Step(high, x, mid, low) && low == x * v
    ensures high == x * (2.0 * mid - v)
  {
  }

  /** c[i]*w(i) + ... + c[|c|-1]*w(|c|-1) */
  function From(c: seq<real>, w: nat -> real, i: nat): real
    requires i <= |c|
    decreases |c| - i
  {
    if i == |c| then 0.0 else Axpy(From(c, w, i + 1), c[i], w(i))
  }

  lemma {:induction false} FromStart(c: seq<real>, w: nat -> real, i: nat)
    requires i <= |c|
    ensures Combine(c, w) == Combine(c[..i], w) + From(c, w, i)
    decreases |c| - i
  {
    hide Axpy;
    if i == |c| {
      assert c[..i] == c;
    } else {
      FromStart(c, w, i + 1);
      assert c[..i + 1][..i] == c[..i];
      AxpyMoves(Combine(c[..i], w), From(c, w, i + 1), c[i], w(i));
    }
  }

  lemma AxpyMoves(a: real, b: real, c: real, t: real)
    ensures Axpy(a, c, t) + b == a + Axpy(b, c, t)
  {
  }

  lemma {:induction false} FromSame(b: seq<real>, c: seq<real>, w: nat -> real, i: nat)
    requires |b| == |c| && i <= |c| && forall k :: i <= k < |c| ==> b[k] == c[k]
    ensures From(b, w, i) == From(c, w, i)
    decreases |c| - i
  {
    if i < |c| {
      FromSame(b, c, w, i + 1);
    }
  }

  function OddWeights(z: real): nat -> real {
    (k: nat) => V(k, z)
  }

  /** What the loop keeps: the odd coefficients from index on, over V, against the running tail and the branch above it. */
  ghost predicate TailTrue(odd: seq<real>, branch: seq<real>, index: nat, tail: real) {
    && |branch| == |odd| && index < |odd| && branch[index] == (if index == 0 then tail else 2.0 * tail)
    && forall z :: From(odd, OddWeights(z), index) == Axpy(From(branch, Basis(z), index + 1), tail, V(index, z))
  }

  lemma TailStep(odd: seq<real>, branch: seq<real>, index: nat, tail: real, z: real)
    requires index + 1 < |odd| && |branch| == |odd| && branch[index + 1] == 2.0 * tail
    requires From(odd, OddWeights(z), index + 1) == Axpy(From(branch, Basis(z), index + 2), tail, V(index + 1, z))
    ensures From(odd, OddWeights(z), index) == Axpy(From(branch, Basis(z), index + 1), odd[index] - tail, V(index, z))
  {
    hide T;
    TailAlgebra(From(branch, Basis(z), index + 2), tail, T(index + 1, z), V(index, z), odd[index]);
  }

  lemma TailAlgebra(b: real, tail: real, t: real, v: real, c: real)
    ensures Axpy(Axpy(b, tail, 2.0 * t - v), c, v) == Axpy(Axpy(b, 2.0 * tail, t), c - tail, v)
  {
    assert tail * (2.0 * t - v) == 2.0 * tail * t - tail * v;
    assert (c - tail) * v == c * v - tail * v;
  }

  /** A and B with p(x) = A(T_2(x)) + x*B(T_2(x)) for every x. */
  method Split(coefficients: seq<real>) returns (even: seq<real>, branch: seq<real>)
    ensures |even| == (|coefficients| + 1) / 2 && |branch| == |coefficients| / 2
    ensures forall x :: Series(coefficients, x) == Series(even, T(2, x)) + x * Series(branch, T(2, x))
  {
    hide T, V, From, Axpy, TailTrue;
    even := EverySecond(coefficients, 0);
    var odd := EverySecond(coefficients, 1);
    branch := seq(|odd|, k => 0.0);
    var tail := 0.0;
    var index := |odd| - 1;
    while index >= 0
      invariant -1 <= index < |odd| == |branch|
      invariant index == |odd| - 1 ==> tail == 0.0
      invariant index < |odd| - 1 ==> TailTrue(odd, branch, index + 1, tail)
    {
      ghost var before, last := branch, tail;
      tail := odd[index] - tail;
      branch := branch[index := if index == 0 then tail else 2.0 * tail];
      NextTail(odd, before, index, last, branch);
      index := index - 1;
    }
    forall x
      ensures Series(coefficients, x) == Series(even, T(2, x)) + x * Series(branch, T(2, x))
    {
      SplitValue(coefficients, branch, tail, x);
    }
  }

  lemma NextTail(odd: seq<real>, before: seq<real>, index: nat, last: real, branch: seq<real>)
    requires |before| == |odd| && index < |odd|
    requires branch == before[index := if index == 0 then odd[index] - last else 2.0 * (odd[index] - last)]
    requires index == |odd| - 1 ==> last == 0.0
    requires index < |odd| - 1 ==> TailTrue(odd, before, index + 1, last)
    ensures TailTrue(odd, branch, index, odd[index] - last)
  {
    hide T, V;
    var tail := odd[index] - last;
    forall z
      ensures From(odd, OddWeights(z), index) == Axpy(From(branch, Basis(z), index + 1), tail, V(index, z))
    {
      FromSame(before, branch, Basis(z), index + 1);
      if index < |odd| - 1 {
        TailStep(odd, before, index, last, z);
      }
    }
  }

  lemma SplitValue(c: seq<real>, branch: seq<real>, tail: real, x: real)
    requires |branch| == |EverySecond(c, 1)|
    requires |branch| > 0 ==> TailTrue(EverySecond(c, 1), branch, 0, tail)
    ensures Series(c, x) == Series(EverySecond(c, 0), T(2, x)) + x * Series(branch, T(2, x))
  {
    hide T, V, Axpy, EverySecond;
    var z := T(2, x);
    var even, odd := EverySecond(c, 0), EverySecond(c, 1);
    ParitySum(c, x);
    forall k: nat | k < |even|
      ensures EvenBasis(x)(k) == Basis(z)(k)
    {
      Doubling(k, x);
    }
    SameBasis(even, EvenBasis(x), Basis(z));
    OddValue(odd, x);
    BranchValue(odd, branch, tail, z);
  }

  lemma {:induction false} OddValue(odd: seq<real>, x: real)
    ensures Combine(odd, OddBasis(x)) == x * Combine(odd, OddWeights(T(2, x)))
    decreases |odd|
  {
    hide T, V;
    if |odd| > 0 {
      var n := |odd| - 1;
      OddValue(odd[..n], x);
      OddIsTimesX(n, x);
      AxpyTimes(x, Combine(odd[..n], OddWeights(T(2, x))), odd[n], V(n, T(2, x)));
    }
  }

  lemma AxpyTimes(x: real, a: real, c: real, v: real)
    ensures Axpy(x * a, c, x * v) == x * Axpy(a, c, v)
  {
    assert x * (a + c * v) == x * a + x * (c * v);
    assert c * (x * v) == x * (c * v);
  }

  lemma BranchValue(odd: seq<real>, branch: seq<real>, tail: real, z: real)
    requires |branch| == |odd| && (|branch| > 0 ==> TailTrue(odd, branch, 0, tail))
    ensures Combine(odd, OddWeights(z)) == Series(branch, z)
  {
    hide T;
    if |odd| > 0 {
      FromStart(odd, OddWeights(z), 0);
      FromStart(branch, Basis(z), 0);
      Recurrence(0, z);
      assert V(0, z) == 1.0;
      assert From(odd, OddWeights(z), 0) == Axpy(From(branch, Basis(z), 1), tail, 1.0);
    }
  }
}
