/** Rows of a recurrent state under decay, rank-one writes and readout, shared by the state representations. */
module RankOne {
  import opened Sums

  type Row = seq<real>

  function Dot(x: Row, y: Row): real
    requires |x| == |y|
    decreases |x|
  {
    if |x| == 0 then 0.0 else Dot(x[..|x| - 1], y[..|y| - 1]) + Times(x[|x| - 1], y[|y| - 1])
  }

  function Scaled(s: real, x: Row): (r: Row)
    ensures |r| == |x|
  {
    seq(|x|, n requires 0 <= n < |x| => Times(s, x[n]))
  }

  /** x + s*key */
  function Plus(x: Row, s: real, key: Row): (r: Row)
    requires |x| == |key|
    ensures |r| == |x|
  {
    seq(|x|, n requires 0 <= n < |x| => x[n] + Times(s, key[n]))
  }

  function ZeroRow(n: nat): (r: Row)
    ensures |r| == n
  {
    seq(n, i => 0.0)
  }

  lemma {:induction false} DotScaled(s: real, x: Row, y: Row)
    requires |x| == |y|
    ensures Dot(Scaled(s, x), y) == Times(s, Dot(x, y))
    decreases |x|
  {
    hide Times;
    if |x| > 0 {
      var n := |x| - 1;
      assert Scaled(s, x)[..n] == Scaled(s, x[..n]);
      DotScaled(s, x[..n], y[..n]);
      TimesLaws(s, x[n], y[n], Dot(x[..n], y[..n]));
    } else {
      TimesZero(s);
    }
  }

  lemma {:induction false} DotPlus(x: Row, s: real, key: Row, y: Row)
    requires |x| == |key| == |y|
    ensures Dot(Plus(x, s, key), y) == Dot(x, y) + Times(s, Dot(key, y))
    decreases |x|
  {
    hide Times;
    if |x| > 0 {
      var n := |x| - 1;
      assert Plus(x, s, key)[..n] == Plus(x[..n], s, key[..n]);
      DotPlus(x[..n], s, key[..n], y[..n]);
      TimesLaws(s, key[n], y[n], Dot(key[..n], y[..n]));
      TimesOver(x[n], Times(s, key[n]), y[n]);
    } else {
      TimesZero(s);
    }
  }

  lemma TimesLaws(s: real, x: real, y: real, d: real)
    ensures Times(Times(s, x), y) == Times(s, Times(x, y))
    ensures Times(s, d) + Times(s, Times(x, y)) == Times(s, d + Times(x, y))
  {
    assert s * x * y == s * (x * y);
    assert s * d + s * (x * y) == s * (d + x * y);
  }

  lemma TimesOver(a: real, b: real, y: real)
    ensures Times(a + b, y) == Times(a, y) + Times(b, y)
  {
  }

  /** Decaying a sum of writes decays every part. */
  lemma ScaledPlus(d: real, x: Row, s: real, key: Row)
    requires |x| == |key|
    ensures Scaled(d, Plus(x, s, key)) == Plus(Scaled(d, x), Times(d, s), key)
  {
    hide Times;
    forall n | 0 <= n < |x|
      ensures Scaled(d, Plus(x, s, key))[n] == Plus(Scaled(d, x), Times(d, s), key)[n]
    {
      TimesLaws(d, s, key[n], x[n]);
      TimesSum(d, x[n], Times(s, key[n]));
    }
  }

  lemma ScaledTwice(d: real, s: real, x: Row)
    ensures Scaled(d, Scaled(s, x)) == Scaled(Times(d, s), x)
  {
    hide Times;
    forall n | 0 <= n < |x|
      ensures Scaled(d, Scaled(s, x))[n] == Scaled(Times(d, s), x)[n]
    {
      TimesLaws(d, s, x[n], 0.0);
    }
  }

  lemma ScaledOne(x: Row)
    ensures Scaled(1.0, x) == x
  {
  }

  // ----- one head of a dense state

  /** channels x state_size */
  type Matrix = seq<Row>

  predicate Sized(m: Matrix, channels: nat, states: nat) {
    |m| == channels && forall p :: 0 <= p < channels ==> |m[p]| == states
  }

  /** decay * state + update (x) key */
  function DenseStep(m: Matrix, decay: real, update: Row, key: Row): (r: Matrix)
    requires Sized(m, |update|, |key|)
    ensures Sized(r, |update|, |key|)
  {
    seq(|m|, p requires 0 <= p < |m| => Plus(Scaled(decay, m[p]), update[p], key))
  }

  function Readout(m: Matrix, query: Row): (r: Row)
    requires Sized(m, |m|, |query|)
    ensures |r| == |m|
  {
    seq(|m|, p requires 0 <= p < |m| => Dot(m[p], query))
  }
}
