/** src/fhemamba/mamba3.py, mamba3_state_step, for one head: the factored history against the dense recurrence. */
module FactoredState {
  import opened Sums
  import opened RankOne
  import opened StateUpdate

  /** Every past write with its current coefficient. */
  datatype Factored = Factored(keys: seq<Row>, values: seq<Row>, weights: seq<real>)

  /** The state matrix and the previous key and value. */
  datatype Dense = Dense(ssm: Matrix, k: Row, v: Row)

  /** Projected and rotated inputs of one step. */
  datatype Input = Input(b: Row, c: Row, v: Row, decay: real, lag: real, write: real, skip: Row)
  {
    predicate Sized(channels: nat, states: nat) {
      |b| == |c| == states && |v| == |skip| == channels
    }
  }

  // ----- dense

  function DenseInput(d: Dense, x: Input): HeadInput {
    HeadInput(x.decay, [Write(d.k, Scaled(x.lag, d.v)), Write(x.b, Scaled(x.write, x.v))], x.c)
  }

  predicate DenseSized(d: Dense, channels: nat, states: nat) {
    RankOne.Sized(d.ssm, channels, states) && |d.k| == states && |d.v| == channels
  }

  function DenseNext(d: Dense, x: Input): Dense
    requires DenseSized(d, |x.v|, |x.b|) && x.Sized(|x.v|, |x.b|)
  {
    Dense(UpdatedHead(d.ssm, DenseInput(d, x)), x.b, x.v)
  }

  function DenseOutput(d: Dense, x: Input): Row
    requires DenseSized(d, |x.v|, |x.b|) && x.Sized(|x.v|, |x.b|)
  {
    var rows := DenseNext(d, x).ssm;
    seq(|x.v|, p requires 0 <= p < |x.v| => Dot(rows[p], x.c) + x.skip[p])
  }

  // ----- factored

  predicate FactoredSized(f: Factored, channels: nat, states: nat) {
    && |f.keys| == |f.values| == |f.weights|
    && forall k :: 0 <= k < |f.keys| ==> |f.keys[k]| == states && |f.values[k]| == channels
  }

  function DecayedWeights(weights: seq<real>, decay: real): (r: seq<real>)
    ensures |r| == |weights|
  {
    seq(|weights|, k requires 0 <= k < |weights| => Times(weights[k], decay))
  }

  /** The lag term lands on the previous write. */
  function Lagged(weights: seq<real>, lag: real): (r: seq<real>)
    ensures |r| == |weights|
  {
    if |weights| == 0 then [] else weights[|weights| - 1 := weights[|weights| - 1] + lag]
  }

  function FactoredNext(f: Factored, x: Input): Factored {
    Factored(f.keys + [x.b], f.values + [x.v], Lagged(DecayedWeights(f.weights, x.decay), x.lag) + [x.write])
  }

  /** skip + sum of value * (key . c) * weight, for channel p. */
  function Scored(f: Factored, c: Row, skip: Row, p: nat, n: nat): real
    requires FactoredSized(f, |skip|, |c|) && p < |skip| && n <= |f.keys|
  {
    if n == 0 then skip[p] else
      Scored(f, c, skip, p, n - 1) + Times(f.values[n - 1][p], Times(Dot(f.keys[n - 1], c), f.weights[n - 1]))
  }

  function FactoredOutput(f: Factored, x: Input): Row
    requires FactoredSized(f, |x.v|, |x.b|) && x.Sized(|x.v|, |x.b|)
  {
    var next := FactoredNext(f, x);
    seq(|x.v|, p requires 0 <= p < |x.v| => Scored(next, x.c, x.skip, p, |next.keys|))
  }

  /** Row p of the matrix that the first n writes add up to. */
  function HistoryRow(f: Factored, states: nat, p: nat, n: nat): (r: Row)
    requires |f.keys| == |f.values| == |f.weights| && n <= |f.keys|
    requires forall k :: 0 <= k < |f.keys| ==> |f.keys[k]| == states && p < |f.values[k]|
    ensures |r| == states
  {
    if n == 0 then ZeroRow(states) else
      Plus(HistoryRow(f, states, p, n - 1), Times(f.weights[n - 1], f.values[n - 1][p]), f.keys[n - 1])
  }

  // ----- agreement

  ghost predicate Same(f: Factored, d: Dense, channels: nat, states: nat) {
    && FactoredSized(f, channels, states) && DenseSized(d, channels, states)
    && (forall p :: 0 <= p < channels ==> d.ssm[p] == HistoryRow(f, states, p, |f.keys|))
    && (if |f.keys| == 0 then d.k == ZeroRow(states) && d.v == ZeroRow(channels)
        else d.k == f.keys[|f.keys| - 1] && d.v == f.values[|f.values| - 1])
  }

  const EMPTY_HISTORY := Factored([], [], [])

  function ZeroState(channels: nat, states: nat): (d: Dense)
    ensures DenseSized(d, channels, states)
  {
    Dense(seq(channels, p => ZeroRow(states)), ZeroRow(states), ZeroRow(channels))
  }

  lemma InitialSame(channels: nat, states: nat)
    ensures Same(EMPTY_HISTORY, ZeroState(channels, states), channels, states)
  {
  }

  /** Decayed weights without the lag give the decayed row. */
  lemma {:induction false} DecayedHistory(f: Factored, d: real, channels: nat, states: nat, p: nat, n: nat)
    requires FactoredSized(f, channels, states) && p < channels && n <= |f.keys|
    ensures HistoryRow(f.(weights := DecayedWeights(f.weights, d)), states, p, n) == Scaled(d, HistoryRow(f, states, p, n))
  {
    hide Times;
    if n == 0 {
      ScaledZero(d, states);
    } else {
      DecayedHistory(f, d, channels, states, p, n - 1);
      var w, u := f.weights[n - 1], f.values[n - 1][p];
      WeightMoves(w, d, u);
      ScaledPlus(d, HistoryRow(f, states, p, n - 1), Times(w, u), f.keys[n - 1]);
    }
  }

  lemma ScaledZero(d: real, n: nat)
    ensures Scaled(d, ZeroRow(n)) == ZeroRow(n)
  {
  }

  lemma WeightMoves(w: real, d: real, u: real)
    ensures Times(Times(w, d), u) == Times(d, Times(w, u))
  {
    assert w * d * u == d * (w * u);
  }

  /** Only the first n writes matter to the first n terms. */
  lemma {:induction false} HistoryPrefix(f: Factored, g: Factored, states: nat, p: nat, n: nat)
    requires |f.keys| == |f.values| == |f.weights| && |g.keys| == |g.values| == |g.weights| && n <= |f.keys| && n <= |g.keys|
    requires forall k :: 0 <= k < |f.keys| ==> |f.keys[k]| == states && p < |f.values[k]|
    requires forall k :: 0 <= k < |g.keys| ==> |g.keys[k]| == states && p < |g.values[k]|
    requires forall k :: 0 <= k < n ==> f.keys[k] == g.keys[k] && f.values[k] == g.values[k] && f.weights[k] == g.weights[k]
    ensures HistoryRow(f, states, p, n) == HistoryRow(g, states, p, n)
  {
    if n > 0 {
      HistoryPrefix(f, g, states, p, n - 1);
    }
  }

  lemma PlusTwice(x: Row, s: real, t: real, u: real, key: Row)
    requires |x| == |key|
    ensures Plus(x, Times(s + t, u), key) == Plus(Plus(x, Times(s, u), key), Times(t, u), key)
  {
    hide Times;
    forall n | 0 <= n < |x|
      ensures Plus(x, Times(s + t, u), key)[n] == Plus(Plus(x, Times(s, u), key), Times(t, u), key)[n]
    {
      TimesOver(s, t, u);
      TimesOver(Times(s, u), Times(t, u), key[n]);
    }
  }

  lemma PlusZero(x: Row, key: Row, t: real)
    requires |x| == |key|
    ensures Plus(x, Times(t, 0.0), key) == x
  {
    forall n | 0 <= n < |x|
      ensures Plus(x, Times(t, 0.0), key)[n] == x[n]
    {
      TimesZero(t);
      TimesZero(key[n]);
    }
  }

  /** Row p of the next dense state is the next history's. */
  lemma NextRow(f: Factored, d: Dense, x: Input, channels: nat, states: nat, p: nat)
    requires Same(f, d, channels, states) && x.Sized(channels, states) && p < channels
    ensures FactoredSized(FactoredNext(f, x), channels, states)
    ensures DenseNext(d, x).ssm[p] == HistoryRow(FactoredNext(f, x), states, p, |f.keys| + 1)
  {
    hide Times, Plus, Scaled, DenseNext;
    var n, next := |f.keys|, FactoredNext(f, x);
    var decayed := f.(weights := DecayedWeights(f.weights, x.decay));
    DenseRow(d, x, channels, states, p);
    DecayedHistory(f, x.decay, channels, states, p, n);
    if n == 0 {
      ScaledZero(x.decay, states);
      PlusZero(ZeroRow(states), d.k, x.lag);
    } else {
      HistoryPrefix(next, decayed, states, p, n - 1);
      PlusTwice(HistoryRow(decayed, states, p, n - 1), decayed.weights[n - 1], x.lag, f.values[n - 1][p], f.keys[n - 1]);
    }
  }

  lemma DenseRow(d: Dense, x: Input, channels: nat, states: nat, p: nat)
    requires DenseSized(d, channels, states) && x.Sized(channels, states) && p < channels
    ensures DenseNext(d, x).ssm[p]
         == Plus(Plus(Scaled(x.decay, d.ssm[p]), Times(x.lag, d.v[p]), d.k), Times(x.write, x.v[p]), x.b)
  {
    hide Times, Plus;
    var writes := DenseInput(d, x).writes;
    var row, one := d.ssm[p], writes[..1];
    assert UpdatedRow(row, x.decay, one[..0], p) == Scaled(x.decay, row);
    assert UpdatedRow(row, x.decay, one, p) == Plus(UpdatedRow(row, x.decay, one[..0], p), writes[0].value[p], writes[0].key);
    assert UpdatedRow(row, x.decay, writes, p) == Plus(UpdatedRow(row, x.decay, one, p), writes[1].value[p], writes[1].key);
  }

  /** Contracting keys with the query first reads the history's row. */
  lemma {:induction false} ScoredIsRead(f: Factored, c: Row, skip: Row, p: nat, n: nat)
    requires FactoredSized(f, |skip|, |c|) && p < |skip| && n <= |f.keys|
    ensures Scored(f, c, skip, p, n) == Dot(HistoryRow(f, |c|, p, n), c) + skip[p]
  {
    hide Times, Plus;
    if n == 0 {
      DotZero(c);
    } else {
      ScoredIsRead(f, c, skip, p, n - 1);
      var w, u := f.weights[n - 1], f.values[n - 1][p];
      DotPlus(HistoryRow(f, |c|, p, n - 1), Times(w, u), f.keys[n - 1], c);
      ScoreMoves(u, Dot(f.keys[n - 1], c), w);
    }
  }

  lemma {:induction false} DotZero(c: Row)
    ensures Dot(ZeroRow(|c|), c) == 0.0
    decreases |c|
  {
    if |c| > 0 {
      DotZero(c[..|c| - 1]);
      assert ZeroRow(|c|)[..|c| - 1] == ZeroRow(|c| - 1);
    }
  }

  lemma ScoreMoves(u: real, s: real, w: real)
    ensures Times(u, Times(s, w)) == Times(Times(w, u), s)
  {
    assert u * (s * w) == w * u * s;
  }

  /** One step: equal outputs, and the states still stand for each other. */
  lemma StepSame(f: Factored, d: Dense, x: Input, channels: nat, states: nat)
    requires Same(f, d, channels, states) && x.Sized(channels, states)
    ensures FactoredOutput(f, x) == DenseOutput(d, x)
    ensures Same(FactoredNext(f, x), DenseNext(d, x), channels, states)
  {
    hide Times, Plus, Scaled, HistoryRow, Scored, UpdatedHead, Dot;
    var next := FactoredNext(f, x);
    forall p: nat | p < channels
      ensures DenseNext(d, x).ssm[p] == HistoryRow(next, states, p, |f.keys| + 1)
      ensures FactoredOutput(f, x)[p] == DenseOutput(d, x)[p]
    {
      NextRow(f, d, x, channels, states, p);
      ScoredIsRead(next, x.c, x.skip, p, |next.keys|);
    }
    NextSized(f, x, channels, states);
    DenseNextSized(d, x, channels, states);
  }

  lemma NextSized(f: Factored, x: Input, channels: nat, states: nat)
    requires FactoredSized(f, channels, states) && x.Sized(channels, states)
    ensures FactoredSized(FactoredNext(f, x), channels, states)
  {
  }

  lemma DenseNextSized(d: Dense, x: Input, channels: nat, states: nat)
    requires DenseSized(d, channels, states) && x.Sized(channels, states)
    ensures DenseSized(DenseNext(d, x), channels, states)
  {
  }

  // ----- runs

  ghost predicate AllSized(xs: seq<Input>, channels: nat, states: nat) {
    forall t :: 0 <= t < |xs| ==> xs[t].Sized(channels, states)
  }

  function FactoredRun(f: Factored, xs: seq<Input>): Factored {
    if |xs| == 0 then f else FactoredNext(FactoredRun(f, xs[..|xs| - 1]), xs[|xs| - 1])
  }

  function DenseRun(d: Dense, xs: seq<Input>, channels: nat, states: nat): (r: Dense)
    requires DenseSized(d, channels, states) && AllSized(xs, channels, states)
    ensures DenseSized(r, channels, states)
  {
    if |xs| == 0 then d else DenseNext(DenseRun(d, xs[..|xs| - 1], channels, states), xs[|xs| - 1])
  }

  /** On every run from the empty state the two representations keep standing for each other. */
  lemma {:induction false} RunSame(f: Factored, d: Dense, xs: seq<Input>, channels: nat, states: nat)
    requires Same(f, d, channels, states) && DenseSized(d, channels, states) && AllSized(xs, channels, states)
    ensures Same(FactoredRun(f, xs), DenseRun(d, xs, channels, states), channels, states)
  {
    hide Same, FactoredNext, DenseNext;
    if |xs| > 0 {
      var front := xs[..|xs| - 1];
      RunSame(f, d, front, channels, states);
      StepSame(FactoredRun(f, front), DenseRun(d, front, channels, states), xs[|xs| - 1], channels, states);
    }
  }

  /** Every readout of every run from the empty state agrees. */
  lemma ReadoutsAgree(xs: seq<Input>, x: Input, channels: nat, states: nat)
    requires AllSized(xs, channels, states) && x.Sized(channels, states)
    ensures FactoredSized(FactoredRun(EMPTY_HISTORY, xs), channels, states)
    ensures FactoredOutput(FactoredRun(EMPTY_HISTORY, xs), x) == DenseOutput(DenseRun(ZeroState(channels, states), xs, channels, states), x)
  {
    hide FactoredNext, DenseNext, FactoredOutput, DenseOutput, HistoryRow, ZeroState;
    InitialSame(channels, states);
    RunSame(EMPTY_HISTORY, ZeroState(channels, states), xs, channels, states);
    StepSame(FactoredRun(EMPTY_HISTORY, xs), DenseRun(ZeroState(channels, states), xs, channels, states), x, channels, states);
  }
}
