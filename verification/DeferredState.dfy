/** src/fhemamba/ssm_algebra.py, DeferredMamba2State, for one head; heads evolve independently on one public schedule. */
module DeferredState {
  import opened Wrappers
  import opened Sums
  import opened RankOne

  /** A rank-one update that has not been added to the base yet. */
  datatype Write = Write(update: Row, key: Row, weight: real)

  ghost predicate Pending(writes: seq<Write>, channels: nat, states: nat) {
    forall k :: 0 <= k < |writes| ==> |writes[k].update| == channels && |writes[k].key| == states
  }

  /** Row p of the state that a base and pending writes stand for. */
  function Materialized(base: Matrix, decay: real, writes: seq<Write>, p: nat): (r: Row)
    requires p < |base|
    requires forall k :: 0 <= k < |writes| ==> p < |writes[k].update| && |writes[k].key| == |base[p]|
    ensures |r| == |base[p]|
    decreases |writes|
  {
    if |writes| == 0 then Scaled(decay, base[p]) else
      var w := writes[|writes| - 1];
      Plus(Materialized(base, decay, writes[..|writes| - 1], p), Times(w.weight, w.update[p]), w.key)
  }

  function Decayed(writes: seq<Write>, d: real): (r: seq<Write>)
    ensures |r| == |writes|
  {
    seq(|writes|, k requires 0 <= k < |writes| => writes[k].(weight := Times(writes[k].weight, d)))
  }

  /** Decaying the base factor and every weight decays the state. */
  lemma {:induction false} DecayedRow(base: Matrix, decay: real, writes: seq<Write>, d: real, channels: nat, states: nat, p: nat)
    requires Sized(base, channels, states) && Pending(writes, channels, states) && p < channels
    ensures Pending(Decayed(writes, d), channels, states)
    ensures Materialized(base, Times(decay, d), Decayed(writes, d), p) == Scaled(d, Materialized(base, decay, writes, p))
    decreases |writes|
  {
    hide Times;
    TimesCommutes(d, decay);
    if |writes| == 0 {
      ScaledTwice(d, decay, base[p]);
    } else {
      var n := |writes| - 1;
      DecayedRow(base, decay, writes[..n], d, channels, states, p);
      assert Decayed(writes, d)[..n] == Decayed(writes[..n], d);
      var w := writes[n];
      TimesMoves(w.weight, d, w.update[p]);
      ScaledPlus(d, Materialized(base, decay, writes[..n], p), Times(w.weight, w.update[p]), w.key);
    }
  }

  lemma TimesMoves(w: real, d: real, u: real)
    ensures Times(Times(w, d), u) == Times(d, Times(w, u))
  {
    assert w * d * u == d * (w * u);
  }

  /** base_decay * (base . c) + the scores of the pending writes, for channel p. */
  function OutputAt(base: Matrix, decay: real, writes: seq<Write>, query: Row, p: nat): real
    requires p < |base| && |base[p]| == |query|
    requires forall k :: 0 <= k < |writes| ==> p < |writes[k].update| && |writes[k].key| == |query|
    decreases |writes|
  {
    if |writes| == 0 then Times(decay, Dot(base[p], query)) else
      var w := writes[|writes| - 1];
      OutputAt(base, decay, writes[..|writes| - 1], query, p) + Times(Times(w.weight, Dot(w.key, query)), w.update[p])
  }

  /** Contracting key and query first reads the same value as the dense state. */
  lemma {:induction false} OutputIsReadout(base: Matrix, decay: real, writes: seq<Write>, query: Row, channels: nat, p: nat)
    requires Sized(base, channels, |query|) && Pending(writes, channels, |query|) && p < channels
    ensures OutputAt(base, decay, writes, query, p) == Dot(Materialized(base, decay, writes, p), query)
    decreases |writes|
  {
    hide Times;
    if |writes| == 0 {
      DotScaled(decay, base[p], query);
    } else {
      var n := |writes| - 1;
      var w := writes[n];
      OutputIsReadout(base, decay, writes[..n], query, channels, p);
      DotPlus(Materialized(base, decay, writes[..n], p), Times(w.weight, w.update[p]), w.key, query);
      TimesScore(w.weight, Dot(w.key, query), w.update[p]);
    }
  }

  lemma TimesScore(w: real, s: real, u: real)
    ensures Times(Times(w, s), u) == Times(Times(w, u), s)
  {
    assert w * s * u == w * u * s;
  }

  class DeferredMamba2State {
    const channels: nat
    const states: nat
    const window: nat
    var base: Matrix
    var baseDecay: real
    var pending: seq<Write>
    var flushes: nat
    /** The state the direct recurrence would have. */
    ghost var dense: Matrix

    ghost predicate Valid()
      reads this
    {
      && channels > 0 && states > 0 && |pending| < window
      && Sized(base, channels, states) && Sized(dense, channels, states) && Pending(pending, channels, states)
      && forall p :: 0 <= p < channels ==> dense[p] == Materialized(base, baseDecay, pending, p)
    }

    constructor (initial: Matrix, channels: nat, states: nat, window: nat)
      requires channels > 0 && states > 0 && window > 0 && Sized(initial, channels, states)
      ensures Valid() && dense == initial && flushes == 0 && this.window == window && pending == []
      ensures this.channels == channels && this.states == states
    {
      this.channels, this.states, this.window := channels, states, window;
      base, baseDecay, pending, flushes, dense := initial, 1.0, [], 0, initial;
      new;
      forall p | 0 <= p < channels
        ensures initial[p] == Materialized(initial, 1.0, [], p)
      {
        ScaledOne(initial[p]);
      }
    }

    /** One step of the recurrence; the output is the dense state's readout. None where the program raises. */
    method Step(decay: real, update: Row, key: Row, query: Row) returns (output: Option<Row>)
      requires Valid()
      modifies this
      ensures Valid() && (output.Some? <==> |update| == channels && |key| == states && |query| == states)
      ensures output.Some? ==> Sized(old(dense), |update|, |key|) && dense == DenseStep(old(dense), decay, update, key)
      ensures output.Some? ==> Sized(dense, |dense|, |query|) && output.value == Readout(dense, query)
      ensures output.Some? ==> (if |old(pending)| + 1 == window then pending == [] && flushes == old(flushes) + 1
                                else |pending| == |old(pending)| + 1 && flushes == old(flushes))
      ensures output.None? ==> dense == old(dense) && pending == old(pending) && flushes == old(flushes)
    {
      hide Times, Materialized, Decayed, OutputAt;
      if |update| != channels || |key| != states || |query| != states {
        return None;
      }
      ghost var before := dense;
      StepRows(base, baseDecay, pending, decay, update, key, channels, states, dense);
      baseDecay := Times(baseDecay, decay);
      pending := Decayed(pending, decay) + [Write(update, key, 1.0)];
      dense := DenseStep(dense, decay, update, key);
      var result := ReadPending(query);
      if |pending| == window {
        Flush();
      }
      return Some(result);
    }

    /** The output loop: the base first, then every pending write. */
    method ReadPending(query: Row) returns (output: Row)
      requires |query| == states && Sized(base, channels, states) && Sized(dense, channels, states)
      requires Pending(pending, channels, states) && forall p :: 0 <= p < channels ==> dense[p] == Materialized(base, baseDecay, pending, p)
      ensures Sized(dense, |dense|, |query|) && output == Readout(dense, query)
    {
      hide Times, Materialized, Dot;
      var rows, factor := base, baseDecay;
      output := seq(channels, p requires 0 <= p < channels => Times(factor, Dot(rows[p], query)));
      for k := 0 to |pending|
        invariant |output| == channels
        invariant forall p :: 0 <= p < channels ==> output[p] == OutputAt(base, baseDecay, pending[..k], query, p)
      {
        var w := pending[k];
        var score := Dot(w.key, query);
        assert pending[..k + 1][..k] == pending[..k];
        output := seq(channels, p requires 0 <= p < channels => output[p] + Times(Times(w.weight, score), w.update[p]));
      }
      assert pending[..|pending|] == pending;
      forall p: nat | p < channels
        ensures output[p] == Readout(dense, query)[p]
      {
        OutputIsReadout(base, baseDecay, pending, query, channels, p);
      }
    }

    /** The dense state, row by row. */
    method Materialize() returns (state: Matrix)
      requires Sized(base, channels, states) && Sized(dense, channels, states) && Pending(pending, channels, states)
      requires forall p :: 0 <= p < channels ==> dense[p] == Materialized(base, baseDecay, pending, p)
      ensures state == dense
    {
      hide Times, Plus, Scaled;
      var rows, factor := base, baseDecay;
      state := seq(channels, p requires 0 <= p < channels => Scaled(factor, rows[p]));
      for k := 0 to |pending|
        invariant |state| == channels
        invariant forall p :: 0 <= p < channels ==> state[p] == Materialized(base, baseDecay, pending[..k], p)
      {
        var w := pending[k];
        assert pending[..k + 1][..k] == pending[..k];
        state := seq(channels, p requires 0 <= p < channels => Plus(state[p], Times(w.weight, w.update[p]), w.key));
      }
      assert pending[..|pending|] == pending;
    }

    /** Moves the pending writes into the base; the state it stands for stays the same. */
    method Flush()
      requires Sized(base, channels, states) && Sized(dense, channels, states) && Pending(pending, channels, states)
      requires window > 0 && channels > 0 && states > 0 && |pending| <= window
      requires forall p :: 0 <= p < channels ==> dense[p] == Materialized(base, baseDecay, pending, p)
      modifies this`base, this`baseDecay, this`pending, this`flushes
      ensures Valid() && pending == [] && flushes == old(flushes) + if |old(pending)| > 0 then 1 else 0
    {
      if |pending| == 0 {
        return;
      }
      base := Materialize();
      baseDecay := 1.0;
      pending := [];
      flushes := flushes + 1;
      forall p | 0 <= p < channels
        ensures base[p] == Materialized(base, 1.0, [], p)
      {
        ScaledOne(base[p]);
      }
    }
  }

  lemma StepRows(base: Matrix, baseDecay: real, pending: seq<Write>, decay: real, update: Row, key: Row, channels: nat, states: nat, dense: Matrix)
    requires Sized(base, channels, states) && Sized(dense, channels, states) && Pending(pending, channels, states)
    requires |update| == channels && |key| == states
    requires forall p :: 0 <= p < channels ==> dense[p] == Materialized(base, baseDecay, pending, p)
    ensures var longer := Decayed(pending, decay) + [Write(update, key, 1.0)];
            Pending(longer, channels, states)
            && forall p :: 0 <= p < channels ==> DenseStep(dense, decay, update, key)[p] == Materialized(base, Times(baseDecay, decay), longer, p)
  {
    hide Times, Plus, Scaled;
    var longer := Decayed(pending, decay) + [Write(update, key, 1.0)];
    assert longer[..|pending|] == Decayed(pending, decay);
    forall p: nat | p < channels
      ensures Pending(longer, channels, states)
      ensures DenseStep(dense, decay, update, key)[p] == Materialized(base, Times(baseDecay, decay), longer, p)
    {
      DecayedRow(base, baseDecay, pending, decay, channels, states, p);
      TimesOne(update[p]);
    }
    if channels == 0 {
      DecayedPending(pending, decay, channels, states);
    }
  }

  lemma DecayedPending(pending: seq<Write>, decay: real, channels: nat, states: nat)
    requires Pending(pending, channels, states)
    ensures Pending(Decayed(pending, decay), channels, states)
  {
  }

}
