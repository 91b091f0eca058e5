/**
 * src/fhemamba/reference.py, _affine_scan and chunked_scan, for one (batch, channel, state) lane; all lanes run alike.
 */
module AffineScan {
  import opened Wrappers
  import opened Sums
  import opened SlotVectors

  /** h |-> scale*h + shift */
  datatype Affine = Affine(scale: real, shift: real)

  const IDENTITY := Affine(1.0, 0.0)

  function At(f: Affine, h: real): real {
    Times(f.scale, h) + f.shift
  }

  /** First f, then g. */
  function Then(f: Affine, g: Affine): Affine {
    Affine(Times(g.scale, f.scale), g.shift + Times(g.scale, f.shift))
  }

  lemma ThenAssociative(f: Affine, g: Affine, h: Affine)
    ensures Then(Then(f, g), h) == Then(f, Then(g, h))
  {
    hide Times;
    TimesNested(h.scale, g.scale, f.scale, g.shift);
    TimesNested(h.scale, g.scale, f.shift, g.shift);
  }

  lemma TimesNested(x: real, y: real, z: real, w: real)
    ensures Times(x, Times(y, z)) == Times(Times(x, y), z)
    ensures Times(x, w + Times(y, z)) == Times(x, w) + Times(Times(x, y), z)
  {
    assert x * (y * z) == x * y * z;
    assert x * (w + y * z) == x * w + x * (y * z);
  }

  lemma ThenAt(f: Affine, g: Affine, h: real)
    ensures At(Then(f, g), h) == At(g, At(f, h))
  {
    hide Times;
    TimesNested(g.scale, f.scale, h, f.shift);
    TimesSum(g.scale, Times(f.scale, h), f.shift);
  }

  lemma ThenIdentity(f: Affine)
    ensures Then(IDENTITY, f) == f == Then(f, IDENTITY)
  {
  }

  function Maps(decay: seq<real>, update: seq<real>): (maps: seq<Affine>)
    requires |decay| == |update|
    ensures |maps| == |decay|
  {
    seq(|decay|, t requires 0 <= t < |decay| => Affine(decay[t], update[t]))
  }

  /** Steps i, ..., j - 1 as one map. */
  function Span(maps: seq<Affine>, i: nat, j: nat): Affine
    requires i <= j <= |maps|
    decreases j - i
  {
    if i == j then IDENTITY else Then(Span(maps, i, j - 1), maps[j - 1])
  }

  lemma {:induction false} SpanJoin(maps: seq<Affine>, i: nat, mid: nat, j: nat)
    requires i <= mid <= j <= |maps|
    ensures Then(Span(maps, i, mid), Span(maps, mid, j)) == Span(maps, i, j)
    decreases j - mid
  {
    hide Then;
    if mid == j {
      ThenIdentity(Span(maps, i, mid));
    } else {
      SpanJoin(maps, i, mid, j - 1);
      ThenAssociative(Span(maps, i, mid), Span(maps, mid, j - 1), maps[j - 1]);
    }
  }

  lemma SpanOne(maps: seq<Affine>, t: nat)
    requires t < |maps|
    ensures Span(maps, t, t + 1) == maps[t]
  {
    ThenIdentity(maps[t]);
  }

  lemma {:induction false} SpanShift(maps: seq<Affine>, base: nat, chunk: seq<Affine>, i: nat, j: nat)
    requires base + |chunk| <= |maps| && chunk == maps[base..base + |chunk|] && i <= j <= |chunk|
    ensures Span(chunk, i, j) == Span(maps, base + i, base + j)
    decreases j - i
  {
    hide Then;
    if i < j {
      SpanShift(maps, base, chunk, i, j - 1);
    }
  }

  function Back(t: nat, offset: nat): nat {
    if t + 1 <= offset then 0 else t + 1 - offset
  }

  /** Entry t covers the last `offset` steps up to t. */
  ghost predicate Covers(maps: seq<Affine>, a: seq<real>, b: seq<real>, offset: nat) {
    && |a| == |b| == |maps|
    && forall t: nat :: t < |maps| ==> Affine(a[t], b[t]) == Span(maps, Back(t, offset), t + 1)
  }

  /** Doubling: every entry composes with the one `offset` before it. */
  method ScanAffine(decay: seq<real>, update: seq<real>) returns (a: seq<real>, b: seq<real>)
    requires |decay| == |update|
    ensures |a| == |b| == |decay|
    ensures forall t :: 0 <= t < |decay| ==> Affine(a[t], b[t]) == Span(Maps(decay, update), 0, t + 1)
  {
    hide Span, Then, Covers;
    ghost var maps := Maps(decay, update);
    a, b := decay, update;
    var offset, length := 1, |decay|;
    StartCovers(decay, update);
    while offset < length
      invariant offset >= 1 && |a| == |b| == length && Covers(maps, a, b, offset)
      decreases length - offset
    {
      DoublingCovers(maps, a, b, offset);
      b := NextShift(a, b, offset);
      a := NextScale(a, offset);
      offset := offset * 2;
    }
    AllCovered(maps, a, b, offset);
  }

  lemma StartCovers(decay: seq<real>, update: seq<real>)
    requires |decay| == |update|
    ensures Covers(Maps(decay, update), decay, update, 1)
  {
    hide Span;
    forall t: nat | t < |decay|
      ensures Affine(decay[t], update[t]) == Span(Maps(decay, update), Back(t, 1), t + 1)
    {
      SpanOne(Maps(decay, update), t);
    }
  }

  /** Both halves of one doubling step. */
  function NextShift(a: seq<real>, b: seq<real>, offset: nat): (r: seq<real>)
    requires |a| == |b| && offset <= |a|
    ensures |r| == |a|
  {
    b[..offset] + seq(|b| - offset, k requires 0 <= k < |b| - offset => b[offset + k] + Times(a[offset + k], b[k]))
  }

  function NextScale(a: seq<real>, offset: nat): (r: seq<real>)
    requires offset <= |a|
    ensures |r| == |a|
  {
    a[..offset] + seq(|a| - offset, k requires 0 <= k < |a| - offset => Times(a[offset + k], a[k]))
  }

  lemma NextEntry(a: seq<real>, b: seq<real>, offset: nat, t: nat)
    requires |a| == |b| && offset <= |a| && t < |a|
    ensures Affine(NextScale(a, offset)[t], NextShift(a, b, offset)[t])
         == if t < offset then Affine(a[t], b[t]) else Then(Affine(a[t - offset], b[t - offset]), Affine(a[t], b[t]))
  {
    hide *;
    if t >= offset {
      NextHigh(a, b, offset, t - offset, t);
    } else {
      NextLow(a, b, offset, t);
    }
  }

  lemma NextLow(a: seq<real>, b: seq<real>, offset: nat, t: nat)
    requires |a| == |b| && offset <= |a| && t < offset
    ensures NextScale(a, offset)[t] == a[t] && NextShift(a, b, offset)[t] == b[t]
  {
    hide Times;
  }

  lemma NextHigh(a: seq<real>, b: seq<real>, offset: nat, k: nat, t: nat)
    requires |a| == |b| && offset <= |a| && offset + k == t < |a|
    ensures Affine(NextScale(a, offset)[t], NextShift(a, b, offset)[t]) == Then(Affine(a[k], b[k]), Affine(a[t], b[t]))
  {
    hide Times;
  }

  lemma DoublingCovers(maps: seq<Affine>, a: seq<real>, b: seq<real>, offset: nat)
    requires 1 <= offset < |maps| && Covers(maps, a, b, offset)
    ensures Covers(maps, NextScale(a, offset), NextShift(a, b, offset), offset * 2)
  {
    hide Span, Then, NextScale, NextShift;
    forall t: nat | t < |maps|
      ensures Affine(NextScale(a, offset)[t], NextShift(a, b, offset)[t]) == Span(maps, Back(t, offset * 2), t + 1)
    {
      NextEntry(a, b, offset, t);
      assert Affine(a[t], b[t]) == Span(maps, Back(t, offset), t + 1);
      if t >= offset {
        var s := t - offset;
        assert Affine(a[s], b[s]) == Span(maps, Back(s, offset), s + 1);
        SpanJoin(maps, Back(t, offset * 2), s + 1, t + 1);
      }
    }
  }

  lemma AllCovered(maps: seq<Affine>, a: seq<real>, b: seq<real>, offset: nat)
    requires Covers(maps, a, b, offset) && offset >= |maps|
    ensures forall t: nat :: t < |maps| ==> Affine(a[t], b[t]) == Span(maps, 0, t + 1)
  {
    hide Span;
    forall t: nat | t < |maps|
      ensures Affine(a[t], b[t]) == Span(maps, 0, t + 1)
    {
      assert Back(t, offset) == 0;
    }
  }

  // ----- the sequential recurrence

  /** The state before step t. */
  function Sequential(decay: seq<real>, update: seq<real>, initial: real, t: nat): real
    requires |decay| == |update| && t <= |decay|
  {
    if t == 0 then initial else Times(decay[t - 1], Sequential(decay, update, initial, t - 1)) + update[t - 1]
  }

  lemma {:induction false} SpanAdvances(decay: seq<real>, update: seq<real>, initial: real, i: nat, j: nat)
    requires |decay| == |update| && i <= j <= |decay|
    ensures At(Span(Maps(decay, update), i, j), Sequential(decay, update, initial, i)) == Sequential(decay, update, initial, j)
    decreases j - i
  {
    hide At, Then;
    var maps := Maps(decay, update);
    var h := Sequential(decay, update, initial, i);
    if i == j {
      IdentityAt(h);
    } else {
      SpanAdvances(decay, update, initial, i, j - 1);
      ThenAt(Span(maps, i, j - 1), maps[j - 1], h);
      StepAt(decay[j - 1], update[j - 1], Sequential(decay, update, initial, j - 1));
    }
  }

  lemma IdentityAt(h: real)
    ensures At(IDENTITY, h) == h
  {
  }

  lemma StepAt(d: real, u: real, h: real)
    ensures At(Affine(d, u), h) == Times(d, h) + u
  {
  }

  /** Padding steps are identities: they come after everything that is kept. */
  lemma {:induction false} SequentialPrefix(decay: seq<real>, update: seq<real>, more: seq<real>, extra: seq<real>, initial: real, t: nat)
    requires |decay| == |update| && |more| == |extra| && t <= |decay|
    ensures Sequential(decay + more, update + extra, initial, t) == Sequential(decay, update, initial, t)
  {
    if t > 0 {
      SequentialPrefix(decay, update, more, extra, initial, t - 1);
    }
  }

  /**
   * Scans inside chunks, a serial carry across them. None where the program raises because there is nothing to join.
   */
  method ChunkedScan(decay: seq<real>, update: seq<real>, chunk: nat, initial: Option<real>) returns (states: Option<seq<real>>)
    requires |decay| == |update| && chunk > 0
    ensures states.None? <==> |decay| == 0
    ensures states.Some? ==> |states.value| == |decay| && forall t :: 0 <= t < |decay| ==>
              states.value[t] == Sequential(decay, update, if initial.Some? then initial.value else 0.0, t + 1)
  {
    hide Sequential;
    var length := |decay|;
    var pad := PadOf(length, chunk);
    var d, u := decay + seq(pad, i => 1.0), update + seq(pad, i => 0.0);
    var chunks := |d| / chunk;
    PadFills(length, chunk);
    var start := if initial.Some? then initial.value else 0.0;
    StartState(d, u, start);
    if chunks == 0 {
      return None;
    }
    var carry, joined := start, [];
    for c := 0 to chunks
      invariant |joined| == c * chunk && carry == Sequential(d, u, start, c * chunk)
      invariant c * chunk <= |d| && forall t :: 0 <= t < |joined| ==> joined[t] == Sequential(d, u, start, t + 1)
    {
      ChunkInside(c, chunks, chunk);
      var piece := ScanChunk(d, u, start, c * chunk, chunk, carry);
      joined := joined + piece;
      carry := piece[chunk - 1];
    }
    forall t | 0 <= t < length
      ensures joined[t] == Sequential(decay, update, start, t + 1)
    {
      SequentialPrefix(decay, update, seq(pad, i => 1.0), seq(pad, i => 0.0), start, t + 1);
    }
    return Some(joined[..length]);
  }

  lemma StartState(d: seq<real>, u: seq<real>, start: real)
    requires |d| == |u|
    ensures Sequential(d, u, start, 0) == start
  {
  }

  function PadOf(length: int, chunk: int): (pad: nat)
    requires chunk > 0
  {
    (-length) % chunk
  }

  lemma PadFills(length: nat, chunk: nat)
    requires chunk > 0
    ensures (length + PadOf(length, chunk)) / chunk * chunk == length + PadOf(length, chunk)
    ensures (length + PadOf(length, chunk)) / chunk == 0 <==> length == 0
    ensures (length + PadOf(length, chunk)) / chunk >= 0
  {
    var less: int := length;
    less := -less;
    var pad, q := PadOf(length, chunk), less / chunk;
    assert less == q * chunk + pad;
    assert (-q) * chunk == -(q * chunk);
    ModUnique(length + pad, chunk, -q, 0);
    if -q < 0 {
      MulMonotone(-q, -1, chunk);
    }
    if -q == 0 {
      assert length + pad == 0;
    }
  }

  lemma ChunkInside(c: nat, chunks: nat, chunk: nat)
    requires c < chunks
    ensures (c + 1) * chunk == c * chunk + chunk <= chunks * chunk && c * chunk >= 0
  {
    MulMonotone(c + 1, chunks, chunk);
  }

  /** One chunk: its own scan, then the carried state through every entry. */
  method ScanChunk(d: seq<real>, u: seq<real>, ghost start: real, base: nat, chunk: nat, carry: real) returns (piece: seq<real>)
    requires |d| == |u| && chunk > 0 && base + chunk <= |d| && carry == Sequential(d, u, start, base)
    ensures |piece| == chunk && forall t :: 0 <= t < chunk ==> piece[t] == Sequential(d, u, start, base + t + 1)
  {
    hide Sequential, Span;
    var a, b := ScanAffine(d[base..base + chunk], u[base..base + chunk]);
    piece := seq(chunk, t requires 0 <= t < chunk => b[t] + Times(a[t], carry));
    ghost var maps, part := Maps(d, u), Maps(d[base..base + chunk], u[base..base + chunk]);
    assert part == maps[base..base + chunk];
    forall t | 0 <= t < chunk
      ensures piece[t] == Sequential(d, u, start, base + t + 1)
    {
      SpanShift(maps, base, part, 0, t + 1);
      SpanAdvances(d, u, start, base, base + (t + 1));
    }
  }
}
