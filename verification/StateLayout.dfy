/** src/fhemamba/state_layout.py: broadcasting B/C and head values over state blocks by doubling shifts. */
module StateLayout {
  import opened Wrappers
  import opened Sums
  import opened SlotVectors
  import opened ReplicatedMatmul

  // ----- doubling

  lemma DoubleOnce(v: Slots, step: nat, stride: int)
    ensures var s := ShiftSum(v, step, -stride); ShiftSum(v, 2 * step, -stride) == Plus(s, Roll(s, stride * step))
  {
    hide *;
    ShiftSumDouble(v, step, -stride);
    NegatedShift(step, stride);
  }

  lemma NegatedShift(step: int, stride: int)
    ensures -(step * -stride) == stride * step
  {
  }

  /** The rotate-add loops: v += roll(v, stride * step), step doubling up to a power of two. */
  method FillByDoubling(v: Slots, count: nat, stride: int) returns (r: Slots)
    requires IsPowerOfTwo(count)
    ensures |r| == |v| && r == ShiftSum(v, count, -stride)
  {
    hide ShiftSum, Roll, Plus;
    ShiftSumOne(v, -stride);
    r := v;
    var step := 1;
    ghost var left := count;
    while step < count
      invariant step >= 1 && step * left == count && IsPowerOfTwo(left)
      invariant |r| == |v| && r == ShiftSum(v, step, -stride)
      decreases left
    {
      DoubleOnce(v, step, stride);
      HalveLeft(step, left);
      r := Plus(r, Roll(r, stride * step));
      step := step * 2;
      left := left / 2;
    }
    DoneLeft(step, left, count);
  }

  lemma HalveLeft(step: nat, left: nat)
    requires step >= 1 && IsPowerOfTwo(left) && step < step * left
    ensures left > 1 && IsPowerOfTwo(left / 2) && step * 2 * (left / 2) == step * left
  {
    hide *;
    PowerCases(left);
    HalfStep(step, left / 2);
  }

  lemma PowerCases(left: nat)
    requires IsPowerOfTwo(left)
    ensures left == 1 || (left == 2 * (left / 2) && left / 2 >= 1 && IsPowerOfTwo(left / 2))
  {
  }

  lemma HalfStep(step: nat, half: nat)
    ensures step * 2 * half == step * (2 * half) && step * 1 == step
  {
  }

  lemma DoneLeft(step: nat, left: nat, count: nat)
    requires step >= count && step * left == count && left >= 1
    ensures step == count
  {
    MulMonotone(1, left, step);
  }

  /** A power of two below twice another one is at most it. */
  lemma {:induction false} PowersApart(a: nat, b: nat)
    requires IsPowerOfTwo(a) && IsPowerOfTwo(b) && a < 2 * b
    ensures a <= b
  {
    if a > 1 && b > 1 {
      PowersApart(a / 2, b / 2);
    }
  }

  // ----- filling blocks from their first slots

  lemma BlockStart(i: nat, g: int, blocks: nat)
    requires g > 0 && i < blocks * g
    ensures 0 <= i / g < blocks && i / g * g <= i < i / g * g + g
  {
    var n := WindowOf(i, g, blocks);
    ModUnique(i, g, n, i - n * g);
  }

  ghost predicate OnlyStarts(seeds: Slots, g: nat) {
    forall k, d :: 0 <= d < g && 0 <= k && AtOffset(k, g, d) < |seeds| && d != 0 ==> seeds[AtOffset(k, g, d)] == 0.0
  }

  function AtOffset(k: int, g: int, d: int): int {
    k * g + d
  }

  /** Values on multiples of g, summed over g consecutive shifts, fill their whole blocks. */
  lemma FilledBlock(seeds: Slots, g: nat, blocks: nat, i: nat, n: nat)
    requires g > 0 && |seeds| == blocks * g && n < blocks && n * g <= i < n * g + g && OnlyStarts(seeds, g)
    ensures i < |seeds| && n * g < |seeds|
    ensures ShiftSumAt(seeds, g, -1, i) == seeds[n * g]
  {
    hide *;
    MulMonotone(n + 1, blocks, g);
    PreviousBlock(n, blocks, g);
    var home := n * g;
    var f := ShiftTerm(seeds, i, -1);
    forall q: nat | q < g
      ensures f(q) == if q == i - home then seeds[home] else 0.0
    {
      FillTerm(seeds, g, blocks, i, n, home, q);
    }
    SumPoint(g, f, i - home);
    ShiftSumIs(seeds, g, -1, i);
  }

  lemma ShiftSumIs(v: Slots, count: nat, stride: int, i: int)
    ensures ShiftSumAt(v, count, stride, i) == Sum(count, ShiftTerm(v, i, stride))
  {
  }

  lemma BackwardTerm(v: Slots, i: int, q: nat)
    ensures ShiftTerm(v, i, -1)(q) == v[Wrap(i - q, |v|)]
  {
  }

  lemma FillTerm(seeds: Slots, g: nat, blocks: nat, i: nat, n: nat, home: int, q: nat)
    requires g > 0 && |seeds| == blocks * g && n < blocks && home == n * g && home <= i < home + g <= |seeds| && OnlyStarts(seeds, g) && q < g
    ensures ShiftTerm(seeds, i, -1)(q) == if q == i - home then seeds[home] else 0.0
  {
    hide *;
    BackwardTerm(seeds, i, q);
    PreviousBlock(n, blocks, g);
    var d := i - home;
    if q <= d {
      WrapSmall(i - q, |seeds|);
      OffSeed(seeds, g, n, d - q);
    } else if n == 0 {
      WrapTurn(i - q, 1, |seeds|);
      WrapSmall(i - q + |seeds|, |seeds|);
      OffSeed(seeds, g, blocks - 1, g + d - q);
    } else {
      WrapSmall(i - q, |seeds|);
      OffSeed(seeds, g, n - 1, g + d - q);
    }
  }

  lemma PreviousBlock(n: nat, blocks: nat, g: nat)
    requires n < blocks
    ensures n > 0 ==> AtOffset(n - 1, g, 0) + g == n * g
    ensures n == 0 ==> n * g == 0 && AtOffset(blocks - 1, g, 0) + g == blocks * g
  {
  }

  lemma OffSeed(seeds: Slots, g: nat, k: nat, d: nat)
    requires d < g && OnlyStarts(seeds, g)
    ensures AtOffset(k, g, d) == AtOffset(k, g, 0) + d == k * g + d
    ensures d > 0 && AtOffset(k, g, d) < |seeds| ==> seeds[AtOffset(k, g, d)] == 0.0
  {
  }

  // ----- B/C blocks

  predicate GeometryOk(stateSize: int, groupBlock: int, batch: int) {
    stateSize > 0 && groupBlock > 0 && batch > 0 && stateSize * groupBlock == batch
    && IsPowerOfTwo(stateSize) && IsPowerOfTwo(groupBlock)
  }

  /** Slot i of the dense specification: source entry base + i/groupBlock. */
  function BlockReference(conv: Slots, base: nat, stateSize: nat, groupBlock: nat): (r: Slots)
    requires groupBlock > 0 && stateSize * groupBlock == |conv| && base + stateSize <= |conv|
    ensures |r| == |conv|
  {
    seq(|conv|, i requires 0 <= i < |conv| => conv[base + BlockOf(i, stateSize, groupBlock)])
  }

  function BlockOf(i: nat, stateSize: nat, groupBlock: nat): (n: nat)
    requires groupBlock > 0 && i < stateSize * groupBlock
    ensures n < stateSize && n * groupBlock <= i < n * groupBlock + groupBlock
  {
    BlockStart(i, groupBlock, stateSize);
    i / groupBlock
  }

  method StateBlockReference(conv: Slots, base: int, stateSize: int, groupBlock: int) returns (r: Option<Slots>)
    ensures r.None? <==> !GeometryOk(stateSize, groupBlock, |conv|) || base < 0 || base + stateSize > |conv|
    ensures r.Some? ==> r.value == BlockReference(conv, base, stateSize, groupBlock)
  {
    hide IsPowerOfTwo, BlockOf;
    if stateSize <= 0 || groupBlock <= 0 || stateSize * groupBlock != |conv| || !IsPowerOfTwo(stateSize) || !IsPowerOfTwo(groupBlock) {
      return None;
    }
    if base < 0 || base + stateSize > |conv| {
      return None;
    }
    var output := Blank(|conv|);
    for state := 0 to stateSize
      invariant |output| == |conv|
      invariant forall i :: 0 <= i < |conv| && BlockOf(i, stateSize, groupBlock) < state ==>
                  output[i] == conv[base + BlockOf(i, stateSize, groupBlock)]
    {
      output := FillOne(conv, output, base, stateSize, groupBlock, state);
    }
    assert output == BlockReference(conv, base, stateSize, groupBlock);
    return Some(output);
  }

  /** output[start : start + groupBlock] = conv[base + state] */
  method FillOne(conv: Slots, output: Slots, base: nat, stateSize: nat, groupBlock: nat, state: nat) returns (r: Slots)
    requires groupBlock > 0 && stateSize * groupBlock == |conv| == |output| && base + stateSize <= |conv| && state < stateSize
    requires forall i :: 0 <= i < |conv| && BlockOf(i, stateSize, groupBlock) < state ==>
               output[i] == conv[base + BlockOf(i, stateSize, groupBlock)]
    ensures |r| == |conv|
    ensures forall i :: 0 <= i < |conv| && BlockOf(i, stateSize, groupBlock) < state + 1 ==>
              r[i] == conv[base + BlockOf(i, stateSize, groupBlock)]
  {
    hide BlockOf;
    r := output;
    var start := state * groupBlock;
    MulMonotone(state + 1, stateSize, groupBlock);
    for k := 0 to groupBlock
      invariant |r| == |conv|
      invariant forall i :: 0 <= i < |conv| ==> r[i] == if start <= i < start + k then conv[base + state] else output[i]
    {
      r := r[start + k := conv[base + state]];
    }
    forall i | 0 <= i < |conv| && BlockOf(i, stateSize, groupBlock) < state + 1
      ensures r[i] == conv[base + BlockOf(i, stateSize, groupBlock)]
    {
      BlockSide(i, BlockOf(i, stateSize, groupBlock), state, groupBlock);
    }
  }

  lemma BlockSide(i: nat, n: nat, state: nat, g: nat)
    requires n * g <= i < n * g + g
    ensures n == state <==> state * g <= i < state * g + g
  {
    if n < state {
      MulMonotone(n + 1, state, g);
    } else if n > state {
      MulMonotone(state + 1, n, g);
    }
  }

  /** The selected B/C region moved so that the requested branch starts at slot zero. */
  function Shifted(conv: Slots, base: nat, bcBase: nat, stateSize: nat): (s: Slots)
    ensures |s| == |conv|
  {
    seq(|conv|, k requires 0 <= k < |conv| =>
      var at := Wrap(k + base, |conv|); if bcBase <= at < bcBase + 2 * stateSize then conv[at] else 0.0)
  }

  /** Slot i of the fast form: every copy's entry at the start of the slot's block. */
  function Replicated(conv: Slots, base: nat, bcBase: nat, stateSize: nat, groupBlock: nat): (r: Slots)
    requires groupBlock > 0 && stateSize * groupBlock == |conv|
    ensures |r| == |conv|
  {
    seq(|conv|, i requires 0 <= i < |conv| =>
      ShiftSumAt(Shifted(conv, base, bcBase, stateSize), stateSize, 1 - groupBlock, BlockOf(i, stateSize, groupBlock) * groupBlock))
  }

  predicate SourceOk(base: int, bcBase: int, stateSize: int, batch: int) {
    bcBase >= 0 && bcBase + 2 * stateSize <= batch && (base == bcBase || base == bcBase + stateSize)
  }

  method ReplicatedStateBlocks(conv: Slots, base: int, bcBase: int, stateSize: int, groupBlock: int) returns (r: Option<Slots>)
    ensures r.None? <==> !GeometryOk(stateSize, groupBlock, |conv|) || !SourceOk(base, bcBase, stateSize, |conv|)
    ensures r.Some? ==> r.value == Replicated(conv, base, bcBase, stateSize, groupBlock)
  {
    hide IsPowerOfTwo, BlockOf, Wrap, ShiftSum, ShiftSumAt, Shifted, Roll, Mask, Replicated;
    if stateSize <= 0 || groupBlock <= 0 || stateSize * groupBlock != |conv| || !IsPowerOfTwo(stateSize) || !IsPowerOfTwo(groupBlock) {
      return None;
    }
    if bcBase < 0 || bcBase + 2 * stateSize > |conv| {
      return None;
    }
    if base != bcBase && base != bcBase + stateSize {
      return None;
    }
    var batch := |conv|;
    var bcMask := seq(batch, k requires 0 <= k < batch => if bcBase <= k < bcBase + 2 * stateSize then 1.0 else 0.0);
    var shifted := Roll(Mask(conv, bcMask), -base);
    SelectAndShift(conv, base, bcBase, stateSize, bcMask);
    var replicated := FillByDoubling(shifted, stateSize, groupBlock - 1);
    var seedMask := seq(batch, k requires 0 <= k < batch => if k % groupBlock == 0 then 1.0 else 0.0);
    var seeds := Mask(replicated, seedMask);
    var output := FillByDoubling(seeds, groupBlock, 1);
    SeedsFill(conv, base, bcBase, stateSize, groupBlock, replicated, seedMask);
    return Some(output);
  }

  lemma SelectAndShift(conv: Slots, base: int, bcBase: nat, stateSize: nat, bcMask: Slots)
    requires |bcMask| == |conv| && base >= 0
    requires forall k :: 0 <= k < |conv| ==> bcMask[k] == if bcBase <= k < bcBase + 2 * stateSize then 1.0 else 0.0
    ensures Roll(Mask(conv, bcMask), -base) == Shifted(conv, base, bcBase, stateSize)
  {
    hide Wrap;
    forall k | 0 <= k < |conv|
      ensures Roll(Mask(conv, bcMask), -base)[k] == Shifted(conv, base, bcBase, stateSize)[k]
    {
      var at := Wrap(k + base, |conv|);
      assert Roll(Mask(conv, bcMask), -base)[k] == Times(conv[at], bcMask[at]);
    }
  }

  lemma SeedsFill(conv: Slots, base: nat, bcBase: nat, stateSize: nat, groupBlock: nat, replicated: Slots, seedMask: Slots)
    requires groupBlock > 0 && stateSize * groupBlock == |conv| == |replicated| == |seedMask|
    requires replicated == ShiftSum(Shifted(conv, base, bcBase, stateSize), stateSize, -(groupBlock - 1))
    requires forall k :: 0 <= k < |conv| ==> seedMask[k] == if k % groupBlock == 0 then 1.0 else 0.0
    ensures ShiftSum(Mask(replicated, seedMask), groupBlock, -1) == Replicated(conv, base, bcBase, stateSize, groupBlock)
  {
    hide BlockOf, Shifted, ShiftSumAt, Wrap, Mask, OnlyStarts;
    var seeds := Mask(replicated, seedMask);
    SeedsOnlyStarts(replicated, seedMask, groupBlock);
    forall i | 0 <= i < |conv|
      ensures ShiftSumAt(seeds, groupBlock, -1, i) == Replicated(conv, base, bcBase, stateSize, groupBlock)[i]
    {
      var n := BlockOf(i, stateSize, groupBlock);
      FilledBlock(seeds, groupBlock, stateSize, i, n);
      SeedKept(replicated, seedMask, groupBlock, n);
    }
  }

  lemma SeedKept(replicated: Slots, seedMask: Slots, g: nat, n: nat)
    requires g > 0 && |replicated| == |seedMask| && n * g < |replicated|
    requires forall k :: 0 <= k < |replicated| ==> seedMask[k] == if k % g == 0 then 1.0 else 0.0
    ensures Mask(replicated, seedMask)[n * g] == replicated[n * g]
  {
    ModUnique(n * g, g, n, 0);
  }

  lemma SeedsOnlyStarts(replicated: Slots, seedMask: Slots, g: nat)
    requires g > 0 && |replicated| == |seedMask|
    requires forall k :: 0 <= k < |replicated| ==> seedMask[k] == if k % g == 0 then 1.0 else 0.0
    ensures OnlyStarts(Mask(replicated, seedMask), g)
  {
    forall k, d | 0 <= d < g && 0 <= k && AtOffset(k, g, d) < |replicated| && d != 0
      ensures Mask(replicated, seedMask)[AtOffset(k, g, d)] == 0.0
    {
      NotAStart(k, g, d);
    }
  }

  lemma NotAStart(k: nat, g: nat, d: nat)
    requires 0 < d < g
    ensures AtOffset(k, g, d) >= 0 && AtOffset(k, g, d) % g != 0
  {
    ModUnique(AtOffset(k, g, d), g, k, d);
  }

  // ----- correctness

  /** Where copy q's entry for block n sits when blocks are at least twice as long as the state. */
  lemma CopyEntry(S: nat, G: nat, n: nat, q: nat)
    requires S > 0 && 2 * S <= G && n < S && q < S
    ensures S * G > 0
    ensures var at := Wrap(n * G - q * (G - 1), S * G); if q == n then at == n else G <= at && at + G < S * G + S
  {
    hide Wrap;
    var batch := S * G;
    MulMonotone(1, S, G);
    assert n * G - q * (G - 1) == (n - q) * G + q;
    if q == n {
      WrapSmall(n, batch);
    } else {
      var k := if q < n then n - q else S + n - q;
      MulMonotone(1, k, G);
      MulMonotone(k, S - 1, G);
      assert (S - 1) * G + G == batch;
      if q > n {
        assert (S + n - q) * G == (n - q) * G + batch;
        WrapTurn((n - q) * G + q, 1, batch);
      }
      WrapSmall(k * G + q, batch);
    }
  }

  /** The copy that belongs to block n carries its entry, every other copy carries zero there. */
  lemma CopyValue(conv: Slots, base: nat, bcBase: nat, S: nat, G: nat, n: nat, q: nat)
    requires S > 0 && 2 * S <= G && S * G == |conv| && SourceOk(base, bcBase, S, |conv|) && n < S && q < S
    ensures ShiftTerm(Shifted(conv, base, bcBase, S), n * G, 1 - G)(q) == if q == n then conv[base + n] else 0.0
  {
    hide Wrap;
    CopyEntry(S, G, n, q);
    assert n * G + q * (1 - G) == n * G - q * (G - 1);
    var at := Wrap(n * G + q * (1 - G), |conv|);
    if at + base < |conv| {
      WrapSmall(at + base, |conv|);
    } else {
      WrapTurn(at + base, -1, |conv|);
      WrapSmall(at + base - |conv|, |conv|);
    }
  }

  /** With blocks at least twice the state size, the fast form is the dense specification on every slot. */
  lemma ReplicatedIsReference(conv: Slots, base: nat, bcBase: nat, S: nat, G: nat)
    requires S > 0 && 2 * S <= G && S * G == |conv| && SourceOk(base, bcBase, S, |conv|)
    ensures base + S <= |conv| && Replicated(conv, base, bcBase, S, G) == BlockReference(conv, base, S, G)
  {
    hide Wrap, Sum, BlockOf, Shifted, ShiftTerm;
    forall i | 0 <= i < |conv|
      ensures Replicated(conv, base, bcBase, S, G)[i] == BlockReference(conv, base, S, G)[i]
    {
      var n := BlockOf(i, S, G);
      var f := ShiftTerm(Shifted(conv, base, bcBase, S), n * G, 1 - G);
      forall q: nat | q < S
        ensures f(q) == if q == n then conv[base + n] else 0.0
      {
        CopyValue(conv, base, bcBase, S, G, n, q);
      }
      SumPoint(S, f, n);
    }
  }

  function Indicator(batch: nat, at: nat): (s: Slots)
    requires batch > 0
    ensures |s| == batch
  {
    seq(batch, i requires 0 <= i < batch => if i == at then 1.0 else 0.0)
  }

  /** The source slot whose value leaks, the block it leaks into, and the copy that brings it. */
  function LeakSlot(base: nat, bcBase: nat, S: nat, G: nat): int {
    if base == bcBase then bcBase + G else bcBase + S - G + 1
  }

  /** Shorter blocks leak: an indicator of one source slot reaches a block that must stay zero. */
  lemma ShortBlocksLeak(base: nat, bcBase: nat, S: nat, G: nat)
    requires GeometryOk(S, G, S * G) && SourceOk(base, bcBase, S, S * G) && G < 2 * S
    ensures 0 <= LeakSlot(base, bcBase, S, G) < S * G && base + S <= S * G
    ensures var conv := Indicator(S * G, LeakSlot(base, bcBase, S, G));
            Replicated(conv, base, bcBase, S, G) != BlockReference(conv, base, S, G)
  {
    hide Wrap, Sum, BlockOf, Shifted, ShiftTerm, IsPowerOfTwo;
    var batch := S * G;
    PowersApart(G, S);
    GroupAtLeastTwo(S, G);
    var at := LeakSlot(base, bcBase, S, G);
    var conv := Indicator(batch, at);
    var n, q := if base == bcBase then 1 else 0, if base == bcBase then 0 else 1;
    MulMonotone(n + 1, S, G);
    var i := n * G;
    BlockSide(i, BlockOf(i, S, G), n, G);
    var f := ShiftTerm(Shifted(conv, base, bcBase, S), n * G, 1 - G);
    forall k: nat | k < S
      ensures f(k) >= 0.0
    {
      IndicatorTerm(conv, at, base, bcBase, S, G, n, k);
    }
    if base == bcBase {
      LeakFromB(conv, bcBase, S, G);
    } else {
      LeakFromC(conv, bcBase, S, G);
    }
    SumAtLeast(S, f, q);
    assert Replicated(conv, base, bcBase, S, G)[i] >= 1.0;
    assert BlockReference(conv, base, S, G)[i] == conv[base + n] == 0.0;
  }

  lemma GroupAtLeastTwo(S: nat, G: nat)
    requires S > 0 && 2 * S <= S * G
    ensures G >= 2
  {
    if G < 2 {
      MulMonotone(G, 1, S);
      assert false;
    }
  }

  lemma IndicatorTerm(conv: Slots, at: nat, base: nat, bcBase: nat, S: nat, G: nat, n: nat, k: nat)
    requires conv == Indicator(|conv|, at)
    ensures ShiftTerm(Shifted(conv, base, bcBase, S), n * G, 1 - G)(k) >= 0.0
  {
    hide Wrap;
    var shifted := Shifted(conv, base, bcBase, S);
    forall j | 0 <= j < |conv|
      ensures shifted[j] >= 0.0
    {
      assert conv[Wrap(j + base, |conv|)] >= 0.0;
    }
    assert ShiftTerm(shifted, n * G, 1 - G)(k) == shifted[Wrap(n * G + k * (1 - G), |conv|)];
  }

  lemma ShiftedEntry(conv: Slots, base: nat, bcBase: nat, S: nat, start: int, stride: int, q: nat, at: nat, source: nat)
    requires at == Wrap(start + q * stride, |conv|) && source == Wrap(at + base, |conv|) && bcBase <= source < bcBase + 2 * S
    ensures ShiftTerm(Shifted(conv, base, bcBase, S), start, stride)(q) == conv[source]
  {
    hide Wrap;
  }

  lemma LeakFromB(conv: Slots, bcBase: nat, S: nat, G: nat)
    requires 2 <= G < 2 * S && bcBase + 2 * S <= |conv| && conv[bcBase + G] == 1.0
    ensures ShiftTerm(Shifted(conv, bcBase, bcBase, S), 1 * G, 1 - G)(0) == 1.0
  {
    hide *;
    WrapSmall(G, |conv|);
    WrapSmall(G + bcBase, |conv|);
    ShiftedEntry(conv, bcBase, bcBase, S, 1 * G, 1 - G, 0, G, G + bcBase);
  }

  lemma LeakFromC(conv: Slots, bcBase: nat, S: nat, G: nat)
    requires 2 <= G <= S && bcBase + 2 * S <= |conv| && conv[bcBase + S - G + 1] == 1.0
    ensures ShiftTerm(Shifted(conv, bcBase + S, bcBase, S), 0 * G, 1 - G)(1) == 1.0
  {
    hide *;
    var batch := |conv|;
    WrapTurn(1 - G, 1, batch);
    WrapSmall(1 - G + batch, batch);
    WrapTurn(1 - G + batch + bcBase + S, -1, batch);
    WrapSmall(1 - G + bcBase + S, batch);
    ShiftedEntry(conv, bcBase + S, bcBase, S, 0 * G, 1 - G, 1, 1 - G + batch, 1 - G + bcBase + S);
  }

  /** The exact condition: the fast form is right for every slot content if and only if group_block >= 2 * state_size. */
  lemma ReplicatedExactWhen(base: nat, bcBase: nat, S: nat, G: nat)
    requires GeometryOk(S, G, S * G) && SourceOk(base, bcBase, S, S * G)
    ensures base + S <= S * G
    ensures (forall conv: Slots :: |conv| == S * G ==> Replicated(conv, base, bcBase, S, G) == BlockReference(conv, base, S, G))
       <==> G >= 2 * S
  {
    hide Replicated, BlockReference, Indicator, LeakSlot;
    if G >= 2 * S {
      forall conv: Slots | |conv| == S * G
        ensures Replicated(conv, base, bcBase, S, G) == BlockReference(conv, base, S, G)
      {
        ReplicatedIsReference(conv, base, bcBase, S, G);
      }
    } else {
      ShortBlocksLeak(base, bcBase, S, G);
      var conv := Indicator(S * G, LeakSlot(base, bcBase, S, G));
      assert |conv| == S * G;
    }
  }

  // ----- grouped head values

  predicate HeadGeometryOk(heads: int, headDim: int, stateSize: int, groupHeads: int, batch: int) {
    heads > 0 && headDim > 0 && stateSize > 0 && groupHeads > 0 && batch > 0 && heads % groupHeads == 0
    && BlockSize(groupHeads, headDim) * stateSize == batch && IsPowerOfTwo(headDim) && IsPowerOfTwo(stateSize)
  }

  /** The slots of one head group. */
  function BlockSize(groupHeads: int, headDim: int): (s: int)
    ensures groupHeads > 0 && headDim > 0 ==> s > 0
  {
    groupHeads * headDim
  }

  function GroupStart(g: int, size: int): int {
    g * size
  }

  /** The dense specification for one group: each head value over head_dim slots, the block over the whole batch. */
  function HeadBlocks(values: seq<real>, headDim: nat, groupHeads: nat, group: nat, batch: nat): (s: Slots)
    requires headDim > 0 && groupHeads > 0 && (group + 1) * groupHeads <= |values| && batch > 0
    ensures |s| == batch
  {
    Tiled(GroupBlock(values, headDim, groupHeads, group), batch, batch)
  }

  function GroupBlock(values: seq<real>, headDim: nat, groupHeads: nat, group: nat): (b: seq<real>)
    requires headDim > 0 && groupHeads > 0 && (group + 1) * groupHeads <= |values|
    ensures |b| == BlockSize(groupHeads, headDim) > 0
  {
    var size := BlockSize(groupHeads, headDim);
    seq(size, t requires 0 <= t < size => values[GroupHead(values, headDim, groupHeads, group, t)])
  }

  function GroupHead(values: seq<real>, headDim: nat, groupHeads: nat, group: nat, t: nat): (h: nat)
    requires headDim > 0 && (group + 1) * groupHeads <= |values| && t < BlockSize(groupHeads, headDim)
    ensures h < |values|
  {
    assert (group + 1) * groupHeads == group * groupHeads + groupHeads;
    group * groupHeads + BlockOf(t, groupHeads, headDim)
  }

  /** Every head value over its own head_dim slots, zero beyond. */
  function AllHeads(values: seq<real>, headDim: nat, batch: nat): (s: Slots)
    requires headDim > 0 && batch > 0
    ensures |s| == batch
  {
    seq(batch, i requires 0 <= i < batch => if i < |values| * headDim then values[BlockOf(i, |values|, headDim)] else 0.0)
  }

  datatype Expansion = BadGeometry | OutOfSlots | Expanded(groups: seq<Slots>)

  /** Expand all heads once, then cut out and state-fill each group. */
  method SharedGroupedHeadExpansion(values: seq<real>, headDim: int, stateSize: int, groupHeads: int, batch: int) returns (r: Expansion)
    ensures r.BadGeometry? <==> !HeadGeometryOk(|values|, headDim, stateSize, groupHeads, batch)
    ensures r.OutOfSlots? <==> HeadGeometryOk(|values|, headDim, stateSize, groupHeads, batch) && |values| / groupHeads > stateSize
    ensures r.Expanded? ==> |r.groups| == |values| / groupHeads
    ensures r.Expanded? ==> forall g: nat :: g < |r.groups| ==>
              headDim > 0 && groupHeads > 0 && batch > 0 && HasGroup(values, headDim, groupHeads, g, batch, r.groups[g])
  {
    hide *;
    HeadGeometryMeans(|values|, headDim, stateSize, groupHeads, batch);
    if |values| <= 0 || headDim <= 0 || stateSize <= 0 || groupHeads <= 0 || batch <= 0 {
      return BadGeometry;
    }
    var size := BlockSize(groupHeads, headDim);
    if |values| % groupHeads != 0 || size * stateSize != batch {
      return BadGeometry;
    }
    if !IsPowerOfTwo(headDim) || !IsPowerOfTwo(stateSize) {
      return BadGeometry;
    }
    var groups := |values| / groupHeads;
    HeadsFit(|values|, headDim, stateSize, groupHeads, batch, groups);
    if GroupStart(|values| - 1, headDim) >= batch {
      return OutOfSlots;
    }
    var spread := seq(batch, i requires 0 <= i < batch => SpreadValue(values, headDim, i));
    var allHeads := FillByDoubling(spread, headDim, 1);
    SpreadFills(values, headDim, batch, groupHeads * stateSize, spread);
    var outputs := [];
    for g := 0 to groups
      invariant |outputs| == g
      invariant forall k: nat :: k < g ==> HasGroup(values, headDim, groupHeads, k, batch, outputs[k])
    {
      GroupInside(|values|, headDim, stateSize, groupHeads, batch, groups, g);
      var start := GroupStart(g, size);
      var block := allHeads[start..start + size];
      var seed := SeedSlots(block, batch);
      CopiesTile(block, size, stateSize, batch);
      var filled := FillByDoubling(seed, stateSize, size);
      CutBlock(values, headDim, groupHeads, g, batch, stateSize, allHeads, block);
      outputs := outputs + [filled];
    }
    return Expanded(outputs);
  }

  ghost predicate HasGroup(values: seq<real>, headDim: nat, groupHeads: nat, group: nat, batch: nat, s: Slots)
    requires headDim > 0 && groupHeads > 0 && batch > 0
  {
    (group + 1) * groupHeads <= |values| && s == HeadBlocks(values, headDim, groupHeads, group, batch)
  }

  /** all_heads[np.arange(size) * head_dim] = values */
  function SpreadValue(values: seq<real>, headDim: nat, i: nat): real
    requires headDim > 0
  {
    if i % headDim == 0 && i / headDim < |values| then values[i / headDim] else 0.0
  }

  lemma HeadGeometryMeans(heads: int, headDim: int, stateSize: int, groupHeads: int, batch: int)
    ensures HeadGeometryOk(heads, headDim, stateSize, groupHeads, batch) <==>
            heads > 0 && headDim > 0 && stateSize > 0 && groupHeads > 0 && batch > 0 && heads % groupHeads == 0
            && BlockSize(groupHeads, headDim) * stateSize == batch && IsPowerOfTwo(headDim) && IsPowerOfTwo(stateSize)
  {
  }

  /** The indexed store stays inside the batch exactly when there are at most state_size groups. */
  lemma HeadsFit(heads: nat, headDim: int, stateSize: int, groupHeads: int, batch: int, groups: nat)
    requires heads > 0 && headDim > 0 && stateSize > 0 && groupHeads > 0 && heads % groupHeads == 0 && groups == heads / groupHeads
    requires BlockSize(groupHeads, headDim) * stateSize == batch
    ensures GroupStart(heads - 1, headDim) >= batch <==> groups > stateSize
    ensures groups <= stateSize ==> heads * headDim <= batch
    ensures groupHeads * stateSize * headDim == batch
  {
    var block := BlockSize(groupHeads, headDim);
    HeadSlots(heads, headDim, groupHeads, groups);
    BatchSlots(headDim, stateSize, groupHeads);
    MulMonotone(1, groupHeads, headDim);
    hide BlockSize;
    if groups > stateSize {
      MulMonotone(stateSize + 1, groups, block);
    } else {
      MulMonotone(groups, stateSize, block);
    }
  }

  lemma HeadSlots(heads: nat, headDim: int, groupHeads: int, groups: nat)
    requires groupHeads > 0 && heads % groupHeads == 0 && groups == heads / groupHeads
    ensures heads * headDim == groups * BlockSize(groupHeads, headDim)
    ensures GroupStart(heads - 1, headDim) == heads * headDim - headDim
    ensures BlockSize(groupHeads, headDim) == groupHeads * headDim
  {
    assert heads == groups * groupHeads;
  }

  lemma BatchSlots(headDim: int, stateSize: int, groupHeads: int)
    ensures groupHeads * stateSize * headDim == BlockSize(groupHeads, headDim) * stateSize
  {
  }

  lemma SpreadFills(values: seq<real>, headDim: nat, batch: nat, blocks: nat, spread: Slots)
    requires headDim > 0 && batch == blocks * headDim && |spread| == batch && |values| * headDim <= batch
    requires forall i :: 0 <= i < batch ==> spread[i] == SpreadValue(values, headDim, i)
    ensures ShiftSum(spread, headDim, -1) == AllHeads(values, headDim, batch)
  {
    hide BlockOf, Wrap, ShiftSumAt, OnlyStarts, SpreadValue;
    SpreadOnlyStarts(values, headDim, spread);
    forall i | 0 <= i < batch
      ensures ShiftSumAt(spread, headDim, -1, i) == AllHeads(values, headDim, batch)[i]
    {
      var n := BlockOf(i, blocks, headDim);
      FilledBlock(spread, headDim, blocks, i, n);
      SpreadAt(values, headDim, n);
      if i < |values| * headDim {
        BlockSide(i, BlockOf(i, |values|, headDim), n, headDim);
      } else if n < |values| {
        MulMonotone(n + 1, |values|, headDim);
      }
    }
  }

  lemma SpreadAt(values: seq<real>, headDim: nat, n: nat)
    requires headDim > 0
    ensures n * headDim >= 0 && SpreadValue(values, headDim, n * headDim) == if n < |values| then values[n] else 0.0
  {
    ModUnique(n * headDim, headDim, n, 0);
  }

  lemma SpreadOnlyStarts(values: seq<real>, headDim: nat, spread: Slots)
    requires headDim > 0 && forall i :: 0 <= i < |spread| ==> spread[i] == SpreadValue(values, headDim, i)
    ensures OnlyStarts(spread, headDim)
  {
    forall k, d | 0 <= d < headDim && 0 <= k && AtOffset(k, headDim, d) < |spread| && d != 0
      ensures spread[AtOffset(k, headDim, d)] == 0.0
    {
      NotAStart(k, headDim, d);
    }
  }

  lemma GroupInside(heads: nat, headDim: int, stateSize: int, groupHeads: int, batch: int, groups: nat, g: nat)
    requires headDim > 0 && stateSize > 0 && groupHeads > 0 && heads % groupHeads == 0 && groups == heads / groupHeads && g < groups
    requires BlockSize(groupHeads, headDim) * stateSize == batch && heads * headDim <= batch
    ensures (g + 1) * groupHeads <= heads
    ensures var size := BlockSize(groupHeads, headDim);
            0 <= GroupStart(g, size) && GroupStart(g, size) + size <= batch && size <= batch && stateSize * size == batch
  {
    MulMonotone(g + 1, groups, groupHeads);
    var block := BlockSize(groupHeads, headDim);
    assert heads * headDim == groups * block;
    MulMonotone(g + 1, groups, block);
    MulMonotone(1, stateSize, block);
  }

  /** The slice cut from the expanded heads is the group's own block. */
  lemma CutBlock(values: seq<real>, headDim: nat, groupHeads: nat, g: nat, batch: nat, stateSize: nat, allHeads: Slots, block: seq<real>)
    requires headDim > 0 && groupHeads > 0 && batch > 0 && (g + 1) * groupHeads <= |values| && |values| * headDim <= batch
    requires var size := BlockSize(groupHeads, headDim);
             && stateSize * size == batch && 0 <= GroupStart(g, size) && GroupStart(g, size) + size <= |allHeads|
             && block == allHeads[GroupStart(g, size)..GroupStart(g, size) + size]
    requires allHeads == AllHeads(values, headDim, batch)
    ensures HasGroup(values, headDim, groupHeads, g, batch, Tiled(block, stateSize * BlockSize(groupHeads, headDim), batch))
  {
    hide BlockOf, GroupStart, BlockSize, GroupHead, Tiled;
    var size := BlockSize(groupHeads, headDim);
    forall t | 0 <= t < size
      ensures block[t] == GroupBlock(values, headDim, groupHeads, g)[t]
    {
      CutIndex(values, headDim, groupHeads, g, t);
    }
    assert block == GroupBlock(values, headDim, groupHeads, g);
  }

  lemma CutIndex(values: seq<real>, headDim: nat, groupHeads: nat, g: nat, t: nat)
    requires headDim > 0 && (g + 1) * groupHeads <= |values| && t < BlockSize(groupHeads, headDim)
    ensures 0 <= GroupStart(g, BlockSize(groupHeads, headDim)) + t < |values| * headDim
    ensures BlockOf(GroupStart(g, BlockSize(groupHeads, headDim)) + t, |values|, headDim) == GroupHead(values, headDim, groupHeads, g, t)
  {
    hide BlockOf;
    var n := BlockOf(t, groupHeads, headDim);
    var i := g * (groupHeads * headDim) + t;
    assert (g * groupHeads + n) * headDim == g * (groupHeads * headDim) + n * headDim;
    assert (g + 1) * groupHeads == g * groupHeads + groupHeads;
    MulMonotone(g * groupHeads + n + 1, |values|, headDim);
    BlockSide(i, BlockOf(i, |values|, headDim), g * groupHeads + n, headDim);
  }

  /** Two heads in groups of one, one state, one slot: the geometry is accepted and the second head is stored behind the batch. */
  method SecondGroupHasNoSlot(first: real, second: real) returns (r: Expansion)
    ensures HeadGeometryOk(2, 1, 1, 1, 1) && GroupStart(1, 1) == 1
    ensures r == OutOfSlots
  {
    r := SharedGroupedHeadExpansion([first, second], 1, 1, 1, 1);
  }
}
