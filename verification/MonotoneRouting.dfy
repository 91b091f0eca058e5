/** native/fideslib_stage0/include/packed_routing.hpp, monotone_routing and packed_routing_masks. */
module MonotoneRouting {
  import opened Wrappers
  import opened Sums
  import opened SlotVectors

  /** A stage: for every rotation the positions it moves. */
  type Stage = map<int, seq<nat>>

  // ----- digits of a distance

  /** The part of d at or above the digit of weight m. */
  function Above(d: nat, m: nat): (r: nat)
    requires m > 0
    ensures r <= d
  {
    AboveBound(d, m);
    d / m * m
  }

  lemma AboveBound(d: nat, m: nat)
    requires m > 0
    ensures 0 <= d / m * m <= d
  {
    var q := d / m;
    assert d == q * m + d % m;
    if q < 0 {
      MulMonotone(q, -1, m);
    } else {
      MulMonotone(0, q, m);
    }
  }

  /** ((d >> shift) & (radix - 1)) << shift */
  function Digit(d: nat, m: nat, radix: nat): int
    requires m > 0 && radix > 0
  {
    d / m % radix * m
  }

  /** One stage takes exactly the digit between two weights. */
  lemma DigitBetween(d: nat, m: nat, radix: nat)
    requires m > 0 && radix > 0
    ensures m * radix > 0 && Above(d, m) == Above(d, m * radix) + Digit(d, m, radix)
    ensures Digit(d, m, radix) >= 0
  {
    hide *;
    var q, r := d / m, d % m;
    var p, s := q / radix, q % radix;
    DivideParts(d, m);
    DivideParts(q, radix);
    Grouped(p, radix, s, m);
    MulMonotone(0, s, m);
    MulMonotone(s + 1, radix, m);
    ModUnique(d, m * radix, p, s * m + r);
    AboveMeans(d, m);
    AboveMeans(d, m * radix);
    DigitMeans(d, m, radix);
  }

  lemma AboveMeans(d: nat, m: nat)
    requires m > 0
    ensures Above(d, m) == d / m * m
  {
  }

  lemma DigitMeans(d: nat, m: nat, radix: nat)
    requires m > 0 && radix > 0
    ensures Digit(d, m, radix) == d / m % radix * m
  {
  }

  lemma DivideParts(x: nat, b: nat)
    requires b > 0
    ensures x / b >= 0 && 0 <= x % b < b && x == x / b * b + x % b
  {
    if x / b < 0 {
      MulMonotone(x / b, -1, b);
    }
  }

  lemma Grouped(p: nat, radix: nat, s: nat, m: nat)
    requires m > 0 && radix > 0
    ensures m * radix > 0 && (p * radix + s) * m == p * (m * radix) + s * m && radix * m == m * radix
    ensures (s + 1) * m == s * m + m
  {
    MulMonotone(1, radix, m);
    calc {
      (p * radix + s) * m;
      p * radix * m + s * m;
      p * (radix * m) + s * m;
    }
  }

  lemma AboveMonotone(d: nat, e: nat, m: nat)
    requires m > 0 && d <= e
    ensures Above(d, m) <= Above(e, m)
  {
    var q, p := d / m, e / m;
    assert d == q * m + d % m && e == p * m + e % m;
    if q > p {
      MulMonotone(p + 1, q, m);
    } else {
      MulMonotone(q, p, m);
    }
  }

  lemma AboveAll(d: nat, m: nat)
    requires m > 0
    ensures m == 1 ==> Above(d, m) == d
    ensures d < m ==> Above(d, m) == 0
  {
    if d < m {
      ModUnique(d, m, 0, d);
    }
  }

  lemma {:induction false} Pow2Add(a: nat, b: nat)
    ensures Pow2(a + b) == Pow2(a) * Pow2(b)
    decreases b
  {
    if b > 0 {
      Pow2Add(a, b - 1);
      assert Pow2(a) * (2 * Pow2(b - 1)) == 2 * (Pow2(a) * Pow2(b - 1));
    }
  }

  // ----- positions

  predicate Increasing(s: seq<nat>) {
    forall i, j :: 0 <= i < j < |s| ==> s[i] < s[j]
  }

  /** What the program checks entry by entry; indices are integers. */
  predicate Accepted(indices: seq<int>) {
    forall i :: 0 <= i < |indices| ==> i <= indices[i] < 32768 && (i > 0 ==> indices[i] > indices[i - 1])
  }

  lemma {:induction false} AcceptedOrder(indices: seq<int>, i: nat, j: nat)
    requires Accepted(indices) && i < j < |indices|
    ensures indices[j] - j >= indices[i] - i
    decreases j
  {
    if i < j - 1 {
      AcceptedOrder(indices, i, j - 1);
    }
  }

  /** Where the values are when the digits below 2^shift have been dealt with. */
  function Positions(indices: seq<int>, shift: nat): (p: seq<nat>)
    requires Accepted(indices)
    ensures |p| == |indices|
  {
    seq(|indices|, i requires 0 <= i < |indices| => i + Above(indices[i] - i, Pow2(shift)))
  }

  /** At every shift the live positions are distinct, in order and no higher than the indices. */
  lemma PositionsDistinct(indices: seq<int>, shift: nat)
    requires Accepted(indices)
    ensures Increasing(Positions(indices, shift))
    ensures forall i :: 0 <= i < |indices| ==> i <= Positions(indices, shift)[i] <= indices[i]
  {
    forall i, j | 0 <= i < j < |indices|
      ensures Positions(indices, shift)[i] < Positions(indices, shift)[j]
    {
      AcceptedOrder(indices, i, j);
      AboveMonotone(indices[i] - i, indices[j] - j, Pow2(shift));
    }
  }

  function Iota(n: nat): seq<nat> {
    seq(n, i requires 0 <= i < n => i)
  }

  lemma PositionsEnds(indices: seq<int>, shift: nat)
    requires Accepted(indices)
    ensures Positions(indices, 0) == indices
    ensures (forall i :: 0 <= i < |indices| ==> indices[i] - i < Pow2(shift)) ==> Positions(indices, shift) == Iota(|indices|)
  {
    forall i | 0 <= i < |indices|
      ensures Positions(indices, 0)[i] == indices[i]
      ensures indices[i] - i < Pow2(shift) ==> Positions(indices, shift)[i] == i
    {
      AboveAll(indices[i] - i, Pow2(0));
      AboveAll(indices[i] - i, Pow2(shift));
    }
  }

  lemma PositionsNext(indices: seq<int>, shift: nat, bits: nat, i: nat)
    requires Accepted(indices) && i < |indices|
    ensures Positions(indices, shift)[i]
         == Positions(indices, shift + bits)[i] + Digit(indices[i] - i, Pow2(shift), Pow2(bits))
  {
    Pow2Add(shift, bits);
    DigitBetween(indices[i] - i, Pow2(shift), Pow2(bits));
  }

  // ----- one stage

  function Rotation(from: int, to: int): int {
    from - to
  }

  /** The positions that move by one rotation, in order. */
  function Chosen(from: seq<nat>, to: seq<nat>, offset: int): seq<nat>
    requires |from| == |to|
    decreases |from|
  {
    var n := |from| - 1;
    if n < 0 then [] else
      Chosen(from[..n], to[..n], offset) + if Rotation(from[n], to[n]) == offset then [from[n]] else []
  }

  /** The stage moves value i from position from[i] to position to[i], and nothing else. */
  ghost predicate Moves(stage: Stage, from: seq<nat>, to: seq<nat>) {
    && |from| == |to|
    && forall offset :: Entry(stage, offset) == Chosen(from, to, offset)
  }

  function Entry(stage: Stage, offset: int): seq<nat> {
    if offset in stage then stage[offset] else []
  }

  lemma {:induction false} ChosenHas(from: seq<nat>, to: seq<nat>, offset: int, i: nat)
    requires |from| == |to| && i < |from| && Rotation(from[i], to[i]) == offset
    ensures from[i] in Chosen(from, to, offset)
    decreases |from|
  {
    var n := |from| - 1;
    if i < n {
      ChosenHas(from[..n], to[..n], offset, i);
    }
  }

  lemma {:induction false} ChosenFrom(from: seq<nat>, to: seq<nat>, offset: int, k: nat) returns (i: nat)
    requires |from| == |to| && k < |Chosen(from, to, offset)|
    ensures i < |from| && from[i] == Chosen(from, to, offset)[k] && Rotation(from[i], to[i]) == offset
    decreases |from|
  {
    var n := |from| - 1;
    var front := Chosen(from[..n], to[..n], offset);
    if k < |front| {
      i := ChosenFrom(from[..n], to[..n], offset, k);
    } else {
      i := n;
    }
  }

  /** Groups the moves of one digit by their rotation. */
  method BuildStage(indices: seq<int>, positions: seq<nat>, scatter: bool, shift: nat, bits: nat) returns (stage: Stage, next: seq<nat>)
    requires Accepted(indices)
    requires positions == Positions(indices, if scatter then shift + bits else shift)
    ensures next == Positions(indices, if scatter then shift else shift + bits)
    ensures Moves(stage, positions, next)
  {
    hide Positions, Digit, Accepted, Chosen;
    stage, next := map[], [];
    EmptyStage();
    ghost var goal := Positions(indices, if scatter then shift else shift + bits);
    for i := 0 to |indices|
      invariant |next| == i && next == goal[..i]
      invariant Moves(stage, positions[..i], next)
    {
      Distance(indices, i);
      var distance := Digit(indices[i] - i, Pow2(shift), Pow2(bits));
      PositionsNext(indices, shift, bits, i);
      var offset := if scatter then -distance else distance;
      var to := positions[i] - offset;
      assert to == goal[i];
      ghost var before := stage;
      stage := Push(stage, offset, positions[i]);
      PushMoves(before, positions[..i], next, offset, positions[i], to);
      next := next + [to];
      assert positions[..i + 1] == positions[..i] + [positions[i]];
    }
    assert positions[..|indices|] == positions && goal[..|indices|] == goal;
  }

  lemma EmptyStage()
    ensures Moves(map[], [], [])
  {
  }

  lemma Distance(indices: seq<int>, i: nat)
    requires Accepted(indices) && i < |indices|
    ensures indices[i] - i >= 0
  {
  }

  function Push(stage: Stage, offset: int, position: nat): Stage {
    stage[offset := Entry(stage, offset) + [position]]
  }

  lemma PushMoves(stage: Stage, from: seq<nat>, to: seq<nat>, offset: int, position: nat, target: nat)
    requires Moves(stage, from, to) && Rotation(position, target) == offset
    ensures Moves(Push(stage, offset, position), from + [position], to + [target])
  {
    var pushed, from1, to1 := Push(stage, offset, position), from + [position], to + [target];
    var n := |from|;
    assert from1[..n] == from && to1[..n] == to;
    forall o
      ensures Entry(pushed, o) == Chosen(from1, to1, o)
    {
      assert Entry(stage, o) == Chosen(from, to, o);
    }
  }

  // ----- all stages

  /** Digits of base 2^bits that a number has. */
  function DigitCount(maximum: nat, bits: nat): nat
    requires bits > 0
    decreases maximum
  {
    if maximum == 0 then 0 else
      HalvesSmaller(maximum, bits);
      1 + DigitCount(maximum / Pow2(bits), bits)
  }

  lemma DigitCountZero(bits: nat)
    requires bits > 0
    ensures DigitCount(0, bits) == 0
  {
  }

  lemma DigitCountStep(maximum: nat, bits: nat)
    requires bits > 0 && maximum > 0
    ensures 0 <= maximum / Pow2(bits) < maximum && DigitCount(maximum, bits) == 1 + DigitCount(maximum / Pow2(bits), bits)
  {
    HalvesSmaller(maximum, bits);
  }

  lemma HalvesSmaller(x: nat, bits: nat)
    requires bits > 0 && x > 0
    ensures 0 <= x / Pow2(bits) < x
  {
    var p, q := Pow2(bits), x / Pow2(bits);
    assert p >= 2;
    assert x == q * p + x % p;
    if q >= x {
      MulMonotone(2, p, q);
    } else if q < 0 {
      MulMonotone(q, -1, p);
    }
  }

  /** A number with k digits lies between the k-th and the (k+1)-th power of the base. */
  lemma {:induction false} DigitCountBounds(maximum: nat, bits: nat)
    requires bits > 0
    ensures maximum < Pow2(Shifted(DigitCount(maximum, bits), bits))
    ensures maximum > 0 ==> DigitCount(maximum, bits) > 0 && Pow2(Shifted(DigitCount(maximum, bits) - 1, bits)) <= maximum
    decreases maximum
  {
    hide *;
    PowZero();
    ShiftedNone(bits);
    DigitCountZero(bits);
    if maximum > 0 {
      DigitCountStep(maximum, bits);
      var q := maximum / Pow2(bits);
      DigitCountBounds(q, bits);
      var k := DigitCount(q, bits);
      PowNext(k, bits);
      QuotientBelow(maximum, Pow2(bits), Pow2(Shifted(k, bits)));
      if k > 0 {
        PowNext(k - 1, bits);
        QuotientAbove(maximum, Pow2(bits), Pow2(Shifted(k - 1, bits)));
      }
    }
  }

  lemma PowNext(k: nat, bits: nat)
    ensures Pow2(Shifted(k + 1, bits)) == Pow2(Shifted(k, bits)) * Pow2(bits)
  {
    hide Shifted;
    ShiftedNext(k, bits);
    Pow2Add(Shifted(k, bits), bits);
  }

  lemma QuotientBelow(x: nat, p: nat, most: nat)
    requires p > 0 && x / p < most
    ensures x < most * p
  {
    MulMonotone(x / p + 1, most, p);
    assert x == x / p * p + x % p;
  }

  lemma QuotientAbove(x: nat, p: nat, least: nat)
    requires p > 0 && least <= x / p
    ensures least * p <= x
  {
    MulMonotone(least, x / p, p);
    assert x == x / p * p + x % p;
  }

  lemma PowZero()
    ensures Pow2(0) == 1
  {
  }

  /** The k-th entry of the shift list. */
  function Shifted(k: nat, bits: nat): nat {
    if k == 0 then 0 else Shifted(k - 1, bits) + bits
  }

  lemma ShiftedNext(k: nat, bits: nat)
    ensures Shifted(k + 1, bits) == Shifted(k, bits) + bits
  {
  }

  lemma ShiftedNone(bits: nat)
    ensures Shifted(0, bits) == 0
  {
  }

  function MaxDistance(indices: seq<int>): int {
    if |indices| == 0 then 0 else indices[|indices| - 1] - (|indices| - 1)
  }

  lemma DistanceBound(indices: seq<int>, i: nat)
    requires Accepted(indices) && i < |indices|
    ensures 0 <= indices[i] - i <= MaxDistance(indices)
  {
    if i < |indices| - 1 {
      AcceptedOrder(indices, i, |indices| - 1);
    }
  }

  lemma MaxDistanceNat(indices: seq<int>)
    requires Accepted(indices)
    ensures MaxDistance(indices) >= 0
  {
  }

  function StageCount(indices: seq<int>, bits: nat): (n: nat)
    requires Accepted(indices) && bits > 0
    ensures n > 0
  {
    MaxDistanceNat(indices);
    var digits := DigitCount(MaxDistance(indices), bits);
    if digits == 0 then 1 else digits
  }

  /** Positions before stage k; a scatter takes the digits from the top. */
  function Before(indices: seq<int>, scatter: bool, bits: nat, count: nat, k: nat): (p: seq<nat>)
    requires Accepted(indices) && k <= count
    ensures |p| == |indices|
  {
    Positions(indices, Shifted(if scatter then count - k else k, bits))
  }

  /** Every stage moves the values from where the previous one left them. */
  ghost predicate Routes(indices: seq<int>, scatter: bool, bits: nat, stages: seq<Stage>) {
    && Accepted(indices) && bits > 0 && |stages| == StageCount(indices, bits)
    && forall k :: 0 <= k < |stages| ==>
         Moves(stages[k], Before(indices, scatter, bits, |stages|, k), Before(indices, scatter, bits, |stages|, k + 1))
  }

  lemma RouteEnds(indices: seq<int>, scatter: bool, bits: nat, count: nat)
    requires Accepted(indices) && bits > 0 && count == StageCount(indices, bits)
    ensures Before(indices, scatter, bits, count, 0) == if scatter then Iota(|indices|) else indices
    ensures Before(indices, scatter, bits, count, count) == if scatter then indices else Iota(|indices|)
  {
    hide Positions, Pow2;
    MaxDistanceNat(indices);
    var maximum := MaxDistance(indices);
    DigitCountBounds(maximum, bits);
    PowPositive(Shifted(count, bits));
    forall i | 0 <= i < |indices|
      ensures indices[i] - i < Pow2(Shifted(count, bits))
    {
      DistanceBound(indices, i);
    }
    PositionsEnds(indices, Shifted(count, bits));
  }

  lemma PowPositive(k: nat)
    ensures Pow2(k) >= 1
  {
  }

  /** The stages that carry out a gather or a scatter; None where the program throws. */
  method PlanRouting(indices: seq<int>, scatter: bool, bits: int) returns (stages: Option<seq<Stage>>)
    ensures stages.Some? <==> 1 <= bits <= 4 && Accepted(indices)
    ensures stages.Some? ==> Routes(indices, scatter, bits, stages.value)
  {
    hide Positions, Pow2, Moves;
    if bits < 1 || bits > 4 {
      return None;
    }
    for i := 0 to |indices|
      invariant forall j :: 0 <= j < i ==> j <= indices[j] < 32768 && (j > 0 ==> indices[j] > indices[j - 1])
    {
      if indices[i] < i || indices[i] >= 32768 || (i > 0 && indices[i] <= indices[i - 1]) {
        return None;
      }
    }
    MaxDistanceNat(indices);
    var count := CountShifts(MaxDistance(indices), bits);
    RouteEnds(indices, scatter, bits, count);
    var positions: seq<nat> := if scatter then Iota(|indices|) else indices;
    var result := [];
    for k := 0 to count
      invariant |result| == k && positions == Before(indices, scatter, bits, count, k)
      invariant forall j :: 0 <= j < k ==>
                  Moves(result[j], Before(indices, scatter, bits, count, j), Before(indices, scatter, bits, count, j + 1))
    {
      var digit := if scatter then count - 1 - k else k;
      ShiftedNext(digit, bits);
      var stage, next := BuildStage(indices, positions, scatter, Shifted(digit, bits), bits);
      result, positions := result + [stage], next;
    }
    return Some(result);
  }

  /** One shift per digit of the largest distance, and one even for distance zero. */
  method CountShifts(maximum: nat, bits: nat) returns (count: nat)
    requires bits > 0
    ensures count == if DigitCount(maximum, bits) == 0 then 1 else DigitCount(maximum, bits)
  {
    hide DigitCount, Pow2;
    DigitCountZero(bits);
    count := 0;
    var rest: nat := maximum;
    while rest != 0
      invariant count + DigitCount(rest, bits) == DigitCount(maximum, bits)
      decreases rest
    {
      DigitCountStep(rest, bits);
      rest := rest / Pow2(bits);
      count := count + 1;
    }
    if count == 0 {
      count := 1;
    }
  }

  // ----- what the stages do to a slot vector

  /** 1 at the listed slots. */
  function Selection(positions: seq<nat>, slots: nat): (m: Slots)
    requires slots > 0
    ensures |m| == slots
  {
    seq(slots, i requires 0 <= i < slots => if i in positions then 1.0 else 0.0)
  }

  function Targets(positions: seq<nat>, offset: int): seq<int> {
    seq(|positions|, k requires 0 <= k < |positions| => positions[k] - offset)
  }

  /** The rotation takes every position from a slot to a slot. */
  predicate StaysInside(positions: seq<nat>, offset: int, slots: nat) {
    forall k :: 0 <= k < |positions| ==> positions[k] < slots && 0 <= positions[k] - offset < slots
  }

  /** packed_routing_masks for one rotation; None where the program throws. */
  method DestinationMask(positions: seq<nat>, offset: int, slots: nat) returns (mask: Option<Slots>)
    requires slots > 0
    ensures mask.Some? <==> StaysInside(positions, offset, slots)
    ensures mask.Some? ==> |mask.value| == slots
    ensures mask.Some? ==> forall j :: 0 <= j < slots ==> mask.value[j] == if j in Targets(positions, offset) then 1.0 else 0.0
  {
    var result := Blank(slots);
    for k := 0 to |positions|
      invariant |result| == slots
      invariant forall i :: 0 <= i < k ==> positions[i] < slots && 0 <= positions[i] - offset < slots
      invariant forall j :: 0 <= j < slots ==> result[j] == if j in Targets(positions, offset)[..k] then 1.0 else 0.0
    {
      var destination := positions[k] - offset;
      if positions[k] >= slots || destination < 0 || destination >= slots {
        return None;
      }
      result := result[destination := 1.0];
      assert Targets(positions, offset)[..k + 1] == Targets(positions, offset)[..k] + [destination];
    }
    assert Targets(positions, offset)[..|positions|] == Targets(positions, offset);
    return Some(result);
  }

  /** Selecting sources and then rotating is rotating and then selecting destinations. */
  lemma MasksAgree(x: Slots, positions: seq<nat>, offset: int, mask: Slots)
    requires StaysInside(positions, offset, |x|)
    requires |mask| == |x| && forall j :: 0 <= j < |x| ==> mask[j] == if j in Targets(positions, offset) then 1.0 else 0.0
    ensures Roll(Mask(x, Selection(positions, |x|)), -offset) == Mask(Roll(x, -offset), mask)
  {
    hide Times, Wrap;
    var back := -offset;
    forall j | 0 <= j < |x|
      ensures Roll(Mask(x, Selection(positions, |x|)), back)[j] == Mask(Roll(x, back), mask)[j]
    {
      SelectedSame(positions, offset, j, |x|);
    }
  }

  lemma SelectedSame(positions: seq<nat>, offset: int, j: nat, slots: nat)
    requires j < slots
    requires StaysInside(positions, offset, slots)
    ensures j in Targets(positions, offset) <==> Wrap(j - (-offset), slots) in positions
  {
    hide Wrap;
    var source := Wrap(j - (-offset), slots);
    if j in Targets(positions, offset) {
      var k :| 0 <= k < |positions| && Targets(positions, offset)[k] == j;
      WrapSmall(positions[k], slots);
    }
    if source in positions {
      var k :| 0 <= k < |positions| && positions[k] == source;
      WrapAdd(j - (-offset), -offset, slots);
      WrapSmall(j, slots);
      WrapSmall(source - offset, slots);
      assert Targets(positions, offset)[k] == j;
    }
  }

  /** Slot to[i] holds x's slot from[i]; every other slot is empty. */
  ghost predicate Placed(y: Slots, x: Slots, from: seq<nat>, to: seq<nat>) {
    && |y| == |x| && |from| == |to|
    && (forall i :: 0 <= i < |from| ==> from[i] < |x| && to[i] < |y| && y[to[i]] == x[from[i]])
    && forall j :: 0 <= j < |y| && j !in to ==> y[j] == 0.0
  }

  /** The values whose rotation has been handled are in place; all other slots are empty. */
  ghost predicate Partly(y: Slots, x: Slots, from: seq<nat>, to: seq<nat>, offsets: set<int>) {
    && |y| == |x| && |from| == |to|
    && (forall i :: 0 <= i < |from| ==> from[i] < |x| && to[i] < |y|
                                        && y[to[i]] == if Rotation(from[i], to[i]) in offsets then x[from[i]] else 0.0)
    && forall j :: 0 <= j < |y| && j !in to ==> y[j] == 0.0
  }

  /** Rotates and adds one selection after the other. */
  method ApplyStage(stage: Stage, x: Slots, ghost from: seq<nat>, ghost to: seq<nat>) returns (y: Slots)
    requires Moves(stage, from, to) && Increasing(from) && Increasing(to)
    requires |from| == |to| && forall i :: 0 <= i < |from| ==> from[i] < |x| && to[i] < |x|
    ensures Placed(y, x, from, to)
  {
    hide Moves, Increasing, Partly, Placed, Roll, Mask, Selection;
    y := Blank(|x|);
    var left := stage.Keys;
    StartsEmpty(stage, x, from, to);
    while left != {}
      invariant left <= stage.Keys && |y| == |x| && Partly(y, x, from, to, stage.Keys - left)
      decreases left
    {
      HasElement(left);
      var offset :| offset in left;
      AddSelection(stage, x, from, to, offset, y, stage.Keys - left);
      y := Plus(y, Roll(Mask(x, Selection(stage[offset], |x|)), -offset));
      assert stage.Keys - (left - {offset}) == stage.Keys - left + {offset};
      left := left - {offset};
    }
    assert stage.Keys - left == stage.Keys;
    AllPlaced(stage, x, from, to, y);
  }

  lemma StartsEmpty(stage: Stage, x: Slots, from: seq<nat>, to: seq<nat>)
    requires |from| == |to| && forall i :: 0 <= i < |from| ==> from[i] < |x| && to[i] < |x|
    ensures Partly(Blank(|x|), x, from, to, stage.Keys - stage.Keys)
  {
  }

  lemma AllPlaced(stage: Stage, x: Slots, from: seq<nat>, to: seq<nat>, y: Slots)
    requires Moves(stage, from, to) && Partly(y, x, from, to, stage.Keys)
    ensures Placed(y, x, from, to)
  {
    hide Moves;
    AllListed(stage, from, to);
  }

  /** The positions listed under one rotation are those of the values with that distance. */
  lemma ListedAre(stage: Stage, from: seq<nat>, to: seq<nat>, offset: int, i: nat)
    requires Moves(stage, from, to) && Increasing(to) && offset in stage && i < |from|
    ensures to[i] in Targets(stage[offset], offset) <==> Rotation(from[i], to[i]) == offset
  {
    hide Moves;
    EntryOf(stage, from, to, offset);
    var list := stage[offset];
    if Rotation(from[i], to[i]) == offset {
      ChosenHas(from, to, offset, i);
      assert from[i] in list;
      var k :| 0 <= k < |list| && list[k] == from[i];
      assert Targets(list, offset)[k] == to[i];
    }
    if to[i] in Targets(list, offset) {
      var k: nat :| k < |list| && Targets(list, offset)[k] == to[i];
      var h := ChosenFrom(from, to, offset, k);
      assert to[h] == to[i];
    }
  }

  lemma EntryOf(stage: Stage, from: seq<nat>, to: seq<nat>, offset: int)
    requires Moves(stage, from, to) && offset in stage
    ensures |from| == |to| && stage[offset] == Chosen(from, to, offset)
  {
    assert Entry(stage, offset) == Chosen(from, to, offset);
  }

  lemma TargetsInside(stage: Stage, from: seq<nat>, to: seq<nat>, offset: int, slots: nat)
    requires Moves(stage, from, to) && offset in stage && |from| == |to|
    requires forall i :: 0 <= i < |from| ==> from[i] < slots && to[i] < slots
    ensures StaysInside(stage[offset], offset, slots)
    ensures forall j :: j in Targets(stage[offset], offset) ==> j in to
  {
    hide Moves;
    EntryOf(stage, from, to, offset);
    var list := stage[offset];
    forall k: nat | k < |list|
      ensures list[k] < slots && 0 <= list[k] - offset < slots && list[k] - offset in to
    {
      var i := ChosenFrom(from, to, offset, k);
      assert to[i] == list[k] - offset;
    }
  }

  lemma AllListed(stage: Stage, from: seq<nat>, to: seq<nat>)
    requires Moves(stage, from, to)
    ensures |from| == |to| && forall i :: 0 <= i < |from| ==> Rotation(from[i], to[i]) in stage
  {
    forall i: nat | i < |from|
      ensures Rotation(from[i], to[i]) in stage
    {
      ChosenHas(from, to, Rotation(from[i], to[i]), i);
      assert Entry(stage, Rotation(from[i], to[i])) == Chosen(from, to, Rotation(from[i], to[i]));
    }
  }

  lemma AddSelection(stage: Stage, x: Slots, from: seq<nat>, to: seq<nat>, offset: int, y: Slots, done: set<int>)
    requires Moves(stage, from, to) && Increasing(from) && Increasing(to) && offset in stage && offset !in done
    requires Partly(y, x, from, to, done)
    ensures |y| == |x| && Partly(Plus(y, Roll(Mask(x, Selection(stage[offset], |x|)), -offset)), x, from, to, done + {offset})
  {
    hide Times, Wrap, Moves, Increasing, Chosen;
    var list := stage[offset];
    TargetsInside(stage, from, to, offset, |x|);
    var term := Roll(Mask(x, Selection(list, |x|)), -offset);
    forall j: nat | j < |x|
      ensures term[j] == if j in Targets(list, offset) then x[Wrap(j - (-offset), |x|)] else 0.0
    {
      SelectedSame(list, offset, j, |x|);
      TimesOne(x[Wrap(j - (-offset), |x|)]);
      TimesZero(x[Wrap(j - (-offset), |x|)]);
    }
    forall i: nat | i < |from|
      ensures term[to[i]] == if Rotation(from[i], to[i]) == offset then x[from[i]] else 0.0
    {
      ListedAre(stage, from, to, offset, i);
      if Rotation(from[i], to[i]) == offset {
        WrapSmall(from[i], |x|);
      }
    }
  }

  /** Placing twice is placing once. */
  lemma PlacedTwice(z: Slots, y: Slots, x: Slots, from: seq<nat>, mid: seq<nat>, to: seq<nat>)
    requires Placed(y, x, from, mid) && Placed(z, y, mid, to)
    ensures Placed(z, x, from, to)
  {
  }

  /** What routing has to compute. */
  ghost predicate IsGather(y: Slots, x: Slots, indices: seq<int>) {
    && |y| == |x| && |indices| <= |x|
    && (forall i :: 0 <= i < |indices| ==> 0 <= indices[i] < |x| && y[i] == x[indices[i]])
    && forall j :: |indices| <= j < |y| ==> y[j] == 0.0
  }

  ghost predicate IsScatter(y: Slots, x: Slots, indices: seq<int>) {
    && |y| == |x| && |indices| <= |x|
    && (forall i :: 0 <= i < |indices| ==> 0 <= indices[i] < |x| && y[indices[i]] == x[i])
    && forall j :: 0 <= j < |y| && j !in indices ==> y[j] == 0.0
  }

  lemma BeforeFits(indices: seq<int>, scatter: bool, bits: nat, count: nat, k: nat, slots: nat)
    requires Accepted(indices) && k <= count && forall i :: 0 <= i < |indices| ==> indices[i] < slots
    ensures Increasing(Before(indices, scatter, bits, count, k))
    ensures forall i :: 0 <= i < |indices| ==> Before(indices, scatter, bits, count, k)[i] < slots
  {
    PositionsDistinct(indices, Shifted(if scatter then count - k else k, bits));
  }

  /**
   * For every strictly increasing index list and radix: the stages, applied in order, gather or scatter, whatever the other
   * slots held.
   */
  method Route(indices: seq<int>, scatter: bool, bits: nat, stages: seq<Stage>, x: Slots) returns (y: Slots)
    requires Routes(indices, scatter, bits, stages) && forall i :: 0 <= i < |indices| ==> indices[i] < |x|
    ensures if scatter then IsScatter(y, x, indices) else IsGather(y, x, indices)
  {
    hide Before, Moves, Placed, Increasing, IsGather, IsScatter, StageCount;
    y := x;
    var count := |stages|;
    ghost var start := Before(indices, scatter, bits, count, 0);
    for k := 0 to count
      invariant k == 0 ==> y == x
      invariant k > 0 ==> Placed(y, x, start, Before(indices, scatter, bits, count, k))
      invariant |y| == |x|
    {
      BeforeFits(indices, scatter, bits, count, k, |x|);
      BeforeFits(indices, scatter, bits, count, k + 1, |x|);
      var from, to := Before(indices, scatter, bits, count, k), Before(indices, scatter, bits, count, k + 1);
      var z := ApplyStage(stages[k], y, from, to);
      if k > 0 {
        PlacedTwice(z, y, x, start, from, to);
      }
      PlacedSize(z, y, from, to);
      y := z;
    }
    RouteEnds(indices, scatter, bits, count);
    Finished(indices, scatter, y, x);
  }

  lemma PlacedSize(y: Slots, x: Slots, from: seq<nat>, to: seq<nat>)
    requires Placed(y, x, from, to)
    ensures |y| == |x|
  {
  }

  lemma Finished(indices: seq<int>, scatter: bool, y: Slots, x: Slots)
    requires Accepted(indices)
    requires Placed(y, x, if scatter then Iota(|indices|) else indices, if scatter then indices else Iota(|indices|))
    ensures if scatter then IsScatter(y, x, indices) else IsGather(y, x, indices)
  {
    var iota := Iota(|indices|);
    assert forall j :: j in iota <==> 0 <= j < |indices| by {
      forall j | 0 <= j < |indices|
        ensures j in iota
      {
        assert iota[j] == j;
      }
    }
    if |indices| > 0 {
      var last := |indices| - 1;
      assert iota[last] == last;
    }
  }
}
