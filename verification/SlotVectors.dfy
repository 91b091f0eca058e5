/** Cyclic slot vectors and sums of consecutive cyclic shifts (src/fhemamba/bsgs_layout.py:58-87). */
module SlotVectors {
  import opened Wrappers
  import opened Sums

  /** A vector of CKKS slots; every operation below acts cyclically. */
  type Slots = s: seq<real> | |s| > 0 witness [0.0]

  // ----- remainders

  lemma ModUnique(x: int, b: int, q: int, m: int)
    requires b > 0 && x == q * b + m && 0 <= m < b
    ensures x % b == m && x / b == q
  {
    var d := x / b - q;
    assert x % b == x - x / b * b;
    assert (x / b) * b == q * b + d * b;
    if d >= 1 {
      Scaled(d, b);
    } else if d <= -1 {
      Scaled(-d, b);
    }
  }

  lemma Scaled(d: int, b: int)
    requires d >= 1 && b > 0
    ensures d * b >= b && (-d) * b == -(d * b)
  {
  }

  /** Whole turns do not matter. */
  lemma ModTurn(x: int, k: int, b: int)
    requires b > 0
    ensures (x + k * b) % b == x % b
  {
    SplitProduct(x / b, k, b);
    ModUnique(x + k * b, b, x / b + k, x % b);
  }

  /** The slot that index x falls on, cyclically. */
  function Wrap(x: int, b: int): (w: nat)
    requires b > 0
    ensures w < b
  {
    x % b
  }

  lemma WrapAdd(x: int, y: int, b: int)
    requires b > 0
    ensures Wrap(Wrap(x, b) + y, b) == Wrap(x + y, b)
  {
    ModTurn(x % b + y, x / b, b);
    assert x % b + y + x / b * b == x + y;
  }

  lemma WrapTurn(x: int, k: int, b: int)
    requires b > 0
    ensures Wrap(x + k * b, b) == Wrap(x, b)
  {
    ModTurn(x, k, b);
  }

  lemma WrapSmall(x: int, b: int)
    requires 0 <= x < b
    ensures Wrap(x, b) == x
  {
    ModUnique(x, b, 0, x);
  }

  /** Indices of one window of length b fall on different slots. */
  lemma WrapDistinct(i: int, j: int, base: int, b: int)
    requires b > 0 && base <= i < base + b && base <= j < base + b && Wrap(i, b) == Wrap(j, b)
    ensures i == j
  {
    if i <= j {
      WrapDistinctAbove(i, j - i, b);
    } else {
      WrapDistinctAbove(j, i - j, b);
    }
  }

  lemma WrapDistinctAbove(i: int, d: nat, b: int)
    requires d < b && Wrap(i, b) == Wrap(i + d, b)
    ensures d == 0
  {
    var p, r := i / b, i % b;
    if r + d < b {
      ModUnique(i + d, b, p, r + d);
    } else {
      ModUnique(i + d, b, p + 1, r + d - b);
    }
  }

  lemma MulMonotone(a: int, b: int, c: int)
    requires a <= b && c >= 0
    ensures a * c <= b * c
  {
  }

  /** The window slot i lies in. */
  lemma WindowOf(i: nat, w: int, count: nat) returns (at: nat)
    requires w > 0
    ensures at * w <= i < at * w + w
    ensures i < count * w <==> at < count
  {
    at := i / w;
    if at < count {
      MulMonotone(at + 1, count, w);
    } else {
      MulMonotone(count, at, w);
    }
  }

  predicate IsPowerOfTwo(r: nat) {
    r > 0 && (r == 1 || (r % 2 == 0 && IsPowerOfTwo(r / 2)))
  }

  // ----- slot operations

  /** numpy.roll: slot i receives slot i - k. */
  function Roll(v: Slots, k: int): (r: Slots)
    ensures |r| == |v|
  {
    seq(|v|, i requires 0 <= i < |v| => v[Wrap(i - k, |v|)])
  }

  function Plus(a: Slots, b: Slots): (r: Slots)
    requires |a| == |b|
    ensures |r| == |a|
  {
    seq(|a|, i requires 0 <= i < |a| => a[i] + b[i])
  }

  function Mask(a: Slots, b: Slots): (r: Slots)
    requires |a| == |b|
    ensures |r| == |a|
  {
    seq(|a|, i requires 0 <= i < |a| => Times(a[i], b[i]))
  }

  function Blank(batch: nat): (r: Slots)
    requires batch > 0
    ensures |r| == batch
  {
    seq(batch, i => 0.0)
  }

  /** Rolling a product is rolling both factors. */
  lemma RollMask(a: Slots, b: Slots, k: int)
    requires |a| == |b|
    ensures Roll(Mask(a, b), k) == Mask(Roll(a, k), Roll(b, k))
  {
    hide Times;
    forall i | 0 <= i < |a|
      ensures Roll(Mask(a, b), k)[i] == Mask(Roll(a, k), Roll(b, k))[i]
    {
      assert Wrap(i - k, |a|) < |a|;
    }
  }

  lemma RollPlus(a: Slots, b: Slots, k: int)
    requires |a| == |b|
    ensures Roll(Plus(a, b), k) == Plus(Roll(a, k), Roll(b, k))
  {
    forall i | 0 <= i < |a|
      ensures Roll(Plus(a, b), k)[i] == Plus(Roll(a, k), Roll(b, k))[i]
    {
      assert Wrap(i - k, |a|) < |a|;
    }
  }

  lemma RollRoll(v: Slots, j: int, k: int)
    ensures Roll(Roll(v, j), k) == Roll(v, j + k)
  {
    hide Wrap;
    forall i | 0 <= i < |v|
      ensures Roll(Roll(v, j), k)[i] == Roll(v, j + k)[i]
    {
      WrapAdd(i - k, -j, |v|);
    }
  }

  lemma RollNone(v: Slots)
    ensures Roll(v, 0) == v
  {
    forall i | 0 <= i < |v|
      ensures Roll(v, 0)[i] == v[i]
    {
      WrapSmall(i, |v|);
    }
  }

  // ----- sums of consecutive shifts

  function ShiftTerm(v: Slots, i: int, stride: int): nat -> real {
    (q: nat) => v[Wrap(i + q * stride, |v|)]
  }

  /** Slot i of the sum of `count` consecutive shifts. */
  function ShiftSumAt(v: Slots, count: nat, stride: int, i: int): real {
    Sum(count, ShiftTerm(v, i, stride))
  }

  /** The meaning of rotation_sum: slot i receives v[i] + v[i + stride] + ... (count terms). */
  function ShiftSum(v: Slots, count: nat, stride: int): (r: Slots)
    ensures |r| == |v|
  {
    seq(|v|, i requires 0 <= i < |v| => ShiftSumAt(v, count, stride, i))
  }

  lemma ShiftSumOne(v: Slots, stride: int)
    ensures ShiftSum(v, 1, stride) == v
  {
    forall i | 0 <= i < |v|
      ensures ShiftSumAt(v, 1, stride, i) == v[i]
    {
      WrapSmall(i, |v|);
      assert 0 * stride == 0;
      assert ShiftTerm(v, i, stride)(0) == v[i];
      assert Sum(1, ShiftTerm(v, i, stride)) == Sum(0, ShiftTerm(v, i, stride)) + ShiftTerm(v, i, stride)(0);
    }
  }

  /** One more shift of the input. */
  lemma ShiftSumNext(v: Slots, count: nat, stride: int)
    ensures ShiftSum(v, count + 1, stride) == Plus(ShiftSum(v, count, stride), Roll(v, -(count * stride)))
  {
    hide Wrap;
    forall i | 0 <= i < |v|
      ensures ShiftSum(v, count + 1, stride)[i] == ShiftSum(v, count, stride)[i] + Roll(v, -(count * stride))[i]
    {
      assert Roll(v, -(count * stride))[i] == ShiftTerm(v, i, stride)(count);
    }
  }

  /** Doubling: the partial sum added to itself moved by its own length. */
  lemma ShiftSumDouble(v: Slots, count: nat, stride: int)
    ensures var s := ShiftSum(v, count, stride); ShiftSum(v, 2 * count, stride) == Plus(s, Roll(s, -(count * stride)))
  {
    hide Wrap, Sum;
    var s := ShiftSum(v, count, stride);
    forall i | 0 <= i < |v|
      ensures ShiftSumAt(v, 2 * count, stride, i) == s[i] + Roll(s, -(count * stride))[i]
    {
      var moved := Wrap(i + count * stride, |v|);
      forall q: nat | q < count
        ensures ShiftTerm(v, moved, stride)(q) == ShiftTerm(v, i, stride)(count + q)
      {
        WrapAdd(i + count * stride, q * stride, |v|);
        SplitProduct(count, q, stride);
      }
      SumSplit(count, count, ShiftTerm(v, i, stride), ShiftTerm(v, moved, stride));
      assert count + count == 2 * count;
    }
  }

  lemma SplitProduct(a: int, b: int, s: int)
    ensures (a + b) * s == a * s + b * s
  {
  }

  datatype RotateStep = RotateStep(offset: nat, accumulated: bool)

  /** Step j of the linear schedule adds the input moved by j + 1. */
  function LinearSteps(count: nat): seq<RotateStep>
    requires count >= 1
  {
    seq(count - 1, i requires 0 <= i < count - 1 => RotateStep(i + 1, false))
  }

  /** The bits of count below its leading one, most significant first. */
  function TrailingBits(count: nat): seq<bool>
    requires count >= 1
  {
    if count == 1 then [] else TrailingBits(count / 2) + [count % 2 == 1]
  }

  /** The number a leading one followed by the bits stands for. */
  function FromBits(bits: seq<bool>): (n: nat)
    ensures n >= 1
  {
    if |bits| == 0 then 1 else 2 * FromBits(bits[..|bits| - 1]) + (if bits[|bits| - 1] then 1 else 0)
  }

  lemma {:induction false} BitsRoundTrip(count: nat)
    requires count >= 1
    ensures FromBits(TrailingBits(count)) == count
  {
    if count > 1 {
      BitsRoundTrip(count / 2);
      var bits := TrailingBits(count);
      assert bits[..|bits| - 1] == TrailingBits(count / 2);
    }
  }

  /** What a list of steps computes from `v`. */
  function RunSteps(v: Slots, steps: seq<RotateStep>, stride: int): (r: Slots)
    ensures |r| == |v|
  {
    if |steps| == 0 then v else
      var before := RunSteps(v, steps[..|steps| - 1], stride);
      var step := steps[|steps| - 1];
      Plus(before, Roll(if step.accumulated then before else v, -(step.offset * stride)))
  }

  lemma RunOneMore(v: Slots, steps: seq<RotateStep>, step: RotateStep, stride: int)
    ensures var before := RunSteps(v, steps, stride);
            RunSteps(v, steps + [step], stride)
            == Plus(before, Roll(if step.accumulated then before else v, -(step.offset * stride)))
  {
    assert (steps + [step])[..|steps|] == steps;
  }

  method RotationSumSchedule(count: int, logarithmic: bool) returns (r: Option<seq<RotateStep>>)
    ensures r.None? <==> count < 1
    ensures r.Some? ==> forall v: Slots, stride: int :: RunSteps(v, r.value, stride) == ShiftSum(v, count, stride)
    ensures r.Some? ==> |r.value| == if logarithmic then |TrailingBits(count)| + Ones(TrailingBits(count)) else count - 1
  {
    hide *;
    if count < 1 {
      return None;
    }
    LinearRuns(count);
    if !logarithmic {
      return Some(LinearSteps(count));
    }
    var steps := [];
    var filled := 1;
    var bits := TrailingBits(count);
    StartRuns(bits);
    for i := 0 to |bits|
      invariant filled == FromBits(bits[..i])
      invariant |steps| == i + Ones(bits[..i])
      invariant forall v: Slots, stride: int :: RunSteps(v, steps, stride) == ShiftSum(v, filled, stride)
    {
      NextBit(bits, i);
      DoubleRuns(steps, filled);
      steps := steps + [RotateStep(filled, true)];
      filled := filled * 2;
      if bits[i] {
        AddOneRuns(steps, filled);
        steps := steps + [RotateStep(filled, false)];
        filled := filled + 1;
      }
    }
    BitsRoundTrip(count);
    assert bits[..|bits|] == bits;
    return Some(steps);
  }

  function Ones(bits: seq<bool>): nat {
    if |bits| == 0 then 0 else Ones(bits[..|bits| - 1]) + (if bits[|bits| - 1] then 1 else 0)
  }

  lemma NextBit(bits: seq<bool>, i: nat)
    requires i < |bits|
    ensures FromBits(bits[..i + 1]) == 2 * FromBits(bits[..i]) + (if bits[i] then 1 else 0)
    ensures Ones(bits[..i + 1]) == Ones(bits[..i]) + (if bits[i] then 1 else 0)
  {
    assert bits[..i + 1][..i] == bits[..i];
  }

  lemma StartRuns(bits: seq<bool>)
    ensures FromBits(bits[..0]) == 1 && Ones(bits[..0]) == 0
    ensures forall v: Slots, stride: int :: RunSteps(v, [], stride) == ShiftSum(v, 1, stride)
  {
    forall v: Slots, stride: int
      ensures RunSteps(v, [], stride) == ShiftSum(v, 1, stride)
    {
      ShiftSumOne(v, stride);
    }
  }

  lemma DoubleRuns(steps: seq<RotateStep>, filled: nat)
    requires forall v: Slots, stride: int :: RunSteps(v, steps, stride) == ShiftSum(v, filled, stride)
    ensures forall v: Slots, stride: int :: RunSteps(v, steps + [RotateStep(filled, true)], stride) == ShiftSum(v, filled * 2, stride)
  {
    forall v: Slots, stride: int
      ensures RunSteps(v, steps + [RotateStep(filled, true)], stride) == ShiftSum(v, filled * 2, stride)
    {
      hide *;
      RunOneMore(v, steps, RotateStep(filled, true), stride);
      ShiftSumDouble(v, filled, stride);
    }
  }

  lemma AddOneRuns(steps: seq<RotateStep>, filled: nat)
    requires forall v: Slots, stride: int :: RunSteps(v, steps, stride) == ShiftSum(v, filled, stride)
    ensures forall v: Slots, stride: int :: RunSteps(v, steps + [RotateStep(filled, false)], stride) == ShiftSum(v, filled + 1, stride)
  {
    forall v: Slots, stride: int
      ensures RunSteps(v, steps + [RotateStep(filled, false)], stride) == ShiftSum(v, filled + 1, stride)
    {
      hide *;
      RunOneMore(v, steps, RotateStep(filled, false), stride);
      ShiftSumNext(v, filled, stride);
    }
  }

  lemma {:induction false} LinearRuns(count: nat)
    requires count >= 1
    ensures |LinearSteps(count)| == count - 1
    ensures forall v: Slots, stride: int :: RunSteps(v, LinearSteps(count), stride) == ShiftSum(v, count, stride)
  {
    if count == 1 {
      StartRuns([]);
      assert LinearSteps(1) == [];
    } else {
      LinearRuns(count - 1);
      AddOneRuns(LinearSteps(count - 1), count - 1);
      assert LinearSteps(count) == LinearSteps(count - 1) + [RotateStep(count - 1, false)];
    }
  }

  /** Rotate-and-add: both schedules leave the sum of `count` consecutive shifts in every slot. */
  method RotationSum(values: Slots, count: int, stride: int, logarithmic: bool) returns (result: Slots)
    requires count >= 1
    ensures |result| == |values|
    ensures result == ShiftSum(values, count, stride)
  {
    hide *;
    var schedule := RotationSumSchedule(count, logarithmic);
    var steps := schedule.value;
    result := values;
    RunNothing(values, steps, stride);
    for i := 0 to |steps|
      invariant result == RunSteps(values, steps[..i], stride)
    {
      var step := steps[i];
      RunOneMore(values, steps[..i], step, stride);
      assert steps[..i + 1] == steps[..i] + [step];
      result := Plus(result, Roll(if step.accumulated then result else values, -(step.offset * stride)));
    }
    assert steps[..|steps|] == steps;
  }

  lemma RunNothing(v: Slots, steps: seq<RotateStep>, stride: int)
    ensures RunSteps(v, steps[..0], stride) == v
  {
  }
}
