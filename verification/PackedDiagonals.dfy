/**
 * native/fideslib_stage0/include/packed_routing.hpp, plan_packed_diagonals, and the masked rotations that
 * native/fideslib_stage0/src/packed_fideslib.cpp builds from its plan.
 */
module PackedDiagonals {
  import opened SlotVectors

  /** baby == 0 means one rotation per offset. */
  datatype Plan = Plan(offsets: seq<int>, baby: nat, rotations: nat)

  function Reversed(s: seq<int>): (r: seq<int>)
    ensures |r| == |s|
  {
    if |s| == 0 then [] else [s[|s| - 1]] + Reversed(s[..|s| - 1])
  }

  /** Neighbours differ by the same step throughout. */
  predicate Progression(offsets: seq<int>) {
    |offsets| >= 2 && forall i: nat :: i + 1 < |offsets| ==> Step(offsets, i) == Step(offsets, 0)
  }

  function Step(offsets: seq<int>, i: nat): int
    requires i + 1 < |offsets|
  {
    offsets[i + 1] - offsets[i]
  }

  /** k * step, by repeated addition. */
  function Giant(k: nat, step: int): int {
    if k == 0 then 0 else Giant(k - 1, step) + step
  }

  lemma {:induction false} GiantIs(k: nat, step: int)
    ensures Giant(k, step) == k * step
  {
    if k > 0 {
      GiantIs(k - 1, step);
    }
  }

  lemma {:induction false} ProgressionAt(offsets: seq<int>, first: nat, j: nat)
    requires Progression(offsets) && first + j < |offsets|
    ensures offsets[first + j] == offsets[j] + Giant(first, Step(offsets, 0))
    decreases first
  {
    if first > 0 {
      ProgressionAt(offsets, first - 1, j);
      assert Step(offsets, first + j - 1) == Step(offsets, 0);
    }
  }

  lemma {:induction false} ReversedAt(s: seq<int>, i: nat)
    requires i < |s|
    ensures Reversed(s)[i] == s[|s| - 1 - i]
    decreases |s|
  {
    if i > 0 {
      ReversedAt(s[..|s| - 1], i - 1);
    }
  }

  lemma ReversedProgression(offsets: seq<int>)
    requires Progression(offsets)
    ensures Progression(Reversed(offsets))
  {
    var n, r := |offsets|, Reversed(offsets);
    forall i: nat | i + 1 < n
      ensures Step(r, i) == -Step(offsets, 0)
    {
      ReversedAt(offsets, i);
      ReversedAt(offsets, i + 1);
      assert Step(offsets, n - 2 - i) == Step(offsets, 0);
    }
  }

  // ----- cost

  function DirectCost(offsets: seq<int>, cost: int -> nat): nat {
    if |offsets| == 0 then 0 else DirectCost(offsets[..|offsets| - 1], cost) + cost(offsets[|offsets| - 1])
  }

  function BabyCost(from: int, step: int, baby: nat, cost: int -> nat): nat {
    if baby == 0 then 0 else BabyCost(from, step, baby - 1, cost) + cost(from + (baby - 1) * step)
  }

  /** The giant rotations 0, baby, 2*baby, ... below count, from `first` on. */
  function GiantCost(first: nat, count: nat, baby: nat, step: int, cost: int -> nat): nat
    requires baby > 0
    decreases count - first
  {
    if first >= count then 0 else cost(first * step) + GiantCost(first + baby, count, baby, step, cost)
  }

  function SplitCost(offsets: seq<int>, baby: nat, cost: int -> nat): nat
    requires |offsets| >= 2 && baby > 0
  {
    BabyCost(offsets[0], Step(offsets, 0), baby, cost) + GiantCost(0, |offsets|, baby, Step(offsets, 0), cost)
  }

  method CountSplit(offsets: seq<int>, baby: nat, cost: int -> nat) returns (total: nat)
    requires |offsets| >= 2 && baby > 0
    ensures total == SplitCost(offsets, baby, cost)
  {
    var step := offsets[1] - offsets[0];
    total := 0;
    for j := 0 to baby
      invariant total == BabyCost(offsets[0], step, j, cost)
    {
      total := total + cost(offsets[0] + j * step);
    }
    var first: nat := 0;
    while first < |offsets|
      invariant total + GiantCost(first, |offsets|, baby, step, cost) == SplitCost(offsets, baby, cost)
      decreases |offsets| - first
    {
      total := total + cost(first * step);
      first := first + baby;
    }
  }

  /** A plan's rotation count is what carrying it out costs. */
  predicate Costs(plan: Plan, cost: int -> nat) {
    plan.rotations == if plan.baby == 0 then DirectCost(plan.offsets, cost) else
      if |plan.offsets| >= 2 then SplitCost(plan.offsets, plan.baby, cost) else 0
  }

  /** The giant rotations below count, from `first` on. */
  function Giants(first: nat, count: nat, baby: nat, step: int): seq<int>
    requires baby > 0
    decreases count - first
  {
    if first >= count then [] else [first * step] + Giants(first + baby, count, baby, step)
  }

  /** The rotations a plan stands for, in the order they are made. */
  function Turns(plan: Plan): seq<int> {
    if plan.baby == 0 then plan.offsets else
      if 2 <= |plan.offsets| && plan.baby <= |plan.offsets| then
        plan.offsets[..plan.baby] + Giants(0, |plan.offsets|, plan.baby, Step(plan.offsets, 0))
      else []
  }

  lemma {:induction false} DirectJoin(a: seq<int>, b: seq<int>, cost: int -> nat)
    ensures DirectCost(a + b, cost) == DirectCost(a, cost) + DirectCost(b, cost)
    decreases |b|
  {
    if |b| == 0 {
      assert a + b == a;
    } else {
      DirectJoin(a, b[..|b| - 1], cost);
      assert (a + b)[..|a| + |b| - 1] == a + b[..|b| - 1];
    }
  }

  lemma {:induction false} GiantsCost(first: nat, count: nat, baby: nat, step: int, cost: int -> nat)
    requires baby > 0
    ensures DirectCost(Giants(first, count, baby, step), cost) == GiantCost(first, count, baby, step, cost)
    decreases count - first
  {
    if first < count {
      GiantsCost(first + baby, count, baby, step, cost);
      DirectJoin([first * step], Giants(first + baby, count, baby, step), cost);
      assert [first * step][..0] == [];
    }
  }

  lemma {:induction false} BabiesCost(offsets: seq<int>, baby: nat, cost: int -> nat)
    requires Progression(offsets) && baby <= |offsets|
    ensures DirectCost(offsets[..baby], cost) == BabyCost(offsets[0], Step(offsets, 0), baby, cost)
  {
    if baby > 0 {
      var step := Step(offsets, 0);
      BabiesCost(offsets, baby - 1, cost);
      ProgressionAt(offsets, baby - 1, 0);
      GiantIs(baby - 1, step);
      assert offsets[..baby][..baby - 1] == offsets[..baby - 1];
      assert offsets[baby - 1] == offsets[0] + (baby - 1) * step;
    }
  }

  /** The counted cost is the cost of the rotations the plan stands for. */
  lemma CostOfTurns(plan: Plan, cost: int -> nat)
    requires Costs(plan, cost) && (plan.baby > 0 ==> Progression(plan.offsets) && plan.baby <= |plan.offsets|)
    ensures DirectCost(Turns(plan), cost) == plan.rotations
  {
    hide Progression;
    if plan.baby > 0 {
      ProgressionLong(plan.offsets);
      var step := Step(plan.offsets, 0);
      BabiesCost(plan.offsets, plan.baby, cost);
      GiantsCost(0, |plan.offsets|, plan.baby, step, cost);
      DirectJoin(plan.offsets[..plan.baby], Giants(0, |plan.offsets|, plan.baby, step), cost);
    }
  }

  lemma ProgressionLong(offsets: seq<int>)
    requires Progression(offsets)
    ensures |offsets| >= 2
  {
  }

  /** No dearer than one rotation per offset or any split in either direction, if the offsets are a progression. */
  ghost predicate Cheapest(rotations: nat, offsets: seq<int>, cost: int -> nat) {
    && rotations <= DirectCost(offsets, cost)
    && (|offsets| >= 3 && Progression(offsets) ==> forall baby :: 2 <= baby < |offsets| ==>
          rotations <= SplitCost(offsets, baby, cost) && rotations <= SplitCost(Reversed(offsets), baby, cost))
  }

  method PlanDiagonals(offsets: seq<int>, cost: int -> nat) returns (best: Plan)
    ensures best.offsets == offsets || (best.baby > 0 && best.offsets == Reversed(offsets))
    ensures best.baby > 0 ==> Progression(best.offsets) && 2 <= best.baby < |offsets|
    ensures Costs(best, cost) && DirectCost(Turns(best), cost) == best.rotations && Cheapest(best.rotations, offsets, cost)
  {
    hide SplitCost;
    var total := 0;
    for i := 0 to |offsets|
      invariant total == DirectCost(offsets[..i], cost)
    {
      assert offsets[..i + 1][..i] == offsets[..i];
      total := total + cost(offsets[i]);
    }
    assert offsets[..|offsets|] == offsets;
    best := Plan(offsets, 0, total);
    CostOfTurns(best, cost);
    if |offsets| < 3 {
      return;
    }
    var stride := offsets[1] - offsets[0];
    for i := 2 to |offsets|
      invariant forall k: nat :: k + 1 < i ==> Step(offsets, k) == stride
    {
      if offsets[i] - offsets[i - 1] != stride {
        assert Step(offsets, i - 1) != Step(offsets, 0);
        return;
      }
    }
    best := TryBabies(offsets, offsets, cost, best);
    ReversedProgression(offsets);
    best := TryBabies(offsets, Reversed(offsets), cost, best);
    CostOfTurns(best, cost);
  }

  /** One direction. */
  method TryBabies(offsets: seq<int>, order: seq<int>, cost: int -> nat, best0: Plan) returns (best: Plan)
    requires |order| == |offsets| >= 3 && Progression(order) && Costs(best0, cost)
    ensures best == best0 || (best.offsets == order && 2 <= best.baby < |offsets|)
    ensures Costs(best, cost) && best.rotations <= best0.rotations
    ensures forall baby :: 2 <= baby < |offsets| ==> best.rotations <= SplitCost(order, baby, cost)
  {
    hide SplitCost, DirectCost;
    best := best0;
    for baby := 2 to |order|
      invariant best == best0 || (best.offsets == order && 2 <= best.baby < |offsets|)
      invariant Costs(best, cost) && best.rotations <= best0.rotations
      invariant forall b :: 2 <= b < baby ==> best.rotations <= SplitCost(order, b, cost)
    {
      var total := CountSplit(order, baby, cost);
      if total < best.rotations {
        best := Plan(order, baby, total);
      }
    }
  }

  // ----- meaning

  /** The sum of rotate(x, offset) * masks[offset]; rotations go left. */
  function DirectSum(x: Slots, masks: map<int, Slots>, offsets: seq<int>): (r: Slots)
    requires forall o :: o in offsets ==> o in masks && |masks[o]| == |x|
    ensures |r| == |x|
    decreases |offsets|
  {
    if |offsets| == 0 then Blank(|x|) else
      var last := offsets[|offsets| - 1];
      Plus(DirectSum(x, masks, offsets[..|offsets| - 1]), Mask(Roll(x, -last), masks[last]))
  }

  ghost predicate Covered(x: Slots, masks: map<int, Slots>, offsets: seq<int>) {
    forall o :: o in offsets ==> o in masks && |masks[o]| == |x|
  }

  lemma PlusLaws(a: Slots, b: Slots, c: Slots)
    requires |a| == |b| == |c|
    ensures Plus(a, b) == Plus(b, a) && Plus(Plus(a, b), c) == Plus(a, Plus(b, c)) && Plus(Blank(|a|), b) == b && Plus(b, Blank(|a|)) == b
  {
  }

  lemma {:induction false} DirectConcat(x: Slots, masks: map<int, Slots>, a: seq<int>, b: seq<int>)
    requires Covered(x, masks, a) && Covered(x, masks, b)
    ensures DirectSum(x, masks, a + b) == Plus(DirectSum(x, masks, a), DirectSum(x, masks, b))
    decreases |b|
  {
    hide Plus, Mask, Roll, Blank;
    var ab := DirectSum(x, masks, a);
    if |b| == 0 {
      assert a + b == a;
      PlusLaws(ab, ab, ab);
    } else {
      var n := |b| - 1;
      DirectConcat(x, masks, a, b[..n]);
      assert (a + b)[..|a| + n] == a + b[..n];
      PlusLaws(ab, DirectSum(x, masks, b[..n]), Mask(Roll(x, -b[n]), masks[b[n]]));
    }
  }

  /** The order of the offsets does not matter. */
  lemma {:induction false} DirectReversed(x: Slots, masks: map<int, Slots>, offsets: seq<int>)
    requires Covered(x, masks, offsets)
    ensures Covered(x, masks, Reversed(offsets)) && DirectSum(x, masks, Reversed(offsets)) == DirectSum(x, masks, offsets)
    decreases |offsets|
  {
    hide Plus, Mask, Roll, Blank;
    if |offsets| > 0 {
      var front, last := offsets[..|offsets| - 1], offsets[|offsets| - 1];
      DirectReversed(x, masks, front);
      DirectConcat(x, masks, [last], Reversed(front));
      var blank, term := Blank(|x|), Mask(Roll(x, -last), masks[last]);
      assert [last][..0] == [];
      PlusLaws(blank, term, term);
      PlusLaws(term, DirectSum(x, masks, front), term);
    }
  }

  /** One term of a giant group after the giant rotation. */
  lemma GroupTerm(x: Slots, inner: Slots, mask: Slots, babyOffset: int, giant: int)
    requires |inner| == |mask| == |x|
    ensures Roll(Plus(inner, Mask(Roll(x, -babyOffset), Roll(mask, giant))), -giant)
         == Plus(Roll(inner, -giant), Mask(Roll(x, -(babyOffset + giant)), mask))
  {
    hide Plus, Mask, Roll;
    var baby := Roll(x, -babyOffset);
    RollPlus(inner, Mask(baby, Roll(mask, giant)), -giant);
    RollMask(baby, Roll(mask, giant), -giant);
    RollRoll(x, -babyOffset, -giant);
    RollRoll(mask, giant, -giant);
    RollNone(mask);
    assert -babyOffset + -giant == -(babyOffset + giant) && giant + -giant == 0;
  }

  lemma RollBlank(n: nat, k: int)
    requires n > 0
    ensures Roll(Blank(n), k) == Blank(n)
  {
    forall i | 0 <= i < n
      ensures Roll(Blank(n), k)[i] == Blank(n)[i]
    {
      assert Blank(n)[Wrap(i - k, n)] == 0.0;
    }
  }

  /** Whatever the plan, the result is the direct sum, and no plan's rotations cost less than those made. */
  method Transform(x: Slots, masks: map<int, Slots>, offsets: seq<int>, cost: int -> nat) returns (out: Slots, ghost turns: seq<int>)
    requires Covered(x, masks, offsets)
    ensures out == DirectSum(x, masks, offsets)
    ensures Cheapest(DirectCost(turns, cost), offsets, cost)
  {
    hide Cheapest, Costs, DirectSum, Progression, Covered, DirectCost, Turns;
    var plan := PlanDiagonals(offsets, cost);
    DirectReversed(x, masks, offsets);
    if plan.baby == 0 {
      out, turns := RotateEach(x, masks, plan);
    } else {
      out, turns := RotateGroups(x, masks, plan);
    }
  }

  function Min(a: nat, b: nat): nat {
    if a < b then a else b
  }

  /** Baby rotations of x once, then one rotation per group of masked babies. */
  method RotateGroups(x: Slots, masks: map<int, Slots>, plan: Plan) returns (out: Slots, ghost turns: seq<int>)
    requires Covered(x, masks, plan.offsets) && Progression(plan.offsets) && 0 < plan.baby <= |plan.offsets|
    ensures out == DirectSum(x, masks, plan.offsets) && turns == Turns(plan)
  {
    hide Plus, Mask, Roll, Blank, DirectSum, Giant;
    var offsets, baby := plan.offsets, plan.baby;
    var step := offsets[1] - offsets[0];
    var babies := seq(baby, j requires 0 <= j < baby => Roll(x, -offsets[j]));
    turns := offsets[..baby];
    out := Blank(|x|);
    NothingYet(x, masks);
    var first: nat := 0;
    while first < |offsets|
      invariant |out| == |x| && out == DirectSum(x, masks, offsets[..Min(first, |offsets|)])
      invariant turns + Giants(first, |offsets|, baby, step) == Turns(plan)
      decreases |offsets| - first
    {
      var end := Min(first + baby, |offsets|);
      GiantIs(first, step);
      var inner := AddGroup(x, masks, offsets, babies, first, end, first * step);
      NextGroup(x, masks, offsets, first, end);
      out := Plus(out, Roll(inner, -(first * step)));
      TurnsMove(turns, first, |offsets|, baby, step);
      turns := turns + [first * step];
      first := first + baby;
    }
    assert offsets[..|offsets|] == offsets;
  }

  lemma TurnsMove(turns: seq<int>, first: nat, count: nat, baby: nat, step: int)
    requires baby > 0 && first < count
    ensures turns + Giants(first, count, baby, step) == turns + [first * step] + Giants(first + baby, count, baby, step)
  {
  }

  lemma NextGroup(x: Slots, masks: map<int, Slots>, offsets: seq<int>, first: nat, end: nat)
    requires Covered(x, masks, offsets) && first <= end <= |offsets|
    ensures DirectSum(x, masks, offsets[..end]) == Plus(DirectSum(x, masks, offsets[..first]), DirectSum(x, masks, offsets[first..end]))
  {
    hide Plus, Mask, Roll, Blank, DirectSum;
    DirectConcat(x, masks, offsets[..first], offsets[first..end]);
    assert offsets[..first] + offsets[first..end] == offsets[..end];
  }

  lemma NothingYet(x: Slots, masks: map<int, Slots>)
    ensures DirectSum(x, masks, []) == Blank(|x|)
  {
  }

  /** The masked babies of one giant rotation; masks are rotated the other way beforehand. */
  method AddGroup(x: Slots, masks: map<int, Slots>, offsets: seq<int>, babies: seq<Slots>, first: nat, end: nat, giant: int) returns (inner: Slots)
    requires Covered(x, masks, offsets) && Progression(offsets) && giant == Giant(first, Step(offsets, 0))
    requires first <= end <= |offsets| && end - first <= |babies| <= |offsets|
    requires forall j :: 0 <= j < |babies| ==> babies[j] == Roll(x, -offsets[j])
    ensures |inner| == |x| && Roll(inner, -giant) == DirectSum(x, masks, offsets[first..end])
  {
    hide Plus, Mask, Roll, Blank, Progression, Giant, DirectSum;
    inner := Blank(|x|);
    RollBlank(|x|, -giant);
    NothingYet(x, masks);
    assert offsets[first..first + 0] == [];
    for j := 0 to end - first
      invariant |inner| == |x| && Roll(inner, -giant) == DirectSum(x, masks, offsets[first..first + j])
    {
      GroupStep(x, masks, offsets, first, j, giant, inner);
      var mask := masks[offsets[first + j]];
      inner := Plus(inner, Mask(babies[j], Roll(mask, giant)));
    }
    assert first + (end - first) == end;
  }

  lemma GroupStep(x: Slots, masks: map<int, Slots>, offsets: seq<int>, first: nat, j: nat, giant: int, inner: Slots)
    requires Covered(x, masks, offsets) && Progression(offsets) && giant == Giant(first, Step(offsets, 0)) && first + j < |offsets|
    requires |inner| == |x| && Roll(inner, -giant) == DirectSum(x, masks, offsets[first..first + j])
    ensures offsets[first + j] in masks && |masks[offsets[first + j]]| == |x|
    ensures Roll(Plus(inner, Mask(Roll(x, -offsets[j]), Roll(masks[offsets[first + j]], giant))), -giant)
         == DirectSum(x, masks, offsets[first..first + j + 1])
  {
    hide Plus, Mask, Roll, Blank, Progression, Giant;
    var at := offsets[first + j];
    assert at in offsets;
    GroupTerm(x, inner, masks[at], offsets[j], giant);
    ProgressionAt(offsets, first, j);
    var longer := offsets[first..first + j + 1];
    assert longer[..j] == offsets[first..first + j] && longer[j] == at;
  }

  method RotateEach(x: Slots, masks: map<int, Slots>, plan: Plan) returns (out: Slots, ghost turns: seq<int>)
    requires Covered(x, masks, plan.offsets) && plan.baby == 0
    ensures out == DirectSum(x, masks, plan.offsets) && turns == Turns(plan)
  {
    hide Plus, Mask, Roll, Blank;
    var offsets := plan.offsets;
    out, turns := Blank(|x|), [];
    for i := 0 to |offsets|
      invariant turns == offsets[..i]
      invariant |out| == |x| && out == DirectSum(x, masks, offsets[..i])
    {
      assert offsets[..i + 1][..i] == offsets[..i];
      out := Plus(out, Mask(Roll(x, -offsets[i]), masks[offsets[i]]));
      turns := turns + [offsets[i]];
    }
    assert offsets[..|offsets|] == offsets;
  }
}
