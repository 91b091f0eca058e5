/** native/fideslib_stage0/include/packed_depth.hpp: level costs, level simulation and the refresh planner. */
module DepthPlanner {
  import opened Wrappers
  import opened Sums
  import opened SlotVectors
  import opened TensorIndex
  import opened PackedNodes
  import MonotoneRouting
  import PatersonStockmeyer
  import ReadySchedule

  // ----- routing depth

  predicate Rising(indices: seq<int>) {
    forall i :: 0 < i < |indices| ==> indices[i] > indices[i - 1]
  }

  predicate IsIdentity(indices: seq<int>) {
    forall i :: 0 <= i < |indices| ==> indices[i] == i
  }

  function Offsets(indices: seq<int>): set<int> {
    set i | 0 <= i < |indices| :: indices[i] - i
  }

  /** The largest offset, and at least 0. */
  function MaxOffset(indices: seq<int>): (m: nat)
    ensures forall i :: 0 <= i < |indices| ==> indices[i] - i <= m
    ensures m == 0 || exists i :: 0 <= i < |indices| && indices[i] - i == m
  {
    if |indices| == 0 then 0 else
      var n := |indices| - 1;
      var m := MaxOffset(indices[..n]);
      if indices[n] - n > m then
        indices[n] - n
      else
        assert m == 0 || exists i :: 0 <= i < n && indices[..n][i] - i == m;
        m
  }

  const RADIX_BITS: nat := 3
  const FEW_OFFSETS := 32

  function RoutingDepth(indices: seq<int>, scatter: bool): nat {
    if scatter && IsIdentity(indices) then 0 else
    if !Rising(indices) || |Offsets(indices)| <= FEW_OFFSETS then 1 else
      var digits := MonotoneRouting.DigitCount(MaxOffset(indices), RADIX_BITS);
      if digits < 1 then 1 else digits
  }

  method CountRouting(indices: seq<int>, scatter: bool) returns (depth: nat)
    ensures depth == RoutingDepth(indices, scatter)
  {
    hide MonotoneRouting.DigitCount, Offsets, Rising, IsIdentity, MaxOffset;
    NoIndices();
    var monotone, identity, maximum, offsets := true, true, 0, {};
    for i := 0 to |indices|
      invariant monotone == Rising(indices[..i]) && identity == IsIdentity(indices[..i])
      invariant offsets == Offsets(indices[..i]) && maximum == MaxOffset(indices[..i])
    {
      OffsetsPush(indices, i);
      RisingPush(indices, i);
      IdentityPush(indices, i);
      MaxPush(indices, i);
      monotone := monotone && (i == 0 || indices[i] > indices[i - 1]);
      identity := identity && indices[i] == i;
      var offset := indices[i] - i;
      offsets := offsets + {offset};
      maximum := if offset > maximum then offset else maximum;
    }
    assert indices[..|indices|] == indices;
    if scatter && identity {
      return 0;
    }
    if !monotone || |offsets| <= FEW_OFFSETS {
      return 1;
    }
    depth := MonotoneRouting.CountShifts(maximum, RADIX_BITS);
  }

  lemma NoIndices()
    ensures Offsets([]) == {} && Rising([]) && IsIdentity([]) && MaxOffset([]) == 0
  {
  }

  lemma RisingPush(indices: seq<int>, i: nat)
    requires i < |indices|
    ensures Rising(indices[..i + 1]) <==> Rising(indices[..i]) && (i == 0 || indices[i] > indices[i - 1])
  {
    var front, longer := indices[..i], indices[..i + 1];
    assert forall k :: 0 <= k < i ==> longer[k] == front[k];
    if i > 0 {
      assert longer[i - 1] == indices[i - 1];
    }
  }

  lemma IdentityPush(indices: seq<int>, i: nat)
    requires i < |indices|
    ensures IsIdentity(indices[..i + 1]) <==> IsIdentity(indices[..i]) && indices[i] == i
  {
    var front, longer := indices[..i], indices[..i + 1];
    assert forall k :: 0 <= k < i ==> longer[k] == front[k];
  }

  lemma MaxPush(indices: seq<int>, i: nat)
    requires i < |indices|
    ensures MaxOffset(indices[..i + 1])
         == var m := MaxOffset(indices[..i]); if indices[i] - i > m then indices[i] - i else m
  {
    assert indices[..i + 1][..i] == indices[..i];
  }

  lemma OffsetsPush(indices: seq<int>, i: nat)
    requires i < |indices|
    ensures Offsets(indices[..i + 1]) == Offsets(indices[..i]) + {indices[i] - i}
  {
    var longer := indices[..i + 1];
    forall x
      ensures x in Offsets(longer) <==> x in Offsets(indices[..i]) || x == indices[i] - i
    {
      if x in Offsets(indices[..i]) {
        var k :| 0 <= k < i && indices[..i][k] - k == x;
        assert longer[k] - k == x;
      }
      assert longer[i] - i == indices[i] - i;
    }
  }

  /** In the staged case the charged depth is the number of stages that radix-8 routing produces. */
  lemma DepthIsStages(indices: seq<int>, scatter: bool)
    requires MonotoneRouting.Accepted(indices) && |Offsets(indices)| > 32
    ensures RoutingDepth(indices, scatter) == MonotoneRouting.StageCount(indices, RADIX_BITS)
  {
    hide MonotoneRouting.DigitCount;
    if IsIdentity(indices) {
      IdentityOffsets(indices);
    }
    LargestIsLast(indices);
  }

  lemma IdentityOffsets(indices: seq<int>)
    requires IsIdentity(indices)
    ensures |Offsets(indices)| <= 1
  {
    assert Offsets(indices) <= {0};
    SubsetSize(Offsets(indices), {0});
  }

  lemma SubsetSize(a: set<int>, b: set<int>)
    requires a <= b
    ensures |a| <= |b|
  {
    assert b == a + (b - a);
  }

  lemma LargestIsLast(indices: seq<int>)
    requires MonotoneRouting.Accepted(indices)
    ensures MaxOffset(indices) == MonotoneRouting.MaxDistance(indices)
  {
    if |indices| > 0 {
      MonotoneRouting.MaxDistanceNat(indices);
      forall i | 0 <= i < |indices|
        ensures indices[i] - i <= MonotoneRouting.MaxDistance(indices)
      {
        MonotoneRouting.DistanceBound(indices, i);
      }
    }
  }

  /** Slot indices have at most five base-8 digits. */
  lemma RoutingBound(indices: seq<int>, scatter: bool)
    requires forall i :: 0 <= i < |indices| ==> indices[i] < 32768
    ensures RoutingDepth(indices, scatter) <= 5
  {
    hide MonotoneRouting.DigitCount;
    FiveDigits(MaxOffset(indices));
  }

  lemma FiveDigits(maximum: nat)
    requires maximum < 32768
    ensures MonotoneRouting.DigitCount(maximum, RADIX_BITS) <= 5
  {
    hide MonotoneRouting.DigitCount;
    assert Pow2(1) == 2 && Pow2(2) == 4 && Pow2(3) == 8;
    MonotoneRouting.DigitCountZero(RADIX_BITS);
    FewDigits(maximum, 5);
  }

  /** 8^k numbers need at most k digits. */
  lemma {:induction false} FewDigits(maximum: nat, k: nat)
    requires maximum < Power8(k)
    ensures MonotoneRouting.DigitCount(maximum, RADIX_BITS) <= k
    decreases k
  {
    hide MonotoneRouting.DigitCount;
    MonotoneRouting.DigitCountZero(RADIX_BITS);
    if maximum > 0 {
      assert Pow2(1) == 2 && Pow2(2) == 4 && Pow2(3) == 8;
      MonotoneRouting.DigitCountStep(maximum, RADIX_BITS);
      FewDigits(maximum / 8, k - 1);
    }
  }

  function Power8(k: nat): nat {
    if k == 0 then 1 else 8 * Power8(k - 1)
  }

  // ----- node cost

  function RepeatIndices(outer: nat, inner: nat, count: nat): seq<int> {
    seq(Area(outer, inner), k requires 0 <= k < Area(outer, inner) =>
      Place(Quotient(k, inner), Area(inner, count), Remainder(k, inner)))
  }

  function SumIndices(size: nat, width: nat): seq<int> {
    seq(size, j requires 0 <= j < size => Area(j, width))
  }

  predicate IsNegation(constants: seq<real>) {
    |constants| > 0 && forall k :: 0 <= k < |constants| ==> constants[k] == -1.0
  }

  function NodeDepth(node: Node): nat {
    match node.operation
    case MulPlain(_, constants) => if IsNegation(constants) then 0 else 1
    case Mul(_, _) => 1
    case Cheb(_, _, _, c) => PatersonStockmeyer.CeilLog2(|c|) + 2
    case Linear(_, _) => 2
    case LinearRef(_, _) => 2
    case Gather(_, indices) => RoutingDepth(indices, false)
    case Scatter(_, indices) => RoutingDepth(indices, true)
    case Repeat(_, outer, inner, count) => RoutingDepth(RepeatIndices(outer, inner, count), true)
    case SumGroups(_, width) => RoutingDepth(SumIndices(node.size, width), false)
    case _ => 0
  }

  /** What costs no level: sources, additions, negations, and scatters or repeats that move nothing. */
  lemma FreeExactly(node: Node)
    ensures NodeDepth(node) == 0 <==>
            match node.operation
            case MulPlain(_, constants) => |constants| > 0 && forall k :: 0 <= k < |constants| ==> constants[k] == -1.0
            case Scatter(_, indices) => IsIdentity(indices)
            case Repeat(_, outer, inner, count) => IsIdentity(RepeatIndices(outer, inner, count))
            case operation => operation.Input? || operation.Public? || operation.Feedback? || operation.Add? || operation.AddPlain?
  {
    hide MonotoneRouting.DigitCount, Offsets, Rising, IsIdentity, MaxOffset, RepeatIndices, SumIndices, PatersonStockmeyer.CeilLog2;
  }

  lemma RepeatIndicesBound(outer: nat, inner: nat, count: nat, slots: nat)
    requires Area(Area(outer, inner), count) <= slots && count >= 1
    ensures forall k :: 0 <= k < Area(outer, inner) ==> RepeatIndices(outer, inner, count)[k] < slots
  {
    hide Area, Place, Quotient, Remainder;
    forall k: nat | k < Area(outer, inner)
      ensures RepeatIndices(outer, inner, count)[k] < slots
    {
      PositiveArea(outer, inner, k);
      PlaceOf(k, inner);
      PlaceBound(Quotient(k, inner), inner, Remainder(k, inner), outer);
      WiderArea(inner, count);
      PlaceBound(Quotient(k, inner), Area(inner, count), Remainder(k, inner), outer);
      PlaceNested(outer, inner, 0, count, 0);
    }
  }

  lemma WiderArea(inner: nat, count: nat)
    requires count >= 1
    ensures inner <= Area(inner, count)
  {
    MulMonotone(1, count, inner);
  }

  lemma SumIndicesBound(size: nat, width: nat, slots: nat)
    requires Area(size, width) <= slots && width >= 1
    ensures forall j :: 0 <= j < size ==> SumIndices(size, width)[j] < slots
  {
    forall j: nat | j < size
      ensures Area(j, width) < slots
    {
      PlaceBound(j, width, 0, size);
    }
  }

  /** Coefficient lists of at most 1025 entries need 11 halvings. */
  lemma ChebBound(count: nat)
    requires count <= 1025
    ensures PatersonStockmeyer.CeilLog2(count) <= 11
  {
    PatersonStockmeyer.CeilLog2Bounds(count);
    if count > 1 && PatersonStockmeyer.CeilLog2(count) > 11 {
      PatersonStockmeyer.Pow2Monotone(11, PatersonStockmeyer.CeilLog2(count) - 1);
      Pow11();
    }
  }

  lemma Pow11()
    ensures Pow2(11) == 2048
  {
    assert Pow2(3) == 8;
    assert Pow2(6) == 64;
    assert Pow2(9) == 512;
  }

  /** No node the reader accepts costs more than 13 levels. */
  lemma NodeDepthBound(nodes: seq<Node>, node: Node, slots: nat, extended: bool)
    requires Readable(nodes, node, slots, extended) && slots <= 32768
    requires forall i :: 0 <= i < |nodes| ==> nodes[i].size <= slots
    ensures NodeDepth(node) <= 13
  {
    hide RoutingDepth, RepeatIndices, SumIndices, IsPowerOfTwo, Distinct;
    match node.operation {
      case Cheb(_, _, _, c) => ChebBound(|c|);
      case Gather(a, indices) =>
        assert nodes[a].size <= slots;
        RoutingBound(indices, false);
      case Scatter(_, indices) => RoutingBound(indices, true);
      case Repeat(a, outer, inner, count) =>
        assert Area(SizeOf(nodes, a), count) == node.size;
        RepeatIndicesBound(outer, inner, count, slots);
        RepeatSize(outer, inner, count);
        RoutingBound(RepeatIndices(outer, inner, count), true);
      case SumGroups(a, width) =>
        assert nodes[a].size <= slots;
        SumIndicesBound(node.size, width, slots);
        SumSize(node.size, width);
        RoutingBound(SumIndices(node.size, width), false);
      case _ =>
    }
  }

  lemma RepeatSize(outer: nat, inner: nat, count: nat)
    ensures |RepeatIndices(outer, inner, count)| == Area(outer, inner)
  {
  }

  lemma SumSize(size: nat, width: nat)
    ensures |SumIndices(size, width)| == size
  {
  }

  // ----- simulation

  function ParentsOf(operation: Operation): seq<nat> {
    match operation
    case Input(_) => []
    case Public(_) => []
    case Add(a, b) => [a, b]
    case Mul(a, b) => [a, b]
    case _ => [operation.parent]
  }

  datatype Plan = Plan(cost: seq<int>, refreshAfter: seq<bool>, deferMask: seq<bool>, live: seq<bool>, refreshes: nat,
                       ceiling: int, refreshed: int)

  predicate Matches(nodes: seq<Node>, plan: Plan) {
    |plan.cost| == |plan.refreshAfter| == |plan.deferMask| == |plan.live| == |nodes|
  }

  /** Levels so far, what each node produced, and the refreshes made. */
  datatype Levels = Levels(levels: seq<int>, produced: seq<int>, refreshes: nat)

  /** Reads operands one after the other; one that leaves too little room is refreshed first. */
  function ReadOperands(levels: seq<int>, parents: seq<nat>, cost: int, ceiling: int, refreshed: int, k: nat): (seq<int>, nat, int)
    requires k <= |parents| && forall j :: 0 <= j < |parents| ==> parents[j] < |levels|
    ensures |ReadOperands(levels, parents, cost, ceiling, refreshed, k).0| == |levels|
  {
    if k == 0 then (levels, 0, -1) else
      var (before, refreshes, level) := ReadOperands(levels, parents, cost, ceiling, refreshed, k - 1);
      var p := parents[k - 1];
      var tight := before[p] + cost > ceiling;
      var after := if tight then before[p := refreshed] else before;
      (after, refreshes + if tight then 1 else 0, if after[p] > level then after[p] else level)
  }

  predicate Ordered(nodes: seq<Node>) {
    forall i :: 0 <= i < |nodes| ==> ReadySchedule.Earlier(ParentsOf(nodes[i].operation), i)
  }

  /** One node of the simulation. */
  function SimulateNode(nodes: seq<Node>, plan: Plan, before: Levels, i: nat): (after: Levels)
    requires Matches(nodes, plan) && Ordered(nodes) && i < |nodes| && |before.levels| == |before.produced| == |nodes|
    ensures |after.levels| == |after.produced| == |nodes|
  {
    if !plan.live[i] then before else
      var parents := ParentsOf(nodes[i].operation);
      var (levels, count, highest) :=
        if nodes[i].operation.Feedback? then (before.levels, 0, -1 - plan.cost[i])
        else ReadOperands(before.levels, parents, plan.cost[i], plan.ceiling, plan.refreshed, |parents|);
      var level := highest + plan.cost[i];
      var hoist := plan.refreshAfter[i] && level > plan.refreshed;
      var final := if hoist then plan.refreshed else level;
      Levels(levels[i := final], before.produced[i := final], before.refreshes + count + if hoist then 1 else 0)
  }

  function SimulateUpTo(nodes: seq<Node>, plan: Plan, produced: seq<int>, n: nat): (r: Levels)
    requires Matches(nodes, plan) && Ordered(nodes) && n <= |nodes| == |produced|
    ensures |r.levels| == |r.produced| == |nodes|
  {
    if n == 0 then Levels(seq(|nodes|, i => -1), produced, 0) else
      SimulateNode(nodes, plan, SimulateUpTo(nodes, plan, produced, n - 1), n - 1)
  }

  function Simulated(nodes: seq<Node>, plan: Plan, produced: seq<int>): (r: Levels)
    requires Matches(nodes, plan) && Ordered(nodes) && |produced| == |nodes|
    ensures |r.levels| == |r.produced| == |nodes|
  {
    SimulateUpTo(nodes, plan, produced, |nodes|)
  }

  /** The number of refreshes does not depend on what the level table held before. */
  lemma {:induction false} RefreshesAlone(nodes: seq<Node>, plan: Plan, p: seq<int>, q: seq<int>, n: nat)
    requires Matches(nodes, plan) && Ordered(nodes) && n <= |nodes| == |p| == |q|
    ensures SimulateUpTo(nodes, plan, p, n).refreshes == SimulateUpTo(nodes, plan, q, n).refreshes
    ensures SimulateUpTo(nodes, plan, p, n).levels == SimulateUpTo(nodes, plan, q, n).levels
  {
    hide ReadOperands;
    if n > 0 {
      RefreshesAlone(nodes, plan, p, q, n - 1);
    }
  }

  /** simulate_packed_depth */
  method Simulate(nodes: seq<Node>, plan: Plan, produced0: seq<int>) returns (refreshes: nat, produced: seq<int>)
    requires Matches(nodes, plan) && Ordered(nodes) && |produced0| == |nodes|
    ensures var s := Simulated(nodes, plan, produced0); refreshes == s.refreshes && produced == s.produced
  {
    hide SimulateUpTo, SimulateNode;
    var levels := seq(|nodes|, i => -1);
    refreshes, produced := 0, produced0;
    SimulationStarts(nodes, plan, produced0);
    for i := 0 to |nodes|
      invariant Levels(levels, produced, refreshes) == SimulateUpTo(nodes, plan, produced0, i)
    {
      SimulationSteps(nodes, plan, produced0, i);
      levels, produced, refreshes := AdvanceNode(nodes, plan, levels, produced, refreshes, i);
    }
  }

  lemma SimulationStarts(nodes: seq<Node>, plan: Plan, produced: seq<int>)
    requires Matches(nodes, plan) && Ordered(nodes) && |produced| == |nodes|
    ensures SimulateUpTo(nodes, plan, produced, 0) == Levels(seq(|nodes|, i => -1), produced, 0)
  {
  }

  lemma SimulationSteps(nodes: seq<Node>, plan: Plan, produced: seq<int>, i: nat)
    requires Matches(nodes, plan) && Ordered(nodes) && i < |nodes| == |produced|
    ensures SimulateUpTo(nodes, plan, produced, i + 1) == SimulateNode(nodes, plan, SimulateUpTo(nodes, plan, produced, i), i)
  {
  }

  method AdvanceNode(nodes: seq<Node>, plan: Plan, levels0: seq<int>, produced0: seq<int>, refreshes0: nat, i: nat)
    returns (levels: seq<int>, produced: seq<int>, refreshes: nat)
    requires Matches(nodes, plan) && Ordered(nodes) && i < |nodes| == |levels0| == |produced0|
    ensures Levels(levels, produced, refreshes) == SimulateNode(nodes, plan, Levels(levels0, produced0, refreshes0), i)
  {
    levels, produced, refreshes := levels0, produced0, refreshes0;
    if !plan.live[i] {
      return;
    }
    var level := -1;
    var parents := ParentsOf(nodes[i].operation);
    if !nodes[i].operation.Feedback? {
      var cost := plan.cost[i];
      for k := 0 to |parents|
        invariant |levels| == |nodes|
        invariant (levels, refreshes - refreshes0, level) == ReadOperands(levels0, parents, cost, plan.ceiling, plan.refreshed, k)
      {
        var parent := parents[k];
        if levels[parent] + cost > plan.ceiling {
          levels := levels[parent := plan.refreshed];
          refreshes := refreshes + 1;
        }
        level := if levels[parent] > level then levels[parent] else level;
      }
      level := level + cost;
    }
    if plan.refreshAfter[i] && level > plan.refreshed {
      level := plan.refreshed;
      refreshes := refreshes + 1;
    }
    levels, produced := levels[i := level], produced[i := level];
  }

  // ----- the ceiling

  ghost predicate Affordable(plan: Plan) {
    && 0 <= plan.refreshed < plan.ceiling
    && forall i :: 0 <= i < |plan.cost| ==> 0 <= plan.cost[i] <= plan.ceiling - plan.refreshed
  }

  ghost predicate Below(levels: seq<int>, ceiling: int) {
    forall i :: 0 <= i < |levels| ==> levels[i] <= ceiling
  }

  lemma {:induction false} OperandsBelow(levels: seq<int>, parents: seq<nat>, cost: int, ceiling: int, refreshed: int, k: nat)
    requires k <= |parents| && forall j :: 0 <= j < |parents| ==> parents[j] < |levels|
    requires Below(levels, ceiling) && 0 <= refreshed && 0 <= cost <= ceiling - refreshed
    ensures var (after, _, level) := ReadOperands(levels, parents, cost, ceiling, refreshed, k);
            Below(after, ceiling) && level + cost <= ceiling
  {
    if k > 0 {
      OperandsBelow(levels, parents, cost, ceiling, refreshed, k - 1);
    }
  }

  /** Some of the first k operands leaves too little room for the node. */
  ghost predicate SomeTight(levels: seq<int>, parents: seq<nat>, cost: int, ceiling: int, k: nat)
    requires k <= |parents| && forall j :: 0 <= j < |parents| ==> parents[j] < |levels|
  {
    exists j :: 0 <= j < k && levels[parents[j]] + cost > ceiling
  }

  /**
   * A node exceeds the ceiling exactly when one of its operands is too high for it and it costs more than the gap between
   * a refresh and the ceiling.
   */
  lemma {:induction false} ExceedsExactly(levels: seq<int>, parents: seq<nat>, cost: int, ceiling: int, refreshed: int, k: nat)
    requires k <= |parents| && forall j :: 0 <= j < |parents| ==> parents[j] < |levels|
    requires Below(levels, ceiling) && 0 <= refreshed <= ceiling && forall i :: 0 <= i < |levels| ==> levels[i] >= -1
    ensures var (after, count, level) := ReadOperands(levels, parents, cost, ceiling, refreshed, k);
            && Below(after, ceiling) && (forall i :: 0 <= i < |after| ==> after[i] >= -1)
            && (k == 0 ==> level == -1)
            && (count > 0 <==> SomeTight(levels, parents, cost, ceiling, k))
            && (k > 0 ==> (level + cost > ceiling <==> SomeTight(levels, parents, cost, ceiling, k) && cost > ceiling - refreshed))
            && (count > 0 ==> level >= refreshed)
            && (count == 0 ==> after == levels)
  {
    if k > 0 {
      ExceedsExactly(levels, parents, cost, ceiling, refreshed, k - 1);
    }
  }

  /** No simulated level exceeds the ceiling while every node fits between a refresh and the ceiling. */
  lemma {:induction false} NeverAboveCeiling(nodes: seq<Node>, plan: Plan, produced: seq<int>, n: nat)
    requires Matches(nodes, plan) && Ordered(nodes) && n <= |nodes| == |produced|
    requires Affordable(plan) && Below(produced, plan.ceiling)
    ensures Below(SimulateUpTo(nodes, plan, produced, n).levels, plan.ceiling)
    ensures Below(SimulateUpTo(nodes, plan, produced, n).produced, plan.ceiling)
  {
    hide ReadOperands;
    if n > 0 {
      NeverAboveCeiling(nodes, plan, produced, n - 1);
      var i := n - 1;
      var before := SimulateUpTo(nodes, plan, produced, i);
      var parents := ParentsOf(nodes[i].operation);
      OperandsBelow(before.levels, parents, plan.cost[i], plan.ceiling, plan.refreshed, |parents|);
    }
  }

  // ----- the planner

  predicate ValidProgram(nodes: seq<Node>, outputs: seq<nat>, slots: nat, extended: bool) {
    && 2 <= slots <= 32768 && ReadySchedule.Earlier(outputs, |nodes|)
    && forall i :: 0 <= i < |nodes| ==> Readable(nodes[..i], nodes[i], slots, extended)
  }

  lemma ValidOrdered(nodes: seq<Node>, outputs: seq<nat>, slots: nat, extended: bool)
    requires ValidProgram(nodes, outputs, slots, extended)
    ensures Ordered(nodes) && forall i :: 0 <= i < |nodes| ==> NodeDepth(nodes[i]) <= 13
  {
    forall i | 0 <= i < |nodes|
      ensures ReadySchedule.Earlier(ParentsOf(nodes[i].operation), i) && NodeDepth(nodes[i]) <= 13
    {
      hide NodeDepth;
      assert forall j :: 0 <= j < i ==> nodes[..i][j].size <= slots by {
        forall j | 0 <= j < i
          ensures nodes[..i][j].size <= slots
        {
          assert Readable(nodes[..j], nodes[j], slots, extended);
        }
      }
      NodeDepthBound(nodes[..i], nodes[i], slots, extended);
    }
  }

  function AllParents(nodes: seq<Node>): (r: seq<seq<nat>>)
    ensures |r| == |nodes|
  {
    seq(|nodes|, i requires 0 <= i < |nodes| => ParentsOf(nodes[i].operation))
  }

  ghost predicate ReadByLive(parents: seq<seq<nat>>, live: seq<bool>, from: nat, p: nat)
    requires |live| == |parents|
  {
    exists c :: from <= c < |parents| && live[c] && p in parents[c]
  }

  /** Live is exactly: an output, or read by a live node. */
  ghost predicate IsLive(parents: seq<seq<nat>>, outputs: seq<nat>, live: seq<bool>) {
    |live| == |parents| && forall p :: 0 <= p < |parents| ==> (live[p] <==> p in outputs || ReadByLive(parents, live, 0, p))
  }

  /** Marks the outputs and, from the back, the parents of everything marked. */
  method MarkLive(parents: seq<seq<nat>>, outputs: seq<nat>) returns (live: seq<bool>)
    requires ReadySchedule.Earlier(outputs, |parents|) && forall i :: 0 <= i < |parents| ==> ReadySchedule.Earlier(parents[i], i)
    ensures IsLive(parents, outputs, live) && ReadySchedule.Closed(parents, live)
  {
    hide ReadByLive;
    var n := |parents|;
    live := seq(n, i => false);
    for k := 0 to |outputs|
      invariant |live| == n && forall p :: 0 <= p < n ==> (live[p] <==> p in outputs[..k])
    {
      live := live[outputs[k] := true];
    }
    assert outputs[..|outputs|] == outputs;
    NobodyReads(parents, live);
    for i := n downto 0
      invariant |live| == n && forall p :: 0 <= p < n ==> (live[p] <==> p in outputs || ReadByLive(parents, live, i, p))
    {
      ghost var before := live;
      if live[i] {
        for k := 0 to |parents[i]|
          invariant |live| == n && forall p :: 0 <= p < n ==> (live[p] <==> before[p] || p in parents[i][..k])
        {
          live := live[parents[i][k] := true];
        }
        assert parents[i][..|parents[i]|] == parents[i];
      }
      MarkedMore(parents, before, live, i);
    }
    MarkedAll(parents, outputs, live);
  }

  lemma NobodyReads(parents: seq<seq<nat>>, live: seq<bool>)
    requires |live| == |parents|
    ensures forall p :: !ReadByLive(parents, live, |parents|, p)
  {
  }

  lemma MarkedMore(parents: seq<seq<nat>>, before: seq<bool>, live: seq<bool>, i: nat)
    requires |before| == |live| == |parents| && i < |parents| && ReadySchedule.Earlier(parents[i], i)
    requires forall p :: 0 <= p < |parents| ==> (live[p] <==> before[p] || (before[i] && p in parents[i]))
    ensures forall p :: ReadByLive(parents, live, i, p) <==> ReadByLive(parents, before, i + 1, p) || (before[i] && p in parents[i])
  {
    assert forall c :: i <= c < |parents| ==> live[c] == before[c];
    forall p: nat
      ensures ReadByLive(parents, live, i, p) <==> ReadByLive(parents, before, i + 1, p) || (before[i] && p in parents[i])
    {
      if ReadByLive(parents, before, i + 1, p) {
        var c :| i + 1 <= c < |parents| && before[c] && p in parents[c];
        assert live[c];
      }
      if before[i] && p in parents[i] {
        assert live[i];
      }
    }
  }

  lemma MarkedAll(parents: seq<seq<nat>>, outputs: seq<nat>, live: seq<bool>)
    requires |live| == |parents| && forall i :: 0 <= i < |parents| ==> ReadySchedule.Earlier(parents[i], i)
    requires forall p :: 0 <= p < |parents| ==> (live[p] <==> p in outputs || ReadByLive(parents, live, 0, p))
    ensures IsLive(parents, outputs, live) && ReadySchedule.Closed(parents, live)
  {
    forall i | 0 <= i < |parents| && live[i]
      ensures ReadySchedule.AllIn(parents[i], live)
    {
      forall k | 0 <= k < |parents[i]|
        ensures parents[i][k] < |live| && live[parents[i][k]]
      {
        assert ReadByLive(parents, live, 0, parents[i][k]);
      }
    }
  }

  /** The marking is what the ready scheduler needs: closed under parents, and everything live is needed. */
  lemma LiveSuitsScheduler(nodes: seq<Node>, outputs: seq<nat>, live: seq<bool>, slots: nat, extended: bool)
    requires ValidProgram(nodes, outputs, slots, extended)
    requires IsLive(AllParents(nodes), outputs, live) && ReadySchedule.Closed(AllParents(nodes), live)
    ensures var g := ReadySchedule.Graph(AllParents(nodes), seq(|nodes|, i requires 0 <= i < |nodes| => nodes[i].operation.Feedback?), outputs, live);
            g.Valid() && ReadySchedule.Needed(g)
  {
    hide NodeDepth;
    ValidOrdered(nodes, outputs, slots, extended);
  }

  /** A linear node whose every reader is a gather and which is no output leaves its mask to them. */
  ghost predicate Defers(nodes: seq<Node>, outputs: seq<nat>, i: nat)
    requires i < |nodes|
  {
    && (nodes[i].operation.Linear? || nodes[i].operation.LinearRef?) && i !in outputs
    && forall c :: 0 <= c < |nodes| && i in ParentsOf(nodes[c].operation) ==> nodes[c].operation.Gather?
  }

  method FindDeferred(nodes: seq<Node>, outputs: seq<nat>) returns (defer: seq<bool>)
    requires Ordered(nodes) && ReadySchedule.Earlier(outputs, |nodes|)
    ensures |defer| == |nodes| && forall i :: 0 <= i < |nodes| ==> (defer[i] <==> Defers(nodes, outputs, i))
  {
    var n := |nodes|;
    defer := seq(n, i requires 0 <= i < n => nodes[i].operation.Linear? || nodes[i].operation.LinearRef?);
    ghost var linear := defer;
    for c := 0 to n
      invariant |defer| == n
      invariant forall i :: 0 <= i < n ==> (defer[i] <==> linear[i] && forall d :: 0 <= d < c && i in ParentsOf(nodes[d].operation) ==> nodes[d].operation.Gather?)
    {
      var parents := ParentsOf(nodes[c].operation);
      if !nodes[c].operation.Gather? {
        defer := Clear(defer, parents);
      }
    }
    defer := Clear(defer, outputs);
  }

  method Clear(flags: seq<bool>, list: seq<nat>) returns (r: seq<bool>)
    requires forall k :: 0 <= k < |list| ==> list[k] < |flags|
    ensures |r| == |flags| && forall i :: 0 <= i < |flags| ==> (r[i] <==> flags[i] && i !in list)
  {
    r := flags;
    for k := 0 to |list|
      invariant |r| == |flags| && forall i :: 0 <= i < |flags| ==> (r[i] <==> flags[i] && i !in list[..k])
    {
      r := r[list[k] := false];
    }
    assert list[..|list|] == list;
  }

  /** How often the first n nodes that are live read p. */
  function Uses(parents: seq<seq<nat>>, live: seq<bool>, p: nat, n: nat): nat
    requires n <= |parents| == |live|
  {
    if n == 0 then 0 else Uses(parents, live, p, n - 1) + if live[n - 1] then multiset(parents[n - 1])[p] else 0
  }

  lemma {:induction false} UsesMeans(parents: seq<seq<nat>>, live: seq<bool>, p: nat, n: nat)
    requires n <= |parents| == |live|
    ensures Uses(parents, live, p, n) >= 1 <==> exists c :: 0 <= c < n && live[c] && p in parents[c]
  {
    if n > 0 {
      UsesMeans(parents, live, p, n - 1);
      assert p in multiset(parents[n - 1]) <==> p in parents[n - 1];
    }
  }

  method CountUses(parents: seq<seq<nat>>, live: seq<bool>) returns (uses: seq<nat>)
    requires |live| == |parents| && forall i :: 0 <= i < |parents| ==> ReadySchedule.Earlier(parents[i], i)
    ensures |uses| == |parents| && forall p :: 0 <= p < |parents| ==> uses[p] == Uses(parents, live, p, |parents|)
    ensures forall p :: 0 <= p < |parents| ==> (uses[p] >= 1 <==> ReadByLive(parents, live, 0, p))
  {
    uses := seq(|parents|, i => 0);
    for i := 0 to |parents|
      invariant |uses| == |parents| && forall p :: 0 <= p < |parents| ==> uses[p] == Uses(parents, live, p, i)
    {
      if live[i] {
        ghost var before := uses;
        for k := 0 to |parents[i]|
          invariant |uses| == |parents|
          invariant forall p :: 0 <= p < |parents| ==> uses[p] == before[p] + multiset(parents[i][..k])[p]
        {
          assert parents[i][..k + 1] == parents[i][..k] + [parents[i][k]];
          uses := uses[parents[i][k] := uses[parents[i][k]] + 1];
        }
        assert parents[i][..|parents[i]|] == parents[i];
      }
    }
    forall p | 0 <= p < |parents|
      ensures uses[p] >= 1 <==> ReadByLive(parents, live, 0, p)
    {
      UsesMeans(parents, live, p, |parents|);
    }
  }

  function NoHoist(plan: Plan): Plan {
    plan.(refreshAfter := seq(|plan.refreshAfter|, i => false))
  }

  function Blank(n: nat): (r: seq<int>)
    ensures |r| == n
  {
    seq(n, i => 0)
  }

  /** The reported count is what simulating the plan gives. */
  ghost predicate Reports(nodes: seq<Node>, plan: Plan) {
    Matches(nodes, plan) && Ordered(nodes) && plan.refreshes == Simulated(nodes, plan, Blank(|nodes|)).refreshes
  }

  // ----- the greedy search

  /** The planner looks at live values with two reads or more that end above the refreshed level and are not hoisted yet. */
  predicate Eligible(nodes: seq<Node>, plan: Plan, i: nat)
    requires Matches(nodes, plan) && Ordered(nodes) && i < |nodes|
  {
    && plan.live[i] && Uses(AllParents(nodes), plan.live, i, |nodes|) >= 2 && !plan.refreshAfter[i]
    && Simulated(nodes, plan, Blank(|nodes|)).produced[i] > plan.refreshed
  }

  /** The plan with a refresh after node i. */
  function Hoisted(nodes: seq<Node>, plan: Plan, i: nat): (r: Plan)
    requires Matches(nodes, plan) && Ordered(nodes) && i < |nodes|
    ensures Matches(nodes, r)
  {
    var trial := plan.(refreshAfter := plan.refreshAfter[i := true]);
    trial.(refreshes := Simulated(nodes, trial, Blank(|nodes|)).refreshes)
  }

  /** One attempt: kept only when the whole program then needs fewer refreshes. */
  function Tried(nodes: seq<Node>, plan: Plan, i: nat): (r: Plan)
    requires Matches(nodes, plan) && Ordered(nodes) && i < |nodes|
    ensures Matches(nodes, r)
  {
    if Eligible(nodes, plan, i) && Hoisted(nodes, plan, i).refreshes < plan.refreshes then Hoisted(nodes, plan, i) else plan
  }

  /** Attempts at the first n nodes, in order. */
  function Pass(nodes: seq<Node>, plan: Plan, n: nat): (r: Plan)
    requires Matches(nodes, plan) && Ordered(nodes) && n <= |nodes|
    ensures Matches(nodes, r)
  {
    if n == 0 then plan else Tried(nodes, Pass(nodes, plan, n - 1), n - 1)
  }

  /** At most k passes, until one changes nothing. */
  function Passes(nodes: seq<Node>, plan: Plan, k: nat): (r: Plan)
    requires Matches(nodes, plan) && Ordered(nodes)
    ensures Matches(nodes, r)
    decreases k
  {
    if k == 0 || Pass(nodes, plan, |nodes|) == plan then plan else Passes(nodes, Pass(nodes, plan, |nodes|), k - 1)
  }

  /** No single further hoist lowers the count. */
  ghost predicate LocalOptimum(nodes: seq<Node>, plan: Plan)
    requires Matches(nodes, plan) && Ordered(nodes)
  {
    forall i: nat :: i < |nodes| && Eligible(nodes, plan, i) ==> Hoisted(nodes, plan, i).refreshes >= plan.refreshes
  }

  lemma {:induction false} PassLowers(nodes: seq<Node>, plan: Plan, n: nat)
    requires Matches(nodes, plan) && Ordered(nodes) && n <= |nodes|
    ensures Pass(nodes, plan, n) == plan || Pass(nodes, plan, n).refreshes < plan.refreshes
    ensures Pass(nodes, plan, n) == plan ==> forall i: nat :: i < n ==> Tried(nodes, plan, i) == plan
  {
    hide Eligible, Hoisted, Ordered, Simulated;
    if n > 0 {
      PassLowers(nodes, plan, n - 1);
    }
  }

  lemma PassOptimal(nodes: seq<Node>, plan: Plan)
    requires Matches(nodes, plan) && Ordered(nodes)
    ensures Pass(nodes, plan, |nodes|) == plan <==> LocalOptimum(nodes, plan)
  {
    hide Eligible, Ordered, Simulated;
    PassLowers(nodes, plan, |nodes|);
    if LocalOptimum(nodes, plan) {
      PassIdle(nodes, plan, |nodes|);
    } else {
      var i: nat :| i < |nodes| && Eligible(nodes, plan, i) && Hoisted(nodes, plan, i).refreshes < plan.refreshes;
      assert Tried(nodes, plan, i) != plan;
    }
  }

  lemma {:induction false} PassIdle(nodes: seq<Node>, plan: Plan, n: nat)
    requires Matches(nodes, plan) && Ordered(nodes) && n <= |nodes| && LocalOptimum(nodes, plan)
    ensures Pass(nodes, plan, n) == plan
  {
    hide Eligible, Hoisted, Ordered, Simulated;
    if n > 0 {
      PassIdle(nodes, plan, n - 1);
    }
  }

  /** The search ends at a plan that no single hoist improves, or every pass lowered the count. */
  lemma {:induction false} PassesReach(nodes: seq<Node>, plan: Plan, k: nat)
    requires Matches(nodes, plan) && Ordered(nodes)
    ensures LocalOptimum(nodes, Passes(nodes, plan, k)) || Passes(nodes, plan, k).refreshes + k <= plan.refreshes
    ensures Passes(nodes, plan, k).refreshes <= plan.refreshes
    ensures k > 0 ==> (Passes(nodes, plan, k).refreshes == plan.refreshes <==> LocalOptimum(nodes, plan))
    ensures Passes(nodes, plan, k).refreshes == plan.refreshes ==> Passes(nodes, plan, k) == plan
    decreases k
  {
    hide Pass, LocalOptimum, Ordered;
    if k > 0 {
      PassOptimal(nodes, plan);
      PassLowers(nodes, plan, |nodes|);
      if Pass(nodes, plan, |nodes|) != plan {
        PassesReach(nodes, Pass(nodes, plan, |nodes|), k - 1);
      }
    }
  }

  /** A live node's level does not depend on what the level table held before. */
  lemma {:induction false} ProducedAlone(nodes: seq<Node>, plan: Plan, p: seq<int>, q: seq<int>, n: nat)
    requires Matches(nodes, plan) && Ordered(nodes) && n <= |nodes| == |p| == |q|
    ensures forall i :: 0 <= i < n && plan.live[i] ==>
              SimulateUpTo(nodes, plan, p, n).produced[i] == SimulateUpTo(nodes, plan, q, n).produced[i]
  {
    hide ReadOperands;
    if n > 0 {
      RefreshesAlone(nodes, plan, p, q, n - 1);
      ProducedAlone(nodes, plan, p, q, n - 1);
    }
  }

  /** The level table holds what the plan's live nodes produce. */
  ghost predicate LevelsOf(nodes: seq<Node>, plan: Plan, levels: seq<int>)
    requires Matches(nodes, plan) && Ordered(nodes)
  {
    |levels| == |nodes| && forall i :: 0 <= i < |nodes| && plan.live[i] ==> levels[i] == Simulated(nodes, plan, Blank(|nodes|)).produced[i]
  }

  lemma LevelsAfter(nodes: seq<Node>, plan: Plan, before: seq<int>)
    requires Matches(nodes, plan) && Ordered(nodes) && |before| == |nodes|
    ensures LevelsOf(nodes, plan, Simulated(nodes, plan, before).produced)
  {
    hide SimulateUpTo, Ordered;
    ProducedAlone(nodes, plan, before, Blank(|nodes|), |nodes|);
  }

  /** One hoisting attempt after the other; only strict improvements are kept. */
  method Hoist(nodes: seq<Node>, plan0: Plan, levels0: seq<int>, uses: seq<nat>) returns (plan: Plan, levels: seq<int>, improved: bool)
    requires Reports(nodes, plan0) && |uses| == |nodes| && LevelsOf(nodes, plan0, levels0)
    requires forall i :: 0 <= i < |nodes| ==> uses[i] == Uses(AllParents(nodes), plan0.live, i, |nodes|)
    ensures Reports(nodes, plan) && LevelsOf(nodes, plan, levels)
    ensures plan == Pass(nodes, plan0, |nodes|) && (improved <==> plan != plan0)
    ensures plan.refreshes <= plan0.refreshes
    ensures plan == plan0.(refreshAfter := plan.refreshAfter, refreshes := plan.refreshes)
    ensures forall i :: 0 <= i < |nodes| && plan.refreshAfter[i] ==> plan0.refreshAfter[i] || (plan.live[i] && uses[i] >= 2)
  {
    hide Simulated, Ordered, LevelsOf, Pass, Uses, AllParents, Eligible, Hoisted;
    plan, levels, improved := plan0, levels0, false;
    PassStarts(nodes, plan0);
    for i := 0 to |nodes|
      invariant Reports(nodes, plan) && LevelsOf(nodes, plan, levels) && plan.refreshes <= plan0.refreshes
      invariant plan == plan0.(refreshAfter := plan.refreshAfter, refreshes := plan.refreshes)
      invariant plan == Pass(nodes, plan0, i) && (if improved then plan.refreshes < plan0.refreshes else plan == plan0)
      invariant forall k :: 0 <= k < |nodes| && plan.refreshAfter[k] ==> plan0.refreshAfter[k] || (plan.live[k] && uses[k] >= 2)
    {
      PassNext(nodes, plan0, i);
      LevelIs(nodes, plan, levels, i);
      HoistedMeans(nodes, plan, i);
      EligibleMeans(nodes, plan, i);
      if plan.live[i] && uses[i] >= 2 && !plan.refreshAfter[i] && levels[i] > plan.refreshed {
        var trial := plan.(refreshAfter := plan.refreshAfter[i := true]);
        var count, _ := Simulate(nodes, trial, Blank(|nodes|));
        if count < plan.refreshes {
          CountIgnored(nodes, trial, count);
          plan := trial.(refreshes := count);
          var again, produced := Simulate(nodes, plan, levels);
          LevelsAfter(nodes, plan, levels);
          levels := produced;
          improved := true;
        }
      }
    }
  }

  lemma PassStarts(nodes: seq<Node>, plan: Plan)
    requires Matches(nodes, plan) && Ordered(nodes)
    ensures Pass(nodes, plan, 0) == plan
  {
  }

  lemma PassNext(nodes: seq<Node>, plan: Plan, i: nat)
    requires Matches(nodes, plan) && Ordered(nodes) && i < |nodes|
    ensures Pass(nodes, plan, i + 1) == Tried(nodes, Pass(nodes, plan, i), i)
  {
  }

  lemma LevelIs(nodes: seq<Node>, plan: Plan, levels: seq<int>, i: nat)
    requires Matches(nodes, plan) && Ordered(nodes) && LevelsOf(nodes, plan, levels) && i < |nodes|
    ensures |levels| == |nodes| && (plan.live[i] ==> levels[i] == Simulated(nodes, plan, Blank(|nodes|)).produced[i])
  {
    hide Simulated, Ordered;
  }

  lemma HoistedMeans(nodes: seq<Node>, plan: Plan, i: nat)
    requires Matches(nodes, plan) && Ordered(nodes) && i < |nodes|
    ensures var trial := plan.(refreshAfter := plan.refreshAfter[i := true]);
            Hoisted(nodes, plan, i) == trial.(refreshes := Simulated(nodes, trial, Blank(|nodes|)).refreshes)
  {
    hide Simulated, Ordered;
  }

  lemma EligibleMeans(nodes: seq<Node>, plan: Plan, i: nat)
    requires Matches(nodes, plan) && Ordered(nodes) && i < |nodes|
    ensures Eligible(nodes, plan, i) <==>
            plan.live[i] && Uses(AllParents(nodes), plan.live, i, |nodes|) >= 2 && !plan.refreshAfter[i]
            && Simulated(nodes, plan, Blank(|nodes|)).produced[i] > plan.refreshed
  {
    hide Simulated, Ordered, Uses;
  }

  /** A plan's recorded count plays no part in simulating it. */
  lemma CountIgnored(nodes: seq<Node>, plan: Plan, count: nat)
    requires Matches(nodes, plan) && Ordered(nodes)
    ensures Simulated(nodes, plan.(refreshes := count), Blank(|nodes|)) == Simulated(nodes, plan, Blank(|nodes|))
  {
    hide Ordered;
    CountIgnoredUpTo(nodes, plan, count, |nodes|);
  }

  lemma {:induction false} CountIgnoredUpTo(nodes: seq<Node>, plan: Plan, count: nat, n: nat)
    requires Matches(nodes, plan) && Ordered(nodes) && n <= |nodes|
    ensures SimulateUpTo(nodes, plan.(refreshes := count), Blank(|nodes|), n) == SimulateUpTo(nodes, plan, Blank(|nodes|), n)
  {
    hide ReadOperands;
    if n > 0 {
      CountIgnoredUpTo(nodes, plan, count, n - 1);
    }
  }

  /** What the planner promises of the plan it returns. */
  ghost predicate Planned(nodes: seq<Node>, outputs: seq<nat>, plan: Plan, ceiling: int, refreshed: int) {
    && Reports(nodes, plan) && plan.ceiling == ceiling && plan.refreshed == refreshed
    && IsLive(AllParents(nodes), outputs, plan.live) && ReadySchedule.Closed(AllParents(nodes), plan.live)
    && (forall i :: 0 <= i < |nodes| ==>
          && (plan.deferMask[i] <==> Defers(nodes, outputs, i))
          && plan.cost[i] == NodeDepth(nodes[i]) - (if plan.deferMask[i] then 1 else 0)
          && (plan.refreshAfter[i] ==> plan.live[i] && Uses(AllParents(nodes), plan.live, i, |nodes|) >= 2))
    && plan.refreshes <= Simulated(nodes, NoHoist(plan), Blank(|nodes|)).refreshes
    && Searched(nodes, plan)
  }

  const PASSES := 8

  /** The greedy search makes this plan out of the one without hoists. */
  predicate Searched(nodes: seq<Node>, plan: Plan)
    requires Matches(nodes, plan) && Ordered(nodes)
  {
    plan == Passes(nodes, Unhoisted(nodes, plan), PASSES)
  }

  /** The plan that only refreshes where an operand leaves too little room. */
  function Unhoisted(nodes: seq<Node>, plan: Plan): (r: Plan)
    requires Matches(nodes, plan) && Ordered(nodes)
    ensures Matches(nodes, r)
  {
    NoHoist(plan).(refreshes := Simulated(nodes, NoHoist(plan), Blank(|nodes|)).refreshes)
  }

  /** What the search promises: no single hoist improves the plan, or eight passes each saved a refresh. */
  lemma SearchReaches(nodes: seq<Node>, outputs: seq<nat>, plan: Plan, ceiling: int, refreshed: int)
    requires Planned(nodes, outputs, plan, ceiling, refreshed)
    ensures Ordered(nodes) && Matches(nodes, plan)
    ensures LocalOptimum(nodes, plan) || plan.refreshes + 8 <= Unhoisted(nodes, plan).refreshes
    ensures plan.refreshes < Unhoisted(nodes, plan).refreshes <==> !LocalOptimum(nodes, Unhoisted(nodes, plan))
  {
    hide Simulated, Ordered, LocalOptimum, Passes, Unhoisted, NodeDepth, Defers, IsLive, Uses;
    PassesReach(nodes, Unhoisted(nodes, plan), PASSES);
  }

  /** Where some single hoist of the plan without hoists saves a refresh, the returned plan needs fewer than that plan. */
  lemma HelpfulHoistIsUsed(nodes: seq<Node>, outputs: seq<nat>, plan: Plan, ceiling: int, refreshed: int, i: nat)
    requires Planned(nodes, outputs, plan, ceiling, refreshed) && Ordered(nodes) && i < |nodes|
    requires Eligible(nodes, Unhoisted(nodes, plan), i)
    requires Hoisted(nodes, Unhoisted(nodes, plan), i).refreshes < Unhoisted(nodes, plan).refreshes
    ensures plan.refreshes < Simulated(nodes, NoHoist(plan), Blank(|nodes|)).refreshes
  {
    hide Simulated, Ordered, Eligible, Hoisted, Planned;
    SearchReaches(nodes, outputs, plan, ceiling, refreshed);
  }

  /** plan_packed_depth; None where the program raises because of the level policy. */
  method PlanDepth(nodes: seq<Node>, outputs: seq<nat>, slots: nat, extended: bool, ceiling: int, refreshed: int) returns (plan: Option<Plan>)
    requires ValidProgram(nodes, outputs, slots, extended)
    ensures plan.Some? <==> 0 <= refreshed < ceiling
    ensures plan.Some? ==> Planned(nodes, outputs, plan.value, ceiling, refreshed)
  {
    hide Simulated, NodeDepth, Defers, IsLive, Ordered, ValidProgram, LevelsOf, Pass, Passes, Uses;
    if refreshed < 0 || ceiling <= refreshed {
      return None;
    }
    ValidOrdered(nodes, outputs, slots, extended);
    ParentsEarlier(nodes, outputs, slots, extended);
    var n := |nodes|;
    var live := MarkLive(AllParents(nodes), outputs);
    var uses := CountUses(AllParents(nodes), live);
    var defer := FindDeferred(nodes, outputs);
    var cost: seq<int> := seq(n, i requires 0 <= i < n => NodeDepth(nodes[i]) - if defer[i] then 1 else 0);
    var best := Plan(cost, seq(n, i => false), defer, live, 0, ceiling, refreshed);
    var start, levels := Simulate(nodes, best, Blank(n));
    CountIgnored(nodes, best, start);
    best := best.(refreshes := start);
    LevelsAfter(nodes, best, Blank(n));
    ghost var first := best;
    ghost var ended := false;
    for attempt := 0 to PASSES
      invariant Reports(nodes, best) && LevelsOf(nodes, best, levels) && best.refreshes <= start
      invariant best == first.(refreshAfter := best.refreshAfter, refreshes := best.refreshes)
      invariant Passes(nodes, best, PASSES - attempt) == Passes(nodes, first, PASSES)
      invariant forall i :: 0 <= i < n && best.refreshAfter[i] ==> best.live[i] && uses[i] >= 2
    {
      PassesNext(nodes, best, PASSES - attempt);
      var improved;
      best, levels, improved := Hoist(nodes, best, levels, uses);
      if !improved {
        ended := true;
        break;
      }
    }
    if !ended {
      PassesDone(nodes, best);
    }
    UnhoistedCount(nodes, first, best);
    return Some(best);
  }

  lemma PassesNext(nodes: seq<Node>, plan: Plan, k: nat)
    requires Matches(nodes, plan) && Ordered(nodes) && k > 0
    ensures Passes(nodes, plan, k) == if Pass(nodes, plan, |nodes|) == plan then plan else Passes(nodes, Pass(nodes, plan, |nodes|), k - 1)
  {
    hide Pass, Ordered;
  }

  lemma PassesDone(nodes: seq<Node>, plan: Plan)
    requires Matches(nodes, plan) && Ordered(nodes)
    ensures Passes(nodes, plan, 0) == plan
  {
  }

  lemma ParentsEarlier(nodes: seq<Node>, outputs: seq<nat>, slots: nat, extended: bool)
    requires ValidProgram(nodes, outputs, slots, extended) && Ordered(nodes)
    ensures ReadySchedule.Earlier(outputs, |nodes|)
    ensures forall i :: 0 <= i < |nodes| ==> ReadySchedule.Earlier(AllParents(nodes)[i], i)
  {
  }

  lemma UnhoistedCount(nodes: seq<Node>, first: Plan, best: Plan)
    requires Reports(nodes, first) && Matches(nodes, best) && first.refreshAfter == seq(|nodes|, i => false)
    requires best == first.(refreshAfter := best.refreshAfter, refreshes := best.refreshes)
    ensures first.refreshes == Simulated(nodes, NoHoist(best), Blank(|nodes|)).refreshes && first == Unhoisted(nodes, best)
  {
    hide Simulated, Ordered;
    CountIgnored(nodes, first, best.refreshes);
    assert NoHoist(best) == first.(refreshes := best.refreshes);
  }

  /**
   * For every program the reader accepts and every policy that leaves at least 13 levels between a refresh and the ceiling,
   * as the default of 39 and 22 does: no simulated level of the plan exceeds the ceiling.
   */
  lemma PlanStaysBelow(nodes: seq<Node>, outputs: seq<nat>, slots: nat, extended: bool, plan: Plan)
    requires ValidProgram(nodes, outputs, slots, extended) && Matches(nodes, plan) && Ordered(nodes)
    requires 0 <= plan.refreshed && plan.ceiling - plan.refreshed >= 13
    requires forall i :: 0 <= i < |nodes| ==>
               (plan.deferMask[i] <==> Defers(nodes, outputs, i))
               && plan.cost[i] == NodeDepth(nodes[i]) - (if plan.deferMask[i] then 1 else 0)
    ensures Below(Simulated(nodes, plan, Blank(|nodes|)).levels, plan.ceiling)
    ensures Below(Simulated(nodes, plan, Blank(|nodes|)).produced, plan.ceiling)
  {
    hide SimulateUpTo, Ordered, ValidProgram;
    ValidOrdered(nodes, outputs, slots, extended);
    forall i | 0 <= i < |nodes|
      ensures 0 <= plan.cost[i] <= plan.ceiling - plan.refreshed
    {
      if Defers(nodes, outputs, i) {
        DeferredCost(nodes, outputs, i);
      }
    }
    NeverAboveCeiling(nodes, plan, Blank(|nodes|), |nodes|);
  }

  lemma DeferredCost(nodes: seq<Node>, outputs: seq<nat>, i: nat)
    requires i < |nodes| && Defers(nodes, outputs, i)
    ensures NodeDepth(nodes[i]) == 2
  {
  }
}
