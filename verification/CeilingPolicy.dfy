/** Which level policies keep every plan below the ceiling (native/fideslib_stage0/include/packed_depth.hpp:72-141). */
module CeilingPolicy {
  import opened Sums
  import opened PackedNodes
  import opened DepthPlanner
  import ReadySchedule
  import PatersonStockmeyer

  const DEEPEST := 13

  /** No plan of any program the reader accepts simulates a level above the ceiling. */
  ghost predicate CeilingHolds(ceiling: int, refreshed: int) {
    forall nodes: seq<Node>, outputs: seq<nat>, slots: nat, extended: bool, plan: Plan ::
      ValidProgram(nodes, outputs, slots, extended) && Planned(nodes, outputs, plan, ceiling, refreshed)
      ==> StaysBelow(nodes, plan, ceiling)
  }

  ghost predicate StaysBelow(nodes: seq<Node>, plan: Plan, ceiling: int) {
    Matches(nodes, plan) && Ordered(nodes) && Below(Simulated(nodes, plan, Blank(|nodes|)).levels, ceiling)
  }

  /** An accepted policy keeps its own ceiling on all programs if and only if its gap is at least 13 levels. */
  lemma CeilingExact(ceiling: int, refreshed: int)
    requires 0 <= refreshed < ceiling
    ensures CeilingHolds(ceiling, refreshed) <==> ceiling - refreshed >= DEEPEST
  {
    hide *;
    if ceiling - refreshed >= DEEPEST {
      forall nodes: seq<Node>, outputs: seq<nat>, slots: nat, extended: bool, plan: Plan
        | ValidProgram(nodes, outputs, slots, extended) && Planned(nodes, outputs, plan, ceiling, refreshed)
        ensures StaysBelow(nodes, plan, ceiling)
      {
        WideGapHolds(nodes, outputs, slots, extended, plan, ceiling, refreshed);
      }
      HoldsMeans(ceiling, refreshed);
    } else {
      ChainValid(ceiling + 1);
      ChainPlanned(ceiling, refreshed, ChainPlan(ceiling, refreshed));
      ChainExceeds(ceiling, refreshed);
      if CeilingHolds(ceiling, refreshed) {
        HoldsAt(ceiling, refreshed, Chain(ceiling + 1), [ceiling + 2], 2, false, ChainPlan(ceiling, refreshed));
      }
    }
  }

  lemma WideGapHolds(nodes: seq<Node>, outputs: seq<nat>, slots: nat, extended: bool, plan: Plan, ceiling: int, refreshed: int)
    requires 0 <= refreshed && ceiling - refreshed >= DEEPEST
    requires ValidProgram(nodes, outputs, slots, extended) && Planned(nodes, outputs, plan, ceiling, refreshed)
    ensures StaysBelow(nodes, plan, ceiling)
  {
    hide ValidProgram, Simulated, NodeDepth, Defers, Ordered, IsLive, Below;
    PlanStaysBelow(nodes, outputs, slots, extended, plan);
  }

  lemma HoldsMeans(ceiling: int, refreshed: int)
    requires forall nodes: seq<Node>, outputs: seq<nat>, slots: nat, extended: bool, plan: Plan ::
               ValidProgram(nodes, outputs, slots, extended) && Planned(nodes, outputs, plan, ceiling, refreshed)
               ==> StaysBelow(nodes, plan, ceiling)
    ensures CeilingHolds(ceiling, refreshed)
  {
    hide ValidProgram, Planned, StaysBelow;
  }

  lemma HoldsAt(ceiling: int, refreshed: int, nodes: seq<Node>, outputs: seq<nat>, slots: nat, extended: bool, plan: Plan)
    requires CeilingHolds(ceiling, refreshed)
    requires ValidProgram(nodes, outputs, slots, extended) && Planned(nodes, outputs, plan, ceiling, refreshed)
    ensures StaysBelow(nodes, plan, ceiling)
  {
    hide ValidProgram, Planned, StaysBelow;
  }

  // ----- the deep chain

  function ChainOperation(k: nat, i: nat): Operation {
    if i == 0 then Input([1.0]) else
    if i <= k then MulPlain(i - 1, [2.0]) else
      Cheb(k, -1.0, 1.0, seq(1025, j => 1.0))
  }

  /** An input, k multiplications one after the other, and a polynomial of the largest degree the reader accepts. */
  function Chain(k: nat): (nodes: seq<Node>)
    ensures |nodes| == k + 2
  {
    seq(k + 2, i requires 0 <= i < k + 2 => Node(ChainOperation(k, i), 1))
  }

  lemma ChainValid(k: nat)
    ensures ValidProgram(Chain(k), [k + 1], 2, false) && Ordered(Chain(k))
  {
    forall i | 0 <= i < k + 2
      ensures Readable(Chain(k)[..i], Chain(k)[i], 2, false)
    {
      if i > 0 {
        assert Chain(k)[..i][i - 1].size == 1;
      }
    }
  }

  lemma ChainParents(k: nat, i: nat)
    requires i < k + 2
    ensures ParentsOf(Chain(k)[i].operation) == if i == 0 then [] else [i - 1]
    ensures AllParents(Chain(k))[i] == if i == 0 then [] else [i - 1]
    ensures !Chain(k)[i].operation.Feedback?
  {
  }

  lemma ChainCost(k: nat, i: nat)
    requires i < k + 2
    ensures NodeDepth(Chain(k)[i]) == if i == 0 then 0 else if i <= k then 1 else DEEPEST
    ensures !Defers(Chain(k), [k + 1], i)
  {
    hide PatersonStockmeyer.CeilLog2;
    var node := Chain(k)[i];
    if i == k + 1 {
      DeepestLog();
    } else if i > 0 {
      assert node.operation.constants[0] == 2.0;
    }
  }

  lemma DeepestLog()
    ensures PatersonStockmeyer.CeilLog2(1025) == 11
  {
    PatersonStockmeyer.CeilLog2Bounds(1025);
    Pow11();
    var depth := PatersonStockmeyer.CeilLog2(1025);
    ChebBound(1025);
    assert Pow2(11) == 2 * Pow2(10);
    if depth < 11 {
      PatersonStockmeyer.Pow2Monotone(depth, 10);
    }
  }

  /** The one plan of the chain: nothing is hoisted, because every value is read once. */
  function ChainPlan(ceiling: nat, refreshed: int): (plan: Plan) {
    var n := ceiling + 3;
    Plan(seq(n, i requires 0 <= i < n => if i == 0 then 0 else if i <= ceiling + 1 then 1 else DEEPEST),
         seq(n, i => false), seq(n, i => false), seq(n, i => true), 1, ceiling, refreshed)
  }

  /** Each multiplication adds one level, up to the ceiling itself. */
  lemma {:induction false} ChainLevels(ceiling: nat, refreshed: nat, n: nat)
    requires 1 <= n <= ceiling + 2 && Ordered(Chain(ceiling + 1))
    ensures var s := SimulateUpTo(Chain(ceiling + 1), ChainPlan(ceiling, refreshed), Blank(ceiling + 3), n);
            s.refreshes == 0 && forall i :: 0 <= i < n ==> s.levels[i] == i - 1
  {
    hide SimulateUpTo, Ordered, Chain, ReadOperands;
    var nodes, plan := Chain(ceiling + 1), ChainPlan(ceiling, refreshed);
    var i := n - 1;
    SimulationStarts(nodes, plan, Blank(ceiling + 3));
    SimulationSteps(nodes, plan, Blank(ceiling + 3), i);
    ChainParents(ceiling + 1, i);
    var before := SimulateUpTo(nodes, plan, Blank(ceiling + 3), i);
    if i > 0 {
      ChainLevels(ceiling, refreshed, i);
      ReadsOne(before.levels, i - 1, 1, ceiling, refreshed);
    } else {
      ReadsNone(before.levels, 0, ceiling, refreshed);
    }
  }

  lemma ReadsNone(levels: seq<int>, cost: int, ceiling: int, refreshed: int)
    ensures ReadOperands(levels, [], cost, ceiling, refreshed, 0) == (levels, 0, -1)
  {
  }

  lemma ReadsOne(levels: seq<int>, p: nat, cost: int, ceiling: int, refreshed: int)
    requires p < |levels| && levels[p] >= -1 && refreshed >= 0
    ensures ReadOperands(levels, [p], cost, ceiling, refreshed, 1)
         == if levels[p] + cost > ceiling then (levels[p := refreshed], 1, refreshed) else (levels, 0, levels[p])
  {
    ReadsNone(levels, cost, ceiling, refreshed);
    assert ReadOperands(levels, [p], cost, ceiling, refreshed, 0) == (levels, 0, -1);
  }

  /** The polynomial refreshes its operand and still ends 13 levels above the refresh. */
  lemma ChainEnds(ceiling: nat, refreshed: nat)
    requires Ordered(Chain(ceiling + 1))
    ensures Matches(Chain(ceiling + 1), ChainPlan(ceiling, refreshed)) && ChainPlan(ceiling, refreshed).refreshes == 1
    ensures var s := Simulated(Chain(ceiling + 1), ChainPlan(ceiling, refreshed), Blank(ceiling + 3));
            s.refreshes == 1 && s.levels[ceiling + 2] == refreshed + DEEPEST
  {
    hide SimulateUpTo, Ordered, Chain, ReadOperands;
    var nodes, plan := Chain(ceiling + 1), ChainPlan(ceiling, refreshed);
    var i := ceiling + 2;
    ChainLevels(ceiling, refreshed, i);
    SimulationSteps(nodes, plan, Blank(ceiling + 3), i);
    ChainParents(ceiling + 1, i);
    var before := SimulateUpTo(nodes, plan, Blank(ceiling + 3), i);
    ReadsOne(before.levels, i - 1, DEEPEST, ceiling, refreshed);
  }

  lemma ChainExceeds(ceiling: nat, refreshed: nat)
    requires Ordered(Chain(ceiling + 1)) && ceiling - refreshed < DEEPEST
    ensures !StaysBelow(Chain(ceiling + 1), ChainPlan(ceiling, refreshed), ceiling)
  {
    hide Simulated, Ordered, Chain;
    ChainEnds(ceiling, refreshed);
  }

  // ----- the planner has no other plan for the chain

  lemma {:induction false} ChainUses(k: nat, live: seq<bool>, p: nat, n: nat)
    requires |live| == k + 2 && n <= k + 2
    ensures Uses(AllParents(Chain(k)), live, p, n) <= if n > p + 1 then 1 else 0
  {
    hide Chain, AllParents;
    if n > 0 {
      ChainUses(k, live, p, n - 1);
      ChainParents(k, n - 1);
    }
  }

  /** Everything in the chain is live. */
  lemma {:induction false} ChainLive(k: nat, live: seq<bool>, p: nat)
    requires IsLive(AllParents(Chain(k)), [k + 1], live) && p < k + 2
    ensures live[p]
    decreases k + 2 - p
  {
    hide Chain, AllParents;
    if p < k + 1 {
      ChainLive(k, live, p + 1);
      ChainParents(k, p + 1);
      assert ReadByLive(AllParents(Chain(k)), live, 0, p);
    }
  }

  lemma AllLive(k: nat, live: seq<bool>)
    requires |live| == k + 2 && forall p :: 0 <= p < k + 2 ==> live[p]
    ensures IsLive(AllParents(Chain(k)), [k + 1], live) && ReadySchedule.Closed(AllParents(Chain(k)), live)
  {
    hide Chain, AllParents;
    var parents := AllParents(Chain(k));
    forall p | 0 <= p < k + 2
      ensures p in [k + 1] || ReadByLive(parents, live, 0, p)
    {
      if p < k + 1 {
        ChainParents(k, p + 1);
        assert live[p + 1] && p in parents[p + 1];
      }
    }
    forall i | 0 <= i < k + 2
      ensures ReadySchedule.AllIn(parents[i], live)
    {
      ChainParents(k, i);
    }
  }

  /** The planner's promise leaves it exactly one plan of the chain. */
  lemma ChainPlanned(ceiling: nat, refreshed: nat, plan: Plan)
    requires Ordered(Chain(ceiling + 1))
    ensures Planned(Chain(ceiling + 1), [ceiling + 2], plan, ceiling, refreshed) <==> plan == ChainPlan(ceiling, refreshed)
  {
    hide *;
    var nodes := Chain(ceiling + 1);
    ChainEnds(ceiling, refreshed);
    ChainPlanFits(ceiling, refreshed);
    if Planned(nodes, [ceiling + 2], plan, ceiling, refreshed) {
      ChainDetermined(ceiling, refreshed, plan);
      CountIgnored(nodes, ChainPlan(ceiling, refreshed), plan.refreshes);
    }
  }

  lemma ChainDetermined(ceiling: nat, refreshed: nat, plan: Plan)
    requires Ordered(Chain(ceiling + 1)) && Planned(Chain(ceiling + 1), [ceiling + 2], plan, ceiling, refreshed)
    ensures plan == ChainPlan(ceiling, refreshed).(refreshes := plan.refreshes)
    ensures plan.refreshes == Simulated(Chain(ceiling + 1), plan, Blank(ceiling + 3)).refreshes
  {
    hide Chain, AllParents, Simulated, Ordered, NodeDepth, Defers, IsLive, Uses, Searched;
    var one := ChainPlan(ceiling, refreshed);
    forall i | 0 <= i < ceiling + 3
      ensures plan.live[i] && !plan.refreshAfter[i] && !plan.deferMask[i] && plan.cost[i] == one.cost[i]
    {
      ChainLive(ceiling + 1, plan.live, i);
      ChainUses(ceiling + 1, plan.live, i, ceiling + 3);
      ChainCost(ceiling + 1, i);
    }
    assert plan.live == one.live && plan.refreshAfter == one.refreshAfter && plan.deferMask == one.deferMask && plan.cost == one.cost;
  }

  lemma ChainPlanFits(ceiling: nat, refreshed: nat)
    requires Ordered(Chain(ceiling + 1))
    requires Simulated(Chain(ceiling + 1), ChainPlan(ceiling, refreshed), Blank(ceiling + 3)).refreshes == 1
    ensures Planned(Chain(ceiling + 1), [ceiling + 2], ChainPlan(ceiling, refreshed), ceiling, refreshed)
  {
    hide Chain, AllParents, Simulated, Ordered, NodeDepth, Defers, IsLive, Uses, Searched;
    var nodes, plan := Chain(ceiling + 1), ChainPlan(ceiling, refreshed);
    forall i | 0 <= i < ceiling + 3
      ensures plan.deferMask[i] <==> Defers(nodes, [ceiling + 2], i)
      ensures plan.cost[i] == NodeDepth(nodes[i]) - (if plan.deferMask[i] then 1 else 0)
    {
      ChainCost(ceiling + 1, i);
    }
    AllLive(ceiling + 1, plan.live);
    assert NoHoist(plan) == plan;
    assert Unhoisted(Chain(ceiling + 1), plan) == plan;
    ChainSearched(ceiling, refreshed);
  }

  /** No value of the chain is read twice, so the search changes nothing. */
  lemma ChainSearched(ceiling: nat, refreshed: nat)
    requires Ordered(Chain(ceiling + 1)) && Matches(Chain(ceiling + 1), ChainPlan(ceiling, refreshed))
    requires Unhoisted(Chain(ceiling + 1), ChainPlan(ceiling, refreshed)) == ChainPlan(ceiling, refreshed)
    ensures Searched(Chain(ceiling + 1), ChainPlan(ceiling, refreshed))
  {
    hide Chain, AllParents, Simulated, Ordered, Uses, Passes, Pass, Unhoisted;
    var nodes, plan := Chain(ceiling + 1), ChainPlan(ceiling, refreshed);
    forall i: nat | i < |nodes|
      ensures !Eligible(nodes, plan, i)
    {
      ChainUses(ceiling + 1, plan.live, i, ceiling + 3);
    }
    PassIdle(nodes, plan, |nodes|);
    PassesNext(nodes, plan, PASSES);
  }
}
