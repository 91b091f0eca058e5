/** native/fideslib_stage0/include/packed_schedule.hpp and packed_lifetime.hpp: the ready frontier. */
module ReadySchedule {
  import opened Wrappers

  /** The parts of a packed program the scheduler reads, and the nodes it has to run. */
  datatype Graph = Graph(parents: seq<seq<nat>>, feedback: seq<bool>, outputs: seq<nat>, live: seq<bool>)
  {
    predicate Valid() {
      && |feedback| == |live| == |parents|
      && (forall i :: 0 <= i < |parents| ==> Earlier(parents[i], i))
      && Earlier(outputs, |parents|)
      && Closed(parents, live)
    }

    function Size(): nat {
      |parents|
    }
  }

  predicate Earlier(list: seq<nat>, n: nat) {
    forall k :: 0 <= k < |list| ==> list[k] < n
  }

  predicate AllIn(list: seq<nat>, flags: seq<bool>) {
    forall k :: 0 <= k < |list| ==> list[k] < |flags| && flags[list[k]]
  }

  /** Parents of live nodes are live. */
  predicate Closed(parents: seq<seq<nat>>, live: seq<bool>) {
    |live| == |parents| && forall i :: 0 <= i < |parents| && live[i] ==> AllIn(parents[i], live)
  }

  // ----- counting

  function Count(list: seq<nat>, x: nat): nat
    decreases |list|
  {
    if |list| == 0 then 0 else Count(list[..|list| - 1], x) + if list[|list| - 1] == x then 1 else 0
  }

  /** Entries of list that still have to run. */
  function Undone(list: seq<nat>, done: seq<bool>): nat
    decreases |list|
  {
    if |list| == 0 then 0 else Undone(list[..|list| - 1], done) + if Waits(list[|list| - 1], done) then 1 else 0
  }

  predicate Waits(x: nat, done: seq<bool>) {
    x < |done| && !done[x]
  }

  function CountTrue(flags: seq<bool>): nat
    decreases |flags|
  {
    if |flags| == 0 then 0 else CountTrue(flags[..|flags| - 1]) + if flags[|flags| - 1] then 1 else 0
  }

  lemma {:induction false} CountIn(list: seq<nat>, x: nat)
    ensures Count(list, x) > 0 <==> x in list
    decreases |list|
  {
    if |list| > 0 {
      var front := list[..|list| - 1];
      CountIn(front, x);
      assert list == front + [list[|list| - 1]];
    }
  }

  lemma {:induction false} CountConcat(a: seq<nat>, b: seq<nat>, x: nat)
    ensures Count(a + b, x) == Count(a, x) + Count(b, x)
    decreases |b|
  {
    if |b| == 0 {
      assert a + b == a;
    } else {
      CountConcat(a, b[..|b| - 1], x);
      assert (a + b)[..|a + b| - 1] == a + b[..|b| - 1];
    }
  }

  lemma CountPush(list: seq<nat>, y: nat, x: nat)
    ensures Count(list + [y], x) == Count(list, x) + if y == x then 1 else 0
  {
    assert (list + [y])[..|list|] == list;
  }

  lemma {:induction false} UndoneAfter(list: seq<nat>, done: seq<bool>, i: nat)
    requires Waits(i, done)
    ensures Undone(list, done[i := true]) == Undone(list, done) - Count(list, i)
    decreases |list|
  {
    if |list| > 0 {
      UndoneAfter(list[..|list| - 1], done, i);
    }
  }

  predicate NoneWaits(list: seq<nat>, done: seq<bool>) {
    forall k :: 0 <= k < |list| ==> !Waits(list[k], done)
  }

  lemma {:induction false} UndoneZero(list: seq<nat>, done: seq<bool>)
    ensures Undone(list, done) == 0 <==> NoneWaits(list, done)
    decreases |list|
  {
    if |list| > 0 {
      var front := list[..|list| - 1];
      UndoneZero(front, done);
      if NoneWaits(front, done) && !Waits(list[|list| - 1], done) {
        assert forall k :: 0 <= k < |front| ==> front[k] == list[k];
      }
      if NoneWaits(list, done) {
        assert forall k :: 0 <= k < |front| ==> front[k] == list[k];
      }
    }
  }

  /** Reads of i are all that is left of list exactly when no other entry waits. */
  lemma UndoneOnly(list: seq<nat>, done: seq<bool>, i: nat)
    requires Waits(i, done)
    ensures Count(list, i) <= Undone(list, done)
    ensures Count(list, i) == Undone(list, done) <==> forall k :: 0 <= k < |list| && Waits(list[k], done) ==> list[k] == i
  {
    UndoneAfter(list, done, i);
    UndoneZero(list, done[i := true]);
    assert forall k :: 0 <= k < |list| ==> (Waits(list[k], done[i := true]) <==> Waits(list[k], done) && list[k] != i);
  }

  lemma {:induction false} CountTrueSet(flags: seq<bool>, i: nat, b: bool)
    requires i < |flags|
    ensures CountTrue(flags[i := b]) == CountTrue(flags) - (if flags[i] then 1 else 0) + if b then 1 else 0
    decreases |flags|
  {
    var n := |flags| - 1;
    if i < n {
      CountTrueSet(flags[..n], i, b);
      assert flags[i := b][..n] == flags[..n][i := b];
    } else {
      assert flags[i := b][..n] == flags[..n];
    }
  }

  lemma {:induction false} CountTrueZero(flags: seq<bool>)
    ensures CountTrue(flags) == 0 <==> forall i :: 0 <= i < |flags| ==> !flags[i]
    decreases |flags|
  {
    if |flags| > 0 {
      var front := flags[..|flags| - 1];
      CountTrueZero(front);
      assert flags == front + [flags[|flags| - 1]];
    }
  }

  lemma CountTruePush(flags: seq<bool>, b: bool)
    ensures CountTrue(flags + [b]) == CountTrue(flags) + if b then 1 else 0
  {
    assert (flags + [b])[..|flags|] == flags;
  }

  // ----- consumers (plan_packed_uses)

  function Repeat(x: nat, n: nat): seq<nat> {
    seq(n, i => x)
  }

  /** The live nodes below n that read p, ascending, one entry per read. */
  function Consumers(g: Graph, p: nat, n: nat): seq<nat>
    requires g.Valid() && n <= g.Size()
  {
    if n == 0 then [] else
      Consumers(g, p, n - 1) + Repeat(n - 1, if g.live[n - 1] then Count(g.parents[n - 1], p) else 0)
  }

  function AllConsumers(g: Graph, p: nat): seq<nat>
    requires g.Valid()
  {
    Consumers(g, p, g.Size())
  }

  lemma {:induction false} CountRepeat(x: nat, n: nat, y: nat)
    ensures Count(Repeat(x, n), y) == if x == y then n else 0
  {
    if n > 0 {
      CountRepeat(x, n - 1, y);
      assert Repeat(x, n)[..n - 1] == Repeat(x, n - 1);
    }
  }

  /** A consumer is listed once for every time it reads p. */
  lemma {:induction false} ConsumersCount(g: Graph, p: nat, n: nat, c: nat)
    requires g.Valid() && n <= g.Size()
    ensures Count(Consumers(g, p, n), c) == if c < n && g.live[c] then Count(g.parents[c], p) else 0
  {
    hide Count;
    NoneCounted(c);
    if n > 0 {
      ConsumersCount(g, p, n - 1, c);
      var times := if g.live[n - 1] then Count(g.parents[n - 1], p) else 0;
      CountRepeat(n - 1, times, c);
      CountConcat(Consumers(g, p, n - 1), Repeat(n - 1, times), c);
    }
  }

  lemma NoneCounted(c: nat)
    ensures Count([], c) == 0
  {
  }

  predicate Ascending(list: seq<nat>) {
    forall j, k :: 0 <= j < k < |list| ==> list[j] <= list[k]
  }

  lemma {:induction false} ConsumersOrdered(g: Graph, p: nat, n: nat)
    requires g.Valid() && n <= g.Size()
    ensures Ascending(Consumers(g, p, n)) && Earlier(Consumers(g, p, n), n) && AllIn(Consumers(g, p, n), g.live)
  {
    if n > 0 {
      ConsumersOrdered(g, p, n - 1);
    }
  }

  /** Index of the last use of every node; outputs are used by the caller. */
  method PlanUses(g: Graph) returns (last: seq<nat>, consumers: seq<seq<nat>>)
    requires g.Valid()
    ensures |last| == |consumers| == g.Size()
    ensures forall p :: 0 <= p < g.Size() ==> consumers[p] == AllConsumers(g, p)
    ensures forall p :: 0 <= p < g.Size() ==>
              last[p] == if p in g.outputs then g.Size() else if consumers[p] == [] then 0 else consumers[p][|consumers[p]| - 1]
  {
    var n := g.Size();
    last, consumers := Repeat(0, n), seq(n, i => []);
    for i := 0 to n
      invariant |last| == |consumers| == n
      invariant forall p :: 0 <= p < n ==> consumers[p] == Consumers(g, p, i)
      invariant forall p :: 0 <= p < n ==> last[p] == if consumers[p] == [] then 0 else consumers[p][|consumers[p]| - 1]
    {
      if g.live[i] {
        last, consumers := RecordReads(g.parents[i], i, last, consumers);
      }
    }
    last := MarkOutputs(g.outputs, last);
  }

  method MarkOutputs(outputs: seq<nat>, last0: seq<nat>) returns (last: seq<nat>)
    requires Earlier(outputs, |last0|)
    ensures |last| == |last0|
    ensures forall p :: 0 <= p < |last| ==> last[p] == if p in outputs then |last| else last0[p]
  {
    last := last0;
    for k := 0 to |outputs|
      invariant |last| == |last0|
      invariant forall p :: 0 <= p < |last| ==> last[p] == if p in outputs[..k] then |last| else last0[p]
    {
      last := last[outputs[k] := |last|];
    }
    assert outputs[..|outputs|] == outputs;
  }

  /** One node's reads of its parents. */
  method RecordReads(parents: seq<nat>, i: nat, last0: seq<nat>, consumers0: seq<seq<nat>>)
    returns (last: seq<nat>, consumers: seq<seq<nat>>)
    requires |last0| == |consumers0| && Earlier(parents, |last0|)
    requires forall p :: 0 <= p < |last0| ==>
               last0[p] == if consumers0[p] == [] then 0 else consumers0[p][|consumers0[p]| - 1]
    ensures |last| == |consumers| == |last0|
    ensures forall p :: 0 <= p < |last0| ==> consumers[p] == consumers0[p] + Repeat(i, Count(parents, p))
    ensures forall p :: 0 <= p < |last0| ==>
              last[p] == if consumers[p] == [] then 0 else consumers[p][|consumers[p]| - 1]
  {
    last, consumers := last0, consumers0;
    for k := 0 to |parents|
      invariant |last| == |consumers| == |last0|
      invariant forall p :: 0 <= p < |last0| ==> consumers[p] == consumers0[p] + Repeat(i, Count(parents[..k], p))
      invariant forall p :: 0 <= p < |last0| ==>
                  last[p] == if consumers[p] == [] then 0 else consumers[p][|consumers[p]| - 1]
    {
      var parent := parents[k];
      assert parents[..k + 1] == parents[..k] + [parent];
      forall p: nat
        ensures Count(parents[..k + 1], p) == Count(parents[..k], p) + if parent == p then 1 else 0
      {
        CountPush(parents[..k], parent, p);
      }
      var before := Count(parents[..k], parent);
      assert consumers0[parent] + Repeat(i, before) + [i] == consumers0[parent] + Repeat(i, before + 1);
      last := last[parent := i];
      consumers := consumers[parent := consumers[parent] + [i]];
    }
    assert parents[..|parents|] == parents;
  }

  // ----- epochs

  /** Feedback nodes at or before i. */
  function EpochAt(feedback: seq<bool>, i: nat): nat
    requires i < |feedback|
  {
    (if i == 0 then 0 else EpochAt(feedback, i - 1)) + if feedback[i] then 1 else 0
  }

  function Epochs(feedback: seq<bool>): seq<nat> {
    seq(|feedback|, i requires 0 <= i < |feedback| => EpochAt(feedback, i))
  }

  lemma {:induction false} EpochMonotone(feedback: seq<bool>, i: nat, j: nat)
    requires i <= j < |feedback|
    ensures EpochAt(feedback, i) <= EpochAt(feedback, j)
    ensures forall f :: i < f <= j && feedback[f] ==> EpochAt(feedback, i) < EpochAt(feedback, j)
    decreases j - i
  {
    if i < j {
      EpochMonotone(feedback, i, j - 1);
    }
  }

  /** Which nodes of epoch e still wait. */
  function Waiting(epoch: seq<nat>, done: seq<bool>, e: nat): seq<bool>
    requires |epoch| == |done|
  {
    seq(|done|, i requires 0 <= i < |done| => !done[i] && epoch[i] == e)
  }

  function NotDone(done: seq<bool>): seq<bool> {
    seq(|done|, i requires 0 <= i < |done| => !done[i])
  }

  // ----- the frontier as a value

  /** The scheduler's fields; trace records the order of completions. */
  datatype Frontier = Frontier(pending: seq<int>, uses: seq<int>, left: seq<int>, done: seq<bool>, retained: seq<bool>,
                               ready: set<nat>, active: nat, remaining: int, liveValues: int, trace: seq<nat>)

  /** pending and remaining_uses count the parents and the reads that have not run yet. */
  ghost predicate Counted(g: Graph, f: Frontier)
    requires g.Valid()
  {
    && |f.done| == |f.pending| == |f.uses| == g.Size()
    && (forall i :: 0 <= i < g.Size() ==> (f.done[i] <==> (!g.live[i] || i in f.trace)))
    && (forall i :: 0 <= i < g.Size() ==> f.pending[i] == if g.live[i] then Undone(g.parents[i], f.done) else 0)
    && (forall p :: 0 <= p < g.Size() ==> f.uses[p] == Undone(AllConsumers(g, p), f.done))
  }

  ghost predicate EpochsCounted(g: Graph, f: Frontier)
    requires g.Valid() && |f.done| == g.Size()
  {
    && f.remaining == CountTrue(NotDone(f.done))
    && |f.left| == (if g.Size() == 0 then 0 else EpochAt(g.feedback, g.Size() - 1) + 1)
    && forall e :: 0 <= e < |f.left| ==> f.left[e] == CountTrue(Waiting(Epochs(g.feedback), f.done, e))
  }

  /** A value is held from its completion until its last read; outputs and values nobody reads are held for good. */
  predicate Held(g: Graph, f: Frontier, i: nat)
    requires g.Valid() && i < g.Size() && |f.uses| == g.Size()
  {
    i in f.trace && (i in g.outputs || f.uses[i] > 0 || AllConsumers(g, i) == [])
  }

  ghost predicate ValuesCounted(g: Graph, f: Frontier)
    requires g.Valid() && |f.uses| == g.Size()
  {
    && |f.retained| == g.Size()
    && (forall i :: 0 <= i < g.Size() ==> (f.retained[i] <==> Held(g, f, i)))
    && f.liveValues == CountTrue(f.retained)
  }

  /** Completions respect the data flow and the feedback barriers. */
  ghost predicate InOrder(g: Graph, trace: seq<nat>)
    requires g.Valid()
  {
    && (forall k :: 0 <= k < |trace| ==> trace[k] < g.Size() && g.live[trace[k]])
    && (forall j, k :: 0 <= j < k < |trace| ==> trace[j] != trace[k])
    && (forall k :: 0 <= k < |trace| ==> Reached(g, trace[..k], trace[k]))
  }

  /** Everything node i has to wait for is in seen. */
  ghost predicate Reached(g: Graph, seen: seq<nat>, i: nat)
    requires g.Valid() && i < g.Size()
  {
    && (forall k :: 0 <= k < |g.parents[i]| ==> g.parents[i][k] in seen)
    && (forall y :: 0 <= y < g.Size() && g.live[y] && EpochAt(g.feedback, y) < EpochAt(g.feedback, i) ==> y in seen)
  }

  /** Everything but the frontier itself. */
  ghost predicate Bookkeeping(g: Graph, f: Frontier) {
    g.Valid() && Counted(g, f) && EpochsCounted(g, f) && ValuesCounted(g, f) && InOrder(g, f.trace)
  }

  /** No node before the active epoch waits. */
  ghost predicate Behind(g: Graph, f: Frontier)
    requires g.Valid()
  {
    forall i :: 0 <= i < g.Size() && Waits(i, f.done) ==> EpochAt(g.feedback, i) >= f.active
  }

  predicate IsReady(g: Graph, f: Frontier, i: nat)
    requires g.Valid()
  {
    i < g.Size() && |f.pending| == g.Size() && Waits(i, f.done) && EpochAt(g.feedback, i) == f.active && f.pending[i] == 0
  }

  ghost predicate Sound(g: Graph, f: Frontier) {
    && Bookkeeping(g, f) && Behind(g, f)
    && (f.remaining > 0 ==> f.active < |f.left| && f.left[f.active] > 0)
    && forall i :: i in f.ready <==> IsReady(g, f, i)
  }

  // ----- what a sound frontier promises

  /** While nodes remain, one of them is ready. */
  lemma NeverStuck(g: Graph, f: Frontier)
    requires Sound(g, f) && f.remaining > 0
    ensures f.ready != {}
  {
    hide EpochsCounted, ValuesCounted, InOrder, EpochAt, Undone, CountTrue;
    var i := EpochWaits(g, f);
    var first := FirstWaiting(g, f, i);
    var list := g.parents[first];
    forall k | 0 <= k < |list|
      ensures !Waits(list[k], f.done)
    {
      EpochMonotone(g.feedback, list[k], first);
    }
    UndoneZero(list, f.done);
    assert IsReady(g, f, first);
  }

  /** Some node of the active epoch waits. */
  lemma EpochWaits(g: Graph, f: Frontier) returns (i: nat)
    requires Sound(g, f) && f.remaining > 0
    ensures i < g.Size() && |f.done| == g.Size() && !f.done[i] && EpochAt(g.feedback, i) == f.active
  {
    hide ValuesCounted, InOrder, EpochAt, Undone, CountTrue;
    var flags := Waiting(Epochs(g.feedback), f.done, f.active);
    CountTrueZero(flags);
    i :| i < |flags| && flags[i];
  }

  lemma FirstWaiting(g: Graph, f: Frontier, i: nat) returns (first: nat)
    requires g.Valid() && |f.done| == g.Size() && i < g.Size() && !f.done[i] && EpochAt(g.feedback, i) == f.active
    ensures first < g.Size() && !f.done[first] && EpochAt(g.feedback, first) == f.active
    ensures forall j :: 0 <= j < first && !f.done[j] ==> EpochAt(g.feedback, j) != f.active
  {
    first := i;
    if j :| 0 <= j < i && !f.done[j] && EpochAt(g.feedback, j) == f.active {
      first := FirstWaiting(g, f, j);
    }
  }

  /** At the end every live node has run exactly once. */
  lemma AllCompleted(g: Graph, f: Frontier)
    requires Sound(g, f) && f.remaining == 0
    ensures forall i :: 0 <= i < g.Size() ==> (i in f.trace <==> g.live[i])
    ensures forall j, k :: 0 <= j < k < |f.trace| ==> f.trace[j] != f.trace[k]
  {
    CountTrueZero(NotDone(f.done));
    forall i: nat | i < g.Size()
      ensures i in f.trace <==> g.live[i]
    {
      assert !NotDone(f.done)[i];
    }
  }

  /** No node at or after a feedback node runs before all live nodes ahead of it. */
  lemma FeedbackBarrier(g: Graph, f: Frontier, at: nat, k: nat, y: nat)
    requires Sound(g, f) && at < g.Size() && g.feedback[at]
    requires k < |f.trace| && at <= f.trace[k] && y < at && g.live[y]
    ensures y in f.trace[..k]
  {
    EpochMonotone(g.feedback, y, f.trace[k]);
    assert Reached(g, f.trace[..k], f.trace[k]);
  }

  /** Every operand has run before its reader. */
  lemma DataFlow(g: Graph, f: Frontier, k: nat, parent: nat)
    requires Sound(g, f) && k < |f.trace| && f.trace[k] < g.Size() && parent in g.parents[f.trace[k]]
    ensures parent in f.trace[..k]
  {
    assert Reached(g, f.trace[..k], f.trace[k]);
  }

  // ----- which values stay

  ghost predicate IsRead(g: Graph, i: nat)
    requires g.Valid()
  {
    exists c :: 0 <= c < g.Size() && g.live[c] && i in g.parents[c]
  }

  /** Every live node is an output or is read by a live node, as plan_packed_depth's marking makes it. */
  ghost predicate Needed(g: Graph)
    requires g.Valid()
  {
    forall i :: 0 <= i < g.Size() && g.live[i] ==> i in g.outputs || IsRead(g, i)
  }

  lemma ReadMeans(g: Graph, i: nat)
    requires g.Valid() && i < g.Size()
    ensures IsRead(g, i) <==> AllConsumers(g, i) != []
  {
    hide AllConsumers, Count;
    var list := AllConsumers(g, i);
    if list != [] {
      var c := list[0];
      ConsumersRange(g, i, 0);
      CountIn(list, c);
      CountsConsumers(g, i, c);
      CountIn(g.parents[c], i);
    }
    if IsRead(g, i) {
      var c :| 0 <= c < g.Size() && g.live[c] && i in g.parents[c];
      CountIn(g.parents[c], i);
      CountsConsumers(g, i, c);
      CountIn(list, c);
    }
  }

  /** A computed value that is an output or that some node still has to read. */
  predicate Wanted(g: Graph, f: Frontier, i: nat)
    requires g.Valid() && i < g.Size() && |f.uses| == g.Size()
  {
    i in f.trace && (i in g.outputs || f.uses[i] > 0)
  }

  function WantedFlags(g: Graph, f: Frontier): (r: seq<bool>)
    requires g.Valid() && |f.uses| == g.Size()
    ensures |r| == g.Size()
  {
    seq(g.Size(), i requires 0 <= i < g.Size() => Wanted(g, f, i))
  }

  /** Every node that has run is an output or has a reader. */
  ghost predicate CompletedNeeded(g: Graph, f: Frontier)
    requires g.Valid()
  {
    forall i :: 0 <= i < g.Size() && i in f.trace ==> i in g.outputs || IsRead(g, i)
  }

  lemma {:induction false} CountSubset(a: seq<bool>, b: seq<bool>)
    requires |a| == |b| && forall i :: 0 <= i < |a| ==> a[i] ==> b[i]
    ensures CountTrue(a) <= CountTrue(b) && (CountTrue(a) == CountTrue(b) <==> a == b)
    decreases |a|
  {
    var n := |a| - 1;
    if n >= 0 {
      CountSubset(a[..n], b[..n]);
      assert a == a[..n] + [a[n]] && b == b[..n] + [b[n]];
    }
  }

  /** In every reachable state the live values are exactly the wanted ones if and only if each node that has run is an output or has a reader. */
  lemma LiveCountsWanted(g: Graph, f: Frontier)
    requires Sound(g, f)
    ensures |f.uses| == g.Size() && f.liveValues >= CountTrue(WantedFlags(g, f))
    ensures f.retained == WantedFlags(g, f) <==> CompletedNeeded(g, f)
    ensures f.liveValues == CountTrue(WantedFlags(g, f)) <==> CompletedNeeded(g, f)
  {
    hide EpochsCounted, InOrder, Behind, EpochAt, Undone, Count, AllConsumers, IsReady, CountTrue, IsRead;
    var wanted := WantedFlags(g, f);
    forall i: nat | i < g.Size()
      ensures wanted[i] ==> f.retained[i]
      ensures f.retained[i] == wanted[i] <==> (i in f.trace ==> i in g.outputs || IsRead(g, i))
    {
      ReadMeans(g, i);
      UnreadUnused(g, f, i);
    }
    CountSubset(wanted, f.retained);
  }

  lemma UnreadUnused(g: Graph, f: Frontier, i: nat)
    requires g.Valid() && Counted(g, f) && i < g.Size()
    ensures AllConsumers(g, i) == [] ==> f.uses[i] == 0
  {
    hide AllConsumers;
  }

  /** At the end exactly the live outputs are held if and only if every live node is an output or is read by a live node. */
  lemma OnlyOutputsLeft(g: Graph, f: Frontier)
    requires Sound(g, f) && f.remaining == 0
    ensures |f.retained| == g.Size()
    ensures (forall i :: 0 <= i < g.Size() ==> (f.retained[i] <==> i in g.outputs && g.live[i])) <==> Needed(g)
    ensures f.liveValues == CountTrue(LiveOutputs(g)) <==> Needed(g)
  {
    hide EpochsCounted, InOrder, Behind, EpochAt, Undone, Count, AllConsumers, IsReady, CountTrue, IsRead;
    AllCompleted(g, f);
    LiveCountsWanted(g, f);
    forall i: nat | i < g.Size()
      ensures f.uses[i] == 0
    {
      NothingUsed(g, f, i);
    }
    assert WantedFlags(g, f) == LiveOutputs(g);
    assert f.retained == LiveOutputs(g) <==> forall i :: 0 <= i < g.Size() ==> f.retained[i] == LiveOutputs(g)[i];
  }

  function LiveOutputs(g: Graph): (r: seq<bool>)
    requires g.Valid()
    ensures |r| == g.Size()
  {
    seq(g.Size(), i requires 0 <= i < g.Size() => i in g.outputs && g.live[i])
  }

  lemma NothingUsed(g: Graph, f: Frontier, i: nat)
    requires Sound(g, f) && f.remaining == 0 && i < g.Size()
    ensures f.uses[i] == 0
  {
    hide ValuesCounted, InOrder, Behind, EpochAt, AllConsumers, IsReady;
    CountTrueZero(NotDone(f.done));
    forall x: nat
      ensures !Waits(x, f.done)
    {
      if x < |f.done| {
        assert !NotDone(f.done)[x];
      }
    }
    UndoneZero(AllConsumers(g, i), f.done);
    assert NoneWaits(AllConsumers(g, i), f.done);
  }

  /** A program with one node that is run although nobody asks for it. */
  function UnreadGraph(): Graph {
    Graph([[]], [false], [], [true])
  }

  function UnreadEnd(): Frontier {
    Frontier([0], [0], [0], [true], [true], {}, 1, 0, 1, [0])
  }

  /** Its value is never released: every finished run ends with one live value and no output. */
  lemma UnreadStays()
    ensures UnreadGraph().Valid() && !Needed(UnreadGraph()) && Sound(UnreadGraph(), UnreadEnd()) && UnreadEnd().remaining == 0
    ensures forall f: Frontier :: Sound(UnreadGraph(), f) && f.remaining == 0 ==> f.retained == [true] && f.liveValues == 1
  {
    hide *;
    UnreadFacts();
    UnreadCounted();
    UnreadEpochs();
    UnreadValues();
    UnreadSound();
    forall f: Frontier | Sound(UnreadGraph(), f) && f.remaining == 0
      ensures f.retained == [true] && f.liveValues == 1
    {
      UnreadFinished(f);
    }
  }

  lemma UnreadFacts()
    ensures UnreadGraph().Valid() && !Needed(UnreadGraph()) && UnreadGraph().Size() == 1 && UnreadEnd().remaining == 0
    ensures AllConsumers(UnreadGraph(), 0) == []
  {
    assert UnreadGraph().parents[0] == [];
  }

  lemma UnreadFinished(f: Frontier)
    requires Sound(UnreadGraph(), f) && f.remaining == 0
    ensures f.retained == [true] && f.liveValues == 1
  {
    hide *;
    UnreadFacts();
    SoundParts(UnreadGraph(), f);
    AllCompleted(UnreadGraph(), f);
    UnreadHeld(f);
    CountTruePush([], true);
    EmptyCount();
    assert [] + [true] == [true];
  }

  lemma EmptyCount()
    ensures CountTrue([]) == 0
  {
  }

  lemma UnreadHeld(f: Frontier)
    requires UnreadGraph().Valid() && Counted(UnreadGraph(), f) && ValuesCounted(UnreadGraph(), f) && AllConsumers(UnreadGraph(), 0) == []
    requires forall i :: 0 <= i < UnreadGraph().Size() ==> (i in f.trace <==> UnreadGraph().live[i])
    ensures f.retained == [true] && f.liveValues == CountTrue([true])
  {
    hide AllConsumers, CountTrue;
    assert Held(UnreadGraph(), f, 0);
    assert f.retained == [true];
  }

  lemma UnreadCounted()
    requires UnreadGraph().Valid() && AllConsumers(UnreadGraph(), 0) == []
    ensures Counted(UnreadGraph(), UnreadEnd())
  {
    hide AllConsumers;
  }

  lemma UnreadEpochs()
    requires UnreadGraph().Valid()
    ensures EpochsCounted(UnreadGraph(), UnreadEnd())
  {
    hide CountTrue;
    var g, f := UnreadGraph(), UnreadEnd();
    CountTrueZero(NotDone(f.done));
    CountTrueZero(Waiting(Epochs(g.feedback), f.done, 0));
  }

  lemma UnreadValues()
    requires UnreadGraph().Valid() && AllConsumers(UnreadGraph(), 0) == []
    ensures ValuesCounted(UnreadGraph(), UnreadEnd())
  {
    hide AllConsumers, CountTrue;
    EmptyCount();
    CountTruePush([], true);
    assert [] + [true] == [true];
  }

  lemma UnreadSound()
    requires UnreadGraph().Valid() && Counted(UnreadGraph(), UnreadEnd()) && EpochsCounted(UnreadGraph(), UnreadEnd())
    requires ValuesCounted(UnreadGraph(), UnreadEnd())
    ensures Sound(UnreadGraph(), UnreadEnd())
  {
    hide Counted, EpochsCounted, ValuesCounted, EpochAt;
    var g, f := UnreadGraph(), UnreadEnd();
    assert g.parents[0] == [];
    assert Reached(g, f.trace[..0], 0) by {
      assert g.Size() == 1;
    }
    assert forall i :: Waits(i, f.done) ==> false;
  }

  // ----- one completion

  /** The fields after complete(i), before a new epoch is activated. */
  ghost predicate Completes(g: Graph, f: Frontier, i: nat, r: Frontier)
    requires g.Valid() && i < g.Size()
  {
    && |f.done| == |f.pending| == |f.uses| == |f.retained| == |r.pending| == |r.uses| == |r.retained| == g.Size()
    && f.active < |f.left| && r.active == f.active
    && r.done == f.done[i := true] && r.remaining == f.remaining - 1 && r.trace == f.trace + [i]
    && r.left == f.left[f.active := f.left[f.active] - 1]
    && (forall p :: 0 <= p < g.Size() ==> r.uses[p] == f.uses[p] - Count(g.parents[i], p))
    && (forall c :: 0 <= c < g.Size() ==> r.pending[c] == f.pending[c] - Count(AllConsumers(g, i), c))
    && (forall p :: 0 <= p < g.Size() ==>
          (r.retained[p] <==> f.retained[i := true][p] && !(p in g.parents[i] && p !in g.outputs && r.uses[p] == 0)))
    && r.liveValues == CountTrue(r.retained)
    && (forall c :: c in r.ready <==>
          (c in f.ready && c != i)
          || (c in AllConsumers(g, i) && c < g.Size() && r.pending[c] == 0 && EpochAt(g.feedback, c) == f.active))
  }

  lemma ReadyMeans(g: Graph, f: Frontier, i: nat)
    requires Sound(g, f) && i in f.ready
    ensures i < g.Size() && g.live[i] && !f.done[i] && Waits(i, f.done) && i !in f.trace
    ensures EpochAt(g.feedback, i) == f.active && f.active < |f.left|
    ensures Reached(g, f.trace, i)
  {
    hide Sound, Bookkeeping, ValuesCounted, InOrder, EpochAt, Undone, AllConsumers;
    SoundParts(g, f);
    assert IsReady(g, f, i);
    UndoneZero(g.parents[i], f.done);
    EpochMonotone(g.feedback, i, g.Size() - 1);
    forall k | 0 <= k < |g.parents[i]|
      ensures g.parents[i][k] in f.trace
    {
      assert !Waits(g.parents[i][k], f.done);
      assert AllIn(g.parents[i], g.live);
    }
  }

  lemma CountedKept(g: Graph, f: Frontier, i: nat, r: Frontier)
    requires Sound(g, f) && i in f.ready && i < g.Size() && Completes(g, f, i, r)
    ensures Counted(g, r)
  {
    hide Sound, Bookkeeping, EpochsCounted, ValuesCounted, InOrder, Behind, EpochAt, Undone, Count, AllConsumers, IsReady, Reached;
    SoundParts(g, f);
    ReadyMeans(g, f, i);
    forall c: nat | c < g.Size()
      ensures r.pending[c] == if g.live[c] then Undone(g.parents[c], r.done) else 0
    {
      CountsConsumers(g, i, c);
      UndoneAfter(g.parents[c], f.done, i);
    }
    forall p: nat | p < g.Size()
      ensures r.uses[p] == Undone(AllConsumers(g, p), r.done)
    {
      CountsConsumers(g, p, i);
      UndoneAfter(AllConsumers(g, p), f.done, i);
    }
  }

  lemma SoundParts(g: Graph, f: Frontier)
    requires Sound(g, f)
    ensures g.Valid() && Counted(g, f) && EpochsCounted(g, f) && ValuesCounted(g, f) && InOrder(g, f.trace) && Behind(g, f)
    ensures forall i :: i in f.ready <==> IsReady(g, f, i)
    ensures f.remaining > 0 ==> f.active < |f.left| && f.left[f.active] > 0
  {
    hide Counted, EpochsCounted, ValuesCounted, InOrder, Behind, EpochAt, IsReady;
  }

  lemma CountsConsumers(g: Graph, p: nat, c: nat)
    requires g.Valid()
    ensures Count(AllConsumers(g, p), c) == if c < g.Size() && g.live[c] then Count(g.parents[c], p) else 0
  {
    ConsumersCount(g, p, g.Size(), c);
  }

  lemma EpochsKept(g: Graph, f: Frontier, i: nat, r: Frontier)
    requires Sound(g, f) && i in f.ready && i < g.Size() && Completes(g, f, i, r)
    ensures EpochsCounted(g, r)
  {
    hide Sound, Bookkeeping, Counted, ValuesCounted, InOrder, Behind, EpochAt, Undone, Count, AllConsumers, IsReady, Reached, CountTrue;
    SoundParts(g, f);
    ReadyMeans(g, f, i);
    var epoch := Epochs(g.feedback);
    assert NotDone(r.done) == NotDone(f.done)[i := false];
    CountTrueSet(NotDone(f.done), i, false);
    forall e: nat | e < |f.left|
      ensures r.left[e] == CountTrue(Waiting(epoch, r.done, e))
    {
      assert Waiting(epoch, r.done, e) == Waiting(epoch, f.done, e)[i := false];
      CountTrueSet(Waiting(epoch, f.done, e), i, false);
    }
  }

  lemma ReadBefore(g: Graph, f: Frontier, c: nat, p: nat)
    requires Sound(g, f) && c < g.Size() && g.live[c] && f.done[c] && p in g.parents[c]
    ensures p in f.trace
  {
    hide ValuesCounted, EpochsCounted, EpochAt, Undone, AllConsumers, Behind, IsReady;
    var k: nat :| k < |f.trace| && f.trace[k] == c;
    assert Reached(g, f.trace[..k], c);
    assert p in f.trace[..k];
  }

  /** Nobody has read a value that is not there yet. */
  lemma ReadersWait(g: Graph, f: Frontier, i: nat)
    requires Sound(g, f) && i in f.ready && i < g.Size()
    ensures AllConsumers(g, i) != [] ==> f.uses[i] > 0
  {
    hide Sound, Bookkeeping, ValuesCounted, EpochsCounted, InOrder, Behind, EpochAt, Undone, Count, AllConsumers, IsReady, Reached;
    SoundParts(g, f);
    ReadyMeans(g, f, i);
    var list := AllConsumers(g, i);
    if list != [] {
      var c := list[0];
      ConsumersRange(g, i, 0);
      CountIn(list, c);
      CountsConsumers(g, i, c);
      CountIn(g.parents[c], i);
      UndoneZero(list, f.done);
      if f.done[c] {
        ReadBefore(g, f, c, i);
      }
    }
  }

  lemma ConsumersRange(g: Graph, p: nat, k: nat)
    requires g.Valid() && k < |AllConsumers(g, p)|
    ensures AllConsumers(g, p)[k] < g.Size() && g.live[AllConsumers(g, p)[k]]
  {
    ConsumersOrdered(g, p, g.Size());
  }

  lemma ValuesKept(g: Graph, f: Frontier, i: nat, r: Frontier)
    requires Sound(g, f) && i in f.ready && i < g.Size() && Completes(g, f, i, r)
    ensures ValuesCounted(g, r)
  {
    hide Sound, Bookkeeping, Counted, EpochsCounted, InOrder, Behind, EpochAt, Undone, Count, AllConsumers, IsReady, Reached, CountTrue, Held;
    SoundParts(g, f);
    ReadyMeans(g, f, i);
    forall p: nat | p < g.Size()
      ensures r.retained[p] <==> Held(g, r, p)
    {
      HeldKept(g, f, i, r, p);
    }
  }

  lemma ReadsLeft(g: Graph, f: Frontier, i: nat, p: nat)
    requires Sound(g, f) && i in f.ready && i < g.Size() && p < g.Size()
    ensures f.uses[p] >= Count(g.parents[i], p)
  {
    hide Sound, Bookkeeping, EpochsCounted, ValuesCounted, InOrder, Behind, EpochAt, Undone, Count, AllConsumers, IsReady, Reached;
    SoundParts(g, f);
    ReadyMeans(g, f, i);
    CountsConsumers(g, p, i);
    UndoneAfter(AllConsumers(g, p), f.done, i);
  }

  lemma HeldKept(g: Graph, f: Frontier, i: nat, r: Frontier, p: nat)
    requires Sound(g, f) && i in f.ready && i < g.Size() && Completes(g, f, i, r) && p < g.Size()
    ensures r.retained[p] <==> Held(g, r, p)
  {
    hide Sound, Bookkeeping, Counted, EpochsCounted, InOrder, Behind, EpochAt, Undone, Count, AllConsumers, IsReady, Reached, CountTrue;
    SoundParts(g, f);
    ReadyMeans(g, f, i);
    ReadersWait(g, f, i);
    ReadsLeft(g, f, i, p);
    CountIn(g.parents[i], p);
    CountIn(AllConsumers(g, p), i);
    CountsConsumers(g, p, i);
    NotOwnParent(g, i);
  }

  lemma NotOwnParent(g: Graph, i: nat)
    requires g.Valid() && i < g.Size()
    ensures i !in g.parents[i]
  {
  }

  lemma OrderKept(g: Graph, trace: seq<nat>, i: nat)
    requires g.Valid() && InOrder(g, trace) && i < g.Size() && g.live[i] && i !in trace && Reached(g, trace, i)
    ensures InOrder(g, trace + [i])
  {
    var longer := trace + [i];
    forall k | 0 <= k < |longer|
      ensures Reached(g, longer[..k], longer[k])
    {
      if k < |trace| {
        assert longer[..k] == trace[..k];
      } else {
        assert longer[..k] == trace;
      }
    }
  }

  lemma ReadyKept(g: Graph, f: Frontier, i: nat, r: Frontier)
    requires Sound(g, f) && i in f.ready && i < g.Size() && Completes(g, f, i, r) && Counted(g, r)
    ensures Behind(g, r) && forall c :: c in r.ready <==> IsReady(g, r, c)
  {
    hide Sound, Bookkeeping, Counted, ValuesCounted, EpochsCounted, InOrder, EpochAt, Undone, Count, AllConsumers, Reached, CountTrue, IsReady;
    SoundParts(g, f);
    ReadyMeans(g, f, i);
    forall c: nat
      ensures c in r.ready <==> IsReady(g, r, c)
    {
      ReadyKeptAt(g, f, i, r, c);
    }
  }

  /** A live reader of i is not i itself. */
  lemma WaitsForOperand(g: Graph, i: nat, c: nat)
    requires g.Valid() && i < g.Size() && c < g.Size()
    ensures Count(AllConsumers(g, i), c) > 0 ==> c != i && g.live[c] && i in g.parents[c]
  {
    CountsConsumers(g, i, c);
    CountIn(g.parents[c], i);
  }

  lemma ReadyKeptAt(g: Graph, f: Frontier, i: nat, r: Frontier, c: nat)
    requires Sound(g, f) && i in f.ready && i < g.Size() && Completes(g, f, i, r) && Counted(g, r)
    ensures c in r.ready <==> IsReady(g, r, c)
  {
    hide Sound, Bookkeeping, ValuesCounted, EpochsCounted, InOrder, Behind, EpochAt, Undone, Count, AllConsumers, Reached, CountTrue;
    SoundParts(g, f);
    ReadyMeans(g, f, i);
    CountIn(AllConsumers(g, i), c);
    CountsConsumers(g, i, c);
    if c < g.Size() {
      WaitsForOperand(g, i, c);
      if i in g.parents[c] && g.live[c] && f.done[c] {
        ReadBefore(g, f, c, i);
      }
    }
    assert c in f.ready <==> IsReady(g, f, c);
  }

  lemma CompletesKeeps(g: Graph, f: Frontier, i: nat, r: Frontier)
    requires Sound(g, f) && i in f.ready && i < g.Size() && Completes(g, f, i, r)
    ensures Bookkeeping(g, r) && Behind(g, r) && forall c :: c in r.ready <==> IsReady(g, r, c)
    ensures r.active < |r.left|
  {
    hide Sound, Counted, EpochsCounted, ValuesCounted, InOrder, Behind, IsReady, Reached;
    ReadyMeans(g, f, i);
    CountedKept(g, f, i, r);
    EpochsKept(g, f, i, r);
    ValuesKept(g, f, i, r);
    SoundParts(g, f);
    OrderKept(g, f.trace, i);
    ReadyKept(g, f, i, r);
  }

  // ----- the scheduler

  method Decrement(values: seq<int>, list: seq<nat>) returns (r: seq<int>)
    requires Earlier(list, |values|)
    ensures |r| == |values| && forall p :: 0 <= p < |values| ==> r[p] == values[p] - Count(list, p)
  {
    r := values;
    for k := 0 to |list|
      invariant |r| == |values| && forall p :: 0 <= p < |values| ==> r[p] == values[p] - Count(list[..k], p)
    {
      PushAll(list, k);
      r := r[list[k] := r[list[k]] - 1];
    }
    assert list[..|list|] == list;
  }

  lemma PushAll(list: seq<nat>, k: nat)
    requires k < |list|
    ensures forall p: nat :: Count(list[..k + 1], p) == Count(list[..k], p) + if list[k] == p then 1 else 0
  {
    assert list[..k + 1] == list[..k] + [list[k]];
    forall p: nat
      ensures Count(list[..k + 1], p) == Count(list[..k], p) + if list[k] == p then 1 else 0
    {
      CountPush(list[..k], list[k], p);
    }
  }

  /** Lets go of the operands that were read for the last time. */
  method Release(list: seq<nat>, pinned: seq<bool>, uses: seq<int>, retained0: seq<bool>, live0: int)
    returns (retained: seq<bool>, live: int)
    requires |pinned| == |uses| == |retained0| && Earlier(list, |pinned|) && live0 == CountTrue(retained0)
    ensures |retained| == |retained0| && live == CountTrue(retained)
    ensures forall p :: 0 <= p < |retained| ==> (retained[p] <==> retained0[p] && !(p in list && !pinned[p] && uses[p] == 0))
  {
    retained, live := retained0, live0;
    for k := 0 to |list|
      invariant |retained| == |retained0| && live == CountTrue(retained)
      invariant forall p :: 0 <= p < |retained| ==> (retained[p] <==> retained0[p] && !(p in list[..k] && !pinned[p] && uses[p] == 0))
    {
      var parent := list[k];
      if retained[parent] && !pinned[parent] && uses[parent] == 0 {
        CountTrueSet(retained, parent, false);
        retained := retained[parent := false];
        live := live - 1;
      }
      assert list[..k + 1] == list[..k] + [parent];
    }
    assert list[..|list|] == list;
  }

  /** Tells the consumers that one more operand is there. */
  method Notify(list: seq<nat>, epoch: seq<nat>, active: nat, pending0: seq<int>, ready0: set<nat>)
    returns (pending: seq<int>, ready: set<nat>)
    requires |epoch| == |pending0| && Earlier(list, |epoch|)
    requires forall c :: 0 <= c < |pending0| ==> pending0[c] >= Count(list, c)
    ensures |pending| == |pending0| && forall c :: 0 <= c < |pending| ==> pending[c] == pending0[c] - Count(list, c)
    ensures forall c :: c in ready <==> c in ready0 || (c in list && c < |pending| && pending[c] == 0 && epoch[c] == active)
  {
    hide Count;
    pending, ready := pending0, ready0;
    assert forall c: nat :: Count([], c) == 0 by {
      forall c: nat
        ensures Count([], c) == 0
      {
        NoneCounted(c);
      }
    }
    for k := 0 to |list|
      invariant |pending| == |pending0| && forall c :: 0 <= c < |pending| ==> pending[c] == pending0[c] - Count(list[..k], c)
      invariant forall c :: c in ready <==> c in ready0 || (c in list[..k] && c < |pending| && pending[c] == 0 && epoch[c] == active)
    {
      var consumer := list[k];
      PushAll(list, k);
      CountPrefix(list, k + 1, consumer);
      pending := pending[consumer := pending[consumer] - 1];
      if pending[consumer] == 0 && epoch[consumer] == active {
        ready := ready + {consumer};
      }
      assert list[..k + 1] == list[..k] + [consumer];
    }
    assert list[..|list|] == list;
  }

  lemma CountPrefix(list: seq<nat>, k: nat, x: nat)
    requires k <= |list|
    ensures Count(list[..k], x) <= Count(list, x)
  {
    assert list == list[..k] + list[k..];
    CountConcat(list[..k], list[k..], x);
  }

  predicate Pins(g: Graph, pinned: seq<bool>) {
    |pinned| == g.Size() && forall p :: 0 <= p < g.Size() ==> (pinned[p] <==> p in g.outputs)
  }

  // ----- steps of the methods below

  lemma EpochFinished(g: Graph, f: Frontier)
    requires Bookkeeping(g, f) && Behind(g, f) && f.active < |f.left| && f.left[f.active] == 0
    ensures Behind(g, f.(active := f.active + 1))
  {
    var flags := Waiting(Epochs(g.feedback), f.done, f.active);
    CountTrueZero(flags);
    forall i: nat | i < g.Size() && Waits(i, f.done)
      ensures EpochAt(g.feedback, i) >= f.active + 1
    {
      assert !flags[i];
    }
  }

  lemma LastEpoch(g: Graph, f: Frontier, i: nat)
    requires Bookkeeping(g, f) && i < g.Size()
    ensures EpochAt(g.feedback, i) < |f.left|
  {
    hide Counted, ValuesCounted, InOrder, EpochAt;
    EpochMonotone(g.feedback, i, g.Size() - 1);
  }

  lemma SomethingLeft(g: Graph, f: Frontier)
    requires Bookkeeping(g, f) && Behind(g, f)
    ensures f.remaining > 0 ==> f.active < |f.left|
    ensures f.active < |f.left| ==> f.left[f.active] >= 0
  {
    hide EpochAt, CountTrue, Counted, ValuesCounted, InOrder, Undone;
    Lengths(g, f);
    if f.remaining > 0 {
      CountTrueZero(NotDone(f.done));
      var i :| 0 <= i < |f.done| && NotDone(f.done)[i];
      LastEpoch(g, f, i);
    }
  }

  /** The books do not depend on the active epoch or the ready set. */
  lemma SameBooks(g: Graph, f: Frontier, active: nat, ready: set<nat>)
    requires Bookkeeping(g, f)
    ensures Bookkeeping(g, f.(active := active)) && Bookkeeping(g, f.(active := active, ready := ready))
    ensures Behind(g, f.(active := active)) ==> Behind(g, f.(active := active, ready := ready))
    ensures forall c :: IsReady(g, f.(active := active), c) <==> IsReady(g, f.(active := active, ready := ready), c)
  {
    hide Undone, EpochAt, Reached, AllConsumers, CountTrue, Waiting;
  }

  lemma Lengths(g: Graph, f: Frontier)
    requires Bookkeeping(g, f)
    ensures |f.done| == |f.pending| == g.Size()
  {
  }

  lemma FrontierSound(g: Graph, f: Frontier, ready: set<nat>)
    requires Bookkeeping(g, f) && Behind(g, f) && (f.remaining > 0 ==> f.active < |f.left| && f.left[f.active] > 0)
    requires forall c :: c in ready <==> IsReady(g, f, c)
    ensures Sound(g, f.(ready := ready))
  {
    SameBooks(g, f, f.active, ready);
    assert f.(active := f.active) == f;
  }

  lemma StillSound(g: Graph, f: Frontier)
    requires Bookkeeping(g, f) && Behind(g, f) && f.active < |f.left| && f.left[f.active] != 0
    requires forall c :: c in f.ready <==> IsReady(g, f, c)
    ensures Sound(g, f)
  {
  }

  lemma EpochEmpty(g: Graph, f: Frontier)
    requires Bookkeeping(g, f) && f.active < |f.left| && f.left[f.active] == 0
    requires forall c :: c in f.ready <==> IsReady(g, f, c)
    ensures f.ready == {}
  {
    var flags := Waiting(Epochs(g.feedback), f.done, f.active);
    CountTrueZero(flags);
    forall c: nat
      ensures c !in f.ready
    {
      assert c < |flags| ==> !flags[c];
    }
  }

  /** What complete may rely on before it changes anything. */
  ghost predicate Prepared(g: Graph, f: Frontier, i: nat) {
    && g.Valid() && i < g.Size() && f.active < |f.left|
    && |f.done| == |f.pending| == |f.uses| == |f.retained| == g.Size()
    && Earlier(g.parents[i], g.Size()) && Earlier(AllConsumers(g, i), g.Size())
    && (forall c :: 0 <= c < g.Size() ==> f.pending[c] >= Count(AllConsumers(g, i), c))
    && f.liveValues == CountTrue(f.retained) && CountTrue(f.retained[i := true]) == f.liveValues + 1
  }

  lemma BeforeCompletion(g: Graph, f: Frontier, i: nat)
    requires Sound(g, f) && i in f.ready
    ensures Prepared(g, f, i) && i < g.Size()
  {
    ReadyMeans(g, f, i);
    ConsumersOrdered(g, i, g.Size());
    CountTrueSet(f.retained, i, true);
    assert !f.retained[i] by {
      assert !Held(g, f, i);
    }
    forall c: nat | c < g.Size()
      ensures f.pending[c] >= Count(AllConsumers(g, i), c)
    {
      CountsConsumers(g, i, c);
      UndoneAfter(g.parents[c], f.done, i);
    }
  }

  lemma {:induction false} CountTrueLess(a: seq<bool>, b: seq<bool>)
    requires |a| == |b| && forall i :: 0 <= i < |a| && a[i] ==> b[i]
    ensures CountTrue(a) <= CountTrue(b)
    decreases |a|
  {
    if |a| > 0 {
      CountTrueLess(a[..|a| - 1], b[..|b| - 1]);
    }
  }

  lemma CompletesIs(g: Graph, f: Frontier, i: nat, r: Frontier, pinned: seq<bool>, epoch: seq<nat>)
    requires g.Valid() && i < g.Size() && f.active < |f.left|
    requires |f.done| == |f.pending| == |f.uses| == |f.retained| == |r.pending| == |r.uses| == |r.retained| == |pinned| == g.Size()
    requires epoch == Epochs(g.feedback) && forall p :: 0 <= p < g.Size() ==> (pinned[p] <==> p in g.outputs)
    requires r == Frontier(r.pending, r.uses, f.left[f.active := f.left[f.active] - 1], f.done[i := true], r.retained, r.ready,
                           f.active, f.remaining - 1, CountTrue(r.retained), f.trace + [i])
    requires forall p :: 0 <= p < g.Size() ==> r.uses[p] == f.uses[p] - Count(g.parents[i], p)
    requires forall c :: 0 <= c < g.Size() ==> r.pending[c] == f.pending[c] - Count(AllConsumers(g, i), c)
    requires forall p :: 0 <= p < g.Size() ==>
               (r.retained[p] <==> f.retained[i := true][p] && !(p in g.parents[i] && !pinned[p] && r.uses[p] == 0))
    requires forall c :: c in r.ready <==>
               c in f.ready - {i} || (c in AllConsumers(g, i) && c < g.Size() && r.pending[c] == 0 && epoch[c] == f.active)
    ensures Completes(g, f, i, r)
  {
    hide AllConsumers, Count, CountTrue, EpochAt;
  }

  lemma CompletesMeans(g: Graph, f: Frontier, i: nat, r: Frontier)
    requires Sound(g, f) && i in f.ready && i < g.Size() && Completes(g, f, i, r)
    ensures r.trace == f.trace + [i] && r.remaining == f.remaining - 1 && r.liveValues <= f.liveValues + 1
  {
    FewerHeld(g, f, i, r);
  }

  lemma FewerHeld(g: Graph, f: Frontier, i: nat, r: Frontier)
    requires Sound(g, f) && i in f.ready && i < g.Size() && Completes(g, f, i, r)
    ensures r.liveValues <= f.liveValues + 1
  {
    BeforeCompletion(g, f, i);
    CountTrueLess(r.retained, f.retained[i := true]);
  }

  /** The counters, values and ready nodes after node i has run. */
  method Settle(g: Graph, ghost f: Frontier, i: nat, consumers: seq<nat>, pinned: seq<bool>, epoch: seq<nat>, active: nat,
                pending: seq<int>, uses: seq<int>, left: seq<int>, done: seq<bool>, retained: seq<bool>, live: int, ready: set<nat>)
    returns (pending1: seq<int>, uses1: seq<int>, left1: seq<int>, done1: seq<bool>, retained1: seq<bool>, live1: int,
             ready1: set<nat>)
    requires Prepared(g, f, i) && Pins(g, pinned) && epoch == Epochs(g.feedback)
    requires consumers == AllConsumers(g, i) && active == f.active && pending == f.pending && uses == f.uses && left == f.left
    requires done == f.done && retained == f.retained && live == f.liveValues && ready == f.ready
    ensures Completes(g, f, i, Frontier(pending1, uses1, left1, done1, retained1, ready1, f.active, f.remaining - 1, live1,
                                        f.trace + [i]))
  {
    hide AllConsumers, Count, CountTrue, EpochAt, Earlier, Closed, AllIn, Completes;
    done1, left1 := done[i := true], left[active := left[active] - 1];
    uses1 := Decrement(uses, g.parents[i]);
    retained1, live1 := Release(g.parents[i], pinned, uses1, retained[i := true], live + 1);
    pending1, ready1 := Notify(consumers, epoch, active, pending, ready - {i});
    ghost var r := Frontier(pending1, uses1, left1, done1, retained1, ready1, f.active, f.remaining - 1, live1, f.trace + [i]);
    CompletesIs(g, f, i, r, pinned, epoch);
  }

  // ----- the first frontier

  lemma CountsEpochs(g: Graph, f: Frontier)
    requires g.Valid() && |f.done| == g.Size()
    requires |f.left| == (if g.Size() == 0 then 0 else EpochAt(g.feedback, g.Size() - 1) + 1)
    requires CountsWaiting(Epochs(g.feedback), f.done, f.left, f.remaining)
    ensures EpochsCounted(g, f)
  {
  }

  lemma NoneReady(nodes: set<nat>)
    requires forall x :: x !in nodes
    ensures nodes == {}
  {
  }

  lemma RemainingCounts(g: Graph, f: Frontier)
    requires Sound(g, f)
    ensures f.remaining >= 0
  {
  }

  lemma BooksSized(g: Graph, f: Frontier)
    requires Sound(g, f)
    ensures |f.done| == |f.pending| == |f.uses| == g.Size()
    ensures forall p :: 0 <= p < g.Size() ==> f.uses[p] == Undone(AllConsumers(g, p), f.done)
  {
    hide EpochsCounted, ValuesCounted, InOrder, Behind, AllConsumers, Undone;
  }

  lemma WaitsLive(g: Graph, f: Frontier, i: nat)
    requires Sound(g, f) && i < g.Size() && Waits(i, f.done)
    ensures g.live[i]
  {
  }

  method CountReads(list: seq<nat>, x: nat) returns (n: nat)
    ensures n == Count(list, x)
  {
    n := 0;
    for k := 0 to |list|
      invariant n == Count(list[..k], x)
    {
      PushAll(list, k);
      if list[k] == x {
        n := n + 1;
      }
    }
    assert list[..|list|] == list;
  }

  lemma {:induction false} UndoneAll(list: seq<nat>, live: seq<bool>, done: seq<bool>)
    requires |live| == |done| && AllIn(list, live) && forall i :: 0 <= i < |done| ==> done[i] == !live[i]
    ensures Undone(list, done) == |list|
    decreases |list|
  {
    if |list| > 0 {
      UndoneAll(list[..|list| - 1], live, done);
    }
  }

  lemma WaitingPush(epoch: seq<nat>, done: seq<bool>, x: nat, d: bool, e: nat)
    requires |epoch| == |done|
    ensures CountTrue(Waiting(epoch + [x], done + [d], e)) == CountTrue(Waiting(epoch, done, e)) + if !d && x == e then 1 else 0
  {
    assert Waiting(epoch + [x], done + [d], e) == Waiting(epoch, done, e) + [!d && x == e];
    CountTruePush(Waiting(epoch, done, e), !d && x == e);
  }

  ghost predicate CountsWaiting(epoch: seq<nat>, done: seq<bool>, left: seq<int>, remaining: int) {
    && |epoch| == |done| && remaining == CountTrue(NotDone(done))
    && forall e :: 0 <= e < |left| ==> left[e] == CountTrue(Waiting(epoch, done, e))
  }

  /** Numbers the epochs and counts what waits in each. */
  method NumberEpochs(g: Graph) returns (epoch: seq<nat>, left: seq<int>, done: seq<bool>, remaining: int)
    requires g.Valid()
    ensures epoch == Epochs(g.feedback) && |done| == g.Size() && forall i :: 0 <= i < |done| ==> done[i] == !g.live[i]
    ensures |left| == (if g.Size() == 0 then 0 else EpochAt(g.feedback, g.Size() - 1) + 1)
    ensures CountsWaiting(epoch, done, left, remaining)
  {
    hide CountsWaiting, EpochAt, Closed, Earlier;
    epoch, left, done, remaining := [], [], [], 0;
    var current := 0;
    NothingCounted();
    for i := 0 to g.Size()
      invariant |epoch| == |done| == i
      invariant current == if i == 0 then 0 else EpochAt(g.feedback, i - 1)
      invariant |left| == (if i == 0 then 0 else current + 1)
      invariant forall k :: 0 <= k < i ==> epoch[k] == EpochAt(g.feedback, k) && epoch[k] < |left| && done[k] == !g.live[k]
      invariant CountsWaiting(epoch, done, left, remaining)
    {
      EpochStep(g.feedback, i);
      if g.feedback[i] {
        current := current + 1;
      }
      left, remaining := CountNode(epoch, done, left, remaining, current, g.live[i]);
      epoch, done := epoch + [current], done + [!g.live[i]];
    }
  }

  lemma EpochStep(feedback: seq<bool>, i: nat)
    requires i < |feedback|
    ensures EpochAt(feedback, i) == (if i == 0 then 0 else EpochAt(feedback, i - 1)) + if feedback[i] then 1 else 0
  {
  }

  lemma NothingCounted()
    ensures CountsWaiting([], [], [], 0)
  {
  }

  method CountNode(epoch: seq<nat>, done: seq<bool>, left0: seq<int>, remaining0: int, current: nat, live: bool)
    returns (left: seq<int>, remaining: int)
    requires CountsWaiting(epoch, done, left0, remaining0) && |left0| <= current + 1
    requires forall k :: 0 <= k < |epoch| ==> epoch[k] < |left0|
    ensures |left| == current + 1 && CountsWaiting(epoch + [current], done + [!live], left, remaining)
  {
    hide CountTrue, Waiting, NotDone;
    left, remaining := left0, remaining0;
    if current >= |left| {
      NothingThere(epoch, done, |left|, current);
      left := left + seq(current + 1 - |left|, k => 0);
    }
    ghost var before := left;
    assert forall e :: 0 <= e < |before| ==> before[e] == CountTrue(Waiting(epoch, done, e));
    forall e: nat | 0 <= e < |left|
      ensures CountTrue(Waiting(epoch + [current], done + [!live], e))
           == CountTrue(Waiting(epoch, done, e)) + if live && current == e then 1 else 0
    {
      WaitingPush(epoch, done, current, !live, e);
    }
    NotDonePush(done, live);
    if live {
      left := left[current := left[current] + 1];
      remaining := remaining + 1;
    }
    assert forall e :: 0 <= e < |left| ==> left[e] == CountTrue(Waiting(epoch + [current], done + [!live], e));
  }

  lemma NotDonePush(done: seq<bool>, live: bool)
    ensures CountTrue(NotDone(done + [!live])) == CountTrue(NotDone(done)) + if live then 1 else 0
  {
    assert NotDone(done + [!live]) == NotDone(done) + [live];
    CountTruePush(NotDone(done), live);
  }

  lemma NothingThere(epoch: seq<nat>, done: seq<bool>, from: nat, to: nat)
    requires |epoch| == |done| && forall k :: 0 <= k < |epoch| ==> epoch[k] < from
    ensures forall e :: from <= e <= to ==> CountTrue(Waiting(epoch, done, e)) == 0
  {
    forall e: nat | from <= e <= to
      ensures CountTrue(Waiting(epoch, done, e)) == 0
    {
      CountTrueZero(Waiting(epoch, done, e));
    }
  }

  lemma InitialBooks(g: Graph, f: Frontier)
    requires g.Valid() && |f.done| == |f.pending| == |f.uses| == g.Size() && f.trace == [] && f.active == 0
    requires forall i :: 0 <= i < g.Size() ==> f.done[i] == !g.live[i]
    requires forall i :: 0 <= i < g.Size() ==> f.pending[i] == if g.live[i] then |g.parents[i]| else 0
    requires forall p :: 0 <= p < g.Size() ==> f.uses[p] == |AllConsumers(g, p)|
    requires EpochsCounted(g, f) && f.retained == seq(g.Size(), i => false) && f.liveValues == 0
    ensures Bookkeeping(g, f) && Behind(g, f)
  {
    hide EpochsCounted, Undone, AllConsumers;
    forall i: nat | i < g.Size()
      ensures f.pending[i] == if g.live[i] then Undone(g.parents[i], f.done) else 0
    {
      if g.live[i] {
        UndoneAll(g.parents[i], g.live, f.done);
      }
    }
    forall p: nat | p < g.Size()
      ensures f.uses[p] == Undone(AllConsumers(g, p), f.done)
    {
      AllReadersLive(g, p);
      UndoneAll(AllConsumers(g, p), g.live, f.done);
    }
    CountTrueZero(f.retained);
  }

  lemma AllReadersLive(g: Graph, p: nat)
    requires g.Valid()
    ensures AllIn(AllConsumers(g, p), g.live)
  {
    ConsumersOrdered(g, p, g.Size());
  }

  /** Marks the outputs. */
  method Pin(g: Graph) returns (pinned: seq<bool>)
    requires g.Valid()
    ensures Pins(g, pinned)
  {
    var n := g.Size();
    pinned := seq(n, i => false);
    for k := 0 to |g.outputs|
      invariant |pinned| == n && forall p :: 0 <= p < n ==> (pinned[p] <==> p in g.outputs[..k])
    {
      pinned := pinned[g.outputs[k] := true];
    }
    assert g.outputs[..|g.outputs|] == g.outputs;
  }

  predicate Oldest(nodes: set<nat>, x: nat) {
    x in nodes && forall y :: y in nodes ==> x <= y
  }

  class PackedReadySchedule {
    const g: Graph
    const consumers: seq<seq<nat>>
    const epoch: seq<nat>
    const pinned: seq<bool>
    var pending: seq<int>
    var remainingUses: seq<int>
    var epochRemaining: seq<int>
    var done: seq<bool>
    var retained: seq<bool>
    var ready: set<nat>
    var activeEpoch: nat
    var remaining: int
    var liveValues: int
    var peakLiveValues: int
    var limitSelections: nat
    ghost var trace: seq<nat>

    ghost function State(): Frontier
      reads this
    {
      Frontier(pending, remainingUses, epochRemaining, done, retained, ready, activeEpoch, remaining, liveValues, trace)
    }

    /** The tables that never change. */
    ghost predicate Tables() {
      && g.Valid() && |consumers| == g.Size() && Pins(g, pinned) && epoch == Epochs(g.feedback)
      && forall p :: 0 <= p < g.Size() ==> consumers[p] == AllConsumers(g, p)
    }

    ghost predicate Valid()
      reads this
    {
      Tables() && Sound(g, State()) && peakLiveValues >= liveValues
    }

    predicate Empty()
      reads this
    {
      remaining == 0
    }

    /** Advances to the next epoch with waiting nodes and collects what is ready there. */
    method ActivateEpoch()
      requires Tables() && Bookkeeping(g, State()) && Behind(g, State()) && ready == {}
      modifies this`activeEpoch, this`ready
      ensures Sound(g, State())
    {
      hide Bookkeeping, Behind, EpochAt, Counted;
      ghost var f := State();
      while activeEpoch < |epochRemaining| && epochRemaining[activeEpoch] == 0
        invariant f == State().(active := f.active) && Bookkeeping(g, State()) && Behind(g, State())
        decreases |epochRemaining| - activeEpoch
      {
        EpochFinished(g, State());
        activeEpoch := activeEpoch + 1;
        SameBooks(g, f, activeEpoch, {});
      }
      SomethingLeft(g, State());
      ghost var h := State();
      CollectReady(h);
      FrontierSound(g, h, ready);
    }

    /** Adds every node that can run in the active epoch. */
    method CollectReady(ghost h: Frontier)
      requires Tables() && Bookkeeping(g, h) && h == State() && ready == {}
      modifies this`ready
      ensures State() == h.(ready := ready)
      ensures forall c :: c in ready <==> IsReady(g, h, c)
    {
      hide Bookkeeping, AllConsumers;
      Lengths(g, h);
      for i := 0 to g.Size()
        invariant forall c: nat :: c in ready <==> c < i && IsReady(g, h, c)
        invariant State() == h.(ready := ready)
      {
        if !done[i] && epoch[i] == activeEpoch && pending[i] == 0 {
          ready := ready + {i};
        }
      }
    }

    lemma TablesMean(i: nat)
      requires Tables() && i < g.Size()
      ensures Pins(g, pinned) && epoch == Epochs(g.feedback) && i < |consumers| && consumers[i] == AllConsumers(g, i)
    {
    }

    /** The field updates of complete, before a new epoch is activated. */
    method Store(pending1: seq<int>, uses1: seq<int>, left1: seq<int>, done1: seq<bool>, retained1: seq<bool>, live1: int,
                 ready1: set<nat>, i: nat)
      modifies this
      ensures State() == Frontier(pending1, uses1, left1, done1, retained1, ready1, old(activeEpoch), old(remaining) - 1, live1,
                                  old(trace) + [i])
      ensures limitSelections == old(limitSelections)
      ensures peakLiveValues == if old(liveValues) + 1 > old(peakLiveValues) then old(liveValues) + 1 else old(peakLiveValues)
    {
      peakLiveValues := if liveValues + 1 > peakLiveValues then liveValues + 1 else peakLiveValues;
      StoreCounts(pending1, uses1, left1, done1);
      retained, liveValues, ready, remaining := retained1, live1, ready1, remaining - 1;
      trace := trace + [i];
    }

    method StoreCounts(pending1: seq<int>, uses1: seq<int>, left1: seq<int>, done1: seq<bool>)
      modifies this`pending, this`remainingUses, this`epochRemaining, this`done
      ensures pending == pending1 && remainingUses == uses1 && epochRemaining == left1 && done == done1
    {
      pending, remainingUses, epochRemaining, done := pending1, uses1, left1, done1;
    }

    /** Runs node i; false where the program throws because i is not ready. */
    method Complete(i: nat) returns (ok: bool)
      requires Valid()
      modifies this
      ensures Valid() && limitSelections == old(limitSelections)
      ensures ok <==> i in old(ready)
      ensures ok ==> trace == old(trace) + [i] && remaining == old(remaining) - 1
      ensures ok ==> peakLiveValues == if old(liveValues) + 1 > old(peakLiveValues) then old(liveValues) + 1 else old(peakLiveValues)
      ensures !ok ==> State() == old(State()) && peakLiveValues == old(peakLiveValues)
      ensures remaining > 0 ==> ready != {}
    {
      hide Sound, Bookkeeping, Behind, Completes, AllConsumers, IsReady, Prepared, Pins, Epochs;
      ghost var f := State();
      if i !in ready {
        if remaining > 0 {
          NeverStuck(g, f);
        }
        return false;
      }
      BeforeCompletion(g, f, i);
      TablesMean(i);
      var counts, uses, left, finished, kept, values, frontier := Settle(g, f, i, consumers[i], pinned, epoch, activeEpoch,
        pending, remainingUses, epochRemaining, done, retained, liveValues, ready);
      Store(counts, uses, left, finished, kept, values, frontier, i);
      CompletesKeeps(g, f, i, State());
      CompletesMeans(g, f, i, State());
      if epochRemaining[activeEpoch] == 0 {
        EpochEmpty(g, State());
        ActivateEpoch();
      } else {
        StillSound(g, State());
      }
      if remaining > 0 {
        NeverStuck(g, State());
      }
      return true;
    }

    constructor (g: Graph)
      requires g.Valid()
      ensures Valid() && this.g == g && trace == [] && limitSelections == 0 && liveValues == peakLiveValues == 0
      ensures remaining > 0 ==> ready != {}
    {
      hide Sound, Bookkeeping, Behind, EpochsCounted, AllConsumers, Pins;
      var n := g.Size();
      var _, readers := PlanUses(g);
      var numbers, left, finished, waiting := NumberEpochs(g);
      var pins := Pin(g);
      this.g, consumers, epoch, pinned := g, readers, numbers, pins;
      pending := seq(n, i requires 0 <= i < n => if g.live[i] then |g.parents[i]| else 0);
      remainingUses := seq(n, p requires 0 <= p < n => |readers[p]|);
      epochRemaining, done, remaining := left, finished, waiting;
      retained := seq(n, i => false);
      ready, activeEpoch := {}, 0;
      liveValues, peakLiveValues, limitSelections, trace := 0, 0, 0, [];
      new;
      CountsEpochs(g, State());
      InitialBooks(g, State());
      ActivateEpoch();
      if remaining > 0 {
        NeverStuck(g, State());
      }
    }

    /**
     * The oldest ready node if it fits or if enough values are held, else the oldest ready node that fits, else the
     * oldest. None where the program throws because nothing is ready.
     */
    method Select(fits: nat -> bool, liveLimit: nat) returns (choice: Option<nat>)
      requires Valid()
      modifies this`limitSelections
      ensures Valid() && (choice.None? <==> ready == {})
      ensures choice.Some? ==> choice.value in ready
      ensures choice.Some? ==> forall first :: Oldest(ready, first) ==>
                var crowded := !fits(first) && liveLimit > 0 && liveValues >= liveLimit;
                && limitSelections == old(limitSelections) + (if crowded then 1 else 0)
                && (fits(first) || crowded || (forall x :: x in ready ==> !fits(x)) ==> choice.value == first)
                && (!crowded && (exists x :: x in ready && fits(x)) ==>
                      fits(choice.value) && forall x :: x in ready && fits(x) ==> choice.value <= x)
      ensures choice.None? ==> limitSelections == old(limitSelections)
    {
      hide Sound, Tables;
      ReadyInside();
      var first := 0;
      while first < g.Size() && first !in ready
        invariant 0 <= first <= g.Size() && forall x :: x in ready ==> x >= first
      {
        first := first + 1;
      }
      if first == g.Size() {
        NoneReady(ready);
        return None;
      }
      if fits(first) {
        return Some(first);
      }
      if liveLimit > 0 && liveValues >= liveLimit {
        limitSelections := limitSelections + 1;
        return Some(first);
      }
      var next := first + 1;
      while next < g.Size()
        invariant first < next <= g.Size() && forall x :: x in ready && x < next ==> !fits(x)
      {
        if next in ready && fits(next) {
          return Some(next);
        }
        next := next + 1;
      }
      return Some(first);
    }

    lemma ReadyInside()
      requires Valid()
      ensures forall x :: x in ready ==> x < g.Size()
    {
      hide Bookkeeping, Behind;
    }

    /** Whether operation makes the last read of parent: no other unfinished node still reads it. */
    method FinalUse(parent: nat, operation: nat) returns (last: bool)
      requires Valid() && parent < g.Size() && operation < g.Size() && Waits(operation, done)
      ensures last <==> parent !in g.outputs && forall c :: c in AllConsumers(g, parent) && Waits(c, done) ==> c == operation
    {
      hide Sound, Bookkeeping, Undone, Count;
      BooksSized(g, State());
      var seen := CountReads(g.parents[operation], parent);
      last := !pinned[parent] && remainingUses[parent] == seen;
      CountsConsumers(g, parent, operation);
      var list := AllConsumers(g, parent);
      UndoneOnly(list, done, operation);
      WaitsLive(g, State(), operation);
    }

    /** The first unfinished reader of node i, if any. */
    method NextConsumer(i: nat) returns (next: Option<nat>)
      requires Valid() && i < g.Size()
      ensures next.None? <==> forall c :: c in AllConsumers(g, i) ==> !Waits(c, done)
      ensures next.Some? ==> next.value in AllConsumers(g, i) && Waits(next.value, done)
      ensures next.Some? ==> forall c :: c in AllConsumers(g, i) && c < next.value ==> !Waits(c, done)
    {
      hide Sound, Bookkeeping;
      BooksSized(g, State());
      ConsumersOrdered(g, i, g.Size());
      for k := 0 to |consumers[i]|
        invariant forall j :: 0 <= j < k ==> done[consumers[i][j]]
      {
        if !done[consumers[i][k]] {
          return Some(consumers[i][k]);
        }
      }
      assert forall c :: c in consumers[i] ==> exists k :: 0 <= k < |consumers[i]| && consumers[i][k] == c;
      return None;
    }

    /** Whatever fits answers, a run completes every live node exactly once, in order, and never finds nothing to do. */
    method RunAll(fits: (nat, nat) -> bool, liveLimit: nat)
      requires Valid()
      modifies this
      ensures Valid() && Empty()
      ensures forall i :: 0 <= i < g.Size() ==> (i in trace <==> g.live[i])
      ensures liveValues == CountTrue(LiveOutputs(g)) <==> Needed(g)
    {
      hide Sound, Needed, LiveOutputs, CountTrue;
      var step := 0;
      RemainingCounts(g, State());
      while !Empty()
        invariant Valid() && remaining >= 0
        decreases remaining
      {
        if remaining > 0 {
          NeverStuck(g, State());
        }
        var choice := Select((i: nat) => fits(step, i), liveLimit);
        var ok := Complete(choice.value);
        RemainingCounts(g, State());
        step := step + 1;
      }
      AllCompleted(g, State());
      OnlyOutputsLeft(g, State());
    }
  }
}
