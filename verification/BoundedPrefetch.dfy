/**
 * native/fideslib_stage0/include/bounded_prefetch.hpp with several workers. Every step below is one critical section of
 * the program, guarded by what its wait condition admits; a run is any interleaving of such steps.
 */
module ParallelPrefetch {
  import opened Wrappers
  import opened SlotVectors

  /** What a worker does between two critical sections. */
  datatype Worker = Idle | Holding(index: nat) | Finished

  datatype Config<Item(0)> = Config(count: nat, capacity: nat, requested: nat, produce: nat -> Item)
  {
    predicate Valid() {
      capacity > 0 && requested > 1
    }

    /** min(workers, capacity, count) */
    function Active(): nat {
      if requested <= capacity && requested <= count then requested else if capacity <= count then capacity else count
    }
  }

  /** The queue's fields, what its workers hold, and the items handed out so far. */
  datatype State<Item> = State(claimed: nat, consumed: nat, slots: seq<Option<Item>>, readyCount: int, peak: int,
                               cancelled: bool, error: Option<nat>, workers: seq<Worker>, popped: seq<Item>)

  datatype Label = Claim(worker: nat) | Publish(worker: nat) | Fail(worker: nat) | Pop | Cancel

  function Initial<Item(0)>(c: Config<Item>): State<Item> {
    State(0, 0, seq(c.capacity, i => None), 0, 0, false, None, seq(c.Active(), i => Idle), [])
  }

  /** The wait condition of each critical section. */
  predicate Enabled<Item(0)>(c: Config<Item>, s: State<Item>, l: Label)
    requires c.Valid()
  {
    match l
    case Claim(w) => w < |s.workers| && s.workers[w] == Idle && (s.cancelled || s.claimed == c.count || s.claimed - s.consumed < c.capacity)
    case Publish(w) => w < |s.workers| && s.workers[w].Holding? && |s.slots| == c.capacity
    case Fail(w) => w < |s.workers| && s.workers[w].Holding?
    case Pop => |s.slots| == c.capacity && (s.error.Some? || s.consumed == c.count || s.slots[Wrap(s.consumed, c.capacity)].Some?)
    case Cancel => true
  }

  /** Whether pop hands out an item rather than throwing. */
  predicate Delivers<Item(0)>(c: Config<Item>, s: State<Item>) {
    s.error.None? && s.consumed != c.count
  }

  function Apply<Item(0)>(c: Config<Item>, s: State<Item>, l: Label): State<Item>
    requires c.Valid() && Enabled(c, s, l)
  {
    match l
    case Claim(w) =>
      if s.cancelled || s.claimed == c.count then s.(workers := s.workers[w := Finished]) else
        s.(workers := s.workers[w := Holding(s.claimed)], claimed := s.claimed + 1)
    case Publish(w) =>
      if s.cancelled then s.(workers := s.workers[w := Finished]) else
        var index := s.workers[w].index;
        s.(slots := s.slots[Wrap(index, c.capacity) := Some(c.produce(index))], readyCount := s.readyCount + 1,
           peak := if s.readyCount + 1 > s.peak then s.readyCount + 1 else s.peak, workers := s.workers[w := Idle])
    case Fail(w) =>
      s.(error := if s.error.None? then Some(s.workers[w].index) else s.error, cancelled := true,
         workers := s.workers[w := Finished])
    case Pop =>
      if !Delivers(c, s) then s else
        var slot := Wrap(s.consumed, c.capacity);
        s.(popped := s.popped + [s.slots[slot].value], slots := s.slots[slot := None], consumed := s.consumed + 1,
           readyCount := s.readyCount - 1)
    case Cancel => s.(cancelled := true)
  }

  // ----- invariant

  function InFlight(workers: seq<Worker>): nat
    decreases |workers|
  {
    if |workers| == 0 then 0 else InFlight(workers[..|workers| - 1]) + if workers[|workers| - 1].Holding? then 1 else 0
  }

  function Running(workers: seq<Worker>): nat
    decreases |workers|
  {
    if |workers| == 0 then 0 else Running(workers[..|workers| - 1]) + if workers[|workers| - 1].Finished? then 0 else 1
  }

  function Filled<Item>(slots: seq<Option<Item>>): nat
    decreases |slots|
  {
    if |slots| == 0 then 0 else Filled(slots[..|slots| - 1]) + if slots[|slots| - 1].Some? then 1 else 0
  }

  /** A filled slot holds the item of the one index in the window that maps to it. */
  ghost predicate SlotsTrue<Item(0)>(c: Config<Item>, s: State<Item>)
    requires c.Valid() && |s.slots| == c.capacity
  {
    forall i: nat :: s.consumed <= i < s.consumed + c.capacity && s.slots[Wrap(i, c.capacity)].Some? ==>
      i < s.claimed && s.slots[Wrap(i, c.capacity)].value == c.produce(i)
  }

  /** Workers hold different indices of the window, whose slots are still empty. */
  ghost predicate HoldsTrue<Item(0)>(c: Config<Item>, s: State<Item>)
    requires c.Valid() && |s.slots| == c.capacity
  {
    && (forall w :: 0 <= w < |s.workers| && s.workers[w].Holding? ==>
          s.consumed <= s.workers[w].index < s.claimed && s.slots[Wrap(s.workers[w].index, c.capacity)].None?)
    && forall v, w :: 0 <= v < w < |s.workers| && s.workers[v].Holding? && s.workers[w].Holding? ==>
         s.workers[v].index != s.workers[w].index
  }

  ghost predicate HeldBy(workers: seq<Worker>, index: nat) {
    exists w :: 0 <= w < |workers| && workers[w] == Holding(index)
  }

  /** Unless cancelled, whatever was claimed and not yet consumed is in its slot or in some worker's hands. */
  ghost predicate NothingLost<Item(0)>(c: Config<Item>, s: State<Item>)
    requires c.Valid() && |s.slots| == c.capacity
  {
    s.cancelled || forall i: nat :: s.consumed <= i < s.claimed && s.slots[Wrap(i, c.capacity)].None? ==> HeldBy(s.workers, i)
  }

  ghost predicate Counts<Item(0)>(c: Config<Item>, s: State<Item>) {
    && s.consumed <= s.claimed <= c.count && s.claimed - s.consumed <= c.capacity
    && s.readyCount == Filled(s.slots) && s.readyCount <= s.peak <= c.capacity
    && InFlight(s.workers) + s.readyCount <= s.claimed - s.consumed
  }

  ghost predicate Ends<Item(0)>(c: Config<Item>, s: State<Item>) {
    && (s.error.Some? ==> s.cancelled)
    && (forall w :: 0 <= w < |s.workers| && s.workers[w].Finished? ==> s.cancelled || s.claimed == c.count)
    && |s.workers| == c.Active()
  }

  ghost predicate InOrder<Item(0)>(c: Config<Item>, s: State<Item>) {
    |s.popped| == s.consumed && forall n :: 0 <= n < |s.popped| ==> s.popped[n] == c.produce(n)
  }

  ghost predicate Inv<Item(0)>(c: Config<Item>, s: State<Item>) {
    && c.Valid() && |s.slots| == c.capacity
    && SlotsTrue(c, s) && HoldsTrue(c, s) && NothingLost(c, s) && Counts(c, s) && Ends(c, s) && InOrder(c, s)
  }

  lemma {:induction false} InFlightSet(workers: seq<Worker>, w: nat, to: Worker)
    requires w < |workers|
    ensures InFlight(workers[w := to]) == InFlight(workers) - (if workers[w].Holding? then 1 else 0) + if to.Holding? then 1 else 0
    ensures Running(workers[w := to]) == Running(workers) - (if workers[w].Finished? then 0 else 1) + if to.Finished? then 0 else 1
    decreases |workers|
  {
    var n := |workers| - 1;
    if w < n {
      InFlightSet(workers[..n], w, to);
      assert workers[w := to][..n] == workers[..n][w := to];
    } else {
      assert workers[w := to][..n] == workers[..n];
    }
  }

  lemma {:induction false} FilledSet<Item>(slots: seq<Option<Item>>, k: nat, to: Option<Item>)
    requires k < |slots|
    ensures Filled(slots[k := to]) == Filled(slots) - (if slots[k].Some? then 1 else 0) + if to.Some? then 1 else 0
    decreases |slots|
  {
    var n := |slots| - 1;
    if k < n {
      FilledSet(slots[..n], k, to);
      assert slots[k := to][..n] == slots[..n][k := to];
    } else {
      assert slots[k := to][..n] == slots[..n];
    }
  }

  lemma {:induction false} NoneFilled<Item>(slots: seq<Option<Item>>)
    requires forall i :: 0 <= i < |slots| ==> slots[i].None?
    ensures Filled(slots) == 0
    decreases |slots|
  {
    if |slots| > 0 {
      NoneFilled(slots[..|slots| - 1]);
    }
  }

  lemma {:induction false} NoneInFlight(workers: seq<Worker>)
    ensures InFlight(workers) == 0 <==> forall w :: 0 <= w < |workers| ==> !workers[w].Holding?
    ensures Running(workers) <= |workers|
    decreases |workers|
  {
    if |workers| > 0 {
      var front := workers[..|workers| - 1];
      NoneInFlight(front);
      assert workers == front + [workers[|workers| - 1]];
    }
  }

  lemma InitialInv<Item(0)>(c: Config<Item>)
    requires c.Valid()
    ensures Inv(c, Initial(c))
  {
    NoneFilled(Initial(c).slots);
    NoneInFlight(Initial(c).workers);
  }

  // ----- every step keeps it

  lemma LeaveKeeps<Item(0)>(c: Config<Item>, s: State<Item>, w: nat)
    requires Inv(c, s) && Enabled(c, s, Claim(w)) && (s.cancelled || s.claimed == c.count)
    ensures Inv(c, Apply(c, s, Claim(w)))
  {
    hide Wrap;
    InFlightSet(s.workers, w, Finished);
    forall i: nat | HeldBy(s.workers, i)
      ensures HeldBy(s.workers[w := Finished], i)
    {
      StillHeld(s.workers, w, Finished, i);
    }
  }

  lemma ClaimKeeps<Item(0)>(c: Config<Item>, s: State<Item>, w: nat)
    requires Inv(c, s) && Enabled(c, s, Claim(w)) && !s.cancelled && s.claimed != c.count
    ensures Inv(c, Apply(c, s, Claim(w)))
  {
    hide Wrap;
    var r := Apply(c, s, Claim(w));
    InFlightSet(s.workers, w, Holding(s.claimed));
    FreshSlot(c, s);
    forall i: nat | s.consumed <= i < r.claimed && r.slots[Wrap(i, c.capacity)].None?
      ensures HeldBy(r.workers, i)
    {
      if i == s.claimed {
        assert r.workers[w] == Holding(i);
      } else {
        StillHeld(s.workers, w, Holding(s.claimed), i);
      }
    }
  }

  /** The next index to claim has an empty slot. */
  lemma FreshSlot<Item(0)>(c: Config<Item>, s: State<Item>)
    requires Inv(c, s) && s.claimed - s.consumed < c.capacity
    ensures s.slots[Wrap(s.claimed, c.capacity)].None?
  {
    hide HoldsTrue, NothingLost, Ends, InOrder;
  }

  /** A worker that held nothing gives nothing away. */
  lemma StillHeld(workers: seq<Worker>, w: nat, to: Worker, i: nat)
    requires w < |workers| && HeldBy(workers, i) && workers[w] != Holding(i)
    ensures HeldBy(workers[w := to], i)
  {
    var v :| 0 <= v < |workers| && workers[v] == Holding(i);
    assert workers[w := to][v] == Holding(i);
  }

  /** The slot a worker publishes to is empty: nothing is ever overwritten. */
  lemma NeverOverwrites<Item(0)>(c: Config<Item>, s: State<Item>, w: nat)
    requires Inv(c, s) && w < |s.workers| && s.workers[w].Holding?
    ensures s.slots[Wrap(s.workers[w].index, c.capacity)].None?
  {
  }

  /** Publishing after a cancellation only ends the worker. */
  lemma DropKeeps<Item(0)>(c: Config<Item>, s: State<Item>, w: nat)
    requires Inv(c, s) && Enabled(c, s, Publish(w)) && s.cancelled
    ensures Inv(c, Apply(c, s, Publish(w)))
  {
    hide Wrap;
    InFlightSet(s.workers, w, Finished);
  }

  /** The state after worker w published the index it held. */
  ghost predicate Published<Item(0)>(c: Config<Item>, s: State<Item>, w: nat, r: State<Item>) {
    && c.Valid() && |s.slots| == c.capacity && w < |s.workers| && s.workers[w].Holding? && !s.cancelled
    && var index := s.workers[w].index;
       r == s.(slots := s.slots[Wrap(index, c.capacity) := Some(c.produce(index))], readyCount := s.readyCount + 1,
               peak := if s.readyCount + 1 > s.peak then s.readyCount + 1 else s.peak, workers := s.workers[w := Idle])
  }

  lemma PublishKeeps<Item(0)>(c: Config<Item>, s: State<Item>, w: nat)
    requires Inv(c, s) && Enabled(c, s, Publish(w))
    ensures Inv(c, Apply(c, s, Publish(w)))
  {
    hide *;
    if s.cancelled {
      DropKeeps(c, s, w);
    } else {
      InvParts(c, s);
      PublishMeans(c, s, w);
      var r := Apply(c, s, Publish(w));
      PublishedSlots(c, s, w, r);
      PublishedHolds(c, s, w, r);
      PublishedLost(c, s, w, r);
      PublishedCounts(c, s, w, r);
      PublishedEnds(c, s, w, r);
      InvWhole(c, r);
    }
  }

  lemma PublishMeans<Item(0)>(c: Config<Item>, s: State<Item>, w: nat)
    requires Inv(c, s) && Enabled(c, s, Publish(w)) && !s.cancelled
    ensures Published(c, s, w, Apply(c, s, Publish(w)))
  {
    hide Wrap, SlotsTrue, HoldsTrue, NothingLost, Counts, Ends, InOrder;
  }

  lemma InvParts<Item(0)>(c: Config<Item>, s: State<Item>)
    requires Inv(c, s)
    ensures c.Valid() && |s.slots| == c.capacity
    ensures SlotsTrue(c, s) && HoldsTrue(c, s) && NothingLost(c, s) && Counts(c, s) && Ends(c, s) && InOrder(c, s)
  {
    hide SlotsTrue, HoldsTrue, NothingLost, Counts, Ends, InOrder;
  }

  lemma InvWhole<Item(0)>(c: Config<Item>, s: State<Item>)
    requires c.Valid() && |s.slots| == c.capacity
    requires SlotsTrue(c, s) && HoldsTrue(c, s) && NothingLost(c, s) && Counts(c, s) && Ends(c, s) && InOrder(c, s)
    ensures Inv(c, s)
  {
    hide SlotsTrue, HoldsTrue, NothingLost, Counts, Ends, InOrder;
  }

  /** Inside the window only the published index falls on its slot. */
  lemma OwnSlot(consumed: nat, capacity: nat, index: nat, i: nat)
    requires capacity > 0 && consumed <= index < consumed + capacity && consumed <= i < consumed + capacity
    ensures Wrap(i, capacity) == Wrap(index, capacity) ==> i == index
  {
    hide Wrap;
    if Wrap(i, capacity) == Wrap(index, capacity) {
      WrapDistinct(i, index, consumed, capacity);
    }
  }

  lemma PublishedSlots<Item(0)>(c: Config<Item>, s: State<Item>, w: nat, r: State<Item>)
    requires Published(c, s, w, r) && SlotsTrue(c, s) && HoldsTrue(c, s) && Counts(c, s)
    ensures |r.slots| == c.capacity && SlotsTrue(c, r)
  {
    hide Wrap, InFlight, Filled;
    forall i: nat | s.consumed <= i < s.consumed + c.capacity && r.slots[Wrap(i, c.capacity)].Some?
      ensures i < r.claimed && r.slots[Wrap(i, c.capacity)].value == c.produce(i)
    {
      OwnSlot(s.consumed, c.capacity, s.workers[w].index, i);
    }
  }

  lemma PublishedHolds<Item(0)>(c: Config<Item>, s: State<Item>, w: nat, r: State<Item>)
    requires Published(c, s, w, r) && HoldsTrue(c, s) && Counts(c, s)
    ensures |r.slots| == c.capacity && HoldsTrue(c, r)
  {
    hide Wrap, InFlight, Filled;
    forall v | 0 <= v < |r.workers| && r.workers[v].Holding?
      ensures r.slots[Wrap(r.workers[v].index, c.capacity)].None?
    {
      OwnSlot(s.consumed, c.capacity, s.workers[w].index, s.workers[v].index);
    }
  }

  lemma PublishedLost<Item(0)>(c: Config<Item>, s: State<Item>, w: nat, r: State<Item>)
    requires Published(c, s, w, r) && HoldsTrue(c, s) && NothingLost(c, s) && Counts(c, s)
    ensures |r.slots| == c.capacity && NothingLost(c, r)
  {
    hide Wrap, InFlight, Filled, HeldBy;
    forall i: nat | s.consumed <= i < r.claimed && r.slots[Wrap(i, c.capacity)].None?
      ensures HeldBy(r.workers, i)
    {
      assert i != s.workers[w].index;
      StillHeld(s.workers, w, Idle, i);
    }
  }

  lemma PublishedCounts<Item(0)>(c: Config<Item>, s: State<Item>, w: nat, r: State<Item>)
    requires Published(c, s, w, r) && HoldsTrue(c, s) && Counts(c, s)
    ensures |r.slots| == c.capacity && Counts(c, r)
  {
    hide Wrap, InFlight, Filled;
    var index := s.workers[w].index;
    InFlightSet(s.workers, w, Idle);
    FilledSet(s.slots, Wrap(index, c.capacity), Some(c.produce(index)));
    FilledBound(r.slots);
  }

  lemma PublishedEnds<Item(0)>(c: Config<Item>, s: State<Item>, w: nat, r: State<Item>)
    requires Published(c, s, w, r) && Ends(c, s) && InOrder(c, s)
    ensures Ends(c, r) && InOrder(c, r)
  {
    hide Wrap;
  }

  lemma {:induction false} FilledBound<Item>(slots: seq<Option<Item>>)
    ensures Filled(slots) <= |slots|
    decreases |slots|
  {
    if |slots| > 0 {
      FilledBound(slots[..|slots| - 1]);
    }
  }

  lemma FailKeeps<Item(0)>(c: Config<Item>, s: State<Item>, w: nat)
    requires Inv(c, s) && Enabled(c, s, Fail(w))
    ensures Inv(c, Apply(c, s, Fail(w)))
  {
    hide Wrap;
    InFlightSet(s.workers, w, Finished);
  }

  lemma PopKeeps<Item(0)>(c: Config<Item>, s: State<Item>)
    requires Inv(c, s) && Enabled(c, s, Pop)
    ensures Inv(c, Apply(c, s, Pop))
  {
    hide Wrap;
    if Delivers(c, s) {
      var slot := Wrap(s.consumed, c.capacity);
      FilledSet(s.slots, slot, None);
      var r := Apply(c, s, Pop);
      forall i: nat | r.consumed <= i < r.consumed + c.capacity
        ensures Wrap(i, c.capacity) == slot ==> i == s.consumed + c.capacity
      {
        if Wrap(i, c.capacity) == slot && i < s.consumed + c.capacity {
          WrapDistinct(i, s.consumed, s.consumed, c.capacity);
        }
      }
      WrapTurn(s.consumed, 1, c.capacity);
    }
  }

  lemma CancelKeeps<Item(0)>(c: Config<Item>, s: State<Item>)
    requires Inv(c, s)
    ensures Inv(c, Apply(c, s, Cancel))
  {
    hide Wrap, InFlight, Filled, HeldBy;
  }

  lemma StepKeeps<Item(0)>(c: Config<Item>, s: State<Item>, l: Label)
    requires Inv(c, s) && Enabled(c, s, l)
    ensures Inv(c, Apply(c, s, l))
  {
    hide Inv, Apply, Enabled;
    match l {
      case Claim(w) =>
        if s.cancelled || s.claimed == c.count {
          LeaveKeeps(c, s, w);
        } else {
          ClaimKeeps(c, s, w);
        }
      case Publish(w) => PublishKeeps(c, s, w);
      case Fail(w) => FailKeeps(c, s, w);
      case Pop => PopKeeps(c, s);
      case Cancel => CancelKeeps(c, s);
    }
  }

  // ----- runs

  /** The states an interleaving passes through. */
  ghost predicate IsRun<Item(0)>(c: Config<Item>, states: seq<State<Item>>, labels: seq<Label>)
    requires c.Valid()
  {
    && |states| == |labels| + 1 && states[0] == Initial(c)
    && forall k :: 0 <= k < |labels| ==> Enabled(c, states[k], labels[k]) && states[k + 1] == Apply(c, states[k], labels[k])
  }

  /** Under every interleaving: items come out in order, and in-flight plus ready items never exceed the capacity. */
  lemma {:induction false} RunSafe<Item(0)>(c: Config<Item>, states: seq<State<Item>>, labels: seq<Label>, k: nat)
    requires c.Valid() && IsRun(c, states, labels) && k < |states|
    ensures Inv(c, states[k])
    ensures forall n :: 0 <= n < |states[k].popped| ==> states[k].popped[n] == c.produce(n)
    ensures InFlight(states[k].workers) + states[k].readyCount <= c.capacity
  {
    hide Inv, Initial, Enabled, Apply;
    if k == 0 {
      InitialInv(c);
    } else {
      RunSafe(c, states, labels, k - 1);
      assert Enabled(c, states[k - 1], labels[k - 1]);
      StepKeeps(c, states[k - 1], labels[k - 1]);
    }
    InvMeans(c, states[k]);
  }

  lemma InvMeans<Item(0)>(c: Config<Item>, s: State<Item>)
    requires Inv(c, s)
    ensures forall n :: 0 <= n < |s.popped| ==> s.popped[n] == c.produce(n)
    ensures InFlight(s.workers) + s.readyCount <= c.capacity && |s.popped| == s.consumed <= c.count
  {
  }

  // ----- errors and peaks over runs

  /** Label j is the first failure among the labels. */
  predicate FirstFailure(labels: seq<Label>, j: nat) {
    j < |labels| && labels[j].Fail? && forall i :: 0 <= i < j ==> !labels[i].Fail?
  }

  /** What one critical section does to the error, the items handed out and the counts. */
  lemma StepEffects<Item(0)>(c: Config<Item>, s: State<Item>, l: Label)
    requires c.Valid() && Enabled(c, s, l) && s.readyCount <= s.peak
    ensures var r := Apply(c, s, l);
            && (!l.Fail? ==> r.error == s.error)
            && (l.Fail? ==> l.worker < |s.workers| && s.workers[l.worker].Holding? && r.cancelled)
            && (l.Fail? && s.error.None? ==> r.error == Some(s.workers[l.worker].index))
            && (s.error.Some? ==> r.error == s.error && r.popped == s.popped)
            && (s.cancelled ==> r.cancelled)
            && r.readyCount <= r.peak && r.peak == if r.readyCount > s.peak then r.readyCount else s.peak
  {
    hide Wrap;
  }

  /**
   * Over every run: the error is that of the first failure, if there was one, and it stays; from then on pop hands out
   * nothing. The peak is the largest number of ready items so far.
   */
  lemma {:induction false} ErrorIsFirst<Item(0)>(c: Config<Item>, states: seq<State<Item>>, labels: seq<Label>, k: nat)
    requires c.Valid() && IsRun(c, states, labels) && k < |states|
    ensures states[k].error.None? <==> forall j :: 0 <= j < k ==> !labels[j].Fail?
    ensures forall j: nat :: j < k && FirstFailure(labels, j) ==>
              && labels[j].worker < |states[j].workers| && states[j].workers[labels[j].worker].Holding?
              && states[k].error == Some(states[j].workers[labels[j].worker].index) && states[k].cancelled
    ensures forall j :: 0 <= j <= k && states[j].error.Some? ==>
              states[k].error == states[j].error && states[k].popped == states[j].popped
    ensures forall j :: 0 <= j <= k ==> states[j].readyCount <= states[k].peak
    ensures exists j :: 0 <= j <= k && states[j].readyCount == states[k].peak
  {
    hide Enabled, Apply;
    if k == 0 {
      assert states[0].readyCount == states[0].peak;
    } else {
      var i := k - 1;
      ErrorIsFirst(c, states, labels, i);
      assert Enabled(c, states[i], labels[i]);
      StepEffects(c, states[i], labels[i]);
      if states[k].readyCount <= states[i].peak {
        var j :| 0 <= j <= i && states[j].readyCount == states[i].peak;
        assert states[j].readyCount == states[k].peak;
      } else {
        assert states[k].readyCount == states[k].peak;
      }
    }
  }

  /** Work left; every step that does something lowers it. */
  function Measure<Item(0)>(c: Config<Item>, s: State<Item>): int {
    3 * (c.count - s.claimed) + 2 * InFlight(s.workers) + s.readyCount + Running(s.workers)
  }

  predicate Effective<Item(0)>(c: Config<Item>, s: State<Item>, l: Label) {
    l != Cancel && (l == Pop ==> Delivers(c, s))
  }

  lemma StepProgress<Item(0)>(c: Config<Item>, s: State<Item>, l: Label)
    requires Inv(c, s) && Enabled(c, s, l) && Effective(c, s, l)
    ensures 0 <= Measure(c, Apply(c, s, l)) < Measure(c, s)
  {
    StepKeeps(c, s, l);
    hide *;
    MeasureParts(c, s, l);
  }

  lemma MeasureParts<Item(0)>(c: Config<Item>, s: State<Item>, l: Label)
    requires Inv(c, s) && Enabled(c, s, l) && Effective(c, s, l) && Inv(c, Apply(c, s, l))
    ensures 0 <= Measure(c, Apply(c, s, l)) < Measure(c, s)
  {
    hide Wrap, SlotsTrue, HoldsTrue, NothingLost, InOrder;
    match l {
      case Claim(w) =>
        InFlightSet(s.workers, w, Finished);
        InFlightSet(s.workers, w, Holding(s.claimed));
      case Publish(w) =>
        InFlightSet(s.workers, w, Finished);
        InFlightSet(s.workers, w, Idle);
      case Fail(w) =>
        InFlightSet(s.workers, w, Finished);
      case Pop =>
    }
  }

  /** While nothing failed or was cancelled and items remain, some worker or the consumer can move. */
  lemma NeverBlocked<Item(0)>(c: Config<Item>, s: State<Item>) returns (l: Label)
    requires Inv(c, s) && !s.cancelled && s.consumed < c.count
    ensures Enabled(c, s, l) && Effective(c, s, l) && !l.Fail?
  {
    hide Wrap;
    var slot := Wrap(s.consumed, c.capacity);
    if s.slots[slot].Some? {
      l := Pop;
    } else if s.consumed < s.claimed {
      assert HeldBy(s.workers, s.consumed);
      var w :| 0 <= w < |s.workers| && s.workers[w] == Holding(s.consumed);
      l := Publish(w);
    } else {
      assert s.workers[0].Idle?;
      l := Claim(0);
    }
  }

  /** A run that cannot go on has delivered every item, unless a producer failed or the queue was cancelled. */
  lemma StoppedMeansDelivered<Item(0)>(c: Config<Item>, s: State<Item>)
    requires Inv(c, s) && !s.cancelled
    requires forall l :: Enabled(c, s, l) && Effective(c, s, l) ==> l.Fail?
    ensures |s.popped| == c.count && forall n :: 0 <= n < c.count ==> s.popped[n] == c.produce(n)
  {
    hide *;
    InvMeans(c, s);
    if s.consumed < c.count {
      var l := NeverBlocked(c, s);
    }
  }

  /** After cancellation every worker that is still running can move, so joining them ends. */
  lemma JoinEnds<Item(0)>(c: Config<Item>, s: State<Item>, w: nat)
    requires Inv(c, s) && s.cancelled && w < |s.workers| && !s.workers[w].Finished?
    ensures Enabled(c, s, Claim(w)) || Enabled(c, s, Publish(w))
    ensures forall l :: Enabled(c, s, l) && l in {Claim(w), Publish(w)} ==> Apply(c, s, l).workers[w].Finished?
  {
  }

  /** No run makes more moves than there was work. */
  lemma {:induction false} RunsEnd<Item(0)>(c: Config<Item>, states: seq<State<Item>>, labels: seq<Label>, k: nat)
    requires c.Valid() && IsRun(c, states, labels) && k <= |labels|
    requires forall j :: 0 <= j < k ==> Effective(c, states[j], labels[j])
    ensures k + Measure(c, states[k]) <= Measure(c, states[0]) && Measure(c, states[k]) >= 0
  {
    hide Inv, Initial, Enabled, Apply, Measure, Effective;
    RunSafe(c, states, labels, k);
    NonnegativeMeasure(c, states[k]);
    if k > 0 {
      RunsEnd(c, states, labels, k - 1);
      RunSafe(c, states, labels, k - 1);
      assert Enabled(c, states[k - 1], labels[k - 1]) && Effective(c, states[k - 1], labels[k - 1]);
      StepProgress(c, states[k - 1], labels[k - 1]);
    }
  }

  lemma NonnegativeMeasure<Item(0)>(c: Config<Item>, s: State<Item>)
    requires Inv(c, s)
    ensures Measure(c, s) >= 0
  {
  }

  // ----- the critical sections

  /** The shared fields; each method is one locked section, entered when its wait condition holds. */
  class BoundedPrefetch<Item(0)> {
    ghost const c: Config<Item>
    const capacity: nat
    const count: nat
    var claimed: nat
    var consumed: nat
    var slots: seq<Option<Item>>
    var readyCount: int
    var peakSize: int
    var cancelled: bool
    var error: Option<nat>
    ghost var workers: seq<Worker>
    ghost var popped: seq<Item>

    ghost function Now(): State<Item>
      reads this
    {
      State(claimed, consumed, slots, readyCount, peakSize, cancelled, error, workers, popped)
    }

    ghost predicate Valid()
      reads this
    {
      c.capacity == capacity && c.count == count && Inv(c, Now())
    }

    constructor (ghost c: Config<Item>, count: nat, capacity: nat)
      requires c.Valid() && c.count == count && c.capacity == capacity
      ensures Valid() && this.c == c && Now() == Initial(c)
    {
      this.c, this.count, this.capacity := c, count, capacity;
      claimed, consumed, readyCount, peakSize, cancelled, error := 0, 0, 0, 0, false, None;
      slots := seq(capacity, i => None);
      workers, popped := seq(c.Active(), i => Idle), [];
      new;
      InitialInv(c);
    }

    /** None ends the worker. */
    method TakeIndex(ghost w: nat) returns (index: Option<nat>)
      requires Valid() && Enabled(c, Now(), Claim(w))
      modifies this
      ensures Valid() && Now() == Apply(c, old(Now()), Claim(w))
      ensures index == if workers[w].Holding? then Some(workers[w].index) else None
    {
      StepKeeps(c, Now(), Claim(w));
      hide Inv;
      if cancelled || claimed == count {
        workers := workers[w := Finished];
        return None;
      }
      index := Some(claimed);
      workers := workers[w := Holding(claimed)];
      claimed := claimed + 1;
    }

    /** False ends the worker, whose item is dropped. */
    method PublishItem(ghost w: nat, index: nat, item: Item) returns (go: bool)
      requires Valid() && Enabled(c, Now(), Publish(w)) && workers[w] == Holding(index) && item == c.produce(index)
      modifies this
      ensures Valid() && Now() == Apply(c, old(Now()), Publish(w)) && go == !old(cancelled)
    {
      StepKeeps(c, Now(), Publish(w));
      hide Inv;
      if cancelled {
        workers := workers[w := Finished];
        return false;
      }
      slots := slots[Wrap(index, capacity) := Some(item)];
      readyCount := readyCount + 1;
      peakSize := if readyCount > peakSize then readyCount else peakSize;
      workers := workers[w := Idle];
      return true;
    }

    method ProducerFailed(ghost w: nat, index: nat)
      requires Valid() && Enabled(c, Now(), Fail(w)) && workers[w] == Holding(index)
      modifies this
      ensures Valid() && Now() == Apply(c, old(Now()), Fail(w))
      ensures cancelled && error == if old(error).Some? then old(error) else Some(index)
    {
      StepKeeps(c, Now(), Fail(w));
      hide Inv;
      if error.None? {
        error := Some(index);
      }
      cancelled := true;
      workers := workers[w := Finished];
    }

    /** None where the program throws: a producer's error first, else the end of the items. */
    method PopItem() returns (item: Option<Item>)
      requires Valid() && Enabled(c, Now(), Pop)
      modifies this
      ensures Valid() && Now() == Apply(c, old(Now()), Pop)
      ensures item == if old(Delivers(c, Now())) then Some(c.produce(old(consumed))) else None
    {
      StepKeeps(c, Now(), Pop);
      if Delivers(c, Now()) {
        NextIsProduced(c, Now());
      }
      hide Inv;
      if error.Some? || consumed == count {
        return None;
      }
      var slot := Wrap(consumed, capacity);
      item := slots[slot];
      popped := popped + [slots[slot].value];
      slots := slots[slot := None];
      consumed := consumed + 1;
      readyCount := readyCount - 1;
    }

    method CancelAll()
      requires Valid()
      modifies this
      ensures Valid() && Now() == Apply(c, old(Now()), Cancel)
    {
      StepKeeps(c, Now(), Cancel);
      hide Inv;
      cancelled := true;
    }
  }

  lemma NextIsProduced<Item(0)>(c: Config<Item>, s: State<Item>)
    requires Inv(c, s) && Enabled(c, s, Pop) && Delivers(c, s)
    ensures s.slots[Wrap(s.consumed, c.capacity)] == Some(c.produce(s.consumed))
  {
  }
}
