/**
 * native/fideslib_stage0/include/bounded_prefetch.hpp with one worker: a deque filled in order. Every step is one critical
 * section of the program, guarded by what its wait condition admits.
 */
module SinglePrefetch {
  import opened Wrappers

  /** The worker waits for room for item next, computes it, or has ended. */
  datatype Phase = Waiting | Producing | Ended

  datatype Config<Item> = Config(count: nat, capacity: nat, produce: nat -> Item)

  datatype State<Item> = State(queue: seq<Item>, peak: nat, next: nat, phase: Phase, done: bool, failed: bool, cancelled: bool,
                               popped: seq<Item>)

  datatype Label = Admit | Finish | Publish | Fail | Pop | Cancel

  function Initial<Item>(): State<Item> {
    State([], 0, 0, Waiting, false, false, false, [])
  }

  predicate Enabled<Item>(c: Config<Item>, s: State<Item>, l: Label) {
    match l
    case Admit => s.phase == Waiting && s.next < c.count && (s.cancelled || |s.queue| < c.capacity)
    case Finish => s.phase == Waiting && s.next == c.count
    case Publish => s.phase == Producing
    case Fail => s.phase == Producing
    case Pop => s.failed || s.done || s.queue != []
    case Cancel => true
  }

  predicate Delivers<Item>(s: State<Item>) {
    !s.failed && s.queue != []
  }

  function Apply<Item>(c: Config<Item>, s: State<Item>, l: Label): State<Item>
    requires Enabled(c, s, l)
  {
    match l
    case Admit => s.(phase := if s.cancelled then Ended else Producing)
    case Finish => s.(phase := Ended, done := true)
    case Publish =>
      if s.cancelled then s.(phase := Ended) else
        s.(queue := s.queue + [c.produce(s.next)], peak := if |s.queue| + 1 > s.peak then |s.queue| + 1 else s.peak,
           next := s.next + 1, phase := Waiting)
    case Fail => s.(failed := true, phase := Ended)
    case Pop => if !Delivers(s) then s else s.(popped := s.popped + [s.queue[0]], queue := s.queue[1..])
    case Cancel => s.(cancelled := true)
  }

  /** Items are popped, queued and produced in order; the queue and the item in flight fit the capacity. */
  ghost predicate Inv<Item>(c: Config<Item>, s: State<Item>) {
    && c.capacity > 0 && s.next == |s.popped| + |s.queue| <= c.count
    && (forall n :: 0 <= n < |s.popped| ==> s.popped[n] == c.produce(n))
    && (forall n :: 0 <= n < |s.queue| ==> s.queue[n] == c.produce(|s.popped| + n))
    && |s.queue| <= s.peak <= c.capacity
    && (s.phase == Producing ==> s.next < c.count && |s.queue| < c.capacity)
    && (s.done ==> s.next == c.count && s.phase == Ended)
    && (s.failed ==> s.phase == Ended)
    && (s.phase == Ended ==> s.done || s.failed || s.cancelled)
  }

  lemma StepKeeps<Item>(c: Config<Item>, s: State<Item>, l: Label)
    requires Inv(c, s) && Enabled(c, s, l)
    ensures Inv(c, Apply(c, s, l))
  {
    hide Inv, Enabled, Apply;
    match l {
      case Publish => PublishKeeps(c, s);
      case Pop => PopKeeps(c, s);
      case _ => OtherKeeps(c, s, l);
    }
  }

  lemma PublishKeeps<Item>(c: Config<Item>, s: State<Item>)
    requires Inv(c, s) && Enabled(c, s, Publish)
    ensures Inv(c, Apply(c, s, Publish))
  {
  }

  lemma PopKeeps<Item>(c: Config<Item>, s: State<Item>)
    requires Inv(c, s) && Enabled(c, s, Pop)
    ensures Inv(c, Apply(c, s, Pop))
  {
    var r := Apply(c, s, Pop);
    if Delivers(s) {
      forall n | 0 <= n < |r.queue|
        ensures r.queue[n] == c.produce(|r.popped| + n)
      {
        assert r.queue[n] == s.queue[n + 1];
      }
    }
  }

  lemma OtherKeeps<Item>(c: Config<Item>, s: State<Item>, l: Label)
    requires Inv(c, s) && Enabled(c, s, l) && l != Publish && l != Pop
    ensures Inv(c, Apply(c, s, l))
  {
  }

  ghost predicate IsRun<Item>(c: Config<Item>, states: seq<State<Item>>, labels: seq<Label>) {
    && |states| == |labels| + 1 && states[0] == Initial()
    && forall k :: 0 <= k < |labels| ==> Enabled(c, states[k], labels[k]) && states[k + 1] == Apply(c, states[k], labels[k])
  }

  /** Under every interleaving the n-th popped item is produce(n), and queue and item in flight never exceed the capacity. */
  lemma {:induction false} RunSafe<Item>(c: Config<Item>, states: seq<State<Item>>, labels: seq<Label>, k: nat)
    requires c.capacity > 0 && IsRun(c, states, labels) && k < |states|
    ensures Inv(c, states[k])
    ensures forall n :: 0 <= n < |states[k].popped| ==> states[k].popped[n] == c.produce(n)
    ensures |states[k].queue| + (if states[k].phase == Producing then 1 else 0) <= c.capacity
  {
    if k > 0 {
      RunSafe(c, states, labels, k - 1);
      assert Enabled(c, states[k - 1], labels[k - 1]);
      StepKeeps(c, states[k - 1], labels[k - 1]);
    }
  }

  lemma StepEffects<Item>(c: Config<Item>, s: State<Item>, l: Label)
    requires Enabled(c, s, l) && |s.queue| <= s.peak
    ensures var r := Apply(c, s, l);
            && (r.failed <==> s.failed || l == Fail) && (r.done <==> s.done || l == Finish) && (r.cancelled <==> s.cancelled || l == Cancel)
            && (s.failed ==> r.popped == s.popped)
            && |r.queue| <= r.peak && r.peak == if |r.queue| > s.peak then |r.queue| else s.peak
  {
  }

  /** Failure, end and cancellation are recorded exactly when they happened; the peak is the largest queue so far. */
  lemma {:induction false} RunRecords<Item>(c: Config<Item>, states: seq<State<Item>>, labels: seq<Label>, k: nat)
    requires IsRun(c, states, labels) && k < |states|
    ensures (states[k].failed <==> Fail in labels[..k]) && (states[k].done <==> Finish in labels[..k])
    ensures states[k].cancelled <==> Cancel in labels[..k]
    ensures forall j :: 0 <= j <= k && states[j].failed ==> states[k].failed && states[k].popped == states[j].popped
    ensures forall j :: 0 <= j <= k ==> |states[j].queue| <= states[k].peak
    ensures exists j :: 0 <= j <= k && |states[j].queue| == states[k].peak
  {
    hide Enabled, Apply;
    if k == 0 {
      assert labels[..0] == [];
      assert states[0] == Initial();
      assert |states[0].queue| == states[0].peak;
    } else {
      var i := k - 1;
      RunRecords(c, states, labels, i);
      assert Enabled(c, states[i], labels[i]);
      StepEffects(c, states[i], labels[i]);
      assert labels[..k] == labels[..i] + [labels[i]];
      if |states[k].queue| <= states[i].peak {
        var j :| 0 <= j <= i && |states[j].queue| == states[i].peak;
        assert |states[j].queue| == states[k].peak;
      } else {
        assert |states[k].queue| == states[k].peak;
      }
    }
  }

  /** While nothing failed or was cancelled and items remain, the worker or the consumer can move. */
  lemma NeverBlocked<Item>(c: Config<Item>, s: State<Item>) returns (l: Label)
    requires Inv(c, s) && !s.failed && !s.cancelled && |s.popped| < c.count
    ensures Enabled(c, s, l) && l in {Admit, Publish, Pop} && (l == Pop ==> Delivers(s))
  {
    l := if s.queue != [] then Pop else if s.phase == Producing then Publish else Admit;
  }

  /** After the last item the consumer is told so: the worker's last step lets pop report the end. */
  lemma EndIsReported<Item>(c: Config<Item>, s: State<Item>)
    requires Inv(c, s) && !s.failed && !s.cancelled && |s.popped| == c.count
    ensures !Delivers(s) && (Enabled(c, s, Pop) || (Enabled(c, s, Finish) && Enabled(c, Apply(c, s, Finish), Pop)))
  {
  }

  function Measure<Item>(c: Config<Item>, s: State<Item>): int {
    3 * (c.count - s.next) + |s.queue| + (if s.phase == Waiting then 2 else if s.phase == Producing then 1 else 0)
  }

  /** Every move lowers the measure, so runs without further cancellations end. */
  lemma StepProgress<Item>(c: Config<Item>, s: State<Item>, l: Label)
    requires Inv(c, s) && Enabled(c, s, l) && l != Cancel && (l == Pop ==> Delivers(s))
    ensures 0 <= Measure(c, Apply(c, s, l)) < Measure(c, s)
  {
  }
}
