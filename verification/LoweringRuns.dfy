/**
 * What the nodes emitted by src/fhemamba/packed_program.py compute when the program is run on other data than the recorded
 * fixture: any inputs, any client answers.
 */
module LoweringRuns {
  import opened Wrappers
  import opened Sums
  import opened SlotVectors
  import opened TensorIndex
  import opened PackedNodes
  import opened PackedTensors
  import opened PackedRuns

  /** The tensor that stands at a packed value when the program is run. */
  function Denote(nodes: seq<Node>, given: nat -> seq<real>, v: PackedValue): Tensor {
    Tensor(v.value.shape, ValueOf(Run(nodes, given), v.index))
  }

  ghost predicate Shaped(nodes: seq<Node>, v: PackedValue) {
    v.index < |nodes| && v.value.Valid() && nodes[v.index].size == |v.value.data|
  }

  lemma DenoteValid(nodes: seq<Node>, slots: nat, extended: bool, given: nat -> seq<real>, v: PackedValue)
    requires Checked(nodes, slots, extended) && Suits(nodes, given) && Shaped(nodes, v)
    ensures Denote(nodes, given, v).Valid()
  {
    hide Run, Checked, Suits;
    RunSized(nodes, slots, extended, given);
  }

  /** Appending nodes does not change what a value denotes. */
  lemma DenoteKept(nodes: seq<Node>, longer: seq<Node>, given: nat -> seq<real>, v: PackedValue)
    requires nodes <= longer && v.index < |nodes| && Suits(longer, given)
    ensures Suits(nodes, given) && Denote(longer, given, v) == Denote(nodes, given, v)
  {
    hide Run, Suits;
    RunPrefix(nodes, longer, given);
    assert Run(longer, given)[v.index] == Run(longer, given)[..|nodes|][v.index];
  }

  /** The newest node computes its operation from the values before it. */
  lemma DenoteNew(nodes: seq<Node>, node: Node, given: nat -> seq<real>, v: PackedValue)
    requires v.index == |nodes| && Suits(nodes + [node], given)
    ensures Suits(nodes, given)
    ensures Denote(nodes + [node], given, v).data == RunNode(nodes, node, Run(nodes, given), given(|nodes|))
  {
    hide Run, Suits, RunNode;
    RunPrefix(nodes, nodes + [node], given);
    RunLast(nodes, node, given);
  }

  // ----- sources

  /** An encrypted source denotes the data given for it, a public one its constant. */
  ghost predicate SourceRuns(nodes: seq<Node>, r: PackedValue, encrypted: bool, constant: Tensor) {
    r.value.shape == constant.shape && forall given: nat -> seq<real> | Suits(nodes, given) ::
      Denote(nodes, given, r).data == if encrypted then given(r.index) else constant.data
  }

  lemma EmittedSource(nodes: seq<Node>, r: PackedValue, encrypted: bool, constant: Tensor)
    requires r == PackedValue(|nodes|, constant)
    ensures var node := Node(if encrypted then Input(constant.data) else Public(constant.data), |constant.data|);
            SourceRuns(nodes + [node], r, encrypted, constant)
  {
    hide Run, Suits;
    var node := Node(if encrypted then Input(constant.data) else Public(constant.data), |constant.data|);
    forall given: nat -> seq<real> | Suits(nodes + [node], given)
      ensures Denote(nodes + [node], given, r).data == if encrypted then given(r.index) else constant.data
    {
      DenoteNew(nodes, node, given, r);
    }
  }

  /** A client value denotes the client's answer. */
  ghost predicate AnswerRuns(nodes: seq<Node>, r: PackedValue) {
    forall given: nat -> seq<real> | Suits(nodes, given) :: Denote(nodes, given, r).data == given(r.index)
  }

  lemma EmittedAnswer(nodes: seq<Node>, r: PackedValue, parent: nat, size: nat)
    requires r.index == |nodes|
    ensures AnswerRuns(nodes + [Node(Feedback(parent), size)], r)
  {
    hide Run, Suits;
    var node := Node(Feedback(parent), size);
    forall given: nat -> seq<real> | Suits(nodes + [node], given)
      ensures Denote(nodes + [node], given, r).data == given(r.index)
    {
      DenoteNew(nodes, node, given, r);
    }
  }

  // ----- gather

  ghost predicate GatherRuns(nodes: seq<Node>, r: PackedValue, v: PackedValue, mapping: Mapping) {
    r.value.shape == mapping.shape && forall given: nat -> seq<real> | Suits(nodes, given) ::
      Denote(nodes, given, r).data == GatherValue(Denote(nodes, given, v).data, mapping.entries)
  }

  lemma EmittedGather(nodes: seq<Node>, r: PackedValue, v: PackedValue, mapping: Mapping, size: nat)
    requires r.index == |nodes| && r.value.shape == mapping.shape && v.index < |nodes|
    ensures GatherRuns(nodes + [Node(Gather(v.index, mapping.entries), size)], r, v, mapping)
  {
    hide Run, Suits, GatherValue;
    var node := Node(Gather(v.index, mapping.entries), size);
    forall given: nat -> seq<real> | Suits(nodes + [node], given)
      ensures Denote(nodes + [node], given, r).data == GatherValue(Denote(nodes + [node], given, v).data, mapping.entries)
    {
      DenoteNew(nodes, node, given, r);
      DenoteKept(nodes, nodes + [node], given, v);
    }
  }

  /** Reading every position in order only reshapes. */
  lemma ReshapedRuns(nodes: seq<Node>, slots: nat, extended: bool, r: PackedValue, v: PackedValue, mapping: Mapping)
    requires Checked(nodes, slots, extended) && Shaped(nodes, v) && r.index == v.index && r.value.shape == mapping.shape
    requires |mapping.entries| == |v.value.data| && forall k :: 0 <= k < |mapping.entries| ==> mapping.entries[k] == k
    ensures GatherRuns(nodes, r, v, mapping)
  {
    hide Run, Suits, Checked;
    forall given: nat -> seq<real> | Suits(nodes, given)
      ensures Denote(nodes, given, r).data == GatherValue(Denote(nodes, given, v).data, mapping.entries)
    {
      DenoteValid(nodes, slots, extended, given, v);
    }
  }

  // ----- broadcast

  /** r is v stretched to a shape of the same rank. */
  ghost predicate StretchRuns(nodes: seq<Node>, r: PackedValue, v: PackedValue, to: Shape) {
    Stretches(v.value.shape, to) && r.value.shape == to && forall given: nat -> seq<real> | Suits(nodes, given) ::
      Denote(nodes, given, v).Valid() && Denote(nodes, given, r) == BroadcastTo(Denote(nodes, given, v), to)
  }

  lemma EmittedRepeat(nodes: seq<Node>, slots: nat, extended: bool, r: PackedValue, v: PackedValue, axis: nat, count: nat, size: nat)
    requires Checked(nodes, slots, extended) && Shaped(nodes, v) && axis < |v.value.shape| && v.value.shape[axis] == 1
    requires r.index == |nodes| && r.value.shape == v.value.shape[axis := count]
    ensures var shape := v.value.shape;
            var node := Node(Repeat(v.index, Size(shape[..axis]), Size(shape[axis + 1..]), count), size);
            StretchRuns(nodes + [node], r, v, shape[axis := count])
  {
    hide Run, Suits, Checked, RepeatValue, BroadcastTo, Size;
    var shape := v.value.shape;
    var to := shape[axis := count];
    var node := Node(Repeat(v.index, Size(shape[..axis]), Size(shape[axis + 1..]), count), size);
    forall given: nat -> seq<real> | Suits(nodes + [node], given)
      ensures Stretches(shape, to) && Denote(nodes + [node], given, v).Valid()
      ensures Denote(nodes + [node], given, r) == BroadcastTo(Denote(nodes + [node], given, v), to)
    {
      DenoteNew(nodes, node, given, r);
      DenoteKept(nodes, nodes + [node], given, v);
      DenoteValid(nodes, slots, extended, given, v);
      RepeatIsBroadcast(Denote(nodes, given, v), axis, count);
    }
  }

  /** Gathering from the source position of every entry is a broadcast. */
  lemma GatherStretches(nodes: seq<Node>, slots: nat, extended: bool, r: PackedValue, v: PackedValue, to: Shape, mapping: Mapping)
    requires Checked(nodes, slots, extended) && Shaped(nodes, v) && Stretches(v.value.shape, to) && mapping.shape == to
    requires |mapping.entries| == Size(to) && forall k :: 0 <= k < Size(to) ==> mapping.entries[k] == Source(v.value.shape, to, k)
    requires GatherRuns(nodes, r, v, mapping)
    ensures StretchRuns(nodes, r, v, to)
  {
    hide Run, Suits, Checked, Source, Size;
    forall given: nat -> seq<real> | Suits(nodes, given)
      ensures Denote(nodes, given, v).Valid() && Denote(nodes, given, r) == BroadcastTo(Denote(nodes, given, v), to)
    {
      DenoteValid(nodes, slots, extended, given, v);
      assert GatherValue(Denote(nodes, given, v).data, mapping.entries) == BroadcastTo(Denote(nodes, given, v), to).data;
    }
  }

  /** Every run is on its way from v, padded, to the shape. */
  ghost predicate ReachRuns(nodes: seq<Node>, current: PackedValue, v: PackedValue, shape: Shape, axis: nat) {
    |v.value.shape| <= |shape| && forall given: nat -> seq<real> | Suits(nodes, given) ::
      Denote(nodes, given, v).Valid() && Reaches(Padded(Denote(nodes, given, v), |shape|), Denote(nodes, given, current), shape, axis)
  }

  /** r is v padded with leading axes and stretched. */
  ghost predicate BroadcastRuns(nodes: seq<Node>, r: PackedValue, v: PackedValue, shape: Shape) {
    |v.value.shape| <= |shape| && Stretches(Pad(v.value.shape, |shape|), shape) && r.value.shape == shape
    && forall given: nat -> seq<real> | Suits(nodes, given) ::
         Denote(nodes, given, v).Valid() && Denote(nodes, given, r) == BroadcastTo(Padded(Denote(nodes, given, v), |shape|), shape)
  }

  lemma ReachStarts(nodes: seq<Node>, slots: nat, extended: bool, current: PackedValue, v: PackedValue, shape: Shape)
    requires Checked(nodes, slots, extended) && Shaped(nodes, v) && |v.value.shape| <= |shape|
    requires current.index == v.index && current.value.shape == Pad(v.value.shape, |shape|)
    ensures ReachRuns(nodes, current, v, shape, |shape|)
  {
    hide Run, Suits, Checked, BroadcastTo, Size;
    forall given: nat -> seq<real> | Suits(nodes, given)
      ensures Denote(nodes, given, v).Valid()
      ensures Reaches(Padded(Denote(nodes, given, v), |shape|), Denote(nodes, given, current), shape, |shape|)
    {
      DenoteValid(nodes, slots, extended, given, v);
      BroadcastSame(Padded(Denote(nodes, given, v), |shape|));
    }
  }

  lemma ReachSkips(nodes: seq<Node>, current: PackedValue, v: PackedValue, shape: Shape, axis: nat)
    requires axis < |shape| == |current.value.shape| && ReachRuns(nodes, current, v, shape, axis + 1)
    requires current.value.shape[axis] == shape[axis]
    ensures ReachRuns(nodes, current, v, shape, axis)
  {
    hide Run, Suits, Reaches;
    forall given: nat -> seq<real> | Suits(nodes, given)
      ensures Reaches(Padded(Denote(nodes, given, v), |shape|), Denote(nodes, given, current), shape, axis)
    {
      Skips(Padded(Denote(nodes, given, v), |shape|), Denote(nodes, given, current), shape, axis);
    }
  }

  lemma ReachAdvances(nodes: seq<Node>, longer: seq<Node>, current: PackedValue, next: PackedValue, v: PackedValue, shape: Shape, axis: nat)
    requires nodes <= longer && current.index < |nodes| && v.index < |nodes|
    requires axis < |shape| == |current.value.shape| && current.value.shape[axis] == 1 && ReachRuns(nodes, current, v, shape, axis + 1)
    requires StretchRuns(longer, next, current, current.value.shape[axis := shape[axis]])
    ensures ReachRuns(longer, next, v, shape, axis)
  {
    hide Run, Suits, Reaches, BroadcastTo;
    forall given: nat -> seq<real> | Suits(longer, given)
      ensures Denote(longer, given, v).Valid()
      ensures Reaches(Padded(Denote(longer, given, v), |shape|), Denote(longer, given, next), shape, axis)
    {
      DenoteKept(nodes, longer, given, v);
      DenoteKept(nodes, longer, given, current);
      Advances(Padded(Denote(nodes, given, v), |shape|), Denote(nodes, given, current), shape, axis);
    }
  }

  lemma ReachReindexed(nodes: seq<Node>, longer: seq<Node>, current: PackedValue, next: PackedValue, v: PackedValue, shape: Shape, axis: nat)
    requires nodes <= longer && current.index < |nodes| && v.index < |nodes| && axis <= |shape|
    requires ReachRuns(nodes, current, v, shape, axis) && StretchRuns(longer, next, current, shape)
    requires Stretches(Pad(v.value.shape, |shape|), shape)
    ensures BroadcastRuns(longer, next, v, shape)
  {
    hide Run, Suits, Reaches, BroadcastTo, Stretches;
    forall given: nat -> seq<real> | Suits(longer, given)
      ensures Denote(longer, given, v).Valid()
      ensures Denote(longer, given, next) == BroadcastTo(Padded(Denote(longer, given, v), |shape|), shape)
    {
      DenoteKept(nodes, longer, given, v);
      DenoteKept(nodes, longer, given, current);
      Reindexed(Padded(Denote(nodes, given, v), |shape|), Denote(nodes, given, current), shape, axis);
    }
  }

  lemma ReachEnds(nodes: seq<Node>, current: PackedValue, v: PackedValue, shape: Shape)
    requires ReachRuns(nodes, current, v, shape, 0) && Stretches(Pad(v.value.shape, |shape|), shape) && current.value.shape == shape
    ensures BroadcastRuns(nodes, current, v, shape)
  {
    hide Run, Suits, Reaches, BroadcastTo;
    forall given: nat -> seq<real> | Suits(nodes, given)
      ensures Denote(nodes, given, current) == BroadcastTo(Padded(Denote(nodes, given, v), |shape|), shape)
    {
      ReachesEnd(Padded(Denote(nodes, given, v), |shape|), Denote(nodes, given, current), shape);
    }
  }

  /** A value that has the shape already. */
  lemma SameBroadcasts(nodes: seq<Node>, slots: nat, extended: bool, v: PackedValue)
    requires Checked(nodes, slots, extended) && Shaped(nodes, v)
    ensures BroadcastRuns(nodes, v, v, v.value.shape)
  {
    hide Run, Suits, Checked, BroadcastTo, Size;
    var shape := v.value.shape;
    assert Pad(shape, |shape|) == shape;
    forall given: nat -> seq<real> | Suits(nodes, given)
      ensures Denote(nodes, given, v).Valid()
      ensures Stretches(shape, shape) && Denote(nodes, given, v) == BroadcastTo(Padded(Denote(nodes, given, v), |shape|), shape)
    {
      DenoteValid(nodes, slots, extended, given, v);
      BroadcastSame(Denote(nodes, given, v));
    }
  }

  // ----- sums and products

  /** r is numpy's sum or product of x and y. */
  ghost predicate CombineRuns(nodes: seq<Node>, r: PackedValue, add: bool, x: PackedValue, y: PackedValue) {
    Some(r.value.shape) == BroadcastShapes(x.value.shape, y.value.shape) && forall given: nat -> seq<real> | Suits(nodes, given) ::
      && Denote(nodes, given, x).Valid() && Denote(nodes, given, y).Valid()
      && IsCombination(Denote(nodes, given, r), add, Denote(nodes, given, x), Denote(nodes, given, y))
  }

  /** The same for operands of one shape. */
  ghost predicate PairRuns(nodes: seq<Node>, r: PackedValue, add: bool, x: PackedValue, y: PackedValue) {
    x.value.shape == y.value.shape == r.value.shape && forall given: nat -> seq<real> | Suits(nodes, given) ::
      && Denote(nodes, given, x).Valid() && Denote(nodes, given, y).Valid()
      && Denote(nodes, given, r) == Combined(add, Denote(nodes, given, x), Denote(nodes, given, y))
  }

  lemma EmittedPair(nodes: seq<Node>, slots: nat, extended: bool, r: PackedValue, add: bool, x: PackedValue, y: PackedValue, size: nat)
    requires Checked(nodes, slots, extended) && Shaped(nodes, x) && Shaped(nodes, y) && x.value.shape == y.value.shape == r.value.shape
    requires r.index == |nodes|
    ensures PairRuns(nodes + [Node(if add then Add(x.index, y.index) else Mul(x.index, y.index), size)], r, add, x, y)
  {
    hide Run, Suits, Checked, Pointwise, Size;
    var node := Node(if add then Add(x.index, y.index) else Mul(x.index, y.index), size);
    forall given: nat -> seq<real> | Suits(nodes + [node], given)
      ensures Denote(nodes + [node], given, x).Valid() && Denote(nodes + [node], given, y).Valid()
      ensures Denote(nodes + [node], given, r) == Combined(add, Denote(nodes + [node], given, x), Denote(nodes + [node], given, y))
    {
      DenoteNew(nodes, node, given, r);
      DenoteKept(nodes, nodes + [node], given, x);
      DenoteKept(nodes, nodes + [node], given, y);
      DenoteValid(nodes, slots, extended, given, x);
      DenoteValid(nodes, slots, extended, given, y);
    }
  }

  /** Two broadcasts and one node. */
  lemma CombinesRun(first: seq<Node>, second: seq<Node>, last: seq<Node>, r: PackedValue, add: bool, left: PackedValue, right: PackedValue,
                    x: PackedValue, y: PackedValue, shape: Shape)
    requires first <= second <= last && left.index < |first| && right.index < |second| && x.index < |first| && y.index < |second|
    requires BroadcastShapes(left.value.shape, right.value.shape) == Some(shape)
    requires BroadcastRuns(first, x, left, shape) && BroadcastRuns(second, y, right, shape) && PairRuns(last, r, add, x, y)
    ensures CombineRuns(last, r, add, left, right)
  {
    hide Run, Suits, BroadcastTo, Padded, BroadcastShapes, Stretches, Pointwise;
    forall given: nat -> seq<real> | Suits(last, given)
      ensures Denote(last, given, left).Valid() && Denote(last, given, right).Valid()
      ensures IsCombination(Denote(last, given, r), add, Denote(last, given, left), Denote(last, given, right))
    {
      DenoteKept(first, last, given, left);
      DenoteKept(first, last, given, x);
      DenoteKept(second, last, given, right);
      DenoteKept(second, last, given, y);
    }
  }

  /** r is numpy's sum or product of x and a public tensor. */
  ghost predicate PlainRuns(nodes: seq<Node>, r: PackedValue, add: bool, x: PackedValue, t: Tensor) {
    t.Valid() && Some(r.value.shape) == BroadcastShapes(x.value.shape, t.shape) && forall given: nat -> seq<real> | Suits(nodes, given) ::
      Denote(nodes, given, x).Valid() && IsCombination(Denote(nodes, given, r), add, Denote(nodes, given, x), t)
  }

  lemma PlainsRun(first: seq<Node>, r: PackedValue, add: bool, left: PackedValue, x: PackedValue, t: Tensor, shape: Shape, size: nat)
    requires left.index < |first| && x.index < |first| && r.index == |first| && r.value.shape == shape && t.Valid()
    requires BroadcastShapes(left.value.shape, t.shape) == Some(shape) && BroadcastRuns(first, x, left, shape)
    ensures var constants := BroadcastTo(Padded(t, |shape|), shape).data;
            PlainRuns(first + [Node(if add then AddPlain(x.index, constants) else MulPlain(x.index, constants), size)], r, add, left, t)
  {
    hide Run, Suits, BroadcastTo, Padded, BroadcastShapes, Stretches, Pointwise;
    var constants := BroadcastTo(Padded(t, |shape|), shape).data;
    var node := Node(if add then AddPlain(x.index, constants) else MulPlain(x.index, constants), size);
    var last := first + [node];
    forall given: nat -> seq<real> | Suits(last, given)
      ensures Denote(last, given, left).Valid() && IsCombination(Denote(last, given, r), add, Denote(last, given, left), t)
    {
      DenoteNew(first, node, given, r);
      DenoteKept(first, last, given, left);
      DenoteKept(first, last, given, x);
    }
  }

  // ----- sums over the last axis

  ghost predicate RowSumRuns(nodes: seq<Node>, r: PackedValue, x: PackedValue) {
    |x.value.shape| > 0 && r.value.shape == LastAxis(x.value.shape, 1) && forall given: nat -> seq<real> | Suits(nodes, given) ::
      IsRowSum(Denote(nodes, given, r), Denote(nodes, given, x))
  }

  lemma EmittedSum(nodes: seq<Node>, r: PackedValue, x: PackedValue, size: nat)
    requires |x.value.shape| > 0 && x.index < |nodes| && r.index == |nodes| && r.value.shape == LastAxis(x.value.shape, 1)
    ensures RowSumRuns(nodes + [Node(SumGroups(x.index, x.value.shape[|x.value.shape| - 1]), size)], r, x)
  {
    hide Run, Suits, SumValue;
    var node := Node(SumGroups(x.index, x.value.shape[|x.value.shape| - 1]), size);
    forall given: nat -> seq<real> | Suits(nodes + [node], given)
      ensures IsRowSum(Denote(nodes + [node], given, r), Denote(nodes + [node], given, x))
    {
      DenoteNew(nodes, node, given, r);
      DenoteKept(nodes, nodes + [node], given, x);
    }
  }

  /** spread is x with its rows padded with zeros. */
  ghost predicate PadRuns(nodes: seq<Node>, spread: PackedValue, x: PackedValue, rows: nat, width: nat, padded: nat) {
    forall given: nat -> seq<real> | Suits(nodes, given) ::
      && |Denote(nodes, given, x).data| == Area(rows, width)
      && Denote(nodes, given, spread).data == PaddedRows(Denote(nodes, given, x).data, rows, width, padded)
  }

  lemma EmittedPad(nodes: seq<Node>, slots: nat, extended: bool, spread: PackedValue, x: PackedValue, rows: nat, width: nat, padded: nat)
    requires Checked(nodes, slots, extended) && Shaped(nodes, x) && |x.value.data| == Area(rows, width) && 0 < width <= padded
    requires spread.index == |nodes|
    ensures PadRuns(nodes + [Node(Scatter(x.index, RowTargets(rows, width, padded)), Area(rows, padded))], spread, x, rows, width, padded)
  {
    hide Run, Suits, Checked, ScatterValue, PaddedRows, RowTargets, Area, Size;
    var node := Node(Scatter(x.index, RowTargets(rows, width, padded)), Area(rows, padded));
    forall given: nat -> seq<real> | Suits(nodes + [node], given)
      ensures |Denote(nodes + [node], given, x).data| == Area(rows, width)
      ensures Denote(nodes + [node], given, spread).data == PaddedRows(Denote(nodes + [node], given, x).data, rows, width, padded)
    {
      DenoteNew(nodes, node, given, spread);
      DenoteKept(nodes, nodes + [node], given, x);
      DenoteValid(nodes, slots, extended, given, x);
      PadRows(Denote(nodes, given, x).data, rows, width, padded);
    }
  }

  lemma PaddedSums(first: seq<Node>, last: seq<Node>, r: PackedValue, x: PackedValue, spread: PackedValue, rows: nat, width: nat, padded: nat)
    requires first <= last && x.index < |first| && spread.index < |first| && |x.value.shape| > 0 && 0 < width <= padded
    requires width == x.value.shape[|x.value.shape| - 1] && spread.value.shape == LastAxis(x.value.shape, padded)
    requires PadRuns(first, spread, x, rows, width, padded) && RowSumRuns(last, r, spread)
    ensures RowSumRuns(last, r, x)
  {
    hide Run, Suits, PaddedRows, SumValue, Area;
    forall given: nat -> seq<real> | Suits(last, given)
      ensures IsRowSum(Denote(last, given, r), Denote(last, given, x))
    {
      DenoteKept(first, last, given, x);
      DenoteKept(first, last, given, spread);
      SumOfPadded(Denote(first, given, x).data, rows, width, padded);
    }
  }

  // ----- a single row

  ghost predicate RowRuns(nodes: seq<Node>, r: PackedValue, x: PackedValue, weights: seq<real>, rows: nat) {
    |x.value.shape| > 0 && r.value.shape == LastAxis(x.value.shape, rows) && forall given: nat -> seq<real> | Suits(nodes, given) ::
      Denote(nodes, given, r).data == LinearValue(Denote(nodes, given, x).data, weights, rows)
  }

  lemma EmittedLinear(nodes: seq<Node>, r: PackedValue, x: PackedValue, operation: Operation, weights: seq<real>, rows: nat)
    requires |x.value.shape| > 0 && x.index < |nodes| && r.index == |nodes| && r.value.shape == LastAxis(x.value.shape, rows)
    requires operation == Linear(x.index, weights)
             || (operation.LinearRef? && operation.parent == x.index && WeightsOf(nodes, operation.owner) == weights)
    ensures RowRuns(nodes + [Node(operation, rows)], r, x, weights, rows)
  {
    hide Run, Suits, LinearValue, WeightsOf;
    var node := Node(operation, rows);
    forall given: nat -> seq<real> | Suits(nodes + [node], given)
      ensures Denote(nodes + [node], given, r).data == LinearValue(Denote(nodes + [node], given, x).data, weights, rows)
    {
      DenoteNew(nodes, node, given, r);
      DenoteKept(nodes, nodes + [node], given, x);
    }
  }

  // ----- concatenation

  /** What the parts denote. */
  function Denotes(nodes: seq<Node>, given: nat -> seq<real>, parts: seq<PackedValue>): (ts: seq<Tensor>)
    ensures |ts| == |parts|
  {
    seq(|parts|, k requires 0 <= k < |parts| => Denote(nodes, given, parts[k]))
  }

  ghost predicate AllShaped(nodes: seq<Node>, parts: seq<PackedValue>) {
    forall k :: 0 <= k < |parts| ==> Shaped(nodes, parts[k])
  }

  ghost predicate JoinRuns(nodes: seq<Node>, r: PackedValue, parts: seq<PackedValue>, axis: nat) {
    forall given: nat -> seq<real> | Suits(nodes, given) ::
      IsConcatenation(Denote(nodes, given, r), Denotes(nodes, given, parts), axis)
  }

  /** The first k parts are in place. */
  ghost predicate JoinedRuns(nodes: seq<Node>, r: PackedValue, parts: seq<PackedValue>, k: nat, axis: nat, shape: Shape)
    requires k <= |parts|
  {
    forall given: nat -> seq<real> | Suits(nodes, given) ::
      JoinedSoFar(Denote(nodes, given, r), Denotes(nodes, given, parts)[..k], axis, shape)
  }

  /** r is one part at its place in the whole. */
  ghost predicate PartRuns(nodes: seq<Node>, r: PackedValue, part: PackedValue, shape: Shape, axis: nat, start: nat) {
    r.value.shape == shape && forall given: nat -> seq<real> | Suits(nodes, given) ::
      OnePlace(Denote(nodes, given, r), Denote(nodes, given, part), shape, axis, start)
  }

  ghost predicate OnePlace(r: Tensor, t: Tensor, shape: Shape, axis: nat, start: nat) {
    r.Valid() && r.shape == shape && t.Valid() && axis < |shape|
    && forall p :: 0 <= p < Size(shape) ==> r.data[p] == OnePart(t, axis, start, Unflatten(shape, p))
  }

  lemma EmittedPart(nodes: seq<Node>, slots: nat, extended: bool, r: PackedValue, part: PackedValue, shape: Shape, axis: nat, start: nat)
    requires Checked(nodes, slots, extended) && Shaped(nodes, part) && PartOf(part.value.shape, shape, axis, start)
    requires r.index == |nodes| && r.value.shape == shape
    ensures PartRuns(nodes + [Node(Scatter(part.index, PartTargets(part.value.shape, shape, axis, start)), Size(shape))], r, part, shape, axis, start)
  {
    hide Run, Suits, Checked, ScatterValue, PartTargets, OnePart, Unflatten, Size;
    var node := Node(Scatter(part.index, PartTargets(part.value.shape, shape, axis, start)), Size(shape));
    forall given: nat -> seq<real> | Suits(nodes + [node], given)
      ensures OnePlace(Denote(nodes + [node], given, r), Denote(nodes + [node], given, part), shape, axis, start)
    {
      DenoteNew(nodes, node, given, r);
      DenoteKept(nodes, nodes + [node], given, part);
      DenoteValid(nodes, slots, extended, given, part);
      PartScatters(Denote(nodes, given, part), shape, axis, start);
    }
  }

  lemma DenotesKept(nodes: seq<Node>, longer: seq<Node>, given: nat -> seq<real>, parts: seq<PackedValue>)
    requires nodes <= longer && Suits(longer, given) && AllShaped(nodes, parts)
    ensures Suits(nodes, given) && Denotes(longer, given, parts) == Denotes(nodes, given, parts)
  {
    hide Run, Suits, Denote;
    RunPrefix(nodes, longer, given);
    forall k | 0 <= k < |parts|
      ensures Denote(longer, given, parts[k]) == Denote(nodes, given, parts[k])
    {
      DenoteKept(nodes, longer, given, parts[k]);
    }
  }

  /** Other data of the same shapes are as joinable, and start at the same places. */
  lemma JoinableRuns(nodes: seq<Node>, slots: nat, extended: bool, given: nat -> seq<real>, parts: seq<PackedValue>, axis: nat)
    requires Checked(nodes, slots, extended) && Suits(nodes, given) && AllShaped(nodes, parts) && Joinable(Tensors(parts), axis)
    ensures Joinable(Denotes(nodes, given, parts), axis)
    ensures JoinedShape(Denotes(nodes, given, parts), axis) == JoinedShape(Tensors(parts), axis)
    ensures forall k :: 0 <= k <= |parts| ==>
              && AxisBelow(Tensors(parts)[..k], axis) && AxisBelow(Denotes(nodes, given, parts)[..k], axis)
              && Start(Denotes(nodes, given, parts)[..k], axis) == Start(Tensors(parts)[..k], axis)
  {
    hide Run, Suits, Checked, Size, Start;
    var ts, us := Tensors(parts), Denotes(nodes, given, parts);
    forall k | 0 <= k < |parts|
      ensures us[k].Valid() && us[k].shape == ts[k].shape
    {
      DenoteValid(nodes, slots, extended, given, parts[k]);
    }
    Ranks(ts, axis);
    forall k | 0 <= k <= |parts|
      ensures AxisBelow(ts[..k], axis) && AxisBelow(us[..k], axis) && Start(us[..k], axis) == Start(ts[..k], axis)
    {
      SameStart(ts[..k], us[..k], axis);
    }
    assert ts[..|parts|] == ts && us[..|parts|] == us;
  }

  predicate AxisBelow(ts: seq<Tensor>, axis: nat) {
    forall k :: 0 <= k < |ts| ==> axis < |ts[k].shape|
  }

  lemma AxesBelow(ts: seq<Tensor>, axis: nat, k: nat)
    requires Joinable(ts, axis) && k <= |ts|
    ensures AxisBelow(ts[..k], axis)
  {
    hide Start;
    Ranks(ts, axis);
  }

  lemma {:induction false} SameStart(ts: seq<Tensor>, us: seq<Tensor>, axis: nat)
    requires |ts| == |us| && AxisBelow(ts, axis) && forall k :: 0 <= k < |ts| ==> us[k].shape == ts[k].shape
    ensures AxisBelow(us, axis) && Start(us, axis) == Start(ts, axis)
    decreases |ts|
  {
    if |ts| > 0 {
      SameStart(ts[..|ts| - 1], us[..|ts| - 1], axis);
    }
  }

  lemma FirstJoined(nodes: seq<Node>, slots: nat, extended: bool, piece: PackedValue, parts: seq<PackedValue>, axis: nat, shape: Shape)
    requires Checked(nodes, slots, extended) && AllShaped(nodes, parts) && Joinable(Tensors(parts), axis)
    requires |parts| >= 1 && shape == JoinedShape(Tensors(parts), axis) && PartRuns(nodes, piece, parts[0], shape, axis, 0)
    ensures JoinedRuns(nodes, piece, parts, 1, axis, shape)
  {
    hide Run, Suits, Checked, Size, Start, Joinable, OnePart, Unflatten, JoinedSoFar, Denote;
    Ranks(Tensors(parts), axis);
    forall given: nat -> seq<real> | Suits(nodes, given)
      ensures JoinedSoFar(Denote(nodes, given, piece), Denotes(nodes, given, parts)[..1], axis, shape)
    {
      var ts := Denotes(nodes, given, parts);
      JoinableRuns(nodes, slots, extended, given, parts, axis);
      Ranks(ts, axis);
      assert OnePlace(Denote(nodes, given, piece), ts[0], shape, axis, 0);
      FirstPart(ts, axis, shape, Denote(nodes, given, piece));
    }
  }

  lemma NextJoined(first: seq<Node>, second: seq<Node>, last: seq<Node>, slots: nat, extended: bool, r: PackedValue, piece: PackedValue,
                   sum: PackedValue, parts: seq<PackedValue>, k: nat, axis: nat, shape: Shape)
    requires first <= second <= last && Checked(last, slots, extended) && AllShaped(first, parts) && AllShaped(last, parts)
    requires Joinable(Tensors(parts), axis) && shape == JoinedShape(Tensors(parts), axis) && 0 < k < |parts|
    requires r.index < |first| && piece.index < |second| && AxisBelow(Tensors(parts)[..k], axis)
    requires JoinedRuns(first, r, parts, k, axis, shape)
    requires PartRuns(second, piece, parts[k], shape, axis, Start(Tensors(parts)[..k], axis)) && CombineRuns(last, sum, true, r, piece)
    ensures JoinedRuns(last, sum, parts, k + 1, axis, shape)
  {
    hide Run, Suits, Checked, Size, Start, Joinable, OnePart, Unflatten, JoinedSoFar, Denote, IsCombination;
    Ranks(Tensors(parts), axis);
    forall given: nat -> seq<real> | Suits(last, given)
      ensures JoinedSoFar(Denote(last, given, sum), Denotes(last, given, parts)[..k + 1], axis, shape)
    {
      var ts := Denotes(last, given, parts);
      JoinableRuns(last, slots, extended, given, parts, axis);
      Ranks(ts, axis);
      DenotesKept(first, last, given, parts);
      DenoteKept(first, last, given, r);
      DenoteKept(second, last, given, piece);
      DenoteKept(second, last, given, parts[k]);
      assert OnePlace(Denote(last, given, piece), ts[k], shape, axis, Start(ts[..k], axis));
      NextPart(ts, axis, shape, k, Denote(last, given, r), Denote(last, given, piece), Denote(last, given, sum));
    }
  }

  lemma AllJoined(nodes: seq<Node>, slots: nat, extended: bool, r: PackedValue, parts: seq<PackedValue>, axis: nat, shape: Shape)
    requires Checked(nodes, slots, extended) && AllShaped(nodes, parts) && Joinable(Tensors(parts), axis)
    requires shape == JoinedShape(Tensors(parts), axis) && JoinedRuns(nodes, r, parts, |parts|, axis, shape)
    ensures JoinRuns(nodes, r, parts, axis)
  {
    hide Run, Suits, Checked, Size, Start, Joinable, JoinedSoFar, IsConcatenation, Denote;
    forall given: nat -> seq<real> | Suits(nodes, given)
      ensures IsConcatenation(Denote(nodes, given, r), Denotes(nodes, given, parts), axis)
    {
      var ts := Denotes(nodes, given, parts);
      JoinableRuns(nodes, slots, extended, given, parts, axis);
      assert ts[..|parts|] == ts;
      JoinedAll(Denote(nodes, given, r), ts, axis, shape);
    }
  }
}
