/**
 * The packed program language: what every node computes, and the structural checks of
 * native/fideslib_stage0/include/packed_program.hpp on it.
 */
module PackedNodes {
  import opened Chebyshev
  import opened Sums
  import opened SlotVectors
  import opened TensorIndex

  /** Operands are indices of earlier nodes. */
  datatype Operation =
    | Input(constants: seq<real>)
    | Public(constants: seq<real>)
    | Feedback(parent: nat)
    | Add(left: nat, right: nat)
    | Mul(left: nat, right: nat)
    | AddPlain(parent: nat, constants: seq<real>)
    | MulPlain(parent: nat, constants: seq<real>)
    | Linear(parent: nat, weights: seq<real>)
    | LinearRef(parent: nat, owner: nat)
    | Gather(parent: nat, indices: seq<int>)
    | Scatter(parent: nat, indices: seq<int>)
    | Repeat(parent: nat, outer: nat, inner: nat, count: nat)
    | SumGroups(parent: nat, width: nat)
    | Cheb(parent: nat, lo: real, hi: real, coefficients: seq<real>)

  datatype Node = Node(operation: Operation, size: nat)

  // ----- meaning

  function Read(x: seq<real>, i: int): real {
    if 0 <= i < |x| then x[i] else 0.0
  }

  function ValueOf(values: seq<seq<real>>, i: nat): seq<real> {
    if i < |values| then values[i] else []
  }

  function Pointwise(add: bool, x: seq<real>, y: seq<real>): seq<real> {
    seq(|x|, k requires 0 <= k < |x| => if add then x[k] + Read(y, k) else x[k] * Read(y, k))
  }

  function GatherValue(x: seq<real>, indices: seq<int>): seq<real> {
    seq(|indices|, k requires 0 <= k < |indices| => Read(x, indices[k]))
  }

  function PositionIn(indices: seq<int>, p: int): (k: nat)
    requires p in indices
    ensures k < |indices| && indices[k] == p
  {
    if indices[0] == p then 0 else 1 + PositionIn(indices[1..], p)
  }

  function ScatterAt(x: seq<real>, indices: seq<int>, p: int): real {
    if p in indices then Read(x, PositionIn(indices, p)) else 0.0
  }

  function ScatterValue(x: seq<real>, indices: seq<int>, size: nat): (r: seq<real>)
    ensures |r| == size
  {
    seq(size, p requires 0 <= p < size => ScatterAt(x, indices, p))
  }

  /** Every block of `inner` values `count` times in a row. */
  function RepeatValue(x: seq<real>, outer: nat, inner: nat, count: nat): seq<real> {
    var n := Area(Area(outer, count), inner);
    seq(n, k requires 0 <= k < n => Read(x, Place(Quotient(k, Area(count, inner)), inner, Remainder(k, inner))))
  }

  function Row(x: seq<real>, start: nat): nat -> real {
    (j: nat) => Read(x, start + j)
  }

  function SumValue(x: seq<real>, width: nat): seq<real> {
    seq(Quotient(|x|, width), k requires 0 <= k < Quotient(|x|, width) => Sum(width, Row(x, Place(k, width, 0))))
  }

  function RowTerms(weights: seq<real>, row: nat, x: seq<real>): nat -> real {
    (j: nat) => Read(weights, Place(row, |x|, j)) * Read(x, j)
  }

  function LinearValue(x: seq<real>, weights: seq<real>, size: nat): (r: seq<real>)
    ensures |r| == size
  {
    seq(size, o requires 0 <= o < size => Sum(|x|, RowTerms(weights, o, x)))
  }

  /** The series on [lo, hi]; the reader refuses an empty interval. */
  function ChebValue(x: seq<real>, lo: real, hi: real, c: seq<real>): seq<real> {
    seq(|x|, k requires 0 <= k < |x| => if lo < hi then Series(c, (2.0 * x[k] - lo - hi) / (hi - lo)) else 0.0)
  }

  function WeightsOf(nodes: seq<Node>, owner: nat): seq<real> {
    if owner < |nodes| && nodes[owner].operation.Linear? then nodes[owner].operation.weights else []
  }

  /** What a node computes from earlier values; `client` is what the client sends back for a feedback node. */
  function Apply(nodes: seq<Node>, node: Node, values: seq<seq<real>>, client: seq<real>): seq<real> {
    match node.operation
    case Input(constants) => constants
    case Public(constants) => constants
    case Feedback(_) => client
    case Add(a, b) => Pointwise(true, ValueOf(values, a), ValueOf(values, b))
    case Mul(a, b) => Pointwise(false, ValueOf(values, a), ValueOf(values, b))
    case AddPlain(a, constants) => Pointwise(true, ValueOf(values, a), constants)
    case MulPlain(a, constants) => Pointwise(false, ValueOf(values, a), constants)
    case Linear(a, weights) => LinearValue(ValueOf(values, a), weights, node.size)
    case LinearRef(a, owner) => LinearValue(ValueOf(values, a), WeightsOf(nodes, owner), node.size)
    case Gather(a, indices) => GatherValue(ValueOf(values, a), indices)
    case Scatter(a, indices) => ScatterValue(ValueOf(values, a), indices, node.size)
    case Repeat(a, outer, inner, count) => RepeatValue(ValueOf(values, a), outer, inner, count)
    case SumGroups(a, width) => SumValue(ValueOf(values, a), width)
    case Cheb(a, lo, hi, c) => ChebValue(ValueOf(values, a), lo, hi, c)
  }

  /** Runs a node list from the front. */
  function Interpret(nodes: seq<Node>, client: nat -> seq<real>): (values: seq<seq<real>>)
    ensures |values| == |nodes|
  {
    if |nodes| == 0 then [] else
      var n := |nodes| - 1;
      var before := Interpret(nodes[..n], client);
      before + [Apply(nodes[..n], nodes[n], before, client(n))]
  }

  /** The recorded value of node i is what it computes from the recorded values before it. */
  ghost predicate Computes(nodes: seq<Node>, values: seq<seq<real>>, i: nat)
    requires i < |nodes| == |values|
  {
    nodes[i].operation.Feedback? || values[i] == Apply(nodes[..i], nodes[i], values[..i], [])
  }

  /** Interpreting the node list reproduces every recorded value, given the recorded client answers. */
  lemma {:induction false} Reproduced(nodes: seq<Node>, values: seq<seq<real>>, client: nat -> seq<real>)
    requires |nodes| == |values| && forall i :: 0 <= i < |nodes| ==> Computes(nodes, values, i)
    requires forall i: nat :: i < |nodes| && nodes[i].operation.Feedback? ==> client(i) == values[i]
    ensures Interpret(nodes, client) == values
    decreases |nodes|
  {
    if |nodes| > 0 {
      var n := |nodes| - 1;
      forall i | 0 <= i < n
        ensures Computes(nodes[..n], values[..n], i)
      {
        assert Computes(nodes, values, i);
        assert nodes[..n][..i] == nodes[..i] && values[..n][..i] == values[..i];
      }
      Reproduced(nodes[..n], values[..n], client);
      assert Computes(nodes, values, n);
      ClientOnlyForFeedback(nodes[..n], nodes[n], values[..n], client(n));
      assert values == values[..n] + [values[n]];
    }
  }

  lemma ClientOnlyForFeedback(nodes: seq<Node>, node: Node, values: seq<seq<real>>, client: seq<real>)
    ensures !node.operation.Feedback? ==> Apply(nodes, node, values, client) == Apply(nodes, node, values, [])
  {
  }

  // ----- the reader's checks

  predicate InRange(indices: seq<int>, limit: nat) {
    forall k :: 0 <= k < |indices| ==> 0 <= indices[k] < limit
  }

  predicate Distinct(indices: seq<int>) {
    forall j, k :: 0 <= j < k < |indices| ==> indices[j] != indices[k]
  }

  function SizeOf(nodes: seq<Node>, i: nat): nat {
    if i < |nodes| then nodes[i].size else 0
  }

  predicate Operands(nodes: seq<Node>, operation: Operation) {
    match operation
    case Input(_) => true
    case Public(_) => true
    case Add(a, b) => a < |nodes| && b < |nodes|
    case Mul(a, b) => a < |nodes| && b < |nodes|
    case _ => operation.parent < |nodes|
  }

  /** The checks of the native reader on node number |nodes|. */
  predicate Readable(nodes: seq<Node>, node: Node, slots: nat, extended: bool) {
    && 1 <= node.size <= slots && Operands(nodes, node.operation)
    && match node.operation
       case Input(constants) => |constants| == node.size
       case Public(constants) => |constants| == node.size
       case Feedback(a) => extended && SizeOf(nodes, a) == node.size
       case Add(a, b) => SizeOf(nodes, a) == node.size && SizeOf(nodes, b) == node.size
       case Mul(a, b) => SizeOf(nodes, a) == node.size && SizeOf(nodes, b) == node.size
       case AddPlain(a, constants) => |constants| == node.size && SizeOf(nodes, a) == node.size
       case MulPlain(a, constants) => |constants| == node.size && SizeOf(nodes, a) == node.size
       case Linear(a, weights) => |weights| == Area(node.size, SizeOf(nodes, a))
       case LinearRef(a, owner) =>
         && extended && owner < |nodes| && nodes[owner].operation.Linear? && nodes[owner].size == node.size
         && |WeightsOf(nodes, owner)| == Area(node.size, SizeOf(nodes, a))
       case Gather(a, indices) => |indices| == node.size && InRange(indices, SizeOf(nodes, a))
       case Scatter(a, indices) => |indices| == SizeOf(nodes, a) && InRange(indices, node.size) && Distinct(indices)
       case Repeat(a, outer, inner, count) =>
         && 1 <= outer <= slots && 1 <= inner <= slots && 1 <= count <= slots && (extended || IsPowerOfTwo(count))
         && Area(outer, inner) == SizeOf(nodes, a) && Area(SizeOf(nodes, a), count) == node.size
       case SumGroups(a, width) =>
         1 <= width <= slots && IsPowerOfTwo(width) && Area(node.size, width) == SizeOf(nodes, a)
       case Cheb(a, lo, hi, c) => 4 <= |c| + 2 <= 1027 && lo < hi && SizeOf(nodes, a) == node.size
  }

  // ----- facts about single operations

  lemma {:induction false} PositionUnique(indices: seq<int>, k: nat)
    requires Distinct(indices) && k < |indices|
    ensures indices[k] in indices && PositionIn(indices, indices[k]) == k
    decreases |indices|
  {
    if k > 0 {
      PositionUnique(indices[1..], k - 1);
      assert indices[1..][k - 1] == indices[k];
    }
  }

  lemma ScatterHits(x: seq<real>, indices: seq<int>, k: nat)
    requires Distinct(indices) && k < |indices| == |x|
    ensures ScatterAt(x, indices, indices[k]) == x[k]
  {
    PositionUnique(indices, k);
  }

  /** Repeating one axis is numpy broadcasting along it. */
  lemma RepeatIsBroadcast(t: Tensor, axis: nat, count: nat)
    requires t.Valid() && axis < |t.shape| && t.shape[axis] == 1
    ensures Stretches(t.shape, t.shape[axis := count])
    ensures RepeatValue(t.data, Size(t.shape[..axis]), Size(t.shape[axis + 1..]), count) == BroadcastTo(t, t.shape[axis := count]).data
  {
    hide Place, Area, Size, Source, Quotient, Remainder;
    var outer, inner, to := Size(t.shape[..axis]), Size(t.shape[axis + 1..]), t.shape[axis := count];
    RepeatSize(t.shape, axis, count);
    forall k: nat | k < Size(to)
      ensures RepeatValue(t.data, outer, inner, count)[k] == BroadcastTo(t, to).data[k]
    {
      StretchAxis(t.shape, axis, count, k);
    }
  }

  lemma RepeatSize(from: Shape, axis: nat, count: nat)
    requires axis < |from| && from[axis] == 1
    ensures Size(from[axis := count]) == Area(Area(Size(from[..axis]), count), Size(from[axis + 1..]))
    ensures Size(from) == Area(Size(from[..axis]), Size(from[axis + 1..]))
  {
    hide Place, Area, Size;
    var to := from[axis := count];
    OffsetSplit(to, to, axis);
    OffsetSplit(from, from, axis);
    PlaceOne(Size(from[..axis]), 0);
    assert to[..axis] == from[..axis] && to[axis + 1..] == from[axis + 1..];
  }
}
