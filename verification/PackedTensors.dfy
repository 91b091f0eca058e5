/** Shapes, broadcasting, padded sums and concatenation of row-major tensors, as src/fhemamba/packed_program.py uses them. */
module PackedTensors {
  import opened Wrappers
  import opened Sums
  import opened SlotVectors
  import opened TensorIndex
  import opened PackedNodes

  /** A recorded value and the node that computes it. */
  datatype PackedValue = PackedValue(index: nat, value: Tensor)

  /** An integer tensor of source positions. */
  datatype Mapping = Mapping(shape: Shape, entries: seq<int>)
  {
    predicate Valid() {
      |entries| == Size(shape)
    }
  }

  function Magnitude(x: real): real {
    if x < 0.0 then -x else x
  }

  predicate Within(data: seq<real>, bound: real) {
    forall k :: 0 <= k < |data| ==> Magnitude(data[k]) <= bound
  }

  // ----- shapes

  function Ones(n: nat): Shape {
    seq(n, i => 1)
  }

  /** Leading axes of length 1 up to a rank. */
  function Pad(shape: Shape, rank: nat): Shape
    requires |shape| <= rank
  {
    Ones(rank - |shape|) + shape
  }

  lemma SizeLast(shape: Shape)
    requires |shape| > 0
    ensures Size(shape) == Area(Size(shape[..|shape| - 1]), shape[|shape| - 1])
  {
  }

  lemma {:induction false} PadSize(shape: Shape, ones: nat)
    ensures Size(Ones(ones) + shape) == Size(shape)
    decreases |shape|, ones
  {
    hide Area, Size;
    var padded := Ones(ones) + shape;
    var n := |padded| - 1;
    if |shape| > 0 {
      assert padded[..n] == Ones(ones) + shape[..|shape| - 1];
      PadSize(shape[..|shape| - 1], ones);
      SizeLast(padded);
      SizeLast(shape);
    } else if ones > 0 {
      assert padded[..n] == Ones(ones - 1) + shape;
      PadSize(shape, ones - 1);
      PlaceOne(Size(shape), 0);
      SizeLast(padded);
    } else {
      assert padded == shape;
    }
  }

  function Padded(t: Tensor, rank: nat): (r: Tensor)
    requires t.Valid() && |t.shape| <= rank
    ensures r.Valid() && r.shape == Pad(t.shape, rank)
  {
    PadSize(t.shape, rank - |t.shape|);
    Tensor(Pad(t.shape, rank), t.data)
  }

  function MaxRank(a: Shape, b: Shape): nat {
    if |a| < |b| then |b| else |a|
  }

  predicate Agree(x: nat, y: nat) {
    x == y || x == 1 || y == 1
  }

  /** numpy.broadcast_shapes; None where numpy raises. */
  function BroadcastShapes(a: Shape, b: Shape): (shape: Option<Shape>)
    ensures shape.Some? ==> |shape.value| == MaxRank(a, b) && Stretches(Pad(a, MaxRank(a, b)), shape.value)
                            && Stretches(Pad(b, MaxRank(a, b)), shape.value)
  {
    var rank := MaxRank(a, b);
    var x, y := Pad(a, rank), Pad(b, rank);
    if forall i :: 0 <= i < rank ==> Agree(x[i], y[i]) then
      Some(seq(rank, i requires 0 <= i < rank => if x[i] == 1 then y[i] else x[i]))
    else
      None
  }

  function Combined(add: bool, x: Tensor, y: Tensor): (r: Tensor)
    requires x.Valid() && y.Valid() && x.shape == y.shape
    ensures r.Valid() && r.shape == x.shape
  {
    Tensor(x.shape, Pointwise(add, x.data, y.data))
  }

  /** numpy's result of adding or multiplying two tensors; None where numpy raises. */
  function Combination(add: bool, x: Tensor, y: Tensor): (r: Option<Tensor>)
    requires x.Valid() && y.Valid()
    ensures r.Some? <==> BroadcastShapes(x.shape, y.shape).Some?
    ensures r.Some? ==> r.value.Valid() && Some(r.value.shape) == BroadcastShapes(x.shape, y.shape)
  {
    var shape := BroadcastShapes(x.shape, y.shape);
    if shape.None? then None else
      Some(Combined(add, BroadcastTo(Padded(x, |shape.value|), shape.value), BroadcastTo(Padded(y, |shape.value|), shape.value)))
  }

  ghost predicate IsCombination(r: Tensor, add: bool, x: Tensor, y: Tensor)
    requires x.Valid() && y.Valid()
  {
    Combination(add, x, y) == Some(r)
  }

  lemma PointwiseSize(add: bool, x: seq<real>, y: seq<real>)
    ensures |Pointwise(add, x, y)| == |x|
  {
  }

  lemma RankOf(a: Shape, b: Shape)
    ensures var shape := BroadcastShapes(a, b);
            shape.Some? ==> |a| <= |shape.value| && |b| <= |shape.value|
  {
  }

  method Largest(data: seq<real>) returns (most: real)
    requires |data| > 0
    ensures Within(data, most) && most >= 0.0 && exists k :: 0 <= k < |data| && Magnitude(data[k]) == most
  {
    most := Magnitude(data[0]);
    for k := 1 to |data|
      invariant most >= 0.0 && Within(data[..k], most) && exists j :: 0 <= j < |data| && Magnitude(data[j]) == most
    {
      assert data[..k + 1] == data[..k] + [data[k]];
      if Magnitude(data[k]) > most {
        most := Magnitude(data[k]);
      }
    }
    assert data[..|data|] == data;
  }

  lemma GatherBounded(x: seq<real>, indices: seq<int>, bound: real)
    requires Within(x, bound) && InRange(indices, |x|)
    ensures Within(GatherValue(x, indices), bound)
  {
  }

  lemma RepeatReadable(outer: nat, inner: nat, count: nat, size: nat, slots: nat)
    requires Area(outer, inner) == size && 1 <= size <= slots
    ensures 1 <= outer <= slots && 1 <= inner <= slots
    ensures Area(Area(outer, count), inner) == Area(size, count)
    ensures 1 <= Area(size, count) <= slots ==> 1 <= count <= slots
  {
    AreaFactors(outer, inner);
    AreaFactors(size, count);
    PlaceNested(outer, inner, 0, count, 0);
    PlaceNested(outer, count, 0, inner, 0);
    assert Area(inner, count) == Area(count, inner);
  }

  lemma AreaFactors(a: nat, b: nat)
    ensures Area(a, b) >= 1 ==> 1 <= a <= Area(a, b) && 1 <= b <= Area(a, b)
  {
    if a >= 1 && b >= 1 {
      MulMonotone(1, b, a);
      MulMonotone(1, a, b);
    }
  }

  // ----- progress of a broadcast

  /** Axes from `axis` on have been stretched, those before are still as they were. */
  ghost predicate Reaches(start: Tensor, current: Tensor, shape: Shape, axis: nat) {
    && start.Valid() && |start.shape| == |shape| == |current.shape| && axis <= |shape|
    && Stretches(start.shape, current.shape) && current == BroadcastTo(start, current.shape)
    && (forall a :: 0 <= a < axis ==> current.shape[a] == start.shape[a])
    && forall a :: axis <= a < |shape| ==> current.shape[a] == shape[a]
  }

  lemma Skips(start: Tensor, current: Tensor, shape: Shape, axis: nat)
    requires axis < |shape| && Reaches(start, current, shape, axis + 1)
    ensures |current.shape| == |shape|
    ensures current.shape[axis] == shape[axis] ==> Reaches(start, current, shape, axis)
  {
    hide BroadcastTo;
  }

  lemma Advances(start: Tensor, current: Tensor, shape: Shape, axis: nat)
    requires axis < |shape| && Reaches(start, current, shape, axis + 1) && current.shape[axis] == 1
    requires Stretches(current.shape, current.shape[axis := shape[axis]])
    ensures Reaches(start, BroadcastTo(current, current.shape[axis := shape[axis]]), shape, axis)
  {
    hide Source;
    BroadcastTwice(start, current.shape, current.shape[axis := shape[axis]]);
  }

  lemma Reindexed(start: Tensor, current: Tensor, shape: Shape, axis: nat)
    requires Reaches(start, current, shape, axis) && Stretches(current.shape, shape)
    ensures Stretches(start.shape, shape) && BroadcastTo(current, shape) == BroadcastTo(start, shape)
  {
    hide BroadcastTo;
    assert forall a :: 0 <= a < |shape| ==> start.shape[a] == current.shape[a] || start.shape[a] == 1;
    BroadcastTwice(start, current.shape, shape);
  }

  lemma ReachesEnd(start: Tensor, current: Tensor, shape: Shape)
    requires Reaches(start, current, shape, 0)
    ensures Stretches(start.shape, shape) && current == BroadcastTo(start, shape)
  {
    assert current.shape == shape;
  }

  lemma Blocked(start: Tensor, current: Tensor, shape: Shape, axis: nat)
    requires axis < |shape| && Reaches(start, current, shape, axis + 1) && current.shape[axis] != shape[axis] && current.shape[axis] != 1
    ensures !Stretches(start.shape, shape)
  {
    hide BroadcastTo;
  }

  /** What is left to stretch does not depend on the axes that are done. */
  lemma StretchesOn(start: Tensor, current: Tensor, shape: Shape, axis: nat)
    requires Reaches(start, current, shape, axis)
    ensures Stretches(start.shape, shape) <==> Stretches(current.shape, shape)
  {
    hide BroadcastTo;
  }

  /** Stretching one axis on the way to `shape` does not get beyond its size. */
  lemma SmallerStretch(from: Shape, shape: Shape, axis: nat)
    requires axis < |from| == |shape|
    ensures Stretches(from, shape) && Size(shape) >= 1 ==> 1 <= Size(from[axis := shape[axis]]) <= Size(shape)
  {
    hide Size;
    if Stretches(from, shape) && Size(shape) >= 1 {
      SmallerSize(from[axis := shape[axis]], shape);
    }
  }

  lemma {:induction false} SmallerSize(from: Shape, to: Shape)
    requires Stretches(from, to) && Size(to) >= 1
    ensures 1 <= Size(from) <= Size(to)
    decreases |to|
  {
    hide Area;
    var n := |to| - 1;
    if n >= 0 {
      AreaFactors(Size(to[..n]), to[n]);
      SmallerSize(from[..n], to[..n]);
      AreaMonotone(Size(from[..n]), from[n], Size(to[..n]), to[n]);
    }
  }

  lemma AreaMonotone(a: nat, b: nat, c: nat, d: nat)
    requires 1 <= a <= c && 1 <= b <= d
    ensures 1 <= Area(a, b) <= Area(c, d)
  {
    MulMonotone(a, c, b);
    MulMonotone(b, d, c);
    MulMonotone(1, a, b);
  }

  lemma BroadcastBounded(t: Tensor, to: Shape, bound: real)
    requires t.Valid() && Stretches(t.shape, to) && Within(t.data, bound)
    ensures Within(BroadcastTo(t, to).data, bound)
  {
    hide Size, Source, Magnitude;
  }

  // ----- sums over the last axis

  /** Smallest doubling of p that is at least width. */
  function NextPower(width: nat, p: nat): (r: nat)
    requires p > 0
    ensures r >= width && r >= p
    ensures IsPowerOfTwo(p) ==> IsPowerOfTwo(r)
    decreases width - p
  {
    if p >= width then p else
      assert IsPowerOfTwo(p) ==> IsPowerOfTwo(2 * p) by { assert 2 * p / 2 == p; }
      NextPower(width, 2 * p)
  }

  /** numpy's x.sum(-1, keepdims=True) */
  ghost predicate IsRowSum(r: Tensor, x: Tensor) {
    && |x.shape| > 0 && r.shape == LastAxis(x.shape, 1)
    && r.data == SumValue(x.data, x.shape[|x.shape| - 1])
  }

  lemma RowSumIs(x: Tensor)
    requires |x.shape| > 0
    ensures forall r: Tensor :: r.shape == LastAxis(x.shape, 1) && r.data == SumValue(x.data, x.shape[|x.shape| - 1]) ==> IsRowSum(r, x)
  {
  }

  lemma SumSize(x: seq<real>, rows: nat, width: nat)
    requires |x| == Area(rows, width) && width > 0
    ensures |SumValue(x, width)| == rows && Quotient(|x|, width) == rows
  {
    PlaceParts(rows, width, 0);
  }

  /** The last axis made n long. */
  function LastAxis(shape: Shape, n: nat): (r: Shape)
    requires |shape| > 0
  {
    shape[..|shape| - 1] + [n]
  }

  lemma LastAxisSize(shape: Shape, n: nat) returns (rows: nat)
    requires |shape| > 0
    ensures rows == Size(shape[..|shape| - 1]) && Size(LastAxis(shape, n)) == Area(rows, n)
    ensures Size(shape) == Area(rows, shape[|shape| - 1])
    ensures forall data: seq<real> :: Tensor(LastAxis(shape, n), data).Valid() <==> |data| == Area(rows, n)
  {
    rows := Size(shape[..|shape| - 1]);
    SizeLast(shape);
    SizeLast(LastAxis(shape, n));
    assert LastAxis(shape, n)[..|shape| - 1] == shape[..|shape| - 1];
  }

  lemma LinearReadable(nodes: seq<Node>, values: seq<seq<real>>, operation: Operation, index: nat, x: seq<real>, weights: seq<real>,
                       rows: nat, slots: nat, extended: bool)
    requires index < |nodes| && ValueOf(values, index) == x && SizeOf(nodes, index) == |x| && |weights| == Area(rows, |x|)
    requires operation == Linear(index, weights)
             || (extended && operation.LinearRef? && operation.parent == index && operation.owner < |nodes|
                 && nodes[operation.owner].operation.Linear? && nodes[operation.owner].size == rows
                 && WeightsOf(nodes, operation.owner) == weights)
    ensures LinearValue(x, weights, rows) == Apply(nodes, Node(operation, rows), values, [])
    ensures 1 <= rows <= slots ==> Readable(nodes, Node(operation, rows), slots, extended)
  {
    hide LinearValue, Area;
  }

  lemma SumReadable(nodes: seq<Node>, values: seq<seq<real>>, index: nat, x: seq<real>, rows: nat, width: nat, slots: nat, extended: bool)
    requires index < |nodes| && ValueOf(values, index) == x && SizeOf(nodes, index) == |x| == Area(rows, width)
    requires IsPowerOfTwo(width) && 1 <= width <= slots && |SumValue(x, width)| == rows
    ensures SumValue(x, width) == Apply(nodes, Node(SumGroups(index, width), rows), values, [])
    ensures 1 <= rows <= slots ==> Readable(nodes, Node(SumGroups(index, width), rows), slots, extended)
  {
    hide SumValue, Area, IsPowerOfTwo;
  }

  /** Where the entries of rows of `width` go in rows of `padded`. */
  function RowTargets(rows: nat, width: nat, padded: nat): seq<int> {
    seq(Area(rows, width), k requires 0 <= k < Area(rows, width) => Place(Quotient(k, width), padded, Remainder(k, width)))
  }

  /** Rows of `width` with zeros up to `padded`. */
  function PaddedRows(x: seq<real>, rows: nat, width: nat, padded: nat): (r: seq<real>)
    ensures |r| == Area(rows, padded)
  {
    seq(Area(rows, padded), p requires 0 <= p < Area(rows, padded) =>
      if Remainder(p, padded) < width then Read(x, Place(Quotient(p, padded), width, Remainder(p, padded))) else 0.0)
  }

  function PaddedTensor(x: Tensor, padded: nat): (r: Tensor)
    requires x.Valid() && |x.shape| > 0
    ensures r.Valid()
  {
    var n := |x.shape| - 1;
    var shape := x.shape[..n] + [padded];
    SizeLast(shape);
    assert shape[..n] == x.shape[..n];
    Tensor(shape, PaddedRows(x.data, Size(x.shape[..n]), x.shape[n], padded))
  }

  lemma PadRows(x: seq<real>, rows: nat, width: nat, padded: nat)
    requires |x| == Area(rows, width) && 0 < width <= padded
    ensures var targets := RowTargets(rows, width, padded);
            && |targets| == |x| && InRange(targets, Area(rows, padded)) && Distinct(targets)
            && ScatterValue(x, targets, Area(rows, padded)) == PaddedRows(x, rows, width, padded)
  {
    hide Place, Area, Quotient, Remainder;
    var targets := RowTargets(rows, width, padded);
    forall k: nat | k < |x|
      ensures targets[k] < Area(rows, padded) && Quotient(targets[k], padded) == Quotient(k, width)
              && Remainder(targets[k], padded) == Remainder(k, width)
    {
      TargetParts(rows, width, padded, k);
    }
    forall j: nat, k: nat | j < k < |x|
      ensures targets[j] != targets[k]
    {
      PlaceOf(j, width);
      PlaceOf(k, width);
    }
    forall p: nat | p < Area(rows, padded)
      ensures ScatterAt(x, targets, p) == PaddedRows(x, rows, width, padded)[p]
    {
      PadPosition(x, rows, width, padded, p);
    }
  }

  lemma TargetParts(rows: nat, width: nat, padded: nat, k: nat)
    requires k < Area(rows, width) && 0 < width <= padded
    ensures var at := Place(Quotient(k, width), padded, Remainder(k, width));
            at < Area(rows, padded) && Quotient(at, padded) == Quotient(k, width) && Remainder(at, padded) == Remainder(k, width)
  {
    hide Place, Area, Quotient, Remainder;
    PlaceOf(k, width);
    PlaceBound(Quotient(k, width), width, Remainder(k, width), rows);
    PlaceBound(Quotient(k, width), padded, Remainder(k, width), rows);
    PlaceParts(Quotient(k, width), padded, Remainder(k, width));
  }

  lemma PadBounded(x: seq<real>, rows: nat, width: nat, padded: nat, bound: real)
    requires Within(x, bound) && bound >= 0.0
    ensures Within(PaddedRows(x, rows, width, padded), bound)
  {
    hide Place, Area, Quotient, Remainder;
  }

  lemma PadPosition(x: seq<real>, rows: nat, width: nat, padded: nat, p: nat)
    requires |x| == Area(rows, width) && 0 < width <= padded && p < Area(rows, padded)
    requires Distinct(RowTargets(rows, width, padded))
    ensures ScatterAt(x, RowTargets(rows, width, padded), p) == PaddedRows(x, rows, width, padded)[p]
  {
    hide Place, Area, Quotient, Remainder, ScatterAt;
    var targets := RowTargets(rows, width, padded);
    var q, j := Quotient(p, padded), Remainder(p, padded);
    PlaceOf(p, padded);
    PlaceBound(q, padded, j, rows);
    if j < width {
      var k := Place(q, width, j);
      PlaceBound(q, width, j, rows);
      PlaceParts(q, width, j);
      assert targets[k] == p;
      ScatterHits(x, targets, k);
    } else {
      forall k: nat | k < |targets|
        ensures targets[k] != p
      {
        TargetParts(rows, width, padded, k);
        PlaceOf(k, width);
      }
      ScatterMisses(x, targets, p);
    }
  }

  lemma ScatterMisses(x: seq<real>, indices: seq<int>, p: int)
    requires forall k :: 0 <= k < |indices| ==> indices[k] != p
    ensures ScatterAt(x, indices, p) == 0.0
  {
  }

  /** Zero padding does not change a row's sum. */
  lemma SumOfPadded(x: seq<real>, rows: nat, width: nat, padded: nat)
    requires |x| == Area(rows, width) && 0 < width <= padded
    ensures SumValue(PaddedRows(x, rows, width, padded), padded) == SumValue(x, width)
  {
    hide Place, Area, Quotient, Remainder, PaddedRows;
    var long := PaddedRows(x, rows, width, padded);
    SumSize(long, rows, padded);
    SumSize(x, rows, width);
    forall k: nat | k < rows
      ensures Sum(padded, Row(long, Place(k, padded, 0))) == Sum(width, Row(x, Place(k, width, 0)))
    {
      RowPadded(x, rows, width, padded, k);
    }
  }

  lemma PaddedEntry(x: seq<real>, rows: nat, width: nat, padded: nat, k: nat, j: nat)
    requires |x| == Area(rows, width) && 0 < width <= padded && k < rows && j < padded
    ensures Read(PaddedRows(x, rows, width, padded), Place(k, padded, 0) + j)
         == if j < width then Read(x, Place(k, width, 0) + j) else 0.0
  {
    hide Place, Area, Quotient, Remainder;
    PlaceStep(k, padded, j);
    PlaceStep(k, width, j);
    PlaceBound(k, padded, j, rows);
    PlaceParts(k, padded, j);
  }

  lemma RowPadded(x: seq<real>, rows: nat, width: nat, padded: nat, k: nat)
    requires |x| == Area(rows, width) && 0 < width <= padded && k < rows
    ensures Sum(padded, Row(PaddedRows(x, rows, width, padded), Place(k, padded, 0))) == Sum(width, Row(x, Place(k, width, 0)))
  {
    hide Place, Area, Quotient, Remainder, Sum, PaddedRows, Read;
    var long := PaddedRows(x, rows, width, padded);
    var from, to := Row(x, Place(k, width, 0)), Row(long, Place(k, padded, 0));
    forall j: nat | j < padded
      ensures to(j) == if j < width then from(j) else 0.0
    {
      PaddedEntry(x, rows, width, padded, k, j);
    }
    var rest := (j: nat) => to(width + j);
    SumSplit(width, padded - width, to, rest);
    SumExt(width, from, to);
    SumZero(padded - width, rest);
  }

  lemma PlaceStep(q: nat, d: nat, r: nat)
    ensures Place(q, d, 0) + r == Place(q, d, r)
  {
  }

  // ----- joining along an axis

  function Tensors(parts: seq<PackedValue>): (r: seq<Tensor>)
    ensures |r| == |parts| && forall k :: 0 <= k < |parts| ==> r[k] == parts[k].value
  {
    seq(|parts|, k requires 0 <= k < |parts| => parts[k].value)
  }

  /** Same rank, same lengths on all other axes. */
  predicate Joinable(ts: seq<Tensor>, axis: nat) {
    && |ts| > 0 && axis < |ts[0].shape|
    && forall k :: 0 <= k < |ts| ==> ts[k].Valid() && |ts[k].shape| == |ts[0].shape| && ts[k].shape[axis := 0] == ts[0].shape[axis := 0]
  }

  /** Where part number |ts| starts on the axis. */
  function Start(ts: seq<Tensor>, axis: nat): nat
    requires forall k :: 0 <= k < |ts| ==> axis < |ts[k].shape|
    decreases |ts|
  {
    if |ts| == 0 then 0 else Start(ts[..|ts| - 1], axis) + ts[|ts| - 1].shape[axis]
  }

  function JoinedShape(ts: seq<Tensor>, axis: nat): Shape
    requires Joinable(ts, axis)
  {
    ts[0].shape[axis := Start(ts, axis)]
  }

  function Shifted(index: seq<nat>, axis: nat, start: nat): seq<nat>
    requires axis < |index|
  {
    index[axis := index[axis] + start]
  }

  /** numpy's concatenate: part k's entries follow those of the earlier parts on the axis. */
  ghost predicate IsConcatenation(r: Tensor, ts: seq<Tensor>, axis: nat) {
    && Joinable(ts, axis) && r.Valid() && r.shape == JoinedShape(ts, axis)
    && forall k: nat, index :: k < |ts| && Inside(ts[k].shape, index) ==>
         Inside(r.shape, Shifted(index, axis, Start(ts[..k], axis)))
         && At(r, Shifted(index, axis, Start(ts[..k], axis))) == At(ts[k], index)
  }

  predicate Parts(ts: seq<Tensor>, axis: nat, rank: nat) {
    axis < rank && forall k :: 0 <= k < |ts| ==> ts[k].Valid() && |ts[k].shape| == rank
  }

  /** The index lies in a part that starts at `start`. */
  predicate InPart(shape: Shape, axis: nat, start: nat, index: seq<nat>)
    requires axis < |index|
  {
    start <= index[axis] && Inside(shape, index[axis := index[axis] - start])
  }

  function OnePart(t: Tensor, axis: nat, start: nat, index: seq<nat>): real
    requires t.Valid() && axis < |index|
  {
    if InPart(t.shape, axis, start, index) then At(t, index[axis := index[axis] - start]) else 0.0
  }

  /** The entry the parts contribute at an index; 0 behind the last part. */
  function JoinAt(ts: seq<Tensor>, axis: nat, index: seq<nat>): real
    requires Parts(ts, axis, |index|)
    decreases |ts|
  {
    var n := |ts| - 1;
    if n < 0 then 0.0 else
      var start := Start(ts[..n], axis);
      if InPart(ts[n].shape, axis, start, index) then OnePart(ts[n], axis, start, index) else JoinAt(ts[..n], axis, index)
  }

  lemma {:induction false} JoinBeyond(ts: seq<Tensor>, axis: nat, index: seq<nat>)
    requires Parts(ts, axis, |index|) && index[axis] >= Start(ts, axis)
    ensures JoinAt(ts, axis, index) == 0.0
    decreases |ts|
  {
    hide OnePart;
    if |ts| > 0 {
      JoinBeyond(ts[..|ts| - 1], axis, index);
    }
  }

  ghost predicate JoinedSoFar(r: Tensor, ts: seq<Tensor>, axis: nat, shape: Shape) {
    && r.Valid() && r.shape == shape && Parts(ts, axis, |shape|)
    && forall p :: 0 <= p < Size(shape) ==> r.data[p] == JoinAt(ts, axis, Unflatten(shape, p))
  }

  /** A part that starts at `start` lies inside the whole. */
  predicate PartOf(part: Shape, shape: Shape, axis: nat, start: nat) {
    && |part| == |shape| && axis < |shape| && start + part[axis] <= shape[axis]
    && forall a :: 0 <= a < |shape| && a != axis ==> part[a] == shape[a]
  }

  lemma {:induction false} StartMonotone(ts: seq<Tensor>, axis: nat, j: nat, k: nat)
    requires j <= k <= |ts| && forall i :: 0 <= i < |ts| ==> axis < |ts[i].shape|
    ensures Start(ts[..j], axis) <= Start(ts[..k], axis)
    ensures j < |ts| ==> Start(ts[..j + 1], axis) == Start(ts[..j], axis) + ts[j].shape[axis]
    decreases k
  {
    if j < |ts| {
      assert ts[..j + 1][..j] == ts[..j];
    }
    if j < k {
      StartMonotone(ts, axis, j, k - 1);
      assert ts[..k][..k - 1] == ts[..k - 1];
    }
  }

  lemma PartFits(ts: seq<Tensor>, axis: nat, k: nat)
    requires Joinable(ts, axis) && k < |ts|
    ensures axis < |ts[k].shape| && ts[k].Valid() && PartOf(ts[k].shape, JoinedShape(ts, axis), axis, Start(ts[..k], axis))
    ensures Parts(ts, axis, |ts[0].shape|) && Start(ts[..k + 1], axis) == Start(ts[..k], axis) + ts[k].shape[axis]
  {
    hide Size, Start;
    StartMonotone(ts, axis, k, |ts|);
    StartMonotone(ts, axis, k + 1, |ts|);
    assert ts[..|ts|] == ts;
    forall a | 0 <= a < |ts[0].shape| && a != axis
      ensures ts[k].shape[a] == ts[0].shape[a]
    {
      assert ts[k].shape[axis := 0][a] == ts[0].shape[axis := 0][a];
    }
  }

  /** The positions in the whole of a part's entries. */
  function PartTargets(part: Shape, shape: Shape, axis: nat, start: nat): (r: seq<int>)
    requires PartOf(part, shape, axis, start)
    ensures |r| == Size(part)
  {
    seq(Size(part), k requires 0 <= k < Size(part) => Offset(shape, Shifted(Unflatten(part, k), axis, start)))
  }

  /** Target k is a slot of the whole whose multi-index is the part's, shifted. */
  lemma TargetOf(part: Shape, shape: Shape, axis: nat, start: nat, k: nat)
    requires PartOf(part, shape, axis, start) && k < Size(part)
    ensures var index := Shifted(Unflatten(part, k), axis, start); var at := Offset(shape, index);
            && at < Size(shape) && Unflatten(shape, at) == index && InPart(part, axis, start, index)
            && index[axis := index[axis] - start] == Unflatten(part, k) && Offset(part, Unflatten(part, k)) == k
  {
    hide Offset, Size, Unflatten;
    UnflattenInside(part, k);
    OffsetInside(shape, Shifted(Unflatten(part, k), axis, start));
  }

  lemma TargetBack(part: Shape, shape: Shape, axis: nat, start: nat, p: nat)
    requires PartOf(part, shape, axis, start) && p < Size(shape) && InPart(part, axis, start, Unflatten(shape, p))
    ensures var index := Unflatten(shape, p); var local := index[axis := index[axis] - start];
            Offset(part, local) < Size(part) && PartTargets(part, shape, axis, start)[Offset(part, local)] == p
  {
    hide Offset, Size, Unflatten;
    var index := Unflatten(shape, p);
    var local := index[axis := index[axis] - start];
    UnflattenInside(shape, p);
    OffsetInside(part, local);
    assert Shifted(local, axis, start) == index;
  }

  lemma PartScatters(t: Tensor, shape: Shape, axis: nat, start: nat)
    requires t.Valid() && PartOf(t.shape, shape, axis, start)
    ensures var targets := PartTargets(t.shape, shape, axis, start);
            InRange(targets, Size(shape)) && Distinct(targets)
            && forall p :: 0 <= p < Size(shape) ==>
                 ScatterValue(t.data, targets, Size(shape))[p] == OnePart(t, axis, start, Unflatten(shape, p))
  {
    hide Offset, Size, Unflatten, ScatterAt, InPart;
    var targets := PartTargets(t.shape, shape, axis, start);
    forall k: nat | k < |targets|
      ensures 0 <= targets[k] < Size(shape)
    {
      TargetOf(t.shape, shape, axis, start, k);
    }
    forall j: nat, k: nat | j < k < |targets|
      ensures targets[j] != targets[k]
    {
      TargetOf(t.shape, shape, axis, start, j);
      TargetOf(t.shape, shape, axis, start, k);
    }
    forall p: nat | p < Size(shape)
      ensures ScatterAt(t.data, targets, p) == OnePart(t, axis, start, Unflatten(shape, p))
    {
      PartPosition(t, shape, axis, start, p);
    }
  }

  lemma PartPosition(t: Tensor, shape: Shape, axis: nat, start: nat, p: nat)
    requires t.Valid() && PartOf(t.shape, shape, axis, start) && p < Size(shape) && Distinct(PartTargets(t.shape, shape, axis, start))
    ensures ScatterAt(t.data, PartTargets(t.shape, shape, axis, start), p) == OnePart(t, axis, start, Unflatten(shape, p))
  {
    hide Offset, Size, Unflatten, ScatterAt, InPart;
    var targets := PartTargets(t.shape, shape, axis, start);
    var index := Unflatten(shape, p);
    if InPart(t.shape, axis, start, index) {
      PartInside(t.shape, axis, start, index);
      TargetBack(t.shape, shape, axis, start, p);
      ScatterHits(t.data, targets, Offset(t.shape, index[axis := index[axis] - start]));
    } else {
      forall k: nat | k < |targets|
        ensures targets[k] != p
      {
        TargetOf(t.shape, shape, axis, start, k);
      }
      ScatterMisses(t.data, targets, p);
    }
  }

  lemma PartInside(shape: Shape, axis: nat, start: nat, index: seq<nat>)
    requires axis < |index| && InPart(shape, axis, start, index)
    ensures start <= index[axis] && Inside(shape, index[axis := index[axis] - start])
  {
  }

  lemma Ranks(ts: seq<Tensor>, axis: nat)
    requires Joinable(ts, axis)
    ensures forall k :: 0 <= k < |ts| ==> axis < |ts[k].shape|
    ensures |JoinedShape(ts, axis)| == |ts[0].shape|
  {
    hide Start;
  }

  lemma StartsAtZero(ts: seq<Tensor>, axis: nat)
    requires Joinable(ts, axis)
    ensures Start(ts[..0], axis) == 0
  {
  }

  lemma FirstPart(ts: seq<Tensor>, axis: nat, shape: Shape, spread: Tensor)
    requires Joinable(ts, axis) && spread.Valid() && spread.shape == shape && |shape| == |ts[0].shape|
    requires forall p :: 0 <= p < Size(shape) ==> spread.data[p] == OnePart(ts[0], axis, 0, Unflatten(shape, p))
    ensures JoinedSoFar(spread, ts[..1], axis, shape)
  {
    hide Size, Unflatten, OnePart;
    assert ts[..1][..0] == [] && Start([], axis) == 0;
    forall p: nat | p < Size(shape)
      ensures spread.data[p] == JoinAt(ts[..1], axis, Unflatten(shape, p))
    {
      OutsidePart(ts[0], axis, 0, Unflatten(shape, p));
    }
  }

  lemma OutsidePart(t: Tensor, axis: nat, start: nat, index: seq<nat>)
    requires t.Valid() && axis < |index|
    ensures !InPart(t.shape, axis, start, index) ==> OnePart(t, axis, start, index) == 0.0
  {
  }

  lemma NextPart(ts: seq<Tensor>, axis: nat, shape: Shape, k: nat, r: Tensor, spread: Tensor, sum: Tensor)
    requires Joinable(ts, axis) && 0 < k < |ts| && |shape| == |ts[0].shape|
    requires JoinedSoFar(r, ts[..k], axis, shape) && spread.Valid() && spread.shape == shape
    requires forall p :: 0 <= p < Size(shape) ==> spread.data[p] == OnePart(ts[k], axis, Start(ts[..k], axis), Unflatten(shape, p))
    requires IsCombination(sum, true, r, spread)
    ensures JoinedSoFar(sum, ts[..k + 1], axis, shape)
  {
    hide Size, Unflatten, OnePart, Start, IsCombination, BroadcastTo, Padded, BroadcastShapes;
    SameShapes(sum, true, r, spread);
    assert ts[..k + 1][..k] == ts[..k];
    var start := Start(ts[..k], axis);
    forall p: nat | p < Size(shape)
      ensures sum.data[p] == JoinAt(ts[..k + 1], axis, Unflatten(shape, p))
    {
      var index := Unflatten(shape, p);
      OutsidePart(ts[k], axis, start, index);
      if InPart(ts[k].shape, axis, start, index) {
        JoinBeyond(ts[..k], axis, index);
      }
    }
  }

  lemma ScatterBounded(x: seq<real>, indices: seq<int>, size: nat, bound: real)
    requires Within(x, bound) && bound >= 0.0
    ensures Within(ScatterValue(x, indices, size), bound)
  {
  }

  /** Every joined entry is an entry of a part or zero. */
  lemma {:induction false} JoinBounded(ts: seq<Tensor>, axis: nat, index: seq<nat>, bound: real)
    requires Parts(ts, axis, |index|) && bound >= 0.0 && forall k :: 0 <= k < |ts| ==> Within(ts[k].data, bound)
    ensures Magnitude(JoinAt(ts, axis, index)) <= bound
    decreases |ts|
  {
    hide At, Inside, OnePart;
    var n := |ts| - 1;
    if n >= 0 {
      JoinBounded(ts[..n], axis, index, bound);
      PartBounded(ts[n], axis, Start(ts[..n], axis), index, bound);
    }
  }

  lemma PartBounded(t: Tensor, axis: nat, start: nat, index: seq<nat>, bound: real)
    requires t.Valid() && axis < |index| && Within(t.data, bound) && bound >= 0.0
    ensures Magnitude(OnePart(t, axis, start, index)) <= bound
  {
    hide Offset, Size, Magnitude;
    if InPart(t.shape, axis, start, index) {
      OffsetInside(t.shape, index[axis := index[axis] - start]);
    } else {
      ZeroMagnitude();
    }
  }

  lemma ZeroMagnitude()
    ensures Magnitude(0.0) == 0.0
  {
  }

  /** Adding the next part never leaves the bound. */
  lemma SumBounded(ts: seq<Tensor>, axis: nat, shape: Shape, k: nat, r: Tensor, spread: Tensor, bound: real)
    requires Joinable(ts, axis) && 0 < k < |ts| && |shape| == |ts[0].shape|
    requires JoinedSoFar(r, ts[..k], axis, shape) && spread.Valid() && spread.shape == shape
    requires forall p :: 0 <= p < Size(shape) ==> spread.data[p] == OnePart(ts[k], axis, Start(ts[..k], axis), Unflatten(shape, p))
    requires bound >= 0.0 && forall j :: 0 <= j < |ts| ==> Within(ts[j].data, bound)
    ensures var c := Combination(true, r, spread); c.Some? && |c.value.data| == Size(shape) && Within(c.value.data, bound)
  {
    hide Size, Unflatten, OnePart, Start, Combination, JoinAt, Magnitude;
    SameAgree(shape);
    var sum := Combination(true, r, spread).value;
    NextPart(ts, axis, shape, k, r, spread, sum);
    forall p | 0 <= p < Size(shape)
      ensures Magnitude(sum.data[p]) <= bound
    {
      JoinBounded(ts[..k + 1], axis, Unflatten(shape, p), bound);
    }
  }

  lemma SameAgree(shape: Shape)
    ensures BroadcastShapes(shape, shape) == Some(shape)
  {
    assert Pad(shape, |shape|) == shape;
    assert BroadcastShapes(shape, shape).value == shape;
  }

  /** Equal shapes combine entry by entry. */
  lemma SameShapes(r: Tensor, add: bool, x: Tensor, y: Tensor)
    requires x.Valid() && y.Valid() && x.shape == y.shape && IsCombination(r, add, x, y)
    ensures r == Combined(add, x, y)
  {
    hide BroadcastTo, Pointwise;
    var shape := x.shape;
    assert Pad(shape, |shape|) == shape;
    assert BroadcastShapes(shape, shape).value == shape;
    BroadcastSame(x);
    BroadcastSame(y);
  }

  lemma {:induction false} JoinHits(ts: seq<Tensor>, axis: nat, k: nat, index: seq<nat>)
    requires Parts(ts, axis, |index|) && k < |ts| && Inside(ts[k].shape, index)
    ensures JoinAt(ts, axis, Shifted(index, axis, Start(ts[..k], axis))) == At(ts[k], index)
    decreases |ts|
  {
    hide At, Start;
    var n := |ts| - 1;
    var shifted := Shifted(index, axis, Start(ts[..k], axis));
    if k == n {
      assert shifted[axis := shifted[axis] - Start(ts[..k], axis)] == index;
    } else {
      StartMonotone(ts, axis, k, n);
      StartMonotone(ts, axis, k + 1, n);
      assert ts[..n][..k] == ts[..k];
      JoinHits(ts[..n], axis, k, index);
    }
  }

  lemma JoinedAll(r: Tensor, ts: seq<Tensor>, axis: nat, shape: Shape)
    requires Joinable(ts, axis) && shape == JoinedShape(ts, axis) && JoinedSoFar(r, ts, axis, shape)
    ensures IsConcatenation(r, ts, axis)
  {
    hide Size, Offset, Unflatten, JoinAt, Start, Joinable;
    forall k: nat, index | k < |ts| && Inside(ts[k].shape, index)
      ensures Inside(r.shape, Shifted(index, axis, Start(ts[..k], axis)))
              && At(r, Shifted(index, axis, Start(ts[..k], axis))) == At(ts[k], index)
    {
      PartFits(ts, axis, k);
      var shifted := Shifted(index, axis, Start(ts[..k], axis));
      OffsetInside(shape, shifted);
      JoinHits(ts, axis, k, index);
    }
  }

  // ----- a single row

  /** A value with as many entries as its last axis has one row. */
  lemma OneRow(shape: Shape, columns: nat)
    requires |shape| > 0 && Size(shape) == columns == shape[|shape| - 1] && columns >= 1
    ensures Size(shape[..|shape| - 1]) == 1 && Area(1, columns) == columns
  {
    var rows := Size(shape[..|shape| - 1]);
    SizeLast(shape);
    if rows >= 2 {
      MulMonotone(2, rows, columns);
    }
  }
}
