/** Row-major tensors: flat positions, multi-indices, numpy broadcasting. */
module TensorIndex {
  import opened Wrappers
  import opened SlotVectors

  type Shape = seq<nat>

  /** q rows of d, and r more. */
  function Place(q: nat, d: nat, r: nat): (k: nat) {
    Products(q, d);
    q * d + r
  }

  function Area(a: nat, b: nat): (n: nat) {
    Products(a, b);
    a * b
  }

  lemma Products(a: nat, b: nat)
    ensures a * b >= 0
  {
  }

  function Size(shape: Shape): nat
    decreases |shape|
  {
    if |shape| == 0 then 1 else Area(Size(shape[..|shape| - 1]), shape[|shape| - 1])
  }

  predicate Inside(shape: Shape, index: seq<nat>) {
    |index| == |shape| && forall a :: 0 <= a < |shape| ==> index[a] < shape[a]
  }

  /** Row-major position of a multi-index. */
  function Offset(shape: Shape, index: seq<nat>): nat
    requires |index| == |shape|
    decreases |shape|
  {
    var n := |shape| - 1;
    if n < 0 then 0 else Place(Offset(shape[..n], index[..n]), shape[n], index[n])
  }

  /** The multi-index of a position. */
  function Unflatten(shape: Shape, k: nat): (index: seq<nat>)
    ensures |index| == |shape|
    decreases |shape|
  {
    var n := |shape| - 1;
    if n < 0 then [] else Unflatten(shape[..n], Quotient(k, shape[n])) + [Remainder(k, shape[n])]
  }

  function Quotient(k: nat, d: nat): nat {
    if d == 0 then 0 else k / d
  }

  function Remainder(k: nat, d: nat): nat {
    if d == 0 then 0 else k % d
  }

  lemma PlaceOf(k: nat, d: nat)
    requires d > 0
    ensures k == Place(Quotient(k, d), d, Remainder(k, d)) && Remainder(k, d) < d
  {
  }

  lemma PlaceParts(q: nat, d: nat, r: nat)
    requires r < d
    ensures Quotient(Place(q, d, r), d) == q && Remainder(Place(q, d, r), d) == r
  {
    ModUnique(Place(q, d, r), d, q, r);
  }

  lemma PlaceBound(q: nat, d: nat, r: nat, rows: nat)
    requires r < d
    ensures q < rows <==> Place(q, d, r) < Area(rows, d)
  {
    if q < rows {
      MulMonotone(q + 1, rows, d);
    } else {
      MulMonotone(rows, q, d);
    }
  }

  lemma PlaceNested(x: nat, s: nat, o: nat, d: nat, i: nat)
    ensures Place(Place(x, s, o), d, i) == Place(x, Area(s, d), Place(o, d, i))
    ensures Area(Area(x, s), d) == Area(x, Area(s, d))
  {
    calc {
      (x * s + o) * d + i;
      x * s * d + o * d + i;
      x * (s * d) + (o * d + i);
    }
    assert x * s * d == x * (s * d);
  }

  lemma PlaceOne(q: nat, r: nat)
    ensures Place(q, 1, 0) == q && Place(0, r, 0) == 0 && Area(q, 1) == q && Area(1, q) == q
  {
  }

  lemma {:induction false} OffsetInside(shape: Shape, index: seq<nat>)
    requires Inside(shape, index)
    ensures Offset(shape, index) < Size(shape) && Unflatten(shape, Offset(shape, index)) == index
    decreases |shape|
  {
    hide Place, Area, Quotient, Remainder;
    var n := |shape| - 1;
    if n >= 0 {
      OffsetInside(shape[..n], index[..n]);
      var q := Offset(shape[..n], index[..n]);
      PlaceParts(q, shape[n], index[n]);
      PlaceBound(q, shape[n], index[n], Size(shape[..n]));
      assert index == index[..n] + [index[n]];
    }
  }

  lemma {:induction false} UnflattenInside(shape: Shape, k: nat)
    requires k < Size(shape)
    ensures Inside(shape, Unflatten(shape, k)) && Offset(shape, Unflatten(shape, k)) == k
    decreases |shape|
  {
    hide Place, Area, Quotient, Remainder;
    var n := |shape| - 1;
    if n >= 0 {
      var d := shape[n];
      PositiveArea(Size(shape[..n]), d, k);
      PlaceOf(k, d);
      PlaceBound(Quotient(k, d), d, Remainder(k, d), Size(shape[..n]));
      UnflattenInside(shape[..n], Quotient(k, d));
      var index := Unflatten(shape, k);
      assert index[..n] == Unflatten(shape[..n], Quotient(k, d)) && index[n] == Remainder(k, d);
    }
  }

  lemma PositiveArea(a: nat, d: nat, k: nat)
    requires k < Area(a, d)
    ensures d > 0
  {
  }

  /** Splitting a position at one axis. */
  lemma {:induction false} OffsetSplit(shape: Shape, index: seq<nat>, axis: nat)
    requires |index| == |shape| && axis < |shape|
    ensures Offset(shape, index) == Place(Place(Offset(shape[..axis], index[..axis]), shape[axis], index[axis]),
                                          Size(shape[axis + 1..]), Offset(shape[axis + 1..], index[axis + 1..]))
    ensures Size(shape) == Area(Area(Size(shape[..axis]), shape[axis]), Size(shape[axis + 1..]))
    decreases |shape|
  {
    hide Place, Area;
    var n := |shape| - 1;
    if axis == n {
      PlaceOne(Offset(shape, index), 0);
      PlaceOne(Size(shape), 0);
      assert shape[axis + 1..] == [] && index[axis + 1..] == [];
    } else {
      var front, at := shape[..n], index[..n];
      OffsetSplit(front, at, axis);
      assert front[..axis] == shape[..axis] && at[..axis] == index[..axis];
      var tail, rest := shape[axis + 1..], index[axis + 1..];
      assert tail[..|tail| - 1] == front[axis + 1..] && rest[..|rest| - 1] == at[axis + 1..];
      var x := Place(Offset(front[..axis], at[..axis]), front[axis], at[axis]);
      PlaceNested(x, Size(front[axis + 1..]), Offset(front[axis + 1..], at[axis + 1..]), shape[n], index[n]);
      PlaceNested(Area(Size(shape[..axis]), shape[axis]), Size(front[axis + 1..]), 0, shape[n], 0);
    }
  }

  // ----- tensors

  datatype Tensor = Tensor(shape: Shape, data: seq<real>)
  {
    predicate Valid() {
      |data| == Size(shape)
    }
  }

  function At(t: Tensor, index: seq<nat>): real
    requires t.Valid() && Inside(t.shape, index)
  {
    OffsetInside(t.shape, index);
    t.data[Offset(t.shape, index)]
  }

  // ----- broadcasting

  /** from can be stretched to `to`: equal lengths, every axis equal or 1. */
  predicate Stretches(from: Shape, to: Shape) {
    |from| == |to| && forall a :: 0 <= a < |to| ==> from[a] == to[a] || from[a] == 1
  }

  /** Axes of length 1 are read at 0. */
  function Clip(from: Shape, index: seq<nat>): (r: seq<nat>)
    requires |index| == |from|
    ensures |r| == |from|
  {
    seq(|from|, a requires 0 <= a < |from| => if from[a] == 1 then 0 else index[a])
  }

  /** The position of `from` that numpy broadcasting shows at position k of `to`. */
  function Source(from: Shape, to: Shape, k: nat): (at: nat)
    requires Stretches(from, to) && k < Size(to)
    ensures at < Size(from)
  {
    UnflattenInside(to, k);
    OffsetInside(from, Clip(from, Unflatten(to, k)));
    Offset(from, Clip(from, Unflatten(to, k)))
  }

  /** numpy.broadcast_to for tensors of equal rank. */
  function BroadcastTo(t: Tensor, to: Shape): (r: Tensor)
    requires t.Valid() && Stretches(t.shape, to)
    ensures r.Valid() && r.shape == to
  {
    Tensor(to, seq(Size(to), k requires 0 <= k < Size(to) => t.data[Source(t.shape, to, k)]))
  }

  /** In terms of multi-indices. */
  lemma BroadcastAt(t: Tensor, to: Shape, index: seq<nat>)
    requires t.Valid() && Stretches(t.shape, to) && Inside(to, index)
    ensures Inside(t.shape, Clip(t.shape, index)) && At(BroadcastTo(t, to), index) == At(t, Clip(t.shape, index))
  {
    OffsetInside(to, index);
    OffsetInside(t.shape, Clip(t.shape, index));
  }

  /** Stretching in two steps is stretching once. */
  lemma BroadcastTwice(t: Tensor, mid: Shape, to: Shape)
    requires t.Valid() && Stretches(t.shape, mid) && Stretches(mid, to) && Stretches(t.shape, to)
    ensures BroadcastTo(BroadcastTo(t, mid), to) == BroadcastTo(t, to)
  {
    hide Offset, Size, Unflatten;
    var twice, once := BroadcastTo(BroadcastTo(t, mid), to), BroadcastTo(t, to);
    forall k: nat | k < Size(to)
      ensures twice.data[k] == once.data[k]
    {
      var index := Unflatten(to, k);
      UnflattenInside(to, k);
      var half := Clip(mid, index);
      OffsetInside(mid, half);
      assert Clip(t.shape, half) == Clip(t.shape, index);
    }
  }

  lemma BroadcastSame(t: Tensor)
    requires t.Valid()
    ensures Stretches(t.shape, t.shape) && BroadcastTo(t, t.shape) == t
  {
    hide Offset, Size, Unflatten;
    forall k: nat | k < Size(t.shape)
      ensures Source(t.shape, t.shape, k) == k
    {
      UnflattenInside(t.shape, k);
      assert Clip(t.shape, Unflatten(t.shape, k)) == Unflatten(t.shape, k);
    }
  }

  /** Stretching one axis of length 1 repeats contiguous blocks. */
  lemma StretchAxis(from: Shape, axis: nat, repeat: nat, k: nat)
    requires axis < |from| && from[axis] == 1 && k < Size(from[axis := repeat])
    ensures var inner := Size(from[axis + 1..]);
            Source(from, from[axis := repeat], k) == Place(Quotient(k, Area(repeat, inner)), inner, Remainder(k, inner))
    ensures Size(from) == Area(Size(from[..axis]), Size(from[axis + 1..]))
    ensures Size(from[axis := repeat]) == Area(Area(Size(from[..axis]), repeat), Size(from[axis + 1..]))
  {
    hide Place, Area, Quotient, Remainder, Offset, Size, Unflatten;
    var to := from[axis := repeat];
    var index := Unflatten(to, k);
    UnflattenInside(to, k);
    var clipped := Clip(from, index);
    SameOutside(from, axis, repeat, index);
    OffsetSplit(to, index, axis);
    OffsetSplit(from, clipped, axis);
    var outer, inner := Offset(from[..axis], index[..axis]), Size(from[axis + 1..]);
    var low := Offset(from[axis + 1..], index[axis + 1..]);
    OffsetInside(from[axis + 1..], index[axis + 1..]);
    PlaceOne(outer, 0);
    PlaceOne(Size(from[..axis]), 0);
    PlaceNested(outer, repeat, index[axis], inner, low);
    PlaceBound(index[axis], inner, low, repeat);
    PlaceParts(outer, Area(repeat, inner), Place(index[axis], inner, low));
    PlaceParts(Place(outer, repeat, index[axis]), inner, low);
  }

  lemma SameOutside(from: Shape, axis: nat, repeat: nat, index: seq<nat>)
    requires axis < |from| && from[axis] == 1 && Inside(from[axis := repeat], index)
    ensures var to := from[axis := repeat]; var clipped := Clip(from, index);
            && to[..axis] == from[..axis] && to[axis + 1..] == from[axis + 1..]
            && clipped[..axis] == index[..axis] && clipped[axis + 1..] == index[axis + 1..] && clipped[axis] == 0
            && Inside(from[axis + 1..], index[axis + 1..])
  {
    var to, clipped := from[axis := repeat], Clip(from, index);
    forall a | 0 <= a < |from| && a != axis
      ensures clipped[a] == index[a]
    {
      assert to[a] == from[a] && index[a] < to[a];
    }
  }
}
