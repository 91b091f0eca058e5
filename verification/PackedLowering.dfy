/** src/fhemamba/packed_program.py: lowering indexing, broadcasting, reduction and concatenation to packed nodes. */
module PackedLowering {
  import opened Wrappers
  import opened Sums
  import opened SlotVectors
  import opened TensorIndex
  import opened PackedNodes
  import opened PackedTensors
  import opened PackedRuns
  import opened LoweringRuns

  // ----- the program under construction

  /** A program's ciphertext size, refresh bound and format. */
  datatype Limits = Limits(slots: nat, bound: real, extended: bool)

  /** Every node computes its recorded value and stays inside its bound; all but feedback nodes are known to pass the reader. */
  ghost predicate NodeTrue(l: Limits, nodes: seq<Node>, values: seq<seq<real>>, bounds: seq<real>, i: nat)
    requires i < |nodes| == |values| == |bounds|
  {
    && Computes(nodes, values, i)
    && |values[i]| == nodes[i].size && 1 <= nodes[i].size <= l.slots
    && (nodes[i].operation.Feedback? || Readable(nodes[..i], nodes[i], l.slots, l.extended))
    && (nodes[i].operation.Feedback? ==> l.extended && nodes[i].operation.parent < i)
    && 0.0 < bounds[i] <= l.bound && Within(values[i], bounds[i])
  }

  ghost predicate NodesTrue(l: Limits, nodes: seq<Node>, values: seq<seq<real>>, bounds: seq<real>) {
    |nodes| == |values| == |bounds| && forall i :: 0 <= i < |nodes| ==> NodeTrue(l, nodes, values, bounds, i)
  }

  /** A client answer has the size of the value it answers. */
  predicate AnswerFits(nodes: seq<Node>, i: nat)
    requires i < |nodes|
  {
    nodes[i].operation.Feedback? ==> SizeOf(nodes[..i], nodes[i].operation.parent) == nodes[i].size
  }

  predicate AnswersFit(nodes: seq<Node>) {
    forall i :: 0 <= i < |nodes| ==> AnswerFits(nodes, i)
  }

  ghost predicate AllReadable(l: Limits, nodes: seq<Node>) {
    forall i :: 0 <= i < |nodes| ==> Readable(nodes[..i], nodes[i], l.slots, l.extended)
  }

  /** The reader accepts an emitted program if and only if every client answer has the size of the value it answers. */
  lemma ReadableExactly(l: Limits, nodes: seq<Node>, values: seq<seq<real>>, bounds: seq<real>)
    requires NodesTrue(l, nodes, values, bounds)
    ensures AllReadable(l, nodes) <==> AnswersFit(nodes)
  {
    hide Computes, Within;
    forall i | 0 <= i < |nodes|
      ensures Readable(nodes[..i], nodes[i], l.slots, l.extended) <==> AnswerFits(nodes, i)
    {
      hide NodesTrue;
      NodeAt(l, nodes, values, bounds, i);
    }
  }

  lemma NodeAt(l: Limits, nodes: seq<Node>, values: seq<seq<real>>, bounds: seq<real>, i: nat)
    requires NodesTrue(l, nodes, values, bounds) && i < |nodes|
    ensures NodeTrue(l, nodes, values, bounds, i)
  {
    hide NodeTrue;
  }

  lemma AnswersAppended(nodes: seq<Node>, node: Node)
    ensures AnswersFit(nodes + [node]) <==>
            AnswersFit(nodes) && (node.operation.Feedback? ==> SizeOf(nodes, node.operation.parent) == node.size)
  {
    hide SizeOf;
    var n, longer := |nodes|, nodes + [node];
    assert longer[..n] == nodes;
    assert AnswerFits(longer, n) <==> (node.operation.Feedback? ==> SizeOf(nodes, node.operation.parent) == node.size);
    forall i | 0 <= i < n
      ensures AnswerFits(longer, i) <==> AnswerFits(nodes, i)
    {
      assert longer[..i] == nodes[..i];
    }
  }

  /** A scalar answered by two numbers: emitted like any other node, refused by the reader. */
  lemma MismatchedAnswer()
    ensures var nodes := [Node(Input([0.0]), 1), Node(Feedback(0), 2)];
            && NodesTrue(Limits(2, 1.0, true), nodes, [[0.0], [0.0, 0.0]], [1.0, 1.0])
            && !AllReadable(Limits(2, 1.0, true), nodes)
  {
    var nodes, values, bounds, l := [Node(Input([0.0]), 1), Node(Feedback(0), 2)], [[0.0], [0.0, 0.0]], [1.0, 1.0], Limits(2, 1.0, true);
    assert nodes[..0] == [] && values[..0] == [];
    assert NodeTrue(l, nodes, values, bounds, 0);
    assert NodeTrue(l, nodes, values, bounds, 1);
    assert nodes[..1] == [nodes[0]];
    assert !AnswerFits(nodes, 1);
    ReadableExactly(l, nodes, values, bounds);
  }

  lemma Appended(l: Limits, nodes: seq<Node>, values: seq<seq<real>>, bounds: seq<real>, node: Node, value: seq<real>, limit: real)
    requires NodesTrue(l, nodes, values, bounds) && |value| == node.size && 1 <= node.size <= l.slots
    requires node.operation.Feedback? || value == Apply(nodes, node, values, [])
    requires node.operation.Feedback? || Readable(nodes, node, l.slots, l.extended)
    requires node.operation.Feedback? ==> l.extended && node.operation.parent < |nodes|
    requires 0.0 < limit <= l.bound && Within(value, limit)
    ensures NodesTrue(l, nodes + [node], values + [value], bounds + [limit])
  {
    hide Apply, Readable, Within;
    var n, nodes1, values1, bounds1 := |nodes|, nodes + [node], values + [value], bounds + [limit];
    forall i | 0 <= i < n + 1
      ensures NodeTrue(l, nodes1, values1, bounds1, i)
    {
      if i < n {
        assert NodeTrue(l, nodes, values, bounds, i);
        assert nodes1[..i] == nodes[..i] && values1[..i] == values[..i];
      } else {
        assert nodes1[..i] == nodes && values1[..i] == values;
      }
    }
  }

  /** min(bound, max(1, 8*most)) covers a value of magnitude at most `most`. */
  lemma BoundCovers(data: seq<real>, most: real, bound: real) returns (limit: real)
    requires Within(data, most) && Within(data, bound) && most >= 0.0 && bound > 0.0
    ensures limit == RefreshBound(most, bound)
    ensures 0.0 < limit <= bound && Within(data, limit)
  {
    limit := RefreshBound(most, bound);
  }

  /** min(bound, max(1, 8*most)) */
  function RefreshBound(most: real, bound: real): real {
    var eightfold := if 8.0 * most > 1.0 then 8.0 * most else 1.0;
    if eightfold < bound then eightfold else bound
  }

  class PackedProgram {
    const slots: nat
    const bound: real
    const extended: bool
    var nodes: seq<Node>
    var nodeBounds: seq<real>
    var linearWeights: map<nat, nat>
    ghost var values: seq<seq<real>>

    ghost predicate Valid()
      reads this
    {
      && 2 <= slots <= 32768 && IsPowerOfTwo(slots) && bound > 0.0
      && NodesTrue(Limits(slots, bound, extended), nodes, values, nodeBounds)
      && forall key :: key in linearWeights ==> linearWeights[key] < |nodes| && nodes[linearWeights[key]].operation.Linear?
    }

    /** The value belongs to this program. */
    ghost predicate Has(v: PackedValue)
      reads this
    {
      v.index < |nodes| == |values| && v.value.Valid() && v.value.data == values[v.index] && nodes[v.index].size == |v.value.data|
    }

    constructor (slots: nat, bound: real, extended: bool)
      requires 2 <= slots <= 32768 && IsPowerOfTwo(slots) && bound > 0.0
      ensures Valid() && nodes == [] && this.slots == slots && this.bound == bound && this.extended == extended
    {
      this.slots, this.bound, this.extended := slots, bound, extended;
      nodes, nodeBounds, linearWeights, values := [], [], map[], [];
    }

    /** Interpreting the emitted nodes gives back every recorded value. */
    lemma Faithful(client: nat -> seq<real>)
      requires Valid() && forall i: nat :: i < |nodes| && nodes[i].operation.Feedback? ==> client(i) == values[i]
      ensures Interpret(nodes, client) == values
    {
      forall i | 0 <= i < |nodes|
        ensures Computes(nodes, values, i)
      {
        assert NodeTrue(Limits(slots, bound, extended), nodes, values, nodeBounds, i);
      }
      Reproduced(nodes, values, client);
    }

    /** Records one node; None where the program raises because the value does not fit a ciphertext or the bound. */
    method Emit(operation: Operation, value: Tensor) returns (v: Option<PackedValue>)
      requires Valid() && value.Valid()
      requires operation.Feedback? || value.data == Apply(nodes, Node(operation, |value.data|), values, [])
      requires operation.Feedback? || (1 <= |value.data| <= slots ==> Readable(nodes, Node(operation, |value.data|), slots, extended))
      requires operation.Feedback? ==> extended && operation.parent < |nodes|
      modifies this`nodes, this`nodeBounds, this`values
      ensures Valid() && old(nodes) <= nodes && old(values) <= values
      ensures v.Some? <==> 1 <= |value.data| <= slots && Within(value.data, bound)
      ensures v.Some? ==> v.value == PackedValue(|old(nodes)|, value) && Has(v.value) && nodes == old(nodes) + [Node(operation, |value.data|)]
      ensures AnswersFit(old(nodes)) && (operation.Feedback? ==> SizeOf(old(nodes), operation.parent) == |value.data|) ==> AnswersFit(nodes)
      ensures v.Some? ==> exists k :: 0 <= k < |value.data| && Within(value.data, Magnitude(value.data[k]))
                            && nodeBounds == old(nodeBounds) + [RefreshBound(Magnitude(value.data[k]), bound)]
      ensures v.None? ==> nodeBounds == old(nodeBounds)
      ensures v.None? ==> nodes == old(nodes) && values == old(values)
    {
      hide Apply, Readable, NodesTrue, IsPowerOfTwo, Size, AnswersFit;
      SameLengths();
      AnswersAppended(nodes, Node(operation, |value.data|));
      if |value.data| < 1 || |value.data| > slots || exists k :: 0 <= k < |value.data| && Magnitude(value.data[k]) > bound {
        return None;
      }
      var most := Largest(value.data);
      var limit := RefreshBound(most, bound);
      ghost var _ := BoundCovers(value.data, most, bound);
      Appended(Limits(slots, bound, extended), nodes, values, nodeBounds, Node(operation, |value.data|), value.data, limit);
      v := Some(PackedValue(|nodes|, value));
      nodeBounds := nodeBounds + [limit];
      nodes := nodes + [Node(operation, |value.data|)];
      values := values + [value.data];
    }

    /** The values a node can hold. */
    predicate Encodable(data: seq<real>) {
      1 <= |data| <= slots && Within(data, bound)
    }

    lemma EncodableMeans(data: seq<real>)
      ensures Encodable(data) <==> 1 <= |data| <= slots && Within(data, bound)
    {
    }

    /** The reader accepts the program exactly while all client answers fit. */
    lemma ReaderAccepts()
      requires Valid()
      ensures AllReadable(Limits(slots, bound, extended), nodes) <==> AnswersFit(nodes)
    {
      ReadableExactly(Limits(slots, bound, extended), nodes, values, nodeBounds);
    }

    /** What is needed to speak of runs: all nodes are checked, and the program's values have the sizes of their nodes. */
    lemma RunsChecked()
      requires Valid()
      ensures Checked(nodes, slots, extended)
      ensures forall v: PackedValue :: Has(v) ==> Shaped(nodes, v)
    {
      hide Computes, Readable, Within;
      forall i | 0 <= i < |nodes|
        ensures IsGiven(nodes[i]) || Readable(nodes[..i], nodes[i], slots, extended)
      {
        hide NodesTrue;
        NodeAt(Limits(slots, bound, extended), nodes, values, nodeBounds, i);
      }
    }

    lemma SameLengths()
      requires Valid()
      ensures |values| == |nodeBounds| == |nodes|
    {
    }

    lemma Known(v: PackedValue)
      requires Valid() && Has(v)
      ensures 1 <= |v.value.data| == Size(v.value.shape) <= slots && Within(v.value.data, bound)
      ensures ValueOf(values, v.index) == v.value.data && SizeOf(nodes, v.index) == |v.value.data|
    {
      hide Computes, Readable;
      assert NodeTrue(Limits(slots, bound, extended), nodes, values, nodeBounds, v.index);
    }

    /** Values of earlier nodes stay. */
    twostate lemma StillHas(v: PackedValue)
      requires old(Has(v)) && old(nodes) <= nodes && old(values) <= values && |nodes| == |values|
      ensures Has(v)
    {
      assert nodes[v.index] == old(nodes)[v.index] && values[v.index] == old(values)[v.index];
    }

    /** An encrypted input or a public constant. */
    method AddSource(value: Tensor, encrypted: bool) returns (v: Option<PackedValue>)
      requires Valid() && value.Valid()
      modifies this`nodes, this`nodeBounds, this`values
      ensures Valid() && old(nodes) <= nodes && old(values) <= values
      ensures AnswersFit(old(nodes)) ==> AnswersFit(nodes)
      ensures v.Some? <==> 1 <= |value.data| <= slots && Within(value.data, bound)
      ensures v.Some? ==> Has(v.value) && v.value.value == value
      ensures v.Some? ==> nodes == old(nodes) + [Node(if encrypted then Input(value.data) else Public(value.data), |value.data|)]
      ensures v.Some? ==> SourceRuns(nodes, v.value, encrypted, value)
    {
      hide AnswersFit, NodesTrue, SourceRuns;
      EmittedSource(nodes, PackedValue(|nodes|, value), encrypted, value);
      v := Emit(if encrypted then Input(value.data) else Public(value.data), value);
    }

    /** The client's answer to a decrypted value; the recorded one is only the compiler's reference. */
    method ClientInput(hidden: PackedValue, reference: Tensor) returns (v: Option<PackedValue>)
      requires Valid() && Has(hidden) && reference.Valid()
      modifies this`nodes, this`nodeBounds, this`values
      ensures Valid() && old(nodes) <= nodes && old(values) <= values
      ensures v.Some? <==> extended && 1 <= |reference.data| <= slots && Within(reference.data, bound)
      ensures v.Some? ==> Has(v.value) && v.value.value == reference && nodes[v.value.index].operation == Feedback(hidden.index)
      ensures v.Some? ==> (Readable(old(nodes), nodes[v.value.index], slots, extended) <==> |reference.data| == |hidden.value.data|)
      ensures v.Some? && AnswersFit(old(nodes)) ==> (AnswersFit(nodes) <==> |reference.data| == |hidden.value.data|)
      ensures v.Some? ==> AnswerRuns(nodes, v.value)
    {
      hide NodesTrue, AnswersFit, AnswerRuns;
      EmittedAnswer(nodes, PackedValue(|nodes|, reference), hidden.index, |reference.data|);
      if !extended {
        return None;
      }
      AnswersAppended(nodes, Node(Feedback(hidden.index), |reference.data|));
      v := Emit(Feedback(hidden.index), reference);
    }

    /** Source positions, as numpy indexing of an arange gives them; the identity only reshapes. */
    method GatherFrom(v: PackedValue, mapping: Mapping) returns (r: Option<PackedValue>)
      requires Valid() && Has(v) && mapping.Valid() && InRange(mapping.entries, |v.value.data|)
      modifies this`nodes, this`nodeBounds, this`values
      ensures Valid() && old(nodes) <= nodes && old(values) <= values
      ensures AnswersFit(old(nodes)) ==> AnswersFit(nodes)
      ensures r.Some? ==> Has(r.value) && r.value.value == Tensor(mapping.shape, GatherValue(v.value.data, mapping.entries))
      ensures r.Some? <==> 1 <= |mapping.entries| <= slots
      ensures r.Some? ==> GatherRuns(nodes, r.value, v, mapping)
    {
      hide AnswersFit, NodesTrue, GatherRuns, Checked, Shaped;
      Known(v);
      RunsChecked();
      IndexKnown(v);
      if |mapping.entries| == |v.value.data| && forall k :: 0 <= k < |mapping.entries| ==> mapping.entries[k] == k {
        assert GatherValue(v.value.data, mapping.entries) == v.value.data;
        r := Some(PackedValue(v.index, Tensor(mapping.shape, v.value.data)));
        ReshapedRuns(nodes, slots, extended, r.value, v, mapping);
        return;
      }
      GatherBounded(v.value.data, mapping.entries, bound);
      ghost var result := Tensor(mapping.shape, GatherValue(v.value.data, mapping.entries));
      EmittedGather(nodes, PackedValue(|nodes|, result), v, mapping, |mapping.entries|);
      r := Emit(Gather(v.index, mapping.entries), Tensor(mapping.shape, GatherValue(v.value.data, mapping.entries)));
    }

    lemma IndexKnown(v: PackedValue)
      requires Has(v)
      ensures v.index < |nodes|
    {
    }

    /** Stretches a value to a shape of the same or higher rank, trailing axes first. */
    method Broadcast(v: PackedValue, shape: Shape) returns (r: Option<PackedValue>)
      requires Valid() && Has(v) && |v.value.shape| <= |shape|
      modifies this`nodes, this`nodeBounds, this`values
      ensures Valid() && old(nodes) <= nodes && old(values) <= values
      ensures AnswersFit(old(nodes)) ==> AnswersFit(nodes)
      ensures r.Some? ==> Has(r.value) && Stretches(Pad(v.value.shape, |shape|), shape)
                          && r.value.value == BroadcastTo(Padded(v.value, |shape|), shape)
      ensures r.Some? <==> Stretches(Pad(v.value.shape, |shape|), shape) && 1 <= Size(shape) <= slots
      ensures r.Some? ==> BroadcastRuns(nodes, r.value, v, shape)
    {
      hide AnswersFit, NodesTrue, BroadcastTo, Size, Stretches, Checked, Shaped, BroadcastRuns, StretchRuns, ReachRuns;
      RunsChecked();
      IndexKnown(v);
      var start := Padded(v.value, |shape|);
      if v.value.shape == shape {
        Known(v);
        assert Pad(shape, |shape|) == shape;
        BroadcastSame(start);
        SameBroadcasts(nodes, slots, extended, v);
        return Some(v);
      }
      var current := PackedValue(v.index, start);
      BroadcastSame(start);
      ReachStarts(nodes, slots, extended, current, v, shape);
      var axis := |shape|;
      while axis > 0
        invariant 0 <= axis <= |shape|
        invariant Valid() && old(nodes) <= nodes && old(values) <= values && Has(current)
        invariant AnswersFit(old(nodes)) ==> AnswersFit(nodes)
        invariant Reaches(start, current.value, shape, axis) && ReachRuns(nodes, current, v, shape, axis)
      {
        axis := axis - 1;
        var dimensions := current.value.shape;
        Skips(start, current.value, shape, axis);
        IndexKnown(current);
        ghost var earlier := nodes;
        if dimensions[axis] != shape[axis] {
          if dimensions[axis] != 1 {
            Blocked(start, current.value, shape, axis);
            return None;
          }
          var count := shape[axis];
          if count != 0 && !IsPowerOfTwo(count) && !extended {
            StretchesOn(start, current.value, shape, axis + 1);
            r := Reindex(current, shape);
            if r.Some? {
              Reindexed(start, current.value, shape, axis + 1);
              ReachReindexed(earlier, nodes, current, r.value, v, shape, axis + 1);
            }
            return;
          }
          StretchesOn(start, current.value, shape, axis + 1);
          SmallerStretch(current.value.shape, shape, axis);
          var next := Stretch(current, axis, count);
          if next.None? {
            return None;
          }
          Advances(start, current.value, shape, axis);
          ReachAdvances(earlier, nodes, current, next.value, v, shape, axis);
          current := next.value;
        } else {
          ReachSkips(nodes, current, v, shape, axis);
        }
      }
      ReachesEnd(start, current.value, shape);
      ReachEnds(nodes, current, v, shape);
      Known(current);
      return Some(current);
    }

    /** One repeat node: one axis of length 1 becomes `count` long. */
    method Stretch(v: PackedValue, axis: nat, count: nat) returns (r: Option<PackedValue>)
      requires Valid() && Has(v) && axis < |v.value.shape| && v.value.shape[axis] == 1
      requires extended || count == 0 || IsPowerOfTwo(count)
      modifies this`nodes, this`nodeBounds, this`values
      ensures Valid() && old(nodes) <= nodes && old(values) <= values
      ensures AnswersFit(old(nodes)) ==> AnswersFit(nodes)
      ensures Stretches(v.value.shape, v.value.shape[axis := count])
      ensures r.Some? ==> Has(r.value) && r.value.value == BroadcastTo(v.value, v.value.shape[axis := count])
      ensures r.Some? <==> 1 <= Size(v.value.shape[axis := count]) <= slots
      ensures r.Some? ==> StretchRuns(nodes, r.value, v, v.value.shape[axis := count])
    {
      hide AnswersFit, NodesTrue, RepeatValue, BroadcastTo, Size, Area, Checked, Shaped, StretchRuns;
      RunsChecked();
      Known(v);
      var shape := v.value.shape;
      var outer, inner := Size(shape[..axis]), Size(shape[axis + 1..]);
      RepeatIsBroadcast(v.value, axis, count);
      RepeatSize(shape, axis, count);
      RepeatReadable(outer, inner, count, |v.value.data|, slots);
      BroadcastBounded(v.value, shape[axis := count], bound);
      ghost var result := BroadcastTo(v.value, shape[axis := count]);
      EmittedRepeat(nodes, slots, extended, PackedValue(|nodes|, result), v, axis, count, |result.data|);
      r := Emit(Repeat(v.index, outer, inner, count), BroadcastTo(v.value, shape[axis := count]));
    }

    /** The gather that non-power-of-two repeats fall back to in the first format. */
    method Reindex(v: PackedValue, shape: Shape) returns (r: Option<PackedValue>)
      requires Valid() && Has(v)
      modifies this`nodes, this`nodeBounds, this`values
      ensures Valid() && old(nodes) <= nodes && old(values) <= values
      ensures AnswersFit(old(nodes)) ==> AnswersFit(nodes)
      ensures r.Some? ==> Has(r.value) && Stretches(v.value.shape, shape) && r.value.value == BroadcastTo(v.value, shape)
      ensures r.Some? <==> Stretches(v.value.shape, shape) && 1 <= Size(shape) <= slots
      ensures r.Some? ==> StretchRuns(nodes, r.value, v, shape)
    {
      hide AnswersFit, NodesTrue, Source, Size, Checked, Shaped, GatherRuns, StretchRuns;
      if !Stretches(v.value.shape, shape) {
        return None;
      }
      Known(v);
      var n := Size(shape);
      var entries: seq<int> := seq(n, k requires 0 <= k < n => Source(v.value.shape, shape, k));
      assert GatherValue(v.value.data, entries) == BroadcastTo(v.value, shape).data;
      label Emitting:
      r := GatherFrom(v, Mapping(shape, entries));
      if r.Some? {
        StillHas@Emitting(v) by {
          Lengths();
        }
        RunsChecked();
        GatherStretches(nodes, slots, extended, r.value, v, shape, Mapping(shape, entries));
      }
    }

    /** Sum or product of two packed values. */
    method Binary(left: PackedValue, right: PackedValue, add: bool) returns (r: Option<PackedValue>)
      requires Valid() && Has(left) && Has(right)
      modifies this`nodes, this`nodeBounds, this`values
      ensures Valid() && old(nodes) <= nodes && old(values) <= values
      ensures AnswersFit(old(nodes)) ==> AnswersFit(nodes)
      ensures r.Some? ==> Has(r.value) && IsCombination(r.value.value, add, left.value, right.value)
      ensures var c := Combination(add, left.value, right.value); r.Some? <==> c.Some? && Encodable(c.value.data)
      ensures r.Some? ==> CombineRuns(nodes, r.value, add, left, right)
    {
      hide AnswersFit, Valid, BroadcastTo, Pointwise, Padded, BroadcastShapes, Within, Size, BroadcastRuns, PairRuns, CombineRuns;
      var shape := BroadcastShapes(left.value.shape, right.value.shape);
      if shape.None? {
        return None;
      }
      RankOf(left.value.shape, right.value.shape);
      IndexKnown(left);
      IndexKnown(right);
      var x := Broadcast(left, shape.value);
      if x.None? {
        return None;
      }
      label Stretched:
      StillHas(right);
      ghost var first := nodes;
      IndexKnown(x.value);
      var y := Broadcast(right, shape.value);
      if y.None? {
        return None;
      }
      StillHas@Stretched(x.value);
      ghost var second := nodes;
      IndexKnown(y.value);
      r := EmitBinary(x.value, y.value, add);
      if r.Some? {
        CombinesRun(first, second, nodes, r.value, add, left, right, x.value, y.value, shape.value);
      }
    }

    method EmitBinary(x: PackedValue, y: PackedValue, add: bool) returns (r: Option<PackedValue>)
      requires Valid() && Has(x) && Has(y) && x.value.shape == y.value.shape
      modifies this`nodes, this`nodeBounds, this`values
      ensures Valid() && old(nodes) <= nodes && old(values) <= values
      ensures AnswersFit(old(nodes)) ==> AnswersFit(nodes)
      ensures r.Some? ==> Has(r.value) && r.value.value == Combined(add, x.value, y.value)
      ensures r.Some? <==> Encodable(Combined(add, x.value, y.value).data)
      ensures r.Some? ==> PairRuns(nodes, r.value, add, x, y)
    {
      hide AnswersFit, NodesTrue, Pointwise, Checked, Shaped, PairRuns;
      RunsChecked();
      Known(x);
      Known(y);
      PointwiseSize(add, x.value.data, y.value.data);
      ghost var result := Combined(add, x.value, y.value);
      EmittedPair(nodes, slots, extended, PackedValue(|nodes|, result), add, x, y, |result.data|);
      r := Emit(if add then Add(x.index, y.index) else Mul(x.index, y.index), Combined(add, x.value, y.value));
    }

    /** Sum or product with a public tensor. */
    method BinaryPlain(left: PackedValue, right: Tensor, add: bool) returns (r: Option<PackedValue>)
      requires Valid() && Has(left) && right.Valid()
      modifies this`nodes, this`nodeBounds, this`values
      ensures Valid() && old(nodes) <= nodes && old(values) <= values
      ensures AnswersFit(old(nodes)) ==> AnswersFit(nodes)
      ensures r.Some? ==> Has(r.value) && IsCombination(r.value.value, add, left.value, right)
      ensures var c := Combination(add, left.value, right); r.Some? <==> c.Some? && Encodable(c.value.data)
      ensures r.Some? ==> PlainRuns(nodes, r.value, add, left, right)
    {
      hide AnswersFit, NodesTrue, BroadcastTo, Pointwise, Padded, BroadcastShapes, Within, Size, BroadcastRuns, PlainRuns;
      IndexKnown(left);
      var shape := BroadcastShapes(left.value.shape, right.shape);
      if shape.None? {
        return None;
      }
      RankOf(left.value.shape, right.shape);
      var x := Broadcast(left, shape.value);
      if x.None? {
        return None;
      }
      Known(x.value);
      var constants := BroadcastTo(Padded(right, |shape.value|), shape.value);
      var value := Combined(add, x.value.value, constants);
      PointwiseSize(add, x.value.value.data, constants.data);
      IndexKnown(x.value);
      PlainsRun(nodes, PackedValue(|nodes|, value), add, left, x.value, right, shape.value, |value.data|);
      r := Emit(if add then AddPlain(x.value.index, constants.data) else MulPlain(x.value.index, constants.data), value);
    }

    /** The last axis is a power of two long, or may be padded to one inside a ciphertext. */
    predicate Summable(shape: Shape) {
      var n := |shape| - 1;
      n >= 0 && (IsPowerOfTwo(shape[n]) || (extended && Area(Size(shape[..n]), NextPower(shape[n], 1)) <= slots))
    }

    /** Sum over the last axis; other widths than powers of two are padded with zeros first. */
    method SumLast(x: PackedValue) returns (r: Option<PackedValue>)
      requires Valid() && Has(x)
      modifies this`nodes, this`nodeBounds, this`values
      ensures Valid() && old(nodes) <= nodes && old(values) <= values
      ensures AnswersFit(old(nodes)) ==> AnswersFit(nodes)
      ensures r.Some? ==> Has(r.value) && IsRowSum(r.value.value, x.value)
      ensures r.Some? <==> Summable(x.value.shape) && Within(SumValue(x.value.data, x.value.shape[|x.value.shape| - 1]), bound)
      ensures r.Some? ==> RowSumRuns(nodes, r.value, x)
    {
      hide AnswersFit, Checked, Shaped, RowSumRuns, PadRuns, NodesTrue, Size, Area, SumValue, PaddedRows, ScatterValue, IsRowSum, Quotient, Remainder;
      var rank := |x.value.shape|;
      if rank == 0 {
        return None;
      }
      Known(x);
      RunsChecked();
      IndexKnown(x);
      var front, width := x.value.shape[..rank - 1], x.value.shape[rank - 1];
      SizeLast(x.value.shape);
      AreaFactors(Size(front), width);
      if IsPowerOfTwo(width) {
        r := SumPowerOfTwo(x, width);
        RowSumIs(x.value);
        return;
      }
      if !extended {
        return None;
      }
      var padded := NextPower(width, 1);
      var rows := PaddedTensor(x.value, padded);
      PadRows(x.value.data, Size(front), width, padded);
      PadBounded(x.value.data, Size(front), width, padded, bound);
      AreaMonotone(Size(front), width, Size(front), padded);
      EmittedPad(nodes, slots, extended, PackedValue(|nodes|, rows), x, Size(front), width, padded);
      var spread := Emit(Scatter(x.index, RowTargets(Size(front), width, padded)), rows);
      if spread.None? {
        return None;
      }
      ghost var first := nodes;
      Known(spread.value);
      IndexKnown(spread.value);
      SizeLast(rows.shape);
      AreaFactors(Size(front), padded);
      assert rows.shape[..rank - 1] == front;
      r := SumPowerOfTwo(spread.value, padded);
      SumOfPadded(x.value.data, Size(front), width, padded);
      RowSumIs(x.value);
      if r.Some? {
        PaddedSums(first, nodes, r.value, x, spread.value, Size(front), width, padded);
      }
    }

    method SumPowerOfTwo(x: PackedValue, width: nat) returns (r: Option<PackedValue>)
      requires Valid() && Has(x) && |x.value.shape| > 0 && width == x.value.shape[|x.value.shape| - 1]
      requires IsPowerOfTwo(width) && 1 <= width <= slots
      modifies this`nodes, this`nodeBounds, this`values
      ensures Valid() && old(nodes) <= nodes && old(values) <= values
      ensures AnswersFit(old(nodes)) ==> AnswersFit(nodes)
      ensures r.Some? ==> Has(r.value) && r.value.value.shape == LastAxis(x.value.shape, 1)
                          && r.value.value.data == SumValue(x.value.data, width)
      ensures r.Some? <==> Within(SumValue(x.value.data, width), bound)
      ensures r.Some? ==> RowSumRuns(nodes, r.value, x)
    {
      hide *;
      Known(x);
      var rows := LastAxisSize(x.value.shape, 1);
      AreaFactors(rows, width);
      SumSize(x.value.data, rows, width);
      PlaceOne(rows, 0);
      HasMeans(x);
      SumReadable(nodes, values, x.index, x.value.data, rows, width, slots, extended);
      ghost var result := Tensor(LastAxis(x.value.shape, 1), SumValue(x.value.data, width));
      EmittedSum(nodes, PackedValue(|nodes|, result), x, |result.data|);
      r := Emit(SumGroups(x.index, width), Tensor(LastAxis(x.value.shape, 1), SumValue(x.value.data, width)));
    }

    lemma HasMeans(x: PackedValue)
      requires Has(x)
      ensures x.index < |nodes| && x.value.Valid() && |x.value.data| == Size(x.value.shape)
    {
    }

    /** Joins values along an axis: one scatter each, added up. */
    method Concatenate(parts: seq<PackedValue>, axis: nat) returns (r: Option<PackedValue>)
      requires Valid() && |parts| > 0 && forall k :: 0 <= k < |parts| ==> Has(parts[k])
      requires Joinable(Tensors(parts), axis)
      modifies this`nodes, this`nodeBounds, this`values
      ensures Valid() && old(nodes) <= nodes && old(values) <= values
      ensures AnswersFit(old(nodes)) ==> AnswersFit(nodes)
      ensures r.Some? ==> Has(r.value) && IsConcatenation(r.value.value, Tensors(parts), axis)
      ensures r.Some? <==> Size(JoinedShape(Tensors(parts), axis)) <= slots
      ensures r.Some? ==> JoinRuns(nodes, r.value, parts, axis)
    {
      hide Checked, AllShaped, AxisBelow, PartRuns, JoinedRuns, JoinRuns, CombineRuns, AnswersFit, Valid, Within, Joinable, IsConcatenation, Size, JoinedSoFar, JoinedShape, IsCombination, Tensors, Start;
      var tensors := Tensors(parts);
      var shape := JoinedShape(tensors, axis);
      Ranks(tensors, axis);
      AllWithin(parts);
      r := None;
      for k := 0 to |parts|
        invariant Valid() && old(nodes) <= nodes && old(values) <= values && |nodes| == |values|
        invariant AnswersFit(old(nodes)) ==> AnswersFit(nodes)
        invariant forall j :: 0 <= j < |parts| ==> Has(parts[j])
        invariant k > 0 ==> r.Some? && Size(shape) <= slots && Has(r.value) && JoinedSoFar(r.value.value, tensors[..k], axis, shape)
        invariant k > 0 ==> JoinedRuns(nodes, r.value, parts, k, axis, shape)
      {
        label Before:
        ghost var first := nodes;
        PartsShaped(parts);
        if k > 0 {
          IndexKnown(r.value);
        }
        var offset := Start(tensors[..k], axis);
        PartFits(tensors, axis, k);
        var piece := ScatterPart(parts[k], shape, axis, offset);
        if piece.None? {
          return None;
        }
        Lengths();
        KeepAll@Before(parts);
        ghost var second := nodes;
        PartsShaped(parts);
        IndexKnown(piece.value);
        if k == 0 {
          StartsAtZero(tensors, axis);
          FirstJoined(nodes, slots, extended, piece.value, parts, axis, shape);
          FirstPart(tensors, axis, shape, piece.value.value);
          r := piece;
        } else {
          StillHas@Before(r.value);
          SumBounded(tensors, axis, shape, k, r.value.value, piece.value.value, bound);
          Known(piece.value);
          label Added:
          var sum := Binary(r.value, piece.value, true);
          if sum.None? {
            return None;
          }
          Lengths();
          KeepAll@Added(parts);
          PartsShaped(parts);
          AxesBelow(tensors, axis, k);
          NextJoined(first, second, nodes, slots, extended, r.value, piece.value, sum.value, parts, k, axis, shape);
          NextPart(tensors, axis, shape, k, r.value.value, piece.value.value, sum.value.value);
          r := sum;
        }
      }
      PartsShaped(parts);
      AllJoined(nodes, slots, extended, r.value, parts, axis, shape);
      assert tensors[..|parts|] == tensors;
      JoinedAll(r.value.value, tensors, axis, shape);
    }

    lemma PartsShaped(parts: seq<PackedValue>)
      requires Valid() && forall k :: 0 <= k < |parts| ==> Has(parts[k])
      ensures Checked(nodes, slots, extended) && AllShaped(nodes, parts)
    {
      hide Checked, Shaped, Valid;
      RunsChecked();
    }

    lemma Lengths()
      requires Valid()
      ensures |nodes| == |values|
    {
    }

    /** One part at its place in the whole, zeros elsewhere. */
    method ScatterPart(part: PackedValue, shape: Shape, axis: nat, start: nat) returns (r: Option<PackedValue>)
      requires Valid() && Has(part) && PartOf(part.value.shape, shape, axis, start)
      modifies this`nodes, this`nodeBounds, this`values
      ensures Valid() && old(nodes) <= nodes && old(values) <= values
      ensures AnswersFit(old(nodes)) ==> AnswersFit(nodes)
      ensures r.Some? ==> Has(r.value) && r.value.value.shape == shape
      ensures r.Some? <==> Size(shape) <= slots
      ensures r.Some? ==> PartRuns(nodes, r.value, part, shape, axis, start)
      ensures r.Some? ==> forall p :: 0 <= p < Size(shape) ==>
                r.value.value.data[p] == OnePart(part.value, axis, start, Unflatten(shape, p))
    {
      hide AnswersFit, NodesTrue, Size, ScatterValue, OnePart, Unflatten, Checked, Shaped, PartRuns;
      Known(part);
      RunsChecked();
      PartScatters(part.value, shape, axis, start);
      var targets := PartTargets(part.value.shape, shape, axis, start);
      assert 0 <= targets[0] < Size(shape);
      ScatterBounded(part.value.data, targets, Size(shape), bound);
      ghost var result := Tensor(shape, ScatterValue(part.value.data, targets, Size(shape)));
      EmittedPart(nodes, slots, extended, PackedValue(|nodes|, result), part, shape, axis, start);
      r := Emit(Scatter(part.index, targets), Tensor(shape, ScatterValue(part.value.data, targets, Size(shape))));
    }

    lemma AllWithin(parts: seq<PackedValue>)
      requires Valid() && forall k :: 0 <= k < |parts| ==> Has(parts[k])
      ensures bound >= 0.0 && forall k :: 0 <= k < |parts| ==> Within(Tensors(parts)[k].data, bound)
    {
      hide NodesTrue;
      forall k | 0 <= k < |parts|
        ensures Within(parts[k].value.data, bound)
      {
        Known(parts[k]);
      }
    }

    twostate lemma KeepAll(parts: seq<PackedValue>)
      requires forall k :: 0 <= k < |parts| ==> old(Has(parts[k]))
      requires old(nodes) <= nodes && old(values) <= values && |nodes| == |values|
      ensures forall k :: 0 <= k < |parts| ==> Has(parts[k])
    {
      forall k | 0 <= k < |parts|
        ensures Has(parts[k])
      {
        StillHas(parts[k]);
      }
    }

    /** x @ weight.T for a single row; a table that was used before is referred to. */
    method LinearMap(x: PackedValue, key: nat, weights: seq<real>, rows: nat, columns: nat) returns (r: Option<PackedValue>)
      requires Valid() && Has(x) && |weights| == Area(rows, columns)
      requires key in linearWeights ==> SizeOf(nodes, linearWeights[key]) == rows && WeightsOf(nodes, linearWeights[key]) == weights
      modifies this
      ensures Valid() && old(nodes) <= nodes && old(values) <= values
      ensures AnswersFit(old(nodes)) ==> AnswersFit(nodes)
      ensures r.Some? <==> |x.value.data| == columns && |x.value.shape| > 0 && x.value.shape[|x.value.shape| - 1] == columns
                           && Encodable(LinearValue(x.value.data, weights, rows))
      ensures r.Some? ==> Has(r.value) && r.value.value.shape == LastAxis(x.value.shape, rows)
                          && r.value.value.data == LinearValue(x.value.data, weights, rows)
      ensures r.Some? ==> RowRuns(nodes, r.value, x, weights, rows)
      ensures r.Some? ==> nodes[r.value.index].operation.LinearRef? == (extended && key in old(linearWeights))
      ensures r.Some? && extended && key !in old(linearWeights) ==>
                linearWeights == old(linearWeights)[key := r.value.index] && WeightsOf(nodes, r.value.index) == weights
                && nodes[r.value.index].size == rows
      ensures r.None? || !extended || key in old(linearWeights) ==> linearWeights == old(linearWeights)
    {
      hide LinearValue, Area, Size, Valid, AnswersFit, RowRuns;
      var rank := |x.value.shape|;
      if |x.value.data| != columns || rank == 0 || x.value.shape[rank - 1] != columns {
        return None;
      }
      if extended && key in linearWeights {
        TableKnown(key);
        r := EmitLinear(x, LinearRef(x.index, linearWeights[key]), weights, rows, columns);
        return;
      }
      r := EmitLinear(x, Linear(x.index, weights), weights, rows, columns);
      if r.Some? && extended {
        assert nodes[r.value.index] == Node(Linear(x.index, weights), rows);
        Remember(key, r.value.index);
      }
    }

    lemma TableKnown(key: nat)
      requires Valid() && key in linearWeights
      ensures linearWeights[key] < |nodes| && nodes[linearWeights[key]].operation.Linear?
    {
    }

    method Remember(key: nat, index: nat)
      requires Valid() && index < |nodes| && nodes[index].operation.Linear?
      modifies this`linearWeights
      ensures Valid() && linearWeights == old(linearWeights)[key := index]
    {
      hide AnswersFit, NodesTrue, IsPowerOfTwo;
      linearWeights := linearWeights[key := index];
    }

    method EmitLinear(x: PackedValue, operation: Operation, weights: seq<real>, rows: nat, columns: nat) returns (r: Option<PackedValue>)
      requires Valid() && Has(x) && |weights| == Area(rows, columns)
      requires |x.value.data| == columns && |x.value.shape| > 0 && x.value.shape[|x.value.shape| - 1] == columns
      requires operation == Linear(x.index, weights)
               || (extended && operation.LinearRef? && operation.parent == x.index && operation.owner < |nodes|
                   && nodes[operation.owner].operation.Linear? && nodes[operation.owner].size == rows
                   && WeightsOf(nodes, operation.owner) == weights)
      modifies this`nodes, this`nodeBounds, this`values
      ensures Valid() && old(nodes) <= nodes && old(values) <= values
      ensures AnswersFit(old(nodes)) ==> AnswersFit(nodes)
      ensures r.Some? ==> Has(r.value) && r.value.value.shape == LastAxis(x.value.shape, rows)
                          && r.value.value.data == LinearValue(x.value.data, weights, rows)
      ensures r.Some? ==> RowRuns(nodes, r.value, x, weights, rows)
      ensures r.Some? ==> r.value.index == |old(nodes)| && nodes == old(nodes) + [Node(operation, rows)]
      ensures r.Some? <==> Encodable(LinearValue(x.value.data, weights, rows))
    {
      hide *;
      Known(x);
      HasMeans(x);
      OneRow(x.value.shape, columns);
      var one := LastAxisSize(x.value.shape, rows);
      PlaceOne(rows, 0);
      EncodableMeans(LinearValue(x.value.data, weights, rows));
      LinearReadable(nodes, values, operation, x.index, x.value.data, weights, rows, slots, extended);
      ghost var result := Tensor(LastAxis(x.value.shape, rows), LinearValue(x.value.data, weights, rows));
      EmittedLinear(nodes, PackedValue(|nodes|, result), x, operation, weights, rows);
      r := Emit(operation, Tensor(LastAxis(x.value.shape, rows), LinearValue(x.value.data, weights, rows)));
    }
  }
}
