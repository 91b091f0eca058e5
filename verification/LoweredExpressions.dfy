/** Whole computations built from the operations of src/fhemamba/packed_program.py, and what their nodes compute on any data. */
module LoweredExpressions {
  import opened Wrappers
  import opened TensorIndex
  import opened PackedNodes
  import opened PackedTensors
  import opened PackedRuns
  import opened LoweringRuns
  import opened PackedLowering

  /** A public matrix with its key. */
  datatype Table = Table(weights: seq<real>, rows: nat, columns: nat)

  /** Leaves are numbered values; keys name tables. */
  datatype Expression =
    | Leaf(k: nat)
    | Pair(add: bool, left: Expression, right: Expression)
    | Plain(add: bool, operand: Expression, constant: Tensor)
    | Gathered(operand: Expression, mapping: Mapping)
    | RowSums(operand: Expression)
    | Joined(left: Expression, right: Expression, axis: nat)
    | Row(operand: Expression, key: nat)

  /** The tensor that numpy computes for an expression over the leaves. */
  ghost predicate Means(e: Expression, tables: nat -> Table, leaves: seq<Tensor>, t: Tensor) {
    match e
    case Leaf(k) => k < |leaves| && t == leaves[k]
    case Pair(add, left, right) =>
      exists a: Tensor, b: Tensor :: Means(left, tables, leaves, a) && Means(right, tables, leaves, b) && a.Valid() && b.Valid()
                                     && IsCombination(t, add, a, b)
    case Plain(add, operand, constant) =>
      exists a: Tensor :: Means(operand, tables, leaves, a) && a.Valid() && constant.Valid() && IsCombination(t, add, a, constant)
    case Gathered(operand, mapping) =>
      exists a: Tensor :: Means(operand, tables, leaves, a) && t == Tensor(mapping.shape, GatherValue(a.data, mapping.entries))
    case RowSums(operand) =>
      exists a: Tensor :: Means(operand, tables, leaves, a) && IsRowSum(t, a)
    case Joined(left, right, axis) =>
      exists a: Tensor, b: Tensor :: Means(left, tables, leaves, a) && Means(right, tables, leaves, b) && IsConcatenation(t, [a, b], axis)
    case Row(operand, key) =>
      exists a: Tensor :: Means(operand, tables, leaves, a) && |a.shape| > 0
                          && t == Tensor(LastAxis(a.shape, tables(key).rows), LinearValue(a.data, tables(key).weights, tables(key).rows))
  }

  /** Every run computes the expression of what it gives the leaves. */
  ghost predicate ExpressionRuns(nodes: seq<Node>, r: PackedValue, e: Expression, tables: nat -> Table, sources: seq<PackedValue>) {
    forall given: nat -> seq<real> | Suits(nodes, given) ::
      Means(e, tables, Denotes(nodes, given, sources), Denote(nodes, given, r))
  }

  lemma ExpressionKept(nodes: seq<Node>, longer: seq<Node>, r: PackedValue, e: Expression, tables: nat -> Table, sources: seq<PackedValue>,
                       given: nat -> seq<real>)
    requires nodes <= longer && ExpressionRuns(nodes, r, e, tables, sources) && r.index < |nodes| && AllShaped(nodes, sources)
    requires Suits(longer, given)
    ensures Means(e, tables, Denotes(longer, given, sources), Denote(longer, given, r))
  {
    hide Means, Denote, Suits, Denotes;
    DenotesKept(nodes, longer, given, sources);
    DenoteKept(nodes, longer, given, r);
  }

  lemma LeafRuns(nodes: seq<Node>, tables: nat -> Table, sources: seq<PackedValue>, k: nat)
    requires k < |sources|
    ensures ExpressionRuns(nodes, sources[k], Leaf(k), tables, sources)
  {
    hide Denote, Suits;
  }

  lemma PairedRuns(first: seq<Node>, second: seq<Node>, last: seq<Node>, r: PackedValue, e: Expression, x: PackedValue, y: PackedValue,
                   tables: nat -> Table, sources: seq<PackedValue>)
    requires e.Pair? && first <= second <= last && AllShaped(first, sources) && AllShaped(second, sources)
    requires x.index < |first| && y.index < |second|
    requires ExpressionRuns(first, x, e.left, tables, sources) && ExpressionRuns(second, y, e.right, tables, sources)
    requires CombineRuns(last, r, e.add, x, y)
    ensures ExpressionRuns(last, r, e, tables, sources)
  {
    hide Denote, Suits, ExpressionRuns, Denotes, IsCombination, AllShaped;
    forall given: nat -> seq<real> | Suits(last, given)
      ensures Means(e, tables, Denotes(last, given, sources), Denote(last, given, r))
    {
      ExpressionKept(first, last, x, e.left, tables, sources, given);
      ExpressionKept(second, last, y, e.right, tables, sources, given);
    }
    AllMean(last, r, e, tables, sources);
  }

  lemma AllMean(nodes: seq<Node>, r: PackedValue, e: Expression, tables: nat -> Table, sources: seq<PackedValue>)
    requires forall given: nat -> seq<real> | Suits(nodes, given) ::
               Means(e, tables, Denotes(nodes, given, sources), Denote(nodes, given, r))
    ensures ExpressionRuns(nodes, r, e, tables, sources)
  {
    hide Denote, Suits, Means, Denotes;
  }

  lemma PlainedRuns(first: seq<Node>, last: seq<Node>, r: PackedValue, e: Expression, x: PackedValue, tables: nat -> Table, sources: seq<PackedValue>)
    requires e.Plain? && first <= last && AllShaped(first, sources) && x.index < |first|
    requires ExpressionRuns(first, x, e.operand, tables, sources) && PlainRuns(last, r, e.add, x, e.constant)
    ensures ExpressionRuns(last, r, e, tables, sources)
  {
    hide Denote, Suits, ExpressionRuns, Denotes, IsCombination, AllShaped;
    forall given: nat -> seq<real> | Suits(last, given)
      ensures Means(e, tables, Denotes(last, given, sources), Denote(last, given, r))
    {
      ExpressionKept(first, last, x, e.operand, tables, sources, given);
    }
    AllMean(last, r, e, tables, sources);
  }

  lemma GatheredRuns(first: seq<Node>, last: seq<Node>, r: PackedValue, e: Expression, x: PackedValue, tables: nat -> Table, sources: seq<PackedValue>)
    requires e.Gathered? && first <= last && AllShaped(first, sources) && x.index < |first|
    requires ExpressionRuns(first, x, e.operand, tables, sources) && GatherRuns(last, r, x, e.mapping)
    ensures ExpressionRuns(last, r, e, tables, sources)
  {
    hide Suits, ExpressionRuns, Denotes, Run, AllShaped, GatherValue;
    forall given: nat -> seq<real> | Suits(last, given)
      ensures Means(e, tables, Denotes(last, given, sources), Denote(last, given, r))
    {
      ExpressionKept(first, last, x, e.operand, tables, sources, given);
    }
    AllMean(last, r, e, tables, sources);
  }

  lemma SummedRuns(first: seq<Node>, last: seq<Node>, r: PackedValue, e: Expression, x: PackedValue, tables: nat -> Table, sources: seq<PackedValue>)
    requires e.RowSums? && first <= last && AllShaped(first, sources) && x.index < |first|
    requires ExpressionRuns(first, x, e.operand, tables, sources) && RowSumRuns(last, r, x)
    ensures ExpressionRuns(last, r, e, tables, sources)
  {
    hide Denote, Suits, ExpressionRuns, Denotes, IsRowSum, AllShaped;
    forall given: nat -> seq<real> | Suits(last, given)
      ensures Means(e, tables, Denotes(last, given, sources), Denote(last, given, r))
    {
      ExpressionKept(first, last, x, e.operand, tables, sources, given);
    }
    AllMean(last, r, e, tables, sources);
  }

  lemma JoinedBothRuns(first: seq<Node>, second: seq<Node>, last: seq<Node>, r: PackedValue, e: Expression, x: PackedValue, y: PackedValue,
                       tables: nat -> Table, sources: seq<PackedValue>)
    requires e.Joined? && first <= second <= last && AllShaped(first, sources) && AllShaped(second, sources)
    requires x.index < |first| && y.index < |second|
    requires ExpressionRuns(first, x, e.left, tables, sources) && ExpressionRuns(second, y, e.right, tables, sources)
    requires JoinRuns(last, r, [x, y], e.axis)
    ensures ExpressionRuns(last, r, e, tables, sources)
  {
    hide Denote, Suits, ExpressionRuns, IsConcatenation, AllShaped, Means;
    forall given: nat -> seq<real> | Suits(last, given)
      ensures Means(e, tables, Denotes(last, given, sources), Denote(last, given, r))
    {
      ExpressionKept(first, last, x, e.left, tables, sources, given);
      ExpressionKept(second, last, y, e.right, tables, sources, given);
      assert Denotes(last, given, [x, y]) == [Denote(last, given, x), Denote(last, given, y)];
      MeansJoined(e, tables, Denotes(last, given, sources), Denote(last, given, r), Denote(last, given, x), Denote(last, given, y));
    }
    AllMean(last, r, e, tables, sources);
  }

  lemma MeansJoined(e: Expression, tables: nat -> Table, leaves: seq<Tensor>, t: Tensor, a: Tensor, b: Tensor)
    requires e.Joined? && Means(e.left, tables, leaves, a) && Means(e.right, tables, leaves, b) && IsConcatenation(t, [a, b], e.axis)
    ensures Means(e, tables, leaves, t)
  {
    hide IsConcatenation;
  }

  lemma RowedRuns(first: seq<Node>, last: seq<Node>, r: PackedValue, e: Expression, x: PackedValue, tables: nat -> Table, sources: seq<PackedValue>)
    requires e.Row? && first <= last && AllShaped(first, sources) && x.index < |first|
    requires ExpressionRuns(first, x, e.operand, tables, sources) && RowRuns(last, r, x, tables(e.key).weights, tables(e.key).rows)
    ensures ExpressionRuns(last, r, e, tables, sources)
  {
    hide Suits, ExpressionRuns, Denotes, Run, AllShaped, LinearValue;
    forall given: nat -> seq<real> | Suits(last, given)
      ensures Means(e, tables, Denotes(last, given, sources), Denote(last, given, r))
    {
      ExpressionKept(first, last, x, e.operand, tables, sources, given);
    }
    AllMean(last, r, e, tables, sources);
  }

  // ----- emitting an expression

  /** Every table used before is the one its key names. */
  ghost predicate TablesKnown(nodes: seq<Node>, owners: map<nat, nat>, tables: nat -> Table) {
    forall key :: key in owners ==>
      owners[key] < |nodes| && SizeOf(nodes, owners[key]) == tables(key).rows && WeightsOf(nodes, owners[key]) == tables(key).weights
  }

  lemma TablesKept(nodes: seq<Node>, longer: seq<Node>, owners: map<nat, nat>, tables: nat -> Table)
    requires nodes <= longer && TablesKnown(nodes, owners, tables)
    ensures TablesKnown(longer, owners, tables)
  {
  }

  lemma TableAdded(nodes: seq<Node>, longer: seq<Node>, owners: map<nat, nat>, tables: nat -> Table, key: nat, owner: nat)
    requires nodes <= longer && TablesKnown(nodes, owners, tables) && owner < |longer|
    requires longer[owner].size == tables(key).rows && WeightsOf(longer, owner) == tables(key).weights
    ensures TablesKnown(longer, owners[key := owner], tables)
  {
  }

  /** The value is one of these. */
  ghost predicate Held(nodes: seq<Node>, values: seq<seq<real>>, v: PackedValue) {
    v.index < |nodes| == |values| && v.value.Valid() && v.value.data == values[v.index] && nodes[v.index].size == |v.value.data|
  }

  ghost predicate AllHeld(nodes: seq<Node>, values: seq<seq<real>>, vs: seq<PackedValue>) {
    forall k :: 0 <= k < |vs| ==> Held(nodes, values, vs[k])
  }

  ghost predicate Lowerable(p: PackedProgram, tables: nat -> Table, sources: seq<PackedValue>)
    reads p
  {
    p.Valid() && TablesKnown(p.nodes, p.linearWeights, tables) && AllHeld(p.nodes, p.values, sources)
  }

  lemma HasHeld(p: PackedProgram, v: PackedValue)
    ensures p.Has(v) <==> Held(p.nodes, p.values, v)
  {
  }

  lemma HeldKept(nodes: seq<Node>, values: seq<seq<real>>, longer: seq<Node>, more: seq<seq<real>>, v: PackedValue)
    requires Held(nodes, values, v) && nodes <= longer && values <= more && |longer| == |more|
    ensures Held(longer, more, v)
  {
    assert longer[v.index] == nodes[v.index] && more[v.index] == values[v.index];
  }

  lemma StillLowerable(p: PackedProgram, tables: nat -> Table, sources: seq<PackedValue>, nodes: seq<Node>, values: seq<seq<real>>)
    requires p.Valid() && nodes <= p.nodes && values <= p.values && AllHeld(nodes, values, sources)
    requires TablesKnown(p.nodes, p.linearWeights, tables)
    ensures Lowerable(p, tables, sources)
  {
    hide TablesKnown, Held;
    p.Lengths();
    forall k | 0 <= k < |sources|
      ensures Held(p.nodes, p.values, sources[k])
    {
      HeldKept(nodes, values, p.nodes, p.values, sources[k]);
    }
  }

  lemma LowerableParts(p: PackedProgram, tables: nat -> Table, sources: seq<PackedValue>)
    requires Lowerable(p, tables, sources)
    ensures p.Valid() && TablesKnown(p.nodes, p.linearWeights, tables) && AllHeld(p.nodes, p.values, sources)
    ensures AllShaped(p.nodes, sources) && |p.nodes| == |p.values|
  {
    hide TablesKnown;
    p.Lengths();
  }

  lemma HeldIndex(nodes: seq<Node>, values: seq<seq<real>>, v: PackedValue)
    requires Held(nodes, values, v)
    ensures v.index < |nodes| && v.value.Valid()
  {
  }

  /** Emits the nodes of an expression; None where one of its operations refuses. On any data they compute the expression. */
  method Lower(p: PackedProgram, e: Expression, tables: nat -> Table, sources: seq<PackedValue>) returns (r: Option<PackedValue>)
    requires Lowerable(p, tables, sources)
    modifies p
    ensures Lowerable(p, tables, sources) && old(p.nodes) <= p.nodes && old(p.values) <= p.values
    ensures r.Some? ==> Held(p.nodes, p.values, r.value) && ExpressionRuns(p.nodes, r.value, e, tables, sources)
    decreases e
  {
    hide *;
    match e {
      case Leaf(k) =>
        if k >= |sources| {
          return None;
        }
        LowerableParts(p, tables, sources);
        SourceHeld(p.nodes, p.values, sources, k);
        LeafRuns(p.nodes, tables, sources, k);
        return Some(sources[k]);
      case Pair(add, left, right) =>
        r := LowerTwo(p, e, left, right, tables, sources);
      case Joined(left, right, axis) =>
        r := LowerTwo(p, e, left, right, tables, sources);
      case Plain(add, operand, constant) =>
        r := LowerOne(p, e, operand, tables, sources);
      case Gathered(operand, mapping) =>
        r := LowerOne(p, e, operand, tables, sources);
      case RowSums(operand) =>
        r := LowerOne(p, e, operand, tables, sources);
      case Row(operand, key) =>
        r := LowerOne(p, e, operand, tables, sources);
    }
  }

  lemma SourceHeld(nodes: seq<Node>, values: seq<seq<real>>, sources: seq<PackedValue>, k: nat)
    requires AllHeld(nodes, values, sources) && k < |sources|
    ensures Held(nodes, values, sources[k])
  {
  }

  /** An operation on two operands. */
  method LowerTwo(p: PackedProgram, e: Expression, left: Expression, right: Expression, tables: nat -> Table, sources: seq<PackedValue>)
    returns (r: Option<PackedValue>)
    requires Lowerable(p, tables, sources) && (e.Pair? || e.Joined?) && left == e.left && right == e.right
    modifies p
    ensures Lowerable(p, tables, sources) && old(p.nodes) <= p.nodes && old(p.values) <= p.values
    ensures r.Some? ==> Held(p.nodes, p.values, r.value) && ExpressionRuns(p.nodes, r.value, e, tables, sources)
    decreases e, 0
  {
    hide *;
    var x := Lower(p, left, tables, sources);
    if x.None? {
      return None;
    }
    ghost var first, firstValues := p.nodes, p.values;
    LowerableParts(p, tables, sources);
    HeldIndex(first, firstValues, x.value);
    var y := Lower(p, right, tables, sources);
    if y.None? {
      return None;
    }
    ghost var second, secondValues := p.nodes, p.values;
    LowerableParts(p, tables, sources);
    HeldIndex(second, secondValues, y.value);
    HeldKept(first, firstValues, second, secondValues, x.value);
    HasHeld(p, x.value);
    HasHeld(p, y.value);
    if e.Pair? {
      r := p.Binary(x.value, y.value, e.add);
      if r.Some? {
        PairedRuns(first, second, p.nodes, r.value, e, x.value, y.value, tables, sources);
      }
    } else {
      var parts := [x.value, y.value];
      if !Joinable(Tensors(parts), e.axis) {
        return None;
      }
      r := p.Concatenate(parts, e.axis);
      if r.Some? {
        JoinedBothRuns(first, second, p.nodes, r.value, e, x.value, y.value, tables, sources);
      }
    }
    if r.Some? {
      HasHeld(p, r.value);
    }
    TablesKept(second, p.nodes, p.linearWeights, tables);
    StillLowerable(p, tables, sources, second, secondValues);
  }

  /** An operation on one operand. */
  method LowerOne(p: PackedProgram, e: Expression, operand: Expression, tables: nat -> Table, sources: seq<PackedValue>)
    returns (r: Option<PackedValue>)
    requires Lowerable(p, tables, sources) && (e.Plain? || e.Gathered? || e.RowSums? || e.Row?) && operand == e.operand
    modifies p
    ensures Lowerable(p, tables, sources) && old(p.nodes) <= p.nodes && old(p.values) <= p.values
    ensures r.Some? ==> Held(p.nodes, p.values, r.value) && ExpressionRuns(p.nodes, r.value, e, tables, sources)
    decreases e, 0
  {
    hide *;
    var x := Lower(p, operand, tables, sources);
    if x.None? {
      return None;
    }
    ghost var first := p.nodes;
    LowerableParts(p, tables, sources);
    HeldIndex(first, p.values, x.value);
    if e.Row? {
      r := LowerRow(p, e, x.value, tables, sources);
      if r.Some? {
        RowedRuns(first, p.nodes, r.value, e, x.value, tables, sources);
      }
    } else {
      r := LowerSimple(p, e, x.value, tables, sources);
    }
  }

  method LowerSimple(p: PackedProgram, e: Expression, x: PackedValue, tables: nat -> Table, sources: seq<PackedValue>)
    returns (r: Option<PackedValue>)
    requires Lowerable(p, tables, sources) && (e.Plain? || e.Gathered? || e.RowSums?)
    requires Held(p.nodes, p.values, x) && ExpressionRuns(p.nodes, x, e.operand, tables, sources)
    modifies p
    ensures Lowerable(p, tables, sources) && old(p.nodes) <= p.nodes && old(p.values) <= p.values
    ensures r.Some? ==> Held(p.nodes, p.values, r.value) && ExpressionRuns(p.nodes, r.value, e, tables, sources)
  {
    hide *;
    ghost var first, firstValues := p.nodes, p.values;
    LowerableParts(p, tables, sources);
    HeldIndex(first, firstValues, x);
    HasHeld(p, x);
    if e.Plain? {
      if |e.constant.data| != Size(e.constant.shape) {
        return None;
      }
      TensorValid(e.constant);
      r := p.BinaryPlain(x, e.constant, e.add);
      if r.Some? {
        PlainedRuns(first, p.nodes, r.value, e, x, tables, sources);
      }
    } else if e.Gathered? {
      if !e.mapping.Valid() || !InRange(e.mapping.entries, |x.value.data|) {
        return None;
      }
      r := p.GatherFrom(x, e.mapping);
      if r.Some? {
        GatheredRuns(first, p.nodes, r.value, e, x, tables, sources);
      }
    } else {
      r := p.SumLast(x);
      if r.Some? {
        SummedRuns(first, p.nodes, r.value, e, x, tables, sources);
      }
    }
    if r.Some? {
      HasHeld(p, r.value);
    }
    TablesKept(first, p.nodes, p.linearWeights, tables);
    StillLowerable(p, tables, sources, first, firstValues);
  }

  lemma TensorValid(t: Tensor)
    ensures t.Valid() <==> |t.data| == Size(t.shape)
  {
  }

  method LowerRow(p: PackedProgram, e: Expression, x: PackedValue, tables: nat -> Table, sources: seq<PackedValue>)
    returns (r: Option<PackedValue>)
    requires Lowerable(p, tables, sources) && e.Row? && Held(p.nodes, p.values, x)
    modifies p
    ensures Lowerable(p, tables, sources) && old(p.nodes) <= p.nodes && old(p.values) <= p.values
    ensures r.Some? ==> Held(p.nodes, p.values, r.value) && RowRuns(p.nodes, r.value, x, tables(e.key).weights, tables(e.key).rows)
  {
    hide *;
    var t := tables(e.key);
    if |t.weights| != Area(t.rows, t.columns) {
      return None;
    }
    LowerableParts(p, tables, sources);
    HasHeld(p, x);
    if e.key in p.linearWeights {
      KeyKnown(p.nodes, p.linearWeights, tables, e.key);
    }
    ghost var first, firstValues, owners := p.nodes, p.values, p.linearWeights;
    r := p.LinearMap(x, e.key, t.weights, t.rows, t.columns);
    if r.Some? {
      HasHeld(p, r.value);
      HeldIndex(p.nodes, p.values, r.value);
    }
    if r.Some? && p.extended && e.key !in owners {
      TableAdded(first, p.nodes, owners, tables, e.key, r.value.index);
    } else {
      TablesKept(first, p.nodes, owners, tables);
    }
    StillLowerable(p, tables, sources, first, firstValues);
  }

  lemma KeyKnown(nodes: seq<Node>, owners: map<nat, nat>, tables: nat -> Table, key: nat)
    requires TablesKnown(nodes, owners, tables) && key in owners
    ensures SizeOf(nodes, owners[key]) == tables(key).rows && WeightsOf(nodes, owners[key]) == tables(key).weights
  {
  }
}
