/** Running a packed program on any inputs and client answers, not only on the recorded ones. */
module PackedRuns {
  import opened Sums
  import opened SlotVectors
  import opened TensorIndex
  import opened PackedNodes

  /** What arrives from outside: encrypted inputs and client answers. */
  predicate IsGiven(node: Node) {
    node.operation.Input? || node.operation.Feedback?
  }

  function RunNode(nodes: seq<Node>, node: Node, values: seq<seq<real>>, given: seq<real>): seq<real> {
    if IsGiven(node) then given else Apply(nodes, node, values, [])
  }

  /** The values of all nodes when input or feedback node number i is given the data given(i). */
  function Run(nodes: seq<Node>, given: nat -> seq<real>): (values: seq<seq<real>>)
    ensures |values| == |nodes|
  {
    if |nodes| == 0 then [] else
      var n := |nodes| - 1;
      var before := Run(nodes[..n], given);
      before + [RunNode(nodes[..n], nodes[n], before, given(n))]
  }

  /** The data given fit the nodes they are given to. */
  ghost predicate Suits(nodes: seq<Node>, given: nat -> seq<real>) {
    forall i: nat :: i < |nodes| && IsGiven(nodes[i]) ==> |given(i)| == nodes[i].size
  }

  /** Nodes appended later change nothing before them. */
  lemma {:induction false} RunPrefix(nodes: seq<Node>, longer: seq<Node>, given: nat -> seq<real>)
    requires nodes <= longer
    ensures Run(longer, given)[..|nodes|] == Run(nodes, given)
    ensures Suits(longer, given) ==> Suits(nodes, given)
    decreases |longer|
  {
    var n := |longer| - 1;
    if |nodes| <= n {
      RunPrefix(nodes, longer[..n], given);
    } else {
      assert nodes == longer;
    }
  }

  lemma RunLast(nodes: seq<Node>, node: Node, given: nat -> seq<real>)
    ensures Run(nodes + [node], given) == Run(nodes, given) + [RunNode(nodes, node, Run(nodes, given), given(|nodes|))]
  {
    assert (nodes + [node])[..|nodes|] == nodes;
  }

  /** Where the inputs are the recorded ones, running is interpreting. */
  lemma {:induction false} RunRecorded(nodes: seq<Node>, given: nat -> seq<real>)
    requires forall i: nat :: i < |nodes| && nodes[i].operation.Input? ==> given(i) == nodes[i].operation.constants
    ensures Run(nodes, given) == Interpret(nodes, given)
    decreases |nodes|
  {
    if |nodes| > 0 {
      RunRecorded(nodes[..|nodes| - 1], given);
      ClientOnlyForFeedback(nodes[..|nodes| - 1], nodes[|nodes| - 1], Run(nodes[..|nodes| - 1], given), given(|nodes| - 1));
    }
  }

  // ----- sizes

  /** Every node is given from outside or passes the reader. */
  ghost predicate Checked(nodes: seq<Node>, slots: nat, extended: bool) {
    forall i :: 0 <= i < |nodes| ==> IsGiven(nodes[i]) || Readable(nodes[..i], nodes[i], slots, extended)
  }

  ghost predicate SizedRun(nodes: seq<Node>, given: nat -> seq<real>) {
    forall i :: 0 <= i < |nodes| ==> |Run(nodes, given)[i]| == nodes[i].size
  }

  /** Every run on fitting data produces values of the recorded sizes. */
  lemma {:induction false} RunSized(nodes: seq<Node>, slots: nat, extended: bool, given: nat -> seq<real>)
    requires Checked(nodes, slots, extended) && Suits(nodes, given)
    ensures SizedRun(nodes, given)
    decreases |nodes|
  {
    hide Readable, Apply;
    if |nodes| > 0 {
      var n := |nodes| - 1;
      var front, node := nodes[..n], nodes[n];
      forall i | 0 <= i < n
        ensures IsGiven(front[i]) || Readable(front[..i], front[i], slots, extended)
      {
        assert front[..i] == nodes[..i] && front[i] == nodes[i];
      }
      RunSized(front, slots, extended, given);
      RunLast(front, node, given);
      assert front + [node] == nodes;
      if !IsGiven(node) {
        AppliedSize(front, node, Run(front, given), slots, extended);
      }
    }
  }

  lemma AppliedSize(nodes: seq<Node>, node: Node, values: seq<seq<real>>, slots: nat, extended: bool)
    requires Readable(nodes, node, slots, extended) && !IsGiven(node)
    requires |values| == |nodes| && forall i :: 0 <= i < |nodes| ==> |values[i]| == nodes[i].size
    ensures |Apply(nodes, node, values, [])| == node.size
  {
    hide Place, Quotient, Remainder, ScatterAt, IsPowerOfTwo, Distinct;
    match node.operation {
      case Repeat(a, outer, inner, count) =>
        RepeatedSize(outer, inner, count);
      case SumGroups(a, width) =>
        SummedSize(node.size, width);
      case _ =>
    }
  }

  lemma RepeatedSize(outer: nat, inner: nat, count: nat)
    ensures Area(Area(outer, count), inner) == Area(Area(outer, inner), count)
  {
    PlaceNested(outer, count, 0, inner, 0);
    PlaceNested(outer, inner, 0, count, 0);
    assert Area(count, inner) == Area(inner, count);
  }

  lemma SummedSize(rows: nat, width: nat)
    requires width >= 1
    ensures Quotient(Area(rows, width), width) == rows
  {
    PlaceParts(rows, width, 0);
  }
}
