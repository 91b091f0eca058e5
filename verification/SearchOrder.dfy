/**
 * The order in which the bound certifier looks at segments, and what its answers say about it
 * (src/fhemamba/polynomial_certificate.py:62-111): a left-to-right walk over the subdivision tree.
 */
module SearchOrder {
  import opened Wrappers
  import opened Sums
  import opened Chebyshev
  import opened Bernstein
  import opened PolynomialCertificate
  import opened CertificateCompleteness

  // ----- the walk without a queue

  /** The halves taken from the root down to a segment: true is the right one. */
  type Path = seq<bool>

  /** How the walk over a subtree ends, and how many segments it visits. */
  datatype Walk =
    | Accepted(nodes: nat, leaves: nat, deepest: nat)
    | Violated(nodes: nat, path: Path)
    | Undecided(nodes: nat, path: Path)

  /** First the segment, then all of its left half, then all of its right half. */
  function Scan(c: seq<real>, depth: nat, maxDepth: nat, lower: Option<real>, upper: Option<real>): (w: Walk)
    requires |c| > 0 && depth <= maxDepth
    ensures w.nodes >= 1
    decreases maxDepth - depth
  {
    if HullInside(c, lower, upper) then Accepted(1, 1, depth)
    else if !Within(c[0], lower, upper) || !Within(c[|c| - 1], lower, upper) then Violated(1, [])
    else if depth == maxDepth then Undecided(1, [])
    else Both(Scan(Left(c), depth + 1, maxDepth, lower, upper), Scan(Right(c), depth + 1, maxDepth, lower, upper))
  }

  /** A segment after its halves: what stops the left one is all there is. */
  function Both(left: Walk, right: Walk): (w: Walk)
    ensures w.nodes >= 1
  {
    match left
    case Violated(n, path) => Violated(1 + n, [false] + path)
    case Undecided(n, path) => Undecided(1 + n, [false] + path)
    case Accepted(n, leaves, deepest) =>
      match right
      case Violated(m, path) => Violated(1 + n + m, [true] + path)
      case Undecided(m, path) => Undecided(1 + n + m, [true] + path)
      case Accepted(m, more, deeper) => Accepted(1 + n + m, leaves + more, MaxNat(deepest, deeper))
  }

  function MaxNat(a: nat, b: nat): nat {
    if a < b then b else a
  }

  /** What the certifier answers for a walk that starts at the root. */
  function Answer(w: Walk, maxNodes: nat): Outcome {
    if w.nodes > maxNodes then NodeLimit(maxNodes) else
      match w
      case Accepted(n, leaves, deepest) => Certified(n, leaves, deepest)
      case Violated(n, path) => EndpointCounterexample(n, |path|)
      case Undecided(n, _) => DepthLimit(n)
  }

  /** What a walk over the top segment makes of the rest of the queue. */
  ghost predicate Walked(w: Walk, top: Segment, rest: seq<Segment>, r: Outcome, lower: Option<real>, upper: Option<real>, maxDepth: nat,
                         maxNodes: nat, nodes: nat, deepest: nat, leaves: nat)
    requires Pending(rest) && nodes <= maxNodes
  {
    if nodes + w.nodes > maxNodes then r == NodeLimit(maxNodes) else
      match w
      case Accepted(n, more, deep) =>
        r == Explore(rest, lower, upper, maxDepth, maxNodes, nodes + n, MaxNat(deepest, deep), leaves + more)
      case Violated(n, path) => r == EndpointCounterexample(nodes + n, top.depth + |path|)
      case Undecided(n, _) => r == DepthLimit(nodes + n)
  }

  /** The queue works off the top segment as the walk does, before anything below it. */
  lemma {:induction false} ExploreWalks(top: Segment, rest: seq<Segment>, lower: Option<real>, upper: Option<real>, maxDepth: nat,
                                        maxNodes: nat, nodes: nat, deepest: nat, leaves: nat)
    requires |top.coefficients| > 0 && Pending(rest) && nodes <= maxNodes && top.depth <= maxDepth
    ensures Pending(rest + [top])
    ensures Walked(Scan(top.coefficients, top.depth, maxDepth, lower, upper), top, rest,
                   Explore(rest + [top], lower, upper, maxDepth, maxNodes, nodes, deepest, leaves),
                   lower, upper, maxDepth, maxNodes, nodes, deepest, leaves)
    decreases maxDepth - top.depth
  {
    hide Explore, HullInside, Within, Left, Right, Scan, Both, Walked;
    var c, stack := top.coefficients, rest + [top];
    assert stack[..|stack| - 1] == rest && stack[|stack| - 1] == top;
    ExploreStep(stack, lower, upper, maxDepth, maxNodes, nodes, deepest, leaves);
    var r := Explore(stack, lower, upper, maxDepth, maxNodes, nodes, deepest, leaves);
    ScanUnfolds(c, top.depth, maxDepth, lower, upper);
    if nodes < maxNodes && !HullInside(c, lower, upper) && Within(c[0], lower, upper) && Within(c[|c| - 1], lower, upper)
       && top.depth < maxDepth {
      var n := nodes + 1;
      var deep := MaxNat(deepest, top.depth);
      var right, left := Segment(Right(c), top.depth + 1), Segment(Left(c), top.depth + 1);
      assert rest + Halves(top) == rest + [right] + [left];
      var w, v := Scan(Left(c), top.depth + 1, maxDepth, lower, upper), Scan(Right(c), top.depth + 1, maxDepth, lower, upper);
      ExploreWalks(left, rest + [right], lower, upper, maxDepth, maxNodes, n, deep, leaves);
      if w.Accepted? && n + w.nodes <= maxNodes {
        ExploreWalks(right, rest, lower, upper, maxDepth, maxNodes, n + w.nodes, MaxNat(deep, w.deepest), leaves + w.leaves);
        DeepestAtLeast(Right(c), top.depth + 1, maxDepth, lower, upper);
      }
      BothWalked(w, v, top, left, right, rest, r, lower, upper, maxDepth, maxNodes, nodes, deepest, leaves);
    } else {
      OneWalked(Scan(c, top.depth, maxDepth, lower, upper), top, rest, r, lower, upper, maxDepth, maxNodes, nodes, deepest, leaves);
    }
  }

  lemma ScanUnfolds(c: seq<real>, depth: nat, maxDepth: nat, lower: Option<real>, upper: Option<real>)
    requires |c| > 0 && depth <= maxDepth
    ensures Scan(c, depth, maxDepth, lower, upper)
         == if HullInside(c, lower, upper) then Accepted(1, 1, depth)
            else if !Within(c[0], lower, upper) || !Within(c[|c| - 1], lower, upper) then Violated(1, [])
            else if depth == maxDepth then Undecided(1, [])
            else Both(Scan(Left(c), depth + 1, maxDepth, lower, upper), Scan(Right(c), depth + 1, maxDepth, lower, upper))
  {
    hide HullInside, Within, Left, Right, Both;
  }

  /** The top segment alone decides, or the node limit does. */
  lemma OneWalked(w: Walk, top: Segment, rest: seq<Segment>, r: Outcome, lower: Option<real>, upper: Option<real>, maxDepth: nat,
                  maxNodes: nat, nodes: nat, deepest: nat, leaves: nat)
    requires Pending(rest) && nodes <= maxNodes && w.nodes >= 1
    requires nodes == maxNodes ==> r == NodeLimit(nodes)
    requires nodes < maxNodes ==>
               || (w == Accepted(1, 1, top.depth)
                   && r == Explore(rest, lower, upper, maxDepth, maxNodes, nodes + 1, MaxNat(deepest, top.depth), leaves + 1))
               || (w == Violated(1, []) && r == EndpointCounterexample(nodes + 1, top.depth))
               || (w == Undecided(1, []) && r == DepthLimit(nodes + 1))
    ensures Walked(w, top, rest, r, lower, upper, maxDepth, maxNodes, nodes, deepest, leaves)
  {
    hide Explore;
  }

  lemma BothWalked(w: Walk, v: Walk, top: Segment, left: Segment, right: Segment, rest: seq<Segment>, r: Outcome, lower: Option<real>,
                   upper: Option<real>, maxDepth: nat, maxNodes: nat, nodes: nat, deepest: nat, leaves: nat)
    requires Pending(rest) && Pending(rest + [right]) && nodes < maxNodes && left.depth == right.depth == top.depth + 1
    requires w.nodes >= 1 && v.nodes >= 1
    requires Walked(w, left, rest + [right], r, lower, upper, maxDepth, maxNodes, nodes + 1, MaxNat(deepest, top.depth), leaves)
    requires w.Accepted? && nodes + 1 + w.nodes <= maxNodes ==>
               && Walked(v, right, rest,
                         Explore(rest + [right], lower, upper, maxDepth, maxNodes, nodes + 1 + w.nodes,
                                 MaxNat(MaxNat(deepest, top.depth), w.deepest), leaves + w.leaves),
                         lower, upper, maxDepth, maxNodes, nodes + 1 + w.nodes, MaxNat(MaxNat(deepest, top.depth), w.deepest), leaves + w.leaves)
               && (v.Accepted? ==> v.deepest >= top.depth + 1)
    ensures Walked(Both(w, v), top, rest, r, lower, upper, maxDepth, maxNodes, nodes, deepest, leaves)
  {
    hide Explore;
  }

  lemma {:induction false} DeepestAtLeast(c: seq<real>, depth: nat, maxDepth: nat, lower: Option<real>, upper: Option<real>)
    requires |c| > 0 && depth <= maxDepth
    ensures var w := Scan(c, depth, maxDepth, lower, upper); w.Accepted? ==> w.deepest >= depth
    decreases maxDepth - depth
  {
    hide HullInside, Within, Left, Right;
    if depth < maxDepth {
      DeepestAtLeast(Left(c), depth + 1, maxDepth, lower, upper);
      DeepestAtLeast(Right(c), depth + 1, maxDepth, lower, upper);
    }
  }

  /** The certifier's answer is that of the left-to-right walk, cut off after maxNodes segments. */
  lemma DecisionWalks(power: seq<real>, lower: Option<real>, upper: Option<real>, maxDepth: int, maxNodes: int)
    requires ValidQuery(power, lower, upper, maxDepth, maxNodes)
    ensures Decision(power, lower, upper, maxDepth, maxNodes) == Answer(Scan(PowerToBernstein(power), 0, maxDepth, lower, upper), maxNodes)
  {
    hide HullInside, Within, PowerToBernstein, Scan, Explore;
    var top := Segment(PowerToBernstein(power), 0);
    var w := Scan(top.coefficients, 0, maxDepth, lower, upper);
    ExploreWalks(top, [], lower, upper, maxDepth, maxNodes, 0, 0, 0);
    assert [] + [top] == [top];
    if w.Accepted? && w.nodes <= maxNodes {
      ExploreStep([], lower, upper, maxDepth, maxNodes, w.nodes, MaxNat(0, w.deepest), w.leaves);
    }
  }

  // ----- positions

  /** Where the segment at the end of a path starts in [0,1]. */
  function Position(path: Path): real {
    if |path| == 0 then 0.0 else (if path[0] then 0.5 else 0.0) + Position(path[1..]) / 2.0
  }

  /** 2^-depth */
  function Width(depth: nat): real {
    if depth == 0 then 1.0 else Width(depth - 1) / 2.0
  }

  lemma {:induction false} PositionInside(path: Path)
    ensures 0.0 <= Position(path) && Width(|path|) > 0.0 && Position(path) + Width(|path|) <= 1.0
    decreases |path|
  {
    if |path| > 0 {
      PositionInside(path[1..]);
    }
  }

  /** A path one half further down: the same place in that half's own unit interval, scaled. */
  lemma PathStep(right: bool, path: Path)
    ensures Position([right] + path) == (if right then 0.5 else 0.0) + Position(path) / 2.0
    ensures Width(|[right] + path|) == Width(|path|) / 2.0
  {
    assert ([right] + path)[1..] == path;
  }

  /** The polynomial keeps its bounds on [0, to). */
  ghost predicate BoundedBefore(c: seq<real>, to: real, lower: Option<real>, upper: Option<real>)
    requires |c| > 0
  {
    forall t :: 0.0 <= t < to ==> Within(Eval(c, t), lower, upper)
  }

  lemma BeforeLeft(c: seq<real>, to: real, lower: Option<real>, upper: Option<real>)
    requires |c| > 0 && BoundedBefore(Left(c), to, lower, upper)
    ensures BoundedBefore(c, to / 2.0, lower, upper)
  {
    hide Eval, Left, Within;
    forall t | 0.0 <= t < to / 2.0
      ensures Within(Eval(c, t), lower, upper)
    {
      LeftHalf(c, 2.0 * t);
      assert 2.0 * t / 2.0 == t;
    }
  }

  lemma BeforeRight(c: seq<real>, to: real, lower: Option<real>, upper: Option<real>)
    requires |c| > 0 && Bounded(Left(c), lower, upper) && BoundedBefore(Right(c), to, lower, upper)
    ensures BoundedBefore(c, 0.5 + to / 2.0, lower, upper)
  {
    hide Eval, Left, Right, Within;
    forall t | 0.0 <= t < 0.5 + to / 2.0
      ensures Within(Eval(c, t), lower, upper)
    {
      if t <= 0.5 {
        LeftHalf(c, 2.0 * t);
        assert 2.0 * t / 2.0 == t;
      } else {
        RightHalf(c, 2.0 * t - 1.0);
        assert (1.0 + (2.0 * t - 1.0)) / 2.0 == t;
      }
    }
  }

  /** The polynomial at one of the ends of the segment is outside the bounds. */
  ghost predicate EndViolates(c: seq<real>, path: Path, lower: Option<real>, upper: Option<real>)
    requires |c| > 0
  {
    || !Within(Eval(c, Position(path)), lower, upper)
    || !Within(Eval(c, Position(path) + Width(|path|)), lower, upper)
  }

  /** What the end of a walk says about the polynomial. */
  ghost predicate WalkMeans(w: Walk, c: seq<real>, levels: nat, lower: Option<real>, upper: Option<real>)
    requires |c| > 0
  {
    match w
    case Accepted(_, _, _) => Bounded(c, lower, upper)
    case Violated(_, path) => |path| <= levels && BoundedBefore(c, Position(path), lower, upper) && EndViolates(c, path, lower, upper)
    case Undecided(_, path) => |path| == levels && BoundedBefore(c, Position(path), lower, upper) && !EndViolates(c, path, lower, upper)
  }

  lemma EndsOf(c: seq<real>, lower: Option<real>, upper: Option<real>)
    requires |c| > 0
    ensures Position([]) == 0.0 && Width(0) == 1.0
    ensures EndViolates(c, [], lower, upper) <==> !Within(c[0], lower, upper) || !Within(c[|c| - 1], lower, upper)
  {
    hide Eval, Within;
    Endpoints(c);
    var root: Path := [];
    assert Position(root) + Width(|root|) == 1.0;
  }

  lemma EndDown(c: seq<real>, right: bool, path: Path, lower: Option<real>, upper: Option<real>)
    requires |c| > 0
    ensures EndViolates(c, [right] + path, lower, upper) <==> EndViolates(if right then Right(c) else Left(c), path, lower, upper)
  {
    hide Eval, Within, Left, Right, Position, Width;
    PathStep(right, path);
    var a, w := Position(path), Width(|path|);
    if right {
      RightHalf(c, a);
      RightHalf(c, a + w);
      assert (1.0 + a) / 2.0 == 0.5 + a / 2.0 && (1.0 + (a + w)) / 2.0 == 0.5 + a / 2.0 + w / 2.0;
    } else {
      LeftHalf(c, a);
      LeftHalf(c, a + w);
      assert (a + w) / 2.0 == a / 2.0 + w / 2.0;
    }
  }

  /**
   * The walk goes from left to right: whatever stops it at a segment, the bounds hold everywhere to the left of the segment.
   * A violation is at one of the segment's ends; an undecided segment is as deep as admitted.
   */
  lemma {:induction false} ScanMeans(c: seq<real>, depth: nat, maxDepth: nat, lower: Option<real>, upper: Option<real>)
    requires |c| > 0 && depth <= maxDepth
    ensures WalkMeans(Scan(c, depth, maxDepth, lower, upper), c, maxDepth - depth, lower, upper)
    decreases maxDepth - depth
  {
    hide *;
    ScanUnfolds(c, depth, maxDepth, lower, upper);
    EndsOf(c, lower, upper);
    var w := Scan(c, depth, maxDepth, lower, upper);
    if HullInside(c, lower, upper) {
      HullBounds(c, lower, upper);
      AcceptedMeans(w, c, maxDepth - depth, lower, upper);
    } else if !Within(c[0], lower, upper) || !Within(c[|c| - 1], lower, upper) || depth == maxDepth {
      RootMeans(w, c, maxDepth - depth, lower, upper);
    } else {
      ScanMeans(Left(c), depth + 1, maxDepth, lower, upper);
      ScanMeans(Right(c), depth + 1, maxDepth, lower, upper);
      BothMeans(Scan(Left(c), depth + 1, maxDepth, lower, upper), Scan(Right(c), depth + 1, maxDepth, lower, upper), c,
                maxDepth - depth - 1, lower, upper);
    }
  }

  lemma AcceptedMeans(w: Walk, c: seq<real>, levels: nat, lower: Option<real>, upper: Option<real>)
    requires |c| > 0 && w.Accepted?
    ensures WalkMeans(w, c, levels, lower, upper) <==> Bounded(c, lower, upper)
  {
    hide Bounded;
  }

  /** Nothing lies to the left of the root. */
  lemma RootMeans(w: Walk, c: seq<real>, levels: nat, lower: Option<real>, upper: Option<real>)
    requires |c| > 0 && Position([]) == 0.0
    requires (w == Violated(1, []) && EndViolates(c, [], lower, upper)) || (w == Undecided(1, []) && levels == 0 && !EndViolates(c, [], lower, upper))
    ensures WalkMeans(w, c, levels, lower, upper)
  {
    hide EndViolates;
  }

  lemma BothMeans(w: Walk, v: Walk, c: seq<real>, levels: nat, lower: Option<real>, upper: Option<real>)
    requires |c| > 0 && WalkMeans(w, Left(c), levels, lower, upper) && WalkMeans(v, Right(c), levels, lower, upper)
    ensures WalkMeans(Both(w, v), c, levels + 1, lower, upper)
  {
    hide Bounded, BoundedBefore, EndViolates, Position, Width, Left, Right;
    if w.Accepted? {
      if v.Accepted? {
        HalvesBound(c, lower, upper);
      } else {
        PathStep(true, v.path);
        BeforeRight(c, Position(v.path), lower, upper);
        EndDown(c, true, v.path, lower, upper);
      }
    } else {
      PathStep(false, w.path);
      BeforeLeft(c, Position(w.path), lower, upper);
      EndDown(c, false, w.path, lower, upper);
    }
  }

  /**
   * What the certifier's answers mean. A counterexample is an end of a segment [a, a + 2^-depth] with all of [0, a) inside the
   * bounds; at the depth limit the segment is undecided and [0, a) inside; the counts are those of the left-to-right walk.
   */
  lemma DecisionMeans(power: seq<real>, lower: Option<real>, upper: Option<real>, maxDepth: int, maxNodes: int)
    requires ValidQuery(power, lower, upper, maxDepth, maxNodes)
    ensures var w := Scan(PowerToBernstein(power), 0, maxDepth, lower, upper);
            && Decision(power, lower, upper, maxDepth, maxNodes) == Answer(w, maxNodes)
            && (!w.Accepted? ==>
                  var a := Position(w.path);
                  && 0.0 <= a && a + Width(|w.path|) <= 1.0 && |w.path| <= maxDepth
                  && (forall t :: 0.0 <= t < a ==> Within(Poly(power, t), lower, upper))
                  && (w.Violated? <==> !Within(Poly(power, a), lower, upper) || !Within(Poly(power, a + Width(|w.path|)), lower, upper))
                  && (w.Undecided? ==> |w.path| == maxDepth))
            && (w.Accepted? ==> forall t :: 0.0 <= t <= 1.0 ==> Within(Poly(power, t), lower, upper))
  {
    hide PowerToBernstein, Eval, Poly, Within, Scan, Answer, Position, Width;
    var c := PowerToBernstein(power);
    DecisionWalks(power, lower, upper, maxDepth, maxNodes);
    ScanMeans(c, 0, maxDepth, lower, upper);
    var w := Scan(c, 0, maxDepth, lower, upper);
    forall t
      ensures Eval(c, t) == Poly(power, t)
    {
      PowerToBernsteinKeepsValue(power, t);
    }
    if !w.Accepted? {
      PositionInside(w.path);
    }
  }

  // ----- when a violation must be found

  /** Coefficients inside the bounds, equality included, are accepted at once. */
  lemma InsideAtOnce(power: seq<real>, lower: Option<real>, upper: Option<real>, maxDepth: int, maxNodes: int)
    requires ValidQuery(power, lower, upper, maxDepth, maxNodes)
    ensures (forall i :: 0 <= i < |power| ==> Within(PowerToBernstein(power)[i], lower, upper))
            <==> Decision(power, lower, upper, maxDepth, maxNodes) == Certified(1, 1, 0)
  {
    hide PowerToBernstein;
    var c := PowerToBernstein(power);
    DecisionWalks(power, lower, upper, maxDepth, maxNodes);
    ScanUnfolds(c, 0, maxDepth, lower, upper);
    HullMeans(c, lower, upper);
    if !HullInside(c, lower, upper) && maxDepth > 0 {
      MoreNodes(c, maxDepth, lower, upper);
    }
  }

  lemma HullMeans(c: seq<real>, lower: Option<real>, upper: Option<real>)
    requires |c| > 0
    ensures HullInside(c, lower, upper) <==> forall i :: 0 <= i < |c| ==> Within(c[i], lower, upper)
  {
    if forall i :: 0 <= i < |c| ==> Within(c[i], lower, upper) {
      assert Min(c) in c && Max(c) in c;
    }
  }

  /** Whatever is split costs more than one segment. */
  lemma MoreNodes(c: seq<real>, maxDepth: nat, lower: Option<real>, upper: Option<real>)
    requires |c| > 0 && !HullInside(c, lower, upper)
    ensures var w := Scan(c, 0, maxDepth, lower, upper); w.Accepted? ==> w.nodes > 1
  {
    hide HullInside, Within, Left, Right;
  }

  /** The polynomial keeps the bounds with a margin on [0, to]. */
  ghost predicate ClearUpTo(c: seq<real>, to: real, lower: Option<real>, upper: Option<real>, margin: real)
    requires |c| > 0
  {
    forall t :: 0.0 <= t <= to ==> Within(Eval(c, t), Raised(lower, margin), Lowered(upper, margin))
  }

  lemma ClearLeft(c: seq<real>, path: Path, lower: Option<real>, upper: Option<real>, margin: real)
    requires |c| > 0 && |path| > 0 && ClearUpTo(c, Position(path), lower, upper, margin)
    ensures path[0] ==> Clear(Left(c), lower, upper, margin) && ClearUpTo(Right(c), Position(path[1..]), lower, upper, margin)
    ensures !path[0] ==> ClearUpTo(Left(c), Position(path[1..]), lower, upper, margin)
  {
    hide Eval, Left, Right, Within;
    var rest := path[1..];
    assert path == [path[0]] + rest;
    PathStep(path[0], rest);
    PositionInside(rest);
    hide Position, Width;
    if path[0] {
      forall t | 0.0 <= t <= 1.0
        ensures Within(Eval(Left(c), t), Raised(lower, margin), Lowered(upper, margin))
      {
        LeftHalf(c, t);
      }
      forall t | 0.0 <= t <= Position(rest)
        ensures Within(Eval(Right(c), t), Raised(lower, margin), Lowered(upper, margin))
      {
        RightHalf(c, t);
        assert (1.0 + t) / 2.0 == 0.5 + t / 2.0;
      }
    } else {
      forall t | 0.0 <= t <= Position(rest)
        ensures Within(Eval(Left(c), t), Raised(lower, margin), Lowered(upper, margin))
      {
        LeftHalf(c, t);
      }
    }
  }

  /** A segment that is clear of the bounds and flat enough at the deepest level is accepted, with at most a full tree of visits. */
  lemma {:induction false} ScanClear(s: Segment, size: nat, g: real, lower: Option<real>, upper: Option<real>, margin: real, deepest: nat,
                                     maxDepth: nat)
    requires Fine(s, size, g, lower, upper, margin, deepest) && g >= 0.0 && margin > 0.0 && deepest <= maxDepth
    requires Climb(size, Halved(g, deepest)) <= margin
    ensures var w := Scan(s.coefficients, s.depth, maxDepth, lower, upper); w.Accepted? && w.nodes <= Subtree(deepest - s.depth)
    decreases deepest - s.depth
  {
    hide HullInside, Within, Left, Right, Fine, Climb, Halved, Scan;
    var c := s.coefficients;
    FineSize(s, size, g, lower, upper, margin, deepest);
    FineVisit(s, size, g, lower, upper, margin, deepest);
    ScanUnfolds(c, s.depth, maxDepth, lower, upper);
    SubtreeSplits(deepest, s.depth);
    hide Subtree;
    if !HullInside(c, lower, upper) {
      FineHalves(s, size, g, lower, upper, margin, deepest);
      assert Halves(s)[0] == Segment(Right(c), s.depth + 1) && Halves(s)[1] == Segment(Left(c), s.depth + 1);
      ScanClear(Segment(Left(c), s.depth + 1), size, g, lower, upper, margin, deepest, maxDepth);
      ScanClear(Segment(Right(c), s.depth + 1), size, g, lower, upper, margin, deepest, maxDepth);
    }
  }

  lemma FineSize(s: Segment, size: nat, g: real, lower: Option<real>, upper: Option<real>, margin: real, deepest: nat)
    requires Fine(s, size, g, lower, upper, margin, deepest)
    ensures |s.coefficients| == size > 0 && s.depth <= deepest
  {
  }

  lemma SubtreeSplits(deepest: nat, depth: nat)
    requires depth <= deepest
    ensures Subtree(deepest - depth) >= 1
    ensures depth < deepest ==> Subtree(deepest - depth) == 1 + 2 * Subtree(deepest - depth - 1)
  {
  }

  /** A segment on the way to a violation. */
  lemma {:induction false} ScanFinds(c: seq<real>, depth: nat, path: Path, size: nat, g: real, lower: Option<real>, upper: Option<real>,
                                     margin: real, deepest: nat, maxDepth: nat)
    requires |c| == size > 0 && depth + |path| <= deepest <= maxDepth && g >= 0.0 && margin > 0.0
    requires Smooth(c, Halved(g, depth)) && Climb(size, Halved(g, deepest)) <= margin
    requires ClearUpTo(c, Position(path), lower, upper, margin) && EndViolates(c, path, lower, upper)
    ensures var w := Scan(c, depth, maxDepth, lower, upper); w.Violated? && w.nodes <= Subtree(deepest - depth)
    decreases |path|
  {
    hide HullInside, Within, Left, Right, Climb, Halved, Scan, Smooth, ClearUpTo, EndViolates, Position, Width, Eval, Bounded, Clear, Both;
    ScanUnfolds(c, depth, maxDepth, lower, upper);
    SubtreeSplits(deepest, depth);
    EndsOf(c, lower, upper);
    if |path| == 0 {
      assert path == [];
      RootNotInside(c, path, lower, upper);
    } else {
      var rest := path[1..];
      assert path == [path[0]] + rest;
      RootNotInside(c, path, lower, upper);
      ClearLeft(c, path, lower, upper, margin);
      EndDown(c, path[0], rest, lower, upper);
      LeftSmooth(c, Halved(g, depth));
      RightSmooth(c, Halved(g, depth));
      HalvedNext(g, depth);
      var w, v := Scan(Left(c), depth + 1, maxDepth, lower, upper), Scan(Right(c), depth + 1, maxDepth, lower, upper);
      if path[0] {
        FineLeft(Left(c), depth + 1, size, g, lower, upper, margin, deepest);
        ScanClear(Segment(Left(c), depth + 1), size, g, lower, upper, margin, deepest, maxDepth);
        ScanFinds(Right(c), depth + 1, rest, size, g, lower, upper, margin, deepest, maxDepth);
      } else {
        ScanFinds(Left(c), depth + 1, rest, size, g, lower, upper, margin, deepest, maxDepth);
      }
      BothViolated(w, v);
    }
  }

  lemma BothViolated(w: Walk, v: Walk)
    ensures w.Violated? ==> Both(w, v).Violated? && Both(w, v).nodes == 1 + w.nodes
    ensures w.Accepted? && v.Violated? ==> Both(w, v).Violated? && Both(w, v).nodes == 1 + w.nodes + v.nodes
  {
  }

  lemma HalvedNext(g: real, k: nat)
    ensures Halved(g, k + 1) == Halved(g, k) / 2.0
  {
  }

  lemma FineLeft(c: seq<real>, depth: nat, size: nat, g: real, lower: Option<real>, upper: Option<real>, margin: real, deepest: nat)
    requires |c| == size > 0 && depth <= deepest && Smooth(c, Halved(g, depth)) && Clear(c, lower, upper, margin)
    ensures Fine(Segment(c, depth), size, g, lower, upper, margin, deepest)
  {
  }

  /** Coefficients around a violation are not all inside. */
  lemma RootNotInside(c: seq<real>, path: Path, lower: Option<real>, upper: Option<real>)
    requires |c| > 0 && EndViolates(c, path, lower, upper)
    ensures !HullInside(c, lower, upper)
  {
    hide Eval, HullInside, Within, Position, Width;
    PositionInside(path);
    if HullInside(c, lower, upper) {
      HullBounds(c, lower, upper);
    }
  }

  /**
   * A violation at an end of the dyadic segment at the end of a path is found, whatever lies to the right of it, if the bounds
   * hold with a margin up to the segment's start and the limits admit the depth that flattens the segments.
   */
  lemma ViolationFound(power: seq<real>, lower: Option<real>, upper: Option<real>, margin: real, path: Path, deepest: nat,
                       maxDepth: int, maxNodes: int)
    requires ValidQuery(power, lower, upper, maxDepth, maxNodes) && margin > 0.0
    requires forall t :: 0.0 <= t <= Position(path) ==> Within(Poly(power, t), Raised(lower, margin), Lowered(upper, margin))
    requires !Within(Poly(power, Position(path) + Width(|path|)), lower, upper)
    requires |path| <= deepest <= maxDepth && DeepEnough(power, margin, deepest) && Subtree(deepest) <= maxNodes
    ensures Decision(power, lower, upper, maxDepth, maxNodes).EndpointCounterexample?
  {
    hide PowerToBernstein, Eval, Poly, Within, Scan, Position, Width, Climb, Subtree, Smooth, Decision;
    var c := PowerToBernstein(power);
    var g := Steepest(c);
    SteepestSmooth(c);
    forall t
      ensures Eval(c, t) == Poly(power, t)
    {
      PowerToBernsteinKeepsValue(power, t);
    }
    ScanFinds(c, 0, path, |power|, g, lower, upper, margin, deepest, maxDepth);
    DecisionWalks(power, lower, upper, maxDepth, maxNodes);
  }
}
