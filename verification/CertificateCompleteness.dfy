/** The bound certifier finds every bound that holds with a margin (src/fhemamba/polynomial_certificate.py:62-111). */
module CertificateCompleteness {
  import opened Wrappers
  import opened Sums
  import opened Chebyshev
  import opened Bernstein
  import opened PolynomialCertificate

  // ----- subdivision flattens coefficients

  /** Neighbouring coefficients differ by at most g. */
  predicate Smooth(c: seq<real>, g: real) {
    forall i :: 0 < i < |c| ==> -g <= c[i] - c[i - 1] <= g
  }

  lemma MidpointsSmooth(c: seq<real>, g: real)
    requires |c| > 1 && Smooth(c, g)
    ensures Smooth(Midpoints(c), g)
    ensures -(g / 2.0) <= Midpoints(c)[0] - c[0] <= g / 2.0
    ensures -(g / 2.0) <= c[|c| - 1] - Midpoints(c)[|c| - 2] <= g / 2.0
  {
    var m := Midpoints(c);
    forall i | 0 < i < |m|
      ensures -g <= m[i] - m[i - 1] <= g
    {
      assert -g <= c[i] - c[i - 1] <= g && -g <= c[i + 1] - c[i] <= g;
    }
    assert -g <= c[1] - c[0] <= g;
    assert -g <= c[|c| - 1] - c[|c| - 2] <= g;
  }

  /** The left half keeps the first coefficient and halves the differences. */
  lemma {:induction false} LeftSmooth(c: seq<real>, g: real)
    requires |c| > 0 && Smooth(c, g)
    ensures Left(c)[0] == c[0] && Smooth(Left(c), g / 2.0)
    decreases |c|
  {
    hide Midpoints;
    if |c| > 1 {
      MidpointsShrink(c);
      MidpointsSmooth(c, g);
      LeftSmooth(Midpoints(c), g);
      SmoothCons(c[0], Left(Midpoints(c)), g / 2.0);
    }
  }

  lemma {:induction false} RightSmooth(c: seq<real>, g: real)
    requires |c| > 0 && Smooth(c, g)
    ensures Right(c)[|c| - 1] == c[|c| - 1] && Smooth(Right(c), g / 2.0)
    decreases |c|
  {
    hide Midpoints;
    if |c| > 1 {
      MidpointsShrink(c);
      MidpointsSmooth(c, g);
      RightSmooth(Midpoints(c), g);
      SmoothSnoc(Right(Midpoints(c)), c[|c| - 1], g / 2.0);
    }
  }

  lemma SmoothCons(x: real, c: seq<real>, g: real)
    requires |c| > 0 && Smooth(c, g) && -g <= c[0] - x <= g
    ensures Smooth([x] + c, g)
  {
  }

  lemma SmoothSnoc(c: seq<real>, x: real, g: real)
    requires |c| > 0 && Smooth(c, g) && -g <= x - c[|c| - 1] <= g
    ensures Smooth(c + [x], g)
  {
  }

  // ----- how far coefficients stray from the first

  /** n steps of size g. */
  function Climb(n: nat, g: real): real {
    if n == 0 then 0.0 else Climb(n - 1, g) + g
  }

  function Halved(g: real, k: nat): real {
    if k == 0 then g else Halved(g, k - 1) / 2.0
  }

  lemma {:induction false} ClimbHalf(n: nat, g: real)
    ensures Climb(n, g / 2.0) == Climb(n, g) / 2.0
  {
    if n > 0 {
      ClimbHalf(n - 1, g);
    }
  }

  lemma {:induction false} ClimbHalved(n: nat, g: real, k: nat)
    ensures Climb(n, Halved(g, k)) == Halved(Climb(n, g), k)
  {
    if k > 0 {
      ClimbHalved(n, g, k - 1);
      ClimbHalf(n, Halved(g, k - 1));
    }
  }

  lemma {:induction false} Strays(c: seq<real>, g: real, i: nat)
    requires i < |c| && g >= 0.0 && Smooth(c, g)
    ensures c[0] - Climb(|c|, g) <= c[i] <= c[0] + Climb(|c|, g)
  {
    StraysUpTo(c, g, i);
    ClimbMonotone(i, |c|, g);
  }

  lemma {:induction false} StraysUpTo(c: seq<real>, g: real, i: nat)
    requires i < |c| && g >= 0.0 && Smooth(c, g)
    ensures c[0] - Climb(i, g) <= c[i] <= c[0] + Climb(i, g)
  {
    if i > 0 {
      StraysUpTo(c, g, i - 1);
    }
  }

  lemma {:induction false} ClimbMonotone(i: nat, n: nat, g: real)
    requires i <= n && g >= 0.0
    ensures Climb(i, g) <= Climb(n, g)
    decreases n
  {
    if i < n {
      ClimbMonotone(i, n - 1, g);
    }
  }

  // ----- bounds with a margin

  function Raised(lower: Option<real>, margin: real): Option<real> {
    if lower.None? then None else Some(lower.value + margin)
  }

  function Lowered(upper: Option<real>, margin: real): Option<real> {
    if upper.None? then None else Some(upper.value - margin)
  }

  /** The polynomial keeps the bounds with a margin on all of [0,1]. */
  ghost predicate Clear(c: seq<real>, lower: Option<real>, upper: Option<real>, margin: real)
    requires |c| > 0
  {
    Bounded(c, Raised(lower, margin), Lowered(upper, margin))
  }

  /** Coefficients that stray less than the margin are all inside the bounds. */
  lemma FlatInside(c: seq<real>, g: real, lower: Option<real>, upper: Option<real>, margin: real)
    requires |c| > 0 && g >= 0.0 && Smooth(c, g) && Climb(|c|, g) <= margin && Clear(c, lower, upper, margin)
    ensures HullInside(c, lower, upper)
  {
    hide Smooth, Climb, Bounded;
    ClearEnds(c, lower, upper, margin);
    forall i | 0 <= i < |c|
      ensures c[0] - margin <= c[i] <= c[0] + margin
    {
      Strays(c, g, i);
    }
    assert Min(c) in c && Max(c) in c;
  }

  /** The end coefficients are values of the polynomial. */
  lemma ClearEnds(c: seq<real>, lower: Option<real>, upper: Option<real>, margin: real)
    requires |c| > 0 && Clear(c, lower, upper, margin)
    ensures Within(c[0], Raised(lower, margin), Lowered(upper, margin))
    ensures Within(c[|c| - 1], Raised(lower, margin), Lowered(upper, margin))
  {
    hide Eval;
    Endpoints(c);
  }

  lemma ClearHalves(c: seq<real>, lower: Option<real>, upper: Option<real>, margin: real)
    requires |c| > 0 && Clear(c, lower, upper, margin)
    ensures Clear(Left(c), lower, upper, margin) && Clear(Right(c), lower, upper, margin)
  {
    hide Bounded, Left, Right;
    var l, u := Raised(lower, margin), Lowered(upper, margin);
    if !Bounded(Left(c), l, u) {
      HalfViolates(c, Left(c), l, u);
    }
    if !Bounded(Right(c), l, u) {
      HalfViolates(c, Right(c), l, u);
    }
  }

  // ----- the work queue

  /** A pending segment of the run: clear of the bounds, and flatter the deeper it is. */
  ghost predicate Fine(s: Segment, size: nat, g: real, lower: Option<real>, upper: Option<real>, margin: real, deepest: nat) {
    && |s.coefficients| == size > 0 && s.depth <= deepest
    && Smooth(s.coefficients, Halved(g, s.depth)) && Clear(s.coefficients, lower, upper, margin)
  }

  ghost predicate AllFine(stack: seq<Segment>, size: nat, g: real, lower: Option<real>, upper: Option<real>, margin: real, deepest: nat) {
    forall i :: 0 <= i < |stack| ==> Fine(stack[i], size, g, lower, upper, margin, deepest)
  }

  /** Segments visited at most from here on, when none is split at the deepest level. */
  function Work(stack: seq<Segment>, deepest: nat): int
    requires forall i :: 0 <= i < |stack| ==> stack[i].depth <= deepest
    decreases |stack|
  {
    if |stack| == 0 then 0 else
      Work(stack[..|stack| - 1], deepest) + Subtree(deepest - stack[|stack| - 1].depth)
  }

  function Subtree(levels: nat): (n: int)
    ensures n > 0
  {
    2 * Pow2(levels) - 1
  }

  lemma {:induction false} WorkNonneg(stack: seq<Segment>, deepest: nat)
    requires forall i :: 0 <= i < |stack| ==> stack[i].depth <= deepest
    ensures Work(stack, deepest) >= 0
    decreases |stack|
  {
    if |stack| > 0 {
      WorkNonneg(stack[..|stack| - 1], deepest);
    }
  }

  lemma WorkSplit(rest: seq<Segment>, top: Segment, deepest: nat)
    requires forall i :: 0 <= i < |rest| ==> rest[i].depth <= deepest
    requires top.depth < deepest && |top.coefficients| > 0
    ensures Pending(Halves(top)) && forall i :: 0 <= i < |rest + Halves(top)| ==> (rest + Halves(top))[i].depth <= deepest
    ensures Work(rest + Halves(top), deepest) == Work(rest, deepest) + Subtree(deepest - top.depth) - 1
  {
    hide Left, Right;
    var right, left := Halves(top)[0], Halves(top)[1];
    var one, two := rest + [right], rest + [right] + [left];
    assert two == rest + Halves(top) && two[..|two| - 1] == one && one[..|one| - 1] == rest;
    assert Work(one, deepest) == Work(rest, deepest) + Subtree(deepest - right.depth);
    assert Work(two, deepest) == Work(one, deepest) + Subtree(deepest - left.depth);
    assert Pow2(deepest - top.depth) == 2 * Pow2(deepest - top.depth - 1);
  }

  lemma FineHalves(s: Segment, size: nat, g: real, lower: Option<real>, upper: Option<real>, margin: real, deepest: nat)
    requires Fine(s, size, g, lower, upper, margin, deepest) && s.depth < deepest
    ensures forall i :: 0 <= i < 2 ==> Fine(Halves(s)[i], size, g, lower, upper, margin, deepest)
  {
    hide Left, Right, Smooth, Clear;
    var c, h := s.coefficients, Halved(g, s.depth);
    LeftSmooth(c, h);
    RightSmooth(c, h);
    ClearHalves(c, lower, upper, margin);
    assert Halved(g, s.depth + 1) == h / 2.0;
  }

  lemma {:induction false} HalvedNonneg(g: real, k: nat)
    requires g >= 0.0
    ensures Halved(g, k) >= 0.0
  {
    if k > 0 {
      HalvedNonneg(g, k - 1);
    }
  }

  /** A fine segment is accepted or split, and at the deepest level it is accepted. */
  lemma FineVisit(s: Segment, size: nat, g: real, lower: Option<real>, upper: Option<real>, margin: real, deepest: nat)
    requires Fine(s, size, g, lower, upper, margin, deepest) && g >= 0.0 && margin > 0.0
    requires Climb(size, Halved(g, deepest)) <= margin
    ensures Within(s.coefficients[0], lower, upper) && Within(s.coefficients[|s.coefficients| - 1], lower, upper)
    ensures s.depth == deepest ==> HullInside(s.coefficients, lower, upper)
  {
    hide Smooth, Climb, HullInside, Clear, Halved;
    ClearEnds(s.coefficients, lower, upper, margin);
    if s.depth == deepest {
      HalvedNonneg(g, deepest);
      FlatInside(s.coefficients, Halved(g, deepest), lower, upper, margin);
    }
  }

  lemma {:induction false} ExploreComplete(stack: seq<Segment>, lower: Option<real>, upper: Option<real>, maxDepth: nat, maxNodes: nat,
                                           nodes: nat, seen: nat, leaves: nat, size: nat, g: real, margin: real, deepest: nat)
    requires Pending(stack) && nodes <= maxNodes && g >= 0.0 && margin > 0.0 && deepest <= maxDepth
    requires AllFine(stack, size, g, lower, upper, margin, deepest) && Climb(size, Halved(g, deepest)) <= margin
    requires (forall i :: 0 <= i < |stack| ==> stack[i].depth <= deepest) && Work(stack, deepest) <= maxNodes - nodes
    ensures Explore(stack, lower, upper, maxDepth, maxNodes, nodes, seen, leaves).Certified?
    decreases maxNodes - nodes
  {
    hide Explore, Climb, Halved, HullInside, Within, Left, Right, Fine, Subtree;
    ExploreStep(stack, lower, upper, maxDepth, maxNodes, nodes, seen, leaves);
    if stack != [] {
      var top, rest := stack[|stack| - 1], stack[..|stack| - 1];
      var n, deep := nodes + 1, if top.depth > seen then top.depth else seen;
      WorkNonneg(rest, deepest);
      FineVisit(top, size, g, lower, upper, margin, deepest);
      if HullInside(top.coefficients, lower, upper) {
        ExploreComplete(rest, lower, upper, maxDepth, maxNodes, n, deep, leaves + 1, size, g, margin, deepest);
      } else {
        WorkSplit(rest, top, deepest);
        FineHalves(top, size, g, lower, upper, margin, deepest);
        ExploreComplete(rest + Halves(top), lower, upper, maxDepth, maxNodes, n, deep, leaves, size, g, margin, deepest);
      }
    }
  }

  // ----- the limits that suffice

  function Difference(x: real, y: real): (d: real)
    ensures d >= 0.0 && -d <= x - y <= d
  {
    if x < y then y - x else x - y
  }

  /** The largest difference of neighbours. */
  function Steepest(c: seq<real>): (g: real)
    ensures g >= 0.0
    decreases |c|
  {
    if |c| < 2 then 0.0 else
      var n := |c| - 1;
      var before, last := Steepest(c[..n]), Difference(c[n], c[n - 1]);
      if before < last then last else before
  }

  lemma {:induction false} SteepestSmooth(c: seq<real>)
    ensures Smooth(c, Steepest(c))
    decreases |c|
  {
    if |c| >= 2 {
      var n := |c| - 1;
      SteepestSmooth(c[..n]);
      SmoothWider(c[..n], Steepest(c[..n]), Steepest(c));
      SmoothSnoc(c[..n], c[n], Steepest(c));
      assert c[..n] + [c[n]] == c;
    }
  }

  lemma SmoothWider(c: seq<real>, g: real, h: real)
    requires Smooth(c, g) && g <= h
    ensures Smooth(c, h)
  {
  }

  lemma {:induction false} HalvedTimes(x: real, k: nat)
    ensures Halved(x, k) * Pow2(k) as real == x
  {
    if k > 0 {
      HalvedTimes(x, k - 1);
      HalfTwice(Halved(x, k - 1), Pow2(k - 1) as real);
    }
  }

  lemma HalfTwice(h: real, p: real)
    ensures h / 2.0 * (2.0 * p) == h * p
  {
  }

  lemma {:induction false} Pow2Beyond(k: nat)
    ensures Pow2(k) > k
  {
    if k > 0 {
      Pow2Beyond(k - 1);
    }
  }

  /** Halving often enough gets below any margin. */
  lemma EnoughHalvings(x: real, margin: real) returns (k: nat)
    requires x >= 0.0 && margin > 0.0
    ensures Halved(x, k) <= margin
  {
    var quotient := x / margin;
    QuotientTimes(x, margin);
    k := quotient.Floor + 1;
    Pow2Beyond(k);
    HalvedTimes(x, k);
    HalvedNonneg(x, k);
    if Halved(x, k) > margin {
      TooMuch(Halved(x, k), margin, Pow2(k) as real, quotient);
    }
  }

  lemma QuotientTimes(x: real, margin: real)
    requires x >= 0.0 && margin > 0.0
    ensures x / margin >= 0.0 && margin * (x / margin) == x
  {
  }

  lemma TooMuch(h: real, margin: real, p: real, quotient: real)
    requires h > margin > 0.0 && p > quotient >= 0.0
    ensures h * p > margin * quotient
  {
    MulPositive(h - margin, p);
    MulPositive(margin, p - quotient);
    assert h * p == (h - margin) * p + margin * p;
    assert margin * p == margin * (p - quotient) + margin * quotient;
  }

  /** Subdivision as deep as this flattens every segment below the margin. */
  ghost predicate DeepEnough(power: seq<real>, margin: real, deepest: nat) {
    Climb(|power|, Halved(Steepest(PowerToBernstein(power)), deepest)) <= margin
  }

  ghost predicate ClearOnUnit(power: seq<real>, lower: Option<real>, upper: Option<real>, margin: real) {
    forall t :: 0.0 <= t <= 1.0 ==> Within(Poly(power, t), Raised(lower, margin), Lowered(upper, margin))
  }

  /** A bound that holds with a margin is certified whenever the limits allow the depth that flattens the segments. */
  lemma ClearIsCertified(power: seq<real>, lower: Option<real>, upper: Option<real>, margin: real, deepest: nat, maxDepth: int, maxNodes: int)
    requires ValidQuery(power, lower, upper, maxDepth, maxNodes) && margin > 0.0 && ClearOnUnit(power, lower, upper, margin)
    requires DeepEnough(power, margin, deepest) && deepest <= maxDepth && Subtree(deepest) <= maxNodes
    ensures Decision(power, lower, upper, maxDepth, maxNodes).Certified?
  {
    hide Explore, Climb, Poly, Within, PowerToBernstein, Eval, Subtree, Smooth;
    var c := PowerToBernstein(power);
    var start := Segment(c, 0);
    forall t | 0.0 <= t <= 1.0
      ensures Within(Eval(c, t), Raised(lower, margin), Lowered(upper, margin))
    {
      PowerToBernsteinKeepsValue(power, t);
    }
    SteepestSmooth(c);
    assert Fine(start, |power|, Steepest(c), lower, upper, margin, deepest);
    WorkOne(start, deepest);
    DecisionQueue(power, lower, upper, maxDepth, maxNodes);
    ExploreComplete([start], lower, upper, maxDepth, maxNodes, 0, 0, 0, |power|, Steepest(c), margin, deepest);
  }

  lemma WorkOne(s: Segment, deepest: nat)
    requires s.depth == 0
    ensures Work([s], deepest) == Subtree(deepest)
  {
    assert [s][..0] == [];
  }

  lemma DepthExists(power: seq<real>, margin: real) returns (deepest: nat)
    requires margin > 0.0
    ensures DeepEnough(power, margin, deepest)
  {
    hide Climb, Halved;
    var g := Steepest(PowerToBernstein(power));
    ClimbMonotone(0, |power|, g);
    ClimbZero(g);
    deepest := EnoughHalvings(Climb(|power|, g), margin);
    ClimbHalved(|power|, g, deepest);
  }

  lemma ClimbZero(g: real)
    ensures Climb(0, g) == 0.0
  {
  }

  /** Every bound that holds on [0,1] with a margin is certified once the depth and node limits are large enough. */
  lemma CertifiedEventually(power: seq<real>, lower: Option<real>, upper: Option<real>, margin: real) returns (deepest: nat)
    requires margin > 0.0 && ClearOnUnit(power, lower, upper, margin)
    ensures forall maxDepth: int, maxNodes: int ::
              ValidQuery(power, lower, upper, maxDepth, maxNodes) && deepest <= maxDepth && Subtree(deepest) <= maxNodes
              ==> Decision(power, lower, upper, maxDepth, maxNodes).Certified?
  {
    hide *;
    deepest := DepthExists(power, margin);
    forall maxDepth: int, maxNodes: int
      | ValidQuery(power, lower, upper, maxDepth, maxNodes) && deepest <= maxDepth && Subtree(deepest) <= maxNodes
      ensures Decision(power, lower, upper, maxDepth, maxNodes).Certified?
    {
      ClearIsCertified(power, lower, upper, margin, deepest, maxDepth, maxNodes);
    }
  }

  /** The same for a Chebyshev series on [-1,1], as the integer certifier decides it. */
  lemma SeriesCertifiedEventually(coefficients: seq<real>, lower: Option<real>, upper: Option<real>, margin: real) returns (deepest: nat)
    requires |coefficients| > 0 && margin > 0.0
    requires forall x :: -1.0 <= x <= 1.0 ==> Within(Series(coefficients, x), Raised(lower, margin), Lowered(upper, margin))
    ensures forall maxDepth: int, maxNodes: int ::
              ValidQuery(UnitPower(coefficients), lower, upper, maxDepth, maxNodes) && deepest <= maxDepth && Subtree(deepest) <= maxNodes
              ==> Decision(UnitPower(coefficients), lower, upper, maxDepth, maxNodes).Certified?
  {
    hide *;
    forall t | 0.0 <= t <= 1.0
      ensures Within(Poly(UnitPower(coefficients), t), Raised(lower, margin), Lowered(upper, margin))
    {
      UnitPowerValue(coefficients, t);
      var x := 2.0 * t - 1.0;
      assert -1.0 <= x <= 1.0;
    }
    ClearMeans(UnitPower(coefficients), lower, upper, margin);
    deepest := CertifiedEventually(UnitPower(coefficients), lower, upper, margin);
  }

  lemma ClearMeans(power: seq<real>, lower: Option<real>, upper: Option<real>, margin: real)
    requires forall t :: 0.0 <= t <= 1.0 ==> Within(Poly(power, t), Raised(lower, margin), Lowered(upper, margin))
    ensures ClearOnUnit(power, lower, upper, margin)
  {
  }
}
