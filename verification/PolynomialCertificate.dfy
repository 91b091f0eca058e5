/** src/fhemamba/polynomial_certificate.py: polynomial arithmetic and the rational bound certifier. */
module PolynomialCertificate {
  import opened Wrappers
  import opened Sums
  import opened Chebyshev
  import opened Bernstein

  // ----- coefficient lists

  /** base with s * row added from position `at` on. */
  function AddAt(base: seq<real>, at: nat, s: real, row: seq<real>): (r: seq<real>)
    requires at + |row| <= |base|
    ensures |r| == |base|
  {
    seq(|base|, i requires 0 <= i < |base| => if at <= i < at + |row| then Axpy(base[i], s, row[i - at]) else base[i])
  }

  /** Adding one more entry of the row is one list update. */
  lemma AddAtGrows(base: seq<real>, at: nat, s: real, row: seq<real>, j: nat)
    requires j < |row| && at + |row| <= |base|
    ensures var part := AddAt(base, at, s, row[..j]);
            AddAt(base, at, s, row[..j + 1]) == part[at + j := Axpy(part[at + j], s, row[j])]
    ensures AddAt(base, at, s, row[..0]) == base
  {
    hide Axpy;
    var part := AddAt(base, at, s, row[..j]);
    assert part[at + j] == base[at + j];
  }

  lemma {:induction false} AddAtValue(base: seq<real>, at: nat, s: real, row: seq<real>, t: real)
    requires at + |row| <= |base|
    ensures Poly(AddAt(base, at, s, row), t) == Axpy(Poly(base, t), s, Times(Pow(t, at), Poly(row, t)))
    decreases |row|
  {
    hide *;
    if |row| == 0 {
      AddAtEmpty(base, at, s, row, t);
    } else {
      var m := |row| - 1;
      AddAtValue(base, at, s, row[..m], t);
      AddAtGrows(base, at, s, row, m);
      assert row[..m + 1] == row;
      AddAtLast(AddAt(base, at, s, row[..m]), base, at, s, row, t);
    }
  }

  lemma AddAtEmpty(base: seq<real>, at: nat, s: real, row: seq<real>, t: real)
    requires |row| == 0 && at <= |base|
    ensures Poly(AddAt(base, at, s, row), t) == Axpy(Poly(base, t), s, Times(Pow(t, at), Poly(row, t)))
  {
    assert AddAt(base, at, s, row) == base;
    assert Poly(row, t) == 0.0;
  }

  lemma AddAtLast(part: seq<real>, base: seq<real>, at: nat, s: real, row: seq<real>, t: real)
    requires |row| > 0 && at + |row| <= |base| == |part|
    requires Poly(part, t) == Axpy(Poly(base, t), s, Times(Pow(t, at), Poly(row[..|row| - 1], t)))
    ensures var m := |row| - 1;
            Poly(part[at + m := Axpy(part[at + m], s, row[m])], t) == Axpy(Poly(base, t), s, Times(Pow(t, at), Poly(row, t)))
  {
    var m := |row| - 1;
    PowAdd(t, at, m);
    LastTerm(row, Powers(t));
    AxpyPlus(part[at + m], s, row[m]);
    CombineBump(part, at + m, Times(s, row[m]), Powers(t));
    hide Combine, Pow, Axpy, Times;
    FactorOut(Poly(base, t), s, Pow(t, at), Poly(row[..m], t), row[m], Pow(t, m));
  }

  lemma AxpyPlus(x: real, s: real, y: real)
    ensures Axpy(x, s, y) == x + Times(s, y)
  {
  }

  lemma FactorOut(b: real, s: real, p: real, x: real, c: real, q: real)
    ensures Axpy(Axpy(b, s, Times(p, x)), Times(s, c), Times(p, q)) == Axpy(b, s, Times(p, Axpy(x, c, q)))
  {
    calc {
      Axpy(b, s, Times(p, Axpy(x, c, q)));
      b + s * (p * x + p * (c * q));
      b + s * (p * x) + (s * c) * (p * q);
    }
  }

  /** The product with the first n coefficients of a. */
  ghost function ProductUpTo(a: seq<real>, b: seq<real>, n: nat): (r: seq<real>)
    requires 0 < |a| && 0 < |b| && n <= |a|
    ensures |r| == |a| + |b| - 1
  {
    if n == 0 then Zeros(|a| + |b| - 1) else AddAt(ProductUpTo(a, b, n - 1), n - 1, a[n - 1], b)
  }

  ghost function Product(a: seq<real>, b: seq<real>): (r: seq<real>)
    requires 0 < |a| && 0 < |b|
    ensures |r| == |a| + |b| - 1
  {
    ProductUpTo(a, b, |a|)
  }

  method PolynomialProduct(a: seq<real>, b: seq<real>) returns (result: seq<real>)
    requires 0 < |a| && 0 < |b|
    ensures |result| == |a| + |b| - 1 && result == Product(a, b)
    ensures forall t :: Poly(result, t) == Times(Poly(a, t), Poly(b, t))
  {
    hide Axpy, AddAt;
    result := Zeros(|a| + |b| - 1);
    for i := 0 to |a|
      invariant result == ProductUpTo(a, b, i)
    {
      ghost var before := result;
      AddAtGrows(before, i, a[i], b, 0);
      for j := 0 to |b|
        invariant result == AddAt(before, i, a[i], b[..j])
      {
        AddAtGrows(before, i, a[i], b, j);
        result := result[i + j := Axpy(result[i + j], a[i], b[j])];
      }
      assert b[..|b|] == b;
    }
    forall t
      ensures Poly(result, t) == Times(Poly(a, t), Poly(b, t))
    {
      ProductValue(a, b, t);
    }
  }

  lemma ProductValue(a: seq<real>, b: seq<real>, t: real)
    requires 0 < |a| && 0 < |b|
    ensures Poly(Product(a, b), t) == Times(Poly(a, t), Poly(b, t))
  {
    ProductUpToValue(a, b, |a|, t);
    assert a[..|a|] == a;
  }

  lemma {:induction false} ProductUpToValue(a: seq<real>, b: seq<real>, n: nat, t: real)
    requires 0 < |a| && 0 < |b| && n <= |a|
    ensures Poly(ProductUpTo(a, b, n), t) == Times(Poly(a[..n], t), Poly(b, t))
  {
    if n == 0 {
      CombineZeros(|a| + |b| - 1, Powers(t));
      assert Poly(a[..0], t) == 0.0;
    } else {
      hide Axpy, AddAt, Combine, Times, Pow, Powers;
      assert Powers(t)(n - 1) == Pow(t, n - 1) by {
        PowersAt(t, n - 1);
      }
      ProductUpToValue(a, b, n - 1, t);
      AddAtValue(ProductUpTo(a, b, n - 1), n - 1, a[n - 1], b, t);
      assert a[..n][..n - 1] == a[..n - 1];
      LastTerm(a[..n], Powers(t));
      Regroup(Poly(a[..n - 1], t), a[n - 1], Pow(t, n - 1), Poly(b, t));
    }
  }

  lemma Regroup(x: real, c: real, p: real, y: real)
    ensures Axpy(Times(x, y), c, Times(p, y)) == Times(Axpy(x, c, p), y)
  {
    assert c * (p * y) == (c * p) * y;
  }

  lemma PowersAt(t: real, n: nat)
    ensures Powers(t)(n) == Pow(t, n)
  {
  }

  // ----- Chebyshev series to powers of t, with x = 2t - 1

  /** Power coefficients of T_k(2t-1). */
  ghost function ChebyshevRow(k: nat): (r: seq<real>)
    ensures |r| == k + 1
  {
    if k == 0 then [1.0]
    else if k == 1 then [-1.0, 2.0]
    else AddAt(Product(ChebyshevRow(k - 1), [-2.0, 4.0]), 0, -1.0, ChebyshevRow(k - 2))
  }

  lemma {:induction false} ChebyshevRowValue(k: nat, t: real)
    ensures Poly(ChebyshevRow(k), t) == T(k, 2.0 * t - 1.0)
  {
    hide *;
    var x := 2.0 * t - 1.0;
    Recurrence(k, x);
    if k <= 1 {
      FirstRows(t);
    } else {
      ChebyshevRowValue(k - 1, t);
      ChebyshevRowValue(k - 2, t);
      NextRow(k, t);
      StepUnique(T(k, x), x, T(k - 1, x), T(k - 2, x), Poly(ChebyshevRow(k), t));
    }
  }

  lemma FirstRows(t: real)
    ensures Poly(ChebyshevRow(0), t) == 1.0 && Poly(ChebyshevRow(1), t) == 2.0 * t - 1.0
  {
    assert [1.0][..0] == [];
    PolyTwo(-1.0, 2.0, t);
  }

  lemma NextRow(k: nat, t: real)
    requires k >= 2
    ensures Step(Poly(ChebyshevRow(k), t), 2.0 * t - 1.0, Poly(ChebyshevRow(k - 1), t), Poly(ChebyshevRow(k - 2), t))
  {
    hide Poly, Axpy, AddAt, Product, Step, Times;
    var row := ChebyshevRow(k - 1);
    ProductValue(row, [-2.0, 4.0], t);
    PolyTwo(-2.0, 4.0, t);
    AddAtValue(Product(row, [-2.0, 4.0]), 0, -1.0, ChebyshevRow(k - 2), t);
    assert Pow(t, 0) == 1.0;
    RowStep(Poly(row, t), Poly(ChebyshevRow(k - 2), t), t);
  }

  lemma RowStep(mid: real, low: real, t: real)
    ensures Step(Axpy(Times(mid, -2.0 + 4.0 * t), -1.0, Times(1.0, low)), 2.0 * t - 1.0, mid, low)
  {
  }

  lemma PolyTwo(a: real, b: real, t: real)
    ensures Poly([a, b], t) == a + b * t
  {
    var w := Powers(t);
    LastTerm([a, b], w);
    assert [a, b][..1] == [a];
    LastTerm([a], w);
    assert [a][..0] == [];
    assert w(0) == 1.0 && w(1) == t * 1.0;
  }

  /** The series truncated after degree d, in powers of t. */
  ghost function UnitPowerUpTo(c: seq<real>, d: nat): (r: seq<real>)
    requires d < |c|
    ensures |r| == |c|
  {
    if d == 0 then Zeros(|c|)[0 := c[0]] else AddAt(UnitPowerUpTo(c, d - 1), 0, c[d], ChebyshevRow(d))
  }

  ghost function UnitPower(c: seq<real>): (r: seq<real>)
    requires |c| > 0
    ensures |r| == |c|
  {
    UnitPowerUpTo(c, |c| - 1)
  }

  /** The inner loops: values[i] += s * row[i]. */
  method AddRow(values: seq<real>, s: real, row: seq<real>) returns (r: seq<real>)
    requires |row| <= |values|
    ensures r == AddAt(values, 0, s, row)
  {
    hide Axpy, AddAt;
    r := values;
    if row != [] {
      AddAtGrows(values, 0, s, row, 0);
    } else {
      AddAtNothing(values, s);
    }
    for i := 0 to |row|
      invariant r == AddAt(values, 0, s, row[..i])
    {
      AddAtGrows(values, 0, s, row, i);
      r := r[i := Axpy(r[i], s, row[i])];
    }
    assert row[..|row|] == row;
  }

  lemma AddAtNothing(values: seq<real>, s: real)
    ensures AddAt(values, 0, s, []) == values
  {
  }

  lemma UnitPowerStep(c: seq<real>, d: nat)
    requires d < |c|
    ensures |Zeros(|c|)| == |c| && UnitPower(c) == UnitPowerUpTo(c, |c| - 1)
    ensures UnitPowerUpTo(c, d) == if d == 0 then Zeros(|c|)[0 := c[0]] else AddAt(UnitPowerUpTo(c, d - 1), 0, c[d], ChebyshevRow(d))
  {
  }

  lemma ChebyshevRowStep(k: nat)
    ensures k == 0 ==> ChebyshevRow(k) == [1.0]
    ensures k == 1 ==> ChebyshevRow(k) == [-1.0, 2.0]
    ensures k >= 2 ==> ChebyshevRow(k) == AddAt(Product(ChebyshevRow(k - 1), [-2.0, 4.0]), 0, -1.0, ChebyshevRow(k - 2))
  {
  }

  /** One pass of the degree loop: add the current row and advance the recurrence. */
  method NextDegree(coefficients: seq<real>, degree: nat, result: seq<real>, previous: seq<real>, current: seq<real>)
    returns (result': seq<real>, following: seq<real>)
    requires 1 <= degree < |coefficients|
    requires previous == ChebyshevRow(degree - 1) && current == ChebyshevRow(degree)
    requires result == UnitPowerUpTo(coefficients, degree - 1)
    ensures result' == UnitPowerUpTo(coefficients, degree) && following == ChebyshevRow(degree + 1)
  {
    hide *;
    UnitPowerStep(coefficients, degree);
    ChebyshevRowStep(degree + 1);
    result' := AddRow(result, coefficients[degree], current);
    following := PolynomialProduct(current, [-2.0, 4.0]);
    following := AddRow(following, -1.0, previous);
  }

  method ChebyshevUnitPower(coefficients: seq<real>) returns (r: Option<seq<real>>)
    ensures r.None? <==> coefficients == []
    ensures r.Some? ==> r.value == UnitPower(coefficients)
    ensures r.Some? ==> forall t :: Poly(r.value, t) == Series(coefficients, 2.0 * t - 1.0)
  {
    hide *;
    if coefficients == [] {
      return None;
    }
    UnitPowerValues(coefficients);
    UnitPowerStep(coefficients, 0);
    ChebyshevRowStep(0);
    ChebyshevRowStep(1);
    var result := Zeros(|coefficients|);
    var previous, current := [1.0], [-1.0, 2.0];
    result := result[0 := coefficients[0]];
    for degree := 1 to |coefficients|
      invariant previous == ChebyshevRow(degree - 1) && current == ChebyshevRow(degree)
      invariant result == UnitPowerUpTo(coefficients, degree - 1)
    {
      var following;
      result, following := NextDegree(coefficients, degree, result, previous, current);
      previous, current := current, following;
    }
    return Some(result);
  }

  lemma UnitPowerValues(c: seq<real>)
    requires |c| > 0
    ensures forall t :: Poly(UnitPower(c), t) == Series(c, 2.0 * t - 1.0)
  {
    forall t
      ensures Poly(UnitPower(c), t) == Series(c, 2.0 * t - 1.0)
    {
      UnitPowerValue(c, t);
    }
  }

  /** The power coefficients describe the Chebyshev series at x = 2t - 1. */
  lemma UnitPowerValue(c: seq<real>, t: real)
    requires |c| > 0
    ensures Poly(UnitPower(c), t) == Series(c, 2.0 * t - 1.0)
  {
    UnitPowerUpToValue(c, |c| - 1, t);
    assert c[..|c|] == c;
  }

  lemma {:induction false} UnitPowerUpToValue(c: seq<real>, d: nat, t: real)
    requires d < |c|
    ensures Poly(UnitPowerUpTo(c, d), t) == Series(c[..d + 1], 2.0 * t - 1.0)
  {
    var x := 2.0 * t - 1.0;
    hide T, AddAt, Combine;
    LastTerm(c[..d + 1], Basis(x));
    assert c[..d + 1][..d] == c[..d];
    if d == 0 {
      FirstCoefficient(c, t);
    } else {
      UnitPowerUpToValue(c, d - 1, t);
      AddAtValue(UnitPowerUpTo(c, d - 1), 0, c[d], ChebyshevRow(d), t);
      ChebyshevRowValue(d, t);
      assert Pow(t, 0) == 1.0;
    }
  }

  lemma FirstCoefficient(c: seq<real>, t: real)
    requires |c| > 0
    ensures Poly(Zeros(|c|)[0 := c[0]], t) == c[0] && Combine(c[..0], Basis(2.0 * t - 1.0)) == 0.0 && T(0, 2.0 * t - 1.0) == 1.0
  {
    CombineBump(Zeros(|c|), 0, c[0], Powers(t));
    CombineZeros(|c|, Powers(t));
    assert Powers(t)(0) == 1.0;
  }

  // ----- bounds on [0,1]

  datatype Outcome =
    | ValueError
    | Certified(nodes: nat, leaves: nat, depth: nat)
    | NodeLimit(nodes: nat)
    | EndpointCounterexample(nodes: nat, depth: nat)
    | DepthLimit(nodes: nat)

  datatype Segment = Segment(coefficients: seq<real>, depth: nat)

  predicate Within(v: real, lower: Option<real>, upper: Option<real>) {
    (lower.Some? ==> lower.value <= v) && (upper.Some? ==> v <= upper.value)
  }

  function Min(c: seq<real>): (m: real)
    requires |c| > 0
    ensures m in c && forall i :: 0 <= i < |c| ==> m <= c[i]
  {
    if |c| == 1 then c[0] else
      var m := Min(c[..|c| - 1]);
      if c[|c| - 1] < m then c[|c| - 1] else m
  }

  function Max(c: seq<real>): (m: real)
    requires |c| > 0
    ensures m in c && forall i :: 0 <= i < |c| ==> c[i] <= m
  {
    if |c| == 1 then c[0] else
      var m := Max(c[..|c| - 1]);
      if m < c[|c| - 1] then c[|c| - 1] else m
  }

  predicate HullInside(c: seq<real>, lower: Option<real>, upper: Option<real>)
    requires |c| > 0
  {
    (lower.None? || Min(c) >= lower.value) && (upper.None? || Max(c) <= upper.value)
  }

  predicate ValidQuery(power: seq<real>, lower: Option<real>, upper: Option<real>, maxDepth: int, maxNodes: int) {
    power != [] && maxDepth >= 0 && maxNodes >= 1 && (lower.Some? || upper.Some?)
    && (lower.Some? && upper.Some? ==> lower.value <= upper.value)
  }

  ghost predicate Pending(stack: seq<Segment>) {
    forall i :: 0 <= i < |stack| ==> |stack[i].coefficients| > 0
  }

  /** The decision for a stack of pending segments, last segment first. */
  ghost function Explore(stack: seq<Segment>, lower: Option<real>, upper: Option<real>, maxDepth: nat, maxNodes: nat,
                         nodes: nat, deepest: nat, leaves: nat): Outcome
    requires Pending(stack) && nodes <= maxNodes
    decreases maxNodes - nodes
  {
    if stack == [] then Certified(nodes, leaves, deepest)
    else if nodes >= maxNodes then NodeLimit(nodes)
    else
      var top, rest := stack[|stack| - 1], stack[..|stack| - 1];
      var c, n := top.coefficients, nodes + 1;
      var deep := if top.depth > deepest then top.depth else deepest;
      if HullInside(c, lower, upper) then Explore(rest, lower, upper, maxDepth, maxNodes, n, deep, leaves + 1)
      else if !Within(c[0], lower, upper) || !Within(c[|c| - 1], lower, upper) then EndpointCounterexample(n, top.depth)
      else if top.depth >= maxDepth then DepthLimit(n)
      else Explore(rest + Halves(top), lower, upper, maxDepth, maxNodes, n, deep, leaves)
  }

  /** One visit of the top segment. */
  lemma ExploreStep(stack: seq<Segment>, lower: Option<real>, upper: Option<real>, maxDepth: nat, maxNodes: nat,
                    nodes: nat, deepest: nat, leaves: nat)
    requires Pending(stack) && nodes <= maxNodes
    ensures var r := Explore(stack, lower, upper, maxDepth, maxNodes, nodes, deepest, leaves);
            if stack == [] then r == Certified(nodes, leaves, deepest)
            else if nodes >= maxNodes then r == NodeLimit(nodes)
            else
              var top, rest := stack[|stack| - 1], stack[..|stack| - 1];
              var c, n := top.coefficients, nodes + 1;
              var deep := if top.depth > deepest then top.depth else deepest;
              Pending(rest) && Pending(rest + Halves(top)) &&
              if HullInside(c, lower, upper) then r == Explore(rest, lower, upper, maxDepth, maxNodes, n, deep, leaves + 1)
              else if !Within(c[0], lower, upper) || !Within(c[|c| - 1], lower, upper) then r == EndpointCounterexample(n, top.depth)
              else if top.depth >= maxDepth then r == DepthLimit(n)
              else r == Explore(rest + Halves(top), lower, upper, maxDepth, maxNodes, n, deep, leaves)
  {
  }

  /** Right half below, left half on top. */
  ghost function Halves(s: Segment): (h: seq<Segment>)
    requires |s.coefficients| > 0
    ensures Pending(h)
  {
    [Segment(Right(s.coefficients), s.depth + 1), Segment(Left(s.coefficients), s.depth + 1)]
  }

  ghost function Decision(power: seq<real>, lower: Option<real>, upper: Option<real>, maxDepth: int, maxNodes: int): Outcome {
    if !ValidQuery(power, lower, upper, maxDepth, maxNodes) then ValueError
    else Explore([Segment(PowerToBernstein(power), 0)], lower, upper, maxDepth, maxNodes, 0, 0, 0)
  }

  /** The work-queue loop of the certifier. */
  method ExploreQueue(start: Segment, lower: Option<real>, upper: Option<real>, maxDepth: nat, maxNodes: nat) returns (r: Outcome)
    requires Pending([start])
    ensures r == Explore([start], lower, upper, maxDepth, maxNodes, 0, 0, 0)
  {
    hide Explore, HullInside, Within, Left, Right;
    var queue := [start];
    var nodes: nat, deepest: nat, leaves: nat := 0, 0, 0;
    ghost var decision := Explore(queue, lower, upper, maxDepth, maxNodes, 0, 0, 0);
    while queue != []
      invariant Pending(queue) && nodes <= maxNodes
      invariant decision == Explore(queue, lower, upper, maxDepth, maxNodes, nodes, deepest, leaves)
      decreases maxNodes - nodes, |queue|
    {
      ExploreStep(queue, lower, upper, maxDepth, maxNodes, nodes, deepest, leaves);
      if nodes >= maxNodes {
        return NodeLimit(nodes);
      }
      var coefficients, depth := queue[|queue| - 1].coefficients, queue[|queue| - 1].depth;
      queue := queue[..|queue| - 1];
      nodes := nodes + 1;
      deepest := if depth > deepest then depth else deepest;
      if HullInside(coefficients, lower, upper) {
        leaves := leaves + 1;
        continue;
      }
      if !Within(coefficients[0], lower, upper) || !Within(coefficients[|coefficients| - 1], lower, upper) {
        return EndpointCounterexample(nodes, depth);
      }
      if depth >= maxDepth {
        return DepthLimit(nodes);
      }
      var left, right := SubdivideMidpoint(coefficients);
      queue := queue + [Segment(right, depth + 1), Segment(left, depth + 1)];
    }
    ExploreStep(queue, lower, upper, maxDepth, maxNodes, nodes, deepest, leaves);
    return Certified(nodes, leaves, deepest);
  }

  lemma DecisionQueue(power: seq<real>, lower: Option<real>, upper: Option<real>, maxDepth: int, maxNodes: int)
    ensures !ValidQuery(power, lower, upper, maxDepth, maxNodes) ==> Decision(power, lower, upper, maxDepth, maxNodes).ValueError?
    ensures ValidQuery(power, lower, upper, maxDepth, maxNodes) ==>
              var r := Explore([Segment(PowerToBernstein(power), 0)], lower, upper, maxDepth, maxNodes, 0, 0, 0);
              r == Decision(power, lower, upper, maxDepth, maxNodes) && !r.ValueError?
  {
    if ValidQuery(power, lower, upper, maxDepth, maxNodes) {
      ExploreCounts([Segment(PowerToBernstein(power), 0)], lower, upper, maxDepth, maxNodes, 0, 0, 0);
    }
  }

  method CertifyBounds(power: seq<real>, lower: Option<real>, upper: Option<real>, maxDepth: int, maxNodes: int)
    returns (r: Outcome)
    ensures r == Decision(power, lower, upper, maxDepth, maxNodes)
    ensures r.ValueError? <==> !ValidQuery(power, lower, upper, maxDepth, maxNodes)
    ensures r.Certified? ==> forall t :: 0.0 <= t <= 1.0 ==> Within(Poly(power, t), lower, upper)
    ensures r.EndpointCounterexample? ==> exists t :: 0.0 <= t <= 1.0 && !Within(Poly(power, t), lower, upper)
  {
    hide Decision, Explore, Poly, Within, PowerToBernstein;
    DecisionSound(power, lower, upper, maxDepth, maxNodes);
    DecisionQueue(power, lower, upper, maxDepth, maxNodes);
    if power == [] || maxDepth < 0 || maxNodes < 1 {
      return ValueError;
    }
    if lower.None? && upper.None? {
      return ValueError;
    }
    if lower.Some? && upper.Some? && lower.value > upper.value {
      return ValueError;
    }
    r := ExploreQueue(Segment(PowerToBernstein(power), 0), lower, upper, maxDepth, maxNodes);
  }

  ghost predicate Bounded(c: seq<real>, lower: Option<real>, upper: Option<real>)
    requires |c| > 0
  {
    forall t :: 0.0 <= t <= 1.0 ==> Within(Eval(c, t), lower, upper)
  }

  /** A certificate bounds every pending segment. */
  lemma {:induction false} ExploreSound(stack: seq<Segment>, lower: Option<real>, upper: Option<real>, maxDepth: nat, maxNodes: nat,
                                        nodes: nat, deepest: nat, leaves: nat)
    requires Pending(stack) && nodes <= maxNodes
    requires Explore(stack, lower, upper, maxDepth, maxNodes, nodes, deepest, leaves).Certified?
    ensures forall i :: 0 <= i < |stack| ==> Bounded(stack[i].coefficients, lower, upper)
    decreases maxNodes - nodes
  {
    hide Explore, Bounded, HullInside, Within, Left, Right;
    ExploreStep(stack, lower, upper, maxDepth, maxNodes, nodes, deepest, leaves);
    if stack != [] {
      var top, rest := stack[|stack| - 1], stack[..|stack| - 1];
      var c, n := top.coefficients, nodes + 1;
      var deep := if top.depth > deepest then top.depth else deepest;
      if HullInside(c, lower, upper) {
        HullBounds(c, lower, upper);
        ExploreSound(rest, lower, upper, maxDepth, maxNodes, n, deep, leaves + 1);
      } else {
        var next := rest + Halves(top);
        ExploreSound(next, lower, upper, maxDepth, maxNodes, n, deep, leaves);
        assert next[|rest|].coefficients == Right(c) && next[|rest| + 1].coefficients == Left(c);
        HalvesBound(c, lower, upper);
        forall i | 0 <= i < |rest|
          ensures Bounded(stack[i].coefficients, lower, upper)
        {
          assert next[i] == stack[i];
        }
      }
    }
  }

  lemma HullBounds(c: seq<real>, lower: Option<real>, upper: Option<real>)
    requires |c| > 0 && HullInside(c, lower, upper)
    ensures Bounded(c, lower, upper)
  {
    forall t | 0.0 <= t <= 1.0
      ensures Within(Eval(c, t), lower, upper)
    {
      hide Eval;
      ConvexHull(c, Min(c), Max(c), t);
    }
  }

  lemma HalvesBound(c: seq<real>, lower: Option<real>, upper: Option<real>)
    requires |c| > 0 && Bounded(Left(c), lower, upper) && Bounded(Right(c), lower, upper)
    ensures Bounded(c, lower, upper)
  {
    hide Eval, Left, Right, Within;
    forall t | 0.0 <= t <= 1.0
      ensures Within(Eval(c, t), lower, upper)
    {
      if t <= 0.5 {
        LeftHalf(c, 2.0 * t);
        assert 2.0 * t / 2.0 == t;
      } else {
        RightHalf(c, 2.0 * t - 1.0);
        assert (1.0 + (2.0 * t - 1.0)) / 2.0 == t;
      }
    }
  }

  /** A reported counterexample is a violated bound on some pending segment. */
  lemma {:induction false} ExploreViolates(stack: seq<Segment>, lower: Option<real>, upper: Option<real>, maxDepth: nat,
                                           maxNodes: nat, nodes: nat, deepest: nat, leaves: nat)
    requires Pending(stack) && nodes <= maxNodes
    requires stack != [] && Explore(stack, lower, upper, maxDepth, maxNodes, nodes, deepest, leaves).EndpointCounterexample?
    ensures exists i :: 0 <= i < |stack| && !Bounded(stack[i].coefficients, lower, upper)
    decreases maxNodes - nodes
  {
    hide Explore, Bounded, HullInside, Within, Left, Right;
    ExploreStep(stack, lower, upper, maxDepth, maxNodes, nodes, deepest, leaves);
    var top, rest := stack[|stack| - 1], stack[..|stack| - 1];
    var c, n := top.coefficients, nodes + 1;
    var deep := if top.depth > deepest then top.depth else deepest;
    if HullInside(c, lower, upper) {
      ExploreStep(rest, lower, upper, maxDepth, maxNodes, n, deep, leaves + 1);
      ExploreViolates(rest, lower, upper, maxDepth, maxNodes, n, deep, leaves + 1);
    } else if !Within(c[0], lower, upper) || !Within(c[|c| - 1], lower, upper) {
      EndpointViolates(c, lower, upper);
      assert stack[|stack| - 1].coefficients == c;
    } else {
      var next := rest + Halves(top);
      ExploreViolates(next, lower, upper, maxDepth, maxNodes, n, deep, leaves);
      var i :| 0 <= i < |next| && !Bounded(next[i].coefficients, lower, upper);
      if i < |rest| {
        assert stack[i] == next[i];
      } else {
        HalfViolates(c, next[i].coefficients, lower, upper);
        assert stack[|stack| - 1].coefficients == c;
      }
    }
  }

  lemma EndpointViolates(c: seq<real>, lower: Option<real>, upper: Option<real>)
    requires |c| > 0 && (!Within(c[0], lower, upper) || !Within(c[|c| - 1], lower, upper))
    ensures !Bounded(c, lower, upper)
  {
    Endpoints(c);
  }

  lemma HalfViolates(c: seq<real>, half: seq<real>, lower: Option<real>, upper: Option<real>)
    requires |c| > 0 && (half == Left(c) || half == Right(c)) && !Bounded(half, lower, upper)
    ensures !Bounded(c, lower, upper)
  {
    hide Eval, Left, Right, Within;
    var s :| 0.0 <= s <= 1.0 && !Within(Eval(half, s), lower, upper);
    if half == Left(c) {
      LeftHalf(c, s);
      assert 0.0 <= s / 2.0 <= 1.0;
    } else {
      RightHalf(c, s);
      assert 0.0 <= (1.0 + s) / 2.0 <= 1.0;
    }
  }

  /** Certified means bounded everywhere on [0,1]; a counterexample means violated somewhere on it. */
  lemma DecisionSound(power: seq<real>, lower: Option<real>, upper: Option<real>, maxDepth: int, maxNodes: int)
    ensures var r := Decision(power, lower, upper, maxDepth, maxNodes);
            && (r.Certified? ==> forall t :: 0.0 <= t <= 1.0 ==> Within(Poly(power, t), lower, upper))
            && (r.EndpointCounterexample? ==> exists t :: 0.0 <= t <= 1.0 && !Within(Poly(power, t), lower, upper))
  {
    var r := Decision(power, lower, upper, maxDepth, maxNodes);
    if r.Certified? || r.EndpointCounterexample? {
      var c := PowerToBernstein(power);
      var stack := [Segment(c, 0)];
      forall t
        ensures Eval(c, t) == Poly(power, t)
      {
        PowerToBernsteinKeepsValue(power, t);
      }
      if r.Certified? {
        ExploreSound(stack, lower, upper, maxDepth, maxNodes, 0, 0, 0);
        assert Bounded(stack[0].coefficients, lower, upper);
      } else {
        ExploreViolates(stack, lower, upper, maxDepth, maxNodes, 0, 0, 0);
        assert !Bounded(c, lower, upper);
      }
    }
  }

  /** Work accounting: the subdivision tree is binary, and both limits are respected. */
  lemma {:induction false} ExploreCounts(stack: seq<Segment>, lower: Option<real>, upper: Option<real>, maxDepth: nat, maxNodes: nat,
                                         nodes: nat, deepest: nat, leaves: nat)
    requires Pending(stack) && nodes <= maxNodes && deepest <= maxDepth
    requires forall i :: 0 <= i < |stack| ==> stack[i].depth <= maxDepth
    ensures var r := Explore(stack, lower, upper, maxDepth, maxNodes, nodes, deepest, leaves);
            && (r.Certified? ==> r.nodes - nodes == 2 * (r.leaves - leaves) - |stack| && r.nodes <= maxNodes && r.depth <= maxDepth)
            && (r.NodeLimit? ==> r.nodes == maxNodes)
            && (r.EndpointCounterexample? ==> r.nodes <= maxNodes && r.depth <= maxDepth)
            && (r.DepthLimit? ==> r.nodes <= maxNodes)
            && !r.ValueError?
    decreases maxNodes - nodes
  {
    hide Explore, HullInside, Within, Left, Right;
    ExploreStep(stack, lower, upper, maxDepth, maxNodes, nodes, deepest, leaves);
    if stack != [] && nodes < maxNodes {
      var top, rest := stack[|stack| - 1], stack[..|stack| - 1];
      var c, n := top.coefficients, nodes + 1;
      var deep := if top.depth > deepest then top.depth else deepest;
      if HullInside(c, lower, upper) {
        ExploreCounts(rest, lower, upper, maxDepth, maxNodes, n, deep, leaves + 1);
      } else if Within(c[0], lower, upper) && Within(c[|c| - 1], lower, upper) && top.depth < maxDepth {
        ExploreCounts(rest + Halves(top), lower, upper, maxDepth, maxNodes, n, deep, leaves);
      }
    }
  }

  /** A certificate visits one node less than twice its leaves, within both limits. */
  lemma DecisionCounts(power: seq<real>, lower: Option<real>, upper: Option<real>, maxDepth: int, maxNodes: int)
    ensures var r := Decision(power, lower, upper, maxDepth, maxNodes);
            && (r.Certified? ==> r.nodes == 2 * r.leaves - 1 && r.nodes <= maxNodes && r.depth <= maxDepth)
            && (r.NodeLimit? ==> r.nodes == maxNodes)
  {
    if ValidQuery(power, lower, upper, maxDepth, maxNodes) {
      ExploreCounts([Segment(PowerToBernstein(power), 0)], lower, upper, maxDepth, maxNodes, 0, 0, 0);
    }
  }
}
