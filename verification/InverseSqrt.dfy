/** src/fhemamba/normalization.py and stage1_normalization.hpp: certified scaled inverse square roots. */
module InverseSqrt {
  import opened Wrappers
  import opened Sums

  datatype Pair = Pair(a: real, b: real)

  datatype Schedule = Schedule(lo: real, hi: real, seed: real, coefficients: seq<Pair>, tolerance: real)
  {
    /** The constructor's own checks. */
    predicate Valid() {
      0.0 < lo < hi && seed > 0.0 && 0.0 < tolerance < 1.0 && coefficients != []
    }
  }

  const NEWTON := Pair(1.5, 0.5)

  // ----- the exact iteration

  /** v * y^2, the squared normalization factor. */
  function Factor2(v: real, y: real): real {
    v * (y * y)
  }

  /** One update y * (a - b * v*y^2). */
  function Update(v: real, y: real, p: Pair): real {
    y * (p.a - p.b * Factor2(v, y))
  }

  /** y after all the pairs. */
  function Stages(v: real, y: real, pairs: seq<Pair>): real {
    if |pairs| == 0 then y else Update(v, Stages(v, y, pairs[..|pairs| - 1]), pairs[|pairs| - 1])
  }

  /** All scheduled stages and the final Newton repair. */
  function Exact(s: Schedule, v: real): real {
    Update(v, Stages(v, s.seed, s.coefficients), NEWTON)
  }

  // ----- three ways to evaluate it

  /** Coupled form: u follows v*y^2 by its own product. */
  method Evaluate(s: Schedule, v: real) returns (before: real, r: real)
    requires s.Valid()
    ensures before == Stages(v, s.seed, s.coefficients) && r == Exact(s, v)
  {
    hide Update, Factor2;
    var u := v * s.seed * s.seed;
    var y := s.seed;
    CoupledSeed(v, s.seed);
    for i := 0 to |s.coefficients|
      invariant y == Stages(v, s.seed, s.coefficients[..i])
      invariant i < |s.coefficients| ==> u == Factor2(v, y)
    {
      var p := s.coefficients[i];
      var factor := p.a - p.b * u;
      CoupledStep(v, y, p);
      y := y * factor;
      if i + 1 < |s.coefficients| {
        u := u * (factor * factor);
      }
      assert s.coefficients[..i + 1][..i] == s.coefficients[..i];
    }
    assert s.coefficients[..|s.coefficients|] == s.coefficients;
    FinalStep(v, y);
    return y, y * (1.5 - 0.5 * (v * (y * y)));
  }

  lemma CoupledSeed(v: real, seed: real)
    ensures v * seed * seed == Factor2(v, seed)
  {
  }

  lemma CoupledStep(v: real, y: real, p: Pair)
    ensures var factor := p.a - p.b * Factor2(v, y);
            y * factor == Update(v, y, p) && Factor2(v, y) * (factor * factor) == Factor2(v, Update(v, y, p))
  {
    SquareOut(v, y, p.a - p.b * Factor2(v, y));
  }

  lemma SquareOut(v: real, y: real, f: real)
    ensures v * (y * y) * (f * f) == v * ((y * f) * (y * f))
  {
  }

  lemma FinalStep(v: real, y: real)
    ensures y * (1.5 - 0.5 * (v * (y * y))) == Update(v, y, NEWTON)
  {
  }

  /** Balanced form: recompute from v at every stage, a*y + ((-b*v)*y)*(y*y). */
  method EvaluateBalanced(s: Schedule, v: real) returns (before: real, r: real)
    requires s.Valid()
    ensures before == Stages(v, s.seed, s.coefficients) && r == Exact(s, v)
  {
    hide Update, Factor2;
    var p := s.coefficients[0];
    r := (p.a - p.b * (v * s.seed * s.seed)) * s.seed;
    BalancedSeed(v, s.seed, p);
    var pairs := s.coefficients + [NEWTON];
    before := r;
    for i := 1 to |pairs|
      invariant r == Stages(v, s.seed, pairs[..i])
      invariant i == |pairs| ==> before == Stages(v, s.seed, pairs[..i - 1])
    {
      before := r;
      p := pairs[i];
      BalancedStep(v, r, p);
      r := p.a * r + ((-p.b * v) * r) * (r * r);
      assert pairs[..i + 1][..i] == pairs[..i];
    }
    assert pairs[..|pairs|] == pairs && pairs[..|pairs| - 1] == s.coefficients;
  }

  lemma BalancedSeed(v: real, seed: real, p: Pair)
    ensures (p.a - p.b * (v * seed * seed)) * seed == Update(v, seed, p)
  {
    CoupledSeed(v, seed);
  }

  lemma BalancedStep(v: real, y: real, p: Pair)
    ensures p.a * y + ((-p.b * v) * y) * (y * y) == Update(v, y, p)
  {
    calc {
      p.a * y + ((-p.b * v) * y) * (y * y);
      p.a * y - p.b * (v * (y * y)) * y;
      y * (p.a - p.b * (v * (y * y)));
    }
  }

  /** The coefficients the weighted form really uses: each b is the first one times the stored ratios. */
  function Effective(coefficients: seq<Pair>, ratios: seq<real>): (e: seq<Pair>)
    requires |coefficients| == |ratios| + 1
    ensures |e| == |coefficients|
    decreases |coefficients|
  {
    var n := |coefficients| - 1;
    if n == 0 then coefficients else
      var e := Effective(coefficients[..n], ratios[..n - 1]);
      e + [Pair(coefficients[n].a, Times(e[n - 1].b, ratios[n - 1]))]
  }

  /** Weighted form: r carries -B*v*y^2; `ratios` are the stored quotients of consecutive b. */
  method EvaluateWeighted(s: Schedule, ratios: seq<real>, v: real) returns (before: real, r: real)
    requires s.Valid() && |ratios| == |s.coefficients| - 1
    ensures before == Stages(v, s.seed, Effective(s.coefficients, ratios))
    ensures r == Exact(s.(coefficients := Effective(s.coefficients, ratios)), v)
  {
    hide *;
    var p := s.coefficients[0];
    var residual := Times(Times(Times(v, s.seed), s.seed), -p.b);
    var factor := p.a + residual;
    var y := Times(s.seed, factor);
    ghost var e, earlier, last := [p], s.seed, p;
    WeightedSeed(v, s.seed, p);
    FirstStage(s, ratios, v);
    for i := 1 to |s.coefficients|
      invariant |e| == i && e[i - 1] == last && e == Effective(s.coefficients[..i], ratios[..i - 1])
      invariant y == Stages(v, s.seed, e) && y == Update(v, earlier, last)
      invariant residual == WeightedResidual(v, earlier, last) && factor == last.a + residual
    {
      p := s.coefficients[i];
      NextStage(s, ratios, v, i, e);
      WeightedStep(v, earlier, last, ratios[i - 1], p.a, residual, factor);
      earlier, last := y, Pair(p.a, Times(last.b, ratios[i - 1]));
      e := e + [last];
      residual := Times(Times(residual, ratios[i - 1]), Times(factor, factor));
      factor := p.a + residual;
      y := Times(y, factor);
    }
    assert s.coefficients[..|s.coefficients|] == s.coefficients && ratios[..|ratios|] == ratios;
    WeightedFinal(v, y);
    ExactIs(s.(coefficients := e), v);
    return y, Times(y, 1.5 - 0.5 * Times(Times(v, y), y));
  }

  lemma FirstStage(s: Schedule, ratios: seq<real>, v: real)
    requires s.Valid() && |ratios| == |s.coefficients| - 1
    ensures Effective(s.coefficients[..1], ratios[..0]) == [s.coefficients[0]]
    ensures Stages(v, s.seed, [s.coefficients[0]]) == Update(v, s.seed, s.coefficients[0])
  {
    assert [s.coefficients[0]][..0] == [];
  }

  lemma NextStage(s: Schedule, ratios: seq<real>, v: real, i: nat, e: seq<Pair>)
    requires 1 <= i < |s.coefficients| == |ratios| + 1
    requires e == Effective(s.coefficients[..i], ratios[..i - 1])
    ensures |e| == i
    ensures var next := Pair(s.coefficients[i].a, Times(e[i - 1].b, ratios[i - 1]));
            Effective(s.coefficients[..i + 1], ratios[..i]) == e + [next]
            && Stages(v, s.seed, e + [next]) == Update(v, Stages(v, s.seed, e), next)
  {
    hide Times, Update;
    var next := Pair(s.coefficients[i].a, Times(e[i - 1].b, ratios[i - 1]));
    assert s.coefficients[..i + 1][..i] == s.coefficients[..i] && ratios[..i][..i - 1] == ratios[..i - 1];
    assert (e + [next])[..i] == e;
  }

  lemma ExactIs(s: Schedule, v: real)
    ensures Exact(s, v) == Update(v, Stages(v, s.seed, s.coefficients), NEWTON)
  {
  }

  ghost function WeightedResidual(v: real, y: real, p: Pair): real {
    -(p.b * Factor2(v, y))
  }

  lemma WeightedSeed(v: real, seed: real, p: Pair)
    ensures Times(Times(Times(v, seed), seed), -p.b) == WeightedResidual(v, seed, p)
    ensures Times(seed, p.a + Times(Times(Times(v, seed), seed), -p.b)) == Update(v, seed, p)
  {
    CoupledSeed(v, seed);
    assert v * seed * seed * (-p.b) == -(p.b * Factor2(v, seed));
  }

  lemma WeightedStep(v: real, before: real, last: Pair, ratio: real, a: real, residual: real, factor: real)
    requires residual == WeightedResidual(v, before, last) && factor == last.a + residual
    ensures var y, next := Update(v, before, last), Pair(a, Times(last.b, ratio));
            var residual' := Times(Times(residual, ratio), Times(factor, factor));
            residual' == WeightedResidual(v, y, next) && Times(y, a + residual') == Update(v, y, next)
  {
    CoupledStep(v, before, last);
    var u := Factor2(v, before);
    ResidualOut(last.b, u, ratio, factor);
  }

  lemma ResidualOut(b: real, u: real, ratio: real, f: real)
    ensures Times(Times(-(b * u), ratio), Times(f, f)) == -(Times(b, ratio) * (u * (f * f)))
  {
  }

  lemma WeightedFinal(v: real, y: real)
    ensures Times(y, 1.5 - 0.5 * Times(Times(v, y), y)) == Update(v, y, NEWTON)
  {
    assert (v * y) * y == v * (y * y);
  }

  /** With exact quotients the effective coefficients are the stored ones. */
  lemma {:induction false} ExactRatios(coefficients: seq<Pair>, ratios: seq<real>)
    requires |coefficients| == |ratios| + 1
    requires forall i :: 0 <= i < |ratios| ==> Times(coefficients[i].b, ratios[i]) == coefficients[i + 1].b
    ensures Effective(coefficients, ratios) == coefficients
    decreases |coefficients|
  {
    hide Times;
    var n := |coefficients| - 1;
    if n > 0 {
      ExactRatios(coefficients[..n], ratios[..n - 1]);
      assert coefficients == coefficients[..n] + [coefficients[n]];
    }
  }

  /** The executor's dispatch between the three forms; the last unrepaired y is kept beside the output. */
  method EvaluateNormalization(s: Schedule, ratios: seq<real>, v: real, balanced: bool, weighted: bool)
    returns (r: Option<(real, real)>)
    requires s.Valid() && |ratios| == |s.coefficients| - 1
    ensures r.None? <==> balanced && weighted
    ensures r.Some? ==> var used := if weighted then s.(coefficients := Effective(s.coefficients, ratios)) else s;
                        r.value == (Stages(v, s.seed, used.coefficients), Exact(used, v))
  {
    if balanced && weighted {
      return None;
    }
    var before, output;
    if balanced {
      before, output := EvaluateBalanced(s, v);
    } else if weighted {
      before, output := EvaluateWeighted(s, ratios, v);
    } else {
      before, output := Evaluate(s, v);
    }
    return Some((before, output));
  }

  // ----- interval certificate

  datatype Interval = Interval(lo: real, hi: real)
  {
    ghost predicate Contains(x: real) {
      lo <= x <= hi
    }

    predicate InUnit() {
      0.0 < lo <= hi <= 1.0
    }
  }

  function Scale(bits: nat): (s: real)
    ensures s > 0.0
  {
    if bits == 0 then 1.0 else 2.0 * Scale(bits - 1)
  }

  /** Round both ends outward to multiples of 2^-bits. */
  function Outward(lo: real, hi: real, bits: nat): (r: Interval)
    ensures r.lo <= lo && hi <= r.hi
  {
    var scale := Scale(bits);
    RoundDown(lo, scale);
    RoundDown(-hi, scale);
    NegatedQuotient((-(hi * scale)).Floor as real, scale);
    Interval((lo * scale).Floor as real / scale, (-((-(hi * scale)).Floor)) as real / scale)
  }

  lemma RoundDown(x: real, scale: real)
    requires scale > 0.0
    ensures (x * scale).Floor as real / scale <= x
    ensures -x * scale == -(x * scale)
  {
    QuotientBelow((x * scale).Floor as real, x, scale);
  }

  lemma QuotientBelow(n: real, x: real, scale: real)
    requires scale > 0.0 && n <= x * scale
    ensures n / scale <= x
  {
    var q := n / scale;
    assert q * scale == n;
    if q > x {
      MulPositive(q - x, scale);
      assert false;
    }
  }

  lemma NegatedQuotient(n: real, scale: real)
    requires scale > 0.0
    ensures (-n) / scale == -(n / scale)
  {
  }

  /** u * (a - b*u)^2: the effect of one update on v*y^2. */
  function Cubic(u: real, p: Pair): real {
    u * ((p.a - p.b * u) * (p.a - p.b * u))
  }

  predicate ImageDefined(i: Interval, p: Pair) {
    0.0 < i.lo <= i.hi && p.b > 0.0 && p.a - p.b * i.hi > 0.0
  }

  function MinReal(x: real, y: real): real {
    if x <= y then x else y
  }

  function MaxReal(x: real, y: real): real {
    if x >= y then x else y
  }

  function Peak(p: Pair): real {
    if p.b == 0.0 then 0.0 else 4.0 * (p.a * p.a * p.a) / (27.0 * p.b)
  }

  function Critical(p: Pair): real {
    if p.b == 0.0 then 0.0 else p.a / (3.0 * p.b)
  }

  /** Range of the cubic on the interval, rounded outward; None where the original raises. */
  function Image(i: Interval, p: Pair, bits: nat): Option<Interval> {
    if !ImageDefined(i, p) then None else
      var f, g := Cubic(i.lo, p), Cubic(i.hi, p);
      var low, high := MinReal(f, g), MaxReal(f, g);
      Some(if i.lo <= Critical(p) <= i.hi then Outward(MinReal(low, Peak(p)), MaxReal(high, Peak(p)), bits) else Outward(low, high, bits))
  }

  lemma Difference(u: real, w: real, p: Pair)
    ensures var x, y := p.b * u, p.b * w;
            Cubic(u, p) - Cubic(w, p) == (u - w) * ((p.a - x - y) * (p.a - x - y) - x * y)
  {
    var a, b := p.a, p.b;
    CubicExpand(u, a, b);
    CubicExpand(w, a, b);
    calc {
      (u - w) * ((a - b * u - b * w) * (a - b * u - b * w) - (b * u) * (b * w));
      { SquareExpand(a, b, u, w); }
      (u - w) * (a * a - 2.0 * a * b * (u + w) + b * b * (u * u + u * w + w * w));
      { FactorExpand(a * a, 2.0 * a * b, b * b, u, w); }
      (a * a * u - 2.0 * a * b * (u * u) + b * b * (u * u * u)) - (a * a * w - 2.0 * a * b * (w * w) + b * b * (w * w * w));
    }
  }

  lemma CubicExpand(u: real, a: real, b: real)
    ensures u * ((a - b * u) * (a - b * u)) == a * a * u - 2.0 * a * b * (u * u) + b * b * (u * u * u)
  {
  }

  lemma SquareExpand(a: real, b: real, u: real, w: real)
    ensures (a - b * u - b * w) * (a - b * u - b * w) - (b * u) * (b * w)
         == a * a - 2.0 * a * b * (u + w) + b * b * (u * u + u * w + w * w)
  {
  }

  lemma FactorExpand(p: real, q: real, r: real, u: real, w: real)
    ensures (u - w) * (p - q * (u + w) + r * (u * u + u * w + w * w))
         == (p * u - q * (u * u) + r * (u * u * u)) - (p * w - q * (w * w) + r * (w * w * w))
  {
  }

  /** The cubic rises up to a third of the way to its positive root. */
  lemma Rising(w: real, u: real, p: Pair)
    requires 0.0 <= w <= u && p.b > 0.0 && 3.0 * (p.b * u) <= p.a
    ensures Cubic(w, p) <= Cubic(u, p)
  {
    var x, y := p.b * u, p.b * w;
    Difference(u, w, p);
    MulNonneg(p.b, w);
    MulNonneg(p.b, u - w);
    Distribute(p.b, u, w);
    SquareAtLeast(p.a - x - y, x, y);
    MulNonneg(u - w, (p.a - x - y) * (p.a - x - y) - x * y);
  }

  lemma SquareAtLeast(s: real, x: real, y: real)
    requires 0.0 <= y <= x <= s
    ensures s * s >= x * y
  {
    MulNonneg(s, s - x);
    MulNonneg(x, s - y);
    Distribute(s, s, x);
    Distribute(x, s, y);
  }

  /** ... and falls from there to the root. */
  lemma Falling(w: real, u: real, p: Pair)
    requires 0.0 <= w <= u && p.b > 0.0 && p.a <= 3.0 * (p.b * w) && p.b * u <= p.a
    ensures Cubic(u, p) <= Cubic(w, p)
  {
    var x, y := p.b * u, p.b * w;
    Difference(u, w, p);
    MulNonneg(p.b, w);
    MulNonneg(p.b, u - w);
    Distribute(p.b, u, w);
    SquareAtMost(p.a - x - y, x, y);
    MulNonneg(u - w, x * y - (p.a - x - y) * (p.a - x - y));
    NegatedProduct(u - w, x * y, (p.a - x - y) * (p.a - x - y));
  }

  lemma NegatedProduct(d: real, m: real, n: real)
    ensures d * (m - n) == -(d * (n - m))
  {
  }

  lemma SquareAtMost(s: real, x: real, y: real)
    requires 0.0 <= y <= x && -y <= s <= y
    ensures s * s <= x * y
  {
    MulNonneg(y - s, y + s);
    MulNonneg(y, x - y);
    assert (y - s) * (y + s) == y * y - s * s;
    Distribute(y, x, y);
  }

  lemma CriticalMeans(p: Pair, u: real)
    requires p.b > 0.0
    ensures u <= Critical(p) <==> 3.0 * (p.b * u) <= p.a
    ensures 3.0 * (p.b * Critical(p)) == p.a
    ensures Cubic(Critical(p), p) == Peak(p)
  {
    var c := Critical(p);
    assert c * (3.0 * p.b) == p.a;
    assert 3.0 * (p.b * c) == p.a;
    CompareScaled(u, c, p.b);
    PeakValue(c, p.a, p.b);
  }

  lemma CompareScaled(u: real, c: real, b: real)
    requires b > 0.0
    ensures u <= c <==> 3.0 * (b * u) <= 3.0 * (b * c)
  {
    Distribute(b, c, u);
    if u <= c {
      MulNonneg(b, c - u);
    } else {
      assert b * (u - c) > 0.0;
      Distribute(b, u, c);
    }
  }

  lemma PeakValue(c: real, a: real, b: real)
    requires b > 0.0 && 3.0 * (b * c) == a
    ensures c * ((a - b * c) * (a - b * c)) == 4.0 * (a * a * a) / (27.0 * b)
  {
    var x := b * c;
    assert a - b * c == 2.0 * x;
    var value := c * ((2.0 * x) * (2.0 * x));
    calc {
      value * (27.0 * b);
      108.0 * (b * c) * (x * x);
      4.0 * (a * a * a);
    }
    DivideOut(value, 27.0 * b, 4.0 * (a * a * a));
  }

  lemma DivideOut(x: real, d: real, n: real)
    requires d != 0.0 && x * d == n
    ensures x == n / d
  {
  }

  /** Every update of a point of the interval lands in the computed image, and its factor is positive. */
  lemma ImageSound(i: Interval, p: Pair, bits: nat, u: real)
    requires Image(i, p, bits).Some? && i.Contains(u)
    ensures Image(i, p, bits).value.Contains(Cubic(u, p))
    ensures p.a - p.b * u > 0.0
  {
    hide Cubic, Peak, Critical, Outward;
    CriticalMeans(p, i.lo);
    CriticalMeans(p, u);
    CriticalMeans(p, i.hi);
    MulNonneg(p.b, i.hi - u);
    Distribute(p.b, i.hi, u);
    var c := Critical(p);
    if u <= c {
      Rising(i.lo, u, p);
      if c <= i.hi {
        Rising(u, c, p);
      } else {
        Rising(u, i.hi, p);
      }
    } else {
      Falling(u, i.hi, p);
      if i.lo <= c {
        Falling(c, u, p);
      } else {
        Falling(i.lo, u, p);
      }
    }
  }

  datatype Verdict = BadPrecision | Certified | SeedOutside | UpdateRejected | LeavesUnit | TargetMissed

  /** The enclosure of v*y^2 after the pairs, or why the run stops. */
  function Enclose(start: Interval, pairs: seq<Pair>, bits: nat): (r: (Verdict, Interval))
    ensures r.0 in {Certified, UpdateRejected, LeavesUnit}
  {
    if |pairs| == 0 then (Certified, start) else
      var before := Enclose(start, pairs[..|pairs| - 1], bits);
      if !before.0.Certified? then before else
        var image := Image(before.1, pairs[|pairs| - 1], bits);
        if image.None? then (UpdateRejected, before.1)
        else if !image.value.InUnit() then (LeavesUnit, image.value)
        else (Certified, image.value)
  }

  /** The exact range of v*y^2 for the constant seed. */
  function SeedRange(s: Schedule): Interval {
    Interval(s.lo * (s.seed * s.seed), s.hi * (s.seed * s.seed))
  }

  function StartInterval(s: Schedule, bits: nat): Interval {
    Outward(SeedRange(s).lo, SeedRange(s).hi, bits)
  }

  function Target(tolerance: real): real {
    (1.0 - tolerance) * (1.0 - tolerance)
  }

  function Judge(s: Schedule, bits: int): Verdict {
    if !(32 <= bits <= 512) then BadPrecision
    else if !StartInterval(s, bits).InUnit() then SeedOutside
    else
      var run := Enclose(StartInterval(s, bits), s.coefficients + [NEWTON], bits);
      if !run.0.Certified? then run.0
      else if run.1.lo < Target(s.tolerance) then TargetMissed
      else Certified
  }

  method CertifySchedule(s: Schedule, bits: int) returns (r: Verdict)
    requires s.Valid()
    ensures r == Judge(s, bits)
    ensures r.Certified? ==> forall v :: s.lo <= v <= s.hi ==> Meets(v, Exact(s, v), s.tolerance)
  {
    hide Image, StartInterval, Target, Meets, Exact;
    CertifiedMeets(s, bits);
    if !(32 <= bits <= 512) {
      return BadPrecision;
    }
    var i := StartInterval(s, bits);
    if !i.InUnit() {
      return SeedOutside;
    }
    var pairs := s.coefficients + [NEWTON];
    for k := 0 to |pairs|
      invariant Enclose(StartInterval(s, bits), pairs[..k], bits) == (Certified, i)
    {
      assert pairs[..k + 1][..k] == pairs[..k];
      var image := Image(i, pairs[k], bits);
      if image.None? {
        Stopped(StartInterval(s, bits), pairs, k + 1, bits);
        return UpdateRejected;
      }
      i := image.value;
      if !i.InUnit() {
        Stopped(StartInterval(s, bits), pairs, k + 1, bits);
        return LeavesUnit;
      }
    }
    assert pairs[..|pairs|] == pairs;
    if i.lo < Target(s.tolerance) {
      return TargetMissed;
    }
    return Certified;
  }

  /** A failed enclosure stays failed. */
  lemma {:induction false} Stopped(start: Interval, pairs: seq<Pair>, k: nat, bits: nat)
    requires k <= |pairs| && !Enclose(start, pairs[..k], bits).0.Certified?
    ensures Enclose(start, pairs, bits) == Enclose(start, pairs[..k], bits)
  {
    if k == |pairs| {
      assert pairs[..k] == pairs;
    } else {
      var rest := pairs[..|pairs| - 1];
      assert rest[..k] == pairs[..k];
      Stopped(start, rest, k, bits);
    }
  }

  /** y > 0 and (1 - tolerance)^2 <= v*y^2 <= 1: relative error below the tolerance, never expansive. */
  ghost predicate Meets(v: real, y: real, tolerance: real) {
    y > 0.0 && (1.0 - tolerance) * (1.0 - tolerance) <= Factor2(v, y) <= 1.0
  }

  lemma UpdateSquares(v: real, y: real, p: Pair)
    ensures Factor2(v, Update(v, y, p)) == Cubic(Factor2(v, y), p)
    ensures y > 0.0 && p.a - p.b * Factor2(v, y) > 0.0 ==> Update(v, y, p) > 0.0
  {
    CoupledStep(v, y, p);
  }

  /** The enclosure holds the true v*y^2, and y stays positive, at every stage. */
  lemma {:induction false} EncloseSound(start: Interval, pairs: seq<Pair>, bits: nat, v: real, y: real)
    requires Enclose(start, pairs, bits).0.Certified? && y > 0.0 && start.Contains(Factor2(v, y))
    ensures Stages(v, y, pairs) > 0.0
    ensures Enclose(start, pairs, bits).1.Contains(Factor2(v, Stages(v, y, pairs)))
    ensures |pairs| > 0 ==> Enclose(start, pairs, bits).1.InUnit()
  {
    hide Image, Update, Factor2, Cubic;
    var n := |pairs| - 1;
    if n >= 0 {
      EncloseSound(start, pairs[..n], bits, v, y);
      var before, i := Stages(v, y, pairs[..n]), Enclose(start, pairs[..n], bits).1;
      ImageSound(i, pairs[n], bits, Factor2(v, before));
      UpdateSquares(v, before, pairs[n]);
    }
  }

  lemma StartContains(s: Schedule, bits: nat, v: real)
    requires s.Valid() && s.lo <= v <= s.hi
    ensures StartInterval(s, bits).Contains(Factor2(v, s.seed))
  {
    hide Outward;
    Square(s.seed);
    ScaledBetween(s.lo, v, s.hi, s.seed * s.seed);
  }

  lemma ScaledBetween(lo: real, v: real, hi: real, q: real)
    requires lo <= v <= hi && q >= 0.0
    ensures lo * q <= v * q <= hi * q
  {
    MulNonneg(v - lo, q);
    MulNonneg(hi - v, q);
    assert (v - lo) * q == v * q - lo * q && (hi - v) * q == hi * q - v * q;
  }

  /** An accepted schedule meets its target at every point of its interval. */
  lemma CertifiedMeets(s: Schedule, bits: int)
    requires s.Valid()
    ensures Judge(s, bits).Certified? ==> forall v :: s.lo <= v <= s.hi ==> Meets(v, Exact(s, v), s.tolerance)
  {
    hide Image, StartInterval, Update, Factor2;
    if Judge(s, bits).Certified? {
      var pairs := s.coefficients + [NEWTON];
      assert pairs[..|pairs| - 1] == s.coefficients;
      forall v | s.lo <= v <= s.hi
        ensures Meets(v, Exact(s, v), s.tolerance)
      {
        StartContains(s, bits, v);
        EncloseSound(StartInterval(s, bits), pairs, bits, v, s.seed);
        assert Stages(v, s.seed, pairs) == Exact(s, v);
      }
    }
  }

  method CertifyWeightedSchedule(s: Schedule, ratios: seq<real>, bits: int) returns (r: Verdict, effective: seq<Pair>)
    requires s.Valid() && |ratios| == |s.coefficients| - 1
    ensures effective == Effective(s.coefficients, ratios)
    ensures r == Judge(s.(coefficients := effective), bits)
    ensures r.Certified? ==> forall v :: s.lo <= v <= s.hi ==> Meets(v, Exact(s.(coefficients := effective), v), s.tolerance)
  {
    hide Judge, Meets, Exact, Times;
    effective := [s.coefficients[0]];
    assert s.coefficients[..1] == effective;
    for i := 1 to |s.coefficients|
      invariant effective == Effective(s.coefficients[..i], ratios[..i - 1])
    {
      assert s.coefficients[..i + 1][..i] == s.coefficients[..i] && ratios[..i][..i - 1] == ratios[..i - 1];
      effective := effective + [Pair(s.coefficients[i].a, Times(effective[i - 1].b, ratios[i - 1]))];
    }
    assert s.coefficients[..|s.coefficients|] == s.coefficients && ratios[..|ratios|] == ratios;
    r := CertifySchedule(s.(coefficients := effective), bits);
  }

  // ----- public bound on intermediate inverses

  function Bound(seed: real, pairs: seq<Pair>): real {
    if |pairs| == 0 then seed else Times(Bound(seed, pairs[..|pairs| - 1]), pairs[|pairs| - 1].a)
  }

  /** The product of the a coefficients, rounded up after every factor. */
  function RoundedBound(seed: real, pairs: seq<Pair>, up: real -> real): real {
    if |pairs| == 0 then seed else up(Times(RoundedBound(seed, pairs[..|pairs| - 1], up), pairs[|pairs| - 1].a))
  }

  /** Where every rounding is within one part in `slack` the bound is within the compounded parts of the exact product. */
  lemma {:induction false} RoundedClose(seed: real, pairs: seq<Pair>, up: real -> real, slack: real)
    requires seed >= 0.0 && slack >= 1.0 && forall i :: 0 <= i < |pairs| ==> pairs[i].a > 0.0
    requires forall x :: x <= up(x) && (x >= 0.0 ==> up(x) <= Times(slack, x))
    ensures Bound(seed, pairs) <= RoundedBound(seed, pairs, up) <= Times(Power(slack, |pairs|), Bound(seed, pairs))
    ensures Bound(seed, pairs) >= 0.0
  {
    hide Times;
    if |pairs| == 0 {
      TimesOne(seed);
    } else {
      var n := |pairs| - 1;
      RoundedClose(seed, pairs[..n], up, slack);
      Grows(RoundedBound(seed, pairs[..n], up), Bound(seed, pairs[..n]), pairs[n].a);
      Grows(Bound(seed, pairs[..n]), 0.0, pairs[n].a);
      Compounds(slack, Power(slack, n), RoundedBound(seed, pairs[..n], up), Bound(seed, pairs[..n]), pairs[n].a);
    }
  }

  function Power(x: real, n: nat): real {
    if n == 0 then 1.0 else Times(x, Power(x, n - 1))
  }

  lemma Compounds(slack: real, power: real, rounded: real, exact: real, a: real)
    requires slack >= 1.0 && a > 0.0 && 0.0 <= exact <= rounded <= Times(power, exact)
    ensures Times(slack, Times(rounded, a)) <= Times(Times(slack, power), Times(exact, a))
  {
    MulNonneg(Times(power, exact) - rounded, slack * a);
    assert (power * exact - rounded) * (slack * a) == slack * power * (exact * a) - slack * (rounded * a);
  }

  /** Every prefix of an accepted enclosure is accepted. */
  lemma PrefixCertified(start: Interval, pairs: seq<Pair>, k: nat, bits: nat)
    requires k <= |pairs| && Enclose(start, pairs, bits).0.Certified?
    ensures Enclose(start, pairs[..k], bits).0.Certified?
  {
    if !Enclose(start, pairs[..k], bits).0.Certified? {
      Stopped(start, pairs, k, bits);
    }
  }

  /** The product of the a coefficients bounds the stages of an accepted schedule. */
  lemma {:induction false} StagesBelow(start: Interval, pairs: seq<Pair>, bits: nat, v: real, y: real)
    requires Enclose(start, pairs, bits).0.Certified? && v > 0.0 && y > 0.0 && start.Contains(Factor2(v, y))
    ensures 0.0 < Stages(v, y, pairs) <= Bound(y, pairs)
  {
    hide Image, Update, Factor2;
    var n := |pairs| - 1;
    if n >= 0 {
      var before := Stages(v, y, pairs[..n]);
      StagesBelow(start, pairs[..n], bits, v, y);
      EncloseSound(start, pairs[..n], bits, v, y);
      ImageSound(Enclose(start, pairs[..n], bits).1, pairs[n], bits, Factor2(v, before));
      UpdateSquares(v, before, pairs[n]);
      ImageShape(Enclose(start, pairs[..n], bits).1, pairs[n], bits);
      UpdateBelow(v, before, pairs[n], Bound(y, pairs[..n]));
    }
  }

  lemma ImageShape(i: Interval, p: Pair, bits: nat)
    requires Image(i, p, bits).Some?
    ensures p.a > 0.0 && p.b > 0.0
  {
    MulNonneg(p.b, i.hi);
  }

  lemma UpdateBelow(v: real, y: real, p: Pair, bound: real)
    requires v > 0.0 && p.a > 0.0 && p.b > 0.0 && 0.0 < y <= bound
    ensures Update(v, y, p) <= Times(bound, p.a)
  {
    Square(y);
    MulNonneg(v, y * y);
    MulNonneg(p.b, Factor2(v, y));
    MulNonneg(y, p.b * Factor2(v, y));
    Grows(bound, y, p.a);
    Distribute(y, p.a, p.b * Factor2(v, y));
  }

  /** Stage bounds of an accepted schedule: the running product of a, and 1/sqrt(lo). */
  lemma StageBounds(s: Schedule, bits: int, completed: nat, v: real, inverseRoot: real)
    requires s.Valid() && Judge(s, bits).Certified? && s.lo <= v <= s.hi && 1 <= completed <= |s.coefficients|
    requires inverseRoot > 0.0 && Factor2(s.lo, inverseRoot) >= 1.0
    ensures 0.0 < Stages(v, s.seed, s.coefficients[..completed]) <= MinReal(Bound(s.seed, s.coefficients[..completed]), inverseRoot)
  {
    hide Image, StartInterval, Target, Factor2, Stages, Bound;
    var pairs := s.coefficients + [NEWTON];
    assert pairs[..completed] == s.coefficients[..completed];
    StartContains(s, bits, v);
    PrefixCertified(StartInterval(s, bits), pairs, completed, bits);
    StagesBelow(StartInterval(s, bits), pairs[..completed], bits, v, s.seed);
    EncloseSound(StartInterval(s, bits), pairs[..completed], bits, v, s.seed);
    BelowInverseRoot(s.lo, v, Stages(v, s.seed, pairs[..completed]), inverseRoot);
  }

  lemma BelowInverseRoot(lo: real, v: real, y: real, root: real)
    requires 0.0 < lo <= v && y > 0.0 && root > 0.0 && Factor2(v, y) <= 1.0 <= Factor2(lo, root)
    ensures y <= root
  {
    Square(y);
    MulNonneg(v - lo, y * y);
    assert (v - lo) * (y * y) == v * (y * y) - lo * (y * y);
    if y > root {
      MulPositive(y - root, y + root);
      MulPositive(lo, (y - root) * (y + root));
      SquaresApart(lo, y, root);
      assert false;
    }
  }

  lemma SquaresApart(lo: real, y: real, root: real)
    ensures lo * ((y - root) * (y + root)) == lo * (y * y) - lo * (root * root)
  {
  }

  /** `root` caps every y with v*y^2 <= 1 and v >= lo. */
  ghost predicate Caps(lo: real, root: real) {
    forall v: real, y: real :: v >= lo && y > 0.0 && Factor2(v, y) <= 1.0 ==> y <= root
  }

  /** A root is a cap if and only if it is not below 1/sqrt(lo), whatever way it was rounded. */
  lemma RootExact(lo: real, root: real)
    requires lo > 0.0 && root > 0.0
    ensures Caps(lo, root) <==> Factor2(lo, root) >= 1.0
  {
    hide Factor2;
    if Factor2(lo, root) >= 1.0 {
      forall v: real, y: real | v >= lo && y > 0.0 && Factor2(v, y) <= 1.0
        ensures y <= root
      {
        BelowInverseRoot(lo, v, y, root);
      }
    } else {
      var y := Between(lo, root);
      assert Caps(lo, root) ==> y <= root;
    }
  }

  /** One Newton step towards 1/sqrt(lo) from below: larger, and still not above it. */
  lemma Between(lo: real, root: real) returns (y: real)
    requires lo > 0.0 && root > 0.0 && Factor2(lo, root) < 1.0
    ensures y > root && Factor2(lo, y) <= 1.0
  {
    hide Factor2;
    var q := Factor2(lo, root);
    FactorPositive(lo, root);
    var gap := (1.0 - q) / 2.0;
    MulPositive(gap, root);
    var f := 1.0 + gap;
    y := f * root;
    assert y == root + gap * root;
    FactorScaled(lo, root, f);
    NewtonFactor(f, q, gap);
  }

  lemma FactorPositive(lo: real, root: real)
    requires lo > 0.0 && root > 0.0
    ensures Factor2(lo, root) > 0.0
  {
    MulPositive(lo, root);
    MulPositive(lo * root, root);
    assert lo * root * root == lo * (root * root);
  }

  lemma FactorScaled(lo: real, root: real, f: real)
    ensures Factor2(lo, f * root) == f * f * Factor2(lo, root)
  {
    assert (f * root) * (f * root) == f * f * (root * root);
  }

  lemma NewtonFactor(f: real, q: real, gap: real)
    requires gap >= 0.0 && f == 1.0 + gap && q == 1.0 - 2.0 * gap
    ensures f * f * q <= 1.0
  {
    Square(gap);
    MulNonneg(gap, gap * gap);
    assert (1.0 + gap) * (1.0 + gap) * (1.0 - 2.0 * gap) == 1.0 - 3.0 * (gap * gap) - 2.0 * (gap * (gap * gap));
  }

  /**
   * An interval end, its binary64 square root, and the binary64 reciprocal of that root, in units of 2^-52, 2^-52 and 2^-53:
   * both operations are rounded to nearest, and one step of 2^-53 upwards still stays below 1/sqrt(lo).
   */
  lemma OneStepIsNotEnough()
    ensures var lo, s, q := 0x10_0000_1fb5_355f, 0x10_0000_0fda_9aa8, 0x1f_ffff_e04a_cacf;
            && (2 * s - 1) * (2 * s - 1) < 4 * lo * Pow2(52) < (2 * s + 1) * (2 * s + 1)
            && -s <= 2 * (q * s - Pow2(105)) <= s
            && lo * ((q + 1) * (q + 1)) < Pow2(158)
  {
    assert Pow2(8) == 0x100;
    assert Pow2(16) == 0x1_0000;
    assert Pow2(24) == 0x100_0000;
    assert Pow2(32) == 0x1_0000_0000;
    assert Pow2(40) == 0x100_0000_0000;
    assert Pow2(48) == 0x1_0000_0000_0000;
    assert Pow2(52) == 0x10_0000_0000_0000;
    hide Pow2;
    PowSum(52, 53);
    PowSum(52, 1);
    PowSum(105, 53);
    SmallPow();
  }

  lemma SmallPow()
    ensures Pow2(1) == 2
  {
  }

  lemma {:induction false} PowSum(a: nat, b: nat)
    ensures Pow2(a + b) == Pow2(a) * Pow2(b)
    decreases b
  {
    if b > 0 {
      PowSum(a, b - 1);
      assert Pow2(a + b) == 2 * Pow2(a + (b - 1));
    }
  }

  /** `up` is upward rounding and `inverseRoot` the source's 1/sqrt(lo); the recipe reader admits only positive pairs. */
  method NormalizationInverseBound(s: Schedule, completed: nat, up: real -> real, inverseRoot: real) returns (r: Option<real>)
    requires s.Valid() && forall i :: 0 <= i < |s.coefficients| ==> s.coefficients[i].a > 0.0
    requires forall x :: x <= up(x)
    requires inverseRoot > 0.0
    ensures r.None? <==> !(1 <= completed <= |s.coefficients|)
    ensures r.Some? ==> r.value == MinReal(RoundedBound(s.seed, s.coefficients[..completed], up), inverseRoot)
    ensures r.Some? ==> MinReal(Bound(s.seed, s.coefficients[..completed]), inverseRoot) <= r.value <= inverseRoot
    ensures r.Some? && Caps(s.lo, inverseRoot) ==>
              forall bits, v :: Judge(s, bits).Certified? && s.lo <= v <= s.hi ==>
                0.0 < Stages(v, s.seed, s.coefficients[..completed]) <= r.value
  {
    hide Judge, Stages, Factor2, Times, Caps;
    RootExact(s.lo, inverseRoot);
    if completed < 1 || completed > |s.coefficients| {
      return None;
    }
    var bound := s.seed;
    for j := 0 to completed
      invariant bound >= Bound(s.seed, s.coefficients[..j]) && bound >= 0.0 && bound == RoundedBound(s.seed, s.coefficients[..j], up)
    {
      assert s.coefficients[..j + 1][..j] == s.coefficients[..j];
      Grows(bound, Bound(s.seed, s.coefficients[..j]), s.coefficients[j].a);
      bound := up(Times(bound, s.coefficients[j].a));
    }
    var result := if bound <= inverseRoot then bound else inverseRoot;
    forall bits, v | Caps(s.lo, inverseRoot) && Judge(s, bits).Certified? && s.lo <= v <= s.hi
      ensures 0.0 < Stages(v, s.seed, s.coefficients[..completed]) <= result
    {
      StageBounds(s, bits, completed, v, inverseRoot);
    }
    return Some(result);
  }

  lemma Grows(x: real, y: real, a: real)
    requires x >= y && a >= 0.0
    ensures Times(x, a) >= Times(y, a)
    ensures x >= 0.0 ==> Times(x, a) >= 0.0
  {
    MulNonneg(x - y, a);
  }
}
