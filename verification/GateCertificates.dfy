/** src/fhemamba/polynomial_certificate.py:206-332: certificates for selective gates and Newton seeds. */
module GateCertificates {
  import opened Wrappers
  import opened Sums
  import opened Chebyshev
  import opened Bernstein
  import opened PolynomialCertificate
  import opened IntegerCertificate

  const MAX_DEPTH := 16
  const MAX_NODES := 4096

  // ----- the recurrence s' = a*s + b*v

  /** A decay a and a write weight b that cannot push |s| past gain * V while |v| <= V. */
  ghost predicate SafeGate(a: real, b: real, gain: real) {
    0.0 <= a <= 1.0 && -(gain * (1.0 - a)) <= b <= gain * (1.0 - a)
  }

  datatype GateStep = GateStep(a: real, b: real, v: real)

  function Recur(s: real, step: GateStep): real {
    step.a * s + step.b * step.v
  }

  /** The state after all the steps. */
  function RunGate(s: real, steps: seq<GateStep>): real {
    if |steps| == 0 then s else Recur(RunGate(s, steps[..|steps| - 1]), steps[|steps| - 1])
  }

  lemma StepBounded(s: real, step: GateStep, gain: real, V: real)
    requires gain >= 0.0 && SafeGate(step.a, step.b, gain)
    requires -V <= step.v <= V && -(gain * V) <= s <= gain * V
    ensures -(gain * V) <= Recur(s, step) <= gain * V
  {
    var a, b, v, bound := step.a, step.b, step.v, gain * V;
    var room := gain * (1.0 - a);
    MagnitudeProduct(a, s, bound);
    MagnitudeProduct(b, v, V);
    MulNonneg(room - b, V);
    MulNonneg(room + b, V);
    Distribute(V, room, b);
    assert a * bound + room * V == bound by {
      assert (gain * (1.0 - a)) * V == (1.0 - a) * (gain * V);
      assert a * bound + (1.0 - a) * bound == bound;
    }
  }

  /** Safe gates keep every run of any length inside gain * V. */
  lemma {:induction false} RunBounded(s: real, steps: seq<GateStep>, gain: real, V: real)
    requires gain >= 0.0 && -(gain * V) <= s <= gain * V
    requires forall i :: 0 <= i < |steps| ==> SafeGate(steps[i].a, steps[i].b, gain) && -V <= steps[i].v <= V
    ensures -(gain * V) <= RunGate(s, steps) <= gain * V
  {
    hide SafeGate, Recur;
    var n := |steps| - 1;
    if n >= 0 {
      RunBounded(s, steps[..n], gain, V);
      StepBounded(RunGate(s, steps[..n]), steps[n], gain, V);
    }
  }

  // ----- polynomial gates on a shared Chebyshev domain

  ghost predicate SafeSeries(decay: seq<real>, write: seq<real>, gain: real) {
    forall z :: -1.0 <= z <= 1.0 ==> SafeGate(Series(decay, z), Series(write, z), gain)
  }

  datatype AffineResult =
    | AffineError
    | AffineChecked(contraction: Outcome, below: Outcome, above: Outcome)
  {
    predicate Certified() {
      AffineChecked? && contraction.Certified? && below.Certified? && above.Certified?
    }
  }

  /** gain - gain * decay + sign * write, padded to the longer series. */
  ghost function Slack(gain: real, decay: seq<real>, sign: real, write: seq<real>): (r: seq<real>)
    requires |decay| > 0 && |write| > 0
    ensures |r| > 0
  {
    var n := if |decay| >= |write| then |decay| else |write|;
    AddAt(AddAt([gain] + Zeros(n - 1), 0, -gain, decay), 0, sign, write)
  }

  function Room(gain: real, a: real, sign: real, b: real): real {
    gain - gain * a + sign * b
  }

  lemma SlackValue(gain: real, decay: seq<real>, sign: real, write: seq<real>, t: real)
    requires |decay| > 0 && |write| > 0
    ensures Poly(Slack(gain, decay, sign, write), t) == Room(gain, Poly(decay, t), sign, Poly(write, t))
  {
    hide AddAt, Poly, Axpy, Times, Room;
    var n := if |decay| >= |write| then |decay| else |write|;
    var constant := [gain] + Zeros(n - 1);
    ConstantValue(gain, n, t);
    AddAtValue(constant, 0, -gain, decay, t);
    AddAtValue(AddAt(constant, 0, -gain, decay), 0, sign, write, t);
    assert Pow(t, 0) == 1.0;
    AxpyTwice(gain, Poly(decay, t), sign, Poly(write, t));
  }

  lemma AxpyTwice(gain: real, a: real, sign: real, b: real)
    ensures Axpy(Axpy(gain, -gain, Times(1.0, a)), sign, Times(1.0, b)) == Room(gain, a, sign, b)
  {
  }

  lemma ConstantValue(gain: real, n: nat, t: real)
    requires n > 0
    ensures Poly([gain] + Zeros(n - 1), t) == gain
  {
    assert [gain] + Zeros(n - 1) == Zeros(n)[0 := Zeros(n)[0] + gain];
    CombineBump(Zeros(n), 0, gain, Powers(t));
    CombineZeros(n, Powers(t));
    assert Powers(t)(0) == 1.0;
  }

  method CertifyAffineStateInvariant(decayChebyshev: seq<real>, writeChebyshev: seq<real>, gain: real) returns (r: AffineResult)
    ensures r.AffineError? <==> gain <= 0.0 || decayChebyshev == [] || writeChebyshev == []
    ensures r.Certified() ==> SafeSeries(decayChebyshev, writeChebyshev, gain)
    ensures r.AffineChecked? && (r.contraction.EndpointCounterexample? || r.below.EndpointCounterexample? || r.above.EndpointCounterexample?)
            ==> !SafeSeries(decayChebyshev, writeChebyshev, gain)
    ensures r.AffineChecked? ==> r == AffineVerdict(UnitPower(decayChebyshev), UnitPower(writeChebyshev), gain)
  {
    hide *;
    CertifiedMeans(AffineError);
    if gain <= 0.0 {
      return AffineError;
    }
    var decay := ChebyshevUnitPower(decayChebyshev);
    var write := ChebyshevUnitPower(writeChebyshev);
    if decay.None? || write.None? {
      return AffineError;
    }
    UnitPowerNonempty(decayChebyshev);
    UnitPowerNonempty(writeChebyshev);
    var contraction := CertifyBounds(decay.value, Some(0.0), Some(1.0), MAX_DEPTH, MAX_NODES);
    var n := if |decay.value| >= |write.value| then |decay.value| else |write.value|;
    ZerosLength(n - 1);
    var room := AddRow([gain] + Zeros(n - 1), -gain, decay.value);
    var inequality := AddRow(room, -1.0, write.value);
    SlackIs(gain, decay.value, -1.0, write.value);
    var below := CertifyBounds(inequality, Some(0.0), None, MAX_DEPTH, MAX_NODES);
    inequality := AddRow(room, 1.0, write.value);
    SlackIs(gain, decay.value, 1.0, write.value);
    var above := CertifyBounds(inequality, Some(0.0), None, MAX_DEPTH, MAX_NODES);
    r := AffineChecked(contraction, below, above);
    AffineMeans(decayChebyshev, writeChebyshev, gain);
    CertifiedMeans(r);
    AffineVerdictIs(decay.value, write.value, gain);
  }

  /** The three queries of the certificate: 0 <= a <= 1 and gain*(1 - a) - b, gain*(1 - a) + b >= 0. */
  ghost function AffineVerdict(decay: seq<real>, write: seq<real>, gain: real): AffineResult
    requires |decay| > 0 && |write| > 0
  {
    AffineChecked(Decision(decay, Some(0.0), Some(1.0), MAX_DEPTH, MAX_NODES),
                  Decision(Slack(gain, decay, -1.0, write), Some(0.0), None, MAX_DEPTH, MAX_NODES),
                  Decision(Slack(gain, decay, 1.0, write), Some(0.0), None, MAX_DEPTH, MAX_NODES))
  }

  lemma AffineVerdictIs(decay: seq<real>, write: seq<real>, gain: real)
    requires |decay| > 0 && |write| > 0
    ensures AffineVerdict(decay, write, gain)
         == AffineChecked(Decision(decay, Some(0.0), Some(1.0), MAX_DEPTH, MAX_NODES),
                          Decision(Slack(gain, decay, -1.0, write), Some(0.0), None, MAX_DEPTH, MAX_NODES),
                          Decision(Slack(gain, decay, 1.0, write), Some(0.0), None, MAX_DEPTH, MAX_NODES))
  {
    hide Decision, Slack;
  }

  lemma CertifiedMeans(r: AffineResult)
    ensures r.Certified() <==> r.AffineChecked? && r.contraction.Certified? && r.below.Certified? && r.above.Certified?
  {
  }

  lemma UnitPowerNonempty(c: seq<real>)
    ensures c != [] ==> |UnitPower(c)| > 0
  {
  }

  lemma ZerosLength(n: nat)
    ensures |Zeros(n)| == n
  {
  }

  lemma SlackIs(gain: real, decay: seq<real>, sign: real, write: seq<real>)
    requires |decay| > 0 && |write| > 0
    ensures var n := if |decay| >= |write| then |decay| else |write|;
            |Zeros(n - 1)| == n - 1 &&
            Slack(gain, decay, sign, write) == AddAt(AddAt([gain] + Zeros(n - 1), 0, -gain, decay), 0, sign, write)
  {
  }

  /** The three bounds are together exactly the safety of the gate at every point of the domain. */
  lemma AffineMeans(decay: seq<real>, write: seq<real>, gain: real)
    requires decay != [] && write != []
    ensures var a, b := UnitPower(decay), UnitPower(write);
            SafeSeries(decay, write, gain) <==>
            && (forall t :: 0.0 <= t <= 1.0 ==> Within(Poly(a, t), Some(0.0), Some(1.0)))
            && (forall t :: 0.0 <= t <= 1.0 ==> Within(Poly(Slack(gain, a, -1.0, b), t), Some(0.0), None))
            && (forall t :: 0.0 <= t <= 1.0 ==> Within(Poly(Slack(gain, a, 1.0, b), t), Some(0.0), None))
  {
    hide Series, Poly, Slack, UnitPower;
    var a, b := UnitPower(decay), UnitPower(write);
    UnitPowerNonempty(decay);
    UnitPowerNonempty(write);
    forall t
      ensures Poly(a, t) == Series(decay, 2.0 * t - 1.0) && Poly(b, t) == Series(write, 2.0 * t - 1.0)
      ensures SafeGate(Poly(a, t), Poly(b, t), gain) <==>
              Within(Poly(a, t), Some(0.0), Some(1.0)) && Within(Poly(Slack(gain, a, -1.0, b), t), Some(0.0), None)
              && Within(Poly(Slack(gain, a, 1.0, b), t), Some(0.0), None)
    {
      UnitPowerValue(decay, t);
      UnitPowerValue(write, t);
      SlackValue(gain, a, -1.0, b, t);
      SlackValue(gain, a, 1.0, b, t);
      Distribute(gain, 1.0, Poly(a, t));
    }
    hide SafeGate, Within;
    forall z
      ensures (z + 1.0) / 2.0 * 2.0 - 1.0 == z && Series(decay, z) == Poly(a, (z + 1.0) / 2.0) && Series(write, z) == Poly(b, (z + 1.0) / 2.0)
    {
      assert 2.0 * ((z + 1.0) / 2.0) - 1.0 == z;
      UnitPowerValue(decay, (z + 1.0) / 2.0);
      UnitPowerValue(write, (z + 1.0) / 2.0);
    }
    if SafeSeries(decay, write, gain) {
      forall t | 0.0 <= t <= 1.0
        ensures SafeGate(Poly(a, t), Poly(b, t), gain)
      {
        assert SafeGate(Series(decay, 2.0 * t - 1.0), Series(write, 2.0 * t - 1.0), gain);
      }
    }
  }

  /** Any run of a certified affine gate, started within gain * V and driven by |v| <= V, stays within gain * V. */
  lemma SeriesRunBounded(decay: seq<real>, write: seq<real>, gain: real, V: real, zs: seq<real>, vs: seq<real>, s: real)
    requires gain >= 0.0 && SafeSeries(decay, write, gain) && |zs| == |vs|
    requires forall i :: 0 <= i < |zs| ==> -1.0 <= zs[i] <= 1.0 && -V <= vs[i] <= V
    requires -(gain * V) <= s <= gain * V
    ensures -(gain * V) <= RunGate(s, SeriesSteps(decay, write, zs, vs)) <= gain * V
  {
    hide Series, SafeGate;
    RunBounded(s, SeriesSteps(decay, write, zs, vs), gain, V);
  }

  function SeriesSteps(decay: seq<real>, write: seq<real>, zs: seq<real>, vs: seq<real>): seq<GateStep>
    requires |zs| == |vs|
  {
    seq(|zs|, i requires 0 <= i < |zs| => GateStep(Series(decay, zs[i]), Series(write, zs[i]), vs[i]))
  }

  // ----- a = 1 - p^2, b = p^2 * q^2

  ghost predicate SafeDissipative(p: seq<real>, q: seq<real>, gain: real) {
    forall z :: -1.0 <= z <= 1.0 ==> SafeFactors(Series(p, z), Series(q, z), gain)
  }

  /** The gate with dissipation d^2 and write d^2 * e^2. */
  ghost predicate SafeFactors(d: real, e: real, gain: real) {
    SafeGate(1.0 - d * d, (d * d) * (e * e), gain)
  }

  /** (|q_0| + ... + |q_n|)^2 */
  function SquaredNorm(q: seq<real>): (s: real)
    ensures s >= 0.0
  {
    Square(Norm1(q));
    Norm1(q) * Norm1(q)
  }

  datatype DissipativeResult =
    | DissipativeError
    | DissipativeChecked(certified: bool, gain: real, contraction: Outcome)

  /** `nearest` is the binary64 conversion of the squared norm (None on overflow) and `next` its upward neighbour. */
  method CertifyDissipativeGate(dissipation: seq<Fraction>, equilibrium: seq<Fraction>, nearest: Option<real>, next: real)
    returns (r: DissipativeResult)
    requires nearest.Some? ==> nearest.value >= 0.0
    requires nearest.Some? && nearest.value < SquaredNorm(Values(equilibrium)) ==> next >= SquaredNorm(Values(equilibrium))
    ensures r.DissipativeError? <==> equilibrium == [] || dissipation == [] || nearest.None?
    ensures r.DissipativeChecked? ==> (r.certified <==> r.contraction.Certified?) && r.gain >= SquaredNorm(Values(equilibrium))
    ensures r.DissipativeChecked? && r.certified ==> SafeDissipative(Values(dissipation), Values(equilibrium), r.gain)
    ensures r.DissipativeChecked? ==>
              && r.gain == (if nearest.value < SquaredNorm(Values(equilibrium)) then next else nearest.value)
              && r.contraction == Decision(ConvertedSeries(dissipation), Some(-1.0), Some(1.0), MAX_DEPTH, MAX_NODES)
  {
    hide *;
    if equilibrium == [] {
      return DissipativeError;
    }
    var bound := SquaredNorm(Values(equilibrium));
    if nearest.None? {
      return DissipativeError;
    }
    var gain := nearest.value;
    if gain < bound {
      gain := next;
    }
    var minusOne: Fraction := Rational(-1, 1);
    var one: Fraction := Rational(1, 1);
    UnitValues();
    UnitQuery(dissipation);
    var contraction := CertifyChebyshevBounds(dissipation, minusOne, one, MAX_DEPTH, MAX_NODES);
    if contraction.ValueError? {
      return DissipativeError;
    }
    if contraction.Certified? {
      DissipativeMeans(Values(dissipation), Values(equilibrium), gain);
    }
    return DissipativeChecked(contraction.Certified?, gain, contraction);
  }

  lemma UnitValues()
    ensures Value(Rational(-1, 1)) == -1.0 && Value(Rational(1, 1)) == 1.0
    ensures MAX_DEPTH == 16 && MAX_NODES == 4096
  {
  }

  lemma UnitQuery(dissipation: seq<Fraction>)
    ensures Decision(ConvertedSeries(dissipation), Some(Value(Rational(-1, 1))), Some(Value(Rational(1, 1))), MAX_DEPTH, MAX_NODES).ValueError?
       <==> dissipation == []
  {
    hide UnitPower, Explore;
    DecisionQueue(ConvertedSeries(dissipation), Some(Value(Rational(-1, 1))), Some(Value(Rational(1, 1))), MAX_DEPTH, MAX_NODES);
  }

  /** |p| <= 1 and |q| <= sum|q_k| make the factored gate safe. */
  lemma DissipativeMeans(p: seq<real>, q: seq<real>, gain: real)
    requires forall z :: -1.0 <= z <= 1.0 ==> -1.0 <= Series(p, z) <= 1.0
    requires SquaredNorm(q) <= gain
    ensures SafeDissipative(p, q, gain)
  {
    hide Series, SafeFactors, SquaredNorm;
    forall z | -1.0 <= z <= 1.0
      ensures SafeFactors(Series(p, z), Series(q, z), gain)
    {
      SeriesBound(q, z);
      NormSquares(q);
      FactoredGate(Series(p, z), Series(q, z), Norm1(q), gain);
    }
  }

  lemma NormSquares(q: seq<real>)
    ensures SquaredNorm(q) == Times(Norm1(q), Norm1(q))
  {
  }

  lemma FactoredGate(d: real, e: real, norm: real, gain: real)
    requires -1.0 <= d <= 1.0 && -norm <= e <= norm && Times(norm, norm) <= gain
    ensures SafeFactors(d, e, gain)
  {
    Square(d);
    Square(e);
    MulNonneg(1.0 - d, 1.0 + d);
    MulNonneg(norm - e, norm + e);
    assert (norm - e) * (norm + e) == norm * norm - e * e;
    assert (1.0 - d) * (1.0 + d) == 1.0 - d * d;
    MulNonneg(d * d, gain - e * e);
    MulNonneg(d * d, e * e);
    Distribute(d * d, gain, e * e);
  }

  /** Any run of a certified dissipative gate stays within gain * V. */
  lemma DissipativeRunBounded(p: seq<real>, q: seq<real>, gain: real, V: real, zs: seq<real>, vs: seq<real>, s: real)
    requires gain >= 0.0 && SafeDissipative(p, q, gain) && |zs| == |vs|
    requires forall i :: 0 <= i < |zs| ==> -1.0 <= zs[i] <= 1.0 && -V <= vs[i] <= V
    requires -(gain * V) <= s <= gain * V
    ensures -(gain * V) <= RunGate(s, DissipativeSteps(p, q, zs, vs)) <= gain * V
  {
    hide Series, SafeGate;
    forall i | 0 <= i < |zs|
      ensures SafeGate(DissipativeSteps(p, q, zs, vs)[i].a, DissipativeSteps(p, q, zs, vs)[i].b, gain)
    {
      assert SafeFactors(Series(p, zs[i]), Series(q, zs[i]), gain);
    }
    RunBounded(s, DissipativeSteps(p, q, zs, vs), gain, V);
  }

  function DissipativeSteps(p: seq<real>, q: seq<real>, zs: seq<real>, vs: seq<real>): seq<GateStep>
    requires |zs| == |vs|
  {
    seq(|zs|, i requires 0 <= i < |zs| => FactoredStep(Series(p, zs[i]), Series(q, zs[i]), vs[i]))
  }

  function FactoredStep(d: real, e: real, v: real): GateStep {
    GateStep(1.0 - d * d, (d * d) * (e * e), v)
  }

  // ----- gates sharing a Bernstein basis

  predicate CoefficientSafe(a: real, b: real, gain: real) {
    0.0 <= a <= 1.0 && Abs(b) <= gain * (1.0 - a)
  }

  datatype BernsteinResult =
    | BernsteinError
    | BernsteinChecked(certified: bool, failed: seq<nat>)

  /** The indices below n that break a coefficient inequality, in order. */
  function Failures(decay: seq<real>, write: seq<real>, gain: real, n: nat): (f: seq<nat>)
    requires n <= |decay| == |write|
    ensures forall i: nat :: i in f <==> i < n && !CoefficientSafe(decay[i], write[i], gain)
  {
    if n == 0 then []
    else
      var f := Failures(decay, write, gain, n - 1);
      if CoefficientSafe(decay[n - 1], write[n - 1], gain) then f else f + [n - 1]
  }

  method CertifyBernsteinStateInvariant(decay: seq<real>, write: seq<real>, gain: real) returns (r: BernsteinResult)
    ensures r.BernsteinError? <==> decay == [] || |decay| != |write| || gain <= 0.0
    ensures r.BernsteinChecked? ==> forall i: nat :: i in r.failed <==> (i < |decay| == |write| && !CoefficientSafe(decay[i], write[i], gain))
    ensures r.BernsteinChecked? ==> (r.certified <==> r.failed == [])
    ensures r.BernsteinChecked? && r.certified ==> forall t :: 0.0 <= t <= 1.0 ==> SafeGate(Eval(decay, t), Eval(write, t), gain)
  {
    hide CoefficientSafe, SafeGate, Eval;
    if decay == [] || |decay| != |write| || gain <= 0.0 {
      return BernsteinError;
    }
    var failed := Failures(decay, write, gain, |decay|);
    if failed == [] {
      forall t | 0.0 <= t <= 1.0
        ensures SafeGate(Eval(decay, t), Eval(write, t), gain)
      {
        forall i: nat | i < |decay|
          ensures CoefficientSafe(decay[i], write[i], gain)
        {
          assert i !in failed;
        }
        BernsteinGateSafe(decay, write, gain, t);
      }
    }
    return BernsteinChecked(failed == [], failed);
  }

  /** Coefficient inequalities carry over to the whole interval. */
  lemma BernsteinGateSafe(decay: seq<real>, write: seq<real>, gain: real, t: real)
    requires 0 < |decay| == |write| && 0.0 <= t <= 1.0
    requires forall i :: 0 <= i < |decay| ==> CoefficientSafe(decay[i], write[i], gain)
    ensures SafeGate(Eval(decay, t), Eval(write, t), gain)
  {
    hide Eval, Mix;
    forall i | 0 <= i < |decay|
      ensures 0.0 <= decay[i] <= 1.0
    {
      assert CoefficientSafe(decay[i], write[i], gain);
    }
    ConvexHull(decay, 0.0, 1.0, t);
    RoomValue(decay, write, gain, 1.0, t);
    RoomValue(decay, write, gain, -1.0, t);
    Distribute(gain, 1.0, Eval(decay, t));
  }

  /** gain * (1 - decay) + sign * write is nonnegative on [0,1] because its coefficients are. */
  lemma RoomValue(decay: seq<real>, write: seq<real>, gain: real, sign: real, t: real)
    requires 0 < |decay| == |write| && 0.0 <= t <= 1.0 && (sign == 1.0 || sign == -1.0)
    requires forall i :: 0 <= i < |decay| ==> CoefficientSafe(decay[i], write[i], gain)
    ensures Room(gain, Eval(decay, t), sign, Eval(write, t)) >= 0.0
  {
    hide Eval, Mix, CoefficientSafe;
    var n := |decay|;
    var ones := seq(n, i => 1.0);
    var room := seq(n, i requires 0 <= i < n => Mix(gain, ones[i], -gain, decay[i]));
    var slack := seq(n, i requires 0 <= i < n => Mix(1.0, room[i], sign, write[i]));
    EvalLinear(ones, gain, decay, -gain, room, t);
    EvalLinear(room, 1.0, write, sign, slack, t);
    ConvexHull(ones, 1.0, 1.0, t);
    forall i | 0 <= i < n
      ensures slack[i] >= 0.0
    {
      SlackNonneg(decay[i], write[i], gain, sign);
    }
    EvalNonneg(slack, t);
    MixTwice(gain, Eval(decay, t), sign, Eval(write, t));
  }

  lemma MixTwice(gain: real, a: real, sign: real, b: real)
    ensures Mix(1.0, Mix(gain, 1.0, -gain, a), sign, b) == Room(gain, a, sign, b)
  {
  }

  lemma SlackNonneg(a: real, b: real, gain: real, sign: real)
    requires CoefficientSafe(a, b, gain) && (sign == 1.0 || sign == -1.0)
    ensures Mix(1.0, Mix(gain, 1.0, -gain, a), sign, b) >= 0.0
  {
    Distribute(gain, 1.0, a);
    MixTwice(gain, a, sign, b);
  }

  /** Nonnegative Bernstein coefficients give a nonnegative polynomial. */
  lemma {:induction false} EvalNonneg(c: seq<real>, t: real)
    requires |c| > 0 && 0.0 <= t <= 1.0
    requires forall i :: 0 <= i < |c| ==> c[i] >= 0.0
    ensures Eval(c, t) >= 0.0
    decreases |c|
  {
    if |c| > 1 {
      EvalNonneg(c[..|c| - 1], t);
      EvalNonneg(c[1..], t);
      MulNonneg(1.0 - t, Eval(c[..|c| - 1], t));
      MulNonneg(t, Eval(c[1..], t));
    }
  }

  /** Any run of a certified Bernstein gate stays within gain * V. */
  lemma BernsteinRunBounded(decay: seq<real>, write: seq<real>, gain: real, V: real, ts: seq<real>, vs: seq<real>, s: real)
    requires 0 < |decay| == |write| && gain >= 0.0 && |ts| == |vs|
    requires forall i :: 0 <= i < |decay| ==> CoefficientSafe(decay[i], write[i], gain)
    requires forall i :: 0 <= i < |ts| ==> 0.0 <= ts[i] <= 1.0 && -V <= vs[i] <= V
    requires -(gain * V) <= s <= gain * V
    ensures -(gain * V) <= RunGate(s, BernsteinSteps(decay, write, ts, vs)) <= gain * V
  {
    hide Eval, SafeGate, CoefficientSafe;
    forall i | 0 <= i < |ts|
      ensures SafeGate(Eval(decay, ts[i]), Eval(write, ts[i]), gain)
    {
      BernsteinGateSafe(decay, write, gain, ts[i]);
    }
    RunBounded(s, BernsteinSteps(decay, write, ts, vs), gain, V);
  }

  function BernsteinSteps(decay: seq<real>, write: seq<real>, ts: seq<real>, vs: seq<real>): seq<GateStep>
    requires 0 < |decay| && 0 < |write| && |ts| == |vs|
  {
    seq(|ts|, i requires 0 <= i < |ts| => GateStep(Eval(decay, ts[i]), Eval(write, ts[i]), vs[i]))
  }

  // ----- Newton initializers

  datatype InitializerKind = PolyNewton | SquaredPolyNewton | OtherKind

  datatype NewtonResult =
    | NewtonError
    | NewtonChecked(positive: Outcome, basin: Outcome)
    | NewtonSquared(basin: Outcome)
  {
    predicate Certified() {
      match this
      case NewtonError => false
      case NewtonChecked(positive, basin) => positive.Certified? && basin.Certified?
      case NewtonSquared(basin) => basin.Certified?
    }
  }

  /** The initial guess y0 at variance v. */
  function Guess(kind: InitializerKind, coefficients: seq<real>, damping: real, lo: real, hi: real, v: real): real
    requires lo < hi
  {
    var g := Series(coefficients, 2.0 * ((v - lo) / (hi - lo)) - 1.0);
    Times(damping, if kind.SquaredPolyNewton? then Times(g, g) else g)
  }

  ghost predicate SafeInitializer(kind: InitializerKind, coefficients: seq<real>, damping: real, lo: real, hi: real)
    requires lo < hi
  {
    forall v :: lo <= v <= hi ==> SafeSeed(v, Guess(kind, coefficients, damping, lo, hi, v))
  }

  ghost predicate SafeSeed(v: real, y: real) {
    y >= 0.0 && v * (y * y) <= 3.0
  }

  function Scaled(s: real, p: seq<real>): seq<real> {
    seq(|p|, i requires 0 <= i < |p| => s * p[i])
  }

  lemma ScaledValue(s: real, p: seq<real>, t: real)
    ensures Poly(Scaled(s, p), t) == Times(s, Poly(p, t))
  {
    hide Combine;
    CombineLinear(p, s, Zeros(|p|), 0.0, Scaled(s, p), Powers(t));
    CombineZeros(|p|, Powers(t));
  }

  method CertifyNewtonInitializer(kind: InitializerKind, lo: real, hi: real, damping: real, iterations: int, coefficients: seq<real>)
    returns (r: NewtonResult)
    ensures r.NewtonError? <==> kind.OtherKind? || !(0.0 <= lo < hi) || damping <= 0.0 || iterations < 1 || coefficients == []
    ensures r.Certified() ==> SafeInitializer(kind, coefficients, damping, lo, hi)
    ensures !r.NewtonError? ==> r == NewtonVerdict(kind, UnitPower(coefficients), damping, lo, hi)
  {
    hide *;
    if kind.OtherKind? {
      return NewtonErrorResult();
    }
    if !(0.0 <= lo < hi) {
      return NewtonErrorResult();
    }
    if damping <= 0.0 || iterations < 1 {
      return NewtonErrorResult();
    }
    var unit := ChebyshevUnitPower(coefficients);
    if unit.None? {
      return NewtonErrorResult();
    }
    UnitPowerNonempty(coefficients);
    var guess := unit.value;
    var positive := Certified(0, 0, 0);
    if kind.SquaredPolyNewton? {
      guess := PolynomialProduct(guess, guess);
    } else {
      positive := CertifyBounds(guess, Some(0.0), None, MAX_DEPTH, MAX_NODES);
    }
    ghost var base := guess;
    ScaledLength(damping, guess);
    guess := Scaled(damping, guess);
    var square := PolynomialProduct(guess, guess);
    var basin := PolynomialProduct([lo, hi - lo], square);
    var basinResult := CertifyBounds(basin, None, Some(3.0), MAX_DEPTH, MAX_NODES);
    r := if kind.SquaredPolyNewton? then NewtonSquared(basinResult) else NewtonChecked(positive, basinResult);
    NewtonCertifiedMeans(r);
    NewtonVerdictIs(kind, unit.value, damping, lo, hi);
    if r.Certified() {
      InitializerMeans(kind, coefficients, damping, lo, hi, base, basin);
    }
  }

  /** The power coefficients of v*y0^2 over the position of v in [lo, hi]. */
  ghost function BasinPower(kind: InitializerKind, unit: seq<real>, damping: real, lo: real, hi: real): seq<real>
    requires |unit| > 0
  {
    var guess := if kind.SquaredPolyNewton? then Product(unit, unit) else unit;
    var scaled := Scaled(damping, guess);
    Product([lo, hi - lo], Product(scaled, scaled))
  }

  /** The queries of the certificate: y0 >= 0, unless y0 is a square, and v*y0^2 <= 3. */
  ghost function NewtonVerdict(kind: InitializerKind, unit: seq<real>, damping: real, lo: real, hi: real): NewtonResult
    requires |unit| > 0
  {
    var basin := Decision(BasinPower(kind, unit, damping, lo, hi), None, Some(3.0), MAX_DEPTH, MAX_NODES);
    if kind.SquaredPolyNewton? then NewtonSquared(basin) else NewtonChecked(Decision(unit, Some(0.0), None, MAX_DEPTH, MAX_NODES), basin)
  }

  lemma NewtonVerdictIs(kind: InitializerKind, unit: seq<real>, damping: real, lo: real, hi: real)
    requires |unit| > 0
    ensures var guess := if kind.SquaredPolyNewton? then Product(unit, unit) else unit;
            var basin := Decision(Product([lo, hi - lo], Product(Scaled(damping, guess), Scaled(damping, guess))), None, Some(3.0), MAX_DEPTH, MAX_NODES);
            NewtonVerdict(kind, unit, damping, lo, hi)
            == if kind.SquaredPolyNewton? then NewtonSquared(basin) else NewtonChecked(Decision(unit, Some(0.0), None, MAX_DEPTH, MAX_NODES), basin)
  {
    hide Decision, Product, Scaled;
  }

  function NewtonErrorResult(): (r: NewtonResult)
    ensures r.NewtonError? && !r.Certified()
  {
    NewtonError
  }

  lemma ScaledLength(s: real, p: seq<real>)
    ensures |Scaled(s, p)| == |p|
  {
  }

  lemma NewtonCertifiedMeans(r: NewtonResult)
    ensures r.Certified() <==> (r.NewtonChecked? && r.positive.Certified? && r.basin.Certified?) || (r.NewtonSquared? && r.basin.Certified?)
  {
  }

  lemma InitializerMeans(kind: InitializerKind, coefficients: seq<real>, damping: real, lo: real, hi: real, base: seq<real>, basin: seq<real>)
    requires !kind.OtherKind? && 0.0 <= lo < hi && damping > 0.0 && coefficients != []
    requires kind.PolyNewton? ==> base == UnitPower(coefficients)
    requires kind.PolyNewton? ==> forall t :: 0.0 <= t <= 1.0 ==> Within(Poly(base, t), Some(0.0), None)
    requires kind.SquaredPolyNewton? ==> forall t :: Poly(base, t) == Times(Poly(UnitPower(coefficients), t), Poly(UnitPower(coefficients), t))
    requires forall t :: Poly(basin, t) == Times(Poly([lo, hi - lo], t), Times(Poly(Scaled(damping, base), t), Poly(Scaled(damping, base), t)))
    requires forall t :: 0.0 <= t <= 1.0 ==> Within(Poly(basin, t), None, Some(3.0))
    ensures SafeInitializer(kind, coefficients, damping, lo, hi)
  {
    hide UnitPower, Poly, Scaled, Series, SafeSeed, Times;
    forall v | lo <= v <= hi
      ensures SafeSeed(v, Guess(kind, coefficients, damping, lo, hi, v))
    {
      var t := (v - lo) / (hi - lo);
      UnitPosition(v, lo, hi);
      UnitPowerValue(coefficients, t);
      ScaledValue(damping, base, t);
      PolyTwo(lo, hi - lo, t);
      assert Within(Poly(basin, t), None, Some(3.0));
      if kind.PolyNewton? {
        assert Within(Poly(base, t), Some(0.0), None);
      } else {
        SquareTimes(Poly(UnitPower(coefficients), t));
      }
      SeedMeans(v, damping, Poly(base, t));
    }
  }

  lemma SquareTimes(x: real)
    ensures Times(x, x) >= 0.0
  {
    Square(x);
  }

  lemma UnitPosition(v: real, lo: real, hi: real)
    requires lo < hi && lo <= v <= hi
    ensures 0.0 <= (v - lo) / (hi - lo) <= 1.0
    ensures lo + (hi - lo) * ((v - lo) / (hi - lo)) == v
  {
    hide Times;
    var t := (v - lo) / (hi - lo);
    DivideBack(v - lo, hi - lo);
    TimesSwap(t, hi - lo);
    UnitQuotient(t, hi - lo);
  }

  lemma TimesSwap(x: real, y: real)
    ensures Times(x, y) == y * x
  {
  }

  lemma UnitQuotient(t: real, d: real)
    requires d > 0.0 && 0.0 <= Times(t, d) <= d
    ensures 0.0 <= t <= 1.0
  {
    if t < 0.0 {
      MulPositive(-t, d);
      assert false;
    }
    if t > 1.0 {
      MulPositive(t - 1.0, d);
      assert false;
    }
  }

  lemma DivideBack(x: real, d: real)
    requires d != 0.0
    ensures Times(x / d, d) == x
  {
  }

  lemma SeedMeans(v: real, damping: real, g: real)
    requires damping > 0.0 && g >= 0.0 && Times(v, Times(Times(damping, g), Times(damping, g))) <= 3.0
    ensures SafeSeed(v, Times(damping, g))
  {
    MulNonneg(damping, g);
  }

  /** One exact Newton step y(3 - v*y^2)/2. */
  function NewtonStep(v: real, y: real): real {
    y * (3.0 - v * (y * y)) / 2.0
  }

  function NewtonIterate(v: real, y: real, n: nat): real {
    if n == 0 then y else NewtonStep(v, NewtonIterate(v, y, n - 1))
  }

  /** A safe seed makes every later iterate nonnegative and non-expansive: 0 <= v*y^2 <= 1. */
  lemma {:induction false} NewtonStaysSafe(v: real, y: real, n: nat)
    requires v >= 0.0 && SafeSeed(v, y) && n > 0
    ensures NewtonIterate(v, y, n) >= 0.0 && v * (NewtonIterate(v, y, n) * NewtonIterate(v, y, n)) <= 1.0
  {
    hide NewtonStep;
    if n > 1 {
      NewtonStaysSafe(v, y, n - 1);
    }
    NewtonOnce(v, NewtonIterate(v, y, n - 1));
  }

  lemma NewtonOnce(v: real, y: real)
    requires v >= 0.0 && y >= 0.0 && v * (y * y) <= 3.0
    ensures NewtonStep(v, y) >= 0.0 && v * (NewtonStep(v, y) * NewtonStep(v, y)) <= 1.0
  {
    var u := v * (y * y);
    Square(y);
    MulNonneg(v, y * y);
    MulNonneg(y, 3.0 - u);
    Cubic(u);
    calc {
      v * (NewtonStep(v, y) * NewtonStep(v, y));
      v * ((y * (3.0 - u) / 2.0) * (y * (3.0 - u) / 2.0));
      { Regrouped(v, y, 3.0 - u); }
      (v * (y * y)) * ((3.0 - u) * (3.0 - u)) / 4.0;
      u * ((3.0 - u) * (3.0 - u)) / 4.0;
    }
  }

  lemma Regrouped(v: real, y: real, w: real)
    ensures v * ((y * w / 2.0) * (y * w / 2.0)) == (v * (y * y)) * (w * w) / 4.0
  {
  }

  /** u(3-u)^2 <= 4 on [0,3], since 4 - u(3-u)^2 == (1-u)^2 (4-u). */
  lemma Cubic(u: real)
    requires 0.0 <= u <= 3.0
    ensures u * ((3.0 - u) * (3.0 - u)) <= 4.0
  {
    Square(1.0 - u);
    MulNonneg((1.0 - u) * (1.0 - u), 4.0 - u);
    assert 4.0 - u * ((3.0 - u) * (3.0 - u)) == (1.0 - u) * (1.0 - u) * (4.0 - u);
  }
}
