/** Which gates and initializers are certain to be certified (src/fhemamba/polynomial_certificate.py:206-299). */
module GateCompleteness {
  import opened Wrappers
  import opened Sums
  import opened Chebyshev
  import opened PolynomialCertificate
  import opened CertificateCompleteness
  import opened GateCertificates

  /** Subdivision to this depth fits the default limits of depth 16 and 4096 nodes. */
  const REACHED: nat := 11

  lemma LimitsReach()
    ensures REACHED <= MAX_DEPTH && Subtree(REACHED) <= MAX_NODES
  {
    assert Pow2(4) == 16;
    assert Pow2(8) == 256;
    assert Pow2(11) == 2048;
  }

  /** A margin that the default limits resolve. */
  lemma ClearByDefault(power: seq<real>, lower: Option<real>, upper: Option<real>, margin: real)
    requires ValidQuery(power, lower, upper, MAX_DEPTH, MAX_NODES) && margin > 0.0
    requires ClearOnUnit(power, lower, upper, margin) && DeepEnough(power, margin, REACHED)
    ensures Decision(power, lower, upper, MAX_DEPTH, MAX_NODES).Certified?
  {
    hide *;
    LimitsReach();
    ClearIsCertified(power, lower, upper, margin, REACHED, MAX_DEPTH, MAX_NODES);
  }

  /** The gate keeps 0 <= a <= 1 and |b| <= gain*(1 - a) with a margin on its whole domain. */
  ghost predicate ClearSeries(decay: seq<real>, write: seq<real>, gain: real, margin: real) {
    forall z :: -1.0 <= z <= 1.0 ==> ClearGate(Series(decay, z), Series(write, z), gain, margin)
  }

  predicate ClearGate(a: real, b: real, gain: real, margin: real) {
    margin <= a <= 1.0 - margin && Room(gain, a, -1.0, b) >= margin && Room(gain, a, 1.0, b) >= margin
  }

  /** Such an affine gate is certified when the margin is one that the default limits resolve. */
  lemma ClearAffineCertified(decay: seq<real>, write: seq<real>, gain: real, margin: real)
    requires decay != [] && write != [] && gain > 0.0 && margin > 0.0 && ClearSeries(decay, write, gain, margin)
    requires |UnitPower(decay)| > 0 && |UnitPower(write)| > 0
    requires DeepEnough(UnitPower(decay), margin, REACHED)
    requires DeepEnough(Slack(gain, UnitPower(decay), -1.0, UnitPower(write)), margin, REACHED)
    requires DeepEnough(Slack(gain, UnitPower(decay), 1.0, UnitPower(write)), margin, REACHED)
    ensures AffineVerdict(UnitPower(decay), UnitPower(write), gain).Certified()
  {
    hide *;
    var a, b := UnitPower(decay), UnitPower(write);
    var below, above := Slack(gain, a, -1.0, b), Slack(gain, a, 1.0, b);
    forall t | 0.0 <= t <= 1.0
      ensures Within(Poly(a, t), Raised(Some(0.0), margin), Lowered(Some(1.0), margin))
      ensures Within(Poly(below, t), Raised(Some(0.0), margin), Lowered(None, margin))
      ensures Within(Poly(above, t), Raised(Some(0.0), margin), Lowered(None, margin))
    {
      UnitPowerValue(decay, t);
      UnitPowerValue(write, t);
      SlackValue(gain, a, -1.0, b, t);
      SlackValue(gain, a, 1.0, b, t);
      ClearAt(decay, write, gain, margin, 2.0 * t - 1.0);
    }
    ClearMeans(a, Some(0.0), Some(1.0), margin);
    ClearMeans(below, Some(0.0), None, margin);
    ClearMeans(above, Some(0.0), None, margin);
    Queries(a);
    Queries(below);
    Queries(above);
    ClearByDefault(a, Some(0.0), Some(1.0), margin);
    ClearByDefault(below, Some(0.0), None, margin);
    ClearByDefault(above, Some(0.0), None, margin);
    AffineVerdictIs(a, b, gain);
    CertifiedMeans(AffineVerdict(a, b, gain));
  }

  lemma ClearAt(decay: seq<real>, write: seq<real>, gain: real, margin: real, z: real)
    requires ClearSeries(decay, write, gain, margin) && -1.0 <= z <= 1.0
    ensures var a, b := Series(decay, z), Series(write, z);
            && Within(a, Raised(Some(0.0), margin), Lowered(Some(1.0), margin))
            && Within(Room(gain, a, -1.0, b), Raised(Some(0.0), margin), Lowered(None, margin))
            && Within(Room(gain, a, 1.0, b), Raised(Some(0.0), margin), Lowered(None, margin))
  {
    hide Series, Room;
  }

  lemma Queries(power: seq<real>)
    requires |power| > 0
    ensures ValidQuery(power, Some(0.0), Some(1.0), MAX_DEPTH, MAX_NODES) && ValidQuery(power, Some(0.0), None, MAX_DEPTH, MAX_NODES)
    ensures ValidQuery(power, None, Some(3.0), MAX_DEPTH, MAX_NODES)
  {
  }

  /** The guess and v*y0^2 keep their bounds 0 and 3 with a margin on the whole variance interval. */
  ghost predicate ClearInitializer(kind: InitializerKind, unit: seq<real>, damping: real, lo: real, hi: real, margin: real)
    requires |unit| > 0
  {
    forall t :: 0.0 <= t <= 1.0 ==>
      && (kind.PolyNewton? ==> Poly(unit, t) >= margin)
      && BasinValue(kind, damping, lo, hi, Poly(unit, t), t) <= 3.0 - margin
  }

  /** v*y0^2 at the position t of the interval, for the guess g. */
  function BasinValue(kind: InitializerKind, damping: real, lo: real, hi: real, g: real, t: real): real {
    var y := Times(damping, if kind.SquaredPolyNewton? then Times(g, g) else g);
    Times(VarianceAt(lo, hi, t), Times(y, y))
  }

  lemma BasinPowerValue(kind: InitializerKind, unit: seq<real>, damping: real, lo: real, hi: real, t: real)
    requires |unit| > 0
    ensures |BasinPower(kind, unit, damping, lo, hi)| > 0
    ensures Poly(BasinPower(kind, unit, damping, lo, hi), t) == BasinValue(kind, damping, lo, hi, Poly(unit, t), t)
  {
    hide Poly, Product, Scaled, Times;
    var guess := if kind.SquaredPolyNewton? then Product(unit, unit) else unit;
    ProductValue(unit, unit, t);
    ScaledValue(damping, guess, t);
    ScaledLength(damping, guess);
    var scaled := Scaled(damping, guess);
    ProductValue(scaled, scaled, t);
    ProductValue([lo, hi - lo], Product(scaled, scaled), t);
    VarianceIs(lo, hi, t);
  }

  /** The variance at the position t of the interval. */
  function VarianceAt(lo: real, hi: real, t: real): real {
    lo + (hi - lo) * t
  }

  lemma VarianceIs(lo: real, hi: real, t: real)
    ensures Poly([lo, hi - lo], t) == VarianceAt(lo, hi, t)
  {
    hide Poly;
    PolyTwo(lo, hi - lo, t);
  }

  lemma ClearInitializerCertified(kind: InitializerKind, unit: seq<real>, damping: real, lo: real, hi: real, margin: real)
    requires |unit| > 0 && !kind.OtherKind? && margin > 0.0 && ClearInitializer(kind, unit, damping, lo, hi, margin)
    requires kind.PolyNewton? ==> DeepEnough(unit, margin, REACHED)
    requires DeepEnough(BasinPower(kind, unit, damping, lo, hi), margin, REACHED)
    ensures NewtonVerdict(kind, unit, damping, lo, hi).Certified()
  {
    hide *;
    var basin := BasinPower(kind, unit, damping, lo, hi);
    BasinPowerValue(kind, unit, damping, lo, hi, 0.0);
    forall t | 0.0 <= t <= 1.0
      ensures Within(Poly(basin, t), Raised(None, margin), Lowered(Some(3.0), margin))
      ensures kind.PolyNewton? ==> Within(Poly(unit, t), Raised(Some(0.0), margin), Lowered(None, margin))
    {
      BasinPowerValue(kind, unit, damping, lo, hi, t);
      InitializerAt(kind, unit, damping, lo, hi, margin, t);
    }
    ClearMeans(basin, None, Some(3.0), margin);
    Queries(basin);
    ClearByDefault(basin, None, Some(3.0), margin);
    if kind.PolyNewton? {
      ClearMeans(unit, Some(0.0), None, margin);
      Queries(unit);
      ClearByDefault(unit, Some(0.0), None, margin);
    }
    VerdictCertified(kind, unit, damping, lo, hi);
  }

  lemma InitializerAt(kind: InitializerKind, unit: seq<real>, damping: real, lo: real, hi: real, margin: real, t: real)
    requires |unit| > 0 && ClearInitializer(kind, unit, damping, lo, hi, margin) && 0.0 <= t <= 1.0
    ensures Within(BasinValue(kind, damping, lo, hi, Poly(unit, t), t), Raised(None, margin), Lowered(Some(3.0), margin))
    ensures kind.PolyNewton? ==> Within(Poly(unit, t), Raised(Some(0.0), margin), Lowered(None, margin))
  {
    hide BasinValue, Poly;
  }

  lemma VerdictCertified(kind: InitializerKind, unit: seq<real>, damping: real, lo: real, hi: real)
    requires |unit| > 0 && !kind.OtherKind?
    requires Decision(BasinPower(kind, unit, damping, lo, hi), None, Some(3.0), MAX_DEPTH, MAX_NODES).Certified?
    requires kind.PolyNewton? ==> Decision(unit, Some(0.0), None, MAX_DEPTH, MAX_NODES).Certified?
    ensures NewtonVerdict(kind, unit, damping, lo, hi).Certified()
  {
    hide Decision, BasinPower;
  }
}
