/** The interval certificate of scheduled inverse square roots is tight and finds what holds with a margin (src/fhemamba/normalization.py:18-36, 173-210). */
module ScheduleCompleteness {
  import opened Wrappers
  import opened Sums
  import opened InverseSqrt

  // ----- the image is the exact range, rounded outward

  /** 2^-bits */
  function Grain(bits: nat): (g: real)
    ensures g > 0.0
  {
    1.0 / Scale(bits)
  }

  /** n * 2^-bits */
  function Multiple(n: int, bits: nat): real {
    n as real / Scale(bits)
  }

  ghost predicate Dyadic(x: real, bits: nat) {
    exists n: int :: x == Multiple(n, bits)
  }

  /** Both ends are multiples of 2^-bits less than one multiple away: that determines them. */
  lemma OutwardTight(lo: real, hi: real, bits: nat)
    ensures var r := Outward(lo, hi, bits);
            && lo - Grain(bits) < r.lo <= lo && hi <= r.hi < hi + Grain(bits)
            && Dyadic(r.lo, bits) && Dyadic(r.hi, bits)
  {
    hide Outward, Grain, Multiple;
    var down, up := OutwardIs(lo, hi, bits);
  }

  lemma OutwardIs(lo: real, hi: real, bits: nat) returns (down: int, up: int)
    ensures Outward(lo, hi, bits) == Interval(Multiple(down, bits), Multiple(up, bits))
    ensures lo - Grain(bits) < Multiple(down, bits) <= lo && hi <= Multiple(up, bits) < hi + Grain(bits)
    ensures hi <= 1.0 ==> up <= Pow2(bits)
  {
    hide *;
    OutwardBody(lo, hi, bits);
    down, up := FloorAt(lo, bits), -FloorAt(-hi, bits);
    FloorNear(lo, bits);
    FloorNear(-hi, bits);
    MultipleNegated(FloorAt(-hi, bits), bits);
    if hi <= 1.0 {
      CeilingUpTo(hi, bits);
    }
  }

  function FloorAt(x: real, bits: nat): int {
    (x * Scale(bits)).Floor
  }

  lemma OutwardBody(lo: real, hi: real, bits: nat)
    ensures Outward(lo, hi, bits) == Interval(Multiple(FloorAt(lo, bits), bits), Multiple(-FloorAt(-hi, bits), bits))
  {
    hide Scale;
    assert -hi * Scale(bits) == -(hi * Scale(bits));
  }

  lemma FloorNear(x: real, bits: nat)
    ensures x - Grain(bits) < Multiple(FloorAt(x, bits), bits) <= x
  {
    hide Scale;
    var scale := Scale(bits);
    FloorAbove(x, scale);
    RoundDown(x, scale);
  }

  lemma MultipleNegated(n: int, bits: nat)
    ensures Multiple(-n, bits) == -Multiple(n, bits)
  {
    hide Scale;
    NegatedQuotient(n as real, Scale(bits));
  }

  lemma CeilingUpTo(hi: real, bits: nat)
    requires hi <= 1.0
    ensures -FloorAt(-hi, bits) <= Pow2(bits)
  {
    hide Scale, Pow2;
    ScaleWhole(bits);
    UpToScale(hi, Scale(bits));
    assert -hi * Scale(bits) == -(hi * Scale(bits));
  }

  lemma UpToScale(hi: real, scale: real)
    requires hi <= 1.0 && scale > 0.0
    ensures hi * scale <= scale
  {
    MulNonneg(1.0 - hi, scale);
    assert (1.0 - hi) * scale == scale - hi * scale;
  }

  lemma FloorAbove(x: real, scale: real)
    requires scale > 0.0
    ensures (x * scale).Floor as real / scale > x - 1.0 / scale
  {
    var n := (x * scale).Floor as real;
    var q, g := n / scale, 1.0 / scale;
    assert q * scale == n && g * scale == 1.0;
    if q <= x - g {
      MulNonneg(x - g - q, scale);
      ThreeProducts(x, g, q, scale);
      assert false;
    }
  }

  lemma ThreeProducts(x: real, g: real, q: real, scale: real)
    ensures (x - g - q) * scale == x * scale - g * scale - q * scale
  {
  }

  /** A value up to 1 is rounded up to at most 1. */
  lemma OutwardUnit(lo: real, hi: real, bits: nat)
    requires hi <= 1.0
    ensures Outward(lo, hi, bits).hi <= 1.0
  {
    hide Outward, Grain;
    var down, up := OutwardIs(lo, hi, bits);
    ScaleWhole(bits);
    QuotientBelow(up as real, 1.0, Scale(bits));
  }

  lemma {:induction false} ScaleWhole(bits: nat)
    ensures Scale(bits) == Pow2(bits) as real
  {
    if bits > 0 {
      ScaleWhole(bits - 1);
    }
  }

  /** Each end of the image is the value at some point of the interval, rounded outward by less than 2^-bits. */
  lemma ImageTight(i: Interval, p: Pair, bits: nat) returns (least: real, most: real)
    requires Image(i, p, bits).Some?
    ensures i.Contains(least) && i.Contains(most)
    ensures Cubic(least, p) - Grain(bits) < Image(i, p, bits).value.lo <= Cubic(least, p)
    ensures Cubic(most, p) <= Image(i, p, bits).value.hi < Cubic(most, p) + Grain(bits)
    ensures forall u :: i.Contains(u) ==> Cubic(least, p) <= Cubic(u, p) <= Cubic(most, p)
    ensures Dyadic(Image(i, p, bits).value.lo, bits) && Dyadic(Image(i, p, bits).value.hi, bits)
    ensures Cubic(most, p) <= 1.0 ==> Image(i, p, bits).value.hi <= 1.0
  {
    hide Cubic, Peak, Critical, Outward, Grain, Dyadic;
    CriticalMeans(p, i.lo);
    least := if Cubic(i.lo, p) <= Cubic(i.hi, p) then i.lo else i.hi;
    most := if Cubic(i.lo, p) >= Cubic(i.hi, p) then i.lo else i.hi;
    if i.lo <= Critical(p) <= i.hi {
      least := if Peak(p) < Cubic(least, p) then Critical(p) else least;
      most := if Peak(p) > Cubic(most, p) then Critical(p) else most;
    }
    OutwardTight(Cubic(least, p), Cubic(most, p), bits);
    if Cubic(most, p) <= 1.0 {
      OutwardUnit(Cubic(least, p), Cubic(most, p), bits);
    }
    forall u | i.Contains(u)
      ensures Cubic(least, p) <= Cubic(u, p) <= Cubic(most, p)
    {
      Extremes(i, p, u);
    }
  }

  /** On the interval the cubic lies between its end values and its peak. */
  lemma Extremes(i: Interval, p: Pair, u: real)
    requires ImageDefined(i, p) && i.Contains(u)
    ensures MinReal(Cubic(i.lo, p), Cubic(i.hi, p)) <= Cubic(u, p)
    ensures i.lo <= Critical(p) <= i.hi ==> Cubic(u, p) <= Peak(p)
    ensures !(i.lo <= Critical(p) <= i.hi) ==> Cubic(u, p) <= MaxReal(Cubic(i.lo, p), Cubic(i.hi, p))
  {
    hide Cubic, Peak, Critical;
    CriticalMeans(p, i.lo);
    CriticalMeans(p, u);
    CriticalMeans(p, i.hi);
    MulNonneg(p.b, i.hi - u);
    Distribute(p.b, i.hi, u);
    var c := Critical(p);
    if u <= c {
      Rising(i.lo, u, p);
      if c <= i.hi {
        Rising(u, c, p);
      } else {
        Rising(u, i.hi, p);
      }
    } else {
      Falling(u, i.hi, p);
      if i.lo <= c {
        Falling(c, u, p);
      } else {
        Falling(i.lo, u, p);
      }
    }
  }

  // ----- how far enclosures drift from the exact ranges

  /** A Lipschitz constant of the cubic on [0,1]. */
  function Steepness(p: Pair): real {
    (p.a + 2.0 * p.b) * (p.a + 2.0 * p.b) + p.b * p.b
  }

  lemma CubicLipschitz(u: real, w: real, p: Pair)
    requires 0.0 <= u <= 1.0 && 0.0 <= w <= 1.0 && p.a > 0.0 && p.b > 0.0
    ensures -(Steepness(p) * Abs(u - w)) <= Cubic(u, p) - Cubic(w, p) <= Steepness(p) * Abs(u - w)
  {
    hide *;
    var x, y := p.b * u, p.b * w;
    DifferenceSlope(u, w, p);
    ScaledUnit(p.b, u);
    ScaledUnit(p.b, w);
    SlopeBound(p, x, y);
    ProductBound(u - w, Slope(p, x, y), Steepness(p));
  }

  /** The slope of the chord between two points, x and y being b times the points. */
  function Slope(p: Pair, x: real, y: real): real {
    (p.a - x - y) * (p.a - x - y) - x * y
  }

  lemma DifferenceSlope(u: real, w: real, p: Pair)
    ensures Cubic(u, p) - Cubic(w, p) == (u - w) * Slope(p, p.b * u, p.b * w)
  {
    hide Cubic;
    Difference(u, w, p);
  }

  lemma ScaledUnit(b: real, u: real)
    requires 0.0 <= u <= 1.0 && b > 0.0
    ensures 0.0 <= b * u <= b
  {
    MulNonneg(b, u);
    MulNonneg(b, 1.0 - u);
    Distribute(b, 1.0, u);
  }

  lemma SlopeBound(p: Pair, x: real, y: real)
    requires p.a > 0.0 && p.b > 0.0 && 0.0 <= x <= p.b && 0.0 <= y <= p.b
    ensures -Steepness(p) <= Slope(p, x, y) <= Steepness(p)
  {
    SquareWithin(p.a - x - y, p.a + 2.0 * p.b);
    ProductWithin(x, y, p.b);
    Square(p.a - x - y);
    Square(p.a + 2.0 * p.b);
    Square(p.b);
  }

  lemma SquareWithin(d: real, m: real)
    requires -m <= d <= m
    ensures d * d <= m * m
  {
    MulNonneg(m - d, m + d);
    assert (m - d) * (m + d) == m * m - d * d;
  }

  lemma ProductWithin(x: real, y: real, b: real)
    requires 0.0 <= x <= b && 0.0 <= y <= b
    ensures 0.0 <= x * y <= b * b
  {
    MulNonneg(x, y);
    MulNonneg(x, b - y);
    MulNonneg(b - x, b);
    Distribute(x, b, y);
    assert (b - x) * b == b * b - x * b;
  }

  lemma ProductBound(d: real, slope: real, most: real)
    requires -most <= slope <= most
    ensures -(most * Abs(d)) <= d * slope <= most * Abs(d)
  {
    if d >= 0.0 {
      MulNonneg(d, most - slope);
      MulNonneg(d, most + slope);
      assert d * (most - slope) == most * d - d * slope && d * (most + slope) == most * d + d * slope;
    } else {
      MulNonneg(-d, most - slope);
      MulNonneg(-d, most + slope);
      assert (-d) * (most - slope) == most * -d + d * slope && (-d) * (most + slope) == most * -d - d * slope;
    }
  }

  /** How far the enclosure may have left the exact range after the pairs. */
  function Drift(pairs: seq<Pair>, grain: real): real {
    if |pairs| == 0 then grain else
      Times(Steepness(pairs[|pairs| - 1]), Drift(pairs[..|pairs| - 1], grain)) + grain
  }

  lemma {:induction false} DriftPositive(pairs: seq<Pair>, grain: real)
    requires grain > 0.0
    ensures Drift(pairs, grain) > 0.0
  {
    if |pairs| > 0 {
      var p := pairs[|pairs| - 1];
      DriftPositive(pairs[..|pairs| - 1], grain);
      Square(p.a + 2.0 * p.b);
      Square(p.b);
      MulNonneg(Steepness(p), Drift(pairs[..|pairs| - 1], grain));
    }
  }

  /** The update takes (0,1] to values up to 1. */
  ghost predicate NeverExpands(p: Pair) {
    forall u :: 0.0 <= u <= 1.0 ==> Cubic(u, p) <= 1.0
  }

  lemma NewtonNeverExpands()
    ensures NeverExpands(NEWTON)
  {
    forall u | 0.0 <= u <= 1.0
      ensures Cubic(u, NEWTON) <= 1.0
    {
      Rising(u, 1.0, NEWTON);
    }
  }

  /** The range of a stage, with `drift` to spare, has a positive factor and goes into the next range, with `next` to spare. */
  ghost predicate ClearStage(range: Interval, p: Pair, image: Interval, drift: real, next: real) {
    && p.b > 0.0 && p.a - p.b * MinReal(1.0, range.hi + drift) > 0.0
    && (forall u :: range.Contains(u) ==> image.Contains(Cubic(u, p)))
    && image.InUnit() && image.lo - next > 0.0 && (image.hi + next <= 1.0 || NeverExpands(p))
  }

  /** An enclosure inside (0,1] that has left the range by at most the drift. */
  ghost predicate Near(i: Interval, range: Interval, drift: real) {
    i.InUnit() && range.lo - drift <= i.lo && i.hi <= MinReal(1.0, range.hi + drift)
  }

  function Clamp(u: real, range: Interval): real {
    if u < range.lo then range.lo else if u > range.hi then range.hi else u
  }

  /** A point of a near enclosure has an image near the next range. */
  lemma PointNear(i: Interval, range: Interval, p: Pair, image: Interval, drift: real, next: real, u: real)
    requires Near(i, range, drift) && range.InUnit() && ClearStage(range, p, image, drift, next) && i.Contains(u) && drift > 0.0 && p.a > 0.0
    ensures image.lo - Times(Steepness(p), drift) <= Cubic(u, p) <= image.hi + Times(Steepness(p), drift)
  {
    hide Cubic, Steepness, NeverExpands;
    var w := Clamp(u, range);
    CubicLipschitz(u, w, p);
    SteepnessPositive(p);
    MulNonneg(Steepness(p), drift - Abs(u - w));
    Distribute(Steepness(p), drift, Abs(u - w));
    assert range.Contains(w);
  }

  lemma SteepnessPositive(p: Pair)
    ensures Steepness(p) >= 0.0
  {
    Square(p.a + 2.0 * p.b);
    Square(p.b);
  }

  lemma StageNear(i: Interval, range: Interval, p: Pair, image: Interval, drift: real, bits: nat)
    requires Near(i, range, drift) && range.InUnit() && drift > 0.0
    requires ClearStage(range, p, image, drift, Times(Steepness(p), drift) + Grain(bits))
    ensures Image(i, p, bits).Some? && Near(Image(i, p, bits).value, image, Times(Steepness(p), drift) + Grain(bits))
  {
    hide Cubic, Steepness, Grain, Outward, Peak, Critical, Dyadic, Times;
    var next := Times(Steepness(p), drift) + Grain(bits);
    MulNonneg(p.b, MinReal(1.0, range.hi + drift) - i.hi);
    Distribute(p.b, MinReal(1.0, range.hi + drift), i.hi);
    MulNonneg(p.b, i.hi);
    assert ImageDefined(i, p);
    var least, most := ImageTight(i, p, bits);
    PointNear(i, range, p, image, drift, next, least);
    PointNear(i, range, p, image, drift, next, most);
  }

  /** Every stage of the pairs is clear, starting in ranges[0]. */
  ghost predicate ClearStages(ranges: seq<Interval>, pairs: seq<Pair>, grain: real) {
    && |ranges| == |pairs| + 1 && ranges[0].InUnit()
    && forall k :: 0 <= k < |pairs| ==> ClearStage(ranges[k], pairs[k], ranges[k + 1], Drift(pairs[..k], grain), Drift(pairs[..k + 1], grain))
  }

  lemma {:induction false} EncloseNear(start: Interval, ranges: seq<Interval>, pairs: seq<Pair>, bits: nat)
    requires ClearStages(ranges, pairs, Grain(bits)) && Near(start, ranges[0], Grain(bits))
    ensures Enclose(start, pairs, bits).0.Certified?
    ensures Near(Enclose(start, pairs, bits).1, ranges[|pairs|], Drift(pairs, Grain(bits))) && ranges[|pairs|].InUnit()
    decreases |pairs|
  {
    hide Near, ClearStage, Image, Steepness, Grain, Times;
    if |pairs| > 0 {
      var n := |pairs| - 1;
      var front, p := pairs[..n], pairs[n];
      forall k | 0 <= k < n
        ensures ClearStage(ranges[k], front[k], ranges[k + 1], Drift(front[..k], Grain(bits)), Drift(front[..k + 1], Grain(bits)))
      {
        assert front[..k] == pairs[..k] && front[..k + 1] == pairs[..k + 1];
        assert ClearStage(ranges[k], pairs[k], ranges[k + 1], Drift(pairs[..k], Grain(bits)), Drift(pairs[..k + 1], Grain(bits)));
      }
      EncloseNear(start, ranges[..n + 1], front, bits);
      DriftPositive(front, Grain(bits));
      assert pairs[..n + 1] == pairs;
      assert ClearStage(ranges[n], p, ranges[n + 1], Drift(front, Grain(bits)), Drift(pairs, Grain(bits)));
      var i := Enclose(start, front, bits).1;
      StageNear(i, ranges[n], p, ranges[n + 1], Drift(front, Grain(bits)), bits);
      NearUnit(Image(i, p, bits).value, ranges[n + 1], Drift(pairs, Grain(bits)));
      ClearUnit(ranges[n], p, ranges[n + 1], Drift(front, Grain(bits)), Drift(pairs, Grain(bits)));
    }
  }

  lemma NearUnit(i: Interval, range: Interval, drift: real)
    requires Near(i, range, drift)
    ensures i.InUnit() && range.lo - drift <= i.lo
  {
  }

  lemma ClearUnit(range: Interval, p: Pair, image: Interval, drift: real, next: real)
    requires ClearStage(range, p, image, drift, next)
    ensures image.InUnit()
  {
  }

  /**
   * A schedule is certified whenever its stages stay in ranges inside (0,1], with room for the drift of the enclosures, and
   * the last one reaches the target with that room.
   */
  lemma ClearIsCertified(s: Schedule, bits: int, ranges: seq<Interval>)
    requires s.Valid() && 32 <= bits <= 512
    requires ClearStages(ranges, s.coefficients + [NEWTON], Grain(bits))
    requires ranges[0] == SeedRange(s) && ranges[0].lo - Grain(bits) > 0.0
    requires ranges[|s.coefficients| + 1].lo - Drift(s.coefficients + [NEWTON], Grain(bits)) >= (1.0 - s.tolerance) * (1.0 - s.tolerance)
    ensures Judge(s, bits).Certified?
  {
    hide *;
    var pairs := s.coefficients + [NEWTON];
    var start := StartInterval(s, bits);
    StartsInside(ranges, pairs, Grain(bits));
    StartIs(s, bits);
    OutwardTight(ranges[0].lo, ranges[0].hi, bits);
    OutwardUnit(ranges[0].lo, ranges[0].hi, bits);
    StartNear(start, ranges[0], Grain(bits));
    EncloseNear(start, ranges, pairs, bits);
    NearUnit(start, ranges[0], Grain(bits));
    NearUnit(Enclose(start, pairs, bits).1, ranges[|pairs|], Drift(pairs, Grain(bits)));
    JudgeMeans(s, bits);
  }

  lemma JudgeMeans(s: Schedule, bits: int)
    requires 32 <= bits <= 512 && StartInterval(s, bits).InUnit()
    ensures var run := Enclose(StartInterval(s, bits), s.coefficients + [NEWTON], bits);
            run.0.Certified? && run.1.lo >= (1.0 - s.tolerance) * (1.0 - s.tolerance) ==> Judge(s, bits).Certified?
  {
    hide Outward, Enclose;
  }

  lemma StartIs(s: Schedule, bits: nat)
    ensures StartInterval(s, bits) == Outward(SeedRange(s).lo, SeedRange(s).hi, bits)
  {
    hide Outward, SeedRange;
  }

  lemma StartsInside(ranges: seq<Interval>, pairs: seq<Pair>, grain: real)
    requires ClearStages(ranges, pairs, grain)
    ensures |ranges| == |pairs| + 1 && ranges[0].InUnit()
  {
  }

  lemma StartNear(i: Interval, range: Interval, grain: real)
    requires range.InUnit() && range.lo - grain > 0.0 && range.lo - grain <= i.lo <= range.lo && range.hi <= i.hi <= range.hi + grain && i.hi <= 1.0
    ensures Near(i, range, grain)
  {
  }

  // ----- a schedule that is certified

  function OneStage(): Schedule {
    Schedule(0.95, 0.99, 1.0, [Pair(2.0, 1.05)], 0.01)
  }

  function OneStageRanges(): seq<Interval> {
    [Interval(0.95, 0.99), Interval(0.91, 0.96), Interval(0.99, 0.999)]
  }

  lemma ScaleLarge(bits: nat)
    requires bits >= 32
    ensures Grain(bits) < 0.00001
  {
    ScaleWhole(bits);
    assert Pow2(8) == 256;
    assert Pow2(17) == 131072;
    PowGrows(17, bits);
    var g, scale := Grain(bits), Scale(bits);
    assert g * scale == 1.0;
    assert (g - 0.00001) * scale == g * scale - 0.00001 * scale;
    if g >= 0.00001 {
      MulNonneg(g - 0.00001, scale);
    }
  }

  lemma {:induction false} PowGrows(a: nat, b: nat)
    requires a <= b
    ensures Pow2(a) <= Pow2(b)
    decreases b
  {
    if a < b {
      PowGrows(a, b - 1);
    }
  }

  /** One accelerated stage over [0.95, 0.99] is certified at every admitted precision; its critical point is outside the interval. */
  lemma OneStageCertified(bits: int)
    requires 32 <= bits <= 512
    ensures OneStage().Valid() && Judge(OneStage(), bits).Certified?
    ensures Critical(OneStage().coefficients[0]) < OneStage().lo
  {
    hide *;
    OneStageFacts();
    OneStageClear(bits);
    ClearIsCertified(OneStage(), bits, OneStageRanges());
  }

  lemma OneStageFacts()
    ensures OneStage().Valid() && SeedRange(OneStage()) == OneStageRanges()[0] && OneStage().coefficients == [Pair(2.0, 1.05)]
    ensures OneStage().tolerance == 0.01 && Critical(OneStage().coefficients[0]) < OneStage().lo
  {
  }

  lemma OneStageDrift(bits: nat)
    requires bits >= 32
    ensures var pairs := [Pair(2.0, 1.05), NEWTON];
            && 0.0 < Drift([], Grain(bits)) == Grain(bits) < 0.00001 && 0.0 < Drift([Pair(2.0, 1.05)], Grain(bits)) < 0.0002
            && 0.0 < Drift(pairs, Grain(bits)) < 0.002
  {
    ScaleLarge(bits);
    hide Grain;
    var first, pairs := [Pair(2.0, 1.05)], [Pair(2.0, 1.05), NEWTON];
    assert first[..0] == [] && pairs[..1] == first;
    assert Steepness(first[0]) == 17.9125 && Steepness(NEWTON) == 6.5;
    assert Drift(first, Grain(bits)) == 17.9125 * Grain(bits) + Grain(bits);
  }

  lemma FirstImage(u: real)
    requires 0.95 <= u <= 0.99
    ensures 0.91 <= Cubic(u, Pair(2.0, 1.05)) <= 0.96
  {
    var p := Pair(2.0, 1.05);
    Falling(0.95, u, p);
    Falling(u, 0.99, p);
  }

  lemma SecondImage(u: real)
    requires 0.91 <= u <= 0.96
    ensures 0.99 <= Cubic(u, NEWTON) <= 0.999
  {
    Rising(0.91, u, NEWTON);
    Rising(u, 0.96, NEWTON);
  }

  lemma OneStageClear(bits: nat)
    requires bits >= 32
    ensures var pairs := [Pair(2.0, 1.05)] + [NEWTON]; var ranges := OneStageRanges();
            && ClearStages(ranges, pairs, Grain(bits)) && ranges[0].lo - Grain(bits) > 0.0
            && |ranges| == 3 && ranges[2].lo - Drift(pairs, Grain(bits)) >= (1.0 - 0.01) * (1.0 - 0.01)
  {
    hide Cubic, Grain, Steepness, NeverExpands;
    var first, pairs, ranges := [Pair(2.0, 1.05)], [Pair(2.0, 1.05), NEWTON], OneStageRanges();
    assert [Pair(2.0, 1.05)] + [NEWTON] == pairs;
    OneStageDrift(bits);
    NewtonNeverExpands();
    hide Drift;
    forall u | ranges[0].Contains(u)
      ensures ranges[1].Contains(Cubic(u, first[0]))
    {
      FirstImage(u);
    }
    forall u | ranges[1].Contains(u)
      ensures ranges[2].Contains(Cubic(u, NEWTON))
    {
      SecondImage(u);
    }
    assert pairs[..0] == [] && pairs[..1] == first && pairs[..2] == pairs;
    assert ClearStage(ranges[0], pairs[0], ranges[1], Drift(pairs[..0], Grain(bits)), Drift(pairs[..1], Grain(bits)));
    assert ClearStage(ranges[1], pairs[1], ranges[2], Drift(pairs[..1], Grain(bits)), Drift(pairs[..2], Grain(bits)));
  }
}
