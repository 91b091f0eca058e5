/** rotation_steps.hpp and rotation_keys.py: signed-digit decompositions of slot rotations. */
module RotationSteps {
  import opened Wrappers
  import opened Sums
  import opened SlotVectors

  /** A signed power of two. */
  datatype Digit = Digit(negative: bool, exponent: nat)
  {
    function Value(): int {
      if negative then -Pow2(exponent) else Pow2(exponent)
    }
  }

  function Total(digits: seq<Digit>): int {
    if |digits| == 0 then 0 else digits[0].Value() + Total(digits[1..])
  }

  function Magnitude(v: int): nat {
    if v < 0 then -v else v
  }

  /** The nonzero digit the recoding takes from an odd value: the one that leaves a multiple of four. */
  function OddDigit(v: int): int {
    2 - v % 4
  }

  lemma OddDigitMeans(v: int)
    requires v % 2 != 0
    ensures (OddDigit(v) == 1 || OddDigit(v) == -1) && (v - OddDigit(v)) % 4 == 0
    ensures Magnitude((v - OddDigit(v)) / 2) < Magnitude(v)
  {
  }

  /** Non-adjacent digits of v * 2^k. */
  function Naf(v: int, k: nat): seq<Digit>
    decreases Magnitude(v)
  {
    if v == 0 then []
    else if v % 2 == 0 then Naf(v / 2, k + 1)
    else
      OddDigitMeans(v);
      [Digit(OddDigit(v) < 0, k)] + Naf((v - OddDigit(v)) / 2, k + 1)
  }

  /** One step of the recoding. */
  lemma NafUnfold(v: int, k: nat)
    ensures v == 0 ==> Naf(v, k) == []
    ensures v != 0 && v % 2 == 0 ==> Magnitude(v / 2) < Magnitude(v) && v == 2 * (v / 2) && Naf(v, k) == Naf(v / 2, k + 1)
    ensures v % 2 != 0 ==> var d := OddDigit(v);
              && (d == 1 || d == -1) && v == 2 * ((v - d) / 2) + d && (v - d) / 2 % 2 == 0
              && Magnitude((v - d) / 2) < Magnitude(v)
              && Naf(v, k) == [Digit(d < 0, k)] + Naf((v - d) / 2, k + 1)
  {
    if v % 2 != 0 {
      OddDigitMeans(v);
    }
  }

  lemma TotalCons(d: Digit, rest: seq<Digit>)
    ensures Total([d] + rest) == d.Value() + Total(rest)
  {
    assert ([d] + rest)[1..] == rest;
  }

  /** The digits sum to the value. */
  lemma {:induction false} NafTotal(v: int, k: nat)
    ensures Total(Naf(v, k)) == v * Pow2(k)
    decreases Magnitude(v)
  {
    hide Naf, OddDigit, Magnitude, Total;
    NafUnfold(v, k);
    if v == 0 {
      TotalNone();
    } else if v % 2 == 0 {
      NafTotal(v / 2, k + 1);
      ShiftedTotal(v / 2, 0, k);
    } else {
      var d := OddDigit(v);
      NafTotal((v - d) / 2, k + 1);
      TotalCons(Digit(d < 0, k), Naf((v - d) / 2, k + 1));
      ShiftedTotal((v - d) / 2, d, k);
    }
  }

  lemma TotalNone()
    ensures Total([]) == 0
  {
  }

  lemma ShiftedTotal(h: int, d: int, k: nat)
    ensures (2 * h + d) * Pow2(k) == h * Pow2(k + 1) + d * Pow2(k)
  {
  }

  /** Consecutive digits are at least two places apart, in ascending order, starting at place k. */
  predicate NonAdjacent(digits: seq<Digit>, k: nat) {
    (forall i :: 0 <= i < |digits| ==> digits[i].exponent >= k)
    && forall i :: 0 < i < |digits| ==> digits[i].exponent >= digits[i - 1].exponent + 2
  }

  lemma {:induction false} NafNonAdjacent(v: int, k: nat)
    ensures NonAdjacent(Naf(v, k), k)
    ensures v % 2 == 0 ==> NonAdjacent(Naf(v, k), k + 1)
    decreases Magnitude(v)
  {
    hide Naf, OddDigit, Magnitude;
    NafUnfold(v, k);
    if v != 0 && v % 2 == 0 {
      NafNonAdjacent(v / 2, k + 1);
    } else if v != 0 {
      var h := (v - OddDigit(v)) / 2;
      NafNonAdjacent(h, k + 1);
      NonAdjacentCons(Digit(OddDigit(v) < 0, k), Naf(h, k + 1), k);
    }
  }

  lemma NonAdjacentCons(d: Digit, rest: seq<Digit>, k: nat)
    requires d.exponent == k && NonAdjacent(rest, k + 2)
    ensures NonAdjacent([d] + rest, k)
  {
  }

  // ----- minimality

  /** The number of digits. */
  function Weight(v: int): nat
    decreases Magnitude(v)
  {
    if v == 0 then 0
    else if v % 2 == 0 then Weight(v / 2)
    else
      OddDigitMeans(v);
      1 + Weight((v - OddDigit(v)) / 2)
  }

  lemma {:induction false} NafWeight(v: int, k: nat)
    ensures |Naf(v, k)| == Weight(v)
    decreases Magnitude(v)
  {
    if v != 0 {
      if v % 2 == 0 {
        NafWeight(v / 2, k + 1);
      } else {
        OddDigitMeans(v);
        NafWeight((v - OddDigit(v)) / 2, k + 1);
      }
    }
  }

  lemma WeightEven(u: int)
    ensures Weight(2 * u) == Weight(u)
  {
    assert 2 * u / 2 == u && 2 * u % 2 == 0;
  }

  /** An odd value d + 4h has one digit more than h. */
  lemma WeightOdd(h: int, d: int)
    requires d == 1 || d == -1
    ensures Weight(d + 4 * h) == 1 + Weight(h)
  {
    var v := d + 4 * h;
    assert OddDigit(v) == d && (v - d) / 2 == 2 * h && v % 2 != 0;
    WeightEven(h);
  }

  lemma Residues(v: int) returns (h: int, d: int)
    ensures v == 4 * h + d && (d == 0 || d == 1 || d == -1 || d == 2)
    ensures Magnitude(h) < Magnitude(v) || v == 0 || (v == 1 && h == 0) || (v == -1 && h == 0)
  {
    d := if v % 4 == 3 then -1 else v % 4;
    h := (v - d) / 4;
  }

  /** Adding one unit costs at most one digit, and nothing on an odd value. */
  lemma {:induction false} UnitStep(v: int, s: int)
    requires s == 1 || s == -1
    ensures Weight(v + s) <= Weight(v) + 1
    ensures v % 2 != 0 ==> Weight(v + s) <= Weight(v)
    decreases Magnitude(v)
  {
    hide Weight, OddDigit;
    var h, d := Residues(v);
    if d == 0 {
      assert v == 2 * (2 * h) && v + s == s + 4 * h;
      WeightOdd(h, s);
      WeightEven(2 * h);
      WeightEven(h);
    } else if d == 2 {
      assert v == 2 * (2 * h + 1);
      UnitStep(2 * h + 1, s);
      WeightEven(2 * h + 1);
      if s == 1 {
        assert v + s == -1 + 4 * (h + 1) && 2 * h + 1 + s == 2 * (h + 1);
        WeightOdd(h + 1, -1);
        WeightEven(h + 1);
      } else {
        assert v + s == 1 + 4 * h && 2 * h + 1 + s == 2 * h;
        WeightOdd(h, 1);
        WeightEven(h);
      }
    } else {
      assert v == d + 4 * h;
      WeightOdd(h, d);
      WeightEven(h);
      if s == -d {
        assert v + s == 2 * (2 * h);
        WeightEven(2 * h);
      } else {
        assert v + s == 2 * (2 * h + s);
        UnitStep(2 * h, s);
        WeightEven(2 * h + s);
      }
    }
  }

  /** Adding any signed power of two costs at most one digit. */
  lemma {:induction false} PowerStep(v: int, k: nat, s: int)
    requires s == 1 || s == -1
    ensures Weight(v + s * Pow2(k)) <= Weight(v) + 1
    decreases k
  {
    hide Weight;
    var h, d := Residues(v);
    if k == 0 {
      UnitStep(v, s);
    } else {
      assert s * Pow2(k) == 2 * (s * Pow2(k - 1));
      if d == 0 || d == 2 {
        var u := 2 * h + d / 2;
        PowerStep(u, k - 1, s);
        WeightEven(u);
        WeightEven(u + s * Pow2(k - 1));
      } else if k == 1 {
        WeightOdd(h, d);
        if s == -d {
          WeightOdd(h, -d);
        } else {
          WeightOdd(h + d, -d);
          UnitStep(h, d);
        }
      } else {
        assert s * Pow2(k) == 4 * (s * Pow2(k - 2));
        PowerStep(h, k - 2, s);
        WeightOdd(h, d);
        WeightOdd(h + s * Pow2(k - 2), d);
      }
    }
  }

  /** No other list of signed powers with the same sum is shorter. */
  lemma {:induction false} NafMinimal(digits: seq<Digit>)
    ensures Weight(Total(digits)) <= |digits|
  {
    if |digits| > 0 {
      NafMinimal(digits[1..]);
      var d := digits[0];
      PowerStep(Total(digits[1..]), d.exponent, if d.negative then -1 else 1);
    }
  }

  /** No list of signed powers of two with the same sum is shorter. */
  lemma NafShortest(v: int, digits: seq<Digit>)
    requires Total(digits) == v
    ensures |Naf(v, 0)| <= |digits|
  {
    NafWeight(v, 0);
    NafMinimal(digits);
  }

  /** Digits of a value of magnitude at most 2^m stay at places up to m. */
  lemma {:induction false} NafRange(v: int, k: nat, m: nat)
    requires Magnitude(v) <= Pow2(m)
    ensures forall i :: 0 <= i < |Naf(v, k)| ==> Naf(v, k)[i].exponent <= k + m
    decreases Magnitude(v)
  {
    hide Naf, OddDigit;
    NafUnfold(v, k);
    HalfRange(v, m);
    if v != 0 && v % 2 == 0 {
      NafRange(v / 2, k + 1, m - 1);
    } else if v != 0 {
      var h := (v - OddDigit(v)) / 2;
      NafUnfold(h, k + 1);
      if m > 0 {
        NafRange(h, k + 1, m - 1);
      }
    }
  }

  lemma HalfRange(v: int, m: nat)
    requires Magnitude(v) <= Pow2(m)
    ensures m == 0 ==> v == 0 || v == 1 || v == -1
    ensures m > 0 && v % 2 == 0 ==> Magnitude(v / 2) <= Pow2(m - 1)
    ensures m > 0 && v % 2 != 0 ==> Magnitude((v - OddDigit(v)) / 2) <= Pow2(m - 1)
    ensures m == 0 && v % 2 != 0 ==> (v - OddDigit(v)) / 2 == 0
  {
  }

  // ----- the executors' loops

  const INT_MIN := -0x8000_0000
  const INT_MAX := 0x7fff_ffff

  predicate IsInt(v: int) {
    INT_MIN <= v <= INT_MAX
  }

  function Values(digits: seq<Digit>): (s: seq<int>)
    ensures |s| == |digits|
  {
    seq(|digits|, i requires 0 <= i < |digits| => digits[i].Value())
  }

  // ----- overflow

  /** 1 + 4 + 16 + ... or 2 + 8 + 32 + ...: the largest sum of non-adjacent digits at places up to m. */
  function Limit(m: nat): nat {
    if m == 0 then 1 else 2 * Limit(m - 1) + if m % 2 == 0 then 1 else 0
  }

  lemma {:induction false} LimitClosed(m: nat)
    ensures 3 * Limit(m) + 1 + Odd(m) == Pow2(m + 2)
  {
    if m == 0 {
      assert Pow2(2) == 4;
    } else {
      LimitClosed(m - 1);
      LimitNext(m);
      hide Limit, Pow2, Odd;
      PowDoubles(m + 1);
    }
  }

  function Odd(m: nat): (r: nat)
    ensures r <= 1
  {
    m % 2
  }

  lemma PowDoubles(m: nat)
    ensures Pow2(m + 1) == 2 * Pow2(m)
  {
  }

  lemma LimitNext(m: nat)
    requires m > 0
    ensures Limit(m) == 2 * Limit(m - 1) + 1 - Odd(m) && Odd(m) == 1 - Odd(m - 1)
  {
  }

  lemma {:induction false} LimitParity(m: nat)
    ensures Limit(m) % 2 == 1 - Odd(m)
  {
    if m > 0 {
      LimitNext(m);
    }
  }

  predicate UpTo(digits: seq<Digit>, m: nat) {
    forall i :: 0 <= i < |digits| ==> digits[i].exponent <= m
  }

  /** The digits stay at places up to m exactly for magnitudes up to that sum. */
  lemma {:induction false} NafTop(v: int, k: nat, m: nat)
    ensures UpTo(Naf(v, k), k + m) <==> Magnitude(v) <= Limit(m)
    decreases Magnitude(v)
  {
    hide *;
    NafUnfold(v, k);
    NafFirst(v, k);
    LimitZero();
    if v == 0 {
      UpToNone(k + m);
      NoMagnitude();
    } else if v % 2 == 0 {
      if m == 0 {
        NotUpTo(Naf(v, k), k);
        SmallMagnitude(v);
      } else {
        NafTop(v / 2, k + 1, m - 1);
        EvenLimit(v, m);
      }
    } else {
      var d := OddDigit(v);
      var h := (v - d) / 2;
      UpToCons(Digit(d < 0, k), Naf(h, k + 1), k + m);
      NafFirst(h, k + 1);
      if m == 0 {
        if h == 0 {
          UpToNone(k);
        } else {
          NotUpTo(Naf(h, k + 1), k);
        }
        SmallMagnitude(v);
      } else {
        NafTop(h, k + 1, m - 1);
        OddLimit(v, h, d, m);
      }
    }
  }

  lemma LimitZero()
    ensures Limit(0) == 1
  {
  }

  lemma NoMagnitude()
    ensures Magnitude(0) == 0
  {
  }

  lemma SmallMagnitude(v: int)
    ensures Magnitude(v) <= 1 <==> -1 <= v <= 1
  {
  }

  lemma UpToNone(m: nat)
    ensures UpTo([], m)
  {
  }

  lemma NotUpTo(digits: seq<Digit>, m: nat)
    requires |digits| > 0 && digits[0].exponent > m
    ensures !UpTo(digits, m)
  {
  }

  lemma EvenLimit(v: int, m: nat)
    requires v % 2 == 0 && m > 0
    ensures Magnitude(v) <= Limit(m) <==> Magnitude(v / 2) <= Limit(m - 1)
  {
    LimitNext(m);
  }

  lemma OddLimit(v: int, h: int, d: int, m: nat)
    requires v == 2 * h + d && (d == 1 || d == -1) && h % 2 == 0 && m > 0
    ensures Magnitude(v) <= Limit(m) <==> Magnitude(h) <= Limit(m - 1)
  {
    LimitNext(m);
    LimitParity(m - 1);
    hide Limit, Odd;
  }

  /** A nonzero value has digits, all at places from k on; an even one has none at k. */
  lemma {:induction false} NafFirst(v: int, k: nat)
    ensures v == 0 <==> Naf(v, k) == []
    ensures forall i :: 0 <= i < |Naf(v, k)| ==> Naf(v, k)[i].exponent >= k
    ensures v != 0 ==> Naf(v, k)[0].exponent >= k + (if v % 2 == 0 then 1 else 0)
    decreases Magnitude(v)
  {
    hide Naf, OddDigit, Magnitude;
    NafUnfold(v, k);
    NafNonAdjacent(v, k);
    if v != 0 && v % 2 == 0 {
      NafFirst(v / 2, k + 1);
    }
  }

  lemma UpToCons(d: Digit, rest: seq<Digit>, m: nat)
    requires d.exponent <= m
    ensures UpTo([d] + rest, m) <==> UpTo(rest, m)
  {
    var all := [d] + rest;
    assert forall i :: 0 <= i < |rest| ==> all[i + 1] == rest[i];
    if UpTo(all, m) {
      forall i | 0 <= i < |rest|
        ensures rest[i].exponent <= m
      {
        assert all[i + 1].exponent <= m;
      }
    }
  }

  /** The last digit carries the sign. */
  lemma {:induction false} NafSign(v: int, k: nat)
    requires v != 0
    ensures |Naf(v, k)| > 0 && (Naf(v, k)[|Naf(v, k)| - 1].negative <==> v < 0)
    decreases Magnitude(v)
  {
    hide Naf, OddDigit;
    NafUnfold(v, k);
    if v % 2 == 0 {
      NafSign(v / 2, k + 1);
    } else {
      var h := (v - OddDigit(v)) / 2;
      NafUnfold(h, k + 1);
      if h != 0 {
        NafSign(h, k + 1);
      }
    }
  }

  const NAF_LIMIT := 0x5555_5555

  lemma IntPowers()
    ensures Pow2(31) == 0x8000_0000 && Limit(30) == NAF_LIMIT && Limit(31) >= 0x8000_0000
  {
    assert Pow2(8) == 256;
    assert Pow2(16) == 65536;
    assert Pow2(24) == 0x100_0000;
    assert Pow2(31) == 0x8000_0000;
    assert Pow2(32) == 2 * Pow2(31) && Pow2(33) == 2 * Pow2(32);
    LimitClosed(30);
    LimitClosed(31);
  }

  lemma DigitFits(d: Digit)
    requires d.exponent <= 31
    ensures IsInt(d.Value()) <==> d.exponent < 31 || d.negative
  {
    IntPowers();
    hide Pow2;
    if d.exponent < 31 {
      Pow2Grows(d.exponent, 31);
    }
  }

  lemma {:induction false} Pow2Grows(a: nat, b: nat)
    requires a < b
    ensures 2 * Pow2(a) <= Pow2(b)
    decreases b
  {
    if a < b - 1 {
      Pow2Grows(a, b - 1);
    }
  }

  /** An int has a digit outside the int range exactly when it is above 0x55555555. */
  lemma NafOverflow(v: int)
    requires IsInt(v)
    ensures v > NAF_LIMIT <==> exists i :: 0 <= i < |Naf(v, 0)| && !IsInt(Naf(v, 0)[i].Value())
  {
    hide Naf, Limit;
    IntPowers();
    NafTop(v, 0, 31);
    NafTop(v, 0, 30);
    NafNonAdjacent(v, 0);
    var digits := Naf(v, 0);
    forall i | 0 <= i < |digits|
      ensures IsInt(digits[i].Value()) <==> digits[i].exponent < 31 || digits[i].negative
      ensures digits[i].exponent >= 31 ==> i == |digits| - 1
    {
      DigitFits(digits[i]);
      if i < |digits| - 1 {
        assert digits[i + 1].exponent >= digits[i].exponent + 2;
      }
    }
    if v != 0 {
      NafSign(v, 0);
    } else {
      NafFirst(0, 0);
    }
    if v > NAF_LIMIT {
      var last := |digits| - 1;
      assert !UpTo(digits, 30);
      assert digits[last].exponent == 31;
      assert !IsInt(digits[last].Value());
    }
  }

  /** None stands for the overflow exception. */
  method NafSteps(value: int) returns (r: Option<seq<int>>)
    requires IsInt(value)
    ensures r.Some? ==> r.value == Values(Naf(value, 0))
    ensures r.None? <==> value > NAF_LIMIT
    ensures r.None? <==> exists i :: 0 <= i < |Naf(value, 0)| && !IsInt(Naf(value, 0)[i].Value())
  {
    hide *;
    var steps := [];
    var remaining, power := value, 1;
    ghost var done, k: nat := [], 0;
    FirstPower();
    while remaining != 0
      invariant power == Pow2(k) && steps == Values(done)
      invariant done + Naf(remaining, k) == Naf(value, 0)
      invariant forall i :: 0 <= i < |done| ==> IsInt(done[i].Value())
      decreases Magnitude(remaining)
    {
      NafStep(remaining, k, done);
      if remaining % 2 != 0 {
        var digit := OddDigit(remaining);
        var step := digit * power;
        if !IsInt(step) {
          assert Naf(value, 0)[|done|].Value() == step;
          NafOverflow(value);
          return None;
        }
        done := done + [Digit(digit < 0, k)];
        steps := steps + [step];
        remaining := remaining - digit;
      }
      remaining := remaining / 2;
      power := power * 2;
      k := k + 1;
    }
    NafEmpty(k, done);
    NafOverflow(value);
    return Some(steps);
  }

  lemma FirstPower()
    ensures Pow2(0) == 1 && Values([]) == []
    ensures forall v :: [] + Naf(v, 0) == Naf(v, 0)
  {
  }

  lemma NafEmpty(k: nat, done: seq<Digit>)
    ensures Naf(0, k) == [] && done + [] == done
  {
  }

  lemma NafStep(v: int, k: nat, done: seq<Digit>)
    requires v != 0
    ensures Pow2(k + 1) == Pow2(k) * 2
    ensures v % 2 == 0 ==> Naf(v, k) == Naf(v / 2, k + 1) && Magnitude(v / 2) < Magnitude(v)
    ensures v % 2 != 0 ==> var d, digit := OddDigit(v), Digit(OddDigit(v) < 0, k);
                           && digit.Value() == d * Pow2(k) && Magnitude((v - d) / 2) < Magnitude(v)
                           && done + Naf(v, k) == (done + [digit]) + Naf((v - d) / 2, k + 1)
                           && Values(done + [digit]) == Values(done) + [digit.Value()]
                           && |done + Naf(v, k)| > |done| && (done + Naf(v, k))[|done|] == digit
  {
    if v % 2 != 0 {
      OddDigitMeans(v);
      var digit := Digit(OddDigit(v) < 0, k);
      assert Naf(v, k) == [digit] + Naf((v - OddDigit(v)) / 2, k + 1);
    }
  }

  /** C++ remainder: the sign of the dividend. */
  function Remainder(a: int, b: int): int
    requires b > 0
  {
    if a >= 0 then a % b else -((-a) % b)
  }

  predicate SlotsOk(slots: int) {
    2 <= slots <= INT_MAX && IsPowerOfTwo(slots)
  }

  /** The shorter way round; half a turn goes in the direction of the offset. */
  predicate IsCanonical(v: int, offset: int, slots: int)
    requires slots > 0
  {
    && -(slots / 2) <= v <= slots / 2 && Wrap(v, slots) == Wrap(offset, slots)
    && (v == slots / 2 ==> offset > 0) && (v == -(slots / 2) ==> offset < 0)
  }

  method CanonicalRotation(offset: int, slots: int) returns (r: Option<int>)
    requires IsInt(offset) && IsInt(slots)
    ensures r.None? <==> !SlotsOk(slots)
    ensures r.Some? ==> IsCanonical(r.value, offset, slots)
    ensures r.Some? ==> -(slots / 2) <= r.value <= slots / 2 && Wrap(r.value, slots) == Wrap(offset, slots)
  {
    hide IsPowerOfTwo, Wrap, Remainder, IsCanonical;
    if slots < 2 || !IsPowerOfTwo(slots) {
      return None;
    }
    var reduced := Remainder(offset, slots);
    RemainderMeans(offset, slots);
    RemainderSign(offset, slots);
    EvenSlots(slots);
    if reduced > slots / 2 {
      WrapTurn(reduced, -1, slots);
      reduced := reduced - slots;
    }
    if reduced < -(slots / 2) {
      WrapTurn(reduced, 1, slots);
      reduced := reduced + slots;
    }
    CanonicalMeans(reduced, offset, slots, slots / 2);
    return Some(reduced);
  }

  lemma CanonicalMeans(v: int, offset: int, slots: int, half: int)
    requires slots > 0 && half == slots / 2 && -half <= v <= half && Wrap(v, slots) == Wrap(offset, slots)
    requires (v == half ==> offset > 0) && (v == -half ==> offset < 0)
    ensures IsCanonical(v, offset, slots)
  {
    hide Wrap;
  }

  lemma RemainderSign(a: int, b: int)
    requires b > 0
    ensures (Remainder(a, b) > 0 ==> a > 0) && (Remainder(a, b) < 0 ==> a < 0)
  {
  }

  lemma EvenSlots(slots: int)
    requires slots >= 2 && IsPowerOfTwo(slots)
    ensures slots / 2 + slots / 2 == slots
  {
  }

  lemma RemainderMeans(a: int, b: int)
    requires b > 0
    ensures -b < Remainder(a, b) < b && Wrap(Remainder(a, b), b) == Wrap(a, b)
  {
    if a >= 0 {
      WrapSmall(a % b, b);
    } else {
      var q := (-a) / b;
      assert a == -((-a) % b) + -q * b;
      WrapTurn(-((-a) % b), -q, b);
    }
  }

  function SumOf(steps: seq<int>): int {
    if |steps| == 0 then 0 else steps[0] + SumOf(steps[1..])
  }

  lemma {:induction false} SumOfValues(digits: seq<Digit>)
    ensures SumOf(Values(digits)) == Total(digits)
  {
    if |digits| > 0 {
      SumOfValues(digits[1..]);
      assert Values(digits)[1..] == Values(digits[1..]);
    }
  }

  lemma {:induction false} SumOfSnoc(steps: seq<int>, s: int)
    ensures SumOf(steps + [s]) == SumOf(steps) + s
  {
    if |steps| == 0 {
      assert steps + [s] == [s] && [s][1..] == [];
    } else {
      SumOfSnoc(steps[1..], s);
      assert (steps + [s])[1..] == steps[1..] + [s];
    }
  }

  /** Every step is one of the base keys: a signed power of two no longer than half a turn. */
  predicate BaseSteps(steps: seq<int>, slots: int) {
    forall i :: 0 <= i < |steps| ==> IsPowerOfTwo(Magnitude(steps[i])) && Magnitude(steps[i]) <= slots / 2
  }

  method RotationStepList(offset: int, slots: int, naf: bool) returns (r: Option<seq<int>>)
    requires IsInt(offset) && IsInt(slots)
    ensures r.None? <==> !SlotsOk(slots)
    ensures r.Some? ==> Wrap(SumOf(r.value), slots) == Wrap(offset, slots) && BaseSteps(r.value, slots)
    ensures r.Some? ==> exists v :: IsCanonical(v, offset, slots) && if naf then r.value == Values(Naf(v, 0)) else Ascending(r.value, v < 0)
  {
    hide IsPowerOfTwo, Wrap, BaseSteps, SumOf, Naf, Values, Ascending;
    var canonical := CanonicalRotation(offset, slots);
    if canonical.None? {
      return None;
    }
    var v := canonical.value;
    CanonicalNaf(v, slots);
    if naf {
      r := NafSteps(v);
      return r;
    }
    var steps := BinarySteps(v, slots);
    return Some(steps);
  }

  /** The overflow branch is unreachable from a canonical offset, and its digits are base keys. */
  lemma CanonicalNaf(v: int, slots: int)
    requires SlotsOk(slots) && -(slots / 2) <= v <= slots / 2
    ensures forall i :: 0 <= i < |Naf(v, 0)| ==> IsInt(Naf(v, 0)[i].Value())
    ensures SumOf(Values(Naf(v, 0))) == v && BaseSteps(Values(Naf(v, 0)), slots)
  {
    hide Naf;
    var m := ExponentOf(slots / 2);
    NafTotal(v, 0);
    NafRange(v, 0, m);
    SumOfValues(Naf(v, 0));
    forall i | 0 <= i < |Naf(v, 0)|
      ensures var s := Naf(v, 0)[i].Value(); IsPowerOfTwo(Magnitude(s)) && Magnitude(s) <= slots / 2
    {
      PowerMeans(Naf(v, 0)[i].exponent, m);
    }
  }

  lemma {:induction false} ExponentOf(n: nat) returns (m: nat)
    requires IsPowerOfTwo(n)
    ensures Pow2(m) == n
  {
    if n == 1 {
      m := 0;
    } else {
      m := ExponentOf(n / 2);
      m := m + 1;
    }
  }

  lemma {:induction false} PowerMeans(e: nat, m: nat)
    requires e <= m
    ensures IsPowerOfTwo(Pow2(e)) && Pow2(e) <= Pow2(m)
  {
    if e > 0 {
      PowerMeans(e - 1, m - 1);
    } else if m > 0 {
      PowerMeans(0, m - 1);
    }
  }

  /** The plain binary walk of |offset|, all steps with the sign of the offset. */
  method BinarySteps(v: int, slots: int) returns (steps: seq<int>)
    requires SlotsOk(slots) && -(slots / 2) <= v <= slots / 2
    ensures SumOf(steps) == v && BaseSteps(steps, slots) && Ascending(steps, v < 0)
  {
    hide IsPowerOfTwo, BaseSteps, SumOf, Ascending, Below;
    steps := [];
    NothingAscends(v < 0);
    SignedMagnitude(v);
    var sign := if v < 0 then -1 else 1;
    var bits: nat, power: int := Magnitude(v), 1;
    BinaryStart(slots);
    while bits > 0
      invariant power >= 1 && IsPowerOfTwo(power) && BaseSteps(steps, slots)
      invariant SumOf(steps) + sign * (bits * power) == v && bits * power <= slots / 2
      invariant Ascending(steps, v < 0) && Below(steps, power)
    {
      AscendingNext(steps, v < 0, power);
      BinaryStep(bits, power, sign, slots, steps);
      if bits % 2 == 1 {
        steps := steps + [sign * power];
      }
      bits := bits / 2;
      power := power * 2;
    }
    ZeroBits(sign, bits, power);
  }

  /** Steps of one sign and growing length: the binary digits of the offset. */
  predicate Ascending(steps: seq<int>, negative: bool) {
    && (forall i :: 0 <= i < |steps| ==> steps[i] != 0 && (steps[i] < 0 <==> negative))
    && forall i :: 0 < i < |steps| ==> Magnitude(steps[i]) > Magnitude(steps[i - 1])
  }

  predicate Below(steps: seq<int>, power: int) {
    forall i :: 0 <= i < |steps| ==> Magnitude(steps[i]) < power
  }

  lemma NothingAscends(negative: bool)
    ensures Ascending([], negative) && Below([], 1)
  {
  }

  lemma AscendingNext(steps: seq<int>, negative: bool, power: int)
    requires Ascending(steps, negative) && Below(steps, power) && power >= 1
    ensures Below(steps, power * 2)
    ensures var longer := steps + [(if negative then -1 else 1) * power]; Ascending(longer, negative) && Below(longer, power * 2)
  {
    forall i | 0 <= i < |steps|
      ensures Magnitude(steps[i]) < power * 2
    {
      assert Magnitude(steps[i]) < power;
    }
  }

  lemma SignedMagnitude(v: int)
    ensures (if v < 0 then -1 else 1) * (Magnitude(v) * 1) == v
  {
  }

  lemma ZeroBits(sign: int, bits: nat, power: int)
    requires bits == 0
    ensures sign * (bits * power) == 0
  {
    assert bits * power == 0;
  }

  lemma BinaryStart(slots: int)
    ensures IsPowerOfTwo(1) && BaseSteps([], slots) && SumOf([]) == 0
  {
  }

  lemma BinaryStep(bits: nat, power: int, sign: int, slots: int, steps: seq<int>)
    requires bits > 0 && power >= 1 && IsPowerOfTwo(power) && (sign == 1 || sign == -1)
    requires BaseSteps(steps, slots) && bits * power <= slots / 2
    ensures IsPowerOfTwo(power * 2) && bits / 2 * (power * 2) <= slots / 2
    ensures bits % 2 == 0 ==> bits / 2 * (power * 2) == bits * power
    ensures bits % 2 == 1 ==> && bits / 2 * (power * 2) == bits * power - power
                              && SumOf(steps + [sign * power]) == SumOf(steps) + sign * power
                              && BaseSteps(steps + [sign * power], slots)
    ensures sign * (bits * power - power) == sign * (bits * power) - sign * power
  {
    hide *;
    SumOfSnoc(steps, sign * power);
    HalfBits(bits, bits / 2, power);
    SignOut(sign, bits * power, power);
    DoublePower(power);
    if bits % 2 == 1 {
      BaseSnoc(steps, sign, power, slots);
    }
  }

  lemma SignOut(sign: int, x: int, y: int)
    ensures sign * (x - y) == sign * x - sign * y
  {
  }

  lemma DoublePower(power: int)
    requires power >= 1 && IsPowerOfTwo(power)
    ensures IsPowerOfTwo(power * 2)
  {
    assert power * 2 / 2 == power;
  }

  lemma BaseSnoc(steps: seq<int>, sign: int, power: int, slots: int)
    requires BaseSteps(steps, slots) && (sign == 1 || sign == -1) && 1 <= power <= slots / 2 && IsPowerOfTwo(power)
    ensures BaseSteps(steps + [sign * power], slots)
  {
    assert Magnitude(sign * power) == power;
  }

  lemma HalfBits(bits: nat, h: nat, power: int)
    requires h == bits / 2 && power >= 1 && bits > 0
    ensures bits % 2 == 0 ==> h * (power * 2) == bits * power
    ensures bits % 2 == 1 ==> h * (power * 2) == bits * power - power
    ensures power <= bits * power && h * (power * 2) <= bits * power
  {
    assert bits == 2 * h + bits % 2;
    MulMonotone(1, bits, power);
  }

  // ----- what the steps do to slots

  function RollAll(v: Slots, steps: seq<int>): (r: Slots)
    ensures |r| == |v|
    decreases |steps|
  {
    if |steps| == 0 then v else RollAll(Roll(v, -steps[0]), steps[1..])
  }

  /** Rotating by each step in turn is one rotation by their sum. */
  lemma {:induction false} RollAllIsOne(v: Slots, steps: seq<int>)
    ensures RollAll(v, steps) == Roll(v, -SumOf(steps))
    decreases |steps|
  {
    hide Roll;
    if |steps| == 0 {
      RollNone(v);
    } else {
      RollAllIsOne(Roll(v, -steps[0]), steps[1..]);
      RollRoll(v, -steps[0], -SumOf(steps[1..]));
    }
  }

  /** Offsets that agree modulo the slot count rotate alike. */
  lemma RollCongruent(v: Slots, j: int, k: int)
    requires Wrap(j, |v|) == Wrap(k, |v|)
    ensures Roll(v, -j) == Roll(v, -k)
  {
    hide Wrap;
    var left, right := Roll(v, -j), Roll(v, -k);
    forall i | 0 <= i < |v|
      ensures left[i] == right[i]
    {
      WrapAdd(j, i, |v|);
      WrapAdd(k, i, |v|);
    }
  }

  /** A decomposition of an offset rotates exactly as the offset. */
  lemma StepsRotate(v: Slots, steps: seq<int>, offset: int)
    requires Wrap(SumOf(steps), |v|) == Wrap(offset, |v|)
    ensures RollAll(v, steps) == Roll(v, -offset)
  {
    RollAllIsOne(v, steps);
    RollCongruent(v, SumOf(steps), offset);
  }
}
