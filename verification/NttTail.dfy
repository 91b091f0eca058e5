/** experiments/ntt_warp_tail/check_lane_mapping.py and ntt_lazy/check_arithmetic.py: NTT kernel arithmetic. */
module NttTail {
  import opened Sums
  import opened SlotVectors

  // ----- bit operations on naturals

  function And(a: nat, b: nat): (r: nat)
    ensures r <= a && r <= b
    decreases a
  {
    if a == 0 then 0 else 2 * And(a / 2, b / 2) + a % 2 * (b % 2)
  }

  function Or(a: nat, b: nat): nat {
    a + b - And(a, b)
  }

  function Xor(a: nat, b: nat): nat {
    a + b - 2 * And(a, b)
  }

  /** a & ~b */
  function AndNot(a: nat, b: nat): nat {
    a - And(a, b)
  }

  function ShiftRight(x: nat, k: nat): (r: nat)
    ensures r <= x
  {
    if k == 0 then x else ShiftRight(x / 2, k - 1)
  }

  lemma {:induction false} AndZero(t: nat)
    ensures And(t, 0) == 0 && And(0, t) == 0
    decreases t
  {
    if t > 0 {
      AndZero(t / 2);
    }
  }

  /** Dividing by 2h is halving first. */
  lemma HalfSplit(t: nat, h: nat)
    requires h > 0
    ensures t % (2 * h) == 2 * (t / 2 % h) + t % 2 && t / (2 * h) == t / 2 / h
  {
    var u, q := t / 2, t / 2 / h;
    assert u == q * h + u % h;
    assert q * (2 * h) == 2 * (q * h);
    ModUnique(t, 2 * h, q, 2 * (u % h) + t % 2);
  }

  lemma {:induction false} AndLowMask(t: nat, k: nat)
    ensures And(t, Pow2(k) - 1) == t % Pow2(k)
    decreases k
  {
    if k == 0 {
      AndZero(t);
      ModUnique(t, 1, t, 0);
    } else {
      AndLowMask(t / 2, k - 1);
      HalfSplit(t, Pow2(k - 1));
      AndStep(t, Pow2(k) - 1, Pow2(k - 1) - 1, 1);
    }
  }

  lemma AndStep(a: nat, b: nat, half: nat, bit: nat)
    requires b == 2 * half + bit && bit < 2
    ensures And(a, b) == 2 * And(a / 2, half) + a % 2 * bit
  {
    if a == 0 {
      AndZero(half);
    } else {
      HalfBit(half, bit);
    }
  }

  lemma HalfBit(half: nat, bit: nat)
    requires bit < 2
    ensures (2 * half + bit) / 2 == half && (2 * half + bit) % 2 == bit
  {
  }

  /** One bit of t. */
  lemma {:induction false} AndBit(t: nat, k: nat)
    ensures And(t, Pow2(k)) == if t / Pow2(k) % 2 == 1 then Pow2(k) else 0
    decreases k
  {
    if k == 0 {
      AndZero(t / 2);
      ModUnique(t, 1, t, 0);
      AndStep(t, 1, 0, 1);
    } else {
      AndBit(t / 2, k - 1);
      HalfSplit(t, Pow2(k - 1));
      AndStep(t, Pow2(k), Pow2(k - 1), 0);
    }
  }

  function ShiftLeft(x: nat, k: nat): nat {
    if k == 0 then x else 2 * ShiftLeft(x, k - 1)
  }

  lemma {:induction false} ShiftLeftIs(x: nat, k: nat)
    ensures ShiftLeft(x, k) == x * Pow2(k)
  {
    if k > 0 {
      ShiftLeftIs(x, k - 1);
    }
  }

  /** Low bits and shifted high bits do not meet, so | adds them. */
  lemma {:induction false} OrDisjoint(x: nat, c: nat, k: nat)
    requires x < Pow2(k)
    ensures And(x, ShiftLeft(c, k)) == 0 && Or(x, ShiftLeft(c, k)) == x + ShiftLeft(c, k)
    decreases k
  {
    if k == 0 {
      AndZero(c);
    } else {
      OrDisjoint(x / 2, c, k - 1);
      AndStep(x, ShiftLeft(c, k), ShiftLeft(c, k - 1), 0);
    }
  }

  // ----- thread positions

  /** The stage widths of the tail. */
  predicate Width(m: int) {
    m == 1 || m == 2 || m == 4 || m == 8 || m == 16
  }

  /** Lower array index of thread t in a stage of width m. */
  function Low(t: nat, m: nat): nat
    requires m > 0
  {
    t % m + 2 * (t - t % m)
  }

  /** The thread that owns an array index in a stage of width m. */
  function Owner(i: nat, m: nat): nat
    requires m > 0
  {
    var c: nat := i / (2 * m);
    Doubled(c, m);
    c * m + i % m
  }

  predicate IsLow(i: nat, m: nat)
    requires m > 0
  {
    i / m % 2 == 0
  }

  /** Thread c*m + r owns the indices 2*c*m + r and 2*c*m + m + r. */
  lemma Place(c: nat, r: nat, m: nat)
    requires r < m
    ensures c * m >= 0 && Low(c * m + r, m) == 2 * (c * m) + r && (c * m + r) / m == c
    ensures Owner(2 * (c * m) + r, m) == c * m + r && IsLow(2 * (c * m) + r, m)
    ensures Owner(2 * (c * m) + m + r, m) == c * m + r && !IsLow(2 * (c * m) + m + r, m)
  {
    Doubled(c, m);
    ModUnique(c * m + r, m, c, r);
    ModUnique(2 * (c * m) + r, m, 2 * c, r);
    ModUnique(2 * (c * m) + r, 2 * m, c, r);
    ModUnique(2 * (c * m) + m + r, m, 2 * c + 1, r);
    ModUnique(2 * (c * m) + m + r, 2 * m, c, m + r);
  }

  lemma Doubled(c: nat, m: nat)
    ensures c * m >= 0 && 2 * (c * m) == (2 * c) * m == c * (2 * m) && (2 * c + 1) * m == 2 * (c * m) + m
    ensures c * (4 * m) == 4 * (c * m)
  {
  }

  lemma Split(t: nat, m: nat) returns (c: nat, r: nat)
    requires m > 0
    ensures t == c * m + r && r < m && c == t / m && r == t % m
  {
    c, r := t / m, t % m;
  }

  /** Each array index belongs to exactly one thread, as its lower or its upper index. */
  lemma OwnerOfLow(t: nat, m: nat)
    requires m > 0
    ensures Owner(Low(t, m), m) == t && IsLow(Low(t, m), m)
    ensures Owner(Low(t, m) + m, m) == t && !IsLow(Low(t, m) + m, m)
  {
    hide Low, Owner, IsLow;
    var c, r := Split(t, m);
    Place(c, r, m);
    assert 2 * (c * m) + m + r == Low(t, m) + m;
  }

  lemma LowOfOwner(i: nat, m: nat)
    requires m > 0
    ensures i == if IsLow(i, m) then Low(Owner(i, m), m) else Low(Owner(i, m), m) + m
  {
    hide Low, Owner, IsLow;
    var c, s := Split(i, 2 * m);
    Doubled(c, m);
    if s < m {
      Place(c, s, m);
    } else {
      Place(c, s - m, m);
      assert i == 2 * (c * m) + m + (s - m);
    }
  }

  /** The block holds a whole number of runs of m threads. */
  lemma Runs(m: nat, block: nat) returns (n: nat)
    requires (Width(m) || m == 32) && block % 32 == 0
    ensures block == n * m
  {
    n := 32 / m * (block / 32);
    assert n * m == block by {
      assert 32 / m * m == 32 by { Divides32(m); }
      Regroup(32 / m, block / 32, m);
    }
  }

  lemma Divides32(m: nat)
    requires Width(m) || m == 32
    ensures 32 / m * m == 32
  {
  }

  lemma Regroup(a: int, b: int, c: int)
    ensures a * b * c == a * c * b
  {
  }

  lemma ThreadInside(t: nat, m: nat, block: nat)
    requires (Width(m) || m == 32) && block % 32 == 0
    ensures t < block <==> Low(t, m) + m < 2 * block
  {
    hide Low, Owner, IsLow;
    var c, r := Split(t, m);
    Place(c, r, m);
    var n := Runs(m, block);
    if c < n {
      MulMonotone(c + 1, n, m);
    } else {
      MulMonotone(n, c, m);
    }
  }

  lemma OwnerInside(i: nat, m: nat, block: nat)
    requires Width(m) && block % 32 == 0 && i < 2 * block
    ensures Owner(i, m) < block
  {
    hide *;
    WidthPositive(m);
    LowOfOwner(i, m);
    Upper(i, m, block);
    ThreadInside(Owner(i, m), m, block);
  }

  lemma WidthPositive(m: nat)
    requires Width(m)
    ensures m > 0
  {
  }

  /** The block size is a multiple of 2m, so an index below 2*block has its partner there too. */
  lemma Upper(i: nat, m: nat, block: nat)
    requires Width(m) && block % 32 == 0 && i < 2 * block
    ensures Low(Owner(i, m), m) + m < 2 * block
  {
    hide Low, Owner, IsLow;
    var n := Runs(m, block);
    var c, s := Split(i, 2 * m);
    Doubled(c, m);
    var r := if s < m then s else s - m;
    Place(c, r, m);
    if c < n {
      MulMonotone(c + 1, n, m);
    } else {
      MulMonotone(n, c, m);
    }
  }

  // ----- one butterfly stage

  /** The modulus, the twiddle table and the block size. */
  datatype Setup = Setup(q: int, twiddles: seq<int>, block: nat)
  {
    predicate Valid() {
      q > 0 && block > 0 && block % 32 == 0 && |twiddles| == block
    }
  }

  function Twiddle(s: Setup, mask: nat, shift: nat, t: nat): int
    requires s.Valid() && t < s.block
  {
    s.twiddles[ShiftRight(And(t, mask), shift)]
  }

  /** Both outputs of a butterfly. */
  function Sum2(s: Setup, x: int, y: int, w: int): int
    requires s.q > 0
  {
    (x + y * w % s.q) % s.q
  }

  function Difference2(s: Setup, x: int, y: int, w: int): int
    requires s.q > 0
  {
    (x - y * w % s.q) % s.q
  }

  /** The whole array after one stage. */
  function Stage(s: Setup, e: seq<int>, m: nat, mask: nat, shift: nat): (r: seq<int>)
    requires s.Valid() && |e| == 2 * s.block && Width(m)
    ensures |r| == |e|
  {
    seq(|e|, i requires 0 <= i < |e| => StageAt(s, e, m, mask, shift, i))
  }

  function StageAt(s: Setup, e: seq<int>, m: nat, mask: nat, shift: nat, i: nat): int
    requires s.Valid() && |e| == 2 * s.block && Width(m) && i < |e|
  {
    OwnerInside(i, m, s.block);
    Upper(i, m, s.block);
    var t := Owner(i, m);
    var x, y, w := e[Low(t, m)], e[Low(t, m) + m], Twiddle(s, mask, shift, t);
    if IsLow(i, m) then Sum2(s, x, y, w) else Difference2(s, x, y, w)
  }

  /** x and y are congruent modulo q. */
  predicate Congruent(x: int, y: int, q: int)
    requires q > 0
  {
    (x - y) % q == 0
  }

  lemma ReducedCongruent(x: int, q: int)
    requires q > 0
    ensures 0 <= x % q < q && Congruent(x % q, x, q)
  {
    assert x == x / q * q + x % q;
    ModUnique(x % q - x, q, -(x / q), 0) by {
      assert -(x / q) * q == -(x / q * q);
    }
  }

  lemma CongruentShift(x: int, y: int, z: int, q: int)
    requires q > 0 && Congruent(y, z, q)
    ensures Congruent(x + y, x + z, q) && Congruent(x - y, x - z, q)
  {
    var k := (y - z) / q;
    assert y - z == k * q;
    assert x - y - (x - z) == -k * q;
    ModUnique(x - y - (x - z), q, -k, 0);
  }

  lemma CongruentChain(x: int, y: int, z: int, q: int)
    requires q > 0 && Congruent(x, y, q) && Congruent(y, z, q)
    ensures Congruent(x, z, q)
  {
    var j, k := (x - y) / q, (y - z) / q;
    SplitProduct(j, k, q);
    ModUnique(x - z, q, j + k, 0);
  }

  /** The two outputs of a butterfly are the residues of x + w*y and x - w*y. */
  lemma ButterflyComputes(s: Setup, x: int, y: int, w: int)
    requires s.q > 0
    ensures 0 <= Sum2(s, x, y, w) < s.q && Congruent(Sum2(s, x, y, w), x + w * y, s.q)
    ensures 0 <= Difference2(s, x, y, w) < s.q && Congruent(Difference2(s, x, y, w), x - w * y, s.q)
  {
    hide Congruent;
    var p := y * w;
    assert p == w * y;
    ReducedCongruent(p, s.q);
    CongruentShift(x, p % s.q, p, s.q);
    ReducedCongruent(x + p % s.q, s.q);
    ReducedCongruent(x - p % s.q, s.q);
    CongruentChain(Sum2(s, x, y, w), x + p % s.q, x + p, s.q);
    CongruentChain(Difference2(s, x, y, w), x - p % s.q, x - p, s.q);
  }

  /**
   * A stage of width m pairs every entry of the lower half of a run of 2m entries with the one m places on: run c, entry r.
   * The pair's twiddle is that of thread c*m + r, and the results are the residues of the sum and the difference.
   */
  lemma StageComputes(s: Setup, e: seq<int>, m: nat, mask: nat, shift: nat, c: nat, r: nat)
    requires s.Valid() && |e| == 2 * s.block && Width(m) && r < m && c * m + r < s.block
    ensures c * m >= 0 && 2 * (c * m) + m + r < |e|
    ensures var i, w, out := 2 * (c * m) + r, Twiddle(s, mask, shift, c * m + r), Stage(s, e, m, mask, shift);
            && 0 <= out[i] < s.q && Congruent(out[i], e[i] + w * e[i + m], s.q)
            && 0 <= out[i + m] < s.q && Congruent(out[i + m], e[i] - w * e[i + m], s.q)
  {
    hide *;
    Place(c, r, m);
    var t, i := c * m + r, 2 * (c * m) + r;
    ButterflyOf(s, e, m, mask, shift, t);
    StageIs(s, e, m, mask, shift, i);
    StageIs(s, e, m, mask, shift, i + m);
    PositiveModulus(s);
    ButterflyComputes(s, e[i], e[i + m], Twiddle(s, mask, shift, t));
  }

  lemma StageIs(s: Setup, e: seq<int>, m: nat, mask: nat, shift: nat, i: nat)
    requires s.Valid() && |e| == 2 * s.block && Width(m) && i < |e|
    ensures Stage(s, e, m, mask, shift)[i] == StageAt(s, e, m, mask, shift, i)
  {
    hide StageAt;
  }

  lemma PositiveModulus(s: Setup)
    requires s.Valid()
    ensures s.q > 0
  {
  }

  /** In place, thread by thread. */
  method InPlaceStage(s: Setup, expected: array<int>, k: nat, mask: nat)
    requires s.Valid() && expected.Length == 2 * s.block && k <= 4
    modifies expected
    ensures Width(Pow2(k)) && expected[..] == Stage(s, old(expected[..]), Pow2(k), mask, k)
  {
    hide Low, Owner, IsLow, StageAt, Sum2, Difference2, Twiddle, And, Or, AndNot;
    var m := Pow2(k);
    WidthOf(k);
    ghost var e := expected[..];
    for tid := 0 to s.block
      invariant forall i: nat :: i < 2 * s.block ==> expected[i] == if Owner(i, m) < tid then StageAt(s, e, m, mask, k, i) else e[i]
    {
      var a := Or(And(tid, m - 1), 2 * AndNot(tid, m - 1));
      LowIndex(tid, k);
      ThreadInside(tid, m, s.block);
      OwnerOfLow(tid, m);
      ButterflyOf(s, e, m, mask, k, tid);
      var b := a + m;
      var w := Twiddle(s, mask, k, tid);
      var x, y := expected[a], expected[b];
      ghost var before := expected[..];
      expected[a], expected[b] := Sum2(s, x, y, w), Difference2(s, x, y, w);
      forall i: nat | i < 2 * s.block
        ensures expected[i] == if Owner(i, m) < tid + 1 then StageAt(s, e, m, mask, k, i) else e[i]
      {
        LowOfOwner(i, m);
        assert i != a && i != b ==> expected[i] == before[i];
      }
    }
    forall i: nat | i < 2 * s.block
      ensures expected[i] == StageAt(s, e, m, mask, k, i)
    {
      OwnerInside(i, m, s.block);
    }
  }

  /** The bit form of a thread's lower index. */
  lemma LowIndex(t: nat, k: nat)
    ensures Or(And(t, Pow2(k) - 1), 2 * AndNot(t, Pow2(k) - 1)) == Low(t, Pow2(k))
  {
    hide And, Or;
    var m := Pow2(k);
    AndLowMask(t, k);
    var c, r := Split(t, m);
    Doubled(c, m);
    OrDisjoint(r, 2 * c, k);
    ShiftLeftIs(2 * c, k);
  }

  lemma WidthOf(k: nat)
    requires k <= 4
    ensures Width(Pow2(k))
  {
    assert Pow2(0) == 1 && Pow2(1) == 2 && Pow2(2) == 4 && Pow2(3) == 8;
  }

  lemma ButterflyOf(s: Setup, e: seq<int>, m: nat, mask: nat, shift: nat, t: nat)
    requires s.Valid() && |e| == 2 * s.block && Width(m) && t < s.block
    ensures Low(t, m) + m < |e|
    ensures var x, y, w := e[Low(t, m)], e[Low(t, m) + m], Twiddle(s, mask, shift, t);
            StageAt(s, e, m, mask, shift, Low(t, m)) == Sum2(s, x, y, w)
            && StageAt(s, e, m, mask, shift, Low(t, m) + m) == Difference2(s, x, y, w)
  {
    hide Low, Owner, IsLow, Sum2, Difference2, Twiddle;
    ThreadInside(t, m, s.block);
    OwnerOfLow(t, m);
  }

  // ----- the lane exchange

  /** lo and hi hold the pair each thread owned at the next wider stage. */
  ghost predicate Holds(s: Setup, lo: seq<int>, hi: seq<int>, e: seq<int>, m: nat) {
    && s.Valid() && (Width(m) || m == 32) && |e| == 2 * s.block && |lo| == |hi| == s.block
    && forall t :: 0 <= t < s.block ==> Low(t, m) + m < |e| && lo[t] == e[Low(t, m)] && hi[t] == e[Low(t, m) + m]
  }

  /**
   * Threads u and u + m are partners: they differ in one bit, are in the same warp, and each already holds one value
   * of its next pair while its partner holds the other.
   */
  ghost predicate Paired(u: int, m: nat, block: nat) {
    && m > 0 && u >= 0 && u + m < block && (u + m) / 32 == u / 32 && u / m % 2 == 0 && (u + m) / m % 2 == 1
    && Low(u, m) == Low(u, 2 * m) && Low(u, m) + m == Low(u + m, 2 * m)
    && Low(u + m, m) == Low(u, 2 * m) + 2 * m && Low(u + m, m) + m == Low(u + m, 2 * m) + 2 * m
  }

  lemma Exchange(t: nat, m: nat, block: nat)
    requires Width(m) && block % 32 == 0 && t < block
    ensures m > 0
    ensures t / m % 2 == 0 ==> Paired(t, m, block)
    ensures t / m % 2 != 0 ==> Paired(t - m, m, block)
  {
    hide *;
    WidthPositive(m);
    var c, r := Split(t, m);
    var d, bit := Split(c, 2);
    PairedRuns(t, c, d, bit, r, m);
    ExchangePair(t - bit * m, d, r, m, block);
  }

  lemma PairedRuns(t: nat, c: nat, d: nat, bit: nat, r: nat, m: nat)
    requires t == c * m + r && c == 2 * d + bit && bit < 2
    ensures t - bit * m == d * (2 * m) + r >= 0
    ensures bit == 0 ==> t - bit * m == t
    ensures bit == 1 ==> t - bit * m == t - m
  {
    Doubled(d, m);
  }

  lemma ExchangePair(u: nat, d: nat, r: nat, m: nat, block: nat)
    requires Width(m) && block % 32 == 0 && r < m && u == d * (2 * m) + r < block
    ensures Paired(u, m, block)
  {
    hide Low, Owner, IsLow, Width;
    var even, odd := PairPlaces(u, d, r, m, block);
    Parity(even, odd, d);
  }

  lemma Parity(even: int, odd: int, d: int)
    requires even == 2 * d && odd == 2 * d + 1
    ensures even % 2 == 0 && odd % 2 == 1
  {
  }

  /** base is where run c of m entries starts. */
  predicate IsBase(base: int, c: int, m: int) {
    base == c * m
  }

  lemma PairBases(d: nat, m: nat) returns (b: nat)
    ensures 2 * b == d * (2 * m) && IsBase(2 * b, d, 2 * m) && IsBase(2 * b, 2 * d, m) && IsBase(2 * b + m, 2 * d + 1, m)
  {
    Doubled(d, m);
    b := d * m;
  }

  lemma PlaceBase(base: nat, c: nat, r: nat, m: nat)
    requires r < m && IsBase(base, c, m)
    ensures Low(base + r, m) == 2 * base + r && (base + r) / m == c
  {
    hide Low;
    Place(c, r, m);
  }

  lemma PairPlaces(u: nat, d: nat, r: nat, m: nat, block: nat) returns (even: int, odd: int)
    requires Width(m) && block % 32 == 0 && r < m && u == d * (2 * m) + r < block
    ensures u + m < block && (u + m) / 32 == u / 32 && even == u / m == 2 * d && odd == (u + m) / m == 2 * d + 1
    ensures Low(u, m) == Low(u, 2 * m) && Low(u, m) + m == Low(u + m, 2 * m)
    ensures Low(u + m, m) == Low(u, 2 * m) + 2 * m && Low(u + m, m) + m == Low(u + m, 2 * m) + 2 * m
  {
    hide *;
    SameWarp(d, r, m);
    RoomAbove(d, r, m, block);
    var b := PairBases(d, m);
    BasePlaces(u, b, d, r, m);
    even, odd := 2 * d, 2 * d + 1;
  }

  lemma BasePlaces(u: nat, b: nat, d: nat, r: nat, m: nat)
    requires r < m && u == 2 * b + r && IsBase(2 * b, d, 2 * m) && IsBase(2 * b, 2 * d, m) && IsBase(2 * b + m, 2 * d + 1, m)
    ensures u / m == 2 * d && (u + m) / m == 2 * d + 1
    ensures Low(u, m) == Low(u, 2 * m) && Low(u, m) + m == Low(u + m, 2 * m)
    ensures Low(u + m, m) == Low(u, 2 * m) + 2 * m && Low(u + m, m) + m == Low(u + m, 2 * m) + 2 * m
  {
    hide *;
    PlaceBase(2 * b, d, r, 2 * m);
    PlaceBase(2 * b, d, r + m, 2 * m);
    PlaceBase(2 * b, 2 * d, r, m);
    PlaceBase(2 * b + m, 2 * d + 1, r, m);
  }

  lemma RoomAbove(d: nat, r: nat, m: nat, block: nat)
    requires Width(m) && block % 32 == 0 && r < m && d * (2 * m) + r < block
    ensures d * (2 * m) + r + m < block
  {
    var n := Runs(2 * m, block);
    if d < n {
      MulMonotone(d + 1, n, 2 * m);
    } else {
      MulMonotone(n, d, 2 * m);
    }
  }

  lemma SameWarp(d: nat, r: nat, m: nat)
    requires Width(m) && r < m
    ensures (d * (2 * m) + r) / 32 == (d * (2 * m) + r + m) / 32
  {
    hide *;
    var n := Warp(m);
    var w, p := Split(d, n);
    var low := p * (2 * m) + r;
    Nested(w, n, p, m);
    InWarp(p, n, m);
    ModUnique(w * 32 + low, 32, w, low);
    ModUnique(w * 32 + low + m, 32, w, low + m);
  }

  lemma InWarp(p: nat, n: nat, m: nat)
    requires p < n && n * (2 * m) == 32
    ensures 0 <= p * (2 * m) <= 32 - 2 * m
  {
    MulMonotone(p + 1, n, 2 * m);
    MulMonotone(0, p, 2 * m);
  }

  lemma Warp(m: nat) returns (n: nat)
    requires Width(m)
    ensures n * (2 * m) == 32 && m > 0 && n > 0
  {
    n := 16 / m;
  }

  lemma Nested(w: nat, n: nat, p: nat, m: nat)
    requires n * (2 * m) == 32
    ensures (w * n + p) * (2 * m) == w * 32 + p * (2 * m)
  {
    calc {
      (w * n + p) * (2 * m);
      w * n * (2 * m) + p * (2 * m);
      w * (n * (2 * m)) + p * (2 * m);
    }
  }

  /** t ^ m for a single bit m. */
  lemma Partner(t: nat, k: nat)
    ensures Xor(t, Pow2(k)) == if t / Pow2(k) % 2 == 1 then t - Pow2(k) else t + Pow2(k)
    ensures And(t, Pow2(k)) != 0 <==> t / Pow2(k) % 2 == 1
  {
    AndBit(t, k);
  }

  method ExchangeStage(s: Setup, lo: array<int>, hi: array<int>, k: nat, mask: nat, ghost e: seq<int>)
    requires k <= 4 && lo != hi && Holds(s, lo[..], hi[..], e, 2 * Pow2(k))
    modifies lo, hi
    ensures Width(Pow2(k)) && Holds(s, lo[..], hi[..], Stage(s, e, Pow2(k), mask, k), Pow2(k))
  {
    hide Low, Owner, IsLow, StageAt, Sum2, Difference2, Twiddle, And, Xor;
    var m := Pow2(k);
    WidthOf(k);
    var outgoing := seq(s.block, t requires 0 <= t < s.block reads lo, hi => if And(t, m) != 0 then lo[t] else hi[t]);
    ghost var lo0, hi0 := lo[..], hi[..];
    for tid := 0 to s.block
      invariant forall t :: tid <= t < s.block ==> lo[t] == lo0[t] && hi[t] == hi0[t]
      invariant forall t: nat :: t < tid ==> Low(t, m) + m < |e| && lo[t] == StageAt(s, e, m, mask, k, Low(t, m))
                                             && hi[t] == StageAt(s, e, m, mask, k, Low(t, m) + m)
    {
      var partner := Xor(tid, m);
      Received(s, lo0, hi0, e, k, tid, outgoing);
      ButterflyOf(s, e, m, mask, k, tid);
      if And(tid, m) != 0 {
        lo[tid] := outgoing[partner];
      } else {
        hi[tid] := outgoing[partner];
      }
      assert lo[tid] == e[Low(tid, m)] && hi[tid] == e[Low(tid, m) + m];
      var w := Twiddle(s, mask, k, tid);
      var x, y := lo[tid], hi[tid];
      lo[tid], hi[tid] := Sum2(s, x, y, w), Difference2(s, x, y, w);
    }
  }

  /** After the exchange a thread holds the pair of the narrower stage, and its partner is in the same warp. */
  lemma Received(s: Setup, lo: seq<int>, hi: seq<int>, e: seq<int>, k: nat, t: nat, outgoing: seq<int>)
    requires k <= 4 && Holds(s, lo, hi, e, 2 * Pow2(k)) && t < s.block
    requires outgoing == seq(s.block, u requires 0 <= u < s.block => if And(u, Pow2(k)) != 0 then lo[u] else hi[u])
    ensures Low(t, Pow2(k)) + Pow2(k) < |e| && 0 <= Xor(t, Pow2(k)) < s.block && Xor(t, Pow2(k)) / 32 == t / 32
    ensures And(t, Pow2(k)) != 0 ==> outgoing[Xor(t, Pow2(k))] == e[Low(t, Pow2(k))] && hi[t] == e[Low(t, Pow2(k)) + Pow2(k)]
    ensures And(t, Pow2(k)) == 0 ==> lo[t] == e[Low(t, Pow2(k))] && outgoing[Xor(t, Pow2(k))] == e[Low(t, Pow2(k)) + Pow2(k)]
  {
    hide Low, Owner, IsLow, And, Xor, Pow2, Width, Paired;
    WidthOf(k);
    ThreadInside(t, Pow2(k), s.block);
    Swap(t, k, s.block);
  }

  /** Exchange in bit form. */
  lemma Swap(t: nat, k: nat, block: nat)
    requires k <= 4 && block % 32 == 0 && t < block
    ensures var m := Pow2(k); var u := Xor(t, m); 0 <= u < block && u / 32 == t / 32
    ensures var m := Pow2(k); var u := Xor(t, m);
            And(t, m) == 0 ==> And(u, m) != 0 && Low(t, m) == Low(t, 2 * m) && Low(t, m) + m == Low(u, 2 * m)
    ensures var m := Pow2(k); var u := Xor(t, m);
            And(t, m) != 0 ==> And(u, m) == 0 && Low(t, m) == Low(u, 2 * m) + 2 * m && Low(t, m) + m == Low(t, 2 * m) + 2 * m
  {
    hide *;
    var m := Pow2(k);
    WidthOf(k);
    Exchange(t, m, block);
    Partner(t, k);
    var u := if t / m % 2 == 1 then t - m else t;
    PairedMeans(u, k, block);
    Partner(Xor(t, m), k);
  }

  lemma PairedMeans(u: int, k: nat, block: nat)
    requires Paired(u, Pow2(k), block)
    ensures var m := Pow2(k);
            0 <= u && u + m < block && (u + m) / 32 == u / 32 && And(u, m) == 0 && And(u + m, m) != 0
            && Low(u, m) == Low(u, 2 * m) && Low(u, m) + m == Low(u + m, 2 * m)
            && Low(u + m, m) == Low(u, 2 * m) + 2 * m && Low(u + m, m) + m == Low(u + m, 2 * m) + 2 * m
  {
    hide Low, And, Xor, Pow2;
    Partner(u, k);
    Partner(u + Pow2(k), k);
  }

  // ----- the whole tail

  /** mask_psi at stage 4, 3, ..., 0. */
  function MaskPsi(block: nat, k: nat): nat
    requires block >= 16 && k <= 4
    decreases 4 - k
  {
    if k == 4 then 2 * block - 32 else Or(MaskPsi(block, k + 1), MaskPsi(block, k + 1) / 2)
  }

  // For a block of 2^n threads the mask clears the low bits of the thread: the twiddle belongs to its run.

  lemma {:induction false} AndHigh(t: nat, a: nat, b: nat)
    requires b <= a
    ensures Pow2(b) <= Pow2(a) && And(t, Pow2(a) - Pow2(b)) == t % Pow2(a) - t % Pow2(b)
    decreases b
  {
    if b == 0 {
      AndLowMask(t, a);
      ModUnique(t, 1, t, 0);
      Pow2AtLeast(a);
    } else {
      AndHigh(t / 2, a - 1, b - 1);
      AndStep(t, Pow2(a) - Pow2(b), Pow2(a - 1) - Pow2(b - 1), 0);
      HalfSplit(t, Pow2(a - 1));
      HalfSplit(t, Pow2(b - 1));
    }
  }

  lemma {:induction false} Pow2AtLeast(a: nat)
    ensures Pow2(a) >= 1
  {
  }

  /** A higher power leaves no remainder. */
  lemma {:induction false} Pow2Divides(a: nat, b: nat)
    requires b <= a
    ensures Pow2(a) % Pow2(b) == 0
    decreases a
  {
    if a == b {
      ModUnique(Pow2(a), Pow2(b), 1, 0);
    } else {
      Pow2Divides(a - 1, b);
      var q := Pow2(a - 1) / Pow2(b);
      assert Pow2(a - 1) == q * Pow2(b) + Pow2(a - 1) % Pow2(b);
      ModUnique(Pow2(a), Pow2(b), 2 * q, 0);
    }
  }

  /** Or-ing a run of high bits with its half adds the next bit. */
  lemma OrHalf(a: nat, b: nat)
    requires 0 < b < a
    ensures Pow2(b) <= Pow2(a) && (Pow2(a) - Pow2(b)) / 2 == Pow2(a - 1) - Pow2(b - 1)
    ensures Or(Pow2(a) - Pow2(b), (Pow2(a) - Pow2(b)) / 2) == Pow2(a) - Pow2(b - 1)
  {
    hide And;
    Pow2Order(b, a);
    Pow2Order(b - 1, a - 1);
    var x, y := Pow2(a) - Pow2(b), Pow2(a - 1) - Pow2(b - 1);
    AndHigh(y, a, b);
    AndSymmetric(x, y);
    ModUnique(y, Pow2(a), 0, y);
    HalfRemainder(a, b);
  }

  lemma {:induction false} Pow2Order(a: nat, b: nat)
    requires a <= b
    ensures Pow2(a) <= Pow2(b)
    decreases b
  {
    if a < b {
      Pow2Order(a, b - 1);
    }
  }

  lemma HalfRemainder(a: nat, b: nat)
    requires 0 < b < a
    ensures Pow2(a - 1) >= Pow2(b - 1) && (Pow2(a - 1) - Pow2(b - 1)) % Pow2(b) == Pow2(b - 1)
  {
    Pow2Divides(a - 1, b);
    Pow2Order(b, a - 1);
    var q := Pow2(a - 1) / Pow2(b);
    assert Pow2(a - 1) == q * Pow2(b) + Pow2(a - 1) % Pow2(b);
    assert (q - 1) * Pow2(b) == q * Pow2(b) - Pow2(b);
    ModUnique(Pow2(a - 1) - Pow2(b - 1), Pow2(b), q - 1, Pow2(b - 1));
  }

  lemma {:induction false} AndSymmetric(a: nat, b: nat)
    ensures And(a, b) == And(b, a)
    decreases a
  {
    if a == 0 {
      AndZero(b);
    } else {
      AndSymmetric(a / 2, b / 2);
      AndStep(b, a, a / 2, a % 2);
      assert a % 2 * (b % 2) == b % 2 * (a % 2);
    }
  }

  lemma {:induction false} MaskIs(n: nat, k: nat)
    requires n >= 5 && k <= 4
    ensures Pow2(n) >= 32 && Pow2(k + 1) <= Pow2(n + 1) && MaskPsi(Pow2(n), k) == Pow2(n + 1) - Pow2(k + 1)
    decreases 4 - k
  {
    hide Or;
    Pow2Order(5, n);
    Pow2Order(k + 1, n + 1);
    assert Pow2(3) == 8 && Pow2(5) == 32;
    if k < 4 {
      MaskIs(n, k + 1);
      OrHalf(n + 1, k + 2);
    }
  }

  /** In a block of 2^n threads, thread t of stage k reads the twiddle at twice the index of its run of 2^(k+1) threads. */
  lemma TwiddleOfRun(s: Setup, n: nat, k: nat, t: nat)
    requires s.Valid() && n >= 5 && s.block == Pow2(n) && k <= 4 && t < s.block
    ensures 0 <= 2 * (t / Pow2(k + 1)) < s.block && Twiddle(s, MaskPsi(s.block, k), k, t) == s.twiddles[2 * (t / Pow2(k + 1))]
  {
    hide *;
    MaskIs(n, k);
    AndHigh(t, n + 1, k + 1);
    PowTwice(n);
    PowTwice(k);
    WrapSmallRun(t, Pow2(n + 1));
    var run := t / Pow2(k + 1);
    Whole(t, Pow2(k + 1));
    TwiceRun(run, Pow2(k), Pow2(k + 1), t - t % Pow2(k + 1));
    ShiftIs(t - t % Pow2(k + 1), k, 2 * run);
    assert Twiddle(s, MaskPsi(s.block, k), k, t) == s.twiddles[2 * run] by {
      TwiddleIs(s, MaskPsi(s.block, k), k, t);
    }
  }

  lemma PowTwice(n: nat)
    ensures Pow2(n + 1) == 2 * Pow2(n)
  {
  }

  lemma WrapSmallRun(t: nat, p: nat)
    requires t < p
    ensures t % p == t
  {
    ModUnique(t, p, 0, t);
  }

  /** A number that is `run` times twice p is 2*run times p. */
  lemma TwiceRun(run: nat, p: nat, twice: nat, x: nat)
    requires p > 0 && twice == 2 * p && x == run * twice
    ensures x == (2 * run) * p && 2 * run <= x
  {
    Doubled(run, p);
    Shrinks(2 * run, p);
  }

  lemma Whole(t: nat, d: nat)
    requires d > 0
    ensures t == t / d * d + t % d
  {
  }

  lemma Shrinks(x: nat, p: nat)
    requires p > 0
    ensures x <= x * p
  {
  }

  lemma TwiddleIs(s: Setup, mask: nat, shift: nat, t: nat)
    requires s.Valid() && t < s.block
    ensures ShiftRight(And(t, mask), shift) < |s.twiddles| && |s.twiddles| == s.block
    ensures Twiddle(s, mask, shift, t) == s.twiddles[ShiftRight(And(t, mask), shift)]
  {
    hide And, ShiftRight;
  }

  lemma {:induction false} ShiftIs(x: nat, k: nat, q: nat)
    requires x == q * Pow2(k)
    ensures ShiftRight(x, k) == q
  {
    if k > 0 {
      assert x == 2 * (q * Pow2(k - 1));
      ShiftIs(x / 2, k - 1, q);
    }
  }

  /** The array after the stages 4, ..., k. */
  function After(s: Setup, original: seq<int>, k: nat): (e: seq<int>)
    requires s.Valid() && |original| == 2 * s.block && k <= 5
    ensures |e| == |original|
    decreases 5 - k
  {
    if k == 5 then original else
      WidthOf(k);
      Stage(s, After(s, original, k + 1), Pow2(k), MaskPsi(s.block, k), k)
  }

  method InPlaceTail(s: Setup, original: seq<int>) returns (result: seq<int>)
    requires s.Valid() && |original| == 2 * s.block
    ensures result == After(s, original, 0)
  {
    hide Stage, MaskPsi, Or, After;
    var expected := new int[2 * s.block](i requires 0 <= i < |original| => original[i]);
    var mask := 2 * s.block - 32;
    StartTail(s, original);
    assert expected[..] == original;
    var m, shift := 16, 4;
    while m > 0
      invariant -1 <= shift <= 4 && m == (if shift >= 0 then Pow2(shift) else 0)
      invariant expected[..] == After(s, original, shift + 1)
      invariant shift >= 0 ==> mask == MaskPsi(s.block, shift)
      decreases m
    {
      NextStage(s, original, shift);
      InPlaceStage(s, expected, shift, mask);
      m := m / 2;
      shift := shift - 1;
      mask := Or(mask, mask / 2);
    }
    return expected[..];
  }

  lemma StartTail(s: Setup, original: seq<int>)
    requires s.Valid() && |original| == 2 * s.block
    ensures After(s, original, 5) == original && MaskPsi(s.block, 4) == 2 * s.block - 32 && Pow2(4) == 16
  {
    assert Pow2(1) == 2 && Pow2(2) == 4 && Pow2(3) == 8;
  }

  lemma NextStage(s: Setup, original: seq<int>, k: nat)
    requires s.Valid() && |original| == 2 * s.block && k <= 4
    ensures Width(Pow2(k)) && After(s, original, k) == Stage(s, After(s, original, k + 1), Pow2(k), MaskPsi(s.block, k), k)
    ensures k > 0 ==> MaskPsi(s.block, k - 1) == Or(MaskPsi(s.block, k), MaskPsi(s.block, k) / 2) && Pow2(k) / 2 == Pow2(k - 1)
    ensures k == 0 ==> Pow2(k) / 2 == 0
  {
    WidthOf(k);
  }

  method ExchangeTail(s: Setup, original: seq<int>) returns (result: seq<int>)
    requires s.Valid() && |original| == 2 * s.block
    ensures result == After(s, original, 0)
  {
    hide Stage, MaskPsi, Or, After, Holds;
    StartPositions(s);
    var lo := new int[s.block](t requires 0 <= t < s.block => original[Position(t)]);
    var hi := new int[s.block](t requires 0 <= t < s.block => original[Position(t) + 32]);
    StartHolds(s, original, lo[..], hi[..]);
    var mask := 2 * s.block - 32;
    StartTail(s, original);
    var m, shift := 16, 4;
    while m > 0
      invariant -1 <= shift <= 4 && m == (if shift >= 0 then Pow2(shift) else 0)
      invariant Holds(s, lo[..], hi[..], After(s, original, shift + 1), if shift >= 0 then 2 * Pow2(shift) else 1)
      invariant shift >= 0 ==> mask == MaskPsi(s.block, shift)
      decreases m
    {
      NextStage(s, original, shift);
      ExchangeStage(s, lo, hi, shift, mask, After(s, original, shift + 1));
      DoubledWidth(shift);
      m := m / 2;
      shift := shift - 1;
      mask := Or(mask, mask / 2);
    }
    Interleaves(s, lo[..], hi[..], After(s, original, 0));
    result := seq(2 * s.block, i requires 0 <= i < 2 * s.block reads lo, hi => if i % 2 == 0 then lo[i / 2] else hi[i / 2]);
  }

  lemma DoubledWidth(k: nat)
    ensures k > 0 ==> 2 * Pow2(k - 1) == Pow2(k)
    ensures k == 0 ==> Pow2(k) == 1
  {
  }

  /** ((tid & ~31) << 1) + (tid & 31) */
  function Position(t: nat): nat {
    2 * AndNot(t, 31) + And(t, 31)
  }

  lemma PositionIs(t: nat)
    ensures Position(t) == Low(t, 32)
  {
    assert Pow2(1) == 2 && Pow2(2) == 4 && Pow2(3) == 8 && Pow2(4) == 16 && Pow2(5) == 32;
    AndLowMask(t, 5);
  }

  lemma StartPositions(s: Setup)
    requires s.Valid()
    ensures forall t: nat :: t < s.block ==> Position(t) == Low(t, 32) && Position(t) + 32 < 2 * s.block
  {
    forall t: nat | t < s.block
      ensures Position(t) == Low(t, 32) && Position(t) + 32 < 2 * s.block
    {
      PositionIs(t);
    }
  }

  lemma StartHolds(s: Setup, original: seq<int>, lo: seq<int>, hi: seq<int>)
    requires s.Valid() && |original| == 2 * s.block && |lo| == |hi| == s.block
    requires forall t: nat :: t < s.block ==> Position(t) + 32 < 2 * s.block && lo[t] == original[Position(t)] && hi[t] == original[Position(t) + 32]
    ensures Holds(s, lo, hi, original, 2 * 16)
  {
    forall t: nat | t < s.block
      ensures Low(t, 32) + 32 < |original| && lo[t] == original[Low(t, 32)] && hi[t] == original[Low(t, 32) + 32]
    {
      PositionIs(t);
    }
  }

  lemma Interleaves(s: Setup, lo: seq<int>, hi: seq<int>, e: seq<int>)
    requires Holds(s, lo, hi, e, 1)
    ensures |e| == 2 * s.block && |lo| == |hi| == s.block
    ensures forall i :: 0 <= i < |e| ==> e[i] == if i % 2 == 0 then lo[i / 2] else hi[i / 2]
  {
    forall i: nat | i < |e|
      ensures e[i] == if i % 2 == 0 then lo[i / 2] else hi[i / 2]
    {
      var t := i / 2;
      assert Low(t, 1) == 2 * t;
      assert lo[t] == e[Low(t, 1)] && hi[t] == e[Low(t, 1) + 1];
    }
  }

  /** For every block size divisible by 32 and all data the two tails compute the same array. */
  method Check(s: Setup, original: seq<int>) returns (expected: seq<int>, actual: seq<int>)
    requires s.Valid() && |original| == 2 * s.block
    ensures expected == actual
  {
    hide *;
    expected := InPlaceTail(s, original);
    actual := ExchangeTail(s, original);
  }

  // ----- lazy butterfly

  const WORD := 0x1_0000_0000_0000_0000

  /** The redundant-residue butterfly: (sum, difference). */
  function LazyButterfly(p: int, a: int, b: int, w: int): (int, int)
    requires p > 0
  {
    var a0 := if a >= 2 * p then a - 2 * p else a;
    var quotient := b * (w * WORD / p) / WORD;
    var t := (b * w - quotient * p) % WORD;
    (a0 + t, a0 + 2 * p - t)
  }

  /** The lazily reduced product stays below 2p, so its word truncation changes nothing. */
  lemma LazyProduct(p: int, b: int, w: int, W: int)
    requires 0 < p && 4 * p <= W && 0 <= b < 4 * p && 0 <= w
    ensures 0 <= b * w - b * (w * W / p) / W * p < 2 * p
  {
    var s, r := w * W / p, w * W % p;
    assert w * W == s * p + r;
    var n := b * s;
    var quotient, rest := n / W, n % W;
    assert n == quotient * W + rest;
    var t := b * w - quotient * p;
    ScaledRemainder(p, b, w, W, s, r, quotient, rest);
    ScaledBounds(p, b, W, r, rest);
    if t < 0 {
      MulMonotone(t, -1, W);
      assert false;
    }
    if t >= 2 * p {
      MulMonotone(2 * p, t, W);
      assert false;
    }
  }

  lemma ScaledRemainder(p: int, b: int, w: int, W: int, s: int, r: int, quotient: int, rest: int)
    requires w * W == s * p + r && b * s == quotient * W + rest
    ensures (b * w - quotient * p) * W == b * r + rest * p
  {
    calc {
      (b * w - quotient * p) * W;
      b * (w * W) - (quotient * W) * p;
      b * (s * p + r) - (b * s - rest) * p;
      b * r + rest * p;
    }
  }

  lemma ScaledBounds(p: int, b: int, W: int, r: int, rest: int)
    requires 0 < p && 4 * p <= W && 0 <= b < 4 * p && 0 <= r < p && 0 <= rest < W
    ensures 0 <= b * r + rest * p < 2 * p * W
  {
    MulMonotone(b, W - 1, r);
    MulMonotone(r, p, W);
    MulMonotone(rest, W - 1, p);
    MulMonotone(0, b, r);
    MulMonotone(0, rest, p);
    assert (W - 1) * r <= W * r && (W - 1) * p == W * p - p;
    assert W * r == r * W && p * W == W * p && 2 * p * W == p * W + p * W;
  }

  /** For every modulus with 4p inside a word and all inputs below 4p: results stay below 4p and are congruent to a + bw and a - bw. */
  lemma LazyButterflyCorrect(p: int, a: int, b: int, w: int)
    requires 0 < p && 4 * p <= WORD && 0 <= a < 4 * p && 0 <= b < 4 * p && 0 <= w < p
    ensures var (c, d) := LazyButterfly(p, a, b, w);
            0 <= c < 4 * p && 0 <= d < 4 * p && c % p == (a + b * w) % p && d % p == (a - b * w) % p
  {
    var a0 := if a >= 2 * p then a - 2 * p else a;
    var quotient := b * (w * WORD / p) / WORD;
    var t := b * w - quotient * p;
    LazyProduct(p, b, w, WORD);
    ModSmallWord(t);
    var turns := if a >= 2 * p then 2 else 0;
    assert (-quotient - turns) * p == -(quotient * p) - turns * p;
    assert (quotient + 2 - turns) * p == quotient * p + 2 * p - turns * p;
    ModTurn(a + b * w, -quotient - turns, p);
    ModTurn(a - b * w, quotient + 2 - turns, p);
  }

  lemma ModSmallWord(t: int)
    requires 0 <= t < WORD
    ensures t % WORD == t
  {
  }
}
