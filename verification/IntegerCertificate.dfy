/** src/fhemamba/polynomial_certificate.py:114-203: the certifier over shared integer denominators. */
module IntegerCertificate {
  import opened Wrappers
  import opened Sums
  import opened Chebyshev
  import opened Bernstein
  import opened PolynomialCertificate

  // ----- exact rationals and common denominators

  datatype Rational = Rational(num: int, den: int)

  /** A reduced or unreduced fraction with a positive denominator, such as the exact value of a float. */
  type Fraction = q: Rational | q.den > 0 witness Rational(0, 1)

  function Value(q: Fraction): real {
    q.num as real / q.den as real
  }

  function Values(c: seq<Fraction>): seq<real> {
    seq(|c|, i requires 0 <= i < |c| => Value(c[i]))
  }

  function Gcd(a: nat, b: nat): (g: nat)
    requires a > 0 || b > 0
    ensures g > 0
    decreases b
  {
    if b == 0 then a else Gcd(b, a % b)
  }

  /** The greatest common divisor divides both arguments. */
  lemma {:induction false} GcdDivides(a: nat, b: nat) returns (x: nat, y: nat)
    requires a > 0 || b > 0
    ensures a == Gcd(a, b) * x && b == Gcd(a, b) * y
    decreases b
  {
    if b == 0 {
      x, y := 1, 0;
    } else {
      var g := Gcd(b, a % b);
      var p, q := GcdDivides(b, a % b);
      x, y := a / b * p + q, p;
      EuclidStep(a, b, g, p, q);
    }
  }

  lemma EuclidStep(a: nat, b: nat, g: nat, p: nat, q: nat)
    requires b > 0 && b == g * p && a % b == g * q
    ensures a == g * (a / b * p + q)
  {
    calc {
      a;
      a / b * b + a % b;
      a / b * (g * p) + g * q;
      g * (a / b * p + q);
    }
  }

  function Lcm(a: nat, b: nat): nat
    requires a > 0 && b > 0
  {
    a / Gcd(a, b) * b
  }

  predicate Divides(d: int, n: int)
    requires d > 0
  {
    n / d * d == n
  }

  lemma DividesFrom(d: int, n: int, q: int)
    requires d > 0 && n == d * q
    ensures Divides(d, n) && n / d == q
  {
    DivideExact(d, n, q);
  }

  lemma DivideExact(d: int, n: int, q: int)
    requires d > 0 && n == d * q
    ensures n / d == q
  {
    var r := n / d - q;
    assert n % d == d * q - n / d * d;
    assert n % d == -(d * r);
    if r > 0 {
      MulAtLeast(d, r);
    } else if r < 0 {
      MulAtLeast(d, -r);
    }
  }

  lemma MulAtLeast(d: int, r: int)
    requires d > 0 && r >= 1
    ensures d * r >= d && d * (-r) == -(d * r)
  {
  }

  lemma LcmDivides(a: nat, b: nat)
    requires a > 0 && b > 0
    ensures Lcm(a, b) > 0 && Divides(a, Lcm(a, b)) && Divides(b, Lcm(a, b))
  {
    var g := Gcd(a, b);
    var x, y := GcdDivides(a, b);
    DivideExact(g, a, x);
    LcmFactors(a, b, g, x, y);
    DividesFrom(a, Lcm(a, b), y);
    DividesFrom(b, Lcm(a, b), x);
  }

  lemma LcmFactors(a: nat, b: nat, g: nat, x: nat, y: nat)
    requires a > 0 && b > 0 && a == g * x && b == g * y
    ensures x * b == a * y && x * b == b * x && x * b > 0
  {
    assert x > 0;
    assert x * (g * y) == (g * x) * y;
  }

  lemma DividesTransitive(d: int, m: int, n: int)
    requires d > 0 && m > 0 && Divides(d, m) && Divides(m, n)
    ensures Divides(d, n)
  {
    var p, q := m / d, n / m;
    assert n == d * (q * p) by {
      assert n == q * (p * d);
    }
    DividesFrom(d, n, q * p);
  }

  /** The least common multiple of a list, one element at a time. */
  function LcmAll(s: seq<nat>): (l: nat)
    requires forall i :: 0 <= i < |s| ==> s[i] > 0
    ensures l > 0
  {
    if |s| == 0 then 1 else
      var rest := LcmAll(s[..|s| - 1]);
      LcmDivides(rest, s[|s| - 1]);
      Lcm(rest, s[|s| - 1])
  }

  lemma {:induction false} LcmAllDivides(s: seq<nat>, i: nat)
    requires forall i :: 0 <= i < |s| ==> s[i] > 0
    requires i < |s|
    ensures Divides(s[i], LcmAll(s))
  {
    var n := |s| - 1;
    LcmDivides(LcmAll(s[..n]), s[n]);
    if i < n {
      LcmAllDivides(s[..n], i);
      DividesTransitive(s[i], LcmAll(s[..n]), LcmAll(s));
    }
  }

  // ----- integer lists standing for scaled real lists

  /** values[i] == divisor * c[i] */
  ghost predicate Represents(values: seq<int>, divisor: int, c: seq<real>) {
    |values| == |c| && forall i :: 0 <= i < |c| ==> values[i] as real == Times(divisor as real, c[i])
  }

  /** values[at + i] += s * row[i], over integers. */
  method AddScaledRow(values: seq<int>, at: nat, s: int, row: seq<int>, ghost divisor: int, ghost c: seq<real>, ghost factor: real,
                      ghost r: seq<real>)
    returns (sum: seq<int>)
    requires Represents(values, divisor, c) && Represents(row, 1, r) && s as real == Times(divisor as real, factor)
    requires at + |row| <= |values|
    ensures Represents(sum, divisor, AddAt(c, at, factor, r))
  {
    hide *;
    sum := values;
    RowStart(values, at, s, row, divisor, c, factor, r);
    for i := 0 to |row|
      invariant |sum| == |values| && |c| == |values| && |r| == |row|
      invariant Represents(sum, divisor, AddAt(c, at, factor, r[..i]))
    {
      RowStep(sum, at, s, row, divisor, c, factor, r, i);
      sum := sum[at + i := sum[at + i] + s * row[i]];
    }
    assert r[..|r|] == r;
  }

  lemma RowStart(values: seq<int>, at: nat, s: int, row: seq<int>, divisor: int, c: seq<real>, factor: real, r: seq<real>)
    requires Represents(values, divisor, c) && Represents(row, 1, r) && at + |row| <= |values|
    ensures |c| == |values| && |r| == |row|
    ensures Represents(values, divisor, AddAt(c, at, factor, r[..0]))
  {
    assert AddAt(c, at, factor, r[..0]) == c;
  }

  lemma RowStep(sum: seq<int>, at: nat, s: int, row: seq<int>, divisor: int, c: seq<real>, factor: real, r: seq<real>, i: nat)
    requires i < |row| == |r| && at + |row| <= |c|
    requires Represents(row, 1, r) && s as real == Times(divisor as real, factor)
    requires Represents(sum, divisor, AddAt(c, at, factor, r[..i]))
    ensures at + i < |sum| == |c|
    ensures Represents(sum[at + i := sum[at + i] + s * row[i]], divisor, AddAt(c, at, factor, r[..i + 1]))
  {
    hide Axpy, Times, AddAt;
    AddAtGrows(c, at, factor, r, i);
    var part := AddAt(c, at, factor, r[..i]);
    ScaledAxpy(divisor, sum[at + i], part[at + i], s, factor, row[i], r[i]);
  }

  lemma ScaledAxpy(divisor: int, v: int, x: real, s: int, factor: real, w: int, y: real)
    requires v as real == Times(divisor as real, x) && s as real == Times(divisor as real, factor) && w as real == Times(1 as real, y)
    ensures (v + s * w) as real == Times(divisor as real, Axpy(x, factor, y))
  {
    assert (s * w) as real == s as real * w as real;
    assert divisor as real * (x + factor * y) == divisor as real * x + divisor as real * factor * y;
  }

  // ----- Chebyshev to powers, over integers

  /** following = (4t - 2) * current - previous */
  method FollowingRow(previous: seq<int>, current: seq<int>, ghost k: nat) returns (following: seq<int>)
    requires k >= 1 && Represents(previous, 1, ChebyshevRow(k - 1)) && Represents(current, 1, ChebyshevRow(k))
    ensures Represents(following, 1, ChebyshevRow(k + 1))
  {
    hide *;
    ghost var row := ChebyshevRow(k);
    ghost var two := [-2.0, 4.0];
    RepresentsLength(current, 1, row);
    RepresentsLength(previous, 1, ChebyshevRow(k - 1));
    ProductStart(row);
    following := seq(|current| + 1, i => 0);
    for i := 0 to |current|
      invariant |following| == |current| + 1 == |row| + 1
      invariant Represents(following, 1, ProductUpTo(row, two, i))
    {
      ProductStep(following, current, row, i);
      following := following[i := following[i] - 2 * current[i]];
      following := following[i + 1 := following[i + 1] + 4 * current[i]];
    }
    ChebyshevRowStep(k + 1);
    ProductWhole(row);
    MinusOne();
    following := AddScaledRow(following, 0, -1, previous, 1, Product(row, two), -1.0, ChebyshevRow(k - 1));
  }

  lemma MinusOne()
    ensures (-1) as real == Times(1 as real, -1.0)
  {
  }

  lemma RepresentsLength(values: seq<int>, divisor: int, c: seq<real>)
    requires Represents(values, divisor, c)
    ensures |values| == |c|
  {
  }

  lemma ProductStart(row: seq<real>)
    requires |row| > 0
    ensures Represents(seq(|row| + 1, i => 0), 1, ProductUpTo(row, [-2.0, 4.0], 0))
  {
  }

  lemma ProductWhole(row: seq<real>)
    requires |row| > 0
    ensures Product(row, [-2.0, 4.0]) == ProductUpTo(row, [-2.0, 4.0], |row|)
  {
  }

  lemma ProductStep(following: seq<int>, current: seq<int>, row: seq<real>, i: nat)
    requires i < |current| == |row| && |following| == |row| + 1
    requires Represents(current, 1, row) && Represents(following, 1, ProductUpTo(row, [-2.0, 4.0], i))
    ensures var once := following[i := following[i] - 2 * current[i]];
            Represents(once[i + 1 := once[i + 1] + 4 * current[i]], 1, ProductUpTo(row, [-2.0, 4.0], i + 1))
  {
    var before := ProductUpTo(row, [-2.0, 4.0], i);
    assert ProductUpTo(row, [-2.0, 4.0], i + 1) == AddAt(before, i, row[i], [-2.0, 4.0]);
    hide ProductUpTo;
    assert forall j :: 0 <= j < |before| ==> following[j] as real == before[j];
    assert current[i] as real == row[i];
    assert Axpy(before[i], row[i], -2.0) == before[i] - 2.0 * row[i];
    assert Axpy(before[i + 1], row[i], 4.0) == before[i + 1] + 4.0 * row[i];
  }

  method IntegerUnitPower(scaled: seq<int>, ghost denominator: int, ghost c: seq<real>) returns (power: seq<int>)
    requires |c| > 0 && Represents(scaled, denominator, c)
    ensures Represents(power, denominator, UnitPower(c))
  {
    hide *;
    RepresentsLength(scaled, denominator, c);
    FirstRow(scaled, denominator, c);
    UnitPowerStep(c, 0);
    power := seq(|scaled|, i => 0)[0 := scaled[0]];
    var previous, current := [1], [-1, 2];
    for degree := 1 to |scaled|
      invariant Represents(previous, 1, ChebyshevRow(degree - 1)) && Represents(current, 1, ChebyshevRow(degree))
      invariant Represents(power, denominator, UnitPowerUpTo(c, degree - 1))
    {
      RepresentsLength(current, 1, ChebyshevRow(degree));
      RepresentsLength(power, denominator, UnitPowerUpTo(c, degree - 1));
      RepresentsAt(scaled, denominator, c, degree);
      UnitPowerStep(c, degree);
      power := AddScaledRow(power, 0, scaled[degree], current, denominator, UnitPowerUpTo(c, degree - 1), c[degree], ChebyshevRow(degree));
      var following := FollowingRow(previous, current, degree);
      previous, current := current, following;
    }
  }

  lemma RepresentsAt(values: seq<int>, divisor: int, c: seq<real>, i: nat)
    requires Represents(values, divisor, c) && i < |c|
    ensures i < |values| && values[i] as real == Times(divisor as real, c[i])
  {
  }

  lemma FirstRow(scaled: seq<int>, denominator: int, c: seq<real>)
    requires |c| > 0 && Represents(scaled, denominator, c)
    ensures Represents(seq(|scaled|, i => 0)[0 := scaled[0]], denominator, UnitPowerUpTo(c, 0))
    ensures Represents([1], 1, ChebyshevRow(0)) && Represents([-1, 2], 1, ChebyshevRow(1))
  {
    assert Times(denominator as real, 0.0) == 0.0;
  }

  // ----- powers to Bernstein form, over integers

  function ISum(n: nat, f: nat -> int): int {
    if n == 0 then 0 else ISum(n - 1, f) + f(n - 1)
  }

  function IntegerTerm(weighted: seq<int>, i: nat): nat -> int {
    (k: nat) => if k < |weighted| then weighted[k] * Comb(i, k) else 0
  }

  function Divisors(degree: nat): (d: seq<nat>)
    ensures |d| == degree + 1 && forall k :: 0 <= k <= degree ==> d[k] > 0
  {
    var d := seq(degree + 1, k requires 0 <= k <= degree => Comb(degree, k));
    assert forall k :: 0 <= k <= degree ==> d[k] > 0 by {
      forall k: nat | k <= degree
        ensures d[k] > 0
      {
        CombSupport(degree, k);
      }
    }
    d
  }

  function IntegerBernstein(power: seq<int>): seq<int>
    requires |power| > 0
  {
    var divisors := Divisors(|power| - 1);
    var common := LcmAll(divisors);
    var weighted := seq(|power|, k requires 0 <= k < |power| => power[k] * (common / divisors[k]));
    seq(|power|, i requires 0 <= i < |power| => ISum(i + 1, IntegerTerm(weighted, i)))
  }

  lemma IntegerBernsteinRepresents(power: seq<int>, denominator: int, p: seq<real>)
    requires |p| > 0 && Represents(power, denominator, p)
    ensures Represents(IntegerBernstein(power), denominator * LcmAll(Divisors(|power| - 1)), PowerToBernstein(p))
  {
    var divisors := Divisors(|p| - 1);
    var common := LcmAll(divisors);
    var weighted := seq(|power|, k requires 0 <= k < |power| => power[k] * (common / divisors[k]));
    forall i: nat | i < |p|
      ensures ISum(i + 1, IntegerTerm(weighted, i)) as real == Times((denominator * common) as real, Sum(i + 1, Term(p, i)))
    {
      SumScales(power, denominator, p, weighted, i);
    }
  }

  lemma SumScales(power: seq<int>, denominator: int, p: seq<real>, weighted: seq<int>, i: nat)
    requires i < |p| == |weighted| && Represents(power, denominator, p)
    requires forall k :: 0 <= k < |p| ==> weighted[k] == power[k] * (LcmAll(Divisors(|p| - 1)) / Divisors(|p| - 1)[k])
    ensures ISum(i + 1, IntegerTerm(weighted, i)) as real
         == Times((denominator * LcmAll(Divisors(|p| - 1))) as real, Sum(i + 1, Term(p, i)))
  {
    hide *;
    var divisors, common := Divisors(|p| - 1), LcmAll(Divisors(|p| - 1));
    RepresentsLength(power, denominator, p);
    forall k: nat | k < i + 1
      ensures IntegerTerm(weighted, i)(k) as real == Times((denominator * common) as real, Term(p, i)(k))
    {
      RepresentsAt(power, denominator, p, k);
      TermMeans(p, weighted, i, k);
      LcmAllDivides(divisors, k);
      TermScales(power[k], weighted[k], denominator, p[k], common, divisors[k], Comb(i, k), Term(p, i)(k), IntegerTerm(weighted, i)(k));
    }
    ISumScales(i + 1, IntegerTerm(weighted, i), denominator * common, Term(p, i));
  }

  lemma TermMeans(p: seq<real>, weighted: seq<int>, i: nat, k: nat)
    requires k < |p| == |weighted|
    ensures k < |Divisors(|p| - 1)|
    ensures Term(p, i)(k) == p[k] * (Comb(i, k) as real / Divisors(|p| - 1)[k] as real)
    ensures IntegerTerm(weighted, i)(k) == weighted[k] * Comb(i, k)
  {
    hide Comb;
    CombSupport(|p| - 1, k);
  }

  lemma TermScales(v: int, w: int, denominator: int, x: real, common: nat, d: nat, n: nat, term: real, scaled: int)
    requires v as real == Times(denominator as real, x) && d > 0 && Divides(d, common) && w == v * (common / d)
    requires term == x * (n as real / d as real) && scaled == w * n
    ensures scaled as real == Times((denominator * common) as real, term)
  {
    var q := common / d;
    assert common == q * d;
    calc {
      Times((denominator * common) as real, term);
      { ProductReal(denominator, common); ProductReal(q, d); }
      (denominator as real * (q as real * d as real)) * (x * (n as real / d as real));
      { Regather(denominator as real, q as real, d as real, x, n as real); }
      (denominator as real * x) * q as real * n as real;
      { ProductReal(v, q); ProductReal(v * q, n); }
      scaled as real;
    }
  }

  lemma ProductReal(a: int, b: int)
    ensures (a * b) as real == a as real * b as real
  {
  }

  lemma Regather(e: real, q: real, d: real, x: real, n: real)
    requires d != 0.0
    ensures (e * (q * d)) * (x * (n / d)) == (e * x) * q * n
  {
    var r := n / d;
    assert r * d == n;
    calc {
      (e * (q * d)) * (x * r);
      (e * x) * q * (r * d);
    }
  }

  lemma {:induction false} ISumScales(n: nat, f: nat -> int, divisor: int, g: nat -> real)
    requires forall k: nat :: k < n ==> f(k) as real == Times(divisor as real, g(k))
    ensures ISum(n, f) as real == Times(divisor as real, Sum(n, g))
  {
    if n > 0 {
      ISumScales(n - 1, f, divisor, g);
      Distribute(divisor as real, Sum(n - 1, g), g(n - 1));
    }
  }

  // ----- subdivision, over integers

  function PairSums(row: seq<int>): seq<int>
    requires |row| > 0
  {
    seq(|row| - 1, i requires 0 <= i < |row| - 1 => row[i] + row[i + 1])
  }

  function LeftRow(row: seq<int>): seq<int>
    requires |row| > 0
    decreases |row|
  {
    if |row| == 1 then row else [row[0] * Pow2(|row| - 1)] + LeftRow(PairSums(row))
  }

  function RightRow(row: seq<int>): seq<int>
    requires |row| > 0
    decreases |row|
  {
    if |row| == 1 then row else RightRow(PairSums(row)) + [row[|row| - 1] * Pow2(|row| - 1)]
  }

  method SubdivideScaled(values: seq<int>) returns (left: seq<int>, right: seq<int>)
    requires |values| > 0
    ensures left == LeftRow(values) && right == RightRow(values)
  {
    hide *;
    var degree := |values| - 1;
    var row := values;
    left, right := [row[0] * Pow2(degree)], [row[|row| - 1] * Pow2(degree)];
    BackwardsNone(right[..0]);
    for step := 1 to degree + 1
      invariant |row| == degree - step + 2 && |left| > 0 && |right| > 0
      invariant left[|left| - 1] == row[0] * Pow2(|row| - 1) && right[|right| - 1] == row[|row| - 1] * Pow2(|row| - 1)
      invariant LeftRow(values) == left[..|left| - 1] + LeftRow(row)
      invariant RightRow(values) == RightRow(row) + Backwards(right[..|right| - 1])
    {
      RowDone(left, right, row);
      row := PairSums(row);
      assert (left + [row[0] * Pow2(degree - step)])[..|left|] == left;
      assert (right + [row[|row| - 1] * Pow2(degree - step)])[..|right|] == right;
      left := left + [row[0] * Pow2(degree - step)];
      right := right + [row[|row| - 1] * Pow2(degree - step)];
    }
    LastRow(left, right, row);
    right := Backwards(right);
  }

  function Backwards(s: seq<int>): seq<int> {
    seq(|s|, i requires 0 <= i < |s| => s[|s| - 1 - i])
  }

  lemma BackwardsNone(s: seq<int>)
    requires s == []
    ensures Backwards(s) == []
  {
  }

  lemma BackwardsLast(s: seq<int>)
    requires |s| > 0
    ensures Backwards(s) == [s[|s| - 1]] + Backwards(s[..|s| - 1])
  {
  }

  lemma RowDone(left: seq<int>, right: seq<int>, row: seq<int>)
    requires |row| > 1 && |left| > 0 && |right| > 0
    requires left[|left| - 1] == row[0] * Pow2(|row| - 1) && right[|right| - 1] == row[|row| - 1] * Pow2(|row| - 1)
    ensures |PairSums(row)| == |row| - 1
    ensures left[..|left| - 1] + LeftRow(row) == left + LeftRow(PairSums(row))
    ensures RightRow(row) + Backwards(right[..|right| - 1]) == RightRow(PairSums(row)) + Backwards(right)
  {
    hide Pow2, PairSums, Backwards;
    PairSumsLength(row);
    BackwardsLast(right);
    var low, high := LeftRow(PairSums(row)), RightRow(PairSums(row));
    var first, last, l, r := [left[|left| - 1]], [right[|right| - 1]], left[..|left| - 1], Backwards(right[..|right| - 1]);
    assert left == l + first && LeftRow(row) == first + low && RightRow(row) == high + last;
    assert l + (first + low) == (l + first) + low;
    assert (high + last) + r == high + (last + r);
  }

  lemma PairSumsLength(row: seq<int>)
    requires |row| > 1
    ensures |PairSums(row)| == |row| - 1
  {
  }

  lemma LastRow(left: seq<int>, right: seq<int>, row: seq<int>)
    requires |row| == 1 && |left| > 0 && |right| > 0
    requires left[|left| - 1] == row[0] * Pow2(0) && right[|right| - 1] == row[0] * Pow2(0)
    ensures left[..|left| - 1] + LeftRow(row) == left
    ensures RightRow(row) + Backwards(right[..|right| - 1]) == Backwards(right)
  {
    BackwardsLast(right);
    assert row == [row[0]];
  }

  /** Each scaled row is the rational de Casteljau row over a doubled divisor. */
  lemma {:induction false} RowsRepresent(row: seq<int>, divisor: int, c: seq<real>)
    requires |c| > 0 && Represents(row, divisor, c)
    ensures Represents(LeftRow(row), divisor * Pow2(|row| - 1), Left(c))
    ensures Represents(RightRow(row), divisor * Pow2(|row| - 1), Right(c))
    decreases |row|
  {
    hide Represents, Times, Midpoints, PairSums, Pow2;
    RepresentsLength(row, divisor, c);
    DoubleShift(divisor, |row| - 1);
    if |row| > 1 {
      var n := |row| - 1;
      RepresentsAt(row, divisor, c, 0);
      RepresentsAt(row, divisor, c, n);
      PairsRepresent(row, divisor, c);
      PairSumsLength(row);
      MidpointsShrink(c);
      var low, high, d := LeftRow(PairSums(row)), RightRow(PairSums(row)), divisor * Pow2(n);
      RowsRepresent(PairSums(row), 2 * divisor, Midpoints(c));
      Lifted(row[0], divisor, c[0], Pow2(n));
      Lifted(row[n], divisor, c[n], Pow2(n));
      JoinRepresents(row[0] * Pow2(n), low, d, c[0], Left(Midpoints(c)));
      JoinRepresents(row[n] * Pow2(n), high, d, c[n], Right(Midpoints(c)));
    }
  }

  lemma DoubleShift(divisor: int, n: nat)
    ensures divisor * Pow2(0) == divisor
    ensures n > 0 ==> 2 * divisor * Pow2(n - 1) == divisor * Pow2(n)
  {
    if n > 0 {
      var p := Pow2(n - 1);
      assert divisor * (2 * p) == 2 * divisor * p;
    }
  }

  lemma JoinRepresents(v: int, values: seq<int>, divisor: int, x: real, c: seq<real>)
    requires Represents(values, divisor, c) && v as real == Times(divisor as real, x)
    ensures Represents([v] + values, divisor, [x] + c) && Represents(values + [v], divisor, c + [x])
  {
    hide Times;
  }

  lemma Lifted(v: int, divisor: int, x: real, p: int)
    requires v as real == Times(divisor as real, x)
    ensures (v * p) as real == Times((divisor * p) as real, x)
  {
    ProductReal(v, p);
    ProductReal(divisor, p);
    assert (divisor as real * x) * p as real == (divisor as real * p as real) * x;
  }

  lemma PairsRepresent(row: seq<int>, divisor: int, c: seq<real>)
    requires |c| > 1 && Represents(row, divisor, c)
    ensures Represents(PairSums(row), 2 * divisor, Midpoints(c))
  {
    hide Times;
    forall i | 0 <= i < |c| - 1
      ensures PairSums(row)[i] as real == Times((2 * divisor) as real, Midpoints(c)[i])
    {
      HalfSum(row[i], row[i + 1], divisor, c[i], c[i + 1]);
    }
  }

  lemma HalfSum(v: int, w: int, divisor: int, x: real, y: real)
    requires v as real == Times(divisor as real, x) && w as real == Times(divisor as real, y)
    ensures (v + w) as real == Times((2 * divisor) as real, (x + y) / 2.0)
  {
  }

  // ----- decisions

  predicate Inside(value: int, divisor: int, lower: Fraction, upper: Fraction) {
    lower.num * divisor <= value * lower.den && value * upper.den <= upper.num * divisor
  }

  /** Cross-multiplied comparison is comparison of the represented value. */
  lemma InsideMeans(value: int, divisor: int, x: real, lower: Fraction, upper: Fraction)
    requires divisor > 0 && value as real == Times(divisor as real, x)
    ensures Inside(value, divisor, lower, upper) <==> Within(x, Some(Value(lower)), Some(Value(upper)))
  {
    CrossCompare(lower.num, lower.den, value, divisor, x);
    CrossCompare(upper.num, upper.den, value, divisor, x);
  }

  lemma CrossCompare(n: int, d: int, value: int, divisor: int, x: real)
    requires d > 0 && divisor > 0 && value as real == Times(divisor as real, x)
    ensures n * divisor <= value * d <==> n as real / d as real <= x
    ensures value * d <= n * divisor <==> x <= n as real / d as real
  {
    var q := n as real / d as real;
    assert q * d as real == n as real;
    ProductReal(n, divisor);
    ProductReal(value, d);
    Rearranged(q, d as real, divisor as real, x);
    var scale := divisor as real * d as real;
    MulPositive(divisor as real, d as real);
    ScaleOrder(scale, q, x);
    ScaleOrder(scale, x, q);
  }

  lemma Rearranged(q: real, d: real, e: real, x: real)
    ensures (q * d) * e == (e * d) * q && (e * x) * d == (e * d) * x
  {
  }

  lemma ScaleOrder(s: real, a: real, b: real)
    requires s > 0.0
    ensures a <= b <==> s * a <= s * b
  {
    if a <= b {
      MulNonneg(s, b - a);
      Distribute(s, b, a);
    } else {
      MulPositive(s, a - b);
      Distribute(s, a, b);
    }
  }

  function MinInt(c: seq<int>): (m: int)
    requires |c| > 0
    ensures m in c && forall i :: 0 <= i < |c| ==> m <= c[i]
  {
    if |c| == 1 then c[0] else
      var m := MinInt(c[..|c| - 1]);
      if c[|c| - 1] < m then c[|c| - 1] else m
  }

  function MaxInt(c: seq<int>): (m: int)
    requires |c| > 0
    ensures m in c && forall i :: 0 <= i < |c| ==> c[i] <= m
  {
    if |c| == 1 then c[0] else
      var m := MaxInt(c[..|c| - 1]);
      if m < c[|c| - 1] then c[|c| - 1] else m
  }

  /** The hull test on integers is the hull test on the rationals they stand for. */
  lemma HullMeans(values: seq<int>, divisor: int, c: seq<real>, lower: Fraction, upper: Fraction)
    requires |c| > 0 && divisor > 0 && Represents(values, divisor, c)
    ensures (Inside(MinInt(values), divisor, lower, upper) && Inside(MaxInt(values), divisor, lower, upper))
       <==> HullInside(c, Some(Value(lower)), Some(Value(upper)))
  {
    hide Inside, Times;
    var low, high := Value(lower), Value(upper);
    hide Value;
    var i :| 0 <= i < |values| && values[i] == MinInt(values);
    var j :| 0 <= j < |values| && values[j] == MaxInt(values);
    RepresentsAt(values, divisor, c, i);
    RepresentsAt(values, divisor, c, j);
    InsideMeans(values[i], divisor, c[i], lower, upper);
    InsideMeans(values[j], divisor, c[j], lower, upper);
    forall k | 0 <= k < |c|
      ensures c[i] <= c[k] <= c[j]
    {
      RepresentsAt(values, divisor, c, k);
      assert MinInt(values) <= values[k] <= MaxInt(values);
      OrderKept(values[i], values[k], divisor, c[i], c[k]);
      OrderKept(values[k], values[j], divisor, c[k], c[j]);
    }
  }

  lemma OrderKept(v: int, w: int, divisor: int, x: real, y: real)
    requires v <= w && divisor > 0 && v as real == Times(divisor as real, x) && w as real == Times(divisor as real, y)
    ensures x <= y
  {
    ScaleOrder(divisor as real, x, y);
  }

  datatype ScaledSegment = ScaledSegment(values: seq<int>, divisor: int, depth: nat)

  ghost predicate SameStack(queue: seq<ScaledSegment>, stack: seq<Segment>) {
    |queue| == |stack| && forall i :: 0 <= i < |queue| ==> SameSegment(queue[i], stack[i])
  }

  ghost predicate SameSegment(top: ScaledSegment, segment: Segment) {
    top.divisor > 0 && top.depth == segment.depth && |segment.coefficients| > 0
    && Represents(top.values, top.divisor, segment.coefficients)
  }

  /** The integer work queue makes every decision of the rational one. */
  method ExploreScaled(start: ScaledSegment, lower: Fraction, upper: Fraction, maxDepth: nat, maxNodes: nat, ghost c: seq<real>)
    returns (r: Outcome)
    requires |c| > 0 && start.divisor > 0 && Represents(start.values, start.divisor, c)
    ensures r == Explore([Segment(c, start.depth)], Some(Value(lower)), Some(Value(upper)), maxDepth, maxNodes, 0, 0, 0)
  {
    hide Represents, Explore, HullInside, Within, Left, Right, Inside, Value, MinInt, MaxInt, LeftRow, RightRow, Pow2;
    ghost var low, high := Some(Value(lower)), Some(Value(upper));
    var queue := [start];
    ghost var stack := [Segment(c, start.depth)];
    ghost var decision := Explore(stack, low, high, maxDepth, maxNodes, 0, 0, 0);
    var nodes: nat, deepest: nat, leaves: nat := 0, 0, 0;
    while queue != []
      invariant SameStack(queue, stack) && Pending(stack) && nodes <= maxNodes
      invariant decision == Explore(stack, low, high, maxDepth, maxNodes, nodes, deepest, leaves)
      decreases maxNodes - nodes, |queue|
    {
      ExploreStep(stack, low, high, maxDepth, maxNodes, nodes, deepest, leaves);
      if nodes >= maxNodes {
        return NodeLimit(nodes);
      }
      var top := queue[|queue| - 1];
      ghost var segment := stack[|stack| - 1];
      SegmentMeans(top, segment, lower, upper);
      queue, stack := queue[..|queue| - 1], stack[..|stack| - 1];
      nodes := nodes + 1;
      deepest := if top.depth > deepest then top.depth else deepest;
      if Inside(MinInt(top.values), top.divisor, lower, upper) && Inside(MaxInt(top.values), top.divisor, lower, upper) {
        leaves := leaves + 1;
        continue;
      }
      if !Inside(top.values[0], top.divisor, lower, upper) || !Inside(top.values[|top.values| - 1], top.divisor, lower, upper) {
        return EndpointCounterexample(nodes, top.depth);
      }
      if top.depth >= maxDepth {
        return DepthLimit(nodes);
      }
      var left, right := SubdivideScaled(top.values);
      var divisor := top.divisor * Pow2(|top.values| - 1);
      queue := queue + [ScaledSegment(right, divisor, top.depth + 1), ScaledSegment(left, divisor, top.depth + 1)];
      stack := stack + Halves(segment);
    }
    ExploreStep(stack, low, high, maxDepth, maxNodes, nodes, deepest, leaves);
    return Certified(nodes, leaves, deepest);
  }

  lemma SegmentMeans(top: ScaledSegment, segment: Segment, lower: Fraction, upper: Fraction)
    requires top.divisor > 0 && |segment.coefficients| > 0 && Represents(top.values, top.divisor, segment.coefficients)
    ensures var low, high := Some(Value(lower)), Some(Value(upper));
            var c, n := segment.coefficients, |top.values| - 1;
            && |top.values| == |c|
            && ((Inside(MinInt(top.values), top.divisor, lower, upper) && Inside(MaxInt(top.values), top.divisor, lower, upper))
                <==> HullInside(c, low, high))
            && (Inside(top.values[0], top.divisor, lower, upper) <==> Within(c[0], low, high))
            && (Inside(top.values[n], top.divisor, lower, upper) <==> Within(c[n], low, high))
            && top.divisor * Pow2(n) > 0
            && Represents(LeftRow(top.values), top.divisor * Pow2(n), Left(c))
            && Represents(RightRow(top.values), top.divisor * Pow2(n), Right(c))
  {
    var c, n := segment.coefficients, |top.values| - 1;
    RepresentsLength(top.values, top.divisor, c);
    RepresentsAt(top.values, top.divisor, c, 0);
    RepresentsAt(top.values, top.divisor, c, n);
    hide *;
    HullMeans(top.values, top.divisor, c, lower, upper);
    InsideMeans(top.values[0], top.divisor, c[0], lower, upper);
    InsideMeans(top.values[n], top.divisor, c[n], lower, upper);
    RowsRepresent(top.values, top.divisor, c);
    PositiveInt(top.divisor, Pow2(n));
  }

  lemma PositiveInt(a: int, b: int)
    requires a > 0 && b > 0
    ensures a * b > 0
  {
  }

  /** The power list the rational certifier would be given. */
  ghost function ConvertedSeries(coefficients: seq<Fraction>): seq<real> {
    if coefficients == [] then [] else UnitPower(Values(coefficients))
  }

  method CertifyChebyshevBounds(coefficients: seq<Fraction>, lower: Fraction, upper: Fraction, maxDepth: int, maxNodes: int)
    returns (r: Outcome)
    ensures r == Decision(ConvertedSeries(coefficients), Some(Value(lower)), Some(Value(upper)), maxDepth, maxNodes)
    ensures r.Certified? ==> forall x :: -1.0 <= x <= 1.0 ==> Value(lower) <= Series(Values(coefficients), x) <= Value(upper)
  {
    hide *;
    SeriesBounded(coefficients, lower, upper, maxDepth, maxNodes);
    OrderedBounds(lower, upper);
    QueryShape(coefficients, lower, upper, maxDepth, maxNodes);
    if coefficients == [] || lower.num * upper.den > upper.num * lower.den || maxDepth < 0 || maxNodes < 1 {
      return ValueError;
    }
    var denominators := seq(|coefficients|, i requires 0 <= i < |coefficients| => coefficients[i].den);
    var denominator := LcmAll(denominators);
    var scaled := seq(|coefficients|, i requires 0 <= i < |coefficients| => coefficients[i].num * (denominator / coefficients[i].den));
    ScaledRepresents(coefficients);
    ghost var c := Values(coefficients);
    var power := IntegerUnitPower(scaled, denominator, c);
    RepresentsLength(power, denominator, UnitPower(c));
    IntegerBernsteinRepresents(power, denominator, UnitPower(c));
    var common := LcmAll(Divisors(|power| - 1));
    PositiveInt(denominator, common);
    r := ExploreScaled(ScaledSegment(IntegerBernstein(power), denominator * common, 0), lower, upper, maxDepth, maxNodes,
                       PowerToBernstein(UnitPower(c)));
  }

  lemma ScaledRepresents(coefficients: seq<Fraction>)
    requires coefficients != []
    ensures var denominators := seq(|coefficients|, i requires 0 <= i < |coefficients| => coefficients[i].den);
            var denominator := LcmAll(denominators);
            var scaled := seq(|coefficients|, i requires 0 <= i < |coefficients| => coefficients[i].num * (denominator / coefficients[i].den));
            |Values(coefficients)| == |coefficients| && Represents(scaled, denominator, Values(coefficients))
  {
    var denominators := seq(|coefficients|, i requires 0 <= i < |coefficients| => coefficients[i].den);
    var denominator := LcmAll(denominators);
    forall i | 0 <= i < |coefficients|
      ensures (coefficients[i].num * (denominator / coefficients[i].den)) as real == Times(denominator as real, Value(coefficients[i]))
    {
      LcmAllDivides(denominators, i);
      Cleared(coefficients[i], denominator);
    }
  }

  lemma Cleared(q: Fraction, denominator: int)
    requires Divides(q.den, denominator)
    ensures (q.num * (denominator / q.den)) as real == Times(denominator as real, Value(q))
  {
    var k := denominator / q.den;
    ProductReal(q.num, k);
    ProductReal(k, q.den);
    var v := Value(q);
    assert v * q.den as real == q.num as real;
    assert (v * q.den as real) * k as real == (k as real * q.den as real) * v;
  }

  lemma OrderedBounds(lower: Fraction, upper: Fraction)
    ensures lower.num * upper.den <= upper.num * lower.den <==> Value(lower) <= Value(upper)
  {
    assert Value(upper) * upper.den as real == upper.num as real;
    assert upper.num as real == Times(upper.den as real, Value(upper));
    CrossCompare(lower.num, lower.den, upper.num, upper.den, Value(upper));
  }

  lemma QueryShape(coefficients: seq<Fraction>, lower: Fraction, upper: Fraction, maxDepth: int, maxNodes: int)
    ensures var low, high := Some(Value(lower)), Some(Value(upper));
            var p := ConvertedSeries(coefficients);
            var valid := coefficients != [] && Value(lower) <= Value(upper) && maxDepth >= 0 && maxNodes >= 1;
            && (!valid ==> Decision(p, low, high, maxDepth, maxNodes).ValueError?)
            && (valid ==> |Values(coefficients)| == |coefficients|)
            && (valid ==> p == UnitPower(Values(coefficients)))
            && (valid ==> Decision(p, low, high, maxDepth, maxNodes)
                          == Explore([Segment(PowerToBernstein(p), 0)], low, high, maxDepth, maxNodes, 0, 0, 0))
  {
    hide Value, UnitPower;
    DecisionQueue(ConvertedSeries(coefficients), Some(Value(lower)), Some(Value(upper)), maxDepth, maxNodes);
  }

  /** A certificate on the converted series bounds the Chebyshev series on [-1,1]. */
  lemma SeriesBounded(coefficients: seq<Fraction>, lower: Fraction, upper: Fraction, maxDepth: int, maxNodes: int)
    ensures Decision(ConvertedSeries(coefficients), Some(Value(lower)), Some(Value(upper)), maxDepth, maxNodes).Certified? ==>
            (forall x :: -1.0 <= x <= 1.0 ==> Value(lower) <= Series(Values(coefficients), x) <= Value(upper))
  {
    hide Value, UnitPower, Poly, Series, Explore;
    var p := ConvertedSeries(coefficients);
    DecisionSound(p, Some(Value(lower)), Some(Value(upper)), maxDepth, maxNodes);
    if Decision(p, Some(Value(lower)), Some(Value(upper)), maxDepth, maxNodes).Certified? {
      forall x | -1.0 <= x <= 1.0
        ensures Value(lower) <= Series(Values(coefficients), x) <= Value(upper)
      {
        UnitPowerValue(Values(coefficients), (x + 1.0) / 2.0);
        assert Within(Poly(p, (x + 1.0) / 2.0), Some(Value(lower)), Some(Value(upper)));
        assert 2.0 * ((x + 1.0) / 2.0) - 1.0 == x;
      }
    }
  }
}
