/**
 * native/fideslib_stage0/include/stage1_joint_gates.hpp: vector Paterson-Stockmeyer evaluation over a shared Chebyshev basis,
 * and the level count of src/fhemamba/ckks_probes.py.
 */
module PatersonStockmeyer {
  import opened Wrappers
  import opened Sums
  import opened Chebyshev
  import opened SlotVectors

  /** One value per head. */
  type Row = seq<real>

  // ----- head-wise operations

  function Multiply(a: Row, b: Row): (r: Row)
    requires |a| == |b|
    ensures |r| == |a|
  {
    seq(|a|, h requires 0 <= h < |a| => Times(a[h], b[h]))
  }

  function Add(a: Row, b: Row): (r: Row)
    requires |a| == |b|
    ensures |r| == |a|
  {
    seq(|a|, h requires 0 <= h < |a| => a[h] + b[h])
  }

  function Subtract(a: Row, b: Row): (r: Row)
    requires |a| == |b|
    ensures |r| == |a|
  {
    seq(|a|, h requires 0 <= h < |a| => a[h] - b[h])
  }

  function AddScalar(a: Row, s: real): (r: Row) {
    seq(|a|, h requires 0 <= h < |a| => a[h] + s)
  }

  function Scale(a: Row, s: real): (r: Row) {
    seq(|a|, h requires 0 <= h < |a| => Times(s, a[h]))
  }

  // ----- specification

  /** T_n of every head's input. */
  function BasisRow(n: nat, input: Row): Row {
    seq(|input|, h requires 0 <= h < |input| => T(n, input[h]))
  }

  predicate Matrix(c: seq<Row>, heads: nat) {
    forall i :: 0 <= i < |c| ==> |c[i]| == heads
  }

  /** The coefficients of one head. */
  function Column(c: seq<Row>, h: nat): (r: seq<real>)
    requires forall i :: 0 <= i < |c| ==> h < |c[i]|
    ensures |r| == |c|
  {
    seq(|c|, i requires 0 <= i < |c| => c[i][h])
  }

  ghost predicate EvaluatesTo(r: Row, c: seq<Row>, input: Row) {
    && |r| == |input| && Matrix(c, |input|)
    && forall h :: 0 <= h < |input| ==> r[h] == Series(Column(c, h), input[h])
  }

  // ----- splitting a series at degree k

  /** c[k], 2*c[k+1], 2*c[k+2], ... */
  function Upper(c: seq<real>, k: nat): (r: seq<real>)
    requires k < |c|
  {
    seq(|c| - k, j requires 0 <= j < |c| - k => if j == 0 then c[k] else 2.0 * c[k + j])
  }

  /** The first k coefficients, less the reflection of what lies above k. */
  function Lower(c: seq<real>, k: nat): (r: seq<real>)
    requires k < |c|
  {
    seq(k, m requires 0 <= m < k => if 2 * k - m < |c| then c[m] - c[2 * k - m] else c[m])
  }

  /** T_{k+j} = 2*T_k*T_j - T_{k-j} lets a giant step factor out T_k. */
  lemma {:induction false} GiantStep(c: seq<real>, k: nat, x: real)
    requires 0 < k < |c| <= 2 * k
    ensures Series(c, x) == Axpy(Series(Lower(c, k), x), T(k, x), Series(Upper(c, k), x))
    decreases |c|
  {
    hide T, Axpy, Combine, Lower, Upper, Splits;
    var n := |c| - 1;
    LastTerm(c, Basis(x));
    if n == k {
      FirstSplit(c, k);
      Single(c[k], x);
      AxpyTurned(Series(c[..k], x), T(k, x), c[k]);
    } else {
      var j := n - k;
      GiantStep(c[..n], k, x);
      NextSplit(c, k);
      var low, up := Lower(c[..n], k), Upper(c[..n], k);
      LastTerm(up + [2.0 * c[n]], Basis(x));
      assert (up + [2.0 * c[n]])[..j] == up;
      CombineBump(low, k - j, -c[n], Basis(x));
      ProductSplits(k, j, x);
      GiantAlgebra(Series(low, x), Series(up, x), c[n], T(n, x), T(k, x), T(j, x), T(k - j, x));
    }
  }

  lemma FirstSplit(c: seq<real>, k: nat)
    requires 0 < k == |c| - 1
    ensures Lower(c, k) == c[..k] && Upper(c, k) == [c[k]]
  {
  }

  /** One more coefficient joins the upper part doubled and is reflected into the lower part. */
  lemma NextSplit(c: seq<real>, k: nat)
    requires 0 < k < |c| - 1 && |c| <= 2 * k
    ensures var n := |c| - 1;
            var low, up := Lower(c[..n], k), Upper(c[..n], k);
            |low| == k && |up| == n - k && Upper(c, k) == up + [2.0 * c[n]]
            && Lower(c, k) == low[2 * k - n := low[2 * k - n] + (-c[n])]
  {
    var n := |c| - 1;
    var low := Lower(c[..n], k);
    var changed := low[2 * k - n := low[2 * k - n] + (-c[n])];
    forall m | 0 <= m < k
      ensures Lower(c, k)[m] == changed[m]
    {
    }
  }

  lemma Single(c: real, x: real)
    ensures Series([c], x) == c
  {
    assert Combine([c][..0], Basis(x)) == 0.0;
    assert T(0, x) == 1.0;
  }

  lemma AxpyTurned(s: real, t: real, c: real)
    ensures Axpy(s, c, t) == Axpy(s, t, c)
  {
  }

  lemma GiantAlgebra(low: real, up: real, c: real, tn: real, tk: real, tj: real, td: real)
    requires Splits(tk, tj, tn, td)
    ensures Axpy(Axpy(low, tk, up), c, tn) == Axpy(Axpy(low, -c, td), tk, Axpy(up, 2.0 * c, tj))
  {
    calc {
      Axpy(Axpy(low, -c, td), tk, Axpy(up, 2.0 * c, tj));
      low - c * td + tk * (up + 2.0 * c * tj);
      { assert tk * (2.0 * c * tj) == c * (2.0 * tk * tj); }
      low - c * td + tk * up + c * (2.0 * tk * tj);
      { assert c * (2.0 * tk * tj) == c * tn + c * td; }
      low + tk * up + c * tn;
    }
  }

  lemma {:induction false} ScaleSeries(c: seq<real>, s: real, scaled: seq<real>, x: real)
    requires |scaled| == |c| && forall i :: 0 <= i < |c| ==> scaled[i] == Times(s, c[i])
    ensures Series(scaled, x) == Times(s, Series(c, x))
    decreases |c|
  {
    hide T, Axpy, Times;
    if |c| > 0 {
      var n := |c| - 1;
      ScaleSeries(c[..n], s, scaled[..n], x);
      ScaleAxpy(s, Series(c[..n], x), c[n], T(n, x));
    } else {
      TimesZero(s);
    }
  }

  lemma ScaleAxpy(s: real, a: real, c: real, t: real)
    ensures Axpy(Times(s, a), Times(s, c), t) == Times(s, Axpy(a, c, t))
  {
    assert s * (a + c * t) == s * a + s * c * t;
  }

  // ----- the evaluator

  /** 2^shift exactly, as ldexp multiplies by. */
  function Binary(shift: nat): (r: real)
    ensures r > 0.0
  {
    Pow2(shift) as real
  }

  /** Largest row exponent the encoder takes. */
  const MAX_SHIFT := 50

  /** Every block of the decomposition can be encoded. */
  predicate Encodable(c: seq<Row>, baby: nat, shiftFor: seq<Row> -> nat)
    requires |c| > 0 && baby > 0
    decreases |c|
  {
    if |c| <= baby then shiftFor(c) <= MAX_SHIFT else
      var k := GiantSize(|c| - 1, baby);
      Encodable(LowerRows(c, k), baby, shiftFor) && Encodable(UpperRows(c, k), baby, shiftFor)
  }

  /** baby, doubled while 2k - 1 is below the degree. */
  function GiantSize(degree: nat, from: nat): (k: nat)
    requires from > 0 && from <= degree
    ensures from <= k <= degree < 2 * k
    decreases degree - from
  {
    if 2 * from - 1 < degree then GiantSize(degree, 2 * from) else from
  }

  function ScaleRow(row: Row, s: real): Row {
    seq(|row|, h requires 0 <= h < |row| => s * row[h])
  }

  function UpperRows(c: seq<Row>, k: nat): (r: seq<Row>)
    requires k < |c|
    ensures |r| == |c| - k
  {
    seq(|c| - k, j requires 0 <= j < |c| - k => if j == 0 then c[k] else ScaleRow(c[k + j], 2.0))
  }

  function LowerRow(a: Row, b: Row): Row {
    seq(|a|, h requires 0 <= h < |a| => if h < |b| then a[h] - b[h] else a[h])
  }

  /** Row m below k after the rows between k and end have been reflected onto it. */
  function FoldedRow(c: seq<Row>, k: nat, m: nat, end: nat): Row
    requires m < k < end <= |c|
  {
    if 2 * k - m < end then LowerRow(c[m], c[2 * k - m]) else c[m]
  }

  function LowerRows(c: seq<Row>, k: nat): (r: seq<Row>)
    requires k < |c|
    ensures |r| == k
  {
    seq(k, m requires 0 <= m < k => FoldedRow(c, k, m, |c|))
  }

  lemma SplitColumns(c: seq<Row>, k: nat, heads: nat, h: nat)
    requires Matrix(c, heads) && k < |c| && h < heads
    ensures Matrix(UpperRows(c, k), heads) && Matrix(LowerRows(c, k), heads)
    ensures Column(UpperRows(c, k), h) == Upper(Column(c, h), k)
    ensures Column(LowerRows(c, k), h) == Lower(Column(c, h), k)
  {
    SplitMatrix(c, k, heads);
    var column := Column(c, h);
    forall j | 0 <= j < |c| - k
      ensures UpperRows(c, k)[j][h] == Upper(column, k)[j]
    {
      UpperEntry(c, k, heads, h, j, k + j);
    }
    forall m | 0 <= m < k
      ensures LowerRows(c, k)[m][h] == Lower(column, k)[m]
    {
      LowerEntry(c, k, heads, h, m, 2 * k - m);
    }
  }

  lemma UpperEntry(c: seq<Row>, k: nat, heads: nat, h: nat, j: nat, at: nat)
    requires Matrix(c, heads) && at == k + j < |c| && h < heads
    ensures |UpperRows(c, k)[j]| == heads && UpperRows(c, k)[j][h] == Upper(Column(c, h), k)[j]
  {
    var column := Column(c, h);
    if j > 0 {
      assert UpperRows(c, k)[j] == ScaleRow(c[at], 2.0);
      assert Upper(column, k)[j] == 2.0 * column[at];
    }
  }

  lemma LowerEntry(c: seq<Row>, k: nat, heads: nat, h: nat, m: nat, mirror: nat)
    requires Matrix(c, heads) && m < k < |c| && h < heads && mirror == 2 * k - m
    ensures |LowerRows(c, k)[m]| == heads && LowerRows(c, k)[m][h] == Lower(Column(c, h), k)[m]
  {
    var column := Column(c, h);
    if mirror < |c| {
      assert FoldedRow(c, k, m, |c|) == LowerRow(c[m], c[mirror]);
      assert Lower(column, k)[m] == column[m] - column[mirror];
    } else {
      assert FoldedRow(c, k, m, |c|) == c[m];
      assert Lower(column, k)[m] == column[m];
    }
  }

  lemma SplitMatrix(c: seq<Row>, k: nat, heads: nat)
    requires Matrix(c, heads) && k < |c|
    ensures Matrix(UpperRows(c, k), heads) && Matrix(LowerRows(c, k), heads)
  {
    forall i | 0 <= i < |c|
      ensures |ScaleRow(c[i], 2.0)| == heads && forall j :: 0 <= j < |c| ==> |LowerRow(c[i], c[j])| == heads
    {
    }
  }

  /** Both halves' values give the value of the whole. */
  lemma GiantRows(c: seq<Row>, k: nat, input: Row, low: Row, up: Row)
    requires Matrix(c, |input|) && 0 < k < |c| <= 2 * k
    requires EvaluatesTo(low, LowerRows(c, k), input) && EvaluatesTo(up, UpperRows(c, k), input)
    ensures EvaluatesTo(Add(low, Multiply(BasisRow(k, input), up)), c, input)
  {
    hide Series, T;
    forall h: nat | h < |input|
      ensures low[h] + Times(T(k, input[h]), up[h]) == Series(Column(c, h), input[h])
    {
      SplitColumns(c, k, |input|, h);
      GiantStep(Column(c, h), k, input[h]);
    }
  }

  class JointEvaluator {
    const input: Row
    var basis: map<nat, Row>
    /** the levels every cached entry has consumed, the input being fresh */
    ghost var levels: map<nat, nat>

    ghost predicate Valid()
      reads this
    {
      && 1 in basis && levels.Keys == basis.Keys
      && forall n :: n in basis ==> n > 0 && basis[n] == BasisRow(n, input) && levels[n] == LevelOf(n)
    }

    constructor (input: Row)
      ensures Valid() && this.input == input && basis == map[1 := input]
    {
      this.input := input;
      basis := map[1 := input];
      levels := map[1 := 0];
      new;
      assert BasisRow(1, input) == input;
    }

    /** T_n of the input, from the cache or from T_ceil(n/2) * T_floor(n/2). */
    method Get(n: nat) returns (value: Row, ghost level: nat)
      requires Valid() && n > 0
      modifies this
      ensures Valid() && value == BasisRow(n, input) && n in basis && old(basis.Keys) <= basis.Keys
      ensures level == LevelOf(n)
      decreases n
    {
      hide BasisRow, Multiply, Add, Subtract, AddScalar, LevelOf;
      if n in basis {
        return basis[n], levels[n];
      }
      var high, low;
      ghost var highLevel, lowLevel;
      high, highLevel := Get((n + 1) / 2);
      low, lowLevel := Get(n / 2);
      SizeOf((n + 1) / 2, input);
      SizeOf(n / 2, input);
      var product := Multiply(high, low);
      var doubled := Add(product, product);
      value := if n % 2 == 0 then AddScalar(doubled, -1.0) else Subtract(doubled, input);
      BasisValue(n, input);
      level := Max(highLevel, lowLevel) + 1;
      basis, levels := basis[n := value], levels[n := level];
    }

    /** A block below the baby size, normalized by a power of two; None where the program throws. */
    method EvaluateBlock(c: seq<Row>, shift: nat) returns (result: Option<Row>, ghost level: nat)
      requires Valid() && |c| > 0 && Matrix(c, |input|)
      modifies this
      ensures Valid() && (result.Some? <==> shift <= 50)
      ensures result.Some? ==> EvaluatesTo(result.value, c, input) && level == RowsLevel(c)
    {
      hide RowsLevel;
      if shift > MAX_SHIFT {
        return None, 0;
      }
      var scaled := c;
      if shift != 0 {
        scaled := seq(|c|, i requires 0 <= i < |c| => Scale(c[i], Binary(shift)));
      }
      var sum;
      sum, level := Accumulate(scaled);
      if shift != 0 {
        Unscale(c, shift, scaled, input, sum);
        ScaledLevel(c, shift, scaled);
        sum := Scale(sum, 1.0 / Binary(shift));
      }
      result := Some(sum);
    }

    /** The constant row, then every nonzero row times its basis value. */
    method Accumulate(c: seq<Row>) returns (sum: Row, ghost level: nat)
      requires Valid() && |c| > 0 && Matrix(c, |input|)
      modifies this
      ensures Valid() && EvaluatesTo(sum, c, input) && level == RowsLevel(c)
    {
      hide EvaluatesTo, BasisRow, RowsLevel;
      sum, level := c[0], 0;
      FirstRow(c, input);
      FirstLevel(c);
      for i := 1 to |c|
        invariant Valid() && EvaluatesTo(sum, c[..i], input) && |sum| == |input| && level == RowsLevel(c[..i])
      {
        NextRow(c, i, input, sum);
        NextLevel(c, i);
        if exists h :: 0 <= h < |c[i]| && c[i][h] != 0.0 {
          var power;
          ghost var powerLevel;
          power, powerLevel := Get(i);
          SizeOf(i, input);
          sum := Add(sum, Multiply(power, c[i]));
          level := Max(level, powerLevel + 1);
        }
        assert EvaluatesTo(sum, c[..i + 1], input);
        SumSize(sum, c[..i + 1], input);
      }
      assert c[..|c|] == c;
    }

    method Evaluate(c: seq<Row>, baby: nat, shiftFor: seq<Row> -> nat) returns (result: Option<Row>, ghost level: nat)
      requires Valid() && |c| > 0 && Matrix(c, |input|) && baby > 0
      modifies this
      ensures Valid() && (result.Some? <==> Encodable(c, baby, shiftFor))
      ensures result.Some? ==> EvaluatesTo(result.value, c, input) && level == SeriesLevel(c, baby)
      decreases |c|
    {
      hide EvaluatesTo, GiantSize, SeriesLevel;
      SeriesLevelIs(c, baby);
      var n := |c| - 1;
      if n < baby {
        result, level := EvaluateBlock(c, shiftFor(c));
        return;
      }
      var k := FindGiant(n, baby);
      SplitMatrix(c, k, |input|);
      var right := UpperRows(c, k);
      var left := FoldRows(c, k);
      var low, up, power;
      ghost var lowLevel, upLevel, powerLevel;
      low, lowLevel := Evaluate(left, baby, shiftFor);
      if low.None? {
        return None, 0;
      }
      power, powerLevel := Get(k);
      up, upLevel := Evaluate(right, baby, shiftFor);
      if up.None? {
        return None, 0;
      }
      GiantRows(c, k, input, low.value, up.value);
      SumSize(low.value, left, input);
      SumSize(up.value, right, input);
      level := Max(lowLevel, Max(powerLevel, upLevel) + 1);
      result := Some(Add(low.value, Multiply(power, up.value)));
    }
  }

  method FindGiant(degree: nat, baby: nat) returns (k: nat)
    requires 0 < baby <= degree
    ensures k == GiantSize(degree, baby)
  {
    k := baby;
    while 2 * k - 1 < degree
      invariant 0 < k <= degree && GiantSize(degree, k) == GiantSize(degree, baby)
      decreases degree - k
    {
      k := 2 * k;
    }
  }

  /** Subtracts row i from row 2k - i for every row above k. */
  method FoldRows(c: seq<Row>, k: nat) returns (left: seq<Row>)
    requires 0 < k < |c| <= 2 * k
    ensures left == LowerRows(c, k)
  {
    left := c[..k];
    for i := k + 1 to |c|
      invariant |left| == k
      invariant forall m :: 0 <= m < k ==> left[m] == FoldedRow(c, k, m, i)
    {
      var to := 2 * k - i;
      assert left[to] == FoldedRow(c, k, to, i);
      left := left[to := LowerRow(left[to], c[i])];
    }
  }

  /** What the recursion computes for a new entry, and at which level. */
  lemma BasisValue(n: nat, input: Row)
    requires n > 1
    ensures var product := Multiply(BasisRow((n + 1) / 2, input), BasisRow(n / 2, input));
            var doubled := Add(product, product);
            BasisRow(n, input) == if n % 2 == 0 then AddScalar(doubled, -1.0) else Subtract(doubled, input)
    ensures LevelOf(n) == Max(LevelOf((n + 1) / 2), LevelOf(n / 2)) + 1
  {
    hide T, LevelOf, Times;
    LevelSplit(n);
    var product := Multiply(BasisRow((n + 1) / 2, input), BasisRow(n / 2, input));
    var doubled := Add(product, product);
    var value := if n % 2 == 0 then AddScalar(doubled, -1.0) else Subtract(doubled, input);
    forall h | 0 <= h < |input|
      ensures value[h] == T(n, input[h])
    {
      HalvesProduct(n, input[h]);
      assert product[h] == Times(T((n + 1) / 2, input[h]), T(n / 2, input[h]));
    }
    assert value == BasisRow(n, input);
  }

  lemma LevelSplit(n: nat)
    requires n > 1
    ensures LevelOf(n) == Max(LevelOf((n + 1) / 2), LevelOf(n / 2)) + 1
  {
    if n % 2 == 0 {
      assert (n + 1) / 2 == n / 2;
    }
  }

  lemma HalvesProduct(n: nat, x: real)
    requires n > 1
    ensures var product := Times(T((n + 1) / 2, x), T(n / 2, x));
            T(n, x) == product + product + (if n % 2 == 0 then -1.0 else -x)
  {
    hide *;
    HalvesAt(n, (n + 1) / 2, n / 2, n % 2, x);
  }

  lemma HalvesAt(n: nat, a: nat, b: nat, d: nat, x: real)
    requires a + b == n && a - b == d && d < 2
    ensures T(n, x) == Times(T(a, x), T(b, x)) + Times(T(a, x), T(b, x)) + (if d == 0 then -1.0 else -x)
  {
    hide *;
    ProductSplits(a, b, x);
    Recurrence(0, x);
    DoubleProduct(T(a, x), T(b, x), T(n, x), T(d, x));
  }

  lemma DoubleProduct(p: real, q: real, s: real, d: real)
    requires Splits(p, q, s, d)
    ensures s == Times(p, q) + Times(p, q) - d
  {
  }

  lemma SumSize(r: Row, c: seq<Row>, input: Row)
    requires EvaluatesTo(r, c, input)
    ensures |r| == |input|
  {
  }

  lemma SizeOf(n: nat, input: Row)
    ensures |BasisRow(n, input)| == |input|
  {
  }

  lemma FirstRow(c: seq<Row>, input: Row)
    requires |c| > 0 && Matrix(c, |input|)
    ensures EvaluatesTo(c[0], c[..1], input)
  {
    forall h: nat | h < |input|
      ensures c[0][h] == Series(Column(c[..1], h), input[h])
    {
      assert Column(c[..1], h) == [c[0][h]];
      Single(c[0][h], input[h]);
    }
  }

  /** One more row; a zero row changes nothing. */
  lemma NextRow(c: seq<Row>, i: nat, input: Row, sum: Row)
    requires 0 < i < |c| && Matrix(c, |input|) && EvaluatesTo(sum, c[..i], input)
    ensures EvaluatesTo(Add(sum, Multiply(BasisRow(i, input), c[i])), c[..i + 1], input)
    ensures (forall h :: 0 <= h < |c[i]| ==> c[i][h] == 0.0) ==> EvaluatesTo(sum, c[..i + 1], input)
  {
    hide T, Combine;
    forall h: nat | h < |input|
      ensures Series(Column(c[..i + 1], h), input[h]) == sum[h] + Times(T(i, input[h]), c[i][h])
      ensures c[i][h] == 0.0 ==> Series(Column(c[..i + 1], h), input[h]) == sum[h]
    {
      var column := Column(c[..i + 1], h);
      assert column[..i] == Column(c[..i], h);
      LastTerm(column, Basis(input[h]));
      AxpyIs(sum[h], c[i][h], T(i, input[h]));
    }
  }

  lemma AxpyIs(s: real, c: real, t: real)
    ensures Axpy(s, c, t) == s + Times(t, c)
    ensures c == 0.0 ==> Axpy(s, c, t) == s
  {
  }

  lemma Unscale(c: seq<Row>, shift: nat, scaled: seq<Row>, input: Row, sum: Row)
    requires Matrix(c, |input|) && scaled == seq(|c|, i requires 0 <= i < |c| => Scale(c[i], Binary(shift)))
    requires EvaluatesTo(sum, scaled, input)
    ensures EvaluatesTo(Scale(sum, 1.0 / Binary(shift)), c, input)
  {
    hide Series, Times;
    forall h: nat | h < |input|
      ensures Times(1.0 / Binary(shift), sum[h]) == Series(Column(c, h), input[h])
    {
      ScaleSeries(Column(c, h), Binary(shift), Column(scaled, h), input[h]);
      TimesBack(Binary(shift), Series(Column(c, h), input[h]));
    }
  }

  lemma TimesBack(s: real, x: real)
    requires s > 0.0
    ensures Times(1.0 / s, Times(s, x)) == x
  {
    calc {
      1.0 / s * (s * x);
      1.0 / s * s * x;
      x;
    }
  }

  /** 1 << ((log + 1) / 2) with the least log >= 1 such that 2^log covers the degrees. */
  method BabySize(degree: nat) returns (baby: nat)
    ensures baby == Pow2((Levels(degree) + 1) / 2) && baby >= 2
  {
    var log := 1;
    var power := 2;
    CeilLog2Bounds(degree + 1);
    while power < degree + 1
      invariant 1 <= log && power == Pow2(log) && (log > 1 ==> Pow2(log - 1) < degree + 1)
      decreases degree + 1 - power
    {
      log, power := log + 1, 2 * power;
    }
    CeilLog2Least(degree + 1, log);
    baby := Pow2((log + 1) / 2);
    assert Pow2((log + 1) / 2) == 2 * Pow2((log + 1) / 2 - 1);
  }

  function Levels(degree: nat): nat {
    if CeilLog2(degree + 1) < 1 then 1 else CeilLog2(degree + 1)
  }

  /**
   * Both root polynomials of every head, p first; the second evaluation reuses the first one's basis. None exactly where some
   * block cannot be encoded.
   */
  method EvaluateJointRoots(input: Row, p: seq<Row>, q: seq<Row>, shiftFor: seq<Row> -> nat)
    returns (roots: Option<(Row, Row)>, ghost levels: (nat, nat))
    requires |p| > 0 && |q| > 0 && Matrix(p, |input|) && Matrix(q, |input|)
    ensures roots.Some? ==> EvaluatesTo(roots.value.0, p, input) && EvaluatesTo(roots.value.1, q, input)
    ensures var baby := Pow2((Levels((if |p| > |q| then |p| else |q|) - 1) + 1) / 2);
            && (roots.Some? <==> Encodable(p, baby, shiftFor) && Encodable(q, baby, shiftFor))
            && (roots.Some? ==> levels == (SeriesLevel(p, baby), SeriesLevel(q, baby)))
  {
    hide EvaluatesTo, Encodable, SeriesLevel;
    levels := (0, 0);
    var baby := BabySize((if |p| > |q| then |p| else |q|) - 1);
    var evaluator := new JointEvaluator(input);
    var first, second;
    ghost var firstLevel, secondLevel;
    first, firstLevel := evaluator.Evaluate(p, baby, shiftFor);
    if first.None? {
      return None, levels;
    }
    second, secondLevel := evaluator.Evaluate(q, baby, shiftFor);
    if second.None? {
      return None, levels;
    }
    return Some((first.value, second.value)), (firstLevel, secondLevel);
  }

  // ----- levels

  /** Least log with 2^log >= value. */
  function CeilLog2(value: nat): nat {
    if value <= 1 then 0 else 1 + CeilLog2((value + 1) / 2)
  }

  lemma {:induction false} CeilLog2Bounds(value: nat)
    ensures Pow2(CeilLog2(value)) >= value
    ensures value > 1 ==> CeilLog2(value) > 0 && Pow2(CeilLog2(value) - 1) < value
  {
    if value > 1 {
      CeilLog2Bounds((value + 1) / 2);
    }
  }

  lemma {:induction false} Pow2Monotone(a: nat, b: nat)
    requires a <= b
    ensures Pow2(a) <= Pow2(b)
    decreases b
  {
    if a < b {
      Pow2Monotone(a, b - 1);
    }
  }

  /** A log that is enough and not one too many is CeilLog2, at least 1. */
  lemma CeilLog2Least(value: nat, log: nat)
    requires log >= 1 && Pow2(log) >= value && (log > 1 ==> Pow2(log - 1) < value)
    ensures log == if CeilLog2(value) < 1 then 1 else CeilLog2(value)
  {
    CeilLog2Bounds(value);
    var least := CeilLog2(value);
    if log < least {
      Pow2Monotone(log, least - 1);
    } else if log > least && log > 1 {
      Pow2Monotone(least, log - 1);
    }
  }

  /** The loop of ceil_log2. */
  method CountLog2(value: nat) returns (log: nat)
    ensures log == CeilLog2(value)
  {
    log := 0;
    var power := 1;
    while power < value
      invariant power == Pow2(log) && (log > 0 ==> Pow2(log - 1) < value)
      decreases value - power
    {
      log, power := log + 1, 2 * power;
    }
    CeilLog2Bounds(value);
    if log < CeilLog2(value) {
      Pow2Monotone(log, CeilLog2(value) - 1);
    } else if log > CeilLog2(value) {
      Pow2Monotone(CeilLog2(value), log - 1);
    }
  }

  function Max(a: nat, b: nat): nat {
    if a < b then b else a
  }

  /** Level of a cached basis entry. */
  function LevelOf(i: nat): nat {
    if i <= 1 then 0 else
    if i % 2 == 0 then LevelOf(i / 2) + 1 else Max(LevelOf((i + 1) / 2), LevelOf(i / 2)) + 1
  }

  function HighestLevel(n: nat): nat
    requires n > 0
  {
    if n == 1 then LevelOf(1) else Max(HighestLevel(n - 1), LevelOf(n))
  }

  /** Level of a Paterson-Stockmeyer block of degree n. */
  function BlockLevel(n: nat, baby: nat): nat
    requires baby > 0
  {
    if n == 0 then 0 else
    if n < baby then HighestLevel(n) + 1 else
      var k := GiantSize(n, baby);
      Max(BlockLevel(k - 1, baby), Max(LevelOf(k), BlockLevel(n - k, baby)) + 1)
  }

  // ----- the levels an evaluation consumes

  predicate IsZeroRow(row: Row) {
    forall h :: 0 <= h < |row| ==> row[h] == 0.0
  }

  /** A sum of rows times basis entries: every product costs a level, zero rows are skipped. */
  function RowsLevel(c: seq<Row>): nat
    decreases |c|
  {
    var n := |c| - 1;
    if n <= 0 then 0 else
      Max(RowsLevel(c[..n]), if IsZeroRow(c[n]) then 0 else LevelOf(n) + 1)
  }

  /** The level of a series: products cost one more than the deeper factor, sums nothing. */
  function SeriesLevel(c: seq<Row>, baby: nat): nat
    requires |c| > 0 && baby > 0
    decreases |c|
  {
    if |c| <= baby then RowsLevel(c) else
      var k := GiantSize(|c| - 1, baby);
      Max(SeriesLevel(LowerRows(c, k), baby), Max(LevelOf(k), SeriesLevel(UpperRows(c, k), baby)) + 1)
  }

  lemma SeriesLevelIs(c: seq<Row>, baby: nat)
    requires |c| > 0 && baby > 0
    ensures |c| <= baby ==> SeriesLevel(c, baby) == RowsLevel(c)
    ensures |c| > baby ==> var k := GiantSize(|c| - 1, baby);
              SeriesLevel(c, baby) == Max(SeriesLevel(LowerRows(c, k), baby), Max(LevelOf(k), SeriesLevel(UpperRows(c, k), baby)) + 1)
  {
    hide RowsLevel, LevelOf, GiantSize, LowerRows, UpperRows;
  }

  lemma FirstLevel(c: seq<Row>)
    requires |c| > 0
    ensures RowsLevel(c[..1]) == 0
  {
  }

  lemma NextLevel(c: seq<Row>, i: nat)
    requires 0 < i < |c|
    ensures RowsLevel(c[..i + 1]) == Max(RowsLevel(c[..i]), if IsZeroRow(c[i]) then 0 else LevelOf(i) + 1)
  {
    hide LevelOf;
    assert c[..i + 1][..i] == c[..i];
  }

  lemma {:induction false} ScaledLevel(c: seq<Row>, shift: nat, scaled: seq<Row>)
    requires scaled == seq(|c|, i requires 0 <= i < |c| => Scale(c[i], Binary(shift)))
    ensures RowsLevel(scaled) == RowsLevel(c)
    decreases |c|
  {
    hide LevelOf, Times;
    var n := |c| - 1;
    if n > 0 {
      assert scaled[..n] == seq(|c[..n]|, i requires 0 <= i < |c[..n]| => Scale(c[..n][i], Binary(shift)));
      ScaledLevel(c[..n], shift, scaled[..n]);
      forall h | 0 <= h < |c[n]|
        ensures scaled[n][h] == 0.0 <==> c[n][h] == 0.0
      {
        TimesNonzero(Binary(shift), c[n][h]);
      }
    }
  }

  lemma TimesNonzero(s: real, x: real)
    requires s > 0.0
    ensures Times(s, x) == 0.0 <==> x == 0.0
  {
    if x > 0.0 {
      MulPositive(s, x);
    } else if x < 0.0 {
      MulPositive(s, -x);
    }
  }

  /** The top row of every block is not zero. */
  predicate FullBlocks(c: seq<Row>, baby: nat)
    requires |c| > 0 && baby > 0
    decreases |c|
  {
    if |c| <= baby then !IsZeroRow(c[|c| - 1]) else
      var k := GiantSize(|c| - 1, baby);
      FullBlocks(LowerRows(c, k), baby) && FullBlocks(UpperRows(c, k), baby)
  }

  lemma {:induction false} RowsLevelBound(c: seq<Row>)
    requires |c| > 0
    ensures RowsLevel(c) <= if |c| == 1 then 0 else HighestLevel(|c| - 1) + 1
    ensures |c| > 1 && !IsZeroRow(c[|c| - 1]) ==> RowsLevel(c) == HighestLevel(|c| - 1) + 1
    decreases |c|
  {
    hide LevelOf, CeilLog2;
    var n := |c| - 1;
    if n > 0 {
      RowsLevelBound(c[..n]);
      HighestIsLast(n);
      LevelIsLog(n);
      if n > 1 {
        HighestIsLast(n - 1);
        CeilLog2Monotone(n - 1, n);
      }
    }
  }

  /** The planned count is what the evaluation consumes at most, and exactly when the top row of every block is not zero. */
  lemma {:induction false} SeriesLevelBound(c: seq<Row>, baby: nat)
    requires |c| > 0 && baby > 0
    ensures SeriesLevel(c, baby) <= BlockLevel(|c| - 1, baby)
    ensures FullBlocks(c, baby) ==> SeriesLevel(c, baby) == BlockLevel(|c| - 1, baby)
    decreases |c|
  {
    hide LevelOf, HighestLevel, RowsLevel, LowerRows, UpperRows, IsZeroRow, GiantSize;
    if |c| <= baby {
      RowsLevelBound(c);
    } else {
      var k := GiantSize(|c| - 1, baby);
      SeriesLevelBound(LowerRows(c, k), baby);
      SeriesLevelBound(UpperRows(c, k), baby);
    }
  }

  /** Evaluating with the source's baby size consumes at most one level more than the logarithm of the number of coefficients. */
  lemma EvaluationDepth(c: seq<Row>)
    requires |c| > 0
    ensures SeriesLevel(c, BabyOf(|c| - 1)) <= PsDepth(|c| - 1) <= CeilLog2(|c|) + 1
    ensures FullBlocks(c, BabyOf(|c| - 1)) ==> SeriesLevel(c, BabyOf(|c| - 1)) == PsDepth(|c| - 1)
  {
    hide SeriesLevel, BlockLevel, CeilLog2, FullBlocks;
    SeriesLevelBound(c, BabyOf(|c| - 1));
    PsDepthBound(|c| - 1);
  }

  function BabyOf(degree: nat): (baby: nat)
    ensures baby > 0
  {
    Pow2((Levels(degree) + 1) / 2)
  }

  /** The baby size is the power of two next to the square root of the number of coefficients. */
  lemma BabyIsRoot(degree: nat)
    requires degree >= 1
    ensures degree + 1 <= BabyOf(degree) * BabyOf(degree) < 4 * (degree + 1)
  {
    var log := Levels(degree);
    CeilLog2Bounds(degree + 1);
    var half := (log + 1) / 2;
    SquaredPower(half);
    Pow2Monotone(log, 2 * half);
    Pow2Monotone(2 * half, log + 1);
    assert Pow2(log + 1) == 4 * Pow2(log - 1);
  }

  lemma {:induction false} SquaredPower(n: nat)
    ensures Pow2(n) * Pow2(n) == Pow2(2 * n)
  {
    if n > 0 {
      SquaredPower(n - 1);
      assert Pow2(2 * n) == 2 * Pow2(2 * n - 1);
      assert 2 * Pow2(n - 1) * (2 * Pow2(n - 1)) == 4 * (Pow2(n - 1) * Pow2(n - 1));
    }
  }

  function PsDepth(degree: nat): nat {
    BlockLevel(degree, BabyOf(degree))
  }

  lemma {:induction false} CeilLog2Monotone(a: nat, b: nat)
    requires a <= b
    ensures CeilLog2(a) <= CeilLog2(b)
    decreases b
  {
    if a > 1 {
      CeilLog2Monotone((a + 1) / 2, (b + 1) / 2);
    }
  }

  /** A basis entry costs exactly its logarithm. */
  lemma {:induction false} LevelIsLog(i: nat)
    ensures LevelOf(i) == CeilLog2(i)
  {
    if i > 1 {
      LevelIsLog(i / 2);
      LevelIsLog((i + 1) / 2);
      CeilLog2Monotone(i / 2, (i + 1) / 2);
    }
  }

  lemma {:induction false} HighestIsLast(n: nat)
    requires n > 0
    ensures HighestLevel(n) == CeilLog2(n)
  {
    LevelIsLog(n);
    if n > 1 {
      HighestIsLast(n - 1);
      CeilLog2Monotone(n - 1, n);
    }
  }

  /** Giant sizes stay powers of two. */
  lemma {:induction false} GiantPower(degree: nat, log: nat) returns (at: nat)
    requires Pow2(log) <= degree
    ensures GiantSize(degree, Pow2(log)) == Pow2(at)
    decreases degree - Pow2(log)
  {
    if 2 * Pow2(log) - 1 < degree {
      at := GiantPower(degree, log + 1);
    } else {
      at := log;
    }
  }

  lemma {:induction false} BlockLevelBound(n: nat, log: nat)
    ensures BlockLevel(n, Pow2(log)) <= CeilLog2(n + 1) + 1
    decreases n
  {
    hide CeilLog2, LevelOf, HighestLevel, GiantSize, Pow2;
    var baby := Pow2(log);
    if n > 0 && n < baby {
      HighestIsLast(n);
      CeilLog2Monotone(n, n + 1);
    } else if n > 0 {
      var at := GiantPower(n, log);
      var k := GiantSize(n, baby);
      BlockLevelBound(k - 1, log);
      BlockLevelBound(n - k, log);
      LevelIsLog(k);
      CeilLog2Monotone(k, n + 1);
      CeilLog2Monotone(n - k + 1, k);
      DoubledLog(n + 1, at);
    }
  }

  /** Between 2^at (exclusive) and 2^(at+1) the logarithm is at + 1. */
  lemma DoubledLog(value: nat, at: nat)
    requires Pow2(at) < value <= 2 * Pow2(at)
    ensures CeilLog2(value) == at + 1 && CeilLog2(Pow2(at)) <= at
  {
    CeilLog2Least(value, at + 1);
    CeilLog2Bounds(value);
    CeilLog2Bounds(Pow2(at));
    if CeilLog2(Pow2(at)) > at {
      Pow2Monotone(at, CeilLog2(Pow2(at)) - 1);
    }
  }

  /** The planned depth exceeds the logarithm of the number of coefficients by at most one level. */
  lemma PsDepthBound(degree: nat)
    ensures PsDepth(degree) <= CeilLog2(degree + 1) + 1
  {
    BlockLevelBound(degree, (Levels(degree) + 1) / 2);
  }

  // ----- coefficient slots

  /** One row copied into every stream. */
  method CoefficientSlots(row: Row, batch: int, stride: int, offset: int, streams: int) returns (slots: Option<seq<real>>)
    ensures slots.Some? <==> batch >= 1 && stride >= 1 && streams >= 1 && streams * stride <= batch && offset >= 0 && offset + |row| <= stride
    ensures slots.Some? ==> |slots.value| == batch && forall stream: nat, h: nat :: stream < streams && h < |row| ==>
              Lane(stream, stride, offset, h) < batch && slots.value[Lane(stream, stride, offset, h)] == row[h]
    ensures slots.Some? ==> forall i :: 0 <= i < batch && !IsLane(i, streams, stride, offset, |row|) ==> slots.value[i] == 0.0
  {
    hide Lane;
    if batch < 1 || stride < 1 || streams < 1 || streams * stride > batch || offset < 0 || offset + |row| > stride {
      return None;
    }
    var result := seq(batch, i => 0.0);
    for stream := 0 to streams
      invariant |result| == batch
      invariant forall s: nat, h: nat :: s < stream && h < |row| ==>
                  Lane(s, stride, offset, h) < batch && result[Lane(s, stride, offset, h)] == row[h]
      invariant forall i :: 0 <= i < batch && !IsLane(i, streams, stride, offset, |row|) ==> result[i] == 0.0
    {
      LaneInside(stream, streams, stride, offset, |row|, batch);
      var base := Lane(stream, stride, offset, 0);
      result := CopyAt(result, base, row);
      forall i: nat | base <= i < base + |row|
        ensures IsLane(i, streams, stride, offset, |row|)
      {
        assert i == Lane(stream, stride, offset, i - base);
      }
    }
    return Some(result);
  }

  method CopyAt(slots: seq<real>, base: nat, row: Row) returns (r: seq<real>)
    requires base + |row| <= |slots|
    ensures |r| == |slots|
    ensures forall i :: 0 <= i < |r| ==> r[i] == if base <= i < base + |row| then row[i - base] else slots[i]
  {
    return slots[..base] + row + slots[base + |row|..];
  }

  /** The slot of head h in a stream. */
  function Lane(stream: nat, stride: int, offset: int, h: nat): (slot: nat)
    requires stride >= 1 && offset >= 0
  {
    MulMonotone(0, stream, stride);
    stream * stride + offset + h
  }

  predicate IsLane(i: int, streams: nat, stride: int, offset: int, heads: nat)
    requires stride >= 1 && offset >= 0
  {
    exists stream: nat, h: nat :: stream < streams && h < heads && i == Lane(stream, stride, offset, h)
  }

  lemma LaneInside(stream: nat, streams: nat, stride: int, offset: int, heads: nat, batch: nat)
    requires stream < streams && stride >= 1 && streams * stride <= batch && offset >= 0 && offset + heads <= stride
    ensures Lane(stream, stride, offset, 0) + heads <= batch
    ensures forall h: nat :: h < heads ==> Lane(stream, stride, offset, h) == Lane(stream, stride, offset, 0) + h
    ensures forall s: nat, h: nat :: s < stream && h < heads ==> Lane(s, stride, offset, h) < Lane(stream, stride, offset, 0)
  {
    MulMonotone(stream + 1, streams, stride);
    forall s: nat, h: nat | s < stream && h < heads
      ensures Lane(s, stride, offset, h) < Lane(stream, stride, offset, 0)
    {
      MulMonotone(s + 1, stream, stride);
    }
  }

  /**
   * The periodic form of CoefficientSlots: repeated with its period it agrees with the row on every head lane of every
   * stream.
   */
  method PeriodicSlots(row: Row, batch: int, stride: int, offset: int, streams: int) returns (slots: Option<seq<real>>)
    ensures slots.Some? <==>
              && |row| > 0 && batch >= 1 && stride >= 1 && streams >= 1 && streams <= batch / stride && 0 <= offset <= stride
              && |row| <= stride - offset && batch % Pow2(CeilLog2(|row|)) == 0 && stride % Pow2(CeilLog2(|row|)) == 0
    ensures slots.Some? ==> |slots.value| == Pow2(CeilLog2(|row|)) && forall stream: nat, h: nat :: stream < streams && h < |row| ==>
              slots.value[Wrap(Lane(stream, stride, offset, h), |slots.value|)] == row[h]
  {
    hide Lane, Wrap, CeilLog2, Pow2;
    if |row| == 0 || batch < 1 || stride < 1 || streams < 1 || streams > batch / stride || offset < 0 || offset > stride
       || |row| > stride - offset {
      return None;
    }
    var log := CountLog2(|row|);
    var period := Pow2(log);
    CeilLog2Bounds(|row|);
    if batch % period != 0 || stride % period != 0 {
      return None;
    }
    var result := FillPeriod(row, offset, period);
    forall stream: nat, h: nat | stream < streams && h < |row|
      ensures result[Wrap(Lane(stream, stride, offset, h), period)] == row[h]
    {
      LaneWraps(stream, stride, offset, h, period);
    }
    return Some(result);
  }

  /** The slot of head h in one period. */
  function InPeriod(offset: nat, h: nat, period: nat): (slot: nat)
    requires period > 0
    ensures slot < period
  {
    Wrap(offset + h, period)
  }

  method FillPeriod(row: Row, offset: nat, period: nat) returns (slots: seq<real>)
    requires period > 0 && |row| <= period
    ensures |slots| == period && forall h: nat :: h < |row| ==> slots[InPeriod(offset, h, period)] == row[h]
  {
    hide Wrap, InPeriod;
    slots := seq(period, i => 0.0);
    for h := 0 to |row|
      invariant |slots| == period && forall j: nat :: j < h ==> slots[InPeriod(offset, j, period)] == row[j]
    {
      forall j: nat | j < h
        ensures InPeriod(offset, j, period) != InPeriod(offset, h, period)
      {
        PeriodDistinct(offset, j, h, period);
      }
      slots := slots[InPeriod(offset, h, period) := row[h]];
    }
  }

  lemma PeriodDistinct(offset: nat, j: nat, h: nat, period: nat)
    requires j < h < period
    ensures InPeriod(offset, j, period) != InPeriod(offset, h, period)
  {
    if InPeriod(offset, j, period) == InPeriod(offset, h, period) {
      WrapDistinct(offset + j, offset + h, offset, period);
    }
  }

  /** Streams start at multiples of the period. */
  lemma LaneWraps(stream: nat, stride: int, offset: int, h: nat, period: nat)
    requires stride >= 1 && offset >= 0 && period > 0 && stride % period == 0
    ensures Wrap(Lane(stream, stride, offset, h), period) == InPeriod(offset, h, period)
  {
    var turns := stride / period;
    assert stride == turns * period;
    Regroup(stream, turns, period);
    WrapTurn(offset + h, stream * turns, period);
  }

  lemma Regroup(a: int, b: int, c: int)
    ensures a * (b * c) == a * b * c
  {
  }
}
