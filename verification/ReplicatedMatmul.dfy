/** src/fhemamba/bsgs_layout.py: replicated-diagonal and baby-step/giant-step matrix-vector products. */
module ReplicatedMatmul {
  import opened Wrappers
  import opened Sums
  import opened SlotVectors

  /** rows of equal positive width */
  type Matrix = w: seq<seq<real>> | |w| > 0 && |w[0]| > 0 && forall i :: 0 <= i < |w| ==> |w[i]| == |w[0]| witness [[0.0]]

  // ----- specification

  function RowTerm(row: seq<real>, x: seq<real>): nat -> real {
    (c: nat) => if c < |row| && c < |x| then Times(row[c], x[c]) else 0.0
  }

  /** Entry i of W*x. */
  function Product(w: Matrix, x: seq<real>, i: nat): real
    requires i < |w|
  {
    Sum(|w[0]|, RowTerm(w[i], x))
  }

  // ----- windows

  function CeilDiv(a: nat, b: nat): nat
    requires b > 0
  {
    (a + b - 1) / b
  }

  /** The caller's geometry checks. */
  predicate Fits(n: int, r: int, window: int, guard: int, batch: int) {
    n > 0 && r > 0 && batch > 0 && window > 0 && window % n == 0 && r * window <= batch && guard >= 0
    && (r + guard) * window <= batch
  }

  /** Outputs do not meet each other's rows, and every read stays inside a filled window. */
  predicate Safe(m: nat, n: nat, window: nat, guard: nat) {
    m <= window + 1 && m + n - 1 <= (1 + guard) * window
  }

  /** (window, replicas) */
  function ChooseWindow(m: nat, n: nat, batch: nat): (c: Option<(nat, nat)>)
    requires n > 0
  {
    var window := n * CeilDiv(m + n, n);
    PositiveWindow(m + n, n);
    var fitting := batch / window;
    var r := if n <= fitting then n else fitting;
    if r < 1 then None else Some((window, r))
  }

  lemma CeilMeans(a: nat, b: nat)
    requires b > 0
    ensures b * CeilDiv(a, b) >= a && (b * CeilDiv(a, b)) % b == 0
    ensures a > 0 ==> CeilDiv(a, b) > 0
  {
    var q := CeilDiv(a, b);
    assert (a + b - 1) % b == a + b - 1 - q * b;
    ModUnique(b * q, b, q, 0);
    if a > 0 {
      QuotientPositive(a + b - 1, b);
    }
  }

  lemma QuotientPositive(x: nat, b: nat)
    requires x >= b > 0
    ensures x / b >= 1
  {
    var q, m := x / b, x % b;
    assert x == q * b + m;
  }

  lemma PositiveWindow(a: nat, b: nat)
    requires b > 0 && a > 0
    ensures b * CeilDiv(a, b) > 0
  {
    CeilMeans(a, b);
  }

  lemma DivTimes(a: nat, b: nat)
    requires b > 0
    ensures a / b * b <= a
  {
  }

  /** choose_window needs no guard window. */
  lemma ChooseWindowSafe(m: nat, n: nat, batch: nat)
    requires n > 0 && batch > 0
    ensures var c := ChooseWindow(m, n, batch);
            c.Some? ==> Fits(n, c.value.1, c.value.0, 0, batch) && Safe(m, n, c.value.0, 0) && c.value.1 <= n
  {
    var c := ChooseWindow(m, n, batch);
    if c.Some? {
      var (window, r) := c.value;
      CeilMeans(m + n, n);
      DivTimes(batch, window);
      MulMonotone(r, batch / window, window);
    }
  }

  /** The window is the least multiple of n that is at least m + n; the replica count is the largest up to n that fits. */
  lemma ChooseWindowLargest(m: nat, n: nat, batch: nat)
    requires n > 0
    ensures var c := ChooseWindow(m, n, batch); var window := n * CeilDiv(m + n, n);
            && window >= m + n && (forall k: nat :: n * k >= m + n ==> n * k >= window)
            && (c.None? <==> batch < window)
            && (c.Some? ==> c.value.0 == window && 1 <= c.value.1 <= n && c.value.1 * window <= batch
                            && forall k: nat :: k <= n && k * window <= batch ==> k <= c.value.1)
  {
    var window := n * CeilDiv(m + n, n);
    CeilMeans(m + n, n);
    PositiveWindow(m + n, n);
    CeilLeast(m + n, n);
    DivTimes(batch, window);
    var most := batch / window;
    FitsBelow(batch, window);
    hide CeilDiv;
    var r := if n <= most then n else most;
    MulMonotone(r, most, window);
    if most >= 1 {
      MulMonotone(1, most, window);
    }
    if batch >= window {
      QuotientPositive(batch, window);
    }
  }

  lemma CeilLeast(a: nat, b: nat)
    requires b > 0
    ensures forall k: nat :: b * k >= a ==> b * k >= b * CeilDiv(a, b)
  {
    forall k: nat | b * k >= a
      ensures b * k >= b * CeilDiv(a, b)
    {
      var q := CeilDiv(a, b);
      assert a + b - 1 == q * b + (a + b - 1) % b;
      if k < q {
        MulMonotone(k + 1, q, b);
        SplitProduct(k, 1, b);
      }
      MulMonotone(q, k, b) by {
        assert k >= q;
      }
    }
  }

  lemma FitsBelow(batch: nat, window: nat)
    requires window > 0
    ensures forall k: nat :: k * window <= batch ==> k <= batch / window
  {
    forall k: nat | k * window <= batch
      ensures k <= batch / window
    {
      var q := batch / window;
      assert batch == q * window + batch % window;
      if k > q {
        MulMonotone(q + 1, k, window);
        SplitProduct(q, 1, window);
      }
    }
  }

  predicate InterleavedFits(m: nat, n: nat, batch: nat, replicas: nat)
    requires n > 0 && replicas > 0
  {
    (replicas + 1) * (n * CeilDiv(m + replicas - 1, n)) <= batch
  }

  /** Either the largest count whose tight window leaves a guard window, or choose_window's answer when there is none. */
  predicate IsInterleavedChoice(m: nat, n: nat, batch: nat, window: nat, replicas: nat)
    requires n > 0
  {
    || (2 <= replicas <= n && Fits(n, replicas, window, 1, batch) && Safe(m, n, window, 1)
        && window == n * CeilDiv(m + replicas - 1, n)
        && forall k: nat :: replicas < k <= n && k <= batch / n - 1 ==> !InterleavedFits(m, n, batch, k))
    || (ChooseWindow(m, n, batch) == Some((window, replicas))
        && forall k: nat :: 2 <= k <= n && k <= batch / n - 1 ==> !InterleavedFits(m, n, batch, k))
  }

  /** The largest replica count whose tight window leaves room for one guard window, or choose_window. */
  method ChooseInterleavedWindow(m: int, n: int, batch: int) returns (r: Option<(nat, nat)>)
    ensures r.Some? ==> m > 0 && n > 0 && batch > 0
    ensures r.Some? ==> IsInterleavedChoice(m, n, batch, r.value.0, r.value.1)
    ensures m > 0 && n > 0 && batch > 0 && r.None? ==> ChooseWindow(m, n, batch).None?
  {
    hide CeilDiv, Fits, Safe, ChooseWindow, InterleavedFits, IsInterleavedChoice;
    if m <= 0 || n <= 0 || batch <= 0 {
      return None;
    }
    var most := if n <= batch / n - 1 then n else batch / n - 1;
    var replicas := most;
    while replicas > 1
      invariant replicas <= most
      invariant forall k: nat :: replicas < k && 2 <= k <= most ==> !InterleavedFits(m, n, batch, k)
    {
      var window := n * CeilDiv(m + replicas - 1, n);
      InterleavedTest(m, n, batch, replicas, window);
      if (replicas + 1) * window <= batch {
        InterleavedSafe(m, n, batch, replicas, window);
        ChosenTight(m, n, batch, window, replicas);
        return Some((window, replicas));
      }
      replicas := replicas - 1;
    }
    r := ChooseWindow(m, n, batch);
    if r.Some? {
      ChosenPlain(m, n, batch, r.value.0, r.value.1);
    }
  }

  lemma InterleavedTest(m: nat, n: nat, batch: nat, replicas: nat, window: nat)
    requires n > 0 && replicas > 0 && window == n * CeilDiv(m + replicas - 1, n)
    ensures InterleavedFits(m, n, batch, replicas) <==> (replicas + 1) * window <= batch
  {
  }

  lemma ChosenTight(m: nat, n: nat, batch: nat, window: nat, replicas: nat)
    requires n > 0 && 2 <= replicas <= n && window == n * CeilDiv(m + replicas - 1, n) && InterleavedFits(m, n, batch, replicas)
    requires Fits(n, replicas, window, 1, batch) && Safe(m, n, window, 1)
    requires forall k: nat :: replicas < k <= n && k <= batch / n - 1 ==> !InterleavedFits(m, n, batch, k)
    ensures IsInterleavedChoice(m, n, batch, window, replicas)
  {
    hide CeilDiv, InterleavedFits, Fits, Safe;
  }

  lemma ChosenPlain(m: nat, n: nat, batch: nat, window: nat, replicas: nat)
    requires n > 0 && ChooseWindow(m, n, batch) == Some((window, replicas))
    requires forall k: nat :: 2 <= k <= n && k <= batch / n - 1 ==> !InterleavedFits(m, n, batch, k)
    ensures IsInterleavedChoice(m, n, batch, window, replicas)
  {
    hide CeilDiv, InterleavedFits, Fits, Safe, ChooseWindow;
  }

  lemma InterleavedSafe(m: nat, n: nat, batch: nat, replicas: nat, window: nat)
    requires m > 0 && n > 0 && batch > 0 && 2 <= replicas && window == n * CeilDiv(m + replicas - 1, n)
    requires (replicas + 1) * window <= batch
    ensures Fits(n, replicas, window, 1, batch) && Safe(m, n, window, 1)
  {
    CeilMeans(m + replicas - 1, n);
    assert window >= n by {
      MulMonotone(1, CeilDiv(m + replicas - 1, n), n);
    }
    MulMonotone(replicas, replicas + 1, window);
  }

  // ----- replicated input

  /** x extended with period n over the first `filled` slots, zero beyond. */
  function Tiled(x: seq<real>, filled: nat, batch: nat): (s: Slots)
    requires |x| > 0 && batch > 0
    ensures |s| == batch
  {
    seq(batch, i requires 0 <= i < batch => if i < filled then x[Wrap(i, |x|)] else 0.0)
  }

  /** Copying a prefix of length w to `count` places at stride w. */
  lemma CopiesTile(x: seq<real>, w: int, count: nat, batch: nat)
    requires |x| > 0 && batch > 0 && w > 0 && count > 0 && count * w <= batch
    requires w == |x| || w % |x| == 0
    ensures ShiftSum(Tiled(x, w, batch), count, -w) == Tiled(x, count * w, batch)
  {
    var v := Tiled(x, w, batch);
    forall i | 0 <= i < batch
      ensures ShiftSumAt(v, count, -w, i) == Tiled(x, count * w, batch)[i]
    {
      CopiesTileAt(x, w, count, batch, i);
    }
  }

  lemma CopiesTileAt(x: seq<real>, w: int, count: nat, batch: nat, i: nat)
    requires |x| > 0 && batch > 0 && w > 0 && count > 0 && count * w <= batch && i < batch
    requires w == |x| || w % |x| == 0
    ensures ShiftSumAt(Tiled(x, w, batch), count, -w, i) == Tiled(x, count * w, batch)[i]
  {
    hide Wrap, Sum;
    var v := Tiled(x, w, batch);
    var f := ShiftTerm(v, i, -w);
    var at := WindowOf(i, w, count);
    forall q: nat | q < count
      ensures f(q) == if q == at then x[Wrap(i - at * w, |x|)] else 0.0
    {
      CopyTerm(i, at, w, count, batch, q);
      assert q * -w == -(q * w);
      assert f(q) == v[Wrap(i - q * w, batch)];
    }
    if at < count {
      SumPoint(count, f, at);
      WrapBack(i, at, w, |x|);
    } else {
      SumZero(count, f);
    }
  }

  /** Only the copy that covers slot i contributes to it. */
  lemma CopyTerm(i: nat, at: nat, w: int, count: nat, batch: nat, q: nat)
    requires w > 0 && q < count && count * w <= batch && i < batch && at * w <= i < at * w + w
    ensures q == at ==> Wrap(i - q * w, batch) == i - at * w < w
    ensures q != at ==> Wrap(i - q * w, batch) >= w
  {
    hide Wrap;
    MulMonotone(q + 1, count, w);
    if q < at {
      MulMonotone(q + 1, at, w);
    } else if q > at {
      MulMonotone(at + 1, q, w);
    }
    CopyOffset(i, q * w, at * w, w, batch, if q < at then 0 else if q == at then 1 else 2);
  }

  /** The three positions of a copy starting at `start` against the one starting at `home`. */
  lemma CopyOffset(i: nat, start: int, home: int, w: int, batch: nat, side: nat)
    requires 0 < w && home <= i < home + w && i < batch && 0 <= start && start + w <= batch
    requires side == 0 ==> start + w <= home
    requires side == 1 ==> start == home
    requires side == 2 ==> home + w <= start
    requires side <= 2
    ensures side == 1 ==> Wrap(i - start, batch) == i - home < w
    ensures side != 1 ==> Wrap(i - start, batch) >= w
  {
    hide Wrap;
    if side == 2 {
      WrapTurn(i - start, 1, batch);
      WrapSmall(i - start + batch, batch);
    } else {
      WrapSmall(i - start, batch);
    }
  }

  lemma WrapBack(i: nat, k: nat, w: nat, n: nat)
    requires n > 0 && (w == n || w % n == 0)
    ensures Wrap(i - k * w, n) == Wrap(i, n)
  {
    var c := if w == n then 1 else w / n;
    assert w == c * n;
    assert k * w == k * c * n;
    WrapTurn(i, -(k * c), n);
    assert -(k * c) * n == -(k * c * n);
  }

  /** The number of slots the replicated input fills. */
  function Filled(r: nat, guard: nat, window: nat): nat {
    (r + guard) * window
  }

  method ReplicateInput(x: seq<real>, r: int, window: int, batch: int, guard: int, logarithmic: bool) returns (s: Option<Slots>)
    requires |x| > 0
    ensures s.None? <==> !Fits(|x|, r, window, guard, batch)
    ensures s.Some? ==> s.value == Tiled(x, Filled(r, guard, window), batch)
  {
    hide ShiftSum, Tiled, Wrap;
    var n := |x|;
    if r <= 0 || batch <= 0 {
      return None;
    }
    if window <= 0 || window % n != 0 || r * window > batch {
      return None;
    }
    var reps := window / n;
    if guard < 0 || (r + guard) * window > batch {
      return None;
    }
    FillLimits(n, r, window, guard, batch);
    var slots := SeedSlots(x, batch);
    CopiesTile(x, n, reps, batch);
    var extended := RotationSum(slots, reps, -n, logarithmic);
    CopiesTile(x, window, r + guard, batch);
    var filled := RotationSum(extended, r + guard, -window, logarithmic);
    return Some(filled);
  }

  lemma FillLimits(n: nat, r: int, window: int, guard: int, batch: int)
    requires Fits(n, r, window, guard, batch)
    ensures window / n >= 1 && window / n * n == window && window <= batch
  {
    MulMonotone(1, r, window);
    QuotientPositive(window, n) by {
      WholePositive(window, n);
    }
  }

  lemma WholePositive(x: int, b: int)
    requires x > 0 && b > 0 && x % b == 0
    ensures x >= b
  {
    if x < b {
      ModUnique(x, b, 0, x);
    }
  }

  /** slots[:n] = x over a blank vector. */
  method SeedSlots(x: seq<real>, batch: nat) returns (s: Slots)
    requires 0 < |x| <= batch
    ensures s == Tiled(x, |x|, batch)
  {
    s := Blank(batch);
    for i := 0 to |x|
      invariant |s| == batch
      invariant forall k :: 0 <= k < batch ==> s[k] == if k < i then x[k] else 0.0
    {
      s := s[i := x[i]];
    }
    forall k | 0 <= k < batch
      ensures s[k] == Tiled(x, |x|, batch)[k]
    {
      if k < |x| {
        WrapSmall(k, |x|);
      }
    }
  }

  // ----- masks

  /** The weight diagonal d serves at output i. */
  function Diagonal(w: Matrix, i: nat, d: nat): real
    requires i < |w|
  {
    w[i][Wrap(i + d, |w[0]|)]
  }

  /** The slot of replica j's first output. */
  function MaskStart(j: nat, window: nat): nat {
    j * (window + 1)
  }

  lemma MaskStartOrder(q: nat, j: nat, window: nat)
    requires q < j
    ensures MaskStart(q, window) + window + 1 <= MaskStart(j, window)
  {
    MulMonotone(q + 1, j, window + 1);
  }

  /** Replica j's contribution to the mask of group k at slot p. */
  function MaskTerm(w: Matrix, k: nat, r: nat, window: nat, p: int): nat -> real {
    (j: nat) => var i := p - MaskStart(j, window); if j + k * r < |w[0]| && 0 <= i < |w| then Diagonal(w, i, j + k * r) else 0.0
  }

  function MaskAt(w: Matrix, k: nat, r: nat, window: nat, p: int): real {
    Sum(r, MaskTerm(w, k, r, window, p))
  }

  function CombinedMask(w: Matrix, k: nat, r: nat, window: nat, batch: nat): (s: Slots)
    requires batch > 0
    ensures |s| == batch
  {
    seq(batch, p requires 0 <= p < batch => MaskAt(w, k, r, window, p))
  }

  /** Every mask entry a group writes has a slot. */
  predicate MaskInBatch(w: Matrix, r: nat, window: nat, batch: nat) {
    forall j :: 0 <= j < r && j < |w[0]| ==> MaskStart(j, window) + |w| <= batch
  }

  method DiagonalMask(w: Matrix, d: nat, j: nat, window: nat, batch: nat) returns (mask: Slots)
    requires MaskStart(j, window) + |w| <= batch
    ensures |mask| == batch
    ensures forall p :: 0 <= p < batch ==>
              mask[p] == var i := p - MaskStart(j, window); if 0 <= i < |w| then Diagonal(w, i, d) else 0.0
  {
    hide Diagonal, MaskStart;
    mask := Blank(batch);
    var start := MaskStart(j, window);
    for i := 0 to |w|
      invariant |mask| == batch
      invariant forall p :: 0 <= p < batch ==> mask[p] == if 0 <= p - start < i then Diagonal(w, p - start, d) else 0.0
    {
      mask := mask[start + i := Diagonal(w, i, d)];
    }
  }

  method BuildCombinedMask(w: Matrix, k: nat, r: nat, window: nat, batch: nat) returns (mask: Slots)
    requires batch > 0 && MaskInBatch(w, r, window, batch)
    ensures mask == CombinedMask(w, k, r, window, batch)
  {
    hide Diagonal, MaskStart;
    mask := Blank(batch);
    for j := 0 to r
      invariant |mask| == batch
      invariant forall p :: 0 <= p < batch ==> mask[p] == Sum(j, MaskTerm(w, k, r, window, p))
    {
      var d := j + k * r;
      GroupOffset(j, k, r);
      if d < |w[0]| {
        assert MaskStart(j, window) + |w| <= batch;
        var one := DiagonalMask(w, d, j, window, batch);
        mask := Plus(mask, one);
      }
      forall p | 0 <= p < batch
        ensures mask[p] == Sum(j + 1, MaskTerm(w, k, r, window, p))
      {
        assert Sum(j + 1, MaskTerm(w, k, r, window, p)) == Sum(j, MaskTerm(w, k, r, window, p)) + MaskTerm(w, k, r, window, p)(j);
      }
    }
  }

  lemma GroupOffset(j: nat, k: nat, r: nat)
    ensures k * r >= 0 && j <= j + k * r
  {
  }

  // ----- the two schedules

  /** One group: the input moved by k*r, weighted by its mask. */
  function Group(w: Matrix, slots: Slots, k: nat, r: nat, window: nat): (g: Slots)
    ensures |g| == |slots|
  {
    Mask(Roll(slots, -(k * r)), CombinedMask(w, k, r, window, |slots|))
  }

  /** The sum of the first `groups` groups. */
  function Accumulated(w: Matrix, slots: Slots, groups: nat, r: nat, window: nat): (a: Slots)
    ensures |a| == |slots|
  {
    if groups == 0 then Blank(|slots|) else Plus(Accumulated(w, slots, groups - 1, r, window), Group(w, slots, groups - 1, r, window))
  }

  function Fold(acc: Slots, r: nat, window: nat): (f: Slots)
    ensures |f| == |acc|
  {
    ShiftSum(acc, r, window + 1)
  }

  method ReplicatedMatmul(w: Matrix, x: seq<real>, r: int, window: int, batch: int, guard: int, logarithmic: bool) returns (y: Option<Slots>)
    requires |x| == |w[0]|
    requires Fits(|x|, r, window, guard, batch) ==> MaskInBatch(w, r, window, batch)
    ensures y.None? <==> !Fits(|x|, r, window, guard, batch)
    ensures y.Some? ==> |y.value| == batch
    ensures y.Some? ==> y.value == Fold(Accumulated(w, Tiled(x, Filled(r, guard, window), batch), CeilDiv(|x|, r), r, window), r, window)
  {
    hide Accumulated, Tiled, ShiftSum, Group, MaskInBatch;
    var slots := ReplicateInput(x, r, window, batch, guard, logarithmic);
    if slots.None? {
      return None;
    }
    var acc := Blank(batch);
    EmptyAccumulated(w, slots.value, r, window);
    var groups := CeilDiv(|x|, r);
    for k := 0 to groups
      invariant |acc| == batch && acc == Accumulated(w, slots.value, k, r, window)
    {
      var mask := BuildCombinedMask(w, k, r, window, batch);
      GroupIs(w, slots.value, k, r, window);
      acc := Plus(acc, Mask(Roll(slots.value, -(k * r)), mask));
    }
    var folded := RotationSum(acc, r, window + 1, logarithmic || IsPowerOfTwo(r));
    return Some(folded);
  }

  lemma EmptyAccumulated(w: Matrix, slots: Slots, r: nat, window: nat)
    ensures Accumulated(w, slots, 0, r, window) == Blank(|slots|)
  {
  }

  lemma GroupIs(w: Matrix, slots: Slots, k: nat, r: nat, window: nat)
    ensures Accumulated(w, slots, k + 1, r, window)
         == Plus(Accumulated(w, slots, k, r, window), Mask(Roll(slots, -(k * r)), CombinedMask(w, k, r, window, |slots|)))
  {
  }

  /** The baby-step default: the integer square root, at least one. */
  method IntegerSquareRoot(n: nat) returns (s: nat)
    ensures s * s <= n < (s + 1) * (s + 1)
  {
    s := 0;
    while (s + 1) * (s + 1) <= n
      invariant s * s <= n
      decreases n - s
    {
      s := s + 1;
    }
  }

  method BsgsSplit(count: nat, babyStep: Option<int>) returns (r: Option<(nat, nat)>)
    ensures r.None? <==> count == 0 || (babyStep.Some? && babyStep.value <= 0)
    ensures r.Some? ==> r.value.0 >= 1 && r.value.1 == CeilDiv(count, r.value.0)
    ensures r.Some? && babyStep.Some? ==> r.value.0 == babyStep.value
  {
    if count == 0 {
      return None;
    }
    var baby;
    if babyStep.None? {
      baby := IntegerSquareRoot(count);
      baby := if baby < 1 then 1 else baby;
    } else {
      baby := babyStep.value;
    }
    if baby <= 0 {
      return None;
    }
    return Some((baby, CeilDiv(count, baby)));
  }

  method ReplicatedBsgsMatmul(w: Matrix, x: seq<real>, r: int, window: int, batch: int, babyStep: Option<int>, guard: int, logarithmic: bool)
    returns (y: Option<Slots>)
    requires |x| == |w[0]|
    requires Fits(|x|, r, window, guard, batch) ==> MaskInBatch(w, r, window, batch)
    ensures y.None? <==> !Fits(|x|, r, window, guard, batch) || (babyStep.Some? && babyStep.value <= 0)
    ensures y.Some? ==> |y.value| == batch
    ensures y.Some? ==> y.value == Fold(Accumulated(w, Tiled(x, Filled(r, guard, window), batch), CeilDiv(|x|, r), r, window), r, window)
  {
    hide *;
    var replicated := ReplicateInput(x, r, window, batch, guard, logarithmic);
    if replicated.None? {
      return None;
    }
    FitsMeans(|x|, r, window, guard, batch);
    var slots := replicated.value;
    TiledLength(x, Filled(r, guard, window), batch);
    CeilMeans(|x|, r);
    var groups := CeilDiv(|x|, r);
    var split := BsgsSplit(groups, babyStep);
    if split.None? {
      return None;
    }
    var (baby, giants) := split.value;
    GiantBounds(0, baby, giants, groups);
    var babies := seq(baby, i requires 0 <= i < baby => Roll(slots, -(i * r)));
    var acc := Blank(batch);
    EmptyAccumulated(w, slots, r, window);
    for giant := 0 to giants
      invariant |acc| == batch && acc == Accumulated(w, slots, Least(giant * baby, groups), r, window)
    {
      var offset := giant * baby * r;
      var inner := Blank(batch);
      ghost var base := acc;
      GiantStart(base, offset);
      GiantBounds(giant, baby, giants, groups);
      ghost var index' := 0;
      for index := 0 to baby
        invariant |inner| == batch && index' == index
        invariant Plus(base, Roll(inner, -offset)) == Accumulated(w, slots, Least(giant * baby + index, groups), r, window)
      {
        var k := giant * baby + index;
        LeastMeans(k, groups);
        LeastMeans(k + 1, groups);
        LeastMeans(giant * baby + baby, groups);
        if k >= groups {
          break;
        }
        var mask := BuildCombinedMask(w, k, r, window, batch);
        GiantAdds(w, slots, base, inner, giant, baby, index, r, window);
        inner := Plus(inner, Mask(babies[index], Roll(mask, offset)));
        index' := index + 1;
      }
      acc := Plus(acc, Roll(inner, -offset));
    }
    LeastMeans(giants * baby, groups);
    FoldIs(acc, r, window);
    var folded := RotationSum(acc, r, window + 1, logarithmic || IsPowerOfTwo(r));
    return Some(folded);
  }

  function Least(a: nat, b: nat): nat {
    if a <= b then a else b
  }

  lemma LeastMeans(a: nat, b: nat)
    ensures Least(a, b) == if a <= b then a else b
  {
  }

  lemma FitsMeans(n: int, r: int, window: int, guard: int, batch: int)
    requires Fits(n, r, window, guard, batch)
    ensures r > 0 && batch > 0 && window > 0 && guard >= 0 && (r + guard) * window >= 0
  {
  }

  lemma TiledLength(x: seq<real>, filled: nat, batch: nat)
    requires |x| > 0 && batch > 0
    ensures |Tiled(x, filled, batch)| == batch
  {
  }

  lemma FoldIs(acc: Slots, r: nat, window: nat)
    ensures Fold(acc, r, window) == ShiftSum(acc, r, window + 1)
  {
  }

  lemma GiantBounds(giant: nat, baby: nat, giants: nat, groups: nat)
    requires giant <= giants && baby >= 1 && giants == CeilDiv(groups, baby)
    ensures (giant + 1) * baby == giant * baby + baby && 0 * baby == 0
    ensures giants * baby >= groups
    ensures Least(0, groups) == 0
  {
    CeilMeans(groups, baby);
  }

  lemma GiantStart(base: Slots, offset: int)
    ensures Plus(base, Roll(Blank(|base|), -offset)) == base
  {
    forall i | 0 <= i < |base|
      ensures Plus(base, Roll(Blank(|base|), -offset))[i] == base[i]
    {
      assert Wrap(i + offset, |base|) < |base|;
    }
  }

  /** Rotating the pre-rotated product back gives group giant*baby + index. */
  lemma GiantAdds(w: Matrix, slots: Slots, base: Slots, inner: Slots, giant: nat, baby: nat, index: nat, r: nat, window: nat)
    requires |base| == |inner| == |slots|
    requires Plus(base, Roll(inner, -(giant * baby * r))) == Accumulated(w, slots, giant * baby + index, r, window)
    ensures var k, offset := giant * baby + index, giant * baby * r;
            var mask := CombinedMask(w, k, r, window, |slots|);
            Plus(base, Roll(Plus(inner, Mask(Roll(slots, -(index * r)), Roll(mask, offset))), -offset))
            == Accumulated(w, slots, k + 1, r, window)
  {
    hide *;
    var k, offset := giant * baby + index, giant * baby * r;
    var mask := CombinedMask(w, k, r, window, |slots|);
    var moved := Mask(Roll(slots, -(index * r)), Roll(mask, offset));
    SplitProduct(giant * baby, index, r);
    RollPlus(inner, moved, -offset);
    RollMask(Roll(slots, -(index * r)), Roll(mask, offset), -offset);
    RollRoll(slots, -(index * r), -offset);
    RollRoll(mask, offset, -offset);
    RollNone(mask);
    assert -(index * r) + -offset == -(k * r);
    GroupIs(w, slots, k, r, window);
    PlusAssociates(base, Roll(inner, -offset), Mask(Roll(slots, -(k * r)), mask));
  }

  lemma PlusAssociates(a: Slots, b: Slots, c: Slots)
    requires |a| == |b| == |c|
    ensures Plus(a, Plus(b, c)) == Plus(Plus(a, b), c)
  {
  }

  // ----- correctness

  /** Diagonal d's contribution to output i, read from the replica that serves it. */
  function Read(w: Matrix, slots: Slots, i: nat, r: nat, window: nat): nat -> real
    requires i < |w| && r > 0
  {
    (d: nat) => if d < |w[0]| then Times(Diagonal(w, i, d), slots[Wrap(d % r * window + i + d, |slots|)]) else 0.0
  }

  /** What replica j adds to output i in group k. */
  function Cell(w: Matrix, slots: Slots, i: nat, r: nat, window: nat, j: nat): nat -> real
    requires i < |w| && r > 0
  {
    (k: nat) => Read(w, slots, i, r, window)(k * r + j)
  }

  /** No replica's outputs fall on another's. */
  predicate Apart(m: nat, r: nat, window: nat) {
    r == 1 || m <= window + 1
  }

  /** Before any tiling is assumed: output slot i is the sum of all diagonal reads. */
  lemma FoldedSlot(w: Matrix, slots: Slots, r: nat, window: nat, i: nat)
    requires r > 0 && i < |w| && Apart(|w|, r, window) && MaskStart(r - 1, window) + |w| <= |slots|
    ensures i < |slots| && Fold(Accumulated(w, slots, CeilDiv(|w[0]|, r), r, window), r, window)[i]
         == Sum(|w[0]|, Read(w, slots, i, r, window))
  {
    hide Accumulated, Sum, Read, Wrap, MaskStart, CeilDiv;
    var groups := CeilDiv(|w[0]|, r);
    var acc := Accumulated(w, slots, groups, r, window);
    var f := ShiftTerm(acc, i, window + 1);
    var g := ReplicaSum(w, slots, i, r, window, groups);
    forall j: nat | j < r
      ensures f(j) == g(j)
    {
      ReplicaSlot(w, slots, r, window, i, j, groups);
    }
    SumExt(r, f, g);
    SwapSums(groups, r, w, slots, i, window);
    BlockSum(groups, r, Read(w, slots, i, r, window));
    CeilMeans(|w[0]|, r);
    ReadTail(w, slots, i, r, window);
    DropTail(|w[0]|, groups * r, Read(w, slots, i, r, window));
  }

  lemma ReadTail(w: Matrix, slots: Slots, i: nat, r: nat, window: nat)
    requires i < |w| && r > 0
    ensures forall d: nat :: d >= |w[0]| ==> Read(w, slots, i, r, window)(d) == 0.0
  {
  }

  function ReplicaSum(w: Matrix, slots: Slots, i: nat, r: nat, window: nat, groups: nat): nat -> real
    requires i < |w| && r > 0
  {
    (j: nat) => Sum(groups, Cell(w, slots, i, r, window, j))
  }

  /** The accumulator slot that folding sends from replica j to output i. */
  lemma ReplicaSlot(w: Matrix, slots: Slots, r: nat, window: nat, i: nat, j: nat, groups: nat)
    requires j < r && i < |w| && Apart(|w|, r, window) && MaskStart(r - 1, window) + |w| <= |slots|
    ensures Accumulated(w, slots, groups, r, window)[Wrap(i + j * (window + 1), |slots|)] == Sum(groups, Cell(w, slots, i, r, window, j))
  {
    hide *;
    MaskStartIs(j, window);
    if j < r - 1 {
      MaskStartOrder(j, r - 1, window);
    }
    WrapSmall(i + MaskStart(j, window), |slots|);
    AccumulatedSlot(w, slots, groups, r, window, i, j);
  }

  lemma MaskStartIs(j: nat, window: nat)
    ensures MaskStart(j, window) == j * (window + 1) == j * window + j
  {
  }

  lemma {:induction false} AccumulatedSlot(w: Matrix, slots: Slots, groups: nat, r: nat, window: nat, i: nat, j: nat)
    requires j < r && i < |w| && Apart(|w|, r, window) && i + MaskStart(j, window) < |slots|
    ensures Accumulated(w, slots, groups, r, window)[i + MaskStart(j, window)] == Sum(groups, Cell(w, slots, i, r, window, j))
  {
    hide MaskStart, Group, Cell, Read, MaskAt, Diagonal;
    if groups > 0 {
      var k := groups - 1;
      AccumulatedSlot(w, slots, k, r, window, i, j);
      MaskSlot(w, k, r, window, i, j);
      CellIs(w, slots, i, r, window, j, k);
    }
  }

  /** At its own slot only replica j's diagonal is in the combined mask. */
  lemma MaskSlot(w: Matrix, k: nat, r: nat, window: nat, i: nat, j: nat)
    requires j < r && i < |w| && Apart(|w|, r, window)
    ensures MaskAt(w, k, r, window, i + MaskStart(j, window)) == if j + k * r < |w[0]| then Diagonal(w, i, j + k * r) else 0.0
  {
    hide *;
    var p := i + MaskStart(j, window);
    var f := MaskTerm(w, k, r, window, p);
    forall q: nat | q < r
      ensures q == j ==> f(q) == if j + k * r < |w[0]| then Diagonal(w, i, j + k * r) else 0.0
      ensures q != j ==> f(q) == 0.0
    {
      ApartMeans(|w|, r, window);
      MaskTermIs(w, k, r, window, i, j, q);
    }
    SumPoint(r, f, j);
    MaskAtIs(w, k, r, window, p);
  }

  lemma MaskAtIs(w: Matrix, k: nat, r: nat, window: nat, p: int)
    ensures MaskAt(w, k, r, window, p) == Sum(r, MaskTerm(w, k, r, window, p))
  {
  }

  lemma ApartMeans(m: nat, r: nat, window: nat)
    ensures Apart(m, r, window) <==> r == 1 || m <= window + 1
  {
  }

  lemma MaskTermIs(w: Matrix, k: nat, r: nat, window: nat, i: nat, j: nat, q: nat)
    requires i < |w| && (q == j || |w| <= window + 1)
    ensures var f := MaskTerm(w, k, r, window, i + MaskStart(j, window));
            f(q) == if q == j && j + k * r < |w[0]| then Diagonal(w, i, j + k * r) else 0.0
  {
    hide Diagonal, MaskStart;
    if q < j {
      MaskStartOrder(q, j, window);
    } else if q > j {
      MaskStartOrder(j, q, window);
    }
  }

  lemma CellIs(w: Matrix, slots: Slots, i: nat, r: nat, window: nat, j: nat, k: nat)
    requires j < r && i < |w| && i + MaskStart(j, window) < |slots|
    requires MaskAt(w, k, r, window, i + MaskStart(j, window)) == if j + k * r < |w[0]| then Diagonal(w, i, j + k * r) else 0.0
    ensures Group(w, slots, k, r, window)[i + MaskStart(j, window)] == Cell(w, slots, i, r, window, j)(k)
  {
    hide Diagonal, MaskAt, Wrap, Times, MaskStart;
    var d := k * r + j;
    var at := i + MaskStart(j, window) - -(k * r);
    ModUnique(d, r, k, j);
    MaskStartIs(j, window);
    assert at == d % r * window + i + d;
    TimesZero(slots[Wrap(at, |slots|)]);
    TimesCommutes(slots[Wrap(at, |slots|)], Diagonal(w, i, d));
  }

  /** Summing replicas of groups is summing groups of replicas. */
  lemma {:induction false} SwapSums(groups: nat, r: nat, w: Matrix, slots: Slots, i: nat, window: nat)
    requires i < |w| && r > 0
    ensures Sum(r, ReplicaSum(w, slots, i, r, window, groups)) == Sum(groups, BlockTotal(r, Read(w, slots, i, r, window)))
  {
    hide Read;
    if groups == 0 {
      SumZero(r, ReplicaSum(w, slots, i, r, window, 0));
    } else {
      var k := groups - 1;
      SwapSums(k, r, w, slots, i, window);
      SumAdd(r, ReplicaSum(w, slots, i, r, window, k), BlockTerm(r, k, Read(w, slots, i, r, window)), ReplicaSum(w, slots, i, r, window, groups));
    }
  }

  /** Entry k*r + j of f, as a function of j. */
  function BlockTerm(r: nat, k: nat, f: nat -> real): nat -> real {
    (j: nat) => f(k * r + j)
  }

  function BlockTotal(r: nat, f: nat -> real): nat -> real {
    (k: nat) => Sum(r, BlockTerm(r, k, f))
  }

  /** Blocks of r consecutive entries make one long sum. */
  lemma {:induction false} BlockSum(groups: nat, r: nat, f: nat -> real)
    ensures groups * r >= 0 && Sum(groups, BlockTotal(r, f)) == Sum(groups * r, f)
  {
    if groups > 0 {
      BlockSum(groups - 1, r, f);
      assert groups * r == (groups - 1) * r + r;
      SumSplit((groups - 1) * r, r, f, BlockTerm(r, groups - 1, f));
    }
  }

  lemma {:induction false} DropTail(n: nat, m: nat, f: nat -> real)
    requires n <= m && forall d: nat :: d >= n ==> f(d) == 0.0
    ensures Sum(m, f) == Sum(n, f)
  {
    if m > n {
      DropTail(n, m - 1, f);
    }
  }

  /** Every read of a safe layout sees the entry of x it should. */
  lemma ReadSafe(w: Matrix, x: seq<real>, r: nat, window: nat, guard: nat, batch: nat, i: nat, d: nat)
    requires |x| == |w[0]| && i < |w| && d < |x| && r > 0
    requires Fits(|x|, r, window, guard, batch) && Safe(|w|, |x|, window, guard)
    ensures Read(w, Tiled(x, Filled(r, guard, window), batch), i, r, window)(d)
         == Times(w[i][Wrap(i + d, |x|)], x[Wrap(i + d, |x|)])
  {
    hide *;
    var j := d % r;
    var n, at := |x|, j * window + i + d;
    FitsFilled(n, r, window, guard, batch);
    ReadInside(j, r, window, guard, i, d, |w|, n);
    WrapSmall(at, batch);
    WrapBack(at, j, window, n);
    ReadIs(w, Tiled(x, Filled(r, guard, window), batch), i, r, window, d);
    TiledAt(x, Filled(r, guard, window), batch, at);
  }

  lemma FitsFilled(n: nat, r: nat, window: nat, guard: nat, batch: nat)
    requires Fits(n, r, window, guard, batch)
    ensures Filled(r, guard, window) <= batch && window % n == 0 && batch > 0 && window > 0
  {
  }

  lemma ReadIs(w: Matrix, slots: Slots, i: nat, r: nat, window: nat, d: nat)
    requires i < |w| && d < |w[0]| && r > 0
    ensures Read(w, slots, i, r, window)(d) == Times(w[i][Wrap(i + d, |w[0]|)], slots[Wrap(d % r * window + i + d, |slots|)])
  {
  }

  lemma TiledAt(x: seq<real>, filled: nat, batch: nat, at: nat)
    requires |x| > 0 && batch > 0 && at < filled <= batch
    ensures |Tiled(x, filled, batch)| == batch && Tiled(x, filled, batch)[at] == x[Wrap(at, |x|)]
  {
  }

  lemma ReadInside(j: nat, r: nat, window: nat, guard: nat, i: nat, d: nat, m: nat, n: nat)
    requires j < r && i < m && d < n && Safe(m, n, window, guard)
    ensures j * window + i + d < Filled(r, guard, window) && j * window + i + d - j * window == i + d
  {
    MulMonotone(j, r - 1, window);
    SplitProduct(r - 1, 1 + guard, window);
    assert r - 1 + (1 + guard) == r + guard;
  }

  /** A cyclic walk along a row meets every column once. */
  lemma RowWalk(row: seq<real>, x: seq<real>, i: nat, f: nat -> real)
    requires |row| == |x| > 0
    requires forall d: nat :: d < |x| ==> f(d) == Times(row[Wrap(i + d, |x|)], x[Wrap(i + d, |x|)])
    ensures Sum(|x|, f) == Sum(|x|, RowTerm(row, x))
  {
    hide *;
    var n := |x|;
    var start := Wrap(i, n);
    var g := RowTerm(row, x);
    var head, tail := Shifted(f, n - start), Shifted(g, start);
    forall d: nat | d < n - start
      ensures f(d) == tail(d)
    {
      WalkAt(row, x, i, f, d);
    }
    forall d: nat | d < start
      ensures head(d) == g(d)
    {
      WalkAt(row, x, i, f, n - start + d);
      assert n - start + d - (n - start) == d;
    }
    ShiftedAt(f, n - start);
    ShiftedAt(g, start);
    SumSplit(n - start, start, f, head);
    SumSplit(start, n - start, g, tail);
    SumExt(n - start, f, tail);
    SumExt(start, head, g);
    assert n - start + start == n && start + (n - start) == n;
  }

  lemma ShiftedAt(f: nat -> real, start: nat)
    ensures forall d: nat :: Shifted(f, start)(d) == f(start + d)
  {
  }

  lemma WalkAt(row: seq<real>, x: seq<real>, i: nat, f: nat -> real, d: nat)
    requires |row| == |x| > d && f(d) == Times(row[Wrap(i + d, |x|)], x[Wrap(i + d, |x|)])
    ensures var n, start := |x|, Wrap(i, |x|);
            && (d < n - start ==> f(d) == Shifted(RowTerm(row, x), start)(d))
            && (d >= n - start ==> Shifted(f, n - start)(d - (n - start)) == RowTerm(row, x)(d - (n - start)))
  {
    hide Wrap, Times;
    var n, start := |x|, Wrap(i, |x|);
    WrapAdd(i, d, n);
    if d < n - start {
      WrapSmall(start + d, n);
    } else {
      WrapTurn(start + d, -1, n);
      WrapSmall(start + d - n, n);
    }
  }

  function Shifted(f: nat -> real, start: nat): nat -> real {
    (d: nat) => f(start + d)
  }

  /** The fold and accumulation of a safe layout leave W*x in the leading slots. */
  lemma MatmulCorrect(w: Matrix, x: seq<real>, r: nat, window: nat, guard: nat, batch: nat, i: nat)
    requires |x| == |w[0]| && i < |w| <= batch && 0 < r <= |x|
    requires Fits(|x|, r, window, guard, batch) && Safe(|w|, |x|, window, guard)
    ensures Fold(Accumulated(w, Tiled(x, Filled(r, guard, window), batch), CeilDiv(|x|, r), r, window), r, window)[i] == Product(w, x, i)
  {
    hide Accumulated, Sum, Fits, Safe, MaskStart, Wrap, CeilDiv, Times, Tiled, Read, Fold;
    SafeMasks(w, r, window, guard, batch);
    ApartMeans(|w|, r, window);
    var slots := Tiled(x, Filled(r, guard, window), batch);
    var f := Read(w, slots, i, r, window);
    FoldedSlot(w, slots, r, window, i);
    forall d: nat | d < |x|
      ensures f(d) == Times(w[i][Wrap(i + d, |x|)], x[Wrap(i + d, |x|)])
    {
      ReadSafe(w, x, r, window, guard, batch, i, d);
    }
    RowWalk(w[i], x, i, f);
  }

  /** Safe layouts keep every mask entry inside the batch. */
  lemma SafeMasks(w: Matrix, r: nat, window: nat, guard: nat, batch: nat)
    requires Fits(|w[0]|, r, window, guard, batch) && Safe(|w|, |w[0]|, window, guard) && 0 < r <= |w[0]|
    ensures |w| <= window + 1 && |w| <= batch && batch > 0
    ensures MaskStart(r - 1, window) + |w| <= batch && MaskInBatch(w, r, window, batch)
  {
    var n := |w[0]|;
    MaskStartIs(r - 1, window);
    ReadInside(r - 1, r, window, guard, |w| - 1, n - 1, |w|, n);
    hide MaskStart;
    forall j | 0 <= j < r
      ensures MaskStart(j, window) + |w| <= batch
    {
      if j < r - 1 {
        MaskStartOrder(j, r - 1, window);
      }
    }
  }

  /** Both schedules, with any baby step and either rotation sum, leave exactly W*x in slots [0, m) and agree everywhere. */
  method MultiplyBothWays(w: Matrix, x: seq<real>, r: nat, window: nat, batch: nat, babyStep: Option<int>, guard: nat,
                          logarithmic: bool, logarithmicBsgs: bool)
    returns (direct: Slots, bsgs: Slots)
    requires |x| == |w[0]| && 0 < r <= |x| && (babyStep.Some? ==> babyStep.value > 0)
    requires Fits(|x|, r, window, guard, batch) && Safe(|w|, |x|, window, guard)
    ensures |direct| == batch >= |w| && bsgs == direct
    ensures forall i: nat :: i < |w| ==> direct[i] == Product(w, x, i)
  {
    hide *;
    SafeMasks(w, r, window, guard, batch);
    var a := ReplicatedMatmul(w, x, r, window, batch, guard, logarithmic);
    var b := ReplicatedBsgsMatmul(w, x, r, window, batch, babyStep, guard, logarithmicBsgs);
    direct, bsgs := a.value, b.value;
    forall i: nat | i < |w|
      ensures direct[i] == Product(w, x, i)
    {
      MatmulCorrect(w, x, r, window, guard, batch, i);
    }
  }

  // ----- which layouts are right

  /** What either schedule leaves in the slots. */
  function Result(w: Matrix, x: seq<real>, r: nat, window: nat, guard: nat, batch: nat): (s: Slots)
    requires |x| > 0 && r > 0 && batch > 0
    ensures |s| == batch
  {
    Fold(Accumulated(w, Tiled(x, Filled(r, guard, window), batch), CeilDiv(|w[0]|, r), r, window), r, window)
  }

  /** The layout multiplies every m by n matrix with every vector. */
  ghost predicate AlwaysProduct(m: nat, n: nat, r: nat, window: nat, guard: nat, batch: nat)
    requires n > 0 && r > 0 && m <= batch && batch > 0
  {
    forall w: Matrix, x: seq<real> {:trigger Result(w, x, r, window, guard, batch)} :: |w| == m && |w[0]| == n == |x| ==>
      forall i: nat :: i < m ==> Result(w, x, r, window, guard, batch)[i] == Product(w, x, i)
  }

  /** Diagonal d of output i reads a filled slot that holds the right entry of x. */
  predicate ReadLands(i: nat, d: nat, n: nat, r: nat, window: nat, guard: nat, batch: nat)
    requires n > 0 && r > 0 && batch > 0
  {
    var at := Wrap(d % r * window + i + d, batch);
    at < Filled(r, guard, window) && Wrap(at, n) == Wrap(i + d, n)
  }

  predicate ReadsLand(m: nat, n: nat, r: nat, window: nat, guard: nat, batch: nat)
    requires n > 0 && r > 0 && batch > 0
  {
    forall i: nat, d: nat :: i < m && d < n ==> ReadLands(i, d, n, r, window, guard, batch)
  }

  /**
   * A layout whose masks stay in the batch is right for all data if and only if no replica's outputs fall on another's and
   * every read lands.
   */
  lemma LayoutExact(m: nat, n: nat, r: nat, window: nat, guard: nat, batch: nat)
    requires Fits(n, r, window, guard, batch) && 0 < r <= n
    requires 0 < m && MaskStart(r - 1, window) + m <= batch
    ensures m <= batch
    ensures AlwaysProduct(m, n, r, window, guard, batch) <==> Apart(m, r, window) && ReadsLand(m, n, r, window, guard, batch)
  {
    hide *;
    LayoutBounds(n, r, window, guard, batch);
    if !Apart(m, r, window) {
      OverlapFails(m, n, r, window, guard, batch);
    } else if ReadsLand(m, n, r, window, guard, batch) {
      forall w: Matrix, x: seq<real>, i: nat | |w| == m && |w[0]| == n == |x| && i < m
        ensures Result(w, x, r, window, guard, batch)[i] == Product(w, x, i)
      {
        LandedProduct(w, x, r, window, guard, batch, i);
      }
      AlwaysMeans(m, n, r, window, guard, batch);
    } else {
      var i, d := LostRead(m, n, r, window, guard, batch);
      var c := Wrap(i + d, n);
      var w, x := Indicator(m, n, i, c), Point(n, c);
      IndicatorRow(m, n, i, c);
      PointMeans(n, c);
      LostEntry(w, x, r, window, guard, batch, i, d);
      if AlwaysProduct(m, n, r, window, guard, batch) {
        AlwaysAt(w, x, r, window, guard, batch, i);
      }
    }
  }

  // A row stored one window too far down also adds to the output of the replica before.

  ghost predicate Nonnegative(v: seq<real>) {
    forall p :: 0 <= p < |v| ==> v[p] >= 0.0
  }

  ghost predicate NonnegativeMatrix(w: Matrix) {
    forall i :: 0 <= i < |w| ==> Nonnegative(w[i])
  }

  lemma OverlapFails(m: nat, n: nat, r: nat, window: nat, guard: nat, batch: nat)
    requires Fits(n, r, window, guard, batch) && 0 < r <= n && 0 < m <= batch && !Apart(m, r, window)
    requires batch > 0
    ensures !AlwaysProduct(m, n, r, window, guard, batch)
  {
    hide *;
    ApartMeans(m, r, window);
    LayoutBounds(n, r, window, guard, batch);
    var i := window + 1;
    var w, x := Indicator(m, n, 0, 1), Point(n, 1);
    IndicatorRow(m, n, 0, 1);
    IndicatorOther(m, n, 0, 1, i);
    PointMeans(n, 1);
    ZeroRow(w, x, i);
    OverlapAdds(w, x, r, window, guard, batch);
    if AlwaysProduct(m, n, r, window, guard, batch) {
      AlwaysAt(w, x, r, window, guard, batch, i);
    }
  }

  lemma IndicatorOther(m: nat, n: nat, i: nat, c: nat, other: nat)
    requires i < m && other < m && other != i && n > 0
    ensures var w := Indicator(m, n, i, c); NonnegativeMatrix(w) && forall q :: 0 <= q < |w[other]| ==> w[other][q] == 0.0
  {
  }

  lemma ZeroRow(w: Matrix, x: seq<real>, i: nat)
    requires i < |w| && |x| == |w[0]| && forall q :: 0 <= q < |w[i]| ==> w[i][q] == 0.0
    ensures Product(w, x, i) == 0.0
  {
    hide *;
    ProductIs(w, x, i);
    forall e: nat | e < |x|
      ensures RowTerm(w[i], x)(e) == 0.0
    {
      RowTermIs(w[i], x, e);
      TimesZero(x[e]);
    }
    SumZero(|x|, RowTerm(w[i], x));
  }

  /** Row 0 of replica 1 stands on slot window + 1. */
  lemma OverlapAdds(w: Matrix, x: seq<real>, r: nat, window: nat, guard: nat, batch: nat)
    requires |x| == |w[0]| && 2 <= r <= |x| && window + 1 < |w| <= batch && Fits(|x|, r, window, guard, batch)
    requires NonnegativeMatrix(w) && w[0] == x == Point(|x|, 1) && batch > 0
    ensures Result(w, x, r, window, guard, batch)[window + 1] >= 1.0
  {
    hide *;
    var n, p := |x|, window + 1;
    LayoutBounds(n, r, window, guard, batch);
    WholePositive(window, n);
    PointMeans(n, 1);
    var filled := Filled(r, guard, window);
    var slots := Tiled(x, filled, batch);
    TiledLength(x, filled, batch);
    FilledTwice(r, guard, window);
    TiledAt(x, filled, batch, p);
    NextWindow(window, n);
    TiledNonnegative(x, filled, batch);
    CeilMeans(n, r);
    AccumulatedAtLeast(w, slots, CeilDiv(n, r), r, window, p);
    FirstGroupAt(w, slots, r, window);
    ResultIs(w, x, r, window, guard, batch);
    FoldAtLeast(Accumulated(w, slots, CeilDiv(n, r), r, window), r, window, p);
  }

  lemma FilledTwice(r: nat, guard: nat, window: nat)
    requires r >= 2 && window >= 2
    ensures window + 1 < Filled(r, guard, window)
  {
    MulMonotone(2, r + guard, window);
  }

  lemma NextWindow(window: nat, n: nat)
    requires n >= 2 && window % n == 0
    ensures Wrap(window + 1, n) == 1
  {
    ModUnique(window + 1, n, window / n, 1);
  }

  lemma TiledNonnegative(x: seq<real>, filled: nat, batch: nat)
    requires |x| > 0 && batch > 0 && forall k: nat :: k < |x| ==> x[k] == 0.0 || x[k] == 1.0
    ensures Nonnegative(Tiled(x, filled, batch))
  {
    hide Wrap;
  }

  lemma MaskNonnegative(w: Matrix, k: nat, r: nat, window: nat, p: int)
    requires NonnegativeMatrix(w)
    ensures MaskAt(w, k, r, window, p) >= 0.0
    ensures forall j: nat :: j < r ==> MaskAt(w, k, r, window, p) >= MaskTerm(w, k, r, window, p)(j)
  {
    hide *;
    var f := MaskTerm(w, k, r, window, p);
    forall j: nat | j < r
      ensures f(j) >= 0.0
    {
      TermNonnegative(w, k, r, window, p, j);
    }
    MaskAtIs(w, k, r, window, p);
    SumNonneg(r, f);
    forall j: nat | j < r
      ensures MaskAt(w, k, r, window, p) >= f(j)
    {
      SumAtLeast(r, f, j);
    }
  }

  lemma TermNonnegative(w: Matrix, k: nat, r: nat, window: nat, p: int, j: nat)
    requires NonnegativeMatrix(w)
    ensures MaskTerm(w, k, r, window, p)(j) >= 0.0
  {
    hide Wrap, MaskStart;
    var i := p - MaskStart(j, window);
    if 0 <= i < |w| {
      assert Nonnegative(w[i]);
    }
  }

  lemma GroupNonnegative(w: Matrix, slots: Slots, k: nat, r: nat, window: nat, p: nat)
    requires NonnegativeMatrix(w) && Nonnegative(slots) && p < |slots|
    ensures Group(w, slots, k, r, window)[p] >= 0.0
  {
    MaskNonnegative(w, k, r, window, p);
    hide MaskAt, Wrap, Times;
    var at := Wrap(p - -(k * r), |slots|);
    NonnegativeTimes(slots[at], MaskAt(w, k, r, window, p));
  }

  lemma NonnegativeTimes(x: real, y: real)
    requires x >= 0.0 && y >= 0.0
    ensures Times(x, y) >= 0.0
  {
  }

  lemma {:induction false} AccumulatedAtLeast(w: Matrix, slots: Slots, groups: nat, r: nat, window: nat, p: nat)
    requires NonnegativeMatrix(w) && Nonnegative(slots) && p < |slots|
    ensures Nonnegative(Accumulated(w, slots, groups, r, window))
    ensures groups > 0 ==> Accumulated(w, slots, groups, r, window)[p] >= Group(w, slots, 0, r, window)[p]
  {
    hide Group;
    if groups > 0 {
      var last := Group(w, slots, groups - 1, r, window);
      AccumulatedAtLeast(w, slots, groups - 1, r, window, p);
      forall q: nat | q < |slots|
        ensures last[q] >= 0.0
      {
        GroupNonnegative(w, slots, groups - 1, r, window, q);
      }
    }
  }

  lemma FirstGroupAt(w: Matrix, slots: Slots, r: nat, window: nat)
    requires |w[0]| >= 2 && r >= 2 && window + 1 < |slots| && slots[window + 1] == 1.0
    requires NonnegativeMatrix(w) && w[0][1] == 1.0
    ensures Group(w, slots, 0, r, window)[window + 1] >= 1.0
  {
    MaskNonnegative(w, 0, r, window, window + 1);
    SecondStart(w, r, window);
    WrapSmall(window + 1, |slots|);
    TimesOne(MaskAt(w, 0, r, window, window + 1));
    hide MaskAt, Wrap, Times, MaskTerm;
    assert MaskAt(w, 0, r, window, window + 1) >= MaskTerm(w, 0, r, window, window + 1)(1);
    assert window + 1 - -(0 * r) == window + 1;
  }

  lemma SecondStart(w: Matrix, r: nat, window: nat)
    requires |w[0]| >= 2
    ensures MaskTerm(w, 0, r, window, window + 1)(1) == w[0][1]
  {
    WrapSmall(1, |w[0]|);
    assert MaskStart(1, window) == window + 1;
    assert 1 + 0 * r == 1;
  }

  lemma FoldAtLeast(acc: Slots, r: nat, window: nat, p: nat)
    requires Nonnegative(acc) && p < |acc| && r > 0
    ensures Fold(acc, r, window)[p] >= acc[p]
  {
    hide Sum;
    var f := ShiftTerm(acc, p, window + 1);
    forall j: nat | j < r
      ensures f(j) >= 0.0
    {
      hide Wrap;
    }
    WrapSmall(p, |acc|);
    assert p + 0 * (window + 1) == p;
    SumAtLeast(r, f, 0);
  }

  lemma LayoutBounds(n: nat, r: nat, window: nat, guard: nat, batch: nat)
    requires Fits(n, r, window, guard, batch)
    ensures n > 0 && r > 0 && batch > 0 && window > 0 && window % n == 0 && Filled(r, guard, window) <= batch
  {
  }

  lemma AlwaysMeans(m: nat, n: nat, r: nat, window: nat, guard: nat, batch: nat)
    requires n > 0 && r > 0 && m <= batch && batch > 0
    requires forall w: Matrix, x: seq<real>, i: nat {:trigger Result(w, x, r, window, guard, batch)[i]} ::
               |w| == m && |w[0]| == n == |x| && i < m ==> Result(w, x, r, window, guard, batch)[i] == Product(w, x, i)
    ensures AlwaysProduct(m, n, r, window, guard, batch)
  {
    hide Result, Product;
  }

  lemma AlwaysAt(w: Matrix, x: seq<real>, r: nat, window: nat, guard: nat, batch: nat, i: nat)
    requires |x| == |w[0]| && r > 0 && i < |w| <= batch && AlwaysProduct(|w|, |x|, r, window, guard, batch)
    ensures Result(w, x, r, window, guard, batch)[i] == Product(w, x, i)
  {
    hide Result, Product;
  }

  lemma LostRead(m: nat, n: nat, r: nat, window: nat, guard: nat, batch: nat) returns (i: nat, d: nat)
    requires n > 0 && r > 0 && batch > 0 && !ReadsLand(m, n, r, window, guard, batch)
    ensures i < m && d < n && !ReadLands(i, d, n, r, window, guard, batch)
  {
    hide ReadLands;
    i, d :| i < m && d < n && !ReadLands(i, d, n, r, window, guard, batch);
  }

  /** Where every read lands the fold gives W*x. */
  lemma LandedProduct(w: Matrix, x: seq<real>, r: nat, window: nat, guard: nat, batch: nat, i: nat)
    requires |x| == |w[0]| && 0 < r && i < |w| && Apart(|w|, r, window) && batch > 0
    requires MaskStart(r - 1, window) + |w| <= batch && Filled(r, guard, window) <= batch
    requires ReadsLand(|w|, |x|, r, window, guard, batch)
    ensures Result(w, x, r, window, guard, batch)[i] == Product(w, x, i)
  {
    hide *;
    var slots := Tiled(x, Filled(r, guard, window), batch);
    TiledLength(x, Filled(r, guard, window), batch);
    var f := Read(w, slots, i, r, window);
    FoldedSlot(w, slots, r, window, i);
    ResultIs(w, x, r, window, guard, batch);
    forall d: nat | d < |x|
      ensures f(d) == Times(w[i][Wrap(i + d, |x|)], x[Wrap(i + d, |x|)])
    {
      LandsAt(|w|, |x|, r, window, guard, batch, i, d);
      ReadIs(w, slots, i, r, window, d);
      TiledAt(x, Filled(r, guard, window), batch, Wrap(d % r * window + i + d, batch));
    }
    RowWalk(w[i], x, i, f);
    ProductIs(w, x, i);
  }

  lemma ResultIs(w: Matrix, x: seq<real>, r: nat, window: nat, guard: nat, batch: nat)
    requires |x| > 0 && r > 0 && batch > 0
    ensures Result(w, x, r, window, guard, batch)
         == Fold(Accumulated(w, Tiled(x, Filled(r, guard, window), batch), CeilDiv(|w[0]|, r), r, window), r, window)
  {
  }

  lemma ProductIs(w: Matrix, x: seq<real>, i: nat)
    requires i < |w|
    ensures Product(w, x, i) == Sum(|w[0]|, RowTerm(w[i], x))
  {
  }

  lemma LandsAt(m: nat, n: nat, r: nat, window: nat, guard: nat, batch: nat, i: nat, d: nat)
    requires n > 0 && r > 0 && batch > 0 && i < m && d < n && ReadsLand(m, n, r, window, guard, batch)
    ensures var at := Wrap(d % r * window + i + d, batch); at < Filled(r, guard, window) && Wrap(at, n) == Wrap(i + d, n)
  {
    assert ReadLands(i, d, n, r, window, guard, batch);
  }

  function Point(n: nat, c: nat): (x: seq<real>)
    ensures |x| == n
  {
    seq(n, k => if k == c then 1.0 else 0.0)
  }

  /** The m by n matrix with one entry, at row i and column c. */
  function Indicator(m: nat, n: nat, i: nat, c: nat): (w: Matrix)
    requires m > 0 && n > 0
  {
    seq(m, k => seq(n, q => if k == i && q == c then 1.0 else 0.0))
  }

  lemma IndicatorRow(m: nat, n: nat, i: nat, c: nat)
    requires i < m && n > 0
    ensures var w := Indicator(m, n, i, c); |w| == m && |w[0]| == n && w[i] == Point(n, c)
  {
  }

  lemma PointMeans(n: nat, c: nat)
    ensures forall k: nat :: k < n ==> Point(n, c)[k] == if k == c then 1.0 else 0.0
  {
  }

  /** Only diagonal d reads column c of the row, and it reads a zero. */
  lemma LostEntry(w: Matrix, x: seq<real>, r: nat, window: nat, guard: nat, batch: nat, i: nat, d: nat)
    requires |x| == |w[0]| && r > 0 && i < |w| && Apart(|w|, r, window) && d < |x| && batch > 0
    requires MaskStart(r - 1, window) + |w| <= batch && Filled(r, guard, window) <= batch
    requires !ReadLands(i, d, |x|, r, window, guard, batch)
    requires x == w[i] == Point(|x|, Wrap(i + d, |x|))
    ensures |w| <= batch && Result(w, x, r, window, guard, batch)[i] == 0.0 && Product(w, x, i) == 1.0
  {
    hide *;
    var n, c := |x|, Wrap(i + d, |x|);
    var slots := Tiled(x, Filled(r, guard, window), batch);
    TiledLength(x, Filled(r, guard, window), batch);
    var f, g := Read(w, slots, i, r, window), RowTerm(w[i], x);
    FoldedSlot(w, slots, r, window, i);
    ResultIs(w, x, r, window, guard, batch);
    PointMeans(n, c);
    forall e: nat | e < n
      ensures f(e) == 0.0
    {
      ReadIs(w, slots, i, r, window, e);
      if e == d {
        LostSlot(x, c, i, d, r, window, guard, batch);
        TimesZero(w[i][Wrap(i + e, n)]);
      } else {
        OtherColumn(i, d, e, n);
        TimesZero(slots[Wrap(e % r * window + i + e, batch)]);
      }
    }
    SumZero(n, f);
    forall e: nat | e < n
      ensures g(e) == if e == c then 1.0 else 0.0
    {
      RowTermIs(w[i], x, e);
      TimesZero(x[e]);
      TimesOne(x[e]);
    }
    SumPoint(n, g, c);
    ProductIs(w, x, i);
  }

  lemma OtherColumn(i: nat, d: nat, e: nat, n: nat)
    requires d < n && e < n && d != e
    ensures Wrap(i + e, n) != Wrap(i + d, n)
  {
    hide *;
    if Wrap(i + e, n) == Wrap(i + d, n) {
      WrapDistinct(i + e, i + d, i, n);
    }
  }

  lemma RowTermIs(row: seq<real>, x: seq<real>, e: nat)
    requires e < |row| && e < |x|
    ensures RowTerm(row, x)(e) == Times(row[e], x[e])
  {
  }

  lemma LostSlot(x: seq<real>, c: nat, i: nat, d: nat, r: nat, window: nat, guard: nat, batch: nat)
    requires |x| > 0 && r > 0 && batch > 0 && Filled(r, guard, window) <= batch
    requires c == Wrap(i + d, |x|) && x == Point(|x|, c)
    requires !ReadLands(i, d, |x|, r, window, guard, batch)
    ensures Tiled(x, Filled(r, guard, window), batch)[Wrap(d % r * window + i + d, batch)] == 0.0
  {
    hide Wrap, Filled;
  }

  /** The tight window without its guard is right exactly when the last full diagonal group fits it. */
  lemma UnguardedExact(m: nat, n: nat, r: nat, window: nat, batch: nat)
    requires m > 0 && 0 < r <= n && window == n * CeilDiv(m + r - 1, n) && (r + 1) * window <= batch
    ensures Fits(n, r, window, 0, batch) && m <= batch
    ensures AlwaysProduct(m, n, r, window, 0, batch) <==> m + r * (n / r) <= window + 1
  {
    hide *;
    TightBounds(m, n, r, window, batch);
    ApartMeans(m, r, window);
    LayoutExact(m, n, r, window, 0, batch);
    LastGroup(n, r);
    var worst := r * (n / r) - 1;
    if m + r * (n / r) <= window + 1 {
      forall i: nat, d: nat | i < m && d < n
        ensures ReadLands(i, d, n, r, window, 0, batch)
      {
        TightRead(i, d, m, n, r, window, batch);
        BeforeLast(d, n, r);
      }
      LandAll(m, n, r, window, 0, batch);
    } else {
      TightRead(m - 1, worst, m, n, r, window, batch);
      if ReadsLand(m, n, r, window, 0, batch) {
        LandOne(m, n, r, window, 0, batch, m - 1, worst);
      }
    }
  }

  lemma LandAll(m: nat, n: nat, r: nat, window: nat, guard: nat, batch: nat)
    requires n > 0 && r > 0 && batch > 0
    requires forall i: nat, d: nat :: i < m && d < n ==> ReadLands(i, d, n, r, window, guard, batch)
    ensures ReadsLand(m, n, r, window, guard, batch)
  {
    hide ReadLands;
  }

  lemma LandOne(m: nat, n: nat, r: nat, window: nat, guard: nat, batch: nat, i: nat, d: nat)
    requires n > 0 && r > 0 && batch > 0 && i < m && d < n && ReadsLand(m, n, r, window, guard, batch)
    ensures ReadLands(i, d, n, r, window, guard, batch)
  {
    hide ReadLands;
  }

  lemma TightBounds(m: nat, n: nat, r: nat, window: nat, batch: nat)
    requires m > 0 && 0 < r <= n && window == n * CeilDiv(m + r - 1, n) && (r + 1) * window <= batch
    ensures Fits(n, r, window, 0, batch) && window >= n && window >= m + r - 1 && window % n == 0
    ensures MaskStart(r - 1, window) + m <= batch
    ensures Filled(r, 0, window) == r * window && r * window + window <= batch
  {
    CeilMeans(m + r - 1, n);
    MulMonotone(1, CeilDiv(m + r - 1, n), n);
    SplitProduct(r, 1, window);
    SplitProduct(r - 1, 1, window);
    MaskStartIs(r - 1, window);
  }

  /** r*(n/r) - 1 is the last diagonal of the last replica. */
  lemma LastGroup(n: nat, r: nat)
    requires 0 < r <= n
    ensures r * (n / r) >= r && 0 <= r * (n / r) - 1 < n && (r * (n / r) - 1) % r == r - 1
  {
    QuotientPositive(n, r);
    var q := n / r;
    MulMonotone(1, q, r);
    assert n == q * r + n % r;
    SplitProduct(q - 1, 1, r);
    ModUnique(r * q - 1, r, q - 1, r - 1);
  }

  lemma BeforeLast(d: nat, n: nat, r: nat)
    requires 0 < r <= n && d < n
    ensures d % r == r - 1 ==> d <= r * (n / r) - 1
  {
    var q, full := d / r, n / r;
    assert d == q * r + d % r && n == full * r + n % r;
    if d % r == r - 1 {
      SplitProduct(q, 1, r);
      if q < full {
        MulMonotone(q + 1, full, r);
      } else {
        MulMonotone(full, q, r);
      }
    }
  }

  /** In the tight window only the last replica's reads can leave the filled slots. */
  lemma TightRead(i: nat, d: nat, m: nat, n: nat, r: nat, window: nat, batch: nat)
    requires 0 < r <= n && i < m && d < n && Fits(n, r, window, 0, batch)
    requires window >= n && window >= m + r - 1 && window % n == 0 && r * window + window <= batch
    requires Filled(r, 0, window) == r * window
    ensures ReadLands(i, d, n, r, window, 0, batch) <==> d % r < r - 1 || i + d < window
  {
    hide *;
    var j := d % r;
    var at := j * window + i + d;
    LayoutBounds(n, r, window, 0, batch);
    ModBelow(d, r);
    MulMonotone(j, r - 1, window);
    SplitProduct(r - 1, 1, window);
    assert (r - 1 + 1) * window == r * window;
    assert 1 * window == window;
    WrapSmall(at, batch);
    WrapBack(at, j, window, n);
    if j < r - 1 {
      MulMonotone(j + 1, r - 1, window);
      SplitProduct(j, 1, window);
    }
    LandsIs(i, d, n, r, window, 0, batch);
  }

  lemma ModBelow(d: nat, r: nat)
    requires r > 0
    ensures 0 <= d % r < r
  {
  }

  lemma LandsIs(i: nat, d: nat, n: nat, r: nat, window: nat, guard: nat, batch: nat)
    requires n > 0 && r > 0 && batch > 0
    ensures ReadLands(i, d, n, r, window, guard, batch) <==>
            var at := Wrap(d % r * window + i + d, batch); at < Filled(r, guard, window) && Wrap(at, n) == Wrap(i + d, n)
  {
  }

  function UnguardedMatrix(): (w: Matrix)
    ensures |w| == 3 && |w[0]| == 4
  {
    [[0.0, 0.0, 0.0, 0.0], [0.0, 0.0, 0.0, 0.0], [0.0, 1.0, 0.0, 0.0]]
  }

  /** Without its guard window the interleaved layout loses a read: m = 3, n = 4, batch = 12 gives window 4 and 2 replicas. */
  lemma GuardNeeded()
    ensures Fits(4, 2, 4, 1, 12) && Safe(3, 4, 4, 1) && InterleavedFits(3, 4, 12, 2)
    ensures Fits(4, 2, 4, 0, 12) && !Safe(3, 4, 4, 0)
    ensures var w, x := UnguardedMatrix(), [0.0, 1.0, 0.0, 0.0];
            Fold(Accumulated(w, Tiled(x, 8, 12), CeilDiv(4, 2), 2, 4), 2, 4)[2] == 0.0 && Product(w, x, 2) == 1.0
  {
    var w, x := UnguardedMatrix(), [0.0, 1.0, 0.0, 0.0];
    var slots := Tiled(x, 8, 12);
    FoldedSlot(w, slots, 2, 4, 2);
    hide Sum, Fold, Accumulated;
    var f, g := Read(w, slots, 2, 2, 4), RowTerm(w[2], x);
    forall d: nat | d < 4
      ensures f(d) == 0.0 && g(d) == if d == 1 then 1.0 else 0.0
    {
      UnguardedRead(d);
    }
    SumZero(4, f);
    SumPoint(4, g, 1);
  }

  lemma UnguardedRead(d: nat)
    requires d < 4
    ensures var w, x := UnguardedMatrix(), [0.0, 1.0, 0.0, 0.0];
            Read(w, Tiled(x, 8, 12), 2, 2, 4)(d) == 0.0 && RowTerm(w[2], x)(d) == if d == 1 then 1.0 else 0.0
  {
    var w, x := UnguardedMatrix(), [0.0, 1.0, 0.0, 0.0];
    if d == 3 {
      assert Tiled(x, 8, 12)[9] == 0.0;
    } else {
      assert Diagonal(w, 2, d) == 0.0;
    }
  }
}
