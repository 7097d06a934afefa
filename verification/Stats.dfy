/** Windowed statistics: minimum, maximum, mean, mean square and variance of 2^log2Size samples at a time. */
module Stats {
  import opened Words

  const INT_MAX: int := 0x7fff_ffff
  const INT64_LIMIT: int := 0x8000_0000_0000_0000
  type i32 = x: int | -0x8000_0000 <= x < 0x8000_0000

  // ---- The samples ----

  function Sum(w: seq<i32>): int {
    if w == [] then 0 else Sum(w[..|w| - 1]) + w[|w| - 1]
  }

  function SumSquares(w: seq<i32>): nat {
    if w == [] then 0
    else SumSquares(w[..|w| - 1]) + Square(w[|w| - 1])
  }

  function Square(x: int): (r: nat)
    ensures r == x * x
  {
    assert x * x >= 0;
    x * x
  }

  /** Both sums are additive over windows, and of one sample they are it and its square. */
  lemma {:induction false} SumsAdd(v: seq<i32>, w: seq<i32>)
    ensures Sum(v + w) == Sum(v) + Sum(w) && SumSquares(v + w) == SumSquares(v) + SumSquares(w)
  {
    if w == [] {
      assert v + w == v;
    } else {
      var n := |w| - 1;
      assert (v + w)[..|v + w| - 1] == v + w[..n] && (v + w)[|v + w| - 1] == w[n];
      SumsAdd(v, w[..n]);
    }
  }

  lemma SumsOfOne(x: i32)
    ensures Sum([x]) == x && SumSquares([x]) == x * x
  {
    assert [x][..0] == [];
  }

  /** The smallest of the samples and the start value. */
  function MinOf(w: seq<i32>, start: int): int {
    if w == [] then start else Min(MinOf(w[..|w| - 1], start), w[|w| - 1])
  }

  function MaxOf(w: seq<i32>, start: int): int {
    if w == [] then start else Max(MaxOf(w[..|w| - 1], start), w[|w| - 1])
  }

  ghost predicate IsMin(m: int, w: seq<i32>) {
    m in w && forall x :: x in w ==> m <= x
  }

  ghost predicate IsMax(m: int, w: seq<i32>) {
    m in w && forall x :: x in w ==> x <= m
  }

  /** The minimum starts at the largest sample there can be, so it is always the minimum. */
  lemma {:induction false} MinIsExact(w: seq<i32>)
    ensures MinOf(w, INT_MAX) <= INT_MAX
    ensures if w == [] then MinOf(w, INT_MAX) == INT_MAX else IsMin(MinOf(w, INT_MAX), w)
  {
    if |w| == 1 {
      assert MinOf(w[..0], INT_MAX) == INT_MAX;
    } else if |w| > 1 {
      var v := w[..|w| - 1];
      MinIsExact(v);
      assert w == v + [w[|w| - 1]];
    }
  }

  /** The maximum starts one above the smallest sample there can be: it is missed when all samples are that. */
  lemma {:induction false} MaxIsExactIff(w: seq<i32>)
    ensures MaxOf(w, -INT_MAX) >= -INT_MAX
    ensures IsMax(MaxOf(w, -INT_MAX), w) <==> exists x :: x in w && x > -0x8000_0000
    ensures forall x :: x in w ==> x <= MaxOf(w, -INT_MAX)
  {
    if w != [] {
      var v := w[..|w| - 1];
      MaxIsExactIff(v);
      assert w == v + [w[|w| - 1]];
      if exists x :: x in v && x > -0x8000_0000 {
        assert MaxOf(v, -INT_MAX) in v;
      } else {
        NoneAbove(v);
      }
    }
  }

  lemma {:induction false} NoneAbove(w: seq<i32>)
    requires forall x :: x in w ==> x == -0x8000_0000
    ensures MaxOf(w, -INT_MAX) == -INT_MAX
  {
    if w != [] {
      var v := w[..|w| - 1];
      assert forall i :: 0 <= i < |v| ==> v[i] == w[i] && w[i] in w;
      NoneAbove(v);
      assert w[|w| - 1] in w;
    }
  }

  /** A window where it is missed. */
  lemma MaxCanBeMissed()
    ensures MaxOf([-0x8000_0000], -INT_MAX) == -INT_MAX && !IsMax(-INT_MAX, [-0x8000_0000])
  {
    var w: seq<i32> := [-0x8000_0000];
    NoneAbove(w);
    assert forall x :: x in w ==> x == -0x8000_0000;
  }

  // ---- The variance ----

  lemma SquareOfDifference(x: int, y: int)
    ensures y * y - 2 * (x * y) + x * x >= 0
  {
    assert (y - x) * (y - x) == y * y - 2 * (x * y) + x * x;
  }

  lemma Distribute(x: int, m: int, y: int)
    ensures x * (m + y) == x * m + x * y
  {
  }

  lemma SpreadStep(s: int, n: int, m: int, x: int, y: int)
    requires s + n * (x * x) - 2 * (x * m) >= 0
    ensures s + y * y + (n + 1) * (x * x) - 2 * (x * (m + y)) >= 0
  {
    SquareOfDifference(x, y);
    Distribute(x * x, n, 1);
    Distribute(x, m, y);
  }

  lemma SquareBound(y: int, b: int)
    requires -b <= y <= b
    ensures y * y <= b * b
  {
    if y >= 0 {
      assert (b - y) * y >= 0 && b * (b - y) >= 0;
    } else {
      assert (b + y) * -y >= 0 && b * (b + y) >= 0;
    }
  }

  /** The squared distances of the samples from x add up to something that is not negative. */
  lemma {:induction false} Spread(w: seq<i32>, x: int)
    ensures SumSquares(w) + |w| * (x * x) - 2 * (x * Sum(w)) >= 0
  {
    if w != [] {
      Spread(w[..|w| - 1], x);
      SpreadStep(SumSquares(w[..|w| - 1]), |w| - 1, Sum(w[..|w| - 1]), x, w[|w| - 1]);
    }
  }

  /** The Cauchy-Schwarz inequality for the samples and as many ones. */
  lemma {:induction false} CauchySchwarz(w: seq<i32>)
    ensures Sum(w) * Sum(w) <= |w| * SumSquares(w)
  {
    if w != [] {
      var v, y := w[..|w| - 1], w[|w| - 1];
      var n, s, m := |v|, SumSquares(v), Sum(v);
      CauchySchwarz(v);
      Spread(v, y);
      assert (m + y) * (m + y) == m * m + 2 * (y * m) + y * y;
      assert (n + 1) * (s + y * y) == n * s + n * (y * y) + s + y * y;
    }
  }

  /** Dividing twice by n is dividing by its square. */
  lemma FloorOfMultiple(s: nat, n: nat)
    requires n > 0
    ensures n * s / (n * n) == s / n
  {
    var q, r := s / n, s % n;
    assert n * s == q * (n * n) + n * r by {
      assert s == q * n + r;
      assert n * (q * n) == q * (n * n);
    }
    assert 0 <= n * r < n * n by {
      MulAtLeast(n - r, n);
      assert n * r == n * n - (n - r) * n;
    }
    DivModUnique(n * s, n * n, q, n * r);
  }

  lemma DivMonotone(x: int, y: int, d: int)
    requires x <= y && 0 < d
    ensures x / d <= y / d
  {
    var k := y / d - x / d;
    assert y - x == k * d + (y % d - x % d);
    assert k * d == -(-k * d);
    if k <= -1 {
      MulAtLeast(-k, d);
    }
  }

  /** The two floors never cross: the variance is not negative. */
  lemma MeanSquareCoversSquaredMean(w: seq<i32>)
    requires w != []
    ensures Sum(w) * Sum(w) / (|w| * |w|) <= SumSquares(w) / |w|
  {
    CauchySchwarz(w);
    FloorOfMultiple(SumSquares(w), |w|);
    MulAtLeast(|w|, |w|);
    DivMonotone(Sum(w) * Sum(w), |w| * SumSquares(w), |w| * |w|);
  }

  lemma {:induction false} SumSquaresBound(w: seq<i32>)
    ensures SumSquares(w) <= |w| * 0x4000_0000_0000_0000
  {
    if w != [] {
      var y: int := w[|w| - 1];
      SumSquaresBound(w[..|w| - 1]);
      SquareBound(y, 0x8000_0000);
    }
  }

  lemma {:induction false} SumBounds(w: seq<i32>)
    ensures -0x8000_0000 * |w| <= Sum(w) <= 0x7fff_ffff * |w|
  {
    if w != [] {
      SumBounds(w[..|w| - 1]);
    }
  }

  /** The variance the code computes, from a sum of squares and a difference that wrap at 64 bits. */
  function CodeVariance(w: seq<i32>): u64
    requires w != []
  {
    (SumSquares(w) % TWO64 / |w| - Sum(w) * Sum(w) / (|w| * |w|)) % TWO64
  }

  /** The variance without wrapping. */
  function Variance(w: seq<i32>): nat
    requires w != []
  {
    MeanSquareCoversSquaredMean(w);
    SumSquares(w) / |w| - Sum(w) * Sum(w) / (|w| * |w|)
  }

  /** The code's variance is right exactly when the squares add up to less than 2^64. */
  lemma VarianceExactIff(w: seq<i32>)
    requires 0 < |w| < TWO32
    ensures CodeVariance(w) == Variance(w) <==> SumSquares(w) < TWO64
  {
    hide Sum, SumSquares;
    var s, n := SumSquares(w), |w|;
    var p := s % TWO64;
    MeanSquareCoversSquaredMean(w);
    SumSquaresBound(w);
    DivBound(s, n, 0x4000_0000_0000_0000);
    var d := s / n - p / n;
    assert 0 <= d < TWO64 by {
      DivMonotone(p, s, n);
      DivMonotone(0, p, n);
    }
    if s < TWO64 {
      assert p == s;
    } else {
      assert p + TWO64 <= s;
      Apart(p, s, n);
      assert d > 0;
    }
    var q := Sum(w) * Sum(w) / (n * n);
    assert 0 <= q by {
      MulAtLeast(n, n);
      DivMonotone(0, Sum(w) * Sum(w), n * n);
    }
    WrapOfDifference(Variance(w), d);
    assert p / n - q == Variance(w) - d;
  }

  lemma DivBound(x: nat, n: nat, b: nat)
    requires n > 0 && x <= n * b
    ensures x / n <= b
  {
    DivModUnique(n * b, n, b, 0);
    DivMonotone(x, n * b, n);
  }

  lemma Apart(p: nat, s: nat, n: nat)
    requires 0 < n <= TWO64 && p + TWO64 <= s
    ensures p / n < s / n
  {
    DivModUnique(p + n, n, p / n + 1, p % n);
    DivMonotone(p + n, s, n);
  }

  lemma WrapOfDifference(v: nat, d: nat)
    requires v < TWO64 && d < TWO64
    ensures (v - d) % TWO64 == v <==> d == 0
  {
  }

  /** Rounding makes it differ from the true variance by less than one; both sides are times n squared. */
  lemma VarianceWithinOne(w: seq<i32>)
    requires w != []
    ensures var n := |w|;
            var exact := n * SumSquares(w) - Sum(w) * Sum(w);
            (Variance(w) - 1) * (n * n) < exact < (Variance(w) + 1) * (n * n)
  {
    hide Sum, SumSquares;
    var n, s, m := |w|, SumSquares(w), Sum(w) * Sum(w);
    MulAtLeast(n, n);
    FloorOfMultiple(s, n);
    var a, b := n * s / (n * n), m / (n * n);
    Remainders(n * s, m, n * n);
    assert Variance(w) == a - b;
  }

  lemma Remainders(x: int, y: int, d: int)
    requires d > 0
    ensures (x / d - y / d - 1) * d < x - y < (x / d - y / d + 1) * d
  {
    assert x == x / d * d + x % d && y == y / d * d + y % d;
    assert (x / d - y / d - 1) * d == x / d * d - y / d * d - d;
    assert (x / d - y / d + 1) * d == x / d * d - y / d * d + d;
  }

  // ---- The object ----

  lemma OneMore(w: seq<i32>, x: i32)
    ensures Sum(w + [x]) == Sum(w) + x
    ensures SumSquares(w + [x]) == SumSquares(w) + Square(x)
    ensures (SumSquares(w) % TWO64 + Square(x)) % TWO64 == SumSquares(w + [x]) % TWO64
    ensures MinOf(w + [x], INT_MAX) == Min(MinOf(w, INT_MAX), x)
    ensures MaxOf(w + [x], -INT_MAX) == Max(MaxOf(w, -INT_MAX), x)
  {
    assert (w + [x])[..|w|] == w;
    var s := SumSquares(w);
    ModShift(s + Square(x), -(s / TWO64), TWO64);
    assert s % TWO64 == s - s / TWO64 * TWO64;
  }

  lemma {:induction false} Pow2Squared(n: nat)
    ensures Pow2(2 * n) == Pow2(n) * Pow2(n)
  {
    if n > 0 {
      Pow2Squared(n - 1);
      assert Pow2(2 * n) == 2 * Pow2(2 * n - 1) == 4 * Pow2(2 * (n - 1));
      assert 2 * Pow2(n - 1) * (2 * Pow2(n - 1)) == 4 * (Pow2(n - 1) * Pow2(n - 1));
    }
  }

  lemma WindowFits(n: nat)
    requires n < 32
    ensures Pow2(n) <= 0x8000_0000
  {
    Pow2Grows(n, 31);
    hide Pow2;
    assert Pow2(1) == 2 by { FirstPow2(); }
    SquaredIs(1, 2);
    SquaredIs(2, 4);
    SquaredIs(4, 0x10);
    SquaredIs(8, 0x100);
    SquaredIs(16, 0x1_0000);
    Pow2Doubles(31);
  }

  lemma SquaredIs(n: nat, p: nat)
    requires Pow2(n) == p
    ensures Pow2(2 * n) == p * p
  {
    Pow2Squared(n);
  }

  lemma FirstPow2()
    ensures Pow2(1) == 2
  {
    assert Pow2(0) == 1;
  }

  lemma Pow2Doubles(n: nat)
    ensures Pow2(n + 1) == 2 * Pow2(n)
  {
  }

  /** Division of C, truncating. */
  function Truncate(x: int, d: int): int
    requires d > 0
  {
    if x < 0 then -(-x / d) else x / d
  }

  /** q is x / d without its fraction: towards zero. */
  ghost predicate Truncates(q: int, x: int, d: int) {
    if x >= 0 then q * d <= x < (q + 1) * d else (q - 1) * d < x <= q * d
  }

  lemma TruncateMeans(x: int, d: int)
    requires d > 0
    ensures Truncates(Truncate(x, d), x, d)
  {
    if x >= 0 {
      QuotientBounds(x, d);
    } else {
      QuotientBounds(-x, d);
      var q := -x / d;
      assert -q * d == -(q * d) && (-q - 1) * d == -((q + 1) * d);
    }
  }

  class Stats {
    const log2Size: nat
    var currentCount: u32
    var currentMin: int
    var currentMax: int
    var currentMean: int
    var currentMs: u64
    var min: int
    var max: int
    var mean: int
    var ms: u64
    var variance: u64
    var absMin: int
    var absMax: int
    ghost var window: seq<i32>  // the samples since the last reset
    ghost var all: seq<i32>     // the samples since initialisation

    ghost predicate Valid()
      reads this
    {
      && log2Size < 32 && |window| < Pow2(log2Size) && currentCount == |window|
      && currentMean == Sum(window) && currentMs == SumSquares(window) % TWO64
      && currentMin == MinOf(window, INT_MAX) && currentMax == MaxOf(window, -INT_MAX)
      && absMin == MinOf(all, INT_MAX) && absMax == MaxOf(all, -INT_MAX)
      && absMin <= currentMin && absMax >= currentMax
    }

    /** stats_init. */
    constructor (log2Size: nat)
      requires log2Size < 32
      ensures Valid() && window == [] && all == [] && this.log2Size == log2Size
    {
      this.log2Size := log2Size;
      absMin, absMax := INT_MAX, -INT_MAX;
      currentCount, currentMin, currentMean, currentMax, currentMs := 0, INT_MAX, 0, -INT_MAX, 0;
      min, max, mean, ms, variance := 0, 0, 0, 0, 0;
      window, all := [], [];
    }

    /** stats_reset: the absolute extremes stay. */
    method Reset()
      requires log2Size < 32
      requires absMin == MinOf(all, INT_MAX) && absMax == MaxOf(all, -INT_MAX)
      modifies `currentCount, `currentMin, `currentMean, `currentMax, `currentMs, `window
      ensures Valid() && window == []
    {
      currentCount, currentMin, currentMean, currentMax, currentMs, window := 0, INT_MAX, 0, -INT_MAX, 0, [];
      MinIsExact(all);
      MaxIsExactIff(all);
    }

    /** The snapshot describes the samples. */
    ghost predicate Describes(w: seq<i32>)
      requires w != []
      reads `min, `max, `ms, `variance
    {
      && min == MinOf(w, INT_MAX) && max == MaxOf(w, -INT_MAX)
      && ms == SumSquares(w) % TWO64 / |w| && variance == CodeVariance(w)
    }

    /** The additions and comparisons of stats_update. */
    method Add(val: i32)
      requires Valid()
      modifies `currentCount, `currentMin, `currentMax, `currentMean, `currentMs, `absMin, `absMax, `window, `all
      ensures window == old(window) + [val] && all == old(all) + [val]
      ensures currentCount == |window| && currentMean == Sum(window) && currentMs == SumSquares(window) % TWO64
      ensures currentMin == MinOf(window, INT_MAX) && currentMax == MaxOf(window, -INT_MAX)
      ensures absMin == MinOf(all, INT_MAX) && absMax == MaxOf(all, -INT_MAX)
      ensures absMin <= currentMin && absMax >= currentMax
    {
      hide Sum, SumSquares, MinOf, MaxOf, Square, Pow2;
      WindowFits(log2Size);
      OneMore(window, val);
      OneMore(all, val);
      currentCount := currentCount + 1;
      currentMean := currentMean + val;
      currentMs := (currentMs + Square(val)) % TWO64;
      if val < currentMin {
        currentMin := val;
        if val < absMin {
          absMin := val;
        }
      }
      if val > currentMax {
        currentMax := val;
        if val > absMax {
          absMax := val;
        }
      }
      window, all := window + [val], all + [val];
    }

    /**
     stats_update. A full window is described and forgotten.
     The squared sum of a full window must fit an int64_t, or the multiplication overflows.
     */
    method Update(val: i32)
      requires Valid()
      requires |window| + 1 == Pow2(log2Size) ==> Square(Sum(window + [val])) < INT64_LIMIT
      modifies this
      ensures Valid() && all == old(all) + [val]
      ensures var w := old(window) + [val];
              if |w| == Pow2(log2Size) then
                window == [] && Describes(w) && mean * |w| <= Sum(w) < (mean + 1) * |w|
              else window == w && min == old(min) && max == old(max) && mean == old(mean) && ms == old(ms)
                   && variance == old(variance)
    {
      hide Sum, SumSquares, MinOf, MaxOf, Square, Pow2;
      Add(val);
      if currentCount == Pow2(log2Size) {
        Pow2Squared(log2Size);
        ms := currentMs / Pow2(log2Size);
        variance := (ms - currentMean * currentMean / Pow2(2 * log2Size)) % TWO64;
        mean := currentMean / Pow2(log2Size);
        QuotientBounds(currentMean, Pow2(log2Size));
        min, max := currentMin, currentMax;
        Reset();
      }
    }

    /** stats_compute: the same of the samples so far, but with truncating division. */
    method Compute()
      requires Valid() && Square(Sum(window)) < INT64_LIMIT
      modifies `min, `max, `mean, `ms, `variance
      ensures Valid()
      ensures window != [] ==> Describes(window) && Truncates(mean, Sum(window), |window|)
      ensures window == [] ==> mean == 0 && ms == 0 && variance == 0 && min == INT_MAX && max == -INT_MAX
    {
      hide Sum, SumSquares, Square, Pow2;
      if currentCount != 0 {
        ms := currentMs / currentCount;
        MulAtLeast(currentCount, currentCount);
        assert currentMean * currentMean >= 0;
        variance := (ms - Truncate(currentMean * currentMean, currentCount * currentCount)) % TWO64;
        mean := Truncate(currentMean, currentCount);
        TruncateMeans(currentMean, currentCount);
      } else {
        mean, ms, variance := 0, 0, 0;
      }
      min, max := currentMin, currentMax;
    }
  }

  /** The mean of a window fits an int32_t either way it is rounded. */
  lemma MeanFits(w: seq<i32>)
    requires w != []
    ensures -0x8000_0000 <= Sum(w) / |w| <= Truncate(Sum(w), |w|) < 0x8000_0000
  {
    SumBounds(w);
    hide Sum;
    var m, n := Sum(w), |w|;
    DivModUnique(-0x8000_0000 * n, n, -0x8000_0000, 0);
    DivModUnique(0x7fff_ffff * n, n, 0x7fff_ffff, 0);
    DivMonotone(-0x8000_0000 * n, m, n);
    DivMonotone(m, 0x7fff_ffff * n, n);
    if m < 0 {
      DivMonotone(0, -m, n);
      NegatedDivision(m, n);
    }
  }

  lemma NegatedDivision(m: int, n: int)
    requires n > 0
    ensures m / n <= -(-m / n)
  {
    var q := m / n + -m / n;
    assert m == m / n * n + m % n && -m == -m / n * n + -m % n;
    assert q * n == m / n * n + -m / n * n;
    if q >= 1 {
      MulAtLeast(q, n);
    }
  }

  /** A window whose sum is tiny but whose squares do not fit: the computed variance is wrong. */
  lemma VarianceCanWrap() returns (w: seq<i32>)
    ensures w != [] && Square(Sum(w)) < INT64_LIMIT && CodeVariance(w) != Variance(w)
  {
    hide Sum, SumSquares;
    var low, high := -0x8000_0000, 0x7fff_ffff;
    w := [];
    assert Sum(w) == 0 && SumSquares(w) == 0 by { NoSamples(); }
    OneMore(w, low);
    w := w + [low];
    OneMore(w, high);
    w := w + [high];
    OneMore(w, low);
    w := w + [low];
    OneMore(w, high);
    w := w + [high];
    OneMore(w, low);
    w := w + [low];
    OneMore(w, high);
    w := w + [high];
    VarianceExactIff(w);
  }

  lemma NoSamples()
    ensures Sum([]) == 0 && SumSquares([]) == 0
  {
  }
}
