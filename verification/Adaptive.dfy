/** `AdaptiveBatchStrategy`: a batch size steered by how long batches take. */
module Adaptive {
  import opened Batches
  import opened Numbers

  function MaxR(a: real, b: real): real { if a < b then b else a }
  function MinR(a: real, b: real): real { if a < b then a else b }

  /** Python's `int`: towards zero. */
  function Truncated(x: real): int {
    if x >= 0.0 then x.Floor else -(-x).Floor
  }

  datatype Config = Config(min: int, max: int, target: real, rate: real) {
    predicate Valid() {
      1 <= min <= max && target > 0.0
    }
  }

  predicate Overrun(c: Config, time: real) { time > c.target }

  predicate Fast(c: Config, time: real) { time < c.target * 0.8 }

  /** The factor for a batch that took too long: between a half and 0.9. */
  function Shrink(c: Config, time: real): (f: real)
    requires c.target > 0.0 && Overrun(c, time)
    ensures 0.5 <= f <= 0.9
  {
    MaxR(0.5, MinR(0.9, 1.0 / Ratio(time, c.target)))
  }

  function Ratio(a: real, b: real): (r: real)
    requires a > b > 0.0
    ensures r > 0.0
  {
    PositiveRatio(a, b);
    a / b
  }

  lemma PositiveRatio(a: real, b: real)
    requires a > 0.0 && b > 0.0
    ensures a / b > 0.0
  {
  }

  /** The factor for a batch that was fast: between 1.1 and 1.5. */
  function Grow(c: Config, time: real): (f: real)
    ensures 1.1 <= f <= 1.5
  {
    MinR(1.5, MaxR(1.1, c.target / MaxR(0.001, time) * c.rate + 1.0))
  }

  /** The size after an overrun, held within both bounds. */
  function Lowered(c: Config, size: int, f: real): int {
    Max(c.min, Min(Max(c.min, Truncated(size as real * f)), c.max))
  }

  /** The size after a fast batch, held within both bounds. */
  function Raised(c: Config, size: int, f: real): int {
    Max(c.min, Min(Min(c.max, Truncated(size as real * f)), c.max))
  }

  /** `adapt_batch_size`. */
  function Adapted(c: Config, size: int, time: real): int
    requires c.Valid()
  {
    if Overrun(c, time) then Lowered(c, size, Shrink(c, time))
    else if Fast(c, time) then Raised(c, size, Grow(c, time))
    else Max(c.min, Min(size, c.max))
  }

  /** The size after a run of batches that took the given times. */
  function After(c: Config, size: int, times: seq<real>): int
    requires c.Valid()
  {
    if times == [] then size else Adapted(c, After(c, size, times[..|times| - 1]), times[|times| - 1])
  }

  class AdaptiveBatchStrategy {
    const config: Config
    var currentBatchSize: int
    var processingHistory: seq<(int, real)>

    /** The controller stands where the run of recorded times has brought it. */
    ghost predicate Valid(initial: int)
      reads this
    {
      && config.Valid() && initial >= 1
      && currentBatchSize == After(config, initial, Times(processingHistory))
      && forall i | 0 <= i < |processingHistory| ::
           processingHistory[i].0 == After(config, initial, Times(processingHistory[..i]))
    }

    constructor (initial: int, c: Config)
      requires c.Valid() && initial >= 1
      ensures Valid(initial) && config == c && processingHistory == []
    {
      config := c;
      currentBatchSize, processingHistory := initial, [];
    }

    method Adapt(time: real, ghost initial: int) returns (size: int)
      requires Valid(initial)
      modifies this
      ensures Valid(initial) && size == currentBatchSize
      ensures currentBatchSize == Adapted(config, old(currentBatchSize), time)
      ensures processingHistory == old(processingHistory) + [(old(currentBatchSize), time)]
    {
      ghost var before := processingHistory;
      processingHistory := processingHistory + [(currentBatchSize, time)];
      size := Adapted(config, currentBatchSize, time);
      currentBatchSize := size;
      assert processingHistory[..|before|] == before;
      assert forall i | 0 <= i < |before| :: processingHistory[..i] == before[..i];
    }

    /** Batches of the current size. */
    method Split<T>(entities: seq<T>, ghost initial: int) returns (batches: seq<seq<T>>)
      requires Valid(initial)
      ensures batches == Chunks(entities, currentBatchSize)
    {
      if Times(processingHistory) != [] {
        SizeStaysInBounds(config, initial, Times(processingHistory));
      }
      batches := FixedBatches(entities, currentBatchSize);
    }
  }

  function Times(history: seq<(int, real)>): seq<real> {
    if history == [] then [] else Times(history[..|history| - 1]) + [history[|history| - 1].1]
  }

  /** Whatever the size was, one adaptation brings it within the bounds. */
  lemma OneAdaptIsEnough(c: Config, size: int, time: real)
    requires c.Valid()
    ensures c.min <= Adapted(c, size, time) <= c.max
  {
  }

  lemma {:induction false} SizeStaysInBounds(c: Config, size: int, times: seq<real>)
    requires c.Valid() && (c.min <= size <= c.max || times != [])
    ensures c.min <= After(c, size, times) <= c.max
  {
    if times != [] {
      OneAdaptIsEnough(c, After(c, size, times[..|times| - 1]), times[|times| - 1]);
    }
  }

  lemma Scaled(x: real, f: real, g: real, xf: real, xg: real)
    requires x >= 0.0 && f <= g && xf == x * f && xg == x * g
    ensures xf <= xg
  {
    assert xg - xf == x * (g - f);
    ProductNonNegative(x, g - f);
  }

  lemma ProductNonNegative(x: real, y: real)
    requires x >= 0.0 && y >= 0.0
    ensures x * y >= 0.0
  {
  }

  lemma FloorMonotone(x: real, y: real)
    requires x <= y
    ensures x.Floor <= y.Floor
  {
  }

  lemma FloorAtLeast(n: int, x: real)
    requires n as real <= x
    ensures n <= x.Floor
  {
  }

  lemma Half(size: int)
    requires size >= 0
    ensures (size / 2) as real <= size as real * 0.5
  {
    var h := size / 2;
    assert 2 * h <= size;
    assert 2.0 * h as real <= size as real;
  }

  lemma FloorBelow(x: real, n: int)
    requires x < n as real
    ensures x.Floor < n
  {
  }

  lemma ScaledDown(size: int, f: real, scaled: real)
    requires size >= 0 && 0.5 <= f <= 0.9 && scaled == size as real * f
    ensures size / 2 <= scaled.Floor <= (size as real * 0.9).Floor
    ensures size >= 1 ==> scaled.Floor < size
  {
    var least, most := size as real * 0.5, size as real * 0.9;
    Scaled(size as real, f, 0.9, scaled, most);
    Scaled(size as real, 0.5, f, least, scaled);
    FloorMonotone(scaled, most);
    assert (size / 2) as real <= least by { Half(size); }
    FloorAtLeast(size / 2, scaled);
    if size >= 1 {
      FloorBelow(scaled, size);
    }
  }

  lemma LoweredShrinks(c: Config, size: int, f: real)
    requires c.Valid() && c.min <= size <= c.max && 0.5 <= f <= 0.9
    ensures var next := Lowered(c, size, f);
      && next <= Max(c.min, (size as real * 0.9).Floor)
      && next >= size / 2
      && (size > c.min ==> next < size) && (size == c.min ==> next == size)
  {
    var scaled := size as real * f;
    ScaledDown(size, f, scaled);
    assert Lowered(c, size, f) == Max(c.min, Min(Max(c.min, scaled.Floor), c.max));
  }

  /** An overrun multiplies the size by at most 0.9 and at least a half, down to the minimum. */
  lemma OverrunShrinks(c: Config, size: int, time: real)
    requires c.Valid() && c.min <= size <= c.max && Overrun(c, time)
    ensures var next := Adapted(c, size, time);
      && next <= Max(c.min, (size as real * 0.9).Floor)
      && next >= size / 2
      && (size > c.min ==> next < size) && (size == c.min ==> next == size)
  {
    LoweredShrinks(c, size, Shrink(c, time));
  }

  lemma GrowsTenPercent(size: int, f: real, scaled: real)
    requires size >= 0 && 1.1 <= f <= 1.5 && scaled == size as real * f
    ensures size <= scaled.Floor
    ensures size >= 10 ==> size + 1 <= scaled.Floor
    ensures size == 1 ==> scaled < 2.0
  {
    var least := size as real * 1.1;
    Scaled(size as real, 1.1, f, least, scaled);
    Scaled(size as real, f, 1.5, scaled, size as real * 1.5);
    assert least == size as real + size as real * 0.1;
    FloorMonotone(least, scaled);
    FloorAtLeast(size, least);
    if size >= 10 {
      FloorAtLeast(size + 1, least);
    }
  }

  lemma ScaleUp(c: Config, size: int, f: real)
    requires c.Valid() && c.min <= size <= c.max && 1.1 <= f <= 1.5
    ensures var next := Raised(c, size, f);
      && next >= size
      && (next > size <==> size < c.max && size as real * f >= (size + 1) as real)
      && (size < c.max && size >= 10 ==> next > size)
      && (size == 1 ==> next == 1)
  {
    var scaled := size as real * f;
    GrowsTenPercent(size, f, scaled);
    if scaled >= (size + 1) as real {
      FloorAtLeast(size + 1, scaled);
    }
  }

  /** A fast batch never lowers the size; it raises it exactly when the grown size has a
      whole entity more and the maximum is not reached, in particular from 10 on. */
  lemma FastGrows(c: Config, size: int, time: real)
    requires c.Valid() && c.min <= size <= c.max && Fast(c, time)
    ensures var next := Adapted(c, size, time);
      && next >= size
      && (next > size <==> size < c.max && size as real * Grow(c, time) >= (size + 1) as real)
      && (size < c.max && size >= 10 ==> next > size)
      && (size == 1 ==> next == 1)
  {
    ScaleUp(c, size, Grow(c, time));
  }

  /** 0.9^k of the size. */
  function Decayed(size: int, k: nat): real {
    if k == 0 then size as real else 0.9 * Decayed(size, k - 1)
  }

  lemma {:induction false} DecayedIsPositive(size: int, k: nat)
    requires size >= 0
    ensures Decayed(size, k) >= 0.0
  {
    if k > 0 { DecayedIsPositive(size, k - 1); }
  }

  lemma DecayStep(size: int, bound: real, floor: int)
    requires size >= 0 && size as real <= MaxR(floor as real, bound) && bound >= 0.0 && floor >= 0
    ensures Max(floor, (size as real * 0.9).Floor) as real <= MaxR(floor as real, 0.9 * bound)
  {
  }

  lemma DecayOnce(c: Config, size: int, time: real, bound: real)
    requires c.Valid() && c.min <= size <= c.max && Overrun(c, time)
    requires size as real <= MaxR(c.min as real, bound) && bound >= 0.0
    ensures Adapted(c, size, time) as real <= MaxR(c.min as real, 0.9 * bound)
  {
    OverrunShrinks(c, size, time);
    DecayStep(size, bound, c.min);
  }

  /** `k` overruns in a row bring the size to at most 0.9^k of where it started, or to the
      minimum. */
  lemma {:induction false} OverrunsDecay(c: Config, size: int, times: seq<real>)
    requires c.Valid() && c.min <= size <= c.max
    requires forall i | 0 <= i < |times| :: Overrun(c, times[i])
    ensures After(c, size, times) as real <= MaxR(c.min as real, Decayed(size, |times|))
  {
    if times != [] {
      var n := |times| - 1;
      OverrunsDecay(c, size, times[..n]);
      assert |times[..n]| == n;
      SizeStaysInBounds(c, size, times[..n]);
      DecayedIsPositive(size, n);
      DecayOnce(c, After(c, size, times[..n]), times[n], Decayed(size, n));
    }
  }

  /** As many overruns in a row as the size is away from the minimum bring it there. */
  lemma {:induction false} OverrunsReachMin(c: Config, size: int, times: seq<real>)
    requires c.Valid() && c.min <= size <= c.max
    requires forall i | 0 <= i < |times| :: Overrun(c, times[i])
    ensures After(c, size, times) <= Max(c.min, size - |times|)
  {
    if times != [] {
      var n := |times| - 1;
      OverrunsReachMin(c, size, times[..n]);
      SizeStaysInBounds(c, size, times[..n]);
      OverrunShrinks(c, After(c, size, times[..n]), times[n]);
    }
  }

  /** From 10 on, fast batches in a row raise the size by at least one each, up to the
      maximum. */
  lemma {:induction false} FastRunReachesMax(c: Config, size: int, times: seq<real>)
    requires c.Valid() && c.min <= size <= c.max && size >= 10
    requires forall i | 0 <= i < |times| :: Fast(c, times[i])
    ensures After(c, size, times) >= Min(c.max, size + |times|)
  {
    if times != [] {
      var front := times[..|times| - 1];
      FastRunReachesMax(c, size, front);
      SizeStaysInBounds(c, size, front);
      FastGrows(c, After(c, size, front), times[|times| - 1]);
    }
  }

  /** A controller whose size is 1 keeps it, however fast its batches are. */
  lemma {:induction false} OneIsForever(c: Config, times: seq<real>)
    requires c.Valid() && c.min == 1
    ensures After(c, 1, times) == 1
  {
    if times != [] {
      var time := times[|times| - 1];
      OneIsForever(c, times[..|times| - 1]);
      if Overrun(c, time) {
        OverrunShrinks(c, 1, time);
      } else if Fast(c, time) {
        FastGrows(c, 1, time);
      }
    }
  }

  // ---- The exact sizes ----

  /** `n` is `x / y`, rounded down. */
  ghost predicate Quotient(n: int, x: real, y: real) {
    n as real * y <= x < (n + 1) as real * y
  }

  lemma FloorIsQuotient(v: real, x: real, y: real)
    requires y > 0.0 && v * y == x
    ensures Quotient(v.Floor, x, y)
  {
    var f := v.Floor as real;
    ProductNonNegative(v - f, y);
    assert (v - f) * y == v * y - f * y;
    PositiveProduct(f + 1.0 - v, y);
    assert (f + 1.0 - v) * y == (f + 1.0) * y - v * y;
  }

  lemma PositiveProduct(x: real, y: real)
    requires x > 0.0 && y > 0.0
    ensures x * y > 0.0
  {
  }

  lemma Divided(a: real, b: real)
    requires b > 0.0
    ensures (a / b) * b == a
  {
  }

  lemma InverseOfRatio(a: real, b: real)
    requires a > 0.0 && b > 0.0
    ensures a / b > 0.0 && (1.0 / (a / b)) * a == b
  {
    PositiveRatio(a, b);
    var r := a / b;
    Divided(a, b);
    Divided(1.0, r);
    Regrouped(1.0 / r, r, b);
  }

  lemma Regrouped(x: real, y: real, z: real)
    ensures x * (y * z) == (x * y) * z
  {
  }

  lemma ProductQuotient(size: real, f: real, y: real, fy: real, scaled: real, x: real)
    requires y > 0.0 && f * y == fy && scaled == size * f && x == size * fy
    ensures Quotient(scaled.Floor, x, y)
  {
    Regrouped(size, f, y);
    FloorIsQuotient(scaled, x, y);
  }

  /** A bound on a factor is a bound on its multiples. */
  lemma FactorBelow(f: real, g: real, y: real)
    requires y > 0.0
    ensures f < g <==> f * y < g * y
  {
    if f < g {
      PositiveProduct(g - f, y);
      assert (g - f) * y == g * y - f * y;
    } else {
      ProductNonNegative(f - g, y);
      assert (f - g) * y == f * y - g * y;
    }
  }

  lemma BoundsOfInverse(f: real, target: real, time: real)
    requires time > 0.0 && f * time == target
    ensures f < 0.5 <==> time > 2.0 * target
    ensures 0.9 < f <==> 9.0 * time < 10.0 * target
  {
    FactorBelow(f, 0.5, time);
    FactorBelow(0.9, f, time);
  }

  /** The factor after an overrun is the target over the time, between a half and 0.9. */
  lemma ShrinkIs(c: Config, time: real)
    requires c.target > 0.0 && time > c.target
    ensures time > 2.0 * c.target ==> Shrink(c, time) == 0.5
    ensures 9.0 * time < 10.0 * c.target ==> Shrink(c, time) == 0.9
    ensures time <= 2.0 * c.target && 9.0 * time >= 10.0 * c.target ==> Shrink(c, time) * time == c.target
  {
    var f := 1.0 / (time / c.target);
    InverseOfRatio(time, c.target);
    BoundsOfInverse(f, c.target, time);
  }

  lemma BoundsOfGain(f: real, grown: real, p: real)
    requires p > 0.0 && f * p == grown
    ensures f < 1.1 <==> 10.0 * grown < 11.0 * p
    ensures 1.5 < f <==> 2.0 * grown > 3.0 * p
  {
    FactorBelow(f, 1.1, p);
    FactorBelow(1.5, f, p);
  }

  lemma GainOver(a: real, b: real, p: real)
    requires p > 0.0
    ensures (a / p * b + 1.0) * p == a * b + p
  {
    var r := a / p;
    Divided(a, p);
    assert (r * b + 1.0) * p == (r * p) * b + p;
  }

  /** The time of a fast batch, counted as at least 0.001. */
  function Counted(time: real): real {
    if time < 0.001 then 0.001 else time
  }

  /** The factor after a fast batch is (target * rate + time) over time, between 1.1 and 1.5. */
  lemma GrowIs(c: Config, time: real, p: real, grown: real)
    requires p == Counted(time) && grown == c.target * c.rate + p
    ensures 10.0 * grown < 11.0 * p ==> Grow(c, time) == 1.1
    ensures 2.0 * grown > 3.0 * p ==> Grow(c, time) == 1.5
    ensures 10.0 * grown >= 11.0 * p && 2.0 * grown <= 3.0 * p ==> Grow(c, time) * p == grown
  {
    var f := c.target / p * c.rate + 1.0;
    assert MaxR(0.001, time) == p;
    GainOver(c.target, c.rate, p);
    BoundsOfGain(f, grown, p);
  }

  lemma PartOf(size: int, f: real, n: int)
    requires
      || (f == 0.5 && n == size / 2) || (f == 0.9 && n == 9 * size / 10)
      || (f == 1.1 && n == 11 * size / 10) || (f == 1.5 && n == 3 * size / 2)
    ensures (size as real * f).Floor == n
  {
  }

  lemma LoweredIs(c: Config, size: int, f: real, scaled: real)
    requires c.Valid() && c.min <= size <= c.max && 0.5 <= f <= 0.9 && scaled == size as real * f
    ensures Lowered(c, size, f) == Max(c.min, scaled.Floor)
  {
    ScaledDown(size, f, scaled);
  }

  lemma RaisedIs(c: Config, size: int, f: real, scaled: real)
    requires c.Valid() && c.min <= size <= c.max && 1.1 <= f <= 1.5 && scaled == size as real * f
    ensures Raised(c, size, f) == Min(c.max, scaled.Floor)
  {
    GrowsTenPercent(size, f, scaled);
  }

  /** More than twice the target halves the size, down to the minimum; */
  lemma LongOverrunHalves(c: Config, size: int, time: real)
    requires c.Valid() && c.min <= size <= c.max && time > 2.0 * c.target
    ensures Adapted(c, size, time) == Max(c.min, size / 2)
  {
    ShrinkIs(c, time);
    LoweredIs(c, size, 0.5, size as real * 0.5);
    PartOf(size, 0.5, size / 2);
  }

  /** less than 10 ninths of it takes a tenth off; */
  lemma ShortOverrunTakesATenth(c: Config, size: int, time: real)
    requires c.Valid() && c.min <= size <= c.max && time > c.target && 9.0 * time < 10.0 * c.target
    ensures Adapted(c, size, time) == Max(c.min, 9 * size / 10)
  {
    ShrinkIs(c, time);
    LoweredIs(c, size, 0.9, size as real * 0.9);
    PartOf(size, 0.9, 9 * size / 10);
  }

  /** and in between the size becomes its multiple by target over time, rounded down. */
  lemma OverrunScales(c: Config, size: int, time: real) returns (n: int)
    requires c.Valid() && c.min <= size <= c.max && time <= 2.0 * c.target && 9.0 * time >= 10.0 * c.target
    ensures Quotient(n, size as real * c.target, time) && Adapted(c, size, time) == Max(c.min, n)
  {
    var f := Shrink(c, time);
    var scaled := size as real * f;
    ShrinkIs(c, time);
    LoweredIs(c, size, f, scaled);
    ProductQuotient(size as real, f, time, c.target, scaled, size as real * c.target);
    n := scaled.Floor;
  }

  lemma FastIsRaised(c: Config, size: int, time: real)
    requires c.Valid() && time < 0.8 * c.target
    ensures Adapted(c, size, time) == Raised(c, size, Grow(c, time))
  {
  }

  /** Below 0.8 of the target, let `grown` be target * rate + time.  Less than 11 tenths of
      the time adds a tenth to the size, up to the maximum; */
  lemma SmallGainAddsATenth(c: Config, size: int, time: real, p: real, grown: real)
    requires c.Valid() && c.min <= size <= c.max && time < 0.8 * c.target
    requires p == Counted(time) && grown == c.target * c.rate + p && 10.0 * grown < 11.0 * p
    ensures Adapted(c, size, time) == Min(c.max, 11 * size / 10)
  {
    GrowIs(c, time, p, grown);
    FastIsRaised(c, size, time);
    RaisedIs(c, size, 1.1, size as real * 1.1);
    PartOf(size, 1.1, 11 * size / 10);
  }

  /** more than 3 halves of it adds a half; */
  lemma LargeGainAddsAHalf(c: Config, size: int, time: real, p: real, grown: real)
    requires c.Valid() && c.min <= size <= c.max && time < 0.8 * c.target
    requires p == Counted(time) && grown == c.target * c.rate + p && 2.0 * grown > 3.0 * p
    ensures Adapted(c, size, time) == Min(c.max, 3 * size / 2)
  {
    GrowIs(c, time, p, grown);
    FastIsRaised(c, size, time);
    RaisedIs(c, size, 1.5, size as real * 1.5);
    PartOf(size, 1.5, 3 * size / 2);
  }

  lemma RaisedQuotient(c: Config, size: int, f: real, p: real, grown: real) returns (n: int)
    requires c.Valid() && c.min <= size <= c.max && 1.1 <= f <= 1.5 && p > 0.0 && f * p == grown
    ensures Quotient(n, size as real * grown, p) && Raised(c, size, f) == Min(c.max, n)
  {
    var scaled := size as real * f;
    RaisedIs(c, size, f, scaled);
    ProductQuotient(size as real, f, p, grown, scaled, size as real * grown);
    n := scaled.Floor;
  }

  /** and in between the size becomes its multiple by `grown` over time, rounded down. */
  lemma GainScales(c: Config, size: int, time: real, p: real, grown: real) returns (n: int)
    requires c.Valid() && c.min <= size <= c.max && time < 0.8 * c.target
    requires p == Counted(time) && grown == c.target * c.rate + p && 10.0 * grown >= 11.0 * p && 2.0 * grown <= 3.0 * p
    ensures Quotient(n, size as real * grown, p) && Adapted(c, size, time) == Min(c.max, n)
  {
    GrowIs(c, time, p, grown);
    n := RaisedQuotient(c, size, Grow(c, time), p, grown);
    FastIsRaised(c, size, time);
  }

  /** From 0.8 of the target to the target, the size stays. */
  lemma SteadyStays(c: Config, size: int, time: real)
    requires c.Valid() && c.min <= size <= c.max && 0.8 * c.target <= time <= c.target
    ensures Adapted(c, size, time) == size
  {
  }
}
