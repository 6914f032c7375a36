/** The integer level kernels: root mean square and peak of a PCM frame, with the
    two square roots the desktop app uses. */
module Levels {
  import opened Base

  // ----- square roots

  predicate IsFloorRoot(r: nat, v: nat) {
    r * r <= v < (r + 1) * (r + 1)
  }

  lemma FloorRootUnique(r: nat, t: nat, v: nat)
    requires IsFloorRoot(r, v) && IsFloorRoot(t, v)
    ensures r == t
  {
    if r < t {
      SquareMonotone(r + 1, t);
    } else if t < r {
      SquareMonotone(t + 1, r);
    }
  }

  /** The floor root, by its definition. */
  function FloorRoot(v: nat): (r: nat)
    ensures IsFloorRoot(r, v)
  {
    if v == 0 then 0
    else
      var r := FloorRoot(v - 1);
      if (r + 1) * (r + 1) <= v then
        SquareMonotone(r + 1, r + 2);
        r + 1
      else r
  }

  lemma ProductMonotone(c: nat, a: nat, b: nat)
    requires a <= b
    ensures c * a <= c * b
  {
  }

  lemma FactorMonotone(a: nat, b: nat, c: nat)
    requires a <= b
    ensures a * c <= b * c
  {
  }

  lemma SquareMonotone(a: nat, b: nat)
    requires a <= b
    ensures a * a <= b * b
  {
    ProductMonotone(a, a, b);
    ProductMonotone(b, a, b);
  }

  lemma SquareReflects(a: nat, b: nat)
    requires a * a <= b * b
    ensures a <= b
  {
    if a > b {
      SquareMonotone(b + 1, a);
    }
  }

  lemma Distribute(n: nat, w: nat)
    ensures n * (w + 1) == n * w + n
  {
  }

  /** A Newton step never lands below the floor root. */
  lemma NewtonStaysAbove(v: nat, x: nat)
    requires x > 0
    ensures v < (Midpoint(x, v / x) + 1) * (Midpoint(x, v / x) + 1)
  {
    var q := v / x;
    var n := Midpoint(x, q);
    var sum := x + (q + 1);
    DivisionBound(v, x);
    ArithmeticGeometric(x, q + 1);
    SquareMonotone(sum, 2 * (n + 1));
    DoubledSquare(n + 1);
  }

  lemma DivisionBound(v: nat, x: nat)
    requires x > 0
    ensures x * (v / x) <= v < x * (v / x + 1)
  {
    assert v == x * (v / x) + v % x;
    assert x * (v / x + 1) == x * (v / x) + x;
  }

  lemma ArithmeticGeometric(a: nat, b: nat)
    ensures 4 * (a * b) <= (a + b) * (a + b)
  {
    var d: int := a - b;
    assert (a + b) * (a + b) == 4 * (a * b) + d * d;
    assert d * d >= 0;
  }

  lemma DoubledSquare(m: nat)
    ensures (2 * m) * (2 * m) == 4 * (m * m)
  {
  }

  /** When the step does not go down, the estimate's square is within the value. */
  lemma NewtonStops(v: nat, x: nat)
    requires x > 0 && Midpoint(x, v / x) >= x
    ensures x * x <= v
  {
    DivisionBound(v, x);
    ProductMonotone(x, x, v / x);
  }

  /** The root used by voice detection and by calibration is the exact floor root of every word. */
  method IntegerSqrt(value: nat) returns (r: nat)
    ensures r == FloorRoot(value)
  {
    hide FloorRoot;
    if value < 2 {
      FloorRootUnique(value, FloorRoot(value), value);
      return value;
    }
    var estimate: nat := value;
    var next: nat := Midpoint(estimate, value / estimate);
    SquareMonotone(1, value);
    while next < estimate
      invariant 0 < estimate && next == Midpoint(estimate, value / estimate)
      invariant value < (estimate + 1) * (estimate + 1)
      decreases estimate
    {
      NewtonStaysAbove(value, estimate);
      assert value >= 2 && next > 0;
      estimate := next;
      next := Midpoint(estimate, value / estimate);
    }
    NewtonStops(value, estimate);
    FloorRootUnique(estimate, FloorRoot(value), value);
    return estimate;
  }

  lemma {:induction false} Pow2Add(a: nat, b: nat)
    ensures Pow2(a + b) == Pow2(a) * Pow2(b)
  {
    if b > 0 {
      Pow2Add(a, b - 1);
      assert a + b - 1 == a + (b - 1);
      DoubleProduct(Pow2(a), Pow2(b - 1));
    }
  }

  lemma DoubleProduct(x: nat, y: nat)
    ensures x * (2 * y) == 2 * (x * y)
  {
  }

  lemma {:induction false} Pow2Monotone(a: nat, b: nat)
    requires a <= b
    ensures Pow2(a) <= Pow2(b)
  {
    if a < b {
      Pow2Monotone(a, b - 1);
    }
  }

  /** The index of the top bit: `ilog2`. */
  function TopBit(v: nat): (k: nat)
    requires v > 0
    ensures Pow2(k) <= v < Pow2(k + 1)
  {
    if v == 1 then 0 else 1 + TopBit(v / 2)
  }

  /** What the live meter's root returns: for an even top bit, just the power of two below the root. */
  function LiveRoot(v: nat): nat {
    if v == 0 then 0 else if TopBit(v) % 2 == 0 then Pow2(TopBit(v) / 2) else FloorRoot(v)
  }

  predicate AtOrAboveRoot(value: nat, estimate: nat) {
    value < (estimate + 1) * (estimate + 1)
  }

  /** The Newton step does not go down from here. */
  predicate StepStops(value: nat, estimate: nat)
    requires estimate > 0
  {
    Midpoint(estimate, value / estimate) >= estimate
  }

  lemma EvenStart(v: nat, k: nat)
    requires v > 0 && TopBit(v) == 2 * k
    ensures Pow2(k) * Pow2(k) <= v < 2 * (Pow2(k) * Pow2(k))
    ensures StepStops(v, Pow2(k))
  {
    var e := Pow2(k);
    Pow2Add(k, k);
    assert k + k == 2 * k;
    DivisionBound(v, e);
    if v / e < e {
      ProductMonotone(e, v / e + 1, e);
    }
  }

  lemma EvenUnit(v: nat, k: nat)
    requires v > 0 && TopBit(v) == 2 * k && Pow2(k) == 1
    ensures v < 4
  {
    EvenStart(v, k);
  }

  lemma OddStart(v: nat, k: nat)
    requires v > 0 && TopBit(v) == 2 * k + 1
    ensures AtOrAboveRoot(v, Pow2(k + 1)) && (Pow2(k + 1) == 1 ==> v < 4)
  {
    var e := Pow2(k + 1);
    Pow2Add(k + 1, k + 1);
    assert (k + 1) + (k + 1) == TopBit(v) + 1;
    SquareMonotone(e, e + 1);
  }

  /** `estimate.saturating_add(value / estimate) / 2` on 64-bit words. */
  function LiveStep(value: nat, estimate: nat): nat
    requires estimate > 0
  {
    Min(estimate + value / estimate, U64_MAX) / 2
  }

  lemma QuotientHalves(value: nat, estimate: nat, quotient: nat)
    requires 2 <= estimate && estimate * quotient <= value <= U64_MAX
    ensures quotient <= U64_MAX / 2
  {
    FactorMonotone(2, estimate, quotient);
  }

  lemma QuotientTimes(value: nat, estimate: nat)
    requires 0 < estimate
    ensures value / estimate >= 0 && estimate * (value / estimate) <= value
  {
  }

  lemma QuotientOfWord(value: nat, estimate: nat)
    requires 0 < estimate && value <= U64_MAX
    ensures estimate == 1 || value / estimate <= U64_MAX / 2
  {
    if estimate >= 2 {
      QuotientTimes(value, estimate);
      QuotientHalves(value, estimate, value / estimate);
    }
  }

  lemma WordPowers()
    ensures Pow2(32) == 0x1_0000_0000 && Pow2(64) == U64_MAX + 1
  {
    assert Pow2(8) == 256;
    Pow2Add(8, 8);
    Pow2Add(16, 16);
    Pow2Add(32, 32);
  }

  lemma StartIsSmall(value: nat)
    requires 0 < value <= U64_MAX
    ensures TopBit(value) <= 63 && Pow2((TopBit(value) + 1) / 2) <= 0x1_0000_0000
  {
    WordPowers();
    hide Pow2;
    if TopBit(value) >= 64 {
      Pow2Monotone(64, TopBit(value));
    }
    Pow2Monotone((TopBit(value) + 1) / 2, 32);
  }

  lemma LiveStepIsNewton(value: nat, estimate: nat)
    requires 0 < estimate <= 0x1_0000_0000 && value <= U64_MAX && (estimate == 1 ==> value < 4)
    ensures LiveStep(value, estimate) == Midpoint(estimate, value / estimate)
  {
    QuotientOfWord(value, estimate);
  }

  /** What the loop keeps: an even start is where it stops, an odd one is at or above the root. */
  predicate LiveEstimate(value: nat, estimate: nat)
    requires value > 0
  {
    && 0 < estimate <= 0x1_0000_0000 && (estimate == 1 ==> value < 4)
    && if TopBit(value) % 2 == 0 then
         estimate == Pow2(TopBit(value) / 2) && StepStops(value, estimate)
       else AtOrAboveRoot(value, estimate)
  }

  lemma LiveStart(value: nat)
    requires 0 < value <= U64_MAX
    ensures LiveEstimate(value, Pow2((TopBit(value) + 1) / 2))
  {
    hide AtOrAboveRoot;
    hide StepStops;
    hide Pow2;
    hide TopBit;
    StartIsSmall(value);
    var k := TopBit(value) / 2;
    if TopBit(value) % 2 == 0 {
      EvenStart(value, k);
      if Pow2(k) == 1 {
        EvenUnit(value, k);
      }
    } else {
      OddStart(value, k);
    }
  }

  lemma LiveStops(value: nat, estimate: nat)
    requires 0 < value && LiveEstimate(value, estimate) && Midpoint(estimate, value / estimate) >= estimate
    ensures estimate == LiveRoot(value)
  {
    hide FloorRoot;
    hide Midpoint;
    NewtonStops(value, estimate);
    if TopBit(value) % 2 == 1 {
      FloorRootUnique(estimate, FloorRoot(value), value);
    }
  }

  lemma LiveContinues(value: nat, estimate: nat)
    requires 0 < value && LiveEstimate(value, estimate) && Midpoint(estimate, value / estimate) < estimate
    ensures LiveEstimate(value, Midpoint(estimate, value / estimate))
  {
    hide TopBit;
    hide Pow2;
    NewtonStaysAbove(value, estimate);
  }

  method LiveIntegerSqrt(value: nat) returns (r: nat)
    requires value <= U64_MAX
    ensures r == LiveRoot(value)
  {
    if value == 0 {
      return 0;
    }
    LiveStart(value);
    var estimate: nat := Pow2((TopBit(value) + 1) / 2);
    hide TopBit;
    hide LiveRoot;
    while true
      invariant LiveEstimate(value, estimate)
      decreases estimate
    {
      LiveStepIsNewton(value, estimate);
      hide Midpoint;
      hide LiveStep;
      var next := LiveStep(value, estimate);
      if next >= estimate {
        LiveStops(value, estimate);
        return estimate;
      }
      LiveContinues(value, estimate);
      estimate := next;
    }
  }

  /** The live root is never too large, and less than a factor of the square root of two too small. */
  lemma LiveRootBounds(v: nat)
    ensures LiveRoot(v) * LiveRoot(v) <= v
    ensures v < (LiveRoot(v) + 1) * (LiveRoot(v) + 1) || v < 2 * (LiveRoot(v) * LiveRoot(v))
  {
    hide FloorRoot;
    if v > 0 && TopBit(v) % 2 == 0 {
      EvenStart(v, TopBit(v) / 2);
    }
  }

  /** The live root is the floor root exactly for an odd top bit or a value below the square after the power of two. */
  lemma LiveRootExact(v: nat)
    ensures LiveRoot(v) == FloorRoot(v)
       <==> v == 0 || TopBit(v) % 2 == 1 || v < (Pow2(TopBit(v) / 2) + 1) * (Pow2(TopBit(v) / 2) + 1)
  {
    hide FloorRoot;
    LiveRootBounds(v);
    if IsFloorRoot(LiveRoot(v), v) {
      FloorRootUnique(LiveRoot(v), FloorRoot(v), v);
    }
  }

  /** 30 is the classic miss. */
  lemma LiveRootOfThirty()
    ensures LiveRoot(30) == 4 && FloorRoot(30) == 5
  {
    hide FloorRoot;
    assert Pow2(2) == 4 && Pow2(4) == 16;
    assert TopBit(30) == 4;
    FloorRootUnique(5, FloorRoot(30), 30);
  }

  // ----- samples

  /** The magnitude of a little-endian signed 16-bit sample. */
  function Magnitude(low: byte, high: byte): (m: nat)
    ensures m <= 32768
  {
    var word := low + 256 * high;
    if word < 32768 then word else 65536 - word
  }

  /** The magnitudes of the complete samples; an odd last byte is ignored. */
  function Magnitudes(pcm: bytes): (ms: seq<nat>)
    ensures |ms| == |pcm| / 2
    ensures forall i :: 0 <= i < |ms| ==> ms[i] == Magnitude(pcm[2 * i], pcm[2 * i + 1])
  {
    seq(|pcm| / 2, i requires 0 <= i < |pcm| / 2 => Magnitude(pcm[2 * i], pcm[2 * i + 1]))
  }

  function SquareSum(ms: seq<nat>): nat {
    if ms == [] then 0 else SquareSum(ms[..|ms| - 1]) + ms[|ms| - 1] * ms[|ms| - 1]
  }

  function PeakOf(ms: seq<nat>): nat {
    if ms == [] then 0 else Max(PeakOf(ms[..|ms| - 1]), ms[|ms| - 1])
  }

  function CountAtLeast(ms: seq<nat>, bound: nat): nat {
    if ms == [] then 0 else CountAtLeast(ms[..|ms| - 1], bound) + if ms[|ms| - 1] >= bound then 1 else 0
  }

  lemma {:induction false} PeakIsMaximum(ms: seq<nat>)
    ensures forall i :: 0 <= i < |ms| ==> ms[i] <= PeakOf(ms)
    ensures ms != [] ==> PeakOf(ms) in ms
  {
    if ms != [] {
      var n := |ms| - 1;
      PeakIsMaximum(ms[..n]);
      assert forall i :: 0 <= i < n ==> ms[i] == ms[..n][i];
    }
  }

  lemma {:induction false} SquareSumBound(ms: seq<nat>)
    ensures SquareSum(ms) <= |ms| * (PeakOf(ms) * PeakOf(ms))
  {
    if ms != [] {
      var n := |ms| - 1;
      SquareSumBound(ms[..n]);
      OneMoreSquare(n, SquareSum(ms[..n]), PeakOf(ms[..n]), ms[n], PeakOf(ms));
    }
  }

  lemma OneMoreSquare(n: nat, sum: nat, before: nat, last: nat, peak: nat)
    requires before <= peak && last <= peak && sum <= n * (before * before)
    ensures sum + last * last <= (n + 1) * (peak * peak)
  {
    SquareMonotone(last, peak);
    SquareMonotone(before, peak);
    ProductMonotone(n, before * before, peak * peak);
    FactorDistributes(n, peak * peak);
  }

  lemma FactorDistributes(n: nat, w: nat)
    ensures (n + 1) * w == n * w + w
  {
  }

  /** A mean of squares has its root within the peak. */
  lemma RootOfMeanWithinPeak(ms: seq<nat>, sum: nat, r: nat)
    requires ms != [] && sum <= SquareSum(ms) && r * r <= Mean(sum, |ms|)
    ensures r <= PeakOf(ms)
  {
    SquareSumBound(ms);
    hide SquareSum;
    hide PeakOf;
    MeanWithinSquare(|ms|, sum, PeakOf(ms), sum / |ms|);
    SquareReflects(r, PeakOf(ms));
  }

  lemma MeanWithinSquare(n: nat, sum: nat, p: nat, mean: nat)
    requires n > 0 && sum <= n * (p * p) && mean == sum / n
    ensures mean <= p * p
  {
    var w := p * p;
    DivisionBound(sum, n);
    if mean > w {
      Distribute(n, w);
      ProductMonotone(n, w + 1, mean);
    }
  }

  lemma PeakWithinRange(pcm: bytes)
    ensures PeakOf(Magnitudes(pcm)) <= 32768
  {
    PeakIsMaximum(Magnitudes(pcm));
  }

  function Mean(sum: nat, count: nat): nat
    requires count > 0
  {
    sum / count
  }

  // ----- voice detection's frame level

  /** A conversion to 16 bits that falls back to zero. */
  function AsU16(value: nat): nat {
    if value <= U16_MAX then value else 0
  }

  /** The level of a frame: the floor root of the mean square. The sum saturates as a word. */
  function Level(pcm: bytes): nat {
    var ms := Magnitudes(pcm);
    if ms == [] then 0 else FloorRoot(Mean(Min(SquareSum(ms), U64_MAX), |ms|))
  }

  /** The level is within the peak, so it always fits its 16 bits and the zero fallback is never taken. */
  lemma LevelWithinPeak(pcm: bytes)
    ensures Level(pcm) <= PeakOf(Magnitudes(pcm)) <= 32768
  {
    hide FloorRoot;
    var ms := Magnitudes(pcm);
    PeakWithinRange(pcm);
    if ms != [] {
      RootOfMeanWithinPeak(ms, Min(SquareSum(ms), U64_MAX), Level(pcm));
    }
  }

  lemma OneMoreSample(ms: seq<nat>, i: nat, clip: nat)
    requires i < |ms|
    ensures SquareSum(ms[..i + 1]) == SquareSum(ms[..i]) + ms[i] * ms[i]
    ensures PeakOf(ms[..i + 1]) == Max(PeakOf(ms[..i]), ms[i])
    ensures CountAtLeast(ms[..i + 1], clip) == CountAtLeast(ms[..i], clip) + if ms[i] >= clip then 1 else 0
  {
    assert ms[..i + 1][..i] == ms[..i] && ms[..i + 1][i] == ms[i];
  }

  lemma NoSamples(ms: seq<nat>, clip: nat)
    ensures SquareSum(ms[..0]) == PeakOf(ms[..0]) == CountAtLeast(ms[..0], clip) == 0
  {
  }

  /** One more square on a saturating sum: neither the square nor an earlier saturation is lost. */
  lemma SaturatingSquare(sum: nat, magnitude: nat)
    requires magnitude <= 32768
    ensures AddSquare(Min(sum, U64_MAX), magnitude) == Min(sum + magnitude * magnitude, U64_MAX)
  {
    SquareMonotone(magnitude, 32768);
  }

  function AddSquare(sum: nat, magnitude: nat): nat {
    Min(sum + Min(magnitude * magnitude, U64_MAX), U64_MAX)
  }

  method FrameLevel(frame: bytes) returns (rms: nat, peak: nat)
    ensures rms == Level(frame) && peak == PeakOf(Magnitudes(frame))
    ensures rms <= peak <= 32768
  {
    hide FloorRoot;
    hide SquareSum;
    hide PeakOf;
    hide CountAtLeast;
    hide AddSquare;
    ghost var ms := Magnitudes(frame);
    NoSamples(ms, CLIP_LEVEL);
    var squareSum: nat, samples: nat := 0, 0;
    peak := 0;
    for i := 0 to |frame| / 2
      invariant squareSum == Min(SquareSum(ms[..i]), U64_MAX) && samples == i && peak == PeakOf(ms[..i])
    {
      OneMoreSample(ms, i, CLIP_LEVEL);
      var magnitude := Magnitude(frame[2 * i], frame[2 * i + 1]);
      peak := Max(peak, magnitude);
      SaturatingSquare(SquareSum(ms[..i]), magnitude);
      squareSum := AddSquare(squareSum, magnitude);
      samples := samples + 1;
    }
    assert ms[..|frame| / 2] == ms;
    if samples == 0 {
      rms := 0;
    } else {
      var root := IntegerSqrt(Mean(squareSum, samples));
      LevelWithinPeak(frame);
      rms := AsU16(root);
    }
    LevelWithinPeak(frame);
  }

  // ----- the live meter's frame metrics

  const CLIP_LEVEL := 32735
  const SAMPLE_MAX := 65535

  datatype FrameMetrics = FrameMetrics(rms: nat, peak: nat, clippedSamples: nat, samples: nat)

  function Metrics(pcm: bytes): FrameMetrics {
    var ms := Magnitudes(pcm);
    var samples := Min(|ms|, SAMPLE_MAX);
    FrameMetrics(if ms == [] then 0 else AsU16(LiveRoot(Mean(Min(SquareSum(ms), U64_MAX), samples))), PeakOf(ms),
                 Min(CountAtLeast(ms, CLIP_LEVEL), SAMPLE_MAX), samples)
  }

  /** The counters never exceed the samples. For up to 65535 samples - a frame has 320 - the meter's level is the root
      itself, within the peak. */
  lemma MetricsWithinPeak(pcm: bytes)
    ensures var m := Metrics(pcm);
            && m.peak <= 32768 && m.clippedSamples <= m.samples == Min(|pcm| / 2, SAMPLE_MAX)
            && (|pcm| / 2 <= SAMPLE_MAX ==> m.rms <= m.peak)
            && (0 < |pcm| / 2 <= SAMPLE_MAX ==>
                  m.rms == LiveRoot(Mean(Min(SquareSum(Magnitudes(pcm)), U64_MAX), m.samples)))
  {
    hide LiveRoot;
    hide SquareSum;
    hide PeakOf;
    hide CountAtLeast;
    var ms := Magnitudes(pcm);
    PeakWithinRange(pcm);
    CountWithinLength(ms, CLIP_LEVEL);
    if 0 < |ms| <= SAMPLE_MAX {
      var sum := Min(SquareSum(ms), U64_MAX);
      LiveRootBounds(Mean(sum, |ms|));
      hide Mean;
      RootOfMeanWithinPeak(ms, sum, LiveRoot(Mean(sum, |ms|)));
    }
  }

  lemma {:induction false} UnitSamples(ms: seq<nat>)
    requires forall i :: 0 <= i < |ms| ==> ms[i] == 1
    ensures SquareSum(ms) == |ms| && PeakOf(ms) == if ms == [] then 0 else 1
  {
    if ms != [] {
      UnitSamples(ms[..|ms| - 1]);
    }
  }

  /** Past 65535 samples the counter saturates and the level can exceed the peak: four times as many samples of
      magnitude 1 have level 2. */
  lemma LongFrameExceedsPeak(pcm: bytes)
    requires |pcm| == 2 * (4 * SAMPLE_MAX) && forall i :: 0 <= i < |pcm| ==> pcm[i] == if i % 2 == 0 then 1 else 0
    ensures Metrics(pcm).rms == 2 && Metrics(pcm).peak == 1
  {
    var ms := Magnitudes(pcm);
    forall i | 0 <= i < |ms| ensures ms[i] == 1 {
      assert pcm[2 * i] == 1 && pcm[2 * i + 1] == 0;
    }
    UnitSamples(ms);
    hide SquareSum;
    hide PeakOf;
    hide CountAtLeast;
    assert Mean(Min(SquareSum(ms), U64_MAX), SAMPLE_MAX) == 4;
    LiveRootOfFour();
    hide LiveRoot;
  }

  lemma LiveRootOfFour()
    ensures LiveRoot(4) == 2
  {
    assert TopBit(4) == 2 && Pow2(1) == 2;
  }

  lemma {:induction false} CountWithinLength(ms: seq<nat>, bound: nat)
    ensures CountAtLeast(ms, bound) <= |ms|
  {
    if ms != [] {
      CountWithinLength(ms[..|ms| - 1], bound);
    }
  }

  method MeasureFrame(pcm: bytes) returns (m: FrameMetrics)
    ensures m == Metrics(pcm)
  {
    hide LiveRoot;
    hide SquareSum;
    hide PeakOf;
    hide CountAtLeast;
    hide AddSquare;
    ghost var ms := Magnitudes(pcm);
    NoSamples(ms, CLIP_LEVEL);
    var squareSum: nat, peak: nat, clipped: nat, samples: nat := 0, 0, 0, 0;
    for i := 0 to |pcm| / 2
      invariant squareSum == Min(SquareSum(ms[..i]), U64_MAX) && peak == PeakOf(ms[..i])
      invariant clipped == Min(CountAtLeast(ms[..i], CLIP_LEVEL), SAMPLE_MAX) && samples == Min(i, SAMPLE_MAX)
    {
      OneMoreSample(ms, i, CLIP_LEVEL);
      var magnitude := Magnitude(pcm[2 * i], pcm[2 * i + 1]);
      peak := Max(peak, magnitude);
      if magnitude >= CLIP_LEVEL {
        clipped := Min(clipped + 1, SAMPLE_MAX);
      }
      SaturatingSquare(SquareSum(ms[..i]), magnitude);
      squareSum := AddSquare(squareSum, magnitude);
      samples := Min(samples + 1, SAMPLE_MAX);
    }
    assert ms[..|pcm| / 2] == ms;
    var rms: nat := 0;
    if samples != 0 {
      var root := LiveIntegerSqrt(Mean(squareSum, samples));
      rms := AsU16(root);
    }
    m := FrameMetrics(rms, peak, clipped, samples);
  }

  // ----- what the figures are

  /** A sample is two bytes, the low one first, in two's complement; its magnitude is its distance from zero. */
  lemma MagnitudeIsDistance(low: byte, high: byte)
    ensures var sample := low + 256 * high - if high >= 128 then 65536 else 0;
            Magnitude(low, high) == if sample < 0 then -sample else sample
  {
  }

  lemma {:induction false} SquareSumAdds(a: seq<nat>, b: seq<nat>)
    ensures SquareSum(a + b) == SquareSum(a) + SquareSum(b)
    ensures CountAtLeast(a + b, CLIP_LEVEL) == CountAtLeast(a, CLIP_LEVEL) + CountAtLeast(b, CLIP_LEVEL)
  {
    if b == [] {
      assert a + b == a;
    } else {
      assert (a + b)[..|a + b| - 1] == a + b[..|b| - 1];
      SquareSumAdds(a, b[..|b| - 1]);
    }
  }

  lemma FiguresOfOne(m: nat)
    ensures SquareSum([m]) == m * m && CountAtLeast([m], CLIP_LEVEL) == if m >= 32735 then 1 else 0
  {
    assert [m][..0] == [];
  }

  /** The level of a frame is the largest whole number whose square is within the mean of the squares of its samples. */
  lemma LevelIsRootMeanSquare(pcm: bytes)
    requires |pcm| >= 2
    ensures var n, level := |pcm| / 2, Level(pcm);
            var sum := Min(SquareSum(Magnitudes(pcm)), U64_MAX);
            level * level * n <= sum < (level + 1) * (level + 1) * n
  {
    hide FloorRoot;
    hide SquareSum;
    hide Magnitude;
    var ms := Magnitudes(pcm);
    RootOfMean(Min(SquareSum(ms), U64_MAX), |ms|, Level(pcm));
  }

  lemma RootOfMean(sum: nat, n: nat, root: nat)
    requires n > 0 && IsFloorRoot(root, Mean(sum, n))
    ensures root * root * n <= sum < (root + 1) * (root + 1) * n
  {
    DivisionBound(sum, n);
    var mean := sum / n;
    FactorMonotone(root * root, mean, n);
    FactorMonotone(mean + 1, (root + 1) * (root + 1), n);
    ProductSwaps(n, mean);
    ProductSwaps(n, mean + 1);
  }

  lemma ProductSwaps(a: nat, b: nat)
    ensures a * b == b * a
  {
  }
}
