/** Microphone calibration: the integer statistics of a phase and the threshold
    suggested from them. */
module Calibration {
  import opened Base
  import opened Vad
  import opened VadTrim
  import Levels

  const CLIP_LEVEL := 32700
  const THRESHOLD_MAX := 10000

  datatype PhaseStats = PhaseStats(levels: seq<word16>, peak: nat, clippedSamples: nat, samples: nat)

  /** The complete frames of a recording; a short tail is not measured. */
  function Complete(pcm: bytes): bytes {
    pcm[..BYTES_PER_FRAME * (|pcm| / BYTES_PER_FRAME)]
  }

  function StatsOf(pcm: bytes): PhaseStats {
    var ms := Levels.Magnitudes(Complete(pcm));
    PhaseStats(FrameLevelsOf(Complete(pcm)), Levels.PeakOf(ms), Levels.CountAtLeast(ms, CLIP_LEVEL), |ms|)
  }

  // ----- statistics of a growing list of samples

  lemma {:induction false} CountOfConcat(a: seq<nat>, b: seq<nat>, bound: nat)
    ensures Levels.CountAtLeast(a + b, bound) == Levels.CountAtLeast(a, bound) + Levels.CountAtLeast(b, bound)
  {
    if b == [] {
      assert a + b == a;
    } else {
      assert (a + b)[..|a + b| - 1] == a + b[..|b| - 1];
      CountOfConcat(a, b[..|b| - 1], bound);
    }
  }

  lemma MagnitudesOfConcat(a: bytes, b: bytes)
    requires |a| % 2 == 0
    ensures Levels.Magnitudes(a + b) == Levels.Magnitudes(a) + Levels.Magnitudes(b)
  {
    hide Levels.Magnitude;
    var whole, left, right := Levels.Magnitudes(a + b), Levels.Magnitudes(a), Levels.Magnitudes(b);
    assert |whole| == |left| + |right|;
    forall k | 0 <= k < |whole| ensures whole[k] == (left + right)[k] {
      if k >= |left| {
        assert (a + b)[2 * k] == b[2 * (k - |left|)] && (a + b)[2 * k + 1] == b[2 * (k - |left|) + 1];
      }
    }
  }

  /** One frame's samples, added to what the phase has so far. */
  method MeasureInto(frame: bytes, before: PhaseStats) returns (stats: PhaseStats)
    requires |frame| == BYTES_PER_FRAME
    ensures var ms := Levels.Magnitudes(frame);
            stats == PhaseStats(before.levels + [LevelOf(frame)], Max(before.peak, Levels.PeakOf(ms)),
                                before.clippedSamples + Levels.CountAtLeast(ms, CLIP_LEVEL), before.samples + |ms|)
  {
    hide Levels.SquareSum;
    hide Levels.PeakOf;
    hide Levels.CountAtLeast;
    hide Levels.AddSquare;
    hide Levels.FloorRoot;
    ghost var ms := Levels.Magnitudes(frame);
    Levels.NoSamples(ms, CLIP_LEVEL);
    var squareSum: nat, frameSamples: nat, peak: nat, clipped: nat := 0, 0, before.peak, before.clippedSamples;
    for i := 0 to |frame| / 2
      invariant squareSum == Min(Levels.SquareSum(ms[..i]), U64_MAX) && frameSamples == i
      invariant peak == Max(before.peak, Levels.PeakOf(ms[..i]))
      invariant clipped == before.clippedSamples + Levels.CountAtLeast(ms[..i], CLIP_LEVEL)
    {
      Levels.OneMoreSample(ms, i, CLIP_LEVEL);
      var magnitude := Levels.Magnitude(frame[2 * i], frame[2 * i + 1]);
      peak := Max(peak, magnitude);
      if magnitude >= CLIP_LEVEL {
        clipped := clipped + 1;
      }
      Levels.SaturatingSquare(Levels.SquareSum(ms[..i]), magnitude);
      squareSum := Levels.AddSquare(squareSum, magnitude);
      frameSamples := frameSamples + 1;
    }
    assert ms[..|frame| / 2] == ms;
    var root := Levels.IntegerSqrt(Levels.Mean(squareSum, frameSamples));
    Levels.LevelWithinPeak(frame);
    stats := PhaseStats(before.levels + [Levels.AsU16(root)], peak, clipped, before.samples + frameSamples);
  }

  lemma NextFrame(pcm: bytes, i: nat)
    requires BYTES_PER_FRAME * (i + 1) <= |pcm|
    ensures var before, after := StatsOf(pcm[..BYTES_PER_FRAME * i]), StatsOf(pcm[..BYTES_PER_FRAME * (i + 1)]);
            var frame := Frame(pcm, i);
            var ms := Levels.Magnitudes(frame);
            after == PhaseStats(before.levels + [LevelOf(frame)], Max(before.peak, Levels.PeakOf(ms)),
                                before.clippedSamples + Levels.CountAtLeast(ms, CLIP_LEVEL), before.samples + |ms|)
  {
    hide Levels.Magnitudes;
    hide Levels.PeakOf;
    hide Levels.CountAtLeast;
    hide FrameLevelsOf;
    hide LevelOf;
    hide Complete;
    hide Frame;
    var a, b, frame := pcm[..BYTES_PER_FRAME * i], pcm[..BYTES_PER_FRAME * (i + 1)], Frame(pcm, i);
    FrameEdges(i);
    PrefixIsComplete(pcm, i);
    PrefixIsComplete(pcm, i + 1);
    FrameExtends(pcm, i, BYTES_PER_FRAME * i);
    MagnitudesOfConcat(a, frame);
    PeakOfConcat(Levels.Magnitudes(a), Levels.Magnitudes(frame));
    CountOfConcat(Levels.Magnitudes(a), Levels.Magnitudes(frame), CLIP_LEVEL);
    LevelsOfNextFrame(pcm, i);
  }

  lemma PrefixIsComplete(pcm: bytes, k: nat)
    requires BYTES_PER_FRAME * k <= |pcm|
    ensures Complete(pcm[..BYTES_PER_FRAME * k]) == pcm[..BYTES_PER_FRAME * k]
  {
    FrameMultiple(k);
  }

  lemma FrameExtends(pcm: bytes, i: nat, edge: nat)
    requires edge == BYTES_PER_FRAME * i && edge + BYTES_PER_FRAME <= |pcm|
    ensures pcm[..edge + BYTES_PER_FRAME] == pcm[..edge] + Frame(pcm, i)
  {
  }

  lemma LevelsOfNextFrame(pcm: bytes, i: nat)
    requires BYTES_PER_FRAME * (i + 1) <= |pcm|
    ensures FrameLevelsOf(pcm[..BYTES_PER_FRAME * (i + 1)])
         == FrameLevelsOf(pcm[..BYTES_PER_FRAME * i]) + [LevelOf(Frame(pcm, i))]
  {
    hide LevelOf;
    var a, b := pcm[..BYTES_PER_FRAME * i], pcm[..BYTES_PER_FRAME * (i + 1)];
    assert FrameCount(a) == i && FrameCount(b) == i + 1;
    forall k | 0 <= k < i ensures FrameLevelsOf(b)[k] == FrameLevelsOf(a)[k] {
      assert Frame(b, k) == Frame(a, k);
    }
    assert Frame(b, i) == Frame(pcm, i);
  }

  /** A phase is measured frame by frame; the levels are the ones voice detection computes for the same frames. */
  method MeasurePhase(pcm: bytes) returns (stats: PhaseStats)
    ensures var whole := pcm[..640 * (|pcm| / 640)];
            var samples := Levels.Magnitudes(whole);
            stats == PhaseStats(FrameLevelsOf(whole), Levels.PeakOf(samples), Levels.CountAtLeast(samples, 32700), |samples|)
  {
    hide StatsOf;
    stats := PhaseStats([], 0, 0, 0);
    EmptyPhase(pcm);
    for i := 0 to |pcm| / BYTES_PER_FRAME
      invariant stats == StatsOf(pcm[..BYTES_PER_FRAME * i])
    {
      NextFrame(pcm, i);
      stats := MeasureInto(Frame(pcm, i), stats);
    }
    CompleteTwice(pcm);
    StatsMean(pcm);
  }

  lemma StatsMean(pcm: bytes)
    ensures var whole := pcm[..640 * (|pcm| / 640)];
            var samples := Levels.Magnitudes(whole);
            StatsOf(pcm)
            == PhaseStats(FrameLevelsOf(whole), Levels.PeakOf(samples), Levels.CountAtLeast(samples, 32700), |samples|)
  {
    hide FrameLevelsOf;
    hide Levels.Magnitudes;
    hide Levels.PeakOf;
    hide Levels.CountAtLeast;
  }

  lemma EmptyPhase(pcm: bytes)
    ensures StatsOf(pcm[..0]) == PhaseStats([], 0, 0, 0)
  {
  }

  lemma FrameMultiple(k: nat)
    ensures BYTES_PER_FRAME * k / BYTES_PER_FRAME == k
  {
  }

  lemma CompleteAgain(pcm: bytes)
    ensures Complete(Complete(pcm)) == Complete(pcm)
  {
    FrameMultiple(|pcm| / BYTES_PER_FRAME);
  }

  lemma CompleteTwice(pcm: bytes)
    ensures StatsOf(Complete(pcm)) == StatsOf(pcm)
  {
    hide Complete;
    hide FrameLevelsOf;
    hide Levels.Magnitudes;
    hide Levels.PeakOf;
    hide Levels.CountAtLeast;
    CompleteAgain(pcm);
  }

  function SuggestedThreshold(noiseP95: word16, speechP50: word16): word16 {
    if speechP50 <= noiseP95 then Min(SaturatingAdd16(noiseP95, 80), THRESHOLD_MAX)
    else Min(SaturatingAdd16(noiseP95, Max((speechP50 - noiseP95) / 4, 80)), THRESHOLD_MAX)
  }

  /** Exactly when the suggestion separates the noise from the speech. */
  lemma SuggestionSeparates(noiseP95: word16, speechP50: word16)
    ensures noiseP95 < SuggestedThreshold(noiseP95, speechP50) < speechP50
       <==> noiseP95 < THRESHOLD_MAX && Min(noiseP95 + 80, THRESHOLD_MAX) < speechP50
  {
    var quarter := (speechP50 - noiseP95) / 4;
    if speechP50 > noiseP95 {
      assert quarter < speechP50 - noiseP95;
    }
  }

  /** The suggestion lies a quarter of the distance from the noise to the speech, rounded down, but at least 80, above the
      noise; and at most at 10000. */
  lemma SuggestionIs(noiseP95: word16, speechP50: word16)
    ensures var distance := Max(speechP50 - noiseP95, 0);
            exists quarter ::
              4 * quarter <= distance < 4 * quarter + 4
              && SuggestedThreshold(noiseP95, speechP50) == Min(noiseP95 + Max(quarter, 80), 10000)
  {
    var distance := Max(speechP50 - noiseP95, 0);
    var quarter := distance / 4;
    assert 4 * quarter <= distance < 4 * quarter + 4
        && SuggestedThreshold(noiseP95, speechP50) == Min(noiseP95 + Max(quarter, 80), 10000);
  }
}
