/** Batch analysis of a recording, and the byte range that trimming keeps. */
module VadTrim {
  import opened Base
  import opened Vad
  import opened VadLaws
  import Levels

  const BYTES_PER_FRAME := 640

  // ----- percentiles

  function InsertLevel(x: word16, s: seq<word16>): (r: seq<word16>)
    ensures |r| == |s| + 1
  {
    if s == [] || x <= s[0] then [x] + s else [s[0]] + InsertLevel(x, s[1..])
  }

  /** The library sort of 16-bit words. */
  function SortLevels(s: seq<word16>): (r: seq<word16>)
    ensures |r| == |s|
  {
    if s == [] then [] else InsertLevel(s[|s| - 1], SortLevels(s[..|s| - 1]))
  }

  ghost predicate Ascending(s: seq<word16>) {
    forall i, j :: 0 <= i <= j < |s| ==> s[i] <= s[j]
  }

  function CountBelow(s: seq<word16>, bound: int): nat {
    if s == [] then 0 else (if s[0] < bound then 1 else 0) + CountBelow(s[1..], bound)
  }

  function CountAtMost(s: seq<word16>, bound: int): nat {
    CountBelow(s, bound + 1)
  }

  lemma {:induction false} InsertAscending(x: word16, s: seq<word16>)
    requires Ascending(s)
    ensures Ascending(InsertLevel(x, s))
    ensures forall b :: CountBelow(InsertLevel(x, s), b) == CountBelow(s, b) + if x < b then 1 else 0
    ensures InsertLevel(x, s)[0] == if s == [] || x <= s[0] then x else s[0]
  {
    if s == [] || x <= s[0] {
      assert ([x] + s)[1..] == s;
    } else {
      InsertAscending(x, s[1..]);
      var rest := InsertLevel(x, s[1..]);
      assert ([s[0]] + rest)[1..] == rest;
    }
  }

  lemma {:induction false} CountAppend(s: seq<word16>, bound: int)
    ensures s != [] ==> CountBelow(s, bound) == CountBelow(s[..|s| - 1], bound) + if s[|s| - 1] < bound then 1 else 0
  {
    if |s| == 1 {
      assert s[..0] == [];
    } else if |s| > 1 {
      CountAppend(s[1..], bound);
      assert s[1..][..|s| - 2] == s[..|s| - 1][1..];
    }
  }

  lemma {:induction false} SortAscends(s: seq<word16>)
    ensures Ascending(SortLevels(s))
    ensures forall b :: CountBelow(SortLevels(s), b) == CountBelow(s, b)
  {
    if s != [] {
      var n := |s| - 1;
      SortAscends(s[..n]);
      InsertAscending(s[n], SortLevels(s[..n]));
      forall b ensures CountBelow(SortLevels(s), b) == CountBelow(s, b) {
        CountAppend(s, b);
      }
    }
  }

  /** In an ascending list, at most i elements are below element i and more than i are at most element i. */
  lemma {:induction false} RankAscending(s: seq<word16>, i: nat)
    requires Ascending(s) && i < |s|
    ensures CountBelow(s, s[i]) <= i < CountAtMost(s, s[i])
  {
    if i == 0 {
      NoneBelow(s, s[0]);
    } else {
      RankAscending(s[1..], i - 1);
    }
  }

  lemma {:induction false} NoneBelow(s: seq<word16>, bound: int)
    requires forall k :: 0 <= k < |s| ==> bound <= s[k]
    ensures CountBelow(s, bound) == 0
  {
    if s != [] {
      NoneBelow(s[1..], bound);
    }
  }

  function PercentileIndex(count: nat, percentile: nat): (i: nat)
    requires count > 0 && percentile <= 100
    ensures i < count && 100 * i <= (count - 1) * percentile < 100 * i + 100
  {
    Levels.ProductMonotone(count - 1, percentile, 100);
    (count - 1) * percentile / 100
  }

  function Percentile(values: seq<word16>, percentile: nat): word16
    requires values != [] && percentile <= 100
  {
    SortLevels(values)[PercentileIndex(|values|, percentile)]
  }

  /** What a percentile means, without sorting: at most its rank of the values lie below it, and more than its rank
      lie at or below it. */
  lemma PercentileRank(values: seq<word16>, percentile: nat)
    requires values != [] && percentile <= 100
    ensures var v, rank := Percentile(values, percentile), PercentileIndex(|values|, percentile);
            CountBelow(values, v) <= rank < CountAtMost(values, v)
  {
    SortAscends(values);
    hide SortLevels;
    hide CountBelow;
    hide PercentileIndex;
    RankAscending(SortLevels(values), PercentileIndex(|values|, percentile));
  }

  /** A higher percentile is never a smaller value. */
  lemma PercentileMonotone(values: seq<word16>, low: nat, high: nat)
    requires values != [] && low <= high <= 100
    ensures Percentile(values, low) <= Percentile(values, high)
  {
    SortAscends(values);
    hide SortLevels;
    Levels.ProductMonotone(|values| - 1, low, high);
  }

  // ----- frames of a recording

  /** Complete frames, and a last short one when it holds a sample. */
  function FrameCount(pcm: bytes): nat {
    |pcm| / BYTES_PER_FRAME + if |pcm| % BYTES_PER_FRAME >= 2 then 1 else 0
  }

  function Frame(pcm: bytes, i: nat): bytes
    requires BYTES_PER_FRAME * i <= |pcm|
  {
    pcm[BYTES_PER_FRAME * i..Min(BYTES_PER_FRAME * i + BYTES_PER_FRAME, |pcm|)]
  }

  lemma FrameExists(pcm: bytes, i: nat)
    requires i < FrameCount(pcm)
    ensures BYTES_PER_FRAME * i + 2 <= |pcm|
  {
  }

  function FrameLevelsOf(pcm: bytes): (levels: seq<word16>)
    ensures |levels| == FrameCount(pcm)
  {
    seq(FrameCount(pcm), i requires 0 <= i < FrameCount(pcm) => FrameExists(pcm, i); LevelOf(Frame(pcm, i)))
  }

  /** The levels are those of the pieces of 640 bytes, in order; a last shorter piece counts if it holds a sample. */
  lemma LevelsOfPieces(pcm: bytes, i: nat)
    requires i < |FrameLevelsOf(pcm)|
    ensures 640 * i + 2 <= |pcm|
    ensures FrameLevelsOf(pcm)[i] == Levels.Level(pcm[640 * i..Min(640 * i + 640, |pcm|)])
    ensures |pcm| < 640 * |FrameLevelsOf(pcm)| + 2
  {
    FrameExists(pcm, i);
    hide Levels.Level;
  }

  lemma {:induction false} PeakOfConcat(a: seq<nat>, b: seq<nat>)
    ensures Levels.PeakOf(a + b) == Max(Levels.PeakOf(a), Levels.PeakOf(b))
  {
    if b == [] {
      assert a + b == a;
    } else {
      assert (a + b)[..|a + b| - 1] == a + b[..|b| - 1];
      PeakOfConcat(a, b[..|b| - 1]);
    }
  }

  lemma PeakOfPrefix(pcm: bytes, i: nat, j: nat)
    requires i <= j <= |pcm| && i % 2 == 0
    ensures Levels.PeakOf(Levels.Magnitudes(pcm[..j]))
         == Max(Levels.PeakOf(Levels.Magnitudes(pcm[..i])), Levels.PeakOf(Levels.Magnitudes(pcm[i..j])))
  {
    hide Levels.Magnitude;
    hide Levels.PeakOf;
    var whole, a, b := Levels.Magnitudes(pcm[..j]), Levels.Magnitudes(pcm[..i]), Levels.Magnitudes(pcm[i..j]);
    assert |whole| == |a| + |b|;
    forall k | 0 <= k < |whole| ensures whole[k] == (a + b)[k] {
      if k >= |a| {
        assert pcm[i..j][2 * (k - |a|)] == pcm[2 * k] && pcm[i..j][2 * (k - |a|) + 1] == pcm[2 * k + 1];
      }
    }
    assert whole == a + b;
    PeakOfConcat(a, b);
  }

  /** The chunks of 640 bytes, counting a last short one. */
  function ChunkCount(pcm: bytes): nat {
    (|pcm| + BYTES_PER_FRAME - 1) / BYTES_PER_FRAME
  }

  function LevelsUpTo(pcm: bytes, i: nat): seq<word16> {
    FrameLevelsOf(pcm)[..Min(i, FrameCount(pcm))]
  }

  function PeakUpTo(pcm: bytes, i: nat): nat {
    Levels.PeakOf(Levels.Magnitudes(pcm[..Min(BYTES_PER_FRAME * i, |pcm|)]))
  }

  lemma NextChunk(pcm: bytes, i: nat)
    requires i < ChunkCount(pcm)
    ensures BYTES_PER_FRAME * i < |pcm|
    ensures LevelsUpTo(pcm, i + 1)
         == LevelsUpTo(pcm, i) + if |Frame(pcm, i)| >= 2 then [LevelOf(Frame(pcm, i))] else []
  {
    hide LevelOf;
    if |Frame(pcm, i)| >= 2 {
      assert i < FrameCount(pcm);
      assert FrameLevelsOf(pcm)[i] == LevelOf(Frame(pcm, i));
    } else {
      assert i >= FrameCount(pcm);
    }
  }

  lemma TooShortForPeak(frame: bytes)
    requires |frame| < 2
    ensures Levels.PeakOf(Levels.Magnitudes(frame)) == 0
  {
  }

  lemma DoubleIsEven(n: nat)
    ensures 2 * n % 2 == 0
  {
  }

  lemma FrameEdges(i: nat)
    ensures BYTES_PER_FRAME * i % 2 == 0 && BYTES_PER_FRAME * (i + 1) == BYTES_PER_FRAME * i + BYTES_PER_FRAME
  {
    var half := BYTES_PER_FRAME / 2 * i;
    DoubleIsEven(half);
    assert BYTES_PER_FRAME * i == 2 * half;
  }

  lemma PeakBefore(pcm: bytes, i: nat, edge: nat)
    requires edge == BYTES_PER_FRAME * i
    ensures PeakUpTo(pcm, i) == Levels.PeakOf(Levels.Magnitudes(pcm[..Min(edge, |pcm|)]))
  {
    hide Levels.Magnitudes;
    hide Levels.PeakOf;
  }

  lemma FrameBetween(pcm: bytes, i: nat, edge: nat)
    requires edge == BYTES_PER_FRAME * i <= |pcm|
    ensures Frame(pcm, i) == pcm[edge..Min(edge + BYTES_PER_FRAME, |pcm|)]
  {
  }

  lemma NextPeak(pcm: bytes, i: nat)
    requires i < ChunkCount(pcm) && BYTES_PER_FRAME * i < |pcm|
    ensures PeakUpTo(pcm, i + 1)
         == if |Frame(pcm, i)| >= 2 then Max(PeakUpTo(pcm, i), Levels.PeakOf(Levels.Magnitudes(Frame(pcm, i))))
            else PeakUpTo(pcm, i)
  {
    hide Levels.Magnitudes;
    hide Levels.PeakOf;
    hide ChunkCount;
    hide PeakUpTo;
    hide Frame;
    var edge := BYTES_PER_FRAME * i;
    FrameEdges(i);
    PeakBefore(pcm, i, edge);
    PeakBefore(pcm, i + 1, edge + BYTES_PER_FRAME);
    FrameBetween(pcm, i, edge);
    PeakOfPrefix(pcm, edge, Min(edge + BYTES_PER_FRAME, |pcm|));
    if |Frame(pcm, i)| < 2 {
      TooShortForPeak(Frame(pcm, i));
    }
  }

  lemma AllChunks(pcm: bytes)
    ensures LevelsUpTo(pcm, ChunkCount(pcm)) == FrameLevelsOf(pcm)
    ensures PeakUpTo(pcm, ChunkCount(pcm)) == Levels.PeakOf(Levels.Magnitudes(pcm))
    ensures LevelsUpTo(pcm, 0) == [] && PeakUpTo(pcm, 0) == 0
  {
    assert pcm[..|pcm|] == pcm;
    assert FrameCount(pcm) <= ChunkCount(pcm);
  }

  method FrameLevels(pcm: bytes) returns (levels: seq<word16>, peak: nat)
    ensures levels == FrameLevelsOf(pcm) && peak == Levels.PeakOf(Levels.Magnitudes(pcm))
  {
    hide LevelsUpTo;
    hide PeakUpTo;
    hide FrameLevelsOf;
    hide Levels.PeakOf;
    hide Levels.Magnitudes;
    AllChunks(pcm);
    levels, peak := [], 0;
    for i: nat := 0 to ChunkCount(pcm)
      invariant levels == LevelsUpTo(pcm, i) && peak == PeakUpTo(pcm, i)
    {
      NextChunk(pcm, i);
      NextPeak(pcm, i);
      var frame := Frame(pcm, i);
      var rms, framePeak := Levels.FrameLevel(frame);
      if |frame| >= 2 {
        levels := levels + [rms];
        peak := Max(peak, framePeak);
      }
    }
  }

  // ----- analysis

  function HeardIn(pcm: bytes, config: Config): Heard
    requires FrameCount(pcm) > 0
  {
    Listen(config, Some(Percentile(FrameLevelsOf(pcm), 20)), FrameLevelsOf(pcm))
  }

  function Analyze(pcm: bytes, config: Config): VadResult {
    var peak := Levels.PeakOf(Levels.Magnitudes(pcm));
    if FrameCount(pcm) == 0 then EmptyResult(peak) else Finish(HeardIn(pcm, config).state.(peak := peak))
  }

  /** A recording is judged from a noise floor that fewer than one in five of its frames lie below and more than one in
      five do not exceed. */
  lemma SeedIsQuiet(pcm: bytes, config: Config) returns (seed: word16)
    requires FrameCount(pcm) > 0
    ensures HeardIn(pcm, config) == Listen(config, Some(seed), FrameLevelsOf(pcm))
    ensures var levels := FrameLevelsOf(pcm);
            5 * CountBelow(levels, seed) < |levels| && 5 * CountAtMost(levels, seed) > |levels| - 1
  {
    var levels := FrameLevelsOf(pcm);
    seed := Percentile(levels, 20);
    PercentileRank(levels, 20);
    hide CountBelow;
    hide CountAtMost;
    hide FrameLevelsOf;
  }

  method AnalyzePcm(pcm: bytes, config: Config) returns (result: VadResult)
    ensures result == Analyze(pcm, config)
  {
    hide Step;
    hide Vad.Report;
    hide FrameLevelsOf;
    hide Percentile;
    var levels, peak := FrameLevels(pcm);
    if levels == [] {
      return EmptyResult(peak);
    }
    var seed := Some(Percentile(levels, 20));
    var vad := new StreamingVad(config, seed);
    for i := 0 to |levels|
      invariant fresh(vad) && vad.config == config && vad.State() == Listen(config, seed, levels[..i]).state
    {
      assert levels[..i + 1][..i] == levels[..i];
      var _ := vad.ProcessLevel(levels[i]);
    }
    assert levels[..|levels|] == levels;
    vad.peak := peak;
    result := Finish(vad.State());
  }

  /** Keeps the padded speech interval of a recording; without one the file stays as it is. */
  function TrimFile(pcm: bytes, result: VadResult): bytes {
    if result.trimStart.None? || result.trimEnd.None? then pcm
    else
      var start := Min(result.trimStart.value * BYTES_PER_FRAME, |pcm|);
      var end := Min(result.trimEnd.value * BYTES_PER_FRAME, |pcm|);
      if start >= end then pcm else pcm[start..end]
  }

  // ----- what trimming keeps

  lemma {:induction false} EventsAscend(events: seq<Event>, i: nat, j: nat)
    requires Alternates(events) && i <= j < |events|
    ensures events[i].frame <= events[j].frame
  {
    if i < j {
      EventsAscend(events, i, j - 1);
      assert Follows(events[j - 1], events[j - 1 + 1]);
    }
  }

  ghost predicate Bounded(h: Heard, r: VadResult) {
    && r.totalFrames == h.state.totalFrames
    && (r.speechDetected <==> h.events != [])
    && (r.trimStart.Some? <==> r.speechDetected) && (r.trimEnd.Some? <==> r.speechDetected)
    && (r.speechStart.Some? <==> r.speechDetected) && (r.speechEnd.Some? <==> r.speechDetected)
    && (r.speechDetected ==>
          && r.trimStart.value <= r.speechStart.value < r.speechEnd.value <= r.trimEnd.value <= r.totalFrames
          && r.speechStart == Some(h.events[0].frame) && r.speechEnd == h.state.speechEnd
          && r.trimStart.value == Max(r.speechStart.value - 8, 0)
          && r.trimEnd.value == Min(r.speechEnd.value + 15, r.totalFrames)
          && forall i :: 0 <= i < |h.events| ==>
               && r.trimStart.value <= Max(h.events[i].frame - 8, 0)
               && Min(h.events[i].frame + 15, r.totalFrames) <= r.trimEnd.value)
  }

  /** Speech is reported exactly when some segment was confirmed; then the bounds are ordered and inside the
      recording, and the padded interval covers every segment with its pre-roll and post-roll. */
  lemma AnalysisBounds(pcm: bytes, config: Config)
    requires FrameCount(pcm) > 0
    ensures Bounded(HeardIn(pcm, config), Analyze(pcm, config)) && Analyze(pcm, config).totalFrames == FrameCount(pcm)
  {
    var h, seed := HeardIn(pcm, config), Some(Percentile(FrameLevelsOf(pcm), 20));
    hide Percentile;
    hide FrameLevelsOf;
    hide Kept;
    hide CountersOk;
    hide Listen;
    hide Finish;
    hide Bounded;
    ListeningKeeps(config, seed, FrameLevelsOf(pcm));
    EventsInBounds(config, h);
    FinishBounds(config, h, Levels.PeakOf(Levels.Magnitudes(pcm)));
  }

  lemma EventsInBounds(config: Config, h: Heard)
    requires Kept(config, h)
    ensures CountersOk(config, h) && h.state.totalFrames == |h.levels|
    ensures h.events != [] ==> h.state.speechEnd.Some? && h.events[0].frame < h.state.speechEnd.value <= h.state.totalFrames
    ensures forall i :: 0 <= i < |h.events| ==>
              h.events[0].frame <= h.events[i].frame < h.state.totalFrames
              && h.events[i].frame <= h.state.speechEnd.value
  {
    hide EndedSegments;
    hide Current;
    forall i | 0 <= i < |h.events|
      ensures h.events[0].frame <= h.events[i].frame <= h.events[|h.events| - 1].frame {
      EventsAscend(h.events, 0, i);
      EventsAscend(h.events, i, |h.events| - 1);
    }
    if |h.events| > 1 {
      assert Follows(h.events[0], h.events[0 + 1]);
      EventsAscend(h.events, 1, |h.events| - 1);
    }
    hide Alternates;
  }

  lemma FinishBounds(config: Config, h: Heard, peak: nat)
    requires CountersOk(config, h) && h.state.totalFrames > 0
    requires h.events != [] ==> h.state.speechEnd.Some? && h.events[0].frame < h.state.speechEnd.value <= h.state.totalFrames
    requires forall i :: 0 <= i < |h.events| ==>
               h.events[0].frame <= h.events[i].frame && h.events[i].frame <= h.state.speechEnd.value
    ensures Bounded(h, Finish(h.state.(peak := peak)))
    ensures Finish(h.state.(peak := peak)).totalFrames == h.state.totalFrames
  {
    hide Needed;
  }

  lemma TrimSlice(pcm: bytes, r: VadResult, a: nat, b: nat)
    requires r.trimStart == Some(a) && r.trimEnd == Some(b) && a < b <= FrameCount(pcm)
    ensures BYTES_PER_FRAME * a < Min(BYTES_PER_FRAME * b, |pcm|)
    ensures TrimFile(pcm, r) == pcm[BYTES_PER_FRAME * a..Min(BYTES_PER_FRAME * b, |pcm|)]
  {
    FrameExists(pcm, a);
  }

  /** Trimming a recording with speech keeps a non-empty range of its bytes: the padded frames, the last one as long
      as the recording has it. Without speech the recording is kept whole. */
  lemma TrimKeepsSpeech(pcm: bytes, config: Config)
    ensures var r := Analyze(pcm, config);
            if r.speechDetected then
              && r.trimStart.Some? && r.trimEnd.Some?
              && 640 * r.trimStart.value < Min(640 * r.trimEnd.value, |pcm|)
              && TrimFile(pcm, r) == pcm[640 * r.trimStart.value..Min(640 * r.trimEnd.value, |pcm|)]
            else TrimFile(pcm, r) == pcm
  {
    var r := Analyze(pcm, config);
    if FrameCount(pcm) > 0 {
      AnalysisBounds(pcm, config);
      hide Analyze;
      hide HeardIn;
      hide FrameCount;
      if r.speechDetected {
        TrimSlice(pcm, r, r.trimStart.value, r.trimEnd.value);
      }
    }
  }
}
