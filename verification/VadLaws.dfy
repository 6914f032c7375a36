/** What voice detection keeps over every sequence of levels. */
module VadLaws {
  import opened Base
  import opened Vad
  import Levels

  /** A detector with everything it was given and everything it reported. */
  datatype Heard = Heard(state: Detector, levels: seq<word16>, entries: seq<word16>, events: seq<Event>)

  function Emitted(event: Option<Event>): seq<Event> {
    if event.Some? then [event.value] else []
  }

  /** One more level; the entry threshold it is held against is noted beside it. */
  function Hear(config: Config, h: Heard, rms: word16): Heard {
    Heard(Step(config, h.state, rms), h.levels + [rms], h.entries + [h.state.threshold],
          h.events + Emitted(EventAt(config, h.state, rms)))
  }

  function Listen(config: Config, seed: Option<word16>, levels: seq<word16>): Heard {
    if levels == [] then Heard(Initial(config, seed), [], [], [])
    else Hear(config, Listen(config, seed, levels[..|levels| - 1]), levels[|levels| - 1])
  }

  // ----- what is kept

  predicate Follows(a: Event, b: Event) {
    || (a.SpeechStarted? && b.SpeechEnded? && a.frame < b.frame)
    || (a.SpeechEnded? && b.SpeechStarted? && a.frame + END_SILENCE_FRAMES <= b.frame)
  }

  /** Started and Ended alternate, a segment is not empty, and silence separates segments. */
  ghost predicate Alternates(events: seq<Event>) {
    && (events != [] ==> events[0].SpeechStarted?)
    && (forall i :: 0 <= i < |events| - 1 ==> Follows(events[i], events[i + 1]))
  }

  predicate LastStarted(events: seq<Event>) {
    events != [] && events[|events| - 1].SpeechStarted?
  }

  predicate CountersOk(config: Config, h: Heard) {
    var d := h.state;
    && |h.levels| == |h.entries| == d.totalFrames
    && d.attackFrames < Needed(config) && d.attackFrames <= d.totalFrames && d.releaseFrames < END_SILENCE_FRAMES
    && d.attackStart == (if d.attackFrames == 0 then None else Some(d.totalFrames - d.attackFrames))
    && (d.active ==> d.attackFrames == 0)
    && (!d.active ==> d.releaseFrames == 0)
    && (d.active <==> LastStarted(h.events))
    && d.speechStart == (if h.events == [] then None else Some(h.events[0].frame))
    && (h.events == [] <==> d.speechEnd.None?)
    && (h.events != [] ==>
          var last := h.events[|h.events| - 1].frame;
          if d.active then last < d.speechEnd.value && d.speechEnd.value + d.releaseFrames == d.totalFrames
          else d.speechEnd == Some(last) && last + END_SILENCE_FRAMES <= d.totalFrames - d.attackFrames)
  }

  /** As many frames as speech needs, from s on, each at or above the entry threshold of its time. */
  ghost predicate Confirmed(config: Config, h: Heard, s: nat) {
    && s + Needed(config) <= |h.levels| == |h.entries|
    && forall f :: s <= f < s + Needed(config) ==> h.levels[f] >= h.entries[f]
  }

  ghost predicate SteadyEntry(h: Heard, from: nat, to: nat, entry: word16) {
    to <= |h.entries| && forall f :: from <= f < to ==> h.entries[f] == entry
  }

  ghost predicate Silent(h: Heard, from: nat, to: nat) {
    to <= |h.levels| == |h.entries| && forall f :: from <= f < to ==> h.levels[f] < ExitThreshold(h.entries[f])
  }

  /** A segment that covers frames s up to e: confirmed at its start, voiced in its last frame, silent since, and
      held against one entry threshold up to frame t. */
  ghost predicate Segment(config: Config, h: Heard, s: nat, e: nat, t: nat) {
    && s < e <= t <= |h.levels| == |h.entries|
    && Confirmed(config, h, s) && s + Needed(config) <= e
    && SteadyEntry(h, s, t, h.entries[s])
    && h.levels[e - 1] >= ExitThreshold(h.entries[e - 1])
    && Silent(h, e, t)
  }

  /** Every ended segment, up to and including the frame that ended it. */
  ghost predicate EndedSegments(config: Config, h: Heard) {
    forall i :: 0 <= i < |h.events| - 1 && h.events[i].SpeechStarted? ==>
      Segment(config, h, h.events[i].frame, h.events[i + 1].frame, h.events[i + 1].frame + END_SILENCE_FRAMES)
  }

  /** The attack under way, or the segment under way. */
  ghost predicate Current(config: Config, h: Heard)
    requires CountersOk(config, h)
  {
    var d := h.state;
    if d.active then
      && Segment(config, h, h.events[|h.events| - 1].frame, d.speechEnd.value, d.totalFrames)
      && h.entries[h.events[|h.events| - 1].frame] == d.threshold
    else
      && SteadyEntry(h, d.totalFrames - d.attackFrames, d.totalFrames, d.threshold)
      && forall f :: d.totalFrames - d.attackFrames <= f < d.totalFrames ==> h.levels[f] >= h.entries[f]
  }

  ghost predicate Kept(config: Config, h: Heard) {
    CountersOk(config, h) && Alternates(h.events) && EndedSegments(config, h) && Current(config, h)
  }

  // ----- one step keeps it

  lemma StepKeepsCounters(config: Config, h: Heard, rms: word16)
    requires CountersOk(config, h)
    ensures CountersOk(config, Hear(config, h, rms))
  {
    hide Learned;
    hide ThresholdFor;
    hide ExitThreshold;
  }

  lemma StepKeepsAlternation(config: Config, h: Heard, rms: word16)
    requires CountersOk(config, h) && Alternates(h.events)
    ensures Alternates(Hear(config, h, rms).events)
  {
    hide ExitThreshold;
    hide Step;
  }

  /** What was heard stays heard. */
  predicate Extends(h: Heard, next: Heard) {
    h.levels <= next.levels && h.entries <= next.entries
  }

  lemma SegmentPersists(config: Config, h: Heard, next: Heard, s: nat, e: nat, t: nat)
    requires Segment(config, h, s, e, t) && Extends(h, next) && |next.levels| == |next.entries|
    ensures Segment(config, next, s, e, t)
  {
  }

  lemma SegmentStaysSilent(config: Config, h: Heard, s: nat, e: nat, t: nat)
    requires Segment(config, h, s, e, t) && t < |h.levels|
    requires h.entries[t] == h.entries[s] && h.levels[t] < ExitThreshold(h.entries[t])
    ensures Segment(config, h, s, e, t + 1)
  {
  }

  lemma SegmentGoesOn(config: Config, h: Heard, s: nat, e: nat, t: nat)
    requires Segment(config, h, s, e, t) && t < |h.levels|
    requires h.entries[t] == h.entries[s] && h.levels[t] >= ExitThreshold(h.entries[t])
    ensures Segment(config, h, s, t + 1, t + 1)
  {
  }

  lemma ExitBelowEntry(entry: word16)
    ensures ExitThreshold(entry) <= entry
  {
  }

  lemma SegmentConfirmed(config: Config, h: Heard, s: nat, t: nat)
    requires t == s + Needed(config) <= |h.levels| == |h.entries|
    requires SteadyEntry(h, s, t, h.entries[s]) && forall f :: s <= f < t ==> h.levels[f] >= h.entries[f]
    ensures Segment(config, h, s, t, t)
  {
    ExitBelowEntry(h.entries[t - 1]);
  }

  lemma ActiveStep(config: Config, h: Heard, rms: word16)
    requires Kept(config, h) && h.state.active && CountersOk(config, Hear(config, h, rms))
    ensures var next := Hear(config, h, rms);
            var s := h.events[|h.events| - 1].frame;
            if IsLearned(h.state, rms) then
              Segment(config, next, s, h.state.speechEnd.value, h.state.speechEnd.value + END_SILENCE_FRAMES)
            else Current(config, next)
  {
    hide EndedSegments;
    hide Alternates;
    hide Learned;
    hide ThresholdFor;
    hide ExitThreshold;
    var next := Hear(config, h, rms);
    var d := h.state;
    var s, e := h.events[|h.events| - 1].frame, d.speechEnd.value;
    SegmentPersists(config, h, next, s, e, d.totalFrames);
    assert h.entries[s] == next.entries[s] == next.entries[d.totalFrames] == d.threshold;
    hide Segment;
    if rms >= ExitThreshold(d.threshold) {
      SegmentGoesOn(config, next, s, e, d.totalFrames);
    } else {
      SegmentStaysSilent(config, next, s, e, d.totalFrames);
    }
  }

  lemma AttackStep(config: Config, h: Heard, rms: word16)
    requires Kept(config, h) && !h.state.active && rms >= h.state.threshold && CountersOk(config, Hear(config, h, rms))
    ensures Current(config, Hear(config, h, rms))
  {
    hide EndedSegments;
    hide Alternates;
    hide ExitThreshold;
    var next := Hear(config, h, rms);
    var d := h.state;
    var s := AttackStart(d, d.totalFrames);
    assert s == d.totalFrames - d.attackFrames;
    assert SteadyEntry(next, s, d.totalFrames + 1, d.threshold);
    assert forall f :: s <= f < d.totalFrames + 1 ==> next.levels[f] >= next.entries[f];
    if Confirms(config, d, rms) {
      SegmentConfirmed(config, next, s, d.totalFrames + 1);
    }
  }

  lemma SegmentsCarryOver(config: Config, h: Heard, next: Heard, more: seq<Event>)
    requires EndedSegments(config, h) && Extends(h, next) && |next.levels| == |next.entries|
    requires next.events == h.events + more && |more| <= 1
    requires more != [] && LastStarted(h.events) ==>
               Segment(config, next, h.events[|h.events| - 1].frame, more[0].frame, more[0].frame + END_SILENCE_FRAMES)
    ensures EndedSegments(config, next)
  {
    hide Segment;
    hide Extends;
    var n := |h.events|;
    forall i | 0 <= i < |next.events| - 1 && next.events[i].SpeechStarted?
      ensures Segment(config, next, next.events[i].frame, next.events[i + 1].frame,
                      next.events[i + 1].frame + END_SILENCE_FRAMES) {
      if i < n - 1 {
        SegmentPersists(config, h, next, h.events[i].frame, h.events[i + 1].frame,
                        h.events[i + 1].frame + END_SILENCE_FRAMES);
      }
    }
  }

  lemma HearExtends(config: Config, h: Heard, rms: word16)
    requires |h.levels| == |h.entries|
    ensures var next := Hear(config, h, rms);
            && Extends(h, next) && next.levels == h.levels + [rms] && |next.levels| == |next.entries|
            && next.events == h.events + Emitted(EventAt(config, h.state, rms))
  {
    hide Step;
    hide EventAt;
  }

  lemma EndedSegmentsStep(config: Config, h: Heard, rms: word16)
    requires Kept(config, h) && CountersOk(config, Hear(config, h, rms))
    ensures EndedSegments(config, Hear(config, h, rms))
  {
    HearExtends(config, h, rms);
    if LastStarted(h.events) && EventAt(config, h.state, rms).Some? {
      LastSegmentEnds(config, h, rms);
    }
    hide EventAt;
    hide Hear;
    hide Segment;
    hide EndedSegments;
    hide Alternates;
    hide Current;
    SegmentsCarryOver(config, h, Hear(config, h, rms), Emitted(EventAt(config, h.state, rms)));
  }

  lemma LastSegmentEnds(config: Config, h: Heard, rms: word16)
    requires Kept(config, h) && CountersOk(config, Hear(config, h, rms)) && LastStarted(h.events)
    requires EventAt(config, h.state, rms).Some?
    ensures EventAt(config, h.state, rms) == Some(SpeechEnded(h.state.speechEnd.value))
    ensures Segment(config, Hear(config, h, rms), h.events[|h.events| - 1].frame, h.state.speechEnd.value,
                    h.state.speechEnd.value + END_SILENCE_FRAMES)
  {
    hide Segment;
    hide EndedSegments;
    hide Current;
    ActiveStep(config, h, rms);
  }

  lemma StepKeeps(config: Config, h: Heard, rms: word16)
    requires Kept(config, h)
    ensures Kept(config, Hear(config, h, rms))
  {
    hide EndedSegments;
    hide Alternates;
    StepKeepsCounters(config, h, rms);
    StepKeepsAlternation(config, h, rms);
    EndedSegmentsStep(config, h, rms);
    if h.state.active {
      ActiveStep(config, h, rms);
    } else if rms >= h.state.threshold {
      AttackStep(config, h, rms);
    }
  }

  lemma InitialKept(config: Config, seed: Option<word16>)
    ensures Kept(config, Heard(Initial(config, seed), [], [], []))
  {
  }

  lemma KeptLengths(config: Config, h: Heard)
    requires Kept(config, h)
    ensures |h.levels| == |h.entries|
  {
  }

  /** Whatever the levels: events alternate with at least 15 frames of silence between segments; each segment starts
      with enough frames at or above its entry threshold, which does not change until the frame that ends it, ends
      with a voiced frame, and is followed by 15 frames below the exit threshold; the attack and release counters
      stay below their limits. */
  lemma {:induction false} ListeningKeeps(config: Config, seed: Option<word16>, levels: seq<word16>)
    ensures Kept(config, Listen(config, seed, levels)) && Listen(config, seed, levels).levels == levels
  {
    hide Kept;
    hide Hear;
    if levels == [] {
      InitialKept(config, seed);
    } else {
      var n := |levels| - 1;
      ListeningKeeps(config, seed, levels[..n]);
      KeptLengths(config, Listen(config, seed, levels[..n]));
      HearExtends(config, Listen(config, seed, levels[..n]), levels[n]);
      StepKeeps(config, Listen(config, seed, levels[..n]), levels[n]);
      assert levels[..n] + [levels[n]] == levels;
    }
  }

  // ----- speech is neither missed nor kept up

  /** The last j frames heard are all at or above their entry threshold. */
  ghost predicate LastVoiced(h: Heard, j: nat) {
    && j <= |h.levels| == |h.entries|
    && forall f :: |h.levels| - j <= f < |h.levels| ==> h.levels[f] >= h.entries[f]
  }

  /** The last j frames heard are all below the exit threshold. */
  ghost predicate LastSilent(h: Heard, j: nat) {
    j <= |h.levels| && Silent(h, |h.levels| - j, |h.levels|)
  }

  lemma VoicedStep(config: Config, h: Heard, rms: word16, j: nat)
    requires CountersOk(config, h) && rms >= h.state.threshold && (h.state.active || h.state.attackFrames >= j)
    ensures var d := Step(config, h.state, rms); d.active || d.attackFrames >= j + 1
  {
    ExitBelowEntry(h.state.threshold);
    hide ExitThreshold;
  }

  lemma SilentStep(config: Config, h: Heard, rms: word16, j: nat)
    requires CountersOk(config, h) && rms < ExitThreshold(h.state.threshold)
    requires h.state.active ==> h.state.releaseFrames >= j
    ensures var d := Step(config, h.state, rms); d.active ==> d.releaseFrames >= j + 1
  {
    ExitBelowEntry(h.state.threshold);
    hide ExitThreshold;
  }

  /** The last level was heard against the entry threshold of the state before it. */
  lemma LastHeard(config: Config, seed: Option<word16>, levels: seq<word16>)
    requires levels != []
    ensures var n := |levels| - 1;
            var before, now := Listen(config, seed, levels[..n]), Listen(config, seed, levels);
            && CountersOk(config, before) && |before.levels| == |before.entries| == n
            && now.state == Step(config, before.state, levels[n])
            && now.levels == before.levels + [levels[n]] && now.entries == before.entries + [before.state.threshold]
  {
    hide Step;
    hide EventAt;
    hide CountersOk;
    hide Alternates;
    hide EndedSegments;
    hide Current;
    var n := |levels| - 1;
    ListeningKeeps(config, seed, levels[..n]);
    KeptLengths(config, Listen(config, seed, levels[..n]));
  }

  lemma {:induction false} VoicedCount(config: Config, seed: Option<word16>, levels: seq<word16>, j: nat)
    requires LastVoiced(Listen(config, seed, levels), j)
    ensures var d := Listen(config, seed, levels).state; d.active || d.attackFrames >= j
  {
    hide Step;
    hide Listen;
    hide CountersOk;
    if j > 0 {
      var n := |levels| - 1;
      ListeningKeeps(config, seed, levels);
      hide Kept;
      LastHeard(config, seed, levels);
      var before, now := Listen(config, seed, levels[..n]), Listen(config, seed, levels);
      assert now.levels[n] == levels[n] && now.entries[n] == before.state.threshold;
      forall f | |before.levels| - (j - 1) <= f < |before.levels| ensures before.levels[f] >= before.entries[f] {
        assert now.levels[f] == before.levels[f] && now.entries[f] == before.entries[f];
      }
      VoicedCount(config, seed, levels[..n], j - 1);
      VoicedStep(config, before, levels[n], j - 1);
    }
  }

  lemma {:induction false} SilentCount(config: Config, seed: Option<word16>, levels: seq<word16>, j: nat)
    requires LastSilent(Listen(config, seed, levels), j)
    ensures var d := Listen(config, seed, levels).state; d.active ==> d.releaseFrames >= j
  {
    hide Step;
    hide Listen;
    hide CountersOk;
    hide ExitThreshold;
    if j > 0 {
      var n := |levels| - 1;
      ListeningKeeps(config, seed, levels);
      hide Kept;
      LastHeard(config, seed, levels);
      var before, now := Listen(config, seed, levels[..n]), Listen(config, seed, levels);
      assert now.levels[n] == levels[n] && now.entries[n] == before.state.threshold;
      forall f | |before.levels| - (j - 1) <= f < |before.levels|
        ensures before.levels[f] < ExitThreshold(before.entries[f]) {
        assert now.levels[f] == before.levels[f] && now.entries[f] == before.entries[f];
      }
      SilentCount(config, seed, levels[..n], j - 1);
      SilentStep(config, before, levels[n], j - 1);
    }
  }

  /** As many frames in a row at or above their entry threshold as the configuration asks for always leave speech
      active; fifteen in a row below the exit threshold always leave it inactive. */
  lemma SpeechFollowsLevels(config: Config, seed: Option<word16>, levels: seq<word16>)
    ensures var h := Listen(config, seed, levels);
            && (LastVoiced(h, Max(config.minimumVoicedFrames, 1)) ==> h.state.active)
            && (LastSilent(h, 15) ==> !h.state.active)
  {
    var h := Listen(config, seed, levels);
    ListeningKeeps(config, seed, levels);
    assert CountersOk(config, h);
    hide Kept;
    hide Listen;
    if LastVoiced(h, Needed(config)) {
      VoicedCount(config, seed, levels, Needed(config));
    }
    if LastSilent(h, END_SILENCE_FRAMES) {
      SilentCount(config, seed, levels, END_SILENCE_FRAMES);
    }
  }

  // ----- what is reported along the way

  lemma ReportAgrees(config: Config, seed: Option<word16>, levels: seq<word16>, rms: word16)
    ensures var h := Listen(config, seed, levels);
            var r := Report(config, h.state, rms);
            && r.frame == |levels| && r.speechActive == LastStarted(Hear(config, h, rms).events)
            && (r.speechActive && r.releaseFrames > 0 ==> r.hangoverFramesRemaining + r.releaseFrames == END_SILENCE_FRAMES)
            && (r.event.Some? ==>
                  if r.event.value.SpeechStarted? then
                    r.voiced && r.attackFrames == Needed(config) && r.event.value.frame + r.attackFrames == r.frame + 1
                  else
                    !r.voiced && r.releaseFrames == END_SILENCE_FRAMES
                    && r.event.value.frame + r.releaseFrames == r.frame + 1)
            && (r.event.None? ==> r.attackFrames < Needed(config) && r.releaseFrames < END_SILENCE_FRAMES)
  {
    var h := Listen(config, seed, levels);
    ListeningKeeps(config, seed, levels);
    StepKeepsCounters(config, h, rms);
    assert CountersOk(config, h);
    hide Kept;
    hide Listen;
    hide Learned;
    hide ThresholdFor;
    hide ExitThreshold;
  }

  /** The report of one more frame agrees with the run so far: while a pause goes on, hangover and pause add up to the
      15 frames that would end the segment; a start is reported by the frame that completes the attack, an end by the
      fifteenth silent frame, and the state flag is the one the events imply. */
  lemma ReportFollowsRun(config: Config, seed: Option<word16>, levels: seq<word16>, rms: word16)
    ensures var h := Listen(config, seed, levels);
            var r := Report(config, h.state, rms);
            && r.frame == |levels| && r.speechActive == LastStarted(Hear(config, h, rms).events)
            && (r.speechActive && r.releaseFrames > 0 ==> r.hangoverFramesRemaining + r.releaseFrames == 15)
            && (r.event.Some? ==>
                  if r.event.value.SpeechStarted? then
                    r.voiced && r.attackFrames == Max(config.minimumVoicedFrames, 1) && r.event.value.frame + r.attackFrames == r.frame + 1
                  else
                    !r.voiced && r.releaseFrames == 15
                    && r.event.value.frame + r.releaseFrames == r.frame + 1)
            && (r.event.None? ==> r.attackFrames < Max(config.minimumVoicedFrames, 1) && r.releaseFrames < 15)
  {
    hide Listen;
    hide Report;
    hide Hear;
    hide LastStarted;
    ReportAgrees(config, seed, levels, rms);
  }

  function Sum(levels: seq<word16>): nat {
    if levels == [] then 0 else Sum(levels[..|levels| - 1]) + levels[|levels| - 1]
  }

  lemma {:induction false} SumBound(levels: seq<word16>)
    ensures Sum(levels) <= |levels| * U16_MAX
  {
    if levels != [] {
      SumBound(levels[..|levels| - 1]);
    }
  }

  lemma StepAddsLevel(config: Config, d: Detector, rms: word16)
    ensures Step(config, d, rms).rmsSum == d.rmsSum + rms && Step(config, d, rms).totalFrames == d.totalFrames + 1
    ensures d.voicedFrames <= Step(config, d, rms).voicedFrames <= d.voicedFrames + 1
  {
    hide Learned;
    hide ThresholdFor;
    hide ExitThreshold;
  }

  /** The average is the floor mean of all levels heard, and always fits its 16 bits. */
  lemma {:induction false} AverageIsMean(config: Config, seed: Option<word16>, levels: seq<word16>)
    ensures var d := Listen(config, seed, levels).state;
            && d.rmsSum == Sum(levels) && d.totalFrames == |levels| && d.voicedFrames <= |levels|
            && (levels != [] ==> Finish(d).averageRms == Sum(levels) / |levels| <= U16_MAX)
  {
    if levels != [] {
      var n := |levels| - 1;
      AverageIsMean(config, seed, levels[..n]);
      StepAddsLevel(config, Listen(config, seed, levels[..n]).state, levels[n]);
      SumBound(levels);
      hide Step;
      hide EventAt;
      QuotientBound(Sum(levels), |levels|, U16_MAX);
    }
  }

  lemma QuotientBound(sum: nat, count: nat, bound: nat)
    requires count > 0 && sum <= count * bound
    ensures sum / count <= bound
  {
    if sum / count > bound {
      Levels.DivisionBound(sum, count);
      Levels.ProductMonotone(count, bound + 1, sum / count);
      Levels.Distribute(count, bound);
    }
  }

  // ----- the noise floor

  predicate Within(noise: Option<word16>, low: word16, high: word16) {
    noise.Some? ==> low <= noise.value <= high
  }

  lemma StepKeepsNoise(config: Config, d: Detector, rms: word16, low: word16, high: word16)
    requires Within(d.noiseFloor, low, high) && (IsLearned(d, rms) ==> low <= rms <= high)
    ensures Within(Step(config, d, rms).noiseFloor, low, high)
  {
    hide Smooth;
    hide ThresholdFor;
    hide ExitThreshold;
    if IsLearned(d, rms) && d.noiseFloor.Some? {
      SmoothBetween(d.noiseFloor.value, rms, 8);
      SmoothBetween(d.noiseFloor.value, rms, 32);
    }
  }

  /** Speech never teaches the noise floor: it stays in every range that holds its seed and the learned levels. */
  lemma {:induction false} NoiseStaysInHull(config: Config, seed: Option<word16>, levels: seq<word16>, low: word16,
                                            high: word16)
    requires Within(seed, low, high)
    requires forall k :: 0 <= k < |levels| && IsLearned(Listen(config, seed, levels[..k]).state, levels[k]) ==>
               low <= levels[k] <= high
    ensures Within(Listen(config, seed, levels).state.noiseFloor, low, high)
  {
    hide Step;
    hide IsLearned;
    if levels != [] {
      var n := |levels| - 1;
      forall k | 0 <= k < n && IsLearned(Listen(config, seed, levels[..n][..k]).state, levels[..n][k])
        ensures low <= levels[..n][k] <= high {
        assert levels[..n][..k] == levels[..k];
      }
      NoiseStaysInHull(config, seed, levels[..n], low, high);
      StepKeepsNoise(config, Listen(config, seed, levels[..n]).state, levels[n], low, high);
    }
  }

  lemma StepFollowsNoise(config: Config, d: Detector, rms: word16)
    requires d.threshold == ThresholdFor(config, NoiseOr0(d.noiseFloor))
    ensures Step(config, d, rms).threshold == ThresholdFor(config, NoiseOr0(Step(config, d, rms).noiseFloor))
  {
    hide ThresholdFor;
    hide Smooth;
    hide ExitThreshold;
  }

  /** The threshold of a noise floor: twice the floor and 80, but at least the configured one and at most four times
      that, within 16 bits. */
  lemma ThresholdOfNoise(config: Config, noise: word16)
    ensures ThresholdFor(config, noise)
         == Max(config.rmsThreshold, Min(Min(2 * noise + 80, 4 * config.rmsThreshold), 65535))
  {
  }

  lemma {:induction false} ThresholdTracks(config: Config, seed: Option<word16>, levels: seq<word16>)
    ensures var d := Listen(config, seed, levels).state;
            d.threshold == ThresholdFor(config, NoiseOr0(d.noiseFloor))
  {
    hide ThresholdFor;
    if levels != [] {
      var n := |levels| - 1;
      ThresholdTracks(config, seed, levels[..n]);
      StepFollowsNoise(config, Listen(config, seed, levels[..n]).state, levels[n]);
      hide Step;
    }
  }

  /** The entry threshold always follows the current noise floor, between once and four times the configured one. */
  lemma ThresholdFollowsNoise(config: Config, seed: Option<word16>, levels: seq<word16>)
    ensures var d := Listen(config, seed, levels).state;
            var noise := if d.noiseFloor.Some? then d.noiseFloor.value else 0;
            && d.threshold == ThresholdFor(config, noise)
            && d.threshold == Max(config.rmsThreshold, Min(Min(2 * noise + 80, 4 * config.rmsThreshold), 65535))
            && config.rmsThreshold <= d.threshold <= Min(4 * config.rmsThreshold, 65535)
  {
    hide Listen;
    hide ThresholdFor;
    ThresholdTracks(config, seed, levels);
    var d := Listen(config, seed, levels).state;
    ThresholdOfNoise(config, if d.noiseFloor.Some? then d.noiseFloor.value else 0);
  }

  // ----- what one more level does

  /** Learning moves the noise floor toward the level by an eighth of the distance when it falls and by a thirty-second
      when it rises, rounded down; the first level is taken as it is. */
  predicate LearnsFrom(noise: Option<word16>, rms: word16, after: Option<word16>) {
    after.Some?
    && match noise
       case None => after.value == rms
       case Some(current) =>
         var moved := after.value - current;
         if rms <= current then 8 * moved <= rms - current < 8 * moved + 8
         else 32 * moved <= rms - current < 32 * moved + 32
  }

  lemma LearnedMeans(noise: Option<word16>, rms: word16)
    ensures LearnsFrom(noise, rms, Some(Learned(noise, rms)))
  {
    if noise.Some? {
      SmoothBetween(noise.value, rms, 8);
      SmoothBetween(noise.value, rms, 32);
    }
  }

  /** Within speech a level is silent below three quarters of the entry threshold, rounded down. */
  lemma SilentMeans(entry: word16, rms: word16)
    ensures rms < ExitThreshold(entry) <==> 4 * (rms + 1) <= Min(3 * entry, 65535)
  {
  }

  /** One more level: outside speech it counts toward a start or teaches the noise floor; within speech it goes on, or is
      the fifteenth silent one in a row, which ends speech and teaches the noise floor. */
  lemma OneMoreLevel(config: Config, d: Detector, rms: word16)
    ensures var after := Step(config, d, rms);
            var silent := 4 * (rms + 1) <= Min(3 * d.threshold, 65535);
            var ends := d.active && silent && d.releaseFrames + 1 >= 15;
            var starts := !d.active && rms >= d.threshold && d.attackFrames + 1 >= Max(config.minimumVoicedFrames, 1);
            && (after.active <==> starts || (d.active && !ends))
            && (if ends || (!d.active && rms < d.threshold) then LearnsFrom(d.noiseFloor, rms, after.noiseFloor)
                else after.noiseFloor == d.noiseFloor && after.threshold == d.threshold)
            && after.attackFrames == (if !d.active && rms >= d.threshold && !starts then d.attackFrames + 1
                                      else if d.active then d.attackFrames else 0)
            && after.releaseFrames == (if d.active && silent && !ends then d.releaseFrames + 1
                                       else if d.active then 0 else d.releaseFrames)
            && after.totalFrames == d.totalFrames + 1 && after.rmsSum == d.rmsSum + rms
            && after.voicedFrames == d.voicedFrames + (if d.active then (if silent then 0 else 1)
                                                       else if rms >= d.threshold then 1 else 0)
  {
    LearnedMeans(d.noiseFloor, rms);
    SilentMeans(d.threshold, rms);
    hide ExitThreshold;
    hide Learned;
    hide ThresholdFor;
    hide LearnsFrom;
  }
}
