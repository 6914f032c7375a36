/** The streaming voice detector: adaptive entry threshold, attack, release and
    hangover, one 20 ms frame at a time. */
module Vad {
  import opened Base
  import Levels

  const PRE_ROLL_FRAMES := 8
  const POST_ROLL_FRAMES := 15
  const RELEASE_FRAMES := 3
  const HANGOVER_FRAMES := 12
  const END_SILENCE_FRAMES := RELEASE_FRAMES + HANGOVER_FRAMES

  type word16 = x: int | 0 <= x <= U16_MAX

  datatype Config = Config(rmsThreshold: word16, minimumVoicedFrames: nat)

  datatype Event = SpeechStarted(frame: nat) | SpeechEnded(frame: nat)

  datatype Analysis = Analysis(frame: nat, rms: word16, noiseFloor: word16, adaptiveThreshold: word16, voiced: bool,
                               speechActive: bool, attackFrames: nat, releaseFrames: nat,
                               hangoverFramesRemaining: nat, event: Option<Event>)

  datatype Detector = Detector(noiseFloor: Option<word16>, threshold: word16, totalFrames: nat, voicedFrames: nat,
                               rmsSum: nat, peak: nat, attackFrames: nat, attackStart: Option<nat>,
                               releaseFrames: nat, active: bool, speechStart: Option<nat>, speechEnd: Option<nat>)

  // ----- arithmetic

  function SaturatingMul16(a: word16, b: nat): word16 {
    if a * b <= U16_MAX then a * b else U16_MAX
  }

  function SaturatingAdd16(a: word16, b: word16): word16 {
    Min(a + b, U16_MAX)
  }

  function ThresholdFor(config: Config, noiseFloor: word16): word16 {
    var noiseThreshold := SaturatingAdd16(SaturatingMul16(noiseFloor, 2), 80);
    Max(config.rmsThreshold, Min(noiseThreshold, SaturatingMul16(config.rmsThreshold, 4)))
  }

  /** Moves the current value by an arithmetic right shift of the distance; the divisor is the shift's power of two. */
  function Smooth(current: word16, sample: word16, divisor: int): (r: word16)
    requires divisor > 0
  {
    var moved := current + (sample - current) / divisor;
    if 0 <= moved <= U16_MAX then moved else 0
  }

  /** A smoothed value lies between the current one and the sample, so the zero fallback is never taken. */
  lemma SmoothBetween(current: word16, sample: word16, divisor: int)
    requires divisor == 8 || divisor == 32
    ensures Min(current, sample) <= Smooth(current, sample, divisor) <= Max(current, sample)
  {
  }

  function ExitThreshold(entry: word16): word16 {
    SaturatingMul16(entry, 3) / 4
  }

  /** Consecutive voiced frames that confirm speech. */
  function Needed(config: Config): (n: nat)
    ensures n >= 1
  {
    Max(config.minimumVoicedFrames, 1)
  }

  function NoiseOr0(noise: Option<word16>): word16 {
    if noise.Some? then noise.value else 0
  }

  // ----- one frame

  function Learned(noise: Option<word16>, rms: word16): word16 {
    match noise
    case None => rms
    case Some(current) => if rms <= current then Smooth(current, rms, 8) else Smooth(current, rms, 32)
  }

  function Learn(config: Config, d: Detector, rms: word16): Detector {
    var noise := Learned(d.noiseFloor, rms);
    d.(noiseFloor := Some(noise), threshold := ThresholdFor(config, noise))
  }

  /** Frames that teach the noise floor: below the entry threshold outside speech, or the one that ends speech. */
  predicate IsLearned(d: Detector, rms: word16) {
    if d.active then rms < ExitThreshold(d.threshold) && d.releaseFrames + 1 >= END_SILENCE_FRAMES
    else rms < d.threshold
  }

  predicate Confirms(config: Config, d: Detector, rms: word16) {
    !d.active && rms >= d.threshold && d.attackFrames + 1 >= Needed(config)
  }

  function AttackStart(d: Detector, frame: nat): nat {
    if d.attackFrames == 0 then frame else if d.attackStart.Some? then d.attackStart.value else frame
  }

  function EventAt(config: Config, d: Detector, rms: word16): Option<Event> {
    if Confirms(config, d, rms) then Some(SpeechStarted(AttackStart(d, d.totalFrames)))
    else if d.active && IsLearned(d, rms) && d.speechEnd.Some? then Some(SpeechEnded(d.speechEnd.value))
    else None
  }

  function StepActive(config: Config, d: Detector, frame: nat, rms: word16): Detector {
    if rms >= ExitThreshold(d.threshold) then
      d.(voicedFrames := d.voicedFrames + 1, releaseFrames := 0, speechEnd := Some(frame + 1))
    else if d.releaseFrames + 1 >= END_SILENCE_FRAMES then
      Learn(config, d.(active := false, releaseFrames := 0), rms)
    else d.(releaseFrames := d.releaseFrames + 1)
  }

  function StepAttack(config: Config, d: Detector, frame: nat): Detector {
    var start := AttackStart(d, frame);
    var voiced := d.(voicedFrames := d.voicedFrames + 1);
    if d.attackFrames + 1 >= Needed(config) then
      voiced.(active := true, attackFrames := 0, attackStart := None, speechEnd := Some(frame + 1),
              speechStart := if d.speechStart.None? then Some(start) else d.speechStart)
    else
      voiced.(attackFrames := d.attackFrames + 1,
              attackStart := if d.attackFrames == 0 then Some(start) else d.attackStart)
  }

  function StepQuiet(config: Config, d: Detector, rms: word16): Detector {
    Learn(config, d.(attackFrames := 0, attackStart := None), rms)
  }

  function Advanced(d: Detector, rms: word16): Detector {
    d.(totalFrames := d.totalFrames + 1, rmsSum := d.rmsSum + rms)
  }

  function Step(config: Config, d: Detector, rms: word16): Detector {
    if d.active then StepActive(config, Advanced(d, rms), d.totalFrames, rms)
    else if rms >= d.threshold then StepAttack(config, Advanced(d, rms), d.totalFrames)
    else StepQuiet(config, Advanced(d, rms), rms)
  }

  function Report(config: Config, d: Detector, rms: word16): Analysis {
    var next := Step(config, d, rms);
    var voiced := rms >= if d.active then ExitThreshold(d.threshold) else d.threshold;
    var release := if d.active && !voiced then d.releaseFrames + 1 else 0;
    Analysis(d.totalFrames, rms, NoiseOr0(next.noiseFloor), next.threshold, voiced, next.active,
             if !d.active && voiced then d.attackFrames + 1 else 0, release,
             if next.active && release > 0 then SaturatingSub(END_SILENCE_FRAMES, release) else 0,
             EventAt(config, d, rms))
  }

  /** The level of a PCM frame, as the 16-bit word it always fits. */
  function LevelOf(pcm: bytes): word16 {
    Levels.LevelWithinPeak(pcm);
    Levels.Level(pcm)
  }

  /** The peak is taken before the level is processed. */
  function Raised(d: Detector, pcm: bytes): Detector {
    d.(peak := Max(d.peak, Levels.PeakOf(Levels.Magnitudes(pcm))))
  }

  function Initial(config: Config, noiseFloor: Option<word16>): Detector {
    Detector(noiseFloor, ThresholdFor(config, NoiseOr0(noiseFloor)), 0, 0, 0, 0, 0, None, 0, false, None, None)
  }

  datatype VadResult = VadResult(speechDetected: bool, voicedFrames: nat, totalFrames: nat, peak: nat, averageRms: nat,
                           noiseFloor: word16, adaptiveThreshold: word16, speechStart: Option<nat>,
                           speechEnd: Option<nat>, trimStart: Option<nat>, trimEnd: Option<nat>)

  function EmptyResult(peak: nat): VadResult {
    VadResult(false, 0, 0, peak, 0, 0, 0, None, None, None, None)
  }

  function Finish(d: Detector): VadResult {
    if d.totalFrames == 0 then EmptyResult(d.peak)
    else
      VadResult(d.speechStart.Some? && d.speechEnd.Some?, d.voicedFrames, d.totalFrames, d.peak,
             Min(d.rmsSum / d.totalFrames, U16_MAX), NoiseOr0(d.noiseFloor), d.threshold, d.speechStart, d.speechEnd,
             if d.speechStart.Some? then Some(SaturatingSub(d.speechStart.value, PRE_ROLL_FRAMES)) else None,
             if d.speechEnd.Some? then Some(Min(d.speechEnd.value + POST_ROLL_FRAMES, d.totalFrames)) else None)
  }

  // ----- the detector object

  class StreamingVad {
    const config: Config
    var noiseFloor: Option<word16>
    var adaptiveThreshold: word16
    var totalFrames: nat
    var voicedFrames: nat
    var rmsSum: nat
    var peak: nat
    var attackFrames: nat
    var attackStartFrame: Option<nat>
    var releaseFrames: nat
    var speechActive: bool
    var speechStartFrame: Option<nat>
    var speechEndFrame: Option<nat>

    function State(): Detector
      reads this
    {
      Detector(noiseFloor, adaptiveThreshold, totalFrames, voicedFrames, rmsSum, peak, attackFrames, attackStartFrame,
               releaseFrames, speechActive, speechStartFrame, speechEndFrame)
    }

    constructor (config: Config, noiseFloor: Option<word16>)
      ensures this.config == config && State() == Initial(config, noiseFloor)
    {
      this.config := config;
      this.noiseFloor := noiseFloor;
      adaptiveThreshold := ThresholdFor(config, NoiseOr0(noiseFloor));
      totalFrames, voicedFrames, rmsSum, peak, attackFrames, releaseFrames := 0, 0, 0, 0, 0, 0;
      attackStartFrame, speechActive, speechStartFrame, speechEndFrame := None, false, None, None;
    }

    method UpdateNoise(rms: word16)
      modifies this`noiseFloor, this`adaptiveThreshold
      ensures State() == Learn(config, old(State()), rms)
    {
      hide ThresholdFor;
      hide Smooth;
      match noiseFloor {
        case None => noiseFloor := Some(rms);
        case Some(current) =>
          noiseFloor := Some(if rms <= current then Smooth(current, rms, 8) else Smooth(current, rms, 32));
      }
      adaptiveThreshold := ThresholdFor(config, noiseFloor.value);
    }

    method ProcessActive(frame: nat, rms: word16) returns (voiced: bool, event: Option<Event>, reported: nat)
      modifies this
      ensures State() == StepActive(config, old(State()), frame, rms)
      ensures voiced == (rms >= ExitThreshold(old(adaptiveThreshold)))
      ensures reported == if voiced then 0 else old(releaseFrames) + 1
      ensures event == if IsLearned(old(State()).(active := true), rms) && old(speechEndFrame).Some?
                       then Some(SpeechEnded(old(speechEndFrame).value)) else None
    {
      hide Learned;
      hide ThresholdFor;
      hide ExitThreshold;
      voiced, event, reported := rms >= ExitThreshold(adaptiveThreshold), None, 0;
      if voiced {
        voicedFrames := voicedFrames + 1;
        releaseFrames := 0;
        speechEndFrame := Some(frame + 1);
      } else {
        releaseFrames := releaseFrames + 1;
        reported := releaseFrames;
        if releaseFrames >= END_SILENCE_FRAMES {
          speechActive := false;
          releaseFrames := 0;
          event := if speechEndFrame.Some? then Some(SpeechEnded(speechEndFrame.value)) else None;
          UpdateNoise(rms);
        }
      }
    }

    method ProcessAttack(frame: nat) returns (event: Option<Event>, reported: nat)
      modifies this
      ensures State() == StepAttack(config, old(State()), frame)
      ensures reported == old(attackFrames) + 1
      ensures event == if reported >= Needed(config) then Some(SpeechStarted(AttackStart(old(State()), frame))) else None
    {
      event := None;
      voicedFrames := voicedFrames + 1;
      if attackFrames == 0 {
        attackStartFrame := Some(frame);
      }
      attackFrames := attackFrames + 1;
      reported := attackFrames;
      if attackFrames >= Needed(config) {
        var start := if attackStartFrame.Some? then attackStartFrame.value else frame;
        speechActive := true;
        speechStartFrame := if speechStartFrame.None? then Some(start) else speechStartFrame;
        speechEndFrame := Some(frame + 1);
        attackFrames := 0;
        attackStartFrame := None;
        event := Some(SpeechStarted(start));
      }
    }

    method ProcessLevel(rms: word16) returns (analysis: Analysis)
      modifies this
      ensures State() == Step(config, old(State()), rms)
      ensures analysis == Report(config, old(State()), rms)
    {
      hide StepActive;
      hide StepAttack;
      hide Learn;
      hide ExitThreshold;
      var frame := totalFrames;
      totalFrames := totalFrames + 1;
      rmsSum := rmsSum + rms;
      var voiced, event := false, None;
      var reportedAttack: nat, reportedRelease: nat := 0, 0;
      if speechActive {
        voiced, event, reportedRelease := ProcessActive(frame, rms);
      } else if rms >= adaptiveThreshold {
        voiced := true;
        event, reportedAttack := ProcessAttack(frame);
      } else {
        attackFrames := 0;
        attackStartFrame := None;
        UpdateNoise(rms);
      }
      var remaining := if speechActive && reportedRelease > 0 then SaturatingSub(END_SILENCE_FRAMES, reportedRelease) else 0;
      analysis := Analysis(frame, rms, NoiseOr0(noiseFloor), adaptiveThreshold, voiced, speechActive, reportedAttack,
                           reportedRelease, remaining, event);
    }

    method ProcessFrame(pcm: bytes) returns (analysis: Analysis)
      modifies this
      ensures State() == Step(config, Raised(old(State()), pcm), LevelOf(pcm))
      ensures analysis == Report(config, Raised(old(State()), pcm), LevelOf(pcm))
    {
      var rms, framePeak := Levels.FrameLevel(pcm);
      peak := Max(peak, framePeak);
      hide Step;
      hide Report;
      assert State() == Raised(old(State()), pcm);
      assert rms == LevelOf(pcm);
      analysis := ProcessLevel(rms);
    }
  }
}
