/** What holds of a Doubao session over every interleaving of calls and provider bytes. */
module DoubaoSessionLaws {
  import opened Base
  import opened Providers
  import opened DoubaoSession
  import Utf8
  import P = Protobuf

  function Run(lib: Library, s: Session, calls: seq<Call>): (r: (Session, seq<Reply>))
    ensures |r.1| == |calls|
  {
    if calls == [] then (s, [])
    else
      var n := |calls| - 1;
      var (mid, replies) := Run(lib, s, calls[..n]);
      var (after, reply) := Step(lib, mid, calls[n]);
      (after, replies + [reply])
  }

  // ----- what one step may do

  /** Receiving hands out nothing, sends nothing, and moves the phase only along the lifecycle. */
  predicate MovesAlong(s: Session, after: Session, reply: Reply) {
    && !reply.Handed? && !reply.Done?
    && after.requestId == s.requestId && after.sent == s.sent && after.input == s.input
    && (s.acceptance != NotAccepted ==> after.acceptance != NotAccepted)
    && (after.acceptance == s.acceptance
        || (after.acceptance == Accepted && (s.phase == Streaming || s.phase == Finishing)))
    && (reply.Refused? ==> after.phase == Broken(s).phase)
    && (reply.Notified? && reply.event.FinishedEvent? ==>
          s.phase == Finishing && after.phase == Finished && s.finalTranscript.Some?
          && reply.event.outcome == Outcome(s.finalTranscript.value, s.taskId, s.sent, s.lastPacket,
                                            s.vadStarted, s.vadFinished))
    && (!reply.Refused? ==>
          || after.phase == s.phase
          || (s.phase == TaskStarting && after.phase == TaskStarted)
          || (s.phase == SessionStarting && after.phase == Streaming)
          || (after.phase == Finished && reply.Notified? && reply.event.FinishedEvent?))
    && (reply.Refused? && reply.error.category == Authentication ==> s.phase == TaskStarting)
  }

  /** The final transcript is only ever replaced by a non-blank one, and the packet number only grows. */
  predicate KeepsProgress(s: Session, after: Session, reply: Reply) {
    && (after.finalTranscript == s.finalTranscript
        || (after.finalTranscript.Some? && !Utf8.Blank(after.finalTranscript.value)))
    && (s.lastPacket.Some? ==> after.lastPacket.Some? && s.lastPacket.value <= after.lastPacket.value)
    && (reply.Notified? && reply.event.Recognized? && reply.event.r.packet.Some? ==>
          after.lastPacket == reply.event.r.packet
          && (s.lastPacket.Some? ==> s.lastPacket.value < reply.event.r.packet.value))
  }

  predicate Lawful(s: Session, step: (Session, Reply)) {
    MovesAlong(s, step.0, step.1) && KeepsProgress(s, step.0, step.1)
  }

  lemma RecognitionIsLawful(s: Session, r: Recognition)
    requires s.phase == Streaming || s.phase == Finishing
    ensures Lawful(s, RecognitionStep(s, r))
  {
  }

  lemma ResultIsLawful(lib: Library, s: Session, e: P.Envelope)
    requires Listening(s)
    ensures Lawful(s, ResultStep(lib, s, e))
  {
    hide RecognitionStep;
    hide Utf8.Blank;
    if s.phase == Streaming || s.phase == Finishing {
      if lib.parse(e.resultJson).Some? {
        RecognitionIsLawful(s, lib.parse(e.resultJson).value);
      }
    }
  }

  lemma SessionFinishedIsLawful(s: Session)
    requires Listening(s)
    ensures Lawful(s, SessionFinishedStep(s))
  {
    hide Utf8.Blank;
  }

  lemma BrokenIsLawful(s: Session, error: SessionError)
    requires Listening(s) && (error.category == Authentication ==> s.phase == TaskStarting)
    ensures Lawful(s, (Broken(s), Refused(error)))
  {
  }

  lemma FailIsLawful(s: Session, code: ErrorCode)
    requires Listening(s)
    ensures Lawful(s, Fail(s, code))
  {
    BrokenIsLawful(s, SessionError(Protocol, code, None));
    hide Lawful;
  }

  lemma StartedIsLawful(s: Session, taskId: Option<string>)
    ensures s.phase == TaskStarting ==> Lawful(s, (s.(phase := TaskStarted, taskId := taskId), Notified(TaskStartedEvent)))
    ensures s.phase == SessionStarting ==> Lawful(s, (s.(phase := Streaming), Notified(SessionStartedEvent)))
  {
  }

  lemma EnvelopeIsLawful(lib: Library, s: Session, e: P.Envelope)
    requires Listening(s)
    ensures Lawful(s, EnvelopeStep(lib, s, e))
  {
    hide ResultStep;
    hide SessionFinishedStep;
    hide AuthLike;
    hide Lawful;
    hide Broken;
    hide StatusCode;
    ResultIsLawful(lib, s, e);
    SessionFinishedIsLawful(s);
    forall code ensures Lawful(s, Fail(s, code)) {
      FailIsLawful(s, code);
    }
    hide Fail;
    BrokenIsLawful(s, SessionError(Protocol, StatusCode(s.phase), Some(e.statusCode)));
    StartedIsLawful(s, if e.taskId == "" then s.taskId else Some(e.taskId));
    if s.phase == TaskStarting {
      BrokenIsLawful(s, SessionError(Authentication, StartTaskAuthFailed, None));
    }
  }

  lemma ReceiveIsLawful(lib: Library, s: Session, message: bytes)
    ensures !Listening(s) ==> ReceiveStep(lib, s, message).0 == s && ReceiveStep(lib, s, message).1.Refused?
                              && ReceiveStep(lib, s, message).1.error.category == Protocol
    ensures Listening(s) ==> Lawful(s, ReceiveStep(lib, s, message))
  {
    hide EnvelopeStep;
    hide P.DecodeResponse;
    if Listening(s) && P.DecodeResponse(message).Some? {
      EnvelopeIsLawful(lib, s, P.DecodeResponse(message).value);
    }
  }

  // ----- what the caller's own calls may do

  datatype Kind = Kind(verb: P.Verb, state: Option<P.FrameState>)

  function KindsOf(reply: Reply): seq<Kind> {
    if reply.Handed? then [Kind(reply.request.verb, reply.request.state)] else []
  }

  /** A caller's call breaks the session, leaves it alone, or makes one of the lifecycle's moves. */
  predicate Sends(s: Session, after: Session, kinds: seq<Kind>) {
    || (kinds == [] && (after == Broken(s) || after == s))
    || (kinds == [] && s.phase != Finished && s.phase != Failed && after == s.(phase := PhaseCancelled))
    || (s.phase == Disconnected && after == s.(phase := TaskStarting) && kinds == [Kind(P.StartTask, None)])
    || (s.phase == TaskStarted && after == s.(phase := SessionStarting) && kinds == [Kind(P.StartSession, None)])
    || (s.phase == Streaming && SendsAudio(s, after, kinds))
  }

  predicate SendsAudio(s: Session, after: Session, kinds: seq<Kind>) {
    match s.input
    case Open =>
      || (after == s.(input := AudioPending)
          && kinds == [Kind(P.TaskRequest, Some(if s.sent == 0 then P.First else P.Middle))])
      || (s.sent > 0 && after == s.(input := InputFinished) && kinds == [Kind(P.TaskRequest, Some(P.Last))])
    case AudioPending =>
      && kinds == []
      && (after == s.(input := Open, sent := s.sent + 1, acceptance := PossiblyAccepted)
          || after == s.(acceptance := PossiblyAccepted))
    case InputFinished =>
      after == s.(phase := Finishing) && kinds == [Kind(P.FinishSession, None)]
  }

  /** The caller's calls return requests, acknowledgements and protocol errors, never provider events. */
  predicate OwnReply(reply: Reply) {
    !reply.Notified? && (reply.Refused? ==> reply.error.category == Protocol)
  }

  lemma StartsSend(lib: Library, s: Session, call: Call)
    requires call.StartTask? || call.StartSession? || call.FinishSession? || call.Cancel?
    ensures var (after, reply) := Step(lib, s, call); Sends(s, after, KindsOf(reply)) && OwnReply(reply)
  {
    hide AudioRequestStep;
    hide FinishAudioStep;
    hide ConfirmStep;
    hide AmbiguousStep;
    hide ReceiveStep;
  }

  lemma AudioSends(lib: Library, s: Session, call: Call)
    requires call.AudioRequest? || call.FinishAudio? || call.ConfirmAudioSent? || call.MarkAudioWriteAmbiguous?
    ensures var (after, reply) := Step(lib, s, call); Sends(s, after, KindsOf(reply)) && OwnReply(reply)
  {
    hide StartTaskStep;
    hide StartSessionStep;
    hide FinishSessionStep;
    hide CancelStep;
    hide ReceiveStep;
    hide TimestampJson;
    hide LastFrameMarker;
  }

  lemma OwnCallSends(lib: Library, s: Session, call: Call)
    requires !call.Receive?
    ensures var (after, reply) := Step(lib, s, call); Sends(s, after, KindsOf(reply)) && OwnReply(reply)
  {
    hide Step;
    hide Sends;
    if call.StartTask? || call.StartSession? || call.FinishSession? || call.Cancel? {
      StartsSend(lib, s, call);
    } else {
      AudioSends(lib, s, call);
    }
  }

  /** One step of either kind: an own call sends, a message moves the session along or is refused in place. */
  ghost predicate Orderly(s: Session, after: Session, reply: Reply) {
    || (Sends(s, after, KindsOf(reply)) && OwnReply(reply))
    || (Listening(s) && Lawful(s, (after, reply)))
  }

  lemma StepIsOrderly(lib: Library, s: Session, call: Call)
    ensures Orderly(s, Step(lib, s, call).0, Step(lib, s, call).1)
    ensures !call.Receive? ==> OwnReply(Step(lib, s, call).1)
  {
    hide Lawful;
    hide Sends;
    if call.Receive? {
      ReceiveIsLawful(lib, s, call.message);
      hide ReceiveStep;
      StayingSends(s);
    } else {
      OwnCallSends(lib, s, call);
      hide Step;
    }
  }

  lemma StayingSends(s: Session)
    ensures Sends(s, s, [])
  {
  }

  // ----- invariant of one session

  function Rank(phase: Phase): nat {
    match phase
    case Disconnected => 0
    case TaskStarting => 1
    case TaskStarted => 2
    case SessionStarting => 3
    case Streaming => 4
    case Finishing => 5
    case Finished => 6
    case Failed => 7
    case PhaseCancelled => 7
  }

  predicate Inv(s: Session) {
    && (Rank(s.phase) < 4 ==> s.sent == 0 && s.input == Open && s.acceptance == NotAccepted)
    && (s.sent > 0 ==> s.acceptance != NotAccepted)
    && (s.input == InputFinished ==> s.sent > 0)
    && (s.phase == Finishing || s.phase == Finished ==> s.input == InputFinished)
    && (s.phase == Finished ==> s.finalTranscript.Some?)
    && (s.finalTranscript.Some? ==> !Utf8.Blank(s.finalTranscript.value))
  }

  lemma SendsKeepsInv(s: Session, after: Session, kinds: seq<Kind>)
    requires Inv(s) && Sends(s, after, kinds)
    ensures Inv(after)
  {
    hide Utf8.Blank;
  }

  lemma LawfulKeepsInv(s: Session, step: (Session, Reply))
    requires Inv(s) && Listening(s) && Lawful(s, step)
    ensures Inv(step.0)
  {
    hide Utf8.Blank;
  }

  lemma OrderlyKeepsInv(s: Session, after: Session, reply: Reply)
    requires Inv(s) && Orderly(s, after, reply)
    ensures Inv(after)
  {
    hide Inv;
    hide Sends;
    hide Lawful;
    hide KindsOf;
    if Sends(s, after, KindsOf(reply)) {
      SendsKeepsInv(s, after, KindsOf(reply));
    } else {
      LawfulKeepsInv(s, (after, reply));
    }
  }

  lemma StepKeepsInv(lib: Library, s: Session, call: Call)
    requires Inv(s)
    ensures Inv(Step(lib, s, call).0)
  {
    hide Step;
    hide Inv;
    hide Orderly;
    StepIsOrderly(lib, s, call);
    OrderlyKeepsInv(s, Step(lib, s, call).0, Step(lib, s, call).1);
  }

  lemma {:induction false} RunKeepsInv(lib: Library, s: Session, calls: seq<Call>)
    requires Inv(s)
    ensures Inv(Run(lib, s, calls).0)
  {
    if calls != [] {
      var n := |calls| - 1;
      RunKeepsInv(lib, s, calls[..n]);
      StepKeepsInv(lib, Run(lib, s, calls[..n]).0, calls[n]);
    }
  }

  // ----- the phase only moves forward

  predicate Advances(s: Session, after: Session) {
    && Rank(s.phase) <= Rank(after.phase)
    && (s.phase == Failed || s.phase == PhaseCancelled ==> after.phase == s.phase)
    && (s.acceptance != NotAccepted ==> after.acceptance != NotAccepted)
    && after.requestId == s.requestId
    && (s.lastPacket.Some? ==> after.lastPacket.Some? && s.lastPacket.value <= after.lastPacket.value)
  }

  lemma SendsAdvances(s: Session, after: Session, kinds: seq<Kind>)
    requires Sends(s, after, kinds)
    ensures Advances(s, after)
  {
    hide Utf8.Blank;
  }

  lemma LawfulAdvances(s: Session, step: (Session, Reply))
    requires Listening(s) && Lawful(s, step)
    ensures Advances(s, step.0)
  {
    hide Utf8.Blank;
  }

  lemma OrderlyAdvances(s: Session, after: Session, reply: Reply)
    requires Orderly(s, after, reply)
    ensures Advances(s, after)
  {
    hide Advances;
    hide Sends;
    hide Lawful;
    hide KindsOf;
    if Sends(s, after, KindsOf(reply)) {
      SendsAdvances(s, after, KindsOf(reply));
    } else {
      LawfulAdvances(s, (after, reply));
    }
  }

  lemma StepAdvances(lib: Library, s: Session, call: Call)
    ensures Advances(s, Step(lib, s, call).0)
  {
    hide Step;
    hide Orderly;
    hide Advances;
    StepIsOrderly(lib, s, call);
    OrderlyAdvances(s, Step(lib, s, call).0, Step(lib, s, call).1);
  }

  /** Over every run the phase rank never decreases, Failed and Cancelled absorb, NotAccepted once left never returns,
      and the remembered packet number never decreases. */
  lemma {:induction false} PhasesAdvance(lib: Library, s: Session, calls: seq<Call>)
    ensures Advances(s, Run(lib, s, calls).0)
  {
    hide Step;
    if calls != [] {
      var n := |calls| - 1;
      PhasesAdvance(lib, s, calls[..n]);
      StepAdvances(lib, Run(lib, s, calls[..n]).0, calls[n]);
    }
  }

  // ----- the requests handed out

  function Kinds(replies: seq<Reply>): seq<Kind> {
    if replies == [] then [] else Kinds(replies[..|replies| - 1]) + KindsOf(replies[|replies| - 1])
  }

  function AudioKinds(n: nat): (ks: seq<Kind>)
    ensures |ks| == n
  {
    seq(n, i => Kind(P.TaskRequest, Some(if i == 0 then P.First else P.Middle)))
  }

  /** The lifecycle up to n audio frames. */
  function Upto(n: nat): seq<Kind> {
    [Kind(P.StartTask, None), Kind(P.StartSession, None)] + AudioKinds(n)
  }

  /** The whole script of a session that sends n audio frames. */
  function Script(n: nat): seq<Kind> {
    Upto(n) + [Kind(P.TaskRequest, Some(P.Last)), Kind(P.FinishSession, None)]
  }

  ghost predicate FollowsScript(ks: seq<Kind>) {
    exists n: nat :: n > 0 && ks <= Script(n)
  }

  /** The requests already handed out, as the state determines them. */
  ghost predicate Written(s: Session, ks: seq<Kind>) {
    match s.phase
    case Disconnected => ks == []
    case TaskStarting => ks == Upto(0)[..1]
    case TaskStarted => ks == Upto(0)[..1]
    case SessionStarting => ks == Upto(0)
    case Streaming =>
      (match s.input
       case Open => ks == Upto(s.sent)
       case AudioPending => ks == Upto(s.sent + 1)
       case InputFinished => s.sent > 0 && ks == Script(s.sent)[..s.sent + 3])
    case Finishing => s.sent > 0 && ks == Script(s.sent)
    case Finished => s.sent > 0 && ks == Script(s.sent)
    case _ => FollowsScript(ks)
  }

  lemma WrittenFollows(s: Session, ks: seq<Kind>)
    requires Written(s, ks)
    ensures FollowsScript(ks)
  {
    match s.phase
    case Failed =>
    case PhaseCancelled =>
    case Streaming =>
      assert Upto(s.sent) <= Script(s.sent + 1) && Upto(s.sent + 1) <= Script(s.sent + 1);
      assert s.sent > 0 ==> Script(s.sent)[..s.sent + 3] <= Script(s.sent);
    case Finishing =>
    case Finished =>
    case _ => assert ks <= Script(1);
  }

  lemma UptoGrows(n: nat)
    ensures Upto(n + 1) == Upto(n) + [Kind(P.TaskRequest, Some(if n == 0 then P.First else P.Middle))]
    ensures Script(n)[..n + 3] == Upto(n) + [Kind(P.TaskRequest, Some(P.Last))]
    ensures Script(n) == Script(n)[..n + 3] + [Kind(P.FinishSession, None)]
    ensures Upto(0) == Upto(0)[..1] + [Kind(P.StartSession, None)]
    ensures Upto(0)[..1] == [Kind(P.StartTask, None)]
  {
    assert |Upto(n)| == n + 2 && |Script(n)| == n + 4;
  }

  lemma ReceiveWrites(s: Session, after: Session, reply: Reply, ks: seq<Kind>)
    requires Inv(s) && Written(s, ks) && FollowsScript(ks)
    requires Listening(s) && MovesAlong(s, after, reply)
    ensures Written(after, ks)
  {
    hide Upto;
    hide Script;
    hide FollowsScript;
  }

  lemma AudioWrites(s: Session, after: Session, kinds: seq<Kind>, ks: seq<Kind>)
    requires Inv(s) && Written(s, ks) && s.phase == Streaming && SendsAudio(s, after, kinds)
    ensures Written(after, ks + kinds)
  {
    hide Upto;
    hide Script;
    hide FollowsScript;
    hide Utf8.Blank;
    UptoGrows(s.sent);
    assert ks + [] == ks;
  }

  lemma SendWrites(s: Session, after: Session, kinds: seq<Kind>, ks: seq<Kind>)
    requires Inv(s) && Written(s, ks) && FollowsScript(ks) && Sends(s, after, kinds)
    ensures Written(after, ks + kinds)
  {
    hide Upto;
    hide Script;
    hide FollowsScript;
    hide SendsAudio;
    hide Inv;
    UptoGrows(s.sent);
    assert ks + [] == ks;
    if s.phase == Streaming && SendsAudio(s, after, kinds) {
      AudioWrites(s, after, kinds, ks);
    }
  }

  lemma StepWrites(lib: Library, s: Session, call: Call, ks: seq<Kind>)
    requires Inv(s) && Written(s, ks)
    ensures Written(Step(lib, s, call).0, ks + KindsOf(Step(lib, s, call).1))
  {
    hide Step;
    hide FollowsScript;
    hide Written;
    hide Inv;
    WrittenFollows(s, ks);
    StepIsOrderly(lib, s, call);
    var (after, reply) := Step(lib, s, call);
    hide Sends;
    hide KeepsProgress;
    if Sends(s, after, KindsOf(reply)) {
      SendWrites(s, after, KindsOf(reply), ks);
    } else {
      ReceiveWrites(s, after, reply, ks);
      assert KindsOf(reply) == [] && ks + [] == ks;
    }
  }

  lemma {:induction false} RunWrites(lib: Library, requestId: string, calls: seq<Call>)
    ensures var (s, replies) := Run(lib, Fresh(requestId), calls);
            Inv(s) && Written(s, Kinds(replies))
  {
    if calls != [] {
      var n := |calls| - 1;
      RunWrites(lib, requestId, calls[..n]);
      var (mid, replies) := Run(lib, Fresh(requestId), calls[..n]);
      StepKeepsInv(lib, mid, calls[n]);
      StepWrites(lib, mid, calls[n], Kinds(replies));
      var reply := Step(lib, mid, calls[n]).1;
      assert (replies + [reply])[..n] == replies;
    }
  }

  /** In every run the requests handed out are a prefix of
      StartTask, StartSession, First, Middle*, Last, FinishSession. */
  lemma RequestsFollowScript(lib: Library, requestId: string, calls: seq<Call>)
    ensures FollowsScript(Kinds(Run(lib, Fresh(requestId), calls).1))
  {
    RunWrites(lib, requestId, calls);
    WrittenFollows(Run(lib, Fresh(requestId), calls).0, Kinds(Run(lib, Fresh(requestId), calls).1));
  }

  // ----- endings and errors

  function Finishes(replies: seq<Reply>): nat {
    if replies == [] then 0
    else
      var last := replies[|replies| - 1];
      Finishes(replies[..|replies| - 1]) + if last.Notified? && last.event.FinishedEvent? then 1 else 0
  }

  /** At most one Finished event occurs, and only in a session that has passed its last phase. */
  lemma {:induction false} AtMostOneFinish(lib: Library, requestId: string, calls: seq<Call>)
    ensures var (s, replies) := Run(lib, Fresh(requestId), calls);
            Finishes(replies) <= 1 && (Finishes(replies) == 1 ==> Rank(s.phase) >= 6)
  {
    if calls != [] {
      var n := |calls| - 1;
      AtMostOneFinish(lib, requestId, calls[..n]);
      var (mid, replies) := Run(lib, Fresh(requestId), calls[..n]);
      var reply := Step(lib, mid, calls[n]).1;
      assert (replies + [reply])[..n] == replies;
      StepAdvances(lib, mid, calls[n]);
      if reply.Notified? && reply.event.FinishedEvent? {
        FinishIsLast(lib, mid, calls[n]);
      }
      hide Step;
    }
  }

  lemma FinishIsLast(lib: Library, s: Session, call: Call)
    requires Step(lib, s, call).1.Notified? && Step(lib, s, call).1.event.FinishedEvent?
    ensures call.Receive? && Listening(s) && s.phase == Finishing && Step(lib, s, call).0.phase == Finished
  {
    hide Step;
    hide Sends;
    StepIsOrderly(lib, s, call);
  }

  /** A Finished outcome has a non-blank transcript, at least one confirmed frame, and evidence that audio was heard. */
  lemma FinishedOutcome(lib: Library, requestId: string, calls: seq<Call>, last: Call)
    requires var reply := Step(lib, Run(lib, Fresh(requestId), calls).0, last).1;
             reply.Notified? && reply.event.FinishedEvent?
    ensures var s := Run(lib, Fresh(requestId), calls).0;
            var (after, reply) := Step(lib, s, last);
            && !Utf8.Blank(reply.event.outcome.transcript)
            && reply.event.outcome.sent == after.sent > 0
            && after.acceptance != NotAccepted && after.phase == Finished
  {
    RunKeepsInv(lib, Fresh(requestId), calls);
    var s := Run(lib, Fresh(requestId), calls).0;
    ReceiveIsLawful(lib, s, last.message);
  }

  /** Every authentication error is reported before any audio could have been accepted. */
  lemma AuthenticationPrecedesAudio(lib: Library, requestId: string, calls: seq<Call>, last: Call)
    requires var reply := Step(lib, Run(lib, Fresh(requestId), calls).0, last).1;
             reply.Refused? && reply.error.category == Authentication
    ensures var after := Step(lib, Run(lib, Fresh(requestId), calls).0, last).0;
            after.acceptance == NotAccepted && after.sent == 0
  {
    RunKeepsInv(lib, Fresh(requestId), calls);
    var s := Run(lib, Fresh(requestId), calls).0;
    ReceiveIsLawful(lib, s, last.message);
  }

  // ----- where the lifecycle is weaker than it looks

  function Strength(acceptance: AudioAcceptance): nat {
    match acceptance
    case NotAccepted => 0
    case PossiblyAccepted => 1
    case Accepted => 2
  }

  /** Evidence is not monotone: it falls exactly when a frame is confirmed or found ambiguous after the provider had
      already shown that it hears the audio. It then falls to PossiblyAccepted, never to NotAccepted. */
  lemma EvidenceFallsExactly(lib: Library, s: Session, call: Call)
    ensures Strength(Step(lib, s, call).0.acceptance) < Strength(s.acceptance)
       <==> s.acceptance == Accepted && s.phase == Streaming && s.input == AudioPending
            && (call.ConfirmAudioSent? || call.MarkAudioWriteAmbiguous?)
  {
    hide ReceiveStep;
    hide TimestampJson;
    hide LastFrameMarker;
    if call.Receive? {
      ReceiveIsLawful(lib, s, call.message);
    }
  }

  lemma {:induction false} RunMore(lib: Library, s: Session, calls: seq<Call>, call: Call)
    ensures Run(lib, s, calls + [call]).0 == Step(lib, Run(lib, s, calls).0, call).0
  {
    assert (calls + [call])[..|calls|] == calls;
    hide Step;
  }

  lemma HearsEnvelope(lib: Library, s: Session, e: P.Envelope)
    requires P.Sendable(e) && Listening(s)
    ensures Step(lib, s, Receive(P.EncodeResponse(e))) == EnvelopeStep(lib, s, e)
  {
    hide P.Sendable;
    hide P.EncodeResponse;
    hide EnvelopeStep;
    hide P.DecodeResponse;
    P.ResponseRoundTrip(e);
  }

  function Plain(requestId: string, messageType: string, json: bytes): P.Envelope {
    P.Envelope(requestId, "", "ASR", messageType, 0, "", json)
  }

  lemma PlainIsSendable(requestId: string, messageType: string, json: bytes)
    requires NewSession(requestId).Ok? && |messageType| <= 100 && |json| <= 0x6_0000
    ensures P.Sendable(Plain(requestId, messageType, json))
  {
    hide P.Sendable;
    Utf8.EncodeLength(messageType);
    Utf8.EncodeLength("ASR");
    hide Utf8.Encode;
    Utf8.EncodeLength("");
    P.SmallIsSendable(Plain(requestId, messageType, json));
  }

  /** The calls up to a first frame handed out while the provider already answers with text. */
  function UntilHeard(requestId: string, sessionJson: bytes, packet: bytes, json: bytes): seq<Call> {
    [Call.StartTask(""), Receive(P.EncodeResponse(Plain(requestId, "TaskStarted", [])))]
    + [Call.StartSession("", sessionJson), Receive(P.EncodeResponse(Plain(requestId, "SessionStarted", [])))]
    + [Call.AudioRequest(0, packet), Receive(P.EncodeResponse(Plain(requestId, "SessionResult", json)))]
  }

  lemma OpeningIsStreaming(lib: Library, requestId: string, sessionJson: bytes)
    requires lib.isObject(sessionJson) && |sessionJson| <= MAX_SESSION_JSON_BYTES
    requires P.Sendable(Plain(requestId, "TaskStarted", [])) && P.Sendable(Plain(requestId, "SessionStarted", []))
    ensures Run(lib, Fresh(requestId),
                [Call.StartTask(""), Receive(P.EncodeResponse(Plain(requestId, "TaskStarted", [])))]
                + [Call.StartSession("", sessionJson), Receive(P.EncodeResponse(Plain(requestId, "SessionStarted", [])))]).0
            == Fresh(requestId).(phase := Streaming)
  {
    hide P.Sendable;
    hide P.EncodeResponse;
    hide ReceiveStep;
    var s := Fresh(requestId);
    var a, b := Call.StartTask(""), Receive(P.EncodeResponse(Plain(requestId, "TaskStarted", [])));
    var c, d := Call.StartSession("", sessionJson), Receive(P.EncodeResponse(Plain(requestId, "SessionStarted", [])));
    RunMore(lib, s, [], a);
    RunMore(lib, s, [a], b);
    RunMore(lib, s, [a, b], c);
    RunMore(lib, s, [a, b, c], d);
    assert [] + [a] == [a] && [a] + [b] == [a, b] && [a, b] + [c] == [a, b, c] && [a, b, c] + [d] == [a, b] + [c, d];
    hide Run;
    HearsEnvelope(lib, s.(phase := TaskStarting), Plain(requestId, "TaskStarted", []));
    HearsEnvelope(lib, s.(phase := SessionStarting), Plain(requestId, "SessionStarted", []));
  }

  /** The fall is reached from a fresh session: a result is heard while the first frame is pending, then the frame is
      confirmed. */
  lemma EvidenceFallIsReached(lib: Library, requestId: string, sessionJson: bytes, packet: bytes, json: bytes)
    requires lib.isObject(sessionJson) && |sessionJson| <= MAX_SESSION_JSON_BYTES
    requires 0 < |packet| <= MAX_OPUS_PACKET_BYTES
    requires 0 < |json| <= 0x6_0000 && lib.parse(json).Some?
    requires lib.parse(json).value.text.Some? && !lib.parse(json).value.finalResult
    requires NewSession(requestId).Ok?
    ensures var calls := UntilHeard(requestId, sessionJson, packet, json);
            && Run(lib, Fresh(requestId), calls).0.acceptance == Accepted
            && Run(lib, Fresh(requestId), calls + [ConfirmAudioSent]).0.acceptance == PossiblyAccepted
  {
    hide P.Sendable;
    hide P.EncodeResponse;
    hide ReceiveStep;
    hide TimestampJson;
    var s := Fresh(requestId);
    PlainIsSendable(requestId, "TaskStarted", []);
    PlainIsSendable(requestId, "SessionStarted", []);
    PlainIsSendable(requestId, "SessionResult", json);
    OpeningIsStreaming(lib, requestId, sessionJson);
    var opening := [Call.StartTask(""), Receive(P.EncodeResponse(Plain(requestId, "TaskStarted", [])))]
                   + [Call.StartSession("", sessionJson), Receive(P.EncodeResponse(Plain(requestId, "SessionStarted", [])))];
    var e, f := Call.AudioRequest(0, packet), Receive(P.EncodeResponse(Plain(requestId, "SessionResult", json)));
    RunMore(lib, s, opening, e);
    RunMore(lib, s, opening + [e], f);
    RunMore(lib, s, opening + [e] + [f], ConfirmAudioSent);
    assert opening + [e] + [f] == opening + [e, f];
    hide Run;
    HearsEnvelope(lib, s.(phase := Streaming, input := AudioPending), Plain(requestId, "SessionResult", json));
  }

  /** Finished is not absorbing: any further sending call fails the session, and nothing else moves it. */
  lemma FinishedBreaksExactly(lib: Library, s: Session, call: Call)
    requires s.phase == Finished
    ensures Step(lib, s, call).0 == if call.Receive? || call.Cancel? then s else s.(phase := Failed)
  {
    hide EnvelopeStep;
    hide TimestampJson;
    hide LastFrameMarker;
  }

  // ----- packet numbers

  function PacketsOf(reply: Reply): seq<nat> {
    if reply.Notified? && reply.event.Recognized? && reply.event.r.packet.Some? then [reply.event.r.packet.value] else []
  }

  function Packets(replies: seq<Reply>): seq<nat> {
    if replies == [] then [] else Packets(replies[..|replies| - 1]) + PacketsOf(replies[|replies| - 1])
  }

  predicate Increasing(ns: seq<nat>) {
    forall i, j :: 0 <= i < j < |ns| ==> ns[i] < ns[j]
  }

  predicate BoundedBy(ns: seq<nat>, last: Option<nat>) {
    forall i :: 0 <= i < |ns| ==> last.Some? && ns[i] <= last.value
  }

  /** The packet numbers of accepted results strictly increase, and none exceeds the number remembered. */
  lemma {:induction false} PacketsIncrease(lib: Library, requestId: string, calls: seq<Call>)
    ensures var (s, replies) := Run(lib, Fresh(requestId), calls);
            Increasing(Packets(replies)) && BoundedBy(Packets(replies), s.lastPacket)
  {
    if calls != [] {
      var n := |calls| - 1;
      PacketsIncrease(lib, requestId, calls[..n]);
      var (mid, replies) := Run(lib, Fresh(requestId), calls[..n]);
      StepPackets(lib, mid, calls[n], Packets(replies));
      var reply := Step(lib, mid, calls[n]).1;
      assert (replies + [reply])[..n] == replies;
    }
  }

  lemma ProgressOrdersPackets(s: Session, after: Session, reply: Reply, ns: seq<nat>)
    requires Increasing(ns) && BoundedBy(ns, s.lastPacket)
    requires KeepsProgress(s, after, reply)
    ensures Increasing(ns + PacketsOf(reply)) && BoundedBy(ns + PacketsOf(reply), after.lastPacket)
  {
    if PacketsOf(reply) == [] {
      assert ns + [] == ns;
    }
  }

  lemma OrderlyProgress(s: Session, after: Session, reply: Reply)
    requires Orderly(s, after, reply)
    ensures KeepsProgress(s, after, reply)
  {
    hide KindsOf;
    hide Utf8.Blank;
  }

  lemma StepPackets(lib: Library, s: Session, call: Call, ns: seq<nat>)
    requires Increasing(ns) && BoundedBy(ns, s.lastPacket)
    ensures var (after, reply) := Step(lib, s, call);
            Increasing(ns + PacketsOf(reply)) && BoundedBy(ns + PacketsOf(reply), after.lastPacket)
  {
    hide Step;
    hide Orderly;
    hide Increasing;
    hide BoundedBy;
    hide KeepsProgress;
    StepIsOrderly(lib, s, call);
    OrderlyProgress(s, Step(lib, s, call).0, Step(lib, s, call).1);
    ProgressOrdersPackets(s, Step(lib, s, call).0, Step(lib, s, call).1, ns);
  }

  /** A message that was accepted as a numbered result. */
  predicate AcceptsNumbered(lib: Library, s: Session, message: bytes) {
    PacketsOf(ReceiveStep(lib, s, message).1) != []
  }

  /** A successful envelope for this request that is not one of the lifecycle messages. */
  predicate CarriesResult(e: P.Envelope, requestId: string) {
    && e.requestId == requestId && (e.service == "" || e.service == "ASR") && e.statusCode == 0
    && e.messageType != "TaskFailed" && e.messageType != "SessionFailed" && e.messageType != "TaskStarted"
    && e.messageType != "SessionStarted" && e.messageType != "SessionFinished"
  }

  lemma ResultsAreForwarded(lib: Library, s: Session, e: P.Envelope)
    ensures CarriesResult(e, s.requestId) ==> EnvelopeStep(lib, s, e) == ResultStep(lib, s, e)
    ensures !CarriesResult(e, s.requestId) ==> PacketsOf(EnvelopeStep(lib, s, e).1) == []
  {
    hide ResultStep;
    hide AuthLike;
  }

  /** What an accepted numbered message says about itself. */
  lemma AcceptedMessage(lib: Library, s: Session, message: bytes)
    requires Inv(s) && AcceptsNumbered(lib, s, message)
    ensures Listening(s) && P.DecodeResponse(message).Some?
    ensures var e := P.DecodeResponse(message).value;
            && CarriesResult(e, s.requestId) && e.resultJson != [] && lib.parse(e.resultJson).Some?
            && lib.parse(e.resultJson).value.packet.Some?
            && ReceiveStep(lib, s, message).0.lastPacket == lib.parse(e.resultJson).value.packet
    ensures Rank(ReceiveStep(lib, s, message).0.phase) >= 4
  {
    hide P.DecodeResponse;
    hide CarriesResult;
    hide EnvelopeStep;
    hide Utf8.Blank;
    if P.DecodeResponse(message).Some? {
      ResultsAreForwarded(lib, s, P.DecodeResponse(message).value);
    }
  }

  lemma StaleMessage(lib: Library, s: Session, t: Session, message: bytes)
    requires Inv(s) && AcceptsNumbered(lib, s, message) && t.requestId == s.requestId
    requires t.phase == Streaming || t.phase == Finishing
    requires var last := ReceiveStep(lib, s, message).0.lastPacket;
             last.Some? ==> t.lastPacket.Some? && last.value <= t.lastPacket.value
    ensures ReceiveStep(lib, t, message) == (t, Notified(DuplicateIgnored))
  {
    AcceptedMessage(lib, s, message);
    hide P.DecodeResponse;
    hide CarriesResult;
    hide EnvelopeStep;
    hide Inv;
    hide AcceptsNumbered;
    ResultsAreForwarded(lib, t, P.DecodeResponse(message).value);
  }

  /** Redelivering a numbered result after it was accepted, at any later point of any run, changes nothing:
      it is ignored as a duplicate while the session listens and refused once the session is over. */
  lemma RedeliveryIsHarmless(lib: Library, requestId: string, before: seq<Call>, message: bytes, later: seq<Call>)
    requires AcceptsNumbered(lib, Run(lib, Fresh(requestId), before).0, message)
    ensures var s := ReceiveStep(lib, Run(lib, Fresh(requestId), before).0, message).0;
            var t := Run(lib, s, later).0;
            ReceiveStep(lib, t, message) ==
            (t, if Listening(t) then Notified(DuplicateIgnored)
                else Refused(SessionError(Protocol, SessionNotReceiving, None)))
  {
    var r := Run(lib, Fresh(requestId), before).0;
    RunKeepsInv(lib, Fresh(requestId), before);
    AcceptedMessage(lib, r, message);
    ReceiveIsLawful(lib, r, message);
    var s := ReceiveStep(lib, r, message).0;
    StepKeepsInv(lib, r, Receive(message));
    PhasesAdvance(lib, s, later);
    var t := Run(lib, s, later).0;
    if Listening(t) {
      StaleMessage(lib, r, t, message);
    }
  }
}
