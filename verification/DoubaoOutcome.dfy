/** What a Doubao session makes of the provider's results, over every run, and what a whole session writes and
    returns. */
module DoubaoOutcome {
  import opened Base
  import opened Providers
  import opened DoubaoSession
  import opened DoubaoSessionLaws
  import Decimal
  import Utf8
  import P = Protobuf

  // ----- what the replies of a run tell

  predicate Reports(reply: Reply) {
    reply.Notified? && reply.event.Recognized?
  }

  /** A reported final result whose text is not blank. */
  predicate ReportsFinal(reply: Reply) {
    Reports(reply) && reply.event.r.finalResult && reply.event.r.text.Some? && !Utf8.Blank(reply.event.r.text.value)
  }

  /** The text of the last reported final result that is not blank. */
  function FinalText(replies: seq<Reply>): Option<string> {
    if replies == [] then None
    else if ReportsFinal(replies[|replies| - 1]) then replies[|replies| - 1].event.r.text
    else FinalText(replies[..|replies| - 1])
  }

  /** The packet number of the last reported result that has one. */
  function LastNumber(replies: seq<Reply>): Option<nat> {
    if replies == [] then None
    else
      var last := replies[|replies| - 1];
      if Reports(last) && last.event.r.packet.Some? then last.event.r.packet else LastNumber(replies[..|replies| - 1])
  }

  predicate VoiceStarted(replies: seq<Reply>) {
    exists i :: 0 <= i < |replies| && Reports(replies[i]) && replies[i].event.r.vadStarted
  }

  predicate VoiceFinished(replies: seq<Reply>) {
    exists i :: 0 <= i < |replies| && Reports(replies[i]) && replies[i].event.r.vadFinished
  }

  /** How many results were reported as interim ones. */
  function Interims(replies: seq<Reply>): nat {
    if replies == [] then 0
    else
      var last := replies[|replies| - 1];
      Interims(replies[..|replies| - 1]) + if Reports(last) && last.event.r.interim then 1 else 0
  }

  lemma RepliesGrow(replies: seq<Reply>, reply: Reply)
    ensures FinalText(replies + [reply]) == if ReportsFinal(reply) then reply.event.r.text else FinalText(replies)
    ensures LastNumber(replies + [reply])
         == if Reports(reply) && reply.event.r.packet.Some? then reply.event.r.packet else LastNumber(replies)
    ensures VoiceStarted(replies + [reply]) == (VoiceStarted(replies) || (Reports(reply) && reply.event.r.vadStarted))
    ensures VoiceFinished(replies + [reply]) == (VoiceFinished(replies) || (Reports(reply) && reply.event.r.vadFinished))
    ensures Interims(replies + [reply]) == Interims(replies) + if Reports(reply) && reply.event.r.interim then 1 else 0
  {
    hide Utf8.Blank;
    assert (replies + [reply])[..|replies|] == replies;
    VoicesGrow(replies, reply);
  }

  lemma VoicesGrow(replies: seq<Reply>, reply: Reply)
    ensures VoiceStarted(replies + [reply]) == (VoiceStarted(replies) || (Reports(reply) && reply.event.r.vadStarted))
    ensures VoiceFinished(replies + [reply]) == (VoiceFinished(replies) || (Reports(reply) && reply.event.r.vadFinished))
  {
    var all, n := replies + [reply], |replies|;
    assert all[n] == reply;
    if VoiceStarted(replies) {
      var i :| 0 <= i < n && Reports(replies[i]) && replies[i].event.r.vadStarted;
      assert all[i] == replies[i];
    }
    if VoiceFinished(replies) {
      var i :| 0 <= i < n && Reports(replies[i]) && replies[i].event.r.vadFinished;
      assert all[i] == replies[i];
    }
  }

  // ----- one step keeps what was told

  /** The session remembers what it reports. */
  predicate Remembers(s: Session, after: Session, reply: Reply) {
    && after.finalTranscript == (if ReportsFinal(reply) then reply.event.r.text else s.finalTranscript)
    && (after.phase != Failed ==>
          && after.lastPacket == (if Reports(reply) && reply.event.r.packet.Some? then reply.event.r.packet
                                  else s.lastPacket)
          && after.vadStarted == (s.vadStarted || (Reports(reply) && reply.event.r.vadStarted))
          && after.vadFinished == (s.vadFinished || (Reports(reply) && reply.event.r.vadFinished)))
  }

  lemma RecognitionRemembers(s: Session, r: Recognition)
    requires s.phase == Streaming || s.phase == Finishing
    ensures Remembers(s, RecognitionStep(s, r).0, RecognitionStep(s, r).1)
  {
    hide Utf8.Blank;
  }

  lemma ResultRemembers(lib: Library, s: Session, e: P.Envelope)
    ensures Remembers(s, ResultStep(lib, s, e).0, ResultStep(lib, s, e).1)
  {
    hide RecognitionStep;
    hide Utf8.Blank;
    if (s.phase == Streaming || s.phase == Finishing) && lib.parse(e.resultJson).Some? {
      RecognitionRemembers(s, lib.parse(e.resultJson).value);
    }
  }

  lemma EnvelopeRemembers(lib: Library, s: Session, e: P.Envelope)
    ensures Remembers(s, EnvelopeStep(lib, s, e).0, EnvelopeStep(lib, s, e).1)
  {
    hide ResultStep;
    hide AuthLike;
    hide StatusCode;
    hide Utf8.Blank;
    ResultRemembers(lib, s, e);
  }

  lemma SendsRemember(s: Session, after: Session, reply: Reply)
    requires Sends(s, after, KindsOf(reply)) && OwnReply(reply)
    ensures Remembers(s, after, reply)
  {
    hide Utf8.Blank;
  }

  lemma StepRemembers(lib: Library, s: Session, call: Call)
    ensures Remembers(s, Step(lib, s, call).0, Step(lib, s, call).1)
  {
    hide EnvelopeStep;
    hide P.DecodeResponse;
    if call.Receive? {
      if P.DecodeResponse(call.message).Some? {
        EnvelopeRemembers(lib, s, P.DecodeResponse(call.message).value);
      }
      hide Utf8.Blank;
    } else {
      OwnCallSends(lib, s, call);
      var (after, reply) := Step(lib, s, call);
      SendsRemember(s, after, reply);
    }
  }

  lemma StaysFailed(lib: Library, s: Session, call: Call)
    requires s.phase == Failed
    ensures Step(lib, s, call).0.phase == Failed
  {
    hide Step;
    StepAdvances(lib, s, call);
  }

  predicate Retains(s: Session, replies: seq<Reply>) {
    && s.finalTranscript == FinalText(replies)
    && (s.phase != Failed ==>
          && s.lastPacket == LastNumber(replies)
          && s.vadStarted == VoiceStarted(replies) && s.vadFinished == VoiceFinished(replies))
  }

  lemma RetainsMore(s: Session, replies: seq<Reply>, after: Session, reply: Reply)
    requires Retains(s, replies) && Remembers(s, after, reply) && (s.phase == Failed ==> after.phase == Failed)
    ensures Retains(after, replies + [reply])
  {
    hide FinalText;
    hide LastNumber;
    hide VoiceStarted;
    hide VoiceFinished;
    hide Utf8.Blank;
    RepliesGrow(replies, reply);
  }

  /** Over every run the kept transcript is the text of the last final result that was reported and is not blank; and
      unless the session has failed, packet number and voice marks are those of the results reported. */
  lemma {:induction false} KeepsWhatItReports(lib: Library, requestId: string, calls: seq<Call>)
    ensures var (s, replies) := Run(lib, Fresh(requestId), calls); Retains(s, replies)
  {
    hide Step;
    hide Retains;
    hide Remembers;
    if calls == [] {
      FreshRetains(requestId);
    } else {
      var n := |calls| - 1;
      KeepsWhatItReports(lib, requestId, calls[..n]);
      var (mid, replies) := Run(lib, Fresh(requestId), calls[..n]);
      var (after, reply) := Step(lib, mid, calls[n]);
      StepRemembers(lib, mid, calls[n]);
      if mid.phase == Failed {
        StaysFailed(lib, mid, calls[n]);
      }
      RetainsMore(mid, replies, after, reply);
    }
  }

  lemma FreshRetains(requestId: string)
    ensures Retains(Fresh(requestId), [])
  {
  }

  // ----- how results are heard

  /** The result is news: it has no packet number, or a larger one than any reported before. */
  predicate News(r: Recognition, last: Option<nat>) {
    r.packet.None? || last.None? || last.value < r.packet.value
  }

  /** A result message in an open session is reported and noted if it is news, except that a final result without
      text fails the session; anything else is ignored. */
  lemma ResultIsHeard(lib: Library, s: Session, e: P.Envelope, r: Recognition)
    requires P.Sendable(e) && CarriesResult(e, s.requestId) && e.resultJson != [] && lib.parse(e.resultJson) == Some(r)
    requires s.phase == Streaming || s.phase == Finishing
    ensures var (after, reply) := Step(lib, s, Receive(P.EncodeResponse(e)));
            && (!News(r, s.lastPacket) ==> after == s && reply == Notified(DuplicateIgnored))
            && (News(r, s.lastPacket) && r.finalResult && (r.text.None? || Utf8.Blank(r.text.value)) ==>
                  after.phase == Failed && reply == Refused(SessionError(Protocol, EmptyFinalTranscript, None)))
            && (News(r, s.lastPacket) && (r.finalResult ==> r.text.Some? && !Utf8.Blank(r.text.value)) ==>
                  && reply == Notified(Recognized(r)) && after.phase == s.phase && after.sent == s.sent
                  && after.finalTranscript == (if r.finalResult then r.text else s.finalTranscript)
                  && after.acceptance == (if r.vadStarted || r.text.Some? || r.finalResult then Accepted
                                          else s.acceptance))
  {
    hide P.Sendable;
    hide P.EncodeResponse;
    hide EnvelopeStep;
    hide Step;
    hide Utf8.Blank;
    HearsEnvelope(lib, s, e);
    ResultsAreForwarded(lib, s, e);
  }

  /** A message that the provider ended the session. */
  predicate SaysFinished(e: P.Envelope, requestId: string) {
    && e.requestId == requestId && (e.service == "" || e.service == "ASR") && e.statusCode == 0
    && e.messageType == "SessionFinished"
  }

  lemma FinishedIsHeard(lib: Library, s: Session, e: P.Envelope)
    requires P.Sendable(e) && SaysFinished(e, s.requestId) && s.phase == Finishing
    ensures var (after, reply) := Step(lib, s, Receive(P.EncodeResponse(e)));
            match s.finalTranscript
            case None => after.phase == Failed && reply == Refused(SessionError(Protocol, MissingFinalTranscript, None))
            case Some(text) =>
              after == s.(phase := Finished)
              && reply == Notified(FinishedEvent(Outcome(text, s.taskId, s.sent, s.lastPacket, s.vadStarted,
                                                         s.vadFinished)))
  {
    hide P.Sendable;
    hide P.EncodeResponse;
    hide Step;
    hide ResultStep;
    HearsEnvelope(lib, s, e);
  }

  /** In every run a finishing session answers the end of the session with the last non-blank final text reported, and
      with an error exactly when there was none. */
  lemma FinishReportsFinalText(lib: Library, requestId: string, calls: seq<Call>, e: P.Envelope)
    requires P.Sendable(e) && SaysFinished(e, requestId)
    requires Run(lib, Fresh(requestId), calls).0.phase == Finishing
    ensures var (s, replies) := Run(lib, Fresh(requestId), calls);
            Step(lib, s, Receive(P.EncodeResponse(e))).1 ==
            match FinalText(replies)
            case None => Refused(SessionError(Protocol, MissingFinalTranscript, None))
            case Some(text) =>
              Notified(FinishedEvent(Outcome(text, s.taskId, s.sent, LastNumber(replies), VoiceStarted(replies),
                                             VoiceFinished(replies))))
  {
    hide P.Sendable;
    hide P.EncodeResponse;
    hide Step;
    hide FinalText;
    hide LastNumber;
    hide VoiceStarted;
    hide VoiceFinished;
    KeepsWhatItReports(lib, requestId, calls);
    PhasesAdvance(lib, Fresh(requestId), calls);
    hide Run;
    FinishedIsHeard(lib, Run(lib, Fresh(requestId), calls).0, e);
  }

  /** The outcome of a session that is over agrees with what was reported and sent. */
  predicate Told(o: Outcome, s: Session, replies: seq<Reply>) {
    && Rank(s.phase) >= 6 && o.sent == s.sent && FinalText(replies) == Some(o.transcript)
    && o.lastPacket == LastNumber(replies)
    && o.vadStarted == VoiceStarted(replies) && o.vadFinished == VoiceFinished(replies)
  }

  /** Once a session is over it neither sends nor reports. */
  lemma OverIsOver(lib: Library, s: Session, call: Call)
    requires Rank(s.phase) >= 6
    ensures var (after, reply) := Step(lib, s, call);
            Rank(after.phase) >= 6 && after.sent == s.sent && !reply.Notified?
  {
    hide EnvelopeStep;
    hide P.DecodeResponse;
    hide TimestampJson;
    hide LastFrameMarker;
  }

  lemma ToldStays(o: Outcome, s: Session, replies: seq<Reply>, after: Session, reply: Reply)
    requires Told(o, s, replies) && Rank(after.phase) >= 6 && after.sent == s.sent && !reply.Notified?
    ensures Told(o, after, replies + [reply])
  {
    hide FinalText;
    hide LastNumber;
    hide VoiceStarted;
    hide VoiceFinished;
    RepliesGrow(replies, reply);
  }

  lemma ToldNow(s: Session, replies: seq<Reply>, after: Session, reply: Reply)
    requires Retains(s, replies) && MovesAlong(s, after, reply)
    requires reply.Notified? && reply.event.FinishedEvent?
    ensures Told(reply.event.outcome, after, replies + [reply])
  {
    hide FinalText;
    hide LastNumber;
    hide VoiceStarted;
    hide VoiceFinished;
    RepliesGrow(replies, reply);
  }

  /** Over every run, the outcome a session finished with carries the last non-blank final text reported, the number of
      frames confirmed, the last packet number reported, and whether any report had the voice marks. */
  lemma {:induction false} FinishedTells(lib: Library, requestId: string, calls: seq<Call>, o: Outcome)
    requires Notified(FinishedEvent(o)) in Run(lib, Fresh(requestId), calls).1
    ensures var (s, replies) := Run(lib, Fresh(requestId), calls); Told(o, s, replies)
  {
    hide Step;
    hide Told;
    hide Retains;
    hide MovesAlong;
    var n := |calls| - 1;
    var (mid, replies) := Run(lib, Fresh(requestId), calls[..n]);
    var (after, reply) := Step(lib, mid, calls[n]);
    if Notified(FinishedEvent(o)) in replies {
      FinishedTells(lib, requestId, calls[..n], o);
      assert Rank(mid.phase) >= 6 by {
        ToldIsOver(o, mid, replies);
      }
      OverIsOver(lib, mid, calls[n]);
      ToldStays(o, mid, replies, after, reply);
    } else {
      KeepsWhatItReports(lib, requestId, calls[..n]);
      FinishMoves(lib, mid, calls[n]);
      ToldNow(mid, replies, after, reply);
    }
  }

  lemma ToldIsOver(o: Outcome, s: Session, replies: seq<Reply>)
    requires Told(o, s, replies)
    ensures Rank(s.phase) >= 6
  {
  }

  lemma FinishMoves(lib: Library, s: Session, call: Call)
    requires Step(lib, s, call).1.Notified? && Step(lib, s, call).1.event.FinishedEvent?
    ensures MovesAlong(s, Step(lib, s, call).0, Step(lib, s, call).1)
  {
    hide Step;
    hide Sends;
    hide KeepsProgress;
    StepIsOrderly(lib, s, call);
  }

  // ----- what is refused

  /** A session is made for an id of 1 to 128 bytes without ASCII control characters, and begins untouched. */
  lemma IdsAccepted(requestId: string)
    ensures NewSession(requestId).Ok? <==>
              var b := Utf8.Encode(requestId);
              1 <= |b| <= 128 && forall i :: 0 <= i < |b| ==> 32 <= b[i] && b[i] != 127
    ensures NewSession(requestId)
         == if NewSession(requestId).Ok? then
              Ok(Session(requestId, Disconnected, None, 0, Open, NotAccepted, None, None, false, false))
            else Err(SessionError(Protocol, InvalidRequestId, None))
  {
    hide Utf8.Encode;
  }

  /** The call comes in its turn, with an acceptable argument. */
  predicate InTurn(lib: Library, s: Session, call: Call) {
    match call
    case StartTask(_) => s.phase == Disconnected
    case StartSession(_, json) => s.phase == TaskStarted && |json| <= 262_144 && lib.isObject(json)
    case AudioRequest(_, packet) => s.phase == Streaming && s.input == Open && 1 <= |packet| <= 1275
    case ConfirmAudioSent => s.phase == Streaming && s.input == AudioPending
    case MarkAudioWriteAmbiguous => s.phase == Streaming && s.input == AudioPending
    case FinishAudio(_) => s.phase == Streaming && s.input == Open && s.sent >= 1
    case FinishSession(_) => s.phase == Streaming && s.input == InputFinished
    case Cancel => true
    case Receive(_) => s.phase in {TaskStarting, TaskStarted, SessionStarting, Streaming, Finishing}
  }

  /** A caller's call is refused exactly when it is out of turn; a refusal fails the session unless it is cancelled. */
  lemma RefusedExactly(lib: Library, s: Session, call: Call)
    requires !call.Receive?
    ensures Step(lib, s, call).1.Refused? <==> !InTurn(lib, s, call)
    ensures !InTurn(lib, s, call) ==>
              Step(lib, s, call).0 == s.(phase := if s.phase == PhaseCancelled then PhaseCancelled else Failed)
              && Step(lib, s, call).1.error.category == Protocol
  {
    hide ReceiveStep;
    hide TimestampJson;
    hide LastFrameMarker;
  }

  /** A message is refused without any effect exactly when the session does not listen. */
  lemma DeafSessions(lib: Library, s: Session, message: bytes)
    ensures !InTurn(lib, s, Receive(message)) <==>
              Step(lib, s, Receive(message)) == (s, Refused(SessionError(Protocol, SessionNotReceiving, None)))
  {
    ReceiveIsLawful(lib, s, message);
    if InTurn(lib, s, Receive(message)) {
      BrokenMoves(s);
    }
    hide EnvelopeStep;
    hide P.DecodeResponse;
  }

  lemma BrokenMoves(s: Session)
    ensures s.phase != Failed && s.phase != PhaseCancelled ==> Broken(s).phase != s.phase
  {
  }

  /** A status or type that reports failed credentials for a task that is starting. */
  predicate DeniesTask(lib: Library, s: Session, e: P.Envelope) {
    && s.phase == TaskStarting && (e.statusCode != 0 || e.messageType == "TaskFailed")
    && (e.statusCode == 401 || e.statusCode == 403 || lib.mentionsAuth(e.statusMessage))
  }

  /** A message for another request or service, or one that reports a failure, fails the session with its own error. */
  lemma FaultIsRefused(lib: Library, s: Session, e: P.Envelope)
    requires P.Sendable(e) && Listening(s)
    requires || e.requestId != s.requestId || e.service !in {"", "ASR"} || e.statusCode != 0
             || e.messageType in {"TaskFailed", "SessionFailed"}
    ensures Step(lib, s, Receive(P.EncodeResponse(e))) ==
            (s.(phase := Failed),
             Refused(if e.requestId != s.requestId then SessionError(Protocol, ResponseRequestMismatch, None)
                     else if e.service !in {"", "ASR"} then SessionError(Protocol, ResponseServiceMismatch, None)
                     else if DeniesTask(lib, s, e) then SessionError(Authentication, StartTaskAuthFailed, None)
                     else if e.statusCode == 0 then SessionError(Protocol, RemoteSessionFailed, None)
                     else SessionError(Protocol,
                                       if s.phase == TaskStarting then StartTaskStatusFailed
                                       else if s.phase == SessionStarting then StartSessionStatusFailed
                                       else if s.phase == Streaming then StreamingStatusFailed
                                       else if s.phase == Finishing then FinishSessionStatusFailed
                                       else RemoteStatusFailed, Some(e.statusCode))))
  {
    hide P.Sendable;
    hide P.EncodeResponse;
    hide Step;
    hide ResultStep;
    hide SessionFinishedStep;
    HearsEnvelope(lib, s, e);
  }

  /** A well-formed message that does not belong to the phase, or whose result cannot be read, fails the session too;
      and so does one that is no envelope. */
  lemma MisplacedIsRefused(lib: Library, s: Session, e: P.Envelope, code: ErrorCode)
    requires P.Sendable(e) && Listening(s)
    requires e.requestId == s.requestId && e.service in {"", "ASR"} && e.statusCode == 0
    requires || (code == UnexpectedTaskStarted && e.messageType == "TaskStarted" && s.phase != TaskStarting)
             || (code == UnexpectedSessionStarted && e.messageType == "SessionStarted" && s.phase != SessionStarting)
             || (code == UnexpectedSessionFinished && e.messageType == "SessionFinished" && s.phase != Finishing)
             || (code == ResultBeforeSessionStarted && CarriesResult(e, s.requestId) && e.resultJson != []
                 && s.phase != Streaming && s.phase != Finishing)
             || (code == InvalidResultJson && CarriesResult(e, s.requestId) && e.resultJson != []
                 && (s.phase == Streaming || s.phase == Finishing) && lib.parse(e.resultJson) == None)
    ensures Step(lib, s, Receive(P.EncodeResponse(e)))
         == (s.(phase := Failed), Refused(SessionError(Protocol, code, None)))
  {
    hide P.Sendable;
    hide P.EncodeResponse;
    hide Step;
    HearsEnvelope(lib, s, e);
  }

  /** Bytes that are no envelope fail the session. */
  lemma GarbageIsRefused(lib: Library, s: Session, message: bytes)
    requires Listening(s) && P.DecodeResponse(message) == None
    ensures Step(lib, s, Receive(message))
         == (s.(phase := Failed), Refused(SessionError(Protocol, InvalidResponseEnvelope, None)))
  {
    hide P.DecodeResponse;
    hide EnvelopeStep;
  }

  // ----- a whole session

  const FRAME_MILLIS := 20

  /** The time of the frame after `frames` frames, in a saturating 64-bit word. */
  function Stamp(base: nat, frames: nat): nat {
    Min(base + FRAME_MILLIS * frames, U64_MAX)
  }

  /** The request's JSON holds the time as a number any reader gets back. */
  lemma TimestampIsRead(millis: nat)
    requires millis <= U64_MAX
    ensures var head, json := Utf8.Encode("{\"extra\":{},\"timestamp_ms\":"), TimestampJson(millis);
            && |head| + 1 <= |json| && json[..|head|] == head && json[|json| - 1..] == Utf8.Encode("}")
            && Decimal.ParseU64(json[|head|..|json| - 1]) == Some(millis)
  {
    hide Utf8.Encode;
    hide Decimal.ToDecimal;
    hide Decimal.ParseU64;
    var head, digits, tail := Utf8.Encode("{\"extra\":{},\"timestamp_ms\":"), Decimal.ToDecimal(millis), Utf8.Encode("}");
    assert |tail| == 1 by {
      Utf8.EncodeOne('}');
    }
    Decimal.ParseOfToDecimal(millis);
    var json := head + digits + tail;
    assert json[|head|..|json| - 1] == digits;
    assert json[|json| - 1..] == tail && json[..|head|] == head;
  }

  /** One request for each packet, in order: the first marked as such, each with its own time. */
  function AudioRequests(requestId: string, base: nat, packets: seq<bytes>): (requests: seq<P.Request>)
    ensures |requests| == |packets|
  {
    seq(|packets|, i requires 0 <= i < |packets| =>
      P.Request("", P.TaskRequest, TimestampJson(Stamp(base, i)), packets[i], requestId,
                Some(if i == 0 then P.First else P.Middle)))
  }

  function OpeningRequests(requestId: string, token: string, json: bytes): seq<P.Request> {
    [P.Request(token, P.StartTask, [], [], requestId, None), P.Request(token, P.StartSession, json, [], requestId, None)]
  }

  function ClosingRequests(requestId: string, token: string, end: nat): seq<P.Request> {
    [P.Request("", P.TaskRequest, TimestampJson(end), LastFrameMarker(), requestId, Some(P.Last)),
     P.Request(token, P.FinishSession, [], [], requestId, None)]
  }

  /** Everything a session with these packets writes, in order. */
  function SessionRequests(requestId: string, token: string, json: bytes, base: nat, packets: seq<bytes>)
    : (requests: seq<P.Request>)
    ensures |requests| == |packets| + 4
  {
    OpeningRequests(requestId, token, json) + AudioRequests(requestId, base, packets)
    + ClosingRequests(requestId, token, Stamp(base, |packets|))
  }

  /** The requests among the replies. */
  function HandedOut(replies: seq<Reply>): seq<P.Request> {
    if replies == [] then []
    else
      var last := replies[|replies| - 1];
      HandedOut(replies[..|replies| - 1]) + if last.Handed? then [last.request] else []
  }

  lemma HandedMore(replies: seq<Reply>, reply: Reply)
    ensures HandedOut(replies + [reply]) == HandedOut(replies) + if reply.Handed? then [reply.request] else []
  {
    assert (replies + [reply])[..|replies|] == replies;
  }

  lemma RunStep(lib: Library, s: Session, calls: seq<Call>, call: Call)
    ensures var (mid, replies) := Run(lib, s, calls);
            var (after, reply) := Step(lib, mid, call);
            Run(lib, s, calls + [call]) == (after, replies + [reply])
  {
    assert (calls + [call])[..|calls|] == calls;
    hide Step;
  }

  /** The calls of a caller that opens a session and whose two requests are granted. */
  function OpeningCalls(requestId: string, token: string, json: bytes, taskId: string): seq<Call> {
    [Call.StartTask(token), Receive(P.EncodeResponse(Plain(requestId, "TaskStarted", []).(taskId := taskId))),
     Call.StartSession(token, json), Receive(P.EncodeResponse(Plain(requestId, "SessionStarted", [])))]
  }

  function AudioCalls(base: nat, packets: seq<bytes>): seq<Call> {
    if packets == [] then []
    else
      var n := |packets| - 1;
      AudioCalls(base, packets[..n]) + [Call.AudioRequest(Stamp(base, n), packets[n]), ConfirmAudioSent]
  }

  /** The calls that end the audio and hear the final result and the end. */
  function ClosingCalls(requestId: string, token: string, end: nat, result: bytes): seq<Call> {
    [Call.FinishAudio(end), Call.FinishSession(token),
     Receive(P.EncodeResponse(Plain(requestId, "SessionResult", result))),
     Receive(P.EncodeResponse(Plain(requestId, "SessionFinished", [])))]
  }

  ghost predicate Reaches(lib: Library, requestId: string, calls: seq<Call>, s: Session, requests: seq<P.Request>) {
    Run(lib, Fresh(requestId), calls).0 == s && HandedOut(Run(lib, Fresh(requestId), calls).1) == requests
  }

  lemma ReachesMore(lib: Library, requestId: string, calls: seq<Call>, s: Session, requests: seq<P.Request>, call: Call)
    requires Reaches(lib, requestId, calls, s, requests)
    ensures var (after, reply) := Step(lib, s, call);
            Reaches(lib, requestId, calls + [call], after, requests + if reply.Handed? then [reply.request] else [])
  {
    hide Step;
    RunStep(lib, Fresh(requestId), calls, call);
    HandedMore(Run(lib, Fresh(requestId), calls).1, Step(lib, s, call).1);
  }

  lemma OpeningReaches(lib: Library, requestId: string, token: string, json: bytes, taskId: string)
    requires lib.isObject(json) && |json| <= MAX_SESSION_JSON_BYTES
    requires NewSession(requestId).Ok? && 0 < |taskId| <= 100
    ensures Reaches(lib, requestId, OpeningCalls(requestId, token, json, taskId),
                    Fresh(requestId).(phase := Streaming, taskId := Some(taskId)),
                    OpeningRequests(requestId, token, json))
  {
    hide Reaches;
    hide P.Sendable;
    hide P.EncodeResponse;
    hide ReceiveStep;
    hide NewSession;
    var s := Fresh(requestId);
    var started := Plain(requestId, "TaskStarted", []).(taskId := taskId);
    var accepted := Plain(requestId, "SessionStarted", []);
    TaskStartedIsSendable(requestId, taskId);
    PlainIsSendable(requestId, "SessionStarted", []);
    var calls := OpeningCalls(requestId, token, json, taskId);
    NothingReached(lib, requestId);
    var s1, s2, s3 := s.(phase := TaskStarting), s.(phase := TaskStarted, taskId := Some(taskId)),
                      s.(phase := SessionStarting, taskId := Some(taskId));
    var all := OpeningRequests(requestId, token, json);
    ReachesMore(lib, requestId, [], s, [], calls[0]);
    assert [] + [calls[0]] == calls[..1] && [] + [all[0]] == all[..1];
    HearsEnvelope(lib, s1, started);
    ReachesMore(lib, requestId, calls[..1], s1, all[..1], calls[1]);
    assert calls[..1] + [calls[1]] == calls[..2] && all[..1] + [] == all[..1];
    ReachesMore(lib, requestId, calls[..2], s2, all[..1], calls[2]);
    assert calls[..2] + [calls[2]] == calls[..3] && all[..1] + [all[1]] == all;
    HearsEnvelope(lib, s3, accepted);
    ReachesMore(lib, requestId, calls[..3], s3, all, calls[3]);
    assert calls[..3] + [calls[3]] == calls && all + [] == all;
  }

  lemma NothingReached(lib: Library, requestId: string)
    ensures Reaches(lib, requestId, [], Fresh(requestId), [])
  {
  }

  lemma TaskStartedIsSendable(requestId: string, taskId: string)
    requires NewSession(requestId).Ok? && |taskId| <= 100
    ensures P.Sendable(Plain(requestId, "TaskStarted", []).(taskId := taskId))
  {
    hide P.Sendable;
    Utf8.EncodeLength("TaskStarted");
    Utf8.EncodeLength("ASR");
    Utf8.EncodeLength(taskId);
    hide Utf8.Encode;
    Utf8.EncodeLength("");
    P.SmallIsSendable(Plain(requestId, "TaskStarted", []).(taskId := taskId));
  }

  /** What sending n frames makes of an open session. */
  function AfterAudio(s: Session, n: nat): Session {
    if n == 0 then s else s.(sent := n, acceptance := PossiblyAccepted)
  }

  lemma {:induction false} AudioReaches(lib: Library, requestId: string, before: seq<Call>, s: Session,
                                        requests: seq<P.Request>, base: nat, packets: seq<bytes>)
    requires Reaches(lib, requestId, before, s, requests)
    requires s.phase == Streaming && s.input == Open && s.sent == 0 && s.requestId == requestId
    requires forall p :: p in packets ==> 0 < |p| <= MAX_OPUS_PACKET_BYTES
    ensures Reaches(lib, requestId, before + AudioCalls(base, packets), AfterAudio(s, |packets|),
                    requests + AudioRequests(requestId, base, packets))
  {
    hide *;
    AudioCallsSplit(base, packets);
    AudioRequestsSplit(requestId, base, packets);
    if packets == [] {
      assert before + [] == before && requests + [] == requests;
      AfterNoAudio(s);
    } else {
      var n := |packets| - 1;
      var calls, sofar := AudioCalls(base, packets[..n]), AudioRequests(requestId, base, packets[..n]);
      AudioReaches(lib, requestId, before, s, requests, base, packets[..n]);
      AfterMoreAudio(s, n);
      FrameReaches(lib, requestId, before + calls, AfterAudio(s, n), requests + sofar, base, packets[n]);
      ConcatAssociates(before, calls, [Call.AudioRequest(Stamp(base, n), packets[n]), ConfirmAudioSent]);
      ConcatAssociates(requests, sofar, [P.Request("", P.TaskRequest, TimestampJson(Stamp(base, n)), packets[n],
                                                   requestId, Some(if n == 0 then P.First else P.Middle))]);
    }
  }

  lemma AudioCallsSplit(base: nat, packets: seq<bytes>)
    ensures packets == [] ==> AudioCalls(base, packets) == []
    ensures packets != [] ==>
              var n := |packets| - 1;
              AudioCalls(base, packets)
              == AudioCalls(base, packets[..n]) + [Call.AudioRequest(Stamp(base, n), packets[n]), ConfirmAudioSent]
  {
    hide Stamp;
  }

  lemma AudioRequestsSplit(requestId: string, base: nat, packets: seq<bytes>)
    ensures packets == [] ==> AudioRequests(requestId, base, packets) == []
    ensures packets != [] ==>
              var n := |packets| - 1;
              AudioRequests(requestId, base, packets)
              == AudioRequests(requestId, base, packets[..n])
                 + [P.Request("", P.TaskRequest, TimestampJson(Stamp(base, n)), packets[n], requestId,
                              Some(if n == 0 then P.First else P.Middle))]
  {
    hide Stamp;
    hide TimestampJson;
  }

  lemma AfterNoAudio(s: Session)
    ensures AfterAudio(s, 0) == s
  {
  }

  lemma AfterMoreAudio(s: Session, n: nat)
    requires s.sent == 0
    ensures AfterAudio(s, n).sent == n && AfterAudio(s, n).phase == s.phase && AfterAudio(s, n).input == s.input
            && AfterAudio(s, n).requestId == s.requestId
    ensures AfterAudio(s, n).(sent := n + 1, acceptance := PossiblyAccepted) == AfterAudio(s, n + 1)
  {
  }

  /** One frame, sent and confirmed. */
  lemma FrameReaches(lib: Library, requestId: string, calls: seq<Call>, s: Session, requests: seq<P.Request>, base: nat,
                     packet: bytes)
    requires Reaches(lib, requestId, calls, s, requests)
    requires s.phase == Streaming && s.input == Open && s.requestId == requestId
    requires 0 < |packet| <= MAX_OPUS_PACKET_BYTES
    ensures Reaches(lib, requestId, calls + [Call.AudioRequest(Stamp(base, s.sent), packet), ConfirmAudioSent],
                    s.(sent := s.sent + 1, acceptance := PossiblyAccepted),
                    requests + [P.Request("", P.TaskRequest, TimestampJson(Stamp(base, s.sent)), packet, requestId,
                                          Some(if s.sent == 0 then P.First else P.Middle))])
  {
    hide Reaches;
    hide TimestampJson;
    hide Stamp;
    hide ReceiveStep;
    var call := Call.AudioRequest(Stamp(base, s.sent), packet);
    var request := Step(lib, s, call).1.request;
    ReachesMore(lib, requestId, calls, s, requests, call);
    ReachesMore(lib, requestId, calls + [call], s.(input := AudioPending), requests + [request], ConfirmAudioSent);
    assert calls + [call] + [ConfirmAudioSent] == calls + [call, ConfirmAudioSent];
    assert requests + [request] + [] == requests + [request];
  }

  /** What the closing calls make of a session that sent its audio. */
  lemma ClosingReaches(lib: Library, requestId: string, before: seq<Call>, s: Session, requests: seq<P.Request>,
                       token: string, end: nat, result: bytes, r: Recognition)
    requires Reaches(lib, requestId, before, s, requests)
    requires s.phase == Streaming && s.input == Open && s.sent > 0 && s.requestId == requestId && s.lastPacket == None
    requires NewSession(requestId).Ok? && 0 < |result| <= 0x6_0000 && lib.parse(result) == Some(r)
    requires r.finalResult && r.text.Some? && !Utf8.Blank(r.text.value)
    ensures var calls := before + ClosingCalls(requestId, token, end, result);
            && Run(lib, Fresh(requestId), calls).0.phase == Finished
            && HandedOut(Run(lib, Fresh(requestId), calls).1) == requests + ClosingRequests(requestId, token, end)
            && Notified(FinishedEvent(Outcome(r.text.value, s.taskId, s.sent, r.packet, s.vadStarted || r.vadStarted,
                                              s.vadFinished || r.vadFinished)))
               in Run(lib, Fresh(requestId), calls).1
  {
    hide Reaches;
    hide TimestampJson;
    hide P.Sendable;
    hide P.EncodeResponse;
    hide ReceiveStep;
    hide Utf8.Blank;
    hide NewSession;
    hide Run;
    var heard, ended := Plain(requestId, "SessionResult", result), Plain(requestId, "SessionFinished", []);
    PlainIsSendable(requestId, "SessionResult", result);
    PlainIsSendable(requestId, "SessionFinished", []);
    var calls := ClosingCalls(requestId, token, end, result);
    var closing := ClosingRequests(requestId, token, end);
    var s1 := s.(input := InputFinished);
    var s2 := s1.(phase := Finishing);
    var s3 := Heard(s2, r).(finalTranscript := r.text);
    ReachesMore(lib, requestId, before, s, requests, calls[0]);
    assert before + [calls[0]] == before + calls[..1] && requests + [closing[0]] == requests + closing[..1];
    ReachesMore(lib, requestId, before + calls[..1], s1, requests + closing[..1], calls[1]);
    assert before + calls[..1] + [calls[1]] == before + calls[..2];
    assert requests + closing[..1] + [closing[1]] == requests + closing;
    var all := requests + closing;
    assert all + [] == all;
    HearsEnvelope(lib, s2, heard);
    ReachesMore(lib, requestId, before + calls[..2], s2, all, calls[2]);
    assert before + calls[..2] + [calls[2]] == before + calls[..3];
    ClosingEnds(lib, requestId, before + calls[..3], s3, all, ended);
    assert before + calls[..3] + [calls[3]] == before + calls;
  }

  lemma ClosingEnds(lib: Library, requestId: string, before: seq<Call>, s: Session, requests: seq<P.Request>,
                    e: P.Envelope)
    requires Reaches(lib, requestId, before, s, requests) && s.phase == Finishing && s.finalTranscript.Some?
    requires P.Sendable(e) && SaysFinished(e, s.requestId)
    ensures var (after, replies) := Run(lib, Fresh(requestId), before + [Receive(P.EncodeResponse(e))]);
            && after.phase == Finished && HandedOut(replies) == requests
            && Notified(FinishedEvent(Outcome(s.finalTranscript.value, s.taskId, s.sent, s.lastPacket, s.vadStarted,
                                              s.vadFinished))) in replies
  {
    hide P.Sendable;
    hide P.EncodeResponse;
    hide Step;
    hide SaysFinished;
    var call := Receive(P.EncodeResponse(e));
    FinishedIsHeard(lib, s, e);
    RunStep(lib, Fresh(requestId), before, call);
    HandedMore(Run(lib, Fresh(requestId), before).1, Step(lib, s, call).1);
    assert (Run(lib, Fresh(requestId), before).1 + [Step(lib, s, call).1])[|before|] == Step(lib, s, call).1;
  }

  /** A caller that opens a session, sends its packets, ends the audio and hears a final result and the end writes
      exactly the requests of the session, and is told the text, the task, the number of packets, the packet number and
      the voice marks. */
  lemma WholeSession(lib: Library, requestId: string, token: string, json: bytes, taskId: string, base: nat,
                     packets: seq<bytes>, result: bytes, r: Recognition)
    requires lib.isObject(json) && |json| <= MAX_SESSION_JSON_BYTES
    requires NewSession(requestId).Ok? && 0 < |taskId| <= 100
    requires packets != [] && forall p :: p in packets ==> 0 < |p| <= MAX_OPUS_PACKET_BYTES
    requires 0 < |result| <= 0x6_0000 && lib.parse(result) == Some(r)
    requires r.finalResult && r.text.Some? && !Utf8.Blank(r.text.value)
    ensures var calls := OpeningCalls(requestId, token, json, taskId) + AudioCalls(base, packets)
                         + ClosingCalls(requestId, token, Stamp(base, |packets|), result);
            var (s, replies) := Run(lib, Fresh(requestId), calls);
            && s.phase == Finished
            && HandedOut(replies) == SessionRequests(requestId, token, json, base, packets)
            && Notified(FinishedEvent(Outcome(r.text.value, Some(taskId), |packets|, r.packet, r.vadStarted,
                                              r.vadFinished))) in replies
  {
    hide Reaches;
    hide Run;
    hide OpeningCalls;
    hide AudioCalls;
    hide ClosingCalls;
    hide OpeningRequests;
    hide AudioRequests;
    hide ClosingRequests;
    hide NewSession;
    hide Utf8.Blank;
    OpeningReaches(lib, requestId, token, json, taskId);
    var s := Fresh(requestId).(phase := Streaming, taskId := Some(taskId));
    var opening := OpeningCalls(requestId, token, json, taskId);
    AudioReaches(lib, requestId, opening, s, OpeningRequests(requestId, token, json), base, packets);
    ClosingReaches(lib, requestId, opening + AudioCalls(base, packets), AfterAudio(s, |packets|),
                   OpeningRequests(requestId, token, json) + AudioRequests(requestId, base, packets),
                   token, Stamp(base, |packets|), result, r);
  }
}
