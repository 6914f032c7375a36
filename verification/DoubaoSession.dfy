/** The provider session lifecycle, independent of the socket.

    `Session` is the protocol's state as a value and `Step` what each call does
    to it; `DoubaoSessionProtocol` is the object the runner drives, each method
    proved to do exactly that step. The lemmas are about every sequence of
    calls and every sequence of provider bytes. */
module DoubaoSession {
  import opened Base
  import opened Providers
  import Utf8
  import Decimal
  import P = Protobuf

  const MAX_REQUEST_ID_BYTES := 128
  const MAX_SESSION_JSON_BYTES := 256 * 1024
  const MAX_OPUS_PACKET_BYTES := 1275
  const LAST_FRAME_MARKER_BYTES := 100

  datatype Phase =
    | Disconnected | TaskStarting | TaskStarted | SessionStarting | Streaming | Finishing | Finished | Failed
    | PhaseCancelled

  datatype Input = Open | AudioPending | InputFinished

  datatype Session = Session(requestId: string, phase: Phase, taskId: Option<string>, sent: nat, input: Input,
                             acceptance: AudioAcceptance, lastPacket: Option<nat>, finalTranscript: Option<string>,
                             vadStarted: bool, vadFinished: bool)

  datatype Recognition = Recognition(text: Option<string>, interim: bool, vadStarted: bool, vadFinished: bool,
                                     finalResult: bool, packet: Option<nat>)

  datatype Outcome = Outcome(transcript: string, taskId: Option<string>, sent: nat, lastPacket: Option<nat>,
                             vadStarted: bool, vadFinished: bool)

  datatype Event = TaskStartedEvent | SessionStartedEvent | Recognized(r: Recognition) | DuplicateIgnored
                 | FinishedEvent(outcome: Outcome)

  datatype SessionError = SessionError(category: ErrorCategory, code: ErrorCode, status: Option<nat>)

  /** The JSON library and lower-casing table, as parameters: how result JSON reads (None when malformed),
      which bytes are a JSON object, and which status texts mention credentials. */
  datatype Library = Library(parse: bytes -> Option<Recognition>, isObject: bytes -> bool, mentionsAuth: string -> bool)

  datatype Call =
    | StartTask(token: string)
    | StartSession(token: string, json: bytes)
    | AudioRequest(timestamp: nat, packet: bytes)
    | ConfirmAudioSent
    | MarkAudioWriteAmbiguous
    | FinishAudio(timestamp: nat)
    | FinishSession(token: string)
    | Receive(message: bytes)
    | Cancel

  /** A request handed to the caller, an acknowledgement, a provider event, nothing, or an error. */
  datatype Reply = Handed(request: P.Request) | Done | Notified(event: Event) | Quiet | Refused(error: SessionError)

  predicate IsAsciiControl(b: byte) {
    b < 32 || b == 127
  }

  function NewSession(requestId: string): Result<Session, SessionError> {
    var b := Utf8.Encode(requestId);
    if b == [] || |b| > MAX_REQUEST_ID_BYTES || exists i :: 0 <= i < |b| && IsAsciiControl(b[i]) then
      Err(SessionError(Protocol, InvalidRequestId, None))
    else
      Ok(Fresh(requestId))
  }

  function Fresh(requestId: string): Session {
    Session(requestId, Disconnected, None, 0, Open, NotAccepted, None, None, false, false)
  }

  // ----- one step

  function Broken(s: Session): Session {
    s.(phase := if s.phase == PhaseCancelled then PhaseCancelled else Failed)
  }

  function Fail(s: Session, code: ErrorCode): (Session, Reply) {
    (Broken(s), Refused(SessionError(Protocol, code, None)))
  }

  function TimestampJson(millis: nat): bytes {
    Utf8.Encode("{\"extra\":{},\"timestamp_ms\":") + Decimal.ToDecimal(millis) + Utf8.Encode("}")
  }

  /** The payload of the frame that ends the audio. */
  function LastFrameMarker(): (b: bytes)
    ensures |b| == 100 && forall i :: 0 <= i < |b| ==> b[i] == 0
  {
    seq(LAST_FRAME_MARKER_BYTES, i => 0)
  }

  function StartTaskStep(s: Session, token: string): (Session, Reply) {
    if s.phase != Disconnected then Fail(s, TaskAlreadyStarted)
    else (s.(phase := TaskStarting), Handed(P.Request(token, P.StartTask, [], [], s.requestId, None)))
  }

  function StartSessionStep(lib: Library, s: Session, token: string, json: bytes): (Session, Reply) {
    if s.phase != TaskStarted then Fail(s, TaskNotStarted)
    else if |json| > MAX_SESSION_JSON_BYTES || !lib.isObject(json) then Fail(s, InvalidSessionJson)
    else (s.(phase := SessionStarting), Handed(P.Request(token, P.StartSession, json, [], s.requestId, None)))
  }

  function AudioRequestStep(s: Session, timestamp: nat, packet: bytes): (Session, Reply) {
    if s.phase != Streaming then Fail(s, SessionNotStreaming)
    else if s.input == InputFinished then Fail(s, AudioAlreadyFinished)
    else if s.input == AudioPending then Fail(s, AudioRequestPending)
    else if packet == [] || |packet| > MAX_OPUS_PACKET_BYTES then Fail(s, InvalidOpusPacket)
    else
      var state := if s.sent == 0 then P.First else P.Middle;
      (s.(input := AudioPending),
       Handed(P.Request("", P.TaskRequest, TimestampJson(timestamp), packet, s.requestId, Some(state))))
  }

  function ConfirmStep(s: Session): (Session, Reply) {
    if s.phase != Streaming then Fail(s, SessionNotStreaming)
    else if s.input != AudioPending then Fail(s, NoPendingAudioRequest)
    else (s.(input := Open, sent := s.sent + 1, acceptance := PossiblyAccepted), Done)
  }

  function AmbiguousStep(s: Session): (Session, Reply) {
    if s.phase != Streaming then Fail(s, SessionNotStreaming)
    else if s.input != AudioPending then Fail(s, NoPendingAudioRequest)
    else (s.(acceptance := PossiblyAccepted), Done)
  }

  function FinishAudioStep(s: Session, timestamp: nat): (Session, Reply) {
    if s.phase != Streaming then Fail(s, SessionNotStreaming)
    else if s.input == InputFinished then Fail(s, AudioAlreadyFinished)
    else if s.input == AudioPending then Fail(s, AudioRequestPending)
    else if s.sent == 0 then Fail(s, NoAudioFrames)
    else
      (s.(input := InputFinished),
       Handed(P.Request("", P.TaskRequest, TimestampJson(timestamp), LastFrameMarker(), s.requestId, Some(P.Last))))
  }

  function FinishSessionStep(s: Session, token: string): (Session, Reply) {
    if s.phase != Streaming then Fail(s, SessionNotStreaming)
    else if s.input != InputFinished then Fail(s, AudioNotFinished)
    else (s.(phase := Finishing), Handed(P.Request(token, P.FinishSession, [], [], s.requestId, None)))
  }

  function CancelStep(s: Session): (Session, Reply) {
    (if s.phase == Finished || s.phase == Failed then s else s.(phase := PhaseCancelled), Quiet)
  }

  function Step(lib: Library, s: Session, call: Call): (Session, Reply) {
    match call
    case StartTask(token) => StartTaskStep(s, token)
    case StartSession(token, json) => StartSessionStep(lib, s, token, json)
    case AudioRequest(timestamp, packet) => AudioRequestStep(s, timestamp, packet)
    case ConfirmAudioSent => ConfirmStep(s)
    case MarkAudioWriteAmbiguous => AmbiguousStep(s)
    case FinishAudio(timestamp) => FinishAudioStep(s, timestamp)
    case FinishSession(token) => FinishSessionStep(s, token)
    case Receive(message) => ReceiveStep(lib, s, message)
    case Cancel => CancelStep(s)
  }

  predicate Listening(s: Session) {
    s.phase != Finished && s.phase != Failed && s.phase != PhaseCancelled && s.phase != Disconnected
  }

  predicate AuthLike(lib: Library, e: P.Envelope) {
    e.statusCode == 401 || e.statusCode == 403 || lib.mentionsAuth(e.statusMessage)
  }

  function ReceiveStep(lib: Library, s: Session, message: bytes): (Session, Reply) {
    if !Listening(s) then
      (s, Refused(SessionError(Protocol, SessionNotReceiving, None)))
    else
      match P.DecodeResponse(message)
      case None => Fail(s, InvalidResponseEnvelope)
      case Some(e) => EnvelopeStep(lib, s, e)
  }

  function EnvelopeStep(lib: Library, s: Session, e: P.Envelope): (Session, Reply) {
    var authFailed := (Broken(s), Refused(SessionError(Authentication, StartTaskAuthFailed, None)));
    if e.requestId != s.requestId then Fail(s, ResponseRequestMismatch)
    else if e.service != "" && e.service != "ASR" then Fail(s, ResponseServiceMismatch)
    else if e.statusCode != 0 then
      if s.phase == TaskStarting && AuthLike(lib, e) then authFailed
      else (Broken(s), Refused(SessionError(Protocol, StatusCode(s.phase), Some(e.statusCode))))
    else if e.messageType == "TaskFailed" && s.phase == TaskStarting && AuthLike(lib, e) then authFailed
    else if e.messageType == "TaskFailed" || e.messageType == "SessionFailed" then
      Fail(s, RemoteSessionFailed)
    else if e.messageType == "TaskStarted" then
      if s.phase != TaskStarting then Fail(s, UnexpectedTaskStarted)
      else (s.(phase := TaskStarted, taskId := if e.taskId == "" then s.taskId else Some(e.taskId)),
            Notified(TaskStartedEvent))
    else if e.messageType == "SessionStarted" then
      if s.phase != SessionStarting then Fail(s, UnexpectedSessionStarted)
      else (s.(phase := Streaming), Notified(SessionStartedEvent))
    else if e.messageType == "SessionFinished" then SessionFinishedStep(s)
    else ResultStep(lib, s, e)
  }

  function StatusCode(phase: Phase): ErrorCode {
    match phase
    case TaskStarting => StartTaskStatusFailed
    case SessionStarting => StartSessionStatusFailed
    case Streaming => StreamingStatusFailed
    case Finishing => FinishSessionStatusFailed
    case _ => RemoteStatusFailed
  }

  function SessionFinishedStep(s: Session): (Session, Reply) {
    if s.phase != Finishing then Fail(s, UnexpectedSessionFinished)
    else if s.finalTranscript.None? then Fail(s, MissingFinalTranscript)
    else
      (s.(phase := Finished),
       Notified(FinishedEvent(Outcome(s.finalTranscript.value, s.taskId, s.sent, s.lastPacket, s.vadStarted,
                                      s.vadFinished))))
  }

  predicate Stale(s: Session, r: Recognition) {
    r.packet.Some? && s.lastPacket.Some? && r.packet.value <= s.lastPacket.value
  }

  function ResultStep(lib: Library, s: Session, e: P.Envelope): (Session, Reply) {
    if e.resultJson == [] then (s, Quiet)
    else if s.phase != Streaming && s.phase != Finishing then Fail(s, ResultBeforeSessionStarted)
    else
      match lib.parse(e.resultJson)
      case None => Fail(s, InvalidResultJson)
      case Some(r) => RecognitionStep(s, r)
  }

  /** What any fresh recognition event leaves behind. */
  function Heard(s: Session, r: Recognition): Session {
    s.(lastPacket := if r.packet.Some? then r.packet else s.lastPacket,
       vadStarted := s.vadStarted || r.vadStarted,
       vadFinished := s.vadFinished || r.vadFinished,
       acceptance := if r.vadStarted || r.text.Some? || r.finalResult then Accepted else s.acceptance)
  }

  function RecognitionStep(s: Session, r: Recognition): (Session, Reply) {
    if Stale(s, r) then (s, Notified(DuplicateIgnored))
    else if !r.finalResult then (Heard(s, r), Notified(Recognized(r)))
    else if r.text.None? || Utf8.Blank(r.text.value) then Fail(Heard(s, r), EmptyFinalTranscript)
    else (Heard(s, r).(finalTranscript := r.text), Notified(Recognized(r)))
  }

  // ----- the protocol object

  class DoubaoSessionProtocol {
    const requestId: string
    const lib: Library
    var phase: Phase
    var taskId: Option<string>
    var sent: nat
    var input: Input
    var acceptance: AudioAcceptance
    var lastPacket: Option<nat>
    var finalTranscript: Option<string>
    var vadStarted: bool
    var vadFinished: bool

    ghost function View(): Session
      reads this
    {
      Session(requestId, phase, taskId, sent, input, acceptance, lastPacket, finalTranscript, vadStarted, vadFinished)
    }

    constructor (lib: Library, requestId: string)
      ensures View() == Fresh(requestId) && this.lib == lib && this.requestId == requestId
    {
      this.requestId, this.lib := requestId, lib;
      phase, taskId, sent, input := Disconnected, None, 0, Open;
      acceptance, lastPacket, finalTranscript := NotAccepted, None, None;
      vadStarted, vadFinished := false, false;
    }

    method FailWith(category: ErrorCategory, code: ErrorCode, status: Option<nat>) returns (error: SessionError)
      modifies this`phase
      ensures View() == Broken(old(View())) && error == SessionError(category, code, status)
    {
      if phase != PhaseCancelled {
        phase := Failed;
      }
      error := SessionError(category, code, status);
    }

    method RequirePhase(expected: Phase, code: ErrorCode) returns (error: Option<SessionError>)
      modifies this`phase
      ensures old(phase) == expected ==> error == None && View() == old(View())
      ensures old(phase) != expected ==> View() == Broken(old(View())) && error == Some(SessionError(Protocol, code, None))
    {
      if phase == expected {
        return None;
      }
      var e := FailWith(Protocol, code, None);
      return Some(e);
    }

    method RequireStreamingInput() returns (error: Option<SessionError>)
      modifies this`phase
      ensures error.None? ==> View() == old(View()) && phase == Streaming && input != InputFinished
      ensures error.Some? ==>
                View() == Broken(old(View())) && (old(phase) != Streaming || input == InputFinished)
                && error.value == SessionError(Protocol, if old(phase) != Streaming then SessionNotStreaming
                                                         else AudioAlreadyFinished, None)
    {
      error := RequirePhase(Streaming, SessionNotStreaming);
      if error.None? && input == InputFinished {
        var e := FailWith(Protocol, AudioAlreadyFinished, None);
        error := Some(e);
      }
    }

    method StartTask(token: string) returns (r: Result<bytes, SessionError>)
      modifies this
      ensures Answers(r, old(View()), Call.StartTask(token))
    {
      hide P.EncodeRequest;
      hide ReceiveStep;
      var error := RequirePhase(Disconnected, TaskAlreadyStarted);
      if error.Some? {
        return Err(error.value);
      }
      phase := TaskStarting;
      return Ok(P.EncodeRequest(P.Request(token, P.StartTask, [], [], requestId, None)));
    }

    /** The new state and the bytes or error returned are those of the step. */
    ghost predicate Answers(r: Result<bytes, SessionError>, before: Session, call: Call)
      reads this
    {
      var (after, reply) := Step(lib, before, call);
      View() == after
      && match r
         case Ok(b) => (reply.Handed? && b == P.EncodeRequest(reply.request)) || (reply.Done? && b == [])
         case Err(e) => reply == Refused(e)
    }

    method StartSession(token: string, json: bytes) returns (r: Result<bytes, SessionError>)
      modifies this
      ensures Answers(r, old(View()), Call.StartSession(token, json))
    {
      hide P.EncodeRequest;
      hide ReceiveStep;
      var error := RequirePhase(TaskStarted, TaskNotStarted);
      if error.Some? {
        return Err(error.value);
      }
      if |json| > MAX_SESSION_JSON_BYTES || !lib.isObject(json) {
        var e := FailWith(Protocol, InvalidSessionJson, None);
        return Err(e);
      }
      phase := SessionStarting;
      return Ok(P.EncodeRequest(P.Request(token, P.StartSession, json, [], requestId, None)));
    }

    method AudioRequest(timestamp: nat, packet: bytes) returns (r: Result<bytes, SessionError>)
      modifies this
      ensures Answers(r, old(View()), Call.AudioRequest(timestamp, packet))
    {
      hide P.EncodeRequest;
      hide ReceiveStep;
      hide TimestampJson;
      var error := RequireStreamingInput();
      if error.Some? {
        return Err(error.value);
      }
      if input == AudioPending {
        var e := FailWith(Protocol, AudioRequestPending, None);
        return Err(e);
      }
      if packet == [] || |packet| > MAX_OPUS_PACKET_BYTES {
        var e := FailWith(Protocol, InvalidOpusPacket, None);
        return Err(e);
      }
      var state := if sent == 0 then P.First else P.Middle;
      var request := P.EncodeRequest(
        P.Request("", P.TaskRequest, TimestampJson(timestamp), packet, requestId, Some(state)));
      input := AudioPending;
      return Ok(request);
    }

    method ConfirmAudioSent() returns (r: Result<bytes, SessionError>)
      modifies this
      ensures Answers(r, old(View()), Call.ConfirmAudioSent)
    {
      var error := RequirePhase(Streaming, SessionNotStreaming);
      if error.Some? {
        return Err(error.value);
      }
      if input != AudioPending {
        var e := FailWith(Protocol, NoPendingAudioRequest, None);
        return Err(e);
      }
      input := Open;
      sent := sent + 1;
      acceptance := PossiblyAccepted;
      return Ok([]);
    }

    method MarkAudioWriteAmbiguous() returns (r: Result<bytes, SessionError>)
      modifies this
      ensures Answers(r, old(View()), Call.MarkAudioWriteAmbiguous)
    {
      var error := RequirePhase(Streaming, SessionNotStreaming);
      if error.Some? {
        return Err(error.value);
      }
      if input != AudioPending {
        var e := FailWith(Protocol, NoPendingAudioRequest, None);
        return Err(e);
      }
      acceptance := PossiblyAccepted;
      return Ok([]);
    }

    method FinishAudio(timestamp: nat) returns (r: Result<bytes, SessionError>)
      modifies this
      ensures Answers(r, old(View()), Call.FinishAudio(timestamp))
    {
      hide P.EncodeRequest;
      hide ReceiveStep;
      hide TimestampJson;
      var error := RequireStreamingInput();
      if error.Some? {
        return Err(error.value);
      }
      if input == AudioPending {
        var e := FailWith(Protocol, AudioRequestPending, None);
        return Err(e);
      }
      if sent == 0 {
        var e := FailWith(Protocol, NoAudioFrames, None);
        return Err(e);
      }
      var request := P.EncodeRequest(P.Request("", P.TaskRequest, TimestampJson(timestamp),
                                               LastFrameMarker(), requestId, Some(P.Last)));
      input := InputFinished;
      return Ok(request);
    }

    method FinishSession(token: string) returns (r: Result<bytes, SessionError>)
      modifies this
      ensures Answers(r, old(View()), Call.FinishSession(token))
    {
      hide P.EncodeRequest;
      hide ReceiveStep;
      var error := RequirePhase(Streaming, SessionNotStreaming);
      if error.Some? {
        return Err(error.value);
      }
      if input != InputFinished {
        var e := FailWith(Protocol, AudioNotFinished, None);
        return Err(e);
      }
      phase := Finishing;
      return Ok(P.EncodeRequest(P.Request(token, P.FinishSession, [], [], requestId, None)));
    }

    method CancelSession()
      modifies this`phase
      ensures View() == Step(lib, old(View()), Cancel).0
    {
      if phase != Finished && phase != Failed {
        phase := PhaseCancelled;
      }
    }

    method HandleBinary(message: bytes) returns (r: Result<Option<Event>, SessionError>)
      modifies this
      ensures Hears(r, ReceiveStep(lib, old(View()), message))
    {
      if phase == Finished || phase == Failed || phase == PhaseCancelled || phase == Disconnected {
        return Err(SessionError(Protocol, SessionNotReceiving, None));
      }
      var response := P.DecodeResponseBytes(message);
      match response
      case None =>
        var e := FailWith(Protocol, InvalidResponseEnvelope, None);
        return Err(e);
      case Some(envelope) =>
        r := HandleEnvelope(envelope);
    }

    ghost predicate Hears(r: Result<Option<Event>, SessionError>, step: (Session, Reply))
      reads this
    {
      View() == step.0
      && match r
         case Ok(Some(event)) => step.1 == Notified(event)
         case Ok(None) => step.1 == Quiet
         case Err(e) => step.1 == Refused(e)
    }

    method HandleEnvelope(envelope: P.Envelope) returns (r: Result<Option<Event>, SessionError>)
      modifies this
      ensures Hears(r, EnvelopeStep(lib, old(View()), envelope))
    {
      if envelope.requestId != requestId {
        var e := FailWith(Protocol, ResponseRequestMismatch, None);
        return Err(e);
      }
      if envelope.service != "" && envelope.service != "ASR" {
        var e := FailWith(Protocol, ResponseServiceMismatch, None);
        return Err(e);
      }
      if envelope.statusCode != 0 {
        if phase == TaskStarting && AuthLike(lib, envelope) {
          var e := FailWith(Authentication, StartTaskAuthFailed, None);
          return Err(e);
        }
        var e := FailWith(Protocol, StatusCode(phase), Some(envelope.statusCode));
        return Err(e);
      }
      match envelope.messageType {
        case "TaskFailed" =>
          if phase == TaskStarting && AuthLike(lib, envelope) {
            var e := FailWith(Authentication, StartTaskAuthFailed, None);
            return Err(e);
          }
          var e := FailWith(Protocol, RemoteSessionFailed, None);
          return Err(e);
        case "SessionFailed" =>
          var e := FailWith(Protocol, RemoteSessionFailed, None);
          return Err(e);
        case "TaskStarted" =>
          var error := RequirePhase(TaskStarting, UnexpectedTaskStarted);
          if error.Some? {
            return Err(error.value);
          }
          if envelope.taskId != "" {
            taskId := Some(envelope.taskId);
          }
          phase := TaskStarted;
          return Ok(Some(TaskStartedEvent));
        case "SessionStarted" =>
          var error := RequirePhase(SessionStarting, UnexpectedSessionStarted);
          if error.Some? {
            return Err(error.value);
          }
          phase := Streaming;
          return Ok(Some(SessionStartedEvent));
        case "SessionFinished" =>
          r := HandleSessionFinished();
        case _ =>
          r := HandleResult(envelope);
      }
    }

    method HandleResult(envelope: P.Envelope) returns (r: Result<Option<Event>, SessionError>)
      modifies this
      ensures Hears(r, ResultStep(lib, old(View()), envelope))
    {
      hide Utf8.Blank;
      if envelope.resultJson == [] {
        return Ok(None);
      }
      if phase != Streaming && phase != Finishing {
        var e := FailWith(Protocol, ResultBeforeSessionStarted, None);
        return Err(e);
      }
      match lib.parse(envelope.resultJson)
      case None =>
        var e := FailWith(Protocol, InvalidResultJson, None);
        return Err(e);
      case Some(event) =>
        r := HandleRecognition(event);
    }

    /** Notes the packet number, the voice marks and the acceptance. */
    method Note(event: Recognition)
      modifies this`lastPacket, this`vadStarted, this`vadFinished, this`acceptance
      ensures View() == Heard(old(View()), event)
    {
      if event.packet.Some? {
        lastPacket := event.packet;
      }
      vadStarted := vadStarted || event.vadStarted;
      vadFinished := vadFinished || event.vadFinished;
      if event.vadStarted || event.text.Some? || event.finalResult {
        acceptance := Accepted;
      }
    }

    method HandleRecognition(event: Recognition) returns (r: Result<Option<Event>, SessionError>)
      modifies this
      ensures Hears(r, RecognitionStep(old(View()), event))
    {
      hide Utf8.Blank;
      hide Heard;
      if event.packet.Some? && lastPacket.Some? && event.packet.value <= lastPacket.value {
        return Ok(Some(DuplicateIgnored));
      }
      Note(event);
      if event.finalResult {
        if event.text.None? || Utf8.Blank(event.text.value) {
          var e := FailWith(Protocol, EmptyFinalTranscript, None);
          return Err(e);
        }
        finalTranscript := event.text;
      }
      return Ok(Some(Recognized(event)));
    }

    method HandleSessionFinished() returns (r: Result<Option<Event>, SessionError>)
      modifies this
      ensures Hears(r, SessionFinishedStep(old(View())))
    {
      var error := RequirePhase(Finishing, UnexpectedSessionFinished);
      if error.Some? {
        return Err(error.value);
      }
      if finalTranscript.None? {
        var e := FailWith(Protocol, MissingFinalTranscript, None);
        return Err(e);
      }
      phase := Finished;
      return Ok(Some(FinishedEvent(Outcome(finalTranscript.value, taskId, sent, lastPacket, vadStarted, vadFinished))));
    }
  }
}
