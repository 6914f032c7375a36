/** One recognition attempt end to end: PCM frames, the socket and the session
    protocol, driven by polling loops, and the in-protocol token refresh.

    The socket, the clock, the encoder and cancellation answer
    nondeterministically and keep ghost records of what happened to them, so
    that the driver's results can be tied to them. Time is a nondecreasing
    sequence of readings that eventually passes the total deadline, which is
    why the loops end. */
module DoubaoRunner {
  import opened Base
  import opened Providers
  import opened DoubaoSession
  import opened DoubaoSessionLaws
  import opened DoubaoOutcome
  import opened PcmFraming
  import Utf8
  import P = Protobuf

  const MAX_PCM_BYTES := 16_000 * 2 * 3_600
  const MAX_INBOUND_PER_TICK := 8

  // ----- the surroundings of a session

  datatype QueueResult = Queued | Full | QueueFailed(error: VoxError)
  datatype FlushResult = Flushed | Pending | FlushClosed | FlushFailed(error: VoxError)
  datatype PollResult = Idle | PollClosed | Binary(message: bytes) | Control | PollFailed(error: VoxError)

  /** One connection. `queued` lists the payloads its write buffer took and `written` those known to have left it;
      `received` lists the messages it delivered, `failures` the errors it reported. `audioEntered` records whether an
      audio payload may have entered the buffer: a queued one has, a refused one has not, and a failed write is counted
      as if it had. */
  class BinaryWebSocket {
    ghost var audioEntered: bool
    ghost var queued: seq<bytes>
    ghost var written: seq<bytes>
    ghost var received: seq<bytes>
    ghost var failures: seq<VoxError>
    ghost var closed: bool

    constructor ()
      ensures !audioEntered && queued == [] && written == [] && received == [] && failures == [] && !closed
    {
      audioEntered, closed := false, false;
      queued, written, received, failures := [], [], [], [];
    }

    /** Behind `before` the buffer took a beginning of the payloads; when all is done it took and wrote them all. */
    ghost predicate Took(before: seq<bytes>, payloads: seq<bytes>, done: bool)
      reads this`queued, this`written
    {
      queued <= before + payloads && (done ==> queued == before + payloads == written)
    }

    /** Several batches of payloads are one. */
    lemma TookMore(before: seq<bytes>, payloads: seq<bytes>, done: bool, all: seq<bytes>)
      requires Took(before, payloads, done) && before + payloads <= all
      ensures Took([], all, done && before + payloads == all)
      ensures done ==> queued == before + payloads == written
    {
      assert [] + all == all;
    }

    method QueueBinary(payload: bytes, ghost audio: bool) returns (r: QueueResult)
      modifies this`audioEntered, this`queued, this`failures
      ensures audioEntered == (old(audioEntered) || (audio && !r.Full?))
      ensures queued == if r.Queued? then old(queued) + [payload] else old(queued)
      ensures failures == if r.QueueFailed? then old(failures) + [r.error] else old(failures)
    {
      r := *;
      audioEntered := audioEntered || (audio && !r.Full?);
      queued := if r.Queued? then queued + [payload] else queued;
      failures := if r.QueueFailed? then failures + [r.error] else failures;
    }

    method Flush() returns (r: FlushResult)
      modifies this`written, this`failures, this`closed
      ensures written == if r.Flushed? then queued else old(written)
      ensures failures == if r.FlushFailed? then old(failures) + [r.error] else old(failures)
      ensures closed == (old(closed) || r.FlushClosed?)
    {
      r := *;
      written := if r.Flushed? then queued else written;
      failures := if r.FlushFailed? then failures + [r.error] else failures;
      closed := closed || r.FlushClosed?;
    }

    method Poll() returns (r: PollResult)
      modifies this`received, this`failures, this`closed
      ensures received == if r.Binary? then old(received) + [r.message] else old(received)
      ensures failures == if r.PollFailed? then old(failures) + [r.error] else old(failures)
      ensures closed == (old(closed) || r.PollClosed?)
    {
      r := *;
      received := if r.Binary? then received + [r.message] else received;
      failures := if r.PollFailed? then failures + [r.error] else failures;
      closed := closed || r.PollClosed?;
    }
  }

  /** A monotone clock that passes `horizon` after finitely many readings, and what the system's wall clock says in
      milliseconds since the epoch: None before the epoch. */
  class Clock {
    const horizon: nat
    const wall: Option<nat>
    var now: nat
    var readings: nat

    constructor (horizon: nat, readings: nat, wall: Option<nat>)
      ensures this.horizon == horizon && this.wall == wall
    {
      this.horizon, this.wall := horizon, wall;
      this.readings := readings;
      now := 0;
    }

    method Now() returns (t: nat)
      modifies this
      ensures t == now >= old(now)
      ensures readings <= old(readings) && (readings == old(readings) ==> now >= horizon)
    {
      if readings == 0 {
        now := Max(now, horizon);
      } else {
        readings := readings - 1;
        var next: nat := *;
        now := Max(now, next);
      }
      t := now;
    }

    /** The wall clock as a 64-bit number. */
    method UnixMillis() returns (r: Result<nat, VoxError>)
      ensures r.Ok? <==> wall.Some? && wall.value <= U64_MAX
      ensures r.Ok? ==> Some(r.value) == wall
      ensures r.Err? ==> r.error == VoxError(Internal, if wall.None? then SystemClockInvalid else SystemClockOverflow,
                                             false)
    {
      if wall.None? {
        return Err(VoxError(Internal, SystemClockInvalid, false));
      }
      if wall.value > U64_MAX {
        return Err(VoxError(Internal, SystemClockOverflow, false));
      }
      return Ok(wall.value);
    }
  }

  /** Once cancelled, always cancelled. */
  class CancellationToken {
    var cancelled: bool

    constructor () {
      cancelled := *;
    }

    method IsCancelled() returns (r: bool)
      modifies this
      ensures r == cancelled && (old(cancelled) ==> cancelled)
    {
      var now := *;
      cancelled := cancelled || now;
      r := cancelled;
    }
  }

  /** The Opus encoder: a packet, or a failure. `encoded` lists the frames it turned into packets and `packets` what
      it made of them. */
  class OpusEncoder {
    ghost var encoded: seq<bytes>
    ghost var packets: seq<bytes>
    ghost var failed: bool

    constructor ()
      ensures encoded == [] && packets == [] && !failed
    {
      encoded, packets, failed := [], [], false;
    }

    method EncodeFrame(frame: bytes) returns (packet: Option<bytes>)
      modifies this
      ensures encoded == if packet.Some? then old(encoded) + [frame] else old(encoded)
      ensures packets == if packet.Some? then old(packets) + [packet.value] else old(packets)
      ensures failed == (old(failed) || packet.None?)
    {
      packet := *;
      if packet.Some? {
        encoded, packets := encoded + [frame], packets + [packet.value];
      }
      failed := failed || packet.None?;
    }
  }

  datatype Transcription = Transcription(text: string, sentAudioMillis: nat, partialResults: nat, vadStarted: bool,
                                         vadFinished: bool)

  datatype RunConfig = RunConfig(requestId: string, sessionJson: bytes, phaseTimeout: nat, totalTimeout: nat,
                                 frameInterval: nat)

  function ProtocolError(e: SessionError): VoxError {
    VoxError(e.category, e.code, false)
  }

  const CONNECTION_CLOSED := VoxError(Connection, WebsocketClosedEarly, true)
  const SESSION_CANCELLED := VoxError(ErrorCategory.Cancelled, SessionCancelled, false)
  const TOTAL_TIMEOUT := VoxError(Timeout, TotalTimeout, true)
  const PHASE_TIMEOUT := VoxError(Timeout, PhaseTimeout, true)
  const ENCODE_FAILED := VoxError(Internal, OpusEncodeFailed, false)

  // ----- why a session may fail

  /** What happened to a session from outside: cancellation, the time since its beginning and when its current phase
      began, the end of the connection, and the errors this reported. */
  datatype Incidents = Incidents(cancelled: bool, now: nat, phaseStart: nat, closed: bool, failures: seq<VoxError>)

  /** The session refused what the provider sent, or a packet of impossible size. */
  predicate Objects(call: Call, reply: Reply, e: VoxError) {
    && reply.Refused? && e == VoxError(reply.error.category, reply.error.code, false)
    && (call.Receive? || (call.AudioRequest? && !(1 <= |call.packet| <= 1275)))
  }

  predicate Objected(calls: seq<Call>, replies: seq<Reply>, e: VoxError) {
    exists i :: 0 <= i < |calls| && i < |replies| && Objects(calls[i], replies[i], e)
  }

  /** The error is the session's own objection or that of an incident. */
  predicate Caused(incidents: Incidents, phaseTimeout: nat, totalTimeout: nat, calls: seq<Call>, replies: seq<Reply>,
                   e: VoxError)
  {
    || (e == VoxError(ErrorCategory.Cancelled, SessionCancelled, false) && incidents.cancelled)
    || (e == VoxError(Timeout, TotalTimeout, true) && totalTimeout <= incidents.now)
    || (e == VoxError(Timeout, PhaseTimeout, true) && incidents.phaseStart + phaseTimeout <= incidents.now)
    || (e == VoxError(Connection, WebsocketClosedEarly, true) && incidents.closed)
    || e in incidents.failures
    || Objected(calls, replies, e)
  }

  /** The messages of a sequence of calls. */
  function Messages(calls: seq<Call>): seq<bytes> {
    if calls == [] then []
    else
      var last := calls[|calls| - 1];
      Messages(calls[..|calls| - 1]) + if last.Receive? then [last.message] else []
  }

  lemma MessagesMore(calls: seq<Call>, call: Call)
    ensures Messages(calls + [call]) == Messages(calls) + if call.Receive? then [call.message] else []
  {
    assert (calls + [call])[..|calls|] == calls;
  }

  lemma LastObjects(calls: seq<Call>, replies: seq<Reply>, e: VoxError)
    requires |replies| == |calls| > 0 && Objects(calls[|calls| - 1], replies[|calls| - 1], e)
    ensures Objected(calls, replies, e)
  {
  }

  /** When the frame behind `frames` frames may be sent. */
  function Slot(startedAt: nat, interval: nat, frames: nat): nat {
    startedAt + interval * frames
  }

  /** With `frames` frames sent, none of them was sent before its time. */
  predicate Paced(startedAt: nat, interval: nat, frames: nat, now: nat) {
    frames > 0 ==> startedAt + interval * (frames - 1) <= now
  }

  lemma PacedMore(startedAt: nat, interval: nat, frames: nat, now: nat)
    requires Slot(startedAt, interval, frames) <= now
    ensures Paced(startedAt, interval, frames + 1, now)
  {
  }

  lemma PacedFromStart(startedAt: nat, interval: nat, frames: nat, now: nat, later: nat)
    requires Paced(startedAt, interval, frames, now) && now <= later
    ensures Paced(0, interval, frames, later)
  {
  }

  // ----- what is written

  function Encoded(requests: seq<P.Request>): (payloads: seq<bytes>)
    ensures |payloads| == |requests|
  {
    seq(|requests|, i requires 0 <= i < |requests| => P.EncodeRequest(requests[i]))
  }

  lemma EncodedConcat(a: seq<P.Request>, b: seq<P.Request>)
    ensures Encoded(a + b) == Encoded(a) + Encoded(b)
  {
    hide P.EncodeRequest;
  }

  function AudioPayloads(requestId: string, base: nat, packets: seq<bytes>): seq<bytes> {
    Encoded(AudioRequests(requestId, base, packets))
  }

  lemma AudioPayloadsMore(requestId: string, base: nat, packets: seq<bytes>, packet: bytes)
    ensures AudioPayloads(requestId, base, packets + [packet])
         == AudioPayloads(requestId, base, packets)
            + [P.EncodeRequest(P.Request("", P.TaskRequest, TimestampJson(Stamp(base, |packets|)), packet, requestId,
                                         Some(if packets == [] then P.First else P.Middle)))]
  {
    hide P.EncodeRequest;
    hide TimestampJson;
    hide Stamp;
  }

  function SessionPayloads(requestId: string, token: string, json: bytes, base: nat, packets: seq<bytes>): seq<bytes> {
    Encoded(SessionRequests(requestId, token, json, base, packets))
  }

  lemma SessionPayloadsSplit(requestId: string, token: string, json: bytes, base: nat, packets: seq<bytes>)
    ensures SessionPayloads(requestId, token, json, base, packets)
         == Encoded(OpeningRequests(requestId, token, json)) + AudioPayloads(requestId, base, packets)
            + Encoded(ClosingRequests(requestId, token, Stamp(base, |packets|)))
    ensures Encoded(OpeningRequests(requestId, token, json)) + AudioPayloads(requestId, base, packets)
         <= SessionPayloads(requestId, token, json, base, packets)
  {
    var opening, audio := OpeningRequests(requestId, token, json), AudioRequests(requestId, base, packets);
    EncodedConcat(opening, audio);
    EncodedConcat(opening + audio, ClosingRequests(requestId, token, Stamp(base, |packets|)));
    hide Encoded;
    hide AudioRequests;
    hide OpeningRequests;
    hide ClosingRequests;
  }

  /** What pumping inbound messages may do to a session: no frame is sent or started, evidence is not
      taken back, and a streaming session that did not fail is still streaming. */
  predicate Quietly(before: Session, after: Session) {
    && after.sent == before.sent && after.input == before.input && after.requestId == before.requestId
    && (before.phase == Streaming ==> after.phase == Streaming)
    && (before.acceptance != NotAccepted ==> after.acceptance != NotAccepted)
  }

  /** The result is what the provider reported: its last final text, the number of interim results and the voice marks. */
  predicate Tells(replies: seq<Reply>, t: Transcription) {
    && FinalText(replies) == Some(t.text) && !Utf8.Blank(t.text)
    && t.partialResults == Min(Interims(replies), U64_MAX)
    && t.vadStarted == VoiceStarted(replies) && t.vadFinished == VoiceFinished(replies)
  }

  lemma FinalTextIsNotBlank(replies: seq<Reply>)
    ensures FinalText(replies).Some? ==> !Utf8.Blank(FinalText(replies).value)
  {
    hide Utf8.Blank;
  }

  lemma OpeningPayloads(requestId: string, token: string, json: bytes)
    ensures Encoded(OpeningRequests(requestId, token, json))
         == [P.EncodeRequest(P.Request(token, P.StartTask, [], [], requestId, None)),
             P.EncodeRequest(P.Request(token, P.StartSession, json, [], requestId, None))]
  {
    hide P.EncodeRequest;
  }

  lemma ClosingPayloads(requestId: string, token: string, end: nat)
    ensures Encoded(ClosingRequests(requestId, token, end))
         == [P.EncodeRequest(P.Request("", P.TaskRequest, TimestampJson(end), LastFrameMarker(), requestId, Some(P.Last))),
             P.EncodeRequest(P.Request(token, P.FinishSession, [], [], requestId, None))]
  {
    hide P.EncodeRequest;
    hide TimestampJson;
    hide LastFrameMarker;
  }

  lemma NoAudioYet(requestId: string, base: nat, before: seq<bytes>)
    ensures before + AudioPayloads(requestId, base, []) == before
  {
    hide P.EncodeRequest;
  }

  /** The session's payloads begin with those that open it. */
  lemma PayloadsBegin(requestId: string, token: string, json: bytes, base: nat)
    ensures [] + Encoded(OpeningRequests(requestId, token, json)) <= SessionPayloads(requestId, token, json, base, [])
  {
    hide *;
    SessionPayloadsSplit(requestId, token, json, base, []);
    var opening, audio := Encoded(OpeningRequests(requestId, token, json)), AudioPayloads(requestId, base, []);
    assert [] + opening == opening && opening <= opening + audio;
  }

  lemma ReceivedQuietly(lib: Library, s: Session, message: bytes)
    ensures var (after, reply) := ReceiveStep(lib, s, message);
            && (!reply.Refused? ==> Quietly(s, after))
            && (s.acceptance != NotAccepted ==> after.acceptance != NotAccepted)
            && (after.phase == Finished ==> s.phase == Finished || (reply.Notified? && reply.event.FinishedEvent?))
  {
    hide ReceiveStep;
    hide KeepsProgress;
    ReceiveIsLawful(lib, s, message);
  }

  // ----- the driver

  class SessionDriver {
    const socket: BinaryWebSocket
    const protocol: DoubaoSessionProtocol
    const cancellation: CancellationToken
    const clock: Clock
    const phaseTimeout: nat
    var partialResults: nat
    var outcome: Option<Outcome>
    /** The calls made of the session so far, its replies, and when the current phase began. */
    ghost var calls: seq<Call>
    ghost var replies: seq<Reply>
    ghost var phaseStart: nat

    /** The session is where the calls have brought it, every message was passed to it in order, and the interim
        results were counted. Audio has entered the connection's buffer only if the evidence says it may have; the
        outcome of a finished session is kept. */
    ghost predicate Valid()
      reads this`calls, this`replies, this`partialResults, this`outcome, protocol
      reads socket`received, socket`audioEntered
    {
      Steady() && Messages(calls) == socket.received && (socket.audioEntered ==> protocol.acceptance != NotAccepted)
    }

    ghost predicate Steady()
      reads this`calls, this`replies, this`partialResults, this`outcome, protocol
    {
      && Runs() && Inv(protocol.View())
      && partialResults == Min(Interims(replies), U64_MAX)
      && (outcome.Some? ==> Notified(FinishedEvent(outcome.value)) in replies)
      && (protocol.phase == Finished ==> outcome.Some?)
    }

    ghost predicate Runs()
      reads this`calls, this`replies, protocol
      ensures Runs() ==> |calls| == |replies|
    {
      DoubaoSessionLaws.Run(protocol.lib, Fresh(protocol.requestId), calls) == (protocol.View(), replies)
    }

    ghost function Seen(): Incidents
      reads this, socket, clock, cancellation
    {
      Incidents(cancellation.cancelled, clock.now, phaseStart, socket.closed, socket.failures)
    }

    /** The error has its cause. */
    ghost predicate Excused(e: VoxError)
      reads this, socket, clock, cancellation
    {
      Caused(Seen(), phaseTimeout, clock.horizon, calls, replies, e)
    }

    constructor (socket: BinaryWebSocket, protocol: DoubaoSessionProtocol, cancellation: CancellationToken,
                 clock: Clock, phaseTimeout: nat)
      requires protocol.View() == Fresh(protocol.requestId) && !socket.audioEntered && socket.received == []
      ensures Valid() && outcome == None
      ensures this.socket == socket && this.protocol == protocol && this.clock == clock
      ensures this.cancellation == cancellation && this.phaseTimeout == phaseTimeout
    {
      this.socket, this.protocol, this.clock, this.phaseTimeout := socket, protocol, clock, phaseTimeout;
      this.cancellation := cancellation;
      partialResults, outcome := 0, None;
      calls, replies, phaseStart := [], [], 0;
    }

    /** Notes the call about to be made. */
    ghost method Record(call: Call)
      requires Runs()
      modifies this`calls, this`replies
      ensures calls == old(calls) + [call] && replies == old(replies) + [Step(protocol.lib, protocol.View(), call).1]
      ensures DoubaoSessionLaws.Run(protocol.lib, Fresh(protocol.requestId), calls)
           == (Step(protocol.lib, protocol.View(), call).0, replies)
      ensures Inv(Step(protocol.lib, protocol.View(), call).0)
      ensures Messages(calls) == Messages(old(calls)) + if call.Receive? then [call.message] else []
      ensures var reply := Step(protocol.lib, protocol.View(), call).1;
              Interims(replies) == Interims(old(replies)) + if Reports(reply) && reply.event.r.interim then 1 else 0
      ensures !call.Receive? ==> Interims(replies) == Interims(old(replies))
    {
      hide Step;
      hide Inv;
      hide DoubaoSessionLaws.Run;
      var reply := Step(protocol.lib, protocol.View(), call).1;
      RunStep(protocol.lib, Fresh(protocol.requestId), calls, call);
      MessagesMore(calls, call);
      RepliesGrow(replies, reply);
      StepIsOrderly(protocol.lib, protocol.View(), call);
      calls, replies := calls + [call], replies + [reply];
      RunKeepsInv(protocol.lib, Fresh(protocol.requestId), calls);
    }

    /** A message was handed to the session and was objected to. */
    lemma ObjectionIsExcused(call: Call, error: SessionError)
      requires |calls| == |replies| > 0
      requires calls[|calls| - 1] == call && replies[|replies| - 1] == Refused(error)
      requires call.Receive? || (call.AudioRequest? && !(1 <= |call.packet| <= 1275))
      ensures Excused(ProtocolError(error))
    {
      LastObjects(calls, replies, ProtocolError(error));
    }

    // ----- the session's calls, each noted as it is made

    method MarkAmbiguous()
      requires Steady() && Messages(calls) == socket.received && protocol.phase == Streaming && protocol.input == AudioPending
      modifies this`calls, this`replies, protocol
      ensures Valid() && protocol.View() == old(protocol.View()).(acceptance := PossiblyAccepted)
    {
      hide ReceiveStep;
      hide DoubaoSessionLaws.Run;
      hide Interims;
      hide Messages;
      hide Inv;
      Record(MarkAudioWriteAmbiguous);
      var marked := protocol.MarkAudioWriteAmbiguous();
      assert marked.Ok?;
    }

    method Confirm()
      requires Steady() && Messages(calls) == socket.received && protocol.phase == Streaming && protocol.input == AudioPending
      modifies this`calls, this`replies, protocol
      ensures Valid() && protocol.phase == Streaming && protocol.input == Open && protocol.sent == old(protocol.sent) + 1
    {
      hide ReceiveStep;
      hide DoubaoSessionLaws.Run;
      hide Interims;
      hide Messages;
      hide Inv;
      Record(ConfirmAudioSent);
      var confirmed := protocol.ConfirmAudioSent();
      assert confirmed.Ok?;
    }

    method BeginTask(token: string) returns (payload: bytes)
      requires Valid() && protocol.phase == Disconnected
      modifies this`calls, this`replies, protocol
      ensures Valid() && protocol.View() == old(protocol.View()).(phase := TaskStarting)
      ensures payload == P.EncodeRequest(P.Request(token, P.StartTask, [], [], protocol.requestId, None))
    {
      hide ReceiveStep;
      hide TimestampJson;
      hide P.EncodeRequest;
      hide Utf8.Blank;
      hide DoubaoSessionLaws.Run;
      hide Interims;
      hide Messages;
      hide Inv;
      Record(Call.StartTask(token));
      var task := protocol.StartTask(token);
      assert task.Ok?;
      payload := task.value;
    }

    method BeginSession(token: string, json: bytes) returns (payload: bytes)
      requires Valid() && protocol.phase == TaskStarted && |json| <= MAX_SESSION_JSON_BYTES && protocol.lib.isObject(json)
      modifies this`calls, this`replies, protocol
      ensures Valid() && protocol.View() == old(protocol.View()).(phase := SessionStarting)
      ensures payload == P.EncodeRequest(P.Request(token, P.StartSession, json, [], protocol.requestId, None))
    {
      hide ReceiveStep;
      hide TimestampJson;
      hide P.EncodeRequest;
      hide Utf8.Blank;
      hide DoubaoSessionLaws.Run;
      hide Interims;
      hide Messages;
      hide Inv;
      Record(Call.StartSession(token, json));
      var session := protocol.StartSession(token, json);
      assert session.Ok?;
      payload := session.value;
    }

    method BeginFrame(timestamp: nat, packet: bytes) returns (r: Result<bytes, VoxError>)
      requires Valid() && protocol.phase == Streaming && protocol.input == Open
      modifies this`calls, this`replies, protocol
      ensures Valid()
      ensures r.Ok? ==> protocol.View() == old(protocol.View()).(input := AudioPending)
                        && r.value == P.EncodeRequest(P.Request("", P.TaskRequest, TimestampJson(timestamp), packet,
                                                                protocol.requestId,
                                                                Some(if protocol.sent == 0 then P.First else P.Middle)))
      ensures r.Err? ==> Excused(r.error)
    {
      hide ReceiveStep;
      hide TimestampJson;
      hide P.EncodeRequest;
      hide Utf8.Blank;
      hide DoubaoSessionLaws.Run;
      hide Interims;
      hide Messages;
      hide Inv;
      hide Objected;
      RefusedExactly(protocol.lib, protocol.View(), Call.AudioRequest(timestamp, packet));
      Record(Call.AudioRequest(timestamp, packet));
      var request := protocol.AudioRequest(timestamp, packet);
      if request.Err? {
        ObjectionIsExcused(Call.AudioRequest(timestamp, packet), request.error);
        return Err(ProtocolError(request.error));
      }
      return Ok(request.value);
    }

    method EndAudio(timestamp: nat) returns (payload: bytes)
      requires Valid() && protocol.phase == Streaming && protocol.input == Open && protocol.sent > 0
      modifies this`calls, this`replies, protocol
      ensures Valid() && protocol.View() == old(protocol.View()).(input := InputFinished)
      ensures payload == P.EncodeRequest(P.Request("", P.TaskRequest, TimestampJson(timestamp), LastFrameMarker(),
                                                   protocol.requestId, Some(P.Last)))
    {
      hide ReceiveStep;
      hide TimestampJson;
      hide P.EncodeRequest;
      hide Utf8.Blank;
      hide DoubaoSessionLaws.Run;
      hide Interims;
      hide Messages;
      hide Inv;
      hide LastFrameMarker;
      Record(Call.FinishAudio(timestamp));
      var marker := protocol.FinishAudio(timestamp);
      assert marker.Ok?;
      payload := marker.value;
    }

    method EndSession(token: string) returns (payload: bytes)
      requires Valid() && protocol.phase == Streaming && protocol.input == InputFinished
      modifies this`calls, this`replies, protocol
      ensures Valid() && protocol.View() == old(protocol.View()).(phase := Finishing)
      ensures payload == P.EncodeRequest(P.Request(token, P.FinishSession, [], [], protocol.requestId, None))
    {
      hide ReceiveStep;
      hide TimestampJson;
      hide P.EncodeRequest;
      hide Utf8.Blank;
      hide DoubaoSessionLaws.Run;
      hide Interims;
      hide Messages;
      hide Inv;
      Record(Call.FinishSession(token));
      var finish := protocol.FinishSession(token);
      assert finish.Ok?;
      payload := finish.value;
    }

    // ----- waiting and sending

    /** The deadline of the current phase or, while no phase is timed, that of the whole attempt. */
    ghost predicate Timed(deadline: nat)
      reads this
    {
      deadline == clock.horizon || deadline == Min(phaseStart + phaseTimeout, clock.horizon)
    }

    /** Cancellation first, without reading the clock; then the total deadline before that of the phase. */
    method CheckDeadlines(phaseDeadline: nat) returns (r: Option<VoxError>)
      requires Valid() && Timed(phaseDeadline)
      modifies clock, cancellation
      ensures r.Some? ==> Excused(r.value)
      ensures old(cancellation.cancelled) ==> r == Some(SESSION_CANCELLED)
      ensures r == Some(SESSION_CANCELLED) ==> cancellation.cancelled
                                               && clock.now == old(clock.now) && clock.readings == old(clock.readings)
      ensures r == Some(TOTAL_TIMEOUT) ==> clock.horizon <= clock.now
      ensures r == Some(PHASE_TIMEOUT) ==> phaseDeadline <= clock.now < clock.horizon
      ensures r.None? ==> !cancellation.cancelled && clock.now < phaseDeadline && clock.now < clock.horizon
      ensures r.Some? ==> r.value in {SESSION_CANCELLED, TOTAL_TIMEOUT, PHASE_TIMEOUT}
      ensures r.None? ==> clock.readings < old(clock.readings)
      ensures clock.readings <= old(clock.readings) && old(clock.now) <= clock.now
    {
      hide Objected;
      hide Valid;
      var cancelled := cancellation.IsCancelled();
      if cancelled {
        return Some(SESSION_CANCELLED);
      }
      var now := clock.Now();
      if now >= clock.horizon {
        return Some(TOTAL_TIMEOUT);
      }
      if now >= phaseDeadline {
        return Some(PHASE_TIMEOUT);
      }
      return None;
    }

    method PhaseDeadline() returns (deadline: nat)
      modifies clock, this`phaseStart
      ensures phaseStart == clock.now && deadline == Min(clock.now + phaseTimeout, clock.horizon)
      ensures clock.readings <= old(clock.readings) && old(clock.now) <= clock.now
    {
      var now := clock.Now();
      phaseStart := now;
      deadline := Min(now + phaseTimeout, clock.horizon);
    }

    /** Hands a message to the session and keeps what it reports. */
    method Take(message: bytes) returns (r: Result<bool, VoxError>)
      requires Steady()
      modifies this`partialResults, this`outcome, this`calls, this`replies, protocol
      ensures Steady() && Messages(calls) == Messages(old(calls)) + [message]
      ensures old(protocol.acceptance) != NotAccepted ==> protocol.acceptance != NotAccepted
      ensures r.Ok? ==> Quietly(old(protocol.View()), protocol.View())
      ensures r.Err? ==> Excused(r.error)
    {
      hide Utf8.Blank;
      hide ReceiveStep;
      hide DoubaoSessionLaws.Run;
      hide Interims;
      hide Messages;
      hide Inv;
      hide Objected;
      hide Quietly;
      ReceivedQuietly(protocol.lib, protocol.View(), message);
      Record(Receive(message));
      var heard := protocol.HandleBinary(message);
      if heard.Err? {
        ObjectionIsExcused(Receive(message), heard.error);
        return Err(ProtocolError(heard.error));
      }
      match heard.value {
        case Some(Recognized(recognition)) =>
          if recognition.interim {
            partialResults := Min(partialResults + 1, U64_MAX);
          }
        case Some(FinishedEvent(finished)) =>
          outcome := Some(finished);
        case _ =>
      }
      return Ok(true);
    }

    method PumpOnce() returns (r: Result<bool, VoxError>)
      requires Valid()
      modifies this`partialResults, this`outcome, this`calls, this`replies, protocol
      modifies socket`received, socket`failures, socket`closed
      ensures Valid()
      ensures r.Ok? ==> Quietly(old(protocol.View()), protocol.View())
      ensures r.Err? ==> Excused(r.error)
    {
      hide Steady;
      hide Messages;
      hide Objected;
      var polled := socket.Poll();
      match polled
      case Idle => return Ok(false);
      case PollClosed => return Err(CONNECTION_CLOSED);
      case PollFailed(error) => return Err(error);
      case Control => return Ok(true);
      case Binary(message) => r := Take(message);
    }

    method FlushOnce(deadline: nat) returns (r: Option<VoxError>)
      requires Valid() && Timed(deadline)
      modifies this`partialResults, this`outcome, this`calls, this`replies, protocol, clock, cancellation
      modifies socket`received, socket`written, socket`failures, socket`closed
      ensures Valid() && old(clock.now) <= clock.now
      ensures r.None? ==> Quietly(old(protocol.View()), protocol.View()) && clock.readings < old(clock.readings)
      ensures r.Some? ==> Excused(r.value)
    {
      hide Objected;
      hide Steady;
      hide Messages;
      r := CheckDeadlines(deadline);
      if r.Some? {
        return;
      }
      var flushed := socket.Flush();
      match flushed
      case FlushFailed(error) => return Some(error);
      case FlushClosed => return Some(CONNECTION_CLOSED);
      case _ =>
        var pumped := PumpOnce();
        return if pumped.Err? then Some(pumped.error) else None;
    }

    /** Puts one payload into the write buffer, marking audio as possibly accepted the moment it enters. */
    method QueuePayload(payload: bytes, deadline: nat, audio: bool) returns (r: Option<VoxError>)
      requires Valid() && Timed(deadline)
      requires audio ==> protocol.phase == Streaming && protocol.input == AudioPending
      modifies this`partialResults, this`outcome, this`calls, this`replies, protocol, clock, socket, cancellation
      ensures Valid() && old(clock.now) <= clock.now
      ensures r.None? ==> Quietly(old(protocol.View()), protocol.View())
      ensures socket.queued == if r.None? then old(socket.queued) + [payload] else old(socket.queued)
      ensures r.Some? ==> Excused(r.value)
    {
      hide Objected;
      hide Steady;
      hide Messages;
      ghost var before := protocol.View();
      ghost var queue := socket.queued;
      while true
        invariant Valid() && Quietly(before, protocol.View()) && socket.queued == queue && old(clock.now) <= clock.now
        decreases clock.readings
      {
        r := CheckDeadlines(deadline);
        if r.Some? {
          return;
        }
        var queued := socket.QueueBinary(payload, audio);
        if queued.Full? {
          r := FlushOnce(deadline);
          if r.Some? {
            return;
          }
        } else {
          if audio {
            MarkAmbiguous();
          }
          return if queued.QueueFailed? then Some(queued.error) else None;
        }
      }
    }

    /** Sends one payload: on success it has left the write buffer behind everything queued before it. */
    method SendPayload(payload: bytes, deadline: nat, audio: bool) returns (r: Option<VoxError>)
      requires Valid() && Timed(deadline)
      requires audio ==> protocol.phase == Streaming && protocol.input == AudioPending
      modifies this`partialResults, this`outcome, this`calls, this`replies, protocol, clock, socket, cancellation
      ensures Valid() && old(clock.now) <= clock.now
      ensures r.None? && !audio ==> Quietly(old(protocol.View()), protocol.View())
      ensures r.None? && audio ==>
                protocol.phase == Streaming && protocol.input == Open && protocol.sent == old(protocol.sent) + 1
      ensures socket.queued == old(socket.queued) || socket.queued == old(socket.queued) + [payload]
      ensures r.None? ==> socket.queued == old(socket.queued) + [payload] == socket.written
      ensures r.Some? ==> Excused(r.value)
    {
      hide Objected;
      hide Steady;
      hide Messages;
      ghost var before := protocol.View();
      r := QueuePayload(payload, deadline, audio);
      if r.Some? {
        return;
      }
      ghost var queue := socket.queued;
      while true
        invariant Valid() && Quietly(before, protocol.View()) && socket.queued == queue && old(clock.now) <= clock.now
        decreases clock.readings
      {
        r := CheckDeadlines(deadline);
        if r.Some? {
          return;
        }
        var flushed := socket.Flush();
        match flushed
        case FlushFailed(error) => return Some(error);
        case FlushClosed => return Some(CONNECTION_CLOSED);
        case Flushed =>
          if audio {
            Confirm();
          }
          return None;
        case Pending =>
          var pumped := PumpOnce();
          if pumped.Err? {
            return Some(pumped.error);
          }
      }
    }

    method WaitForPhase(expected: Phase, deadline: nat) returns (r: Option<VoxError>)
      requires Valid() && Timed(deadline)
      modifies this`partialResults, this`outcome, this`calls, this`replies, protocol, clock, cancellation
      modifies socket`received, socket`failures, socket`closed
      ensures Valid() && old(clock.now) <= clock.now
      ensures r.None? ==> protocol.phase == expected && Quietly(old(protocol.View()), protocol.View())
      ensures r.Some? ==> Excused(r.value)
    {
      hide Objected;
      hide Valid;
      ghost var before := protocol.View();
      while protocol.phase != expected
        invariant Valid() && Quietly(before, protocol.View()) && old(clock.now) <= clock.now
        decreases clock.readings
      {
        r := CheckDeadlines(deadline);
        if r.Some? {
          return;
        }
        var pumped := PumpOnce();
        if pumped.Err? {
          return Some(pumped.error);
        }
      }
      return None;
    }

    method DrainInbound() returns (r: Option<VoxError>)
      requires Valid()
      modifies this`partialResults, this`outcome, this`calls, this`replies, protocol
      modifies socket`received, socket`failures, socket`closed
      ensures Valid()
      ensures r.None? ==> Quietly(old(protocol.View()), protocol.View())
      ensures r.Some? ==> Excused(r.value)
    {
      hide Excused;
      hide Valid;
      ghost var before := protocol.View();
      for i := 0 to MAX_INBOUND_PER_TICK
        invariant Valid() && Quietly(before, protocol.View())
      {
        var pumped := PumpOnce();
        if pumped.Err? {
          return Some(pumped.error);
        }
        if !pumped.value {
          break;
        }
      }
      return None;
    }

    /** Waits until the time of the next frame. */
    method WaitForSendSlot(sendAt: nat) returns (r: Option<VoxError>)
      requires Valid()
      modifies this`partialResults, this`outcome, this`calls, this`replies, protocol, clock, cancellation
      modifies socket`received, socket`failures, socket`closed
      ensures Valid() && old(clock.now) <= clock.now
      ensures r.None? ==> Quietly(old(protocol.View()), protocol.View()) && sendAt <= clock.now
      ensures r.Some? ==> Excused(r.value)
    {
      hide Objected;
      hide Valid;
      ghost var before := protocol.View();
      while true
        invariant Valid() && Quietly(before, protocol.View()) && old(clock.now) <= clock.now
        decreases clock.readings
      {
        var now := clock.Now();
        if now >= sendAt {
          return None;
        }
        r := CheckDeadlines(clock.horizon);
        if r.Some? {
          return;
        }
        r := DrainInbound();
        if r.Some? {
          return;
        }
      }
    }

    /** Opens the task. */
    method OpenTask(token: string) returns (r: Option<VoxError>)
      requires Valid() && protocol.phase == Disconnected && socket.queued == []
      modifies this`partialResults, this`outcome, this`calls, this`replies, this`phaseStart
      modifies protocol, clock, socket, cancellation
      ensures Valid() && old(clock.now) <= clock.now
      ensures r.None? ==> protocol.phase == TaskStarted && protocol.sent == 0 && protocol.input == Input.Open
      ensures var request := P.Request(token, P.StartTask, [], [], protocol.requestId, None);
              socket.Took([], [P.EncodeRequest(request)], r.None?)
      ensures r.Some? ==> Excused(r.value)
    {
      hide P.EncodeRequest;
      hide Excused;
      hide Valid;
      FreshlyOpened();
      var task := BeginTask(token);
      var deadline := PhaseDeadline();
      r := SendPayload(task, deadline, false);
      if r.Some? {
        return;
      }
      deadline := PhaseDeadline();
      r := WaitForPhase(TaskStarted, deadline);
    }

    /** Opens the task and the session. */
    method OpenSession(token: string, config: RunConfig) returns (r: Option<VoxError>)
      requires Valid() && protocol.phase == Disconnected && socket.queued == []
      requires |config.sessionJson| <= MAX_SESSION_JSON_BYTES && protocol.lib.isObject(config.sessionJson)
      modifies this`partialResults, this`outcome, this`calls, this`replies, this`phaseStart
      modifies protocol, clock, socket, cancellation
      ensures Valid() && old(clock.now) <= clock.now
      ensures r.None? ==> protocol.phase == Streaming && protocol.sent == 0 && protocol.input == Input.Open
      ensures socket.Took([], Encoded(OpeningRequests(protocol.requestId, token, config.sessionJson)), r.None?)
      ensures r.Some? ==> Excused(r.value)
    {
      hide P.EncodeRequest;
      hide Excused;
      hide Valid;
      hide Encoded;
      OpeningPayloads(protocol.requestId, token, config.sessionJson);
      r := OpenTask(token);
      if r.Some? {
        return;
      }
      var session := BeginSession(token, config.sessionJson);
      var deadline := PhaseDeadline();
      r := SendPayload(session, deadline, false);
      if r.Some? {
        return;
      }
      deadline := PhaseDeadline();
      r := WaitForPhase(Streaming, deadline);
    }

    /** Sends one PCM frame as one confirmed audio request that carries the frame's packet. `before` is what was queued
        ahead of the audio. */
    method SendFrame(frame: bytes, encoder: OpusEncoder, sendAt: nat, timestampBase: nat, ghost before: seq<bytes>)
      returns (r: Option<VoxError>)
      requires Valid() && protocol.phase == Streaming && protocol.input == Input.Open
      requires |encoder.packets| == protocol.sent
      requires socket.queued == before + AudioPayloads(protocol.requestId, timestampBase, encoder.packets)
      modifies this`partialResults, this`outcome, this`calls, this`replies, this`phaseStart
      modifies protocol, clock, socket, cancellation, encoder
      ensures Valid() && old(clock.now) <= clock.now
      ensures r.None? ==> protocol.phase == Streaming && protocol.input == Input.Open
                          && protocol.sent == old(protocol.sent) + 1 == |encoder.packets| && sendAt <= clock.now
                          && encoder.encoded == old(encoder.encoded) + [frame]
      ensures socket.Took(before, AudioPayloads(protocol.requestId, timestampBase, encoder.packets), r.None?)
      ensures r.Some? ==> Excused(r.value) || (r.value == ENCODE_FAILED && encoder.failed)
    {
      hide TimestampJson;
      hide P.EncodeRequest;
      hide Excused;
      hide Valid;
      hide AudioPayloads;
      hide Stamp;
      r := WaitForSendSlot(sendAt);
      if r.Some? {
        return;
      }
      var packet := encoder.EncodeFrame(frame);
      if packet.None? {
        return Some(ENCODE_FAILED);
      }
      AudioPayloadsMore(protocol.requestId, timestampBase, old(encoder.packets), packet.value);
      var timestamp := Stamp(timestampBase, protocol.sent);
      var request := BeginFrame(timestamp, packet.value);
      if request.Err? {
        return Some(request.error);
      }
      var deadline := PhaseDeadline();
      r := SendPayload(request.value, deadline, true);
      if r.Some? {
        return;
      }
      r := DrainInbound();
    }

    /** Marks the end of the audio. */
    method FinishInput(timestamp: nat) returns (r: Option<VoxError>)
      requires Valid() && protocol.phase == Streaming && protocol.input == Input.Open && protocol.sent > 0
      modifies this`partialResults, this`outcome, this`calls, this`replies, this`phaseStart
      modifies protocol, clock, socket, cancellation
      ensures Valid() && old(clock.now) <= clock.now
      ensures r.None? ==> protocol.phase == Streaming && protocol.input == InputFinished
                          && protocol.sent == old(protocol.sent)
      ensures var request := P.Request("", P.TaskRequest, TimestampJson(timestamp), LastFrameMarker(),
                                       protocol.requestId, Some(P.Last));
              socket.Took(old(socket.queued), [P.EncodeRequest(request)], r.None?)
      ensures r.Some? ==> Excused(r.value)
    {
      hide P.EncodeRequest;
      hide TimestampJson;
      hide LastFrameMarker;
      hide Excused;
      hide Valid;
      var marker := EndAudio(timestamp);
      var deadline := PhaseDeadline();
      r := SendPayload(marker, deadline, false);
    }

    /** Marks the end of the audio, finishes the session and waits for its outcome. */
    method CloseSession(token: string, timestampBase: nat) returns (r: Option<VoxError>)
      requires Valid() && protocol.phase == Streaming && protocol.input == Input.Open && protocol.sent > 0
      modifies this`partialResults, this`outcome, this`calls, this`replies, this`phaseStart
      modifies protocol, clock, socket, cancellation
      ensures Valid() && old(clock.now) <= clock.now
      ensures r.None? ==> protocol.phase == Finished && protocol.sent == old(protocol.sent)
      ensures var end := Stamp(timestampBase, old(protocol.sent));
              socket.Took(old(socket.queued), Encoded(ClosingRequests(protocol.requestId, token, end)), r.None?)
      ensures r.Some? ==> Excused(r.value)
    {
      hide P.EncodeRequest;
      hide TimestampJson;
      hide LastFrameMarker;
      hide Excused;
      hide Valid;
      hide Encoded;
      hide Stamp;
      var timestamp := Stamp(timestampBase, protocol.sent);
      ClosingPayloads(protocol.requestId, token, timestamp);
      r := FinishInput(timestamp);
      if r.Some? {
        return;
      }
      var finish := EndSession(token);
      var deadline := PhaseDeadline();
      r := SendPayload(finish, deadline, false);
      if r.Some? {
        return;
      }
      deadline := PhaseDeadline();
      r := WaitForPhase(Finished, deadline);
    }

    /** Sends the recording frame by frame, none of them before its time. */
    method SendRecording(source: PcmSource, encoder: OpusEncoder, config: RunConfig, startedAt: nat, timestampBase: nat)
      returns (r: Option<VoxError>)
      requires Valid() && protocol.phase == Streaming && protocol.input == Input.Open
      requires protocol.sent == 0 && encoder.encoded == [] == encoder.packets && socket.written == socket.queued
      modifies this`partialResults, this`outcome, this`calls, this`replies, this`phaseStart
      modifies protocol, clock, socket, cancellation, source, encoder
      ensures Valid() && old(clock.now) <= clock.now
      ensures r.None? ==> protocol.phase == Streaming && protocol.input == Input.Open
                          && encoder.encoded == FramesOf(old(source.rest))
                          && protocol.sent == |encoder.encoded| == |encoder.packets|
                          && Paced(startedAt, config.frameInterval, |encoder.encoded|, clock.now)
      ensures socket.Took(old(socket.queued), AudioPayloads(protocol.requestId, timestampBase, encoder.packets),
                          r.None?)
      ensures r.Some? ==> Excused(r.value) || SourceFailed(r.value, encoder, source)
                          || (r.value == PcmFailure(IncompleteSample) && |old(source.rest)| % 2 == 1)
    {
      hide FramesOf;
      hide Utf8.Blank;
      hide Inv;
      hide Valid;
      hide Excused;
      hide AudioPayloads;
      hide Slot;
      assert Paced(startedAt, config.frameInterval, 0, clock.now);
      hide Paced;
      ghost var total := FramesOf(source.rest);
      ghost var before := socket.queued;
      ghost var even := |source.rest| % 2 == 0;
      NoAudioYet(protocol.requestId, timestampBase, before);
      while true
        invariant Valid() && protocol.phase == Streaming && protocol.input == Input.Open && old(clock.now) <= clock.now
        invariant encoder.encoded + FramesOf(source.rest) == total
        invariant protocol.sent == |encoder.encoded| == |encoder.packets|
        invariant Paced(startedAt, config.frameInterval, |encoder.encoded|, clock.now)
        invariant socket.queued == before + AudioPayloads(protocol.requestId, timestampBase, encoder.packets)
                                == socket.written
        invariant even ==> |source.rest| % 2 == 0
        decreases |source.rest|
      {
        var next := ReadPcmFrame(source);
        if next.Err? {
          return Some(PcmFailure(next.error));
        }
        if next.value.None? {
          FramesOfShape(source.rest);
          return None;
        }
        var sendAt := Slot(startedAt, config.frameInterval, protocol.sent);
        r := SendFrame(next.value.value, encoder, sendAt, timestampBase, before);
        if r.Some? {
          return;
        }
        PacedMore(startedAt, config.frameInterval, |encoder.encoded| - 1, clock.now);
      }
    }

    lemma FreshlyOpened()
      requires Valid() && protocol.phase == Disconnected
      ensures protocol.sent == 0 && protocol.input == Input.Open
    {
    }

    lemma Unfold()
      requires Valid()
      ensures Runs() && Messages(calls) == socket.received
      ensures socket.audioEntered ==> protocol.acceptance != NotAccepted
      ensures partialResults == Min(Interims(replies), U64_MAX)
      ensures outcome.Some? ==> Notified(FinishedEvent(outcome.value)) in replies
      ensures protocol.phase == Finished ==> outcome.Some?
    {
    }

    /** The encoder or the recording failed. */
    ghost predicate SourceFailed(e: VoxError, encoder: OpusEncoder, source: PcmSource)
      reads encoder, source
    {
      || (e == VoxError(Internal, OpusEncodeFailed, false) && encoder.failed)
      || (e == VoxError(Unavailable, PcmReadFailed, true) && source.failed)
    }

    /** The wall clock cannot be used. */
    ghost predicate WallFailed(e: VoxError) {
      || (e == VoxError(Internal, SystemClockInvalid, false) && clock.wall.None?)
      || (e == VoxError(Internal, SystemClockOverflow, false) && clock.wall.Some? && clock.wall.value > U64_MAX)
    }

    /** Why the whole attempt may fail. */
    ghost predicate Failing(e: VoxError, encoder: OpusEncoder, source: PcmSource, length: nat)
      reads this, socket, clock, cancellation, encoder, source
    {
      || Excused(e) || SourceFailed(e, encoder, source) || WallFailed(e)
      || (e == VoxError(InvalidArgument, InvalidPcm, false) && length % 2 == 1)
    }

    /** The attempt up to the end of the session. */
    method Perform(source: PcmSource, encoder: OpusEncoder, token: string, config: RunConfig)
      returns (failed: Option<VoxError>, ghost base: nat)
      requires Valid() && protocol.phase == Disconnected && socket.queued == []
      requires source.rest != [] && encoder.encoded == [] == encoder.packets
      requires |config.sessionJson| <= MAX_SESSION_JSON_BYTES && protocol.lib.isObject(config.sessionJson)
      modifies this`partialResults, this`outcome, this`calls, this`replies, this`phaseStart
      modifies protocol, clock, socket, cancellation, source, encoder
      ensures Valid()
      ensures encoder.packets != [] ==> clock.wall == Some(base)
      ensures socket.Took([], SessionPayloads(protocol.requestId, token, config.sessionJson, base, encoder.packets),
                          failed.None?)
      ensures failed.None? ==>
                && protocol.phase == Finished && encoder.encoded == FramesOf(old(source.rest))
                && protocol.sent == |encoder.encoded| == |encoder.packets|
                && Paced(0, config.frameInterval, |encoder.packets|, clock.now)
      ensures failed.Some? ==> Failing(failed.value, encoder, source, old(|source.rest|))
    {
      hide FramesOf;
      hide Excused;
      hide Valid;
      hide Encoded;
      hide AudioPayloads;
      hide SourceFailed;
      hide Paced;
      hide Stamp;
      hide SessionPayloads;
      hide BinaryWebSocket.Took;
      hide OpeningRequests;
      hide ClosingRequests;
      base := if clock.wall.Some? then clock.wall.value else 0;
      FramesOfShape(source.rest);
      ghost var opening := Encoded(OpeningRequests(protocol.requestId, token, config.sessionJson));
      failed := OpenSession(token, config);
      PayloadsBegin(protocol.requestId, token, config.sessionJson, base);
      Batch([], opening, failed, SessionPayloads(protocol.requestId, token, config.sessionJson, base, []));
      if failed.Some? {
        return;
      }
      assert [] + opening == opening;
      var startedAt := clock.Now();
      var timestampBase := clock.UnixMillis();
      if timestampBase.Err? {
        return Some(timestampBase.error), base;
      }
      failed := SendRecording(source, encoder, config, startedAt, timestampBase.value);
      ghost var audio := AudioPayloads(protocol.requestId, base, encoder.packets);
      ghost var all := SessionPayloads(protocol.requestId, token, config.sessionJson, base, encoder.packets);
      SessionPayloadsSplit(protocol.requestId, token, config.sessionJson, base, encoder.packets);
      Batch(opening, audio, failed, all);
      if failed.Some? {
        return;
      }
      ghost var sentAt := clock.now;
      failed := CloseSession(token, timestampBase.value);
      Batch(opening + audio,
            Encoded(ClosingRequests(protocol.requestId, token, Stamp(base, |encoder.packets|))), failed, all);
      PacedFromStart(startedAt, config.frameInterval, |encoder.packets|, sentAt, clock.now);
    }

    lemma Batch(before: seq<bytes>, payloads: seq<bytes>, failed: Option<VoxError>, all: seq<bytes>)
      requires socket.Took(before, payloads, failed.None?) && before + payloads <= all
      ensures socket.Took([], all, failed.None? && before + payloads == all)
      ensures failed.Some? ==> socket.Took([], all, false)
      ensures failed.None? ==> socket.queued == before + payloads == socket.written && socket.Took([], all, false)
    {
      socket.TookMore(before, payloads, failed.None?, all);
    }

    /** The whole attempt. On success every frame of the recording was encoded in order, the connection wrote exactly
        the requests of the session, each audio request with its frame's packet, and the result is what the provider
        reported; a failure has its cause, and what was queued by then is a beginning of those requests. */
    method Run(source: PcmSource, encoder: OpusEncoder, token: string, config: RunConfig)
      returns (r: Result<Transcription, VoxError>, ghost base: nat)
      requires Valid() && protocol.phase == Disconnected && outcome.None? && socket.queued == []
      requires source.rest != [] && encoder.encoded == [] == encoder.packets
      requires |config.sessionJson| <= MAX_SESSION_JSON_BYTES && protocol.lib.isObject(config.sessionJson)
      modifies this`partialResults, this`outcome, this`calls, this`replies, this`phaseStart
      modifies protocol, clock, socket, cancellation, source, encoder
      ensures Runs() && Messages(calls) == socket.received
      ensures socket.audioEntered ==> protocol.acceptance != NotAccepted
      ensures encoder.packets != [] ==> clock.wall == Some(base)
      ensures socket.Took([], SessionPayloads(protocol.requestId, token, config.sessionJson, base, encoder.packets),
                          r.Ok?)
      ensures r.Ok? ==> encoder.encoded == FramesOf(old(source.rest)) && |encoder.packets| == |encoder.encoded|
                        && r.value.sentAudioMillis == 20 * |encoder.packets|
                        && Paced(0, config.frameInterval, |encoder.packets|, clock.now)
                        && Tells(replies, r.value)
      ensures r.Err? ==> Failing(r.error, encoder, source, old(|source.rest|))
    {
      hide FramesOf;
      hide Utf8.Blank;
      hide Failing;
      hide Valid;
      hide SessionPayloads;
      hide Paced;
      hide DoubaoSessionLaws.Run;
      hide FinalText;
      hide LastNumber;
      hide VoiceStarted;
      hide VoiceFinished;
      hide Interims;
      var failed;
      failed, base := Perform(source, encoder, token, config);
      Unfold();
      if failed.Some? {
        return Err(failed.value), base;
      }
      // the code's missing-outcome error cannot occur
      assert outcome.Some?;
      FinishedTells(protocol.lib, protocol.requestId, calls, outcome.value);
      FinalTextIsNotBlank(replies);
      var kept := outcome.value;
      outcome := None;
      r := Ok(Transcription(kept.transcript, kept.sent * FRAME_MILLIS, partialResults, kept.vadStarted,
                            kept.vadFinished));
    }

    // ----- what is left of it

    ghost function LinkOf(base: nat, encoder: OpusEncoder, source: PcmSource): Link
      reads this, socket, clock, cancellation, encoder, source
    {
      Link(base, encoder.encoded, encoder.packets, calls, socket.queued, socket.written, socket.received,
           socket.audioEntered, Seen(), encoder.failed, source.failed)
    }

    lemma LinkServes(config: RunConfig, token: string, base: nat, encoder: OpusEncoder, source: PcmSource, done: bool)
      requires Messages(calls) == socket.received
      requires socket.Took([], SessionPayloads(config.requestId, token, config.sessionJson, base, encoder.packets), done)
      ensures Serves(config, token, LinkOf(base, encoder, source))
    {
      hide SessionPayloads;
      hide Messages;
      var all := SessionPayloads(config.requestId, token, config.sessionJson, base, encoder.packets);
      assert [] + all == all;
    }

    lemma LinkFulfils(config: RunConfig, token: string, recording: bytes, base: nat, encoder: OpusEncoder,
                      source: PcmSource, t: Transcription)
      requires Runs() && protocol.requestId == config.requestId
      requires socket.Took([], SessionPayloads(config.requestId, token, config.sessionJson, base, encoder.packets), true)
      requires encoder.encoded == FramesOf(recording) && |encoder.packets| == |encoder.encoded|
      requires t.sentAudioMillis == 20 * |encoder.packets| && Tells(replies, t)
      requires Paced(0, config.frameInterval, |encoder.packets|, clock.now)
      ensures Fulfils(protocol.lib, config, token, recording, LinkOf(base, encoder, source), t)
    {
      hide SessionPayloads;
      hide Tells;
      hide FramesOf;
      hide Paced;
      hide DoubaoSessionLaws.Run;
      var all := SessionPayloads(config.requestId, token, config.sessionJson, base, encoder.packets);
      assert [] + all == all;
    }

    lemma LinkExplains(config: RunConfig, outside: Outside, base: nat, encoder: OpusEncoder, source: PcmSource,
                       length: nat, e: VoxError)
      requires Runs() && protocol.requestId == config.requestId && clock.wall == outside.wall
      requires phaseTimeout == config.phaseTimeout && clock.horizon == config.totalTimeout
      requires socket.audioEntered ==> protocol.acceptance != NotAccepted
      requires Failing(e, encoder, source, length) && length % 2 == 0
      ensures Explains(protocol.lib, config, outside, LinkOf(base, encoder, source),
                       AttemptFailure(e, true, protocol.acceptance))
    {
      hide Caused;
      hide DoubaoSessionLaws.Run;
    }
  }

  function PcmFailure(e: PcmError): VoxError {
    match e
    case ReadFailed => VoxError(Unavailable, PcmReadFailed, true)
    case IncompleteSample => VoxError(InvalidArgument, InvalidPcm, false)
  }

  // ----- one attempt, and its retry

  /** Why the configuration is unfit, if it is: its times first, then its session JSON. */
  function RunConfigError(lib: Library, config: RunConfig): (e: Option<VoxError>)
    ensures e.None? <==> 100 <= config.phaseTimeout <= 60_000 && config.phaseTimeout <= config.totalTimeout <= 3_600_000
                         && config.frameInterval <= 100
                         && |config.sessionJson| <= 256 * 1024 && lib.isObject(config.sessionJson)
    ensures e.Some? ==> e.value.category == Configuration && !e.value.retryable
                        && e.value.code in {InvalidRunTimeout, InvalidSessionJson}
    ensures e.Some? ==> (e.value.code == InvalidSessionJson <==>
                           && 100 <= config.phaseTimeout <= 60_000 && config.frameInterval <= 100
                           && config.phaseTimeout <= config.totalTimeout <= 3_600_000)
  {
    if config.phaseTimeout < 100 || config.phaseTimeout > 60_000 || config.totalTimeout < config.phaseTimeout
       || config.totalTimeout > 3_600_000 || config.frameInterval > 100 then
      Some(VoxError(Configuration, InvalidRunTimeout, false))
    else if |config.sessionJson| > MAX_SESSION_JSON_BYTES || !lib.isObject(config.sessionJson) then
      Some(VoxError(Configuration, InvalidSessionJson, false))
    else None
  }

  /** The recording, if it opens and is non-empty bounded 16-bit audio. */
  function PreparePcm(file: Option<bytes>): (r: Result<bytes, VoxError>)
    ensures r.Ok? <==> file.Some? && 0 < |file.value| <= 115_200_000 && |file.value| % 2 == 0
    ensures r.Ok? ==> file == Some(r.value)
    ensures r.Err? ==> (r.error.category == Unavailable <==> file.None?) && (r.error.retryable <==> file.None?)
  {
    if file.None? then Err(VoxError(Unavailable, PcmOpenFailed, true))
    else if |file.value| == 0 || |file.value| > MAX_PCM_BYTES || |file.value| % 2 != 0 then
      Err(VoxError(InvalidArgument, InvalidPcm, false))
    else Ok(file.value)
  }

  /** What an attempt finds outside: the encoder library, how connecting fails if it does, and the wall clock. */
  datatype Outside = Outside(opusAvailable: bool, connectFailure: Option<VoxError>, wall: Option<nat>)

  /** What became of an attempt's connection: the frames encoded and their packets, the calls made of the session, the
      payloads, and what happened from outside. */
  datatype Link = Link(base: nat, encoded: seq<bytes>, packets: seq<bytes>, calls: seq<Call>, queued: seq<bytes>,
                       written: seq<bytes>, received: seq<bytes>, audioEntered: bool, incidents: Incidents,
                       encoderFailed: bool, readFailed: bool)

  datatype Attempt = Attempt(token: string, result: Result<Transcription, AttemptFailure>, connection: Option<Link>)

  /** The attempt can open a connection. */
  predicate Ready(lib: Library, config: RunConfig, file: Option<bytes>, outside: Outside) {
    && outside.opusAvailable && RunConfigError(lib, config).None? && PreparePcm(file).Ok?
    && NewSession(config.requestId).Ok? && outside.connectFailure.None?
  }

  /** What an attempt that cannot open a connection answers: its first obstacle, which counts as a started transport
      only if connecting failed other than by configuration. */
  predicate Hindered(lib: Library, config: RunConfig, file: Option<bytes>, outside: Outside, failure: AttemptFailure) {
    if !outside.opusAvailable then failure == AttemptFailure(VoxError(Unavailable, OpusUnavailable, false), false, NotAccepted)
    else if RunConfigError(lib, config).Some? then
      failure == AttemptFailure(RunConfigError(lib, config).value, false, NotAccepted)
    else if PreparePcm(file).Err? then failure == AttemptFailure(PreparePcm(file).error, false, NotAccepted)
    else if NewSession(config.requestId).Err? then
      failure == AttemptFailure(VoxError(Protocol, InvalidRequestId, false), false, NotAccepted)
    else
      outside.connectFailure.Some?
      && failure == AttemptFailure(outside.connectFailure.value, outside.connectFailure.value.category != Configuration,
                                   NotAccepted)
  }

  /** The connection took a beginning of the session's requests with this token, and every message it delivered went to
      the session. */
  predicate Serves(config: RunConfig, token: string, c: Link) {
    && c.queued <= SessionPayloads(config.requestId, token, config.sessionJson, c.base, c.packets)
    && Messages(c.calls) == c.received
  }

  /** Every frame of the recording was encoded, none was sent before its time, all requests of the session were written,
      and the result is what the provider reported. */
  predicate Fulfils(lib: Library, config: RunConfig, token: string, recording: bytes, c: Link, t: Transcription) {
    && c.encoded == FramesOf(recording) && |c.packets| == |c.encoded|
    && c.queued == SessionPayloads(config.requestId, token, config.sessionJson, c.base, c.packets) == c.written
    && Paced(0, config.frameInterval, |c.packets|, c.incidents.now)
    && t.sentAudioMillis == 20 * |c.packets| && Tells(Run(lib, Fresh(config.requestId), c.calls).1, t)
  }

  /** The failure has its cause in what happened to the connection, and its evidence is the session's. */
  predicate Explains(lib: Library, config: RunConfig, outside: Outside, c: Link, failure: AttemptFailure) {
    var (s, replies) := Run(lib, Fresh(config.requestId), c.calls);
    var e := failure.error;
    && failure.transportStarted && failure.acceptance == s.acceptance
    && (c.audioEntered ==> failure.acceptance != NotAccepted)
    && (|| Caused(c.incidents, config.phaseTimeout, config.totalTimeout, c.calls, replies, e)
        || (e == VoxError(Internal, OpusEncodeFailed, false) && c.encoderFailed)
        || (e == VoxError(Unavailable, PcmReadFailed, true) && c.readFailed)
        || (e == VoxError(Internal, SystemClockInvalid, false) && outside.wall.None?)
        || (e == VoxError(Internal, SystemClockOverflow, false) && outside.wall.Some? && outside.wall.value > U64_MAX))
  }

  ghost predicate Attempted(lib: Library, config: RunConfig, file: Option<bytes>, outside: Outside, attempt: Attempt) {
    match attempt.connection
    case None =>
      !Ready(lib, config, file, outside)
      && attempt.result.Err? && Hindered(lib, config, file, outside, attempt.result.error)
    case Some(c) =>
      && Ready(lib, config, file, outside) && Serves(config, attempt.token, c)
      && (c.packets != [] ==> outside.wall == Some(c.base))
      && match attempt.result
         case Ok(t) => Fulfils(lib, config, attempt.token, file.value, c, t)
         case Err(failure) => Explains(lib, config, outside, c, failure)
  }

  /** One attempt over at most one connection. It opens one exactly when nothing hinders it; then the connection is served
      the session's requests with the given token, and the attempt returns what the provider reported or fails for a
      cause, with the session's own evidence. */
  method TranscribePcm(lib: Library, config: RunConfig, token: string, file: Option<bytes>, outside: Outside)
    returns (r: Result<Transcription, AttemptFailure>, ghost connection: Option<Link>)
    ensures Attempted(lib, config, file, outside, Attempt(token, r, connection))
  {
    hide Serves;
    hide Fulfils;
    hide Explains;
    connection := None;
    if !outside.opusAvailable {
      return Err(BeforeTransport(VoxError(Unavailable, OpusUnavailable, false))), None;
    }
    var unfit := RunConfigError(lib, config);
    if unfit.Some? {
      return Err(BeforeTransport(unfit.value)), None;
    }
    var recording := PreparePcm(file);
    if recording.Err? {
      return Err(BeforeTransport(recording.error)), None;
    }
    var session := NewSession(config.requestId);
    if session.Err? {
      return Err(BeforeTransport(ProtocolError(session.error))), None;
    }
    if outside.connectFailure.Some? {
      var failure := outside.connectFailure.value;
      if failure.category == Configuration {
        return Err(BeforeTransport(failure)), None;
      }
      return Err(AfterTransport(failure, NotAccepted)), None;
    }
    ghost var c;
    r, c := Converse(lib, config, token, recording.value, outside);
    connection := Some(c);
  }

  /** A driver over a new connection, with the recording it is to send. */
  method NewDriver(lib: Library, config: RunConfig, recording: bytes, outside: Outside)
    returns (driver: SessionDriver, encoder: OpusEncoder, source: PcmSource)
    requires RunConfigError(lib, config).None? && recording != []
    ensures fresh(driver) && fresh(driver.socket) && fresh(driver.protocol) && fresh(driver.clock)
    ensures fresh(driver.cancellation) && fresh(encoder) && fresh(source)
    ensures driver.Valid() && driver.protocol.phase == Disconnected && driver.outcome == None
    ensures driver.socket.queued == [] && encoder.encoded == [] == encoder.packets && source.rest == recording
    ensures driver.protocol.lib == lib && driver.protocol.requestId == config.requestId
    ensures driver.clock.wall == outside.wall && driver.clock.horizon == config.totalTimeout
    ensures driver.phaseTimeout == config.phaseTimeout
  {
    var protocol := new DoubaoSessionProtocol(lib, config.requestId);
    var socket := new BinaryWebSocket();
    var readings: nat, interruptions: nat := *, *;
    var clock := new Clock(config.totalTimeout, readings, outside.wall);
    source := new PcmSource(recording, interruptions);
    var cancellation := new CancellationToken();
    driver := new SessionDriver(socket, protocol, cancellation, clock, config.phaseTimeout);
    encoder := new OpusEncoder();
    hide SessionDriver.Valid;
  }

  /** The attempt once it is connected. */
  method Converse(lib: Library, config: RunConfig, token: string, recording: bytes, outside: Outside)
    returns (r: Result<Transcription, AttemptFailure>, ghost c: Link)
    requires RunConfigError(lib, config).None? && recording != [] && |recording| % 2 == 0
    ensures Serves(config, token, c) && (c.packets != [] ==> outside.wall == Some(c.base))
    ensures r.Ok? ==> Fulfils(lib, config, token, recording, c, r.value)
    ensures r.Err? ==> Explains(lib, config, outside, c, r.error)
  {
    hide Serves;
    hide Fulfils;
    hide Explains;
    hide SessionPayloads;
    hide FramesOf;
    hide Tells;
    hide Messages;
    hide DoubaoSessionLaws.Run;
    hide SessionDriver.Valid;
    hide SessionDriver.Failing;
    hide SessionDriver.Seen;
    hide NewSession;
    hide Paced;
    hide BinaryWebSocket.Took;
    var driver, encoder, source := NewDriver(lib, config, recording, outside);
    ghost var base;
    var result;
    result, base := driver.Run(source, encoder, token, config);
    c := driver.LinkOf(base, encoder, source);
    driver.LinkServes(config, token, base, encoder, source, result.Ok?);
    if result.Err? {
      driver.LinkExplains(config, outside, base, encoder, source, |recording|, result.error);
      driver.protocol.CancelSession();
      return Err(AfterTransport(result.error, driver.protocol.acceptance)), c;
    }
    driver.LinkFulfils(config, token, recording, base, encoder, source, result.value);
    return Ok(result.value), c;
  }

  /** How many connections had audio enter their write buffer. */
  function Count(entered: seq<bool>): nat {
    if entered == [] then 0 else (if entered[0] then 1 else 0) + Count(entered[1..])
  }

  lemma CountOf(a: bool, b: bool)
    ensures Count([a]) == if a then 1 else 0
    ensures Count([a, b]) == (if a then 1 else 0) + if b then 1 else 0
  {
    assert [a][1..] == [] && [a, b][1..] == [b] && [b][1..] == [];
  }

  function Entered(attempt: Attempt): bool {
    attempt.connection.Some? && attempt.connection.value.audioEntered
  }

  function Entries(attempts: seq<Attempt>): seq<bool> {
    seq(|attempts|, i requires 0 <= i < |attempts| => Entered(attempts[i]))
  }

  /** What finding the credentials refused calls for: whether the caller cancelled meanwhile, and the new token. */
  datatype Refresh = Refresh(cancelled: bool, token: Result<string, VoxError>)

  /** The credentials were refused before any audio could have been accepted. */
  predicate Unauthorized(r: Result<Transcription, AttemptFailure>) {
    r.Err? && r.error.error.category == Authentication && r.error.acceptance == NotAccepted
  }

  /** Retries once, with the refreshed token, after an authentication failure that preceded any audio.
      Over both connections together audio enters at most one write buffer, and none when the attempt ends reporting
      NotAccepted. */
  method TranscribeWithTokenRefresh(lib: Library, config: RunConfig, token: string, file: Option<bytes>,
                                    outside: Outside, refresh: Refresh, again: Outside)
    returns (r: Result<Transcription, AttemptFailure>, ghost attempts: seq<Attempt>, ghost entered: seq<bool>)
    ensures Count(entered) <= 1
    ensures r.Err? && r.error.acceptance == NotAccepted ==> Count(entered) == 0
    ensures r.Ok? ==> file.Some? && r.value.sentAudioMillis == 20 * FrameCount(|file.value|) > 0
                      && !Utf8.Blank(r.value.text)
    ensures 1 <= |attempts| <= 2 && attempts[0].token == token
    ensures Attempted(lib, config, file, outside, attempts[0])
    ensures |attempts| == 2 <==> Unauthorized(attempts[0].result) && !refresh.cancelled && refresh.token.Ok?
    ensures |attempts| == 2 ==>
              attempts[1].token == refresh.token.value && Attempted(lib, config, file, again, attempts[1])
              && r == attempts[1].result
    ensures Unauthorized(attempts[0].result) && !refresh.cancelled && refresh.token.Err? ==>
              r == Err(AttemptFailure(refresh.token.error, true, NotAccepted))
    ensures !Unauthorized(attempts[0].result) || refresh.cancelled ==> r == attempts[0].result
    ensures entered == Entries(attempts)
  {
    hide Attempted;
    hide FrameCount;
    hide Utf8.Blank;
    ghost var connection;
    r, connection := TranscribePcm(lib, config, token, file, outside);
    ghost var first := Attempt(token, r, connection);
    attempts, entered := [first], [Entered(first)];
    CountOf(Entered(first), false);
    EvidenceOfEntry(lib, config, file, outside, first);
    if r.Err? && r.error.error.category == Authentication && r.error.acceptance == NotAccepted && !refresh.cancelled {
      if refresh.token.Err? {
        return Err(AfterTransport(refresh.token.error, NotAccepted)), attempts, entered;
      }
      r, connection := TranscribePcm(lib, config, refresh.token.value, file, again);
      ghost var second := Attempt(refresh.token.value, r, connection);
      attempts, entered := [first, second], [Entered(first), Entered(second)];
      CountOf(Entered(first), Entered(second));
      EvidenceOfEntry(lib, config, file, again, second);
    }
  }

  lemma EvidenceOfEntry(lib: Library, config: RunConfig, file: Option<bytes>, outside: Outside, attempt: Attempt)
    requires Attempted(lib, config, file, outside, attempt)
    ensures attempt.result.Err? && attempt.result.error.acceptance == NotAccepted ==> !Entered(attempt)
    ensures attempt.result.Ok? ==>
              file.Some? && attempt.result.value.sentAudioMillis == 20 * FrameCount(|file.value|) > 0
              && !Utf8.Blank(attempt.result.value.text)
  {
    hide Serves;
    hide Caused;
    hide FramesOf;
    hide Utf8.Blank;
    hide FinalText;
    hide VoiceStarted;
    hide VoiceFinished;
    hide Interims;
    hide SessionPayloads;
    hide Paced;
    hide DoubaoSessionLaws.Run;
    if attempt.result.Ok? {
      FramesOfShape(file.value);
    }
  }

  lemma FirstPayload(requestId: string, token: string, json: bytes, base: nat, packets: seq<bytes>)
    ensures var payloads := SessionPayloads(requestId, token, json, base, packets);
            payloads != []
            && payloads[0] == P.EncodeRequest(P.Request(token, P.StartTask, [], [], requestId, None))
  {
    hide P.EncodeRequest;
    hide Encoded;
    hide AudioPayloads;
    hide SessionPayloads;
    SessionPayloadsSplit(requestId, token, json, base, packets);
    OpeningPayloads(requestId, token, json);
  }

  /** What the retry's connection gets to see first is the request that opens the task with the refreshed token; and a
      retry that succeeds wrote the whole session with it. */
  lemma RetryUsesFreshToken(lib: Library, config: RunConfig, file: Option<bytes>, again: Outside, attempt: Attempt)
    requires Attempted(lib, config, file, again, attempt) && attempt.connection.Some?
    ensures var c := attempt.connection.value;
            c.queued != [] ==>
              c.queued[0] == P.EncodeRequest(P.Request(attempt.token, P.StartTask, [], [], config.requestId, None))
    ensures var c := attempt.connection.value;
            attempt.result.Ok? ==>
              c.written == SessionPayloads(config.requestId, attempt.token, config.sessionJson, c.base, c.packets)
  {
    hide *;
    var c := attempt.connection.value;
    FirstPayload(config.requestId, attempt.token, config.sessionJson, c.base, c.packets);
    AttemptServes(lib, config, file, again, attempt);
  }

  lemma AttemptServes(lib: Library, config: RunConfig, file: Option<bytes>, outside: Outside, attempt: Attempt)
    requires Attempted(lib, config, file, outside, attempt) && attempt.connection.Some?
    ensures var c := attempt.connection.value;
            var payloads := SessionPayloads(config.requestId, attempt.token, config.sessionJson, c.base, c.packets);
            c.queued <= payloads && (attempt.result.Ok? ==> c.written == payloads)
  {
    hide SessionPayloads;
    hide Explains;
    hide Ready;
    hide Tells;
    hide FramesOf;
    hide Paced;
    hide Messages;
    hide DoubaoSessionLaws.Run;
  }
}
