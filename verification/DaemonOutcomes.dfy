/** What the daemon's requests must bring about, and exactly how full its event queue may be for that. */
module DaemonOutcomes {
  import opened Base
  import opened Providers
  import opened CoreSession
  import opened AppLifecycle
  import opened Daemon
  import opened DaemonLaws
  import Routing
  import Utf8

  // ----- what one command does to the lifecycle

  /** A command that is accepted moves the machine and announces its new state; some announce the session's result too. */
  predicate Moved(l: Lifecycle, after: Lifecycle, state: SessionState, published: seq<AppEvent>) {
    after.machine.state == state && after.events == l.events + published
  }

  lemma RememberedIsFound(results: seq<Record>, record: Record)
    ensures Lookup(Remember(results, record), record.session) == Some(record)
  {
    hide Without;
  }

  lemma RunsFail(l: Lifecycle, session: SessionId, error: VoxError)
    requires l.machine.state.Session() == Some(session)
    ensures var after := Perform(l, Run(Fail(session, error)));
            if |l.events| > 254 then after == l
            else Moved(l, after, SessionState.Failed(session, error),
                       [StateChanged(FailedName, session),
                        SessionFinished(Record(session, WasFailed, Some(error.code), "", 0))])
                 && Lookup(after.results, session) == Some(Record(session, WasFailed, Some(error.code), "", 0))
  {
    RememberedIsFound(l.results, Record(session, WasFailed, Some(error.code), "", 0));
    hide Remember;
    hide Lookup;
  }

  lemma RunsTranscript(l: Lifecycle, session: SessionId, text: string)
    requires l.machine.state == Finalizing(session)
    ensures var after := Perform(l, Run(TranscriptReady(session, text)));
            ReplyTo(l, TranscriptReady(session, text)).Ok? == (|l.events| <= 254 && !Utf8.Blank(text))
            && if |l.events| > 254 || Utf8.Blank(text) then after == l
               else Moved(l, after, Inserting(session, text), [StateChanged(InsertingName, session)])
  {
    hide Remember;
    hide Utf8.Blank;
  }

  lemma RunsInsertion(l: Lifecycle, session: SessionId)
    requires l.machine.state.Inserting? && l.machine.state.session == session
    ensures var after := Perform(l, Run(InsertionComplete(session)));
            ReplyTo(l, InsertionComplete(session)).Ok? == (|l.events| <= 254)
            && if |l.events| > 254 then after == l
               else Moved(l, after, Completed(session), [StateChanged(CompletedName, session)])
  {
    hide Remember;
  }

  lemma RunsFinish(l: Lifecycle, record: Record)
    ensures Accepts(l, Finish(record)) == (|l.events| != 256)
    ensures |l.events| != 256 ==>
              Perform(l, Finish(record)).machine == l.machine
              && Perform(l, Finish(record)).events == l.events + [SessionFinished(record)]
              && Lookup(Perform(l, Finish(record)).results, record.session) == Some(record)
  {
    RememberedIsFound(l.results, record);
    hide Remember;
    hide Lookup;
  }

  lemma RunsStart(l: Lifecycle, profile: Option<string>)
    ensures var command := Start(StartRequest(Toggle, profile));
            var after := Perform(l, Run(command));
            ReplyTo(l, command).Ok? == (|l.events| <= 254 && !l.machine.state.Active())
            && if |l.events| > 254 || l.machine.state.Active() then after == l
               else Moved(l, after, Preparing(FromCounter(l.machine.nextId), Toggle),
                          [StateChanged(PreparingName, FromCounter(l.machine.nextId))])
  {
    hide FromCounter;
  }

  lemma RunsReady(l: Lifecycle, session: SessionId)
    requires l.machine.state == Preparing(session, Toggle)
    ensures var after := Perform(l, Run(CaptureReady(session)));
            if |l.events| > 254 then after == l
            else Moved(l, after, Listening(session, Toggle), [StateChanged(ListeningName, session)])
  {
  }

  lemma RunsStop(l: Lifecycle, session: SessionId)
    requires l.machine.state.Session() == Some(session)
    ensures var after := Perform(l, Run(Stop(session)));
            ReplyTo(l, Stop(session)).Ok? == (|l.events| <= 254 && l.machine.state.Listening?)
            && if |l.events| > 254 || !l.machine.state.Listening? then after == l
               else Moved(l, after, Finalizing(session), [StateChanged(FinalizingName, session)])
  {
  }

  lemma RunsNoSpeech(l: Lifecycle, session: SessionId)
    requires l.machine.state == Finalizing(session)
    ensures var after := Perform(l, Run(NoSpeech(session)));
            ReplyTo(l, NoSpeech(session)).Ok? == (|l.events| <= 254)
            && if |l.events| > 254 then after == l
               else Moved(l, after, Completed(session),
                          [StateChanged(CompletedName, session),
                           SessionFinished(Record(session, HadNoSpeech, None, "", 0))])
                    && Lookup(after.results, session) == Some(Record(session, HadNoSpeech, None, "", 0))
  {
    RememberedIsFound(l.results, Record(session, HadNoSpeech, None, "", 0));
    hide Remember;
    hide Lookup;
  }

  lemma RunsCancel(l: Lifecycle, session: SessionId)
    requires l.machine.state.Session() == Some(session)
    ensures var after := Perform(l, Run(Cancel(session)));
            ReplyTo(l, Cancel(session)).Ok? == (|l.events| <= 254)
            && if |l.events| > 254 then after == l
               else Moved(l, after, SessionState.Cancelled(session),
                          [StateChanged(CancelledName, session),
                           SessionFinished(Record(session, WasCancelled, None, "", 0))])
                    && Lookup(after.results, session) == Some(Record(session, WasCancelled, None, "", 0))
  {
    RememberedIsFound(l.results, Record(session, WasCancelled, None, "", 0));
    hide Remember;
    hide Lookup;
  }

  lemma RunsReset(l: Lifecycle)
    ensures var after := Perform(l, Run(Reset));
            if |l.events| > 254 || l.machine.state.Active() then after == l
            else Moved(l, after, Idle, [StateChanged(IdleName, "")])
  {
    hide Remember;
  }

  // ----- a result arrives

  /** The job's session is the one in hand, waiting for its transcript. */
  predicate Awaited(d: Desk) {
    d.job.Some? && d.life.machine.state == Finalizing(d.job.value)
  }

  /** What the worker delivered: its result, or that it is gone. */
  function OutcomeOf(received: Received): Result<string, VoxError>
    requires !received.Empty?
  {
    if received.Disconnected? then Err(VoxError(Internal, ErrorCode.WorkerDisconnected, false))
    else if received.result.outcome.Ok? then Ok(received.result.outcome.value.text)
    else Err(received.result.outcome.error)
  }

  /** The desk after its session failed: the lease is gone, and the failure is announced once. */
  predicate FailedWith(d: Desk, after: Desk, session: SessionId, error: VoxError, published: seq<AppEvent>) {
    && after.life.machine.state == SessionState.Failed(session, error)
    && after.job.None? && after.armed.None? && after.history == d.history
    && Lookup(after.life.results, session) == Some(Record(session, WasFailed, Some(error.code), "", 0))
    && after.life.events
       == d.life.events + published
          + [StateChanged(FailedName, session), SessionFinished(Record(session, WasFailed, Some(error.code), "", 0))]
  }

  /** A failed recognition fails its session with its own error and releases the lease, whatever the adapter would have
      answered, exactly when the queue has room for the announcement; otherwise the session is left waiting for a result
      that was already taken. */
  lemma FailedResult(d: Desk, received: Received, answer: Result<string, VoxError>, keep: bool)
    requires Awaited(d) && !received.Empty? && OutcomeOf(received).Err?
    ensures var step := PollStep(d, received, answer, keep);
            && step.entries == (if d.armed.Some? then [Entry.Disarmed(d.armed.value)] else [])
            && step.desk.job.None? && step.desk.armed.None?
            && (|d.life.events| <= 254 ==>
                  FailedWith(d, step.desk, d.job.value, OutcomeOf(received).error, []))
            && (|d.life.events| > 254 ==> step.desk.life == d.life)
  {
    hide Perform;
    hide Lookup;
    hide CompleteStep;
    RunsFail(d.life, d.job.value, OutcomeOf(received).error);
    assert d.life.events + [] == d.life.events;
  }

  /** The desk holds a lease of its own session. */
  predicate Leased(d: Desk) {
    d.job.Some? && d.armed.Some? && d.armed.value.session == d.job.value
  }

  /** A transcript that is not blank is committed once, with the session's own lease, exactly when the queue has room to
      accept it. The session is then completed if the adapter answered so, or failed with its error; but if there was
      room for the transcript only, it stays inserting. */
  lemma TranscriptIsCommitted(d: Desk, received: Received, answer: Result<string, VoxError>, keep: bool)
    requires Awaited(d) && Leased(d) && !received.Empty? && OutcomeOf(received).Ok?
    requires !Utf8.Blank(OutcomeOf(received).value)
    ensures var step := PollStep(d, received, answer, keep);
            var session, text, lease := d.job.value, OutcomeOf(received).value, d.armed.value;
            && step.desk.job.None? && step.desk.armed.None?
            && (|d.life.events| > 254 ==> step.desk.life == d.life && step.entries == [Entry.Disarmed(lease)])
            && (|d.life.events| == 254 ==>
                  step.desk.life.machine.state == Inserting(session, text) && step.desk.history == d.history
                  && step.entries == [Entry.Committed(lease, text), Entry.Disarmed(lease)])
            && (|d.life.events| <= 253 && answer.Err? ==>
                  FailedWith(d, step.desk, session, answer.error, [StateChanged(InsertingName, session)])
                  && step.entries == [Entry.Committed(lease, text), Entry.Disarmed(lease)])
            && (|d.life.events| <= 253 && answer.Ok? ==>
                  && step.entries == [Entry.Committed(lease, text)]
                  && step.desk.life.machine.state == Completed(session)
                  && step.desk.life.events
                     == d.life.events + [StateChanged(InsertingName, session), StateChanged(CompletedName, session),
                                         SessionFinished(Record(session, OtherOutcome("completed"), None, answer.value,
                                                                |text|))]
                  && Lookup(step.desk.life.results, session)
                     == Some(Record(session, OtherOutcome("completed"), None, answer.value, |text|))
                  && Kept(d.history, step.desk.history, text, keep))
  {
    hide Lookup;
    hide Perform;
    hide ReplyTo;
    hide Accepts;
    hide Utf8.Blank;
    var session, text := d.job.value, OutcomeOf(received).value;
    var inserting := Perform(d.life, Run(TranscriptReady(session, text)));
    RunsTranscript(d.life, session, text);
    if |d.life.events| <= 254 {
      RunsInsertion(inserting, session);
      if answer.Err? {
        RunsFail(inserting, session, answer.error);
      } else {
        RunsFinish(Perform(inserting, Run(InsertionComplete(session))), FinishedRecord(session, answer.value, text));
      }
    }
  }

  /** The text is the newest of at most twenty remembered, when remembering is on. */
  predicate Kept(before: seq<string>, after: seq<string>, text: string, keep: bool) {
    if !keep then after == before
    else after != [] && after[|after| - 1] == text
         && (if |before| == 20 then after[..|after| - 1] == before[1..] else after[..|after| - 1] == before)
  }

  /** Without a lease of its own session nothing is committed and the session fails. */
  lemma UnleasedIsNotCommitted(d: Desk, received: Received, answer: Result<string, VoxError>, keep: bool)
    requires Awaited(d) && !Leased(d) && !received.Empty? && OutcomeOf(received).Ok?
    requires !Utf8.Blank(OutcomeOf(received).value) && |d.life.events| <= 253
    ensures var step := PollStep(d, received, answer, keep);
            && FailedWith(d, step.desk, d.job.value,
                          if d.armed.None? then VoxError(InvalidState, DesktopNotArmed, false)
                          else VoxError(InvalidState, DesktopSessionMismatch, false),
                          [StateChanged(InsertingName, d.job.value)])
            && step.entries == (if d.armed.Some? then [Entry.Disarmed(d.armed.value)] else [])
  {
    hide Perform;
    hide Lookup;
    hide ReplyTo;
    hide Accepts;
    hide Utf8.Blank;
    var session, text := d.job.value, OutcomeOf(received).value;
    RunsTranscript(d.life, session, text);
    RunsFail(Perform(d.life, Run(TranscriptReady(session, text))), session,
             if d.armed.None? then NOT_ARMED else SESSION_MISMATCH);
  }

  /** A blank transcript is refused: the lease is released, and the session is left waiting. */
  lemma BlankIsRefused(d: Desk, received: Received, answer: Result<string, VoxError>, keep: bool)
    requires Awaited(d) && !received.Empty? && OutcomeOf(received).Ok? && Utf8.Blank(OutcomeOf(received).value)
    ensures PollStep(d, received, answer, keep)
         == Stepped(d.(job := None, armed := None), if d.armed.Some? then [Entry.Disarmed(d.armed.value)] else [])
  {
    hide Remember;
    hide Utf8.Blank;
  }

  /** A result that comes too late is dropped and touches nothing else. */
  lemma LateIsDropped(d: Desk, received: Received, answer: Result<string, VoxError>, keep: bool)
    requires d.job.Some? && !Awaited(d) && !received.Empty?
    ensures PollStep(d, received, answer, keep) == Stepped(d.(job := None), [])
  {
    hide SettleStep;
  }

  // ----- recording begins

  /** Starting is refused without any effect exactly while recording, without a profile, during an active session or
      without room for an event. */
  lemma StartRefused(d: Desk, profile: Option<string>, arm: Result<string, VoxError>, capture: Option<VoxError>)
    ensures StartStep(d, profile, arm, capture) == Stepped(d, [])
       <==> d.recording || profile.None? || d.life.machine.state.Active() || |d.life.events| > 254
  {
    hide Perform;
    hide ReplyTo;
    hide FromCounter;
    hide Lookup;
    RunsStart(d.life, profile);
    if !d.recording && profile.Some? {
      var started := Perform(d.life, Run(Start(StartRequest(Toggle, profile))));
      var session := FromCounter(d.life.machine.nextId);
      if arm.Err? && |d.life.events| <= 254 && !d.life.machine.state.Active() {
        RunsFail(started, session, arm.error);
      }
    }
  }

  /** An accepted start opens a new session. With room for its second event, it arms a lease of that session and
      listens; if arming or capturing fails, the session fails with that error and no lease is left. */
  lemma StartBegins(d: Desk, profile: string, arm: Result<string, VoxError>, capture: Option<VoxError>)
    requires !d.recording && !d.life.machine.state.Active() && |d.life.events| <= 253 && d.job.None?
    ensures var step := StartStep(d, Some(profile), arm, capture);
            var session := FromCounter(d.life.machine.nextId);
            var begun := [StateChanged(PreparingName, session)];
            match arm
            case Err(error) =>
              step.entries == [] && !step.desk.recording
              && FailedWith(d, step.desk.(armed := None), session, error, begun)
            case Ok(backend) =>
              var lease := InsertionArm(session, backend);
              if capture.Some? then
                step.entries == [Armed(lease), Entry.Disarmed(lease)] && !step.desk.recording
                && FailedWith(d, step.desk, session, capture.value, begun)
              else
                step.entries == [Armed(lease)] && step.desk.armed == Some(lease) && step.desk.recording
                && step.desk.job.None? && step.desk.history == d.history
                && Moved(d.life, step.desk.life, Listening(session, Toggle),
                         begun + [StateChanged(ListeningName, session)])
  {
    hide Perform;
    hide ReplyTo;
    hide FromCounter;
    hide Lookup;
    RunsStart(d.life, Some(profile));
    var started := Perform(d.life, Run(Start(StartRequest(Toggle, Some(profile)))));
    var session := FromCounter(d.life.machine.nextId);
    RunsReady(started, session);
    if arm.Err? {
      RunsFail(started, session, arm.error);
    } else if capture.Some? {
      RunsFail(started, session, capture.value);
    }
  }

  // ----- recording ends

  /** The session in hand is recording, and the request means it. */
  predicate Recording(d: Desk, session: SessionId, requested: string) {
    d.recording && d.life.machine.state == Listening(session, Toggle) && (requested == "" || requested == session)
  }

  /** Stopping is refused without any effect exactly when the request does not mean a listening session, or without room
      for an event. */
  lemma StopRefused(d: Desk, requested: string, stopped: Option<VoxError>, begin: Begin)
    requires d.recording
    ensures StopStep(d, requested, stopped, begin) == Stepped(d, [])
       <==> !d.life.machine.state.Listening? || (requested != "" && requested != d.life.machine.state.session)
            || |d.life.events| > 254
  {
    hide Perform;
    hide ReplyTo;
    hide BeginFailed;
    var session := Addressed(d.life, requested);
    if session.Some? {
      RunsStop(d.life, session.value);
      var silent := d.(life := Perform(d.life, Run(Stop(session.value))), recording := false);
      BeginStops(silent, session.value, begin);
      hide BeginStep;
    }
  }

  lemma BeginStops(d: Desk, session: SessionId, begin: Begin)
    ensures BeginStep(d, session, begin).desk.recording == d.recording
  {
    hide Perform;
    hide ReplyTo;
  }

  /** An accepted stop ends the recording. With room for its announcements it becomes a job that keeps the lease, or the
      session ends: as completed if nothing was said, failed if capturing, routing or starting the work failed. */
  lemma StopEnds(d: Desk, session: SessionId, requested: string, stopped: Option<VoxError>, begin: Begin)
    requires Recording(d, session, requested) && |d.life.events| <= 253 && d.job.None?
    ensures var step := StopStep(d, requested, stopped, begin);
            var ended := [StateChanged(FinalizingName, session)];
            var disarmed := if d.armed.Some? then [Entry.Disarmed(d.armed.value)] else [];
            !step.desk.recording &&
            if stopped.Some? then
              step.entries == [] && step.desk.armed == d.armed
              && FailedWith(d, step.desk.(armed := None), session, stopped.value, ended)
            else match begin
                 case Spawned =>
                   step.entries == [] && step.desk.job == Some(session) && step.desk.armed == d.armed
                   && step.desk.history == d.history && Moved(d.life, step.desk.life, Finalizing(session), ended)
                 case PipelineBroken =>
                   step.entries == disarmed
                   && FailedWith(d, step.desk, session, VoxError(Internal, ErrorCode.PipelineFailed, false), ended)
                 case NoRoute(error) => step.entries == disarmed && FailedWith(d, step.desk, session, error, ended)
                 case _ =>
                   step.entries == disarmed && step.desk.job.None? && step.desk.armed.None?
                   && Moved(d.life, step.desk.life, Completed(session),
                            ended + [StateChanged(CompletedName, session),
                                     SessionFinished(Record(session, HadNoSpeech, None, "", 0))])
  {
    hide Perform;
    hide ReplyTo;
    hide Lookup;
    hide BeginStep;
    RunsStop(d.life, session);
    var finalizing := Perform(d.life, Run(Stop(session)));
    if stopped.Some? {
      RunsFail(finalizing, session, stopped.value);
    } else {
      BeginEnds(d.(life := finalizing, recording := false), session, begin);
    }
  }

  lemma BeginEnds(d: Desk, session: SessionId, begin: Begin)
    requires d.life.machine.state == Finalizing(session) && |d.life.events| <= 254 && d.job.None?
    ensures var step := BeginStep(d, session, begin);
            var disarmed := if d.armed.Some? then [Entry.Disarmed(d.armed.value)] else [];
            step.desk.recording == d.recording && step.desk.history == d.history
            && match begin
               case Spawned => step.entries == [] && step.desk == d.(job := Some(session))
               case PipelineBroken =>
                 step.entries == disarmed
                 && FailedWith(d, step.desk, session, VoxError(Internal, ErrorCode.PipelineFailed, false), [])
               case NoRoute(error) => step.entries == disarmed && FailedWith(d, step.desk, session, error, [])
               case _ =>
                 step.entries == disarmed && step.desk.job.None? && step.desk.armed.None?
                 && Moved(d.life, step.desk.life, Completed(session),
                          [StateChanged(CompletedName, session),
                           SessionFinished(Record(session, HadNoSpeech, None, "", 0))])
  {
    hide Perform;
    hide ReplyTo;
    hide Lookup;
    assert d.life.events + [] == d.life.events;
    match begin {
      case Spawned =>
      case PipelineBroken => RunsFail(d.life, session, PIPELINE_FAILED);
      case NoRoute(error) => RunsFail(d.life, session, error);
      case _ => RunsNoSpeech(d.life, session);
    }
  }

  /** Cancelling is refused without any effect exactly when no session is meant or there is no room for an event;
      otherwise the session is cancelled, its recording, its job and its lease dropped. */
  lemma CancelEnds(d: Desk, requested: string)
    ensures var step := CancelStep(d, requested);
            var state := d.life.machine.state;
            if state.Idle? || (requested != "" && requested != state.session) || |d.life.events| > 254 then
              step == Stepped(d, [])
            else
              && step.entries == [CancelAccepted(state.session)]
                                 + (if d.armed.Some? then [Entry.Disarmed(d.armed.value)] else [])
              && !step.desk.recording && step.desk.job.None? && step.desk.armed.None? && step.desk.history == d.history
              && Moved(d.life, step.desk.life, SessionState.Cancelled(state.session),
                       [StateChanged(CancelledName, state.session),
                        SessionFinished(Record(state.session, WasCancelled, None, "", 0))])
  {
    hide Perform;
    hide ReplyTo;
    hide Lookup;
    if !d.life.machine.state.Idle? {
      RunsCancel(d.life, d.life.machine.state.session);
    }
  }

  // ----- a whole dictation

  /** Nothing is going on. */
  predicate AtRest(d: Desk) {
    !d.recording && d.job.None? && !d.life.machine.state.Active()
  }

  /** Recording, stopping and a transcript that arrives: the text is inserted once, with the lease armed for it, the
      session is completed and its result is remembered, whatever happened before and with room for six events. */
  lemma Dictation(d: Desk, profile: string, backend: string, requested: string, received: Received,
                  answer: string, keep: bool)
    requires AtRest(d) && |d.life.events| <= 250
    requires requested == "" || requested == FromCounter(d.life.machine.nextId)
    requires received.Arrived? && OutcomeOf(received).Ok? && !Utf8.Blank(OutcomeOf(received).value)
    ensures var session, text := FromCounter(d.life.machine.nextId), OutcomeOf(received).value;
            var started := StartStep(d, Some(profile), Ok(backend), None);
            var stopped := StopStep(started.desk, requested, None, Spawned);
            var polled := PollStep(stopped.desk, received, Ok(answer), keep);
            && started.entries + stopped.entries + polled.entries
               == [Armed(InsertionArm(session, backend)), Committed(InsertionArm(session, backend), text)]
            && polled.desk.life.machine.state == Completed(session) && AtRest(polled.desk)
            && Lookup(polled.desk.life.results, session)
               == Some(Record(session, OtherOutcome("completed"), None, answer, |text|))
            && Kept(d.history, polled.desk.history, text, keep)
  {
    hide StartStep;
    hide StopStep;
    hide PollStep;
    hide FromCounter;
    hide Lookup;
    hide Kept;
    hide Utf8.Blank;
    var session := FromCounter(d.life.machine.nextId);
    StartBegins(d, profile, Ok(backend), None);
    var started := StartStep(d, Some(profile), Ok(backend), None).desk;
    StopEnds(started, session, requested, None, Spawned);
    var stopped := StopStep(started, requested, None, Spawned).desk;
    TranscriptIsCommitted(stopped, received, Ok(answer), keep);
    PollStopsNothing(stopped, received, Ok(answer), keep);
  }

  lemma PollStopsNothing(d: Desk, received: Received, answer: Result<string, VoxError>, keep: bool)
    ensures PollStep(d, received, answer, keep).desk.recording == d.recording
  {
    hide Perform;
    hide ReplyTo;
    hide Accepts;
  }

  // ----- where the queue's bound is felt

  /** A session that waits for a result already taken, or for an insertion already made, moves on only when it is
      cancelled: nothing else a caller can ask changes its state or reaches the adapter. */
  lemma OnlyCancellingFrees(d: Desk, request: Request)
    requires d.life.machine.state.Finalizing? || d.life.machine.state.Inserting?
    requires d.job.None? && !d.recording && d.armed.None? && !request.CancelRecording?
    ensures StepOf(d, request).desk.life.machine == d.life.machine && StepOf(d, request).entries == []
  {
    hide FromCounter;
    hide Remember;
    hide SettleStep;
    hide BeginStep;
  }

  /** Repeated attempts to record that no lease can be armed for. */
  function Starts(n: nat, error: VoxError): seq<Request> {
    seq(n, i => StartRecording(Some(""), Err(error), None))
  }

  /** Each of them leaves three events behind. */
  lemma {:induction false} AfterStarts(n: nat, error: VoxError)
    requires n <= 84
    ensures var after := After(Starts(n, error));
            after.entries == [] && AtRest(after.desk) && after.desk.armed.None?
            && |after.desk.life.events| == 1 + 3 * n
  {
    hide StartStep;
    if n > 0 {
      AfterStarts(n - 1, error);
      var before := After(Starts(n - 1, error)).desk;
      assert Starts(n, error)[..n - 1] == Starts(n - 1, error);
      StartBegins(before, "", Err(error), None);
      StartArmsNothing(before, "", error);
      hide FailedWith;
      hide FromCounter;
      FailedRests(before, StartStep(before, Some(""), Err(error), None).desk, FromCounter(before.life.machine.nextId), error,
                  [StateChanged(PreparingName, FromCounter(before.life.machine.nextId))]);
    }
  }

  lemma StartArmsNothing(d: Desk, profile: string, error: VoxError)
    ensures StartStep(d, Some(profile), Err(error), None).desk.armed == d.armed
  {
    hide Perform;
    hide ReplyTo;
  }

  lemma FailedRests(d: Desk, after: Desk, session: SessionId, error: VoxError, published: seq<AppEvent>)
    requires FailedWith(d, after.(armed := None), session, error, published)
    ensures after.job.None? && !after.life.machine.state.Active()
    ensures |after.life.events| == |d.life.events| + |published| + 2
  {
    hide Lookup;
  }

  lemma AfterMore(requests: seq<Request>, request: Request)
    ensures var before, step := After(requests), StepOf(After(requests).desk, request);
            After(requests + [request]) == Stepped(step.desk, before.entries + step.entries)
  {
    hide StepOf;
    assert (requests + [request])[..|requests|] == requests;
  }

  /** A run that leaves 254 events pending while a result is awaited. */
  function Crowded(backend: string, error: VoxError): seq<Request> {
    Starts(82, error) + [StartRecording(Some(""), Ok(backend), None)] + [CancelRecording("")]
    + [StartRecording(Some(""), Ok(backend), None)] + [StopRecording("", None, Spawned)]
  }

  lemma CrowdedAwaits(backend: string, error: VoxError)
    ensures var d := After(Crowded(backend, error)).desk;
            Awaited(d) && Leased(d) && d.armed.value.backend == backend && |d.life.events| == 254
  {
    hide After;
    hide Starts;
    hide StartStep;
    hide StopStep;
    hide CancelStep;
    hide FromCounter;
    hide Lookup;
    AfterStarts(82, error);
    var r0 := Starts(82, error);
    var start, cancel, stop := StartRecording(Some(""), Ok(backend), None), CancelRecording(""),
                               StopRecording("", None, Spawned);
    AfterMore(r0, start);
    StartBegins(After(r0).desk, "", Ok(backend), None);
    AfterMore(r0 + [start], cancel);
    CancelEnds(After(r0 + [start]).desk, "");
    AfterMore(r0 + [start] + [cancel], start);
    var rested := After(r0 + [start] + [cancel]).desk;
    StartBegins(rested, "", Ok(backend), None);
    AfterMore(r0 + [start] + [cancel] + [start], stop);
    StopEnds(After(r0 + [start] + [cancel] + [start]).desk, FromCounter(rested.life.machine.nextId), "", None, Spawned);
  }

  /** The bound is felt in a run that is reached: the text of a dictation is inserted, and its session stays inserting. */
  lemma InsertedButStuck(backend: string, error: VoxError, received: Received, answer: Result<string, VoxError>,
                         keep: bool)
    requires received.Arrived? && OutcomeOf(received).Ok? && !Utf8.Blank(OutcomeOf(received).value)
    ensures var after := After(Crowded(backend, error) + [Poll(received, answer, keep)]);
            var text := OutcomeOf(received).value;
            && after.desk.life.machine.state.Inserting? && after.desk.job.None?
            && Committed(InsertionArm(after.desk.life.machine.state.session, backend), text) in after.entries
  {
    hide After;
    hide Crowded;
    hide PollStep;
    hide FromCounter;
    hide Lookup;
    hide Utf8.Blank;
    CrowdedAwaits(backend, error);
    AfterMore(Crowded(backend, error), Poll(received, answer, keep));
    TranscriptIsCommitted(After(Crowded(backend, error)).desk, received, answer, keep);
  }
}
