/** The desktop daemon's job handling: a recording becomes a recognition job, its
    result a transcript, the transcript one insertion. Capture, the worker and the
    insertion adapter answer through parameters. */
module Daemon {
  import opened Base
  import opened Providers
  import opened CoreSession
  import opened AppLifecycle
  import opened ProviderLedger
  import AppController
  import Routing

  const MAX_HISTORY := 20

  datatype InsertionArm = InsertionArm(session: SessionId, backend: string)

  /** The calls made to the insertion adapter, with the accepted cancellations between them. */
  datatype Entry =
    | Armed(arm: InsertionArm)
    | Committed(arm: InsertionArm, text: string)
    | Disarmed(arm: InsertionArm)
    | CancelAccepted(session: SessionId)

  datatype Desk = Desk(life: Lifecycle, recording: bool, job: Option<SessionId>, armed: Option<InsertionArm>,
                       history: seq<string>)

  datatype Stepped = Stepped(desk: Desk, entries: seq<Entry>)

  /** How a stopped recording goes on. */
  datatype Begin =
    | TooShort
    | NoSpeechFound
    | PipelineBroken
    | NoRoute(error: VoxError)
    | Spawned

  /** What a worker's channel holds when it is polled. */
  datatype Received = Empty | Disconnected | Arrived(result: Routing.RouteResult)

  const PIPELINE_FAILED := VoxError(Internal, ErrorCode.PipelineFailed, false)
  const NOT_ARMED := VoxError(InvalidState, DesktopNotArmed, false)
  const SESSION_MISMATCH := VoxError(InvalidState, DesktopSessionMismatch, false)
  const DISCONNECTED :=
    Routing.RouteResult([], Err(VoxError(Internal, ErrorCode.WorkerDisconnected, false)))

  function Disarm(armed: Option<InsertionArm>): seq<Entry> {
    if armed.Some? then [Entry.Disarmed(armed.value)] else []
  }

  // ----- steps on values

  function StartStep(d: Desk, profile: Option<string>, arm: Result<string, VoxError>, capture: Option<VoxError>): Stepped {
    if d.recording || profile.None? then Stepped(d, [])
    else
      var command := Start(StartRequest(Toggle, profile));
      if ReplyTo(d.life, command).Err? then Stepped(d, [])
      else
        var session := FromCounter(d.life.machine.nextId);
        var started := d.(life := Perform(d.life, Run(command)));
        match arm
        case Err(error) => Stepped(started.(life := Perform(started.life, Run(Fail(session, error)))), [])
        case Ok(backend) =>
          var lease := InsertionArm(session, backend);
          if capture.Some? then
            Stepped(started.(life := Perform(started.life, Run(Fail(session, capture.value))), armed := None),
                    [Armed(lease), Entry.Disarmed(lease)])
          else
            Stepped(started.(life := Perform(started.life, Run(CaptureReady(session))), recording := true,
                             armed := Some(lease)), [Armed(lease)])
  }

  /** The session a request addresses: the one in hand, which it may leave unnamed. */
  function Addressed(life: Lifecycle, requested: string): Option<SessionId> {
    var state := life.machine.state;
    if state.Idle? || (requested != "" && requested != state.session) then None else Some(state.session)
  }

  function FailNonterminal(life: Lifecycle, session: SessionId): Lifecycle {
    var state := life.machine.state;
    if state.Active() && state.session == session then Perform(life, Run(Fail(session, PIPELINE_FAILED))) else life
  }

  function BeginStep(d: Desk, session: SessionId, begin: Begin): Stepped {
    match begin
    case Spawned => Stepped(d.(job := Some(session)), [])
    case PipelineBroken => BeginFailed(d, session, [])
    case NoRoute(error) => BeginFailed(d.(life := Perform(d.life, Run(Fail(session, error)))), session, [])
    case _ =>
      if ReplyTo(d.life, NoSpeech(session)).Err? then BeginFailed(d, session, Disarm(d.armed))
      else Stepped(Unarmed(d.(life := Perform(d.life, Run(NoSpeech(session))))), Disarm(d.armed))
  }

  function BeginFailed(d: Desk, session: SessionId, before: seq<Entry>): Stepped {
    Stepped(Unarmed(d.(life := FailNonterminal(d.life, session))), before + Disarm(d.armed))
  }

  /** Without a job nothing will be inserted, so the lease is dropped. */
  function Unarmed(d: Desk): Desk {
    if d.job.None? then d.(armed := None) else d
  }

  function StopStep(d: Desk, requested: string, stopped: Option<VoxError>, begin: Begin): Stepped {
    var session := Addressed(d.life, requested);
    if session.None? || ReplyTo(d.life, Stop(session.value)).Err? then Stepped(d, [])
    else
      var finalizing := d.(life := Perform(d.life, Run(Stop(session.value))));
      if !d.recording then Stepped(finalizing, [])
      else
        var silent := finalizing.(recording := false);
        if stopped.Some? then Stepped(silent.(life := Perform(silent.life, Run(Fail(session.value, stopped.value)))), [])
        else BeginStep(silent, session.value, begin)
  }

  function CancelStep(d: Desk, requested: string): Stepped {
    var session := Addressed(d.life, requested);
    if session.None? || ReplyTo(d.life, Cancel(session.value)).Err? then Stepped(d, [])
    else
      Stepped(Desk(Perform(d.life, Run(Cancel(session.value))), false, None, None, d.history),
              [CancelAccepted(session.value)] + Disarm(d.armed))
  }

  predicate IsCurrent(life: Lifecycle, session: SessionId) {
    life.machine.state.Finalizing? && life.machine.state.session == session
  }

  function Inserted(d: Desk, session: SessionId, text: string, answer: Result<string, VoxError>): Result<string, VoxError> {
    if d.armed.None? then Err(NOT_ARMED)
    else if d.armed.value.session != session then Err(SESSION_MISMATCH)
    else answer
  }

  /** The adapter is asked only with the session's own lease. */
  function Commits(d: Desk, session: SessionId, text: string): seq<Entry> {
    if d.armed.Some? && d.armed.value.session == session then [Entry.Committed(d.armed.value, text)] else []
  }

  datatype Settled = Settled(desk: Desk, entries: seq<Entry>, ok: bool)

  function Remembered(history: seq<string>, text: string, enabled: bool): seq<string> {
    if !enabled then history else (if |history| == MAX_HISTORY then history[1..] else history) + [text]
  }

  function FinishedRecord(session: SessionId, backend: string, text: string): Record {
    Record(session, OtherOutcome("completed"), None, backend, |text|)
  }

  function CompleteStep(d: Desk, session: SessionId, text: string, answer: Result<string, VoxError>, keep: bool): Settled {
    if ReplyTo(d.life, TranscriptReady(session, text)).Err? then Settled(d, [], false)
    else
      var inserting := d.(life := Perform(d.life, Run(TranscriptReady(session, text))));
      var result := Inserted(d, session, text, answer);
      var calls := Commits(d, session, text);
      if result.Err? then
        Settled(inserting.(life := Perform(inserting.life, Run(Fail(session, result.error)))), calls, false)
      else if ReplyTo(inserting.life, InsertionComplete(session)).Err? then Settled(inserting, calls, false)
      else
        var completed := inserting.(life := Perform(inserting.life, Run(InsertionComplete(session))));
        var record := FinishedRecord(session, result.value, text);
        if !Accepts(completed.life, Finish(record)) then Settled(completed, calls, false)
        else
          Settled(completed.(life := Perform(completed.life, Finish(record)), history := Remembered(d.history, text, keep)),
                  calls, true)
  }

  function SettleStep(d: Desk, session: SessionId, result: Routing.RouteResult, answer: Result<string, VoxError>,
                      keep: bool): Settled
  {
    match result.outcome
    case Ok(success) => CompleteStep(d, session, success.text, answer, keep)
    case Err(error) => Settled(d.(life := Perform(d.life, Run(Fail(session, error)))), [], false)
  }

  function PollStep(d: Desk, received: Received, answer: Result<string, VoxError>, keep: bool): Stepped {
    if d.job.None? || received.Empty? then Stepped(d, [])
    else
      var taken := d.(job := None);
      if !IsCurrent(d.life, d.job.value) then Stepped(taken, [])
      else
        var result := if received.Arrived? then received.result else DISCONNECTED;
        var settled := SettleStep(taken, d.job.value, result, answer, keep);
        Stepped(settled.desk.(armed := None), settled.entries + if settled.ok then [] else Disarm(d.armed))
  }

  // ----- the daemon object

  class VoxTypeDaemon {
    const app: AppController.AppController
    const historyEnabled: bool
    var recording: bool
    var recognitionJob: Option<SessionId>
    var armedInsertion: Option<InsertionArm>
    var transcriptHistory: seq<string>
    ghost var entries: seq<Entry>

    function View(): Desk
      reads this, app, app.machine
    {
      Desk(app.Life(), recording, recognitionJob, armedInsertion, transcriptHistory)
    }

    constructor (registry: set<Routing.ProviderId>, historyEnabled: bool)
      ensures fresh(app) && fresh(app.machine) && entries == []
      ensures View() == Desk(INITIAL_LIFECYCLE, false, None, None, [])
    {
      this.historyEnabled := historyEnabled;
      app := new AppController.AppController(registry);
      recording, recognitionJob, armedInsertion, transcriptHistory := false, None, None, [];
      entries := [];
    }

    method CancelArmed()
      modifies this`entries
      ensures entries == old(entries) + Disarm(armedInsertion)
    {
      if armedInsertion.Some? {
        entries := entries + [Entry.Disarmed(armedInsertion.value)];
      }
    }

    method Start(profile: Option<string>, arm: Result<string, VoxError>, capture: Option<VoxError>)
      returns (r: Option<SessionId>)
      modifies this, app, app.machine
      ensures var s := StartStep(old(View()), profile, arm, capture);
              View() == s.desk && entries == old(entries) + s.entries
      ensures app.Ledger() == old(app.Ledger())
    {
      hide Perform;
      hide FromCounter;
      hide ReplyTo;
      if recording || profile.None? {
        return None;
      }
      ghost var before := app.Life();
      BeginsCapture(before, StartRequest(Toggle, profile));
      var effect := app.Apply(CoreSession.Start(StartRequest(Toggle, profile)));
      if effect.Err? {
        RefusedChangesNothing(before, CoreSession.Start(StartRequest(Toggle, profile)));
        return None;
      }
      var session := effect.value.session;
      if arm.Err? {
        var _ := app.Apply(Fail(session, arm.error));
        return None;
      }
      var lease := InsertionArm(session, arm.value);
      armedInsertion := Some(lease);
      entries := entries + [Armed(lease)];
      if capture.Some? {
        CancelArmed();
        armedInsertion := None;
        var _ := app.Apply(Fail(session, capture.value));
        return None;
      }
      recording := true;
      var ready := app.Apply(CaptureReady(session));
      return if ready.Err? then None else Some(session);
    }

    method BeginRecognition(session: SessionId, begin: Begin) returns (ok: bool)
      modifies this, app, app.machine
      ensures var s := BeginStep(old(View()), session, begin);
              View() == s.desk && entries == old(entries) + s.entries
      ensures app.Ledger() == old(app.Ledger())
    {
      hide Perform;
      hide ReplyTo;
      hide FailNonterminal;
      ghost var before := app.Life();
      match begin {
        case Spawned =>
          recognitionJob := Some(session);
          return true;
        case PipelineBroken =>
          ok := false;
        case NoRoute(error) =>
          var _ := app.Apply(Fail(session, error));
          ok := false;
        case _ =>
          CancelArmed();
          var effect := app.Apply(NoSpeech(session));
          RefusedChangesNothing(before, NoSpeech(session));
          ok := effect.Ok?;
      }
      if !ok {
        FailNonterminalSession(session);
        CancelArmed();
      }
      if recognitionJob.None? {
        armedInsertion := None;
      }
    }

    method FailNonterminalSession(session: SessionId)
      modifies app`events, app`sessionResults, app.machine
      ensures app.Life() == FailNonterminal(old(app.Life()), session)
    {
      hide Perform;
      var state := app.machine.state;
      if state.Active() && state.session == session {
        var _ := app.Apply(Fail(session, PIPELINE_FAILED));
      }
    }

    method Stop(requested: string, stopped: Option<VoxError>, begin: Begin) returns (ok: bool)
      modifies this, app, app.machine
      ensures var s := StopStep(old(View()), requested, stopped, begin);
              View() == s.desk && entries == old(entries) + s.entries
      ensures app.Ledger() == old(app.Ledger())
    {
      hide Perform;
      hide ReplyTo;
      hide BeginStep;
      var active := Addressed(app.Life(), requested);
      if active.None? {
        return false;
      }
      var session := active.value;
      RefusedChangesNothing(app.Life(), CoreSession.Stop(session));
      var effect := app.Apply(CoreSession.Stop(session));
      if effect.Err? {
        return false;
      }
      if !recording {
        return false;
      }
      recording := false;
      if stopped.Some? {
        var _ := app.Apply(Fail(session, stopped.value));
        return false;
      }
      ok := BeginRecognition(session, begin);
    }

    method Cancel(requested: string) returns (ok: bool)
      modifies this, app, app.machine
      ensures var s := CancelStep(old(View()), requested);
              View() == s.desk && entries == old(entries) + s.entries
      ensures app.Ledger() == old(app.Ledger())
    {
      hide Perform;
      hide ReplyTo;
      var active := Addressed(app.Life(), requested);
      if active.None? {
        return false;
      }
      var session := active.value;
      RefusedChangesNothing(app.Life(), CoreSession.Cancel(session));
      var effect := app.Apply(CoreSession.Cancel(session));
      if effect.Err? {
        return false;
      }
      entries := entries + [CancelAccepted(session)];
      recording := false;
      recognitionJob := None;
      CancelArmed();
      armedInsertion := None;
      return true;
    }

    method InsertText(session: SessionId, text: string, answer: Result<string, VoxError>) returns (r: Result<string, VoxError>)
      modifies this`entries
      ensures r == Inserted(View(), session, text, answer)
      ensures entries == old(entries) + Commits(View(), session, text)
    {
      if armedInsertion.None? {
        return Err(NOT_ARMED);
      }
      if armedInsertion.value.session != session {
        return Err(SESSION_MISMATCH);
      }
      entries := entries + [Entry.Committed(armedInsertion.value, text)];
      return answer;
    }

    method CompleteRecognition(session: SessionId, text: string, answer: Result<string, VoxError>) returns (ok: bool)
      modifies this, app`events, app`sessionResults, app.machine
      ensures var s := CompleteStep(old(View()), session, text, answer, historyEnabled);
              View() == s.desk && entries == old(entries) + s.entries && ok == s.ok
    {
      hide Perform;
      hide ReplyTo;
      hide Accepts;
      RefusedChangesNothing(app.Life(), TranscriptReady(session, text));
      var effect := app.Apply(TranscriptReady(session, text));
      if effect.Err? {
        return false;
      }
      var insertion := InsertText(session, text, answer);
      if insertion.Err? {
        var _ := app.Apply(Fail(session, insertion.error));
        return false;
      }
      RefusedChangesNothing(app.Life(), InsertionComplete(session));
      var complete := app.Apply(InsertionComplete(session));
      if complete.Err? {
        return false;
      }
      RefusedFinishChangesNothing(app.Life(), FinishedRecord(session, insertion.value, text));
      var finished := app.FinishSession(FinishedRecord(session, insertion.value, text));
      if !finished {
        return false;
      }
      transcriptHistory := Remembered(transcriptHistory, text, historyEnabled);
      return true;
    }

    /** Applies a completed recognition result, if one is ready; late results are dropped. */
    method PollRecognition(received: Received, answer: Result<string, VoxError>, audioMillis: nat, now: Instant)
      returns (polled: bool)
      modifies this, app, app.machine
      ensures var s := PollStep(old(View()), received, answer, historyEnabled);
              View() == s.desk && entries == old(entries) + s.entries
      ensures polled <==> old(recognitionJob).Some? && !received.Empty?
      ensures app.Ledger()
           == if polled && IsCurrent(old(app.Life()), old(recognitionJob).value) then
                Book(old(app.Ledger()), Routed(if received.Arrived? then received.result else DISCONNECTED, audioMillis, now))
              else old(app.Ledger())
    {
      hide Perform;
      hide CompleteStep;
      hide Book;
      if recognitionJob.None? || received.Empty? {
        return false;
      }
      var result := if received.Arrived? then received.result else DISCONNECTED;
      var session := recognitionJob.value;
      recognitionJob := None;
      if !IsCurrent(app.Life(), session) {
        return true;
      }
      app.RecordRouteResult(result, audioMillis, now);
      var ok := false;
      if result.outcome.Ok? {
        CompletionKeepsLease(View(), session, result.outcome.value.text, answer, historyEnabled);
        ok := CompleteRecognition(session, result.outcome.value.text, answer);
      } else {
        var _ := app.Apply(Fail(session, result.outcome.error));
      }
      if !ok {
        CancelArmed();
      }
      armedInsertion := None;
      return true;
    }
  }

  lemma RefusedChangesNothing(life: Lifecycle, command: Command)
    ensures ReplyTo(life, command).Err? ==> Perform(life, Run(command)) == life
  {
    hide Transition;
  }

  lemma RefusedFinishChangesNothing(life: Lifecycle, record: Record)
    ensures !Accepts(life, Finish(record)) ==> Perform(life, Finish(record)) == life
  {
  }

  lemma CompletionKeepsLease(d: Desk, session: SessionId, text: string, answer: Result<string, VoxError>, keep: bool)
    ensures CompleteStep(d, session, text, answer, keep).desk.armed == d.armed
  {
    hide Perform;
    hide ReplyTo;
  }

  lemma BeginsCapture(life: Lifecycle, request: StartRequest)
    ensures ReplyTo(life, Start(request)).Ok? ==>
              ReplyTo(life, Start(request)).value == BeginCapture(FromCounter(life.machine.nextId), request)
  {
    hide FromCounter;
  }
}
