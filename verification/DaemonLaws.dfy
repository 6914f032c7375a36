/** What the daemon keeps over every interleaving of requests and late worker results. */
module DaemonLaws {
  import opened Base
  import opened Providers
  import opened CoreSession
  import opened AppLifecycle
  import opened Daemon
  import Routing
  import Utf8

  datatype Request =
    | StartRecording(profile: Option<string>, arm: Result<string, VoxError>, capture: Option<VoxError>)
    | StopRecording(session: string, stopped: Option<VoxError>, begin: Begin)
    | CancelRecording(session: string)
    | Poll(received: Received, answer: Result<string, VoxError>, keep: bool)
    | ResetSession
    | DrainQueue

  function StepOf(d: Desk, request: Request): Stepped {
    match request
    case StartRecording(profile, arm, capture) => StartStep(d, profile, arm, capture)
    case StopRecording(session, stopped, begin) => StopStep(d, session, stopped, begin)
    case CancelRecording(session) => CancelStep(d, session)
    case Poll(received, answer, keep) => PollStep(d, received, answer, keep)
    case ResetSession => Stepped(d.(life := Perform(d.life, Run(Reset))), [])
    case DrainQueue => Stepped(d.(life := Perform(d.life, Drain)), [])
  }

  const INITIAL_DESK := Desk(INITIAL_LIFECYCLE, false, None, None, [])

  /** The desk after a run, with everything that happened at the insertion adapter. */
  function After(requests: seq<Request>): Stepped {
    if requests == [] then Stepped(INITIAL_DESK, [])
    else
      var before := After(requests[..|requests| - 1]);
      var step := StepOf(before.desk, requests[|requests| - 1]);
      Stepped(step.desk, before.entries + step.entries)
  }

  // ----- sessions that are over

  /** A session that may still reach its insertion. */
  predicate Early(state: SessionState, session: SessionId) {
    (state.Preparing? || state.Listening? || state.Finalizing?) && state.session == session
  }

  /** A numbered session that can never come back to where insertion starts. */
  ghost predicate Retired(m: Machine, session: SessionId) {
    !Early(m.state, session) && exists k: nat :: k < m.nextId && session == FromCounter(k)
  }

  lemma RetiredStays(m: Machine, command: Command, session: SessionId)
    requires Retired(m, session)
    ensures Retired(Next(m, command), session)
  {
    hide FromCounter;
    hide Utf8.Blank;
    var k: nat :| k < m.nextId && session == FromCounter(k);
    if command.Start? && !m.state.Active() && session == FromCounter(m.nextId) {
      FromCounterInjective(k, m.nextId);
    }
  }

  lemma CancelRetires(m: Machine, session: SessionId)
    requires Numbered(m) && Reply(m, Cancel(session)).Ok?
    ensures Retired(Next(m, Cancel(session)), session)
  {
    hide FromCounter;
  }

  lemma TranscriptRetires(m: Machine, session: SessionId, text: string)
    requires Numbered(m) && Reply(m, TranscriptReady(session, text)).Ok?
    ensures Retired(Next(m, TranscriptReady(session, text)), session)
    ensures Early(m.state, session) && !Utf8.Blank(text)
  {
    hide FromCounter;
    hide Utf8.Blank;
  }

  // ----- lifecycles that go on

  /** From one lifecycle to a later one: numbering kept, retired sessions still retired. */
  ghost predicate GoesOn(a: Lifecycle, b: Lifecycle) {
    && (Numbered(a.machine) ==> Numbered(b.machine))
    && forall s :: Retired(a.machine, s) ==> Retired(b.machine, s)
  }

  lemma PerformGoesOn(l: Lifecycle, op: Operation)
    ensures GoesOn(l, Perform(l, op))
  {
    hide Next;
    hide Numbered;
    hide Retired;
    if op.Run? {
      if Numbered(l.machine) {
        ApplyKeepsNumbered(l.machine, op.command);
      }
      forall s | Retired(l.machine, s) ensures Retired(Next(l.machine, op.command), s) {
        RetiredStays(l.machine, op.command, s);
      }
    }
  }

  lemma GoesOnAndOn(a: Lifecycle, b: Lifecycle, c: Lifecycle)
    requires GoesOn(a, b) && GoesOn(b, c)
    ensures GoesOn(a, c)
  {
  }

  lemma AcceptedRuns(l: Lifecycle, command: Command)
    requires ReplyTo(l, command).Ok?
    ensures Reply(l.machine, command).Ok? && Perform(l, Run(command)).machine == Next(l.machine, command)
  {
    hide Transition;
    hide Remember;
  }

  // ----- one step

  /** What one step may do at the insertion adapter. */
  ghost predicate Orderly(d: Desk, step: Stepped) {
    && GoesOn(d.life, step.desk.life)
    && (forall i :: 0 <= i < |step.entries| ==>
          match step.entries[i]
          case Armed(arm) => true
          case Disarmed(arm) => d.armed == Some(arm) || Armed(arm) in step.entries
          case CancelAccepted(s) => Retired(step.desk.life.machine, s)
          case Committed(arm, text) =>
            d.armed == Some(arm) && Early(d.life.machine.state, arm.session) && !Utf8.Blank(text)
            && Retired(step.desk.life.machine, arm.session))
    && (forall j :: 0 < j < |step.entries| ==> !step.entries[j].Committed?)
    && (step.desk.armed.Some? ==> d.armed == step.desk.armed || Armed(step.desk.armed.value) in step.entries)
  }

  lemma StartIsOrderly(d: Desk, profile: Option<string>, arm: Result<string, VoxError>, capture: Option<VoxError>)
    ensures Orderly(d, StartStep(d, profile, arm, capture))
  {
    hide Perform;
    hide GoesOn;
    hide Retired;
    hide FromCounter;
    hide ReplyTo;
    var step := StartStep(d, profile, arm, capture);
    SameGoesOn(d.life);
    if !d.recording && profile.Some? {
      var command := Start(StartRequest(Toggle, profile));
      var session := FromCounter(d.life.machine.nextId);
      var started := Perform(d.life, Run(command));
      PerformGoesOn(d.life, Run(command));
      var last := if arm.Err? then Fail(session, arm.error) else if capture.Some? then Fail(session, capture.value)
                  else CaptureReady(session);
      PerformGoesOn(started, Run(last));
      GoesOnAndOn(d.life, started, Perform(started, Run(last)));
      if arm.Ok? && step.entries != [] {
        assert step.entries[0] == Armed(InsertionArm(session, arm.value));
      }
    }
  }

  lemma SameGoesOn(l: Lifecycle)
    ensures GoesOn(l, l)
  {
  }

  lemma FailNonterminalGoesOn(l: Lifecycle, session: SessionId)
    ensures GoesOn(l, FailNonterminal(l, session))
  {
    hide Perform;
    hide GoesOn;
    SameGoesOn(l);
    PerformGoesOn(l, Run(Fail(session, PIPELINE_FAILED)));
  }

  /** Steps that only move the machine, drop the lease and disarm it. */
  ghost predicate OnlyDisarms(d: Desk, step: Stepped) {
    && GoesOn(d.life, step.desk.life)
    && (forall i :: 0 <= i < |step.entries| ==> step.entries[i].Disarmed? && d.armed == Some(step.entries[i].arm))
    && (step.desk.armed == d.armed || step.desk.armed.None?)
  }

  lemma DisarmingIsOrderly(d: Desk, step: Stepped)
    requires OnlyDisarms(d, step)
    ensures Orderly(d, step)
  {
    hide GoesOn;
    hide Retired;
  }

  lemma BeginOnlyDisarms(d: Desk, session: SessionId, begin: Begin)
    ensures OnlyDisarms(d, BeginStep(d, session, begin))
  {
    hide Perform;
    hide GoesOn;
    hide ReplyTo;
    hide FailNonterminal;
    SameGoesOn(d.life);
    FailNonterminalGoesOn(d.life, session);
    PerformGoesOn(d.life, Run(NoSpeech(session)));
    if begin.NoRoute? {
      var failed := Perform(d.life, Run(Fail(session, begin.error)));
      PerformGoesOn(d.life, Run(Fail(session, begin.error)));
      FailNonterminalGoesOn(failed, session);
      GoesOnAndOn(d.life, failed, FailNonterminal(failed, session));
    }
  }

  lemma StopOnlyDisarms(d: Desk, requested: string, stopped: Option<VoxError>, begin: Begin)
    ensures OnlyDisarms(d, StopStep(d, requested, stopped, begin))
  {
    hide Perform;
    hide GoesOn;
    hide ReplyTo;
    hide BeginStep;
    SameGoesOn(d.life);
    var session := Addressed(d.life, requested);
    if session.Some? {
      var l := Perform(d.life, Run(Stop(session.value)));
      PerformGoesOn(d.life, Run(Stop(session.value)));
      if stopped.Some? {
        PerformGoesOn(l, Run(Fail(session.value, stopped.value)));
        GoesOnAndOn(d.life, l, Perform(l, Run(Fail(session.value, stopped.value))));
      } else {
        var silent := d.(life := l, recording := false);
        BeginOnlyDisarms(silent, session.value, begin);
        GoesOnAndOn(d.life, l, BeginStep(silent, session.value, begin).desk.life);
      }
    }
  }

  lemma CancelIsOrderly(d: Desk, requested: string)
    requires Numbered(d.life.machine)
    ensures Orderly(d, CancelStep(d, requested))
  {
    hide Perform;
    hide GoesOn;
    hide Retired;
    hide ReplyTo;
    hide Numbered;
    SameGoesOn(d.life);
    var session := Addressed(d.life, requested);
    if session.Some? && ReplyTo(d.life, Cancel(session.value)).Ok? {
      PerformGoesOn(d.life, Run(Cancel(session.value)));
      AcceptedRuns(d.life, Cancel(session.value));
      CancelRetires(d.life.machine, session.value);
    }
  }

  /** Completing a recognition: at most one call, with the session's own lease, after its transcript was accepted. */
  ghost predicate OneCommit(d: Desk, s: Settled, session: SessionId, text: string) {
    && GoesOn(d.life, s.desk.life) && s.desk.armed == d.armed
    && (s.entries == [] || (s.entries == Commits(d, session, text) && Early(d.life.machine.state, session)
                            && !Utf8.Blank(text) && Retired(s.desk.life.machine, session)))
  }

  lemma CompletionIsOneCommit(d: Desk, session: SessionId, text: string, answer: Result<string, VoxError>, keep: bool)
    requires Numbered(d.life.machine)
    ensures OneCommit(d, CompleteStep(d, session, text, answer, keep), session, text)
  {
    hide Perform;
    hide Retired;
    hide ReplyTo;
    hide Accepts;
    hide Commits;
    hide Inserted;
    hide Early;
    hide Numbered;
    var s := CompleteStep(d, session, text, answer, keep);
    SameGoesOn(d.life);
    if ReplyTo(d.life, TranscriptReady(session, text)).Ok? {
      var inserting := Perform(d.life, Run(TranscriptReady(session, text)));
      PerformGoesOn(d.life, Run(TranscriptReady(session, text)));
      AcceptedRuns(d.life, TranscriptReady(session, text));
      TranscriptRetires(d.life.machine, session, text);
      InsertionGoesOn(d, inserting, session, text, answer, keep);
      hide CompleteStep;
    }
  }

  lemma InsertionGoesOn(d: Desk, inserting: Lifecycle, session: SessionId, text: string,
                        answer: Result<string, VoxError>, keep: bool)
    requires ReplyTo(d.life, TranscriptReady(session, text)).Ok?
    requires inserting == Perform(d.life, Run(TranscriptReady(session, text))) && GoesOn(d.life, inserting)
    ensures var s := CompleteStep(d, session, text, answer, keep);
            GoesOn(inserting, s.desk.life) && GoesOn(d.life, s.desk.life) && s.desk.armed == d.armed
            && s.entries == Commits(d, session, text)
  {
    hide Perform;
    hide GoesOn;
    hide ReplyTo;
    hide Accepts;
    hide Commits;
    hide Inserted;
    SameGoesOn(inserting);
    var result := Inserted(d, session, text, answer);
    var after := CompleteStep(d, session, text, answer, keep).desk.life;
    if result.Err? {
      PerformGoesOn(inserting, Run(Fail(session, result.error)));
    } else {
      var completed := Perform(inserting, Run(InsertionComplete(session)));
      var record := FinishedRecord(session, result.value, text);
      PerformGoesOn(inserting, Run(InsertionComplete(session)));
      PerformGoesOn(completed, Finish(record));
      GoesOnAndOn(inserting, completed, Perform(completed, Finish(record)));
    }
    GoesOnAndOn(d.life, inserting, after);
  }

  lemma CommitIsOrderly(d: Desk, session: SessionId, text: string, s: Settled)
    requires OneCommit(d, s, session, text)
    ensures Orderly(d, Stepped(s.desk.(armed := None), s.entries + if s.ok then [] else Disarm(d.armed)))
  {
    hide GoesOn;
    hide Retired;
    hide Early;
    hide Utf8.Blank;
  }

  lemma OrderlyWithJob(d: Desk, step: Stepped, job: Option<SessionId>)
    requires Orderly(d.(job := job), step)
    ensures Orderly(d, step)
  {
    hide GoesOn;
    hide Retired;
    hide Early;
    hide Utf8.Blank;
  }

  lemma PollIsOrderly(d: Desk, received: Received, answer: Result<string, VoxError>, keep: bool)
    requires Numbered(d.life.machine)
    ensures Orderly(d, PollStep(d, received, answer, keep))
  {
    hide Perform;
    hide CompleteStep;
    hide Numbered;
    var step := PollStep(d, received, answer, keep);
    if d.job.Some? && !received.Empty? && IsCurrent(d.life, d.job.value) {
      var result := if received.Arrived? then received.result else DISCONNECTED;
      var taken := d.(job := None);
      hide Orderly;
      if result.outcome.Ok? {
        CompletionIsOneCommit(taken, d.job.value, result.outcome.value.text, answer, keep);
        CommitIsOrderly(taken, d.job.value, result.outcome.value.text,
                        CompleteStep(taken, d.job.value, result.outcome.value.text, answer, keep));
        OrderlyWithJob(d, step, None);
      } else {
        PerformGoesOn(d.life, Run(Fail(d.job.value, result.outcome.error)));
        hide GoesOn;
        DisarmingIsOrderly(d, step);
      }
    } else {
      SameGoesOn(d.life);
      hide GoesOn;
      DisarmingIsOrderly(d, step);
    }
  }

  lemma StepIsOrderly(d: Desk, request: Request)
    requires Numbered(d.life.machine)
    ensures Orderly(d, StepOf(d, request))
  {
    hide Numbered;
    match request {
      case StartRecording(profile, arm, capture) =>
        StartIsOrderly(d, profile, arm, capture);
      case StopRecording(session, stopped, begin) =>
        StopOnlyDisarms(d, session, stopped, begin);
        DisarmingIsOrderly(d, StopStep(d, session, stopped, begin));
      case CancelRecording(session) =>
        CancelIsOrderly(d, session);
      case Poll(received, answer, keep) =>
        PollIsOrderly(d, received, answer, keep);
      case ResetSession =>
        PerformGoesOn(d.life, Run(Reset));
        DisarmingIsOrderly(d, StepOf(d, request));
      case DrainQueue =>
        PerformGoesOn(d.life, Drain);
        DisarmingIsOrderly(d, StepOf(d, request));
    }
  }

  // ----- runs

  /** The session an entry puts an end to. */
  function Ends(e: Entry): Option<SessionId> {
    match e
    case Committed(arm, _) => Some(arm.session)
    case CancelAccepted(session) => Some(session)
    case _ => None
  }

  /** Commits come after their own lease, carry text, and no commit or accepted cancellation of the same session
      comes before. */
  ghost predicate CommitsAreSafe(entries: seq<Entry>) {
    forall j :: 0 <= j < |entries| && entries[j].Committed? ==>
      && !Utf8.Blank(entries[j].text)
      && Armed(entries[j].arm) in entries[..j]
      && forall i :: 0 <= i < j ==> Ends(entries[i]) != Some(entries[j].arm.session)
  }

  ghost predicate Consistent(after: Stepped) {
    && Numbered(after.desk.life.machine)
    && (after.desk.armed.Some? ==> Armed(after.desk.armed.value) in after.entries)
    && (forall i :: 0 <= i < |after.entries| && Ends(after.entries[i]).Some? ==>
          Retired(after.desk.life.machine, Ends(after.entries[i]).value))
    && CommitsAreSafe(after.entries)
  }

  lemma StepKeepsConsistent(after: Stepped, request: Request)
    requires Consistent(after)
    ensures var step := StepOf(after.desk, request);
            Consistent(Stepped(step.desk, after.entries + step.entries))
  {
    hide StepOf;
    StepIsOrderly(after.desk, request);
    var step := StepOf(after.desk, request);
    hide Numbered;
    hide Retired;
    hide Early;
    CommitsStaySafe(after, step);
    var entries := after.entries + step.entries;
    forall i | 0 <= i < |entries| && Ends(entries[i]).Some?
      ensures Retired(step.desk.life.machine, Ends(entries[i]).value) {
      if i >= |after.entries| {
        assert entries[i] == step.entries[i - |after.entries|];
      }
    }
  }

  lemma CommitsStaySafe(after: Stepped, step: Stepped)
    requires Consistent(after) && Orderly(after.desk, step)
    ensures CommitsAreSafe(after.entries + step.entries)
  {
    hide Numbered;
    hide GoesOn;
    var n := |after.entries|;
    var entries := after.entries + step.entries;
    forall j | 0 <= j < |entries| && entries[j].Committed?
      ensures !Utf8.Blank(entries[j].text) && Armed(entries[j].arm) in entries[..j]
      ensures forall i :: 0 <= i < j ==> Ends(entries[i]) != Some(entries[j].arm.session) {
      if j < n {
        assert entries[..j] == after.entries[..j];
      } else {
        assert entries[j] == step.entries[j - n];
        assert entries[..n] == after.entries;
      }
    }
  }

  /** Over every run, whatever the adapters and the worker answer and however full the event queue is: text is
      committed at most once per session, never blank, only with that session's own lease, and never after that
      session's cancellation was accepted. */
  lemma {:induction false} CommitsAreSafeAlways(requests: seq<Request>)
    ensures Consistent(After(requests))
  {
    hide StepOf;
    hide Consistent;
    if requests == [] {
      NothingYet();
    } else {
      CommitsAreSafeAlways(requests[..|requests| - 1]);
      StepKeepsConsistent(After(requests[..|requests| - 1]), requests[|requests| - 1]);
    }
  }

  lemma NothingYet()
    ensures Consistent(Stepped(INITIAL_DESK, []))
  {
  }

  /** A commit happens only for the job's session, in its finalizing state, on the worker's own non-blank
      transcript. */
  lemma CommitComesFromPoll(d: Desk, request: Request, i: nat)
    requires Numbered(d.life.machine) && i < |StepOf(d, request).entries| && StepOf(d, request).entries[i].Committed?
    ensures request.Poll? && request.received.Arrived? && request.received.result.outcome.Ok?
    ensures var e := StepOf(d, request).entries[i];
            && d.job == Some(e.arm.session) && IsCurrent(d.life, e.arm.session)
            && e.text == request.received.result.outcome.value.text
            && ReplyTo(d.life, TranscriptReady(e.arm.session, e.text)).Ok?
  {
    hide Perform;
    hide ReplyTo;
    if request.StopRecording? {
      StopOnlyDisarms(d, request.session, request.stopped, request.begin);
    }
  }
}
