/** The single-session state machine at the centre of the application. */
module CoreSession {
  import opened Base
  import opened Providers
  import Decimal
  import Utf8

  type SessionId = string

  const ID_PREFIX: string := "session-"

  /** A decimal digit as a character. */
  function DigitChar(b: byte): (c: char)
    ensures Decimal.IsDigit(b) ==> c as int == b
  {
    b as char
  }

  function DigitChars(b: bytes): (s: string)
    ensures |s| == |b| && forall i :: 0 <= i < |b| ==> s[i] == DigitChar(b[i])
  {
    seq(|b|, i requires 0 <= i < |b| => DigitChar(b[i]))
  }

  function FromCounter(counter: nat): SessionId {
    ID_PREFIX + DigitChars(Decimal.ToDecimal(counter))
  }

  /** Different counters make different identifiers. */
  lemma FromCounterInjective(a: nat, b: nat)
    requires FromCounter(a) == FromCounter(b)
    ensures a == b
  {
    hide Decimal.ToDecimal;
    var x, y := Decimal.ToDecimal(a), Decimal.ToDecimal(b);
    assert DigitChars(x) == FromCounter(a)[|ID_PREFIX|..] && DigitChars(y) == FromCounter(b)[|ID_PREFIX|..];
    assert |x| == |y|;
    forall i | 0 <= i < |x| ensures x[i] == y[i] {
      assert DigitChars(x)[i] == DigitChars(y)[i];
    }
    assert x == y;
    Decimal.ValueOfToDecimal(a);
    Decimal.ValueOfToDecimal(b);
  }

  datatype TriggerMode = PushToTalk | Toggle

  datatype StartRequest = StartRequest(mode: TriggerMode, profile: Option<string>)

  datatype Command =
    | Start(request: StartRequest)
    | Stop(session: SessionId)
    | Cancel(session: SessionId)
    | CaptureReady(session: SessionId)
    | CaptureStopped(session: SessionId)
    | NoSpeech(session: SessionId)
    | TranscriptReady(session: SessionId, text: string)
    | InsertionComplete(session: SessionId)
    | Fail(session: SessionId, error: VoxError)
    | Reset

  datatype SessionState =
    | Idle
    | Preparing(session: SessionId, mode: TriggerMode)
    | Listening(session: SessionId, mode: TriggerMode)
    | Finalizing(session: SessionId)
    | Inserting(session: SessionId, text: string)
    | Completed(session: SessionId)
    | Cancelled(session: SessionId)
    | Failed(session: SessionId, error: VoxError)
  {
    predicate Terminal() {
      Completed? || Cancelled? || Failed?
    }

    predicate Active() {
      Preparing? || Listening? || Finalizing? || Inserting?
    }

    function Session(): Option<SessionId> {
      if Idle? then None else Some(session)
    }
  }

  datatype Effect =
    | NoEffect
    | BeginCapture(session: SessionId, request: StartRequest)
    | StopCapture(session: SessionId)
    | CancelWork(session: SessionId)
    | InsertText(session: SessionId, text: string)

  datatype Machine = Machine(state: SessionState, nextId: nat)

  const INITIAL := Machine(Idle, 1)
  const INVALID_STATE := VoxError(InvalidState, SessionInvalidState, false)
  const ID_MISMATCH := VoxError(InvalidArgument, SessionIdMismatch, false)
  const EMPTY_TRANSCRIPT := VoxError(Protocol, TranscriptEmpty, false)

  /** The session a command may act on, given the states it acts in. */
  function Ensure(allowed: bool, state: SessionState, requested: SessionId): Result<SessionId, VoxError> {
    if !allowed || state.Idle? then Err(INVALID_STATE)
    else if state.session != requested then Err(ID_MISMATCH)
    else Ok(state.session)
  }

  /** Where an accepted command leads, and the work it asks for. */
  function Transition(m: Machine, command: Command): Result<(SessionState, Effect), VoxError> {
    var state := m.state;
    match command
    case Start(request) =>
      if state.Active() then Err(INVALID_STATE)
      else Ok((Preparing(FromCounter(m.nextId), request.mode), BeginCapture(FromCounter(m.nextId), request)))
    case Stop(requested) =>
      var s :- Ensure(state.Listening?, state, requested);
      Ok((Finalizing(s), StopCapture(s)))
    case Cancel(requested) =>
      var s :- Ensure(true, state, requested);
      Ok((SessionState.Cancelled(s), CancelWork(s)))
    case CaptureReady(requested) =>
      var s :- Ensure(state.Preparing?, state, requested);
      Ok((if state.Preparing? then Listening(s, state.mode) else state, NoEffect))
    case CaptureStopped(requested) =>
      var s :- Ensure(state.Listening?, state, requested);
      Ok((Finalizing(s), NoEffect))
    case NoSpeech(requested) =>
      var s :- Ensure(state.Finalizing?, state, requested);
      Ok((Completed(s), NoEffect))
    case TranscriptReady(requested, text) =>
      var s :- Ensure(state.Finalizing?, state, requested);
      if Utf8.Blank(text) then Err(EMPTY_TRANSCRIPT) else Ok((Inserting(s, text), InsertText(s, text)))
    case InsertionComplete(requested) =>
      var s :- Ensure(state.Inserting?, state, requested);
      Ok((Completed(s), NoEffect))
    case Fail(requested, error) =>
      var s :- Ensure(true, state, requested);
      Ok((SessionState.Failed(s, error), CancelWork(s)))
    case Reset =>
      if state.Active() then Err(INVALID_STATE) else Ok((Idle, NoEffect))
  }

  function Next(m: Machine, command: Command): Machine {
    var r := Transition(m, command);
    if r.Err? then m else Machine(r.value.0, if command.Start? then m.nextId + 1 else m.nextId)
  }

  function Reply(m: Machine, command: Command): Result<Effect, VoxError> {
    var r := Transition(m, command);
    if r.Err? then Err(r.error) else Ok(r.value.1)
  }

  /** Where each command leads. A session starts only when none is under way, and a new one follows a finished one; every
      other command names the session in hand. */
  lemma AcceptedExactly(m: Machine, command: Command)
    ensures Reply(m, command).Ok? <==>
              match command
              case Start(_) => m.state.Idle? || m.state.Completed? || m.state.Cancelled? || m.state.Failed?
              case Reset => m.state.Idle? || m.state.Completed? || m.state.Cancelled? || m.state.Failed?
              case Stop(id) => m.state.Listening? && m.state.session == id
              case CaptureReady(id) => m.state.Preparing? && m.state.session == id
              case CaptureStopped(id) => m.state.Listening? && m.state.session == id
              case NoSpeech(id) => m.state == Finalizing(id)
              case TranscriptReady(id, text) => m.state == Finalizing(id) && !Utf8.Blank(text)
              case InsertionComplete(id) => m.state.Inserting? && m.state.session == id
              case Cancel(id) => !m.state.Idle? && m.state.session == id
              case Fail(id, _) => !m.state.Idle? && m.state.session == id
  {
    hide FromCounter;
    hide Utf8.Blank;
  }

  /** The next state and the work asked for. */
  lemma AcceptedLeads(m: Machine, command: Command)
    requires Reply(m, command).Ok?
    ensures (Next(m, command).state, Reply(m, command).value) ==
              match command
              case Start(request) =>
                (Preparing(FromCounter(m.nextId), request.mode), BeginCapture(FromCounter(m.nextId), request))
              case Reset => (Idle, NoEffect)
              case Stop(id) => (Finalizing(id), StopCapture(id))
              case CaptureReady(id) => (Listening(id, if m.state.Preparing? then m.state.mode else Toggle), NoEffect)
              case CaptureStopped(id) => (Finalizing(id), NoEffect)
              case NoSpeech(id) => (Completed(id), NoEffect)
              case TranscriptReady(id, text) => (Inserting(id, text), InsertText(id, text))
              case InsertionComplete(id) => (Completed(id), NoEffect)
              case Cancel(id) => (SessionState.Cancelled(id), CancelWork(id))
              case Fail(id, error) => (SessionState.Failed(id, error), CancelWork(id))
    ensures Next(m, command).nextId == m.nextId + if command.Start? then 1 else 0
  {
    hide FromCounter;
    hide Utf8.Blank;
  }

  /** A refused command says whether the state, the session or the text was wrong. */
  lemma RefusedBecause(m: Machine, command: Command)
    requires Reply(m, command).Err?
    ensures Next(m, command) == m
    ensures Reply(m, command).error in {VoxError(InvalidState, SessionInvalidState, false),
                                        VoxError(InvalidArgument, SessionIdMismatch, false),
                                        VoxError(Protocol, TranscriptEmpty, false)}
    ensures Reply(m, command).error.code == TranscriptEmpty <==>
              command.TranscriptReady? && m.state == Finalizing(command.session) && Utf8.Blank(command.text)
    ensures Reply(m, command).error.code == SessionIdMismatch ==>
              !command.Start? && !command.Reset? && !m.state.Idle? && m.state.session != command.session
  {
    hide FromCounter;
    hide Utf8.Blank;
  }

  /** An identifier is the prefix and the counter in decimal. */
  lemma IdentifierText(counter: nat)
    requires counter <= U64_MAX
    ensures FromCounter(counter)[..8] == "session-" && |FromCounter(counter)| > 8
    ensures Decimal.ParseU64(Utf8.Encode(FromCounter(counter)[8..])) == Some(counter)
  {
    hide Decimal.ToDecimal;
    hide Decimal.ParseU64;
    hide Utf8.Encode;
    var digits := Decimal.ToDecimal(counter);
    var text := DigitChars(digits);
    assert FromCounter(counter) == "session-" + text;
    assert FromCounter(counter)[8..] == text;
    forall i | 0 <= i < |text| ensures text[i] as int == digits[i] && text[i] as int < 0x80 {
      assert Decimal.IsDigit(digits[i]);
    }
    Utf8.EncodeAscii(text);
    assert Utf8.Encode(text) == digits;
    Decimal.ParseOfToDecimal(counter);
  }

  class SessionMachine {
    var state: SessionState
    var nextId: nat

    function View(): Machine
      reads this
    {
      Machine(state, nextId)
    }

    constructor ()
      ensures View() == INITIAL
    {
      state, nextId := Idle, 1;
    }

    /** A terminal state gives way to a new session before the request is judged. */
    method StartSession(request: StartRequest) returns (r: Result<Effect, VoxError>)
      modifies this
      ensures View() == Next(old(View()), Start(request)) && r == Reply(old(View()), Start(request))
    {
      hide FromCounter;
      if state.Completed? || state.Cancelled? || state.Failed? {
        state := Idle;
      }
      if state != Idle {
        return Err(INVALID_STATE);
      }
      var session := FromCounter(nextId);
      nextId := nextId + 1;
      state := Preparing(session, request.mode);
      return Ok(BeginCapture(session, request));
    }

    method Apply(command: Command) returns (r: Result<Effect, VoxError>)
      modifies this
      ensures View() == Next(old(View()), command) && r == Reply(old(View()), command)
    {
      hide FromCounter;
      hide Utf8.Blank;
      r := Err(INVALID_STATE);
      match command {
        case Start(request) =>
          r := StartSession(request);
        case Stop(requested) =>
          var s :- Ensure(state.Listening?, state, requested);
          state, r := Finalizing(s), Ok(StopCapture(s));
        case Cancel(requested) =>
          var s :- Ensure(true, state, requested);
          state, r := SessionState.Cancelled(s), Ok(CancelWork(s));
        case CaptureReady(requested) =>
          var s :- Ensure(state.Preparing?, state, requested);
          state, r := Listening(s, state.mode), Ok(NoEffect);
        case CaptureStopped(requested) =>
          var s :- Ensure(state.Listening?, state, requested);
          state, r := Finalizing(s), Ok(NoEffect);
        case NoSpeech(requested) =>
          var s :- Ensure(state.Finalizing?, state, requested);
          state, r := Completed(s), Ok(NoEffect);
        case TranscriptReady(requested, text) =>
          var s :- Ensure(state.Finalizing?, state, requested);
          if Utf8.Blank(text) {
            return Err(EMPTY_TRANSCRIPT);
          }
          state, r := Inserting(s, text), Ok(InsertText(s, text));
        case InsertionComplete(requested) =>
          var s :- Ensure(state.Inserting?, state, requested);
          state, r := Completed(s), Ok(NoEffect);
        case Fail(requested, error) =>
          var s :- Ensure(true, state, requested);
          state, r := SessionState.Failed(s, error), Ok(CancelWork(s));
        case Reset =>
          if state.Active() {
            return Err(INVALID_STATE);
          }
          state, r := Idle, Ok(NoEffect);
      }
    }
  }

  // ----- runs

  function Run(m: Machine, commands: seq<Command>): Machine {
    if commands == [] then m else Next(Run(m, commands[..|commands| - 1]), commands[|commands| - 1])
  }

  /** The session in hand was made from a counter already used. */
  ghost predicate Numbered(m: Machine) {
    m.nextId >= 1 && (m.state.Idle? || exists k: nat :: k < m.nextId && m.state.session == FromCounter(k))
  }

  lemma ApplyKeepsNumbered(m: Machine, command: Command)
    requires Numbered(m)
    ensures Numbered(Next(m, command)) && m.nextId <= Next(m, command).nextId
  {
    hide FromCounter;
    hide Utf8.Blank;
    var next := Next(m, command);
    if !next.state.Idle? {
      if command.Start? && !m.state.Active() {
        assert next.state.session == FromCounter(m.nextId);
      } else {
        var k: nat :| k < m.nextId && m.state.session == FromCounter(k);
        assert next.state.session == FromCounter(k);
      }
    }
  }

  /** A started session carries an identifier no earlier command of the run ever made. */
  lemma {:induction false} IdentifiersAreFresh(commands: seq<Command>, request: StartRequest, i: nat)
    requires i <= |commands|
    requires !Run(INITIAL, commands).state.Active()
    ensures Run(INITIAL, commands + [Start(request)]).state.Preparing?
    ensures Run(INITIAL, commands[..i]).state.Session() != Run(INITIAL, commands + [Start(request)]).state.Session()
  {
    hide FromCounter;
    assert (commands + [Start(request)])[..|commands|] == commands;
    RunNumbered(commands, i);
    var before, after := Run(INITIAL, commands[..i]), Run(INITIAL, commands);
    if !before.state.Idle? {
      var k: nat :| k < before.nextId && before.state.session == FromCounter(k);
      if before.state.session == FromCounter(after.nextId) {
        FromCounterInjective(k, after.nextId);
      }
    }
  }

  lemma {:induction false} RunNumbered(commands: seq<Command>, i: nat)
    requires i <= |commands|
    ensures Numbered(Run(INITIAL, commands[..i])) && Run(INITIAL, commands[..i]).nextId <= Run(INITIAL, commands).nextId
    decreases |commands|
  {
    hide Next;
    hide Numbered;
    assert commands[..|commands|] == commands;
    if commands == [] {
      StartsNumbered();
    } else {
      var n := |commands| - 1;
      RunNumbered(commands[..n], n);
      assert commands[..n][..n] == commands[..n];
      ApplyKeepsNumbered(Run(INITIAL, commands[..n]), commands[n]);
      if i < |commands| {
        RunNumbered(commands[..n], i);
        assert commands[..n][..i] == commands[..i];
      }
    }
  }

  lemma StartsNumbered()
    ensures Numbered(INITIAL)
  {
  }

  /** While a session is in an active state no command starts another one: the id in hand changes only through
      an idle or terminal state. */
  lemma ActiveSessionStays(m: Machine, command: Command)
    requires m.state.Active() && !Next(m, command).state.Idle?
    ensures Next(m, command).state.session == m.state.session
    ensures !Next(m, command).state.Preparing? || Next(m, command) == m
  {
    hide FromCounter;
    hide Utf8.Blank;
  }

  /** Text reaches insertion only from its own finalizing session, and is never blank. */
  lemma InsertionNeedsTranscript(m: Machine, command: Command)
    requires Next(m, command).state.Inserting? && Next(m, command) != m
    ensures m.state.Finalizing? && m.state.session == Next(m, command).state.session
    ensures command == TranscriptReady(m.state.session, Next(m, command).state.text) && !Utf8.Blank(command.text)
  {
    hide FromCounter;
    hide Utf8.Blank;
  }
}
