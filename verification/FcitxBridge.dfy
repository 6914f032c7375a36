/** The input-method addon's commit bridge: armed context, pending commit and
    completed cache, driven by datagrams and by the event loop's deferred turn.

    `Bridge` is the addon's state as a value and `React` what one stimulus does
    to it; `VoxTypeBridge` is the object with those fields, each handler proved
    to do exactly that. */
module FcitxBridge {
  import opened Base
  import opened FcitxWire
  import FcitxContext
  import Fingerprint
  import Utf8

  type ContextId = nat
  type Client = nat

  /** The live input contexts and the one that last had focus. */
  datatype World = World(surfaces: map<ContextId, FcitxContext.Surface>, lastFocused: Option<ContextId>)

  /** The event queued by the last accepted commit; the legacy one carries its own text and recipient. */
  datatype Deferred = NoEvent | Legacy(session: bytes, text: bytes, sender: Client) | Tagged

  datatype Pending = Pending(id: bytes, session: bytes, text: bytes, sender: Client)

  datatype Completed = Completed(id: bytes, session: bytes, size: nat, fingerprint: nat, response: Response)

  datatype Bridge = Bridge(armed: Option<ContextId>, armedSession: bytes, legacyPending: bool, deferred: Deferred,
                           pending: Pending, completed: Completed)

  const INITIAL :=
    Bridge(None, [], false, NoEvent, Pending([], [], [], 0), Completed([], [], 0, 0, Rejected(UnknownCommand)))

  /** The request a commitString call serves; legacy requests have no id. */
  datatype Origin = Origin(id: bytes, session: bytes, text: bytes)

  /** Everything the addon does that others can see. */
  datatype Effect =
    | Armed(session: bytes, context: ContextId)
    | CommitString(context: ContextId, origin: Origin)
    | Sent(client: Client, response: Response)

  datatype Stimulus = Datagram(sender: Client, message: bytes) | Turn

  // ----- guards

  predicate Usable(w: World, c: Option<ContextId>) {
    c.Some? && c.value in w.surfaces && w.surfaces[c.value].focused && w.lastFocused == c
  }

  predicate SecureContextOf(w: World, c: Option<ContextId>) {
    c.Some? && c.value in w.surfaces && w.surfaces[c.value].secure
  }

  /** The focused, non-secure context, or why there is none. */
  function FocusedContext(w: World): Result<ContextId, Detail> {
    if !Usable(w, w.lastFocused) then Err(NoFocusedContext)
    else if w.surfaces[w.lastFocused.value].secure then Err(SecureContext)
    else Ok(w.lastFocused.value)
  }

  /** `clear()`: drops the arm and whatever is pending, keeping the completed cache. */
  function Cleared(b: Bridge): Bridge {
    Bridge(None, [], false, NoEvent, Pending([], [], [], b.pending.sender), b.completed)
  }

  // ----- handlers

  function ArmStep(b: Bridge, w: World, session: bytes): (Bridge, seq<Effect>, Response) {
    match FocusedContext(w)
    case Err(detail) => (b, [], Rejected(detail))
    case Ok(c) =>
      (b.(armed := Some(c), armedSession := session), [Armed(session, c)],
       ArmedFor(Utf8.Encode(w.surfaces[c].program), Utf8.Encode(w.surfaces[c].frontend)))
  }

  /** The checks shared by both commit commands: an error to send, or nothing and the request may be queued. */
  function Admission(b: Bridge, w: World, session: bytes, text: bytes): (Bridge, Option<Detail>) {
    if b.legacyPending || b.pending.id != [] then (b, Some(CommitBusy))
    else if session != b.armedSession then (b, Some(SessionMismatch))
    else if !Usable(w, b.armed) then (Cleared(b), Some(FocusChanged))
    else if SecureContextOf(w, b.armed) then (Cleared(b), Some(SecureContext))
    else if text == [] then (b, Some(EmptyText))
    else (b, None)
  }

  function CommitStep(b: Bridge, w: World, session: bytes, text: bytes, sender: Client): (Bridge, seq<Effect>) {
    var (next, refusal) := Admission(b, w, session, text);
    if refusal.Some? then (next, [Sent(sender, Rejected(refusal.value))])
    else (b.(legacyPending := true, deferred := Legacy(session, text, sender)), [])
  }

  function Commit2Step(b: Bridge, w: World, id: bytes, session: bytes, text: bytes, sender: Client)
    : (Bridge, seq<Effect>)
  {
    if id == [] then (b, [Sent(sender, Rejected(RequestIdRequired))])
    else if id == b.completed.id then
      (b, [Sent(sender, if session == b.completed.session && |text| == b.completed.size
                           && Fingerprint.Fnv(text) == b.completed.fingerprint
                        then b.completed.response else Rejected(RequestIdMismatch))])
    else if id == b.pending.id then
      if session == b.pending.session && text == b.pending.text then (b.(pending := b.pending.(sender := sender)), [])
      else (b, [Sent(sender, Rejected(RequestIdMismatch))])
    else
      var (next, refusal) := Admission(b, w, session, text);
      if refusal.Some? then (next, [Sent(sender, Rejected(refusal.value))])
      else (b.(pending := Pending(id, session, text, sender), deferred := Tagged), [])
  }

  function CancelStep(b: Bridge, session: bytes): (Bridge, Response) {
    if b.armedSession != [] && session != b.armedSession then (b, Rejected(SessionMismatch))
    else (Cleared(b), CancelledOk)
  }

  /** The deferred turn's outcome for the armed context at that moment. */
  function Dispatch(b: Bridge, w: World, origin: Origin, confirmed: Response): (seq<Effect>, Response) {
    if Usable(w, b.armed) && !SecureContextOf(w, b.armed) then ([CommitString(b.armed.value, origin)], confirmed)
    else if SecureContextOf(w, b.armed) then ([], Rejected(SecureContext))
    else ([], Rejected(FocusChanged))
  }

  function LegacyTurn(b: Bridge, w: World, session: bytes, text: bytes, sender: Client): (Bridge, seq<Effect>) {
    var (calls, result) := Dispatch(b, w, Origin([], session, text), Dispatched);
    (Bridge(None, [], false, NoEvent, b.pending, b.completed), calls + [Sent(sender, result)])
  }

  function TaggedTurn(b: Bridge, w: World): (Bridge, seq<Effect>) {
    var p := b.pending;
    var (calls, result) := Dispatch(b, w, Origin(p.id, p.session, p.text), DispatchedFor(p.id));
    (Bridge(None, [], b.legacyPending, NoEvent, Pending([], [], [], p.sender),
            Completed(p.id, p.session, |p.text|, Fingerprint.Fnv(p.text), result)),
     calls + [Sent(p.sender, result)])
  }

  function TurnStep(b: Bridge, w: World): (Bridge, seq<Effect>) {
    match b.deferred
    case NoEvent => (b, [])
    case Legacy(session, text, sender) => LegacyTurn(b, w, session, text, sender)
    case Tagged => TaggedTurn(b, w)
  }

  function ContextResponse(w: World, generation: nat): Response {
    match FocusedContext(w)
    case Err(detail) => Rejected(detail)
    case Ok(c) => FcitxContext.Describe(w.surfaces[c], generation)
  }

  function DatagramStep(b: Bridge, w: World, generation: nat, sender: Client, message: bytes): (Bridge, seq<Effect>) {
    if message == [] then (b, [])
    else if |message| > MAX_DATAGRAM then (b, [Sent(sender, Rejected(MessageTooLarge))])
    else
      match Parse(message)
      case Ping => (b, [Sent(sender, Ready)])
      case Context => (b, [Sent(sender, ContextResponse(w, generation))])
      case Arm(session) =>
        var (next, effects, answer) := ArmStep(b, w, session);
        (next, effects + [Sent(sender, answer)])
      case Commit(session, text) => CommitStep(b, w, session, text, sender)
      case Commit2(id, session, text) => Commit2Step(b, w, id, session, text, sender)
      case Cancel(session) =>
        var (next, answer) := CancelStep(b, session);
        (next, [Sent(sender, answer)])
      case Unknown => (b, [Sent(sender, Rejected(UnknownCommand))])
  }

  /** The world and the context generation may be anything whenever a stimulus arrives. */
  function React(b: Bridge, w: World, generation: nat, stimulus: Stimulus): (Bridge, seq<Effect>) {
    match stimulus
    case Datagram(sender, message) => DatagramStep(b, w, generation, sender, message)
    case Turn => TurnStep(b, w)
  }

  // ----- the addon object

  class VoxTypeBridge {
    var armed: Option<ContextId>
    var armedSession: bytes
    var legacyPending: bool
    var pendingCommit: Deferred
    var pending: Pending
    var completed: Completed
    ghost var effects: seq<Effect>

    ghost function View(): Bridge
      reads this
    {
      Bridge(armed, armedSession, legacyPending, pendingCommit, pending, completed)
    }

    constructor ()
      ensures View() == INITIAL && effects == []
    {
      armed, armedSession, legacyPending, pendingCommit := None, [], false, NoEvent;
      pending := Pending([], [], [], 0);
      completed, effects := Completed([], [], 0, 0, Rejected(UnknownCommand)), [];
    }

    method Send(client: Client, response: Response)
      modifies this`effects
      ensures effects == old(effects) + [Sent(client, response)]
    {
      effects := effects + [Sent(client, response)];
    }

    method Clear()
      modifies this
      ensures View() == Cleared(old(View())) && effects == old(effects)
    {
      pendingCommit := NoEvent;
      legacyPending := false;
      pending := Pending([], [], [], pending.sender);
      armed, armedSession := None, [];
    }

    method ArmFor(w: World, session: bytes) returns (answer: Response)
      modifies this
      ensures var step := ArmStep(old(View()), w, session);
              View() == step.0 && effects == old(effects) + step.1 && answer == step.2
    {
      if !Usable(w, w.lastFocused) {
        return Rejected(NoFocusedContext);
      }
      var context := w.lastFocused.value;
      if w.surfaces[context].secure {
        return Rejected(SecureContext);
      }
      armed := Some(context);
      armedSession := session;
      effects := effects + [Armed(session, context)];
      answer := ArmedFor(Utf8.Encode(w.surfaces[context].program), Utf8.Encode(w.surfaces[context].frontend));
    }

    /** The common checks of both commit commands, clearing the arm when its context is gone or secure. */
    method Admit(w: World, session: bytes, text: bytes) returns (refusal: Option<Detail>)
      modifies this
      ensures (View(), refusal) == Admission(old(View()), w, session, text) && effects == old(effects)
    {
      if legacyPending || pending.id != [] {
        return Some(CommitBusy);
      }
      if session != armedSession {
        return Some(SessionMismatch);
      }
      if !Usable(w, armed) {
        Clear();
        return Some(FocusChanged);
      }
      if SecureContextOf(w, armed) {
        Clear();
        return Some(SecureContext);
      }
      if text == [] {
        return Some(EmptyText);
      }
      return None;
    }

    method CommitLegacy(w: World, session: bytes, text: bytes, sender: Client)
      modifies this
      ensures var step := CommitStep(old(View()), w, session, text, sender);
              View() == step.0 && effects == old(effects) + step.1
    {
      var refusal := Admit(w, session, text);
      if refusal.Some? {
        Send(sender, Rejected(refusal.value));
        return;
      }
      legacyPending := true;
      pendingCommit := Legacy(session, text, sender);
    }

    method CommitTagged(w: World, id: bytes, session: bytes, text: bytes, sender: Client)
      modifies this
      ensures var step := Commit2Step(old(View()), w, id, session, text, sender);
              View() == step.0 && effects == old(effects) + step.1
    {
      hide Fingerprint.Fnv;
      if id == [] {
        Send(sender, Rejected(RequestIdRequired));
        return;
      }
      if id == completed.id {
        var fingerprint := Fingerprint.TextFingerprint(text);
        if session == completed.session && |text| == completed.size && fingerprint == completed.fingerprint {
          Send(sender, completed.response);
        } else {
          Send(sender, Rejected(RequestIdMismatch));
        }
        return;
      }
      if id == pending.id {
        if session == pending.session && text == pending.text {
          pending := pending.(sender := sender);
        } else {
          Send(sender, Rejected(RequestIdMismatch));
        }
        return;
      }
      var refusal := Admit(w, session, text);
      if refusal.Some? {
        Send(sender, Rejected(refusal.value));
        return;
      }
      pending := Pending(id, session, text, sender);
      pendingCommit := Tagged;
    }

    method CancelSession(session: bytes) returns (answer: Response)
      modifies this
      ensures (View(), answer) == CancelStep(old(View()), session) && effects == old(effects)
    {
      if armedSession != [] && session != armedSession {
        return Rejected(SessionMismatch);
      }
      Clear();
      return CancelledOk;
    }

    /** Commits into the armed context if it is still usable, and says what to answer. */
    method DispatchPending(w: World, ghost origin: Origin, confirmed: Response) returns (result: Response)
      modifies this`effects
      ensures var step := Dispatch(View(), w, origin, confirmed);
              effects == old(effects) + step.0 && result == step.1
    {
      if Usable(w, armed) && !SecureContextOf(w, armed) {
        effects := effects + [CommitString(armed.value, origin)];
        return confirmed;
      } else if SecureContextOf(w, armed) {
        return Rejected(SecureContext);
      }
      return Rejected(FocusChanged);
    }

    method RunLegacy(w: World, session: bytes, text: bytes, sender: Client)
      modifies this
      ensures var step := LegacyTurn(old(View()), w, session, text, sender);
              View() == step.0 && effects == old(effects) + step.1
    {
      hide Dispatch;
      var result := DispatchPending(w, Origin([], session, text), Dispatched);
      armed, armedSession := None, [];
      legacyPending := false;
      pendingCommit := NoEvent;
      Send(sender, result);
    }

    method RunTagged(w: World)
      modifies this
      ensures var step := TaggedTurn(old(View()), w);
              View() == step.0 && effects == old(effects) + step.1
    {
      hide Dispatch;
      hide Fingerprint.Fnv;
      var result := DispatchPending(w, Origin(pending.id, pending.session, pending.text), DispatchedFor(pending.id));
      var fingerprint := Fingerprint.TextFingerprint(pending.text);
      completed := Completed(pending.id, pending.session, |pending.text|, fingerprint, result);
      pending := Pending([], [], [], pending.sender);
      armed, armedSession := None, [];
      pendingCommit := NoEvent;
      Send(pending.sender, result);
    }

    /** The event loop's deferred turn. */
    method RunDeferred(w: World)
      modifies this
      ensures var step := TurnStep(old(View()), w);
              View() == step.0 && effects == old(effects) + step.1
    {
      hide LegacyTurn;
      hide TaggedTurn;
      match pendingCommit
      case NoEvent =>
      case Legacy(session, text, sender) => RunLegacy(w, session, text, sender);
      case Tagged => RunTagged(w);
    }

    /** One datagram from the socket. */
    method Receive(w: World, generation: nat, sender: Client, message: bytes)
      modifies this
      ensures var step := DatagramStep(old(View()), w, generation, sender, message);
              View() == step.0 && effects == old(effects) + step.1
    {
      if message == [] {
        return;
      }
      if |message| > MAX_DATAGRAM {
        Send(sender, Rejected(MessageTooLarge));
        return;
      }
      match Parse(message)
      case Ping => Send(sender, Ready);
      case Context => Send(sender, ContextResponse(w, generation));
      case Arm(session) =>
        var answer := ArmFor(w, session);
        Send(sender, answer);
      case Commit(session, text) => CommitLegacy(w, session, text, sender);
      case Commit2(id, session, text) => CommitTagged(w, id, session, text, sender);
      case Cancel(session) =>
        var answer := CancelSession(session);
        Send(sender, answer);
      case Unknown => Send(sender, Rejected(UnknownCommand));
    }
  }
}
