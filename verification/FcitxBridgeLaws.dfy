/** What holds of the commit bridge over every interleaving of clients,
    duplicated or delayed datagrams, focus changes and deferred turns. */
module FcitxBridgeLaws {
  import opened Base
  import opened FcitxWire
  import opened FcitxBridge
  import Utf8
  import Fingerprint

  /** One stimulus together with the world it meets; focus and security may change freely in between. */
  datatype Moment = Moment(world: World, generation: nat, stimulus: Stimulus)

  function Run(b: Bridge, moments: seq<Moment>): (Bridge, seq<Effect>) {
    if moments == [] then (b, [])
    else
      var n := |moments| - 1;
      var (mid, effects) := Run(b, moments[..n]);
      var (after, more) := React(mid, moments[n].world, moments[n].generation, moments[n].stimulus);
      (after, effects + more)
  }

  // ----- counting effects

  /** Whether a call is for a session, and for one request id of it. */
  predicate ServesSession(e: Effect, session: bytes) {
    e.CommitString? && e.origin.session == session
  }

  predicate ServesRequest(e: Effect, id: bytes) {
    e.CommitString? && e.origin.id == id
  }

  predicate Arms(e: Effect, session: bytes) {
    e.Armed? && e.session == session
  }

  function Commits(effects: seq<Effect>, session: bytes): nat {
    if effects == [] then 0
    else Commits(effects[..|effects| - 1], session) + if ServesSession(effects[|effects| - 1], session) then 1 else 0
  }

  function Calls(effects: seq<Effect>, id: bytes): nat {
    if effects == [] then 0
    else Calls(effects[..|effects| - 1], id) + if ServesRequest(effects[|effects| - 1], id) then 1 else 0
  }

  function ArmCount(effects: seq<Effect>, session: bytes): nat {
    if effects == [] then 0
    else ArmCount(effects[..|effects| - 1], session) + if Arms(effects[|effects| - 1], session) then 1 else 0
  }

  lemma {:induction false} CountsAdd(a: seq<Effect>, b: seq<Effect>, key: bytes)
    ensures Commits(a + b, key) == Commits(a, key) + Commits(b, key)
    ensures Calls(a + b, key) == Calls(a, key) + Calls(b, key)
    ensures ArmCount(a + b, key) == ArmCount(a, key) + ArmCount(b, key)
  {
    if b == [] {
      assert a + b == a;
    } else {
      var n := |b| - 1;
      assert (a + b)[..|a| + n] == a + b[..n];
      CountsAdd(a, b[..n], key);
    }
  }

  // ----- the invariant of the addon's fields

  predicate Inv(b: Bridge) {
    && (b.armed.None? ==> b.armedSession == [])
    && (b.legacyPending <==> b.deferred.Legacy?)
    && (b.pending.id != [] <==> b.deferred.Tagged?)
    && (b.deferred.Tagged? ==> b.pending.text != [] && NulFree(b.pending.id))
    && NulFree(b.completed.id)
    && (b.completed.response.Rejected? || b.completed.response == DispatchedFor(b.completed.id))
  }

  /** The request a deferred turn would serve. */
  function OriginOf(b: Bridge): Origin {
    match b.deferred
    case Legacy(session, text, _) => Origin([], session, text)
    case _ => Origin(b.pending.id, b.pending.session, b.pending.text)
  }

  /** The four ways a reaction can touch the arm and the pending slot. */
  datatype Shape = Other | Arming(session: bytes) | Queueing(origin: Origin) | Firing

  predicate Settles(b: Bridge, after: Bridge, effects: seq<Effect>, shape: Shape) {
    match shape
    case Other =>
      && |effects| <= 1 && (effects != [] ==> effects[0].Sent?)
      && ((after.armed == b.armed && after.armedSession == b.armedSession && after.deferred == b.deferred
           && OriginOf(after) == OriginOf(b))
          || (after.armed.None? && after.deferred.NoEvent?))
    case Arming(session) =>
      && after == b.(armed := after.armed, armedSession := session) && after.armed.Some?
      && |effects| == 2 && effects[0] == Armed(session, after.armed.value) && effects[1].Sent?
    case Queueing(origin) =>
      && b.deferred.NoEvent? && b.armed.Some? && origin.session == b.armedSession && effects == []
      && after.armed == b.armed && after.armedSession == b.armedSession
      && !after.deferred.NoEvent? && OriginOf(after) == origin
    case Firing =>
      && !b.deferred.NoEvent? && after.deferred.NoEvent? && after.armed.None?
      && 1 <= |effects| <= 2 && effects[|effects| - 1].Sent?
      && (|effects| == 2 ==> b.armed.Some? && effects[0] == CommitString(b.armed.value, OriginOf(b)))
  }

  function DatagramShape(b: Bridge, w: World, message: bytes): Shape {
    if message == [] || |message| > MAX_DATAGRAM then Other
    else
      match Parse(message)
      case Arm(session) => if FocusedContext(w).Ok? then Arming(session) else Other
      case Commit(session, text) =>
        if Admission(b, w, session, text).1.None? then Queueing(Origin([], session, text)) else Other
      case Commit2(id, session, text) =>
        if id != [] && id != b.completed.id && id != b.pending.id && Admission(b, w, session, text).1.None?
        then Queueing(Origin(id, session, text)) else Other
      case _ => Other
  }

  function ShapeOf(b: Bridge, m: Moment): Shape {
    match m.stimulus
    case Turn => if b.deferred.NoEvent? then Other else Firing
    case Datagram(_, message) => DatagramShape(b, m.world, message)
  }

  lemma TurnSettles(b: Bridge, w: World)
    requires Inv(b)
    ensures Settles(b, TurnStep(b, w).0, TurnStep(b, w).1, if b.deferred.NoEvent? then Other else Firing)
    ensures Inv(TurnStep(b, w).0)
  {
    hide Fingerprint.Fnv;
  }

  lemma Commit2Settles(b: Bridge, w: World, id: bytes, session: bytes, text: bytes, sender: Client)
    requires Inv(b) && NulFree(id)
    ensures var (after, effects) := Commit2Step(b, w, id, session, text, sender);
            var queued := id != [] && id != b.completed.id && id != b.pending.id
                          && Admission(b, w, session, text).1.None?;
            Settles(b, after, effects, if queued then Queueing(Origin(id, session, text)) else Other) && Inv(after)
  {
    hide Fingerprint.Fnv;
  }

  lemma DatagramSettles(b: Bridge, w: World, generation: nat, sender: Client, message: bytes)
    requires Inv(b)
    ensures var (after, effects) := DatagramStep(b, w, generation, sender, message);
            Settles(b, after, effects, DatagramShape(b, w, message)) && Inv(after)
  {
    hide Split;
    SplitParts(message);
    match Parse(message)
    case Commit2(id, session, text) =>
      hide Commit2Step;
      hide Settles;
      hide Inv;
      Commit2Settles(b, w, id, session, text, sender);
    case _ =>
      hide Commit2Step;
      hide ContextResponse;
  }

  lemma ReactSettles(b: Bridge, m: Moment)
    requires Inv(b)
    ensures var (after, effects) := React(b, m.world, m.generation, m.stimulus);
            Settles(b, after, effects, ShapeOf(b, m)) && Inv(after)
  {
    hide DatagramStep;
    hide DatagramShape;
    hide TurnStep;
    match m.stimulus
    case Turn => TurnSettles(b, m.world);
    case Datagram(sender, message) => DatagramSettles(b, m.world, m.generation, sender, message);
  }

  /** A commitString call targets the armed context, which then has focus, is the last focused, and is not secure. */
  lemma CallsAreFocused(b: Bridge, m: Moment, e: Effect)
    requires Inv(b) && e.CommitString? && e in React(b, m.world, m.generation, m.stimulus).1
    ensures b.armed == Some(e.context) && Usable(m.world, b.armed) && !SecureContextOf(m.world, b.armed)
    ensures m.stimulus.Turn? && e.origin == OriginOf(b)
  {
    ReactSettles(b, m);
    if m.stimulus.Datagram? {
      hide DatagramStep;
    }
  }

  lemma {:induction false} RunKeepsInv(moments: seq<Moment>)
    ensures Inv(Run(INITIAL, moments).0)
  {
    hide React;
    if moments != [] {
      var n := |moments| - 1;
      RunKeepsInv(moments[..n]);
      ReactSettles(Run(INITIAL, moments[..n]).0, moments[n]);
    }
  }

  // ----- commits never exceed arms

  /** One arm of a session that has been accepted but not yet used up. */
  function Owed(b: Bridge, session: bytes): nat {
    if b.deferred.NoEvent? then (if b.armed.Some? && b.armedSession == session then 1 else 0)
    else if OriginOf(b).session == session then 1 else 0
  }

  lemma SettleBalances(b: Bridge, after: Bridge, effects: seq<Effect>, shape: Shape, session: bytes)
    requires Settles(b, after, effects, shape)
    ensures Commits(effects, session) + Owed(after, session) <= Owed(b, session) + ArmCount(effects, session)
  {
    if |effects| == 1 {
      CountOne(effects[0], session);
      assert effects == [effects[0]];
    } else if |effects| == 2 {
      CountOne(effects[0], session);
      CountOne(effects[1], session);
      CountsAdd([effects[0]], [effects[1]], session);
      assert effects == [effects[0]] + [effects[1]];
    }
  }

  lemma CountOne(e: Effect, key: bytes)
    ensures Commits([e], key) == if ServesSession(e, key) then 1 else 0
    ensures Calls([e], key) == if ServesRequest(e, key) then 1 else 0
    ensures ArmCount([e], key) == if Arms(e, key) then 1 else 0
  {
    assert [e][..0] == [];
  }

  /** In every run the calls made for a session and the one still owed never exceed the session's successful ARMs. */
  lemma {:induction false} CommitsNeverExceedArms(moments: seq<Moment>, session: bytes)
    ensures var (b, effects) := Run(INITIAL, moments);
            Commits(effects, session) + Owed(b, session) <= ArmCount(effects, session)
  {
    if moments != [] {
      hide React;
      hide Settles;
      hide ShapeOf;
      hide Owed;
      var n := |moments| - 1;
      CommitsNeverExceedArms(moments[..n], session);
      RunKeepsInv(moments[..n]);
      var (mid, effects) := Run(INITIAL, moments[..n]);
      var m := moments[n];
      ReactSettles(mid, m);
      var (after, more) := React(mid, m.world, m.generation, m.stimulus);
      SettleBalances(mid, after, more, ShapeOf(mid, m), session);
      CountsAdd(effects, more, session);
    } else {
      assert Owed(INITIAL, session) == 0;
    }
  }

  // ----- an acknowledgement means exactly one call

  /** Every COMMIT2 datagram with this id carries this session and text: the client resends identical bytes. */
  predicate Faithful(moments: seq<Moment>, request: Origin) {
    forall i :: 0 <= i < |moments| && moments[i].stimulus.Datagram? ==>
      var c := Parse(moments[i].stimulus.message);
      c.Commit2? && c.id == request.id ==> c.session == request.session && c.text == request.text
  }

  predicate ConfirmsRequest(e: Effect, id: bytes) {
    e.Sent? && e.response == DispatchedFor(id)
  }

  ghost predicate Explained(b: Bridge, effects: seq<Effect>, request: Origin) {
    && (!b.deferred.NoEvent? && OriginOf(b).id == request.id ==> OriginOf(b) == request)
    && (forall e :: e in effects && ServesRequest(e, request.id) ==> e.origin == request)
    && ((exists e :: e in effects && ConfirmsRequest(e, request.id)) || b.completed.response == DispatchedFor(request.id)
        ==> Calls(effects, request.id) >= 1)
    && (forall e :: e in effects && e.Sent? && e.response.DispatchedFor? ==> NulFree(e.response.id))
  }

  /** Confirmations come from the cache or from the call just made, and a queued request is the faithful one. */
  ghost predicate Accounted(b: Bridge, after: Bridge, effects: seq<Effect>, shape: Shape, request: Origin) {
    && (forall e :: e in effects && e.Sent? && e.response.DispatchedFor? ==>
          NulFree(e.response.id)
          && (e.response == b.completed.response || (|effects| == 2 && ServesRequest(effects[0], e.response.id))))
    && (after.completed.response == b.completed.response || after.completed.response.Rejected?
        || (|effects| == 2 && effects[0].CommitString?
            && after.completed.response == DispatchedFor(effects[0].origin.id)))
    && (shape.Queueing? && shape.origin.id == request.id ==> shape.origin == request)
  }

  lemma TurnAccounts(b: Bridge, w: World, request: Origin)
    requires Inv(b)
    ensures Accounted(b, TurnStep(b, w).0, TurnStep(b, w).1, if b.deferred.NoEvent? then Other else Firing, request)
  {
    hide Fingerprint.Fnv;
    hide Usable;
    hide SecureContextOf;
  }

  lemma Commit2Accounts(b: Bridge, w: World, id: bytes, session: bytes, text: bytes, sender: Client, request: Origin)
    requires Inv(b) && (id == request.id ==> session == request.session && text == request.text)
    ensures var (after, effects) := Commit2Step(b, w, id, session, text, sender);
            var queued := id != [] && id != b.completed.id && id != b.pending.id
                          && Admission(b, w, session, text).1.None?;
            Accounted(b, after, effects, if queued then Queueing(Origin(id, session, text)) else Other, request)
  {
    hide Fingerprint.Fnv;
    hide Usable;
    hide SecureContextOf;
  }

  lemma DatagramAccounts(b: Bridge, w: World, generation: nat, sender: Client, message: bytes, request: Origin)
    requires Inv(b) && request.id != []
    requires var c := Parse(message);
             c.Commit2? && c.id == request.id ==> c.session == request.session && c.text == request.text
    ensures var (after, effects) := DatagramStep(b, w, generation, sender, message);
            Accounted(b, after, effects, DatagramShape(b, w, message), request)
  {
    hide Usable;
    hide SecureContextOf;
    hide ContextResponse;
    DescribeIsNoDispatch(w, generation);
    match Parse(message)
    case Commit2(id, session, text) =>
      Commit2Accounts(b, w, id, session, text, sender, request);
      hide Commit2Step;
      hide Admission;
      hide Parse;
    case _ =>
      hide Commit2Step;
      hide Parse;
  }

  lemma ReactAccounts(b: Bridge, m: Moment, request: Origin)
    requires Inv(b) && request.id != [] && Faithful([m], request)
    ensures var (after, effects) := React(b, m.world, m.generation, m.stimulus);
            Accounted(b, after, effects, ShapeOf(b, m), request)
  {
    hide TurnStep;
    hide DatagramStep;
    hide DatagramShape;
    hide Accounted;
    hide Parse;
    match m.stimulus
    case Turn => TurnAccounts(b, m.world, request);
    case Datagram(sender, message) =>
      assert [m][0] == m;
      DatagramAccounts(b, m.world, m.generation, sender, message, request);
  }

  lemma DescribeIsNoDispatch(w: World, generation: nat)
    ensures !ContextResponse(w, generation).DispatchedFor?
  {
  }

  lemma FaithfulParts(moments: seq<Moment>, request: Origin)
    requires moments != [] && Faithful(moments, request)
    ensures Faithful(moments[..|moments| - 1], request) && Faithful([moments[|moments| - 1]], request)
  {
    var n := |moments| - 1;
    forall i | 0 <= i < n ensures moments[..n][i] == moments[i] {
    }
  }

  lemma SettleExplains(b: Bridge, after: Bridge, before: seq<Effect>, effects: seq<Effect>, shape: Shape, request: Origin)
    requires Settles(b, after, effects, shape) && Explained(b, before, request) && request.id != []
    requires b.deferred.NoEvent? ==> b.pending.id == []
    requires Accounted(b, after, effects, shape, request)
    ensures Explained(after, before + effects, request)
  {
    CountsAdd(before, effects, request.id);
    if |effects| == 2 {
      CountOne(effects[0], request.id);
      CountOne(effects[1], request.id);
      CountsAdd([effects[0]], [effects[1]], request.id);
      assert effects == [effects[0]] + [effects[1]];
    }
  }

  lemma {:induction false} RunExplains(moments: seq<Moment>, request: Origin)
    requires request.id != [] && Faithful(moments, request)
    ensures var (b, effects) := Run(INITIAL, moments); Explained(b, effects, request)
  {
    if moments != [] {
      hide React;
      hide Settles;
      hide ShapeOf;
      hide Explained;
      hide Accounted;
      var n := |moments| - 1;
      FaithfulParts(moments, request);
      RunExplains(moments[..n], request);
      RunKeepsInv(moments[..n]);
      var (mid, effects) := Run(INITIAL, moments[..n]);
      var m := moments[n];
      ReactSettles(mid, m);
      ReactAccounts(mid, m, request);
      var (after, more) := React(mid, m.world, m.generation, m.stimulus);
      SettleExplains(mid, after, effects, more, ShapeOf(mid, m), request);
    }
  }

  lemma {:induction false} CallsServeTheSession(effects: seq<Effect>, request: Origin)
    requires forall e :: e in effects && ServesRequest(e, request.id) ==> e.origin == request
    ensures Calls(effects, request.id) <= Commits(effects, request.session)
  {
    if effects != [] {
      CallsServeTheSession(effects[..|effects| - 1], request);
    }
  }

  /** The client's view: it resends identical bytes, its session was armed at most once, and some response it
      accepts as the dispatch of its request id was sent. Then exactly one commitString call was made for that id,
      and it carried that session and text; without a confirmation there was at most one. */
  lemma ConfirmationMeansOneCall(moments: seq<Moment>, request: Origin)
    requires request.id != [] && Faithful(moments, request)
    requires ArmCount(Run(INITIAL, moments).1, request.session) <= 1
    ensures var effects := Run(INITIAL, moments).1;
            && Calls(effects, request.id) <= 1
            && (forall e :: e in effects && ServesRequest(e, request.id) ==> e.origin == request)
            && (forall e :: e in effects && e.Sent? && ConfirmsDispatch(EncodeResponse(e.response), request.id) ==>
                  Calls(effects, request.id) == 1)
  {
    hide ConfirmsDispatch;
    var (b, effects) := Run(INITIAL, moments);
    RunExplains(moments, request);
    CallsServeTheSession(effects, request);
    CommitsNeverExceedArms(moments, request.session);
    forall e | e in effects && e.Sent? && ConfirmsDispatch(EncodeResponse(e.response), request.id)
      ensures Calls(effects, request.id) == 1
    {
      ConfirmsOnlyOwnDispatch(e.response, request.id);
      assert ConfirmsRequest(e, request.id);
    }
  }

  // ----- which context the text goes to

  /** The most recent successful ARM. */
  function LastArm(effects: seq<Effect>): Option<(bytes, ContextId)> {
    if effects == [] then None
    else
      var last := effects[|effects| - 1];
      if last.Armed? then Some((last.session, last.context)) else LastArm(effects[..|effects| - 1])
  }

  lemma {:induction false} LastArmAppends(a: seq<Effect>, b: seq<Effect>)
    ensures LastArm(a + b) == if LastArm(b).Some? then LastArm(b) else LastArm(a)
  {
    if b == [] {
      assert a + b == a;
    } else {
      var n := |b| - 1;
      assert (a + b)[..|a| + n] == a + b[..n];
      LastArmAppends(a, b[..n]);
    }
  }

  lemma SettleLastArm(b: Bridge, after: Bridge, effects: seq<Effect>, shape: Shape)
    requires Settles(b, after, effects, shape)
    ensures LastArm(effects) == if shape.Arming? then Some((shape.session, after.armed.value)) else None
  {
    if |effects| == 2 {
      assert LastArm(effects[..1]) == if effects[0].Armed? then Some((effects[0].session, effects[0].context)) else None by {
        assert effects[..1][..0] == [];
      }
    } else if |effects| == 1 {
      assert effects[..0] == [];
    }
  }

  /** The armed context is always that of the most recent successful ARM. */
  lemma {:induction false} ArmedIsLastArm(moments: seq<Moment>)
    ensures var (b, effects) := Run(INITIAL, moments);
            b.armed.Some? ==> LastArm(effects) == Some((b.armedSession, b.armed.value))
  {
    if moments != [] {
      hide React;
      hide ShapeOf;
      var n := |moments| - 1;
      ArmedIsLastArm(moments[..n]);
      RunKeepsInv(moments[..n]);
      var (mid, effects) := Run(INITIAL, moments[..n]);
      var m := moments[n];
      ReactSettles(mid, m);
      var (after, more) := React(mid, m.world, m.generation, m.stimulus);
      SettleLastArm(mid, after, more, ShapeOf(mid, m));
      LastArmAppends(effects, more);
    }
  }

  /** A call made after a run goes to the most recently armed context, whichever session that arm was for. */
  lemma CallGoesToLastArm(moments: seq<Moment>, m: Moment, e: Effect)
    requires var b := Run(INITIAL, moments).0;
             e.CommitString? && e in React(b, m.world, m.generation, m.stimulus).1
    ensures var (b, effects) := Run(INITIAL, moments);
            LastArm(effects) == Some((b.armedSession, e.context)) && e.origin == OriginOf(b)
  {
    hide React;
    var b := Run(INITIAL, moments).0;
    RunKeepsInv(moments);
    CallsAreFocused(b, m, e);
    ArmedIsLastArm(moments);
  }

  /** The addon accepts an ARM: the datagram asks for one, and a context is focused and not secure. */
  predicate AcceptsArm(m: Moment) {
    && m.stimulus.Datagram? && 0 < |m.stimulus.message| <= MAX_DATAGRAM
    && Parse(m.stimulus.message).Arm? && FocusedContext(m.world).Ok?
  }

  /** The session of the last ARM accepted since the last commit was queued, if there was one. */
  function RearmedSince(moments: seq<Moment>): Option<bytes> {
    if moments == [] then None
    else
      var n := |moments| - 1;
      if AcceptsArm(moments[n]) then Some(Parse(moments[n].stimulus.message).session)
      else if ShapeOf(Run(INITIAL, moments[..n]).0, moments[n]).Queueing? then None
      else RearmedSince(moments[..n])
  }

  lemma ArmingAcceptsArm(b: Bridge, m: Moment)
    ensures ShapeOf(b, m).Arming? <==> AcceptsArm(m)
    ensures AcceptsArm(m) ==> ShapeOf(b, m) == Arming(Parse(m.stimulus.message).session)
  {
    hide Parse;
    hide Admission;
  }

  /** While a commit waits, the arm is for its session unless a later ARM replaced it. */
  lemma {:induction false} PendingArm(moments: seq<Moment>)
    ensures var b := Run(INITIAL, moments).0;
            !b.deferred.NoEvent? ==>
              b.armed.Some?
              && b.armedSession == if RearmedSince(moments).Some? then RearmedSince(moments).value else OriginOf(b).session
  {
    if moments != [] {
      hide React;
      hide ShapeOf;
      hide AcceptsArm;
      var n := |moments| - 1;
      PendingArm(moments[..n]);
      RunKeepsInv(moments[..n]);
      ReactSettles(Run(INITIAL, moments[..n]).0, moments[n]);
      ArmingAcceptsArm(Run(INITIAL, moments[..n]).0, moments[n]);
    }
  }

  /** A text goes to the context armed for its own session if and only if the last ARM accepted since its commit was
      queued, if there was one, was for that session. */
  lemma TextReachesItsOwnContext(moments: seq<Moment>, m: Moment, e: Effect)
    requires e.CommitString? && e in React(Run(INITIAL, moments).0, m.world, m.generation, m.stimulus).1
    ensures LastArm(Run(INITIAL, moments).1).Some? && LastArm(Run(INITIAL, moments).1).value.1 == e.context
    ensures LastArm(Run(INITIAL, moments).1).value.0 == e.origin.session <==>
              RearmedSince(moments).None? || RearmedSince(moments) == Some(e.origin.session)
  {
    hide Run;
    hide RearmedSince;
    hide LastArm;
    hide React;
    hide ShapeOf;
    var b := Run(INITIAL, moments).0;
    RunKeepsInv(moments);
    CallGoesToLastArm(moments, m, e);
    CallsAreFocused(b, m, e);
    ReactSettles(b, m);
    TurnIsFiring(b, m);
    PendingArm(moments);
  }

  lemma TurnIsFiring(b: Bridge, m: Moment)
    requires m.stimulus.Turn?
    ensures ShapeOf(b, m) == if b.deferred.NoEvent? then Other else Firing
  {
  }

  /** The condition can fail: an ARM accepted for another session while a commit waits redirects that commit's text. */
  lemma ArmWhilePendingRedirects(b: Bridge, first: World, second: World, id: bytes, own: bytes, other: bytes, text: bytes)
    requires Inv(b) && b.deferred.NoEvent? && id != [] && id != b.completed.id && text != [] && own != other
    requires FocusedContext(first).Ok? && FocusedContext(second).Ok?
    ensures var armed := ArmStep(b, first, own).0;
            var pending := Commit2Step(armed, first, id, own, text, 0).0;
            var rearmed := ArmStep(pending, second, other).0;
            TurnStep(rearmed, second).1 ==
            [CommitString(FocusedContext(second).value, Origin(id, own, text)), Sent(0, DispatchedFor(id))]
  {
    hide Fingerprint.Fnv;
  }

  // ----- the client never falls back

  predicate CacheIsKnown(b: Bridge) {
    b.completed.id != [] ==> b.completed.response != Rejected(UnknownCommand)
  }

  /** A commit or a deferred turn is never answered as an unknown command. */
  lemma ReactIsKnown(b: Bridge, m: Moment)
    requires CacheIsKnown(b)
    ensures CacheIsKnown(React(b, m.world, m.generation, m.stimulus).0)
    ensures m.stimulus.Turn? || Parse(m.stimulus.message).Commit2? ==>
              forall e :: e in React(b, m.world, m.generation, m.stimulus).1 && e.Sent? ==>
                e.response != Rejected(UnknownCommand)
  {
    hide Fingerprint.Fnv;
    hide Parse;
    hide Usable;
    hide SecureContextOf;
    hide ContextResponse;
  }

  lemma {:induction false} RunCacheIsKnown(moments: seq<Moment>)
    ensures CacheIsKnown(Run(INITIAL, moments).0)
  {
    hide React;
    hide CacheIsKnown;
    if moments != [] {
      var n := |moments| - 1;
      RunCacheIsKnown(moments[..n]);
      ReactIsKnown(Run(INITIAL, moments[..n]).0, moments[n]);
    } else {
      InitialCacheIsKnown();
    }
  }

  lemma InitialCacheIsKnown()
    ensures CacheIsKnown(INITIAL)
  {
  }

  /** Whatever happened before, this addon never answers a tagged commit so that the client sends it untagged: the
      fallback cannot insert a text twice. */
  lemma TaggedCommitIsKnown(moments: seq<Moment>, m: Moment, e: Effect)
    requires e.Sent? && e in React(Run(INITIAL, moments).0, m.world, m.generation, m.stimulus).1
    requires m.stimulus.Turn? || Parse(m.stimulus.message).Commit2?
    ensures !SaysUnknownCommand(EncodeResponse(e.response))
  {
    hide *;
    RunCacheIsKnown(moments);
    ReactIsKnown(Run(INITIAL, moments).0, m);
    KnownAnswers(e.response);
  }
}
