/** What the addon must do: the course of an insertion, what a cancellation stops, and what every request is answered. */
module FcitxOutcomes {
  import opened Base
  import opened FcitxWire
  import opened FcitxBridge
  import opened FcitxBridgeLaws
  import FcitxContext
  import Fingerprint
  import Utf8

  // ----- reading the requests

  lemma VerbIsRead(verb: bytes, rest: bytes)
    requires NulFree(verb)
    ensures Field(verb + [0] + rest, 0) == verb && forall k: nat :: Field(verb + [0] + rest, k + 1) == Field(rest, k)
  {
    hide Split;
    SplitHead(verb, rest);
  }

  lemma CancelIsRead(session: bytes)
    requires NulFree(session)
    ensures Parse(CANCEL + [0] + session) == Cancel(session)
    ensures Parse(ARM + [0] + session) == Arm(session)
  {
    hide Split;
    hide Field;
    VerbIsRead(CANCEL, session);
    VerbIsRead(ARM, session);
    AloneIsRead(session);
  }

  lemma AloneIsRead(field: bytes)
    requires NulFree(field)
    ensures Field(field, 0) == field
  {
    SplitNulFree(field);
  }

  lemma PingIsRead()
    ensures Parse(PING) == Ping && Parse(CONTEXT) == Context
  {
    hide Split;
    hide Field;
    AloneIsRead(PING);
    AloneIsRead(CONTEXT);
  }

  lemma LegacyIsRead(session: bytes, text: bytes)
    requires NulFree(session) && NulFree(text)
    ensures Parse(COMMIT + [0] + (session + [0] + text)) == Commit(session, text)
  {
    hide Split;
    hide Field;
    VerbIsRead(COMMIT, session + [0] + text);
    VerbIsRead(session, text);
    AloneIsRead(text);
    assert Field(COMMIT + [0] + (session + [0] + text), 0 + 1) == session;
    assert Field(COMMIT + [0] + (session + [0] + text), 1 + 1) == Field(session + [0] + text, 0 + 1) == text;
  }

  // ----- cancelling

  /** An arm of another session is held. */
  predicate HoldsOther(b: Bridge, session: bytes) {
    b.armed.Some? && b.armedSession != [] && b.armedSession != session
  }

  /** The datagram asks to cancel this session. */
  predicate AsksCancel(m: Moment, session: bytes) {
    && m.stimulus.Datagram? && 0 < |m.stimulus.message| <= 64 * 1024
    && Parse(m.stimulus.message) == Cancel(session)
  }

  /** In every run a cancellation is refused exactly while an arm of another session is held, and then changes nothing;
      otherwise the arm and whatever waits are dropped. */
  lemma CancelAnswered(moments: seq<Moment>, m: Moment, session: bytes)
    requires AsksCancel(m, session)
    ensures var b := Run(INITIAL, moments).0;
            var (after, effects) := React(b, m.world, m.generation, m.stimulus);
            if HoldsOther(b, session) then
              after == b && effects == [Sent(m.stimulus.sender, Rejected(SessionMismatch))]
            else
              effects == [Sent(m.stimulus.sender, CancelledOk)] && after.armed.None? && after.armedSession == []
              && after.deferred.NoEvent? && !after.legacyPending && after.pending.id == [] && after.completed == b.completed
  {
    RunKeepsInv(moments);
    hide Run;
    hide Parse;
  }

  predicate IsCancelled(e: Effect) {
    e.Sent? && e.response == CancelledOk
  }

  /** The last of the arms and accepted cancellations is a cancellation. */
  function CancelledLast(effects: seq<Effect>): bool {
    if effects == [] then false
    else
      var last := effects[|effects| - 1];
      if IsCancelled(last) then true else if last.Armed? then false else CancelledLast(effects[..|effects| - 1])
  }

  lemma {:induction false} CancelledLastAppends(a: seq<Effect>, b: seq<Effect>)
    ensures CancelledLast(a + b) ==
            if exists i :: 0 <= i < |b| && (IsCancelled(b[i]) || b[i].Armed?) then CancelledLast(b) else CancelledLast(a)
  {
    if b == [] {
      assert a + b == a;
    } else {
      var n := |b| - 1;
      assert (a + b)[..|a| + n] == a + b[..n];
      CancelledLastAppends(a, b[..n]);
      if i :| 0 <= i < n && (IsCancelled(b[i]) || b[i].Armed?) {
        assert b[..n][i] == b[i];
      }
    }
  }

  /** Nothing is armed and nothing waits. */
  predicate AtRest(b: Bridge) {
    b.armed.None? && b.deferred.NoEvent?
  }

  /** An accepted cancellation leaves the addon at rest, and only an arm ends that. */
  predicate Rests(b: Bridge, after: Bridge, effects: seq<Effect>) {
    && ((exists i :: 0 <= i < |effects| && IsCancelled(effects[i])) ==> |effects| == 1 && AtRest(after))
    && (AtRest(b) && (forall i :: 0 <= i < |effects| ==> !effects[i].Armed?) ==>
          AtRest(after) && forall i :: 0 <= i < |effects| ==> !effects[i].CommitString?)
  }

  lemma ReactRests(b: Bridge, m: Moment)
    requires Inv(b)
    ensures Rests(b, React(b, m.world, m.generation, m.stimulus).0, React(b, m.world, m.generation, m.stimulus).1)
  {
    var (after, effects) := React(b, m.world, m.generation, m.stimulus);
    ReactSettles(b, m);
    CancelledComesFromCancel(b, m);
    hide React;
    hide ShapeOf;
    hide OriginOf;
  }

  lemma CancelledComesFromCancel(b: Bridge, m: Moment)
    requires Inv(b)
    ensures var (after, effects) := React(b, m.world, m.generation, m.stimulus);
            (exists i :: 0 <= i < |effects| && IsCancelled(effects[i])) ==> |effects| == 1 && AtRest(after)
  {
    hide Parse;
    hide Fingerprint.Fnv;
    hide Usable;
    hide SecureContextOf;
    hide FcitxContext.SnapshotParts;
    hide FcitxContext.VisibleText;
    hide NulFree;
  }

  lemma {:induction false} CancelledNever(effects: seq<Effect>)
    requires forall i :: 0 <= i < |effects| ==> !IsCancelled(effects[i])
    ensures !CancelledLast(effects)
  {
    hide IsCancelled;
    if effects != [] {
      CancelledNever(effects[..|effects| - 1]);
    }
  }

  /** After an accepted cancellation nothing is armed and nothing waits, until the next arm. */
  lemma {:induction false} CancelledStaysAtRest(moments: seq<Moment>)
    ensures var (b, effects) := Run(INITIAL, moments); CancelledLast(effects) ==> AtRest(b)
  {
    hide React;
    hide CancelledLast;
    hide IsCancelled;
    hide AtRest;
    if moments == [] {
      CancelledNever([]);
    } else {
      var n := |moments| - 1;
      CancelledStaysAtRest(moments[..n]);
      RunKeepsInv(moments[..n]);
      var (mid, effects) := Run(INITIAL, moments[..n]);
      var m := moments[n];
      ReactRests(mid, m);
      var more := React(mid, m.world, m.generation, m.stimulus).1;
      CancelledLastAppends(effects, more);
      if forall i :: 0 <= i < |more| ==> !IsCancelled(more[i]) {
        CancelledNever(more);
      }
    }
  }

  lemma {:induction false} LastIsCancelled(effects: seq<Effect>, i: nat)
    requires i < |effects| && IsCancelled(effects[i])
    requires forall k :: i < k < |effects| ==> !effects[k].Armed?
    ensures CancelledLast(effects)
  {
    if i < |effects| - 1 {
      LastIsCancelled(effects[..|effects| - 1], i);
    }
  }

  /** In every run, between an accepted cancellation and a later call lies an arm. */
  lemma {:induction false} CancelStopsTheCall(moments: seq<Moment>, i: nat, j: nat)
    requires var effects := Run(INITIAL, moments).1;
             i < j < |effects| && IsCancelled(effects[i]) && effects[j].CommitString?
    ensures exists k :: i < k < j && Run(INITIAL, moments).1[k].Armed?
  {
    hide React;
    hide CancelledLast;
    hide IsCancelled;
    hide AtRest;
    var n := |moments| - 1;
    var (mid, effects) := Run(INITIAL, moments[..n]);
    var m := moments[n];
    var more := React(mid, m.world, m.generation, m.stimulus).1;
    var all := effects + more;
    assert all == Run(INITIAL, moments).1;
    if j < |effects| {
      CancelStopsTheCall(moments[..n], i, j);
      var k :| i < k < j && effects[k].Armed?;
      assert all[k].Armed?;
    } else {
      RunKeepsInv(moments[..n]);
      ReactRests(mid, m);
      CallsComeAlone(mid, m, j - |effects|);
      CancelledStaysAtRest(moments[..n]);
      if forall k :: i < k < |effects| ==> !effects[k].Armed? {
        LastIsCancelled(effects, i);
        assert false;
      }
      var k :| i < k < |effects| && effects[k].Armed?;
      assert all[k].Armed?;
    }
  }

  lemma CallsComeAlone(b: Bridge, m: Moment, j: nat)
    requires Inv(b) && j < |React(b, m.world, m.generation, m.stimulus).1|
    requires React(b, m.world, m.generation, m.stimulus).1[j].CommitString?
    ensures j == 0 && !AtRest(b)
    ensures forall e :: e in React(b, m.world, m.generation, m.stimulus).1 ==> !e.Armed?
  {
    ReactSettles(b, m);
    hide React;
    hide ShapeOf;
    hide OriginOf;
  }

  /** A commit the addon was not armed for is refused at once; nothing is queued. */
  lemma CommitAtRestIsRefused(b: Bridge, m: Moment)
    requires Inv(b) && AtRest(b) && m.stimulus.Datagram? && 0 < |m.stimulus.message| <= 64 * 1024
    requires Parse(m.stimulus.message).Commit? || Parse(m.stimulus.message).Commit2?
    ensures var (after, effects) := React(b, m.world, m.generation, m.stimulus);
            AtRest(after) && |effects| == 1 && effects[0].Sent? && effects[0].client == m.stimulus.sender
    ensures Parse(m.stimulus.message).Commit? ==>
              React(b, m.world, m.generation, m.stimulus).1[0].response.Rejected?
    ensures var c := Parse(m.stimulus.message);
            c.Commit2? && c.id != b.completed.id ==> React(b, m.world, m.generation, m.stimulus).1[0].response.Rejected?
  {
    hide Fingerprint.Fnv;
    hide Parse;
  }

  // ----- the course of an insertion

  /** A context that may be armed: focused last and still, and not secure. */
  predicate Receptive(w: World, c: ContextId) {
    w.lastFocused == Some(c) && c in w.surfaces && w.surfaces[c].focused && !w.surfaces[c].secure
  }

  /** An ARM arms the receptive context for its session, and is refused, changing nothing, exactly when there is none. */
  lemma ArmAnswered(b: Bridge, m: Moment, session: bytes)
    requires m.stimulus.Datagram? && 0 < |m.stimulus.message| <= 64 * 1024 && Parse(m.stimulus.message) == Arm(session)
    ensures var (after, effects) := React(b, m.world, m.generation, m.stimulus);
            var w, sender := m.world, m.stimulus.sender;
            if w.lastFocused.Some? && Receptive(w, w.lastFocused.value) then
              var c := w.lastFocused.value;
              after == b.(armed := Some(c), armedSession := session)
              && effects == [Armed(session, c),
                             Sent(sender, ArmedFor(Utf8.Encode(w.surfaces[c].program),
                                                   Utf8.Encode(w.surfaces[c].frontend)))]
            else
              after == b
              && effects == [Sent(sender, Rejected(
                                    if w.lastFocused.Some? && w.lastFocused.value in w.surfaces
                                       && w.surfaces[w.lastFocused.value].focused then SecureContext
                                    else NoFocusedContext))]
  {
    hide Parse;
    hide Utf8.Encode;
  }

  /** Why a new commit is not queued: another waits, it is not for the armed session, the armed context is no longer
      focused or has become secure, or it has no text. */
  function Obstacle(b: Bridge, w: World, session: bytes, text: bytes): Option<Detail> {
    if !b.deferred.NoEvent? then Some(CommitBusy)
    else if session != b.armedSession then Some(SessionMismatch)
    else if b.armed.None? || b.armed.value !in w.surfaces || !w.surfaces[b.armed.value].focused
            || w.lastFocused != b.armed then Some(FocusChanged)
    else if w.surfaces[b.armed.value].secure then Some(SecureContext)
    else if text == [] then Some(EmptyText)
    else None
  }

  /** A new tagged commit is queued, without an answer, exactly when nothing stands in its way; losing the armed context
      to another focus or a secure field also disarms. A repeated one is answered like the first, or waits with it. */
  lemma TaggedAnswered(b: Bridge, m: Moment, id: bytes, session: bytes, text: bytes)
    requires Inv(b) && m.stimulus.Datagram? && 0 < |m.stimulus.message| <= 64 * 1024
    requires Parse(m.stimulus.message) == Commit2(id, session, text)
    ensures var (after, effects) := React(b, m.world, m.generation, m.stimulus);
            var obstacle, sender := Obstacle(b, m.world, session, text), m.stimulus.sender;
            if id == [] then after == b && effects == [Sent(sender, Rejected(RequestIdRequired))]
            else if id == b.completed.id then
              after == b
              && effects == [Sent(sender, if session == b.completed.session && |text| == b.completed.size
                                             && Fingerprint.Fnv(text) == b.completed.fingerprint
                                          then b.completed.response else Rejected(RequestIdMismatch))]
            else if id == b.pending.id then
              if session == b.pending.session && text == b.pending.text then
                after == b.(pending := Pending(id, session, text, sender)) && effects == []
              else after == b && effects == [Sent(sender, Rejected(RequestIdMismatch))]
            else match obstacle
                 case None =>
                   after == b.(pending := Pending(id, session, text, sender), deferred := Tagged) && effects == []
                 case Some(detail) =>
                   effects == [Sent(sender, Rejected(detail))]
                   && (if detail.FocusChanged? || detail.SecureContext? then AtRest(after) && after.armedSession == []
                       else after == b)
  {
    hide Parse;
    hide Fingerprint.Fnv;
  }

  /** A legacy commit is queued or refused on the same conditions. */
  lemma LegacyAnswered(b: Bridge, m: Moment, session: bytes, text: bytes)
    requires Inv(b) && m.stimulus.Datagram? && 0 < |m.stimulus.message| <= 64 * 1024
    requires Parse(m.stimulus.message) == Commit(session, text)
    ensures var (after, effects) := React(b, m.world, m.generation, m.stimulus);
            var obstacle, sender := Obstacle(b, m.world, session, text), m.stimulus.sender;
            match obstacle
            case None => after == b.(legacyPending := true, deferred := Legacy(session, text, sender)) && effects == []
            case Some(detail) =>
              effects == [Sent(sender, Rejected(detail))]
              && (if detail.FocusChanged? || detail.SecureContext? then AtRest(after) && after.armedSession == []
                  else after == b)
  {
    hide Parse;
  }

  /** The deferred turn commits what waits if the armed context is still receptive, answers its client, remembers a
      tagged answer and disarms; without anything waiting it does nothing. */
  lemma TurnAnswered(b: Bridge, m: Moment)
    requires Inv(b) && m.stimulus.Turn?
    ensures var (after, effects) := React(b, m.world, m.generation, m.stimulus);
            var call := b.armed.Some? && Receptive(m.world, b.armed.value);
            var refusal := Rejected(if b.armed.Some? && b.armed.value in m.world.surfaces
                                       && m.world.surfaces[b.armed.value].secure then SecureContext else FocusChanged);
            match b.deferred
            case NoEvent => after == b && effects == []
            case Legacy(session, text, sender) =>
              AtRest(after) && after.armedSession == [] && after.completed == b.completed
              && effects == if call then [CommitString(b.armed.value, Origin([], session, text)), Sent(sender, Dispatched)]
                            else [Sent(sender, refusal)]
            case Tagged =>
              var p := b.pending;
              var answer := if call then DispatchedFor(p.id) else refusal;
              AtRest(after) && after.armedSession == [] && after.pending.id == []
              && after.completed == Completed(p.id, p.session, |p.text|, Fingerprint.Fnv(p.text), answer)
              && effects == (if call then [CommitString(b.armed.value, Origin(p.id, p.session, p.text))] else [])
                            + [Sent(p.sender, answer)]
  {
    hide Fingerprint.Fnv;
  }

  /** The client's course: ARM, one tagged commit, the turn, and the same commit again. The text is inserted once into
      the armed context, and both the request and its repetition are confirmed. */
  lemma TaggedInsertion(b: Bridge, w: World, c: ContextId, id: bytes, session: bytes, text: bytes, first: Client,
                        later: Client)
    requires Inv(b) && b.deferred.NoEvent? && Receptive(w, c)
    requires NulFree(id) && NulFree(session) && NulFree(text) && id != [] && text != [] && id != b.completed.id
    requires |Join([COMMIT2, id, session, text])| <= 60 * 1024
    ensures var commit := Join([COMMIT2, id, session, text]);
            var moments := [Moment(w, 0, Datagram(first, ARM + [0] + session)), Moment(w, 0, Datagram(first, commit)),
                            Moment(w, 0, Turn), Moment(w, 0, Datagram(later, commit))];
            var (after, effects) := Run(b, moments);
            && AtRest(after)
            && effects == [Armed(session, c),
                           Sent(first, ArmedFor(Utf8.Encode(w.surfaces[c].program), Utf8.Encode(w.surfaces[c].frontend))),
                           CommitString(c, Origin(id, session, text)), Sent(first, DispatchedFor(id)),
                           Sent(later, DispatchedFor(id))]
  {
    hide React;
    hide Parse;
    hide Join;
    hide NulFree;
    hide Inv;
    hide Fingerprint.Fnv;
    hide Utf8.Encode;
    var commit := Join([COMMIT2, id, session, text]);
    var arm := ARM + [0] + session;
    CommitLengths(id, session, text);
    CancelIsRead(session);
    CommitRequestIsRead(id, session, text);
    var m0, m1, m2, m3 := Moment(w, 0, Datagram(first, arm)), Moment(w, 0, Datagram(first, commit)), Moment(w, 0, Turn),
                          Moment(w, 0, Datagram(later, commit));
    ArmAnswered(b, m0, session);
    ReactSettles(b, m0);
    var b1 := React(b, w, 0, m0.stimulus).0;
    TaggedAnswered(b1, m1, id, session, text);
    ReactSettles(b1, m1);
    NothingPending(b1);
    var b2 := React(b1, w, 0, m1.stimulus).0;
    TurnAnswered(b2, m2);
    ReactSettles(b2, m2);
    var b3 := React(b2, w, 0, m2.stimulus).0;
    TaggedAnswered(b3, m3, id, session, text);
    hide Settles;
    hide ShapeOf;
    RunOfFour(b, m0, m1, m2, m3);
  }

  lemma NothingPending(b: Bridge)
    requires Inv(b) && b.deferred.NoEvent?
    ensures b.pending.id == []
  {
  }

  lemma CommitLengths(id: bytes, session: bytes, text: bytes)
    ensures |Join([COMMIT2, id, session, text])| == 7 + 1 + |id| + 1 + |session| + 1 + |text|
  {
    assert [COMMIT2, id, session, text][1..] == [id, session, text];
    assert [id, session, text][1..] == [session, text] && [session, text][1..] == [text];
    assert Join([session, text]) == session + [0] + text;
    assert Join([id, session, text]) == id + [0] + (session + [0] + text);
  }

  lemma RunOfFour(b: Bridge, m0: Moment, m1: Moment, m2: Moment, m3: Moment)
    ensures var (b1, e1) := React(b, m0.world, m0.generation, m0.stimulus);
            var (b2, e2) := React(b1, m1.world, m1.generation, m1.stimulus);
            var (b3, e3) := React(b2, m2.world, m2.generation, m2.stimulus);
            var (b4, e4) := React(b3, m3.world, m3.generation, m3.stimulus);
            Run(b, [m0, m1, m2, m3]) == (b4, e1 + e2 + e3 + e4)
  {
    hide React;
    assert [m0, m1, m2, m3][..3] == [m0, m1, m2] && [m0, m1, m2][..2] == [m0, m1] && [m0, m1][..1] == [m0];
    RunOfTwo(b, m0, m1);
    assert Run(b, [m0, m1, m2]).0 == React(Run(b, [m0, m1]).0, m2.world, m2.generation, m2.stimulus).0;
  }

  lemma RunOfTwo(b: Bridge, m0: Moment, m1: Moment)
    ensures var (b1, e1) := React(b, m0.world, m0.generation, m0.stimulus);
            var (b2, e2) := React(b1, m1.world, m1.generation, m1.stimulus);
            Run(b, [m0, m1]) == (b2, e1 + e2)
  {
    hide React;
    assert [m0, m1][..1] == [m0] && [m0][..0] == [];
    var e1 := React(b, m0.world, m0.generation, m0.stimulus).1;
    assert Run(b, [m0]) == (React(b, m0.world, m0.generation, m0.stimulus).0, e1) by {
      assert [] + e1 == e1;
    }
  }

  /** What is neither a commit, an arm nor a cancellation changes nothing, and is answered if it is not empty. */
  lemma OthersAnswered(b: Bridge, m: Moment)
    requires m.stimulus.Datagram?
    requires var c := Parse(m.stimulus.message);
             m.stimulus.message == [] || |m.stimulus.message| > 64 * 1024 || c.Ping? || c.Context? || c.Unknown?
    ensures var (after, effects) := React(b, m.world, m.generation, m.stimulus);
            var w, message := m.world, m.stimulus.message;
            var focused := w.lastFocused.Some? && w.lastFocused.value in w.surfaces
                           && w.surfaces[w.lastFocused.value].focused;
            var described := if !focused then Rejected(NoFocusedContext)
                             else if w.surfaces[w.lastFocused.value].secure then Rejected(SecureContext)
                             else FcitxContext.Describe(w.surfaces[w.lastFocused.value], m.generation);
            after == b
            && effects == if message == [] then []
                          else [Sent(m.stimulus.sender, if |message| > 64 * 1024 then Rejected(MessageTooLarge)
                                                        else if Parse(message).Ping? then Ready
                                                        else if Parse(message).Unknown? then Rejected(UnknownCommand)
                                                        else described)]
  {
    hide Parse;
    hide FcitxContext.Describe;
  }
}
