/** The NUL-separated datagrams between the client and the input-method addon. */
module FcitxWire {
  import opened Base
  import Utf8

  const MAX_DATAGRAM := 64 * 1024
  const MAX_REQUEST := 60 * 1024

  const OK: bytes := [79, 75] // OK
  const ERR: bytes := [69, 82, 82] // ERR
  const PING: bytes := [80, 73, 78, 71] // PING
  const CONTEXT: bytes := [67, 79, 78, 84, 69, 88, 84] // CONTEXT
  const ARM: bytes := [65, 82, 77] // ARM
  const COMMIT: bytes := [67, 79, 77, 77, 73, 84] // COMMIT
  const COMMIT2: bytes := [67, 79, 77, 77, 73, 84, 50] // COMMIT2
  const CANCEL: bytes := [67, 65, 78, 67, 69, 76] // CANCEL
  const READY: bytes := [114, 101, 97, 100, 121] // ready
  const ARMED: bytes := [97, 114, 109, 101, 100] // armed
  const SNAPSHOT: bytes := [99, 111, 110, 116, 101, 120, 116] // context
  const DISPATCHED: bytes := [100, 105, 115, 112, 97, 116, 99, 104, 101, 100] // dispatched
  const COMMITTED: bytes := [99, 111, 109, 109, 105, 116, 116, 101, 100] // committed
  const CANCELLED: bytes := [99, 97, 110, 99, 101, 108, 108, 101, 100] // cancelled

  predicate NulFree(b: bytes) {
    forall i :: 0 <= i < |b| ==> b[i] != 0
  }

  /** `split(|byte| byte == 0)`: there is always at least one part. */
  function Split(b: bytes): (parts: seq<bytes>)
    ensures parts != []
  {
    if b == [] then [[]]
    else
      var rest := Split(b[1..]);
      if b[0] == 0 then [[]] + rest else [[b[0]] + rest[0]] + rest[1..]
  }

  /** `encode_message` before its size check. */
  function Join(parts: seq<bytes>): bytes
    requires parts != []
  {
    if |parts| == 1 then parts[0] else parts[0] + [0] + Join(parts[1..])
  }

  function EncodeMessage(parts: seq<bytes>): (r: Option<bytes>)
    requires parts != []
  {
    if |Join(parts)| > MAX_REQUEST then None else Some(Join(parts))
  }

  lemma {:induction false} SplitConcat(a: bytes, b: bytes)
    ensures Split(a + [0] + b) == Split(a) + Split(b)
  {
    var m := a + [0] + b;
    if a == [] {
      assert m[1..] == b;
    } else {
      assert m[1..] == a[1..] + [0] + b;
      SplitConcat(a[1..], b);
    }
  }

  lemma {:induction false} SplitNulFree(a: bytes)
    requires NulFree(a)
    ensures Split(a) == [a]
  {
    if a != [] {
      SplitNulFree(a[1..]);
      assert [a[0]] + a[1..] == a;
    }
  }

  lemma {:induction false} SplitParts(a: bytes)
    ensures forall i :: 0 <= i < |Split(a)| ==> NulFree(Split(a)[i])
  {
    if a != [] {
      SplitParts(a[1..]);
    }
  }

  /** Parts without NUL are recovered exactly; a NUL inside a part is indistinguishable from a separator. */
  lemma {:induction false} SplitJoin(parts: seq<bytes>, last: bytes)
    requires forall p :: p in parts ==> NulFree(p)
    ensures Split(Join(parts + [last])) == parts + Split(last)
  {
    hide Split;
    hide NulFree;
    if parts == [] {
      assert parts + [last] == [last];
      assert [] + Split(last) == Split(last);
    } else {
      var rest := parts[1..] + [last];
      assert (parts + [last])[1..] == rest;
      SplitJoin(parts[1..], last);
      SplitConcat(parts[0], Join(rest));
      SplitNulFree(parts[0]);
      assert [parts[0]] + (parts[1..] + Split(last)) == parts + Split(last);
    }
  }

  /** The addon's `field`: the part at an index, empty when there are fewer. */
  function Field(message: bytes, index: nat): (f: bytes) {
    if index < |Split(message)| then Split(message)[index] else []
  }

  function FirstNul(b: bytes): (k: nat)
    ensures k <= |b| && (k < |b| ==> b[k] == 0)
  {
    if b == [] || b[0] == 0 then 0 else 1 + FirstNul(b[1..])
  }

  lemma {:induction false} SplitAtNul(b: bytes)
    ensures var k := FirstNul(b);
            Split(b) == if k < |b| then [b[..k]] + Split(b[k + 1..]) else [b]
  {
    if b != [] && b[0] != 0 {
      var k := FirstNul(b[1..]);
      SplitAtNul(b[1..]);
      assert b[..k + 1] == [b[0]] + b[1..][..k];
      if k < |b[1..]| {
        assert b[1..][k + 1..] == b[k + 2..];
      } else {
        assert [b[0]] + b[1..] == b;
      }
    }
  }

  lemma IsText(b: bytes, s: string)
    requires |b| == |s| && forall i :: 0 <= i < |s| ==> s[i] as int == b[i] < 0x80
    ensures b == Utf8.Encode(s)
  {
    Utf8.EncodeAscii(s);
  }

  /** The words of the protocol. */
  lemma WordsOfProtocol()
    ensures OK == Utf8.Encode("OK") && ERR == Utf8.Encode("ERR") && PING == Utf8.Encode("PING")
    ensures CONTEXT == Utf8.Encode("CONTEXT") && ARM == Utf8.Encode("ARM") && COMMIT == Utf8.Encode("COMMIT")
    ensures COMMIT2 == Utf8.Encode("COMMIT2") && CANCEL == Utf8.Encode("CANCEL") && READY == Utf8.Encode("ready")
    ensures ARMED == Utf8.Encode("armed") && SNAPSHOT == Utf8.Encode("context")
    ensures DISPATCHED == Utf8.Encode("dispatched") && COMMITTED == Utf8.Encode("committed")
    ensures CANCELLED == Utf8.Encode("cancelled")
  {
    hide Utf8.Encode;
    IsText(OK, "OK");
    IsText(ERR, "ERR");
    IsText(PING, "PING");
    IsText(CONTEXT, "CONTEXT");
    IsText(ARM, "ARM");
    IsText(COMMIT, "COMMIT");
    IsText(COMMIT2, "COMMIT2");
    IsText(CANCEL, "CANCEL");
    IsText(READY, "ready");
    IsText(ARMED, "armed");
    IsText(SNAPSHOT, "context");
    IsText(DISPATCHED, "dispatched");
    IsText(COMMITTED, "committed");
    IsText(CANCELLED, "cancelled");
  }

  /** The addon's loop over separators. */
  method FieldAt(message: bytes, index: nat) returns (f: bytes)
    ensures f == Field(message, index)
  {
    hide Split;
    hide FirstNul;
    var begin: nat := 0;
    assert message[0..] == message;
    for current := 0 to index
      invariant begin <= |message|
      invariant Field(message, index) == Field(message[begin..], index - current)
    {
      var rest := message[begin..];
      var separator := FirstNul(rest);
      SplitAtNul(rest);
      if separator == |rest| {
        return [];
      }
      assert rest[separator + 1..] == message[begin + separator + 1..];
      begin := begin + separator + 1;
    }
    SplitAtNul(message[begin..]);
    f := message[begin..][..FirstNul(message[begin..])];
  }

  // ----- requests

  datatype Command =
    | Ping
    | Context
    | Arm(session: bytes)
    | Commit(session: bytes, text: bytes)
    | Commit2(id: bytes, session: bytes, text: bytes)
    | Cancel(session: bytes)
    | Unknown

  function Parse(message: bytes): Command {
    var verb := Field(message, 0);
    if verb == PING then Ping
    else if verb == CONTEXT then Context
    else if verb == ARM then Arm(Field(message, 1))
    else if verb == COMMIT then Commit(Field(message, 1), Field(message, 2))
    else if verb == COMMIT2 then Commit2(Field(message, 1), Field(message, 2), Field(message, 3))
    else if verb == CANCEL then Cancel(Field(message, 1))
    else Unknown
  }

  lemma ParseOfCommit2(message: bytes)
    requires Field(message, 0) == COMMIT2
    ensures Parse(message) == Commit2(Field(message, 1), Field(message, 2), Field(message, 3))
  {
    hide Field;
    assert COMMIT2[2] != CONTEXT[2];
  }

  /** What the addon reads from the client's commit request: the id, the session, and the text up to its first NUL. */
  lemma CommitRequestIsRead(id: bytes, session: bytes, text: bytes)
    requires NulFree(id) && NulFree(session)
    ensures Parse(Join([COMMIT2, id, session, text])) == Commit2(id, session, Split(text)[0])
    ensures NulFree(text) <==> Split(text)[0] == text
  {
    hide Split;
    hide Join;
    hide Parse;
    var parts, message := [COMMIT2, id, session], Join([COMMIT2, id, session, text]);
    SplitJoin(parts, text);
    assert parts + [text] == [COMMIT2, id, session, text];
    FieldsAfter(message, COMMIT2, id, session, Split(text));
    ParseOfCommit2(message);
    FirstPart(text);
  }

  lemma FieldsAfter(message: bytes, a: bytes, b: bytes, c: bytes, rest: seq<bytes>)
    requires Split(message) == [a, b, c] + rest && rest != []
    ensures Field(message, 0) == a && Field(message, 1) == b && Field(message, 2) == c && Field(message, 3) == rest[0]
  {
    hide Split;
    var fields := [a, b, c] + rest;
    assert fields[0] == a && fields[1] == b && fields[2] == c && fields[3] == rest[0];
  }

  lemma FirstPart(text: bytes)
    ensures NulFree(text) <==> Split(text)[0] == text
  {
    if NulFree(text) {
      SplitNulFree(text);
    }
    SplitParts(text);
    hide Split;
  }

  datatype Attempt = Answered(response: bytes) | TransportFailed | OtherFailure

  /** The socket to the addon; `log` lists the requests sent over it and what became of them. */
  class Transport {
    ghost var log: seq<(bytes, Attempt)>

    constructor ()
      ensures log == []
    {
      log := [];
    }

    method Request(message: bytes) returns (outcome: Attempt)
      modifies this
      ensures log == old(log) + [(message, outcome)]
    {
      outcome := *;
      log := log + [(message, outcome)];
    }
  }

  /** The client's retry: the same bytes once more, exactly when the first attempt failed in transport. */
  method RetryMessage(socket: Transport, message: bytes) returns (outcome: Attempt, ghost attempts: seq<(bytes, Attempt)>)
    modifies socket
    ensures socket.log == old(socket.log) + attempts
    ensures 1 <= |attempts| <= 2 && forall i :: 0 <= i < |attempts| ==> attempts[i].0 == message
    ensures |attempts| == 2 <==> attempts[0].1.TransportFailed?
    ensures outcome == attempts[|attempts| - 1].1
  {
    outcome := socket.Request(message);
    attempts := [(message, outcome)];
    if outcome.TransportFailed? {
      outcome := socket.Request(message);
      attempts := attempts + [(message, outcome)];
    }
  }

  // ----- responses

  datatype Detail =
    | CommitBusy | SessionMismatch | FocusChanged | SecureContext | EmptyText | RequestIdRequired | RequestIdMismatch
    | NoFocusedContext | UnsupportedText | UnknownCommand | MessageTooLarge

  function DetailText(d: Detail): bytes {
    match d
    case CommitBusy => [99, 111, 109, 109, 105, 116, 45, 98, 117, 115, 121] // commit-busy
    case SessionMismatch => [115, 101, 115, 115, 105, 111, 110, 45, 109, 105, 115, 109, 97, 116, 99, 104] // session-mismatch
    case FocusChanged => [102, 111, 99, 117, 115, 45, 99, 104, 97, 110, 103, 101, 100] // focus-changed
    case SecureContext => [115, 101, 99, 117, 114, 101, 45, 99, 111, 110, 116, 101, 120, 116] // secure-context
    case EmptyText => [101, 109, 112, 116, 121, 45, 116, 101, 120, 116] // empty-text
    case RequestIdRequired => [114, 101, 113, 117, 101, 115, 116, 45, 105, 100, 45, 114, 101, 113, 117, 105, 114, 101, 100] // request-id-required
    case RequestIdMismatch => [114, 101, 113, 117, 101, 115, 116, 45, 105, 100, 45, 109, 105, 115, 109, 97, 116, 99, 104] // request-id-mismatch
    case NoFocusedContext => [110, 111, 45, 102, 111, 99, 117, 115, 101, 100, 45, 99, 111, 110, 116, 101, 120, 116] // no-focused-context
    case UnsupportedText => [117, 110, 115, 117, 112, 112, 111, 114, 116, 101, 100, 45, 116, 101, 120, 116] // unsupported-text
    case UnknownCommand => [117, 110, 107, 110, 111, 119, 110, 45, 99, 111, 109, 109, 97, 110, 100] // unknown-command
    case MessageTooLarge => [109, 101, 115, 115, 97, 103, 101, 45, 116, 111, 111, 45, 108, 97, 114, 103, 101] // message-too-large
  }

  lemma CommitNames()
    ensures DetailText(CommitBusy) == Utf8.Encode("commit-busy")
    ensures DetailText(SessionMismatch) == Utf8.Encode("session-mismatch")
    ensures DetailText(EmptyText) == Utf8.Encode("empty-text")
  {
    hide Utf8.Encode;
    IsText(DetailText(CommitBusy), "commit-busy");
    IsText(DetailText(SessionMismatch), "session-mismatch");
    IsText(DetailText(EmptyText), "empty-text");
  }

  lemma FocusNames()
    ensures DetailText(FocusChanged) == Utf8.Encode("focus-changed")
    ensures DetailText(SecureContext) == Utf8.Encode("secure-context")
    ensures DetailText(NoFocusedContext) == Utf8.Encode("no-focused-context")
  {
    hide Utf8.Encode;
    IsText(DetailText(FocusChanged), "focus-changed");
    IsText(DetailText(SecureContext), "secure-context");
    IsText(DetailText(NoFocusedContext), "no-focused-context");
  }

  lemma RequestNames()
    ensures DetailText(RequestIdRequired) == Utf8.Encode("request-id-required")
    ensures DetailText(RequestIdMismatch) == Utf8.Encode("request-id-mismatch")
  {
    hide Utf8.Encode;
    IsText(DetailText(RequestIdRequired), "request-id-required");
    IsText(DetailText(RequestIdMismatch), "request-id-mismatch");
  }

  lemma OtherNames()
    ensures DetailText(UnsupportedText) == Utf8.Encode("unsupported-text")
    ensures DetailText(UnknownCommand) == Utf8.Encode("unknown-command")
    ensures DetailText(MessageTooLarge) == Utf8.Encode("message-too-large")
  {
    hide Utf8.Encode;
    IsText(DetailText(UnsupportedText), "unsupported-text");
    IsText(DetailText(UnknownCommand), "unknown-command");
    IsText(DetailText(MessageTooLarge), "message-too-large");
  }

  /** What each refusal is called. */
  lemma NamesOfDetails(d: Detail)
    ensures DetailText(d) == Utf8.Encode(
              match d
              case CommitBusy => "commit-busy"
              case SessionMismatch => "session-mismatch"
              case EmptyText => "empty-text"
              case FocusChanged => "focus-changed"
              case SecureContext => "secure-context"
              case NoFocusedContext => "no-focused-context"
              case RequestIdRequired => "request-id-required"
              case RequestIdMismatch => "request-id-mismatch"
              case UnsupportedText => "unsupported-text"
              case UnknownCommand => "unknown-command"
              case MessageTooLarge => "message-too-large")
  {
    hide DetailText;
    hide Utf8.Encode;
    CommitNames();
    FocusNames();
    RequestNames();
    OtherNames();
  }

  /** A response; `Snapshot` carries the already joined context fields. */
  datatype Response =
    | Ready
    | ArmedFor(program: bytes, frontend: bytes)
    | Snapshot(fields: bytes)
    | Dispatched
    | DispatchedFor(id: bytes)
    | CancelledOk
    | Rejected(detail: Detail)

  function EncodeResponse(r: Response): bytes {
    match r
    case Ready => OK + [0] + READY
    case ArmedFor(program, frontend) => OK + [0] + (ARMED + [0] + (program + [0] + frontend))
    case Snapshot(fields) => OK + [0] + (SNAPSHOT + [0] + fields)
    case Dispatched => OK + [0] + DISPATCHED
    case DispatchedFor(id) => OK + [0] + (DISPATCHED + [0] + id)
    case CancelledOk => OK + [0] + CANCELLED
    case Rejected(detail) => ERR + [0] + DetailText(detail)
  }

  /** The client's `expect_dispatched_for`. */
  predicate ConfirmsDispatch(response: bytes, id: bytes) {
    var parts := Split(response);
    && parts[0] == OK
    && |parts| >= 3 && (parts[1] == DISPATCHED || parts[1] == COMMITTED) && parts[2] == id
  }

  lemma SplitHead(head: bytes, rest: bytes)
    requires NulFree(head)
    ensures Split(head + [0] + rest) == [head] + Split(rest)
  {
    SplitConcat(head, rest);
    SplitNulFree(head);
  }

  /** The client accepts a response as its dispatch exactly when the addon meant a dispatch of that request. */
  lemma ConfirmsOnlyOwnDispatch(r: Response, id: bytes)
    requires id != [] && (r.DispatchedFor? ==> NulFree(r.id))
    ensures ConfirmsDispatch(EncodeResponse(r), id) <==> r == DispatchedFor(id)
  {
    hide Split;
    match r
    case Ready => SplitHead(OK, READY); SplitNulFree(READY);
    case ArmedFor(program, frontend) =>
      SplitHead(OK, ARMED + [0] + (program + [0] + frontend));
      SplitHead(ARMED, program + [0] + frontend);
    case Snapshot(fields) => SplitHead(OK, SNAPSHOT + [0] + fields); SplitHead(SNAPSHOT, fields);
    case Dispatched => SplitHead(OK, DISPATCHED); SplitNulFree(DISPATCHED);
    case DispatchedFor(other) =>
      SplitHead(OK, DISPATCHED + [0] + other);
      SplitHead(DISPATCHED, other);
      SplitNulFree(other);
    case CancelledOk => SplitHead(OK, CANCELLED); SplitNulFree(CANCELLED);
    case Rejected(detail) => SplitHead(ERR, DetailText(detail));
  }

  // ----- the client's commit

  predicate StandsAt(b: bytes, needle: bytes, k: nat) {
    k + |needle| <= |b| && b[k..k + |needle|] == needle
  }

  predicate Contains(b: bytes, needle: bytes) {
    exists k :: 0 <= k <= |b| && StandsAt(b, needle, k)
  }

  /** The error of `expect_ok` names an unknown command: the addon is older than tagged commits. */
  predicate SaysUnknownCommand(response: bytes) {
    var parts := Split(response);
    && parts[0] != OK && |parts| >= 2 && Utf8.Decode(parts[1]).Some?
    && Contains(parts[1], DetailText(UnknownCommand))
  }

  /** `expect_dispatched`. */
  predicate ConfirmsUntagged(response: bytes) {
    var parts := Split(response);
    parts[0] == OK && |parts| >= 2 && (parts[1] == DISPATCHED || parts[1] == COMMITTED)
  }

  datatype CommitResult = Confirmed | Unconfirmed | Unanswered | TooLarge

  /** Sends the tagged request with its retry. Only an answer that does not know the command is followed by one
      untagged request with the same session and text, which is not retried. */
  method CommitText(socket: Transport, id: bytes, session: bytes, text: bytes)
    returns (result: CommitResult, ghost attempts: seq<(bytes, Attempt)>, ghost fallback: seq<(bytes, Attempt)>)
    modifies socket
    ensures socket.log == old(socket.log) + attempts + fallback
    ensures var tagged := Join([COMMIT2, id, session, text]);
            && (result.TooLarge? <==> |tagged| > 60 * 1024) && (attempts == [] <==> result.TooLarge?)
            && |attempts| <= 2 && (forall i :: 0 <= i < |attempts| ==> attempts[i].0 == tagged)
            && (attempts != [] ==> (|attempts| == 2 <==> attempts[0].1.TransportFailed?))
    ensures |fallback| <= 1 && (fallback != [] ==> fallback[0].0 == Join([COMMIT, session, text]))
    ensures fallback != [] <==>
              attempts != [] && var last := attempts[|attempts| - 1].1;
                                last.Answered? && !ConfirmsDispatch(last.response, id) && SaysUnknownCommand(last.response)
    ensures result.Confirmed? <==>
              attempts != [] && var last := attempts[|attempts| - 1].1;
                                || (last.Answered? && ConfirmsDispatch(last.response, id))
                                || (fallback != [] && fallback[0].1.Answered?
                                    && ConfirmsUntagged(fallback[0].1.response))
    ensures result.Unanswered? <==>
              attempts != [] && (!attempts[|attempts| - 1].1.Answered? || (fallback != [] && !fallback[0].1.Answered?))
  {
    hide ConfirmsDispatch;
    hide SaysUnknownCommand;
    hide ConfirmsUntagged;
    hide Join;
    attempts, fallback := [], [];
    var message := EncodeMessage([COMMIT2, id, session, text]);
    if message.None? {
      return TooLarge, attempts, fallback;
    }
    var outcome;
    outcome, attempts := RetryMessage(socket, message.value);
    if !outcome.Answered? {
      return Unanswered, attempts, fallback;
    }
    if ConfirmsDispatch(outcome.response, id) {
      return Confirmed, attempts, fallback;
    }
    if !SaysUnknownCommand(outcome.response) {
      return Unconfirmed, attempts, fallback;
    }
    UntaggedIsShorter(id, session, text);
    var untagged := EncodeMessage([COMMIT, session, text]).value;
    outcome := socket.Request(untagged);
    fallback := [(untagged, outcome)];
    result := if !outcome.Answered? then Unanswered
              else if ConfirmsUntagged(outcome.response) then Confirmed else Unconfirmed;
  }

  lemma UntaggedIsShorter(id: bytes, session: bytes, text: bytes)
    ensures |Join([COMMIT, session, text])| < |Join([COMMIT2, id, session, text])|
  {
    assert [COMMIT, session, text][1..] == [session, text] && [session, text][1..] == [text];
    assert [COMMIT2, id, session, text][1..] == [id, session, text] && [id, session, text][1..] == [session, text];
  }

  lemma EarlyDetails(d: Detail)
    requires d.CommitBusy? || d.SessionMismatch? || d.EmptyText?
    ensures 0 !in DetailText(d) && 107 !in DetailText(d)
  {
  }

  lemma FocusDetails(d: Detail)
    requires d.FocusChanged? || d.SecureContext?
    ensures 0 !in DetailText(d) && 107 !in DetailText(d)
  {
  }

  lemma RequestDetails(d: Detail)
    requires d.RequestIdRequired? || d.RequestIdMismatch?
    ensures 0 !in DetailText(d) && 107 !in DetailText(d)
  {
  }

  lemma LateDetails(d: Detail)
    requires d.NoFocusedContext? || d.UnsupportedText? || d.MessageTooLarge?
    ensures 0 !in DetailText(d) && 107 !in DetailText(d)
  {
  }

  /** Only the detail for an unknown command contains its name: no other one has a `k`. */
  lemma OtherDetailsAreKnown(d: Detail)
    requires d != UnknownCommand
    ensures !Contains(DetailText(d), DetailText(UnknownCommand)) && NulFree(DetailText(d))
  {
    NameHasK();
    hide DetailText;
    match d {
      case CommitBusy | SessionMismatch | EmptyText => EarlyDetails(d);
      case FocusChanged | SecureContext => FocusDetails(d);
      case RequestIdRequired | RequestIdMismatch => RequestDetails(d);
      case _ => LateDetails(d);
    }
    NothingWithoutK(DetailText(d), DetailText(UnknownCommand));
  }

  lemma NameHasK()
    ensures |DetailText(UnknownCommand)| > 2 && DetailText(UnknownCommand)[2] == 107
  {
  }

  lemma NothingWithoutK(b: bytes, needle: bytes)
    requires 0 !in b && 107 !in b && |needle| > 2 && needle[2] == 107
    ensures !Contains(b, needle) && NulFree(b)
  {
    if k :| 0 <= k <= |b| && StandsAt(b, needle, k) {
      StandsWithin(b, needle, k, 2);
    }
  }

  lemma StandsWithin(b: bytes, needle: bytes, k: nat, i: nat)
    requires StandsAt(b, needle, k) && i < |needle|
    ensures needle[i] in b
  {
    assert b[k..k + |needle|][i] == b[k + i];
  }

  lemma KnownAnswers(r: Response)
    requires r != Rejected(UnknownCommand)
    ensures !SaysUnknownCommand(EncodeResponse(r))
  {
    hide Split;
    hide Contains;
    match r
    case Ready => SplitHead(OK, READY);
    case ArmedFor(program, frontend) => SplitHead(OK, ARMED + [0] + (program + [0] + frontend));
    case Snapshot(fields) => SplitHead(OK, SNAPSHOT + [0] + fields);
    case Dispatched => SplitHead(OK, DISPATCHED);
    case DispatchedFor(id) => SplitHead(OK, DISPATCHED + [0] + id);
    case CancelledOk => SplitHead(OK, CANCELLED);
    case Rejected(detail) =>
      OtherDetailsAreKnown(detail);
      SplitHead(ERR, DetailText(detail));
      SplitNulFree(DetailText(detail));
  }
}
