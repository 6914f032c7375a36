/** The application core's lifecycle side: the session machine, the bounded event
    queue and the bounded cache of terminal results. */
module AppLifecycle {
  import opened Base
  import opened Providers
  import opened CoreSession

  const MAX_PENDING_EVENTS := 256
  const MAX_SESSION_RESULTS := 32

  datatype StateName =
    IdleName | PreparingName | ListeningName | FinalizingName | InsertingName | CompletedName | CancelledName | FailedName

  function NameOf(state: SessionState): StateName {
    match state
    case Idle => IdleName
    case Preparing(_, _) => PreparingName
    case Listening(_, _) => ListeningName
    case Finalizing(_) => FinalizingName
    case Inserting(_, _) => InsertingName
    case Completed(_) => CompletedName
    case Cancelled(_) => CancelledName
    case Failed(_, _) => FailedName
  }

  datatype Outcome = WasCancelled | HadNoSpeech | WasFailed | OtherOutcome(text: string)

  /** A transcript-free terminal result. */
  datatype Record =
    Record(session: SessionId, outcome: Outcome, errorCode: Option<ErrorCode>, backend: string, charCount: nat)

  datatype AppEvent = StateChanged(state: StateName, session: SessionId) | SessionFinished(record: Record)

  datatype Lifecycle = Lifecycle(machine: Machine, events: seq<AppEvent>, results: seq<Record>)

  const BACKPRESSURE := VoxError(Unavailable, EventBackpressure, true)

  // ----- values

  function CurrentState(state: SessionState): AppEvent {
    StateChanged(NameOf(state), if state.Idle? then "" else state.session)
  }

  const INITIAL_LIFECYCLE := Lifecycle(INITIAL, [StateChanged(IdleName, "")], [])

  /** The terminal result a command announces, should the machine accept it. */
  function Announced(command: Command): Option<Record> {
    match command
    case Cancel(session) => Some(Record(session, WasCancelled, None, "", 0))
    case NoSpeech(session) => Some(Record(session, HadNoSpeech, None, "", 0))
    case Fail(session, error) => Some(Record(session, WasFailed, Some(error.code), "", 0))
    case _ => None
  }

  function PositionOf(results: seq<Record>, session: SessionId): Option<nat> {
    if results == [] then None
    else if results[0].session == session then Some(0)
    else
      var rest :- PositionOf(results[1..], session);
      Some(rest + 1)
  }

  /** Without the first result of a session. */
  function Without(results: seq<Record>, session: SessionId): seq<Record> {
    if results == [] then []
    else if results[0].session == session then results[1..]
    else [results[0]] + Without(results[1..], session)
  }

  function Remember(results: seq<Record>, record: Record): seq<Record> {
    var others := Without(results, record.session);
    (if |others| == MAX_SESSION_RESULTS then others[1..] else others) + [record]
  }

  /** The newest cached result of a session. */
  function Lookup(results: seq<Record>, session: SessionId): Option<Record> {
    if results == [] then None
    else if results[|results| - 1].session == session then Some(results[|results| - 1])
    else Lookup(results[..|results| - 1], session)
  }

  datatype Operation = Run(command: Command) | Finish(record: Record) | Drain

  predicate Accepts(l: Lifecycle, op: Operation) {
    match op
    case Run(command) => |l.events| <= MAX_PENDING_EVENTS - 2 && Transition(l.machine, command).Ok?
    case Finish(_) => |l.events| != MAX_PENDING_EVENTS
    case Drain => true
  }

  /** The record an operation adds once accepted. */
  function Recorded(op: Operation): Option<Record> {
    match op
    case Run(command) => Announced(command)
    case Finish(record) => Some(record)
    case Drain => None
  }

  /** The events an accepted operation publishes: the new state first, then a terminal result. */
  function Published(l: Lifecycle, op: Operation): seq<AppEvent> {
    (if op.Run? then [CurrentState(Next(l.machine, op.command).state)] else [])
    + (if Recorded(op).Some? then [SessionFinished(Recorded(op).value)] else [])
  }

  function Perform(l: Lifecycle, op: Operation): Lifecycle {
    if !Accepts(l, op) then l
    else if op.Drain? then l.(events := [])
    else
      Lifecycle(if op.Run? then Next(l.machine, op.command) else l.machine, l.events + Published(l, op),
                if Recorded(op).Some? then Remember(l.results, Recorded(op).value) else l.results)
  }

  /** What the caller of an operation gets back. */
  function ReplyTo(l: Lifecycle, command: Command): Result<Effect, VoxError> {
    if |l.events| > MAX_PENDING_EVENTS - 2 then Err(BACKPRESSURE) else Reply(l.machine, command)
  }

  // ----- runs

  datatype Trace = Trace(now: Lifecycle, log: seq<AppEvent>, drained: seq<AppEvent>, records: seq<Record>)

  /** `log` is everything accepted operations published, `drained` everything handed out. */
  function Advance(t: Trace, op: Operation): Trace {
    if !Accepts(t.now, op) then t
    else
      Trace(Perform(t.now, op), if op.Drain? then t.log else t.log + Published(t.now, op),
            if op.Drain? then t.drained + t.now.events else t.drained,
            if Recorded(op).Some? then t.records + [Recorded(op).value] else t.records)
  }

  function History(ops: seq<Operation>): Trace {
    if ops == [] then Trace(INITIAL_LIFECYCLE, INITIAL_LIFECYCLE.events, [], [])
    else Advance(History(ops[..|ops| - 1]), ops[|ops| - 1])
  }

  /** A rejected operation changes nothing and says why: too many pending events, or the machine's own reason. */
  lemma RejectionChangesNothing(l: Lifecycle, command: Command)
    ensures ReplyTo(l, command).Err? <==> !Accepts(l, Run(command))
    ensures ReplyTo(l, command).Err? ==> Perform(l, Run(command)) == l
    ensures ReplyTo(l, command).Ok? ==> Perform(l, Run(command)).events != l.events
  {
    hide Transition;
    if Accepts(l, Run(command)) {
      assert |Perform(l, Run(command)).events| > |l.events|;
    }
  }

  /** Nothing is lost, reordered or repeated: what was handed out, then what is queued, is the log of accepted
      operations; and the queue stays within its bound. */
  lemma {:induction false} QueueIsLog(ops: seq<Operation>)
    ensures History(ops).drained + History(ops).now.events == History(ops).log
    ensures |History(ops).now.events| <= MAX_PENDING_EVENTS
  {
    hide Next;
    hide Transition;
    hide Remember;
    if ops != [] {
      var t := History(ops[..|ops| - 1]);
      QueueIsLog(ops[..|ops| - 1]);
      ConcatAssociates(t.drained, t.now.events, Published(t.now, ops[|ops| - 1]));
    }
  }

  /** A session that is over gets another terminal result from exactly two commands: cancelling it or failing it. */
  lemma SecondResultExactly(l: Lifecycle, command: Command)
    requires l.machine.state.Terminal()
    ensures Accepts(l, Run(command)) && Announced(command).Some?
       <==> |l.events| <= MAX_PENDING_EVENTS - 2 && (command.Cancel? || command.Fail?)
            && command.session == l.machine.state.session
  {
    hide FromCounter;
  }

  // ----- the result cache against the unbounded log

  /** The last record of a session. */
  function Latest(records: seq<Record>, session: SessionId): Option<Record> {
    if records == [] then None
    else if records[|records| - 1].session == session then Some(records[|records| - 1])
    else Latest(records[..|records| - 1], session)
  }

  /** The other sessions recorded since the last record of this one. */
  function Since(records: seq<Record>, session: SessionId): set<SessionId> {
    if records == [] || records[|records| - 1].session == session then {}
    else Since(records[..|records| - 1], session) + {records[|records| - 1].session}
  }

  /** All latest records in order of recording, without a bound. */
  function Recent(records: seq<Record>): seq<Record> {
    if records == [] then []
    else
      var last := records[|records| - 1];
      Without(Recent(records[..|records| - 1]), last.session) + [last]
  }

  function Suffix(rs: seq<Record>): seq<Record> {
    rs[|rs| - Min(|rs|, MAX_SESSION_RESULTS)..]
  }

  ghost predicate Unique(rs: seq<Record>) {
    forall i, j :: 0 <= i < j < |rs| ==> rs[i].session != rs[j].session
  }

  lemma {:induction false} WithoutRemoves(rs: seq<Record>, session: SessionId)
    requires Unique(rs)
    ensures Unique(Without(rs, session))
    ensures forall r :: r in Without(rs, session) <==> r in rs && r.session != session
  {
    if rs != [] {
      var head, tail := rs[0], rs[1..];
      assert rs == [head] + tail;
      WithoutRemoves(tail, session);
      forall r | r in tail ensures r.session != head.session {
        var i :| 0 <= i < |tail| && tail[i] == r;
        assert rs[0] == head && rs[i + 1] == r;
      }
      UniquePrepend(head, Without(tail, session));
    }
  }

  lemma UniquePrepend(head: Record, rs: seq<Record>)
    requires Unique(rs)
    ensures (forall r :: r in rs ==> r.session != head.session) ==> Unique([head] + rs)
  {
    if forall r :: r in rs ==> r.session != head.session {
      forall i, j | 0 <= i < j < |rs| + 1 ensures ([head] + rs)[i].session != ([head] + rs)[j].session {
        assert rs[j - 1] in rs;
      }
    }
  }

  lemma {:induction false} WithoutLength(rs: seq<Record>, session: SessionId)
    ensures |Without(rs, session)| == |rs| - if PositionOf(rs, session).Some? then 1 else 0
    ensures PositionOf(rs, session).None? ==> forall r :: r in rs ==> r.session != session
  {
    if rs != [] {
      WithoutLength(rs[1..], session);
      assert rs == [rs[0]] + rs[1..];
    }
  }

  lemma AbsentBefore(rs: seq<Record>, last: Record)
    requires Unique(rs + [last])
    ensures forall r :: r in rs ==> r.session != last.session
  {
    forall r | r in rs ensures r.session != last.session {
      var i :| 0 <= i < |rs| && rs[i] == r;
      assert (rs + [last])[i] == r && (rs + [last])[|rs|] == last;
    }
  }

  lemma AbsentBehind(a: seq<Record>, b: seq<Record>, k: nat)
    requires Unique(a + b) && k < |a|
    ensures forall r :: r in b ==> r.session != a[k].session
  {
    forall r | r in b ensures r.session != a[k].session {
      var i :| 0 <= i < |b| && b[i] == r;
      assert (a + b)[k] == a[k] && (a + b)[|a| + i] == r;
    }
  }

  lemma {:induction false} WithoutConcat(a: seq<Record>, b: seq<Record>, session: SessionId)
    requires Unique(a + b)
    ensures Without(a + b, session) == Without(a, session) + Without(b, session)
  {
    if a == [] {
      assert a + b == b;
    } else if a[0].session == session {
      assert (a + b)[1..] == a[1..] + b;
      AbsentBehind(a, b, 0);
      WithoutAbsent(b, session);
    } else {
      assert (a + b)[1..] == a[1..] + b;
      assert [a[0]] + (a[1..] + b) == a + b;
      UniqueParts([a[0]], a[1..] + b);
      WithoutConcat(a[1..], b, session);
    }
  }

  lemma {:induction false} WithoutAbsent(rs: seq<Record>, session: SessionId)
    requires forall r :: r in rs ==> r.session != session
    ensures Without(rs, session) == rs
  {
    if rs != [] {
      assert rs[0] in rs;
      forall r | r in rs[1..] ensures r.session != session {
        assert r in rs;
      }
      WithoutAbsent(rs[1..], session);
      assert rs == [rs[0]] + rs[1..];
    }
  }

  lemma UniqueParts(a: seq<Record>, b: seq<Record>)
    requires Unique(a + b)
    ensures Unique(a) && Unique(b)
  {
    forall i, j | 0 <= i < j < |a| ensures a[i].session != a[j].session {
      assert (a + b)[i] == a[i] && (a + b)[j] == a[j];
    }
    forall i, j | 0 <= i < j < |b| ensures b[i].session != b[j].session {
      assert (a + b)[|a| + i] == b[i] && (a + b)[|a| + j] == b[j];
    }
  }

  /** Remembering in the bounded cache keeps the newest part of the unbounded one. */
  lemma RememberKeepsSuffix(rs: seq<Record>, record: Record)
    requires Unique(rs)
    ensures Remember(Suffix(rs), record) == Suffix(Without(rs, record.session) + [record])
  {
    var cut := |rs| - Min(|rs|, MAX_SESSION_RESULTS);
    var a, b, s := rs[..cut], rs[cut..], record.session;
    assert rs == a + b;
    UniqueParts(a, b);
    WithoutConcat(a, b, s);
    WithoutLength(a, s);
    WithoutLength(b, s);
    hide Without;
    assert Without(rs, s) + [record] == Without(a, s) + Without(b, s) + [record];
    SuffixOfConcat(Without(a, s), Without(b, s), record);
  }

  lemma SuffixOfConcat(a: seq<Record>, b: seq<Record>, record: Record)
    requires |b| <= MAX_SESSION_RESULTS
    requires a != [] ==> |b| >= MAX_SESSION_RESULTS - 1
    ensures (if |b| == MAX_SESSION_RESULTS then b[1..] else b) + [record] == Suffix(a + b + [record])
  {
    var whole := a + b + [record];
    var cut := |whole| - Min(|whole|, MAX_SESSION_RESULTS);
    if |b| == MAX_SESSION_RESULTS {
      assert cut == |a| + 1;
    } else {
      assert cut == |a|;
    }
  }

  lemma UniqueAppend(rs: seq<Record>, last: Record)
    requires Unique(rs) && forall r :: r in rs ==> r.session != last.session
    ensures Unique(rs + [last])
  {
    forall i, j | 0 <= i < j < |rs| + 1 ensures (rs + [last])[i].session != (rs + [last])[j].session {
      assert rs[i] in rs;
    }
  }

  lemma {:induction false} RecentIsUnique(records: seq<Record>)
    ensures Unique(Recent(records))
  {
    if records != [] {
      var before, last := records[..|records| - 1], records[|records| - 1];
      RecentIsUnique(before);
      WithoutRemoves(Recent(before), last.session);
      UniqueAppend(Without(Recent(before), last.session), last);
    }
  }

  lemma {:induction false} CacheIsSuffix(ops: seq<Operation>)
    ensures History(ops).now.results == Suffix(Recent(History(ops).records))
  {
    hide Next;
    hide Transition;
    hide Remember;
    hide Published;
    if ops != [] {
      var t, op := History(ops[..|ops| - 1]), ops[|ops| - 1];
      CacheIsSuffix(ops[..|ops| - 1]);
      RecentIsUnique(t.records);
      if Accepts(t.now, op) && Recorded(op).Some? {
        RememberKeepsSuffix(Recent(t.records), Recorded(op).value);
        assert (t.records + [Recorded(op).value])[..|t.records|] == t.records;
      }
    }
  }

  function SessionsOf(rs: seq<Record>): set<SessionId> {
    set r | r in rs :: r.session
  }

  /** Whether a list ends with this record followed by records of exactly these other sessions. */
  ghost predicate EndsWith(rs: seq<Record>, record: Record, others: set<SessionId>, k: nat) {
    k < |rs| && rs[k] == record && others == SessionsOf(rs[k + 1..])
  }

  lemma {:induction false} UniqueCount(rs: seq<Record>)
    requires Unique(rs)
    ensures |SessionsOf(rs)| == |rs|
  {
    if rs != [] {
      var n := |rs| - 1;
      var before := SessionsOf(rs[..n]);
      UniqueCount(rs[..n]);
      SessionsConcat(rs[..n], rs[n]);
      assert rs == rs[..n] + [rs[n]];
      AbsentBefore(rs[..n], rs[n]);
      hide SessionsOf;
    }
  }

  lemma SessionsConcat(rs: seq<Record>, last: Record)
    ensures SessionsOf(rs + [last]) == SessionsOf(rs) + {last.session}
  {
    forall s ensures s in SessionsOf(rs + [last]) <==> s in SessionsOf(rs) + {last.session} {
      if s in SessionsOf(rs) {
        var r :| r in rs && r.session == s;
        assert r in rs + [last];
      }
      assert last in rs + [last];
    }
  }

  lemma SessionsWithout(rs: seq<Record>, session: SessionId)
    requires Unique(rs)
    ensures SessionsOf(Without(rs, session)) == SessionsOf(rs) - {session}
  {
    WithoutRemoves(rs, session);
    hide Without;
    forall s ensures s in SessionsOf(Without(rs, session)) <==> s in SessionsOf(rs) - {session} {
      if s in SessionsOf(rs) && s != session {
        var r :| r in rs && r.session == s;
        assert r in Without(rs, session);
      }
    }
  }

  /** Where the latest record of a session stands among the recent ones. */
  lemma {:induction false} RecentPosition(records: seq<Record>, session: SessionId) returns (k: nat)
    requires Latest(records, session).Some?
    ensures EndsWith(Recent(records), Latest(records, session).value, Since(records, session), k)
    ensures Latest(records, session).value.session == session
  {
    var n := |records| - 1;
    var last, rs := records[n], Recent(records[..n]);
    if last.session == session {
      k := |Recent(records)| - 1;
    } else {
      RecentIsUnique(records[..n]);
      var p := RecentPosition(records[..n], session);
      k := StaysBehind(rs, Latest(records[..n], session).value, Since(records[..n], session), p, last);
    }
  }

  lemma StaysBehind(rs: seq<Record>, record: Record, others: set<SessionId>, p: nat, last: Record) returns (k: nat)
    requires Unique(rs) && EndsWith(rs, record, others, p) && last.session != record.session
    ensures EndsWith(Without(rs, last.session) + [last], record, others + {last.session}, k)
  {
    var a, b := rs[..p + 1], rs[p + 1..];
    assert rs == a + b;
    UniqueParts(a, b);
    WithoutConcat(a, b, last.session);
    SessionsWithout(b, last.session);
    k := LastSurvives(a, last.session);
    var head, tail := Without(a, last.session), Without(b, last.session);
    hide Without;
    SessionsConcat(tail, last);
    var next := head + tail + [last];
    assert next[k] == record && next[k + 1..] == tail + [last];
    assert others - {last.session} + {last.session} == others + {last.session};
  }

  lemma {:induction false} LastSurvives(a: seq<Record>, session: SessionId) returns (k: nat)
    requires a != [] && a[|a| - 1].session != session
    ensures k == |Without(a, session)| - 1 >= 0 && Without(a, session)[k] == a[|a| - 1]
  {
    if a[0].session == session {
      k := |a| - 2;
    } else if |a| == 1 {
      k := 0;
    } else {
      k := LastSurvives(a[1..], session);
      k := k + 1;
    }
  }

  lemma {:induction false} NeverRecorded(records: seq<Record>, session: SessionId)
    requires Latest(records, session).None?
    ensures forall r :: r in Recent(records) ==> r.session != session
  {
    if records != [] {
      NeverRecorded(records[..|records| - 1], session);
      RecentIsUnique(records[..|records| - 1]);
      WithoutRemoves(Recent(records[..|records| - 1]), records[|records| - 1].session);
    }
  }

  lemma {:induction false} LookupFinds(rs: seq<Record>, k: nat)
    requires Unique(rs) && k < |rs|
    ensures Lookup(rs, rs[k].session) == Some(rs[k])
  {
    if k < |rs| - 1 {
      LookupFinds(rs[..|rs| - 1], k);
    }
  }

  lemma {:induction false} LookupMisses(rs: seq<Record>, session: SessionId)
    requires forall r :: r in rs ==> r.session != session
    ensures Lookup(rs, session) == None
  {
    if rs != [] {
      assert rs[|rs| - 1] in rs;
      forall r | r in rs[..|rs| - 1] ensures r.session != session {
        assert r in rs;
      }
      LookupMisses(rs[..|rs| - 1], session);
    }
  }

  /** The bounded cache answers like the unbounded log: with the latest record of a session, exactly as long as fewer
      than 32 other sessions were recorded after it. */
  lemma ResultCacheAgrees(ops: seq<Operation>, session: SessionId)
    ensures var t := History(ops);
            Lookup(t.now.results, session)
            == if |Since(t.records, session)| < MAX_SESSION_RESULTS then Latest(t.records, session) else None
  {
    var records := History(ops).records;
    CacheIsSuffix(ops);
    RecentIsUnique(records);
    hide History;
    CacheAnswer(records, session);
  }

  lemma CacheAnswer(records: seq<Record>, session: SessionId)
    requires Unique(Recent(records))
    ensures Lookup(Suffix(Recent(records)), session)
         == if |Since(records, session)| < MAX_SESSION_RESULTS then Latest(records, session) else None
  {
    var rs := Recent(records);
    if Latest(records, session).None? {
      NeverRecorded(records, session);
      hide Recent;
      LookupMisses(Suffix(rs), session);
    } else {
      var k := RecentPosition(records, session);
      SuffixLookup(rs, k);
    }
  }

  /** Element k is found in the suffix exactly when fewer elements follow it than the suffix holds. */
  lemma SuffixLookup(rs: seq<Record>, k: nat)
    requires Unique(rs) && k < |rs|
    ensures Lookup(Suffix(rs), rs[k].session)
         == if |SessionsOf(rs[k + 1..])| < MAX_SESSION_RESULTS then Some(rs[k]) else None
  {
    hide SessionsOf;
    hide Lookup;
    var cut := |rs| - Min(|rs|, MAX_SESSION_RESULTS);
    assert rs == rs[..k + 1] + rs[k + 1..] && rs == rs[..cut] + rs[cut..];
    UniqueParts(rs[..k + 1], rs[k + 1..]);
    UniqueParts(rs[..cut], rs[cut..]);
    UniqueCount(rs[k + 1..]);
    if k >= cut {
      LookupFinds(rs[cut..], k - cut);
    } else {
      AbsentBehind(rs[..cut], rs[cut..], k);
      LookupMisses(rs[cut..], rs[k].session);
    }
  }
}
