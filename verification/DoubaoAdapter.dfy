/** The Doubao provider as the router sees it. */
module DoubaoAdapter {
  import opened Base
  import opened Providers
  import opened DoubaoSession
  import opened DoubaoRunner
  import Routing
  import Utf8

  /** What the adapter finds outside: whether it was cancelled, its stored configuration, the bootstrap's token, the
      system clock and the recording; then what its attempt finds, a refresh of the token, and a second attempt. */
  datatype Surroundings = Surroundings(cancelled: bool, config: Result<RunConfig, VoxError>,
                                       token: Result<string, VoxError>, clockValid: bool, file: Option<bytes>,
                                       outside: Outside, refresh: Refresh, again: Outside)

  const CLOCK_INVALID := VoxError(Internal, SystemClockInvalid, false)

  /** A bootstrap failure counts as a started attempt unless the configuration was at fault. */
  function BootstrapFailure(error: VoxError): AttemptFailure {
    if error.category == Configuration then BeforeTransport(error) else AfterTransport(error, NotAccepted)
  }

  /** What keeps the adapter from attempting anything, in the order it looks. */
  predicate Prevented(around: Surroundings, failure: AttemptFailure) {
    || (around.cancelled && failure == AttemptFailure(VoxError(Cancelled, ProviderCancelled, false), false, NotAccepted))
    || (!around.cancelled && around.config.Err? && failure == AttemptFailure(around.config.error, false, NotAccepted))
    || (!around.cancelled && around.config.Ok? && around.token.Err?
        && failure == AttemptFailure(around.token.error, around.token.error.category != Configuration, NotAccepted))
    || (!around.cancelled && around.config.Ok? && around.token.Ok? && !around.clockValid
        && failure == AttemptFailure(VoxError(Internal, SystemClockInvalid, false), false, NotAccepted))
  }

  /** The first attempt uses the bootstrap's token, the second, if any, the refreshed one. */
  ghost predicate Tried(lib: Library, around: Surroundings, attempts: seq<Attempt>)
    requires around.config.Ok? && around.token.Ok?
  {
    && 1 <= |attempts| <= 2 && attempts[0].token == around.token.value
    && Attempted(lib, around.config.value, around.file, around.outside, attempts[0])
    && (|attempts| == 2 ==>
          && around.refresh.token.Ok? && attempts[1].token == around.refresh.token.value
          && Attempted(lib, around.config.value, around.file, around.again, attempts[1]))
  }

  /** One attempt of the adapter answers its provider's text, its last attempt's failure or what prevented it, and keeps
      the router's contract: over all its connections, the reconnect after a token refresh included, audio enters at most
      one write buffer, and none when the attempt reports NotAccepted. */
  method Recognize(lib: Library, around: Surroundings)
    returns (answer: Routing.Answer, ghost attempts: seq<Attempt>, ghost entered: seq<bool>)
    ensures forall id, registered :: id in registered ==>
              Routing.Honest(Routing.Recorded(id, registered, answer), Count(entered))
    ensures answer.Transcribed? ==> !Utf8.Blank(answer.text) && answer.transportStarted && answer.acceptance == Accepted
    ensures around.cancelled || around.config.Err? || around.token.Err? || !around.clockValid ==>
              attempts == [] && answer.Failed? && Prevented(around, answer.failure)
    ensures !around.cancelled && around.config.Ok? && around.token.Ok? && around.clockValid ==>
              Tried(lib, around, attempts)
              && match attempts[|attempts| - 1].result
                 case Ok(t) => answer.Transcribed? && answer.text == t.text
                 case Err(first) =>
                   answer == Routing.Failed(
                     if |attempts| == 1 && Unauthorized(attempts[0].result) && !around.refresh.cancelled
                        && around.refresh.token.Err? then
                       AttemptFailure(around.refresh.token.error, true, NotAccepted)
                     else first)
  {
    hide Utf8.Blank;
    hide Attempted;
    attempts, entered := [], [];
    if around.cancelled {
      return Routing.Failed(BeforeTransport(Routing.CANCELLED)), [], [];
    }
    if around.config.Err? {
      return Routing.Failed(BeforeTransport(around.config.error)), [], [];
    }
    if around.token.Err? {
      return Routing.Failed(BootstrapFailure(around.token.error)), [], [];
    }
    if !around.clockValid {
      return Routing.Failed(BeforeTransport(CLOCK_INVALID)), [], [];
    }
    var r: Result<Transcription, AttemptFailure>;
    r, attempts, entered := TranscribeWithTokenRefresh(lib, around.config.value, around.token.value, around.file,
                                                       around.outside, around.refresh, around.again);
    match r {
      case Ok(t) => answer := Routing.Transcribed(t.text, Routing.Usage(None, None, None), true, Accepted);
      case Err(failure) => answer := Routing.Failed(failure);
    }
  }

  // ----- a whole route

  /** A route's provider: this adapter in its surroundings, or another one by what it answers and discloses. */
  datatype Adapter = Doubao(around: Surroundings) | Foreign(answer: Routing.Answer, disclosed: nat)

  /** Foreign adapters keep the router's contract; for this one it is proved. */
  predicate ForeignHonest(registered: set<Routing.ProviderId>, ids: seq<Routing.ProviderId>, adapters: seq<Adapter>)
    requires |ids| == |adapters|
  {
    forall i :: 0 <= i < |ids| && ids[i] in registered && adapters[i].Foreign? ==>
      Routing.Honest(Routing.Recorded(ids[i], registered, adapters[i].answer), adapters[i].disclosed)
  }

  method Ask(lib: Library, adapter: Adapter) returns (answer: Routing.Answer, ghost disclosed: nat)
    ensures adapter.Foreign? ==> answer == adapter.answer && disclosed == adapter.disclosed
    ensures adapter.Doubao? ==> forall id, registered :: id in registered ==>
              Routing.Honest(Routing.Recorded(id, registered, answer), disclosed)
  {
    match adapter
    case Foreign(a, d) => return a, d;
    case Doubao(around) =>
      ghost var attempts, entered;
      answer, attempts, entered := Recognize(lib, around);
      disclosed := Count(entered);
  }

  const UNASKED := Routing.Failed(BeforeTransport(Routing.NOT_REGISTERED))

  /** What the route records of the providers asked so far. */
  function Logged(registered: set<Routing.ProviderId>, ids: seq<Routing.ProviderId>, answers: seq<Routing.Answer>)
    : (attempts: seq<Routing.RouteAttempt>)
    requires |answers| <= |ids|
    ensures |attempts| == |answers|
    ensures forall i :: 0 <= i < |answers| ==> attempts[i] == Routing.Recorded(ids[i], registered, answers[i])
  {
    seq(|answers|, i requires 0 <= i < |answers| => Routing.Recorded(ids[i], registered, answers[i]))
  }

  /** The route was not cancelled before any of these attempts, and each but the last let it go on. */
  predicate Along(attempts: seq<Routing.RouteAttempt>, cancelled: seq<bool>, replay: Routing.ReplayPolicy) {
    && |attempts| <= |cancelled| && (forall i :: 0 <= i < |attempts| ==> !cancelled[i])
    && (forall i :: 0 <= i < |attempts| - 1 ==> Routing.Continues(attempts[i], replay))
  }

  /** The route ends here: by cancellation, by its last attempt, or because no provider is left. */
  predicate Stops(attempts: seq<Routing.RouteAttempt>, cancelled: seq<bool>, replay: Routing.ReplayPolicy) {
    |attempts| < |cancelled| ==>
      cancelled[|attempts|] || (attempts != [] && !Routing.Continues(attempts[|attempts| - 1], replay))
  }

  /** Where a route ends is decided by its attempts. */
  lemma SameEnd(a: seq<Routing.RouteAttempt>, b: seq<Routing.RouteAttempt>, cancelled: seq<bool>,
                replay: Routing.ReplayPolicy)
    requires Along(a, cancelled, replay) && Stops(a, cancelled, replay)
    requires Along(b, cancelled, replay) && Stops(b, cancelled, replay)
    requires forall i :: 0 <= i < |a| && i < |b| ==> a[i] == b[i]
    ensures a == b
  {
    hide Routing.Continues;
    var last := if |a| < |b| then |a| - 1 else |b| - 1;
    if 0 <= last {
      var goesOn := (Routing.Continues(a[last], replay), Routing.Continues(b[last], replay));
    }
  }

  /** Each adapter is asked only when the route reaches it. */
  method AskAlong(lib: Library, registered: set<Routing.ProviderId>, route: Routing.RoutePlan, adapters: seq<Adapter>,
                  cancelled: seq<bool>)
    returns (answers: seq<Routing.Answer>, ghost disclosed: seq<nat>)
    requires |adapters| == |cancelled| == |route.providers|
    requires ForeignHonest(registered, route.providers, adapters)
    ensures |disclosed| == |answers| <= |route.providers|
    ensures var attempts := Logged(registered, route.providers, answers);
            && Along(attempts, cancelled, route.replay) && Stops(attempts, cancelled, route.replay)
            && forall i :: 0 <= i < |attempts| ==> Routing.Honest(attempts[i], disclosed[i])
  {
    hide Routing.Continues;
    hide Routing.Recorded;
    hide Routing.Honest;
    answers, disclosed := [], [];
    var attempts: seq<Routing.RouteAttempt> := [];
    while |attempts| < |route.providers| && !cancelled[|attempts|]
          && (attempts == [] || Routing.Continues(attempts[|attempts| - 1], route.replay))
      invariant |disclosed| == |answers| == |attempts| <= |route.providers|
      invariant forall i :: 0 <= i < |attempts| ==>
                  attempts[i] == Routing.Recorded(route.providers[i], registered, answers[i])
      invariant Along(attempts, cancelled, route.replay)
      invariant forall i :: 0 <= i < |attempts| ==> Routing.Honest(attempts[i], disclosed[i])
      decreases |route.providers| - |attempts|
    {
      var id, adapter := route.providers[|attempts|], adapters[|attempts|];
      var answer := UNASKED;
      ghost var entered: nat := 0;
      if id in registered {
        answer, entered := Ask(lib, adapter);
      } else {
        UnregisteredIsHonest(id, registered, answer);
      }
      answers, disclosed := answers + [answer], disclosed + [entered];
      attempts := attempts + [Routing.Recorded(id, registered, answer)];
    }
    assert attempts == Logged(registered, route.providers, answers);
  }

  lemma UnregisteredIsHonest(id: Routing.ProviderId, registered: set<Routing.ProviderId>, answer: Routing.Answer)
    requires id !in registered
    ensures Routing.Honest(Routing.Recorded(id, registered, answer), 0)
  {
  }

  /** Without consent to replay, audio enters the write buffer of at most one connection of all that a route opens, and
      of none if its last attempt reports NotAccepted. */
  method RunRoute(lib: Library, registered: set<Routing.ProviderId>, route: Routing.RoutePlan, adapters: seq<Adapter>,
                  cancelled: seq<bool>)
    returns (r: Routing.RouteResult, ghost disclosed: seq<nat>)
    requires |adapters| == |cancelled| == |route.providers|
    requires ForeignHonest(registered, route.providers, adapters)
    ensures |disclosed| == |r.attempts| <= |route.providers|
    ensures forall i :: 0 <= i < |r.attempts| ==> Routing.Honest(r.attempts[i], disclosed[i])
    ensures !route.replay.BufferedWithConsent? ==> Routing.Total(disclosed) <= 1
    ensures !route.replay.BufferedWithConsent? && r.attempts != [] ==>
              (r.attempts[|r.attempts| - 1].acceptance.NotAccepted? ==> Routing.Total(disclosed) == 0)
  {
    hide Routing.Continues;
    hide Routing.Recorded;
    hide Routing.Honest;
    hide Routing.Total;
    hide Utf8.Blank;
    hide ForeignHonest;
    var asked;
    asked, disclosed := AskAlong(lib, registered, route, adapters, cancelled);
    var answers := asked + seq(|route.providers| - |asked|, i => UNASKED);
    r := Routing.RunRecognitionRoute(registered, route, answers, cancelled);
    SameEnd(Logged(registered, route.providers, asked), r.attempts, cancelled, route.replay);
    if !route.replay.BufferedWithConsent? {
      Routing.AudioReachesOneConnection(r.attempts, route.replay, disclosed);
    }
  }
}
