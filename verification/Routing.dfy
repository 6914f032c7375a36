/** Provider selection and privacy-aware execution of a route. */
module Routing {
  import opened Base
  import opened Providers
  import Utf8

  type ProviderId = string

  datatype ReplayPolicy = Never | BeforeAudioAccepted | BufferedWithConsent

  datatype FallbackReason = OnConnection | OnTimeout | OnRateLimited | OnUnavailable

  datatype RoutingPolicy = RoutingPolicy(primary: ProviderId, fallbacks: seq<ProviderId>, replay: ReplayPolicy)

  datatype RoutePlan = RoutePlan(providers: seq<ProviderId>, replay: ReplayPolicy)

  predicate MayFallback(reason: FallbackReason, acceptance: AudioAcceptance, replay: ReplayPolicy) {
    (reason.OnConnection? || reason.OnTimeout? || reason.OnRateLimited? || reason.OnUnavailable?)
    && (acceptance.NotAccepted? || replay.BufferedWithConsent?)
  }

  function ReasonFor(category: ErrorCategory): Option<FallbackReason> {
    match category
    case Connection => Some(OnConnection)
    case Timeout => Some(OnTimeout)
    case RateLimited => Some(OnRateLimited)
    case Unavailable => Some(OnUnavailable)
    case _ => None
  }

  // ----- planning

  function Configured(policy: RoutingPolicy): seq<ProviderId> {
    [policy.primary] + policy.fallbacks
  }

  /** A provider missing from the health map counts as available. */
  predicate IsHealthy(id: ProviderId, health: map<ProviderId, bool>) {
    id !in health || health[id]
  }

  function Healthy(ids: seq<ProviderId>, health: map<ProviderId, bool>): seq<ProviderId> {
    if ids == [] then []
    else
      var n := |ids| - 1;
      Healthy(ids[..n], health) + if IsHealthy(ids[n], health) then [ids[n]] else []
  }

  function Plan(policy: RoutingPolicy, health: map<ProviderId, bool>): (r: Result<RoutePlan, VoxError>) {
    var ids := Healthy(Configured(policy), health);
    if ids == [] then Err(VoxError(Unavailable, RoutingNoProvider, true)) else Ok(RoutePlan(ids, policy.replay))
  }

  /** `part` picks the elements of `whole` at the increasing positions `at`, and leaves out only unhealthy ones. */
  ghost predicate PicksInOrder(part: seq<ProviderId>, whole: seq<ProviderId>, at: seq<nat>, health: map<ProviderId, bool>)
  {
    && |at| == |part|
    && (forall i, j :: 0 <= i < j < |at| ==> at[i] < at[j])
    && (forall i :: 0 <= i < |at| ==> at[i] < |whole| && part[i] == whole[at[i]])
    && (forall i :: 0 <= i < |part| ==> IsHealthy(part[i], health))
    && (forall k :: 0 <= k < |whole| && IsHealthy(whole[k], health) ==> k in at)
  }

  lemma PickLast(part: seq<ProviderId>, whole: seq<ProviderId>, at: seq<nat>, health: map<ProviderId, bool>)
    requires whole != [] && PicksInOrder(part, whole[..|whole| - 1], at, health)
    ensures var last := whole[|whole| - 1];
            if IsHealthy(last, health) then PicksInOrder(part + [last], whole, at + [|whole| - 1], health)
            else PicksInOrder(part, whole, at, health)
  {
    hide IsHealthy;
    var n := |whole| - 1;
    forall k | 0 <= k < n && IsHealthy(whole[k], health) ensures k in at {
      assert whole[..n][k] == whole[k];
    }
    assert (at + [n])[|at|] == n;
    forall k | k in at ensures k in at + [n] {
    }
  }

  /** Plans keep the configured order and drop exactly the unhealthy providers. */
  lemma {:induction false} HealthyKeepsOrder(ids: seq<ProviderId>, health: map<ProviderId, bool>) returns (at: seq<nat>)
    ensures PicksInOrder(Healthy(ids, health), ids, at, health)
  {
    if ids == [] {
      at := [];
    } else {
      var n := |ids| - 1;
      at := HealthyKeepsOrder(ids[..n], health);
      PickLast(Healthy(ids[..n], health), ids, at, health);
      hide PicksInOrder;
      if IsHealthy(ids[n], health) {
        at := at + [n];
      } else {
        assert Healthy(ids[..n], health) + [] == Healthy(ids[..n], health);
      }
    }
  }

  // ----- running a route

  datatype Usage = Usage(inputTokens: Option<nat>, outputTokens: Option<nat>, totalTokens: Option<nat>)

  /** An adapter's answer: a transcript with its evidence, or a failure with its evidence. */
  datatype Answer =
    | Transcribed(text: string, usage: Usage, transportStarted: bool, acceptance: AudioAcceptance)
    | Failed(failure: AttemptFailure)

  datatype RouteAttempt = RouteAttempt(provider: ProviderId, transportStarted: bool, acceptance: AudioAcceptance,
                                       error: Option<VoxError>)

  datatype Recognized = Recognized(provider: ProviderId, text: string, usage: Usage)

  datatype RouteResult = RouteResult(attempts: seq<RouteAttempt>, outcome: Result<Recognized, VoxError>)

  const NOT_REGISTERED := VoxError(Configuration, ProviderNotRegistered, false)
  const EMPTY_TRANSCRIPT := VoxError(Protocol, ProviderEmptyTranscript, false)
  const CANCELLED := VoxError(ErrorCategory.Cancelled, ProviderCancelled, false)
  const NO_ROUTE := VoxError(Unavailable, ProviderNoRoute, false)

  /** What asking one provider must be recorded as. */
  function Recorded(id: ProviderId, registered: set<ProviderId>, answer: Answer): RouteAttempt {
    if id !in registered then RouteAttempt(id, false, NotAccepted, Some(NOT_REGISTERED))
    else
      match answer
      case Transcribed(text, _, started, acceptance) =>
        RouteAttempt(id, started, acceptance, if Utf8.Blank(text) then Some(EMPTY_TRANSCRIPT) else None)
      case Failed(f) => RouteAttempt(id, f.transportStarted, f.acceptance, Some(f.error))
  }

  /** The route may go on to another provider after this attempt. */
  predicate Continues(attempt: RouteAttempt, replay: ReplayPolicy) {
    && attempt.error.Some? && attempt.error.value.retryable
    && !attempt.error.value.category.Cancelled?
    && attempt.error.value.category in {Connection, Timeout, RateLimited, Unavailable}
    && (attempt.acceptance.NotAccepted? || replay.BufferedWithConsent?)
  }

  /** A provider that is not registered, or answers with a blank text, ends the route with an error of its own. */
  lemma HardErrorsStop(id: ProviderId, registered: set<ProviderId>, answer: Answer, replay: ReplayPolicy)
    ensures id !in registered ==>
              Recorded(id, registered, answer)
              == RouteAttempt(id, false, NotAccepted, Some(VoxError(Configuration, ProviderNotRegistered, false)))
    ensures id in registered && answer.Transcribed? && Utf8.Blank(answer.text) ==>
              Recorded(id, registered, answer).error == Some(VoxError(Protocol, ProviderEmptyTranscript, false))
    ensures id !in registered || (answer.Transcribed? && Utf8.Blank(answer.text)) ==>
              !Continues(Recorded(id, registered, answer), replay)
  {
    hide Utf8.Blank;
  }

  /** Asks the providers in route order. `answers[i]` is what the i-th adapter would return and `cancelled[i]`
      whether cancellation is seen before asking it. */
  method RunRecognitionRoute(registered: set<ProviderId>, route: RoutePlan, answers: seq<Answer>, cancelled: seq<bool>)
    returns (r: RouteResult)
    requires |answers| == |cancelled| == |route.providers|
    ensures |r.attempts| <= |route.providers|
    ensures forall i :: 0 <= i < |r.attempts| ==>
              !cancelled[i] && r.attempts[i] == Recorded(route.providers[i], registered, answers[i])
    ensures forall i :: 0 <= i < |r.attempts| - 1 ==> Continues(r.attempts[i], route.replay)
    ensures |r.attempts| < |route.providers| ==>
              cancelled[|r.attempts|] || (r.attempts != [] && !Continues(r.attempts[|r.attempts| - 1], route.replay))
    ensures r.outcome.Ok? <==> r.attempts != [] && r.attempts[|r.attempts| - 1].error.None?
    ensures r.outcome.Ok? ==>
              var n := |r.attempts| - 1;
              answers[n].Transcribed? && !Utf8.Blank(answers[n].text)
              && r.outcome.value == Recognized(route.providers[n], answers[n].text, answers[n].usage)
    ensures r.outcome.Err? ==>
              || (r.attempts == []
                  && r.outcome.error == if route.providers == [] then VoxError(Unavailable, ProviderNoRoute, false)
                                        else VoxError(ErrorCategory.Cancelled, ProviderCancelled, false))
              || (r.attempts != []
                  && var last := r.attempts[|r.attempts| - 1];
                     if Continues(last, route.replay) && |r.attempts| < |route.providers|
                     then r.outcome.error == CANCELLED
                     else last.error == Some(r.outcome.error))
  {
    hide Utf8.Blank;
    var attempts: seq<RouteAttempt>, lastError: Option<VoxError> := [], None;
    for i := 0 to |route.providers|
      invariant |attempts| == i
      invariant lastError == if i == 0 then None else attempts[i - 1].error
      invariant forall k :: 0 <= k < i ==>
                  !cancelled[k] && attempts[k] == Recorded(route.providers[k], registered, answers[k])
                  && Continues(attempts[k], route.replay)
    {
      if cancelled[i] {
        lastError := Some(CANCELLED);
        return RouteResult(attempts, Err(CANCELLED));
      }
      var id := route.providers[i];
      if id !in registered {
        attempts := attempts + [RouteAttempt(id, false, NotAccepted, Some(NOT_REGISTERED))];
        return RouteResult(attempts, Err(NOT_REGISTERED));
      }
      match answers[i] {
        case Transcribed(text, usage, started, acceptance) =>
          if !Utf8.Blank(text) {
            attempts := attempts + [RouteAttempt(id, started, acceptance, None)];
            return RouteResult(attempts, Ok(Recognized(id, text, usage)));
          }
          attempts := attempts + [RouteAttempt(id, started, acceptance, Some(EMPTY_TRANSCRIPT))];
          return RouteResult(attempts, Err(EMPTY_TRANSCRIPT));
        case Failed(AttemptFailure(error, started, acceptance)) =>
          var reason := ReasonFor(error.category);
          var fallbackAllowed := reason.Some? && MayFallback(reason.value, acceptance, route.replay);
          attempts := attempts + [RouteAttempt(id, started, acceptance, Some(error))];
          lastError := Some(error);
          if error.category.Cancelled? || !error.retryable || !fallbackAllowed {
            return RouteResult(attempts, Err(error));
          }
      }
    }
    return RouteResult(attempts, Err(if lastError.Some? then lastError.value else NO_ROUTE));
  }

  // ----- disclosure

  /** An adapter's contract: its attempt opened connections of which audio entered at most one,
      and none if it reports NotAccepted. `DoubaoRunner.TranscribeWithTokenRefresh` keeps it. */
  predicate Honest(attempt: RouteAttempt, disclosed: nat) {
    disclosed <= 1 && (attempt.acceptance.NotAccepted? ==> disclosed == 0)
  }

  function Total(ns: seq<nat>): nat {
    if ns == [] then 0 else ns[0] + Total(ns[1..])
  }

  /** Without consent to replay, over the whole route audio enters the write buffer of at most one connection. */
  lemma {:induction false} AudioReachesOneConnection(attempts: seq<RouteAttempt>, replay: ReplayPolicy,
                                                     disclosed: seq<nat>)
    requires |disclosed| == |attempts| && !replay.BufferedWithConsent?
    requires forall i :: 0 <= i < |attempts| - 1 ==> Continues(attempts[i], replay)
    requires forall i :: 0 <= i < |attempts| ==> Honest(attempts[i], disclosed[i])
    ensures Total(disclosed) <= 1
    ensures attempts != [] && attempts[|attempts| - 1].acceptance.NotAccepted? ==> Total(disclosed) == 0
  {
    if |attempts| > 1 {
      assert Continues(attempts[0], replay);
      AudioReachesOneConnection(attempts[1..], replay, disclosed[1..]);
    } else if |attempts| == 1 {
      assert disclosed[1..] == [];
    }
  }
}
