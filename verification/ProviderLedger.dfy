/** Provider runtime accounting: the health circuit breaker and the usage counters. */
module ProviderLedger {
  import opened Base
  import opened Providers
  import opened Routing

  /** Nanoseconds on a clock that does not go back. */
  type Instant = nat

  const COOLDOWN := 60_000_000_000
  const FAILURE_LIMIT := 3

  datatype Health = Health(consecutiveFailures: nat, blockedUntil: Option<Instant>, lastSuccess: Option<Instant>,
                           lastFailure: Option<Instant>, lastError: Option<VoxError>)

  datatype Counters = Counters(attempts: nat, requests: nat, successes: nat, failures: nat, audioMillis: nat,
                               tokenReports: nat, inputTokens: nat, outputTokens: nat, totalTokens: nat,
                               reportedTokens: nat)

  datatype Books = Books(registry: set<ProviderId>, health: map<ProviderId, Health>, usage: map<ProviderId, Counters>)

  const FRESH := Health(0, None, None, None, None)
  const NO_USAGE := Counters(0, 0, 0, 0, 0, 0, 0, 0, 0, 0)

  function HealthOf(b: Books, id: ProviderId): Health {
    if id in b.health then b.health[id] else FRESH
  }

  function UsageOf(b: Books, id: ProviderId): Counters {
    if id in b.usage then b.usage[id] else NO_USAGE
  }

  predicate AvailableAt(h: Health, now: Instant) {
    h.blockedUntil.None? || now >= h.blockedUntil.value
  }

  function AfterSuccess(h: Health, now: Instant): Health {
    h.(lastSuccess := Some(now), consecutiveFailures := 0, blockedUntil := None)
  }

  function AfterFailure(h: Health, now: Instant, error: VoxError): Health {
    var noted := h.(lastFailure := Some(now), lastError := Some(error));
    if !error.retryable then noted
    else
      var counted := noted.(consecutiveFailures := h.consecutiveFailures + 1);
      if counted.consecutiveFailures >= FAILURE_LIMIT then counted.(blockedUntil := Some(now + COOLDOWN)) else counted
  }

  function Or0(n: Option<nat>): nat {
    if n.Some? then n.value else 0
  }

  function AfterTranscript(c: Counters, usage: Usage): Counters {
    var counted := c.(successes := c.successes + 1);
    if usage.inputTokens.None? && usage.outputTokens.None? && usage.totalTokens.None? then counted
    else
      var reported :=
        if usage.totalTokens.Some? then usage.totalTokens.value else Or0(usage.inputTokens) + Or0(usage.outputTokens);
      counted.(tokenReports := c.tokenReports + 1, inputTokens := c.inputTokens + Or0(usage.inputTokens),
               outputTokens := c.outputTokens + Or0(usage.outputTokens),
               totalTokens := c.totalTokens + Or0(usage.totalTokens), reportedTokens := c.reportedTokens + reported)
  }

  predicate CountsAsFailure(attempt: RouteAttempt) {
    attempt.error.Some? && !attempt.error.value.category.Cancelled?
  }

  function AfterAttempt(c: Counters, attempt: RouteAttempt, audioMillis: nat): Counters {
    c.(attempts := c.attempts + 1, requests := c.requests + if attempt.transportStarted then 1 else 0,
       audioMillis := c.audioMillis + if attempt.acceptance.NotAccepted? then 0 else audioMillis,
       failures := c.failures + if CountsAsFailure(attempt) then 1 else 0)
  }

  function BookAttempt(b: Books, attempt: RouteAttempt, audioMillis: nat, now: Instant): Books {
    var id := attempt.provider;
    var counted := b.(usage := b.usage[id := AfterAttempt(UsageOf(b, id), attempt, audioMillis)]);
    if CountsAsFailure(attempt) then
      counted.(health := b.health[id := AfterFailure(HealthOf(b, id), now, attempt.error.value)])
    else counted
  }

  function BookAttempts(b: Books, attempts: seq<RouteAttempt>, audioMillis: nat, now: Instant): Books {
    if attempts == [] then b
    else BookAttempt(BookAttempts(b, attempts[..|attempts| - 1], audioMillis, now), attempts[|attempts| - 1], audioMillis, now)
  }

  function BookSuccess(b: Books, success: Recognized, now: Instant): Books {
    var id := success.provider;
    b.(health := b.health[id := AfterSuccess(HealthOf(b, id), now)],
       usage := b.usage[id := AfterTranscript(UsageOf(b, id), success.usage)])
  }

  function BookResult(b: Books, result: RouteResult, audioMillis: nat, now: Instant): Books {
    var booked := BookAttempts(b, result.attempts, audioMillis, now);
    if result.outcome.Ok? then BookSuccess(booked, result.outcome.value, now) else booked
  }

  function Available(b: Books, id: ProviderId, now: Instant): bool {
    id in b.registry && AvailableAt(HealthOf(b, id), now)
  }

  function HealthMap(b: Books, policy: RoutingPolicy, now: Instant): map<ProviderId, bool> {
    map id | id in Configured(policy) :: Available(b, id, now)
  }

  function PlanFor(b: Books, policy: RoutingPolicy, now: Instant): Result<RoutePlan, VoxError> {
    Plan(policy, HealthMap(b, policy, now))
  }

  // ----- histories

  datatype Happening =
    | Routed(result: RouteResult, audioMillis: nat, now: Instant)
    | RegistryReplaced(registry: set<ProviderId>)

  function Book(b: Books, happening: Happening): Books {
    match happening
    case Routed(result, audioMillis, now) => BookResult(b, result, audioMillis, now)
    case RegistryReplaced(registry) => b.(registry := registry, health := map[])
  }

  function BooksAfter(registry: set<ProviderId>, past: seq<Happening>): Books {
    if past == [] then Books(registry, map[], map[])
    else Book(BooksAfter(registry, past[..|past| - 1]), past[|past| - 1])
  }

  /** When a provider's attempts of one route failed in a way that counts against it. */
  function FailuresIn(attempts: seq<RouteAttempt>, id: ProviderId, now: Instant): seq<Instant> {
    if attempts == [] then []
    else
      var last := attempts[|attempts| - 1];
      FailuresIn(attempts[..|attempts| - 1], id, now)
      + if last.provider == id && CountsAsFailure(last) && last.error.value.retryable then [now] else []
  }

  /** When a provider failed since its last success, or since the registry was last replaced. */
  function FailuresSince(past: seq<Happening>, id: ProviderId): seq<Instant> {
    if past == [] || past[|past| - 1].RegistryReplaced? then []
    else
      var last := past[|past| - 1];
      if last.result.outcome.Ok? && last.result.outcome.value.provider == id then []
      else FailuresSince(past[..|past| - 1], id) + FailuresIn(last.result.attempts, id, last.now)
  }

  /** Three failures or more in a row, the last less than a minute ago. */
  predicate CoolsDown(failures: seq<Instant>, now: Instant) {
    |failures| >= 3 && now < failures[|failures| - 1] + 60_000_000_000
  }

  predicate Reflects(h: Health, failures: seq<Instant>) {
    && h.consecutiveFailures == |failures|
    && h.blockedUntil == if |failures| >= 3 then Some(failures[|failures| - 1] + 60_000_000_000) else None
  }

  lemma {:induction false} AttemptsReflect(b: Books, attempts: seq<RouteAttempt>, ms: nat, now: Instant, id: ProviderId,
                                           failures: seq<Instant>)
    requires Reflects(HealthOf(b, id), failures)
    ensures Reflects(HealthOf(BookAttempts(b, attempts, ms, now), id), failures + FailuresIn(attempts, id, now))
  {
    hide AfterAttempt;
    if attempts == [] {
      assert failures + [] == failures;
    } else {
      var before, last := attempts[..|attempts| - 1], attempts[|attempts| - 1];
      AttemptsReflect(b, before, ms, now, id, failures);
      AttemptReflects(BookAttempts(b, before, ms, now), last, ms, now, id, failures + FailuresIn(before, id, now));
      var one := FailuresIn([last], id, now);
      assert [last][..0] == [];
      assert FailuresIn(attempts, id, now) == FailuresIn(before, id, now) + one;
      ConcatAssociates(failures, FailuresIn(before, id, now), one);
    }
  }

  lemma AttemptReflects(b: Books, attempt: RouteAttempt, ms: nat, now: Instant, id: ProviderId, failures: seq<Instant>)
    requires Reflects(HealthOf(b, id), failures)
    ensures Reflects(HealthOf(BookAttempt(b, attempt, ms, now), id), failures + FailuresIn([attempt], id, now))
  {
    hide AfterAttempt;
    assert [attempt][..0] == [];
    assert failures + [] == failures;
  }

  lemma {:induction false} HealthReflectsPast(registry: set<ProviderId>, past: seq<Happening>, id: ProviderId)
    ensures Reflects(HealthOf(BooksAfter(registry, past), id), FailuresSince(past, id))
  {
    hide AfterTranscript;
    if past != [] {
      var before, last := past[..|past| - 1], past[|past| - 1];
      var b := BooksAfter(registry, before);
      HealthReflectsPast(registry, before, id);
      if last.Routed? {
        AttemptsReflect(b, last.result.attempts, last.audioMillis, last.now, id, FailuresSince(before, id));
        hide BookAttempts;
        hide FailuresIn;
      }
    }
  }

  lemma {:induction false} BookingKeepsRegistry(b: Books, attempts: seq<RouteAttempt>, ms: nat, now: Instant)
    ensures BookAttempts(b, attempts, ms, now).registry == b.registry
  {
    if attempts != [] {
      BookingKeepsRegistry(b, attempts[..|attempts| - 1], ms, now);
    }
  }

  lemma {:induction false} HealthyMembers(ids: seq<ProviderId>, health: map<ProviderId, bool>, id: ProviderId)
    ensures id in Healthy(ids, health) <==> id in ids && IsHealthy(id, health)
  {
    if ids != [] {
      var n := |ids| - 1;
      HealthyMembers(ids[..n], health, id);
      assert ids == ids[..n] + [ids[n]];
    }
  }

  /** A configured provider is planned exactly when it is registered and not cooling down after three failures in a
      row; there is no plan exactly when that leaves none. The plan keeps the policy's order and replay rule. */
  lemma PlannedExactly(registry: set<ProviderId>, past: seq<Happening>, policy: RoutingPolicy, now: Instant)
    returns (at: seq<nat>)
    ensures var b := BooksAfter(registry, past);
            var plan := PlanFor(b, policy, now);
            && (forall id :: id in Configured(policy) ==>
                  ((plan.Ok? && id in plan.value.providers)
                   <==> id in b.registry && !CoolsDown(FailuresSince(past, id), now)))
            && (plan.Err? ==> plan.error == VoxError(Unavailable, RoutingNoProvider, true))
            && (plan.Ok? ==> plan.value.providers != [] && plan.value.replay == policy.replay
                             && PicksInOrder(plan.value.providers, Configured(policy), at, HealthMap(b, policy, now)))
  {
    hide Configured;
    hide BooksAfter;
    hide FailuresSince;
    var b := BooksAfter(registry, past);
    var health := HealthMap(b, policy, now);
    forall id | id in Configured(policy)
      ensures id in Healthy(Configured(policy), health) <==> id in b.registry && !CoolsDown(FailuresSince(past, id), now) {
      HealthReflectsPast(registry, past, id);
      HealthyMembers(Configured(policy), health, id);
    }
    at := HealthyKeepsOrder(Configured(policy), health);
  }

  /** The last failure of one route's attempts that counts against a provider. */
  function LastFailureIn(attempts: seq<RouteAttempt>, id: ProviderId): Option<VoxError> {
    if attempts == [] then None
    else
      var last := attempts[|attempts| - 1];
      if last.provider == id && last.error.Some? && last.error.value.category != ErrorCategory.Cancelled then last.error
      else LastFailureIn(attempts[..|attempts| - 1], id)
  }

  /** A provider's last failure since the registry was last replaced, and its last success. */
  function LastFailure(past: seq<Happening>, id: ProviderId): Option<(Instant, VoxError)> {
    if past == [] || past[|past| - 1].RegistryReplaced? then None
    else
      var last := past[|past| - 1];
      var failed := LastFailureIn(last.result.attempts, id);
      if failed.Some? then Some((last.now, failed.value)) else LastFailure(past[..|past| - 1], id)
  }

  function LastSuccess(past: seq<Happening>, id: ProviderId): Option<Instant> {
    if past == [] || past[|past| - 1].RegistryReplaced? then None
    else
      var last := past[|past| - 1];
      if last.result.outcome.Ok? && last.result.outcome.value.provider == id then Some(last.now)
      else LastSuccess(past[..|past| - 1], id)
  }

  lemma {:induction false} FailureIsNoted(b: Books, attempts: seq<RouteAttempt>, ms: nat, now: Instant, id: ProviderId)
    ensures var before, after := HealthOf(b, id), HealthOf(BookAttempts(b, attempts, ms, now), id);
            var failed := LastFailureIn(attempts, id);
            && after.lastSuccess == before.lastSuccess
            && (if failed.Some? then after.lastFailure == Some(now) && after.lastError == failed
                else after.lastFailure == before.lastFailure && after.lastError == before.lastError)
  {
    hide AfterAttempt;
    if attempts != [] {
      FailureIsNoted(b, attempts[..|attempts| - 1], ms, now, id);
    }
  }

  /** A provider's health shows its last failure with its time and error, and its last success. */
  lemma {:induction false} LastsAreKept(registry: set<ProviderId>, past: seq<Happening>, id: ProviderId)
    ensures var h := HealthOf(BooksAfter(registry, past), id);
            var failure := LastFailure(past, id);
            && h.lastSuccess == LastSuccess(past, id)
            && h.lastFailure == (if failure.Some? then Some(failure.value.0) else None)
            && h.lastError == (if failure.Some? then Some(failure.value.1) else None)
  {
    hide AfterTranscript;
    if past != [] {
      var before, last := past[..|past| - 1], past[|past| - 1];
      LastsAreKept(registry, before, id);
      if last.Routed? {
        FailureIsNoted(BooksAfter(registry, before), last.result.attempts, last.audioMillis, last.now, id);
        hide BookAttempts;
        hide LastFailureIn;
      }
    }
  }

  // ----- usage adds up

  /** The shape of every route result (`Routing.RunRecognitionRoute`). */
  ghost predicate WellShaped(r: RouteResult) {
    && (forall i :: 0 <= i < |r.attempts| - 1 ==> r.attempts[i].error.Some?)
    && (r.outcome.Ok? <==> r.attempts != [] && r.attempts[|r.attempts| - 1].error.None?)
    && (r.outcome.Ok? ==> r.attempts[|r.attempts| - 1].provider == r.outcome.value.provider)
  }

  /** Every result the route runner returns has that shape. */
  lemma RunsAreWellShaped(registered: set<ProviderId>, route: RoutePlan, answers: seq<Answer>, r: RouteResult)
    requires |r.attempts| <= |route.providers| == |answers|
    requires forall i :: 0 <= i < |r.attempts| ==> r.attempts[i] == Recorded(route.providers[i], registered, answers[i])
    requires forall i :: 0 <= i < |r.attempts| - 1 ==> Continues(r.attempts[i], route.replay)
    requires r.outcome.Ok? <==> r.attempts != [] && r.attempts[|r.attempts| - 1].error.None?
    requires r.outcome.Ok? ==> r.outcome.value.provider == route.providers[|r.attempts| - 1]
    ensures WellShaped(r)
  {
    forall i | 0 <= i < |r.attempts| - 1 ensures r.attempts[i].error.Some? {
      assert Continues(r.attempts[i], route.replay);
    }
  }

  function AttemptsIn(attempts: seq<RouteAttempt>, id: ProviderId): nat {
    if attempts == [] then 0
    else AttemptsIn(attempts[..|attempts| - 1], id) + if attempts[|attempts| - 1].provider == id then 1 else 0
  }

  function CancelledIn(attempts: seq<RouteAttempt>, id: ProviderId): nat {
    if attempts == [] then 0
    else
      var last := attempts[|attempts| - 1];
      CancelledIn(attempts[..|attempts| - 1], id)
      + if last.provider == id && last.error.Some? && !CountsAsFailure(last) then 1 else 0
  }

  function AllAttempts(past: seq<Happening>, id: ProviderId): nat {
    if past == [] then 0
    else
      AllAttempts(past[..|past| - 1], id)
      + if past[|past| - 1].Routed? then AttemptsIn(past[|past| - 1].result.attempts, id) else 0
  }

  function AllCancelled(past: seq<Happening>, id: ProviderId): nat {
    if past == [] then 0
    else
      AllCancelled(past[..|past| - 1], id)
      + if past[|past| - 1].Routed? then CancelledIn(past[|past| - 1].result.attempts, id) else 0
  }

  function Succeeded(attempts: seq<RouteAttempt>, id: ProviderId): nat {
    if attempts == [] then 0
    else
      var last := attempts[|attempts| - 1];
      Succeeded(attempts[..|attempts| - 1], id) + if last.provider == id && last.error.None? then 1 else 0
  }

  lemma {:induction false} AttemptsAddUp(b: Books, attempts: seq<RouteAttempt>, ms: nat, now: Instant, id: ProviderId)
    ensures var before, after := UsageOf(b, id), UsageOf(BookAttempts(b, attempts, ms, now), id);
            && after.attempts == before.attempts + AttemptsIn(attempts, id)
            && after.successes == before.successes
            && AttemptsIn(attempts, id) + before.failures == after.failures + CancelledIn(attempts, id) + Succeeded(attempts, id)
  {
    hide AfterFailure;
    if attempts != [] {
      AttemptsAddUp(b, attempts[..|attempts| - 1], ms, now, id);
    }
  }

  lemma {:induction false} NoneSucceeded(attempts: seq<RouteAttempt>, id: ProviderId)
    requires forall i :: 0 <= i < |attempts| ==> attempts[i].error.Some?
    ensures Succeeded(attempts, id) == 0
  {
    if attempts != [] {
      NoneSucceeded(attempts[..|attempts| - 1], id);
    }
  }

  lemma SuccessesOf(r: RouteResult, id: ProviderId)
    requires WellShaped(r)
    ensures Succeeded(r.attempts, id) == if r.outcome.Ok? && r.outcome.value.provider == id then 1 else 0
  {
    if r.attempts != [] {
      NoneSucceeded(r.attempts[..|r.attempts| - 1], id);
    }
  }

  /** Per provider, over any history of routes: each attempt is a success, a failure or a cancellation. */
  lemma {:induction false} UsageAddsUp(registry: set<ProviderId>, past: seq<Happening>, id: ProviderId)
    requires forall i :: 0 <= i < |past| && past[i].Routed? ==> WellShaped(past[i].result)
    ensures var c := UsageOf(BooksAfter(registry, past), id);
            && c.attempts == AllAttempts(past, id)
            && c.attempts == c.successes + c.failures + AllCancelled(past, id)
  {
    hide WellShaped;
    if past != [] {
      var before, last := past[..|past| - 1], past[|past| - 1];
      UsageAddsUp(registry, before, id);
      if last.Routed? {
        var b := BooksAfter(registry, before);
        SuccessesOf(last.result, id);
        AttemptsAddUp(b, last.result.attempts, last.audioMillis, last.now, id);
        hide BookAttempts;
        hide AttemptsIn;
        hide CancelledIn;
        hide Succeeded;
      }
    }
  }

  /** The attempts at a provider that reached its transport, and the audio of those that may have been heard. */
  function Requests(attempts: seq<RouteAttempt>, id: ProviderId): nat {
    if attempts == [] then 0
    else
      var last := attempts[|attempts| - 1];
      Requests(attempts[..|attempts| - 1], id) + if last.provider == id && last.transportStarted then 1 else 0
  }

  function Heard(attempts: seq<RouteAttempt>, id: ProviderId): nat {
    if attempts == [] then 0
    else
      var last := attempts[|attempts| - 1];
      Heard(attempts[..|attempts| - 1], id) + if last.provider == id && last.acceptance != NotAccepted then 1 else 0
  }

  function AllRequests(past: seq<Happening>, id: ProviderId): nat {
    if past == [] then 0
    else
      AllRequests(past[..|past| - 1], id)
      + if past[|past| - 1].Routed? then Requests(past[|past| - 1].result.attempts, id) else 0
  }

  function AllAudio(past: seq<Happening>, id: ProviderId): nat {
    if past == [] then 0
    else
      AllAudio(past[..|past| - 1], id)
      + if past[|past| - 1].Routed? then
          Heard(past[|past| - 1].result.attempts, id) * past[|past| - 1].audioMillis
        else 0
  }

  lemma {:induction false} TransportAddsUp(b: Books, attempts: seq<RouteAttempt>, ms: nat, now: Instant, id: ProviderId)
    ensures var before, after := UsageOf(b, id), UsageOf(BookAttempts(b, attempts, ms, now), id);
            && after.requests == before.requests + Requests(attempts, id)
            && after.audioMillis == before.audioMillis + Heard(attempts, id) * ms
  {
    if attempts != [] {
      var n := |attempts| - 1;
      TransportAddsUp(b, attempts[..n], ms, now, id);
      OneTransport(BookAttempts(b, attempts[..n], ms, now), attempts[n], ms, now, id);
      OneMoreHeard(attempts, ms, id);
      hide Requests;
      hide BookAttempt;
      hide UsageOf;
      hide Heard;
    } else {
      NothingHeard(ms, id);
    }
  }

  lemma NothingHeard(ms: nat, id: ProviderId)
    ensures Requests([], id) == 0 && Heard([], id) * ms == 0
  {
  }

  lemma OneTransport(b: Books, attempt: RouteAttempt, ms: nat, now: Instant, id: ProviderId)
    ensures var before, after := UsageOf(b, id), UsageOf(BookAttempt(b, attempt, ms, now), id);
            && after.requests == before.requests + (if attempt.provider == id && attempt.transportStarted then 1 else 0)
            && after.audioMillis
               == before.audioMillis + (if attempt.provider == id && attempt.acceptance != NotAccepted then ms else 0)
  {
    hide AfterFailure;
  }

  lemma OneMoreHeard(attempts: seq<RouteAttempt>, ms: nat, id: ProviderId)
    requires attempts != []
    ensures var last, before := attempts[|attempts| - 1], attempts[..|attempts| - 1];
            && Requests(attempts, id)
               == Requests(before, id) + (if last.provider == id && last.transportStarted then 1 else 0)
            && Heard(attempts, id) * ms
               == Heard(before, id) * ms + (if last.provider == id && last.acceptance != NotAccepted then ms else 0)
  {
    var heard := Heard(attempts[..|attempts| - 1], id);
    assert (heard + 1) * ms == heard * ms + ms;
  }

  /** Per provider, over any history: a request for each attempt that reached its transport, and the recording's length
      for each attempt it may have heard. */
  lemma {:induction false} DisclosureAddsUp(registry: set<ProviderId>, past: seq<Happening>, id: ProviderId)
    ensures var c := UsageOf(BooksAfter(registry, past), id);
            c.requests == AllRequests(past, id) && c.audioMillis == AllAudio(past, id)
  {
    if past != [] {
      var before, last := past[..|past| - 1], past[|past| - 1];
      DisclosureAddsUp(registry, before, id);
      if last.Routed? {
        TransportAddsUp(BooksAfter(registry, before), last.result.attempts, last.audioMillis, last.now, id);
        hide BookAttempts;
        hide Requests;
        hide Heard;
      }
    }
  }

  // ----- tokens add up

  /** What a provider's successful transcripts reported, in order. */
  function SuccessesOfProvider(past: seq<Happening>, id: ProviderId): seq<Usage> {
    if past == [] then []
    else
      var last := past[|past| - 1];
      SuccessesOfProvider(past[..|past| - 1], id)
      + if last.Routed? && last.result.outcome.Ok? && last.result.outcome.value.provider == id then
          [last.result.outcome.value.usage]
        else []
  }

  function SumOf(reports: seq<Usage>, amount: Usage -> nat): nat {
    if reports == [] then 0 else SumOf(reports[..|reports| - 1], amount) + amount(reports[|reports| - 1])
  }

  predicate ReportsTokens(u: Usage) {
    u.inputTokens.Some? || u.outputTokens.Some? || u.totalTokens.Some?
  }

  /** The total a provider states, or else the sum of what it states. */
  function Stated(u: Usage): nat {
    match u.totalTokens
    case Some(total) => total
    case None => Or0(u.inputTokens) + Or0(u.outputTokens)
  }

  predicate Tallies(c: Counters, reports: seq<Usage>) {
    && c.successes == |reports|
    && c.tokenReports == SumOf(reports, (u: Usage) => if ReportsTokens(u) then 1 else 0)
    && c.inputTokens == SumOf(reports, (u: Usage) => Or0(u.inputTokens))
    && c.outputTokens == SumOf(reports, (u: Usage) => Or0(u.outputTokens))
    && c.totalTokens == SumOf(reports, (u: Usage) => Or0(u.totalTokens))
    && c.reportedTokens == SumOf(reports, (u: Usage) => Stated(u))
  }

  lemma SumMore(reports: seq<Usage>, u: Usage, amount: Usage -> nat)
    ensures SumOf(reports + [u], amount) == SumOf(reports, amount) + amount(u)
  {
    assert (reports + [u])[..|reports|] == reports;
  }

  lemma TranscriptTallies(c: Counters, reports: seq<Usage>, u: Usage)
    requires Tallies(c, reports)
    ensures Tallies(AfterTranscript(c, u), reports + [u])
  {
    SumMore(reports, u, (u: Usage) => if ReportsTokens(u) then 1 else 0);
    SumMore(reports, u, (u: Usage) => Or0(u.inputTokens));
    SumMore(reports, u, (u: Usage) => Or0(u.outputTokens));
    SumMore(reports, u, (u: Usage) => Or0(u.totalTokens));
    SumMore(reports, u, (u: Usage) => Stated(u));
    hide SumOf;
  }

  lemma {:induction false} AttemptsLeaveTokens(b: Books, attempts: seq<RouteAttempt>, ms: nat, now: Instant,
                                               id: ProviderId, reports: seq<Usage>)
    requires Tallies(UsageOf(b, id), reports)
    ensures Tallies(UsageOf(BookAttempts(b, attempts, ms, now), id), reports)
  {
    hide AfterFailure;
    hide SumOf;
    if attempts != [] {
      AttemptsLeaveTokens(b, attempts[..|attempts| - 1], ms, now, id, reports);
    }
  }

  /** Per provider, over any history: every token counter is the sum of what its successful transcripts reported, and
      nothing else touches it. */
  lemma {:induction false} TokensAddUp(registry: set<ProviderId>, past: seq<Happening>, id: ProviderId)
    ensures Tallies(UsageOf(BooksAfter(registry, past), id), SuccessesOfProvider(past, id))
  {
    if past != [] {
      var before, last := past[..|past| - 1], past[|past| - 1];
      var b, reports := BooksAfter(registry, before), SuccessesOfProvider(before, id);
      TokensAddUp(registry, before, id);
      assert reports + [] == reports;
      hide Tallies;
      if last.Routed? {
        AttemptsLeaveTokens(b, last.result.attempts, last.audioMillis, last.now, id, reports);
        hide BookAttempts;
        var booked := BookAttempts(b, last.result.attempts, last.audioMillis, last.now);
        if last.result.outcome.Ok? && last.result.outcome.value.provider == id {
          TranscriptTallies(UsageOf(booked, id), reports, last.result.outcome.value.usage);
        }
        hide AfterTranscript;
      }
    }
  }
}
