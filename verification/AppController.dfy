/** The single owner of session state, provider accounting and lifecycle events. */
module AppController {
  import opened Base
  import opened Providers
  import opened CoreSession
  import opened AppLifecycle
  import opened ProviderLedger
  import Routing

  class AppController {
    const machine: SessionMachine
    var events: seq<AppEvent>
    var sessionResults: seq<Record>
    var registry: set<Routing.ProviderId>
    var providerHealth: map<Routing.ProviderId, Health>
    var providerUsage: map<Routing.ProviderId, Counters>

    function Life(): Lifecycle
      reads this, machine
    {
      Lifecycle(machine.View(), events, sessionResults)
    }

    function Ledger(): Books
      reads this
    {
      Books(registry, providerHealth, providerUsage)
    }

    constructor (registry: set<Routing.ProviderId>)
      ensures fresh(machine) && Life() == INITIAL_LIFECYCLE && Ledger() == BooksAfter(registry, [])
    {
      machine := new SessionMachine();
      events := [StateChanged(IdleName, "")];
      sessionResults := [];
      this.registry, providerHealth, providerUsage := registry, map[], map[];
    }

    method QueueSessionFinished(record: Record)
      modifies this`events, this`sessionResults
      ensures sessionResults == Remember(old(sessionResults), record)
      ensures events == old(events) + [SessionFinished(record)]
    {
      var position := PositionOf(sessionResults, record.session);
      if position.Some? {
        RemoveAt(sessionResults, record.session);
        sessionResults := sessionResults[..position.value] + sessionResults[position.value + 1..];
      } else {
        RemoveNone(sessionResults, record.session);
      }
      if |sessionResults| == MAX_SESSION_RESULTS {
        sessionResults := sessionResults[1..];
      }
      sessionResults := sessionResults + [record];
      events := events + [SessionFinished(record)];
    }

    method Apply(command: Command) returns (r: Result<Effect, VoxError>)
      modifies this`events, this`sessionResults, machine
      ensures Life() == Perform(old(Life()), Run(command)) && r == ReplyTo(old(Life()), command)
    {
      hide Transition;
      hide Remember;
      if |events| > MAX_PENDING_EVENTS - 2 {
        return Err(BACKPRESSURE);
      }
      var terminal := Announced(command);
      r := machine.Apply(command);
      if r.Err? {
        return;
      }
      events := events + [CurrentState(machine.state)];
      if terminal.Some? {
        QueueSessionFinished(terminal.value);
      }
    }

    method FinishSession(record: Record) returns (accepted: bool)
      modifies this`events, this`sessionResults
      ensures Life() == Perform(old(Life()), Finish(record)) && accepted == Accepts(old(Life()), Finish(record))
    {
      hide Remember;
      if |events| == MAX_PENDING_EVENTS {
        return false;
      }
      QueueSessionFinished(record);
      return true;
    }

    /** Searches the cache from its newest result. */
    method SessionResult(session: SessionId) returns (r: Option<Record>)
      ensures r == Lookup(sessionResults, session)
    {
      var n: nat := |sessionResults|;
      assert sessionResults[..n] == sessionResults;
      while n > 0
        invariant n <= |sessionResults| && Lookup(sessionResults[..n], session) == Lookup(sessionResults, session)
      {
        assert sessionResults[..n][..n - 1] == sessionResults[..n - 1];
        if sessionResults[n - 1].session == session {
          return Some(sessionResults[n - 1]);
        }
        n := n - 1;
      }
      return None;
    }

    method DrainEvents() returns (drained: seq<AppEvent>)
      modifies this`events
      ensures drained == old(events) && Life() == Perform(old(Life()), Drain)
    {
      drained := events;
      events := [];
    }

    method ReplaceRegistry(registry: set<Routing.ProviderId>)
      modifies this`registry, this`providerHealth
      ensures Ledger() == Book(old(Ledger()), RegistryReplaced(registry))
    {
      this.registry := registry;
      providerHealth := map[];
    }

    method PlanRoute(policy: Routing.RoutingPolicy, now: Instant) returns (r: Result<Routing.RoutePlan, VoxError>)
      ensures r == PlanFor(Ledger(), policy, now)
    {
      var health := map id | id in Routing.Configured(policy) ::
        id in registry && (id !in providerHealth || AvailableAt(providerHealth[id], now));
      assert health == HealthMap(Ledger(), policy, now);
      r := Routing.Plan(policy, health);
    }

    method RecordAttempt(attempt: Routing.RouteAttempt, audioMillis: nat, now: Instant)
      modifies this`providerHealth, this`providerUsage
      ensures Ledger() == BookAttempt(old(Ledger()), attempt, audioMillis, now)
    {
      hide AfterFailure;
      var usage := UsageOf(Ledger(), attempt.provider);
      usage := usage.(attempts := usage.attempts + 1);
      if attempt.transportStarted {
        usage := usage.(requests := usage.requests + 1);
      }
      if !attempt.acceptance.NotAccepted? {
        usage := usage.(audioMillis := usage.audioMillis + audioMillis);
      }
      if attempt.error.Some? && !attempt.error.value.category.Cancelled? {
        usage := usage.(failures := usage.failures + 1);
        providerHealth :=
          providerHealth[attempt.provider := AfterFailure(HealthOf(Ledger(), attempt.provider), now, attempt.error.value)];
      }
      providerUsage := providerUsage[attempt.provider := usage];
    }

    method RecordRouteResult(result: Routing.RouteResult, audioMillis: nat, now: Instant)
      modifies this`providerHealth, this`providerUsage
      ensures Ledger() == Book(old(Ledger()), Routed(result, audioMillis, now))
    {
      hide BookAttempt;
      hide AfterTranscript;
      for i := 0 to |result.attempts|
        invariant Ledger() == BookAttempts(old(Ledger()), result.attempts[..i], audioMillis, now)
      {
        assert result.attempts[..i + 1][..i] == result.attempts[..i];
        RecordAttempt(result.attempts[i], audioMillis, now);
      }
      assert result.attempts[..|result.attempts|] == result.attempts;
      if result.outcome.Ok? {
        var success := result.outcome.value;
        var usage := UsageOf(Ledger(), success.provider);
        providerHealth := providerHealth[success.provider := AfterSuccess(HealthOf(Ledger(), success.provider), now)];
        providerUsage := providerUsage[success.provider := AfterTranscript(usage, success.usage)];
      }
    }
  }

  lemma {:induction false} RemoveAt(results: seq<Record>, session: SessionId)
    requires PositionOf(results, session).Some?
    ensures PositionOf(results, session).value < |results|
    ensures Without(results, session)
         == results[..PositionOf(results, session).value] + results[PositionOf(results, session).value + 1..]
  {
    if results[0].session == session {
      assert results[..0] + results[1..] == results[1..];
    } else {
      RemoveAt(results[1..], session);
      CutShifts(results, PositionOf(results[1..], session).value);
    }
  }

  lemma CutShifts<T>(s: seq<T>, k: nat)
    requires k + 1 < |s|
    ensures [s[0]] + (s[1..][..k] + s[1..][k + 1..]) == s[..k + 1] + s[k + 2..]
  {
    assert [s[0]] + s[1..][..k] == s[..k + 1] && s[1..][k + 1..] == s[k + 2..];
    ConcatAssociates([s[0]], s[1..][..k], s[1..][k + 1..]);
  }

  lemma RemoveNone(results: seq<Record>, session: SessionId)
    requires PositionOf(results, session).None?
    ensures Without(results, session) == results
  {
    WithoutLength(results, session);
    WithoutAbsent(results, session);
  }
}
