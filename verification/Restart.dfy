/** Health checks with a circuit breaker, and the loop that restarts failing services.  The clock
    and the outcomes of checks and restarts come in from outside. */
module Restart {
  import opened Common

  type Service = string

  datatype CircuitState = Closed | Open | HalfOpen

  datatype Config = Config(threshold: int, resetTimeout: real, maxRestarts: int)

  /** A breaker's fields, and all that is kept for one service. */
  datatype Breaker = Breaker(state: CircuitState, failureCount: nat, lastFailure: real)
  datatype View = View(breaker: Breaker, failures: nat, restarts: nat)

  /** One round of the loop as one service sees it: how its check went and when, when the loop asks
      whether to restart it, and whether a restart would succeed. */
  datatype Tick = Tick(healthy: bool, checkedAt: real, askedAt: real, restartSucceeds: bool)

  const FRESH := View(Breaker(Closed, 0, 0.0), 0, 0)

  // ---------------------------------------------------------------- steps

  function Failure(threshold: int, b: Breaker, now: real): Breaker {
    Breaker(if b.failureCount + 1 >= threshold then Open else b.state, b.failureCount + 1, now)
  }

  function Success(b: Breaker): Breaker { Breaker(Closed, 0, b.lastFailure) }

  predicate Allows(resetTimeout: real, b: Breaker, now: real) {
    b.state != Open || now - b.lastFailure >= resetTimeout
  }

  function Asked(resetTimeout: real, b: Breaker, now: real): Breaker {
    if b.state == Open && now - b.lastFailure >= resetTimeout then b.(state := HalfOpen) else b
  }

  function Checked(c: Config, v: View, healthy: bool, now: real): View {
    if healthy then v.(breaker := Success(v.breaker), failures := 0)
    else v.(breaker := Failure(c.threshold, v.breaker, now), failures := v.failures + 1)
  }

  predicate Needs(c: Config, v: View, now: real) {
    v.failures >= c.maxRestarts && Allows(c.resetTimeout, v.breaker, now)
  }

  function AfterAsking(c: Config, v: View, now: real): View {
    if v.failures < c.maxRestarts then v else v.(breaker := Asked(c.resetTimeout, v.breaker, now))
  }

  function Acted(c: Config, v: View, now: real, restartSucceeds: bool): View {
    var asked := AfterAsking(c, v, now);
    if Needs(c, v, now) && restartSucceeds then asked.(failures := 0, restarts := v.restarts + 1) else asked
  }

  function Ticked(c: Config, v: View, t: Tick): View {
    var checked := Checked(c, v, t.healthy, t.checkedAt);
    if t.healthy then checked else Acted(c, checked, t.askedAt, t.restartSucceeds)
  }

  function Run(c: Config, v: View, ticks: seq<Tick>): View {
    if ticks == [] then v else Ticked(c, Run(c, v, ticks[..|ticks| - 1]), ticks[|ticks| - 1])
  }

  /** One round in plain terms. */
  lemma RoundIs(c: Config, v: View, t: Tick)
    ensures t.healthy ==> Ticked(c, v, t) == View(Breaker(Closed, 0, v.breaker.lastFailure), 0, v.restarts)
    ensures !t.healthy ==>
              var w := Ticked(c, v, t);
              var open := v.breaker.state == Open || v.breaker.failureCount + 1 >= c.threshold;
              var up, late := v.failures + 1 >= c.maxRestarts, t.askedAt - t.checkedAt >= c.resetTimeout;
              var restarted := up && (!open || late) && t.restartSucceeds;
              && w.restarts == v.restarts + (if restarted then 1 else 0)
              && w.failures == (if restarted then 0 else v.failures + 1)
              && w.breaker == Breaker(if open then if up && late then HalfOpen else Open else v.breaker.state,
                                      v.breaker.failureCount + 1, t.checkedAt)
  {
  }

  // ---------------------------------------------------------------- every run

  ghost predicate Sound(c: Config, v: View) {
    v.failures <= v.breaker.failureCount && (v.breaker.state == Closed <==> v.breaker.failureCount < Max(c.threshold, 1))
  }

  /** Consecutive failures never exceed the breaker's count, and the breaker is closed exactly below
      its threshold. */
  lemma {:induction false} RunKeepsSound(c: Config, v: View, ticks: seq<Tick>)
    requires Sound(c, v)
    ensures Sound(c, Run(c, v, ticks))
  {
    if ticks != [] {
      RunKeepsSound(c, v, ticks[..|ticks| - 1]);
    }
  }

  /** The open timer runs from the last failing check, whatever the loop did about it. */
  lemma {:induction false} TimerRunsFromLastFailure(c: Config, v: View, ticks: seq<Tick>, i: nat)
    requires i < |ticks| && !ticks[i].healthy && forall j | i < j < |ticks| :: ticks[j].healthy
    ensures Run(c, v, ticks).breaker.lastFailure == ticks[i].checkedAt
  {
    if i < |ticks| - 1 {
      TimerRunsFromLastFailure(c, v, ticks[..|ticks| - 1], i);
    }
  }

  // ---------------------------------------------------------------- failing streaks

  ghost predicate FailingInTime(c: Config, t: Tick) { !t.healthy && t.askedAt - t.checkedAt < c.resetTimeout }

  ghost predicate Failing(c: Config, t: Tick) { FailingInTime(c, t) && t.restartSucceeds }

  /** How many of `n` failures come before the breaker opens. */
  function ClosedFailures(c: Config, n: nat): nat { Min(n, Max(c.threshold, 1) - 1) }

  /** A service as it is at the start and after every healthy check. */
  ghost predicate Recovered(v: View) { v.failures == 0 && v.breaker.failureCount == 0 && v.breaker.state == Closed }

  lemma HealthyCheckRecovers(c: Config, v: View, t: Tick)
    requires t.healthy
    ensures Recovered(Ticked(c, v, t)) && Ticked(c, v, t).restarts == v.restarts
  {
  }

  /** After `n` failures in a row: the failures with the breaker closed are shared out between
      restarts, the rest are still on the counter. */
  ghost predicate AfterStreak(c: Config, v: View, n: nat, w: View) {
    && w.breaker.failureCount == n
    && w.breaker.state == (if n < Max(c.threshold, 1) then Closed else Open)
    && w.restarts >= v.restarts
    && n == (w.restarts - v.restarts) * Max(c.maxRestarts, 1) + w.failures
    && w.failures - (n - ClosedFailures(c, n)) < Max(c.maxRestarts, 1)
    && w.failures >= n - ClosedFailures(c, n)
  }

  lemma FailingTick(c: Config, v: View, n: nat, w: View, t: Tick)
    requires AfterStreak(c, v, n, w) && Failing(c, t)
    ensures AfterStreak(c, v, n + 1, Ticked(c, w, t))
  {
    OneMore(w.restarts - v.restarts, Max(c.maxRestarts, 1));
  }

  lemma {:induction false} StreakRuns(c: Config, v: View, ticks: seq<Tick>)
    requires Recovered(v) && forall i | 0 <= i < |ticks| :: Failing(c, ticks[i])
    ensures AfterStreak(c, v, |ticks|, Run(c, v, ticks))
  {
    if ticks == [] {
      assert (v.restarts - v.restarts) * Max(c.maxRestarts, 1) == 0;
    } else {
      var n := |ticks| - 1;
      StreakRuns(c, v, ticks[..n]);
      FailingTick(c, v, n, Run(c, v, ticks[..n]), ticks[n]);
    }
  }

  /** A service that fails every check from a fresh start, is restarted without fail, and is always
      asked about within the reset timeout of its check, is restarted once per `maxRestarts`
      failures until the breaker opens, and never again however long the streak. */
  lemma StreakRestarts(c: Config, v: View, ticks: seq<Tick>)
    requires Recovered(v) && forall i | 0 <= i < |ticks| :: Failing(c, ticks[i])
    ensures Run(c, v, ticks).restarts == v.restarts + ClosedFailures(c, |ticks|) / Max(c.maxRestarts, 1)
  {
    StreakRuns(c, v, ticks);
    var w, n, closed, m := Run(c, v, ticks), |ticks|, ClosedFailures(c, |ticks|), Max(c.maxRestarts, 1);
    DivisionIs(closed, m, w.restarts - v.restarts, w.failures - (n - closed));
  }

  /** After `n` failures in a row, restarts having succeeded or failed: those that succeeded have
      used up `maxRestarts` failures each, all from before the breaker opened. */
  ghost predicate WithinStreak(c: Config, v: View, n: nat, w: View) {
    && w.breaker.failureCount == n
    && w.breaker.state == (if n < Max(c.threshold, 1) then Closed else Open)
    && w.restarts >= v.restarts
    && (w.restarts - v.restarts) * Max(c.maxRestarts, 1) + (if n < Max(c.threshold, 1) then w.failures else 0)
       <= ClosedFailures(c, n)
  }

  lemma FailingTickStaysWithin(c: Config, v: View, n: nat, w: View, t: Tick)
    requires WithinStreak(c, v, n, w) && FailingInTime(c, t)
    ensures WithinStreak(c, v, n + 1, Ticked(c, w, t))
  {
    OneMore(w.restarts - v.restarts, Max(c.maxRestarts, 1));
  }

  lemma {:induction false} StreakStaysWithin(c: Config, v: View, ticks: seq<Tick>)
    requires Recovered(v) && forall i | 0 <= i < |ticks| :: FailingInTime(c, ticks[i])
    ensures WithinStreak(c, v, |ticks|, Run(c, v, ticks))
  {
    if ticks == [] {
      assert (v.restarts - v.restarts) * Max(c.maxRestarts, 1) == 0;
    } else {
      var n := |ticks| - 1;
      StreakStaysWithin(c, v, ticks[..n]);
      FailingTickStaysWithin(c, v, n, Run(c, v, ticks[..n]), ticks[n]);
    }
  }

  /** The bound does not depend on how restarts go: a failing streak asked about in time succeeds in
      at most (threshold - 1) div maxRestarts of them, and the breaker never goes half open. */
  lemma StreakRestartsAtMost(c: Config, v: View, ticks: seq<Tick>)
    requires Recovered(v) && forall i | 0 <= i < |ticks| :: FailingInTime(c, ticks[i])
    ensures Run(c, v, ticks).restarts - v.restarts <= (Max(c.threshold, 1) - 1) / Max(c.maxRestarts, 1)
    ensures Run(c, v, ticks).breaker.state == (if |ticks| < Max(c.threshold, 1) then Closed else Open)
  {
    StreakStaysWithin(c, v, ticks);
    DivisionIsAtLeast(Run(c, v, ticks).restarts - v.restarts, Max(c.maxRestarts, 1), Max(c.threshold, 1) - 1);
  }

  /** Being asked in time is what it takes: once the breaker is open and the counter is up, the next
      failing round restarts exactly when its question comes a reset timeout after its check. */
  lemma RestartsWhenAskedLate(c: Config, v: View, ticks: seq<Tick>, t: Tick)
    requires Recovered(v) && forall i | 0 <= i < |ticks| :: Failing(c, ticks[i])
    requires |ticks| >= Max(c.threshold, 1) - 2 + Max(c.maxRestarts, 1) && !t.healthy && t.restartSucceeds
    ensures Run(c, v, ticks + [t]).restarts > Run(c, v, ticks).restarts <==> t.askedAt - t.checkedAt >= c.resetTimeout
  {
    StreakRuns(c, v, ticks);
    assert (ticks + [t])[..|ticks|] == ticks;
  }

  // ---------------------------------------------------------------- the objects

  class CircuitBreaker {
    const threshold: int
    const resetTimeout: real
    var state: CircuitState
    var failureCount: nat
    var lastFailureTime: real

    ghost function Value(): Breaker reads this { Breaker(state, failureCount, lastFailureTime) }

    constructor (threshold: int, resetTimeout: real)
      ensures Value() == FRESH.breaker && this.threshold == threshold && this.resetTimeout == resetTimeout
    {
      this.threshold, this.resetTimeout := threshold, resetTimeout;
      state, failureCount, lastFailureTime := Closed, 0, 0.0;
    }

    method RecordFailure(now: real)
      modifies this
      ensures Value() == Failure(threshold, old(Value()), now)
      ensures failureCount == old(failureCount) + 1 && lastFailureTime == now
      ensures state == if failureCount >= threshold then Open else old(state)
    {
      failureCount := failureCount + 1;
      lastFailureTime := now;
      if failureCount >= threshold {
        state := Open;
      }
    }

    method RecordSuccess()
      modifies this
      ensures Value() == Success(old(Value()))
      ensures state == Closed && failureCount == 0 && lastFailureTime == old(lastFailureTime)
    {
      failureCount := 0;
      state := Closed;
    }

    method AllowRestart(now: real) returns (allowed: bool)
      modifies this
      ensures allowed == Allows(resetTimeout, old(Value()), now) && Value() == Asked(resetTimeout, old(Value()), now)
      ensures !allowed <==> old(state) == Open && now - old(lastFailureTime) < resetTimeout
      ensures state == if old(state) == Open && allowed then HalfOpen else old(state)
      ensures failureCount == old(failureCount) && lastFailureTime == old(lastFailureTime)
    {
      if state == Closed {
        return true;
      }
      if state == Open {
        var elapsed := now - lastFailureTime;
        if elapsed >= resetTimeout {
          state := HalfOpen;
          return true;
        }
        return false;
      }
      return true;
    }
  }

  class HealthChecker {
    const config: Config
    const breakers: map<Service, CircuitBreaker>
    var consecutiveFailures: map<Service, nat>

    ghost predicate Valid() reads this {
      && breakers.Keys == consecutiveFailures.Keys
      && (forall s | s in breakers :: breakers[s].threshold == config.threshold && breakers[s].resetTimeout == config.resetTimeout)
      && (forall s, t | s in breakers && t in breakers && s != t :: breakers[s] != breakers[t])
    }

    constructor (config: Config, services: seq<Service>)
      ensures Valid() && this.config == config && breakers.Keys == set s | s in services
      ensures forall s | s in breakers :: fresh(breakers[s]) && breakers[s].Value() == FRESH.breaker && consecutiveFailures[s] == 0
    {
      var made: map<Service, CircuitBreaker> := map[];
      var counters: map<Service, nat> := map[];
      for i := 0 to |services|
        invariant made.Keys == counters.Keys == set s | s in services[..i]
        invariant forall s | s in made :: fresh(made[s]) && made[s].Value() == FRESH.breaker && counters[s] == 0
        invariant forall s | s in made :: made[s].threshold == config.threshold && made[s].resetTimeout == config.resetTimeout
        invariant forall s, t | s in made && t in made && s != t :: made[s] != made[t]
      {
        var breaker := new CircuitBreaker(config.threshold, config.resetTimeout);
        made := made[services[i] := breaker];
        counters := counters[services[i] := 0];
        assert services[..i + 1] == services[..i] + [services[i]];
      }
      assert services[..|services|] == services;
      this.config, breakers, consecutiveFailures := config, made, counters;
    }

    method CheckService(s: Service, healthy: bool, now: real)
      requires Valid() && s in breakers
      modifies this`consecutiveFailures, breakers[s]
      ensures Valid()
      ensures breakers[s].Value() == if healthy then Success(old(breakers[s].Value()))
                                     else Failure(config.threshold, old(breakers[s].Value()), now)
      ensures consecutiveFailures == old(consecutiveFailures)[s := if healthy then 0 else old(consecutiveFailures)[s] + 1]
      ensures breakers[s].failureCount == if healthy then 0 else old(breakers[s].failureCount) + 1
      ensures healthy ==> breakers[s].state == Closed
      ensures !healthy ==> breakers[s].lastFailureTime == now && (breakers[s].failureCount >= config.threshold ==> breakers[s].state == Open)
    {
      if healthy {
        consecutiveFailures := consecutiveFailures[s := 0];
        breakers[s].RecordSuccess();
      } else {
        consecutiveFailures := consecutiveFailures[s := consecutiveFailures[s] + 1];
        breakers[s].RecordFailure(now);
      }
    }

    /** An unknown service has no failures and no breaker. */
    method NeedsRestart(s: Service, now: real) returns (needed: bool)
      requires Valid()
      modifies if s in breakers then {breakers[s]} else {}
      ensures s !in breakers ==> needed == (0 >= config.maxRestarts)
      ensures s in breakers ==>
                (needed <==> consecutiveFailures[s] >= config.maxRestarts
                             && !(old(breakers[s].state) == Open && now - old(breakers[s].lastFailureTime) < config.resetTimeout))
      ensures s in breakers ==>
                if consecutiveFailures[s] < config.maxRestarts then !needed && breakers[s].Value() == old(breakers[s].Value())
                else needed == Allows(config.resetTimeout, old(breakers[s].Value()), now)
                     && breakers[s].Value() == Asked(config.resetTimeout, old(breakers[s].Value()), now)
    {
      var failures := if s in consecutiveFailures then consecutiveFailures[s] else 0;
      if failures < config.maxRestarts {
        return false;
      }
      if s in breakers {
        var allowed := breakers[s].AllowRestart(now);
        if !allowed {
          return false;
        }
      }
      return true;
    }

    method ResetFailures(s: Service)
      requires Valid() && s in breakers
      modifies this`consecutiveFailures
      ensures Valid() && consecutiveFailures == old(consecutiveFailures)[s := 0]
    {
      consecutiveFailures := consecutiveFailures[s := 0];
    }
  }

  type Round = Service -> Tick

  function TicksOf(rounds: seq<Round>, s: Service): seq<Tick> {
    if rounds == [] then [] else TicksOf(rounds[..|rounds| - 1], s) + [rounds[|rounds| - 1](s)]
  }

  lemma RunSnoc(c: Config, v: View, rounds: seq<Round>, round: Round, s: Service)
    ensures Run(c, v, TicksOf(rounds + [round], s)) == Ticked(c, Run(c, v, TicksOf(rounds, s)), round(s))
  {
    assert (rounds + [round])[..|rounds|] == rounds;
    var ticks := TicksOf(rounds, s);
    assert (ticks + [round(s)])[..|ticks|] == ticks;
  }

  function CheckedIn(c: Config, v: View, t: Tick): View { Checked(c, v, t.healthy, t.checkedAt) }

  function ActedIn(c: Config, v: View, t: Tick): View {
    if t.healthy then v else Acted(c, v, t.askedAt, t.restartSucceeds)
  }

  // Each service as it is after a pass over the first n of them, a round, and a run.

  ghost predicate AllChecked(c: Config, services: seq<Service>, round: Round, before: seq<View>, now: seq<View>, n: nat)
    requires |before| == |now| == |services|
  {
    forall i | 0 <= i < |now| :: now[i] == if i < n then CheckedIn(c, before[i], round(services[i])) else before[i]
  }

  ghost predicate AllActed(c: Config, services: seq<Service>, round: Round, before: seq<View>, now: seq<View>, n: nat)
    requires |before| == |now| == |services|
  {
    forall i | 0 <= i < |now| :: now[i] == if i < n then ActedIn(c, before[i], round(services[i])) else before[i]
  }

  ghost predicate AllTicked(c: Config, services: seq<Service>, round: Round, before: seq<View>, now: seq<View>)
    requires |before| == |now| == |services|
  {
    forall i | 0 <= i < |now| :: now[i] == Ticked(c, before[i], round(services[i]))
  }

  ghost predicate AllRun(c: Config, services: seq<Service>, rounds: seq<Round>, before: seq<View>, now: seq<View>)
    requires |before| == |now| == |services|
  {
    forall i | 0 <= i < |now| :: now[i] == Run(c, before[i], TicksOf(rounds, services[i]))
  }

  lemma CheckedThenActed(c: Config, services: seq<Service>, round: Round, v: seq<View>, w: seq<View>, x: seq<View>)
    requires |v| == |w| == |x| == |services|
    requires AllChecked(c, services, round, v, w, |services|) && AllActed(c, services, round, w, x, |services|)
    ensures AllTicked(c, services, round, v, x)
  {
  }

  lemma OneRoundMore(c: Config, services: seq<Service>, rounds: seq<Round>, round: Round,
                     u: seq<View>, v: seq<View>, w: seq<View>)
    requires |u| == |v| == |w| == |services|
    requires AllRun(c, services, rounds, u, v) && AllTicked(c, services, round, v, w)
    ensures AllRun(c, services, rounds + [round], u, w)
  {
    forall i | 0 <= i < |w| ensures w[i] == Run(c, u[i], TicksOf(rounds + [round], services[i])) {
      RunSnoc(c, u[i], rounds, round, services[i]);
    }
  }

  class Controller {
    const services: seq<Service>
    const checker: HealthChecker
    var restartCounts: map<Service, nat>

    ghost predicate Valid() reads this, checker {
      && checker.Valid()
      && (forall s :: s in services <==> s in checker.breakers)
      && (forall s | s in services :: s in restartCounts)
      && (forall i, j | 0 <= i < j < |services| :: services[i] != services[j])
    }

    ghost function State(s: Service): View
      requires Valid() && s in services
      reads this, checker, checker.breakers.Values
    {
      View(checker.breakers[s].Value(), checker.consecutiveFailures[s], restartCounts[s])
    }

    /** What is kept for each service, in the order of the services. */
    ghost function Views(): (views: seq<View>)
      requires Valid()
      reads this, checker, checker.breakers.Values
      ensures |views| == |services| && forall i | 0 <= i < |views| :: views[i] == State(services[i])
    {
      seq(|services|, i requires 0 <= i < |services| && Valid()
                        reads this, checker, checker.breakers.Values => State(services[i]))
    }

    constructor (config: Config, services: seq<Service>)
      requires forall i, j | 0 <= i < j < |services| :: services[i] != services[j]
      ensures Valid() && this.services == services && checker.config == config
      ensures forall i | 0 <= i < |services| :: Views()[i] == FRESH
    {
      this.services := services;
      checker := new HealthChecker(config, services);
      var counts: map<Service, nat> := map[];
      for i := 0 to |services|
        invariant forall j | 0 <= j < i :: services[j] in counts
        invariant forall s | s in counts :: counts[s] == 0
      {
        counts := counts[services[i] := 0];
      }
      restartCounts := counts;
    }

    method Check(i: nat, t: Tick)
      requires Valid() && i < |services|
      modifies checker, checker.breakers.Values
      ensures Valid() && Views() == old(Views())[i := CheckedIn(checker.config, old(Views())[i], t)]
    {
      checker.CheckService(services[i], t.healthy, t.checkedAt);
    }

    method RestartService(s: Service, composeSucceeds: bool) returns (ok: bool)
      requires Valid()
      modifies this`restartCounts, checker`consecutiveFailures
      ensures Valid() && ok == (s in services && composeSucceeds)
      ensures ok ==> State(s) == old(State(s)).(failures := 0, restarts := old(State(s)).restarts + 1)
      ensures forall t | t in services && !(ok && t == s) :: State(t) == old(State(t))
    {
      if s !in services || !composeSucceeds {
        return false;
      }
      restartCounts := restartCounts[s := restartCounts[s] + 1];
      checker.ResetFailures(s);
      return true;
    }

    method Act(i: nat, t: Tick)
      requires Valid() && i < |services|
      modifies this`restartCounts, checker, checker.breakers.Values
      ensures Valid() && Views() == old(Views())[i := ActedIn(checker.config, old(Views())[i], t)]
    {
      if !t.healthy {
        var needed := Ask(i, t.askedAt);
        if needed {
          var _ := RestartService(services[i], t.restartSucceeds);
        }
      }
    }

    method Ask(i: nat, now: real) returns (needed: bool)
      requires Valid() && i < |services|
      modifies checker.breakers.Values
      ensures Valid() && needed == Needs(checker.config, old(Views())[i], now)
      ensures Views() == old(Views())[i := AfterAsking(checker.config, old(Views())[i], now)]
    {
      needed := checker.NeedsRestart(services[i], now);
    }

    method CheckAll(round: Round)
      requires Valid()
      modifies checker, checker.breakers.Values
      ensures Valid() && AllChecked(checker.config, services, round, old(Views()), Views(), |services|)
    {
      ghost var before := Views();
      for i := 0 to |services|
        invariant Valid() && AllChecked(checker.config, services, round, before, Views(), i)
      {
        Check(i, round(services[i]));
      }
    }

    /** One pass of the loop: all services are checked first, then the failing ones are acted on. */
    method HealthRound(round: Round)
      requires Valid()
      modifies this`restartCounts, checker, checker.breakers.Values
      ensures Valid() && AllTicked(checker.config, services, round, old(Views()), Views())
    {
      ghost var before := Views();
      CheckAll(round);
      ghost var checked := Views();
      for i := 0 to |services|
        invariant Valid() && AllActed(checker.config, services, round, checked, Views(), i)
      {
        Act(i, round(services[i]));
      }
      CheckedThenActed(checker.config, services, round, before, checked, Views());
    }

    /** The loop until shutdown: each service goes through a run of its own. */
    method HealthLoop(rounds: seq<Round>)
      requires Valid()
      modifies this`restartCounts, checker, checker.breakers.Values
      ensures Valid() && AllRun(checker.config, services, rounds, old(Views()), Views())
    {
      ghost var before := Views();
      for r := 0 to |rounds|
        invariant Valid() && AllRun(checker.config, services, rounds[..r], before, Views())
      {
        ghost var v := Views();
        HealthRound(rounds[r]);
        OneRoundMore(checker.config, services, rounds[..r], rounds[r], before, v, Views());
        assert rounds[..r + 1] == rounds[..r] + [rounds[r]];
      }
      assert rounds[..|rounds|] == rounds;
    }
  }
}
