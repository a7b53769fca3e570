/** The circuit breaker around each event handler, with calls that overlap (circuit-breaker.service.ts). */
module CircuitBreaker {

  datatype CircuitState = CLOSED | OPEN | HALF_OPEN

  datatype Config = Config(failureThreshold: nat, recoveryTimeout: nat, halfOpenMaxCalls: nat)

  datatype Breaker = Breaker(
    state: CircuitState, failures: nat, successes: nat, totalCalls: nat, lastFailureTime: int, halfOpenCallCount: nat)

  datatype Admission = Admitted | RejectedOpen | RejectedHalfOpen

  const FRESH := Breaker(CLOSED, 0, 0, 0, 0, 0)

  // --- one call: admission before the handler, bookkeeping after it ---

  function Enter(b: Breaker, config: Config, now: int): Breaker {
    if b.state == OPEN && now - b.lastFailureTime > config.recoveryTimeout
    then b.(state := HALF_OPEN, halfOpenCallCount := 0) else b
  }

  function Admit(b: Breaker, config: Config, now: int): Admission {
    var entered := Enter(b, config, now);
    if entered.state == OPEN then RejectedOpen
    else if entered.state == HALF_OPEN && entered.halfOpenCallCount >= config.halfOpenMaxCalls then RejectedHalfOpen
    else Admitted
  }

  function Success(b: Breaker): Breaker {
    var counted := b.(successes := b.successes + 1, totalCalls := b.totalCalls + 1, halfOpenCallCount := 0);
    if b.state == HALF_OPEN then counted.(state := CLOSED, failures := 0) else counted
  }

  function Failure(b: Breaker, config: Config, now: int): Breaker {
    var counted := b.(
      failures := b.failures + 1, totalCalls := b.totalCalls + 1, lastFailureTime := now,
      halfOpenCallCount := b.halfOpenCallCount + if b.state == HALF_OPEN then 1 else 0);
    if counted.failures >= config.failureThreshold then counted.(state := OPEN) else counted
  }

  /** The state object of one circuit. */
  class CircuitBreakerState {
    const config: Config
    var state: CircuitState
    var failures: nat
    var successes: nat
    var totalCalls: nat
    var lastFailureTime: int
    var halfOpenCallCount: nat

    constructor (config: Config)
      ensures this.config == config && Value() == FRESH
    {
      this.config := config;
      state, failures, successes, totalCalls, lastFailureTime, halfOpenCallCount := CLOSED, 0, 0, 0, 0, 0;
    }

    function Value(): Breaker
      reads this
    {
      Breaker(state, failures, successes, totalCalls, lastFailureTime, halfOpenCallCount)
    }

    /** The part of `execute` before the handler is awaited. */
    method BeginCall(now: int) returns (admission: Admission)
      modifies this
      ensures Value() == Enter(old(Value()), config, now)
      ensures admission == Admit(old(Value()), config, now)
      ensures admission == RejectedOpen <==> old(state) == OPEN && now <= old(lastFailureTime) + config.recoveryTimeout
      ensures state == if old(state) == OPEN && admission != RejectedOpen then HALF_OPEN else old(state)
      ensures failures == old(failures) && successes == old(successes) && totalCalls == old(totalCalls)
      ensures lastFailureTime == old(lastFailureTime)
    {
      if state == OPEN {
        if now - lastFailureTime > config.recoveryTimeout {
          state := HALF_OPEN;
          halfOpenCallCount := 0;
        } else {
          return RejectedOpen;
        }
      }
      if state == HALF_OPEN && halfOpenCallCount >= config.halfOpenMaxCalls {
        return RejectedHalfOpen;
      }
      return Admitted;
    }

    method OnSuccess()
      modifies this
      ensures Value() == Success(old(Value()))
      ensures state == (if old(state) == OPEN then OPEN else CLOSED)
      ensures failures == (if old(state) == HALF_OPEN then 0 else old(failures)) && halfOpenCallCount == 0
      ensures successes == old(successes) + 1 && totalCalls == old(totalCalls) + 1 && lastFailureTime == old(lastFailureTime)
    {
      successes := successes + 1;
      totalCalls := totalCalls + 1;
      halfOpenCallCount := 0;
      if state == HALF_OPEN {
        state := CLOSED;
        failures := 0;
      }
    }

    method OnFailure(now: int)
      modifies this
      ensures Value() == Failure(old(Value()), config, now)
      ensures state == if old(failures) + 1 < config.failureThreshold then old(state) else OPEN
      ensures failures == old(failures) + 1 && lastFailureTime == now
      ensures successes == old(successes) && totalCalls == old(totalCalls) + 1
    {
      failures := failures + 1;
      totalCalls := totalCalls + 1;
      lastFailureTime := now;
      if state == HALF_OPEN {
        halfOpenCallCount := halfOpenCallCount + 1;
      }
      if failures >= config.failureThreshold {
        if state != OPEN {
          state := OPEN;
        }
      }
    }
  }

  // --- overlapping calls ---

  datatype System = System(now: int, breaker: Breaker, inFlight: nat)

  datatype Step = Tick(dt: nat) | BeginCall | FinishWell | FinishBadly

  predicate Enabled(s: System, step: Step) {
    step == FinishWell || step == FinishBadly ==> s.inFlight > 0
  }

  function Apply(s: System, step: Step, config: Config): System
    requires Enabled(s, step)
  {
    match step
    case Tick(dt) => s.(now := s.now + dt)
    case BeginCall =>
      s.(breaker := Enter(s.breaker, config, s.now),
         inFlight := s.inFlight + if Admit(s.breaker, config, s.now) == Admitted then 1 else 0)
    case FinishWell => s.(breaker := Success(s.breaker), inFlight := s.inFlight - 1)
    case FinishBadly => s.(breaker := Failure(s.breaker, config, s.now), inFlight := s.inFlight - 1)
  }

  ghost predicate Run(states: seq<System>, steps: seq<Step>, config: Config) {
    && |states| == |steps| + 1
    && forall i :: 0 <= i < |steps| ==> Enabled(states[i], steps[i]) && states[i + 1] == Apply(states[i], steps[i], config)
  }

  ghost predicate Reachable(s: System, config: Config) {
    exists states, steps :: LeadsTo(states, steps, config, s)
  }

  ghost predicate LeadsTo(states: seq<System>, steps: seq<Step>, config: Config, s: System) {
    && Run(states, steps, config) && states[|steps|] == s
    && states[0].now >= 0 && states[0].breaker == FRESH && states[0].inFlight == 0
  }

  predicate Coherent(s: System, config: Config) {
    && (s.breaker.state == CLOSED <==> s.breaker.failures < config.failureThreshold)
    && (s.breaker.state == HALF_OPEN ==> s.breaker.halfOpenCallCount == 0)
    && s.breaker.lastFailureTime <= s.now
  }

  lemma {:induction false} RunsAreCoherent(states: seq<System>, steps: seq<Step>, config: Config, k: nat)
    requires Run(states, steps, config) && Coherent(states[0], config) && k <= |steps| && config.failureThreshold > 0
    ensures Coherent(states[k], config) && states[k].breaker.lastFailureTime >= states[0].breaker.lastFailureTime
  {
    if k > 0 {
      RunsAreCoherent(states, steps, config, k - 1);
      assert states[k] == Apply(states[k - 1], steps[k - 1], config);
    }
  }

  /** With any configuration: a circuit that is not CLOSED has its failures, and HALF_OPEN has counted no call. */
  predicate Counted(s: System, config: Config) {
    && (s.breaker.state != CLOSED ==> s.breaker.failures >= config.failureThreshold)
    && (s.breaker.state == HALF_OPEN ==> s.breaker.halfOpenCallCount == 0)
  }

  lemma {:induction false} RunsAreCounted(states: seq<System>, steps: seq<Step>, config: Config, k: nat)
    requires Run(states, steps, config) && Counted(states[0], config) && k <= |steps|
    ensures Counted(states[k], config)
  {
    if k > 0 {
      RunsAreCounted(states, steps, config, k - 1);
      assert states[k] == Apply(states[k - 1], steps[k - 1], config);
    }
  }

  /** However calls overlap, the half-open limit rejects a call exactly when the circuit is half open for it and the
      configured limit is zero: the counter is 0 whenever it is compared. */
  lemma HalfOpenLimitFiresOnlyAtZero(s: System, config: Config)
    requires Reachable(s, config)
    ensures s.breaker.state == HALF_OPEN ==> s.breaker.halfOpenCallCount == 0
    ensures Admit(s.breaker, config, s.now) == RejectedHalfOpen <==>
            Enter(s.breaker, config, s.now).state == HALF_OPEN && config.halfOpenMaxCalls == 0
  {
    var states, steps :| LeadsTo(states, steps, config, s);
    RunsAreCounted(states, steps, config, |steps|);
  }

  /** A circuit with a positive threshold is CLOSED exactly while it has fewer failures, and a positive limit never
      rejects a call. */
  lemma HalfOpenLimitNeverFires(s: System, config: Config)
    requires Reachable(s, config) && config.failureThreshold > 0 && config.halfOpenMaxCalls > 0
    ensures s.breaker.state == CLOSED <==> s.breaker.failures < config.failureThreshold
    ensures s.breaker.state == HALF_OPEN ==> s.breaker.halfOpenCallCount == 0
    ensures Admit(s.breaker, config, s.now) != RejectedHalfOpen
    ensures s.breaker.state == HALF_OPEN ==> Apply(s, BeginCall, config) == s.(inFlight := s.inFlight + 1)
  {
    var states, steps :| LeadsTo(states, steps, config, s);
    RunsAreCoherent(states, steps, config, |steps|);
  }

  /** Every change of state, in all runs: a failure that reaches the threshold, or one in a half-open circuit, opens; the first
      call past the recovery timeout makes half open; and a success closes, from HALF_OPEN only and without failures. */
  lemma Transitions(s: System, step: Step, config: Config)
    requires Reachable(s, config) && Enabled(s, step)
    ensures var b, t := s.breaker, Apply(s, step, config).breaker;
            && (b.state != CLOSED ==> (t.state == CLOSED <==> step == FinishWell && b.state == HALF_OPEN))
            && (b.state != CLOSED && t.state == CLOSED ==> t.failures == 0)
            && (b.state != OPEN ==>
                  (t.state == OPEN <==>
                   step == FinishBadly && (b.state == HALF_OPEN || b.failures + 1 >= config.failureThreshold)))
            && (b.state != HALF_OPEN ==>
                  (t.state == HALF_OPEN <==>
                   step == BeginCall && b.state == OPEN && s.now > b.lastFailureTime + config.recoveryTimeout))
            && (step == FinishWell && b.state != HALF_OPEN ==> t.state == b.state && t.failures == b.failures)
  {
    var states, steps :| LeadsTo(states, steps, config, s);
    RunsAreCounted(states, steps, config, |steps|);
  }

  /** What each step does to the counters, and which calls get in flight. */
  lemma Counters(s: System, step: Step, config: Config)
    requires Reachable(s, config) && Enabled(s, step)
    ensures var b, next := s.breaker, Apply(s, step, config);
            var t := next.breaker;
            && t.successes == b.successes + (if step == FinishWell then 1 else 0)
            && t.totalCalls == b.totalCalls + (if step == FinishWell || step == FinishBadly then 1 else 0)
            && (step == FinishBadly ==> t.failures == b.failures + 1 && t.lastFailureTime == s.now)
            && (step != FinishBadly ==> t.lastFailureTime == b.lastFailureTime)
            && (step.BeginCall? || step.Tick? ==> t.failures == b.failures)
            && next.now == (if step.Tick? then s.now + step.dt else s.now)
            && (step == BeginCall ==>
                  next.inFlight == s.inFlight +
                  if t.state == CLOSED || (t.state == HALF_OPEN && config.halfOpenMaxCalls > 0) then 1 else 0)
            && (step == FinishWell || step == FinishBadly ==> next.inFlight == s.inFlight - 1)
  {
    HalfOpenLimitFiresOnlyAtZero(s, config);
  }

  lemma ReachStep(s: System, step: Step, config: Config)
    requires Reachable(s, config) && Enabled(s, step)
    ensures Reachable(Apply(s, step, config), config)
  {
    hide Apply, Enabled;
    var states, steps :| LeadsTo(states, steps, config, s);
    assert LeadsTo(states + [Apply(s, step, config)], steps + [step], config, Apply(s, step, config));
  }

  /** Hence any number of calls gets through a half-open circuit at once. */
  lemma {:induction false} HalfOpenAdmitsAll(s: System, config: Config, n: nat) returns (t: System)
    requires Reachable(s, config) && config.halfOpenMaxCalls > 0 && s.breaker.state == HALF_OPEN
    ensures Reachable(t, config) && t == s.(inFlight := s.inFlight + n)
  {
    if n == 0 {
      return s;
    }
    var before := HalfOpenAdmitsAll(s, config, n - 1);
    HalfOpenLimitFiresOnlyAtZero(before, config);
    t := Apply(before, BeginCall, config);
    ReachStep(before, BeginCall, config);
  }

  // --- half-open circuits occur ---

  /** One failing call after another. */
  lemma {:induction false} FailingCalls(config: Config, n: nat) returns (s: System)
    requires n <= config.failureThreshold
    ensures Reachable(s, config) && s.breaker.failures == n && s.now == 0 && s.inFlight == 0
    ensures s.breaker.state == (if 0 < n == config.failureThreshold then OPEN else CLOSED)
    ensures s.breaker.lastFailureTime == 0
  {
    if n == 0 {
      s := System(0, FRESH, 0);
      var none: seq<Step> := [];
      assert LeadsTo([s], none, config, s);
    } else {
      var before := FailingCalls(config, n - 1);
      var begun := Apply(before, BeginCall, config);
      ReachStep(before, BeginCall, config);
      s := Apply(begun, FinishBadly, config);
      ReachStep(begun, FinishBadly, config);
    }
  }

  /** With a positive threshold every circuit can become half open: after enough failures, the first call past the
      recovery timeout makes it so, and is admitted exactly when the limit is positive. */
  lemma HalfOpenOccurs(config: Config) returns (s: System)
    requires config.failureThreshold > 0
    ensures Reachable(s, config) && s.breaker.state == HALF_OPEN
    ensures s.breaker.failures == config.failureThreshold
    ensures s.inFlight == if config.halfOpenMaxCalls > 0 then 1 else 0
  {
    var open := FailingCalls(config, config.failureThreshold);
    var recovered := Apply(open, Tick(config.recoveryTimeout + 1), config);
    ReachStep(open, Tick(config.recoveryTimeout + 1), config);
    s := Apply(recovered, BeginCall, config);
    ReachStep(recovered, BeginCall, config);
  }

  /** If that call succeeds the circuit is closed again and has its whole threshold before it; if it fails the circuit is
      open again at once. */
  lemma HalfOpenDecides(config: Config) returns (half: System, closed: System, reopened: System)
    requires config.failureThreshold > 0 && config.halfOpenMaxCalls > 0
    ensures Reachable(half, config) && half.breaker.state == HALF_OPEN && half.inFlight == 1
    ensures closed == Apply(half, FinishWell, config) && Reachable(closed, config)
    ensures closed.breaker.state == CLOSED && closed.breaker.failures == 0 && closed.inFlight == 0
    ensures reopened == Apply(half, FinishBadly, config) && Reachable(reopened, config)
    ensures reopened.breaker.state == OPEN && reopened.breaker.failures == config.failureThreshold + 1
  {
    half := HalfOpenOccurs(config);
    closed := Apply(half, FinishWell, config);
    reopened := Apply(half, FinishBadly, config);
    ReachStep(half, FinishWell, config);
    ReachStep(half, FinishBadly, config);
  }

  /** Once open, the circuit rejects every call that comes no later than the recovery timeout after the
      latest failure, counting failures of calls that were still in flight, and stays open meanwhile. */
  lemma {:induction false} OpenUntilRecovery(states: seq<System>, steps: seq<Step>, config: Config, k: nat)
    requires Run(states, steps, config) && states[0].breaker.state == OPEN && k <= |steps|
    requires states[0].breaker.failures >= config.failureThreshold
    requires forall i :: 0 <= i < k && steps[i] == BeginCall ==>
               states[i].now <= states[i].breaker.lastFailureTime + config.recoveryTimeout
    ensures states[k].breaker.state == OPEN && states[k].breaker.failures >= config.failureThreshold
    ensures forall i :: 0 <= i < k && steps[i] == BeginCall ==>
              Admit(states[i].breaker, config, states[i].now) == RejectedOpen
  {
    if k > 0 {
      OpenUntilRecovery(states, steps, config, k - 1);
      assert states[k] == Apply(states[k - 1], steps[k - 1], config);
    }
  }
}
