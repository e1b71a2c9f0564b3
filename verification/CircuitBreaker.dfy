/**
 The circuit breaker: its critical sections as functions on a breaker value, and the class whose
 methods are those sections. The clock reading of each section is a parameter.
 */
module CircuitBreaker {
  import opened Sequences

  datatype CircuitState = Closed | Open | HalfOpen

  datatype Config = Config(failureThreshold: int, recoveryTimeout: real, halfOpenMaxCalls: int, successThreshold: int) {
    /** The checks of the configuration's constructor. */
    predicate Valid() {
      && failureThreshold >= 1 && recoveryTimeout > 0.0 && halfOpenMaxCalls >= 1
      && 1 <= successThreshold <= halfOpenMaxCalls
    }
  }

  datatype Breaker = Breaker(
    state: CircuitState, failureCount: nat, successCount: nat, halfOpenCalls: nat, openedAt: Option<real>,
    totalCalls: nat, totalSuccesses: nat, totalFailures: nat, totalRejected: nat)

  const INITIAL := Breaker(Closed, 0, 0, 0, None, 0, 0, 0, 0)

  function TransitionTo(b: Breaker, to: CircuitState, now: real): Breaker {
    match to
    case Open => b.(state := Open, openedAt := Some(now), failureCount := 0, successCount := 0, halfOpenCalls := 0)
    case HalfOpen => b.(state := HalfOpen, successCount := 0, halfOpenCalls := 0)
    case Closed => b.(state := Closed, openedAt := None, failureCount := 0, successCount := 0, halfOpenCalls := 0)
  }

  predicate RecoveryDue(cfg: Config, b: Breaker, now: real) {
    b.state == Open && b.openedAt.Some? && now - b.openedAt.value >= cfg.recoveryTimeout
  }

  /** Reading the state: an open circuit whose timeout has elapsed becomes half-open. */
  function Refresh(cfg: Config, b: Breaker, now: real): Breaker {
    if RecoveryDue(cfg, b, now) then TransitionTo(b, HalfOpen, now) else b
  }

  /** The admission section at the start of a call. */
  function Admit(cfg: Config, b: Breaker, now: real): (Breaker, bool) {
    Decide(cfg, Refresh(cfg, b, now))
  }

  /** The decision on a refreshed breaker, and how it is counted. */
  function Decide(cfg: Config, r: Breaker): (Breaker, bool) {
    if r.state == Open || (r.state == HalfOpen && r.halfOpenCalls >= cfg.halfOpenMaxCalls) then
      (r.(totalRejected := r.totalRejected + 1), false)
    else if r.state == HalfOpen then
      (r.(halfOpenCalls := r.halfOpenCalls + 1, totalCalls := r.totalCalls + 1), true)
    else
      (r.(totalCalls := r.totalCalls + 1), true)
  }

  function RecordSuccess(cfg: Config, b: Breaker, now: real): Breaker {
    var r := b.(totalSuccesses := b.totalSuccesses + 1);
    match r.state
    case Closed => r.(failureCount := 0)
    case HalfOpen =>
      var s := r.(successCount := r.successCount + 1);
      if s.successCount >= cfg.successThreshold then TransitionTo(s, Closed, now) else s
    case Open => r
  }

  function RecordFailure(cfg: Config, b: Breaker, now: real): Breaker {
    var r := b.(totalFailures := b.totalFailures + 1);
    match r.state
    case Closed =>
      var s := r.(failureCount := r.failureCount + 1);
      if s.failureCount >= cfg.failureThreshold then TransitionTo(s, Open, now) else s
    case HalfOpen => TransitionTo(r, Open, now)
    case Open => r
  }

  function Reset(b: Breaker, now: real): Breaker {
    TransitionTo(b, Closed, now).(failureCount := 0)
  }

  class CircuitBreaker {
    const config: Config
    var state: CircuitState
    var failureCount: nat
    var successCount: nat
    var halfOpenCalls: nat
    var openedAt: Option<real>
    var totalCalls: nat
    var totalSuccesses: nat
    var totalFailures: nat
    var totalRejected: nat

    function View(): Breaker
      reads this
    {
      Breaker(state, failureCount, successCount, halfOpenCalls, openedAt,
              totalCalls, totalSuccesses, totalFailures, totalRejected)
    }

    constructor (config: Config)
      requires config.Valid()
      ensures this.config == config && View() == INITIAL
    {
      this.config := config;
      state, failureCount, successCount, halfOpenCalls, openedAt := Closed, 0, 0, 0, None;
      totalCalls, totalSuccesses, totalFailures, totalRejected := 0, 0, 0, 0;
    }

    method Transition(to: CircuitState, now: real)
      modifies this
      ensures View() == TransitionTo(old(View()), to, now)
    {
      state := to;
      if to == Open {
        openedAt := Some(now);
        failureCount, successCount, halfOpenCalls := 0, 0, 0;
      } else if to == HalfOpen {
        successCount, halfOpenCalls := 0, 0;
      } else {
        openedAt := None;
        failureCount, successCount, halfOpenCalls := 0, 0, 0;
      }
    }

    method MaybeTransitionToHalfOpen(now: real)
      modifies this
      ensures View() == Refresh(config, old(View()), now)
    {
      if state == Open && openedAt.Some? && now - openedAt.value >= config.recoveryTimeout {
        Transition(HalfOpen, now);
      }
    }

    method ReadState(now: real) returns (s: CircuitState)
      modifies this
      ensures View() == Refresh(config, old(View()), now) && s == state
    {
      MaybeTransitionToHalfOpen(now);
      s := state;
    }

    /** The first critical section of a call: whether it may proceed. */
    method BeginCall(now: real) returns (admitted: bool)
      modifies this
      ensures (View(), admitted) == Admit(config, old(View()), now)
    {
      MaybeTransitionToHalfOpen(now);
      if state == Open {
        totalRejected := totalRejected + 1;
        return false;
      }
      if state == HalfOpen {
        if halfOpenCalls >= config.halfOpenMaxCalls {
          totalRejected := totalRejected + 1;
          return false;
        }
        halfOpenCalls := halfOpenCalls + 1;
      }
      totalCalls := totalCalls + 1;
      return true;
    }

    method OnSuccess(now: real)
      modifies this
      ensures View() == RecordSuccess(config, old(View()), now)
    {
      totalSuccesses := totalSuccesses + 1;
      if state == Closed {
        failureCount := 0;
      } else if state == HalfOpen {
        successCount := successCount + 1;
        if successCount >= config.successThreshold {
          Transition(Closed, now);
        }
      }
    }

    method OnFailure(now: real)
      modifies this
      ensures View() == RecordFailure(config, old(View()), now)
    {
      totalFailures := totalFailures + 1;
      if state == Closed {
        failureCount := failureCount + 1;
        if failureCount >= config.failureThreshold {
          Transition(Open, now);
        }
      } else if state == HalfOpen {
        Transition(Open, now);
      }
    }

    method ForceReset(now: real)
      modifies this
      ensures View() == Reset(old(View()), now)
      ensures state == Closed && openedAt == None && failureCount == successCount == halfOpenCalls == 0
      ensures totalCalls == old(totalCalls) && totalRejected == old(totalRejected)
      ensures totalSuccesses == old(totalSuccesses) && totalFailures == old(totalFailures)
    {
      Transition(Closed, now);
      failureCount := 0;
    }

    /** A whole uncontended call: admission, the wrapped function, recording. */
    method ExecuteAlone(succeeds: bool, begin: real, end: real) returns (admitted: bool)
      modifies this
      ensures admitted == Admit(config, old(View()), begin).1
      ensures View() == Call(config, old(View()), succeeds, begin, end)
    {
      admitted := BeginCall(begin);
      if admitted {
        if succeeds {
          OnSuccess(end);
        } else {
          OnFailure(end);
        }
      }
    }
  }

  function Call(cfg: Config, b: Breaker, succeeds: bool, begin: real, end: real): Breaker {
    var (r, admitted) := Admit(cfg, b, begin);
    if !admitted then r
    else if succeeds then RecordSuccess(cfg, r, end)
    else RecordFailure(cfg, r, end)
  }
}
