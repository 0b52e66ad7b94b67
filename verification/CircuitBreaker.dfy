/** The circuit breaker as an object updated in place (src/infrastructure/circuit_breaker.py). */
module CircuitBreaker {
  import opened Text
  import opened Entities
  import opened BreakerSteps

  class CircuitBreaker {
    const limits: Limits
    var state: CircuitState
    var failureCount: nat
    var successCount: nat
    var lastFailureTime: Option<Time>
    var halfOpenCalls: nat

    /** Every operation since construction, in order. */
    ghost var log: seq<Event>

    ghost function Abs(): Breaker
      reads this
    {
      Breaker(state, failureCount, successCount, lastFailureTime, halfOpenCalls)
    }

    /** The fields are what the logged run leads to, so the theorems about runs speak about this object. */
    ghost predicate Valid()
      reads this
    {
      Abs() == Run(limits, log)
    }

    constructor (limits: Limits)
      ensures Valid() && log == [] && this.limits == limits
    {
      this.limits := limits;
      state := Closed;
      failureCount, successCount, halfOpenCalls := 0, 0, 0;
      lastFailureTime := None;
      log := [];
    }

    /** The state property. For a caller: closed means that a call is admitted, open that it is refused, and
        half-open that it is admitted while there are fewer probes than allowed. */
    function State(now: Time): (s: CircuitState)
      reads this
      ensures s == Closed ==> Enter(Abs(), limits, now) == Ok(Abs())
      ensures s == Open ==> Enter(Abs(), limits, now).Err?
      ensures s == HalfOpen ==> (Enter(Abs(), limits, now).Ok? <==> halfOpenCalls < limits.halfOpenMaxCalls)
      ensures s == Visible(Abs(), limits, now)
    {
      if state == Open && lastFailureTime.Some? && now - lastFailureTime.value >= limits.recoveryTimeout
      then HalfOpen else state
    }

    method AEnter(now: Time) returns (refused: Option<Refusal>)
      requires Valid()
      modifies this
      ensures Valid() && log == old(log) + [Event(now, DoEnter)]
      ensures match Enter(old(Abs()), limits, now)
        case Ok(after) => refused == None && Abs() == after
        case Err(why) => refused == Some(why) && Abs() == old(Abs())
    {
      Logged(log, Event(now, DoEnter));
      log := log + [Event(now, DoEnter)];
      var current := State(now);
      if current == Open {
        if lastFailureTime.None? {
          return Some(AssertionFailed);
        }
        return Some(CircuitOpen(lastFailureTime.value + limits.recoveryTimeout));
      }
      if current == HalfOpen {
        if halfOpenCalls >= limits.halfOpenMaxCalls {
          if lastFailureTime.None? {
            return Some(AssertionFailed);
          }
          return Some(CircuitOpen(lastFailureTime.value + limits.recoveryTimeout));
        }
        if state == Open {
          state := HalfOpen;
          successCount := 0;
          halfOpenCalls := 0;
        }
        halfOpenCalls := halfOpenCalls + 1;
      }
      refused := None;
    }

    method AExit(failed: bool, now: Time)
      requires Valid()
      modifies this
      ensures Valid() && log == old(log) + [Event(now, if failed then DoFailure else DoSuccess)]
      ensures Abs() == if failed then Failure(old(Abs()), limits, now) else Success(old(Abs()), limits)
    {
      if failed {
        RecordFailure(now);
      } else {
        RecordSuccess(now);
      }
    }

    method RecordSuccess(ghost now: Time)
      requires Valid()
      modifies this
      ensures Valid() && log == old(log) + [Event(now, DoSuccess)]
      ensures Abs() == Success(old(Abs()), limits)
    {
      Logged(log, Event(now, DoSuccess));
      log := log + [Event(now, DoSuccess)];
      if state == HalfOpen {
        halfOpenCalls := if halfOpenCalls > 0 then halfOpenCalls - 1 else 0;
        successCount := successCount + 1;
        if successCount >= limits.successThreshold {
          state := Closed;
          failureCount := 0;
          successCount := 0;
          halfOpenCalls := 0;
          lastFailureTime := None;
        }
      } else if state == Closed {
        failureCount := 0;
      }
    }

    method RecordFailure(now: Time)
      requires Valid()
      modifies this
      ensures Valid() && log == old(log) + [Event(now, DoFailure)]
      ensures Abs() == Failure(old(Abs()), limits, now)
    {
      Logged(log, Event(now, DoFailure));
      log := log + [Event(now, DoFailure)];
      if state == HalfOpen {
        state := Open;
        lastFailureTime := Some(now);
        successCount := 0;
        halfOpenCalls := 0;
      } else {
        failureCount := failureCount + 1;
        lastFailureTime := Some(now);
        if failureCount >= limits.failureThreshold {
          state := Open;
          successCount := 0;
          halfOpenCalls := 0;
        }
      }
    }

    method Reset(ghost now: Time)
      requires Valid()
      modifies this
      ensures Valid() && log == old(log) + [Event(now, DoReset)]
      ensures Abs() == INITIAL
    {
      Logged(log, Event(now, DoReset));
      log := log + [Event(now, DoReset)];
      state := Closed;
      failureCount := 0;
      successCount := 0;
      lastFailureTime := None;
      halfOpenCalls := 0;
    }
  }

  lemma Logged(log: seq<Event>, ev: Event)
    ensures forall c :: Run(c, log + [ev]) == Step(Run(c, log), c, ev)
  {
    assert (log + [ev])[..|log|] == log;
  }
}
