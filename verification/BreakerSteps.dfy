/** The circuit breaker's transitions, on values, and what holds over all its runs
    (src/infrastructure/circuit_breaker.py). */
module BreakerSteps {
  import opened Text
  import opened Entities

  datatype CircuitState = Closed | Open | HalfOpen

  datatype Limits = Limits(
    failureThreshold: int, recoveryTimeout: Time, halfOpenMaxCalls: int, successThreshold: int)

  datatype Breaker = Breaker(
    state: CircuitState,
    failureCount: nat,
    successCount: nat,
    lastFailure: Option<Time>,
    halfOpenCalls: nat)

  const INITIAL := Breaker(Closed, 0, 0, None, 0)

  /** Why a call is not admitted: the circuit is open, or an assert of the code fails. */
  datatype Refusal = CircuitOpen(recoveryAt: Time) | AssertionFailed

  // ---------- transitions ----------

  /** The state property: an open circuit reads as half-open once the timeout has passed. */
  function Visible(b: Breaker, c: Limits, now: Time): CircuitState {
    if b.state == Open && b.lastFailure.Some? && now - b.lastFailure.value >= c.recoveryTimeout
    then HalfOpen else b.state
  }

  function Refuse(b: Breaker, c: Limits): Refusal {
    if b.lastFailure.Some? then CircuitOpen(b.lastFailure.value + c.recoveryTimeout) else AssertionFailed
  }

  /** __aenter__ */
  function Enter(b: Breaker, c: Limits, now: Time): Result<Breaker, Refusal> {
    match Visible(b, c, now)
    case Closed => Ok(b)
    case Open => Err(Refuse(b, c))
    case HalfOpen =>
      if b.halfOpenCalls >= c.halfOpenMaxCalls then Err(Refuse(b, c))
      else if b.state == Open then Ok(b.(state := HalfOpen, successCount := 0, halfOpenCalls := 1))
      else Ok(b.(halfOpenCalls := b.halfOpenCalls + 1))
  }

  /** record_success */
  function Success(b: Breaker, c: Limits): Breaker {
    match b.state
    case HalfOpen =>
      if b.successCount + 1 >= c.successThreshold then INITIAL
      else b.(halfOpenCalls := if b.halfOpenCalls > 0 then b.halfOpenCalls - 1 else 0,
              successCount := b.successCount + 1)
    case Closed => b.(failureCount := 0)
    case Open => b
  }

  /** record_failure */
  function Failure(b: Breaker, c: Limits, now: Time): Breaker {
    if b.state == HalfOpen then
      b.(state := Open, lastFailure := Some(now), successCount := 0, halfOpenCalls := 0)
    else if b.failureCount + 1 >= c.failureThreshold then
      b.(state := Open, failureCount := b.failureCount + 1, lastFailure := Some(now),
         successCount := 0, halfOpenCalls := 0)
    else b.(failureCount := b.failureCount + 1, lastFailure := Some(now))
  }

  // ---------- runs: any order of operations ----------

  datatype Operation = DoEnter | DoSuccess | DoFailure | DoReset

  datatype Event = Event(now: Time, op: Operation)

  function Step(b: Breaker, c: Limits, ev: Event): Breaker {
    match ev.op
    case DoEnter => (match Enter(b, c, ev.now) case Ok(after) => after case Err(_) => b)
    case DoSuccess => Success(b, c)
    case DoFailure => Failure(b, c, ev.now)
    case DoReset => INITIAL
  }

  function Run(c: Limits, evs: seq<Event>): Breaker {
    if evs == [] then INITIAL else Step(Run(c, evs[..|evs| - 1]), c, evs[|evs| - 1])
  }

  /** The state before event i. */
  function Before(c: Limits, evs: seq<Event>, i: nat): Breaker
    requires i <= |evs|
  {
    Run(c, evs[..i])
  }

  lemma BeforeNext(c: Limits, evs: seq<Event>, i: nat)
    requires i < |evs|
    ensures Before(c, evs, i + 1) == Step(Before(c, evs, i), c, evs[i])
  {
    assert evs[..i + 1][..i] == evs[..i];
  }

  /** Event i is a call that is let through. */
  predicate Admitted(c: Limits, evs: seq<Event>, i: nat)
    requires i < |evs|
  {
    evs[i].op == DoEnter && Enter(Before(c, evs, i), c, evs[i].now).Ok?
  }

  /** An open or half-open circuit has a failure time and enough failures; only a half-open one counts
      probes and successes, and never more probes than allowed. */
  ghost predicate Inv(b: Breaker, c: Limits) {
    && (b.state != Closed ==> b.lastFailure.Some? && b.failureCount >= c.failureThreshold)
    && (b.state == Closed ==> b.failureCount < c.failureThreshold)
    && (b.state != HalfOpen ==> b.successCount == 0 && b.halfOpenCalls == 0)
    && (b.state == HalfOpen ==> b.successCount < c.successThreshold && b.halfOpenCalls <= c.halfOpenMaxCalls)
  }

  ghost predicate Positive(c: Limits) {
    c.failureThreshold > 0 && c.halfOpenMaxCalls > 0 && c.successThreshold > 0
  }

  lemma StepInv(b: Breaker, c: Limits, ev: Event)
    requires Positive(c) && Inv(b, c)
    ensures Inv(Step(b, c, ev), c)
  {
  }

  lemma {:induction false} RunInv(c: Limits, evs: seq<Event>)
    requires Positive(c)
    ensures Inv(Run(c, evs), c)
  {
    if evs != [] {
      RunInv(c, evs[..|evs| - 1]);
      StepInv(Run(c, evs[..|evs| - 1]), c, evs[|evs| - 1]);
    }
  }

  /** The two asserts of the code never fail, whatever the order of operations. */
  lemma AssertsHold(c: Limits, evs: seq<Event>, now: Time)
    requires Positive(c)
    ensures Enter(Run(c, evs), c, now) != Err(AssertionFailed)
  {
    RunInv(c, evs);
  }

  /** A refusal by an open circuit says exactly when the circuit will be half-open, if no failure comes in between. */
  lemma RefusalSaysWhen(b: Breaker, c: Limits, now: Time, at: Time)
    requires Positive(c) && Inv(b, c) && b.state == Open && Enter(b, c, now) == Err(CircuitOpen(at))
    ensures now < at
    ensures forall t :: Visible(b, c, t) == HalfOpen <==> t >= at
  {
  }

  // ---------- probe bound ----------

  /** The number of admitted calls among events i .. j - 1. */
  function Admissions(c: Limits, evs: seq<Event>, i: nat, j: nat): nat
    requires i <= j <= |evs|
  {
    if i == j then 0
    else Admissions(c, evs, i, j - 1) + if Admitted(c, evs, j - 1) then 1 else 0
  }

  /** Events i .. j - 1 open a half-open episode and stay in it: not half-open before, half-open after each. */
  ghost predicate Episode(c: Limits, evs: seq<Event>, i: nat, j: nat) {
    && i <= j <= |evs|
    && Before(c, evs, i).state != HalfOpen
    && forall k :: i < k <= j ==> Before(c, evs, k).state == HalfOpen
  }

  /** Inside an episode every admission is still counted, as a probe in progress or as a success. */
  lemma {:induction false} EpisodeCounts(c: Limits, evs: seq<Event>, i: nat, j: nat)
    requires Positive(c) && Episode(c, evs, i, j) && i < j
    ensures Admissions(c, evs, i, j) <= Before(c, evs, j).halfOpenCalls + Before(c, evs, j).successCount
    ensures Admitted(c, evs, j - 1) ==>
      Admissions(c, evs, i, j) <= c.halfOpenMaxCalls + c.successThreshold - 1
    decreases j
  {
    BeforeNext(c, evs, j - 1);
    RunInv(c, evs[..j - 1]);
    RunInv(c, evs[..j]);
    if i < j - 1 {
      assert Before(c, evs, j - 1).state == HalfOpen;
      EpisodeCounts(c, evs, i, j - 1);
    } else {
      assert Admissions(c, evs, i, i) == 0;
    }
  }

  /** In each half-open episode at most halfOpenMaxCalls + successThreshold - 1 calls are admitted,
      even when calls admitted earlier finish during it. */
  lemma {:induction false} ProbeBound(c: Limits, evs: seq<Event>, i: nat, j: nat)
    requires Positive(c) && Episode(c, evs, i, j)
    ensures Admissions(c, evs, i, j) <= c.halfOpenMaxCalls + c.successThreshold - 1
    decreases j
  {
    if i < j {
      EpisodeCounts(c, evs, i, j);
      if !Admitted(c, evs, j - 1) {
        ProbeBound(c, evs, i, j - 1);
      }
    }
  }

  // ---------- trip spacing ----------

  ghost predicate Timely(evs: seq<Event>) {
    forall i, j :: 0 <= i < j < |evs| ==> evs[i].now <= evs[j].now
  }

  ghost predicate NoReset(evs: seq<Event>) {
    forall i :: 0 <= i < |evs| ==> evs[i].op != DoReset
  }

  /** Event i opens the circuit. */
  predicate Trip(c: Limits, evs: seq<Event>, i: nat)
    requires i < |evs|
  {
    Before(c, evs, i).state != Open && Before(c, evs, i + 1).state == Open
  }

  /** Until a call is admitted, a tripped circuit stays open and remembers a failure no older than the trip. */
  lemma {:induction false} StaysOpen(c: Limits, evs: seq<Event>, i: nat, j: nat)
    requires Timely(evs) && NoReset(evs) && i < j <= |evs| && Trip(c, evs, i)
    requires forall k :: i < k < j ==> !Admitted(c, evs, k)
    ensures Before(c, evs, j).state == Open
    ensures Before(c, evs, j).lastFailure.Some? && Before(c, evs, j).lastFailure.value >= evs[i].now
    decreases j
  {
    BeforeNext(c, evs, j - 1);
    if i < j - 1 {
      StaysOpen(c, evs, i, j - 1);
      assert !Admitted(c, evs, j - 1);
    }
  }

  /** No call is admitted within the recovery timeout of a trip. */
  lemma {:induction false} AdmittedLate(c: Limits, evs: seq<Event>, i: nat, j: nat)
    requires Timely(evs) && NoReset(evs) && i < j < |evs| && Trip(c, evs, i) && Admitted(c, evs, j)
    ensures evs[j].now >= evs[i].now + c.recoveryTimeout
    decreases j
  {
    if k :| i < k < j && Admitted(c, evs, k) {
      AdmittedLate(c, evs, i, k);
    } else {
      StaysOpen(c, evs, i, j);
    }
  }

  /** Consecutive trips are at least the recovery timeout apart. */
  lemma TripsApart(c: Limits, evs: seq<Event>, i: nat, j: nat)
    requires Timely(evs) && NoReset(evs) && i < j < |evs| && Trip(c, evs, i) && Trip(c, evs, j)
    ensures evs[j].now >= evs[i].now + c.recoveryTimeout
  {
    if k :| i < k < j && Admitted(c, evs, k) {
      AdmittedLate(c, evs, i, k);
    } else {
      StaysOpen(c, evs, i, j);
    }
  }

  // ---------- what trips and what closes ----------

  /** The failures since the last success or reset: a fact about the events alone. */
  function Streak(evs: seq<Event>): nat {
    if evs == [] then 0
    else
      match evs[|evs| - 1].op
      case DoFailure => Streak(evs[..|evs| - 1]) + 1
      case DoEnter => Streak(evs[..|evs| - 1])
      case _ => 0
  }

  /** A closed circuit counts exactly that, and the count has not reached the threshold. */
  lemma {:induction false} ClosedCountsStreak(c: Limits, evs: seq<Event>)
    requires Positive(c) && Run(c, evs).state == Closed
    ensures Run(c, evs).failureCount == Streak(evs) < c.failureThreshold
  {
    RunInv(c, evs);
    if evs != [] {
      var init := evs[..|evs| - 1];
      RunInv(c, init);
      if Run(c, init).state == Closed {
        ClosedCountsStreak(c, init);
      }
    }
  }

  /** In every run, an event opens a closed circuit if and only if it is a failure, and the failures in a row, with
      no success or reset between them, have reached the threshold. */
  lemma ClosedTripsIff(c: Limits, evs: seq<Event>, i: nat)
    requires Positive(c) && i < |evs| && Before(c, evs, i).state == Closed
    ensures Trip(c, evs, i) <==> evs[i].op == DoFailure && Streak(evs[..i + 1]) == c.failureThreshold
    ensures !Trip(c, evs, i) ==> Before(c, evs, i + 1).state == Closed
  {
    BeforeNext(c, evs, i);
    ClosedCountsStreak(c, evs[..i]);
    assert evs[..i + 1][..i] == evs[..i];
  }

  /** The successes among events i .. j - 1. */
  function Successes(evs: seq<Event>, i: nat, j: nat): nat
    requires i <= j <= |evs|
  {
    if i == j then 0 else Successes(evs, i, j - 1) + if evs[j - 1].op == DoSuccess then 1 else 0
  }

  lemma {:induction false} EpisodeSuccesses(c: Limits, evs: seq<Event>, i: nat, j: nat)
    requires Positive(c) && Episode(c, evs, i, j) && i < j
    ensures Before(c, evs, j).successCount == Successes(evs, i, j) < c.successThreshold
    decreases j
  {
    BeforeNext(c, evs, j - 1);
    RunInv(c, evs[..j]);
    RunInv(c, evs[..j - 1]);
    if i < j - 1 {
      assert Before(c, evs, j - 1).state == HalfOpen;
      EpisodeSuccesses(c, evs, i, j - 1);
    } else {
      assert Successes(evs, i, i) == 0;
    }
  }

  /** How a half-open episode ends: any failure opens the circuit, a reset closes it, and so does the success that
      makes their number reach the threshold; nothing else ends it. */
  lemma EpisodeEnds(c: Limits, evs: seq<Event>, i: nat, j: nat)
    requires Positive(c) && Episode(c, evs, i, j) && i < j < |evs|
    ensures Before(c, evs, j + 1).state ==
      match evs[j].op
      case DoFailure => Open
      case DoReset => Closed
      case DoSuccess => if Successes(evs, i, j + 1) == c.successThreshold then Closed else HalfOpen
      case DoEnter => HalfOpen
  {
    BeforeNext(c, evs, j);
    EpisodeSuccesses(c, evs, i, j);
  }

  /** How an open circuit ends: a reset closes it, and a call that is admitted, once the timeout has passed since the
      last failure, makes it half-open; nothing else ends it, and every failure restarts the timeout. */
  lemma OpenEnds(c: Limits, evs: seq<Event>, i: nat)
    requires Positive(c) && i < |evs| && Before(c, evs, i).state == Open
    ensures Before(c, evs, i).lastFailure.Some?
    ensures var last := Before(c, evs, i).lastFailure.value;
      Before(c, evs, i + 1).state ==
        match evs[i].op
        case DoReset => Closed
        case DoEnter => if evs[i].now - last >= c.recoveryTimeout then HalfOpen else Open
        case _ => Open
    ensures Before(c, evs, i + 1).state == Open ==>
      Before(c, evs, i + 1).lastFailure ==
        if evs[i].op == DoFailure then Some(evs[i].now) else Before(c, evs, i).lastFailure
  {
    BeforeNext(c, evs, i);
    RunInv(c, evs[..i]);
  }

  /** The time of the last failure event. */
  function LastFailure(evs: seq<Event>): Option<Time> {
    if evs == [] then None
    else if evs[|evs| - 1].op == DoFailure then Some(evs[|evs| - 1].now)
    else LastFailure(evs[..|evs| - 1])
  }

  /** Whenever the circuit is not closed, the recorded failure is the last failure event. */
  lemma {:induction false} RecordedFailure(c: Limits, evs: seq<Event>)
    requires Positive(c) && Run(c, evs).state != Closed
    ensures Run(c, evs).lastFailure == LastFailure(evs)
  {
    RunInv(c, evs);
    if evs != [] {
      var init := evs[..|evs| - 1];
      RunInv(c, init);
      if Run(c, init).state != Closed {
        RecordedFailure(c, init);
      }
    }
  }

  // ---------- failures while open ----------

  /** A failure of an open circuit, reported late by a call admitted before the trip, is visible to callers unless
      it comes at the very time of the last recorded failure. */
  lemma LateFailureVisible(b: Breaker, c: Limits, now: Time)
    requires Inv(b, c) && b.state == Open
    ensures (forall t :: Visible(Failure(b, c, now), c, t) == Visible(b, c, t)) <==> now == b.lastFailure.value
  {
    var was := b.lastFailure.value + c.recoveryTimeout;
    var late := now + c.recoveryTimeout;
    if now < b.lastFailure.value {
      assert Visible(Failure(b, c, now), c, late) == HalfOpen;
    } else if now > b.lastFailure.value {
      assert Visible(b, c, was) == HalfOpen;
    }
  }

  /** One call enters that will fail late, then k calls that enter and fail at once. */
  function Rounds(k: nat): seq<Event> {
    if k == 0 then [Event(0.0, DoEnter)] else Rounds(k - 1) + [Event(0.0, DoEnter)] + [Event(0.0, DoFailure)]
  }

  lemma RunSnoc(c: Limits, evs: seq<Event>, ev: Event)
    ensures Run(c, evs + [ev]) == Step(Run(c, evs), c, ev)
  {
    assert (evs + [ev])[..|evs|] == evs;
  }

  lemma {:induction false} RunRounds(c: Limits, k: nat)
    requires Positive(c) && k <= c.failureThreshold
    ensures Run(c, Rounds(k)) == if k == 0 then INITIAL
      else Breaker(if k < c.failureThreshold then Closed else Open, k, 0, Some(0.0), 0)
  {
    if k == 0 {
      RunSnoc(c, [], Event(0.0, DoEnter));
      assert [] + [Event(0.0, DoEnter)] == Rounds(0);
    } else {
      RunRounds(c, k - 1);
      RunSnoc(c, Rounds(k - 1), Event(0.0, DoEnter));
      RunSnoc(c, Rounds(k - 1) + [Event(0.0, DoEnter)], Event(0.0, DoFailure));
    }
  }

  /** For any limits and any delay there is such a run: it trips at time 0, and would be half-open after the
      recovery timeout, but the late failure keeps it open past that. */
  lemma LateFailureDelays(c: Limits, delay: Time) returns (evs: seq<Event>, trip: nat)
    requires Positive(c) && delay > 0.0
    ensures trip + 2 == |evs| && evs[trip + 1] == Event(delay, DoFailure)
    ensures Trip(c, evs, trip) && evs[trip].now == 0.0
    ensures Visible(Before(c, evs, trip + 1), c, c.recoveryTimeout) == HalfOpen
    ensures Visible(Before(c, evs, trip + 2), c, c.recoveryTimeout) == Open
  {
    var n := c.failureThreshold;
    var head := Rounds(n - 1) + [Event(0.0, DoEnter)];
    var tripped := head + [Event(0.0, DoFailure)];
    evs, trip := tripped + [Event(delay, DoFailure)], |head|;
    RunRounds(c, n - 1);
    RunRounds(c, n);
    assert Rounds(n) == tripped;
    hide Rounds, Run;
    RunSnoc(c, Rounds(n - 1), Event(0.0, DoEnter));
    RunSnoc(c, tripped, Event(delay, DoFailure));
    assert evs[..trip] == head && evs[..trip + 1] == tripped && evs[..trip + 2] == evs;
  }

  /** The number of trips among the first n events. */
  function TripCount(c: Limits, evs: seq<Event>, n: nat): nat
    requires n <= |evs|
  {
    if n == 0 then 0 else TripCount(c, evs, n - 1) + if Trip(c, evs, n - 1) then 1 else 0
  }

  /** k times d, by repeated addition. */
  function Multiple(k: nat, d: real): real {
    if k == 0 then 0.0 else Multiple(k - 1, d) + d
  }

  lemma {:induction false} MultipleIsProduct(k: nat, d: real)
    ensures Multiple(k, d) == k as real * d
  {
    if k > 0 {
      MultipleIsProduct(k - 1, d);
      assert (k - 1) as real * d == k as real * d - d;
    }
  }

  lemma {:induction false} TripSpan(c: Limits, evs: seq<Event>, n: nat) returns (last: nat)
    requires Timely(evs) && NoReset(evs) && n <= |evs| && TripCount(c, evs, n) > 0
    ensures last < n && Trip(c, evs, last)
    ensures Multiple(TripCount(c, evs, n) - 1, c.recoveryTimeout) <= evs[last].now - evs[0].now
  {
    if !Trip(c, evs, n - 1) {
      last := TripSpan(c, evs, n - 1);
    } else {
      last := n - 1;
      if TripCount(c, evs, n - 1) > 0 {
        var earlier := TripSpan(c, evs, n - 1);
        TripsApart(c, evs, earlier, last);
      }
    }
  }

  /** A run of length T has at most 1 + T / recoveryTimeout trips. */
  lemma TripBound(c: Limits, evs: seq<Event>)
    requires Timely(evs) && NoReset(evs) && evs != [] && c.recoveryTimeout > 0.0
    ensures TripCount(c, evs, |evs|) as real <= 1.0 + (evs[|evs| - 1].now - evs[0].now) / c.recoveryTimeout
  {
    hide Trip;
    var n := TripCount(c, evs, |evs|);
    var length := evs[|evs| - 1].now - evs[0].now;
    var k := 0;
    if n > 0 {
      var last := TripSpan(c, evs, |evs|);
      assert evs[last].now <= evs[|evs| - 1].now;
      k := n - 1;
    } else {
      assert evs[0].now <= evs[|evs| - 1].now;
    }
    SpanBound(n, k, length, c.recoveryTimeout);
  }

  lemma SpanBound(n: nat, k: nat, length: real, d: real)
    requires d > 0.0 && Multiple(k, d) <= length && n <= k + 1
    ensures n as real <= 1.0 + length / d
  {
    MultipleIsProduct(k, d);
    DivideBound(k as real, length, d);
  }

  lemma DivideBound(k: real, length: real, d: real)
    requires d > 0.0 && k * d <= length
    ensures k <= length / d
  {
    var q := length / d;
    assert q * d == length;
    assert (k - q) * d <= 0.0;
  }

  // ---------- context-manager use: every exit belongs to an admitted call ----------

  /** The breaker and the calls that are between __aenter__ and __aexit__. */
  datatype Managed = Managed(breaker: Breaker, inFlight: set<nat>)

  datatype Call =
    | Enters(id: nat, at: Time)
    | Leaves(id: nat, at: Time, succeeded: bool)

  ghost predicate CanTake(m: Managed, call: Call) {
    match call
    case Enters(id, _) => id !in m.inFlight
    case Leaves(id, _, _) => id in m.inFlight
  }

  function Take(m: Managed, c: Limits, call: Call): Managed {
    match call
    case Enters(id, at) =>
      (match Enter(m.breaker, c, at)
       case Ok(after) => Managed(after, m.inFlight + {id})
       case Err(_) => m)
    case Leaves(id, at, succeeded) =>
      Managed(if succeeded then Success(m.breaker, c) else Failure(m.breaker, c, at), m.inFlight - {id})
  }

  function TakeAll(c: Limits, calls: seq<Call>): Managed {
    if calls == [] then Managed(INITIAL, {}) else Take(TakeAll(c, calls[..|calls| - 1]), c, calls[|calls| - 1])
  }

  ghost predicate ProperUse(c: Limits, calls: seq<Call>) {
    forall i :: 0 <= i < |calls| ==> CanTake(TakeAll(c, calls[..i]), calls[i])
  }

  /** Probes in progress never outnumber the calls in flight. */
  lemma {:induction false} ProbesInFlight(c: Limits, calls: seq<Call>)
    requires Positive(c) && ProperUse(c, calls)
    ensures Inv(TakeAll(c, calls).breaker, c)
    ensures TakeAll(c, calls).breaker.halfOpenCalls <= |TakeAll(c, calls).inFlight|
  {
    if calls != [] {
      var init, call := calls[..|calls| - 1], calls[|calls| - 1];
      assert forall i :: 0 <= i < |init| ==> init[..i] == calls[..i];
      ProbesInFlight(c, init);
      var m := TakeAll(c, init);
      assert CanTake(m, call);
      ProbesAfter(m, c, call);
    }
  }

  lemma ProbesAfter(m: Managed, c: Limits, call: Call)
    requires Positive(c) && CanTake(m, call)
    requires Inv(m.breaker, c) && m.breaker.halfOpenCalls <= |m.inFlight|
    ensures Inv(Take(m, c, call).breaker, c)
    ensures Take(m, c, call).breaker.halfOpenCalls <= |Take(m, c, call).inFlight|
  {
    match call
    case Enters(id, at) =>
      assert |m.inFlight + {id}| == |m.inFlight| + 1;
    case Leaves(id, at, succeeded) =>
      assert |m.inFlight - {id}| == |m.inFlight| - 1;
  }

  /** With nothing in flight, the only reason to refuse a call is that the timeout has not passed. */
  lemma NeverWedged(c: Limits, calls: seq<Call>, now: Time)
    requires Positive(c) && ProperUse(c, calls) && TakeAll(c, calls).inFlight == {}
    ensures var b := TakeAll(c, calls).breaker;
      Enter(b, c, now).Ok? <==>
        (b.state == Open ==> b.lastFailure.Some? && now - b.lastFailure.value >= c.recoveryTimeout)
  {
    ProbesInFlight(c, calls);
  }

  /** The limits must be positive: with no probes allowed, a tripped circuit admits no call ever again. */
  lemma {:induction false} WedgedWithoutProbes(c: Limits, evs: seq<Event>, i: nat, j: nat)
    requires c.halfOpenMaxCalls <= 0 && NoReset(evs) && i < j <= |evs| && Trip(c, evs, i)
    ensures Before(c, evs, j).state == Open
    ensures j < |evs| ==> !Admitted(c, evs, j)
    decreases j
  {
    BeforeNext(c, evs, j - 1);
    if i < j - 1 {
      WedgedWithoutProbes(c, evs, i, j - 1);
    }
  }

  /** One call at a time, each succeeding. None if a call is refused. */
  function Probe(b: Breaker, c: Limits, times: seq<Time>): Option<Breaker> {
    if times == [] then Some(b)
    else
      match Probe(b, c, times[..|times| - 1])
      case None => None
      case Some(m) =>
        match Enter(m, c, times[|times| - 1])
        case Err(_) => None
        case Ok(entered) => Some(Success(entered, c))
  }

  /** From an open circuit, once the timeout has passed and nothing is in flight, every sequential call is
      admitted, and it takes exactly successThreshold successes to close the circuit. */
  lemma {:induction false} Recovers(b: Breaker, c: Limits, times: seq<Time>)
    requires Positive(c) && Inv(b, c) && b.state == Open
    requires forall i :: 0 <= i < |times| ==> times[i] - b.lastFailure.value >= c.recoveryTimeout
    requires |times| <= c.successThreshold
    ensures Probe(b, c, times).Some?
    ensures var m := Probe(b, c, times).value;
      if |times| == 0 then m == b
      else if |times| < c.successThreshold then
        m.state == HalfOpen && m.successCount == |times| && m.halfOpenCalls == 0
        && m.lastFailure == b.lastFailure
      else m == INITIAL
  {
    if times != [] {
      Recovers(b, c, times[..|times| - 1]);
    }
  }
}
