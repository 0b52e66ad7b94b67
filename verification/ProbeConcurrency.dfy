/** How many probes can be in progress at once. The circuit breaker documents half_open_max_calls as the maximum
    of concurrent calls in the half-open state; this says exactly when that holds
    (src/infrastructure/circuit_breaker.py). */
module ProbeConcurrency {
  import opened Text
  import opened Entities
  import opened BreakerSteps

  function TakeFrom(m: Managed, c: Limits, calls: seq<Call>): Managed {
    if calls == [] then m else Take(TakeFrom(m, c, calls[..|calls| - 1]), c, calls[|calls| - 1])
  }

  /** An open circuit, with the calls that were admitted before and have not finished. */
  ghost predicate Tripped(m: Managed, c: Limits) { Inv(m.breaker, c) && m.breaker.state == Open }

  /** From an open circuit, proper use that opens a half-open episode and stays in it. New calls get new names. */
  ghost predicate InEpisode(m: Managed, c: Limits, calls: seq<Call>) {
    && (forall k :: 0 <= k < |calls| ==>
          CanTake(TakeFrom(m, c, calls[..k]), calls[k]) && (calls[k].Enters? ==> calls[k].id !in m.inFlight))
    && (forall k :: 0 < k <= |calls| ==> TakeFrom(m, c, calls[..k]).breaker.state == HalfOpen)
  }

  /** The calls admitted in the episode that have not finished. */
  function Probes(m: Managed, c: Limits, calls: seq<Call>): set<nat> {
    TakeFrom(m, c, calls).inFlight - m.inFlight
  }

  ghost predicate AtMostMax(m: Managed, c: Limits) {
    forall calls :: InEpisode(m, c, calls) ==> |Probes(m, c, calls)| <= c.halfOpenMaxCalls
  }

  // ---------- when the documentation holds ----------

  lemma PrefixInEpisode(m: Managed, c: Limits, calls: seq<Call>)
    requires InEpisode(m, c, calls) && calls != []
    ensures InEpisode(m, c, calls[..|calls| - 1])
  {
    var init := calls[..|calls| - 1];
    forall k | 0 <= k <= |init| ensures init[..k] == calls[..k] {
    }
  }

  /** Inside an episode an admission counts one up, only a success can leave, and it counts one down. */
  lemma EpisodeCounters(b: Breaker, c: Limits, at: Time)
    requires Positive(c) && Inv(b, c)
    ensures var entered := Enter(b, c, at);
      entered.Ok? && entered.value.state == HalfOpen ==>
        entered.value.halfOpenCalls == b.halfOpenCalls + 1 && Inv(entered.value, c)
    ensures Failure(b, c, at).state != HalfOpen
    ensures Success(b, c).state == HalfOpen ==>
      c.successThreshold > 1 && Success(b, c).halfOpenCalls >= b.halfOpenCalls - 1 && Inv(Success(b, c), c)
  {
  }

  /** One call more: no probe escapes the count unless an older call succeeds and leaves the episode open. */
  lemma OneMore(late: set<nat>, m: Managed, c: Limits, call: Call)
    requires Positive(c) && Inv(m.breaker, c) && CanTake(m, call) && Take(m, c, call).breaker.state == HalfOpen
    requires |m.inFlight - late| <= m.breaker.halfOpenCalls
    requires call.Enters? ==> call.id !in late
    requires late == {} || c.successThreshold == 1
    ensures Inv(Take(m, c, call).breaker, c)
    ensures |Take(m, c, call).inFlight - late| <= Take(m, c, call).breaker.halfOpenCalls
  {
    hide Enter, Success, Failure, Inv;
    EpisodeCounters(m.breaker, c, call.at);
    match call
    case Enters(id, at) => OneIn(m.inFlight, late, id);
    case Leaves(id, at, succeeded) =>
      if late == {} {
        OneOut(m.inFlight, id);
      }
  }

  lemma OneIn(inFlight: set<nat>, late: set<nat>, id: nat)
    ensures |inFlight + {id} - late| <= |inFlight - late| + 1
  {
    if id in late || id in inFlight {
      assert inFlight + {id} - late == inFlight - late;
    } else {
      assert inFlight + {id} - late == inFlight - late + {id};
    }
  }

  lemma OneOut(inFlight: set<nat>, id: nat)
    requires id in inFlight
    ensures |inFlight - {id} - {}| == |inFlight - {}| - 1
  {
    assert inFlight - {} == inFlight && inFlight - {id} - {} == inFlight - {id};
  }

  lemma {:induction false} Counted(m: Managed, c: Limits, calls: seq<Call>)
    requires Positive(c) && Tripped(m, c) && InEpisode(m, c, calls)
    requires m.inFlight == {} || c.successThreshold == 1
    ensures Inv(TakeFrom(m, c, calls).breaker, c)
    ensures |Probes(m, c, calls)| <= TakeFrom(m, c, calls).breaker.halfOpenCalls
  {
    if calls == [] {
      assert Probes(m, c, calls) == {};
    } else {
      var n := |calls| - 1;
      PrefixInEpisode(m, c, calls);
      Counted(m, c, calls[..n]);
      TakeAllCalls(calls);
      assert TakeFrom(m, c, calls[..|calls|]).breaker.state == HalfOpen;
      OneMore(m.inFlight, TakeFrom(m, c, calls[..n]), c, calls[n]);
    }
  }

  lemma TakeAllCalls(calls: seq<Call>)
    ensures calls[..|calls|] == calls
  {
  }

  // ---------- when it does not ----------

  lemma {:induction false} FreshName(used: set<nat>) returns (n: nat)
    ensures forall id :: id in used ==> id < n
  {
    if used == {} {
      n := 0;
    } else {
      var id :| id in used;
      var k := FreshName(used - {id});
      n := if k > id then k else id + 1;
      forall other | other in used ensures other < n {
        if other != id {
          assert other in used - {id};
        }
      }
    }
  }

  /** n new calls enter at the same time. */
  function Entering(first: nat, n: nat, at: Time): seq<Call> {
    if n == 0 then [] else Entering(first, n - 1, at) + [Enters(first + n - 1, at)]
  }

  function Named(first: nat, n: nat): (ids: set<nat>)
    ensures forall id :: id in ids <==> first <= id < first + n
    ensures |ids| == n
  {
    if n == 0 then {} else Named(first, n - 1) + {first + n - 1}
  }

  lemma TakeFromSnoc(m: Managed, c: Limits, calls: seq<Call>, call: Call)
    ensures TakeFrom(m, c, calls + [call]) == Take(TakeFrom(m, c, calls), c, call)
  {
    assert (calls + [call])[..|calls|] == calls;
  }

  lemma EpisodeSnoc(m: Managed, c: Limits, calls: seq<Call>, call: Call)
    requires InEpisode(m, c, calls) && CanTake(TakeFrom(m, c, calls), call)
    requires call.Enters? ==> call.id !in m.inFlight
    requires Take(TakeFrom(m, c, calls), c, call).breaker.state == HalfOpen
    ensures InEpisode(m, c, calls + [call])
  {
    hide Take, CanTake;
    var more := calls + [call];
    TakeFromSnoc(m, c, calls, call);
    TakeAllCalls(more);
    forall k | 0 <= k <= |calls| ensures more[..k] == calls[..k] {
    }
    TakeAllCalls(calls);
    forall k | 0 <= k < |more|
      ensures CanTake(TakeFrom(m, c, more[..k]), more[k]) && (more[k].Enters? ==> more[k].id !in m.inFlight)
    {
      assert more[..k] == calls[..k];
    }
    forall k | 0 < k <= |more| ensures TakeFrom(m, c, more[..k]).breaker.state == HalfOpen {
      if k <= |calls| {
        assert more[..k] == calls[..k];
      }
    }
  }

  lemma EmptyEpisode(m: Managed, c: Limits)
    ensures InEpisode(m, c, []) && TakeFrom(m, c, []) == m
  {
  }

  /** m after n of its probes have entered. */
  function Filled(m: Managed, first: nat, n: nat): Managed {
    if n == 0 then m
    else Managed(m.breaker.(state := HalfOpen, successCount := 0, halfOpenCalls := n), m.inFlight + Named(first, n))
  }

  /** There is room for the n-th probe. */
  lemma NextProbe(m: Managed, c: Limits, first: nat, n: nat, at: Time)
    requires Tripped(m, c) && at - m.breaker.lastFailure.value >= c.recoveryTimeout
    requires (forall id :: id in m.inFlight ==> id < first) && 0 < n <= c.halfOpenMaxCalls
    ensures var call := Enters(first + n - 1, at);
      CanTake(Filled(m, first, n - 1), call) && Take(Filled(m, first, n - 1), c, call) == Filled(m, first, n)
  {
    hide Named;
    NamedGrows(m.inFlight, first, n);
  }

  lemma NamedGrows(ids: set<nat>, first: nat, n: nat)
    requires n > 0
    ensures ids + Named(first, n - 1) + {first + n - 1} == ids + Named(first, n)
    ensures n == 1 ==> ids + {first} == ids + Named(first, 1)
  {
    assert Named(first, n) == Named(first, n - 1) + {first + n - 1};
  }

  /** The probes that fill an episode. */
  lemma {:induction false} Fills(m: Managed, c: Limits, first: nat, n: nat, at: Time)
    requires Tripped(m, c) && at - m.breaker.lastFailure.value >= c.recoveryTimeout
    requires (forall id :: id in m.inFlight ==> id < first) && n <= c.halfOpenMaxCalls
    ensures InEpisode(m, c, Entering(first, n, at))
    ensures TakeFrom(m, c, Entering(first, n, at)) == Filled(m, first, n)
  {
    if n == 0 {
      EmptyEpisode(m, c);
    } else {
      hide InEpisode, TakeFrom, CanTake, Take;
      Fills(m, c, first, n - 1, at);
      NextProbe(m, c, first, n, at);
      EpisodeSnoc(m, c, Entering(first, n - 1, at), Enters(first + n - 1, at));
      TakeFromSnoc(m, c, Entering(first, n - 1, at), Enters(first + n - 1, at));
    }
  }

  /** In a full episode an older call succeeds and leaves, and one more probe enters. */
  lemma OneTooMany(m: Managed, c: Limits, first: nat, late: nat, at: Time) returns (after: Managed)
    requires Positive(c) && Tripped(m, c) && late in m.inFlight && c.successThreshold > 1
    requires forall id :: id in m.inFlight ==> id < first
    ensures var full, leaves, extra :=
        Filled(m, first, c.halfOpenMaxCalls), Leaves(late, at, true), Enters(first + c.halfOpenMaxCalls, at);
      && CanTake(full, leaves) && Take(full, c, leaves).breaker.state == HalfOpen
      && CanTake(Take(full, c, leaves), extra) && after == Take(Take(full, c, leaves), c, extra)
    ensures after.breaker.state == HalfOpen
    ensures after.inFlight - m.inFlight == Named(first, c.halfOpenMaxCalls + 1)
  {
    var full := Filled(m, first, c.halfOpenMaxCalls);
    after := Take(Take(full, c, Leaves(late, at, true)), c, Enters(first + c.halfOpenMaxCalls, at));
    OnlyNew(m.inFlight, first, c.halfOpenMaxCalls, late);
  }

  lemma OnlyNew(inFlight: set<nat>, first: nat, n: nat, late: nat)
    requires forall id :: id in inFlight ==> id < first
    requires late in inFlight
    ensures inFlight + Named(first, n) - {late} + {first + n} - inFlight == Named(first, n + 1)
  {
  }

  /** An older call that succeeds during the episode makes room for a probe too many. */
  lemma Exceeds(m: Managed, c: Limits, late: nat) returns (calls: seq<Call>)
    requires Positive(c) && Tripped(m, c) && late in m.inFlight && c.successThreshold > 1
    ensures InEpisode(m, c, calls) && |Probes(m, c, calls)| == c.halfOpenMaxCalls + 1
  {
    var at := m.breaker.lastFailure.value + c.recoveryTimeout;
    var first := FreshName(m.inFlight);
    var max := c.halfOpenMaxCalls;
    Fills(m, c, first, max, at);
    var after := OneTooMany(m, c, first, late, at);
    hide InEpisode, TakeFrom, CanTake, Take, Entering, Filled, Named;
    var full := Entering(first, max, at);
    var leaves, extra := Leaves(late, at, true), Enters(first + max, at);
    EpisodeSnoc(m, c, full, leaves);
    TakeFromSnoc(m, c, full, leaves);
    EpisodeSnoc(m, c, full + [leaves], extra);
    TakeFromSnoc(m, c, full + [leaves], extra);
    calls := full + [leaves] + [extra];
  }

  /** At most halfOpenMaxCalls probes are ever in progress at once in the next half-open episode, if and only if
      no older call is still in flight when the circuit is open, or one success closes it. */
  lemma ConcurrencyBound(m: Managed, c: Limits)
    requires Positive(c) && Tripped(m, c)
    ensures AtMostMax(m, c) <==> m.inFlight == {} || c.successThreshold == 1
  {
    if m.inFlight == {} || c.successThreshold == 1 {
      forall calls | InEpisode(m, c, calls) ensures |Probes(m, c, calls)| <= c.halfOpenMaxCalls {
        Counted(m, c, calls);
      }
    } else {
      var late :| late in m.inFlight;
      var calls := Exceeds(m, c, late);
    }
  }
}
