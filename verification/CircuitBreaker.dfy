/**
 * The circuit breaker without Redis (src/core/circuit_breaker.py:48-50, 175-209), refined by a
 * rule that has no state but the history of outcomes.
 */
module CircuitBreaker {

  datatype CircuitState = CLOSED | OPEN | HALF_OPEN

  datatype Outcome = Success | Failure(at: real)

  function FailuresSinceSuccess(history: seq<Outcome>): nat
  {
    if history == [] || history[|history| - 1].Success? then 0 else 1 + FailuresSinceSuccess(history[..|history| - 1])
  }

  /** The rule: refuse when the failures since the last success reach the threshold and the last
      of them is less than the recovery timeout ago. */
  predicate Refuses(history: seq<Outcome>, threshold: int, recoveryTimeout: real, now: real)
  {
    && history != [] && history[|history| - 1].Failure?
    && FailuresSinceSuccess(history) >= threshold
    && now - history[|history| - 1].at < recoveryTimeout
  }

  class Breaker {
    const failureThreshold: int
    const recoveryTimeout: real
    var memState: CircuitState
    var memFailureCount: int
    var memLastFailureTime: real
    ghost var history: seq<Outcome>  // every outcome recorded so far
    ghost var clock: real            // the time of the last call

    /** In every reachable state: the count is the failures since the last success, CLOSED is a
        count of zero or below the threshold, and HALF_OPEN is entered only after the timeout. */
    ghost predicate Valid()
      reads this
    {
      && memFailureCount == FailuresSinceSuccess(history)
      && (memState == CLOSED <==> memFailureCount == 0 || memFailureCount < failureThreshold)
      && (memFailureCount > 0 ==> history[|history| - 1] == Failure(memLastFailureTime))
      && (memFailureCount == 0 ==> history == [] || history[|history| - 1].Success?)
      && (memState == HALF_OPEN ==> clock - memLastFailureTime >= recoveryTimeout)
    }

    constructor (failureThreshold: int, recoveryTimeout: real, now: real)
      ensures Valid() && history == [] && clock == now
      ensures this.failureThreshold == failureThreshold && this.recoveryTimeout == recoveryTimeout
    {
      this.failureThreshold, this.recoveryTimeout := failureThreshold, recoveryTimeout;
      memState, memFailureCount, memLastFailureTime := CLOSED, 0, 0.0;
      history, clock := [], now;
    }

    /** Whatever the state machine went through, the answer is the stateless rule's. */
    method CanExecute(now: real) returns (allowed: bool)
      requires Valid() && now >= clock
      modifies this
      ensures Valid() && clock == now && history == old(history)
      ensures allowed <==> !Refuses(history, failureThreshold, recoveryTimeout, now)
      ensures memFailureCount == old(memFailureCount) && memLastFailureTime == old(memLastFailureTime)
      ensures memState == if old(memState) == OPEN && allowed then HALF_OPEN else old(memState)
    {
      clock := now;
      if memState == CLOSED {
        return true;
      }
      if memState == OPEN {
        if now - memLastFailureTime >= recoveryTimeout {
          memState := HALF_OPEN;
          return true;
        }
        return false;
      }
      return true;
    }

    method RecordSuccess(now: real)
      requires Valid() && now >= clock
      modifies this
      ensures Valid() && clock == now && history == old(history) + [Success] && memState == CLOSED
      ensures memFailureCount == 0
      ensures forall later :: !Refuses(history, failureThreshold, recoveryTimeout, later)
    {
      memFailureCount := 0;
      memState := CLOSED;
      history, clock := history + [Success], now;
    }

    method RecordFailure(now: real)
      requires Valid() && now >= clock
      modifies this
      ensures Valid() && clock == now && history == old(history) + [Failure(now)]
      ensures memFailureCount == old(memFailureCount) + 1 && memLastFailureTime == now
      ensures memState == if memFailureCount >= failureThreshold then OPEN else CLOSED
      ensures old(memState) == HALF_OPEN ==>
        forall later :: later - now < recoveryTimeout ==> Refuses(history, failureThreshold, recoveryTimeout, later)
    {
      memLastFailureTime := now;
      memFailureCount := memFailureCount + 1;
      ghost var before := history;
      history, clock := history + [Failure(now)], now;
      assert history[..|history| - 1] == before;
      if memFailureCount >= failureThreshold {
        memState := OPEN;
      }
    }
  }

  /** HALF_OPEN limits nothing: once the timeout is over, every one of any number of calls is let
      through until an outcome is recorded. */
  method ProbeRepeatedly(breaker: Breaker, times: seq<real>) returns (admitted: nat)
    requires breaker.Valid() && breaker.memState == OPEN && times != []
    requires times[0] >= breaker.clock && times[0] - breaker.memLastFailureTime >= breaker.recoveryTimeout
    requires forall i, j :: 0 <= i < j < |times| ==> times[i] <= times[j]
    modifies breaker
    ensures admitted == |times| && breaker.Valid()
    ensures breaker.memState == HALF_OPEN && breaker.history == old(breaker.history)
  {
    admitted := 0;
    for i := 0 to |times|
      invariant admitted == i && breaker.Valid() && breaker.history == old(breaker.history)
      invariant breaker.memState == if i == 0 then OPEN else HALF_OPEN
      invariant breaker.clock == if i == 0 then old(breaker.clock) else times[i - 1]
      invariant breaker.memLastFailureTime == old(breaker.memLastFailureTime)
    {
      var allowed := breaker.CanExecute(times[i]);
      if allowed {
        admitted := admitted + 1;
      }
    }
  }

  /** Failures in a row are counted one by one, and an outcome that is a success ends the count. */
  lemma {:induction false} FailuresAreCounted(before: seq<Outcome>, failures: seq<Outcome>)
    requires forall f :: f in failures ==> f.Failure?
    requires before == [] || before[|before| - 1].Success?
    ensures FailuresSinceSuccess(before + failures) == |failures|
    decreases |failures|
  {
    var whole := before + failures;
    if failures == [] {
      assert whole == before;
    } else {
      FailuresAreCounted(before, failures[..|failures| - 1]);
      assert whole[..|whole| - 1] == before + failures[..|failures| - 1];
      assert whole[|whole| - 1] == failures[|failures| - 1] && failures[|failures| - 1] in failures;
    }
  }

  /** After a success, or from the start: a call is refused exactly if the failures have reached the
      threshold and the last of them is less than the timeout ago. */
  lemma RefusedAfter(before: seq<Outcome>, failures: seq<Outcome>, threshold: int, recoveryTimeout: real, now: real)
    requires forall f :: f in failures ==> f.Failure?
    requires before == [] || before[|before| - 1].Success?
    ensures failures == [] ==> !Refuses(before, threshold, recoveryTimeout, now)
    ensures failures != [] ==>
      (Refuses(before + failures, threshold, recoveryTimeout, now) <==>
       |failures| >= threshold && now - failures[|failures| - 1].at < recoveryTimeout)
  {
    FailuresAreCounted(before, failures);
    if failures != [] {
      assert (before + failures)[|before + failures| - 1] == failures[|failures| - 1];
    }
  }

  /** The rule reads no further back than the last success. */
  lemma {:induction false} SuccessForgets(before: seq<Outcome>, after: seq<Outcome>, threshold: int,
                                          recoveryTimeout: real, now: real)
    ensures FailuresSinceSuccess(before + [Success] + after) == FailuresSinceSuccess(after)
    ensures Refuses(before + [Success] + after, threshold, recoveryTimeout, now) <==>
      Refuses(after, threshold, recoveryTimeout, now)
  {
    var whole := before + [Success] + after;
    if after == [] {
      assert whole[|whole| - 1] == Success;
    } else {
      SuccessForgets(before, after[..|after| - 1], threshold, recoveryTimeout, now);
      assert whole[..|whole| - 1] == before + [Success] + after[..|after| - 1];
      assert whole[|whole| - 1] == after[|after| - 1];
    }
  }
}
