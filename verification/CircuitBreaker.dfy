/** The circuit breaker of the memory adapter, against the history of its events. */
module CircuitBreakers {

  datatype Event = Failure(at: nat) | Success

  /** Failures recorded since the last success. */
  function FailuresSince(history: seq<Event>): nat {
    if history == [] || history[|history| - 1].Success? then 0
    else 1 + FailuresSince(history[..|history| - 1])
  }

  /** Calls are refused: at least `threshold` failures followed the last success, and the cooldown behind
      the last of them is not over. Whether the clock is monotone does not matter. */
  ghost predicate OpenAt(history: seq<Event>, threshold: int, cooldownMs: int, now: nat) {
    && history != [] && history[|history| - 1].Failure?
    && FailuresSince(history) >= threshold
    && now < history[|history| - 1].at + cooldownMs
  }

  class CircuitBreaker {
    const threshold: int
    const cooldownMs: int
    var failures: nat
    var openUntil: int
    ghost var history: seq<Event>

    /** The two fields say exactly what the history says, at every time. */
    ghost predicate Valid()
      reads this
    {
      && failures == FailuresSince(history)
      && forall now: nat :: now < openUntil <==> OpenAt(history, threshold, cooldownMs, now)
    }

    constructor (threshold: int, cooldownMs: int)
      ensures Valid() && history == [] && this.threshold == threshold && this.cooldownMs == cooldownMs
    {
      this.threshold, this.cooldownMs := threshold, cooldownMs;
      failures, openUntil, history := 0, 0, [];
    }

    method EnsureClosed(now: nat) returns (refused: bool)
      requires Valid()
      ensures refused <==> OpenAt(history, threshold, cooldownMs, now)
    {
      return now < openUntil;
    }

    method RecordFailure(now: nat)
      requires Valid()
      modifies this
      ensures Valid() && history == old(history) + [Failure(now)]
    {
      ghost var before, until := history, openUntil;
      history := history + [Failure(now)];
      assert history[..|history| - 1] == before;
      failures := failures + 1;
      if failures >= threshold {
        openUntil := now + cooldownMs;
      }
      forall t: nat ensures t < openUntil <==> OpenAt(history, threshold, cooldownMs, t) {
        assert t < until <==> OpenAt(before, threshold, cooldownMs, t);
      }
    }

    method RecordSuccess()
      requires Valid()
      modifies this
      ensures Valid() && history == old(history) + [Success]
    {
      failures := 0;
      openUntil := 0;
      history := history + [Success];
    }
  }

  /** The failures counted are the last ones, and a success stands in front of them unless they are all
      there is. */
  lemma {:induction false} FailuresSinceAreTheLast(history: seq<Event>)
    ensures FailuresSince(history) <= |history|
    ensures forall i :: |history| - FailuresSince(history) <= i < |history| ==> history[i].Failure?
    ensures FailuresSince(history) < |history| ==> history[|history| - FailuresSince(history) - 1].Success?
  {
    if history != [] && history[|history| - 1].Failure? {
      FailuresSinceAreTheLast(history[..|history| - 1]);
    }
  }

  /** Failures at the given times. */
  function Failures(times: seq<nat>): (r: seq<Event>)
    ensures |r| == |times| && forall i :: 0 <= i < |r| ==> r[i] == Failure(times[i])
  {
    seq(|times|, i requires 0 <= i < |times| => Failure(times[i]))
  }

  lemma {:induction false} FailuresCounted(history: seq<Event>, times: seq<nat>)
    requires history == [] || history[|history| - 1].Success?
    ensures FailuresSince(history + Failures(times)) == |times|
    decreases |times|
  {
    if times == [] {
      assert history + Failures(times) == history;
    } else {
      var front := times[..|times| - 1];
      assert (history + Failures(times))[..|history| + |times| - 1] == history + Failures(front);
      FailuresCounted(history, front);
    }
  }

  /** Behind a success, or at the start, a run of failures opens the breaker exactly when there are at least
      `threshold` of them, for the cooldown behind the last. */
  lemma OpensAtThreshold(history: seq<Event>, times: seq<nat>, threshold: int, cooldownMs: int, now: nat)
    requires history == [] || history[|history| - 1].Success?
    ensures OpenAt(history + Failures(times), threshold, cooldownMs, now) <==>
      times != [] && |times| >= threshold && now < times[|times| - 1] + cooldownMs
  {
    FailuresCounted(history, times);
    if times == [] { assert history + Failures(times) == history; }
  }

  /** There is no half-open probe: once the breaker has tripped, the cooldown closes it without
      forgetting the failures, and until a success any single failure opens it again for a whole
      cooldown. */
  lemma OneFailureReopens(history: seq<Event>, threshold: int, cooldownMs: int, at: nat, now: nat)
    requires FailuresSince(history) >= threshold
    ensures OpenAt(history + [Failure(at)], threshold, cooldownMs, now) <==> now < at + cooldownMs
  {
    assert (history + [Failure(at)])[..|history|] == history;
  }
}
