/**
 * The retry policy on the geo-index writes of the business service:
 * up to three attempts, retried only on a Redis connection failure or a
 * query timeout, with an exponential back-off of 1000 ms doubling per
 * wait; once the attempts are used up, a recovery handler logs the last
 * fault and the call returns normally.  Which answer the index gives on
 * each attempt is an oracle `store`, attempt numbers counting from 0.
 */
module Retry {

  /** The faults a geo-index call can raise. */
  datatype Fault = ConnectionFailure | QueryTimeout | OtherFault

  datatype Attempt = Ok | Fail(fault: Fault)

  const MaxAttempts: nat := 3
  const InitialDelayMs: nat := 1000
  const Multiplier: nat := 2

  /** Only these two kinds are retried, and only these two have a recovery handler. */
  predicate Retryable(f: Fault) {
    f == ConnectionFailure || f == QueryTimeout
  }

  /**
   * How a retried call ends: the write went through, the attempts ran out
   * and the recovery handler swallowed the last fault, or a fault without
   * a handler escaped to the caller.
   */
  datatype Outcome = Completed | Recovered(fault: Fault) | Rethrown(fault: Fault)

  /** A whole retried call: the attempts made, the waits between them, the end. */
  datatype Run = Run(attempts: nat, waits: seq<nat>, outcome: Outcome)

  function Power(b: nat, e: nat): nat {
    if e == 0 then 1 else b * Power(b, e - 1)
  }

  /** The wait after the failed attempt `k`. */
  function Delay(k: nat): nat {
    InitialDelayMs * Power(Multiplier, k)
  }

  /** Attempts `k` onwards of one retried call. */
  function RunFrom(store: nat -> Attempt, k: nat): (r: Run)
    requires k < MaxAttempts
    ensures k < r.attempts <= MaxAttempts
    ensures |r.waits| == r.attempts - 1 - k
    ensures forall i | 0 <= i < |r.waits| :: r.waits[i] == Delay(k + i)
    ensures forall j | k <= j < r.attempts - 1 :: store(j).Fail? && Retryable(store(j).fault)
    ensures r.outcome.Completed? <==> store(r.attempts - 1).Ok?
    ensures r.outcome.Recovered? ==>
              && r.attempts == MaxAttempts
              && store(r.attempts - 1) == Fail(r.outcome.fault)
              && Retryable(r.outcome.fault)
    ensures r.outcome.Rethrown? ==>
              store(r.attempts - 1) == Fail(r.outcome.fault) && !Retryable(r.outcome.fault)
    decreases MaxAttempts - k
  {
    match store(k)
    case Ok => Run(k + 1, [], Completed)
    case Fail(f) =>
      if !Retryable(f) then Run(k + 1, [], Rethrown(f))
      else if k + 1 == MaxAttempts then Run(k + 1, [], Recovered(f))
      else
        var rest := RunFrom(store, k + 1);
        Run(rest.attempts, [Delay(k)] + rest.waits, rest.outcome)
  }

  /**
   * One retried call.  It stops at the first success, at the first fault
   * that is not retryable, or after the third attempt; every attempt
   * before the last failed retryably, and the waits in between are
   * 1000 ms and then 2000 ms.
   */
  function Execute(store: nat -> Attempt): (r: Run)
    ensures 1 <= r.attempts <= MaxAttempts
    ensures forall j | 0 <= j < r.attempts - 1 :: store(j).Fail? && Retryable(store(j).fault)
    ensures r.outcome.Completed? <==> store(r.attempts - 1).Ok?
    ensures r.outcome.Recovered? ==>
              r.attempts == MaxAttempts && store(MaxAttempts - 1) == Fail(r.outcome.fault)
    ensures r.outcome.Rethrown? <==>
              store(r.attempts - 1).Fail? && !Retryable(store(r.attempts - 1).fault)
    ensures r.waits == [1000, 2000][..r.attempts - 1]
  {
    var r := RunFrom(store, 0);
    assert Delay(0) == 1000;
    assert Delay(1) == 2000;
    r
  }

  /** A call whose every attempt fails only transiently never throws. */
  lemma TransientFaultsNeverEscape(store: nat -> Attempt)
    requires forall j | 0 <= j < MaxAttempts :: store(j).Ok? || Retryable(store(j).fault)
    ensures !Execute(store).outcome.Rethrown?
  {
    var r := Execute(store);
    assert r.attempts - 1 < MaxAttempts;
  }

  /** A first attempt that succeeds is the only attempt. */
  lemma FirstSuccessIsFinal(store: nat -> Attempt)
    requires store(0).Ok?
    ensures Execute(store) == Run(1, [], Completed)
  {
  }

  /** Three transient faults in a row end in recovery, never in a fourth attempt. */
  lemma ExhaustionRecovers(store: nat -> Attempt)
    requires forall j | 0 <= j < MaxAttempts :: store(j).Fail? && Retryable(store(j).fault)
    ensures Execute(store) == Run(3, [1000, 2000], Recovered(store(2).fault))
  {
    assert store(0).Fail? && store(1).Fail? && store(2).Fail?;
    assert Delay(0) == 1000;
    assert Delay(1) == 2000;
  }
}
