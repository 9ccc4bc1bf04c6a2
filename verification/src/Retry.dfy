/** The retry loop that both event consumers use around a store write. */
module Retry {
  const MAX_RETRIES: nat := 5

  // Milliseconds before the second attempt; each later wait is twice as long.
  const RETRY_BASE_WAIT: int := 500

  // What one attempt does: it may take effect and still report an error.
  datatype Attempt = Succeeds | FailsBefore | FailsAfterCommit

  function Pow2(n: nat): int {
    if n == 0 then 1 else 2 * Pow2(n - 1)
  }

  /** How many of the attempts took effect. */
  function Effects(attempts: seq<Attempt>): nat {
    if attempts == [] then 0
    else Effects(attempts[..|attempts| - 1]) + if attempts[|attempts| - 1] == FailsBefore then 0 else 1
  }

  /** The outcome of the loop: it stops at the first success, after five failures, or after the failure
      of the attempt numbered `cancelledAt`, when the context is found cancelled. */
  ghost predicate Retried(attempts: seq<Attempt>, cancelledAt: nat, ok: bool, failures: nat, waited: int, effects: nat)
    requires |attempts| == MAX_RETRIES
  {
    && failures <= MAX_RETRIES && (forall i :: 0 <= i < failures ==> attempts[i] != Succeeds)
    && (ok <==> failures < MAX_RETRIES && attempts[failures] == Succeeds)
    && (!ok ==> failures == MAX_RETRIES || failures + 1 == cancelledAt)
    && waited == RETRY_BASE_WAIT * (Pow2(failures) - 1)
    && effects == Effects(if failures < MAX_RETRIES then attempts[..failures + 1] else attempts)
  }

  /** A successful loop wrote at least once. */
  lemma SuccessTookEffect(attempts: seq<Attempt>, cancelledAt: nat, failures: nat, waited: int, effects: nat)
    requires |attempts| == MAX_RETRIES && Retried(attempts, cancelledAt, true, failures, waited, effects)
    ensures effects >= 1
  {
    assert attempts[..failures + 1][failures] == Succeeds;
  }

  /** Five failures wait half a second, one, two, four and eight seconds. */
  lemma WaitsAfterFiveFailures(attempts: seq<Attempt>, cancelledAt: nat, failures: nat, waited: int, effects: nat)
    requires |attempts| == MAX_RETRIES && failures == 5
    requires Retried(attempts, cancelledAt, false, failures, waited, effects)
    ensures waited == 500 + 1000 + 2000 + 4000 + 8000
  {
    assert Pow2(5) == 32;
  }
}
