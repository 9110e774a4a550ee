/**
 * The bounded retry loop shared by `downloadImage` and `createCBZ`: up to
 * `retries` attempts, stop at the first one that succeeds, and after a
 * failed attempt that is not the last, wait `1000 * attempt` milliseconds.
 * The I/O of an attempt is replaced by its outcome, given in advance.
 */
module Retry {

  /** The default of the `retries` parameter. */
  const DefaultRetries: int := 3

  /** Milliseconds of back-off per attempt already made. */
  const BaseDelay: nat := 1000

  /** Attempt `k` (0-based) succeeds; an attempt past the given outcomes fails. */
  predicate AttemptOk(outcomes: seq<bool>, k: nat)
  {
    k < |outcomes| && outcomes[k]
  }

  /** Some attempt within the bound succeeds. */
  predicate Succeeds(outcomes: seq<bool>, retries: int)
  {
    exists k: nat :: k < retries && AttemptOk(outcomes, k)
  }

  /**
   * The loop itself.  `attempts` counts the attempts made and `delays` lists
   * the back-off waits requested, in order.
   */
  method WithRetries(outcomes: seq<bool>, retries: int) returns (ok: bool, attempts: nat, delays: seq<nat>)
    ensures ok <==> Succeeds(outcomes, retries)
    ensures ok ==> 1 <= attempts <= retries && AttemptOk(outcomes, attempts - 1)
    ensures !ok ==> attempts == (if retries > 0 then retries else 0)
    ensures forall k: nat :: k + 1 < attempts ==> !AttemptOk(outcomes, k)
    ensures |delays| == (if attempts == 0 then 0 else attempts - 1)
    ensures forall i :: 0 <= i < |delays| ==> delays[i] == BaseDelay * (i + 1)
  {
    ok, attempts, delays := false, 0, [];
    var attempt := 1;
    while attempt <= retries
      invariant 1 <= attempt && attempts == attempt - 1
      invariant if retries > 0 then attempt <= retries else attempt == 1
      invariant forall k: nat :: k + 1 < attempt ==> !AttemptOk(outcomes, k)
      invariant |delays| == attempts
      invariant forall i :: 0 <= i < |delays| ==> delays[i] == BaseDelay * (i + 1)
      decreases retries - attempt
    {
      attempts := attempt;
      if AttemptOk(outcomes, attempt - 1) {
        ok := true;
        return;
      }
      if attempt == retries {
        return;
      }
      delays := delays + [BaseDelay * attempt];
      attempt := attempt + 1;
    }
  }
}
