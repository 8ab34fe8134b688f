/** How long a report that could not be delivered is put off. */
module Outbox {
  const OUTBOX_RETRY_BASE_MS: nat := 5000
  const OUTBOX_RETRY_MAX_MS: nat := 300000

  function PowerOfTwo(n: nat): nat { if n == 0 then 1 else 2 * PowerOfTwo(n - 1) }

  function Backoff(deliveryAttempts: nat): nat
  {
    var exponent := if deliveryAttempts < 6 then deliveryAttempts else 6;
    var delay := OUTBOX_RETRY_BASE_MS * PowerOfTwo(exponent);
    if delay < OUTBOX_RETRY_MAX_MS then delay else OUTBOX_RETRY_MAX_MS
  }

  /** The first delay is the base; each one is twice the one before, up to the maximum. */
  lemma BackoffDoubles(deliveryAttempts: nat)
    ensures Backoff(0) == OUTBOX_RETRY_BASE_MS
    ensures var next, twice := Backoff(deliveryAttempts + 1), 2 * Backoff(deliveryAttempts);
            next == if twice < OUTBOX_RETRY_MAX_MS then twice else OUTBOX_RETRY_MAX_MS
  {
    assert PowerOfTwo(5) == 32 && PowerOfTwo(6) == 64;
    if deliveryAttempts < 5 { assert PowerOfTwo(deliveryAttempts) <= 16 by { Powers(deliveryAttempts); } }
  }

  lemma Powers(n: nat)
    requires n < 5
    ensures PowerOfTwo(n) <= 16 && PowerOfTwo(n + 1) == 2 * PowerOfTwo(n)
  {
    assert PowerOfTwo(4) == 16;
  }

  /** Delays grow from the base up to the maximum. */
  lemma BackoffBounds(deliveryAttempts: nat)
    ensures OUTBOX_RETRY_BASE_MS <= Backoff(deliveryAttempts) <= OUTBOX_RETRY_MAX_MS
    ensures Backoff(deliveryAttempts) <= Backoff(deliveryAttempts + 1)
  {
    assert PowerOfTwo(6) == 64;
  }
}
