/** What both consumers share: how awaited calls end, and the wait before another attempt. */
module Retry {
  import opened Numbers

  /** How an awaited call to the outside ends; a failure may or may not leave its effect behind. */
  datatype Fate = Succeeds | FailsBefore | FailsAfter {
    predicate Takes() {
      !FailsBefore?
    }
  }

  /** Exponential backoff, clamped: the wait after the given attempt. */
  function Backoff(baseMs: nat, maxMs: nat, attempt: nat): (ms: nat)
    requires attempt >= 1
    ensures ms <= maxMs
  {
    MulNonNegative(baseMs, Pow(2, attempt - 1));
    var delay := baseMs * Pow(2, attempt - 1);
    if delay < maxMs then delay else maxMs
  }

  /** The first wait is the base, and each further one twice the one before, as far as the clamp allows. */
  lemma BackoffDoubles(baseMs: nat, maxMs: nat, attempt: nat)
    requires attempt >= 1
    ensures Backoff(baseMs, maxMs, 1) == if baseMs < maxMs then baseMs else maxMs
    ensures var wait := Backoff(baseMs, maxMs, attempt);
      && Backoff(baseMs, maxMs, attempt + 1) == (if 2 * wait < maxMs then 2 * wait else maxMs)
      && wait <= Backoff(baseMs, maxMs, attempt + 1)
  {
    var p := Pow(2, attempt - 1);
    MulNonNegative(baseMs, p);
    MulDistributes(p, p, baseMs);
    assert Pow(2, attempt) == 2 * p && baseMs * (2 * p) == 2 * (baseMs * p);
    assert Pow(2, 0) == 1;
  }
}
