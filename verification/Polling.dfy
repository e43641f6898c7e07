/** Cooperative cancellation. The `k`-th poll of the caller's probe answers
    `probe(k)`; a routine is given the number of polls made so far and returns
    the number made when it stops. */
module Polling {
  type Probe = nat -> bool

  /** Every poll in `[from, to)` was answered, and the routine stopped at the
      first request to cancel, if there was one. */
  ghost predicate Polled(probe: Probe, from: nat, to: nat, cancelled: bool) {
    && from <= to
    && (forall k | from <= k < (if cancelled then to - 1 else to) :: !probe(k))
    && (cancelled ==> from < to && probe(to - 1))
  }
}
