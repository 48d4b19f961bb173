/** The caller's cancellation flag, read at moments of the scheduler's choosing. */
module Polling {

  /** The flag is raised at some moment. */
  ghost predicate Raised(poll: nat -> bool) {
    exists now: nat :: poll(now)
  }

  /** Read the flag; what moment it is cannot be told. */
  method Poll(poll: nat -> bool) returns (raised: bool)
    ensures raised ==> Raised(poll)
  {
    var now: nat :| now >= 0;
    raised := poll(now);
  }
}
