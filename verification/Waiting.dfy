/** How a thread waits on a condition variable. */
module Waiting {

  /** A thread outside the wait, in `pthread_cond_wait`, or woken but not yet back with the lock. */
  datatype Mode = Idle | Asleep | Woken

  /** A signal reaches one sleeping thread, if there is one; `w` says which. */
  predicate CanWake(modes: seq<Mode>, w: nat) {
    Asleep in modes ==> w < |modes| && modes[w] == Asleep
  }

  function Wake(modes: seq<Mode>, w: nat): seq<Mode>
    requires CanWake(modes, w)
  {
    if Asleep in modes then modes[w := Woken] else modes
  }
}
