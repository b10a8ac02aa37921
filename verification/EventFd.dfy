/** A non-blocking, non-semaphore eventfd: a kernel counter that a signal increments and a
    successful wait clears. */
module EventFds {
  import opened Words

  /** The largest value the counter can hold. */
  const MAX_COUNT: nat := POW64 - 2

  function Signalled(count: nat): nat {
    if count < MAX_COUNT then count + 1 else count
  }

  class EventFd {
    var count: nat

    constructor ()
      ensures count == 0
    {
      count := 0;
    }

    method Signal() returns (status: int)
      modifies this
      ensures old(count) < MAX_COUNT ==> count == old(count) + 1 && status == 0
      ensures old(count) >= MAX_COUNT ==> count == old(count) && status == -1
    {
      if count < MAX_COUNT {
        count := count + 1;
        return 0;
      }
      return -1;
    }

    /** A wait succeeds on any positive counter and clears all of it, unless the poll ends without
        the event, whatever the reason: then `expired`. */
    method Wait(expired: bool) returns (status: int)
      modifies this
      ensures old(count) > 0 && !expired ==> status == 0 && count == 0
      ensures old(count) == 0 || expired ==> status == -1 && count == old(count)
    {
      if expired || count == 0 {
        return -1;
      }
      count := 0;
      return 0;
    }
  }
}
