/** The repeating timers of the environment (`d3.interval`). Time itself is
    not modelled: a timer is a handle that is either live, and may fire, or
    stopped, after which it never fires again. */
module Timers {

  /** The live handles, and the next handle `d3.interval` will hand out. */
  datatype Clock = Clock(live: set<nat>, next: nat)

  ghost predicate Valid(c: Clock)
  {
    forall id :: id in c.live ==> id < c.next
  }

  const Idle := Clock({}, 0)

  /** Starts a new repeating timer; the handle returned is one not live before. */
  function Start(c: Clock): (r: (nat, Clock))
    requires Valid(c)
    ensures r.0 !in c.live && r.1.live == c.live + {r.0} && Valid(r.1)
  {
    (c.next, Clock(c.live + {c.next}, c.next + 1))
  }

  /** `timer.stop()`: the timer never fires again; stopping a stopped timer does nothing. */
  function Stop(c: Clock, id: nat): (r: Clock)
    requires Valid(c)
    ensures id !in r.live && r.live + {id} >= c.live && r.live <= c.live && Valid(r)
  {
    c.(live := c.live - {id})
  }
}
