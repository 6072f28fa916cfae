/** The driver pool of the package scraper
    (python/traffic_arbitration/scrapper/driver_pool.py): a FIFO queue of
    idle browser drivers, bounded by `max_drivers`. Drivers are opaque
    tokens; creating one takes the next number of a counter, and every
    `quit()` is recorded in order. */
module BoundedDriverPool {

  type Driver = nat

  const DefaultMaxDrivers: int := 5

  /** The pool's observable state: the queue (front first), how many
      drivers were created so far, and the drivers quit so far. */
  datatype PoolState = PoolState(queue: seq<Driver>, created: nat, quit: seq<Driver>)

  /** `get_driver`: the front driver of a non-empty queue; a fresh driver
      otherwise. The warning is logged only when the empty queue's size
      (0) reaches `max_drivers`. */
  function GetStep(s: PoolState, maxDrivers: int): (PoolState, Driver, bool)
  {
    if s.queue == [] then (s.(created := s.created + 1), s.created, 0 >= maxDrivers)
    else (s.(queue := s.queue[1..]), s.queue[0], false)
  }

  /** `release_driver`: back into the queue while it holds fewer than
      `max_drivers` drivers, quit otherwise. */
  function ReleaseStep(s: PoolState, maxDrivers: int, d: Driver): PoolState
  {
    if |s.queue| < maxDrivers then s.(queue := s.queue + [d])
    else s.(quit := s.quit + [d])
  }

  /** `close_all`: every queued driver is quit, front first. */
  function CloseStep(s: PoolState): PoolState
  {
    s.(queue := [], quit := s.quit + s.queue)
  }

  /** The bound the pool keeps: never more than `max_drivers` idle drivers
      (and none at all when `max_drivers` is not positive). */
  predicate WithinBound(s: PoolState, maxDrivers: int)
  {
    |s.queue| <= maxDrivers || s.queue == []
  }

  class DriverPool {
    const maxDrivers: int
    var queue: seq<Driver>
    var created: nat
    var quit: seq<Driver>

    function State(): PoolState
      reads this
    {
      PoolState(queue, created, quit)
    }

    /** A new pool is empty and has created and quit nothing. */
    constructor (maxDrivers: int := DefaultMaxDrivers)
      ensures this.maxDrivers == maxDrivers
      ensures queue == [] && created == 0 && quit == []
    {
      this.maxDrivers := maxDrivers;
      queue := [];
      created := 0;
      quit := [];
    }

    /** `_create_driver`. */
    method CreateDriver() returns (d: Driver)
      modifies this
      ensures d == old(created) && created == old(created) + 1
      ensures queue == old(queue) && quit == old(quit)
    {
      d := created;
      created := created + 1;
    }

    method GetDriver() returns (d: Driver, warned: bool)
      modifies this
      ensures (State(), d, warned) == GetStep(old(State()), maxDrivers)
    {
      if queue == [] {
        warned := |queue| >= maxDrivers;
        d := CreateDriver();
        return;
      }
      d := queue[0];
      queue := queue[1..];
      warned := false;
    }

    method ReleaseDriver(d: Driver)
      modifies this
      ensures State() == ReleaseStep(old(State()), maxDrivers, d)
    {
      if |queue| < maxDrivers {
        queue := queue + [d];
      } else {
        quit := quit + [d];
      }
    }

    method CloseAll()
      modifies this
      ensures State() == CloseStep(old(State()))
    {
      while queue != []
        invariant old(quit) + old(queue) == quit + queue
        invariant created == old(created)
        decreases |queue|
      {
        var d := queue[0];
        queue := queue[1..];
        quit := quit + [d];
      }
    }

    /** `__enter__` hands back the pool unchanged. */
    method Enter() returns (self: DriverPool)
      ensures self == this
    {
      self := this;
    }

    /** `__exit__` closes every idle driver. */
    method Exit()
      modifies this
      ensures State() == CloseStep(old(State()))
    {
      CloseAll();
    }
  }

  // ---------------------------------------------------------------------
  // What the pool promises

  /** FIFO: a non-empty pool hands out its oldest idle driver and keeps the
      rest in order, creating nothing. */
  lemma GetFromNonEmpty(s: PoolState, maxDrivers: int)
    requires s.queue != []
    ensures var (t, d, warned) := GetStep(s, maxDrivers);
      d == s.queue[0] && t.queue == s.queue[1..] && t.created == s.created && t.quit == s.quit && !warned
  {
  }

  /** An empty pool hands out a driver never handed out before and stays
      empty. */
  lemma GetFromEmpty(s: PoolState, maxDrivers: int)
    requires s.queue == []
    ensures var (t, d, _) := GetStep(s, maxDrivers);
      t.queue == [] && d == s.created && t.created == s.created + 1 && t.quit == s.quit
  {
  }

  /** The warning is logged only when `max_drivers` is not positive: for any
      positive bound that branch is dead. */
  lemma WarningOnlyWithoutCapacity(s: PoolState, maxDrivers: int)
    ensures GetStep(s, maxDrivers).2 <==> s.queue == [] && maxDrivers <= 0
  {
  }

  /** Releasing keeps the driver when there is room and quits it
      otherwise; either way the bound holds afterwards. */
  lemma ReleaseKeepsBound(s: PoolState, maxDrivers: int, d: Driver)
    requires WithinBound(s, maxDrivers)
    ensures var t := ReleaseStep(s, maxDrivers, d);
      WithinBound(t, maxDrivers) &&
      (|s.queue| < maxDrivers ==> t.queue == s.queue + [d] && t.quit == s.quit) &&
      (|s.queue| >= maxDrivers ==> t.queue == s.queue && t.quit == s.quit + [d])
  {
  }

  /** Taking a driver keeps the bound too. */
  lemma GetKeepsBound(s: PoolState, maxDrivers: int)
    requires WithinBound(s, maxDrivers)
    ensures WithinBound(GetStep(s, maxDrivers).0, maxDrivers)
  {
  }

  /** Closing quits every idle driver, oldest first, and empties the pool. */
  lemma CloseQuitsAll(s: PoolState)
    ensures CloseStep(s).queue == [] && CloseStep(s).quit == s.quit + s.queue
    ensures forall d :: d in s.queue ==> d in CloseStep(s).quit
  {
  }

  /** A driver taken and given straight back ends at the back of the queue
      when the pool had room for it. */
  lemma GetThenRelease(s: PoolState, maxDrivers: int)
    requires 0 < |s.queue| <= maxDrivers
    ensures var (t, d, _) := GetStep(s, maxDrivers);
      ReleaseStep(t, maxDrivers, d).queue == s.queue[1..] + [s.queue[0]]
  {
  }
}
