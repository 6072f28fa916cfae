/** The driver pool of the standalone scraper (scrapper/driver_pool.py): the
    same bounded FIFO queue of idle browser drivers, filled lazily with
    `max_drivers` fresh drivers on first use and emptied, flag cleared, by
    `close_all`. Drivers are opaque tokens numbered by a creation counter;
    every `quit()` is recorded in order. */
module LazyDriverPool {

  type Driver = nat

  const DefaultMaxDrivers: int := 5

  datatype PoolState = PoolState(queue: seq<Driver>, created: nat, quit: seq<Driver>, initialized: bool)

  /** The `k` drivers created next after `start` drivers already exist. */
  function FreshDrivers(start: nat, k: nat): (r: seq<Driver>)
    ensures |r| == k
    ensures forall i :: 0 <= i < k ==> r[i] == start + i
  {
    if k == 0 then [] else FreshDrivers(start, k - 1) + [start + k - 1]
  }

  /** `range(max_drivers)` runs max(0, max_drivers) times. */
  function FillCount(maxDrivers: int): nat
  {
    if maxDrivers > 0 then maxDrivers else 0
  }

  /** `_initialize_pool`: an uninitialised pool gets `max_drivers` fresh
      drivers behind whatever it already holds, and the flag is set. */
  function InitStep(s: PoolState, maxDrivers: int): PoolState
  {
    if s.initialized then s
    else PoolState(s.queue + FreshDrivers(s.created, FillCount(maxDrivers)),
                   s.created + FillCount(maxDrivers), s.quit, true)
  }

  /** `get_driver`: initialise, then the front driver, or an emergency
      driver (with a warning) when the queue is empty. */
  function GetStep(s: PoolState, maxDrivers: int): (PoolState, Driver, bool)
  {
    var t := InitStep(s, maxDrivers);
    if t.queue == [] then (t.(created := t.created + 1), t.created, true)
    else (t.(queue := t.queue[1..]), t.queue[0], false)
  }

  function ReleaseStep(s: PoolState, maxDrivers: int, d: Driver): PoolState
  {
    if |s.queue| < maxDrivers then s.(queue := s.queue + [d])
    else s.(quit := s.quit + [d])
  }

  function CloseStep(s: PoolState): PoolState
  {
    s.(queue := [], quit := s.quit + s.queue, initialized := false)
  }

  class DriverPool {
    const maxDrivers: int
    var queue: seq<Driver>
    var created: nat
    var quit: seq<Driver>
    var initialized: bool

    function State(): PoolState
      reads this
    {
      PoolState(queue, created, quit, initialized)
    }

    /** A new pool is empty and not yet initialised. */
    constructor (maxDrivers: int := DefaultMaxDrivers)
      ensures this.maxDrivers == maxDrivers
      ensures queue == [] && created == 0 && quit == [] && !initialized
    {
      this.maxDrivers := maxDrivers;
      queue := [];
      created := 0;
      quit := [];
      initialized := false;
    }

    method CreateDriver() returns (d: Driver)
      modifies this
      ensures d == old(created) && created == old(created) + 1
      ensures queue == old(queue) && quit == old(quit) && initialized == old(initialized)
    {
      d := created;
      created := created + 1;
    }

    method InitializePool()
      modifies this
      ensures State() == InitStep(old(State()), maxDrivers)
    {
      if !initialized {
        var n := FillCount(maxDrivers);
        var i := 0;
        while i < n
          invariant 0 <= i <= n
          invariant queue == old(queue) + FreshDrivers(old(created), i)
          invariant created == old(created) + i
          invariant quit == old(quit) && !initialized
        {
          var d := CreateDriver();
          queue := queue + [d];
          i := i + 1;
        }
        initialized := true;
      }
    }

    method GetDriver() returns (d: Driver, warned: bool)
      modifies this
      ensures (State(), d, warned) == GetStep(old(State()), maxDrivers)
    {
      InitializePool();
      if queue == [] {
        warned := true;
        d := CreateDriver();
        return;
      }
      d := queue[0];
      queue := queue[1..];
      warned := false;
    }

    method ReleaseDriver(d: Driver)
      modifies this
      ensures State() == ReleaseStep(old(State()), maxDrivers, d)
    {
      if |queue| < maxDrivers {
        queue := queue + [d];
      } else {
        quit := quit + [d];
      }
    }

    method CloseAll()
      modifies this
      ensures State() == CloseStep(old(State()))
    {
      while queue != []
        invariant old(quit) + old(queue) == quit + queue
        invariant created == old(created) && initialized == old(initialized)
        decreases |queue|
      {
        var d := queue[0];
        queue := queue[1..];
        quit := quit + [d];
      }
      initialized := false;
    }

    /** `__enter__` initialises the pool. */
    method Enter() returns (self: DriverPool)
      modifies this
      ensures self == this
      ensures State() == InitStep(old(State()), maxDrivers)
    {
      InitializePool();
      self := this;
    }

    /** `__exit__` always closes the pool. */
    method Exit()
      modifies this
      ensures State() == CloseStep(old(State()))
    {
      CloseAll();
    }
  }

  // ---------------------------------------------------------------------
  // What the pool promises

  /** The first use of an empty, uninitialised pool fills it with exactly
      `max_drivers` fresh drivers, never handed out before, and sets the
      flag. */
  lemma FirstUseFills(s: PoolState, maxDrivers: int)
    requires !s.initialized && s.queue == [] && maxDrivers >= 0
    ensures var t := InitStep(s, maxDrivers);
      t.initialized && |t.queue| == maxDrivers && t.created == s.created + maxDrivers &&
      forall i :: 0 <= i < |t.queue| ==> t.queue[i] == s.created + i
  {
  }

  /** While the flag is set, initialisation does nothing. */
  lemma InitSkippedWhenInitialized(s: PoolState, maxDrivers: int)
    requires s.initialized
    ensures InitStep(s, maxDrivers) == s
  {
  }

  /** After initialisation `get_driver` takes the front driver, or creates
      an emergency driver when none is idle. */
  lemma GetAfterInit(s: PoolState, maxDrivers: int)
    requires s.initialized
    ensures var (t, d, warned) := GetStep(s, maxDrivers);
      (s.queue != [] ==> d == s.queue[0] && t.queue == s.queue[1..] && t.created == s.created && !warned) &&
      (s.queue == [] ==> d == s.created && t.queue == [] && t.created == s.created + 1 && warned)
  {
  }

  /** The first `get_driver` on a fresh pool with room hands out the first
      of the drivers it just created and keeps the others. */
  lemma FirstGet(s: PoolState, maxDrivers: int)
    requires !s.initialized && s.queue == [] && maxDrivers >= 1
    ensures var (t, d, warned) := GetStep(s, maxDrivers);
      d == s.created && !warned && |t.queue| == maxDrivers - 1 && t.created == s.created + maxDrivers
  {
  }

  /** `close_all` quits every idle driver, empties the queue and clears the
      flag, so the next `get_driver` fills the pool again. */
  lemma CloseThenRefill(s: PoolState, maxDrivers: int)
    requires maxDrivers >= 1
    ensures var c := CloseStep(s);
      c.queue == [] && c.quit == s.quit + s.queue && !c.initialized &&
      var (t, d, warned) := GetStep(c, maxDrivers);
      d == s.created && !warned && t.initialized && |t.queue| == maxDrivers - 1
  {
  }

  /** Releasing keeps the driver while there is room and quits it
      otherwise, so an initialised pool never holds more than
      `max_drivers` idle drivers through releases. */
  lemma ReleaseKeepsBound(s: PoolState, maxDrivers: int, d: Driver)
    requires |s.queue| <= maxDrivers || s.queue == []
    ensures var t := ReleaseStep(s, maxDrivers, d);
      (|t.queue| <= maxDrivers || t.queue == []) &&
      (|s.queue| < maxDrivers ==> t.queue == s.queue + [d] && t.quit == s.quit) &&
      (|s.queue| >= maxDrivers ==> t.queue == s.queue && t.quit == s.quit + [d])
  {
  }
}
