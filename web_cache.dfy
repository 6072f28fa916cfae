/** The in-memory news-preview cache of the public site (`NewsCache`). It
    holds the list of active previews and the tick of its last successful
    load, and reloads the list from the database when it is older than the
    TTL. The database is outside the model: what a reload attempt yields
    (the session could not be opened, the query raised, or the rows it
    returned) is passed in as a `Reload` value, and the monotonic clock is
    an integer tick `now`. */
module WebCache {
  import opened Wrappers

  /** `NewsCache.__init__`'s default TTL, and the TTL of the site's instance. */
  const DefaultTtlSeconds: int := 300
  const SiteCacheTtlSeconds: int := 60

  /** One row of the reload query: the preview's own columns plus the joined
      article date (nullable) and category code. */
  datatype PreviewRow = PreviewRow(
    id: int, articleId: int, title: Option<string>, text: Option<string>,
    image: Option<string>, isActive: bool, createdAt: Option<int>,
    publicationDate: Option<int>, category: string)

  /** A cached, detached preview object. */
  datatype Preview = Preview(
    id: int, articleId: int, title: Option<string>, text: Option<string>,
    image: Option<string>, isActive: bool, createdAt: Option<int>,
    publicationDate: Option<int>, category: string)

  /** What one reload attempt meets. */
  datatype Reload =
    | SessionFails                     // opening the session raised
    | QueryFails                       // the query or the row conversion raised
    | Fetched(rows: seq<PreviewRow>)   // the query returned these rows

  /** The cache's observable state: the cached list and `last_updated`. */
  datatype CacheState = CacheState(previews: seq<Preview>, lastUpdated: int)

  /** The preview object built from one row (`ArticlePreview(**row)` plus
      the two joined attributes). */
  function FromRow(row: PreviewRow): Preview
  {
    Preview(row.id, row.articleId, row.title, row.text, row.image, row.isActive,
            row.createdAt, row.publicationDate, row.category)
  }

  /** One preview per row, in row order. */
  function Converted(rows: seq<PreviewRow>): seq<Preview>
  {
    if rows == [] then [] else Converted(rows[..|rows| - 1]) + [FromRow(rows[|rows| - 1])]
  }

  lemma {:induction false} ConvertedPointwise(rows: seq<PreviewRow>)
    ensures |Converted(rows)| == |rows|
    ensures forall i :: 0 <= i < |rows| ==> Converted(rows)[i] == FromRow(rows[i])
  {
    if rows != [] {
      ConvertedPointwise(rows[..|rows| - 1]);
    }
  }

  /** `_is_cache_stale`: strictly older than the TTL. */
  predicate Stale(s: CacheState, ttlSeconds: int, now: int)
  {
    now - s.lastUpdated > ttlSeconds
  }

  /** `_update_cache_from_db` on an open session: a failing query keeps the
      old state; rows replace the whole list and stamp the load time. */
  function LoadStep(s: CacheState, reload: Reload, now: int): CacheState
  {
    match reload
    case Fetched(rows) => CacheState(Converted(rows), now)
    case _ => s
  }

  /** `force_update`: reloads without looking at staleness; a session that
      cannot be opened is only logged. */
  function ForceUpdateStep(s: CacheState, hasSessionMaker: bool, reload: Reload, now: int): CacheState
  {
    if !hasSessionMaker then s
    else if reload.SessionFails? then s
    else LoadStep(s, reload, now)
  }

  /** `_update_if_needed` (and so `get_previews`): reloads only a stale cache;
      a session that cannot be opened resets `last_updated` to 0. */
  function UpdateIfNeededStep(s: CacheState, ttlSeconds: int, hasSessionMaker: bool, reload: Reload, now: int): CacheState
  {
    if hasSessionMaker && Stale(s, ttlSeconds, now) then
      if reload.SessionFails? then s.(lastUpdated := 0)
      else LoadStep(s, reload, now)
    else s
  }

  class NewsCache {
    var previews: seq<Preview>
    const ttlSeconds: int
    var lastUpdated: int
    var hasSessionMaker: bool

    function State(): CacheState
      reads this
    {
      CacheState(previews, lastUpdated)
    }

    /** A new cache is empty, was last updated at tick 0, and has no session
        maker yet. */
    constructor (ttlSeconds: int := DefaultTtlSeconds)
      ensures previews == [] && lastUpdated == 0
      ensures this.ttlSeconds == ttlSeconds && !hasSessionMaker
    {
      previews := [];
      this.ttlSeconds := ttlSeconds;
      lastUpdated := 0;
      hasSessionMaker := false;
    }

    /** `set_session_maker`. */
    method SetSessionMaker()
      modifies this
      ensures hasSessionMaker && previews == old(previews) && lastUpdated == old(lastUpdated)
    {
      hasSessionMaker := true;
    }

    predicate IsStale(now: int)
      reads this
    {
      Stale(State(), ttlSeconds, now)
    }

    /** `_update_cache_from_db`: `rows` is None when the query (or building a
        preview object) raised. The list is built by appending one preview
        per row and only then swapped in. */
    method UpdateCacheFromDb(rows: Option<seq<PreviewRow>>, now: int)
      modifies this
      ensures rows.None? ==> previews == old(previews) && lastUpdated == old(lastUpdated)
      ensures rows.Some? ==> previews == Converted(rows.value) && lastUpdated == now
      ensures hasSessionMaker == old(hasSessionMaker)
    {
      if rows.None? {
        return;
      }
      var result := rows.value;
      var newPreviews: seq<Preview> := [];
      var i := 0;
      while i < |result|
        invariant 0 <= i <= |result|
        invariant newPreviews == Converted(result[..i])
      {
        newPreviews := newPreviews + [FromRow(result[i])];
        assert result[..i + 1][..i] == result[..i];
        i := i + 1;
      }
      assert result[..i] == result;
      previews := newPreviews;
      lastUpdated := now;
    }

    /** `force_update`. */
    method ForceUpdate(reload: Reload, now: int)
      modifies this
      ensures State() == ForceUpdateStep(old(State()), old(hasSessionMaker), reload, now)
      ensures hasSessionMaker == old(hasSessionMaker)
    {
      if !hasSessionMaker {
        return;
      }
      match reload {
        case SessionFails =>
        case QueryFails => UpdateCacheFromDb(None, now);
        case Fetched(rows) => UpdateCacheFromDb(Some(rows), now);
      }
    }

    /** `_update_if_needed`. */
    method UpdateIfNeeded(reload: Reload, now: int)
      modifies this
      ensures State() == UpdateIfNeededStep(old(State()), ttlSeconds, old(hasSessionMaker), reload, now)
      ensures hasSessionMaker == old(hasSessionMaker)
    {
      if hasSessionMaker && IsStale(now) {
        match reload {
          case SessionFails => lastUpdated := 0;
          case QueryFails => UpdateCacheFromDb(None, now);
          case Fetched(rows) => UpdateCacheFromDb(Some(rows), now);
        }
      }
    }

    /** `get_previews`: refresh if needed, then hand out the list. The result
        is a value, so nothing the caller does to it reaches the cache. */
    method GetPreviews(reload: Reload, now: int) returns (r: seq<Preview>)
      modifies this
      ensures State() == UpdateIfNeededStep(old(State()), ttlSeconds, old(hasSessionMaker), reload, now)
      ensures r == previews
      ensures hasSessionMaker == old(hasSessionMaker)
    {
      UpdateIfNeeded(reload, now);
      r := previews;
    }
  }

  /** The site's module-level instance, built with a 60-second TTL. */
  method NewSiteCache() returns (c: NewsCache)
    ensures fresh(c)
    ensures c.ttlSeconds == SiteCacheTtlSeconds && c.State() == CacheState([], 0) && !c.hasSessionMaker
  {
    c := new NewsCache(SiteCacheTtlSeconds);
  }

  // ---------------------------------------------------------------------
  // What the transitions promise

  /** A new cache (last updated at 0) is stale exactly once the clock has
      passed the TTL. */
  lemma NewCacheStaleness(ttlSeconds: int, now: int)
    ensures Stale(CacheState([], 0), ttlSeconds, now) <==> now > ttlSeconds
  {
  }

  /** Without a session maker neither `get_previews` nor `force_update`
      changes anything. */
  lemma NoSessionMakerNoChange(s: CacheState, ttlSeconds: int, reload: Reload, now: int)
    ensures UpdateIfNeededStep(s, ttlSeconds, false, reload, now) == s
    ensures ForceUpdateStep(s, false, reload, now) == s
  {
  }

  /** A cache that is not stale is served as it is, whatever the database
      would have said. */
  lemma FreshCacheNotReloaded(s: CacheState, ttlSeconds: int, hasSessionMaker: bool, reload: Reload, now: int)
    requires !Stale(s, ttlSeconds, now)
    ensures UpdateIfNeededStep(s, ttlSeconds, hasSessionMaker, reload, now) == s
  {
  }

  /** A successful reload, forced or due to staleness, replaces the whole
      list by one preview per fetched row, in row order, and stamps `now`. */
  lemma SuccessfulReloadReplaces(s: CacheState, ttlSeconds: int, rows: seq<PreviewRow>, now: int)
    ensures Stale(s, ttlSeconds, now) ==>
      var t := UpdateIfNeededStep(s, ttlSeconds, true, Fetched(rows), now);
      t.lastUpdated == now && |t.previews| == |rows| &&
      forall i :: 0 <= i < |rows| ==> t.previews[i] == FromRow(rows[i])
    ensures var t := ForceUpdateStep(s, true, Fetched(rows), now);
      t.lastUpdated == now && |t.previews| == |rows| &&
      forall i :: 0 <= i < |rows| ==> t.previews[i] == FromRow(rows[i])
  {
    ConvertedPointwise(rows);
  }

  /** A failing query keeps the old list and the old timestamp, so the old
      list goes on being served. */
  lemma QueryFailureKeepsState(s: CacheState, ttlSeconds: int, hasSessionMaker: bool, now: int)
    ensures UpdateIfNeededStep(s, ttlSeconds, hasSessionMaker, QueryFails, now) == s
    ensures ForceUpdateStep(s, hasSessionMaker, QueryFails, now) == s
  {
  }

  /** A session failure during a staleness-triggered reload keeps the list
      but resets `last_updated` to 0, so the cache stays stale for every
      later tick (ticks never go below an earlier `last_updated`); the same
      failure under `force_update` resets nothing. */
  lemma SessionFailureResets(s: CacheState, ttlSeconds: int, now: int, later: int)
    requires Stale(s, ttlSeconds, now) && s.lastUpdated >= 0 && later >= now
    ensures var t := UpdateIfNeededStep(s, ttlSeconds, true, SessionFails, now);
      t.previews == s.previews && t.lastUpdated == 0 && Stale(t, ttlSeconds, later)
    ensures ForceUpdateStep(s, true, SessionFails, now) == s
  {
  }

  // ---------------------------------------------------------------------
  // The lock

  /** Operations on the cache's `threading.Lock`, and the assignment of
      the fetched list to the cache, which the lock is there to guard. */
  datatype LockOp = Acquire | Release | Assign

  /** A trace is deadlock-free for a non-reentrant lock when no thread
      acquires the lock while it already holds it; `held` says whether the
      trace starts with the lock held. */
  predicate NoSelfDeadlock(trace: seq<LockOp>, held: bool)
  {
    if trace == [] then true
    else match trace[0]
      case Acquire => !held && NoSelfDeadlock(trace[1..], true)
      case Release => NoSelfDeadlock(trace[1..], false)
      case Assign => NoSelfDeadlock(trace[1..], held)
  }

  /** Every assignment of the list happens while the lock is held. */
  predicate Guarded(trace: seq<LockOp>, held: bool)
  {
    if trace == [] then true
    else match trace[0]
      case Acquire => Guarded(trace[1..], true)
      case Release => Guarded(trace[1..], false)
      case Assign => held && Guarded(trace[1..], held)
  }

  /** A refresh inside `get_previews` assigns the list exactly when a
      session maker is set, the cache is stale and the query fetched rows. */
  predicate Swaps(stale: bool, hasSessionMaker: bool, reload: Reload)
  {
    hasSessionMaker && stale && reload.Fetched?
  }

  /** The lock operations of one `get_previews` call as written: it takes
      the lock around the refresh, and a reload that fetched rows takes the
      same lock again to assign the list. */
  function GetPreviewsLockOpsAsWritten(stale: bool, hasSessionMaker: bool, reload: Reload): (r: seq<LockOp>)
    ensures |r| >= 2 && r[0] == Acquire && r[|r| - 1] == Release
    ensures Assign in r <==> Swaps(stale, hasSessionMaker, reload)
  {
    var inner := if Swaps(stale, hasSessionMaker, reload) then [Acquire, Assign, Release] else [];
    [Acquire] + inner + [Release]
  }

  /** The as-written call blocks forever on its own lock exactly when a
      stale cache with a session maker is reloaded successfully. */
  lemma GetPreviewsSelfDeadlocks(stale: bool, hasSessionMaker: bool, reload: Reload)
    ensures !NoSelfDeadlock(GetPreviewsLockOpsAsWritten(stale, hasSessionMaker, reload), false)
        <==> Swaps(stale, hasSessionMaker, reload)
  {
    var t := GetPreviewsLockOpsAsWritten(stale, hasSessionMaker, reload);
    if Swaps(stale, hasSessionMaker, reload) {
      assert t[1..][0] == Acquire;
    } else {
      assert t == [Acquire, Release];
      assert t[1..] == [Release] && t[1..][1..] == [];
      assert NoSelfDeadlock(t[1..][1..], false);
    }
  }

  /** The evidently intended behaviour: the same cases with the inner
      acquire and release removed, since the refresh already runs under the
      lock `get_previews` holds. It never deadlocks, it assigns the list in
      exactly the same cases, and always under the lock. */
  function GetPreviewsLockOps(stale: bool, hasSessionMaker: bool, reload: Reload): (r: seq<LockOp>)
    ensures NoSelfDeadlock(r, false) && Guarded(r, false)
    ensures Assign in r <==> Swaps(stale, hasSessionMaker, reload)
  {
    if Swaps(stale, hasSessionMaker, reload) then
      var r := [Acquire, Assign, Release];
      assert r[1..] == [Assign, Release] && r[1..][1..] == [Release] && r[1..][1..][1..] == [];
      r
    else
      var r := [Acquire, Release];
      assert r[1..] == [Release] && r[1..][1..] == [];
      r
  }

  /** `force_update` does not hold the lock when the reload takes it, so
      as written it never deadlocks and assigns the list under the lock
      whenever rows were fetched. */
  function ForceUpdateLockOps(hasSessionMaker: bool, reload: Reload): (r: seq<LockOp>)
    ensures NoSelfDeadlock(r, false) && Guarded(r, false)
    ensures Assign in r <==> hasSessionMaker && reload.Fetched?
  {
    if hasSessionMaker && reload.Fetched? then
      var r := [Acquire, Assign, Release];
      assert r[1..] == [Assign, Release] && r[1..][1..] == [Release] && r[1..][1..][1..] == [];
      r
    else []
  }
}
