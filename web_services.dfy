/** The ranking service of the public site (`NewsRanker`): take the cached
    previews, order them newest first, and cut out one page. Nothing is
    filtered. */
module WebServices {
  import opened Wrappers
  import opened PyStr
  import opened WebCache

  /** `get_ranked_previews`' default page. */
  const DefaultLimit: int := 20
  const DefaultOffset: int := 0

  /** `sorted` raises TypeError when it has to compare a missing publication
      date (None) with anything. */
  datatype RankError = UnorderableDates

  /** The sort key. It is only compared when every preview has a date (or
      when there is at most one preview, in which case nothing is
      compared), so the 0 for a missing date is never used as a date. */
  function Date(p: Preview): int
  {
    p.publicationDate.GetOr(0)
  }

  predicate AllDated(ps: seq<Preview>)
  {
    forall i :: 0 <= i < |ps| ==> ps[i].publicationDate.Some?
  }

  /** Newest first: the order `sorted(..., reverse=True)` produces. */
  predicate NewestFirst(ps: seq<Preview>)
  {
    forall i, j :: 0 <= i < j < |ps| ==> Date(ps[i]) >= Date(ps[j])
  }

  /** The previews of `ps` with date `d`, in their order in `ps`. */
  function WithDate(ps: seq<Preview>, d: int): seq<Preview>
  {
    if ps == [] then []
    else (if Date(ps[0]) == d then [ps[0]] else []) + WithDate(ps[1..], d)
  }

  /** Puts `p` into a newest-first list after every preview at least as
      new as it, which keeps previews of equal date in arrival order. */
  function InsertByDate(p: Preview, sorted: seq<Preview>): (r: seq<Preview>)
    ensures |r| == |sorted| + 1
    ensures multiset(r) == multiset(sorted) + multiset{p}
  {
    if sorted == [] then [p]
    else if Date(sorted[0]) >= Date(p) then
      assert sorted == [sorted[0]] + sorted[1..];
      [sorted[0]] + InsertByDate(p, sorted[1..])
    else
      [p] + sorted
  }

  lemma {:induction false} InsertByDateOrdered(p: Preview, sorted: seq<Preview>)
    requires NewestFirst(sorted)
    ensures NewestFirst(InsertByDate(p, sorted))
  {
    if sorted != [] && Date(sorted[0]) >= Date(p) {
      InsertByDateOrdered(p, sorted[1..]);
      var rest := InsertByDate(p, sorted[1..]);
      var r := [sorted[0]] + rest;
      forall j | 0 < j < |r| ensures Date(r[0]) >= Date(r[j]) {
        assert r[j] in multiset(rest);
        if r[j] != p {
          assert r[j] in multiset(sorted[1..]);
          var k :| 0 <= k < |sorted[1..]| && sorted[1..][k] == r[j];
          assert sorted[k + 1] == r[j];
        }
      }
    }
  }

  /** `sorted(ps, key=publication_date, reverse=True)` for dated previews:
      a stable sort, newest first. */
  function SortNewestFirst(ps: seq<Preview>): (r: seq<Preview>)
    ensures |r| == |ps|
    ensures NewestFirst(r)
    ensures multiset(r) == multiset(ps)
  {
    if ps == [] then []
    else
      assert ps == ps[..|ps| - 1] + [ps[|ps| - 1]];
      InsertByDateOrdered(ps[|ps| - 1], SortNewestFirst(ps[..|ps| - 1]));
      InsertByDate(ps[|ps| - 1], SortNewestFirst(ps[..|ps| - 1]))
  }

  lemma {:induction false} WithDateAppend(a: seq<Preview>, b: seq<Preview>, d: int)
    ensures WithDate(a + b, d) == WithDate(a, d) + WithDate(b, d)
  {
    if a == [] {
      assert a + b == b;
    } else {
      var ab := a + b;
      var head := if Date(a[0]) == d then [a[0]] else [];
      assert ab[0] == a[0] && ab[1..] == a[1..] + b;
      assert WithDate(a, d) == head + WithDate(a[1..], d);
      assert WithDate(ab, d) == head + WithDate(a[1..] + b, d);
      WithDateAppend(a[1..], b, d);
    }
  }

  lemma {:induction false} WithDateAbsent(ps: seq<Preview>, d: int)
    requires forall i :: 0 <= i < |ps| ==> Date(ps[i]) < d
    ensures WithDate(ps, d) == []
  {
    if ps != [] {
      WithDateAbsent(ps[1..], d);
    }
  }

  /** The tail of a newest-first list is newest first, and its head is
      the newest of all. */
  lemma NewestFirstTail(s: seq<Preview>)
    requires s != [] && NewestFirst(s)
    ensures NewestFirst(s[1..])
    ensures forall i :: 0 <= i < |s| ==> Date(s[i]) <= Date(s[0])
  {
  }

  /** Inserting `p` adds it after every earlier preview of the same date. */
  lemma {:induction false} InsertByDateStable(p: Preview, sorted: seq<Preview>, d: int)
    requires NewestFirst(sorted)
    ensures WithDate(InsertByDate(p, sorted), d)
         == WithDate(sorted, d) + (if Date(p) == d then [p] else [])
  {
    if sorted == [] {
    } else if Date(sorted[0]) >= Date(p) {
      NewestFirstTail(sorted);
      InsertByDateStable(p, sorted[1..], d);
      var rest := InsertByDate(p, sorted[1..]);
      var r := [sorted[0]] + rest;
      assert r[0] == sorted[0] && r[1..] == rest;
      assert WithDate(r, d) == (if Date(sorted[0]) == d then [sorted[0]] else []) + WithDate(rest, d);
    } else {
      if Date(p) == d {
        NewestFirstTail(sorted);
        WithDateAbsent(sorted, d);
      }
      var r := [p] + sorted;
      assert r[0] == p && r[1..] == sorted;
      assert WithDate(r, d) == (if Date(p) == d then [p] else []) + WithDate(sorted, d);
    }
  }

  /** The sort is stable: previews with the same date keep their cache
      order. */
  lemma {:induction false} SortStable(ps: seq<Preview>, d: int)
    ensures WithDate(SortNewestFirst(ps), d) == WithDate(ps, d)
  {
    if ps != [] {
      var init, last := ps[..|ps| - 1], ps[|ps| - 1];
      var sortedInit := SortNewestFirst(init);
      var x := if Date(last) == d then [last] else [];
      assert ps == init + [last];
      assert WithDate([last], d) == x by {
        assert [last][1..] == [];
      }
      calc {
        WithDate(SortNewestFirst(ps), d);
        WithDate(InsertByDate(last, sortedInit), d);
        { InsertByDateStable(last, sortedInit, d); }
        WithDate(sortedInit, d) + x;
        { SortStable(init, d); }
        WithDate(init, d) + x;
        { WithDateAppend(init, [last], d); }
        WithDate(init + [last], d);
      }
    }
  }

  /** The ranking step of `get_ranked_previews`: sort newest first, then
      the Python slice `[offset : offset + limit]`. */
  function Rank(cached: seq<Preview>, limit: int, offset: int): Result<seq<Preview>, RankError>
  {
    if |cached| >= 2 && !AllDated(cached) then Failure(UnorderableDates)
    else Success(PySlice(SortNewestFirst(cached), offset, offset + limit))
  }

  /** Ranking fails exactly when two or more previews are cached and one of
      them has no date. */
  lemma RankFailsExactly(cached: seq<Preview>, limit: int, offset: int)
    ensures Rank(cached, limit, offset).Failure? <==>
      |cached| >= 2 && exists i :: 0 <= i < |cached| && cached[i].publicationDate.None?
  {
  }

  lemma SliceOrdered(s: seq<Preview>, a: nat, b: nat)
    requires a <= b <= |s| && NewestFirst(s)
    ensures NewestFirst(s[a..b])
    ensures multiset(s[a..b]) <= multiset(s)
  {
    assert s == s[..a] + s[a..b] + s[b..];
    assert multiset(s) == multiset(s[..a]) + multiset(s[a..b]) + multiset(s[b..]);
  }

  /** A successful page is newest first and holds only cached previews, no
      more often than they are cached. */
  lemma RankOrder(cached: seq<Preview>, limit: int, offset: int)
    requires Rank(cached, limit, offset).Success?
    ensures NewestFirst(Rank(cached, limit, offset).value)
    ensures multiset(Rank(cached, limit, offset).value) <= multiset(cached)
  {
    var s := SortNewestFirst(cached);
    var a, b := SliceIndex(offset, |s|), SliceIndex(offset + limit, |s|);
    if a < b {
      SliceOrdered(s, a, b);
    }
  }

  /** For a non-negative offset and limit, the page is the stretch of the
      sorted list starting at `offset`, `limit` long or cut short by the end
      of the list. */
  lemma RankPage(cached: seq<Preview>, limit: int, offset: int)
    requires limit >= 0 && offset >= 0
    requires Rank(cached, limit, offset).Success?
    ensures var r := Rank(cached, limit, offset).value;
      var n := |cached|;
      |r| == (if offset >= n then 0 else if offset + limit <= n then limit else n - offset) &&
      forall i :: 0 <= i < |r| ==> r[i] == SortNewestFirst(cached)[offset + i]
  {
    var s := SortNewestFirst(cached);
    PySliceForward(s, offset, limit);
  }

  /** The default page: the `DefaultLimit` newest previews, or all of them
      when fewer are cached. */
  lemma DefaultPage(cached: seq<Preview>)
    requires Rank(cached, DefaultLimit, DefaultOffset).Success?
    ensures Rank(cached, DefaultLimit, DefaultOffset).value
         == SortNewestFirst(cached)[..if |cached| < DefaultLimit then |cached| else DefaultLimit]
  {
    RankPage(cached, DefaultLimit, DefaultOffset);
  }

  /** Nothing is filtered: a page from 0 that is long enough holds every
      cached preview. */
  lemma RankKeepsEverything(cached: seq<Preview>, limit: int)
    requires limit >= |cached|
    requires Rank(cached, limit, 0).Success?
    ensures multiset(Rank(cached, limit, 0).value) == multiset(cached)
  {
    var s := SortNewestFirst(cached);
    assert s[0..|s|] == s;
  }

  /** Two consecutive pages of the same size are the page of twice that
      size: paging neither skips nor repeats a position. */
  lemma RankPagesAdjacent(cached: seq<Preview>, limit: int, offset: int)
    requires limit >= 0 && offset >= 0
    requires Rank(cached, limit, offset).Success?
    ensures Rank(cached, limit, offset + limit).Success?
    ensures Rank(cached, 2 * limit, offset).Success?
    ensures Rank(cached, limit, offset).value + Rank(cached, limit, offset + limit).value
         == Rank(cached, 2 * limit, offset).value
  {
    var s := SortNewestFirst(cached);
    PySliceAdjacent(s, offset, limit);
  }

  /** Previews of the same date appear on the full ranked list in the order
      the cache holds them. */
  lemma RankStable(cached: seq<Preview>, d: int)
    requires Rank(cached, |cached|, 0).Success?
    ensures WithDate(Rank(cached, |cached|, 0).value, d) == WithDate(cached, d)
  {
    var s := SortNewestFirst(cached);
    assert s[0..|s|] == s;
    SortStable(cached, d);
  }

  class NewsRanker {
    const cache: NewsCache

    constructor (cache: NewsCache)
      ensures this.cache == cache
    {
      this.cache := cache;
    }

    /** `get_ranked_previews`: the cache refreshes itself exactly as
        `get_previews` does and is changed in no other way (the sort works
        on the returned copy); the result is the ranked page of what the
        cache then holds. */
    method GetRankedPreviews(reload: Reload, now: int, limit: int := DefaultLimit, offset: int := DefaultOffset)
      returns (r: Result<seq<Preview>, RankError>)
      modifies cache
      ensures cache.State() == UpdateIfNeededStep(old(cache.State()), cache.ttlSeconds, old(cache.hasSessionMaker), reload, now)
      ensures cache.hasSessionMaker == old(cache.hasSessionMaker)
      ensures r == Rank(cache.previews, limit, offset)
    {
      var all := cache.GetPreviews(reload, now);
      r := Rank(all, limit, offset);
    }
  }
}
