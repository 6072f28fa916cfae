/** The in-memory planning of `upsert_external_articles_links_batch`: given
    the scraped previews, the links already stored for the source (with their
    `;`-joined category codes) and the category table, decide which links to
    insert, which to touch, whose category rows to clear, which category rows
    to write, and which id each link ends up with. The database is outside
    the model: its rows are inputs, and the ids the flush gives the new link
    objects are the function `idOf` (position in the insert list to id). */
module IngestLinks {
  import opened Wrappers
  import opened PyStr
  import opened CommonUtils

  /** One scraped preview as a dict; a key that is absent reads as None. */
  datatype ScrapedPreview = ScrapedPreview(
    link: Option<string>, title: Option<string>, imageLink: Option<string>,
    categoryText: Option<string>)

  /** `not x` for an optional string: missing or empty. */
  predicate Blank(s: Option<string>)
  {
    s.None? || s.value == ""
  }

  /** `x or ""`. */
  function OrEmpty(s: Option<string>): string
  {
    s.GetOr("")
  }

  /** A stored link as `load_existing_links_for_source` returns it. */
  datatype StoredLink = StoredLink(id: int, categories: string)

  /** One row of the category table. */
  datatype CategoryRow = CategoryRow(code: string, id: int)

  /** `{row.code: row.id for row in categories if row.code}`: later rows
      win on a repeated code. */
  function CategoryMap(rows: seq<CategoryRow>): (m: map<string, int>)
    ensures "" !in m
    ensures forall c :: c in m <==> c != "" && exists i :: 0 <= i < |rows| && rows[i].code == c
  {
    if rows == [] then map[]
    else
      var m := CategoryMap(rows[..|rows| - 1]);
      var last := rows[|rows| - 1];
      if last.code == "" then m else m[last.code := last.id]
  }

  /** A category association row being planned. A row for a link that is
      not inserted yet has no link id but remembers the link (`_link`). */
  datatype PendingCategory = PendingCategory(linkId: Option<int>, categoryId: int, pendingLink: Option<string>)

  /** The ids of the codes among `codes` that the category table knows. */
  function CodeIds(codes: seq<string>, categoryMap: map<string, int>): set<int>
  {
    set c | c in codes && c in categoryMap :: categoryMap[c]
  }

  /** The inner loop over codes: one row per code the category table knows. */
  function CategoryRowsFor(codes: seq<string>, categoryMap: map<string, int>,
                           linkId: Option<int>, pendingLink: Option<string>): (r: seq<PendingCategory>)
    ensures |r| <= |codes|
    ensures forall k :: 0 <= k < |r| ==>
      r[k].linkId == linkId && r[k].pendingLink == pendingLink && r[k].categoryId in CodeIds(codes, categoryMap)
    ensures forall c :: c in codes && c in categoryMap ==>
      exists k :: 0 <= k < |r| && r[k].categoryId == categoryMap[c]
  {
    if codes == [] then []
    else
      var init, last := codes[..|codes| - 1], codes[|codes| - 1];
      assert codes == init + [last];
      var rows := CategoryRowsFor(init, categoryMap, linkId, pendingLink);
      assert CodeIds(init, categoryMap) <= CodeIds(codes, categoryMap);
      if last in categoryMap then
        var r := rows + [PendingCategory(linkId, categoryMap[last], pendingLink)];
        assert r[|r| - 1].categoryId in CodeIds(codes, categoryMap);
        assert forall k :: 0 <= k < |rows| ==> r[k] == rows[k];
        r
      else rows
  }

  method CollectCategoryRows(codes: seq<string>, categoryMap: map<string, int>,
                             linkId: Option<int>, pendingLink: Option<string>)
    returns (rows: seq<PendingCategory>)
    ensures rows == CategoryRowsFor(codes, categoryMap, linkId, pendingLink)
  {
    rows := [];
    for i := 0 to |codes|
      invariant rows == CategoryRowsFor(codes[..i], categoryMap, linkId, pendingLink)
    {
      assert codes[..i + 1][..i] == codes[..i];
      if codes[i] in categoryMap {
        rows := rows + [PendingCategory(linkId, categoryMap[codes[i]], pendingLink)];
      }
    }
    assert codes[..|codes|] == codes;
  }

  /** The lists the planning loop builds, and `result_map` (None for a link
      whose insert is still pending). */
  datatype LinkPlan = LinkPlan(
    newLinks: seq<string>, toUpdate: seq<int>, toClear: seq<int>,
    categories: seq<PendingCategory>, resultMap: map<string, Option<int>>)

  /** One pass of the planning loop. */
  function PlanStep(plan: LinkPlan, p: ScrapedPreview, existing: map<string, StoredLink>,
                    categoryMap: map<string, int>): LinkPlan
  {
    if Blank(p.link) then plan
    else
      var link := p.link.value;
      var newCats := OrEmpty(p.categoryText);
      if link in existing then
        var stored := existing[link];
        var merged := UnifyStrValues(stored.categories, newCats, ';');
        var plan' :=
          if merged != stored.categories then
            plan.(toUpdate := plan.toUpdate + [stored.id],
                  toClear := plan.toClear + [stored.id],
                  categories := plan.categories + CategoryRowsFor(Split(merged, ';'), categoryMap, Some(stored.id), None))
          else plan;
        plan'.(resultMap := plan'.resultMap[link := Some(stored.id)])
      else
        plan.(newLinks := plan.newLinks + [link],
              resultMap := plan.resultMap[link := None],
              categories := plan.categories + CategoryRowsFor(Split(newCats, ';'), categoryMap, None, Some(link)))
  }

  function PlannedLinks(previews: seq<ScrapedPreview>, existing: map<string, StoredLink>,
                        categoryMap: map<string, int>): LinkPlan
  {
    if previews == [] then LinkPlan([], [], [], [], map[])
    else PlanStep(PlannedLinks(previews[..|previews| - 1], existing, categoryMap),
                  previews[|previews| - 1], existing, categoryMap)
  }

  /** The planning loop (lines 119-158). */
  method PlanLinks(previews: seq<ScrapedPreview>, existing: map<string, StoredLink>,
                   categoryMap: map<string, int>) returns (plan: LinkPlan)
    ensures plan == PlannedLinks(previews, existing, categoryMap)
  {
    var newLinks: seq<string> := [];
    var linksToUpdate: seq<int> := [];
    var categoriesToInsert: seq<PendingCategory> := [];
    var linkIdsToClear: seq<int> := [];
    var resultMap: map<string, Option<int>> := map[];
    for i := 0 to |previews|
      invariant LinkPlan(newLinks, linksToUpdate, linkIdsToClear, categoriesToInsert, resultMap)
             == PlannedLinks(previews[..i], existing, categoryMap)
    {
      assert previews[..i + 1][..i] == previews[..i];
      var p := previews[i];
      if Blank(p.link) {
        continue;
      }
      var link := p.link.value;
      var newCats := OrEmpty(p.categoryText);
      if link in existing {
        var linkId := existing[link].id;
        var oldCats := existing[link].categories;
        var mergedCats := UnifyStrValues(oldCats, newCats, ';');
        if mergedCats != oldCats {
          linksToUpdate := linksToUpdate + [linkId];
          linkIdsToClear := linkIdsToClear + [linkId];
          var rows := CollectCategoryRows(Split(mergedCats, ';'), categoryMap, Some(linkId), None);
          categoriesToInsert := categoriesToInsert + rows;
        }
        resultMap := resultMap[link := Some(linkId)];
      } else {
        newLinks := newLinks + [link];
        resultMap := resultMap[link := None];
        var rows := CollectCategoryRows(Split(newCats, ';'), categoryMap, None, Some(link));
        categoriesToInsert := categoriesToInsert + rows;
      }
    }
    assert previews[..|previews|] == previews;
    plan := LinkPlan(newLinks, linksToUpdate, linkIdsToClear, categoriesToInsert, resultMap);
  }

  // ---------------------------------------------------------------------
  // After the flush

  /** Gives every row still waiting for `link` the id `id` and forgets the
      link. */
  function PatchRows(cats: seq<PendingCategory>, link: string, id: int): (r: seq<PendingCategory>)
    ensures |r| == |cats|
  {
    seq(|cats|, k requires 0 <= k < |cats| =>
      if cats[k].pendingLink == Some(link) then PendingCategory(Some(id), cats[k].categoryId, None) else cats[k])
  }

  /** The category rows after the first `j` new link objects were patched. */
  function Patched(cats: seq<PendingCategory>, newLinks: seq<string>, idOf: nat -> int, j: nat): (r: seq<PendingCategory>)
    requires j <= |newLinks|
    ensures |r| == |cats|
  {
    if j == 0 then cats
    else PatchRows(Patched(cats, newLinks, idOf, j - 1), newLinks[j - 1], idOf(j - 1))
  }

  /** `result_map` after the first `j` new link objects wrote their ids. */
  function Flushed(m: map<string, Option<int>>, newLinks: seq<string>, idOf: nat -> int, j: nat): map<string, Option<int>>
    requires j <= |newLinks|
  {
    if j == 0 then m
    else Flushed(m, newLinks, idOf, j - 1)[newLinks[j - 1] := Some(idOf(j - 1))]
  }

  /** The loop over flushed link objects (lines 164-170). */
  method PatchFlushedIds(newLinks: seq<string>, idOf: nat -> int,
                         cats0: seq<PendingCategory>, map0: map<string, Option<int>>)
    returns (cats: seq<PendingCategory>, resultMap: map<string, Option<int>>)
    ensures cats == Patched(cats0, newLinks, idOf, |newLinks|)
    ensures resultMap == Flushed(map0, newLinks, idOf, |newLinks|)
  {
    cats, resultMap := cats0, map0;
    for j := 0 to |newLinks|
      invariant cats == Patched(cats0, newLinks, idOf, j)
      invariant resultMap == Flushed(map0, newLinks, idOf, j)
    {
      var link, id := newLinks[j], idOf(j);
      resultMap := resultMap[link := Some(id)];
      ghost var before := cats;
      for k := 0 to |cats|
        invariant |cats| == |before|
        invariant forall q :: 0 <= q < k ==> cats[q] == PatchRows(before, link, id)[q]
        invariant forall q :: k <= q < |cats| ==> cats[q] == before[q]
      {
        if cats[k].pendingLink == Some(link) {
          cats := cats[k := PendingCategory(Some(id), cats[k].categoryId, None)];
        }
      }
      assert cats == PatchRows(before, link, id);
    }
  }

  /** The rows that are saved: those that have a link id. */
  function SavedRows(cats: seq<PendingCategory>): seq<(int, int)>
  {
    if cats == [] then []
    else
      var rest := SavedRows(cats[..|cats| - 1]);
      var c := cats[|cats| - 1];
      if c.linkId.Some? then rest + [(c.linkId.value, c.categoryId)] else rest
  }

  /** `{k: v for k, v in result_map.items() if v is not None}`. */
  function FinalMap(m: map<string, Option<int>>): map<string, int>
  {
    map k | k in m && m[k].Some? :: m[k].value
  }

  /** What `upsert_external_articles_links_batch` sends to the database and
      returns. */
  datatype LinkUpsert = LinkUpsert(
    inserted: seq<string>, cleared: seq<int>, savedCategories: seq<(int, int)>,
    touched: seq<int>, linkMap: map<string, int>)

  function LinkUpsertOf(previews: seq<ScrapedPreview>, existing: map<string, StoredLink>,
                        categoryRows: seq<CategoryRow>, idOf: nat -> int): LinkUpsert
  {
    var plan := PlannedLinks(previews, existing, CategoryMap(categoryRows));
    var n := |plan.newLinks|;
    LinkUpsert(plan.newLinks, plan.toClear,
               SavedRows(Patched(plan.categories, plan.newLinks, idOf, n)),
               plan.toUpdate, FinalMap(Flushed(plan.resultMap, plan.newLinks, idOf, n)))
  }

  /** `upsert_external_articles_links_batch`. */
  method UpsertLinksBatch(previews: seq<ScrapedPreview>, existing: map<string, StoredLink>,
                          categoryRows: seq<CategoryRow>, idOf: nat -> int)
    returns (out: LinkUpsert)
    ensures out == LinkUpsertOf(previews, existing, categoryRows, idOf)
  {
    var categoryMap := CategoryMap(categoryRows);
    var plan := PlanLinks(previews, existing, categoryMap);
    var cats, resultMap := plan.categories, plan.resultMap;
    if plan.newLinks != [] {
      cats, resultMap := PatchFlushedIds(plan.newLinks, idOf, cats, resultMap);
    }
    var saved: seq<(int, int)> := [];
    for k := 0 to |cats|
      invariant saved == SavedRows(cats[..k])
    {
      assert cats[..k + 1][..k] == cats[..k];
      if cats[k].linkId.Some? {
        saved := saved + [(cats[k].linkId.value, cats[k].categoryId)];
      }
    }
    assert cats[..|cats|] == cats;
    out := LinkUpsert(plan.newLinks, plan.toClear, saved, plan.toUpdate, FinalMap(resultMap));
  }

  // ---------------------------------------------------------------------
  // What the plan promises

  /** The links of the previews that are not skipped. */
  function LinksOf(previews: seq<ScrapedPreview>): set<string>
  {
    set i | 0 <= i < |previews| && !Blank(previews[i].link) :: previews[i].link.value
  }

  /** A preview whose merged categories differ from the stored ones. */
  predicate Refreshes(p: ScrapedPreview, existing: map<string, StoredLink>)
  {
    !Blank(p.link) && p.link.value in existing &&
    UnifyStrValues(existing[p.link.value].categories, OrEmpty(p.categoryText), ';') != existing[p.link.value].categories
  }

  /** What the planning loop keeps true of `result_map` and the insert
      list. */
  ghost predicate MapShape(plan: LinkPlan, previews: seq<ScrapedPreview>, existing: map<string, StoredLink>)
  {
    && plan.resultMap.Keys == LinksOf(previews)
    && (forall l :: l in plan.resultMap && l in existing ==> plan.resultMap[l] == Some(existing[l].id))
    && (forall l :: l in plan.resultMap && l !in existing ==> plan.resultMap[l] == None)
    && (forall j :: 0 <= j < |plan.newLinks| ==> plan.newLinks[j] !in existing && plan.newLinks[j] in LinksOf(previews))
    && (forall l :: l in LinksOf(previews) && l !in existing ==> l in plan.newLinks)
  }

  /** What the planning loop keeps true of the touch and clear lists. */
  ghost predicate UpdateShape(plan: LinkPlan, previews: seq<ScrapedPreview>, existing: map<string, StoredLink>)
  {
    && plan.toUpdate == plan.toClear
    && (forall x :: x in plan.toUpdate <==>
          exists i :: 0 <= i < |previews| && Refreshes(previews[i], existing) && existing[previews[i].link.value].id == x)
  }

  /** What the planning loop keeps true of the category rows. */
  ghost predicate CategoryShape(plan: LinkPlan, categoryMap: map<string, int>)
  {
    forall k :: 0 <= k < |plan.categories| ==>
      plan.categories[k].categoryId in categoryMap.Values &&
      (plan.categories[k].linkId.None? <==> plan.categories[k].pendingLink.Some?) &&
      (plan.categories[k].pendingLink.Some? ==> plan.categories[k].pendingLink.value in plan.newLinks)
  }

  lemma LinksOfSnoc(previews: seq<ScrapedPreview>, p: ScrapedPreview)
    ensures LinksOf(previews + [p]) == LinksOf(previews) + (if Blank(p.link) then {} else {p.link.value})
  {
    var s := previews + [p];
    forall l | l in LinksOf(s) ensures l in LinksOf(previews) || (!Blank(p.link) && l == p.link.value) {
      var i :| 0 <= i < |s| && !Blank(s[i].link) && s[i].link.value == l;
      if i < |previews| { assert s[i] == previews[i]; }
    }
    forall l | l in LinksOf(previews) ensures l in LinksOf(s) {
      var i :| 0 <= i < |previews| && !Blank(previews[i].link) && previews[i].link.value == l;
      assert s[i] == previews[i];
    }
    if !Blank(p.link) {
      assert s[|previews|] == p;
    }
  }

  lemma CodeIdsInMap(codes: seq<string>, categoryMap: map<string, int>)
    ensures CodeIds(codes, categoryMap) <= categoryMap.Values
  {
    forall x | x in CodeIds(codes, categoryMap) ensures x in categoryMap.Values {
      var c :| c in codes && c in categoryMap && categoryMap[c] == x;
    }
  }

  lemma {:induction false} PlannedMapShape(previews: seq<ScrapedPreview>, existing: map<string, StoredLink>,
                                           categoryMap: map<string, int>)
    ensures MapShape(PlannedLinks(previews, existing, categoryMap), previews, existing)
  {
    if previews != [] {
      var init, p := previews[..|previews| - 1], previews[|previews| - 1];
      assert previews == init + [p];
      PlannedMapShape(init, existing, categoryMap);
      LinksOfSnoc(init, p);
    }
  }

  lemma {:induction false} PlannedUpdateShape(previews: seq<ScrapedPreview>, existing: map<string, StoredLink>,
                                              categoryMap: map<string, int>)
    ensures UpdateShape(PlannedLinks(previews, existing, categoryMap), previews, existing)
  {
    if previews != [] {
      var init, p := previews[..|previews| - 1], previews[|previews| - 1];
      assert previews == init + [p];
      PlannedUpdateShape(init, existing, categoryMap);
      var before := PlannedLinks(init, existing, categoryMap);
      var after := PlannedLinks(previews, existing, categoryMap);
      assert after.toUpdate == before.toUpdate + (if Refreshes(p, existing) then [existing[p.link.value].id] else []);
      forall x ensures x in after.toUpdate <==>
        exists i :: 0 <= i < |previews| && Refreshes(previews[i], existing) && existing[previews[i].link.value].id == x
      {
        if x in before.toUpdate {
          var i :| 0 <= i < |init| && Refreshes(init[i], existing) && existing[init[i].link.value].id == x;
          assert previews[i] == init[i];
        } else if x in after.toUpdate {
          assert previews[|previews| - 1] == p;
        }
        if exists i :: 0 <= i < |previews| && Refreshes(previews[i], existing) && existing[previews[i].link.value].id == x {
          var i :| 0 <= i < |previews| && Refreshes(previews[i], existing) && existing[previews[i].link.value].id == x;
          if i < |init| {
            assert init[i] == previews[i];
          }
        }
      }
    }
  }

  lemma {:induction false} PlannedCategoryShape(previews: seq<ScrapedPreview>, existing: map<string, StoredLink>,
                                                categoryMap: map<string, int>)
    ensures CategoryShape(PlannedLinks(previews, existing, categoryMap), categoryMap)
  {
    if previews != [] {
      var init, p := previews[..|previews| - 1], previews[|previews| - 1];
      PlannedCategoryShape(init, existing, categoryMap);
      if !Blank(p.link) {
        var link := p.link.value;
        if link in existing {
          var stored := existing[link];
          var merged := UnifyStrValues(stored.categories, OrEmpty(p.categoryText), ';');
          CodeIdsInMap(Split(merged, ';'), categoryMap);
        } else {
          CodeIdsInMap(Split(OrEmpty(p.categoryText), ';'), categoryMap);
        }
      }
    }
  }

  /** One patched row: a row that did not wait for a link is unchanged; a row
      waiting for a link gets the id of a flushed object holding that link
      once one has been patched, and is unchanged before. */
  lemma {:induction false} PatchedRow(cats: seq<PendingCategory>, newLinks: seq<string>, idOf: nat -> int, j: nat, k: nat)
    requires j <= |newLinks| && k < |cats|
    ensures var c, r := cats[k], Patched(cats, newLinks, idOf, j)[k];
      && r.categoryId == c.categoryId
      && (c.pendingLink.None? ==> r == c)
      && (c.pendingLink.Some? && c.pendingLink.value !in newLinks[..j] ==> r == c)
      && (c.pendingLink.Some? && c.pendingLink.value in newLinks[..j] ==>
            r.pendingLink.None? && exists q :: 0 <= q < j && newLinks[q] == c.pendingLink.value && r.linkId == Some(idOf(q)))
  {
    if j > 0 {
      PatchedRow(cats, newLinks, idOf, j - 1, k);
      assert newLinks[..j] == newLinks[..j - 1] + [newLinks[j - 1]];
    }
  }

  /** One entry of the flushed map: a link among the first `j` new links
      holds the id of its last flushed object; any other entry is as
      planned. */
  lemma {:induction false} FlushedEntry(m: map<string, Option<int>>, newLinks: seq<string>, idOf: nat -> int, j: nat, l: string)
    requires j <= |newLinks|
    ensures var f := Flushed(m, newLinks, idOf, j);
      && (l !in newLinks[..j] ==> (l in f <==> l in m) && (l in m ==> f[l] == m[l]))
      && (l in newLinks[..j] ==>
            l in f &&
            exists q :: 0 <= q < j && newLinks[q] == l && f[l] == Some(idOf(q)) &&
              forall q' :: q < q' < j ==> newLinks[q'] != l)
  {
    if j > 0 {
      FlushedEntry(m, newLinks, idOf, j - 1, l);
      assert newLinks[..j] == newLinks[..j - 1] + [newLinks[j - 1]];
      if l != newLinks[j - 1] && l in newLinks[..j] {
        var f := Flushed(m, newLinks, idOf, j - 1);
        var q :| 0 <= q < j - 1 && newLinks[q] == l && f[l] == Some(idOf(q)) && forall q' :: q < q' < j - 1 ==> newLinks[q'] != l;
        assert forall q' :: q < q' < j ==> newLinks[q'] != l;
      }
    }
  }

  lemma {:induction false} SavedRowsAll(cats: seq<PendingCategory>)
    requires forall k :: 0 <= k < |cats| ==> cats[k].linkId.Some?
    ensures |SavedRows(cats)| == |cats|
    ensures forall k :: 0 <= k < |cats| ==> SavedRows(cats)[k] == (cats[k].linkId.value, cats[k].categoryId)
  {
    if cats != [] {
      SavedRowsAll(cats[..|cats| - 1]);
    }
  }

  /** The returned map has exactly the previews' non-skipped links as keys;
      an already-stored link keeps its stored id; a new link gets the id of
      the last flushed object created for it. */
  lemma UpsertLinksMap(previews: seq<ScrapedPreview>, existing: map<string, StoredLink>,
                       categoryRows: seq<CategoryRow>, idOf: nat -> int)
    ensures var out := LinkUpsertOf(previews, existing, categoryRows, idOf);
      && out.linkMap.Keys == LinksOf(previews)
      && (forall l :: l in out.linkMap && l in existing ==> out.linkMap[l] == existing[l].id)
      && (forall l :: l in out.linkMap && l !in existing ==>
            exists q :: 0 <= q < |out.inserted| && out.inserted[q] == l && out.linkMap[l] == idOf(q) &&
                        forall q' :: q < q' < |out.inserted| ==> out.inserted[q'] != l)
  {
    var categoryMap := CategoryMap(categoryRows);
    var plan := PlannedLinks(previews, existing, categoryMap);
    PlannedMapShape(previews, existing, categoryMap);
    var n := |plan.newLinks|;
    assert plan.newLinks[..n] == plan.newLinks;
    var f := Flushed(plan.resultMap, plan.newLinks, idOf, n);
    forall l ensures (l in f && f[l].Some?) <==> l in LinksOf(previews) {
      FlushedEntry(plan.resultMap, plan.newLinks, idOf, n, l);
    }
    forall l | l in f && f[l].Some? && l in existing ensures f[l] == Some(existing[l].id) {
      FlushedEntry(plan.resultMap, plan.newLinks, idOf, n, l);
    }
    forall l | l in f && f[l].Some? && l !in existing
      ensures exists q :: 0 <= q < n && plan.newLinks[q] == l && f[l] == Some(idOf(q)) &&
                          forall q' :: q < q' < n ==> plan.newLinks[q'] != l
    {
      FlushedEntry(plan.resultMap, plan.newLinks, idOf, n, l);
    }
  }

  /** Only links that are not stored yet are inserted, and every such link
      of a non-skipped preview is. */
  lemma UpsertLinksInserts(previews: seq<ScrapedPreview>, existing: map<string, StoredLink>,
                           categoryRows: seq<CategoryRow>, idOf: nat -> int)
    ensures var out := LinkUpsertOf(previews, existing, categoryRows, idOf);
      forall l :: l in out.inserted <==> l in LinksOf(previews) && l !in existing
  {
    PlannedMapShape(previews, existing, CategoryMap(categoryRows));
  }

  /** A stored link is touched and has its category rows cleared exactly
      when some preview of it brings categories that change its merged
      list. */
  lemma UpsertLinksRefreshes(previews: seq<ScrapedPreview>, existing: map<string, StoredLink>,
                             categoryRows: seq<CategoryRow>, idOf: nat -> int)
    ensures var out := LinkUpsertOf(previews, existing, categoryRows, idOf);
      && out.touched == out.cleared
      && forall x :: x in out.touched <==>
           exists i :: 0 <= i < |previews| && Refreshes(previews[i], existing) && existing[previews[i].link.value].id == x
  {
    PlannedUpdateShape(previews, existing, CategoryMap(categoryRows));
  }

  /** Every planned category row is saved, with a link id, for a category
      the table knows; none is dropped for lack of a link id. */
  lemma UpsertLinksCategories(previews: seq<ScrapedPreview>, existing: map<string, StoredLink>,
                              categoryRows: seq<CategoryRow>, idOf: nat -> int)
    ensures var out := LinkUpsertOf(previews, existing, categoryRows, idOf);
      && |out.savedCategories| == |PlannedLinks(previews, existing, CategoryMap(categoryRows)).categories|
      && forall k :: 0 <= k < |out.savedCategories| ==> out.savedCategories[k].1 in CategoryMap(categoryRows).Values
  {
    var categoryMap := CategoryMap(categoryRows);
    var plan := PlannedLinks(previews, existing, categoryMap);
    PlannedCategoryShape(previews, existing, categoryMap);
    var n := |plan.newLinks|;
    assert plan.newLinks[..n] == plan.newLinks;
    var cats := Patched(plan.categories, plan.newLinks, idOf, n);
    forall k | 0 <= k < |cats| ensures cats[k].linkId.Some? && cats[k].categoryId in categoryMap.Values {
      PatchedRow(plan.categories, plan.newLinks, idOf, n, k);
    }
    SavedRowsAll(cats);
  }
}
