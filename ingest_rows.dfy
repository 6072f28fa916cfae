/** The rest of the scrape-ingest planning: which preview rows and which
    image stubs are new, which articles to insert and in which chunks, and
    how links to mark as processed are chunked. Database reads are inputs;
    the insert and update statements are the planned rows and chunks. */
module IngestRows {
  import opened Wrappers
  import opened IngestLinks

  // ---------------------------------------------------------------------
  // Chunking: `for i in range(0, len(xs), batch_size): xs[i:i + batch_size]`

  /** `range` refuses a zero step (ValueError). */
  datatype ChunkError = ZeroStep

  /** The chunks `range(0, len(xs), size)` walks: none for a negative step
      (the range is empty), chunks of `size` with a shorter last one
      otherwise. */
  function Chunks<T>(xs: seq<T>, size: int): Result<seq<seq<T>>, ChunkError>
  {
    if size == 0 then Failure(ZeroStep)
    else if size < 0 then Success([])
    else Success(ChunksOf(xs, size))
  }

  function ChunksOf<T>(xs: seq<T>, size: nat): seq<seq<T>>
    requires size > 0
    decreases |xs|
  {
    if xs == [] then []
    else if |xs| <= size then [xs]
    else [xs[..size]] + ChunksOf(xs[size..], size)
  }

  function Concat<T>(xss: seq<seq<T>>): seq<T>
  {
    if xss == [] then [] else xss[0] + Concat(xss[1..])
  }

  /** The chunks are non-empty, in order, concatenate back to the input,
      every one but the last holds exactly `size` items and the last at
      most `size`. */
  lemma {:induction false} ChunksOfSplit<T>(xs: seq<T>, size: nat)
    requires size > 0
    ensures Concat(ChunksOf(xs, size)) == xs
    ensures forall k :: 0 <= k < |ChunksOf(xs, size)| ==> 0 < |ChunksOf(xs, size)[k]| <= size
    ensures forall k :: 0 <= k < |ChunksOf(xs, size)| - 1 ==> |ChunksOf(xs, size)[k]| == size
    decreases |xs|
  {
    if xs != [] && |xs| > size {
      ChunksOfSplit(xs[size..], size);
      var rest := ChunksOf(xs[size..], size);
      assert ([xs[..size]] + rest)[1..] == rest;
      assert xs[..size] + xs[size..] == xs;
    } else if xs != [] {
      assert Concat([xs]) == xs + Concat([xs][1..]);
      assert [xs][1..] == [];
    }
  }

  /** The chunking loop. */
  method ChunkLoop<T>(xs: seq<T>, size: int) returns (r: Result<seq<seq<T>>, ChunkError>)
    ensures r == Chunks(xs, size)
  {
    if size == 0 {
      return Failure(ZeroStep);
    }
    if size < 0 {
      return Success([]);
    }
    var chunks: seq<seq<T>> := [];
    var i := 0;
    while i < |xs|
      invariant 0 <= i <= |xs| || (i >= |xs| && i - size < |xs|)
      invariant i < |xs| ==> chunks + ChunksOf(xs[i..], size) == ChunksOf(xs, size)
      invariant i >= |xs| ==> chunks == ChunksOf(xs, size)
      decreases |xs| - i
    {
      var end := if i + size < |xs| then i + size else |xs|;
      var chunk := xs[i..end];
      if i + size < |xs| {
        assert xs[i..][..size] == chunk && xs[i..][size..] == xs[i + size..];
      } else {
        assert xs[i..] == chunk;
      }
      chunks := chunks + [chunk];
      i := i + size;
    }
    return Success(chunks);
  }

  // ---------------------------------------------------------------------
  // upsert_external_articles_previews_batch

  /** The key of a stored or planned preview row, nulls read as "". */
  datatype PreviewKey = PreviewKey(linkId: int, title: string, imageLink: string)

  /** A stored preview row as the query returns it. */
  datatype StoredPreview = StoredPreview(linkId: int, title: Option<string>, imageLink: Option<string>)

  function StoredKeys(rows: seq<StoredPreview>): set<PreviewKey>
  {
    set i | 0 <= i < |rows| :: PreviewKey(rows[i].linkId, OrEmpty(rows[i].title), OrEmpty(rows[i].imageLink))
  }

  /** The key a scraped preview would be stored under, if its link is known. */
  function KeyOf(p: ScrapedPreview, linkMap: map<string, int>): Option<PreviewKey>
  {
    if Blank(p.link) || p.link.value !in linkMap then None
    else Some(PreviewKey(linkMap[p.link.value], OrEmpty(p.title), OrEmpty(p.imageLink)))
  }

  function PlannedPreviews(previews: seq<ScrapedPreview>, linkMap: map<string, int>, stored: set<PreviewKey>): seq<PreviewKey>
  {
    if previews == [] then []
    else
      var rest := PlannedPreviews(previews[..|previews| - 1], linkMap, stored);
      var key := KeyOf(previews[|previews| - 1], linkMap);
      if key.Some? && key.value !in stored then rest + [key.value] else rest
  }

  /** `upsert_external_articles_previews_batch`: the preview rows to insert
      (with empty text, unprocessed). */
  method PlanPreviewInserts(linkMap: map<string, int>, previews: seq<ScrapedPreview>, storedRows: seq<StoredPreview>)
    returns (newPreviews: seq<PreviewKey>)
    ensures newPreviews == if linkMap == map[] then [] else PlannedPreviews(previews, linkMap, StoredKeys(storedRows))
  {
    if linkMap == map[] {
      return [];
    }
    var existingSet := StoredKeys(storedRows);
    newPreviews := [];
    for i := 0 to |previews|
      invariant newPreviews == PlannedPreviews(previews[..i], linkMap, existingSet)
    {
      assert previews[..i + 1][..i] == previews[..i];
      var p := previews[i];
      if Blank(p.link) || p.link.value !in linkMap {
        continue;
      }
      var linkId := linkMap[p.link.value];
      var title := OrEmpty(p.title);
      var imageLink := OrEmpty(p.imageLink);
      if PreviewKey(linkId, title, imageLink) !in existingSet {
        newPreviews := newPreviews + [PreviewKey(linkId, title, imageLink)];
      }
    }
    assert previews[..|previews|] == previews;
  }

  /** The planned preview rows are exactly the keys of previews with a known
      link that are not stored yet, with None title and image read as "";
      previews with a missing, empty or unknown link give nothing. */
  lemma {:induction false} PlannedPreviewsExactly(previews: seq<ScrapedPreview>, linkMap: map<string, int>, stored: set<PreviewKey>)
    ensures forall key :: key in PlannedPreviews(previews, linkMap, stored) <==>
      key !in stored && exists i :: 0 <= i < |previews| && KeyOf(previews[i], linkMap) == Some(key)
  {
    if previews != [] {
      var init := previews[..|previews| - 1];
      PlannedPreviewsExactly(init, linkMap, stored);
      forall key ensures key in PlannedPreviews(previews, linkMap, stored) <==>
        key !in stored && exists i :: 0 <= i < |previews| && KeyOf(previews[i], linkMap) == Some(key)
      {
        if exists i :: 0 <= i < |previews| && KeyOf(previews[i], linkMap) == Some(key) {
          var i :| 0 <= i < |previews| && KeyOf(previews[i], linkMap) == Some(key);
          if i < |init| { assert init[i] == previews[i]; }
        }
        if exists i :: 0 <= i < |init| && KeyOf(init[i], linkMap) == Some(key) {
          var i :| 0 <= i < |init| && KeyOf(init[i], linkMap) == Some(key);
          assert previews[i] == init[i];
        }
      }
    }
  }

  // ---------------------------------------------------------------------
  // upsert_visual_content_batch

  /** The distinct non-empty image links of the previews. */
  function ImageLinks(previews: seq<ScrapedPreview>): set<string>
  {
    set i | 0 <= i < |previews| && !Blank(previews[i].imageLink) :: previews[i].imageLink.value
  }

  /** `upsert_visual_content_batch`: the image links that get a stub row
      (no data yet), given the links the table already holds. */
  function VisualStubs(previews: seq<ScrapedPreview>, storedLinks: set<string>): (r: set<string>)
    ensures forall l :: l in r <==>
      l != "" && l !in storedLinks && exists i :: 0 <= i < |previews| && previews[i].imageLink == Some(l)
  {
    var links := ImageLinks(previews);
    if links == {} then {}
    else
      var existingSet := storedLinks * links;
      set l | l in links && l !in existingSet
  }

  // ---------------------------------------------------------------------
  // upsert_external_articles_batch

  datatype ScrapedArticle = ScrapedArticle(link: Option<string>, title: Option<string>, text: Option<string>)

  /** A planned article row (unprocessed). */
  datatype ArticleRow = ArticleRow(linkId: int, title: string, text: string)

  /** Whether an article is planned, given the link ids of the source and
      the link ids that already have an article. */
  predicate Planned(a: ScrapedArticle, linkIds: map<string, int>, withArticle: set<int>)
  {
    !Blank(a.link) && a.link.value in linkIds && linkIds[a.link.value] !in withArticle
  }

  function PlannedArticles(articles: seq<ScrapedArticle>, linkIds: map<string, int>, withArticle: set<int>): seq<ArticleRow>
  {
    if articles == [] then []
    else
      var rest := PlannedArticles(articles[..|articles| - 1], linkIds, withArticle);
      var a := articles[|articles| - 1];
      if Planned(a, linkIds, withArticle) then
        rest + [ArticleRow(linkIds[a.link.value], OrEmpty(a.title), OrEmpty(a.text))]
      else rest
  }

  /** The link id map the article planner works with: the source's links
      restricted to the links the articles name. */
  function KnownLinkIds(articles: seq<ScrapedArticle>, sourceLinks: map<string, int>): map<string, int>
  {
    var named := set i | 0 <= i < |articles| && !Blank(articles[i].link) :: articles[i].link.value;
    map l | l in sourceLinks && l in named :: sourceLinks[l]
  }

  /** `upsert_external_articles_batch`: the chunks of article rows to insert.
      No articles, or none with a link, returns before anything else. */
  method PlanArticleInserts(articles: seq<ScrapedArticle>, sourceLinks: map<string, int>,
                            withArticle: set<int>, batchSize: int)
    returns (r: Result<seq<seq<ArticleRow>>, ChunkError>)
    ensures (forall i :: 0 <= i < |articles| ==> Blank(articles[i].link)) ==> r == Success([])
    ensures (exists i :: 0 <= i < |articles| && !Blank(articles[i].link)) ==>
      r == Chunks(PlannedArticles(articles, KnownLinkIds(articles, sourceLinks), withArticle), batchSize)
  {
    if articles == [] {
      return Success([]);
    }
    var links: seq<string> := [];
    for i := 0 to |articles|
      invariant forall l :: l in links <==> exists j :: 0 <= j < i && !Blank(articles[j].link) && articles[j].link.value == l
      invariant links == [] <==> forall j :: 0 <= j < i ==> Blank(articles[j].link)
    {
      if !Blank(articles[i].link) {
        links := links + [articles[i].link.value];
      }
    }
    if links == [] {
      return Success([]);
    }
    assert links[0] in links;
    var linkIdMap := map l | l in sourceLinks && l in links :: sourceLinks[l];
    assert linkIdMap == KnownLinkIds(articles, sourceLinks);
    var newArticles: seq<ArticleRow> := [];
    for i := 0 to |articles|
      invariant newArticles == PlannedArticles(articles[..i], linkIdMap, withArticle)
    {
      assert articles[..i + 1][..i] == articles[..i];
      var a := articles[i];
      if Blank(a.link) || a.link.value !in linkIdMap {
        continue;
      }
      var linkId := linkIdMap[a.link.value];
      if linkId !in withArticle {
        newArticles := newArticles + [ArticleRow(linkId, OrEmpty(a.title), OrEmpty(a.text))];
      }
    }
    assert articles[..|articles|] == articles;
    r := ChunkLoop(newArticles, batchSize);
  }

  /** An article row is planned exactly for the articles whose link is one
      of the source's links and has no stored article yet, in input order. */
  lemma {:induction false} PlannedArticlesExactly(articles: seq<ScrapedArticle>, sourceLinks: map<string, int>, withArticle: set<int>)
    ensures var linkIds := KnownLinkIds(articles, sourceLinks);
      forall row :: row in PlannedArticles(articles, linkIds, withArticle) <==>
        exists i :: 0 <= i < |articles| && !Blank(articles[i].link) && articles[i].link.value in sourceLinks &&
          sourceLinks[articles[i].link.value] !in withArticle &&
          row == ArticleRow(sourceLinks[articles[i].link.value], OrEmpty(articles[i].title), OrEmpty(articles[i].text))
  {
    var linkIds := KnownLinkIds(articles, sourceLinks);
    forall i | 0 <= i < |articles| ensures Planned(articles[i], linkIds, withArticle) <==>
      !Blank(articles[i].link) && articles[i].link.value in sourceLinks && sourceLinks[articles[i].link.value] !in withArticle
    {
    }
    PlannedArticlesMembers(articles, linkIds, withArticle);
  }

  lemma {:induction false} PlannedArticlesMembers(articles: seq<ScrapedArticle>, linkIds: map<string, int>, withArticle: set<int>)
    ensures forall row :: row in PlannedArticles(articles, linkIds, withArticle) <==>
      exists i :: 0 <= i < |articles| && Planned(articles[i], linkIds, withArticle) &&
        row == ArticleRow(linkIds[articles[i].link.value], OrEmpty(articles[i].title), OrEmpty(articles[i].text))
  {
    if articles != [] {
      var init := articles[..|articles| - 1];
      PlannedArticlesMembers(init, linkIds, withArticle);
      forall row ensures row in PlannedArticles(articles, linkIds, withArticle) <==>
        exists i :: 0 <= i < |articles| && Planned(articles[i], linkIds, withArticle) &&
          row == ArticleRow(linkIds[articles[i].link.value], OrEmpty(articles[i].title), OrEmpty(articles[i].text))
      {
        if exists i :: 0 <= i < |articles| && Planned(articles[i], linkIds, withArticle) &&
             row == ArticleRow(linkIds[articles[i].link.value], OrEmpty(articles[i].title), OrEmpty(articles[i].text)) {
          var i :| 0 <= i < |articles| && Planned(articles[i], linkIds, withArticle) &&
             row == ArticleRow(linkIds[articles[i].link.value], OrEmpty(articles[i].title), OrEmpty(articles[i].text));
          if i < |init| { assert init[i] == articles[i]; }
        }
        if exists i :: 0 <= i < |init| && Planned(init[i], linkIds, withArticle) &&
             row == ArticleRow(linkIds[init[i].link.value], OrEmpty(init[i].title), OrEmpty(init[i].text)) {
          var i :| 0 <= i < |init| && Planned(init[i], linkIds, withArticle) &&
             row == ArticleRow(linkIds[init[i].link.value], OrEmpty(init[i].title), OrEmpty(init[i].text));
          assert articles[i] == init[i];
        }
      }
    }
  }

  // ---------------------------------------------------------------------
  // mark_links_processed_batch

  /** `mark_links_processed_batch`: the chunks of links whose rows are
      marked processed. An empty list returns before the range is built, so
      it is not an error even with a zero batch size. */
  method MarkLinksProcessed(links: seq<string>, batchSize: int) returns (r: Result<seq<seq<string>>, ChunkError>)
    ensures links == [] ==> r == Success([])
    ensures links != [] ==> r == Chunks(links, batchSize)
  {
    if links == [] {
      return Success([]);
    }
    r := ChunkLoop(links, batchSize);
  }
}
