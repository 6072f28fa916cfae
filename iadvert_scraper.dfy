/** Post-processing of the iadvert scraper (scrapper/iadvert_scraper.py):
    building a category page URL, rewriting item links to the "general"
    category, grouping scraped items by (link, image, title) with their
    category sets unioned, and the final re-merge across categories. The
    browser is outside the model: the page's item elements are an input,
    and the driver comes from the standalone scraper's lazy pool. A Python
    set of category codes is a strictly sorted sequence, as `sorted(set)`
    would list it. */
module IAdvertScraper {
  import opened Wrappers
  import opened PyStr
  import opened StrOrder
  import LazyDriverPool

  // ---------------------------------------------------------------------
  // URLs

  /** The page URL of a category: `https://` + domain (with a '/' added
      when it does not already end in one) + category slug. */
  function CategoryUrl(domain: string, categorySlug: string): (url: string)
    ensures var d := if |domain| > 0 && domain[|domain| - 1] == '/' then |domain| else |domain| + 1;
      |url| == 8 + d + |categorySlug| &&
      url[..8] == "https://" && url[8..8 + |domain|] == domain && url[8 + d - 1] == '/' &&
      url[8 + d..] == categorySlug
  {
    var withSlash := if |domain| > 0 && domain[|domain| - 1] == '/' then domain else domain + "/";
    "https://" + withSlash + categorySlug
  }

  /** Why collecting items stops: `href` was None, the link had fewer than
      four '/'-segments, or an element lacked its image, category or title. */
  datatype ScrapeError = NoHref | ShortLink | MissingPart

  /** `'/'.join(parts with parts[3] = 'general') + "full/"`. */
  function RewriteLink(href: string): Result<string, ScrapeError>
  {
    var parts := Split(href, '/');
    if |parts| < 4 then Failure(ShortLink)
    else Success(Join(parts[3 := "general"], '/') + "full/")
  }

  /** The rewrite fails exactly when the link has fewer than three '/';
      otherwise the result ends in "full/", and before that it has the same
      segments as the link except that segment 3 is "general". */
  lemma RewriteLinkSegments(href: string)
    ensures RewriteLink(href).Failure? <==> |Split(href, '/')| < 4
    ensures RewriteLink(href).Success? ==>
      var r := RewriteLink(href).value;
      var parts := Split(href, '/');
      |r| >= 5 && r[|r| - 5..] == "full/" &&
      Split(r[..|r| - 5], '/') == parts[3 := "general"] &&
      forall k :: 0 <= k < |parts| && k != 3 ==> Split(r[..|r| - 5], '/')[k] == parts[k]
  {
    var parts := Split(href, '/');
    if |parts| >= 4 {
      var patched := parts[3 := "general"];
      var joined := Join(patched, '/');
      var r := joined + "full/";
      assert r[..|r| - 5] == joined;
      SplitJoin(patched, '/');
    }
  }

  // ---------------------------------------------------------------------
  // Category slugs

  /** `{v: k for k, v in CATEGORIES.items()}` over the (slug, name) items in
      order: a name maps to the last slug listed with it. */
  function SlugsByName(categories: seq<(string, string)>): (m: map<string, string>)
    ensures forall name :: name in m <==> exists i :: 0 <= i < |categories| && categories[i].1 == name
    ensures forall name :: name in m ==> exists i :: 0 <= i < |categories| && categories[i] == (m[name], name)
  {
    if categories == [] then map[]
    else
      var init := categories[..|categories| - 1];
      var m := SlugsByName(init);
      var (slug, name) := categories[|categories| - 1];
      assert forall i :: 0 <= i < |init| ==> init[i] == categories[i];
      m[name := slug]
  }

  /** The category code recorded for an item: the slug of its stripped
      category text, or "other". */
  function SlugFor(slugs: map<string, string>, categoryText: string): string
  {
    var t := Strip(categoryText);
    if t in slugs then slugs[t] else "other"
  }

  // ---------------------------------------------------------------------
  // Grouping by key, a dict of sets in insertion order

  datatype ItemKey = ItemKey(link: string, image: Option<string>, title: string)

  /** The dict's keys in insertion order and each key's set, listed sorted. */
  datatype Grouping = Grouping(keys: seq<ItemKey>, cats: map<ItemKey, seq<string>>)

  ghost predicate Wf(g: Grouping)
  {
    && (forall i, j :: 0 <= i < j < |g.keys| ==> g.keys[i] != g.keys[j])
    && (forall k :: k in g.cats <==> k in g.keys)
    && (forall k :: k in g.cats ==> StrictlySorted(g.cats[k]))
  }

  /** `set.update(xs)` on a set listed sorted. */
  function InsertAll(xs: seq<string>, sorted: seq<string>): (r: seq<string>)
    requires StrictlySorted(sorted)
    ensures StrictlySorted(r)
    ensures Elems(r) == Elems(sorted) + Elems(xs)
  {
    if xs == [] then sorted
    else
      var init := xs[..|xs| - 1];
      assert xs == init + [xs[|xs| - 1]];
      assert Elems(xs) == Elems(init) + {xs[|xs| - 1]};
      Insert(xs[|xs| - 1], InsertAll(init, sorted))
  }

  /** `if key not in m: m[key] = set()` then `m[key].update(more)`: a new
      key goes to the end of the dict's order, an old one keeps its place. */
  function AddCats(g: Grouping, key: ItemKey, more: seq<string>): (r: Grouping)
    requires Wf(g)
    ensures Wf(r)
    ensures key in r.cats && Elems(r.cats[key]) == (if key in g.cats then Elems(g.cats[key]) else {}) + Elems(more)
    ensures forall k :: k != key ==> (k in r.cats <==> k in g.cats) && (k in g.cats ==> r.cats[k] == g.cats[k])
    ensures r.keys == if key in g.cats then g.keys else g.keys + [key]
  {
    if key in g.cats then g.(cats := g.cats[key := InsertAll(more, g.cats[key])])
    else Grouping(g.keys + [key], g.cats[key := InsertAll(more, [])])
  }

  /** The dict built by adding each (key, codes) pair in turn to an empty one. */
  function Gathered(pairs: seq<(ItemKey, seq<string>)>): (g: Grouping)
    ensures Wf(g)
  {
    if pairs == [] then Grouping([], map[])
    else
      var last := pairs[|pairs| - 1];
      AddCats(Gathered(pairs[..|pairs| - 1]), last.0, last.1)
  }

  /** The keys of the pairs. */
  function KeysOf(pairs: seq<(ItemKey, seq<string>)>): (ks: set<ItemKey>)
    ensures forall k :: k in ks <==> exists i :: 0 <= i < |pairs| && pairs[i].0 == k
  {
    if pairs == [] then {}
    else
      var init := pairs[..|pairs| - 1];
      assert forall i :: 0 <= i < |init| ==> init[i] == pairs[i];
      KeysOf(init) + {pairs[|pairs| - 1].0}
  }

  /** The union of the codes paired with `k`. */
  function CodesOf(pairs: seq<(ItemKey, seq<string>)>, k: ItemKey): (cs: set<string>)
    ensures forall code :: code in cs <==> exists i :: 0 <= i < |pairs| && pairs[i].0 == k && code in pairs[i].1
  {
    if pairs == [] then {}
    else
      var init, last := pairs[..|pairs| - 1], pairs[|pairs| - 1];
      assert forall i :: 0 <= i < |init| ==> init[i] == pairs[i];
      CodesOf(init, k) + (if last.0 == k then Elems(last.1) else {})
  }

  /** Deduplication: the dict has exactly the keys of the pairs, each once,
      and a key's set is the union of the codes paired with it. */
  lemma {:induction false} GatheredGroups(pairs: seq<(ItemKey, seq<string>)>)
    ensures forall k :: k in Gathered(pairs).cats <==> k in KeysOf(pairs)
    ensures forall k :: k in Gathered(pairs).cats ==> Elems(Gathered(pairs).cats[k]) == CodesOf(pairs, k)
  {
    if pairs != [] {
      GatheredGroups(pairs[..|pairs| - 1]);
    }
  }

  /** One result dict: the key's parts and its codes sorted and joined
      with ';'. */
  datatype ScrapedItem = ScrapedItem(link: string, image: Option<string>, categoryText: string, title: string)

  function KeyOfItem(item: ScrapedItem): ItemKey
  {
    ItemKey(item.link, item.image, item.title)
  }

  /** The dict turned into the result list, in insertion order. */
  function Listed(g: Grouping): (r: seq<ScrapedItem>)
    requires Wf(g)
    ensures |r| == |g.keys|
    ensures forall i :: 0 <= i < |r| ==>
      KeyOfItem(r[i]) == g.keys[i] && r[i].categoryText == Join(g.cats[g.keys[i]], ';')
  {
    seq(|g.keys|, i requires 0 <= i < |g.keys| =>
      var k := g.keys[i];
      ScrapedItem(k.link, k.image, Join(g.cats[k], ';'), k.title))
  }

  /** Every listed entry's category text, split on ';', gives back its
      codes in strictly ascending order (when it has any and none holds a
      ';'). */
  lemma ListedCategoriesSorted(g: Grouping, i: nat)
    requires Wf(g) && i < |g.keys|
    requires forall code :: code in Elems(g.cats[g.keys[i]]) ==> ';' !in code
    ensures g.cats[g.keys[i]] != [] ==>
      Split(Listed(g)[i].categoryText, ';') == g.cats[g.keys[i]] && StrictlySorted(Split(Listed(g)[i].categoryText, ';'))
  {
    var cs := g.cats[g.keys[i]];
    if cs != [] {
      forall k | 0 <= k < |cs| ensures ';' !in cs[k] {
        assert cs[k] in Elems(cs);
      }
      SplitJoin(cs, ';');
    }
  }

  // ---------------------------------------------------------------------
  // scrape_category_previews

  /** An item element of the page: its `href`, its image `src` (None when
      the attribute is missing), its category text and its title, or an
      element whose image, category or title lookup raises. */
  datatype Element =
    | Item(href: Option<string>, image: Option<string>, categoryText: string, title: string)
    | Unreadable

  /** What one element contributes: its key and code, or why the loop stops. */
  function ReadElement(el: Element, slugs: map<string, string>): Result<(ItemKey, string), ScrapeError>
  {
    match el
    case Unreadable => Failure(MissingPart)
    case Item(href, image, categoryText, title) =>
      if href.None? then Failure(NoHref)
      else match RewriteLink(href.value)
        case Failure(e) => Failure(e)
        case Success(link) => Success((ItemKey(link, image, title), SlugFor(slugs, categoryText)))
  }

  /** Each element's outcome, in page order. */
  function ReadAll(elements: seq<Element>, slugs: map<string, string>): (rs: seq<Result<(ItemKey, string), ScrapeError>>)
    ensures |rs| == |elements|
    ensures forall i :: 0 <= i < |elements| ==> rs[i] == ReadElement(elements[i], slugs)
  {
    seq(|elements|, i requires 0 <= i < |elements| => ReadElement(elements[i], slugs))
  }

  /** How many outcomes succeed before the first failure: the loop stops
      there, and its exception is swallowed. */
  function ReadCount(rs: seq<Result<(ItemKey, string), ScrapeError>>): (n: nat)
    ensures n <= |rs|
    ensures forall i :: 0 <= i < n ==> rs[i].Success?
    ensures n < |rs| ==> rs[n].Failure?
  {
    if rs == [] || rs[0].Failure? then 0
    else 1 + ReadCount(rs[1..])
  }

  /** The (key, [code]) pair of each of a run of successful outcomes. */
  function ReadPairs(rs: seq<Result<(ItemKey, string), ScrapeError>>): (ps: seq<(ItemKey, seq<string>)>)
    requires forall i :: 0 <= i < |rs| ==> rs[i].Success?
    ensures |ps| == |rs|
    ensures forall i :: 0 <= i < |rs| ==> ps[i] == (rs[i].value.0, [rs[i].value.1])
  {
    seq(|rs|, i requires 0 <= i < |rs| && rs[i].Success? => (rs[i].value.0, [rs[i].value.1]))
  }

  /** The page's unique previews: the elements before the first failure,
      grouped by key. */
  function PagePreviews(elements: seq<Element>, slugs: map<string, string>): seq<ScrapedItem>
  {
    var rs := ReadAll(elements, slugs);
    Listed(Gathered(ReadPairs(rs[..ReadCount(rs)])))
  }

  /** The dict turned into the result list, one entry per key. */
  method ListGroups(g: Grouping) returns (results: seq<ScrapedItem>)
    requires Wf(g)
    ensures results == Listed(g)
  {
    results := [];
    for j := 0 to |g.keys|
      invariant results == Listed(g)[..j]
    {
      var key := g.keys[j];
      results := results + [ScrapedItem(key.link, key.image, Join(g.cats[key], ';'), key.title)];
    }
  }

  /** One more successful outcome adds its key and code to the dict. */
  lemma GatheredReadStep(rs: seq<Result<(ItemKey, string), ScrapeError>>, i: nat)
    requires i < |rs| && forall j :: 0 <= j <= i ==> rs[j].Success?
    ensures Gathered(ReadPairs(rs[..i + 1]))
         == AddCats(Gathered(ReadPairs(rs[..i])), rs[i].value.0, [rs[i].value.1])
  {
    var ps := ReadPairs(rs[..i + 1]);
    assert ps[..i] == ReadPairs(rs[..i]);
    assert ps[i] == (rs[i].value.0, [rs[i].value.1]);
  }

  /** The `try` block's loop: elements are read in page order until one
      raises, and the dict holds the keys read so far. */
  method CollectPage(elements: seq<Element>, slugs: map<string, string>) returns (groups: Grouping)
    ensures var rs := ReadAll(elements, slugs);
      groups == Gathered(ReadPairs(rs[..ReadCount(rs)]))
  {
    ghost var rs := ReadAll(elements, slugs);
    groups := Grouping([], map[]);
    var i := 0;
    while i < |elements|
      invariant i <= ReadCount(rs)
      invariant groups == Gathered(ReadPairs(rs[..i]))
    {
      var read := ReadElement(elements[i], slugs);
      assert read == rs[i];
      if read.Failure? {
        assert i == ReadCount(rs);
        return;
      }
      GatheredReadStep(rs, i);
      groups := AddCats(groups, read.value.0, [read.value.1]);
      i := i + 1;
    }
  }

  /** `scrape_category_previews`: the URL the driver visits and the unique
      previews of the page. The driver is taken from the pool and handed
      back to it whatever happens in the loop. */
  method ScrapeCategoryPreviews(domain: string, categorySlug: string, elements: seq<Element>,
                                categories: seq<(string, string)>, pool: LazyDriverPool.DriverPool)
    returns (url: string, results: seq<ScrapedItem>)
    modifies pool
    ensures url == CategoryUrl(domain, categorySlug)
    ensures results == PagePreviews(elements, SlugsByName(categories))
    ensures var (taken, driver, _) := LazyDriverPool.GetStep(old(pool.State()), pool.maxDrivers);
      pool.State() == LazyDriverPool.ReleaseStep(taken, pool.maxDrivers, driver)
  {
    url := CategoryUrl(domain, categorySlug);
    var driver, _ := pool.GetDriver();
    var groups := CollectPage(elements, SlugsByName(categories));
    pool.ReleaseDriver(driver);
    results := ListGroups(groups);
  }

  lemma ReadAllAppend(elements: seq<Element>, more: seq<Element>, slugs: map<string, string>)
    ensures ReadAll(elements + more, slugs) == ReadAll(elements, slugs) + ReadAll(more, slugs)
  {
    var all := elements + more;
    assert forall i :: 0 <= i < |elements| ==> all[i] == elements[i];
    assert forall i :: |elements| <= i < |all| ==> all[i] == more[i - |elements|];
  }

  /** Outcomes after a failure do not move the point where reading stops. */
  lemma {:induction false} ReadCountExtend(rs: seq<Result<(ItemKey, string), ScrapeError>>,
                                           tail: seq<Result<(ItemKey, string), ScrapeError>>)
    requires ReadCount(rs) < |rs|
    ensures ReadCount(rs + tail) == ReadCount(rs)
  {
    var all := rs + tail;
    assert all[0] == rs[0];
    if rs[0].Success? {
      assert all[1..] == rs[1..] + tail;
      ReadCountExtend(rs[1..], tail);
    }
  }

  /** An unreadable element ends the page: everything after it is lost,
      even elements with new keys. */
  lemma FailureDropsRest(elements: seq<Element>, more: seq<Element>, slugs: map<string, string>)
    requires |elements| > 0 && ReadElement(elements[|elements| - 1], slugs).Failure?
    ensures PagePreviews(elements + more, slugs) == PagePreviews(elements, slugs)
  {
    var rs, rs' := ReadAll(elements, slugs), ReadAll(elements + more, slugs);
    ReadAllAppend(elements, more, slugs);
    assert rs[|rs| - 1].Failure?;
    ReadCountExtend(rs, ReadAll(more, slugs));
    var n := ReadCount(rs);
    assert rs'[..n] == rs[..n];
  }

  /** A page whose every element is readable keeps all of them. */
  lemma PageAllRead(elements: seq<Element>, slugs: map<string, string>)
    requires forall i :: 0 <= i < |elements| ==> ReadAll(elements, slugs)[i].Success?
    ensures PagePreviews(elements, slugs) == Listed(Gathered(ReadPairs(ReadAll(elements, slugs))))
  {
    var rs := ReadAll(elements, slugs);
    assert rs[..ReadCount(rs)] == rs;
  }

  lemma ReadKey(rs: seq<Result<(ItemKey, string), ScrapeError>>, k: ItemKey)
    requires forall i :: 0 <= i < |rs| ==> rs[i].Success?
    ensures k in KeysOf(ReadPairs(rs)) <==> exists i :: 0 <= i < |rs| && rs[i].value.0 == k
  {
    var ps := ReadPairs(rs);
    if k in KeysOf(ps) {
      var i :| 0 <= i < |ps| && ps[i].0 == k;
      assert rs[i].value.0 == k;
    }
    if exists i :: 0 <= i < |rs| && rs[i].value.0 == k {
      var i :| 0 <= i < |rs| && rs[i].value.0 == k;
      assert ps[i].0 == k;
    }
  }

  lemma ReadCode(rs: seq<Result<(ItemKey, string), ScrapeError>>, k: ItemKey, code: string)
    requires forall i :: 0 <= i < |rs| ==> rs[i].Success?
    ensures code in CodesOf(ReadPairs(rs), k) <==> exists i :: 0 <= i < |rs| && rs[i] == Success((k, code))
  {
    var ps := ReadPairs(rs);
    if code in CodesOf(ps, k) {
      var i :| 0 <= i < |ps| && ps[i].0 == k && code in ps[i].1;
      assert rs[i] == Success((k, code));
    }
    if exists i :: 0 <= i < |rs| && rs[i] == Success((k, code)) {
      var i :| 0 <= i < |rs| && rs[i] == Success((k, code));
      assert ps[i].0 == k && code in ps[i].1;
    }
  }

  /** For a run of readable elements, each key read is listed exactly
      once, with the slugs of all the elements carrying it. */
  lemma ReadGroups(rs: seq<Result<(ItemKey, string), ScrapeError>>)
    requires forall i :: 0 <= i < |rs| ==> rs[i].Success?
    ensures var g := Gathered(ReadPairs(rs));
      (forall k :: k in g.keys <==> exists i :: 0 <= i < |rs| && rs[i].value.0 == k) &&
      (forall k, code :: k in g.cats ==>
         (code in Elems(g.cats[k]) <==> exists i :: 0 <= i < |rs| && rs[i] == Success((k, code))))
  {
    var ps := ReadPairs(rs);
    GatheredGroups(ps);
    var g := Gathered(ps);
    forall k ensures k in g.keys <==> exists i :: 0 <= i < |rs| && rs[i].value.0 == k {
      assert k in g.keys <==> k in KeysOf(ps);
      ReadKey(rs, k);
    }
    forall k, code | k in g.cats
      ensures code in Elems(g.cats[k]) <==> exists i :: 0 <= i < |rs| && rs[i] == Success((k, code))
    {
      assert code in Elems(g.cats[k]) <==> code in CodesOf(ps, k);
      ReadCode(rs, k, code);
    }
  }

  // ---------------------------------------------------------------------
  // scrape_all_categories

  /** `item["category_text"].split(";") if item["category_text"] else []`. */
  function CatList(categoryText: string): seq<string>
  {
    if categoryText == "" then [] else Split(categoryText, ';')
  }

  function ItemPairs(items: seq<ScrapedItem>): (ps: seq<(ItemKey, seq<string>)>)
    ensures |ps| == |items|
    ensures forall i :: 0 <= i < |items| ==> ps[i] == (KeyOfItem(items[i]), CatList(items[i].categoryText))
  {
    seq(|items|, i requires 0 <= i < |items| => (KeyOfItem(items[i]), CatList(items[i].categoryText)))
  }

  /** The scraped lists of the categories that finished, in completion order. */
  function AllData(completed: seq<Option<seq<ScrapedItem>>>): seq<ScrapedItem>
  {
    if completed == [] then []
    else
      var last := completed[|completed| - 1];
      AllData(completed[..|completed| - 1]) + (if last.Some? then last.value else [])
  }

  /** Every item of every category that finished is kept, and a category
      that raised contributes nothing. */
  lemma {:induction false} AllDataMembers(completed: seq<Option<seq<ScrapedItem>>>, item: ScrapedItem)
    ensures item in AllData(completed) <==>
      exists c :: 0 <= c < |completed| && completed[c].Some? && item in completed[c].value
  {
    if completed != [] {
      var init := completed[..|completed| - 1];
      AllDataMembers(init, item);
      if exists c :: 0 <= c < |completed| && completed[c].Some? && item in completed[c].value {
        var c :| 0 <= c < |completed| && completed[c].Some? && item in completed[c].value;
        if c < |init| { assert init[c] == completed[c]; }
      }
      if exists c :: 0 <= c < |init| && init[c].Some? && item in init[c].value {
        var c :| 0 <= c < |init| && init[c].Some? && item in init[c].value;
        assert completed[c] == init[c];
      }
    }
  }

  /** `final_map`: the items' keys with their category lists merged. */
  method MergeByKey(allData: seq<ScrapedItem>) returns (finalMap: Grouping)
    ensures Wf(finalMap) && finalMap == Gathered(ItemPairs(allData))
  {
    finalMap := Grouping([], map[]);
    for i := 0 to |allData|
      invariant finalMap == Gathered(ItemPairs(allData[..i]))
    {
      assert ItemPairs(allData[..i + 1])[..i] == ItemPairs(allData[..i]);
      var item := allData[i];
      finalMap := AddCats(finalMap, KeyOfItem(item), CatList(item.categoryText));
    }
    assert allData[..|allData|] == allData;
  }

  /** `scrape_all_categories` after the pool of workers: `completed` holds
      each category's outcome in completion order, None for a category
      whose scrape raised (it is logged and skipped). */
  method ScrapeAllCategories(completed: seq<Option<seq<ScrapedItem>>>) returns (finalResults: seq<ScrapedItem>)
    ensures finalResults == Listed(Gathered(ItemPairs(AllData(completed))))
  {
    var allData: seq<ScrapedItem> := [];
    for i := 0 to |completed|
      invariant allData == AllData(completed[..i])
    {
      assert completed[..i + 1][..i] == completed[..i];
      if completed[i].Some? {
        allData := allData + completed[i].value;
      }
    }
    assert completed[..|completed|] == completed;
    var finalMap := MergeByKey(allData);
    finalResults := ListGroups(finalMap);
  }

  lemma ItemKeyRead(items: seq<ScrapedItem>, k: ItemKey)
    ensures k in KeysOf(ItemPairs(items)) <==> exists i :: 0 <= i < |items| && KeyOfItem(items[i]) == k
  {
    var ps := ItemPairs(items);
    if k in KeysOf(ps) {
      var i :| 0 <= i < |ps| && ps[i].0 == k;
      assert KeyOfItem(items[i]) == k;
    }
    if exists i :: 0 <= i < |items| && KeyOfItem(items[i]) == k {
      var i :| 0 <= i < |items| && KeyOfItem(items[i]) == k;
      assert ps[i].0 == k;
    }
  }

  lemma ItemCodeRead(items: seq<ScrapedItem>, k: ItemKey, code: string)
    ensures code in CodesOf(ItemPairs(items), k) <==>
      exists i :: 0 <= i < |items| && KeyOfItem(items[i]) == k && code in CatList(items[i].categoryText)
  {
    var ps := ItemPairs(items);
    if code in CodesOf(ps, k) {
      var i :| 0 <= i < |ps| && ps[i].0 == k && code in ps[i].1;
      assert KeyOfItem(items[i]) == k && code in CatList(items[i].categoryText);
    }
    if exists i :: 0 <= i < |items| && KeyOfItem(items[i]) == k && code in CatList(items[i].categoryText) {
      var i :| 0 <= i < |items| && KeyOfItem(items[i]) == k && code in CatList(items[i].categoryText);
      assert ps[i].0 == k && code in ps[i].1;
    }
  }

  /** Across categories each key is listed exactly once, and its codes are
      the union of the ';'-pieces of the category texts of all the items
      with that key (an empty text adds none). */
  lemma MergedGroups(items: seq<ScrapedItem>)
    ensures var g := Gathered(ItemPairs(items));
      (forall k :: k in g.keys <==> exists i :: 0 <= i < |items| && KeyOfItem(items[i]) == k) &&
      (forall k, code :: k in g.cats ==>
         (code in Elems(g.cats[k]) <==> exists i :: 0 <= i < |items| && KeyOfItem(items[i]) == k && code in CatList(items[i].categoryText)))
  {
    var ps := ItemPairs(items);
    GatheredGroups(ps);
    var g := Gathered(ps);
    forall k ensures k in g.keys <==> exists i :: 0 <= i < |items| && KeyOfItem(items[i]) == k {
      assert k in g.keys <==> k in KeysOf(ps);
      ItemKeyRead(items, k);
    }
    forall k, code | k in g.cats
      ensures code in Elems(g.cats[k]) <==> exists i :: 0 <= i < |items| && KeyOfItem(items[i]) == k && code in CatList(items[i].categoryText)
    {
      assert code in Elems(g.cats[k]) <==> code in CodesOf(ps, k);
      ItemCodeRead(items, k, code);
    }
  }
}
