# traffic-arbitration core, modelled in Dafny

This project models the logic of the traffic-arbitration news pipeline that
can be stated exactly:

- **Preview cache.** `NewsCache` holds the active article previews and the
  tick of its last successful load. It reloads from the database when the
  list is older than its TTL. A session failure and a query failure are
  handled differently.
- **Ranker.** `NewsRanker` sorts the cached previews newest first and cuts
  one page out of them.
- **Scrape-ingest planning.** Given the rows already stored, the planners
  decide:
  - which links to insert, touch and re-categorise;
  - which preview rows and image stubs are new;
  - which articles to insert;
  - how lists are cut into batches.
- **Standalone iadvert scraper.** Builds category URLs, rewrites item links,
  groups items by (link, image, title) with their category sets unioned,
  and re-merges the results across categories.
- **Two driver pools.** The package pool is a bounded FIFO. The standalone
  pool also has lazy initialisation.
- **String helpers:**
  - Cyrillic transliteration;
  - the `;`-list merge;
  - the word-boundary excerpt;
  - the UUID file name.
- **Slug migration.** The loop of the migration that adds `articles.slug`.
- **Admin settings.** Code validation, and the effect of the label JSON on the write, in the handlers for categories, geo
  tags, tags and locales.
- **Teaser placement** in article HTML.

Each source file is one module:

| module | source |
|---|---|
| `WebCache` | `web/cache.py` |
| `WebServices` | `web/services.py` |
| `IngestLinks`, `IngestRows` | `db/queries.py` |
| `IAdvertScraper` | `scrapper/iadvert_scraper.py` |
| `LazyDriverPool` | `scrapper/driver_pool.py` |
| `BoundedDriverPool` | `traffic_arbitration/scrapper/driver_pool.py` |
| `CommonUtils` | `common/utils.py` |
| `GeneratePreviews` | `scripts/generate_previews.py` |
| `VisualFilenames` | `scripts/assign_visual_content_filenames.py` |
| `SlugMigration` | the Alembic revision `4086873fdb4c` |
| `AdminSettings` | `admin/routers/settings.py` |
| `WebTeasers` | `web/utils.py` |

Three shared modules hold the rest:

- `Wrappers`: Option and Result.
- `PyStr`: the Python `str` behaviour the code relies on.
- `StrOrder`: Python's string order, and a set listed sorted.

Objects whose fields the code updates in place are Dafny classes:
- `NewsCache`;
- `NewsRanker`;
- both `DriverPool`s;
- the admin code tables, as `CodeTable`.

Each method of these classes ensures that the new state is a step function
of the old one. The lemmas state what the step functions guarantee. The
loops of the source are methods with loop invariants:
- transliteration;
- the planning loops;
- the chunking loops;
- the slug `while` loop;
- the naming loop;
- the teaser loop;
- the scraper's collecting and merging loops.

Each loop method is proved equal to a specification function.

Everything foreign to the logic is a parameter or an input:
- database rows and flushed ids;
- `slugify`;
- `uuid4().hex`;
- the monotonic clock, as an integer tick;
- Selenium drivers, as numbered tokens;
- the scraped page elements;
- the parsed HTML, as a sequence of top-level nodes.

Where the project documentation and the code disagree, the model follows the code:
- **No teaser allocator.** Only the request and response shapes exist.
- **No ranking score.** The ranker sorts by date only.
- **No category filter.** It is commented out in `services.py`, lines 27-33.

## Model

| member | source | states |
|---|---|---|
| WebCache.ConvertedPointwise | python/traffic_arbitration/web/cache.py:113-125 | a reload builds exactly one preview per fetched row, in row order |
| WebCache.NewsCache.constructor | python/traffic_arbitration/web/cache.py:21-31 | a new cache has an empty list, last_updated 0, the given TTL (300 by default) and no session maker |
| WebCache.NewSiteCache | python/traffic_arbitration/web/cache.py:154 | the site's instance is a new cache with a 60-second TTL |
| WebCache.NewsCache.SetSessionMaker | python/traffic_arbitration/web/cache.py:36-41 | installs the session maker and leaves the list and timestamp alone |
| WebCache.NewsCache.UpdateCacheFromDb | python/traffic_arbitration/web/cache.py:84-136 | fetched rows replace the whole list and stamp `now`; a failing query changes nothing |
| WebCache.NewsCache.ForceUpdate | python/traffic_arbitration/web/cache.py:43-57 | the new state is the forced-reload step of the old one, with no staleness test |
| WebCache.NewsCache.UpdateIfNeeded | python/traffic_arbitration/web/cache.py:63-82 | the new state is the staleness-guarded reload step of the old one |
| WebCache.NewsCache.GetPreviews | python/traffic_arbitration/web/cache.py:138-150 | refreshes as `_update_if_needed` does, then returns the (copied) cached list |
| WebCache.NewCacheStaleness | python/traffic_arbitration/web/cache.py:59-61 | a new cache is stale exactly when now > ttl (the test is strict) |
| WebCache.NoSessionMakerNoChange | python/traffic_arbitration/web/cache.py:43-82 | without a session maker neither `get_previews` nor `force_update` changes the list or the timestamp |
| WebCache.FreshCacheNotReloaded | python/traffic_arbitration/web/cache.py:63-82 | a cache that is not stale is served unchanged, whatever the database holds |
| WebCache.SuccessfulReloadReplaces | python/traffic_arbitration/web/cache.py:111-130 | a successful reload, forced or due, replaces the list by one preview per row in order and sets last_updated to now |
| WebCache.QueryFailureKeepsState | python/traffic_arbitration/web/cache.py:133-136 | a failing query keeps the old list and the old timestamp |
| WebCache.SessionFailureResets | python/traffic_arbitration/web/cache.py:72-78 | a session failure in a due reload keeps the list and resets last_updated to 0, so the cache stays stale at every later tick; under `force_update` it changes nothing |
| WebCache.GetPreviewsLockOpsAsWritten | python/traffic_arbitration/web/cache.py:120-150 | the lock trace of `get_previews` as written starts by acquiring and ends by releasing; the list is assigned exactly when a session maker is set, the cache is stale and the query fetched rows, inside a second acquire/release |
| WebCache.GetPreviewsSelfDeadlocks | python/traffic_arbitration/web/cache.py:144-146 | as written, the call acquires the non-reentrant lock it already holds exactly when a stale cache with a session maker is reloaded successfully |
| WebCache.GetPreviewsLockOps | python/traffic_arbitration/web/cache.py:120-150 | the same cases with the inner acquire and release removed: never acquires twice, assigns the list in exactly the same cases, and always under the lock |
| WebCache.ForceUpdateLockOps | python/traffic_arbitration/web/cache.py:43-57 | `force_update` never acquires the lock while holding it, and assigns the list under the lock exactly when rows were fetched |
| WebServices.InsertByDate | python/traffic_arbitration/web/services.py:42-46 | inserting into the newest-first list adds exactly the one preview (multiset) |
| WebServices.InsertByDateOrdered | python/traffic_arbitration/web/services.py:42-46 | insertion keeps a list newest first |
| WebServices.SortNewestFirst | python/traffic_arbitration/web/services.py:42-46 | the sort is a permutation of its input with dates never increasing |
| WebServices.InsertByDateStable | python/traffic_arbitration/web/services.py:42-46 | insertion puts a preview after every earlier one of the same date |
| WebServices.SortStable | python/traffic_arbitration/web/services.py:42-46 | previews with the same date keep their cache order |
| WebServices.RankFailsExactly | python/traffic_arbitration/web/services.py:42-46 | ranking fails (TypeError from `sorted`) exactly when at least two previews are cached and one has no publication date |
| WebServices.RankOrder | python/traffic_arbitration/web/services.py:42-49 | every page is newest first and holds only cached previews, no more often than cached |
| WebServices.RankPage | python/traffic_arbitration/web/services.py:49 | for limit, offset >= 0 the page has length min(limit, max(0, n - offset)) and is the sorted list from position offset |
| WebServices.RankKeepsEverything | python/traffic_arbitration/web/services.py:27-33 | nothing is filtered: a page from 0 at least n long holds every cached preview |
| WebServices.DefaultPage | python/traffic_arbitration/web/services.py:16-19 | the default page (limit 20, offset 0) is the 20 newest previews, or all of them when fewer are cached |
| WebServices.RankPagesAdjacent | python/traffic_arbitration/web/services.py:49 | pages (offset, limit) and (offset + limit, limit) concatenate to page (offset, 2 limit) |
| PyStr.PySliceForward | python/traffic_arbitration/web/services.py:49 | `s[offset:offset + limit]` with non-negative bounds is the stretch from offset, limit long or cut short by the end |
| PyStr.PySliceAdjacent | python/traffic_arbitration/web/services.py:49 | slices `[o:o+l]` and `[o+l:o+2l]` concatenate to `[o:o+2l]` |
| WebServices.RankStable | python/traffic_arbitration/web/services.py:42-49 | on the full ranked list, same-date previews appear in cache order |
| WebServices.NewsRanker.constructor | python/traffic_arbitration/web/services.py:13-14 | the ranker holds the given cache |
| WebServices.NewsRanker.GetRankedPreviews | python/traffic_arbitration/web/services.py:16-49 | the cache changes only by its own refresh step; the result is the ranked page of the cache's list (limit 20 and offset 0 by default) |
| CommonUtils.Transliterate | python/traffic_arbitration/common/utils.py:20-27 | the loop's output is the concatenation of each character's table image, unknown characters kept |
| CommonUtils.TableShape | python/traffic_arbitration/common/utils.py:7-18 | every table key is a Cyrillic letter and every image is at most three ASCII letters |
| CommonUtils.TranslitConcat | python/traffic_arbitration/common/utils.py:21-25 | t(a + b) == t(a) + t(b) |
| CommonUtils.TranslitIdentity | python/traffic_arbitration/common/utils.py:22-25 | text with no table character comes back unchanged |
| CommonUtils.TranslitLeavesNoKey | python/traffic_arbitration/common/utils.py:7-18 | no output character is a table key |
| CommonUtils.WithoutSigns | python/traffic_arbitration/common/utils.py:12-17 | the text with the hard and soft signs removed holds none of them |
| CommonUtils.SignsDropped | python/traffic_arbitration/common/utils.py:12-17 | the hard and soft signs contribute nothing to the output |
| CommonUtils.TranslitLength | python/traffic_arbitration/common/utils.py:11-16 | output length is at most 3 times the input length |
| CommonUtils.NonEmpty | python/traffic_arbitration/common/utils.py:36-37 | `filter(None, ...)` keeps exactly the non-empty pieces |
| CommonUtils.UnifyPieces | python/traffic_arbitration/common/utils.py:36-39 | the result's pieces are exactly the union of both inputs' non-empty pieces, strictly ascending and none empty |
| CommonUtils.UnifyByPieces | python/traffic_arbitration/common/utils.py:36-39 | the result depends only on the union of the pieces |
| CommonUtils.UnifyCommutative | python/traffic_arbitration/common/utils.py:36-39 | u(a, b) == u(b, a) |
| CommonUtils.UnifyAbsorbs | python/traffic_arbitration/common/utils.py:36-39 | u(u(a, b), b) == u(a, b) |
| CommonUtils.UnifyEmpty | python/traffic_arbitration/common/utils.py:36-39 | u("", "") == "" |
| GeneratePreviews.RFind | python/scripts/generate_previews.py:49 | -1 exactly when no space lies before the end, otherwise the last such index |
| GeneratePreviews.CreateExcerpt | python/scripts/generate_previews.py:40-56 | missing, empty or short text comes back as is; otherwise the result ends in "...", is cut at the last space before max_length and stripped, or hard-cut at max_length when there is none, and is at most max_length + 3 long |
| GeneratePreviews.Truncated | python/scripts/generate_previews.py:48-56 | a text longer than max_length is cut at the last space before max_length and stripped, or hard-cut at max_length when there is none; the result ends in "..." and is at most max_length + 3 long |
| GeneratePreviews.PreviewTextBound | python/scripts/generate_previews.py:96 | the script's call keeps a missing text missing and writes preview texts of at most 303 characters |
| IngestLinks.CategoryMap | python/traffic_arbitration/db/queries.py:111 | the keys are exactly the non-empty codes of the category rows |
| IngestLinks.CategoryRowsFor | python/traffic_arbitration/db/queries.py:133-138 | one row per code the category map knows, with that code's id, and none for unknown codes |
| IngestLinks.CollectCategoryRows | python/traffic_arbitration/db/queries.py:152-158 | the inner loop builds exactly the rows of CategoryRowsFor |
| IngestLinks.PlanLinks | python/traffic_arbitration/db/queries.py:119-158 | the planning loop builds exactly the planned lists and result map |
| IngestLinks.PatchRows | python/traffic_arbitration/db/queries.py:167-170 | patching keeps the number of category rows |
| IngestLinks.Patched | python/traffic_arbitration/db/queries.py:164-170 | patching after j flushed objects keeps the number of category rows |
| IngestLinks.PatchFlushedIds | python/traffic_arbitration/db/queries.py:164-170 | the flush loop leaves the rows and the result map patched for every new link object |
| IngestLinks.UpsertLinksBatch | python/traffic_arbitration/db/queries.py:91-200 | inserts, touches, clears, saved category rows and returned map are those of the planning |
| IngestLinks.PlannedMapShape | python/traffic_arbitration/db/queries.py:119-150 | the result map has exactly the non-skipped links as keys: stored ones with their id, new ones pending and on the insert list |
| IngestLinks.PlannedUpdateShape | python/traffic_arbitration/db/queries.py:125-131 | the touch and clear lists are equal and hold exactly the ids of stored links whose merged categories change |
| IngestLinks.PlannedCategoryShape | python/traffic_arbitration/db/queries.py:133-158 | every planned category row has a known category id and either a link id or a pending new link |
| IngestLinks.PatchedRow | python/traffic_arbitration/db/queries.py:164-170 | a row waiting for a link gets that link's flushed id once patched; other rows are unchanged |
| IngestLinks.FlushedEntry | python/traffic_arbitration/db/queries.py:164-165 | a flushed link holds the id of its last new object; other entries are as planned |
| IngestLinks.UpsertLinksMap | python/traffic_arbitration/db/queries.py:139-199 | the returned map has exactly the non-skipped links as keys, stored links keep their id, and new links get a flushed id |
| IngestLinks.UpsertLinksInserts | python/traffic_arbitration/db/queries.py:125-148 | a link is inserted exactly when it is non-skipped and not stored |
| IngestLinks.UpsertLinksRefreshes | python/traffic_arbitration/db/queries.py:125-131 | a stored link is touched and cleared exactly when some preview changes its merged categories |
| IngestLinks.UpsertLinksCategories | python/traffic_arbitration/db/queries.py:181-188 | every saved category row has a link id and a category id from the table |
| IngestRows.ChunksOfSplit | python/traffic_arbitration/db/queries.py:508-509 | the chunks concatenate back to the input, each is non-empty and at most batch_size, and all but the last are full |
| IngestRows.ChunkLoop | python/traffic_arbitration/db/queries.py:486-487 | the `range(0, n, size)` loop yields the chunks; a zero size fails and a negative one yields none |
| IngestRows.PlanPreviewInserts | python/traffic_arbitration/db/queries.py:203-251 | nothing with an empty link map; otherwise the planned preview keys |
| IngestRows.PlannedPreviewsExactly | python/traffic_arbitration/db/queries.py:227-242 | a preview row is planned exactly for a (link_id, title, image) with a known link not already stored, None read as "" |
| IngestRows.VisualStubs | python/traffic_arbitration/db/queries.py:273-296 | stubs are exactly the distinct non-empty image links not yet stored |
| IngestRows.PlanArticleInserts | python/traffic_arbitration/db/queries.py:432-492 | no linked article gives nothing; otherwise the planned rows are cut into chunks of batch_size |
| IngestRows.PlannedArticlesExactly | python/traffic_arbitration/db/queries.py:457-483 | an article is planned exactly when its link belongs to the source and has no stored article |
| IngestRows.PlannedArticlesMembers | python/traffic_arbitration/db/queries.py:469-483 | the planned rows are exactly those of the planned articles, None title or text read as "" |
| IngestRows.MarkLinksProcessed | python/traffic_arbitration/db/queries.py:495-520 | an empty input does nothing; otherwise the links are cut into chunks of batch_size |
| IAdvertScraper.CategoryUrl | scrapper/iadvert_scraper.py:23-27 | "https://" + domain with one trailing '/' ensured + the slug |
| IAdvertScraper.RewriteLinkSegments | scrapper/iadvert_scraper.py:49-52 | fails exactly with fewer than 4 '/'-segments; otherwise segment 3 becomes "general", the others are kept and "full/" follows |
| IAdvertScraper.SlugsByName | scrapper/iadvert_scraper.py:44 | the reversed map has exactly the category names as keys, each mapped to a slug listed with it |
| IAdvertScraper.InsertAll | scrapper/iadvert_scraper.py:59-60 | adding codes to a sorted set gives the sorted union |
| IAdvertScraper.AddCats | scrapper/iadvert_scraper.py:113-115 | a key's set grows by the new codes; other keys are unchanged; a new key goes last |
| IAdvertScraper.Gathered | scrapper/iadvert_scraper.py:57-60 | the grouping built from the pairs is well formed |
| IAdvertScraper.GatheredGroups | scrapper/iadvert_scraper.py:57-60 | the dict has exactly the pairs' keys, each with the union of its codes |
| IAdvertScraper.Listed | scrapper/iadvert_scraper.py:66-77 | one result per key in insertion order, with its codes sorted and joined by ';' |
| IAdvertScraper.ListedCategoriesSorted | scrapper/iadvert_scraper.py:71 | splitting a result's category text on ';' gives back its sorted code set |
| IAdvertScraper.ReadAll | scrapper/iadvert_scraper.py:45-60 | one outcome per element, in page order |
| IAdvertScraper.ReadCount | scrapper/iadvert_scraper.py:45-62 | the elements before the first failure all succeed |
| IAdvertScraper.ListGroups | scrapper/iadvert_scraper.py:69-77 | the result loop builds exactly the listed results |
| IAdvertScraper.CollectPage | scrapper/iadvert_scraper.py:44-62 | the element loop groups the elements read before the first failure |
| IAdvertScraper.ScrapeCategoryPreviews | scrapper/iadvert_scraper.py:22-80 | visits the category URL, returns the page's unique previews, and takes then releases one driver |
| IAdvertScraper.FailureDropsRest | scrapper/iadvert_scraper.py:61-62 | after an unreadable element nothing more is collected, and what came before is kept |
| IAdvertScraper.PageAllRead | scrapper/iadvert_scraper.py:45-60 | a fully readable page keeps every element |
| IAdvertScraper.ReadGroups | scrapper/iadvert_scraper.py:57-60 | each key read is listed once, with exactly the codes read for it |
| IAdvertScraper.ItemPairs | scrapper/iadvert_scraper.py:110-112 | each item gives its key and its category list (empty text gives none) |
| IAdvertScraper.AllDataMembers | scrapper/iadvert_scraper.py:99-106 | an item is collected exactly when it came from a category that finished |
| IAdvertScraper.MergeByKey | scrapper/iadvert_scraper.py:109-115 | the merge loop builds exactly the grouping of the items' pairs |
| IAdvertScraper.ScrapeAllCategories | scrapper/iadvert_scraper.py:82-127 | the final list is the listed grouping of every finished category's items |
| IAdvertScraper.MergedGroups | scrapper/iadvert_scraper.py:108-124 | across categories each key is listed once, with the union of its category lists |
| LazyDriverPool.FreshDrivers | scrapper/driver_pool.py:37-38 | k new drivers, numbered on from those created so far |
| LazyDriverPool.DriverPool.constructor | scrapper/driver_pool.py:13-17 | a new pool (max_drivers 5 by default) is empty and not initialised |
| LazyDriverPool.DriverPool.CreateDriver | scrapper/driver_pool.py:19-29 | a driver never created before; nothing else changes |
| LazyDriverPool.DriverPool.InitializePool | scrapper/driver_pool.py:31-39 | the new state is the initialisation step |
| LazyDriverPool.DriverPool.GetDriver | scrapper/driver_pool.py:41-48 | the new state and driver are the get step |
| LazyDriverPool.DriverPool.ReleaseDriver | scrapper/driver_pool.py:50-56 | the new state is the release step |
| LazyDriverPool.DriverPool.CloseAll | scrapper/driver_pool.py:58-64 | the new state is the close step |
| LazyDriverPool.DriverPool.Enter | scrapper/driver_pool.py:66-69 | initialises and returns the pool itself |
| LazyDriverPool.DriverPool.Exit | scrapper/driver_pool.py:71-73 | always closes the pool |
| LazyDriverPool.FirstUseFills | scrapper/driver_pool.py:31-39 | first use fills an empty pool with exactly max_drivers fresh drivers and sets the flag |
| LazyDriverPool.InitSkippedWhenInitialized | scrapper/driver_pool.py:33-35 | initialisation is skipped while the flag is set |
| LazyDriverPool.GetAfterInit | scrapper/driver_pool.py:44-48 | after initialisation: the front driver if there is one, else an emergency driver with a warning |
| LazyDriverPool.FirstGet | scrapper/driver_pool.py:41-48 | the first get hands out the first created driver and keeps max_drivers - 1 |
| LazyDriverPool.CloseThenRefill | scrapper/driver_pool.py:58-64 | closing quits every idle driver, empties the pool and clears the flag, so the next get refills |
| LazyDriverPool.ReleaseKeepsBound | scrapper/driver_pool.py:50-56 | kept while size < max_drivers, quit otherwise; size stays within max_drivers |
| BoundedDriverPool.DriverPool.constructor | python/traffic_arbitration/scrapper/driver_pool.py:14-17 | a new pool (max_drivers 5 by default) is empty |
| BoundedDriverPool.DriverPool.CreateDriver | python/traffic_arbitration/scrapper/driver_pool.py:19-29 | a driver never created before; nothing else changes |
| BoundedDriverPool.DriverPool.GetDriver | python/traffic_arbitration/scrapper/driver_pool.py:31-38 | the new state and driver are the get step |
| BoundedDriverPool.DriverPool.ReleaseDriver | python/traffic_arbitration/scrapper/driver_pool.py:40-46 | the new state is the release step |
| BoundedDriverPool.DriverPool.CloseAll | python/traffic_arbitration/scrapper/driver_pool.py:48-53 | the new state is the close step |
| BoundedDriverPool.DriverPool.Enter | python/traffic_arbitration/scrapper/driver_pool.py:55-57 | returns the pool itself |
| BoundedDriverPool.DriverPool.Exit | python/traffic_arbitration/scrapper/driver_pool.py:59-61 | closes the pool |
| BoundedDriverPool.GetFromNonEmpty | python/traffic_arbitration/scrapper/driver_pool.py:38 | FIFO: the oldest idle driver is handed out and the rest stay in order |
| BoundedDriverPool.GetFromEmpty | python/traffic_arbitration/scrapper/driver_pool.py:34-37 | an empty pool creates a fresh driver and stays empty |
| BoundedDriverPool.WarningOnlyWithoutCapacity | python/traffic_arbitration/scrapper/driver_pool.py:35-36 | the warning fires exactly for an empty pool with max_drivers <= 0 (dead for max_drivers >= 1) |
| BoundedDriverPool.ReleaseKeepsBound | python/traffic_arbitration/scrapper/driver_pool.py:40-46 | kept while size < max_drivers, quit otherwise; the bound is preserved |
| BoundedDriverPool.GetKeepsBound | python/traffic_arbitration/scrapper/driver_pool.py:31-38 | taking a driver preserves the bound |
| BoundedDriverPool.CloseQuitsAll | python/traffic_arbitration/scrapper/driver_pool.py:48-53 | every idle driver is quit, oldest first, and the pool is empty |
| BoundedDriverPool.GetThenRelease | python/traffic_arbitration/scrapper/driver_pool.py:31-46 | a driver taken and given back goes to the back of the queue |
| SlugMigration.Suffix | python/alembic/versions/4086873fdb4c_add_slug_to_article_model.py:47 | the suffix is "-" followed by the id's digits |
| SlugMigration.FirstFree | python/alembic/versions/4086873fdb4c_add_slug_to_article_model.py:39-47 | the first suffix count whose candidate is free, with every smaller count taken; the recursion terminates |
| SlugMigration.Assigned | python/alembic/versions/4086873fdb4c_add_slug_to_article_model.py:36-51 | one slug per article |
| SlugMigration.FindFreeSlug | python/alembic/versions/4086873fdb4c_add_slug_to_article_model.py:39-47 | the `while` loop ends with the first free candidate |
| SlugMigration.TakenCandidate | python/alembic/versions/4086873fdb4c_add_slug_to_article_model.py:39-47 | one pass appends the suffix, keeps the count still to go, and the taken candidate is bounded in length |
| SlugMigration.Upgrade | python/alembic/versions/4086873fdb4c_add_slug_to_article_model.py:36-51 | the article loop writes exactly the assigned slugs |
| SlugMigration.AssignedPrefix | python/alembic/versions/4086873fdb4c_add_slug_to_article_model.py:36-51 | later articles never change an earlier slug |
| SlugMigration.SlugShape | python/alembic/versions/4086873fdb4c_add_slug_to_article_model.py:37-47 | each slug is slugify(title) plus k copies of "-id", free when written, with every shorter candidate taken |
| SlugMigration.AssignedDistinct | python/alembic/versions/4086873fdb4c_add_slug_to_article_model.py:36-54 | every article gets a slug and all slugs are pairwise distinct |
| SlugMigration.FreeTitleUnsuffixed | python/alembic/versions/4086873fdb4c_add_slug_to_article_model.py:37-45 | a free slugified title is kept unsuffixed |
| AdminSettings.Validate | python/traffic_arbitration/admin/routers/settings.py:89-101 | the sequential checks append exactly the specified errors in order |
| AdminSettings.CodeTable.Create | python/traffic_arbitration/admin/routers/settings.py:89-166 | the new table and answer are the create step of `create_category` (and of `create_geo` at lines 421-498): errors re-render; labels the label loop cannot iterate raise inside the `try` and re-render after the rollback; malformed labels do not stop the write |
| AdminSettings.CodeTable.CreateTag | python/traffic_arbitration/admin/routers/settings.py:607-633 | the create step with no detail |
| AdminSettings.CodeTable.CreateLocale | python/traffic_arbitration/admin/routers/settings.py:750-780 | the create step with the stripped name |
| AdminSettings.CodeTable.Update | python/traffic_arbitration/admin/routers/settings.py:204-294 | the intended update step: 404 for a missing row; errors re-render; non-iterable labels roll back and re-render; malformed labels roll back and show their error; otherwise the code and description are rewritten |
| AdminSettings.RequiredIffBlank | python/traffic_arbitration/admin/routers/settings.py:92-93 | "required" is reported exactly for an empty or all-whitespace code, and is then the only error |
| AdminSettings.ValidationPasses | python/traffic_arbitration/admin/routers/settings.py:92-101 | no error exactly when strip().lower() matches the pattern and no other row holds it |
| AdminSettings.LocaleRejectsDigits | python/traffic_arbitration/admin/routers/settings.py:753-756 | an accepted locale code has 2 to 5 characters, none of them a digit or '_' |
| AdminSettings.UppercaseAccepted | python/traffic_arbitration/admin/routers/settings.py:94 | upper-case ASCII passes because the code is lowercased before the match |
| AdminSettings.CreateKeepsValid | python/traffic_arbitration/admin/routers/settings.py:103-166 | create keeps codes valid and unique; it writes exactly when validation passes and the labels do not make the loop raise, one new row with the normalised code; otherwise nothing is written and the form is re-rendered with the validation errors or the rollback error |
| AdminSettings.UpdateKeepsValid | python/traffic_arbitration/admin/routers/settings.py:220-294 | update keeps the invariant; a missing row changes nothing; the row is rewritten exactly when it exists, validation passes and the labels are absent or iterable, and otherwise nothing changes; a row may keep its own code |
| AdminSettings.LocaleNameCases | python/traffic_arbitration/admin/routers/settings.py:779 | a missing or empty name is None, a whitespace-only name is "", anything else is stripped |
| AdminSettings.MissingCategoryNameError | python/traffic_arbitration/admin/routers/settings.py:207-210 | as written a missing category raises NameError where 404 is intended; nothing is written |
| AdminSettings.MalformedLabelsDropEdit | python/traffic_arbitration/admin/routers/settings.py:254-294 | as written, malformed labels on a valid edit roll the edit back yet answer with the success redirect; the intended step re-renders with the labels error; nothing is written either way |
| AdminSettings.UpdateAsWrittenOtherwise | python/traffic_arbitration/admin/routers/settings.py:204-294 | for an existing row, the handler as written differs from the intended step only on malformed labels with a valid edit |
| VisualFilenames.UniqueFilename | python/scripts/assign_visual_content_filenames.py:23-33 | the name starts with the base; no extension (None or "") gives the bare base |
| VisualFilenames.ExtensionAppended | python/scripts/assign_visual_content_filenames.py:29-32 | with an extension: base + "." + the extension with exactly its leading dots removed |
| VisualFilenames.FilenameStartsWithHex | python/scripts/assign_visual_content_filenames.py:28-32 | the name starts with the 32 hex digits, followed by '.' when there is an extension |
| VisualFilenames.LeadingDotIgnored | python/scripts/assign_visual_content_filenames.py:31 | ".jpg" and "jpg" give the same name |
| VisualFilenames.Unnamed | python/scripts/assign_visual_content_filenames.py:52 | the rows still lacking a name are at most all rows |
| VisualFilenames.AssignMissingFilenames | python/scripts/assign_visual_content_filenames.py:48-65 | the loop names exactly the unnamed rows, each with the next UUID, and returns their number |
| VisualFilenames.RenamedAllNamed | python/scripts/assign_visual_content_filenames.py:61-63 | afterwards every row is named; named rows, ids and extensions are untouched |
| VisualFilenames.DistinctDraws | python/scripts/assign_visual_content_filenames.py:61-65 | distinct unnamed rows draw distinct UUIDs |
| WebTeasers.Paras | python/traffic_arbitration/web/utils.py:16 | the paragraph count is at most the node count |
| WebTeasers.Sources | python/traffic_arbitration/web/utils.py:18-19 | the document unchanged, node by node |
| WebTeasers.Placed | python/traffic_arbitration/web/utils.py:24-26 | a node stays in place and is followed by one teaser exactly when it is the (i+1)-th paragraph with n dividing i + 1 |
| WebTeasers.InsertTeasersLoop | python/traffic_arbitration/web/utils.py:4-28 | the paragraph loop computes the teaser placement, with the early returns and the failure for n = 0 |
| WebTeasers.EraseTeasers | python/traffic_arbitration/web/utils.py:24-26 | removing the teasers gives back the document in order |
| WebTeasers.TeaserCount | python/traffic_arbitration/web/utils.py:24-26 | for n >= 1 exactly floor(paragraphs / n) teasers are inserted |
| WebTeasers.TeaserAfterParagraph | python/traffic_arbitration/web/utils.py:24-26 | every teaser directly follows a paragraph |
| WebTeasers.TeasersPrefix | python/traffic_arbitration/web/utils.py:24-26 | the output for a prefix of the document is a prefix of the output |
| WebTeasers.InsertTeasersCases | python/traffic_arbitration/web/utils.py:12-19 | empty content or content with no paragraph comes back unchanged; the only failure is n = 0 with paragraphs |
| WebTeasers.DefaultFrequency | python/traffic_arbitration/web/utils.py:4-28 | with the default n = 3 the call never fails, and a document with paragraphs gets one teaser per three paragraphs |
| PyStr.StripEmptyIffAllSpace | python/traffic_arbitration/admin/routers/settings.py:92 | `strip()` gives "" exactly for all-whitespace text |
| PyStr.LStripChar | python/scripts/assign_visual_content_filenames.py:31 | `lstrip('.')` removes exactly the leading dots |
| PyStr.Lower | python/traffic_arbitration/admin/routers/settings.py:94 | `lower()` maps each character on its own |
| PyStr.JoinSplit | scrapper/iadvert_scraper.py:49-52 | joining the split pieces gives back the text |
| PyStr.SplitJoin | python/traffic_arbitration/common/utils.py:38-39 | splitting the join of separator-free pieces gives back the pieces |
| PyStr.PySlice | python/traffic_arbitration/web/services.py:49 | Python slicing with negative and out-of-range bounds normalised |
| PyStr.IntToStr | python/alembic/versions/4086873fdb4c_add_slug_to_article_model.py:47 | `str(id)` is a non-empty decimal numeral |
| StrOrder.SortedSet | python/traffic_arbitration/common/utils.py:38 | `sorted(set(...))` is strictly ascending with the same elements |
| StrOrder.SortedUnique | python/traffic_arbitration/common/utils.py:38 | two strictly ascending lists with the same elements are equal |

## Left out

- I/O: Selenium, scrolling and sleeps, the database sessions and SQL statements, commits and rollbacks, and logging. Database reads, flushed ids and scraped elements are inputs; statements are the planned rows and chunks.
- Locks and threads are not modelled as concurrency: the worker pool of `scrape_all_categories` is its completed results, in completion order, as an input. The cache lock is modelled only as a trace for the deadlock finding.
- `time.monotonic()` is an integer tick, not a float.
- `slugify` and `uuid4().hex` are parameters; the 128-character length of the slug column is not checked.
- BeautifulSoup parsing and serialisation in `insert_teasers`: the document is its sequence of top-level nodes, and teasers are placed after paragraphs at that level only.
- `clean_html`, `scrape_article` and image downloading are not part of this model.
- Admin handlers: `json.loads` of `labels_json` is an input (absent, iterable, malformed, not iterable). The label rows the loop adds, the template contexts, and a failing flush or commit for reasons other than the labels are not modelled.
- AdminSettings.CodeTable.Create: after a rollback that follows `db.flush()`, a database sequence may have consumed the id; the model leaves `nextId` unchanged.
- PyStr.Lower: lowers ASCII letters and the Kelvin sign only, not Python's full Unicode case mapping.
- WebTeasers.TeaserCount: stated for n >= 1 only; for negative n the placement is still modelled by WebTeasers.Placed.
- IAdvertScraper.ScrapeCategoryPreviews: `driver.get(url)` raising before the `try` (which would skip releasing the driver) is not modelled; only failures inside the element loop are.
- IAdvertScraper.ScrapeCategoryPreviews: the logged set of all categories seen is not modelled.
- GeneratePreviews: only `create_excerpt`; the script's database loop is not part of this model.
- WebServices: previews without a publication date make `sorted` raise when two or more are cached; the model returns a failure there rather than an exception.

## Findings

| source | as written | input that shows it | evidently intended | confidence | as-written member | corrected member |
|---|---|---|---|---|---|---|
| python/traffic_arbitration/web/cache.py:144 | `get_previews` holds the non-reentrant `Lock` while reloading, and the reload takes the same lock again at line 127 | a stale cache with a session maker whose reload query succeeds | the reload swaps the list in without taking a lock its caller already holds | not executed | WebCache.GetPreviewsSelfDeadlocks | WebCache.GetPreviewsLockOps |
| python/traffic_arbitration/admin/routers/settings.py:210 | `update_category` raises `HTTPException`, which the module never imports (line 1), so a missing row raises NameError (the same name is used at lines 182, 310, 514, 669 and 817) | any category id that is not in the table | answer 404 "Category not found" | not executed | AdminSettings.MissingCategoryNameError | AdminSettings.UpdateKeepsValid |
| python/traffic_arbitration/admin/routers/settings.py:294 | `update_category` with malformed `labels_json` appends the error and rolls the edit back (lines 266-273), then answers with the success redirect, so the error is never shown and the edit is silently lost | an existing category, a valid code, and `labels_json` = "{" | re-render the form with the labels error, as the other error paths do | not executed | AdminSettings.MalformedLabelsDropEdit | AdminSettings.UpdateKeepsValid |
