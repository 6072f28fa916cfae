/** The data step of the migration that adds `articles.slug`
    (python/alembic/versions/4086873fdb4c_add_slug_to_article_model.py):
    every existing article gets `slugify(title, max_length=120)`, suffixed
    with "-<id>" for as long as some article already holds the candidate.
    `slugify` is opaque and is a parameter; the slug column is the
    sequence of slugs written so far, one per article in selection order. */
module SlugMigration {
  import opened PyStr

  /** An article row as selected: its id and its title. */
  datatype ArticleRow = ArticleRow(id: int, title: string)

  /** The suffix appended for an article: "-" and its id. */
  function Suffix(articleId: int): (s: string)
    ensures |s| >= 2 && s[0] == '-'
  {
    "-" + IntToStr(articleId)
  }

  /** A length no taken slug exceeds. */
  function MaxLen(taken: seq<string>): (m: nat)
    ensures forall i :: 0 <= i < |taken| ==> |taken[i]| <= m
  {
    if taken == [] then 0
    else
      var m := MaxLen(taken[..|taken| - 1]);
      var n := |taken[|taken| - 1]|;
      assert forall i :: 0 <= i < |taken| - 1 ==> taken[i] == taken[..|taken| - 1][i];
      if m < n then n else m
  }

  /** The candidate after `k` passes of the loop: the base and `k` copies
      of the suffix. */
  function Candidate(base: string, suffix: string, k: nat): string
  {
    base + Repeat(suffix, k)
  }

  /** The number of suffixes the `while True` loop appends, counting from
      `k` already appended: the first count whose candidate nobody holds.
      The loop ends because each pass makes the candidate longer, and no
      taken slug is longer than `MaxLen(taken)`. */
  function FirstFree(taken: seq<string>, base: string, suffix: string, k: nat): (r: nat)
    requires suffix != []
    ensures r >= k
    ensures Candidate(base, suffix, r) !in taken
    ensures forall j :: k <= j < r ==> Candidate(base, suffix, j) in taken
    decreases MaxLen(taken) + 1 - |Candidate(base, suffix, k)|
  {
    var candidate := Candidate(base, suffix, k);
    if candidate !in taken then k
    else
      assert |candidate| <= MaxLen(taken) by {
        var i :| 0 <= i < |taken| && taken[i] == candidate;
      }
      FirstFree(taken, base, suffix, k + 1)
  }

  /** The slug one article receives, given the slugs already written. */
  function FreeSlug(taken: seq<string>, base: string, suffix: string): string
    requires suffix != []
  {
    Candidate(base, suffix, FirstFree(taken, base, suffix, 0))
  }

  /** The slugs written, article by article, in selection order. */
  function Assigned(articles: seq<ArticleRow>, slugify: string -> string): (slugs: seq<string>)
    ensures |slugs| == |articles|
  {
    if articles == [] then []
    else
      var prev := Assigned(articles[..|articles| - 1], slugify);
      var a := articles[|articles| - 1];
      prev + [FreeSlug(prev, slugify(a.title), Suffix(a.id))]
  }

  /** The `while True` loop: append the suffix until no article holds the
      candidate. */
  method FindFreeSlug(taken: seq<string>, base: string, suffix: string) returns (slug: string)
    requires suffix != []
    ensures slug == FreeSlug(taken, base, suffix)
  {
    slug := base;
    ghost var k: nat := 0;
    assert slug == Candidate(base, suffix, 0);
    while slug in taken
      invariant slug == Candidate(base, suffix, k)
      invariant FirstFree(taken, base, suffix, k) == FirstFree(taken, base, suffix, 0)
      decreases MaxLen(taken) + 1 - |slug|
    {
      TakenCandidate(taken, base, suffix, k);
      slug := slug + suffix;
      k := k + 1;
    }
  }

  /** One pass of the loop: a taken candidate is no longer than the
      longest taken slug, and the count still to go is unchanged. */
  lemma TakenCandidate(taken: seq<string>, base: string, suffix: string, k: nat)
    requires suffix != [] && Candidate(base, suffix, k) in taken
    ensures FirstFree(taken, base, suffix, k) == FirstFree(taken, base, suffix, k + 1)
    ensures Candidate(base, suffix, k + 1) == Candidate(base, suffix, k) + suffix
    ensures |Candidate(base, suffix, k)| <= MaxLen(taken)
  {
  }

  /** `upgrade`'s loop over the selected articles: the slugs in the order
      they are written. */
  method Upgrade(articles: seq<ArticleRow>, slugify: string -> string) returns (slugs: seq<string>)
    ensures slugs == Assigned(articles, slugify)
  {
    slugs := [];
    for i := 0 to |articles|
      invariant slugs == Assigned(articles[..i], slugify)
    {
      assert articles[..i + 1][..i] == articles[..i];
      var article := articles[i];
      var slug := FindFreeSlug(slugs, slugify(article.title), Suffix(article.id));
      slugs := slugs + [slug];
    }
    assert articles[..|articles|] == articles;
  }

  // ---------------------------------------------------------------------
  // What the migration guarantees

  /** Later articles never change the slug of an earlier one. */
  lemma {:induction false} AssignedPrefix(articles: seq<ArticleRow>, slugify: string -> string, i: nat)
    requires i <= |articles|
    ensures Assigned(articles, slugify)[..i] == Assigned(articles[..i], slugify)
    decreases |articles|
  {
    if i < |articles| {
      var init := articles[..|articles| - 1];
      AssignedPrefix(init, slugify, i);
      assert init[..i] == articles[..i];
    } else {
      assert articles[..i] == articles;
    }
  }

  /** Article `i` gets its slugified title followed by some number `k` of
      "-<id>" suffixes: that slug was held by no earlier article when it
      was written, and each shorter candidate was. */
  lemma SlugShape(articles: seq<ArticleRow>, slugify: string -> string, i: nat)
    requires i < |articles|
    ensures var slugs := Assigned(articles, slugify);
      var base, suffix := slugify(articles[i].title), Suffix(articles[i].id);
      exists k: nat ::
        slugs[i] == base + Repeat(suffix, k) &&
        slugs[i] !in slugs[..i] &&
        forall j :: 0 <= j < k ==> Candidate(base, suffix, j) in slugs[..i]
  {
    AssignedPrefix(articles, slugify, i + 1);
    AssignedPrefix(articles[..i + 1], slugify, i);
    assert articles[..i + 1][..i] == articles[..i];
    var slugs := Assigned(articles, slugify);
    var prev := Assigned(articles[..i], slugify);
    assert slugs[..i] == prev;
    assert slugs[i] == Assigned(articles[..i + 1], slugify)[i];
    var k := FirstFree(prev, slugify(articles[i].title), Suffix(articles[i].id), 0);
    assert slugs[i] == Candidate(slugify(articles[i].title), Suffix(articles[i].id), k);
  }

  /** The slugs end pairwise distinct, as the unique constraint created
      after the loop requires, and every article has one before the column
      becomes NOT NULL. */
  lemma {:induction false} AssignedDistinct(articles: seq<ArticleRow>, slugify: string -> string)
    ensures |Assigned(articles, slugify)| == |articles|
    ensures var slugs := Assigned(articles, slugify);
      forall i, j :: 0 <= i < j < |slugs| ==> slugs[i] != slugs[j]
  {
    if articles != [] {
      var init := articles[..|articles| - 1];
      AssignedDistinct(init, slugify);
      var slugs := Assigned(articles, slugify);
      var prev := Assigned(init, slugify);
      var a := articles[|articles| - 1];
      assert slugs[|slugs| - 1] !in prev;
      forall i, j | 0 <= i < j < |slugs| ensures slugs[i] != slugs[j] {
        if j < |prev| {
          assert slugs[i] == prev[i] && slugs[j] == prev[j];
        } else {
          assert slugs[i] == prev[i] && prev[i] in prev;
        }
      }
    }
  }

  /** An article whose slugified title nobody holds keeps it unsuffixed. */
  lemma FreeTitleUnsuffixed(articles: seq<ArticleRow>, slugify: string -> string, i: nat)
    requires i < |articles|
    requires slugify(articles[i].title) !in Assigned(articles[..i], slugify)
    ensures Assigned(articles, slugify)[i] == slugify(articles[i].title)
  {
    SlugShape(articles, slugify, i);
    AssignedPrefix(articles, slugify, i);
    var slugs := Assigned(articles, slugify);
    var base, suffix := slugify(articles[i].title), Suffix(articles[i].id);
    var k: nat :| slugs[i] == base + Repeat(suffix, k) && forall j :: 0 <= j < k ==> Candidate(base, suffix, j) in slugs[..i];
    assert Candidate(base, suffix, 0) == base;
    if k > 0 {
      assert false;
    }
  }
}
