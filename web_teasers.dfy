/** Teaser placement in article HTML (python/traffic_arbitration/web/utils.py):
    a teaser block goes right after every n-th paragraph. The document is
    its sequence of top-level nodes, paragraphs and everything else; the
    output keeps each source node and adds teaser nodes. */
module WebTeasers {
  import opened Wrappers

  /** The default `teasers_every_n_paragraphs`. */
  const DefaultEveryN: int := 3

  datatype Node = Para(text: string) | Other(text: string)

  datatype OutNode = Source(node: Node) | Teaser

  /** `(i + 1) % 0` raises ZeroDivisionError. */
  datatype TeaserError = ZeroModulus

  function Paras(doc: seq<Node>): (p: nat)
    ensures p <= |doc|
  {
    if doc == [] then 0 else Paras(doc[..|doc| - 1]) + (if doc[|doc| - 1].Para? then 1 else 0)
  }

  function Teasers(out: seq<OutNode>): nat
  {
    if out == [] then 0 else Teasers(out[..|out| - 1]) + (if out[|out| - 1] == Teaser then 1 else 0)
  }

  /** The document as it is, with no teaser. */
  function Sources(doc: seq<Node>): (out: seq<OutNode>)
    ensures |out| == |doc| && forall i :: 0 <= i < |doc| ==> out[i] == Source(doc[i])
  {
    seq(|doc|, i requires 0 <= i < |doc| => Source(doc[i]))
  }

  /** Drops the teasers and unwraps the rest. */
  function Erase(out: seq<OutNode>): seq<Node>
  {
    if out == [] then []
    else Erase(out[..|out| - 1]) + (if out[|out| - 1].Source? then [out[|out| - 1].node] else [])
  }

  /** Every paragraph keeps its place, and a teaser follows the one that is
      the (i+1)-th paragraph exactly when (i + 1) % n == 0. The test is
      Python's `%`; its result is zero exactly when n divides i + 1, for
      either sign of n, as with Dafny's. */
  function WithTeasers(doc: seq<Node>, n: int): seq<OutNode>
    requires n != 0
  {
    if doc == [] then []
    else WithTeasers(doc[..|doc| - 1], n) + Placed(doc[|doc| - 1], Paras(doc), n)
  }

  /** A teaser is due after the `count`-th paragraph when n divides
      `count`. */
  predicate TeaserDue(node: Node, count: nat, n: int)
    requires n != 0
  {
    node.Para? && count % n == 0
  }

  /** A node in the output, followed by a teaser when one is due. */
  function Placed(node: Node, count: nat, n: int): (out: seq<OutNode>)
    requires n != 0
    ensures Erase(out) == [node] && out[0] == Source(node)
    ensures Teasers(out) == (if TeaserDue(node, count, n) then 1 else 0)
    ensures |out| == (if TeaserDue(node, count, n) then 2 else 1)
    ensures |out| == 2 ==> out[1] == Teaser && node.Para?
  {
    if TeaserDue(node, count, n) then
      var out := [Source(node), Teaser];
      assert [Source(node)][..0] == [];
      assert Erase([Source(node)]) == [node] && Teasers([Source(node)]) == 0;
      assert out[..1] == [Source(node)];
      out
    else
      assert [Source(node)][..0] == [];
      [Source(node)]
  }

  /** `insert_teasers`: empty content comes back empty, content with no
      paragraph comes back unchanged, and n = 0 fails at the modulus. */
  function InsertTeasers(doc: seq<Node>, n: int := DefaultEveryN): Result<seq<OutNode>, TeaserError>
  {
    if doc == [] then Success([])
    else if Paras(doc) == 0 then Success(Sources(doc))
    else if n == 0 then Failure(ZeroModulus)
    else Success(WithTeasers(doc, n))
  }

  /** The loop over the document's paragraphs, numbering them from 0. */
  method InsertTeasersLoop(doc: seq<Node>, n: int := DefaultEveryN) returns (r: Result<seq<OutNode>, TeaserError>)
    ensures r == InsertTeasers(doc, n)
  {
    if doc == [] {
      return Success([]);
    }
    if Paras(doc) == 0 {
      return Success(Sources(doc));
    }
    if n == 0 {
      return Failure(ZeroModulus);
    }
    var out: seq<OutNode> := [];
    var i := 0;
    for j := 0 to |doc|
      invariant i == Paras(doc[..j])
      invariant out == WithTeasers(doc[..j], n)
    {
      assert doc[..j + 1][..j] == doc[..j];
      out := out + [Source(doc[j])];
      if doc[j].Para? {
        if (i + 1) % n == 0 {
          out := out + [Teaser];
        }
        i := i + 1;
      }
    }
    assert doc[..|doc|] == doc;
    return Success(out);
  }

  // ---------------------------------------------------------------------
  // What the placement guarantees

  lemma {:induction false} EraseAppend(a: seq<OutNode>, b: seq<OutNode>)
    ensures Erase(a + b) == Erase(a) + Erase(b)
    decreases |b|
  {
    if b != [] {
      EraseAppend(a, b[..|b| - 1]);
      assert (a + b)[..|a + b| - 1] == a + b[..|b| - 1];
    } else {
      assert a + b == a;
    }
  }

  lemma {:induction false} TeasersAppend(a: seq<OutNode>, b: seq<OutNode>)
    ensures Teasers(a + b) == Teasers(a) + Teasers(b)
    decreases |b|
  {
    if b != [] {
      TeasersAppend(a, b[..|b| - 1]);
      assert (a + b)[..|a + b| - 1] == a + b[..|b| - 1];
    } else {
      assert a + b == a;
    }
  }

  /** Removing the teasers gives back the document: nothing is lost and
      the order is kept. */
  lemma {:induction false} EraseTeasers(doc: seq<Node>, n: int)
    requires n != 0
    ensures Erase(WithTeasers(doc, n)) == doc
  {
    if doc != [] {
      var init := doc[..|doc| - 1];
      EraseTeasers(init, n);
      EraseAppend(WithTeasers(init, n), Placed(doc[|doc| - 1], Paras(doc), n));
    }
  }

  /** Division by m > 0 has one quotient and one remainder. */
  lemma DivModUnique(a: int, m: int, q: int, r: int)
    requires m > 0 && 0 <= r < m && a == m * q + r
    ensures a / m == q && a % m == r
  {
    var q0, r0 := a / m, a % m;
    var d := q - q0;
    assert m * d == r0 - r;
    if d >= 1 {
      assert false;
    } else if d <= -1 {
      assert false;
    }
  }

  /** One more paragraph adds one to the floor exactly when m divides it. */
  lemma DivStep(p: nat, m: int)
    requires p >= 1 && m >= 1
    ensures p / m == (p - 1) / m + (if p % m == 0 then 1 else 0)
  {
    var q, r := (p - 1) / m, (p - 1) % m;
    if r + 1 == m {
      DivModUnique(p, m, q + 1, 0);
    } else {
      DivModUnique(p, m, q, r + 1);
    }
  }

  /** For n >= 1 exactly floor(paragraphs / n) teasers are inserted. */
  lemma {:induction false} TeaserCount(doc: seq<Node>, n: int)
    requires n >= 1
    ensures Teasers(WithTeasers(doc, n)) == Paras(doc) / n
  {
    if doc != [] {
      var init, last := doc[..|doc| - 1], doc[|doc| - 1];
      TeaserCount(init, n);
      TeasersAppend(WithTeasers(init, n), Placed(last, Paras(doc), n));
      if last.Para? {
        DivStep(Paras(doc), n);
      } else {
        assert Paras(doc) == Paras(init);
      }
    }
  }

  /** Every teaser in `out` comes right after a paragraph. */
  predicate TeasersFollowParagraphs(out: seq<OutNode>)
  {
    forall j {:trigger out[j]} :: 0 <= j < |out| && out[j] == Teaser ==>
      j >= 1 && out[j - 1].Source? && out[j - 1].node.Para?
  }

  /** A teaser only ever follows a paragraph, so no two are adjacent and
      none comes first. */
  lemma {:induction false} TeaserAfterParagraph(doc: seq<Node>, n: int)
    requires n != 0
    ensures TeasersFollowParagraphs(WithTeasers(doc, n))
  {
    if doc != [] {
      var init := doc[..|doc| - 1];
      TeaserAfterParagraph(init, n);
      var prev, tail := WithTeasers(init, n), Placed(doc[|doc| - 1], Paras(doc), n);
      var out := prev + tail;
      forall j | 0 <= j < |out| && out[j] == Teaser
        ensures j >= 1 && out[j - 1].Source? && out[j - 1].node.Para?
      {
        if j < |prev| {
          assert prev[j] == Teaser;
          assert out[j - 1] == prev[j - 1];
        } else {
          assert out[j] == tail[j - |prev|];
          assert j - |prev| == 1 && out[j - 1] == tail[0];
        }
      }
    }
  }

  /** Each paragraph's teaser is decided when that paragraph is reached:
      the output for a prefix of the document is a prefix of the output. */
  lemma {:induction false} TeasersPrefix(doc: seq<Node>, n: int, j: nat)
    requires n != 0 && j <= |doc|
    ensures WithTeasers(doc[..j], n) <= WithTeasers(doc, n)
    decreases |doc|
  {
    if j < |doc| {
      var init := doc[..|doc| - 1];
      TeasersPrefix(init, n, j);
      assert init[..j] == doc[..j];
    } else {
      assert doc[..j] == doc;
    }
  }

  /** Without paragraphs, or with an empty document, the content is
      returned as it came; with paragraphs, n = 0 is the only failure. */
  lemma InsertTeasersCases(doc: seq<Node>, n: int)
    ensures Paras(doc) == 0 ==> InsertTeasers(doc, n) == Success(Sources(doc))
    ensures InsertTeasers(doc, n).Failure? <==> Paras(doc) > 0 && n == 0
  {
  }

  /** With the default frequency `insert_teasers` never fails, and a
      document with paragraphs gets one teaser per three of them. */
  lemma DefaultFrequency(doc: seq<Node>)
    ensures InsertTeasers(doc).Success?
    ensures Paras(doc) > 0 ==> Teasers(InsertTeasers(doc).value) == Paras(doc) / 3
  {
    if Paras(doc) > 0 {
      TeaserCount(doc, DefaultEveryN);
    }
  }
}
