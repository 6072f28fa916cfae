/** Python's ordering of `str` values (lexicographic by code point) and the
    sorted, duplicate-free sequences that `sorted(set(...))` produces. A
    Python set of strings is represented in this model by that sequence. */
module StrOrder {

  /** `a < b` on Python strings. */
  predicate Less(a: string, b: string)
  {
    if |a| == 0 then |b| > 0
    else if |b| == 0 then false
    else if a[0] != b[0] then a[0] < b[0]
    else Less(a[1..], b[1..])
  }

  lemma {:induction false} LessIrreflexive(a: string)
    ensures !Less(a, a)
  {
    if |a| > 0 { LessIrreflexive(a[1..]); }
  }

  lemma {:induction false} LessTransitive(a: string, b: string, c: string)
    requires Less(a, b) && Less(b, c)
    ensures Less(a, c)
  {
    if |a| > 0 && |b| > 0 && |c| > 0 && a[0] == b[0] && b[0] == c[0] {
      LessTransitive(a[1..], b[1..], c[1..]);
    }
  }

  lemma {:induction false} LessTotal(a: string, b: string)
    requires a != b
    ensures Less(a, b) || Less(b, a)
  {
    if |a| > 0 && |b| > 0 && a[0] == b[0] {
      assert a == [a[0]] + a[1..] && b == [b[0]] + b[1..];
      LessTotal(a[1..], b[1..]);
    }
  }

  lemma {:induction false} LessAsymmetric(a: string, b: string)
    ensures !(Less(a, b) && Less(b, a))
  {
    if |a| > 0 && |b| > 0 && a[0] == b[0] {
      LessAsymmetric(a[1..], b[1..]);
    }
  }

  /** The elements of a sequence, as a set. */
  function Elems(xs: seq<string>): set<string>
  {
    set s | s in xs
  }

  /** Strictly ascending: sorted, and hence without duplicates. */
  predicate StrictlySorted(xs: seq<string>)
  {
    forall i, j :: 0 <= i < j < |xs| ==> Less(xs[i], xs[j])
  }

  /** Strict ascent between neighbours is enough for strict ascent overall. */
  lemma {:induction false} AdjacentSorted(xs: seq<string>)
    requires forall i :: 0 <= i < |xs| - 1 ==> Less(xs[i], xs[i + 1])
    ensures StrictlySorted(xs)
  {
    if |xs| > 1 {
      AdjacentSorted(xs[1..]);
      forall j | 1 < j < |xs| ensures Less(xs[0], xs[j]) {
        assert Less(xs[1..][0], xs[1..][j - 1]);
        LessTransitive(xs[0], xs[1], xs[j]);
      }
    }
  }

  /** Puts `x` into its place in a strictly sorted sequence, unless it is
      already there. */
  function Insert(x: string, xs: seq<string>): (r: seq<string>)
    requires StrictlySorted(xs)
    ensures StrictlySorted(r)
    ensures Elems(r) == Elems(xs) + {x}
    ensures x in xs ==> r == xs
  {
    if |xs| == 0 then [x]
    else if x == xs[0] then xs
    else if Less(x, xs[0]) then
      assert x !in xs by {
        forall k | 0 < k < |xs| ensures xs[k] != x {
          LessAsymmetric(x, xs[0]);
        }
      }
      var r := [x] + xs;
      forall j | 0 < j < |r| ensures Less(r[0], r[j]) {
        if j > 1 { LessTransitive(x, xs[0], xs[j - 1]); }
      }
      r
    else
      LessTotal(x, xs[0]);
      var rest := Insert(x, xs[1..]);
      assert xs == [xs[0]] + xs[1..];
      var r := [xs[0]] + rest;
      forall j | 0 < j < |r| ensures Less(r[0], r[j]) {
        assert r[j] in Elems(rest);
        assert r[j] == x || r[j] in Elems(xs[1..]);
      }
      r
  }

  /** `sorted(set(xs))`: the distinct elements of `xs`, ascending. */
  function SortedSet(xs: seq<string>): (r: seq<string>)
    ensures StrictlySorted(r)
    ensures Elems(r) == Elems(xs)
    decreases |xs|
  {
    if |xs| == 0 then []
    else
      var prefix := xs[..|xs| - 1];
      assert xs == prefix + [xs[|xs| - 1]];
      Insert(xs[|xs| - 1], SortedSet(prefix))
  }

  lemma ElemsEmpty(xs: seq<string>)
    ensures Elems(xs) == {} <==> xs == []
  {
    if xs != [] { assert xs[0] in Elems(xs); }
  }

  /** The head of a strictly sorted sequence is below every other element. */
  lemma HeadIsLeast(xs: seq<string>)
    requires StrictlySorted(xs) && |xs| > 0
    ensures forall s :: s in Elems(xs) && s != xs[0] ==> Less(xs[0], s)
  {
  }

  /** Two strictly sorted sequences with the same elements are equal: a
      sorted set has exactly one listing. */
  lemma {:induction false} SortedUnique(xs: seq<string>, ys: seq<string>)
    requires StrictlySorted(xs) && StrictlySorted(ys)
    requires Elems(xs) == Elems(ys)
    ensures xs == ys
  {
    ElemsEmpty(xs);
    ElemsEmpty(ys);
    if |xs| > 0 && |ys| > 0 {
      HeadIsLeast(xs);
      HeadIsLeast(ys);
      assert xs[0] in Elems(xs) && ys[0] in Elems(ys);
      LessAsymmetric(xs[0], ys[0]);
      assert xs[0] == ys[0];
      forall s | s in Elems(xs[1..]) ensures s in Elems(ys[1..]) {
        var i :| 1 <= i < |xs| && xs[i] == s;
        assert Less(xs[0], s);
        LessIrreflexive(s);
        assert s in Elems(ys);
      }
      forall s | s in Elems(ys[1..]) ensures s in Elems(xs[1..]) {
        var j :| 1 <= j < |ys| && ys[j] == s;
        assert Less(ys[0], s);
        LessIrreflexive(s);
        assert s in Elems(xs);
      }
      SortedUnique(xs[1..], ys[1..]);
      assert xs == [xs[0]] + xs[1..] && ys == [ys[0]] + ys[1..];
    }
  }
}
