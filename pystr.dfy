/** The pieces of Python's `str` behaviour that the modelled code relies on:
    `isspace`/`strip`, `lower`, `split`/`join` on a one-character separator,
    slice-index normalisation, `str(int)` and string repetition. Strings are
    sequences of Unicode code points, as Python's are. */
module PyStr {

  /** The characters Python's `str.isspace()` (and hence `str.strip()`) treats
      as whitespace. */
  predicate IsSpace(c: char) {
    || c == ' ' || c == '\t' || c == '\n' || c == '\r' || c == '\U{0B}' || c == '\U{0C}'
    || ('\U{1C}' <= c <= '\U{1F}')
    || c == '\U{85}' || c == '\U{A0}' || c == '\U{1680}'
    || ('\U{2000}' <= c <= '\U{200A}')
    || c == '\U{2028}' || c == '\U{2029}' || c == '\U{202F}' || c == '\U{205F}' || c == '\U{3000}'
  }

  predicate AllSpace(s: string) {
    forall i :: 0 <= i < |s| ==> IsSpace(s[i])
  }

  /** Drops leading whitespace. */
  function StripLeft(s: string): (r: string)
    ensures |r| <= |s| && r == s[|s| - |r|..]
    ensures AllSpace(s[..|s| - |r|])
    ensures r == [] || !IsSpace(r[0])
  {
    if |s| > 0 && IsSpace(s[0]) then
      var r := StripLeft(s[1..]);
      assert s[1..][..|s| - 1 - |r|] == s[1..|s| - |r|];
      r
    else s
  }

  /** Drops trailing whitespace. */
  function StripRight(s: string): (r: string)
    ensures |r| <= |s| && r == s[..|r|]
    ensures AllSpace(s[|r|..])
    ensures r == [] || !IsSpace(r[|r| - 1])
  {
    if |s| > 0 && IsSpace(s[|s| - 1]) then
      var r := StripRight(s[..|s| - 1]);
      assert s[..|s| - 1][|r|..] + [s[|s| - 1]] == s[|r|..];
      r
    else s
  }

  /** Python's `s.strip()`. */
  function Strip(s: string): (r: string)
  {
    StripRight(StripLeft(s))
  }

  /** A string is stripped to "" exactly when it is all whitespace. */
  lemma StripEmptyIffAllSpace(s: string)
    ensures Strip(s) == [] <==> AllSpace(s)
  {
    var l := StripLeft(s);
    var i := |s| - |l|;
    if Strip(s) == [] {
      assert l[0..] == l;
      assert l == [];
      assert s[..i] == s;
    } else {
      assert s[i] == l[0] && !IsSpace(l[0]);
    }
  }

  /** Python's `s.lstrip(ch)`: drops every leading occurrence of `ch`. */
  function LStripChar(s: string, ch: char): (r: string)
    ensures |r| <= |s| && r == s[|s| - |r|..]
    ensures forall i :: 0 <= i < |s| - |r| ==> s[i] == ch
    ensures r == [] || r[0] != ch
  {
    if |s| > 0 && s[0] == ch then LStripChar(s[1..], ch) else s
  }

  /** Python's `str.lower()` on one character. ASCII capitals map to their
      lower-case letters and KELVIN SIGN (U+212A) maps to 'k', the one
      non-ASCII character Python lowers into ASCII; every other character is
      kept (see README for what this leaves out). */
  function LowerChar(c: char): char
  {
    if 'A' <= c <= 'Z' then (c as int + 32) as char
    else if c == '\U{212A}' then 'k'
    else c
  }

  function Lower(s: string): (r: string)
    ensures |r| == |s|
    ensures forall i :: 0 <= i < |s| ==> r[i] == LowerChar(s[i])
  {
    if s == [] then [] else [LowerChar(s[0])] + Lower(s[1..])
  }

  /** Python's `s.split(sep)` for a one-character separator: always at least
      one piece, and "" gives [""]. */
  function Split(s: string, sep: char): (r: seq<string>)
    ensures |r| >= 1
    ensures forall k :: 0 <= k < |r| ==> sep !in r[k]
  {
    if |s| == 0 then [""]
    else
      var rest := Split(s[1..], sep);
      if s[0] == sep then [""] + rest
      else [[s[0]] + rest[0]] + rest[1..]
  }

  /** Python's `sep.join(parts)`. */
  function Join(parts: seq<string>, sep: char): string
  {
    if |parts| == 0 then ""
    else if |parts| == 1 then parts[0]
    else parts[0] + [sep] + Join(parts[1..], sep)
  }

  lemma {:induction false} JoinSplit(s: string, sep: char)
    ensures Join(Split(s, sep), sep) == s
  {
    if |s| > 0 {
      JoinSplit(s[1..], sep);
      var rest := Split(s[1..], sep);
      if s[0] != sep {
        if |rest| == 1 {
        } else {
          assert Join(rest, sep) == rest[0] + [sep] + Join(rest[1..], sep);
          assert ([[s[0]] + rest[0]] + rest[1..])[1..] == rest[1..];
        }
      }
    }
  }

  lemma {:induction false} SplitJoin(parts: seq<string>, sep: char)
    requires |parts| >= 1
    requires forall k :: 0 <= k < |parts| ==> sep !in parts[k]
    ensures Split(Join(parts, sep), sep) == parts
  {
    if |parts| == 1 {
      SplitNoSep(parts[0], sep);
    } else {
      SplitJoin(parts[1..], sep);
      SplitPrefix(parts[0], [sep] + Join(parts[1..], sep), sep);
      assert parts[0] + [sep] + Join(parts[1..], sep) == parts[0] + ([sep] + Join(parts[1..], sep));
      assert Split([sep] + Join(parts[1..], sep), sep) == [""] + parts[1..] by {
        assert ([sep] + Join(parts[1..], sep))[1..] == Join(parts[1..], sep);
      }
      assert parts[0] + "" == parts[0];
      assert [parts[0]] + parts[1..] == parts;
    }
  }

  lemma {:induction false} SplitNoSep(s: string, sep: char)
    requires sep !in s
    ensures Split(s, sep) == [s]
  {
    if |s| > 0 {
      SplitNoSep(s[1..], sep);
      assert [s[0]] + s[1..] == s;
    }
  }

  /** Splitting `w + t` for a separator-free word `w` glues `w` to the first
      piece of `t`. */
  lemma {:induction false} SplitPrefix(w: string, t: string, sep: char)
    requires sep !in w
    ensures Split(w + t, sep) == [w + Split(t, sep)[0]] + Split(t, sep)[1..]
  {
    if |w| > 0 {
      SplitPrefix(w[1..], t, sep);
      assert (w + t)[1..] == w[1..] + t;
      assert [w[0]] + (w[1..] + Split(t, sep)[0]) == w + Split(t, sep)[0];
    } else {
      assert w + t == t;
      assert w + Split(t, sep)[0] == Split(t, sep)[0];
      assert [Split(t, sep)[0]] + Split(t, sep)[1..] == Split(t, sep);
    }
  }

  /** Python's normalisation of a slice bound `i` against a length `n`:
      a negative bound counts from the end, and both are clamped to [0, n]. */
  function SliceIndex(i: int, n: nat): (r: nat)
    ensures r <= n
    ensures 0 <= i <= n ==> r == i
    ensures i > n ==> r == n
    ensures i < 0 ==> r == if n + i < 0 then 0 else n + i
  {
    if i < 0 then (if n + i < 0 then 0 else n + i)
    else if i > n then n
    else i
  }

  /** Python's `s[start:stop]`. */
  function PySlice<T>(s: seq<T>, start: int, stop: int): (r: seq<T>)
    ensures var a, b := SliceIndex(start, |s|), SliceIndex(stop, |s|);
      r == if a < b then s[a..b] else []
  {
    var a, b := SliceIndex(start, |s|), SliceIndex(stop, |s|);
    if a < b then s[a..b] else []
  }

  /** With a non-negative start and length, `s[start:start + len]` is the
      stretch of `s` from `start`, `len` long or cut short by the end. */
  lemma PySliceForward<T>(s: seq<T>, start: int, len: int)
    requires start >= 0 && len >= 0
    ensures var r := PySlice(s, start, start + len);
      |r| == (if start >= |s| then 0 else if start + len <= |s| then len else |s| - start) &&
      forall i :: 0 <= i < |r| ==> r[i] == s[start + i]
  {
    var a, b := SliceIndex(start, |s|), SliceIndex(start + len, |s|);
    assert a <= b;
    if a < b {
      assert a == start;
    }
  }

  /** Consecutive slices of one length concatenate to the slice of twice
      that length. */
  lemma PySliceAdjacent<T>(s: seq<T>, start: int, len: int)
    requires start >= 0 && len >= 0
    ensures PySlice(s, start, start + len) + PySlice(s, start + len, start + len + len)
         == PySlice(s, start, start + 2 * len)
  {
    var n := |s|;
    var a, b, c := SliceIndex(start, n), SliceIndex(start + len, n), SliceIndex(start + 2 * len, n);
    assert a <= b <= c;
    assert start + len + len == start + 2 * len;
    if a < b && b < c {
      assert s[a..b] + s[b..c] == s[a..c];
    } else if a == b {
      assert PySlice(s, start, start + len) == [];
    } else {
      assert PySlice(s, start + len, start + len + len) == [];
    }
  }

  /** Decimal digits of a natural number, as `str` prints it. */
  function NatToStr(n: nat): (r: string)
    ensures |r| >= 1
    ensures forall i :: 0 <= i < |r| ==> '0' <= r[i] <= '9'
  {
    if n < 10 then [DigitChar(n)] else NatToStr(n / 10) + [DigitChar(n % 10)]
  }

  function DigitChar(d: nat): (c: char)
    requires d < 10
    ensures '0' <= c <= '9'
  {
    ('0' as int + d) as char
  }

  /** Python's `str(i)` for an int. */
  function IntToStr(i: int): (r: string)
    ensures |r| >= 1
  {
    if i < 0 then "-" + NatToStr(-i) else NatToStr(i)
  }

  /** `s` written `k` times in a row. */
  function Repeat(s: string, k: nat): (r: string)
    ensures |r| == k * |s|
  {
    if k == 0 then "" else Repeat(s, k - 1) + s
  }
}
