/** Text helpers shared by the scraper pipeline: Cyrillic-to-Latin
    transliteration and the merge of `;`-separated value lists. */
module CommonUtils {
  import opened Wrappers
  import opened PyStr
  import opened StrOrder

  /** The transliteration table: the Latin image of a Russian letter, or None
      for a character the table does not list. */
  function TranslitTable(c: char): Option<string>
  {
    match c
    case 'а' => Some("a")
    case 'б' => Some("b")
    case 'в' => Some("v")
    case 'г' => Some("g")
    case 'д' => Some("d")
    case 'е' => Some("e")
    case 'ё' => Some("e")
    case 'ж' => Some("zh")
    case 'з' => Some("z")
    case 'и' => Some("i")
    case 'й' => Some("y")
    case 'к' => Some("k")
    case 'л' => Some("l")
    case 'м' => Some("m")
    case 'н' => Some("n")
    case 'о' => Some("o")
    case 'п' => Some("p")
    case 'р' => Some("r")
    case 'с' => Some("s")
    case 'т' => Some("t")
    case 'у' => Some("u")
    case 'ф' => Some("f")
    case 'х' => Some("kh")
    case 'ц' => Some("ts")
    case 'ч' => Some("ch")
    case 'ш' => Some("sh")
    case 'щ' => Some("sch")
    case 'ъ' => Some("")
    case 'ы' => Some("y")
    case 'ь' => Some("")
    case 'э' => Some("e")
    case 'ю' => Some("yu")
    case 'я' => Some("ya")
    case 'А' => Some("A")
    case 'Б' => Some("B")
    case 'В' => Some("V")
    case 'Г' => Some("G")
    case 'Д' => Some("D")
    case 'Е' => Some("E")
    case 'Ё' => Some("E")
    case 'Ж' => Some("Zh")
    case 'З' => Some("Z")
    case 'И' => Some("I")
    case 'Й' => Some("Y")
    case 'К' => Some("K")
    case 'Л' => Some("L")
    case 'М' => Some("M")
    case 'Н' => Some("N")
    case 'О' => Some("O")
    case 'П' => Some("P")
    case 'Р' => Some("R")
    case 'С' => Some("S")
    case 'Т' => Some("T")
    case 'У' => Some("U")
    case 'Ф' => Some("F")
    case 'Х' => Some("Kh")
    case 'Ц' => Some("Ts")
    case 'Ч' => Some("Ch")
    case 'Ш' => Some("Sh")
    case 'Щ' => Some("Sch")
    case 'Ъ' => Some("")
    case 'Ы' => Some("Y")
    case 'Ь' => Some("")
    case 'Э' => Some("E")
    case 'Ю' => Some("Yu")
    case 'Я' => Some("Ya")
    case _ => None
  }

  /** What one character becomes: its table image, or itself. */
  function Image(c: char): string
  {
    match TranslitTable(c)
    case Some(img) => img
    case None => [c]
  }

  /** The transliteration of a text, character by character. */
  function Transliterated(text: string): string
  {
    if text == [] then "" else Transliterated(text[..|text| - 1]) + Image(text[|text| - 1])
  }

  /** `transliterate`: appends each character's image in turn. */
  method Transliterate(text: string) returns (r: string)
    ensures r == Transliterated(text)
  {
    r := "";
    var i := 0;
    while i < |text|
      invariant 0 <= i <= |text|
      invariant r == Transliterated(text[..i])
    {
      var ch := text[i];
      match TranslitTable(ch) {
        case Some(img) => r := r + img;
        case None => r := r + [ch];
      }
      assert text[..i + 1][..i] == text[..i];
      i := i + 1;
    }
    assert text[..i] == text;
  }

  /** Every table key is a Cyrillic letter and every image is made of ASCII
      Latin letters, at most three of them. */
  lemma TableShape(c: char)
    ensures TranslitTable(c).Some? ==> '\U{401}' <= c <= '\U{451}'
    ensures TranslitTable(c).Some? ==> |TranslitTable(c).value| <= 3
    ensures TranslitTable(c).Some? ==>
      forall k :: 0 <= k < |TranslitTable(c).value| ==>
        'A' <= TranslitTable(c).value[k] <= 'Z' || 'a' <= TranslitTable(c).value[k] <= 'z'
  {
  }

  /** Transliteration distributes over concatenation. */
  lemma {:induction false} TranslitConcat(a: string, b: string)
    ensures Transliterated(a + b) == Transliterated(a) + Transliterated(b)
  {
    if b != [] {
      var b' := b[..|b| - 1];
      assert (a + b)[..|a + b| - 1] == a + b';
      assert (a + b)[|a + b| - 1] == b[|b| - 1];
      TranslitConcat(a, b');
    } else {
      assert a + b == a;
    }
  }

  /** Text without any table character comes back unchanged. */
  lemma {:induction false} TranslitIdentity(text: string)
    requires forall k :: 0 <= k < |text| ==> TranslitTable(text[k]).None?
    ensures Transliterated(text) == text
  {
    if text != [] {
      TranslitIdentity(text[..|text| - 1]);
      assert text[..|text| - 1] + [text[|text| - 1]] == text;
    }
  }

  /** No table key survives: every output character is outside the table. */
  lemma {:induction false} TranslitLeavesNoKey(text: string)
    ensures forall k :: 0 <= k < |Transliterated(text)| ==> TranslitTable(Transliterated(text)[k]).None?
  {
    if text != [] {
      var init := text[..|text| - 1];
      var c := text[|text| - 1];
      TranslitLeavesNoKey(init);
      TableShape(c);
      var out := Transliterated(text);
      forall k | 0 <= k < |out| ensures TranslitTable(out[k]).None? {
        if k >= |Transliterated(init)| {
          var j := k - |Transliterated(init)|;
          assert out[k] == Image(c)[j];
          if TranslitTable(c).Some? {
            TableShape(out[k]);
          }
        }
      }
    }
  }

  /** The hard and soft signs are dropped entirely. */
  predicate IsSign(c: char)
  {
    c == 'ъ' || c == 'ь' || c == 'Ъ' || c == 'Ь'
  }

  function WithoutSigns(text: string): (r: string)
    ensures forall k :: 0 <= k < |r| ==> !IsSign(r[k])
  {
    if text == [] then ""
    else
      var init := WithoutSigns(text[..|text| - 1]);
      if IsSign(text[|text| - 1]) then init else init + [text[|text| - 1]]
  }

  lemma SignImage(c: char)
    requires IsSign(c)
    ensures Image(c) == ""
  {
  }

  lemma {:induction false} SignsDropped(text: string)
    ensures Transliterated(text) == Transliterated(WithoutSigns(text))
  {
    if text != [] {
      var init := text[..|text| - 1];
      var c := text[|text| - 1];
      SignsDropped(init);
      if IsSign(c) {
        SignImage(c);
      } else {
        var w := WithoutSigns(init) + [c];
        assert w[..|w| - 1] == WithoutSigns(init);
      }
    }
  }

  /** The output is at most three times as long as the input ("щ" -> "sch"). */
  lemma {:induction false} TranslitLength(text: string)
    ensures |Transliterated(text)| <= 3 * |text|
  {
    if text != [] {
      TranslitLength(text[..|text| - 1]);
      TableShape(text[|text| - 1]);
    }
  }

  // ---------------------------------------------------------------------
  // unify_str_values

  /** `filter(None, parts)`: the non-empty parts, in order. */
  function NonEmpty(parts: seq<string>): (r: seq<string>)
    ensures forall k :: 0 <= k < |r| ==> r[k] != ""
    ensures Elems(r) == Elems(parts) - {""}
  {
    if parts == [] then []
    else
      var rest := NonEmpty(parts[1..]);
      assert parts == [parts[0]] + parts[1..];
      assert Elems(parts) == {parts[0]} + Elems(parts[1..]);
      if parts[0] == "" then rest
      else
        assert Elems([parts[0]] + rest) == {parts[0]} + Elems(rest);
        [parts[0]] + rest
  }

  /** The set of non-empty pieces of a `sep`-separated text. */
  function PieceSet(s: string, sep: char): set<string>
  {
    Elems(NonEmpty(Split(s, sep)))
  }

  /** `unify_str_values(existing_value, new_value, sep)`. */
  function UnifyStrValues(existing: string, incoming: string, sep: char): string
  {
    Join(SortedSet(NonEmpty(Split(existing, sep)) + NonEmpty(Split(incoming, sep))), sep)
  }

  /** Every piece is non-empty and free of the separator. */
  predicate Clean(parts: seq<string>, sep: char)
  {
    forall k :: 0 <= k < |parts| ==> parts[k] != "" && sep !in parts[k]
  }

  lemma CleanByElems(parts: seq<string>, from: seq<string>, sep: char)
    requires Clean(from, sep)
    requires Elems(parts) <= Elems(from)
    ensures Clean(parts, sep)
  {
    forall k | 0 <= k < |parts| ensures parts[k] != "" && sep !in parts[k] {
      assert parts[k] in Elems(from);
      var i :| 0 <= i < |from| && from[i] == parts[k];
    }
  }

  lemma NonEmptyPiecesClean(s: string, sep: char)
    ensures Clean(NonEmpty(Split(s, sep)), sep)
  {
    var sp := Split(s, sep);
    var ne := NonEmpty(sp);
    forall k | 0 <= k < |ne| ensures ne[k] != "" && sep !in ne[k] {
      assert ne[k] in Elems(ne);
      assert ne[k] in Elems(sp);
      var i :| 0 <= i < |sp| && sp[i] == ne[k];
    }
  }

  /** The pieces of the result are exactly the union of the non-empty pieces
      of both inputs, and they are listed in strictly ascending order (so
      without duplicates), none of them empty. */
  lemma UnifyPieces(existing: string, incoming: string, sep: char)
    ensures PieceSet(UnifyStrValues(existing, incoming, sep), sep) == PieceSet(existing, sep) + PieceSet(incoming, sep)
    ensures var r := UnifyStrValues(existing, incoming, sep);
      r == "" || (StrictlySorted(Split(r, sep)) && forall k :: 0 <= k < |Split(r, sep)| ==> Split(r, sep)[k] != "")
  {
    var a := NonEmpty(Split(existing, sep));
    var b := NonEmpty(Split(incoming, sep));
    var m := SortedSet(a + b);
    NonEmptyPiecesClean(existing, sep);
    NonEmptyPiecesClean(incoming, sep);
    CleanByElems(m, a + b, sep);
    assert Elems(a + b) == Elems(a) + Elems(b);
    if m == [] {
      assert Split("", sep) == [""];
    } else {
      SplitJoin(m, sep);
      assert NonEmpty(m) == m by { NonEmptyKeeps(m); }
    }
  }

  lemma {:induction false} NonEmptyKeeps(parts: seq<string>)
    requires forall k :: 0 <= k < |parts| ==> parts[k] != ""
    ensures NonEmpty(parts) == parts
  {
    if parts != [] {
      NonEmptyKeeps(parts[1..]);
      assert parts == [parts[0]] + parts[1..];
    }
  }

  /** The result depends only on the union of the pieces. */
  lemma UnifyByPieces(a: string, b: string, c: string, d: string, sep: char)
    requires PieceSet(a, sep) + PieceSet(b, sep) == PieceSet(c, sep) + PieceSet(d, sep)
    ensures UnifyStrValues(a, b, sep) == UnifyStrValues(c, d, sep)
  {
    var ab := NonEmpty(Split(a, sep)) + NonEmpty(Split(b, sep));
    var cd := NonEmpty(Split(c, sep)) + NonEmpty(Split(d, sep));
    assert Elems(ab) == PieceSet(a, sep) + PieceSet(b, sep);
    assert Elems(cd) == PieceSet(c, sep) + PieceSet(d, sep);
    SortedUnique(SortedSet(ab), SortedSet(cd));
  }

  lemma UnifyCommutative(a: string, b: string, sep: char)
    ensures UnifyStrValues(a, b, sep) == UnifyStrValues(b, a, sep)
  {
    UnifyByPieces(a, b, b, a, sep);
  }

  /** Merging the same incoming value again changes nothing. */
  lemma UnifyAbsorbs(a: string, b: string, sep: char)
    ensures UnifyStrValues(UnifyStrValues(a, b, sep), b, sep) == UnifyStrValues(a, b, sep)
  {
    var u := UnifyStrValues(a, b, sep);
    UnifyPieces(a, b, sep);
    UnifyByPieces(u, b, a, b, sep);
  }

  lemma UnifyEmpty(sep: char)
    ensures UnifyStrValues("", "", sep) == ""
  {
    assert Split("", sep) == [""];
    assert NonEmpty([""]) == [];
  }
}
