/** The excerpt builder of the preview-generation script: cut a long article
    text at a word boundary and mark the cut with "...". */
module GeneratePreviews {
  import opened Wrappers
  import opened PyStr

  /** The length the script passes for every preview text. */
  const PreviewTextMaxLength: int := 300

  /** Python's `s.rfind(ch, 0, end)` for an already normalised `end`:
      the last index below `end` holding `ch`, or -1. */
  function RFind(s: string, ch: char, end: nat): (r: int)
    requires end <= |s|
    ensures r == -1 <==> forall k :: 0 <= k < end ==> s[k] != ch
    ensures r != -1 ==> 0 <= r < end && s[r] == ch && forall k :: r < k < end ==> s[k] != ch
  {
    if end == 0 then -1
    else if s[end - 1] == ch then end - 1
    else RFind(s, ch, end - 1)
  }

  /** The cut of a text longer than `max_length`: at the last space before
      `max_length`, stripped, or a hard cut when there is none, and "..."
      appended either way. */
  function Truncated(s: string, maxLength: int): (r: string)
    requires |s| > maxLength
    ensures |r| >= 3 && r[|r| - 3..] == "..."
    ensures maxLength >= 0 ==> |r| <= maxLength + 3
    ensures maxLength >= 0 ==>
      forall i :: 0 <= i < maxLength && s[i] == ' ' && (forall k :: i < k < maxLength ==> s[k] != ' ') ==>
        r == Strip(s[..i]) + "..."
    ensures maxLength >= 0 ==>
      (forall k :: 0 <= k < maxLength ==> s[k] != ' ') ==> r == s[..maxLength] + "..."
  {
    var end := SliceIndex(maxLength, |s|);
    var lastSpace := RFind(s, ' ', end);
    if lastSpace != -1 then
      StripLength(s[..lastSpace]);
      Strip(s[..lastSpace]) + "..."
    else
      PySlice(s, 0, maxLength) + "..."
  }

  /** `create_excerpt(full_text, max_length)`. The text is nullable in the
      database, hence the Option; `max_length` is any int, with Python's
      negative-index meaning for `rfind` and the slice. */
  function CreateExcerpt(fullText: Option<string>, maxLength: int): (r: Option<string>)
    // empty or missing text, or text that already fits, is returned as is
    ensures (fullText == None || fullText == Some("") || |fullText.value| <= maxLength) ==> r == fullText
    // anything else is truncated, and a truncated result ends with "..."
    ensures !(fullText == None || fullText == Some("") || |fullText.value| <= maxLength) ==>
      r.Some? && |r.value| >= 3 && r.value[|r.value| - 3..] == "..."
    // a space before max_length: cut at the last such space and strip
    ensures fullText.Some? && |fullText.value| > maxLength >= 0 ==>
      var s := fullText.value;
      forall i :: 0 <= i < maxLength && s[i] == ' ' && (forall k :: i < k < maxLength ==> s[k] != ' ') ==>
        r == Some(Strip(s[..i]) + "...")
    // no space before max_length: a hard cut at max_length
    ensures fullText.Some? && |fullText.value| > maxLength >= 0 ==>
      var s := fullText.value;
      (forall k :: 0 <= k < maxLength ==> s[k] != ' ') ==> r == Some(s[..maxLength] + "...")
    // a truncated result is never longer than max_length + 3
    ensures fullText.Some? && |fullText.value| > maxLength >= 0 ==> |r.value| <= maxLength + 3
  {
    match fullText
    case None => fullText
    case Some(s) =>
      if s == "" || |s| <= maxLength then fullText
      else Some(Truncated(s, maxLength))
  }

  lemma StripLength(s: string)
    ensures |Strip(s)| <= |s|
  {
  }

  /** The script's call: a missing text stays missing, and every preview
      text it writes is at most `PreviewTextMaxLength` + 3 characters. */
  lemma PreviewTextBound(text: Option<string>)
    ensures var r := CreateExcerpt(text, PreviewTextMaxLength);
      (r.None? <==> text.None?) && (r.Some? ==> |r.value| <= PreviewTextMaxLength + 3)
  {
  }
}
