/** File names for visual content (python/scripts/assign_visual_content_filenames.py):
    a name is a UUID's 32 hex digits plus the extension, and the script
    names every row whose name is still missing. `uuid4().hex` is random,
    so the k-th UUID drawn is a parameter. */
module VisualFilenames {
  import opened Wrappers
  import opened PyStr

  /** A visual content row as far as the script touches it. */
  datatype VisualRow = VisualRow(id: int, name: Option<string>, extension: Option<string>)

  /** `generate_unique_filename` with the UUID's hex as `base`: the bare
      base when there is no extension (None or ""), otherwise the base, a
      dot, and the extension without its leading dots. */
  function UniqueFilename(base: string, extension: Option<string>): (r: string)
    ensures |r| >= |base| && r[..|base|] == base
    ensures extension.None? || extension == Some("") ==> r == base
  {
    if extension.Some? && extension.value != "" then base + "." + LStripChar(extension.value, '.')
    else base
  }

  /** With an extension, the name is the base, a dot, and the extension
      with only its leading dots removed, so it does not start with another
      dot. */
  lemma ExtensionAppended(base: string, ext: string)
    requires ext != ""
    ensures exists d ::
              && 0 <= d <= |ext|
              && (forall i :: 0 <= i < d ==> ext[i] == '.')
              && UniqueFilename(base, Some(ext)) == base + "." + ext[d..]
              && (d == |ext| || ext[d] != '.')
  {
    var e := LStripChar(ext, '.');
    assert UniqueFilename(base, Some(ext)) == base + "." + ext[|ext| - |e|..];
  }

  predicate IsHexDigit(c: char)
  {
    '0' <= c <= '9' || 'a' <= c <= 'f'
  }

  /** With a UUID hex base, the name starts with 32 hex digits, and with an
      extension, the 33rd character is the dot. */
  lemma FilenameStartsWithHex(base: string, extension: Option<string>)
    requires |base| == 32 && forall i :: 0 <= i < 32 ==> IsHexDigit(base[i])
    ensures var r := UniqueFilename(base, extension);
      |r| >= 32 && (forall i :: 0 <= i < 32 ==> IsHexDigit(r[i])) &&
      (extension.Some? && extension.value != "" ==> |r| >= 33 && r[32] == '.')
  {
  }

  /** ".jpg" and "jpg" give the same name, and so does any number of
      leading dots. */
  lemma LeadingDotIgnored(base: string, ext: string)
    requires ext != ""
    ensures UniqueFilename(base, Some("." + ext)) == UniqueFilename(base, Some(ext))
  {
    assert ("." + ext)[0] == '.' && ("." + ext)[1..] == ext;
  }

  /** How many rows have no name yet. */
  function Unnamed(rows: seq<VisualRow>): (n: nat)
    ensures n <= |rows|
  {
    if rows == [] then 0
    else Unnamed(rows[..|rows| - 1]) + (if rows[|rows| - 1].name.None? then 1 else 0)
  }

  /** The row after the script: an unnamed row at position `i` gets the
      UUID drawn for it, which is the one after those drawn for the
      unnamed rows before it. */
  function Renamed(rows: seq<VisualRow>, uuid: nat -> string, i: nat): VisualRow
    requires i < |rows|
  {
    var row := rows[i];
    if row.name.None? then row.(name := Some(UniqueFilename(uuid(Unnamed(rows[..i])), row.extension)))
    else row
  }

  /** `assign_missing_filenames`: the rows whose name is None are named in
      table order, each with a fresh UUID, and the count of names assigned
      is returned. */
  method AssignMissingFilenames(rows: array<VisualRow>, uuid: nat -> string) returns (assignedCount: nat)
    modifies rows
    ensures assignedCount == Unnamed(old(rows[..]))
    ensures forall i :: 0 <= i < rows.Length ==> rows[i] == Renamed(old(rows[..]), uuid, i)
  {
    assignedCount := 0;
    ghost var before := rows[..];
    for i := 0 to rows.Length
      invariant assignedCount == Unnamed(before[..i])
      invariant forall j :: 0 <= j < i ==> rows[j] == Renamed(before, uuid, j)
      invariant forall j :: i <= j < rows.Length ==> rows[j] == before[j]
    {
      assert before[..i + 1][..i] == before[..i];
      var row := rows[i];
      if row.name.None? {
        var newName := UniqueFilename(uuid(assignedCount), row.extension);
        rows[i] := row.(name := Some(newName));
        assignedCount := assignedCount + 1;
      }
    }
    assert before[..rows.Length] == before;
  }

  /** After the script every row has a name, rows that had one keep it,
      and ids and extensions are untouched. */
  lemma RenamedAllNamed(rows: seq<VisualRow>, uuid: nat -> string, i: nat)
    requires i < |rows|
    ensures Renamed(rows, uuid, i).name.Some?
    ensures Renamed(rows, uuid, i).id == rows[i].id && Renamed(rows, uuid, i).extension == rows[i].extension
    ensures rows[i].name.Some? ==> Renamed(rows, uuid, i) == rows[i]
  {
  }

  /** Distinct unnamed rows draw distinct UUIDs: the count before a later
      unnamed row is strictly larger. */
  lemma {:induction false} DistinctDraws(rows: seq<VisualRow>, i: nat, j: nat)
    requires i < j < |rows| && rows[i].name.None?
    ensures Unnamed(rows[..i]) < Unnamed(rows[..j])
    decreases j
  {
    if j == i + 1 {
      assert rows[..j][..i] == rows[..i];
    } else {
      DistinctDraws(rows, i, j - 1);
      assert rows[..j][..j - 1] == rows[..j - 1];
    }
  }
}
