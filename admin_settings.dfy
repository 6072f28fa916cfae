/** Code validation in the admin settings handlers
    (python/traffic_arbitration/admin/routers/settings.py): `create_category`,
    `update_category`, `create_geo`, `create_tag` and `create_locale`. A
    handler collects errors in order; any error re-renders the form and
    writes nothing, otherwise the row is written with the code stripped and
    lowercased. A table is a map from row id to its code and its text
    column (the description of a category or geo, the name of a locale,
    nothing for a tag); new rows take the next id. */
module AdminSettings {
  import opened Wrappers
  import opened PyStr

  /** Which table, and so which pattern the code must match. */
  datatype CodeKind = CategoryKind | GeoKind | TagKind | LocaleKind

  /** The form errors, in the order they can be appended: the three
      validation errors, the malformed-labels error and the error a
      handler reports after an exception rolled its write back. */
  datatype CodeError = Required | BadFormat | AlreadyExists | BadLabels | WriteFailed

  /** What `json.loads` makes of the `labels_json` field: no field (None
      or ""), a value the label loop can iterate (a list, an object, a
      string), text that is not JSON, or a value the loop cannot iterate
      (a number, a boolean, null), on which `for` raises TypeError.
      Label rows themselves are not modelled. */
  datatype Labels = NoLabels | LabelsIterable | LabelsMalformed | LabelsNotIterable

  datatype CodeRow = CodeRow(code: string, detail: Option<string>)

  datatype TableState = TableState(rows: map<int, CodeRow>, nextId: int)

  /** What a handler answers: the form again with its errors, the redirect
      after a write, a 404, or (as written) the NameError of an undefined
      `HTTPException`. */
  datatype Outcome = Rerender(errors: seq<CodeError>) | Redirect | NotFound | NameError

  predicate CodeChar(c: char)
  {
    'a' <= c <= 'z' || '0' <= c <= '9' || c == '_'
  }

  /** `^[a-z0-9_]+$`, or `^[a-z]{2,5}$` for a locale, matched against a
      stripped text (so `$` before a final newline never arises). */
  predicate MatchesPattern(kind: CodeKind, s: string)
  {
    if kind == LocaleKind then 2 <= |s| <= 5 && forall i :: 0 <= i < |s| ==> 'a' <= s[i] <= 'z'
    else |s| >= 1 && forall i :: 0 <= i < |s| ==> CodeChar(s[i])
  }

  /** `code.strip().lower()`. */
  function Normalize(code: string): string
  {
    Lower(Strip(code))
  }

  /** Some row other than `exclude` already holds `code`. */
  predicate Taken(rows: map<int, CodeRow>, code: string, exclude: Option<int>)
  {
    exists id :: id in rows && rows[id].code == code && exclude != Some(id)
  }

  /** The first check: a blank code, or one that does not match. */
  function FormatErrors(kind: CodeKind, code: string): seq<CodeError>
  {
    if Strip(code) == "" then [Required]
    else if !MatchesPattern(kind, Normalize(code)) then [BadFormat]
    else []
  }

  /** The second check: a non-blank code another row already holds. */
  function UniqueErrors(rows: map<int, CodeRow>, code: string, exclude: Option<int>): seq<CodeError>
  {
    if Strip(code) != "" && Taken(rows, Normalize(code), exclude) then [AlreadyExists] else []
  }

  /** The errors a handler collects, in order. */
  function Validation(kind: CodeKind, rows: map<int, CodeRow>, code: string, exclude: Option<int>): seq<CodeError>
  {
    FormatErrors(kind, code) + UniqueErrors(rows, code, exclude)
  }

  /** The sequential checks: each failing one appends its error. */
  method Validate(kind: CodeKind, rows: map<int, CodeRow>, code: string, exclude: Option<int>) returns (errors: seq<CodeError>)
    ensures errors == Validation(kind, rows, code, exclude)
  {
    errors := [];
    var stripped := Strip(code);
    assert code == "" ==> stripped == "" by {
      if code == "" {
        assert AllSpace(code);
        StripEmptyIffAllSpace(code);
      }
    }
    if code == "" || stripped == "" {
      errors := errors + [Required];
    } else if !MatchesPattern(kind, Lower(stripped)) {
      errors := errors + [BadFormat];
    }
    assert errors == FormatErrors(kind, code);
    if stripped != "" {
      var normalized := Lower(stripped);
      if Taken(rows, normalized, exclude) {
        errors := errors + [AlreadyExists];
      }
    }
  }

  /** `name.strip() if name else None`. */
  function LocaleName(name: Option<string>): Option<string>
  {
    if name.None? || name.value == "" then None else Some(Strip(name.value))
  }

  /** The create handlers: validate, then write a new row or nothing.
      Malformed labels only append an error that is never shown, so the
      row is still written; labels the loop cannot iterate raise inside
      the `try`, which rolls back and re-renders. */
  function CreateStep(s: TableState, kind: CodeKind, code: string, detail: Option<string>, labels: Labels): (TableState, Outcome)
  {
    var errors := Validation(kind, s.rows, code, None);
    if errors != [] then (s, Rerender(errors))
    else if labels == LabelsNotIterable then (s, Rerender([WriteFailed]))
    else (TableState(s.rows[s.nextId := CodeRow(Normalize(code), detail)], s.nextId + 1), Redirect)
  }

  /** `update_category` as it means to behave: a missing row is not
      found (404); otherwise validate, excluding the row itself from the
      uniqueness check; labels the loop cannot iterate roll back and
      re-render; malformed labels roll back and show their error; any
      other labels let the code and description be rewritten. */
  function UpdateStep(s: TableState, kind: CodeKind, id: int, code: string, detail: Option<string>, labels: Labels): (TableState, Outcome)
  {
    if id !in s.rows then (s, NotFound)
    else
      var errors := Validation(kind, s.rows, code, Some(id));
      if errors != [] then (s, Rerender(errors))
      else if labels == LabelsNotIterable then (s, Rerender([WriteFailed]))
      else if labels == LabelsMalformed then (s, Rerender([BadLabels]))
      else (s.(rows := s.rows[id := CodeRow(Normalize(code), detail)]), Redirect)
  }

  /** `update_category` as written. The missing-row branch names
      `HTTPException`, which the module never imports, so it raises
      NameError instead of answering 404. Malformed labels append an error
      and roll the edit back, but the handler then falls through to the
      success redirect, so the error is never shown. */
  function UpdateStepAsWritten(s: TableState, kind: CodeKind, id: int, code: string, detail: Option<string>, labels: Labels): (TableState, Outcome)
  {
    if id !in s.rows then (s, NameError)
    else if labels == LabelsMalformed && Validation(kind, s.rows, code, Some(id)) == [] then (s, Redirect)
    else UpdateStep(s, kind, id, code, detail, labels)
  }

  /** The invariant a table keeps through these handlers: every id is
      below the next one, every code matches the pattern, and no two rows
      share a code (the unique constraint). */
  ghost predicate Valid(s: TableState, kind: CodeKind)
  {
    && (forall id :: id in s.rows ==> id < s.nextId && MatchesPattern(kind, s.rows[id].code))
    && (forall a, b :: a in s.rows && b in s.rows && a != b ==> s.rows[a].code != s.rows[b].code)
  }

  class CodeTable {
    const kind: CodeKind
    var rows: map<int, CodeRow>
    var nextId: int

    function State(): TableState
      reads this
    {
      TableState(rows, nextId)
    }

    constructor (kind: CodeKind)
      ensures this.kind == kind && rows == map[] && nextId == 1
    {
      this.kind := kind;
      rows := map[];
      nextId := 1;
    }

    /** `create_category` and `create_geo`: the description is stored as
        given. */
    method Create(code: string, detail: Option<string>, labels: Labels) returns (outcome: Outcome)
      modifies this
      ensures (State(), outcome) == CreateStep(old(State()), kind, code, detail, labels)
    {
      var errors := Validate(kind, rows, code, None);
      if errors != [] {
        return Rerender(errors);
      }
      if labels == LabelsNotIterable {
        return Rerender([WriteFailed]);
      }
      rows := rows[nextId := CodeRow(Lower(Strip(code)), detail)];
      nextId := nextId + 1;
      outcome := Redirect;
    }

    /** `create_tag`: a tag has only its code. */
    method CreateTag(code: string) returns (outcome: Outcome)
      modifies this
      ensures (State(), outcome) == CreateStep(old(State()), kind, code, None, NoLabels)
    {
      outcome := Create(code, None, NoLabels);
    }

    /** `create_locale`: the name is stored stripped, or None. */
    method CreateLocale(code: string, name: Option<string>) returns (outcome: Outcome)
      modifies this
      ensures (State(), outcome) == CreateStep(old(State()), kind, code, LocaleName(name), NoLabels)
    {
      outcome := Create(code, LocaleName(name), NoLabels);
    }

    /** `update_category`, answering 404 for a missing row. */
    method Update(id: int, code: string, detail: Option<string>, labels: Labels) returns (outcome: Outcome)
      modifies this
      ensures (State(), outcome) == UpdateStep(old(State()), kind, id, code, detail, labels)
    {
      if id !in rows {
        return NotFound;
      }
      var errors := Validate(kind, rows, code, Some(id));
      if errors != [] {
        return Rerender(errors);
      }
      if labels == LabelsNotIterable {
        return Rerender([WriteFailed]);
      }
      if labels == LabelsMalformed {
        return Rerender([BadLabels]);
      }
      rows := rows[id := CodeRow(Lower(Strip(code)), detail)];
      outcome := Redirect;
    }
  }

  // ---------------------------------------------------------------------
  // What validation guarantees

  /** "Required" is reported exactly for an empty or all-whitespace code,
      and then it is the only error. */
  lemma RequiredIffBlank(kind: CodeKind, rows: map<int, CodeRow>, code: string, exclude: Option<int>)
    ensures Required in Validation(kind, rows, code, exclude) <==> AllSpace(code)
    ensures AllSpace(code) ==> Validation(kind, rows, code, exclude) == [Required]
  {
    StripEmptyIffAllSpace(code);
    if AllSpace(code) {
      assert FormatErrors(kind, code) == [Required];
      assert UniqueErrors(rows, code, exclude) == [];
    } else {
      var errors := Validation(kind, rows, code, exclude);
      assert forall i :: 0 <= i < |errors| ==> errors[i] != Required;
    }
  }

  /** A code passes exactly when its stripped, lowercased form matches the
      pattern and no other row holds it. */
  lemma ValidationPasses(kind: CodeKind, rows: map<int, CodeRow>, code: string, exclude: Option<int>)
    ensures Validation(kind, rows, code, exclude) == [] <==>
      MatchesPattern(kind, Normalize(code)) && !Taken(rows, Normalize(code), exclude)
  {
    if Strip(code) == "" {
      assert Normalize(code) == [];
    }
  }

  /** A locale code is 2 to 5 letters a-z: digits and '_' are rejected,
      and so is a single letter or six. */
  lemma LocaleRejectsDigits(rows: map<int, CodeRow>, code: string, exclude: Option<int>)
    requires Validation(LocaleKind, rows, code, exclude) == []
    ensures var n := Normalize(code);
      2 <= |n| <= 5 && forall i :: 0 <= i < |n| ==> n[i] != '_' && !('0' <= n[i] <= '9')
  {
    ValidationPasses(LocaleKind, rows, code, exclude);
  }

  /** Upper-case letters are accepted because the code is lowercased before
      the check: a code of letters, digits and '_' with no surrounding
      whitespace passes the category, geo and tag pattern. */
  lemma UppercaseAccepted(kind: CodeKind, code: string)
    requires kind != LocaleKind && code != []
    requires forall i :: 0 <= i < |code| ==> CodeChar(code[i]) || 'A' <= code[i] <= 'Z'
    ensures Strip(code) == code
    ensures MatchesPattern(kind, Normalize(code))
  {
    assert !IsSpace(code[0]) && !IsSpace(code[|code| - 1]);
    assert StripLeft(code) == code;
  }

  /** Creating keeps the table's invariant. It writes exactly when
      validation passes and the labels do not make the loop raise, and then
      adds one row holding the normalised code and leaves every other row
      alone; malformed labels do not stop the write. */
  lemma CreateKeepsValid(s: TableState, kind: CodeKind, code: string, detail: Option<string>, labels: Labels)
    requires Valid(s, kind)
    ensures var (t, outcome) := CreateStep(s, kind, code, detail, labels);
      var errors := Validation(kind, s.rows, code, None);
      Valid(t, kind) &&
      (outcome == Redirect <==> errors == [] && labels != LabelsNotIterable) &&
      (errors != [] ==> t == s && outcome == Rerender(errors)) &&
      (errors == [] && labels == LabelsNotIterable ==> t == s && outcome == Rerender([WriteFailed])) &&
      (outcome == Redirect ==> s.nextId !in s.rows && t.rows == s.rows[s.nextId := CodeRow(Normalize(code), detail)])
  {
    ValidationPasses(kind, s.rows, code, None);
  }

  /** Updating keeps the invariant. A missing row is not found and nothing
      changes; the row is rewritten exactly when it exists, validation
      passes and the labels are absent or iterable; and a category may
      keep its own code, since its own row is left out of the uniqueness
      check. */
  lemma UpdateKeepsValid(s: TableState, kind: CodeKind, id: int, code: string, detail: Option<string>, labels: Labels)
    requires Valid(s, kind)
    ensures var (t, outcome) := UpdateStep(s, kind, id, code, detail, labels);
      Valid(t, kind) &&
      (id !in s.rows ==> t == s && outcome == NotFound) &&
      (outcome == Redirect <==>
         id in s.rows && Validation(kind, s.rows, code, Some(id)) == [] && labels in {NoLabels, LabelsIterable}) &&
      (outcome != Redirect ==> t == s) &&
      (outcome == Redirect ==> t.rows == s.rows[id := CodeRow(Normalize(code), detail)])
    ensures id in s.rows && s.rows[id].code == Normalize(code) && labels in {NoLabels, LabelsIterable} ==>
      UpdateStep(s, kind, id, code, detail, labels).1 == Redirect
  {
    ValidationPasses(kind, s.rows, code, Some(id));
  }

  /** The locale name: a missing or empty name is stored as None, a
      whitespace-only one as "", any other stripped. */
  lemma LocaleNameCases(name: Option<string>)
    ensures name.None? || name == Some("") ==> LocaleName(name) == None
    ensures name.Some? && name.value != "" ==> LocaleName(name) == Some(Strip(name.value))
    ensures name.Some? && name.value != "" && AllSpace(name.value) ==> LocaleName(name) == Some("")
  {
    if name.Some? {
      StripEmptyIffAllSpace(name.value);
    }
  }

  /** A missing category: the handler as written fails with NameError
      where the intended answer is 404, and nothing is written either way. */
  lemma MissingCategoryNameError(s: TableState, id: int, code: string, detail: Option<string>, labels: Labels)
    requires id !in s.rows
    ensures UpdateStepAsWritten(s, CategoryKind, id, code, detail, labels) == (s, NameError)
    ensures UpdateStep(s, CategoryKind, id, code, detail, labels) == (s, NotFound)
  {
  }

  /** Malformed labels on a valid edit: as written the edit is rolled back
      yet the handler answers with the success redirect, so the user sees
      success and the old row; the intended answer re-renders with the
      labels error. Nothing is written either way. */
  lemma MalformedLabelsDropEdit(s: TableState, kind: CodeKind, id: int, code: string, detail: Option<string>)
    requires id in s.rows && Validation(kind, s.rows, code, Some(id)) == []
    ensures UpdateStepAsWritten(s, kind, id, code, detail, LabelsMalformed) == (s, Redirect)
    ensures UpdateStep(s, kind, id, code, detail, LabelsMalformed) == (s, Rerender([BadLabels]))
  {
  }

  /** Apart from those two cases the handler as written is the intended
      one. */
  lemma UpdateAsWrittenOtherwise(s: TableState, kind: CodeKind, id: int, code: string, detail: Option<string>, labels: Labels)
    requires id in s.rows && (labels != LabelsMalformed || Validation(kind, s.rows, code, Some(id)) != [])
    ensures UpdateStepAsWritten(s, kind, id, code, detail, labels) == UpdateStep(s, kind, id, code, detail, labels)
  {
  }
}
