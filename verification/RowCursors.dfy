/**
 * The page cursors of `spec.list` and `project.list`: a time stamp and identifiers, as text fields
 * of the same versioned payload.
 */
module RowCursors {
  import opened Prelude
  import opened Json
  import opened JsonText
  import opened Cursor

  /** The text forms of time stamps and identifiers, which belong to the libraries that parse them. */
  datatype Formats = Formats(isoFormat: int -> string, fromIsoFormat: string -> Option<Stamp>,
    readId: string -> Option<string>)

  /** What a date text says: a time without a zone, or an instant. */
  datatype Stamp = Naive | Instant(at: int)

  /** The date library reads back what it prints for an instant in UTC, and prints no `Z`. */
  ghost predicate Faithful(f: Formats) {
    forall t :: 'Z' !in f.isoFormat(t) && f.fromIsoFormat(f.isoFormat(t)) == Some(Instant(t))
  }

  const UTC_OFFSET: string := "+00:00"

  /** A cursor writes the zero offset as `Z`, every time it occurs. */
  function ShowTime(f: Formats, t: int): string {
    Replace(f.isoFormat(t), UTC_OFFSET, "Z")
  }

  function ReadTime(f: Formats, s: string): Result<int, CursorError> {
    match f.fromIsoFormat(Replace(s, "Z", UTC_OFFSET))
    case None => Err(BadTimestamp)
    case Some(Naive) => Err(NoTimezone)
    case Some(Instant(t)) => Ok(t)
  }

  lemma TimeRoundTrip(f: Formats, t: int)
    requires Faithful(f)
    ensures ReadTime(f, ShowTime(f, t)) == Ok(t)
  {
    ReplaceBack(f.isoFormat(t), UTC_OFFSET, 'Z');
  }

  /** The text of an identifier, as the database and the UUID library print it. */
  predicate CanonicalId(f: Formats, id: string) {
    f.readId(Strip(id)) == Some(id)
  }

  type Field = (char, string)

  /** One-letter text fields, in key order, followed by the version. */
  function FieldMembers(fields: seq<Field>): string {
    if fields == [] then VersionMember()
    else ['"', fields[0].0, '"', ':'] + (Quote(EscapePy, fields[0].1) + ([','] + FieldMembers(fields[1..])))
  }

  function FieldMap(fields: seq<Field>): map<string, Json> {
    if fields == [] then map["v" := Num(1)] else map[[fields[0].0] := Str(fields[0].1)] + FieldMap(fields[1..])
  }

  lemma FieldMapCons(x: Field, rest: seq<Field>)
    ensures FieldMap([x] + rest) == map[[x.0] := Str(x.1)] + FieldMap(rest)
  {
    assert ([x] + rest)[1..] == rest;
  }

  predicate PlainKeys(fields: seq<Field>) {
    forall i :: 0 <= i < |fields| ==> 'a' <= fields[i].0 < 'v'
  }

  function FieldsText(fields: seq<Field>): string {
    ['{'] + FieldMembers(fields)
  }

  lemma {:induction false} ReadFieldMembers(fields: seq<Field>)
    requires PlainKeys(fields)
    ensures ReadMembers(FieldMembers(fields)) == Some((FieldMap(fields), ""))
    ensures FieldMembers(fields) != "" && FieldMembers(fields)[0] == '"'
  {
    if fields == [] {
      ReadVersionMember();
    } else {
      var after := [','] + FieldMembers(fields[1..]);
      assert after[1..] == FieldMembers(fields[1..]);
      ReadFieldMembers(fields[1..]);
      EscapePySpells();
      ReadQuoted(EscapePy, fields[0].1, after);
      ReadShortMember(fields[0].0, Quote(EscapePy, fields[0].1), Str(fields[0].1), after);
    }
  }

  lemma ReadFields(fields: seq<Field>)
    requires PlainKeys(fields)
    ensures ReadValue(FieldsText(fields)) == Some((Obj(FieldMap(fields)), ""))
  {
    ReadFieldMembers(fields);
    ReadObjectValue(FieldMembers(fields), FieldMap(fields), "");
  }

  lemma {:induction false} FieldMembersAscii(fields: seq<Field>)
    requires PlainKeys(fields)
    ensures IsAscii(FieldMembers(fields))
  {
    if fields == [] {
      IntIsAscii(1);
    } else {
      EscapedIsAscii(fields[0].1);
      FieldMembersAscii(fields[1..]);
    }
  }

  /** Any such payload survives the wrapping. */
  lemma FieldsRoundTrip(fields: seq<Field>)
    requires PlainKeys(fields)
    ensures IsAscii(FieldsText(fields)) && Unwrap(Wrap(FieldsText(fields))) == Ok(Obj(FieldMap(fields)))
  {
    FieldMembersAscii(fields);
    ReadFields(fields);
    UnwrapWrap(FieldsText(fields), Obj(FieldMap(fields)));
  }

  function VersionedFields(j: Json): Result<map<string, Json>, CursorError> {
    if !j.Obj? then Err(ExpectedObject)
    else if Get(j.fields, "v") != Num(1) && Get(j.fields, "v") != Bool(true) then Err(UnsupportedVersion)
    else Ok(j.fields)
  }

  // ---- spec.list ----

  datatype SpecKey = SpecKey(updatedAt: int, id: string)

  function SpecFields(f: Formats, k: SpecKey): seq<Field> {
    [('i', k.id), ('u', ShowTime(f, k.updatedAt))]
  }

  function EncodeSpecCursor(f: Formats, k: SpecKey): string {
    FieldMembersAscii(SpecFields(f, k));
    Wrap(FieldsText(SpecFields(f, k)))
  }

  function ReadSpecFields(f: Formats, fields: map<string, Json>): Result<SpecKey, CursorError> {
    var u, i := Get(fields, "u"), Get(fields, "i");
    if !u.Str? || !i.Str? then Err(MissingFields)
    else
      match ReadTime(f, u.s)
      case Err(e) => Err(e)
      case Ok(t) =>
        match f.readId(Strip(i.s))
        case None => Err(BadId)
        case Some(id) => Ok(SpecKey(t, id))
  }

  function DecodeSpecCursor(f: Formats, raw: Option<string>): Result<Option<SpecKey>, CursorError> {
    if raw.None? then Ok(None)
    else
      match Unwrap(raw.value)
      case Err(e) => Err(e)
      case Ok(j) =>
        match VersionedFields(j)
        case Err(e) => Err(e)
        case Ok(fields) =>
          match ReadSpecFields(f, fields)
          case Err(e) => Err(e)
          case Ok(k) => Ok(Some(k))
  }

  lemma SpecFieldMap(f: Formats, k: SpecKey)
    ensures
      var fields := FieldMap(SpecFields(f, k));
      && Get(fields, "i") == Str(k.id) && Get(fields, "u") == Str(ShowTime(f, k.updatedAt))
      && Get(fields, "v") == Num(1)
  {
    var i, u := ('i', k.id), ('u', ShowTime(f, k.updatedAt));
    FieldMapCons(u, []);
    FieldMapCons(i, [u]);
    assert [u] + [] == [u] && [i] + [u] == SpecFields(f, k);
  }

  /** Every row position survives the trip through its cursor. */
  lemma SpecCursorRoundTrip(f: Formats, k: SpecKey)
    requires Faithful(f) && CanonicalId(f, k.id)
    ensures DecodeSpecCursor(f, Some(EncodeSpecCursor(f, k))) == Ok(Some(k))
  {
    FieldsRoundTrip(SpecFields(f, k));
    TimeRoundTrip(f, k.updatedAt);
    SpecFieldMap(f, k);
  }

  // ---- project.list ----

  datatype ProjectKey = ProjectKey(updatedAt: int, tenant: string, project: string)

  function ProjectFields(f: Formats, k: ProjectKey): seq<Field> {
    [('e', k.tenant), ('p', k.project), ('u', ShowTime(f, k.updatedAt))]
  }

  function EncodeProjectCursor(f: Formats, k: ProjectKey): string {
    FieldMembersAscii(ProjectFields(f, k));
    Wrap(FieldsText(ProjectFields(f, k)))
  }

  function ReadProjectFields(f: Formats, fields: map<string, Json>): Result<ProjectKey, CursorError> {
    var u, e, p := Get(fields, "u"), Get(fields, "e"), Get(fields, "p");
    if !u.Str? || !e.Str? || !p.Str? then Err(MissingFields)
    else
      match ReadTime(f, u.s)
      case Err(error) => Err(error)
      case Ok(t) =>
        var tenant, project := f.readId(Strip(e.s)), f.readId(Strip(p.s));
        if tenant.None? || project.None? then Err(BadId) else Ok(ProjectKey(t, tenant.value, project.value))
  }

  function DecodeProjectCursor(f: Formats, raw: Option<string>): Result<Option<ProjectKey>, CursorError> {
    if raw.None? then Ok(None)
    else
      match Unwrap(raw.value)
      case Err(e) => Err(e)
      case Ok(j) =>
        match VersionedFields(j)
        case Err(e) => Err(e)
        case Ok(fields) =>
          match ReadProjectFields(f, fields)
          case Err(e) => Err(e)
          case Ok(k) => Ok(Some(k))
  }

  lemma ProjectFieldMap(f: Formats, k: ProjectKey)
    ensures
      var fields := FieldMap(ProjectFields(f, k));
      && Get(fields, "e") == Str(k.tenant) && Get(fields, "p") == Str(k.project)
      && Get(fields, "u") == Str(ShowTime(f, k.updatedAt)) && Get(fields, "v") == Num(1)
  {
    var e, p, u := ('e', k.tenant), ('p', k.project), ('u', ShowTime(f, k.updatedAt));
    FieldMapCons(u, []);
    FieldMapCons(p, [u]);
    FieldMapCons(e, [p, u]);
    assert [u] + [] == [u] && [p] + [u] == [p, u] && [e] + [p, u] == ProjectFields(f, k);
  }

  lemma ProjectCursorRoundTrip(f: Formats, k: ProjectKey)
    requires Faithful(f) && CanonicalId(f, k.tenant) && CanonicalId(f, k.project)
    ensures DecodeProjectCursor(f, Some(EncodeProjectCursor(f, k))) == Ok(Some(k))
  {
    FieldsRoundTrip(ProjectFields(f, k));
    TimeRoundTrip(f, k.updatedAt);
    ProjectFieldMap(f, k);
  }

  // ---- The text itself ----

  /** The zero offset at the end of a time stamp is written `Z`. */
  lemma OffsetIsZ(f: Formats, t: int, local: string)
    requires f.isoFormat(t) == local + "+00:00" && '+' !in local
    ensures ShowTime(f, t) == local + "Z"
  {
    ReplaceAtEnd(local);
  }

  lemma {:induction false} ReplaceAtEnd(local: string)
    requires '+' !in local
    ensures Replace(local + "+00:00", "+00:00", "Z") == local + "Z"
  {
    var s := local + "+00:00";
    if local == "" {
      assert s == "+00:00" && s[|"+00:00"|..] == "" && s[..|"+00:00"|] == "+00:00";
      assert "Z" + Replace("", "+00:00", "Z") == "Z";
    } else {
      assert s[1..] == local[1..] + "+00:00";
      assert s[..6][0] == s[0] && s[0] == local[0] && local[0] in local;
      ReplaceAtEnd(local[1..]);
    }
  }

  lemma TwoFields(x: Field, y: Field)
    ensures
      FieldMembers([x, y])
      == ['"', x.0, '"', ':']
         + (Quote(EscapePy, x.1)
            + ([','] + (['"', y.0, '"', ':'] + (Quote(EscapePy, y.1) + ([','] + VersionMember())))))
  {
    assert [x, y][1..] == [y] && [y][1..] == [];
    assert FieldMembers([y]) == ['"', y.0, '"', ':'] + (Quote(EscapePy, y.1) + ([','] + FieldMembers([])));
  }

  lemma VersionText()
    ensures VersionMember() == "\"v\":1}"
  {
    assert IntText(1) == "1";
  }

  /** Keys in order: the identifier, the time, the version. */
  lemma SpecCursorText(f: Formats, k: SpecKey)
    ensures
      FieldsText(SpecFields(f, k))
      == ['{']
         + ("\"i\":"
            + (Quote(EscapePy, k.id)
               + ([','] + ("\"u\":" + (Quote(EscapePy, ShowTime(f, k.updatedAt)) + ([','] + "\"v\":1}"))))))
  {
    VersionText();
    TwoFields(('i', k.id), ('u', ShowTime(f, k.updatedAt)));
  }

  /** A cursor is of version 1 and holds a text time and a text identifier, both readable. */
  lemma SpecCursorExact(f: Formats, fields: map<string, Json>, k: SpecKey)
    ensures
      VersionedFields(Obj(fields)).Ok? && ReadSpecFields(f, fields) == Ok(k) <==>
        && "v" in fields && (fields["v"] == Num(1) || fields["v"] == Bool(true))
        && "u" in fields && fields["u"].Str? && "i" in fields && fields["i"].Str?
        && f.fromIsoFormat(Replace(fields["u"].s, "Z", "+00:00")) == Some(Instant(k.updatedAt))
        && f.readId(Strip(fields["i"].s)) == Some(k.id)
  {}

  lemma ProjectCursorExact(f: Formats, fields: map<string, Json>, k: ProjectKey)
    ensures
      VersionedFields(Obj(fields)).Ok? && ReadProjectFields(f, fields) == Ok(k) <==>
        && "v" in fields && (fields["v"] == Num(1) || fields["v"] == Bool(true))
        && "u" in fields && fields["u"].Str? && "e" in fields && fields["e"].Str? && "p" in fields && fields["p"].Str?
        && f.fromIsoFormat(Replace(fields["u"].s, "Z", "+00:00")) == Some(Instant(k.updatedAt))
        && f.readId(Strip(fields["e"].s)) == Some(k.tenant) && f.readId(Strip(fields["p"].s)) == Some(k.project)
  {}
}
