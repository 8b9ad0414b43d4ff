/**
 * The input schemas `createTodoSchema`, `updateTodoSchema` and
 * `todoFiltersSchema` as total validators. Each field is checked on its
 * own, every failed check contributes an issue, and the object is accepted
 * only when no field produced one. String checks run in the order they are
 * declared, so `min`/`max` measure the string as given and `.trim()` is
 * applied to the accepted value afterwards. Lengths are JavaScript
 * lengths: UTF-16 code units (`Utf16Length`).
 */
module Validation {
  import opened Wrappers
  import opened TodoTypes
  import opened Text

  /** A JSON value as it arrives in a request field. */
  datatype Value = Str(s: string) | Bool(b: bool) | Num(n: int) | Null

  /** A validation issue: the offending field and the message shown. */
  datatype Issue = Issue(path: string, message: string)

  datatype Parsed<T> = Valid(value: T) | Invalid(issues: seq<Issue>)

  const TitleRequired := "Title is required"
  const TitleTooLong := "Title must be less than 200 characters"
  const DescriptionTooLong := "Description must be less than 500 characters"
  const SortModes := "'newest' | 'oldest' | 'alphabetical' | 'completed'"

  function TypeName(v: Value): string {
    match v
    case Str(_) => "string"
    case Bool(_) => "boolean"
    case Num(_) => "number"
    case Null => "null"
  }

  /** The issue for a missing field or a value of the wrong type. */
  function TypeIssue(path: string, expected: string, v: Option<Value>): Issue {
    Issue(path, if v.None? then "Required" else "Expected " + expected + ", received " + TypeName(v.value))
  }

  /** The two length checks of a title, in declaration order. */
  function TitleIssues(s: string): (issues: seq<Issue>)
    ensures issues == [] <==> 1 <= Utf16Length(s) <= 200
    ensures s == [] ==> issues == [Issue("title", TitleRequired)]
    ensures Utf16Length(s) > 200 ==> issues == [Issue("title", TitleTooLong)]
  {
    (if Utf16Length(s) < 1 then [Issue("title", TitleRequired)] else [])
    + (if Utf16Length(s) > 200 then [Issue("title", TitleTooLong)] else [])
  }

  /** `z.string().min(1, …).max(200, …).trim()` */
  function ParseTitle(v: Option<Value>): (r: Parsed<string>)
    ensures r.Valid? <==> v.Some? && v.value.Str? && 1 <= Utf16Length(v.value.s) <= 200
    ensures r.Valid? ==> r.value == Trim(v.value.s)
    ensures r.Invalid? ==> |r.issues| == 1 && r.issues[0].path == "title"
  {
    match v
    case Some(Str(s)) =>
      var issues := TitleIssues(s);
      if issues == [] then Valid(Trim(s)) else Invalid(issues)
    case _ => Invalid([TypeIssue("title", "string", v)])
  }

  /** A field wrapped in `.optional()`: absent passes as `None`. */
  function ParseOptional<T>(v: Option<Value>, present: Parsed<T>): (r: Parsed<Option<T>>)
    ensures v.None? ==> r == Valid(None)
    ensures v.Some? && present.Valid? ==> r == Valid(Some(present.value))
    ensures v.Some? && present.Invalid? ==> r == Invalid(present.issues)
  {
    if v.None? then Valid(None)
    else match present
      case Valid(x) => Valid(Some(x))
      case Invalid(issues) => Invalid(issues)
  }

  /** `z.string().max(500, …)` */
  function ParseDescription(v: Option<Value>): (r: Parsed<string>)
    ensures r.Valid? <==> v.Some? && v.value.Str? && Utf16Length(v.value.s) <= 500
    ensures r.Valid? ==> r.value == v.value.s
  {
    match v
    case Some(Str(s)) => if Utf16Length(s) <= 500 then Valid(s) else Invalid([Issue("description", DescriptionTooLong)])
    case _ => Invalid([TypeIssue("description", "string", v)])
  }

  /** `z.boolean()` */
  function ParseBool(path: string, v: Option<Value>): (r: Parsed<bool>)
    ensures r.Valid? <==> v.Some? && v.value.Bool?
    ensures r.Valid? ==> r.value == v.value.b
  {
    match v
    case Some(Bool(b)) => Valid(b)
    case _ => Invalid([TypeIssue(path, "boolean", v)])
  }

  /** `z.string()` */
  function ParseString(path: string, v: Option<Value>): (r: Parsed<string>)
    ensures r.Valid? <==> v.Some? && v.value.Str?
    ensures r.Valid? ==> r.value == v.value.s
  {
    match v
    case Some(Str(s)) => Valid(s)
    case _ => Invalid([TypeIssue(path, "string", v)])
  }

  /** `z.enum(["newest", "oldest", "alphabetical", "completed"])` */
  function ParseSortMode(v: Option<Value>): (r: Parsed<SortBy>)
    ensures r.Valid? <==> v.Some? && v.value.Str? && v.value.s in {"newest", "oldest", "alphabetical", "completed"}
    ensures r.Valid? ==> !r.value.Unrecognised? && r.value == ParseSortBy(v.value.s)
  {
    match v
    case Some(Str(s)) =>
      if s in {"newest", "oldest", "alphabetical", "completed"} then Valid(ParseSortBy(s))
      else Invalid([Issue("sortBy", "Invalid enum value. Expected " + SortModes + ", received '" + s + "'")])
    case _ => Invalid([TypeIssue("sortBy", SortModes, v)])
  }

  function IssuesOf<T>(p: Parsed<T>): seq<Issue> {
    if p.Invalid? then p.issues else []
  }

  /** The raw body of a create request. */
  datatype CreateTodoBody = CreateTodoBody(title: Option<Value>, description: Option<Value>)

  /** The accepted create input. */
  datatype CreateTodoInput = CreateTodoInput(title: string, description: Option<string>)

  /** `createTodoSchema.safeParse`. */
  function CreateTodoSchema(body: CreateTodoBody): (r: Parsed<CreateTodoInput>)
    ensures r.Valid? <==>
      && body.title.Some? && body.title.value.Str? && 1 <= Utf16Length(body.title.value.s) <= 200
      && (body.description.None? || (body.description.value.Str? && Utf16Length(body.description.value.s) <= 500))
    ensures r.Valid? ==> r.value.title == Trim(body.title.value.s)
    ensures r.Valid? ==> r.value.description == if body.description.None? then None else Some(body.description.value.s)
    ensures body.title == Some(Str("")) ==> r.Invalid? && Issue("title", TitleRequired) in r.issues
    ensures body.title.Some? && body.title.value.Str? && Utf16Length(body.title.value.s) > 200
            ==> r.Invalid? && Issue("title", TitleTooLong) in r.issues
    ensures body.description.Some? && body.description.value.Str? && Utf16Length(body.description.value.s) > 500
            ==> r.Invalid? && Issue("description", DescriptionTooLong) in r.issues
  {
    var title := ParseTitle(body.title);
    var description := ParseOptional(body.description, ParseDescription(body.description));
    if title.Valid? && description.Valid? then Valid(CreateTodoInput(title.value, description.value))
    else Invalid(IssuesOf(title) + IssuesOf(description))
  }

  /** The raw body of an update request: every field may be missing. */
  datatype UpdateTodoBody = UpdateTodoBody(title: Option<Value>, description: Option<Value>, completed: Option<Value>)

  datatype UpdateTodoInput = UpdateTodoInput(title: Option<string>, description: Option<string>, completed: Option<bool>)

  /** `updateTodoSchema.safeParse`. */
  function UpdateTodoSchema(body: UpdateTodoBody): (r: Parsed<UpdateTodoInput>)
    ensures r.Valid? <==>
      && (body.title.None? || ParseTitle(body.title).Valid?)
      && (body.description.None? || ParseDescription(body.description).Valid?)
      && (body.completed.None? || body.completed.value.Bool?)
    ensures r.Valid? ==>
      && (body.title.None? <==> r.value.title.None?)
      && (body.description.None? <==> r.value.description.None?)
      && (body.completed.None? <==> r.value.completed.None?)
    ensures r.Valid? && body.title.Some? ==> r.value.title == Some(Trim(body.title.value.s))
    ensures r.Valid? && body.description.Some? ==> r.value.description == Some(body.description.value.s)
    ensures r.Valid? && body.completed.Some? ==> r.value.completed == Some(body.completed.value.b)
  {
    var title := ParseOptional(body.title, ParseTitle(body.title));
    var description := ParseOptional(body.description, ParseDescription(body.description));
    var completed := ParseOptional(body.completed, ParseBool("completed", body.completed));
    if title.Valid? && description.Valid? && completed.Valid? then
      Valid(UpdateTodoInput(title.value, description.value, completed.value))
    else Invalid(IssuesOf(title) + IssuesOf(description) + IssuesOf(completed))
  }

  /** A title present in an update obeys exactly the create rules and is
      trimmed the same way. */
  lemma UpdateTitleAsCreate(v: Value)
    ensures UpdateTodoSchema(UpdateTodoBody(Some(v), None, None)).Valid?
        <==> CreateTodoSchema(CreateTodoBody(Some(v), None)).Valid?
    ensures UpdateTodoSchema(UpdateTodoBody(Some(v), None, None)).Valid?
        ==> UpdateTodoSchema(UpdateTodoBody(Some(v), None, None)).value.title
            == Some(CreateTodoSchema(CreateTodoBody(Some(v), None)).value.title)
  {
  }

  /** The raw filter criteria. */
  datatype FiltersBody = FiltersBody(search: Option<Value>, sortBy: Option<Value>, showCompleted: Option<Value>)

  /** `todoFiltersSchema.safeParse`: the accepted criteria form a partial
      filter update. */
  function TodoFiltersSchema(body: FiltersBody): (r: Parsed<FiltersPatch>)
    ensures r.Valid? <==>
      && (body.search.None? || body.search.value.Str?)
      && (body.sortBy.None? || ParseSortMode(body.sortBy).Valid?)
      && (body.showCompleted.None? || body.showCompleted.value.Bool?)
    ensures r.Valid? ==>
      && r.value.search == (if body.search.None? then None else Some(body.search.value.s))
      && r.value.sortBy == (if body.sortBy.None? then None else Some(ParseSortBy(body.sortBy.value.s)))
      && r.value.showCompleted == (if body.showCompleted.None? then None else Some(body.showCompleted.value.b))
    ensures r.Valid? && r.value.sortBy.Some? ==> !r.value.sortBy.value.Unrecognised?
  {
    var search := ParseOptional(body.search, ParseString("search", body.search));
    var sortBy := ParseOptional(body.sortBy, ParseSortMode(body.sortBy));
    var showCompleted := ParseOptional(body.showCompleted, ParseBool("showCompleted", body.showCompleted));
    if search.Valid? && sortBy.Valid? && showCompleted.Valid? then
      Valid(FiltersPatch(search.value, sortBy.value, showCompleted.value))
    else Invalid(IssuesOf(search) + IssuesOf(sortBy) + IssuesOf(showCompleted))
  }

  /** A string of `n` copies of 'a'. */
  function Repeat(n: nat): (s: string)
    ensures |s| == n && Utf16Length(s) == n
  {
    var s := seq(n, _ => 'a');
    assert forall i :: 0 <= i < |s| ==> s[i] as int < 0x1_0000;
    s
  }

  /** The upper bound is inclusive: up to 200 characters pass, longer
      titles fail with the "less than 200" message alone. */
  lemma TitleLengthBoundary(n: nat)
    ensures CreateTodoSchema(CreateTodoBody(Some(Str(Repeat(n))), None)).Valid? <==> 1 <= n <= 200
    ensures n > 200 ==>
      CreateTodoSchema(CreateTodoBody(Some(Str(Repeat(n))), None)) == Invalid([Issue("title", TitleTooLong)])
  {
    if n > 200 {
      assert ParseTitle(Some(Str(Repeat(n)))) == Invalid([Issue("title", TitleTooLong)]);
    }
  }

  /** As written, a blank title passes the length checks and is trimmed to
      the empty string afterwards. */
  lemma BlankTitleAccepted()
    ensures CreateTodoSchema(CreateTodoBody(Some(Str("   ")), None)) == Valid(CreateTodoInput("", None))
  {
    BlankTitleParsed();
  }

  /** The title check alone on three spaces. */
  lemma BlankTitleParsed()
    ensures ParseTitle(Some(Str("   "))) == Valid("")
  {
    var blank := "   ";
    assert Utf16Length(blank) == 3 by {
      assert forall i :: 0 <= i < |blank| ==> blank[i] as int < 0x1_0000;
    }
    assert Trim(blank) == "" by {
      assert AllWhitespace(blank);
      TrimSpec(blank);
    }
  }

  /** `n` characters from above the Basic Multilingual Plane. */
  function Astral(n: nat): (s: string)
    ensures |s| == n && Utf16Length(s) == 2 * n
  {
    var s := seq(n, _ => '\U{1F600}');
    assert forall i :: 0 <= i < |s| ==> s[i] as int >= 0x1_0000;
    s
  }

  /** Each character above the Basic Multilingual Plane is two UTF-16 code
      units, so a title of such characters passes only up to 100 of them. */
  lemma AstralTitleBoundary(n: nat)
    ensures CreateTodoSchema(CreateTodoBody(Some(Str(Astral(n))), None)).Valid? <==> 1 <= n <= 100
    ensures n > 100 ==>
      CreateTodoSchema(CreateTodoBody(Some(Str(Astral(n))), None)) == Invalid([Issue("title", TitleTooLong)])
  {
    if n > 100 {
      assert ParseTitle(Some(Str(Astral(n)))) == Invalid([Issue("title", TitleTooLong)]);
    }
  }

  /** The title check with `.trim()` applied before the length checks. */
  function ParseTitleTrimFirst(v: Option<Value>): (r: Parsed<string>)
    ensures r.Valid? <==> v.Some? && v.value.Str? && 1 <= Utf16Length(Trim(v.value.s)) <= 200
    ensures r.Valid? ==> r.value == Trim(v.value.s)
  {
    match v
    case Some(Str(s)) =>
      var t := Trim(s);
      var issues := TitleIssues(t);
      if issues == [] then Valid(t) else Invalid(issues)
    case _ => Invalid([TypeIssue("title", "string", v)])
  }

  /** `createTodoSchema` with the title trimmed before it is measured. */
  function CreateTodoSchemaTrimFirst(body: CreateTodoBody): (r: Parsed<CreateTodoInput>)
    ensures r.Valid? <==>
      && body.title.Some? && body.title.value.Str? && 1 <= Utf16Length(Trim(body.title.value.s)) <= 200
      && (body.description.None? || (body.description.value.Str? && Utf16Length(body.description.value.s) <= 500))
    ensures r.Valid? ==> r.value.title == Trim(body.title.value.s)
  {
    var title := ParseTitleTrimFirst(body.title);
    var description := ParseOptional(body.description, ParseDescription(body.description));
    if title.Valid? && description.Valid? then Valid(CreateTodoInput(title.value, description.value))
    else Invalid(IssuesOf(title) + IssuesOf(description))
  }

  /** Trimming first, an accepted title is never blank and never padded,
      and a blank one is refused as required. */
  lemma TrimFirstTitleNeverBlank(body: CreateTodoBody)
    ensures var r := CreateTodoSchemaTrimFirst(body);
      && (r.Valid? ==> 1 <= Utf16Length(r.value.title) <= 200 && !IsWhitespace(r.value.title[0])
                       && !IsWhitespace(r.value.title[|r.value.title| - 1]))
      && (body.title.Some? && body.title.value.Str? && AllWhitespace(body.title.value.s)
          ==> r.Invalid? && Issue("title", TitleRequired) in r.issues)
  {
    if body.title.Some? && body.title.value.Str? {
      var s := body.title.value.s;
      if AllWhitespace(s) {
        TrimSpec(s);
        var title := ParseTitleTrimFirst(body.title);
        assert title == Invalid([Issue("title", TitleRequired)]);
        assert Issue("title", TitleRequired) in IssuesOf(title);
      }
    }
  }
}
