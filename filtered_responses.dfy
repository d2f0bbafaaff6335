/**
 * The filtering and pagination step of the `GET /:formId/filteredResponses`
 * handler: one fetched page of form submissions is narrowed down by a list of
 * filter conditions (combined with AND) and either reported as "not found" or
 * returned with its size and a page count.
 *
 * The HTTP plumbing, the upstream call and the JSON parse of the `filters`
 * query parameter are not part of this model: the fetched submissions and the
 * already-parsed filter list are inputs, and JavaScript's `Date` parser is an
 * input function `parse`.
 */
module ResponseFilter {

  datatype Option<T> = None | Some(value: T)

  /**
   * A JSON value as it can appear as a question's answer or as a filter's
   * comparison value. `Compound` stands for any array or object, carrying the
   * string JavaScript converts it to (an array's elements joined with commas,
   * "[object Object]" for a plain object): `new Date` reads that string, while
   * `===` compares arrays and objects by reference.
   */
  datatype Value =
    | Str(s: string)
    | Num(n: real)
    | Bool(b: bool)
    | Null
    | Compound(text: string)

  /** One answered field of a submission. */
  datatype Question = Question(id: string, value: Value)

  /** One respondent's submission: its questions, in upstream order. */
  datatype Submission = Submission(questions: seq<Question>)

  /** One element of the parsed `filters` array; `condition` is the raw string. */
  datatype Filter = Filter(id: string, condition: string, value: Value)

  /** The closed set of conditions the handler's `switch` recognises. */
  datatype Condition = Equals | DoesNotEqual | GreaterThan | LessThan | Other(name: string)

  /**
   * `new Date(v)` followed by its numeric value: `Some(ms)` for a valid date,
   * `None` for "Invalid Date" (whose numeric value is NaN).
   */
  type DateParser = Value -> Option<int>

  const NoMatchMessage: string := "No matching submissions found."

  /** What the handler answers once the upstream page has been fetched. */
  datatype Outcome =
    | NotFound(message: string)
    | Ok(responses: seq<Submission>, totalResponses: nat, pageCount: nat)
  {
    function StatusCode(): nat {
      if NotFound? then 404 else 200
    }
  }

  // ---------------------------------------------------------------------------
  // The predicate of one filter
  // ---------------------------------------------------------------------------

  /** The `switch (filter.condition)` dispatch: exact string match, anything else is `Other`. */
  function ParseCondition(s: string): (c: Condition)
    ensures c == Equals <==> s == "equals"
    ensures c == DoesNotEqual <==> s == "does_not_equal"
    ensures c == GreaterThan <==> s == "greater_than"
    ensures c == LessThan <==> s == "less_than"
    ensures c.Other? ==> c.name == s
  {
    if s == "equals" then Equals
    else if s == "does_not_equal" then DoesNotEqual
    else if s == "greater_than" then GreaterThan
    else if s == "less_than" then LessThan
    else Other(s)
  }

  /**
   * JavaScript `===` on two values decoded from two separate JSON documents:
   * primitives compare by value, while two arrays or objects are never the same
   * reference.
   */
  function StrictEquals(a: Value, b: Value): (r: bool)
    ensures r <==> a == b && !a.Compound?
  {
    match (a, b)
    case (Str(x), Str(y)) => x == y
    case (Num(x), Num(y)) => x == y
    case (Bool(x), Bool(y)) => x == y
    case (Null, Null) => true
    case _ => false
  }

  /** The value of one `case` of the `switch`, for the question's value `a` and the filter's value `b`. */
  function Compare(c: Condition, a: Value, b: Value, parse: DateParser): (r: bool)
    ensures c == Equals ==> (r <==> a == b && !a.Compound?)
    ensures c == DoesNotEqual ==> (r <==> !(a == b && !a.Compound?))
    ensures c == GreaterThan ==>
      (r <==> parse(a).Some? && parse(b).Some? && parse(b).value < parse(a).value)
    ensures c == LessThan ==>
      (r <==> parse(a).Some? && parse(b).Some? && parse(a).value < parse(b).value)
    ensures c.Other? ==> !r
  {
    match c
    case Equals => StrictEquals(a, b)
    case DoesNotEqual => !StrictEquals(a, b)
    // `new Date(a) > new Date(b)`: any comparison with an invalid date (NaN) is false
    case GreaterThan => parse(a).Some? && parse(b).Some? && parse(a).value > parse(b).value
    case LessThan => parse(a).Some? && parse(b).Some? && parse(a).value < parse(b).value
    case Other(_) => false
  }

  /** `questions.find(q => q.id === id)`: the first question with that id, if any. */
  function FindQuestion(qs: seq<Question>, id: string): (r: Option<Question>)
    ensures r.None? <==> forall i :: 0 <= i < |qs| ==> qs[i].id != id
    ensures r.Some? ==>
      exists i :: 0 <= i < |qs| && qs[i] == r.value && qs[i].id == id
                  && forall j :: 0 <= j < i ==> qs[j].id != id
  {
    if |qs| == 0 then None
    else if qs[0].id == id then Some(qs[0])
    else
      var r := FindQuestion(qs[1..], id);
      if r.Some? then
        ghost var i :| 0 <= i < |qs[1..]| && qs[1..][i] == r.value && qs[1..][i].id == id
                       && forall j :: 0 <= j < i ==> qs[1..][j].id != id;
        assert qs[i + 1] == r.value && forall j :: 0 <= j < i + 1 ==> qs[j].id != id;
        r
      else r
  }

  /** The arrow function given to `every`: one filter applied to one submission. */
  function Holds(sub: Submission, f: Filter, parse: DateParser): (r: bool)
    ensures r <==>
      exists i :: 0 <= i < |sub.questions| && sub.questions[i].id == f.id
                  && (forall j :: 0 <= j < i ==> sub.questions[j].id != f.id)
                  && Compare(ParseCondition(f.condition), sub.questions[i].value, f.value, parse)
  {
    match FindQuestion(sub.questions, f.id)
    case None => false
    case Some(q) => Compare(ParseCondition(f.condition), q.value, f.value, parse)
  }

  /** `parsedFilters.every(...)`: every filter holds of the submission. */
  function PassesAll(sub: Submission, filters: seq<Filter>, parse: DateParser): (r: bool)
    ensures r <==> forall i :: 0 <= i < |filters| ==> Holds(sub, filters[i], parse)
  {
    if |filters| == 0 then true
    else Holds(sub, filters[0], parse) && PassesAll(sub, filters[1..], parse)
  }

  // ---------------------------------------------------------------------------
  // Filtering and the response
  // ---------------------------------------------------------------------------

  /** `responses.filter(...)`: the submissions every filter accepts, in upstream order. */
  function Matching(subs: seq<Submission>, filters: seq<Filter>, parse: DateParser): (r: seq<Submission>)
    ensures |r| <= |subs|
    ensures forall s :: s in r <==> s in subs && PassesAll(s, filters, parse)
  {
    if |subs| == 0 then []
    else
      var rest := Matching(subs[1..], filters, parse);
      assert forall s :: s in subs <==> s == subs[0] || s in subs[1..];
      if PassesAll(subs[0], filters, parse) then [subs[0]] + rest else rest
  }

  /** The filter keeps nothing exactly when no submission passes every filter. */
  lemma {:induction false} NothingKeptIffNonePass(subs: seq<Submission>, filters: seq<Filter>, parse: DateParser)
    ensures Matching(subs, filters, parse) == [] <==>
      forall i :: 0 <= i < |subs| ==> !PassesAll(subs[i], filters, parse)
  {
    if |subs| > 0 {
      NothingKeptIffNonePass(subs[1..], filters, parse);
      assert forall i :: 1 <= i < |subs| ==> subs[i] == subs[1..][i - 1];
    }
  }

  /**
   * `pages` is `ceil(total / perPage)`: `pages` pages of `perPage` items hold
   * `total`, and one page fewer would not.
   */
  predicate IsCeiling(pages: nat, total: nat, perPage: nat)
  {
    total <= pages * perPage && (pages == 0 || (pages - 1) * perPage < total)
  }

  /** `Math.ceil(total / perPage)` for a positive whole `perPage`. */
  function PageCount(total: nat, perPage: nat): (pages: nat)
    requires perPage > 0
    ensures IsCeiling(pages, total, perPage)
    ensures pages == 0 <==> total == 0
  {
    var pages := (total + perPage - 1) / perPage;
    assert pages * perPage + (total + perPage - 1) % perPage == total + perPage - 1;
    assert (pages - 1) * perPage == pages * perPage - perPage;
    pages
  }

  /**
   * The handler once the upstream page `upstream` has arrived: filter it, answer
   * 404 with the fixed message when nothing is left, and otherwise the list, its
   * length and the page count. `filters` is the parsed `filters` parameter;
   * `None` (absent or empty) filters with the empty list, as
   * `filters ? JSON.parse(filters) : []` does.
   */
  function FilteredResponses(upstream: seq<Submission>, filters: Option<seq<Filter>>,
                             perPage: nat, parse: DateParser): (out: Outcome)
    requires perPage > 0
    ensures var fs := if filters.Some? then filters.value else [];
      out.NotFound? <==> forall i :: 0 <= i < |upstream| ==> !PassesAll(upstream[i], fs, parse)
    ensures out.NotFound? ==> out.message == NoMatchMessage && out.StatusCode() == 404
    ensures out.Ok? ==>
      && out.StatusCode() == 200
      && out.responses == Matching(upstream, if filters.Some? then filters.value else [], parse)
      && out.totalResponses == |out.responses|
      && 1 <= out.totalResponses <= |upstream|
      && 1 <= out.pageCount
      && IsCeiling(out.pageCount, out.totalResponses, perPage)
  {
    var fs := if filters.Some? then filters.value else [];
    var kept := Matching(upstream, fs, parse);
    NothingKeptIffNonePass(upstream, fs, parse);
    if |kept| == 0 then
      NotFound(NoMatchMessage)
    else
      var pages := PageCount(|kept|, perPage);
      assert 1 <= pages;
      Ok(kept, |kept|, pages)
  }
}
