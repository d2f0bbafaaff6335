/**
 * Properties of the filtering step: what the kept list is, how each condition
 * behaves, and what the response looks like.
 */
module FilterProperties {
  import opened ResponseFilter

  // ---------------------------------------------------------------------------
  // The kept list is exactly the passing submissions, in upstream order
  // ---------------------------------------------------------------------------

  /** Which submissions of `subs` pass every filter, position by position. */
  ghost function Passing(subs: seq<Submission>, filters: seq<Filter>, parse: DateParser): seq<bool>
  {
    seq(|subs|, i requires 0 <= i < |subs| => PassesAll(subs[i], filters, parse))
  }

  /** The positions `i >= from` with `marks[i]`, ascending. */
  ghost function TruePositions(marks: seq<bool>, from: nat): seq<nat>
    requires from <= |marks|
    decreases |marks| - from
  {
    if from == |marks| then []
    else (if marks[from] then [from] else []) + TruePositions(marks, from + 1)
  }

  /** Every entry of `idx` lies in `[lo, hi)`, and the entries strictly increase. */
  ghost predicate AscendingWithin(idx: seq<nat>, lo: nat, hi: nat)
  {
    && (forall k :: 0 <= k < |idx| ==> lo <= idx[k] < hi)
    && (forall k, l :: 0 <= k < l < |idx| ==> idx[k] < idx[l])
  }

  /** Putting a smaller position in front keeps the positions ascending. */
  lemma ConsAscending(x: nat, rest: seq<nat>, hi: nat)
    requires x < hi && AscendingWithin(rest, x + 1, hi)
    ensures AscendingWithin([x] + rest, x, hi)
  {
    var idx := [x] + rest;
    forall k, l | 0 <= k < l < |idx|
      ensures idx[k] < idx[l]
    {
      assert idx[l] == rest[l - 1];
      if k > 0 {
        assert idx[k] == rest[k - 1];
      }
    }
  }

  /** The positions from `from` on are in range and strictly increasing. */
  lemma {:induction false} TruePositionsAscending(marks: seq<bool>, from: nat)
    requires from <= |marks|
    ensures AscendingWithin(TruePositions(marks, from), from, |marks|)
    decreases |marks| - from
  {
    if from < |marks| {
      TruePositionsAscending(marks, from + 1);
      var rest := TruePositions(marks, from + 1);
      if marks[from] {
        ConsAscending(from, rest, |marks|);
        assert TruePositions(marks, from) == [from] + rest;
      } else {
        assert TruePositions(marks, from) == rest;
      }
    }
  }

  /** The positions from `from` on are exactly the marked ones. */
  lemma {:induction false} TruePositionsExact(marks: seq<bool>, from: nat)
    requires from <= |marks|
    ensures var idx := TruePositions(marks, from);
            forall i :: from <= i < |marks| ==> (i in idx <==> marks[i])
    decreases |marks| - from
  {
    if from < |marks| {
      TruePositionsExact(marks, from + 1);
      TruePositionsAscending(marks, from + 1);
      var rest := TruePositions(marks, from + 1);
      var head: seq<nat> := if marks[from] then [from] else [];
      assert TruePositions(marks, from) == head + rest;
      assert from !in rest by {
        forall k | 0 <= k < |rest| ensures rest[k] != from {
          assert from + 1 <= rest[k];
        }
      }
      forall i | from <= i < |marks|
        ensures i in head + rest <==> marks[i]
      {
        assert i in head + rest <==> i in head || i in rest;
      }
    }
  }

  /** `Matching(subs[from..])` lists `subs` at the positions `TruePositions(Passing(subs), from)`. */
  lemma {:induction false} MatchingAtPositions(subs: seq<Submission>, filters: seq<Filter>, parse: DateParser, from: nat)
    requires from <= |subs|
    ensures var idx := TruePositions(Passing(subs, filters, parse), from);
            var kept := Matching(subs[from..], filters, parse);
            && |kept| == |idx|
            && (forall k :: 0 <= k < |idx| ==> idx[k] < |subs| && kept[k] == subs[idx[k]])
    decreases |subs| - from
  {
    var marks := Passing(subs, filters, parse);
    if from < |subs| {
      assert marks[from] == PassesAll(subs[from], filters, parse);
      MatchingAtPositions(subs, filters, parse, from + 1);
      TruePositionsAscending(marks, from + 1);
      var rest := TruePositions(marks, from + 1);
      var tail := Matching(subs[from + 1..], filters, parse);
      assert subs[from..][1..] == subs[from + 1..];
      assert subs[from..][0] == subs[from];
      if marks[from] {
        assert TruePositions(marks, from) == [from] + rest;
        assert Matching(subs[from..], filters, parse) == [subs[from]] + tail;
      } else {
        assert TruePositions(marks, from) == rest;
        assert Matching(subs[from..], filters, parse) == tail;
      }
    }
  }

  /**
   * The kept list is the ordered subsequence of passing submissions: it lists
   * `subs` at strictly increasing positions, and those are exactly the positions
   * whose submission passes every filter.
   */
  lemma KeptAreExactlyPassingInOrder(subs: seq<Submission>, filters: seq<Filter>, parse: DateParser)
    ensures var idx := TruePositions(Passing(subs, filters, parse), 0);
            var kept := Matching(subs, filters, parse);
            && |kept| == |idx|
            && (forall k :: 0 <= k < |idx| ==> idx[k] < |subs| && kept[k] == subs[idx[k]])
            && (forall k, l :: 0 <= k < l < |idx| ==> idx[k] < idx[l])
            && (forall i :: 0 <= i < |subs| ==> (i in idx <==> PassesAll(subs[i], filters, parse)))
  {
    TruePositionsAscending(Passing(subs, filters, parse), 0);
    TruePositionsExact(Passing(subs, filters, parse), 0);
    MatchingAtPositions(subs, filters, parse, 0);
    assert subs[0..] == subs;
  }

  /** Each submission is judged on its own: filtering two pieces is filtering their concatenation. */
  lemma {:induction false} MatchingDistributes(a: seq<Submission>, b: seq<Submission>, filters: seq<Filter>, parse: DateParser)
    ensures Matching(a + b, filters, parse) == Matching(a, filters, parse) + Matching(b, filters, parse)
  {
    if |a| > 0 {
      SplitAppend(a, b);
      MatchingDistributes(a[1..], b, filters, parse);
      DistributesOverFront(a, b, filters, parse);
    } else {
      assert a + b == b;
    }
  }

  /** The inductive step of `MatchingDistributes`: the first submission of `a` is judged once. */
  lemma DistributesOverFront(a: seq<Submission>, b: seq<Submission>, filters: seq<Filter>, parse: DateParser)
    requires |a| > 0
    requires Matching(a[1..] + b, filters, parse) == Matching(a[1..], filters, parse) + Matching(b, filters, parse)
    ensures Matching(a + b, filters, parse) == Matching(a, filters, parse) + Matching(b, filters, parse)
  {
    SplitAppend(a, b);
    MatchingStep(a + b, filters, parse);
    MatchingStep(a, filters, parse);
    ConsAppend(a[0], Matching(a[1..], filters, parse), Matching(b, filters, parse));
  }

  /** The front and the rest of `a + b` for a non-empty `a`. */
  lemma SplitAppend<T>(a: seq<T>, b: seq<T>)
    requires |a| > 0
    ensures (a + b)[0] == a[0] && (a + b)[1..] == a[1..] + b
  {
  }

  /** Putting one element in front of a concatenation. */
  lemma ConsAppend<T>(x: T, left: seq<T>, right: seq<T>)
    ensures [x] + (left + right) == ([x] + left) + right
  {
  }

  /** One step of `filter`: the first submission is kept in front exactly when it passes. */
  lemma MatchingStep(subs: seq<Submission>, filters: seq<Filter>, parse: DateParser)
    requires |subs| > 0
    ensures PassesAll(subs[0], filters, parse) ==>
      Matching(subs, filters, parse) == [subs[0]] + Matching(subs[1..], filters, parse)
    ensures !PassesAll(subs[0], filters, parse) ==>
      Matching(subs, filters, parse) == Matching(subs[1..], filters, parse)
  {
  }

  /** With no filters `every` is vacuously true and every submission is kept, unchanged. */
  lemma {:induction false} NoFiltersKeepsAll(subs: seq<Submission>, parse: DateParser)
    ensures Matching(subs, [], parse) == subs
  {
    if |subs| > 0 {
      NoFiltersKeepsAll(subs[1..], parse);
    }
  }

  /** When something is kept, the answer is the kept list, its length and its page count. */
  lemma AnswerWhenSomethingKept(upstream: seq<Submission>, filters: seq<Filter>, perPage: nat, parse: DateParser)
    requires perPage > 0 && Matching(upstream, filters, parse) != []
    ensures var kept := Matching(upstream, filters, parse);
            FilteredResponses(upstream, Some(filters), perPage, parse)
              == Ok(kept, |kept|, PageCount(|kept|, perPage))
  {
  }

  /** An absent `filters` parameter answers the whole non-empty upstream page. */
  lemma AbsentFiltersAnswerEverything(upstream: seq<Submission>, perPage: nat, parse: DateParser)
    requires perPage > 0 && |upstream| > 0
    ensures FilteredResponses(upstream, None, perPage, parse).Ok?
    ensures FilteredResponses(upstream, None, perPage, parse).responses == upstream
  {
    NoFiltersKeepsAll(upstream, parse);
  }

  // ---------------------------------------------------------------------------
  // Looking up the question
  // ---------------------------------------------------------------------------

  /** A filter whose id no question carries fails, whatever its condition or value. */
  lemma MissingQuestionFails(sub: Submission, f: Filter, parse: DateParser)
    requires forall i :: 0 <= i < |sub.questions| ==> sub.questions[i].id != f.id
    ensures !Holds(sub, f, parse)
  {
  }

  /** ... and therefore rejects the submission, wherever it stands in the filter list. */
  lemma MissingQuestionRejects(sub: Submission, filters: seq<Filter>, k: nat, parse: DateParser)
    requires k < |filters|
    requires forall i :: 0 <= i < |sub.questions| ==> sub.questions[i].id != filters[k].id
    ensures !PassesAll(sub, filters, parse)
  {
    MissingQuestionFails(sub, filters[k], parse);
  }

  /** Only the first question with the filter's id is consulted. */
  lemma FirstQuestionDecides(sub: Submission, f: Filter, i: nat, parse: DateParser)
    requires i < |sub.questions| && sub.questions[i].id == f.id
    requires forall j :: 0 <= j < i ==> sub.questions[j].id != f.id
    ensures Holds(sub, f, parse) == Compare(ParseCondition(f.condition), sub.questions[i].value, f.value, parse)
  {
    var r := FindQuestion(sub.questions, f.id);
    var j :| 0 <= j < |sub.questions| && sub.questions[j] == r.value && sub.questions[j].id == f.id
             && forall m :: 0 <= m < j ==> sub.questions[m].id != f.id;
    assert i == j;
  }

  /** Once a question with `id` has appeared, whatever follows it cannot change the lookup. */
  lemma {:induction false} FindIgnoresSuffix(qs: seq<Question>, extra: seq<Question>, id: string)
    requires exists i :: 0 <= i < |qs| && qs[i].id == id
    ensures FindQuestion(qs + extra, id) == FindQuestion(qs, id)
  {
    if qs[0].id != id {
      var i :| 0 <= i < |qs| && qs[i].id == id;
      assert i > 0 && qs[1..][i - 1].id == id;
      assert (qs + extra)[1..] == qs[1..] + extra;
      FindIgnoresSuffix(qs[1..], extra, id);
    }
  }

  /** Later questions that repeat an id already present never affect a filter on that id. */
  lemma LaterDuplicatesIgnored(qs: seq<Question>, extra: seq<Question>, f: Filter, parse: DateParser)
    requires exists i :: 0 <= i < |qs| && qs[i].id == f.id
    ensures Holds(Submission(qs + extra), f, parse) == Holds(Submission(qs), f, parse)
  {
    FindIgnoresSuffix(qs, extra, f.id);
  }

  // ---------------------------------------------------------------------------
  // The conditions
  // ---------------------------------------------------------------------------

  /**
   * `equals` and `does_not_equal` on the same id and value are negations of each
   * other when the question is present, and both fail when it is absent.
   */
  lemma EqualsComplement(sub: Submission, id: string, v: Value, parse: DateParser)
    ensures var present := exists i :: 0 <= i < |sub.questions| && sub.questions[i].id == id;
            var eq := Holds(sub, Filter(id, "equals", v), parse);
            var ne := Holds(sub, Filter(id, "does_not_equal", v), parse);
            && (present ==> eq == !ne)
            && (!present ==> !eq && !ne)
  {
  }

  /** `greater_than` and `less_than` never both hold of the same question and value. */
  lemma OrderingExclusive(sub: Submission, id: string, v: Value, parse: DateParser)
    ensures !(Holds(sub, Filter(id, "greater_than", v), parse) && Holds(sub, Filter(id, "less_than", v), parse))
  {
  }

  /** `greater_than(a, b)` holds exactly when `less_than(b, a)` does. */
  lemma GreaterIsConverseOfLess(a: Value, b: Value, parse: DateParser)
    ensures Compare(GreaterThan, a, b, parse) == Compare(LessThan, b, a, parse)
  {
  }

  /** A value that is not a valid date makes both ordering conditions false, on either side. */
  lemma InvalidDateFails(a: Value, b: Value, parse: DateParser)
    requires parse(a).None? || parse(b).None?
    ensures !Compare(GreaterThan, a, b, parse) && !Compare(LessThan, a, b, parse)
  {
  }

  /** A condition outside the four named ones fails whatever the values. */
  lemma UnknownConditionFails(sub: Submission, f: Filter, parse: DateParser)
    requires f.condition !in {"equals", "does_not_equal", "greater_than", "less_than"}
    ensures !Holds(sub, f, parse)
  {
  }

  /** So a filter list holding an unknown condition keeps nothing and the answer is "not found". */
  lemma UnknownConditionMeansNotFound(upstream: seq<Submission>, filters: seq<Filter>, k: nat,
                                      perPage: nat, parse: DateParser)
    requires perPage > 0 && k < |filters|
    requires filters[k].condition !in {"equals", "does_not_equal", "greater_than", "less_than"}
    ensures FilteredResponses(upstream, Some(filters), perPage, parse) == NotFound(NoMatchMessage)
  {
    forall i | 0 <= i < |upstream|
      ensures !PassesAll(upstream[i], filters, parse)
    {
      UnknownConditionFails(upstream[i], filters[k], parse);
    }
  }

  // ---------------------------------------------------------------------------
  // Pagination
  // ---------------------------------------------------------------------------

  /**
   * The upstream is asked for `perPage` submissions; when it sends no more than
   * that, whatever survives the filters fits on one page.
   */
  lemma SinglePageWhenUpstreamHonoursPerPage(upstream: seq<Submission>, filters: Option<seq<Filter>>,
                                             perPage: nat, parse: DateParser)
    requires perPage > 0 && |upstream| <= perPage
    ensures var out := FilteredResponses(upstream, filters, perPage, parse);
            out.Ok? ==> out.pageCount == 1
  {
    var kept := Matching(upstream, if filters.Some? then filters.value else [], parse);
    if |kept| > 0 {
      OnePageUpToPerPage(|kept|, perPage);
    }
  }

  /** Any count from 1 to `perPage` takes exactly one page. */
  lemma OnePageUpToPerPage(total: nat, perPage: nat)
    requires 1 <= total <= perPage
    ensures PageCount(total, perPage) == 1
  {
    var p := PageCount(total, perPage);
    MulMonotone(1, p - 1, perPage);
  }

  /** Multiplying by a whole number keeps the order of two whole numbers. */
  lemma {:induction false} MulMonotone(a: nat, b: nat, d: nat)
    ensures a <= b ==> a * d <= b * d
    decreases b
  {
    if a < b {
      MulMonotone(a, b - 1, d);
      assert b * d == (b - 1) * d + d;
    }
  }

  /** Exactly one page for 1 ..= perPage results, two pages for perPage + 1 results. */
  lemma PageCountAtBoundaries(perPage: nat)
    requires perPage > 0
    ensures PageCount(1, perPage) == 1
    ensures PageCount(perPage, perPage) == 1
    ensures PageCount(perPage + 1, perPage) == 2
  {
    OnePageUpToPerPage(1, perPage);
    OnePageUpToPerPage(perPage, perPage);
    var p := PageCount(perPage + 1, perPage);
    MulMonotone(2, p - 1, perPage);
    MulMonotone(p, 1, perPage);
  }

  // ---------------------------------------------------------------------------
  // A worked scenario
  // ---------------------------------------------------------------------------

  /** The three submissions of the scenario below, and its one filter. */
  function ScenarioFirst(): Submission { Submission([Question("q1", Str("no"))]) }
  function ScenarioSecond(): Submission { Submission([Question("q0", Num(3.0)), Question("q1", Str("yes"))]) }
  function ScenarioThird(): Submission { Submission([Question("q2", Str("yes"))]) }
  function ScenarioFilter(): Filter { Filter("q1", "equals", Str("yes")) }

  /** Of the three, only the second answers "yes" to q1. */
  lemma OnlySecondPasses(parse: DateParser)
    ensures !PassesAll(ScenarioFirst(), [ScenarioFilter()], parse)
    ensures PassesAll(ScenarioSecond(), [ScenarioFilter()], parse)
    ensures !PassesAll(ScenarioThird(), [ScenarioFilter()], parse)
  {
    FirstQuestionDecides(ScenarioFirst(), ScenarioFilter(), 0, parse);
    FirstQuestionDecides(ScenarioSecond(), ScenarioFilter(), 1, parse);
    MissingQuestionFails(ScenarioThird(), ScenarioFilter(), parse);
  }

  /**
   * Three submissions of which only the second answers "yes" to question q1;
   * the filter `q1 equals "yes"` keeps exactly that one, on one page of ten.
   */
  lemma SecondOfThreeMatches(parse: DateParser)
    ensures FilteredResponses([ScenarioFirst(), ScenarioSecond(), ScenarioThird()],
                              Some([ScenarioFilter()]), 10, parse)
              == Ok([ScenarioSecond()], 1, 1)
  {
    var first, second, third := ScenarioFirst(), ScenarioSecond(), ScenarioThird();
    var fs := [ScenarioFilter()];
    OnlySecondPasses(parse);
    assert [first, second, third][1..] == [second, third];
    assert [second, third][1..] == [third];
    MatchingStep([third], fs, parse);
    MatchingStep([second, third], fs, parse);
    MatchingStep([first, second, third], fs, parse);
    assert Matching([first, second, third], fs, parse) == [second];
    OnePageUpToPerPage(1, 10);
    AnswerWhenSomethingKept([first, second, third], fs, 10, parse);
  }
}
