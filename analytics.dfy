/** The response analysis page (js/responses.js): the completion count and
    rate, the per-option tallies of choice questions, the latest text
    answers, and the search and date filter of the response table. The page
    reads answers with JavaScript semantics, so its idea of an answered
    question differs from the server's. */
module Analytics {
  import opened Options
  import opened Text
  import opened Seqs
  import opened Answers
  import opened Surveys
  import opened Conditions
  import RV = ResponseValidation

  /** A required answer counts as given when it is truthy and not an empty
      array: "0" counts, "" and a missing or null answer do not. */
  function Filled(a: Option<Answer>): (filled: bool)
    ensures filled <==> a.Some? && ((a.value.Scalar? && a.value.text != "") || (a.value.Multi? && a.value.items != []))
  {
    JsTruthy(a) && a != Some(Multi([]))
  }

  /** A response is complete when every required question, read under the
      key of its position, has a filled answer. Visibility conditions play
      no part. */
  function IsComplete(answers: AnswerMap, qs: seq<Question>): (complete: bool)
    ensures (forall i :: 0 <= i < |qs| ==> !qs[i].required) ==> complete
    ensures complete ==> forall i :: 0 <= i < |qs| && qs[i].required ==> JsAnswer(answers, Key(i)).Some?
    ensures complete ==> forall i :: 0 <= i < |qs| && qs[i].required ==> JsAnswer(answers, Key(i)) != Some(Absent)
  {
    forall i :: 0 <= i < |qs| && qs[i].required ==> Filled(JsAnswer(answers, Key(i)))
  }

  function CompleteFor(qs: seq<Question>): ResponseRecord -> bool {
    (r: ResponseRecord) => IsComplete(r.answers, qs)
  }

  /** The inner loop of the completion count: one response against every
      required question, without stopping early. */
  method CheckCompleted(answers: AnswerMap, qs: seq<Question>) returns (isCompleted: bool)
    ensures isCompleted == IsComplete(answers, qs)
  {
    isCompleted := true;
    var i := 0;
    while i < |qs|
      invariant 0 <= i <= |qs|
      invariant isCompleted == forall k :: 0 <= k < i && qs[k].required ==> Filled(JsAnswer(answers, Key(k)))
    {
      if qs[i].required {
        var answer := JsAnswer(answers, Key(i));
        if !JsTruthy(answer) || answer == Some(Multi([])) {
          isCompleted := false;
        }
      }
      i := i + 1;
    }
  }

  /** The number of complete responses. */
  method CountCompleted(rs: seq<ResponseRecord>, qs: seq<Question>) returns (completed: nat)
    ensures completed == Count(rs, CompleteFor(qs))
    ensures completed <= |rs|
  {
    completed := 0;
    var j := 0;
    while j < |rs|
      invariant 0 <= j <= |rs|
      invariant completed == Count(rs[..j], CompleteFor(qs))
    {
      var isCompleted := CheckCompleted(rs[j].answers, qs);
      if isCompleted {
        completed := completed + 1;
      }
      assert rs[..j + 1] == rs[..j] + [rs[j]];
      CountAppend(rs[..j], [rs[j]], CompleteFor(qs));
      j := j + 1;
    }
    assert rs[..j] == rs;
  }

  /** A share in percent as the page shows it (the completion rate, an
      option's share of its question's answers): 100 * part / whole rounded
      half up, and 0 when the whole is 0. */
  function Percent(part: nat, whole: nat): (rate: nat)
    ensures whole == 0 ==> rate == 0
    ensures whole > 0 ==> 2 * whole * rate <= 200 * part + whole < 2 * whole * (rate + 1)
  {
    if whole == 0 then 0 else (200 * part + whole) / (2 * whole)
  }

  /** The share never exceeds 100 when the part does not exceed the whole,
      and is exactly 100 when they are equal. */
  lemma PercentAtMost100(part: nat, whole: nat)
    requires part <= whole
    ensures Percent(part, whole) <= 100
    ensures whole > 0 && part == whole ==> Percent(part, whole) == 100
  {
    if whole > 0 {
      var rate := Percent(part, whole);
      var d := 2 * whole;
      assert d * rate <= 200 * part + whole < d * (rate + 1);
      assert 200 * part + whole <= 201 * whole;
      assert d * 101 == 202 * whole && d * 100 == 200 * whole;
      if rate > 100 {
        MulMonotone(d, 101, rate);
      }
      if part == whole && rate < 100 {
        MulMonotone(d, rate + 1, 100);
      }
    }
  }

  lemma MulMonotone(a: nat, b: nat, c: nat)
    requires b <= c
    ensures a * b <= a * c
  {
  }

  /** The browser and the server disagree on "0": a required text question
      answered "0" makes the response complete for the page, while the
      server refuses that very answer as missing. */
  lemma ZeroAnswerDivergence(title: string)
    ensures var q := Question(1, Some(TextType), title, true, None, [], None);
            var answers := [Entry("question_0", Scalar("0"))];
            IsComplete(answers, [q]) && RV.ResponseErrors([q], answers) == [RV.RequiredMissing(title)]
  {
    var q := Question(1, Some(TextType), title, true, None, [], None);
    var answers := [Entry("question_0", Scalar("0"))];
    assert Key(0) == "question_0";
    assert JsAnswer(answers, Key(0)) == Some(Scalar("0"));
    assert PhpAnswer(answers, Key(0)) == Scalar("0");
    assert RV.QuestionErrors([q], 0, answers) == [RV.RequiredMissing(title)];
    var parts := RV.PerQuestionErrors([q], answers);
    assert parts == [RV.QuestionErrors([q], 0, answers)];
    FlattenStep(parts, 0);
    assert parts[..0] == [] && parts[..1] == parts;
  }

  /** The page ignores visibility: a required question that its condition
      hides, left unanswered, makes the response incomplete for the page,
      although the server accepted it. */
  lemma HiddenRequiredDivergence()
    ensures var q1 := Question(1, Some(RadioType), "Q1", false, Some(["yes", "no"]), [], None);
            var q2 := Question(2, Some(RadioType), "Q2", true, Some(["yes", "no"]),
                               [Condition(Some(1), Some(EqualsOp), Some("yes"))], None);
            var answers := [Entry("question_0", Scalar("no"))];
            RV.ResponseErrors([q1, q2], answers) == [] && !IsComplete(answers, [q1, q2])
  {
    var q1 := Question(1, Some(RadioType), "Q1", false, Some(["yes", "no"]), [], None);
    var q2 := Question(2, Some(RadioType), "Q2", true, Some(["yes", "no"]),
                       [Condition(Some(1), Some(EqualsOp), Some("yes"))], None);
    var answers := [Entry("question_0", Scalar("no"))];
    RV.HiddenRequiredQuestionAccepted();
    assert Key(1) == "question_1";
    assert JsAnswer(answers, Key(1)) == None;
  }

  /** The answers to the question at position `i` that the analysis works
      on: one per response, in response order, leaving out undefined and
      "" (null stays). */
  function PresentAnswers(rs: seq<ResponseRecord>, i: nat): (r: seq<Answer>)
    ensures |r| <= |rs|
    ensures forall k :: 0 <= k < |r| ==> r[k] != Scalar("")
    decreases |rs|
  {
    if rs == [] then []
    else
      var a := JsAnswer(rs[|rs| - 1].answers, Key(i));
      PresentAnswers(rs[..|rs| - 1], i) + (if a.Some? && a.value != Scalar("") then [a.value] else [])
  }

  /** The property name an answer is looked up under (`hasOwnProperty`
      converts its argument to a string): null becomes "null" and an array
      its elements joined with ",". */
  function PropertyKey(a: Answer): string {
    match a
    case Absent => "null"
    case Scalar(s) => s
    case Multi(items) => Join(items, ",")
  }

  /** How many times `o` occurs in `s`. */
  function Occurrences(s: seq<string>, o: string): (n: nat)
    ensures n <= |s|
    decreases |s|
  {
    if s == [] then 0 else (if s[0] == o then 1 else 0) + Occurrences(s[1..], o)
  }

  /** What one answer adds to the tally of option `o`: each selected value
      of an array answer to a checkbox question, otherwise the answer as a
      whole. */
  function Hit(a: Answer, checkbox: bool, o: string): nat {
    if checkbox && a.Multi? then Occurrences(a.items, o)
    else if PropertyKey(a) == o then 1 else 0
  }

  /** The tally of option `o` over a list of answers. */
  function Hits(answers: seq<Answer>, checkbox: bool, o: string): nat
    decreases |answers|
  {
    if answers == [] then 0
    else Hits(answers[..|answers| - 1], checkbox, o) + Hit(answers[|answers| - 1], checkbox, o)
  }

  /** What one answer adds to the denominator of the percentages. */
  function Weight(a: Answer, checkbox: bool): nat {
    if checkbox && a.Multi? then |a.items| else 1
  }

  /** The denominator: the number of selected values for a checkbox
      question (a non-array answer counting one), the number of answers
      otherwise. */
  function Denominator(answers: seq<Answer>, checkbox: bool): (total: nat)
    ensures !checkbox ==> total == |answers|
    decreases |answers|
  {
    if answers == [] then 0
    else Denominator(answers[..|answers| - 1], checkbox) + Weight(answers[|answers| - 1], checkbox)
  }

  /** The tallies of a choice question: one counter per declared option,
      starting at 0, advanced by every answer value that is a declared
      option; and the denominator. A choice question without an options
      array makes the page's handler fail, so one is required here. */
  method ChoiceTallies(q: Question, answers: seq<Answer>) returns (counts: map<string, nat>, total: nat)
    requires q.options.Some?
    ensures forall o :: o in counts <==> o in q.options.value
    ensures forall o :: o in counts ==> counts[o] == Hits(answers, IsType(q, CheckboxType), o)
    ensures total == Denominator(answers, IsType(q, CheckboxType))
  {
    var options := q.options.value;
    var checkbox := q.qtype == Some(CheckboxType);
    counts := map[];
    var i := 0;
    while i < |options|
      invariant 0 <= i <= |options|
      invariant forall o :: o in counts <==> o in options[..i]
      invariant forall o :: o in counts ==> counts[o] == 0
    {
      counts := counts[options[i] := 0];
      assert options[..i + 1] == options[..i] + [options[i]];
      i := i + 1;
    }
    assert options[..i] == options;
    var j := 0;
    while j < |answers|
      invariant 0 <= j <= |answers|
      invariant forall o :: o in counts <==> o in options
      invariant forall o :: o in counts ==> counts[o] == Hits(answers[..j], checkbox, o)
    {
      var answer := answers[j];
      if checkbox && answer.Multi? {
        counts := CountSelections(counts, answer.items);
      } else if PropertyKey(answer) in counts {
        counts := counts[PropertyKey(answer) := counts[PropertyKey(answer)] + 1];
      }
      assert answers[..j + 1][..j] == answers[..j];
      j := j + 1;
    }
    assert answers[..j] == answers;
    total := Denominator(answers, checkbox);
  }

  /** The loop over the values of one checkbox answer: every value that is
      a counter's option advances that counter. */
  method CountSelections(counts0: map<string, nat>, items: seq<string>) returns (counts: map<string, nat>)
    ensures forall o :: o in counts <==> o in counts0
    ensures forall o :: o in counts ==> counts[o] == counts0[o] + Occurrences(items, o)
  {
    counts := counts0;
    var m := 0;
    while m < |items|
      invariant 0 <= m <= |items|
      invariant forall o :: o in counts <==> o in counts0
      invariant forall o :: o in counts ==> counts[o] == counts0[o] + Occurrences(items[..m], o)
    {
      if items[m] in counts {
        counts := counts[items[m] := counts[items[m]] + 1];
      }
      forall o ensures Occurrences(items[..m + 1], o) == Occurrences(items[..m], o) + (if items[m] == o then 1 else 0) {
        assert items[..m + 1] == items[..m] + [items[m]];
        OccurrencesSnoc(items[..m], items[m], o);
      }
      m := m + 1;
    }
    assert items[..m] == items;
  }

  lemma {:induction false} OccurrencesSnoc(s: seq<string>, x: string, o: string)
    ensures Occurrences(s + [x], o) == Occurrences(s, o) + (if x == o then 1 else 0)
    decreases |s|
  {
    if s != [] {
      assert (s + [x])[1..] == s[1..] + [x];
      OccurrencesSnoc(s[1..], x, o);
    }
  }

  /** No two options are the same (a JavaScript object has each key
      once). */
  predicate Distinct(ks: seq<string>) {
    forall i, j :: 0 <= i < j < |ks| ==> ks[i] != ks[j]
  }

  /** A value occurs at most once among distinct options. */
  lemma {:induction false} OccursAtMostOnce(ks: seq<string>, x: string)
    requires Distinct(ks)
    ensures Occurrences(ks, x) <= 1
    decreases |ks|
  {
    if ks != [] {
      OccursAtMostOnce(ks[1..], x);
      if ks[0] == x {
        NotOccurring(ks[1..], x);
      }
    }
  }

  lemma {:induction false} NotOccurring(s: seq<string>, x: string)
    requires forall k :: 0 <= k < |s| ==> s[k] != x
    ensures Occurrences(s, x) == 0
    decreases |s|
  {
    if s != [] {
      NotOccurring(s[1..], x);
    }
  }

  /** The sum of the tallies of the options `ks`. */
  function SumHits(answers: seq<Answer>, checkbox: bool, ks: seq<string>): nat
    decreases |ks|
  {
    if ks == [] then 0 else Hits(answers, checkbox, ks[0]) + SumHits(answers, checkbox, ks[1..])
  }

  /** What one answer adds to the tallies of the options `ks`. */
  function SumHit(a: Answer, checkbox: bool, ks: seq<string>): nat
    decreases |ks|
  {
    if ks == [] then 0 else Hit(a, checkbox, ks[0]) + SumHit(a, checkbox, ks[1..])
  }

  lemma {:induction false} SumHitsNil(checkbox: bool, ks: seq<string>)
    ensures SumHits([], checkbox, ks) == 0
    decreases |ks|
  {
    if ks != [] {
      SumHitsNil(checkbox, ks[1..]);
    }
  }

  lemma {:induction false} SumHitsSnoc(answers: seq<Answer>, a: Answer, checkbox: bool, ks: seq<string>)
    ensures SumHits(answers + [a], checkbox, ks) == SumHits(answers, checkbox, ks) + SumHit(a, checkbox, ks)
    decreases |ks|
  {
    if ks != [] {
      SumHitsSnoc(answers, a, checkbox, ks[1..]);
      assert (answers + [a])[..|answers|] == answers;
    }
  }

  /** A single answer counted as a whole adds at most one across distinct
      options. */
  lemma {:induction false} WholeAnswerHitsOnce(a: Answer, checkbox: bool, ks: seq<string>)
    requires !(checkbox && a.Multi?)
    ensures SumHit(a, checkbox, ks) == Occurrences(ks, PropertyKey(a))
    decreases |ks|
  {
    if ks != [] {
      WholeAnswerHitsOnce(a, checkbox, ks[1..]);
    }
  }

  lemma {:induction false} SelectionsNil(ks: seq<string>)
    ensures SumHit(Multi([]), true, ks) == 0
    decreases |ks|
  {
    if ks != [] {
      SelectionsNil(ks[1..]);
    }
  }

  lemma {:induction false} SelectionsSnoc(items: seq<string>, x: string, ks: seq<string>)
    ensures SumHit(Multi(items + [x]), true, ks) == SumHit(Multi(items), true, ks) + Occurrences(ks, x)
    decreases |ks|
  {
    if ks != [] {
      SelectionsSnoc(items, x, ks[1..]);
      OccurrencesSnoc(items, x, ks[0]);
    }
  }

  /** The values of one checkbox answer add at most their number across
      distinct options. */
  lemma {:induction false} SelectionsWithinCount(items: seq<string>, ks: seq<string>)
    requires Distinct(ks)
    ensures SumHit(Multi(items), true, ks) <= |items|
    decreases |items|
  {
    if items == [] {
      SelectionsNil(ks);
    } else {
      var init := items[..|items| - 1];
      var x := items[|items| - 1];
      assert items == init + [x];
      SelectionsWithinCount(init, ks);
      SelectionsSnoc(init, x, ks);
      OccursAtMostOnce(ks, x);
    }
  }

  /** Over the distinct options, the tallies sum to at most the
      denominator, since every counted value matches one option at most.
      (The rounded percentages can still add up to a little over 100.) */
  lemma {:induction false} TalliesWithinDenominator(answers: seq<Answer>, checkbox: bool, ks: seq<string>)
    requires Distinct(ks)
    ensures SumHits(answers, checkbox, ks) <= Denominator(answers, checkbox)
    decreases |answers|
  {
    if answers == [] {
      SumHitsNil(checkbox, ks);
    } else {
      var init := answers[..|answers| - 1];
      var a := answers[|answers| - 1];
      assert answers == init + [a];
      TalliesWithinDenominator(init, checkbox, ks);
      SumHitsSnoc(init, a, checkbox, ks);
      if checkbox && a.Multi? {
        SelectionsWithinCount(a.items, ks);
        assert SumHit(a, checkbox, ks) == SumHit(Multi(a.items), true, ks);
      } else {
        WholeAnswerHitsOnce(a, checkbox, ks);
        OccursAtMostOnce(ks, PropertyKey(a));
      }
    }
  }

  /** The completion rate is a share of at most 100, as is every option's
      share of its question's denominator. */
  lemma RatesAtMost100(rs: seq<ResponseRecord>, qs: seq<Question>, answers: seq<Answer>, checkbox: bool, o: string)
    ensures Percent(Count(rs, CompleteFor(qs)), |rs|) <= 100
    ensures Percent(Hits(answers, checkbox, o), Denominator(answers, checkbox)) <= 100
  {
    PercentAtMost100(Count(rs, CompleteFor(qs)), |rs|);
    TalliesWithinDenominator(answers, checkbox, [o]);
    assert SumHits(answers, checkbox, [o]) == Hits(answers, checkbox, o) by {
      assert [o][1..] == [];
    }
    PercentAtMost100(Hits(answers, checkbox, o), Denominator(answers, checkbox));
  }

  /** The text answers shown for a non-choice question: the last five, the
      newest first. */
  function RecentAnswers(answers: seq<Answer>): (r: seq<Answer>)
    ensures |r| == if |answers| < 5 then |answers| else 5
    ensures forall k :: 0 <= k < |r| ==> r[k] == answers[|answers| - 1 - k]
  {
    var shown := if |answers| < 5 then |answers| else 5;
    Reverse(answers[|answers| - shown..])
  }

  /** The count in the "n more" note, present only beyond five answers. */
  function MoreCount(answers: seq<Answer>): (more: Option<nat>)
    ensures more.Some? <==> |answers| > 5
    ensures more.Some? ==> more.value == |answers| - 5
  {
    if |answers| > 5 then Some(|answers| - 5) else None
  }

  /** The shown answers and the ones the note counts split the list: the
      older ones the note counts, then the shown ones in their original
      order. */
  lemma RecentAndMorePartition(answers: seq<Answer>)
    ensures answers == answers[..|answers| - |RecentAnswers(answers)|] + Reverse(RecentAnswers(answers))
    ensures |answers| - |RecentAnswers(answers)| == MoreCount(answers).GetOr(0)
  {
    var shown := |RecentAnswers(answers)|;
    ReverseTwice(answers[|answers| - shown..]);
    assert answers == answers[..|answers| - shown] + answers[|answers| - shown..];
  }

  /** The keys of an answers object, each once, in the order of their
      first occurrence (the order JavaScript enumerates keys that are not
      integer-like, such as every `question_<index>`). */
  function ObjectKeys(answers: AnswerMap): (ks: seq<string>)
    ensures forall k :: 0 <= k < |ks| ==> exists i :: 0 <= i < |answers| && answers[i].key == ks[k]
    ensures forall i :: 0 <= i < |answers| ==> answers[i].key in ks
    ensures forall j, k :: 0 <= j < k < |ks| ==> ks[j] != ks[k]
    decreases |answers|
  {
    if answers == [] then []
    else
      var init := answers[..|answers| - 1];
      var keys := ObjectKeys(init);
      assert forall i :: 0 <= i < |init| ==> init[i] == answers[i];
      if answers[|answers| - 1].key in keys then keys else keys + [answers[|answers| - 1].key]
  }

  /** `Object.values`: the value of each key, in key order. */
  function ObjectValues(answers: AnswerMap): (vs: seq<Answer>)
    ensures |vs| == |ObjectKeys(answers)|
    ensures forall k :: 0 <= k < |vs| ==> Lookup(answers, ObjectKeys(answers)[k]) == Some(vs[k])
  {
    var keys := ObjectKeys(answers);
    seq(|keys|, k requires 0 <= k < |keys| => Lookup(answers, keys[k]).value)
  }

  /** An answer as an element of a string join: null is empty, an array its
      elements joined with ",". */
  function JoinText(a: Answer): string {
    match a
    case Absent => ""
    case Scalar(s) => s
    case Multi(items) => Join(items, ",")
  }

  /** The text a response is searched in: all its answer values joined
      with spaces, lower-cased. */
  function SearchText(answers: AnswerMap): (text: string)
    ensures forall k :: 0 <= k < |ObjectValues(answers)| ==>
              Contains(text, AsciiLower(JoinText(ObjectValues(answers)[k])))
  {
    var vs := ObjectValues(answers);
    var parts := seq(|vs|, k requires 0 <= k < |vs| => JoinText(vs[k]));
    var text := AsciiLower(Join(parts, " "));
    assert forall k :: 0 <= k < |vs| ==> Contains(text, AsciiLower(JoinText(vs[k]))) by {
      forall k | 0 <= k < |vs|
        ensures Contains(text, AsciiLower(JoinText(vs[k])))
      {
        var before, after := JoinHasPart(parts, " ", k);
        AsciiLowerAppend(before + parts[k], after);
        AsciiLowerAppend(before, parts[k]);
        var part := AsciiLower(parts[k]);
        ContainsAt(part, part, 0);
        ContainsInMiddle(AsciiLower(before), part, AsciiLower(after), part);
      }
    }
    text
  }

  /** The search box and the two date inputs; an empty input is not
      applied. Dates are `YYYY-MM-DD` strings. */
  datatype FilterCriteria = FilterCriteria(search: string, dateFrom: string, dateTo: string)

  /** Whether the table shows a response: its answers contain the
      lower-cased search term, and its date (computed from the submission
      time by `dateOf`) is not before the start nor after the end date,
      compared as strings. */
  function Shown(r: ResponseRecord, c: FilterCriteria, dateOf: string -> string): (shown: bool)
    ensures c == FilterCriteria("", "", "") ==> shown
    ensures shown && c.search != [] ==> Contains(SearchText(r.answers), AsciiLower(c.search))
    ensures c.dateFrom != [] && LexLess(dateOf(r.submittedAt), c.dateFrom) ==> !shown
    ensures c.dateTo != [] && LexLess(c.dateTo, dateOf(r.submittedAt)) ==> !shown
  {
    var term := AsciiLower(c.search);
    var date := dateOf(r.submittedAt);
    && (term == [] || Contains(SearchText(r.answers), term))
    && (c.dateFrom == [] || !LexLess(date, c.dateFrom))
    && (c.dateTo == [] || !LexLess(c.dateTo, date))
  }

  function ShownBy(c: FilterCriteria, dateOf: string -> string): ResponseRecord -> bool {
    (r: ResponseRecord) => Shown(r, c, dateOf)
  }

  /** The filtered response list, in the original order. */
  function FilterResponses(rs: seq<ResponseRecord>, c: FilterCriteria, dateOf: string -> string): (r: seq<ResponseRecord>)
    ensures forall x :: x in r <==> x in rs && Shown(x, c, dateOf)
  {
    var kept := Filter(rs, ShownBy(c, dateOf));
    assert forall x :: x in kept <==> x in rs && Shown(x, c, dateOf) by {
      forall x ensures x in kept <==> x in rs && Shown(x, c, dateOf) {
        FilterMembership(rs, ShownBy(c, dateOf), x);
      }
    }
    kept
  }

  /** With all three inputs empty every response is shown. */
  lemma EmptyCriteriaShowAll(rs: seq<ResponseRecord>, dateOf: string -> string)
    ensures FilterResponses(rs, FilterCriteria("", "", ""), dateOf) == rs
  {
    FilterKeepsAll(rs, ShownBy(FilterCriteria("", "", ""), dateOf));
  }

  /** Both date bounds are inclusive: a response dated on the start date
      and the end date is shown when there is no search term. */
  lemma DateBoundsInclusive(r: ResponseRecord, dateOf: string -> string)
    ensures Shown(r, FilterCriteria("", dateOf(r.submittedAt), dateOf(r.submittedAt)), dateOf)
  {
    LexLessIrreflexive(dateOf(r.submittedAt));
  }

  /** The search reaches every key of the answers object: a term found in
      the value stored under any key is found in the search text. */
  lemma SearchFindsEveryKey(answers: AnswerMap, key: string, term: string)
    requires Lookup(answers, key).Some?
    requires Contains(AsciiLower(JoinText(Lookup(answers, key).value)), AsciiLower(term))
    ensures Contains(SearchText(answers), AsciiLower(term))
  {
    var ks := ObjectKeys(answers);
    var i :| 0 <= i < |answers| && answers[i].key == key;
    assert key in ks;
    var k :| 0 <= k < |ks| && ks[k] == key;
    assert ObjectValues(answers)[k] == Lookup(answers, key).value;
    SearchFindsAnyAnswer(answers, k, term);
  }

  /** The search finds a response by any part of any of its answer values,
      whatever the case of the ASCII letters. */
  lemma SearchFindsAnyAnswer(answers: AnswerMap, k: nat, term: string)
    requires k < |ObjectValues(answers)|
    requires Contains(AsciiLower(JoinText(ObjectValues(answers)[k])), AsciiLower(term))
    ensures Contains(SearchText(answers), AsciiLower(term))
  {
    var vs := ObjectValues(answers);
    var parts := seq(|vs|, i requires 0 <= i < |vs| => JoinText(vs[i]));
    var before, after := JoinHasPart(parts, " ", k);
    AsciiLowerAppend(before + parts[k], after);
    AsciiLowerAppend(before, parts[k]);
    ContainsInMiddle(AsciiLower(before), AsciiLower(parts[k]), AsciiLower(after), AsciiLower(term));
  }
}
