/** Response validation (api/responses.php, validateResponse and
    validateResponseAgainstSurvey). The questions are walked in declared
    order; a hidden question is skipped entirely; a visible one is checked
    for a required answer and for option membership. Every failure is
    collected, none stops the walk. */
module ResponseValidation {
  import opened Options
  import opened Seqs
  import opened Answers
  import opened Surveys
  import opened Conditions

  /** The two kinds of message the validator reports, each naming the
      question's title (and, for an invalid option, the offending value). */
  datatype ResponseError = RequiredMissing(title: string) | InvalidChoice(title: string, value: string)

  /** A required question's answer is acceptable: a nonempty array for a
      checkbox question, anything that is not PHP-empty for the others. */
  predicate RequiredSatisfied(q: Question, a: Answer) {
    if IsType(q, CheckboxType) then a.Multi? && a.items != [] else !PhpEmpty(a)
  }

  function RequiredErrors(q: Question, a: Answer): (r: seq<ResponseError>)
    ensures r == [] <==> !q.required || RequiredSatisfied(q, a)
    ensures r != [] ==> r == [RequiredMissing(q.title)]
  {
    if q.required && !RequiredSatisfied(q, a) then [RequiredMissing(q.title)] else []
  }

  function NotAmong(opts: seq<string>): string -> bool {
    (v: string) => v !in opts
  }

  /** The errors of a checkbox selection: each names a selected value that
      is not a declared option, and every such value is named. */
  function InvalidSelections(title: string, items: seq<string>, opts: seq<string>): (r: seq<ResponseError>)
    ensures |r| <= |items|
    ensures forall e :: e in r ==> e.InvalidChoice? && e.title == title && e.value in items && e.value !in opts
    ensures forall k :: 0 <= k < |items| && items[k] !in opts ==> InvalidChoice(title, items[k]) in r
    decreases |items|
  {
    if items == [] then []
    else
      var init := items[..|items| - 1];
      var last := items[|items| - 1];
      assert forall k :: 0 <= k < |init| ==> init[k] == items[k];
      InvalidSelections(title, init, opts) + (if last in opts then [] else [InvalidChoice(title, last)])
  }

  /** Exactly one error per selected value that is not a declared option,
      in the order of the selection: the k-th error names the k-th invalid
      value, repeats included. */
  lemma {:induction false} InvalidSelectionsExact(title: string, items: seq<string>, opts: seq<string>)
    ensures var r := InvalidSelections(title, items, opts);
            |r| == |Filter(items, NotAmong(opts))|
            && forall k :: 0 <= k < |r| ==> r[k] == InvalidChoice(title, Filter(items, NotAmong(opts))[k])
    decreases |items|
  {
    if items != [] {
      var init := items[..|items| - 1];
      var last := items[|items| - 1];
      InvalidSelectionsExact(title, init, opts);
      assert items == init + [last];
      FilterAppend(init, [last], NotAmong(opts));
      assert [last][1..] == [];
    }
  }

  /** The option-membership check. It applies only to radio, checkbox and
      select questions with a non-empty answer. A non-checkbox question
      given an array is reported with the value "Array", which is what PHP
      interpolates for an array. */
  function ChoiceErrors(q: Question, a: Answer): (r: seq<ResponseError>)
    ensures !IsChoiceType(q.qtype) || PhpEmpty(a) ==> r == []
    ensures forall e :: e in r ==> e.InvalidChoice? && e.title == q.title
  {
    if !IsChoiceType(q.qtype) || PhpEmpty(a) then []
    else if IsType(q, CheckboxType) then
      (if a.Multi? then InvalidSelections(q.title, a.items, OptionsOf(q)) else [])
    else
      match a
      case Scalar(s) => if s in OptionsOf(q) then [] else [InvalidChoice(q.title, s)]
      case Multi(_) => [InvalidChoice(q.title, "Array")]
      case Absent => []
  }

  /** The errors contributed by the question at position `i`: none when it
      is hidden; otherwise its required-answer error, then its option
      errors. */
  function QuestionErrors(qs: seq<Question>, i: nat, answers: AnswerMap): seq<ResponseError>
    requires i < |qs|
  {
    var q := qs[i];
    var a := PhpAnswer(answers, Key(i));
    if !IsVisible(q, answers, qs) then [] else RequiredErrors(q, a) + ChoiceErrors(q, a)
  }

  /** What one question contributes: nothing when hidden, even if it is
      required; when visible, a required-answer error exactly when it is
      required and its answer falls short; and no option error for a
      PHP-empty answer. */
  lemma QuestionErrorsMeaning(qs: seq<Question>, i: nat, answers: AnswerMap)
    requires i < |qs|
    ensures !IsVisible(qs[i], answers, qs) ==> QuestionErrors(qs, i, answers) == []
    ensures IsVisible(qs[i], answers, qs) ==>
      (RequiredMissing(qs[i].title) in QuestionErrors(qs, i, answers)
       <==> qs[i].required && !RequiredSatisfied(qs[i], PhpAnswer(answers, Key(i))))
    ensures PhpEmpty(PhpAnswer(answers, Key(i))) ==>
      forall e :: e in QuestionErrors(qs, i, answers) ==> e.RequiredMissing?
  {
  }

  /** The errors of each question, by position. */
  function PerQuestionErrors(qs: seq<Question>, answers: AnswerMap): (r: seq<seq<ResponseError>>)
    ensures |r| == |qs|
    ensures forall i :: 0 <= i < |qs| ==> r[i] == QuestionErrors(qs, i, answers)
  {
    seq(|qs|, i requires 0 <= i < |qs| => QuestionErrors(qs, i, answers))
  }

  /** Every error of a whole answer set, question after question. */
  function ResponseErrors(qs: seq<Question>, answers: AnswerMap): (r: seq<ResponseError>)
    ensures qs == [] ==> r == []
    ensures forall e :: e in r <==> exists i :: 0 <= i < |qs| && e in QuestionErrors(qs, i, answers)
  {
    var parts := PerQuestionErrors(qs, answers);
    assert forall e :: e in Flatten(parts) <==> exists i :: 0 <= i < |qs| && e in QuestionErrors(qs, i, answers) by {
      forall e ensures e in Flatten(parts) <==> exists i :: 0 <= i < |qs| && e in QuestionErrors(qs, i, answers) {
        FlattenMembership(parts, e);
      }
    }
    Flatten(parts)
  }

  /** The required-answer check of one visible question. */
  method CheckRequired(question: Question, answer: Answer) returns (found: seq<ResponseError>)
    ensures found == RequiredErrors(question, answer)
  {
    found := [];
    if question.required {
      if IsType(question, CheckboxType) {
        if !answer.Multi? || answer.items == [] {
          found := [RequiredMissing(question.title)];
        }
      } else if PhpEmpty(answer) {
        found := [RequiredMissing(question.title)];
      }
    }
  }

  /** The option-membership check of one visible question; a checkbox
      selection is walked value by value. */
  method CheckChoices(question: Question, answer: Answer) returns (found: seq<ResponseError>)
    ensures found == ChoiceErrors(question, answer)
  {
    found := [];
    if IsChoiceType(question.qtype) && !PhpEmpty(answer) {
      var validOptions := OptionsOf(question);
      if IsType(question, CheckboxType) {
        if answer.Multi? {
          var items := answer.items;
          var j := 0;
          while j < |items|
            invariant 0 <= j <= |items|
            invariant found == InvalidSelections(question.title, items[..j], validOptions)
          {
            assert items[..j + 1][..j] == items[..j];
            if items[j] !in validOptions {
              found := found + [InvalidChoice(question.title, items[j])];
            }
            j := j + 1;
          }
          assert items[..j] == items;
        }
      } else {
        match answer
        case Scalar(s) =>
          if s !in validOptions {
            found := [InvalidChoice(question.title, s)];
          }
        case Multi(_) =>
          found := [InvalidChoice(question.title, "Array")];
      }
    }
  }

  /** validateResponseAgainstSurvey: walks the questions in order and
      appends every error it finds. */
  method ValidateAnswers(answers: AnswerMap, survey: Survey) returns (errors: seq<ResponseError>)
    ensures errors == ResponseErrors(survey.questions, answers)
  {
    var qs := survey.questions;
    ghost var parts := PerQuestionErrors(qs, answers);
    errors := [];
    var index := 0;
    while index < |qs|
      invariant 0 <= index <= |qs|
      invariant errors == Flatten(parts[..index])
    {
      var question := qs[index];
      var answer := PhpAnswer(answers, Key(index));
      var own := [];
      if IsVisible(question, answers, qs) {
        var missing := CheckRequired(question, answer);
        var invalid := CheckChoices(question, answer);
        own := missing + invalid;
      }
      assert own == parts[index];
      FlattenStep(parts, index);
      errors := errors + own;
      index := index + 1;
    }
    assert parts[..index] == parts;
  }

  /** A response is accepted exactly when no question, taken on its own,
      reports an error. */
  lemma AcceptedIffEveryQuestionClean(qs: seq<Question>, answers: AnswerMap)
    ensures ResponseErrors(qs, answers) == [] <==> forall i :: 0 <= i < |qs| ==> QuestionErrors(qs, i, answers) == []
  {
    FlattenEmpty(PerQuestionErrors(qs, answers));
  }

  /** No early exit: the errors of question `i` appear, as one block, right
      after the errors of the questions before it, and the full result
      extends them. */
  lemma QuestionErrorsInPlace(qs: seq<Question>, answers: AnswerMap, i: nat)
    requires i < |qs|
    ensures Flatten(PerQuestionErrors(qs, answers)[..i]) + QuestionErrors(qs, i, answers) <= ResponseErrors(qs, answers)
  {
    FlattenStep(PerQuestionErrors(qs, answers), i);
    FlattenPrefix(PerQuestionErrors(qs, answers), i + 1);
  }

  /** A hidden required question produces no error even when unanswered:
      Q2 (radio, options yes/no, required) is shown only when Q1 equals
      "yes"; Q1 is answered "no" and Q2 is left out. */
  lemma HiddenRequiredQuestionAccepted()
    ensures var q1 := Question(1, Some(RadioType), "Q1", false, Some(["yes", "no"]), [], None);
            var q2 := Question(2, Some(RadioType), "Q2", true, Some(["yes", "no"]),
                               [Condition(Some(1), Some(EqualsOp), Some("yes"))], None);
            ResponseErrors([q1, q2], [Entry("question_0", Scalar("no"))]) == []
  {
    var q1 := Question(1, Some(RadioType), "Q1", false, Some(["yes", "no"]), [], None);
    var q2 := Question(2, Some(RadioType), "Q2", true, Some(["yes", "no"]),
                       [Condition(Some(1), Some(EqualsOp), Some("yes"))], None);
    var answers := [Entry("question_0", Scalar("no"))];
    assert Key(0) == "question_0";
    assert FindQuestion([q1, q2], Some(1)) == Some(0);
    assert !IsVisible(q2, answers, [q1, q2]);
    assert PhpAnswer(answers, Key(0)) == Scalar("no");
    assert QuestionErrors([q1, q2], 0, answers) == [];
    assert QuestionErrors([q1, q2], 1, answers) == [];
    AcceptedIffEveryQuestionClean([q1, q2], answers);
  }

  /** One required text question answered with "" gives exactly one error,
      naming that question. */
  lemma EmptyRequiredTextRejected(title: string)
    ensures var q := Question(1, Some(TextType), title, true, None, [], None);
            ResponseErrors([q], [Entry("question_0", Scalar(""))]) == [RequiredMissing(title)]
  {
    var q := Question(1, Some(TextType), title, true, None, [], None);
    assert Key(0) == "question_0";
    var answers := [Entry("question_0", Scalar(""))];
    assert PhpAnswer(answers, Key(0)) == Scalar("");
    assert QuestionErrors([q], 0, answers) == [RequiredMissing(title)];
    var parts := PerQuestionErrors([q], answers);
    assert parts == [QuestionErrors([q], 0, answers)];
    FlattenStep(parts, 0);
    assert parts[..0] == [] && parts[..1] == parts;
  }

  /** A visible checkbox question with a non-empty selection contributes
      exactly its invalid selections, one error per invalid value in
      selection order, and they appear in the response's errors right after
      those of the earlier questions. */
  lemma CheckboxSelectionsReported(qs: seq<Question>, i: nat, answers: AnswerMap)
    requires i < |qs| && IsType(qs[i], CheckboxType) && IsVisible(qs[i], answers, qs)
    requires PhpAnswer(answers, Key(i)).Multi? && PhpAnswer(answers, Key(i)).items != []
    ensures var items := PhpAnswer(answers, Key(i)).items;
            var r := InvalidSelections(qs[i].title, items, OptionsOf(qs[i]));
            QuestionErrors(qs, i, answers) == r
            && Flatten(PerQuestionErrors(qs, answers)[..i]) + r <= ResponseErrors(qs, answers)
            && |r| == |Filter(items, NotAmong(OptionsOf(qs[i])))|
            && forall k :: 0 <= k < |r| ==> r[k] == InvalidChoice(qs[i].title, Filter(items, NotAmong(OptionsOf(qs[i])))[k])
  {
    var a := PhpAnswer(answers, Key(i));
    InvalidSelectionsExact(qs[i].title, a.items, OptionsOf(qs[i]));
    assert RequiredErrors(qs[i], a) == [];
    assert QuestionErrors(qs, i, answers) == [] + ChoiceErrors(qs[i], a);
    QuestionErrorsInPlace(qs, answers, i);
  }

  /** A checkbox answer ["A", "C"] against options ["A", "B"] gives exactly
      one error, for "C". */
  lemma InvalidCheckboxSelectionReported(title: string)
    ensures var q := Question(1, Some(CheckboxType), title, false, Some(["A", "B"]), [], None);
            ResponseErrors([q], [Entry("question_0", Multi(["A", "C"]))]) == [InvalidChoice(title, "C")]
  {
    var q := Question(1, Some(CheckboxType), title, false, Some(["A", "B"]), [], None);
    var answers := [Entry("question_0", Multi(["A", "C"]))];
    assert Key(0) == "question_0";
    assert ["A", "C"][..1] == ["A"];
    assert InvalidSelections(title, ["A", "C"], ["A", "B"]) == [InvalidChoice(title, "C")];
    assert PhpAnswer(answers, Key(0)) == Multi(["A", "C"]);
    assert QuestionErrors([q], 0, answers) == [InvalidChoice(title, "C")];
    var parts := PerQuestionErrors([q], answers);
    assert parts == [QuestionErrors([q], 0, answers)];
    FlattenStep(parts, 0);
    assert parts[..0] == [] && parts[..1] == parts;
  }

  /** The shape check made before anything else. */
  datatype ResponseRequest = ResponseRequest(surveyId: Option<int>, answers: Option<AnswerMap>)

  datatype RequestError = SurveyIdRequired | AnswersNotArray

  /** validateResponse: a numeric survey id and an answers array (or
      object) must be present. */
  function ValidateResponse(request: ResponseRequest): (errors: seq<RequestError>)
    ensures errors == [] <==> request.surveyId.Some? && request.answers.Some?
    ensures SurveyIdRequired in errors <==> request.surveyId.None?
    ensures AnswersNotArray in errors <==> request.answers.None?
    ensures |errors| <= 2
  {
    (if request.surveyId.None? then [SurveyIdRequired] else [])
    + (if request.answers.None? then [AnswersNotArray] else [])
  }
}
