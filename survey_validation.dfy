/** Structural validation of a survey document (api/config.php,
    validateSurvey), run by the create and update handlers before anything
    is stored. Every rule is checked and every failure is collected; the
    order of the errors follows the order of the questions and, within a
    question, of its conditions. */
module SurveyValidation {
  import opened Options
  import opened Seqs
  import opened Text
  import opened Answers
  import opened Surveys

  /** An authoring document as the create and update handlers receive it.
      A `title` that is missing or null is None; `questions` is None when it
      is missing or not an array; `published` is None when it is not set. */
  datatype SurveyInput = SurveyInput(
    id: Option<int>,
    title: Option<string>,
    questions: Option<seq<Question>>,
    published: Option<bool>)

  /** The messages of the validator. Question and condition numbers are
      1-based, as in the messages; `isLabel` tells which of the two types
      that may not be required was used. */
  datatype SurveyError =
    | TitleRequired
    | QuestionsNotArray
    | NoQuestions
    | QuestionTitleRequired(number: nat)
    | TypeRequired(number: nat)
    | TypeInvalid(number: nat)
    | OptionsRequired(number: nat)
    | RequiredNotAllowed(number: nat, isLabel: bool)
    | ParameterNameRequired(number: nat)
    | TargetRequired(number: nat, condition: nat)
    | OperatorRequired(number: nat, condition: nat)
    | OperatorInvalid(number: nat, condition: nat)
    | ValueRequired(number: nat, condition: nat)

  /** The error concerns the question numbered `n`. */
  predicate AboutQuestion(e: SurveyError, n: nat) {
    !(e.TitleRequired? || e.QuestionsNotArray? || e.NoQuestions?) && e.number == n
  }

  /** PHP's empty() on a string field that may be missing or null. */
  predicate PhpEmptyField(s: Option<string>) {
    s.None? || PhpEmptyString(s.value)
  }

  /** PHP's empty() on the type field: missing, null, "" or "0". A type of
      "" or "0" is also not one of the eight names, so it is reported both
      as missing and as invalid. */
  predicate TypeEmpty(t: Option<QuestionType>) {
    t.None? || t == Some(UnknownType("")) || t == Some(UnknownType("0"))
  }

  /** A condition that the validator accepts, stated rule by rule. */
  predicate ConditionWellFormed(c: Condition) {
    c.target.Some? && c.operator.Some? && !c.operator.value.UnknownOp? && c.value.Some?
  }

  /** Condition rule: the target question id must be set. */
  function TargetCheck(n: nat, c: nat, cond: Condition): seq<SurveyError> {
    if cond.target.None? then [TargetRequired(n, c)] else []
  }

  /** Condition rule: the operator must be set, and be one of the three. */
  function OperatorCheck(n: nat, c: nat, cond: Condition): seq<SurveyError> {
    if cond.operator.None? then [OperatorRequired(n, c)]
    else if cond.operator.value.UnknownOp? then [OperatorInvalid(n, c)]
    else []
  }

  /** Condition rule: the expected value must be set. */
  function ValueCheck(n: nat, c: nat, cond: Condition): seq<SurveyError> {
    if cond.value.None? then [ValueRequired(n, c)] else []
  }

  /** The errors of condition number `c` of question number `n`: a missing
      target, a missing or invalid operator, a missing value. */
  function ConditionErrors(n: nat, c: nat, cond: Condition): (r: seq<SurveyError>)
    ensures r == [] <==> ConditionWellFormed(cond)
    ensures OperatorRequired(n, c) in r <==> cond.operator.None?
    ensures OperatorInvalid(n, c) in r <==> cond.operator.Some? && cond.operator.value.UnknownOp?
    ensures TargetRequired(n, c) in r <==> cond.target.None?
    ensures ValueRequired(n, c) in r <==> cond.value.None?
    ensures forall e :: e in r ==> AboutQuestion(e, n)
  {
    TargetCheck(n, c, cond) + OperatorCheck(n, c, cond) + ValueCheck(n, c, cond)
  }

  /** Question rule: the title must not be PHP-empty. */
  function TitleCheck(n: nat, q: Question): seq<SurveyError> {
    if PhpEmptyString(q.title) then [QuestionTitleRequired(n)] else []
  }

  /** Question rule: the type must not be PHP-empty. */
  function TypeSetCheck(n: nat, q: Question): seq<SurveyError> {
    if TypeEmpty(q.qtype) then [TypeRequired(n)] else []
  }

  /** Question rule: a type that is set must be one of the eight. */
  function TypeKnownCheck(n: nat, q: Question): seq<SurveyError> {
    if q.qtype.Some? && q.qtype.value.UnknownType? then [TypeInvalid(n)] else []
  }

  /** Question rule: a choice question needs a nonempty options array. */
  function OptionsCheck(n: nat, q: Question): seq<SurveyError> {
    if IsChoiceType(q.qtype) && (q.options.None? || q.options.value == []) then [OptionsRequired(n)] else []
  }

  /** Question rule: label and parameter questions cannot be required. */
  function RequiredCheck(n: nat, q: Question): seq<SurveyError> {
    if (IsType(q, LabelType) || IsType(q, ParameterType)) && q.required
    then [RequiredNotAllowed(n, IsType(q, LabelType))] else []
  }

  /** Question rule: a parameter question needs a parameter name that is
      not PHP-empty once trimmed. */
  function ParameterNameCheck(n: nat, q: Question): seq<SurveyError> {
    if IsType(q, ParameterType) && (q.parameterName.None? || PhpEmptyString(PhpTrim(q.parameterName.value)))
    then [ParameterNameRequired(n)] else []
  }

  /** The rules on a question's own fields, in the order they are checked. */
  function FieldErrors(n: nat, q: Question): (r: seq<SurveyError>)
    ensures forall e :: e in r ==> AboutQuestion(e, n)
  {
    TitleCheck(n, q) + TypeSetCheck(n, q) + TypeKnownCheck(n, q)
    + OptionsCheck(n, q) + RequiredCheck(n, q) + ParameterNameCheck(n, q)
  }

  /** The rule of a question's own fields that `e` reports as broken, stated
      constructor by constructor. */
  predicate FieldViolation(n: nat, q: Question, e: SurveyError) {
    match e
    case QuestionTitleRequired(m) => m == n && PhpEmptyString(q.title)
    case TypeRequired(m) => m == n && TypeEmpty(q.qtype)
    case TypeInvalid(m) => m == n && q.qtype.Some? && q.qtype.value.UnknownType?
    case OptionsRequired(m) => m == n && IsChoiceType(q.qtype) && (q.options.None? || q.options.value == [])
    case RequiredNotAllowed(m, isLabel) =>
      m == n && (IsType(q, LabelType) || IsType(q, ParameterType)) && q.required && isLabel == IsType(q, LabelType)
    case ParameterNameRequired(m) =>
      m == n && IsType(q, ParameterType) && (q.parameterName.None? || PhpEmptyString(PhpTrim(q.parameterName.value)))
    case _ => false
  }

  /** A field error is reported exactly when its rule is broken. */
  lemma FieldErrorsExact(n: nat, q: Question, e: SurveyError)
    ensures e in FieldErrors(n, q) <==> FieldViolation(n, q, e)
  {
  }

  /** The errors of each condition of question number `n`, by position. */
  function PerConditionErrors(n: nat, cs: seq<Condition>): (r: seq<seq<SurveyError>>)
    ensures |r| == |cs|
    ensures forall k :: 0 <= k < |cs| ==> r[k] == ConditionErrors(n, k + 1, cs[k])
  {
    seq(|cs|, k requires 0 <= k < |cs| => ConditionErrors(n, k + 1, cs[k]))
  }

  /** Everything reported about question number `n`: its fields, then its
      conditions in order. */
  function QuestionErrors(n: nat, q: Question): seq<SurveyError> {
    FieldErrors(n, q) + Flatten(PerConditionErrors(n, q.conditions))
  }

  /** The errors of each question, by position. */
  function PerQuestionErrors(qs: seq<Question>): (r: seq<seq<SurveyError>>)
    ensures |r| == |qs|
    ensures forall i :: 0 <= i < |qs| ==> r[i] == QuestionErrors(i + 1, qs[i])
  {
    seq(|qs|, i requires 0 <= i < |qs| => QuestionErrors(i + 1, qs[i]))
  }

  /** The document-level errors: the title, then the question list. */
  function DocumentErrors(input: SurveyInput): seq<SurveyError> {
    (if PhpEmptyField(input.title) then [TitleRequired] else [])
    + (if input.questions.None? then [QuestionsNotArray]
       else if input.questions.value == [] then [NoQuestions]
       else [])
  }

  /** Every error of a document, in the order they are reported. */
  function SurveyErrors(input: SurveyInput): (r: seq<SurveyError>)
    ensures DocumentErrors(input) <= r
    ensures input.questions.None? || input.questions.value == [] ==> r == DocumentErrors(input)
  {
    DocumentErrors(input)
    + (match input.questions
       case None => []
       case Some(qs) => Flatten(PerQuestionErrors(qs)))
  }

  /** The body of the condition loop for condition number `c` of question
      number `n`. */
  method CheckCondition(n: nat, c: nat, condition: Condition) returns (own: seq<SurveyError>)
    ensures own == ConditionErrors(n, c, condition)
  {
    own := [];
    if condition.target.None? {
      own := own + [TargetRequired(n, c)];
    }
    assert own == TargetCheck(n, c, condition);
    if condition.operator.None? {
      own := own + [OperatorRequired(n, c)];
    } else if condition.operator.value.UnknownOp? {
      own := own + [OperatorInvalid(n, c)];
    }
    assert own == TargetCheck(n, c, condition) + OperatorCheck(n, c, condition);
    ghost var soFar := own;
    if condition.value.None? {
      own := own + [ValueRequired(n, c)];
    }
    assert own == soFar + ValueCheck(n, c, condition);
  }

  /** The field rules of question number `n`, checked one after the other. */
  method CheckFields(n: nat, question: Question) returns (found: seq<SurveyError>)
    ensures found == FieldErrors(n, question)
  {
    found := [];
    if PhpEmptyString(question.title) {
      found := found + [QuestionTitleRequired(n)];
    }
    assert found == TitleCheck(n, question);
    if TypeEmpty(question.qtype) {
      found := found + [TypeRequired(n)];
    }
    assert found == TitleCheck(n, question) + TypeSetCheck(n, question);
    ghost var soFar := found;
    if question.qtype.Some? && question.qtype.value.UnknownType? {
      found := found + [TypeInvalid(n)];
    }
    assert found == soFar + TypeKnownCheck(n, question);
    soFar := found;
    if IsChoiceType(question.qtype) {
      if question.options.None? || question.options.value == [] {
        found := found + [OptionsRequired(n)];
      }
    }
    assert found == soFar + OptionsCheck(n, question);
    soFar := found;
    if (IsType(question, LabelType) || IsType(question, ParameterType)) && question.required {
      found := found + [RequiredNotAllowed(n, IsType(question, LabelType))];
    }
    assert found == soFar + RequiredCheck(n, question);
    soFar := found;
    if IsType(question, ParameterType) {
      if question.parameterName.None? || PhpEmptyString(PhpTrim(question.parameterName.value)) {
        found := found + [ParameterNameRequired(n)];
      }
    }
    assert found == soFar + ParameterNameCheck(n, question);
  }

  /** The body of the question loop for question number `n`: its field
      rules, then a pass over its conditions. */
  method CheckQuestion(n: nat, question: Question) returns (found: seq<SurveyError>)
    ensures found == QuestionErrors(n, question)
  {
    found := CheckFields(n, question);
    var cs := question.conditions;
    ghost var condParts := PerConditionErrors(n, cs);
    var conditionErrors := [];
    var condIndex := 0;
    while condIndex < |cs|
      invariant 0 <= condIndex <= |cs|
      invariant conditionErrors == Flatten(condParts[..condIndex])
    {
      var own := CheckCondition(n, condIndex + 1, cs[condIndex]);
      FlattenStep(condParts, condIndex);
      conditionErrors := conditionErrors + own;
      condIndex := condIndex + 1;
    }
    assert condParts[..condIndex] == condParts;
    found := found + conditionErrors;
  }

  /** validateSurvey: the document-level checks, then one pass over the
      questions, each with an inner pass over its conditions. */
  method ValidateSurvey(input: SurveyInput) returns (errors: seq<SurveyError>)
    ensures errors == SurveyErrors(input)
  {
    errors := [];
    if PhpEmptyField(input.title) {
      errors := errors + [TitleRequired];
    }
    if input.questions.None? {
      errors := errors + [QuestionsNotArray];
    } else if input.questions.value == [] {
      errors := errors + [NoQuestions];
    }
    assert errors == DocumentErrors(input);
    if input.questions.Some? {
      var qs := input.questions.value;
      ghost var parts := PerQuestionErrors(qs);
      var questionErrors := [];
      var index := 0;
      while index < |qs|
        invariant 0 <= index <= |qs|
        invariant questionErrors == Flatten(parts[..index])
      {
        var found := CheckQuestion(index + 1, qs[index]);
        FlattenStep(parts, index);
        questionErrors := questionErrors + found;
        index := index + 1;
      }
      assert parts[..index] == parts;
      errors := errors + questionErrors;
    }
  }

  /** A question that the validator accepts, stated rule by rule. */
  predicate QuestionWellFormed(q: Question) {
    && !PhpEmptyString(q.title)
    && q.qtype.Some? && !q.qtype.value.UnknownType?
    && (IsChoiceType(q.qtype) ==> q.options.Some? && q.options.value != [])
    && (IsType(q, LabelType) || IsType(q, ParameterType) ==> !q.required)
    && (IsType(q, ParameterType) ==> q.parameterName.Some? && !PhpEmptyString(PhpTrim(q.parameterName.value)))
    && forall k :: 0 <= k < |q.conditions| ==> ConditionWellFormed(q.conditions[k])
  }

  /** A document that the validator accepts, stated rule by rule. */
  predicate SurveyWellFormed(input: SurveyInput) {
    && !PhpEmptyField(input.title)
    && input.questions.Some? && input.questions.value != []
    && forall i :: 0 <= i < |input.questions.value| ==> QuestionWellFormed(input.questions.value[i])
  }

  /** A question contributes no error exactly when it is well formed. */
  lemma QuestionCleanIffWellFormed(n: nat, q: Question)
    ensures QuestionErrors(n, q) == [] <==> QuestionWellFormed(q)
  {
    var parts := PerConditionErrors(n, q.conditions);
    FlattenEmpty(parts);
    var fields := FieldErrors(n, q);
    if fields == [] {
      assert q.qtype.Some? && !q.qtype.value.UnknownType?;
      assert !(IsChoiceType(q.qtype) && (q.options.None? || q.options.value == []));
    }
    if QuestionWellFormed(q) {
      assert !TypeEmpty(q.qtype);
    }
  }

  /** The document-level checks pass exactly when the title is set and the
      question list is a nonempty array. */
  lemma DocumentErrorsEmpty(input: SurveyInput)
    ensures DocumentErrors(input) == [] <==>
      !PhpEmptyField(input.title) && input.questions.Some? && input.questions.value != []
  {
    var titlePart := if PhpEmptyField(input.title) then [TitleRequired] else [];
    var listPart := if input.questions.None? then [QuestionsNotArray]
                    else if input.questions.value == [] then [NoQuestions] else [];
    assert DocumentErrors(input) == titlePart + listPart;
    assert |DocumentErrors(input)| == |titlePart| + |listPart|;
  }

  /** Position by position, a question contributes nothing exactly when it
      is well formed. */
  lemma EachQuestionCleanIffWellFormed(qs: seq<Question>)
    ensures forall i :: 0 <= i < |qs| ==> (PerQuestionErrors(qs)[i] == [] <==> QuestionWellFormed(qs[i]))
  {
    forall i | 0 <= i < |qs|
      ensures PerQuestionErrors(qs)[i] == [] <==> QuestionWellFormed(qs[i])
    {
      QuestionCleanIffWellFormed(i + 1, qs[i]);
    }
  }

  /** The question part of the report is empty exactly when every question
      is well formed. */
  lemma QuestionsCleanIffWellFormed(qs: seq<Question>)
    ensures Flatten(PerQuestionErrors(qs)) == [] <==> forall i :: 0 <= i < |qs| ==> QuestionWellFormed(qs[i])
  {
    FlattenEmpty(PerQuestionErrors(qs));
    EachQuestionCleanIffWellFormed(qs);
  }

  /** The validator reports nothing exactly when the document is well
      formed: the error list is empty iff the survey is valid. */
  lemma ValidIffWellFormed(input: SurveyInput)
    ensures SurveyErrors(input) == [] <==> SurveyWellFormed(input)
  {
    DocumentErrorsEmpty(input);
    if input.questions.Some? {
      var qs := input.questions.value;
      var rest := Flatten(PerQuestionErrors(qs));
      assert SurveyErrors(input) == DocumentErrors(input) + rest;
      assert |SurveyErrors(input)| == |DocumentErrors(input)| + |rest|;
      QuestionsCleanIffWellFormed(qs);
    }
  }

  /** Everything reported about question number `n` carries that number. */
  lemma QuestionErrorsAbout(n: nat, q: Question, e: SurveyError)
    requires e in QuestionErrors(n, q)
    ensures AboutQuestion(e, n)
  {
    var condParts := PerConditionErrors(n, q.conditions);
    if e !in FieldErrors(n, q) {
      assert e in Flatten(condParts);
      FlattenMembership(condParts, e);
      var k :| 0 <= k < |condParts| && e in condParts[k];
      assert e in ConditionErrors(n, k + 1, q.conditions[k]);
    }
  }

  /** Every error after the document-level ones names a question of the
      list by its 1-based number. */
  lemma QuestionErrorsNumbered(qs: seq<Question>, e: SurveyError)
    requires e in Flatten(PerQuestionErrors(qs))
    ensures !(e.TitleRequired? || e.QuestionsNotArray? || e.NoQuestions?) && 1 <= e.number <= |qs|
  {
    var parts := PerQuestionErrors(qs);
    FlattenMembership(parts, e);
    var i :| 0 <= i < |qs| && e in parts[i];
    QuestionErrorsAbout(i + 1, qs[i], e);
  }

  /** The title error is reported exactly when the title is PHP-empty
      (missing, null, "" or "0"). */
  lemma TitleErrorIffEmpty(input: SurveyInput)
    ensures TitleRequired in SurveyErrors(input) <==> PhpEmptyField(input.title)
  {
    if input.questions.Some? && TitleRequired in Flatten(PerQuestionErrors(input.questions.value)) {
      QuestionErrorsNumbered(input.questions.value, TitleRequired);
    }
  }

  /** At most one of the two list errors: "not an array" for a missing or
      non-array list, "at least one question" for an empty one, and neither
      for a nonempty list. */
  lemma ListErrorsExclusive(input: SurveyInput)
    ensures QuestionsNotArray in SurveyErrors(input) <==> input.questions.None?
    ensures NoQuestions in SurveyErrors(input) <==> input.questions == Some([])
    ensures !(QuestionsNotArray in SurveyErrors(input) && NoQuestions in SurveyErrors(input))
  {
    if input.questions.Some? {
      var qs := input.questions.value;
      if QuestionsNotArray in Flatten(PerQuestionErrors(qs)) {
        QuestionErrorsNumbered(qs, QuestionsNotArray);
      }
      if NoQuestions in Flatten(PerQuestionErrors(qs)) {
        QuestionErrorsNumbered(qs, NoQuestions);
      }
    }
  }

  /** A type of "" is PHP-empty and is also none of the eight names, so it
      is reported both as missing and as invalid. */
  lemma EmptyTypeReportedTwice(n: nat, title: string)
    ensures var q := Question(1, Some(UnknownType("")), title, false, None, [], None);
            TypeRequired(n) in QuestionErrors(n, q) && TypeInvalid(n) in QuestionErrors(n, q)
  {
  }

  /** A parameter question without a parameter name gives exactly one
      error, for the parameter name; marking the same question required
      adds the error that forbids required on the parameter type, reported
      first. */
  lemma ParameterQuestionErrors()
    ensures var q := Question(1, Some(ParameterType), "P", false, None, [], None);
            SurveyErrors(SurveyInput(None, Some("S"), Some([q]), None)) == [ParameterNameRequired(1)]
    ensures var q := Question(1, Some(ParameterType), "P", true, None, [], None);
            SurveyErrors(SurveyInput(None, Some("S"), Some([q]), None))
              == [RequiredNotAllowed(1, false), ParameterNameRequired(1)]
  {
    var q1 := Question(1, Some(ParameterType), "P", false, None, [], None);
    var q2 := Question(1, Some(ParameterType), "P", true, None, [], None);
    assert PerConditionErrors(1, []) == [];
    assert QuestionErrors(1, q1) == [ParameterNameRequired(1)];
    assert QuestionErrors(1, q2) == [RequiredNotAllowed(1, false), ParameterNameRequired(1)];
    var p1 := PerQuestionErrors([q1]);
    var p2 := PerQuestionErrors([q2]);
    FlattenStep(p1, 0);
    FlattenStep(p2, 0);
    assert p1[..0] == [] && p1[..1] == p1;
    assert p2[..0] == [] && p2[..1] == p2;
  }
}
