/** The survey document as the server stores it and the builder edits it.
    Fields that an authoring request may omit or send as null are Options;
    `required` is false and `conditions` is empty when omitted (PHP's isset
    and foreach treat a missing or non-array value that way). */
module Surveys {
  import opened Options
  import opened Answers

  /** A question's `type` field. The eight names the structural validator
      accepts each have a constructor; any other string is kept as
      `UnknownType`. Values are built by `ParseType`, so an `UnknownType`
      never carries one of the eight names. */
  datatype QuestionType =
    | TextType | EmailType | TextareaType | RadioType | CheckboxType | SelectType
    | LabelType | ParameterType
    | UnknownType(name: string)

  /** A condition's `operator` field, kept the same way. */
  datatype Operator = EqualsOp | ContainsOp | NotEqualsOp | UnknownOp(name: string)

  /** One visibility rule: the question it depends on, an operator and the
      expected value. */
  datatype Condition = Condition(target: Option<int>, operator: Option<Operator>, value: Option<string>)

  datatype Question = Question(
    id: int,
    qtype: Option<QuestionType>,
    title: string,
    required: bool,
    options: Option<seq<string>>,
    conditions: seq<Condition>,
    parameterName: Option<string>)

  /** A stored survey record. */
  datatype Survey = Survey(
    id: int,
    title: string,
    questions: seq<Question>,
    published: bool,
    publicUrl: Option<string>,
    createdAt: string,
    updatedAt: string)

  /** A stored response record. */
  datatype ResponseRecord = ResponseRecord(
    id: int,
    surveyId: int,
    surveyTitle: string,
    answers: AnswerMap,
    submittedAt: string,
    ipAddress: string)

  /** The eight question types the structural validator accepts, as they
      are spelled in a survey document. */
  const ValidTypes: seq<string> :=
    ["text", "email", "textarea", "radio", "checkbox", "select", "label", "parameter"]

  /** The operators the structural validator accepts. */
  const ValidOperators: seq<string> := ["equals", "contains", "not_equals"]

  /** The spelling of a type in a survey document. */
  function TypeName(t: QuestionType): (s: string)
    ensures !t.UnknownType? ==> s in ValidTypes
    ensures t.UnknownType? ==> s == t.name
  {
    match t
    case TextType => "text"
    case EmailType => "email"
    case TextareaType => "textarea"
    case RadioType => "radio"
    case CheckboxType => "checkbox"
    case SelectType => "select"
    case LabelType => "label"
    case ParameterType => "parameter"
    case UnknownType(name) => name
  }

  /** Reads a `type` string. */
  function ParseType(s: string): (t: QuestionType)
    ensures t.UnknownType? <==> s !in ValidTypes
    ensures TypeName(t) == s
  {
    if s == "text" then TextType
    else if s == "email" then EmailType
    else if s == "textarea" then TextareaType
    else if s == "radio" then RadioType
    else if s == "checkbox" then CheckboxType
    else if s == "select" then SelectType
    else if s == "label" then LabelType
    else if s == "parameter" then ParameterType
    else UnknownType(s)
  }

  /** A type value that `ParseType` can produce. */
  predicate CanonicalType(t: QuestionType) {
    t.UnknownType? ==> t.name !in ValidTypes
  }

  /** Reading the spelling of a canonical type gives the type back. */
  lemma ParseTypeName(t: QuestionType)
    requires CanonicalType(t)
    ensures ParseType(TypeName(t)) == t
  {
  }

  /** The spelling of an operator in a survey document. */
  function OperatorName(op: Operator): (s: string)
    ensures !op.UnknownOp? ==> s in ValidOperators
    ensures op.UnknownOp? ==> s == op.name
  {
    match op
    case EqualsOp => "equals"
    case ContainsOp => "contains"
    case NotEqualsOp => "not_equals"
    case UnknownOp(name) => name
  }

  /** Reads an `operator` string. */
  function ParseOperator(s: string): (op: Operator)
    ensures op.UnknownOp? <==> s !in ValidOperators
    ensures OperatorName(op) == s
  {
    if s == "equals" then EqualsOp
    else if s == "contains" then ContainsOp
    else if s == "not_equals" then NotEqualsOp
    else UnknownOp(s)
  }

  /** Reading the spelling of a canonical operator gives it back. */
  lemma ParseOperatorName(op: Operator)
    requires op.UnknownOp? ==> op.name !in ValidOperators
    ensures ParseOperator(OperatorName(op)) == op
  {
  }

  /** Single-select, multi-select and dropdown: the types whose answers must
      be among the declared options. */
  predicate IsChoiceType(t: Option<QuestionType>) {
    t == Some(RadioType) || t == Some(CheckboxType) || t == Some(SelectType)
  }

  predicate IsType(q: Question, t: QuestionType) {
    q.qtype == Some(t)
  }

  /** The declared options as the response validator reads them. */
  function OptionsOf(q: Question): seq<string> {
    q.options.GetOr([])
  }
}
