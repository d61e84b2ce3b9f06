/** Conditional visibility (api/responses.php, evaluateQuestionConditions and
    evaluateCondition). A question is shown when every one of its conditions
    holds. A condition finds its target question by id, then reads that
    question's answer under the POSITIONAL key `question_<index>`; a target
    id that matches no question makes the condition false, so the dependent
    question is hidden. */
module Conditions {
  import opened Options
  import opened Text
  import opened Answers
  import opened Surveys

  /** Position of the first question at or after `k` whose id is `id`. */
  function FindFrom(qs: seq<Question>, id: int, k: nat): (r: Option<nat>)
    requires k <= |qs|
    ensures r.Some? ==> k <= r.value < |qs| && qs[r.value].id == id
                        && forall j :: k <= j < r.value ==> qs[j].id != id
    ensures r.None? ==> forall j :: k <= j < |qs| ==> qs[j].id != id
    decreases |qs| - k
  {
    if k == |qs| then None
    else if qs[k].id == id then Some(k)
    else FindFrom(qs, id, k + 1)
  }

  /** The index of the first question whose id is the condition's target,
      or None when the target is missing or matches no question. */
  function FindQuestion(qs: seq<Question>, target: Option<int>): (r: Option<nat>)
    ensures r.Some? ==> target.Some? && r.value < |qs| && qs[r.value].id == target.value
                        && forall j :: 0 <= j < r.value ==> qs[j].id != target.value
    ensures r.None? <==> target.None? || forall j :: 0 <= j < |qs| ==> qs[j].id != target.value
  {
    if target.None? then None else FindFrom(qs, target.value, 0)
  }

  /** PHP's in_array($expected, $items) over strings. A null expected
      value loosely equals a string only when the string is "" (null is
      compared as ""; "0" is then compared to "" as a string). */
  function InArray(expected: Option<string>, items: seq<string>): (found: bool)
    ensures found <==> exists k :: 0 <= k < |items| && items[k] == expected.GetOr("")
  {
    match expected
    case Some(e) => e in items
    case None => "" in items
  }

  /** The test behind `equals`: membership for an array answer, strict
      equality (`===`) otherwise; a missing answer is null. */
  function EqualsTest(actual: Answer, expected: Option<string>): (equal: bool)
    ensures expected.None? ==> (equal <==> actual.Absent? || (actual.Multi? && "" in actual.items))
    ensures expected.Some? ==> (equal <==> actual == Scalar(expected.value)
                                           || (actual.Multi? && expected.value in actual.items))
  {
    match actual
    case Multi(items) => InArray(expected, items)
    case Absent => expected.None?
    case Scalar(s) => expected == Some(s)
  }

  /** The test behind `contains`: some array element contains the expected
      string, or a truthy scalar does. A null expected value acts as "". */
  function ContainsTest(actual: Answer, expected: Option<string>): (found: bool)
    ensures found ==> !PhpEmpty(actual)
    ensures expected.None? && actual.Scalar? ==> (found <==> !PhpEmptyString(actual.text))
    ensures expected.None? && actual.Multi? ==> (found <==> actual.items != [])
  {
    var needle := expected.GetOr("");
    match actual
    case Multi(items) =>
      assert expected.None? && items != [] ==> Contains(items[0], needle);
      exists i :: 0 <= i < |items| && Contains(items[i], needle)
    case Absent => false
    case Scalar(s) => !PhpEmptyString(s) && Contains(s, needle)
  }

  /** The `switch ($operator)` of evaluateCondition. */
  function OperatorHolds(operator: Option<Operator>, actual: Answer, expected: Option<string>): (holds: bool)
    ensures holds ==> operator.Some? && !operator.value.UnknownOp?
    ensures holds && operator == Some(ContainsOp) ==> !PhpEmpty(actual)
    ensures operator == Some(NotEqualsOp) && actual.Absent? ==> (holds <==> expected.Some?)
  {
    if operator == Some(EqualsOp) then EqualsTest(actual, expected)
    else if operator == Some(ContainsOp) then ContainsTest(actual, expected)
    else if operator == Some(NotEqualsOp) then !EqualsTest(actual, expected)
    else false
  }

  /** Whether one condition holds for `answers`, given the full question
      list that its target is looked up in. */
  function EvaluateCondition(c: Condition, answers: AnswerMap, qs: seq<Question>): (holds: bool)
    ensures FindQuestion(qs, c.target).None? ==> !holds
    ensures holds ==> c.operator.Some? && !c.operator.value.UnknownOp?
    ensures FindQuestion(qs, c.target).Some? ==>
      holds == OperatorHolds(c.operator, PhpAnswer(answers, Key(FindQuestion(qs, c.target).value)), c.value)
  {
    match FindQuestion(qs, c.target)
    case None => false
    case Some(i) => OperatorHolds(c.operator, PhpAnswer(answers, Key(i)), c.value)
  }

  /** The early-exit loop of evaluateQuestionConditions: false at the first
      condition that fails. */
  function AllConditionsHold(cs: seq<Condition>, answers: AnswerMap, qs: seq<Question>): (r: bool)
    ensures r <==> forall i :: 0 <= i < |cs| ==> EvaluateCondition(cs[i], answers, qs)
    decreases |cs|
  {
    if cs == [] then true
    else if !EvaluateCondition(cs[0], answers, qs) then false
    else AllConditionsHold(cs[1..], answers, qs)
  }

  /** Whether question `q` is shown: the conjunction of its conditions, and
      true when it has none. */
  function IsVisible(q: Question, answers: AnswerMap, qs: seq<Question>): (visible: bool)
    ensures q.conditions == [] ==> visible
    ensures visible <==> forall i :: 0 <= i < |q.conditions| ==> EvaluateCondition(q.conditions[i], answers, qs)
  {
    if q.conditions == [] then true else AllConditionsHold(q.conditions, answers, qs)
  }

  /** A condition whose target id matches no question hides its question,
      whatever the answers and the other conditions. */
  lemma UnresolvedTargetHides(q: Question, k: nat, answers: AnswerMap, qs: seq<Question>)
    requires k < |q.conditions|
    requires forall j :: 0 <= j < |qs| ==> Some(qs[j].id) != q.conditions[k].target
    ensures !IsVisible(q, answers, qs)
  {
    assert !EvaluateCondition(q.conditions[k], answers, qs);
  }

  /** `not_equals` is the exact negation of `equals` for every answer shape,
      including a missing answer, once the target resolves. */
  lemma NotEqualsNegatesEquals(target: Option<int>, expected: Option<string>, answers: AnswerMap, qs: seq<Question>)
    requires FindQuestion(qs, target).Some?
    ensures EvaluateCondition(Condition(target, Some(NotEqualsOp), expected), answers, qs)
            == !EvaluateCondition(Condition(target, Some(EqualsOp), expected), answers, qs)
  {
  }

  /** A missing answer never `equals` a string value, so `not_equals` holds
      for it. */
  lemma MissingAnswerNeverEquals(expected: string)
    ensures !EqualsTest(Absent, Some(expected))
    ensures OperatorHolds(Some(NotEqualsOp), Absent, Some(expected))
  {
  }

  /** A condition whose value is null: `equals` holds for a missing or null
      answer and for an array holding "", and for nothing else; in
      particular not for an array holding "0". */
  lemma NullValueEqualsOnlyEmpty(items: seq<string>, s: string)
    ensures OperatorHolds(Some(EqualsOp), Multi(items), None) <==> "" in items
    ensures !OperatorHolds(Some(EqualsOp), Multi(["0"]), None)
    ensures !OperatorHolds(Some(EqualsOp), Scalar(s), None)
    ensures OperatorHolds(Some(EqualsOp), Absent, None)
  {
  }

  /** `contains` on an array answer holds iff some element contains the
      expected string. */
  lemma ContainsOnArray(items: seq<string>, expected: string)
    ensures OperatorHolds(Some(ContainsOp), Multi(items), Some(expected))
            <==> exists i :: 0 <= i < |items| && Contains(items[i], expected)
  {
  }

  /** `contains` on a falsy scalar answer (null, "" or "0") is false, even
      for the needle "0". */
  lemma ContainsOnFalsyScalar(actual: Answer, expected: string)
    requires actual.Absent? || actual == Scalar("") || actual == Scalar("0")
    ensures !OperatorHolds(Some(ContainsOp), actual, Some(expected))
  {
  }

  /** An operator other than the three known ones never holds. */
  lemma UnknownOperatorNeverHolds(c: Condition, answers: AnswerMap, qs: seq<Question>)
    requires c.operator.None? || c.operator.value.UnknownOp?
    ensures !EvaluateCondition(c, answers, qs)
  {
  }

  /** The answer read is the one stored under the position of the FIRST
      question carrying the target id, even when a later question repeats
      that id. */
  lemma FirstMatchIsRead(c: Condition, answers: AnswerMap, qs: seq<Question>, i: nat)
    requires i < |qs| && c.target == Some(qs[i].id)
    requires forall j :: 0 <= j < i ==> qs[j].id != qs[i].id
    ensures EvaluateCondition(c, answers, qs) == OperatorHolds(c.operator, PhpAnswer(answers, Key(i)), c.value)
  {
  }

  /** Answers are keyed by position, so reordering the questions changes
      what a stored answer set means: with question 2 shown only when
      question 1 is answered "yes", swapping the two questions hides
      question 2 for the very same stored answers. */
  lemma ReorderReinterpretsAnswers()
    ensures var q1 := Question(1, Some(RadioType), "Q1", false, Some(["yes", "no"]), [], None);
            var q2 := Question(2, Some(TextType), "Q2", true, None,
                               [Condition(Some(1), Some(EqualsOp), Some("yes"))], None);
            var answers := [Entry("question_0", Scalar("yes"))];
            IsVisible(q2, answers, [q1, q2]) && !IsVisible(q2, answers, [q2, q1])
  {
    var q1 := Question(1, Some(RadioType), "Q1", false, Some(["yes", "no"]), [], None);
    var q2 := Question(2, Some(TextType), "Q2", true, None,
                       [Condition(Some(1), Some(EqualsOp), Some("yes"))], None);
    var answers := [Entry("question_0", Scalar("yes"))];
    assert Key(0) == "question_0";
    assert Key(1) == "question_1";
    assert FindQuestion([q1, q2], Some(1)) == Some(0);
    assert FindFrom([q2, q1], 1, 1) == Some(1);
    assert FindQuestion([q2, q1], Some(1)) == Some(1);
    assert PhpAnswer(answers, Key(1)) == Absent;
    assert !EvaluateCondition(q2.conditions[0], answers, [q2, q1]);
  }
}
