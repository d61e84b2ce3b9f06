/** The survey builder page (js/script.js). Behind its drag-and-drop and
    dialogs, the page keeps four variables: the list of questions being
    edited, whether the loaded survey already has responses, the last
    survey the server returned, and the position of the question open in
    the edit dialog. Every structural edit of the list is refused while
    the survey has responses; the title of a question stays editable. */
module Builder {
  import opened Options
  import opened Text
  import opened Answers
  import opened Seqs
  import opened Surveys
  import V = SurveyValidation
  import Api

  /** The default title of a new question of type `t`; a type the table
      does not know gets the generic title. */
  function DefaultTitle(t: QuestionType): (title: string)
    ensures !PhpEmptyString(title)
    ensures t.UnknownType? ==> title == "質問"
  {
    match t
    case TextType => "一行テキストの質問"
    case EmailType => "メールアドレスの質問"
    case TextareaType => "複数行テキストの質問"
    case RadioType => "ラジオボタンの質問"
    case CheckboxType => "チェックボックスの質問"
    case SelectType => "ドロップダウンの質問"
    case LabelType => "ラベル・説明文"
    case ParameterType => "パラメータ質問"
    case UnknownType(_) => "質問"
  }

  /** The two placeholder options of a new choice question. */
  const DefaultOptions: seq<string> := ["選択肢1", "選択肢2"]

  /** The question created when a palette item of type `typeName` is
      dropped: not required, without conditions, with two placeholder
      options when it is a choice question, and with an empty parameter
      name only when it is a parameter question. */
  function NewQuestion(typeName: string, id: int): (q: Question)
    ensures q.id == id && q.qtype == Some(ParseType(typeName))
    ensures !q.required && q.conditions == []
    ensures q.options.Some? && (q.options.value != [] <==> typeName in ["radio", "checkbox", "select"])
    ensures q.parameterName.Some? <==> typeName == "parameter"
  {
    var t := ParseType(typeName);
    Question(id, Some(t), DefaultTitle(t), false,
             Some(if IsChoiceType(Some(t)) then DefaultOptions else []),
             [], if t == ParameterType then Some("") else None)
  }

  /** The server accepts a freshly created question of any of the eight
      types, except that a parameter question still lacks its parameter
      name. */
  lemma NewQuestionServerErrors(typeName: string, id: int, n: nat)
    requires typeName in ValidTypes
    ensures V.QuestionErrors(n, NewQuestion(typeName, id))
            == if typeName == "parameter" then [V.ParameterNameRequired(n)] else []
  {
    var q := NewQuestion(typeName, id);
    assert V.PerConditionErrors(n, q.conditions) == [];
    assert PhpTrim("") == "";
  }

  /** Labels are not numbered. */
  predicate IsNumbered(q: Question) {
    q.qtype != Some(LabelType)
  }

  /** The number shown before the question at position `i`: one more than
      the number of non-label questions before it, and none for a label. */
  function QuestionNumber(qs: seq<Question>, i: nat): (n: Option<nat>)
    requires i < |qs|
    ensures n.None? <==> qs[i].qtype == Some(LabelType)
    ensures n.Some? ==> 1 <= n.value <= i + 1
  {
    if IsNumbered(qs[i]) then Some(Count(qs[..i], IsNumbered) + 1) else None
  }

  /** Splits the count before `j` at position `i`. */
  lemma CountSplit(qs: seq<Question>, i: nat, j: nat)
    requires i <= j <= |qs|
    ensures Count(qs[..j], IsNumbered) == Count(qs[..i], IsNumbered) + Count(qs[i..j], IsNumbered)
  {
    assert qs[..j] == qs[..i] + qs[i..j];
    CountAppend(qs[..i], qs[i..j], IsNumbered);
  }

  /** Numbers strictly increase down the list. */
  lemma NumbersIncrease(qs: seq<Question>, i: nat, j: nat)
    requires i < j < |qs| && IsNumbered(qs[i]) && IsNumbered(qs[j])
    ensures QuestionNumber(qs, i).value < QuestionNumber(qs, j).value
  {
    CountSplit(qs, i, j);
    assert qs[i..j] == [qs[i]] + qs[i + 1..j];
  }

  /** The next numbered question after a numbered one, with only labels in
      between, gets the next number: the numbering has no gaps. */
  lemma NumbersConsecutive(qs: seq<Question>, i: nat, j: nat)
    requires i < j < |qs| && IsNumbered(qs[i]) && IsNumbered(qs[j])
    requires forall k :: i < k < j ==> !IsNumbered(qs[k])
    ensures QuestionNumber(qs, j).value == QuestionNumber(qs, i).value + 1
  {
    CountSplit(qs, i, j);
    assert qs[i..j] == [qs[i]] + qs[i + 1..j];
    FilterKeepsNone(qs[i + 1..j]);
  }

  /** The first numbered question is number 1, whatever labels precede
      it. */
  lemma FirstNumberIsOne(qs: seq<Question>, j: nat)
    requires j < |qs| && IsNumbered(qs[j])
    requires forall k :: 0 <= k < j ==> !IsNumbered(qs[k])
    ensures QuestionNumber(qs, j) == Some(1)
  {
    FilterKeepsNone(qs[..j]);
  }

  /** No question is numbered higher than the number of non-label
      questions. */
  lemma NumberAtMostCount(qs: seq<Question>, i: nat)
    requires i < |qs| && IsNumbered(qs[i])
    ensures QuestionNumber(qs, i).value <= Count(qs, IsNumbered)
  {
    CountSplit(qs, i, |qs|);
    assert qs[..|qs|] == qs;
    assert qs[i..|qs|] == [qs[i]] + qs[i + 1..];
  }

  /** A run of labels counts nothing. */
  lemma {:induction false} FilterKeepsNone(s: seq<Question>)
    requires forall k :: 0 <= k < |s| ==> !IsNumbered(s[k])
    ensures Count(s, IsNumbered) == 0
    decreases |s|
  {
    if s != [] {
      FilterKeepsNone(s[1..]);
    }
  }

  function QuestionHasId(id: int): Question -> bool {
    (q: Question) => q.id == id
  }

  function NotQuestionId(id: int): Question -> bool {
    (q: Question) => q.id != id
  }

  /** The deletion removes every question carrying the id, and keeps every
      other one. */
  lemma DeleteRemovesEveryCopy(qs: seq<Question>, id: int)
    ensures forall q :: q in Filter(qs, NotQuestionId(id)) <==> q in qs && q.id != id
    ensures Filter(qs, NotQuestionId(id)) == qs <==> forall k :: 0 <= k < |qs| ==> qs[k].id != id
  {
    forall q ensures q in Filter(qs, NotQuestionId(id)) <==> q in qs && q.id != id {
      FilterMembership(qs, NotQuestionId(id), q);
    }
    FilterKeepsAll(qs, NotQuestionId(id));
  }

  datatype Direction = Up | Down

  /** The list after the move-up or move-down button of question `id`:
      it trades places with its neighbour, unless it is already at that end
      of the list or no question has the id. */
  function Moved(qs: seq<Question>, id: int, dir: Direction): (r: seq<Question>)
    ensures |r| == |qs| && multiset(r) == multiset(qs)
    ensures FindFirst(qs, QuestionHasId(id)).None? ==> r == qs
  {
    match MovePair(qs, id, dir)
    case None => qs
    case Some((i, j)) => Swap(qs, i, j)
  }

  /** The two positions the move buttons exchange: the question with the
      id and its neighbour in the direction of the move. */
  function MovePair(qs: seq<Question>, id: int, dir: Direction): (p: Option<(nat, nat)>)
    ensures p.Some? ==> p.value.0 < |qs| && p.value.1 < |qs| && p.value.0 != p.value.1
    ensures FindFirst(qs, QuestionHasId(id)).None? ==> p.None?
  {
    match FindFirst(qs, QuestionHasId(id))
    case None => None
    case Some(i) =>
      if dir == Up && i > 0 then Some((i, i - 1))
      else if dir == Down && i < |qs| - 1 then Some((i, i + 1))
      else None
  }

  /** The move when the question with the id is found at position `i`. */
  lemma MovedAt(qs: seq<Question>, id: int, dir: Direction, i: nat)
    requires FindFirst(qs, QuestionHasId(id)) == Some(i)
    ensures dir == Up && i > 0 ==> Moved(qs, id, dir) == Swap(qs, i, i - 1)
    ensures dir == Down && i < |qs| - 1 ==> Moved(qs, id, dir) == Swap(qs, i, i + 1)
  {
  }

  /** Moving a question up and then down again gives the list back. */
  lemma MoveUpThenDown(qs: seq<Question>, id: int, i: nat)
    requires FindFirst(qs, QuestionHasId(id)) == Some(i) && i > 0
    ensures Moved(Moved(qs, id, Up), id, Down) == qs
  {
    MovedAt(qs, id, Up, i);
    FindFirstSwapBack(qs, QuestionHasId(id), i);
    MovedAt(Swap(qs, i, i - 1), id, Down, i - 1);
    SwapTwice(qs, i, i - 1);
  }

  /** Moving a question down and then up again gives the list back, when
      the question below it does not share its id. */
  lemma MoveDownThenUp(qs: seq<Question>, id: int, i: nat)
    requires FindFirst(qs, QuestionHasId(id)) == Some(i) && i < |qs| - 1
    requires qs[i + 1].id != id
    ensures Moved(Moved(qs, id, Down), id, Up) == qs
  {
    MovedAt(qs, id, Down, i);
    FindFirstSwapForward(qs, QuestionHasId(id), i);
    MovedAt(Swap(qs, i, i + 1), id, Up, i + 1);
    SwapTwice(qs, i, i + 1);
  }

  /** The list after dropping question `dragged` onto question `target`:
      the dragged question is taken out and put back at the target's
      original position; nothing changes when either id is unknown or both
      name the same position. */
  function Reordered(qs: seq<Question>, dragged: int, target: int): (r: seq<Question>)
    ensures |r| == |qs| && multiset(r) == multiset(qs)
  {
    match DropPair(qs, dragged, target)
    case Some((d, t)) =>
      RemoveInsertPermutes(qs, d, t);
      InsertAt(RemoveAt(qs, d), t, qs[d])
    case None => qs
  }

  /** The position the dragged question is taken from and the position it
      is put back at, when both ids are found at different positions. */
  function DropPair(qs: seq<Question>, dragged: int, target: int): (p: Option<(nat, nat)>)
    ensures p.Some? ==> p.value.0 < |qs| && p.value.1 < |qs| && p.value.0 != p.value.1
  {
    match (FindFirst(qs, QuestionHasId(dragged)), FindFirst(qs, QuestionHasId(target)))
    case (Some(d), Some(t)) => if d != t then Some((d, t)) else None
    case _ => None
  }

  /** The drop when both ids are found, at different positions. */
  lemma ReorderedAt(qs: seq<Question>, dragged: int, target: int, d: nat, t: nat)
    requires FindFirst(qs, QuestionHasId(dragged)) == Some(d)
    requires FindFirst(qs, QuestionHasId(target)) == Some(t)
    requires d != t
    ensures Reordered(qs, dragged, target) == InsertAt(RemoveAt(qs, d), t, qs[d])
  {
  }

  /** A drop puts the dragged question at the target's original position
      and leaves the other questions in their relative order. */
  lemma DropLandsOnTarget(qs: seq<Question>, dragged: int, target: int, d: nat, t: nat)
    requires FindFirst(qs, QuestionHasId(dragged)) == Some(d)
    requires FindFirst(qs, QuestionHasId(target)) == Some(t)
    ensures Reordered(qs, dragged, target)[t] == qs[d]
    ensures RemoveAt(Reordered(qs, dragged, target), t) == RemoveAt(qs, d)
  {
    if d != t {
      ReorderedAt(qs, dragged, target, d, t);
      RemoveAfterInsert(RemoveAt(qs, d), t, qs[d]);
    }
  }

  /** Dropping a question onto the one just above it is the same as its
      move-up button. */
  lemma DropOnPredecessorIsMoveUp(qs: seq<Question>, dragged: int, d: nat)
    requires FindFirst(qs, QuestionHasId(dragged)) == Some(d) && d > 0
    requires FindFirst(qs, QuestionHasId(qs[d - 1].id)) == Some(d - 1)
    ensures Reordered(qs, dragged, qs[d - 1].id) == Moved(qs, dragged, Up)
  {
    ReorderedAt(qs, dragged, qs[d - 1].id, d, d - 1);
    ReinsertBeforeIsSwap(qs, d);
    MovedAt(qs, dragged, Up, d);
  }

  /** Dropping a question onto the one just below it is the same as its
      move-down button. */
  lemma DropOnSuccessorIsMoveDown(qs: seq<Question>, dragged: int, d: nat)
    requires FindFirst(qs, QuestionHasId(dragged)) == Some(d) && d < |qs| - 1
    requires FindFirst(qs, QuestionHasId(qs[d + 1].id)) == Some(d + 1)
    ensures Reordered(qs, dragged, qs[d + 1].id) == Moved(qs, dragged, Down)
  {
    ReorderedAt(qs, dragged, qs[d + 1].id, d, d + 1);
    ReinsertAfterIsSwap(qs, d);
    MovedAt(qs, dragged, Down, d);
  }

  predicate NonBlank(s: string) {
    |s| > 0
  }

  /** The options saved from the option inputs of the edit dialog: each
      input trimmed, the blank ones left out, in order. */
  function KeptOptions(inputs: seq<string>): (r: seq<string>)
    ensures |r| <= |inputs|
    ensures forall k :: 0 <= k < |r| ==> |r[k]| > 0
  {
    KeepMapped(inputs, JsTrim, NonBlank)
  }

  /** An option is saved exactly when some input trims to it and it is not
      blank. */
  lemma KeptOptionsMembership(inputs: seq<string>, x: string)
    ensures x in KeptOptions(inputs) <==> |x| > 0 && exists k :: 0 <= k < |inputs| && JsTrim(inputs[k]) == x
  {
    KeepMappedMembership(inputs, JsTrim, NonBlank, x);
  }

  /** One condition row of the edit dialog: the selected target question
      (None when none is selected), the selected operator and the typed
      value. */
  datatype ConditionRow = ConditionRow(target: Option<int>, operator: string, value: string)

  /** A row is saved only when all three are filled in, the value after
      trimming. */
  predicate RowKept(row: ConditionRow) {
    row.target.Some? && row.operator != "" && |JsTrim(row.value)| > 0
  }

  function RowCondition(row: ConditionRow): Condition {
    Condition(row.target, Some(ParseOperator(row.operator)), Some(JsTrim(row.value)))
  }

  /** The conditions a question gets from the rows of the dialog: the
      complete rows, in order, with the value trimmed. */
  function KeptConditions(rows: seq<ConditionRow>): (r: seq<Condition>)
    ensures |r| <= |rows|
    ensures forall k :: 0 <= k < |r| ==>
              r[k].target.Some? && r[k].operator.Some? && r[k].value.Some? && |r[k].value.value| > 0
    decreases |rows|
  {
    if rows == [] then []
    else
      var last := rows[|rows| - 1];
      KeptConditions(rows[..|rows| - 1]) + (if RowKept(last) then [RowCondition(last)] else [])
  }

  lemma KeptConditionsStep(rows: seq<ConditionRow>, i: nat)
    requires i < |rows|
    ensures KeptConditions(rows[..i + 1])
            == KeptConditions(rows[..i]) + (if RowKept(rows[i]) then [RowCondition(rows[i])] else [])
  {
    assert rows[..i + 1][..i] == rows[..i];
  }

  /** The operator menu offers only the three operators, so every condition
      the dialog saves passes the server's condition rules. */
  lemma {:induction false} SavedConditionsPassServer(rows: seq<ConditionRow>)
    requires forall k :: 0 <= k < |rows| ==> rows[k].operator in ValidOperators
    ensures forall k :: 0 <= k < |KeptConditions(rows)| ==> V.ConditionWellFormed(KeptConditions(rows)[k])
    decreases |rows|
  {
    if rows != [] {
      var init := rows[..|rows| - 1];
      SavedConditionsPassServer(init);
    }
  }

  /** A row whose value is "0" is saved by the dialog, and the server's
      condition rules accept it too: they test only that the value is
      set. */
  lemma ZeroValueRowSaved(target: int)
    ensures KeptConditions([ConditionRow(Some(target), "equals", "0")])
            == [Condition(Some(target), Some(EqualsOp), Some("0"))]
    ensures V.ConditionWellFormed(Condition(Some(target), Some(EqualsOp), Some("0")))
  {
    assert JsTrim("0") == "0";
  }

  /** The contents of the edit dialog when it is saved. */
  datatype QuestionForm = QuestionForm(
    title: string,
    required: bool,
    options: seq<string>,
    conditions: seq<ConditionRow>,
    parameterName: string)

  /** The question after its dialog is saved. The title always changes;
      the rest only while the survey has no responses: the required flag,
      the options of a choice question, the conditions, and the trimmed
      parameter name of a parameter question. */
  function Edited(q: Question, form: QuestionForm, locked: bool): (r: Question)
    ensures r.id == q.id && r.qtype == q.qtype && r.title == form.title
    ensures locked ==> r == q.(title := form.title)
  {
    if locked then q.(title := form.title)
    else
      q.(title := form.title,
         required := form.required,
         options := if IsChoiceType(q.qtype) then Some(KeptOptions(form.options)) else q.options,
         conditions := KeptConditions(form.conditions),
         parameterName := if q.qtype == Some(ParameterType) then Some(JsTrim(form.parameterName)) else q.parameterName)
  }

  /** Once the survey has responses, renaming a question the server
      accepted keeps it acceptable, as long as the new title is not empty:
      nothing the server checks besides the title can change. */
  lemma LockedEditKeepsValidity(q: Question, form: QuestionForm)
    requires V.QuestionWellFormed(q) && !PhpEmptyString(form.title)
    ensures V.QuestionWellFormed(Edited(q, form, true))
  {
    var r := Edited(q, form, true);
    assert r.conditions == q.conditions;
  }

  /** An unlocked save of a choice question leaves no blank option. */
  lemma UnlockedSaveDropsBlankOptions(q: Question, form: QuestionForm)
    requires IsChoiceType(q.qtype)
    ensures Edited(q, form, false).options.Some?
    ensures "" !in Edited(q, form, false).options.value
  {
  }

  /** One question object of the page. The list being edited and the
      survey last returned by the server are shallow copies of each other,
      so both can hold the same object: a field written through one is seen
      through the other. */
  class QuestionObject {
    var value: Question

    constructor (q: Question)
      ensures value == q
    {
      value := q;
    }
  }

  /** The questions the objects currently hold, in order. */
  function Values(objs: seq<QuestionObject>): (qs: seq<Question>)
    reads set o | o in objs
    ensures |qs| == |objs|
    ensures forall k :: 0 <= k < |objs| ==> qs[k] == objs[k].value
  {
    seq(|objs|, k requires 0 <= k < |objs| reads set o | o in objs => objs[k].value)
  }

  /** No object occurs twice. */
  predicate Distinct(objs: seq<QuestionObject>) {
    forall i, j :: 0 <= i < j < |objs| ==> objs[i] != objs[j]
  }

  /** Fresh objects holding `qs`, one per question, as JSON decoding
      creates them. */
  method NewObjects(qs: seq<Question>) returns (objs: seq<QuestionObject>)
    ensures Values(objs) == qs
    ensures Distinct(objs)
    ensures forall o :: o in objs ==> fresh(o)
  {
    objs := [];
    var i := 0;
    while i < |qs|
      invariant 0 <= i <= |qs| && |objs| == i
      invariant forall k :: 0 <= k < i ==> objs[k].value == qs[k]
      invariant Distinct(objs)
      invariant forall o :: o in objs ==> fresh(o)
    {
      var o := new QuestionObject(qs[i]);
      objs := objs + [o];
      i := i + 1;
    }
  }

  /** The objects `questions.filter(q => q.id != id)` keeps, in order. */
  function KeptObjects(objs: seq<QuestionObject>, id: int): (r: seq<QuestionObject>)
    reads set o | o in objs
    ensures Values(r) == Filter(Values(objs), NotQuestionId(id))
    ensures forall o :: o in r ==> o in objs
    decreases |objs|
  {
    if objs == [] then []
    else
      var rest := KeptObjects(objs[1..], id);
      assert Values(objs) == [objs[0].value] + Values(objs[1..]);
      var r := (if objs[0].value.id != id then [objs[0]] else []) + rest;
      assert Values(r) == (if objs[0].value.id != id then [objs[0].value] else []) + Values(rest);
      r
  }

  lemma ValuesSwap(objs: seq<QuestionObject>, i: nat, j: nat)
    requires i < |objs| && j < |objs|
    ensures Values(Swap(objs, i, j)) == Swap(Values(objs), i, j)
  {
    assert forall k :: 0 <= k < |objs| ==> Values(Swap(objs, i, j))[k] == Swap(Values(objs), i, j)[k];
  }

  lemma ValuesReinsert(objs: seq<QuestionObject>, d: nat, t: nat)
    requires d < |objs| && t < |objs|
    ensures Values(InsertAt(RemoveAt(objs, d), t, objs[d])) == InsertAt(RemoveAt(Values(objs), d), t, Values(objs)[d])
  {
    var r := InsertAt(RemoveAt(objs, d), t, objs[d]);
    var w := InsertAt(RemoveAt(Values(objs), d), t, Values(objs)[d]);
    assert |Values(r)| == |w|;
    forall k | 0 <= k < |w| ensures Values(r)[k] == w[k] {
    }
  }

  /** The survey as last returned by the server (or the empty draft); its
      questions are objects the edited list may share. */
  datatype Draft = Draft(id: Option<int>, title: string, questions: seq<QuestionObject>, published: bool)

  /** JavaScript `!id`: a missing id and the id 0 are both falsy. */
  predicate HasSavedId(d: Draft) {
    d.id.Some? && d.id.value != 0
  }

  /** The builder page's state. */
  class Editor {
    var questions: seq<QuestionObject>
    var hasResponses: bool
    var currentSurvey: Draft
    var currentQuestionIndex: int

    /** The questions of the list being edited. */
    function Questions(): seq<Question>
      reads this, set o | o in questions
    {
      Values(questions)
    }

    /** The questions of the draft, as they are now. */
    function DraftQuestions(): seq<Question>
      reads this, set o | o in currentSurvey.questions
    {
      Values(currentSurvey.questions)
    }

    /** The page as first opened. */
    constructor ()
      ensures questions == [] && !hasResponses && currentSurvey == Draft(None, "", [], false)
      ensures currentQuestionIndex == 0
    {
      questions := [];
      hasResponses := false;
      currentSurvey := Draft(None, "", [], false);
      currentQuestionIndex := 0;
    }

    /** The new-survey button: an empty draft and an empty, unlocked list;
        the index of the edit dialog is left as it was. */
    method NewSurvey()
      modifies this
      ensures questions == [] && !hasResponses && currentSurvey == Draft(None, "", [], false)
      ensures currentQuestionIndex == old(currentQuestionIndex)
    {
      currentSurvey := Draft(None, "", [], false);
      questions := [];
      hasResponses := false;
    }

    /** Opening a survey for editing. The draft and the list hold the same
        fresh question objects. `responseCount` is what the response count
        request returned, None when it failed; the lock is on only when a
        saved survey has at least one response. */
    method Load(survey: Survey, responseCount: Option<nat>)
      modifies this
      ensures Questions() == survey.questions && currentSurvey.questions == questions
      ensures currentSurvey.id == Some(survey.id) && currentSurvey.title == survey.title
      ensures currentSurvey.published == survey.published
      ensures Distinct(questions) && forall o :: o in questions ==> fresh(o)
      ensures hasResponses <==> survey.id != 0 && responseCount.Some? && responseCount.value > 0
      ensures currentQuestionIndex == old(currentQuestionIndex)
    {
      var objs := NewObjects(survey.questions);
      currentSurvey := Draft(Some(survey.id), survey.title, objs, survey.published);
      questions := objs;
      if survey.id == 0 || responseCount.None? {
        hasResponses := false;
      } else {
        hasResponses := responseCount.value > 0;
      }
    }

    /** Dropping a palette item: a new question object at the end of the
        list, unless the survey has responses. */
    method CreateQuestion(typeName: string, newId: int)
      modifies this
      ensures hasResponses == old(hasResponses) && currentSurvey == old(currentSurvey)
      ensures currentQuestionIndex == old(currentQuestionIndex)
      ensures hasResponses ==> questions == old(questions)
      ensures !hasResponses ==> |questions| == |old(questions)| + 1 && questions[..|old(questions)|] == old(questions)
                                && fresh(questions[|old(questions)|])
      ensures Questions() == if hasResponses then old(Questions()) else old(Questions()) + [NewQuestion(typeName, newId)]
    {
      if hasResponses {
        return;
      }
      var o := new QuestionObject(NewQuestion(typeName, newId));
      questions := questions + [o];
      assert questions[..|old(questions)|] == old(questions);
    }

    /** The delete button, once confirmed: every question with the id goes,
        unless the survey has responses. */
    method DeleteQuestion(id: int, confirmed: bool)
      modifies this
      ensures hasResponses == old(hasResponses) && currentSurvey == old(currentSurvey)
      ensures currentQuestionIndex == old(currentQuestionIndex)
      ensures hasResponses || !confirmed ==> questions == old(questions)
      ensures !hasResponses && confirmed ==> questions == KeptObjects(old(questions), id)
      ensures !hasResponses && confirmed ==> Questions() == Filter(old(Questions()), NotQuestionId(id))
    {
      if hasResponses {
        return;
      }
      if confirmed {
        questions := KeptObjects(questions, id);
      }
    }

    /** The move-up and move-down buttons: the two objects trade places. */
    method MoveQuestion(id: int, dir: Direction)
      modifies this
      ensures hasResponses == old(hasResponses) && currentSurvey == old(currentSurvey)
      ensures currentQuestionIndex == old(currentQuestionIndex)
      ensures hasResponses || MovePair(old(Questions()), id, dir).None? ==> questions == old(questions)
      ensures !hasResponses && MovePair(old(Questions()), id, dir).Some? ==>
                var (i, j) := MovePair(old(Questions()), id, dir).value;
                questions == Swap(old(questions), i, j)
      ensures hasResponses ==> Questions() == old(Questions())
      ensures !hasResponses ==> Questions() == Moved(old(Questions()), id, dir)
    {
      if hasResponses {
        return;
      }
      var found := FindFirst(Values(questions), QuestionHasId(id));
      if found.None? {
        return;
      }
      var current := found.value;
      var next: nat;
      if dir == Up && current > 0 {
        next := current - 1;
      } else if dir == Down && current < |questions| - 1 {
        next := current + 1;
      } else {
        return;
      }
      ValuesSwap(questions, current, next);
      questions := questions[current := questions[next]][next := questions[current]];
    }

    /** Dropping question `dragged` onto question `target` in the list:
        the dragged object is spliced out and back in. */
    method DropReorder(dragged: int, target: int)
      modifies this
      ensures hasResponses == old(hasResponses) && currentSurvey == old(currentSurvey)
      ensures currentQuestionIndex == old(currentQuestionIndex)
      ensures hasResponses || DropPair(old(Questions()), dragged, target).None? ==> questions == old(questions)
      ensures !hasResponses && DropPair(old(Questions()), dragged, target).Some? ==>
                var (d, t) := DropPair(old(Questions()), dragged, target).value;
                questions == InsertAt(RemoveAt(old(questions), d), t, old(questions)[d])
      ensures hasResponses ==> Questions() == old(Questions())
      ensures !hasResponses ==> Questions() == Reordered(old(Questions()), dragged, target)
    {
      if hasResponses {
        return;
      }
      var draggedIndex := FindFirst(Values(questions), QuestionHasId(dragged));
      var targetIndex := FindFirst(Values(questions), QuestionHasId(target));
      if draggedIndex.Some? && targetIndex.Some? && draggedIndex.value != targetIndex.value {
        ValuesReinsert(questions, draggedIndex.value, targetIndex.value);
        var moving := questions[draggedIndex.value];
        questions := RemoveAt(questions, draggedIndex.value);
        questions := InsertAt(questions, targetIndex.value, moving);
      }
    }

    /** The edit button: the dialog opens on the first question with the
        id. */
    method OpenEditor(id: int) returns (shown: bool)
      modifies this
      ensures questions == old(questions) && hasResponses == old(hasResponses)
      ensures currentSurvey == old(currentSurvey)
      ensures shown <==> FindFirst(Questions(), QuestionHasId(id)).Some?
      ensures shown ==> currentQuestionIndex == FindFirst(Questions(), QuestionHasId(id)).value
      ensures !shown ==> currentQuestionIndex == old(currentQuestionIndex)
    {
      var found := FindFirst(Values(questions), QuestionHasId(id));
      if found.None? {
        return false;
      }
      currentQuestionIndex := found.value;
      return true;
    }

    /** The save button of the dialog: the fields of the open question's
        object are written in place, so the edit is also seen through the
        draft when the draft holds that object. An index of -1 is refused;
        an index past the end of the list makes the handler fail before it
        writes anything. */
    method SaveQuestion(form: QuestionForm) returns (saved: bool)
      modifies if 0 <= currentQuestionIndex < |questions| then {questions[currentQuestionIndex]} else {}
      ensures saved <==> 0 <= currentQuestionIndex < |questions|
      ensures saved ==> questions[currentQuestionIndex].value
                        == Edited(old(questions[currentQuestionIndex].value), form, hasResponses)
      ensures forall k :: 0 <= k < |questions| ==>
                questions[k].value == if saved && questions[k] == questions[currentQuestionIndex]
                                      then questions[currentQuestionIndex].value else old(questions[k].value)
      ensures forall k :: 0 <= k < |currentSurvey.questions| ==>
                currentSurvey.questions[k].value
                  == if saved && currentSurvey.questions[k] == questions[currentQuestionIndex]
                     then questions[currentQuestionIndex].value else old(currentSurvey.questions[k].value)
    {
      if currentQuestionIndex < 0 || currentQuestionIndex >= |questions| {
        return false;
      }
      var target := questions[currentQuestionIndex];
      var question := target.value;
      question := question.(title := form.title);
      if !hasResponses {
        question := question.(required := form.required);
        if IsChoiceType(question.qtype) {
          var options := CleanOptions(form.options);
          question := question.(options := Some(options));
        }
        var conditions := CleanConditions(form.conditions);
        question := question.(conditions := conditions);
        if question.qtype == Some(ParameterType) {
          question := question.(parameterName := Some(JsTrim(form.parameterName)));
        }
      }
      target.value := question;
      return true;
    }

    /** The request body of the survey save button, or None when the title
        is empty or there is no question. The id is sent only once the
        survey has been saved. */
    function SaveRequest(title: string): (r: Option<V.SurveyInput>)
      reads this, set o | o in questions
      ensures r.None? <==> title == "" || questions == []
      ensures r.Some? ==> r.value.title == Some(title) && r.value.questions == Some(Questions())
                          && r.value.published == Some(currentSurvey.published)
                          && (r.value.id.Some? <==> HasSavedId(currentSurvey))
    {
      if title == "" || questions == [] then None
      else Some(V.SurveyInput(if HasSavedId(currentSurvey) then currentSurvey.id else None,
                              Some(title), Some(Questions()), Some(currentSurvey.published)))
    }

    /** The request body of the publish button: the draft with its
        published flag inverted, or None before the first save. The draft's
        questions are sent as they are now, including edits made through
        the list to the objects the two share. */
    function PublishRequest(): (r: Option<V.SurveyInput>)
      reads this, set o | o in currentSurvey.questions
      ensures r.None? <==> !HasSavedId(currentSurvey)
      ensures r.Some? ==> r.value.id == currentSurvey.id && r.value.published == Some(!currentSurvey.published)
                          && r.value.title == Some(currentSurvey.title)
                          && r.value.questions == Some(DraftQuestions())
    {
      if !HasSavedId(currentSurvey) then None
      else Some(V.SurveyInput(currentSurvey.id, Some(currentSurvey.title),
                              Some(DraftQuestions()), Some(!currentSurvey.published)))
    }

    /** The server's reply to a save: it becomes the draft, and the list
        is a fresh copy holding the same new objects. */
    method ApplySaved(result: Survey)
      modifies this
      ensures Questions() == result.questions && currentSurvey.questions == questions
      ensures currentSurvey.id == Some(result.id) && currentSurvey.title == result.title
      ensures currentSurvey.published == result.published
      ensures Distinct(questions) && forall o :: o in questions ==> fresh(o)
      ensures hasResponses == old(hasResponses) && currentQuestionIndex == old(currentQuestionIndex)
    {
      var objs := NewObjects(result.questions);
      currentSurvey := Draft(Some(result.id), result.title, objs, result.published);
      questions := objs;
    }

    /** The server's reply to a publish: it becomes the draft, with new
        objects of its own; the list keeps its objects, so it no longer
        shares any with the draft. */
    method ApplyPublished(result: Survey)
      modifies this
      ensures DraftQuestions() == result.questions
      ensures currentSurvey.id == Some(result.id) && currentSurvey.title == result.title
      ensures currentSurvey.published == result.published
      ensures questions == old(questions) && Questions() == old(Questions())
      ensures forall o :: o in currentSurvey.questions ==> o !in questions
      ensures hasResponses == old(hasResponses) && currentQuestionIndex == old(currentQuestionIndex)
    {
      var objs := NewObjects(result.questions);
      currentSurvey := Draft(Some(result.id), result.title, objs, result.published);
    }
  }

  lemma OnlyFirstEdited(objs: seq<QuestionObject>, qs: seq<Question>, edited: Question)
    requires |objs| == |qs| > 0 && objs[0].value == edited
    requires forall k :: 0 < k < |objs| ==> objs[k].value == qs[k]
    ensures Values(objs) == qs[0 := edited]
  {
  }

  /** Editing a question of a freshly opened survey and then publishing
      sends the edit: the draft holds the very objects the list edits. */
  method EditThenPublish(survey: Survey, responseCount: Option<nat>, form: QuestionForm)
    returns (request: Option<V.SurveyInput>)
    requires survey.id != 0 && survey.questions != []
    ensures request.Some?
    ensures request.value.questions
            == Some(survey.questions[0 := Edited(survey.questions[0], form,
                                                 responseCount.Some? && responseCount.value > 0)])
  {
    var editor := new Editor();
    editor.Load(survey, responseCount);
    ghost var objs := editor.questions;
    assert objs[0] in objs;
    assert fresh(objs[0]);
    FindFirstIs(editor.Questions(), QuestionHasId(survey.questions[0].id), 0);
    var shown := editor.OpenEditor(survey.questions[0].id);
    assert editor.currentQuestionIndex == 0 && editor.questions == objs && editor.currentSurvey.questions == objs;
    var saved := editor.SaveQuestion(form);
    ghost var edited := Edited(survey.questions[0], form, responseCount.Some? && responseCount.value > 0);
    OnlyFirstEdited(objs, survey.questions, edited);
    request := editor.PublishRequest();
  }

  /** The option loop of the save handler. */
  method CleanOptions(inputs: seq<string>) returns (options: seq<string>)
    ensures options == KeptOptions(inputs)
  {
    options := [];
    var i := 0;
    while i < |inputs|
      invariant 0 <= i <= |inputs|
      invariant options == KeptOptions(inputs[..i])
    {
      var value := JsTrim(inputs[i]);
      if |value| > 0 {
        options := options + [value];
      }
      KeepMappedStep(inputs, JsTrim, NonBlank, i);
      i := i + 1;
    }
    assert inputs[..i] == inputs;
  }

  /** The condition loop of the save handler. */
  method CleanConditions(rows: seq<ConditionRow>) returns (conditions: seq<Condition>)
    ensures conditions == KeptConditions(rows)
  {
    conditions := [];
    var i := 0;
    while i < |rows|
      invariant 0 <= i <= |rows|
      invariant conditions == KeptConditions(rows[..i])
    {
      var row := rows[i];
      var value := JsTrim(row.value);
      if row.target.Some? && row.operator != "" && |value| > 0 {
        conditions := conditions + [Condition(row.target, Some(ParseOperator(row.operator)), Some(value))];
      }
      KeptConditionsStep(rows, i);
      i := i + 1;
    }
    assert rows[..i] == rows;
  }

  /** Whatever the builder refuses to save, the server would refuse too:
      an empty title or an empty question list is an error there. */
  lemma BuilderRefusalIsServerRefusal(e: Editor, title: string)
    requires e.SaveRequest(title).None?
    ensures V.SurveyErrors(V.SurveyInput(e.currentSurvey.id, Some(title), Some(e.Questions()),
                                         Some(e.currentSurvey.published))) != []
  {
  }

  /** The builder's title check is JavaScript truthiness, so the title "0"
      passes it and is then refused by the server, for which "0" is
      empty. */
  lemma ZeroTitlePassesBuilderOnly(e: Editor)
    requires e.questions != []
    ensures e.SaveRequest("0").Some?
    ensures V.TitleRequired in V.SurveyErrors(e.SaveRequest("0").value)
  {
  }

  /** Publishing flips the stored flag: the server's update applied to the
      publish request stores the inverse of the builder's flag, and a
      survey that becomes published gets a public URL. */
  lemma PublishFlips(e: Editor, existing: Survey, now: string, url: string)
    requires e.PublishRequest().Some?
    ensures Api.MergeSurvey(existing, e.PublishRequest().value, now, url).published == !e.currentSurvey.published
    ensures !e.currentSurvey.published ==> Api.MergeSurvey(existing, e.PublishRequest().value, now, url).publicUrl.Some?
  {
  }
}
