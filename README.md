# Questionnaire survey engine — a Dafny model

This project models the logic of a small survey application. The server
(PHP) stores surveys and responses as JSON lists and validates both. The
browser (JavaScript) hosts a survey builder and a response analysis page.
The model covers five parts:

- **Conditional display and response validation** (`conditions.dfy`,
  `response_validation.dfy`). Each question may carry conditions on earlier
  answers. A hidden question is skipped. A visible one is checked for a
  required answer and for valid choices, and every error is collected.
- **Survey structure validation** (`survey_validation.dfy`). It checks an
  authoring document's title, question list, types, options, required flags,
  parameter names and conditions, and reports every violation in order.
- **Record lists on the server** (`store.dfy`). The survey and response
  files are in-memory sequences held by a `Store` class. There are methods
  for get, list, create, update (merge), delete with cascade, response
  admission, response deletion and the response statistics.
- **The builder** (`builder.dfy`). The `Editor` class holds the page's
  question list, the response lock and the current draft. Questions are
  `QuestionObject`s on the heap: after a load or a save the list and the
  draft hold the same objects, as the page's shallow copies do, so an edit
  reaches the draft that publish sends. It supports create, delete, move
  up/down, drag-and-drop reorder, the edit dialog's save, question
  numbering, and the save and publish requests.
- **The analysis page** (`analytics.dfy`, `csv.dfy`). It covers the
  completion count and rate, per-option tallies, the latest text answers,
  the search and date filter, and the CSV export with its quoting.

Shared pieces:

- `answers.dfy` holds JSON answers as a tagged union (null, string, array
  of strings). It gives PHP `empty()` and JavaScript truthiness over them,
  and the positional key `question_<index>` under which answers are stored.
- `survey.dfy` holds the survey data model.
- `text.dfy` and `seqs.dfy` hold generic string and sequence functions and
  their lemmas.

Several lemmas exhibit behaviour the source has by construction:

- Answers are keyed by position, so reordering questions reinterprets
  stored answers (`ReorderReinterpretsAnswers`).
- The browser's completion check uses JavaScript truthiness and ignores
  visibility, while the server uses PHP `empty()` and skips hidden
  questions. `ZeroAnswerDivergence` and `HiddenRequiredDivergence` show the
  two verdicts disagree.
- The builder's title check passes "0", which the server refuses
  (`ZeroTitlePassesBuilderOnly`).

The CSV quoting follows the field escaping of RFC 4180 section 2 (rules 5
to 7). Rows are separated by a line feed, not the CRLF of rule 1.
`CsvRoundTrip` proves that unquoting recovers every field.

## Model

| member | source | states |
|---|---|---|
| Answers.Key | api/responses.php:147 | The answer key of the question at a position is `question_` followed by the index. |
| Answers.Lookup | api/responses.php:229 | An answer is found iff some entry carries the key, and the value found is stored under that key in the object. |
| Answers.PhpAnswer | api/responses.php:148 | A key that is not present reads as null. |
| Surveys.ParseType | api/config.php:97-100 | A type name is unknown iff it is outside the eight valid names, and parsing keeps the name. |
| Surveys.ParseTypeName | api/config.php:97-100 | Printing then parsing a canonical type gives the type back. |
| Surveys.ParseOperator | api/config.php:130-133 | An operator name is unknown iff it is outside equals/contains/not_equals, and parsing keeps the name. |
| Surveys.ParseOperatorName | api/config.php:130-133 | Printing then parsing an operator gives it back. |
| Conditions.FindQuestion | api/responses.php:215-226 | The target index found is the first question with the target id; None iff the target is null or no question has that id. |
| Conditions.InArray | api/responses.php:233-234 | `in_array` of the expected value holds iff some element equals it, a null expected value being compared as "" (so it never matches "0"). |
| Conditions.EqualsTest | api/responses.php:232-236 | With a null expected value, `equals` holds iff the answer is null or an array holding ""; with a string, iff the answer is that string or an array holding it. |
| Conditions.ContainsTest | api/responses.php:238-247 | `contains` never holds for a PHP-empty answer; a null needle is found in every truthy string and every non-empty array. |
| Conditions.OperatorHolds | api/responses.php:231-256 | Only the three known operators can hold; `contains` needs a non-empty answer; `not_equals` on a missing answer holds iff the value is not null. |
| Conditions.EvaluateCondition | api/responses.php:210-258 | An unresolved target makes the condition false; a condition holds only with a known operator; otherwise the operator is applied to the answer stored under the target's positional key. |
| Conditions.AllConditionsHold | api/responses.php:200-207 | The early-exit loop is true iff every condition holds. |
| Conditions.IsVisible | api/responses.php:194-208 | A question without conditions is shown; otherwise it is shown iff all its conditions hold. |
| Conditions.UnresolvedTargetHides | api/responses.php:224-226 | One condition whose target id matches no question hides its question. |
| Conditions.NotEqualsNegatesEquals | api/responses.php:231-253 | Once the target resolves, not_equals is the exact negation of equals for every answer shape. |
| Conditions.MissingAnswerNeverEquals | api/responses.php:232-236 | A missing answer never equals a string, so not_equals holds for it. |
| Conditions.ContainsOnArray | api/responses.php:238-246 | contains on an array holds iff some element contains the expected string. |
| Conditions.ContainsOnFalsyScalar | api/responses.php:247 | contains on null, "" or "0" is false. |
| Conditions.UnknownOperatorNeverHolds | api/responses.php:255-256 | A missing or unknown operator never holds. |
| Conditions.NullValueEqualsOnlyEmpty | api/responses.php:232-236 | With a null condition value, `equals` holds for a missing answer and for an array holding "", never for ["0"] nor for any string. |
| Conditions.FirstMatchIsRead | api/responses.php:215-229 | The answer read is the one under the position of the first question with the target id. |
| Conditions.ReorderReinterpretsAnswers | api/responses.php:228-229 | The same stored answers show a dependent question in one order of the questions and hide it in the swapped order. |
| ResponseValidation.RequiredErrors | api/responses.php:158-169 | A required error arises iff the question is required and its answer fails the check (a non-empty array for checkbox, not PHP-empty otherwise), and it is the single error RequiredMissing(title). |
| ResponseValidation.InvalidSelections | api/responses.php:176-182 | Every error names a selected value outside the options, every such value is named, and there are no more errors than selections. |
| ResponseValidation.InvalidSelectionsExact | api/responses.php:176-182 | Exactly one error per selected value outside the options, in selection order, repeats included. |
| ResponseValidation.ChoiceErrors | api/responses.php:171-188 | Non-choice questions and PHP-empty answers give no choice error; every choice error names the question. |
| ResponseValidation.QuestionErrorsMeaning | api/responses.php:146-189 | A hidden question gives no error; a visible one gives the required error iff it is required and unanswered; an empty answer gives only required errors. |
| ResponseValidation.ResponseErrors | api/responses.php:142-192 | No question gives no error; an error is reported iff some question produces it. |
| ResponseValidation.CheckRequired | api/responses.php:159-169 | The required check computes the required errors of its question. |
| ResponseValidation.CheckChoices | api/responses.php:172-188 | The option check, looping over checkbox selections, computes the choice errors. |
| ResponseValidation.ValidateAnswers | api/responses.php:142-192 | The loop over all questions returns every question's errors concatenated in order, without stopping early. |
| ResponseValidation.AcceptedIffEveryQuestionClean | api/responses.php:142-192 | A response is accepted iff no question produces an error. |
| ResponseValidation.QuestionErrorsInPlace | api/responses.php:146-189 | The errors of a question follow those of all earlier questions in the result. |
| ResponseValidation.HiddenRequiredQuestionAccepted | api/responses.php:151-156 | A required question hidden by its condition is not checked, so an answer set without it is accepted. |
| ResponseValidation.EmptyRequiredTextRejected | api/responses.php:165-167 | A required text question answered "" is refused as missing. |
| ResponseValidation.InvalidCheckboxSelectionReported | api/responses.php:175-182 | The selection ["A", "C"] against options ["A", "B"] gives exactly one error, for "C". |
| ResponseValidation.CheckboxSelectionsReported | api/responses.php:158-182 | A visible checkbox question with a non-empty selection contributes exactly one error per invalid value, in selection order, placed after the earlier questions' errors. |
| ResponseValidation.ValidateResponse | api/responses.php:128-140 | The shape check reports a missing survey id and a missing answers array, each iff it applies. |
| SurveyValidation.ConditionErrors | api/config.php:122-139 | Each condition error arises iff its field is missing (or the operator is unknown), and the list is empty iff the condition is well-formed. |
| SurveyValidation.FieldErrors | api/config.php:89-118 | Every field error is about the question being checked. |
| SurveyValidation.FieldErrorsExact | api/config.php:89-118 | An error is reported for a question iff the corresponding field rule is violated. |
| SurveyValidation.SurveyErrors | api/config.php:74-145 | The document errors come first; without a non-empty question list they are the only errors. |
| SurveyValidation.CheckCondition | api/config.php:123-138 | The per-condition checks compute the condition's errors. |
| SurveyValidation.CheckFields | api/config.php:89-118 | The per-field checks compute the question's field errors. |
| SurveyValidation.CheckQuestion | api/config.php:89-140 | A question's checks, conditions included, compute its errors. |
| SurveyValidation.ValidateSurvey | api/config.php:74-145 | The nested loops collect every error of the document in order. |
| SurveyValidation.QuestionCleanIffWellFormed | api/config.php:89-140 | A question has no error iff it is well-formed. |
| SurveyValidation.DocumentErrorsEmpty | api/config.php:77-85 | No document-level error iff the title is not PHP-empty and the questions form a non-empty array. |
| SurveyValidation.EachQuestionCleanIffWellFormed | api/config.php:88-141 | Each question's error list is empty iff that question is well-formed. |
| SurveyValidation.QuestionsCleanIffWellFormed | api/config.php:88-141 | No question error iff every question is well-formed. |
| SurveyValidation.ValidIffWellFormed | api/config.php:74-145 | The result is empty iff the document is well-formed. |
| SurveyValidation.QuestionErrorsAbout | api/config.php:89-139 | Every error of a question carries that question's number. |
| SurveyValidation.QuestionErrorsNumbered | api/config.php:88-141 | Every question error is numbered between 1 and the number of questions. |
| SurveyValidation.TitleErrorIffEmpty | api/config.php:77-79 | The title error arises iff the title is PHP-empty ("0" included). |
| SurveyValidation.ListErrorsExclusive | api/config.php:81-85 | "Not an array" arises iff the list is missing; "no question" iff it is empty; never both. |
| SurveyValidation.EmptyTypeReportedTwice | api/config.php:93-100 | An empty type string is reported both as missing and as invalid. |
| SurveyValidation.ParameterQuestionErrors | api/config.php:108-118 | A parameter question without a name gets the name error, and also the required error when it is marked required. |
| Api.StatusOf | api/responses.php:47-119 | A missing record gives 404, an unpublished survey 403, every other refusal 400. |
| Api.NewSurvey | api/surveys.php:70-83 | A created survey takes the new id and time, is published only when the input says true, and has a public URL iff it is published. |
| Api.MergeSurvey | api/surveys.php:120-134 | An update keeps the id, creation time and an existing URL; published falls back to the old value; a published survey whose stored URL is PHP-empty gets exactly the generated URL; an unpublished one keeps its URL. |
| Api.AdmitResponse | api/responses.php:45-80 | Malformed JSON gives the JSON error, a bad shape its shape errors; an answers refusal lists at least one error; an admitted response names a stored, published survey with its id. |
| Api.AdmittedMeansPublishedAndValid | api/responses.php:51-79 | An admitted response is well-shaped, names an existing published survey, and its answers pass validation. |
| Api.MissingSurveyRefused | api/responses.php:57-69 | A well-shaped response for an unknown survey id is refused with not-found. |
| Api.UnpublishedSurveyRefused | api/responses.php:71-73 | A response for an unpublished survey is refused as not published. |
| Api.Store.GetSurvey | api/surveys.php:31-42 | Found iff some survey has the id, and then it returns a survey with that id; otherwise not-found. |
| Api.Store.ListSurveys | api/surveys.php:44-51 | Without the filter, all surveys; with it, exactly the published ones. |
| Api.Store.FindSurvey | api/surveys.php:107-113 | The search loop finds the first survey with the id. |
| Api.Store.CreateSurvey | api/surveys.php:54-89 | Succeeds iff the input validates; then appends the new survey with 201; a refusal changes nothing. |
| Api.Store.UpdateSurvey | api/surveys.php:91-140 | Without an id, the id error; an invalid document, the validator's errors; an unknown id, not-found; otherwise the first match is replaced in place by the merged record. Refusals change nothing. |
| Api.Store.DeleteSurvey | api/surveys.php:142-180 | Without an id, the id error; an unknown id, not-found with nothing changed; otherwise the first match and every response to it are removed. |
| Api.Store.ResponsesOf | api/responses.php:24-33 | Without a survey id, all responses; with one, exactly that survey's responses. |
| Api.Store.CreateResponse | api/responses.php:44-97 | A refused request leaves the list unchanged and returns the first failing check's error; an admitted one appends the record built from the request, with 201. |
| Api.Store.DeleteResponse | api/responses.php:99-126 | Succeeds iff the id matches; then removes the first matching response; otherwise not-found and nothing changes. |
| Api.CascadeRemovesExactlyThatSurvey | api/surveys.php:168-174 | The cascade keeps exactly the responses of other surveys, and changes nothing iff none belongs to the deleted survey. |
| Api.DeleteRemovesOne | api/responses.php:122 | Splicing out one record removes exactly one occurrence of it. |
| Api.MergeIdempotent | api/surveys.php:120-134 | Applying the same update twice stores the same record as applying it once. |
| Api.UpdatedSurveyFoundInPlace | api/surveys.php:107-136 | After an update, the search by the survey's id finds the updated record at the same position. |
| Api.ResponseStats | api/responses.php:260-286 | The counter loops give the total, and per survey and per day a counter exactly for the keys that occur, equal to their number of responses. |
| Api.PerSurveyCountMatchesListing | api/responses.php:267-274 | A survey's counter equals the length of its filtered response list, and is positive iff it has a response. |
| Builder.DefaultTitle | js/script.js:86-98 | The default title is never PHP-empty, and an unknown type gets the generic title. |
| Builder.NewQuestion | js/script.js:69-77 | A new question is not required, has no conditions, has default options iff it is a choice type, and has a parameter name iff it is a parameter question. |
| Builder.NewQuestionServerErrors | js/script.js:62-79 | A new question of a valid type passes the server's question rules, except that a parameter question still lacks its name. |
| Builder.QuestionNumber | js/script.js:106-107 | Labels have no number; any other question is numbered 1 + the non-labels before it, at most its position + 1. |
| Builder.NumbersIncrease | js/script.js:525-530 | Numbers strictly increase along the list. |
| Builder.NumbersConsecutive | js/script.js:525-530 | Two numbered questions with only labels between them have consecutive numbers. |
| Builder.FirstNumberIsOne | js/script.js:525-530 | The first numbered question is number 1. |
| Builder.NumberAtMostCount | js/script.js:525-530 | No number exceeds the count of numbered questions. |
| Builder.DeleteRemovesEveryCopy | js/script.js:224-225 | Delete keeps exactly the questions with another id, and changes nothing iff none has the id. |
| Builder.Moved | js/script.js:761-775 | A move is a permutation of the list, and is the identity for an unknown id. |
| Builder.MovePair | js/script.js:761-775 | The exchanged positions are two different positions of the list, and none for an unknown id. |
| Builder.MovedAt | js/script.js:761-775 | A move up (down) swaps the question with its predecessor (successor) when there is one. |
| Builder.MoveUpThenDown | js/script.js:761-775 | Moving a question up and then down restores the list. |
| Builder.MoveDownThenUp | js/script.js:761-775 | Moving a question down and then up restores the list, when its successor has another id. |
| Builder.Reordered | js/script.js:868-882 | A drop reorder is a permutation of the list. |
| Builder.DropPair | js/script.js:868-882 | The taken and target positions are two different positions of the list. |
| Builder.ReorderedAt | js/script.js:878-881 | With both ids found at different positions, the dragged question is removed and reinserted at the target's index. |
| Builder.DropLandsOnTarget | js/script.js:878-881 | After the drop the dragged question sits at the target's original index, and the others keep their order. |
| Builder.DropOnPredecessorIsMoveUp | js/script.js:868-882 | Dropping on the predecessor is the same as moving up. |
| Builder.DropOnSuccessorIsMoveDown | js/script.js:868-882 | Dropping on the successor is the same as moving down. |
| Builder.KeptOptions | js/script.js:474-483 | The saved options are no more than the inputs, and none is empty. |
| Builder.KeptOptionsMembership | js/script.js:476-481 | A value is saved iff it is non-empty and is the trim of some input. |
| Builder.KeptConditions | js/script.js:486-500 | The saved conditions are no more than the rows, and each has a target, an operator and a non-empty value. |
| Builder.SavedConditionsPassServer | js/script.js:486-500 | Every condition the dialog saves passes the server's condition rules. |
| Builder.ZeroValueRowSaved | js/script.js:490-492 | A row with value "0" is saved, and the server accepts the condition. |
| Builder.Edited | js/script.js:465-506 | The edit keeps id and type and sets the title; under the response lock it changes nothing else. |
| Builder.LockedEditKeepsValidity | js/script.js:465-471 | A title-only edit with a non-empty title keeps a well-formed question well-formed. |
| Builder.UnlockedSaveDropsBlankOptions | js/script.js:474-483 | An unlocked save of a choice question leaves no empty option. |
| Builder.Editor.constructor | js/script.js:2-12 | The page starts with no questions, no lock, dialog index 0 and an unsaved empty draft. |
| Builder.Editor.NewSurvey | js/script.js:892-911 | The draft is emptied, the list is empty and unlocked; the dialog index stays. |
| Builder.Editor.Load | js/script.js:679-713 | The list and the draft hold the same fresh, distinct objects with the survey's questions; the lock is on iff the survey has an id and at least one response. |
| Builder.Editor.CreateQuestion | js/script.js:62-84 | Under the lock nothing changes; otherwise a fresh object with the new question is appended. |
| Builder.Editor.DeleteQuestion | js/script.js:216-231 | Under the lock or without confirmation nothing changes; otherwise the objects of questions with the id are removed and the rest kept in order. |
| Builder.Editor.MoveQuestion | js/script.js:761-780 | Under the lock nothing changes; otherwise the two objects MovePair names trade places and the questions are the moved list. |
| Builder.Editor.DropReorder | js/script.js:860-882 | Under the lock nothing changes; otherwise the dragged object is spliced to the target's index and the questions are the reordered list. |
| Builder.Editor.OpenEditor | js/script.js:254-255 | The dialog opens iff a question has the id, and then the edited index is that question's position. |
| Builder.Editor.SaveQuestion | js/script.js:459-506 | Without a valid index nothing is written; otherwise the open question's object is edited in place, and every position of the list or the draft that holds that object shows the edit. |
| Builder.Editor.SaveRequest | js/script.js:576-597 | No request iff the title is empty or there is no question; otherwise the request carries the title and the list. |
| Builder.Editor.PublishRequest | js/script.js:603-616 | No request without a saved id; otherwise the draft's id and title, its questions as the shared objects hold them now, and the flipped published flag. |
| Builder.Editor.ApplySaved | js/script.js:623-635 | The draft and the list hold the same fresh objects with the saved survey's questions. |
| Builder.Editor.ApplyPublished | js/script.js:646-649 | The draft becomes the updated survey with objects of its own; the list keeps its objects, and the two share none. |
| Builder.EditThenPublish | js/script.js:459-506 | After loading a saved survey and editing its first question, the publish request carries the edited question. |
| Builder.CleanOptions | js/script.js:474-483 | The option loop computes the kept options. |
| Builder.CleanConditions | js/script.js:486-500 | The condition-row loop computes the kept conditions. |
| Builder.BuilderRefusalIsServerRefusal | js/script.js:578-586 | Whatever the builder refuses to save, the server would refuse too. |
| Builder.ZeroTitlePassesBuilderOnly | js/script.js:578-581 | The title "0" passes the builder's check but the server reports a missing title. |
| Builder.PublishFlips | js/script.js:603-616 | The server's merge of a publish request flips the published flag, and publishing yields a public URL. |
| Analytics.CheckCompleted | js/responses.js:118-125 | The inner loop's flag is true iff every required question has a filled answer. |
| Analytics.Filled | js/responses.js:121 | An answer counts as given iff it is a non-empty string or a non-empty array. |
| Analytics.IsComplete | js/responses.js:116-125 | Without required questions every response is complete; a complete response has a non-null answer to every required question. |
| Analytics.CountCompleted | js/responses.js:114-127 | The count is the number of complete responses, at most the total. |
| Analytics.Percent | js/responses.js:129 | The rate is 0 without responses, else 100 × part / whole rounded half up. |
| Analytics.PercentAtMost100 | js/responses.js:129 | The share is at most 100 when the part is at most the whole, and 100 when they are equal. |
| Analytics.RatesAtMost100 | js/responses.js:224 | The completion rate and every option's share are at most 100. |
| Analytics.ZeroAnswerDivergence | js/responses.js:122 | A required text answer "0" is complete for the page but refused by the server. |
| Analytics.HiddenRequiredDivergence | js/responses.js:117-125 | A response the server accepted without a hidden required answer is incomplete for the page. |
| Analytics.PresentAnswers | js/responses.js:153 | The answers analysed are at most one per response, never the empty string. |
| Analytics.Occurrences | js/responses.js:205-209 | The occurrence count of a value is at most the length of the list. |
| Analytics.Denominator | js/responses.js:217-219 | For a non-checkbox question the denominator is the number of answers. |
| Analytics.ChoiceTallies | js/responses.js:194-219 | Counters exist exactly for the declared options, each equal to that option's hits; the total is the denominator. |
| Analytics.CountSelections | js/responses.js:204-209 | One checkbox answer advances each counter by the occurrences of its option, and adds no counter. |
| Analytics.OccursAtMostOnce | js/responses.js:198-200 | A value occurs at most once among distinct options. |
| Analytics.TalliesWithinDenominator | js/responses.js:203-219 | Over distinct options, the tallies sum to at most the denominator. |
| Analytics.RecentAnswers | js/responses.js:249 | At most five answers are shown, the newest first. |
| Analytics.MoreCount | js/responses.js:260-262 | The note appears iff there are more than five answers, and counts the rest. |
| Analytics.RecentAndMorePartition | js/responses.js:249-262 | The counted older answers followed by the shown ones, reversed back, are exactly the answers. |
| Analytics.ObjectKeys | js/responses.js:273 | Every key of the answers object is enumerated exactly once, and nothing else is. |
| Analytics.ObjectValues | js/responses.js:273 | The values are those of the enumerated keys, one each. |
| Analytics.SearchText | js/responses.js:273 | The lower-cased text of every answer value occurs in the search text. |
| Analytics.Shown | js/responses.js:270-289 | Empty criteria show the response; a shown response contains the search term; a date before the start or after the end hides it. |
| Analytics.FilterResponses | js/responses.js:270-289 | The filtered list holds exactly the responses that pass the search and the date bounds. |
| Analytics.EmptyCriteriaShowAll | js/responses.js:272-286 | With no search term and no dates every response is shown, in order. |
| Analytics.DateBoundsInclusive | js/responses.js:281-286 | A response dated on both bounds is shown. |
| Analytics.SearchFindsAnyAnswer | js/responses.js:272-276 | A term found in any one answer value, ignoring ASCII case, is found in the response. |
| Analytics.SearchFindsEveryKey | js/responses.js:272-276 | A term found in the value under any key of the answers is found in the search text. |
| Csv.Escape | js/responses.js:452 | Escaping never shortens a field. |
| Csv.Quote | js/responses.js:452 | A written field starts and ends with a quote. |
| Csv.ParseBody | js/responses.js:451-453 | The reader of a quoted field consumes at least the closing quote. |
| Csv.ParseRow | js/responses.js:451-453 | A row read has at least one field and consumes input. |
| Csv.ParseTable | js/responses.js:451-453 | A table read has at least one row. |
| Csv.BodyRoundTrip | js/responses.js:452 | The escaped field is read back exactly up to its closing quote. |
| Csv.FieldRoundTrip | js/responses.js:452 | A quoted field is read back exactly. |
| Csv.RowRoundTrip | js/responses.js:451-452 | A written row is read back field for field. |
| Csv.TableRoundTrip | js/responses.js:451-453 | A written table of non-empty rows is read back row for row. |
| Csv.CsvRoundTrip | js/responses.js:451-455 | The file, byte order mark included, is read back as the table. |
| Csv.IntText | js/responses.js:429 | An id is written in decimal, with a minus sign iff it is negative. |
| Csv.Cell | js/responses.js:436-444 | A missing or empty answer gives "", null gives "null". |
| Csv.Table | js/responses.js:423-448 | The header, then one row per response in order, every row as wide as the header. |
| Csv.ResponseRow | js/responses.js:427-445 | The cell loop builds the response's row. |
| Csv.ExportCsv | js/responses.js:412-455 | Nothing without responses; otherwise the file, which reads back as the header and one row per response. |

## Left out

- HTTP dispatch, JSON decoding and encoding, the response helpers that
  exit, and CORS headers are left out. A handler's outcome is a reply
  value: success with a status, or an error. Malformed JSON is a `None`
  input.
- JSON file persistence is replaced by the sequence fields of `Api.Store`.
  File locking and write failures are not modelled.
- Random and time-dependent values are parameters of the operations:
  - identifiers (`generateId`, `Date.now()`);
  - timestamps (`date('c')`);
  - the public URL;
  - the client address.
- Date handling is given as functions on the stored timestamp:
  - `Api.ResponseStats` takes `dayOf` (the server's date bucketing);
  - `Analytics.Shown` takes `dateOf` (the browser's UTC date);
  - `Csv.Row` takes `dateText` (the browser's local rendering).
- `Analytics.Percent` computes with exact rational rounding. It does not
  model floating-point `Math.round`, which can differ at exact halves.
- Lower-casing covers ASCII letters only, not Unicode `toLowerCase`.
- PHP loose comparison is modelled as exact equality:
  - `in_array` in option checks and `equals`;
  - `==` between ids.
  Ids are integers, and options and answers are strings. The one mixed
  case kept is a null condition value, which `in_array` compares as "".
- PHP `null == 0` is not modelled: a null condition target never matches.
- `Builder.ConditionRow` takes the selected target as an optional integer.
  It does not model `parseInt` on the option text.
- Response and survey `published` flags are booleans. A non-boolean JSON
  value is not modelled.
- `Analytics.ChoiceTallies` requires the question to have options. The page
  throws on a choice question without an options array.
- The enumeration order of `Object.entries` is not modelled. That order
  puts integer-like keys first. `ChoiceTallies` states the counters as a map.
- Analytics.ObjectKeys: enumerates the keys in the order of their first
  occurrence. JavaScript lists integer-like keys (such as "1") first, in
  ascending order. So for an answers object with such keys, `SearchText`
  can join the values in another order, and a term spanning two values
  can match differently. The keys the page writes (`question_<index>`)
  are never integer-like.
- An option named like an `Object.prototype` member (`__proto__`) is not
  modelled, in either the tallies or `getDefaultTitle`.
- The following are left out:
  - the latest-response date in the statistics panel;
  - HTML escaping and rendering, toastr messages, the preview;
  - the clipboard, QR code and file download (name, Blob, MIME type).
- The asynchronous response count that sets the builder's lock is not
  modelled as a race. `Builder.Editor.Load` takes the count as a parameter.
- `Builder.Editor.OpenEditor` finds by loose id equality, modelled as
  integer equality.
- `js/api.js` and `js/manage.js` are not part of this model.
- A question whose type is unrecognised keeps that type as
  `UnknownType(name)`. A missing type is `None`.
