/** Submitted answers. A response's `answers` field is a JSON object whose
    keys are positional (`question_<index>`, the zero-based position of the
    question in the survey's list) and whose values are a string, an array
    of strings (checkbox questions) or null. */
module Answers {
  import opened Text
  import opened Options

  /** One answer value. `Absent` is both JSON null and, when read through
      PHP's `isset`, a key that is not there. */
  datatype Answer = Absent | Scalar(text: string) | Multi(items: seq<string>)

  /** One key/value member of the answers object, in submission order. */
  datatype Entry = Entry(key: string, value: Answer)

  type AnswerMap = seq<Entry>

  /** The key under which the answer to the question at position `index`
      is stored. It is positional, not the question's stable id. */
  function Key(index: nat): (k: string)
    ensures StartsWith(k, "question_") && |k| > 9
  {
    "question_" + Decimal(index)
  }

  /** The value stored under `key`; when the object repeats a key the last
      member wins, as in both PHP's json_decode and JSON.parse. */
  function Lookup(answers: AnswerMap, key: string): (r: Option<Answer>)
    ensures r.Some? <==> exists i :: 0 <= i < |answers| && answers[i].key == key
    ensures r.Some? ==> Entry(key, r.value) in answers
    decreases |answers|
  {
    if answers == [] then None
    else if answers[|answers| - 1].key == key then Some(answers[|answers| - 1].value)
    else Lookup(answers[..|answers| - 1], key)
  }

  /** PHP: `isset($answers[$key]) ? $answers[$key] : null`. */
  function PhpAnswer(answers: AnswerMap, key: string): (a: Answer)
    ensures (forall i :: 0 <= i < |answers| ==> answers[i].key != key) ==> a == Absent
  {
    match Lookup(answers, key)
    case None => Absent
    case Some(v) => v
  }

  /** JavaScript: `response.answers[key]`, where None is `undefined`. */
  function JsAnswer(answers: AnswerMap, key: string): Option<Answer> {
    Lookup(answers, key)
  }

  /** PHP's empty() on an answer: null, "", "0" and [] are empty. */
  predicate PhpEmpty(a: Answer) {
    match a
    case Absent => true
    case Scalar(s) => s == "" || s == "0"
    case Multi(items) => items == []
  }

  /** PHP's empty() on a string. */
  predicate PhpEmptyString(s: string) {
    s == "" || s == "0"
  }

  /** JavaScript truthiness as tested by `!answer` on a stored value:
      undefined, null and "" are falsy; "0" and every array are truthy. */
  predicate JsTruthy(a: Option<Answer>) {
    match a
    case None => false
    case Some(Absent) => false
    case Some(Scalar(s)) => s != ""
    case Some(Multi(_)) => true
  }
}
