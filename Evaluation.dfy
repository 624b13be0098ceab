/**
 * `evaluate_answers_openai`: the input guard, the transcript sent to the
 * service, the synthetic result when nothing was answered, and the
 * field-by-field validator of the grading object the service returns.
 */
module Evaluation {
  import opened Wrappers
  import opened Text
  import opened Json
  import opened Replies

  /** The `ValueError`s the validator raises, in the order it checks. */
  datatype EvalError =
    | NotAnObject
    | MissingEvaluations
    | BadOverallGrade
    | BadOverallJustification
    | LengthMismatch(got: nat, expected: nat)
    | BadItem(index: nat)

  /** Item `i` of `evaluations`: a dict with `question_index == i`, an int `grade` and a str `justification`. */
  predicate ItemOk(item: Json, i: nat) {
    && item.JObject?
    && "question_index" in item.fields && PyEqualsInt(item.fields["question_index"], i)
    && "grade" in item.fields && IsPyInt(item.fields["grade"])
    && "justification" in item.fields && item.fields["justification"].JString?
  }

  /** The top-level fields the validator requires, before it looks at the length and the items. */
  predicate HasSummaryFields(j: Json) {
    && j.JObject?
    && "evaluations" in j.fields && j.fields["evaluations"].JArray?
    && "overall_grade" in j.fields && IsPyInt(j.fields["overall_grade"])
    && "overall_justification" in j.fields && j.fields["overall_justification"].JString?
  }

  /** A grading object for `n` questions as the validator accepts it. Grades are not range-checked. */
  predicate WellFormedEvaluation(j: Json, n: nat) {
    && HasSummaryFields(j)
    && |j.fields["evaluations"].items| == n
    && forall i :: 0 <= i < n ==> ItemOk(j.fields["evaluations"].items[i], i)
  }

  /** The loop over `enumerate(evaluations)` from position `from`: the first item that fails, if any. */
  function FirstBadItem(items: seq<Json>, from: nat): (r: Option<nat>)
    requires from <= |items|
    ensures r.None? <==> forall k :: from <= k < |items| ==> ItemOk(items[k], k)
    ensures r.Some? ==> from <= r.value < |items| && !ItemOk(items[r.value], r.value)
    ensures r.Some? ==> forall k :: from <= k < r.value ==> ItemOk(items[k], k)
    decreases |items| - from
  {
    if from == |items| then None
    else if !ItemOk(items[from], from) then Some(from)
    else FirstBadItem(items, from + 1)
  }

  /** The validator of lines 339-355: the first check that fails names the error. */
  function ValidateEvaluation(j: Json, n: nat): (r: Outcome<EvalError>)
    ensures r.Pass? <==> WellFormedEvaluation(j, n)
    ensures r == Fail(NotAnObject) <==> !j.JObject?
    ensures r.Fail? && r.error.LengthMismatch? ==>
              HasSummaryFields(j) && r.error == LengthMismatch(|j.fields["evaluations"].items|, n)
              && r.error.got != n
    ensures r.Fail? && r.error.BadItem? ==>
              HasSummaryFields(j) && |j.fields["evaluations"].items| == n && r.error.index < n
              && !ItemOk(j.fields["evaluations"].items[r.error.index], r.error.index)
              && forall k :: 0 <= k < r.error.index ==> ItemOk(j.fields["evaluations"].items[k], k)
  {
    if !j.JObject? then Fail(NotAnObject)
    else if "evaluations" !in j.fields || !j.fields["evaluations"].JArray? then Fail(MissingEvaluations)
    else if "overall_grade" !in j.fields || !IsPyInt(j.fields["overall_grade"]) then Fail(BadOverallGrade)
    else if "overall_justification" !in j.fields || !j.fields["overall_justification"].JString? then
      Fail(BadOverallJustification)
    else
      var items := j.fields["evaluations"].items;
      if |items| != n then Fail(LengthMismatch(|items|, n))
      else
        match FirstBadItem(items, 0)
        case Some(i) => Fail(BadItem(i))
        case None => Pass
  }

  /** One graded answer; its question is given by its position. */
  datatype ItemGrade = ItemGrade(grade: int, justification: string)

  /** The structured type the grading object stands for. */
  datatype Grading = Grading(items: seq<ItemGrade>, overallGrade: int, overallJustification: string)

  function EncodeItem(i: nat, g: ItemGrade): Json {
    JObject(map["question_index" := JInt(i), "grade" := JInt(g.grade), "justification" := JString(g.justification)])
  }

  /** The grading as the JSON object the service is asked to return. */
  function Encode(g: Grading): Json {
    JObject(map[
      "evaluations" := JArray(seq(|g.items|, i requires 0 <= i < |g.items| => EncodeItem(i, g.items[i]))),
      "overall_grade" := JInt(g.overallGrade),
      "overall_justification" := JString(g.overallJustification)])
  }

  /** Reads a grading object for `n` questions; a bool grade reads as 0 or 1, as Python's `int` view of it. */
  function Decode(j: Json, n: nat): (r: Option<Grading>)
    ensures r.Some? <==> WellFormedEvaluation(j, n)
    ensures r.Some? ==> |r.value.items| == n
  {
    if ValidateEvaluation(j, n).Fail? then None
    else
      var items := j.fields["evaluations"].items;
      Some(Grading(
        seq(n, i requires 0 <= i < n =>
          ItemGrade(PyIntValue(items[i].fields["grade"]), items[i].fields["justification"].s)),
        PyIntValue(j.fields["overall_grade"]),
        j.fields["overall_justification"].s))
  }

  /** Every grading the service may be asked for passes the validator and reads back unchanged. */
  lemma DecodeEncode(g: Grading)
    ensures Decode(Encode(g), |g.items|) == Some(g)
  {
    var j := Encode(g);
    var n := |g.items|;
    var items := j.fields["evaluations"].items;
    assert forall i :: 0 <= i < n ==> items[i] == EncodeItem(i, g.items[i]);
    assert WellFormedEvaluation(j, n);
    var d := Decode(j, n).value;
    assert d.items == g.items;
  }

  /** The synthetic grading when no answer was given (lines 268-274 and 647-651). */
  function NoAnswerGrading(n: nat): Grading {
    Grading(seq(n, _ => ItemGrade(1, "Not answered")), 1, "No answers were provided for evaluation.")
  }

  function NoAnswerResult(n: nat): Json {
    Encode(NoAnswerGrading(n))
  }

  /** The synthetic result passes the same validator as a service reply, and grades every question 1, "Not answered". */
  lemma NoAnswerResultValid(n: nat)
    ensures WellFormedEvaluation(NoAnswerResult(n), n)
    ensures Decode(NoAnswerResult(n), n).Some?
    ensures var g := Decode(NoAnswerResult(n), n).value;
            g.overallGrade == 1 && |g.items| == n
            && forall i :: 0 <= i < n ==> g.items[i] == ItemGrade(1, "Not answered")
  {
    DecodeEncode(NoAnswerGrading(n));
  }

  /** The marker of an unanswered question in the transcript. */
  const NotAnsweredMarker := "--- NOT ANSWERED ---"

  /** `f"Question {i+1}: {q}\n"` */
  function QuestionLine(i: nat, q: string): string {
    "Question " + Decimal(i + 1) + ": " + q + "\n"
  }

  /** `f"Answer {i+1}: {text}\n\n"` */
  function AnswerLine(i: nat, text: string): string {
    "Answer " + Decimal(i + 1) + ": " + text + "\n\n"
  }

  /** The transcript lines of question `i`: the stripped answer, or the marker when it is blank. */
  function TranscriptEntry(i: nat, q: string, a: string): string {
    var answerText := Strip(a);
    QuestionLine(i, q) + AnswerLine(i, if answerText != "" then answerText else NotAnsweredMarker)
  }

  /** The transcript of the first `k` question/answer pairs. */
  function Transcript(questions: seq<string>, answers: seq<string>, k: nat): string
    requires k <= |questions| && k <= |answers|
  {
    if k == 0 then "" else Transcript(questions, answers, k - 1) + TranscriptEntry(k - 1, questions[k - 1], answers[k - 1])
  }

  /** Some answer among the first `k` has text once stripped. */
  predicate AnyAnswered(answers: seq<string>, k: nat)
    requires k <= |answers|
  {
    exists i :: 0 <= i < k && !IsBlank(answers[i])
  }

  /** One more answer makes the list answered exactly when that answer has text. */
  lemma AnyAnsweredStep(answers: seq<string>, i: nat)
    requires i < |answers|
    ensures AnyAnswered(answers, i + 1) <==> AnyAnswered(answers, i) || !IsBlank(answers[i])
  {
    if AnyAnswered(answers, i + 1) && IsBlank(answers[i]) {
      var j :| 0 <= j < i + 1 && !IsBlank(answers[j]);
      assert j < i;
    }
  }

  function Min(a: nat, b: nat): nat {
    if a <= b then a else b
  }

  /** One pass of the loop of lines 253-261: the lines of question `i` appended to `transcript`. */
  method AppendEntry(transcript: string, i: nat, q: string, a: string) returns (extended: string, hasText: bool)
    ensures extended == transcript + TranscriptEntry(i, q, a)
    ensures hasText <==> !IsBlank(a)
  {
    var answerText := Strip(a);
    extended := transcript + QuestionLine(i, q);
    ghost var shown := if answerText != "" then answerText else NotAnsweredMarker;
    if answerText != "" {
      extended := extended + AnswerLine(i, answerText);
    } else {
      extended := extended + AnswerLine(i, NotAnsweredMarker);
    }
    hasText := answerText != "";
    assert extended == (transcript + QuestionLine(i, q)) + AnswerLine(i, shown);
  }

  /**
   * The loop of lines 251-261 over `zip(questions, answers)`: builds the
   * transcript and notes whether any answer had text.
   */
  method BuildTranscript(questions: seq<string>, answers: seq<string>) returns (transcript: string, answered: bool)
    ensures transcript == Transcript(questions, answers, Min(|questions|, |answers|))
    ensures answered <==> AnyAnswered(answers, Min(|questions|, |answers|))
  {
    var n := Min(|questions|, |answers|);
    transcript := "";
    answered := false;
    var i := 0;
    while i < n
      invariant 0 <= i <= n
      invariant transcript == Transcript(questions, answers, i)
      invariant answered <==> AnyAnswered(answers, i)
    {
      var hasText;
      transcript, hasText := AppendEntry(transcript, i, questions[i], answers[i]);
      answered := answered || hasText;
      AnyAnsweredStep(answers, i);
      i := i + 1;
    }
  }

  /** The input guard of lines 246-248. */
  predicate EvaluationInputOk(questions: seq<string>, answers: seq<string>) {
    |questions| > 0 && |answers| > 0 && |questions| == |answers|
  }

  /**
   * What `evaluate_answers_openai` returns, given the service's reply:
   * `None` for bad input, a failed request or a rejected grading object;
   * the synthetic result when nothing was answered; the accepted object otherwise.
   */
  function EvaluationResult(questions: seq<string>, answers: seq<string>, reply: JsonReply): (r: Option<Json>)
    ensures r.Some? ==> WellFormedEvaluation(r.value, |questions|)
    ensures !EvaluationInputOk(questions, answers) ==> r.None?
    ensures EvaluationInputOk(questions, answers) && !AnyAnswered(answers, |answers|) ==>
              r == Some(NoAnswerResult(|questions|))
    ensures EvaluationInputOk(questions, answers) && AnyAnswered(answers, |answers|) ==>
              (r.Some? <==> reply.Decoded? && WellFormedEvaluation(reply.value, |questions|))
              && (r.Some? ==> r.value == reply.value)
  {
    if !EvaluationInputOk(questions, answers) then None
    else if !AnyAnswered(answers, |answers|) then
      NoAnswerResultValid(|questions|);
      Some(NoAnswerResult(|questions|))
    else
      match reply
      case Decoded(j) => if ValidateEvaluation(j, |questions|).Pass? then Some(j) else None
      case _ => None
  }

  /**
   * `evaluate_answers_openai(questions, answers, ...)`. `sent` is the
   * transcript placed in the request, `None` when no request is made.
   */
  method Evaluate(questions: seq<string>, answers: seq<string>, reply: JsonReply)
    returns (result: Option<Json>, sent: Option<string>)
    ensures result == EvaluationResult(questions, answers, reply)
    ensures sent.Some? <==> EvaluationInputOk(questions, answers) && AnyAnswered(answers, |answers|)
    ensures sent.Some? ==> sent.value == Transcript(questions, answers, |questions|)
  {
    if |questions| == 0 || |answers| == 0 || |questions| != |answers| {
      return None, None;
    }
    var transcript, answered := BuildTranscript(questions, answers);
    if !answered {
      NoAnswerResultValid(|questions|);
      return Some(NoAnswerResult(|questions|)), None;
    }
    sent := Some(transcript);
    match reply {
      case Decoded(j) =>
        var verdict := ValidateEvaluation(j, |questions|);
        result := if verdict.Pass? then Some(j) else None;
      case _ =>
        result := None;
    }
  }
}
