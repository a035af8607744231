/**
 * The spreadsheet API client (services/sheetsService.ts): the
 * `{success, data | error}` envelope rule, the question-fetch guard and the
 * test-result payload.
 */
module Sheets {
  import opened Wrappers
  import opened Types
  import Percent

  /** The JSON body every endpoint answers with; `data` and `error` may be missing. */
  datatype Envelope<T> = Envelope(success: bool, data: Option<T>, error: Option<string>)

  /** An HTTP response: its status and, when it has one, its parsed body. */
  datatype HttpResponse<T> = HttpResponse(ok: bool, status: int, body: Envelope<T>)

  /** Why a request threw. */
  datatype FetchError = HttpStatus(status: int) | ServerError(message: string)

  const UnknownServerError: string := "Unknown error from server"

  /** The query string of a `getQuestions` request. */
  datatype QuestionsQuery = QuestionsQuery(topic: string, limit: int)

  /**
   * `fetchData`: a non-OK status throws before the body is looked at; a body
   * whose `success` is false throws with its error text, or a fixed text when
   * that is missing or empty; otherwise its `data` (possibly missing) is returned.
   */
  function FetchData<T>(resp: HttpResponse<T>): (r: Result<Option<T>, FetchError>)
    ensures !resp.ok ==> r == Err(HttpStatus(resp.status))
    ensures resp.ok && resp.body.success ==> r == Ok(resp.body.data)
    ensures resp.ok && !resp.body.success ==> r.Err? && r.error.ServerError? && r.error.message != ""
    ensures resp.ok && !resp.body.success && resp.body.error.Some? && resp.body.error.value != "" ==>
      r == Err(ServerError(resp.body.error.value))
    ensures resp.ok && !resp.body.success && (resp.body.error.None? || resp.body.error.value == "") ==>
      r == Err(ServerError(UnknownServerError))
  {
    if !resp.ok then Err(HttpStatus(resp.status))
    else if !resp.body.success then
      var e := resp.body.error;
      Err(ServerError(if e.Some? && e.value != "" then e.value else UnknownServerError))
    else Ok(resp.body.data)
  }

  /** A call that may or may not have reached the network. */
  datatype Call<Q, T> = Call(request: Option<Q>, result: Result<T, FetchError>)

  /**
   * `fetchQuestions(topic, limit = 10)`: a missing or empty topic returns []
   * without a request; otherwise the request carries the topic and the limit
   * (10 when none is given) and a missing `data` becomes [].
   */
  function FetchQuestions(topic: Option<string>, limit: Option<int>, resp: HttpResponse<seq<Question>>): (c: Call<QuestionsQuery, seq<Question>>)
    ensures topic.None? || topic.value == "" ==> c == Call(None, Ok([]))
    ensures topic.Some? && topic.value != "" ==>
      c.request == Some(QuestionsQuery(topic.value, limit.GetOr(10)))
      && (FetchData(resp).Err? ==> c.result == Err(FetchData(resp).error))
      && (FetchData(resp).Ok? ==> c.result == Ok(FetchData(resp).value.GetOr([])))
  {
    if topic.None? || topic.value == "" then Call(None, Ok([]))
    else
      var request := QuestionsQuery(topic.value, limit.GetOr(10));
      match FetchData(resp)
      case Err(e) => Call(Some(request), Err(e))
      case Ok(data) => Call(Some(request), Ok(data.GetOr([])))
  }

  /** One answered-or-not question in the saved payload. */
  datatype Response = Response(qId: string, selectedChoiceId: Option<string>, isCorrect: bool)

  datatype Payload = Payload(userId: string, examId: string, scorePct: nat, passed: bool, responses: seq<Response>)

  /** `total > 0 ? correct / total * 100 : 0 >= 70`, on the unrounded percentage. */
  predicate Passed(correct: nat, total: nat) {
    total > 0 && 100 * correct >= 70 * total
  }

  /** One response: `answer?.id || null` and `answer?.is_correct || false`. */
  function ResponseFor(q: Question, a: Option<Choice>): (r: Response)
    ensures r.qId == q.id
    ensures a.None? ==> r.selectedChoiceId == None && !r.isCorrect
    ensures r.isCorrect <==> IsCorrectAnswer(a)
    ensures r.selectedChoiceId.Some? <==> a.Some? && a.value.id != ""
    ensures r.selectedChoiceId.Some? ==> r.selectedChoiceId.value == a.value.id
  {
    Response(q.id, if a.Some? && a.value.id != "" then Some(a.value.id) else None, a.Some? && a.value.isCorrect)
  }

  function ResponsesFrom(questions: seq<Question>, answers: seq<Option<Choice>>, from: nat): (rs: seq<Response>)
    requires from <= |questions|
    ensures |rs| == |questions| - from
    ensures forall k :: 0 <= k < |rs| ==> rs[k] == ResponseFor(questions[from + k], AnswerAt(answers, from + k))
    decreases |questions| - from
  {
    if from == |questions| then []
    else [ResponseFor(questions[from], AnswerAt(answers, from))] + ResponsesFrom(questions, answers, from + 1)
  }

  /**
   * The `saveTestResult` payload: the rounded score, the pass flag and one
   * response per question, in order.
   */
  function BuildPayload(userId: string, examId: string, result: TestResult): (p: Payload)
    ensures p.userId == userId && p.examId == examId
    ensures p.scorePct == Percent.RoundedPercent(result.correct, result.total)
    ensures p.passed <==> Passed(result.correct, result.total)
    ensures |p.responses| == |result.questions|
    ensures forall k :: 0 <= k < |p.responses| ==>
      p.responses[k].qId == result.questions[k].id
      && (AnswerAt(result.userAnswers, k).None? ==> p.responses[k].selectedChoiceId == None && !p.responses[k].isCorrect)
      && (p.responses[k].isCorrect <==> IsCorrectAnswer(AnswerAt(result.userAnswers, k)))
    ensures forall k :: 0 <= k < |p.responses| ==>
      p.responses[k] == ResponseFor(result.questions[k], AnswerAt(result.userAnswers, k))
  {
    Payload(userId, examId, Percent.RoundedPercent(result.correct, result.total),
            Passed(result.correct, result.total), ResponsesFrom(result.questions, result.userAnswers, 0))
  }

  /** A passing record always shows a rounded score of at least 70. */
  lemma {:induction false} PassedShowsAtLeast70(correct: nat, total: nat)
    requires Passed(correct, total)
    ensures Percent.RoundedPercent(correct, total) >= 70
  {
    var p := Percent.RoundedPercent(correct, total);
    if p < 70 {
      Percent.MulMonotonic(2 * total, p + 1, 70);
      assert false;
    }
  }

  /**
   * The converse fails: 139 of 200 is 69.5 percent, which rounds to a score
   * of 70, yet the record says not passed.
   */
  lemma RoundedSeventyNotPassed()
    ensures Percent.RoundedPercent(139, 200) == 70 && !Passed(139, 200)
  {
  }

  /** How many responses are marked correct. */
  function CountCorrectResponses(rs: seq<Response>): nat {
    if |rs| == 0 then 0 else (if rs[0].isCorrect then 1 else 0) + CountCorrectResponses(rs[1..])
  }

  /**
   * The responses marked correct in the payload number exactly the result's
   * score, for a result the runner produced (no answer beyond the last question).
   */
  lemma {:induction false} ResponsesCountScore(questions: seq<Question>, answers: seq<Option<Choice>>, from: nat)
    requires from <= |questions| && |answers| <= |questions|
    ensures CountCorrectResponses(ResponsesFrom(questions, answers, from))
            == (if from < |answers| then CountCorrect(answers[from..]) else 0)
    decreases |questions| - from
  {
    if from < |questions| {
      ResponsesCountScore(questions, answers, from + 1);
      var rs := ResponsesFrom(questions, answers, from);
      assert rs[1..] == ResponsesFrom(questions, answers, from + 1);
      if from < |answers| {
        assert answers[from..][1..] == answers[from + 1..];
      }
    }
  }
}
