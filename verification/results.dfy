/**
 * The results screen (components/ResultsScreen.tsx): the rounded
 * percentage, the feedback band, the confetti flag, per-item correctness and
 * the list of wrongly answered questions sent for an AI summary.
 */
module Results {
  import opened Wrappers
  import opened Types
  import opened Seqs
  import Percent

  datatype Feedback = Excellent | GreatJob | GoodEffort | KeepPracticing

  /** The summary panel's next step: show a fixed text, or ask the model about these questions. */
  datatype SummaryAction = ShowText(text: string) | AskModel(wrong: seq<Question>)

  const CongratulationText: string := "Congratulations! You answered all questions correctly. No summary needed."

  /**
   * The score shown: `Math.round(correct / total * 100)`, 0 for an empty test,
   * rounded in exact arithmetic (halves up).
   */
  function Percentage(r: TestResult): (p: nat)
    ensures r.total == 0 ==> p == 0
    ensures r.total > 0 ==> 2 * r.total * p <= 200 * r.correct + r.total < 2 * r.total * (p + 1)
    ensures r.correct <= r.total ==> p <= 100
  {
    if r.correct <= r.total then
      Percent.RoundedPercentAtMost100(r.correct, r.total);
      Percent.RoundedPercent(r.correct, r.total)
    else Percent.RoundedPercent(r.correct, r.total)
  }

  /** The band for a percentage: at least 90, at least 70, at least 50, anything lower. */
  function FeedbackFor(p: int): (f: Feedback)
    ensures f == Excellent <==> p >= 90
    ensures f == GreatJob <==> 70 <= p < 90
    ensures f == GoodEffort <==> 50 <= p < 70
    ensures f == KeepPracticing <==> p < 50
  {
    if p >= 90 then Excellent
    else if p >= 70 then GreatJob
    else if p >= 50 then GoodEffort
    else KeepPracticing
  }

  function Rank(f: Feedback): nat {
    match f
    case KeepPracticing => 0
    case GoodEffort => 1
    case GreatJob => 2
    case Excellent => 3
  }

  /** A higher score never earns a lower band. */
  lemma FeedbackMonotonic(p: int, q: int)
    requires p <= q
    ensures Rank(FeedbackFor(p)) <= Rank(FeedbackFor(q))
  {
  }

  /** The confetti starts visible exactly when the score is excellent. */
  function ConfettiInitiallyVisible(r: TestResult): (v: bool)
    ensures v <==> FeedbackFor(Percentage(r)) == Excellent
  {
    Percentage(r) >= 90
  }

  /** A result row shows a tick iff the answer is present and correct; an unanswered question shows a cross. */
  function ItemCorrect(answer: Option<Choice>): (ok: bool)
    ensures answer.None? ==> !ok
    ensures ok <==> IsCorrectAnswer(answer)
  {
    answer.Some? && answer.value.isCorrect
  }

  /** Answered and wrong: the questions the summary is about. */
  predicate AnsweredWrong(answer: Option<Choice>) {
    answer.Some? && !answer.value.isCorrect
  }

  /**
   * The positions from `from` on whose answer is present and wrong, in
   * increasing order: the contract fixes the sequence exactly, as it lists
   * every such position, only such positions, and in strictly increasing order.
   */
  function WrongPositionsFrom(questions: seq<Question>, answers: seq<Option<Choice>>, from: nat): (idx: seq<nat>)
    requires from <= |questions|
    ensures forall k :: 0 <= k < |idx| ==> from <= idx[k] < |questions| && AnsweredWrong(AnswerAt(answers, idx[k]))
    ensures forall k, l :: 0 <= k < l < |idx| ==> idx[k] < idx[l]
    ensures forall i :: from <= i < |questions| && AnsweredWrong(AnswerAt(answers, i)) ==> i in idx
    decreases |questions| - from
  {
    if from == |questions| then []
    else
      var rest := WrongPositionsFrom(questions, answers, from + 1);
      if AnsweredWrong(AnswerAt(answers, from)) then [from] + rest else rest
  }

  /**
   * `questions.filter((q, i) => userAnswers[i] && !userAnswers[i].is_correct)`,
   * from position `from` on: the questions at the wrongly answered positions,
   * one for each position, in position order.
   */
  function WrongFrom(questions: seq<Question>, answers: seq<Option<Choice>>, from: nat): (w: seq<Question>)
    requires from <= |questions|
    ensures |w| == |WrongPositionsFrom(questions, answers, from)|
    ensures forall k :: 0 <= k < |w| ==> w[k] == questions[WrongPositionsFrom(questions, answers, from)[k]]
    ensures SubsequenceOf(w, questions[from..])
    ensures |w| == CountWrongFrom(questions, answers, from)
    ensures forall q :: q in w ==> exists i :: from <= i < |questions| && questions[i] == q && AnsweredWrong(AnswerAt(answers, i))
    decreases |questions| - from
  {
    if from == |questions| then []
    else
      var rest := WrongFrom(questions, answers, from + 1);
      assert questions[from..][1..] == questions[from + 1..];
      if AnsweredWrong(AnswerAt(answers, from)) then [questions[from]] + rest else rest
  }

  /** How many of the positions from `from` on hold an answered-wrong question. */
  function CountWrongFrom(questions: seq<Question>, answers: seq<Option<Choice>>, from: nat): nat
    requires from <= |questions|
    decreases |questions| - from
  {
    if from == |questions| then 0
    else (if AnsweredWrong(AnswerAt(answers, from)) then 1 else 0) + CountWrongFrom(questions, answers, from + 1)
  }

  /** The questions sent for a summary: exactly those at wrongly answered positions, in order. */
  function WrongQuestions(questions: seq<Question>, answers: seq<Option<Choice>>): (w: seq<Question>)
    ensures |w| == |WrongPositionsFrom(questions, answers, 0)|
    ensures forall k :: 0 <= k < |w| ==> w[k] == questions[WrongPositionsFrom(questions, answers, 0)[k]]
    ensures SubsequenceOf(w, questions)
    ensures |w| == CountWrongFrom(questions, answers, 0)
    ensures forall q :: q in w ==> exists i :: 0 <= i < |questions| && questions[i] == q && AnsweredWrong(AnswerAt(answers, i))
  {
    assert questions[0..] == questions;
    WrongFrom(questions, answers, 0)
  }

  /** An empty wrong list shows the fixed congratulation and makes no model call. */
  function Summarize(questions: seq<Question>, answers: seq<Option<Choice>>): (a: SummaryAction)
    ensures a.ShowText? <==> CountWrongFrom(questions, answers, 0) == 0
    ensures a.ShowText? ==> a.text == CongratulationText
    ensures a.AskModel? ==> a.wrong == WrongQuestions(questions, answers) && |a.wrong| > 0
  {
    var wrong := WrongQuestions(questions, answers);
    if |wrong| == 0 then ShowText(CongratulationText) else AskModel(wrong)
  }

  /** The number of correct rows shown from position `from` on. */
  function CountCorrectFrom(questions: seq<Question>, answers: seq<Option<Choice>>, from: nat): nat
    requires from <= |questions|
    decreases |questions| - from
  {
    if from == |questions| then 0
    else (if ItemCorrect(AnswerAt(answers, from)) then 1 else 0) + CountCorrectFrom(questions, answers, from + 1)
  }

  /** The number of unanswered rows from position `from` on. */
  function CountUnansweredFrom(questions: seq<Question>, answers: seq<Option<Choice>>, from: nat): nat
    requires from <= |questions|
    decreases |questions| - from
  {
    if from == |questions| then 0
    else (if AnswerAt(answers, from).None? then 1 else 0) + CountUnansweredFrom(questions, answers, from + 1)
  }

  /** Every row is exactly one of correct, answered-wrong or unanswered. */
  lemma {:induction false} RowsPartition(questions: seq<Question>, answers: seq<Option<Choice>>, from: nat)
    requires from <= |questions|
    ensures CountCorrectFrom(questions, answers, from) + CountWrongFrom(questions, answers, from)
            + CountUnansweredFrom(questions, answers, from) == |questions| - from
    decreases |questions| - from
  {
    if from < |questions| {
      RowsPartition(questions, answers, from + 1);
    }
  }

  /**
   * The ticks on the results screen add up to the score the runner reported:
   * the runner counts correct answers over the whole answer list, the screen
   * over the question rows, and these agree when no answer lies beyond the
   * last question.
   */
  lemma {:induction false} TicksMatchScore(questions: seq<Question>, answers: seq<Option<Choice>>, from: nat)
    requires from <= |questions| && |answers| <= |questions|
    ensures CountCorrectFrom(questions, answers, from) == (if from < |answers| then CountCorrect(answers[from..]) else 0)
    decreases |questions| - from
  {
    if from < |questions| {
      TicksMatchScore(questions, answers, from + 1);
      if from < |answers| {
        assert answers[from..][1..] == answers[from + 1..];
      }
    }
  }

  /** The result screen's ticks equal the result's `correct` field for a result the runner produced. */
  lemma TicksMatchResult(r: TestResult)
    requires r.correct == CountCorrect(r.userAnswers) && |r.userAnswers| <= |r.questions|
    ensures CountCorrectFrom(r.questions, r.userAnswers, 0) == r.correct
  {
    TicksMatchScore(r.questions, r.userAnswers, 0);
    if |r.userAnswers| > 0 {
      assert r.userAnswers[0..] == r.userAnswers;
    }
  }
}
