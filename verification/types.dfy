/** The records shared by the screens and services (types.ts). */
module Types {
  import opened Wrappers

  datatype Language = En | Ru

  /** The language toggle used by the app header and the test screen. */
  function ToggleLanguage(l: Language): (r: Language)
    ensures r != l
  {
    match l
    case En => Ru
    case Ru => En
  }

  datatype Exam = Exam(id: string, title: string, descriptionEn: string, numQuestions: nat)

  datatype Choice = Choice(id: string, textEn: string, textRu: string, isCorrect: bool)

  datatype Question = Question(id: string, examId: string, questionEn: string, questionRu: string, choices: seq<Choice>)

  /** What a finished test hands to the results screen; `duration` is in seconds. */
  datatype TestResult = TestResult(
    correct: nat,
    total: nat,
    examTitle: string,
    questions: seq<Question>,
    userAnswers: seq<Option<Choice>>,
    duration: int)

  datatype ProgressData = ProgressData(correct: nat, total: nat)

  /** Stored progress, keyed by exam id. */
  type Progress = map<string, ProgressData>

  datatype GlossaryItem = GlossaryItem(id: string, term: string, definitionEn: string, definitionRu: string, isUserDefined: bool)

  /** The signed-in user's plan fields; dates are milliseconds since the epoch. */
  datatype User = User(trialStartDate: Option<int>, lastQuestionDate: Option<int>, dailyQuestionsAnswered: Option<int>)

  /**
   * Reading slot `i` of a JavaScript array of answers: an index past the end
   * (a hole or beyond the length) reads as `undefined`, which every caller
   * treats like `null`.
   */
  function AnswerAt(answers: seq<Option<Choice>>, i: nat): (r: Option<Choice>)
    ensures i >= |answers| ==> r == None
    ensures i < |answers| ==> r == answers[i]
  {
    if i < |answers| then answers[i] else None
  }

  /** An answer counts as correct iff it is present and its choice is marked correct. */
  predicate IsCorrectAnswer(a: Option<Choice>) {
    a.Some? && a.value.isCorrect
  }

  /** `answers.filter(a => a?.is_correct).length`. */
  function CountCorrect(answers: seq<Option<Choice>>): (n: nat)
    ensures n <= |answers|
  {
    if |answers| == 0 then 0
    else (if IsCorrectAnswer(answers[0]) then 1 else 0) + CountCorrect(answers[1..])
  }

  lemma {:induction false} LanguageToggleInvolution(l: Language)
    ensures ToggleLanguage(ToggleLanguage(l)) == l
  {
    match l
    case En =>
    case Ru =>
  }
}
