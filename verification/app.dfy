/**
 * The top-level router (App.tsx): which screen is shown, the exam being
 * taken, the last result, and the interface language.
 */
module App {
  import opened Wrappers
  import opened Types
  import opened Storage
  import ProgressService

  datatype ScreenName = HomeScreen | TestScreen | ResultsScreen

  datatype AppState = AppState(
    active: ScreenName,
    selectedExam: Option<Exam>,
    testResult: Option<TestResult>,
    language: Language,
    progress: Slot<Progress>)

  /** What `renderScreenComponent` draws. */
  datatype View = ShowHome | ShowTest(exam: Exam, language: Language) | ShowResults(result: TestResult) | Nothing

  function Initial(progress: Slot<Progress>): (s: AppState)
    ensures s.active == HomeScreen && s.selectedExam.None? && s.testResult.None? && s.language == En
  {
    AppState(HomeScreen, None, None, En, progress)
  }

  /** `renderScreenComponent`: a screen whose data is missing draws nothing. */
  function Render(s: AppState): (v: View)
    ensures v.Nothing? <==> (s.active == TestScreen && s.selectedExam.None?) || (s.active == ResultsScreen && s.testResult.None?)
    ensures s.active == HomeScreen ==> v == ShowHome
    ensures v.ShowTest? ==> s.selectedExam == Some(v.exam) && v.language == s.language
    ensures v.ShowResults? ==> s.testResult == Some(v.result)
  {
    match s.active
    case TestScreen => if s.selectedExam.Some? then ShowTest(s.selectedExam.value, s.language) else Nothing
    case ResultsScreen => if s.testResult.Some? then ShowResults(s.testResult.value) else Nothing
    case HomeScreen => ShowHome
  }

  /** `handleStartTest`: the exam is selected and its test is shown. */
  function StartTest(s: AppState, exam: Exam): (r: AppState)
    ensures Render(r) == ShowTest(exam, s.language)
    ensures r.testResult == s.testResult && r.progress == s.progress
  {
    s.(selectedExam := Some(exam), active := TestScreen)
  }

  /**
   * `handleTestComplete`: the result is kept and shown; with an exam
   * selected its score is saved as that exam's progress first.
   */
  function TestComplete(s: AppState, result: TestResult, writeFails: bool): (r: AppState)
    ensures Render(r) == ShowResults(result)
    ensures s.selectedExam.None? ==> r.progress == s.progress
    ensures s.selectedExam.Some? ==>
      r.progress == ProgressService.SaveProgress(s.progress, s.selectedExam.value.id, ProgressData(result.correct, result.total), writeFails)
    ensures r.selectedExam == s.selectedExam
  {
    var progress :=
      if s.selectedExam.Some?
      then ProgressService.SaveProgress(s.progress, s.selectedExam.value.id, ProgressData(result.correct, result.total), writeFails)
      else s.progress;
    s.(testResult := Some(result), progress := progress, active := ResultsScreen)
  }

  /** `handleRestart`: back home with no exam and no result. */
  function Restart(s: AppState): (r: AppState)
    ensures Render(r) == ShowHome && r.selectedExam.None? && r.testResult.None?
    ensures r.progress == s.progress && r.language == s.language
  {
    s.(selectedExam := None, testResult := None, active := HomeScreen)
  }

  /** The language button. */
  function ToggleLanguage(s: AppState): (r: AppState)
    ensures r.language != s.language && r.(language := s.language) == s
  {
    s.(language := Types.ToggleLanguage(s.language))
  }

  /** Pressing the language button twice changes nothing. */
  lemma ToggleLanguageTwice(s: AppState)
    ensures ToggleLanguage(ToggleLanguage(s)) == s
  {
    LanguageToggleInvolution(s.language);
  }

  /** Taking a test from the home screen records its score as that exam's progress (when the write succeeds). */
  lemma CompletedTestIsRecorded(s: AppState, exam: Exam, result: TestResult)
    ensures
      var done := TestComplete(StartTest(s, exam), result, false);
      var p := ProgressService.GetProgress(done.progress);
      exam.id in p && p[exam.id] == ProgressData(result.correct, result.total)
  {
    ProgressService.SaveThenGet(s.progress, exam.id, ProgressData(result.correct, result.total));
  }
}
