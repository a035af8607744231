/**
 * The quiz runner (components/TestScreen.tsx) as a record with pure
 * transition functions: answering, next/previous navigation, the
 * one-second timer tick, pause and language toggles, swipes, finishing and
 * the interruption snapshot saved after every change.
 */
module TestSession {
  import opened Wrappers
  import opened Types

  /**
   * TIME_PER_QUESTION, in seconds. The constants module is not part of this
   * model; nothing proved here depends on the value beyond its being positive.
   */
  const TimePerQuestion: nat := 60

  /** QUESTIONS_PER_TEST, the limit passed when the runner fetches its questions. */
  const QuestionsPerTest: nat := 10

  /** The exam-emulation clock: four hours, in seconds. */
  const ExamSeconds: nat := 14400

  /** Horizontal drag distance, in pixels, beyond which a drag counts as a swipe. */
  const SwipeThreshold: int := 50

  datatype Mode = Practice | ExamMode

  /**
   * The runner's state. `selected` is `selectedChoiceId` (`null` is `None`),
   * `wasCorrect` is `null` until a practice question is answered or times
   * out, `language` is the per-question display language.
   */
  datatype Session = Session(
    exam: Exam,
    mode: Mode,
    loading: bool,
    questions: seq<Question>,
    index: nat,
    answers: seq<Option<Choice>>,
    timeLeft: int,
    paused: bool,
    wasCorrect: Option<bool>,
    selected: Option<string>,
    language: Language)

  /** What is saved under the exam id after every change, and read back on reload. */
  datatype Snapshot = Snapshot(questions: seq<Question>, currentIndex: nat, userAnswers: seq<Option<Choice>>, timeLeft: int)

  type SnapshotStore = map<string, Snapshot>

  /** The result of a transition that may end the test. */
  datatype Outcome = Stay(session: Session) | Finished(result: TestResult, store: SnapshotStore)

  /** What the question card is told. */
  datatype CardView = CardView(answered: bool, wasCorrect: Option<bool>, isLastQuestion: bool)

  /**
   * The state invariant: the index stays inside the question list (and at 0
   * when the list is empty), and no answer lies beyond the last question.
   */
  predicate Valid(s: Session) {
    && (|s.questions| == 0 ==> s.index == 0)
    && (|s.questions| > 0 ==> s.index < |s.questions|)
    && |s.answers| <= |s.questions|
  }

  predicate ValidSnapshot(snap: Snapshot) {
    snap.currentIndex < |snap.questions| && |snap.userAnswers| <= |snap.questions|
  }

  /** Every stored snapshot is one a valid session could have written. */
  predicate StoreValid(store: SnapshotStore) {
    forall id :: id in store ==> ValidSnapshot(store[id])
  }

  /** `timerDuration || (mode === 'exam' ? 14400 : TIME_PER_QUESTION)`: a zero override falls back too. */
  function InitialTime(mode: Mode, timerDuration: Option<int>): (t: int)
    ensures timerDuration.Some? && timerDuration.value != 0 ==> t == timerDuration.value
    ensures (timerDuration.None? || timerDuration.value == 0) ==> t == (if mode == ExamMode then ExamSeconds else TimePerQuestion)
  {
    if timerDuration.Some? && timerDuration.value != 0 then timerDuration.value
    else if mode == ExamMode then ExamSeconds
    else TimePerQuestion
  }

  /** The component's first render: pre-loaded questions skip loading; answers start empty. */
  function Init(exam: Exam, mode: Mode, initialQuestions: Option<seq<Question>>, timerDuration: Option<int>): (s: Session)
    ensures Valid(s)
    ensures s.loading <==> initialQuestions.None?
    ensures s.index == 0 && s.answers == [] && !s.paused && s.wasCorrect == None && s.selected == None
  {
    Session(exam, mode, initialQuestions.None?, initialQuestions.GetOr([]), 0, [],
            InitialTime(mode, timerDuration), false, None, None, En)
  }

  /**
   * The loading effect: restore the snapshot stored under the exam id when it
   * holds questions, otherwise take the freshly fetched list with one empty
   * answer slot per question. A session that is not loading is left alone.
   */
  function Load(s: Session, store: SnapshotStore, fetched: seq<Question>): (r: Session)
    ensures !r.loading
    ensures !s.loading ==> r == s
    ensures s.loading && s.exam.id in store && |store[s.exam.id].questions| > 0 ==>
      var snap := store[s.exam.id];
      r.questions == snap.questions && r.index == snap.currentIndex
      && r.answers == snap.userAnswers && r.timeLeft == snap.timeLeft
    ensures s.loading && !(s.exam.id in store && |store[s.exam.id].questions| > 0) ==>
      r.questions == fetched && r.index == s.index && |r.answers| == |fetched|
      && (forall i :: 0 <= i < |fetched| ==> r.answers[i] == None)
    ensures s.loading && s.index == 0 && StoreValid(store) ==> Valid(r)
    ensures r.exam == s.exam && r.mode == s.mode
  {
    if !s.loading then s
    else if s.exam.id in store && |store[s.exam.id].questions| > 0 then
      var snap := store[s.exam.id];
      s.(loading := false, questions := snap.questions, index := snap.currentIndex,
         answers := snap.userAnswers, timeLeft := snap.timeLeft)
    else
      s.(loading := false, questions := fetched, answers := seq(|fetched|, _ => None))
  }

  /**
   * The question-change effect: the display language returns to English and,
   * in practice mode only, the per-question clock restarts.
   */
  function OnQuestionChange(s: Session): (r: Session)
    ensures r.language == En
    ensures s.mode == Practice ==> r.timeLeft == TimePerQuestion
    ensures s.mode == ExamMode ==> r.timeLeft == s.timeLeft
    ensures r.questions == s.questions && r.index == s.index && r.answers == s.answers
    ensures r.paused == s.paused && r.wasCorrect == s.wasCorrect && r.selected == s.selected
    ensures r.mode == s.mode && r.exam == s.exam && r.loading == s.loading
  {
    s.(language := En, timeLeft := if s.mode == Practice then TimePerQuestion else s.timeLeft)
  }

  /** Mounting the runner: first render, load or restore, then the question-change effect. */
  function Mount(exam: Exam, mode: Mode, initialQuestions: Option<seq<Question>>, timerDuration: Option<int>,
                 store: SnapshotStore, fetched: seq<Question>): (s: Session)
    ensures StoreValid(store) ==> Valid(s)
    ensures !s.loading && s.exam == exam && s.mode == mode
  {
    OnQuestionChange(Load(Init(exam, mode, initialQuestions, timerDuration), store, fetched))
  }

  /** The persistence effect: once loaded and non-empty, every state is saved under the exam id. */
  function Persist(store: SnapshotStore, s: Session): (r: SnapshotStore)
    ensures !s.loading && |s.questions| > 0 ==>
      s.exam.id in r && r[s.exam.id] == Snapshot(s.questions, s.index, s.answers, s.timeLeft)
    ensures s.loading || |s.questions| == 0 ==> r == store
    ensures forall id :: id != s.exam.id ==> (id in r <==> id in store) && (id in r ==> r[id] == store[id])
    ensures StoreValid(store) && Valid(s) ==> StoreValid(r)
  {
    if !s.loading && |s.questions| > 0 then
      store[s.exam.id := Snapshot(s.questions, s.index, s.answers, s.timeLeft)]
    else store
  }

  /** `answers[i] = choice` on a JavaScript array: writing past the end leaves holes before slot `i`. */
  function WriteAnswer(answers: seq<Option<Choice>>, i: nat, c: Choice): (r: seq<Option<Choice>>)
    ensures AnswerAt(r, i) == Some(c)
    ensures forall j: nat :: j != i ==> AnswerAt(r, j) == AnswerAt(answers, j)
    ensures |r| == if i < |answers| then |answers| else i + 1
  {
    if i < |answers| then answers[i := Some(c)]
    else answers + seq(i - |answers|, _ => None) + [Some(c)]
  }

  /** `answer?.id || null`: a missing answer, or a choice whose id is empty, selects nothing. */
  function SelectedId(a: Option<Choice>): (r: Option<string>)
    ensures r.Some? <==> a.Some? && a.value.id != ""
    ensures r.Some? ==> r.value == a.value.id
  {
    if a.Some? && a.value.id != "" then Some(a.value.id) else None
  }

  /**
   * Moving to question `i`: the selection is restored from the stored answer
   * and, in practice mode, so are `wasCorrect` and the pause (an answered
   * question stays paused); then the question-change effect runs.
   */
  function GoTo(s: Session, i: nat): (r: Session)
    ensures r.index == i && r.questions == s.questions && r.answers == s.answers
    ensures r.selected == SelectedId(AnswerAt(s.answers, i))
    ensures s.mode == Practice ==>
      r.wasCorrect == (if AnswerAt(s.answers, i).Some? then Some(AnswerAt(s.answers, i).value.isCorrect) else None)
      && r.paused == AnswerAt(s.answers, i).Some?
      && r.timeLeft == TimePerQuestion
    ensures s.mode == ExamMode ==> r.wasCorrect == s.wasCorrect && r.paused == s.paused && r.timeLeft == s.timeLeft
    ensures r.language == En && r.mode == s.mode && r.exam == s.exam && r.loading == s.loading
  {
    var a := AnswerAt(s.answers, i);
    var moved := s.(index := i, selected := SelectedId(a));
    var restored :=
      if s.mode == Practice then
        moved.(wasCorrect := if a.Some? then Some(a.value.isCorrect) else None, paused := a.Some?)
      else moved;
    OnQuestionChange(restored)
  }

  /**
   * Choosing an answer. In practice mode a question already answered (or
   * timed out) is locked. Otherwise the choice is selected and stored at the
   * current index only; practice mode also reveals whether it was right and
   * pauses the clock.
   */
  function HandleAnswer(s: Session, c: Choice): (r: Session)
    ensures s.mode == Practice && s.wasCorrect.Some? ==> r == s
    ensures !(s.mode == Practice && s.wasCorrect.Some?) ==>
      && AnswerAt(r.answers, s.index) == Some(c)
      && (forall j: nat :: j != s.index ==> AnswerAt(r.answers, j) == AnswerAt(s.answers, j))
      && r.selected == Some(c.id)
      && r.index == s.index && r.questions == s.questions && r.timeLeft == s.timeLeft
    ensures s.mode == Practice && s.wasCorrect.None? ==> r.wasCorrect == Some(c.isCorrect) && r.paused
    ensures s.mode == ExamMode ==> r.wasCorrect == s.wasCorrect && r.paused == s.paused
    ensures Valid(s) && |s.questions| > 0 ==> Valid(r)
  {
    if s.mode == Practice && s.wasCorrect.Some? then s
    else
      var written := s.(selected := Some(c.id), answers := WriteAnswer(s.answers, s.index, c));
      if s.mode == Practice then written.(wasCorrect := Some(c.isCorrect), paused := true)
      else written
  }

  /** `userAnswers.filter(a => a?.is_correct).length` out of `questions.length`. */
  function Score(s: Session): (correct: nat)
    ensures Valid(s) ==> correct <= |s.questions|
  {
    CountCorrect(s.answers)
  }

  /**
   * Finishing: the snapshot is cleared and the result carries the score, the
   * question count and, in exam mode, the seconds used of the four-hour
   * clock. `elapsed` is the practice-mode wall-clock duration, which the
   * model takes as given.
   */
  function Finish(s: Session, store: SnapshotStore, elapsed: int): (o: Outcome)
    ensures o.Finished?
    ensures o.result.correct == CountCorrect(s.answers) && o.result.total == |s.questions|
    ensures Valid(s) ==> o.result.correct <= o.result.total
    ensures o.result.questions == s.questions && o.result.userAnswers == s.answers
    ensures o.result.examTitle == s.exam.title
    ensures s.mode == ExamMode ==> o.result.duration == ExamSeconds - s.timeLeft
    ensures s.mode == Practice ==> o.result.duration == elapsed
    ensures s.exam.id !in o.store
    ensures forall id :: id != s.exam.id ==> (id in o.store <==> id in store) && (id in o.store ==> o.store[id] == store[id])
  {
    var duration := if s.mode == ExamMode then ExamSeconds - s.timeLeft else elapsed;
    Finished(TestResult(Score(s), |s.questions|, s.exam.title, s.questions, s.answers, duration),
             store - {s.exam.id})
  }

  /** Next: move to the following question if there is one, otherwise finish. */
  function Next(s: Session, store: SnapshotStore, elapsed: int): (o: Outcome)
    ensures s.index + 1 < |s.questions| ==> o == Stay(GoTo(s, s.index + 1))
    ensures s.index + 1 >= |s.questions| ==> o == Finish(s, store, elapsed)
    ensures Valid(s) && o.Stay? ==> Valid(o.session)
  {
    if s.index + 1 < |s.questions| then Stay(GoTo(s, s.index + 1))
    else Finish(s, store, elapsed)
  }

  /** Previous: nothing happens on the first question; otherwise move back one. */
  function Prev(s: Session): (r: Session)
    ensures s.index == 0 ==> r == s
    ensures s.index > 0 ==> r == GoTo(s, s.index - 1)
    ensures Valid(s) ==> Valid(r)
  {
    if s.index > 0 then GoTo(s, s.index - 1) else s
  }

  /**
   * One second of the timer effect. Nothing runs while loading, without
   * questions or while paused. At zero the exam ends in exam mode; in
   * practice mode an unanswered question is marked wrong with an empty
   * selection and the clock pauses, without storing an answer. Otherwise the
   * clock loses exactly one second.
   */
  function Tick(s: Session, store: SnapshotStore, elapsed: int): (o: Outcome)
    ensures s.loading || |s.questions| == 0 || s.paused ==> o == Stay(s)
    ensures !s.loading && |s.questions| > 0 && !s.paused && s.timeLeft > 0 ==>
      o == Stay(s.(timeLeft := s.timeLeft - 1))
    ensures !s.loading && |s.questions| > 0 && !s.paused && s.timeLeft <= 0 && s.mode == ExamMode ==>
      o == Finish(s, store, elapsed)
    ensures !s.loading && |s.questions| > 0 && !s.paused && s.timeLeft <= 0 && s.mode == Practice ==>
      && o.Stay? && o.session.answers == s.answers && o.session.index == s.index
      && (s.wasCorrect.None? ==> o.session.wasCorrect == Some(false) && o.session.selected == Some("") && o.session.paused)
      && (s.wasCorrect.Some? ==> o.session == s)
    ensures Valid(s) && o.Stay? ==> Valid(o.session)
  {
    if s.loading || |s.questions| == 0 || s.paused then Stay(s)
    else if s.timeLeft <= 0 then
      if s.mode == ExamMode then Finish(s, store, elapsed)
      else if s.wasCorrect.None? then Stay(s.(wasCorrect := Some(false), selected := Some(""), paused := true))
      else Stay(s)
    else Stay(s.(timeLeft := s.timeLeft - 1))
  }

  /** The pause button flips the pause and nothing else. */
  function TogglePause(s: Session): (r: Session)
    ensures r.paused != s.paused && r == s.(paused := r.paused)
  {
    s.(paused := !s.paused)
  }

  /** The header language button flips the display language and pauses the clock. */
  function ToggleDisplayLanguage(s: Session): (r: Session)
    ensures r.language != s.language && r.paused
    ensures r == s.(language := r.language, paused := true)
  {
    s.(language := ToggleLanguage(s.language), paused := true)
  }

  /**
   * A drag released `offset` pixels sideways. A left swipe goes to the next
   * question only in exam mode or once the practice question is answered; a
   * right swipe goes back; a short drag does nothing.
   */
  function Swipe(s: Session, offset: int, store: SnapshotStore, elapsed: int): (o: Outcome)
    ensures offset < -SwipeThreshold && (s.mode == ExamMode || s.wasCorrect.Some?) ==> o == Next(s, store, elapsed)
    ensures offset < -SwipeThreshold && s.mode == Practice && s.wasCorrect.None? ==> o == Stay(s)
    ensures offset > SwipeThreshold ==> o == Stay(Prev(s))
    ensures -SwipeThreshold <= offset <= SwipeThreshold ==> o == Stay(s)
    ensures Valid(s) && o.Stay? ==> Valid(o.session)
  {
    if offset < -SwipeThreshold then
      if s.mode == ExamMode || s.wasCorrect.Some? then Next(s, store, elapsed) else Stay(s)
    else if offset > SwipeThreshold then Stay(Prev(s))
    else Stay(s)
  }

  /** What the card sees: exam mode never reveals whether the current answer was right. */
  function View(s: Session): (v: CardView)
    ensures s.mode == ExamMode ==> !v.answered && v.wasCorrect == None
    ensures s.mode == Practice ==> (v.answered <==> s.wasCorrect.Some?) && v.wasCorrect == s.wasCorrect
    ensures v.isLastQuestion <==> s.index + 1 == |s.questions|
  {
    if s.mode == Practice then CardView(s.wasCorrect.Some?, s.wasCorrect, s.index + 1 == |s.questions|)
    else CardView(false, None, s.index + 1 == |s.questions|)
  }

  /** The user and clock events the runner reacts to. */
  datatype Event = AnswerEvent(choice: Choice) | NextEvent | PrevEvent | TickEvent | PauseEvent | LanguageEvent | SwipeEvent(offset: int)

  /**
   * A run of events from a session: the test either goes on, with the
   * snapshot store after the last event, or ends with a result.
   */
  datatype Run = Running(session: Session, store: SnapshotStore) | Done(result: TestResult, store: SnapshotStore)

  function RunEvents(s: Session, store: SnapshotStore, events: seq<Event>, elapsed: int): Run
    decreases |events|
  {
    if |events| == 0 then Running(s, store)
    else
      var o := StepSession(s, store, events[0], elapsed);
      match o
      case Stay(s') => RunEvents(s', Persist(store, s'), events[1..], elapsed)
      case Finished(result, store') => Done(result, store')
  }

  /** One event without persistence. */
  function StepSession(s: Session, store: SnapshotStore, e: Event, elapsed: int): (o: Outcome)
    ensures Valid(s) && |s.questions| > 0 && o.Stay? ==>
      Valid(o.session) && o.session.questions == s.questions && o.session.mode == s.mode
      && o.session.exam == s.exam && o.session.loading == s.loading
    ensures o.Finished? ==> o.result.correct == CountCorrect(s.answers) && o.result.total == |s.questions| && s.exam.id !in o.store
  {
    match e
    case AnswerEvent(c) => Stay(HandleAnswer(s, c))
    case NextEvent => Next(s, store, elapsed)
    case PrevEvent => Stay(Prev(s))
    case TickEvent => Tick(s, store, elapsed)
    case PauseEvent => Stay(TogglePause(s))
    case LanguageEvent => Stay(ToggleDisplayLanguage(s))
    case SwipeEvent(offset) => Swipe(s, offset, store, elapsed)
  }

  /**
   * Over any run of events from a loaded, valid session with questions and a
   * valid snapshot store: the index stays in bounds, the question list never
   * changes, every snapshot saved is valid, and a finished run scores at most
   * the number of questions and leaves no snapshot behind.
   */
  lemma {:induction false} RunKeepsInvariant(s: Session, store: SnapshotStore, events: seq<Event>, elapsed: int)
    requires Valid(s) && |s.questions| > 0 && !s.loading && StoreValid(store)
    ensures RunEvents(s, store, events, elapsed).Running? ==>
      var run := RunEvents(s, store, events, elapsed);
      Valid(run.session) && run.session.questions == s.questions && StoreValid(run.store)
    ensures RunEvents(s, store, events, elapsed).Done? ==>
      var run := RunEvents(s, store, events, elapsed);
      run.result.correct <= run.result.total == |s.questions| && s.exam.id !in run.store
    decreases |events|
  {
    if |events| > 0 {
      var o := StepSession(s, store, events[0], elapsed);
      if o.Stay? {
        var s' := o.session;
        RunKeepsInvariant(s', Persist(store, s'), events[1..], elapsed);
      }
    }
  }

  /**
   * Reloading after an interruption: mounting the runner again over the
   * snapshot saved for a loaded session brings back its questions, position
   * and answers; exam mode also keeps the clock, while practice mode restarts
   * the per-question clock.
   */
  lemma SnapshotRoundTrip(s: Session, store: SnapshotStore, timerDuration: Option<int>, fetched: seq<Question>)
    requires !s.loading && |s.questions| > 0
    ensures
      var m := Mount(s.exam, s.mode, None, timerDuration, Persist(store, s), fetched);
      && m.questions == s.questions && m.index == s.index && m.answers == s.answers
      && (s.mode == ExamMode ==> m.timeLeft == s.timeLeft)
      && (s.mode == Practice ==> m.timeLeft == TimePerQuestion)
  {
  }

  /** Going forward and then back returns to the same question with its answer's selection restored. */
  lemma NextThenPrev(s: Session, store: SnapshotStore, elapsed: int)
    requires s.index + 1 < |s.questions|
    ensures Next(s, store, elapsed).Stay?
    ensures
      var back := Prev(Next(s, store, elapsed).session);
      back.index == s.index && back.answers == s.answers
      && back.selected == SelectedId(AnswerAt(s.answers, s.index))
  {
  }
}
