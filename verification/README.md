# NEC 2023 quiz app — a verified model of its rules

The NEC 2023 quiz app is a single-page study tool for the 2023 National Electrical Code. It has three services:

- a quiz runner that serves shuffled practice or exam questions from a spreadsheet back end;
- a glossary with flashcards;
- a formula reference.

Behind the React screens it keeps a number of small deterministic rules. This project models those rules in Dafny, one module per source file, as immutable records with pure transition functions:

- the test runner's state machine: answers, navigation, timer, interruption snapshot and scoring;
- grading, the results screen and the encoding of a saved result;
- the home screen's access gate, search, fixed-category grouping, overall progress and colour bands;
- question selection: the Fisher–Yates shuffle, the prefix and the caches;
- the progress store and the glossary store, with browser storage modelled as per-key slots;
- the glossary screen's filter and flashcards;
- the login screen's email check, code sanitiser and resend cooldown;
- the feedback modal's flow;
- the formula table and its search;
- the app router;
- the theme hook.

Modules `Wrappers`, `Types`, `Seqs`, `Text`, `Percent` and `Storage` hold the shared vocabulary:

- `Option`/`Result`;
- the records of `types.ts`;
- order-preserving filtering, and keeping the present values of a list of look-ups;
- JavaScript's `trim`, `toLowerCase`, `includes` and `||` on strings;
- `Math.round(c / t * 100)` as exact-arithmetic rounding, the integer formula `(200c + t) / (2t)`; it can exceed the app's floating-point result by one on near-half ratios (23/40: the app shows 57, the formula gives 58);
- a storage slot that is `Absent`, `Corrupt` (does not parse) or `Stored`.

Inputs are explicit parameters:

- an HTTP response or a reply, for each network call;
- a fresh id, where the code calls `uuidv4`;
- `now` and a fixed time-zone offset, where it reads the clock;
- an elapsed duration, for practice mode;
- `writeFails`, where a storage write may throw.

The random choice in the shuffle is Dafny's nondeterministic `:|`.

Where the code behaves unexpectedly, the model follows the code:

- The code parses the stored glossary with `JSON.parse` and does not catch a failure on the read path, so a stored glossary that does not parse makes `getGlossaryTerms` return `[]` and makes `addGlossaryTerm` fail in both branches. `GlossaryService.UserTerms` models this as `None`. It is not treated as an absent list.
- A cached exam list or glossary that is empty is still "loaded", because `[]` is truthy in JavaScript. A response whose `data` is missing leaves the cache unset.
- `x?.id || null` reads a choice whose id is the empty string as "no selection". `TestSession.SelectedId` and `Sheets.ResponseFor` keep that.

## Model

| member | source | states |
|---|---|---|
| TestSession.InitialTime | components/TestScreen.tsx:335 | the clock starts at the override unless it is missing or zero; otherwise 14400 s in exam mode and TIME_PER_QUESTION in practice |
| TestSession.Init | components/TestScreen.tsx:330-341 | first render: pre-loaded questions skip loading; index 0, no answers, not paused, nothing selected; the state invariant holds |
| TestSession.Load | components/TestScreen.tsx:351-382 | a stored snapshot with questions is restored field for field; otherwise the fetched list is taken with one empty answer per question; a session not loading is untouched; the invariant holds after loading |
| TestSession.OnQuestionChange | components/TestScreen.tsx:432-440 | on a question change the display language returns to English; practice mode restarts the per-question clock, exam mode keeps it; nothing else changes |
| TestSession.Mount | components/TestScreen.tsx:330-440 | mounting over a valid snapshot store yields a loaded session satisfying the invariant |
| TestSession.Persist | components/TestScreen.tsx:385-394 | once loaded and non-empty, the snapshot {questions, index, answers, timeLeft} is stored under the exam id; other exams' snapshots are untouched; store validity is preserved |
| TestSession.WriteAnswer | components/TestScreen.tsx:450-452 | writing slot i sets exactly that slot (padding holes when past the end) and leaves every other slot's reading unchanged |
| TestSession.SelectedId | components/TestScreen.tsx:495 | a selection exists iff an answer exists with a non-empty id, and then it is that id |
| TestSession.GoTo | components/TestScreen.tsx:490-501 | moving to question i restores the selection from its stored answer; practice mode also restores wasCorrect and pauses iff answered; exam mode keeps the result flag, pause and clock |
| TestSession.HandleAnswer | components/TestScreen.tsx:443-460 | a practice question already answered is locked; otherwise only the current slot changes and every other slot is untouched; practice reveals correctness and pauses; the invariant is kept |
| TestSession.Score | components/TestScreen.tsx:472 | the score never exceeds the number of questions |
| TestSession.Finish | components/TestScreen.tsx:462-484 | the result's correct count is the number of correct answers, at most the total; exam duration is 14400 − timeLeft; the exam's snapshot is removed and the others kept |
| TestSession.Next | components/TestScreen.tsx:487-506 | Next moves to index+1 when there is one and finishes otherwise; the index stays in bounds |
| TestSession.Prev | components/TestScreen.tsx:508-524 | Prev on the first question changes nothing; otherwise it moves back one with the same restoring; the index stays in bounds |
| TestSession.Tick | components/TestScreen.tsx:397-420 | the clock loses exactly one second only when loaded, non-empty, unpaused and positive; at zero exam mode finishes, practice marks an unanswered question wrong with an empty selection and pauses without storing an answer |
| TestSession.TogglePause | components/TestScreen.tsx:526-529 | the pause flips and nothing else changes |
| TestSession.ToggleDisplayLanguage | components/TestScreen.tsx:673 | the display language flips and the clock pauses; nothing else changes |
| TestSession.Swipe | components/TestScreen.tsx:591-602 | a left swipe beyond 50 px acts as Next only in exam mode or once answered; a right swipe acts as Prev; a short drag does nothing |
| TestSession.View | components/TestScreen.tsx:715-718 | exam mode never shows the card as answered or reveals correctness; practice shows answered iff a result exists; last-question flag iff index + 1 = n |
| TestSession.StepSession | components/TestScreen.tsx:443-529 | any single event keeps the invariant and the question list; a finishing event scores at most the total and clears the snapshot |
| TestSession.RunKeepsInvariant | components/TestScreen.tsx:385-529 | over any run of events the index stays in bounds, the questions never change and every saved snapshot is valid; a finished run scores at most n and leaves no snapshot |
| TestSession.SnapshotRoundTrip | components/TestScreen.tsx:360-394 | remounting over the snapshot saved for a session restores its questions, index and answers; exam mode keeps the clock, practice restarts it |
| TestSession.NextThenPrev | components/TestScreen.tsx:487-524 | Next then Prev returns to the same question with its selection restored and the answers unchanged |
| Types.AnswerAt | components/TestScreen.tsx:494 | reading an answer slot beyond the end yields no answer |
| Types.CountCorrect | components/TestScreen.tsx:472 | the number of correct answers is at most the number of slots |
| Types.ToggleLanguage | App.tsx:71 | the language toggle always changes the language |
| Types.LanguageToggleInvolution | App.tsx:71 | toggling the language twice is the identity |
| Percent.RoundedPercent | components/ResultsScreen.tsx:127 | 0 for an empty test; otherwise the integer nearest to 100·correct/total, halves rounded up (exact-arithmetic rounding; can exceed the float result by one on near-half ratios) |
| Percent.RoundedPercentAtMost100 | components/ResultsScreen.tsx:127 | a score of at most the total rounds to at most 100 |
| Percent.RoundedPercentMonotonic | components/ResultsScreen.tsx:127 | more correct answers never lower the rounded percentage |
| Percent.RoundedPercentEnds | components/ResultsScreen.tsx:127 | all correct shows exactly 100, none correct exactly 0 |
| Results.Percentage | components/ResultsScreen.tsx:127 | 0 for an empty test; otherwise the integer nearest to 100·correct/total, halves rounded up, and at most 100 when correct ≤ total |
| Results.FeedbackFor | components/ResultsScreen.tsx:138-143 | the four bands are total and disjoint: ≥90, [70,90), [50,70), <50 |
| Results.FeedbackMonotonic | components/ResultsScreen.tsx:138-143 | a higher percentage never earns a lower band |
| Results.ConfettiInitiallyVisible | components/ResultsScreen.tsx:129 | confetti starts visible iff the band is Excellent, that is the percentage is at least 90 |
| Results.ItemCorrect | components/ResultsScreen.tsx:22-29 | a row shows a tick iff its answer is present and correct; unanswered rows show a cross |
| Results.WrongPositionsFrom | components/ResultsScreen.tsx:67 | the positions answered (non-null) and not correct, each exactly once, in increasing order |
| Results.WrongQuestions | components/ResultsScreen.tsx:67 | the wrong list holds, entry by entry, the question at each wrongly answered position in increasing position order, and nothing else |
| Results.Summarize | components/ResultsScreen.tsx:67-73 | no wrong answers gives the fixed congratulation and no model call; otherwise the model is asked about the non-empty wrong list |
| Results.RowsPartition | components/ResultsScreen.tsx:22-29 | every row is exactly one of correct, answered-wrong or unanswered |
| Results.TicksMatchResult | components/ResultsScreen.tsx:198-200 | the number of ticks on the review list equals the result's correct count |
| Sheets.FetchData | services/sheetsService.ts:5-22 | a non-OK status fails before the body is read; success yields `data`; otherwise it fails with the server's non-empty error or "Unknown error from server" |
| Sheets.FetchQuestions | services/sheetsService.ts:32-48 | a missing or empty topic gives [] with no request; otherwise one request with the default limit 10, and a missing payload gives [] |
| Sheets.ResponseFor | services/sheetsService.ts:71-75 | a response keeps the question id; its selection is the answer's id, or none when unanswered or the id is empty; it is correct iff the answer is |
| Sheets.BuildPayload | services/sheetsService.ts:64-76 | the user and exam ids are passed through, scorePct is the rounded percentage, passed iff the unrounded percentage is at least 70, and the k-th response is the one for the k-th question and its answer |
| Sheets.PassedShowsAtLeast70 | services/sheetsService.ts:65-70 | a passing record always shows a rounded score of at least 70 |
| Sheets.RoundedSeventyNotPassed | services/sheetsService.ts:65-70 | the converse fails: 139 of 200 shows 70 yet is not passed |
| Sheets.ResponsesCountScore | services/sheetsService.ts:71-75 | the responses marked correct number exactly the correct answers |
| QuizService.Shuffle | services/quizService.ts:12-19 | the shuffle returns a permutation: same length, same multiset |
| QuizService.SliceTo | services/quizService.ts:72 | `slice(0, end)` is a prefix of length min(end, n), and a negative end counts back from the length |
| QuizService.SlicePathsAgree | services/quizService.ts:70-89 | the cached path's slice and the fresh path's min-bounded slice agree for every limit |
| QuizService.GetExams | services/quizService.ts:24-46 | a loaded list is served from the cache with no request; otherwise a fetched list is cached; a failure returns [] and leaves the cache unset |
| QuizService.FindExam | services/quizService.ts:57 | a found exam is the first in the list with the requested id; not found means no exam has that id (or there is no list) |
| QuizService.GetQuestions | services/quizService.ts:53-97 | unknown exam gives []; the result is drawn from the topic's pool without extra duplicates and has length min(limit, n); an empty fetch is not cached, a non-empty one is cached under the title |
| QuizService.ClearCache | services/quizService.ts:102-106 | both caches are emptied |
| QuizService.ClearCacheRefetches | services/quizService.ts:102-105 | after clearing, the exam list is requested again |
| QuizService.GetExamsServesFirstSuccess | services/quizService.ts:27-38 | after the first successful fetch every later call is served from the cache without a request |
| ProgressService.GetProgress | services/progressService.ts:8-16 | the stored map, or {} when nothing is stored or it does not parse |
| ProgressService.SaveProgress | services/progressService.ts:21-29 | a failed write changes nothing; otherwise the entry for the id becomes the result and every other entry is unchanged |
| ProgressService.SaveThenGet | services/progressService.ts:8-25 | reading back after a save yields exactly the saved result |
| ProgressService.SaveOverwrites | services/progressService.ts:21-25 | saving twice under one id equals saving the second result: results overwrite |
| ProgressService.SavesCommute | services/progressService.ts:21-25 | saves under different ids commute |
| GlossaryService.UserTerms | services/glossaryService.ts:26-27 | an absent list reads as [], a stored one as itself, and one that does not parse as a failure |
| GlossaryService.LoadApiTerms | services/glossaryService.ts:16-23 | a loaded cache is used with no request; otherwise a failure caches [] and a success caches the data |
| GlossaryService.GetGlossaryTerms | services/glossaryService.ts:13-35 | the glossary is the cached API terms followed by the user's terms, each in order; an unreadable user list gives [] |
| GlossaryService.FromApi | services/glossaryService.ts:45-51 | a created term takes each field from the answer when non-empty, else the fresh id, the typed term or ""; it is user-defined |
| GlossaryService.Fallback | services/glossaryService.ts:69-75 | the fallback term is the typed term with empty definitions, a fresh id and the user-defined flag |
| GlossaryService.AddFallback | services/glossaryService.ts:66-83 | the fallback appends exactly one term to a readable user list and leaves the cache alone; an unreadable list fails with nothing changed |
| GlossaryService.AddGlossaryTerm | services/glossaryService.ts:39-84 | as written: a success appends the term to the user list and also pushes it onto a loaded API cache; a failed or empty answer takes the fallback |
| GlossaryService.AddGlossaryTermFixed | services/glossaryService.ts:39-84 | corrected: the API cache is never changed; success appends exactly one term to the user list |
| GlossaryService.ResetGlossary | services/glossaryService.ts:86-88 | after a reset the user list reads as [] and the cache is kept |
| GlossaryService.ResetLeavesApiTerms | services/glossaryService.ts:26-30 | after a reset the glossary is exactly the API terms |
| GlossaryService.ApiFailureNotRetried | services/glossaryService.ts:16-22 | a failed API load caches [] and the next load makes no request |
| GlossaryService.AddedTermListedTwice | services/glossaryService.ts:54-63 | with the cache loaded, a successful add makes the refreshed glossary list the new term two more times than before |
| GlossaryService.AddedTermListedTwiceExample | services/glossaryService.ts:54-63 | adding "Ampacity" to an empty, loaded glossary lists it twice |
| GlossaryService.AddFixedListsOnce | services/glossaryService.ts:58-63 | with the correction, the refreshed glossary is the old one followed by the new term once |
| GlossaryScreen.Initial | components/GlossaryScreen.tsx:16-43 | the screen starts loading, empty, on the dictionary tab, on card 0 unflipped, with the modal closed |
| GlossaryScreen.Load | components/GlossaryScreen.tsx:21-27 | loading shows the merged glossary and ends loading without moving the card or the search |
| GlossaryScreen.Definition | components/GlossaryScreen.tsx:70 | the definition searched is the one in the current language |
| GlossaryScreen.FilteredData | components/GlossaryScreen.tsx:68-71 | the filter is an order-preserving sub-list keeping an item, with all its repetitions, iff the lower-cased search occurs in its term or current-language definition |
| GlossaryScreen.EmptySearchShowsAll | components/GlossaryScreen.tsx:68-71 | an empty search keeps every item |
| GlossaryScreen.SearchIgnoresCase | components/GlossaryScreen.tsx:68-71 | searching is insensitive to the case of the search text |
| GlossaryScreen.CurrentCard | components/GlossaryScreen.tsx:174-175 | a card is shown iff the index is inside the data, and it is one of the items; no data shows nothing |
| GlossaryScreen.Flip | components/GlossaryScreen.tsx:184 | flipping changes the side and not the card |
| GlossaryScreen.NextCard | components/GlossaryScreen.tsx:224-227 | next wraps last→0 and otherwise adds 1, always unflipped, and keeps the index in range |
| GlossaryScreen.PrevCard | components/GlossaryScreen.tsx:210-213 | prev wraps 0→last and otherwise subtracts 1, always unflipped, and keeps the index in range |
| GlossaryScreen.NextThenPrevCard | components/GlossaryScreen.tsx:210-227 | prev after next returns to the same card, unflipped |
| GlossaryScreen.PrevThenNextCard | components/GlossaryScreen.tsx:210-227 | next after prev returns to the same card, unflipped |
| GlossaryScreen.NextTimesIndex | components/GlossaryScreen.tsx:224-227 | k presses of next move the index to (i + k) mod n |
| GlossaryScreen.FullRoundReturns | components/GlossaryScreen.tsx:224-227 | n presses of next return to the starting card |
| GlossaryScreen.AfterAdd | components/GlossaryScreen.tsx:51-64 | after the service call adding ends false; success re-reads the glossary, closes the modal and clears all three fields; a failure keeps the form and the service's state |
| GlossaryScreen.HandleAddTerm | components/GlossaryScreen.tsx:45-65 | over `addGlossaryTerm` as written: an empty term does nothing; otherwise adding ends false; with a readable user list the add succeeds, the list is refreshed, the modal closes and all three fields clear; otherwise the form stays and the user list is unchanged |
| GlossaryScreen.AddTermListedTwice | components/GlossaryScreen.tsx:51-54 | with the API terms loaded and an answer holding data, the refreshed list is the API terms, the new term, the user's terms and the new term again |
| GlossaryScreen.HandleAddTermFixed | components/GlossaryScreen.tsx:45-65 | the same screen over the corrected service call; a failure changes nothing |
| GlossaryScreen.AddTermListsItOnce | components/GlossaryScreen.tsx:51-54 | over the corrected call, a successful add refreshes the list to the old list plus the new term once |
| Login.Initial | components/LoginScreen.tsx:11-16 | the screen starts on the email step with empty fields, no cooldown and no error |
| Login.HasInnerDot | components/LoginScreen.tsx:25 | true iff a dot occurs at or after the start position and before the last character |
| Login.ValidateEmail | components/LoginScreen.tsx:25 | an accepted address contains '@' and does not start with it |
| Login.ValidateEmailMatchesPattern | components/LoginScreen.tsx:25 | the check accepts exactly a non-empty run without whitespace or '@', then '@', then such a run, '.', and such a run |
| Login.CleanEmail | components/LoginScreen.tsx:36 | the cleaned email is no longer than the input and has no whitespace at either end |
| Login.SanitizeCode | components/LoginScreen.tsx:28 | the code is the first (at most) six of the input's digits, in order |
| Login.SanitizeCodeIdempotent | components/LoginScreen.tsx:28 | sanitising twice equals sanitising once |
| Login.TickCooldown | components/LoginScreen.tsx:21 | a positive cooldown decreases, a non-negative one stays non-negative, nothing else changes |
| Login.TickTimesCountsDown | components/LoginScreen.tsx:18-22 | after k ticks the cooldown is max(c − k, 0) |
| Login.ResendOpensAfterCooldown | components/LoginScreen.tsx:160 | from a fresh 60 s cooldown, resend is enabled after k ticks iff k ≥ 60 |
| Login.OnRequestCode | components/LoginScreen.tsx:33-51 | an invalid cleaned email sets the error and sends nothing; otherwise the cleaned email is sent; only a successful send moves to the code step and starts the 60 s cooldown; a failure shows the server's message or the default |
| Login.OnVerify | components/LoginScreen.tsx:54-71 | a trimmed code whose length is not 6 sets the error without a request; otherwise the cleaned email and code are sent; login succeeds iff the server verifies |
| Login.ChangeEmail | components/LoginScreen.tsx:170 | changing email returns to the email step, keeping the email and the cooldown |
| Login.TypedCodeReachesServer | components/LoginScreen.tsx:27-63 | typing any text holding at least six digits yields a code that verification sends |
| FeedbackModal.Initial | components/FeedbackModal.tsx:15-18 | nothing selected, empty comment, not submitting, no comment input |
| FeedbackModal.Send | components/FeedbackModal.tsx:49-64 | the submission is sent; success calls onSuccess (if given) and then onClose; failure only clears submitting |
| FeedbackModal.ResetAfterClose | components/FeedbackModal.tsx:55-60 | the delayed reset returns the modal to its initial state |
| FeedbackModal.OtherClick | components/FeedbackModal.tsx:41-44 | "other" is selected and the comment input shown, without sending |
| FeedbackModal.OptionSelect | components/FeedbackModal.tsx:77-97 | "other" only opens the comment input; a predefined option is sent at once with an empty comment; failure leaves the modal open |
| FeedbackModal.SetComment | components/FeedbackModal.tsx:195 | typing changes the comment only |
| FeedbackModal.BackToOptions | components/FeedbackModal.tsx:202 | going back hides the comment input and keeps the selection and comment |
| FeedbackModal.HandleSubmit | components/FeedbackModal.tsx:46-65 | with no selection nothing happens; otherwise the selection and comment are sent |
| FeedbackModal.SuccessClosesLast | components/FeedbackModal.tsx:51-53 | after a successful send onClose is the last callback, preceded by onSuccess exactly when it is given |
| FeedbackModal.OtherThenSubmitSendsComment | components/FeedbackModal.tsx:41-51 | choosing "other", typing a comment and submitting sends "other" with that comment |
| FeedbackModal.PredefinedSendsNoComment | components/FeedbackModal.tsx:81-84 | each of the six predefined options sends its id with an empty comment |
| Formulas.Flatten | data/formulasData.ts:512-514 | the flattened list's length is the sum of the category sizes and it starts with the first category's formulas |
| Formulas.FlattenMembership | data/formulasData.ts:512-514 | a formula is in the flattened list iff it is in some category |
| Formulas.GetAllFormulas | data/formulasData.ts:512-514 | all formulas number the sum of the table's category sizes |
| Formulas.TableConsistent | data/formulasData.ts:19-509 | in the table as written every formula's category is the id of the category that contains it |
| Formulas.AllFormulasHaveKnownCategory | data/formulasData.ts:19-514 | every formula's category names a category of the table |
| Formulas.SearchFormulas | data/formulasData.ts:517-525 | the result is an order-preserving sub-list of all formulas keeping one iff the lower-cased query occurs in its name, formula or description |
| Formulas.EmptyQueryReturnsAll | data/formulasData.ts:517-525 | the empty query returns every formula |
| Formulas.SearchIgnoresReferenceAndCategory | data/formulasData.ts:519-523 | two formulas that differ only in reference or category match the same queries |
| Home.WholeDays | components/HomeScreen.tsx:305 | whole days elapsed is the floor of milliseconds over a day |
| Home.UsedToday | components/HomeScreen.tsx:313-318 | the questions used today are the stored count (or 0) only when the last question fell on today's local day, otherwise 0 |
| Home.AccessGate | components/HomeScreen.tsx:294-327 | no user: no access, limit 30; trial active iff a start date exists and fewer than 7 whole days passed, with 7 − days remaining; canTakeTest iff trial or used < 30 |
| Home.TrialLastsSevenDays | components/HomeScreen.tsx:303-310 | the trial is active iff less than seven days of milliseconds have passed since its start |
| Home.NewDayResetsUsage | components/HomeScreen.tsx:313-325 | on a new local day a signed-in user can always take a test |
| Home.DailyLimitBlocks | components/HomeScreen.tsx:312-325 | outside the trial, on the day of the last question, a test is allowed iff fewer than 30 were answered |
| Home.FilteredExams | components/HomeScreen.tsx:362-366 | an empty search returns all exams; otherwise an order-preserving sub-list keeping an exam, with all its repetitions, iff its lower-cased title contains the lower-cased search |
| Home.LastWithTitle | components/HomeScreen.tsx:369 | the title map finds an exam iff one has that title, and then the last such exam |
| Home.ExamsWithTitles | components/HomeScreen.tsx:369-373 | a category lists no more exams than it declares titles, only matched exams whose title it declares, each being the last exam holding that title |
| Home.ExamsWithTitlesComplete | components/HomeScreen.tsx:369-373 | every declared title that some matched exam carries is listed |
| Home.ExamsFollowTitleOrder | components/HomeScreen.tsx:370-373 | within a category, exams follow the category's declared title order |
| Home.AllGroups | components/HomeScreen.tsx:370-374 | one group per category, in the fixed order, each holding that category's matched exams |
| Home.CategorizeWith | components/HomeScreen.tsx:368-376 | the shown groups are an order-preserving sub-list of all groups with every empty group dropped |
| Home.Categorize | components/HomeScreen.tsx:368-376 | with the fixed categories, every shown group is non-empty and shows only matched exams |
| Home.ShownExamsAreListed | components/HomeScreen.tsx:368-376 | every shown exam was matched and its title is declared by its group's category |
| Home.UncategorizedNeverShown | components/HomeScreen.tsx:56-376 | an exam whose title no category declares is never shown |
| Home.ListedExamsShown | components/HomeScreen.tsx:368-376 | an exam whose title a category declares is represented in that category's shown group |
| Home.SumQuestions | components/HomeScreen.tsx:355 | the total possible is at least each exam's question count |
| Home.SumCorrectAfterSave | components/HomeScreen.tsx:356 | saving a result changes the total correct by the new count minus the replaced one |
| Home.ComputeOverall | components/HomeScreen.tsx:354-359 | totals are the sums of question counts and stored correct counts; the shown percentage is 0 with no questions, else the rounded ratio |
| Home.TopicPercent | components/HomeScreen.tsx:134-135 | no progress entry shows 0; otherwise the rounded ratio, with JavaScript's Infinity and NaN for zero questions |
| Home.TopicColour | components/HomeScreen.tsx:137-142 | green iff above 70, yellow iff 40 to 70, red otherwise (NaN compares false and is red) |
| Home.NoProgressIsRed | components/HomeScreen.tsx:134-142 | a topic with no progress is red |
| Home.ColourMonotonic | components/HomeScreen.tsx:137-142 | more correct answers never lower a topic's colour band |
| Home.AutoOpen | components/HomeScreen.tsx:378-384 | a non-empty search with results opens the first group; an empty search closes all; otherwise the open group stays |
| Home.ToggleAccordion | components/HomeScreen.tsx:528 | clicking a header opens it iff it was not the open one, and closes it otherwise |
| Home.ToggleTwice | components/HomeScreen.tsx:528 | clicking the same header twice restores the state |
| App.Initial | App.tsx:19-22 | the app starts on home with no exam, no result and English |
| App.Render | App.tsx:45-64 | the test screen with no exam and the results screen with no result render nothing; otherwise the screen for the active state |
| App.StartTest | App.tsx:26-29 | starting a test shows the test screen for that exam |
| App.TestComplete | App.tsx:31-37 | completing shows the result and, when an exam is selected, saves {correct, total} under its id |
| App.Restart | App.tsx:39-43 | restart clears exam and result and shows home, keeping progress and language |
| App.ToggleLanguage | App.tsx:71 | the header toggle flips the language and nothing else |
| App.ToggleLanguageTwice | App.tsx:71 | toggling twice is the identity |
| App.CompletedTestIsRecorded | App.tsx:31-37 | after completing a test, the stored progress reads back the result's counts under the exam id |
| Theme.Name | hooks/useTheme.ts:4 | a theme's name is "light" or "dark", distinct per theme |
| Theme.InitialTheme | hooks/useTheme.ts:7-16 | a stored "dark" or "light" wins; otherwise the system preference; with no storage, light |
| Theme.Toggle | hooks/useTheme.ts:25-27 | toggling always changes the theme |
| Theme.ToggleInvolution | hooks/useTheme.ts:25-27 | toggling twice is the identity |
| Theme.Apply | hooks/useTheme.ts:18-23 | after the effect the root has the theme's class and not the other, other classes are kept, and the stored theme is the current one |
| Theme.StoredThemeRestored | hooks/useTheme.ts:9-22 | a reload after the effect starts with the same theme |

## Left out

- Rendering, animation and styling: JSX, framer-motion, Tailwind classes, icons, `Card`, `Toast`, `Confetti` geometry, the progress bar and SVG dash offsets. None of these decides anything the model states.
- The results-loading overlay, `navigator.vibrate` and the image modal. They are browser side effects.
- Timer scheduling: `setInterval`/`setTimeout`, the Next-button delays, the search debounce and the confetti timeout. The clock is an integer that ticks by one, and a search takes effect at once.
- The Next button's visibility (`showNextButton`), which only follows those delays.
- Date parsing. Dates are millisecond instants, and the local calendar day uses a fixed time-zone offset, so daylight-saving changes are not modelled.
- JSON parsing and serialisation. A stored value either parses to its record or is `Corrupt`.
- Network calls, `userService`, the generative-AI summary request and `uuidv4`. Their results are parameters.
- Floating-point display values. Where the app shows a fraction it is kept as an exact ratio or as the integer rounding formula.
- RoundedPercent: rounds the exact ratio, not the IEEE double `c / t * 100`, so on near-half ratios (23/40, 46/80, 29/200, 57/200, ...) it is one above what the app shows. Modelling double arithmetic is out of scope.
- Percentage: inherits the RoundedPercent gap; the score shown can be one lower than the value stated on near-half ratios.
- BuildPayload: scorePct inherits the RoundedPercent gap on near-half ratios; `passed` is exact, as in the app.
- TopicPercent: the finite percentage inherits the RoundedPercent gap on near-half ratios.
- ComputeOverall: the overall percentage inherits the RoundedPercent gap on near-half ratios.
- `TIME_PER_QUESTION` and `QUESTIONS_PER_TEST`: the constants module is not part of this model. The model uses positive stand-ins (60 and 10), and nothing proved depends on their values.
- TestSession.Load: a fetch that throws inside the load effect is not modelled. `getQuestions` catches every failure and returns `[]`.
- TestSession.Load: a snapshot field that is missing is not modelled. A stored snapshot always carries all four fields.
- TestSession.Finish: the practice-mode duration is taken as a given `elapsed` value. It is not computed from `Date.now()`.
- The feedback submission that the test screen builds for the sheet is not modelled. It is a network call with the current question's text.
- The glossary screen's tab switch and modal open/close buttons. They set a single field.
- The glossary screen's own definition inputs: `handleAddTerm` clears them but never sends them.
- Storage write failures in the glossary store.
- `handleOptionClick` in the feedback modal: it is defined but nothing calls it.
- Unicode case mapping beyond Latin, Latin-1 and Cyrillic letters. `Text.Lower` lower-cases only those ranges.
- Formulas.TableConsistent: it is proved for the 57 formulas as transcribed. Non-ASCII symbols are written as escapes.
- Home.Categorize: that the fixed category table declares no title twice is not proved. The order lemma `Home.ExamsFollowTitleOrder` is stated for any duplicate-free title list.
- The "Other" comment's trim rule for the submit button is a predicate (`FeedbackModal.SubmitDisabled`), with no separate lemma.

## Findings

| source | as written | input that shows it | evidently intended | confidence | as-written member | corrected member |
|---|---|---|---|---|---|---|
| services/glossaryService.ts:54-63 | a successful add pushes the new term onto the loaded API cache and also appends it to the stored user list, and the glossary is the cache followed by the user list | a loaded, empty glossary with no user terms; add "Ampacity" with an answer holding no fields; the refreshed glossary lists the term twice | the new term is listed once, after the existing terms | not executed | GlossaryService.AddedTermListedTwiceExample | GlossaryService.AddFixedListsOnce |
