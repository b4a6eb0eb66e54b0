# QuizPro scoring, analytics and quiz editing in Dafny

QuizPro lets an administrator build quizzes of single-choice and multi-select
questions, each option with a point value. Respondents take a quiz and submit
it, and the administrator reviews analytics. This project models the logic
behind those three screens, and proves what that logic promises.

- **Taking a quiz** (`quiz_taker.dfy`, module `QuizTaker`) covers:
  - the selection state, a map from question id to the selected option ids;
  - the click handler: replace the selection for a single-choice question, toggle the id for a multi-select one;
  - the maximum possible score. A single-choice question contributes its best option, floored at 0. A multi-select question contributes the sum of its positive scores;
  - the submit loop, which scores every selected id and records one answer per id.

  The three loops (`CalculateMaxScore`, and the nested `ScoreAnswers` and `ScoreSelection`) are `method`s, each proved against a recursive specification function. The lemmas prove:
  - two clicks on the same multi-select option restore the set of selected ids (the id moves to the end of the list);
  - clicks keep selections well formed;
  - scores and answers are additive;
  - answers have the right length and membership;
  - the achieved score never exceeds the maximum;
  - the maximum is actually reachable.
- **Dashboard** (`dashboard.dfy`, module `Dashboard`) covers:
  - filtering submissions by the selected quiz;
  - their count and their average in tenths of a point;
  - the per-option count of submissions that selected the option;
  - the displayed percentage.

  `Math.round` is computed exactly, by integer arithmetic, with halves rounded toward +infinity.
- **Quiz editor** (`quiz_editor.dfy`, module `QuizEditor`) covers:
  - the save guard;
  - the question-list edits, which build a new list;
  - the option edits, which change the shared question object in place.

  `Editor` is a class holding a sequence of `QuestionRecord` objects. A ghost `doc: Quiz` field holds the document they stand for. Each method is specified by a pure function on `Quiz` or `Question` values. Each such function has its own "only this element changed" contract.
- **Types** (`types.dfy`, module `QuizTypes`) holds the records of `types.ts` as datatypes.
  - The `type` tag of a question is named `kind`.
  - snake_case fields are camelCase.
  - `Lookup<T>` stands for a possibly absent value (`null`, or a `find` that matched nothing).

## Model

| member | source | states |
|---|---|---|
| QuizTaker.Without | pages/QuizTaker.tsx:31 | filtering an id out leaves every other id with its multiplicity and removes all occurrences of that id; the order of the kept ids is fixed by `WithoutSnoc` and `WithoutAppend` |
| QuizTaker.WithoutSnoc | pages/QuizTaker.tsx:31 | filtering a list with one more id at the end keeps that id at the end, unless it is the dropped id |
| QuizTaker.WithoutAppend | pages/QuizTaker.tsx:31 | filtering distributes over concatenation: `Without(a + b, x) == Without(a, x) + Without(b, x)`, so the kept ids stay in their order |
| QuizTaker.WithoutAbsent | pages/QuizTaker.tsx:31 | filtering out an id that is not selected returns the list unchanged |
| QuizTaker.Toggle | pages/QuizTaker.tsx:30-34 | the clicked id is in the new list iff it was not in the old one; an absent id is appended at the end; other ids keep their multiplicity; a list without repeats stays without repeats |
| QuizTaker.ToggleTwice | pages/QuizTaker.tsx:30-34 | toggling the same id twice restores the set of selected ids, and restores the exact list when the id was not selected |
| QuizTaker.HandleSelect | pages/QuizTaker.tsx:23-37 | only the clicked question's entry changes (a missing entry counts as empty); single gives exactly `[optionId]`; multi gives the toggle of the current list |
| QuizTaker.Selected | pages/QuizTaker.tsx:25 | a definition without a contract of its own: the empty-list default for a question with no entry. HandleSelect and TotalScoreReadsOnlyQuizQuestions state its effect; the same default is read at pages/QuizTaker.tsx:63 |
| QuizTaker.HandleSelectTwice | pages/QuizTaker.tsx:24-35 | two clicks on the same multi-select option leave that question's selected ids as they were |
| QuizTaker.HandleSelectKeepsWellFormed | pages/QuizTaker.tsx:24-35 | with unique question ids, a click with the question's own type keeps at most one id on every single question and no repeats on every multi question |
| QuizTaker.HighestScore | pages/QuizTaker.tsx:44 | the single-question ceiling is at least 0, at least every option score, and either 0 or the score of some option, so it equals max(0, best score) |
| QuizTaker.PositiveSum | pages/QuizTaker.tsx:49 | the multi-question ceiling is at least 0 and at least every single option score |
| QuizTaker.QuestionMax | pages/QuizTaker.tsx:42-51 | a definition without a contract of its own: the per-type ceiling. MaxScore, CalculateMaxScore and BestIdsReachQuestionMax carry its properties |
| QuizTaker.MaxScore | pages/QuizTaker.tsx:39-53 | the maximum score of a quiz is never negative |
| QuizTaker.MaxScoreAppend | pages/QuizTaker.tsx:41-52 | the ceilings of two question lists add up |
| QuizTaker.CalculateMaxScore | pages/QuizTaker.tsx:39-54 | the accumulating loop returns the sum of per-question ceilings, which is at least 0 |
| QuizTaker.FindOption | pages/QuizTaker.tsx:65 | nothing is found iff no option carries the id; a found option is one of the question's and carries the id; the first option carrying the id is the one found |
| QuizTaker.FindOptionDistinct | pages/QuizTaker.tsx:65 | with unique option ids, the lookup of an option's id finds that option |
| QuizTaker.OptionScore | pages/QuizTaker.tsx:65-68 | an id that matches no option of the question adds 0; an id that matches adds the score of the first option carrying it |
| QuizTaker.SelectionScore | pages/QuizTaker.tsx:64-68 | a definition without a contract of its own: the inner accumulation over one question's selected ids. ScoreSelection, SelectionScoreSplit, SelectionScoreWithinPositiveSum and SelectionScoreWithinHighest carry its properties |
| QuizTaker.AnswersFor | pages/QuizTaker.tsx:64-70 | one answer per selected id, in selection order, each `(question id, selected id)` |
| QuizTaker.TotalScore | pages/QuizTaker.tsx:59-71 | a definition without a contract of its own: the achieved score. ScoreAnswers, TotalScoreAppend, TotalScoreReadsOnlyQuizQuestions, ScoreWithinMax and MaxScoreAttainable carry its properties |
| QuizTaker.BuildAnswers | pages/QuizTaker.tsx:60-70 | a definition without a contract of its own: the answer list built by `finalAnswers.push`. ScoreAnswers, BuildAnswersLength, BuildAnswersMembership and TotalScoreAppend carry its properties |
| QuizTaker.AnswersForMembership | pages/QuizTaker.tsx:69 | an answer is among a question's answers iff it names that question and one of its selected ids |
| QuizTaker.TotalScoreAppend | pages/QuizTaker.tsx:62-71 | achieved scores and answer lists of two question lists concatenate: scoring follows question order |
| QuizTaker.TotalScoreReadsOnlyQuizQuestions | pages/QuizTaker.tsx:62-63 | entries keyed by ids that are not quiz questions change neither the score nor the answers |
| QuizTaker.BuildAnswersLength | pages/QuizTaker.tsx:62-70 | the number of answers equals the total length of the quiz questions' selection lists, unknown ids included |
| QuizTaker.BuildAnswersMembership | pages/QuizTaker.tsx:62-70 | an answer is recorded iff some quiz question has that id and selected that option id |
| QuizTaker.ScoreSelection | pages/QuizTaker.tsx:63-70 | the inner loop returns the score of the selected ids and one answer per id |
| QuizTaker.ScoreAnswers | pages/QuizTaker.tsx:59-71 | the nested loops return the achieved score of the quiz and its answers in question then selection order |
| QuizTaker.HandleSubmit | pages/QuizTaker.tsx:56-82 | no quiz: nothing; otherwise the submission carries quiz id, achieved score, timestamp and answers, and the shown ceiling is the maximum score |
| QuizTaker.SelectionScoreSplit | pages/QuizTaker.tsx:65 | with distinct selected ids, the first option is reached only by its own id and the rest score against the remaining options |
| QuizTaker.SelectionScoreWithinPositiveSum | pages/QuizTaker.tsx:47-49 | distinct selected ids never score more than the positive scores together |
| QuizTaker.SelectionScoreWithinHighest | pages/QuizTaker.tsx:43-44 | at most one selected id never scores more than the best option floored at 0 |
| QuizTaker.ScoreWithinMax | pages/QuizTaker.tsx:39-71 | with selections the page can produce, the achieved score is at most the maximum score |
| QuizTaker.SingleQuestionExample | pages/QuizTaker.tsx:39-71 | options 10, 5, 0 on a single question: ceiling 10; picking the first scores 10, the second 5 |
| QuizTaker.MultiQuestionExample | pages/QuizTaker.tsx:39-71 | options 10, 5, -5 on a multi question: ceiling 15; picking all three scores 10 |
| QuizTaker.BestSingle | pages/QuizTaker.tsx:43-44 | the best single pick holds at most one id, and only ids of the question's options |
| QuizTaker.BestSingleReachesHighest | pages/QuizTaker.tsx:43-44 | with unique option ids, the best single pick scores exactly the single ceiling |
| QuizTaker.PositiveIds | pages/QuizTaker.tsx:47-49 | the positive pick holds only ids of the question's options |
| QuizTaker.PositiveIdsNoDuplicates | pages/QuizTaker.tsx:47-49 | with unique option ids, the positive pick repeats no id |
| QuizTaker.PositiveIdsReachPositiveSum | pages/QuizTaker.tsx:47-49 | with unique option ids, checking every positive option scores exactly the multi ceiling |
| QuizTaker.BestIdsReachQuestionMax | pages/QuizTaker.tsx:42-51 | each question's best pick is one the page allows for its type and scores exactly its ceiling |
| QuizTaker.MaxScoreAttainable | pages/QuizTaker.tsx:39-53 | with unique question and option ids, some well-formed selection scores exactly the maximum: the ceiling is tight |
| Dashboard.RoundHalfUp | pages/Dashboard.tsx:40 | `Math.round(num / den)`: the result r satisfies r - 1/2 <= num/den < r + 1/2 |
| Dashboard.RoundHalfUpBetween | pages/Dashboard.tsx:40 | a ratio between two integers rounds to a value between them |
| Dashboard.FilterByQuiz | pages/Dashboard.tsx:31 | a submission is kept iff it is in the list and has the selected quiz id; never longer; unchanged when all match |
| Dashboard.FilterByQuizAppend | pages/Dashboard.tsx:31 | filtering distributes over concatenation, so the original order is kept |
| Dashboard.SumScores | pages/Dashboard.tsx:35 | a definition without a contract of its own: the `reduce` sum of the scores. SumScoresBetween, AverageTenths and AverageWithinScores carry its properties |
| Dashboard.SumScoresBetween | pages/Dashboard.tsx:35 | n scores between lo and hi sum to between n*lo and n*hi |
| Dashboard.AverageTenths | pages/Dashboard.tsx:34-40 | 0 without submissions; otherwise the mean, times 10, rounded to the nearest integer with halves up |
| Dashboard.AverageWithinScores | pages/Dashboard.tsx:34-40 | the average lies between the lowest and the highest total score |
| Dashboard.LoadData | pages/Dashboard.tsx:28-41 | no quiz selected (null or 0): nothing loaded; otherwise exactly the quiz's submissions, their count and their average |
| Dashboard.TwoSubmissionsAverage | pages/Dashboard.tsx:34-40 | submissions scoring 8 and 4 (and one of another quiz) give count 2 and average 6.0 |
| Dashboard.FindQuizById | pages/Dashboard.tsx:51 | nothing is found iff no quiz has the id; otherwise the first quiz with the id is found |
| Dashboard.FindQuiz | pages/Dashboard.tsx:51 | a null id finds nothing; otherwise nothing is found iff no quiz has the id, and the first quiz with the id is found |
| Dashboard.HasSelected | pages/Dashboard.tsx:60 | a definition without a contract of its own: the `some` test for one submission. SelectionCount and SelectionCountCountsSubmissions carry its properties |
| Dashboard.SelectionCount | pages/Dashboard.tsx:59-62 | 0 <= count <= number of submissions; 0 iff none selected the option; all iff every one did |
| Dashboard.SelectionCountCountsSubmissions | pages/Dashboard.tsx:59-62 | the count is the number of distinct submissions holding the answer |
| Dashboard.SelectionCountIgnoresRepeats | pages/Dashboard.tsx:60 | counts depend only on which answers each submission holds, not on repeats or order |
| Dashboard.RepeatedAnswerCountsOnce | pages/Dashboard.tsx:60 | adding a duplicate answer to a submission leaves every count unchanged |
| Dashboard.OptionCounts | pages/Dashboard.tsx:58-64 | one count per option, in order, each option unchanged, each count the number of submissions that selected that option (so at most their number) |
| Dashboard.GetQuestionAnalysis | pages/Dashboard.tsx:54-67 | no quiz: empty; otherwise one entry per question and one count per option, in order, with the submission count |
| Dashboard.Percentage | pages/Dashboard.tsx:177 | 0 without submissions; otherwise `Math.round(100 * count / n)`, and between 0 and 100 when count <= n |
| Dashboard.NoSubmissionsNoCounts | pages/Dashboard.tsx:57-65 | without submissions every count and every percentage is 0 |
| Dashboard.PercentageExtremes | pages/Dashboard.tsx:177 | 100% iff at least 99.5% selected; 0% iff under 0.5% did; all selected gives 100%; under 200 submissions 100% iff all selected |
| Dashboard.NearlyAllRoundsToFull | pages/Dashboard.tsx:177 | 199 selections out of 200 are shown as 100% |
| QuizEditor.HandleSave | pages/QuizEditor.tsx:26-30 | an empty title is refused; any other title hands the document to storage unchanged |
| QuizEditor.RemoveAt | pages/QuizEditor.tsx:54 | filtering on the index removes exactly that index and keeps the rest in order; out of range removes nothing |
| QuizEditor.NewQuestion | pages/QuizEditor.tsx:33-43 | a definition without a contract of its own: the `newQ` literal, from the clock readings. WithQuestionAdded states its fields |
| QuizEditor.WithQuestionAdded | pages/QuizEditor.tsx:32-45 | one question appended, the old ones unchanged; it is blank, single, position length + 1, belongs to the quiz, with two blank zero-score options |
| QuizEditor.EditQuestion | pages/QuizEditor.tsx:49 | the named field holds the new value and every other field is unchanged |
| QuizEditor.WithQuestionUpdated | pages/QuizEditor.tsx:47-51 | only question i changes, and only in the edited field; the length and the quiz's own fields stay |
| QuizEditor.WithQuestionDeleted | pages/QuizEditor.tsx:53-56 | question i removed, the others in order; the length drops by one; out of range nothing changes |
| QuizEditor.DeleteUndoesAdd | pages/QuizEditor.tsx:32-56 | deleting the question just added gives back the quiz |
| QuizEditor.EditOption | pages/QuizEditor.tsx:71 | the named option field holds the new value and every other field is unchanged |
| QuizEditor.WithOptionAdded | pages/QuizEditor.tsx:58-67 | one blank zero-score option owned by the question appended; the earlier options and the question's fields stay |
| QuizEditor.WithOptionUpdated | pages/QuizEditor.tsx:69-73 | only option j changes, and only in the edited field |
| QuizEditor.WithOptionDeleted | pages/QuizEditor.tsx:75-79 | option j removed, the others in order; out of range nothing changes |
| QuizEditor.DeleteOptionUndoesAdd | pages/QuizEditor.tsx:58-79 | deleting the option just added gives back the question |
| QuizEditor.QuestionRecord.constructor | pages/QuizEditor.tsx:58-79 | a fresh question object holds exactly the given question; these are the shared objects that the option edits change in place |
| QuizEditor.Editor.constructor | pages/QuizEditor.tsx:11-17 | a new editor holds the blank quiz |
| QuizEditor.Editor.Load | pages/QuizEditor.tsx:19-24 | a loaded (resolved) quiz becomes the document, one question object per question |
| QuizEditor.Editor.AddQuestion | pages/QuizEditor.tsx:32-45 | a new list: the old objects, then one fresh object holding the new question |
| QuizEditor.Editor.UpdateQuestion | pages/QuizEditor.tsx:47-51 | a new list whose entry i is a fresh object holding the edited copy; the document gets the update |
| QuizEditor.Editor.DeleteQuestion | pages/QuizEditor.tsx:53-56 | a new list without entry i; the document gets the deletion |
| QuizEditor.Editor.AddOption | pages/QuizEditor.tsx:58-67 | the same list; question object i gets the new option in place, and no other question changes |
| QuizEditor.Editor.UpdateOption | pages/QuizEditor.tsx:69-73 | the same list; option j of question object i is replaced in place, and nothing else changes |
| QuizEditor.Editor.DeleteOption | pages/QuizEditor.tsx:75-79 | the same list; question object i gets the filtered option list, and no other question changes |

## Left out

- Persistence and network are not modelled: `storageService` calls, the server and the image-generation service.
  - `saveSubmission` and `saveQuiz` are the outputs of `HandleSubmit` and `HandleSave`.
  - The stored submission list is a parameter of `LoadData`.
- React plumbing is not modelled: `useState` and `useEffect` scheduling, rendering, `alert`, `confirm` and navigation.
  - Each handler is a function or method on explicit state.
  - The loading effects of the taking page and the editor become parameters: `Lookup<Quiz>`, or `Editor.Load`.
- `handleDeleteSubmission` (pages/Dashboard.tsx:44-49) only deletes through storage and reloads, so it is not modelled.
  - The dashboard's initial quiz choice (pages/Dashboard.tsx:16-18) is left out as well.
- Clock readings are parameters:
  - `Date.now()` becomes a `Clock` of five successive readings for `addQuestion`, and `now` for `addOption`.
  - `new Date().toISOString()` becomes the `createdAt` and `submittedAt` strings.
  - Because the readings may differ, nothing claims that a new question's options name the question's id.
- Scores are integers, and floating point is not modelled.
  - Dashboard.AverageTenths: the displayed average is `avgTenths / 10`. It is computed exactly, so IEEE rounding artefacts of `Math.round(avg * 10) / 10` are not captured.
  - Dashboard.Percentage: computed exactly from `count` and `n`, so IEEE artefacts of `count / n * 100` are not captured.
- Dashboard.PercentageExtremes: "100% iff every submission selected the option" holds only below 200 submissions. From 200 on, 99.5% rounds up to 100%. The lemma states the exact condition instead.
- The `value: any` argument of `updateQuestion` and `updateOption` is modelled as a typed edit of one named field (`QuestionEdit`, `OptionEdit`). A value of the wrong type is not modelled.
- Several editor operations require an index in range, because the out-of-range paths are not modelled:
  - QuizEditor.WithQuestionUpdated and QuizEditor.Editor.UpdateQuestion: in JavaScript, an index at or past the end writes a partial question holding only the edited field there. An index beyond the end also leaves holes, which `JSON.stringify` saves as `null`. A negative index sets a property that is not an element, so the list does not change.
  - QuizEditor.Editor.AddOption and QuizEditor.Editor.DeleteOption: an out-of-range question index throws a TypeError in JavaScript. `deleteOption`'s out-of-range option index is modelled.
  - QuizEditor.Editor.UpdateOption: an out-of-range question index throws. An option index at or past the end writes a partial option there, and one beyond the end leaves holes, saved as `null`. A negative option index adds no element.
- QuizEditor.Editor.UpdateQuestion: the spread copy shares its `options` array with the replaced object.
  - The model keeps options as a value inside each question object.
  - Aliasing between the new object and the discarded one is therefore not captured. Only the objects in the current list are observable.
- QuizEditor.Editor.Load: `storageService.getQuiz` is `async` (services/storage.ts:42), and both pages call it without `await` (pages/QuizEditor.tsx:21-22, pages/QuizTaker.tsx:18-19). The source therefore stores the unresolved Promise as the quiz state, and the next render would fail on `quiz.questions`. The model assumes the resolved quiz instead. It also copies the quiz into fresh question objects rather than keeping the stored object.
- QuizTaker.HandleSubmit: its `quiz` parameter is the resolved quiz, or `Missing`, for the same reason. The Promise the taking page actually stores is not modelled.
- QuizTaker.PositiveSum: its contract gives bounds only. That it is exactly reachable by checking every positive option is `PositiveIdsReachPositiveSum`.
- The submission `id` is the literal 0 that the page sends. Assigning the stored id belongs to the server and is not modelled.
