# wooord-quiz: a Dafny model of the quiz core

wooord-quiz is a vocabulary quiz for Japanese learners. The user uploads word
lists ("files" of English/Japanese pairs), picks lists, question types and a
question count on a setup form, and answers a sequence of multiple-choice or
typed questions. Every answer is appended to a persistent answer history.
After the quiz a results screen shows the score and offers an adaptive review of
the wrongly answered words. Two statistics charts are drawn from the history:
the overall correct/incorrect pie and the daily accuracy trend. "Weak words" are
words answered wrongly at least half of the time; they form a pseudo-list that
can be quizzed on its own.

This project models that core in Dafny, one module per source component:

| module | source | form |
|---|---|---|
| `Types` | `src/lib/types.ts` | datatypes, lookups |
| `Store` | `src/contexts/LinguaLiftContext.tsx` | the reducer and the save/load snapshot as functions |
| `WeakWords` | `QuizManager.tsx` `getWeakWords` | a counting loop proved against a recursive specification |
| `QuizBuilder` | `QuizManager.tsx` `startQuiz` | the pool-building loop, then question ordering and options as functions |
| `QuizSession` | `QuizManager.tsx` | a class holding the stage, questions, answers and store state |
| `QuizSetup` | `QuizSetup.tsx` | a class for the form, functions for its handlers |
| `TypingQuestion` | `TypingQuestion.tsx` | a class for the widget, the answer check as a predicate |
| `MultipleChoice` | `MultipleChoiceQuestion.tsx` | a class for the widget, the option highlighting as a function |
| `AdaptiveReview` | `AdaptiveReview.tsx` | a class for the review queue |
| `QuizResults` | `QuizResults.tsx` | the score |
| `WeakWordsChart`, `AccuracyTrend` | `src/components/stats/*.tsx` | the chart data; the daily tally as a loop |
| `Seqs`, `Text`, `Shuffling`, `Percent` | shared helpers | filtering, `trim`/`toLowerCase`/`parseInt`, shuffles, `Math.round` of a percentage |

Modelling choices that run through the whole project:

- **Randomness.** Every `sort(() => 0.5 - Math.random())` is `Shuffling.Shuffle(s, draws)`. The draws are a parameter, and the result is proved to be a permutation of `s`. The question type pick `Math.floor(Math.random() * n)` is a draw taken modulo `n`.
- **Time.** The 1200 ms `setTimeout` delays fire at once. `Date.now()` is a parameter. The `yyyy-MM-dd` day key is an abstract function `dayOf` from timestamps to day numbers.
- **React state.** Component state is class fields. Each handler is a method whose `ensures` states the whole new state. A value the component passes to its parent through `onAnswer` is returned as `Option<bool>`, with `None` meaning no call.
- **Arithmetic.** `Math.round(c / t * 100)` is computed exactly on integers as `(200c + t) div 2t`. The weak-word test `(t - c) / t >= 0.5` becomes `2(t - c) >= t`.
- **Text.** JavaScript whitespace is modelled as its finite set of code points. Lower-casing covers ASCII letters only.

The question widget props come from `QuestionDisplay.tsx`, which is not part of
this model. So is the file-management page. Both appear only through the
parameters they pass.

## Model

| member | source | states |
|---|---|---|
| Types.AllWords | src/components/quiz/QuizManager.tsx:54 | a word is in the flattened list iff some file holds it |
| Types.FindFile | src/components/quiz/QuizManager.tsx:75 | `None` iff no file has the id; otherwise a file of the list with that id |
| Types.OwnerOf | src/components/quiz/QuizManager.tsx:156 | `None` iff no file holds a word with the id; otherwise a file of the list holding it |
| Types.MultipleChoiceKinds | src/components/quiz/QuizManager.tsx:115 | a type ends in `-mc` iff it is not the typing type |
| Seqs.FilterPartition | src/components/quiz/QuizManager.tsx:91-92 | a filter and its complement together are a permutation of the input |
| Shuffling.Shuffle | src/components/quiz/QuizManager.tsx:94-95 | the shuffle has the same length and the same multiset of elements as its input |
| Shuffling.ShuffleMembers | src/components/quiz/AdaptiveReview.tsx:17 | an element is in the shuffle iff it is in the input |
| Percent.RoundPercent | src/components/quiz/QuizResults.tsx:17 | the rounded percentage is within half a point of the exact one, at most 100, is 100 iff `200c >= 199t`, and is 0 iff `200c < t` |
| Text.TrimEmptyIffWhite | src/components/quiz/TypingQuestion.tsx:53 | `trim()` is empty iff the input is all whitespace |
| Text.SurroundingWhiteIgnored | src/components/quiz/TypingQuestion.tsx:55 | `trim()` removes exactly the whitespace around a core that neither starts nor ends in whitespace |
| Text.LowerIdempotent | src/components/quiz/TypingQuestion.tsx:55 | lower-casing twice equals lower-casing once |
| Text.ParseDecimalString | src/components/quiz/QuizSetup.tsx:38 | `parseInt(String(n), 10)` gives back `n` for every natural `n`, with `n` an unbounded integer printed in plain decimal digits (see Left out) |
| Store.StepFrame | src/contexts/LinguaLiftContext.tsx:38-60 | each action changes only the state fields it names; an unknown action changes nothing |
| Store.DeleteFileCascades | src/contexts/LinguaLiftContext.tsx:44-48 | deleting a file removes exactly the files and the history records with that id, keeps every other file and record, and keeps the rest of the state |
| Store.DeleteFileKeepsOrder | src/contexts/LinguaLiftContext.tsx:47 | the history filter distributes over concatenation, so surviving records keep their order |
| Store.AddHistoryAppends | src/contexts/LinguaLiftContext.tsx:49-50 | new records are appended after the old history and nothing else changes |
| Store.AddFileAppends | src/contexts/LinguaLiftContext.tsx:42-43 | a new file is appended after the old files and nothing else changes |
| Store.SetQuizSettingsFlag | src/contexts/LinguaLiftContext.tsx:51-52 | setting the quiz settings sets "quiz in progress" iff the settings are present |
| Store.SetSettingsMerges | src/contexts/LinguaLiftContext.tsx:55-56 | a settings patch overrides exactly the keys it carries |
| Store.Snapshot | src/contexts/LinguaLiftContext.tsx:110 | the saved snapshot keeps files, history, last quiz settings and settings, and never holds an active quiz |
| Store.LoadedStateHasNoQuiz | src/contexts/LinguaLiftContext.tsx:81-94 | a loaded state never has an active quiz, and settings missing from storage take their defaults (tap-to-continue on, carousel 0) |
| Store.SaveLoadRoundTrip | src/contexts/LinguaLiftContext.tsx:77-97 | loading what was saved gives back the saved snapshot, whatever the current state |
| WeakWords.CorrectAtMostTotal | src/components/quiz/QuizManager.tsx:43-52 | a word's correct count never exceeds its answer count |
| WeakWords.RelevantCounts | src/components/quiz/QuizManager.tsx:40-41 | filtering to known words keeps every count of a known word |
| WeakWords.WeakIffThreshold | src/components/quiz/QuizManager.tsx:54-64 | a word is weak iff some file holds it, it has at least one mistake and at least half of its answers are mistakes |
| WeakWords.NeverWeakWithoutMistakes | src/components/quiz/QuizManager.tsx:59 | a word never answered wrongly is never weak |
| WeakWords.OrphanRecordsIgnored | src/components/quiz/QuizManager.tsx:39-41 | dropping every record of a word no file holds, wherever it sits in the history, gives the same weak words |
| WeakWords.OrphanRecordsAnywhere | src/components/quiz/QuizManager.tsx:39-41 | records of words no file holds, inserted between any two stretches of the history, change nothing |
| WeakWords.NoWordListsScreen | src/components/quiz/QuizManager.tsx:231 | the "no word lists" screen shows exactly when there are no files |
| WeakWords.CountAnswers | src/components/quiz/QuizManager.tsx:43-52 | the counting loop yields the per-word answer and correct counts of the records |
| WeakWords.GetWeakWords | src/components/quiz/QuizManager.tsx:36-65 | the method returns exactly the weak words, in the order of the files |
| WeakWords.KeepWeak | src/components/quiz/QuizManager.tsx:64 | the final filter keeps exactly the words whose id passes the threshold over the relevant history, in their order |
| QuizBuilder.WordsOfFoundFile | src/components/quiz/QuizManager.tsx:75-78 | a selected id contributes the words of the first file with that id, or nothing |
| QuizBuilder.FilePoolAppend | src/components/quiz/QuizManager.tsx:74-79 | the pool of concatenated id lists is the concatenation of their pools |
| QuizBuilder.UnmatchedIdSkipped | src/components/quiz/QuizManager.tsx:76 | an id with no file contributes nothing |
| QuizBuilder.FilePoolMembers | src/components/quiz/QuizManager.tsx:74-79 | a word is in the pool iff a selected id's file holds it |
| QuizBuilder.BuildPool | src/components/quiz/QuizManager.tsx:69-80 | the loop builds the weak words, or the words of the selected files in selection order |
| QuizBuilder.OrderLength | src/components/quiz/QuizManager.tsx:90-97 | the order holds as many words as the pool |
| QuizBuilder.QuestionOrderSpec | src/components/quiz/QuizManager.tsx:90-97 | the order is a permutation of the pool with every never-asked word before every asked word |
| QuizBuilder.QuestionTotalSpec | src/components/quiz/QuizManager.tsx:99-101 | the count is all the words for "all" and otherwise the smaller of the limit and the available words |
| QuizBuilder.DistractorsSpec | src/components/quiz/QuizManager.tsx:117-120 | distractors are pool words with another id, at most three, and as many as there are up to three |
| QuizBuilder.MakeQuestionSpec | src/components/quiz/QuizManager.tsx:111-125 | the question's type is one of the chosen types; a typing question has no options; a multiple-choice question has at most four options, holds the word, carries its id exactly once, and every other option is a pool word with another id |
| QuizBuilder.GenerateSpec | src/components/quiz/QuizManager.tsx:99-126 | the quiz has the computed number of questions, asks the ordered words in order, every word from the pool, and nothing for an empty pool |
| QuizSession.RecordFor | src/components/quiz/QuizManager.tsx:155-166 | an answer is recorded under the first file holding the word, with its verdict and time, and not at all when no file holds it or that file's id is "unknown" |
| QuizSession.IncorrectWordsMembers | src/components/quiz/QuizManager.tsx:211-213 | a word is up for review iff some question about it was answered wrongly |
| QuizSession.IncorrectWordsCount | src/components/quiz/QuizManager.tsx:211-213 | there are as many review words as wrong answers |
| QuizSession.ReviewOffered | src/components/quiz/QuizManager.tsx:222-228 | the review has words iff some answer is wrong |
| QuizSession.AllUnanswered | src/components/quiz/QuizManager.tsx:129 | the fresh answer list has one empty slot per question |
| QuizSession.QuizManager.constructor | src/components/quiz/QuizManager.tsx:30-33 | the session opens on the loader when a quiz is set and on the setup screen otherwise |
| QuizSession.QuizManager.BeginQuiz | src/components/quiz/QuizManager.tsx:245-249 | starting from the form stores the settings as the last and as the active quiz and shows the loader |
| QuizSession.QuizManager.StartQuiz | src/components/quiz/QuizManager.tsx:68-132 | with nothing to ask the quiz is cleared and the setup returns; otherwise the generated questions start with every answer empty at the first question |
| QuizSession.QuizManager.Launch | src/components/quiz/QuizManager.tsx:128-131 | the quiz runs the given questions from the first one, each answer still empty |
| QuizSession.QuizManager.LoadingEffect | src/components/quiz/QuizManager.tsx:134-138 | the effect acts only on the loader; there it runs `startQuiz` on the active settings, so it either clears them and returns to setup (no questions) or starts the quiz with the generated questions, all answers null and index 0 |
| QuizSession.QuizManager.NextQuestion | src/components/quiz/QuizManager.tsx:140-146 | the next question is shown, or the results after the last one |
| QuizSession.QuizManager.Record | src/components/quiz/QuizManager.tsx:148-166 | the current slot gets the verdict and the history gets the answer's record, if any |
| QuizSession.QuizManager.Answer | src/components/quiz/QuizManager.tsx:148-184 | an answer fills the current slot, adds its record and moves on, keeping answered slots exactly before the current question |
| QuizSession.QuizManager.Skip | src/components/quiz/QuizManager.tsx:186-209 | a skip is recorded as a wrong answer and moves on |
| QuizSession.QuizManager.Restart | src/components/quiz/QuizManager.tsx:216-220 | a restart clears the active quiz and shows the setup |
| QuizSession.QuizManager.StartReview | src/components/quiz/QuizManager.tsx:222-228 | the review starts iff there are wrong answers, and otherwise the quiz restarts |
| QuizSetup.SelectFile | src/components/quiz/QuizSetup.tsx:42-56 | the weak-words button toggles between itself alone and nothing; a list button toggles the list and drops weak words; a newly selected list is appended at the end after the previous lists in their order, and removing a list keeps the others in their order |
| QuizSetup.SelectFileKeepsWellFormed | src/components/quiz/QuizSetup.tsx:42-56 | a selection without duplicates, holding weak words only alone, stays so |
| QuizSetup.WeakWordsOnlyAlone | src/components/quiz/QuizSetup.tsx:83 | in such a selection, weak-words mode is on iff weak words is all that is selected |
| QuizSetup.ToggleType | src/components/quiz/QuizSetup.tsx:58-62 | the clicked type flips membership and every other type keeps it |
| QuizSetup.ToggleTypeSpec | src/components/quiz/QuizSetup.tsx:58-62 | toggling keeps the list free of duplicates, changes its size by one, and toggling twice restores the members |
| QuizSetup.SubmitSpec | src/components/quiz/QuizSetup.tsx:64-84 | the form is rejected for no list, then no type, then a count that is not "all" or positive, each iff its condition; accepted settings carry the form's values |
| QuizSetup.PositiveCountParses | src/components/quiz/QuizSetup.tsx:73-77 | every positive count written out in decimal is accepted as itself |
| QuizSetup.CountOptionsParse | src/components/quiz/QuizSetup.tsx:31 | each offered count ("10", "20", "50", "all") is accepted as itself |
| QuizSetup.InitialCountRoundTrip | src/components/quiz/QuizSetup.tsx:37-39 | the count shown for a previous quiz reads back as its count, except that 0 reads back as 10 |
| QuizSetup.ResubmitLastSettings | src/components/quiz/QuizSetup.tsx:35-39 | submitting the form as it reopens after an accepted quiz gives the same settings |
| QuizSetup.RememberTwiceSameAsOnce | src/components/quiz/QuizSetup.tsx:86-87 | storing the last settings in the form and again in the quiz screen equals storing them once |
| QuizSetup.QuizSetupForm.constructor | src/components/quiz/QuizSetup.tsx:35-39 | the form opens with the previous quiz's choices, or no list, every type and "10" |
| QuizSetup.QuizSetupForm.ClickFile | src/components/quiz/QuizSetup.tsx:42-56 | a list click changes only the selection, as the selection rule says |
| QuizSetup.QuizSetupForm.ClickType | src/components/quiz/QuizSetup.tsx:58-62 | a type click changes only the types, as the toggle says |
| QuizSetup.QuizSetupForm.ChooseCount | src/components/quiz/QuizSetup.tsx:154 | choosing a count changes only the count |
| QuizSetup.QuizSetupForm.Submit | src/components/quiz/QuizSetup.tsx:64-88 | the submission follows the submit rule, and accepted settings name a list and a type |
| TypingQuestion.SurroundingWhiteForgiven | src/components/quiz/TypingQuestion.tsx:55 | whitespace typed around an answer does not change the verdict |
| TypingQuestion.CaseForgiven | src/components/quiz/TypingQuestion.tsx:55 | the case of the input and of the English word does not change the verdict |
| TypingQuestion.TrimLower | src/components/quiz/TypingQuestion.tsx:55 | trimming and lower-casing commute |
| TypingQuestion.TrailingWhiteNeverMatches | src/components/quiz/TypingQuestion.tsx:55 | an English word ending in whitespace is never matched |
| TypingQuestion.TypingWidget.constructor | src/components/quiz/TypingQuestion.tsx:21-24 | the widget starts empty and unanswered |
| TypingQuestion.TypingWidget.ShowWord | src/components/quiz/TypingQuestion.tsx:27-33 | a new word clears the input, the verdict and the pause |
| TypingQuestion.TypingWidget.Edit | src/components/quiz/TypingQuestion.tsx:97 | typing changes only the input |
| TypingQuestion.TypingWidget.Submit | src/components/quiz/TypingQuestion.tsx:51-68 | a blank or repeated submit does nothing; otherwise the verdict is the answer check, a right answer is reported, and a wrong one is reported or paused by the setting |
| TypingQuestion.TypingWidget.Proceed | src/components/quiz/TypingQuestion.tsx:35-49 | a tap or key reports a wrong answer exactly while the pause shows |
| TypingQuestion.TypingWidget.SkipWord | src/components/quiz/TypingQuestion.tsx:70-76 | "don't know" reports a wrong answer once, and only when the parent allows skipping |
| MultipleChoice.PromptAndOptionsOpposite | src/components/quiz/MultipleChoiceQuestion.tsx:27-28 | the prompt shows one side of the word and the options the other |
| MultipleChoice.MarkOf | src/components/quiz/MultipleChoiceQuestion.tsx:40-51 | after answering, an option is marked right iff it is the word, and wrong iff it was picked and is not the word |
| MultipleChoice.MarksAfterAnswer | src/components/quiz/MultipleChoiceQuestion.tsx:40-51 | exactly one option is marked right, and a right pick marks nothing wrong |
| MultipleChoice.ChoiceWidget.constructor | src/components/quiz/MultipleChoiceQuestion.tsx:17-18 | nothing is picked and nothing is answered |
| MultipleChoice.ChoiceWidget.Click | src/components/quiz/MultipleChoiceQuestion.tsx:20-25 | the first click answers and reports whether the option is the word; later clicks do nothing, so at most one verdict is reported |
| AdaptiveReview.Requeue | src/components/quiz/AdaptiveReview.tsx:23-25 | a wrong answer appends the current word and a right one keeps the queue |
| AdaptiveReview.RequeuedLastKeepsKey | src/components/quiz/AdaptiveReview.tsx:65-67 | with the intended step, a wrong answer on the last entry moves to a copy of the same word with the same id, so the `key={currentWord.id}` widget is not remounted |
| AdaptiveReview.StaleLengthSkipsRequeuedWord | src/components/quiz/AdaptiveReview.tsx:27-33 | as written, a review of [a, b] with a right and b wrong ends while b waits at the end of the queue |
| AdaptiveReview.AdvanceCompared | src/components/quiz/AdaptiveReview.tsx:21-34 | the written and the intended step differ only on a wrong answer to the last entry |
| AdaptiveReview.AdvanceAsWrittenSpec | src/components/quiz/AdaptiveReview.tsx:21-34 | as written, the queue only grows, the index stays in it, and the review ends iff the last entry of the old queue was answered |
| AdaptiveReview.AdvanceSpec | src/components/quiz/AdaptiveReview.tsx:21-34 | the intended step only grows the queue, never ends on a wrong answer, and ends iff the last entry is answered right |
| AdaptiveReview.ReviewQuestion | src/components/quiz/AdaptiveReview.tsx:65-69 | each entry is asked as a typing question without options |
| AdaptiveReview.Review.constructor | src/components/quiz/AdaptiveReview.tsx:17-19 | the queue starts as a permutation of the words at the first entry |
| AdaptiveReview.Review.Show | src/components/quiz/AdaptiveReview.tsx:36-56 | the screen shows the finish card, the current entry, or leaves at once for an empty list |
| AdaptiveReview.Review.Answer | src/components/quiz/AdaptiveReview.tsx:21-34 | each answer takes the intended step, and once the review ends every word has been answered right |
| QuizResults.Score | src/components/quiz/QuizResults.tsx:15-17 | the score is at most 100 and 0 for an empty quiz |
| QuizResults.ScoreExtremes | src/components/quiz/QuizResults.tsx:15-17 | all right scores 100 and none right scores 0 |
| QuizResults.PerfectScoreThreshold | src/components/quiz/QuizResults.tsx:17 | the score is 100 iff at least 99.5% of the answers are right |
| QuizResults.PerfectScoreSmallQuiz | src/components/quiz/QuizResults.tsx:15-17 | below 200 questions, the score is 100 iff every answer is right |
| QuizResults.PerfectScoreWithMistake | src/components/quiz/QuizResults.tsx:17 | 199 right answers out of 200 also score 100 |
| QuizResults.WrongShownSplit | src/components/quiz/QuizResults.tsx:68 | the "wrong" tile counts wrong and unanswered slots |
| WeakWordsChart.SplitSpec | src/components/stats/WeakWordsChart.tsx:19-26 | the pie's two parts add up to the history, and the wrong part counts wrong records |
| WeakWordsChart.PieSpec | src/components/stats/WeakWordsChart.tsx:28-36 | the chart shows "no data" iff the history is empty; its percentage is at most 100, 100 for an all-right and 0 for an all-wrong history |
| AccuracyTrend.DayCorrect | src/components/stats/AccuracyTrendChart.tsx:24-27 | a day's correct count never exceeds its answer count |
| AccuracyTrend.DaysSeen | src/components/stats/AccuracyTrendChart.tsx:19-31 | the days have no duplicates, and a day is present iff it has an answer |
| AccuracyTrend.DayTotalPositive | src/components/stats/AccuracyTrendChart.tsx:20-24 | a day has answers iff some record falls on it |
| AccuracyTrend.Insert | src/components/stats/AccuracyTrendChart.tsx:36 | insertion adds the point and keeps every other point |
| AccuracyTrend.InsertSorted | src/components/stats/AccuracyTrendChart.tsx:36 | inserting a point with a new day keeps the days strictly increasing |
| AccuracyTrend.SortByDay | src/components/stats/AccuracyTrendChart.tsx:36 | the sort is a permutation of its input |
| AccuracyTrend.SortByDaySorted | src/components/stats/AccuracyTrendChart.tsx:36 | points with distinct days come out strictly increasing in the day |
| AccuracyTrend.PointsOf | src/components/stats/AccuracyTrendChart.tsx:31-35 | one point per day, in the given order |
| AccuracyTrend.TrendDays | src/components/stats/AccuracyTrendChart.tsx:18-37 | the trend has one point per distinct day of the history, in increasing day order |
| AccuracyTrend.TrendAccuracy | src/components/stats/AccuracyTrendChart.tsx:34 | each point's accuracy is the rounded percentage of right answers that day |
| AccuracyTrend.TotalsCoverHistory | src/components/stats/AccuracyTrendChart.tsx:19-29 | the daily counts add up to the whole history |
| AccuracyTrend.ShowsChartIffTwoDays | src/components/stats/AccuracyTrendChart.tsx:39-45 | the chart shows iff the history spans at least two days |
| AccuracyTrend.DailyStats | src/components/stats/AccuracyTrendChart.tsx:19-29 | the reduce loop yields each day's answer and correct counts, with days in first-seen order |
| AccuracyTrend.AccuracyData | src/components/stats/AccuracyTrendChart.tsx:18-37 | the method returns exactly the trend |

## Findings

| source | as written | input that shows it | evidently intended | confidence | as-written member | corrected member |
|---|---|---|---|---|---|---|
| src/components/quiz/AdaptiveReview.tsx:27-33 | the timer compares the index with the queue length the handler closed over, which is the length before a wrong answer appended the word | words [a, b] after the shuffle; answer a right, then b wrong | a word answered wrongly is asked again before the review reports that every word was reviewed | high; not executed | AdaptiveReview.AdvanceAsWritten, shown by AdaptiveReview.StaleLengthSkipsRequeuedWord | AdaptiveReview.Advance, proved by AdaptiveReview.AdvanceSpec and used by AdaptiveReview.Review.Answer; the length fix alone is not enough in the component, because the re-asked copy has the same `key` (AdaptiveReview.RequeuedLastKeepsKey), so the widget also needs a key or a reset per queue position |

## Left out

- Time: the 1200 ms timers fire at once, so a click during a delay is not modelled. Only the stale queue length is modelled as a timer effect (see Findings).
- `Date.now()` is a parameter. The `yyyy-MM-dd` formatting, time zones and `new Date(day).getTime()` are the abstract `dayOf`.
- `localStorage`, `JSON.parse` and its error handling, and toasts are left out. Load starts from the parsed object. Save is a snapshot function.
- Stored or patched keys whose value is explicitly `undefined` are not distinguished from missing keys.
- Router navigation (`router.push`) is left out, and so is rendering: SVG, progress bars and chart drawing.
- Shuffling.Shuffle: proved to be a permutation only. Its distribution is not modelled. The same holds for `sort(() => 0.5 - Math.random())`, whose comparator is inconsistent.
- Percent.RoundPercent: exact rounding. A floating-point quotient that lands just below a half may round down in the source.
- Text.Lower: ASCII only. `toLowerCase` also folds non-ASCII letters.
- Text.ParseDecimalString: numbers are unbounded integers. JavaScript's `String(n)` switches to exponent notation from 10^21, which `parseInt` reads back as its leading digits, and numbers above 2^53 are not exact. The counts the form offers (10, 20, 50) are far below both.
- QuizSession.QuizManager.StartQuiz: requires at least one question type. The source would index an empty type list. Settings only reach it from the validated form, and the class invariant carries that.
- QuizSession.QuizManager.constructor requires the same of settings already in the store.
- QuizBuilder.MakeQuestionSpec applies only when a question type exists.
- QuizResults.PerfectScoreSmallQuiz: "100% iff all right" is stated below 200 questions only, because rounding gives 100 for 199 of 200 (QuizResults.PerfectScoreWithMistake).
- TypingQuestion.TypingWidget.Proceed: a repeated tap reports again, because the pause is not cleared. The parent has already moved on.
- In the quiz, the typing widget's "don't know" button reports through `onAnswer(false)`. `QuizManager`'s `handleSkip` is therefore not reached from it; it is modelled as `QuizSession.QuizManager.Skip`.
- The review passes no `onSkip`.
- Widget remounts: React remounts a widget only when its `key` changes, and the review keys it by `currentWord.id` (src/components/quiz/AdaptiveReview.tsx:66). `TypingQuestion` also resets when its `word` object changes (src/components/quiz/TypingQuestion.tsx:27-33). A new word is modelled as `ShowWord` or a fresh object. The model does not tie the review class to the widget, so re-asking the same word in a row, where neither happens and a real widget would stay answered, is stated only by AdaptiveReview.RequeuedLastKeepsKey.
- The setup form's disabled list buttons are not enforced. `ClickFile` accepts any id.
- `QuestionDisplay.tsx` (which widget and mode a question gets) is not part of this model.
- The file-management page, CSV import and navigation components are not part of this model.
