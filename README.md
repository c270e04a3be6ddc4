# QuizMaster: the attempt pipeline and the quiz page, in Dafny

QuizMaster is a Flask quiz application. An administrator builds quizzes, partly by
importing questions from a spreadsheet. A learner takes a quiz in the browser, submits it,
and later reviews the score. This project models the parts of it that compute things:

- **Upload gate** (`Upload`): `allowed_file`, the extension test every upload passes.
- **Spreadsheet import** (`Importer`): the `import` branch of `manage_questions`. It checks
  the header for the six required columns and validates each row. Option 4 is normalised and
  `correct_option` is read as `int(float(...))`. Every row is staged in the database session.
  The first bad row rolls everything back, so nothing of the sheet is stored.
- **Python text primitives** (`PyText`): `str.strip`, `str(int)`, `int(str)`, `float(str)`
  and `int(float)`. The importer and the grading depend on their edge cases.
- **Stored records** (`Records`): questions, attempts (`Score`) and the database session
  as a class. Its pending list is committed with fresh ids or rolled back.
- **Grading** (`Scoring`): the answer dictionary `submit_quiz` builds from the form, and the
  count of right answers. Percentages use Python's `round`, which rounds halves to the even
  neighbour, computed on exact fractions. It also has the correct / wrong / not-attempted
  breakdown that `view_score` and `review_quiz` compute.
- **Results pages** (`Results`): `submit_quiz` and the session snapshot of an attempt's
  answers. The snapshot's keys turn into text on the way through the session's JSON.
  The module also covers `view_score`, `review_quiz`, and the score charts and best/worst
  statistics of `user_detail` and `user_dashboard`.
- **Quiz page script** (`QuizPage`): the state machine of `static/js/quiz.js`, as a class
  with the script's module-level variables as fields. It tracks which question is shown and
  each question's status. It also holds the counts beside the progress bar, the colours of
  the navigator buttons, the countdown and the final submit.

Python dictionaries with integer keys and with string keys are kept apart (`Scoring.Key`),
so the JSON round trip of the session is explicit. The store's order of attempts is taken
as their time order: `order_by(time_stamp_of_attempt)` is the store order, and `.desc()` is
its reverse.

A whitespace-only `option_4` that does not say "none" is stored as the empty text
(`str(v).strip()`, app.py:162-164), not as "Not applicable" (`Importer.Option4Value`).

## Model

| member | source | states |
|---|---|---|
| Upload.AllowedFileIff | app.py:55-56 | a file name is accepted exactly when it has a '.' that no later '.' follows and the text after it is, ignoring case, one of the six extensions |
| Upload.AllowedUpperCaseSpreadsheet | app.py:55-56 | the extension test ignores case: "Q.XLSX" passes |
| Upload.LastPartDecides | app.py:55-56 | only the part after the last dot counts: "q.csv.txt" is refused |
| Upload.LastDot | app.py:56 | the position found is a '.', and no '.' follows it; with no position, the name has no '.' |
| PyText.TrailingSpaces | app.py:149 | the count of trailing characters `strip` drops after the leading ones (or `int()` and `float()` skip): all of them skipped, and the one before them, if any, not |
| PyText.LeadingSpaces | app.py:149 | the count of leading characters `strip` drops (or, for `int()` and `float()`, the whitespace they skip): all of them skipped, and the next one, if any, not |
| PyText.Strip | app.py:149 | `strip` gives a slice of the input with only whitespace around it and none at its own ends; the number readers' variant skips all whitespace but U+001C to U+001F |
| PyText.IntRefusesSeparator | app.py:756 | `int()` of digits behind a U+001C separator is refused, although `strip()` would drop the separator |
| PyText.FloatRefusesSeparator | app.py:154 | `float()` of digits behind a U+001C separator is refused |
| PyText.StripDropsSeparator | app.py:149 | `strip()` drops a U+001C separator in front of a text |
| PyText.StripEmptyIffAllSpace | app.py:149 | a value is empty after `strip()` exactly when it is all whitespace |
| PyText.StripUntrimmed | app.py:162-164 | text with no whitespace at its ends comes back from `strip()` unchanged |
| PyText.NatStr | app.py:752 | `str(n)` of a natural number is one or more digits, with a leading '0' only for 0 |
| PyText.DigitsValueOfNatStr | app.py:752 | the digits of `str(n)` denote n |
| PyText.ParseIntStr | app.py:287 | `int(str(n)) == n` for every integer (Python's 4300-digit conversion limit aside, see Left out) |
| PyText.StrInjective | app.py:287 | distinct integers have distinct decimal texts |
| PyText.TruncateFloat | app.py:154 | `int()` of a float keeps its sign, refuses a NaN and refuses an infinity |
| PyText.TruncatesTowardZero | app.py:154 | `int()` of a finite float with a fraction is the whole part, toward zero |
| PyText.TruncateFloatStr | app.py:154 | `int(float(str(n))) == n` for every integer |
| PyText.FourAndAHalf | app.py:154 | `float("4.5")` is 45 tenths, and `int()` of it is 4 |
| PyText.NaNWord | app.py:154 | `float("NaN")` is a NaN |
| Records.Numbered | app.py:185 | a commit gives the pending questions consecutive ids, in the order they were added |
| Records.QuestionsOf | app.py:226 | a quiz's questions are exactly the stored questions with its quiz id, kept in store order (a subsequence of the store) |
| Records.QuestionsOfIncreasing | app.py:744 | a quiz's questions keep increasing, hence distinct, ids |
| Records.AttemptsOf | app.py:648 | a learner's attempts are exactly the stored attempts with their user id, kept in store order (a subsequence of the store) |
| Records.Database.Add | app.py:176 | `db.session.add` appends the question to the pending list |
| Records.Database.Commit | app.py:185 | a commit stores the pending questions, numbered from the next free id, and empties the pending list |
| Records.Database.Rollback | app.py:180 | a rollback drops every pending question |
| Records.Database.InsertScore | app.py:769-775 | an attempt is stored with a fresh id, after the attempts already stored |
| Records.Database.FindScore | app.py:218 | the attempt found has the requested id; none is found only when no stored attempt has it |
| Importer.ColumnNames | app.py:134 | the six required columns, in the order they are checked, and option_4 differs from every other column |
| Importer.IsBlankIsStripEmpty | app.py:149 | a blank cell is one that is missing or empty after `strip()` |
| Importer.MissingExact | app.py:136 | the missing-column list names exactly the required columns the header lacks |
| Importer.FirstBlankAmong | app.py:144-150 | the field reported is the first listed one, other than option_4, that is blank: it is blank and every such field before it is filled; with none reported, every such field is filled |
| Importer.NormalizeOption4 | app.py:145-148 | a missing or "none" option_4 becomes "Not applicable", and no other cell changes |
| Importer.CheckRequiredFields | app.py:144-150 | the loop over the required columns reports the first blank field, or yields the row with option_4 normalised |
| Importer.ParseCorrectOption | app.py:153-159 | an accepted correct option lies in 1..4; every refusal says why the number was refused |
| Importer.ParseCorrectOptionOfNumber | app.py:153-156 | a whole number is accepted as itself exactly when it is 1 to 4, and otherwise refused as out of range |
| Importer.FractionalOptionTruncated | app.py:154 | "4.5" is option 4: the fraction is cut before the range check |
| Importer.NaNOptionRefused | app.py:154 | "NaN" is refused by the integer conversion |
| Importer.Option4Value | app.py:147-164 | option_4 is stored as "Not applicable" when missing or "none", and otherwise as its stripped text, which never reads "none" |
| Importer.NotApplicableSaysNone | app.py:162-164 | "Not applicable" survives the second normalisation unchanged |
| Importer.BuildAfterNormalize | app.py:147-164 | the two option_4 replacements together store `Option4Value` of the cell |
| Importer.BuildChecked | app.py:166-175 | a question built from a row without blank fields has a non-empty statement and first three options, the row's quiz id, correct option and image |
| Importer.NormalizeTwice | app.py:147-148 | normalising option_4 twice is normalising it once |
| Importer.FirstBlankIgnoresOption4 | app.py:145-150 | the blank-field search does not look at option_4 |
| Importer.ValidateFieldsSteps | app.py:144-175 | the field pass reports the first blank field other than option_4, and otherwise continues with option_4 normalised |
| Importer.ValidateRowSteps | app.py:141-175 | a row is refused for its first blank required field, and otherwise the correct option decides |
| Importer.ValidRowFields | app.py:141-175 | an accepted row's question has a correct option in 1..4 and non-empty statement and first three options; a blank-field refusal names a required column other than option_4 |
| Importer.ValidRowOptions | app.py:162-173 | an accepted row stores its image text unchanged and option_4 as `Option4Value` says |
| Importer.ValidRowTexts | app.py:153-173 | an accepted row stores its statement and first three options stripped of outer whitespace, and as its correct option the number `int(float(...))` reads from its cell |
| Importer.RowResults | app.py:139 | one result per row, in row order |
| Importer.CollectRowsOk | app.py:139-186 | rows are collected exactly when none failed, and then one question per row, in order |
| Importer.CollectRowsErr | app.py:179-183 | a failed collection names its first failing row, counted from 1, and that row's failure |
| Importer.ImportRowsOk | app.py:139-186 | a sheet imports exactly when every row is valid, and row i becomes question i |
| Importer.ImportRowsErr | app.py:179-183 | a refused sheet names its first invalid row, numbered from 1, and why it was refused |
| Importer.ImportSheetColumns | app.py:134-137 | a header missing a required column refuses the sheet whatever its rows, naming exactly the absent columns |
| Importer.ImportedQuestionsWellFormed | app.py:139-186 | an imported sheet yields one question per row, each in the quiz, with a correct option in 1..4 and non-empty required texts |
| Importer.CollectRowsPrefixErr | app.py:183 | once a prefix of the rows fails, the whole sheet fails the same way |
| Importer.CollectRowsStep | app.py:141-183 | one more row either appends its question to those taken so far or fails the sheet with its row number |
| Importer.ImportRow | app.py:141-183 | an accepted row appends its question to the pending list; a refused row empties it and reports why |
| Importer.StageRows | app.py:141-183 | the row loop stages every row's question in order, or stops at the first refused row with the session emptied and that row's error |
| Importer.ImportQuestions | app.py:134-191 | the outcome is the sheet's; on success every row's question is stored with fresh ids; on failure nothing is stored; attempts are untouched |
| Importer.ImportUpload | app.py:124-191 | a learner is refused; a file name that is not allowed is not read; otherwise the import decides |
| Scoring.RoundHalfEven | app.py:766 | the result is nearest to n/d, and on a tie it is even |
| Scoring.NearNeighbours | app.py:766 | two whole numbers each nearest to the same fraction differ by at most one, and only on a tie |
| Scoring.RoundHalfEvenUnique | app.py:766 | nearest with ties to even determines one whole number |
| Scoring.PercentBounds | app.py:763-766 | a share of a whole is a percentage in 0..100: none of it is 0 and all of it is 100 |
| Scoring.PercentExamples | app.py:766 | halves go to the even neighbour: 1 of 8 is 12, 3 of 8 is 38, 2 of 3 is 67 |
| Scoring.CollectAnswersKeys | app.py:751-757 | the answers are keyed by exactly the ids of the questions the form answers |
| Scoring.CollectAnswersValues | app.py:751-757 | every answer sits under an integer question id and is the number `int()` reads from that question's field |
| Scoring.CollectAnswersOkIff | app.py:755-756 | the answers are collected exactly when `int()` reads every answered field |
| Scoring.CollectAnswersErr | app.py:756 | a refused submission names an answered question whose text `int()` cannot read |
| Scoring.Breakdown | app.py:236-243 | correct, wrong and not attempted add up to the number of questions |
| Scoring.BreakdownAgree | app.py:236-243 | the breakdown only looks at the answers under the questions' own integer ids |
| Scoring.BreakdownNoAnswers | app.py:229-243 | with no answers every question is not attempted |
| Scoring.BreakdownAttempted | app.py:781-782 | over distinct ids, correct plus wrong is the number of answer keys that belong to the quiz |
| Scoring.CorrectCountIsBreakdown | app.py:760-761 | over distinct ids, the right answers counted while grading are the breakdown's correct count |
| Scoring.GradeAnswers | app.py:751-761 | the grading loop yields the answer dictionary and the number of right answers, or the first answer `int()` refuses |
| Scoring.GradeStep | app.py:751-761 | one more graded question adds its answer when the form holds one, and one right answer when it is the correct option |
| Scoring.CollectPrefixErr | app.py:756 | once a prefix of the questions has an unreadable answer, the whole form is refused with it |
| Scoring.SummaryAgrees | app.py:763-785 | the submit page's not attempted is the breakdown's; correct, wrong and not attempted add up to the quiz; score and accuracy lie in 0..100 |
| Results.StrIsInjective | app.py:287 | distinct question ids have distinct snapshot keys |
| Results.ParseIntStrAll | app.py:287 | every snapshot key reads back as the id it was written from |
| Results.Persist | app.py:778 | the session keeps each answer under the decimal text of its question id, and nothing else |
| Results.RestoreKeys | app.py:287 | the converted snapshot is keyed by integers |
| Results.RestoreKeysSpec | app.py:287 | the converted snapshot holds id n exactly when the snapshot holds the text of n, with the same answer |
| Results.RestoreKeepsAnswers | app.py:287 | every answer stored comes back under its question's id |
| Results.RestoreAddsNothing | app.py:287 | nothing comes back that was not stored |
| Results.RestoreAfterPersist | app.py:285-287 | converting the stored snapshot gives back exactly the answers `submit_quiz` built |
| Results.PersistedAnswersUnseen | app.py:229-243 | without the conversion, the breakdown of a stored snapshot is all not attempted |
| Results.Session.Save | app.py:778 | saving a snapshot replaces that entry with the answers as JSON returns them |
| Results.Session.Load | app.py:285 | a missing entry reads as the empty dictionary; a present one as stored, with text keys |
| Results.CountBreakdown | app.py:236-243 | the counting loop computes the breakdown |
| Results.Take | app.py:657-658 | `s[:k]` is the first min(k, \|s\|) entries |
| Results.Last | app.py:657-662 | the last min(k, \|s\|) entries |
| Results.Reversed | app.py:661-662 | entry i is the input's entry from the end |
| Results.TrendOf | app.py:657-658 | one label and one data point per attempt, in the order given |
| Results.ReverseInPlace | app.py:661-662 | `list.reverse()` leaves the list reversed |
| Results.ChronologicalTrend | app.py:657-662 | the chart is the first `limit` newest-first attempts, reversed |
| Results.RecentInOrder | app.py:657-662 | the first k of the newest-first order, reversed, are the k most recent attempts, oldest first |
| Results.LearnerTrendIsRecent | app.py:788-790 | the corrected learner chart is the admin chart's selection, and it ends with the newest attempt |
| Results.LearnerTrendAsWrittenMissesNewest | app.py:788 | with eleven attempts, the chart as written leaves out the newest |
| Results.Highest | app.py:653 | the best score is that of some attempt and at least every attempt's; 0 without attempts |
| Results.Lowest | app.py:654 | the worst score is that of some attempt and at most every attempt's; 0 without attempts |
| Results.SameScores | app.py:648-654 | best and worst do not depend on the order of the attempts |
| Results.UserDetail | app.py:640-662 | learners are refused; the page lists the attempts newest first with their count, best and worst, and charts the ten most recent, oldest first |
| Results.ChartOldestFirst | app.py:715-720 | the dashboard chart is the recent attempts reversed |
| Results.UserDashboard | app.py:698-720 | the administrator is redirected; a learner sees their five most recent attempts newest first and charted oldest first |
| Results.ViewScoreAsWritten | app.py:214-253 | admin redirect, not found and not owner in that order; the breakdown is computed on the snapshot without key conversion, with the ten oldest attempts charted |
| Results.ViewScore | app.py:214-253 | the same refusals; the breakdown is computed on the converted snapshot, with the ten most recent attempts charted |
| Results.ReviewQuiz | app.py:270-301 | the same refusals; the breakdown of the requested quiz's questions against the converted snapshot |
| Results.ReviewWithoutSnapshot | app.py:285-287 | with no snapshot every question of the review is not attempted |
| Results.SubmitQuiz | app.py:739-790 | the administrator is redirected; an unreadable answer stores nothing; otherwise one attempt is stored with the percentage score, its answers are saved in the session under its id, and the page charts the learner's attempts as written (the ten oldest, `LearnerTrendAsWritten`) |
| Results.RecordAttempt | app.py:769-777 | the attempt is stored after the others with a fresh id, and the session keeps its answers, keys as text, under that id |
| Results.ReviewReproducesSubmit | app.py:778-782 | reviewing an attempt right after submitting it gives the submit page's correct, wrong and not-attempted counts |
| Results.ViewScoreLosesAnswers | app.py:237 | one question answered correctly shows on the result page as not attempted, and in the review as correct |
| QuizPage.StatusesPartition | static/js/quiz.js:67-68 | every visited question has exactly one of the three statuses |
| QuizPage.UnansweredAgree | static/js/quiz.js:69 | the progress bar and the submit warning count the same unanswered questions |
| QuizPage.Numbers | static/js/quiz.js:210 | the question numbers 1 to n, n of them |
| QuizPage.ProgressBounds | static/js/quiz.js:67-69 | answered + review + unanswered is the number of questions, each count within it |
| QuizPage.NavigatorShowsStatus | static/js/quiz.js:92-102 | exactly the current question is drawn as current, and every other button shows its question's status or that it was not visited |
| QuizPage.NavigatorOf | static/js/quiz.js:85-103 | one button per question, each coloured by the navigator's priority |
| QuizPage.Pad2 | static/js/quiz.js:127 | `padStart(2, '0')` prefixes zeros up to two characters and keeps the text at its end |
| QuizPage.ClockFace | static/js/quiz.js:125-126 | minutes times 60 plus seconds is the time left, with seconds below 60 |
| QuizPage.LeadingZero | static/js/quiz.js:127 | a leading zero does not change the number shown |
| QuizPage.TwoDigits | static/js/quiz.js:127 | a number below 100 is padded to two digits that read back as it |
| QuizPage.TimerTextReadsBack | static/js/quiz.js:125-127 | below 100 minutes the timer reads "MM:SS", and the two numbers give back the seconds left |
| QuizPage.Quiz.constructor | static/js/quiz.js:208-221 | the first question is shown and marked not answered if there is one, the countdown starts when the quiz has a duration, and nothing is submitted |
| QuizPage.Quiz.Load | static/js/quiz.js:208-242 | on a page with no question visited, the first question becomes current and "Not Answered", the countdown starts from the duration, and the page stays consistent |
| QuizPage.Quiz.UpdateProgressBar | static/js/quiz.js:66-78 | the counts on the page are those of the statuses |
| QuizPage.Quiz.UpdateQuestionNavigator | static/js/quiz.js:82-104 | every navigator button gets the class of its question |
| QuizPage.Quiz.ShowQuestion | static/js/quiz.js:14-34 | a question of the page becomes current and gets "Not Answered" only on its first visit; any other number changes nothing |
| QuizPage.Quiz.UpdateQuestionStatus | static/js/quiz.js:37-41 | only the given question's status changes |
| QuizPage.Quiz.NavigateQuestion | static/js/quiz.js:44-49 | the move happens only when the target is a question of the page; a target visited for the first time is marked not answered, and no other status changes |
| QuizPage.Quiz.ClearAnswer | static/js/quiz.js:52-63 | the current question becomes "Not Answered", nothing else changes |
| QuizPage.Quiz.SelectOption | static/js/quiz.js:227-233 | choosing an option marks the current question answered |
| QuizPage.Quiz.MarkForReview | static/js/quiz.js:154-157 | the current question is marked for review, then the next is shown if there is one and marked not answered on its first visit; no other status changes |
| QuizPage.Quiz.SubmitQuiz | static/js/quiz.js:159-181 | unless time is up, the warning shows the not-answered plus not-visited count; a declined warning changes nothing; otherwise the form is sent and the flags set |
| QuizPage.Quiz.StartTimer | static/js/quiz.js:107-109 | the countdown starts from the given minutes in seconds |
| QuizPage.Quiz.Tick | static/js/quiz.js:114-127 | a second less; at zero the timer stops, time is up and the quiz is submitted without asking; otherwise the clock shows the time left |

## Left out

- Flask routing and templates: redirects, `flash` messages, rendering and logging are
  reduced to a `Refusal` or to the values a page shows.
- `login_required` is left out. The signed-in user is a parameter (`Records.Principal`).
- `Quiz.query.get_or_404` and `User.query.get_or_404` in `submit_quiz`, `review_quiz`
  and `user_detail` are left out; the quiz or user is taken to exist. `view_score`'s
  missing attempt is modelled.
- `review_quiz` does not check that the attempt belongs to the quiz in its URL. The model
  keeps that.
- pandas: reading the CSV or Excel file is left out. The sheet is given as a header and rows
  of optional texts. Which reader the extension picks is not modelled.
- pandas cell typing is left out: `dtype=str` gives text, and a missing value is `None`.
  Its `str()` prints as "nan", but every path that prints it first tests for a missing value.
- Files: `handle_file_upload`'s `secure_filename`, saving and folder creation, and the
  final `os.remove`, are left out. The file name is a parameter.
- The WTForms validation of the import form and the single-question form branch of
  `manage_questions` are left out.
- SQLAlchemy is reduced to a class holding sequences. Ids are handed out in order on
  commit. Rows other than questions and attempts are left out, as are queries other than
  the filters modelled.
- Store order is taken as time order. Ties between equal timestamps are not modelled.
- `strftime`: a chart label is the attempt's timestamp itself, not its formatted date.
- `avg_score` (app.py:652) is a float division and is left out.
- Results.Accuracy and Scoring.Percent: percentages are Python's `round` of the exact
  fraction. Rounding of binary64 division at the final bit is not modelled. For 23 correct
  of 40, Python computes `23 / 40 * 100` as 57.49999999999999 and rounds it to 57; the model
  rounds the exact 57.5 to 58.
- PyText.ParseInt and PyText.ParseFloat: only ASCII digits are recognised. Python also
  accepts other Unicode decimal digits. Around the number they skip every `str.isspace`
  character except U+001C to U+001F, as CPython's `int()` and `float()` do.
- PyText.ParseInt: CPython's limit on integer string conversion (4300 digits by default,
  set by `sys.set_int_max_str_digits`) is not modelled. A form answer of more than 4300
  digits makes `int()` raise in `submit_quiz`, while the model reads it. `str(n)` for
  |n| of 10^4300 or more raises too, so `ParseIntStr` holds in Python only below that.
- PyText.ParseFloat: a float is kept as an exact decimal, not as binary64. So `int()` of a
  literal beyond binary64 precision, or beyond its range, is the exact truncation.
- PyText.LowerAscii lowers ASCII letters only. That is exact for the comparisons the core
  makes ("none" and the six extensions), but not for Unicode case mapping in general.
- Results.Persist keeps only integer keys. `submit_quiz` never builds any other kind.
- The session is a map in memory. Cookie signing, size limits and expiry are left out.
- quiz.js DOM work is left out: hiding and showing cards, unchecking radio inputs in
  `clearAnswer`, and the progress bar and timer bar widths and colours (float percentages,
  lines 72-73 and 130-143).
- The sticky timer bar (`setupStickyElements`) is left out.
- `setInterval` timing is left out. `Tick` is one call of the interval's callback.
- QuizPage.Quiz: the page is taken to number its cards and navigator buttons 1 to the
  number of cards, as the quiz template does. The template is not part of this model.
- QuizPage.Quiz.ClearAnswer requires that the current question exists on the page. On a
  page without questions the script fails looking up the card.
- QuizPage.Quiz.constructor starts the counts and the navigator as drawn from no statuses.
  The server-rendered first state of the page is not part of this model.
- QuizPage.Quiz.constructor takes the duration as a parsed number. A `data-duration` that
  `parseInt` cannot read (NaN) is not modelled.
- The `submit` listener of the form (quiz.js:245-247) only repeats what `submitQuiz` sets.
  The `beforeunload` prompt is `QuizPage.Quiz.WarnsOnLeave`.
- Importer.Option4Value states only the value stored. It does not show that the
  whitespace-only case is indistinguishable from an empty cell once stored.

## Findings

| source | as written | input that shows it | evidently intended | confidence | as-written member | corrected member |
|---|---|---|---|---|---|---|
| app.py:229-243 | `view_score` reads the answer snapshot from the session and tests `question.id in user_answers`. The session hands the dictionary back through JSON with text keys, so no integer id is ever found. | a quiz with question 1, correct option 2; the learner answers 2 and opens the score page: shown as 0 correct, 0 wrong, 1 not attempted | convert the keys back to integers as `review_quiz` does (app.py:287), so the page shows 1 correct | not executed | Results.ViewScoreAsWritten, Results.PersistedAnswersUnseen, Results.ViewScoreLosesAnswers | Results.ViewScore, Results.RestoreAfterPersist, Results.ReviewReproducesSubmit |
| app.py:788 | the learner's progress chart orders attempts by time ascending and takes `.limit(10)`, which keeps the ten oldest | eleven attempts, ten scoring 0 then one scoring 100: the chart shows ten zeros and never the new 100 | the ten most recent, oldest first, as the admin chart (app.py:657-662) and the dashboard chart (app.py:708-720) select them | not executed | Results.LearnerTrendAsWritten, Results.LearnerTrendAsWrittenMissesNewest, Results.SubmitQuiz | Results.LearnerTrend, Results.LearnerTrendIsRecent |
