# Micro-learning progress and scoring engine, in Dafny

This project models the three in-memory services behind a micro-learning web
application and proves properties of them:

- **LessonService** keeps the lesson catalog. It answers lookups by id, by category
  (case-insensitive), "today's lessons" (the first three), completed lessons, text
  search over title, content and tags, and lessons completed in the trailing week. It
  stamps a lesson as completed.
- **QuizService** keeps the quizzes. It looks them up by id and by lesson, and grades a
  submitted answer sheet against each question's `correctAnswer`. The score is the
  rounded percentage. Score, timestamp and answers are stored on the quiz. It lists
  graded quizzes and those graded in the trailing week.
- **UserProgressService** keeps one progress record:
  - a calendar-day streak;
  - a lesson counter;
  - a per-category score history capped at ten entries;
  - a preferred difficulty moved in half steps between 1 and 5.

Each service is a class whose fields are the arrays and the record the original
mutates:
- `lessons: seq<Lesson>`;
- `quizzes: seq<Quiz>`;
- the five progress fields.

Read operations, which are `find`/`filter`/`slice` expressions in the original, are
functions that read the object. Operations that overwrite an array slot or a field are
methods with `modifies this`. Their postconditions state the new state in terms of the
old one.

The user-progress transitions are also given as functions on a `Progress` value. The
lemmas relating several calls are stated over those functions. Examples are:
- streak idempotence on one day;
- the streak over consecutive days;
- the ten-entry window over many pushes;
- the difficulty range over many adjustments.

Shared pieces:
- `Sequences` holds `filter` and `findIndex`. `FilteredBy` specifies a filter's result
  independently: the result is a subsequence holding every matching element with its
  multiplicity. `FilteredByUnique` proves that this pins the result down.
- `Text` holds `toLowerCase` and `includes`.
- `Clock` holds the millisecond constants, the inclusive weekly window and the calendar
  day of a timestamp.

Conventions of the model:
- Time is an integer count of milliseconds passed in as `now`.
- A calendar day is `now / 86400000`.
- The preferred difficulty is an integer count of half steps: 2 means 1.0 and 10 means
  5.0.
- `Math.round(100·k/n)` is the integer `(200k + n) / (2n)`.

## Model

| member | source | states |
|---|---|---|
| Sequences.Filter | src/services/api/lessonService.js:26-28 | `filter` returns exactly the matching elements, each as often as in the input, in input order (`FilteredBy`) |
| Sequences.FilteredByUnique | src/services/api/lessonService.js:26-28 | any sequence meeting `FilteredBy` is the filter's result, so the filter specification is complete |
| Sequences.FirstIndex | src/services/api/lessonService.js:41 | `findIndex` finds nothing iff no element matches; otherwise it returns the first matching position |
| Text.Includes | src/services/api/lessonService.js:64-66 | `includes` holds iff the query occurs in the text at some offset |
| Text.IncludesEmpty | src/services/api/lessonService.js:62-66 | every text includes the empty query |
| Text.Lower | src/services/api/lessonService.js:27 | lower-casing keeps the length and lower-cases each letter A-Z |
| Text.LowerIdempotent | src/services/api/lessonService.js:27 | lower-casing twice equals lower-casing once |
| Lessons.IndexOfId | src/services/api/lessonService.js:41-44 | the position of the first lesson with the id, or none iff no lesson has it |
| Lessons.OccursOnce | src/services/api/lessonService.js:39-58 | with unique ids, every lesson occurs exactly once in the catalog |
| Lessons.LessonService.constructor | src/services/api/lessonService.js:6-8 | the catalog starts as the seed data |
| Lessons.LessonService.GetAll | src/services/api/lessonService.js:10-13 | the whole catalog, in order, as a value later updates cannot alter |
| Lessons.LessonService.GetById | src/services/api/lessonService.js:15-22 | fails with "Lesson not found" iff no lesson has the id; otherwise returns the first lesson with that id |
| Lessons.LessonService.GetByCategory | src/services/api/lessonService.js:24-30 | exactly the lessons whose lower-cased category equals the lower-cased argument, in catalog order |
| Lessons.LessonService.GetTodaysLessons | src/services/api/lessonService.js:32-37 | a prefix of the catalog of length min(3, catalog size) |
| Lessons.LessonService.MarkCompleted | src/services/api/lessonService.js:39-52 | absent id: error and nothing changes. Otherwise only the first matching slot changes, and only its `completedAt`, which becomes `now`. The returned lesson is then among the completed lessons, exactly once when ids are unique, and unique ids are preserved |
| Lessons.LessonService.GetCompletedLessons | src/services/api/lessonService.js:54-58 | exactly the lessons with `completedAt` set, in catalog order |
| Lessons.LessonService.SearchLessons | src/services/api/lessonService.js:60-69 | exactly the lessons whose lower-cased title, content or some tag contains the lower-cased query, in catalog order |
| Lessons.SearchEmptyReturnsAll | src/services/api/lessonService.js:60-69 | searching for the empty query returns the whole catalog |
| Lessons.LessonService.GetWeeklyCompletedLessons | src/services/api/lessonService.js:71-83 | exactly the lessons completed in `[now − 7·24·3600·1000, now]`, both bounds included, in catalog order |
| Quizzes.CorrectCount | src/services/api/quizService.js:41-48 | the number of correctly answered questions never exceeds the number of questions |
| Quizzes.CountCorrectAnswers | src/services/api/quizService.js:41-48 | the `forEach` loop counts exactly `CorrectCount(questions, answers)` |
| Quizzes.AllCorrect | src/services/api/quizService.js:44-48 | the count equals the number of questions iff every question is answered correctly |
| Quizzes.NoneCorrect | src/services/api/quizService.js:44-48 | the count is zero iff no question is answered correctly |
| Quizzes.ExtraAnswersIgnored | src/services/api/quizService.js:44-46 | answers beyond the last question do not change the count |
| Quizzes.MissingAnswersWrong | src/services/api/quizService.js:44-46 | questions beyond the last answer count as wrong: only the answered prefix is graded |
| Quizzes.Percent | src/services/api/quizService.js:50 | the score lies in [0,100] and is the nearest integer to 100·correct/total, halves rounded up |
| Quizzes.PercentMonotonic | src/services/api/quizService.js:50 | more correct answers never lower the score |
| Quizzes.PercentExtremes | src/services/api/quizService.js:50 | all correct scores 100 and none correct scores 0. Conversely, 100 means all correct when there are fewer than 200 questions, and 0 means none correct when there are at most 200 |
| Quizzes.PercentRoundingLimits | src/services/api/quizService.js:50 | those question-count limits are attained: 199/200 rounds to 100 and 1/201 rounds to 0 |
| Quizzes.QuizService.constructor | src/services/api/quizService.js:6-8 | the quizzes start as the seed data |
| Quizzes.QuizService.GetAll | src/services/api/quizService.js:10-13 | all quizzes, in stored order |
| Quizzes.QuizService.GetById | src/services/api/quizService.js:15-22 | fails with "Quiz not found" iff no quiz has the id; otherwise returns the first quiz with that id |
| Quizzes.QuizService.GetByLessonId | src/services/api/quizService.js:24-31 | fails with "Quiz not found for this lesson" iff no quiz belongs to the lesson; otherwise returns the first quiz that does |
| Quizzes.QuizService.SubmitQuiz | src/services/api/quizService.js:33-66 | absent id: error and nothing changes. Otherwise only the first matching slot changes: its questions are kept, and score, `completedAt` and `userAnswers` are replaced. The result reports the correct count, the question count and the score in [0,100], and the stored quiz is among the graded ones |
| Quizzes.QuizService.GetUserQuizResults | src/services/api/quizService.js:68-72 | exactly the quizzes with `completedAt` set, in stored order |
| Quizzes.QuizService.GetWeeklyQuizResults | src/services/api/quizService.js:74-86 | exactly the quizzes graded in `[now − 7 days, now]`, both bounds included, in stored order |
| UserProgress.StreakUpdated | src/services/api/userProgressService.js:15-37 | last activity today: nothing changes. Yesterday: streak + 1. Any other day, or none: streak 1. In the last two cases the activity is stamped `now`; nothing else changes |
| UserProgress.StreakOncePerDay | src/services/api/userProgressService.js:15-37 | a second update on the same calendar day changes nothing |
| UserProgress.StreakCountsConsecutiveDays | src/services/api/userProgressService.js:21-29 | one visit on each of n consecutive days after the last activity raises the streak by n |
| UserProgress.StreakResetsAfterGap | src/services/api/userProgressService.js:29-32 | a visit two or more days after the last activity restarts the streak at 1 |
| UserProgress.LessonCounted | src/services/api/userProgressService.js:39-44 | the lesson counter rises by exactly one, the activity is stamped `now`, nothing else changes |
| UserProgress.StreakAfterLessonCountedIsNoOp | src/services/api/userProgressService.js:39-44 | after counting a lesson, a streak update on the same day changes nothing |
| UserProgress.ScoresAfterPush | src/services/api/userProgressService.js:50-58 | the history ends with the new score. A history shorter than ten becomes `old + [s]`, one of ten or more becomes `old[1..] + [s]`, and at most ten stays at most ten |
| UserProgress.ScoreRecorded | src/services/api/userProgressService.js:46-62 | the category gets a history (created empty if absent) with the score pushed. Other categories and fields are unchanged |
| UserProgress.ScoreRecordedKeepsBound | src/services/api/userProgressService.js:55-58 | if every history holds at most ten scores, it still does after recording one |
| UserProgress.PushAllKeepsLatest | src/services/api/userProgressService.js:50-58 | starting within the limit, after any run of pushes the history is the last ten of all scores, oldest first |
| UserProgress.ElevenScoresDropTheFirst | src/services/api/userProgressService.js:55-58 | eleven pushes onto an empty history leave the last ten in push order, without the first |
| UserProgress.DifficultyStep | src/services/api/userProgressService.js:64-74 | above 80 and below 5 the difficulty rises half a step. Otherwise, below 60 and above 1 it falls half a step. It never moves for a performance in [60,80], and a value in [1,5] stays in [1,5] |
| UserProgress.DifficultyAdjusted | src/services/api/userProgressService.js:64-74 | only the preferred difficulty changes, by the step above |
| UserProgress.DifficultyStaysInRange | src/services/api/userProgressService.js:67-71 | a difficulty starting in [1,5] stays there over any run of adjustments |
| UserProgress.LessonCompletionAsIssued | src/components/pages/Lesson.jsx:87-93 | lesson count, category score, difficulty, then streak, in timer order: the lesson is counted and stamped `now`, the score recorded, the difficulty stepped, and the streak left as it was |
| UserProgress.LessonCompletion | src/components/pages/Lesson.jsx:87-93 | the same updates with the streak first: count, stamp, score and difficulty as above, and the streak moved as a lone `updateStreak` would move it |
| UserProgress.LessonCompletionNeverCreditsStreak | src/components/pages/Lesson.jsx:87-93 | with the updates in the order they take effect, the streak never changes |
| UserProgress.LessonCompletionCreditsStreak | src/components/pages/Lesson.jsx:87-93 | with the streak taken first, it moves as a lone `updateStreak` would (+1 after yesterday's activity); the lesson is still counted and stamped |
| UserProgress.LessonCompletionExample | src/components/pages/Lesson.jsx:87-93 | a 4-day streak last active yesterday stays 4 as issued and becomes 5 with the streak first |
| UserProgress.UserProgressService.constructor | src/services/api/userProgressService.js:6-8 | the record starts as the seed data |
| UserProgress.UserProgressService.GetProgress | src/services/api/userProgressService.js:10-13 | a snapshot value of all five fields |
| UserProgress.UserProgressService.UpdateStreak | src/services/api/userProgressService.js:15-37 | the new record is `StreakUpdated` of the old one, and the snapshot of it is returned |
| UserProgress.UserProgressService.IncrementLessonsCompleted | src/services/api/userProgressService.js:39-44 | the new record is `LessonCounted` of the old one |
| UserProgress.UserProgressService.UpdateCategoryScore | src/services/api/userProgressService.js:46-62 | the new record is `ScoreRecorded` of the old one, and histories within the limit stay within it |
| UserProgress.UserProgressService.AdjustDifficulty | src/services/api/userProgressService.js:64-74 | the new record is `DifficultyAdjusted` of the old one |
| UserProgress.UserProgressService.RecordLessonCompletion | src/components/pages/Lesson.jsx:87-93 | records a finished lesson with the streak updated first, as `LessonCompletion` |

## Left out

- The simulated latency (`delay` and `await`) is left out: every operation is synchronous.
- Concurrency is left out. The lesson page's `Promise.all` is modelled only through the order in which its updates take effect (see Findings).
- UserProgress.LessonCompletionAsIssued uses one `now` for every update of a lesson completion. The case where the lesson-count stamp and the streak update fall on either side of midnight is not modelled.
- The clock is a parameter. Each "current time" read becomes a `now` argument in milliseconds.
- Calendar days are counted in UTC (`now / 86400000`). The local time zone that `toDateString` uses is not modelled.
- Timestamps are stored as integers rather than ISO strings.
- `Text.Lower` lower-cases only the letters A to Z. Full Unicode case mapping is not modelled.
- Ids are integers. The `parseInt` of the argument is left out.
- The seed JSON files become constructor arguments.
- Quizzes.Percent computes `Math.round((k/n)*100)` on exact rationals. Floating-point rounding of `k/n*100` is not modelled. The two can differ on a tie: for 23 of 40 the exact value 57.5 rounds to 58 here, while the double product falls just below 57.5 and JavaScript gives 57.
- Quizzes.QuizService.SubmitQuiz requires every quiz to have at least one question (`Valid()`). For an empty quiz the original stores a `NaN` score, which this model does not represent.
- Submitted answers are integers. Any other JavaScript value in the answer array, which would never equal a `correctAnswer`, is not modelled.
- Returned records are values, so the aliasing of shallow copies is not modelled. That includes the score arrays and the stored `userAnswers` array, which the original shares with its callers.
- `categoryScores` is always a map: a missing map is the empty map.
- A falsy but present `completedAt` (an empty string) is not modelled. `completedAt` is either a timestamp or absent.
- The preferred difficulty is a whole number of half steps. A seed value that is not a multiple of 0.5 cannot be represented.
- `userProgressService.js` has no weekly-statistics aggregate (`getWeeklyStats`), so none is modelled.
- UserProgress.ScoresAfterPush drops at most one entry per push, as the code does. A seed history already longer than ten keeps its length instead of being cut to ten.
- The React components, routing and styling are not part of this model. This includes the duplicate grading and averaging helpers in the pages.

## Findings

| source | as written | input that shows it | evidently intended | confidence | as-written member | corrected member |
|---|---|---|---|---|---|---|
| src/components/pages/Lesson.jsx:87-93 | After a quiz, the page fires `incrementLessonsCompleted` before `updateStreak`, both with a 200 ms delay. The lesson count therefore stamps `lastActivity` with today first, and `updateStreak` then always takes its "same day" branch: finishing a lesson never advances the streak | last activity yesterday, streak 4, lesson finished today: the streak stays 4 | the streak becomes 5 | not executed; relies on equal-delay timers taking effect in the order they were set | UserProgress.LessonCompletionNeverCreditsStreak | UserProgress.LessonCompletionCreditsStreak |
