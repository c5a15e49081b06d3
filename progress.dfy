/** The user-progress service: one mutable record holding the daily streak, the lesson
    counter, a bounded score history per category and the preferred difficulty. */
module UserProgress {
  import opened Wrappers
  import opened Clock

  /** How many scores each category keeps. */
  const ScoreHistoryLimit: nat := 10

  /** The preferred difficulty is counted in half-steps: 2 is 1.0 and 10 is 5.0. */
  const MinDifficulty: int := 2
  const MaxDifficulty: int := 10

  /** A performance above this raises the difficulty; one below `LowerBelow` lowers it. */
  const RaiseAbove: int := 80
  const LowerBelow: int := 60

  datatype Progress = Progress(
    streak: int,
    lastActivity: Option<int>,
    totalLessons: int,
    categoryScores: map<string, seq<int>>,
    preferredDifficulty: int)

  /** The last activity fell on the given calendar day. */
  predicate ActiveOnDay(lastActivity: Option<int>, day: int)
  {
    lastActivity.Some? && DayOf(lastActivity.value) == day
  }

  // ---------------------------------------------------------------- streak

  /** `updateStreak`: nothing changes when the last activity was today; otherwise the
      streak continues (last activity yesterday) or restarts at 1, and the activity is
      stamped `now`. */
  function StreakUpdated(p: Progress, now: int): (q: Progress)
    ensures q.totalLessons == p.totalLessons && q.categoryScores == p.categoryScores
    ensures q.preferredDifficulty == p.preferredDifficulty
    ensures ActiveOnDay(p.lastActivity, DayOf(now)) ==> q == p
    ensures !ActiveOnDay(p.lastActivity, DayOf(now)) ==> q.lastActivity == Some(now)
    ensures !ActiveOnDay(p.lastActivity, DayOf(now)) ==>
              q.streak == if ActiveOnDay(p.lastActivity, DayOf(now) - 1) then p.streak + 1 else 1
  {
    var today := DayOf(now);
    if ActiveOnDay(p.lastActivity, today) then p
    else if ActiveOnDay(p.lastActivity, today - 1) then p.(streak := p.streak + 1, lastActivity := Some(now))
    else p.(streak := 1, lastActivity := Some(now))
  }

  /** A second update on the same calendar day changes nothing: the streak is credited at
      most once per day. */
  lemma StreakOncePerDay(p: Progress, now: int, later: int)
    requires DayOf(later) == DayOf(now)
    ensures StreakUpdated(StreakUpdated(p, now), later) == StreakUpdated(p, now)
  {
  }

  /** The streak updates of a sequence of visits, in order. */
  function StreakAfter(p: Progress, visits: seq<int>): Progress
    decreases |visits|
  {
    if visits == [] then p else StreakAfter(StreakUpdated(p, visits[0]), visits[1..])
  }

  /** Visits on consecutive calendar days, the first on `firstDay`. */
  predicate DailyVisits(visits: seq<int>, firstDay: int)
  {
    forall i :: 0 <= i < |visits| ==> DayOf(visits[i]) == firstDay + i
  }

  /** Visiting on each of n consecutive days after the last activity adds n to the streak. */
  lemma {:induction false} StreakCountsConsecutiveDays(p: Progress, visits: seq<int>)
    requires visits != [] && p.lastActivity.Some?
    requires DailyVisits(visits, DayOf(p.lastActivity.value) + 1)
    ensures StreakAfter(p, visits).streak == p.streak + |visits|
    ensures StreakAfter(p, visits).lastActivity == Some(visits[|visits| - 1])
    decreases |visits|
  {
    var q := StreakUpdated(p, visits[0]);
    if |visits| > 1 {
      assert DailyVisits(visits[1..], DayOf(q.lastActivity.value) + 1) by {
        forall i | 0 <= i < |visits[1..]| ensures DayOf(visits[1..][i]) == DayOf(q.lastActivity.value) + 1 + i {
          assert visits[1..][i] == visits[i + 1];
        }
      }
      StreakCountsConsecutiveDays(q, visits[1..]);
    }
  }

  /** A visit two or more days after the last activity restarts the streak at 1. */
  lemma StreakResetsAfterGap(p: Progress, now: int)
    requires p.lastActivity.Some? && DayOf(p.lastActivity.value) <= DayOf(now) - 2
    ensures StreakUpdated(p, now).streak == 1
  {
  }

  // ------------------------------------------------------------- lessons

  /** `incrementLessonsCompleted`: one more lesson, and the activity is stamped `now`. */
  function LessonCounted(p: Progress, now: int): (q: Progress)
    ensures q.totalLessons == p.totalLessons + 1 && q.lastActivity == Some(now)
    ensures q.streak == p.streak && q.categoryScores == p.categoryScores
    ensures q.preferredDifficulty == p.preferredDifficulty
  {
    p.(totalLessons := p.totalLessons + 1, lastActivity := Some(now))
  }

  /** Counting a lesson stamps today, so a streak update later that day does nothing. */
  lemma StreakAfterLessonCountedIsNoOp(p: Progress, now: int, later: int)
    requires DayOf(later) == DayOf(now)
    ensures StreakUpdated(LessonCounted(p, now), later) == LessonCounted(p, now)
  {
  }

  // -------------------------------------------------------- score history

  /** Pushes a score onto a history and then, if it has grown past the limit, drops the
      oldest entry once. */
  function ScoresAfterPush(history: seq<int>, score: int): (r: seq<int>)
    ensures r != [] && r[|r| - 1] == score
    ensures |history| < ScoreHistoryLimit ==> r == history + [score]
    ensures |history| >= ScoreHistoryLimit ==> r == history[1..] + [score]
    ensures |history| <= ScoreHistoryLimit ==> |r| <= ScoreHistoryLimit
  {
    var pushed := history + [score];
    if |pushed| > ScoreHistoryLimit then pushed[1..] else pushed
  }

  /** The scores recorded for a category; none when the category has no entry yet. */
  function HistoryOf(scores: map<string, seq<int>>, category: string): seq<int>
  {
    if category in scores then scores[category] else []
  }

  /** `updateCategoryScore`: the category's history (created empty when absent) takes the
      new score; the other categories and fields are untouched. */
  function ScoreRecorded(p: Progress, category: string, score: int): (q: Progress)
    ensures category in q.categoryScores
    ensures q.categoryScores[category] == ScoresAfterPush(HistoryOf(p.categoryScores, category), score)
    ensures q.categoryScores.Keys == p.categoryScores.Keys + {category}
    ensures forall c :: c in p.categoryScores && c != category ==> q.categoryScores[c] == p.categoryScores[c]
    ensures q.streak == p.streak && q.lastActivity == p.lastActivity
    ensures q.totalLessons == p.totalLessons && q.preferredDifficulty == p.preferredDifficulty
  {
    p.(categoryScores := p.categoryScores[category := ScoresAfterPush(HistoryOf(p.categoryScores, category), score)])
  }

  /** No category holds more scores than the limit. */
  ghost predicate HistoriesBounded(p: Progress)
  {
    forall c :: c in p.categoryScores ==> |p.categoryScores[c]| <= ScoreHistoryLimit
  }

  /** Recording a score keeps every history within the limit. */
  lemma ScoreRecordedKeepsBound(p: Progress, category: string, score: int)
    requires HistoriesBounded(p)
    ensures HistoriesBounded(ScoreRecorded(p, category, score))
  {
  }

  /** The last `n` elements of `s` (all of them when there are fewer). */
  function Latest(s: seq<int>, n: nat): (r: seq<int>)
    ensures |r| == if |s| < n then |s| else n
  {
    if |s| <= n then s else s[|s| - n..]
  }

  /** The history after pushing each of `scores` in turn. */
  function PushAll(history: seq<int>, scores: seq<int>): seq<int>
    decreases |scores|
  {
    if scores == [] then history
    else PushAll(ScoresAfterPush(history, scores[0]), scores[1..])
  }

  /** Starting within the limit, the history always holds the latest ten scores pushed
      (together with the older entries still within reach), oldest first. */
  lemma {:induction false} PushAllKeepsLatest(history: seq<int>, scores: seq<int>)
    requires |history| <= ScoreHistoryLimit
    ensures PushAll(history, scores) == Latest(history + scores, ScoreHistoryLimit)
    decreases |scores|
  {
    if scores != [] {
      var pushed := history + [scores[0]];
      PushIsLatest(history, scores[0]);
      PushAllKeepsLatest(Latest(pushed, ScoreHistoryLimit), scores[1..]);
      LatestOfLatest(pushed, scores[1..], ScoreHistoryLimit);
      assert pushed + scores[1..] == history + scores;
    }
  }

  /** Within the limit, one push keeps the latest ten of the history and the new score. */
  lemma PushIsLatest(history: seq<int>, score: int)
    requires |history| <= ScoreHistoryLimit
    ensures ScoresAfterPush(history, score) == Latest(history + [score], ScoreHistoryLimit)
  {
    if |history| == ScoreHistoryLimit {
      assert (history + [score])[1..] == history[1..] + [score];
    }
  }

  lemma LatestOfLatest(s: seq<int>, t: seq<int>, n: nat)
    ensures Latest(Latest(s, n) + t, n) == Latest(s + t, n)
  {
    if |s| > n {
      var u := s[|s| - n..];
      if |u + t| > n {
        assert (u + t)[|u + t| - n..] == (s + t)[|s + t| - n..];
      }
    }
  }

  /** Eleven scores pushed onto an empty history: the first is gone, the other ten remain
      in the order they were pushed. */
  lemma ElevenScoresDropTheFirst(scores: seq<int>)
    requires |scores| == ScoreHistoryLimit + 1
    ensures PushAll([], scores) == scores[1..]
  {
    PushAllKeepsLatest([], scores);
    assert [] + scores == scores;
  }

  // ------------------------------------------------------------ difficulty

  /** `adjustDifficulty` on the half-step difficulty `d`. */
  function DifficultyStep(d: int, performance: int): (r: int)
    ensures MinDifficulty <= d <= MaxDifficulty ==> MinDifficulty <= r <= MaxDifficulty
    ensures r > d ==> r == d + 1 && performance > RaiseAbove && d < MaxDifficulty
    ensures r < d ==> r == d - 1 && performance < LowerBelow && d > MinDifficulty
    ensures performance > RaiseAbove && d < MaxDifficulty ==> r > d
    ensures performance < LowerBelow && d > MinDifficulty ==> r < d
    ensures LowerBelow <= performance <= RaiseAbove ==> r == d
  {
    if performance > RaiseAbove && d < MaxDifficulty then d + 1
    else if performance < LowerBelow && d > MinDifficulty then d - 1
    else d
  }

  /** `adjustDifficulty` on the whole record: only the preferred difficulty moves. */
  function DifficultyAdjusted(p: Progress, performance: int): (q: Progress)
    ensures q.preferredDifficulty == DifficultyStep(p.preferredDifficulty, performance)
    ensures q.streak == p.streak && q.lastActivity == p.lastActivity
    ensures q.totalLessons == p.totalLessons && q.categoryScores == p.categoryScores
  {
    p.(preferredDifficulty := DifficultyStep(p.preferredDifficulty, performance))
  }

  /** The difficulty after a run of adjustments, in order. */
  function DifficultyAfter(d: int, performances: seq<int>): int
    decreases |performances|
  {
    if performances == [] then d
    else DifficultyAfter(DifficultyStep(d, performances[0]), performances[1..])
  }

  /** However many adjustments are made, a difficulty that starts in [1, 5] stays there. */
  lemma {:induction false} DifficultyStaysInRange(d: int, performances: seq<int>)
    requires MinDifficulty <= d <= MaxDifficulty
    ensures MinDifficulty <= DifficultyAfter(d, performances) <= MaxDifficulty
    decreases |performances|
  {
    if performances != [] {
      DifficultyStaysInRange(DifficultyStep(d, performances[0]), performances[1..]);
    }
  }

  // --------------------------------------------------- lesson completion

  /** The four progress updates the lesson page fires after a quiz, in the order they take
      effect: the lesson count first and the streak last. */
  function LessonCompletionAsIssued(p: Progress, category: string, score: int, now: int): (q: Progress)
    ensures q.totalLessons == p.totalLessons + 1 && q.lastActivity == Some(now)
    ensures q.categoryScores == ScoreRecorded(p, category, score).categoryScores
    ensures q.preferredDifficulty == DifficultyStep(p.preferredDifficulty, score)
    ensures q.streak == p.streak
  {
    StreakUpdated(DifficultyAdjusted(ScoreRecorded(LessonCounted(p, now), category, score), score), now)
  }

  /** In that order the streak never moves: the lesson count has already stamped today. */
  lemma LessonCompletionNeverCreditsStreak(p: Progress, category: string, score: int, now: int)
    ensures LessonCompletionAsIssued(p, category, score, now).streak == p.streak
  {
    StreakAfterLessonCountedIsNoOp(p, now, now);
  }

  /** The same updates with the streak taken first, before the lesson count stamps today. */
  function LessonCompletion(p: Progress, category: string, score: int, now: int): (q: Progress)
    ensures q.totalLessons == p.totalLessons + 1 && q.lastActivity == Some(now)
    ensures q.categoryScores == ScoreRecorded(p, category, score).categoryScores
    ensures q.preferredDifficulty == DifficultyStep(p.preferredDifficulty, score)
    ensures q.streak == StreakUpdated(p, now).streak
  {
    LessonCounted(DifficultyAdjusted(ScoreRecorded(StreakUpdated(p, now), category, score), score), now)
  }

  /** Taken first, the streak moves exactly as a lone `updateStreak` would move it: a
      visit the day after the last activity continues it. */
  lemma LessonCompletionCreditsStreak(p: Progress, category: string, score: int, now: int)
    ensures LessonCompletion(p, category, score, now).streak == StreakUpdated(p, now).streak
    ensures ActiveOnDay(p.lastActivity, DayOf(now) - 1) ==>
              LessonCompletion(p, category, score, now).streak == p.streak + 1
    ensures LessonCompletion(p, category, score, now).totalLessons == p.totalLessons + 1
    ensures LessonCompletion(p, category, score, now).lastActivity == Some(now)
  {
  }

  /** A learner last active yesterday with a 4-day streak finishes a lesson: as issued the
      streak stays at 4, taken first it becomes 5. */
  lemma LessonCompletionExample()
    ensures var p := Progress(4, Some(0), 10, map[], 6);
      && LessonCompletionAsIssued(p, "Psychology", 100, MsPerDay).streak == 4
      && LessonCompletion(p, "Psychology", 100, MsPerDay).streak == 5
  {
  }

  // --------------------------------------------------------------- service

  class UserProgressService {
    var streak: int
    var lastActivity: Option<int>
    var totalLessons: int
    var categoryScores: map<string, seq<int>>
    var preferredDifficulty: int

    /** The service starts from a copy of the seed record. */
    constructor (seed: Progress)
      ensures GetProgress() == seed
    {
      streak := seed.streak;
      lastActivity := seed.lastActivity;
      totalLessons := seed.totalLessons;
      categoryScores := seed.categoryScores;
      preferredDifficulty := seed.preferredDifficulty;
    }

    /** A snapshot of the record. */
    function GetProgress(): (p: Progress)
      reads this
      ensures p.streak == streak && p.lastActivity == lastActivity && p.totalLessons == totalLessons
      ensures p.categoryScores == categoryScores && p.preferredDifficulty == preferredDifficulty
    {
      Progress(streak, lastActivity, totalLessons, categoryScores, preferredDifficulty)
    }

    method UpdateStreak(now: int) returns (p: Progress)
      modifies this
      ensures GetProgress() == StreakUpdated(old(GetProgress()), now)
      ensures p == GetProgress()
    {
      var today := DayOf(now);
      if !ActiveOnDay(lastActivity, today) {
        if ActiveOnDay(lastActivity, today - 1) {
          streak := streak + 1;
        } else {
          streak := 1;
        }
        lastActivity := Some(now);
      }
      p := GetProgress();
    }

    method IncrementLessonsCompleted(now: int) returns (p: Progress)
      modifies this
      ensures GetProgress() == LessonCounted(old(GetProgress()), now)
      ensures p == GetProgress()
    {
      totalLessons := totalLessons + 1;
      lastActivity := Some(now);
      p := GetProgress();
    }

    method UpdateCategoryScore(category: string, score: int) returns (p: Progress)
      modifies this
      ensures GetProgress() == ScoreRecorded(old(GetProgress()), category, score)
      ensures HistoriesBounded(old(GetProgress())) ==> HistoriesBounded(GetProgress())
      ensures p == GetProgress()
    {
      var current := if category in categoryScores then categoryScores[category] else [];
      current := current + [score];
      if |current| > ScoreHistoryLimit {
        current := current[1..];
      }
      categoryScores := categoryScores[category := current];
      p := GetProgress();
    }

    method AdjustDifficulty(performance: int) returns (p: Progress)
      modifies this
      ensures GetProgress() == DifficultyAdjusted(old(GetProgress()), performance)
      ensures p == GetProgress()
    {
      if performance > RaiseAbove && preferredDifficulty < MaxDifficulty {
        preferredDifficulty := preferredDifficulty + 1;
      } else if performance < LowerBelow && preferredDifficulty > MinDifficulty {
        preferredDifficulty := preferredDifficulty - 1;
      }
      p := GetProgress();
    }

    /** Records a completed lesson with the streak updated first, so that it is credited. */
    method RecordLessonCompletion(category: string, score: int, now: int) returns (p: Progress)
      modifies this
      ensures GetProgress() == LessonCompletion(old(GetProgress()), category, score, now)
      ensures p == GetProgress()
    {
      p := UpdateStreak(now);
      p := UpdateCategoryScore(category, score);
      p := AdjustDifficulty(score);
      p := IncrementLessonsCompleted(now);
    }
  }
}
