/** The quiz service: quizzes keyed by id and by lesson, graded against their answer key,
    with the latest result stored on the quiz itself. */
module Quizzes {
  import opened Wrappers
  import opened Sequences
  import opened Clock

  /** One multiple-choice question; `correctAnswer` indexes `options`. */
  datatype Question = Question(
    question: string,
    options: seq<string>,
    correctAnswer: int,
    explanation: Option<string>)

  /** One quiz. `score`, `completedAt` and `userAnswers` are set together by grading. */
  datatype Quiz = Quiz(
    id: int,
    lessonId: int,
    questions: seq<Question>,
    score: Option<int>,
    completedAt: Option<int>,
    userAnswers: Option<seq<int>>)

  /** What `submitQuiz` returns. */
  datatype Submission = Submission(
    quiz: Quiz,
    correctAnswers: nat,
    totalQuestions: nat,
    score: int)

  const QuizNotFound: string := "Quiz not found"
  const QuizNotFoundForLesson: string := "Quiz not found for this lesson"

  predicate IsCompleted(q: Quiz)
  {
    q.completedAt.Some?
  }

  predicate CompletedWithinWeek(q: Quiz, now: int)
  {
    WithinLastWeek(q.completedAt, now)
  }

  /** Question `i` was answered with its correct option. A position the answers do not
      reach never matches. */
  predicate AnsweredCorrectly(questions: seq<Question>, answers: seq<int>, i: nat)
    requires i < |questions|
  {
    i < |answers| && answers[i] == questions[i].correctAnswer
  }

  /** The number of questions answered correctly. */
  function CorrectCount(questions: seq<Question>, answers: seq<int>): (n: nat)
    ensures n <= |questions|
  {
    if questions == [] then 0
    else
      var last := |questions| - 1;
      CorrectCount(questions[..last], answers) + if AnsweredCorrectly(questions, answers, last) then 1 else 0
  }

  /** Every question is answered correctly exactly when the count reaches the number of questions. */
  lemma {:induction false} AllCorrect(questions: seq<Question>, answers: seq<int>)
    ensures CorrectCount(questions, answers) == |questions| <==>
            forall i :: 0 <= i < |questions| ==> AnsweredCorrectly(questions, answers, i)
  {
    if questions != [] {
      var last := |questions| - 1;
      AllCorrect(questions[..last], answers);
      assert forall i :: 0 <= i < last ==>
        AnsweredCorrectly(questions[..last], answers, i) == AnsweredCorrectly(questions, answers, i);
    }
  }

  /** No question is answered correctly exactly when the count is zero. */
  lemma {:induction false} NoneCorrect(questions: seq<Question>, answers: seq<int>)
    ensures CorrectCount(questions, answers) == 0 <==>
            forall i :: 0 <= i < |questions| ==> !AnsweredCorrectly(questions, answers, i)
  {
    if questions != [] {
      var last := |questions| - 1;
      NoneCorrect(questions[..last], answers);
      assert forall i :: 0 <= i < last ==>
        AnsweredCorrectly(questions[..last], answers, i) == AnsweredCorrectly(questions, answers, i);
    }
  }

  /** Answers beyond the last question are ignored. */
  lemma {:induction false} ExtraAnswersIgnored(questions: seq<Question>, answers: seq<int>, extra: seq<int>)
    requires |questions| <= |answers|
    ensures CorrectCount(questions, answers + extra) == CorrectCount(questions, answers)
  {
    if questions != [] {
      ExtraAnswersIgnored(questions[..|questions| - 1], answers, extra);
    }
  }

  /** Questions beyond the last answer count as wrong: only the answered prefix is graded. */
  lemma {:induction false} MissingAnswersWrong(questions: seq<Question>, answers: seq<int>)
    requires |answers| <= |questions|
    ensures CorrectCount(questions, answers) == CorrectCount(questions[..|answers|], answers)
    decreases |questions|
  {
    if |answers| < |questions| {
      var last := |questions| - 1;
      assert questions[..last][..|answers|] == questions[..|answers|];
      MissingAnswersWrong(questions[..last], answers);
    } else {
      assert questions[..|answers|] == questions;
    }
  }

  /** `Math.round(correct / total * 100)` on exact rationals: the nearest integer to
      100·correct/total, halves rounded up. */
  function Percent(correct: nat, total: nat): (score: int)
    requires 0 < total && correct <= total
    ensures 0 <= score <= 100
    ensures 200 * correct < 2 * total * score + total && 2 * total * score <= 200 * correct + total
  {
    PercentBounds(correct, total);
    (200 * correct + total) / (2 * total)
  }

  lemma PercentBounds(correct: nat, total: nat)
    requires 0 < total && correct <= total
    ensures var score := (200 * correct + total) / (2 * total);
      && 0 <= score <= 100
      && 200 * correct < 2 * total * score + total && 2 * total * score <= 200 * correct + total
  {
    var a, b := 200 * correct + total, 2 * total;
    var score := a / b;
    DivisionBounds(a, b);
    if score < 0 {
      MulMonotone(b, score, -1);
    }
    if score > 100 {
      MulMonotone(b, 101, score);
    }
  }

  lemma DivisionBounds(a: int, b: int)
    requires 0 < b
    ensures b * (a / b) <= a < b * (a / b) + b
  {
  }

  lemma MulMonotone(b: int, x: int, y: int)
    requires 0 < b && x <= y
    ensures b * x <= b * y
  {
  }

  /** Percent grows with the number of correct answers. */
  lemma PercentMonotonic(c1: nat, c2: nat, total: nat)
    requires 0 < total && c1 <= c2 <= total
    ensures Percent(c1, total) <= Percent(c2, total)
  {
    var s1, s2 := Percent(c1, total), Percent(c2, total);
    if s1 > s2 {
      MulMonotone(2 * total, s2 + 1, s1);
    }
  }

  /** All answers right scores 100 and none right scores 0. The converse holds only for
      short quizzes: from 200 questions on, one wrong answer can still round to 100, and
      from 201 on one right answer can still round to 0. */
  lemma PercentExtremes(correct: nat, total: nat)
    requires 0 < total && correct <= total
    ensures correct == total ==> Percent(correct, total) == 100
    ensures correct == 0 ==> Percent(correct, total) == 0
    ensures total < 200 && Percent(correct, total) == 100 ==> correct == total
    ensures total <= 200 && Percent(correct, total) == 0 ==> correct == 0
  {
    var s := Percent(correct, total);
    if correct == total {
      if s < 100 {
        MulMonotone(2 * total, s, 99);
      }
      if s > 100 {
        MulMonotone(2 * total, 101, s);
      }
    }
    if correct == 0 {
      if s > 0 {
        MulMonotone(2 * total, 1, s);
      }
    }
  }

  /** The rounding limits above are attained. */
  lemma PercentRoundingLimits()
    ensures Percent(199, 200) == 100
    ensures Percent(1, 201) == 0
  {
  }

  /** The grading loop of `submitQuiz`: one pass over the questions counting matches. */
  method CountCorrectAnswers(questions: seq<Question>, answers: seq<int>) returns (correct: nat)
    ensures correct == CorrectCount(questions, answers)
  {
    correct := 0;
    var i := 0;
    while i < |questions|
      invariant 0 <= i <= |questions|
      invariant correct == CorrectCount(questions[..i], answers)
    {
      assert questions[..i + 1][..i] == questions[..i];
      if i < |answers| && answers[i] == questions[i].correctAnswer {
        correct := correct + 1;
      }
      i := i + 1;
    }
    assert questions[..i] == questions;
  }

  class QuizService {
    var quizzes: seq<Quiz>

    /** Every quiz has at least one question, so a score is always defined. */
    ghost predicate Valid()
      reads this
    {
      forall k :: 0 <= k < |quizzes| ==> quizzes[k].questions != []
    }

    /** The service starts from a copy of the seed quizzes. */
    constructor (data: seq<Quiz>)
      requires forall k :: 0 <= k < |data| ==> data[k].questions != []
      ensures Valid() && quizzes == data
    {
      quizzes := data;
    }

    /** All quizzes, in stored order. */
    function GetAll(): (r: seq<Quiz>)
      reads this
      ensures |r| == |quizzes| && forall k :: 0 <= k < |r| ==> r[k] == quizzes[k]
    {
      quizzes
    }

    /** The first quiz with the given id, or the "Quiz not found" error. */
    function GetById(id: int): (r: Result<Quiz>)
      reads this
      ensures r.Err? <==> forall k :: 0 <= k < |quizzes| ==> quizzes[k].id != id
      ensures r.Err? ==> r.message == QuizNotFound
      ensures r.Ok? ==> r.value.id == id
      ensures r.Ok? ==> exists k :: 0 <= k < |quizzes| && quizzes[k] == r.value &&
                                    forall j :: 0 <= j < k ==> quizzes[j].id != id
    {
      match FirstIndex(quizzes, (q: Quiz) => q.id == id)
      case None => Err(QuizNotFound)
      case Some(k) => Ok(quizzes[k])
    }

    /** The first quiz of the given lesson, or the "Quiz not found for this lesson" error. */
    function GetByLessonId(lessonId: int): (r: Result<Quiz>)
      reads this
      ensures r.Err? <==> forall k :: 0 <= k < |quizzes| ==> quizzes[k].lessonId != lessonId
      ensures r.Err? ==> r.message == QuizNotFoundForLesson
      ensures r.Ok? ==> r.value.lessonId == lessonId
      ensures r.Ok? ==> exists k :: 0 <= k < |quizzes| && quizzes[k] == r.value &&
                                    forall j :: 0 <= j < k ==> quizzes[j].lessonId != lessonId
    {
      match FirstIndex(quizzes, (q: Quiz) => q.lessonId == lessonId)
      case None => Err(QuizNotFoundForLesson)
      case Some(k) => Ok(quizzes[k])
    }

    /** Grades `answers` against the first quiz with the given id, stores score, timestamp
        and answers on that quiz (replacing any earlier result) and returns the grading. */
    method SubmitQuiz(id: int, answers: seq<int>, now: int) returns (r: Result<Submission>)
      requires Valid()
      modifies this
      ensures Valid()
      ensures match FirstIndex(old(quizzes), (q: Quiz) => q.id == id)
        case None => r == Err(QuizNotFound) && quizzes == old(quizzes)
        case Some(k) =>
          var graded := old(quizzes)[k];
          var correct := CorrectCount(graded.questions, answers);
          var score := Percent(correct, |graded.questions|);
          && quizzes == old(quizzes)[k := graded.(score := Some(score), completedAt := Some(now), userAnswers := Some(answers))]
          && r == Ok(Submission(quizzes[k], correct, |graded.questions|, score))
      ensures r.Ok? ==> r.value.correctAnswers <= r.value.totalQuestions && 0 <= r.value.score <= 100
      ensures r.Ok? ==> r.value.quiz.id == id && r.value.quiz in GetUserQuizResults()
    {
      var found := FirstIndex(quizzes, (q: Quiz) => q.id == id);
      if found.None? {
        return Err(QuizNotFound);
      }
      var k := found.value;
      var quiz := quizzes[k];
      var correct := CountCorrectAnswers(quiz.questions, answers);
      var score := Percent(correct, |quiz.questions|);
      quizzes := quizzes[k := quiz.(score := Some(score), completedAt := Some(now), userAnswers := Some(answers))];
      r := Ok(Submission(quizzes[k], correct, |quiz.questions|, score));
      assert multiset(GetUserQuizResults())[quizzes[k]] == multiset(quizzes)[quizzes[k]];
    }

    /** The quizzes that have been graded, in stored order. */
    function GetUserQuizResults(): (r: seq<Quiz>)
      reads this
      ensures FilteredBy(r, quizzes, IsCompleted)
    {
      Filter(quizzes, IsCompleted)
    }

    /** The quizzes graded at most seven days before `now` (and not after it). */
    function GetWeeklyQuizResults(now: int): (r: seq<Quiz>)
      reads this
      ensures FilteredBy(r, quizzes, q => CompletedWithinWeek(q, now))
    {
      Filter(quizzes, q => CompletedWithinWeek(q, now))
    }
  }
}
