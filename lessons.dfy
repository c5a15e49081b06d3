/** The lesson catalog service: an ordered array of lessons, queried by id, category,
    completion and search text, and updated when a lesson is completed. */
module Lessons {
  import opened Wrappers
  import opened Sequences
  import opened Text
  import opened Clock

  /** One lesson. `completedAt` is the timestamp of its most recent completion, if any. */
  datatype Lesson = Lesson(
    id: int,
    category: string,
    title: string,
    content: string,
    tags: seq<string>,
    duration: int,
    difficulty: int,
    completedAt: Option<int>)

  const LessonNotFound: string := "Lesson not found"

  /** How many lessons make up "today's lessons". */
  const TodaysCount: nat := 3

  predicate HasId(l: Lesson, id: int)
  {
    l.id == id
  }

  /** Category names are compared after lower-casing both sides. */
  predicate InCategory(l: Lesson, category: string)
  {
    Lower(l.category) == Lower(category)
  }

  predicate IsCompleted(l: Lesson)
  {
    l.completedAt.Some?
  }

  /** `term` (already lower-cased) occurs in the title, the content or one of the tags. */
  predicate MatchesTerm(l: Lesson, term: string)
  {
    Includes(Lower(l.title), term) ||
    Includes(Lower(l.content), term) ||
    exists k :: 0 <= k < |l.tags| && Includes(Lower(l.tags[k]), term)
  }

  predicate CompletedWithinWeek(l: Lesson, now: int)
  {
    WithinLastWeek(l.completedAt, now)
  }

  /** No two lessons of the catalog share an id. */
  ghost predicate UniqueIds(s: seq<Lesson>)
  {
    forall i, j :: 0 <= i < j < |s| ==> s[i].id != s[j].id
  }

  /** The position of the first lesson with the given id (`findIndex`). */
  function IndexOfId(s: seq<Lesson>, id: int): (r: Option<nat>)
    ensures r.None? <==> forall k :: 0 <= k < |s| ==> s[k].id != id
    ensures r.Some? ==> r.value < |s| && s[r.value].id == id
    ensures r.Some? ==> forall k :: 0 <= k < r.value ==> s[k].id != id
  {
    FirstIndex(s, l => HasId(l, id))
  }

  /** In a catalog with unique ids every lesson occurs exactly once. */
  lemma {:induction false} OccursOnce(s: seq<Lesson>, k: nat)
    requires UniqueIds(s) && k < |s|
    ensures multiset(s)[s[k]] == 1
  {
    if k == 0 {
      assert s == [s[0]] + s[1..];
      assert s[0] !in s[1..] by {
        forall j | 0 <= j < |s[1..]| ensures s[1..][j] != s[0] {
          assert s[1..][j] == s[j + 1];
        }
      }
    } else {
      assert s == [s[0]] + s[1..];
      assert s[1..][k - 1] == s[k];
      OccursOnce(s[1..], k - 1);
    }
  }

  class LessonService {
    var lessons: seq<Lesson>

    /** The service starts from a copy of the seed catalog. */
    constructor (data: seq<Lesson>)
      ensures lessons == data
    {
      lessons := data;
    }

    /** The whole catalog, in catalog order. */
    function GetAll(): (r: seq<Lesson>)
      reads this
      ensures |r| == |lessons| && forall k :: 0 <= k < |r| ==> r[k] == lessons[k]
    {
      lessons
    }

    /** The first lesson with the given id, or the "Lesson not found" error. */
    function GetById(id: int): (r: Result<Lesson>)
      reads this
      ensures r.Err? <==> forall k :: 0 <= k < |lessons| ==> lessons[k].id != id
      ensures r.Err? ==> r.message == LessonNotFound
      ensures r.Ok? ==> r.value.id == id
      ensures r.Ok? ==> exists k :: 0 <= k < |lessons| && lessons[k] == r.value &&
                                    forall j :: 0 <= j < k ==> lessons[j].id != id
    {
      match IndexOfId(lessons, id)
      case None => Err(LessonNotFound)
      case Some(k) => Ok(lessons[k])
    }

    /** The lessons of a category, compared case-insensitively, in catalog order. */
    function GetByCategory(category: string): (r: seq<Lesson>)
      reads this
      ensures FilteredBy(r, lessons, l => InCategory(l, category))
    {
      Filter(lessons, l => InCategory(l, category))
    }

    /** The first three lessons of the catalog (all of them when there are fewer). */
    function GetTodaysLessons(): (r: seq<Lesson>)
      reads this
      ensures r <= lessons
      ensures |r| == if |lessons| < TodaysCount then |lessons| else TodaysCount
    {
      if |lessons| < TodaysCount then lessons else lessons[..TodaysCount]
    }

    /** The lessons that have a completion timestamp, in catalog order. */
    function GetCompletedLessons(): (r: seq<Lesson>)
      reads this
      ensures FilteredBy(r, lessons, IsCompleted)
    {
      Filter(lessons, IsCompleted)
    }

    /** The lessons whose title, content or some tag contains the query, ignoring case. */
    function SearchLessons(query: string): (r: seq<Lesson>)
      reads this
      ensures FilteredBy(r, lessons, l => MatchesTerm(l, Lower(query)))
    {
      Filter(lessons, l => MatchesTerm(l, Lower(query)))
    }

    /** The lessons completed at most seven days before `now` (and not after it). */
    function GetWeeklyCompletedLessons(now: int): (r: seq<Lesson>)
      reads this
      ensures FilteredBy(r, lessons, l => CompletedWithinWeek(l, now))
    {
      Filter(lessons, l => CompletedWithinWeek(l, now))
    }

    /** Stamps the first lesson with the given id as completed at `now` and returns it;
        fails with "Lesson not found", changing nothing, when no lesson has that id. */
    method MarkCompleted(id: int, now: int) returns (r: Result<Lesson>)
      modifies this
      ensures match IndexOfId(old(lessons), id)
        case None => r == Err(LessonNotFound) && lessons == old(lessons)
        case Some(k) =>
          && lessons == old(lessons)[k := old(lessons)[k].(completedAt := Some(now))]
          && r == Ok(lessons[k])
      ensures r.Ok? ==> r.value.id == id && r.value.completedAt == Some(now)
      ensures r.Ok? ==> r.value in GetCompletedLessons()
      ensures UniqueIds(old(lessons)) ==> UniqueIds(lessons)
      ensures r.Ok? && UniqueIds(old(lessons)) ==> multiset(GetCompletedLessons())[r.value] == 1
    {
      var found := IndexOfId(lessons, id);
      if found.None? {
        return Err(LessonNotFound);
      }
      var k := found.value;
      lessons := lessons[k := lessons[k].(completedAt := Some(now))];
      r := Ok(lessons[k]);
      assert multiset(GetCompletedLessons())[r.value] == multiset(lessons)[r.value];
      if UniqueIds(old(lessons)) {
        OccursOnce(lessons, k);
      }
    }
  }

  /** An empty query matches every lesson, so searching for it returns the whole catalog. */
  lemma SearchEmptyReturnsAll(svc: LessonService)
    ensures svc.SearchLessons("") == svc.lessons
  {
    forall k | 0 <= k < |svc.lessons| ensures MatchesTerm(svc.lessons[k], Lower("")) {
      IncludesEmpty(Lower(svc.lessons[k].title));
    }
    FilterAll(svc.lessons, l => MatchesTerm(l, Lower("")));
  }
}
