/** Time as the services see it: integer milliseconds since the epoch. */
module Clock {
  import opened Wrappers

  const MsPerDay: int := 24 * 60 * 60 * 1000

  /** The length of the trailing window used by the weekly queries. */
  const WeekMs: int := 7 * MsPerDay

  /** `completedAt` is set and lies in `[now - WeekMs, now]`, both bounds included. */
  predicate WithinLastWeek(completedAt: Option<int>, now: int)
  {
    completedAt.Some? && now - WeekMs <= completedAt.value <= now
  }

  /** The calendar day a timestamp falls on, counted in whole days since the epoch. */
  function DayOf(t: int): int
  {
    t / MsPerDay
  }
}
