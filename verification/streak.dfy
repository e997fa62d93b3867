/** The current-streak calculator of src/utils/streak.js.

    Starting at today, the calculator counts consecutive days present in a
    habit's completion list and stops at the first missing day, so a list
    that lacks today yields 0 however long the run that ends yesterday.
    `Streak` is the reference definition by recursion over the set of
    distinct dates; `CalculateStreak` is the application's backward walk, proved
    to agree with it. */
module Streaks {

  import opened Calendar
  import opened Habits

  /** The distinct dates of a completion list. */
  function Elems(dates: seq<Day>): (e: set<Day>)
    ensures forall x :: x in e <==> x in dates
  {
    set x | x in dates
  }

  /** The `n` days ending at `d` are all in `dates` and the day before them
      is not. */
  ghost predicate RunEndingAt(dates: seq<Day>, d: Day, n: nat) {
    (forall x :: d - n < x <= d ==> x in dates) && d - n !in dates
  }

  /** Length of the run of consecutive members of `s` ending at `d`. Each
      step removes the day it consumed, which is what bounds the recursion. */
  function RunLength(s: set<Day>, d: Day): (n: nat)
    ensures n <= |s|
    ensures forall x :: d - n < x <= d ==> x in s
    ensures d - n !in s
    decreases s
  {
    if d in s then 1 + RunLength(s - {d}, d - 1) else 0
  }

  /** The streak of a completion list as of `today`. */
  function Streak(dates: seq<Day>, today: Day): (n: nat)
    ensures |dates| == 0 ==> n == 0
    ensures today !in dates ==> n == 0
    ensures RunEndingAt(dates, today, n)
    ensures n <= |Elems(dates)|
  {
    if |dates| == 0 then 0 else RunLength(Elems(dates), today)
  }

  /** The run property pins the streak down: a list holding today and the
      `n - 1` days before it, but not the day before those, has streak `n`. */
  lemma StreakOfRun(dates: seq<Day>, today: Day, n: nat)
    requires RunEndingAt(dates, today, n)
    ensures Streak(dates, today) == n
  {
  }

  /** Only membership matters: reordering or duplicating entries leaves the
      streak unchanged. */
  lemma StreakDependsOnlyOnMembership(a: seq<Day>, b: seq<Day>, today: Day)
    requires forall x :: x in a <==> x in b
    ensures Streak(a, today) == Streak(b, today)
  {
    StreakOfRun(b, today, Streak(a, today));
  }

  /** Adding dates never shortens the streak. */
  lemma StreakMonotone(a: seq<Day>, b: seq<Day>, today: Day)
    requires forall x :: x in a ==> x in b
    ensures Streak(a, today) <= Streak(b, today)
  {
  }

  /** Appending one completion day never decreases the streak. */
  lemma StreakAppend(dates: seq<Day>, x: Day, today: Day)
    ensures Streak(dates, today) <= Streak(dates + [x], today)
  {
    StreakMonotone(dates, dates + [x], today);
  }

  /** src/utils/streak.js: an empty list is 0; otherwise walk back from today
      while the day is in the list. The walk ends because the streak it
      counts is bounded by the number of distinct dates. */
  method CalculateStreak(completionDates: seq<Day>, today: Day) returns (streak: nat)
    ensures streak == Streak(completionDates, today)
    ensures RunEndingAt(completionDates, today, streak)
    ensures streak <= |Elems(completionDates)|
  {
    if |completionDates| == 0 {
      return 0;
    }
    streak := 0;
    var current := today;
    while current in completionDates
      invariant current == today - streak
      invariant forall x :: current < x <= today ==> x in completionDates
      invariant streak <= Streak(completionDates, today)
      decreases Streak(completionDates, today) - streak
    {
      streak := streak + 1;
      current := current - 1;
    }
    StreakOfRun(completionDates, today, streak);
  }

  /** `CalculateStreak(completionMap[h.id] || [])`: the streak of one habit,
      a habit without a map entry having the streak of the empty list. */
  function HabitStreak(cm: CompletionMap, h: Habit, today: Day): (n: nat)
    ensures !HasKey(cm, h.id) ==> n == 0
    ensures n > 0 ==> today in DatesOf(cm, h.id)
    ensures RunEndingAt(DatesOf(cm, h.id), today, n)
  {
    Streak(DatesOf(cm, h.id), today)
  }
}
