/** The data calculations of src/screens/AnalyticsScreen.js.

    Every aggregate is a function of the snapshot `(habits, cm, today)`:
    the 7-day percentage trend and its average, the best streak, the number
    of completions in the current month, four 7-day buckets over the last 28
    days, the 35-cell Sunday-aligned calendar grid with its 0-4 completion
    level, the colour pickers for that grid, and the per-habit completion
    rate. `Math.round` of a non-negative ratio is exact round-half-up. */
module Analytics {

  import opened Calendar
  import opened Habits
  import opened Streaks

  /** `Math.round(p / q)` for `q > 0`: the integer nearest to `p / q`, a
      half rounded up. */
  function RoundDiv(p: int, q: int): (r: int)
    requires q > 0
    ensures 2 * q * r <= 2 * p + q < 2 * q * (r + 1)
  {
    (2 * p + q) / (2 * q)
  }

  lemma MulLe(a: int, b: int, c: int)
    requires a <= b && c >= 0
    ensures c * a <= c * b
  {
  }

  /** Rounding a ratio that lies between two integers keeps it between them. */
  lemma RoundDivBetween(p: int, q: int, lo: int, hi: int)
    requires q > 0
    requires lo * q <= p <= hi * q
    ensures lo <= RoundDiv(p, q) <= hi
  {
    var r := RoundDiv(p, q);
    if r < lo {
      MulLe(r + 1, lo, 2 * q);
    } else if r > hi {
      MulLe(hi + 1, r, 2 * q);
    }
  }

  /** A larger numerator never rounds lower. */
  lemma RoundDivMonotone(p1: int, p2: int, q: int)
    requires q > 0 && p1 <= p2
    ensures RoundDiv(p1, q) <= RoundDiv(p2, q)
  {
    var r1 := RoundDiv(p1, q);
    var r2 := RoundDiv(p2, q);
    if r2 < r1 {
      MulLe(r2 + 1, r1, 2 * q);
    }
  }

  /** `habits.filter(h => (cm[h.id] || []).includes(d)).length`: how many
      habits (list entries, duplicates counted) were completed on day `d`. */
  function CompletedOn(habits: seq<Habit>, cm: CompletionMap, d: Day): (c: nat)
    ensures c <= |habits|
  {
    if |habits| == 0 then 0
    else
      CompletedOn(habits[..|habits| - 1], cm, d)
        + (if d in DatesOf(cm, habits[|habits| - 1].id) then 1 else 0)
  }

  /** The positions in `habits` of the habits completed on day `d`. */
  function DoneIndices(habits: seq<Habit>, cm: CompletionMap, d: Day): set<int> {
    set i | 0 <= i < |habits| && d in DatesOf(cm, habits[i].id)
  }

  /** No habit done gives 0. */
  lemma {:induction false} CompletedOnNone(habits: seq<Habit>, cm: CompletionMap, d: Day)
    ensures CompletedOn(habits, cm, d) == 0
      <==> forall i | 0 <= i < |habits| :: d !in DatesOf(cm, habits[i].id)
  {
    if |habits| > 0 {
      var n := |habits| - 1;
      CompletedOnNone(habits[..n], cm, d);
      assert forall i | 0 <= i < n :: habits[..n][i] == habits[i];
    }
  }

  /** Every habit done gives the habit count, and nothing else does. */
  lemma {:induction false} CompletedOnAll(habits: seq<Habit>, cm: CompletionMap, d: Day)
    ensures CompletedOn(habits, cm, d) == |habits|
      <==> forall i | 0 <= i < |habits| :: d in DatesOf(cm, habits[i].id)
  {
    if |habits| > 0 {
      var n := |habits| - 1;
      CompletedOnAll(habits[..n], cm, d);
      assert forall i | 0 <= i < n :: habits[..n][i] == habits[i];
    }
  }

  /** The count is the number of habits whose list contains the day. */
  lemma {:induction false} CompletedOnCounts(habits: seq<Habit>, cm: CompletionMap, d: Day)
    ensures CompletedOn(habits, cm, d) == |DoneIndices(habits, cm, d)|
  {
    if |habits| > 0 {
      var n := |habits| - 1;
      var front := habits[..n];
      CompletedOnCounts(front, cm, d);
      var s := DoneIndices(habits, cm, d);
      var s' := DoneIndices(front, cm, d);
      forall i ensures i in s' <==> i in s && i != n {
        if 0 <= i < n {
          assert front[i] == habits[i];
        }
      }
      if n in s {
        assert s == s' + {n};
      } else {
        assert s == s';
      }
    }
  }

  /** `completed / habits.length * 100` rounded, or 0 without habits. */
  function Percent(completed: nat, total: nat): (p: int)
    requires completed <= total
    ensures 0 <= p <= 100
    ensures total == 0 || completed == 0 ==> p == 0
    ensures total > 0 && completed == total ==> p == 100
    ensures total > 0 ==> 2 * total * p <= 200 * completed + total < 2 * total * (p + 1)
  {
    if total == 0 then 0
    else
      PercentBounds(completed, total);
      RoundDiv(100 * completed, total)
  }

  /** The rounded percentage of a share lies in 0..100 and hits both ends. */
  lemma PercentBounds(completed: nat, total: nat)
    requires 0 < total && completed <= total
    ensures 0 <= RoundDiv(100 * completed, total) <= 100
    ensures completed == 0 ==> RoundDiv(100 * completed, total) == 0
    ensures completed == total ==> RoundDiv(100 * completed, total) == 100
  {
    if completed == 0 {
      RoundDivBetween(0, total, 0, 0);
    } else if completed == total {
      RoundDivBetween(100 * completed, total, 100, 100);
    } else {
      RoundDivBetween(100 * completed, total, 0, 100);
    }
  }

  /** `last7Days`: seven consecutive days, oldest first, ending today. */
  function Last7Days(today: Day): (days: seq<Day>)
    ensures |days| == 7
    ensures days[6] == today
    ensures forall i | 0 <= i < 6 :: days[i + 1] == days[i] + 1
  {
    seq(7, i => today - (6 - i))
  }

  /** `weeklyPercentages`: each day's completion percentage over the 7-day
      window. */
  function WeeklyPercentages(habits: seq<Habit>, cm: CompletionMap, today: Day): (p: seq<int>)
    ensures |p| == 7
    ensures forall i | 0 <= i < 7 :: 0 <= p[i] <= 100
    ensures |habits| == 0 ==> forall i | 0 <= i < 7 :: p[i] == 0
    ensures forall i | 0 <= i < 7 ::
      p[i] == Percent(CompletedOn(habits, cm, Last7Days(today)[i]), |habits|)
  {
    var days := Last7Days(today);
    seq(7, i requires 0 <= i < 7 => Percent(CompletedOn(habits, cm, days[i]), |habits|))
  }

  /** `xs.reduce((a, b) => a + b, 0)`: the left-to-right sum from 0, which
      also splits off its first element. */
  function Sum(xs: seq<int>): (s: int)
    ensures |xs| == 0 ==> s == 0
    ensures |xs| > 0 ==> s == xs[0] + Sum(xs[1..])
  {
    if |xs| == 0 then 0
    else
      var front := xs[..|xs| - 1];
      assert |xs| > 1 ==> xs[1..][..|xs| - 2] == front[1..];
      Sum(front) + xs[|xs| - 1]
  }

  lemma MulStep(n: int, a: int)
    ensures (n + 1) * a == n * a + a
  {
  }

  /** A sum of values each between `lo` and `hi` lies between `|xs| * lo`
      and `|xs| * hi`. */
  lemma {:induction false} SumBetween(xs: seq<int>, lo: int, hi: int)
    requires forall i | 0 <= i < |xs| :: lo <= xs[i] <= hi
    ensures |xs| * lo <= Sum(xs) <= |xs| * hi
  {
    if |xs| > 0 {
      var rest := xs[1..];
      assert forall i | 0 <= i < |rest| :: rest[i] == xs[i + 1];
      SumBetween(rest, lo, hi);
      assert Sum(xs) == xs[0] + Sum(rest);
      MulStep(|rest|, lo);
      MulStep(|rest|, hi);
    }
  }

  /** `avgWeeklyCompletion`: the rounded mean of the seven percentages. */
  function AvgWeeklyCompletion(habits: seq<Habit>, cm: CompletionMap, today: Day): (avg: int)
    ensures 0 <= avg <= 100
    ensures |habits| == 0 ==> avg == 0
    ensures var s := Sum(WeeklyPercentages(habits, cm, today));
      14 * avg <= 2 * s + 7 < 14 * (avg + 1)
  {
    var p := WeeklyPercentages(habits, cm, today);
    MeanBetween(p, 0, 100);
    if |habits| == 0 then MeanBetween(p, 0, 0); RoundDiv(Sum(p), 7)
    else RoundDiv(Sum(p), 7)
  }

  /** The rounded mean of seven values within bounds is within them. */
  lemma MeanBetween(p: seq<int>, lo: int, hi: int)
    requires |p| == 7
    requires forall i | 0 <= i < 7 :: lo <= p[i] <= hi
    ensures lo <= RoundDiv(Sum(p), 7) <= hi
  {
    SumBetween(p, lo, hi);
    RoundDivBetween(Sum(p), 7, lo, hi);
  }

  /** When every day of the week scores between `lo` and `hi`, so does the
      average; in particular seven equal percentages average to that value. */
  lemma AvgBetween(habits: seq<Habit>, cm: CompletionMap, today: Day, lo: int, hi: int)
    requires forall i | 0 <= i < 7 :: lo <= WeeklyPercentages(habits, cm, today)[i] <= hi
    ensures lo <= AvgWeeklyCompletion(habits, cm, today) <= hi
  {
    MeanBetween(WeeklyPercentages(habits, cm, today), lo, hi);
  }

  /** `Math.max(...xs, 0)` over non-negative values. */
  function MaxOf(xs: seq<nat>): (m: nat)
    ensures forall i | 0 <= i < |xs| :: xs[i] <= m
    ensures |xs| > 0 ==> exists i | 0 <= i < |xs| :: m == xs[i]
    ensures |xs| == 0 ==> m == 0
  {
    if |xs| == 0 then 0
    else
      var front := MaxOf(xs[..|xs| - 1]);
      assert forall i | 0 <= i < |xs| - 1 :: xs[..|xs| - 1][i] == xs[i];
      if xs[|xs| - 1] >= front then xs[|xs| - 1] else front
  }

  /** `habits.map(h => CalculateStreak(completionMap[h.id] || []))`. */
  function HabitStreaks(habits: seq<Habit>, cm: CompletionMap, today: Day): (xs: seq<nat>)
    ensures |xs| == |habits|
    ensures forall i | 0 <= i < |habits| :: xs[i] == HabitStreak(cm, habits[i], today)
  {
    seq(|habits|, i requires 0 <= i < |habits| => HabitStreak(cm, habits[i], today))
  }

  /** `bestStreak`: the largest habit streak, 0 without habits. */
  function BestStreak(habits: seq<Habit>, cm: CompletionMap, today: Day): (best: nat)
    ensures forall i | 0 <= i < |habits| :: HabitStreak(cm, habits[i], today) <= best
    ensures |habits| > 0 ==> exists i | 0 <= i < |habits| :: best == HabitStreak(cm, habits[i], today)
    ensures |habits| == 0 ==> best == 0
  {
    var xs := HabitStreaks(habits, cm, today);
    var m := MaxOf(xs);
    assert |habits| > 0 ==> exists i | 0 <= i < |xs| :: m == xs[i];
    m
  }

  /** How many entries of a list, duplicates included, satisfy `keep`. */
  function CountWhere(dates: seq<Day>, keep: Day -> bool): (n: nat)
    ensures n <= |dates|
    ensures (forall i | 0 <= i < |dates| :: !keep(dates[i])) ==> n == 0
    ensures (forall i | 0 <= i < |dates| :: keep(dates[i])) ==> n == |dates|
  {
    if |dates| == 0 then 0
    else CountWhere(dates[..|dates| - 1], keep) + (if keep(dates[|dates| - 1]) then 1 else 0)
  }

  lemma {:induction false} CountWhereConcat(a: seq<Day>, b: seq<Day>, keep: Day -> bool)
    ensures CountWhere(a + b, keep) == CountWhere(a, keep) + CountWhere(b, keep)
    decreases |b|
  {
    if |b| == 0 {
      assert a + b == a;
    } else {
      assert (a + b)[..|a + b| - 1] == a + b[..|b| - 1];
      CountWhereConcat(a, b[..|b| - 1], keep);
    }
  }

  /** `d.getMonth() === currentMonth && d.getFullYear() === currentYear`:
      the filter keeps a day exactly when its calendar year and month are
      today's. */
  function InMonthOf(today: Day): (keep: Day -> bool)
    ensures forall x :: keep(x) <==>
      ToDate(x).year == ToDate(today).year && ToDate(x).month == ToDate(today).month
  {
    x => SameMonth(x, today)
  }

  function InRange(lo: Day, hi: Day): Day -> bool {
    x => lo <= x < hi
  }

  /** `thisMonthCompletions`: every entry of every value of the map, whatever
      its key and however often it repeats, whose month and year are those
      of today. */
  function ThisMonthCompletions(cm: CompletionMap, today: Day): (n: nat)
    ensures n <= |AllDates(cm)|
  {
    CountWhere(AllDates(cm), InMonthOf(today))
  }

  /** The days of today's month: from its first day, for as many days as
      the month has. */
  function MonthRange(today: Day): Day -> bool {
    var d := ToDate(today);
    InRange(FirstOfMonth(today), FirstOfMonth(today) + DaysInMonth(d.year, d.month))
  }

  lemma {:induction false} CountInMonthIsRange(dates: seq<Day>, today: Day)
    ensures CountWhere(dates, InMonthOf(today)) == CountWhere(dates, MonthRange(today))
  {
    if |dates| > 0 {
      CountInMonthIsRange(dates[..|dates| - 1], today);
      SameMonthIsInterval(dates[|dates| - 1], today);
    }
  }

  /** The month count is a count over the run of days from the first of
      today's month to its last. */
  lemma ThisMonthIsRange(cm: CompletionMap, today: Day)
    ensures ThisMonthCompletions(cm, today) == CountWhere(AllDates(cm), MonthRange(today))
  {
    CountInMonthIsRange(AllDates(cm), today);
  }

  /** A map entry adds its own in-month dates to the count, whether or not
      its key belongs to a listed habit. */
  lemma ThisMonthAddEntry(cm: CompletionMap, e: Entry, today: Day)
    ensures ThisMonthCompletions(cm + [e], today)
      == ThisMonthCompletions(cm, today) + CountWhere(e.dates, InMonthOf(today))
  {
    AllDatesAppend(cm, e);
    CountWhereConcat(AllDates(cm), e.dates, InMonthOf(today));
  }

  /** Completions of the listed habits over the `len` days from `start`,
      one per (habit, day) pair. */
  function WindowCompletions(habits: seq<Habit>, cm: CompletionMap, start: Day, len: nat): (n: nat)
    ensures n <= len * |habits|
  {
    if len == 0 then 0
    else WindowCompletions(habits, cm, start, len - 1) + CompletedOn(habits, cm, start + len - 1)
  }

  /** A window splits into two consecutive windows. */
  lemma {:induction false} WindowSplit(habits: seq<Habit>, cm: CompletionMap, start: Day, a: nat, b: nat)
    ensures WindowCompletions(habits, cm, start, a + b)
      == WindowCompletions(habits, cm, start, a) + WindowCompletions(habits, cm, start + a, b)
    decreases b
  {
    if b > 0 {
      WindowSplit(habits, cm, start, a, b - 1);
    }
  }

  /** How many of the `len` days from `start` a list contains. */
  function DaysDone(dates: seq<Day>, start: Day, len: nat): (n: nat)
    ensures n <= len
  {
    if len == 0 then 0
    else DaysDone(dates, start, len - 1) + (if start + len - 1 in dates then 1 else 0)
  }

  /** The per-habit view of a window: its days done, habit by habit. */
  function HabitsDaysDone(habits: seq<Habit>, cm: CompletionMap, start: Day, len: nat): nat {
    if |habits| == 0 then 0
    else
      HabitsDaysDone(habits[..|habits| - 1], cm, start, len)
        + DaysDone(DatesOf(cm, habits[|habits| - 1].id), start, len)
  }

  /** Counting a window day by day equals counting it habit by habit: the
      window total is the number of (habit, day) completions in it. */
  lemma {:induction false} WindowByHabit(habits: seq<Habit>, cm: CompletionMap, start: Day, len: nat)
    ensures WindowCompletions(habits, cm, start, len) == HabitsDaysDone(habits, cm, start, len)
    decreases |habits|, len
  {
    if len == 0 {
      EmptyWindow(habits, cm, start);
    } else if |habits| > 0 {
      var front := habits[..|habits| - 1];
      WindowByHabit(habits, cm, start, len - 1);
      WindowByHabit(front, cm, start, len);
      WindowByHabit(front, cm, start, len - 1);
    } else {
      WindowOfNoHabits(cm, start, len);
    }
  }

  lemma {:induction false} EmptyWindow(habits: seq<Habit>, cm: CompletionMap, start: Day)
    ensures HabitsDaysDone(habits, cm, start, 0) == 0
  {
    if |habits| > 0 {
      EmptyWindow(habits[..|habits| - 1], cm, start);
    }
  }

  lemma {:induction false} WindowOfNoHabits(cm: CompletionMap, start: Day, len: nat)
    ensures WindowCompletions([], cm, start, len) == 0
  {
    if len > 0 {
      WindowOfNoHabits(cm, start, len - 1);
    }
  }

  /** How far a loop at day `i` has advanced into the bucket starting at
      day `7 * b`. */
  function Filled(i: int, b: int): int {
    if i <= 7 * b then 0 else if i >= 7 * b + 7 then 7 else i - 7 * b
  }

  /** `habits.forEach(h => { if (...includes(dateStr)) weeks[weekBucket]++ })`:
      the bucket grows by the habits completed on the day, the others stay. */
  method AddDayCompletions(weeks: seq<nat>, bucket: nat, habits: seq<Habit>, cm: CompletionMap, day: Day)
    returns (next: seq<nat>)
    requires bucket < |weeks|
    ensures |next| == |weeks|
    ensures next[bucket] == weeks[bucket] + CompletedOn(habits, cm, day)
    ensures forall b | 0 <= b < |weeks| && b != bucket :: next[b] == weeks[b]
  {
    next := weeks;
    var j := 0;
    while j < |habits|
      invariant 0 <= j <= |habits|
      invariant |next| == |weeks|
      invariant next[bucket] == weeks[bucket] + CompletedOn(habits[..j], cm, day)
      invariant forall b | 0 <= b < |weeks| && b != bucket :: next[b] == weeks[b]
    {
      if day in DatesOf(cm, habits[j].id) {
        next := next[bucket := next[bucket] + 1];
      }
      assert habits[..j + 1][..j] == habits[..j];
      assert CompletedOn(habits[..j + 1], cm, day)
        == CompletedOn(habits[..j], cm, day) + (if day in DatesOf(cm, habits[j].id) then 1 else 0);
      j := j + 1;
    }
    assert habits[..|habits|] == habits;
  }

  datatype MonthlyChart = MonthlyChart(labels: seq<string>, data: seq<nat>)

  /** `generateMonthlyData`: day `i` of the 28 days ending today, i.e.
      `today - (27 - i)`, adds the habits completed on it to bucket `i / 7`. */
  method GenerateMonthlyData(habits: seq<Habit>, cm: CompletionMap, today: Day) returns (chart: MonthlyChart)
    ensures chart.labels == ["Week 1", "Week 2", "Week 3", "Week 4"]
    ensures |chart.data| == 4
    ensures forall b | 0 <= b < 4 ::
      chart.data[b] == WindowCompletions(habits, cm, today - 27 + 7 * b, 7)
    ensures forall b | 0 <= b < 4 :: chart.data[b] <= 7 * |habits|
    ensures chart.data[0] + chart.data[1] + chart.data[2] + chart.data[3]
      == WindowCompletions(habits, cm, today - 27, 28)
  {
    var weeks: seq<nat> := [0, 0, 0, 0];
    var i := 0;
    while i < 28
      invariant 0 <= i <= 28
      invariant |weeks| == 4
      invariant forall b | 0 <= b < 4 ::
        weeks[b] == WindowCompletions(habits, cm, today - 27 + 7 * b, Filled(i, b))
    {
      var bucket := i / 7;
      weeks := AddDayCompletions(weeks, bucket, habits, cm, today - (27 - i));
      assert Filled(i + 1, bucket) == Filled(i, bucket) + 1;
      i := i + 1;
    }
    WindowSplit(habits, cm, today - 27, 7, 7);
    WindowSplit(habits, cm, today - 27, 14, 7);
    WindowSplit(habits, cm, today - 27, 21, 7);
    chart := MonthlyChart(["Week 1", "Week 2", "Week 3", "Week 4"], weeks);
  }

  /** One cell of the calendar grid; `date` is the day of the month. */
  datatype DayCell = DayCell(
    date: int,
    completedCount: nat,
    completionLevel: int,
    isToday: bool,
    isFuture: bool)

  /** The completion intensity of a day: 0 for nothing done, then below 33%
      of the habit count, below 66% of it, below all, and all habits. The
      fractional thresholds `n * 0.33` and `n * 0.66` are compared exactly. */
  function CompletionLevel(completed: nat, total: nat): (level: int)
    ensures 0 <= level <= 4
    ensures level == 0 <==> completed == 0
    ensures level == 4 <==> completed > 0 && completed >= total
    ensures level == 1 ==> 100 * completed < 33 * total
    ensures level >= 2 ==> 100 * completed >= 33 * total
    ensures level == 2 ==> 100 * completed < 66 * total
    ensures level >= 3 ==> 100 * completed >= 66 * total
  {
    if completed == 0 then 0
    else if 100 * completed < 33 * total then 1
    else if 100 * completed < 66 * total then 2
    else if completed < total then 3
    else 4
  }

  /** More habits done on a day never lowers its level. */
  lemma CompletionLevelMonotone(c1: nat, c2: nat, total: nat)
    requires c1 <= c2
    ensures CompletionLevel(c1, total) <= CompletionLevel(c2, total)
  {
  }

  /** With three habits, one done is level 2, two are level 3 and all three
      are level 4: a single habit is never below 33% of three. */
  lemma ThreeHabitLevels()
    ensures CompletionLevel(0, 3) == 0
    ensures CompletionLevel(1, 3) == 2
    ensures CompletionLevel(2, 3) == 3
    ensures CompletionLevel(3, 3) == 4
  {
  }

  /** Level 1 is reachable for a single completion only from four habits on. */
  lemma LevelOneNeedsFourHabits(total: nat)
    ensures CompletionLevel(1, total) == 1 <==> total >= 4
  {
  }

  /** `start.setDate(today.getDate() - today.getDay() - 28)`: the Sunday four
      weeks before the Sunday that opens today's week. */
  function GridStart(today: Day): (start: Day)
    ensures Weekday(start) == 0
    ensures today - 34 <= start <= today - 28
    ensures start + 28 + Weekday(today) == today
  {
    SundayOnOrBefore(today);
    WeekdayShift(today - Weekday(today), 28);
    today - Weekday(today) - 28
  }

  /** Whole weeks do not move the weekday. */
  lemma WeekdayShift(o: Day, k: int)
    requires k % 7 == 0
    ensures Weekday(o - k) == Weekday(o)
  {
  }

  /** The cell of one day of the grid. */
  function Cell(habits: seq<Habit>, cm: CompletionMap, today: Day, day: Day): (c: DayCell)
    ensures 1 <= c.date <= 31
    ensures c.completedCount <= |habits|
    ensures c.isToday <==> day == today
    ensures c.isFuture <==> day > today
    ensures c.date == ToDate(day).day
    ensures c.completedCount == CompletedOn(habits, cm, day)
    ensures c.completionLevel == CompletionLevel(c.completedCount, |habits|)
  {
    var count := CompletedOn(habits, cm, day);
    var d := ToDate(day);
    DayCell(d.day, count, CompletionLevel(count, |habits|), day == today, day > today)
  }

  /** `cells` is the grid for `today`: day `i` of it is `GridStart(today) + i`. */
  ghost predicate IsGrid(cells: seq<DayCell>, habits: seq<Habit>, cm: CompletionMap, today: Day) {
    |cells| == 35
    && forall i | 0 <= i < 35 :: cells[i] == Cell(habits, cm, today, GridStart(today) + i)
  }

  /** `generateCalendarData`: five weeks of cells from `GridStart(today)`,
      pushed one day at a time. */
  method GenerateCalendarData(habits: seq<Habit>, cm: CompletionMap, today: Day) returns (cells: seq<DayCell>)
    ensures IsGrid(cells, habits, cm, today)
    ensures |cells| == 35
    ensures forall i | 0 <= i < 35 :: cells[i].completedCount <= |habits|
  {
    var start := GridStart(today);
    cells := [];
    var i := 0;
    while i < 35
      invariant 0 <= i <= 35
      invariant |cells| == i
      invariant forall k | 0 <= k < i :: cells[k] == Cell(habits, cm, today, start + k)
    {
      cells := cells + [Cell(habits, cm, today, start + i)];
      i := i + 1;
    }
  }

  /** Today's cell sits at `Weekday(today) + 28`, in the last week; the cells
      after it are the future and the cells before it are not. */
  lemma GridFlags(cells: seq<DayCell>, habits: seq<Habit>, cm: CompletionMap, today: Day)
    requires IsGrid(cells, habits, cm, today)
    ensures 28 <= Weekday(today) + 28 < 35
    ensures forall i | 0 <= i < 35 :: cells[i].isToday <==> i == Weekday(today) + 28
    ensures forall i | 0 <= i < 35 :: cells[i].isFuture <==> i > Weekday(today) + 28
  {
  }

  /** Exactly one cell of the grid is today's. */
  lemma ExactlyOneToday(cells: seq<DayCell>, habits: seq<Habit>, cm: CompletionMap, today: Day)
    requires IsGrid(cells, habits, cm, today)
    ensures |set i | 0 <= i < 35 && cells[i].isToday| == 1
  {
    GridFlags(cells, habits, cm, today);
    assert (set i | 0 <= i < 35 && cells[i].isToday) == {Weekday(today) + 28};
  }

  /** The grid opens on a Sunday and closes on a Saturday, and consecutive
      cells are consecutive days: the day of the month goes up by one, or
      restarts at 1 when a new month begins. */
  lemma GridDates(cells: seq<DayCell>, habits: seq<Habit>, cm: CompletionMap, today: Day)
    requires IsGrid(cells, habits, cm, today)
    ensures Weekday(GridStart(today)) == 0 && Weekday(GridStart(today) + 34) == 6
    ensures forall i | 0 <= i < 34 ::
      cells[i + 1].date == cells[i].date + 1 || cells[i + 1].date == 1
  {
    forall i | 0 <= i < 34
      ensures cells[i + 1].date == cells[i].date + 1 || cells[i + 1].date == 1
    {
      NextDay(GridStart(today) + i);
    }
  }

  /** Each cell counts the habits done on its day and grades them. */
  lemma GridCounts(cells: seq<DayCell>, habits: seq<Habit>, cm: CompletionMap, today: Day, i: int)
    requires IsGrid(cells, habits, cm, today)
    requires 0 <= i < 35
    ensures cells[i].completedCount == |DoneIndices(habits, cm, GridStart(today) + i)|
    ensures cells[i].completionLevel == 4 <==> 0 < |habits| == cells[i].completedCount
  {
    CompletedOnCounts(habits, cm, GridStart(today) + i);
  }

  const Neutral := "#f1f5f9"

  /** `getCompletionColor`: the fill of a cell. */
  function CompletionColor(level: int, isFuture: bool): (colour: string)
    ensures isFuture ==> colour == Neutral
    ensures colour == Neutral <==> isFuture || level < 1 || level > 4
  {
    if isFuture then Neutral
    else if level == 1 then "#ccfbf1"
    else if level == 2 then "#99f6e4"
    else if level == 3 then "#5eead4"
    else if level == 4 then "#0d9488"
    else Neutral
  }

  /** On past and present cells the fill tells every level apart. */
  lemma CompletionColorDistinguishesLevels(l1: int, l2: int)
    requires 0 <= l1 <= 4 && 0 <= l2 <= 4 && l1 != l2
    ensures CompletionColor(l1, false) != CompletionColor(l2, false)
  {
  }

  /** `getTextColor`: the digit colour of a cell; a future day wins over
      today, today over the level. */
  function TextColor(level: int, isToday: bool, isFuture: bool): (colour: string)
    ensures isFuture ==> colour == "#cbd5e1"
    ensures !isFuture && isToday ==> colour == "#0d9488"
    ensures !isFuture && !isToday ==> (colour == "#ffffff" <==> level >= 3)
    ensures !isFuture && !isToday && level < 3 ==> colour == "#0f172a"
  {
    if isFuture then "#cbd5e1"
    else if isToday then "#0d9488"
    else if level >= 3 then "#ffffff"
    else "#0f172a"
  }

  /** An ordinary cell has white digits exactly on the two darkest fills. */
  lemma WhiteTextOnDarkFills(level: int)
    requires 0 <= level <= 4
    ensures TextColor(level, false, false) == "#ffffff"
      <==> CompletionColor(level, false) in {"#5eead4", "#0d9488"}
  {
  }

  /** Every cell after today has the neutral fill and the pale digits, and
      today's cell has the accent digits whatever its level. */
  lemma CellColours(habits: seq<Habit>, cm: CompletionMap, today: Day, day: Day)
    ensures var c := Cell(habits, cm, today, day);
      (day > today ==>
         CompletionColor(c.completionLevel, c.isFuture) == Neutral
         && TextColor(c.completionLevel, c.isToday, c.isFuture) == "#cbd5e1")
      && (day == today ==>
         TextColor(c.completionLevel, c.isToday, c.isFuture) == "#0d9488")
  {
  }

  const TotalDaysTracked := 30

  /** The per-habit completion rate: every stored entry of the habit over a
      fixed 30 days, in percent, rounded. */
  function CompletionRate(completions: seq<Day>): (rate: int)
    ensures rate >= 0
    ensures |completions| <= TotalDaysTracked ==> rate <= 100
    ensures |completions| == TotalDaysTracked ==> rate == 100
    ensures |completions| > TotalDaysTracked ==> rate > 100
    ensures 2 * TotalDaysTracked * rate <= 200 * |completions| + TotalDaysTracked
      < 2 * TotalDaysTracked * (rate + 1)
  {
    if TotalDaysTracked > 0 then
      RateBounds(|completions|);
      RoundDiv(100 * |completions|, TotalDaysTracked)
    else 0
  }

  /** Where the rounded rate of `n` entries sits against 100. */
  lemma RateBounds(n: nat)
    ensures RoundDiv(100 * n, TotalDaysTracked) >= 0
    ensures n <= TotalDaysTracked ==> RoundDiv(100 * n, TotalDaysTracked) <= 100
    ensures n == TotalDaysTracked ==> RoundDiv(100 * n, TotalDaysTracked) == 100
    ensures n > TotalDaysTracked ==> RoundDiv(100 * n, TotalDaysTracked) > 100
  {
    if n <= TotalDaysTracked {
      RoundDivBetween(100 * n, TotalDaysTracked, 0, 100);
      if n == TotalDaysTracked {
        RoundDivBetween(100 * n, TotalDaysTracked, 100, 100);
      }
    } else {
      RoundDivBetween(100 * n, TotalDaysTracked, 101, 100 * n);
    }
  }

  /** Every third entry is worth exactly ten points: with a multiple of three
      entries the rate is `10 / 3` of the count, with no rounding. */
  lemma CompletionRateExact(completions: seq<Day>)
    requires |completions| % 3 == 0
    ensures 3 * CompletionRate(completions) == 10 * |completions|
  {
    var k := |completions| / 3;
    assert |completions| == 3 * k;
    var r := CompletionRate(completions);
    if r < 10 * k {
      MulLe(r + 1, 10 * k, 60);
    } else if r > 10 * k {
      MulLe(10 * k + 1, r, 60);
    }
  }

  /** The rate shown for one habit of the performance list: a habit with no
      entry in the map has no completions and rates 0. */
  function HabitCompletionRate(cm: CompletionMap, h: Habit): (rate: int)
    ensures 0 <= rate
    ensures !HasKey(cm, h.id) ==> rate == 0
    ensures |DatesOf(cm, h.id)| <= TotalDaysTracked ==> rate <= 100
    ensures 60 * rate <= 200 * |DatesOf(cm, h.id)| + 30 < 60 * (rate + 1)
  {
    CompletionRate(DatesOf(cm, h.id))
  }

  /** The rate only grows with the number of stored entries. */
  lemma CompletionRateMonotone(a: seq<Day>, b: seq<Day>)
    requires |a| <= |b|
    ensures CompletionRate(a) <= CompletionRate(b)
  {
    RoundDivMonotone(100 * |a|, 100 * |b|, TotalDaysTracked);
  }

  /** The rate is not capped: a habit with 31 stored entries, the 31 days
      ending today, rates 103. */
  lemma CompletionRateUncapped(today: Day)
    ensures CompletionRate(seq(31, i => today - i)) == 103
  {
    assert |seq(31, i => today - i)| == 31;
  }
}
