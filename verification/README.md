# Habit analytics core, modelled in Dafny

This project models the analytics core of a React Native habit tracker.
Each user has habits and a completion map, which sends a habit id to the
list of `YYYY-MM-DD` days on which the habit was done. From that snapshot and
today's date the application derives four things:

- the current streak of each habit (`CalculateStreak`);
- a motivational insight chosen by the summed streak (`generateInsight`);
- the figures of the analytics screen:
  - a 7-day percentage trend and its average;
  - the best streak;
  - this month's completions;
  - four weekly buckets;
  - a 35-cell Sunday-aligned calendar grid with completion levels and colours;
  - a per-habit completion rate;
- the optimistic update that toggles today's date in one habit's list.

The model states these as pure Dafny functions over an injected `today`.
Where the application walks a loop (the streak walk, the monthly buckets,
the calendar grid), the model uses methods with loop invariants.

Modules:

- `Calendar` (calendar.dfy): days as integer ordinals, with day 0 being
  1970-01-01, plus the proleptic Gregorian conversion to and from
  (year, month, day), the weekday (Sunday = 0, as `getDay` numbers it), the
  first day of a month, and month membership. For the years 0000 to 9999,
  which `YYYY-MM-DD` can write, a date string and an ordinal are one-to-one
  (`ToDate`, `ToDayInjective`), so list membership of strings is membership
  of ordinals.
- `Text` (text.dfy): decimal rendering of a number and first-occurrence
  `String.prototype.replace`.
- `Habits` (habits.dfy): habits and the completion map. The map is an
  association list, because a JavaScript object keeps its keys in insertion
  order and its values may repeat dates.
- `Streaks` (streak.dfy): src/utils/streak.js.
- `Insights` (insights.dfy): src/utils/insights.js.
- `Analytics` (analytics.dfy): the data calculations of
  src/screens/AnalyticsScreen.js.
- `HabitsContext` (toggle.dfy): the state updater of `toggleHabitCompletion`
  in src/context/HabitsContext.js.

### Two behaviours of the code worth knowing

- **Completion level with three habits.** The level compares the count
  against `n * 0.33` and `n * 0.66` (src/screens/AnalyticsScreen.js:157-166).
  With n = 3, one completion is not below 0.99 but is below 1.98, so 0, 1, 2
  and 3 completions give levels 0, 2, 3 and 4 (`ThreeHabitLevels`). Level 1
  is reachable for a single completion only from four habits on
  (`LevelOneNeedsFourHabits`).
- **The zero-streak insight.** src/utils/insights.js has no separate branch
  for a missed today: with at least one habit and a total streak of 0, it
  picks from `missedDay`. The `newHabit` templates of the table are never
  returned (`InsightNeverNewHabit`).

## Model

| member | source | states |
|---|---|---|
| Streaks.Streak | src/utils/streak.js:1-21 | The streak is 0 for an empty list and 0 when today is missing, whatever run ends yesterday. A streak of n means the n days ending today are all listed and the day before them is not. It never exceeds the number of distinct dates. |
| Streaks.CalculateStreak | src/utils/streak.js:1-21 | The backward walk from today terminates, because its count is bounded by the number of distinct dates. It returns the reference streak, with its run property and its bound. |
| Streaks.StreakOfRun | src/utils/streak.js:11-19 | The run property determines the result: if the n days ending today are listed and the day before is not, the streak is n. |
| Streaks.StreakDependsOnlyOnMembership | src/utils/streak.js:13 | Lists with the same members have the same streak. Reordering or duplicating entries changes nothing. |
| Streaks.StreakMonotone | src/utils/streak.js:13-16 | A list that contains another has a streak at least as long. |
| Streaks.StreakAppend | src/utils/streak.js:13-16 | Adding one date never decreases the streak. |
| Streaks.HabitStreak | src/utils/insights.js:25-26 | The value is the streak of `completionMap[h.id] \|\| []`: the n days ending today are in the habit's list and the day before is not, which `StreakOfRun` shows fixes n. A habit with no map entry has streak 0, and a positive streak means today is in its list. |
| Insights.Pick | src/utils/insights.js:33 | `floor(r * n)` with 0 <= r < 1 is a valid index of a non-empty set, and it is the floor of `r * n`. |
| Insights.TotalStreak | src/utils/insights.js:24-27 | The summed streak is at least each habit's streak. It is 0 exactly when every habit's streak is 0. |
| Insights.TotalStreakAppend | src/utils/insights.js:24-27 | Each step of the `reduce` adds exactly the next habit's streak, taken from its list or from the empty list. |
| Insights.MissingEntryAddsNothing | src/utils/insights.js:25 | A habit without a map entry adds nothing to the total, because it counts as an empty list. |
| Insights.Choose | src/utils/insights.js:29-45 | The selector lands in exactly one bucket: no habits; habits with total 0; total in 1..6; total of 7 or more. The index in the chosen set is `floor(r * length)` of that set, always in range. |
| Insights.GenerateInsight | src/utils/insights.js:22-46 | With no habits the result is the fixed prompt. With habits and total 0 it is a `missedDay` message. With total in 1..6 it is a `shortStreak` template with its first `{streak}` replaced by the decimal total. With a total of 7 or more it is the same for `longStreak`. |
| Insights.Fill | src/utils/insights.js:40 | Filling replaces the first `{streak}` of a template by the decimal total, keeping both sides; a template without the slot is kept. |
| Insights.Render | src/utils/insights.js:29-46 | A choice renders to the fixed prompt, the `missedDay` message at its index, or the `shortStreak` or `longStreak` template at its index filled with the total. |
| Insights.FillTemplates | src/utils/insights.js:8-15 | Substituting into a template with a slot puts the decimal total exactly where `{streak}` was. A template without a slot is returned unchanged. |
| Insights.InsightHasNoSlot | src/utils/insights.js:22-46 | No result of the selector contains the literal `{streak}`. |
| Insights.InsightNeverNewHabit | src/utils/insights.js:3-46 | No result of the selector is a `newHabit` template. |
| Text.Decimal | src/utils/insights.js:40 | The number substituted into the template is written as at least one decimal digit, with no leading zero. |
| Text.DecimalRoundTrip | src/utils/insights.js:40 | The decimal text substituted for the total reads back as the total, so distinct totals give distinct texts. |
| Text.ReplaceFirst | src/utils/insights.js:40 | `replace` with a string pattern replaces the earliest occurrence, with no occurrence before it, and keeps the text on both sides. A string without the pattern is returned unchanged. |
| Text.ReplaceAfterPlainPrefix | src/utils/insights.js:40 | When the text before the slot cannot start it, the replacement lands right after that text and leaves the rest as it was. |
| Calendar.ToDate | src/utils/streak.js:12 | Every day ordinal has a valid calendar date, and converting that date back gives the ordinal again. |
| Calendar.ToDayInjective | src/utils/streak.js:12-13 | Distinct valid dates are distinct days, so comparing day strings compares days. |
| Calendar.NextDay | src/utils/streak.js:15 | Stepping one day moves the date to its calendar successor, across month and year ends. |
| Calendar.Weekday | src/screens/AnalyticsScreen.js:144 | `getDay()` is a weekday number in 0..6 with Sunday 0; `CalendarAnchors` pins it to the real calendar and `SundayOnOrBefore` gives the step back to Sunday. |
| Calendar.SundayOnOrBefore | src/screens/AnalyticsScreen.js:144 | Going back `getDay()` days lands on a Sunday within the last six days. |
| Calendar.SameMonthIsInterval | src/screens/AnalyticsScreen.js:111-112 | Two days share month and year exactly when the first lies between the first and last day of the second's month. |
| Calendar.CalendarAnchors | src/utils/streak.js:4-5 | The ordinal scale is anchored: 1970-01-01 is day 0, a Thursday, and 2026-10-10 is a Saturday. |
| Habits.DatesOf | src/context/HabitsContext.js:60 | `map[id] \|\| []` gives the empty list for a missing key, and otherwise a value stored under that key. |
| Habits.Put | src/context/HabitsContext.js:64 | The spread update stores the new list under the key and leaves every other key's list unchanged. |
| Habits.PutShape | src/context/HabitsContext.js:64 | A new key is appended at the end. An existing key keeps its place, and the key order does not change. |
| Habits.PutKeepsKeysUnique | src/context/HabitsContext.js:64 | The update never creates a duplicate key. |
| Habits.PutPut | src/context/HabitsContext.js:64 | A second update of the same key overwrites the first. |
| Habits.PutSame | src/context/HabitsContext.js:64 | Storing back the list a key already holds leaves the map unchanged. |
| Habits.AllDates | src/screens/AnalyticsScreen.js:108-109 | `Object.values(...).flat()` keeps every entry of every value and invents none. That duplicates across keys all stay is the concatenation stated by `AllDatesAppend`. |
| Habits.AllDatesAppend | src/screens/AnalyticsScreen.js:108-109 | The flattening runs key by key in insertion order: a key added last contributes its dates, in their order, after all the others. |
| Analytics.RoundDiv | src/screens/AnalyticsScreen.js:93 | `Math.round(p / q)` is the integer nearest `p / q`, with a half rounded up. |
| Analytics.RoundDivBetween | src/screens/AnalyticsScreen.js:92-99 | A rounded ratio stays within any integer bounds that the ratio itself lies within. |
| Analytics.CompletedOn | src/screens/AnalyticsScreen.js:89-91 | `habits.filter(h => (cm[h.id] \|\| []).includes(d)).length` never exceeds the number of habits. |
| Analytics.CompletedOnNone | src/screens/AnalyticsScreen.js:153-155 | A day's count is 0 exactly when no habit's list contains the day. |
| Analytics.CompletedOnAll | src/screens/AnalyticsScreen.js:153-155 | A day's count equals the habit count exactly when every habit's list contains the day. |
| Analytics.CompletedOnCounts | src/screens/AnalyticsScreen.js:89-91 | A day's count of completed habits is the number of habit positions whose list contains that day. |
| Analytics.Percent | src/screens/AnalyticsScreen.js:92-94 | A day's percentage is the integer nearest to 100 times the completed share, a half rounded up. It lies in 0..100, is 0 without habits or without completions, and is 100 when every habit is done. |
| Analytics.Last7Days | src/screens/AnalyticsScreen.js:80-86 | The window is seven consecutive days, oldest first, ending today. |
| Analytics.WeeklyPercentages | src/screens/AnalyticsScreen.js:88-95 | There are seven values, one per window day, each in 0..100, and all 0 when there are no habits. |
| Analytics.Sum | src/screens/AnalyticsScreen.js:98 | `reduce((a, b) => a + b, 0)` is 0 on the empty list, and folding from either end gives the same sum: the first element plus the sum of the rest. |
| Analytics.AvgWeeklyCompletion | src/screens/AnalyticsScreen.js:97-99 | The average is the integer nearest to the mean of the seven percentages, a half rounded up. It lies in 0..100 and is 0 without habits. |
| Analytics.AvgBetween | src/screens/AnalyticsScreen.js:97-99 | When every one of the seven percentages lies between two bounds, so does the average; seven equal percentages average to that value. |
| Analytics.HabitStreaks | src/screens/AnalyticsScreen.js:101-104 | The mapped list has one streak per habit, in order, each the streak of that habit's list. |
| Analytics.BestStreak | src/screens/AnalyticsScreen.js:101-104 | The best streak is at least every habit's streak. It equals one of them when there are habits, and is 0 when there are none. |
| Analytics.MaxOf | src/screens/AnalyticsScreen.js:101-104 | `Math.max(...xs, 0)` over non-negative values is at least every value. It is one of them when there are any, and 0 when there are none. |
| Analytics.CountWhere | src/screens/AnalyticsScreen.js:110-113 | `filter(...).length` counts at most every entry. It is 0 when no entry passes and the full length when every entry passes. |
| Analytics.InMonthOf | src/screens/AnalyticsScreen.js:110-112 | The filter keeps a day exactly when its calendar year and month are today's; `SameMonthIsInterval` and `ThisMonthIsRange` turn that into the month's run of days. |
| Analytics.ThisMonthCompletions | src/screens/AnalyticsScreen.js:106-113 | The month count never exceeds the number of stored entries over all keys. |
| Analytics.ThisMonthIsRange | src/screens/AnalyticsScreen.js:106-113 | The month count counts the map's entries that lie between the first and last day of today's month. |
| Analytics.ThisMonthAddEntry | src/screens/AnalyticsScreen.js:108-113 | Every map entry adds all of its in-month dates to the count, duplicates included, even when its key is no listed habit. |
| Analytics.WindowCompletions | src/screens/AnalyticsScreen.js:119-130 | A window of `len` days holds at most `len` completions per habit. |
| Analytics.WindowSplit | src/screens/AnalyticsScreen.js:119-130 | The completions of a window are the sum over two consecutive sub-windows. |
| Analytics.WindowByHabit | src/screens/AnalyticsScreen.js:119-130 | Counting a window day by day gives the same total as counting it habit by habit: the number of (habit, day) completions in it. |
| Analytics.AddDayCompletions | src/screens/AnalyticsScreen.js:125-129 | The per-habit loop raises the day's bucket by exactly the number of habits completed that day and leaves the other buckets alone. |
| Analytics.GenerateMonthlyData | src/screens/AnalyticsScreen.js:115-135 | There are four labelled buckets. Bucket b holds the completions of days today-27+7b to today-21+7b, at most 7 per habit. Together the buckets hold every completion of the 28 days ending today. |
| Analytics.CompletionLevel | src/screens/AnalyticsScreen.js:157-166 | The level is in 0..4. It is 0 exactly when nothing is done, and 4 exactly when something is done and the count reaches the habit count. Level 1 lies below 33% of the habit count, level 2 from 33% up to below 66%, and level 3 from 66% up to below all. |
| Analytics.CompletionLevelMonotone | src/screens/AnalyticsScreen.js:157-166 | More completions never give a lower level. |
| Analytics.ThreeHabitLevels | src/screens/AnalyticsScreen.js:157-166 | With three habits, 0, 1, 2 and 3 completions give levels 0, 2, 3 and 4. |
| Analytics.LevelOneNeedsFourHabits | src/screens/AnalyticsScreen.js:160 | One completion is level 1 exactly when there are at least four habits. |
| Analytics.GridStart | src/screens/AnalyticsScreen.js:143-144 | The grid starts on the Sunday 28 days before the Sunday of today's week. Today is 28 + weekday(today) days after it. |
| Analytics.GenerateCalendarData | src/screens/AnalyticsScreen.js:140-177 | The loop builds 35 cells. Cell i describes day `GridStart(today) + i`, and no count exceeds the number of habits. |
| Analytics.Cell | src/screens/AnalyticsScreen.js:146-169 | A cell carries its day of the month (1..31), the number of habits done that day, the level of that count, and whether it is today or in the future. |
| Analytics.GridFlags | src/screens/AnalyticsScreen.js:150-151 | Today's cell is at index weekday(today) + 28, in the last week. Exactly the cells after it are marked future. |
| Analytics.ExactlyOneToday | src/screens/AnalyticsScreen.js:150 | Exactly one cell is marked as today. |
| Analytics.GridDates | src/screens/AnalyticsScreen.js:146-169 | The grid runs from a Sunday to a Saturday. From cell to cell, the day of the month either rises by one or restarts at 1. |
| Analytics.GridCounts | src/screens/AnalyticsScreen.js:153-166 | A cell's count is the number of habits done on its day. Its level is 4 exactly when every habit (at least one) is done. |
| Analytics.CompletionColor | src/screens/AnalyticsScreen.js:181-195 | A future cell always gets the neutral fill. A past or present cell gets the neutral fill exactly when its level is outside 1..4. |
| Analytics.CompletionColorDistinguishesLevels | src/screens/AnalyticsScreen.js:183-194 | On non-future cells, different levels 0..4 get different fills. |
| Analytics.TextColor | src/screens/AnalyticsScreen.js:197-201 | Future digits are pale, and that wins over today. Today's digits get the accent colour. Other digits are white exactly from level 3 up, and dark below it. |
| Analytics.WhiteTextOnDarkFills | src/screens/AnalyticsScreen.js:189-200 | On an ordinary cell the digits are white exactly on the two darkest fills. |
| Analytics.CellColours | src/screens/AnalyticsScreen.js:181-201 | A cell after today gets the neutral fill and pale digits. Today's cell gets the accent digits whatever its level. |
| Analytics.CompletionRate | src/screens/AnalyticsScreen.js:456-463 | The rate is the integer nearest to the stored entries over 30, in percent, a half rounded up. It is non-negative, at most 100 up to 30 stored entries, exactly 100 at 30, and above 100 beyond that. |
| Analytics.CompletionRateExact | src/screens/AnalyticsScreen.js:458-462 | With a multiple of three entries no rounding happens: three entries are worth exactly ten points. |
| Analytics.HabitCompletionRate | src/screens/AnalyticsScreen.js:456-463 | A listed habit's rate uses its own stored entries, or none when its key is missing, which rates 0. |
| Analytics.CompletionRateMonotone | src/screens/AnalyticsScreen.js:456-463 | More stored entries never give a lower rate. |
| Analytics.CompletionRateUncapped | src/screens/AnalyticsScreen.js:458-462 | The rate is not capped: 31 entries give 103. |
| HabitsContext.Sort | src/context/HabitsContext.js:63 | `sort()` returns a sorted permutation of its input. |
| HabitsContext.SortedUnique | src/context/HabitsContext.js:63 | Two sorted lists with the same elements, counted with multiplicity, are equal, so the sorted result is determined. |
| HabitsContext.Without | src/context/HabitsContext.js:62 | The filter removes every occurrence of the date and keeps every other date as often as it occurred. |
| HabitsContext.WithoutConcat | src/context/HabitsContext.js:62 | The filter works piece by piece, so the kept dates keep their original order. |
| HabitsContext.WithoutAbsent | src/context/HabitsContext.js:62 | Filtering out a date that is not present changes nothing. |
| HabitsContext.ToggleDates | src/context/HabitsContext.js:60-63 | Today's membership flips. A present today gives exactly the filtered list: every occurrence of today removed, the other dates in their original order with their counts, and a sorted list stays sorted. An absent today is added once and the result is sorted. |
| HabitsContext.ToggleEmpty | src/context/HabitsContext.js:60-63 | The first toggle of an empty list gives `[today]`. |
| HabitsContext.ToggleTwice | src/context/HabitsContext.js:61-63 | Toggling twice on a sorted list without repeats gives that list back. |
| HabitsContext.ToggleHabitCompletion | src/context/HabitsContext.js:52-66 | Without a signed-in user nothing changes. Otherwise the habit's list becomes the toggled list: today's membership flips, a missing key ends up holding `[today]`, a sorted list stays sorted, and every other key's list is untouched. |
| HabitsContext.ToggleHabitTwice | src/context/HabitsContext.js:59-65 | For a habit whose list is sorted without repeats, a second toggle on the same day restores every list. It restores the map itself when the key existed, and otherwise leaves the new key holding an empty list. |

## Left out

- Firestore I/O: the `await toggleCompletion(...)` call at
  src/context/HabitsContext.js:56 and the fetch and subscribe effects. These
  are network calls into an SDK. The model keeps only the local state update.
- A failing write. When `await toggleCompletion(...)` rejects, the rest of
  `toggleHabitCompletion` does not run and the local map keeps its old value.
  The model applies the update as if the write had succeeded.
- Years outside 0000 to 9999. The model's ordinals cover every proleptic
  Gregorian year, while a `YYYY-MM-DD` string with four digits does not.
- Authentication: the signed-in user is a boolean parameter of
  `ToggleHabitCompletion`.
- Clock and time zones. `new Date()` becomes the `today` parameter. The
  application mixes UTC strings (`toISOString`) with local accessors (`getDay`,
  `getMonth`, `getDate`, `setHours`). The model treats every day as one
  calendar day, with no UTC offset and no daylight saving.
- `isFuture` compares two `Date` objects at the same time of day. The model
  compares their days.
- Date text. Stored dates are `YYYY-MM-DD` strings. The model stores the
  day ordinal these strings denote, one-to-one for valid dates. Malformed
  strings, which `new Date` turns into an invalid date, are not represented.
  The default `sort()` compares strings; for zero-padded four-digit years
  that is the order of the ordinals.
- Floating point. `Math.round` of the percentages and of the completion rate
  is modelled as exact round-half-up on rationals. The 0.33 and 0.66
  thresholds are modelled as exact comparisons `100c < 33n` and
  `100c < 66n`. Ties that a binary fraction would shift are not modelled.
- `Math.random` becomes an injected real `r` with `0 <= r < 1`.
- Object keys that look like array indices, which JavaScript enumerates
  before other keys. Habit ids are treated as ordinary string keys kept in
  insertion order.
- The JSX, charts, styles and navigation of the analytics screen.
- Notifications, the other screens and app setup are not part of this model.
