/** Proleptic Gregorian calendar arithmetic on day ordinals.

    A `Day` counts days from 1970-01-01 (day 0), the epoch of the JavaScript
    `Date` object; negative ordinals are the days before it. A `Date` is a
    (year, month, day-of-month) triple. `ToDay` and `ToDate` convert between
    the two and are proved to be mutually inverse on valid dates, so that
    "step back one day" is `d - 1`, and month/year membership and the
    day-of-month shown in a calendar cell can both be stated. */
module Calendar {

  type Day = int

  predicate IsLeapYear(y: int) {
    y % 4 == 0 && (y % 100 != 0 || y % 400 == 0)
  }

  function DaysInYear(y: int): (n: int)
    ensures n == 365 || n == 366
  {
    if IsLeapYear(y) then 366 else 365
  }

  function DaysInMonth(y: int, m: int): (n: int)
    requires 1 <= m <= 12
    ensures 28 <= n <= 31
  {
    if m == 2 then (if IsLeapYear(y) then 29 else 28)
    else if m == 4 || m == 6 || m == 9 || m == 11 then 30
    else 31
  }

  datatype Date = Date(year: int, month: int, day: int) {
    predicate Valid() {
      1 <= month <= 12 && 1 <= day <= DaysInMonth(year, month)
    }
  }

  /** Days from January 1st of year `y` to the first day of month `m`;
      `m == 13` stands for the first day of the following year. */
  function DaysBeforeMonth(y: int, m: int): (n: int)
    requires 1 <= m <= 13
    ensures 0 <= n <= 366
    ensures m == 1 ==> n == 0
    ensures m == 13 ==> n == DaysInYear(y)
  {
    var common := [0, 31, 59, 90, 120, 151, 181, 212, 243, 273, 304, 334, 365];
    common[m - 1] + (if IsLeapYear(y) && m > 2 then 1 else 0)
  }

  /** Each month starts where the previous one ends. */
  lemma DaysBeforeMonthStep(y: int, m: int)
    requires 1 <= m <= 12
    ensures DaysBeforeMonth(y, m) + DaysInMonth(y, m) == DaysBeforeMonth(y, m + 1)
  {
  }

  /** The ordinal of January 1st of year `y`, counted outward from 1970. */
  function YearStart(y: int): Day
    decreases if y < 1970 then 1970 - y else y - 1970
  {
    if y == 1970 then 0
    else if y > 1970 then YearStart(y - 1) + DaysInYear(y - 1)
    else YearStart(y + 1) - DaysInYear(y)
  }

  lemma YearStartStep(y: int)
    ensures YearStart(y + 1) == YearStart(y) + DaysInYear(y)
  {
  }

  /** Years are laid end to end: a later year starts after an earlier one ends. */
  lemma {:induction false} YearStartMonotone(y1: int, y2: int)
    requires y1 < y2
    ensures YearStart(y1) + DaysInYear(y1) <= YearStart(y2)
    decreases y2 - y1
  {
    YearStartStep(y1);
    if y1 + 1 < y2 {
      YearStartMonotone(y1 + 1, y2);
    }
  }

  function ToDay(dt: Date): Day
    requires dt.Valid()
  {
    YearStart(dt.year) + DaysBeforeMonth(dt.year, dt.month) + dt.day - 1
  }

  /** The year containing day `o`, searched for outward from year `y`. */
  function FindYear(o: Day, y: int): (r: int)
    ensures YearStart(r) <= o < YearStart(r) + DaysInYear(r)
    decreases (if o < YearStart(y) then YearStart(y) - o else 0),
              (if o < YearStart(y) then 0 else o - YearStart(y))
  {
    if o < YearStart(y) then
      YearStartStep(y - 1);
      FindYear(o, y - 1)
    else if o >= YearStart(y) + DaysInYear(y) then
      YearStartStep(y);
      FindYear(o, y + 1)
    else
      y
  }

  /** The month of year `y` that contains day-of-year `doy` (0-based),
      searched for upward from month `m`. */
  function FindMonth(y: int, doy: int, m: int): (r: int)
    requires 1 <= m <= 12
    requires DaysBeforeMonth(y, m) <= doy < DaysInYear(y)
    ensures m <= r <= 12
    ensures DaysBeforeMonth(y, r) <= doy < DaysBeforeMonth(y, r + 1)
    decreases 12 - m
  {
    DaysBeforeMonthStep(y, m);
    if doy < DaysBeforeMonth(y, m + 1) then m else FindMonth(y, doy, m + 1)
  }

  /** The calendar date of day `o`; the inverse of `ToDay`. */
  function ToDate(o: Day): (dt: Date)
    ensures dt.Valid()
    ensures ToDay(dt) == o
  {
    var y := FindYear(o, 1970);
    var doy := o - YearStart(y);
    var m := FindMonth(y, doy, 1);
    Date(y, m, doy - DaysBeforeMonth(y, m) + 1)
  }

  /** Two valid dates with the same ordinal are the same date. */
  lemma ToDayInjective(a: Date, b: Date)
    requires a.Valid() && b.Valid()
    requires ToDay(a) == ToDay(b)
    ensures a == b
  {
    if a.year < b.year {
      YearStartMonotone(a.year, b.year);
      assert false;
    } else if b.year < a.year {
      YearStartMonotone(b.year, a.year);
      assert false;
    }
    if a.month < b.month {
      DaysBeforeMonthMonotone(a.year, a.month + 1, b.month);
      assert false;
    } else if b.month < a.month {
      DaysBeforeMonthMonotone(a.year, b.month + 1, a.month);
      assert false;
    }
  }

  lemma {:induction false} DaysBeforeMonthMonotone(y: int, m1: int, m2: int)
    requires 1 <= m1 <= m2 <= 13
    ensures DaysBeforeMonth(y, m1) <= DaysBeforeMonth(y, m2)
    decreases m2 - m1
  {
    if m1 < m2 {
      DaysBeforeMonthStep(y, m1);
      DaysBeforeMonthMonotone(y, m1 + 1, m2);
    }
  }

  /** `ToDate` and `ToDay` are mutually inverse on valid dates. */
  lemma ToDateOfToDay(dt: Date)
    requires dt.Valid()
    ensures ToDate(ToDay(dt)) == dt
  {
    ToDayInjective(ToDate(ToDay(dt)), dt);
  }

  /** The day after a date is the next day of the month, or the first of the
      next month, or New Year's Day. */
  lemma NextDay(o: Day)
    ensures ToDate(o + 1) == Successor(ToDate(o))
  {
    var d := ToDate(o);
    ToDaySuccessor(d);
    ToDateOfToDay(Successor(d));
  }

  lemma ToDaySuccessor(d: Date)
    requires d.Valid()
    ensures ToDay(Successor(d)) == ToDay(d) + 1
  {
    if d.day == DaysInMonth(d.year, d.month) {
      if d.month < 12 {
        DaysBeforeMonthStep(d.year, d.month);
      } else {
        YearStartStep(d.year);
      }
    }
  }

  /** The calendar's own notion of "the next day". */
  function Successor(d: Date): (e: Date)
    requires d.Valid()
    ensures e.Valid()
  {
    if d.day < DaysInMonth(d.year, d.month) then Date(d.year, d.month, d.day + 1)
    else if d.month < 12 then Date(d.year, d.month + 1, 1)
    else Date(d.year + 1, 1, 1)
  }

  /** Day of the week as JavaScript's `getDay` numbers it: 0 is Sunday.
      1970-01-01, day 0, was a Thursday. */
  function Weekday(o: Day): (w: int)
    ensures 0 <= w < 7
  {
    (o + 4) % 7
  }

  /** Stepping back `Weekday(o)` days from `o` lands on a Sunday, at most six
      days earlier. */
  lemma SundayOnOrBefore(o: Day)
    ensures Weekday(o - Weekday(o)) == 0
    ensures o - 6 <= o - Weekday(o) <= o
  {
  }

  /** Same calendar month of the same year. */
  predicate SameMonth(a: Day, b: Day) {
    ToDate(a).year == ToDate(b).year && ToDate(a).month == ToDate(b).month
  }

  /** The ordinal of the first day of the month containing `o`. */
  function FirstOfMonth(o: Day): (f: Day)
    ensures f <= o
    ensures ToDate(f) == Date(ToDate(o).year, ToDate(o).month, 1)
  {
    var d := ToDate(o);
    ToDateOfToDay(Date(d.year, d.month, 1));
    o - (d.day - 1)
  }

  /** A day lies in the month of `b` exactly when it lies in the run of
      `DaysInMonth` consecutive days that starts on the first of that month. */
  lemma SameMonthIsInterval(a: Day, b: Day)
    ensures SameMonth(a, b) <==>
      FirstOfMonth(b) <= a < FirstOfMonth(b) + DaysInMonth(ToDate(b).year, ToDate(b).month)
  {
    var db := ToDate(b);
    var f := FirstOfMonth(b);
    var n := DaysInMonth(db.year, db.month);
    if f <= a < f + n {
      var dt := Date(db.year, db.month, a - f + 1);
      ToDateOfToDay(dt);
    }
  }

  /** Two fixed points that pin the ordinal and weekday conventions to the
      real calendar: the epoch 1970-01-01 was a Thursday and 2026-10-10 is a
      Saturday. */
  lemma CalendarAnchors()
    ensures ToDay(Date(1970, 1, 1)) == 0 && Weekday(0) == 4
    ensures ToDay(Date(2026, 10, 10)) == 20736 && Weekday(20736) == 6
  {
    YearStart2026();
  }

  lemma YearStart2026()
    ensures YearStart(2026) == 20454
  {
    YearStart1998();
    assert YearStart(2006) == 13149;
    assert YearStart(2014) == 16071;
    assert YearStart(2022) == 18993;
  }

  lemma YearStart1998()
    ensures YearStart(1998) == 10227
  {
    assert YearStart(1974) == 1461;
    assert YearStart(1982) == 4383;
    assert YearStart(1990) == 7305;
  }
}
