/** The optimistic update of `toggleHabitCompletion` in
    src/context/HabitsContext.js: with a signed-in user, today's date is
    removed from the habit's list when present (every occurrence, the other
    dates keeping their order) and otherwise appended and the list sorted.
    Only the toggled habit's key changes.

    JavaScript's default `sort` compares the `YYYY-MM-DD` strings as text;
    for zero-padded four-digit years that order is the chronological order,
    which is the order of the day ordinals used here. */
module HabitsContext {

  import opened Calendar
  import opened Habits

  predicate Sorted(s: seq<Day>) {
    forall i, j | 0 <= i < j < |s| :: s[i] <= s[j]
  }

  /** Sorted without repeats, as a list built only by this toggle is. */
  predicate StrictlySorted(s: seq<Day>) {
    forall i, j | 0 <= i < j < |s| :: s[i] < s[j]
  }

  /** Inserts `x` into a sorted list before the first element not below it. */
  function InsertSorted(s: seq<Day>, x: Day): (r: seq<Day>)
    requires Sorted(s)
    ensures Sorted(r)
    ensures multiset(r) == multiset(s) + multiset{x}
  {
    if |s| == 0 then [x]
    else if x <= s[0] then [x] + s
    else
      var rest := InsertSorted(s[1..], x);
      assert s == [s[0]] + s[1..];
      InsertedBounded(s[1..], x, rest, s[0]);
      ConsSorted(s[0], rest);
      [s[0]] + rest
  }

  /** A sorted list headed by a lower bound of its tail is sorted. */
  lemma ConsSorted(h: Day, t: seq<Day>)
    requires Sorted(t)
    requires forall i | 0 <= i < |t| :: h <= t[i]
    ensures Sorted([h] + t)
  {
  }

  /** A bound below every old element and the new one bounds the result. */
  lemma InsertedBounded(s: seq<Day>, x: Day, r: seq<Day>, h: Day)
    requires multiset(r) == multiset(s) + multiset{x}
    requires h <= x && forall i | 0 <= i < |s| :: h <= s[i]
    ensures forall i | 0 <= i < |r| :: h <= r[i]
  {
    forall i | 0 <= i < |r| ensures h <= r[i] {
      assert r[i] in multiset(r);
    }
  }

  /** `Array.prototype.sort` on the list: a sorted permutation of it. */
  function Sort(s: seq<Day>): (r: seq<Day>)
    ensures Sorted(r)
    ensures multiset(r) == multiset(s)
  {
    if |s| == 0 then []
    else
      assert s == s[..|s| - 1] + [s[|s| - 1]];
      InsertSorted(Sort(s[..|s| - 1]), s[|s| - 1])
  }

  /** Two sorted lists with the same elements, counted with multiplicity,
      are the same list. */
  lemma {:induction false} SortedUnique(a: seq<Day>, b: seq<Day>)
    requires Sorted(a) && Sorted(b)
    requires multiset(a) == multiset(b)
    ensures a == b
  {
    if |a| == 0 {
      assert |multiset(b)| == 0;
    } else {
      assert a[0] in multiset(b);
      assert b[0] in multiset(a);
      assert a[0] == b[0];
      assert a == [a[0]] + a[1..];
      assert b == [b[0]] + b[1..];
      assert multiset(a[1..]) == multiset(b[1..]) by {
        assert multiset(a) == multiset{a[0]} + multiset(a[1..]);
        assert multiset(b) == multiset{b[0]} + multiset(b[1..]);
        assert multiset(a[1..]) == multiset(a) - multiset{a[0]};
        assert multiset(b[1..]) == multiset(b) - multiset{b[0]};
      }
      SortedUnique(a[1..], b[1..]);
    }
  }

  /** Sorting an already sorted list leaves it as it is. */
  lemma SortOfSorted(s: seq<Day>)
    requires Sorted(s)
    ensures Sort(s) == s
  {
    SortedUnique(Sort(s), s);
  }

  /** `dates.filter(d => d !== x)`. */
  function Without(s: seq<Day>, x: Day): (r: seq<Day>)
    ensures x !in r
    ensures forall y | y != x :: multiset(r)[y] == multiset(s)[y]
    ensures |r| <= |s|
  {
    if |s| == 0 then []
    else
      assert s == [s[0]] + s[1..];
      (if s[0] == x then [] else [s[0]]) + Without(s[1..], x)
  }

  /** The filter works piecewise, so the kept dates stay in their order. */
  lemma {:induction false} WithoutConcat(a: seq<Day>, b: seq<Day>, x: Day)
    ensures Without(a + b, x) == Without(a, x) + Without(b, x)
  {
    if |a| > 0 {
      assert (a + b)[1..] == a[1..] + b;
      WithoutConcat(a[1..], b, x);
    } else {
      assert a + b == b;
    }
  }

  /** A list without `x` passes the filter unchanged. */
  lemma {:induction false} WithoutAbsent(s: seq<Day>, x: Day)
    requires x !in s
    ensures Without(s, x) == s
  {
    if |s| > 0 {
      WithoutAbsent(s[1..], x);
    }
  }

  /** Filtering a sorted list keeps it sorted. */
  lemma {:induction false} WithoutSorted(s: seq<Day>, x: Day)
    requires Sorted(s)
    ensures Sorted(Without(s, x))
  {
    if |s| > 0 {
      WithoutSorted(s[1..], x);
      var rest := Without(s[1..], x);
      var r := Without(s, x);
      if s[0] != x {
        assert r == [s[0]] + rest;
        forall i, j | 0 <= i < j < |r| ensures r[i] <= r[j] {
          if i == 0 {
            var y := rest[j - 1];
            assert y in multiset(rest);
            assert y in multiset(s[1..]);
          }
        }
      }
    }
  }

  /** The state updater for one habit's list. */
  function ToggleDates(dates: seq<Day>, today: Day): (r: seq<Day>)
    ensures today in r <==> today !in dates
    ensures today in dates ==>
      forall y | y != today :: multiset(r)[y] == multiset(dates)[y]
    ensures today in dates ==> r == Without(dates, today)
    ensures today in dates ==> multiset(r) == multiset(dates)[today := 0]
    ensures today in dates && Sorted(dates) ==> Sorted(r)
    ensures today !in dates ==>
      Sorted(r) && multiset(r) == multiset(dates) + multiset{today}
  {
    if today in dates then
      var r := Without(dates, today);
      assert multiset(r) == multiset(dates)[today := 0] by {
        forall y ensures multiset(r)[y] == multiset(dates)[today := 0][y] {
          if y == today {
            assert today !in multiset(r);
          }
        }
      }
      if Sorted(dates) then
        WithoutSorted(dates, today);
        r
      else r
    else
      var r := Sort(dates + [today]);
      assert today in multiset(r);
      r
  }

  /** The first toggle of a habit with no dates gives `[today]`. */
  lemma ToggleEmpty(today: Day)
    ensures ToggleDates([], today) == [today]
  {
    SortOfSorted([today]);
  }

  /** A date of a list without repeats occurs in it once. */
  lemma {:induction false} OccursOnce(s: seq<Day>, x: Day)
    requires StrictlySorted(s) && x in s
    ensures multiset(s)[x] == 1
  {
    assert s == [s[0]] + s[1..];
    if s[0] == x {
      assert x !in s[1..];
    } else {
      OccursOnce(s[1..], x);
    }
  }

  /** Removing today and adding it back restores a list without repeats. */
  lemma ToggleTwicePresent(dates: seq<Day>, today: Day)
    requires StrictlySorted(dates) && today in dates
    ensures ToggleDates(ToggleDates(dates, today), today) == dates
  {
    var once := ToggleDates(dates, today);
    var twice := ToggleDates(once, today);
    OccursOnce(dates, today);
    assert multiset(twice) == multiset(dates) by {
      forall y ensures multiset(twice)[y] == multiset(dates)[y] {
        if y == today {
          assert today !in multiset(once);
        }
      }
    }
    SortedUnique(twice, dates);
  }

  /** Adding today and removing it again restores a sorted list. */
  lemma ToggleTwiceAbsent(dates: seq<Day>, today: Day)
    requires Sorted(dates) && today !in dates
    ensures ToggleDates(ToggleDates(dates, today), today) == dates
  {
    var once := ToggleDates(dates, today);
    var twice := ToggleDates(once, today);
    WithoutSorted(once, today);
    assert multiset(twice) == multiset(dates) by {
      forall y ensures multiset(twice)[y] == multiset(dates)[y] {
        if y == today {
          assert today !in multiset(twice);
          assert today !in multiset(dates);
        }
      }
    }
    SortedUnique(twice, dates);
  }

  /** Toggling twice on a sorted list without repeats gives the list back. */
  lemma ToggleTwice(dates: seq<Day>, today: Day)
    requires StrictlySorted(dates)
    ensures ToggleDates(ToggleDates(dates, today), today) == dates
  {
    if today in dates {
      ToggleTwicePresent(dates, today);
    } else {
      ToggleTwiceAbsent(dates, today);
    }
  }

  /** `toggleHabitCompletion`: nothing happens without a signed-in user;
      otherwise the habit's list, empty when the key is missing, is toggled
      and stored back under the same key. */
  function ToggleHabitCompletion(signedIn: bool, cm: CompletionMap, habitId: string, today: Day): (r: CompletionMap)
    ensures !signedIn ==> r == cm
    ensures signedIn ==> (today in DatesOf(r, habitId) <==> today !in DatesOf(cm, habitId))
    ensures signedIn && !HasKey(cm, habitId) ==> DatesOf(r, habitId) == [today]
    ensures signedIn ==> DatesOf(r, habitId) == ToggleDates(DatesOf(cm, habitId), today)
    ensures signedIn && Sorted(DatesOf(cm, habitId)) ==> Sorted(DatesOf(r, habitId))
    ensures forall k | k != habitId :: DatesOf(r, k) == DatesOf(cm, k)
  {
    if !signedIn then cm
    else
      ToggleEmpty(today);
      Put(cm, habitId, ToggleDates(DatesOf(cm, habitId), today))
  }

  /** A second toggle of the same habit on the same day restores every
      list; when the key already existed it restores the map itself, and a
      new key is left behind holding an empty list. */
  lemma ToggleHabitTwice(cm: CompletionMap, habitId: string, today: Day)
    requires StrictlySorted(DatesOf(cm, habitId))
    ensures var r := ToggleHabitCompletion(true, ToggleHabitCompletion(true, cm, habitId, today), habitId, today);
      (forall k :: DatesOf(r, k) == DatesOf(cm, k))
      && (HasKey(cm, habitId) ==> r == cm)
      && (!HasKey(cm, habitId) ==> r == cm + [Entry(habitId, [])])
  {
    var ds := DatesOf(cm, habitId);
    var once := ToggleDates(ds, today);
    ToggleTwice(ds, today);
    PutPut(cm, habitId, once, ds);
    if HasKey(cm, habitId) {
      PutSame(cm, habitId);
    } else {
      PutShape(cm, habitId, ds);
    }
  }
}
