/** The insight selector of src/utils/insights.js.

    The per-habit streaks are summed; no habits gives a fixed message, a zero
    total picks from the missed-day set, a total below 7 from the short-streak
    set and anything else from the long-streak set, with the first
    `{streak}` of the picked template replaced by the total in decimal.
    `Math.random()` is an injected real `r` with `0 <= r < 1`. */
module Insights {

  import opened Calendar
  import opened Habits
  import opened Streaks
  import opened Text

  const Slot := "{streak}"

  const EmptyMessage := "Ready to build new habits? Start one today."

  /** The four template sets of the `INSIGHTS` table, each text written as a
      concatenation of short pieces. */
  const NewHabit: seq<string> := [
    "Great start! Consistency " + "compounds — small actions " + "today build big results " + "tomorrow.",
    "You're taking the first " + "step toward lasting change. " + "Keep showing up!"
  ]

  const ShortStreak: seq<string> := [
    ShortBefore + Slot + ShortAfter,
    "Every completed day makes" + " the next one easier."
  ]

  const LongStreak: seq<string> := [
    LongBefore + Slot + LongAfter,
    "This discipline will pay " + "off in ways you can't " + "yet imagine."
  ]

  const MissedDay: seq<string> := [
    "Everyone has off days. " + "Today is a fresh chance " + "to rebuild momentum.",
    "One slip doesn't erase " + "your progress — get back " + "on track now."
  ]

  /** The text around the slot of the two templates that have one. */
  const ShortBefore := "You're on a "
  const ShortAfter := "-day streak — momentum" + " is building!"
  const LongBefore := "Incredible "
  const LongAfter := "-day streak! You're " + "proving habits are built " + "one day at a time."

  /** `Math.floor(r * n)` for a draw `r` of `Math.random()`: always an index
      of a set of `n` templates. */
  function Pick(r: real, n: nat): (i: nat)
    requires 0.0 <= r < 1.0
    requires 0 < n
    ensures i < n
    ensures i as real <= r * n as real < (i + 1) as real
  {
    var x := n as real;
    assert r * x < x by {
      assert (1.0 - r) * x > 0.0;
    }
    (r * x).Floor
  }

  /** The `reduce` over the habits: the sum of their streaks. */
  function TotalStreak(habits: seq<Habit>, cm: CompletionMap, today: Day): (total: nat)
    ensures forall i | 0 <= i < |habits| :: HabitStreak(cm, habits[i], today) <= total
    ensures total == 0 <==> forall i | 0 <= i < |habits| :: HabitStreak(cm, habits[i], today) == 0
  {
    if |habits| == 0 then 0
    else HabitStreak(cm, habits[0], today) + TotalStreak(habits[1..], cm, today)
  }

  /** One more habit adds exactly its own streak: the step of the `reduce`. */
  lemma {:induction false} TotalStreakAppend(habits: seq<Habit>, h: Habit, cm: CompletionMap, today: Day)
    ensures TotalStreak(habits + [h], cm, today)
      == TotalStreak(habits, cm, today) + HabitStreak(cm, h, today)
  {
    if |habits| == 0 {
      assert habits + [h] == [h];
    } else {
      TotalStreakAppend(habits[1..], h, cm, today);
      assert (habits + [h])[1..] == habits[1..] + [h];
    }
  }

  /** A habit that has no entry in the map adds nothing to the total. */
  lemma MissingEntryAddsNothing(habits: seq<Habit>, h: Habit, cm: CompletionMap, today: Day)
    requires !HasKey(cm, h.id)
    ensures TotalStreak(habits + [h], cm, today) == TotalStreak(habits, cm, today)
  {
    TotalStreakAppend(habits, h, cm, today);
  }

  /** `template.replace("{streak}", total)`: the first slot, if any, becomes
      the decimal digits of `total`; a template without a slot is kept. */
  function Fill(template: string, total: nat): (r: string)
    ensures !Contains(template, Slot) ==> r == template
    ensures Contains(template, Slot) ==> exists i ::
      OccursAt(template, Slot, i) && (forall j | 0 <= j < i :: !OccursAt(template, Slot, j))
      && r == template[..i] + Decimal(total) + template[i + |Slot|..]
  {
    ReplaceFirst(template, Slot, Decimal(total))
  }

  /** Which template `generateInsight` settles on: the empty-state message,
      or a set of the `INSIGHTS` table with the drawn index. */
  datatype Choice = NoHabits | MissedDayAt(i: nat) | ShortStreakAt(i: nat) | LongStreakAt(i: nat) {
    predicate InRange() {
      match this
      case NoHabits => true
      case MissedDayAt(i) => i < |MissedDay|
      case ShortStreakAt(i) => i < |ShortStreak|
      case LongStreakAt(i) => i < |LongStreak|
    }
  }

  /** The branch structure of `generateInsight`: the bucket is fixed by the
      habit count and the total streak, the index by the random draw. */
  function Choose(habits: seq<Habit>, cm: CompletionMap, today: Day, r: real): (c: Choice)
    requires 0.0 <= r < 1.0
    ensures c.InRange()
    ensures c.NoHabits? <==> |habits| == 0
    ensures c.MissedDayAt? <==> |habits| > 0 && TotalStreak(habits, cm, today) == 0
    ensures c.ShortStreakAt? <==> 0 < TotalStreak(habits, cm, today) < 7
    ensures c.LongStreakAt? <==> 7 <= TotalStreak(habits, cm, today)
    ensures c.MissedDayAt? ==> c.i == Pick(r, |MissedDay|)
    ensures c.ShortStreakAt? ==> c.i == Pick(r, |ShortStreak|)
    ensures c.LongStreakAt? ==> c.i == Pick(r, |LongStreak|)
  {
    var total := TotalStreak(habits, cm, today);
    if |habits| == 0 then NoHabits
    else if total == 0 then MissedDayAt(Pick(r, |MissedDay|))
    else if total < 7 then ShortStreakAt(Pick(r, |ShortStreak|))
    else LongStreakAt(Pick(r, |LongStreak|))
  }

  /** The text of a choice, with the slot filled by `total`. */
  function Render(c: Choice, total: nat): (r: string)
    requires c.InRange()
    ensures c.NoHabits? ==> r == EmptyMessage
    ensures c.MissedDayAt? ==> r == MissedDay[c.i] && r in MissedDay
    ensures c.ShortStreakAt? ==> r == Fill(ShortStreak[c.i], total)
    ensures c.LongStreakAt? ==> r == Fill(LongStreak[c.i], total)
    ensures c.ShortStreakAt? ==> exists i | 0 <= i < |ShortStreak| :: r == Fill(ShortStreak[i], total)
    ensures c.LongStreakAt? ==> exists i | 0 <= i < |LongStreak| :: r == Fill(LongStreak[i], total)
  {
    match c
    case NoHabits => EmptyMessage
    case MissedDayAt(i) => MissedDay[i]
    case ShortStreakAt(i) => Fill(ShortStreak[i], total)
    case LongStreakAt(i) => Fill(LongStreak[i], total)
  }

  /** `generateInsight(habits, completionMap)`. */
  function GenerateInsight(habits: seq<Habit>, cm: CompletionMap, today: Day, r: real): (msg: string)
    requires 0.0 <= r < 1.0
    ensures |habits| == 0 ==> msg == EmptyMessage
    ensures |habits| > 0 && TotalStreak(habits, cm, today) == 0 ==> msg in MissedDay
    ensures var t := TotalStreak(habits, cm, today);
      0 < t < 7 ==> exists i | 0 <= i < |ShortStreak| :: msg == Fill(ShortStreak[i], t)
    ensures var t := TotalStreak(habits, cm, today);
      7 <= t ==> exists i | 0 <= i < |LongStreak| :: msg == Fill(LongStreak[i], t)
  {
    Render(Choose(habits, cm, today, r), TotalStreak(habits, cm, today))
  }

  /** What filling each template produces: the slot, where there is one, is
      replaced by the decimal total and the rest of the text is kept; a
      template without a slot comes back unchanged. This is where the
      first-occurrence semantics of `replace` is pinned down. */
  lemma FillTemplates(n: nat)
    ensures Fill(ShortStreak[0], n) == ShortBefore + Decimal(n) + ShortAfter
    ensures Fill(ShortStreak[1], n) == ShortStreak[1]
    ensures Fill(LongStreak[0], n) == LongBefore + Decimal(n) + LongAfter
    ensures Fill(LongStreak[1], n) == LongStreak[1]
  {
    SlotContextHasNoBrace();
    ReplaceAfterPlainPrefix(ShortBefore, Slot, ShortAfter, Decimal(n));
    ReplaceAfterPlainPrefix(LongBefore, Slot, LongAfter, Decimal(n));
    PlainTemplatesHaveNoBrace();
    MissingCharExcludes(ShortStreak[1], Slot, 0);
    MissingCharExcludes(LongStreak[1], Slot, 0);
  }

  /** No `{` occurs in the text around the slots ... */
  lemma SlotContextHasNoBrace()
    ensures '{' !in ShortBefore && '{' !in ShortAfter
    ensures '{' !in LongBefore && '{' !in LongAfter
  {
    assert '{' !in "-day streak — momentum";
    assert '{' !in "-day streak! You're ";
    assert '{' !in "proving habits are built ";
  }

  /** ... nor in the templates without a slot ... */
  lemma PlainTemplatesHaveNoBrace()
    ensures '{' !in ShortStreak[1] && '{' !in LongStreak[1]
  {
    assert '{' !in "Every completed day makes";
    assert '{' !in "This discipline will pay ";
  }

  /** ... nor in the fixed messages. */
  lemma FixedMessagesHaveNoBrace()
    ensures '{' !in MissedDay[0] && '{' !in MissedDay[1] && '{' !in EmptyMessage
  {
    FirstMissedDayHasNoBrace();
    SecondMissedDayHasNoBrace();
    assert '{' !in "Ready to build new habits";
    assert '{' !in "? Start one today.";
    assert EmptyMessage == "Ready to build new habits" + "? Start one today.";
  }

  lemma FirstMissedDayHasNoBrace()
    ensures '{' !in MissedDay[0]
  {
    assert '{' !in "Everyone has off days. ";
    assert '{' !in "Today is a fresh chance ";
  }

  lemma SecondMissedDayHasNoBrace()
    ensures '{' !in MissedDay[1]
  {
    assert '{' !in "One slip doesn't erase ";
    assert '{' !in "your progress — get back ";
  }

  lemma DecimalHasNoBrace(n: nat)
    ensures '{' !in Decimal(n)
  {
    assert AllDigits(Decimal(n));
  }

  lemma NoBraceConcat(a: string, b: string, c: string)
    requires '{' !in a && '{' !in b && '{' !in c
    ensures '{' !in a + b + c
  {
  }

  /** Every filled template is free of `{`: the slot is gone and decimal
      digits bring none. */
  lemma FilledTemplatesHaveNoBrace(n: nat)
    ensures '{' !in Fill(ShortStreak[0], n) && '{' !in Fill(ShortStreak[1], n)
    ensures '{' !in Fill(LongStreak[0], n) && '{' !in Fill(LongStreak[1], n)
  {
    SlotContextHasNoBrace();
    PlainTemplatesHaveNoBrace();
    FillTemplates(n);
    DecimalHasNoBrace(n);
    NoBraceConcat(ShortBefore, Decimal(n), ShortAfter);
    NoBraceConcat(LongBefore, Decimal(n), LongAfter);
  }

  /** No rendered choice contains a `{`. */
  lemma RenderHasNoBrace(c: Choice, n: nat)
    requires c.InRange()
    ensures '{' !in Render(c, n)
  {
    TableSizes();
    match c
    case NoHabits => FixedMessagesHaveNoBrace();
    case MissedDayAt(i) => FixedMessagesHaveNoBrace();
    case ShortStreakAt(i) =>
      FilledTemplatesHaveNoBrace(n);
      assert i == 0 || i == 1;
    case LongStreakAt(i) =>
      FilledTemplatesHaveNoBrace(n);
      assert i == 0 || i == 1;
  }

  lemma TableSizes()
    ensures |MissedDay| == 2 && |ShortStreak| == 2 && |LongStreak| == 2
  {
  }

  /** No insight ever contains a literal `{streak}`: the slot of every
      template that has one is always filled. */
  lemma InsightHasNoSlot(habits: seq<Habit>, cm: CompletionMap, today: Day, r: real)
    requires 0.0 <= r < 1.0
    ensures !Contains(GenerateInsight(habits, cm, today, r), Slot)
  {
    var c := Choose(habits, cm, today, r);
    RenderHasNoBrace(c, TotalStreak(habits, cm, today));
    MissingCharExcludes(GenerateInsight(habits, cm, today, r), Slot, 0);
  }

  /** The fixed texts differ in length from both new-habit templates. */
  lemma FixedTextsAreNotNewHabit()
    ensures |NewHabit| == 2 && |NewHabit[0]| == 84 && |NewHabit[1]| == 68
    ensures |EmptyMessage| == 43
    ensures |MissedDay| == 2 && |MissedDay[0]| == 67 && |MissedDay[1]| == 61
    ensures |ShortStreak[1]| == 46 && |LongStreak[1]| == 59
  {
  }

  /** A filled slot template starts unlike either new-habit template. */
  lemma FilledTextsAreNotNewHabit(n: nat)
    ensures Fill(ShortStreak[0], n) !in NewHabit
    ensures Fill(LongStreak[0], n) !in NewHabit
  {
    FillTemplates(n);
    NewHabitOpenings();
    FilledOpenings(n);
  }

  lemma FilledOpenings(n: nat)
    ensures |ShortBefore + Decimal(n) + ShortAfter| > 7
    ensures (ShortBefore + Decimal(n) + ShortAfter)[7] == 'o'
    ensures |LongBefore + Decimal(n) + LongAfter| > 0
    ensures (LongBefore + Decimal(n) + LongAfter)[0] == 'I'
  {
    assert ShortBefore[7] == 'o';
    assert LongBefore[0] == 'I';
  }

  lemma NewHabitOpenings()
    ensures |NewHabit| == 2
    ensures |NewHabit[0]| > 7 && NewHabit[0][0] == 'G' && NewHabit[0][7] == 't'
    ensures |NewHabit[1]| > 7 && NewHabit[1][0] == 'Y' && NewHabit[1][7] == 't'
  {
  }

  /** No rendered choice is a new-habit template. */
  lemma RenderNeverNewHabit(c: Choice, n: nat)
    requires c.InRange()
    ensures Render(c, n) !in NewHabit
  {
    FixedTextsAreNotNewHabit();
    match c
    case NoHabits =>
    case MissedDayAt(i) =>
    case ShortStreakAt(i) =>
      FillTemplates(n);
      if i == 0 { FilledTextsAreNotNewHabit(n); }
    case LongStreakAt(i) =>
      FillTemplates(n);
      if i == 0 { FilledTextsAreNotNewHabit(n); }
  }

  /** A new-habit template is never returned. */
  lemma InsightNeverNewHabit(habits: seq<Habit>, cm: CompletionMap, today: Day, r: real)
    requires 0.0 <= r < 1.0
    ensures GenerateInsight(habits, cm, today, r) !in NewHabit
  {
    RenderNeverNewHabit(Choose(habits, cm, today, r), TotalStreak(habits, cm, today));
  }
}
