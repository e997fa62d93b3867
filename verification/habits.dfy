/** The data the analytics read: habits and the per-habit completion map.

    The application keeps the completion map in a JavaScript object keyed by
    habit id, whose values are lists of completion days. An object's string
    keys enumerate in insertion order and `{ ...prev, [k]: v }` keeps an
    existing key in place or appends a new one, so the map is modelled as an
    association list. Completion days are `Calendar.Day` ordinals; the
    `YYYY-MM-DD` strings the application stores are one-to-one with them for
    the years 0000 to 9999. */
module Habits {

  import opened Calendar

  /** A habit as the analytics see it: its `id` is the only field any of the
      modelled computations reads. */
  datatype Habit = Habit(id: string)

  datatype Entry = Entry(habitId: string, dates: seq<Day>)

  type CompletionMap = seq<Entry>

  predicate HasKey(cm: CompletionMap, id: string) {
    exists i | 0 <= i < |cm| :: cm[i].habitId == id
  }

  /** A JavaScript object never holds the same key twice. */
  predicate KeysUnique(cm: CompletionMap) {
    forall i, j | 0 <= i < j < |cm| :: cm[i].habitId != cm[j].habitId
  }

  /** `completionMap[id] || []`: the dates stored under `id`, or the empty
      list when the key is missing. */
  function DatesOf(cm: CompletionMap, id: string): (ds: seq<Day>)
    ensures !HasKey(cm, id) ==> ds == []
    ensures HasKey(cm, id) ==>
      exists i | 0 <= i < |cm| :: cm[i].habitId == id && ds == cm[i].dates
  {
    if |cm| == 0 then []
    else if cm[0].habitId == id then cm[0].dates
    else DatesOf(cm[1..], id)
  }

  /** `{ ...cm, [id]: ds }`: the entry for `id` is replaced in place, or a new
      entry is appended when `id` is not yet a key. */
  function Put(cm: CompletionMap, id: string, ds: seq<Day>): (r: CompletionMap)
    ensures DatesOf(r, id) == ds
    ensures forall k :: k != id ==> DatesOf(r, k) == DatesOf(cm, k)
  {
    if |cm| == 0 then [Entry(id, ds)]
    else if cm[0].habitId == id then [Entry(id, ds)] + cm[1..]
    else [cm[0]] + Put(cm[1..], id, ds)
  }

  /** Where the new value lands: a new key goes at the end, an existing key
      keeps its position and every key keeps its place in the order. */
  lemma {:induction false} PutShape(cm: CompletionMap, id: string, ds: seq<Day>)
    ensures !HasKey(cm, id) ==> Put(cm, id, ds) == cm + [Entry(id, ds)]
    ensures HasKey(cm, id) ==> |Put(cm, id, ds)| == |cm|
    ensures HasKey(cm, id) ==>
      forall i | 0 <= i < |cm| :: Put(cm, id, ds)[i].habitId == cm[i].habitId
  {
    if |cm| > 0 && cm[0].habitId != id {
      PutShape(cm[1..], id, ds);
      if HasKey(cm[1..], id) {
        var i :| 0 <= i < |cm[1..]| && cm[1..][i].habitId == id;
        assert cm[i + 1].habitId == id;
      }
      if HasKey(cm, id) {
        var i :| 0 <= i < |cm| && cm[i].habitId == id;
        assert cm[1..][i - 1].habitId == id;
      }
    }
  }

  /** Putting under a key never makes two entries share a key. */
  lemma PutKeepsKeysUnique(cm: CompletionMap, id: string, ds: seq<Day>)
    requires KeysUnique(cm)
    ensures KeysUnique(Put(cm, id, ds))
  {
    PutShape(cm, id, ds);
    var r := Put(cm, id, ds);
    if !HasKey(cm, id) {
      forall i, j | 0 <= i < j < |r| ensures r[i].habitId != r[j].habitId {
        if j == |cm| {
          assert cm[i].habitId != id;
        }
      }
    }
  }

  /** A second put under the same key overwrites the first. */
  lemma {:induction false} PutPut(cm: CompletionMap, id: string, a: seq<Day>, b: seq<Day>)
    ensures Put(Put(cm, id, a), id, b) == Put(cm, id, b)
  {
    if |cm| > 0 && cm[0].habitId != id {
      PutPut(cm[1..], id, a, b);
      assert Put(cm, id, a)[1..] == Put(cm[1..], id, a);
    }
  }

  /** Putting back the value a key already holds leaves the map unchanged. */
  lemma {:induction false} PutSame(cm: CompletionMap, id: string)
    requires HasKey(cm, id)
    ensures Put(cm, id, DatesOf(cm, id)) == cm
  {
    if cm[0].habitId != id {
      var i :| 0 <= i < |cm| && cm[i].habitId == id;
      assert cm[1..][i - 1].habitId == id;
      PutSame(cm[1..], id);
      assert cm == [cm[0]] + cm[1..];
    } else {
      assert cm == [cm[0]] + cm[1..];
    }
  }

  /** `Object.values(cm).flat()`: every stored date of every key, keys in
      order, duplicates kept. */
  function AllDates(cm: CompletionMap): (ds: seq<Day>)
    ensures forall i | 0 <= i < |cm| :: multiset(cm[i].dates) <= multiset(ds)
    ensures forall x :: x in ds ==> exists i | 0 <= i < |cm| :: x in cm[i].dates
  {
    if |cm| == 0 then [] else cm[0].dates + AllDates(cm[1..])
  }

  /** A key added at the end contributes its dates after all the others. */
  lemma {:induction false} AllDatesAppend(cm: CompletionMap, e: Entry)
    ensures AllDates(cm + [e]) == AllDates(cm) + e.dates
  {
    if |cm| > 0 {
      assert (cm + [e])[1..] == cm[1..] + [e];
      AllDatesAppend(cm[1..], e);
    }
  }
}
