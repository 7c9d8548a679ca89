/**
 * Timeslots in the scheduler's order: the slots of one day sorted by their
 * slot_index, the days in order of first appearance, and the windows of d
 * consecutive slots of one day that a course of duration d may occupy.
 */
module Slots {
  import opened Seqs
  import opened Dicts
  import opened Entities
  import Sorting

  /** `timeslots[id]['slot_index']`; 0 for an id that is not a timeslot. */
  function SlotIndexOf(ts: Dict<Timeslot>, id: string): nat
  {
    if id in ts.vals then ts.vals[id].slotIndex else 0
  }

  /** `timeslots[id]['day']`; "" for an id that is not a timeslot. */
  function DayOf(ts: Dict<Timeslot>, id: string): string
  {
    if id in ts.vals then ts.vals[id].day else ""
  }

  predicate OnDay(ts: Dict<Timeslot>, day: string, id: string)
  {
    id in ts.vals && ts.vals[id].day == day
  }

  /** The comparison behind `key=lambda x: timeslots[x]['slot_index']`. */
  function BySlotIndex(ts: Dict<Timeslot>): (le: (string, string) -> bool)
    ensures Sorting.TotalPreorder(le)
  {
    (a: string, b: string) => SlotIndexOf(ts, a) <= SlotIndexOf(ts, b)
  }

  /** The timeslot ids of one day, in timeslot order. */
  function OnDayIds(ts: Dict<Timeslot>, day: string): seq<string>
  {
    Filter(ts.keys, id => OnDay(ts, day, id))
  }

  /** The timeslots of one day sorted by slot_index, ties kept in timeslot order. */
  function DaySlots(ts: Dict<Timeslot>, day: string): seq<string>
  {
    Sorting.SortBy(OnDayIds(ts, day), BySlotIndex(ts))
  }

  /** A day's slot list holds each timeslot of that day once, in slot_index order. */
  lemma DaySlotsFacts(ts: Dict<Timeslot>, day: string)
    requires ts.Valid()
    ensures forall x :: x in DaySlots(ts, day) <==> x in ts.keys && OnDay(ts, day, x)
    ensures Distinct(DaySlots(ts, day))
    ensures Sorting.SortedBy(DaySlots(ts, day), BySlotIndex(ts))
    ensures |DaySlots(ts, day)| == |OnDayIds(ts, day)|
  {
    var on := OnDayIds(ts, day);
    forall x ensures x in DaySlots(ts, day) <==> x in ts.keys && OnDay(ts, day, x) {
      FilterMembers(ts.keys, id => OnDay(ts, day, id), x);
      assert x in DaySlots(ts, day) <==> x in multiset(on);
    }
    FilterOfDistinct(ts.keys, id => OnDay(ts, day, id));
    Sorting.SortByDistinct(on, BySlotIndex(ts));
    Sorting.SortByIsSorted(on, BySlotIndex(ts));
  }

  /** The days in order of first appearance among the timeslots (the keys of `day_to_slots`). */
  function DayOrder(ts: Dict<Timeslot>): (days: seq<string>)
    ensures Distinct(days)
  {
    Dedup(seq(|ts.keys|, i requires 0 <= i < |ts.keys| => DayOf(ts, ts.keys[i])))
  }

  /** Every day of a timeslot is listed. */
  lemma DayOrderMembers(ts: Dict<Timeslot>, id: string)
    requires id in ts.keys
    ensures DayOf(ts, id) in DayOrder(ts)
  {
    var all := seq(|ts.keys|, i requires 0 <= i < |ts.keys| => DayOf(ts, ts.keys[i]));
    var i :| 0 <= i < |ts.keys| && ts.keys[i] == id;
    assert all[i] == DayOf(ts, id);
  }

  /** The windows of d consecutive entries of a day's slots, by starting position. */
  function Windows(slots: seq<string>, d: int): seq<seq<string>>
    requires d >= 1
  {
    if |slots| < d then [] else seq(|slots| - d + 1, i requires 0 <= i < |slots| - d + 1 => slots[i..i + d])
  }

  /** The window enumeration for one day: `day_slots[i:i + d]` for each start that leaves room. */
  method DayWindows(daySlots: seq<string>, d: int) returns (ws: seq<seq<string>>)
    requires d >= 1
    ensures ws == Windows(daySlots, d)
  {
    ws := [];
    var i := 0;
    while i < |daySlots| - d + 1
      invariant 0 <= i <= if |daySlots| >= d then |daySlots| - d + 1 else 0
      invariant |ws| == i
      invariant forall k :: 0 <= k < i ==> ws[k] == daySlots[k..k + d]
    {
      var group := daySlots[i..i + d];
      if |group| == d {
        ws := ws + [group];
      }
      i := i + 1;
    }
  }

  /** w occupies the positions i .. i + |w| - 1 of slots. */
  predicate RunAt(slots: seq<string>, w: seq<string>, i: int)
  {
    0 <= i <= |slots| - |w| && slots[i..i + |w|] == w
  }

  /**
   * A day with n slots yields max(0, n - d + 1) windows; each is d slots of
   * that day, without repeats, consecutive in slot_index order.
   */
  lemma WindowsOfDay(ts: Dict<Timeslot>, day: string, d: int)
    requires ts.Valid() && d >= 1
    ensures |Windows(DaySlots(ts, day), d)| == if |OnDayIds(ts, day)| >= d then |OnDayIds(ts, day)| - d + 1 else 0
    ensures forall w :: w in Windows(DaySlots(ts, day), d) ==>
      && |w| == d
      && (exists i :: RunAt(DaySlots(ts, day), w, i))
      && (forall x :: x in w ==> x in ts.keys && OnDay(ts, day, x))
      && Distinct(w)
      && Sorting.SortedBy(w, BySlotIndex(ts))
  {
    var slots := DaySlots(ts, day);
    DaySlotsFacts(ts, day);
    forall w | w in Windows(slots, d)
      ensures |w| == d
      ensures exists i :: RunAt(slots, w, i)
      ensures forall x :: x in w ==> x in ts.keys && OnDay(ts, day, x)
      ensures Distinct(w)
      ensures Sorting.SortedBy(w, BySlotIndex(ts))
    {
      var i :| 0 <= i < |Windows(slots, d)| && Windows(slots, d)[i] == w;
      assert w == slots[i..i + d];
      assert RunAt(slots, w, i);
      SliceFacts(slots, i, d, BySlotIndex(ts));
    }
  }

  lemma SliceFacts(slots: seq<string>, i: nat, d: nat, le: (string, string) -> bool)
    requires i + d <= |slots|
    requires Distinct(slots) && Sorting.SortedBy(slots, le)
    ensures Distinct(slots[i..i + d]) && Sorting.SortedBy(slots[i..i + d], le)
    ensures forall x :: x in slots[i..i + d] ==> x in slots
  {
  }

  /** Every candidate window of duration d, day by day in `day_to_slots` order. */
  function AllWindows(ts: Dict<Timeslot>, d: int): seq<seq<string>>
    requires d >= 1
  {
    var days := DayOrder(ts);
    Concat(seq(|days|, j requires 0 <= j < |days| => Windows(DaySlots(ts, days[j]), d)))
  }

  /** A candidate window is exactly a window of the day of its first slot. */
  lemma AllWindowsMembers(ts: Dict<Timeslot>, d: int, w: seq<string>)
    requires ts.Valid() && d >= 1
    ensures w in AllWindows(ts, d) <==> w != [] && w in Windows(DaySlots(ts, DayOf(ts, w[0])), d)
  {
    var days := DayOrder(ts);
    var per := seq(|days|, j requires 0 <= j < |days| => Windows(DaySlots(ts, days[j]), d));
    ConcatMembers(per, w);
    if w in AllWindows(ts, d) {
      var j :| 0 <= j < |per| && w in per[j];
      WindowsOfDay(ts, days[j], d);
      assert w[0] in w;
      assert DayOf(ts, w[0]) == days[j];
    }
    if w != [] && w in Windows(DaySlots(ts, DayOf(ts, w[0])), d) {
      var day := DayOf(ts, w[0]);
      WindowsOfDay(ts, day, d);
      assert w[0] in w;
      DayOrderMembers(ts, w[0]);
      var j :| 0 <= j < |days| && days[j] == day;
      assert w in per[j];
    }
  }

  lemma WindowsDistinct(ts: Dict<Timeslot>, day: string, d: int)
    requires ts.Valid() && d >= 1
    ensures Distinct(Windows(DaySlots(ts, day), d))
  {
    var slots := DaySlots(ts, day);
    DaySlotsFacts(ts, day);
    var ws := Windows(slots, d);
    forall i, j | 0 <= i < j < |ws| ensures ws[i] != ws[j] {
      assert ws[i][0] == slots[i] && ws[j][0] == slots[j];
    }
  }

  /** No window is offered twice: windows of different days have first slots on different days. */
  lemma AllWindowsDistinct(ts: Dict<Timeslot>, d: int)
    requires ts.Valid() && d >= 1
    ensures Distinct(AllWindows(ts, d))
  {
    var days := DayOrder(ts);
    var per := seq(|days|, j requires 0 <= j < |days| => Windows(DaySlots(ts, days[j]), d));
    forall j | 0 <= j < |per| ensures Distinct(per[j]) {
      WindowsDistinct(ts, days[j], d);
    }
    forall i, j | 0 <= i < j < |per| ensures Disjoint(per[i], per[j]) {
      WindowsOfDay(ts, days[i], d);
      WindowsOfDay(ts, days[j], d);
      forall w | w in per[i] ensures w !in per[j] {
        assert w[0] in w;
      }
    }
    ConcatDistinct(per);
  }
}
