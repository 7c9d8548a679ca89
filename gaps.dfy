/**
 * The gap score of a schedule.  For every group, the global slot indices of
 * its entries are sorted and each step from one index to the next that
 * skips slots adds the number of skipped slots.  The score falls by 5 per
 * skipped slot from 100 and stops at 0.  Slot indices number the timeslots
 * across the whole week, so a step from one day to the next counts too.
 */
module Gaps {
  import opened Wrappers
  import opened Dicts
  import opened Entities
  import opened Sorting

  // ------------------------------------------------------------ specification

  /** The slot indices of the entries under `keys`, in order; KeyError at the first unknown timeslot. */
  function SlotIndices(ts: Dict<Timeslot>, d: Dict<Assignment>, keys: seq<string>): (r: Result<seq<nat>, string>)
    requires forall k :: k in keys ==> k in d.vals
    ensures r.Err? <==> exists k :: k in keys && d.vals[k].timeslot !in ts.vals
    ensures r.Ok? ==> |r.value| == |keys|
    ensures r.Ok? ==> forall i :: 0 <= i < |keys| ==> r.value[i] == ts.vals[d.vals[keys[i]].timeslot].slotIndex
  {
    if keys == [] then Ok([])
    else
      var front := SlotIndices(ts, d, keys[..|keys| - 1]);
      var tid := d.vals[keys[|keys| - 1]].timeslot;
      if front.Err? then front
      else if tid !in ts.vals then Err("KeyError")
      else Ok(front.value + [ts.vals[tid].slotIndex])
  }

  /** The skipped slots between neighbours: the sum of max(0, s[i] - s[i-1] - 1) over i >= 1. */
  function Gaps(s: seq<int>): nat
  {
    if |s| <= 1 then 0
    else Gaps(s[..|s| - 1]) + Step(s[|s| - 2], s[|s| - 1])
  }

  /** The slots skipped going from index a to index b. */
  function Step(a: int, b: int): (n: nat)
    ensures n == 0 <==> b <= a + 1
  {
    if b - a - 1 > 0 then b - a - 1 else 0
  }

  /** Python's `<=` on slot indices. */
  function NatLe(): (le: (nat, nat) -> bool)
    ensures forall a, b :: le(a, b) == (a <= b)
  {
    (a: nat, b: nat) => a <= b
  }

  /** Python's `list.sort()` on slot indices. */
  function SortIndices(s: seq<nat>): (r: seq<nat>)
    ensures multiset(r) == multiset(s)
    ensures forall i, j :: 0 <= i < j < |r| ==> r[i] <= r[j]
  {
    assert TotalPreorder(NatLe()) && Antisymmetric(NatLe());
    SortByIsSorted(s, NatLe());
    SortBy(s, NatLe())
  }

  /** One group's gap count: 0 with at most one entry, else the gaps of the sorted indices. */
  function GroupGaps(xs: seq<nat>): nat
  {
    if |xs| > 1 then Gaps(SortIndices(xs)) else 0
  }

  /** The gap counts of the groups `gs`, skipping groups the schedule does not have. */
  function GapTotal(ts: Dict<Timeslot>, s: Schedule, gs: seq<string>): Result<nat, string>
    requires ScheduleValid(s)
  {
    if gs == [] then Ok(0)
    else
      var front := GapTotal(ts, s, gs[..|gs| - 1]);
      var g := gs[|gs| - 1];
      if front.Err? then front
      else if g !in s.vals then front
      else
        var xs := SlotIndices(ts, s.vals[g], s.vals[g].keys);
        if xs.Err? then Err(xs.error) else Ok(front.value + GroupGaps(xs.value))
  }

  /** max(0, 100 - 5 * total). */
  function Score(total: nat): (r: nat)
    ensures r <= 100
    ensures r == 100 <==> total == 0
    ensures r == 0 <==> total >= 20
  {
    if 100 - total * 5 > 0 then 100 - total * 5 else 0
  }

  /** The gap score over the input's groups, in the input's order. */
  function GapScore(ctx: Inputs, s: Schedule): (r: Result<nat, string>)
    requires ScheduleValid(s)
    ensures r.Ok? ==> r.value <= 100
  {
    var t := GapTotal(ctx.timeslots, s, ctx.groups.keys);
    if t.Err? then Err(t.error) else Ok(Score(t.value))
  }

  // ------------------------------------------------------------ properties

  /** No slot is skipped exactly when every index is at most one past the one before. */
  lemma {:induction false} GapsZero(s: seq<int>)
    ensures Gaps(s) == 0 <==> forall i :: 1 <= i < |s| ==> s[i] <= s[i - 1] + 1
  {
    if |s| > 1 {
      var f := s[..|s| - 1];
      GapsZero(f);
    }
  }

  /**
   * For strictly increasing indices, the gaps are the free slots between the
   * first and the last: the span minus the slots in use.
   */
  lemma {:induction false} GapsOfIncreasing(s: seq<int>)
    requires |s| >= 1
    requires forall i :: 1 <= i < |s| ==> s[i - 1] < s[i]
    ensures Gaps(s) == s[|s| - 1] - s[0] - (|s| - 1)
  {
    if |s| > 1 {
      var f := s[..|s| - 1];
      assert forall i :: 1 <= i < |f| ==> f[i - 1] < f[i];
      GapsOfIncreasing(f);
    }
  }

  /** The gap count of a group does not depend on the order of its entries. */
  lemma GroupGapsOrderFree(xs: seq<nat>, ys: seq<nat>)
    requires multiset(xs) == multiset(ys)
    ensures GroupGaps(xs) == GroupGaps(ys)
  {
    assert |xs| == |multiset(xs)| == |multiset(ys)| == |ys|;
    assert TotalPreorder(NatLe()) && Antisymmetric(NatLe());
    SortedUnique(SortIndices(xs), SortIndices(ys), NatLe());
  }

  /** The score is 100 exactly when no listed group skips a slot. */
  lemma {:induction false} GapTotalZero(ts: Dict<Timeslot>, s: Schedule, gs: seq<string>)
    requires ScheduleValid(s) && GapTotal(ts, s, gs).Ok?
    ensures GapTotal(ts, s, gs).value == 0 <==>
      forall g :: g in gs && g in s.vals && SlotIndices(ts, s.vals[g], s.vals[g].keys).Ok? ==> GroupGaps(SlotIndices(ts, s.vals[g], s.vals[g].keys).value) == 0
  {
    if gs != [] {
      var f := gs[..|gs| - 1];
      GapTotalZero(ts, s, f);
      assert forall g :: g in gs <==> g in f || g == gs[|gs| - 1];
    }
  }

  /** The total raises KeyError exactly when a listed group holds an entry at an unknown timeslot. */
  lemma {:induction false} GapTotalFails(ts: Dict<Timeslot>, s: Schedule, gs: seq<string>)
    requires ScheduleValid(s)
    ensures GapTotal(ts, s, gs).Err? <==>
      exists g, k :: g in gs && g in s.vals && k in s.vals[g].vals && s.vals[g].vals[k].timeslot !in ts.vals
  {
    if gs != [] {
      var f := gs[..|gs| - 1];
      GapTotalFails(ts, s, f);
      assert forall g :: g in gs <==> g in f || g == gs[|gs| - 1];
    }
  }

  // ------------------------------------------------------------ the scorer

  /** The indices of one group's entries, appended in the dict's order. */
  method CollectIndices(ts: Dict<Timeslot>, d: Dict<Assignment>) returns (r: Result<seq<nat>, string>)
    requires d.Valid()
    ensures r == SlotIndices(ts, d, d.keys)
  {
    var xs: seq<nat> := [];
    var i := 0;
    while i < |d.keys|
      invariant 0 <= i <= |d.keys|
      invariant SlotIndices(ts, d, d.keys[..i]) == Ok(xs)
    {
      var tid := d.vals[d.keys[i]].timeslot;
      SlotIndicesSnoc(ts, d, d.keys, i);
      if tid !in ts.vals {
        SlotIndicesErr(ts, d, d.keys, i + 1);
        return Err("KeyError");
      }
      xs := xs + [ts.vals[tid].slotIndex];
      i := i + 1;
    }
    assert d.keys[..i] == d.keys;
    r := Ok(xs);
  }

  /** One more key: the indices so far, then the new entry's index or its KeyError. */
  lemma SlotIndicesSnoc(ts: Dict<Timeslot>, d: Dict<Assignment>, keys: seq<string>, i: nat)
    requires forall k :: k in keys ==> k in d.vals
    requires i < |keys|
    ensures SlotIndices(ts, d, keys[..i + 1]) ==
      if SlotIndices(ts, d, keys[..i]).Err? then SlotIndices(ts, d, keys[..i])
      else if d.vals[keys[i]].timeslot !in ts.vals then Err("KeyError")
      else Ok(SlotIndices(ts, d, keys[..i]).value + [ts.vals[d.vals[keys[i]].timeslot].slotIndex])
  {
    assert keys[..i + 1][..i] == keys[..i];
  }

  /** A KeyError in a prefix of the keys is a KeyError for all of them. */
  lemma {:induction false} SlotIndicesErr(ts: Dict<Timeslot>, d: Dict<Assignment>, keys: seq<string>, n: nat)
    requires forall k :: k in keys ==> k in d.vals
    requires n <= |keys| && SlotIndices(ts, d, keys[..n]).Err?
    ensures SlotIndices(ts, d, keys) == SlotIndices(ts, d, keys[..n])
  {
    if n < |keys| {
      assert keys[..|keys| - 1][..n] == keys[..n];
      SlotIndicesErr(ts, d, keys[..|keys| - 1], n);
    } else {
      assert keys[..n] == keys;
    }
  }

  /** The gaps of sorted indices, summed step by step as the source's loop does. */
  method SumGaps(s: seq<nat>) returns (gaps: nat)
    ensures gaps == Gaps(s)
  {
    gaps := 0;
    if |s| <= 1 {
      return;
    }
    var i := 1;
    while i < |s|
      invariant 1 <= i <= |s|
      invariant gaps == Gaps(s[..i])
    {
      assert s[..i + 1][..i] == s[..i];
      gaps := gaps + Step(s[i - 1], s[i]);
      i := i + 1;
    }
    assert s[..i] == s;
  }

  /** `_evaluate_gaps`: the integer gap score, or the KeyError of an unknown timeslot. */
  method EvaluateGaps(ctx: Inputs, s: Schedule) returns (r: Result<nat, string>)
    requires ScheduleValid(s)
    ensures r == GapScore(ctx, s)
  {
    var gs := ctx.groups.keys;
    var total: nat := 0;
    var i := 0;
    while i < |gs|
      invariant 0 <= i <= |gs|
      invariant GapTotal(ctx.timeslots, s, gs[..i]) == Ok(total)
    {
      var g := gs[i];
      var n: Result<nat, string> := Ok(0);
      if g in s.vals {
        n := GroupGapCount(ctx.timeslots, s.vals[g]);
      }
      GapTotalStep(ctx.timeslots, s, gs, i, total, n);
      if n.Err? {
        GapTotalErr(ctx.timeslots, s, gs, i + 1);
        return Err(n.error);
      }
      total := total + n.value;
      i := i + 1;
    }
    assert gs[..i] == gs;
    r := Ok(Score(total));
  }

  /** One group's gap count: its indices collected, sorted and summed; or the KeyError. */
  method GroupGapCount(ts: Dict<Timeslot>, d: Dict<Assignment>) returns (r: Result<nat, string>)
    requires d.Valid()
    ensures SlotIndices(ts, d, d.keys).Err? ==> r == Err(SlotIndices(ts, d, d.keys).error)
    ensures SlotIndices(ts, d, d.keys).Ok? ==> r == Ok(GroupGaps(SlotIndices(ts, d, d.keys).value))
  {
    var xs := CollectIndices(ts, d);
    if xs.Err? {
      return Err(xs.error);
    }
    var gaps := 0;
    if |xs.value| > 1 {
      var sorted := SortIndices(xs.value);
      gaps := SumGaps(sorted);
    }
    r := Ok(gaps);
  }

  /** One more group, whose own count `n` is 0 when the schedule lacks it: the total grows by `n`, or takes its KeyError. */
  lemma GapTotalStep(ts: Dict<Timeslot>, s: Schedule, gs: seq<string>, i: nat, total: nat, n: Result<nat, string>)
    requires ScheduleValid(s) && i < |gs| && GapTotal(ts, s, gs[..i]) == Ok(total)
    requires gs[i] !in s.vals ==> n == Ok(0)
    requires gs[i] in s.vals && SlotIndices(ts, s.vals[gs[i]], s.vals[gs[i]].keys).Err? ==>
      n == Err(SlotIndices(ts, s.vals[gs[i]], s.vals[gs[i]].keys).error)
    requires gs[i] in s.vals && SlotIndices(ts, s.vals[gs[i]], s.vals[gs[i]].keys).Ok? ==>
      n == Ok(GroupGaps(SlotIndices(ts, s.vals[gs[i]], s.vals[gs[i]].keys).value))
    ensures n.Err? ==> GapTotal(ts, s, gs[..i + 1]) == Err(n.error)
    ensures n.Ok? ==> GapTotal(ts, s, gs[..i + 1]) == Ok(total + n.value)
  {
    assert gs[..i + 1][..i] == gs[..i];
  }

  /** A KeyError while summing a prefix of the groups is the KeyError of the whole total. */
  lemma {:induction false} GapTotalErr(ts: Dict<Timeslot>, s: Schedule, gs: seq<string>, n: nat)
    requires ScheduleValid(s)
    requires n <= |gs| && GapTotal(ts, s, gs[..n]).Err?
    ensures GapTotal(ts, s, gs) == GapTotal(ts, s, gs[..n])
  {
    if n < |gs| {
      assert gs[..|gs| - 1][..n] == gs[..n];
      GapTotalErr(ts, s, gs[..|gs| - 1], n);
    } else {
      assert gs[..n] == gs;
    }
  }
}
