/**
 * The genetic algorithm's integer genome: three genes (timeslot, teacher,
 * room index) per course instance, visited group by group in sorted order
 * and course by course in sorted order, and the decoder that turns a genome
 * back into a schedule.
 */
module Genome {
  import opened Wrappers
  import opened Text
  import opened Seqs
  import opened Dicts
  import opened Entities
  import opened Sorting
  import opened Slots
  import opened Candidates
  import opened Schedules
  import Constraints

  /** One step of the genome walk: a group and one instance of one of its courses. */
  datatype Item = Item(group: string, inst: Instance)

  /** The steps of one (group, course) pair: the instances 1..f, or none for an unknown course. */
  function CourseItems(ctx: Inputs, g: string, c: string): (items: seq<Item>)
    ensures forall it :: it in items <==> it.group == g && it.inst in CourseInstances(ctx.courses, c)
  {
    var insts := CourseInstances(ctx.courses, c);
    var items := seq(|insts|, j requires 0 <= j < |insts| => Item(g, insts[j]));
    assert forall it :: it in items ==> exists j :: 0 <= j < |insts| && it == Item(g, insts[j]);
    assert forall j :: 0 <= j < |insts| ==> items[j] == Item(g, insts[j]);
    items
  }

  /** The steps of a list of (group, course) pairs, pair by pair. */
  function PairsItems(ctx: Inputs, pairs: seq<(string, string)>): (items: seq<Item>)
    ensures forall it :: it in items ==>
      exists i :: 0 <= i < |pairs| && it.group == pairs[i].0 && it.inst in CourseInstances(ctx.courses, pairs[i].1)
  {
    var per := seq(|pairs|, i requires 0 <= i < |pairs| => CourseItems(ctx, pairs[i].0, pairs[i].1));
    forall it | it in Concat(per)
      ensures exists i :: 0 <= i < |pairs| && it.group == pairs[i].0 && it.inst in CourseInstances(ctx.courses, pairs[i].1)
    {
      ConcatMembers(per, it);
    }
    Concat(per)
  }

  /** The steps of a non-empty pair list: those of its first pair, then the rest. */
  lemma PairsItemsCons(ctx: Inputs, pairs: seq<(string, string)>)
    requires pairs != []
    ensures PairsItems(ctx, pairs) == CourseItems(ctx, pairs[0].0, pairs[0].1) + PairsItems(ctx, pairs[1..])
  {
    var per := seq(|pairs|, i requires 0 <= i < |pairs| => CourseItems(ctx, pairs[i].0, pairs[i].1));
    var tail := pairs[1..];
    var per' := seq(|tail|, i requires 0 <= i < |tail| => CourseItems(ctx, tail[i].0, tail[i].1));
    assert per == [per[0]] + per';
    ConcatCons(per[0], per');
  }

  /** One group paired with each course of a list, in list order. */
  function PairUp(g: string, cs: seq<string>): seq<(string, string)>
  {
    seq(|cs|, i requires 0 <= i < |cs| => (g, cs[i]))
  }

  /** Each group of gs paired with each of its courses css[i], group by group. */
  function Walk(gs: seq<string>, css: seq<seq<string>>): seq<(string, string)>
    requires |css| == |gs|
  {
    Concat(seq(|gs|, i requires 0 <= i < |gs| => PairUp(gs[i], css[i])))
  }

  /** The decoder's walk: every group in sorted order, each with its listed courses in sorted order. */
  function DecodePairs(ctx: Inputs): seq<(string, string)>
  {
    var gs := SortStrings(ctx.groups.keys);
    Walk(gs, seq(|gs|, i requires 0 <= i < |gs| => WalkCourses(ctx, gs[i])))
  }

  /** The courses the decoder walks for one group name: its listed courses, sorted. */
  function WalkCourses(ctx: Inputs, g: string): (cs: seq<string>)
    ensures g in ctx.groups.vals ==> multiset(cs) == multiset(ctx.groups.vals[g].courses)
    ensures g !in ctx.groups.vals ==> cs == []
  {
    if g in ctx.groups.vals then SortStrings(ctx.groups.vals[g].courses) else []
  }

  function DecodePlan(ctx: Inputs): seq<Item>
  {
    PairsItems(ctx, DecodePairs(ctx))
  }

  /** `courses[c]['duration']` as read by the decoder, whatever its sign. */
  function DurationField(ctx: Inputs, c: string): int
  {
    if c in ctx.courses.vals then ctx.courses.vals[c].duration else 1
  }

  /** Python's `s[start:stop]` for a start inside s: a negative stop counts from the end. */
  function PySlice(s: seq<string>, start: nat, stop: int): (r: seq<string>)
    requires start <= |s|
    ensures start <= stop <= |s| ==> r == s[start..stop]
    ensures RunIn(s, r)
    ensures forall x :: x in r ==> x in s
  {
    var end := if stop < 0 then (if |s| + stop < 0 then 0 else |s| + stop) else if stop > |s| then |s| else stop;
    if end <= start then
      assert RunAt(s, [], start);
      []
    else
      assert RunAt(s, s[start..end], start);
      s[start..end]
  }

  /** r is a run of consecutive entries of s. */
  ghost predicate RunIn(s: seq<string>, r: seq<string>)
  {
    exists i :: RunAt(s, r, i)
  }

  /**
   * The placement one gene triple asks for: slot, teacher and room indices
   * reduced modulo the list lengths, the window starting at that slot in its
   * day; None when the window would run past the end of the day, and a
   * ZeroDivisionError when one of the id lists is empty. (`day_slots.index`
   * would raise a ValueError if the slot were missing from its own day's
   * list, which DecodeGeneFacts rules out.)
   */
  function DecodeGene(ctx: Inputs, it: Item, genes: seq<int>, idx: nat): Result<Option<Placement>, string>
    requires ctx.Valid() && idx + 2 < |genes|
  {
    var tids := ctx.timeslots.keys;
    var teacherIds := ctx.teachers.keys;
    var roomIds := ctx.rooms.keys;
    if |tids| == 0 || |teacherIds| == 0 || |roomIds| == 0 then Err("ZeroDivisionError")
    else
      var tid := tids[genes[idx] % |tids|];
      var daySlots := DaySlots(ctx.timeslots, DayOf(ctx.timeslots, tid));
      if tid !in daySlots then Err("ValueError")
      else
        var start := IndexOf(daySlots, tid);
        var d := DurationField(ctx, it.inst.course);
        if start + d - 1 < |daySlots| then
          Ok(Some(Placement(it.group, it.inst, d, PySlice(daySlots, start, start + d),
            teacherIds[genes[idx + 1] % |teacherIds|], roomIds[genes[idx + 2] % |roomIds|], it.inst.course)))
        else Ok(None)
  }

  function OptionSeq<T>(o: Option<T>): seq<T>
  {
    if o.Some? then [o.value] else []
  }

  /**
   * The placements decoded for the steps, the first step reading the genes
   * at idx; a step finding fewer than three genes left reads nothing and
   * leaves idx where it is.
   */
  function DecodeItems(ctx: Inputs, items: seq<Item>, genes: seq<int>, idx: nat): Result<seq<Placement>, string>
    requires ctx.Valid()
    decreases |items|
  {
    if items == [] then Ok([])
    else if idx + 2 < |genes| then
      match DecodeGene(ctx, items[0], genes, idx)
      case Err(e) => Err(e)
      case Ok(o) =>
        match DecodeItems(ctx, items[1..], genes, idx + 3)
        case Err(e) => Err(e)
        case Ok(rest) => Ok(OptionSeq(o) + rest)
    else DecodeItems(ctx, items[1..], genes, idx)
  }

  /** The schedule a genome decodes to: every group present, its entries written step by step. */
  function DecodeSpec(ctx: Inputs, genes: seq<int>): Result<Schedule, string>
    requires ctx.Valid()
  {
    Finish(InitGroups(SortedGroups(ctx)), DecodeItems(ctx, DecodePlan(ctx), genes, 0))
  }

  function SortedGroups(ctx: Inputs): (gs: seq<string>)
    requires ctx.Valid()
    ensures Distinct(gs)
  {
    StringLeIsTotalOrder();
    SortByDistinct(ctx.groups.keys, StringLe());
    SortStrings(ctx.groups.keys)
  }

  /** s with the placements written into it, or the error raised on the way. */
  function Finish(s: Schedule, r: Result<seq<Placement>, string>): Result<Schedule, string>
    requires ScheduleValid(s)
  {
    match r
    case Err(e) => Err(e)
    case Ok(ps) => Ok(ApplyAll(s, ps))
  }

  lemma FinishStep(ctx: Inputs, s: Schedule, items: seq<Item>, genes: seq<int>, idx: nat)
    requires ctx.Valid() && ScheduleValid(s) && items != [] && idx + 2 < |genes|
    requires DecodeGene(ctx, items[0], genes, idx).Ok?
    ensures var o := DecodeGene(ctx, items[0], genes, idx).value;
      Finish(s, DecodeItems(ctx, items, genes, idx))
        == Finish(if o.Some? then Apply(s, o.value) else s, DecodeItems(ctx, items[1..], genes, idx + 3))
  {
    var o := DecodeGene(ctx, items[0], genes, idx).value;
    var tail := DecodeItems(ctx, items[1..], genes, idx + 3);
    var s' := if o.Some? then Apply(s, o.value) else s;
    DecodeItemsStep(ctx, items, genes, idx, o, tail);
    match tail {
      case Err(e) =>
        assert Finish(s, DecodeItems(ctx, items, genes, idx)) == Err(e);
      case Ok(rest) =>
        assert Finish(s, DecodeItems(ctx, items, genes, idx)) == Ok(ApplyAll(s, OptionSeq(o) + rest));
        if o.Some? {
          ApplyAllCons(s, o.value, rest);
        } else {
          assert OptionSeq(o) + rest == rest;
        }
        assert Finish(s', tail) == Ok(ApplyAll(s', rest));
    }
  }

  lemma DecodeItemsStep(ctx: Inputs, items: seq<Item>, genes: seq<int>, idx: nat, o: Option<Placement>, tail: Result<seq<Placement>, string>)
    requires ctx.Valid() && items != [] && idx + 2 < |genes|
    requires DecodeGene(ctx, items[0], genes, idx) == Ok(o)
    requires tail == DecodeItems(ctx, items[1..], genes, idx + 3)
    ensures DecodeItems(ctx, items, genes, idx) == if tail.Err? then Err(tail.error) else Ok(OptionSeq(o) + tail.value)
  {
  }

  lemma ApplyAllCons(s: Schedule, p: Placement, ps: seq<Placement>)
    requires ScheduleValid(s)
    ensures ApplyAll(s, [p] + ps) == ApplyAll(Apply(s, p), ps)
  {
    assert ([p] + ps)[1..] == ps;
  }

  /** `_individual_to_schedule`. */
  method Decode(ctx: Inputs, genes: seq<int>) returns (r: Result<Schedule, string>)
    requires ctx.Valid()
    ensures r == DecodeSpec(ctx, genes)
  {
    var s := Constraints.InitSchedule(SortedGroups(ctx));
    var items := DecodePlan(ctx);
    var idx := 0;
    for j := 0 to |items|
      invariant ScheduleValid(s) && s.keys == SortedGroups(ctx)
      invariant Finish(s, DecodeItems(ctx, items[j..], genes, idx)) == DecodeSpec(ctx, genes)
    {
      assert items[j..][1..] == items[j + 1..];
      if idx + 2 < |genes| {
        var gene := DecodeGene(ctx, items[j], genes, idx);
        if gene.Err? {
          return Err(gene.error);
        }
        FinishStep(ctx, s, items[j..], genes, idx);
        if gene.value.Some? {
          var p := gene.value.value;
          if p.group in s.vals {
            s := Place(s, p);
          }
        }
        idx := idx + 3;
      }
    }
    return Ok(s);
  }

  /** Every id list the genes index into is non-empty. */
  predicate IdListsNonEmpty(ctx: Inputs)
  {
    |ctx.timeslots.keys| > 0 && |ctx.teachers.keys| > 0 && |ctx.rooms.keys| > 0
  }

  /**
   * What a decoded placement is made of: listed teacher and room ids, the
   * course's duration, and a run of consecutive slots of one day; with a
   * positive duration, a window of exactly that many slots, one the solver
   * could also have offered.
   */
  ghost predicate WellDecoded(ctx: Inputs, p: Placement)
  {
    && p.teacher in ctx.teachers.keys
    && p.room in ctx.rooms.keys
    && p.duration == DurationField(ctx, p.inst.course)
    && (exists day :: RunIn(DaySlots(ctx.timeslots, day), p.window))
    && (forall t :: t in p.window ==> t in ctx.timeslots.keys)
    && (p.duration >= 1 ==> |p.window| == p.duration && p.window in AllWindows(ctx.timeslots, p.duration))
  }

  /** A gene triple fails exactly when an id list is empty; otherwise it yields a well-formed placement or none. */
  lemma DecodeGeneFacts(ctx: Inputs, it: Item, genes: seq<int>, idx: nat)
    requires ctx.Valid() && idx + 2 < |genes|
    ensures DecodeGene(ctx, it, genes, idx).Err? <==> !IdListsNonEmpty(ctx)
    ensures DecodeGene(ctx, it, genes, idx).Ok? && DecodeGene(ctx, it, genes, idx).value.Some? ==>
      var p := DecodeGene(ctx, it, genes, idx).value.value;
      p.group == it.group && p.inst == it.inst && WellDecoded(ctx, p)
  {
    if IdListsNonEmpty(ctx) {
      var ts := ctx.timeslots;
      var tid := ts.keys[genes[idx] % |ts.keys|];
      var day := DayOf(ts, tid);
      DaySlotsFacts(ts, day);
      if DecodeGene(ctx, it, genes, idx).value.Some? {
        var p := DecodeGene(ctx, it, genes, idx).value.value;
        var daySlots := DaySlots(ts, day);
        SliceOfDay(ts, tid, p.duration, daySlots, IndexOf(daySlots, tid), p.window);
      }
    }
  }

  /** The slice the decoder takes from a slot's day is a run of that day, a full window when d >= 1. */
  lemma SliceOfDay(ts: Dict<Timeslot>, tid: string, d: int, daySlots: seq<string>, start: nat, w: seq<string>)
    requires ts.Valid() && tid in ts.keys
    requires daySlots == DaySlots(ts, DayOf(ts, tid))
    requires start < |daySlots| && daySlots[start] == tid && start + d - 1 < |daySlots|
    requires w == PySlice(daySlots, start, start + d)
    ensures exists day :: RunIn(DaySlots(ts, day), w)
    ensures forall t :: t in w ==> t in ts.keys
    ensures d >= 1 ==> |w| == d && w in AllWindows(ts, d)
  {
    DaySlotsFacts(ts, DayOf(ts, tid));
    assert RunIn(DaySlots(ts, DayOf(ts, tid)), w);
    if d >= 1 {
      FullWindow(ts, tid, d, daySlots, start, w);
    }
  }

  lemma FullWindow(ts: Dict<Timeslot>, tid: string, d: int, daySlots: seq<string>, start: nat, w: seq<string>)
    requires ts.Valid() && d >= 1 && tid in ts.keys
    requires daySlots == DaySlots(ts, DayOf(ts, tid))
    requires start + d <= |daySlots| && daySlots[start] == tid && w == daySlots[start..start + d]
    ensures |w| == d && w in AllWindows(ts, d)
  {
    assert Windows(daySlots, d)[start] == w;
    assert w[0] == tid;
    AllWindowsMembers(ts, d, w);
  }

  /** A successful decoding of a step that finds its genes: the step's placement, then the rest. */
  lemma DecodeItemsOk(ctx: Inputs, items: seq<Item>, genes: seq<int>, idx: nat)
    requires ctx.Valid() && items != [] && idx + 2 < |genes| && DecodeItems(ctx, items, genes, idx).Ok?
    ensures DecodeGene(ctx, items[0], genes, idx).Ok? && DecodeItems(ctx, items[1..], genes, idx + 3).Ok?
    ensures DecodeItems(ctx, items, genes, idx).value
      == OptionSeq(DecodeGene(ctx, items[0], genes, idx).value) + DecodeItems(ctx, items[1..], genes, idx + 3).value
  {
  }

  /** Every decoded placement is well formed and belongs to one of the steps. */
  lemma {:induction false} DecodeItemsWellFormed(ctx: Inputs, items: seq<Item>, genes: seq<int>, idx: nat, p: Placement)
    requires ctx.Valid() && DecodeItems(ctx, items, genes, idx).Ok?
    requires p in DecodeItems(ctx, items, genes, idx).value
    ensures WellDecoded(ctx, p) && Item(p.group, p.inst) in items
    decreases |items|
  {
    if idx + 2 < |genes| {
      DecodeItemsOk(ctx, items, genes, idx);
      if p in DecodeItems(ctx, items[1..], genes, idx + 3).value {
        DecodeItemsWellFormed(ctx, items[1..], genes, idx + 3, p);
      } else {
        DecodeGeneFacts(ctx, items[0], genes, idx);
      }
    } else {
      DecodeItemsWellFormed(ctx, items[1..], genes, idx, p);
    }
    assert Item(p.group, p.inst) in items;
  }

  /** The number of whole gene triples from idx on. */
  function Triples(genes: seq<int>, idx: nat): (n: nat)
    ensures idx + 3 * n <= |genes| || n == 0
    ensures n == 0 <==> |genes| <= idx + 2
    decreases |genes| - idx
  {
    if idx + 2 < |genes| then 1 + Triples(genes, idx + 3) else 0
  }

  function Min(a: nat, b: nat): nat
  {
    if a <= b then a else b
  }

  /** The placements one decoded triple contributes. */
  function Produced(r: Result<Option<Placement>, string>): seq<Placement>
  {
    if r.Ok? then OptionSeq(r.value) else []
  }

  /** `f` applied step by step: step m handles `items[m]` at position idx + 3m. */
  function StepsOf<T>(f: (Item, nat) -> T, items: seq<Item>, idx: nat, n: nat): (r: seq<T>)
    requires n <= |items|
    ensures |r| == n
    decreases n
  {
    if n == 0 then [] else [f(items[0], idx)] + StepsOf(f, items[1..], idx + 3, n - 1)
  }

  lemma {:induction false} StepsOfAt<T>(f: (Item, nat) -> T, items: seq<Item>, idx: nat, n: nat, m: nat)
    requires n <= |items| && m < n
    ensures StepsOf(f, items, idx, n)[m] == f(items[m], idx + 3 * m)
    decreases m
  {
    if m > 0 {
      StepsOfAt(f, items[1..], idx + 3, n - 1, m - 1);
      assert items[1..][m - 1] == items[m];
    }
  }

  /** What one step produces when it reads the triple at position i. */
  ghost function GeneStep(ctx: Inputs, genes: seq<int>): (Item, nat) -> seq<Placement>
  {
    (it: Item, i: nat) => if ctx.Valid() && i + 2 < |genes| then Produced(DecodeGene(ctx, it, genes, i)) else []
  }

  /** What steps 0..n-1 produce when step m reads the triple at idx + 3m. */
  ghost function StepsFrom(ctx: Inputs, items: seq<Item>, genes: seq<int>, idx: nat, n: nat): (r: seq<seq<Placement>>)
    requires n <= |items|
    ensures |r| == n
  {
    StepsOf(GeneStep(ctx, genes), items, idx, n)
  }

  /** Step m reads the triple at i = idx + 3m. */
  lemma StepsFromAt(ctx: Inputs, items: seq<Item>, genes: seq<int>, idx: nat, n: nat, m: nat, i: nat)
    requires ctx.Valid() && n <= |items| && idx + 3 * n <= |genes| && m < n && i == idx + 3 * m
    ensures i + 2 < |genes|
    ensures StepsFrom(ctx, items, genes, idx, n)[m] == Produced(DecodeGene(ctx, items[m], genes, i))
  {
    var f := GeneStep(ctx, genes);
    assert i + 2 < |genes| by {
      assert 3 * m + 3 <= 3 * n;
    }
    StepsOfAt(f, items, idx, n, m);
    assert f(items[m], i) == Produced(DecodeGene(ctx, items[m], genes, i));
  }

  /** A step that finds no whole triple produces nothing and hands idx on unchanged. */
  lemma DecodeItemsSkip(ctx: Inputs, items: seq<Item>, genes: seq<int>, idx: nat)
    requires ctx.Valid() && items != [] && |genes| <= idx + 2
    ensures DecodeItems(ctx, items, genes, idx) == DecodeItems(ctx, items[1..], genes, idx)
  {
  }

  /** A step that finds a triple while an id list is empty raises, and so does the whole decoding. */
  lemma DecodeItemsFails(ctx: Inputs, items: seq<Item>, genes: seq<int>, idx: nat)
    requires ctx.Valid() && items != [] && idx + 2 < |genes| && !IdListsNonEmpty(ctx)
    ensures DecodeItems(ctx, items, genes, idx) == Err("ZeroDivisionError")
  {
  }

  /** One step of DecodeItemsAt: a triple found while every id list is non-empty. */
  lemma DecodeItemsAtStep(ctx: Inputs, items: seq<Item>, genes: seq<int>, idx: nat, n: nat)
    requires ctx.Valid() && IdListsNonEmpty(ctx) && 1 <= n <= |items| && idx + 3 * n <= |genes|
    requires DecodeItems(ctx, items[1..], genes, idx + 3) == Ok(Concat(StepsFrom(ctx, items[1..], genes, idx + 3, n - 1)))
    ensures DecodeItems(ctx, items, genes, idx) == Ok(Concat(StepsFrom(ctx, items, genes, idx, n)))
  {
    DecodeGeneFacts(ctx, items[0], genes, idx);
    DecodeItemsOk(ctx, items, genes, idx);
    ConcatCons(Produced(DecodeGene(ctx, items[0], genes, idx)), StepsFrom(ctx, items[1..], genes, idx + 3, n - 1));
  }

  /**
   * Decoding step by step: with every id list non-empty, step m reads the
   * triple at idx + 3m, and only the first n steps, those that find a whole
   * triple, produce anything.
   */
  lemma {:induction false} DecodeItemsAt(ctx: Inputs, items: seq<Item>, genes: seq<int>, idx: nat, n: nat)
    requires ctx.Valid() && IdListsNonEmpty(ctx)
    requires n == Min(|items|, Triples(genes, idx))
    ensures DecodeItems(ctx, items, genes, idx) == Ok(Concat(StepsFrom(ctx, items, genes, idx, n)))
    decreases |items|
  {
    if items == [] {
    } else if idx + 2 < |genes| {
      TriplesStep(items, genes, idx, n);
      DecodeItemsAt(ctx, items[1..], genes, idx + 3, n - 1);
      DecodeItemsAtStep(ctx, items, genes, idx, n);
    } else {
      DecodeItemsSkip(ctx, items, genes, idx);
      DecodeItemsAt(ctx, items[1..], genes, idx, n);
    }
  }

  /** With a whole triple at idx, one step takes one triple: the remaining steps see the triples from idx + 3. */
  lemma TriplesStep(items: seq<Item>, genes: seq<int>, idx: nat, n: nat)
    requires items != [] && idx + 2 < |genes| && n == Min(|items|, Triples(genes, idx))
    ensures 1 <= n <= |items| && idx + 3 * n <= |genes|
    ensures n - 1 == Min(|items[1..]|, Triples(genes, idx + 3))
  {
  }

  /** With an empty id list, decoding raises as soon as a step finds a whole triple. */
  lemma {:induction false} DecodeItemsRaises(ctx: Inputs, items: seq<Item>, genes: seq<int>, idx: nat)
    requires ctx.Valid() && !IdListsNonEmpty(ctx)
    ensures DecodeItems(ctx, items, genes, idx) == if items == [] || |genes| <= idx + 2 then Ok([]) else Err("ZeroDivisionError")
    decreases |items|
  {
    if items != [] {
      if idx + 2 < |genes| {
        DecodeItemsFails(ctx, items, genes, idx);
      } else {
        DecodeItemsSkip(ctx, items, genes, idx);
        DecodeItemsRaises(ctx, items[1..], genes, idx);
      }
    }
  }

  /** Once fewer than three genes are left, decoding produces nothing more. */
  lemma {:induction false} DecodeStops(ctx: Inputs, items: seq<Item>, genes: seq<int>, idx: nat)
    requires ctx.Valid() && |genes| <= idx + 2
    ensures DecodeItems(ctx, items, genes, idx) == Ok([])
    decreases |items|
  {
    if items != [] {
      DecodeItemsSkip(ctx, items, genes, idx);
      DecodeStops(ctx, items[1..], genes, idx);
    }
  }

  // ---------------------------------------------------------------- encoding

  /** The course ids of a group's entries, in entry order. */
  function EntryCourses(d: Dict<Assignment>): seq<string>
    requires d.Valid()
  {
    seq(|d.keys|, i requires 0 <= i < |d.keys| => d.vals[d.keys[i]].courseId)
  }

  /** `sorted(set(a['course_id'] for a in entries))`. */
  function EncodeCourses(d: Dict<Assignment>): seq<string>
    requires d.Valid()
  {
    SortStrings(Dedup(EntryCourses(d)))
  }

  /** The encoder's walk: every group of the schedule in sorted order, each with the courses of its entries. */
  function EncodePairs(ctx: Inputs, s: Schedule): (pairs: seq<(string, string)>)
    requires ScheduleValid(s)
    ensures forall pair :: pair in pairs ==> pair.0 in s.vals
  {
    var gs := SortStrings(ctx.groups.keys);
    var css := seq(|gs|, i requires 0 <= i < |gs| => ScheduleCourses(s, gs[i]));
    var per := seq(|gs|, i requires 0 <= i < |gs| => PairUp(gs[i], css[i]));
    forall pair | pair in Concat(per) ensures pair.0 in s.vals {
      ConcatMembers(per, pair);
    }
    Walk(gs, css)
  }

  /** The courses the encoder walks for one group name: those of its entries, sorted, once each. */
  function ScheduleCourses(s: Schedule, g: string): seq<string>
    requires ScheduleValid(s)
  {
    if g in s.vals then EncodeCourses(s.vals[g]) else []
  }

  /** The first key, in entry order, that starts with the prefix. */
  function FirstWithPrefix(keys: seq<string>, prefix: string): (r: Option<string>)
    ensures r.Some? ==> r.value in keys && StartsWith(r.value, prefix)
    ensures r.None? <==> forall k :: k in keys ==> !StartsWith(k, prefix)
  {
    if keys == [] then None
    else if StartsWith(keys[0], prefix) then Some(keys[0])
    else
      var r := FirstWithPrefix(keys[1..], prefix);
      assert forall k :: k in keys ==> k == keys[0] || k in keys[1..];
      r
  }

  /**
   * The three genes of one instance: the positions, in the id lists, of
   * the timeslot, teacher and room of the first entry whose key starts with
   * the instance key; [0, 0, 0] when there is none; a ValueError when an id
   * of that entry is not listed.
   */
  function EncodeInstance(ctx: Inputs, d: Dict<Assignment>, inst: Instance): (r: Result<seq<int>, string>)
    requires d.Valid()
    ensures r.Ok? ==> |r.value| == 3 && forall i :: 0 <= i < 3 ==> r.value[i] >= 0
    ensures FirstWithPrefix(d.keys, inst.Key()).None? ==> r == Ok([0, 0, 0])
    ensures FirstWithPrefix(d.keys, inst.Key()).Some? ==>
      var a := d.vals[FirstWithPrefix(d.keys, inst.Key()).value];
      && (r.Ok? <==> a.timeslot in ctx.timeslots.keys && a.teacher in ctx.teachers.keys && a.room in ctx.rooms.keys)
      && (r.Ok? ==> && r.value[0] < |ctx.timeslots.keys| && ctx.timeslots.keys[r.value[0]] == a.timeslot
                    && r.value[1] < |ctx.teachers.keys| && ctx.teachers.keys[r.value[1]] == a.teacher
                    && r.value[2] < |ctx.rooms.keys| && ctx.rooms.keys[r.value[2]] == a.room)
  {
    match FirstWithPrefix(d.keys, inst.Key())
    case None => Ok([0, 0, 0])
    case Some(k) =>
      var a := d.vals[k];
      if a.timeslot !in ctx.timeslots.keys || a.teacher !in ctx.teachers.keys || a.room !in ctx.rooms.keys then
        Err("ValueError")
      else
        Ok([IndexOf(ctx.timeslots.keys, a.timeslot), IndexOf(ctx.teachers.keys, a.teacher), IndexOf(ctx.rooms.keys, a.room)])
  }

  /** Two results appended, the first error winning. */
  function Chain(a: Result<seq<int>, string>, b: Result<seq<int>, string>): Result<seq<int>, string>
  {
    match a
    case Err(e) => Err(e)
    case Ok(x) =>
      match b
      case Err(e) => Err(e)
      case Ok(y) => Ok(x + y)
  }

  /** The genes of the steps, three per step. */
  function EncodeItems(ctx: Inputs, s: Schedule, items: seq<Item>): Result<seq<int>, string>
    requires ScheduleValid(s) && forall it :: it in items ==> it.group in s.vals
  {
    if items == [] then Ok([])
    else Chain(EncodeInstance(ctx, s.vals[items[0].group], items[0].inst), EncodeItems(ctx, s, items[1..]))
  }

  /** The genes of the (group, course) pairs; a KeyError at a course id with no course. */
  function EncodeGenes(ctx: Inputs, s: Schedule, pairs: seq<(string, string)>): Result<seq<int>, string>
    requires ScheduleValid(s) && forall pair :: pair in pairs ==> pair.0 in s.vals
  {
    if pairs == [] then Ok([])
    else if pairs[0].1 !in ctx.courses.vals then Err("KeyError")
    else Chain(EncodeItems(ctx, s, CourseItems(ctx, pairs[0].0, pairs[0].1)), EncodeGenes(ctx, s, pairs[1..]))
  }

  /** The genome of a schedule. */
  function EncodeSpec(ctx: Inputs, s: Schedule): Result<seq<int>, string>
    requires ScheduleValid(s)
  {
    EncodeGenes(ctx, s, EncodePairs(ctx, s))
  }

  lemma ChainAppend(genes: seq<int>, t: seq<int>, c: Result<seq<int>, string>)
    ensures Chain(Ok(genes), Chain(Ok(t), c)) == Chain(Ok(genes + t), c)
  {
    if c.Ok? {
      AppendAssoc(genes, t, c.value);
    }
  }

  lemma ChainNil(c: Result<seq<int>, string>)
    ensures Chain(Ok([]), c) == c
  {
    if c.Ok? {
      assert [] + c.value == c.value;
    }
  }

  /** The instance loop of one (group, course) pair. */
  method EncodeSteps(ctx: Inputs, s: Schedule, items: seq<Item>) returns (r: Result<seq<int>, string>)
    requires ScheduleValid(s) && forall it :: it in items ==> it.group in s.vals
    ensures r == EncodeItems(ctx, s, items)
  {
    var genes := [];
    assert items[0..] == items;
    ChainNil(EncodeItems(ctx, s, items));
    for k := 0 to |items|
      invariant Chain(Ok(genes), EncodeItems(ctx, s, items[k..])) == EncodeItems(ctx, s, items)
    {
      assert items[k..][1..] == items[k + 1..];
      var triple := EncodeInstance(ctx, s.vals[items[k].group], items[k].inst);
      if triple.Err? {
        return Err(triple.error);
      }
      ChainAppend(genes, triple.value, EncodeItems(ctx, s, items[k + 1..]));
      genes := genes + triple.value;
    }
    assert items[|items|..] == [];
    assert genes + [] == genes;
    return Ok(genes);
  }

  /** `_schedule_to_individual`. */
  method Encode(ctx: Inputs, s: Schedule) returns (r: Result<seq<int>, string>)
    requires ScheduleValid(s)
    ensures r == EncodeSpec(ctx, s)
  {
    var pairs := EncodePairs(ctx, s);
    var genes := [];
    assert pairs[0..] == pairs;
    ChainNil(EncodeSpec(ctx, s));
    for j := 0 to |pairs|
      invariant Chain(Ok(genes), EncodeGenes(ctx, s, pairs[j..])) == EncodeSpec(ctx, s)
    {
      assert pairs[j..][1..] == pairs[j + 1..];
      var (g, c) := pairs[j];
      if c !in ctx.courses.vals {
        return Err("KeyError");
      }
      var triples := EncodeSteps(ctx, s, CourseItems(ctx, g, c));
      if triples.Err? {
        return Err(triples.error);
      }
      ChainAppend(genes, triples.value, EncodeGenes(ctx, s, pairs[j + 1..]));
      genes := genes + triples.value;
    }
    assert pairs[|pairs|..] == [];
    assert genes + [] == genes;
    return Ok(genes);
  }

  lemma ChainAssoc(a: Result<seq<int>, string>, b: Result<seq<int>, string>, c: Result<seq<int>, string>)
    ensures Chain(Chain(a, b), c) == Chain(a, Chain(b, c))
  {
    if a.Ok? && b.Ok? && c.Ok? {
      AppendAssoc(a.value, b.value, c.value);
    }
  }

  /** The genes of two runs of steps, one after the other. */
  lemma {:induction false} EncodeItemsAppend(ctx: Inputs, s: Schedule, a: seq<Item>, b: seq<Item>)
    requires ScheduleValid(s) && (forall it :: it in a ==> it.group in s.vals) && (forall it :: it in b ==> it.group in s.vals)
    ensures EncodeItems(ctx, s, a + b) == Chain(EncodeItems(ctx, s, a), EncodeItems(ctx, s, b))
    decreases |a|
  {
    if a == [] {
      assert a + b == b;
      ChainNil(EncodeItems(ctx, s, b));
    } else {
      assert (a + b)[0] == a[0] && (a + b)[1..] == a[1..] + b;
      EncodeItemsAppend(ctx, s, a[1..], b);
      ChainAssoc(EncodeInstance(ctx, s.vals[a[0].group], a[0].inst), EncodeItems(ctx, s, a[1..]), EncodeItems(ctx, s, b));
    }
  }

  /** Without a KeyError, the pairs' genes are the genes of all their steps. */
  lemma {:induction false} EncodeGenesItems(ctx: Inputs, s: Schedule, pairs: seq<(string, string)>)
    requires ScheduleValid(s) && forall pair :: pair in pairs ==> pair.0 in s.vals
    requires EncodeGenes(ctx, s, pairs).Ok?
    ensures forall it :: it in PairsItems(ctx, pairs) ==> it.group in s.vals
    ensures EncodeItems(ctx, s, PairsItems(ctx, pairs)) == EncodeGenes(ctx, s, pairs)
    decreases |pairs|
  {
    if pairs != [] {
      PairsItemsCons(ctx, pairs);
      EncodeGenesItems(ctx, s, pairs[1..]);
      EncodeItemsAppend(ctx, s, CourseItems(ctx, pairs[0].0, pairs[0].1), PairsItems(ctx, pairs[1..]));
    }
  }

  /** Three genes per step: step m's genes are its instance's encoding. */
  lemma {:induction false} EncodeItemsAt(ctx: Inputs, s: Schedule, items: seq<Item>)
    requires ScheduleValid(s) && forall it :: it in items ==> it.group in s.vals
    requires EncodeItems(ctx, s, items).Ok?
    ensures var genes := EncodeItems(ctx, s, items).value;
      && |genes| == 3 * |items|
      && forall m :: 0 <= m < |items| ==>
           EncodeInstance(ctx, s.vals[items[m].group], items[m].inst) == Ok(genes[3 * m..3 * m + 3])
    decreases |items|
  {
    if items != [] {
      var head := EncodeInstance(ctx, s.vals[items[0].group], items[0].inst);
      EncodeItemsAt(ctx, s, items[1..]);
      var rest := EncodeItems(ctx, s, items[1..]).value;
      var genes := EncodeItems(ctx, s, items).value;
      assert genes == head.value + rest;
      forall m | 0 <= m < |items|
        ensures EncodeInstance(ctx, s.vals[items[m].group], items[m].inst) == Ok(genes[3 * m..3 * m + 3])
      {
        assert m > 0 ==> (head.value + rest)[3 * m..3 * m + 3] == rest[3 * (m - 1)..3 * (m - 1) + 3];
        if m > 0 {
          assert items[m] == items[1..][m - 1];
        }
      }
    }
  }

  /**
   * A genome the encoder returns holds three genes per step of its walk,
   * step m's being the positions of its instance's first entry's timeslot,
   * teacher and room in the id lists, or [0, 0, 0] when the instance has
   * no entry.
   */
  lemma EncodeShape(ctx: Inputs, s: Schedule)
    requires ScheduleValid(s) && EncodeSpec(ctx, s).Ok?
    ensures var items := PairsItems(ctx, EncodePairs(ctx, s));
      var genes := EncodeSpec(ctx, s).value;
      && (forall it :: it in items ==> it.group in s.vals)
      && |genes| == 3 * |items|
      && forall m :: 0 <= m < |items| ==>
           EncodeInstance(ctx, s.vals[items[m].group], items[m].inst) == Ok(genes[3 * m..3 * m + 3])
  {
    EncodeGenesItems(ctx, s, EncodePairs(ctx, s));
    EncodeItemsAt(ctx, s, PairsItems(ctx, EncodePairs(ctx, s)));
  }
}
