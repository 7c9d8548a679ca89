/**
 * The summary statistics of a schedule: the number of entries, and counters
 * of entries by course type, by teacher, by room, by group and by day.  A
 * counter is a Python dict from name to count, filled in the order the
 * entries are visited: groups in schedule order, each group's entries in
 * dict order.
 */
module Statistics {
  import opened Wrappers
  import opened Seqs
  import opened Dicts
  import opened Entities

  // ------------------------------------------------------------ counters

  type Counter = Dict<nat>

  /** `counter[k] = counter.get(k, 0) + 1`. */
  function Incr(c: Counter, k: string): (r: Counter)
    requires c.Valid()
    ensures r.Valid()
    ensures r.Get(k, 0) == c.Get(k, 0) + 1
  {
    c.Put(k, c.Get(k, 0) + 1)
  }

  /** Counting k leaves every other count as it was. */
  lemma IncrOther(c: Counter, k: string, other: string)
    requires c.Valid()
    ensures other != k ==> Incr(c, k).Get(other, 0) == c.Get(other, 0)
  {
  }

  /** The counts under `keys`, added up. */
  function SumOver(keys: seq<string>, vals: map<string, nat>): nat
    requires forall k :: k in keys ==> k in vals
  {
    if keys == [] then 0 else SumOver(keys[..|keys| - 1], vals) + vals[keys[|keys| - 1]]
  }

  /** `sum(counter.values())`. */
  function Sum(c: Counter): nat
    requires c.Valid()
  {
    SumOver(c.keys, c.vals)
  }

  /** Counts outside `keys` do not matter. */
  lemma {:induction false} SumOverFrame(keys: seq<string>, a: map<string, nat>, b: map<string, nat>)
    requires forall k :: k in keys ==> k in a && k in b && a[k] == b[k]
    ensures SumOver(keys, a) == SumOver(keys, b)
  {
    if keys != [] {
      SumOverFrame(keys[..|keys| - 1], a, b);
    }
  }

  /** Raising the count of a key listed once raises the sum by as much. */
  lemma {:induction false} SumOverBump(keys: seq<string>, vals: map<string, nat>, k: string, v: nat)
    requires Distinct(keys) && k in keys && forall k' :: k' in keys ==> k' in vals
    requires v >= vals[k]
    ensures SumOver(keys, vals[k := v]) == SumOver(keys, vals) + (v - vals[k])
  {
    var front := keys[..|keys| - 1];
    var last := keys[|keys| - 1];
    if last == k {
      assert k !in front;
      SumOverFrame(front, vals, vals[k := v]);
    } else {
      assert k in front;
      SumOverBump(front, vals, k, v);
    }
  }

  /** Counting one more entry adds one to the counter's total. */
  lemma SumIncr(c: Counter, k: string)
    requires c.Valid()
    ensures Sum(Incr(c, k)) == Sum(c) + 1
  {
    if k in c.vals {
      SumOverBump(c.keys, c.vals, k, c.vals[k] + 1);
    } else {
      var r := Incr(c, k);
      assert r.keys[..|r.keys| - 1] == c.keys;
      SumOverFrame(c.keys, c.vals, r.vals);
    }
  }

  /** Adding a new key with count v adds v to the total. */
  lemma SumPutNew(c: Counter, k: string, v: nat)
    requires c.Valid() && k !in c.vals
    ensures Sum(c.Put(k, v)) == Sum(c) + v
  {
    var r := c.Put(k, v);
    assert r.keys[..|r.keys| - 1] == c.keys;
    SumOverFrame(c.keys, c.vals, r.vals);
  }

  // ------------------------------------------------------------ entries

  /** One session of a group's schedule, with its group and its key. */
  datatype Entry = Entry(group: string, key: string, a: Assignment)

  /** A group's entries under `keys`, in order. */
  function GroupEntries(g: string, d: Dict<Assignment>, keys: seq<string>): (es: seq<Entry>)
    requires forall k :: k in keys ==> k in d.vals
    ensures |es| == |keys|
  {
    if keys == [] then []
    else
      var k := keys[|keys| - 1];
      GroupEntries(g, d, keys[..|keys| - 1]) + [Entry(g, k, d.vals[k])]
  }

  /** The entries of the groups `gs`, group by group, in the order the statistics visit them. */
  function AllEntries(s: Schedule, gs: seq<string>): (es: seq<Entry>)
    requires ScheduleValid(s) && forall g :: g in gs ==> g in s.vals
  {
    if gs == [] then []
    else
      var g := gs[|gs| - 1];
      AllEntries(s, gs[..|gs| - 1]) + GroupEntries(g, s.vals[g], s.vals[g].keys)
  }

  /** The walk visits every entry of the groups `gs`, and nothing else. */
  lemma {:induction false} AllEntriesMembers(s: Schedule, gs: seq<string>, e: Entry)
    requires ScheduleValid(s) && forall g :: g in gs ==> g in s.vals
    ensures e in AllEntries(s, gs) <==> e.group in gs && e.key in s.vals[e.group].vals && e.a == s.vals[e.group].vals[e.key]
  {
    if gs != [] {
      var front := gs[..|gs| - 1];
      var g := gs[|gs| - 1];
      assert forall h :: h in gs <==> h in front || h == g;
      AllEntriesMembers(s, front, e);
      GroupEntriesMembers(g, s.vals[g], s.vals[g].keys, e);
    }
  }

  lemma {:induction false} GroupEntriesMembers(g: string, d: Dict<Assignment>, keys: seq<string>, e: Entry)
    requires forall k :: k in keys ==> k in d.vals
    ensures e in GroupEntries(g, d, keys) <==> e.group == g && e.key in keys && e.a == d.vals[e.key]
  {
    if keys != [] {
      var front := keys[..|keys| - 1];
      assert forall k' :: k' in keys <==> k' in front || k' == keys[|keys| - 1];
      GroupEntriesMembers(g, d, front, e);
    }
  }

  /** What an entry is counted under. */
  datatype Field = TypeField | TeacherField | RoomField | DayField

  /** `courses.get(key, {}).get('type', 'UNKNOWN')`: the entry KEY is looked up, not its course id. */
  function CourseType(ctx: Inputs, key: string): string
  {
    if key in ctx.courses.vals then ctx.courses.vals[key].kind else "UNKNOWN"
  }

  /** The name an entry is counted under; the day of an unknown timeslot is never used. */
  function FieldOf(ctx: Inputs, f: Field, e: Entry): string
  {
    match f
    case TypeField => CourseType(ctx, e.key)
    case TeacherField => e.a.teacher
    case RoomField => e.a.room
    case DayField => if e.a.timeslot in ctx.timeslots.vals then ctx.timeslots.vals[e.a.timeslot].day else ""
  }

  /** A counter filled from the entries in order. */
  function Tally(ctx: Inputs, f: Field, es: seq<Entry>): (c: Counter)
    ensures c.Valid()
  {
    if es == [] then Empty() else Incr(Tally(ctx, f, es[..|es| - 1]), FieldOf(ctx, f, es[|es| - 1]))
  }

  /** How many entries are counted under `name`. */
  function Occurrences(ctx: Inputs, f: Field, es: seq<Entry>, name: string): nat
  {
    if es == [] then 0
    else Occurrences(ctx, f, es[..|es| - 1], name) + (if FieldOf(ctx, f, es[|es| - 1]) == name then 1 else 0)
  }

  /** `group_schedules`: each group of `gs` with its number of entries. */
  function GroupSizes(s: Schedule, gs: seq<string>): (c: Counter)
    requires ScheduleValid(s) && forall g :: g in gs ==> g in s.vals
    ensures c.Valid()
    ensures forall g :: g in c.vals <==> g in gs
  {
    if gs == [] then Empty()
    else
      var g := gs[|gs| - 1];
      var front := gs[..|gs| - 1];
      assert forall h :: h in gs <==> h in front || h == g;
      GroupSizes(s, front).Put(g, |s.vals[g].keys|)
  }

  // ------------------------------------------------------------ the statistics

  datatype Stats = Stats(
    total: nat,
    byType: Counter,
    teacherWorkload: Counter,
    roomUtilization: Counter,
    groupSchedules: Counter,
    timeDistribution: Counter)

  /** Every entry's timeslot is known; otherwise the day lookup raises KeyError. */
  predicate SlotsKnown(ctx: Inputs, s: Schedule)
  {
    forall g, k :: g in s.vals && k in s.vals[g].vals ==> s.vals[g].vals[k].timeslot in ctx.timeslots.vals
  }

  /** The counters over the entries `es`, with `groups` as the per-group counts. */
  function StatsOf(ctx: Inputs, es: seq<Entry>, groups: Counter): Stats
  {
    Stats(|es|, Tally(ctx, TypeField, es), Tally(ctx, TeacherField, es), Tally(ctx, RoomField, es), groups, Tally(ctx, DayField, es))
  }

  /** What `generate_summary_statistics` returns, or the KeyError it raises. */
  function Summary(ctx: Inputs, s: Schedule): Result<Stats, string>
    requires ScheduleValid(s)
  {
    if !SlotsKnown(ctx, s) then Err("KeyError")
    else Ok(StatsOf(ctx, AllEntries(s, s.keys), GroupSizes(s, s.keys)))
  }

  // ------------------------------------------------------------ properties

  /** Each counter adds up to the number of entries counted. */
  lemma {:induction false} TallySum(ctx: Inputs, f: Field, es: seq<Entry>)
    ensures Sum(Tally(ctx, f, es)) == |es|
  {
    if es != [] {
      TallySum(ctx, f, es[..|es| - 1]);
      SumIncr(Tally(ctx, f, es[..|es| - 1]), FieldOf(ctx, f, es[|es| - 1]));
    }
  }

  /** A counter holds, under each name, the number of entries with that name. */
  lemma {:induction false} TallyCounts(ctx: Inputs, f: Field, es: seq<Entry>, name: string)
    ensures Tally(ctx, f, es).Get(name, 0) == Occurrences(ctx, f, es, name)
  {
    if es != [] {
      TallyCounts(ctx, f, es[..|es| - 1], name);
      IncrOther(Tally(ctx, f, es[..|es| - 1]), FieldOf(ctx, f, es[|es| - 1]), name);
    }
  }

  /** The per-group counts add up to the number of entries, since no group is visited twice. */
  lemma {:induction false} GroupSizesSum(s: Schedule, gs: seq<string>)
    requires ScheduleValid(s) && (forall g :: g in gs ==> g in s.vals) && Distinct(gs)
    ensures Sum(GroupSizes(s, gs)) == |AllEntries(s, gs)|
  {
    if gs != [] {
      var front := gs[..|gs| - 1];
      var g := gs[|gs| - 1];
      assert g !in front;
      GroupSizesSum(s, front);
      SumPutNew(GroupSizes(s, front), g, |s.vals[g].keys|);
    }
  }

  /** Each group's count is its number of entries. */
  lemma {:induction false} GroupSizesAt(s: Schedule, gs: seq<string>, g: string)
    requires ScheduleValid(s) && (forall g :: g in gs ==> g in s.vals) && g in gs
    ensures GroupSizes(s, gs).Get(g, 0) == |s.vals[g].keys|
  {
    var front := gs[..|gs| - 1];
    if gs[|gs| - 1] != g {
      assert g in front;
      GroupSizesAt(s, front, g);
    }
  }

  /**
   * `total_classes` is the number of entries, and so is the sum of each
   * counter: by type, by teacher, by room, by group and by day.
   */
  lemma SummarySums(ctx: Inputs, s: Schedule)
    requires ScheduleValid(s) && Summary(ctx, s).Ok?
    ensures Summary(ctx, s).value.total == |AllEntries(s, s.keys)|
    ensures Sum(Summary(ctx, s).value.byType) == Summary(ctx, s).value.total
    ensures Sum(Summary(ctx, s).value.teacherWorkload) == Summary(ctx, s).value.total
    ensures Sum(Summary(ctx, s).value.roomUtilization) == Summary(ctx, s).value.total
    ensures Sum(Summary(ctx, s).value.groupSchedules) == Summary(ctx, s).value.total
    ensures Sum(Summary(ctx, s).value.timeDistribution) == Summary(ctx, s).value.total
  {
    var es := AllEntries(s, s.keys);
    TallySum(ctx, TypeField, es);
    TallySum(ctx, TeacherField, es);
    TallySum(ctx, RoomField, es);
    TallySum(ctx, DayField, es);
    GroupSizesSum(s, s.keys);
  }

  /** All entries count as 'UNKNOWN' when every key holds '_' and no course id does. */
  lemma {:induction false} TypesUnknown(ctx: Inputs, es: seq<Entry>)
    requires forall c :: c in ctx.courses.vals ==> '_' !in c
    requires forall i :: 0 <= i < |es| ==> '_' in es[i].key
    ensures Occurrences(ctx, TypeField, es, "UNKNOWN") == |es|
  {
    if es != [] {
      TypesUnknown(ctx, es[..|es| - 1]);
      assert es[|es| - 1].key !in ctx.courses.vals;
    }
  }

  // ------------------------------------------------------------ the counting loop

  lemma TallySnoc(ctx: Inputs, f: Field, es: seq<Entry>, e: Entry)
    ensures Tally(ctx, f, es + [e]) == Incr(Tally(ctx, f, es), FieldOf(ctx, f, e))
  {
    assert (es + [e])[..|es|] == es;
  }

  /** Counting one more entry. */
  lemma StatsSnoc(ctx: Inputs, es: seq<Entry>, groups: Counter, e: Entry)
    ensures StatsOf(ctx, es + [e], groups) == CountEntry(ctx, StatsOf(ctx, es, groups), e)
  {
    TallySnoc(ctx, TypeField, es, e);
    TallySnoc(ctx, TeacherField, es, e);
    TallySnoc(ctx, RoomField, es, e);
    TallySnoc(ctx, DayField, es, e);
  }

  lemma GroupEntriesSnoc(g: string, d: Dict<Assignment>, keys: seq<string>, j: nat)
    requires forall k :: k in keys ==> k in d.vals
    requires j < |keys|
    ensures GroupEntries(g, d, keys[..j + 1]) == GroupEntries(g, d, keys[..j]) + [Entry(g, keys[j], d.vals[keys[j]])]
  {
    assert keys[..j + 1][..j] == keys[..j];
  }

  /** Counting one entry: the total and the four counters. */
  function CountEntry(ctx: Inputs, st: Stats, e: Entry): Stats
    requires st.byType.Valid() && st.teacherWorkload.Valid() && st.roomUtilization.Valid() && st.timeDistribution.Valid()
  {
    Stats(
      st.total + 1,
      Incr(st.byType, FieldOf(ctx, TypeField, e)),
      Incr(st.teacherWorkload, e.a.teacher),
      Incr(st.roomUtilization, e.a.room),
      st.groupSchedules,
      Incr(st.timeDistribution, FieldOf(ctx, DayField, e)))
  }

  /** Counts are well formed counters. */
  ghost predicate Counters(st: Stats)
  {
    st.byType.Valid() && st.teacherWorkload.Valid() && st.roomUtilization.Valid() && st.timeDistribution.Valid()
  }

  /** The inner loop's meaning: a group's entries under `keys` counted onto `st`, or the KeyError. */
  function CountEntries(ctx: Inputs, st: Stats, g: string, d: Dict<Assignment>, keys: seq<string>): (r: Result<Stats, string>)
    requires Counters(st) && forall k :: k in keys ==> k in d.vals
    ensures r.Ok? ==> Counters(r.value) && r.value.groupSchedules == st.groupSchedules
  {
    if keys == [] then Ok(st)
    else
      var front := CountEntries(ctx, st, g, d, keys[..|keys| - 1]);
      var k := keys[|keys| - 1];
      if front.Err? then front
      else if d.vals[k].timeslot !in ctx.timeslots.vals then Err("KeyError")
      else Ok(CountEntry(ctx, front.value, Entry(g, k, d.vals[k])))
  }

  lemma CountEntriesSnoc(ctx: Inputs, st: Stats, g: string, d: Dict<Assignment>, keys: seq<string>, j: nat)
    requires Counters(st) && (forall k :: k in keys ==> k in d.vals) && j < |keys|
    ensures CountEntries(ctx, st, g, d, keys[..j + 1]) ==
      if CountEntries(ctx, st, g, d, keys[..j]).Err? then CountEntries(ctx, st, g, d, keys[..j])
      else if d.vals[keys[j]].timeslot !in ctx.timeslots.vals then Err("KeyError")
      else Ok(CountEntry(ctx, CountEntries(ctx, st, g, d, keys[..j]).value, Entry(g, keys[j], d.vals[keys[j]])))
  {
    assert keys[..j + 1][..j] == keys[..j];
  }

  /** A KeyError in a prefix of the keys is the KeyError of the whole group. */
  lemma {:induction false} CountEntriesErr(ctx: Inputs, st: Stats, g: string, d: Dict<Assignment>, keys: seq<string>, n: nat)
    requires Counters(st) && (forall k :: k in keys ==> k in d.vals)
    requires n <= |keys| && CountEntries(ctx, st, g, d, keys[..n]).Err?
    ensures CountEntries(ctx, st, g, d, keys).Err?
  {
    if n < |keys| {
      assert keys[..|keys| - 1][..n] == keys[..n];
      CountEntriesErr(ctx, st, g, d, keys[..|keys| - 1], n);
    } else {
      assert keys[..n] == keys;
    }
  }

  /** A group's entries count without error exactly when all their timeslots are known. */
  lemma {:induction false} CountEntriesKnown(ctx: Inputs, st: Stats, g: string, d: Dict<Assignment>, keys: seq<string>)
    requires Counters(st) && forall k :: k in keys ==> k in d.vals
    ensures CountEntries(ctx, st, g, d, keys).Ok? <==> forall k :: k in keys ==> d.vals[k].timeslot in ctx.timeslots.vals
  {
    if keys != [] {
      var front := keys[..|keys| - 1];
      assert forall k' :: k' in keys <==> k' in front || k' == keys[|keys| - 1];
      CountEntriesKnown(ctx, st, g, d, front);
    }
  }

  /** Counting a group's entries onto the statistics of `es` gives the statistics of `es` and those entries. */
  lemma {:induction false} CountEntriesValue(ctx: Inputs, es: seq<Entry>, groups: Counter, g: string, d: Dict<Assignment>, keys: seq<string>)
    requires forall k :: k in keys ==> k in d.vals
    requires CountEntries(ctx, StatsOf(ctx, es, groups), g, d, keys).Ok?
    ensures CountEntries(ctx, StatsOf(ctx, es, groups), g, d, keys).value == StatsOf(ctx, es + GroupEntries(g, d, keys), groups)
  {
    if keys == [] {
      assert es + [] == es;
    } else {
      var front := keys[..|keys| - 1];
      var e := Entry(g, keys[|keys| - 1], d.vals[keys[|keys| - 1]]);
      CountEntriesLast(ctx, StatsOf(ctx, es, groups), g, d, keys);
      CountEntriesValue(ctx, es, groups, g, d, front);
      StatsSnoc(ctx, es + GroupEntries(g, d, front), groups, e);
      GroupEntriesLast(es, g, d, keys);
    }
  }

  /** A successful count of `keys` is the successful count of all but the last key, plus the last entry. */
  lemma CountEntriesLast(ctx: Inputs, st: Stats, g: string, d: Dict<Assignment>, keys: seq<string>)
    requires Counters(st) && (forall k :: k in keys ==> k in d.vals) && keys != []
    requires CountEntries(ctx, st, g, d, keys).Ok?
    ensures CountEntries(ctx, st, g, d, keys[..|keys| - 1]).Ok?
    ensures CountEntries(ctx, st, g, d, keys).value ==
      CountEntry(ctx, CountEntries(ctx, st, g, d, keys[..|keys| - 1]).value, Entry(g, keys[|keys| - 1], d.vals[keys[|keys| - 1]]))
  {
  }

  lemma GroupEntriesLast(es: seq<Entry>, g: string, d: Dict<Assignment>, keys: seq<string>)
    requires (forall k :: k in keys ==> k in d.vals) && keys != []
    ensures es + GroupEntries(g, d, keys) == (es + GroupEntries(g, d, keys[..|keys| - 1])) + [Entry(g, keys[|keys| - 1], d.vals[keys[|keys| - 1]])]
  {
  }

  /** The entries of one group, counted onto `st`; KeyError at the first unknown timeslot. */
  method CountGroup(ctx: Inputs, st: Stats, g: string, d: Dict<Assignment>) returns (r: Result<Stats, string>)
    requires d.Valid() && Counters(st)
    ensures r == CountEntries(ctx, st, g, d, d.keys)
  {
    var cur := st;
    var j := 0;
    while j < |d.keys|
      invariant 0 <= j <= |d.keys|
      invariant CountEntries(ctx, st, g, d, d.keys[..j]) == Ok(cur)
    {
      var key := d.keys[j];
      var a := d.vals[key];
      CountEntriesSnoc(ctx, st, g, d, d.keys, j);
      if a.timeslot !in ctx.timeslots.vals {
        CountEntriesErr(ctx, st, g, d, d.keys, j + 1);
        CountEntriesFirstErr(ctx, st, g, d, d.keys, j + 1);
        return Err("KeyError");
      }
      cur := CountEntry(ctx, cur, Entry(g, key, a));
      j := j + 1;
    }
    assert d.keys[..j] == d.keys;
    r := Ok(cur);
  }

  /** Every KeyError is the same error value. */
  lemma {:induction false} CountEntriesFirstErr(ctx: Inputs, st: Stats, g: string, d: Dict<Assignment>, keys: seq<string>, n: nat)
    requires Counters(st) && (forall k :: k in keys ==> k in d.vals)
    ensures CountEntries(ctx, st, g, d, keys).Err? ==> CountEntries(ctx, st, g, d, keys) == Err("KeyError")
  {
    if keys != [] {
      CountEntriesFirstErr(ctx, st, g, d, keys[..|keys| - 1], n);
    }
  }

  /** `generate_summary_statistics`: the counters, or the KeyError of an unknown timeslot. */
  method GenerateSummaryStatistics(ctx: Inputs, s: Schedule) returns (r: Result<Stats, string>)
    requires ScheduleValid(s)
    ensures r == Summary(ctx, s)
  {
    var st := StatsOf(ctx, [], Empty());
    var i := 0;
    while i < |s.keys|
      invariant 0 <= i <= |s.keys|
      invariant st == StatsOf(ctx, AllEntries(s, s.keys[..i]), GroupSizes(s, s.keys[..i]))
      invariant KnownUpTo(ctx, s, i)
    {
      var g := s.keys[i];
      GroupStep(ctx, s, i);
      var next := CountGroup(ctx, st, g, s.vals[g]);
      if next.Err? {
        return Err("KeyError");
      }
      st := next.value.(groupSchedules := next.value.groupSchedules.Put(g, |s.vals[g].keys|));
      i := i + 1;
    }
    SummaryKnown(ctx, s);
    r := Ok(st);
  }

  /** The groups before the `i`-th have only known timeslots. */
  ghost predicate KnownUpTo(ctx: Inputs, s: Schedule, i: nat)
    requires ScheduleValid(s) && i <= |s.keys|
  {
    forall j, k :: 0 <= j < i && k in s.vals[s.keys[j]].vals ==> s.vals[s.keys[j]].vals[k].timeslot in ctx.timeslots.vals
  }

  /** Once every group has only known timeslots, the summary is the counters of all the entries. */
  lemma SummaryKnown(ctx: Inputs, s: Schedule)
    requires ScheduleValid(s) && KnownUpTo(ctx, s, |s.keys|)
    ensures Summary(ctx, s) == Ok(StatsOf(ctx, AllEntries(s, s.keys[..|s.keys|]), GroupSizes(s, s.keys[..|s.keys|])))
  {
    forall g, k | g in s.vals && k in s.vals[g].vals ensures s.vals[g].vals[k].timeslot in ctx.timeslots.vals {
      var j :| 0 <= j < |s.keys| && s.keys[j] == g;
    }
    assert s.keys[..|s.keys|] == s.keys;
  }

  /**
   * One group of the outer loop: counting its entries fails exactly when the
   * summary is a KeyError caused by that group; otherwise its size is recorded
   * and the counters are those of one more group.
   */
  lemma GroupStep(ctx: Inputs, s: Schedule, i: nat)
    requires ScheduleValid(s) && i < |s.keys| && KnownUpTo(ctx, s, i)
    ensures !CountEntries(ctx, StatsOf(ctx, AllEntries(s, s.keys[..i]), GroupSizes(s, s.keys[..i])), s.keys[i], s.vals[s.keys[i]], s.vals[s.keys[i]].keys).Ok? ==>
      Summary(ctx, s) == Err("KeyError")
    ensures CountEntries(ctx, StatsOf(ctx, AllEntries(s, s.keys[..i]), GroupSizes(s, s.keys[..i])), s.keys[i], s.vals[s.keys[i]], s.vals[s.keys[i]].keys).Ok? ==>
      KnownUpTo(ctx, s, i + 1)
    ensures CountEntries(ctx, StatsOf(ctx, AllEntries(s, s.keys[..i]), GroupSizes(s, s.keys[..i])), s.keys[i], s.vals[s.keys[i]], s.vals[s.keys[i]].keys).Ok? ==>
      var v := CountEntries(ctx, StatsOf(ctx, AllEntries(s, s.keys[..i]), GroupSizes(s, s.keys[..i])), s.keys[i], s.vals[s.keys[i]], s.vals[s.keys[i]].keys).value;
      v.(groupSchedules := v.groupSchedules.Put(s.keys[i], |s.vals[s.keys[i]].keys|)) ==
        StatsOf(ctx, AllEntries(s, s.keys[..i + 1]), GroupSizes(s, s.keys[..i + 1]))
  {
    var g := s.keys[i];
    var d := s.vals[g];
    var st := StatsOf(ctx, AllEntries(s, s.keys[..i]), GroupSizes(s, s.keys[..i]));
    CountEntriesKnown(ctx, st, g, d, d.keys);
    if CountEntries(ctx, st, g, d, d.keys).Ok? {
      GroupCounted(ctx, s, i);
    } else {
      GroupFails(ctx, s, g);
    }
  }

  lemma GroupCounted(ctx: Inputs, s: Schedule, i: nat)
    requires ScheduleValid(s) && i < |s.keys|
    requires CountEntries(ctx, StatsOf(ctx, AllEntries(s, s.keys[..i]), GroupSizes(s, s.keys[..i])), s.keys[i], s.vals[s.keys[i]], s.vals[s.keys[i]].keys).Ok?
    ensures
      var v := CountEntries(ctx, StatsOf(ctx, AllEntries(s, s.keys[..i]), GroupSizes(s, s.keys[..i])), s.keys[i], s.vals[s.keys[i]], s.vals[s.keys[i]].keys).value;
      v.(groupSchedules := v.groupSchedules.Put(s.keys[i], |s.vals[s.keys[i]].keys|)) ==
        StatsOf(ctx, AllEntries(s, s.keys[..i + 1]), GroupSizes(s, s.keys[..i + 1]))
  {
    var g := s.keys[i];
    var d := s.vals[g];
    var es := AllEntries(s, s.keys[..i]);
    var groups := GroupSizes(s, s.keys[..i]);
    CountEntriesValue(ctx, es, groups, g, d, d.keys);
    PrefixSnoc(s, i);
    StatsGroups(ctx, es + GroupEntries(g, d, d.keys), groups, groups.Put(g, |d.keys|));
  }

  /** One more group: its entries follow the others', and its size is recorded. */
  lemma PrefixSnoc(s: Schedule, i: nat)
    requires ScheduleValid(s) && i < |s.keys|
    ensures AllEntries(s, s.keys[..i + 1]) == AllEntries(s, s.keys[..i]) + GroupEntries(s.keys[i], s.vals[s.keys[i]], s.vals[s.keys[i]].keys)
    ensures GroupSizes(s, s.keys[..i + 1]) == GroupSizes(s, s.keys[..i]).Put(s.keys[i], |s.vals[s.keys[i]].keys|)
  {
    assert s.keys[..i + 1][..i] == s.keys[..i];
  }

  lemma StatsGroups(ctx: Inputs, es: seq<Entry>, groups: Counter, other: Counter)
    ensures StatsOf(ctx, es, groups).(groupSchedules := other) == StatsOf(ctx, es, other)
  {
  }

  lemma GroupFails(ctx: Inputs, s: Schedule, g: string)
    requires ScheduleValid(s) && g in s.vals
    requires !forall k :: k in s.vals[g].keys ==> s.vals[g].vals[k].timeslot in ctx.timeslots.vals
    ensures Summary(ctx, s) == Err("KeyError")
  {
    var k :| k in s.vals[g].keys && s.vals[g].vals[k].timeslot !in ctx.timeslots.vals;
    assert !SlotsKnown(ctx, s);
  }
}
