/**
 * The timetable projections of a schedule: the ordered day columns, the
 * ordered time rows, and one grid per group, per teacher and per room.  A
 * grid maps each (time, day) cell to its text; every cell starts empty and
 * an entry landing on a cell overwrites it, so the later entry in dict order
 * wins.
 */
module Timetables {
  import opened Wrappers
  import opened Seqs
  import opened Dicts
  import opened Entities
  import opened Sorting
  import opened Text

  // ------------------------------------------------------------ day columns

  /** The days a timetable may show, in display order. */
  const Week: seq<string> := ["Monday", "Tuesday", "Wednesday", "Thursday", "Friday", "Saturday"]

  /** The days some timeslot falls on. */
  function DaysPresent(ts: Dict<Timeslot>): set<string>
  {
    set k | k in ts.vals :: ts.vals[k].day
  }

  /** The elements of `week` that are in `present`, in the order of `week`. */
  function Keep(week: seq<string>, present: set<string>): (r: seq<string>)
    ensures forall d :: d in r <==> d in week && d in present
    ensures Distinct(week) ==> Distinct(r)
  {
    if week == [] then []
    else
      var rest := Keep(week[1..], present);
      if week[0] in present then
        assert Distinct(week) ==> week[0] !in week[1..];
        [week[0]] + rest
      else rest
  }

  /** The position of d in `week`. */
  function Pos(week: seq<string>, d: string): (p: nat)
    requires d in week
    ensures p < |week| && week[p] == d
  {
    if week[0] == d then 0 else 1 + Pos(week[1..], d)
  }

  lemma WeekDistinct()
    ensures Distinct(Week)
  {
  }

  /** Keep preserves the order of `week`. */
  lemma {:induction false} KeepInOrder(week: seq<string>, present: set<string>)
    requires Distinct(week)
    ensures forall i, j :: 0 <= i < j < |Keep(week, present)| ==>
      Pos(week, Keep(week, present)[i]) < Pos(week, Keep(week, present)[j])
  {
    if week != [] {
      var rest := Keep(week[1..], present);
      KeepInOrder(week[1..], present);
      forall d | d in rest ensures Pos(week, d) == 1 + Pos(week[1..], d) && Pos(week, d) > 0 {
        assert week[0] !in week[1..];
      }
    }
  }

  /** `_get_ordered_days`: the week's days that some timeslot falls on, in week order. */
  function OrderedDays(ts: Dict<Timeslot>): (days: seq<string>)
    ensures Distinct(days)
    ensures forall d :: d in days <==> d in Week && d in DaysPresent(ts)
  {
    WeekDistinct();
    Keep(Week, DaysPresent(ts))
  }

  /** Days come out in week order, Monday first; other day names are dropped. */
  lemma OrderedDaysInWeekOrder(ts: Dict<Timeslot>)
    ensures forall i, j :: 0 <= i < j < |OrderedDays(ts)| ==>
      Pos(Week, OrderedDays(ts)[i]) < Pos(Week, OrderedDays(ts)[j])
  {
    WeekDistinct();
    KeepInOrder(Week, DaysPresent(ts));
  }

  // ------------------------------------------------------------ time rows

  /** The time strings of the timeslots under `keys`, in order. */
  function TimeColumn(ts: Dict<Timeslot>, keys: seq<string>): (r: seq<string>)
    requires forall k :: k in keys ==> k in ts.vals
    ensures forall t :: t in r <==> exists k :: k in keys && ts.vals[k].time == t
  {
    if keys == [] then []
    else
      var front := keys[..|keys| - 1];
      assert forall k :: k in keys <==> k in front || k == keys[|keys| - 1];
      TimeColumn(ts, front) + [ts.vals[keys[|keys| - 1]].time]
  }

  /** The start of a time range: the text before the first '-' (the whole text when there is none). */
  function StartTime(t: string): (r: string)
    ensures '-' !in r
  {
    Split(t, '-')[0]
  }

  /** The sort key of `_get_ordered_times`, as a comparison. */
  function StartLe(): (le: (string, string) -> bool)
    ensures forall a, b :: le(a, b) == LexLe(StartTime(a), StartTime(b))
  {
    (a: string, b: string) => LexLe(StartTime(a), StartTime(b))
  }

  lemma StartLeIsTotalPreorder()
    ensures TotalPreorder(StartLe())
  {
    var le := StartLe();
    forall a, b ensures le(a, b) || le(b, a) {
      LexLeTotal(StartTime(a), StartTime(b));
    }
    forall a, b, c | le(a, b) && le(b, c) ensures le(a, c) {
      LexLeTransitive(StartTime(a), StartTime(b), StartTime(c));
    }
  }

  /**
   * `_get_ordered_times`: every distinct time string once, sorted by start
   * time.  Python sorts a set, whose iteration order is not specified; the
   * model starts from the order of first appearance.
   */
  function OrderedTimes(ts: Dict<Timeslot>): (times: seq<string>)
    requires ts.Valid()
    ensures Distinct(times)
    ensures forall t :: t in times <==> exists k :: k in ts.vals && ts.vals[k].time == t
    ensures SortedBy(times, StartLe())
  {
    var present := Dedup(TimeColumn(ts, ts.keys));
    StartLeIsTotalPreorder();
    SortByIsSorted(present, StartLe());
    SortByDistinct(present, StartLe());
    var r := SortBy(present, StartLe());
    TimesPresent(ts, present, r);
    r
  }

  /** Deduplicating and sorting the time column keeps exactly the timeslots' times. */
  lemma TimesPresent(ts: Dict<Timeslot>, present: seq<string>, r: seq<string>)
    requires ts.Valid() && present == Dedup(TimeColumn(ts, ts.keys)) && multiset(r) == multiset(present)
    ensures forall t :: t in r <==> exists k :: k in ts.vals && ts.vals[k].time == t
  {
    var col := TimeColumn(ts, ts.keys);
    forall t ensures t in r <==> exists k :: k in ts.vals && ts.vals[k].time == t {
      assert t in r <==> t in multiset(present);
      if t in col {
        var i :| 0 <= i < |col| && col[i] == t;
      }
      if t in present {
        var i :| 0 <= i < |present| && present[i] == t;
      }
      assert t in present <==> t in col;
    }
  }

  // ------------------------------------------------------------ grids

  /** A cell is addressed by (time, day), as `timetable.loc[time, day]`. */
  type Cell = (string, string)

  type Grid = map<Cell, string>

  /** The generator's state: its inputs and the row and column labels it derives from them. */
  datatype Generator = Generator(schedule: Schedule, ctx: Inputs, days: seq<string>, times: seq<string>)

  /** `TimetableGenerator(...)`: the days and times are ordered once, at construction. */
  function NewGenerator(s: Schedule, ctx: Inputs): (gen: Generator)
    requires ctx.Valid()
    ensures gen.days == OrderedDays(ctx.timeslots) && gen.times == OrderedTimes(ctx.timeslots)
    ensures gen.schedule == s && gen.ctx == ctx
  {
    Generator(s, ctx, OrderedDays(ctx.timeslots), OrderedTimes(ctx.timeslots))
  }

  function Cells(gen: Generator): set<Cell>
  {
    set t, d | t in gen.times && d in gen.days :: (t, d)
  }

  /** An empty DataFrame with the times as rows and the days as columns, filled with ''. */
  function Blank(gen: Generator): (g: Grid)
    ensures g.Keys == Cells(gen)
    ensures forall c :: c in g ==> g[c] == ""
  {
    map c | c in Cells(gen) :: ""
  }

  /** Which timetable is being filled: the group's own, a teacher's or a room's. */
  datatype Sheet = ClassSheet | TeacherSheet(teacher: string) | RoomSheet(room: string)

  /** `teachers.get(id, {}).get('teacher_name', id)`. */
  function TeacherName(ctx: Inputs, tid: string): string
  {
    if tid in ctx.teachers.vals then ctx.teachers.vals[tid].name else tid
  }

  /**
   * The text an entry writes into a sheet, if the sheet shows it: every
   * entry of the group's own sheet, and the entries of the sheet's teacher
   * or room.
   */
  function Content(ctx: Inputs, sheet: Sheet, g: string, key: string, a: Assignment): (r: Option<string>)
    ensures r.Some? ==> |r.value| >= 2
    ensures r.Some? <==> (sheet.TeacherSheet? ==> a.teacher == sheet.teacher) && (sheet.RoomSheet? ==> a.room == sheet.room)
  {
    match sheet
    case ClassSheet => Some(key + "\n" + TeacherName(ctx, a.teacher) + "\n" + a.room)
    case TeacherSheet(tid) => if a.teacher == tid then Some(g + "\n" + key + "\n" + a.room) else None
    case RoomSheet(rid) => if a.room == rid then Some(g + "\n" + key + "\n" + TeacherName(ctx, a.teacher)) else None
  }

  /** The cell an entry lands on: none for an unknown timeslot, or a day or time the grid lacks. */
  function Target(gen: Generator, a: Assignment): (r: Option<Cell>)
    ensures r.Some? ==> r.value in Cells(gen)
  {
    var ts := gen.ctx.timeslots;
    if a.timeslot in ts.vals && ts.vals[a.timeslot].day in gen.days && ts.vals[a.timeslot].time in gen.times
    then Some((ts.vals[a.timeslot].time, ts.vals[a.timeslot].day))
    else None
  }

  /** The entry writes cell c of the sheet. */
  predicate Writes(gen: Generator, sheet: Sheet, g: string, key: string, a: Assignment, c: Cell)
  {
    Content(gen.ctx, sheet, g, key, a).Some? && Target(gen, a) == Some(c)
  }

  /** One entry's write, if any. */
  function Paint(grid: Grid, gen: Generator, sheet: Sheet, g: string, key: string, a: Assignment): Grid
  {
    var text := Content(gen.ctx, sheet, g, key, a);
    var cell := Target(gen, a);
    if text.Some? && cell.Some? then grid[cell.value := text.value] else grid
  }

  /** The writes of a group's entries under `keys`, in order. */
  function PaintEntries(grid: Grid, gen: Generator, sheet: Sheet, g: string, d: Dict<Assignment>, keys: seq<string>): (r: Grid)
    requires forall k :: k in keys ==> k in d.vals
    ensures Cells(gen) <= grid.Keys ==> r.Keys == grid.Keys
  {
    if keys == [] then grid
    else
      var k := keys[|keys| - 1];
      Paint(PaintEntries(grid, gen, sheet, g, d, keys[..|keys| - 1]), gen, sheet, g, k, d.vals[k])
  }

  /** The writes of the groups `gs`, each with its entries in order. */
  function PaintGroups(grid: Grid, gen: Generator, sheet: Sheet, gs: seq<string>): (r: Grid)
    requires ScheduleValid(gen.schedule) && forall g :: g in gs ==> g in gen.schedule.vals
    ensures Cells(gen) <= grid.Keys ==> r.Keys == grid.Keys
  {
    if gs == [] then grid
    else
      var g := gs[|gs| - 1];
      var d := gen.schedule.vals[g];
      PaintEntries(PaintGroups(grid, gen, sheet, gs[..|gs| - 1]), gen, sheet, g, d, d.keys)
  }

  /** A group's timetable: its own entries, on a blank grid. */
  function ClassGrid(gen: Generator, g: string): Grid
    requires ScheduleValid(gen.schedule)
  {
    var s := gen.schedule;
    if g in s.vals then PaintEntries(Blank(gen), gen, ClassSheet, g, s.vals[g], s.vals[g].keys) else Blank(gen)
  }

  /** A teacher's or a room's timetable: every group's entries for it, on a blank grid. */
  function SheetGrid(gen: Generator, sheet: Sheet): Grid
    requires ScheduleValid(gen.schedule)
  {
    PaintGroups(Blank(gen), gen, sheet, gen.schedule.keys)
  }

  // ------------------------------------------------------------ what a grid shows

  /** A cell no entry writes keeps its value. */
  lemma {:induction false} PaintEntriesUntouched(grid: Grid, gen: Generator, sheet: Sheet, g: string, d: Dict<Assignment>, keys: seq<string>, c: Cell)
    requires forall k :: k in keys ==> k in d.vals
    requires forall j :: 0 <= j < |keys| ==> !Writes(gen, sheet, g, keys[j], d.vals[keys[j]], c)
    ensures (c in PaintEntries(grid, gen, sheet, g, d, keys) <==> c in grid)
    ensures c in grid ==> PaintEntries(grid, gen, sheet, g, d, keys)[c] == grid[c]
  {
    if keys != [] {
      var front := keys[..|keys| - 1];
      assert forall j :: 0 <= j < |front| ==> front[j] == keys[j];
      PaintEntriesUntouched(grid, gen, sheet, g, d, front, c);
    }
  }

  /** The last entry that writes a cell decides its text. */
  lemma {:induction false} PaintEntriesLast(grid: Grid, gen: Generator, sheet: Sheet, g: string, d: Dict<Assignment>, keys: seq<string>, c: Cell, j: nat)
    requires forall k :: k in keys ==> k in d.vals
    requires j < |keys| && Writes(gen, sheet, g, keys[j], d.vals[keys[j]], c)
    requires forall j' :: j < j' < |keys| ==> !Writes(gen, sheet, g, keys[j'], d.vals[keys[j']], c)
    ensures c in PaintEntries(grid, gen, sheet, g, d, keys)
    ensures PaintEntries(grid, gen, sheet, g, d, keys)[c] == Content(gen.ctx, sheet, g, keys[j], d.vals[keys[j]]).value
  {
    var front := keys[..|keys| - 1];
    assert forall j' :: 0 <= j' < |front| ==> front[j'] == keys[j'];
    if j < |keys| - 1 {
      PaintEntriesLast(grid, gen, sheet, g, d, front, c, j);
    }
  }

  /** A cell some entry writes holds the text of one of the entries that write it. */
  lemma {:induction false} PaintEntriesWritten(grid: Grid, gen: Generator, sheet: Sheet, g: string, d: Dict<Assignment>, keys: seq<string>, c: Cell)
    requires forall k :: k in keys ==> k in d.vals
    requires exists j :: 0 <= j < |keys| && Writes(gen, sheet, g, keys[j], d.vals[keys[j]], c)
    ensures c in PaintEntries(grid, gen, sheet, g, d, keys)
    ensures exists k :: (k in keys && Writes(gen, sheet, g, k, d.vals[k], c) &&
      PaintEntries(grid, gen, sheet, g, d, keys)[c] == Content(gen.ctx, sheet, g, k, d.vals[k]).value)
  {
    var last := keys[|keys| - 1];
    var front := keys[..|keys| - 1];
    if !Writes(gen, sheet, g, last, d.vals[last], c) {
      var j :| 0 <= j < |keys| && Writes(gen, sheet, g, keys[j], d.vals[keys[j]], c);
      assert j < |front| && front[j] == keys[j];
      PaintEntriesWritten(grid, gen, sheet, g, d, front, c);
      var k :| k in front && Writes(gen, sheet, g, k, d.vals[k], c) &&
        PaintEntries(grid, gen, sheet, g, d, front)[c] == Content(gen.ctx, sheet, g, k, d.vals[k]).value;
      assert k in keys;
    }
  }

  /** An entry of the groups `gs` that writes cell c. */
  ghost predicate GroupsWrite(gen: Generator, sheet: Sheet, gs: seq<string>, c: Cell)
    requires ScheduleValid(gen.schedule) && forall g :: g in gs ==> g in gen.schedule.vals
  {
    exists g, k :: g in gs && k in gen.schedule.vals[g].vals && Writes(gen, sheet, g, k, gen.schedule.vals[g].vals[k], c)
  }

  /** `text` is what some entry of the groups `gs` writes into cell c. */
  ghost predicate ShownBy(gen: Generator, sheet: Sheet, gs: seq<string>, c: Cell, text: string)
    requires ScheduleValid(gen.schedule) && forall g :: g in gs ==> g in gen.schedule.vals
  {
    exists g, k :: g in gs && k in gen.schedule.vals[g].vals && Writes(gen, sheet, g, k, gen.schedule.vals[g].vals[k], c) &&
      text == Content(gen.ctx, sheet, g, k, gen.schedule.vals[g].vals[k]).value
  }

  lemma ShownByMore(gen: Generator, sheet: Sheet, gs: seq<string>, more: seq<string>, c: Cell, text: string)
    requires ScheduleValid(gen.schedule) && forall g :: g in more ==> g in gen.schedule.vals
    requires forall g :: g in gs ==> g in more
    requires ShownBy(gen, sheet, gs, c, text)
    ensures ShownBy(gen, sheet, more, c, text)
  {
  }

  /** A cell no entry of the groups writes keeps its value. */
  lemma {:induction false} PaintGroupsUntouched(grid: Grid, gen: Generator, sheet: Sheet, gs: seq<string>, c: Cell)
    requires ScheduleValid(gen.schedule) && forall g :: g in gs ==> g in gen.schedule.vals
    requires !GroupsWrite(gen, sheet, gs, c)
    ensures (c in PaintGroups(grid, gen, sheet, gs) <==> c in grid)
    ensures c in grid ==> PaintGroups(grid, gen, sheet, gs)[c] == grid[c]
  {
    if gs != [] {
      var g := gs[|gs| - 1];
      var front := gs[..|gs| - 1];
      var d := gen.schedule.vals[g];
      assert !GroupsWrite(gen, sheet, front, c) by {
        assert forall h :: h in front ==> h in gs;
      }
      PaintGroupsUntouched(grid, gen, sheet, front, c);
      forall j | 0 <= j < |d.keys| ensures !Writes(gen, sheet, g, d.keys[j], d.vals[d.keys[j]], c) {
        assert d.keys[j] in d.vals;
      }
      PaintEntriesUntouched(PaintGroups(grid, gen, sheet, front), gen, sheet, g, d, d.keys, c);
    }
  }

  /** A cell some entry of the groups writes holds the text of one of the entries that write it. */
  lemma {:induction false} PaintGroupsWritten(grid: Grid, gen: Generator, sheet: Sheet, gs: seq<string>, c: Cell)
    requires ScheduleValid(gen.schedule) && forall g :: g in gs ==> g in gen.schedule.vals
    requires GroupsWrite(gen, sheet, gs, c)
    ensures c in PaintGroups(grid, gen, sheet, gs)
    ensures ShownBy(gen, sheet, gs, c, PaintGroups(grid, gen, sheet, gs)[c])
  {
    var g := gs[|gs| - 1];
    var front := gs[..|gs| - 1];
    var d := gen.schedule.vals[g];
    var mid := PaintGroups(grid, gen, sheet, front);
    if exists j :: 0 <= j < |d.keys| && Writes(gen, sheet, g, d.keys[j], d.vals[d.keys[j]], c) {
      LastGroupWritten(grid, gen, sheet, gs, c, g, d);
    } else {
      GroupsWriteFront(gen, sheet, gs, c, g, d);
      PaintGroupsWritten(grid, gen, sheet, front, c);
      FrontGroupsWritten(grid, gen, sheet, gs, c, g, d);
    }
  }

  /** When the last group writes nothing into c, an earlier group does. */
  lemma GroupsWriteFront(gen: Generator, sheet: Sheet, gs: seq<string>, c: Cell, g: string, d: Dict<Assignment>)
    requires ScheduleValid(gen.schedule) && forall g :: g in gs ==> g in gen.schedule.vals
    requires gs != [] && g == gs[|gs| - 1] && d == gen.schedule.vals[g]
    requires GroupsWrite(gen, sheet, gs, c)
    requires forall j :: 0 <= j < |d.keys| ==> !Writes(gen, sheet, g, d.keys[j], d.vals[d.keys[j]], c)
    ensures GroupsWrite(gen, sheet, gs[..|gs| - 1], c)
  {
    forall k | k in d.vals ensures !Writes(gen, sheet, g, k, d.vals[k], c) {
      var j :| 0 <= j < |d.keys| && d.keys[j] == k;
    }
    var h, k :| h in gs && k in gen.schedule.vals[h].vals && Writes(gen, sheet, h, k, gen.schedule.vals[h].vals[k], c);
    assert h != g;
    assert h in gs[..|gs| - 1];
  }

  /** When only earlier groups write a cell, the last group leaves it as they did. */
  lemma FrontGroupsWritten(grid: Grid, gen: Generator, sheet: Sheet, gs: seq<string>, c: Cell, g: string, d: Dict<Assignment>)
    requires ScheduleValid(gen.schedule) && forall g :: g in gs ==> g in gen.schedule.vals
    requires gs != [] && g == gs[|gs| - 1] && d == gen.schedule.vals[g]
    requires forall j :: 0 <= j < |d.keys| ==> !Writes(gen, sheet, g, d.keys[j], d.vals[d.keys[j]], c)
    requires c in PaintGroups(grid, gen, sheet, gs[..|gs| - 1])
    requires ShownBy(gen, sheet, gs[..|gs| - 1], c, PaintGroups(grid, gen, sheet, gs[..|gs| - 1])[c])
    ensures c in PaintGroups(grid, gen, sheet, gs)
    ensures ShownBy(gen, sheet, gs, c, PaintGroups(grid, gen, sheet, gs)[c])
  {
    var mid := PaintGroups(grid, gen, sheet, gs[..|gs| - 1]);
    PaintEntriesUntouched(mid, gen, sheet, g, d, d.keys, c);
    ShownByMore(gen, sheet, gs[..|gs| - 1], gs, c, mid[c]);
  }

  /** When the last group writes a cell, the cell holds the text of one of its writers. */
  lemma LastGroupWritten(grid: Grid, gen: Generator, sheet: Sheet, gs: seq<string>, c: Cell, g: string, d: Dict<Assignment>)
    requires ScheduleValid(gen.schedule) && forall g :: g in gs ==> g in gen.schedule.vals
    requires gs != [] && g == gs[|gs| - 1] && d == gen.schedule.vals[g]
    requires exists j :: 0 <= j < |d.keys| && Writes(gen, sheet, g, d.keys[j], d.vals[d.keys[j]], c)
    ensures c in PaintGroups(grid, gen, sheet, gs)
    ensures ShownBy(gen, sheet, gs, c, PaintGroups(grid, gen, sheet, gs)[c])
  {
    var mid := PaintGroups(grid, gen, sheet, gs[..|gs| - 1]);
    PaintEntriesWritten(mid, gen, sheet, g, d, d.keys, c);
    var k :| k in d.keys && Writes(gen, sheet, g, k, d.vals[k], c) &&
      PaintEntries(mid, gen, sheet, g, d, d.keys)[c] == Content(gen.ctx, sheet, g, k, d.vals[k]).value;
    assert g in gs && k in d.vals;
  }

  /**
   * A group's timetable has a row per time and a column per day, and a cell
   * shows text exactly when one of the group's entries falls on it
   * (ClassGridLast says which entry's text).
   */
  lemma ClassGridShows(gen: Generator, g: string, c: Cell)
    requires ScheduleValid(gen.schedule) && g in gen.schedule.vals && c in Cells(gen)
    ensures ClassGrid(gen, g).Keys == Cells(gen)
    ensures ClassGrid(gen, g)[c] != "" <==>
      exists k :: k in gen.schedule.vals[g].vals && Target(gen, gen.schedule.vals[g].vals[k]) == Some(c)
  {
    var d := gen.schedule.vals[g];
    if exists j :: 0 <= j < |d.keys| && Writes(gen, ClassSheet, g, d.keys[j], d.vals[d.keys[j]], c) {
      PaintEntriesWritten(Blank(gen), gen, ClassSheet, g, d, d.keys, c);
    } else {
      PaintEntriesUntouched(Blank(gen), gen, ClassSheet, g, d, d.keys, c);
      forall k | k in d.vals ensures Target(gen, d.vals[k]) != Some(c) {
        var j :| 0 <= j < |d.keys| && d.keys[j] == k;
      }
    }
  }

  /**
   * Of the group's entries falling on one cell, the last in dict order is
   * shown: its key, its teacher's name and its room, one per line.
   */
  lemma ClassGridLast(gen: Generator, g: string, c: Cell, j: nat)
    requires ScheduleValid(gen.schedule) && g in gen.schedule.vals
    requires j < |gen.schedule.vals[g].keys|
    requires Target(gen, gen.schedule.vals[g].vals[gen.schedule.vals[g].keys[j]]) == Some(c)
    requires forall j' :: j < j' < |gen.schedule.vals[g].keys| ==>
      Target(gen, gen.schedule.vals[g].vals[gen.schedule.vals[g].keys[j']]) != Some(c)
    ensures c in ClassGrid(gen, g)
    ensures ClassGrid(gen, g)[c] == gen.schedule.vals[g].keys[j] + "\n" +
      TeacherName(gen.ctx, gen.schedule.vals[g].vals[gen.schedule.vals[g].keys[j]].teacher) + "\n" +
      gen.schedule.vals[g].vals[gen.schedule.vals[g].keys[j]].room
  {
    var d := gen.schedule.vals[g];
    PaintEntriesLast(Blank(gen), gen, ClassSheet, g, d, d.keys, c, j);
  }

  /**
   * A teacher's (or room's) timetable has a row per time and a column per
   * day, and a cell shows text exactly when an entry of that teacher (or
   * room), in any group, falls on it; the text is then one such entry's.
   */
  lemma SheetGridShows(gen: Generator, sheet: Sheet, c: Cell)
    requires ScheduleValid(gen.schedule) && !sheet.ClassSheet? && c in Cells(gen)
    ensures SheetGrid(gen, sheet).Keys == Cells(gen)
    ensures SheetGrid(gen, sheet)[c] != "" <==>
      exists g, k :: g in gen.schedule.vals && k in gen.schedule.vals[g].vals &&
        (sheet.TeacherSheet? ==> gen.schedule.vals[g].vals[k].teacher == sheet.teacher) &&
        (sheet.RoomSheet? ==> gen.schedule.vals[g].vals[k].room == sheet.room) &&
        Target(gen, gen.schedule.vals[g].vals[k]) == Some(c)
  {
    var s := gen.schedule;
    if GroupsWrite(gen, sheet, s.keys, c) {
      PaintGroupsWritten(Blank(gen), gen, sheet, s.keys, c);
    } else {
      PaintGroupsUntouched(Blank(gen), gen, sheet, s.keys, c);
    }
  }

  // ------------------------------------------------------------ the builders

  /** The inner loop of every builder: one group's entries, in dict order, onto a grid. */
  method FillEntries(grid: Grid, gen: Generator, sheet: Sheet, g: string, d: Dict<Assignment>) returns (r: Grid)
    requires d.Valid()
    ensures r == PaintEntries(grid, gen, sheet, g, d, d.keys)
  {
    r := grid;
    var i := 0;
    while i < |d.keys|
      invariant 0 <= i <= |d.keys|
      invariant r == PaintEntries(grid, gen, sheet, g, d, d.keys[..i])
    {
      var key := d.keys[i];
      var a := d.vals[key];
      PaintEntriesSnoc(grid, gen, sheet, g, d, d.keys, i);
      var text := Content(gen.ctx, sheet, g, key, a);
      var cell := Target(gen, a);
      if text.Some? && cell.Some? {
        r := r[cell.value := text.value];
      }
      i := i + 1;
    }
    assert d.keys[..i] == d.keys;
  }

  lemma PaintEntriesSnoc(grid: Grid, gen: Generator, sheet: Sheet, g: string, d: Dict<Assignment>, keys: seq<string>, i: nat)
    requires forall k :: k in keys ==> k in d.vals
    requires i < |keys|
    ensures PaintEntries(grid, gen, sheet, g, d, keys[..i + 1]) ==
      Paint(PaintEntries(grid, gen, sheet, g, d, keys[..i]), gen, sheet, g, keys[i], d.vals[keys[i]])
  {
    assert keys[..i + 1][..i] == keys[..i];
  }

  /** `generate_class_timetable`: one grid per group id, groups without entries included. */
  method GenerateClassTimetable(gen: Generator) returns (grids: map<string, Grid>)
    requires ScheduleValid(gen.schedule) && gen.ctx.groups.Valid()
    ensures grids.Keys == gen.ctx.groups.vals.Keys
    ensures forall g :: g in grids ==> grids[g] == ClassGrid(gen, g)
  {
    var gs := gen.ctx.groups.keys;
    grids := map[];
    var i := 0;
    while i < |gs|
      invariant 0 <= i <= |gs|
      invariant grids.Keys == set j | 0 <= j < i :: gs[j]
      invariant forall g :: g in grids ==> grids[g] == ClassGrid(gen, g)
    {
      var g := gs[i];
      var grid := Blank(gen);
      if g in gen.schedule.vals {
        grid := FillEntries(grid, gen, ClassSheet, g, gen.schedule.vals[g]);
      }
      grids := grids[g := grid];
      i := i + 1;
    }
    assert forall g :: g in gen.ctx.groups.vals ==> exists j :: 0 <= j < i && gs[j] == g;
  }

  /** The middle loop of the teacher and room builders: every group of the schedule, in dict order. */
  method FillGroups(grid: Grid, gen: Generator, sheet: Sheet) returns (r: Grid)
    requires ScheduleValid(gen.schedule)
    ensures r == PaintGroups(grid, gen, sheet, gen.schedule.keys)
  {
    var s := gen.schedule;
    r := grid;
    var i := 0;
    while i < |s.keys|
      invariant 0 <= i <= |s.keys|
      invariant r == PaintGroups(grid, gen, sheet, s.keys[..i])
    {
      var g := s.keys[i];
      PaintGroupsSnoc(grid, gen, sheet, i);
      r := FillEntries(r, gen, sheet, g, s.vals[g]);
      i := i + 1;
    }
    assert s.keys[..i] == s.keys;
  }

  lemma PaintGroupsSnoc(grid: Grid, gen: Generator, sheet: Sheet, i: nat)
    requires ScheduleValid(gen.schedule) && i < |gen.schedule.keys|
    ensures forall g :: g in gen.schedule.keys[..i + 1] ==> g in gen.schedule.vals
    ensures PaintGroups(grid, gen, sheet, gen.schedule.keys[..i + 1]) ==
      PaintEntries(PaintGroups(grid, gen, sheet, gen.schedule.keys[..i]), gen, sheet, gen.schedule.keys[i],
        gen.schedule.vals[gen.schedule.keys[i]], gen.schedule.vals[gen.schedule.keys[i]].keys)
  {
    var ks := gen.schedule.keys;
    assert ks[..i + 1][..i] == ks[..i] && ks[..i + 1][i] == ks[i];
  }

  /** `generate_teacher_timetable` and `generate_room_timetable`: one grid per id of `ids`. */
  method GenerateSheets(gen: Generator, ids: seq<string>, teachers: bool) returns (grids: map<string, Grid>)
    requires ScheduleValid(gen.schedule)
    ensures grids.Keys == set j | 0 <= j < |ids| :: ids[j]
    ensures forall id :: id in grids ==> grids[id] == SheetGrid(gen, if teachers then TeacherSheet(id) else RoomSheet(id))
  {
    grids := map[];
    var i := 0;
    while i < |ids|
      invariant 0 <= i <= |ids|
      invariant grids.Keys == set j | 0 <= j < i :: ids[j]
      invariant forall id :: id in grids ==> grids[id] == SheetGrid(gen, if teachers then TeacherSheet(id) else RoomSheet(id))
    {
      var id := ids[i];
      var grid := FillGroups(Blank(gen), gen, if teachers then TeacherSheet(id) else RoomSheet(id));
      grids := grids[id := grid];
      i := i + 1;
    }
  }

  /** `generate_teacher_timetable`: one grid per teacher id. */
  method GenerateTeacherTimetable(gen: Generator) returns (grids: map<string, Grid>)
    requires ScheduleValid(gen.schedule) && gen.ctx.teachers.Valid()
    ensures grids.Keys == gen.ctx.teachers.vals.Keys
    ensures forall t :: t in grids ==> grids[t] == SheetGrid(gen, TeacherSheet(t))
  {
    var ids := gen.ctx.teachers.keys;
    grids := GenerateSheets(gen, ids, true);
    assert forall t :: t in gen.ctx.teachers.vals ==> exists j :: 0 <= j < |ids| && ids[j] == t;
  }

  /** `generate_room_timetable`: one grid per room id. */
  method GenerateRoomTimetable(gen: Generator) returns (grids: map<string, Grid>)
    requires ScheduleValid(gen.schedule) && gen.ctx.rooms.Valid()
    ensures grids.Keys == gen.ctx.rooms.vals.Keys
    ensures forall r :: r in grids ==> grids[r] == SheetGrid(gen, RoomSheet(r))
  {
    var ids := gen.ctx.rooms.keys;
    grids := GenerateSheets(gen, ids, false);
    assert forall r :: r in gen.ctx.rooms.vals ==> exists j :: 0 <= j < |ids| && ids[j] == r;
  }
}
