/**
 * What the scheduler offers the solver: the weekly instances of each course
 * a group takes, the teachers who handle a course, the rooms whose type
 * suits it, and every (window, teacher, room) combination for an instance.
 */
module Candidates {
  import opened Text
  import opened Seqs
  import opened Dicts
  import opened Entities
  import opened Slots

  /** `course_type_frequency.get(type, 1)`: TH 3, LAB 2, PROJECT and PR 1, any other type 1. */
  function Frequency(kind: string): (f: nat)
    ensures 1 <= f <= 3
    ensures f == 3 <==> kind == "TH"
    ensures f == 2 <==> kind == "LAB"
  {
    if kind == "TH" then 3 else if kind == "LAB" then 2 else 1
  }

  /** `f"{course_id}_{instance}"`. */
  function InstanceKey(course: string, k: nat): string
  {
    course + "_" + NatToString(k)
  }

  /** Instance keys never collide: the text after the last '_' is the instance number. */
  lemma InstanceKeyInjective(c1: string, k1: nat, c2: string, k2: nat)
    requires InstanceKey(c1, k1) == InstanceKey(c2, k2)
    ensures c1 == c2 && k1 == k2
  {
    SplitAtLastUnderscore(c1, NatToString(k1), c2, NatToString(k2));
    NatToStringInjective(k1, k2);
  }

  /** Text glued with '_' to an underscore-free tail splits back at that '_'. */
  lemma SplitAtLastUnderscore(a1: string, b1: string, a2: string, b2: string)
    requires a1 + "_" + b1 == a2 + "_" + b2
    requires '_' !in b1 && '_' !in b2
    ensures a1 == a2 && b1 == b2
  {
    var key := a1 + "_" + b1;
    if |b1| < |b2| {
      UnderscoreBeforeTail(a1, b1, a2, b2);
    } else if |b2| < |b1| {
      UnderscoreBeforeTail(a2, b2, a1, b1);
    } else {
      assert b1 == key[|key| - |b1|..] == b2;
      assert a1 == key[..|a1|] == a2;
    }
  }

  lemma UnderscoreBeforeTail(a1: string, b1: string, a2: string, b2: string)
    requires a1 + "_" + b1 == a2 + "_" + b2
    requires |b1| < |b2|
    ensures '_' in b2
  {
    var key := a1 + "_" + b1;
    var p := |key| - |b1| - 1;
    assert key[p] == '_';
    assert key[p] == b2[p - (|key| - |b2|)];
  }

  /** `instance_key.split('_')` is [course id, number] when the course id holds no '_'. */
  lemma SplitInstanceKey(c: string, k: nat)
    requires '_' !in c
    ensures Split(InstanceKey(c, k), '_') == [c, NatToString(k)]
    ensures Split(InstanceKey(c, k), '_')[0] == c
  {
    assert Join([c, NatToString(k)], '_') == InstanceKey(c, k);
    SplitJoin([c, NatToString(k)], '_');
  }

  /** One weekly session of a course. */
  datatype Instance = Instance(course: string, k: nat)
  {
    function Key(): string
    {
      InstanceKey(course, k)
    }
  }

  /** The instances `<course>_1 .. <course>_f` of one course id; none for an unknown id. */
  function CourseInstances(courses: Dict<Course>, c: string): seq<Instance>
  {
    if c in courses.vals then
      var f := Frequency(courses.vals[c].kind);
      seq(f, i requires 0 <= i < f => Instance(c, i + 1))
    else []
  }

  /** The instances created for a group, in creation order; a course listed twice adds nothing. */
  function GroupInstances(ctx: Inputs, g: string): seq<Instance>
  {
    if g in ctx.groups.vals then
      var cs := ctx.groups.vals[g].courses;
      Dedup(Concat(seq(|cs|, i requires 0 <= i < |cs| => CourseInstances(ctx.courses, cs[i]))))
    else []
  }

  /** An instance the scheduler creates for a group. */
  predicate IsInstance(ctx: Inputs, g: string, inst: Instance)
  {
    && g in ctx.groups.vals
    && inst.course in ctx.groups.vals[g].courses
    && inst.course in ctx.courses.vals
    && 1 <= inst.k <= Frequency(ctx.courses.vals[inst.course].kind)
  }

  /**
   * A group gets instances 1..f of every listed course that exists, f the
   * frequency of its type, once each and with distinct keys.
   */
  lemma GroupInstancesMembers(ctx: Inputs, g: string)
    ensures forall inst :: inst in GroupInstances(ctx, g) <==> IsInstance(ctx, g, inst)
    ensures Distinct(GroupInstances(ctx, g))
    ensures forall i, j :: 0 <= i < j < |GroupInstances(ctx, g)| ==>
      GroupInstances(ctx, g)[i].Key() != GroupInstances(ctx, g)[j].Key()
  {
    var insts := GroupInstances(ctx, g);
    if g in ctx.groups.vals {
      var cs := ctx.groups.vals[g].courses;
      var per := seq(|cs|, i requires 0 <= i < |cs| => CourseInstances(ctx.courses, cs[i]));
      forall inst ensures inst in insts <==> IsInstance(ctx, g, inst) {
        ConcatMembers(per, inst);
        if IsInstance(ctx, g, inst) {
          var i :| 0 <= i < |cs| && cs[i] == inst.course;
          assert per[i][inst.k - 1] == inst;
        }
      }
    }
    forall i, j | 0 <= i < j < |insts| ensures insts[i].Key() != insts[j].Key() {
      if insts[i].Key() == insts[j].Key() {
        InstanceKeyInjective(insts[i].course, insts[i].k, insts[j].course, insts[j].k);
      }
    }
  }

  lemma InstanceMember(ctx: Inputs, g: string, inst: Instance)
    ensures inst in GroupInstances(ctx, g) <==> IsInstance(ctx, g, inst)
  {
    GroupInstancesMembers(ctx, g);
  }

  /** Teacher t lists course c among the courses it handles. */
  predicate Handles(teachers: Dict<Teacher>, t: string, c: string)
  {
    t in teachers.vals && c in teachers.vals[t].coursesHandled
  }

  /** `[t for t in teacher_ids if course_id in teachers[t]['courses_handled']]`. */
  function SuitableTeachers(teachers: Dict<Teacher>, c: string): seq<string>
  {
    Filter(teachers.keys, t => Handles(teachers, t, c))
  }

  /** The qualified teachers are exactly the teachers handling the course, in teacher order, once each. */
  lemma SuitableTeachersFacts(teachers: Dict<Teacher>, c: string)
    requires teachers.Valid()
    ensures forall t :: t in SuitableTeachers(teachers, c) <==> t in teachers.keys && Handles(teachers, t, c)
    ensures Distinct(SuitableTeachers(teachers, c))
    ensures SubsequenceOf(SuitableTeachers(teachers, c), teachers.keys)
  {
    forall t ensures t in SuitableTeachers(teachers, c) <==> t in teachers.keys && Handles(teachers, t, c) {
      FilterMembers(teachers.keys, t => Handles(teachers, t, c), t);
    }
    FilterOfDistinct(teachers.keys, t => Handles(teachers, t, c));
    FilterIsSubsequence(teachers.keys, t => Handles(teachers, t, c));
  }

  /** The type rule: LAB wants 'lab', PROJECT 'project', TH and PR 'classroom' in the lower-cased room type. */
  predicate RoomMatches(courseType: string, roomType: string)
  {
    var t := Lower(roomType);
    || (courseType == "LAB" && Contains(t, "lab"))
    || (courseType == "PROJECT" && Contains(t, "project"))
    || ((courseType == "TH" || courseType == "PR") && Contains(t, "classroom"))
  }

  predicate Suits(rooms: Dict<Room>, courseType: string, id: string)
  {
    id in rooms.vals && RoomMatches(courseType, rooms.vals[id].kind)
  }

  /** The list `_get_suitable_rooms` has built after the first i rooms. */
  function RoomsUpTo(rooms: Dict<Room>, courseType: string, i: nat): seq<string>
    requires i <= |rooms.keys|
  {
    if i == 0 then []
    else
      var acc := RoomsUpTo(rooms, courseType, i - 1);
      var id := rooms.keys[i - 1];
      if Suits(rooms, courseType, id) || |acc| == 0 then acc + [id] else acc
  }

  /** The result of `_get_suitable_rooms`: the list built, or every room id when it stayed empty. */
  function SuitableRoomIds(rooms: Dict<Room>, courseType: string): seq<string>
  {
    var acc := RoomsUpTo(rooms, courseType, |rooms.keys|);
    if acc != [] then acc else rooms.keys
  }

  /** `_get_suitable_rooms`: a non-matching room is taken only while nothing has been taken yet. */
  method SuitableRooms(rooms: Dict<Room>, courseType: string) returns (suitable: seq<string>)
    requires rooms.Valid()
    ensures suitable == SuitableRoomIds(rooms, courseType)
  {
    var acc: seq<string> := [];
    var i := 0;
    while i < |rooms.keys|
      invariant 0 <= i <= |rooms.keys|
      invariant acc == RoomsUpTo(rooms, courseType, i)
    {
      var id := rooms.keys[i];
      var roomType := Lower(rooms.vals[id].kind);
      if courseType == "LAB" && Contains(roomType, "lab") {
        acc := acc + [id];
      } else if courseType == "PROJECT" && Contains(roomType, "project") {
        acc := acc + [id];
      } else if (courseType == "TH" || courseType == "PR") && Contains(roomType, "classroom") {
        acc := acc + [id];
      } else if |acc| == 0 {
        acc := acc + [id];
      }
      i := i + 1;
    }
    suitable := if acc != [] then acc else rooms.keys;
  }

  lemma {:induction false} RoomsUpToFacts(rooms: Dict<Room>, courseType: string, i: nat)
    requires rooms.Valid() && i <= |rooms.keys|
    ensures SubsequenceOf(RoomsUpTo(rooms, courseType, i), rooms.keys[..i])
    ensures RoomsUpTo(rooms, courseType, i) == [] <==> i == 0
    ensures forall j :: 1 <= j < |RoomsUpTo(rooms, courseType, i)| ==> Suits(rooms, courseType, RoomsUpTo(rooms, courseType, i)[j])
    ensures forall x :: x in RoomsUpTo(rooms, courseType, i) <==>
      x in rooms.keys[..i] && (x == rooms.keys[0] || Suits(rooms, courseType, x))
  {
    if i > 0 {
      RoomsUpToFacts(rooms, courseType, i - 1);
      var acc := RoomsUpTo(rooms, courseType, i - 1);
      var id := rooms.keys[i - 1];
      assert rooms.keys[..i] == rooms.keys[..i - 1] + [id];
      if Suits(rooms, courseType, id) || |acc| == 0 {
        assert (acc + [id])[..|acc|] == acc;
        assert (rooms.keys[..i])[..i - 1] == rooms.keys[..i - 1];
      } else {
        SubsequenceExtend(acc, rooms.keys[..i - 1], id);
        assert id != rooms.keys[0];
      }
    }
  }

  /**
   * The suitable rooms are an order-preserving selection of the room ids,
   * empty only when there are no rooms; every one but possibly the first
   * matches the type rule, and every matching room is among them.
   */
  lemma SuitableRoomsFacts(rooms: Dict<Room>, courseType: string)
    requires rooms.Valid()
    ensures SubsequenceOf(SuitableRoomIds(rooms, courseType), rooms.keys)
    ensures SuitableRoomIds(rooms, courseType) == [] <==> rooms.keys == []
    ensures forall j :: 1 <= j < |SuitableRoomIds(rooms, courseType)| ==>
      Suits(rooms, courseType, SuitableRoomIds(rooms, courseType)[j])
    ensures forall x :: x in SuitableRoomIds(rooms, courseType) <==>
      x in rooms.keys && (x == rooms.keys[0] || Suits(rooms, courseType, x))
  {
    RoomsUpToFacts(rooms, courseType, |rooms.keys|);
    assert rooms.keys[..|rooms.keys|] == rooms.keys;
  }

  /** Every course duration is at least one slot. */
  predicate PositiveDurations(ctx: Inputs)
  {
    forall c :: c in ctx.courses.vals ==> ctx.courses.vals[c].duration >= 1
  }

  /** `courses[c]['duration']` of an existing course. */
  function DurationOf(ctx: Inputs, c: string): (d: int)
    requires PositiveDurations(ctx)
    ensures c in ctx.courses.vals ==> d == ctx.courses.vals[c].duration
    ensures d >= 1
  {
    if c in ctx.courses.vals then ctx.courses.vals[c].duration else 1
  }

  /** `courses[c]['type']` of an existing course. */
  function KindOf(ctx: Inputs, c: string): string
  {
    if c in ctx.courses.vals then ctx.courses.vals[c].kind else ""
  }

  /** One solver variable: group, instance, window, teacher and room. */
  datatype Candidate = Candidate(group: string, inst: Instance, window: seq<string>, teacher: string, room: string)

  /** The variables of one window and teacher: one per room. */
  function RoomRow(g: string, inst: Instance, w: seq<string>, t: string, rs: seq<string>): seq<Candidate>
  {
    seq(|rs|, k requires 0 <= k < |rs| => Candidate(g, inst, w, t, rs[k]))
  }

  /** The variables of one window: teachers, then rooms. */
  function TeacherBlock(g: string, inst: Instance, w: seq<string>, ts: seq<string>, rs: seq<string>): seq<Candidate>
  {
    Concat(seq(|ts|, j requires 0 <= j < |ts| => RoomRow(g, inst, w, ts[j], rs)))
  }

  /** The variables of one instance: windows, then teachers, then rooms. */
  function WindowBlocks(g: string, inst: Instance, ws: seq<seq<string>>, ts: seq<string>, rs: seq<string>): seq<Candidate>
  {
    Concat(seq(|ws|, i requires 0 <= i < |ws| => TeacherBlock(g, inst, ws[i], ts, rs)))
  }

  lemma TeacherBlockMembers(g: string, inst: Instance, w: seq<string>, ts: seq<string>, rs: seq<string>, x: Candidate)
    ensures x in TeacherBlock(g, inst, w, ts, rs) <==>
      x.group == g && x.inst == inst && x.window == w && x.teacher in ts && x.room in rs
  {
    var rows := seq(|ts|, j requires 0 <= j < |ts| => RoomRow(g, inst, w, ts[j], rs));
    ConcatMembers(rows, x);
    if x.group == g && x.inst == inst && x.window == w && x.teacher in ts && x.room in rs {
      var j :| 0 <= j < |ts| && ts[j] == x.teacher;
      var k :| 0 <= k < |rs| && rs[k] == x.room;
      assert rows[j][k] == x;
    }
  }

  lemma WindowBlocksMembers(g: string, inst: Instance, ws: seq<seq<string>>, ts: seq<string>, rs: seq<string>, x: Candidate)
    ensures x in WindowBlocks(g, inst, ws, ts, rs) <==>
      x.group == g && x.inst == inst && x.window in ws && x.teacher in ts && x.room in rs
  {
    var blocks := seq(|ws|, i requires 0 <= i < |ws| => TeacherBlock(g, inst, ws[i], ts, rs));
    ConcatMembers(blocks, x);
    if x in WindowBlocks(g, inst, ws, ts, rs) {
      var i :| 0 <= i < |ws| && x in blocks[i];
      TeacherBlockMembers(g, inst, ws[i], ts, rs, x);
    }
    if x.group == g && x.inst == inst && x.window in ws && x.teacher in ts && x.room in rs {
      var i :| 0 <= i < |ws| && ws[i] == x.window;
      TeacherBlockMembers(g, inst, ws[i], ts, rs, x);
      assert x in blocks[i];
    }
  }

  /** The variables of one instance of a group. */
  function Offers(ctx: Inputs, g: string, inst: Instance): seq<Candidate>
    requires PositiveDurations(ctx)
  {
    WindowBlocks(g, inst,
      AllWindows(ctx.timeslots, DurationOf(ctx, inst.course)),
      SuitableTeachers(ctx.teachers, inst.course),
      SuitableRoomIds(ctx.rooms, KindOf(ctx, inst.course)))
  }

  /** The variables of one group, instance by instance. */
  function GroupCandidates(ctx: Inputs, g: string): seq<Candidate>
    requires PositiveDurations(ctx)
  {
    var insts := GroupInstances(ctx, g);
    Concat(seq(|insts|, j requires 0 <= j < |insts| => Offers(ctx, g, insts[j])))
  }

  /** Every solver variable, in the order the variables are created. */
  function AllCandidates(ctx: Inputs): seq<Candidate>
    requires PositiveDurations(ctx)
  {
    var gs := ctx.groups.keys;
    Concat(seq(|gs|, i requires 0 <= i < |gs| => GroupCandidates(ctx, gs[i])))
  }

  /** The parts of a variable: a window of the course's duration, a qualified teacher, a suitable room. */
  predicate Offered(ctx: Inputs, x: Candidate)
    requires PositiveDurations(ctx)
  {
    && x.window in AllWindows(ctx.timeslots, DurationOf(ctx, x.inst.course))
    && x.teacher in SuitableTeachers(ctx.teachers, x.inst.course)
    && x.room in SuitableRoomIds(ctx.rooms, KindOf(ctx, x.inst.course))
  }

  lemma OffersMembers(ctx: Inputs, g: string, inst: Instance, x: Candidate)
    requires PositiveDurations(ctx)
    ensures x in Offers(ctx, g, inst) <==> x.group == g && x.inst == inst && Offered(ctx, x)
  {
    WindowBlocksMembers(g, inst,
      AllWindows(ctx.timeslots, DurationOf(ctx, inst.course)),
      SuitableTeachers(ctx.teachers, inst.course),
      SuitableRoomIds(ctx.rooms, KindOf(ctx, inst.course)), x);
  }

  lemma GroupCandidatesMembers(ctx: Inputs, g: string, x: Candidate)
    requires PositiveDurations(ctx)
    ensures x in GroupCandidates(ctx, g) <==> x.group == g && x.inst in GroupInstances(ctx, g) && Offered(ctx, x)
  {
    var insts := GroupInstances(ctx, g);
    var blocks := seq(|insts|, j requires 0 <= j < |insts| => Offers(ctx, g, insts[j]));
    ConcatMembers(blocks, x);
    if x in GroupCandidates(ctx, g) {
      var j :| 0 <= j < |insts| && x in blocks[j];
      OffersMembers(ctx, g, insts[j], x);
    }
    if x.group == g && x.inst in insts && Offered(ctx, x) {
      var j :| 0 <= j < |insts| && insts[j] == x.inst;
      OffersMembers(ctx, g, insts[j], x);
      assert x in blocks[j];
    }
  }

  /**
   * The variables are exactly the combinations of an instance of a group
   * with a window of its duration, a qualified teacher and a suitable room.
   */
  lemma CandidatesMembers(ctx: Inputs, x: Candidate)
    requires ctx.Valid() && PositiveDurations(ctx)
    ensures x in AllCandidates(ctx) <==> IsInstance(ctx, x.group, x.inst) && Offered(ctx, x)
  {
    var gs := ctx.groups.keys;
    var blocks := seq(|gs|, i requires 0 <= i < |gs| => GroupCandidates(ctx, gs[i]));
    ConcatMembers(blocks, x);
    InstanceMember(ctx, x.group, x.inst);
    if x in AllCandidates(ctx) {
      var i :| 0 <= i < |gs| && x in blocks[i];
      GroupCandidatesMembers(ctx, gs[i], x);
    }
    if IsInstance(ctx, x.group, x.inst) && Offered(ctx, x) {
      var i :| 0 <= i < |gs| && gs[i] == x.group;
      GroupCandidatesMembers(ctx, gs[i], x);
      assert x in blocks[i];
    }
  }

  /**
   * An instance gets no variable exactly when no window fits its duration,
   * no teacher handles its course, or there is no room at all.
   */
  lemma OffersEmpty(ctx: Inputs, g: string, inst: Instance)
    requires ctx.Valid() && PositiveDurations(ctx)
    ensures Offers(ctx, g, inst) == [] <==>
      || AllWindows(ctx.timeslots, DurationOf(ctx, inst.course)) == []
      || (forall t :: t in ctx.teachers.keys ==> !Handles(ctx.teachers, t, inst.course))
      || ctx.rooms.keys == []
  {
    var ts := SuitableTeachers(ctx.teachers, inst.course);
    SuitableTeachersFacts(ctx.teachers, inst.course);
    SuitableRoomsFacts(ctx.rooms, KindOf(ctx, inst.course));
    assert ts == [] <==> forall t :: t in ctx.teachers.keys ==> !Handles(ctx.teachers, t, inst.course) by {
      if ts != [] {
        assert ts[0] in ts;
      }
    }
    WindowBlocksEmpty(g, inst,
      AllWindows(ctx.timeslots, DurationOf(ctx, inst.course)), ts,
      SuitableRoomIds(ctx.rooms, KindOf(ctx, inst.course)));
  }

  lemma WindowBlocksEmpty(g: string, inst: Instance, ws: seq<seq<string>>, ts: seq<string>, rs: seq<string>)
    ensures WindowBlocks(g, inst, ws, ts, rs) == [] <==> ws == [] || ts == [] || rs == []
  {
    if ws != [] && ts != [] && rs != [] {
      WindowBlocksMembers(g, inst, ws, ts, rs, Candidate(g, inst, ws[0], ts[0], rs[0]));
    } else if WindowBlocks(g, inst, ws, ts, rs) != [] {
      var x := WindowBlocks(g, inst, ws, ts, rs)[0];
      WindowBlocksMembers(g, inst, ws, ts, rs, x);
    }
  }

  lemma TeacherBlockDistinct(g: string, inst: Instance, w: seq<string>, ts: seq<string>, rs: seq<string>)
    requires Distinct(ts) && Distinct(rs)
    ensures Distinct(TeacherBlock(g, inst, w, ts, rs))
  {
    var rows := seq(|ts|, j requires 0 <= j < |ts| => RoomRow(g, inst, w, ts[j], rs));
    forall i, j | 0 <= i < j < |rows| ensures Disjoint(rows[i], rows[j]) {
      forall x: Candidate | x in rows[i] ensures x !in rows[j] {
        assert x.teacher == ts[i];
      }
    }
    ConcatDistinct(rows);
  }

  lemma WindowBlocksDistinct(g: string, inst: Instance, ws: seq<seq<string>>, ts: seq<string>, rs: seq<string>)
    requires Distinct(ws) && Distinct(ts) && Distinct(rs)
    ensures Distinct(WindowBlocks(g, inst, ws, ts, rs))
  {
    var blocks := seq(|ws|, i requires 0 <= i < |ws| => TeacherBlock(g, inst, ws[i], ts, rs));
    forall i | 0 <= i < |blocks| ensures Distinct(blocks[i]) {
      TeacherBlockDistinct(g, inst, ws[i], ts, rs);
    }
    forall i, j | 0 <= i < j < |blocks| ensures Disjoint(blocks[i], blocks[j]) {
      forall x: Candidate | x in blocks[i] ensures x !in blocks[j] {
        TeacherBlockMembers(g, inst, ws[i], ts, rs, x);
        TeacherBlockMembers(g, inst, ws[j], ts, rs, x);
      }
    }
    ConcatDistinct(blocks);
  }

  lemma OffersDistinct(ctx: Inputs, g: string, inst: Instance)
    requires ctx.Valid() && PositiveDurations(ctx)
    ensures Distinct(Offers(ctx, g, inst))
  {
    AllWindowsDistinct(ctx.timeslots, DurationOf(ctx, inst.course));
    SuitableTeachersFacts(ctx.teachers, inst.course);
    SuitableRoomsFacts(ctx.rooms, KindOf(ctx, inst.course));
    SubsequenceDistinct(SuitableRoomIds(ctx.rooms, KindOf(ctx, inst.course)), ctx.rooms.keys);
    WindowBlocksDistinct(g, inst,
      AllWindows(ctx.timeslots, DurationOf(ctx, inst.course)),
      SuitableTeachers(ctx.teachers, inst.course),
      SuitableRoomIds(ctx.rooms, KindOf(ctx, inst.course)));
  }

  lemma GroupCandidatesDistinct(ctx: Inputs, g: string)
    requires ctx.Valid() && PositiveDurations(ctx)
    ensures Distinct(GroupCandidates(ctx, g))
  {
    var insts := GroupInstances(ctx, g);
    var blocks := seq(|insts|, j requires 0 <= j < |insts| => Offers(ctx, g, insts[j]));
    forall j | 0 <= j < |blocks| ensures Distinct(blocks[j]) {
      OffersDistinct(ctx, g, insts[j]);
    }
    forall i, j | 0 <= i < j < |blocks| ensures Disjoint(blocks[i], blocks[j]) {
      forall x: Candidate | x in blocks[i] ensures x !in blocks[j] {
        OffersMembers(ctx, g, insts[i], x);
        OffersMembers(ctx, g, insts[j], x);
      }
    }
    ConcatDistinct(blocks);
  }

  /** Every solver variable is created once. */
  lemma CandidatesDistinct(ctx: Inputs)
    requires ctx.Valid() && PositiveDurations(ctx)
    ensures Distinct(AllCandidates(ctx))
  {
    var gs := ctx.groups.keys;
    var blocks := seq(|gs|, i requires 0 <= i < |gs| => GroupCandidates(ctx, gs[i]));
    forall i | 0 <= i < |blocks| ensures Distinct(blocks[i]) {
      GroupCandidatesDistinct(ctx, gs[i]);
    }
    forall i, j | 0 <= i < j < |blocks| ensures Disjoint(blocks[i], blocks[j]) {
      forall x: Candidate | x in blocks[i] ensures x !in blocks[j] {
        GroupCandidatesMembers(ctx, gs[i], x);
        GroupCandidatesMembers(ctx, gs[j], x);
      }
    }
    ConcatDistinct(blocks);
  }
}
