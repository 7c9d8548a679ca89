/**
 * The solver's side of the feasible schedule: the five constraint families
 * posted over the 0/1 variables, stated as a predicate over the set of
 * variables the solver sets to 1, and the extraction that turns such a set
 * into a schedule, both with the course id taken from the instance and as
 * the source recovers it from the instance key.
 */
module Constraints {
  import opened Wrappers
  import opened Text
  import opened Seqs
  import opened Dicts
  import opened Entities
  import opened Slots
  import opened Candidates
  import opened Schedules

  /** Two windows cover a common timeslot. */
  predicate Overlap(w1: seq<string>, w2: seq<string>)
  {
    exists t :: t in w1 && t in w2
  }

  /** The day of a window's first slot (`timeslots[group.split('_')[0]]['day']`). */
  function FirstDay(ts: Dict<Timeslot>, w: seq<string>): string
  {
    if w == [] then "" else DayOf(ts, w[0])
  }

  /** Only variables the scheduler created can be set. */
  ghost predicate Within(ctx: Inputs, chosen: set<Candidate>)
    requires PositiveDurations(ctx)
  {
    forall x :: x in chosen ==> x in AllCandidates(ctx)
  }

  /** Constraint 1, `sum(course_vars) == 1`, upper half: at most one variable per instance of a group. */
  ghost predicate AtMostOnce(chosen: set<Candidate>)
  {
    forall x, y :: x in chosen && y in chosen && x.group == y.group && x.inst == y.inst ==> x == y
  }

  /**
   * Constraint 1, lower half: an instance with at least one variable has one
   * set; an instance without variables gets no constraint.
   */
  ghost predicate Covers(ctx: Inputs, chosen: set<Candidate>)
    requires PositiveDurations(ctx)
  {
    forall g, inst :: IsInstance(ctx, g, inst) && Offers(ctx, g, inst) != [] ==>
      exists x :: x in chosen && x.group == g && x.inst == inst
  }

  /**
   * Constraints 2, 3 and 4: for every timeslot, at most one set variable of
   * a teacher, of a room and of a group has a window covering it.
   */
  ghost predicate NoClash(chosen: set<Candidate>)
  {
    forall x, y :: x in chosen && y in chosen && x != y && Overlap(x.window, y.window) ==>
      x.teacher != y.teacher && x.room != y.room && x.group != y.group
  }

  /** Constraint 5: two instances of one course for one group start on different days. */
  ghost predicate SpreadDays(ts: Dict<Timeslot>, chosen: set<Candidate>)
  {
    forall x, y :: x in chosen && y in chosen && x.group == y.group && x.inst.course == y.inst.course && x.inst.k != y.inst.k ==>
      FirstDay(ts, x.window) != FirstDay(ts, y.window)
  }

  /** A 0/1 assignment satisfying every constraint posted to the solver. */
  ghost predicate Feasible(ctx: Inputs, chosen: set<Candidate>)
    requires PositiveDurations(ctx)
  {
    && Within(ctx, chosen)
    && AtMostOnce(chosen)
    && Covers(ctx, chosen)
    && NoClash(chosen)
    && SpreadDays(ctx.timeslots, chosen)
  }

  /** What a set variable writes: its group, instance, the course's duration, window, teacher and room. */
  function PlacementOf(ctx: Inputs, x: Candidate): Placement
    requires PositiveDurations(ctx)
  {
    Placement(x.group, x.inst, DurationOf(ctx, x.inst.course), x.window, x.teacher, x.room, x.inst.course)
  }

  /** The placements of the set variables among xs, in the order of xs. */
  function ChosenPlacements(ctx: Inputs, chosen: set<Candidate>, xs: seq<Candidate>): (ps: seq<Placement>)
    requires PositiveDurations(ctx)
    ensures |ps| <= |xs|
  {
    if xs == [] then []
    else
      var front := ChosenPlacements(ctx, chosen, xs[..|xs| - 1]);
      var x := xs[|xs| - 1];
      if x in chosen then front + [PlacementOf(ctx, x)] else front
  }

  lemma {:induction false} ChosenPlacementsSource(ctx: Inputs, chosen: set<Candidate>, xs: seq<Candidate>, j: nat)
    requires PositiveDurations(ctx)
    requires j < |ChosenPlacements(ctx, chosen, xs)|
    ensures exists x :: x in xs && x in chosen && ChosenPlacements(ctx, chosen, xs)[j] == PlacementOf(ctx, x)
  {
    var front := xs[..|xs| - 1];
    var x := xs[|xs| - 1];
    if j < |ChosenPlacements(ctx, chosen, front)| {
      ChosenPlacementsSource(ctx, chosen, front, j);
      var y :| y in front && y in chosen && ChosenPlacements(ctx, chosen, front)[j] == PlacementOf(ctx, y);
      assert y in xs;
    } else {
      assert x in xs;
    }
  }

  lemma {:induction false} ChosenPlacementsHas(ctx: Inputs, chosen: set<Candidate>, xs: seq<Candidate>, x: Candidate)
    requires PositiveDurations(ctx)
    requires x in xs && x in chosen
    ensures exists j :: 0 <= j < |ChosenPlacements(ctx, chosen, xs)| && ChosenPlacements(ctx, chosen, xs)[j] == PlacementOf(ctx, x)
  {
    var front := xs[..|xs| - 1];
    var last := xs[|xs| - 1];
    if x != last {
      assert x in front by {
        var i :| 0 <= i < |xs| && xs[i] == x;
        assert front[i] == x;
      }
      ChosenPlacementsHas(ctx, chosen, front, x);
      var j :| 0 <= j < |ChosenPlacements(ctx, chosen, front)| && ChosenPlacements(ctx, chosen, front)[j] == PlacementOf(ctx, x);
      assert ChosenPlacements(ctx, chosen, xs)[j] == PlacementOf(ctx, x);
    } else {
      assert ChosenPlacements(ctx, chosen, xs)[|ChosenPlacements(ctx, chosen, xs)| - 1] == PlacementOf(ctx, x);
    }
  }

  /** A created variable: its group exists, its window has the course's duration, distinct slots of one day. */
  lemma CandidateShape(ctx: Inputs, x: Candidate)
    requires ctx.Valid() && PositiveDurations(ctx)
    requires x in AllCandidates(ctx)
    ensures x.group in ctx.groups.vals
    ensures |x.window| == DurationOf(ctx, x.inst.course)
    ensures Distinct(x.window)
    ensures forall t :: t in x.window ==> t in ctx.timeslots.keys && DayOf(ctx.timeslots, t) == FirstDay(ctx.timeslots, x.window)
  {
    var d := DurationOf(ctx, x.inst.course);
    CandidatesMembers(ctx, x);
    AllWindowsMembers(ctx.timeslots, d, x.window);
    WindowsOfDay(ctx.timeslots, DayOf(ctx.timeslots, x.window[0]), d);
  }

  /** Every placement of created variables lands in a listed group and has the course's number of parts. */
  predicate Ready(ctx: Inputs, ps: seq<Placement>)
  {
    forall j :: 0 <= j < |ps| ==> ps[j].group in ctx.groups.vals && ps[j].Shaped()
  }

  lemma ChosenReady(ctx: Inputs, chosen: set<Candidate>, xs: seq<Candidate>)
    requires ctx.Valid() && PositiveDurations(ctx)
    requires forall x :: x in xs ==> x in AllCandidates(ctx)
    ensures Ready(ctx, ChosenPlacements(ctx, chosen, xs))
    ensures AllShaped(ChosenPlacements(ctx, chosen, xs))
  {
    var ps := ChosenPlacements(ctx, chosen, xs);
    forall j | 0 <= j < |ps| ensures ps[j].group in ctx.groups.vals && ps[j].Shaped() {
      ChosenPlacementsSource(ctx, chosen, xs, j);
      var x :| x in xs && x in chosen && ps[j] == PlacementOf(ctx, x);
      CandidateShape(ctx, x);
    }
  }

  /** A duplicate-free list of variables with at most one set per instance gives one placement per instance. */
  lemma {:induction false} ChosenDistinctInstances(ctx: Inputs, chosen: set<Candidate>, xs: seq<Candidate>)
    requires PositiveDurations(ctx)
    requires Distinct(xs) && AtMostOnce(chosen)
    ensures DistinctInstances(ChosenPlacements(ctx, chosen, xs))
  {
    if xs != [] {
      var front := xs[..|xs| - 1];
      var x := xs[|xs| - 1];
      ChosenDistinctInstances(ctx, chosen, front);
      if x in chosen {
        var fps := ChosenPlacements(ctx, chosen, front);
        var ps := fps + [PlacementOf(ctx, x)];
        forall j | 0 <= j < |fps| && fps[j].group == x.group ensures fps[j].inst != x.inst {
          ChosenPlacementsSource(ctx, chosen, front, j);
          var y :| y in front && y in chosen && fps[j] == PlacementOf(ctx, y);
          assert y != xs[|xs| - 1];
        }
        forall j, j' | 0 <= j < j' < |ps| && ps[j].group == ps[j'].group ensures ps[j].inst != ps[j'].inst {
          if j' < |fps| {
            assert ps[j] == fps[j] && ps[j'] == fps[j'];
          } else {
            assert ps[j] == fps[j];
          }
        }
      }
    }
  }

  /**
   * The schedule the solver's answer becomes: every group with an empty entry
   * dict, then each set variable's parts, in variable creation order. Entries
   * carry the instance's own course id; ExtractAsWritten below recovers it
   * from the instance key, as the source does, and agrees with this one when
   * no course id contains '_'.
   */
  function ExtractSpec(ctx: Inputs, chosen: set<Candidate>): (s: Schedule)
    requires ctx.Valid() && PositiveDurations(ctx)
    ensures ScheduleValid(s) && s.keys == ctx.groups.keys
  {
    var xs := AllCandidates(ctx);
    ApplyAll(InitGroups(ctx.groups.keys), ChosenPlacements(ctx, chosen, xs))
  }

  /** `schedule[group_id] = {}` for every group id, in order. */
  method InitSchedule(gs: seq<string>) returns (s: Schedule)
    requires Distinct(gs)
    ensures s == InitGroups(gs)
  {
    s := Empty();
    for i := 0 to |gs|
      invariant s == InitGroups(gs[..i])
    {
      assert gs[..i + 1][..i] == gs[..i];
      s := s.Put(gs[i], Empty());
    }
    assert gs[..|gs|] == gs;
  }

  /** One more variable considered: its parts written if it is set, nothing otherwise. */
  lemma ChosenStep(ctx: Inputs, chosen: set<Candidate>, s0: Schedule, xs: seq<Candidate>, j: nat)
    requires PositiveDurations(ctx) && ScheduleValid(s0)
    requires j < |xs|
    ensures ApplyAll(s0, ChosenPlacements(ctx, chosen, xs[..j + 1])) ==
      if xs[j] in chosen then Apply(ApplyAll(s0, ChosenPlacements(ctx, chosen, xs[..j])), PlacementOf(ctx, xs[j]))
      else ApplyAll(s0, ChosenPlacements(ctx, chosen, xs[..j]))
  {
    assert xs[..j + 1][..j] == xs[..j] && xs[..j + 1][j] == xs[j];
    if xs[j] in chosen {
      ApplyAllSnoc(s0, ChosenPlacements(ctx, chosen, xs[..j]), PlacementOf(ctx, xs[j]));
    }
  }

  /**
   * The extraction loop after `solver.Solve`: one empty dict per group id,
   * then for every variable in creation order whose value is 1, its parts
   * written into its group. The nested group/instance/window/teacher/room
   * loops are flattened into one pass over the variables in the same order.
   */
  method Extract(ctx: Inputs, chosen: set<Candidate>) returns (s: Schedule)
    requires ctx.Valid() && PositiveDurations(ctx)
    ensures s == ExtractSpec(ctx, chosen)
  {
    s := InitSchedule(ctx.groups.keys);
    ghost var s0 := s;
    assert forall g :: g in ctx.groups.vals ==> g in s0.vals;
    var xs := AllCandidates(ctx);
    for j := 0 to |xs|
      invariant s == ApplyAll(s0, ChosenPlacements(ctx, chosen, xs[..j]))
    {
      ChosenStep(ctx, chosen, s0, xs, j);
      if xs[j] in chosen {
        CandidateShape(ctx, xs[j]);
        s := Place(s, PlacementOf(ctx, xs[j]));
      }
    }
    assert xs[..|xs|] == xs;
  }

  /** The set variables of the solver's answer write no key twice into a group. */
  lemma ExtractFresh(ctx: Inputs, chosen: set<Candidate>)
    requires ctx.Valid() && PositiveDurations(ctx) && AtMostOnce(chosen)
    ensures Fresh(InitGroups(ctx.groups.keys), ChosenPlacements(ctx, chosen, AllCandidates(ctx)))
    ensures Ready(ctx, ChosenPlacements(ctx, chosen, AllCandidates(ctx)))
  {
    var xs := AllCandidates(ctx);
    var ps := ChosenPlacements(ctx, chosen, xs);
    var s0 := InitGroups(ctx.groups.keys);
    CandidatesDistinct(ctx);
    ChosenDistinctInstances(ctx, chosen, xs);
    ChosenReady(ctx, chosen, xs);
    forall g | g in s0.vals ensures FreshAt(s0, ps, g) {
      GroupKeysDistinct(ps, g);
      assert s0.vals[g].keys + GroupKeys(ps, g) == GroupKeys(ps, g);
    }
  }

  /** Part i of variable x is entry k of group g and holds e. */
  predicate WritesEntry(ctx: Inputs, x: Candidate, i: nat, g: string, k: string, e: Assignment)
    requires PositiveDurations(ctx)
  {
    && x.group == g && i < |x.window|
    && k == PartKey(x.inst.Key(), i, DurationOf(ctx, x.inst.course))
    && e == Assignment(x.window[i], x.teacher, x.room, x.inst.course)
  }

  lemma ExtractReady(ctx: Inputs, chosen: set<Candidate>)
    requires ctx.Valid() && PositiveDurations(ctx)
    ensures forall j :: 0 <= j < |ChosenPlacements(ctx, chosen, AllCandidates(ctx))| ==>
      ChosenPlacements(ctx, chosen, AllCandidates(ctx))[j].group in InitGroups(ctx.groups.keys).vals
  {
    ChosenReady(ctx, chosen, AllCandidates(ctx));
  }

  /**
   * Extraction writes every part of every set variable: part i of a window
   * of duration d is keyed `<instance>_part<i+1>` (the bare instance key when
   * d is 1) and holds the window's i-th slot, the teacher, the room and the
   * course id.
   */
  lemma ExtractPlaces(ctx: Inputs, chosen: set<Candidate>, x: Candidate, i: nat)
    requires ctx.Valid() && PositiveDurations(ctx)
    requires Within(ctx, chosen) && AtMostOnce(chosen)
    requires x in chosen && i < |x.window|
    ensures x.group in ExtractSpec(ctx, chosen).vals
    ensures PartKey(x.inst.Key(), i, DurationOf(ctx, x.inst.course)) in ExtractSpec(ctx, chosen).vals[x.group].vals
    ensures WritesEntry(ctx, x, i, x.group, PartKey(x.inst.Key(), i, DurationOf(ctx, x.inst.course)),
      ExtractSpec(ctx, chosen).vals[x.group].vals[PartKey(x.inst.Key(), i, DurationOf(ctx, x.inst.course))])
  {
    var xs := AllCandidates(ctx);
    var ps := ChosenPlacements(ctx, chosen, xs);
    ExtractFresh(ctx, chosen);
    ExtractReady(ctx, chosen);
    ChosenPlacementsHas(ctx, chosen, xs, x);
    var j :| 0 <= j < |ps| && ps[j] == PlacementOf(ctx, x);
    ApplyAllPart(InitGroups(ctx.groups.keys), ps, j, i);
  }

  lemma ExtractFromParts(ctx: Inputs, chosen: set<Candidate>, g: string, k: string)
    requires ctx.Valid() && PositiveDurations(ctx)
    requires g in ExtractSpec(ctx, chosen).vals && k in ExtractSpec(ctx, chosen).vals[g].vals
    ensures FromPart(ExtractSpec(ctx, chosen).vals[g].vals[k], ChosenPlacements(ctx, chosen, AllCandidates(ctx)), g, k)
  {
    ExtractReady(ctx, chosen);
    ApplyAllSource(InitGroups(ctx.groups.keys), ChosenPlacements(ctx, chosen, AllCandidates(ctx)), g, k);
  }

  /**
   * Every entry extraction writes is part i of some set variable of that
   * group, keyed and filled as that variable's part i.
   */
  lemma ExtractSound(ctx: Inputs, chosen: set<Candidate>, g: string, k: string)
    requires ctx.Valid() && PositiveDurations(ctx)
    requires g in ExtractSpec(ctx, chosen).vals && k in ExtractSpec(ctx, chosen).vals[g].vals
    ensures exists x, i :: x in chosen && x in AllCandidates(ctx) && WritesEntry(ctx, x, i, g, k, ExtractSpec(ctx, chosen).vals[g].vals[k])
  {
    ExtractFromParts(ctx, chosen, g, k);
    PartSource(ctx, chosen, AllCandidates(ctx), g, k, ExtractSpec(ctx, chosen).vals[g].vals[k]);
  }

  lemma PartSource(ctx: Inputs, chosen: set<Candidate>, xs: seq<Candidate>, g: string, k: string, e: Assignment)
    requires PositiveDurations(ctx)
    requires FromPart(e, ChosenPlacements(ctx, chosen, xs), g, k)
    ensures exists x, i :: x in chosen && x in xs && WritesEntry(ctx, x, i, g, k, e)
  {
    var ps := ChosenPlacements(ctx, chosen, xs);
    var j, i :| 0 <= j < |ps| && 0 <= i < |ps[j].window| && ps[j].group == g && k == ps[j].Part(i) && e == ps[j].Entry(i);
    ChosenPlacementsSource(ctx, chosen, xs, j);
    var x :| x in xs && x in chosen && ps[j] == PlacementOf(ctx, x);
    assert WritesEntry(ctx, x, i, g, k, e);
  }

  /** Two parts of one set variable sharing a slot are the same part. */
  lemma SamePartOfOne(ctx: Inputs, x: Candidate, i1: nat, i2: nat)
    requires ctx.Valid() && PositiveDurations(ctx) && x in AllCandidates(ctx)
    requires i1 < |x.window| && i2 < |x.window| && x.window[i1] == x.window[i2]
    ensures i1 == i2
  {
    CandidateShape(ctx, x);
  }

  /**
   * Per-slot uniqueness of the extracted schedule: two different entries at
   * the same timeslot belong to different groups and have different
   * teachers and different rooms.
   */
  lemma ExtractNoClash(ctx: Inputs, chosen: set<Candidate>, g1: string, k1: string, g2: string, k2: string)
    requires ctx.Valid() && PositiveDurations(ctx) && Feasible(ctx, chosen)
    requires g1 in ExtractSpec(ctx, chosen).vals && k1 in ExtractSpec(ctx, chosen).vals[g1].vals
    requires g2 in ExtractSpec(ctx, chosen).vals && k2 in ExtractSpec(ctx, chosen).vals[g2].vals
    requires g1 != g2 || k1 != k2
    requires ExtractSpec(ctx, chosen).vals[g1].vals[k1].timeslot == ExtractSpec(ctx, chosen).vals[g2].vals[k2].timeslot
    ensures g1 != g2
    ensures ExtractSpec(ctx, chosen).vals[g1].vals[k1].teacher != ExtractSpec(ctx, chosen).vals[g2].vals[k2].teacher
    ensures ExtractSpec(ctx, chosen).vals[g1].vals[k1].room != ExtractSpec(ctx, chosen).vals[g2].vals[k2].room
  {
    var s := ExtractSpec(ctx, chosen);
    ExtractSound(ctx, chosen, g1, k1);
    var x1: Candidate, i1: nat :| x1 in chosen && x1 in AllCandidates(ctx) && WritesEntry(ctx, x1, i1, g1, k1, s.vals[g1].vals[k1]);
    ExtractSound(ctx, chosen, g2, k2);
    var x2: Candidate, i2: nat :| x2 in chosen && x2 in AllCandidates(ctx) && WritesEntry(ctx, x2, i2, g2, k2, s.vals[g2].vals[k2]);
    if x1 == x2 {
      SamePartOfOne(ctx, x1, i1, i2);
    }
    assert x1.window[i1] in x1.window && x1.window[i1] in x2.window;
    assert Overlap(x1.window, x2.window);
  }

  /** Every instance with at least one variable is scheduled: its first part is present. */
  lemma ExtractCovers(ctx: Inputs, chosen: set<Candidate>, g: string, inst: Instance)
    requires ctx.Valid() && PositiveDurations(ctx) && Feasible(ctx, chosen)
    requires IsInstance(ctx, g, inst) && Offers(ctx, g, inst) != []
    ensures g in ExtractSpec(ctx, chosen).vals
    ensures PartKey(inst.Key(), 0, DurationOf(ctx, inst.course)) in ExtractSpec(ctx, chosen).vals[g].vals
  {
    var x :| x in chosen && x.group == g && x.inst == inst;
    CandidateShape(ctx, x);
    ExtractPlaces(ctx, chosen, x, 0);
  }

  /**
   * An instance without variables (no window of its duration, no teacher
   * handling the course, or no room: OffersEmpty) is silently left out: no
   * entry of its group has one of its keys.
   */
  lemma ExtractSkips(ctx: Inputs, chosen: set<Candidate>, g: string, inst: Instance, k: string, i: nat)
    requires ctx.Valid() && PositiveDurations(ctx)
    requires Offers(ctx, g, inst) == []
    requires g in ExtractSpec(ctx, chosen).vals && k in ExtractSpec(ctx, chosen).vals[g].vals
    requires i < DurationOf(ctx, inst.course)
    ensures k != PartKey(inst.Key(), i, DurationOf(ctx, inst.course))
  {
    ExtractSound(ctx, chosen, g, k);
    var x: Candidate, i': nat :| x in chosen && x in AllCandidates(ctx) && WritesEntry(ctx, x, i', g, k, ExtractSpec(ctx, chosen).vals[g].vals[k]);
    CandidateShape(ctx, x);
    CandidatesMembers(ctx, x);
    OffersMembers(ctx, g, x.inst, x);
    if k == PartKey(inst.Key(), i, DurationOf(ctx, inst.course)) {
      PartKeyInjective(x.inst, i', DurationOf(ctx, x.inst.course), inst, i, DurationOf(ctx, inst.course));
    }
  }

  /** No course id contains '_', so an instance key splits back into its course id and number. */
  predicate UnderscoreFree(ctx: Inputs)
  {
    forall c :: c in ctx.courses.vals ==> '_' !in c
  }

  /** `instance_key.split('_')[0]`: what extraction takes as the course id of an instance key. */
  function KeyPrefix(key: string): string
  {
    Split(key, '_')[0]
  }

  /** The prefix of `<course>_<k>` is the course when the course id holds no '_'. */
  lemma KeyPrefixOfInstance(inst: Instance)
    requires '_' !in inst.course
    ensures KeyPrefix(inst.Key()) == inst.course
  {
    SplitHead(inst.course, NatToString(inst.k), '_');
  }

  /** `self.courses[course_id]` succeeds for the key prefix of every instance created. */
  ghost predicate PrefixesKnown(ctx: Inputs)
  {
    forall g, inst :: IsInstance(ctx, g, inst) ==> KeyPrefix(inst.Key()) in ctx.courses.vals
  }

  /**
   * What a set variable writes as extraction has it: both the course id on
   * every entry and the duration that picks the key shape come from the key
   * prefix, not from the instance's own course.
   */
  function WrittenPlacement(ctx: Inputs, x: Candidate): Placement
    requires KeyPrefix(x.inst.Key()) in ctx.courses.vals
  {
    var c := KeyPrefix(x.inst.Key());
    Placement(x.group, x.inst, ctx.courses.vals[c].duration, x.window, x.teacher, x.room, c)
  }

  /** The written placements of the set variables among xs, in the order of xs. */
  function WrittenPlacements(ctx: Inputs, chosen: set<Candidate>, xs: seq<Candidate>): seq<Placement>
    requires forall x :: x in xs ==> KeyPrefix(x.inst.Key()) in ctx.courses.vals
  {
    if xs == [] then []
    else
      var front := WrittenPlacements(ctx, chosen, xs[..|xs| - 1]);
      var x := xs[|xs| - 1];
      if x in chosen then front + [WrittenPlacement(ctx, x)] else front
  }

  lemma CandidatePrefixes(ctx: Inputs)
    requires ctx.Valid() && PositiveDurations(ctx) && PrefixesKnown(ctx)
    ensures forall x :: x in AllCandidates(ctx) ==> KeyPrefix(x.inst.Key()) in ctx.courses.vals
  {
    forall x | x in AllCandidates(ctx) ensures KeyPrefix(x.inst.Key()) in ctx.courses.vals {
      CandidatesMembers(ctx, x);
    }
  }

  /**
   * Extraction as the source writes it: the loop over every instance key of
   * every group looks up `self.courses[instance_key.split('_')[0]]` and
   * raises KeyError when that prefix is not a course (whether or not the
   * instance has a variable set); otherwise the set variables' written
   * placements, in creation order.
   */
  ghost function ExtractAsWritten(ctx: Inputs, chosen: set<Candidate>): (r: Result<Schedule, string>)
    requires ctx.Valid() && PositiveDurations(ctx)
    ensures r.Err? <==> !PrefixesKnown(ctx)
    ensures r.Ok? ==> ScheduleValid(r.value) && r.value.keys == ctx.groups.keys
  {
    if !PrefixesKnown(ctx) then Err("KeyError")
    else
      CandidatePrefixes(ctx);
      Ok(ApplyAll(InitGroups(ctx.groups.keys), WrittenPlacements(ctx, chosen, AllCandidates(ctx))))
  }

  lemma {:induction false} WrittenPlacementsAgree(ctx: Inputs, chosen: set<Candidate>, xs: seq<Candidate>)
    requires PositiveDurations(ctx) && UnderscoreFree(ctx)
    requires forall x :: x in xs ==> IsInstance(ctx, x.group, x.inst)
    ensures forall x :: x in xs ==> KeyPrefix(x.inst.Key()) in ctx.courses.vals
    ensures WrittenPlacements(ctx, chosen, xs) == ChosenPlacements(ctx, chosen, xs)
  {
    forall x | x in xs ensures KeyPrefix(x.inst.Key()) in ctx.courses.vals {
      KeyPrefixOfInstance(x.inst);
    }
    if xs != [] {
      var x := xs[|xs| - 1];
      WrittenPlacementsAgree(ctx, chosen, xs[..|xs| - 1]);
      KeyPrefixOfInstance(x.inst);
    }
  }

  /**
   * With no '_' in any course id, extraction as written never raises and
   * writes exactly the schedule ExtractSpec describes.
   */
  lemma ExtractAsWrittenAgrees(ctx: Inputs, chosen: set<Candidate>)
    requires ctx.Valid() && PositiveDurations(ctx) && UnderscoreFree(ctx)
    ensures ExtractAsWritten(ctx, chosen) == Ok(ExtractSpec(ctx, chosen))
  {
    forall g, inst | IsInstance(ctx, g, inst) ensures KeyPrefix(inst.Key()) in ctx.courses.vals {
      KeyPrefixOfInstance(inst);
    }
    forall x | x in AllCandidates(ctx) ensures IsInstance(ctx, x.group, x.inst) {
      CandidatesMembers(ctx, x);
    }
    WrittenPlacementsAgree(ctx, chosen, AllCandidates(ctx));
  }

  /**
   * A listed course `a_b` (say "CS_101") with no course `a` ("CS") makes
   * extraction raise KeyError, whatever the solver chose.
   */
  lemma ExtractAsWrittenRaises(ctx: Inputs, chosen: set<Candidate>, g: string, a: string, b: string)
    requires ctx.Valid() && PositiveDurations(ctx)
    requires '_' !in a && a !in ctx.courses.vals
    requires g in ctx.groups.vals && a + "_" + b in ctx.groups.vals[g].courses && a + "_" + b in ctx.courses.vals
    ensures ExtractAsWritten(ctx, chosen) == Err("KeyError")
  {
    var inst := Instance(a + "_" + b, 1);
    assert IsInstance(ctx, g, inst);
    assert inst.Key() == a + ['_'] + (b + "_" + NatToString(1));
    SplitHead(a, b + "_" + NatToString(1), '_');
  }

  /**
   * When `a` is a course too, a variable of course `a_b` is written with
   * course id `a` and with `a`'s duration deciding the key shape.
   */
  lemma WrittenPlacementMislabels(ctx: Inputs, x: Candidate, a: string, b: string)
    requires '_' !in a && a in ctx.courses.vals && x.inst.course == a + "_" + b
    ensures KeyPrefix(x.inst.Key()) == a
    ensures WrittenPlacement(ctx, x).course == a != x.inst.course
    ensures WrittenPlacement(ctx, x).duration == ctx.courses.vals[a].duration
  {
    assert x.inst.Key() == a + ['_'] + (b + "_" + NatToString(x.inst.k));
    SplitHead(a, b + "_" + NatToString(x.inst.k), '_');
  }
}
