/**
 * Encoding a schedule the solver produced and decoding the genome gives the
 * same schedule back (as Python's `==` on dicts compares them), provided
 * every instance was scheduled, no course id contains '_', no group lists a
 * course twice and every listed course exists.
 */
module RoundTrip {
  import opened Wrappers
  import opened Text
  import opened Seqs
  import opened Dicts
  import opened Entities
  import opened Sorting
  import opened Slots
  import opened Candidates
  import opened Schedules
  import opened Constraints
  import opened Genome

  /** Every instance the scheduler creates has at least one solver variable. */
  ghost predicate AllOffered(ctx: Inputs)
    requires PositiveDurations(ctx)
  {
    forall g, inst :: IsInstance(ctx, g, inst) ==> Offers(ctx, g, inst) != []
  }

  /** Every group lists each of its courses once, and only courses that exist. */
  predicate CoursesListedOnce(ctx: Inputs)
  {
    && (forall g :: g in ctx.groups.vals ==> Distinct(ctx.groups.vals[g].courses))
    && (forall g, c :: g in ctx.groups.vals && c in ctx.groups.vals[g].courses ==> c in ctx.courses.vals)
  }

  /** The conditions under which the genome reproduces the schedule. */
  ghost predicate RoundTripReady(ctx: Inputs, chosen: set<Candidate>)
    requires PositiveDurations(ctx)
  {
    && ctx.Valid()
    && Feasible(ctx, chosen)
    && AllOffered(ctx)
    && UnderscoreFree(ctx)
    && CoursesListedOnce(ctx)
  }

  /** The part of RoundTripReady that extraction's bookkeeping needs. */
  ghost predicate Extracted(ctx: Inputs, chosen: set<Candidate>)
    requires PositiveDurations(ctx)
  {
    ctx.Valid() && Within(ctx, chosen) && AtMostOnce(chosen)
  }

  // ------------------------------------------------------------ entry keys

  lemma SingleDigit(k: nat)
    requires 1 <= k <= 9
    ensures NatToString(k) == [DigitChar(k)]
  {
  }

  lemma KeyShape(inst: Instance)
    requires 1 <= inst.k <= 9
    ensures |inst.Key()| == |inst.course| + 2
    ensures inst.Key()[..|inst.course|] == inst.course && inst.Key()[|inst.course|] == '_'
  {
    SingleDigit(inst.k);
  }

  /** Two underscore-free prefixes that both end where an '_' follows have the same length. */
  lemma UnderscoreLen(s: string, c1: string, c2: string)
    requires '_' !in c1 && '_' !in c2
    requires |c1| < |s| && |c2| < |s|
    requires s[..|c1|] == c1 && s[|c1|] == '_' && s[..|c2|] == c2 && s[|c2|] == '_'
    ensures |c1| == |c2|
  {
    if |c1| < |c2| {
      assert false;
    } else if |c2| < |c1| {
      assert false;
    }
  }

  /**
   * With underscore-free course ids and one-digit instance numbers, an entry
   * key starts with an instance key only when it is an entry of that instance.
   */
  lemma KeyPrefix(a: Instance, i: nat, d: int, b: Instance)
    requires '_' !in a.course && '_' !in b.course && 1 <= a.k <= 9 && 1 <= b.k <= 9
    requires StartsWith(PartKey(a.Key(), i, d), b.Key())
    ensures a == b
  {
    var s := PartKey(a.Key(), i, d);
    KeyShape(a);
    KeyShape(b);
    var ka := a.Key();
    var kb := b.Key();
    assert s[..|ka|] == ka;
    var la := |a.course|;
    assert s[..la] == a.course && s[la] == '_';
    assert s[..|b.course|] == b.course && s[|b.course|] == '_';
    UnderscoreLen(s, a.course, b.course);
    assert ka == s[..la + 2] == kb;
    InstanceKeyInjective(a.course, a.k, b.course, b.k);
  }

  /** Every entry key of an instance starts with the instance key. */
  lemma PartKeyStartsWith(inst: Instance, i: nat, d: int)
    ensures StartsWith(PartKey(inst.Key(), i, d), inst.Key())
  {
    var s := PartKey(inst.Key(), i, d);
    assert s[..|inst.Key()|] == inst.Key();
  }

  // ------------------------------------------------------------ the walk

  lemma PairUpMembers(g: string, cs: seq<string>, pair: (string, string))
    ensures pair in PairUp(g, cs) <==> pair.0 == g && pair.1 in cs
  {
    if pair.0 == g && pair.1 in cs {
      var j :| 0 <= j < |cs| && cs[j] == pair.1;
      assert PairUp(g, cs)[j] == pair;
    }
  }

  /** The (group, course) pairs of the decoder's walk: every listed course of every group. */
  lemma DecodePairsMembers(ctx: Inputs, g: string, c: string)
    requires ctx.Valid()
    ensures (g, c) in DecodePairs(ctx) <==> g in ctx.groups.vals && c in ctx.groups.vals[g].courses
  {
    var gs := SortStrings(ctx.groups.keys);
    var css := seq(|gs|, i requires 0 <= i < |gs| => WalkCourses(ctx, gs[i]));
    var per := seq(|gs|, i requires 0 <= i < |gs| => PairUp(gs[i], css[i]));
    ConcatMembers(per, (g, c));
    if (g, c) in DecodePairs(ctx) {
      var i :| 0 <= i < |per| && (g, c) in per[i];
      PairUpMembers(gs[i], WalkCourses(ctx, gs[i]), (g, c));
      assert c in multiset(WalkCourses(ctx, g));
    }
    if g in ctx.groups.vals && c in ctx.groups.vals[g].courses {
      assert g in multiset(gs);
      var i :| 0 <= i < |gs| && gs[i] == g;
      assert c in multiset(WalkCourses(ctx, g));
      PairUpMembers(g, WalkCourses(ctx, g), (g, c));
      assert (g, c) in per[i];
    }
  }

  lemma CourseInstancesMembers(courses: Dict<Course>, c: string, inst: Instance)
    ensures inst in CourseInstances(courses, c) <==>
      inst.course == c && c in courses.vals && 1 <= inst.k <= Frequency(courses.vals[c].kind)
  {
    if inst.course == c && c in courses.vals && 1 <= inst.k <= Frequency(courses.vals[c].kind) {
      assert CourseInstances(courses, c)[inst.k - 1] == inst;
    }
  }

  /** The decoder's steps are exactly the instances the scheduler creates. */
  lemma DecodePlanMembers(ctx: Inputs, g: string, inst: Instance)
    requires ctx.Valid()
    ensures Item(g, inst) in DecodePlan(ctx) <==> IsInstance(ctx, g, inst)
  {
    var pairs := DecodePairs(ctx);
    var per := seq(|pairs|, i requires 0 <= i < |pairs| => CourseItems(ctx, pairs[i].0, pairs[i].1));
    if Item(g, inst) in DecodePlan(ctx) {
      var i :| 0 <= i < |pairs| && g == pairs[i].0 && inst in CourseInstances(ctx.courses, pairs[i].1);
      CourseInstancesMembers(ctx.courses, pairs[i].1, inst);
      DecodePairsMembers(ctx, g, pairs[i].1);
    }
    if IsInstance(ctx, g, inst) {
      DecodePairsMembers(ctx, g, inst.course);
      var i :| 0 <= i < |pairs| && pairs[i] == (g, inst.course);
      CourseInstancesMembers(ctx.courses, inst.course, inst);
      assert Item(g, inst) in per[i];
      ConcatMembers(per, Item(g, inst));
    }
  }

  // ------------------------------------------------------------ no step twice

  lemma SortStringsDistinct(s: seq<string>)
    requires Distinct(s)
    ensures Distinct(SortStrings(s))
  {
    StringLeIsTotalOrder();
    SortByDistinct(s, StringLe());
  }

  lemma PairUpDistinct(g: string, cs: seq<string>)
    requires Distinct(cs)
    ensures Distinct(PairUp(g, cs))
  {
  }

  lemma DecodePairsDistinct(ctx: Inputs)
    requires ctx.Valid()
    requires CoursesListedOnce(ctx)
    ensures Distinct(DecodePairs(ctx))
  {
    var gs := SortStrings(ctx.groups.keys);
    SortStringsDistinct(ctx.groups.keys);
    var css := seq(|gs|, i requires 0 <= i < |gs| => WalkCourses(ctx, gs[i]));
    var per := seq(|gs|, i requires 0 <= i < |gs| => PairUp(gs[i], css[i]));
    forall i | 0 <= i < |per| ensures Distinct(per[i]) {
      if gs[i] in ctx.groups.vals {
        SortStringsDistinct(ctx.groups.vals[gs[i]].courses);
      }
      PairUpDistinct(gs[i], WalkCourses(ctx, gs[i]));
    }
    forall i, j | 0 <= i < j < |per| ensures Disjoint(per[i], per[j]) {
      forall pair | pair in per[i] ensures pair !in per[j] {
        PairUpMembers(gs[i], WalkCourses(ctx, gs[i]), pair);
        PairUpMembers(gs[j], WalkCourses(ctx, gs[j]), pair);
      }
    }
    ConcatDistinct(per);
  }

  lemma CourseItemsDistinct(ctx: Inputs, g: string, c: string)
    ensures Distinct(CourseItems(ctx, g, c))
  {
    var items := CourseItems(ctx, g, c);
    var insts := CourseInstances(ctx.courses, c);
    forall i, j | 0 <= i < j < |items| ensures items[i] != items[j] {
      assert items[i].inst == insts[i] && items[j].inst == insts[j];
    }
  }

  /** The decoder never visits an instance of a group twice. */
  lemma DecodePlanDistinct(ctx: Inputs)
    requires ctx.Valid()
    requires CoursesListedOnce(ctx)
    ensures Distinct(DecodePlan(ctx))
  {
    var pairs := DecodePairs(ctx);
    DecodePairsDistinct(ctx);
    var per := seq(|pairs|, i requires 0 <= i < |pairs| => CourseItems(ctx, pairs[i].0, pairs[i].1));
    forall i | 0 <= i < |per| ensures Distinct(per[i]) {
      CourseItemsDistinct(ctx, pairs[i].0, pairs[i].1);
    }
    forall i, j | 0 <= i < j < |per| ensures Disjoint(per[i], per[j]) {
      forall it: Item | it in per[i] ensures it !in per[j] {
        CourseInstancesMembers(ctx.courses, pairs[i].1, it.inst);
        CourseInstancesMembers(ctx.courses, pairs[j].1, it.inst);
      }
    }
    ConcatDistinct(per);
  }

  // ------------------------------------------------------------ encoding the extracted schedule

  lemma EntryCoursesMembers(d: Dict<Assignment>, c: string)
    requires d.Valid()
    ensures c in EntryCourses(d) <==> exists k :: k in d.vals && d.vals[k].courseId == c
  {
    var ec := EntryCourses(d);
    if c in ec {
      var i :| 0 <= i < |ec| && ec[i] == c;
      assert d.keys[i] in d.vals;
    }
    if exists k :: k in d.vals && d.vals[k].courseId == c {
      var k: string :| k in d.vals && d.vals[k].courseId == c;
      var i :| 0 <= i < |d.keys| && d.keys[i] == k;
      assert ec[i] == c;
    }
  }

  /** Every entry of a group in the extracted schedule is of a course the group lists. */
  lemma ExtractCourseListed(ctx: Inputs, chosen: set<Candidate>, g: string, c: string)
    requires PositiveDurations(ctx) && Extracted(ctx, chosen)
    requires g in ExtractSpec(ctx, chosen).vals && c in EntryCourses(ExtractSpec(ctx, chosen).vals[g])
    ensures g in ctx.groups.vals && c in ctx.groups.vals[g].courses
  {
    var d := ExtractSpec(ctx, chosen).vals[g];
    EntryCoursesMembers(d, c);
    var k: string :| k in d.vals && d.vals[k].courseId == c;
    ExtractSound(ctx, chosen, g, k);
    var x: Candidate, i: nat :| x in chosen && x in AllCandidates(ctx) && WritesEntry(ctx, x, i, g, k, d.vals[k]);
    CandidatesMembers(ctx, x);
  }

  /** Every course a group lists has an entry of that group in the extracted schedule. */
  lemma ExtractCoursePresent(ctx: Inputs, chosen: set<Candidate>, g: string, c: string)
    requires PositiveDurations(ctx) && Extracted(ctx, chosen) && Covers(ctx, chosen) && AllOffered(ctx) && CoursesListedOnce(ctx)
    requires g in ctx.groups.vals && c in ctx.groups.vals[g].courses
    ensures g in ExtractSpec(ctx, chosen).vals && c in EntryCourses(ExtractSpec(ctx, chosen).vals[g])
  {
    var inst := Instance(c, 1);
    assert IsInstance(ctx, g, inst);
    var x: Candidate :| x in chosen && x.group == g && x.inst == inst;
    CandidateShape(ctx, x);
    ExtractPlaces(ctx, chosen, x, 0);
    EntryCoursesMembers(ExtractSpec(ctx, chosen).vals[g], c);
  }

  /** The encoder walks each group's courses in the order the decoder does. */
  lemma ExtractEncodeCourses(ctx: Inputs, chosen: set<Candidate>, g: string)
    requires PositiveDurations(ctx) && Extracted(ctx, chosen) && Covers(ctx, chosen) && AllOffered(ctx) && CoursesListedOnce(ctx)
    requires g in ctx.groups.vals
    ensures g in ExtractSpec(ctx, chosen).vals
    ensures EncodeCourses(ExtractSpec(ctx, chosen).vals[g]) == WalkCourses(ctx, g)
  {
    var d := ExtractSpec(ctx, chosen).vals[g];
    var cs := ctx.groups.vals[g].courses;
    var ec := EntryCourses(d);
    var dd := Dedup(ec);
    forall i | 0 <= i < |dd| ensures dd[i] in cs {
      ExtractCourseListed(ctx, chosen, g, dd[i]);
    }
    forall i | 0 <= i < |cs| ensures cs[i] in dd {
      ExtractCoursePresent(ctx, chosen, g, cs[i]);
      var j :| 0 <= j < |ec| && ec[j] == cs[i];
    }
    DistinctSameElements(dd, cs);
    SortStringsOfSameSet(dd, cs);
  }

  /** A schedule whose groups are the listed groups, each holding entries of exactly its listed courses, is walked as the decoder walks. */
  lemma EncodePairsOf(ctx: Inputs, s: Schedule)
    requires ctx.Valid() && ScheduleValid(s)
    requires forall g :: g in ctx.groups.vals ==> g in s.vals && EncodeCourses(s.vals[g]) == WalkCourses(ctx, g)
    ensures EncodePairs(ctx, s) == DecodePairs(ctx)
  {
    var gs := SortStrings(ctx.groups.keys);
    var a := seq(|gs|, i requires 0 <= i < |gs| => ScheduleCourses(s, gs[i]));
    var b := seq(|gs|, i requires 0 <= i < |gs| => WalkCourses(ctx, gs[i]));
    forall i | 0 <= i < |gs| ensures a[i] == b[i] {
      assert gs[i] in multiset(ctx.groups.keys);
    }
    assert a == b;
  }

  lemma ExtractEncodePairs(ctx: Inputs, chosen: set<Candidate>)
    requires PositiveDurations(ctx) && Extracted(ctx, chosen) && Covers(ctx, chosen) && AllOffered(ctx) && CoursesListedOnce(ctx)
    ensures EncodePairs(ctx, ExtractSpec(ctx, chosen)) == DecodePairs(ctx)
  {
    var S := ExtractSpec(ctx, chosen);
    forall g | g in ctx.groups.vals ensures g in S.vals && EncodeCourses(S.vals[g]) == WalkCourses(ctx, g) {
      ExtractEncodeCourses(ctx, chosen, g);
    }
    EncodePairsOf(ctx, S);
  }

  /** With every course known, the pairs' genes are the genes of all their steps. */
  lemma {:induction false} EncodeGenesKnown(ctx: Inputs, s: Schedule, pairs: seq<(string, string)>)
    requires ScheduleValid(s)
    requires forall pair :: pair in pairs ==> pair.0 in s.vals && pair.1 in ctx.courses.vals
    ensures forall it :: it in PairsItems(ctx, pairs) ==> it.group in s.vals
    ensures EncodeGenes(ctx, s, pairs) == EncodeItems(ctx, s, PairsItems(ctx, pairs))
    decreases |pairs|
  {
    if pairs != [] {
      PairsItemsCons(ctx, pairs);
      EncodeGenesKnown(ctx, s, pairs[1..]);
      EncodeItemsAppend(ctx, s, CourseItems(ctx, pairs[0].0, pairs[0].1), PairsItems(ctx, pairs[1..]));
    }
  }

  lemma {:induction false} EncodeItemsOk(ctx: Inputs, s: Schedule, items: seq<Item>)
    requires ScheduleValid(s) && forall it :: it in items ==> it.group in s.vals
    requires forall m :: 0 <= m < |items| ==> EncodeInstance(ctx, s.vals[items[m].group], items[m].inst).Ok?
    ensures EncodeItems(ctx, s, items).Ok?
    decreases |items|
  {
    if items != [] {
      assert forall m :: 0 <= m < |items| - 1 ==> items[1..][m] == items[m + 1];
      EncodeItemsOk(ctx, s, items[1..]);
    }
  }

  lemma {:induction false} FirstWithPrefixSkip(a: seq<string>, b: seq<string>, prefix: string)
    requires forall k :: k in a ==> !StartsWith(k, prefix)
    ensures FirstWithPrefix(a + b, prefix) == FirstWithPrefix(b, prefix)
    decreases |a|
  {
    if a == [] {
      assert a + b == b;
    } else {
      assert (a + b)[0] == a[0] && (a + b)[1..] == a[1..] + b;
      FirstWithPrefixSkip(a[1..], b, prefix);
    }
  }

  lemma FirstWithPrefixHead(a: seq<string>, b: seq<string>, prefix: string)
    requires a != [] && StartsWith(a[0], prefix)
    ensures FirstWithPrefix(a + b, prefix) == Some(a[0])
  {
    assert (a + b)[0] == a[0];
  }

  /**
   * When one instance's placements in group g all start with the same key
   * and no other placement of g has a key starting with the instance key,
   * that key is the first of g's keys to start with it.
   */
  lemma {:induction false} FirstKey(ps: seq<Placement>, g: string, inst: Instance, key: string)
    requires StartsWith(key, inst.Key())
    requires exists j :: 0 <= j < |ps| && ps[j].group == g && ps[j].inst == inst
    requires forall j :: 0 <= j < |ps| && ps[j].group == g && ps[j].inst == inst ==>
      ps[j].PartKeys() != [] && ps[j].PartKeys()[0] == key
    requires forall j :: 0 <= j < |ps| && ps[j].group == g && ps[j].inst != inst ==>
      forall k :: k in ps[j].PartKeys() ==> !StartsWith(k, inst.Key())
    ensures FirstWithPrefix(GroupKeys(ps, g), inst.Key()) == Some(key)
    decreases |ps|
  {
    GroupKeysHead(ps, g);
    var rest := GroupKeys(ps[1..], g);
    if ps[0].group == g && ps[0].inst == inst {
      FirstWithPrefixHead(ps[0].PartKeys(), rest, inst.Key());
    } else {
      var j :| 0 <= j < |ps| && ps[j].group == g && ps[j].inst == inst;
      assert ps[1..][j - 1] == ps[j];
      assert forall j :: 0 <= j < |ps| - 1 ==> ps[1..][j] == ps[j + 1];
      FirstKey(ps[1..], g, inst, key);
      if ps[0].group == g {
        FirstWithPrefixSkip(ps[0].PartKeys(), rest, inst.Key());
      }
    }
  }

  /** An entry key of another instance never starts with an instance's key. */
  lemma OtherKey(a: Instance, i: nat, d: int, b: Instance)
    requires '_' !in a.course && '_' !in b.course && 1 <= a.k <= 9 && 1 <= b.k <= 9
    requires a != b
    ensures !StartsWith(PartKey(a.Key(), i, d), b.Key())
  {
    if StartsWith(PartKey(a.Key(), i, d), b.Key()) {
      KeyPrefix(a, i, d, b);
      assert false;
    }
  }

  /** A group's keys in the extracted schedule are the part keys of its placements, in order. */
  lemma ExtractKeys(ctx: Inputs, chosen: set<Candidate>, g: string)
    requires PositiveDurations(ctx) && Extracted(ctx, chosen) && g in ctx.groups.vals
    ensures g in ExtractSpec(ctx, chosen).vals
    ensures ExtractSpec(ctx, chosen).vals[g].keys == GroupKeys(ChosenPlacements(ctx, chosen, AllCandidates(ctx)), g)
  {
    var ps := ChosenPlacements(ctx, chosen, AllCandidates(ctx));
    var s0 := InitGroups(ctx.groups.keys);
    ExtractFresh(ctx, chosen);
    ExtractReady(ctx, chosen);
    ApplyAllKeys(s0, ps, g);
    assert s0.vals[g].keys + GroupKeys(ps, g) == GroupKeys(ps, g);
  }

  /** The placement of a set variable of x's group: x's own, or one with no key starting with x's instance key. */
  lemma ChosenKeyShape(ctx: Inputs, chosen: set<Candidate>, x: Candidate, p: Placement)
    requires PositiveDurations(ctx) && Extracted(ctx, chosen) && UnderscoreFree(ctx)
    requires x in chosen
    requires exists y :: y in AllCandidates(ctx) && y in chosen && p == PlacementOf(ctx, y)
    requires p.group == x.group
    ensures p.inst == x.inst ==> p.PartKeys() != [] && p.PartKeys()[0] == PartKey(x.inst.Key(), 0, DurationOf(ctx, x.inst.course))
    ensures p.inst != x.inst ==> forall k :: k in p.PartKeys() ==> !StartsWith(k, x.inst.Key())
  {
    var y: Candidate :| y in AllCandidates(ctx) && y in chosen && p == PlacementOf(ctx, y);
    if y.inst == x.inst {
      assert y == x;
      CandidateShape(ctx, x);
      assert p.PartKeys()[0] == p.Part(0);
    } else {
      CandidatesMembers(ctx, x);
      CandidatesMembers(ctx, y);
      OtherPlacementKeys(p, x.inst);
    }
  }

  /** No part key of a placement starts with the key of another instance. */
  lemma OtherPlacementKeys(p: Placement, b: Instance)
    requires '_' !in p.inst.course && '_' !in b.course && 1 <= p.inst.k <= 9 && 1 <= b.k <= 9
    requires p.inst != b
    ensures forall k :: k in p.PartKeys() ==> !StartsWith(k, b.Key())
  {
    forall k | k in p.PartKeys() ensures !StartsWith(k, b.Key()) {
      var i :| 0 <= i < |p.window| && p.PartKeys()[i] == k;
      OtherKey(p.inst, i, p.duration, b);
    }
  }

  /** In the extracted schedule, the first key of x's group that starts with x's instance key is x's first part. */
  lemma ExtractFirstKey(ctx: Inputs, chosen: set<Candidate>, x: Candidate)
    requires PositiveDurations(ctx) && Extracted(ctx, chosen) && UnderscoreFree(ctx)
    requires x in chosen
    ensures x.group in ExtractSpec(ctx, chosen).vals
    ensures FirstWithPrefix(ExtractSpec(ctx, chosen).vals[x.group].keys, x.inst.Key())
      == Some(PartKey(x.inst.Key(), 0, DurationOf(ctx, x.inst.course)))
  {
    var xs := AllCandidates(ctx);
    var ps := ChosenPlacements(ctx, chosen, xs);
    var key := PartKey(x.inst.Key(), 0, DurationOf(ctx, x.inst.course));
    CandidateShape(ctx, x);
    ExtractKeys(ctx, chosen, x.group);
    PartKeyStartsWith(x.inst, 0, DurationOf(ctx, x.inst.course));
    ChosenPlacementsHas(ctx, chosen, xs, x);
    forall j | 0 <= j < |ps| && ps[j].group == x.group
      ensures ps[j].inst == x.inst ==> ps[j].PartKeys() != [] && ps[j].PartKeys()[0] == key
      ensures ps[j].inst != x.inst ==> forall k :: k in ps[j].PartKeys() ==> !StartsWith(k, x.inst.Key())
    {
      ChosenPlacementsSource(ctx, chosen, xs, j);
      ChosenKeyShape(ctx, chosen, x, ps[j]);
    }
    FirstKey(ps, x.group, x.inst, key);
  }

  /** Three genes that point, in the id lists, at x's first slot, its teacher and its room. */
  predicate PointsAt(ctx: Inputs, t: seq<int>, x: Candidate)
  {
    && |t| == 3 && |x.window| >= 1
    && 0 <= t[0] < |ctx.timeslots.keys| && ctx.timeslots.keys[t[0]] == x.window[0]
    && 0 <= t[1] < |ctx.teachers.keys| && ctx.teachers.keys[t[1]] == x.teacher
    && 0 <= t[2] < |ctx.rooms.keys| && ctx.rooms.keys[t[2]] == x.room
  }

  /** The encoder turns a set variable's instance into genes pointing at its first slot, teacher and room. */
  lemma EncodeChosen(ctx: Inputs, chosen: set<Candidate>, x: Candidate)
    requires PositiveDurations(ctx) && Extracted(ctx, chosen) && UnderscoreFree(ctx)
    requires x in chosen
    ensures x.group in ExtractSpec(ctx, chosen).vals
    ensures EncodeInstance(ctx, ExtractSpec(ctx, chosen).vals[x.group], x.inst).Ok?
    ensures PointsAt(ctx, EncodeInstance(ctx, ExtractSpec(ctx, chosen).vals[x.group], x.inst).value, x)
  {
    CandidateShape(ctx, x);
    CandidatesMembers(ctx, x);
    ExtractFirstKey(ctx, chosen, x);
    ExtractPlaces(ctx, chosen, x, 0);
    SuitableTeachersFacts(ctx.teachers, x.inst.course);
    SuitableRoomsFacts(ctx.rooms, KindOf(ctx, x.inst.course));
    assert x.window[0] in x.window;
  }

  /** A step of the decoder's walk is an instance with exactly one set variable. */
  lemma PlanChosen(ctx: Inputs, chosen: set<Candidate>, it: Item)
    requires PositiveDurations(ctx) && ctx.Valid() && Covers(ctx, chosen) && AllOffered(ctx)
    requires it in DecodePlan(ctx)
    ensures exists x :: x in chosen && x.group == it.group && x.inst == it.inst
  {
    DecodePlanMembers(ctx, it.group, it.inst);
  }

  /**
   * The genome of the extracted schedule: three genes per step of the
   * decoder's walk, each triple pointing at the first slot, the teacher and
   * the room of that step's set variable.
   */
  lemma EncodeExtracted(ctx: Inputs, chosen: set<Candidate>)
    requires PositiveDurations(ctx) && RoundTripReady(ctx, chosen)
    ensures EncodeSpec(ctx, ExtractSpec(ctx, chosen)).Ok?
    ensures |EncodeSpec(ctx, ExtractSpec(ctx, chosen)).value| == 3 * |DecodePlan(ctx)|
    ensures forall m, x :: 0 <= m < |DecodePlan(ctx)| && x in chosen && x.group == DecodePlan(ctx)[m].group && x.inst == DecodePlan(ctx)[m].inst ==>
      PointsAt(ctx, EncodeSpec(ctx, ExtractSpec(ctx, chosen)).value[3 * m..3 * m + 3], x)
  {
    var S := ExtractSpec(ctx, chosen);
    var plan := DecodePlan(ctx);
    var pairs := DecodePairs(ctx);
    ExtractEncodePairs(ctx, chosen);
    forall pair | pair in pairs ensures pair.0 in S.vals && pair.1 in ctx.courses.vals {
      DecodePairsMembers(ctx, pair.0, pair.1);
    }
    EncodeGenesKnown(ctx, S, pairs);
    forall m | 0 <= m < |plan| ensures EncodeInstance(ctx, S.vals[plan[m].group], plan[m].inst).Ok? {
      PlanChosen(ctx, chosen, plan[m]);
      var x: Candidate :| x in chosen && x.group == plan[m].group && x.inst == plan[m].inst;
      EncodeChosen(ctx, chosen, x);
    }
    EncodeItemsOk(ctx, S, plan);
    EncodeItemsAt(ctx, S, plan);
    forall m, x | 0 <= m < |plan| && x in chosen && x.group == plan[m].group && x.inst == plan[m].inst
      ensures PointsAt(ctx, EncodeSpec(ctx, S).value[3 * m..3 * m + 3], x)
    {
      EncodeChosen(ctx, chosen, x);
    }
  }

  // ------------------------------------------------------------ decoding the genome

  lemma IndexOfDistinct(s: seq<string>, i: nat)
    requires Distinct(s) && i < |s|
    ensures IndexOf(s, s[i]) == i
  {
  }

  lemma ModSmall(a: int, n: int)
    requires 0 <= a < n
    ensures a % n == a
  {
  }

  lemma WindowsRun(slots: seq<string>, d: int, w: seq<string>)
    requires d >= 1 && w in Windows(slots, d)
    ensures exists i :: RunAt(slots, w, i)
  {
    var ws := Windows(slots, d);
    var i :| 0 <= i < |ws| && ws[i] == w;
    assert RunAt(slots, w, i);
  }

  /** A candidate window is d consecutive slots of its first slot's day. */
  lemma WindowAt(ts: Dict<Timeslot>, d: int, w: seq<string>, daySlots: seq<string>)
    requires ts.Valid() && d >= 1 && w in AllWindows(ts, d) && |w| == d
    requires daySlots == DaySlots(ts, DayOf(ts, w[0]))
    ensures exists i :: RunAt(daySlots, w, i)
  {
    AllWindowsMembers(ts, d, w);
    WindowsRun(daySlots, d, w);
  }

  /** A triple whose slot starts a run w of its day decodes to the placement of w. */
  lemma DecodeGeneAt(ctx: Inputs, it: Item, genes: seq<int>, idx: nat, daySlots: seq<string>, i: nat, w: seq<string>)
    requires ctx.Valid() && idx + 2 < |genes|
    requires 0 <= genes[idx] < |ctx.timeslots.keys|
    requires 0 <= genes[idx + 1] < |ctx.teachers.keys| && 0 <= genes[idx + 2] < |ctx.rooms.keys|
    requires daySlots == DaySlots(ctx.timeslots, DayOf(ctx.timeslots, ctx.timeslots.keys[genes[idx]]))
    requires Distinct(daySlots) && RunAt(daySlots, w, i)
    requires w != [] && w[0] == ctx.timeslots.keys[genes[idx]] && |w| == DurationField(ctx, it.inst.course)
    ensures DecodeGene(ctx, it, genes, idx) == Ok(Some(Placement(it.group, it.inst, |w|, w,
      ctx.teachers.keys[genes[idx + 1]], ctx.rooms.keys[genes[idx + 2]], it.inst.course)))
  {
    ModSmall(genes[idx], |ctx.timeslots.keys|);
    ModSmall(genes[idx + 1], |ctx.teachers.keys|);
    ModSmall(genes[idx + 2], |ctx.rooms.keys|);
    assert daySlots[i] == w[0];
    IndexOfDistinct(daySlots, i);
  }

  /** A triple pointing at x's first slot, teacher and room decodes to x's placement. */
  lemma DecodeChosen(ctx: Inputs, chosen: set<Candidate>, x: Candidate, genes: seq<int>, idx: nat)
    requires PositiveDurations(ctx) && Extracted(ctx, chosen) && x in chosen
    requires idx + 3 <= |genes| && PointsAt(ctx, genes[idx..idx + 3], x)
    ensures DecodeGene(ctx, Item(x.group, x.inst), genes, idx) == Ok(Some(PlacementOf(ctx, x)))
  {
    var ts := ctx.timeslots;
    var d := DurationOf(ctx, x.inst.course);
    CandidateShape(ctx, x);
    CandidatesMembers(ctx, x);
    var t := genes[idx..idx + 3];
    assert t[0] == genes[idx] && t[1] == genes[idx + 1] && t[2] == genes[idx + 2];
    var daySlots := DaySlots(ts, DayOf(ts, x.window[0]));
    WindowAt(ts, d, x.window, daySlots);
    var i :| RunAt(daySlots, x.window, i);
    DaySlotsFacts(ts, DayOf(ts, x.window[0]));
    DecodeGeneAt(ctx, Item(x.group, x.inst), genes, idx, daySlots, i, x.window);
  }

  lemma {:induction false} TriplesOf(genes: seq<int>, idx: nat, n: nat)
    requires |genes| == idx + 3 * n
    ensures Triples(genes, idx) == n
    decreases n
  {
    if n > 0 {
      TriplesOf(genes, idx + 3, n - 1);
    }
  }

  lemma {:induction false} ConcatSingletons<T>(ss: seq<seq<T>>)
    requires forall i :: 0 <= i < |ss| ==> |ss[i]| == 1
    ensures |Concat(ss)| == |ss|
    ensures forall i :: 0 <= i < |ss| ==> Concat(ss)[i] == ss[i][0]
    decreases |ss|
  {
    if ss != [] {
      var front := ss[..|ss| - 1];
      ConcatSingletons(front);
    }
  }

  /** The one placement decoding step m produces: that of the step's set variable. */
  lemma DecodeStep(ctx: Inputs, chosen: set<Candidate>, genes: seq<int>, m: nat)
    requires PositiveDurations(ctx) && Extracted(ctx, chosen) && Covers(ctx, chosen) && AllOffered(ctx)
    requires m < |DecodePlan(ctx)| && 3 * m + 3 <= |genes|
    requires forall x :: x in chosen && x.group == DecodePlan(ctx)[m].group && x.inst == DecodePlan(ctx)[m].inst ==>
      PointsAt(ctx, genes[3 * m..3 * m + 3], x)
    ensures |Produced(DecodeGene(ctx, DecodePlan(ctx)[m], genes, 3 * m))| == 1
    ensures forall x :: x in chosen && x.group == DecodePlan(ctx)[m].group && x.inst == DecodePlan(ctx)[m].inst ==>
      Produced(DecodeGene(ctx, DecodePlan(ctx)[m], genes, 3 * m))[0] == PlacementOf(ctx, x)
  {
    var it := DecodePlan(ctx)[m];
    PlanChosen(ctx, chosen, it);
    var x: Candidate :| x in chosen && x.group == it.group && x.inst == it.inst;
    DecodeChosen(ctx, chosen, x, genes, 3 * m);
    assert it == Item(x.group, x.inst);
  }

  /**
   * Genes laid out as the encoder lays out the extracted schedule's decode,
   * step by step, to the placements of the set variables in the decoder's
   * walk order.
   */
  lemma DecodeTriples(ctx: Inputs, chosen: set<Candidate>, genes: seq<int>)
    requires PositiveDurations(ctx) && Extracted(ctx, chosen) && Covers(ctx, chosen) && AllOffered(ctx)
    requires |genes| == 3 * |DecodePlan(ctx)|
    requires forall m, x :: 0 <= m < |DecodePlan(ctx)| && x in chosen && x.group == DecodePlan(ctx)[m].group && x.inst == DecodePlan(ctx)[m].inst ==>
      PointsAt(ctx, genes[3 * m..3 * m + 3], x)
    ensures DecodeItems(ctx, DecodePlan(ctx), genes, 0).Ok?
    ensures |DecodeItems(ctx, DecodePlan(ctx), genes, 0).value| == |DecodePlan(ctx)|
    ensures forall m, x :: 0 <= m < |DecodePlan(ctx)| && x in chosen && x.group == DecodePlan(ctx)[m].group && x.inst == DecodePlan(ctx)[m].inst ==>
      DecodeItems(ctx, DecodePlan(ctx), genes, 0).value[m] == PlacementOf(ctx, x)
  {
    var plan := DecodePlan(ctx);
    if plan != [] {
      PlanListsNonEmpty(ctx, chosen, genes);
      TriplesOf(genes, 0, |plan|);
      DecodeItemsAt(ctx, plan, genes, 0, |plan|);
      var steps := StepsFrom(ctx, plan, genes, 0, |plan|);
      forall m | 0 <= m < |plan|
        ensures |steps[m]| == 1
        ensures forall x :: x in chosen && x.group == plan[m].group && x.inst == plan[m].inst ==> steps[m][0] == PlacementOf(ctx, x)
      {
        StepsFromAt(ctx, plan, genes, 0, |plan|, m, 3 * m);
        DecodeStep(ctx, chosen, genes, m);
      }
      ConcatSingletons(steps);
    }
  }

  /** Genes pointing at the first step's set variable show that no id list is empty. */
  lemma PlanListsNonEmpty(ctx: Inputs, chosen: set<Candidate>, genes: seq<int>)
    requires PositiveDurations(ctx) && Extracted(ctx, chosen) && Covers(ctx, chosen) && AllOffered(ctx)
    requires |genes| == 3 * |DecodePlan(ctx)| && DecodePlan(ctx) != []
    requires forall x :: x in chosen && x.group == DecodePlan(ctx)[0].group && x.inst == DecodePlan(ctx)[0].inst ==>
      PointsAt(ctx, genes[0..3], x)
    ensures IdListsNonEmpty(ctx)
  {
    PlanChosen(ctx, chosen, DecodePlan(ctx)[0]);
    var x0: Candidate :| x0 in chosen && x0.group == DecodePlan(ctx)[0].group && x0.inst == DecodePlan(ctx)[0].inst;
    assert PointsAt(ctx, genes[0..3], x0);
  }

  // ------------------------------------------------------------ the decoded schedule

  /** ps holds, step by step along the decoder's walk, the placement of the step's set variable. */
  ghost predicate Matches(ctx: Inputs, chosen: set<Candidate>, ps: seq<Placement>)
    requires ctx.Valid() && PositiveDurations(ctx)
  {
    && |ps| == |DecodePlan(ctx)|
    && forall m, x :: 0 <= m < |DecodePlan(ctx)| && x in chosen && x.group == DecodePlan(ctx)[m].group && x.inst == DecodePlan(ctx)[m].inst ==>
         ps[m] == PlacementOf(ctx, x)
  }

  lemma MatchesAt(ctx: Inputs, chosen: set<Candidate>, ps: seq<Placement>, m: nat)
    requires PositiveDurations(ctx) && Extracted(ctx, chosen) && Covers(ctx, chosen) && AllOffered(ctx)
    requires Matches(ctx, chosen, ps) && m < |ps|
    ensures exists x :: x in chosen && x.group == DecodePlan(ctx)[m].group && x.inst == DecodePlan(ctx)[m].inst && ps[m] == PlacementOf(ctx, x)
  {
    PlanChosen(ctx, chosen, DecodePlan(ctx)[m]);
  }

  lemma SortedGroupsMembers(ctx: Inputs, g: string)
    requires ctx.Valid()
    ensures g in InitGroups(SortedGroups(ctx)).vals <==> g in ctx.groups.vals
  {
    assert g in SortedGroups(ctx) <==> g in multiset(ctx.groups.keys);
  }

  /** The decoded placements land in listed groups, have full windows and write no key twice. */
  lemma DecodedFresh(ctx: Inputs, chosen: set<Candidate>, ps: seq<Placement>)
    requires PositiveDurations(ctx) && Extracted(ctx, chosen) && Covers(ctx, chosen) && AllOffered(ctx) && CoursesListedOnce(ctx)
    requires Matches(ctx, chosen, ps)
    ensures forall j :: 0 <= j < |ps| ==> ps[j].group in InitGroups(SortedGroups(ctx)).vals && ps[j].Shaped()
    ensures Fresh(InitGroups(SortedGroups(ctx)), ps)
  {
    var s0 := InitGroups(SortedGroups(ctx));
    var plan := DecodePlan(ctx);
    DecodePlanDistinct(ctx);
    forall j | 0 <= j < |ps| ensures ps[j].group in s0.vals && ps[j].Shaped() && ps[j].group == plan[j].group && ps[j].inst == plan[j].inst {
      MatchesAt(ctx, chosen, ps, j);
      var x: Candidate :| x in chosen && x.group == plan[j].group && x.inst == plan[j].inst && ps[j] == PlacementOf(ctx, x);
      CandidateShape(ctx, x);
      SortedGroupsMembers(ctx, x.group);
    }
    assert DistinctInstances(ps) by {
      forall j, j' | 0 <= j < j' < |ps| && ps[j].group == ps[j'].group ensures ps[j].inst != ps[j'].inst {
        assert plan[j] != plan[j'];
      }
    }
    forall g | g in s0.vals ensures FreshAt(s0, ps, g) {
      GroupKeysDistinct(ps, g);
      assert s0.vals[g].keys + GroupKeys(ps, g) == GroupKeys(ps, g);
    }
  }

  /** Every decoded entry is the extracted schedule's entry under the same group and key. */
  lemma DecodedEntry(ctx: Inputs, chosen: set<Candidate>, ps: seq<Placement>, g: string, k: string)
    requires PositiveDurations(ctx) && Extracted(ctx, chosen) && Covers(ctx, chosen) && AllOffered(ctx) && CoursesListedOnce(ctx)
    requires Matches(ctx, chosen, ps)
    requires g in ApplyAll(InitGroups(SortedGroups(ctx)), ps).vals
    requires k in ApplyAll(InitGroups(SortedGroups(ctx)), ps).vals[g].vals
    ensures g in ExtractSpec(ctx, chosen).vals && k in ExtractSpec(ctx, chosen).vals[g].vals
    ensures ExtractSpec(ctx, chosen).vals[g].vals[k] == ApplyAll(InitGroups(SortedGroups(ctx)), ps).vals[g].vals[k]
  {
    var s0 := InitGroups(SortedGroups(ctx));
    var e := ApplyAll(s0, ps).vals[g].vals[k];
    DecodedFresh(ctx, chosen, ps);
    ApplyAllSource(s0, ps, g, k);
    var j, i :| 0 <= j < |ps| && 0 <= i < |ps[j].window| && ps[j].group == g && k == ps[j].Part(i) && e == ps[j].Entry(i);
    MatchesAt(ctx, chosen, ps, j);
    var x: Candidate :| x in chosen && x.group == DecodePlan(ctx)[j].group && x.inst == DecodePlan(ctx)[j].inst && ps[j] == PlacementOf(ctx, x);
    ExtractPlaces(ctx, chosen, x, i);
  }

  /** Every extracted entry is decoded under the same group and key. */
  lemma ExtractedEntry(ctx: Inputs, chosen: set<Candidate>, ps: seq<Placement>, g: string, k: string)
    requires PositiveDurations(ctx) && Extracted(ctx, chosen) && Covers(ctx, chosen) && AllOffered(ctx) && CoursesListedOnce(ctx)
    requires Matches(ctx, chosen, ps)
    requires g in ExtractSpec(ctx, chosen).vals && k in ExtractSpec(ctx, chosen).vals[g].vals
    ensures g in ApplyAll(InitGroups(SortedGroups(ctx)), ps).vals
    ensures k in ApplyAll(InitGroups(SortedGroups(ctx)), ps).vals[g].vals
    ensures ApplyAll(InitGroups(SortedGroups(ctx)), ps).vals[g].vals[k] == ExtractSpec(ctx, chosen).vals[g].vals[k]
  {
    var s0 := InitGroups(SortedGroups(ctx));
    var plan := DecodePlan(ctx);
    ExtractSound(ctx, chosen, g, k);
    var x: Candidate, i: nat :| x in chosen && x in AllCandidates(ctx) && WritesEntry(ctx, x, i, g, k, ExtractSpec(ctx, chosen).vals[g].vals[k]);
    CandidatesMembers(ctx, x);
    DecodePlanMembers(ctx, g, x.inst);
    var m :| 0 <= m < |plan| && plan[m] == Item(g, x.inst);
    assert ps[m] == PlacementOf(ctx, x);
    DecodedFresh(ctx, chosen, ps);
    ApplyAllPart(s0, ps, m, i);
  }

  /** Two schedules with the same groups, each holding the same entries, look the same to Python's `==`. */
  lemma SameView(d: Schedule, e: Schedule)
    requires d.vals.Keys == e.vals.Keys
    requires forall g :: g in d.vals ==> d.vals[g].vals == e.vals[g].vals
    ensures View(d) == View(e)
  {
  }

  /** Two maps that agree on each other's keys are equal. */
  lemma SameEntries(a: map<string, Assignment>, b: map<string, Assignment>)
    requires forall k :: k in a ==> k in b && a[k] == b[k]
    requires forall k :: k in b ==> k in a
    ensures a == b
  {
  }

  /** One group of the decoded schedule holds exactly the extracted entries of that group. */
  lemma DecodedGroup(ctx: Inputs, chosen: set<Candidate>, ps: seq<Placement>, g: string)
    requires PositiveDurations(ctx) && Extracted(ctx, chosen) && Covers(ctx, chosen) && AllOffered(ctx) && CoursesListedOnce(ctx)
    requires Matches(ctx, chosen, ps)
    requires g in ApplyAll(InitGroups(SortedGroups(ctx)), ps).vals && g in ExtractSpec(ctx, chosen).vals
    ensures ApplyAll(InitGroups(SortedGroups(ctx)), ps).vals[g].vals == ExtractSpec(ctx, chosen).vals[g].vals
  {
    var dg := ApplyAll(InitGroups(SortedGroups(ctx)), ps).vals[g].vals;
    var eg := ExtractSpec(ctx, chosen).vals[g].vals;
    forall k | k in dg ensures k in eg && dg[k] == eg[k] {
      DecodedEntry(ctx, chosen, ps, g, k);
    }
    forall k | k in eg ensures k in dg {
      ExtractedEntry(ctx, chosen, ps, g, k);
    }
    SameEntries(dg, eg);
  }

  /** Decoding the placements gives the extracted schedule, as Python's `==` compares them. */
  lemma DecodedView(ctx: Inputs, chosen: set<Candidate>, ps: seq<Placement>)
    requires PositiveDurations(ctx) && Extracted(ctx, chosen) && Covers(ctx, chosen) && AllOffered(ctx) && CoursesListedOnce(ctx)
    requires Matches(ctx, chosen, ps)
    ensures View(ApplyAll(InitGroups(SortedGroups(ctx)), ps)) == View(ExtractSpec(ctx, chosen))
  {
    var d := ApplyAll(InitGroups(SortedGroups(ctx)), ps);
    var e := ExtractSpec(ctx, chosen);
    assert d.vals.Keys == e.vals.Keys by {
      forall g ensures g in d.vals <==> g in e.vals {
        SortedGroupsMembers(ctx, g);
      }
    }
    forall g | g in d.vals ensures d.vals[g].vals == e.vals[g].vals {
      DecodedGroup(ctx, chosen, ps, g);
    }
    SameView(d, e);
  }

  /**
   * The round trip: when the solver's answer schedules every instance and
   * no course id holds '_', encoding the extracted schedule succeeds, the
   * genome decodes without error, and the decoded schedule equals the
   * extracted one.
   */
  lemma RoundTripHolds(ctx: Inputs, chosen: set<Candidate>)
    requires PositiveDurations(ctx) && RoundTripReady(ctx, chosen)
    ensures EncodeSpec(ctx, ExtractSpec(ctx, chosen)).Ok?
    ensures DecodeSpec(ctx, EncodeSpec(ctx, ExtractSpec(ctx, chosen)).value).Ok?
    ensures View(DecodeSpec(ctx, EncodeSpec(ctx, ExtractSpec(ctx, chosen)).value).value) == View(ExtractSpec(ctx, chosen))
  {
    EncodeExtracted(ctx, chosen);
    var genes := EncodeSpec(ctx, ExtractSpec(ctx, chosen)).value;
    DecodeTriples(ctx, chosen, genes);
    var ps := DecodeItems(ctx, DecodePlan(ctx), genes, 0).value;
    assert Matches(ctx, chosen, ps);
    DecodedView(ctx, chosen, ps);
  }
}
