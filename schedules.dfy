/**
 * How a chosen (window, teacher, room) for an instance is written into the
 * schedule: one entry per slot of the window, keyed `<instance>_part<i>`
 * (or the bare instance key for a one-slot course). Extraction from the
 * solver and decoding of a genome both build schedules this way.
 */
module Schedules {
  import opened Text
  import opened Seqs
  import opened Dicts
  import opened Entities
  import opened Candidates

  /** `f"{instance_key}_part{i+1}" if course_duration > 1 else instance_key`. */
  function PartKey(instKey: string, i: nat, d: int): string
  {
    if d > 1 then instKey + "_part" + NatToString(i + 1) else instKey
  }

  lemma PartKeyShape(inst: Instance, i: nat)
    ensures PartKey(inst.Key(), i, 2) == inst.Key() + "_" + ("part" + NatToString(i + 1))
    ensures '_' !in "part" + NatToString(i + 1)
    ensures ("part" + NatToString(i + 1))[4..] == NatToString(i + 1)
  {
  }

  /**
   * Entry keys never collide: different instances, or different parts of one
   * instance, get different keys (a one-slot course has only part 0).
   */
  lemma PartKeyInjective(a: Instance, i: nat, d: int, b: Instance, j: nat, e: int)
    requires d > 1 || i == 0
    requires e > 1 || j == 0
    requires PartKey(a.Key(), i, d) == PartKey(b.Key(), j, e)
    ensures a == b && i == j
  {
    if d > 1 && e > 1 {
      PartKeyShape(a, i);
      PartKeyShape(b, j);
      SplitAtLastUnderscore(a.Key(), "part" + NatToString(i + 1), b.Key(), "part" + NatToString(j + 1));
      NatToStringInjective(i + 1, j + 1);
      InstanceKeyInjective(a.course, a.k, b.course, b.k);
    } else if d > 1 {
      PartKeyShape(a, i);
      PartIsNotNumber(i + 1, b.k);
      SplitAtLastUnderscore(a.Key(), "part" + NatToString(i + 1), b.course, NatToString(b.k));
    } else if e > 1 {
      PartKeyShape(b, j);
      PartIsNotNumber(j + 1, a.k);
      SplitAtLastUnderscore(b.Key(), "part" + NatToString(j + 1), a.course, NatToString(a.k));
    } else {
      InstanceKeyInjective(a.course, a.k, b.course, b.k);
    }
  }

  lemma PartIsNotNumber(m: nat, k: nat)
    ensures "part" + NatToString(m) != NatToString(k)
  {
    assert ("part" + NatToString(m))[0] == 'p';
  }

  /** The entries one chosen (window, teacher, room) of an instance produces, labelled with the course id `course`. */
  datatype Placement = Placement(group: string, inst: Instance, duration: int, window: seq<string>, teacher: string, room: string, course: string)
  {
    /** A window of exactly the course's duration. */
    predicate Shaped()
    {
      |window| == duration
    }

    function Part(i: nat): string
    {
      PartKey(inst.Key(), i, duration)
    }

    function Entry(i: nat): Assignment
      requires i < |window|
    {
      Assignment(window[i], teacher, room, course)
    }

    function PartKeys(): seq<string>
    {
      seq(|window|, i requires 0 <= i < |window| => Part(i))
    }
  }

  /** The parts of a shaped placement have different keys. */
  lemma PartKeysDistinct(p: Placement)
    requires p.Shaped()
    ensures Distinct(p.PartKeys())
  {
    forall i, j | 0 <= i < j < |p.window| ensures p.Part(i) != p.Part(j) {
      if p.Part(i) == p.Part(j) {
        PartKeyInjective(p.inst, i, p.duration, p.inst, j, p.duration);
      }
    }
  }

  /** The group's entries after the first n parts of p are written into them. */
  function Fill(d: Dict<Assignment>, p: Placement, n: nat): (r: Dict<Assignment>)
    requires d.Valid() && n <= |p.window|
    ensures r.Valid()
  {
    if n == 0 then d else Fill(d, p, n - 1).Put(p.Part(n - 1), p.Entry(n - 1))
  }

  /**
   * The schedule after every part of p is written into its group. Every
   * placement below is for a listed group; one for an unlisted group (a
   * KeyError in Python) is taken to write nothing, so that the fold needs no
   * precondition.
   */
  function Apply(s: Schedule, p: Placement): (r: Schedule)
    requires ScheduleValid(s)
    ensures ScheduleValid(r) && r.keys == s.keys && r.vals.Keys == s.vals.Keys
  {
    if p.group in s.vals then s.Put(p.group, Fill(s.vals[p.group], p, |p.window|)) else s
  }

  /**
   * The loop `for i, ts_id in enumerate(timeslots): schedule[group_id][schedule_key] = {...}`;
   * `schedule[group_id]` is one dict updated in place, held here in `entries`.
   */
  method Place(s: Schedule, p: Placement) returns (r: Schedule)
    requires ScheduleValid(s) && p.group in s.vals
    ensures r == Apply(s, p)
  {
    var entries := s.vals[p.group];
    var i := 0;
    while i < |p.window|
      invariant 0 <= i <= |p.window|
      invariant entries == Fill(s.vals[p.group], p, i)
    {
      var key := PartKey(p.inst.Key(), i, p.duration);
      assert Fill(s.vals[p.group], p, i + 1) == entries.Put(p.Part(i), p.Entry(i));
      entries := entries.Put(key, Assignment(p.window[i], p.teacher, p.room, p.course));
      i := i + 1;
    }
    r := s.Put(p.group, entries);
  }

  /**
   * Writing fresh parts appends their keys in part order, gives each part
   * its entry and keeps the entries already there.
   */
  lemma {:induction false} FillFacts(d: Dict<Assignment>, p: Placement, n: nat)
    requires d.Valid() && n <= |p.window| && p.Shaped()
    requires Disjoint(d.keys, p.PartKeys())
    ensures Fill(d, p, n).keys == d.keys + p.PartKeys()[..n]
    ensures forall i :: 0 <= i < n ==> p.Part(i) in Fill(d, p, n).vals && Fill(d, p, n).vals[p.Part(i)] == p.Entry(i)
    ensures forall k :: k in d.vals ==> k in Fill(d, p, n).vals && Fill(d, p, n).vals[k] == d.vals[k]
  {
    if n > 0 {
      FillFacts(d, p, n - 1);
      FillNextFresh(d, p, n);
      TakeSnoc(p.PartKeys(), n);
      AppendAssoc(d.keys, p.PartKeys()[..n - 1], [p.Part(n - 1)]);
    }
  }

  /** The n-th part's key is not among the keys written before it. */
  lemma FillNextFresh(d: Dict<Assignment>, p: Placement, n: nat)
    requires d.Valid() && 0 < n <= |p.window| && p.Shaped()
    requires Disjoint(d.keys, p.PartKeys())
    requires Fill(d, p, n - 1).keys == d.keys + p.PartKeys()[..n - 1]
    ensures p.Part(n - 1) !in Fill(d, p, n - 1).vals
    ensures p.Part(n - 1) == p.PartKeys()[n - 1]
    ensures forall i :: 0 <= i < n - 1 ==> p.Part(i) != p.Part(n - 1)
  {
    PartKeysDistinct(p);
    var key := p.Part(n - 1);
    assert key == p.PartKeys()[n - 1];
    assert key !in d.keys;
    assert key !in p.PartKeys()[..n - 1];
    forall i | 0 <= i < n - 1 ensures p.Part(i) != key {
      assert p.Part(i) == p.PartKeys()[i];
    }
  }

  lemma ApplyFacts(s: Schedule, p: Placement)
    requires ScheduleValid(s) && p.group in s.vals && p.Shaped()
    requires Disjoint(s.vals[p.group].keys, p.PartKeys())
    ensures Apply(s, p).vals[p.group].keys == s.vals[p.group].keys + p.PartKeys()
    ensures forall i :: 0 <= i < |p.window| ==>
      p.Part(i) in Apply(s, p).vals[p.group].vals && Apply(s, p).vals[p.group].vals[p.Part(i)] == p.Entry(i)
    ensures forall k :: k in s.vals[p.group].vals ==>
      k in Apply(s, p).vals[p.group].vals && Apply(s, p).vals[p.group].vals[k] == s.vals[p.group].vals[k]
    ensures forall h :: h in s.vals && h != p.group ==> Apply(s, p).vals[h] == s.vals[h]
  {
    FillFacts(s.vals[p.group], p, |p.window|);
    assert p.PartKeys()[..|p.window|] == p.PartKeys();
  }

  /** Every placement in order, each applied to the schedule the previous ones left. */
  function ApplyAll(s: Schedule, ps: seq<Placement>): (r: Schedule)
    requires ScheduleValid(s)
    ensures ScheduleValid(r) && r.keys == s.keys && r.vals.Keys == s.vals.Keys
    decreases |ps|
  {
    if ps == [] then s else ApplyAll(Apply(s, ps[0]), ps[1..])
  }

  /** The entry keys the placements write into group g, in writing order. */
  function GroupKeys(ps: seq<Placement>, g: string): seq<string>
  {
    if ps == [] then [] else (if ps[0].group == g then ps[0].PartKeys() else []) + GroupKeys(ps[1..], g)
  }

  /** p writes key k of group g. */
  predicate Writes(p: Placement, g: string, k: string)
  {
    p.group == g && k in p.PartKeys()
  }

  lemma {:induction false} GroupKeysMembers(ps: seq<Placement>, g: string, k: string)
    ensures k in GroupKeys(ps, g) <==> exists j :: 0 <= j < |ps| && Writes(ps[j], g, k)
  {
    if ps != [] {
      GroupKeysMembers(ps[1..], g, k);
      if exists j :: 0 <= j < |ps| && Writes(ps[j], g, k) {
        var j :| 0 <= j < |ps| && Writes(ps[j], g, k);
        if j > 0 {
          assert Writes(ps[1..][j - 1], g, k);
        }
      }
      if exists j :: 0 <= j < |ps[1..]| && Writes(ps[1..][j], g, k) {
        var j :| 0 <= j < |ps[1..]| && Writes(ps[1..][j], g, k);
        assert Writes(ps[j + 1], g, k);
      }
    }
  }

  /** No two placements of one group are for the same instance. */
  predicate DistinctInstances(ps: seq<Placement>)
  {
    forall j, j' :: 0 <= j < j' < |ps| && ps[j].group == ps[j'].group ==> ps[j].inst != ps[j'].inst
  }

  predicate AllShaped(ps: seq<Placement>)
  {
    forall j :: 0 <= j < |ps| ==> ps[j].Shaped()
  }

  /** Parts of placements for different instances have different keys. */
  lemma PartsApart(p: Placement, q: Placement, i: nat, i': nat)
    requires p.Shaped() && q.Shaped() && i < |p.window| && i' < |q.window|
    requires p.inst != q.inst
    ensures p.Part(i) != q.Part(i')
  {
    if p.Part(i) == q.Part(i') {
      PartKeyInjective(p.inst, i, p.duration, q.inst, i', q.duration);
    }
  }

  lemma HeadKeysNotInTail(ps: seq<Placement>, g: string, k: string)
    requires ps != [] && AllShaped(ps) && DistinctInstances(ps) && ps[0].group == g
    requires k in ps[0].PartKeys()
    ensures k !in GroupKeys(ps[1..], g)
  {
    GroupKeysMembers(ps[1..], g, k);
    var i :| 0 <= i < |ps[0].window| && ps[0].PartKeys()[i] == k;
    forall j | 0 <= j < |ps[1..]| ensures !Writes(ps[1..][j], g, k) {
      var q := ps[1..][j];
      assert q == ps[j + 1];
      if q.group == g {
        forall i' | 0 <= i' < |q.window| ensures q.PartKeys()[i'] != k {
          PartsApart(ps[0], q, i, i');
        }
      }
    }
  }

  lemma {:induction false} GroupKeysDistinct(ps: seq<Placement>, g: string)
    requires AllShaped(ps) && DistinctInstances(ps)
    ensures Distinct(GroupKeys(ps, g))
  {
    if ps != [] {
      assert AllShaped(ps[1..]) && DistinctInstances(ps[1..]) by {
        forall j, j' | 0 <= j < j' < |ps[1..]| && ps[1..][j].group == ps[1..][j'].group
          ensures ps[1..][j].inst != ps[1..][j'].inst
        {
          assert ps[1..][j] == ps[j + 1] && ps[1..][j'] == ps[j' + 1];
        }
      }
      GroupKeysDistinct(ps[1..], g);
      GroupKeysHead(ps, g);
      if ps[0].group == g {
        PartKeysDistinct(ps[0]);
        forall k | k in ps[0].PartKeys() ensures k !in GroupKeys(ps[1..], g) {
          HeadKeysNotInTail(ps, g, k);
        }
        DistinctAppend(ps[0].PartKeys(), GroupKeys(ps[1..], g));
      }
    }
  }

  /** No key is written twice into group g, nor over an entry already there. */
  predicate FreshAt(s: Schedule, ps: seq<Placement>, g: string)
  {
    g in s.vals ==> Distinct(s.vals[g].keys + GroupKeys(ps, g))
  }

  /** No key is written twice into one group, nor over an entry already there. */
  predicate Fresh(s: Schedule, ps: seq<Placement>)
  {
    forall g :: g in s.vals ==> FreshAt(s, ps, g)
  }

  lemma GroupKeysHead(ps: seq<Placement>, g: string)
    requires ps != []
    ensures ps[0].group == g ==> GroupKeys(ps, g) == ps[0].PartKeys() + GroupKeys(ps[1..], g)
    ensures ps[0].group != g ==> GroupKeys(ps, g) == GroupKeys(ps[1..], g)
  {
  }

  lemma FreshHead(s: Schedule, ps: seq<Placement>)
    requires ps != [] && FreshAt(s, ps, ps[0].group) && ps[0].group in s.vals
    ensures Disjoint(s.vals[ps[0].group].keys, ps[0].PartKeys())
  {
    var g := ps[0].group;
    GroupKeysHead(ps, g);
    DisjointOfDistinctAppend(s.vals[g].keys, ps[0].PartKeys(), GroupKeys(ps[1..], g));
  }

  lemma ApplyKeys(s: Schedule, p: Placement)
    requires ScheduleValid(s) && p.group in s.vals && p.Shaped()
    requires Disjoint(s.vals[p.group].keys, p.PartKeys())
    ensures Apply(s, p).vals[p.group].keys == s.vals[p.group].keys + p.PartKeys()
  {
    FillFacts(s.vals[p.group], p, |p.window|);
    assert p.PartKeys()[..|p.window|] == p.PartKeys();
  }

  lemma ApplyOther(s: Schedule, p: Placement, h: string)
    requires ScheduleValid(s) && p.group in s.vals && h in s.vals && h != p.group
    ensures Apply(s, p).vals[h] == s.vals[h]
  {
  }

  lemma FreshTailAt(s: Schedule, ps: seq<Placement>, g: string)
    requires ScheduleValid(s) && ps != [] && ps[0].group in s.vals && ps[0].Shaped()
    requires Disjoint(s.vals[ps[0].group].keys, ps[0].PartKeys())
    requires FreshAt(s, ps, g)
    ensures FreshAt(Apply(s, ps[0]), ps[1..], g)
  {
    var p := ps[0];
    GroupKeysHead(ps, g);
    if g == p.group {
      ApplyKeys(s, p);
      AppendAssoc(s.vals[g].keys, p.PartKeys(), GroupKeys(ps[1..], g));
    } else if g in s.vals {
      ApplyOther(s, p, g);
    }
  }

  lemma FreshTail(s: Schedule, ps: seq<Placement>)
    requires ScheduleValid(s) && ps != [] && ps[0].group in s.vals && ps[0].Shaped()
    requires Fresh(s, ps)
    ensures Fresh(Apply(s, ps[0]), ps[1..])
    ensures Disjoint(s.vals[ps[0].group].keys, ps[0].PartKeys())
  {
    FreshHead(s, ps);
    forall g | g in Apply(s, ps[0]).vals ensures FreshAt(Apply(s, ps[0]), ps[1..], g) {
      FreshTailAt(s, ps, g);
    }
  }

  lemma DisjointOfDistinctAppend(a: seq<string>, b: seq<string>, c: seq<string>)
    requires Distinct(a + (b + c))
    ensures Disjoint(a, b)
  {
    forall i, j | 0 <= i < |a| && 0 <= j < |b| ensures a[i] != b[j] {
      assert (a + (b + c))[i] == a[i];
      assert (a + (b + c))[|a| + j] == b[j];
    }
  }

  /** Applying placements that write fresh keys: group g's keys grow by the placements' part keys, in order. */
  lemma {:induction false} ApplyAllKeys(s: Schedule, ps: seq<Placement>, g: string)
    requires ScheduleValid(s) && g in s.vals
    requires forall j :: 0 <= j < |ps| ==> ps[j].group in s.vals && ps[j].Shaped()
    requires Fresh(s, ps)
    ensures ApplyAll(s, ps).vals[g].keys == s.vals[g].keys + GroupKeys(ps, g)
    decreases |ps|
  {
    if ps != [] {
      var p := ps[0];
      var s1 := Apply(s, p);
      assert ApplyAll(s, ps) == ApplyAll(s1, ps[1..]);
      FreshTail(s, ps);
      ApplyAllKeys(s1, ps[1..], g);
      var rest := GroupKeys(ps[1..], g);
      GroupKeysHead(ps, g);
      if g == p.group {
        ApplyKeys(s, p);
        AppendAssoc(s.vals[g].keys, p.PartKeys(), rest);
      } else {
        ApplyOther(s, p, g);
      }
    }
  }

  lemma ApplyPart(s: Schedule, p: Placement, i: nat)
    requires ScheduleValid(s) && p.group in s.vals && p.Shaped() && i < |p.window|
    requires Disjoint(s.vals[p.group].keys, p.PartKeys())
    ensures p.Part(i) in Apply(s, p).vals[p.group].vals && Apply(s, p).vals[p.group].vals[p.Part(i)] == p.Entry(i)
  {
    FillFacts(s.vals[p.group], p, |p.window|);
  }

  lemma ApplyKeep(s: Schedule, p: Placement, g: string, k: string)
    requires ScheduleValid(s) && p.group in s.vals && p.Shaped()
    requires Disjoint(s.vals[p.group].keys, p.PartKeys())
    requires g in s.vals && k in s.vals[g].vals
    ensures k in Apply(s, p).vals[g].vals && Apply(s, p).vals[g].vals[k] == s.vals[g].vals[k]
  {
    if g == p.group {
      FillFacts(s.vals[p.group], p, |p.window|);
    }
  }

  /** One step of the fold: the first placement applied, the rest still writing fresh keys. */
  lemma ApplyAllStep(s: Schedule, ps: seq<Placement>)
    requires ScheduleValid(s) && ps != []
    requires forall j :: 0 <= j < |ps| ==> ps[j].group in s.vals && ps[j].Shaped()
    requires Fresh(s, ps)
    ensures forall j :: 0 <= j < |ps[1..]| ==> ps[1..][j].group in Apply(s, ps[0]).vals && ps[1..][j].Shaped()
    ensures Fresh(Apply(s, ps[0]), ps[1..])
    ensures Disjoint(s.vals[ps[0].group].keys, ps[0].PartKeys())
    ensures ApplyAll(s, ps) == ApplyAll(Apply(s, ps[0]), ps[1..])
  {
    FreshTail(s, ps);
  }

  /** Applying placements that write fresh keys: an entry already there is kept. */
  lemma {:induction false} ApplyAllKeep(s: Schedule, ps: seq<Placement>, g: string, k: string)
    requires ScheduleValid(s)
    requires forall j :: 0 <= j < |ps| ==> ps[j].group in s.vals && ps[j].Shaped()
    requires Fresh(s, ps)
    requires g in s.vals && k in s.vals[g].vals
    ensures k in ApplyAll(s, ps).vals[g].vals && ApplyAll(s, ps).vals[g].vals[k] == s.vals[g].vals[k]
    decreases |ps|
  {
    if ps != [] {
      var s1 := Apply(s, ps[0]);
      ApplyAllStep(s, ps);
      ApplyKeep(s, ps[0], g, k);
      ApplyAllKeep(s1, ps[1..], g, k);
    }
  }

  lemma ApplyAllFirstPart(s: Schedule, ps: seq<Placement>, i: nat)
    requires ScheduleValid(s)
    requires forall j :: 0 <= j < |ps| ==> ps[j].group in s.vals && ps[j].Shaped()
    requires Fresh(s, ps)
    requires 0 < |ps| && i < |ps[0].window|
    ensures ps[0].Part(i) in ApplyAll(s, ps).vals[ps[0].group].vals
    ensures ApplyAll(s, ps).vals[ps[0].group].vals[ps[0].Part(i)] == ps[0].Entry(i)
  {
    ApplyAllStep(s, ps);
    ApplyPart(s, ps[0], i);
    ApplyAllKeep(Apply(s, ps[0]), ps[1..], ps[0].group, ps[0].Part(i));
  }

  /** Applying placements that write fresh keys: part i of placement j holds its entry. */
  lemma {:induction false} ApplyAllPart(s: Schedule, ps: seq<Placement>, j: nat, i: nat)
    requires ScheduleValid(s)
    requires forall j :: 0 <= j < |ps| ==> ps[j].group in s.vals && ps[j].Shaped()
    requires Fresh(s, ps)
    requires j < |ps| && i < |ps[j].window|
    ensures ps[j].Part(i) in ApplyAll(s, ps).vals[ps[j].group].vals
    ensures ApplyAll(s, ps).vals[ps[j].group].vals[ps[j].Part(i)] == ps[j].Entry(i)
    decreases |ps|
  {
    if j == 0 {
      ApplyAllFirstPart(s, ps, i);
    } else {
      var t := Apply(s, ps[0]);
      var rest := ps[1..];
      ApplyAllStep(s, ps);
      assert rest[j - 1] == ps[j];
      ApplyAllPart(t, rest, j - 1, i);
      assert ApplyAll(s, ps) == ApplyAll(t, rest);
    }
  }

  /** The fold with one more placement is that placement applied to the fold. */
  lemma {:induction false} ApplyAllSnoc(s: Schedule, ps: seq<Placement>, p: Placement)
    requires ScheduleValid(s)
    ensures ApplyAll(s, ps + [p]) == Apply(ApplyAll(s, ps), p)
    decreases |ps|
  {
    if ps == [] {
      assert ApplyAll(s, [p]) == ApplyAll(Apply(s, p), []);
    } else {
      var s1 := Apply(s, ps[0]);
      assert (ps + [p])[0] == ps[0] && (ps + [p])[1..] == ps[1..] + [p];
      assert ApplyAll(s, ps) == ApplyAll(s1, ps[1..]);
      ApplyAllSnoc(s1, ps[1..], p);
    }
  }

  /** Every entry after writing parts of p is one that was there or one of p's parts. */
  lemma {:induction false} FillSource(d: Dict<Assignment>, p: Placement, n: nat, k: string)
    requires d.Valid() && n <= |p.window|
    requires k in Fill(d, p, n).vals
    ensures || (k in d.vals && Fill(d, p, n).vals[k] == d.vals[k])
            || (exists i :: 0 <= i < n && k == p.Part(i) && Fill(d, p, n).vals[k] == p.Entry(i))
  {
    if n > 0 && k != p.Part(n - 1) {
      FillSource(d, p, n - 1, k);
    }
  }

  lemma ApplySource(s: Schedule, p: Placement, g: string, k: string)
    requires ScheduleValid(s) && p.group in s.vals && g in s.vals
    requires k in Apply(s, p).vals[g].vals
    ensures || (k in s.vals[g].vals && Apply(s, p).vals[g].vals[k] == s.vals[g].vals[k])
            || (p.group == g && exists i :: 0 <= i < |p.window| && k == p.Part(i) && Apply(s, p).vals[g].vals[k] == p.Entry(i))
  {
    if g == p.group {
      FillSource(s.vals[g], p, |p.window|, k);
    }
  }

  /** Entry k of group g holds part i of one of the placements, written into g. */
  predicate FromPart(e: Assignment, ps: seq<Placement>, g: string, k: string)
  {
    exists j, i :: 0 <= j < |ps| && 0 <= i < |ps[j].window| && ps[j].group == g && k == ps[j].Part(i) && e == ps[j].Entry(i)
  }

  lemma FromPartCons(e: Assignment, ps: seq<Placement>, g: string, k: string)
    requires ps != []
    requires FromPart(e, ps[1..], g, k) || (ps[0].group == g && exists i :: 0 <= i < |ps[0].window| && k == ps[0].Part(i) && e == ps[0].Entry(i))
    ensures FromPart(e, ps, g, k)
  {
    if FromPart(e, ps[1..], g, k) {
      var j, i :| 0 <= j < |ps[1..]| && 0 <= i < |ps[1..][j].window| && ps[1..][j].group == g && k == ps[1..][j].Part(i) && e == ps[1..][j].Entry(i);
      assert ps[1..][j] == ps[j + 1];
    }
  }

  lemma ApplyAllUnfold(s: Schedule, ps: seq<Placement>)
    requires ScheduleValid(s) && ps != []
    requires forall j :: 0 <= j < |ps| ==> ps[j].group in s.vals
    ensures forall j :: 0 <= j < |ps[1..]| ==> ps[1..][j].group in Apply(s, ps[0]).vals
    ensures ApplyAll(s, ps) == ApplyAll(Apply(s, ps[0]), ps[1..])
  {
  }

  /** Every entry after applying placements was there before or is a part of one of them. */
  lemma {:induction false} ApplyAllSource(s: Schedule, ps: seq<Placement>, g: string, k: string)
    requires ScheduleValid(s) && g in s.vals
    requires forall j :: 0 <= j < |ps| ==> ps[j].group in s.vals
    requires k in ApplyAll(s, ps).vals[g].vals
    ensures || (k in s.vals[g].vals && ApplyAll(s, ps).vals[g].vals[k] == s.vals[g].vals[k])
            || FromPart(ApplyAll(s, ps).vals[g].vals[k], ps, g, k)
    decreases |ps|
  {
    if ps != [] {
      var s1 := Apply(s, ps[0]);
      ApplyAllUnfold(s, ps);
      ApplyAllSource(s1, ps[1..], g, k);
      var e := ApplyAll(s, ps).vals[g].vals[k];
      if k in s1.vals[g].vals && e == s1.vals[g].vals[k] {
        ApplySource(s, ps[0], g, k);
        if !(k in s.vals[g].vals && e == s.vals[g].vals[k]) {
          FromPartCons(e, ps, g, k);
        }
      } else {
        FromPartCons(e, ps, g, k);
      }
    }
  }

  /** Python `==` on schedules: the same groups, each with the same entries, in any order. */
  function View(s: Schedule): map<string, map<string, Assignment>>
  {
    map g | g in s.vals :: s.vals[g].vals
  }

  /** Every listed group with no entries yet: `schedule[group_id] = {}` for each group id. */
  function InitGroups(gs: seq<string>): (s: Schedule)
    requires Distinct(gs)
    ensures ScheduleValid(s) && s.keys == gs
    ensures forall g :: g in s.vals ==> s.vals[g] == Empty()
  {
    if gs == [] then Empty()
    else
      var front := InitGroups(gs[..|gs| - 1]);
      assert gs == gs[..|gs| - 1] + [gs[|gs| - 1]];
      front.Put(gs[|gs| - 1], Empty())
  }
}
