/**
 * The genetic operators on genomes.  A genome is a flat list of integers,
 * three per scheduled instance: a timeslot index, a teacher index and a room
 * index.  Crossover swaps the tails of two genomes at a cut that falls on a
 * triple boundary; mutation overwrites one gene.  Both work in place, as the
 * Python list slice and element assignments do, so they are methods on
 * arrays; the random draws are parameters.
 */
module Operators {

  // ------------------------------------------------------------ genes in range

  /** The number of ids a gene may index: timeslots, teachers or rooms, by its offset in its triple. */
  function KindBound(kind: nat, slots: nat, teachers: nat, rooms: nat): nat
  {
    if kind == 0 then slots else if kind == 1 then teachers else rooms
  }

  /** Every gene is a valid index into the id list of its kind. */
  predicate InRange(genes: seq<int>, slots: nat, teachers: nat, rooms: nat)
  {
    forall i :: 0 <= i < |genes| ==> 0 <= genes[i] < KindBound(i % 3, slots, teachers, rooms)
  }

  // ------------------------------------------------------------ crossover

  /** The cut point: the random draw in [1, n-1] rounded down to a triple boundary. */
  function CutPoint(n: int, draw: int): (cut: nat)
    requires 1 <= draw < n
    ensures cut % 3 == 0 && cut <= draw < cut + 3 && cut < n
  {
    (draw / 3) * 3
  }

  /** The pair of genomes after exchanging everything from `cut` on. */
  function SwapTails(x: seq<int>, y: seq<int>, cut: nat): (r: (seq<int>, seq<int>))
    requires cut <= |x| && |x| == |y|
  {
    (x[..cut] + y[cut..], y[..cut] + x[cut..])
  }

  /** Both children keep their parent's length and the genes before the cut, and take the other parent's tail. */
  lemma SwapTailsShape(x: seq<int>, y: seq<int>, cut: nat)
    requires cut <= |x| && |x| == |y|
    ensures |SwapTails(x, y, cut).0| == |x| && |SwapTails(x, y, cut).1| == |y|
    ensures forall i :: 0 <= i < cut ==> SwapTails(x, y, cut).0[i] == x[i] && SwapTails(x, y, cut).1[i] == y[i]
    ensures forall i :: cut <= i < |x| ==> SwapTails(x, y, cut).0[i] == y[i] && SwapTails(x, y, cut).1[i] == x[i]
  {
  }

  /** Crossing the children again at the same cut gives back the parents. */
  lemma SwapTailsTwice(x: seq<int>, y: seq<int>, cut: nat)
    requires cut <= |x| && |x| == |y|
    ensures SwapTails(SwapTails(x, y, cut).0, SwapTails(x, y, cut).1, cut) == (x, y)
  {
    var (u, v) := SwapTails(x, y, cut);
    assert u[..cut] == x[..cut] && v[cut..] == x[cut..];
    assert v[..cut] == y[..cut] && u[cut..] == y[cut..];
    assert u[..cut] + v[cut..] == x;
    assert v[..cut] + u[cut..] == y;
  }

  /** No gene is created or lost: the two children hold together the parents' genes. */
  lemma SwapTailsGenes(x: seq<int>, y: seq<int>, cut: nat)
    requires cut <= |x| && |x| == |y|
    ensures multiset(SwapTails(x, y, cut).0) + multiset(SwapTails(x, y, cut).1) == multiset(x) + multiset(y)
  {
    assert x == x[..cut] + x[cut..];
    assert y == y[..cut] + y[cut..];
  }

  /** At a cut on a triple boundary each triple of a child is the triple of one parent at the same place. */
  lemma SwapTailsTriples(x: seq<int>, y: seq<int>, cut: nat, m: nat)
    requires cut <= |x| && |x| == |y| && cut % 3 == 0 && 3 * m + 3 <= |x|
    ensures SwapTails(x, y, cut).0[3 * m..3 * m + 3] == (if 3 * m < cut then x else y)[3 * m..3 * m + 3]
    ensures SwapTails(x, y, cut).1[3 * m..3 * m + 3] == (if 3 * m < cut then y else x)[3 * m..3 * m + 3]
  {
    var (u, v) := SwapTails(x, y, cut);
    if 3 * m < cut {
      assert 3 * m + 3 <= cut;
      assert u[3 * m..3 * m + 3] == x[..cut][3 * m..3 * m + 3];
      assert v[3 * m..3 * m + 3] == y[..cut][3 * m..3 * m + 3];
    } else {
      assert u[3 * m..3 * m + 3] == y[cut..][3 * m - cut..3 * m + 3 - cut];
      assert v[3 * m..3 * m + 3] == x[cut..][3 * m - cut..3 * m + 3 - cut];
    }
  }

  /** At a cut on a triple boundary the children of in-range parents are in range. */
  lemma SwapTailsInRange(x: seq<int>, y: seq<int>, cut: nat, slots: nat, teachers: nat, rooms: nat)
    requires cut <= |x| && |x| == |y| && cut % 3 == 0
    requires InRange(x, slots, teachers, rooms) && InRange(y, slots, teachers, rooms)
    ensures InRange(SwapTails(x, y, cut).0, slots, teachers, rooms)
    ensures InRange(SwapTails(x, y, cut).1, slots, teachers, rooms)
  {
    SwapTailsShape(x, y, cut);
  }

  /**
   * Tail-swap crossover in place.  Genomes of different lengths, or of
   * length 3 or less, are left alone; otherwise `draw` is the random cut in
   * [1, n-1], rounded down to a multiple of 3, and the tails from there on
   * are exchanged.
   */
  method Crossover(a: array<int>, b: array<int>, draw: int)
    requires a.Length == b.Length && a.Length > 3 ==> 1 <= draw < a.Length
    modifies a, b
    ensures a.Length == b.Length && a.Length > 3 ==>
      (a[..], b[..]) == SwapTails(old(a[..]), old(b[..]), CutPoint(a.Length, draw))
    ensures !(a.Length == b.Length && a.Length > 3) ==> a[..] == old(a[..]) && b[..] == old(b[..])
  {
    if a.Length != b.Length || a.Length <= 3 {
      return;
    }
    var cut := CutPoint(a.Length, draw);
    var i := cut;
    while i < a.Length
      invariant cut <= i <= a.Length
      invariant forall j :: 0 <= j < cut ==> a[j] == old(a[j]) && b[j] == old(b[j])
      invariant forall j :: cut <= j < i ==> a[j] == old(b[j]) && b[j] == old(a[j])
      invariant forall j :: i <= j < a.Length ==> a[j] == old(a[j]) && b[j] == old(b[j])
    {
      var t := a[i];
      a[i] := b[i];
      b[i] := t;
      i := i + 1;
    }
    assert a[..] == old(a[..])[..cut] + old(b[..])[cut..];
    assert b[..] == old(b[..])[..cut] + old(a[..])[cut..];
  }

  // ------------------------------------------------------------ mutation

  /** The gene the mutation overwrites: component `component` of triple `point`. */
  function MutationIndex(point: nat, component: nat): (i: nat)
    requires component < 3
    ensures i % 3 == component && i / 3 == point
  {
    3 * point + component
  }

  /** Overwriting one gene with an index valid for its kind keeps a genome in range. */
  lemma MutateInRange(genes: seq<int>, point: nat, component: nat, value: int, slots: nat, teachers: nat, rooms: nat)
    requires component < 3 && MutationIndex(point, component) < |genes|
    requires 0 <= value < KindBound(component, slots, teachers, rooms)
    requires InRange(genes, slots, teachers, rooms)
    ensures InRange(genes[MutationIndex(point, component) := value], slots, teachers, rooms)
  {
  }

  /**
   * One-gene mutation in place.  A genome shorter than 3 is left alone;
   * otherwise `point` is the random triple in [0, n/3 - 1], `component` the
   * random kind in [0, 2], and `value` the random index drawn for that kind.
   */
  method Mutate(a: array<int>, point: int, component: int, value: int, slots: nat, teachers: nat, rooms: nat)
    requires a.Length >= 3 ==> 0 <= point < a.Length / 3 && 0 <= component < 3
    requires a.Length >= 3 ==> 0 <= value < KindBound(component, slots, teachers, rooms)
    modifies a
    ensures a.Length >= 3 ==> a[..] == old(a[..])[MutationIndex(point, component) := value]
    ensures a.Length < 3 ==> a[..] == old(a[..])
  {
    if a.Length >= 3 {
      var i := MutationIndex(point, component);
      a[i] := value;
    }
  }
}
