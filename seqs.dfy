/** Sequence helpers shared by every module: duplicates, filters and subsequences. */
module Seqs {

  predicate Distinct<T(==)>(s: seq<T>)
  {
    forall i, j :: 0 <= i < j < |s| ==> s[i] != s[j]
  }

  /** The elements of s in order of first occurrence (`list(dict.fromkeys(s))`). */
  function Dedup<T(==)>(s: seq<T>): (r: seq<T>)
    ensures Distinct(r)
    ensures forall i :: 0 <= i < |r| ==> r[i] in s
    ensures forall i :: 0 <= i < |s| ==> s[i] in r
  {
    if s == [] then []
    else
      var front := Dedup(s[..|s| - 1]);
      var last := s[|s| - 1];
      assert forall i :: 0 <= i < |s| - 1 ==> s[i] == s[..|s| - 1][i];
      if last in front then front else front + [last]
  }

  lemma {:induction false} DedupOfDistinct<T>(s: seq<T>)
    requires Distinct(s)
    ensures Dedup(s) == s
  {
    if s != [] {
      DedupOfDistinct(s[..|s| - 1]);
      assert s[|s| - 1] !in s[..|s| - 1];
      assert s[..|s| - 1] + [s[|s| - 1]] == s;
    }
  }

  lemma {:induction false} DistinctCount<T>(s: seq<T>, x: T)
    requires Distinct(s)
    ensures multiset(s)[x] == if x in s then 1 else 0
  {
    if s != [] {
      var front := s[..|s| - 1];
      assert s == front + [s[|s| - 1]];
      DistinctCount(front, x);
      assert x in s <==> x in front || x == s[|s| - 1];
    }
  }

  /** Duplicate-free sequences with the same elements have the same multiset. */
  lemma DistinctSameElements<T>(a: seq<T>, b: seq<T>)
    requires Distinct(a) && Distinct(b)
    requires forall i :: 0 <= i < |a| ==> a[i] in b
    requires forall i :: 0 <= i < |b| ==> b[i] in a
    ensures multiset(a) == multiset(b)
  {
    forall x ensures multiset(a)[x] == multiset(b)[x] {
      DistinctCount(a, x);
      DistinctCount(b, x);
    }
  }

  lemma SnocThenAppend<T>(a: seq<T>, x: T, b: seq<T>)
    ensures (a + [x]) + b == a + ([x] + b)
  {
  }

  lemma AppendAssoc<T>(a: seq<T>, b: seq<T>, c: seq<T>)
    ensures a + (b + c) == (a + b) + c
  {
  }

  lemma TakeSnoc<T>(s: seq<T>, n: nat)
    requires 0 < n <= |s|
    ensures s[..n] == s[..n - 1] + [s[n - 1]]
  {
  }

  lemma SnocIndex<T>(a: seq<T>, x: T, b: seq<T>)
    ensures ((a + [x]) + b)[|a|] == x
  {
  }

  /** `[x for x in s if p(x)]`. */
  function Filter<T>(s: seq<T>, p: T -> bool): (r: seq<T>)
    ensures |r| <= |s|
    ensures forall i :: 0 <= i < |r| ==> p(r[i])
  {
    if s == [] then []
    else
      var front := Filter(s[..|s| - 1], p);
      if p(s[|s| - 1]) then front + [s[|s| - 1]] else front
  }

  lemma {:induction false} FilterMembers<T>(s: seq<T>, p: T -> bool, x: T)
    ensures x in Filter(s, p) <==> x in s && p(x)
  {
    if s != [] {
      FilterMembers(s[..|s| - 1], p, x);
      assert s == s[..|s| - 1] + [s[|s| - 1]];
    }
  }

  lemma {:induction false} FilterAppend<T>(a: seq<T>, b: seq<T>, p: T -> bool)
    ensures Filter(a + b, p) == Filter(a, p) + Filter(b, p)
    decreases |b|
  {
    if b == [] {
      assert a + b == a;
    } else {
      var b' := b[..|b| - 1];
      assert a + b == (a + b') + [b[|b| - 1]];
      assert (a + b)[..|a + b| - 1] == a + b';
      assert (a + b)[|a + b| - 1] == b[|b| - 1];
      FilterAppend(a, b', p);
      if p(b[|b| - 1]) {
        calc {
          Filter(a + b, p);
          Filter(a + b', p) + [b[|b| - 1]];
          Filter(a, p) + Filter(b', p) + [b[|b| - 1]];
          Filter(a, p) + (Filter(b', p) + [b[|b| - 1]]);
          Filter(a, p) + Filter(b, p);
        }
      }
    }
  }

  lemma {:induction false} FilterOfDistinct<T>(s: seq<T>, p: T -> bool)
    requires Distinct(s)
    ensures Distinct(Filter(s, p))
  {
    if s != [] {
      var front := s[..|s| - 1];
      FilterOfDistinct(front, p);
      FilterMembers(front, p, s[|s| - 1]);
    }
  }

  /** a can be obtained from b by deleting elements: `a` keeps `b`'s order. */
  predicate SubsequenceOf<T(==)>(a: seq<T>, b: seq<T>)
  {
    if a == [] then true
    else if b == [] then false
    else if a[|a| - 1] == b[|b| - 1] then SubsequenceOf(a[..|a| - 1], b[..|b| - 1])
    else SubsequenceOf(a, b[..|b| - 1])
  }

  lemma {:induction false} FilterIsSubsequence<T>(s: seq<T>, p: T -> bool)
    ensures SubsequenceOf(Filter(s, p), s)
  {
    if s != [] {
      var front := s[..|s| - 1];
      FilterIsSubsequence(front, p);
      if !p(s[|s| - 1]) {
        SubsequenceExtend(Filter(front, p), front, s[|s| - 1]);
      } else {
        assert (Filter(front, p) + [s[|s| - 1]])[..|Filter(front, p)|] == Filter(front, p);
      }
    }
  }

  lemma {:induction false} SubsequenceExtend<T>(a: seq<T>, b: seq<T>, x: T)
    requires SubsequenceOf(a, b)
    ensures SubsequenceOf(a, b + [x])
    decreases |b|, 1
  {
    assert (b + [x])[..|b|] == b;
    if a != [] && a[|a| - 1] == x {
      SubsequenceDropLast(a, b);
    }
  }

  lemma {:induction false} SubsequenceDropLast<T>(a: seq<T>, b: seq<T>)
    requires a != [] && SubsequenceOf(a, b)
    ensures SubsequenceOf(a[..|a| - 1], b)
    decreases |b|, 0
  {
    var b' := b[..|b| - 1];
    assert b' + [b[|b| - 1]] == b;
    if a[|a| - 1] == b[|b| - 1] {
      SubsequenceExtend(a[..|a| - 1], b', b[|b| - 1]);
    } else {
      SubsequenceDropLast(a, b');
      SubsequenceExtend(a[..|a| - 1], b', b[|b| - 1]);
    }
  }

  /** a stays a subsequence of b when both gain the same first element. */
  lemma {:induction false} SubsequenceCons<T>(x: T, a: seq<T>, b: seq<T>)
    requires SubsequenceOf(a, b)
    ensures SubsequenceOf([x] + a, [x] + b)
    decreases |b|
  {
    if b == [] {
      assert a == [];
      assert SubsequenceOf([x], [x]) by {
        assert [x][..0] == [];
      }
    } else if a == [] {
      SubsequenceCons(x, a, b[..|b| - 1]);
      assert [x] + a == [x];
      assert ([x] + b)[..|b|] == [x] + b[..|b| - 1];
      SubsequenceExtend([x], [x] + b[..|b| - 1], b[|b| - 1]);
      assert [x] + b[..|b| - 1] + [b[|b| - 1]] == [x] + b;
    } else {
      var b' := b[..|b| - 1];
      assert ([x] + b)[..|b|] == [x] + b';
      assert ([x] + b)[|b|] == b[|b| - 1];
      if a[|a| - 1] == b[|b| - 1] {
        SubsequenceCons(x, a[..|a| - 1], b');
        assert ([x] + a)[..|a|] == [x] + a[..|a| - 1];
      } else {
        SubsequenceCons(x, a, b');
      }
    }
  }

  /** The concatenation of a sequence of sequences, in order. */
  function Concat<T>(ss: seq<seq<T>>): (r: seq<T>)
    ensures |ss| == 0 ==> r == []
  {
    if ss == [] then [] else Concat(ss[..|ss| - 1]) + ss[|ss| - 1]
  }

  lemma {:induction false} ConcatMembers<T>(ss: seq<seq<T>>, x: T)
    ensures x in Concat(ss) <==> exists i :: 0 <= i < |ss| && x in ss[i]
  {
    if ss != [] {
      var front := ss[..|ss| - 1];
      ConcatMembers(front, x);
      if x in Concat(front) {
        var i :| 0 <= i < |front| && x in front[i];
        assert x in ss[i];
      }
      if exists i :: 0 <= i < |ss| && x in ss[i] {
        var i :| 0 <= i < |ss| && x in ss[i];
        if i < |ss| - 1 {
          assert x in front[i];
        }
      }
    }
  }

  lemma ConcatSnoc<T>(ss: seq<seq<T>>, s: seq<T>)
    ensures Concat(ss + [s]) == Concat(ss) + s
  {
    assert (ss + [s])[..|ss|] == ss;
  }

  /** Concat unfolded from the front. */
  lemma {:induction false} ConcatCons<T>(s: seq<T>, ss: seq<seq<T>>)
    ensures Concat([s] + ss) == s + Concat(ss)
    decreases |ss|
  {
    if ss == [] {
      assert Concat([s]) == Concat([s][..0]) + s;
    } else {
      var front := ss[..|ss| - 1];
      var last := ss[|ss| - 1];
      assert [s] + ss == ([s] + front) + [last];
      ConcatSnoc([s] + front, last);
      ConcatCons(s, front);
      ConcatSnoc(front, last);
      assert ss == front + [last];
      AppendAssoc(s, Concat(front), last);
    }
  }

  /** Concat of two halves. */
  lemma {:induction false} ConcatAppend<T>(a: seq<seq<T>>, b: seq<seq<T>>)
    ensures Concat(a + b) == Concat(a) + Concat(b)
    decreases |b|
  {
    if b == [] {
      assert a + b == a;
    } else {
      var front := b[..|b| - 1];
      var last := b[|b| - 1];
      assert a + b == (a + front) + [last];
      assert b == front + [last];
      ConcatSnoc(a + front, last);
      ConcatAppend(a, front);
      ConcatSnoc(front, last);
      AppendAssoc(Concat(a), Concat(front), last);
    }
  }

  predicate Disjoint<T(==)>(a: seq<T>, b: seq<T>)
  {
    forall x :: x in a ==> x !in b
  }

  lemma DistinctAppend<T>(a: seq<T>, b: seq<T>)
    requires Distinct(a) && Distinct(b) && Disjoint(a, b)
    ensures Distinct(a + b)
  {
    forall i, j | 0 <= i < j < |a + b| ensures (a + b)[i] != (a + b)[j] {
      if i < |a| <= j {
        assert (a + b)[i] in a;
        assert (a + b)[j] == b[j - |a|];
      } else if |a| <= i {
        assert (a + b)[i] == b[i - |a|];
        assert (a + b)[j] == b[j - |a|];
      }
    }
  }

  /** Concatenating duplicate-free, pairwise disjoint blocks gives a duplicate-free sequence. */
  lemma {:induction false} ConcatDistinct<T>(ss: seq<seq<T>>)
    requires forall i :: 0 <= i < |ss| ==> Distinct(ss[i])
    requires forall i, j :: 0 <= i < j < |ss| ==> Disjoint(ss[i], ss[j])
    ensures Distinct(Concat(ss))
  {
    if ss != [] {
      var front := ss[..|ss| - 1];
      ConcatDistinct(front);
      forall x | x in Concat(front) ensures x !in ss[|ss| - 1] {
        ConcatMembers(front, x);
        var i :| 0 <= i < |front| && x in front[i];
        assert Disjoint(ss[i], ss[|ss| - 1]);
      }
      DistinctAppend(Concat(front), ss[|ss| - 1]);
    }
  }

  /** `s.index(x)`: the position of the first occurrence. */
  function IndexOf<T(==)>(s: seq<T>, x: T): (i: nat)
    requires x in s
    ensures i < |s| && s[i] == x && x !in s[..i]
  {
    if s[0] == x then 0
    else
      var i := 1 + IndexOf(s[1..], x);
      assert s[..i] == [s[0]] + s[1..][..i - 1];
      i
  }

  lemma {:induction false} SubsequenceMembers<T>(a: seq<T>, b: seq<T>)
    requires SubsequenceOf(a, b)
    ensures forall x :: x in a ==> x in b
    decreases |b|
  {
    if a != [] && b != [] {
      var a', b' := a[..|a| - 1], b[..|b| - 1];
      assert b == b' + [b[|b| - 1]];
      if a[|a| - 1] == b[|b| - 1] {
        SubsequenceMembers(a', b');
        assert a == a' + [a[|a| - 1]];
      } else {
        SubsequenceMembers(a, b');
      }
    }
  }

  /** A selection from a duplicate-free sequence is duplicate-free. */
  lemma {:induction false} SubsequenceDistinct<T>(a: seq<T>, b: seq<T>)
    requires SubsequenceOf(a, b) && Distinct(b)
    ensures Distinct(a)
    decreases |b|
  {
    if a != [] && b != [] {
      var a', b' := a[..|a| - 1], b[..|b| - 1];
      if a[|a| - 1] == b[|b| - 1] {
        SubsequenceDistinct(a', b');
        SubsequenceMembers(a', b');
        assert a == a' + [a[|a| - 1]];
        DistinctAppend(a', [a[|a| - 1]]);
      } else {
        SubsequenceDistinct(a, b');
      }
    }
  }
}
