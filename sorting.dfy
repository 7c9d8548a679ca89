/**
 * Python's sorted(xs) and sorted(xs, key=k), as a stable insertion sort
 * parameterised by the "less or equal" comparison it sorts by.
 */
module Sorting {
  import Text
  import opened Seqs

  ghost predicate TotalPreorder<T(!new)>(le: (T, T) -> bool)
  {
    && (forall a, b :: le(a, b) || le(b, a))
    && (forall a, b, c :: le(a, b) && le(b, c) ==> le(a, c))
  }

  ghost predicate Antisymmetric<T(!new)>(le: (T, T) -> bool)
  {
    forall a, b :: le(a, b) && le(b, a) ==> a == b
  }

  predicate SortedBy<T>(s: seq<T>, le: (T, T) -> bool)
  {
    forall i, j :: 0 <= i < j < |s| ==> le(s[i], s[j])
  }

  /**
   * Puts x in front of the first element it is "less or equal" to, so that
   * an element inserted earlier stays ahead of the equal elements after it.
   */
  function Insert<T>(x: T, s: seq<T>, le: (T, T) -> bool): (r: seq<T>)
    ensures multiset(r) == multiset(s) + multiset{x}
    ensures |r| == |s| + 1
  {
    if s == [] then [x]
    else if le(x, s[0]) then [x] + s
    else
      var r := [s[0]] + Insert(x, s[1..], le);
      HeadTailMultiset(s);
      r
  }

  /** The input's elements, rearranged; sorted when le is a total preorder (SortByIsSorted). */
  function SortBy<T>(s: seq<T>, le: (T, T) -> bool): (r: seq<T>)
    ensures multiset(r) == multiset(s)
    ensures |r| == |s|
  {
    if s == [] then []
    else
      var r := Insert(s[0], SortBy(s[1..], le), le);
      HeadTailMultiset(s);
      r
  }

  lemma HeadTailMultiset<T>(s: seq<T>)
    requires s != []
    ensures multiset(s) == multiset{s[0]} + multiset(s[1..])
  {
    assert s == [s[0]] + s[1..];
  }

  lemma {:induction false} InsertSorted<T(!new)>(x: T, s: seq<T>, le: (T, T) -> bool)
    requires TotalPreorder(le)
    requires SortedBy(s, le)
    ensures SortedBy(Insert(x, s, le), le)
  {
    if s != [] && !le(x, s[0]) {
      InsertSorted(x, s[1..], le);
      var r := Insert(x, s[1..], le);
      assert le(s[0], x);
      forall k | 0 <= k < |r| ensures le(s[0], r[k]) {
        assert r[k] in multiset(s[1..]) + multiset{x} by {
          assert r[k] in multiset(r);
        }
        if r[k] != x {
          assert r[k] in s[1..];
        }
      }
    }
  }

  lemma {:induction false} SortByIsSorted<T(!new)>(s: seq<T>, le: (T, T) -> bool)
    requires TotalPreorder(le)
    ensures SortedBy(SortBy(s, le), le)
  {
    if s != [] {
      SortByIsSorted(s[1..], le);
      InsertSorted(s[0], SortBy(s[1..], le), le);
    }
  }

  lemma {:induction false} InsertDistinct<T>(x: T, s: seq<T>, le: (T, T) -> bool)
    requires Distinct(s) && x !in s
    ensures Distinct(Insert(x, s, le))
  {
    if s != [] && !le(x, s[0]) {
      var r := Insert(x, s[1..], le);
      InsertDistinct(x, s[1..], le);
      assert s[0] !in multiset(s[1..]) + multiset{x};
    }
  }

  /** Sorting a list without duplicates gives a list without duplicates. */
  lemma {:induction false} SortByDistinct<T>(s: seq<T>, le: (T, T) -> bool)
    requires Distinct(s)
    ensures Distinct(SortBy(s, le))
  {
    if s != [] {
      SortByDistinct(s[1..], le);
      assert s[0] !in multiset(s[1..]);
      InsertDistinct(s[0], SortBy(s[1..], le), le);
    }
  }

  lemma SortedHeadIsLeast<T>(s: seq<T>, x: T, le: (T, T) -> bool)
    requires SortedBy(s, le) && x in multiset(s)
    requires forall a :: le(a, a)
    ensures le(s[0], x)
  {
    var i :| 0 <= i < |s| && s[i] == x;
    if i > 0 {
      assert le(s[0], s[i]);
    }
  }

  lemma TailMultiset<T>(a: seq<T>, b: seq<T>)
    requires a != [] && b != [] && a[0] == b[0] && multiset(a) == multiset(b)
    ensures multiset(a[1..]) == multiset(b[1..])
  {
    assert a == [a[0]] + a[1..] && b == [b[0]] + b[1..];
    calc {
      multiset(a[1..]);
      multiset(a[1..]) + multiset{a[0]} - multiset{a[0]};
      multiset([a[0]] + a[1..]) - multiset{a[0]};
      multiset(b) - multiset{b[0]};
      multiset([b[0]] + b[1..]) - multiset{b[0]};
      multiset(b[1..]) + multiset{b[0]} - multiset{b[0]};
      multiset(b[1..]);
    }
  }

  /** Under an antisymmetric order, a sorted arrangement of a multiset is unique. */
  lemma {:induction false} SortedUnique<T(!new)>(a: seq<T>, b: seq<T>, le: (T, T) -> bool)
    requires TotalPreorder(le) && Antisymmetric(le)
    requires SortedBy(a, le) && SortedBy(b, le)
    requires multiset(a) == multiset(b)
    ensures a == b
  {
    assert |b| == |a| by {
      assert |multiset(a)| == |a| && |multiset(b)| == |b|;
    }
    if a != [] {
      assert forall x :: le(x, x) by {
        forall x ensures le(x, x) {
          assert le(x, x) || le(x, x);
        }
      }
      assert a[0] in multiset(a) && b[0] in multiset(b);
      SortedHeadIsLeast(b, a[0], le);
      SortedHeadIsLeast(a, b[0], le);
      assert a[0] == b[0];
      TailMultiset(a, b);
      SortedUnique(a[1..], b[1..], le);
      assert a == [a[0]] + a[1..] && b == [b[0]] + b[1..];
    }
  }

  /** Python's comparison of strings, as a comparison function. */
  function StringLe(): (le: (string, string) -> bool)
    ensures forall a, b :: le(a, b) == Text.LexLe(a, b)
  {
    (a: string, b: string) => Text.LexLe(a, b)
  }

  lemma StringLeIsTotalOrder()
    ensures TotalPreorder(StringLe()) && Antisymmetric(StringLe())
  {
    var le := StringLe();
    forall a, b ensures le(a, b) || le(b, a) {
      Text.LexLeTotal(a, b);
    }
    forall a, b, c | le(a, b) && le(b, c) ensures le(a, c) {
      Text.LexLeTransitive(a, b, c);
    }
    forall a, b | le(a, b) && le(b, a) ensures a == b {
      Text.LexLeAntisymmetric(a, b);
    }
  }

  /** Python's sorted() on a list of strings. */
  function SortStrings(s: seq<string>): (r: seq<string>)
    ensures multiset(r) == multiset(s)
    ensures SortedBy(r, StringLe())
  {
    StringLeIsTotalOrder();
    SortByIsSorted(s, StringLe());
    SortBy(s, StringLe())
  }

  /** Two duplicate-free lists with the same elements sort to the same list. */
  lemma SortStringsOfSameSet(a: seq<string>, b: seq<string>)
    requires multiset(a) == multiset(b)
    ensures SortStrings(a) == SortStrings(b)
  {
    StringLeIsTotalOrder();
    SortedUnique(SortStrings(a), SortStrings(b), StringLe());
  }
}
