/** The stable sort behind every `.sort(comparator)` call, over an arbitrary total preorder, and the
    algebra the score stores rely on: sorting commutes with filtering, absorbs earlier sorts, and
    forgets the order in which inequivalent blocks were appended. */
module StableSort {
  import opened Basics

  ghost predicate TotalPreorder<T(!new)>(leq: (T, T) -> bool) {
    && (forall x, y :: leq(x, y) || leq(y, x))
    && (forall x, y, z :: leq(x, y) && leq(y, z) ==> leq(x, z))
  }

  ghost predicate Sorted<T>(leq: (T, T) -> bool, s: seq<T>) {
    forall i, j :: 0 <= i < j < |s| ==> leq(s[i], s[j])
  }

  /** Puts x behind every element that is at most x, scanning from the right. */
  function Insert<T>(leq: (T, T) -> bool, s: seq<T>, x: T): (r: seq<T>)
    ensures |r| == |s| + 1
  {
    if s == [] || leq(s[|s| - 1], x) then s + [x]
    else Insert(leq, s[..|s| - 1], x) + [s[|s| - 1]]
  }

  function InsertAll<T>(leq: (T, T) -> bool, s: seq<T>, xs: seq<T>): (r: seq<T>)
    ensures |r| == |s| + |xs|
    decreases |xs|
  {
    if xs == [] then s else Insert(leq, InsertAll(leq, s, xs[..|xs| - 1]), xs[|xs| - 1])
  }

  function Sort<T>(leq: (T, T) -> bool, s: seq<T>): (r: seq<T>)
    ensures |r| == |s|
  {
    InsertAll(leq, [], s)
  }

  lemma {:induction false} InsertKeepsElements<T>(leq: (T, T) -> bool, s: seq<T>, x: T)
    ensures multiset(Insert(leq, s, x)) == multiset(s) + multiset{x}
  {
    if s != [] && !leq(s[|s| - 1], x) {
      InsertKeepsElements(leq, s[..|s| - 1], x);
      assert s == s[..|s| - 1] + [s[|s| - 1]];
    }
  }

  lemma {:induction false} InsertKeepsSorted<T(!new)>(leq: (T, T) -> bool, s: seq<T>, x: T)
    requires TotalPreorder(leq) && Sorted(leq, s)
    ensures Sorted(leq, Insert(leq, s, x))
  {
    var n := |s| - 1;
    if s != [] && !leq(s[n], x) {
      InsertKeepsSorted(leq, s[..n], x);
      InsertKeepsElements(leq, s[..n], x);
      var t := Insert(leq, s[..n], x);
      forall i | 0 <= i < |t| ensures leq(t[i], s[n]) {
        assert t[i] in multiset(t);
        assert t[i] == x || t[i] in s[..n];
      }
    }
  }

  lemma {:induction false} InsertAllFacts<T(!new)>(leq: (T, T) -> bool, s: seq<T>, xs: seq<T>)
    requires TotalPreorder(leq) && Sorted(leq, s)
    ensures Sorted(leq, InsertAll(leq, s, xs))
    ensures multiset(InsertAll(leq, s, xs)) == multiset(s) + multiset(xs)
    decreases |xs|
  {
    if xs != [] {
      var n := |xs| - 1;
      InsertAllFacts(leq, s, xs[..n]);
      InsertKeepsSorted(leq, InsertAll(leq, s, xs[..n]), xs[n]);
      InsertKeepsElements(leq, InsertAll(leq, s, xs[..n]), xs[n]);
      assert xs == xs[..n] + [xs[n]];
    }
  }

  /** Sorting yields an ordered permutation. */
  lemma SortFacts<T(!new)>(leq: (T, T) -> bool, s: seq<T>)
    requires TotalPreorder(leq)
    ensures Sorted(leq, Sort(leq, s))
    ensures multiset(Sort(leq, s)) == multiset(s)
    ensures forall x :: x in Sort(leq, s) <==> x in s
  {
    InsertAllFacts(leq, [], s);
    assert forall x :: x in Sort(leq, s) <==> x in multiset(Sort(leq, s));
    assert forall x :: x in s <==> x in multiset(s);
  }

  lemma {:induction false} InsertAllConcat<T>(leq: (T, T) -> bool, s: seq<T>, a: seq<T>, b: seq<T>)
    ensures InsertAll(leq, s, a + b) == InsertAll(leq, InsertAll(leq, s, a), b)
    decreases |b|
  {
    if b == [] {
      assert a + b == a;
    } else {
      var n := |b| - 1;
      assert (a + b)[..|a| + n] == a + b[..n];
      InsertAllConcat(leq, s, a, b[..n]);
    }
  }

  lemma {:induction false} SortFixesSorted<T>(leq: (T, T) -> bool, s: seq<T>)
    requires Sorted(leq, s)
    ensures Sort(leq, s) == s
  {
    if s != [] {
      SortFixesSorted(leq, s[..|s| - 1]);
    }
  }

  /** An earlier sort of a prefix never shows in the result. */
  lemma SortAbsorbsSort<T(!new)>(leq: (T, T) -> bool, a: seq<T>, b: seq<T>)
    requires TotalPreorder(leq)
    ensures Sort(leq, Sort(leq, a) + b) == Sort(leq, a + b)
  {
    SortFacts(leq, a);
    SortFixesSorted(leq, Sort(leq, a));
    InsertAllConcat(leq, [], Sort(leq, a), b);
    InsertAllConcat(leq, [], a, b);
  }

  lemma SnocPrefix<T>(s: seq<T>, x: T)
    ensures (s + [x])[..|s|] == s
  {
  }

  lemma LastFilteredIsAtMost<T(!new)>(leq: (T, T) -> bool, p: T -> bool, s: seq<T>, x: T)
    requires TotalPreorder(leq) && Sorted(leq, s) && (s == [] || leq(s[|s| - 1], x))
    ensures Filter(p, s) == [] || leq(Filter(p, s)[|Filter(p, s)| - 1], x)
  {
    FilterMembers(p, s);
    var f := Filter(p, s);
    if f != [] {
      assert f[|f| - 1] in f;
      var i :| 0 <= i < |s| && s[i] == f[|f| - 1];
      assert i < |s| - 1 ==> leq(s[i], s[|s| - 1]);
    }
  }

  lemma FilterInsertAtEnd<T(!new)>(leq: (T, T) -> bool, p: T -> bool, s: seq<T>, x: T)
    requires TotalPreorder(leq) && Sorted(leq, s) && (s == [] || leq(s[|s| - 1], x))
    ensures Filter(p, Insert(leq, s, x))
         == if p(x) then Insert(leq, Filter(p, s), x) else Filter(p, s)
  {
    FilterSnoc(p, s, x);
    LastFilteredIsAtMost(leq, p, s, x);
    assert Filter(p, s) + [] == Filter(p, s);
  }

  lemma {:induction false} FilterInsert<T(!new)>(leq: (T, T) -> bool, p: T -> bool, s: seq<T>, x: T)
    requires TotalPreorder(leq) && Sorted(leq, s)
    ensures Filter(p, Insert(leq, s, x))
         == if p(x) then Insert(leq, Filter(p, s), x) else Filter(p, s)
  {
    if s == [] || leq(s[|s| - 1], x) {
      FilterInsertAtEnd(leq, p, s, x);
    } else {
      var t, z := s[..|s| - 1], s[|s| - 1];
      FilterInsert(leq, p, t, x);
      FilterSnoc(p, Insert(leq, t, x), z);
      SnocPrefix(Filter(p, t), z);
      assert Filter(p, t) + [] == Filter(p, t);
      assert Filter(p, Insert(leq, t, x)) + [] == Filter(p, Insert(leq, t, x));
    }
  }

  lemma SortSnoc<T>(leq: (T, T) -> bool, s: seq<T>, x: T)
    ensures Sort(leq, s + [x]) == Insert(leq, Sort(leq, s), x)
  {
    SnocPrefix(s, x);
  }

  /** Sorting commutes with filtering. */
  lemma {:induction false} FilterSort<T(!new)>(leq: (T, T) -> bool, p: T -> bool, s: seq<T>)
    requires TotalPreorder(leq)
    ensures Filter(p, Sort(leq, s)) == Sort(leq, Filter(p, s))
  {
    if s != [] {
      var t, x := s[..|s| - 1], s[|s| - 1];
      FilterSort(leq, p, t);
      SortFacts(leq, t);
      FilterInsert(leq, p, Sort(leq, t), x);
      if p(x) {
        SortSnoc(leq, Filter(p, t), x);
      } else {
        assert Filter(p, t) + [] == Filter(p, t);
      }
    }
  }

  ghost predicate Equivalent<T>(leq: (T, T) -> bool, x: T, y: T) {
    leq(x, y) && leq(y, x)
  }

  lemma InsertAfter<T>(leq: (T, T) -> bool, t: seq<T>, z: T, y: T)
    ensures Insert(leq, t + [z], y) == if leq(z, y) then t + [z] + [y] else Insert(leq, t, y) + [z]
  {
    assert (t + [z])[..|t|] == t;
  }

  lemma {:induction false} InsertsCommute<T(!new)>(leq: (T, T) -> bool, s: seq<T>, x: T, y: T)
    requires TotalPreorder(leq) && !Equivalent(leq, x, y)
    ensures Insert(leq, Insert(leq, s, x), y) == Insert(leq, Insert(leq, s, y), x)
  {
    InsertAfter(leq, s, x, y);
    InsertAfter(leq, s, y, x);
    if s != [] {
      var init, last := s[..|s| - 1], s[|s| - 1];
      InsertAfter(leq, Insert(leq, init, x), last, y);
      InsertAfter(leq, Insert(leq, init, y), last, x);
      InsertsCommute(leq, init, x, y);
    }
  }

  lemma {:induction false} InsertPastBlock<T(!new)>(leq: (T, T) -> bool, s: seq<T>, xs: seq<T>, y: T)
    requires TotalPreorder(leq) && forall x :: x in xs ==> !Equivalent(leq, x, y)
    ensures Insert(leq, InsertAll(leq, s, xs), y) == InsertAll(leq, Insert(leq, s, y), xs)
    decreases |xs|
  {
    if xs != [] {
      var n := |xs| - 1;
      InsertPastBlock(leq, s, xs[..n], y);
      InsertsCommute(leq, InsertAll(leq, s, xs[..n]), xs[n], y);
    }
  }

  lemma {:induction false} BlocksCommute<T(!new)>(leq: (T, T) -> bool, s: seq<T>, xs: seq<T>, ys: seq<T>)
    requires TotalPreorder(leq)
    requires forall x, y :: x in xs && y in ys ==> !Equivalent(leq, x, y)
    ensures InsertAll(leq, InsertAll(leq, s, xs), ys) == InsertAll(leq, InsertAll(leq, s, ys), xs)
    decreases |ys|
  {
    if ys != [] {
      var n := |ys| - 1;
      BlocksCommute(leq, s, xs, ys[..n]);
      InsertPastBlock(leq, InsertAll(leq, s, ys[..n]), xs, ys[n]);
    }
  }

  /** The order in which two blocks are appended before a sort is forgotten
      when no element of one compares equal to an element of the other. */
  lemma SortForgetsBlockOrder<T(!new)>(leq: (T, T) -> bool, a: seq<T>, xs: seq<T>, ys: seq<T>)
    requires TotalPreorder(leq)
    requires forall x, y :: x in xs && y in ys ==> !Equivalent(leq, x, y)
    ensures Sort(leq, a + xs + ys) == Sort(leq, a + ys + xs)
  {
    InsertAllConcat(leq, [], a + xs, ys);
    InsertAllConcat(leq, [], a + ys, xs);
    InsertAllConcat(leq, [], a, xs);
    InsertAllConcat(leq, [], a, ys);
    BlocksCommute(leq, Sort(leq, a), xs, ys);
  }

  lemma LastsAreEquivalent<T(!new)>(leq: (T, T) -> bool, a: seq<T>, b: seq<T>)
    requires TotalPreorder(leq) && Sorted(leq, a) && Sorted(leq, b)
    requires a != [] && b != [] && multiset(a) == multiset(b)
    ensures Equivalent(leq, a[|a| - 1], b[|b| - 1]) && b[|b| - 1] in a
  {
    assert a[|a| - 1] in multiset(b) && b[|b| - 1] in multiset(a);
    var i :| 0 <= i < |b| && b[i] == a[|a| - 1];
    var j :| 0 <= j < |a| && a[j] == b[|b| - 1];
    assert leq(a[|a| - 1], a[|a| - 1]);
    assert i == |b| - 1 || leq(b[i], b[|b| - 1]);
    assert j == |a| - 1 || leq(a[j], a[|a| - 1]);
  }

  lemma SplitLast<T>(s: seq<T>)
    requires s != []
    ensures s == s[..|s| - 1] + [s[|s| - 1]]
    ensures multiset(s) == multiset(s[..|s| - 1]) + multiset{s[|s| - 1]}
  {
    assert s == s[..|s| - 1] + [s[|s| - 1]];
  }

  /** Ordered permutations are equal when equivalent elements are identical. */
  lemma {:induction false} SortedIsUnique<T(!new)>(leq: (T, T) -> bool, a: seq<T>, b: seq<T>)
    requires TotalPreorder(leq) && Sorted(leq, a) && Sorted(leq, b)
    requires multiset(a) == multiset(b)
    requires forall x, y :: x in a && y in a && Equivalent(leq, x, y) ==> x == y
    ensures a == b
    decreases |a|
  {
    assert |multiset(a)| == |a| && |multiset(b)| == |b|;
    if a != [] {
      LastsAreEquivalent(leq, a, b);
      SplitLast(a);
      SplitLast(b);
      var c, d, z := a[..|a| - 1], b[..|b| - 1], a[|a| - 1];
      assert z in a && b[|b| - 1] == z;
      assert multiset(c) == multiset(a) - multiset{z} == multiset(d);
      assert forall x :: x in c ==> x in a;
      SortedIsUnique(leq, c, d);
    }
  }

  lemma {:induction false} DistinctByCount<T>(s: seq<T>)
    ensures Distinct(s) <==> forall x :: multiset(s)[x] <= 1
  {
    if s != [] {
      var t, z := s[..|s| - 1], s[|s| - 1];
      DistinctByCount(t);
      SplitLast(s);
      assert forall x :: multiset(s)[x] == multiset(t)[x] + (if x == z then 1 else 0);
      if Distinct(t) && z !in t {
        assert Distinct(s);
      }
      if z in t {
        assert multiset(s)[z] > 1;
      }
    }
  }

  lemma SortKeepsDistinct<T(!new)>(leq: (T, T) -> bool, s: seq<T>)
    requires TotalPreorder(leq) && Distinct(s)
    ensures Distinct(Sort(leq, s))
  {
    SortFacts(leq, s);
    DistinctByCount(s);
    DistinctByCount(Sort(leq, s));
  }
}
