/** Sums over sequences, and their independence of order. */
module Sums {
  import opened Basics

  /** The sum of f over a sequence. */
  function SumOf<T>(f: T -> real, s: seq<T>): real {
    if s == [] then 0.0 else SumOf(f, s[..|s| - 1]) + f(s[|s| - 1])
  }

  function Itself(x: real): real {
    x
  }

  lemma SumOfSnoc<T>(f: T -> real, s: seq<T>, x: T)
    ensures SumOf(f, s + [x]) == SumOf(f, s) + f(x)
  {
    assert (s + [x])[..|s|] == s;
  }

  lemma {:induction false} SumOfConcat<T>(f: T -> real, a: seq<T>, b: seq<T>)
    ensures SumOf(f, a + b) == SumOf(f, a) + SumOf(f, b)
  {
    if b == [] {
      assert a + b == a;
    } else {
      var init, last := b[..|b| - 1], b[|b| - 1];
      SumOfConcat(f, a, init);
      assert a + b == (a + init) + [last];
      SumOfSnoc(f, a + init, last);
    }
  }

  /** Taking out an element takes its term out of the sum. */
  lemma SumOfWithout<T>(f: T -> real, before: seq<T>, x: T, after: seq<T>)
    ensures SumOf(f, before + [x] + after) == SumOf(f, before + after) + f(x)
  {
    SumOfConcat(f, before + [x], after);
    SumOfSnoc(f, before, x);
    SumOfConcat(f, before, after);
  }

  lemma MultisetRest<T>(init: seq<T>, x: T, before: seq<T>, after: seq<T>)
    requires multiset(init + [x]) == multiset(before + [x] + after)
    ensures multiset(init) == multiset(before + after)
  {
    assert multiset(init + [x]) == multiset(init) + multiset([x]);
    assert multiset(before + [x] + after) == multiset(before) + multiset([x]) + multiset(after);
    assert multiset(before + after) == multiset(before) + multiset(after);
    assert multiset(init) == multiset(init + [x]) - multiset([x]);
  }

  /** Some occurrence of x splits a sequence that contains it. */
  lemma SplitAt<T>(s: seq<T>, x: T) returns (before: seq<T>, after: seq<T>)
    requires x in s
    ensures s == before + [x] + after
  {
    var k :| 0 <= k < |s| && s[k] == x;
    before, after := s[..k], s[k + 1..];
    assert s == before + [s[k]] + after;
  }

  lemma {:induction false} SumOfIgnoresOrder<T>(f: T -> real, a: seq<T>, b: seq<T>)
    requires multiset(a) == multiset(b)
    ensures SumOf(f, a) == SumOf(f, b)
  {
    if a == [] {
      assert |b| == |multiset(b)| == 0;
    } else {
      var init, x := a[..|a| - 1], a[|a| - 1];
      assert a == init + [x];
      assert x in multiset(b);
      var before, after := SplitAt(b, x);
      MultisetRest(init, x, before, after);
      SumOfIgnoresOrder(f, init, before + after);
      SumOfWithout(f, before, x, after);
    }
  }

  /** Replacing elements by others of the same value keeps the sum. */
  lemma {:induction false} SumOfCongruence<T>(f: T -> real, a: seq<T>, b: seq<T>)
    requires |a| == |b|
    requires forall i :: 0 <= i < |a| ==> f(a[i]) == f(b[i])
    ensures SumOf(f, a) == SumOf(f, b)
  {
    if a != [] {
      SumOfCongruence(f, a[..|a| - 1], b[..|b| - 1]);
    }
  }

  /** So does replacing the function by one that agrees on the elements. */
  lemma {:induction false} SumOfSameTerms<T>(f: T -> real, g: T -> real, s: seq<T>)
    requires forall i :: 0 <= i < |s| ==> f(s[i]) == g(s[i])
    ensures SumOf(f, s) == SumOf(g, s)
  {
    if s != [] {
      SumOfSameTerms(f, g, s[..|s| - 1]);
    }
  }

  lemma {:induction false} SumOfZeroes<T>(f: T -> real, s: seq<T>)
    requires forall i :: 0 <= i < |s| ==> f(s[i]) == 0.0
    ensures SumOf(f, s) == 0.0
  {
    if s != [] {
      SumOfZeroes(f, s[..|s| - 1]);
    }
  }

  /** Elements with no term can be filtered out. */
  lemma {:induction false} SumOfFilter<T(!new)>(f: T -> real, p: T -> bool, s: seq<T>)
    requires forall x :: !p(x) ==> f(x) == 0.0
    ensures SumOf(f, Filter(p, s)) == SumOf(f, s)
  {
    if s != [] {
      var init, last := s[..|s| - 1], s[|s| - 1];
      SumOfFilter(f, p, init);
      if p(last) {
        SumOfSnoc(f, Filter(p, init), last);
      } else {
        assert Filter(p, init) + [] == Filter(p, init);
      }
    }
  }
}
