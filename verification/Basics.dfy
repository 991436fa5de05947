/** Small vocabulary shared by every component: optional values, error results, filtering and the
    rounding the score keeper applies to every number it stores. */
module Basics {

  datatype Option<+T> = None | Some(value: T) {
    function GetOr(default: T): T {
      if Some? then value else default
    }
  }

  /** A thrown error is an Err; the message is kept only where callers tell errors apart. */
  datatype Result<+T> = Ok(value: T) | Err(error: string) {
    predicate IsFailure() {
      Err?
    }

    function PropagateFailure<U>(): Result<U>
      requires Err?
    {
      Err(error)
    }

    function Extract(): T
      requires Ok?
    {
      value
    }
  }

  function Min(a: int, b: int): int {
    if a < b then a else b
  }

  function Max(a: int, b: int): int {
    if a < b then b else a
  }

  /** The elements of s that satisfy p, in order. */
  function Filter<T>(p: T -> bool, s: seq<T>): (r: seq<T>) {
    if s == [] then []
    else Filter(p, s[..|s| - 1]) + (if p(s[|s| - 1]) then [s[|s| - 1]] else [])
  }

  lemma FilterSnoc<T>(p: T -> bool, s: seq<T>, x: T)
    ensures Filter(p, s + [x]) == Filter(p, s) + (if p(x) then [x] else [])
  {
    assert (s + [x])[..|s|] == s;
  }

  lemma {:induction false} FilterMembers<T(!new)>(p: T -> bool, s: seq<T>)
    ensures forall x :: x in Filter(p, s) <==> x in s && p(x)
  {
    if s != [] {
      FilterMembers(p, s[..|s| - 1]);
      assert s == s[..|s| - 1] + [s[|s| - 1]];
    }
  }

  lemma {:induction false} FilterConcat<T>(p: T -> bool, a: seq<T>, b: seq<T>)
    ensures Filter(p, a + b) == Filter(p, a) + Filter(p, b)
    decreases |b|
  {
    if b == [] {
      assert a + b == a;
    } else {
      var c, x := b[..|b| - 1], b[|b| - 1];
      FilterConcat(p, a, c);
      assert a + b == (a + c) + [x];
      FilterSnoc(p, a + c, x);
    }
  }

  lemma {:induction false} FilterAll<T(!new)>(p: T -> bool, s: seq<T>)
    requires forall x :: x in s ==> p(x)
    ensures Filter(p, s) == s
  {
    if s != [] {
      var t := s[..|s| - 1];
      assert forall x :: x in t ==> x in s;
      FilterAll(p, t);
      assert s[|s| - 1] in s;
      assert s == t + [s[|s| - 1]];
    }
  }

  lemma {:induction false} FilterNone<T(!new)>(p: T -> bool, s: seq<T>)
    requires forall x :: x in s ==> !p(x)
    ensures Filter(p, s) == []
  {
    if s != [] {
      var t := s[..|s| - 1];
      assert forall x :: x in t ==> x in s;
      FilterNone(p, t);
      assert s[|s| - 1] in s;
    }
  }

  /** The one element that satisfies p is all that a filter keeps. */
  lemma FilterOnly<T(!new)>(p: T -> bool, s: seq<T>, k: nat)
    requires k < |s| && p(s[k])
    requires forall j :: 0 <= j < |s| && j != k ==> !p(s[j])
    ensures Filter(p, s) == [s[k]]
  {
    assert s == s[..k] + [s[k]] + s[k + 1..];
    FilterConcat(p, s[..k] + [s[k]], s[k + 1..]);
    FilterSnoc(p, s[..k], s[k]);
    FilterNone(p, s[..k]);
    FilterNone(p, s[k + 1..]);
  }

  lemma EmptyOrInhabited<T(!new)>(s: seq<T>)
    ensures s == [] || exists x :: x in s
  {
    if s != [] {
      assert s[0] in s;
    }
  }

  /** Filters commute. */
  lemma {:induction false} FilterSwap<T>(p: T -> bool, q: T -> bool, s: seq<T>)
    ensures Filter(q, Filter(p, s)) == Filter(p, Filter(q, s))
  {
    if s != [] {
      var t, x := s[..|s| - 1], s[|s| - 1];
      FilterSwap(p, q, t);
      FilterSnoc(q, Filter(p, t), x);
      FilterSnoc(p, Filter(q, t), x);
      assert Filter(p, t) + [] == Filter(p, t) && Filter(q, t) + [] == Filter(q, t);
    }
  }

  lemma {:induction false} SameFilter<T(!new)>(p: T -> bool, q: T -> bool, s: seq<T>)
    requires forall x :: p(x) == q(x)
    ensures Filter(p, s) == Filter(q, s)
  {
    if s != [] {
      SameFilter(p, q, s[..|s| - 1]);
    }
  }

  /** A weaker filter applied first makes no difference. */
  lemma {:induction false} FilterImplied<T(!new)>(p: T -> bool, q: T -> bool, s: seq<T>)
    requires forall x :: q(x) ==> p(x)
    ensures Filter(q, Filter(p, s)) == Filter(q, s)
  {
    if s != [] {
      var t, x := s[..|s| - 1], s[|s| - 1];
      FilterImplied(p, q, t);
      FilterSnoc(q, Filter(p, t), x);
      assert Filter(p, t) + [] == Filter(p, t) && Filter(q, t) + [] == Filter(q, t);
    }
  }

  function Map<T, U>(f: T -> U, s: seq<T>): (r: seq<U>)
    ensures |r| == |s|
    ensures forall i :: 0 <= i < |r| ==> r[i] == f(s[i])
  {
    seq(|s|, i requires 0 <= i < |s| => f(s[i]))
  }

  /** The blocks one after another. */
  function Flatten<T>(blocks: seq<seq<T>>): seq<T> {
    if blocks == [] then [] else Flatten(blocks[..|blocks| - 1]) + blocks[|blocks| - 1]
  }

  lemma FlattenSnoc<T>(blocks: seq<seq<T>>, block: seq<T>)
    ensures Flatten(blocks + [block]) == Flatten(blocks) + block
  {
    assert (blocks + [block])[..|blocks|] == blocks;
  }

  predicate Distinct<T(==)>(s: seq<T>) {
    forall i, j :: 0 <= i < j < |s| ==> s[i] != s[j]
  }

  /** Math.round: half up, so Round(-0.5) is 0 while Round(0.5) is 1. */
  function Round(x: real): int {
    (x + 0.5).Floor
  }

  /** Math.round(x * 100) / 100. */
  function RoundToTwoDecimals(x: real): real {
    Round(x * 100.0) as real / 100.0
  }

  function Abs(x: real): real {
    if x < 0.0 then -x else x
  }

  /** Rounding is within half a unit of its argument, keeps order, and fixes the 0.01 grid. */
  lemma RoundingBounds(x: real)
    ensures RoundToTwoDecimals(x) - 0.005 <= x < RoundToTwoDecimals(x) + 0.005
  {
  }

  lemma RoundingIsMonotone(x: real, y: real)
    requires x <= y
    ensures RoundToTwoDecimals(x) <= RoundToTwoDecimals(y)
  {
    assert (x * 100.0 + 0.5).Floor <= (y * 100.0 + 0.5).Floor;
  }

  /** A score that two-decimal rounding leaves alone. */
  predicate OnGrid(x: real) {
    (x * 100.0).Floor as real == x * 100.0
  }

  lemma HundredthIs(k: int, x: real)
    ensures k as real / 100.0 == x <==> k as real == x * 100.0
  {
  }

  lemma RoundFixesIntegers(y: real)
    ensures Round(y) as real == y <==> y.Floor as real == y
  {
    assert (y.Floor as real + 0.5).Floor == y.Floor;
    assert (Round(y) as real).Floor == Round(y);
  }

  lemma GridIsFixed(x: real)
    ensures OnGrid(x) <==> RoundToTwoDecimals(x) == x
  {
    HundredthIs(Round(x * 100.0), x);
    RoundFixesIntegers(x * 100.0);
  }

  lemma HundredthsAreOnGrid(k: int, x: real)
    requires x * 100.0 == k as real
    ensures OnGrid(x)
  {
  }

  lemma GridIsClosed(x: real, y: real)
    requires OnGrid(x) && OnGrid(y)
    ensures OnGrid(x + y) && OnGrid(x - y) && OnGrid(-x)
  {
    var i, j := (x * 100.0).Floor, (y * 100.0).Floor;
    HundredthsAreOnGrid(i + j, x + y);
    HundredthsAreOnGrid(i - j, x - y);
    HundredthsAreOnGrid(-i, -x);
  }

  /** d is x to two decimals: on the grid, and off by at most half a hundredth, the half rounded up. */
  predicate IsRounded(d: real, x: real) {
    OnGrid(d) && d - 0.005 <= x < d + 0.005
  }

  /** Rounding to two decimals is that number, and a number on the grid is its own. */
  lemma RoundedIs(x: real)
    ensures IsRounded(RoundToTwoDecimals(x), x)
    ensures OnGrid(x) ==> RoundToTwoDecimals(x) == x
  {
    RoundingBounds(x);
    GridIsFixed(x);
    HundredthsAreOnGrid(Round(x * 100.0), RoundToTwoDecimals(x));
  }

  lemma DifferenceIsRounded(to: real, from: real)
    ensures IsRounded(RoundToTwoDecimals(to - from), to - from)
    ensures OnGrid(to) && OnGrid(from) ==> RoundToTwoDecimals(to - from) == to - from
  {
    RoundedIs(to - from);
    if OnGrid(to) && OnGrid(from) {
      GridIsClosed(to, from);
    }
  }
}
