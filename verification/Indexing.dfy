/** Maps filled entry by entry: keys in insertion order, the last entry of a key winning. */
module Indexing {
  import opened Basics

  function AddNew(keys: seq<string>, key: string): seq<string> {
    if key in keys then keys else keys + [key]
  }

  /** The keys of a list in order of first appearance. */
  function KeysOf<T>(keyed: T -> string, side: seq<T>): seq<string> {
    if side == [] then [] else AddNew(KeysOf(keyed, side[..|side| - 1]), keyed(side[|side| - 1]))
  }

  /** The entry an index holds for a key: the last one. */
  function LastWith<T>(keyed: T -> string, side: seq<T>, key: string): Option<T> {
    if side == [] then None
    else if keyed(side[|side| - 1]) == key then Some(side[|side| - 1])
    else LastWith(keyed, side[..|side| - 1], key)
  }

  function Union(xs: seq<string>, ys: seq<string>): seq<string> {
    if ys == [] then xs else AddNew(Union(xs, ys[..|ys| - 1]), ys[|ys| - 1])
  }

  lemma {:induction false} KeysOfFacts<T>(keyed: T -> string, side: seq<T>)
    ensures Distinct(KeysOf(keyed, side))
    ensures forall key :: key in KeysOf(keyed, side) <==> LastWith(keyed, side, key).Some?
  {
    if side != [] {
      KeysOfFacts(keyed, side[..|side| - 1]);
    }
  }

  lemma {:induction false} UnionFacts(xs: seq<string>, ys: seq<string>)
    requires Distinct(xs)
    ensures Distinct(Union(xs, ys))
    ensures forall key :: key in Union(xs, ys) <==> key in xs || key in ys
  {
    if ys != [] {
      UnionFacts(xs, ys[..|ys| - 1]);
      assert ys == ys[..|ys| - 1] + [ys[|ys| - 1]];
    }
  }

  lemma {:induction false} LastWithFacts<T(!new)>(keyed: T -> string, side: seq<T>, key: string)
    ensures LastWith(keyed, side, key).Some?
        ==> keyed(LastWith(keyed, side, key).value) == key && LastWith(keyed, side, key).value in side
    ensures LastWith(keyed, side, key).None? ==> forall e :: e in side ==> keyed(e) != key
  {
    if side != [] {
      LastWithFacts(keyed, side[..|side| - 1], key);
      assert side == side[..|side| - 1] + [side[|side| - 1]];
    }
  }

  /** x is the last entry with the key; none when no entry has it. */
  predicate IsLast<T(==), K(==)>(keyed: T -> K, side: seq<T>, key: K, x: Option<T>) {
    match x
    case None => forall e :: e in side ==> keyed(e) != key
    case Some(last) =>
      exists k :: 0 <= k < |side| && side[k] == last && keyed(side[k]) == key && forall j :: k < j < |side| ==> keyed(side[j]) != key
  }

  lemma {:induction false} LastWithIsLast<T(!new)>(keyed: T -> string, side: seq<T>, key: string)
    ensures IsLast(keyed, side, key, LastWith(keyed, side, key))
  {
    if side != [] {
      var init, last := side[..|side| - 1], side[|side| - 1];
      assert side == init + [last];
      if keyed(last) == key {
        assert side[|side| - 1] == last;
      } else {
        LastWithIsLast(keyed, init, key);
        if LastWith(keyed, init, key).Some? {
          var k :| 0 <= k < |init| && init[k] == LastWith(keyed, init, key).value && keyed(init[k]) == key
                   && forall j :: k < j < |init| ==> keyed(init[j]) != key;
          assert side[k] == init[k] && forall j :: k < j < |init| ==> side[j] == init[j];
        }
      }
    }
  }

  /** Filling the map. */
  method BuildIndex<T>(keyed: T -> string, side: seq<T>) returns (order: seq<string>, index: map<string, T>)
    ensures order == KeysOf(keyed, side)
    ensures forall key :: key in index <==> key in order
    ensures forall key :: key in index ==> LastWith(keyed, side, key) == Some(index[key])
  {
    order, index := [], map[];
    for i := 0 to |side|
      invariant order == KeysOf(keyed, side[..i])
      invariant forall key :: key in index <==> key in order
      invariant forall key :: key in index ==> LastWith(keyed, side[..i], key) == Some(index[key])
    {
      assert side[..i + 1][..i] == side[..i];
      var key := keyed(side[i]);
      if key !in index {
        order := order + [key];
      }
      index := index[key := side[i]];
    }
    assert side[..|side|] == side;
  }

  /** The set of all keys, those of the first side first. */
  method MergeKeys(xs: seq<string>, ys: seq<string>) returns (keys: seq<string>)
    ensures keys == Union(xs, ys)
  {
    keys := xs;
    for i := 0 to |ys|
      invariant keys == Union(xs, ys[..i])
    {
      assert ys[..i + 1][..i] == ys[..i];
      if ys[i] !in keys {
        keys := keys + [ys[i]];
      }
    }
    assert ys[..|ys|] == ys;
  }
}
