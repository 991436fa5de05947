/** The key-sorting JSON normaliser whose output decides whether a frozen input has drifted. */
module CanonicalJson {
  import opened Basics
  import opened StableSort
  import opened Ids

  datatype Field = Field(key: string, value: Json)

  /** Parsed JSON; an object lists its own properties in order. */
  datatype Json =
    | Null
    | Bool(b: bool)
    | Number(n: real)
    | String(s: string)
    | Array(items: seq<Json>)
    | Object(fields: seq<Field>)

  const PROTO := "__proto__"

  function VisibleField(): Field -> bool {
    (f: Field) => f.key != PROTO
  }

  function KeyOrder(c: Collation): (Field, Field) -> bool {
    (f: Field, g: Field) => c(f.key, g.key)
  }

  /** toStableJsonValue. Assigning `output["__proto__"]` sets a prototype instead of a property, so
      that key is lost. Values are normalised before the sort here, which looks at keys only. */
  function Stable(c: Collation, j: Json): Json {
    match j
    case Array(items) => Array(seq(|items|, i requires 0 <= i < |items| => Stable(c, items[i])))
    case Object(fields) =>
      var normalised := seq(|fields|, i requires 0 <= i < |fields| => Field(fields[i].key, Stable(c, fields[i].value)));
      Object(Sort(KeyOrder(c), Filter(VisibleField(), normalised)))
    case _ => j
  }

  ghost predicate UniqueNames(fields: seq<Field>) {
    forall i, j :: 0 <= i < j < |fields| ==> fields[i].key != fields[j].key
  }

  /** A value JSON.parse can return: no object repeats a key. */
  ghost predicate WellFormed(j: Json) {
    match j
    case Array(items) => forall i :: 0 <= i < |items| ==> WellFormed(items[i])
    case Object(fields) => UniqueNames(fields) && forall i :: 0 <= i < |fields| ==> WellFormed(fields[i].value)
    case _ => true
  }

  ghost function VisibleKeys(fields: seq<Field>): set<string> {
    set i | 0 <= i < |fields| && fields[i].key != PROTO :: fields[i].key
  }

  /** Equality up to the order of keys at every level, not looking at "__proto__". */
  ghost predicate Same(a: Json, b: Json)
    decreases a
  {
    if a.Array? && b.Array? then
      |a.items| == |b.items| && forall i :: 0 <= i < |a.items| ==> Same(a.items[i], b.items[i])
    else if a.Object? && b.Object? then
      && VisibleKeys(a.fields) == VisibleKeys(b.fields)
      && forall i :: 0 <= i < |a.fields| && a.fields[i].key != PROTO ==>
           forall j :: 0 <= j < |b.fields| && b.fields[j].key == a.fields[i].key ==>
             Same(a.fields[i].value, b.fields[j].value)
    else a == b
  }

  // ---- One object ------------------------------------------------------------------------------

  function Normalised(c: Collation, fields: seq<Field>): (r: seq<Field>)
    ensures |r| == |fields|
    ensures forall i :: 0 <= i < |r| ==> r[i] == Field(fields[i].key, Stable(c, fields[i].value))
  {
    seq(|fields|, i requires 0 <= i < |fields| => Field(fields[i].key, Stable(c, fields[i].value)))
  }

  function Shown(c: Collation, fields: seq<Field>): seq<Field> {
    Filter(VisibleField(), Normalised(c, fields))
  }

  lemma StableObject(c: Collation, fields: seq<Field>)
    ensures Stable(c, Object(fields)) == Object(Sort(KeyOrder(c), Shown(c, fields)))
  {
    assert seq(|fields|, i requires 0 <= i < |fields| => Field(fields[i].key, Stable(c, fields[i].value)))
        == Normalised(c, fields);
  }

  lemma KeyOrderIsTotal(c: Collation)
    ensures TotalPreorder(KeyOrder(c))
  {
    var leq := KeyOrder(c);
    forall f: Field, g: Field ensures leq(f, g) || leq(g, f) {
      assert c(f.key, g.key) || c(g.key, f.key);
    }
    forall f: Field, g: Field, h: Field | leq(f, g) && leq(g, h) ensures leq(f, h) {
      assert c(f.key, g.key) && c(g.key, h.key);
    }
  }

  lemma {:induction false} FilterKeepsUnique(fields: seq<Field>)
    requires UniqueNames(fields)
    ensures UniqueNames(Filter(VisibleField(), fields))
  {
    if fields != [] {
      var init, last := fields[..|fields| - 1], fields[|fields| - 1];
      FilterKeepsUnique(init);
      FilterMembers(VisibleField(), init);
      forall f | f in Filter(VisibleField(), init) ensures f.key != last.key {
        var i :| 0 <= i < |init| && init[i] == f;
        assert fields[i].key != last.key;
      }
    }
  }

  /** The members of a canonical object: every visible field, its value canonical. */
  lemma ShownMembers(c: Collation, fields: seq<Field>, f: Field)
    ensures f in Shown(c, fields) <==>
              exists i :: 0 <= i < |fields| && f.key != PROTO && f == Field(fields[i].key, Stable(c, fields[i].value))
  {
    FilterMembers(VisibleField(), Normalised(c, fields));
    if f in Shown(c, fields) {
      var i :| 0 <= i < |fields| && Normalised(c, fields)[i] == f;
    }
    if i :| 0 <= i < |fields| && f.key != PROTO && f == Field(fields[i].key, Stable(c, fields[i].value)) {
      assert Normalised(c, fields)[i] == f;
    }
  }

  lemma UniqueMembers(fields: seq<Field>, f: Field, g: Field)
    requires UniqueNames(fields) && f in fields && g in fields && f.key == g.key
    ensures f == g
  {
    var i :| 0 <= i < |fields| && fields[i] == f;
    var j :| 0 <= j < |fields| && fields[j] == g;
    assert i < j || j < i || i == j;
  }

  lemma UniqueNamesAreDistinct(fields: seq<Field>)
    requires UniqueNames(fields)
    ensures Distinct(fields)
  {
  }

  lemma SameMembersSameCounts(a: seq<Field>, b: seq<Field>)
    requires Distinct(a) && Distinct(b) && forall f :: f in a <==> f in b
    ensures multiset(a) == multiset(b)
  {
    DistinctByCount(a);
    DistinctByCount(b);
    forall f ensures multiset(a)[f] == multiset(b)[f] {
      assert f in a <==> f in multiset(a);
      assert f in b <==> f in multiset(b);
    }
  }

  /** Sorted by key, objects are equal exactly when they have the same fields. */
  lemma SortedFieldsEqual(c: Collation, a: seq<Field>, b: seq<Field>)
    requires UniqueNames(a) && UniqueNames(b)
    ensures Sort(KeyOrder(c), a) == Sort(KeyOrder(c), b) <==> forall f :: f in a <==> f in b
  {
    var leq := KeyOrder(c);
    KeyOrderIsTotal(c);
    SortFacts(leq, a);
    SortFacts(leq, b);
    if forall f :: f in a <==> f in b {
      UniqueNamesAreDistinct(a);
      UniqueNamesAreDistinct(b);
      SameMembersSameCounts(a, b);
      forall f, g | f in Sort(leq, a) && g in Sort(leq, a) && Equivalent(leq, f, g) ensures f == g {
        UniqueMembers(a, f, g);
      }
      SortedIsUnique(leq, Sort(leq, a), Sort(leq, b));
    }
  }

  lemma ShownUnique(c: Collation, fields: seq<Field>)
    requires UniqueNames(fields)
    ensures UniqueNames(Shown(c, fields))
  {
    FilterKeepsUnique(Normalised(c, fields));
  }

  // ---- The canonical form decides sameness -----------------------------------------------------

  /** Two parsed documents have the same canonical form exactly when they are equal up to key order. */
  lemma {:induction false} CanonicalFormDecides(c: Collation, a: Json, b: Json)
    requires WellFormed(a) && WellFormed(b)
    ensures Stable(c, a) == Stable(c, b) <==> Same(a, b)
    decreases a
  {
    if a.Array? && b.Array? {
      forall i | 0 <= i < |a.items| && i < |b.items|
        ensures Stable(c, a.items[i]) == Stable(c, b.items[i]) <==> Same(a.items[i], b.items[i])
      {
        CanonicalFormDecides(c, a.items[i], b.items[i]);
      }
      ArraysEqual(c, a.items, b.items);
    } else if a.Object? && b.Object? {
      forall i, j | 0 <= i < |a.fields| && 0 <= j < |b.fields|
        ensures Stable(c, a.fields[i].value) == Stable(c, b.fields[j].value) <==> Same(a.fields[i].value, b.fields[j].value)
      {
        CanonicalFormDecides(c, a.fields[i].value, b.fields[j].value);
      }
      StableObject(c, a.fields);
      StableObject(c, b.fields);
      ShownUnique(c, a.fields);
      ShownUnique(c, b.fields);
      SortedFieldsEqual(c, Shown(c, a.fields), Shown(c, b.fields));
      MembersDecide(c, a.fields, b.fields);
    }
  }

  lemma ArraysEqual(c: Collation, xs: seq<Json>, ys: seq<Json>)
    ensures Stable(c, Array(xs)) == Stable(c, Array(ys)) <==>
              |xs| == |ys| && forall i :: 0 <= i < |xs| ==> Stable(c, xs[i]) == Stable(c, ys[i])
  {
    var p, q := Stable(c, Array(xs)).items, Stable(c, Array(ys)).items;
    assert |p| == |xs| && |q| == |ys|;
    assert forall i :: 0 <= i < |xs| ==> p[i] == Stable(c, xs[i]);
    assert forall i :: 0 <= i < |ys| ==> q[i] == Stable(c, ys[i]);
    assert p == q <==> |p| == |q| && forall i :: 0 <= i < |p| ==> p[i] == q[i];
  }

  /** Same fields shown means same keys, and canonically equal values under each. */
  lemma MembersDecide(c: Collation, fs: seq<Field>, gs: seq<Field>)
    requires UniqueNames(fs) && UniqueNames(gs)
    requires forall i, j :: 0 <= i < |fs| && 0 <= j < |gs|
               ==> (Stable(c, fs[i].value) == Stable(c, gs[j].value) <==> Same(fs[i].value, gs[j].value))
    ensures (forall f :: f in Shown(c, fs) <==> f in Shown(c, gs)) <==> Same(Object(fs), Object(gs))
  {
    if forall f :: f in Shown(c, fs) <==> f in Shown(c, gs) {
      MembersGiveSame(c, fs, gs);
    }
    if Same(Object(fs), Object(gs)) {
      SameGivesMembers(c, fs, gs);
    }
  }

  lemma SameGivesMembers(c: Collation, fs: seq<Field>, gs: seq<Field>)
    requires UniqueNames(fs) && UniqueNames(gs)
    requires forall i, j :: 0 <= i < |fs| && 0 <= j < |gs|
               ==> (Stable(c, fs[i].value) == Stable(c, gs[j].value) <==> Same(fs[i].value, gs[j].value))
    requires Same(Object(fs), Object(gs))
    ensures forall f :: f in Shown(c, fs) <==> f in Shown(c, gs)
  {
    forall f ensures f in Shown(c, fs) <==> f in Shown(c, gs) {
      ShownMembers(c, fs, f);
      ShownMembers(c, gs, f);
      if i :| 0 <= i < |fs| && f.key != PROTO && f == Field(fs[i].key, Stable(c, fs[i].value)) {
        assert f.key in VisibleKeys(gs);
        var j :| 0 <= j < |gs| && gs[j].key == f.key;
        assert Same(Object(fs).fields[i].value, Object(gs).fields[j].value);
      }
      if j :| 0 <= j < |gs| && f.key != PROTO && f == Field(gs[j].key, Stable(c, gs[j].value)) {
        assert f.key in VisibleKeys(fs);
        var i :| 0 <= i < |fs| && fs[i].key == f.key;
        assert Same(Object(fs).fields[i].value, Object(gs).fields[j].value);
      }
    }
  }

  lemma MembersGiveSame(c: Collation, fs: seq<Field>, gs: seq<Field>)
    requires UniqueNames(fs) && UniqueNames(gs)
    requires forall i, j :: 0 <= i < |fs| && 0 <= j < |gs|
               ==> (Stable(c, fs[i].value) == Stable(c, gs[j].value) <==> Same(fs[i].value, gs[j].value))
    requires forall f :: f in Shown(c, fs) <==> f in Shown(c, gs)
    ensures Same(Object(fs), Object(gs))
  {
    forall k ensures k in VisibleKeys(fs) <==> k in VisibleKeys(gs) {
      if i :| 0 <= i < |fs| && fs[i].key == k != PROTO {
        ShownMembers(c, fs, Field(k, Stable(c, fs[i].value)));
        ShownMembers(c, gs, Field(k, Stable(c, fs[i].value)));
      }
      if j :| 0 <= j < |gs| && gs[j].key == k != PROTO {
        ShownMembers(c, fs, Field(k, Stable(c, gs[j].value)));
        ShownMembers(c, gs, Field(k, Stable(c, gs[j].value)));
      }
    }
    forall i, j | 0 <= i < |fs| && 0 <= j < |gs| && fs[i].key == gs[j].key != PROTO ensures Same(fs[i].value, gs[j].value) {
      ShownMembers(c, fs, Field(fs[i].key, Stable(c, fs[i].value)));
      ShownMembers(c, gs, Field(fs[i].key, Stable(c, fs[i].value)));
      var k :| 0 <= k < |gs| && gs[k].key == fs[i].key && Stable(c, fs[i].value) == Stable(c, gs[k].value);
      assert k == j;
    }
  }

  // ---- Further properties ----------------------------------------------------------------------

  /** Every lookup survives, at any object: the canonical object maps a key to the canonical form of
      the value the original maps it to, and has no other key. */
  lemma LookupsSurvive(c: Collation, fields: seq<Field>, key: string, value: Json)
    ensures Field(key, value) in Stable(c, Object(fields)).fields <==>
              key != PROTO && exists i :: 0 <= i < |fields| && fields[i].key == key && value == Stable(c, fields[i].value)
  {
    StableObject(c, fields);
    KeyOrderIsTotal(c);
    SortFacts(KeyOrder(c), Shown(c, fields));
    ShownMembers(c, fields, Field(key, value));
  }

  /** One step into a document. */
  datatype Crumb = Key(name: string) | Index(position: nat)

  function Named(fields: seq<Field>, name: string): Option<Json> {
    if fields == [] then None
    else if fields[0].key == name then Some(fields[0].value)
    else Named(fields[1..], name)
  }

  function Child(j: Json, crumb: Crumb): Option<Json> {
    match crumb
    case Key(name) => if j.Object? then Named(j.fields, name) else None
    case Index(i) => if j.Array? && i < |j.items| then Some(j.items[i]) else None
  }

  /** What a path of keys and positions leads to. */
  function Lookup(j: Json, path: seq<Crumb>): Option<Json>
    decreases |path|
  {
    if path == [] then Some(j)
    else match Child(j, path[0])
      case None => None
      case Some(child) => Lookup(child, path[1..])
  }

  function StableOption(c: Collation, j: Option<Json>): Option<Json> {
    if j.None? then None else Some(Stable(c, j.value))
  }

  lemma {:induction false} NamedFinds(fields: seq<Field>, name: string)
    ensures Named(fields, name).Some? ==> Field(name, Named(fields, name).value) in fields
    ensures Named(fields, name).None? ==> forall i :: 0 <= i < |fields| ==> fields[i].key != name
  {
    if fields != [] && fields[0].key != name {
      NamedFinds(fields[1..], name);
      assert fields == [fields[0]] + fields[1..];
    }
  }

  lemma NamedSurvives(c: Collation, fields: seq<Field>, name: string)
    requires UniqueNames(fields) && name != PROTO
    ensures Named(Stable(c, Object(fields)).fields, name) == StableOption(c, Named(fields, name))
  {
    var shown := Stable(c, Object(fields)).fields;
    NamedFinds(fields, name);
    NamedFinds(shown, name);
    if Named(shown, name).Some? {
      LookupsSurvive(c, fields, name, Named(shown, name).value);
    }
    if Named(fields, name).Some? {
      var i :| 0 <= i < |fields| && fields[i] == Field(name, Named(fields, name).value);
      LookupsSurvive(c, fields, name, Stable(c, fields[i].value));
    }
  }

  lemma ChildSurvives(c: Collation, j: Json, crumb: Crumb)
    requires WellFormed(j) && crumb != Key(PROTO)
    ensures Child(Stable(c, j), crumb) == StableOption(c, Child(j, crumb))
    ensures Child(j, crumb).Some? ==> WellFormed(Child(j, crumb).value)
  {
    if crumb.Key? && j.Object? {
      NamedSurvives(c, j.fields, crumb.name);
      NamedFinds(j.fields, crumb.name);
    }
  }

  /** Every lookup survives at every depth: a path that avoids "__proto__" leads to the canonical form
      of what it led to before, and to nothing when it led to nothing. */
  lemma {:induction false} PathsSurvive(c: Collation, j: Json, path: seq<Crumb>)
    requires WellFormed(j) && Key(PROTO) !in path
    ensures Lookup(Stable(c, j), path) == StableOption(c, Lookup(j, path))
    decreases |path|
  {
    if path != [] {
      ChildSurvives(c, j, path[0]);
      if Child(j, path[0]).Some? {
        PathsSurvive(c, Child(j, path[0]).value, path[1..]);
      }
    }
  }

  /** Normalising a canonical value changes nothing, and keys come out sorted. */
  lemma {:induction false} StableIsIdempotent(c: Collation, j: Json)
    ensures Stable(c, Stable(c, j)) == Stable(c, j)
    ensures j.Object? ==> Sorted(KeyOrder(c), Stable(c, j).fields)
    decreases j
  {
    if j.Array? {
      forall i | 0 <= i < |j.items| ensures Stable(c, Stable(c, j.items[i])) == Stable(c, j.items[i]) {
        StableIsIdempotent(c, j.items[i]);
      }
      ArraysEqual(c, Stable(c, j).items, j.items);
    } else if j.Object? {
      var s := Sort(KeyOrder(c), Shown(c, j.fields));
      StableObject(c, j.fields);
      KeyOrderIsTotal(c);
      SortFacts(KeyOrder(c), Shown(c, j.fields));
      forall f | f in s ensures f.key != PROTO && Stable(c, f.value) == f.value {
        ShownMembers(c, j.fields, f);
        var i :| 0 <= i < |j.fields| && f == Field(j.fields[i].key, Stable(c, j.fields[i].value));
        StableIsIdempotent(c, j.fields[i].value);
      }
      StableObject(c, s);
      CanonicalFieldsAreFixed(c, s);
    }
  }

  lemma CanonicalFieldsAreFixed(c: Collation, s: seq<Field>)
    requires Sorted(KeyOrder(c), s) && forall f :: f in s ==> f.key != PROTO && Stable(c, f.value) == f.value
    ensures Sort(KeyOrder(c), Shown(c, s)) == s
  {
    forall i | 0 <= i < |s| ensures Normalised(c, s)[i] == s[i] {
      assert s[i] in s;
    }
    assert Normalised(c, s) == s;
    FilterAll(VisibleField(), s);
    SortFixesSorted(KeyOrder(c), s);
  }

  /** Whatever is stored under "__proto__" never shows in the canonical form: a frozen and a live input
      differing there only are reported as unchanged. */
  lemma ProtoIsInvisible(c: Collation, fields: seq<Field>, value: Json)
    ensures Stable(c, Object(fields + [Field(PROTO, value)])) == Stable(c, Object(fields))
  {
    var f := Field(PROTO, value);
    StableObject(c, fields);
    StableObject(c, fields + [f]);
    assert Normalised(c, fields + [f]) == Normalised(c, fields) + [Field(PROTO, Stable(c, value))];
    FilterSnoc(VisibleField(), Normalised(c, fields), Field(PROTO, Stable(c, value)));
    assert Shown(c, fields) + [] == Shown(c, fields);
  }
}
