/** Identifiers of fixtures, screens and viewports: the assertAllowed* guards, the defaulting of
    blank optional ids, and the order used to sort them. */
module Ids {
  import opened Basics
  import opened StableSort

  // ---- Trimming --------------------------------------------------------------------------------

  /** The characters String.prototype.trim removes. */
  predicate IsSpace(c: char) {
    || '\t' <= c <= '\r' || c == ' ' || c == '\U{a0}' || c == '\U{1680}'
    || '\U{2000}' <= c <= '\U{200a}' || c == '\U{2028}' || c == '\U{2029}'
    || c == '\U{202f}' || c == '\U{205f}' || c == '\U{3000}' || c == '\U{feff}'
  }

  function TrimStart(s: string): string {
    if s != [] && IsSpace(s[0]) then TrimStart(s[1..]) else s
  }

  function TrimEnd(s: string): string {
    if s != [] && IsSpace(s[|s| - 1]) then TrimEnd(s[..|s| - 1]) else s
  }

  function Trim(s: string): string {
    TrimEnd(TrimStart(s))
  }

  predicate Trimmed(s: string) {
    s == [] || (!IsSpace(s[0]) && !IsSpace(s[|s| - 1]))
  }

  lemma {:induction false} TrimEndFacts(s: string)
    ensures TrimEnd(s) <= s
    ensures TrimEnd(s) != [] ==> !IsSpace(TrimEnd(s)[|TrimEnd(s)| - 1])
  {
    if s != [] && IsSpace(s[|s| - 1]) {
      TrimEndFacts(s[..|s| - 1]);
    }
  }

  lemma {:induction false} TrimStartFacts(s: string)
    ensures |TrimStart(s)| <= |s| && TrimStart(s) == s[|s| - |TrimStart(s)|..]
    ensures TrimStart(s) != [] ==> !IsSpace(TrimStart(s)[0])
  {
    if s != [] && IsSpace(s[0]) {
      TrimStartFacts(s[1..]);
    }
  }

  /** Trimming yields a trimmed infix, and leaves trimmed strings alone. */
  lemma TrimFacts(s: string)
    ensures Trimmed(Trim(s))
    ensures Trimmed(s) ==> Trim(s) == s
    ensures forall c :: c in Trim(s) ==> c in s
  {
    TrimStartFacts(s);
    TrimEndFacts(TrimStart(s));
  }

  predicate AllSpace(s: string) {
    forall c :: c in s ==> IsSpace(c)
  }

  lemma {:induction false} TrimStartDropsSpace(s: string) returns (before: string)
    ensures AllSpace(before) && s == before + TrimStart(s)
  {
    before := "";
    if s != [] && IsSpace(s[0]) {
      var rest := TrimStartDropsSpace(s[1..]);
      before := [s[0]] + rest;
      assert s == [s[0]] + s[1..];
    }
  }

  lemma {:induction false} TrimEndDropsSpace(s: string) returns (after: string)
    ensures AllSpace(after) && s == TrimEnd(s) + after
  {
    after := "";
    if s != [] && IsSpace(s[|s| - 1]) {
      var rest := TrimEndDropsSpace(s[..|s| - 1]);
      after := rest + [s[|s| - 1]];
      assert s == s[..|s| - 1] + [s[|s| - 1]];
    }
  }

  /** Trimming removes blanks at both ends and nothing else. */
  lemma TrimDropsOnlySpace(s: string)
    ensures exists before, after :: AllSpace(before) && AllSpace(after) && s == before + Trim(s) + after
  {
    var before := TrimStartDropsSpace(s);
    var after := TrimEndDropsSpace(TrimStart(s));
    assert s == before + Trim(s) + after;
  }

  lemma NoSpaceIsTrimmed(s: string)
    requires forall c :: c in s ==> !IsSpace(c)
    ensures Trim(s) == s
  {
    assert Trimmed(s) by {
      if s != [] {
        assert s[0] in s && s[|s| - 1] in s;
      }
    }
    TrimFacts(s);
  }

  // ---- Guards ----------------------------------------------------------------------------------

  predicate Contains(s: string, infix: string) {
    infix <= s || (s != [] && Contains(s[1..], infix))
  }

  function ToForwardSlashes(s: string): string {
    if s == [] then [] else [if s[0] == '\\' then '/' else s[0]] + ToForwardSlashes(s[1..])
  }

  /** assertAllowedFixtureId: a relative, separator-free name without a forbidden segment. */
  function FixtureId(value: string): Result<string> {
    var normalized := Trim(ToForwardSlashes(value));
    if normalized == [] then Err("empty")
    else if normalized[0] == '/' then Err("absolute")
    else if Contains(normalized, "storybook-static") || Contains(normalized, ".zip") || Contains(normalized, "..") then
      Err("forbidden segment")
    else if '/' in normalized then Err("separator")
    else Ok(normalized)
  }

  /** s has the infix at some position. */
  lemma {:induction false} ContainsExactly(s: string, infix: string)
    ensures Contains(s, infix) <==> exists i :: 0 <= i <= |s| && infix <= s[i..]
  {
    if s != [] {
      ContainsExactly(s[1..], infix);
      if Contains(s[1..], infix) {
        var i :| 0 <= i <= |s[1..]| && infix <= s[1..][i..];
        assert s[i + 1..] == s[1..][i..];
      }
      if i :| 0 < i <= |s| && infix <= s[i..] {
        assert s[i..] == s[1..][i - 1..];
      }
      assert s[0..] == s;
    } else if infix == [] {
      assert infix <= s[0..];
    }
  }

  lemma {:induction false} TurnedExactly(s: string)
    ensures |ToForwardSlashes(s)| == |s|
    ensures forall i :: 0 <= i < |s| ==> ToForwardSlashes(s)[i] == if s[i] == '\\' then '/' else s[i]
  {
    if s != [] {
      TurnedExactly(s[1..]);
    }
  }

  predicate HasInfix(s: string, infix: string) {
    exists i :: 0 <= i <= |s| && infix <= s[i..]
  }

  /** The fixture guard turns backslashes, trims, and accepts exactly what is then non-empty, free of
      separators, and without a parent reference, a storybook build or a zip archive in it. */
  lemma FixtureIdAccepts(value: string)
    ensures var id := Trim(ToForwardSlashes(value));
            && (FixtureId(value).Ok? <==> id != [] && '/' !in id && !HasInfix(id, "..") && !HasInfix(id, "storybook-static") && !HasInfix(id, ".zip"))
            && (FixtureId(value).Ok? ==> FixtureId(value).value == id)
  {
    var id := Trim(ToForwardSlashes(value));
    ContainsExactly(id, "..");
    ContainsExactly(id, "storybook-static");
    ContainsExactly(id, ".zip");
    if id != [] {
      assert id[0] in id;
    }
  }

  predicate IsIdChar(c: char) {
    'A' <= c <= 'Z' || 'a' <= c <= 'z' || '0' <= c <= '9' || c == '_' || c == '-'
  }

  /** assertAllowedScreenId: letters, digits, ':', '_' and '-'. */
  function ScreenId(value: string): Result<string> {
    var trimmed := Trim(value);
    if trimmed == [] then Err("empty")
    else if Contains(trimmed, "..") then Err("forbidden segment")
    else if exists c :: c in trimmed && !IsIdChar(c) && c != ':' then Err("invalid characters")
    else Ok(trimmed)
  }

  /** assertAllowedViewportId: as a screen id, but without ':'. */
  function ViewportId(value: string): Result<string> {
    var trimmed := Trim(value);
    if trimmed == [] then Err("empty")
    else if Contains(trimmed, "..") then Err("forbidden segment")
    else if exists c :: c in trimmed && !IsIdChar(c) then Err("invalid characters")
    else Ok(trimmed)
  }

  predicate AllowedScreen(id: string) {
    id != [] && forall c :: c in id ==> IsIdChar(c) || c == ':'
  }

  predicate AllowedViewport(id: string) {
    id != [] && forall c :: c in id ==> IsIdChar(c)
  }

  lemma {:induction false} NoDots(s: string)
    requires '.' !in s
    ensures !Contains(s, "..")
  {
    if s != [] {
      NoDots(s[1..]);
      assert s[0] in s;
    }
  }

  /** The screen guard accepts exactly the strings whose trimmed form is spelled with id characters. */
  lemma ScreenIdAccepts(value: string)
    ensures ScreenId(value).Ok? <==> AllowedScreen(Trim(value))
    ensures ScreenId(value).Ok? ==> ScreenId(value).value == Trim(value)
    ensures AllowedScreen(value) ==> ScreenId(value) == Ok(value)
  {
    if AllowedScreen(Trim(value)) {
      NoDots(Trim(value));
    }
    if AllowedScreen(value) {
      NoSpaceIsTrimmed(value);
    }
  }

  lemma ViewportIdAccepts(value: string)
    ensures ViewportId(value).Ok? <==> AllowedViewport(Trim(value))
    ensures ViewportId(value).Ok? ==> ViewportId(value).value == Trim(value)
    ensures AllowedViewport(value) ==> ViewportId(value) == Ok(value)
  {
    if AllowedViewport(Trim(value)) {
      NoDots(Trim(value));
    }
    if AllowedViewport(value) {
      NoSpaceIsTrimmed(value);
    }
  }

  lemma {:induction false} SlashesTurned(s: string)
    ensures '\\' !in ToForwardSlashes(s)
    ensures '\\' !in s ==> ToForwardSlashes(s) == s
  {
    if s != [] {
      SlashesTurned(s[1..]);
      assert s == [s[0]] + s[1..];
    }
  }

  /** A normalised fixture id is its own normal form. */
  lemma FixtureIdIsIdempotent(value: string)
    requires FixtureId(value).Ok?
    ensures FixtureId(FixtureId(value).value) == FixtureId(value)
    ensures Trimmed(FixtureId(value).value) && FixtureId(value).value != []
  {
    var slashed := ToForwardSlashes(value);
    var id := FixtureId(value).value;
    TrimFacts(slashed);
    TrimFacts(id);
    SlashesTurned(value);
    SlashesTurned(id);
  }

  // ---- Defaulting ------------------------------------------------------------------------------

  /** `typeof v === "string" && v.trim().length > 0 ? v.trim() : undefined`. */
  function NonBlank(v: Option<string>): Option<string> {
    if v.Some? && Trim(v.value) != [] then Some(Trim(v.value)) else None
  }

  lemma NonBlankFacts(v: Option<string>)
    ensures NonBlank(NonBlank(v)) == NonBlank(v)
    ensures NonBlank(v).Some? ==> NonBlank(v).value != [] && Trimmed(NonBlank(v).value)
  {
    if v.Some? {
      TrimFacts(v.value);
      TrimFacts(Trim(v.value));
    }
  }

  // ---- Order -----------------------------------------------------------------------------------

  ghost predicate LinearOrder(leq: (string, string) -> bool) {
    TotalPreorder(leq) && forall a, b :: leq(a, b) && leq(b, a) ==> a == b
  }

  predicate LexAtMost(a: string, b: string) {
    a == [] || (b != [] && (a[0] < b[0] || (a[0] == b[0] && LexAtMost(a[1..], b[1..]))))
  }

  lemma {:induction false} LexFacts(a: string, b: string, c: string)
    ensures LexAtMost(a, b) || LexAtMost(b, a)
    ensures LexAtMost(a, b) && LexAtMost(b, a) ==> a == b
    ensures LexAtMost(a, b) && LexAtMost(b, c) ==> LexAtMost(a, c)
  {
    if a != [] && b != [] {
      LexFacts(a[1..], b[1..], if c == [] then [] else c[1..]);
      assert a == [a[0]] + a[1..] && b == [b[0]] + b[1..];
    }
  }

  lemma LexIsLinear()
    ensures LinearOrder(LexAtMost)
  {
    forall a, b, c
      ensures LexAtMost(a, b) || LexAtMost(b, a)
      ensures LexAtMost(a, b) && LexAtMost(b, a) ==> a == b
      ensures LexAtMost(a, b) && LexAtMost(b, c) ==> LexAtMost(a, c)
    {
      LexFacts(a, b, c);
    }
  }

  /** The order localeCompare induces: any linear order on strings. */
  type Collation = leq: (string, string) -> bool | LinearOrder(leq)
    ghost witness (LexIsLinear(); LexAtMost)
}
