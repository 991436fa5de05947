/** String keys built by joining ids: the score key `fixture::screen::viewport`, and the key of the
    live-image cache. Both are injective on colon-free outer parts; the score key's collisions are
    characterised exactly. */
module ScoreKeys {
  import opened Basics
  import opened Ids

  function Join(fixture: string, screen: string, viewport: string): string {
    fixture + "::" + screen + "::" + viewport
  }

  /** The ids of a key after defaulting. */
  function KeyParts(fixtureId: string, screenId: Option<string>, viewportId: Option<string>)
    : Result<(string, string, string)>
  {
    var f :- FixtureId(fixtureId);
    Ok((f, NonBlank(screenId).GetOr(f), NonBlank(viewportId).GetOr("default")))
  }

  /** getVisualBenchmarkScoreKey. */
  function ScoreKey(fixtureId: string, screenId: Option<string>, viewportId: Option<string>): Result<string> {
    var (f, s, v) :- KeyParts(fixtureId, screenId, viewportId);
    Ok(Join(f, s, v))
  }

  // ---- Splitting at the first and the last separator -------------------------------------------

  lemma HeadIsDetermined(f: string, a: string, g: string, b: string)
    requires ':' !in f && ':' !in g && f + ":" + a == g + ":" + b
    ensures f == g && a == b
  {
    var key := f + ":" + a;
    assert key[|f|] == ':' && key[|g|] == ':';
    assert f == key[..|f|] && g == key[..|g|];
    assert a == key[|f| + 1..] && b == key[|g| + 1..];
  }

  lemma TailIsDetermined(a: string, v: string, b: string, w: string)
    requires ':' !in v && ':' !in w && a + ":" + v == b + ":" + w
    ensures a == b && v == w
  {
    var key := a + ":" + v;
    var i, j := |key| - 1 - |v|, |key| - 1 - |w|;
    assert key[i] == ':' && key[j] == ':';
    assert v == key[i + 1..] && w == key[j + 1..];
    assert a == key[..i] && b == key[..j];
  }

  /** Screens may contain ':'; when fixtures and viewports do not, a key determines its parts. */
  lemma JoinIsInjective(f: string, s: string, v: string, g: string, t: string, w: string)
    requires ':' !in f && ':' !in g && ':' !in v && ':' !in w
    ensures Join(f, s, v) == Join(g, t, w) <==> f == g && s == t && v == w
  {
    if Join(f, s, v) == Join(g, t, w) {
      assert Join(f, s, v) == f + ":" + (":" + s + "::" + v);
      assert Join(g, t, w) == g + ":" + (":" + t + "::" + w);
      HeadIsDetermined(f, ":" + s + "::" + v, g, ":" + t + "::" + w);
      assert ":" + s + "::" + v == (":" + s + ":") + ":" + v;
      assert ":" + t + "::" + w == (":" + t + ":") + ":" + w;
      TailIsDetermined(":" + s + ":", v, ":" + t + ":", w);
      assert s == (":" + s + ":")[1..|s| + 1] && t == (":" + t + ":")[1..|t| + 1];
    }
  }

  lemma ScoreKeysSeparate(
      f: string, s: Option<string>, v: Option<string>, g: string, t: Option<string>, w: Option<string>)
    requires FixtureId(f).Ok? && FixtureId(g).Ok?
    requires ':' !in FixtureId(f).value && ':' !in FixtureId(g).value
    requires ':' !in NonBlank(v).GetOr("") && ':' !in NonBlank(w).GetOr("")
    ensures ScoreKey(f, s, v) == ScoreKey(g, t, w) <==> KeyParts(f, s, v) == KeyParts(g, t, w)
  {
    var p, q := KeyParts(f, s, v).value, KeyParts(g, t, w).value;
    JoinIsInjective(p.0, p.1, p.2, q.0, q.1, q.2);
  }

  // ---- When keys of different fixtures do collide ----------------------------------------------

  ghost predicate Collide(f: string, g: string) {
    exists s: Option<string>, v: Option<string>, t: Option<string>, w: Option<string> ::
      ScoreKey(f, s, v) == ScoreKey(g, t, w)
  }

  /** g continues f with a separator and a non-blank character, as "web::x" continues "web". */
  predicate Continues(g: string, f: string) {
    |f| < |g| && f + "::" <= g + "::" && !IsSpace((g + "::")[|f| + 2])
  }

  lemma PartsAreTrimmed(f: string, s: Option<string>, v: Option<string>)
    requires FixtureId(f) == Ok(f)
    ensures KeyParts(f, s, v).Ok? && KeyParts(f, s, v).value.0 == f
    ensures KeyParts(f, s, v).value.1 != [] && Trimmed(KeyParts(f, s, v).value.1)
  {
    FixtureIdIsIdempotent(f);
    NonBlankFacts(s);
  }

  lemma JoinedContinuation(f: string, s: string, v: string, g: string, t: string, w: string)
    requires Join(f, s, v) == Join(g, t, w) && f != g && |f| <= |g|
    requires s != [] && !IsSpace(s[0])
    ensures Continues(g, f)
  {
    var key := Join(f, s, v);
    assert key[..|f|] == f && key[..|g|] == g;
    assert key[..|f| + 2] == f + "::" && key[..|g| + 2] == g + "::";
    assert f + "::" == (g + "::")[..|f| + 2];
    assert (g + "::")[|f| + 2] == key[|f| + 2] == s[0];
  }

  lemma CollisionNeedsContinuation(
      f: string, s: Option<string>, v: Option<string>, g: string, t: Option<string>, w: Option<string>)
    requires FixtureId(f) == Ok(f) && FixtureId(g) == Ok(g) && f != g && |f| <= |g|
    requires ScoreKey(f, s, v) == ScoreKey(g, t, w)
    ensures Continues(g, f)
  {
    PartsAreTrimmed(f, s, v);
    PartsAreTrimmed(g, t, w);
    var p, q := KeyParts(f, s, v).value, KeyParts(g, t, w).value;
    JoinedContinuation(p.0, p.1, p.2, q.0, q.1, q.2);
  }

  lemma ContinuationCollides(f: string, g: string)
    requires FixtureId(f) == Ok(f) && FixtureId(g) == Ok(g) && Continues(g, f)
    ensures Collide(f, g)
  {
    var rest := (g + "::")[|f| + 2..];
    var screen := rest + "x";
    TrimFacts(screen);
    TrimFacts("x");
    assert f + "::" + rest == g + "::";
    assert Join(f, screen, "default") == Join(g, "x", "default");
    assert ScoreKey(f, Some(screen), None) == ScoreKey(g, Some("x"), None);
  }

  /** Two different fixtures can produce the same score key exactly when one continues the other. */
  lemma CollisionsAreExactlyContinuations(f: string, g: string)
    requires FixtureId(f) == Ok(f) && FixtureId(g) == Ok(g) && f != g
    ensures Collide(f, g) <==> Continues(g, f) || Continues(f, g)
  {
    if Collide(f, g) {
      var s, v, t, w :| ScoreKey(f, s, v) == ScoreKey(g, t, w);
      if |f| <= |g| {
        CollisionNeedsContinuation(f, s, v, g, t, w);
      } else {
        CollisionNeedsContinuation(g, t, w, f, s, v);
      }
    }
    if Continues(g, f) {
      ContinuationCollides(f, g);
    }
    if Continues(f, g) {
      ContinuationCollides(g, f);
      var s, v, t, w :| ScoreKey(g, s, v) == ScoreKey(f, t, w);
      assert ScoreKey(f, t, w) == ScoreKey(g, s, v);
    }
  }
}

/** The live-image cache that one audit shares across all fixtures. */
module LiveImages {
  import opened Basics
  import opened ScoreKeys

  /** What an image fetch depends on; the scale is given as its printed form. */
  datatype Request = Request(fileKey: string, nodeId: string, format: string, scale: string) {
    /** Figma file keys have no ':', and neither has "png" or a printed number. */
    predicate WellFormed() {
      ':' !in fileKey && ':' !in format && ':' !in scale
    }

    /** buildLiveImageCacheKey. */
    function CacheKey(): string {
      fileKey + ":" + nodeId + ":" + format + ":" + scale
    }
  }

  /** Node ids contain ':', yet a key determines a well-formed request. */
  lemma CacheKeysSeparate(a: Request, b: Request)
    requires a.WellFormed() && b.WellFormed()
    ensures a.CacheKey() == b.CacheKey() <==> a == b
  {
    if a.CacheKey() == b.CacheKey() {
      assert a.CacheKey() == a.fileKey + ":" + (a.nodeId + ":" + a.format + ":" + a.scale);
      assert b.CacheKey() == b.fileKey + ":" + (b.nodeId + ":" + b.format + ":" + b.scale);
      HeadIsDetermined(a.fileKey, a.nodeId + ":" + a.format + ":" + a.scale,
                       b.fileKey, b.nodeId + ":" + b.format + ":" + b.scale);
      TailIsDetermined(a.nodeId + ":" + a.format, a.scale, b.nodeId + ":" + b.format, b.scale);
      TailIsDetermined(a.nodeId, a.format, b.nodeId, b.format);
    }
  }

  /** A ':' in a file key is enough to confuse two requests. */
  lemma FileKeysWithColonsCollide()
    ensures var a := Request("file:1", "2", "png", "1");
            var b := Request("file", "1:2", "png", "1");
            a != b && a.CacheKey() == b.CacheKey()
  {
    assert "file:1" + ":" + "2" == "file" + ":" + "1:2";
  }

  class LiveImageCache<Image(!new)> {
    const fetch: Request -> Result<Image>
    var images: map<string, Image>

    /** Whatever is cached under a key is what fetching any request with that key would return. */
    ghost predicate Valid()
      reads this
    {
      forall r: Request :: r.WellFormed() && r.CacheKey() in images ==> fetch(r) == Ok(images[r.CacheKey()])
    }

    constructor (fetch: Request -> Result<Image>)
      ensures Valid() && this.fetch == fetch && images == map[]
    {
      this.fetch := fetch;
      images := map[];
    }

    /** fetchCachedLiveImage: the caller cannot tell a cached image from a fresh one. */
    method FetchCached(request: Request) returns (image: Result<Image>)
      requires Valid() && request.WellFormed()
      modifies this
      ensures Valid() && image == fetch(request)
      ensures images == if image.Ok? then old(images)[request.CacheKey() := image.value] else old(images)
    {
      var cacheKey := request.CacheKey();
      if cacheKey in images {
        assert images[cacheKey := images[cacheKey]] == images;
        return Ok(images[cacheKey]);
      }
      image := fetch(request);
      if image.Ok? {
        forall r: Request | r.WellFormed() && r.CacheKey() == cacheKey ensures r == request {
          CacheKeysSeparate(r, request);
        }
        images := images[cacheKey := image.value];
      }
    }

    /** A whole audit, whatever fixtures share which images. */
    method FetchAll(requests: seq<Request>) returns (fetched: seq<Result<Image>>)
      requires Valid() && forall r :: r in requests ==> r.WellFormed()
      modifies this
      ensures Valid() && |fetched| == |requests|
      ensures forall i :: 0 <= i < |requests| ==> fetched[i] == fetch(requests[i])
    {
      fetched := [];
      for i := 0 to |requests|
        invariant Valid() && |fetched| == i
        invariant forall j :: 0 <= j < i ==> fetched[j] == fetch(requests[j])
      {
        var image := FetchCached(requests[i]);
        fetched := fetched + [image];
      }
    }
  }
}
