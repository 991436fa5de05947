/** Screen ids as directory names: '_' is escaped as "~u" and ':' is spelled '_', so that every
    allowed id becomes a colon-free token and can be read back from a directory listing. */
module ScreenIdCodec {
  import opened Basics
  import opened Ids

  /** s.replace(/c/gu, by). */
  function ReplaceChar(s: string, c: char, spelling: string): string {
    if s == [] then [] else (if s[0] == c then spelling else [s[0]]) + ReplaceChar(s[1..], c, spelling)
  }

  function Encode(id: string): string {
    ReplaceChar(ReplaceChar(id, '_', "~u"), ':', "_")
  }

  /** toScreenIdToken. */
  function ToToken(screenId: string): Result<string> {
    var id :- ScreenId(screenId);
    Ok(Encode(id))
  }

  /** What one pass over an escaped token means, read from the left. */
  function Decode(token: string): Result<string> {
    if token == [] then Ok([])
    else if token[0] == '_' then
      var rest :- Decode(token[1..]);
      Ok([':'] + rest)
    else if token[0] != '~' then
      var rest :- Decode(token[1..]);
      Ok([token[0]] + rest)
    else if |token| >= 2 && token[1] == 'u' then
      var rest :- Decode(token[2..]);
      Ok(['_'] + rest)
    else Err("unsupported escape")
  }

  /** fromScreenIdToken, as a value. */
  function FromToken(token: string): Result<string> {
    var trimmed := Trim(token);
    if trimmed == [] then Err("empty token")
    else if '~' !in trimmed then ScreenId(ReplaceChar(trimmed, '_', ":"))
    else
      var decoded :- Decode(trimmed);
      ScreenId(decoded)
  }

  ghost function Prepend(prefix: string, r: Result<string>): Result<string> {
    if r.Ok? then Ok(prefix + r.value) else r
  }

  lemma DecodeAt(token: string, i: nat, prefix: string)
    requires i < |token|
    ensures token[i] == '_'
        ==> Prepend(prefix, Decode(token[i..])) == Prepend(prefix + ":", Decode(token[i + 1..]))
    ensures token[i] != '_' && token[i] != '~'
        ==> Prepend(prefix, Decode(token[i..])) == Prepend(prefix + [token[i]], Decode(token[i + 1..]))
    ensures token[i] == '~' && token[i..][..if i + 2 <= |token| then 2 else 1] == "~u"
        ==> i + 2 <= |token| && Prepend(prefix, Decode(token[i..])) == Prepend(prefix + "_", Decode(token[i + 2..]))
    ensures token[i] == '~' && token[i..][..if i + 2 <= |token| then 2 else 1] != "~u"
        ==> Prepend(prefix, Decode(token[i..])) == Err("unsupported escape")
  {
    var rest := token[i..];
    assert rest[1..] == token[i + 1..];
    if token[i] != '~' {
      var next := Decode(token[i + 1..]);
      var c := if token[i] == '_' then ':' else token[i];
      if next.Ok? {
        assert prefix + ([c] + next.value) == prefix + [c] + next.value;
      }
    } else if i + 2 <= |token| {
      assert rest[2..] == token[i + 2..];
      assert rest[..2] == "~u" <==> rest[1] == 'u';
      var next := Decode(token[i + 2..]);
      if next.Ok? {
        assert prefix + (['_'] + next.value) == prefix + "_" + next.value;
      }
    }
  }

  /** The character loop of fromScreenIdToken. */
  method FromScreenIdToken(token: string) returns (result: Result<string>)
    ensures result == FromToken(token)
  {
    var trimmed := Trim(token);
    if trimmed == [] {
      return Err("empty token");
    }
    if '~' !in trimmed {
      return ScreenId(ReplaceChar(trimmed, '_', ":"));
    }
    var decoded := "";
    var index := 0;
    assert trimmed[0..] == trimmed;
    assert Decode(trimmed).Ok? ==> decoded + Decode(trimmed).value == Decode(trimmed).value;
    while index < |trimmed|
      invariant 0 <= index <= |trimmed|
      invariant Decode(trimmed) == Prepend(decoded, Decode(trimmed[index..]))
    {
      DecodeAt(trimmed, index, decoded);
      var character := trimmed[index];
      if character == '_' {
        decoded := decoded + ":";
      } else if character != '~' {
        decoded := decoded + [character];
      } else {
        var escapeSequence := trimmed[index..][..if index + 2 <= |trimmed| then 2 else 1];
        if escapeSequence != "~u" {
          return Err("unsupported escape");
        }
        decoded := decoded + "_";
        index := index + 1;
      }
      index := index + 1;
    }
    assert trimmed[index..] == [] && decoded + [] == decoded;
    return ScreenId(decoded);
  }

  // ---- Encoding is a homomorphism --------------------------------------------------------------

  function EncodeChar(c: char): string {
    if c == '_' then "~u" else if c == ':' then "_" else [c]
  }

  lemma ReplaceCons(x: char, s: string, c: char, spelling: string)
    ensures ReplaceChar([x] + s, c, spelling) == (if x == c then spelling else [x]) + ReplaceChar(s, c, spelling)
  {
    assert ([x] + s)[1..] == s;
  }

  lemma Associate(a: string, b: string, c: string)
    ensures (a + b) + c == a + (b + c)
  {
  }

  lemma {:induction false} ReplaceConcat(a: string, b: string, c: char, spelling: string)
    ensures ReplaceChar(a + b, c, spelling) == ReplaceChar(a, c, spelling) + ReplaceChar(b, c, spelling)
  {
    if a == [] {
      assert a + b == b;
    } else {
      var head := if a[0] == c then spelling else [a[0]];
      ReplaceConcat(a[1..], b, c, spelling);
      assert a + b == [a[0]] + (a[1..] + b);
      ReplaceCons(a[0], a[1..] + b, c, spelling);
      Associate(head, ReplaceChar(a[1..], c, spelling), ReplaceChar(b, c, spelling));
    }
  }

  lemma EncodeCons(c: char, s: string)
    ensures Encode([c] + s) == EncodeChar(c) + Encode(s)
  {
    var head := if c == '_' then "~u" else [c];
    assert ([c] + s)[1..] == s;
    ReplaceConcat(head, ReplaceChar(s, '_', "~u"), ':', "_");
    assert head == [head[0]] + head[1..];
    assert ReplaceChar(head[1..], ':', "_") == head[1..] by {
      if |head| == 2 {
        assert head[1..][1..] == [];
      }
    }
  }

  lemma {:induction false} EncodeSpelling(s: string)
    ensures ':' !in Encode(s)
    ensures (forall c :: c in s ==> IsIdChar(c) || c == ':')
        ==> forall c :: c in Encode(s) ==> IsIdChar(c) || c == '~'
    ensures |Encode(s)| >= |s|
  {
    if s != [] {
      assert s == [s[0]] + s[1..];
      EncodeCons(s[0], s[1..]);
      EncodeSpelling(s[1..]);
      assert s[0] in s && forall c :: c in s[1..] ==> c in s;
    }
  }

  lemma {:induction false} DecodeEncode(id: string)
    requires '~' !in id
    ensures Decode(Encode(id)) == Ok(id)
  {
    if id != [] {
      var c, s := id[0], id[1..];
      assert id == [c] + s && c in id;
      DecodeEncode(s);
      EncodeCons(c, s);
      var t := EncodeChar(c) + Encode(s);
      assert t[|EncodeChar(c)|..] == Encode(s);
    }
  }

  /** The fast path for tokens without an escape computes what the loop would. */
  lemma {:induction false} FastPathAgrees(token: string)
    requires '~' !in token
    ensures Decode(token) == Ok(ReplaceChar(token, '_', ":"))
  {
    if token != [] {
      assert token[0] in token;
      FastPathAgrees(token[1..]);
    }
  }

  /** A directory name made from an id is read back as the (trimmed) id. */
  lemma RoundTrip(id: string)
    requires ScreenId(id).Ok?
    ensures ToToken(id).Ok?
    ensures FromToken(ToToken(id).value) == Ok(Trim(id))
    ensures ToToken(id).value != [] && ':' !in ToToken(id).value
  {
    ScreenIdAccepts(id);
    var trimmed := Trim(id);
    var token := Encode(trimmed);
    EncodeSpelling(trimmed);
    NoSpaceIsTrimmed(token);
    DecodeEncode(trimmed);
    if '~' !in token {
      FastPathAgrees(token);
    }
    ScreenIdAccepts(trimmed);
  }

  /** Different screens never share a directory. */
  lemma TokensAreInjective(a: string, b: string)
    requires ScreenId(a).Ok? && ScreenId(b).Ok?
    ensures ToToken(a) == ToToken(b) <==> Trim(a) == Trim(b)
  {
    RoundTrip(a);
    RoundTrip(b);
    ScreenIdAccepts(a);
    ScreenIdAccepts(b);
  }

  lemma {:induction false} EncodeDecode(token: string)
    requires ':' !in token && Decode(token).Ok?
    ensures Encode(Decode(token).value) == token
  {
    if token != [] {
      assert token[0] in token;
      var d := Decode(token).value;
      var rest := if token[0] == '~' then token[2..] else token[1..];
      assert forall c :: c in rest ==> c in token;
      EncodeDecode(rest);
      EncodeCons(d[0], d[1..]);
      assert d == [d[0]] + d[1..];
      assert d[1..] == Decode(rest).value;
      if token[0] == '~' {
        assert token == "~u" + rest;
      } else {
        assert token == [token[0]] + rest;
      }
    }
  }

  /** An accepted directory name is the token of the id it decodes to exactly when it is colon-free;
      a directory named "1:2" would be listed as screen "1:2", whose own directory is "1_2". */
  lemma ReencodingIsExact(token: string)
    requires FromToken(token).Ok?
    ensures ToToken(FromToken(token).value) == Ok(Trim(token)) <==> ':' !in Trim(token)
  {
    var trimmed := Trim(token);
    TrimFacts(token);
    if '~' !in trimmed {
      FastPathAgrees(trimmed);
    }
    var decoded := Decode(trimmed).value;
    ScreenIdAccepts(decoded);
    ScreenIdAccepts(Trim(decoded));
    var id := FromToken(token).value;
    EncodeSpelling(id);
    if ':' !in trimmed {
      EncodeDecode(trimmed);
      DecodedIsTrimmed(trimmed, decoded);
    }
  }

  lemma {:induction false} DecodeKeepsEnds(token: string)
    requires Decode(token).Ok? && token != []
    ensures Decode(token).value != []
    ensures IsSpace(token[0]) <==> IsSpace(Decode(token).value[0])
    ensures IsSpace(token[|token| - 1]) <==> IsSpace(Decode(token).value[|Decode(token).value| - 1])
  {
    var rest := if token[0] == '~' then token[2..] else token[1..];
    if rest != [] {
      DecodeKeepsEnds(rest);
    }
  }

  lemma DecodedIsTrimmed(trimmed: string, decoded: string)
    requires Trimmed(trimmed) && Decode(trimmed) == Ok(decoded)
    ensures Trim(decoded) == decoded
  {
    if trimmed != [] {
      DecodeKeepsEnds(trimmed);
    }
    TrimFacts(decoded);
  }
}
