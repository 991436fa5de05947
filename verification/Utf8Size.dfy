/** utf8ByteLength: the size of a UTF-16 string once encoded as UTF-8 (section 3 of RFC 3629). */
module Utf8Size {
  import opened Basics

  type Unit = x: int | 0 <= x < 0x1_0000
  type CodePoint = x: int | 0 <= x < 0x11_0000
  type Byte = x: int | 0 <= x < 0x100

  predicate IsHigh(u: Unit) {
    0xD800 <= u < 0xDC00
  }

  predicate IsLow(u: Unit) {
    0xDC00 <= u < 0xE000
  }

  function Join(high: Unit, low: Unit): CodePoint
    requires IsHigh(high) && IsLow(low)
  {
    0x1_0000 + (high - 0xD800) * 0x400 + (low - 0xDC00)
  }

  predicate StartsPair(s: seq<Unit>) {
    |s| >= 2 && IsHigh(s[0]) && IsLow(s[1])
  }

  /** What iterating over a string yields: surrogate pairs joined, lone surrogates as they are. */
  function CodePoints(s: seq<Unit>): seq<CodePoint> {
    if s == [] then []
    else if StartsPair(s) then [Join(s[0], s[1])] + CodePoints(s[2..])
    else [s[0]] + CodePoints(s[1..])
  }

  /** The octets of a code point; a lone surrogate takes three, like the rest of its range. */
  function Encode(c: CodePoint): seq<Byte> {
    if c < 0x80 then [c]
    else if c < 0x800 then [0xC0 + c / 64, 0x80 + c % 64]
    else if c < 0x1_0000 then [0xE0 + c / 4096, 0x80 + c / 64 % 64, 0x80 + c % 64]
    else [0xF0 + c / 262144, 0x80 + c / 4096 % 64, 0x80 + c / 64 % 64, 0x80 + c % 64]
  }

  function EncodeAll(cs: seq<CodePoint>): seq<Byte> {
    if cs == [] then [] else Encode(cs[0]) + EncodeAll(cs[1..])
  }

  function Size(s: seq<Unit>): nat {
    |EncodeAll(CodePoints(s))|
  }

  /** utf8ByteLength. */
  method Utf8ByteLength(value: seq<Unit>) returns (total: nat)
    ensures total == Size(value)
  {
    total := 0;
    var i := 0;
    while i < |value|
      invariant i <= |value| && total + Size(value[i..]) == Size(value)
      decreases |value| - i
    {
      var codePoint: CodePoint := value[i];
      var step := 1;
      ghost var rest := value[i..];
      if i + 1 < |value| && IsHigh(value[i]) && IsLow(value[i + 1]) {
        codePoint, step := Join(value[i], value[i + 1]), 2;
        assert StartsPair(rest) && rest[2..] == value[i + 2..];
      } else {
        assert !StartsPair(rest) && rest[1..] == value[i + 1..];
      }
      ConsSize(codePoint, CodePoints(value[i + step..]));
      if codePoint <= 0x7f {
        total := total + 1;
      } else if codePoint <= 0x7ff {
        total := total + 2;
      } else if codePoint <= 0xffff {
        total := total + 3;
      } else {
        total := total + 4;
      }
      i := i + step;
    }
  }

  lemma ConsSize(c: CodePoint, cs: seq<CodePoint>)
    ensures |EncodeAll([c] + cs)| == |Encode(c)| + |EncodeAll(cs)|
  {
    assert ([c] + cs)[1..] == cs;
  }

  lemma SizeStep(s: seq<Unit>)
    requires s != []
    ensures StartsPair(s) ==> Size(s) == 4 + Size(s[2..])
    ensures !StartsPair(s) ==> Size(s) == |Encode(s[0])| + Size(s[1..])
  {
    if StartsPair(s) {
      ConsSize(Join(s[0], s[1]), CodePoints(s[2..]));
    } else {
      ConsSize(s[0], CodePoints(s[1..]));
    }
  }

  // ---- The encoding is the right one -----------------------------------------------------------

  /** The octets announced by a lead octet. */
  function Announced(lead: Byte): nat {
    if lead < 0x80 then 1 else if lead < 0xE0 then 2 else if lead < 0xF0 then 3 else 4
  }

  /** The bits an octet carries above a marker. */
  function Above(octet: Byte, marker: int): int {
    octet as int - marker
  }

  function Decode(octets: seq<Byte>): int
    requires octets != [] && |octets| == Announced(octets[0])
  {
    if |octets| == 1 then octets[0]
    else if |octets| == 2 then Above(octets[0], 0xC0) * 64 + Above(octets[1], 0x80)
    else if |octets| == 3 then Above(octets[0], 0xE0) * 4096 + Above(octets[1], 0x80) * 64 + Above(octets[2], 0x80)
    else Above(octets[0], 0xF0) * 262144 + Above(octets[1], 0x80) * 4096 + Above(octets[2], 0x80) * 64 + Above(octets[3], 0x80)
  }

  function DecodeAll(octets: seq<Byte>): seq<int> {
    if octets == [] || |octets| < Announced(octets[0]) then []
    else
      var n := Announced(octets[0]);
      [Decode(octets[..n])] + DecodeAll(octets[n..])
  }

  lemma EncodeRoundTrip(c: CodePoint)
    ensures |Encode(c)| == Announced(Encode(c)[0]) && Decode(Encode(c)) == c
    ensures forall i :: 1 <= i < |Encode(c)| ==> 0x80 <= Encode(c)[i] < 0xC0
  {
    assert c == c / 64 * 64 + c % 64;
    assert c / 64 == c / 64 / 64 * 64 + c / 64 % 64 && c / 64 / 64 == c / 4096;
    assert c / 4096 == c / 4096 / 64 * 64 + c / 4096 % 64 && c / 4096 / 64 == c / 262144;
  }

  /** Every octet after the first is a continuation octet. */
  predicate Continued(octets: seq<Byte>) {
    forall i :: 1 <= i < |octets| ==> 0x80 <= octets[i] < 0xC0
  }

  /** No shorter sequence of octets stands for the code point. */
  lemma EncodingIsShortest(c: CodePoint, octets: seq<Byte>)
    requires octets != [] && |octets| == Announced(octets[0]) && Continued(octets) && Decode(octets) == c
    ensures |octets| >= |Encode(c)|
  {
    assert forall i :: 1 <= i < |octets| ==> 0 <= Above(octets[i], 0x80) < 64;
  }

  /** The octets determine the code points. */
  lemma {:induction false} EncodeAllRoundTrip(cs: seq<CodePoint>)
    ensures DecodeAll(EncodeAll(cs)) == cs
  {
    if cs != [] {
      var head, tail := Encode(cs[0]), EncodeAll(cs[1..]);
      EncodeRoundTrip(cs[0]);
      EncodeAllRoundTrip(cs[1..]);
      assert (head + tail)[..|head|] == head && (head + tail)[|head|..] == tail;
      assert (head + tail)[0] == head[0];
    }
  }

  function Units(c: int): seq<int> {
    if c < 0x1_0000 then [c] else [0xD800 + (c - 0x1_0000) / 0x400, 0xDC00 + (c - 0x1_0000) % 0x400]
  }

  function UnitsOf(cs: seq<int>): seq<int> {
    if cs == [] then [] else Units(cs[0]) + UnitsOf(cs[1..])
  }

  /** Nothing of the string is lost on the way: the octets give it back. */
  lemma {:induction false} StringRoundTrip(s: seq<Unit>)
    ensures UnitsOf(DecodeAll(EncodeAll(CodePoints(s)))) == s
  {
    EncodeAllRoundTrip(CodePoints(s));
    UnitsRoundTrip(s);
  }

  lemma {:induction false} UnitsRoundTrip(s: seq<Unit>)
    ensures UnitsOf(CodePoints(s)) == s
  {
    if s == [] {
    } else if StartsPair(s) {
      UnitsRoundTrip(s[2..]);
      var c := Join(s[0], s[1]);
      assert (c - 0x1_0000) / 0x400 == s[0] - 0xD800 && (c - 0x1_0000) % 0x400 == s[1] - 0xDC00;
      assert ([c] + CodePoints(s[2..]))[1..] == CodePoints(s[2..]);
      assert s == [s[0], s[1]] + s[2..];
    } else {
      UnitsRoundTrip(s[1..]);
      assert ([s[0]] + CodePoints(s[1..]))[1..] == CodePoints(s[1..]);
      assert s == [s[0]] + s[1..];
    }
  }

  // ---- Bounds and concatenation ----------------------------------------------------------------

  /** A string of n units takes between n and 3n octets. */
  lemma {:induction false} SizeIsBounded(s: seq<Unit>)
    ensures |s| <= Size(s) <= 3 * |s|
    decreases |s|
  {
    if s != [] {
      SizeStep(s);
      SizeIsBounded(if StartsPair(s) then s[2..] else s[1..]);
    }
  }

  predicate IsAscii(s: seq<Unit>) {
    forall i :: 0 <= i < |s| ==> s[i] < 0x80
  }

  lemma AsciiCons(s: seq<Unit>)
    requires s != []
    ensures IsAscii(s) <==> s[0] < 0x80 && IsAscii(s[1..])
  {
    if s[0] < 0x80 && IsAscii(s[1..]) {
      forall i | 0 <= i < |s|
        ensures s[i] < 0x80
      {
        assert i > 0 ==> s[i] == s[1..][i - 1];
      }
    }
  }

  /** Exactly the strings of ASCII units take one octet each. */
  lemma {:induction false} AsciiIsExact(s: seq<Unit>)
    ensures Size(s) == |s| <==> IsAscii(s)
    decreases |s|
  {
    if s != [] {
      SizeStep(s);
      if StartsPair(s) {
        SizeIsBounded(s[2..]);
        assert !(s[0] < 0x80);
      } else {
        SizeIsBounded(s[1..]);
        AsciiIsExact(s[1..]);
        AsciiCons(s);
      }
    }
  }

  /** The boundary falls inside a surrogate pair. */
  predicate SplitsPair(a: seq<Unit>, b: seq<Unit>) {
    a != [] && b != [] && IsHigh(a[|a| - 1]) && IsLow(b[0])
  }

  lemma SplitPairJoins(a: seq<Unit>, b: seq<Unit>)
    requires |a| == 1 && SplitsPair(a, b)
    ensures Size(a + b) == Size(a) + Size(b) - 2
  {
    SizeStep(a);
    SizeStep(b);
    SizeStep(a + b);
    assert (a + b)[2..] == b[1..];
    assert a[1..] == [];
  }

  lemma StepOverConcat(a: seq<Unit>, b: seq<Unit>)
    requires a != [] && !(|a| == 1 && SplitsPair(a, b))
    ensures StartsPair(a + b) == StartsPair(a)
    ensures StartsPair(a) ==> (a + b)[2..] == a[2..] + b
    ensures (a + b)[0] == a[0] && (a + b)[1..] == a[1..] + b
  {
  }

  /** Sizes add up, except that joining a split pair saves two octets. */
  lemma {:induction false} SizeOfConcat(a: seq<Unit>, b: seq<Unit>)
    ensures Size(a + b) == Size(a) + Size(b) - (if SplitsPair(a, b) then 2 else 0)
    decreases |a|
  {
    if a == [] {
      assert a + b == b;
    } else if |a| == 1 && SplitsPair(a, b) {
      SplitPairJoins(a, b);
    } else {
      StepOverConcat(a, b);
      SizeStep(a);
      SizeStep(a + b);
      var rest := if StartsPair(a) then a[2..] else a[1..];
      SizeOfConcat(rest, b);
      assert SplitsPair(rest, b) == SplitsPair(a, b);
    }
  }
}
