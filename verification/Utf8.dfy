/** UTF-8 and UTF-16 encodings of text. */
module Utf8 {
  import opened Wrappers

  type Byte = b: int | 0 <= b < 256

  function EncodeChar(c: char): (bs: seq<Byte>)
    ensures 1 <= |bs| <= 4
  {
    var x := c as int;
    if x < 0x80 then [x]
    else if x < 0x800 then [0xC0 + x / 64, 0x80 + x % 64]
    else if x < 0x10000 then [0xE0 + x / 4096, 0x80 + x / 64 % 64, 0x80 + x % 64]
    else [0xF0 + x / 262144, 0x80 + x / 4096 % 64, 0x80 + x / 64 % 64, 0x80 + x % 64]
  }

  function Encode(s: string): seq<Byte> {
    if s == "" then [] else EncodeChar(s[0]) + Encode(s[1..])
  }

  lemma {:induction false} EncodeAppend(s: string, t: string)
    ensures Encode(s + t) == Encode(s) + Encode(t)
  {
    hide EncodeChar;
    if s == "" {
      assert s + t == t;
    } else {
      EncodeAppend(s[1..], t);
      assert (s + t)[1..] == s[1..] + t && (s + t)[0] == s[0];
    }
  }

  /** The number a leading byte announces. */
  function Length(b: Byte): nat {
    if b < 0x80 then 1 else if b < 0xE0 then 2 else if b < 0xF0 then 3 else 4
  }

  function CodePoint(bs: seq<int>): int
    requires 1 <= |bs| <= 4
  {
    if |bs| == 1 then bs[0]
    else if |bs| == 2 then (bs[0] - 0xC0) * 64 + (bs[1] - 0x80)
    else if |bs| == 3 then (bs[0] - 0xE0) * 4096 + (bs[1] - 0x80) * 64 + (bs[2] - 0x80)
    else (bs[0] - 0xF0) * 262144 + (bs[1] - 0x80) * 4096 + (bs[2] - 0x80) * 64 + (bs[3] - 0x80)
  }

  lemma EncodeCharDecodes(c: char)
    ensures |EncodeChar(c)| == Length(EncodeChar(c)[0])
    ensures CodePoint(EncodeChar(c)) == c as int
  {
    var x := c as int;
    assert x / 4096 == x / 64 / 64 && x / 262144 == x / 64 / 64 / 64;
  }

  /** A byte that goes on with a character. */
  predicate IsTrail(b: int) {
    0x80 <= b < 0xC0
  }

  /** One byte, or a first byte that tells how many follow, and six more bits of the character in each of
      these, the highest first. */
  lemma EncodeCharTable(c: char)
    ensures var x: int, bs: seq<int> := c as int, EncodeChar(c);
            && (x < 0x80 ==> bs == [x])
            && (0x80 <= x < 0x800 ==>
                  |bs| == 2 && 0xC0 <= bs[0] < 0xE0 && IsTrail(bs[1]) && x == (bs[0] - 0xC0) * 64 + (bs[1] - 0x80))
            && (0x800 <= x < 0x10000 ==>
                  |bs| == 3 && 0xE0 <= bs[0] < 0xF0 && IsTrail(bs[1]) && IsTrail(bs[2])
                  && x == ((bs[0] - 0xE0) * 64 + (bs[1] - 0x80)) * 64 + (bs[2] - 0x80))
            && (0x10000 <= x ==>
                  |bs| == 4 && 0xF0 <= bs[0] < 0xF8 && IsTrail(bs[1]) && IsTrail(bs[2]) && IsTrail(bs[3])
                  && x == (((bs[0] - 0xF0) * 64 + (bs[1] - 0x80)) * 64 + (bs[2] - 0x80)) * 64 + (bs[3] - 0x80))
  {
    var x := c as int;
    assert x / 4096 == x / 64 / 64 && x / 262144 == x / 64 / 64 / 64;
  }

  lemma EncodeCharUnique(c: char, d: char, r: seq<Byte>, r': seq<Byte>)
    requires EncodeChar(c) + r == EncodeChar(d) + r'
    ensures c == d && r == r'
  {
    hide EncodeChar, CodePoint;
    EncodeCharDecodes(c); EncodeCharDecodes(d);
    var a, b := EncodeChar(c), EncodeChar(d);
    assert (a + r)[0] == a[0] && (b + r')[0] == b[0];
    assert a == (a + r)[..|a|] && b == (b + r')[..|b|];
    assert r == (a + r)[|a|..] && r' == (b + r')[|b|..];
    assert c as int == d as int;
  }

  /** Different texts have different encodings. */
  lemma {:induction false} EncodeInjective(s: string, t: string)
    requires Encode(s) == Encode(t)
    ensures s == t
  {
    hide EncodeChar;
    if s != "" && t != "" {
      EncodeCharUnique(s[0], t[0], Encode(s[1..]), Encode(t[1..]));
      EncodeInjective(s[1..], t[1..]);
      assert s == [s[0]] + s[1..] && t == [t[0]] + t[1..];
    }
  }

  predicate IsScalar(x: int) {
    0 <= x < 0xD800 || 0xE000 <= x < 0x110000
  }

  /** Strict decoding: every character's bytes are the ones that encode it. */
  function Decode(bs: seq<Byte>): Option<string> {
    if bs == [] then Some("")
    else
      var n := Length(bs[0]);
      if |bs| < n || !IsScalar(CodePoint(bs[..n])) then None
      else
        var c := CodePoint(bs[..n]) as char;
        if EncodeChar(c) != bs[..n] then None
        else
          var rest := Decode(bs[n..]);
          if rest.None? then None else Some([c] + rest.value)
  }

  /** Decoding and encoding undo each other, and nothing else decodes. */
  lemma DecodeInverse(bs: seq<Byte>, s: string)
    ensures Decode(bs) == Some(s) <==> bs == Encode(s)
  {
    if bs == Encode(s) { DecodeEncoded(s); }
    if Decode(bs) == Some(s) { EncodedDecoded(bs); }
  }

  lemma {:induction false} DecodeEncoded(s: string)
    ensures Decode(Encode(s)) == Some(s)
  {
    hide EncodeChar, CodePoint;
    if s != "" {
      DecodeEncoded(s[1..]);
      var bs, e := Encode(s), EncodeChar(s[0]);
      EncodeCharDecodes(s[0]);
      assert bs[0] == e[0] && bs[..|e|] == e && bs[|e|..] == Encode(s[1..]);
      assert s == [s[0]] + s[1..];
    }
  }

  lemma DecodeStep(bs: seq<Byte>) returns (c: char, n: nat)
    requires bs != [] && Decode(bs).Some?
    ensures 0 < n <= |bs| && EncodeChar(c) == bs[..n]
    ensures Decode(bs[n..]).Some? && Decode(bs).value == [c] + Decode(bs[n..]).value
  {
    hide EncodeChar, CodePoint;
    n := Length(bs[0]);
    c := CodePoint(bs[..n]) as char;
  }

  lemma {:induction false} EncodedDecoded(bs: seq<Byte>)
    requires Decode(bs).Some?
    ensures Encode(Decode(bs).value) == bs
    decreases |bs|
  {
    if bs != [] {
      var c, n := DecodeStep(bs);
      hide Decode, EncodeChar;
      EncodedDecoded(bs[n..]);
      var rest := Decode(bs[n..]).value;
      assert ([c] + rest)[1..] == rest && ([c] + rest)[0] == c;
      assert bs == bs[..n] + bs[n..];
    } else {
      DecodeNothing();
    }
  }

  lemma DecodeNothing()
    ensures Decode([]) == Some("")
  {
  }

  // ---------------------------------------------------------------- UTF-16 code units

  function Units(c: char): (u: seq<int>)
    ensures 1 <= |u| <= 2
  {
    var x := c as int;
    if x < 0x10000 then [x] else [0xD800 + (x - 0x10000) / 1024, 0xDC00 + (x - 0x10000) % 1024]
  }

  /** A character beyond the first 65536 is two units, a high surrogate and a low one. */
  lemma UnitsMean(c: char)
    ensures c as int < 0x10000 ==> Units(c) == [c as int]
    ensures c as int >= 0x10000 ==>
              && |Units(c)| == 2 && 0xD800 <= Units(c)[0] < 0xDC00 <= Units(c)[1] < 0xE000
              && c as int == 0x10000 + (Units(c)[0] - 0xD800) * 0x400 + (Units(c)[1] - 0xDC00)
  {
  }

  function Utf16(s: string): seq<int> {
    if s == "" then [] else Units(s[0]) + Utf16(s[1..])
  }

  /** A text's code units are those of its characters, in their order. */
  lemma {:induction false} Utf16Concat(s: string, t: string)
    ensures Utf16(s + t) == Utf16(s) + Utf16(t)
    ensures forall c :: Utf16([c]) == Units(c)
  {
    hide Units;
    forall c ensures Utf16([c]) == Units(c) { assert [c][1..] == []; }
    if s == "" {
      assert s + t == t;
    } else {
      Utf16Concat(s[1..], t);
      assert (s + t)[1..] == s[1..] + t && (s + t)[0] == s[0];
    }
  }

  lemma UnitsUnique(c: char, d: char, r: seq<int>, r': seq<int>)
    requires Units(c) + r == Units(d) + r'
    ensures c == d && r == r'
  {
    var a, b := Units(c), Units(d);
    assert (a + r)[0] == a[0] && (b + r')[0] == b[0];
    assert |a| == |b|;
    assert a == (a + r)[..|a|] && b == (b + r')[..|b|];
    assert r == (a + r)[|a|..] && r' == (b + r')[|b|..];
    if |a| == 2 {
      assert a[1] == b[1];
    }
    assert c as int == d as int;
  }

  lemma {:induction false} Utf16Injective(s: string, t: string)
    requires Utf16(s) == Utf16(t)
    ensures s == t
  {
    hide Units;
    if s != "" && t != "" {
      UnitsUnique(s[0], t[0], Utf16(s[1..]), Utf16(t[1..]));
      Utf16Injective(s[1..], t[1..]);
      assert s == [s[0]] + s[1..] && t == [t[0]] + t[1..];
    }
  }
}
