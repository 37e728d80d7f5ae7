// Valid text is the encoding of a sequence of Unicode scalar values as section
// 3 of RFC 3629 defines it, and decoding inverts the encoding.
module Utf8Encoding {
  import opened Utf8

  // Every code point but the surrogates.
  predicate Scalar(c: nat) {
    c < 0xD800 || 0xE000 <= c <= 0x10FFFF
  }

  function Encode(c: nat): (s: seq<Byte>)
    requires Scalar(c)
    ensures 1 <= |s| <= 4
  {
    if c < 0x80 then [c]
    else if c < 0x800 then [0xC0 + c / 64, 0x80 + c % 64]
    else if c < 0x10000 then [0xE0 + c / 64 / 64, 0x80 + c / 64 % 64, 0x80 + c % 64]
    else [0xF0 + c / 64 / 64 / 64, 0x80 + c / 64 / 64 % 64, 0x80 + c / 64 % 64, 0x80 + c % 64]
  }

  lemma Encode2(c: nat)
    requires 0x80 <= c < 0x800
    ensures HeadSize(Encode(c)) == 2 && DecodeRune(Encode(c)) == (c, 2)
  {
    hide CodePoint;
    var h, l := c / 64, c % 64;
    assert c == h * 64 + l && 2 <= h < 32;
    assert (0xC0 + h) % 32 == h && (0x80 + l) % 64 == l;
    CodePoints(h, l, 0, 0);
  }

  lemma Encode3(c: nat)
    requires 0x800 <= c < 0x10000 && Scalar(c)
    ensures HeadSize(Encode(c)) == 3 && DecodeRune(Encode(c)) == (c, 3)
  {
    hide CodePoint;
    var g, l := c / 64, c % 64;
    var h, m := g / 64, g % 64;
    assert c == g * 64 + l && g == h * 64 + m && h < 16;
    assert (0xE0 + h) % 16 == h && (0x80 + m) % 64 == m && (0x80 + l) % 64 == l;
    CodePoints(h, m, l, 0);
  }

  lemma Encode4(c: nat)
    requires 0x10000 <= c <= 0x10FFFF
    ensures HeadSize(Encode(c)) == 4 && DecodeRune(Encode(c)) == (c, 4)
  {
    hide CodePoint;
    var f, l := c / 64, c % 64;
    var g, m := f / 64, f % 64;
    var h, k := g / 64, g % 64;
    assert c == f * 64 + l && f == g * 64 + m && g == h * 64 + k && h < 5;
    assert (0xF0 + h) % 8 == h && (0x80 + k) % 64 == k && (0x80 + m) % 64 == m && (0x80 + l) % 64 == l;
    CodePoints(h, k, m, l);
  }

  // Decoding inverts encoding.
  lemma EncodeDecodes(c: nat)
    requires Scalar(c)
    ensures HeadSize(Encode(c)) == |Encode(c)| && DecodeRune(Encode(c)) == (c, |Encode(c)|)
  {
    hide CodePoint;
    if 0x80 <= c < 0x800 {
      Encode2(c);
    } else if 0x800 <= c < 0x10000 {
      Encode3(c);
    } else if 0x10000 <= c {
      Encode4(c);
    }
  }

  lemma Decode2(s: seq<Byte>)
    requires HeadSize(s) == 2
    ensures var c := DecodeRune(s).0; Scalar(c) && s[..2] == Encode(c)
  {
    hide CodePoint;
    var h: int, l: int := s[0] % 32, s[1] % 64;
    CodePoints(h, l, 0, 0);
    var c: int := h * 64 + l;
    assert c / 64 == h && c % 64 == l && s[0] == 0xC0 + h && s[1] == 0x80 + l;
  }

  lemma Decode3(s: seq<Byte>)
    requires HeadSize(s) == 3
    ensures var c := DecodeRune(s).0; Scalar(c) && s[..3] == Encode(c)
  {
    hide CodePoint;
    var h: int, m: int, l: int := s[0] % 16, s[1] % 64, s[2] % 64;
    CodePoints(h, m, l, 0);
    var g: int := h * 64 + m;
    var c: int := g * 64 + l;
    assert c / 64 == g && c % 64 == l && g / 64 == h && g % 64 == m;
    assert s[0] == 0xE0 + h && s[1] == 0x80 + m && s[2] == 0x80 + l;
  }

  lemma Decode4(s: seq<Byte>)
    requires HeadSize(s) == 4
    ensures var c := DecodeRune(s).0; Scalar(c) && s[..4] == Encode(c)
  {
    hide CodePoint;
    var h: int, k: int, m: int, l: int := s[0] % 8, s[1] % 64, s[2] % 64, s[3] % 64;
    CodePoints(h, k, m, l);
    var g: int := h * 64 + k;
    var f: int := g * 64 + m;
    var c: int := f * 64 + l;
    assert c / 64 == f && c % 64 == l && f / 64 == g && f % 64 == m && g / 64 == h && g % 64 == k;
    assert s[0] == 0xF0 + h && s[1] == 0x80 + k && s[2] == 0x80 + m && s[3] == 0x80 + l;
  }

  // Encoding inverts decoding: a well-formed head is the encoding of its scalar.
  lemma DecodeEncodes(s: seq<Byte>)
    requires HeadSize(s) > 0
    ensures var (c, n) := DecodeRune(s); n == HeadSize(s) && Scalar(c) && s[..n] == Encode(c)
  {
    hide CodePoint;
    var n := HeadSize(s);
    if n == 1 {
      assert s[..1] == [s[0]];
    } else if n == 2 {
      Decode2(s);
    } else if n == 3 {
      Decode3(s);
    } else {
      Decode4(s);
    }
  }

  predicate Scalars(cs: seq<nat>) {
    forall k | 0 <= k < |cs| :: Scalar(cs[k])
  }

  function EncodeAll(cs: seq<nat>): seq<Byte>
    requires Scalars(cs)
  {
    if cs == [] then [] else Encode(cs[0]) + EncodeAll(cs[1..])
  }

  lemma {:induction false} EncodedIsValid(cs: seq<nat>)
    requires Scalars(cs)
    ensures Valid(EncodeAll(cs)) && RuneCount(EncodeAll(cs)) == |cs|
  {
    hide HeadSize, DecodeRune;
    if cs != [] {
      EncodedIsValid(cs[1..]);
      EncodeDecodes(cs[0]);
      ConsValid(Encode(cs[0]), EncodeAll(cs[1..]));
    }
  }

  lemma {:induction false} ValidIsEncoded(s: seq<Byte>) returns (cs: seq<nat>)
    requires Valid(s)
    ensures Scalars(cs) && EncodeAll(cs) == s
    decreases |s|
  {
    hide HeadSize, DecodeRune, Encode;
    if s == [] {
      cs := [];
    } else {
      DecodeEncodes(s);
      var (c, n) := DecodeRune(s);
      var rest := ValidIsEncoded(s[n..]);
      cs := [c] + rest;
      assert cs[1..] == rest && s == s[..n] + s[n..];
    }
  }

  // Valid text is exactly the encoded text, and its runes are the scalars.
  lemma ValidIffEncoded(s: seq<Byte>)
    ensures Valid(s) <==> exists cs :: Scalars(cs) && EncodeAll(cs) == s
    ensures forall cs :: Scalars(cs) && EncodeAll(cs) == s ==> RuneCount(s) == |cs|
  {
    hide Valid, HeadSize, RuneCount;
    if Valid(s) {
      var cs := ValidIsEncoded(s);
    }
    forall cs | Scalars(cs) && EncodeAll(cs) == s
      ensures Valid(s) && RuneCount(s) == |cs|
    {
      EncodedIsValid(cs);
    }
  }
}
