/**
 * The two byte decoders the receiver relies on: UTF-8 with the "replace" error
 * handler, and Latin-1. The UTF-8 decoder replaces every maximal ill-formed
 * subpart with one U+FFFD, as Python's codec does; an encoder is given beside
 * it so that the decoder can be checked against its inverse.
 */
module Utf8 {
  import opened Text

  type byte = x: int | 0 <= x < 256

  /** U+FFFD REPLACEMENT CHARACTER. */
  const Replacement: char := 0xFFFD as char

  predicate IsCont(b: byte)
  {
    0x80 <= b <= 0xBF
  }

  /** The length of the sequence a lead byte announces; 0 for a byte that cannot lead. */
  function Width(lead: byte): nat
  {
    if lead < 0x80 then 1
    else if 0xC2 <= lead <= 0xDF then 2
    else if 0xE0 <= lead <= 0xEF then 3
    else if 0xF0 <= lead <= 0xF4 then 4
    else 0
  }

  /** The range the second byte must lie in after a lead byte (excludes overlongs, surrogates, > U+10FFFF). */
  function SecondLow(lead: byte): byte
  {
    if lead == 0xE0 then 0xA0 else if lead == 0xF0 then 0x90 else 0x80
  }

  function SecondHigh(lead: byte): byte
  {
    if lead == 0xED then 0x9F else if lead == 0xF4 then 0x8F else 0xBF
  }

  predicate SecondOk(lead: byte, b: byte)
  {
    SecondLow(lead) <= b <= SecondHigh(lead)
  }

  function Scalar2(b0: byte, b1: byte): (cp: int)
    requires 0xC2 <= b0 <= 0xDF && IsCont(b1)
    ensures 0x80 <= cp < 0x800
  {
    (b0 - 0xC0) * 64 + (b1 - 0x80)
  }

  function Scalar3(b0: byte, b1: byte, b2: byte): (cp: int)
    requires 0xE0 <= b0 <= 0xEF && SecondOk(b0, b1) && IsCont(b2)
    ensures 0x800 <= cp < 0xD800 || 0xE000 <= cp < 0x10000
  {
    (b0 - 0xE0) * 4096 + (b1 - 0x80) * 64 + (b2 - 0x80)
  }

  function Scalar4(b0: byte, b1: byte, b2: byte, b3: byte): (cp: int)
    requires 0xF0 <= b0 <= 0xF4 && SecondOk(b0, b1) && IsCont(b2) && IsCont(b3)
    ensures 0x10000 <= cp < 0x110000
  {
    (b0 - 0xF0) * 262144 + (b1 - 0x80) * 4096 + (b2 - 0x80) * 64 + (b3 - 0x80)
  }

  /** One decoded character and the number of bytes it used. */
  datatype Step = Step(c: char, len: nat)

  /**
   * Decodes the character at the front of b. A well-formed sequence yields its
   * scalar value; otherwise the longest prefix that could still have begun a
   * well-formed sequence (at least one byte) is replaced by U+FFFD.
   */
  function DecodeStep(b: seq<byte>): (r: Step)
    requires |b| > 0
    ensures 1 <= r.len <= |b| && r.len <= 4
    ensures r.c != Replacement ==> r.len == Width(b[0])
  {
    var w := Width(b[0]);
    if w == 1 then Step(b[0] as char, 1)
    else if w == 0 then Step(Replacement, 1)
    else if |b| < 2 || !SecondOk(b[0], b[1]) then Step(Replacement, 1)
    else if w == 2 then Step(Scalar2(b[0], b[1]) as char, 2)
    else if |b| < 3 || !IsCont(b[2]) then Step(Replacement, 2)
    else if w == 3 then Step(Scalar3(b[0], b[1], b[2]) as char, 3)
    else if |b| < 4 || !IsCont(b[3]) then Step(Replacement, 3)
    else Step(Scalar4(b[0], b[1], b[2], b[3]) as char, 4)
  }

  /** bytes.decode("utf-8", errors="replace"). */
  function Decode(b: seq<byte>): (r: string)
    ensures |r| <= |b| <= 4 * |r|
    decreases |b|
  {
    if b == [] then []
    else
      var st := DecodeStep(b);
      [st.c] + Decode(b[st.len..])
  }

  /** str.encode("utf-8") of one character. */
  function EncodeChar(c: char): (r: seq<byte>)
    ensures 1 <= |r| <= 4
  {
    var n := c as int;
    var q, r0 := n / 64, n % 64;
    var q2, r1 := q / 64, q % 64;
    var q3, r2 := q2 / 64, q2 % 64;
    if n < 0x80 then [n]
    else if n < 0x800 then [0xC0 + q, 0x80 + r0]
    else if n < 0x10000 then [0xE0 + q2, 0x80 + r1, 0x80 + r0]
    else [0xF0 + q3, 0x80 + r2, 0x80 + r1, 0x80 + r0]
  }

  /** str.encode("utf-8"). */
  function Encode(s: string): (r: seq<byte>)
    ensures |s| <= |r| <= 4 * |s|
  {
    if s == [] then [] else EncodeChar(s[0]) + Encode(s[1..])
  }

  /** The decoder reads back exactly the bytes the encoder wrote for one character. */
  lemma DecodeStepOfEncoded(c: char, rest: seq<byte>)
    ensures DecodeStep(EncodeChar(c) + rest) == Step(c, |EncodeChar(c)|)
  {
    var n := c as int;
    if n < 0x80 {
      assert (EncodeChar(c) + rest)[0] == n;
    } else if n < 0x800 {
      DecodeTwo(c, rest);
    } else if n < 0x10000 {
      DecodeThree(c, rest);
    } else {
      DecodeFour(c, rest);
    }
  }

  lemma DecodeTwo(c: char, rest: seq<byte>)
    requires 0x80 <= c as int < 0x800
    ensures DecodeStep(EncodeChar(c) + rest) == Step(c, 2)
  {
    var n := c as int;
    var q, r0 := n / 64, n % 64;
    var b := EncodeChar(c) + rest;
    assert b[0] == 0xC0 + q && b[1] == 0x80 + r0;
    assert Scalar2(b[0], b[1]) == n;
  }

  lemma DecodeThree(c: char, rest: seq<byte>)
    requires 0x800 <= c as int < 0x10000
    ensures DecodeStep(EncodeChar(c) + rest) == Step(c, 3)
  {
    var n := c as int;
    var q, r0 := n / 64, n % 64;
    var q2, r1 := q / 64, q % 64;
    assert n == 64 * q + r0 && q == 64 * q2 + r1;
    var b := EncodeChar(c) + rest;
    assert b[0] == 0xE0 + q2 && b[1] == 0x80 + r1 && b[2] == 0x80 + r0;
    assert SecondOk(b[0], b[1]);
    assert Scalar3(b[0], b[1], b[2]) == n;
  }

  lemma DecodeFour(c: char, rest: seq<byte>)
    requires 0x10000 <= c as int
    ensures DecodeStep(EncodeChar(c) + rest) == Step(c, 4)
  {
    var n := c as int;
    var q, r0 := n / 64, n % 64;
    var q2, r1 := q / 64, q % 64;
    var q3, r2 := q2 / 64, q2 % 64;
    assert n == 64 * q + r0 && q == 64 * q2 + r1 && q2 == 64 * q3 + r2;
    var b := EncodeChar(c) + rest;
    assert b[0] == 0xF0 + q3 && b[1] == 0x80 + r2 && b[2] == 0x80 + r1 && b[3] == 0x80 + r0;
    assert SecondOk(b[0], b[1]);
    assert Scalar4(b[0], b[1], b[2], b[3]) == n;
  }

  /** Decoding an encoded string followed by anything decodes the string first. */
  lemma {:induction false} DecodeOfEncodedPrefix(s: string, rest: seq<byte>)
    ensures Decode(Encode(s) + rest) == s + Decode(rest)
  {
    if s != [] {
      var tail := Encode(s[1..]) + rest;
      EncodeCons(s, rest);
      DecodeOfEncodedChar(s[0], tail);
      DecodeOfEncodedPrefix(s[1..], rest);
      ConsAppend(s, Decode(rest));
    } else {
      assert Encode(s) + rest == rest;
    }
  }

  lemma EncodeCons(s: string, rest: seq<byte>)
    requires s != []
    ensures Encode(s) + rest == EncodeChar(s[0]) + (Encode(s[1..]) + rest)
  {
    assert Encode(s) == EncodeChar(s[0]) + Encode(s[1..]);
  }

  lemma ConsAppend<T>(s: seq<T>, t: seq<T>)
    requires s != []
    ensures [s[0]] + (s[1..] + t) == s + t
  {
    assert [s[0]] + s[1..] == s;
  }

  lemma DecodeOfEncodedChar(c: char, tail: seq<byte>)
    ensures Decode(EncodeChar(c) + tail) == [c] + Decode(tail)
  {
    var b := EncodeChar(c) + tail;
    DecodeStepOfEncoded(c, tail);
    assert b[|EncodeChar(c)|..] == tail;
  }

  /** Decode(Encode(s)) == s: the decoder inverts the encoder on every string. */
  lemma DecodeEncode(s: string)
    ensures Decode(Encode(s)) == s
  {
    DecodeOfEncodedPrefix(s, []);
    assert Encode(s) + [] == Encode(s);
    assert s + [] == s;
  }

  predicate IsAscii(b: seq<byte>)
  {
    forall i :: 0 <= i < |b| ==> b[i] < 0x80
  }

  /** ASCII bytes decode one character per byte, each with the byte's value. */
  lemma {:induction false} DecodeAscii(b: seq<byte>)
    requires IsAscii(b)
    ensures |Decode(b)| == |b|
    ensures forall i :: 0 <= i < |b| ==> Decode(b)[i] as int == b[i]
  {
    if b != [] {
      assert IsAscii(b[1..]) by {
        forall i | 0 <= i < |b[1..]| ensures b[1..][i] < 0x80 {
          assert b[1..][i] == b[i + 1];
        }
      }
      DecodeAscii(b[1..]);
      var r := Decode(b);
      assert r == [b[0] as char] + Decode(b[1..]);
      forall i | 0 <= i < |b| ensures r[i] as int == b[i] {
        if i > 0 {
          assert r[i] == Decode(b[1..])[i - 1];
        }
      }
    }
  }

  /** Two adjacent chunks decoded one by one: a character cut by the boundary is lost. */
  lemma SplitCharacterIsReplaced()
    ensures Decode([0xC3, 0xA9]) == [0xE9 as char]
    ensures Decode([0xC3]) + Decode([0xA9]) == [Replacement, Replacement]
  {
    var both: seq<byte> := [0xC3, 0xA9];
    assert DecodeStep(both) == Step(0xE9 as char, 2);
    assert both[2..] == [];
    var first: seq<byte> := [0xC3];
    assert DecodeStep(first) == Step(Replacement, 1);
    assert first[1..] == [];
    var second: seq<byte> := [0xA9];
    assert DecodeStep(second) == Step(Replacement, 1);
    assert second[1..] == [];
  }

  // ---------------------------------------------------------------------------
  // Latin-1
  // ---------------------------------------------------------------------------

  /** bytes.decode("latin-1"): every byte is the character with that code point. */
  function Latin1Decode(b: seq<byte>): (r: string)
    ensures |r| == |b|
    ensures forall i :: 0 <= i < |b| ==> r[i] as int == b[i]
  {
    if b == [] then [] else [b[0] as char] + Latin1Decode(b[1..])
  }

  /** str.encode("latin-1"): None when a character is above U+00FF. */
  function Latin1Encode(s: string): (r: Option<seq<byte>>)
    ensures r.Some? <==> forall i :: 0 <= i < |s| ==> s[i] as int < 256
    ensures r.Some? ==> |r.value| == |s| && forall i :: 0 <= i < |s| ==> r.value[i] == s[i] as int
  {
    if s == [] then Some([])
    else if s[0] as int >= 256 then None
    else
      match Latin1Encode(s[1..])
      case None => None
      case Some(t) => Some([s[0] as int] + t)
  }

  /** Latin-1 is a bijection between bytes and the first 256 code points. */
  lemma Latin1RoundTrip(b: seq<byte>, s: string)
    ensures Latin1Encode(Latin1Decode(b)) == Some(b)
    ensures Latin1Encode(s).Some? ==> Latin1Decode(Latin1Encode(s).value) == s
  {
    var d := Latin1Decode(b);
    assert Latin1Encode(d).value == b;
    if Latin1Encode(s).Some? {
      assert Latin1Decode(Latin1Encode(s).value) == s;
    }
  }
}
