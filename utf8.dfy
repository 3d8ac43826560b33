/**
 * UTF-8 as defined in RFC 3629: the encoding `String.ToUTF8Bytes()` applies
 * to the mixed template text before it becomes a response body, and the
 * strict decoder that inverts it.
 */
module Utf8 {

  import opened Wrappers

  newtype byte = x: int | 0 <= x < 256

  /** Continuation bytes carry six payload bits: 10xxxxxx. */
  predicate IsContinuation(b: byte)
  {
    0x80 <= b < 0xC0
  }

  /** The one to four bytes that encode one Unicode scalar value. */
  function EncodeChar(c: char): (r: seq<byte>)
    ensures 1 <= |r| <= 4
    ensures |r| == 1 <==> (c as int) < 0x80
    ensures forall i :: 1 <= i < |r| ==> IsContinuation(r[i])
  {
    var n := c as int;
    if n < 0x80 then
      [n as byte]
    else if n < 0x800 then
      [(0xC0 + n / 64) as byte, (0x80 + n % 64) as byte]
    else if n < 0x10000 then
      [(0xE0 + n / 4096) as byte, (0x80 + (n / 64) % 64) as byte, (0x80 + n % 64) as byte]
    else
      [(0xF0 + n / 262144) as byte, (0x80 + (n / 4096) % 64) as byte,
       (0x80 + (n / 64) % 64) as byte, (0x80 + n % 64) as byte]
  }

  /** `ToUTF8Bytes`: the concatenated encodings of the characters of `s`. */
  function Encode(s: string): (r: seq<byte>)
    ensures |s| <= |r| <= 4 * |s|
    ensures r == [] <==> s == []
  {
    if s == [] then [] else EncodeChar(s[0]) + Encode(s[1..])
  }

  /** Text made of ASCII characters encodes to one byte per character. */
  lemma {:induction false} EncodeAscii(s: string)
    requires forall i :: 0 <= i < |s| ==> (s[i] as int) < 0x80
    ensures |Encode(s)| == |s|
    ensures forall i :: 0 <= i < |s| ==> Encode(s)[i] as int == s[i] as int
  {
    if s != [] {
      EncodeAscii(s[1..]);
    }
  }

  /** Encoding distributes over concatenation. */
  lemma {:induction false} EncodeAppend(a: string, b: string)
    ensures Encode(a + b) == Encode(a) + Encode(b)
  {
    if a == [] {
      assert a + b == b;
    } else {
      assert (a + b)[0] == a[0];
      assert (a + b)[1..] == a[1..] + b;
      EncodeAppend(a[1..], b);
    }
  }

  /** A value that is a Unicode scalar value, so that it can become a `char`. */
  predicate IsScalarValue(n: int)
  {
    (0 <= n < 0xD800) || (0xE000 <= n < 0x11_0000)
  }

  /**
   * Decodes the first character of `bs`: the character and the number of
   * bytes it took, or None when `bs` does not start with a well-formed
   * sequence (overlong forms, surrogates and values past U+10FFFF refused).
   */
  function DecodeChar(bs: seq<byte>): (r: Option<(char, nat)>)
    ensures r.Some? ==> 1 <= r.value.1 <= |bs| && r.value.1 <= 4
  {
    if |bs| == 0 then None
    else
      var b0 := bs[0] as int;
      if b0 < 0x80 then
        Some((b0 as char, 1))
      else if 0xC2 <= b0 < 0xE0 && |bs| >= 2 && IsContinuation(bs[1]) then
        var n := (b0 - 0xC0) * 64 + (bs[1] as int - 0x80);
        Some((n as char, 2))
      else if 0xE0 <= b0 < 0xF0 && |bs| >= 3 && IsContinuation(bs[1]) && IsContinuation(bs[2]) then
        var n := (b0 - 0xE0) * 4096 + (bs[1] as int - 0x80) * 64 + (bs[2] as int - 0x80);
        if 0x800 <= n && IsScalarValue(n) then Some((n as char, 3)) else None
      else if 0xF0 <= b0 < 0xF5 && |bs| >= 4 && IsContinuation(bs[1]) && IsContinuation(bs[2])
              && IsContinuation(bs[3]) then
        var n := (b0 - 0xF0) * 262144 + (bs[1] as int - 0x80) * 4096
                 + (bs[2] as int - 0x80) * 64 + (bs[3] as int - 0x80);
        if 0x1_0000 <= n < 0x11_0000 then Some((n as char, 4)) else None
      else
        None
  }

  /** Decodes a whole byte sequence, or None when any part is malformed. */
  function Decode(bs: seq<byte>): (r: Option<string>)
    decreases |bs|
  {
    if bs == [] then Some([])
    else
      match DecodeChar(bs)
      case None => None
      case Some((c, k)) =>
        match Decode(bs[k..])
        case None => None
        case Some(rest) => Some([c] + rest)
  }

  /** The decoder reads back exactly the character the encoder wrote, whatever follows. */
  lemma DecodeEncodeChar(c: char, tail: seq<byte>)
    ensures DecodeChar(EncodeChar(c) + tail) == Some((c, |EncodeChar(c)|))
  {
    var n := c as int;
    if n < 0x80 {
    } else if n < 0x800 {
      DecodeTwo(c, tail);
    } else if n < 0x10000 {
      DecodeThree(c, tail);
    } else {
      DecodeFour(c, tail);
    }
  }

  lemma DecodeTwo(c: char, tail: seq<byte>)
    requires 0x80 <= c as int < 0x800
    ensures DecodeChar(EncodeChar(c) + tail) == Some((c, 2))
  {
    var n := c as int;
    var bs := EncodeChar(c) + tail;
    var q, r := n / 64, n % 64;
    assert n == q * 64 + r && 2 <= q < 32 && 0 <= r < 64;
    assert bs[0] as int == 0xC0 + q && bs[1] as int == 0x80 + r;
  }

  lemma DecodeThree(c: char, tail: seq<byte>)
    requires 0x800 <= c as int < 0x10000
    ensures DecodeChar(EncodeChar(c) + tail) == Some((c, 3))
  {
    var n := c as int;
    var bs := EncodeChar(c) + tail;
    var q, m, r := n / 4096, (n / 64) % 64, n % 64;
    DivMod64(n);
    assert n == q * 4096 + m * 64 + r && q < 16;
    assert bs[0] as int == 0xE0 + q && bs[1] as int == 0x80 + m && bs[2] as int == 0x80 + r;
  }

  lemma DecodeFour(c: char, tail: seq<byte>)
    requires 0x10000 <= c as int
    ensures DecodeChar(EncodeChar(c) + tail) == Some((c, 4))
  {
    var n := c as int;
    var bs := EncodeChar(c) + tail;
    var q, h, m, r := n / 262144, (n / 4096) % 64, (n / 64) % 64, n % 64;
    FourByteSplit(n);
    assert bs[0] as int == 0xF0 + q && bs[1] as int == 0x80 + h;
    assert bs[2] as int == 0x80 + m && bs[3] as int == 0x80 + r;
  }

  /** The four-byte split of a supplementary-plane code point: 3 + 6 + 6 + 6 bits. */
  lemma FourByteSplit(n: int)
    requires 0x10000 <= n < 0x11_0000
    ensures n / 262144 < 5
    ensures n == (n / 262144) * 262144 + ((n / 4096) % 64) * 4096 + ((n / 64) % 64) * 64 + n % 64
  {
    DivMod64(n);
    DivMod64(n / 64);
    assert n / 4096 == (n / 64) / 64;
  }

  /** Splitting off six bits twice: n = (n / 4096) * 4096 + ((n / 64) % 64) * 64 + n % 64. */
  lemma DivMod64(n: nat)
    ensures n == (n / 4096) * 4096 + ((n / 64) % 64) * 64 + n % 64
    ensures n / 4096 == (n / 64) / 64
  {
    var a := n / 64;
    assert n == a * 64 + n % 64;
    assert a == (a / 64) * 64 + a % 64;
    assert n / 4096 == a / 64;
  }

  /** Round trip: decoding the UTF-8 bytes of any text gives the text back. */
  lemma {:induction false} DecodeEncode(s: string)
    ensures Decode(Encode(s)) == Some(s)
  {
    if s != [] {
      var e := EncodeChar(s[0]);
      var rest := Encode(s[1..]);
      DecodeEncodeChar(s[0], rest);
      assert (e + rest)[|e|..] == rest;
      DecodeEncode(s[1..]);
      assert [s[0]] + s[1..] == s;
    }
  }

}
