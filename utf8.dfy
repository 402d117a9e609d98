/** Conversion between text and the bytes of a Node.js Buffer.
    `new Buffer(str)` encodes a string as UTF-8 and `buf.toString()` decodes
    UTF-8; both are used for the record header and for JSON payloads. */
module Utf8 {
  import opened Wrappers

  /** One byte of a Buffer. */
  type byte = b: int | 0 <= b < 0x100

  predicate IsContinuation(b: byte) { 0x80 <= b < 0xC0 }

  /** The UTF-8 bytes of one Unicode scalar value. */
  function EncodeChar(c: char): (bs: seq<byte>)
    ensures 1 <= |bs| <= 4
    ensures |bs| == 1 <==> c as int < 0x80
    ensures |bs| == 1 ==> bs[0] == c as int
    ensures forall i | 0 <= i < |bs| :: |bs| > 1 ==> bs[i] >= 0x80
  {
    var n := c as int;
    var r0, q1 := n % 64, n / 64;
    var r1, q2 := q1 % 64, q1 / 64;
    var r2, q3 := q2 % 64, q2 / 64;
    if n < 0x80 then [n]
    else if n < 0x800 then [0xC0 + q1, 0x80 + r0]
    else if n < 0x10000 then [0xE0 + q2, 0x80 + r1, 0x80 + r0]
    else [0xF0 + q3, 0x80 + r2, 0x80 + r1, 0x80 + r0]
  }

  /** `new Buffer(s)`: the UTF-8 encoding of a whole string. */
  function Encode(s: string): seq<byte>
  {
    if s == [] then [] else EncodeChar(s[0]) + Encode(s[1..])
  }

  /** Decodes the first character of `bs`, giving it and the number of bytes
      it occupies; None when `bs` does not start with a well-formed UTF-8
      sequence (overlong forms, surrogates and values above U+10FFFF are
      refused). */
  function DecodeChar(bs: seq<byte>): (r: Option<(char, nat)>)
    requires bs != []
    ensures r.Some? ==> 1 <= r.value.1 <= |bs|
  {
    var b0 := bs[0] as int;
    if b0 < 0x80 then Some((b0 as char, 1))
    else if 0xC2 <= b0 < 0xE0 then
      if |bs| >= 2 && IsContinuation(bs[1]) then
        Some((((b0 - 0xC0) * 64 + (bs[1] as int - 0x80)) as char, 2))
      else None
    else if 0xE0 <= b0 < 0xF0 then
      if |bs| >= 3 && IsContinuation(bs[1]) && IsContinuation(bs[2]) then
        var n := ((b0 - 0xE0) * 64 + (bs[1] as int - 0x80)) * 64 + (bs[2] as int - 0x80);
        if n < 0x800 || 0xD800 <= n < 0xE000 then None else Some((n as char, 3))
      else None
    else if 0xF0 <= b0 < 0xF5 then
      if |bs| >= 4 && IsContinuation(bs[1]) && IsContinuation(bs[2]) && IsContinuation(bs[3]) then
        var n := (((b0 - 0xF0) * 64 + (bs[1] as int - 0x80)) * 64 + (bs[2] as int - 0x80)) * 64 + (bs[3] as int - 0x80);
        if n < 0x10000 || 0x110000 <= n then None else Some((n as char, 4))
      else None
    else None
  }

  /** `buf.toString()` on well-formed UTF-8; None on malformed input. */
  function Decode(bs: seq<byte>): Option<string>
    decreases |bs|
  {
    if bs == [] then Some([])
    else match DecodeChar(bs)
      case None => None
      case Some((c, k)) =>
        match Decode(bs[k..])
        case None => None
        case Some(rest) => Some([c] + rest)
  }

  lemma DecodeEncodeChar(c: char, rest: seq<byte>)
    ensures DecodeChar(EncodeChar(c) + rest) == Some((c, |EncodeChar(c)|))
  {
    var n := c as int;
    var bs := EncodeChar(c) + rest;
    var r0, q1 := n % 64, n / 64;
    var r1, q2 := q1 % 64, q1 / 64;
    var r2, q3 := q2 % 64, q2 / 64;
    assert n == q1 * 64 + r0;
    assert q1 == q2 * 64 + r1;
    assert q2 == q3 * 64 + r2;
    if n < 0x80 {
    } else if n < 0x800 {
      assert 2 <= q1 < 32;
      assert (bs[0] as int - 0xC0) * 64 + (bs[1] as int - 0x80) == n;
    } else if n < 0x10000 {
      assert q2 < 16;
      assert ((bs[0] as int - 0xE0) * 64 + (bs[1] as int - 0x80)) * 64 + (bs[2] as int - 0x80) == n;
    } else {
      assert q1 < 0x4400 && q2 < 0x110 && q3 <= 4;
      assert (((bs[0] as int - 0xF0) * 64 + (bs[1] as int - 0x80)) * 64 + (bs[2] as int - 0x80)) * 64 + (bs[3] as int - 0x80) == n;
    }
  }

  /** Decoding the encoding of a string gives the string back. */
  lemma {:induction false} DecodeEncode(s: string)
    ensures Decode(Encode(s)) == Some(s)
  {
    if s != [] {
      var e := EncodeChar(s[0]);
      DecodeEncodeChar(s[0], Encode(s[1..]));
      assert (e + Encode(s[1..]))[|e|..] == Encode(s[1..]);
      DecodeEncode(s[1..]);
      assert [s[0]] + s[1..] == s;
    }
  }

  /** The encoding holds byte 10 exactly where the string holds a line feed:
      multi-byte sequences only use bytes from 0x80 up. */
  lemma {:induction false} NewlineFree(s: string)
    ensures 10 in Encode(s) <==> '\n' in s
  {
    if s != [] {
      NewlineFree(s[1..]);
      var e := EncodeChar(s[0]);
      assert Encode(s) == e + Encode(s[1..]);
      assert 10 in e <==> s[0] == '\n';
      assert '\n' in s <==> s[0] == '\n' || '\n' in s[1..] by {
        assert s == [s[0]] + s[1..];
      }
    }
  }
}
