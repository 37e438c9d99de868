/** UTF-8, the encoding Python's `str.encode('utf-8')` applies before a string
    is base64- or percent-encoded (RFC 3629, section 3). */
module Utf8 {
  import opened Wrappers
  import opened Bytes

  /** True when `b` is a continuation byte `10xxxxxx`. */
  predicate IsContinuation(b: byte) {
    0x80 <= b < 0xC0
  }

  /** The one to four bytes that encode one code point. */
  function EncodeChar(c: char): (bs: seq<byte>)
    ensures 1 <= |bs| <= 4
    ensures |bs| == 1 <==> c as int < 0x80
    ensures forall i :: 1 <= i < |bs| ==> IsContinuation(bs[i])
  {
    var n := c as int;
    var q1 := n / 64;
    var q2 := q1 / 64;
    if n < 0x80 then [n]
    else if n < 0x800 then [0xC0 + q1, 0x80 + n % 64]
    else if n < 0x10000 then [0xE0 + q2, 0x80 + q1 % 64, 0x80 + n % 64]
    else [0xF0 + q2 / 64, 0x80 + q2 % 64, 0x80 + q1 % 64, 0x80 + n % 64]
  }

  /** `s.encode('utf-8')`. */
  function Encode(s: string): (bs: seq<byte>)
    ensures |bs| >= |s|
    decreases |s|
  {
    if s == [] then [] else EncodeChar(s[0]) + Encode(s[1..])
  }

  /** True when `n` is a Unicode scalar value, the range of Dafny's `char`. */
  predicate IsScalar(n: int) {
    (0 <= n < 0xD800) || (0xE000 <= n < 0x110000)
  }

  /** Reads the first code point of `bs`; a strict decoder that refuses
      overlong forms, surrogates and values past U+10FFFF. Returns the
      character and the number of bytes it used. */
  function DecodeChar(bs: seq<byte>): (r: Option<(char, nat)>)
    ensures r.Some? ==> 1 <= r.value.1 <= |bs| && r.value.1 <= 4
  {
    if |bs| == 0 then None
    else
      var b0: int := bs[0];
      var b1: int := if |bs| >= 2 then bs[1] else 0;
      var b2: int := if |bs| >= 3 then bs[2] else 0;
      var b3: int := if |bs| >= 4 then bs[3] else 0;
      if b0 < 0x80 then Some((b0 as char, 1))
      else if 0xC0 <= b0 < 0xE0 && |bs| >= 2 && IsContinuation(bs[1]) then
        var n := (b0 - 0xC0) * 64 + (b1 - 0x80);
        if n < 0x80 then None else Some((n as char, 2))
      else if 0xE0 <= b0 < 0xF0 && |bs| >= 3 && IsContinuation(bs[1]) && IsContinuation(bs[2]) then
        var n := (b0 - 0xE0) * 4096 + (b1 - 0x80) * 64 + (b2 - 0x80);
        if n < 0x800 || !IsScalar(n) then None else Some((n as char, 3))
      else if 0xF0 <= b0 < 0xF8 && |bs| >= 4 && IsContinuation(bs[1]) && IsContinuation(bs[2])
              && IsContinuation(bs[3]) then
        var n := (b0 - 0xF0) * 262144 + (b1 - 0x80) * 4096 + (b2 - 0x80) * 64 + (b3 - 0x80);
        if n < 0x10000 || !IsScalar(n) then None else Some((n as char, 4))
      else None
  }

  /** `bs.decode('utf-8')`, with malformed input refused. */
  function Decode(bs: seq<byte>): Option<string>
    decreases |bs|
  {
    if bs == [] then Some([])
    else match DecodeChar(bs)
      case None => None
      case Some((c, k)) =>
        match Decode(bs[k..])
        case None => None
        case Some(rest) => Some([c] + rest)
  }

  /** The bytes of one code point read back as that code point, whatever follows. */
  lemma DecodeEncodeChar(c: char, rest: seq<byte>)
    ensures DecodeChar(EncodeChar(c) + rest) == Some((c, |EncodeChar(c)|))
  {
    var n := c as int;
    var q1 := n / 64;
    var q2 := q1 / 64;
    assert n == q1 * 64 + n % 64;
    assert q1 == q2 * 64 + q1 % 64;
    assert q2 == (q2 / 64) * 64 + q2 % 64;
    var bs := EncodeChar(c) + rest;
    if n < 0x80 {
    } else if n < 0x800 {
      assert bs[0] == 0xC0 + q1 && bs[1] == 0x80 + n % 64;
    } else if n < 0x10000 {
      assert bs[0] == 0xE0 + q2 && bs[1] == 0x80 + q1 % 64 && bs[2] == 0x80 + n % 64;
    } else {
      assert bs[0] == 0xF0 + q2 / 64 && bs[1] == 0x80 + q2 % 64;
      assert bs[2] == 0x80 + q1 % 64 && bs[3] == 0x80 + n % 64;
    }
  }

  /** Decoding inverts encoding: UTF-8 loses nothing. */
  lemma {:induction false} DecodeEncode(s: string)
    ensures Decode(Encode(s)) == Some(s)
    decreases |s|
  {
    if s != [] {
      var head := EncodeChar(s[0]);
      DecodeEncodeChar(s[0], Encode(s[1..]));
      DecodeEncode(s[1..]);
      assert (head + Encode(s[1..]))[|head|..] == Encode(s[1..]);
      assert [s[0]] + s[1..] == s;
    }
  }

  /** Distinct strings have distinct encodings. */
  lemma EncodeInjective(s: string, t: string)
    requires Encode(s) == Encode(t)
    ensures s == t
  {
    DecodeEncode(s);
    DecodeEncode(t);
  }
}
