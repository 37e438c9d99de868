/** The base64 encoding of RFC 4648, section 4 (standard alphabet, `=`
    padding), as Python's `base64.b64encode` produces it. */
module Base64 {
  import opened Wrappers
  import opened Bytes

  /** The 6-bit value an alphabet character stands for; `None` off the alphabet. */
  function SymbolValue(c: char): (r: Option<nat>)
    ensures r.Some? ==> r.value < 64
  {
    if 'A' <= c <= 'Z' then Some(c as int - 'A' as int)
    else if 'a' <= c <= 'z' then Some(c as int - 'a' as int + 26)
    else if '0' <= c <= '9' then Some(c as int - '0' as int + 52)
    else if c == '+' then Some(62)
    else if c == '/' then Some(63)
    else None
  }

  /** The alphabet character for a 6-bit value (Table 1 of RFC 4648); it
      stands for that value again when read back. */
  function Symbol(v: nat): (c: char)
    requires v < 64
    ensures IsAscii(c) && c != '='
    ensures SymbolValue(c) == Some(v)
  {
    if v < 26 then ('A' as int + v) as char
    else if v < 52 then ('a' as int + (v - 26)) as char
    else if v < 62 then ('0' as int + (v - 52)) as char
    else if v == 62 then '+'
    else '/'
  }

  /** True when `c` may appear in an encoding. */
  predicate IsBase64Char(c: char) {
    SymbolValue(c).Some? || c == '='
  }

  /** Three octets become four symbols. */
  function EncodeBlock(b0: byte, b1: byte, b2: byte): string {
    [Symbol(b0 / 4), Symbol((b0 % 4) * 16 + b1 / 16), Symbol((b1 % 16) * 4 + b2 / 64), Symbol(b2 % 64)]
  }

  /** `base64.b64encode(bs)`: the final one or two octets are padded with `=`. */
  function Encode(bs: seq<byte>): (s: string)
    ensures |s| == 4 * ((|bs| + 2) / 3)
    ensures forall i :: 0 <= i < |s| ==> IsAscii(s[i]) && IsBase64Char(s[i])
    decreases |bs|
  {
    if |bs| == 0 then []
    else if |bs| == 1 then
      [Symbol(bs[0] / 4), Symbol((bs[0] % 4) * 16), '=', '=']
    else if |bs| == 2 then
      [Symbol(bs[0] / 4), Symbol((bs[0] % 4) * 16 + bs[1] / 16), Symbol((bs[1] % 16) * 4), '=']
    else
      var head, rest := EncodeBlock(bs[0], bs[1], bs[2]), Encode(bs[3..]);
      assert (|bs| + 2) / 3 == (|bs[3..]| + 2) / 3 + 1;
      assert forall i :: 0 <= i < |head| ==> IsAscii(head[i]) && IsBase64Char(head[i]);
      head + rest
  }

  /** Four symbols, the last group possibly padded, back to one to three octets. */
  function DecodeBlock(block: string, last: bool): (r: Option<seq<byte>>)
    requires |block| == 4
    ensures r.Some? ==> 1 <= |r.value| <= 3
  {
    var v0, v1, v2, v3 := SymbolValue(block[0]), SymbolValue(block[1]), SymbolValue(block[2]), SymbolValue(block[3]);
    if v0.None? || v1.None? then None
    else if last && block[2] == '=' && block[3] == '=' then
      Some([v0.value * 4 + v1.value / 16])
    else if v2.None? then None
    else if last && block[3] == '=' then
      Some([v0.value * 4 + v1.value / 16, (v1.value % 16) * 16 + v2.value / 4])
    else if v3.None? then None
    else
      Some([v0.value * 4 + v1.value / 16, (v1.value % 16) * 16 + v2.value / 4, (v2.value % 4) * 64 + v3.value])
  }

  /** Decodes a padded encoding; anything malformed is refused. */
  function Decode(s: string): Option<seq<byte>>
    decreases |s|
  {
    if |s| == 0 then Some([])
    else if |s| < 4 then None
    else
      match DecodeBlock(s[..4], |s| == 4)
      case None => None
      case Some(head) =>
        match Decode(s[4..])
        case None => None
        case Some(tail) => Some(head + tail)
  }

  lemma DecodeEncodeBlock(b0: byte, b1: byte, b2: byte, last: bool)
    ensures DecodeBlock(EncodeBlock(b0, b1, b2), last) == Some([b0, b1, b2])
  {
    var v0, v1, v2, v3 := b0 / 4, (b0 % 4) * 16 + b1 / 16, (b1 % 16) * 4 + b2 / 64, b2 % 64;
    assert v1 / 16 == b0 % 4 && v1 % 16 == b1 / 16;
    assert v2 / 4 == b1 % 16 && v2 % 4 == b2 / 64;
    assert v0 * 4 + v1 / 16 == b0;
    assert (v1 % 16) * 16 + v2 / 4 == b1;
    assert (v2 % 4) * 64 + v3 == b2;
    var block := EncodeBlock(b0, b1, b2);
    assert block[0] == Symbol(v0) && block[1] == Symbol(v1) && block[2] == Symbol(v2) && block[3] == Symbol(v3);
  }

  /** The padded encoding of a single final octet decodes back to it. */
  lemma DecodeEncodeOne(b0: byte)
    ensures Decode(Encode([b0])) == Some([b0])
  {
    var v0, v1 := b0 / 4, (b0 % 4) * 16;
    assert v0 * 4 + v1 / 16 == b0;
    var s := [Symbol(v0), Symbol(v1), '=', '='];
    assert Encode([b0]) == s;
    assert s[..4] == s && s[4..] == [];
    assert DecodeBlock(s[..4], |s| == 4) == Some([b0]);
    assert Decode(s[4..]) == Some([]);
    assert [b0] + [] == [b0];
  }

  /** The padded encoding of two final octets decodes back to them. */
  lemma DecodeEncodeTwo(b0: byte, b1: byte)
    ensures Decode(Encode([b0, b1])) == Some([b0, b1])
  {
    var v0, v1, v2 := b0 / 4, (b0 % 4) * 16 + b1 / 16, (b1 % 16) * 4;
    assert v1 / 16 == b0 % 4 && v1 % 16 == b1 / 16 && v2 / 4 == b1 % 16;
    assert v0 * 4 + v1 / 16 == b0;
    assert (v1 % 16) * 16 + v2 / 4 == b1;
    var s := [Symbol(v0), Symbol(v1), Symbol(v2), '='];
    assert Encode([b0, b1]) == s;
    assert s[..4] == s && s[4..] == [];
    assert DecodeBlock(s[..4], |s| == 4) == Some([b0, b1]);
    assert Decode(s[4..]) == Some([]);
    assert [b0, b1] + [] == [b0, b1];
  }

  /** Decoding inverts encoding. */
  lemma {:induction false} DecodeEncode(bs: seq<byte>)
    ensures Decode(Encode(bs)) == Some(bs)
    decreases |bs|
  {
    if |bs| == 1 {
      DecodeEncodeOne(bs[0]);
      assert bs == [bs[0]];
    } else if |bs| == 2 {
      DecodeEncodeTwo(bs[0], bs[1]);
      assert bs == [bs[0], bs[1]];
    } else if |bs| >= 3 {
      var s := Encode(bs);
      var head := EncodeBlock(bs[0], bs[1], bs[2]);
      DecodeEncodeBlock(bs[0], bs[1], bs[2], |s| == 4);
      DecodeEncode(bs[3..]);
      assert s[..4] == head && s[4..] == Encode(bs[3..]);
      assert [bs[0], bs[1], bs[2]] + bs[3..] == bs;
    }
  }
}
