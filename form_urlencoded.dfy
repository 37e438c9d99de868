/** The `application/x-www-form-urlencoded` byte serializer as Python's
    `urllib.parse.urlencode` (with its default `quote_plus`) writes it, and a
    strict parser that reads it back. The parser splits as section 5.1 of the
    WHATWG URL Standard does but, unlike that standard, refuses malformed
    UTF-8 instead of replacing it with U+FFFD. */
module FormUrlencoded {
  import opened Wrappers
  import opened Bytes
  import Text
  import Utf8

  /** The octets `quote_plus` leaves alone: ASCII letters, digits and `_.-~`. */
  predicate IsUnreserved(b: byte) {
    (0x41 <= b <= 0x5A) || (0x61 <= b <= 0x7A) || (0x30 <= b <= 0x39) ||
    b == 0x5F || b == 0x2E || b == 0x2D || b == 0x7E
  }

  /** An upper-case hexadecimal digit. */
  function HexDigit(d: nat): (c: char)
    requires d < 16
    ensures IsAscii(c)
  {
    "0123456789ABCDEF"[d]
  }

  /** The value of a hexadecimal digit of either case. */
  function HexValue(c: char): (r: Option<nat>)
    ensures r.Some? ==> r.value < 16
  {
    if '0' <= c <= '9' then Some(c as int - '0' as int)
    else if 'A' <= c <= 'F' then Some(c as int - 'A' as int + 10)
    else if 'a' <= c <= 'f' then Some(c as int - 'a' as int + 10)
    else None
  }

  /** The characters `quote_plus` can output. */
  predicate IsQuotedChar(c: char) {
    IsAscii(c) && (IsUnreserved(c as int) || c == '+' || c == '%')
  }

  /** One octet, escaped: kept, turned into `+` (a space) or written `%XX`. */
  function QuoteByte(b: byte): (s: string)
    ensures forall i :: 0 <= i < |s| ==> IsQuotedChar(s[i])
  {
    if IsUnreserved(b) then [AsciiChar(b)]
    else if b == 0x20 then "+"
    else ['%', HexDigit(b / 16), HexDigit(b % 16)]
  }

  function QuoteBytes(bs: seq<byte>): (s: string)
    ensures forall i :: 0 <= i < |s| ==> IsQuotedChar(s[i])
    decreases |bs|
  {
    if bs == [] then [] else QuoteByte(bs[0]) + QuoteBytes(bs[1..])
  }

  /** `urllib.parse.quote_plus(s)`: the UTF-8 octets of `s`, escaped. */
  function QuotePlus(s: string): string {
    QuoteBytes(Utf8.Encode(s))
  }

  /** The text of one `name=value` pair. */
  function PairText(name: string, value: string): string {
    QuotePlus(name) + "=" + QuotePlus(value)
  }

  function PairTexts(pairs: seq<(string, string)>): (texts: seq<string>)
    ensures |texts| == |pairs|
    ensures forall i :: 0 <= i < |pairs| ==> texts[i] == PairText(pairs[i].0, pairs[i].1)
    decreases |pairs|
  {
    if pairs == [] then [] else [PairText(pairs[0].0, pairs[0].1)] + PairTexts(pairs[1..])
  }

  /** `urllib.parse.urlencode(pairs)`: the pairs in order, joined by `&`. */
  function Serialize(pairs: seq<(string, string)>): string {
    Text.Join(PairTexts(pairs), '&')
  }

  /** Percent-decoding with `+` read as a space. As in the WHATWG parser, a
      `%` not followed by two hexadecimal digits stands for itself, and other
      characters stand for their UTF-8 octets. */
  function PercentDecode(s: string): seq<byte>
    decreases |s|
  {
    if s == [] then []
    else if s[0] == '%' && |s| >= 3 && HexValue(s[1]).Some? && HexValue(s[2]).Some? then
      [HexValue(s[1]).value * 16 + HexValue(s[2]).value] + PercentDecode(s[3..])
    else if s[0] == '+' then [0x20] + PercentDecode(s[1..])
    else Utf8.EncodeChar(s[0]) + PercentDecode(s[1..])
  }

  /** The inverse of `quote_plus`; malformed UTF-8 is refused. */
  function UnquotePlus(s: string): Option<string> {
    Utf8.Decode(PercentDecode(s))
  }

  /** One `name=value` piece: split at the first `=`; a piece without `=` is a
      name with an empty value. */
  function ParsePair(piece: string): Option<(string, string)> {
    var parts := Text.Split(piece, '=');
    var name := UnquotePlus(parts[0]);
    var value := UnquotePlus(Text.Join(parts[1..], '='));
    if name.Some? && value.Some? then Some((name.value, value.value)) else None
  }

  function ParsePieces(pieces: seq<string>): Option<seq<(string, string)>>
    decreases |pieces|
  {
    if pieces == [] then Some([])
    else
      var rest := ParsePieces(pieces[1..]);
      if rest.None? then None
      else if pieces[0] == [] then rest
      else
        var pair := ParsePair(pieces[0]);
        if pair.None? then None else Some([pair.value] + rest.value)
  }

  /** Reads a serialized query back into its pairs; empty pieces are skipped. */
  function Parse(s: string): Option<seq<(string, string)>> {
    if s == [] then Some([]) else ParsePieces(Text.Split(s, '&'))
  }

  // ---------------------------------------------------------------------------
  // Round trip
  // ---------------------------------------------------------------------------

  lemma HexValueOfDigit(d: nat)
    requires d < 16
    ensures HexValue(HexDigit(d)) == Some(d)
  {
  }

  /** Decoding the escape of one octet gives that octet back, whatever follows. */
  lemma PercentDecodeQuoteByte(b: byte, rest: string)
    ensures PercentDecode(QuoteByte(b) + rest) == [b] + PercentDecode(rest)
  {
    var s := QuoteByte(b) + rest;
    if IsUnreserved(b) {
      assert s[0] == AsciiChar(b) && s[1..] == rest;
    } else if b == 0x20 {
      assert s[0] == '+' && s[1..] == rest;
    } else {
      HexValueOfDigit(b / 16);
      HexValueOfDigit(b % 16);
      assert s[0] == '%' && s[1] == HexDigit(b / 16) && s[2] == HexDigit(b % 16);
      assert s[3..] == rest;
    }
  }

  lemma {:induction false} PercentDecodeQuoteBytes(bs: seq<byte>)
    ensures PercentDecode(QuoteBytes(bs)) == bs
    decreases |bs|
  {
    if bs != [] {
      PercentDecodeQuoteByte(bs[0], QuoteBytes(bs[1..]));
      PercentDecodeQuoteBytes(bs[1..]);
      assert [bs[0]] + bs[1..] == bs;
    }
  }

  /** `unquote_plus` inverts `quote_plus`. */
  lemma UnquoteQuotePlus(s: string)
    ensures UnquotePlus(QuotePlus(s)) == Some(s)
  {
    PercentDecodeQuoteBytes(Utf8.Encode(s));
    Utf8.DecodeEncode(s);
  }

  /** The escaped form of a string holds neither `&` nor `=`. */
  lemma QuotePlusHasNoDelimiters(s: string)
    ensures '&' !in QuotePlus(s) && '=' !in QuotePlus(s)
  {
    var q := QuotePlus(s);
    forall i | 0 <= i < |q| ensures q[i] != '&' && q[i] != '=' {
      assert IsQuotedChar(q[i]);
    }
  }

  lemma ParsePairText(name: string, value: string)
    ensures ParsePair(PairText(name, value)) == Some((name, value))
  {
    QuotePlusHasNoDelimiters(name);
    QuotePlusHasNoDelimiters(value);
    Text.SplitAtFirstSeparator(QuotePlus(name), '=', QuotePlus(value));
    Text.SplitWithoutSeparator(QuotePlus(value), '=');
    assert "=" == ['='];
    var parts := Text.Split(PairText(name, value), '=');
    assert parts == [QuotePlus(name), QuotePlus(value)];
    assert parts[1..] == [QuotePlus(value)];
    UnquoteQuotePlus(name);
    UnquoteQuotePlus(value);
  }

  lemma {:induction false} ParsePiecesPairTexts(pairs: seq<(string, string)>)
    ensures ParsePieces(PairTexts(pairs)) == Some(pairs)
    decreases |pairs|
  {
    if pairs != [] {
      var texts := PairTexts(pairs);
      assert texts[1..] == PairTexts(pairs[1..]);
      ParsePiecesPairTexts(pairs[1..]);
      var rest := ParsePieces(texts[1..]);
      assert rest == Some(pairs[1..]);
      ParsePairText(pairs[0].0, pairs[0].1);
      assert ParsePair(texts[0]) == Some(pairs[0]);
      assert texts[0] != [] by {
        assert texts[0] == QuotePlus(pairs[0].0) + "=" + QuotePlus(pairs[0].1);
      }
      assert ParsePieces(texts) == Some([pairs[0]] + rest.value);
      assert [pairs[0]] + pairs[1..] == pairs;
    }
  }

  /** Parsing a serialized query gives back exactly the pairs, in order. */
  lemma ParseSerialize(pairs: seq<(string, string)>)
    ensures Parse(Serialize(pairs)) == Some(pairs)
  {
    var texts := PairTexts(pairs);
    if pairs != [] {
      forall i | 0 <= i < |texts| ensures '&' !in texts[i] {
        QuotePlusHasNoDelimiters(pairs[i].0);
        QuotePlusHasNoDelimiters(pairs[i].1);
        assert texts[i] == QuotePlus(pairs[i].0) + "=" + QuotePlus(pairs[i].1);
      }
      Text.SplitJoin(texts, '&');
      assert Serialize(pairs) != [] by {
        assert Text.Split(Serialize(pairs), '&')[0] == texts[0] != [];
      }
      ParsePiecesPairTexts(pairs);
    }
  }
}
