/** The fragments of Python's `str` behaviour the views rely on: `split(' ')`,
    `strip()`, and `str(n)` / `int(s)` for integers of either sign. */
module Text {
  import opened Wrappers

  // ---------------------------------------------------------------------------
  // str.split(sep) and sep.join(parts)
  // ---------------------------------------------------------------------------

  /** Python's `s.split(sep)` for a one-character separator: never empty, and
      the empty string gives `[""]`. */
  function Split(s: string, sep: char): (parts: seq<string>)
    ensures |parts| >= 1
    ensures forall i :: 0 <= i < |parts| ==> sep !in parts[i]
    decreases |s|
  {
    if s == [] then [[]]
    else
      var rest := Split(s[1..], sep);
      if s[0] == sep then [[]] + rest
      else [[s[0]] + rest[0]] + rest[1..]
  }

  /** Python's `sep.join(parts)`. */
  function Join(parts: seq<string>, sep: char): string
    decreases |parts|
  {
    if |parts| == 0 then []
    else if |parts| == 1 then parts[0]
    else parts[0] + [sep] + Join(parts[1..], sep)
  }

  /** Splitting loses nothing: joining the pieces back restores the string. */
  lemma {:induction false} JoinSplit(s: string, sep: char)
    ensures Join(Split(s, sep), sep) == s
    decreases |s|
  {
    if s != [] {
      JoinSplit(s[1..], sep);
      var rest := Split(s[1..], sep);
      if s[0] == sep {
        assert Split(s, sep) == [[]] + rest;
        assert ([[]] + rest)[1..] == rest;
      } else {
        var parts := Split(s, sep);
        assert parts == [[s[0]] + rest[0]] + rest[1..];
        if |rest| == 1 {
          assert Join(parts, sep) == [s[0]] + rest[0];
        } else {
          assert parts[1..] == rest[1..];
          assert Join(rest, sep) == rest[0] + [sep] + Join(rest[1..], sep);
          assert Join(parts, sep) == [s[0]] + rest[0] + [sep] + Join(rest[1..], sep);
        }
      }
    }
  }

  /** A string free of the separator splits into itself alone. */
  lemma {:induction false} SplitWithoutSeparator(s: string, sep: char)
    requires sep !in s
    ensures Split(s, sep) == [s]
    decreases |s|
  {
    if s != [] {
      assert sep !in s[1..] by {
        forall i | 0 <= i < |s[1..]| ensures s[1..][i] != sep { assert s[1..][i] == s[i + 1]; }
      }
      SplitWithoutSeparator(s[1..], sep);
      assert [s[0]] + s[1..] == s;
    }
  }

  /** The first separator of a string ends its first piece. */
  lemma {:induction false} SplitAtFirstSeparator(a: string, sep: char, b: string)
    requires sep !in a
    ensures Split(a + [sep] + b, sep) == [a] + Split(b, sep)
    decreases |a|
  {
    var s := a + [sep] + b;
    if a == [] {
      assert s[0] == sep && s[1..] == b;
    } else {
      assert sep !in a[1..] by {
        forall i | 0 <= i < |a[1..]| ensures a[1..][i] != sep { assert a[1..][i] == a[i + 1]; }
      }
      SplitAtFirstSeparator(a[1..], sep, b);
      assert s[1..] == a[1..] + [sep] + b;
      assert s[0] == a[0];
      assert [a[0]] + a[1..] == a;
    }
  }

  /** Splitting inverts joining, provided no piece holds the separator. */
  lemma {:induction false} SplitJoin(parts: seq<string>, sep: char)
    requires |parts| >= 1
    requires forall i :: 0 <= i < |parts| ==> sep !in parts[i]
    ensures Split(Join(parts, sep), sep) == parts
    decreases |parts|
  {
    if |parts| == 1 {
      SplitWithoutSeparator(parts[0], sep);
    } else {
      SplitJoin(parts[1..], sep);
      SplitAtFirstSeparator(parts[0], sep, Join(parts[1..], sep));
      assert [parts[0]] + parts[1..] == parts;
    }
  }

  // ---------------------------------------------------------------------------
  // str.strip()
  // ---------------------------------------------------------------------------

  /** Python's `str.isspace()` for one character: the code points that
      `strip()` with no argument removes. */
  predicate IsPySpace(c: char) {
    var n := c as int;
    (0x09 <= n <= 0x0D) || (0x1C <= n <= 0x20) || n == 0x85 || n == 0xA0 ||
    n == 0x1680 || (0x2000 <= n <= 0x200A) || n == 0x2028 || n == 0x2029 ||
    n == 0x202F || n == 0x205F || n == 0x3000
  }

  /** True when every character of `s` is whitespace. */
  predicate AllSpace(s: string) {
    forall i :: 0 <= i < |s| ==> IsPySpace(s[i])
  }

  /** `s.lstrip()`: `s` without its leading whitespace. */
  function TrimLeft(s: string): (r: string)
    ensures r != [] ==> !IsPySpace(r[0])
    decreases |s|
  {
    if |s| > 0 && IsPySpace(s[0]) then TrimLeft(s[1..]) else s
  }

  /** `s.rstrip()`: `s` without its trailing whitespace. */
  function TrimRight(s: string): (r: string)
    ensures r != [] ==> !IsPySpace(r[|r| - 1])
    decreases |s|
  {
    if |s| > 0 && IsPySpace(s[|s| - 1]) then TrimRight(s[..|s| - 1]) else s
  }

  /** What `lstrip` removes is a prefix made only of whitespace. */
  lemma {:induction false} TrimLeftRemovesSpace(s: string)
    ensures var r := TrimLeft(s); |r| <= |s| && r == s[|s| - |r|..] && AllSpace(s[..|s| - |r|])
    decreases |s|
  {
    if |s| > 0 && IsPySpace(s[0]) {
      var r := TrimLeft(s[1..]);
      TrimLeftRemovesSpace(s[1..]);
      var k := |s| - |r|;
      assert TrimLeft(s) == r;
      assert s[1..][k - 1..] == s[k..];
      var removed := s[..k];
      forall i | 0 <= i < |removed| ensures IsPySpace(removed[i]) {
        if i > 0 {
          assert removed[i] == s[1..][..k - 1][i - 1];
        }
      }
    } else {
      assert TrimLeft(s) == s[0..] && s[..0] == [];
    }
  }

  /** What `rstrip` removes is a suffix made only of whitespace. */
  lemma {:induction false} TrimRightRemovesSpace(s: string)
    ensures var r := TrimRight(s); |r| <= |s| && r == s[..|r|] && AllSpace(s[|r|..])
    decreases |s|
  {
    if |s| > 0 && IsPySpace(s[|s| - 1]) {
      var p := s[..|s| - 1];
      var r := TrimRight(p);
      TrimRightRemovesSpace(p);
      assert TrimRight(s) == r;
      assert p[..|r|] == s[..|r|];
      var removed := s[|r|..];
      forall i | 0 <= i < |removed| ensures IsPySpace(removed[i]) {
        if i < |removed| - 1 {
          assert removed[i] == p[|r|..][i];
        }
      }
    } else {
      assert TrimRight(s) == s[..|s|] && s[|s|..] == [];
    }
  }

  /** Python's `s.strip()`: no whitespace at either end of the result. */
  function Strip(s: string): (r: string)
    ensures r != [] ==> !IsPySpace(r[0]) && !IsPySpace(r[|r| - 1])
  {
    var t := TrimLeft(s);
    TrimRightRemovesSpace(t);
    TrimRight(t)
  }

  /** True when `s` has no whitespace at either end. */
  predicate IsStripped(s: string) {
    s == [] || (!IsPySpace(s[0]) && !IsPySpace(s[|s| - 1]))
  }

  /** A string with no whitespace at either end is its own `strip()`. */
  lemma StripOfStripped(s: string)
    requires IsStripped(s)
    ensures Strip(s) == s
  {
    if s != [] {
      assert TrimLeft(s) == s;
      assert TrimRight(s) == s;
    }
  }

  // ---------------------------------------------------------------------------
  // str(n) and int(s) for integers
  // ---------------------------------------------------------------------------

  predicate IsDigit(c: char) {
    '0' <= c <= '9'
  }

  predicate AllDigits(s: string) {
    forall i :: 0 <= i < |s| ==> IsDigit(s[i])
  }

  function DigitChar(d: nat): (c: char)
    requires d < 10
    ensures IsDigit(c)
  {
    ('0' as int + d) as char
  }

  function DigitValue(c: char): (d: nat)
    requires IsDigit(c)
    ensures d < 10
  {
    c as int - '0' as int
  }

  /** Python's `str(n)` for `n >= 0`: decimal digits with no leading zero. */
  function NatToString(n: nat): (s: string)
    ensures |s| >= 1 && AllDigits(s)
    ensures |s| > 1 ==> s[0] != '0'
  {
    if n < 10 then [DigitChar(n)]
    else NatToString(n / 10) + [DigitChar(n % 10)]
  }

  /** The number written by a string of decimal digits (leading zeros allowed). */
  function DigitsValue(s: string): nat
    requires AllDigits(s)
    decreases |s|
  {
    if s == [] then 0
    else DigitsValue(s[..|s| - 1]) * 10 + DigitValue(s[|s| - 1])
  }

  /** Python's `int(s)` on a string of ASCII digits; anything else is refused. */
  function ParseNat(s: string): (r: Option<nat>)
    ensures r.Some? <==> s != [] && AllDigits(s)
  {
    if s != [] && AllDigits(s) then Some(DigitsValue(s)) else None
  }

  /** Reading back a rendered number gives the number. */
  lemma {:induction false} ParseNatToString(n: nat)
    ensures ParseNat(NatToString(n)) == Some(n)
  {
    if n >= 10 {
      ParseNatToString(n / 10);
      var s := NatToString(n);
      assert s[..|s| - 1] == NatToString(n / 10);
      assert DigitValue(s[|s| - 1]) == n % 10;
      assert DigitsValue(s) == (n / 10) * 10 + n % 10;
    }
  }

  /** Distinct numbers are rendered differently. */
  lemma NatToStringInjective(m: nat, n: nat)
    requires NatToString(m) == NatToString(n)
    ensures m == n
  {
    ParseNatToString(m);
    ParseNatToString(n);
  }

  /** The text `int()` accepts once stripped: ASCII digits, with at most one
      leading sign. */
  predicate IsDecimalLiteral(t: string) {
    (t != [] && AllDigits(t)) || (|t| >= 2 && (t[0] == '-' || t[0] == '+') && AllDigits(t[1..]))
  }

  /** Python's `int(s)` for base 10: surrounding whitespace is ignored and one
      leading sign is allowed before the ASCII digits. */
  function ParseInt(s: string): (r: Option<int>)
    ensures r.Some? <==> IsDecimalLiteral(Strip(s))
    ensures r.Some? && AllDigits(Strip(s)) ==> r.value == DigitsValue(Strip(s))
    ensures r.Some? && Strip(s)[0] == '-' ==> r.value == 0 - DigitsValue(Strip(s)[1..])
    ensures r.Some? && Strip(s)[0] == '+' ==> r.value == DigitsValue(Strip(s)[1..])
  {
    var t := Strip(s);
    if s != [] && AllDigits(s) then
      assert IsDigit(s[0]) && IsDigit(s[|s| - 1]);
      StripOfStripped(s);
      Some(DigitsValue(s))
    else if |t| > 0 && (t[0] == '-' || t[0] == '+') then
      match ParseNat(t[1..])
      case None => None
      case Some(n) =>
        var v: int := if t[0] == '-' then 0 - n as int else n;
        Some(v)
    else
      match ParseNat(t)
      case None => None
      case Some(n) => Some(n)
  }

  /** The decimal rendering of an id reads back as that id. */
  lemma ParseIntToString(n: nat)
    ensures ParseInt(NatToString(n)) == Some(n)
  {
    ParseNatToString(n);
  }

  /** Python's `str(n)` for any integer: a minus sign before the digits of a
      negative number. */
  function IntToString(n: int): (s: string)
    ensures s != [] && IsStripped(s)
  {
    if n < 0 then "-" + NatToString(0 - n) else NatToString(n)
  }

  /** `int(str(n)) == n` for every integer. */
  lemma ParseIntOfIntToString(n: int)
    ensures ParseInt(IntToString(n)) == Some(n)
  {
    var s := IntToString(n);
    StripOfStripped(s);
    if n < 0 {
      assert s[1..] == NatToString(0 - n);
      ParseNatToString(0 - n);
    } else {
      ParseNatToString(n);
    }
  }

  /** Whitespace before `s` does not change its `lstrip()`. */
  lemma {:induction false} TrimLeftSpacePrefix(w: string, s: string)
    requires AllSpace(w)
    ensures TrimLeft(w + s) == TrimLeft(s)
    decreases |w|
  {
    if w == [] {
      assert w + s == s;
    } else {
      assert (w + s)[1..] == w[1..] + s;
      TrimLeftSpacePrefix(w[1..], s);
    }
  }

  /** Whitespace after `s` does not change its `rstrip()`. */
  lemma {:induction false} TrimRightSpaceSuffix(s: string, w: string)
    requires AllSpace(w)
    ensures TrimRight(s + w) == TrimRight(s)
    decreases |w|
  {
    if w == [] {
      assert s + w == s;
    } else {
      var w' := w[..|w| - 1];
      assert (s + w)[..|s + w| - 1] == s + w';
      TrimRightSpaceSuffix(s, w');
    }
  }

  /** `int()` ignores whitespace around the number: padding a stripped,
      non-empty text on either side does not change what it parses to. */
  lemma ParseIntIgnoresSpace(before: string, t: string, after: string)
    requires AllSpace(before) && AllSpace(after)
    requires t != [] && IsStripped(t)
    ensures ParseInt(before + t + after) == ParseInt(t)
  {
    var s := before + t + after;
    assert s == before + (t + after);
    TrimLeftSpacePrefix(before, t + after);
    assert TrimLeft(t + after) == t + after;
    TrimRightSpaceSuffix(t, after);
    assert TrimRight(t) == t;
    assert Strip(s) == t;
    StripOfStripped(t);
  }

  /** The length of the run of digits a string starts with. */
  function LeadingDigits(s: string): (k: nat)
    ensures k <= |s|
    decreases |s|
  {
    if s != [] && IsDigit(s[0]) then 1 + LeadingDigits(s[1..]) else 0
  }

  /** A number followed by a non-digit ends where its digits end. */
  lemma {:induction false} LeadingDigitsOf(n: string, rest: string)
    requires AllDigits(n) && rest != [] && !IsDigit(rest[0])
    ensures LeadingDigits(n + rest) == |n|
    decreases |n|
  {
    if n != [] {
      assert (n + rest)[1..] == n[1..] + rest;
      LeadingDigitsOf(n[1..], rest);
    } else {
      assert n + rest == rest;
    }
  }
}
