/**
 UTF-8 (RFC 3629) and the string operations the parsers use: `str::from_utf8`,
 `char::is_whitespace`, `trim`, `to_ascii_uppercase`.
 */
module Text {
  import opened Wrappers
  import opened Bytes

  // ----- UTF-8 --------------------------------------------------------------------------

  /** The bytes of one scalar value. */
  function EncodeChar(c: char): (b: seq<byte>)
    ensures 1 <= |b| <= 4
  {
    var n := c as int;
    if n < 0x80 then [n as byte]
    else if n < 0x800 then [(0xC0 + n / 64) as byte, (0x80 + n % 64) as byte]
    else if n < 0x1_0000 then
      [(0xE0 + n / 4096) as byte, (0x80 + n / 64 % 64) as byte, (0x80 + n % 64) as byte]
    else
      [(0xF0 + n / 262144) as byte, (0x80 + n / 4096 % 64) as byte, (0x80 + n / 64 % 64) as byte, (0x80 + n % 64) as byte]
  }

  function EncodeText(s: string): seq<byte> {
    if s == "" then [] else EncodeChar(s[0]) + EncodeText(s[1..])
  }

  predicate Continues(b: byte) {
    0x80 <= b < 0xC0
  }

  /** The first scalar value of `b`; the second byte's range excludes overlong forms and surrogates. */
  function DecodeFirst(b: seq<byte>): (r: Option<char>)
    requires b != []
  {
    var b0 := b[0] as int;
    if b0 < 0x80 then Some(b0 as char)
    else if 0xC2 <= b0 < 0xE0 then
      if |b| >= 2 && Continues(b[1]) then Some(((b0 - 0xC0) * 64 + (b[1] as int - 0x80)) as char) else None
    else if 0xE0 <= b0 < 0xF0 then
      if |b| >= 3 && SecondOfThree(b[0], b[1]) && Continues(b[2]) then
        Some(((b0 - 0xE0) * 4096 + (b[1] as int - 0x80) * 64 + (b[2] as int - 0x80)) as char)
      else None
    else if 0xF0 <= b0 < 0xF5 then
      if |b| >= 4 && SecondOfFour(b[0], b[1]) && Continues(b[2]) && Continues(b[3]) then
        Some(((b0 - 0xF0) * 262144 + (b[1] as int - 0x80) * 4096 + (b[2] as int - 0x80) * 64 + (b[3] as int - 0x80)) as char)
      else None
    else None
  }

  predicate SecondOfThree(b0: byte, b1: byte) {
    if b0 == 0xE0 then 0xA0 <= b1 < 0xC0 else if b0 == 0xED then 0x80 <= b1 < 0xA0 else Continues(b1)
  }

  predicate SecondOfFour(b0: byte, b1: byte) {
    if b0 == 0xF0 then 0x90 <= b1 < 0xC0 else if b0 == 0xF4 then 0x80 <= b1 < 0x90 else Continues(b1)
  }

  lemma SixBits(n: nat, q: nat, r: nat)
    requires n == 64 * q + r && r < 64
    ensures n / 64 == q && n % 64 == r
  {
  }

  /** A number below 2^24 in four groups of six bits. */
  lemma SixBitGroups(n: nat, a: nat, b: nat, c: nat, d: nat)
    requires n == 262144 * a + 4096 * b + 64 * c + d && b < 64 && c < 64 && d < 64
    ensures n / 262144 == a && n / 4096 % 64 == b && n / 64 % 64 == c && n % 64 == d && n / 4096 == 64 * a + b
  {
    SixBits(n, 4096 * a + 64 * b + c, d);
    SixBits(4096 * a + 64 * b + c, 64 * a + b, c);
    assert n / 4096 == n / 64 / 64;
    SixBits(64 * a + b, a, b);
    assert n / 262144 == n / 4096 / 64;
  }

  lemma GroupsOf(n: nat) returns (a: nat, b: nat, c: nat, d: nat)
    ensures n == 262144 * a + 4096 * b + 64 * c + d && b < 64 && c < 64 && d < 64
  {
    d := n % 64;
    c := n / 64 % 64;
    b := n / 64 / 64 % 64;
    a := n / 64 / 64 / 64;
  }

  lemma EncodedThree(c: char, rest: seq<byte>)
    requires 0x800 <= c as int < 0x1_0000
    ensures DecodeFirst(EncodeChar(c) + rest) == Some(c)
  {
    var n := c as int;
    var x, y, z, w := GroupsOf(n);
    SixBitGroups(n, x, y, z, w);
    var b := EncodeChar(c) + rest;
    assert b[0] == (0xE0 + y) as byte && b[1] == (0x80 + z) as byte && b[2] == (0x80 + w) as byte;
  }

  lemma EncodedFour(c: char, rest: seq<byte>)
    requires 0x1_0000 <= c as int
    ensures DecodeFirst(EncodeChar(c) + rest) == Some(c)
  {
    var n := c as int;
    var x, y, z, w := GroupsOf(n);
    SixBitGroups(n, x, y, z, w);
    var b := EncodeChar(c) + rest;
    assert b[0] == (0xF0 + x) as byte && b[1] == (0x80 + y) as byte;
    assert b[2] == (0x80 + z) as byte && b[3] == (0x80 + w) as byte;
  }

  lemma EncodedFirst(c: char, rest: seq<byte>)
    ensures DecodeFirst(EncodeChar(c) + rest) == Some(c)
  {
    var n := c as int;
    if n >= 0x1_0000 {
      EncodedFour(c, rest);
    } else if n >= 0x800 {
      EncodedThree(c, rest);
    } else if n >= 0x80 {
      var b := EncodeChar(c) + rest;
      assert b[0] == (0xC0 + n / 64) as byte && b[1] == (0x80 + n % 64) as byte;
    }
  }

  lemma DecodedThree(b: seq<byte>)
    requires |b| >= 3 && 0xE0 <= b[0] < 0xF0 && SecondOfThree(b[0], b[1]) && Continues(b[2])
    ensures DecodeFirst(b).Some? && EncodeChar(DecodeFirst(b).value) == [b[0], b[1], b[2]]
  {
    var n := (b[0] as int - 0xE0) * 4096 + (b[1] as int - 0x80) * 64 + (b[2] as int - 0x80);
    SixBitGroups(n, 0, b[0] as int - 0xE0, b[1] as int - 0x80, b[2] as int - 0x80);
  }

  lemma DecodedFour(b: seq<byte>)
    requires |b| >= 4 && 0xF0 <= b[0] < 0xF5 && SecondOfFour(b[0], b[1]) && Continues(b[2]) && Continues(b[3])
    ensures DecodeFirst(b).Some? && EncodeChar(DecodeFirst(b).value) == [b[0], b[1], b[2], b[3]]
  {
    var n := (b[0] as int - 0xF0) * 262144 + (b[1] as int - 0x80) * 4096 + (b[2] as int - 0x80) * 64 + (b[3] as int - 0x80);
    SixBitGroups(n, b[0] as int - 0xF0, b[1] as int - 0x80, b[2] as int - 0x80, b[3] as int - 0x80);
  }

  lemma DecodedFirst(b: seq<byte>)
    requires b != [] && DecodeFirst(b).Some?
    ensures EncodeChar(DecodeFirst(b).value) <= b
  {
    if b[0] >= 0xF0 {
      DecodedFour(b);
    } else if b[0] >= 0xE0 {
      DecodedThree(b);
    } else if b[0] >= 0xC2 {
      SixBits((b[0] as int - 0xC0) * 64 + (b[1] as int - 0x80), b[0] as int - 0xC0, b[1] as int - 0x80);
    }
  }

  /** `str::from_utf8`. */
  function DecodeText(b: seq<byte>): Option<string>
    decreases |b|
  {
    if b == [] then Some("")
    else
      match DecodeFirst(b)
      case None => None
      case Some(c) =>
        DecodedFirst(b);
        match DecodeText(b[|EncodeChar(c)|..])
        case None => None
        case Some(rest) => Some([c] + rest)
  }

  /** A byte string is valid UTF-8, and means `s`, exactly when it is the encoding of `s`. */
  lemma {:induction false} DecodesIff(b: seq<byte>, s: string)
    ensures DecodeText(b) == Some(s) <==> b == EncodeText(s)
    decreases |b| + |s|
  {
    if b == [] {
      assert s != "" ==> |EncodeText(s)| > 0;
    } else if DecodeFirst(b).Some? {
      var c := DecodeFirst(b).value;
      DecodedFirst(b);
      var k := |EncodeChar(c)|;
      assert b == EncodeChar(c) + b[k..];
      if s != "" {
        DecodesIff(b[k..], s[1..]);
        assert s == [s[0]] + s[1..];
        if b == EncodeText(s) {
          EncodedFirst(s[0], EncodeText(s[1..]));
          assert b[k..] == EncodeText(s[1..]);
        }
      }
    } else if s != "" && b == EncodeText(s) {
      EncodedFirst(s[0], EncodeText(s[1..]));
    }
  }

  lemma DecodeOfEncode(s: string)
    ensures DecodeText(EncodeText(s)) == Some(s)
  {
    DecodesIff(EncodeText(s), s);
  }

  predicate IsAscii(s: string) {
    forall i :: 0 <= i < |s| ==> s[i] as int < 0x80
  }

  /** ASCII text is one byte a character. */
  lemma {:induction false} AsciiText(s: string)
    requires IsAscii(s)
    ensures |EncodeText(s)| == |s| && forall i :: 0 <= i < |s| ==> EncodeText(s)[i] as int == s[i] as int
  {
    if s != "" {
      AsciiText(s[1..]);
    }
  }

  lemma {:induction false} EncodeConcat(a: string, b: string)
    ensures EncodeText(a + b) == EncodeText(a) + EncodeText(b)
  {
    if a == "" {
      assert a + b == b;
    } else {
      EncodeConcat(a[1..], b);
      assert (a + b)[1..] == a[1..] + b;
      Regroup(EncodeChar(a[0]), EncodeText(a[1..]), EncodeText(b));
    }
  }

  // ----- Strings ------------------------------------------------------------------------------

  function ToAsciiUppercase(c: char): char {
    if 'a' <= c <= 'z' then c - 'a' + 'A' else c
  }

  /** `char::is_whitespace`, the White_Space property of Unicode. */
  predicate IsWhitespace(c: char) {
    var n := c as int;
    || 0x09 <= n <= 0x0D || n == 0x20 || n == 0x85 || n == 0xA0 || n == 0x1680 || 0x2000 <= n <= 0x200A
    || n == 0x2028 || n == 0x2029 || n == 0x202F || n == 0x205F || n == 0x3000
  }

  function TrimStart(s: string): string {
    if s != "" && IsWhitespace(s[0]) then TrimStart(s[1..]) else s
  }

  function TrimEnd(s: string): string {
    if s != "" && IsWhitespace(s[|s| - 1]) then TrimEnd(s[..|s| - 1]) else s
  }

  /** `str::trim`. */
  function Trim(s: string): string {
    TrimEnd(TrimStart(s))
  }

  lemma NothingToTrim(s: string)
    requires s != "" && !IsWhitespace(s[0]) && !IsWhitespace(s[|s| - 1])
    ensures Trim(s) == s
  {
  }

  predicate IsBlank(s: string) {
    forall i {:trigger s[i]} :: 0 <= i < |s| ==> IsWhitespace(s[i])
  }

  lemma {:induction false} StartIsTrimmed(blank: string, s: string)
    requires IsBlank(blank) && (s != "" ==> !IsWhitespace(s[0]))
    ensures TrimStart(blank + s) == s
  {
    if blank == "" {
      assert blank + s == s;
    } else {
      assert (blank + s)[1..] == blank[1..] + s;
      StartIsTrimmed(blank[1..], s);
    }
  }

  lemma {:induction false} EndIsTrimmed(s: string, blank: string)
    requires IsBlank(blank) && (s != "" ==> !IsWhitespace(s[|s| - 1]))
    ensures TrimEnd(s + blank) == s
    decreases |blank|
  {
    if blank == "" {
      assert s + blank == s;
    } else {
      var fewer := blank[..|blank| - 1];
      assert (s + blank)[..|s + blank| - 1] == s + fewer;
      EndIsTrimmed(s, fewer);
    }
  }

  /** The 25 characters with the White_Space property. */
  lemma WhitespaceIs(c: char)
    ensures IsWhitespace(c) <==> c in {
      '\U{0009}', '\n', '\U{000B}', '\U{000C}', '\r', ' ', '\U{0085}', '\U{00A0}', '\U{1680}',
      '\U{2000}', '\U{2001}', '\U{2002}', '\U{2003}', '\U{2004}', '\U{2005}', '\U{2006}', '\U{2007}',
      '\U{2008}', '\U{2009}', '\U{200A}', '\U{2028}', '\U{2029}', '\U{202F}', '\U{205F}', '\U{3000}'}
  {
  }

  /** Trimming takes the whitespace off both ends, all of it and nothing else. */
  lemma TrimIs(before: string, s: string, after: string)
    requires IsBlank(before) && IsBlank(after)
    requires s != "" ==> !IsWhitespace(s[0]) && !IsWhitespace(s[|s| - 1])
    ensures Trim(before + s + after) == s
  {
    if s == "" {
      StartIsTrimmed(before + after, "");
      assert before + s + after == before + after + "";
    } else {
      assert before + s + after == before + (s + after) && (s + after)[0] == s[0];
      StartIsTrimmed(before, s + after);
      EndIsTrimmed(s, after);
    }
  }
}
