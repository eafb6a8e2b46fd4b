/**
 Frames as other writers may write them (core/src/framing.rs): further header lines, either
 line ending, any case of the name, and streams that stop anywhere.
 */
module FrameHeaders {
  import opened Wrappers
  import opened Bytes
  import opened Numerals
  import opened Text
  import opened Framing

  // ----- One header line -----------------------------------------------------------------

  /** A carriage return may stand before the line feed, or not. */
  predicate IsEol(eol: string) {
    eol == "\r\n" || eol == "\n"
  }

  /** The lower and the upper case of one ASCII letter. */
  predicate AreCases(lower: char, upper: char) {
    'a' <= lower <= 'z' && upper as int == lower as int - 32
  }

  lemma UppercaseIff(c: char, d: char)
    ensures ToAsciiUppercase(c) == ToAsciiUppercase(d) <==> c == d || AreCases(c, d) || AreCases(d, c)
  {
    assert ToAsciiUppercase(c) as int == if 'a' <= c <= 'z' then c as int - 32 else c as int;
    assert ToAsciiUppercase(d) as int == if 'a' <= d <= 'z' then d as int - 32 else d as int;
  }

  /** Names are compared letter by letter, in either case, from the first to the last. */
  lemma EqualsIgnoreCaseIff(c: char, a: string, d: char, b: string)
    ensures EqualsIgnoreCase([c] + a, [d] + b) <==>
      (c == d || AreCases(c, d) || AreCases(d, c)) && EqualsIgnoreCase(a, b)
    ensures EqualsIgnoreCase("", "") && !EqualsIgnoreCase("", [d] + b) && !EqualsIgnoreCase([c] + a, "")
  {
    UppercaseIff(c, d);
    ShiftedEquals([c] + a, a, [d] + b, b);
  }

  lemma ShiftedEquals(s: string, a: string, t: string, b: string)
    requires |s| == |a| + 1 && a == s[1..] && |t| == |b| + 1 && b == t[1..]
    ensures EqualsIgnoreCase(s, t) <==> ToAsciiUppercase(s[0]) == ToAsciiUppercase(t[0]) && EqualsIgnoreCase(a, b)
  {
    if EqualsIgnoreCase(s, t) {
      forall i | 0 <= i < |a| ensures ToAsciiUppercase(a[i]) == ToAsciiUppercase(b[i]) {
        assert a[i] == s[i + 1] && b[i] == t[i + 1];
      }
    }
    if ToAsciiUppercase(s[0]) == ToAsciiUppercase(t[0]) && EqualsIgnoreCase(a, b) {
      forall i | 0 <= i < |s| ensures ToAsciiUppercase(s[i]) == ToAsciiUppercase(t[i]) {
        assert i > 0 ==> s[i] == a[i - 1] && t[i] == b[i - 1];
      }
    }
  }

  lemma TrimsEol(s: string, eol: string)
    requires IsEol(eol) && (s != "" ==> s[|s| - 1] != '\r' && s[|s| - 1] != '\n')
    ensures TrimEol(s + eol) == s
  {
    var one, two := s + "\r", s + "\r\n";
    if eol == "\r\n" {
      assert two[..|two| - 1] == one && two[|two| - 1] == '\n';
      assert one[..|one| - 1] == s && one[|one| - 1] == '\r';
      assert TrimEol(one) == TrimEol(s) == s;
    } else {
      var line := s + "\n";
      assert line[..|line| - 1] == s && line[|line| - 1] == '\n';
      assert TrimEol(s) == s;
    }
  }

  /**
   A line of a name and a value means a content length if that is its name in any case, as
   far as the value is a number within the cap, and is passed over otherwise.
   */
  lemma NamedLineMeans(name: string, value: string, eol: string)
    requires ':' !in name && IsEol(eol)
    requires value != "" ==> value[|value| - 1] != '\r' && value[|value| - 1] != '\n'
    ensures MeaningOf(name + ":" + value + eol) ==
      if !EqualsIgnoreCase(name, "content-length") then Ignored
      else var len := ParseUsize(Trim(value));
        if len.Some? && len.value <= MAX_FRAME_BYTES then ContentLength(len.value) else BadLine
  {
    var text := name + ":" + value;
    assert value != "" ==> text[|text| - 1] == value[|value| - 1];
    TrimsEol(text, eol);
    SplitAtColon(name, value);
  }

  /** A number is read from any digits, leading zeros and one plus sign included, as long as it is below 2^64. */
  lemma DigitsMean(digits: string)
    requires digits != "" && AllDigits(digits)
    ensures ParseUsize(digits) == if Value(digits) < U64 then Some(Value(digits)) else None
    ensures ParseUsize("+" + digits) == ParseUsize(digits)
  {
    assert digits[0] in digits && !IsDigit('+');
    assert ("+" + digits)[1..] == digits;
  }

  lemma OthersAreNoNumbers(text: string)
    requires !AllDigits(text) && (text != "" ==> text[0] != '+')
    ensures ParseUsize(text) == None && ParseUsize("") == None && ParseUsize("+") == None
  {
    assert !IsDigit('+') && '+' in "+";
  }

  /** A line that has no colon is bad, and one that has nothing at all ends the headers. */
  lemma BareLineMeans(text: string, eol: string)
    requires ':' !in text && IsEol(eol)
    requires text != "" ==> text[|text| - 1] != '\r' && text[|text| - 1] != '\n'
    ensures MeaningOf(text + eol) == if text == "" then EndOfHeaders else BadLine
  {
    TrimsEol(text, eol);
    NoColonNoSplit(text);
  }

  lemma {:induction false} NoColonNoSplit(text: string)
    requires ':' !in text
    ensures SplitOnce(text) == None
  {
    if text != "" {
      assert text[0] in text;
      NoColonNoSplit(text[1..]);
    }
  }

  // ----- All the headers ---------------------------------------------------------------------

  /** Header lines that neither fail nor end the headers. */
  predicate AreHeaders(lines: seq<string>) {
    forall i {:trigger lines[i]} :: 0 <= i < |lines| ==>
      IsLine(lines[i]) && (MeaningOf(lines[i]).ContentLength? || MeaningOf(lines[i]).Ignored?)
  }

  function Written(lines: seq<string>): Stream {
    if lines == [] then [] else EncodeText(lines[0]) + Written(lines[1..])
  }

  function Length(lines: seq<string>): nat {
    if lines == [] then 0 else |lines[0]| + Length(lines[1..])
  }

  /** The last content length they state. */
  function LastLength(lines: seq<string>, len: Option<nat>): Option<nat>
    decreases lines
  {
    if lines == [] then len
    else LastLength(lines[1..], LengthAfter(MeaningOf(lines[0]), len))
  }

  lemma BlankIsALine(eol: string)
    requires IsEol(eol)
    ensures IsLine(eol) && MeaningOf(eol) == EndOfHeaders
  {
    BareLineMeans("", eol);
    assert "" + eol == eol;
  }

  lemma EndIsRead(eol: string, rest: Stream, used: nat, len: Option<nat>)
    requires IsEol(eol) && used + |eol| <= MAX_HEADER_BYTES && CutsWithin(FRAMES)
    ensures ReadHeader(FRAMES, EncodeText(eol) + rest, used, len) == Complete(len, rest, used + |eol|)
  {
    BlankIsALine(eol);
    LineIsRead(eol, rest, used);
    FrontAndRest(EncodeText(eol), rest);
  }

  function LengthAfter(meaning: Meaning, len: Option<nat>): Option<nat> {
    if meaning.ContentLength? then Some(meaning.len) else len
  }

  /** One whole line that neither fails nor ends the headers. */
  lemma OneLineRead(g: Grammar, stream: Stream, rest: Stream, used: nat, len: Option<nat>, n: nat, next: nat)
    requires CutsWithin(g) && used <= MAX_HEADER_BYTES && g.take(stream, used) == Line(n)
    requires next == used + n && n <= |stream| && rest == stream[n..] && next <= MAX_HEADER_BYTES
    requires g.means(stream[..n]).ContentLength? || g.means(stream[..n]).Ignored?
    ensures ReadHeader(g, stream, used, len) == ReadHeader(g, rest, next, LengthAfter(g.means(stream[..n]), len))
  {
    assert Bounded(g.take(stream, used), stream, used);
  }

  lemma HeaderIsRead(line: string, rest: Stream, used: nat, len: Option<nat>, next: nat)
    requires IsLine(line) && next == used + |line| && next <= MAX_HEADER_BYTES && CutsWithin(FRAMES)
    requires MeaningOf(line).ContentLength? || MeaningOf(line).Ignored?
    ensures ReadHeader(FRAMES, EncodeText(line) + rest, used, len)
      == ReadHeader(FRAMES, rest, next, LengthAfter(MeaningOf(line), len))
  {
    LineIsRead(line, rest, used);
    FrontAndRest(EncodeText(line), rest);
    OneLineRead(FRAMES, EncodeText(line) + rest, rest, used, len, |line|, next);
  }

  /** Any header lines within the cap are read through, and the last content length counts. */
  lemma {:induction false} HeadersAreRead(lines: seq<string>, eol: string, rest: Stream, used: nat, len: Option<nat>)
    requires AreHeaders(lines) && IsEol(eol) && CutsWithin(FRAMES)
    requires used + Length(lines) + |eol| <= MAX_HEADER_BYTES
    ensures ReadHeader(FRAMES, Written(lines) + (EncodeText(eol) + rest), used, len)
      == Complete(LastLength(lines, len), rest, used + Length(lines) + |eol|)
    decreases lines
  {
    if lines == [] {
      EndIsRead(eol, rest, used, len);
      assert Written(lines) + (EncodeText(eol) + rest) == EncodeText(eol) + rest;
    } else {
      var line, next := lines[0], used + |lines[0]|;
      var tail := Written(lines[1..]) + (EncodeText(eol) + rest);
      Regroup(EncodeText(line), Written(lines[1..]), EncodeText(eol) + rest);
      HeaderIsRead(line, tail, used, len, next);
      HeadersAreRead(lines[1..], eol, rest, next, LengthAfter(MeaningOf(line), len));
    }
  }

  /**
   A frame is read whatever other headers it has, in either line ending, as long as they are
   within the cap: its text is as long as the last content length says, and a frame without
   one is refused.
   */
  lemma FrameWithHeaders(lines: seq<string>, eol: string, text: string, rest: Stream)
    requires AreHeaders(lines) && IsEol(eol) && Length(lines) + |eol| <= MAX_HEADER_BYTES
    requires LastLength(lines, None).Some? ==> LastLength(lines, None).value == |EncodeText(text)|
    ensures ReadFrame(Written(lines) + (EncodeText(eol) + (EncodeText(text) + rest)))
      == if LastLength(lines, None).Some? then Frame(text, rest) else Refused
  {
    FramesCutWithin();
    HeadersAreRead(lines, eol, EncodeText(text) + rest, 0, None);
    DecodeOfEncode(text);
    BodyReads(EncodeText(text), rest, text);
  }

  // ----- Streams that stop ----------------------------------------------------------------------

  lemma {:induction false} StartedIsNotClean(g: Grammar, stream: Stream, used: nat, len: Option<nat>)
    requires 0 < used <= MAX_HEADER_BYTES && CutsWithin(g)
    ensures !ReadHeader(g, stream, used, len).NoMore?
    decreases |stream|
  {
    var line := g.take(stream, used);
    assert Bounded(line, stream, used);
    if line.Line? {
      var (done, next) := AfterLine(g.means(stream[..line.n]), stream[line.n..], used + line.n, len);
      if done.None? {
        StartedIsNotClean(g, stream[line.n..], used + line.n, next);
      }
    }
  }

  lemma CleanHeaderIff(g: Grammar, stream: Stream)
    requires CutsWithin(g)
    ensures ReadHeader(g, stream, 0, None).NoMore? <==> g.take(stream, 0).NoLine?
  {
    var line := g.take(stream, 0);
    assert Bounded(line, stream, 0);
    if line.Line? {
      var (done, next) := AfterLine(g.means(stream[..line.n]), stream[line.n..], line.n, None);
      if done.None? {
        StartedIsNotClean(g, stream[line.n..], line.n, next);
      }
    }
  }

  /** A stream ends cleanly only between frames: when nothing at all is left of it. */
  lemma CleanEndIff(stream: Stream)
    ensures ReadFrame(stream) == CleanEnd <==> stream == []
  {
    FramesCutWithin();
    CleanHeaderIff(FRAMES, stream);
    assert TakeLine(stream, 0).NoLine? <==> stream == [];
  }

  lemma NoLineYet(stream: Stream, used: nat, len: Option<nat>)
    requires CutsWithin(FRAMES) && 0 < used <= MAX_HEADER_BYTES && NEWLINE !in stream
    ensures ReadHeader(FRAMES, stream, used, len).BadHeader?
  {
    if stream != [] {
      var n := LineLength(stream, MAX_HEADER_BYTES - used + 1);
      assert stream[n - 1] in stream;
    }
  }

  lemma NoFirstLine(stream: Stream)
    requires stream != [] && NEWLINE !in stream
    ensures ReadFrame(stream) == Refused
  {
    FramesCutWithin();
    var n := LineLength(stream, MAX_HEADER_BYTES + 1);
    assert stream[n - 1] in stream;
  }

  lemma CutLine(line: Stream, k: nat)
    requires IsByteLine(line) && k < |line|
    ensures NEWLINE !in line[..k]
  {
  }

  /** Behind the first line: part of the blank one, or all of it and part of the body. */
  lemma CutBehindLine(n: nat, left: Stream, used: nat)
    requires CutsWithin(FRAMES) && 0 < used && used + 2 <= MAX_HEADER_BYTES
    requires |left| < |EncodeText("\r\n")| && left == EncodeText("\r\n")[..|left|]
    ensures ReadHeader(FRAMES, left, used, Some(n)).BadHeader?
  {
    BlankLine();
    AsciiLine("\r\n");
    CutLine(EncodeText("\r\n"), |left|);
    NoLineYet(left, used, Some(n));
  }

  lemma HeaderLineIsRead(n: nat, left: Stream, used: nat)
    requires CutsWithin(FRAMES) && used == |HeaderLine(n)|
    ensures n <= MAX_FRAME_BYTES ==> 0 < used <= 26
    ensures n <= MAX_FRAME_BYTES ==>
      ReadHeader(FRAMES, EncodeText(HeaderLine(n)) + left, 0, None) == ReadHeader(FRAMES, left, used, Some(n))
    ensures n > MAX_FRAME_BYTES ==> ReadHeader(FRAMES, EncodeText(HeaderLine(n)) + left, 0, None).BadHeader?
  {
    HeaderIsALine(n);
    HeaderMeans(n);
    if n <= MAX_FRAME_BYTES {
      ShortHeader(n);
      HeaderIsRead(HeaderLine(n), left, 0, None, used);
    } else {
      LineIsRead(HeaderLine(n), left, 0);
      FrontAndRest(EncodeText(HeaderLine(n)), left);
    }
  }

  /** The line, and less than the blank line and the body behind it. */
  lemma CutRestIsRefused(n: nat, left: Stream, body: Stream)
    requires n == |body| && |left| < 2 + n && left <= EncodeText("\r\n") + body
    ensures ReadFrame(EncodeText(HeaderLine(n)) + left) == Refused
  {
    FramesCutWithin();
    BlankLine();
    AsciiLine("\r\n");
    var blank, used := EncodeText("\r\n"), |HeaderLine(n)|;
    HeaderLineIsRead(n, left, used);
    if n <= MAX_FRAME_BYTES {
      if |left| < 2 {
        assert left == blank[..|left|];
        CutBehindLine(n, left, used);
      } else {
        var rest := body[..|left| - 2];
        assert left == blank + rest;
        EndIsRead("\r\n", rest, used, Some(n));
      }
    }
  }

  lemma CutSplits(line: Stream, blank: Stream, body: Stream, k: nat)
    requires |line| <= k < |line + blank + body|
    ensures (line + blank + body)[..k] == line + (blank + body)[..k - |line|]
  {
  }

  /** A frame cut short anywhere is refused, never taken for a shorter one. */
  lemma CutFrameIsRefused(text: string, k: nat)
    requires 0 < k < |Encode(text)|
    ensures ReadFrame(Encode(text)[..k]) == Refused
  {
    var body := EncodeText(text);
    var line, blank := EncodeText(HeaderLine(|body|)), EncodeText("\r\n");
    HeaderIsALine(|body|);
    BlankLine();
    AsciiLine(HeaderLine(|body|));
    AsciiLine("\r\n");
    if k < |line| {
      assert Encode(text)[..k] == line[..k];
      CutLine(line, k);
      NoFirstLine(line[..k]);
    } else {
      CutSplits(line, blank, body, k);
      CutRestIsRefused(|body|, (blank + body)[..k - |line|], body);
    }
  }

  /** So a stream that stops inside a frame yields the frames before it, and no clean end. */
  lemma {:induction false} CutStreamIsNotClean(texts: seq<string>, last: string, k: nat)
    requires forall i :: 0 <= i < |texts| ==> |EncodeText(texts[i])| <= MAX_FRAME_BYTES
    requires 0 < k < |Encode(last)|
    ensures ReadAll(EncodeAll(texts) + Encode(last)[..k]) == (texts, false)
    decreases texts
  {
    CutFrameIsRefused(last, k);
    var cut := Encode(last)[..k];
    if texts == [] {
      assert EncodeAll(texts) + cut == cut;
    } else {
      CutStreamIsNotClean(texts[1..], last, k);
      FirstFrame(texts[0], EncodeAll(texts[1..]) + cut);
      Regroup(Encode(texts[0]), EncodeAll(texts[1..]), cut);
      assert [texts[0]] + texts[1..] == texts;
    }
  }
}
