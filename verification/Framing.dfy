/**
 The control plane's framing (core/src/framing.rs; client/src/framing.rs is a copy):
 header lines, a blank line, then `Content-Length` bytes of UTF-8.
 */
module Framing {
  import opened Wrappers
  import opened Bytes
  import opened Numerals
  import opened Text

  const MAX_FRAME_BYTES: nat := 16 * 1024 * 1024
  const MAX_HEADER_BYTES: nat := 8 * 1024
  const NEWLINE: byte := 10

  type Stream = seq<byte>

  // ----- One header line -------------------------------------------------------------------

  /** `trim_end_matches(['\r', '\n'])`. */
  function TrimEol(s: string): string {
    if s != "" && (s[|s| - 1] == '\r' || s[|s| - 1] == '\n') then TrimEol(s[..|s| - 1]) else s
  }

  /** `split_once(':')`. */
  function SplitOnce(s: string): Option<(string, string)> {
    if s == "" then None
    else if s[0] == ':' then Some(("", s[1..]))
    else
      match SplitOnce(s[1..])
      case None => None
      case Some((name, value)) => Some(([s[0]] + name, value))
  }

  predicate EqualsIgnoreCase(a: string, b: string) {
    |a| == |b| && forall i :: 0 <= i < |a| ==> ToAsciiUppercase(a[i]) == ToAsciiUppercase(b[i])
  }

  /** `str::parse::<usize>`: digits behind an optional plus, below 2^64. */
  function ParseUsize(s: string): Option<nat> {
    var digits := if |s| > 1 && s[0] == '+' then s[1..] else s;
    if digits == "" || !AllDigits(digits) then None
    else if Value(digits) >= U64 then None
    else Some(Value(digits))
  }

  datatype Meaning = EndOfHeaders | ContentLength(len: nat) | Ignored | BadLine

  function MeaningOf(line: string): Meaning {
    var text := TrimEol(line);
    if text == "" then EndOfHeaders
    else
      match SplitOnce(text)
      case None => BadLine
      case Some((name, value)) =>
        if !EqualsIgnoreCase(name, "content-length") then Ignored
        else
          var len := ParseUsize(Trim(value));
          if len.None? || len.value > MAX_FRAME_BYTES then BadLine else ContentLength(len.value)
  }

  /** A line that is not UTF-8 is bad as well. */
  function MeaningOfBytes(line: Stream): Meaning {
    match DecodeText(line)
    case None => BadLine
    case Some(text) => MeaningOf(text)
  }

  // ----- Reading ------------------------------------------------------------------------------

  /** The index behind the first newline of the first `k` bytes, or `k`. */
  function LineEnd(stream: Stream, k: nat): (end: nat)
    requires k <= |stream|
    ensures end <= k && (k > 0 ==> end > 0)
    decreases k
  {
    if k == 0 then 0
    else
      var end := LineEnd(stream, k - 1);
      if end > 0 && stream[end - 1] == NEWLINE then end else k
  }

  /** What `take(budget).read_until(b'\n', ..)` takes of the stream. */
  function LineLength(stream: Stream, budget: nat): (n: nat)
    ensures n <= budget && n <= |stream|
    ensures n == 0 <==> budget == 0 || stream == []
  {
    LineEnd(stream, if budget < |stream| then budget else |stream|)
  }

  datatype LineRead = NoLine | BrokenLine(n: nat) | Line(n: nat)

  /** The bounded read of one line, with `used` header bytes behind it; the budget never underflows. */
  function TakeLine(stream: Stream, used: nat): LineRead {
    if used > MAX_HEADER_BYTES then BrokenLine(0)
    else
      var n := LineLength(stream, MAX_HEADER_BYTES - used + 1);
      if n == 0 then NoLine
      else if used + n > MAX_HEADER_BYTES || stream[n - 1] != NEWLINE then BrokenLine(n)
      else Line(n)
  }

  /** `taken` counts the header bytes consumed, on every outcome. */
  datatype Header = NoMore(taken: nat) | BadHeader(taken: nat) | Complete(len: Option<nat>, rest: Stream, taken: nat)

  /** How lines are cut off a stream, and what they mean: all the header loop knows of either. */
  datatype Grammar = Grammar(take: (Stream, nat) -> LineRead, means: Stream -> Meaning)

  predicate Bounded(line: LineRead, stream: Stream, used: nat) {
    match line
    case NoLine => true
    case BrokenLine(n) => n <= |stream| && used + n <= MAX_HEADER_BYTES + 1
    case Line(n) => 0 < n <= |stream| && used + n <= MAX_HEADER_BYTES
  }

  ghost predicate CutsWithin(g: Grammar) {
    forall stream, used: nat :: used <= MAX_HEADER_BYTES ==> Bounded(g.take(stream, used), stream, used)
  }

  /** What a whole line does to the loop: its outcome, or the content length so far. */
  function AfterLine(meaning: Meaning, rest: Stream, used: nat, len: Option<nat>): (Option<Header>, Option<nat>) {
    match meaning
    case BadLine => (Some(BadHeader(used)), len)
    case EndOfHeaders => (Some(Complete(len, rest, used)), len)
    case ContentLength(v) => (None, Some(v))
    case Ignored => (None, len)
  }

  /**
   The header loop. On any bytes at most one byte more than the cap is consumed as header,
   and none that is not there.
   */
  function ReadHeader(g: Grammar, stream: Stream, used: nat, len: Option<nat>): (h: Header)
    requires used <= MAX_HEADER_BYTES && CutsWithin(g)
    ensures used <= h.taken <= MAX_HEADER_BYTES + 1 && h.taken - used <= |stream|
    ensures h.Complete? ==> used < h.taken <= MAX_HEADER_BYTES && h.rest == stream[h.taken - used..]
    decreases |stream|
  {
    var line := g.take(stream, used);
    assert Bounded(line, stream, used);
    match line
    case NoLine => if used == 0 then NoMore(0) else BadHeader(used)
    case BrokenLine(n) => BadHeader(used + n)
    case Line(n) =>
      var (done, next) := AfterLine(g.means(stream[..n]), stream[n..], used + n, len);
      if done.Some? then done.value else ReadHeader(g, stream[n..], used + n, next)
  }

  const FRAMES := Grammar(TakeLine, MeaningOfBytes)

  lemma FramesCutWithin()
    ensures CutsWithin(FRAMES)
  {
  }

  datatype FrameRead = CleanEnd | Refused | Frame(text: string, rest: Stream)

  function ReadBody(len: Option<nat>, stream: Stream): FrameRead {
    if len.None? || |stream| < len.value then Refused
    else
      match DecodeText(stream[..len.value])
      case None => Refused
      case Some(text) => Frame(text, stream[len.value..])
  }

  function ReadFrame(stream: Stream): FrameRead {
    FramesCutWithin();
    match ReadHeader(FRAMES, stream, 0, None)
    case NoMore(_) => CleanEnd
    case BadHeader(_) => Refused
    case Complete(len, rest, _) => ReadBody(len, rest)
  }

  method ReadLine(left: Stream, headerBytes: nat) returns (r: LineRead)
    requires headerBytes <= MAX_HEADER_BYTES
    ensures r == TakeLine(left, headerBytes)
  {
    var budget: nat := MAX_HEADER_BYTES - headerBytes + 1;
    var n := LineLength(left, budget);
    if n == 0 {
      return NoLine;
    }
    if headerBytes + n > MAX_HEADER_BYTES {
      return BrokenLine(n);
    }
    if left[n - 1] != NEWLINE {
      return BrokenLine(n);
    }
    r := Line(n);
  }

  /** The header loop of `read_frame`: it ends on every stream. */
  method ReadHeaderLoop(g: Grammar, stream: Stream) returns (h: Header)
    requires CutsWithin(g)
    ensures h == ReadHeader(g, stream, 0, None)
  {
    var left := stream;
    var headerBytes: nat := 0;
    var contentLength: Option<nat> := None;
    var line := g.take(left, headerBytes);
    ghost var whole := ReadHeader(g, stream, 0, None);
    while line.Line?
      invariant headerBytes <= MAX_HEADER_BYTES && line == g.take(left, headerBytes)
      invariant ReadHeader(g, left, headerBytes, contentLength) == whole
      decreases |left|
    {
      assert Bounded(line, left, headerBytes);
      var meaning := g.means(left[..line.n]);
      headerBytes, left := headerBytes + line.n, left[line.n..];
      var (done, next) := AfterLine(meaning, left, headerBytes, contentLength);
      if done.Some? {
        return done.value;
      }
      contentLength := next;
      line := g.take(left, headerBytes);
    }
    h := if line.BrokenLine? then BadHeader(headerBytes + line.n)
      else if headerBytes == 0 then NoMore(0) else BadHeader(headerBytes);
  }

  /** `read_frame`. */
  method ReadOneFrame(stream: Stream) returns (r: FrameRead)
    ensures r == ReadFrame(stream)
  {
    FramesCutWithin();
    var h := ReadHeaderLoop(FRAMES, stream);
    match h {
      case NoMore(_) => r := CleanEnd;
      case BadHeader(_) => r := Refused;
      case Complete(len, rest, _) =>
        r := Refused;
        if len.Some? && len.value <= |rest| {
          var text := DecodeText(rest[..len.value]);
          r := if text.None? then Refused else Frame(text.value, rest[len.value..]);
        }
    }
  }

  // ----- Writing -------------------------------------------------------------------------------

  const NAME := "Content-Length"

  function HeaderLine(n: nat): string {
    NAME + ":" + (" " + Decimal(n)) + "\r\n"
  }

  /** `encode`. */
  function Encode(text: string): Stream {
    EncodeText(HeaderLine(|EncodeText(text)|)) + EncodeText("\r\n") + EncodeText(text)
  }

  lemma {:induction false} SplitAtColon(name: string, value: string)
    requires ':' !in name
    ensures SplitOnce(name + ":" + value) == Some((name, value))
  {
    var s := name + ":" + value;
    if name == "" {
      assert s[1..] == value;
    } else {
      assert s[1..] == name[1..] + ":" + value;
      SplitAtColon(name[1..], value);
      assert name[0] in name && [name[0]] + name[1..] == name;
    }
  }

  lemma EolTrimmed(s: string)
    requires s != "" && s[|s| - 1] != '\r' && s[|s| - 1] != '\n'
    ensures TrimEol(s + "\r\n") == s
  {
    var one, two := s + "\r", s + "\r\n";
    assert two[..|two| - 1] == one && two[|two| - 1] == '\n';
    assert one[..|one| - 1] == s && one[|one| - 1] == '\r';
    assert TrimEol(one) == TrimEol(s) == s;
  }

  lemma DigitIsPlain(c: char)
    requires IsDigit(c)
    ensures !IsWhitespace(c) && c != '\r' && c != '\n' && c != '+' && c as int < 0x80 && c != ':'
  {
  }

  lemma NumberTrims(n: nat)
    ensures Trim(" " + Decimal(n)) == Decimal(n)
    ensures ParseUsize(Decimal(n)) == if n < U64 then Some(n) else None
  {
    var d := Decimal(n);
    DecimalReadsBack(n);
    assert d[0] in d && d[|d| - 1] in d;
    DigitIsPlain(d[0]);
    DigitIsPlain(d[|d| - 1]);
    assert (" " + d)[1..] == d;
    assert TrimStart(" " + d) == d;
    NothingToTrim(d);
  }

  lemma NameIsContentLength()
    ensures ':' !in NAME && EqualsIgnoreCase(NAME, "content-length") && IsAscii(NAME)
    ensures forall i :: 0 <= i < |NAME| ==> NAME[i] != '\n'
  {
  }

  lemma HeaderMeans(n: nat)
    ensures MeaningOf(HeaderLine(n)) == if n <= MAX_FRAME_BYTES then ContentLength(n) else BadLine
  {
    var value := " " + Decimal(n);
    DecimalReadsBack(n);
    var last := Decimal(n)[|Decimal(n)| - 1];
    assert last in Decimal(n);
    DigitIsPlain(last);
    EolTrimmed(NAME + ":" + value);
    NameIsContentLength();
    SplitAtColon(NAME, value);
    NumberTrims(n);
  }

  predicate IsLine(line: string) {
    && IsAscii(line) && line != "" && line[|line| - 1] == '\n'
    && forall i :: 0 <= i < |line| - 1 ==> line[i] != '\n'
  }

  lemma {:induction false} LineEndIs(stream: Stream, k: nat, m: nat)
    requires m < |stream| && stream[m] == NEWLINE && k <= |stream|
    requires forall j :: 0 <= j < m ==> stream[j] != NEWLINE
    ensures LineEnd(stream, k) == if m < k then m + 1 else k
    decreases k
  {
    if k > 0 {
      LineEndIs(stream, k - 1, m);
    }
  }

  predicate IsByteLine(bytes: Stream) {
    bytes != [] && bytes[|bytes| - 1] == NEWLINE && forall j :: 0 <= j < |bytes| - 1 ==> bytes[j] != NEWLINE
  }

  lemma AsciiLine(line: string)
    requires IsLine(line)
    ensures |EncodeText(line)| == |line| && IsByteLine(EncodeText(line))
  {
    AsciiText(line);
  }

  /** A line that ends at its only newline is taken whole when it fits the budget. */
  lemma LineIsTaken(bytes: Stream, rest: Stream, used: nat)
    requires IsByteLine(bytes) && used <= MAX_HEADER_BYTES
    ensures TakeLine(bytes + rest, used) ==
      if used + |bytes| > MAX_HEADER_BYTES then BrokenLine(MAX_HEADER_BYTES - used + 1) else Line(|bytes|)
  {
    var stream, last := bytes + rest, |bytes| - 1;
    var budget := MAX_HEADER_BYTES - used + 1;
    assert stream[last] == NEWLINE;
    forall j | 0 <= j < last ensures stream[j] != NEWLINE {
      assert stream[j] == bytes[j];
    }
    LineEndIs(stream, if budget < |stream| then budget else |stream|, last);
  }

  lemma HeaderIsALine(n: nat)
    ensures IsLine(HeaderLine(n))
  {
    var line, d := HeaderLine(n), Decimal(n);
    NameIsContentLength();
    DecimalReadsBack(n);
    forall i | 0 <= i < |line| ensures line[i] as int < 0x80 && (i < |line| - 1 ==> line[i] != '\n') {
      var k := i - |NAME| - 2;
      if i < |NAME| {
        assert line[i] == NAME[i];
      } else if 0 <= k < |d| {
        assert line[i] == d[k] && d[k] in d;
        DigitIsPlain(d[k]);
      }
    }
  }

  lemma {:induction false} DecimalLength(n: nat, digits: nat, bound: nat)
    requires digits > 0 && bound == TenTo(digits) && n < bound
    ensures |Decimal(n)| <= digits
    decreases digits
  {
    if n >= 10 {
      DecimalLength(n / 10, digits - 1, TenTo(digits - 1));
    }
  }

  function TenTo(k: nat): nat {
    if k == 0 then 1 else 10 * TenTo(k - 1)
  }

  lemma ShortHeader(n: nat)
    requires n <= MAX_FRAME_BYTES
    ensures |HeaderLine(n)| <= 26
  {
    assert TenTo(2) == 100;
    assert TenTo(4) == 100 * TenTo(2);
    assert TenTo(8) == 1_0000 * TenTo(4);
    DecimalLength(n, 8, TenTo(8));
  }

  /** One line of the header, taken off an encoded stream. */
  lemma LineIsRead(line: string, rest: Stream, used: nat)
    requires IsLine(line) && used <= MAX_HEADER_BYTES
    ensures |EncodeText(line)| == |line| && MeaningOfBytes(EncodeText(line)) == MeaningOf(line)
    ensures TakeLine(EncodeText(line) + rest, used) ==
      if used + |line| > MAX_HEADER_BYTES then BrokenLine(MAX_HEADER_BYTES - used + 1) else Line(|line|)
  {
    AsciiLine(line);
    LineIsTaken(EncodeText(line), rest, used);
    DecodeOfEncode(line);
  }

  lemma FrontAndRest(bytes: Stream, rest: Stream)
    ensures (bytes + rest)[..|bytes|] == bytes && (bytes + rest)[|bytes|..] == rest
  {
  }

  lemma BlankLine()
    ensures IsLine("\r\n") && MeaningOf("\r\n") == EndOfHeaders
  {
    var none, one, two := "", "\r", "\r\n";
    assert two[..|two| - 1] == one && two[|two| - 1] == '\n';
    assert one[..|one| - 1] == none && one[|one| - 1] == '\r';
    assert TrimEol(two) == TrimEol(one) == TrimEol(none) == none;
  }

  lemma FrameSplits(line: Stream, blank: Stream, body: Stream, rest: Stream)
    ensures line + blank + body + rest == line + (blank + (body + rest))
  {
  }

  /** The header of an encoded frame, read back. */
  lemma HeaderReadsBack(n: nat, tail: Stream)
    ensures CutsWithin(FRAMES)
    ensures var h := ReadHeader(FRAMES, EncodeText(HeaderLine(n)) + (EncodeText("\r\n") + tail), 0, None);
      if n <= MAX_FRAME_BYTES then h.Complete? && h.len == Some(n) && h.rest == tail else h.BadHeader?
  {
    var line, blank := HeaderLine(n), EncodeText("\r\n");
    FramesCutWithin();
    HeaderIsALine(n);
    HeaderMeans(n);
    LineIsRead(line, blank + tail, 0);
    FrontAndRest(EncodeText(line), blank + tail);
    if n <= MAX_FRAME_BYTES {
      ShortHeader(n);
      BlankLine();
      LineIsRead("\r\n", tail, |line|);
      FrontAndRest(blank, tail);
    }
  }

  lemma BodyReads(body: Stream, rest: Stream, text: string)
    requires DecodeText(body) == Some(text)
    ensures ReadBody(Some(|body|), body + rest) == Frame(text, rest)
  {
    FrontAndRest(body, rest);
  }

  /** An encoded frame is read back, with exactly the rest left over, if and only if the text is within the cap. */
  lemma FrameReadsBackIff(text: string, rest: Stream)
    ensures ReadFrame(Encode(text) + rest)
      == if |EncodeText(text)| <= MAX_FRAME_BYTES then Frame(text, rest) else Refused
  {
    var body := EncodeText(text);
    var line, blank := EncodeText(HeaderLine(|body|)), EncodeText("\r\n");
    FrameSplits(line, blank, body, rest);
    HeaderReadsBack(|body|, body + rest);
    DecodeOfEncode(text);
    BodyReads(body, rest, text);
  }

  // ----- Streams of frames ----------------------------------------------------------------------

  function EncodeAll(texts: seq<string>): Stream {
    if texts == [] then [] else Encode(texts[0]) + EncodeAll(texts[1..])
  }

  lemma FrameIsShorter(stream: Stream)
    requires ReadFrame(stream).Frame?
    ensures |ReadFrame(stream).rest| < |stream|
  {
  }

  /** Every frame up to the end of the stream, and whether that end is clean. */
  function ReadAll(stream: Stream): (seq<string>, bool)
    decreases |stream|
  {
    match ReadFrame(stream)
    case CleanEnd => ([], true)
    case Refused => ([], false)
    case Frame(text, rest) =>
      FrameIsShorter(stream);
      var (texts, clean) := ReadAll(rest);
      ([text] + texts, clean)
  }

  lemma FirstFrame(text: string, rest: Stream)
    requires |EncodeText(text)| <= MAX_FRAME_BYTES
    ensures ReadAll(Encode(text) + rest) == ([text] + ReadAll(rest).0, ReadAll(rest).1)
  {
    FrameReadsBackIff(text, rest);
  }

  /** Any concatenation of frames within the cap decodes to its list and a clean end. */
  lemma {:induction false} FramesReadBack(texts: seq<string>)
    requires forall i :: 0 <= i < |texts| ==> |EncodeText(texts[i])| <= MAX_FRAME_BYTES
    ensures ReadAll(EncodeAll(texts)) == (texts, true)
    decreases texts
  {
    if texts != [] {
      FramesReadBack(texts[1..]);
      FirstFrame(texts[0], EncodeAll(texts[1..]));
      assert [texts[0]] + texts[1..] == texts;
    }
  }
}
