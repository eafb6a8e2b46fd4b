/**
 Percent-encoding (section 2.1 of RFC 3986), `file://` URIs and the two clipboard lists of
 them, `text/uri-list` (section 5 of RFC 2483) and `x-special/…-copied-files`
 (clipboard/src/files.rs).

 A path is its bytes.
 */
module UriLists {
  import opened Wrappers
  import opened Bytes
  import opened Text

  type Path = seq<byte>

  const PERCENT: byte := 0x25
  const SLASH: byte := 0x2F

  // ----- Percent-encoding ----------------------------------------------------------------

  predicate IsUnreserved(b: byte) {
    || 0x30 <= b <= 0x39 || 0x41 <= b <= 0x5A || 0x61 <= b <= 0x7A
    || b == 0x2D || b == 0x2E || b == 0x5F || b == 0x7E || b == SLASH
  }

  function UpperHex(d: nat): char
    requires d < 16
  {
    if d < 10 then '0' + d as char else 'A' + (d - 10) as char
  }

  function EncodeByte(b: byte): string {
    if IsUnreserved(b) then [b as char] else ['%', UpperHex(b as nat / 16), UpperHex(b as nat % 16)]
  }

  function PercentEncode(bytes: seq<byte>): string {
    if bytes == [] then "" else PercentEncode(bytes[..|bytes| - 1]) + EncodeByte(bytes[|bytes| - 1])
  }

  method PercentEncodeLoop(bytes: seq<byte>) returns (out: string)
    ensures out == PercentEncode(bytes)
  {
    out := "";
    var i := 0;
    while i < |bytes|
      invariant i <= |bytes| && out == PercentEncode(bytes[..i])
    {
      var b := bytes[i];
      assert bytes[..i + 1][..i] == bytes[..i];
      if IsUnreserved(b) {
        out := out + [b as char];
      } else {
        out := out + ['%', UpperHex(b as nat / 16), UpperHex(b as nat % 16)];
      }
      i := i + 1;
    }
    assert bytes[..i] == bytes;
  }

  /** `char::to_digit(16)` of a byte. */
  function HexValue(b: byte): Option<nat> {
    if 0x30 <= b <= 0x39 then Some(b as nat - 0x30)
    else if 0x41 <= b <= 0x46 then Some(b as nat - 0x41 + 10)
    else if 0x61 <= b <= 0x66 then Some(b as nat - 0x61 + 10)
    else None
  }

  /** A whole `%XX` decodes to a byte; anything else is left literal. */
  function Escape(a: byte, b: byte, c: byte): Option<byte> {
    if a != PERCENT || HexValue(b).None? || HexValue(c).None? then None
    else HexIsSmall(b); HexIsSmall(c); Some((HexValue(b).value * 16 + HexValue(c).value) as byte)
  }

  lemma HexIsSmall(b: byte)
    ensures HexValue(b).Some? ==> HexValue(b).value < 16
  {
  }

  function PercentDecode(b: seq<byte>): seq<byte> {
    if b == [] then []
    else if |b| > 2 && Escape(b[0], b[1], b[2]).Some? then [Escape(b[0], b[1], b[2]).value] + PercentDecode(b[3..])
    else [b[0]] + PercentDecode(b[1..])
  }

  method PercentDecodeLoop(b: seq<byte>) returns (out: seq<byte>)
    ensures out == PercentDecode(b)
  {
    out := [];
    var i := 0;
    while i < |b|
      invariant i <= |b| && out + PercentDecode(b[i..]) == PercentDecode(b)
    {
      DecodeFrom(b, i, out);
      if b[i] == PERCENT && i + 2 < |b| && HexValue(b[i + 1]).Some? && HexValue(b[i + 2]).Some? {
        out := out + [Escape(b[i], b[i + 1], b[i + 2]).value];
        i := i + 3;
      } else {
        out := out + [b[i]];
        i := i + 1;
      }
    }
  }

  lemma DecodeFrom(b: seq<byte>, i: nat, out: seq<byte>)
    requires i < |b|
    ensures out + PercentDecode(b[i..]) ==
      if i + 2 < |b| && Escape(b[i], b[i + 1], b[i + 2]).Some?
      then out + [Escape(b[i], b[i + 1], b[i + 2]).value] + PercentDecode(b[i + 3..])
      else out + [b[i]] + PercentDecode(b[i + 1..])
  {
    var s := b[i..];
    if i + 2 < |b| {
      assert s[0] == b[i] && s[1] == b[i + 1] && s[2] == b[i + 2] && s[3..] == b[i + 3..];
    }
    assert s[0] == b[i] && s[1..] == b[i + 1..];
  }

  // ----- Decoding inverts encoding -----------------------------------------------------------

  lemma EncodedByteIsPlain(b: byte)
    ensures IsPlain(EncodeByte(b)) && IsAscii(EncodeByte(b)) && EncodeByte(b) != ""
  {
    assert b as nat / 16 < 16;
  }

  /** What percent-encoding never writes: whitespace, a line ending, a comment sign. */
  predicate IsPlain(s: string) {
    forall i {:trigger s[i]} :: 0 <= i < |s| ==> !IsWhitespace(s[i]) && s[i] != '#' && s[i] != '\n'
  }

  lemma {:induction false} EncodedIsPlain(bytes: seq<byte>)
    ensures IsPlain(PercentEncode(bytes)) && IsAscii(PercentEncode(bytes))
  {
    if bytes != [] {
      EncodedIsPlain(bytes[..|bytes| - 1]);
      EncodedByteIsPlain(bytes[|bytes| - 1]);
    }
  }

  /** One encoded byte, decoded in front of anything. */
  lemma ByteDecodes(b: byte, rest: seq<byte>)
    ensures PercentDecode(EncodeText(EncodeByte(b)) + rest) == [b] + PercentDecode(rest)
  {
    var s := EncodeByte(b);
    var e := EncodeText(s);
    EncodedByteIsPlain(b);
    AsciiText(s);
    if IsUnreserved(b) {
      assert e == [b];
      UnreservedDecodes(b, rest);
    } else {
      var hi, lo := e[1], e[2];
      assert e == [PERCENT, hi, lo];
      HexReadsBack(b as nat / 16, hi);
      HexReadsBack(b as nat % 16, lo);
      EscapeDecodes(hi, lo, rest);
    }
  }

  lemma UnreservedDecodes(b: byte, rest: seq<byte>)
    requires b != PERCENT
    ensures PercentDecode([b] + rest) == [b] + PercentDecode(rest)
  {
    assert ([b] + rest)[1..] == rest;
  }

  lemma EscapeDecodes(hi: byte, lo: byte, rest: seq<byte>)
    requires Escape(PERCENT, hi, lo).Some?
    ensures PercentDecode([PERCENT, hi, lo] + rest) == [Escape(PERCENT, hi, lo).value] + PercentDecode(rest)
  {
    assert ([PERCENT, hi, lo] + rest)[3..] == rest;
  }

  lemma HexReadsBack(d: nat, b: byte)
    requires d < 16 && b as int == UpperHex(d) as int
    ensures HexValue(b) == Some(d)
  {
  }

  lemma {:induction false} EncodeFirst(bytes: seq<byte>)
    requires bytes != []
    ensures PercentEncode(bytes) == EncodeByte(bytes[0]) + PercentEncode(bytes[1..])
    decreases bytes
  {
    if |bytes| > 1 {
      EncodeFirst(bytes[..|bytes| - 1]);
      assert bytes[..|bytes| - 1][1..] == bytes[1..][..|bytes| - 2];
    }
  }

  /** For every byte string. */
  lemma {:induction false} DecodeInvertsEncode(bytes: seq<byte>)
    ensures PercentDecode(EncodeText(PercentEncode(bytes))) == bytes
    decreases bytes
  {
    if bytes != [] {
      EncodeFirst(bytes);
      EncodeConcat(EncodeByte(bytes[0]), PercentEncode(bytes[1..]));
      ByteDecodes(bytes[0], EncodeText(PercentEncode(bytes[1..])));
      DecodeInvertsEncode(bytes[1..]);
      assert [bytes[0]] + bytes[1..] == bytes;
    }
  }

  // ----- File URIs ---------------------------------------------------------------------------

  const SCHEME := "file://"

  function FileUri(path: Path): string {
    SCHEME + PercentEncode(path)
  }

  /** `find('/')`. */
  function FindSlash(s: string): Option<nat> {
    if s == "" then None
    else if s[0] == '/' then Some(0)
    else
      match FindSlash(s[1..])
      case None => None
      case Some(i) => Some(i + 1)
  }

  function StripPrefix(s: string, prefix: string): Option<string> {
    if prefix <= s then Some(s[|prefix|..]) else None
  }

  function PathOf(bytes: seq<byte>): Option<Path> {
    if bytes == [] || bytes[0] != SLASH || 0 in bytes then None else Some(bytes)
  }

  function ParseFileUri(raw: string): Option<Path> {
    var line := Trim(raw);
    if line == "" || line[0] == '#' then None
    else
      var rest := StripPrefix(line, SCHEME);
      if rest.None? then None
      else
        var idx := FindSlash(rest.value);
        if idx.None? || idx.value > |rest.value| then None
        else PathOf(PercentDecode(EncodeText(rest.value[idx.value..])))
  }

  predicate IsAbsolute(path: Path) {
    path != [] && path[0] == SLASH && 0 !in path
  }

  lemma EncodedStart(path: Path)
    ensures path != [] && path[0] == SLASH ==> PercentEncode(path) != "" && PercentEncode(path)[0] == '/'
  {
    if path != [] && path[0] == SLASH {
      EncodeFirst(path);
    }
  }

  lemma UriIsPlain(path: Path)
    ensures var uri := FileUri(path);
      && IsAscii(uri) && '\n' !in uri && uri[0] == 'f' && !IsWhitespace(uri[|uri| - 1])
  {
    EncodedIsPlain(path);
    var uri := FileUri(path);
    assert SCHEME[6] == '/';
    forall i | 0 <= i < |uri| ensures uri[i] as int < 0x80 && uri[i] != '\n' && (i == |uri| - 1 ==> !IsWhitespace(uri[i])) {
      if i >= 7 {
        assert uri[i] == PercentEncode(path)[i - 7];
      }
    }
  }

  lemma CrIsTrimmed(s: string)
    requires s != "" && !IsWhitespace(s[0]) && !IsWhitespace(s[|s| - 1])
    ensures Trim(s) == s && Trim(s + "\r") == s
  {
    NothingToTrim(s);
    var t := s + "\r";
    assert t[|t| - 1] == '\r' && t[..|t| - 1] == s;
    assert TrimStart(t) == t;
    assert TrimEnd(t) == TrimEnd(s);
  }

  /** A URI gives its path back, with or without a carriage return behind it, exactly when the path is absolute and free of NULs. */
  lemma UriParsesIff(path: Path)
    ensures ParseFileUri(FileUri(path)) == Some(path) <==> IsAbsolute(path)
    ensures ParseFileUri(FileUri(path) + "\r") == ParseFileUri(FileUri(path))
  {
    var uri, encoded := FileUri(path), PercentEncode(path);
    UriIsPlain(path);
    CrIsTrimmed(uri);
    assert uri[7..] == encoded && SCHEME <= uri;
    if IsAbsolute(path) {
      EncodedStart(path);
      assert FindSlash(encoded) == Some(0);
      assert encoded[0..] == encoded;
      DecodeInvertsEncode(path);
    }
  }

  /** Only absolute paths ever come out of a line. */
  lemma ParsedIsAbsolute(line: string)
    ensures ParseFileUri(line).Some? ==> IsAbsolute(ParseFileUri(line).value)
  {
  }

  // ----- The lists -------------------------------------------------------------------------------

  /** `split('\n')`. */
  function Lines(s: string): (lines: seq<string>)
    ensures lines != []
  {
    if s == "" then [""]
    else
      var rest := Lines(s[1..]);
      if s[0] == '\n' then [""] + rest else [[s[0]] + rest[0]] + rest[1..]
  }

  /** `filter_map(parse_file_uri)`. */
  function PathsOf(lines: seq<string>): seq<Path> {
    if lines == [] then []
    else
      match ParseFileUri(lines[0])
      case None => PathsOf(lines[1..])
      case Some(path) => [path] + PathsOf(lines[1..])
  }

  /** `parse_uri_list`, behind the decoding of its bytes. */
  function ParseUriList(text: string): seq<Path> {
    PathsOf(Lines(text))
  }

  const CRLF := "\r\n"

  function UriListText(uris: seq<string>): string {
    if uris == [] then "" else uris[0] + (CRLF + UriListText(uris[1..]))
  }

  function UnderLines(uris: seq<string>): string {
    if uris == [] then "" else "\n" + (uris[0] + UnderLines(uris[1..]))
  }

  function CopiedFilesText(uris: seq<string>): string {
    "copy" + UnderLines(uris)
  }

  method UriListBytes(uris: seq<string>) returns (out: seq<byte>)
    ensures out == EncodeText(UriListText(uris))
  {
    out := [];
    var i := 0;
    while i < |uris|
      invariant i <= |uris|
      invariant out + EncodeText(UriListText(uris[i..])) == EncodeText(UriListText(uris))
    {
      UriListFrom(out, uris[i..]);
      assert uris[i..][1..] == uris[i + 1..];
      out := out + EncodeText(uris[i]) + EncodeText(CRLF);
      i := i + 1;
    }
    assert uris[i..] == [];
  }

  lemma EncodeThree(a: string, b: string, c: string)
    ensures EncodeText(a + (b + c)) == EncodeText(a) + (EncodeText(b) + EncodeText(c))
  {
    EncodeConcat(a, b + c);
    EncodeConcat(b, c);
  }

  lemma UriListFrom(out: seq<byte>, uris: seq<string>)
    requires uris != []
    ensures out + EncodeText(UriListText(uris))
      == out + EncodeText(uris[0]) + EncodeText(CRLF) + EncodeText(UriListText(uris[1..]))
  {
    var rest := UriListText(uris[1..]);
    EncodeThree(uris[0], CRLF, rest);
    Regroup(out, EncodeText(uris[0]), EncodeText(CRLF) + EncodeText(rest));
    Regroup(out + EncodeText(uris[0]), EncodeText(CRLF), EncodeText(rest));
  }

  method CopiedFilesBytes(uris: seq<string>) returns (out: seq<byte>)
    ensures out == EncodeText(CopiedFilesText(uris))
  {
    var s := "copy";
    var i := 0;
    while i < |uris|
      invariant i <= |uris| && s + UnderLines(uris[i..]) == CopiedFilesText(uris)
    {
      assert uris[i..][1..] == uris[i + 1..];
      assert s + ("\n" + (uris[i] + UnderLines(uris[i + 1..]))) == s + "\n" + uris[i] + UnderLines(uris[i + 1..]);
      s := s + "\n" + uris[i];
      i := i + 1;
    }
    assert s + UnderLines([]) == s;
    out := EncodeText(s);
  }

  lemma {:induction false} LinesAtBreak(head: string, tail: string)
    requires '\n' !in head
    ensures Lines(head + "\n" + tail) == [head] + Lines(tail)
  {
    var s := head + "\n" + tail;
    if head == "" {
      assert s[1..] == tail;
    } else {
      assert s[1..] == head[1..] + "\n" + tail;
      LinesAtBreak(head[1..], tail);
      assert head[0] in head && [head[0]] + head[1..] == head;
    }
  }

  lemma {:induction false} OneLine(s: string)
    requires '\n' !in s
    ensures Lines(s) == [s]
  {
    if s != "" {
      OneLine(s[1..]);
      assert s[0] in s && [s[0]] + s[1..] == s;
    }
  }

  function FileUris(paths: seq<Path>): seq<string> {
    if paths == [] then [] else [FileUri(paths[0])] + FileUris(paths[1..])
  }

  predicate AllAbsolute(paths: seq<Path>) {
    forall i :: 0 <= i < |paths| ==> IsAbsolute(paths[i])
  }

  /** `parse_uri_list` inverts `uri_list_bytes` on the URIs of absolute NUL-free paths. */
  lemma {:induction false} UriListReadsBack(paths: seq<Path>)
    requires AllAbsolute(paths)
    ensures ParseUriList(UriListText(FileUris(paths))) == paths
    decreases paths
  {
    var uris := FileUris(paths);
    if paths == [] {
      assert PathsOf([""][1..]) == [];
    } else {
      var line, rest := uris[0] + "\r", UriListText(uris[1..]);
      UriIsPlain(paths[0]);
      assert uris[0] + (CRLF + rest) == line + "\n" + rest;
      LinesAtBreak(line, rest);
      UriParsesIff(paths[0]);
      assert uris[1..] == FileUris(paths[1..]);
      UriListReadsBack(paths[1..]);
      FirstPath(line, Lines(rest), paths[0]);
      assert [paths[0]] + paths[1..] == paths;
    }
  }

  lemma FirstPath(line: string, lines: seq<string>, path: Path)
    requires ParseFileUri(line) == Some(path)
    ensures PathsOf([line] + lines) == [path] + PathsOf(lines)
  {
    assert ([line] + lines)[1..] == lines;
  }

  /** The lines under a first one are its URIs. */
  lemma {:induction false} UnderLinesReadBack(first: string, paths: seq<Path>)
    requires '\n' !in first && AllAbsolute(paths)
    ensures Lines(first + UnderLines(FileUris(paths))) == [first] + FileUris(paths)
    ensures PathsOf(FileUris(paths)) == paths
    decreases paths
  {
    var uris := FileUris(paths);
    if paths == [] {
      assert first + UnderLines(uris) == first;
      OneLine(first);
    } else {
      var rest := uris[0] + UnderLines(uris[1..]);
      assert first + UnderLines(uris) == first + "\n" + rest;
      LinesAtBreak(first, rest);
      UriIsPlain(paths[0]);
      assert uris[1..] == FileUris(paths[1..]);
      UnderLinesReadBack(uris[0], paths[1..]);
      UriParsesIff(paths[0]);
      FirstPath(uris[0], uris[1..], paths[0]);
      assert [paths[0]] + paths[1..] == paths;
    }
  }

  lemma CopyIsNoPath()
    ensures '\n' !in "copy" && ParseFileUri("copy") == None
  {
    NothingToTrim("copy");
  }

  /** `parse_uri_list` inverts `copied_files_bytes` as well; its first line is dropped. */
  lemma CopiedFilesReadBack(paths: seq<Path>)
    requires AllAbsolute(paths)
    ensures ParseUriList(CopiedFilesText(FileUris(paths))) == paths
  {
    CopyIsNoPath();
    UnderLinesReadBack("copy", paths);
    assert (["copy"] + FileUris(paths))[1..] == FileUris(paths);
  }

  lemma {:induction false} PathsAreAbsolute(lines: seq<string>)
    ensures AllAbsolute(PathsOf(lines))
  {
    if lines != [] {
      ParsedIsAbsolute(lines[0]);
      PathsAreAbsolute(lines[1..]);
    }
  }

  /** From the bytes back to the paths: exactly for lists of absolute NUL-free paths, through both formats. */
  lemma ListsReadBackIff(paths: seq<Path>)
    ensures DecodeText(EncodeText(UriListText(FileUris(paths)))) == Some(UriListText(FileUris(paths)))
    ensures DecodeText(EncodeText(CopiedFilesText(FileUris(paths)))) == Some(CopiedFilesText(FileUris(paths)))
    ensures ParseUriList(UriListText(FileUris(paths))) == paths <==> AllAbsolute(paths)
    ensures ParseUriList(CopiedFilesText(FileUris(paths))) == paths <==> AllAbsolute(paths)
  {
    var uris := FileUris(paths);
    DecodeOfEncode(UriListText(uris));
    DecodeOfEncode(CopiedFilesText(uris));
    PathsAreAbsolute(Lines(UriListText(uris)));
    PathsAreAbsolute(Lines(CopiedFilesText(uris)));
    if AllAbsolute(paths) {
      UriListReadsBack(paths);
      CopiedFilesReadBack(paths);
    }
  }

  // ----- What is written, line by line ---------------------------------------------------------

  /** Letters, digits, `-._~` and the separator stay as they are; any other byte is `%` and two upper-case hex digits. */
  lemma EncodedByteIs(b: byte)
    ensures EncodeByte(b) ==
      if 0x30 <= b <= 0x39 || 0x41 <= b <= 0x5A || 0x61 <= b <= 0x7A || b in [0x2D, 0x2E, 0x5F, 0x7E, 0x2F]
      then [b as char] else ['%', "0123456789ABCDEF"[b as nat / 16], "0123456789ABCDEF"[b as nat % 16]]
  {
    HexDigitIs(b as nat / 16);
    HexDigitIs(b as nat % 16);
  }

  lemma HexDigitIs(d: nat)
    requires d < 16
    ensures UpperHex(d) == "0123456789ABCDEF"[d]
  {
  }

  /** A copied-files list is a line `copy`, then one URI a line, with nothing behind the last. */
  lemma CopiedFilesLines(paths: seq<Path>)
    requires AllAbsolute(paths)
    ensures Lines(CopiedFilesText(FileUris(paths))) == ["copy"] + FileUris(paths)
  {
    CopyIsNoPath();
    UnderLinesReadBack("copy", paths);
  }

  function Ended(uris: seq<string>): seq<string> {
    if uris == [] then [""] else [uris[0] + "\r"] + Ended(uris[1..])
  }

  /** A URI list has one URI a line, and every line ends in a carriage return and a line feed. */
  lemma {:induction false} UriListLines(uris: seq<string>)
    requires forall i {:trigger uris[i]} :: 0 <= i < |uris| ==> '\n' !in uris[i]
    ensures Lines(UriListText(uris)) == Ended(uris)
  {
    if uris != [] {
      var line, rest := uris[0] + "\r", UriListText(uris[1..]);
      assert uris[0] + (CRLF + rest) == line + "\n" + rest;
      LinesAtBreak(line, rest);
      UriListLines(uris[1..]);
    }
  }

  // ----- What is read besides ---------------------------------------------------------------------

  lemma {:induction false} SlashFound(host: string, tail: string)
    requires '/' !in host && tail != "" && tail[0] == '/'
    ensures FindSlash(host + tail) == Some(|host|)
  {
    if host == "" {
      assert host + tail == tail;
    } else {
      assert (host + tail)[1..] == host[1..] + tail;
      SlashFound(host[1..], tail);
    }
  }

  /** The authority between `file://` and the path is passed over, whatever it is. */
  lemma AuthorityIsIgnored(host: string, path: Path)
    requires '/' !in host && IsAbsolute(path)
    ensures ParseFileUri(SCHEME + (host + PercentEncode(path))) == Some(path)
  {
    var encoded := PercentEncode(path);
    var raw := SCHEME + (host + encoded);
    EncodedStart(path);
    EncodedIsPlain(path);
    assert raw[|raw| - 1] == encoded[|encoded| - 1] && raw[0] == 'f';
    NothingToTrim(raw);
    assert SCHEME <= raw && raw[7..] == host + encoded;
    SlashFound(host, encoded);
    assert (host + encoded)[|host|..] == encoded;
    DecodeInvertsEncode(path);
  }

  /** Comments, blank lines and anything but a file URI are passed over. */
  lemma OthersAreSkipped(line: string)
    requires line == "" || (!IsWhitespace(line[0]) && !IsWhitespace(line[|line| - 1]))
    requires line == "" || line[0] == '#' || !(SCHEME <= line)
    ensures ParseFileUri(line) == None
  {
    if line != "" {
      NothingToTrim(line);
    }
  }

  /** Both cases of the hex digits are read. */
  lemma HexValueIs(b: byte)
    ensures HexValue(b) ==
      if 0x30 <= b <= 0x39 then Some(b as nat - 0x30)
      else if 0x41 <= b <= 0x46 || 0x61 <= b <= 0x66 then Some(b as nat % 32 + 9)
      else None
  {
  }

  /** A percent sign that no two hex digits follow is a byte like any other. */
  lemma StrayPercentStays(rest: seq<byte>)
    requires |rest| < 2 || HexValue(rest[0]).None? || HexValue(rest[1]).None?
    ensures PercentDecode([PERCENT] + rest) == [PERCENT] + PercentDecode(rest)
  {
    var b := [PERCENT] + rest;
    assert b[1..] == rest;
    if |b| > 2 {
      assert b[1] == rest[0] && b[2] == rest[1];
    }
  }

  lemma {:induction false} PlainBytesStay(b: seq<byte>)
    requires PERCENT !in b
    ensures PercentDecode(b) == b
  {
    if b != [] {
      assert b[0] in b && forall x :: x in b[1..] ==> x in b;
      PlainBytesStay(b[1..]);
      assert b == [b[0]] + b[1..];
    }
  }
}
