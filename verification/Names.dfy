/**
 The names and `/`-separated paths of a file manifest (core/src/clipboard.rs
 `is_safe_rel_path`, `safe_base_name`, `unique_rel`).
 */
module Names {
  import opened Wrappers
  import opened Numerals

  // ----- Splitting and joining on '/' ------------------------------------------

  /** `str::split('/')`: always at least one segment, empty segments included. */
  function Split(s: string): (segments: seq<string>)
    ensures segments != []
  {
    if s == "" then [""]
    else
      var rest := Split(s[1..]);
      if s[0] == '/' then [""] + rest else [[s[0]] + rest[0]] + rest[1..]
  }

  function Join(segments: seq<string>): string {
    if segments == [] then ""
    else if |segments| == 1 then segments[0]
    else segments[0] + "/" + Join(segments[1..])
  }

  /** A path component: not empty, no separator inside. */
  predicate IsComponent(s: string) {
    s != "" && '/' !in s
  }

  predicate AreComponents(path: seq<string>) {
    forall c <- path :: IsComponent(c)
  }

  lemma SplitNoSlash(s: string)
    requires '/' !in s
    ensures Split(s) == [s]
  {
    if s != "" {
      assert '/' !in s[1..];
      SplitNoSlash(s[1..]);
      assert [s[0]] + s[1..] == s;
    }
  }

  lemma SplitAtSlash(head: string, tail: string)
    requires '/' !in head
    ensures Split(head + "/" + tail) == [head] + Split(tail)
  {
    if head == "" {
      assert "" + "/" + tail == "/" + tail;
      assert ("/" + tail)[1..] == tail;
    } else {
      var s := head + "/" + tail;
      assert s[1..] == head[1..] + "/" + tail;
      SplitAtSlash(head[1..], tail);
      assert [head[0]] + head[1..] == head;
    }
  }

  /** Splitting a joined path gives its components back. */
  lemma {:induction false} SplitJoin(path: seq<string>)
    requires path != [] && forall c <- path :: '/' !in c
    ensures Split(Join(path)) == path
  {
    assert path[0] in path;
    if |path| == 1 {
      SplitNoSlash(path[0]);
    } else {
      SplitAtSlash(path[0], Join(path[1..]));
      SplitJoin(path[1..]);
    }
  }

  lemma JoinIsInjective(p: seq<string>, q: seq<string>)
    requires AreComponents(p) && AreComponents(q) && Join(p) == Join(q)
    ensures p == q
  {
    if p == [] || q == [] {
      JoinOfComponentsIsEmptyIff(p);
      JoinOfComponentsIsEmptyIff(q);
    } else {
      SplitJoin(p);
      SplitJoin(q);
    }
  }

  lemma JoinsDiffer(p: seq<string>, q: seq<string>)
    requires AreComponents(p) && AreComponents(q) && p != q
    ensures Join(p) != Join(q)
  {
    if Join(p) == Join(q) {
      JoinIsInjective(p, q);
    }
  }

  lemma JoinOfComponentsIsEmptyIff(p: seq<string>)
    requires AreComponents(p)
    ensures Join(p) == "" <==> p == []
  {
    if p != [] {
      assert IsComponent(p[0]);
    }
  }

  /** Appending a component is what the loops of the sources do: push `/`, push the name. */
  lemma {:induction false} JoinSnoc(path: seq<string>, name: string)
    requires path != []
    ensures Join(path + [name]) == Join(path) + "/" + name
  {
    if |path| == 1 {
      assert (path + [name])[1..] == [name];
    } else {
      assert (path + [name])[1..] == path[1..] + [name];
      JoinSnoc(path[1..], name);
      assert path[0] + "/" + (Join(path[1..]) + "/" + name) == path[0] + "/" + Join(path[1..]) + "/" + name;
    }
  }

  // ----- Safe names ---------------------------------------------------------------

  predicate IsControl(c: char) {
    c as int < 0x20 || 0x7F <= c as int <= 0x9F
  }

  predicate Forbidden(c: char) {
    c == '\\' || c == ':' || IsControl(c)
  }

  predicate SafeSegment(s: string) {
    s != "" && s != "." && s != ".." && forall c <- s :: !Forbidden(c)
  }

  predicate IsSafeRelPath(raw: string) {
    && raw != "" && raw[0] != '/'
    && (forall c <- raw :: !Forbidden(c))
    && (forall seg <- Split(raw) :: seg != "" && seg != "." && seg != "..")
  }

  lemma {:induction false} JoinHasItsSegments(path: seq<string>)
    requires path != []
    ensures forall c <- Join(path) :: c == '/' || exists s :: s in path && c in s
    ensures forall s <- path, c <- s :: c in Join(path)
  {
    if |path| > 1 {
      JoinHasItsSegments(path[1..]);
      assert path == [path[0]] + path[1..];
    }
  }

  /** A path is accepted exactly when it has a component and every component is safe. */
  lemma SafePathIff(path: seq<string>)
    requires path != [] && forall c <- path :: '/' !in c
    ensures IsSafeRelPath(Join(path)) <==> forall c <- path :: SafeSegment(c)
    ensures IsSafeRelPath(Join(path)) <==> forall c <- path :: c !in {"", ".", ".."} && forall ch <- c ::
      ch != '\\' && ch != ':' && (' ' <= ch <= '~' || ch as int > 0x9F)
  {
    SplitJoin(path);
    JoinHasItsSegments(path);
    if forall c <- path :: SafeSegment(c) {
      assert SafeSegment(path[0]);
      assert Join(path)[0] == path[0][0];
      assert path[0][0] in path[0];
    }
  }

  /** What follows the last `/` or `\`. */
  function LastSegment(raw: string): string {
    if raw == "" then ""
    else if raw[|raw| - 1] == '/' || raw[|raw| - 1] == '\\' then ""
    else LastSegment(raw[..|raw| - 1]) + [raw[|raw| - 1]]
  }

  function TrimSeparators(raw: string): string {
    if raw != "" && (raw[|raw| - 1] == '/' || raw[|raw| - 1] == '\\') then TrimSeparators(raw[..|raw| - 1])
    else raw
  }

  function SafeBaseName(raw: string): Option<string> {
    var base := LastSegment(raw);
    if base == "" || base == "." || base == ".." then None
    else if exists c :: c in base && (c == ':' || IsControl(c)) then None
    else Some(base)
  }

  lemma {:induction false} LastSegmentHasNoSeparator(raw: string)
    ensures '/' !in LastSegment(raw) && '\\' !in LastSegment(raw)
  {
    if raw != "" {
      LastSegmentHasNoSeparator(raw[..|raw| - 1]);
    }
  }

  /** An accepted base name is one safe path component. */
  lemma BaseNameIsSafe(raw: string)
    requires SafeBaseName(raw).Some?
    ensures SafeSegment(SafeBaseName(raw).value) && '/' !in SafeBaseName(raw).value
  {
    LastSegmentHasNoSeparator(raw);
  }

  // ----- Unique top-level names -----------------------------------------------------

  /** Position of the last `.` before `end`, or -1. */
  function LastDot(s: string, end: nat): (i: int)
    requires end <= |s|
    ensures -1 <= i < end
  {
    if end == 0 then -1 else if s[end - 1] == '.' then end - 1 else LastDot(s, end - 1)
  }

  /** `Path::file_stem` and `Path::extension` of a single component. */
  function Stem(name: string): string {
    var dot := LastDot(name, |name|);
    if dot <= 0 then name else name[..dot]
  }

  function Extension(name: string): Option<string> {
    var dot := LastDot(name, |name|);
    if dot <= 0 then None else Some(name[dot + 1..])
  }

  function Candidate(name: string, n: nat): string {
    Stem(name) + " (" + Decimal(n) + ")" + if Extension(name).Some? then "." + Extension(name).value else ""
  }

  const LAST_SUFFIX: nat := 9999

  /** The names with suffixes 1 to `last`, in order. */
  function Candidates(name: string, last: nat): seq<string> {
    seq(last, i requires 0 <= i < last => Candidate(name, i + 1))
  }

  function FirstNotIn(used: set<string>, names: seq<string>): Option<string> {
    if names == [] then None
    else if names[0] !in used then Some(names[0])
    else FirstNotIn(used, names[1..])
  }

  /** `None`: every suffix is taken, where the source falls back on a random one. */
  function UniqueRel(used: set<string>, name: string): Option<string> {
    if name !in used then Some(name) else FirstNotIn(used, Candidates(name, LAST_SUFFIX))
  }

  lemma {:induction false} FirstNotInIsNew(used: set<string>, names: seq<string>)
    ensures var r := FirstNotIn(used, names);
            if r.Some? then r.value !in used && r.value in names else forall n <- names :: n in used
  {
    if names != [] && names[0] in used {
      FirstNotInIsNew(used, names[1..]);
    }
  }

  lemma CandidateHasNoSlash(name: string, n: nat)
    requires '/' !in name
    ensures '/' !in Candidate(name, n)
  {
    DecimalReadsBack(n);
    assert !IsDigit('/');
    assert '/' !in Decimal(n);
    assert '/' !in Stem(name);
    if Extension(name).Some? {
      assert '/' !in Extension(name).value;
    }
  }

  lemma CandidatesAt(name: string, last: nat, k: nat)
    requires k < last
    ensures |Candidates(name, last)| == last && Candidates(name, last)[k] == Candidate(name, k + 1)
  {
  }

  /** A name is made unique by a new, separator-free name; free names are kept as they are. */
  lemma UniqueRelIsNew(used: set<string>, name: string)
    requires '/' !in name && UniqueRel(used, name).Some?
    ensures var r := UniqueRel(used, name).value; r !in used && '/' !in r && (name !in used ==> r == name)
  {
    if name in used {
      FirstNotInIsNew(used, Candidates(name, LAST_SUFFIX));
      var all := Candidates(name, LAST_SUFFIX);
      var k: nat :| k < |all| && UniqueRel(used, name).value == all[k];
      CandidatesAt(name, LAST_SUFFIX, k);
      CandidateHasNoSlash(name, k + 1);
    }
  }

  /** The loop of `unique_rel`, with its growing set of used names. */
  method MakeUnique(used: set<string>, name: string) returns (r: Option<string>, used': set<string>)
    ensures r == UniqueRel(used, name)
    ensures used' == if r.Some? then used + {r.value} else used
  {
    if name !in used {
      return Some(name), used + {name};
    }
    ghost var all := Candidates(name, LAST_SUFFIX);
    var n := 1;
    while n <= LAST_SUFFIX
      invariant 1 <= n <= LAST_SUFFIX + 1 && |all| == LAST_SUFFIX
      invariant FirstNotIn(used, all[n - 1..]) == FirstNotIn(used, all)
    {
      var candidate := Candidate(name, n);
      CandidatesAt(name, LAST_SUFFIX, n - 1);
      assert all[n - 1..][0] == candidate && all[n - 1..][1..] == all[n..];
      if candidate !in used {
        return Some(candidate), used + {candidate};
      }
      n := n + 1;
    }
    return None, used;
  }
}
