/**
 What copied files are called (core/src/clipboard.rs `safe_base_name`, `unique_rel`,
 `freeze_manifest`), where links lead, and in which order folders are walked.
 */
module CopiedNames {
  import opened Wrappers
  import opened Numerals
  import opened Names
  import opened Manifest
  import opened Forests

  // ----- The base name of a path -----------------------------------------------------

  predicate IsSeparator(c: char) {
    c == '/' || c == '\\'
  }

  predicate OnlySeparators(s: string) {
    forall i {:trigger s[i]} :: 0 <= i < |s| ==> IsSeparator(s[i])
  }

  predicate NoSeparator(s: string) {
    forall i {:trigger s[i]} :: 0 <= i < |s| ==> !IsSeparator(s[i])
  }

  /** `name` is the last component of `raw`: separators may follow it, and one stands before it. */
  predicate IsLastComponent(raw: string, prefix: string, name: string, seps: string) {
    && raw == prefix + name + seps && name != ""
    && NoSeparator(name) && OnlySeparators(seps)
    && (prefix != "" ==> IsSeparator(prefix[|prefix| - 1]))
  }

  lemma {:induction false} TrimsSeparators(body: string, seps: string)
    requires OnlySeparators(seps) && (body != "" ==> !IsSeparator(body[|body| - 1]))
    ensures TrimSeparators(body + seps) == body
    decreases |seps|
  {
    var raw := body + seps;
    if seps == "" {
      assert raw == body;
    } else {
      var fewer := seps[..|seps| - 1];
      assert raw[..|raw| - 1] == body + fewer && raw[|raw| - 1] == seps[|seps| - 1];
      TrimsSeparators(body, fewer);
    }
  }

  lemma {:induction false} LastSegmentIs(prefix: string, name: string)
    requires NoSeparator(name) && (prefix != "" ==> IsSeparator(prefix[|prefix| - 1]))
    ensures LastSegment(prefix + name) == name
    decreases |name|
  {
    var raw := prefix + name;
    if name == "" {
      assert raw == prefix;
    } else {
      var shorter := name[..|name| - 1];
      assert raw[..|raw| - 1] == prefix + shorter && raw[|raw| - 1] == name[|name| - 1];
      LastSegmentIs(prefix, shorter);
    }
  }

  /**
   Whatever stands before it and however many separators follow, the last component of a
   path is its base name, if it is safe; there is none otherwise.
   */
  lemma BaseNameIsLastComponent(raw: string, prefix: string, name: string, seps: string)
    requires IsLastComponent(raw, prefix, name, seps)
    ensures SafeBaseName(TrimSeparators(raw)) == if SafeSegment(name) then Some(name) else None
  {
    var body := prefix + name;
    assert body[|body| - 1] == name[|name| - 1];
    TrimsSeparators(body, seps);
    LastSegmentIs(prefix, name);
    assert forall c <- name :: c != '\\';
  }

  /** A path of separators only has no name. */
  lemma NoComponentNoName(raw: string)
    requires OnlySeparators(raw)
    ensures SafeBaseName(TrimSeparators(raw)) == None
  {
    TrimsSeparators("", raw);
    assert "" + raw == raw;
  }

  /** Every other path has a last component. */
  lemma {:induction false} HasLastComponent(raw: string) returns (prefix: string, name: string, seps: string)
    requires !OnlySeparators(raw)
    ensures IsLastComponent(raw, prefix, name, seps)
    decreases |raw|
  {
    var n := |raw| - 1;
    var front, c := raw[..n], raw[n];
    if IsSeparator(c) {
      prefix, name, seps := HasLastComponent(front);
      seps := seps + [c];
    } else if n == 0 || IsSeparator(raw[n - 1]) {
      prefix, name, seps := front, [c], "";
    } else {
      assert !IsSeparator(front[n - 1]);
      prefix, name, seps := HasLastComponent(front);
      assert front[n - 1] == (prefix + name + seps)[n - 1];
      assert seps == "";
      name := name + [c];
    }
    assert raw == front + [c];
  }

  // ----- Suffixes ------------------------------------------------------------------------

  /** `name` is a stem and an extension with its dot, or a stem alone: a leading dot is no extension's. */
  predicate Parts(name: string, stem: string, ext: string) {
    && name == stem + ext && stem != ""
    && (if ext == "" then '.' !in name[1..] else ext[0] == '.' && '.' !in ext[1..])
  }

  lemma {:induction false} LastDotIs(s: string, end: nat, dot: nat)
    requires dot < end <= |s| && s[dot] == '.' && forall k :: dot < k < end ==> s[k] != '.'
    ensures LastDot(s, end) == dot
  {
    if end - 1 > dot {
      LastDotIs(s, end - 1, dot);
    }
  }

  lemma {:induction false} NoDotBehind(s: string, end: nat)
    requires end <= |s| && forall k :: 0 < k < end ==> s[k] != '.'
    ensures LastDot(s, end) <= 0
  {
    if end > 0 {
      NoDotBehind(s, end - 1);
    }
  }

  lemma StemAndExtension(name: string, stem: string, ext: string)
    requires Parts(name, stem, ext)
    ensures Stem(name) == stem && Extension(name) == if ext == "" then None else Some(ext[1..])
  {
    if ext == "" {
      assert forall k :: 0 < k < |name| ==> name[k] == name[1..][k - 1];
      NoDotBehind(name, |name|);
    } else {
      var dot := |stem|;
      assert forall k :: dot < k < |name| ==> name[k] == ext[1..][k - dot - 1];
      LastDotIs(name, |name|, dot);
      assert name[..dot] == stem && name[dot + 1..] == ext[1..];
    }
  }

  function Suffixed(stem: string, n: nat, ext: string): string {
    stem + " (" + Decimal(n) + ")" + ext
  }

  lemma CandidateIsSuffixed(name: string, stem: string, ext: string, n: nat)
    requires Parts(name, stem, ext)
    ensures Candidate(name, n) == Suffixed(stem, n, ext)
  {
    StemAndExtension(name, stem, ext);
    if ext != "" {
      assert "." + ext[1..] == ext;
    }
  }

  lemma {:induction false} FirstFree(used: set<string>, names: seq<string>) returns (k: nat)
    ensures k <= |names| && (forall i :: 0 <= i < k ==> names[i] in used)
    ensures FirstNotIn(used, names) == if k < |names| then Some(names[k]) else None
    ensures k < |names| ==> names[k] !in used
  {
    if names == [] || names[0] !in used {
      k := 0;
    } else {
      var rest := FirstFree(used, names[1..]);
      k := rest + 1;
      assert forall i :: 1 <= i < k ==> names[i] == names[1..][i - 1];
    }
  }

  /** A taken name gets the least free number between its stem and its extension. */
  lemma TakenNameIsNumbered(used: set<string>, name: string, stem: string, ext: string) returns (n: nat)
    requires name in used && Parts(name, stem, ext)
    ensures 1 <= n <= LAST_SUFFIX + 1
    ensures forall m :: 1 <= m < n ==> Suffixed(stem, m, ext) in used
    ensures n <= LAST_SUFFIX ==>
      Suffixed(stem, n, ext) !in used && UniqueRel(used, name) == Some(Suffixed(stem, n, ext))
    ensures n == LAST_SUFFIX + 1 ==> UniqueRel(used, name) == None
  {
    var all := Candidates(name, LAST_SUFFIX);
    var k := FirstFree(used, all);
    n := k + 1;
    assert |all| == LAST_SUFFIX;
    forall m | 1 <= m <= LAST_SUFFIX ensures all[m - 1] == Suffixed(stem, m, ext) {
      CandidatesAt(name, LAST_SUFFIX, m - 1);
      CandidateIsSuffixed(name, stem, ext, m);
    }
  }

  // ----- The names of a copied forest ---------------------------------------------------------

  /** `names[i]` is the last component of the `i`-th path. */
  ghost predicate AreNamed(sources: seq<Source>, names: seq<string>) {
    && |names| == |sources|
    && forall i {:trigger names[i]} :: 0 <= i < |sources| ==> IsNamed(sources[i].raw, names[i])
  }

  ghost predicate IsNamed(raw: string, name: string) {
    exists prefix, seps :: IsLastComponent(raw, prefix, name, seps)
  }

  predicate Distinct(names: seq<string>) {
    forall i, j :: 0 <= i < j < |names| ==> names[i] != names[j]
  }

  function Nth(l: Listing, i: nat): Option<(Name, Node)> {
    if l.Empty? then None else if i == 0 then Some((l.name, l.node)) else Nth(l.rest, i - 1)
  }

  lemma KeepsItsName(used: set<string>, source: Source, name: string)
    requires IsNamed(source.raw, name) && name !in used && TopName(used, source).Ok?
    ensures TopName(used, source) == Ok(name)
  {
    var prefix, seps :| IsLastComponent(source.raw, prefix, name, seps);
    BaseNameIsLastComponent(source.raw, prefix, name, seps);
  }

  lemma OtherNames(used: set<string>, sources: seq<Source>, names: seq<string>, first: string)
    requires AreNamed(sources, names) && Distinct(names) && names != [] && first == names[0]
    requires forall k :: 0 <= k < |names| ==> names[k] !in used
    ensures AreNamed(sources[1..], names[1..]) && Distinct(names[1..])
    ensures forall k :: 0 <= k < |names[1..]| ==> names[1..][k] !in used + {first}
  {
    assert forall k :: 0 <= k < |names[1..]| ==> names[1..][k] == names[k + 1] && sources[1..][k] == sources[k + 1];
  }

  lemma FirstIsFrozen(files: seq<FileEntry>, used: set<string>, sources: seq<Source>, name: string)
    requires sources != [] && Frozen(files, used, sources).Ok? && IsNamed(sources[0].raw, name) && name !in used
    ensures FrozenTop(files, sources[0].node, name).Ok?
    ensures Frozen(FrozenTop(files, sources[0].node, name).value, used + {name}, sources[1..]).Ok?
    ensures Forest(used, sources) == Child(Utf8(name), Target(sources[0].node), Forest(used + {name}, sources[1..]))
  {
    KeepsItsName(used, sources[0], name);
  }

  /** The copied nodes under the given names. */
  function Named(sources: seq<Source>, names: seq<string>): Listing
    requires |sources| == |names|
  {
    if sources == [] then Empty
    else Child(Utf8(names[0]), Target(sources[0].node), Named(sources[1..], names[1..]))
  }

  lemma {:induction false} ForestIsNamed(files: seq<FileEntry>, used: set<string>, sources: seq<Source>, names: seq<string>)
    requires Frozen(files, used, sources).Ok? && AreNamed(sources, names) && Distinct(names)
    requires forall k :: 0 <= k < |names| ==> names[k] !in used
    ensures Forest(used, sources) == Named(sources, names)
    decreases sources
  {
    if sources != [] {
      var name := names[0];
      FirstIsFrozen(files, used, sources, name);
      OtherNames(used, sources, names, name);
      ForestIsNamed(FrozenTop(files, sources[0].node, name).value, used + {name}, sources[1..], names[1..]);
    }
  }

  lemma {:induction false} NamedCount(sources: seq<Source>, names: seq<string>)
    requires |sources| == |names|
    ensures Count(Named(sources, names)) == |sources|
  {
    if sources != [] {
      NamedCount(sources[1..], names[1..]);
    }
  }

  lemma {:induction false} NamedAt(sources: seq<Source>, names: seq<string>, i: nat)
    requires |sources| == |names| && i < |sources|
    ensures Nth(Named(sources, names), i) == Some((Utf8(names[i]), Target(sources[i].node)))
  {
    if i > 0 {
      NamedAt(sources[1..], names[1..], i - 1);
    }
  }

  /** Copied under distinct names, the `i`-th file or folder is frozen under the last component of its path. */
  lemma CopiesKeepTheirNames(sources: seq<Source>, names: seq<string>)
    requires Freeze(sources).Ok? && AreNamed(sources, names) && Distinct(names)
    ensures Count(Forest({}, sources)) == |sources|
    ensures forall i :: 0 <= i < |sources| ==>
      Nth(Forest({}, sources), i) == Some((Utf8(names[i]), Target(sources[i].node)))
  {
    ForestIsNamed([], {}, sources, names);
    NamedCount(sources, names);
    forall i | 0 <= i < |sources|
      ensures Nth(Forest({}, sources), i) == Some((Utf8(names[i]), Target(sources[i].node)))
    {
      NamedAt(sources, names, i);
    }
  }

  /** So a single copied file is one entry under its own name. */
  lemma OneFileKeepsItsName(raw: string, name: string, size: nat)
    requires IsNamed(raw, name) && SafeSegment(name)
    ensures Freeze([Source(raw, File(size))]) == Ok([FileEntry("f0", name, size, false)])
  {
    var sources := [Source(raw, File(size))];
    var prefix, seps :| IsLastComponent(raw, prefix, name, seps);
    BaseNameIsLastComponent(raw, prefix, name, seps);
    assert TopName({}, sources[0]) == Ok(name);
    assert forall c <- [name] :: '/' !in c;
    SafePathIff([name]);
    assert Join([name]) == name;
    assert sources[1..] == [] && "f" + Decimal(0) == "f0";
    var files := [FileEntry("f0", name, size, false)];
    assert IsSafeRelPath(name) by {
      assert forall c <- [name] :: SafeSegment(c);
    }
    assert Target(sources[0].node) == File(size);
    assert [] + files == files;
    assert Pushed([], name, size, false) == Ok([] + [FileEntry("f" + Decimal(0), name, size, false)]);
    assert Frozen(files, {} + {name}, sources[1..]) == Ok(files);
  }

  // ----- Links ----------------------------------------------------------------------------------

  /** `n` links in a row, the last one to `node`. */
  function Linked(node: Node, n: nat): Node {
    if n == 0 then node else Link(Linked(node, n - 1))
  }

  lemma {:induction false} LinksLead(node: Node, n: nat)
    requires !node.Link?
    ensures Target(Linked(node, n)) == node
  {
    if n > 0 {
      LinksLead(node, n - 1);
    }
  }

  /** A link in a folder shows the file it finally leads to, and nothing if it leads elsewhere. */
  lemma LinkShowsItsFile(node: Node, n: nat)
    requires !node.Link? && n > 0
    ensures FindAt(Linked(node, n), []) == if node.File? then Some(AFile(node.size)) else None
  {
    LinksLead(node, n);
  }

  // ----- The order of a folder ----------------------------------------------------------------------

  function ListingOf(children: seq<(Name, Node)>): Listing {
    if children == [] then Empty else Child(children[0].0, children[0].1, ListingOf(children[1..]))
  }

  lemma {:induction false} CountIsLength(children: seq<(Name, Node)>)
    ensures Count(ListingOf(children)) == |children|
    ensures forall i :: 0 <= i < |children| ==> Nth(ListingOf(children), i) == Some(children[i])
  {
    if children != [] {
      CountIsLength(children[1..]);
      assert forall i :: 1 <= i < |children| ==> children[i] == children[1..][i - 1];
    }
  }

  /** `a` is a prefix of `b`, or smaller at the first place where they differ. */
  ghost predicate TextBefore(a: string, b: string) {
    a <= b || exists k: nat :: SmallerAt(a, b, k)
  }

  predicate SmallerAt(a: string, b: string, k: nat) {
    k < |a| && k < |b| && a[..k] == b[..k] && a[k] < b[k]
  }

  lemma {:induction false} LeMeansBefore(a: string, b: string)
    requires TextLe(a, b)
    ensures TextBefore(a, b)
    decreases |a|
  {
    if a != "" {
      assert a == [a[0]] + a[1..] && b == [b[0]] + b[1..];
      if a[0] < b[0] {
        assert SmallerAt(a, b, 0);
      } else {
        LeMeansBefore(a[1..], b[1..]);
        if !(a[1..] <= b[1..]) {
          var k: nat :| SmallerAt(a[1..], b[1..], k);
          assert a[..k + 1] == [a[0]] + a[1..][..k] && b[..k + 1] == [b[0]] + b[1..][..k];
          assert SmallerAt(a, b, k + 1);
        }
      }
    }
  }

  lemma {:induction false} BeforeMeansLe(a: string, b: string)
    requires TextBefore(a, b)
    ensures TextLe(a, b)
    decreases |a|
  {
    if a != "" {
      if a <= b {
        assert a[1..] <= b[1..];
        BeforeMeansLe(a[1..], b[1..]);
      } else {
        var k: nat :| SmallerAt(a, b, k);
        if k > 0 {
          assert a[..k][0] == b[..k][0];
          assert a[1..][..k - 1] == a[..k][1..] && b[1..][..k - 1] == b[..k][1..];
          assert SmallerAt(a[1..], b[1..], k - 1);
          BeforeMeansLe(a[1..], b[1..]);
        }
      }
    }
  }

  /** Names are compared like words in a dictionary. */
  lemma TextLeIff(a: string, b: string)
    ensures TextLe(a, b) <==> TextBefore(a, b)
  {
    if TextLe(a, b) {
      LeMeansBefore(a, b);
    } else if TextBefore(a, b) {
      BeforeMeansLe(a, b);
    }
  }

  predicate Sorted(l: Listing) {
    l.Child? && l.rest.Child? ==> NameLe(l.name, l.rest.name) && Sorted(l.rest)
  }

  lemma {:induction false} TextIsTotal(a: string, b: string)
    ensures TextLe(a, b) || TextLe(b, a)
    decreases |a|
  {
    if a != "" && b != "" {
      TextIsTotal(a[1..], b[1..]);
    }
  }

  lemma NamesAreTotal(a: Name, b: Name)
    ensures NameLe(a, b) || NameLe(b, a)
  {
    if a.Utf8? && b.Utf8? {
      TextIsTotal(a.text, b.text);
    }
  }

  lemma {:induction false} InsertSorts(name: Name, node: Node, l: Listing)
    requires Sorted(l)
    ensures Sorted(Insert(name, node, l))
    ensures Insert(name, node, l).name == name || (l.Child? && Insert(name, node, l).name == l.name)
  {
    if l.Child? && !NameLe(name, l.name) {
      NamesAreTotal(name, l.name);
      InsertSorts(name, node, l.rest);
    }
  }

  /** A folder is walked by name: what is frozen does not depend on the order the system enumerates in. */
  lemma {:induction false} SortSorts(l: Listing)
    ensures Sorted(Sort(l))
  {
    if l.Child? {
      SortSorts(l.rest);
      InsertSorts(l.name, l.node, Sort(l.rest));
    }
  }
}
