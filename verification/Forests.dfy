/**
 What a frozen manifest says about the forest it was frozen from. A manifest holds
 leaves only: files, and folders that contribute nothing; every other folder is
 implied by the paths below it.
 */
module Forests {
  import opened Wrappers
  import opened Numerals
  import opened Names
  import opened Manifest

  datatype Item = ADir | AFile(size: nat)

  datatype Leaf = Leaf(path: seq<string>, item: Item)

  // ----- The forest, looked up by path ------------------------------------------------

  /** What the OS guarantees of a directory: components as names, each at most once. */
  predicate ValidListing(l: Listing) {
    l.Child? ==>
      && (l.name.Utf8? ==> IsComponent(l.name.text))
      && !HasName(l.rest, l.name)
      && ValidNode(l.node)
      && ValidListing(l.rest)
  }

  predicate ValidNode(n: Node) {
    && (n.Dir? ==> ValidListing(n.listing))
    && (n.Link? ==> ValidNode(n.target))
  }

  predicate HasName(l: Listing, name: Name) {
    l.Child? && (l.name == name || HasName(l.rest, name))
  }

  function Get(l: Listing, name: string): Option<Node> {
    if l.Empty? then None else if l.name == Utf8(name) then Some(l.node) else Get(l.rest, name)
  }

  /** Links inside a folder are followed to regular files only. */
  function FindAt(node: Node, path: seq<string>): Option<Item>
    decreases |path|, 1
  {
    match node
    case File(size) => if path == [] then Some(AFile(size)) else None
    case Link(_) => if path == [] && Target(node).File? then Some(AFile(Target(node).size)) else None
    case Dir(l) => FindIn(l, path)
    case Special => None
    case Failing => None
  }

  /** What stands at `path` in the forest, skipped nodes aside. */
  function FindIn(l: Listing, path: seq<string>): Option<Item>
    decreases |path|, 0
  {
    if path == [] then Some(ADir)
    else
      var n := Get(l, path[0]);
      if n.None? then None else FindAt(n.value, path[1..])
  }

  // ----- Leaves --------------------------------------------------------------------------

  function Under(name: string, leaves: seq<Leaf>): seq<Leaf> {
    seq(|leaves|, i requires 0 <= i < |leaves| => Leaf([name] + leaves[i].path, leaves[i].item))
  }

  function LeavesIn(l: Listing): seq<Leaf>
    decreases Weight(l), 0
  {
    if l.Empty? then []
    else (if l.name.Utf8? then Under(l.name.text, NodeLeaves(l.node)) else []) + LeavesIn(l.rest)
  }

  /** The leaves of a node, by their paths below it. */
  function NodeLeaves(node: Node): seq<Leaf>
    decreases NodeWeight(node), 1
  {
    match node
    case File(size) => [Leaf([], AFile(size))]
    case Link(_) => if Target(node).File? then [Leaf([], AFile(Target(node).size))] else []
    case Dir(l) => var leaves := LeavesIn(Sort(l)); if leaves == [] then [Leaf([], ADir)] else leaves
    case Special => []
    case Failing => []
  }

  /** What a list of leaves says of `path`: a leaf, a folder above one, or nothing. */
  function Lookup(leaves: seq<Leaf>, path: seq<string>): Option<Item> {
    if leaves == [] then None
    else if leaves[0].path == path then Some(leaves[0].item)
    else if path < leaves[0].path then Some(ADir)
    else Lookup(leaves[1..], path)
  }

  /** No leaf is at or below another one. */
  predicate Independent(leaves: seq<Leaf>) {
    forall i, j :: 0 <= i < |leaves| && 0 <= j < |leaves| && i != j ==> !(leaves[i].path <= leaves[j].path)
  }

  // ----- Leaves and lookups agree ----------------------------------------------------------

  lemma {:induction false} LookupConcat(a: seq<Leaf>, b: seq<Leaf>, path: seq<string>)
    ensures Lookup(a + b, path) == if Lookup(a, path).Some? then Lookup(a, path) else Lookup(b, path)
  {
    if a == [] {
      assert a + b == b;
    } else {
      assert (a + b)[1..] == a[1..] + b;
      LookupConcat(a[1..], b, path);
    }
  }

  lemma {:induction false} LookupUnder(name: string, leaves: seq<Leaf>, path: seq<string>)
    ensures Lookup(Under(name, leaves), path)
            == if path == [] then (if leaves == [] then None else Some(ADir))
               else if path[0] == name then Lookup(leaves, path[1..]) else None
  {
    if leaves != [] {
      assert Under(name, leaves)[1..] == Under(name, leaves[1..]);
      var p := [name] + leaves[0].path;
      assert p[1..] == leaves[0].path && p[0] == name;
      if path != [] {
        LookupUnder(name, leaves[1..], path);
        assert path == [path[0]] + path[1..];
        assert path == p <==> path[0] == name && path[1..] == leaves[0].path;
        PrefixCons(path, p);
      }
    }
  }

  lemma PrefixCons(p: seq<string>, q: seq<string>)
    requires p != [] && q != []
    ensures p <= q <==> p[0] == q[0] && p[1..] <= q[1..]
    ensures p < q <==> p[0] == q[0] && p[1..] < q[1..]
  {
    assert p == [p[0]] + p[1..] && q == [q[0]] + q[1..];
  }

  lemma {:induction false} LeavesAreBelow(l: Listing)
    ensures forall x <- LeavesIn(l) :: x.path != []
    decreases l
  {
    if l.Child? {
      LeavesAreBelow(l.rest);
    }
  }

  lemma {:induction false} AbsentIsNotFound(l: Listing, name: string)
    requires !HasName(l, Utf8(name))
    ensures Get(l, name) == None
  {
    if l.Child? {
      AbsentIsNotFound(l.rest, name);
    }
  }

  lemma {:induction false} InsertFinds(name: Name, node: Node, l: Listing, q: string)
    requires !HasName(l, name)
    ensures Get(Insert(name, node, l), q) == if name == Utf8(q) then Some(node) else Get(l, q)
    ensures forall n :: HasName(Insert(name, node, l), n) <==> n == name || HasName(l, n)
  {
    if l.Child? {
      InsertFinds(name, node, l.rest, q);
    }
    if name == Utf8(q) {
      AbsentIsNotFound(l, q);
    }
  }

  lemma {:induction false} InsertStaysValid(name: Name, node: Node, l: Listing)
    requires ValidListing(l) && !HasName(l, name) && ValidNode(node)
    requires name.Utf8? ==> IsComponent(name.text)
    ensures ValidListing(Insert(name, node, l))
  {
    if l.Child? {
      InsertStaysValid(name, node, l.rest);
      InsertFinds(name, node, l.rest, "");
    }
  }

  /** Sorting a directory changes its order and nothing else. */
  lemma {:induction false} SortFinds(l: Listing, q: string)
    requires ValidListing(l)
    ensures ValidListing(Sort(l))
    ensures Get(Sort(l), q) == Get(l, q)
    ensures forall n :: HasName(Sort(l), n) <==> HasName(l, n)
  {
    if l.Child? {
      SortFinds(l.rest, q);
      InsertFinds(l.name, l.node, Sort(l.rest), q);
      InsertStaysValid(l.name, l.node, Sort(l.rest));
    }
  }

  /** The leaves of a folder say of every path what the folder holds there. */
  lemma {:induction false} LeavesDescribe(l: Listing, path: seq<string>)
    requires ValidListing(l) && path != []
    ensures Lookup(LeavesIn(l), path) == FindIn(l, path)
    decreases Weight(l), 0
  {
    if l.Child? {
      LeavesDescribe(l.rest, path);
      var mine := if l.name.Utf8? then Under(l.name.text, NodeLeaves(l.node)) else [];
      LookupConcat(mine, LeavesIn(l.rest), path);
      if l.name == Utf8(path[0]) {
        LookupUnder(l.name.text, NodeLeaves(l.node), path);
        NodeLeavesDescribe(l.node, path[1..]);
        AbsentIsNotFound(l.rest, path[0]);
      } else if l.name.Utf8? {
        LookupUnder(l.name.text, NodeLeaves(l.node), path);
      }
    }
  }

  lemma {:induction false} NodeLeavesDescribe(node: Node, path: seq<string>)
    requires ValidNode(node)
    ensures Lookup(NodeLeaves(node), path) == FindAt(node, path)
    decreases NodeWeight(node), 1
  {
    if node.Dir? {
      var sorted := Sort(node.listing);
      LeavesAreBelow(sorted);
      if path == [] {
        if LeavesIn(sorted) != [] {
          assert LeavesIn(sorted)[0] in LeavesIn(sorted);
        }
      } else {
        SortFinds(node.listing, path[0]);
        LeavesDescribe(sorted, path);
        assert Lookup([Leaf([], ADir)], path) == None;
        assert FindIn(sorted, path) == FindIn(node.listing, path);
      }
    } else {
      assert forall leaf: Leaf :: [leaf][1..] == [];
    }
  }

  // ----- Leaves are independent --------------------------------------------------------------

  lemma IndependentUnder(name: string, leaves: seq<Leaf>)
    requires Independent(leaves)
    ensures Independent(Under(name, leaves))
  {
    var u := Under(name, leaves);
    forall i, j | 0 <= i < |u| && 0 <= j < |u| && i != j ensures !(u[i].path <= u[j].path) {
      PrefixCons(u[i].path, u[j].path);
      assert u[i].path[1..] == leaves[i].path && u[j].path[1..] == leaves[j].path;
    }
  }

  lemma IndependentConcat(a: seq<Leaf>, b: seq<Leaf>)
    requires Independent(a) && Independent(b)
    requires forall x <- a, y <- b :: !(x.path <= y.path) && !(y.path <= x.path)
    ensures Independent(a + b)
  {
    var c := a + b;
    forall i, j | 0 <= i < |c| && 0 <= j < |c| && i != j ensures !(c[i].path <= c[j].path) {
      if i < |a| && j >= |a| {
        assert c[i] in a && c[j] in b;
      } else if i >= |a| && j < |a| {
        assert c[j] in a && c[i] in b;
      } else if i >= |a| {
        assert c[i] == b[i - |a|] && c[j] == b[j - |a|];
      }
    }
  }

  lemma {:induction false} LeavesStartWithNames(l: Listing)
    ensures forall x <- LeavesIn(l) :: x.path != [] && HasName(l, Utf8(x.path[0]))
    decreases l
  {
    if l.Child? {
      LeavesStartWithNames(l.rest);
    }
  }

  lemma {:induction false} LeavesAreIndependent(l: Listing)
    requires ValidListing(l)
    ensures Independent(LeavesIn(l))
    decreases Weight(l), 0
  {
    if l.Child? {
      LeavesAreIndependent(l.rest);
      if l.name.Utf8? {
        NodeLeavesAreIndependent(l.node);
        IndependentUnder(l.name.text, NodeLeaves(l.node));
        LeavesStartWithNames(l.rest);
        IndependentConcat(Under(l.name.text, NodeLeaves(l.node)), LeavesIn(l.rest));
      } else {
        assert LeavesIn(l) == LeavesIn(l.rest);
      }
    }
  }

  lemma {:induction false} NodeLeavesAreIndependent(node: Node)
    requires ValidNode(node)
    ensures Independent(NodeLeaves(node))
    decreases NodeWeight(node), 1
  {
    if node.Dir? {
      SortFinds(node.listing, "");
      LeavesAreIndependent(Sort(node.listing));
    }
  }

  // ----- The walk writes the leaves ------------------------------------------------------------

  /** `path` below `rel`, as the walk spells it. */
  function At(rel: string, path: seq<string>): string {
    if path == [] then rel else rel + "/" + Join(path)
  }

  function EntryFor(id: nat, rel: string, item: Item): FileEntry {
    FileEntry("f" + Decimal(id), rel, if item.AFile? then item.size else 0, item.ADir?)
  }

  /** Entries for `leaves` below `rel`, with consecutive identifiers from `first`. */
  function Labelled(first: nat, rel: string, leaves: seq<Leaf>): seq<FileEntry> {
    seq(|leaves|, i requires 0 <= i < |leaves| => EntryFor(first + i, At(rel, leaves[i].path), leaves[i].item))
  }

  lemma AtUnder(rel: string, name: string, path: seq<string>)
    ensures At(rel, [name] + path) == At(rel + "/" + name, path)
  {
    if path != [] {
      assert ([name] + path)[1..] == path;
      assert rel + "/" + (name + "/" + Join(path)) == (rel + "/" + name) + "/" + Join(path);
    }
  }

  lemma LabelledUnder(first: nat, rel: string, name: string, leaves: seq<Leaf>)
    ensures Labelled(first, rel, Under(name, leaves)) == Labelled(first, rel + "/" + name, leaves)
  {
    forall i | 0 <= i < |leaves|
      ensures Labelled(first, rel, Under(name, leaves))[i] == Labelled(first, rel + "/" + name, leaves)[i]
    {
      AtUnder(rel, name, leaves[i].path);
    }
  }

  lemma LabelledConcat(files: seq<FileEntry>, step: seq<FileEntry>, rel: string, a: seq<Leaf>, b: seq<Leaf>)
    requires step == files + Labelled(|files|, rel, a)
    ensures files + Labelled(|files|, rel, a + b) == step + Labelled(|step|, rel, b)
  {
  }

  lemma {:induction false} WalkWritesEntries(files: seq<FileEntry>, l: Listing, prefix: string, depth: nat)
    requires WalkedEntries(files, l, prefix, depth).Ok?
    ensures WalkedEntries(files, l, prefix, depth).value == files + Labelled(|files|, prefix, LeavesIn(l))
    decreases Weight(l), 0
  {
    if l.Child? {
      var rel := prefix + "/" + l.name.text;
      var mine, rest := NodeLeaves(l.node), LeavesIn(l.rest);
      var step := WalkedChild(files, l.node, rel, depth).value;
      WalkWritesNode(files, l.node, rel, depth);
      WalkWritesEntries(step, l.rest, prefix, depth);
      LabelledUnder(|files|, prefix, l.name.text, mine);
      LabelledConcat(files, step, prefix, Under(l.name.text, mine), rest);
    }
  }

  lemma LabelledOne(files: seq<FileEntry>, rel: string, item: Item, size: nat, isDir: bool)
    requires Pushed(files, rel, size, isDir).Ok? && item == if isDir then ADir else AFile(size)
    requires isDir ==> size == 0
    ensures Pushed(files, rel, size, isDir).value == files + Labelled(|files|, rel, [Leaf([], item)])
  {
    assert Labelled(|files|, rel, [Leaf([], item)]) == [EntryFor(|files|, rel, item)];
  }

  lemma {:induction false} WalkWritesNode(files: seq<FileEntry>, node: Node, rel: string, depth: nat)
    requires WalkedChild(files, node, rel, depth).Ok?
    ensures WalkedChild(files, node, rel, depth).value == files + Labelled(|files|, rel, NodeLeaves(node))
    decreases NodeWeight(node), 2
  {
    match node {
      case File(size) => LabelledOne(files, rel, AFile(size), size, false);
      case Link(_) =>
        if Target(node).File? {
          LabelledOne(files, rel, AFile(Target(node).size), Target(node).size, false);
        }
      case Dir(l) =>
        WalkWritesEntries(files, Sort(l), rel, depth + 1);
        if LeavesIn(Sort(l)) == [] {
          assert Labelled(|files|, rel, []) == [];
          LabelledOne(files, rel, ADir, 0, true);
        }
      case Special =>
    }
  }

  // ----- Top level --------------------------------------------------------------------------------

  /** The copied forest as the manifest names it: unique top names, links resolved. */
  function Forest(used: set<string>, sources: seq<Source>): Listing
    decreases sources
  {
    if sources == [] || TopName(used, sources[0]).Err? then Empty
    else
      var top := TopName(used, sources[0]).value;
      Child(Utf8(top), Target(sources[0].node), Forest(used + {top}, sources[1..]))
  }

  predicate ValidSources(sources: seq<Source>) {
    forall s <- sources :: ValidNode(s.node)
  }

  lemma {:induction false} TargetIsValid(node: Node)
    requires ValidNode(node)
    ensures ValidNode(Target(node))
  {
    if node.Link? {
      TargetIsValid(node.target);
    }
  }

  lemma TopNameIsNew(used: set<string>, source: Source)
    requires TopName(used, source).Ok?
    ensures TopName(used, source).value !in used && '/' !in TopName(used, source).value
  {
    var raw := TrimSeparators(source.raw);
    BaseNameIsSafe(raw);
    UniqueRelIsNew(used, SafeBaseName(raw).value);
  }

  lemma {:induction false} ForestNamesAreNew(used: set<string>, sources: seq<Source>)
    ensures forall n :: HasName(Forest(used, sources), n) ==> n.Utf8? && n.text !in used
    decreases sources
  {
    if sources != [] && TopName(used, sources[0]).Ok? {
      TopNameIsNew(used, sources[0]);
      ForestNamesAreNew(used + {TopName(used, sources[0]).value}, sources[1..]);
    }
  }

  lemma TopIsNotEmpty(files: seq<FileEntry>, node: Node, top: string)
    requires FrozenTop(files, node, top).Ok?
    ensures FrozenTop(files, node, top).value == files + Labelled(|files|, top, NodeLeaves(Target(node)))
    ensures NodeLeaves(Target(node)) != []
  {
    var target := Target(node);
    if target.Dir? {
      WalkWritesEntries(files, Sort(target.listing), top, 0);
    }
  }

  lemma {:induction false} FreezeWritesForest(files: seq<FileEntry>, used: set<string>, sources: seq<Source>)
    requires Frozen(files, used, sources).Ok? && ValidSources(sources)
    ensures Frozen(files, used, sources).value == files + TopEntries(|files|, LeavesIn(Forest(used, sources)))
    decreases sources
  {
    if sources != [] {
      var top := TopName(used, sources[0]).value;
      var mine := NodeLeaves(Target(sources[0].node));
      var rest := LeavesIn(Forest(used + {top}, sources[1..]));
      TopIsNotEmpty(files, sources[0].node, top);
      var step := files + Labelled(|files|, top, mine);
      FreezeWritesForest(step, used + {top}, sources[1..]);
      TopEntriesUnder(|files|, top, mine);
      TopEntriesConcat(files, step, Under(top, mine), rest);
    }
  }

  /** Entries for leaves named by whole paths. */
  function TopEntries(first: nat, leaves: seq<Leaf>): seq<FileEntry> {
    seq(|leaves|, i requires 0 <= i < |leaves| => EntryFor(first + i, Join(leaves[i].path), leaves[i].item))
  }

  lemma TopEntriesConcat(files: seq<FileEntry>, step: seq<FileEntry>, a: seq<Leaf>, b: seq<Leaf>)
    requires step == files + TopEntries(|files|, a)
    ensures files + TopEntries(|files|, a + b) == step + TopEntries(|step|, b)
  {
  }

  lemma TopEntriesUnder(first: nat, top: string, leaves: seq<Leaf>)
    ensures TopEntries(first, Under(top, leaves)) == Labelled(first, top, leaves)
  {
    forall i | 0 <= i < |leaves|
      ensures TopEntries(first, Under(top, leaves))[i] == Labelled(first, top, leaves)[i]
    {
      var p := [top] + leaves[i].path;
      assert p[1..] == leaves[i].path;
    }
  }

  // ----- Every pushed path is safe, every leaf path is made of components ----------------------------

  /** `after` extends `before` by entries with safe paths, within the manifest cap. */
  predicate ExtendsSafely(before: seq<FileEntry>, after: seq<FileEntry>) {
    && before <= after
    && (|before| <= MANIFEST_MAX ==> |after| <= MANIFEST_MAX)
    && forall i :: |before| <= i < |after| ==> IsSafeRelPath(after[i].relPath)
  }

  lemma {:induction false} WalkExtendsSafely(files: seq<FileEntry>, l: Listing, prefix: string, depth: nat)
    requires WalkedEntries(files, l, prefix, depth).Ok?
    ensures ExtendsSafely(files, WalkedEntries(files, l, prefix, depth).value)
    decreases Weight(l), 0
  {
    if l.Child? {
      var rel := prefix + "/" + l.name.text;
      NodeExtendsSafely(files, l.node, rel, depth);
      WalkExtendsSafely(WalkedChild(files, l.node, rel, depth).value, l.rest, prefix, depth);
    }
  }

  lemma {:induction false} NodeExtendsSafely(files: seq<FileEntry>, node: Node, rel: string, depth: nat)
    requires WalkedChild(files, node, rel, depth).Ok?
    ensures ExtendsSafely(files, WalkedChild(files, node, rel, depth).value)
    decreases NodeWeight(node), 2
  {
    if node.Dir? {
      WalkExtendsSafely(files, Sort(node.listing), rel, depth + 1);
    }
  }

  lemma TopExtendsSafely(files: seq<FileEntry>, node: Node, top: string)
    requires FrozenTop(files, node, top).Ok?
    ensures ExtendsSafely(files, FrozenTop(files, node, top).value)
  {
    var target := Target(node);
    if target.Dir? {
      WalkExtendsSafely(files, Sort(target.listing), top, 0);
    }
  }

  lemma {:induction false} FreezeExtendsSafely(files: seq<FileEntry>, used: set<string>, sources: seq<Source>)
    requires Frozen(files, used, sources).Ok?
    ensures ExtendsSafely(files, Frozen(files, used, sources).value)
    decreases sources
  {
    if sources != [] {
      var top := TopName(used, sources[0]).value;
      TopExtendsSafely(files, sources[0].node, top);
      FreezeExtendsSafely(FrozenTop(files, sources[0].node, top).value, used + {top}, sources[1..]);
    }
  }

  lemma {:induction false} LeavesAreComponents(l: Listing)
    requires ValidListing(l)
    ensures forall x <- LeavesIn(l) :: AreComponents(x.path)
    decreases Weight(l), 0
  {
    if l.Child? {
      LeavesAreComponents(l.rest);
      NodeLeavesAreComponents(l.node);
    }
  }

  lemma {:induction false} NodeLeavesAreComponents(node: Node)
    requires ValidNode(node)
    ensures forall x <- NodeLeaves(node) :: AreComponents(x.path)
    decreases NodeWeight(node), 1
  {
    if node.Dir? {
      SortFinds(node.listing, "");
      LeavesAreComponents(Sort(node.listing));
    }
  }

  /** An accepted top name is not empty: its entries start with it. */
  lemma TopIsComponent(files: seq<FileEntry>, node: Node, top: string)
    requires FrozenTop(files, node, top).Ok? && '/' !in top
    ensures IsComponent(top)
  {
    TopIsNotEmpty(files, node, top);
    TopExtendsSafely(files, node, top);
    var path := NodeLeaves(Target(node))[0].path;
    assert FrozenTop(files, node, top).value[|files|].relPath == At(top, path);
    BelowNothingIsUnsafe(path);
  }

  lemma BelowNothingIsUnsafe(path: seq<string>)
    ensures !IsSafeRelPath(At("", path))
  {
  }

  lemma {:induction false} ForestIsValid(files: seq<FileEntry>, used: set<string>, sources: seq<Source>)
    requires Frozen(files, used, sources).Ok? && ValidSources(sources)
    ensures ValidListing(Forest(used, sources))
    decreases sources
  {
    if sources != [] {
      var top := TopName(used, sources[0]).value;
      TopNameIsNew(used, sources[0]);
      TargetIsValid(sources[0].node);
      ForestIsValid(FrozenTop(files, sources[0].node, top).value, used + {top}, sources[1..]);
      ForestNamesAreNew(used + {top}, sources[1..]);
      TopIsComponent(files, sources[0].node, top);
    }
  }

  // ----- The manifest of an accepted forest ------------------------------------------------------------

  /**
   A frozen manifest lists exactly the leaves of the forest, with fresh identifiers,
   and every other path of the forest can be read off it.
   */
  lemma FreezeListsTheForest(sources: seq<Source>)
    requires Freeze(sources).Ok? && ValidSources(sources)
    ensures var leaves := LeavesIn(Forest({}, sources));
            && Freeze(sources).value == TopEntries(0, leaves)
            && Independent(leaves)
            && (forall x <- leaves :: x.path != [] && AreComponents(x.path))
            && (forall path :: path != [] ==> Lookup(leaves, path) == FindIn(Forest({}, sources), path))
  {
    var forest := Forest({}, sources);
    FreezeWritesForest([], {}, sources);
    ForestIsValid([], {}, sources);
    LeavesAreIndependent(forest);
    LeavesAreComponents(forest);
    LeavesAreBelow(forest);
    forall path: seq<string> | path != [] ensures Lookup(LeavesIn(forest), path) == FindIn(forest, path) {
      LeavesDescribe(forest, path);
    }
  }

  lemma FileIdsAreDistinct(first: nat, leaves: seq<Leaf>, i: nat, j: nat)
    requires i < |leaves| && j < |leaves| && i != j
    ensures TopEntries(first, leaves)[i].fileId != TopEntries(first, leaves)[j].fileId
  {
    var di, dj := Decimal(first + i), Decimal(first + j);
    if "f" + di == "f" + dj {
      assert ("f" + di)[1..] == di && ("f" + dj)[1..] == dj;
      DecimalIsInjective(first + i, first + j);
    }
  }

  /**
   Whatever the source freezes, the destination's re-validation accepts as it is: no
   accepted copy is dropped on the wire. Identifiers name one entry each.
   */
  lemma FrozenManifestIsAccepted(sources: seq<Source>)
    requires Freeze(sources).Ok? && ValidSources(sources)
    ensures var files := Freeze(sources).value;
            && |files| <= MANIFEST_MAX && SafePaths(files) && DistinctPaths(files)
            && forall i, j :: 0 <= i < j < |files| ==> files[i].fileId != files[j].fileId
  {
    FreezeListsTheForest(sources);
    FreezeExtendsSafely([], {}, sources);
    var leaves, files := LeavesIn(Forest({}, sources)), Freeze(sources).value;
    forall i, j | 0 <= i < j < |files|
      ensures files[i].relPath != files[j].relPath && files[i].fileId != files[j].fileId
    {
      FileIdsAreDistinct(0, leaves, i, j);
      assert leaves[i] in leaves && leaves[j] in leaves;
      assert !(leaves[i].path <= leaves[j].path);
      JoinsDiffer(leaves[i].path, leaves[j].path);
    }
  }
}
