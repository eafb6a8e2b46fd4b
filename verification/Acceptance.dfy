/**
 Which forests `freeze_manifest` accepts (core/src/clipboard.rs): a condition on the
 forest alone, with no walk in it.
 */
module Acceptance {
  import opened Wrappers
  import opened Names
  import opened Manifest
  import opened Forests

  // ----- The condition -----------------------------------------------------------------

  /** Every name is UTF-8, nothing is unreadable, and no folder lies too deep. */
  predicate Walkable(l: Listing, depth: nat) {
    l.Child? ==> l.name.Utf8? && WalkableNode(l.node, depth) && Walkable(l.rest, depth)
  }

  predicate WalkableNode(node: Node, depth: nat) {
    && !node.Failing?
    && (node.Dir? ==> depth + 1 <= MAX_WALK_DEPTH && Walkable(node.listing, depth + 1))
  }

  /** No folder has more names than the cap leaves behind the `n` entries before it. */
  predicate EntriesFit(n: nat, l: Listing)
    decreases Weight(l), 0
  {
    l.Child? ==> NodeFits(n, l.node) && EntriesFit(n + |NodeLeaves(l.node)|, l.rest)
  }

  predicate NodeFits(n: nat, node: Node)
    decreases NodeWeight(node), 1
  {
    node.Dir? ==> n + Count(node.listing) <= MANIFEST_MAX && EntriesFit(n, Sort(node.listing))
  }

  predicate SafeBelow(rel: string, leaves: seq<Leaf>) {
    forall x :: x in leaves ==> IsSafeRelPath(At(rel, x.path))
  }

  /** Every source has a usable name of its own. */
  predicate TopsResolve(used: set<string>, sources: seq<Source>)
    decreases sources
  {
    sources == [] || (
      var top := TopName(used, sources[0]);
      top.Ok? && TopsResolve(used + {top.value}, sources[1..]))
  }

  predicate TopWalkable(source: Source) {
    var t := Target(source.node);
    t.File? || (t.Dir? && Walkable(t.listing, 0))
  }

  predicate AllWalkable(sources: seq<Source>) {
    forall s :: s in sources ==> TopWalkable(s)
  }

  predicate SafeLeaves(leaves: seq<Leaf>) {
    forall x, c :: x in leaves && c in x.path ==> SafeSegment(c)
  }

  // ----- Order does not matter ------------------------------------------------------------

  lemma {:induction false} WalkableInsert(name: Name, node: Node, l: Listing, depth: nat)
    ensures Walkable(Insert(name, node, l), depth) <==> name.Utf8? && WalkableNode(node, depth) && Walkable(l, depth)
  {
    if l.Child? {
      WalkableInsert(name, node, l.rest, depth);
    }
  }

  lemma {:induction false} WalkableSort(l: Listing, depth: nat)
    ensures Walkable(Sort(l), depth) <==> Walkable(l, depth)
  {
    if l.Child? {
      WalkableSort(l.rest, depth);
      WalkableInsert(l.name, l.node, Sort(l.rest), depth);
    }
  }

  // ----- The walk ----------------------------------------------------------------------------

  lemma SafeBelowUnder(rel: string, name: string, mine: seq<Leaf>, rest: seq<Leaf>)
    ensures SafeBelow(rel, Under(name, mine) + rest) <==> SafeBelow(rel + "/" + name, mine) && SafeBelow(rel, rest)
  {
    var under := Under(name, mine);
    forall i | 0 <= i < |mine| ensures At(rel, under[i].path) == At(rel + "/" + name, mine[i].path) {
      AtUnder(rel, name, mine[i].path);
    }
    if SafeBelow(rel, under + rest) {
      forall x | x in mine ensures IsSafeRelPath(At(rel + "/" + name, x.path)) {
        var i :| 0 <= i < |mine| && mine[i] == x;
        assert under[i] in under + rest;
      }
    }
  }

  /** The entries of a folder are accepted. */
  predicate EntriesOk(n: nat, l: Listing, prefix: string, depth: nat) {
    && Walkable(l, depth) && EntriesFit(n, l)
    && n + |LeavesIn(l)| <= MANIFEST_MAX && SafeBelow(prefix, LeavesIn(l))
  }

  predicate NodeOk(n: nat, node: Node, rel: string, depth: nat) {
    && WalkableNode(node, depth) && NodeFits(n, node)
    && n + |NodeLeaves(node)| <= MANIFEST_MAX && SafeBelow(rel, NodeLeaves(node))
  }

  lemma OneLeaf(files: seq<FileEntry>, rel: string, item: Item, size: nat, isDir: bool)
    ensures Pushed(files, rel, size, isDir).Ok? <==>
      |files| + |[Leaf([], item)]| <= MANIFEST_MAX && SafeBelow(rel, [Leaf([], item)])
  {
    assert Leaf([], item) in [Leaf([], item)];
  }

  lemma LeavesOf(l: Listing)
    requires l.Child? && l.name.Utf8?
    ensures LeavesIn(l) == Under(l.name.text, NodeLeaves(l.node)) + LeavesIn(l.rest)
    ensures |LeavesIn(l)| == |NodeLeaves(l.node)| + |LeavesIn(l.rest)|
  {
  }

  lemma FitOf(n: nat, l: Listing, next: nat)
    requires l.Child? && next == n + |NodeLeaves(l.node)|
    ensures EntriesFit(n, l) <==> NodeFits(n, l.node) && EntriesFit(next, l.rest)
  {
  }

  lemma WalkableOf(l: Listing, depth: nat)
    requires l.Child? && l.name.Utf8?
    ensures Walkable(l, depth) <==> WalkableNode(l.node, depth) && Walkable(l.rest, depth)
  {
  }

  /** What the first child and the rest come to. */
  lemma EntriesOkOf(n: nat, l: Listing, prefix: string, depth: nat, next: nat)
    requires l.Child? && l.name.Utf8? && next == n + |NodeLeaves(l.node)|
    ensures EntriesOk(n, l, prefix, depth) <==>
      NodeOk(n, l.node, prefix + "/" + l.name.text, depth) && EntriesOk(next, l.rest, prefix, depth)
  {
    LeavesOf(l);
    FitOf(n, l, next);
    WalkableOf(l, depth);
    SafeBelowUnder(prefix, l.name.text, NodeLeaves(l.node), LeavesIn(l.rest));
  }

  lemma WalkStep(files: seq<FileEntry>, l: Listing, prefix: string, depth: nat)
    requires l.Child? && l.name.Utf8?
    ensures var step := WalkedChild(files, l.node, prefix + "/" + l.name.text, depth);
      WalkedEntries(files, l, prefix, depth).Ok? <==> step.Ok? && WalkedEntries(step.value, l.rest, prefix, depth).Ok?
  {
  }

  lemma ChildLength(files: seq<FileEntry>, node: Node, rel: string, depth: nat, next: nat)
    requires WalkedChild(files, node, rel, depth).Ok? && next == |files| + |NodeLeaves(node)|
    ensures |WalkedChild(files, node, rel, depth).value| == next
  {
    WalkWritesNode(files, node, rel, depth);
  }

  lemma {:induction false} WalkOkIff(files: seq<FileEntry>, n: nat, l: Listing, prefix: string, depth: nat)
    requires n == |files| <= MANIFEST_MAX
    ensures WalkedEntries(files, l, prefix, depth).Ok? <==> EntriesOk(n, l, prefix, depth)
    decreases Weight(l), 0
  {
    if l.Child? && l.name.Utf8? {
      var rel := prefix + "/" + l.name.text;
      var next := n + |NodeLeaves(l.node)|;
      EntriesOkOf(n, l, prefix, depth, next);
      NodeOkIff(files, n, l.node, rel, depth);
      WalkStep(files, l, prefix, depth);
      var step := WalkedChild(files, l.node, rel, depth);
      if step.Ok? {
        ChildLength(files, l.node, rel, depth, next);
        WalkOkIff(step.value, next, l.rest, prefix, depth);
      }
    } else {
      NothingToWalk(files, n, l, prefix, depth);
    }
  }

  lemma NothingToWalk(files: seq<FileEntry>, n: nat, l: Listing, prefix: string, depth: nat)
    requires n == |files| <= MANIFEST_MAX && (l.Child? ==> l.name.NotUtf8?)
    ensures WalkedEntries(files, l, prefix, depth).Ok? <==> EntriesOk(n, l, prefix, depth)
  {
  }

  lemma FolderOkIff(files: seq<FileEntry>, l: Listing, rel: string, depth: nat)
    requires depth <= MAX_WALK_DEPTH
    requires WalkedEntries(files, Sort(l), rel, depth).Ok? <==> EntriesOk(|files|, Sort(l), rel, depth)
    ensures var walked := WalkedDir(files, l, rel, depth);
      var all := if walked.Ok? && |walked.value| == |files| then Pushed(walked.value, rel, 0, true) else walked;
      all.Ok? <==>
        && Walkable(l, depth) && NodeFits(|files|, Dir(l))
        && |files| + |NodeLeaves(Dir(l))| <= MANIFEST_MAX && SafeBelow(rel, NodeLeaves(Dir(l)))
  {
    WalkableSort(l, depth);
    var walked := WalkedDir(files, l, rel, depth);
    if walked.Ok? {
      WalkWritesEntries(files, Sort(l), rel, depth);
      if LeavesIn(Sort(l)) == [] {
        OneLeaf(walked.value, rel, ADir, 0, true);
      }
    } else if LeavesIn(Sort(l)) == [] {
      assert SafeBelow(rel, []);
    }
  }

  lemma {:induction false} NodeOkIff(files: seq<FileEntry>, n: nat, node: Node, rel: string, depth: nat)
    requires n == |files| <= MANIFEST_MAX
    ensures WalkedChild(files, node, rel, depth).Ok? <==> NodeOk(n, node, rel, depth)
    decreases NodeWeight(node), 2
  {
    match node {
      case File(size) => OneLeaf(files, rel, AFile(size), size, false);
      case Link(_) =>
        if Target(node).File? {
          OneLeaf(files, rel, AFile(Target(node).size), Target(node).size, false);
        }
      case Dir(l) =>
        if depth + 1 <= MAX_WALK_DEPTH {
          WalkOkIff(files, n, Sort(l), rel, depth + 1);
          FolderOkIff(files, l, rel, depth + 1);
        }
      case Special =>
      case Failing =>
    }
  }

  // ----- The sources ---------------------------------------------------------------------------

  /** A source is accepted under the name `top`. */
  predicate TopOk(n: nat, source: Source, top: string) {
    var t := Target(source.node);
    && TopWalkable(source) && NodeFits(n, t)
    && n + |NodeLeaves(t)| <= MANIFEST_MAX && SafeBelow(top, NodeLeaves(t))
  }

  lemma TopOkIff(files: seq<FileEntry>, n: nat, source: Source, top: string)
    requires n == |files| <= MANIFEST_MAX
    ensures FrozenTop(files, source.node, top).Ok? <==> TopOk(n, source, top)
  {
    match Target(source.node) {
      case File(size) => OneLeaf(files, top, AFile(size), size, false);
      case Dir(l) =>
        WalkOkIff(files, n, Sort(l), top, 0);
        FolderOkIff(files, l, top, 0);
      case _ =>
    }
  }

  predicate SafePathsOf(leaves: seq<Leaf>) {
    forall x :: x in leaves ==> IsSafeRelPath(Join(x.path))
  }

  lemma SafePathsUnder(top: string, mine: seq<Leaf>, rest: seq<Leaf>)
    ensures SafePathsOf(Under(top, mine) + rest) <==> SafeBelow(top, mine) && SafePathsOf(rest)
  {
    var under := Under(top, mine);
    forall i | 0 <= i < |mine| ensures Join(under[i].path) == At(top, mine[i].path) {
      assert ([top] + mine[i].path)[1..] == mine[i].path;
    }
    if SafePathsOf(under + rest) {
      forall x | x in mine ensures IsSafeRelPath(At(top, x.path)) {
        var i :| 0 <= i < |mine| && mine[i] == x;
        assert under[i] in under + rest;
      }
    }
  }

  /** The forest fits behind `n` entries, and its paths are safe. */
  predicate ForestOk(n: nat, forest: Listing) {
    EntriesFit(n, forest) && n + |LeavesIn(forest)| <= MANIFEST_MAX && SafePathsOf(LeavesIn(forest))
  }

  predicate SourcesOk(n: nat, used: set<string>, sources: seq<Source>) {
    TopsResolve(used, sources) && AllWalkable(sources) && ForestOk(n, Forest(used, sources))
  }

  lemma AllWalkableOf(sources: seq<Source>)
    requires sources != []
    ensures AllWalkable(sources) <==> TopWalkable(sources[0]) && AllWalkable(sources[1..])
  {
    assert sources == [sources[0]] + sources[1..];
  }

  lemma ForestOf(used: set<string>, sources: seq<Source>, top: string)
    requires sources != [] && TopName(used, sources[0]) == Ok(top)
    ensures Forest(used, sources)
      == Child(Utf8(top), Target(sources[0].node), Forest(used + {top}, sources[1..]))
  {
  }

  lemma ForestOkOf(n: nat, top: string, t: Node, rest: Listing, next: nat)
    requires next == n + |NodeLeaves(t)|
    ensures ForestOk(n, Child(Utf8(top), t, rest)) <==>
      NodeFits(n, t) && next <= MANIFEST_MAX && SafeBelow(top, NodeLeaves(t)) && ForestOk(next, rest)
  {
    SafePathsUnder(top, NodeLeaves(t), LeavesIn(rest));
    assert LeavesIn(Child(Utf8(top), t, rest)) == Under(top, NodeLeaves(t)) + LeavesIn(rest);
  }

  lemma TopsResolveOf(used: set<string>, sources: seq<Source>, top: string)
    requires sources != [] && TopName(used, sources[0]) == Ok(top)
    ensures TopsResolve(used, sources) <==> TopsResolve(used + {top}, sources[1..])
  {
  }

  /** What the first source and the rest come to. */
  lemma SourcesOkOf(n: nat, used: set<string>, sources: seq<Source>, top: string, next: nat)
    requires sources != [] && TopName(used, sources[0]) == Ok(top)
    requires next == n + |NodeLeaves(Target(sources[0].node))|
    ensures SourcesOk(n, used, sources) <==> TopOk(n, sources[0], top) && SourcesOk(next, used + {top}, sources[1..])
  {
    AllWalkableOf(sources);
    TopsResolveOf(used, sources, top);
    ForestOf(used, sources, top);
    ForestOkOf(n, top, Target(sources[0].node), Forest(used + {top}, sources[1..]), next);
  }

  lemma FrozenStep(files: seq<FileEntry>, used: set<string>, sources: seq<Source>, top: string)
    requires sources != [] && TopName(used, sources[0]) == Ok(top)
    ensures var step := FrozenTop(files, sources[0].node, top);
      Frozen(files, used, sources).Ok? <==> step.Ok? && Frozen(step.value, used + {top}, sources[1..]).Ok?
  {
  }

  lemma NoSourceLeft(files: seq<FileEntry>, n: nat, used: set<string>, sources: seq<Source>)
    requires n == |files| <= MANIFEST_MAX && (sources != [] ==> TopName(used, sources[0]).Err?)
    ensures Frozen(files, used, sources).Ok? <==> SourcesOk(n, used, sources)
  {
  }

  lemma FrozenTopLength(files: seq<FileEntry>, node: Node, top: string, next: nat)
    requires FrozenTop(files, node, top).Ok? && next == |files| + |NodeLeaves(Target(node))|
    ensures |FrozenTop(files, node, top).value| == next
  {
    TopIsNotEmpty(files, node, top);
  }

  lemma {:induction false} FrozenOkIff(files: seq<FileEntry>, n: nat, used: set<string>, sources: seq<Source>)
    requires n == |files| <= MANIFEST_MAX
    ensures Frozen(files, used, sources).Ok? <==> SourcesOk(n, used, sources)
    decreases sources
  {
    if sources != [] && TopName(used, sources[0]).Ok? {
      var top := TopName(used, sources[0]).value;
      var next := n + |NodeLeaves(Target(sources[0].node))|;
      SourcesOkOf(n, used, sources, top, next);
      TopOkIff(files, n, sources[0], top);
      FrozenStep(files, used, sources, top);
      var step := FrozenTop(files, sources[0].node, top);
      if step.Ok? {
        FrozenTopLength(files, sources[0].node, top, next);
        assert next <= MANIFEST_MAX;
        FrozenOkIff(step.value, next, used + {top}, sources[1..]);
      }
    } else {
      NoSourceLeft(files, n, used, sources);
    }
  }

  predicate NoSlash(path: seq<string>) {
    forall c <- path :: '/' !in c
  }

  lemma {:induction false} ForestHasNoSlash(used: set<string>, sources: seq<Source>)
    requires ValidSources(sources)
    ensures forall x :: x in LeavesIn(Forest(used, sources)) ==> x.path != [] && NoSlash(x.path)
    decreases sources
  {
    if sources != [] && TopName(used, sources[0]).Ok? {
      var top, t := TopName(used, sources[0]).value, Target(sources[0].node);
      TopNameIsNew(used, sources[0]);
      TargetIsValid(sources[0].node);
      NodeLeavesAreComponents(t);
      ForestHasNoSlash(used + {top}, sources[1..]);
      forall x | x in Under(top, NodeLeaves(t)) ensures x.path != [] && NoSlash(x.path) {
        var i :| 0 <= i < |NodeLeaves(t)| && Under(top, NodeLeaves(t))[i] == x;
        assert NodeLeaves(t)[i] in NodeLeaves(t);
      }
    }
  }

  lemma SafeComponentsIff(leaves: seq<Leaf>)
    requires forall x :: x in leaves ==> x.path != [] && NoSlash(x.path)
    ensures SafePathsOf(leaves) <==> SafeLeaves(leaves)
  {
    forall x | x in leaves ensures IsSafeRelPath(Join(x.path)) <==> forall c <- x.path :: SafeSegment(c) {
      SafePathIff(x.path);
    }
  }

  /**
   A forest is accepted if and only if: there are few enough sources, each with a usable
   name and a file or folder behind it; every name in the folders is UTF-8, nothing in them
   is unreadable and none lies too deep; the leaves are within the cap and no folder's names
   exceed what it leaves; and every component of a leaf's path is safe.
   */
  lemma FreezeOkIff(sources: seq<Source>)
    requires ValidSources(sources)
    ensures var forest := Forest({}, sources);
      Freeze(sources).Ok? <==>
        && |sources| <= MANIFEST_MAX && TopsResolve({}, sources) && AllWalkable(sources)
        && |LeavesIn(forest)| <= MANIFEST_MAX && EntriesFit(0, forest)
        && SafeLeaves(LeavesIn(forest))
  {
    FrozenOkIff([], 0, {}, sources);
    ForestHasNoSlash({}, sources);
    SafeComponentsIff(LeavesIn(Forest({}, sources)));
  }

  // ----- Why a forest is refused --------------------------------------------------------------

  /** A source that cannot be read, has no usable name, or is neither file nor folder is refused as such. */
  lemma SourceRefusal(files: seq<FileEntry>, used: set<string>, source: Source, top: string)
    ensures var t := Target(source.node);
      && (TopName(used, source) == Err(Io) <==> t.Failing?)
      && (TopName(used, source) == Err(BadName) <==> !t.Failing? && SafeBaseName(TrimSeparators(source.raw)).None?)
      && (FrozenTop(files, source.node, top) == Err(NotRegular) ==> t.Special? || t.Failing?)
      && (t.Special? || t.Failing? ==> FrozenTop(files, source.node, top) == Err(NotRegular))
  {
    if Target(source.node).Dir? {
      WalkRefusal(files, Target(source.node).listing, top, 0);
    }
  }

  predicate IsWalkError(e: Error) {
    e == TooLarge || e == TooDeep || e == Unsupported || e == Io
  }

  lemma PushRefusal(files: seq<FileEntry>, rel: string, size: nat, isDir: bool)
    ensures Pushed(files, rel, size, isDir) == Err(TooLarge) <==> |files| >= MANIFEST_MAX
    ensures Pushed(files, rel, size, isDir) == Err(Unsupported) <==> |files| < MANIFEST_MAX && !IsSafeRelPath(rel)
    ensures Pushed(files, rel, size, isDir).Err? ==> IsWalkError(Pushed(files, rel, size, isDir).error)
  {
  }

  /** A walk fails for its depth, its size, a name, or what cannot be read; the first two at the folder itself. */
  lemma {:induction false} WalkRefusal(files: seq<FileEntry>, l: Listing, prefix: string, depth: nat)
    ensures depth > MAX_WALK_DEPTH ==> WalkedDir(files, l, prefix, depth) == Err(TooDeep)
    ensures depth <= MAX_WALK_DEPTH && |files| + Count(l) > MANIFEST_MAX ==>
      WalkedDir(files, l, prefix, depth) == Err(TooLarge)
    ensures WalkedDir(files, l, prefix, depth).Err? ==> IsWalkError(WalkedDir(files, l, prefix, depth).error)
    decreases Weight(l), 1
  {
    if depth <= MAX_WALK_DEPTH && |files| + Count(l) <= MANIFEST_MAX {
      EntriesRefusal(files, Sort(l), prefix, depth);
    }
  }

  lemma {:induction false} EntriesRefusal(files: seq<FileEntry>, l: Listing, prefix: string, depth: nat)
    ensures l.Child? && l.name.NotUtf8? ==> WalkedEntries(files, l, prefix, depth) == Err(Unsupported)
    ensures WalkedEntries(files, l, prefix, depth).Err? ==> IsWalkError(WalkedEntries(files, l, prefix, depth).error)
    decreases Weight(l), 0
  {
    if l.Child? && l.name.Utf8? {
      var rel := prefix + "/" + l.name.text;
      NodeRefusal(files, l.node, rel, depth);
      var step := WalkedChild(files, l.node, rel, depth);
      if step.Ok? {
        EntriesRefusal(step.value, l.rest, prefix, depth);
      }
    }
  }

  lemma {:induction false} NodeRefusal(files: seq<FileEntry>, node: Node, rel: string, depth: nat)
    ensures node.Failing? ==> WalkedChild(files, node, rel, depth) == Err(Io)
    ensures WalkedChild(files, node, rel, depth).Err? ==> IsWalkError(WalkedChild(files, node, rel, depth).error)
    decreases NodeWeight(node), 2
  {
    if node.Dir? {
      WalkRefusal(files, node.listing, rel, depth + 1);
    }
  }
}
