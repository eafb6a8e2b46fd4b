/**
 The inode tree the FUSE mount walks, rebuilt from a flat manifest
 (clipboard/src/files.rs `FileTree`). Nothing is assumed of the manifest: hostile
 entries are skipped or collide.
 */
module FileTree {
  import opened Wrappers
  import opened Names
  import opened Manifest

  const ROOT_INO: nat := 1

  datatype Kind = DirNode | FileNode

  datatype INode = INode(parent: nat, kind: Kind, children: seq<(string, nat)>, fileId: string, size: nat)

  /** `index`: the inode of every created path, by its components; `paths`: its inverse. */
  datatype Tree = Tree(
    nodes: map<nat, INode>, index: map<seq<string>, nat>, paths: map<nat, seq<string>>,
    next: nat, roots: seq<string>)

  const EMPTY_DIR := INode(ROOT_INO, DirNode, [], "", 0)
  const NEW_TREE := Tree(map[ROOT_INO := EMPTY_DIR], map[[] := ROOT_INO], map[ROOT_INO := []], ROOT_INO + 1, [])

  // ----- Components of a manifest path -------------------------------------------------

  function NonEmpty(segments: seq<string>): seq<string> {
    if segments == [] then []
    else if segments[0] == "" then NonEmpty(segments[1..])
    else [segments[0]] + NonEmpty(segments[1..])
  }

  function Components(path: string): seq<string> {
    NonEmpty(Split(path))
  }

  predicate Malformed(path: string, comps: seq<string>) {
    || (path != "" && path[0] == '/')
    || exists c :: c in comps && (c == ".." || c == "." || ':' in c || '\0' in c)
  }

  lemma {:induction false} SplitHasNoSlash(s: string)
    ensures forall seg <- Split(s) :: '/' !in seg
  {
    if s != "" {
      SplitHasNoSlash(s[1..]);
      assert Split(s[1..])[0] in Split(s[1..]);
    }
  }

  lemma {:induction false} NonEmptyKeeps(segments: seq<string>)
    requires forall seg <- segments :: '/' !in seg
    ensures AreComponents(NonEmpty(segments))
    ensures (forall seg <- segments :: seg != "") ==> NonEmpty(segments) == segments
  {
    if segments != [] {
      NonEmptyKeeps(segments[1..]);
      assert segments == [segments[0]] + segments[1..];
      assert segments[0] in segments;
      assert forall seg <- segments[1..] :: seg in segments;
    }
  }

  lemma ComponentsAreComponents(path: string)
    ensures AreComponents(Components(path))
  {
    SplitHasNoSlash(path);
    NonEmptyKeeps(Split(path));
  }

  lemma ComponentsOfJoin(path: seq<string>)
    requires path != [] && AreComponents(path)
    ensures Components(Join(path)) == path
  {
    SplitJoin(path);
    NonEmptyKeeps(path);
  }

  // ----- The build, as a function ------------------------------------------------------------

  function NewNode(parent: nat, isLeaf: bool, e: FileEntry): INode {
    if isLeaf && !e.isDir then INode(parent, FileNode, [], e.fileId, e.size)
    else INode(parent, DirNode, [], "", 0)
  }

  /** What placing an entry relies on: indexed paths have nodes, and inodes are used once. */
  predicate Usable(t: Tree) {
    && [] in t.index && t.index[[]] == ROOT_INO
    && (forall q <- t.index :: t.index[q] in t.nodes)
    && (forall i <- t.nodes :: i < t.next)
  }

  /** Creates `name` below the indexed folder `at`. */
  function AddNode(t: Tree, at: seq<string>, name: string, node: INode): (t': Tree)
    requires Usable(t) && at in t.index
    ensures Usable(t')
  {
    var p := t.index[at];
    var parent := t.nodes[p].(children := t.nodes[p].children + [(name, t.next)]);
    Tree(t.nodes[t.next := node][p := parent], t.index[at + [name] := t.next],
         t.paths[t.next := at + [name]], t.next + 1,
         if at == [] && name !in t.roots then t.roots + [name] else t.roots)
  }

  /** Places `e` from depth `k` on, below the already indexed `comps[..k]`. */
  function Descend(t: Tree, comps: seq<string>, k: nat, e: FileEntry): (t': Tree)
    requires Usable(t) && k <= |comps| && comps[..k] in t.index
    ensures Usable(t')
    decreases |comps| - k
  {
    if k == |comps| then t
    else
      var q := comps[..k + 1];
      if q in t.index then
        if k == |comps| - 1 || t.nodes[t.index[q]].kind.FileNode? then t else Descend(t, comps, k + 1, e)
      else
        assert comps[..k] + [comps[k]] == q;
        var t' := AddNode(t, comps[..k], comps[k], NewNode(t.index[comps[..k]], k == |comps| - 1, e));
        Descend(t', comps, k + 1, e)
  }

  function AddEntry(t: Tree, e: FileEntry): (t': Tree)
    requires Usable(t)
    ensures Usable(t')
  {
    var comps := Components(e.relPath);
    if comps == [] || Malformed(e.relPath, comps) then t
    else
      assert comps[..0] == [];
      Descend(t, comps, 0, e)
  }

  // ----- What every tree built from a manifest satisfies ----------------------------------------

  ghost predicate Inodes(t: Tree) {
    && t.next > ROOT_INO
    && (forall i :: i in t.nodes <==> ROOT_INO <= i < t.next)
    && t.nodes[ROOT_INO].parent == ROOT_INO && t.nodes[ROOT_INO].kind == DirNode
  }

  /** Inodes and created paths name each other. */
  ghost predicate Indexed(t: Tree) {
    && t.paths.Keys == t.nodes.Keys
    && (forall i <- t.paths :: t.paths[i] in t.index && t.index[t.paths[i]] == i && AreComponents(t.paths[i]))
    && (forall q <- t.index :: t.index[q] in t.paths && t.paths[t.index[q]] == q)
    && ROOT_INO in t.paths && t.paths[ROOT_INO] == []
  }

  /** Node `i` is a child of its parent, made before it, under its own name. */
  ghost predicate LinkedAt(t: Tree, i: nat) {
    && i in t.nodes && i in t.paths
    && var p, path := t.nodes[i].parent, t.paths[i];
       && p in t.nodes && p in t.paths && p < i
       && path != [] && t.paths[p] == path[..|path| - 1]
       && (path[|path| - 1], i) in t.nodes[p].children
  }

  ghost predicate Linked(t: Tree) {
    forall i {:trigger LinkedAt(t, i)} :: i in t.nodes && i != ROOT_INO ==> LinkedAt(t, i)
  }

  /** Every child is a node one component further. */
  ghost predicate Owned(t: Tree)
    requires t.paths.Keys == t.nodes.Keys
  {
    forall i <- t.nodes, c <- t.nodes[i].children :: c.1 in t.nodes && t.paths[c.1] == t.paths[i] + [c.0]
  }

  ghost predicate DistinctNames(children: seq<(string, nat)>) {
    forall a, b :: 0 <= a < b < |children| ==> children[a].0 != children[b].0
  }

  ghost predicate Shaped(t: Tree) {
    forall i <- t.nodes ::
      && DistinctNames(t.nodes[i].children)
      && (t.nodes[i].kind.FileNode? ==> t.nodes[i].children == [])
      && (t.nodes[i].kind.DirNode? ==> t.nodes[i].fileId == "" && t.nodes[i].size == 0)
  }

  function NamesOf(children: seq<(string, nat)>): seq<string> {
    seq(|children|, i requires 0 <= i < |children| => children[i].0)
  }

  ghost predicate TreeInv(t: Tree) {
    && Inodes(t) && Indexed(t) && Linked(t) && Owned(t) && Shaped(t)
    && t.roots == NamesOf(t.nodes[ROOT_INO].children)
  }

  ghost predicate CanAdd(t: Tree, at: seq<string>, name: string, node: INode) {
    && Usable(t) && at in t.index && at + [name] !in t.index && IsComponent(name)
    && t.nodes[t.index[at]].kind.DirNode?
    && node.parent == t.index[at] && node.children == []
    && (node.kind.DirNode? ==> node.fileId == "" && node.size == 0)
  }

  lemma AddNodeIndexed(t: Tree, at: seq<string>, name: string, node: INode)
    requires Inodes(t) && Indexed(t) && CanAdd(t, at, name, node)
    ensures Inodes(AddNode(t, at, name, node)) && Indexed(AddNode(t, at, name, node))
  {
  }

  lemma AddNodeLinked(t: Tree, at: seq<string>, name: string, node: INode)
    requires Inodes(t) && Indexed(t) && Linked(t) && CanAdd(t, at, name, node)
    requires Indexed(AddNode(t, at, name, node))
    ensures Linked(AddNode(t, at, name, node))
  {
    var t', p := AddNode(t, at, name, node), t.index[at];
    assert t.nodes[p].children <= t'.nodes[p].children;
    forall i | i in t'.nodes && i != ROOT_INO ensures LinkedAt(t', i) {
      if i == t.next {
        assert (at + [name])[..|at|] == at;
        assert t'.nodes[p].children[|t.nodes[p].children|] == (name, t.next);
      } else {
        assert LinkedAt(t, i);
      }
    }
  }

  lemma AddNodeOwned(t: Tree, at: seq<string>, name: string, node: INode)
    requires Inodes(t) && Indexed(t) && Owned(t) && CanAdd(t, at, name, node)
    requires Indexed(AddNode(t, at, name, node))
    ensures Owned(AddNode(t, at, name, node))
  {
    var t', p := AddNode(t, at, name, node), t.index[at];
    forall i <- t'.nodes, c <- t'.nodes[i].children
      ensures c.1 in t'.nodes && t'.paths[c.1] == t'.paths[i] + [c.0]
    {
      if i == p && c == (name, t.next) {
        assert t.paths[p] == at;
      } else if i != t.next {
        assert c in t.nodes[i].children;
      }
    }
  }

  lemma AddNodeShaped(t: Tree, at: seq<string>, name: string, node: INode)
    requires Inodes(t) && Indexed(t) && Owned(t) && Shaped(t) && CanAdd(t, at, name, node)
    ensures Shaped(AddNode(t, at, name, node))
  {
    var siblings := t.nodes[t.index[at]].children;
    forall c <- siblings ensures c.0 != name {
      assert t.paths[c.1] == at + [c.0];
    }
    assert DistinctNames(siblings + [(name, t.next)]);
  }

  lemma NewNameAmongChildren(t: Tree, at: seq<string>, name: string)
    requires Indexed(t) && Owned(t) && at in t.index && at + [name] !in t.index
    ensures name !in NamesOf(t.nodes[t.index[at]].children)
  {
    var siblings := t.nodes[t.index[at]].children;
    forall k | 0 <= k < |siblings| ensures siblings[k].0 != name {
      var c := siblings[k];
      assert c in siblings;
      assert t.paths[c.1] == at + [c.0];
    }
  }

  lemma AddNodeRoots(t: Tree, at: seq<string>, name: string, node: INode)
    requires Inodes(t) && Indexed(t) && Owned(t) && CanAdd(t, at, name, node)
    requires t.roots == NamesOf(t.nodes[ROOT_INO].children)
    ensures var t' := AddNode(t, at, name, node);
            ROOT_INO in t'.nodes && t'.roots == NamesOf(t'.nodes[ROOT_INO].children)
  {
    NewNameAmongChildren(t, at, name);
    assert at == [] <==> t.index[at] == ROOT_INO;
  }

  /** Creating a missing name in an existing folder keeps the tree consistent. */
  lemma AddNodeKeeps(t: Tree, at: seq<string>, name: string, node: INode)
    requires TreeInv(t) && CanAdd(t, at, name, node)
    ensures TreeInv(AddNode(t, at, name, node))
  {
    AddNodeIndexed(t, at, name, node);
    AddNodeLinked(t, at, name, node);
    AddNodeOwned(t, at, name, node);
    AddNodeShaped(t, at, name, node);
    AddNodeRoots(t, at, name, node);
  }

  lemma NewTreeIsConsistent()
    ensures TreeInv(NEW_TREE)
  {
    assert NEW_TREE.index[[]] == ROOT_INO;
  }

  // ----- Lookups ------------------------------------------------------------------------------------

  function ChildNamed(children: seq<(string, nat)>, name: string): Option<nat> {
    if children == [] then None
    else if children[0].0 == name then Some(children[0].1)
    else ChildNamed(children[1..], name)
  }

  /** `FileTree::lookup`: the inode of `name` under a directory. */
  function LookupName(t: Tree, parent: nat, name: string): Option<nat> {
    if parent in t.nodes && t.nodes[parent].kind.DirNode? then ChildNamed(t.nodes[parent].children, name) else None
  }

  /** The inode reached from the root by looking up one component after the other. */
  function WalkTo(t: Tree, path: seq<string>): Option<nat> {
    if path == [] then Some(ROOT_INO)
    else
      var above := WalkTo(t, path[..|path| - 1]);
      if above.None? then None else LookupName(t, above.value, path[|path| - 1])
  }

  lemma {:induction false} ChildNamedFinds(children: seq<(string, nat)>, name: string)
    requires DistinctNames(children)
    ensures var r := ChildNamed(children, name);
            if r.Some? then (name, r.value) in children else forall c <- children :: c.0 != name
    ensures forall c <- children :: c.0 == name ==> ChildNamed(children, name) == Some(c.1)
  {
    if children != [] {
      ChildNamedFinds(children[1..], name);
      assert forall c <- children[1..] :: c.0 != children[0].0;
      assert children == [children[0]] + children[1..];
    }
  }

  lemma FrontIsIndexed(t: Tree, path: seq<string>)
    requires Inodes(t) && Indexed(t) && Linked(t) && path in t.index && path != []
    ensures path[..|path| - 1] in t.index
  {
    assert LinkedAt(t, t.index[path]);
  }

  /** Walking by lookups finds exactly the indexed paths, at their inodes. */
  lemma {:induction false} WalkIsTheIndex(t: Tree, path: seq<string>)
    requires Inodes(t) && Indexed(t) && Linked(t) && Owned(t) && Shaped(t)
    ensures WalkTo(t, path) == if path in t.index then Some(t.index[path]) else None
  {
    if path != [] {
      var front, name := path[..|path| - 1], path[|path| - 1];
      assert path == front + [name];
      WalkIsTheIndex(t, front);
      if path in t.index {
        FrontIsIndexed(t, path);
      }
      if front in t.index {
        if path in t.index {
          StepFinds(t, front, name);
        } else {
          StepFindsNothing(t, front, name);
        }
      }
    }
  }

  lemma StepFinds(t: Tree, front: seq<string>, name: string)
    requires Inodes(t) && Indexed(t) && Linked(t) && Shaped(t) && front in t.index && front + [name] in t.index
    ensures LookupName(t, t.index[front], name) == Some(t.index[front + [name]])
  {
    var i, j := t.index[front], t.index[front + [name]];
    assert (front + [name])[..|front|] == front;
    assert LinkedAt(t, j);
    ChildNamedFinds(t.nodes[i].children, name);
  }

  lemma StepFindsNothing(t: Tree, front: seq<string>, name: string)
    requires Indexed(t) && Owned(t) && Shaped(t) && front in t.index && front + [name] !in t.index
    ensures LookupName(t, t.index[front], name) == None
  {
    var children := t.nodes[t.index[front]].children;
    NewNameAmongChildren(t, front, name);
    ChildNamedFinds(children, name);
    forall c <- children ensures c.0 != name {
      var k :| 0 <= k < |children| && children[k] == c;
      assert NamesOf(children)[k] == c.0;
    }
  }

  /** Every inode is reached from the root. */
  lemma EveryInodeIsReachable(t: Tree, ino: nat)
    requires TreeInv(t) && ino in t.nodes
    ensures WalkTo(t, t.paths[ino]) == Some(ino)
  {
    WalkIsTheIndex(t, t.paths[ino]);
  }

  // ----- What one entry does to the tree -----------------------------------------------------------------

  datatype Placed = PlacedDir | PlacedFile(fileId: string, size: nat)

  /** What the tree exposes at `path`. */
  function Standing(t: Tree, path: seq<string>): Option<Placed> {
    if path !in t.index || t.index[path] !in t.nodes then None
    else
      var n := t.nodes[t.index[path]];
      Some(if n.kind.DirNode? then PlacedDir else PlacedFile(n.fileId, n.size))
  }

  function PlacedAs(e: FileEntry): Placed {
    if e.isDir then PlacedDir else PlacedFile(e.fileId, e.size)
  }

  /** Nothing stands at `comps`, and only folders stand above it. */
  predicate Clear(t: Tree, comps: seq<string>) {
    && Standing(t, comps) == None
    && forall j :: 0 < j < |comps| ==> Standing(t, comps[..j]) in {None, Some(PlacedDir)}
  }

  /** After an entry that collides with nothing: its path, the missing folders above, the rest as before. */
  function StandingAfter(t: Tree, comps: seq<string>, leaf: Placed, q: seq<string>): Option<Placed> {
    if Standing(t, q).Some? then Standing(t, q)
    else if q == comps then Some(leaf)
    else if q < comps then Some(PlacedDir)
    else None
  }

  lemma AddNodeStanding(t: Tree, at: seq<string>, name: string, node: INode, q: seq<string>)
    requires Inodes(t) && Indexed(t) && CanAdd(t, at, name, node)
    ensures Standing(AddNode(t, at, name, node), q) ==
            if q == at + [name] then Some(if node.kind.DirNode? then PlacedDir else PlacedFile(node.fileId, node.size))
            else Standing(t, q)
  {
  }

  /** One missing component: the node made for it, with all that is needed to go on. */
  lemma MakeOne(t: Tree, comps: seq<string>, k: nat, e: FileEntry) returns (t': Tree)
    requires TreeInv(t) && AreComponents(comps) && k < |comps|
    requires Standing(t, comps[..k]) == Some(PlacedDir) && comps[..k + 1] !in t.index
    ensures comps[..k] + [comps[k]] !in t.index && IsComponent(comps[k])
    ensures t' == AddNode(t, comps[..k], comps[k], NewNode(t.index[comps[..k]], k == |comps| - 1, e))
    ensures TreeInv(t')
    ensures forall q :: Standing(t', q) ==
              if q == comps[..k + 1] then Some(if k == |comps| - 1 then PlacedAs(e) else PlacedDir) else Standing(t, q)
  {
    var node := NewNode(t.index[comps[..k]], k == |comps| - 1, e);
    assert comps[..k] + [comps[k]] == comps[..k + 1];
    assert comps[k] in comps;
    t' := AddNode(t, comps[..k], comps[k], node);
    AddNodeKeeps(t, comps[..k], comps[k], node);
    forall q ensures Standing(t', q) ==
      if q == comps[..k + 1] then Some(if k == |comps| - 1 then PlacedAs(e) else PlacedDir) else Standing(t, q)
    {
      AddNodeStanding(t, comps[..k], comps[k], node, q);
    }
  }

  lemma {:induction false} PrefixesAreIndexed(t: Tree, path: seq<string>, j: nat)
    requires Inodes(t) && Indexed(t) && Linked(t) && path in t.index && j <= |path|
    ensures path[..j] in t.index
    decreases |path|
  {
    if j < |path| {
      FrontIsIndexed(t, path);
      assert path[..|path| - 1][..j] == path[..j];
      PrefixesAreIndexed(t, path[..|path| - 1], j);
    } else {
      assert path[..j] == path;
    }
  }

  lemma StaysClear(t: Tree, t': Tree, comps: seq<string>, k: nat)
    requires Clear(t, comps) && k < |comps| - 1
    requires forall q :: Standing(t', q) == if q == comps[..k + 1] then Some(PlacedDir) else Standing(t, q)
    ensures Clear(t', comps)
  {
    assert |comps[..k + 1]| < |comps|;
  }

  lemma AboveIsStanding(t: Tree, comps: seq<string>, k: nat, q: seq<string>)
    requires TreeInv(t) && k <= |comps| && comps[..k] in t.index
    requires q < comps && |q| <= k
    ensures Standing(t, q).Some?
  {
    PrefixesAreIndexed(t, comps[..k], |q|);
    assert comps[..k][..|q|] == q;
  }

  /** Making one of the folders above first comes to the same in the end. */
  lemma StandingOneMore(t: Tree, t': Tree, comps: seq<string>, here: seq<string>, leaf: Placed, q: seq<string>)
    requires here < comps && Standing(t, here) == None
    requires Standing(t', q) == if q == here then Some(PlacedDir) else Standing(t, q)
    ensures StandingAfter(t', comps, leaf, q) == StandingAfter(t, comps, leaf, q)
  {
  }

  lemma {:induction false} DescendPlaces(t: Tree, comps: seq<string>, k: nat, e: FileEntry, q: seq<string>)
    requires TreeInv(t) && AreComponents(comps) && k < |comps|
    requires Standing(t, comps[..k]) == Some(PlacedDir) && Clear(t, comps)
    ensures TreeInv(Descend(t, comps, k, e))
    ensures Standing(Descend(t, comps, k, e), q) == StandingAfter(t, comps, PlacedAs(e), q)
    decreases |comps| - k
  {
    var here := comps[..k + 1];
    if here in t.index {
      assert here != comps;
      DescendPlaces(t, comps, k + 1, e, q);
    } else {
      var t' := MakeOne(t, comps, k, e);
      if k < |comps| - 1 {
        StaysClear(t, t', comps, k);
        StandingOneMore(t, t', comps, here, PlacedAs(e), q);
        DescendPlaces(t', comps, k + 1, e, q);
      } else {
        assert here == comps;
        if q < comps {
          AboveIsStanding(t, comps, k, q);
        }
      }
    }
  }

  /** A path on which `comps` cannot be placed: it is taken, or a file stands on the way. */
  predicate Blocks(t: Tree, comps: seq<string>, j: nat)
    requires j <= |comps|
  {
    && comps[..j] in t.index && t.index[comps[..j]] in t.nodes
    && (j == |comps| || t.nodes[t.index[comps[..j]]].kind.FileNode?)
  }

  lemma NextIsIndexed(t: Tree, comps: seq<string>, k: nat, j: nat)
    requires TreeInv(t) && k < j <= |comps| && comps[..j] in t.index
    ensures comps[..k + 1] in t.index
  {
    PrefixesAreIndexed(t, comps[..j], k + 1);
    assert comps[..j][..k + 1] == comps[..k + 1];
  }

  lemma DescendPasses(t: Tree, comps: seq<string>, k: nat, e: FileEntry, next: nat)
    requires Usable(t) && k < |comps| && next == k + 1 && comps[..k] in t.index && comps[..next] in t.index
    ensures Descend(t, comps, k, e) == t || (next < |comps| && Descend(t, comps, k, e) == Descend(t, comps, next, e))
    ensures Blocks(t, comps, next) ==> Descend(t, comps, k, e) == t
  {
  }

  lemma {:induction false} DescendCollides(t: Tree, comps: seq<string>, k: nat, e: FileEntry, j: nat)
    requires TreeInv(t) && k < j <= |comps| && comps[..k] in t.index && Blocks(t, comps, j)
    ensures Descend(t, comps, k, e) == t
    decreases |comps| - k
  {
    NextIsIndexed(t, comps, k, j);
    DescendPasses(t, comps, k, e, k + 1);
    if k + 1 < j {
      DescendCollides(t, comps, k + 1, e, j);
    }
  }

  /**
   An entry whose path exists, or passes through a file, leaves the tree as it is;
   any other well-formed entry adds its path and the folders above it, nothing else.
   */
  lemma AddEntryIff(t: Tree, e: FileEntry)
    requires TreeInv(t)
    ensures var comps := Components(e.relPath);
            && TreeInv(AddEntry(t, e))
            && if comps == [] || Malformed(e.relPath, comps) || !Clear(t, comps) then AddEntry(t, e) == t
               else forall q :: Standing(AddEntry(t, e), q) == StandingAfter(t, comps, PlacedAs(e), q)
  {
    var comps := Components(e.relPath);
    ComponentsAreComponents(e.relPath);
    if comps != [] && !Malformed(e.relPath, comps) {
      assert comps[..0] == [] && comps[..|comps|] == comps;
      if Clear(t, comps) {
        forall q ensures TreeInv(AddEntry(t, e)) && Standing(AddEntry(t, e), q) == StandingAfter(t, comps, PlacedAs(e), q) {
          DescendPlaces(t, comps, 0, e, q);
        }
        assert TreeInv(AddEntry(t, e)) by { DescendPlaces(t, comps, 0, e, []); }
      } else if comps in t.index {
        DescendCollides(t, comps, 0, e, |comps|);
      } else {
        var j :| 0 < j < |comps| && Standing(t, comps[..j]) !in {None, Some(PlacedDir)};
        DescendCollides(t, comps, 0, e, j);
      }
    }
  }

  // ----- Whole manifests ------------------------------------------------------------------------------------

  function Built(files: seq<FileEntry>): (t: Tree)
    ensures Usable(t)
  {
    if files == [] then NEW_TREE else AddEntry(Built(files[..|files| - 1]), files[|files| - 1])
  }

  lemma BuiltStep(files: seq<FileEntry>, i: nat, next: nat)
    requires i < |files| && next == i + 1
    ensures Built(files[..next]) == AddEntry(Built(files[..i]), files[i])
  {
    assert files[..next][..i] == files[..i];
  }

  lemma {:induction false} BuildKeeps(files: seq<FileEntry>)
    ensures TreeInv(Built(files))
  {
    if files == [] {
      NewTreeIsConsistent();
    } else {
      BuildKeeps(files[..|files| - 1]);
      AddEntryIff(Built(files[..|files| - 1]), files[|files| - 1]);
    }
  }

  /**
   Whatever the manifest says, the tree is consistent: parent and child links agree
   and never cycle, sibling names differ, files have no children, the roots are the
   root's children in order, every inode is reachable, and the paths created are
   exactly those a walk by lookups finds.
   */
  lemma AnyManifestBuildsATree(files: seq<FileEntry>)
    ensures var t := Built(files);
            && TreeInv(t)
            && (forall path :: WalkTo(t, path) == if path in t.index then Some(t.index[path]) else None)
            && (forall ino <- t.nodes :: WalkTo(t, t.paths[ino]) == Some(ino))
  {
    BuildKeeps(files);
    var t := Built(files);
    forall path ensures WalkTo(t, path) == if path in t.index then Some(t.index[path]) else None {
      WalkIsTheIndex(t, path);
    }
    forall ino <- t.nodes ensures WalkTo(t, t.paths[ino]) == Some(ino) {
      EveryInodeIsReachable(t, ino);
    }
  }

  // ----- The build, as the source runs it -----------------------------------------------------------------------

  /** The source keys its index by the `/`-joined path. */
  ghost predicate Keyed(index: map<seq<string>, nat>, byPath: map<string, nat>) {
    && (forall q {:trigger q in index} :: q in index ==> Join(q) in byPath && byPath[Join(q)] == index[q])
    && (forall s {:trigger Spells(index, s)} :: s in byPath ==> Spells(index, s))
  }

  ghost predicate Spells(index: map<seq<string>, nat>, s: string) {
    exists q :: q in index && Join(q) == s
  }

  ghost predicate Named(index: map<seq<string>, nat>) {
    forall q {:trigger AreComponents(q)} :: q in index ==> AreComponents(q)
  }

  lemma KeyedAgrees(index: map<seq<string>, nat>, byPath: map<string, nat>, q: seq<string>)
    requires Keyed(index, byPath) && AreComponents(q) && Named(index)
    ensures Join(q) in byPath <==> q in index
    ensures q in index ==> byPath[Join(q)] == index[q]
  {
    if Join(q) in byPath {
      assert Spells(index, Join(q));
      var r :| r in index && Join(r) == Join(q);
      assert AreComponents(r);
      JoinIsInjective(q, r);
    }
  }

  lemma KeyedGrows(index: map<seq<string>, nat>, byPath: map<string, nat>, q: seq<string>, ino: nat)
    requires Keyed(index, byPath) && AreComponents(q) && Join(q) !in byPath
    ensures Keyed(index[q := ino], byPath[Join(q) := ino])
  {
    var index', byPath' := index[q := ino], byPath[Join(q) := ino];
    forall s | s in byPath' ensures Spells(index', s) {
      if s == Join(q) {
        assert q in index';
      } else {
        assert Spells(index, s);
        var r :| r in index && Join(r) == s;
        assert r in index';
      }
    }
  }

  /** The state the loops of `build` carry, next to the tree it stands for. */
  ghost predicate Mirrors(t: Tree, nodes: map<nat, INode>, byPath: map<string, nat>, next: nat, roots: seq<string>) {
    Usable(t) && Named(t.index) && Keyed(t.index, byPath) && nodes == t.nodes && next == t.next && roots == t.roots
  }

  /** The branch of the inner loop that creates a component: its inode, its link, its index entry. */
  method Create(comps: seq<string>, depth: nat, e: FileEntry, cum: string, parent: nat, ghost t: Tree,
                nodes: map<nat, INode>, byPath: map<string, nat>, next: nat, roots: seq<string>)
    returns (ghost t': Tree, nodes': map<nat, INode>, byPath': map<string, nat>, roots': seq<string>)
    requires Mirrors(t, nodes, byPath, next, roots) && depth < |comps| && AreComponents(comps[..depth + 1])
    requires comps[..depth] in t.index && t.index[comps[..depth]] == parent
    requires cum == Join(comps[..depth + 1]) && cum !in byPath
    ensures t' == AddNode(t, comps[..depth], comps[depth], NewNode(parent, depth == |comps| - 1, e))
    ensures nodes' == AddNode(t, comps[..depth], comps[depth], NewNode(parent, depth == |comps| - 1, e)).nodes
    ensures Mirrors(t', nodes', byPath', next + 1, roots')
    ensures comps[..depth + 1] in t'.index && t'.index[comps[..depth + 1]] == next
  {
    var comp, node := comps[depth], NewNode(parent, depth == |comps| - 1, e);
    ghost var at, q := comps[..depth], comps[..depth + 1];
    assert q == at + [comp] && (at == [] <==> depth == 0);
    KeyedGrows(t.index, byPath, q, next);
    t' := AddNode(t, at, comp, node);
    nodes' := nodes[next := node];
    nodes' := nodes'[parent := nodes'[parent].(children := nodes'[parent].children + [(comp, next)])];
    byPath' := byPath[cum := next];
    roots' := if depth == 0 && comp !in roots then roots + [comp] else roots;
  }

  /** One component deeper, in the tree and in the spelling. */
  lemma DescendOnce(t: Tree, comps: seq<string>, k: nat, e: FileEntry, next: nat)
    requires Usable(t) && k < |comps| && comps[..k] in t.index && next == k + 1
    ensures var q := comps[..next];
      assert comps[..k] + [comps[k]] == q;
      Descend(t, comps, k, e) ==
        if q !in t.index then
          Descend(AddNode(t, comps[..k], comps[k], NewNode(t.index[comps[..k]], k == |comps| - 1, e)), comps, next, e)
        else if k == |comps| - 1 || t.nodes[t.index[q]].kind.FileNode? then t
        else Descend(t, comps, next, e)
  {
    assert comps[..k] + [comps[k]] == comps[..next];
  }

  /** The inner loop: one well-formed entry, component by component. */
  method Place(comps: seq<string>, e: FileEntry, ghost t: Tree,
               nodes: map<nat, INode>, byPath: map<string, nat>, next: nat, roots: seq<string>)
    returns (ghost t': Tree, nodes': map<nat, INode>, byPath': map<string, nat>, next': nat, roots': seq<string>)
    requires Mirrors(t, nodes, byPath, next, roots)
    requires comps != [] && AreComponents(comps) && comps[..0] in t.index
    ensures t' == Descend(t, comps, 0, e) && Mirrors(t', nodes', byPath', next', roots')
    ensures nodes' == Descend(t, comps, 0, e).nodes && roots' == Descend(t, comps, 0, e).roots
  {
    t', nodes', byPath', next', roots' := t, nodes, byPath, next, roots;
    ghost var goal := Descend(t, comps, 0, e);
    var cum, parent, depth := "", ROOT_INO, 0;
    while depth < |comps|
      invariant 0 <= depth <= |comps| && cum == Join(comps[..depth])
      invariant Mirrors(t', nodes', byPath', next', roots')
      invariant comps[..depth] in t'.index && t'.index[comps[..depth]] == parent
      invariant Descend(t', comps, depth, e) == goal
    {
      ExtendsJoin(comps, depth);
      DescendOnce(t', comps, depth, e, depth + 1);
      if cum != "" {
        cum := cum + "/";
      }
      cum := cum + comps[depth];
      KeyedAgrees(t'.index, byPath', comps[..depth + 1]);
      if cum in byPath' {
        var existing := byPath'[cum];
        if depth == |comps| - 1 || nodes'[existing].kind.FileNode? {
          return;
        }
        parent := existing;
      } else {
        t', nodes', byPath', roots' := Create(comps, depth, e, cum, parent, t', nodes', byPath', next', roots');
        parent := next';
        next' := next' + 1;
      }
      depth := depth + 1;
    }
  }

  lemma ExtendsJoin(comps: seq<string>, depth: nat)
    requires depth < |comps| && AreComponents(comps)
    ensures AreComponents(comps[..depth + 1])
    ensures var cum := Join(comps[..depth]);
            Join(comps[..depth + 1]) == (if cum != "" then cum + "/" else cum) + comps[depth]
  {
    assert comps[..depth + 1] == comps[..depth] + [comps[depth]];
    JoinOfComponentsIsEmptyIff(comps[..depth]);
    if depth > 0 {
      JoinSnoc(comps[..depth], comps[depth]);
    }
  }

  method Build(files: seq<FileEntry>) returns (nodes: map<nat, INode>, roots: seq<string>)
    ensures nodes == Built(files).nodes && roots == Built(files).roots
  {
    nodes, roots := map[ROOT_INO := EMPTY_DIR], [];
    var byPath: map<string, nat> := map["" := ROOT_INO];
    var next: nat := ROOT_INO + 1;
    ghost var t := NEW_TREE;
    assert Join([]) == "" && [] in t.index && Spells(t.index, "");
    var i := 0;
    while i < |files|
      invariant 0 <= i <= |files| && t == Built(files[..i])
      invariant Mirrors(t, nodes, byPath, next, roots)
    {
      var e := files[i];
      BuiltStep(files, i, i + 1);
      var comps := Components(e.relPath);
      if comps != [] && !Malformed(e.relPath, comps) {
        ComponentsAreComponents(e.relPath);
        assert comps[..0] == [];
        t, nodes, byPath, next, roots := Place(comps, e, t, nodes, byPath, next, roots);
      }
      assert t == AddEntry(Built(files[..i]), e);
      i := i + 1;
    }
    assert files[..i] == files;
  }
}
