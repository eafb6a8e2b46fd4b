/**
 What any manifest makes of the inode tree over time (clipboard/src/files.rs `FileTree`):
 which paths are taken apart how, which names can never appear, and what later entries
 leave alone.
 */
module TreeLaws {
  import opened Wrappers
  import opened Names
  import opened Manifest
  import opened FileTree

  // ----- Taking a path apart ---------------------------------------------------------------

  lemma {:induction false} SplitConcat(a: string, b: string)
    ensures Split(a + "/" + b) == Split(a) + Split(b)
  {
    if a == "" {
      assert ("" + "/" + b)[1..] == b;
    } else {
      assert (a + "/" + b)[1..] == a[1..] + "/" + b;
      SplitConcat(a[1..], b);
    }
  }

  lemma {:induction false} NonEmptyConcat(a: seq<string>, b: seq<string>)
    ensures NonEmpty(a + b) == NonEmpty(a) + NonEmpty(b)
  {
    if a == [] {
      assert a + b == b;
    } else {
      assert (a + b)[1..] == a[1..] + b;
      NonEmptyConcat(a[1..], b);
    }
  }

  /** A path is its components, whatever number of separators stands between, before or behind them. */
  lemma ComponentsAre(a: string, b: string, name: string)
    requires '/' !in name
    ensures Components(a + "/" + b) == Components(a) + Components(b)
    ensures Components(name) == if name == "" then [] else [name]
  {
    SplitConcat(a, b);
    NonEmptyConcat(Split(a), Split(b));
    SplitNoSlash(name);
    assert NonEmpty([name]) == if name == "" then NonEmpty([]) else [name] + NonEmpty([]);
  }

  // ----- Entries that are placed ---------------------------------------------------------------

  /** A relative path of at least one component, none of which the tree refuses. */
  predicate IsWellFormed(path: string) {
    && Components(path) != [] && path[..1] != "/"
    && forall i {:trigger Components(path)[i]} :: 0 <= i < |Components(path)| ==> IsGoodName(Components(path)[i])
  }

  predicate IsGoodName(c: string) {
    c != "." && c != ".." && ':' !in c && '\0' !in c
  }

  lemma {:induction false} NoTextNoComponents()
    ensures Components("") == []
  {
    assert Split("") == [""];
    assert NonEmpty([""]) == NonEmpty([]);
  }

  lemma WellFormedIff(path: string)
    ensures IsWellFormed(path) <==> Components(path) != [] && !Malformed(path, Components(path))
  {
    if path == "" {
      NoTextNoComponents();
    } else {
      assert path[..1] == [path[0]];
    }
    var comps := Components(path);
    if IsWellFormed(path) {
      forall c | c in comps ensures IsGoodName(c) {
        var i :| 0 <= i < |comps| && comps[i] == c;
      }
    } else if comps != [] && !Malformed(path, comps) {
      forall i | 0 <= i < |comps| ensures IsGoodName(comps[i]) {
        assert comps[i] in comps;
      }
    }
  }

  /** The entries that are placed are those with a well-formed path that nothing is in the way of. */
  lemma EntryIsPlacedIff(t: Tree, e: FileEntry)
    requires TreeInv(t)
    ensures var comps := Components(e.relPath);
      if IsWellFormed(e.relPath) && Clear(t, comps)
      then forall q :: Standing(AddEntry(t, e), q) == StandingAfter(t, comps, PlacedAs(e), q)
      else AddEntry(t, e) == t
  {
    WellFormedIff(e.relPath);
    AddEntryIff(t, e);
  }

  // ----- Names that never appear ------------------------------------------------------------------

  ghost predicate AllGood(index: map<seq<string>, nat>) {
    forall q, i {:trigger q in index, q[i]} :: q in index && 0 <= i < |q| ==> IsGoodName(q[i])
  }

  lemma {:induction false} DescendKeepsGood(t: Tree, comps: seq<string>, k: nat, e: FileEntry)
    requires Usable(t) && AllGood(t.index) && k <= |comps| && comps[..k] in t.index
    requires forall i {:trigger comps[i]} :: 0 <= i < |comps| ==> IsGoodName(comps[i])
    ensures AllGood(Descend(t, comps, k, e).index)
    decreases |comps| - k
  {
    if k < |comps| {
      DescendOnce(t, comps, k, e, k + 1);
      if comps[..k + 1] !in t.index {
        var t' := AddNode(t, comps[..k], comps[k], NewNode(t.index[comps[..k]], k == |comps| - 1, e));
        assert comps[..k] + [comps[k]] == comps[..k + 1];
        assert AllGood(t'.index);
        DescendKeepsGood(t', comps, k + 1, e);
      } else if k < |comps| - 1 && !t.nodes[t.index[comps[..k + 1]]].kind.FileNode? {
        DescendKeepsGood(t, comps, k + 1, e);
      }
    }
  }

  /** No manifest makes a node called `.` or `..`, or one with a separator, a colon or a NUL in its name. */
  lemma {:induction false} NamesAreGood(files: seq<FileEntry>)
    ensures AllGood(Built(files).index)
    ensures forall q :: q in Built(files).index ==> AreComponents(q)
  {
    if files != [] {
      var front, e := files[..|files| - 1], files[|files| - 1];
      NamesAreGood(front);
      WellFormedIff(e.relPath);
      if IsWellFormed(e.relPath) {
        assert Components(e.relPath)[..0] == [];
        DescendKeepsGood(Built(front), Components(e.relPath), 0, e);
      }
    }
    BuildKeeps(files);
  }

  // ----- What later entries leave alone --------------------------------------------------------------

  /** Every inode is what it was, and a folder lists new children behind the old ones. */
  ghost predicate Grows(t: Tree, t': Tree) {
    && t.roots <= t'.roots
    && forall i {:trigger i in t.nodes} :: i in t.nodes ==>
         i in t'.nodes && t.nodes[i].children <= t'.nodes[i].children
         && t'.nodes[i] == t.nodes[i].(children := t'.nodes[i].children)
  }

  lemma AddNodeGrows(t: Tree, at: seq<string>, name: string, node: INode)
    requires Usable(t) && at in t.index
    ensures Grows(t, AddNode(t, at, name, node))
  {
  }

  /** One more component: nothing, or one node, and then the rest of the path. */
  lemma DescendStep(t: Tree, comps: seq<string>, k: nat, e: FileEntry, next: nat) returns (t': Tree, on: bool)
    requires Usable(t) && k < |comps| && next == k + 1 && comps[..k] in t.index
    ensures Usable(t') && Grows(t, t')
    ensures on ==> comps[..next] in t'.index
    ensures Descend(t, comps, k, e) == if on then Descend(t', comps, next, e) else t'
  {
    DescendOnce(t, comps, k, e, next);
    if comps[..next] !in t.index {
      var node := NewNode(t.index[comps[..k]], k == |comps| - 1, e);
      assert comps[..k] + [comps[k]] == comps[..next];
      AddNodeGrows(t, comps[..k], comps[k], node);
      t', on := AddNode(t, comps[..k], comps[k], node), true;
    } else {
      t', on := t, k < |comps| - 1 && !t.nodes[t.index[comps[..next]]].kind.FileNode?;
    }
  }

  lemma {:induction false} DescendGrows(t: Tree, comps: seq<string>, k: nat, e: FileEntry)
    requires Usable(t) && k <= |comps| && comps[..k] in t.index
    ensures Grows(t, Descend(t, comps, k, e))
    decreases |comps| - k
  {
    if k < |comps| {
      var t', on := DescendStep(t, comps, k, e, k + 1);
      if on {
        DescendGrows(t', comps, k + 1, e);
        GrowsOn(t, t', Descend(t', comps, k + 1, e));
      }
    }
  }

  lemma GrowsOn(a: Tree, b: Tree, c: Tree)
    requires Grows(a, b) && Grows(b, c)
    ensures Grows(a, c)
  {
  }

  lemma EntryGrows(t: Tree, e: FileEntry)
    requires Usable(t)
    ensures Grows(t, AddEntry(t, e))
  {
    var comps := Components(e.relPath);
    if comps != [] && !Malformed(e.relPath, comps) {
      assert comps[..0] == [];
      DescendGrows(t, comps, 0, e);
    }
  }

  /**
   Inodes are stable and folders keep their order: what the first entries of a manifest make
   stays as it is, numbers, kinds, parents, identifiers and sizes, and later entries only
   add children and roots behind those there are.
   */
  lemma {:induction false} TreeGrows(files: seq<FileEntry>, n: nat)
    requires n <= |files|
    ensures Grows(Built(files[..n]), Built(files))
    decreases |files| - n
  {
    if n == |files| {
      assert files[..n] == files;
    } else {
      BuiltStep(files, n, n + 1);
      EntryGrows(Built(files[..n]), files[n]);
      TreeGrows(files, n + 1);
      GrowsOn(Built(files[..n]), Built(files[..n + 1]), Built(files));
    }
  }
}
