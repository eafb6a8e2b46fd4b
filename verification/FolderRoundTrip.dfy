/**
 A copied forest, frozen at the source, re-validated at the destination and rebuilt
 as an inode tree, is the forest that was copied.
 */
module FolderRoundTrip {
  import opened Wrappers
  import opened Numerals
  import opened Names
  import opened Manifest
  import opened Forests
  import opened FileTree

  function PlacedItem(id: nat, item: Item): Placed {
    match item
    case ADir => PlacedDir
    case AFile(size) => PlacedFile("f" + Decimal(id), size)
  }

  /** What leaves numbered from `first` place at `path`. */
  function LookupPlaced(first: nat, leaves: seq<Leaf>, path: seq<string>): Option<Placed>
    decreases leaves
  {
    if leaves == [] then None
    else if leaves[0].path == path then Some(PlacedItem(first, leaves[0].item))
    else if path < leaves[0].path then Some(PlacedDir)
    else LookupPlaced(first + 1, leaves[1..], path)
  }

  lemma {:induction false} LookupPlacedSnoc(first: nat, leaves: seq<Leaf>, last: Leaf, path: seq<string>)
    ensures LookupPlaced(first, leaves + [last], path) ==
            if LookupPlaced(first, leaves, path).Some? then LookupPlaced(first, leaves, path)
            else LookupPlaced(first + |leaves|, [last], path)
    decreases leaves
  {
    if leaves == [] {
      assert leaves + [last] == [last];
    } else {
      assert (leaves + [last])[1..] == leaves[1..] + [last];
      LookupPlacedSnoc(first + 1, leaves[1..], last, path);
    }
  }

  lemma {:induction false} LookupPlacedMeans(first: nat, leaves: seq<Leaf>, path: seq<string>)
    ensures match LookupPlaced(first, leaves, path)
            case None => forall x <- leaves :: !(path <= x.path)
            case Some(PlacedDir) => exists x :: x in leaves && path <= x.path
            case Some(PlacedFile(id, size)) =>
              exists i :: 0 <= i < |leaves| && leaves[i] == Leaf(path, AFile(size)) && id == "f" + Decimal(first + i)
    decreases leaves
  {
    if leaves != [] {
      assert leaves == [leaves[0]] + leaves[1..];
      if leaves[0].path != path && !(path < leaves[0].path) {
        LookupPlacedMeans(first + 1, leaves[1..], path);
        if LookupPlaced(first, leaves, path).Some? && LookupPlaced(first, leaves, path).value.PlacedFile? {
          var r := LookupPlaced(first, leaves, path).value;
          var i :| 0 <= i < |leaves[1..]| && leaves[1..][i] == Leaf(path, AFile(r.size))
                   && r.fileId == "f" + Decimal(first + 1 + i);
          assert leaves[i + 1] == leaves[1..][i] && first + 1 + i == first + (i + 1);
        }
      } else if leaves[0].path == path {
        assert leaves[0] == Leaf(path, leaves[0].item) && first + 0 == first;
      }
    }
  }

  /** Forgetting the identifiers, placed leaves are the leaves. */
  lemma {:induction false} PlacedIsLookup(first: nat, leaves: seq<Leaf>, path: seq<string>)
    ensures match LookupPlaced(first, leaves, path)
            case None => Lookup(leaves, path) == None
            case Some(PlacedDir) => Lookup(leaves, path) == Some(ADir)
            case Some(PlacedFile(_, size)) => Lookup(leaves, path) == Some(AFile(size))
    decreases leaves
  {
    if leaves != [] {
      PlacedIsLookup(first + 1, leaves[1..], path);
    }
  }

  lemma SafeIsWellFormed(path: seq<string>)
    requires path != [] && AreComponents(path) && IsSafeRelPath(Join(path))
    ensures Components(Join(path)) == path && !Malformed(Join(path), path)
  {
    ComponentsOfJoin(path);
    SafePathIff(path);
    forall c <- path ensures ':' !in c && '\0' !in c && c != "." && c != ".." {
      assert SafeSegment(c);
      assert Forbidden(':') && Forbidden('\0');
    }
  }

  /** Independent leaves never collide with what stands already. */
  lemma NextLeafIsClear(t: Tree, leaves: seq<Leaf>, n: nat)
    requires n < |leaves| && Independent(leaves) && leaves[n].path != []
    requires forall path {:trigger Standing(t, path)} :: path != [] ==> Standing(t, path) == LookupPlaced(0, leaves[..n], path)
    ensures Clear(t, leaves[n].path)
  {
    var comps := leaves[n].path;
    assert Standing(t, comps) == None by {
      LookupPlacedMeans(0, leaves[..n], comps);
      NoneAtOrBelow(leaves, n, comps);
    }
    forall j | 0 < j < |comps| ensures Standing(t, comps[..j]) in {None, Some(PlacedDir)} {
      LookupPlacedMeans(0, leaves[..n], comps[..j]);
      NoneAbove(leaves, n, comps[..j]);
    }
  }

  lemma NoneAtOrBelow(leaves: seq<Leaf>, n: nat, path: seq<string>)
    requires n < |leaves| && Independent(leaves) && path == leaves[n].path
    ensures forall x <- leaves[..n] :: !(path <= x.path)
  {
  }

  lemma NoneAbove(leaves: seq<Leaf>, n: nat, path: seq<string>)
    requires n < |leaves| && Independent(leaves) && path <= leaves[n].path
    ensures forall x <- leaves[..n] :: x.path != path
  {
  }

  /** The tree of the first `n` leaves holds what those leaves say. */
  ghost predicate Holds(t: Tree, leaves: seq<Leaf>) {
    forall path {:trigger Standing(t, path)} :: path != [] ==> Standing(t, path) == LookupPlaced(0, leaves, path)
  }

  /** What the next leaf adds to a lookup is what its entry adds to the tree. */
  lemma NextLookup(leaves: seq<Leaf>, n: nat, next: nat, path: seq<string>)
    requires next == n + 1 && n < |leaves|
    ensures LookupPlaced(0, leaves[..next], path) ==
      if LookupPlaced(0, leaves[..n], path).Some? then LookupPlaced(0, leaves[..n], path)
      else if path == leaves[n].path then Some(PlacedItem(n, leaves[n].item))
      else if path < leaves[n].path then Some(PlacedDir)
      else None
  {
    assert leaves[..next] == leaves[..n] + [leaves[n]] && [leaves[n]][1..] == [];
    LookupPlacedSnoc(0, leaves[..n], leaves[n], path);
  }

  lemma EntryIsPlaced(t: Tree, leaves: seq<Leaf>, n: nat)
    requires TreeInv(t) && n < |leaves| && Independent(leaves) && Holds(t, leaves[..n])
    requires leaves[n].path != [] && AreComponents(leaves[n].path) && IsSafeRelPath(Join(leaves[n].path))
    ensures var e := TopEntries(0, leaves)[n];
      forall q :: Standing(AddEntry(t, e), q) == StandingAfter(t, leaves[n].path, PlacedItem(n, leaves[n].item), q)
  {
    var e := TopEntries(0, leaves)[n];
    SafeIsWellFormed(leaves[n].path);
    NextLeafIsClear(t, leaves, n);
    AddEntryIff(t, e);
    assert PlacedAs(e) == PlacedItem(n, leaves[n].item);
  }

  lemma OneMoreLeaf(t: Tree, leaves: seq<Leaf>, n: nat, next: nat)
    requires next == n + 1 && TreeInv(t) && n < |leaves| && Independent(leaves) && Holds(t, leaves[..n])
    requires leaves[n].path != [] && AreComponents(leaves[n].path) && IsSafeRelPath(Join(leaves[n].path))
    ensures Holds(AddEntry(t, TopEntries(0, leaves)[n]), leaves[..next])
  {
    var placed := AddEntry(t, TopEntries(0, leaves)[n]);
    EntryIsPlaced(t, leaves, n);
    forall path {:trigger Standing(placed, path)} | path != []
      ensures Standing(placed, path) == LookupPlaced(0, leaves[..next], path)
    {
      assert Standing(t, path) == LookupPlaced(0, leaves[..n], path);
      NextLookup(leaves, n, next, path);
    }
  }

  lemma {:induction false} BuiltFromLeaves(leaves: seq<Leaf>, n: nat)
    requires n <= |leaves| && Independent(leaves)
    requires forall x <- leaves :: x.path != [] && AreComponents(x.path)
    requires SafePaths(TopEntries(0, leaves))
    ensures Holds(Built(TopEntries(0, leaves)[..n]), leaves[..n])
  {
    var files := TopEntries(0, leaves);
    if n == 0 {
      assert files[..0] == [] && leaves[..0] == [];
    } else {
      BuiltFromLeaves(leaves, n - 1);
      BuiltStep(files, n - 1, n);
      BuildKeeps(files[..n - 1]);
      assert leaves[n - 1] in leaves && files[n - 1] in files;
      OneMoreLeaf(Built(files[..n - 1]), leaves, n - 1, n);
    }
  }

  /** What a walk by lookups from the root finds, with its kind, identifier and size. */
  function Exposed(t: Tree, path: seq<string>): Option<Placed> {
    var ino := WalkTo(t, path);
    if ino.None? || ino.value !in t.nodes then None
    else
      var n := t.nodes[ino.value];
      Some(if n.kind.DirNode? then PlacedDir else PlacedFile(n.fileId, n.size))
  }

  lemma ExposedIsStanding(t: Tree, path: seq<string>)
    requires TreeInv(t)
    ensures Exposed(t, path) == Standing(t, path)
  {
    WalkIsTheIndex(t, path);
  }

  /** The entry a file of the tree comes from. */
  ghost predicate ComesFrom(files: seq<FileEntry>, path: seq<string>, id: string, size: nat) {
    exists e :: e in files && e == FileEntry(id, Join(path), size, false)
  }

  /** The tree shows at `path` what the forest holds there. */
  ghost predicate Shows(files: seq<FileEntry>, path: seq<string>, held: Option<Item>) {
    var seen := Exposed(Built(files), path);
    match held
    case None => seen == None
    case Some(ADir) => seen == Some(PlacedDir)
    case Some(AFile(size)) => exists id :: seen == Some(PlacedFile(id, size)) && ComesFrom(files, path, id, size)
  }

  lemma LeavesAreShown(leaves: seq<Leaf>, path: seq<string>)
    requires var t := Built(TopEntries(0, leaves));
             Exposed(t, path) == LookupPlaced(0, leaves, path)
    ensures Shows(TopEntries(0, leaves), path, Lookup(leaves, path))
  {
    var files, r := TopEntries(0, leaves), LookupPlaced(0, leaves, path);
    PlacedIsLookup(0, leaves, path);
    LookupPlacedMeans(0, leaves, path);
    if r.Some? && r.value.PlacedFile? {
      var i :| 0 <= i < |leaves| && leaves[i] == Leaf(path, AFile(r.value.size)) && r.value.fileId == "f" + Decimal(0 + i);
      assert files[i] == FileEntry(r.value.fileId, Join(path), r.value.size, false) && files[i] in files;
      assert ComesFrom(files, path, r.value.fileId, r.value.size);
    }
  }

  /**
   Every forest the source accepts survives the trip: the destination accepts its
   manifest as it is, and the rebuilt tree, walked from its root, holds at every path
   what the forest holds there (folders, empty ones included; files with their size and
   the identifier of their own manifest entry) and nothing anywhere else.
   */
  lemma FolderRoundTrips(sources: seq<Source>, path: seq<string>)
    requires Freeze(sources).Ok? && ValidSources(sources) && path != []
    ensures var files := Freeze(sources).value;
            && |files| <= MANIFEST_MAX && SafePaths(files) && DistinctPaths(files)
            && Shows(files, path, FindIn(Forest({}, sources), path))
  {
    FreezeListsTheForest(sources);
    FrozenManifestIsAccepted(sources);
    var files, leaves := Freeze(sources).value, LeavesIn(Forest({}, sources));
    BuiltFromLeaves(leaves, |leaves|);
    assert files[..|leaves|] == files && leaves[..|leaves|] == leaves;
    BuildKeeps(files);
    ExposedIsStanding(Built(files), path);
    LeavesAreShown(leaves, path);
  }
}
