/**
 Freezing a copied forest into a flat manifest, and re-validating a manifest that
 arrived from the network (core/src/clipboard.rs `freeze_manifest`, `Walk`,
 `validate_remote_manifest`).

 The file system is a finite tree. `Failing` stands for whatever the OS refuses to
 read; a link to it is a broken link.
 */
module Manifest {
  import opened Wrappers
  import opened Numerals
  import opened Names

  const MANIFEST_MAX: nat := 65_536
  const MAX_WALK_DEPTH: nat := 64

  datatype Name = Utf8(text: string) | NotUtf8(raw: nat)

  datatype Node = File(size: nat) | Dir(listing: Listing) | Link(target: Node) | Special | Failing

  /** A directory as the OS enumerates it, in any order. */
  datatype Listing = Empty | Child(name: Name, node: Node, rest: Listing)

  datatype FileEntry = FileEntry(fileId: string, relPath: string, size: nat, isDir: bool)

  /** A path named by the backend and what stands there. */
  datatype Source = Source(raw: string, node: Node)

  datatype Error = TooLarge | TooDeep | Unsupported | BadName | NotRegular | Io | NamesExhausted

  /** Follows links to what they finally name. */
  function Target(node: Node): (t: Node)
    ensures !t.Link?
  {
    if node.Link? then Target(node.target) else node
  }

  // ----- Name order ----------------------------------------------------------------

  predicate TextLe(a: string, b: string) {
    a == "" || (b != "" && (a[0] < b[0] || (a[0] == b[0] && TextLe(a[1..], b[1..]))))
  }

  predicate NameLe(a: Name, b: Name) {
    match (a, b)
    case (Utf8(s), Utf8(t)) => TextLe(s, t)
    case (Utf8(_), NotUtf8(_)) => true
    case (NotUtf8(_), Utf8(_)) => false
    case (NotUtf8(m), NotUtf8(n)) => m <= n
  }

  function Insert(name: Name, node: Node, l: Listing): Listing {
    match l
    case Empty => Child(name, node, Empty)
    case Child(n, d, rest) => if NameLe(name, n) then Child(name, node, l) else Child(n, d, Insert(name, node, rest))
  }

  function Sort(l: Listing): (s: Listing)
    ensures Weight(s) == Weight(l)
  {
    match l
    case Empty => Empty
    case Child(n, d, rest) => InsertWeighs(n, d, Sort(rest)); Insert(n, d, Sort(rest))
  }

  function Count(l: Listing): nat {
    if l.Empty? then 0 else 1 + Count(l.rest)
  }

  function Weight(l: Listing): nat {
    if l.Empty? then 0 else 1 + NodeWeight(l.node) + Weight(l.rest)
  }

  function NodeWeight(n: Node): nat {
    if n.Dir? then 1 + Weight(n.listing) else 0
  }

  lemma InsertWeighs(name: Name, node: Node, l: Listing)
    ensures Weight(Insert(name, node, l)) == 1 + NodeWeight(node) + Weight(l)
  {
  }

  // ----- The freeze, as a function ---------------------------------------------------

  function Pushed(files: seq<FileEntry>, rel: string, size: nat, isDir: bool): Result<seq<FileEntry>, Error> {
    if |files| >= MANIFEST_MAX then Err(TooLarge)
    else if !IsSafeRelPath(rel) then Err(Unsupported)
    else Ok(files + [FileEntry("f" + Decimal(|files|), rel, size, isDir)])
  }

  function WalkedDir(files: seq<FileEntry>, l: Listing, prefix: string, depth: nat): Result<seq<FileEntry>, Error>
    decreases Weight(l), 1
  {
    if depth > MAX_WALK_DEPTH then Err(TooDeep)
    else if |files| + Count(l) > MANIFEST_MAX then Err(TooLarge)
    else WalkedEntries(files, Sort(l), prefix, depth)
  }

  function WalkedEntries(files: seq<FileEntry>, l: Listing, prefix: string, depth: nat): Result<seq<FileEntry>, Error>
    decreases Weight(l), 0
  {
    if l.Empty? then Ok(files)
    else if l.name.NotUtf8? then Err(Unsupported)
    else
      var step := WalkedChild(files, l.node, prefix + "/" + l.name.text, depth);
      if step.Err? then step else WalkedEntries(step.value, l.rest, prefix, depth)
  }

  function WalkedChild(files: seq<FileEntry>, node: Node, rel: string, depth: nat): Result<seq<FileEntry>, Error>
    decreases NodeWeight(node), 2
  {
    match node
    case File(size) => Pushed(files, rel, size, false)
    case Link(_) => if Target(node).File? then Pushed(files, rel, Target(node).size, false) else Ok(files)
    case Dir(l) =>
      var walked := WalkedDir(files, l, rel, depth + 1);
      if walked.Ok? && |walked.value| == |files| then Pushed(walked.value, rel, 0, true) else walked
    case Special => Ok(files)
    case Failing => Err(Io)
  }

  function FrozenTop(files: seq<FileEntry>, node: Node, top: string): Result<seq<FileEntry>, Error> {
    match Target(node)
    case File(size) => Pushed(files, top, size, false)
    case Dir(l) =>
      var walked := WalkedDir(files, l, top, 0);
      if walked.Ok? && |walked.value| == |files| then Pushed(walked.value, top, 0, true) else walked
    case _ => Err(NotRegular)
  }

  function TopName(used: set<string>, source: Source): Result<string, Error> {
    if Target(source.node).Failing? then Err(Io)
    else
      var base := SafeBaseName(TrimSeparators(source.raw));
      if base.None? then Err(BadName)
      else
        var top := UniqueRel(used, base.value);
        if top.None? then Err(NamesExhausted) else Ok(top.value)
  }

  function Frozen(files: seq<FileEntry>, used: set<string>, sources: seq<Source>): Result<seq<FileEntry>, Error>
    decreases sources
  {
    if sources == [] then Ok(files)
    else
      var top := TopName(used, sources[0]);
      if top.Err? then Err(top.error)
      else
        var step := FrozenTop(files, sources[0].node, top.value);
        if step.Err? then step else Frozen(step.value, used + {top.value}, sources[1..])
  }

  function Freeze(sources: seq<Source>): Result<seq<FileEntry>, Error> {
    if |sources| > MANIFEST_MAX then Err(TooLarge) else Frozen([], {}, sources)
  }

  // ----- The freeze, as the source runs it -------------------------------------------

  /** The accumulating state of a walk. */
  class Walk {
    var files: seq<FileEntry>
    var nextId: nat

    ghost predicate Valid()
      reads this
    {
      nextId == |files| <= MANIFEST_MAX
    }

    constructor ()
      ensures Valid() && files == []
    {
      files := [];
      nextId := 0;
    }

    method Push(rel: string, size: nat, isDir: bool) returns (error: Option<Error>)
      requires Valid()
      modifies this
      ensures Valid()
      ensures match Pushed(old(files), rel, size, isDir)
              case Ok(entries) => error == None && files == entries
              case Err(e) => error == Some(e) && files == old(files)
    {
      if |files| >= MANIFEST_MAX {
        return Some(TooLarge);
      }
      if !IsSafeRelPath(rel) {
        return Some(Unsupported);
      }
      files := files + [FileEntry("f" + Decimal(nextId), rel, size, isDir)];
      nextId := nextId + 1;
      return None;
    }

    /** Returns how many entries the subtree contributed. */
    method WalkDir(l: Listing, prefix: string, depth: nat) returns (r: Result<nat, Error>)
      requires Valid()
      modifies this
      ensures Valid()
      ensures match WalkedDir(old(files), l, prefix, depth)
              case Ok(entries) => r.Ok? && files == entries && |files| == |old(files)| + r.value
              case Err(e) => r == Err(e)
      decreases Weight(l), 1
    {
      if depth > MAX_WALK_DEPTH {
        return Err(TooDeep);
      }
      var names, enumerated := l, 0;
      while names.Child?
        invariant enumerated + Count(names) == Count(l)
        invariant |files| + enumerated <= MANIFEST_MAX
        decreases Count(names)
      {
        enumerated := enumerated + 1;
        if |files| + enumerated > MANIFEST_MAX {
          return Err(TooLarge);
        }
        names := names.rest;
      }
      var before := |files|;
      var left := Sort(l);
      while left.Child?
        invariant Valid() && |files| >= before
        invariant Weight(left) <= Weight(l)
        invariant WalkedEntries(files, left, prefix, depth) == WalkedDir(old(files), l, prefix, depth)
        decreases Weight(left)
      {
        if left.name.NotUtf8? {
          return Err(Unsupported);
        }
        var error := this.WalkNode(left.node, prefix + "/" + left.name.text, depth);
        if error.Some? {
          return Err(error.value);
        }
        left := left.rest;
      }
      return Ok(|files| - before);
    }

    method WalkNode(node: Node, rel: string, depth: nat) returns (error: Option<Error>)
      requires Valid()
      modifies this
      ensures Valid()
      ensures match WalkedChild(old(files), node, rel, depth)
              case Ok(entries) => error == None && files == entries && |files| >= |old(files)|
              case Err(e) => error == Some(e)
      decreases NodeWeight(node), 2
    {
      match node
      case File(size) => error := Push(rel, size, false);
      case Link(_) =>
        var target := Target(node);
        if target.File? {
          error := Push(rel, target.size, false);
        } else {
          error := None;
        }
      case Dir(l) =>
        var r := WalkDir(l, rel, depth + 1);
        if r.Err? {
          return Some(r.error);
        }
        if r.value == 0 {
          error := Push(rel, 0, true);
        } else {
          error := None;
        }
      case Special => error := None;
      case Failing => error := Some(Io);
    }
  }

  method FreezeManifest(sources: seq<Source>) returns (r: Result<seq<FileEntry>, Error>)
    ensures r == Freeze(sources)
  {
    if |sources| > MANIFEST_MAX {
      return Err(TooLarge);
    }
    var used: set<string> := {};
    var walk := new Walk();
    var i := 0;
    while i < |sources|
      invariant 0 <= i <= |sources|
      invariant walk.Valid() && fresh(walk)
      invariant Frozen(walk.files, used, sources[i..]) == Freeze(sources)
    {
      var source := sources[i];
      assert sources[i..][0] == source && sources[i..][1..] == sources[i + 1..];
      var target := Target(source.node);
      if target.Failing? {
        return Err(Io);
      }
      var base := SafeBaseName(TrimSeparators(source.raw));
      if base.None? {
        return Err(BadName);
      }
      var top: Option<string>;
      top, used := MakeUnique(used, base.value);
      if top.None? {
        return Err(NamesExhausted);
      }
      var error: Option<Error>;
      match target {
        case Dir(l) =>
          var walked := walk.WalkDir(l, top.value, 0);
          if walked.Err? {
            return Err(walked.error);
          }
          error := None;
          if walked.value == 0 {
            error := walk.Push(top.value, 0, true);
          }
        case File(size) => error := walk.Push(top.value, size, false);
        case _ => error := Some(NotRegular);
      }
      if error.Some? {
        return Err(error.value);
      }
      i := i + 1;
    }
    return Ok(walk.files);
  }

  // ----- Re-validation at the destination ---------------------------------------------

  predicate DistinctPaths(files: seq<FileEntry>) {
    forall i, j :: 0 <= i < j < |files| ==> files[i].relPath != files[j].relPath
  }

  function PathSet(files: seq<FileEntry>): set<string> {
    set f <- files :: f.relPath
  }

  lemma DistinctSnoc(front: seq<FileEntry>, last: FileEntry)
    ensures DistinctPaths(front + [last]) <==> DistinctPaths(front) && last.relPath !in PathSet(front)
    ensures PathSet(front + [last]) == PathSet(front) + {last.relPath}
  {
    var files := front + [last];
    assert forall i :: 0 <= i < |front| ==> files[i] == front[i];
    if last.relPath in PathSet(front) {
      var i :| 0 <= i < |front| && front[i].relPath == last.relPath;
      assert files[i].relPath == files[|front|].relPath;
    }
  }

  /** No path is listed twice: there are as many of them as there are entries. */
  lemma {:induction false} DistinctIff(files: seq<FileEntry>)
    ensures |PathSet(files)| <= |files|
    ensures DistinctPaths(files) <==> |PathSet(files)| == |files|
    decreases |files|
  {
    if files != [] {
      var front, last := files[..|files| - 1], files[|files| - 1];
      DistinctIff(front);
      DistinctSnoc(front, last);
      assert files == front + [last];
    }
  }

  predicate SafePaths(files: seq<FileEntry>) {
    forall f <- files :: IsSafeRelPath(f.relPath)
  }

  /** Accepts exactly the manifests with few enough, safe and distinct paths, as they are. */
  method ValidateRemoteManifest(files: seq<FileEntry>) returns (r: Option<seq<FileEntry>>)
    ensures r == if |files| <= MANIFEST_MAX && SafePaths(files) && DistinctPaths(files) then Some(files) else None
  {
    if |files| > MANIFEST_MAX {
      return None;
    }
    var used: set<string> := {};
    var out: seq<FileEntry> := [];
    var i := 0;
    while i < |files|
      invariant 0 <= i <= |files| && out == files[..i]
      invariant used == set f | f in files[..i] :: f.relPath
      invariant SafePaths(files[..i]) && DistinctPaths(files[..i])
    {
      var f := files[i];
      assert files[..i + 1] == files[..i] + [f];
      if !IsSafeRelPath(f.relPath) || f.relPath in used {
        if f.relPath in used {
          var g :| g in files[..i] && g.relPath == f.relPath;
        }
        return None;
      }
      used := used + {f.relPath};
      out := out + [FileEntry(f.fileId, f.relPath, f.size, f.isDir)];
      i := i + 1;
    }
    assert files[..i] == files;
    return Some(out);
  }
}
