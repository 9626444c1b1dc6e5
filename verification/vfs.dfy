// The file cache: built by a walk over the client directory, then kept by a changelog.
module FileCache {
  import opened Bytes
  import opened Text
  import opened Paths

  type Cache = map<Path, seq<byte>>

  const DELETE_TAB: seq<byte> := Lit("DELETE\t")

  // The cache as a fresh walk would build it: the files on no hidden path.
  function Rebuilt(disk: Tree): Cache {
    map p | p in disk && disk[p].File? && Visible(p) :: disk[p].data
  }

  function Restrict(files: Cache): Cache {
    map p | p in files && Visible(p) :: files[p]
  }

  // Reading a directory or nothing fails and leaves the cache alone.
  function Stored(files: Cache, key: Path, at: Path, disk: Tree): Cache {
    if at in disk && disk[at].File? then files[key := disk[at].data] else files
  }

  // Where the file system finds a path, step by step from here. None is a step through what
  // is no directory, or out of the client directory.
  function Located(here: Path, path: Path, disk: Tree): Option<Path>
    decreases |path|
  {
    if path == [] then Some(here)
    else
      match path[0]
      case RootDir => None
      case CurDir => Located(here, path[1..], disk)
      case ParentDir =>
        if here != [] && here in disk && disk[here].Dir? then Located(here[..|here| - 1], path[1..], disk) else None
      case Normal(_) => Located(here + [path[0]], path[1..], disk)
  }

  // What is found is stored under the path as it was written.
  function Synced(files: Cache, path: Path, disk: Tree): Cache {
    match Located([], path, disk)
    case None => files
    case Some(at) => Stored(files, path, at, disk)
  }

  lemma {:induction false} LocatedPlain(here: Path, path: Path, disk: Tree)
    requires forall i | 0 <= i < |path| :: path[i].Normal?
    ensures Located(here, path, disk) == Some(here + path)
    decreases |path|
  {
    if path != [] {
      LocatedPlain(here + [path[0]], path[1..], disk);
      assert here + [path[0]] + path[1..] == here + path;
    } else {
      assert here + [] == here;
    }
  }

  lemma {:induction false} SyncedPlain(files: Cache, path: Path, disk: Tree)
    requires Relative(path)
    ensures Synced(files, path, disk) == Stored(files, path, path, disk)
  {
    LocatedPlain([], path, disk);
    assert [] + path == path;
  }

  function Applied(files: Cache, line: seq<byte>, disk: Tree): Cache {
    if DELETE_TAB <= line then files - {Components(line[|DELETE_TAB|..])}
    else Synced(files, Components(line), disk)
  }

  function AllApplied(files: Cache, lines: seq<seq<byte>>, disk: Tree): Cache
    decreases |lines|
  {
    if lines == [] then files else AllApplied(Applied(files, lines[0], disk), lines[1..], disk)
  }

  // The part of the rebuilt cache strictly below dir, through the children in via.
  function Below(disk: Tree, dir: Path, via: set<Component>): Cache {
    map p | p in disk && disk[p].File? && Visible(p) && dir < p && p[|dir|] in via :: disk[p].data
  }

  ghost function PathsBelow(disk: Tree, dir: Path): set<Path> {
    set p | p in disk && dir < p
  }

  function Children(disk: Tree, dir: Path): set<Component> {
    set p | p in disk && |p| == |dir| + 1 && dir < p :: p[|dir|]
  }

  lemma {:induction false} BelowChild(disk: Tree, dir: Path, c: Component)
    requires WellFormedTree(disk) && Visible(dir) && dir + [c] in disk && !Hidden(c)
    ensures disk[dir + [c]].File? ==> Below(disk, dir, {c}) == map[dir + [c] := disk[dir + [c]].data]
    ensures disk[dir + [c]].Dir? ==> Below(disk, dir, {c}) == Below(disk, dir + [c], Children(disk, dir + [c]))
  {
    var d := dir + [c];
    forall p | p in Below(disk, dir, {c})
      ensures d <= p && (p != d ==> disk[d].Dir? && p in Below(disk, d, Children(disk, d)))
    {
      assert p[..|d|] == d;
      if p != d {
        assert p[..|d|] in disk;
        var e := p[..|d| + 1];
        assert e == p || e in disk;
        assert e in disk && d < e && e[|d|] == p[|d|];
      }
    }
    forall p | p in Below(disk, d, Children(disk, d))
      ensures p in Below(disk, dir, {c})
    {
      assert p[|dir|] == d[|dir|];
    }
    if disk[d].File? {
      assert d in Below(disk, dir, {c}) by {
        forall i | 0 <= i < |d| ensures !Hidden(d[i]) {}
      }
    }
  }

  lemma {:induction false} BelowSplit(disk: Tree, dir: Path, via: set<Component>, c: Component)
    ensures Below(disk, dir, via + {c}) == Below(disk, dir, via) + Below(disk, dir, {c})
  {
  }

  lemma {:induction false} BelowNothing(disk: Tree, dir: Path, files: Cache)
    ensures files + Below(disk, dir, Children(disk, dir) - Children(disk, dir)) == files
  {
  }

  lemma {:induction false} BelowGrows(disk: Tree, dir: Path, all: set<Component>, entries: set<Component>, c: Component, files: Cache)
    requires c in entries && entries <= all
    ensures files + Below(disk, dir, all - entries) + Below(disk, dir, {c})
         == files + Below(disk, dir, all - (entries - {c}))
  {
    BelowSplit(disk, dir, all - entries, c);
    assert all - (entries - {c}) == (all - entries) + {c};
  }

  lemma {:induction false} BelowHidden(disk: Tree, dir: Path, c: Component)
    requires Hidden(c)
    ensures Below(disk, dir, {c}) == map[]
  {
  }

  lemma {:induction false} PathsBelowShrink(disk: Tree, dir: Path, c: Component)
    requires dir + [c] in disk
    ensures PathsBelow(disk, dir + [c]) < PathsBelow(disk, dir)
  {
    var d := dir + [c];
    assert d in PathsBelow(disk, dir) && d !in PathsBelow(disk, d);
    forall p | p in PathsBelow(disk, d)
      ensures p in PathsBelow(disk, dir)
    {
      assert dir == d[..|dir|];
    }
  }

  class Vfs {
    var files: Cache

    constructor ()
      ensures files == map[]
    {
      files := map[];
    }

    method Get(path: Path) returns (r: Option<seq<byte>>)
      ensures r == if path in files then Some(files[path]) else None
    {
      if path in files { return Some(files[path]); }
      return None;
    }

    method Remove(path: Path)
      modifies this
      ensures files == old(files) - {path}
    {
      files := files - {path};
    }

    method SyncWithFileSystem(path: Path, disk: Tree)
      modifies this
      ensures files == Synced(old(files), path, disk)
    {
      var found := Located([], path, disk);
      if found.Some? && found.value in disk && disk[found.value].File? {
        files := files[path := disk[found.value].data];
      }
    }

    method ApplyDiff(diff: seq<byte>, disk: Tree)
      modifies this
      ensures files == Applied(old(files), diff, disk)
    {
      if DELETE_TAB <= diff {
        Remove(Components(diff[|DELETE_TAB|..]));
      } else {
        SyncWithFileSystem(Components(diff), disk);
      }
    }

    // The changelog block of Server::serve.
    method ApplyChangelog(changes: seq<byte>, disk: Tree)
      modifies this
      ensures files == AllApplied(old(files), Split(changes, [LF, LF]), disk)
    {
      var lines := Split(changes, [LF, LF]);
      for i := 0 to |lines|
        invariant AllApplied(old(files), lines, disk) == AllApplied(files, lines[i..], disk)
      {
        ApplyDiff(lines[i], disk);
      }
    }

    method BuildCache(disk: Tree)
      requires WellFormedTree(disk)
      modifies this
      ensures files == old(files) + Rebuilt(disk)
    {
      BuildFrom([], disk);
      RootIsAll(disk);
    }

    // The recursive walk, visiting the entries of dir in any order.
    method BuildFrom(dir: Path, disk: Tree)
      requires WellFormedTree(disk) && Visible(dir)
      modifies this
      ensures files == old(files) + Below(disk, dir, Children(disk, dir))
      decreases PathsBelow(disk, dir), 1
    {
      var entries := Children(disk, dir);
      ghost var all := entries;
      BelowNothing(disk, dir, old(files));
      while entries != {}
        invariant entries <= all == Children(disk, dir)
        invariant files == old(files) + Below(disk, dir, all - entries)
        decreases entries
      {
        var c :| c in entries;
        ChildOnDisk(disk, dir, c);
        Visit(dir, c, disk);
        BelowGrows(disk, dir, all, entries, c, old(files));
        entries := entries - {c};
      }
      assert all - {} == all;
    }

    // One directory entry: dotfiles are ignored, directories walked, files read.
    method Visit(dir: Path, c: Component, disk: Tree)
      requires WellFormedTree(disk) && Visible(dir) && dir + [c] in disk
      modifies this
      ensures files == old(files) + Below(disk, dir, {c})
      decreases PathsBelow(disk, dir), 0
    {
      if Hidden(c) {
        BelowHidden(disk, dir, c);
        return;
      }
      var path := dir + [c];
      BelowChild(disk, dir, c);
      if disk[path].Dir? {
        PathsBelowShrink(disk, dir, c);
        BuildFrom(path, disk);
      } else {
        SyncedPlain(files, path, disk);
        SyncWithFileSystem(path, disk);
      }
    }
  }

  lemma {:induction false} ChildOnDisk(disk: Tree, dir: Path, c: Component)
    requires c in Children(disk, dir)
    ensures dir + [c] in disk
  {
    var p :| p in disk && |p| == |dir| + 1 && dir < p && p[|dir|] == c;
    assert p == dir + [c];
  }

  lemma {:induction false} RootIsAll(disk: Tree)
    requires WellFormedTree(disk)
    ensures Below(disk, [], Children(disk, [])) == Rebuilt(disk)
  {
    forall p | p in Rebuilt(disk)
      ensures p in Below(disk, [], Children(disk, []))
    {
      assert Relative(p);
      var e := p[..1];
      assert e == p || e in disk;
      assert [] < e && e[0] == p[0];
    }
  }
}
