// The cache and its changelog in bytes: hidden names, the walk along a path, and the texts
// that the script writes.
module CacheForms {
  import opened Bytes
  import opened Text
  import opened Paths
  import opened FileCache
  import opened Mtimes

  // A name that starts with a dot, 46.
  predicate Dotted(c: Component) {
    c.Normal? && |c.name| > 0 && c.name[0] == 46
  }

  // A fresh walk caches exactly the files on whose path no name starts with a dot.
  lemma {:induction false} RebuiltExact(disk: Tree, p: Path)
    ensures p in Rebuilt(disk) <==> p in disk && disk[p].File? && forall i | 0 <= i < |p| :: !Dotted(p[i])
    ensures p in Rebuilt(disk) ==> Rebuilt(disk)[p] == disk[p].data
  {
    assert Visible(p) <==> forall i | 0 <= i < |p| :: !Dotted(p[i]) by {
      assert forall i | 0 <= i < |p| :: Hidden(p[i]) <==> Dotted(p[i]);
    }
  }

  // ---------------------------------------------------------------- along a path

  // One step: to a child, nowhere, or up from a directory.
  predicate Goes(from: Path, c: Component, to: Path, disk: Tree) {
    match c
    case RootDir => false
    case CurDir => to == from
    case ParentDir => from != [] && from in disk && disk[from].Dir? && to == from[..|from| - 1]
    case Normal(_) => to == from + [c]
  }

  predicate Walks(trail: seq<Path>, here: Path, path: Path, at: Path, disk: Tree) {
    && |trail| == |path| + 1 && trail[0] == here && trail[|path|] == at
    && forall i | 0 <= i < |path| :: Goes(trail[i], path[i], trail[i + 1], disk)
  }

  lemma {:induction false} LocatedWalks(here: Path, path: Path, at: Path, disk: Tree) returns (trail: seq<Path>)
    requires Located(here, path, disk) == Some(at)
    ensures Walks(trail, here, path, at, disk)
    decreases |path|
  {
    if path == [] {
      trail := [here];
    } else {
      var next := match path[0]
        case ParentDir => here[..|here| - 1]
        case Normal(_) => here + [path[0]]
        case _ => here;
      var more := LocatedWalks(next, path[1..], at, disk);
      trail := [here] + more;
      forall i | 0 <= i < |path| ensures Goes(trail[i], path[i], trail[i + 1], disk) {
        if i > 0 { assert Goes(more[i - 1], path[1..][i - 1], more[i], disk); }
      }
    }
  }

  lemma {:induction false} WalksLocated(trail: seq<Path>, here: Path, path: Path, at: Path, disk: Tree)
    requires Walks(trail, here, path, at, disk)
    ensures Located(here, path, disk) == Some(at)
    decreases |path|
  {
    if path != [] {
      assert Goes(trail[0], path[0], trail[1], disk);
      forall i | 0 <= i < |path[1..]| ensures Goes(trail[1..][i], path[1..][i], trail[1..][i + 1], disk) {
        assert Goes(trail[i + 1], path[i + 1], trail[i + 2], disk);
      }
      WalksLocated(trail[1..], trail[1], path[1..], at, disk);
    }
  }

  // A path leads where its components lead one after the other, and nowhere else.
  lemma {:induction false} LocatedExact(here: Path, path: Path, at: Path, disk: Tree)
    ensures Located(here, path, disk) == Some(at) <==> exists trail :: Walks(trail, here, path, at, disk)
  {
    if Located(here, path, disk) == Some(at) {
      var trail := LocatedWalks(here, path, at, disk);
    }
    if trail :| Walks(trail, here, path, at, disk) {
      WalksLocated(trail, here, path, at, disk);
    }
  }

  // What is found along a path is stored under the path as written, even if that names the
  // same file in another way; a path that leads to no file changes nothing.
  lemma {:induction false} StoredAsWritten(files: Cache, path: Path, trail: seq<Path>, at: Path, disk: Tree)
    requires Walks(trail, [], path, at, disk)
    ensures Synced(files, path, disk) == if at in disk && disk[at].File? then files[path := disk[at].data] else files
  {
    WalksLocated(trail, [], path, at, disk);
  }

  // ---------------------------------------------------------------- texts

  // "DELETE", a tab and a path: the path is dropped. Any other line is a path to store.
  lemma {:induction false} DeleteLine(files: Cache, text: seq<byte>, disk: Tree)
    ensures Applied(files, [68, 69, 76, 69, 84, 69, 9] + text, disk) == files - {Components(text)}
    ensures !([68, 69, 76, 69, 84, 69, 9] <= text) ==> Applied(files, text, disk) == Synced(files, Components(text), disk)
  {
    assert DELETE_TAB == [68, 69, 76, 69, 84, 69, 9];
    assert ([68, 69, 76, 69, 84, 69, 9] + text)[7..] == text;
  }

  // The script's two files, ".modtimes" and ".changelog".
  predicate OwnName(p: Path) {
    || p == [Normal([46, 109, 111, 100, 116, 105, 109, 101, 115])]
    || p == [Normal([46, 99, 104, 97, 110, 103, 101, 108, 111, 103])]
  }

  // They are never recorded, and never reported unless a record already had them.
  lemma {:induction false} OwnFiles(recorded: map<Path, seq<byte>>, tree: Tree, p: Path)
    ensures Own(p) <==> OwnName(p)
    ensures OwnName(p) ==> p !in Stamps(tree)
    ensures OwnName(p) && p !in recorded ==> !IsUpdated(recorded, tree, p) && !IsDeleted(recorded, tree, p)
  {
    assert Lit(".modtimes") == [46, 109, 111, 100, 116, 105, 109, 101, 115];
    assert Lit(".changelog") == [46, 99, 104, 97, 110, 103, 101, 108, 111, 103];
  }

  // An entry of the record: the path, a line end, the time with its unit, and an empty line.
  lemma {:induction false} EntryText(e: Entry)
    requires Relative(e.path)
    ensures PrintEntry(e) == PathText(e.path) + [10] + e.stamp + [32, 115, 101, 99, 111, 110, 100, 115] + [10, 10]
  {
    assert SECONDS == [32, 115, 101, 99, 111, 110, 100, 115];
  }
}
