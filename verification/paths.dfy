// Paths as camino splits them into components, and directory trees keyed by them.
module Paths {
  import opened Bytes
  import opened Text

  datatype Component = RootDir | CurDir | ParentDir | Normal(name: seq<byte>)

  // Two path texts are the same key when their components are the same.
  type Path = seq<Component>

  const SLASH: byte := 47
  const DOT: byte := 46

  // Pieces between slashes: empty ones and inner dots vanish.
  function PieceComponents(pieces: seq<seq<byte>>, first: bool): Path {
    if pieces == [] then []
    else
      var rest := PieceComponents(pieces[1..], false);
      var piece := pieces[0];
      if piece == [] then rest
      else if piece == [DOT] then (if first then [CurDir] + rest else rest)
      else if piece == [DOT, DOT] then [ParentDir] + rest
      else [Normal(piece)] + rest
  }

  function Components(text: seq<byte>): Path {
    var rest := PieceComponents(Split(text, [SLASH]), true);
    if text != [] && text[0] == SLASH then [RootDir] + rest else rest
  }

  predicate Sane(path: Path) {
    forall j | 0 <= j < |path| :: path[j] != RootDir && path[j] != ParentDir
  }

  method PathIsSane(path: Path) returns (sane: bool)
    ensures sane <==> Sane(path)
  {
    sane := true;
    for i := 0 to |path|
      invariant sane <==> forall j | 0 <= j < i :: path[j] != RootDir && path[j] != ParentDir
    {
      match path[i] {
        case RootDir => sane := false;
        case CurDir =>
        case ParentDir => sane := false;
        case Normal(_) =>
      }
    }
  }

  // A name that a directory entry can have.
  predicate EntryName(n: seq<byte>) {
    n != [] && Lacks(n, SLASH) && n != [DOT] && n != [DOT, DOT]
  }

  predicate Relative(p: Path) {
    p != [] && forall i | 0 <= i < |p| :: p[i].Normal? && EntryName(p[i].name)
  }

  function Names(p: Path): (r: seq<seq<byte>>)
    requires Relative(p)
    ensures |r| == |p|
  {
    seq(|p|, i requires 0 <= i < |p| => p[i].name)
  }

  function PathText(p: Path): seq<byte>
    requires Relative(p)
  {
    Join(Names(p), [SLASH])
  }

  lemma {:induction false} NamesComponents(p: Path, first: bool)
    requires Relative(p)
    ensures PieceComponents(Names(p), first) == p
    decreases |p|
  {
    assert p[0].Normal? && EntryName(p[0].name);
    if |p| == 1 {
      assert Names(p)[1..] == [];
    } else {
      NamesComponents(p[1..], false);
      assert Names(p)[1..] == Names(p[1..]);
    }
  }

  lemma {:induction false} PathTextReads(p: Path)
    requires Relative(p)
    ensures Components(PathText(p)) == p
  {
    var names := Names(p);
    assert AllLack(names, SLASH) by {
      forall i | 0 <= i < |names| ensures Lacks(names[i], SLASH) { assert EntryName(p[i].name); }
    }
    SplitJoin(names, [SLASH]);
    NamesComponents(p, true);
    assert EntryName(p[0].name);
    assert PathText(p)[0] == names[0][0];
  }

  // ---------------------------------------------------------------- trees

  // A stamp is a modification time as the script formats it.
  datatype Node = Dir(stamp: seq<byte>) | File(data: seq<byte>, stamp: seq<byte>)

  type Tree = map<Path, Node>

  ghost predicate WellFormedTree(t: Tree) {
    forall p | p in t :: Relative(p) && forall n | 0 < n < |p| :: p[..n] in t && t[p[..n]].Dir?
  }

  predicate Hidden(c: Component) {
    c.Normal? && c.name != [] && c.name[0] == DOT
  }

  predicate Visible(p: Path) {
    forall i | 0 <= i < |p| :: !Hidden(p[i])
  }
}
