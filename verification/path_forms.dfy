// Every path text, rooted ones and those with dots included: how texts and components relate.
module PathForms {
  import opened Bytes
  import opened Text
  import opened Paths

  // The root and a leading dot can only come first; a name is what a directory entry can have.
  predicate Canonical(p: Path) {
    forall i | 0 <= i < |p| ::
      && (p[i].RootDir? || p[i].CurDir? ==> i == 0)
      && (p[i].Normal? ==> EntryName(p[i].name))
  }

  // The text "/", "." or "..", or the name.
  function PieceOf(c: Component): seq<byte> {
    match c
    case RootDir => []
    case CurDir => [46]
    case ParentDir => [46, 46]
    case Normal(name) => name
  }

  function PiecesOf(p: Path): (r: seq<seq<byte>>)
    ensures |r| == |p|
  {
    seq(|p|, i requires 0 <= i < |p| => PieceOf(p[i]))
  }

  // The pieces between slashes; the root is the empty piece in front of the first slash.
  function FullText(p: Path): seq<byte> {
    if p == [] then [] else if p == [RootDir] then [47] else Join(PiecesOf(p), [47])
  }

  lemma {:induction false} PiecesRead(p: Path, first: bool)
    requires Canonical(p) && (p != [] ==> !p[0].RootDir? && (p[0].CurDir? ==> first))
    ensures PieceComponents(PiecesOf(p), first) == p
    decreases |p|
  {
    if p != [] {
      assert PiecesOf(p)[1..] == PiecesOf(p[1..]);
      PiecesRead(p[1..], false);
      assert p == [p[0]] + p[1..];
    }
  }

  lemma {:induction false} PiecesLack(p: Path)
    requires Canonical(p)
    ensures AllLack(PiecesOf(p), 47)
  {
    forall i | 0 <= i < |p| ensures Lacks(PiecesOf(p)[i], 47) {
    }
  }

  // Every canonical path is read back from its text.
  lemma {:induction false} FullTextReads(p: Path)
    requires Canonical(p)
    ensures Components(FullText(p)) == p
  {
    if p == [] {
      NothingReads();
    } else if p == [RootDir] {
      SlashAlone();
    } else if p[0].RootDir? {
      RootedReads(p);
    } else {
      RelativeReads(p);
    }
  }

  lemma {:induction false} NothingReads()
    ensures Components([]) == []
  {
    FindNone([], [47]);
    assert Split([], [47]) == [[]];
    assert PieceComponents([[]][1..], false) == [];
  }

  lemma {:induction false} RootedReads(p: Path)
    requires Canonical(p) && |p| > 1 && p[0].RootDir?
    ensures Components(FullText(p)) == p
  {
    var rest := p[1..];
    assert p == [RootDir] + rest;
    RestCanonical(p);
    RelativeReads(rest);
    RootedText(p);
    SlashGoesDown([], FullText(rest));
  }

  lemma {:induction false} RestCanonical(p: Path)
    requires Canonical(p) && |p| > 1
    ensures Canonical(p[1..]) && !p[1].RootDir? && !p[1].CurDir?
  {
  }

  lemma {:induction false} RootedText(p: Path)
    requires Canonical(p) && |p| > 1 && p[0].RootDir?
    ensures FullText(p) == [] + [47] + FullText(p[1..])
  {
    assert PiecesOf(p)[0] == [] && PiecesOf(p)[1..] == PiecesOf(p[1..]);
    RestCanonical(p);
    assert p[1..] != [RootDir];
  }

  lemma {:induction false} RelativeReads(p: Path)
    requires Canonical(p) && p != [] && !p[0].RootDir?
    ensures Components(FullText(p)) == p
  {
    PiecesLack(p);
    SplitJoin(PiecesOf(p), [47]);
    PiecesRead(p, true);
    StartsPlain(p);
  }

  lemma {:induction false} SlashAlone()
    ensures Components([47]) == [RootDir]
  {
    FindAfter([], [47], []);
    assert [] + [47] + [] == [47] && [47][..0] == [] && [47][1..] == [];
    FindNone([], [47]);
    assert Split([47], [47]) == [[]] + Split([], [47]);
    assert PieceComponents([[], []][1..], false) == PieceComponents([[]], false);
    assert PieceComponents([[]][1..], false) == [];
  }

  lemma {:induction false} StartsPlain(p: Path)
    requires Canonical(p) && p != [] && !p[0].RootDir?
    ensures FullText(p) != [] && FullText(p)[0] != 47
  {
    assert PieceOf(p[0]) != [] && PieceOf(p[0])[0] != 47;
    assert FullText(p)[0] == PiecesOf(p)[0][0];
  }

  lemma {:induction false} PieceComponentsCanonical(pieces: seq<seq<byte>>, first: bool)
    requires AllLack(pieces, 47)
    ensures var p := PieceComponents(pieces, first);
            Canonical(p) && (p != [] ==> !p[0].RootDir? && (p[0].CurDir? ==> first))
    decreases |pieces|
  {
    if pieces != [] {
      assert Lacks(pieces[0], 47);
      PieceComponentsCanonical(pieces[1..], false);
    }
  }

  // And every text has a canonical path.
  lemma {:induction false} ComponentsCanonical(text: seq<byte>)
    ensures Canonical(Components(text))
    ensures Components(text) != [] && Components(text)[0].RootDir? <==> text != [] && text[0] == 47
  {
    var qs := Split(text, [47]);
    SplitByteLacks(text, 47);
    PieceComponentsCanonical(qs, true);
    FirstPiece(text);
    if text != [] && text[0] == 47 {
      PieceComponentsCanonical(qs[1..], false);
      RootCanonical(PieceComponents(qs, true));
    }
  }

  lemma {:induction false} RootCanonical(p: Path)
    requires Canonical(p) && (p != [] ==> !p[0].RootDir? && !p[0].CurDir?)
    ensures Canonical([RootDir] + p)
  {
  }

  // What is left of a path when it stands behind another.
  function Behind(p: Path): Path {
    if p != [] && (p[0].RootDir? || p[0].CurDir?) then p[1..] else p
  }

  lemma {:induction false} SplitAcross(a: seq<byte>, b: seq<byte>)
    ensures Split(a + [47] + b, [47]) == Split(a, [47]) + Split(b, [47])
    decreases |a|
  {
    match Find(a, [47])
    case None =>
      SplitOnceExact(a, 47, [], []);
      SplitFirst(a, 47, b);
    case Some(i) =>
      var piece, rest := a[..i], a[i + 1..];
      SplitOnceExact(a, 47, piece, rest);
      SplitAcross(rest, b);
      SplitFirst(piece, 47, rest);
      SplitFirst(piece, 47, rest + [47] + b);
      Nests(piece, rest, b);
  }

  lemma {:induction false} Nests(piece: seq<byte>, rest: seq<byte>, b: seq<byte>)
    ensures piece + [47] + rest + [47] + b == piece + [47] + (rest + [47] + b)
  {
  }

  lemma {:induction false} PiecesAcross(ps: seq<seq<byte>>, qs: seq<seq<byte>>, first: bool)
    requires ps != []
    ensures PieceComponents(ps + qs, first) == PieceComponents(ps, first) + PieceComponents(qs, false)
    decreases |ps|
  {
    assert (ps + qs)[1..] == ps[1..] + qs;
    if |ps| == 1 {
      assert ps[1..] + qs == qs && PieceComponents(ps[1..], false) == [];
    } else {
      PiecesAcross(ps[1..], qs, false);
    }
  }

  lemma {:induction false} NotFirst(text: seq<byte>)
    ensures PieceComponents(Split(text, [47]), false) == Behind(Components(text))
  {
    var qs := Split(text, [47]);
    FirstPiece(text);
    SplitByteLacks(text, 47);
    PieceComponentsCanonical(qs, true);
    PieceComponentsCanonical(qs, false);
    if text != [] && text[0] != 47 {
      assert qs[0] != [];
      assert qs[0] != [DOT] ==> PieceComponents(qs, true) == PieceComponents(qs, false);
    }
  }

  lemma {:induction false} FirstPiece(text: seq<byte>)
    ensures var q := Split(text, [47])[0];
            && (text == [] || text[0] == 47 ==> q == []) && (text != [] && text[0] != 47 ==> q != [] && q[0] == text[0])
  {
    if Find(text, [47]).Some? {
      assert text != [] && text[0] == 47 ==> text[0..1] == [47];
    }
  }

  // A slash goes down: empty pieces and dots in between, and a slash at the end, do not count.
  lemma {:induction false} SlashGoesDown(a: seq<byte>, b: seq<byte>)
    ensures Components(a + [47] + b) == (if a == [] then [RootDir] else Components(a)) + Behind(Components(b))
  {
    SplitAcross(a, b);
    PiecesAcross(Split(a, [47]), Split(b, [47]), true);
    NotFirst(b);
    if a == [] {
      FindNone([], [47]);
      assert Split([], [47]) == [[]] && PieceComponents([[]][1..], false) == [];
    } else {
      assert (a + [47] + b)[0] == a[0];
    }
  }
}
