// The deployment script: it diffs recorded modification times against the watched tree and
// publishes a changelog, from which the server keeps its cache equal to a rebuild.
module Mtimes {
  import opened Bytes
  import opened Text
  import opened Paths
  import opened FileCache

  const MODTIMES: Path := [Normal(Lit(".modtimes"))]
  const CHANGELOG: Path := [Normal(Lit(".changelog"))]

  // The script's own two files are never recorded.
  predicate Own(p: Path) {
    p == MODTIMES || p == CHANGELOG
  }

  datatype Entry = Entry(path: Path, stamp: seq<byte>)

  function Record(es: seq<Entry>): map<Path, seq<byte>> {
    if es == [] then map[] else Record(es[..|es| - 1])[es[|es| - 1].path := es[|es| - 1].stamp]
  }

  function Stamps(tree: Tree): map<Path, seq<byte>> {
    map p | p in tree && !Own(p) :: tree[p].stamp
  }

  predicate Distinct(es: seq<Entry>) {
    forall i, j | 0 <= i < j < |es| :: es[i].path != es[j].path
  }

  lemma {:induction false} RecordHas(es: seq<Entry>, i: nat)
    requires Distinct(es) && i < |es|
    ensures es[i].path in Record(es) && Record(es)[es[i].path] == es[i].stamp
  {
    var n := |es| - 1;
    if i < n {
      RecordHas(es[..n], i);
    }
  }

  lemma {:induction false} RecordOnly(es: seq<Entry>, p: Path)
    requires p in Record(es)
    ensures exists i :: 0 <= i < |es| && es[i].path == p
  {
    var n := |es| - 1;
    if es[n].path != p {
      RecordOnly(es[..n], p);
      var i :| 0 <= i < |es[..n]| && es[..n][i].path == p;
      assert es[i].path == p;
    }
  }

  // ---------------------------------------------------------------- detecting changes

  // A path is updated if it is a file whose recorded time differs, or is not yet recorded.
  predicate IsUpdated(recorded: map<Path, seq<byte>>, tree: Tree, p: Path) {
    p in tree && (if p in recorded then tree[p].File? && recorded[p] != tree[p].stamp else !Own(p))
  }

  predicate IsDeleted(recorded: map<Path, seq<byte>>, tree: Tree, p: Path) {
    p in recorded && p !in tree
  }

  // Something above p is a file: asking for its time raises NotADirectoryError, which the
  // script does not catch.
  predicate Blocked(tree: Tree, p: Path) {
    exists n | 0 < n < |p| :: p[..n] in tree && tree[p[..n]].File?
  }

  predicate Stops(recorded: map<Path, seq<byte>>, tree: Tree) {
    exists p | p in recorded :: Blocked(tree, p)
  }

  ghost predicate Detected(recorded: map<Path, seq<byte>>, tree: Tree, updated: seq<Path>, deleted: seq<Path>) {
    && (forall p :: p in updated <==> IsUpdated(recorded, tree, p))
    && (forall p :: p in deleted <==> IsDeleted(recorded, tree, p))
  }

  // What the recorded paths still in the tree are now stamped with.
  function Kept(recorded: map<Path, seq<byte>>, tree: Tree): map<Path, seq<byte>> {
    map p | p in recorded && p in tree :: tree[p].stamp
  }

  lemma {:induction false} RecordSnoc(es: seq<Entry>, i: nat)
    requires Distinct(es) && i < |es|
    ensures Record(es[..i + 1]) == Record(es[..i])[es[i].path := es[i].stamp]
    ensures es[i].path !in Record(es[..i])
  {
    assert es[..i + 1][..i] == es[..i];
    if es[i].path in Record(es[..i]) {
      RecordOnly(es[..i], es[i].path);
    }
  }

  predicate Once(ps: seq<Path>) {
    forall i, j | 0 <= i < j < |ps| :: ps[i] != ps[j]
  }

  lemma {:induction false} OnceMore(ps: seq<Path>, p: Path)
    requires Once(ps) && p !in ps
    ensures Once(ps + [p])
  {
  }

  predicate Clear(es: seq<Entry>) {
    Distinct(es) && forall i | 0 <= i < |es| :: !Own(es[i].path)
  }

  lemma {:induction false} Append(es: seq<Entry>, e: Entry)
    requires Clear(es) && e.path !in Record(es) && !Own(e.path)
    ensures Clear(es + [e]) && Record(es + [e]) == Record(es)[e.path := e.stamp]
  {
    assert (es + [e])[..|es|] == es;
    forall i | 0 <= i < |es| ensures es[i].path != e.path {
      RecordHas(es, i);
    }
  }

  // The entries written by a script that stops: those still there before the first blocked.
  ghost predicate CutOff(before: seq<Entry>, tree: Tree, entries: seq<Entry>) {
    exists i :: 0 <= i < |before| && Blocked(tree, before[i].path)
      && (forall j | 0 <= j < i :: !Blocked(tree, before[j].path))
      && Record(entries) == Kept(Record(before[..i]), tree)
  }

  // The loop over the recorded entries. It stops at the first that is blocked.
  method CheckRecorded(before: seq<Entry>, tree: Tree)
    returns (stopped: bool, paths: set<Path>, entries: seq<Entry>, updated: seq<Path>, deleted: seq<Path>)
    requires Clear(before)
    ensures stopped <==> Stops(Record(before), tree)
    ensures Clear(entries)
    ensures stopped ==> CutOff(before, tree, entries)
    ensures !stopped ==>
              && paths == Record(before).Keys
              && (forall p :: p in updated <==> p in Record(before) && IsUpdated(Record(before), tree, p))
              && (forall p :: p in deleted <==> IsDeleted(Record(before), tree, p))
              && Once(updated) && Once(deleted)
              && Record(entries) == Kept(Record(before), tree)
  {
    paths, entries, updated, deleted := {}, [], [], [];
    for i := 0 to |before|
      invariant paths == Record(before[..i]).Keys
      invariant forall j | 0 <= j < i :: !Blocked(tree, before[j].path)
      invariant forall p :: p in updated <==> p in paths && IsUpdated(Record(before[..i]), tree, p)
      invariant forall p :: p in deleted <==> IsDeleted(Record(before[..i]), tree, p)
      invariant Once(updated) && Once(deleted)
      invariant Clear(entries) && Record(entries) == Kept(Record(before[..i]), tree)
    {
      var path := before[i].path;
      if Blocked(tree, path) {
        RecordHas(before, i);
        return true, paths, entries, updated, deleted;
      }
      RecordSnoc(before, i);
      paths := paths + {path};
      if path in tree {
        Append(entries, Entry(path, tree[path].stamp));
        entries := entries + [Entry(path, tree[path].stamp)];
        if tree[path].Dir? { continue; }
        if tree[path].stamp != before[i].stamp {
          OnceMore(updated, path);
          updated := updated + [path];
        }
      } else {
        OnceMore(deleted, path);
        deleted := deleted + [path];
      }
    }
    assert before[..|before|] == before;
    NoneBlocked(before, tree);
    return false, paths, entries, updated, deleted;
  }

  lemma {:induction false} NoneBlocked(es: seq<Entry>, tree: Tree)
    requires forall j | 0 <= j < |es| :: !Blocked(tree, es[j].path)
    ensures !Stops(Record(es), tree)
  {
    forall p | p in Record(es) ensures !Blocked(tree, p) {
      RecordOnly(es, p);
    }
  }

  // Kept entries and the walked ones that are new.
  function WithNew(recorded: map<Path, seq<byte>>, tree: Tree, walked: set<Path>): map<Path, seq<byte>> {
    map p | p in tree && (p in recorded || (p in walked && !Own(p))) :: tree[p].stamp
  }

  function Walked(walk: seq<Path>, j: nat): set<Path>
    requires j <= |walk|
  {
    set k | 0 <= k < j :: walk[k]
  }

  lemma {:induction false} WalkedStep(walk: seq<Path>, j: nat)
    requires j < |walk| && forall i, k | 0 <= i < k < |walk| :: walk[i] != walk[k]
    ensures Walked(walk, j + 1) == Walked(walk, j) + {walk[j]} && walk[j] !in Walked(walk, j)
  {
  }

  lemma {:induction false} WithNewStep(recorded: map<Path, seq<byte>>, tree: Tree, walked: set<Path>, path: Path)
    requires path in tree
    ensures WithNew(recorded, tree, walked + {path}) ==
            if path in recorded || Own(path) then WithNew(recorded, tree, walked)
            else WithNew(recorded, tree, walked)[path := tree[path].stamp]
  {
  }

  // The loop over what rglob yields, in any order.
  method AddNew(recorded: map<Path, seq<byte>>, tree: Tree, walk: seq<Path>, kept: seq<Entry>, changed: seq<Path>)
    returns (entries: seq<Entry>, updated: seq<Path>)
    requires forall p :: p in walk <==> p in tree
    requires forall i, j | 0 <= i < j < |walk| :: walk[i] != walk[j]
    requires forall p | p in recorded :: !Own(p)
    requires forall p :: p in changed <==> p in recorded && IsUpdated(recorded, tree, p)
    requires Once(changed) && Clear(kept) && Record(kept) == Kept(recorded, tree)
    ensures Once(updated) && forall p :: p in updated <==> IsUpdated(recorded, tree, p)
    ensures Clear(entries) && Record(entries) == Stamps(tree)
  {
    entries, updated := kept, changed;
    assert Kept(recorded, tree) == WithNew(recorded, tree, {});
    for j := 0 to |walk|
      invariant forall p :: p in updated <==>
                  (p in recorded || p in Walked(walk, j)) && IsUpdated(recorded, tree, p)
      invariant Once(updated)
      invariant Clear(entries) && Record(entries) == WithNew(recorded, tree, Walked(walk, j))
    {
      var path := walk[j];
      assert path in tree;
      WalkedStep(walk, j);
      WithNewStep(recorded, tree, Walked(walk, j), path);
      if path !in recorded {
        if Own(path) { continue; }
        OnceMore(updated, path);
        updated := updated + [path];
        Append(entries, Entry(path, tree[path].stamp));
        entries := entries + [Entry(path, tree[path].stamp)];
      }
    }
    WalkedAll(walk, tree);
    assert WithNew(recorded, tree, tree.Keys) == Stamps(tree);
  }

  lemma {:induction false} WalkedAll(walk: seq<Path>, tree: Tree)
    requires forall p :: p in walk <==> p in tree
    ensures Walked(walk, |walk|) == tree.Keys
  {
  }

  // What is kept of the record when the script stops.
  ghost predicate Rewritten(recorded: map<Path, seq<byte>>, tree: Tree, again: map<Path, seq<byte>>) {
    forall p | p in again :: p in recorded && p in tree && !Blocked(tree, p) && again[p] == tree[p].stamp
  }

  lemma {:induction false} CutOffRewrites(before: seq<Entry>, tree: Tree, entries: seq<Entry>)
    requires Clear(before) && CutOff(before, tree, entries)
    ensures Rewritten(Record(before), tree, Record(entries))
  {
    var i :| 0 <= i < |before| && Blocked(tree, before[i].path)
      && (forall j | 0 <= j < i :: !Blocked(tree, before[j].path))
      && Record(entries) == Kept(Record(before[..i]), tree);
    forall p | p in Record(entries) ensures p in Record(before) && !Blocked(tree, p) {
      RecordOnly(before[..i], p);
      var j :| 0 <= j < |before[..i]| && before[..i][j].path == p;
      assert before[j].path == p;
      RecordHas(before, j);
    }
  }

  method DetectChanges(before: seq<Entry>, tree: Tree, walk: seq<Path>)
    returns (stopped: bool, entries: seq<Entry>, updated: seq<Path>, deleted: seq<Path>)
    requires Clear(before)
    requires forall p :: p in walk <==> p in tree
    requires forall i, j | 0 <= i < j < |walk| :: walk[i] != walk[j]
    ensures stopped <==> Stops(Record(before), tree)
    ensures Clear(entries)
    ensures stopped ==> CutOff(before, tree, entries)
    ensures !stopped ==>
              && Detected(Record(before), tree, updated, deleted) && Once(updated) && Once(deleted)
              && Record(entries) == Stamps(tree)
  {
    var paths, kept, changed;
    stopped, paths, kept, changed, deleted := CheckRecorded(before, tree);
    if stopped { return true, kept, changed, deleted; }
    NoneOwn(before);
    entries, updated := AddNew(Record(before), tree, walk, kept, changed);
  }

  lemma {:induction false} NoneOwn(es: seq<Entry>)
    requires Clear(es)
    ensures forall p | p in Record(es) :: !Own(p)
  {
    forall p | p in Record(es) ensures !Own(p) {
      RecordOnly(es, p);
    }
  }

  // ---------------------------------------------------------------- the recorded text

  const SECONDS: seq<byte> := [SP] + Lit("seconds")

  function PrintEntry(e: Entry): seq<byte>
    requires Relative(e.path)
  {
    PathText(e.path) + [LF] + (e.stamp + SECONDS) + [LF] + [LF]
  }

  predicate Printable(es: seq<Entry>) {
    forall i | 0 <= i < |es| ::
      && Relative(es[i].path) && OneLine(PathText(es[i].path))
      && OneLine(es[i].stamp) && Lacks(es[i].stamp, SP)
  }

  // What a line of the record may hold.
  predicate OneLine(s: seq<byte>) {
    Lacks(s, LF) && Lacks(s, CR)
  }

  function PrintEntries(es: seq<Entry>): seq<byte>
    requires Printable(es)
    decreases |es|
  {
    if es == [] then [] else PrintEntry(es[0]) + PrintEntries(es[1..])
  }

  function FirstWord(s: seq<byte>): seq<byte> {
    match SplitOnce(s, SP)
    case Some((word, _)) => word
    case None => s
  }

  // readlines, taken three at a time.
  function ReadLines(lines: seq<seq<byte>>): seq<Entry> {
    if |lines| < 3 then []
    else [Entry(Components(lines[0]), FirstWord(lines[1]))] + ReadLines(lines[3..])
  }

  // Files are opened in text mode: every CR ends a line too.
  function Universal(s: seq<byte>): seq<byte>
    decreases |s|
  {
    if s == [] then []
    else if s[0] != CR then [s[0]] + Universal(s[1..])
    else [LF] + Universal(if |s| > 1 && s[1] == LF then s[2..] else s[1..])
  }

  lemma {:induction false} UniversalPlain(s: seq<byte>)
    requires Lacks(s, CR)
    ensures Universal(s) == s
    decreases |s|
  {
    if s != [] {
      UniversalPlain(s[1..]);
    }
  }

  function ReadEntries(text: seq<byte>): seq<Entry> {
    ReadLines(Split(Universal(text), [LF]))
  }

  lemma {:induction false} EntrySplits(path: seq<byte>, time: seq<byte>, rest: seq<byte>)
    requires Lacks(path, LF) && Lacks(time, LF)
    ensures Split(path + [LF] + time + [LF] + [LF] + rest, [LF]) == [path, time, []] + Split(rest, [LF])
  {
    EntryNests(path, time, rest);
    SplitFirst(path, LF, time + [LF] + ([] + [LF] + rest));
    SplitFirst(time, LF, [] + [LF] + rest);
    SplitFirst([], LF, rest);
  }

  lemma {:induction false} EntryNests(path: seq<byte>, time: seq<byte>, rest: seq<byte>)
    ensures path + [LF] + time + [LF] + [LF] + rest == path + [LF] + (time + [LF] + ([] + [LF] + rest))
  {
  }

  lemma {:induction false} StampReads(stamp: seq<byte>)
    requires Lacks(stamp, SP) && Lacks(stamp, LF)
    ensures FirstWord(stamp + SECONDS) == stamp && Lacks(stamp + SECONDS, LF)
  {
    assert Lacks(SECONDS, LF);
    SplitOnceAt(stamp, SP, Lit("seconds"));
    assert stamp + SECONDS == stamp + [SP] + Lit("seconds");
  }

  lemma {:induction false} PrintedEntry(e: Entry, rest: seq<byte>)
    requires Relative(e.path)
    ensures PrintEntry(e) + rest == PathText(e.path) + [LF] + (e.stamp + SECONDS) + [LF] + [LF] + rest
  {
  }

  lemma {:induction false} ReadLinesStep(path: seq<byte>, time: seq<byte>, lines: seq<seq<byte>>)
    ensures ReadLines([path, time, []] + lines) == [Entry(Components(path), FirstWord(time))] + ReadLines(lines)
  {
    assert ([path, time, []] + lines)[3..] == lines;
  }

  lemma {:induction false} LinesRead(es: seq<Entry>)
    requires Printable(es)
    ensures ReadLines(Split(PrintEntries(es), [LF])) == es
    decreases |es|
  {
    if es == [] {
      FindNone([], [LF]);
    } else {
      var rest := PrintEntries(es[1..]);
      var path, time := PathText(es[0].path), es[0].stamp + SECONDS;
      StampReads(es[0].stamp);
      EntrySplits(path, time, rest);
      PrintedEntry(es[0], rest);
      PathTextReads(es[0].path);
      LinesRead(es[1..]);
      ReadLinesStep(path, time, Split(rest, [LF]));
    }
  }

  lemma {:induction false} RecordLacks(es: seq<Entry>)
    requires Printable(es)
    ensures Lacks(PrintEntries(es), CR)
    decreases |es|
  {
    if es != [] {
      assert Printable([es[0]]);
      EntryLacks(es[0]);
      RecordLacks(es[1..]);
    }
  }

  lemma {:induction false} EntryLacks(e: Entry)
    requires Printable([e])
    ensures Relative(e.path) && Lacks(PrintEntry(e), CR)
  {
    assert Lacks(SECONDS, CR);
    assert [e][0] == e;
  }

  // The next run of the script reads back exactly what this one recorded.
  lemma {:induction false} EntriesRoundTrip(es: seq<Entry>)
    requires Printable(es)
    ensures ReadEntries(PrintEntries(es)) == es
  {
    LinesRead(es);
    RecordLacks(es);
    UniversalPlain(PrintEntries(es));
  }

  lemma {:induction false} UniversalKeeps(c: byte, rest: seq<byte>)
    requires c != CR
    ensures Universal([c] + rest) == [c] + Universal(rest)
  {
    assert ([c] + rest)[1..] == rest;
  }

  lemma {:induction false} UniversalTurns(rest: seq<byte>)
    requires rest == [] || rest[0] != LF
    ensures Universal([CR] + rest) == [LF] + Universal(rest)
  {
    assert ([CR] + rest)[1..] == rest;
  }

  // A name with a CR in it is not read back: the record then speaks of another path.
  lemma {:induction false} ReturnSplits(stamp: seq<byte>)
    requires OneLine(stamp)
    ensures var e := Entry([Normal([97, CR, 98])], stamp);
            Relative(e.path) && ReadEntries(PrintEntry(e)) != [e]
  {
    var e := Entry([Normal([97, CR, 98])], stamp);
    var rest := [98] + ([LF] + (stamp + SECONDS + [LF] + [LF]));
    ReturnPrints(e, rest);
    assert Lacks(SECONDS, CR);
    UniversalPlain(rest);
    UniversalTurns(rest);
    UniversalKeeps(97, [CR] + rest);
    assert [97] + [LF] + rest == [97] + ([LF] + rest);
    SplitFirst([97], LF, rest);
    FirstRead([97], Split(rest, [LF]));
    SingleName(97);
  }

  lemma {:induction false} ReturnPrints(e: Entry, rest: seq<byte>)
    requires e.path == [Normal([97, CR, 98])] && rest == [98] + ([LF] + (e.stamp + SECONDS + [LF] + [LF]))
    ensures Relative(e.path) && PrintEntry(e) == [97] + ([CR] + rest)
  {
    assert PathText(e.path) == [97, CR, 98];
  }

  lemma {:induction false} SingleName(c: byte)
    requires c != SLASH && c != DOT
    ensures Components([c]) == [Normal([c])]
  {
    var p := [Normal([c])];
    assert PathText(p) == [c];
    PathTextReads(p);
  }

  lemma {:induction false} FirstRead(line: seq<byte>, lines: seq<seq<byte>>)
    ensures var es := ReadLines([line] + lines); es == [] || es[0].path == Components(line)
  {
  }

  // ---------------------------------------------------------------- the changelog

  predicate NameOk(p: Path) {
    Relative(p) && OneLine(PathText(p)) && !(DELETE_TAB <= PathText(p))
  }

  function FileLines(updated: seq<Path>, tree: Tree): seq<seq<byte>>
    requires forall i | 0 <= i < |updated| :: updated[i] in tree && Relative(updated[i])
  {
    if updated == [] then []
    else (if tree[updated[0]].File? then [PathText(updated[0])] else []) + FileLines(updated[1..], tree)
  }

  function DeleteLines(deleted: seq<Path>): seq<seq<byte>>
    requires forall i | 0 <= i < |deleted| :: Relative(deleted[i])
  {
    if deleted == [] then [] else [DELETE_TAB + PathText(deleted[0])] + DeleteLines(deleted[1..])
  }

  method AppendUpdated(updated: seq<Path>, tree: Tree) returns (changelog: seq<byte>)
    requires forall i | 0 <= i < |updated| :: updated[i] in tree && Relative(updated[i])
    ensures changelog == Ended(FileLines(updated, tree))
  {
    changelog := [];
    ghost var done: seq<seq<byte>> := [];
    for i := 0 to |updated|
      invariant done + FileLines(updated[i..], tree) == FileLines(updated, tree)
      invariant changelog == Ended(done)
    {
      if !tree[updated[i]].Dir? {
        var line := PathText(updated[i]);
        EndedSnoc(done, line);
        done := done + [line];
        changelog := changelog + (line + [LF, LF]);
      }
    }
    assert done + [] == done;
  }

  method AppendDeleted(changelog0: seq<byte>, ghost lines: seq<seq<byte>>, deleted: seq<Path>) returns (changelog: seq<byte>)
    requires forall i | 0 <= i < |deleted| :: Relative(deleted[i])
    requires changelog0 == Ended(lines)
    ensures changelog == Ended(lines + DeleteLines(deleted))
  {
    changelog := changelog0;
    ghost var done := lines;
    for i := 0 to |deleted|
      invariant done + DeleteLines(deleted[i..]) == lines + DeleteLines(deleted)
      invariant changelog == Ended(done)
    {
      var line := DELETE_TAB + PathText(deleted[i]);
      EndedSnoc(done, line);
      done := done + [line];
      changelog := changelog + (line + [LF, LF]);
    }
    assert done + [] == done;
  }

  // Each line followed by an empty one, the last two characters cut off.
  method WriteChangelog(updated: seq<Path>, deleted: seq<Path>, tree: Tree) returns (text: Option<seq<byte>>)
    requires forall i | 0 <= i < |updated| :: updated[i] in tree && Relative(updated[i])
    requires forall i | 0 <= i < |deleted| :: Relative(deleted[i])
    ensures text == Joined(FileLines(updated, tree) + DeleteLines(deleted))
  {
    var changelog := AppendUpdated(updated, tree);
    ghost var lines := FileLines(updated, tree);
    changelog := AppendDeleted(changelog, lines, deleted);
    EndedIsJoin(lines + DeleteLines(deleted));
    if changelog != [] {
      return Some(changelog[..|changelog| - 2]);
    }
    return None;
  }

  function Joined(lines: seq<seq<byte>>): Option<seq<byte>> {
    if lines == [] then None else Some(Join(lines, [LF, LF]))
  }

  function Ended(lines: seq<seq<byte>>): seq<byte> {
    if lines == [] then [] else lines[0] + [LF, LF] + Ended(lines[1..])
  }

  lemma {:induction false} EndedSnoc(lines: seq<seq<byte>>, line: seq<byte>)
    ensures Ended(lines + [line]) == Ended(lines) + (line + [LF, LF])
    decreases |lines|
  {
    if lines == [] {
      assert ([] + [line])[1..] == [];
    } else {
      EndedSnoc(lines[1..], line);
      assert (lines + [line])[1..] == lines[1..] + [line];
    }
  }

  lemma {:induction false} EndedIsJoin(lines: seq<seq<byte>>)
    ensures lines == [] <==> Ended(lines) == []
    ensures lines != [] ==>
              && Ended(lines) == Join(lines, [LF, LF]) + [LF, LF]
              && Ended(lines)[..|Ended(lines)| - 2] == Join(lines, [LF, LF])
    decreases |lines|
  {
    if |lines| > 1 {
      EndedIsJoin(lines[1..]);
    } else if |lines| == 1 {
      assert Ended(lines[1..]) == [];
    }
  }

  // ---------------------------------------------------------------- the server's side

  predicate AllOk(ps: seq<Path>) {
    forall i | 0 <= i < |ps| :: NameOk(ps[i])
  }

  lemma {:induction false} LineApplies(p: Path, files: Cache, disk: Tree)
    requires NameOk(p)
    ensures Applied(files, PathText(p), disk) == Stored(files, p, p, disk)
    ensures Applied(files, DELETE_TAB + PathText(p), disk) == files - {p}
  {
    PathTextReads(p);
    SyncedPlain(files, p, disk);
    assert (DELETE_TAB + PathText(p))[|DELETE_TAB|..] == PathText(p);
  }

  // The files of disk among ps.
  function FilesAmong(ps: seq<Path>, disk: Tree): Cache {
    map p | p in disk && disk[p].File? && p in ps :: disk[p].data
  }

  lemma {:induction false} UpdatesApply(ps: seq<Path>, files: Cache, disk: Tree)
    requires AllOk(ps) && forall i | 0 <= i < |ps| :: ps[i] in disk
    ensures AllApplied(files, FileLines(ps, disk), disk) == files + FilesAmong(ps, disk)
    decreases |ps|
  {
    if ps == [] {
      assert FilesAmong(ps, disk) == map[];
    } else {
      assert NameOk(ps[0]);
      LineApplies(ps[0], files, disk);
      var next := Stored(files, ps[0], ps[0], disk);
      UpdatesApply(ps[1..], next, disk);
      assert FileLines(ps, disk) == if disk[ps[0]].File? then [PathText(ps[0])] + FileLines(ps[1..], disk) else FileLines(ps[1..], disk);
      FilesAmongStep(ps, files, disk);
    }
  }

  lemma {:induction false} FilesAmongStep(ps: seq<Path>, files: Cache, disk: Tree)
    requires ps != [] && ps[0] in disk
    ensures Stored(files, ps[0], ps[0], disk) + FilesAmong(ps[1..], disk) == files + FilesAmong(ps, disk)
  {
    assert forall p :: p in ps <==> p == ps[0] || p in ps[1..];
  }

  function Elements(ps: seq<Path>): set<Path> {
    set i | 0 <= i < |ps| :: ps[i]
  }

  lemma {:induction false} DeletesApply(ps: seq<Path>, files: Cache, disk: Tree)
    requires AllOk(ps)
    ensures AllApplied(files, DeleteLines(ps), disk) == files - Elements(ps)
    decreases |ps|
  {
    if ps == [] {
      assert Elements(ps) == {};
      assert files - {} == files;
    } else {
      assert NameOk(ps[0]);
      LineApplies(ps[0], files, disk);
      DeletesApply(ps[1..], files - {ps[0]}, disk);
      assert Elements(ps) == {ps[0]} + Elements(ps[1..]);
      assert files - {ps[0]} - Elements(ps[1..]) == files - Elements(ps);
    }
  }

  lemma {:induction false} ApplyConcat(files: Cache, a: seq<seq<byte>>, b: seq<seq<byte>>, disk: Tree)
    ensures AllApplied(files, a + b, disk) == AllApplied(AllApplied(files, a, disk), b, disk)
    decreases |a|
  {
    if a == [] {
      assert a + b == b;
    } else {
      ApplyConcat(Applied(files, a[0], disk), a[1..], b, disk);
      FirstOfConcat(files, a, b, disk);
    }
  }

  lemma {:induction false} FirstOfConcat(files: Cache, a: seq<seq<byte>>, b: seq<seq<byte>>, disk: Tree)
    requires a != []
    ensures AllApplied(files, a + b, disk) == AllApplied(Applied(files, a[0], disk), a[1..] + b, disk)
    ensures AllApplied(files, a, disk) == AllApplied(Applied(files, a[0], disk), a[1..], disk)
  {
    assert (a + b)[1..] == a[1..] + b;
  }

  // What the server does with what was published, if anything was.
  function Consumed(files: Cache, text: Option<seq<byte>>, disk: Tree): Cache {
    if text.None? then files else AllApplied(files, Split(text.value, [LF, LF]), disk)
  }

  // Publishing and consuming a changelog inserts the updated files and drops the deleted.
  lemma {:induction false} ChangelogApplies(updated: seq<Path>, deleted: seq<Path>, files: Cache, disk: Tree)
    requires AllOk(updated) && AllOk(deleted) && forall i | 0 <= i < |updated| :: updated[i] in disk
    ensures Consumed(files, Joined(FileLines(updated, disk) + DeleteLines(deleted)), disk)
         == files + FilesAmong(updated, disk) - Elements(deleted)
  {
    var u, d := FileLines(updated, disk), DeleteLines(deleted);
    FileLinesLack(updated, disk);
    DeleteLinesLack(deleted);
    assert AllLack(u + d, LF);
    if u + d != [] {
      SplitJoin(u + d, [LF, LF]);
    }
    ApplyConcat(files, u, d, disk);
    UpdatesApply(updated, files, disk);
    DeletesApply(deleted, files + FilesAmong(updated, disk), disk);
  }

  lemma {:induction false} FileLinesLack(ps: seq<Path>, disk: Tree)
    requires AllOk(ps) && forall i | 0 <= i < |ps| :: ps[i] in disk
    ensures AllLack(FileLines(ps, disk), LF)
    decreases |ps|
  {
    if ps != [] {
      assert NameOk(ps[0]);
      FileLinesLack(ps[1..], disk);
    }
  }

  lemma {:induction false} DeleteLinesLack(ps: seq<Path>)
    requires AllOk(ps)
    ensures AllLack(DeleteLines(ps), LF)
    decreases |ps|
  {
    if ps != [] {
      assert NameOk(ps[0]);
      assert Lacks(DELETE_TAB, LF);
      DeleteLinesLack(ps[1..]);
    }
  }

  // ---------------------------------------------------------------- cache agreement

  predicate TreeOk(t: Tree) {
    forall p | p in t :: NameOk(p)
  }

  // A visible path whose change the script does not notice or the server cannot mirror: a
  // file turned into a directory, a directory turned into a file without a new stamp, or
  // new content under the recorded stamp.
  predicate Missed(before: Tree, after: Tree, p: Path) {
    && p in before && p in after && Visible(p)
    && if after[p].Dir? then before[p].File?
       else before[p].stamp == after[p].stamp && (before[p].Dir? || before[p].data != after[p].data)
  }

  // What one round of script and server does to the record and the cache. A script that
  // stops publishes nothing.
  ghost predicate Round(
      recorded: map<Path, seq<byte>>, after: Tree, files: Cache, recorded': map<Path, seq<byte>>, files': Cache)
  {
    if Stops(recorded, after) then
      files' == files && Rewritten(recorded, after, recorded')
    else
      recorded' == Stamps(after) && Published(recorded, after, files, files')
  }

  ghost predicate Published(recorded: map<Path, seq<byte>>, after: Tree, files: Cache, files': Cache) {
    exists updated, deleted ::
      && Detected(recorded, after, updated, deleted)
      && (forall p | p in updated :: p in after)
      && files' == files + FilesAmong(updated, after) - Elements(deleted)
  }

  // What publishing does to one path, whatever was recorded.
  lemma {:induction false} PublishedAt(recorded: map<Path, seq<byte>>, after: Tree, files: Cache, files': Cache, p: Path)
    requires Published(recorded, after, files, files') && Visible(p)
    ensures p in files' <==>
              !IsDeleted(recorded, after, p) && (p in files || (IsUpdated(recorded, after, p) && after[p].File?))
    ensures p in files' ==>
              files'[p] == if IsUpdated(recorded, after, p) && after[p].File? then after[p].data else files[p]
  {
    var updated, deleted :|
      && Detected(recorded, after, updated, deleted)
      && (forall p | p in updated :: p in after)
      && files' == files + FilesAmong(updated, after) - Elements(deleted);
    assert p in Elements(deleted) <==> p in deleted;
  }

  predicate SameFile(before: Tree, after: Tree, p: Path) {
    Visible(p) ==>
      && (p in before && before[p].File? <==> p in after && after[p].File?)
      && (p in before && before[p].File? ==> after[p].data == before[p].data)
  }

  // The round leaves p right: its change was noticed, or if the script stops there was none.
  predicate CaughtAt(before: Tree, after: Tree, p: Path) {
    if Stops(Stamps(before), after) then SameFile(before, after, p) else !Missed(before, after, p)
  }

  ghost predicate RightAt(files: Cache, tree: Tree, p: Path) {
    (p in files) == (p in Rebuilt(tree)) && (p in files ==> files[p] == Rebuilt(tree)[p])
  }

  lemma {:induction false} RoundAt(
      before: Tree, after: Tree, files: Cache, recorded': map<Path, seq<byte>>, files': Cache, p: Path)
    requires Round(Stamps(before), after, files, recorded', files') && Visible(p)
    requires Restrict(files) == Rebuilt(before)
    ensures RightAt(files', after, p) <==> CaughtAt(before, after, p)
  {
    assert !Own(p) by {
      assert Hidden(MODTIMES[0]) && Hidden(CHANGELOG[0]);
    }
    assert p in files <==> p in Restrict(files);
    assert p in files ==> files[p] == Restrict(files)[p];
    if !Stops(Stamps(before), after) {
      PublishedAt(Stamps(before), after, files, files', p);
    }
  }

  ghost predicate Caught(before: Tree, after: Tree) {
    forall p :: CaughtAt(before, after, p)
  }

  lemma {:induction false} AgreesEverywhere(files: Cache, tree: Tree)
    ensures Restrict(files) == Rebuilt(tree) <==> forall p | Visible(p) :: RightAt(files, tree, p)
  {
    if Restrict(files) == Rebuilt(tree) {
      forall p | Visible(p) ensures RightAt(files, tree, p) {
        assert p in files <==> p in Restrict(files);
        assert p in files ==> files[p] == Restrict(files)[p];
      }
    }
    if forall p | Visible(p) :: RightAt(files, tree, p) {
      forall p
        ensures p in Restrict(files) <==> p in Rebuilt(tree)
        ensures p in Restrict(files) ==> Restrict(files)[p] == Rebuilt(tree)[p]
      {
        assert Visible(p) ==> RightAt(files, tree, p);
      }
    }
  }

  // After a round the visible cache equals a fresh rebuild of the new tree, exactly if the
  // script stopped and no visible file is new, gone or changed, or it did not and no visible
  // path was missed.
  lemma {:induction false} RoundAgrees(
      before: Tree, after: Tree, files: Cache, recorded': map<Path, seq<byte>>, files': Cache)
    requires Round(Stamps(before), after, files, recorded', files')
    requires Restrict(files) == Rebuilt(before)
    ensures Restrict(files') == Rebuilt(after) <==> Caught(before, after)
  {
    AgreesEverywhere(files', after);
    forall p | Visible(p) ensures RightAt(files', after, p) <==> CaughtAt(before, after, p) {
      RoundAt(before, after, files, recorded', files', p);
    }
  }

  // Any visible file of any tree, given new content under its old stamp or replaced by a
  // directory: such a round can happen, and after every such round the cache is stale.
  lemma {:induction false} MissedChanges(
      before: Tree, p: Path, node: Node, files: Cache, recorded': map<Path, seq<byte>>, files': Cache)
    requires WellFormedTree(before) && p in before && before[p].File? && Visible(p)
    requires node.Dir? || (node.stamp == before[p].stamp && node.data != before[p].data)
    requires Restrict(files) == Rebuilt(before)
    ensures var after := before[p := node];
            && WellFormedTree(after)
            && Round(Stamps(before), after, files, Stamps(after), files)
            && (Round(Stamps(before), after, files, recorded', files') ==> Restrict(files') != Rebuilt(after))
  {
    var after := before[p := node];
    NothingDetected(before, p, node, files);
    WellFormedGoesOn(before, p, node);
    assert Missed(before, after, p);
    assert !CaughtAt(before, after, p);
    if Round(Stamps(before), after, files, recorded', files') {
      RoundAgrees(before, after, files, recorded', files');
    }
  }

  // A tree whose directories all stay directories stops no script.
  lemma {:induction false} WellFormedGoesOn(before: Tree, p: Path, node: Node)
    requires WellFormedTree(before) && p in before && before[p].File?
    ensures !Stops(Stamps(before), before[p := node])
  {
    forall q | q in Stamps(before) ensures !Blocked(before[p := node], q) {
      forall n | 0 < n < |q| ensures q[..n] in before && before[q[..n]].Dir? {
      }
    }
  }

  lemma {:induction false} NothingDetected(before: Tree, p: Path, node: Node, files: Cache)
    requires p in before && (node.Dir? || node.stamp == before[p].stamp)
    ensures Visible(p) ==> Published(Stamps(before), before[p := node], files, files)
  {
    assert Hidden(MODTIMES[0]) && Hidden(CHANGELOG[0]);
    var after := before[p := node];
    if Visible(p) {
      assert Detected(Stamps(before), after, [], []);
      assert files + FilesAmong([], after) - Elements([]) == files;
    }
  }

  // ---------------------------------------------------------------- a script that stops

  // A script stops exactly if a recorded directory with something recorded below it is now a
  // file (or something is recorded below what has become one).
  lemma {:induction false} StopsExact(before: Tree, after: Tree)
    requires WellFormedTree(before)
    ensures Stops(Stamps(before), after) <==>
            exists p, n :: p in before && !Own(p) && 0 < n < |p| && before[p[..n]].Dir? && p[..n] in after && after[p[..n]].File?
  {
    if p, n :| p in before && !Own(p) && 0 < n < |p| && before[p[..n]].Dir? && p[..n] in after && after[p[..n]].File? {
      assert Blocked(after, p);
      assert p in Stamps(before);
    }
    if Stops(Stamps(before), after) {
      var p :| p in Stamps(before) && Blocked(after, p);
      var n :| 0 < n < |p| && p[..n] in after && after[p[..n]].File?;
      assert before[p[..n]].Dir?;
    }
  }

  // If the directory can be seen, the cache is stale after the round: the new file is missing.
  lemma {:induction false} StopIsStale(
      before: Tree, after: Tree, files: Cache, recorded': map<Path, seq<byte>>, files': Cache, p: Path, n: nat)
    requires WellFormedTree(before) && Restrict(files) == Rebuilt(before)
    requires p in before && !Own(p) && 0 < n < |p| && Visible(p[..n]) && p[..n] in after && after[p[..n]].File?
    requires Round(Stamps(before), after, files, recorded', files')
    ensures files' == files && Restrict(files') != Rebuilt(after)
  {
    assert Blocked(after, p) && p in Stamps(before);
    assert !SameFile(before, after, p[..n]);
    assert !CaughtAt(before, after, p[..n]);
    RoundAgrees(before, after, files, recorded', files');
  }

  // And what the record has forgotten, no later round deletes: while the file is gone from
  // the tree, its page is served.
  lemma {:induction false} StaysStale(
      trees: seq<Tree>, records: seq<map<Path, seq<byte>>>, caches: seq<Cache>, p: Path)
    requires |trees| == |records| == |caches| > 0
    requires forall i | 0 <= i < |trees| - 1 :: Round(records[i], trees[i + 1], caches[i], records[i + 1], caches[i + 1])
    requires Visible(p) && p in caches[0] && p !in records[0] && forall i | 0 <= i < |trees| :: p !in trees[i]
    ensures forall i | 0 <= i < |trees| :: p in caches[i] && p !in records[i] && Restrict(caches[i]) != Rebuilt(trees[i])
  {
    for i := 0 to |trees| - 1
      invariant forall j | 0 <= j <= i :: p in caches[j] && p !in records[j]
    {
      if !Stops(records[i], trees[i + 1]) {
        PublishedAt(records[i], trees[i + 1], caches[i], caches[i + 1], p);
      }
    }
    forall i | 0 <= i < |trees| ensures Restrict(caches[i]) != Rebuilt(trees[i]) {
      assert p in Restrict(caches[i]) && p !in Rebuilt(trees[i]);
    }
  }

  // A directory with a page in it, and a file in its place: the script stops though no change
  // goes unnoticed, and the page is forgotten by the record.
  lemma {:induction false} BlockedPage(d: Component, f: Component, page: Node, dir: Node, file: Node, recorded': map<Path, seq<byte>>)
    requires Relative([d, f]) && Visible([d, f]) && page.File? && dir.Dir? && file.File? && file.stamp != dir.stamp
    ensures var before, after := map[[d] := dir, [d, f] := page], map[[d] := file];
            && WellFormedTree(before) && WellFormedTree(after)
            && Stops(Stamps(before), after) && !Caught(before, after)
            && (forall p :: !Missed(before, after, p))
            && (Rewritten(Stamps(before), after, recorded') ==> [d, f] in Rebuilt(before) && [d, f] !in recorded' && [d, f] !in after)
  {
    var before: Tree, after: Tree := map[[d] := dir, [d, f] := page], map[[d] := file];
    assert [d, f][0] == d && [d, f][..1] == [d];
    assert Relative([d]);
    assert Hidden(MODTIMES[0]) && Hidden(CHANGELOG[0]);
    assert !Hidden([d, f][0]) && Visible([d]);
    assert !Own([d, f]) && [d, f] in Stamps(before) && Blocked(after, [d, f]);
    assert !SameFile(before, after, [d]);
    assert !CaughtAt(before, after, [d]);
  }

  // ---------------------------------------------------------------- many rounds

  // Over any number of rounds none of which stops, from a cache that agrees: it agrees after
  // all of them exactly if no round misses anything.
  lemma {:induction false} RunAgrees(trees: seq<Tree>, records: seq<map<Path, seq<byte>>>, caches: seq<Cache>)
    requires |trees| == |records| == |caches| > 0
    requires records[0] == Stamps(trees[0]) && Restrict(caches[0]) == Rebuilt(trees[0])
    requires forall i | 0 <= i < |trees| - 1 :: Round(records[i], trees[i + 1], caches[i], records[i + 1], caches[i + 1])
    requires forall i | 0 <= i < |trees| - 1 :: !Stops(Stamps(trees[i]), trees[i + 1])
    ensures (forall i | 0 <= i < |trees| :: Restrict(caches[i]) == Rebuilt(trees[i]))
       <==> forall i | 0 <= i < |trees| - 1 :: Caught(trees[i], trees[i + 1])
  {
    for i := 0 to |trees| - 1
      invariant records[i] == Stamps(trees[i])
      invariant (forall j | 0 <= j <= i :: Restrict(caches[j]) == Rebuilt(trees[j]))
           <==> forall j | 0 <= j < i :: Caught(trees[j], trees[j + 1])
    {
      if Restrict(caches[i]) == Rebuilt(trees[i]) {
        RoundAgrees(trees[i], trees[i + 1], caches[i], records[i + 1], caches[i + 1]);
      }
    }
  }

  // One round as the two programs run it, from any record the script may have left, the
  // second on a faithful mirror of the tree.
  method RunRound(modtimes: seq<byte>, after: Tree, walk: seq<Path>, vfs: Vfs) returns (stopped: bool, modtimes': seq<byte>)
    requires TreeOk(after) && Stamped(after) && WellRecorded(modtimes)
    requires forall p :: p in walk <==> p in after
    requires forall i, j | 0 <= i < j < |walk| :: walk[i] != walk[j]
    modifies vfs
    ensures stopped <==> Stops(RecordIn(modtimes), after)
    ensures WellRecorded(modtimes')
    ensures Round(RecordIn(modtimes), after, old(vfs.files), RecordIn(modtimes'), vfs.files)
  {
    var before := ReadEntries(modtimes);
    var entries, updated, deleted;
    stopped, entries, updated, deleted := DetectChanges(before, after, walk);
    if stopped { CutOffRewrites(before, after, entries); }
    RecordIsOk(Record(before), entries, after);
    modtimes' := PrintEntries(entries);
    EntriesRoundTrip(entries);
    if stopped { return; }
    DetectedOk(Record(before), after, updated, deleted);
    var changelog := WriteChangelog(updated, deleted, after);
    ChangelogApplies(updated, deleted, vfs.files, after);
    if changelog.Some? {
      vfs.ApplyChangelog(changelog.value, after);
    }
  }

  // Stamps are one word.
  predicate Stamped(t: Tree) {
    forall p | p in t :: OneLine(t[p].stamp) && Lacks(t[p].stamp, SP)
  }

  // What the next run of the script reads in a record.
  function RecordIn(modtimes: seq<byte>): map<Path, seq<byte>> {
    Record(ReadEntries(modtimes))
  }

  // The script can have written this record.
  predicate WellRecorded(modtimes: seq<byte>) {
    var es := ReadEntries(modtimes);
    Clear(es) && Printable(es) && modtimes == PrintEntries(es) && forall p | p in Record(es) :: NameOk(p)
  }

  lemma {:induction false} RecordIsOk(recorded: map<Path, seq<byte>>, es: seq<Entry>, t: Tree)
    requires TreeOk(t) && Stamped(t) && Clear(es)
    requires Record(es) == Stamps(t) || Rewritten(recorded, t, Record(es))
    ensures Printable(es) && forall p | p in Record(es) :: NameOk(p)
  {
    forall i | 0 <= i < |es|
      ensures NameOk(es[i].path) && es[i].path in t && es[i].stamp == t[es[i].path].stamp
    {
      RecordHas(es, i);
    }
  }

  lemma {:induction false} DetectedOk(recorded: map<Path, seq<byte>>, after: Tree, updated: seq<Path>, deleted: seq<Path>)
    requires TreeOk(after) && forall p | p in recorded :: NameOk(p)
    requires Detected(recorded, after, updated, deleted)
    ensures AllOk(updated) && AllOk(deleted)
    ensures forall i | 0 <= i < |updated| :: updated[i] in after
  {
    forall i | 0 <= i < |updated| ensures updated[i] in after && NameOk(updated[i]) {
      assert updated[i] in updated;
    }
    forall i | 0 <= i < |deleted| ensures NameOk(deleted[i]) {
      assert deleted[i] in deleted;
    }
  }
}
