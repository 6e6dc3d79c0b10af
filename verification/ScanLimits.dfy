/** Where the scans fall short, and exactly when. */
module ScanLimits {
  import opened Paths
  import opened SqlLike
  import opened Catalogue
  import opened TreeInvariant
  import opened History
  import opened Reconciling
  import opened Agreement
  import opened ReconcileTheorems
  import opened Disk
  import opened Rescans
  import opened DirScans
  import opened Scanner

  // ---- a file in the place of a directory -------------------------------------------------------

  /** The row says file, but there are rows below it. */
  ghost predicate FileOverRows(items: Items, i: Id) {
    i in items && !items[i].isDir && HasBelow(items, items[i].path)
  }

  ghost predicate FilesAreLeaves(items: Items) {
    forall i :: !FileOverRows(items, i)
  }

  /** An observed file bears the name of a child that has rows below it. */
  ghost predicate FileTakesPlace(a: Items, dir: Path, all: seq<Observed>) {
    exists j :: 0 <= j < |all| && !all[j].isDir && HasBelow(a, dir + [all[j].name])
  }

  /** Entries appear below a row that says file. */
  ghost predicate FillsFile(a: Items, dir: Path, all: seq<Observed>)
    requires dir == [] || Indexed(a, dir)
  {
    dir != [] && !a[IdAt(a, dir)].isDir && all != []
  }

  /** The row i is that of dir or of an entry that was observed under its old name. */
  ghost predicate SeenAgain(a: Items, dir: Path, all: seq<Observed>, i: Id)
    requires i in a
  {
    a[i].path == dir || exists n :: n in Names(all) && a[i].path == dir + [n]
  }

  /** The outcome of a Reconcile. */
  ghost predicate Reconciles(a: Cat, b: Items, dir: Path, ids: map<Name, Id>, all: seq<Observed>) {
    && Valid(a) && Tree(b) && IsPath(dir) && (dir == [] || Indexed(a.items, dir))
    && Outcome(a.items, b, dir, ids, all)
  }

  lemma Goes(a: Cat, b: Items, dir: Path, ids: map<Name, Id>, all: seq<Observed>, i: Id) returns (m: Name, n: Name)
    requires Reconciles(a, b, dir, ids, all) && i in a.items && i in b && Below(dir, a.items[i].path)
    ensures m == Top(dir, a.items[i].path) && m in KnownIn(a.items, dir) && n in ids && ids[n] == KnownIn(a.items, dir)[m]
    ensures b[i].path == Replant(dir, a.items[i].path, n) && |b[i].path| == |a.items[i].path|
    ensures Below(dir, b[i].path) && Top(dir, b[i].path) == n
    ensures a.items[i].path == Replant(dir, b[i].path, m)
    ensures |a.items[i].path| > |dir| + 1 ==> b[i].isDir == a.items[i].isDir
  {
    var t := TaskFor(a, dir, [], 0);
    TopKnown(a, t, i);
    m := Top(dir, a.items[i].path);
    n :| n in ids && ids[n] == t.known[m];
    ReplantShape(dir, a.items[i].path, n);
    ReplantNowhere(dir, a.items[i].path);
  }

  /** A renamed child keeps its kind. */
  lemma RenameKeepsKind(a: Cat, b: Items, dir: Path, ids: map<Name, Id>, all: seq<Observed>, m: Name, n: Name)
    requires Reconciles(a, b, dir, ids, all)
    requires m in KnownIn(a.items, dir) && n in ids && ids[n] == KnownIn(a.items, dir)[m] && m != n
    ensures ids[n] in b && ids[n] in a.items && b[ids[n]].isDir == a.items[ids[n]].isDir
    ensures m !in Names(all)
  {
    var t := TaskFor(a, dir, [], 0);
    KnownRow(a, t, m);
    KnownApart(a, t, m);
    var j := NameAt(all, n);
    if m in Names(all) {
      var k := NameAt(all, m);
    }
  }

  // ---- what the outcome inherits ------------------------------------------------------------------

  lemma TakenPlace(a: Cat, b: Items, dir: Path, ids: map<Name, Id>, all: seq<Observed>, j: nat)
    requires Reconciles(a, b, dir, ids, all) && j < |all| && !all[j].isDir && HasBelow(a.items, dir + [all[j].name])
    ensures !FilesAreLeaves(b)
  {
    var n := all[j].name;
    var c :| c in a.items && Below(dir + [n], a.items[c].path);
    BelowUnder(dir, n, a.items[c].path);
    var t := TaskFor(a, dir, [], 0);
    TopKnown(a, t, c);
    KnownApart(a, t, n);
    assert ids[n] == t.known[n];
    ReplantNowhere(dir, a.items[c].path);
    assert c in b && b[c].path == a.items[c].path;
    assert Shows(b[ids[n]], dir, all[j]);
    assert FileOverRows(b, ids[n]);
  }

  lemma FilledFile(a: Cat, b: Items, dir: Path, ids: map<Name, Id>, all: seq<Observed>)
    requires Reconciles(a, b, dir, ids, all) && FillsFile(a.items, dir, all)
    ensures !FilesAreLeaves(b)
  {
    var i := IdAt(a.items, dir);
    assert Shows(b[ids[all[0].name]], dir, all[0]);
    BelowChild(dir, all[0].name);
    assert b[i] == a.items[i] && FileOverRows(b, i);
  }

  lemma Inherited(a: Cat, b: Items, dir: Path, ids: map<Name, Id>, all: seq<Observed>, i: Id)
    requires Reconciles(a, b, dir, ids, all) && FileOverRows(a.items, i) && i in b && !SeenAgain(a.items, dir, all, i)
    ensures !FilesAreLeaves(b)
  {
    if Below(dir, a.items[i].path) {
      InheritedBelow(a, b, dir, ids, all, i);
    } else {
      InheritedAbove(a, b, dir, ids, all, i);
    }
  }

  lemma InheritedAbove(a: Cat, b: Items, dir: Path, ids: map<Name, Id>, all: seq<Observed>, i: Id)
    requires Reconciles(a, b, dir, ids, all) && FileOverRows(a.items, i) && a.items[i].path != dir && !Below(dir, a.items[i].path)
    ensures !FilesAreLeaves(b)
  {
    var p := a.items[i].path;
    var c :| c in a.items && Below(p, a.items[c].path);
    WithinCases(p, a.items[c].path);
    if Below(dir, a.items[c].path) {
      AboveBelow(dir, p, a.items[c].path);
      WithinCases(p, dir);
      var k := IdAt(a.items, dir);
      assert b[k].path == dir;
    }
    assert FileOverRows(b, i);
  }

  lemma InheritedBelow(a: Cat, b: Items, dir: Path, ids: map<Name, Id>, all: seq<Observed>, i: Id)
    requires Reconciles(a, b, dir, ids, all) && FileOverRows(a.items, i) && i in b && Below(dir, a.items[i].path)
    requires !SeenAgain(a.items, dir, all, i)
    ensures !FilesAreLeaves(b)
  {
    var c :| c in a.items && Below(a.items[i].path, a.items[c].path);
    var m, n := Goes(a, b, dir, ids, all, i);
    WithinCases(a.items[i].path, a.items[c].path);
    BelowWithin(dir, a.items[i].path, a.items[c].path);
    TopWithin(dir, a.items[i].path, a.items[c].path);
    ReplantBoth(dir, a.items[i].path, a.items[c].path, n);
    WithinCases(b[i].path, b[c].path);
    ReplantShape(dir, a.items[c].path, n);
    StillFile(a, b, dir, ids, all, i, m, n);
    assert FileOverRows(b, i);
  }

  lemma StillFile(a: Cat, b: Items, dir: Path, ids: map<Name, Id>, all: seq<Observed>, i: Id, m: Name, n: Name)
    requires Reconciles(a, b, dir, ids, all) && i in a.items && i in b && Below(dir, a.items[i].path)
    requires !SeenAgain(a.items, dir, all, i) && m == Top(dir, a.items[i].path) && m in KnownIn(a.items, dir)
    requires n in ids && ids[n] == KnownIn(a.items, dir)[m]
    requires |a.items[i].path| > |dir| + 1 ==> b[i].isDir == a.items[i].isDir
    ensures b[i].isDir == a.items[i].isDir
  {
    if |a.items[i].path| == |dir| + 1 {
      var t := TaskFor(a, dir, [], 0);
      TopKnown(a, t, i);
      assert a.items[i].path == dir + [m];
      RenameKeepsKind(a, b, dir, ids, all, m, n);
    }
  }

  // ---- ... and nothing else ---------------------------------------------------------------------------

  lemma FromBelow(a: Cat, b: Items, dir: Path, ids: map<Name, Id>, all: seq<Observed>, c: Id)
    requires Reconciles(a, b, dir, ids, all) && c in b && Below(dir, b[c].path) && |b[c].path| > |dir| + 1
    ensures c in a.items && Below(dir, a.items[c].path)
  {
  }

  /** A row of the outcome deeper below dir and one above it, at or below the same child. */
  lemma SameChild(a: Cat, b: Items, dir: Path, ids: map<Name, Id>, all: seq<Observed>, i: Id, c: Id) returns (m: Name)
    requires Reconciles(a, b, dir, ids, all) && i in b && c in b && Below(dir, b[i].path) && Below(b[i].path, b[c].path)
    ensures c in a.items && Below(dir, a.items[c].path) && m == Top(dir, a.items[c].path) && m in KnownIn(a.items, dir)
    ensures Top(dir, b[i].path) in ids && ids[Top(dir, b[i].path)] == KnownIn(a.items, dir)[m]
    ensures a.items[c].path == Replant(dir, b[c].path, m)
    ensures |a.items[c].path| > |dir| + 1
  {
    WithinCases(b[i].path, b[c].path);
    BelowWithin(dir, b[i].path, b[c].path);
    TopWithin(dir, b[i].path, b[c].path);
    FromBelow(a, b, dir, ids, all, c);
    var m', n' := Goes(a, b, dir, ids, all, c);
    m := m';
  }

  lemma ChildOver(a: Cat, b: Items, dir: Path, ids: map<Name, Id>, all: seq<Observed>, i: Id)
    requires Reconciles(a, b, dir, ids, all) && FileOverRows(b, i) && Below(dir, b[i].path) && |b[i].path| == |dir| + 1
    ensures FileTakesPlace(a.items, dir, all) || (FileOverRows(a.items, i) && !SeenAgain(a.items, dir, all, i))
  {
    var c :| c in b && Below(b[i].path, b[c].path);
    var m := SameChild(a, b, dir, ids, all, i, c);
    BelowUnder(dir, m, a.items[c].path);
    assert HasBelow(a.items, dir + [m]);
    ChildWas(a, b, dir, ids, all, i, m);
  }

  lemma ChildWas(a: Cat, b: Items, dir: Path, ids: map<Name, Id>, all: seq<Observed>, i: Id, m: Name)
    requires Reconciles(a, b, dir, ids, all) && FileOverRows(b, i) && Below(dir, b[i].path) && |b[i].path| == |dir| + 1
    requires m in KnownIn(a.items, dir) && HasBelow(a.items, dir + [m])
    requires Top(dir, b[i].path) in ids && ids[Top(dir, b[i].path)] == KnownIn(a.items, dir)[m]
    ensures FileTakesPlace(a.items, dir, all) || (FileOverRows(a.items, i) && !SeenAgain(a.items, dir, all, i))
  {
    var n := Top(dir, b[i].path);
    assert ids[n] == i;
    if m == n {
      var j := NameAt(all, n);
      assert Shows(b[ids[n]], dir, all[j]);
      assert !all[j].isDir && HasBelow(a.items, dir + [all[j].name]);
    } else {
      KnownRow(a, TaskFor(a, dir, [], 0), m);
      RenameKeepsKind(a, b, dir, ids, all, m, n);
      NotSeen(a.items, dir, all, i, m);
    }
  }

  lemma NotSeen(a: Items, dir: Path, all: seq<Observed>, i: Id, m: Name)
    requires i in a && a[i].path == dir + [m] && m !in Names(all)
    ensures !SeenAgain(a, dir, all, i)
  {
    forall n | a[i].path == dir + [n] ensures n == m {
      assert (dir + [n])[|dir|] == n && (dir + [m])[|dir|] == m;
    }
  }

  lemma DeepOver(a: Cat, b: Items, dir: Path, ids: map<Name, Id>, all: seq<Observed>, i: Id)
    requires Reconciles(a, b, dir, ids, all) && FileOverRows(b, i) && Below(dir, b[i].path) && |b[i].path| > |dir| + 1
    ensures FileOverRows(a.items, i) && !SeenAgain(a.items, dir, all, i)
  {
    var c :| c in b && Below(b[i].path, b[c].path);
    var m := SameChild(a, b, dir, ids, all, i, c);
    DeepBelow(dir, b[i].path, b[c].path, m);
    assert HasBelow(a.items, Replant(dir, b[i].path, m));
    DeepWas(a, b, dir, ids, all, i, m);
    LongIsUnseen(a.items, dir, all, i);
  }

  lemma DeepWas(a: Cat, b: Items, dir: Path, ids: map<Name, Id>, all: seq<Observed>, i: Id, m: Name)
    requires Reconciles(a, b, dir, ids, all) && i in b && Below(dir, b[i].path) && |b[i].path| > |dir| + 1
    requires m in KnownIn(a.items, dir) && Top(dir, b[i].path) in ids && ids[Top(dir, b[i].path)] == KnownIn(a.items, dir)[m]
    ensures i in a.items && a.items[i].path == Replant(dir, b[i].path, m) && a.items[i].isDir == b[i].isDir
    ensures |a.items[i].path| > |dir| + 1
  {
    FromBelow(a, b, dir, ids, all, i);
    var m', n := Goes(a, b, dir, ids, all, i);
    KnownApart(a, TaskFor(a, dir, [], 0), m);
  }

  lemma LongIsUnseen(a: Items, dir: Path, all: seq<Observed>, i: Id)
    requires i in a && |a[i].path| > |dir| + 1
    ensures !SeenAgain(a, dir, all, i)
  {
  }

  lemma DeepBelow(dir: Path, p: Path, q: Path, m: Name)
    requires Below(dir, p) && Below(p, q) && Below(dir, q)
    ensures Below(Replant(dir, p, m), Replant(dir, q, m))
  {
    WithinCases(p, q);
    ReplantBoth(dir, p, q, m);
    WithinCases(Replant(dir, p, m), Replant(dir, q, m));
  }

  lemma OutsideOver(a: Cat, b: Items, dir: Path, ids: map<Name, Id>, all: seq<Observed>, i: Id)
    requires Reconciles(a, b, dir, ids, all) && FileOverRows(b, i) && !Below(dir, b[i].path)
    ensures FillsFile(a.items, dir, all) || (FileOverRows(a.items, i) && !SeenAgain(a.items, dir, all, i))
  {
    var p := b[i].path;
    var c :| c in b && Below(p, b[c].path);
    WithinCases(p, b[c].path);
    assert i in a.items && a.items[i] == b[i];
    assert RowOk(b, i);
    if Below(dir, b[c].path) {
      AboveBelow(dir, p, b[c].path);
      WithinCases(p, dir);
      if p == dir {
        ChildWasListed(a, b, dir, ids, all, c);
      } else {
        assert Indexed(a.items, dir);
      }
    }
    if p != dir {
      assert FileOverRows(a.items, i);
      forall n | p == dir + [n] ensures false {
        BelowChild(dir, n);
      }
    }
  }

  lemma ChildWasListed(a: Cat, b: Items, dir: Path, ids: map<Name, Id>, all: seq<Observed>, c: Id)
    requires Reconciles(a, b, dir, ids, all) && c in b && Below(dir, b[c].path)
    ensures all != []
  {
    var j := TopChild(b, dir, c);
    BelowChild(dir, Top(dir, b[c].path));
    assert Top(dir, b[j].path) in Names(all);
  }

  /** Rows end up below a file row if and only if an observed file bears the name of a child with rows
      below it, entries appear below a file row, or such a row was there before, is kept, and is not
      among the rows that are written. */
  lemma FilesAreLeavesAfter(a: Cat, dir: Path, all: seq<Observed>, missing: seq<Name>, now: int)
    requires Valid(a) && IsPath(dir) && (dir == [] || Indexed(a.items, dir)) && DistinctNames(all)
    requires ListsKnown(missing, KnownIn(a.items, dir))
    requires NoLateTwin(KnownIn(a.items, dir), a.items, all) && CaseClean(a.items, dir, all)
    ensures var b := Reconciled(a, dir, all, missing, now).c.items;
            FilesAreLeaves(b) <==>
              && !FileTakesPlace(a.items, dir, all) && !FillsFile(a.items, dir, all)
              && forall i | i in b && FileOverRows(a.items, i) :: SeenAgain(a.items, dir, all, i)
  {
    ReconcileOutcome(a, dir, all, missing, now);
    var s := Reconciled(a, dir, all, missing, now);
    var b := s.c.items;
    if j :| 0 <= j < |all| && !all[j].isDir && HasBelow(a.items, dir + [all[j].name]) {
      TakenPlace(a, b, dir, s.ids, all, j);
    }
    if FillsFile(a.items, dir, all) {
      FilledFile(a, b, dir, s.ids, all);
    }
    forall i | i in b && FileOverRows(a.items, i) && !SeenAgain(a.items, dir, all, i) ensures !FilesAreLeaves(b) {
      Inherited(a, b, dir, s.ids, all, i);
    }
    forall i | FileOverRows(b, i)
      ensures FileTakesPlace(a.items, dir, all) || FillsFile(a.items, dir, all)
              || (FileOverRows(a.items, i) && !SeenAgain(a.items, dir, all, i))
    {
      if !Below(dir, b[i].path) {
        OutsideOver(a, b, dir, s.ids, all, i);
      } else if |b[i].path| == |dir| + 1 {
        ChildOver(a, b, dir, s.ids, all, i);
      } else {
        DeepOver(a, b, dir, s.ids, all, i);
      }
    }
  }

  /** From a catalogue without such rows: an observed file under the name of a directory that still has
      rows is all it takes, and nothing less does it in a directory whose row says directory. */
  lemma FileOverDirectory(a: Cat, dir: Path, all: seq<Observed>, missing: seq<Name>, now: int)
    requires Valid(a) && IsPath(dir) && (dir == [] || Indexed(a.items, dir)) && DistinctNames(all)
    requires ListsKnown(missing, KnownIn(a.items, dir))
    requires NoLateTwin(KnownIn(a.items, dir), a.items, all) && CaseClean(a.items, dir, all)
    requires FilesAreLeaves(a.items)
    ensures FilesAreLeaves(Reconciled(a, dir, all, missing, now).c.items)
            <==> !FileTakesPlace(a.items, dir, all) && !FillsFile(a.items, dir, all)
  {
    FilesAreLeavesAfter(a, dir, all, missing, now);
  }

  // ---- concrete inputs ----------------------------------------------------------------------------------

  const SHARE: Path := ["s"]
  const FOLDER: Path := ["s", "d"]
  const OLD_FILE: Path := ["s", "d", "f"]
  const NEW_FILE: Path := ["s", "d", "g"]
  const OTHER_FILE: Path := ["s", "x"]

  /** A share, a directory in it and a file in that. */
  function Small(): Cat {
    Cat(map[Minted(0) := Row(Root, SHARE, "s", true, 0, 1, 0, 0),
            Minted(1) := Row(Minted(0), FOLDER, "d", true, 0, 1, 0, 0),
            Minted(2) := Row(Minted(1), OLD_FILE, "f", false, 1, 1, 0, 0)], [], 0, 3, false)
  }

  lemma SmallIsValid()
    ensures Valid(Small())
  {
    var items := Small().items;
    assert Parent(FOLDER) == SHARE && Parent(OLD_FILE) == FOLDER;
    assert RowOk(items, Minted(0));
    assert RowOk(items, Minted(1));
    assert RowOk(items, Minted(2));
  }

  /** A second file beside the first, and one in the directory above. */
  function TwoNewFiles(): Files {
    map[SHARE := Stat(true, 0, 2, 0, 0), FOLDER := Stat(true, 0, 2, 0, 0), OLD_FILE := Stat(false, 1, 1, 0, 0),
        NEW_FILE := Stat(false, 1, 2, 0, 0), OTHER_FILE := Stat(false, 1, 2, 0, 0)]
  }

  lemma TwoNewFilesOk()
    ensures DiskOk(TwoNewFiles())
  {
    assert Parent(FOLDER) == SHARE && Parent(OTHER_FILE) == SHARE && Parent(OLD_FILE) == FOLDER && Parent(NEW_FILE) == FOLDER;
  }

  lemma NoInodesFit(items: Items, d: Files)
    requires forall p | p in d :: d[p].ino == 0
    requires forall y, i, r | y in items && items[y].path !in d && i in items && r == items[i].path :: !Selects(items[y].path, r)
    requires forall y, q | y in items && items[y].path !in d && q in d && q != [] && |items[y].path| <= |q| :: !Selects(items[y].path, q)
    ensures Compatible(items, d) && Wholesale(items, d)
  {
  }

  /** A new file in a directory y of a share whose own time is new as well. */
  lemma MissedInShare(items: Items, d: Files, y: Path, p: Path)
    requires |y| == 2 && Stale(items, d, [y[0]]) && y in d && d[y].isDir && Indexed(items, y) && HasBelow(items, y)
    requires p in d && ChildOf(y, p) && !Indexed(items, p)
    ensures Missed(items, d, y)
  {
    var x := [y[0]];
    assert Parent(y) == x && Below(x, y);
    assert Relists(items, d, x, x) && !Relists(items, d, x, y);
    var i :| i in items && items[i].path == y;
    assert Below(x, items[i].path);
  }

  lemma SmallRows()
    ensures var items := Small().items;
            && (forall i | i in items :: items[i].path == SHARE || items[i].path == FOLDER || items[i].path == OLD_FILE)
            && Minted(0) in items && items[Minted(0)].path == SHARE && items[Minted(0)].mtime == 1
            && Indexed(items, FOLDER) && Indexed(items, OLD_FILE)
            && HasBelow(items, FOLDER)
  {
    var items := Small().items;
    assert items[Minted(1)].path == FOLDER && items[Minted(2)].path == OLD_FILE;
    assert Below(FOLDER, OLD_FILE);
  }

  lemma TwoNewFilesFit()
    ensures Compatible(Small().items, TwoNewFiles()) && Wholesale(Small().items, TwoNewFiles())
  {
    SmallRows();
    NoInodesFit(Small().items, TwoNewFiles());
  }

  /** The incremental scan never looks into the directory: re-listing the share stores its new time. */
  lemma ChangeBelowChangeIsMissed()
    ensures Detecting(Small(), TwoNewFiles()) && DiskOk(TwoNewFiles())
    ensures Missed(Small().items, TwoNewFiles(), FOLDER)
  {
    SmallIsValid();
    TwoNewFilesOk();
    TwoNewFilesFit();
    FolderIsMissed();
  }

  lemma FolderIsMissed()
    ensures Missed(Small().items, TwoNewFiles(), FOLDER)
  {
    var items, d := Small().items, TwoNewFiles();
    SmallRows();
    assert [FOLDER[0]] == SHARE && ChildOf(FOLDER, NEW_FILE);
    assert NEW_FILE[2] != OLD_FILE[2];
    MissedInShare(items, d, FOLDER, NEW_FILE);
  }

  /** A file in the place of the directory. */
  function FolderReplaced(): Files {
    map[SHARE := Stat(true, 0, 2, 0, 0), FOLDER := Stat(false, 1, 2, 0, 0)]
  }

  /** Neither scan removes the row of the file that was in the directory. */
  lemma ReplacedDirectoryIsStuck()
    ensures Detecting(Small(), FolderReplaced()) && DiskOk(FolderReplaced())
    ensures Stuck(Small().items, FolderReplaced(), FOLDER)
  {
    SmallIsValid();
    SmallRows();
    assert Parent(FOLDER) == SHARE;
    FolderReplacedFits();
  }

  lemma FolderReplacedFits()
    ensures Compatible(Small().items, FolderReplaced()) && Wholesale(Small().items, FolderReplaced())
  {
    var items, d := Small().items, FolderReplaced();
    SmallRows();
    forall r | r == SHARE || r == FOLDER || r == OLD_FILE ensures !Selects(OLD_FILE, r) {
      BelowSelects(OLD_FILE, r);
    }
    NoInodesFit(items, d);
  }
}
