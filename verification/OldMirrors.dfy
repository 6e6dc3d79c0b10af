/** The hypotheses of the scans in terms of two disks: the one the catalogue mirrors, and the one
    the scan finds. */
module OldMirrors {
  import opened Paths
  import opened SqlLike
  import opened Catalogue
  import opened TreeInvariant
  import opened Disk
  import opened DirScans

  // ---- times -------------------------------------------------------------------------------------

  /** An entry of y appeared, disappeared or changed its kind between d0 and d1. */
  ghost predicate EntriesChanged(d0: Files, d1: Files, y: Path) {
    exists p :: ChildOf(y, p) && (p in d0 || p in d1) && !(p in d0 && p in d1 && d0[p].isDir == d1[p].isDir)
  }

  lemma UnchangedIsNamed(items: Items, d0: Files, d1: Files, y: Path)
    requires Mirror(items, d0, true) && y in d0 && !EntriesChanged(d0, d1, y)
    ensures Named(items, d1, y)
  {
    assert Indexed(items, y);
    forall i | i in items && ChildOf(y, items[i].path) ensures items[i].path in d1 && Match(items[i], d1[items[i].path], false) {
      assert items[i].path in d0;
    }
    forall p | p in d1 && ChildOf(y, p) ensures Indexed(items, p) {
      assert p in d0;
    }
  }

  /** Every directory whose entries changed has a new time, and no directory with a new time has
      a child directory whose entries changed. */
  ghost predicate TimesTell(d0: Files, d1: Files) {
    && (forall y | y in d0 && y in d1 && d1[y].isDir && EntriesChanged(d0, d1, y) :: d0[y].mtime != d1[y].mtime)
    && (forall y, z | y in d0 && y in d1 && d1[y].isDir && d0[y].mtime != d1[y].mtime
                      && z in d0 && z in d1 && d0[z].isDir && d1[z].isDir && ChildOf(y, z) :: !EntriesChanged(d0, d1, z))
  }

  lemma ChangedIsStale(items: Items, d0: Files, d1: Files, y: Path)
    requires Mirror(items, d0, true) && TimesTell(d0, d1) && y in d1 && d1[y].isDir && Indexed(items, y) && !Named(items, d1, y)
    ensures Stale(items, d1, y) && EntriesChanged(d0, d1, y) && y in d0
  {
    var i :| i in items && items[i].path == y;
    assert y in d0 && items[i].mtime == d0[y].mtime;
    if !EntriesChanged(d0, d1, y) {
      UnchangedIsNamed(items, d0, d1, y);
    }
  }

  lemma ParentIsCurrent(items: Items, d0: Files, d1: Files, x: Path, y: Path)
    requires Mirror(items, d0, true) && DiskOk(d1) && TimesTell(d0, d1)
    requires y in d0 && y in d1 && d0[y].isDir && d1[y].isDir && EntriesChanged(d0, d1, y) && ChildOf(x, y)
    ensures !Stale(items, d1, x)
  {
    assert forall j | j in items && items[j].path == x :: x in d0 && items[j].mtime == d0[x].mtime;
  }

  lemma FileIsBare(items: Items, d0: Files, y: Path)
    requires Mirror(items, d0, true) && DiskOk(d0) && y in d0 && !d0[y].isDir
    ensures !HasBelow(items, y)
  {
    if HasBelow(items, y) {
      MirrorHasBelow(items, d0, y);
      var r :| r in d0 && Below(y, r);
      AncestorIsDir(d0, y, r);
    }
  }

  /** If the catalogue mirrored the old disk and times tell, the incremental scan misses nothing. */
  lemma TimesTellAll(items: Items, d0: Files, d1: Files, y: Path)
    requires Mirror(items, d0, true) && DiskOk(d0) && DiskOk(d1) && TimesTell(d0, d1)
    ensures !Missed(items, d1, y)
  {
    if y != [] && MissedIn(items, d1, [y[0]], y) {
      ChangedIsStale(items, d0, d1, y);
      if d0[y].isDir {
        ParentIsCurrent(items, d0, d1, Parent(y), y);
      } else {
        FileIsBare(items, d0, y);
      }
    }
  }

  // ---- inodes and kinds ----------------------------------------------------------------------------

  /** The catalogue mirrors the disk d0, inodes included. */
  ghost predicate MirrorWithInodes(items: Items, d0: Files) {
    && Mirror(items, d0, true)
    && forall i | i in items && items[i].path in d0 :: items[i].ino == d0[items[i].path].ino && items[i].dev == d0[items[i].path].dev
  }

  /** The file or directory p of d0 is what d1 has at q. */
  predicate Same(d0: Files, d1: Files, p: Path, q: Path) {
    p in d0 && q in d1 && d1[q].ino != 0 && SameKey(d0[p], d1[q])
  }

  /** A name that is still in use has not given its inode to a sibling. */
  ghost predicate NamesKeepInodes(d0: Files, d1: Files) {
    forall p, q | p != [] && p in d1 && Same(d0, d1, p, q) && ChildOf(Parent(p), q) :: p == q
  }

  /** A directory with something in it is still a directory. */
  ghost predicate NamesKeepKinds(d0: Files, d1: Files) {
    forall p, r | p in d0 && p in d1 && r in d0 && Below(p, r) :: d1[p].isDir
  }

  /** What has moved took its contents along, as far as they are still there. */
  ghost predicate MovesKeepContents(d0: Files, d1: Files) {
    forall p, q, r | Same(d0, d1, p, q) && p !in d1 && r in d0 && Within(p, r) && Rebase(r, p, q) in d1 ::
      && SameKey(d0[r], d1[Rebase(r, p, q)])
      && (d0[r].ino == 0 ==> d1[Rebase(r, p, q)].ino == 0)
  }

  /** Where the old p is, was, or may be taken to be. */
  ghost predicate SpotOf(d0: Files, d1: Files, p: Path, r: Path) {
    p in d0 && (r == p || exists x, q :: Same(d0, d1, x, q) && Within(x, p) && r == Rebase(p, x, q))
  }

  ghost predicate Spot(d0: Files, d1: Files, r: Path) {
    r in d1 || exists p :: SpotOf(d0, d1, p, r)
  }

  /** No two of these paths differ by ASCII case only. */
  ghost predicate OneSpelling(d0: Files, d1: Files) {
    forall r, r' | Spot(d0, d1, r) && Spot(d0, d1, r') && FoldPath(r) == FoldPath(r') :: r == r'
  }

  lemma MirrorHasBelow(items: Items, d0: Files, p: Path)
    requires Mirror(items, d0, true) && HasBelow(items, p)
    ensures exists r :: r in d0 && Below(p, r)
  {
    var c :| c in items && Below(p, items[c].path);
    assert items[c].path in d0;
  }

  lemma PlaceIsSpot(items: Items, d0: Files, d1: Files, i: Id, r: Path)
    requires MirrorWithInodes(items, d0) && Places(items, d1, i, r)
    ensures SpotOf(d0, d1, items[i].path, r)
  {
    if r != items[i].path {
      var x, q :| RenameOf(items, d1, x, q) && Within(items[x].path, items[i].path) && r == Rebase(items[i].path, items[x].path, q);
      assert Same(d0, d1, items[x].path, q);
    }
  }

  lemma PrefixInDisk(d: Files, p: Path, n: nat)
    requires DiskOk(d) && p in d && 0 < n <= |p|
    ensures p[..n] in d
  {
    if n < |p| {
      assert Below(p[..n], p);
      AncestorIsDir(d, p[..n], p);
    } else {
      assert p[..n] == p;
    }
  }

  lemma SpotPrefix(d0: Files, d1: Files, r: Path, n: nat)
    requires DiskOk(d0) && DiskOk(d1) && Spot(d0, d1, r) && 0 < n <= |r|
    ensures Spot(d0, d1, r[..n])
  {
    if r in d1 {
      PrefixInDisk(d1, r, n);
    } else {
      var p :| SpotOf(d0, d1, p, r);
      if r == p {
        PrefixInDisk(d0, p, n);
        assert SpotOf(d0, d1, p[..n], r[..n]);
      } else {
        var x, q :| Same(d0, d1, x, q) && Within(x, p) && r == Rebase(p, x, q);
        RebasedPrefix(d0, d1, p, x, q, n);
      }
    }
  }

  lemma RebasedPrefix(d0: Files, d1: Files, p: Path, x: Path, q: Path, n: nat)
    requires DiskOk(d0) && DiskOk(d1) && p in d0 && Same(d0, d1, x, q) && Within(x, p) && 0 < n <= |Rebase(p, x, q)|
    ensures Spot(d0, d1, Rebase(p, x, q)[..n])
  {
    var r := Rebase(p, x, q);
    if n <= |q| {
      assert r[..n] == q[..n];
      PrefixInDisk(d1, q, n);
    } else {
      var m := n - |q| + |x|;
      PrefixInDisk(d0, p, m);
      assert p[..m][..|x|] == p[..|x|];
      assert r[..n] == Rebase(p[..m], x, q);
      assert SpotOf(d0, d1, p[..m], r[..n]);
    }
  }

  /** With one spelling for each path, the LIKE is a test for containment. */
  lemma SpotsApart(d0: Files, d1: Files, r: Path, r': Path)
    requires DiskOk(d0) && DiskOk(d1) && OneSpelling(d0, d1) && Spot(d0, d1, r) && Spot(d0, d1, r')
    requires IsPath(r) && IsPath(r') && r != [] && Selects(r, r')
    ensures Below(r, r')
  {
    BelowSelects(r, r');
    SpotPrefix(d0, d1, r', |r|);
  }

  lemma UnmovedFits(items: Items, d0: Files, d1: Files, i: Id)
    requires Tree(items) && MirrorWithInodes(items, d0) && DiskOk(d0) && DiskOk(d1)
    requires NamesKeepInodes(d0, d1) && i in items && items[i].path in d1
    ensures Fits(items, i, items[i].path, d1)
  {
    var p := items[i].path;
    assert RowOk(items, i) && p in d0;
    forall q | q in d1 && q != p && ChildOf(Parent(p), q) ensures !InodeOf(items[i], d1[q]) {
      assert !Same(d0, d1, p, q);
    }
  }

  lemma MovedFits(items: Items, d0: Files, d1: Files, i: Id, r: Path)
    requires Tree(items) && MirrorWithInodes(items, d0) && DiskOk(d0) && DiskOk(d1) && MovesKeepContents(d0, d1)
    requires Places(items, d1, i, r) && r in d1 && r != items[i].path
    ensures Fits(items, i, r, d1) && KindFits(items, i, r, d1)
  {
    var x, q :| RenameOf(items, d1, x, q) && Within(items[x].path, items[i].path) && r == Rebase(items[i].path, items[x].path, q);
    var p := items[i].path;
    assert p in d0 && Same(d0, d1, items[x].path, q);
    assert SameKey(d0[p], d1[r]);
    if HasBelow(items, p) {
      MirrorHasBelow(items, d0, p);
      var c :| c in d0 && Below(p, c);
      AncestorIsDir(d0, p, c);
    }
  }

  /** Then a scan may start from the catalogue of the old disk. */
  lemma OldMirrorIsCompatible(items: Items, d0: Files, d1: Files)
    requires Tree(items) && MirrorWithInodes(items, d0) && DiskOk(d0) && DiskOk(d1)
    requires NamesKeepInodes(d0, d1) && MovesKeepContents(d0, d1) && OneSpelling(d0, d1)
    ensures Compatible(items, d1)
  {
    forall i, r | Places(items, d1, i, r) && r in d1
      ensures Fits(items, i, r, d1) && (r != items[i].path ==> KindFits(items, i, r, d1))
    {
      if r == items[i].path {
        UnmovedFits(items, d0, d1, i);
      } else {
        MovedFits(items, d0, d1, i, r);
      }
    }
    forall y, r, i, r' | Places(items, d1, y, r) && Places(items, d1, i, r') && Selects(r, r') ensures Below(r, r') {
      PlacesApart(items, d0, d1, y, r, i, r');
    }
    forall y, r, q | Places(items, d1, y, r) && r !in d1 && q in d1 ensures !Selects(r, q) {
      PlaceOffDisk(items, d0, d1, y, r, q);
    }
  }

  lemma PlacesApart(items: Items, d0: Files, d1: Files, y: Id, r: Path, i: Id, r': Path)
    requires Tree(items) && MirrorWithInodes(items, d0) && DiskOk(d0) && DiskOk(d1) && OneSpelling(d0, d1)
    requires Places(items, d1, y, r) && Places(items, d1, i, r') && Selects(r, r')
    ensures Below(r, r')
  {
    PlaceIsSpot(items, d0, d1, y, r);
    PlaceIsSpot(items, d0, d1, i, r');
    PlaceIsName(items, d1, y, r);
    PlaceIsName(items, d1, i, r');
    SpotsApart(d0, d1, r, r');
  }

  lemma PlaceIsName(items: Items, d: Files, i: Id, r: Path)
    requires Tree(items) && DiskOk(d) && Places(items, d, i, r)
    ensures IsPath(r) && r != []
  {
    assert RowOk(items, i);
    if r != items[i].path {
      var x, q :| RenameOf(items, d, x, q) && Within(items[x].path, items[i].path) && r == Rebase(items[i].path, items[x].path, q);
      var p := items[i].path;
      assert q in d && IsPath(q);
      forall k | 0 <= k < |r| ensures IsName(r[k]) {
        assert r[k] == if k < |q| then q[k] else p[k];
      }
    }
  }

  lemma PlaceOffDisk(items: Items, d0: Files, d1: Files, y: Id, r: Path, q: Path)
    requires Tree(items) && MirrorWithInodes(items, d0) && DiskOk(d0) && DiskOk(d1) && OneSpelling(d0, d1)
    requires Places(items, d1, y, r) && r !in d1 && q in d1
    ensures !Selects(r, q)
  {
    if Selects(r, q) {
      PlaceIsSpot(items, d0, d1, y, r);
      PlaceIsName(items, d1, y, r);
      assert IsPath(q);
      SpotsApart(d0, d1, r, q);
      AncestorIsDir(d1, r, q);
    }
  }

  lemma OldMirrorIsNotStuck(items: Items, d0: Files, d1: Files, p: Path)
    requires Mirror(items, d0, true) && NamesKeepKinds(d0, d1)
    ensures !Stuck(items, d1, p)
  {
    if Stuck(items, d1, p) {
      MirrorHasBelow(items, d0, p);
    }
  }

  // ---- renames ---------------------------------------------------------------------------------------

  /** What was renamed in place was not changed inside. */
  ghost predicate RenamesAreWhole(d0: Files, d1: Files) {
    forall p, q | Same(d0, d1, p, q) && p != [] && p !in d1 && q !in d0 && d1[q].isDir && ChildOf(Parent(p), q) ::
      && (forall r | r in d0 && Below(p, r) :: Rebase(r, p, q) in d1 && d1[Rebase(r, p, q)].isDir == d0[r].isDir)
      && (forall r | r in d1 && Below(q, r) :: Rebase(r, q, p) in d0)
  }

  lemma OldMirrorIsWholesale(items: Items, d0: Files, d1: Files)
    requires MirrorWithInodes(items, d0) && RenamesAreWhole(d0, d1)
    ensures Wholesale(items, d1)
  {
    forall x, q | x in items && q in d1 && items[x].path != [] && items[x].path !in d1 && InodeOf(items[x], d1[q]) && d1[q].isDir
                  && ChildOf(Parent(items[x].path), q) && !Indexed(items, q)
      ensures SameSubtree(items, x, q, d1)
    {
      var p := items[x].path;
      assert Same(d0, d1, p, q) && q !in d0;
      forall i | i in items && Below(p, items[i].path)
        ensures var r := Rebase(items[i].path, p, q); r in d1 && d1[r].isDir == items[i].isDir
      {
        assert items[i].path in d0;
      }
    }
  }
}
