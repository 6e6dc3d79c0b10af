/** The incremental scan, which re-lists only directories whose modification time is new:
    what it needs to be able to find every change. */
module DirScans {
  import opened Paths
  import opened Catalogue
  import opened TreeInvariant
  import opened Writes
  import opened Reconciling
  import opened ReconcileTheorems
  import opened Disk
  import opened Rescans
  import opened Scanning

  /** The entries of the directory y are known, by name and kind. */
  ghost predicate Named(items: Items, d: Files, y: Path) {
    Done(items, d, y, false)
  }

  ghost predicate AllNamed(items: Items, d: Files, z: Path) {
    forall y | IsDirectory(d, y) && Within(z, y) :: Named(items, d, y)
  }

  /** The stored modification time of y is not that of the disk. */
  ghost predicate Stale(items: Items, d: Files, y: Path) {
    y in d && exists i :: i in items && items[i].path == y && items[i].mtime != d[y].mtime
  }

  /** Whether the walk that starts at r re-lists y: its time is new, and its parent was not re-listed,
      which would have stored the new time. */
  ghost predicate Relists(items: Items, d: Files, r: Path, y: Path)
    decreases |y|
  {
    Stale(items, d, y) && (Below(r, y) ==> !Relists(items, d, r, Parent(y)))
  }

  /** A directory whose entries changed and which the walk from r passes by: it is not re-listed, nor
      is it bare and filled in when its parent is re-listed. */
  ghost predicate MissedIn(items: Items, d: Files, r: Path, y: Path) {
    && Within(r, y) && y in d && d[y].isDir && Indexed(items, y)
    && !Named(items, d, y)
    && !Relists(items, d, r, y)
    && (HasBelow(items, y) || !Below(r, y) || !Relists(items, d, r, Parent(y)))
  }

  ghost predicate NoneMissedIn(items: Items, d: Files, r: Path) {
    forall y :: !MissedIn(items, d, r, y)
  }

  /** The same for the whole scan, which walks every share and then re-lists the root: this fills in
      shares with nothing below them. */
  ghost predicate Missed(items: Items, d: Files, y: Path) {
    y != [] && HasBelow(items, [y[0]]) && MissedIn(items, d, [y[0]], y)
  }

  /** The subtree of the vanished row x is what is now on disk below q. */
  ghost predicate SameSubtree(items: Items, x: Id, q: Path, d: Files)
    requires x in items
  {
    && (forall i | i in items && Below(items[x].path, items[i].path) ::
          var p := Rebase(items[i].path, items[x].path, q); p in d && d[p].isDir == items[i].isDir)
    && (forall p | p in d && Below(q, p) :: Indexed(items, Rebase(p, q, items[x].path)))
  }

  /** Directories renamed in place were not changed inside as well. */
  ghost predicate Wholesale(items: Items, d: Files) {
    forall x, q | x in items && q in d && items[x].path != [] && items[x].path !in d && InodeOf(items[x], d[q]) && d[q].isDir
                  && ChildOf(Parent(items[x].path), q) && !Indexed(items, q) ::
      SameSubtree(items, x, q, d)
  }

  // ---- the subtree of a renamed directory --------------------------------------------------

  /** The directory e + [n] was indexed as e + [m] before. */
  ghost predicate Renamed(a: Items, d: Files, e: Path, m: Name, n: Name, x: Id) {
    && x in a && a[x].path == e + [m] && m != n
    && e + [m] !in d && e + [n] in d && !Indexed(a, e + [n])
    && InodeOf(a[x], d[e + [n]])
  }

  lemma RenamedAgrees(a: Items, d: Files, e: Path, m: Name, n: Name, x: Id, i: Id)
    requires Wholesale(a, d) && Compatible(a, d) && Renamed(a, d, e, m, n, x)
    requires i in a && Below(e + [m], a[i].path)
    ensures d[e + [n]].isDir && SameSubtree(a, x, e + [n], d)
  {
    BelowChild(e, m);
    BelowChild(e, n);
    assert HasBelow(a, a[x].path);
    assert RenameOf(a, d, x, e + [n]);
    assert Within(a[x].path, a[x].path);
    assert Rebase(a[x].path, a[x].path, e + [n]) == e + [n];
    assert Places(a, d, x, e + [n]) && KindFits(a, x, e + [n], d);
  }

  lemma RenamedRow(a: Items, d: Files, e: Path, m: Name, n: Name, x: Id, i: Id)
    requires Wholesale(a, d) && Compatible(a, d) && Renamed(a, d, e, m, n, x)
    requires i in a && Below(e, a[i].path) && Top(e, a[i].path) == m && |a[i].path| > |e| + 1
    ensures d[e + [n]].isDir && SameSubtree(a, x, e + [n], d)
    ensures var p := Replant(e, a[i].path, n); p in d && d[p].isDir == a[i].isDir
  {
    var p := a[i].path;
    assert p[..|e| + 1] == e + [m];
    RenamedAgrees(a, d, e, m, n, x, i);
    assert Rebase(p, e + [m], e + [n]) == Replant(e, p, n);
  }

  /** How a row sits now whose path is not the one it had. */
  lemma MovedRow(a: Cat, b: Items, e: Path, ids: map<Name, Id>, all: seq<Observed>, d: Files, i: Id) returns (m: Name, n: Name, x: Id)
    requires Rescan(a, b, e, ids, all, d) && i in a.items && i in b && a.items[i].path != b[i].path
    ensures Came(a.items, b, e, d, i, m, n) && Renamed(a.items, d, e, m, n, x)
    ensures m in KnownIn(a.items, e) && n in ids && ids[n] == KnownIn(a.items, e)[m]
  {
    Traced(a, b, e, ids, all, d, i);
    m := Top(e, a.items[i].path);
    n := Follow(a, b, e, ids, all, d, i);
    ReplantNowhere(e, a.items[i].path);
    assert Came(a.items, b, e, d, i, m, n);
    x :| x in a.items && a.items[x].path == e + [m] && InodeOf(a.items[x], d[e + [n]]);
  }

  /** A row below a renamed directory went along. */
  lemma WentAlong(a: Cat, b: Items, e: Path, ids: map<Name, Id>, all: seq<Observed>, d: Files, m: Name, n: Name, c: Id)
    requires Rescan(a, b, e, ids, all, d) && c in a.items && Below(e, a.items[c].path) && Top(e, a.items[c].path) == m
    requires m in KnownIn(a.items, e) && n in ids && ids[n] == KnownIn(a.items, e)[m]
    ensures c in b && b[c].path == Replant(e, a.items[c].path, n)
  {
  }

  lemma ReplantRebase(e: Path, p: Path, m: Name, n: Name)
    requires Below(e, p) && Top(e, p) == n && |p| > |e| + 1
    ensures var q := Rebase(p, e + [n], e + [m]);
            Below(e, q) && Top(e, q) == m && Replant(e, q, n) == p && |q| == |p|
  {
    var q := Rebase(p, e + [n], e + [m]);
    assert q[..|e|] == e && q[|e|] == m && q[|e| + 1..] == p[|e| + 1..];
    ReplantNowhere(e, p);
  }

  lemma ChildUnder(e: Path, y: Path, p: Path)
    requires Below(e, y) && ChildOf(y, p)
    ensures Below(e, p) && Top(e, p) == Top(e, y) && !ChildOf(e, p) && |p| > |e| + 1
    ensures Below(e + [Top(e, y)], p)
  {
    ChildCases(y, p);
    WithinCases(e, y);
    BelowTrans(e, y, p);
    ChildCases(e, p);
    assert p[|e|] == p[..|y|][|e|];
    BelowUnder(e, Top(e, y), p);
  }

  /** On disk, everything in the renamed directory is indexed under it. */
  lemma RenamedIndexed(a: Cat, b: Items, e: Path, ids: map<Name, Id>, all: seq<Observed>, d: Files, m: Name, n: Name, x: Id, p: Path)
    requires Rescan(a, b, e, ids, all, d) && Renamed(a.items, d, e, m, n, x) && SameSubtree(a.items, x, e + [n], d)
    requires m in KnownIn(a.items, e) && n in ids && ids[n] == KnownIn(a.items, e)[m]
    requires p in d && Below(e + [n], p)
    ensures Indexed(b, p)
  {
    BelowUnder(e, n, p);
    ReplantRebase(e, p, m, n);
    var c :| c in a.items && a.items[c].path == Rebase(p, e + [n], e + [m]);
    WentAlong(a, b, e, ids, all, d, m, n, c);
  }

  lemma RenamedEntry(a: Cat, b: Items, e: Path, ids: map<Name, Id>, all: seq<Observed>, d: Files, r: Id)
    requires Rescan(a, b, e, ids, all, d) && Wholesale(a.items, d)
    requires r in b && Below(e, b[r].path) && |b[r].path| > |e| + 1 && !Indexed(a.items, e + [Top(e, b[r].path)])
    ensures b[r].path in d && Match(b[r], d[b[r].path], false)
  {
    ChildCases(e, b[r].path);
    DeepRow(a, b, e, ids, all, d, r);
    if a.items[r].path == b[r].path {
      TopIndexed(a.items, e, a.items[r].path);
    }
    var m, n, x := MovedRow(a, b, e, ids, all, d, r);
    RenamedRow(a.items, d, e, m, n, x, r);
  }

  lemma RenamedEntries(a: Cat, b: Items, e: Path, ids: map<Name, Id>, all: seq<Observed>, d: Files, y: Path, m: Name, n: Name, x: Id)
    requires Rescan(a, b, e, ids, all, d) && Wholesale(a.items, d)
    requires Renamed(a.items, d, e, m, n, x) && SameSubtree(a.items, x, e + [n], d)
    requires m in KnownIn(a.items, e) && n in ids && ids[n] == KnownIn(a.items, e)[m]
    requires Below(e, y) && Top(e, y) == n
    ensures forall p | p in d && ChildOf(y, p) :: Indexed(b, p)
  {
    forall p | p in d && ChildOf(y, p) ensures Indexed(b, p) {
      ChildUnder(e, y, p);
      RenamedIndexed(a, b, e, ids, all, d, m, n, x, p);
    }
  }

  lemma RenamedRows(a: Cat, b: Items, e: Path, ids: map<Name, Id>, all: seq<Observed>, d: Files, y: Path)
    requires Rescan(a, b, e, ids, all, d) && Wholesale(a.items, d)
    requires Below(e, y) && !Indexed(a.items, e + [Top(e, y)])
    ensures forall r | r in b && ChildOf(y, b[r].path) :: b[r].path in d && Match(b[r], d[b[r].path], false)
  {
    forall r | r in b && ChildOf(y, b[r].path) ensures b[r].path in d && Match(b[r], d[b[r].path], false) {
      ChildUnder(e, y, b[r].path);
      RenamedEntry(a, b, e, ids, all, d, r);
    }
  }

  /** A directory that was not indexed under its present path, but whose row is old, is known. */
  lemma RenamedNamed(a: Cat, b: Items, e: Path, ids: map<Name, Id>, all: seq<Observed>, d: Files, y: Path, i: Id, c: Id)
    requires Rescan(a, b, e, ids, all, d) && Wholesale(a.items, d)
    requires y in d && d[y].isDir && i in b && i in a.items && b[i].path == y && a.items[i].path != y
    requires c in b && c in a.items && (c == i || Below(y, b[c].path)) && |b[c].path| > |e| + 1
    ensures Named(b, d, y)
  {
    var m, n, x := MovedRow(a, b, e, ids, all, d, i);
    assert Below(e, y) && Top(e, y) == n;
    RenamedHas(a, b, e, ids, all, d, i, c, m, n, x);
    RenamedBoth(a, b, e, ids, all, d, y, m, n, x);
  }

  lemma RenamedBoth(a: Cat, b: Items, e: Path, ids: map<Name, Id>, all: seq<Observed>, d: Files, y: Path, m: Name, n: Name, x: Id)
    requires Rescan(a, b, e, ids, all, d) && Wholesale(a.items, d)
    requires Renamed(a.items, d, e, m, n, x) && SameSubtree(a.items, x, e + [n], d)
    requires m in KnownIn(a.items, e) && n in ids && ids[n] == KnownIn(a.items, e)[m]
    requires Below(e, y) && Top(e, y) == n && Indexed(b, y)
    ensures Named(b, d, y)
  {
    RenamedEntries(a, b, e, ids, all, d, y, m, n, x);
    RenamedRows(a, b, e, ids, all, d, y);
  }

  lemma RenamedHas(a: Cat, b: Items, e: Path, ids: map<Name, Id>, all: seq<Observed>, d: Files, i: Id, c: Id, m: Name, n: Name, x: Id)
    requires Rescan(a, b, e, ids, all, d) && Wholesale(a.items, d)
    requires i in b && i in a.items && Came(a.items, b, e, d, i, m, n) && Renamed(a.items, d, e, m, n, x)
    requires c in b && c in a.items && (c == i || Below(b[i].path, b[c].path)) && |b[c].path| > |e| + 1
    ensures d[e + [n]].isDir && SameSubtree(a.items, x, e + [n], d)
  {
    if c != i {
      WithinCases(b[i].path, b[c].path);
      BelowWithin(e, b[i].path, b[c].path);
      assert b[c].path[|e|] == b[c].path[..|b[i].path|][|e|];
      SameTop(a, b, e, ids, all, d, i, c);
    }
    Traced(a, b, e, ids, all, d, c);
    RenamedRow(a.items, d, e, m, n, x, c);
  }

  // ---- after the re-listing of one directory -----------------------------------------------------

  /** Nothing appears below a known directory other than e. */
  lemma NothingNewBelow(a: Cat, b: Items, e: Path, ids: map<Name, Id>, all: seq<Observed>, d: Files, z: Path)
    requires Rescan(a, b, e, ids, all, d) && z in d && Indexed(a.items, z) && z != e && HasBelow(b, z)
    ensures HasBelow(a.items, z)
  {
    var c :| c in b && Below(z, b[c].path);
    if Below(z, e) {
      assert Indexed(a.items, e);
    } else {
      WithinCases(z, e);
      WithinCases(z, b[c].path);
      BelowBoth(e, z, b[c].path);
      WithinCases(e, z);
      ChildCases(e, b[c].path);
      assert ChildOf(e, b[c].path) ==> Within(z, e) by { WithinCases(z, b[c].path); }
      if Below(e, z) {
        TopIndexed(a.items, e, z);
      }
      RowStayed(a, b, e, ids, all, d, c);
      assert Below(z, a.items[c].path);
    }
  }

  // ---- directories renamed as a whole ---------------------------------------------------------------

  /** What lies below a vanished row lay below it before. */
  lemma VanishedSubtree(a: Cat, b: Items, e: Path, ids: map<Name, Id>, all: seq<Observed>, d: Files, x: Id, i: Id)
    requires Rescan(a, b, e, ids, all, d) && x in b && b[x].path !in d && i in b && Below(b[x].path, b[i].path)
    ensures x in a.items && i in a.items && Below(a.items[x].path, a.items[i].path)
    ensures a.items[i].isDir == b[i].isDir
    ensures forall q :: Rebase(a.items[i].path, a.items[x].path, q) == Rebase(b[i].path, b[x].path, q)
  {
    assert RowOk(b, x);
    WithinCases(b[x].path, b[i].path);
    NothingWithinVanished(d, b[x].path, b[i].path);
    VanishedBefore(a, b, e, ids, all, d, x);
    VanishedBefore(a, b, e, ids, all, d, i);
    WithinBefore(a, b, e, ids, all, d, x, i);
  }

  lemma VanishedNoChild(a: Cat, b: Items, e: Path, ids: map<Name, Id>, all: seq<Observed>, d: Files, x: Id)
    requires Rescan(a, b, e, ids, all, d) && x in b
    ensures ChildOf(e, b[x].path) ==> b[x].path in d
  {
    if ChildOf(e, b[x].path) {
      ChildAfter(a, b, e, ids, all, d, x);
    }
  }

  /** A vanished row has not moved: below a renamed directory nothing has vanished. */
  lemma VanishedUnmoved(a: Cat, b: Items, e: Path, ids: map<Name, Id>, all: seq<Observed>, d: Files, x: Id)
    requires Rescan(a, b, e, ids, all, d) && Wholesale(a.items, d) && x in b && b[x].path !in d
    ensures x in a.items && a.items[x] == b[x]
  {
    VanishedBefore(a, b, e, ids, all, d, x);
    if a.items[x].path != b[x].path {
      var m, n, y := MovedRow(a, b, e, ids, all, d, x);
      VanishedNoChild(a, b, e, ids, all, d, x);
      ChildCases(e, b[x].path);
      Traced(a, b, e, ids, all, d, x);
      MovedToDisk(a.items, d, e, m, n, y, x, b[x].path);
    }
  }

  lemma MovedToDisk(a: Items, d: Files, e: Path, m: Name, n: Name, y: Id, i: Id, p: Path)
    requires Wholesale(a, d) && Compatible(a, d) && Renamed(a, d, e, m, n, y)
    requires i in a && Below(e, a[i].path) && Top(e, a[i].path) == m && |a[i].path| > |e| + 1
    requires p == Replant(e, a[i].path, n)
    ensures p in d
  {
    RenamedRow(a, d, e, m, n, y, i);
  }

  lemma UnmovedSubtree(a: Cat, b: Items, e: Path, ids: map<Name, Id>, all: seq<Observed>, d: Files, x: Id, c: Id)
    requires Rescan(a, b, e, ids, all, d) && x in a.items && x in b && a.items[x] == b[x] && b[x].path !in d
    requires c in a.items && Below(a.items[x].path, a.items[c].path)
    ensures c in b && b[c].path == a.items[c].path
  {
    var p, q := a.items[x].path, a.items[c].path;
    assert RowOk(b, x);
    if Within(p, e) {
      WithinDirIsDir(d, p, e);
    }
    WithinCases(p, q);
    BelowBoth(e, p, q);
    if Below(e, p) {
      var n := Follow(a, b, e, ids, all, d, x);
      WentAlong(a, b, e, ids, all, d, Top(e, p), n, c);
      ReplantNowhere(e, q);
    }
  }

  lemma SameSubtreeStays(a: Cat, b: Items, e: Path, ids: map<Name, Id>, all: seq<Observed>, d: Files, x: Id, q: Path)
    requires Rescan(a, b, e, ids, all, d) && x in a.items && x in b && a.items[x] == b[x] && b[x].path !in d
    requires SameSubtree(a.items, x, q, d)
    ensures SameSubtree(b, x, q, d)
  {
    forall i | i in b && Below(b[x].path, b[i].path)
      ensures var p := Rebase(b[i].path, b[x].path, q); p in d && d[p].isDir == b[i].isDir
    {
      VanishedSubtree(a, b, e, ids, all, d, x, i);
    }
    forall p | p in d && Below(q, p) ensures Indexed(b, Rebase(p, q, b[x].path)) {
      var c :| c in a.items && a.items[c].path == Rebase(p, q, a.items[x].path);
      RebaseBelow(p, q, a.items[x].path);
      UnmovedSubtree(a, b, e, ids, all, d, x, c);
    }
  }

  lemma RebaseBelow(p: Path, src: Path, dst: Path)
    requires Below(src, p)
    ensures Below(dst, Rebase(p, src, dst))
  {
  }

  lemma RescanKeepsWholesale(a: Cat, b: Items, e: Path, ids: map<Name, Id>, all: seq<Observed>, d: Files)
    requires Rescan(a, b, e, ids, all, d) && Wholesale(a.items, d)
    ensures Wholesale(b, d)
  {
    forall x, q | x in b && q in d && b[x].path != [] && b[x].path !in d && InodeOf(b[x], d[q]) && d[q].isDir
                  && ChildOf(Parent(b[x].path), q) && !Indexed(b, q)
      ensures SameSubtree(b, x, q, d)
    {
      VanishedUnmoved(a, b, e, ids, all, d, x);
      if Indexed(a.items, q) {
        DirStaysIndexed(a, b, e, ids, all, d, q);
      }
      SameSubtreeStays(a, b, e, ids, all, d, x, q);
    }
  }

  // ---- what depends on which rows ---------------------------------------------------------------------

  /** The rows strictly below z are the same. */
  ghost predicate SubtreeSame(a: Items, b: Items, z: Path) {
    && (forall i | i in a && Below(z, a[i].path) :: i in b && b[i] == a[i])
    && (forall i | i in b && Below(z, b[i].path) :: i in a && a[i] == b[i])
  }

  /** The row at z is the same. */
  ghost predicate RowSame(a: Items, b: Items, z: Path) {
    && (forall i | i in a && a[i].path == z :: i in b && b[i] == a[i])
    && (forall i | i in b && b[i].path == z :: i in a && a[i] == b[i])
  }

  /** The rows not strictly below z are the same. */
  ghost predicate SameOutside(a: Items, b: Items, z: Path) {
    && (forall i | i in a && !Below(z, a[i].path) :: i in b && b[i] == a[i])
    && (forall i | i in b && !Below(z, b[i].path) :: i in a && a[i] == b[i])
  }

  lemma OutsideTrans(a: Items, b: Items, c: Items, z: Path, y: Path)
    requires SameOutside(a, b, z) && SameOutside(b, c, y) && Within(z, y)
    ensures SameOutside(a, c, z)
  {
    forall i | i in a && !Below(z, a[i].path) ensures i in c && c[i] == a[i] {
      if Below(y, b[i].path) {
        BelowTrans(z, y, b[i].path);
      }
    }
    forall i | i in c && !Below(z, c[i].path) ensures i in a && a[i] == c[i] {
      if Below(y, c[i].path) {
        BelowTrans(z, y, c[i].path);
      }
    }
  }

  /** Directories side by side do not share rows. */
  lemma SiblingSame(a: Items, b: Items, e: Path, z: Path, w: Path)
    requires SameOutside(a, b, z) && ChildOf(e, z) && ChildOf(e, w) && z != w
    ensures SubtreeSame(a, b, w) && RowSame(a, b, w)
  {
    forall p | Within(w, p) ensures !Below(z, p) {
      if Below(z, p) {
        WithinCases(z, p);
        SiblingsApart(e, z, w, p);
      }
    }
    forall p | Below(w, p) || p == w ensures Within(w, p) {
      WithinCases(w, p);
    }
  }

  lemma NamedSame(a: Items, b: Items, d: Files, z: Path, y: Path)
    requires SubtreeSame(a, b, z) && Within(z, y) && (Indexed(a, z) <==> Indexed(b, z))
    ensures Named(a, d, y) <==> Named(b, d, y)
    ensures HasBelow(a, y) <==> HasBelow(b, y)
    ensures Indexed(a, y) <==> Indexed(b, y)
    ensures y != z ==> (Stale(a, d, y) <==> Stale(b, d, y))
  {
    WithinCases(z, y);
    forall p | Below(y, p) ensures Below(z, p) {
      BelowTrans(z, y, p);
    }
    forall p | ChildOf(y, p) ensures Below(y, p) {
      ChildCases(y, p);
    }
  }

  /** A walk that enters z from above lists in it what a walk from z does, if it finds z itself alike. */
  lemma {:induction false} RelistsSame(a: Items, b: Items, d: Files, r: Path, z: Path, y: Path)
    requires SubtreeSame(a, b, z) && (Indexed(a, z) <==> Indexed(b, z)) && Within(r, z) && Within(z, y)
    requires Relists(a, d, r, z) <==> Stale(b, d, z)
    ensures Relists(a, d, r, y) <==> Relists(b, d, z, y)
    decreases |y|
  {
    if y != z {
      WithinCases(z, y);
      BelowWithinLeft(r, z, y);
      NamedSame(a, b, d, z, y);
      RelistsSame(a, b, d, r, z, Parent(y));
    }
  }

  lemma BelowWithinLeft(r: Path, z: Path, y: Path)
    requires Within(r, z) && Below(z, y)
    ensures Below(r, y)
  {
    BelowTrans(r, z, y);
  }

  lemma MissedSame(a: Items, b: Items, d: Files, r: Path, z: Path, y: Path)
    requires SubtreeSame(a, b, z) && (Indexed(a, z) <==> Indexed(b, z)) && Within(r, z) && Below(z, y)
    requires Relists(a, d, r, z) <==> Stale(b, d, z)
    ensures MissedIn(a, d, r, y) <==> MissedIn(b, d, z, y)
  {
    WithinCases(z, y);
    BelowWithinLeft(r, z, y);
    WithinCases(r, y);
    NamedSame(a, b, d, z, y);
    RelistsSame(a, b, d, r, z, y);
    RelistsSame(a, b, d, r, z, Parent(y));
  }

  lemma FrameMissed(a: Items, b: Items, d: Files, z: Path)
    requires SubtreeSame(a, b, z) && RowSame(a, b, z)
    ensures NoneMissedIn(a, d, z) <==> NoneMissedIn(b, d, z)
    ensures AllNamed(a, d, z) <==> AllNamed(b, d, z)
    ensures Indexed(a, z) <==> Indexed(b, z)
    ensures HasBelow(a, z) <==> HasBelow(b, z)
  {
    assert Within(z, z) && (Stale(a, d, z) <==> Stale(b, d, z));
    NamedSame(a, b, d, z, z);
    forall y | Within(z, y)
      ensures MissedIn(a, d, z, y) <==> MissedIn(b, d, z, y)
      ensures Named(a, d, y) <==> Named(b, d, y)
    {
      NamedSame(a, b, d, z, y);
      WithinCases(z, y);
      if y != z {
        MissedSame(a, b, d, z, z, y);
      }
    }
  }
}
