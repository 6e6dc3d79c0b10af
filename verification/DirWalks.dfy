/** What re-listing one directory does to the rest of an incremental scan. */
module DirWalks {
  import opened Paths
  import opened Catalogue
  import opened TreeInvariant
  import opened Writes
  import opened Reconciling
  import opened Disk
  import opened Rescans
  import opened Scanning
  import opened DirScans

  /** From mid to b, the bare ones among the child directories zs of e were filled in. */
  ghost predicate FilledIn(mid: Items, b: Items, e: Path, zs: set<Path>, d: Files) {
    && DiskOk(d) && Tree(mid) && Tree(b)
    && Grown(mid, b, zs, d) && Siblings(e, zs) && KeepsDone(mid, b, d) && Done(mid, d, e, true)
    && (forall z | z in zs :: z in d && d[z].isDir)
    && (forall z | z in d && d[z].isDir && ChildOf(e, z) :: z in zs)
  }

  /** From a to b the directory e was re-listed. */
  ghost predicate Relisted(a: Cat, mid: Items, b: Items, e: Path, ids: map<Name, Id>, all: seq<Observed>, zs: set<Path>, d: Files) {
    Rescan(a, mid, e, ids, all, d) && FilledIn(mid, b, e, zs, d) && Wholesale(a.items, d)
  }

  lemma FillKeepsSubtree(mid: Items, b: Items, e: Path, zs: set<Path>, d: Files, x: Id, q: Path)
    requires FilledIn(mid, b, e, zs, d) && x in b && b[x].path !in d && x in mid && mid[x] == b[x]
    requires SameSubtree(mid, x, q, d)
    ensures SameSubtree(b, x, q, d)
  {
    assert RowOk(b, x);
    forall i | i in b && Below(b[x].path, b[i].path)
      ensures var p := Rebase(b[i].path, b[x].path, q); p in d && d[p].isDir == b[i].isDir
    {
      WithinCases(b[x].path, b[i].path);
      NothingWithinVanished(d, b[x].path, b[i].path);
      assert i in mid;
    }
  }

  lemma RelistKeepsWholesale(a: Cat, mid: Items, b: Items, e: Path, ids: map<Name, Id>, all: seq<Observed>, zs: set<Path>, d: Files)
    requires Relisted(a, mid, b, e, ids, all, zs, d)
    ensures Wholesale(b, d)
  {
    RescanKeepsWholesale(a, mid, e, ids, all, d);
    forall x, q | x in b && q in d && b[x].path != [] && b[x].path !in d && InodeOf(b[x], d[q]) && d[q].isDir
                  && ChildOf(Parent(b[x].path), q) && !Indexed(b, q)
      ensures SameSubtree(b, x, q, d)
    {
      assert x in mid && mid[x] == b[x];
      assert !Indexed(mid, q);
      FillKeepsSubtree(mid, b, e, zs, d, x, q);
    }
  }

  // ---- outside e nothing changes ------------------------------------------------------------------

  lemma ScannedRowOutside(a: Cat, mid: Items, e: Path, ids: map<Name, Id>, all: seq<Observed>, d: Files, i: Id)
    requires Rescan(a, mid, e, ids, all, d)
    ensures i in mid && !Below(e, mid[i].path) ==> i in a.items && a.items[i] == mid[i]
    ensures i in a.items && !Below(e, a.items[i].path) ==> i in mid && mid[i] == a.items[i]
  {
    if i in mid && !Below(e, mid[i].path) {
      ChildCases(e, mid[i].path);
      FreshIsChild(a, mid, e, ids, all, d, i);
      Traced(a, mid, e, ids, all, d, i);
    }
  }

  lemma FilledOutside(mid: Items, b: Items, e: Path, zs: set<Path>, d: Files, i: Id)
    requires FilledIn(mid, b, e, zs, d) && i in b
    ensures (i in mid && mid[i] == b[i]) || (Below(e, b[i].path) && |b[i].path| > |e| + 1)
  {
    if i !in mid {
      var z :| z in zs && !HasBelow(mid, z) && Below(z, b[i].path);
      ChildCases(e, z);
      WithinCases(e, z);
      BelowTrans(e, z, b[i].path);
    }
  }

  lemma RelistOutside(a: Cat, mid: Items, b: Items, e: Path, ids: map<Name, Id>, all: seq<Observed>, zs: set<Path>, d: Files)
    requires Relisted(a, mid, b, e, ids, all, zs, d)
    ensures SameOutside(a.items, b, e)
  {
    forall i | i in a.items && !Below(e, a.items[i].path) ensures i in b && b[i] == a.items[i] {
      ScannedRowOutside(a, mid, e, ids, all, d, i);
    }
    forall i | i in b && !Below(e, b[i].path) ensures i in a.items && a.items[i] == b[i] {
      FilledOutside(mid, b, e, zs, d, i);
      ScannedRowOutside(a, mid, e, ids, all, d, i);
    }
  }

  // ---- the child directories of e -------------------------------------------------------------------

  /** A child directory of e that was not indexed but has rows below it now was renamed, and
      everything in it is known. */
  lemma RenamedAllNamed(a: Cat, mid: Items, e: Path, ids: map<Name, Id>, all: seq<Observed>, d: Files, z: Path, x: Path)
    requires Rescan(a, mid, e, ids, all, d) && Wholesale(a.items, d)
    requires z in d && d[z].isDir && ChildOf(e, z) && !Indexed(a.items, z) && Indexed(mid, z) && HasBelow(mid, z)
    requires x in d && d[x].isDir && Within(z, x)
    ensures Named(mid, d, x)
  {
    var i :| i in mid && mid[i].path == z;
    var c :| c in mid && Below(z, mid[c].path);
    ChildCases(e, z);
    WithinCases(z, e);
    ParentIsOld(a, mid, e, ids, all, d, i, c);
    var m, n, y := MovedRow(a, mid, e, ids, all, d, i);
    assert z == e + [n] by { ChildIsTop(e, z); }
    RenamedHas(a, mid, e, ids, all, d, i, c, m, n, y);
    WithinCases(z, x);
    if x != z {
      RenamedIndexed(a, mid, e, ids, all, d, m, n, y, x);
      BelowUnder(e, n, x);
    }
    RenamedBoth(a, mid, e, ids, all, d, x, m, n, y);
  }

  lemma ChildIsTop(e: Path, z: Path)
    requires ChildOf(e, z)
    ensures Below(e, z) && z == e + [Top(e, z)]
  {
    ChildCases(e, z);
  }

  /** A bare child directory, and everything in it, is known after the filling in. */
  lemma BareIsNamed(mid: Items, b: Items, e: Path, zs: set<Path>, d: Files, z: Path)
    requires FilledIn(mid, b, e, zs, d) && z in d && d[z].isDir && ChildOf(e, z) && !HasBelow(mid, z)
    ensures AllNamed(b, d, z)
  {
    assert AllDone(b, d, z);
    forall y | IsDirectory(d, y) && Within(z, y) ensures Named(b, d, y) {
      assert Done(b, d, y, true);
    }
  }

  lemma KeepsNamed(a: Items, b: Items, d: Files, z: Path, x: Path)
    requires AllNamed(a, d, z) && KeepsDone(a, b, d) && IsDirectory(d, x) && Within(z, x)
    ensures Named(b, d, x)
  {
    assert Named(a, d, x);
  }

  lemma KeepsAllNamed(a: Items, b: Items, d: Files, z: Path)
    requires AllNamed(a, d, z) && KeepsDone(a, b, d)
    ensures AllNamed(b, d, z)
  {
    forall x | IsDirectory(d, x) && Within(z, x) ensures Named(b, d, x) {
      KeepsNamed(a, b, d, z, x);
    }
  }

  /** A child directory that was not indexed, or had nothing below it, is known with all its contents. */
  lemma NewOrBareNamed(a: Cat, mid: Items, b: Items, e: Path, ids: map<Name, Id>, all: seq<Observed>, zs: set<Path>, d: Files, z: Path)
    requires Relisted(a, mid, b, e, ids, all, zs, d) && z in d && d[z].isDir && ChildOf(e, z)
    requires !Indexed(a.items, z) || !HasBelow(a.items, z)
    ensures AllNamed(b, d, z)
  {
    if !HasBelow(mid, z) {
      BareIsNamed(mid, b, e, zs, d, z);
    } else if Indexed(a.items, z) {
      WithinCases(z, e);
      ChildCases(e, z);
      NothingNewBelow(a, mid, e, ids, all, d, z);
    } else {
      assert Indexed(mid, z);
      forall x | IsDirectory(d, x) && Within(z, x) ensures Named(b, d, x) {
        RenamedAllNamed(a, mid, e, ids, all, d, z, x);
        assert Named(mid, d, x);
      }
    }
  }

  lemma DeepRowStays(a: Cat, mid: Items, e: Path, ids: map<Name, Id>, all: seq<Observed>, d: Files, z: Path, i: Id)
    requires Rescan(a, mid, e, ids, all, d) && z in d && ChildOf(e, z) && Indexed(a.items, z)
    ensures i in a.items && Below(z, a.items[i].path) ==> i in mid && mid[i] == a.items[i]
    ensures i in mid && Below(z, mid[i].path) ==> i in a.items && a.items[i] == mid[i]
  {
    ChildIsTop(e, z);
    if i in a.items && Below(z, a.items[i].path) {
      DeepUnder(e, z, a.items[i].path);
      RowStays(a, mid, e, ids, all, d, i);
    }
    if i in mid && Below(z, mid[i].path) {
      DeepUnder(e, z, mid[i].path);
      RowStayed(a, mid, e, ids, all, d, i);
    }
  }

  lemma DeepUnder(e: Path, z: Path, p: Path)
    requires ChildOf(e, z) && Below(z, p)
    ensures Below(e, p) && e + [Top(e, p)] == z && !ChildOf(e, p)
  {
    ChildIsTop(e, z);
    BelowUnder(e, Top(e, z), p);
    ChildCases(e, p);
  }

  /** Below a child directory that has rows below it nothing changes; only its own time is refreshed. */
  lemma FullSubtreeSame(a: Cat, mid: Items, b: Items, e: Path, ids: map<Name, Id>, all: seq<Observed>, zs: set<Path>, d: Files, z: Path)
    requires Relisted(a, mid, b, e, ids, all, zs, d) && z in d && d[z].isDir && ChildOf(e, z)
    requires Indexed(a.items, z) && HasBelow(a.items, z)
    ensures SubtreeSame(a.items, b, z) && Indexed(b, z) && !Stale(b, d, z)
  {
    var c :| c in a.items && Below(z, a.items[c].path);
    DeepRowStays(a, mid, e, ids, all, d, z, c);
    assert HasBelow(mid, z);
    forall i | i in a.items && Below(z, a.items[i].path) ensures i in b && b[i] == a.items[i] {
      DeepRowStays(a, mid, e, ids, all, d, z, i);
    }
    forall i | i in b && Below(z, b[i].path) ensures i in a.items && a.items[i] == b[i] {
      NotFilledBelow(mid, b, e, zs, d, z, i);
      DeepRowStays(a, mid, e, ids, all, d, z, i);
    }
    assert Indexed(mid, z);
    Refreshed(a, mid, b, e, ids, all, zs, d, z);
  }

  lemma NotFilledBelow(mid: Items, b: Items, e: Path, zs: set<Path>, d: Files, z: Path, i: Id)
    requires FilledIn(mid, b, e, zs, d) && ChildOf(e, z) && HasBelow(mid, z) && i in b && Below(z, b[i].path)
    ensures i in mid && mid[i] == b[i]
  {
    if i !in mid {
      var w :| w in zs && !HasBelow(mid, w) && Below(w, b[i].path);
      WithinCases(z, b[i].path);
      WithinCases(w, b[i].path);
      SiblingsApart(e, z, w, b[i].path);
    }
  }

  lemma Refreshed(a: Cat, mid: Items, b: Items, e: Path, ids: map<Name, Id>, all: seq<Observed>, zs: set<Path>, d: Files, z: Path)
    requires Relisted(a, mid, b, e, ids, all, zs, d) && z in d && ChildOf(e, z)
    ensures !Stale(b, d, z)
  {
    forall i | i in b && b[i].path == z ensures b[i].mtime == d[z].mtime {
      ChildCases(e, z);
      FilledOutside(mid, b, e, zs, d, i);
      ChildAfter(a, mid, e, ids, all, d, i);
    }
  }

  // ---- what is missed in e, in terms of its child directories ---------------------------------------

  /** Whether the child directories of e are such that walking them finds all that is in e. */
  ghost predicate ChildrenFound(b: Items, d: Files, e: Path) {
    Named(b, d, e) && forall z | z in d && d[z].isDir && ChildOf(e, z) && Indexed(b, z) :: NoneMissedIn(b, d, z)
  }

  lemma NamedMissesNothing(b: Items, d: Files, z: Path)
    requires AllNamed(b, d, z)
    ensures NoneMissedIn(b, d, z)
  {
    forall y ensures !MissedIn(b, d, z, y) {
      if Within(z, y) && y in d && d[y].isDir {
        assert Named(b, d, y);
      }
    }
  }

  /** The rows in a child directory, before and after the re-listing of its parent. */
  ghost predicate OnlyRefreshed(a: Items, b: Items, d: Files, z: Path) {
    SubtreeSame(a, b, z) && Indexed(a, z) && Indexed(b, z) && HasBelow(a, z) && !Stale(b, d, z)
  }

  lemma MissedAtChild(a: Items, b: Items, d: Files, e: Path, z: Path)
    requires OnlyRefreshed(a, b, d, z) && Stale(a, d, e) && ChildOf(e, z)
    ensures MissedIn(a, d, e, z) <==> MissedIn(b, d, z, z)
  {
    ChildCases(e, z);
    WithinCases(e, z);
    NamedSame(a, b, d, z, z);
    assert Relists(a, d, e, e) && !Relists(a, d, e, z);
    assert Within(e, z) && Within(z, z);
  }

  lemma MissedInChild(a: Items, b: Items, d: Files, e: Path, z: Path, y: Path)
    requires OnlyRefreshed(a, b, d, z) && Stale(a, d, e) && ChildOf(e, z) && Within(z, y)
    ensures MissedIn(a, d, e, y) <==> MissedIn(b, d, z, y)
  {
    WithinCases(z, y);
    if y == z {
      MissedAtChild(a, b, d, e, z);
    } else {
      ChildCases(e, z);
      WithinCases(e, z);
      assert Relists(a, d, e, e) && !Relists(a, d, e, z);
      MissedSame(a, b, d, e, z, y);
    }
  }

  /** After e has been re-listed, what is missed in e is what is missed in its child directories. */
  lemma RelistExact(a: Cat, mid: Items, b: Items, e: Path, ids: map<Name, Id>, all: seq<Observed>, zs: set<Path>, d: Files)
    requires Relisted(a, mid, b, e, ids, all, zs, d) && Stale(a.items, d, e) && Indexed(a.items, e)
    ensures NoneMissedIn(a.items, d, e) <==> ChildrenFound(b, d, e)
  {
    RelistedNamed(mid, b, e, zs, d);
    forall z | z in d && d[z].isDir && ChildOf(e, z)
      ensures NoneMissedIn(b, d, z) || OnlyRefreshed(a.items, b, d, z)
      ensures Indexed(a.items, z) && HasBelow(a.items, z) ==> OnlyRefreshed(a.items, b, d, z)
    {
      RelistedChild(a, mid, b, e, ids, all, zs, d, z);
    }
    MissedInChildren(a.items, b, d, e);
  }

  lemma RelistedNamed(mid: Items, b: Items, e: Path, zs: set<Path>, d: Files)
    requires FilledIn(mid, b, e, zs, d) && IsDirectory(d, e)
    ensures Named(b, d, e)
  {
    assert Done(b, d, e, true);
  }

  /** A child directory of e has become known, or has only had its own time refreshed. */
  lemma RelistedChild(a: Cat, mid: Items, b: Items, e: Path, ids: map<Name, Id>, all: seq<Observed>, zs: set<Path>, d: Files, z: Path)
    requires Relisted(a, mid, b, e, ids, all, zs, d) && z in d && d[z].isDir && ChildOf(e, z)
    ensures NoneMissedIn(b, d, z) || OnlyRefreshed(a.items, b, d, z)
    ensures Indexed(a.items, z) && HasBelow(a.items, z) ==> OnlyRefreshed(a.items, b, d, z)
  {
    if !Indexed(a.items, z) || !HasBelow(a.items, z) {
      NewOrBareNamed(a, mid, b, e, ids, all, zs, d, z);
      NamedMissesNothing(b, d, z);
    } else {
      FullSubtreeSame(a, mid, b, e, ids, all, zs, d, z);
    }
  }

  lemma MissedInChildren(a: Items, b: Items, d: Files, e: Path)
    requires DiskOk(d) && Tree(a) && Stale(a, d, e) && Named(b, d, e)
    requires forall z | z in d && d[z].isDir && ChildOf(e, z) :: NoneMissedIn(b, d, z) || OnlyRefreshed(a, b, d, z)
    requires forall z | z in d && d[z].isDir && ChildOf(e, z) && Indexed(a, z) && HasBelow(a, z) :: OnlyRefreshed(a, b, d, z)
    ensures NoneMissedIn(a, d, e) <==> ChildrenFound(b, d, e)
  {
    if !NoneMissedIn(a, d, e) {
      var y :| MissedIn(a, d, e, y);
      var z := MissedUnder(a, d, e, y);
      MissedInChild(a, b, d, e, z, y);
    }
    forall z, y | z in d && d[z].isDir && ChildOf(e, z) && OnlyRefreshed(a, b, d, z) && MissedIn(b, d, z, y)
      ensures MissedIn(a, d, e, y)
    {
      MissedInChild(a, b, d, e, z, y);
    }
  }

  /** The child directory in which something is missed has rows below it. */
  lemma MissedUnder(items: Items, d: Files, e: Path, y: Path) returns (z: Path)
    requires DiskOk(d) && Tree(items) && Stale(items, d, e) && MissedIn(items, d, e, y)
    ensures z in d && d[z].isDir && ChildOf(e, z) && Within(z, y) && Indexed(items, z) && HasBelow(items, z)
  {
    WithinCases(e, y);
    assert Relists(items, d, e, e);
    z := SubdirAbove(d, e, y);
    assert y[..|z|] == z;
    AncestorIndexed(items, y, |z|);
    WithinCases(z, y);
    if z == y {
      assert Parent(y) == e;
    } else {
      var i :| i in items && items[i].path == y;
      assert Below(z, items[i].path);
    }
  }

  /** If e is not re-listed, what is missed in e is e itself, or what is missed in its child directories. */
  lemma PassedExact(a: Items, d: Files, e: Path)
    requires DiskOk(d) && Tree(a) && e in d && d[e].isDir && Indexed(a, e) && !Stale(a, d, e)
    ensures NoneMissedIn(a, d, e) <==> ChildrenFound(a, d, e)
  {
    assert Within(e, e) && !Relists(a, d, e, e);
    assert MissedIn(a, d, e, e) <==> !Named(a, d, e);
    forall z, y | z in d && d[z].isDir && ChildOf(e, z) && Indexed(a, z) && Within(z, y)
      ensures MissedIn(a, d, e, y) <==> MissedIn(a, d, z, y)
    {
      PassedChild(a, d, e, z, y);
    }
    forall y | MissedIn(a, d, e, y) && y != e
      ensures exists z :: z in d && d[z].isDir && ChildOf(e, z) && Indexed(a, z) && Within(z, y)
    {
      WithinCases(e, y);
      var z := SubdirAbove(d, e, y);
      assert y[..|z|] == z;
      AncestorIndexed(a, y, |z|);
    }
  }

  lemma PassedChild(a: Items, d: Files, e: Path, z: Path, y: Path)
    requires ChildOf(e, z) && Within(z, y) && !Stale(a, d, e)
    ensures MissedIn(a, d, e, y) <==> MissedIn(a, d, z, y)
  {
    ChildCases(e, z);
    WithinCases(e, z);
    WithinCases(z, y);
    assert !Relists(a, d, e, e);
    if y == z {
      assert Within(e, z);
    } else {
      MissedSame(a, a, d, e, z, y);
    }
  }

  /** All directories in e are known if e and all in its child directories are. */
  lemma AllNamedSplit(items: Items, d: Files, e: Path)
    requires DiskOk(d) && IsDirectory(d, e)
    ensures AllNamed(items, d, e) <==> Named(items, d, e) && forall z | z in d && d[z].isDir && ChildOf(e, z) :: AllNamed(items, d, z)
  {
    if Named(items, d, e) && forall z | z in d && d[z].isDir && ChildOf(e, z) :: AllNamed(items, d, z) {
      forall y | IsDirectory(d, y) && Within(e, y) ensures Named(items, d, y) {
        WithinCases(e, y);
        if y != e {
          var z := SubdirAbove(d, e, y);
          assert AllNamed(items, d, z);
        }
      }
    }
    if AllNamed(items, d, e) {
      assert Within(e, e);
      forall z, y | ChildOf(e, z) && IsDirectory(d, y) && Within(z, y) ensures Named(items, d, y) {
        ChildCases(e, z);
        WithinCases(e, z);
        WithinTrans(e, z, y);
      }
    }
  }

  // ---- the root, last ------------------------------------------------------------------------------

  /** Re-listing the root makes known the shares that were not indexed or had nothing below them, and
      leaves the contents of the others alone. */
  lemma RootExact(a: Cat, mid: Items, b: Items, ids: map<Name, Id>, all: seq<Observed>, zs: set<Path>, d: Files, z: Path)
    requires Relisted(a, mid, b, [], ids, all, zs, d) && z in d && d[z].isDir && ChildOf([], z)
    ensures AllNamed(b, d, z) <==> !Indexed(a.items, z) || !HasBelow(a.items, z) || AllNamed(a.items, d, z)
  {
    if !Indexed(a.items, z) || !HasBelow(a.items, z) {
      NewOrBareNamed(a, mid, b, [], ids, all, zs, d, z);
    } else {
      FullSubtreeSame(a, mid, b, [], ids, all, zs, d, z);
      forall y | Within(z, y) ensures Named(a.items, d, y) <==> Named(b, d, y) {
        NamedSame(a.items, b, d, z, y);
      }
    }
  }

  // ---- walking the child directories one by one ----------------------------------------------------

  /** The rows no more than one level below rel are the same. */
  ghost predicate ShallowSame(a: Items, b: Items, rel: Path) {
    && (forall i | i in a && !(Below(rel, a[i].path) && |a[i].path| > |rel| + 1) :: i in b && b[i] == a[i])
    && (forall i | i in b && !(Below(rel, b[i].path) && |b[i].path| > |rel| + 1) :: i in a && a[i] == b[i])
  }

  /** What the walk of an indexed directory z makes of the catalogue. */
  ghost predicate WalkedAt(a: Items, b: Items, d: Files, z: Path) {
    && (AllNamed(b, d, z) <==> NoneMissedIn(a, d, z))
    && (AllNamed(b, d, z) || (HasBelow(b, z) <==> HasBelow(a, z)))
  }

  /** Of the child directories of rel those in `walked` have been walked, the others are as they were. */
  ghost predicate Walked(was: Items, cur: Items, d: Files, rel: Path, walked: set<Path>) {
    && ShallowSame(was, cur, rel)
    && (forall z | ChildOf(rel, z) && z !in walked :: SubtreeSame(was, cur, z))
    && (forall z | z in walked && ChildOf(rel, z) && z in d && d[z].isDir && Indexed(was, z) :: WalkedAt(was, cur, d, z))
  }

  lemma WalkedStarts(was: Items, d: Files, rel: Path)
    ensures Walked(was, was, d, rel, {})
  {
  }

  lemma ShallowRow(a: Items, b: Items, rel: Path, z: Path)
    requires ShallowSame(a, b, rel) && ChildOf(rel, z)
    ensures RowSame(a, b, z)
  {
    ChildCases(rel, z);
  }

  lemma ShallowNext(was: Items, cur: Items, next: Items, rel: Path, z: Path)
    requires ShallowSame(was, cur, rel) && ChildOf(rel, z) && SameOutside(cur, next, z)
    ensures ShallowSame(was, next, rel)
  {
    ChildCases(rel, z);
    forall p | Below(z, p) ensures Below(rel, p) && |p| > |rel| + 1 {
      BelowTrans(rel, z, p);
      WithinCases(rel, z);
    }
  }

  lemma SubtreeTrans(a: Items, b: Items, c: Items, z: Path)
    requires SubtreeSame(a, b, z) && SubtreeSame(b, c, z)
    ensures SubtreeSame(a, c, z)
  {
  }

  lemma WalkedStays(was: Items, cur: Items, next: Items, d: Files, z: Path)
    requires WalkedAt(was, cur, d, z) && SubtreeSame(cur, next, z) && RowSame(cur, next, z)
    ensures WalkedAt(was, next, d, z)
  {
    FrameMissed(cur, next, d, z);
  }

  lemma WalkedNow(was: Items, cur: Items, next: Items, d: Files, z: Path)
    requires WalkedAt(cur, next, d, z) && SubtreeSame(was, cur, z) && RowSame(was, cur, z)
    ensures WalkedAt(was, next, d, z)
  {
    FrameMissed(was, cur, d, z);
  }

  lemma WalkedNext(was: Items, cur: Items, next: Items, d: Files, rel: Path, walked: set<Path>, z: Path)
    requires Walked(was, cur, d, rel, walked) && ChildOf(rel, z) && z !in walked && SameOutside(cur, next, z)
    requires z in d && d[z].isDir && Indexed(cur, z) ==> WalkedAt(cur, next, d, z)
    ensures Walked(was, next, d, rel, walked + {z})
  {
    ShallowNext(was, cur, next, rel, z);
    ShallowRow(was, cur, rel, z);
    forall w | ChildOf(rel, w) && w !in walked + {z} ensures SubtreeSame(was, next, w) {
      SiblingSame(cur, next, rel, z, w);
      SubtreeTrans(was, cur, next, w);
    }
    forall w | w in walked + {z} && ChildOf(rel, w) && w in d && d[w].isDir && Indexed(was, w) ensures WalkedAt(was, next, d, w) {
      if w == z {
        FrameMissed(was, cur, d, z);
        WalkedNow(was, cur, next, d, z);
      } else {
        SiblingSame(cur, next, rel, z, w);
        WalkedStays(was, cur, next, d, w);
      }
    }
  }

  lemma ShallowHasBelow(a: Items, b: Items, rel: Path)
    requires Tree(a) && Tree(b) && ShallowSame(a, b, rel)
    ensures HasBelow(a, rel) <==> HasBelow(b, rel)
  {
    if i :| i in a && Below(rel, a[i].path) {
      var j := TopChild(a, rel, i);
      BelowChild(rel, Top(rel, a[i].path));
      assert Below(rel, b[j].path);
    }
    if i :| i in b && Below(rel, b[i].path) {
      var j := TopChild(b, rel, i);
      BelowChild(rel, Top(rel, b[i].path));
      assert Below(rel, a[j].path);
    }
  }

  lemma ShallowNamed(a: Items, b: Items, d: Files, rel: Path)
    requires ShallowSame(a, b, rel)
    ensures Named(a, d, rel) <==> Named(b, d, rel)
    ensures Indexed(a, rel) <==> Indexed(b, rel)
  {
    forall p | ChildOf(rel, p) ensures Below(rel, p) && |p| == |rel| + 1 {
      ChildCases(rel, p);
    }
  }

  /** Once all child directories have been walked. */
  lemma WalkedEnds(was: Items, cur: Items, d: Files, rel: Path, walked: set<Path>)
    requires DiskOk(d) && Tree(was) && Tree(cur) && IsDirectory(d, rel) && Walked(was, cur, d, rel, walked)
    requires forall i | i in was && ChildOf(rel, was[i].path) && was[i].isDir :: was[i].path in walked
    ensures AllNamed(cur, d, rel) <==> ChildrenFound(was, d, rel)
    ensures HasBelow(cur, rel) <==> HasBelow(was, rel)
  {
    ShallowHasBelow(was, cur, rel);
    ShallowNamed(was, cur, d, rel);
    AllNamedSplit(cur, d, rel);
    if Named(was, d, rel) {
      forall z | z in d && d[z].isDir && ChildOf(rel, z) ensures Indexed(was, z) && WalkedAt(was, cur, d, z) {
        var i :| i in was && was[i].path == z;
        assert z in walked;
      }
    }
  }

  lemma WalkedOutside(was: Items, cur: Items, d: Files, rel: Path, walked: set<Path>)
    requires Walked(was, cur, d, rel, walked)
    ensures SameOutside(was, cur, rel)
  {
  }

  // ---- the whole scan -----------------------------------------------------------------------------------

  /** The mirror by path and kind: all directories known, and nothing stuck below a file. */
  lemma MirrorIff(items: Items, d: Files)
    requires DiskOk(d) && Tree(items)
    ensures Mirror(items, d, false) <==> AllNamed(items, d, []) && forall p :: !Stuck(items, d, p)
  {
    assert forall x: Path :: Within([], x);
    if Mirror(items, d, false) {
      forall x | IsDirectory(d, x) ensures Named(items, d, x) {
        assert x != [] ==> Indexed(items, x);
      }
      forall p ensures !Stuck(items, d, p) {
        if Stuck(items, d, p) {
          StuckIsNoMirror(items, d, p, false);
        }
      }
    }
    if AllNamed(items, d, []) && forall p :: !Stuck(items, d, p) {
      assert Named(items, d, []);
      forall x | IsDirectory(d, x) && Indexed(items, x) ensures Done(items, d, x, false) {
        assert Named(items, d, x);
      }
      AllDoneIsMirror(items, d, false);
    }
  }

  lemma TopHasRow(items: Items, z: Path)
    requires Tree(items) && |z| == 1 && HasBelow(items, z)
    ensures Indexed(items, z)
  {
    var i :| i in items && Below(z, items[i].path);
    AncestorIndexed(items, items[i].path, 1);
  }

  /** What is missed at the top, share by share. */
  lemma MissedByShare(items: Items, d: Files)
    requires DiskOk(d)
    ensures (forall y :: !Missed(items, d, y))
            <==> forall z | z in d && d[z].isDir && ChildOf([], z) && HasBelow(items, z) :: NoneMissedIn(items, d, z)
  {
    forall z, y | ChildOf([], z) && HasBelow(items, z) && MissedIn(items, d, z, y) ensures Missed(items, d, y) {
      assert |z| == 1 && y[..1] == z && [y[0]] == z;
    }
    forall y | Missed(items, d, y)
      ensures exists z :: z in d && d[z].isDir && ChildOf([], z) && HasBelow(items, z) && MissedIn(items, d, z, y)
    {
      var z := [y[0]];
      ChildCases([], z);
      WithinCases(z, y);
      WithinDirIsDir(d, z, y);
    }
  }

  /** After the walks of the shares and the re-listing of the root. */
  lemma ScanIsExact(start: Items, c: Cat, mid: Items, f: Items, ids: map<Name, Id>, all: seq<Observed>, zs: set<Path>, d: Files, walked: set<Path>)
    requires Tree(start) && Walked(start, c.items, d, [], walked) && Relisted(c, mid, f, [], ids, all, zs, d) && Named(f, d, [])
    requires forall z | z in d && d[z].isDir && ChildOf([], z) :: z in walked
    requires forall p :: Stuck(start, d, p) <==> Stuck(f, d, p)
    ensures Mirror(f, d, false) <==> (forall y :: !Missed(start, d, y)) && (forall p :: !Stuck(start, d, p))
  {
    forall z | z in d && d[z].isDir && ChildOf([], z)
      ensures AllNamed(f, d, z) <==> (HasBelow(start, z) ==> NoneMissedIn(start, d, z))
    {
      ShareIsExact(start, c, mid, f, ids, all, zs, d, walked, z);
    }
    MirrorIff(f, d);
    AllNamedSplit(f, d, []);
    MissedByShare(start, d);
  }

  lemma ShareIsExact(start: Items, c: Cat, mid: Items, f: Items, ids: map<Name, Id>, all: seq<Observed>, zs: set<Path>, d: Files, walked: set<Path>, z: Path)
    requires Tree(start) && Walked(start, c.items, d, [], walked) && Relisted(c, mid, f, [], ids, all, zs, d)
    requires z in d && d[z].isDir && ChildOf([], z) && z in walked
    ensures AllNamed(f, d, z) <==> (HasBelow(start, z) ==> NoneMissedIn(start, d, z))
  {
    ChildCases([], z);
    RootExact(c, mid, f, ids, all, zs, d, z);
    ShallowRow(start, c.items, [], z);
    assert Indexed(start, z) <==> Indexed(c.items, z);
    if HasBelow(start, z) {
      TopHasRow(start, z);
    }
  }
}
