/** The tree on disk, as the scanner sees it, and how a catalogue compares with it. */
module Disk {
  import opened Paths
  import opened SqlLike
  import opened Catalogue
  import opened TreeInvariant
  import opened Reconciling

  datatype Stat = Stat(isDir: bool, size: int, mtime: int, ino: nat, dev: nat)

  /** Every visible file and directory below the data root. */
  type Files = map<Path, Stat>

  predicate IsDirectory(d: Files, p: Path) {
    p == [] || (p in d && d[p].isDir)
  }

  /** Entries sit in directories, and no inode has two names. */
  predicate DiskOk(d: Files) {
    && (forall p | p in d :: p != [] && IsPath(p) && IsDirectory(d, Parent(p)))
    && (forall p, q | p in d && q in d && d[p].ino != 0 && SameKey(d[p], d[q]) :: p == q)
  }

  predicate SameKey(s: Stat, t: Stat) {
    s.ino == t.ino && s.dev == t.dev && s.isDir == t.isDir
  }

  function ObservedAt(n: Name, s: Stat): Observed {
    Observed(n, s.isDir, s.size, s.mtime, s.ino, s.dev)
  }

  /** p is an entry of the directory x. */
  predicate ChildOf(x: Path, p: Path) {
    p != [] && Parent(p) == x
  }

  lemma ChildCases(x: Path, p: Path)
    ensures ChildOf(x, p) <==> Below(x, p) && |p| == |x| + 1
  {
    assert |p| == |x| + 1 ==> Parent(p) == p[..|x|];
  }

  /** What reading the directory yields: each entry once, in some order. */
  predicate Listing(d: Files, dir: Path, all: seq<Observed>) {
    && DistinctNames(all)
    && (forall o | o in all :: dir + [o.name] in d && o == ObservedAt(o.name, d[dir + [o.name]]))
    && (forall p | p in d && ChildOf(dir, p) :: Base(p) in Names(all))
  }

  lemma {:induction false} AncestorIsDir(d: Files, a: Path, p: Path)
    requires DiskOk(d) && p in d && Below(a, p)
    ensures IsDirectory(d, a)
    decreases |p|
  {
    WithinCases(a, p);
    WithinCases(a, Parent(p));
    if a != Parent(p) {
      AncestorIsDir(d, a, Parent(p));
    }
  }

  lemma WithinDirIsDir(d: Files, a: Path, e: Path)
    requires DiskOk(d) && IsDirectory(d, e) && Within(a, e)
    ensures IsDirectory(d, a)
  {
    WithinCases(a, e);
    if a != e {
      AncestorIsDir(d, a, e);
    }
  }

  // ---- a directory and its children -----------------------------------------------------------

  /** The row says what the disk says; `exact` includes size and time. */
  predicate Match(r: Row, s: Stat, exact: bool) {
    r.isDir == s.isDir && (exact ==> r.size == s.size && r.mtime == s.mtime)
  }

  /** The indexed directory x has the children it has on disk. */
  ghost predicate Done(items: Items, d: Files, x: Path, exact: bool) {
    && (x == [] || Indexed(items, x))
    && (forall i | i in items && ChildOf(x, items[i].path) :: items[i].path in d && Match(items[i], d[items[i].path], exact))
    && (forall p | p in d && ChildOf(x, p) :: Indexed(items, p))
  }

  /** The catalogue shows the disk. */
  ghost predicate Mirror(items: Items, d: Files, exact: bool) {
    && (forall i | i in items :: items[i].path in d && Match(items[i], d[items[i].path], exact))
    && (forall p | p in d :: Indexed(items, p))
  }

  predicate InodeOf(r: Row, s: Stat) {
    s.ino != 0 && r.ino == s.ino && r.dev == s.dev && r.isDir == s.isDir
  }

  // ---- where rows may get to -----------------------------------------------------------------

  /** The vanished row x may be taken for renamed to the new path q. */
  ghost predicate RenameOf(items: Items, d: Files, x: Id, q: Path) {
    && x in items && items[x].path !in d && q in d && InodeOf(items[x], d[q])
    && !Indexed(items, q) && |q| == |items[x].path|
  }

  /** The row i is at r, or a rename might take it there. */
  ghost predicate Places(items: Items, d: Files, i: Id, r: Path) {
    && i in items
    && (r == items[i].path
        || exists x, q :: RenameOf(items, d, x, q) && Within(items[x].path, items[i].path) && r == Rebase(items[i].path, items[x].path, q))
  }

  /** No sibling of p bears the inode recorded for the row i. */
  ghost predicate Fits(items: Items, i: Id, p: Path, d: Files)
    requires i in items && p in d
  {
    forall q | q in d && q != p && p != [] && ChildOf(Parent(p), q) :: !InodeOf(items[i], d[q])
  }

  /** If rows are below i, there is a directory at p. */
  ghost predicate KindFits(items: Items, i: Id, p: Path, d: Files)
    requires i in items && p in d
  {
    HasBelow(items, items[i].path) ==> d[p].isDir
  }

  /** No inode recorded for one name now belongs to a sibling while the name is still in use. */
  ghost predicate InodesFit(items: Items, d: Files) {
    forall i, r | Places(items, d, i, r) && r in d :: Fits(items, i, r, d)
  }

  /** No directory that a rename takes along was replaced by a file. */
  ghost predicate MovedKindsFit(items: Items, d: Files) {
    forall i, r | Places(items, d, i, r) && r in d && r != items[i].path :: KindFits(items, i, r, d)
  }

  /** A path that is gone selects no row that it is not above, ... */
  ghost predicate RowsApart(items: Items, d: Files) {
    forall y, i, r, r' | Places(items, d, y, r) && r !in d && Places(items, d, i, r') && Selects(r, r') ::
      Below(r, r') || Within(items[y].path, items[i].path)
  }

  /** ... and no file on disk, unless below a new name in the same directory. */
  ghost predicate DiskApart(items: Items, d: Files) {
    forall y, r, q | Places(items, d, y, r) && r !in d && q in d && Selects(r, q) && |r| <= |q| && r != [] && q != [] ::
      Parent(r) == Parent(q[..|r|]) && forall k :: !Places(items, d, k, q[..|r|])
  }

  /** What a scan needs of the catalogue it starts from. */
  ghost predicate Compatible(items: Items, d: Files) {
    InodesFit(items, d) && MovedKindsFit(items, d) && RowsApart(items, d) && DiskApart(items, d)
  }

  /** A file on disk whose row has rows below it. */
  ghost predicate Stuck(items: Items, d: Files, p: Path) {
    p in d && !d[p].isDir && Indexed(items, p) && HasBelow(items, p)
  }

  lemma EmptyIsCompatible(d: Files)
    ensures Tree(map[]) && Compatible(map[], d) && forall p :: !Stuck(map[], d, p)
  {
  }

  // ---- finished directories add up to a mirror ---------------------------------------------------

  lemma {:induction false} DiskIsIndexed(items: Items, d: Files, p: Path, exact: bool)
    requires DiskOk(d) && p in d
    requires forall x | IsDirectory(d, x) && Indexed(items, x) :: Done(items, d, x, exact)
    requires Done(items, d, [], exact)
    ensures Indexed(items, p)
    decreases |p|
  {
    if Parent(p) != [] {
      DiskIsIndexed(items, d, Parent(p), exact);
    }
    assert Done(items, d, Parent(p), exact);
  }

  lemma {:induction false} IndexIsOnDisk(items: Items, d: Files, i: Id, exact: bool)
    requires DiskOk(d) && Tree(items) && i in items && forall p :: !Stuck(items, d, p)
    requires forall x | IsDirectory(d, x) && Indexed(items, x) :: Done(items, d, x, exact)
    requires Done(items, d, [], exact)
    ensures items[i].path in d && Match(items[i], d[items[i].path], exact)
    decreases |items[i].path|
  {
    assert RowOk(items, i);
    var x := Parent(items[i].path);
    if x != [] {
      var up := items[i].parent;
      assert items[up].path == x;
      IndexIsOnDisk(items, d, up, exact);
      WithinCases(x, items[i].path);
      WithinCases(x, x);
      assert HasBelow(items, x);
      assert !Stuck(items, d, x);
    }
    assert Done(items, d, x, exact);
  }

  /** A file with rows below it is no mirror of anything. */
  lemma StuckIsNoMirror(items: Items, d: Files, p: Path, exact: bool)
    requires DiskOk(d) && Stuck(items, d, p)
    ensures !Mirror(items, d, exact)
  {
    var i :| i in items && Below(p, items[i].path);
    if items[i].path in d {
      AncestorIsDir(d, p, items[i].path);
    }
  }

  /** If every directory on disk has been dealt with, the catalogue is a mirror if and only if no
      rows are stuck below a file. */
  lemma AllDoneIsMirror(items: Items, d: Files, exact: bool)
    requires DiskOk(d) && Tree(items)
    requires forall x | IsDirectory(d, x) && Indexed(items, x) :: Done(items, d, x, exact)
    requires Done(items, d, [], exact)
    ensures Mirror(items, d, exact) <==> forall p :: !Stuck(items, d, p)
  {
    if p :| Stuck(items, d, p) {
      StuckIsNoMirror(items, d, p, exact);
    } else {
      forall i | i in items ensures items[i].path in d && Match(items[i], d[items[i].path], exact) {
        IndexIsOnDisk(items, d, i, exact);
      }
      forall p | p in d ensures Indexed(items, p) {
        DiskIsIndexed(items, d, p, exact);
      }
    }
  }
}
