/** What scanning one directory does, children that were still unexplored included. */
module Scanning {
  import opened Paths
  import opened Catalogue
  import opened TreeInvariant
  import opened Writes
  import opened Reconciling
  import opened Disk
  import opened Rescans

  /** Every directory within z is finished, sizes and times included. */
  ghost predicate AllDone(items: Items, d: Files, z: Path) {
    forall y | IsDirectory(d, y) && Within(z, y) :: Done(items, d, y, true)
  }

  /** Finished directories are still finished, and the rows stuck below files still are. */
  ghost predicate KeepsDone(a: Items, b: Items, d: Files) {
    && (forall x, exact | IsDirectory(d, x) && Done(a, d, x, exact) :: Done(b, d, x, exact))
    && (forall p :: Stuck(a, d, p) <==> Stuck(b, d, p))
  }

  lemma KeepsDoneTrans(a: Items, b: Items, c: Items, d: Files)
    requires KeepsDone(a, b, d) && KeepsDone(b, c, d)
    ensures KeepsDone(a, c, d)
  {
  }

  lemma KeepsAllDone(a: Items, b: Items, d: Files, z: Path)
    requires KeepsDone(a, b, d) && AllDone(a, d, z)
    ensures AllDone(b, d, z)
  {
  }

  lemma RescanKeepsAllDone(a: Cat, b: Items, e: Path, ids: map<Name, Id>, all: seq<Observed>, d: Files)
    requires Rescan(a, b, e, ids, all, d)
    ensures KeepsDone(a.items, b, d) && Done(b, d, e, true)
  {
    RescanFinishes(a, b, e, ids, all, d);
    forall x, exact | IsDirectory(d, x) && Done(a.items, d, x, exact) ensures Done(b, d, x, exact) {
      if x != e {
        RescanKeepsDone(a, b, e, ids, all, d, x, exact);
      }
    }
    forall p ensures Stuck(a.items, d, p) <==> Stuck(b, d, p) {
      RescanKeepsStuck(a, b, e, ids, all, d, p);
    }
  }

  /** Rows were only added, all of them below x and on disk. */
  ghost predicate AddsBelow(a: Items, b: Items, x: Path, d: Files) {
    && (forall i | i in a :: i in b && b[i] == a[i])
    && (forall i | i in b && i !in a :: Below(x, b[i].path) && b[i].path in d)
  }

  /** The whole subtree of x was filled in. */
  ghost predicate Filled(a: Items, b: Items, x: Path, d: Files) {
    AddsBelow(a, b, x, d) && AllDone(b, d, x)
  }

  /** Of the child directories in `zs` those with nothing below them were filled in. */
  ghost predicate Grown(mid: Items, cur: Items, zs: set<Path>, d: Files) {
    && (forall i | i in mid :: i in cur && cur[i] == mid[i])
    && (forall i | i in cur && i !in mid ::
          cur[i].path in d && exists z :: z in zs && !HasBelow(mid, z) && Below(z, cur[i].path))
    && (forall z | z in zs && !HasBelow(mid, z) :: AllDone(cur, d, z))
  }

  predicate Siblings(dir: Path, zs: set<Path>) {
    forall z | z in zs :: ChildOf(dir, z)
  }

  lemma SiblingsApart(dir: Path, z: Path, z': Path, p: Path)
    requires ChildOf(dir, z) && ChildOf(dir, z') && Within(z, p) && Within(z', p)
    ensures z == z'
  {
    assert |z| == |z'|;
  }

  lemma GrownHasBelow(mid: Items, cur: Items, zs: set<Path>, d: Files, dir: Path, z: Path)
    requires Grown(mid, cur, zs, d) && Siblings(dir, zs) && ChildOf(dir, z) && z !in zs
    ensures HasBelow(cur, z) <==> HasBelow(mid, z)
  {
    forall i | i in cur && Below(z, cur[i].path) ensures i in mid {
      WithinCases(z, cur[i].path);
      if i !in mid {
        var z' :| z' in zs && !HasBelow(mid, z') && Below(z', cur[i].path);
        WithinCases(z', cur[i].path);
        SiblingsApart(dir, z, z', cur[i].path);
      }
    }
    assert forall i | i in mid && Below(z, mid[i].path) :: i in cur && cur[i] == mid[i];
  }

  lemma GrownSkip(mid: Items, cur: Items, zs: set<Path>, d: Files, dir: Path, z: Path)
    requires Grown(mid, cur, zs, d) && Siblings(dir, zs) && ChildOf(dir, z) && z !in zs && HasBelow(cur, z)
    ensures Grown(mid, cur, zs + {z}, d) && Siblings(dir, zs + {z})
  {
    GrownHasBelow(mid, cur, zs, d, dir, z);
    forall i | i in cur && i !in mid ensures exists z' :: z' in zs + {z} && !HasBelow(mid, z') && Below(z', cur[i].path) {
      var z' :| z' in zs && !HasBelow(mid, z') && Below(z', cur[i].path);
      assert z' in zs + {z};
    }
  }

  lemma GrownFill(mid: Items, cur: Items, next: Items, zs: set<Path>, d: Files, dir: Path, z: Path)
    requires Grown(mid, cur, zs, d) && Siblings(dir, zs) && ChildOf(dir, z) && z !in zs && !HasBelow(cur, z)
    requires Filled(cur, next, z, d) && KeepsDone(cur, next, d)
    ensures Grown(mid, next, zs + {z}, d) && Siblings(dir, zs + {z})
  {
    GrownHasBelow(mid, cur, zs, d, dir, z);
    forall i | i in next && i !in mid ensures exists z' :: z' in zs + {z} && !HasBelow(mid, z') && Below(z', next[i].path) {
      if i in cur {
        var z' :| z' in zs && !HasBelow(mid, z') && Below(z', cur[i].path);
        assert z' in zs + {z};
      } else {
        assert z in zs + {z};
      }
    }
    forall z' | z' in zs + {z} && !HasBelow(mid, z') ensures AllDone(next, d, z') {
      if z' != z {
        KeepsAllDone(cur, next, d, z');
      }
    }
  }

  /** Reconciling a directory with nothing below it only adds its entries. */
  lemma RescanOfLeaf(a: Cat, mid: Items, e: Path, ids: map<Name, Id>, all: seq<Observed>, d: Files)
    requires Rescan(a, mid, e, ids, all, d) && !HasBelow(a.items, e)
    ensures AddsBelow(a.items, mid, e, d)
    ensures forall z | ChildOf(e, z) :: !HasBelow(mid, z)
  {
    forall i | i in mid && i !in a.items ensures Below(e, mid[i].path) && mid[i].path in d {
      FreshIsChild(a, mid, e, ids, all, d, i);
      ChildAfter(a, mid, e, ids, all, d, i);
    }
    forall z | ChildOf(e, z) ensures !HasBelow(mid, z) {
      forall i | i in mid ensures !Below(z, mid[i].path) {
        NotBelowChild(a, mid, e, ids, all, d, z, i);
      }
    }
  }

  lemma NotBelowChild(a: Cat, mid: Items, e: Path, ids: map<Name, Id>, all: seq<Observed>, d: Files, z: Path, i: Id)
    requires Rescan(a, mid, e, ids, all, d) && !HasBelow(a.items, e) && ChildOf(e, z) && i in mid
    ensures !Below(z, mid[i].path)
  {
    ChildCases(e, z);
    WithinCases(e, z);
    assert i in a.items ==> !Below(e, a.items[i].path) && mid[i] == a.items[i];
    if Below(z, mid[i].path) {
      BelowTrans(e, z, mid[i].path);
    }
  }

  lemma GrownAdds(a: Items, mid: Items, b: Items, e: Path, d: Files, zs: set<Path>)
    requires AddsBelow(a, mid, e, d) && Grown(mid, b, zs, d) && Siblings(e, zs)
    ensures AddsBelow(a, b, e, d)
  {
    forall i | i in b && i !in a ensures Below(e, b[i].path) && b[i].path in d {
      if i !in mid {
        var z :| z in zs && !HasBelow(mid, z) && Below(z, b[i].path);
        ChildCases(e, z);
        BelowTrans(e, z, b[i].path);
        WithinCases(e, z);
      }
    }
  }

  /** The child directory of e that leads to y. */
  lemma SubdirAbove(d: Files, e: Path, y: Path) returns (z: Path)
    requires DiskOk(d) && IsDirectory(d, y) && Below(e, y)
    ensures z in d && d[z].isDir && ChildOf(e, z) && Within(z, y)
  {
    TopOnDisk(d, e, y);
    z := e + [Top(e, y)];
    BelowChild(e, Top(e, y));
    WithinDirIsDir(d, z, y);
  }

  lemma GrownIsFilled(a: Cat, mid: Items, b: Items, e: Path, ids: map<Name, Id>, all: seq<Observed>, d: Files, zs: set<Path>)
    requires Rescan(a, mid, e, ids, all, d) && !HasBelow(a.items, e)
    requires Grown(mid, b, zs, d) && Siblings(e, zs) && Done(b, d, e, true)
    requires forall z | z in d && d[z].isDir && ChildOf(e, z) :: z in zs
    ensures Filled(a.items, b, e, d)
  {
    RescanOfLeaf(a, mid, e, ids, all, d);
    GrownAdds(a.items, mid, b, e, d, zs);
    forall y | IsDirectory(d, y) && Within(e, y) ensures Done(b, d, y, true) {
      WithinCases(e, y);
      if y != e {
        var z := SubdirAbove(d, e, y);
        assert AllDone(b, d, z);
      }
    }
  }

  /** Nothing below means no children. */
  lemma ChildlessHasNothingBelow(items: Items, p: Path)
    requires Tree(items) && (p == [] || Indexed(items, p))
    ensures ChildIds(items, IdAt(items, p)) == {} <==> !HasBelow(items, p)
  {
    var pid := IdAt(items, p);
    forall i | i in items && Below(p, items[i].path) ensures exists j :: j in ChildIds(items, pid) {
      var j := TopChild(items, p, i);
      ChildPath(items, p, j);
      BelowChild(p, Top(p, items[i].path));
      assert j in ChildIds(items, pid);
    }
    forall j | j in ChildIds(items, pid) ensures HasBelow(items, p) {
      ChildPath(items, p, j);
      ChildCases(p, items[j].path);
      assert Below(p, items[j].path);
    }
  }

  /** The known names are none exactly when there are no children. */
  lemma KnownEmpty(items: Items, pid: Id)
    ensures Known(items, pid) == map[] <==> ChildIds(items, pid) == {}
  {
    var k := Known(items, pid);
    if i :| i in ChildIds(items, pid) {
      assert items[i].name in k;
    }
    if n :| n in k {
      assert k[n] in ChildIds(items, pid);
    }
  }
}
