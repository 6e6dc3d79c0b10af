/** The background scanner: ScanDir, the full scan and the incremental scan. */
module Scanner {
  import opened Paths
  import opened Catalogue
  import opened TreeInvariant
  import opened History
  import opened Writes
  import opened Reconciling
  import opened Agreement
  import opened ReconcileTheorems
  import opened Disk
  import opened Rescans
  import opened Scanning
  import opened DirScans
  import opened DirWalks
  import opened OldMirrors
  import opened ScanLogs
  import opened IndexStore

  /** The directories and files on disk strictly below p. */
  function DiskBelow(d: Files, p: Path): set<Path> {
    set q | q in d && Below(p, q)
  }

  lemma DeeperIsLess(d: Files, p: Path, z: Path)
    requires z in d && Below(p, z)
    ensures |DiskBelow(d, z)| < |DiskBelow(d, p)|
  {
    assert z in DiskBelow(d, p) && z !in DiskBelow(d, z);
    forall q | q in DiskBelow(d, z) ensures q in DiskBelow(d, p) {
      WithinCases(p, z);
      BelowTrans(p, z, q);
    }
    SubsetSize(DiskBelow(d, z), DiskBelow(d, p), z);
  }

  lemma SubsetSize(s: set<Path>, t: set<Path>, x: Path)
    requires s <= t && x in t && x !in s
    ensures |s| < |t|
  {
    var rest := t - s;
    assert t == s + rest && |t| == |s| + |rest| && x in rest;
  }

  lemma AllRead(names: set<Name>, order: seq<Name>, all: seq<Observed>)
    requires DistinctSeq(order) && SetOf(order) == names && |all| == |order|
    requires forall j | 0 <= j < |all| :: all[j].name == order[j]
    ensures Names(all) == names && forall j, k | 0 <= j < k < |all| :: all[j].name != all[k].name
  {
    forall n | n in names ensures n in Names(all) {
      assert n in SetOf(order);
      var j :| 0 <= j < |order| && order[j] == n;
      assert all[j] in all;
    }
    forall n | n in Names(all) ensures n in names {
      var k := NameAt(all, n);
      assert order[k] in SetOf(order);
    }
  }

  lemma ChildrenOnDisk(d: Files, dir: Path, names: set<Name>, all: seq<Observed>)
    requires DiskOk(d)
    requires forall p | p in d && ChildOf(dir, p) :: Base(p) in names
    requires forall k | 0 <= k < |all| :: dir + [all[k].name] in d && all[k] == ObservedAt(all[k].name, d[dir + [all[k].name]])
    requires Names(all) == names && (forall j, k | 0 <= j < k < |all| :: all[j].name != all[k].name)
    ensures Listing(d, dir, all)
  {
    forall k | 0 <= k < |all| ensures IsName(all[k].name) {
      var p := dir + [all[k].name];
      assert IsPath(p) && p[|dir|] == all[k].name;
    }
  }

  /** What every part of a scan relies on and keeps. */
  ghost predicate Ready(c: Cat, d: Files) {
    Valid(c) && Compatible(c.items, d)
  }

  lemma RescanIsReady(a: Cat, c: Cat, e: Path, ids: map<Name, Id>, all: seq<Observed>, d: Files, missing: seq<Name>, now: int)
    requires Ready(a, d) && DiskOk(d) && IsPath(e) && IsDirectory(d, e) && (e == [] || Indexed(a.items, e)) && Listing(d, e, all)
    requires ListsKnown(missing, KnownIn(a.items, e))
    requires var s := Reconciled(a, e, all, missing, now); s.ok ==> (c, ids) == (s.c, s.ids)
    ensures Reconciled(a, e, all, missing, now).ok
    ensures Ready(c, d) && Rescan(a, c.items, e, ids, all, d)
    ensures Logs(a, c, d, now)
    ensures KeepsDone(a.items, c.items, d) && Done(c.items, d, e, true)
  {
    CompatibleHasNoTwin(a, e, all, d);
    CompatibleIsCaseClean(a, e, all, d);
    ReconcileOutcome(a, e, all, missing, now);
    RescanKeepsCompatible(a, c.items, e, ids, all, d);
    RescanKeepsAllDone(a, c.items, e, ids, all, d);
    ReconcileLogsAll(a, c, e, ids, all, missing, now, d);
  }

  class Scanner {
    const index: Index
    const disk: Files

    constructor (index: Index, disk: Files)
      ensures this.index == index && this.disk == disk
    {
      this.index, this.disk := index, disk;
    }

    method ReadDir(dir: Path) returns (all: seq<Observed>)
      requires DiskOk(disk)
      ensures Listing(disk, dir, all)
    {
      var names := set p | p in disk && ChildOf(dir, p) :: Base(p);
      var order := ListOf(names);
      all := [];
      var k := 0;
      while k < |order|
        invariant 0 <= k <= |order| && |all| == k
        invariant forall j | 0 <= j < k :: all[j].name == order[j] && order[j] in names
                    && dir + [order[j]] in disk && all[j] == ObservedAt(order[j], disk[dir + [order[j]]])
      {
        assert order[k] in SetOf(order);
        var p :| p in disk && ChildOf(dir, p) && Base(p) == order[k];
        assert p == dir + [order[k]];
        all := all + [ObservedAt(order[k], disk[p])];
        k := k + 1;
      }
      AllRead(names, order, all);
      ChildrenOnDisk(disk, dir, names, all);
    }

    /** Reconciles one directory from disk, and scans children that are still unexplored. */
    method ScanDir(dir: Path, now: int) returns (ok: bool, ghost mid: Items, ghost ids: map<Name, Id>, ghost all: seq<Observed>, ghost zs: set<Path>)
      requires DiskOk(disk) && Ready(index.State(), disk)
      requires IsPath(dir) && (dir == [] || Indexed(index.items, dir))
      modifies index
      ensures Ready(index.State(), disk)
      ensures ok == IsDirectory(disk, dir)
      ensures !ok ==> index.State() == old(index.State())
      ensures KeepsDone(old(index.items), index.items, disk)
      ensures Logs(old(index.State()), index.State(), disk, now)
      ensures ok ==>
        && Done(index.items, disk, dir, true)
        && Rescan(old(index.State()), mid, dir, ids, all, disk)
        && Grown(mid, index.items, zs, disk) && Siblings(dir, zs)
        && KeepsDone(mid, index.items, disk) && Tree(mid) && Done(mid, disk, dir, true)
        && (forall z | z in zs :: z in disk && disk[z].isDir)
        && (forall z | z in disk && disk[z].isDir && ChildOf(dir, z) :: z in zs)
        && (!HasBelow(old(index.items), dir) ==> Filled(old(index.items), index.items, dir, disk))
      decreases |DiskBelow(disk, dir)|, 3
    {
      ok := dir == [] || (dir in disk && disk[dir].isDir);
      mid, ids, all, zs := map[], map[], [], {};
      if !ok {
        LogsNothing(index.State(), disk, now);
        return;
      }
      var obs := ReadDir(dir);
      all := obs;
      ghost var a := index.State();
      ghost var missing;
      var done;
      ids, done, missing := index.Reconcile(dir, obs, now);
      assert Entered(a, dir) == a;
      RescanIsReady(a, index.State(), dir, ids, all, disk, missing, now);
      mid := index.items;
      ghost var b := index.State();
      zs := ScanChildren(dir, obs, mid, now);
      LogsTrans(a, b, index.State(), disk, now);
      ScannedDir(a, mid, index.items, dir, ids, all, disk, zs);
    }

    method ScanChildren(dir: Path, obs: seq<Observed>, ghost mid: Items, now: int)
      returns (ghost zs: set<Path>)
      requires DiskOk(disk) && Ready(index.State(), disk) && Listing(disk, dir, obs)
      requires Done(index.items, disk, dir, true) && IsDirectory(disk, dir)
      requires mid == index.items && IsPath(dir)
      modifies index
      ensures Ready(index.State(), disk) && KeepsDone(mid, index.items, disk)
      ensures Grown(mid, index.items, zs, disk) && Siblings(dir, zs)
      ensures zs == SubdirsIn(dir, obs)
      ensures Logs(old(index.State()), index.State(), disk, now)
      decreases |DiskBelow(disk, dir)|, 2
    {
      zs := {};
      ghost var a := index.State();
      LogsNothing(a, disk, now);
      var k := 0;
      while k < |obs|
        invariant 0 <= k <= |obs|
        invariant Ready(index.State(), disk) && KeepsDone(mid, index.items, disk)
        invariant Grown(mid, index.items, zs, disk) && Siblings(dir, zs)
        invariant zs == SubdirsIn(dir, obs[..k])
        invariant Logs(a, index.State(), disk, now)
      {
        zs := ScanEntry(dir, obs, k, mid, zs, a, now);
        k := k + 1;
      }
      assert obs[..k] == obs;
    }

    method ScanEntry(dir: Path, obs: seq<Observed>, k: nat, ghost mid: Items, ghost zs: set<Path>, ghost a: Cat, now: int)
      returns (ghost zs': set<Path>)
      requires DiskOk(disk) && Ready(index.State(), disk) && Listing(disk, dir, obs) && k < |obs|
      requires Done(mid, disk, dir, true) && IsDirectory(disk, dir) && KeepsDone(mid, index.items, disk)
      requires Grown(mid, index.items, zs, disk) && Siblings(dir, zs) && zs == SubdirsIn(dir, obs[..k])
      requires Valid(a) && Logs(a, index.State(), disk, now)
      modifies index
      ensures Ready(index.State(), disk) && KeepsDone(mid, index.items, disk)
      ensures Grown(mid, index.items, zs', disk) && Siblings(dir, zs') && zs' == SubdirsIn(dir, obs[..k + 1])
      ensures Logs(a, index.State(), disk, now)
      decreases |DiskBelow(disk, dir)|, 1
    {
      zs' := zs;
      SubdirsNext(dir, obs, k);
      if obs[k].isDir {
        ListedDir(disk, dir, obs, k);
        ghost var b := index.State();
        ScanChild(dir, dir + [obs[k].name], mid, zs, now);
        LogsTrans(a, b, index.State(), disk, now);
        zs' := zs + {dir + [obs[k].name]};
      }
    }

    method ScanChild(dir: Path, child: Path, ghost mid: Items, ghost zs: set<Path>, now: int)
      requires DiskOk(disk) && Ready(index.State(), disk)
      requires IsPath(child) && ChildOf(dir, child) && child in disk && disk[child].isDir && IsDirectory(disk, dir)
      requires Done(mid, disk, dir, true)
      requires Grown(mid, index.items, zs, disk) && Siblings(dir, zs) && child !in zs
      requires KeepsDone(mid, index.items, disk)
      modifies index
      ensures Ready(index.State(), disk) && KeepsDone(mid, index.items, disk)
      ensures Grown(mid, index.items, zs + {child}, disk) && Siblings(dir, zs + {child})
      ensures Logs(old(index.State()), index.State(), disk, now)
      decreases |DiskBelow(disk, dir)|, 0
    {
      LogsNothing(index.State(), disk, now);
      ghost var cur := index.items;
      KeptDone(mid, cur, disk, dir);
      var pid := index.ByPath(child);
      var kids := index.ChildrenOf(pid.value);
      ChildlessHasNothingBelow(index.items, child);
      KnownEmpty(index.items, pid.value);
      if kids == map[] {
        ChildCases(dir, child);
        DeeperIsLess(disk, dir, child);
        ghost var m, i, l, z;
        var r;
        r, m, i, l, z := ScanDir(child, now);
        GrownFill(mid, cur, index.items, zs, disk, dir, child);
        KeepsDoneTrans(mid, cur, index.items, disk);
      } else {
        GrownSkip(mid, cur, zs, disk, dir, child);
      }
    }

    /** The walk of a share: every directory of it is scanned, parents first. */
    method WalkDir(p: Path, now: int)
      requires DiskOk(disk) && Ready(index.State(), disk)
      requires IsPath(p) && (p == [] || Indexed(index.items, p)) && p in disk
      modifies index
      ensures Ready(index.State(), disk)
      ensures KeepsDone(old(index.items), index.items, disk)
      ensures AllDone(index.items, disk, p)
      ensures Logs(old(index.State()), index.State(), disk, now)
      decreases |DiskBelow(disk, p)|
    {
      if !disk[p].isDir {
        NothingBelowFile(disk, p);
        LogsNothing(index.State(), disk, now);
        return;
      }
      ghost var a := index.State();
      ghost var m, i, l, z;
      var r;
      r, m, i, l, z := ScanDir(p, now);
      ghost var b := index.State();
      WalkChildren(p, now);
      LogsTrans(a, b, index.State(), disk, now);
    }

    method WalkChildren(p: Path, now: int)
      requires DiskOk(disk) && Ready(index.State(), disk) && IsPath(p)
      requires IsDirectory(disk, p) && Done(index.items, disk, p, true)
      modifies index
      ensures Ready(index.State(), disk)
      ensures KeepsDone(old(index.items), index.items, disk)
      ensures AllDone(index.items, disk, p)
      ensures Logs(old(index.State()), index.State(), disk, now)
      decreases |DiskBelow(disk, p)|, 1
    {
      ghost var a, c := index.items, index.State();
      LogsNothing(c, disk, now);
      var obs := ReadDir(p);
      ghost var zs: set<Path> := {};
      var k := 0;
      while k < |obs|
        invariant 0 <= k <= |obs|
        invariant Ready(index.State(), disk)
        invariant KeepsDone(a, index.items, disk)
        invariant zs == SubdirsIn(p, obs[..k]) && AllDoneIn(index.items, disk, zs)
        invariant Logs(c, index.State(), disk, now)
      {
        ghost var b := index.State();
        zs := WalkChild(p, obs, k, a, zs, now);
        LogsTrans(c, b, index.State(), disk, now);
        k := k + 1;
      }
      assert obs[..k] == obs;
      KeptDone(a, index.items, disk, p);
      AllSubdirs(disk, p, obs);
      AllChildrenDone(index.items, disk, p, zs);
    }

    /** The loop's body: a child that is a directory is walked. */
    method WalkChild(p: Path, obs: seq<Observed>, k: nat, ghost a: Items, ghost zs: set<Path>, now: int) returns (ghost zs': set<Path>)
      requires DiskOk(disk) && Ready(index.State(), disk) && IsPath(p) && Listing(disk, p, obs) && k < |obs|
      requires IsDirectory(disk, p) && Done(a, disk, p, true) && KeepsDone(a, index.items, disk)
      requires zs == SubdirsIn(p, obs[..k]) && AllDoneIn(index.items, disk, zs)
      modifies index
      ensures Ready(index.State(), disk) && KeepsDone(a, index.items, disk)
      ensures zs' == SubdirsIn(p, obs[..k + 1]) && AllDoneIn(index.items, disk, zs')
      ensures Logs(old(index.State()), index.State(), disk, now)
      decreases |DiskBelow(disk, p)|, 0
    {
      zs' := zs;
      LogsNothing(index.State(), disk, now);
      SubdirsNext(p, obs, k);
      if obs[k].isDir {
        var z := p + [obs[k].name];
        ListedDir(disk, p, obs, k);
        ChildCases(p, z);
        DeeperIsLess(disk, p, z);
        KeptDone(a, index.items, disk, p);
        ghost var cur := index.items;
        WalkDir(z, now);
        KeepsDoneTrans(a, cur, index.items, disk);
        AllDoneMore(cur, index.items, disk, zs, z);
        zs' := zs + {z};
      }
    }

    /** Catalogues the disk: from an empty catalogue, or any one compatible with the disk, the
        outcome is an exact mirror if and only if no file had taken the path of a directory with
        rows below it.  A scan of an empty catalogue journals no more than the mark of the root; any other scan
        journals every fact it changes, unless it was called while bootstrapping.  Of the older
        entries those stay that are not older than `keep`. */
    method Full(now: int, keep: nat)
      requires DiskOk(disk) && Ready(index.State(), disk)
      modifies index
      ensures Mirror(index.items, disk, true) <==> forall p :: !Stuck(old(index.items), disk, p)
      ensures Tree(index.items) && Compatible(index.items, disk)
      ensures index.bootstrapping <==> old(index.bootstrapping) && old(index.items) != map[]
      ensures old(index.items) == map[] ==>
                index.changes == Pruned(old(index.changes) + [RootMark(old(index.last) + 1, now)], now - keep)
      ensures old(index.items) != map[] && !old(index.bootstrapping) ==>
                forall id :: Seen(old(index.items), id) != Seen(index.items, id) ==> LoggedAfter(index.State(), old(index.last), id)
      ensures old(index.items) != map[] ==> forall e | e in index.changes && e !in old(index.changes) :: e.path != []
      ensures forall e | e in old(index.changes) :: e in index.changes <==> e.ts >= now - keep
      ensures forall e | e in index.changes && e !in old(index.changes) :: e.ts == now
    {
      ghost var a := index.State();
      var bootstrap := index.items == map[];
      if bootstrap {
        index.SetBootstrapping(true);
      }
      ghost var a1 := index.State();
      Catalogued(now);
      ghost var b := index.State();
      if bootstrap {
        index.SetBootstrapping(false);
        index.Mark(now);
      }
      ghost var c := index.State();
      index.PruneBefore(now - keep);
      FullLogs(a, a1, b, c, disk, now, keep);
    }

    /** The scan of the root and the walk of every share. */
    method Catalogued(now: int)
      requires DiskOk(disk) && Ready(index.State(), disk)
      modifies index
      ensures Ready(index.State(), disk) && Logs(old(index.State()), index.State(), disk, now)
      ensures Mirror(index.items, disk, true) <==> forall p :: !Stuck(old(index.items), disk, p)
    {
      ghost var a := index.State();
      ghost var m, i, l, z;
      var r;
      r, m, i, l, z := ScanDir([], now);
      ghost var b := index.State();
      WalkChildren([], now);
      KeepsDoneTrans(a.items, b.items, index.items, disk);
      LogsTrans(a, b, index.State(), disk, now);
      assert forall x | IsDirectory(disk, x) :: Within([], x);
      AllDoneIsMirror(index.items, disk, true);
    }

    // ---- the incremental scan ------------------------------------------------------------------

    /** Re-lists rel if its modification time is new, then walks its indexed subdirectories. */
    method WalkChanged(rel: Path, now: int)
      requires DiskOk(disk) && Detecting(index.State(), disk) && IsPath(rel) && rel != []
      modifies index
      ensures Detecting(index.State(), disk)
      ensures KeepsDone(old(index.items), index.items, disk) && SameOutside(old(index.items), index.items, rel)
      ensures rel in disk && disk[rel].isDir && Indexed(old(index.items), rel) ==> WalkedAt(old(index.items), index.items, disk, rel)
      ensures Logs(old(index.State()), index.State(), disk, now)
      decreases if rel in disk then 1 + |DiskBelow(disk, rel)| else 0, 3
    {
      ghost var c := index.State();
      LogsNothing(c, disk, now);
      var it := index.ByPath(rel);
      if it.None? || rel !in disk {
        return;
      }
      ghost var a := index.items;
      StaleAt(a, disk, rel, it.value);
      if disk[rel].mtime != index.items[it.value].mtime {
        ScanChanged(rel, now);
      } else if disk[rel].isDir {
        PassedExact(a, disk, rel);
      }
      ghost var b, e := index.items, index.State();
      WalkSubdirs(rel, now);
      LogsTrans(c, e, index.State(), disk, now);
      KeepsDoneTrans(a, b, index.items, disk);
      OutsideTrans(a, b, index.items, rel, rel);
      if disk[rel].isDir {
        WalkedWhole(a, b, index.items, disk, rel);
      }
    }

    method ScanChanged(rel: Path, now: int)
      requires DiskOk(disk) && Detecting(index.State(), disk) && IsPath(rel) && rel != [] && Indexed(index.items, rel)
      requires Stale(index.items, disk, rel)
      modifies index
      ensures Detecting(index.State(), disk)
      ensures KeepsDone(old(index.items), index.items, disk) && SameOutside(old(index.items), index.items, rel)
      ensures disk[rel].isDir ==> PassedTo(old(index.items), index.items, disk, rel)
      ensures Logs(old(index.State()), index.State(), disk, now)
    {
      ghost var a := index.State();
      ghost var mid, ids, all, zs;
      var ok;
      ok, mid, ids, all, zs := ScanDir(rel, now);
      if ok {
        RelistKeepsWholesale(a, mid, index.items, rel, ids, all, zs, disk);
        RelistOutside(a, mid, index.items, rel, ids, all, zs, disk);
        RelistPasses(a, mid, index.items, rel, ids, all, zs, disk);
      }
    }

    method WalkSubdirs(rel: Path, now: int)
      requires DiskOk(disk) && Detecting(index.State(), disk) && IsPath(rel) && rel != []
      requires Indexed(index.items, rel) && rel in disk
      modifies index
      ensures Detecting(index.State(), disk)
      ensures KeepsDone(old(index.items), index.items, disk) && SameOutside(old(index.items), index.items, rel)
      ensures disk[rel].isDir ==> WalkedTo(old(index.items), index.items, disk, rel)
      ensures Logs(old(index.State()), index.State(), disk, now)
      decreases 1 + |DiskBelow(disk, rel)|, 2, 1
    {
      var pid := index.ByPath(rel);
      var kids := index.ChildrenOf(pid.value);
      ghost var was := index.items;
      ghost var walked := WalkKids(rel, kids, now);
      WalkedOutside(was, index.items, disk, rel, walked);
      if disk[rel].isDir {
        WalkedEnds(was, index.items, disk, rel, walked);
      }
    }

    method WalkKids(rel: Path, kids: map<Name, Id>, now: int) returns (ghost walked: set<Path>)
      requires DiskOk(disk) && Detecting(index.State(), disk) && IsPath(rel) && rel != []
      requires Indexed(index.items, rel) && rel in disk && kids == Known(index.items, IdAt(index.items, rel))
      modifies index
      ensures Detecting(index.State(), disk) && KeepsDone(old(index.items), index.items, disk)
      ensures Walked(old(index.items), index.items, disk, rel, walked)
      ensures forall i | i in old(index.items) && ChildOf(rel, old(index.items)[i].path) && old(index.items)[i].isDir ::
                old(index.items)[i].path in walked
      ensures Logs(old(index.State()), index.State(), disk, now)
      decreases 1 + |DiskBelow(disk, rel)|, 2, 0
    {
      var was := index.items;
      var names := ListOf(kids.Keys);
      ghost var c := index.State();
      walked := {};
      WalkedStarts(was, disk, rel);
      LogsNothing(c, disk, now);
      var k := 0;
      while k < |names|
        invariant 0 <= k <= |names|
        invariant Detecting(index.State(), disk) && KeepsDone(was, index.items, disk)
        invariant Walked(was, index.items, disk, rel, walked)
        invariant KidsWalked(was, kids, names[..k], walked) && NamesOf(walked, names[..k])
        invariant Logs(c, index.State(), disk, now)
      {
        ghost var e := index.State();
        KidPath(was, rel, kids, names, k);
        walked := WalkKid(rel, was[kids[names[k]]], was, kids, names, k, walked, now);
        LogsTrans(c, e, index.State(), disk, now);
        k := k + 1;
      }
      assert names[..k] == names;
      KidsListed(was, rel, kids, names, walked);
    }

    /** The loop's body: a child that is a directory is walked. */
    method WalkKid(rel: Path, c: Row, ghost was: Items, ghost kids: map<Name, Id>, ghost names: seq<Name>, ghost k: nat,
                   ghost walked: set<Path>, now: int) returns (ghost walked': set<Path>)
      requires DiskOk(disk) && Detecting(index.State(), disk) && rel in disk && IsPath(c.path) && ChildOf(rel, c.path)
      requires KeepsDone(was, index.items, disk) && Walked(was, index.items, disk, rel, walked)
      requires k < |names| && names[k] in kids && kids[names[k]] in was && c == was[kids[names[k]]] && Base(c.path) == names[k]
      requires DistinctSeq(names)
      requires KidsWalked(was, kids, names[..k], walked) && NamesOf(walked, names[..k])
      modifies index
      ensures Detecting(index.State(), disk)
      ensures KeepsDone(was, index.items, disk) && Walked(was, index.items, disk, rel, walked')
      ensures KidsWalked(was, kids, names[..k + 1], walked') && NamesOf(walked', names[..k + 1])
      ensures Logs(old(index.State()), index.State(), disk, now)
      decreases 1 + |DiskBelow(disk, rel)|, 1
    {
      walked' := walked;
      LogsNothing(index.State(), disk, now);
      KidsNext(was, kids, names, k, walked, c.path);
      WalkedNamesNext(walked, names, k, c.path);
      if c.isDir {
        WalkSubdir(rel, c.path, was, walked, now);
        walked' := walked + {c.path};
      }
    }

    method WalkSubdir(rel: Path, child: Path, ghost was: Items, ghost walked: set<Path>, now: int)
      requires DiskOk(disk) && Detecting(index.State(), disk) && rel in disk && IsPath(child) && ChildOf(rel, child)
      requires KeepsDone(was, index.items, disk) && Walked(was, index.items, disk, rel, walked) && child !in walked
      modifies index
      ensures Detecting(index.State(), disk)
      ensures KeepsDone(was, index.items, disk) && Walked(was, index.items, disk, rel, walked + {child})
      ensures Logs(old(index.State()), index.State(), disk, now)
      decreases 1 + |DiskBelow(disk, rel)|, 0
    {
      ghost var cur := index.items;
      ChildCases(rel, child);
      if child in disk {
        DeeperIsLess(disk, rel, child);
      }
      WalkChanged(child, now);
      KeepsDoneTrans(was, cur, index.items, disk);
      WalkedNext(was, cur, index.items, disk, rel, walked, child);
    }

    /** Re-lists the directories whose time is new, the root last. Afterwards the catalogue shows the
        disk, by path and kind, if and only if no changed directory was missed and no file had taken
        the path of a directory with rows below it; and every fact that was changed is journaled,
        unless bootstrapping. */
    method Dirs(now: int)
      requires DiskOk(disk) && Detecting(index.State(), disk)
      modifies index
      ensures Mirror(index.items, disk, false)
              <==> (forall y :: !Missed(old(index.items), disk, y)) && (forall p :: !Stuck(old(index.items), disk, p))
      ensures Ready(index.State(), disk) && Logs(old(index.State()), index.State(), disk, now)
      ensures !old(index.bootstrapping) ==>
                !index.bootstrapping && forall id :: Seen(old(index.items), id) != Seen(index.items, id) ==> LoggedAfter(index.State(), old(index.last), id)
    {
      ghost var start, c := index.items, index.State();
      LogsNothing(c, disk, now);
      var obs := ReadDir([]);
      ghost var walked: set<Path> := {};
      WalkedStarts(start, disk, []);
      var k := 0;
      while k < |obs|
        invariant 0 <= k <= |obs|
        invariant Detecting(index.State(), disk) && KeepsDone(start, index.items, disk)
        invariant Walked(start, index.items, disk, [], walked)
        invariant walked == SubdirsIn([], obs[..k])
        invariant Logs(c, index.State(), disk, now)
      {
        ghost var e := index.State();
        walked := WalkEntry(start, obs, k, walked, now);
        LogsTrans(c, e, index.State(), disk, now);
        k := k + 1;
      }
      assert obs[..k] == obs;
      AllSubdirs(disk, [], obs);
      ghost var e := index.State();
      FinishRoot(start, walked, now);
      LogsTrans(c, e, index.State(), disk, now);
    }

    /** The loop's body: an entry of the root that is a directory, a share, is walked. */
    method WalkEntry(ghost start: Items, obs: seq<Observed>, k: nat, ghost walked: set<Path>, now: int) returns (ghost walked': set<Path>)
      requires DiskOk(disk) && Detecting(index.State(), disk) && Listing(disk, [], obs) && k < |obs|
      requires KeepsDone(start, index.items, disk) && Walked(start, index.items, disk, [], walked)
      requires walked == SubdirsIn([], obs[..k])
      modifies index
      ensures Detecting(index.State(), disk)
      ensures KeepsDone(start, index.items, disk) && Walked(start, index.items, disk, [], walked')
      ensures walked' == SubdirsIn([], obs[..k + 1])
      ensures Logs(old(index.State()), index.State(), disk, now)
    {
      walked' := walked;
      LogsNothing(index.State(), disk, now);
      SubdirsNext([], obs, k);
      if obs[k].isDir {
        WalkShare(start, obs, k, walked, now);
        walked' := walked + {[] + [obs[k].name]};
      }
    }

    method WalkShare(ghost start: Items, obs: seq<Observed>, k: nat, ghost walked: set<Path>, now: int)
      requires DiskOk(disk) && Detecting(index.State(), disk) && Listing(disk, [], obs) && k < |obs|
      requires KeepsDone(start, index.items, disk) && Walked(start, index.items, disk, [], walked)
      requires [] + [obs[k].name] !in walked
      modifies index
      ensures Detecting(index.State(), disk)
      ensures KeepsDone(start, index.items, disk) && Walked(start, index.items, disk, [], walked + {[] + [obs[k].name]})
      ensures Logs(old(index.State()), index.State(), disk, now)
    {
      ListedDir(disk, [], obs, k);
      ghost var cur := index.items;
      WalkChanged([] + [obs[k].name], now);
      KeepsDoneTrans(start, cur, index.items, disk);
      WalkedNext(start, cur, index.items, disk, [], walked, [] + [obs[k].name]);
    }

    method FinishRoot(ghost start: Items, ghost walked: set<Path>, now: int)
      requires DiskOk(disk) && Detecting(index.State(), disk) && Tree(start)
      requires KeepsDone(start, index.items, disk) && Walked(start, index.items, disk, [], walked)
      requires forall z | z in disk && disk[z].isDir && ChildOf([], z) :: z in walked
      modifies index
      ensures Mirror(index.items, disk, false)
              <==> (forall y :: !Missed(start, disk, y)) && (forall p :: !Stuck(start, disk, p))
      ensures Ready(index.State(), disk) && Logs(old(index.State()), index.State(), disk, now)
    {
      ghost var c := index.State();
      ghost var mid, ids, all, zs;
      var ok;
      ok, mid, ids, all, zs := ScanDir([], now);
      KeepsDoneTrans(start, c.items, index.items, disk);
      ExactIsNamed(index.items, disk, []);
      ScanIsExact(start, c, mid, index.items, ids, all, zs, disk, walked);
    }
  }

  /** The entry of MarkBootstrapped. */
  function RootMark(seqNo: nat, now: int): Change {
    Change(seqNo, Upserted, Root, [], [], now)
  }

  /** What the parts of a full scan tell the journal: `a` at first, `a1` when the scanning begins and `b` when it ends, `c`
      before the pruning. */
  lemma FullLogs(a: Cat, a1: Cat, b: Cat, c: Cat, d: Files, now: int, keep: nat)
    requires Valid(a) && Logs(a1, b, d, now)
    requires a1 == if a.items == map[] then a.(bootstrapping := true) else a
    requires c == if a.items == map[] then MarkBootstrapped(b.(bootstrapping := false), now) else b
    ensures var f := Prune(c, now - keep);
            && (a.items == map[] ==> f.journal == Pruned(a.journal + [RootMark(a.last + 1, now)], now - keep))
            && (a.items != map[] && !a.bootstrapping ==>
                  forall id :: Seen(a.items, id) != Seen(c.items, id) ==> LoggedAfter(f, a.last, id))
            && (a.items != map[] ==> forall e | e in f.journal && e !in a.journal :: e.path != [])
            && (forall e | e in a.journal :: e in f.journal <==> e.ts >= now - keep)
            && (forall e | e in f.journal && e !in a.journal :: e.ts == now)
  {
    if a.items == map[] {
      assert Shown(a1.items, d);
      assert c.journal == a.journal + [RootMark(a.last + 1, now)];
    } else {
      forall id | !a.bootstrapping && Seen(a.items, id) != Seen(c.items, id) ensures LoggedAfter(Prune(c, now - keep), a.last, id) {
        LogSurvives(a, c, now, keep, id);
      }
    }
    forall e ensures e in Prune(c, now - keep).journal <==> e in c.journal && e.ts >= now - keep {
      PrunedAre(c.journal, now - keep, e);
    }
    OldAndNew(a, c, now, a.items != map[]);
  }

  lemma OldAndNew(a: Cat, c: Cat, now: int, quiet: bool)
    requires |a.journal| <= |c.journal| && c.journal[..|a.journal|] == a.journal
    requires forall k | |a.journal| <= k < |c.journal| :: c.journal[k].ts == now && (quiet ==> c.journal[k].path != [])
    ensures forall e | e in a.journal :: e in c.journal
    ensures forall e | e in c.journal && e !in a.journal :: e.ts == now && (quiet ==> e.path != [])
  {
    forall e | e in a.journal ensures e in c.journal {
      var k :| 0 <= k < |a.journal| && a.journal[k] == e;
      assert c.journal[..|a.journal|][k] == c.journal[k];
    }
    forall e | e in c.journal && e !in a.journal ensures e.ts == now && (quiet ==> e.path != []) {
      var k :| 0 <= k < |c.journal| && c.journal[k] == e;
      assert forall j | 0 <= j < |a.journal| :: c.journal[j] == c.journal[..|a.journal|][j] && a.journal[j] in a.journal;
    }
  }

  /** What the two halves of ScanDir add up to. */
  lemma ScannedDir(a: Cat, mid: Items, b: Items, dir: Path, ids: map<Name, Id>, all: seq<Observed>, d: Files, zs: set<Path>)
    requires Rescan(a, mid, dir, ids, all, d) && KeepsDone(a.items, mid, d) && Done(mid, d, dir, true)
    requires Grown(mid, b, zs, d) && Siblings(dir, zs) && KeepsDone(mid, b, d) && zs == SubdirsIn(dir, all)
    ensures KeepsDone(a.items, b, d) && Done(b, d, dir, true)
    ensures forall z | z in zs :: z in d && d[z].isDir
    ensures forall z | z in d && d[z].isDir && ChildOf(dir, z) :: z in zs
    ensures !HasBelow(a.items, dir) ==> Filled(a.items, b, dir, d)
  {
    AllSubdirs(d, dir, all);
    KeepsDoneTrans(a.items, mid, b, d);
    KeptDone(mid, b, d, dir);
    if !HasBelow(a.items, dir) {
      GrownIsFilled(a, mid, b, dir, ids, all, d, zs);
    }
  }

  /** The subdirectories among the listed entries. */
  function SubdirsIn(dir: Path, obs: seq<Observed>): set<Path> {
    set k | 0 <= k < |obs| && obs[k].isDir :: dir + [obs[k].name]
  }

  lemma SubdirsNext(dir: Path, obs: seq<Observed>, k: nat)
    requires k < |obs| && DistinctNames(obs)
    ensures SubdirsIn(dir, obs[..k + 1]) == SubdirsIn(dir, obs[..k]) + if obs[k].isDir then {dir + [obs[k].name]} else {}
    ensures dir + [obs[k].name] !in SubdirsIn(dir, obs[..k])
  {
    var a, b := obs[..k], obs[..k + 1];
    forall p | p in SubdirsIn(dir, b) ensures p in SubdirsIn(dir, a) || (obs[k].isDir && p == dir + [obs[k].name]) {
      var j :| 0 <= j < |b| && b[j].isDir && p == dir + [b[j].name];
      assert j < k ==> a[j] == b[j];
    }
    forall p | p in SubdirsIn(dir, a) ensures p in SubdirsIn(dir, b) && p != dir + [obs[k].name] {
      var j :| 0 <= j < |a| && a[j].isDir && p == dir + [a[j].name];
      assert b[j] == a[j];
      assert p[|dir|] == a[j].name && (dir + [obs[k].name])[|dir|] == obs[k].name;
    }
    assert obs[k].isDir ==> b[k].isDir;
  }

  lemma ListedDir(d: Files, dir: Path, obs: seq<Observed>, k: nat)
    requires DiskOk(d) && Listing(d, dir, obs) && k < |obs|
    ensures var z := dir + [obs[k].name]; z in d && IsPath(z) && ChildOf(dir, z) && d[z].isDir == obs[k].isDir
  {
    assert obs[k] in obs;
    BelowChild(dir, obs[k].name);
  }

  /** The listing names every subdirectory. */
  lemma AllSubdirs(d: Files, dir: Path, obs: seq<Observed>)
    requires DiskOk(d) && Listing(d, dir, obs)
    ensures forall z | z in d && d[z].isDir && ChildOf(dir, z) :: z in SubdirsIn(dir, obs)
    ensures forall z | z in SubdirsIn(dir, obs) :: z in d && d[z].isDir
  {
    forall k | 0 <= k < |obs| && obs[k].isDir ensures dir + [obs[k].name] in d && d[dir + [obs[k].name]].isDir {
      ListedDir(d, dir, obs, k);
    }
    forall z | z in d && d[z].isDir && ChildOf(dir, z) ensures z in SubdirsIn(dir, obs) {
      ListedChild(d, dir, obs, z);
      var j := NameAt(obs, Base(z));
      ListedDir(d, dir, obs, j);
    }
  }

  lemma KeptDone(a: Items, b: Items, d: Files, x: Path)
    requires KeepsDone(a, b, d) && IsDirectory(d, x) && Done(a, d, x, true)
    ensures Done(b, d, x, true)
    ensures forall z | z in d && ChildOf(x, z) :: Indexed(b, z)
  {
  }

  ghost predicate AllDoneIn(items: Items, d: Files, zs: set<Path>) {
    forall z | z in zs :: AllDone(items, d, z)
  }

  lemma AllDoneMore(a: Items, b: Items, d: Files, zs: set<Path>, z: Path)
    requires AllDoneIn(a, d, zs) && KeepsDone(a, b, d) && AllDone(b, d, z)
    ensures AllDoneIn(b, d, zs + {z})
  {
    forall y | y in zs ensures AllDone(b, d, y) {
      KeepsAllDone(a, b, d, y);
    }
  }

  /** What the incremental scan relies on and keeps. */
  ghost predicate Detecting(c: Cat, d: Files) {
    Ready(c, d) && Wholesale(c.items, d)
  }

  /** The hypotheses of both scans in terms of the old disk, which the catalogue mirrors, and the
      new one. */
  lemma OldMirrorDetects(c: Cat, d0: Files, d1: Files)
    requires Valid(c) && MirrorWithInodes(c.items, d0) && DiskOk(d0) && DiskOk(d1)
    requires NamesKeepInodes(d0, d1) && MovesKeepContents(d0, d1) && OneSpelling(d0, d1)
    ensures Ready(c, d1)
    ensures NamesKeepKinds(d0, d1) ==> forall p :: !Stuck(c.items, d1, p)
    ensures RenamesAreWhole(d0, d1) ==> Detecting(c, d1)
    ensures TimesTell(d0, d1) ==> forall y :: !Missed(c.items, d1, y)
  {
    OldMirrorIsCompatible(c.items, d0, d1);
    forall p | NamesKeepKinds(d0, d1) ensures !Stuck(c.items, d1, p) {
      OldMirrorIsNotStuck(c.items, d0, d1, p);
    }
    if RenamesAreWhole(d0, d1) {
      OldMirrorIsWholesale(c.items, d0, d1);
    }
    forall y | TimesTell(d0, d1) ensures !Missed(c.items, d1, y) {
      TimesTellAll(c.items, d0, d1, y);
    }
  }

  lemma StaleAt(items: Items, d: Files, rel: Path, i: Id)
    requires Tree(items) && i in items && items[i].path == rel && rel in d
    ensures Stale(items, d, rel) <==> items[i].mtime != d[rel].mtime
  {
    forall j | j in items && items[j].path == rel ensures j == i {
      assert RowOk(items, j);
    }
  }

  lemma ExactIsNamed(items: Items, d: Files, e: Path)
    requires Done(items, d, e, true)
    ensures Named(items, d, e)
  {
  }

  /** What WalkChanged finds when it comes to the subdirectories of rel. */
  ghost predicate PassedTo(a: Items, b: Items, d: Files, rel: Path) {
    && Indexed(b, rel)
    && (NoneMissedIn(a, d, rel) <==> ChildrenFound(b, d, rel))
    && (AllNamed(b, d, rel) || (HasBelow(b, rel) <==> HasBelow(a, rel)))
  }

  lemma RelistPasses(a: Cat, mid: Items, b: Items, e: Path, ids: map<Name, Id>, all: seq<Observed>, zs: set<Path>, d: Files)
    requires Relisted(a, mid, b, e, ids, all, zs, d) && Stale(a.items, d, e) && Indexed(a.items, e) && e != []
    requires Done(b, d, e, true) && (!HasBelow(a.items, e) ==> Filled(a.items, b, e, d))
    ensures PassedTo(a.items, b, d, e)
  {
    RelistExact(a, mid, b, e, ids, all, zs, d);
    ExactIsNamed(b, d, e);
    if !HasBelow(a.items, e) {
      forall y | IsDirectory(d, y) && Within(e, y) ensures Named(b, d, y) {
        ExactIsNamed(b, d, y);
      }
    } else if !HasBelow(b, e) {
      EmptyIsNamed(b, d, e);
    }
  }

  /** A known directory with nothing below it is empty on disk too. */
  lemma EmptyIsNamed(items: Items, d: Files, e: Path)
    requires DiskOk(d) && IsDirectory(d, e) && Named(items, d, e) && !HasBelow(items, e)
    ensures AllNamed(items, d, e)
  {
    forall z | z in d && ChildOf(e, z) ensures false {
      var i :| i in items && items[i].path == z;
      ChildCases(e, z);
    }
    AllNamedSplit(items, d, e);
  }

  /** What the walk of the subdirectories of rel makes of the catalogue. */
  ghost predicate WalkedTo(b: Items, c: Items, d: Files, rel: Path) {
    && (AllNamed(c, d, rel) <==> ChildrenFound(b, d, rel))
    && (HasBelow(c, rel) <==> HasBelow(b, rel))
  }

  lemma WalkedWhole(a: Items, b: Items, c: Items, d: Files, rel: Path)
    requires NoneMissedIn(a, d, rel) <==> ChildrenFound(b, d, rel)
    requires AllNamed(b, d, rel) || (HasBelow(b, rel) <==> HasBelow(a, rel))
    requires WalkedTo(b, c, d, rel) && KeepsDone(b, c, d)
    ensures WalkedAt(a, c, d, rel)
  {
    if AllNamed(b, d, rel) {
      KeepsAllNamed(b, c, d, rel);
    }
  }

  lemma KidPath(was: Items, rel: Path, kids: map<Name, Id>, names: seq<Name>, k: nat)
    requires Tree(was) && Indexed(was, rel) && kids == Known(was, IdAt(was, rel)) && SetOf(names) == kids.Keys && k < |names|
    ensures names[k] in kids && kids[names[k]] in was
    ensures var p := was[kids[names[k]]].path; IsPath(p) && ChildOf(rel, p) && Base(p) == names[k]
  {
    assert names[k] in SetOf(names);
    assert RowOk(was, kids[names[k]]);
    ChildPath(was, rel, kids[names[k]]);
  }

  /** The directories among the children listed so far have been walked. */
  ghost predicate KidsWalked(was: Items, kids: map<Name, Id>, names: seq<Name>, walked: set<Path>) {
    forall j | 0 <= j < |names| && names[j] in kids && kids[names[j]] in was && was[kids[names[j]]].isDir ::
      was[kids[names[j]]].path in walked
  }

  lemma KidsNext(was: Items, kids: map<Name, Id>, names: seq<Name>, k: nat, walked: set<Path>, p: Path)
    requires k < |names| && names[k] in kids && kids[names[k]] in was && p == was[kids[names[k]]].path
    requires KidsWalked(was, kids, names[..k], walked)
    ensures KidsWalked(was, kids, names[..k + 1], walked + {p})
    ensures !was[kids[names[k]]].isDir ==> KidsWalked(was, kids, names[..k + 1], walked)
  {
    assert forall j | 0 <= j < k :: names[..k + 1][j] == names[..k][j];
  }

  /** The paths walked so far are named by the names seen so far. */
  predicate NamesOf(walked: set<Path>, names: seq<Name>) {
    forall z | z in walked :: z != [] && Base(z) in names
  }

  lemma WalkedNamesNext(walked: set<Path>, names: seq<Name>, k: nat, p: Path)
    requires k < |names| && DistinctSeq(names) && NamesOf(walked, names[..k]) && p != [] && Base(p) == names[k]
    ensures p !in walked
    ensures NamesOf(walked, names[..k + 1]) && NamesOf(walked + {p}, names[..k + 1])
  {
    forall z | z in walked ensures z != p && Base(z) in names[..k + 1] {
      var j :| 0 <= j < k && names[..k][j] == Base(z);
      assert names[..k + 1][j] == Base(z);
    }
    assert names[..k + 1][k] == names[k];
  }

  lemma KidsListed(was: Items, rel: Path, kids: map<Name, Id>, names: seq<Name>, walked: set<Path>)
    requires Tree(was) && Indexed(was, rel) && kids == Known(was, IdAt(was, rel)) && SetOf(names) == kids.Keys
    requires KidsWalked(was, kids, names, walked)
    ensures forall i | i in was && ChildOf(rel, was[i].path) && was[i].isDir :: was[i].path in walked
  {
    forall i | i in was && ChildOf(rel, was[i].path) && was[i].isDir ensures was[i].path in walked {
      ChildPath(was, rel, i);
      assert was[i].name in SetOf(names);
      SiblingsByName(was, IdAt(was, rel), i, kids[was[i].name]);
      var j :| 0 <= j < |names| && names[j] == was[i].name;
    }
  }

  lemma NothingBelowFile(d: Files, p: Path)
    requires DiskOk(d) && p in d && !d[p].isDir
    ensures forall y | Within(p, y) :: !IsDirectory(d, y)
  {
    forall y | Within(p, y) ensures !IsDirectory(d, y) {
      WithinCases(p, y);
      if y in d && y != p {
        AncestorIsDir(d, p, y);
      }
    }
  }

  lemma AllChildrenDone(items: Items, d: Files, p: Path, zs: set<Path>)
    requires DiskOk(d) && Done(items, d, p, true) && AllDoneIn(items, d, zs)
    requires forall z | z in d && d[z].isDir && ChildOf(p, z) :: z in zs
    ensures AllDone(items, d, p)
  {
    forall y | IsDirectory(d, y) && Within(p, y) ensures Done(items, d, y, true) {
      WithinCases(p, y);
      if y != p {
        var z := SubdirAbove(d, p, y);
        assert AllDone(items, d, z);
      }
    }
  }
}
