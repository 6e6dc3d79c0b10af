/** The write handlers: each changes the disk, then tells the index. */
module FileApi {
  import opened Paths
  import opened Catalogue
  import opened Disk
  import opened DiskWrites
  import opened DiskMoves
  import opened IndexStore

  datatype Status = Done | BadRequest | Forbidden | NotFound | Conflict | PreconditionFailed

  /** What a request brings along besides the paths: the policy's verdict on each path, and the
      attributes the file system gives to what it creates. */
  datatype Request = Request(mayWrite: Path -> bool, attrs: Path -> Stat, now: int)

  lemma MadeIsPut(d: Files, d1: Files, p: Path, s: Stat)
    requires Closed(d1) && p != [] && IsPath(p) && IsDirectory(d1, Parent(p))
    requires p in d1 ==> !d1[p].isDir || s.isDir
    requires forall q | q in d :: q in d1 && d1[q] == d[q]
    requires forall q | q in d1 && q !in d :: Within(q, p) && d1[q].isDir
    ensures DiskWrites.Put(d, d1[p := s], p, s)
  {
    var d2 := d1[p := s];
    forall q | q in d2 ensures IsDirectory(d2, Parent(q)) {
      if q != p && Parent(q) == p {
        assert IsDirectory(d1, p);
      }
    }
    forall q | q in d2 && q !in d && q != p ensures Below(q, p) {
      WithinCases(q, p);
    }
  }

  lemma WithinParent(d: Files, d1: Files, p: Path)
    requires p != [] && forall q | q in d1 && q !in d :: Within(q, Parent(p)) && d1[q].isDir
    ensures forall q | q in d1 && q !in d :: Within(q, p) && d1[q].isDir
  {
    forall q | q in d1 && q !in d ensures Within(q, p) {
      WithinCases(q, p);
    }
  }

  /** Directories created for an upload that is then interrupted are on disk only. */
  lemma CreatedDirs(items: Items, d: Files, d1: Files, dir: Path, attrs: Path -> Stat)
    requires InStep(items, d) && Closed(d) && IsPath(dir) && MkdirAll(d, dir, attrs) == Some(d1)
    ensures InStep(items, d1) <==> d1 == d
    ensures d1 != d ==> !IsDirectory(d, dir)
  {
    MkdirAllMakes(d, dir, attrs);
    if InStep(items, d1) {
      forall q | q in d1 ensures q in d {
        assert Indexed(items, q);
      }
      assert d1.Keys == d.Keys;
    }
  }

  lemma AddDirClosed(d: Files, p: Path, s: Stat)
    requires Closed(d) && p != [] && IsPath(p) && IsDirectory(d, Parent(p)) && p !in d && s.isDir
    ensures Closed(d[p := s])
  {
  }

  lemma DirIsPut(d: Files, d1: Files, p: Path)
    requires Closed(d1) && p in d1
    requires forall q | q in d && q != p :: q in d1 && d1[q] == d[q]
    requires forall q | q in d1 && q !in d :: Within(q, p) && d1[q].isDir
    ensures DiskWrites.Put(d, d1, p, d1[p])
  {
    forall q | q in d1 && q !in d && q != p ensures Below(q, p) {
      WithinCases(q, p);
    }
  }

  // ---- the disk half of a move ---------------------------------------------------------------

  /** A directory at the destination goes first. */
  function Emptied(d: Files, dst: Path): Files {
    if dst in d && d[dst].isDir then RemoveAll(d, dst) else d
  }

  lemma EmptiedClosed(d: Files, dst: Path)
    requires Closed(d)
    ensures Closed(Emptied(d, dst))
  {
    RemoveAllClosed(d, dst);
  }

  /** If the destination existed, its parent needs no creating. */
  lemma ParentStays(d: Files, dst: Path, attrs: Path -> Stat)
    requires Closed(d) && dst in d
    ensures MkdirAll(Emptied(d, dst), Parent(dst), attrs) == Some(Emptied(d, dst))
  {
    WithinCases(dst, Parent(dst));
  }

  lemma SourceGone(d: Files, src: Path, dst: Path)
    requires Closed(d) && src in d && Below(dst, src) && dst != []
    ensures dst in d && src !in Emptied(d, dst) && dst !in Emptied(d, dst)
  {
    ClosedAbove(d, dst, src);
    WithinCases(dst, src);
    WithinCases(dst, dst);
  }

  /** A rename that fails leaves catalogue and disk in step, unless the source went with the destination. */
  lemma RenameFails(items: Items, d: Files, d2: Files, src: Path, dst: Path, attrs: Path -> Stat)
    requires InStep(items, d) && Closed(d) && src in d && dst != [] && IsPath(dst) && !Within(src, dst)
    requires MkdirAll(Emptied(d, dst), Parent(dst), attrs) == Some(d2) && Rename(d2, src, dst).None?
    ensures InStep(items, d2) <==> !Below(dst, src)
  {
    EmptiedClosed(d, dst);
    assert IsPath(Parent(dst));
    MkdirAllMakes(Emptied(d, dst), Parent(dst), attrs);
    if Below(dst, src) {
      SourceGone(d, src, dst);
      ParentStays(d, dst, attrs);
    } else {
      WithinCases(dst, src);
      assert dst in d by {
        WithinCases(dst, Parent(dst));
      }
      ParentStays(d, dst, attrs);
      WithinCases(dst, dst);
      assert d2 == d;
    }
  }

  lemma NotMade(d: Files, src: Path, dst: Path, attrs: Path -> Stat)
    requires Closed(d) && src in d && dst != [] && MkdirAll(Emptied(d, dst), Parent(dst), attrs).None?
    ensures Emptied(d, dst) == d && !Below(dst, src)
  {
    if dst in d {
      ParentStays(d, dst, attrs);
    }
    if Below(dst, src) {
      SourceGone(d, src, dst);
    }
  }

  lemma RenameSucceeds(d: Files, d2: Files, src: Path, dst: Path, attrs: Path -> Stat)
    requires Closed(d) && src in d && dst != [] && IsPath(dst) && !Within(src, dst)
    requires MkdirAll(Emptied(d, dst), Parent(dst), attrs) == Some(d2) && Rename(d2, src, dst).Some?
    ensures !Within(dst, src) && ReadyFor(d, d2, src, dst)
  {
    EmptiedClosed(d, dst);
    assert IsPath(Parent(dst));
    MkdirAllMakes(Emptied(d, dst), Parent(dst), attrs);
    WithinCases(dst, src);
    if Below(dst, src) {
      SourceGone(d, src, dst);
      ParentStays(d, dst, attrs);
    }
    WithinCases(src, dst);
    forall q | q in d2 && !Within(dst, q) && q !in d ensures Below(q, dst) && d2[q].isDir {
      WithinCases(q, dst);
    }
  }

  /** The disk after a move: everything in the source is in the destination, what was there is gone,
      nothing else changed, but for directories made above the destination. */
  predicate Carries(d: Files, d3: Files, src: Path, dst: Path) {
    && (forall q | q in d && Within(src, q) && !Within(dst, q) :: Rebase(q, src, dst) in d3 && d3[Rebase(q, src, dst)] == d[q])
    && (forall q | q in d && !Within(src, q) && !Within(dst, q) :: q in d3 && d3[q] == d[q])
    && (forall p | p in d3 && Within(dst, p) :: Rebase(p, dst, src) in d)
    && (forall p | p in d3 && !Within(dst, p) :: !Within(src, p) && (p in d || (Below(p, dst) && d3[p].isDir)))
  }

  lemma RenamedCarries(d: Files, d2: Files, src: Path, dst: Path)
    requires ReadyFor(d, d2, src, dst)
    ensures Carries(d, Renamed(d2, src, dst), src, dst)
  {
    var d3 := Renamed(d2, src, dst);
    forall q | q in d && !Within(dst, q) ensures Shift(q, src, dst) in d3 && d3[Shift(q, src, dst)] == d[q] {
      ShiftBack(d2, src, dst, q);
    }
    forall p | p in d3
      ensures if Within(dst, p) then Rebase(p, dst, src) in d else !Within(src, p) && (p in d || (Below(p, dst) && d3[p].isDir))
    {
      CarriedFrom(d, d2, src, dst, p);
    }
  }

  lemma CarriedFrom(d: Files, d2: Files, src: Path, dst: Path, p: Path)
    requires ReadyFor(d, d2, src, dst) && p in Renamed(d2, src, dst)
    ensures if Within(dst, p) then Rebase(p, dst, src) in d
            else !Within(src, p) && (p in d || (Below(p, dst) && Renamed(d2, src, dst)[p].isDir))
  {
    var q := RenamedFrom(d2, src, dst, p);
    ShiftBack(d2, src, dst, q);
    if Within(src, q) {
      assert Within(dst, p) && Rebase(p, dst, src) == src + q[|src|..] == q;
      if q !in d {
        NotWithinMoved(src, dst, q);
      }
    }
  }

  /** Whether the file system carries out an admitted move: the directories above the destination can
      be made, the source is not in the destination, and no directory is to replace a file. */
  predicate CanRename(d: Files, src: Path, dst: Path, attrs: Path -> Stat)
    requires dst != []
  {
    && MkdirAll(Emptied(d, dst), Parent(dst), attrs).Some? && !Below(dst, src)
    && !(dst in d && !d[dst].isDir && src in d && d[src].isDir)
  }

  lemma RenameIff(d: Files, d2: Files, src: Path, dst: Path, attrs: Path -> Stat)
    requires Closed(d) && src in d && dst != [] && IsPath(dst) && !Within(src, dst)
    requires MkdirAll(Emptied(d, dst), Parent(dst), attrs) == Some(d2)
    ensures Rename(d2, src, dst).Some? <==> CanRename(d, src, dst, attrs)
  {
    EmptiedClosed(d, dst);
    assert IsPath(Parent(dst));
    MkdirAllMakes(Emptied(d, dst), Parent(dst), attrs);
    if Below(dst, src) {
      SourceGone(d, src, dst);
      ParentStays(d, dst, attrs);
    } else {
      WithinCases(dst, src);
      WithinCases(dst, dst);
      WithinCases(dst, Parent(dst));
    }
  }

  class FileApi {
    const index: Index
    const mounts: set<Name>
    var disk: Files

    constructor (index: Index, mounts: set<Name>, disk: Files)
      ensures this.index == index && this.mounts == mounts && this.disk == disk
    {
      this.index, this.mounts, this.disk := index, mounts, disk;
    }

    ghost predicate Ok()
      reads this, index
    {
      History.Valid(index.State()) && Closed(disk)
    }

    /** Catalogue and disk agree on paths, kinds, and sizes and times of files. */
    ghost predicate Mirrors()
      reads this, index
    {
      InStep(index.items, disk)
    }

    predicate InShare(p: Path)
      reads this
    {
      p != [] && [p[0]] in disk && disk[[p[0]]].isDir && p[0] in mounts
    }

    /** The handler's checks before it writes a file. */
    ghost predicate PutAdmitted(p: Path, overwrite: bool, ifMatch: Option<(int, int)>, r: Request)
      reads this
    {
      && InShare(p) && r.mayWrite(p)
      && (if p in disk then !disk[p].isDir && overwrite && (ifMatch.None? || ifMatch.value == (disk[p].size, disk[p].mtime))
          else ifMatch.None?)
      && MkdirAll(disk, Parent(p), r.attrs).Some?
    }

    /** Writes a whole file.  `body` is None if the upload was interrupted; `ifMatch` is the
        size and time an If-Match header asks for.  The catalogue stays in step with the disk if and
        only if the call is not interrupted after it has created directories. */
    method Put(p: Path, overwrite: bool, ifMatch: Option<(int, int)>, body: Option<Stat>, r: Request) returns (status: Status)
      requires Ok() && Mirrors() && IsPath(p)
      requires body.Some? ==> !body.value.isDir
      modifies this`disk, index
      ensures Ok()
      ensures status == Done ==> Mirrors() && p in disk && body.Some? && disk[p] == body.value
      ensures status == Done ==> p != [] && p[0] in mounts && r.mayWrite(p)
      ensures status == Done ==> forall q | q in old(disk) && q != p :: q in disk && disk[q] == old(disk)[q]
      ensures status == Done ==> forall q | q in disk && q !in old(disk) && q != p :: Below(q, p) && disk[q].isDir
      ensures status != Done ==> index.State() == old(index.State())
      ensures status == Done <==> old(PutAdmitted(p, overwrite, ifMatch, r)) && body.Some?
      ensures Mirrors() <==> !(old(PutAdmitted(p, overwrite, ifMatch, r)) && body.None? && !IsDirectory(old(disk), Parent(p)))
    {
      if p == [] { return BadRequest; }
      if !InShare(p) { return NotFound; }
      if !r.mayWrite(p) { return Forbidden; }
      if p in disk {
        if disk[p].isDir || !overwrite { return Conflict; }
        if ifMatch.Some? && ifMatch.value != (disk[p].size, disk[p].mtime) { return PreconditionFailed; }
      } else if ifMatch.Some? {
        return PreconditionFailed;
      }
      ghost var before := disk;
      var made := MkdirAll(disk, Parent(p), r.attrs);
      if made.None? { return NotFound; }
      assert IsPath(Parent(p));
      MkdirAllMakes(disk, Parent(p), r.attrs);
      disk := made.value;
      if body.None? {
        CreatedDirs(index.items, before, disk, Parent(p), r.attrs);
        return BadRequest;
      }
      WithinParent(before, disk, p);
      MadeIsPut(before, disk, p, body.value);
      disk := disk[p := body.value];
      UpsertInStep(index.State(), before, disk, p, body.value, r.now);
      var id := index.Upsert(p, AsObserved(p, body.value), r.now);
      status := Done;
    }

    /** Makes a directory: with `parents`, unless a file is in the way; else in a directory that is
        there, under a name that is not. */
    method Mkdir(p: Path, parents: bool, r: Request) returns (status: Status)
      requires Ok() && Mirrors() && IsPath(p)
      modifies this`disk, index
      ensures Ok() && Mirrors()
      ensures status == Done <==>
                && |p| > 1 && p[0] in mounts && IsDirectory(old(disk), [p[0]]) && r.mayWrite(p)
                && if parents then !FileInTheWay(old(disk), p) else p !in old(disk) && IsDirectory(old(disk), Parent(p))
      ensures status == Done ==> p in disk && disk[p].isDir
      ensures status == Done ==> forall q | q in old(disk) :: q in disk && disk[q] == old(disk)[q]
      ensures status == Done ==> forall q | q in disk && q !in old(disk) :: Within(q, p) && disk[q].isDir
      ensures status != Done ==> disk == old(disk) && index.State() == old(index.State())
    {
      if p == [] { return Conflict; }
      if |p| == 1 { return Forbidden; }
      if !InShare(p) { return NotFound; }
      if !r.mayWrite(p) { return Forbidden; }
      ghost var before := disk;
      if parents {
        MkdirAllWorks(disk, p, r.attrs);
        var made := MkdirAll(disk, p, r.attrs);
        if made.None? { return Conflict; }
        MkdirAllMakes(disk, p, r.attrs);
        disk := made.value;
      } else {
        if p in disk { return Conflict; }
        if !(Parent(p) in disk && disk[Parent(p)].isDir) { return NotFound; }
        AddDirClosed(disk, p, r.attrs(p).(isDir := true));
        disk := disk[p := r.attrs(p).(isDir := true)];
      }
      DirIsPut(before, disk, p);
      UpsertInStep(index.State(), before, disk, p, disk[p], r.now);
      var id := index.Upsert(p, AsObserved(p, disk[p]), r.now);
      status := Done;
    }

    /** Removes a file or directory.  The catalogue stays in step with the disk if and only if nothing
        on disk differs from what is removed by the case of a directory name. */
    method Delete(p: Path, recursive: bool, r: Request) returns (status: Status)
      requires Ok() && Mirrors() && IsPath(p)
      modifies this`disk, index
      ensures Ok()
      ensures status == Done <==>
                && |p| > 1 && r.mayWrite(p) && p in old(disk)
                && (recursive || !old(disk)[p].isDir || forall q | q in old(disk) :: !Below(p, q))
      ensures status == Conflict <==>
                && |p| > 1 && r.mayWrite(p) && p in old(disk)
                && !recursive && old(disk)[p].isDir && exists q :: q in old(disk) && Below(p, q)
      ensures status == Done ==> disk == RemoveAll(old(disk), p)
      ensures Mirrors() <==> status != Done || LikeStaysBelow(old(disk), p)
      ensures status != Done ==> disk == old(disk) && index.State() == old(index.State())
    {
      if p == [] { return BadRequest; }
      if |p| == 1 { return Forbidden; }
      if !r.mayWrite(p) { return Forbidden; }
      if p !in disk { return NotFound; }
      if disk[p].isDir && !recursive && exists q :: q in disk && Below(p, q) { return Conflict; }
      DeleteInStep(index.State(), disk, p, r.now);
      disk := RemoveAll(disk, p);
      index.Delete(p, r.now);
      status := Done;
    }

    /** The checks before a move. */
    method ResolvePair(src: Path, dst: Path, overwrite: bool, r: Request) returns (status: Status)
      requires Closed(disk)
      ensures status == Done ==> src in disk && |src| > 1 && |dst| > 1 && !Within(src, dst) && (dst in disk ==> overwrite)
      ensures status == Done ==> dst[0] in mounts && r.mayWrite(src) && r.mayWrite(dst)
      ensures status == Done <==> Admitted(src, dst, overwrite, r)
    {
      if src == [] || dst == [] { return BadRequest; }
      if |src| == 1 || |dst| == 1 { return Forbidden; }
      if !InShare(dst) { return NotFound; }
      WithinCases(src, dst);
      if dst == src || Below(src, dst) { return BadRequest; }
      if !r.mayWrite(src) || !r.mayWrite(dst) { return Forbidden; }
      if src !in disk { return NotFound; }
      if dst in disk && !overwrite { return Conflict; }
      status := Done;
    }

    predicate Admitted(src: Path, dst: Path, overwrite: bool, r: Request)
      reads this
    {
      && |src| > 1 && |dst| > 1 && InShare(dst) && !Within(src, dst) && r.mayWrite(src) && r.mayWrite(dst)
      && src in disk && (dst in disk ==> overwrite)
    }

    /** Moves a file or directory.  The catalogue falls out of step with the disk if and only if the
        call overwrites a directory that contains the source, which removes both and then fails, or
        the file system carries the move out and the LIKEs of the index find something they are not
        meant to find. */
    method Move(src: Path, dst: Path, overwrite: bool, r: Request) returns (status: Status)
      requires Ok() && Mirrors() && IsPath(src) && IsPath(dst)
      modifies this`disk, index
      ensures Closed(disk) && (Mirrors() ==> Ok())
      ensures status == Done ==> dst in disk && !Within(dst, src)
      ensures status == Done ==> Carries(old(disk), disk, src, dst)
      ensures status == Done <==> old(Admitted(src, dst, overwrite, r)) && CanRename(old(disk), src, dst, r.attrs)
      ensures status != Done ==> index.State() == old(index.State())
      ensures Mirrors() <==> !(old(Admitted(src, dst, overwrite, r))
                               && (Below(dst, src)
                                   || (CanRename(old(disk), src, dst, r.attrs) && !MoveFits(old(disk), src, dst))))
    {
      status := ResolvePair(src, dst, overwrite, r);
      if status == Done {
        status := MoveAdmitted(src, dst, overwrite, r);
      }
    }

    method MoveAdmitted(src: Path, dst: Path, overwrite: bool, r: Request) returns (status: Status)
      requires Ok() && Mirrors() && IsPath(src) && IsPath(dst) && Admitted(src, dst, overwrite, r)
      modifies this`disk, index
      ensures Closed(disk) && (Mirrors() ==> Ok())
      ensures status == Done ==> dst in disk && !Within(dst, src)
      ensures status == Done ==> Carries(old(disk), disk, src, dst)
      ensures status == Done <==> CanRename(old(disk), src, dst, r.attrs)
      ensures status != Done ==> index.State() == old(index.State())
      ensures Mirrors() <==> !(Below(dst, src) || (CanRename(old(disk), src, dst, r.attrs) && !MoveFits(old(disk), src, dst)))
    {
      ghost var before := disk;
      ghost var d2;
      var ok;
      ok, d2 := RenameOnDisk(src, dst, overwrite, r);
      if !ok { return NotFound; }
      MoveInIndex(before, d2, src, dst, r.now);
      WithinCases(dst, src);
      RenamedCarries(before, d2, src, dst);
      status := Done;
    }

    /** The file system's half; if it fails, only a source inside the destination is lost. */
    method RenameOnDisk(src: Path, dst: Path, overwrite: bool, r: Request) returns (ok: bool, ghost d2: Files)
      requires Ok() && Mirrors() && IsPath(src) && IsPath(dst) && Admitted(src, dst, overwrite, r)
      modifies this`disk
      ensures Closed(disk)
      ensures ok <==> CanRename(old(disk), src, dst, r.attrs)
      ensures ok ==> ReadyFor(old(disk), d2, src, dst) && !Within(dst, src) && disk == Renamed(d2, src, dst)
      ensures !ok ==> (Mirrors() <==> !Below(dst, src))
    {
      ghost var before := disk;
      d2 := before;
      if overwrite && dst in disk && disk[dst].isDir {
        disk := RemoveAll(disk, dst);
      }
      assert disk == Emptied(before, dst);
      EmptiedClosed(before, dst);
      assert IsPath(Parent(dst));
      var made := MkdirAll(disk, Parent(dst), r.attrs);
      if made.None? {
        NotMade(before, src, dst, r.attrs);
        return false, d2;
      }
      MkdirAllMakes(disk, Parent(dst), r.attrs);
      disk := made.value;
      d2 := disk;
      RenameIff(before, disk, src, dst, r.attrs);
      var renamed := Rename(disk, src, dst);
      if renamed.None? {
        RenameFails(index.items, before, disk, src, dst, r.attrs);
        return false, d2;
      }
      RenameSucceeds(before, disk, src, dst, r.attrs);
      RenamedClosed(before, disk, src, dst);
      disk := renamed.value;
      ok := true;
    }

    /** The index's half: move the rows, then store the attributes found at the destination. */
    method MoveInIndex(ghost before: Files, ghost d2: Files, src: Path, dst: Path, now: int)
      requires History.Valid(index.State()) && InStep(index.items, before) && ReadyFor(before, d2, src, dst)
      requires src in before && IsPath(dst) && !Within(dst, src) && disk == Renamed(d2, src, dst)
      modifies index
      ensures Closed(disk) && dst in disk
      ensures Mirrors() <==> MoveFits(before, src, dst)
      ensures Mirrors() ==> Ok()
    {
      assert src != [];
      MoveInStep(index.State(), before, d2, src, dst, now);
      var accepted := index.Move(src, dst, now);
      var id := index.Upsert(dst, AsObserved(dst, disk[dst]), now);
    }
  }
}
