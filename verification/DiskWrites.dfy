/** The file-system calls behind the write handlers, and the catalogue updates that keep it
    in step with them. */
module DiskWrites {
  import opened Paths
  import opened SqlLike
  import opened Catalogue
  import opened TreeInvariant
  import opened History
  import opened Writes
  import opened Disk

  // ---- the file system -------------------------------------------------------------------

  predicate Closed(d: Files) {
    forall p | p in d :: p != [] && IsPath(p) && IsDirectory(d, Parent(p))
  }

  /** os.MkdirAll; `attrs` supplies the attributes of created directories.  None is an error,
      and then nothing was created. */
  function MkdirAll(d: Files, p: Path, attrs: Path -> Stat): Option<Files>
    decreases |p|
  {
    if p == [] then Some(d)
    else if p in d then (if d[p].isDir then Some(d) else None)
    else
      match MkdirAll(d, Parent(p), attrs)
      case None => None
      case Some(d1) => Some(d1[p := attrs(p).(isDir := true)])
  }

  /** A file is at the path or above it. */
  predicate FileInTheWay(d: Files, p: Path) {
    exists q :: q in d && Within(q, p) && !d[q].isDir
  }

  lemma {:induction false} MkdirAllWorks(d: Files, p: Path, attrs: Path -> Stat)
    requires Closed(d)
    ensures MkdirAll(d, p, attrs).Some? <==> !FileInTheWay(d, p)
    decreases |p|
  {
    WithinCases(p, p);
    if p == [] {
      forall q | q in d ensures !Within(q, p) {
      }
    } else if p in d {
      forall q | q in d && Within(q, p) && q != p ensures d[q].isDir {
        WithinCases(q, p);
        ClosedAbove(d, q, p);
      }
    } else {
      MkdirAllWorks(d, Parent(p), attrs);
      forall q | q in d ensures Within(q, p) <==> Within(q, Parent(p)) {
        WithinCases(q, p);
      }
    }
  }

  function RemoveAll(d: Files, p: Path): Files {
    map q | q in d && !Within(p, q) :: d[q]
  }

  /** os.Rename within one device, onto nothing or a file over a file.  None is an error. */
  function Rename(d: Files, src: Path, dst: Path): Option<Files> {
    if src !in d || dst == [] || !IsDirectory(d, Parent(dst)) || Within(src, dst)
       || (dst in d && (d[dst].isDir || d[src].isDir)) then None
    else Some(Renamed(d, src, dst))
  }

  function Renamed(d: Files, src: Path, dst: Path): Files {
    map p | p in set q | q in d && !Within(dst, q) :: Shift(q, src, dst)
      :: if Within(dst, p) && Rebase(p, dst, src) in d then d[Rebase(p, dst, src)]
         else if p in d then d[p] else Stat(false, 0, 0, 0, 0)
  }

  lemma ShiftBack(d: Files, src: Path, dst: Path, q: Path)
    requires q in d && !Within(dst, q) && !Within(src, dst)
    ensures var p := Shift(q, src, dst); p in Renamed(d, src, dst) && Renamed(d, src, dst)[p] == d[q]
  {
    var p := Shift(q, src, dst);
    if Within(src, q) {
      assert Rebase(p, dst, src) == q by {
        assert q == src + q[|src|..] && p == dst + q[|src|..];
      }
    }
  }

  lemma RenamedFrom(d: Files, src: Path, dst: Path, p: Path) returns (q: Path)
    requires p in Renamed(d, src, dst)
    ensures q in d && !Within(dst, q) && p == Shift(q, src, dst)
  {
    q :| q in d && !Within(dst, q) && p == Shift(q, src, dst);
  }

  lemma MkdirMakes(d: Files, d1: Files, p: Path, s: Stat)
    requires p != [] && IsPath(p) && p !in d && s.isDir && Closed(d1) && IsDirectory(d1, Parent(p))
    requires forall q | q in d :: q in d1 && d1[q] == d[q]
    requires forall q | q in d1 && q !in d :: Within(q, Parent(p)) && d1[q].isDir
    ensures var d2 := d1[p := s];
            && Closed(d2) && (forall q | q in d :: q in d2 && d2[q] == d[q])
            && (forall q | q in d2 && q !in d :: Within(q, p) && d2[q].isDir)
  {
    forall q | q in d1 && q !in d ensures Within(q, p) {
      WithinCases(q, p);
    }
    WithinCases(p, p);
  }

  lemma {:induction false} MkdirAllMakes(d: Files, p: Path, attrs: Path -> Stat)
    requires Closed(d) && IsPath(p) && MkdirAll(d, p, attrs).Some?
    ensures var d1 := MkdirAll(d, p, attrs).value;
            && Closed(d1) && IsDirectory(d1, p)
            && (forall q | q in d :: q in d1 && d1[q] == d[q])
            && (forall q | q in d1 && q !in d :: Within(q, p) && d1[q].isDir)
    decreases |p|
  {
    if p != [] && p !in d {
      MkdirAllMakes(d, Parent(p), attrs);
      MkdirMakes(d, MkdirAll(d, Parent(p), attrs).value, p, attrs(p).(isDir := true));
    }
  }

  lemma {:induction false} ClosedAbove(d: Files, a: Path, p: Path)
    requires Closed(d) && ((IsDirectory(d, p) && Within(a, p)) || (p in d && Below(a, p)))
    ensures IsDirectory(d, a)
    decreases |p|
  {
    WithinCases(a, p);
    if a != p {
      ClosedAbove(d, a, Parent(p));
    }
  }

  // ---- catalogue and disk -------------------------------------------------------------------

  /** What write-through maintains: the same paths and kinds, and for files size and time. */
  predicate SameFile(r: Row, s: Stat) {
    r.isDir == s.isDir && (!s.isDir ==> r.size == s.size && r.mtime == s.mtime)
  }

  ghost predicate InStep(items: Items, d: Files) {
    && (forall i | i in items :: items[i].path in d && SameFile(items[i], d[items[i].path]))
    && (forall p | p in d :: Indexed(items, p))
  }

  function AsObserved(p: Path, s: Stat): Observed
    requires p != []
  {
    ObservedAt(Base(p), s)
  }

  /** The disk gets p with attributes s, and directories above p that were missing. */
  ghost predicate Put(d: Files, d1: Files, p: Path, s: Stat) {
    && Closed(d1) && p in d1 && d1[p] == s
    && (forall q | q in d && q != p :: q in d1 && d1[q] == d[q])
    && (forall q | q in d1 && q !in d && q != p :: Below(q, p) && d1[q].isDir)
  }

  lemma UpsertInStep(c: Cat, d: Files, d1: Files, p: Path, s: Stat, now: int)
    requires Valid(c) && InStep(c.items, d) && p != [] && IsPath(p) && Put(d, d1, p, s)
    ensures var c1 := Upsert(c, p, AsObserved(p, s), now).0;
            Valid(c1) && InStep(c1.items, d1)
  {
    var (c1, id) := Upsert(c, p, AsObserved(p, s), now);
    UpsertStep(c, p, AsObserved(p, s), now);
    forall i | i in c1.items ensures c1.items[i].path in d1 && SameFile(c1.items[i], d1[c1.items[i].path]) {
      UpsertedRow(c, c1, id, d, d1, p, s, i);
    }
    forall q | q in d1 ensures Indexed(c1.items, q) {
      UpsertedPath(c, c1, id, d, d1, p, s, q);
    }
  }

  lemma UpsertedRow(c: Cat, c1: Cat, id: Id, d: Files, d1: Files, p: Path, s: Stat, i: Id)
    requires Valid(c) && Valid(c1) && InStep(c.items, d) && Put(d, d1, p, s)
    requires RowUpserted(c, c1, id, p, AsObserved(p, s)) && i in c1.items
    ensures c1.items[i].path in d1 && SameFile(c1.items[i], d1[c1.items[i].path])
  {
    if i != id {
      if i in c.items {
        assert c1.items[i].path != c1.items[id].path;
      } else {
        ClosedAbove(d1, c1.items[i].path, p);
      }
    }
  }

  lemma UpsertedPath(c: Cat, c1: Cat, id: Id, d: Files, d1: Files, p: Path, s: Stat, q: Path)
    requires Valid(c) && Valid(c1) && InStep(c.items, d) && Put(d, d1, p, s)
    requires RowUpserted(c, c1, id, p, AsObserved(p, s)) && q in d1
    ensures Indexed(c1.items, q)
  {
    if q != p {
      if q in d {
        var i :| i in c.items && c.items[i].path == q;
        OtherRowKept(c, c1, id, p, AsObserved(p, s), i);
      } else {
        AncestorIndexed(c1.items, p, |q|);
      }
    }
  }

  lemma OtherRowKept(c: Cat, c1: Cat, id: Id, p: Path, o: Observed, i: Id)
    requires RowUpserted(c, c1, id, p, o) && p != [] && i in c.items && c.items[i].path != p
    ensures i in c1.items && c1.items[i] == c.items[i]
  {
  }

  /** Nothing on disk differs from what is below p by the case of a name above it. */
  ghost predicate LikeStaysBelow(d: Files, p: Path) {
    forall q | q in d && Selects(p, q) :: Below(p, q)
  }

  lemma DeletedRow(c: Cat, d: Files, p: Path, now: int, i: Id)
    requires Valid(c) && InStep(c.items, d) && p in d && p != [] && i in c.items
    ensures var c1 := Delete(c, p, now);
            if c.items[i].path == p || Selects(p, c.items[i].path) then i !in c1.items
            else i in c1.items && c1.items[i] == c.items[i]
  {
    DeleteStep(c, p, now);
    if c.items[i].path == p {
      IdIs(c.items, i, p);
    }
  }

  /** Catalogue and disk are in step after a deletion if and only if the LIKE selects nothing on disk
      outside the subtree. */
  lemma DeleteInStep(c: Cat, d: Files, p: Path, now: int)
    requires Valid(c) && Closed(d) && InStep(c.items, d) && p in d
    ensures Valid(Delete(c, p, now)) && Closed(RemoveAll(d, p))
    ensures InStep(Delete(c, p, now).items, RemoveAll(d, p)) <==> LikeStaysBelow(d, p)
  {
    DeleteStep(c, p, now);
    RemoveAllClosed(d, p);
    if LikeStaysBelow(d, p) {
      DeleteSelectsBelow(c, d, p, now);
    } else {
      var q :| q in d && Selects(p, q) && !Below(p, q);
      SelectsNotItself(p);
      WithinCases(p, q);
      var i :| i in c.items && c.items[i].path == q;
      DeletedRow(c, d, p, now, i);
      DeletedPath(c, d, p, now, i);
    }
  }

  /** For example, deleting /s/foo takes the row of /s/FOO/x with it. */
  lemma DeleteSweepsVariant(s: Stat)
    requires s.isDir
    ensures var d := map[["s"] := s, ["s", "foo"] := s, ["s", "FOO"] := s, ["s", "FOO", "x"] := s];
            Closed(d) && !LikeStaysBelow(d, ["s", "foo"])
  {
    VariantSelects("x");
    assert Parent(["s", "foo"]) == ["s"] && Parent(["s", "FOO"]) == ["s"] && Parent(["s", "FOO", "x"]) == ["s", "FOO"];
  }

  /** No other row takes the path of a deleted one. */
  lemma DeletedPath(c: Cat, d: Files, p: Path, now: int, i: Id)
    requires Valid(c) && InStep(c.items, d) && p in d && p != [] && i in c.items && i !in Delete(c, p, now).items
    ensures !Indexed(Delete(c, p, now).items, c.items[i].path)
  {
    DeleteStep(c, p, now);
    assert forall j | j in Delete(c, p, now).items :: j in c.items && Delete(c, p, now).items[j] == c.items[j];
  }

  lemma DeleteSelectsBelow(c: Cat, d: Files, p: Path, now: int)
    requires Valid(c) && Closed(d) && InStep(c.items, d) && p in d && LikeStaysBelow(d, p)
    ensures InStep(Delete(c, p, now).items, RemoveAll(d, p))
  {
    var c1, d1 := Delete(c, p, now), RemoveAll(d, p);
    DeleteStep(c, p, now);
    forall i | i in c.items
      ensures if Within(p, c.items[i].path) then i !in c1.items else i in c1.items && c1.items[i] == c.items[i]
    {
      WithinCases(p, c.items[i].path);
      BelowSelects(p, c.items[i].path);
      DeletedRow(c, d, p, now, i);
    }
    forall i | i in c1.items ensures i in c.items {
    }
    forall q | q in d1 ensures Indexed(c1.items, q) {
      var i :| i in c.items && c.items[i].path == q;
      assert c1.items[i] == c.items[i];
    }
  }

  lemma RemoveAllClosed(d: Files, p: Path)
    requires Closed(d)
    ensures Closed(RemoveAll(d, p))
  {
    forall q | q in d && !Within(p, q) ensures IsDirectory(RemoveAll(d, p), Parent(q)) {
      WithinCases(p, q);
    }
  }

  // ---- moving ---------------------------------------------------------------------------------

  /** The disk before the rename: at most dst is gone, and directories above dst are there. */
  ghost predicate ReadyFor(d: Files, d2: Files, src: Path, dst: Path) {
    && Closed(d) && Closed(d2) && src in d2 && dst != [] && IsDirectory(d2, Parent(dst)) && !Within(src, dst)
    && (forall q | q in d && !Within(dst, q) :: q in d2 && d2[q] == d[q])
    && (forall q | q in d2 && !Within(dst, q) && q !in d :: Below(q, dst) && d2[q].isDir)
  }

  lemma PlaceholderOnDisk(d: Files, d2: Files, src: Path, dst: Path, q: Path)
    requires ReadyFor(d, d2, src, dst) && Below(q, dst) && q != []
    ensures var d3 := Renamed(d2, src, dst); q in d3 && d3[q].isDir
  {
    WithinCases(q, dst);
    ClosedAbove(d2, q, Parent(dst));
    NotWithinMoved(src, dst, q);
    ShiftBack(d2, src, dst, q);
  }

  lemma NotWithinMoved(src: Path, dst: Path, q: Path)
    requires Below(q, dst) && !Within(src, dst)
    ensures !Within(src, q) && !Within(dst, q)
  {
    if Within(src, q) {
      WithinCases(q, dst);
      WithinTrans(src, q, dst);
    }
  }

  lemma {:induction false} RenamedClosed(d: Files, d2: Files, src: Path, dst: Path)
    requires ReadyFor(d, d2, src, dst) && IsPath(dst)
    ensures Closed(Renamed(d2, src, dst))
  {
    var d3 := Renamed(d2, src, dst);
    forall p | p in d3 ensures p != [] && IsPath(p) && IsDirectory(d3, Parent(p)) {
      var q := RenamedFrom(d2, src, dst, p);
      RenamedParent(d, d2, src, dst, q);
    }
  }

  lemma RenamedParent(d: Files, d2: Files, src: Path, dst: Path, q: Path)
    requires ReadyFor(d, d2, src, dst) && IsPath(dst) && q in d2 && !Within(dst, q)
    ensures var p := Shift(q, src, dst); p != [] && IsPath(p) && IsDirectory(Renamed(d2, src, dst), Parent(p))
  {
    WithinCases(dst, q);
    if q == src {
      assert Shift(q, src, dst) == dst;
      if Parent(dst) != [] {
        WithinCases(Parent(dst), dst);
        WithinCases(Parent(dst), Parent(dst));
        NotWithinMoved(src, dst, Parent(dst));
        ShiftBack(d2, src, dst, Parent(dst));
      }
    } else {
      ShiftParent(q, src, dst);
      if Parent(q) == [] {
        WithinCases(src, q);
        assert Within(src, []) ==> src == [];
      } else {
        ShiftBack(d2, src, dst, Parent(q));
      }
    }
  }
}
