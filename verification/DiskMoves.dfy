/** Whether a move leaves the catalogue in step with the disk. */
module DiskMoves {
  import opened Paths
  import opened SqlLike
  import opened Catalogue
  import opened TreeInvariant
  import opened History
  import opened Writes
  import opened Disk
  import opened DiskWrites

  // ---- the move transaction, row by row -----------------------------------------------------------

  /** Where the two updates take a path that has not been cleared away. */
  function TriedPath(r: Path, src: Path, dst: Path): Path {
    var r1 := if r == src then dst else r;
    if Selects(src, r1) then Rebase(r1, src, dst) else r1
  }

  ghost predicate ClearedAway(items: Items, src: Path, dst: Path, r: Path) {
    Occupied(items, src, dst) && (r == dst || Selects(dst, r))
  }

  predicate SameStat(r: Row, r': Row) {
    r.isDir == r'.isDir && r.size == r'.size && r.mtime == r'.mtime
  }

  /** The table once the move has been tried. */
  ghost predicate Tried(c: Cat, t: Items, src: Path, dst: Path) {
    && (forall i | i in c.items ::
          if ClearedAway(c.items, src, dst, c.items[i].path) then i !in t
          else i in t && t[i].path == TriedPath(c.items[i].path, src, dst) && SameStat(t[i], c.items[i]))
    && (forall i | i in t && i !in c.items :: AddedAbove(c, t[i], src, dst))
  }

  /** The row was added for a directory above the destination. */
  ghost predicate AddedAbove(c: Cat, r: Row, src: Path, dst: Path) {
    r.isDir && exists p :: p != [] && Below(p, dst) && !Indexed(c.items, p) && r.path == TriedPath(p, src, dst)
  }

  predicate FreshIds(c: Cat) {
    forall i | i in c.items :: i.Minted? && i.n < c.minted
  }

  lemma AllRelocated(items: Items, id: Id, src: Path, dst: Path, newParent: Id)
    requires dst != [] && forall i | i in items :: i == id <==> items[i].path == src
    ensures var after := Relocate(items, id, src, dst, newParent);
            after.Keys == items.Keys
            && forall i | i in items :: after[i].path == TriedPath(items[i].path, src, dst) && SameStat(after[i], items[i])
  {
  }

  lemma MoveIsTried(c: Cat, src: Path, dst: Path, now: int)
    requires Valid(c) && src != [] && dst != [] && IsPath(dst) && Indexed(c.items, src)
    ensures Tried(c, MoveTried(c, src, dst, now).items, src, dst) && FreshIds(MoveTried(c, src, dst, now))
  {
    var e, id := EnsurePath(c, Parent(dst)), IdAt(c.items, src);
    assert IsPath(Parent(dst));
    EnsurePathStep(c, Parent(dst));
    EnsuredOccupied(c, e, src, dst);
    ClearedStep(e, id, src, dst, now);
    MoveTriedIs(c, src, dst, now);
    var b, t := Cleared(e, id, dst, now), MoveTried(c, src, dst, now);
    assert e.items[id].path == src;
    AllRelocated(b.items, id, src, dst, IdAt(e.items, Parent(dst)));
    forall i | i in t.items && i !in c.items ensures AddedAbove(c, t.items[i], src, dst) {
      PlaceholderAbove(c, e, dst, i);
      NotThereBefore(c, e, i);
    }
  }

  lemma NotThereBefore(c: Cat, e: Cat, i: Id)
    requires Valid(e) && (forall j | j in c.items :: j in e.items && e.items[j] == c.items[j]) && i in e.items && i !in c.items
    ensures !Indexed(c.items, e.items[i].path)
  {
  }

  /** What is not within the destination is where it was. */
  lemma TriedStays(r: Path, src: Path, dst: Path, q: Path)
    requires TriedPath(r, src, dst) == q && !Within(dst, q)
    ensures r == q && r != src && !Selects(src, r)
  {
    assert Within(dst, dst);
    assert Within(dst, Rebase(dst, src, dst)) && Within(dst, Rebase(r, src, dst));
  }

  // ---- and the upsert that follows it ------------------------------------------------------------------

  lemma {:induction false} EnsurePathAdds(c: Cat, dir: Path)
    requires FreshIds(c)
    ensures var e := EnsurePath(c, dir);
            && FreshIds(e) && (forall i | i in c.items :: i in e.items && e.items[i] == c.items[i])
            && (forall i | i in e.items && i !in c.items :: Within(e.items[i].path, dir))
    decreases |dir|
  {
    if dir != [] {
      EnsurePathAdds(c, Parent(dir));
      var e1 := EnsurePath(c, Parent(dir));
      forall i | i in e1.items && i !in c.items ensures Within(e1.items[i].path, dir) {
        WithinCases(e1.items[i].path, dir);
      }
      WithinCases(dir, dir);
    }
  }

  /** An upsert removes no row, and adds none but for the path and directories above it. */
  lemma UpsertAdds(c: Cat, p: Path, o: Observed, now: int)
    requires FreshIds(c) && p != []
    ensures var u := Upsert(c, p, o, now).0.items;
            && (forall i | i in c.items :: i in u && u[i].path == c.items[i].path)
            && (forall i | i in u && i !in c.items :: Within(u[i].path, p))
  {
    EnsurePathAdds(c, Parent(p));
    var e := EnsurePath(c, Parent(p));
    forall i | i in e.items && i !in c.items ensures Within(e.items[i].path, p) {
      WithinCases(e.items[i].path, p);
    }
    WithinCases(p, p);
  }

  /** Which differences between catalogue and disk no upsert repairs. */
  lemma OutOfStep(c: Cat, d: Files, p: Path, o: Observed, now: int)
    requires FreshIds(c) && p != []
    requires (exists i :: i in c.items && c.items[i].path !in d) || (exists q :: q in d && !Indexed(c.items, q) && !Within(q, p))
    ensures !InStep(Upsert(c, p, o, now).0.items, d)
  {
    UpsertAdds(c, p, o, now);
    var u := Upsert(c, p, o, now).0.items;
    if i :| i in c.items && c.items[i].path !in d {
      assert i in u && u[i].path !in d;
    } else {
      var q :| q in d && !Indexed(c.items, q) && !Within(q, p);
      assert !Indexed(u, q);
    }
  }

  // ---- the condition ---------------------------------------------------------------------------------

  /** The LIKEs of a move find on disk only what they are meant to find: not the destination, nothing
      beside the source, and, if there is something at the destination, nothing beside that either,
      except for the source alone. */
  ghost predicate MoveFits(d: Files, src: Path, dst: Path) {
    && !Selects(src, dst)
    && (forall q | q in d && Selects(src, q) :: Below(src, q) || Below(dst, q))
    && (dst in d ==> forall q | q in d && Selects(dst, q) :: Below(dst, q) || q == src)
  }

  lemma OnDiskOccupied(c: Cat, d: Files, src: Path, dst: Path, r: Path)
    requires Valid(c) && Closed(d) && InStep(c.items, d) && src != dst && dst != [] && IsPath(dst)
    requires r in d && (r == dst || Below(dst, r))
    ensures dst in d && ClearedAway(c.items, src, dst, r)
  {
    if r != dst {
      ClosedAbove(d, dst, r);
      BelowSelects(dst, r);
    }
  }

  lemma FitsIsSafe(c: Cat, d: Files, src: Path, dst: Path)
    requires Valid(c) && Closed(d) && InStep(c.items, d) && src != dst && dst != [] && IsPath(dst)
    requires !Selects(src, dst) && forall q | q in d && Selects(src, q) :: Below(src, q) || Below(dst, q)
    ensures MoveSafe(c.items, src, dst)
  {
    forall i | i in c.items && Selects(src, c.items[i].path)
      ensures Below(src, c.items[i].path) || (Occupied(c.items, src, dst) && Selects(dst, c.items[i].path))
    {
      if Below(dst, c.items[i].path) {
        OnDiskOccupied(c, d, src, dst, c.items[i].path);
        SelectsNotItself(dst);
      }
    }
  }

  // ---- if it does not hold ------------------------------------------------------------------------------

  /** The situation of a move that the file system has carried out. */
  ghost predicate Carried(c: Cat, d: Files, d2: Files, src: Path, dst: Path) {
    && Valid(c) && InStep(c.items, d) && ReadyFor(d, d2, src, dst)
    && src in d && IsPath(dst) && !Within(dst, src)
  }

  lemma SourceLeft(c: Cat, d: Files, d2: Files, src: Path, dst: Path)
    requires Carried(c, d, d2, src, dst)
    ensures src !in Renamed(d2, src, dst)
  {
    if src in Renamed(d2, src, dst) {
      var q := RenamedFrom(d2, src, dst, src);
      assert Within(src, src);
    }
  }

  /** A refused move leaves the row of the source where nothing is any more. */
  lemma RefusedIsOut(c: Cat, d: Files, d2: Files, src: Path, dst: Path, o: Observed, now: int)
    requires Carried(c, d, d2, src, dst) && !MoveAccepted(c, src, dst, now)
    ensures !InStep(Upsert(Move(c, src, dst, now), dst, o, now).0.items, Renamed(d2, src, dst))
  {
    var e := EnsurePath(c, Parent(dst));
    assert IsPath(Parent(dst));
    EnsurePathStep(c, Parent(dst));
    SourceLeft(c, d, d2, src, dst);
    var i :| i in c.items && c.items[i].path == src;
    assert i in e.items && e.items[i].path !in Renamed(d2, src, dst);
    OutOfStep(e, Renamed(d2, src, dst), dst, o, now);
  }

  /** What is on disk, not within the destination, is where it was. */
  lemma KeptOnDisk(d: Files, d2: Files, src: Path, dst: Path, q: Path)
    requires ReadyFor(d, d2, src, dst) && q in d && !Within(dst, q)
    ensures var p := Shift(q, src, dst); p in Renamed(d2, src, dst) && Renamed(d2, src, dst)[p] == d[q]
  {
    ShiftBack(d2, src, dst, q);
  }

  /** The path S would have had the LIKE not selected the moved row itself. */
  lemma TwiceMovedIsNowhere(d: Files, d2: Files, src: Path, dst: Path)
    requires ReadyFor(d, d2, src, dst) && |src| < |dst| && (src + dst[|src|..]) !in d
    ensures Rebase(dst, src, dst) !in Renamed(d2, src, dst)
  {
    if Rebase(dst, src, dst) in Renamed(d2, src, dst) {
      var q := RenamedFrom(d2, src, dst, Rebase(dst, src, dst));
      WouldBe(src, dst, q);
    }
  }

  lemma WouldBe(src: Path, dst: Path, q: Path)
    requires |src| < |dst| && !Within(dst, q) && Shift(q, src, dst) == Rebase(dst, src, dst)
    ensures q == src + dst[|src|..] && |q| == |dst|
  {
    assert Within(dst, Rebase(dst, src, dst));
    SameTail(dst, q[|src|..], dst[|src|..]);
    assert q == q[..|src|] + q[|src|..];
  }

  lemma SameTail(a: Path, x: Path, y: Path)
    requires a + x == a + y
    ensures x == y
  {
    assert x == (a + x)[|a|..] && y == (a + y)[|a|..];
  }

  lemma OvertakenIsOut(c: Cat, d: Files, d2: Files, src: Path, dst: Path, o: Observed, now: int)
    requires Carried(c, d, d2, src, dst) && Selects(src, dst) && MoveAccepted(c, src, dst, now)
    ensures !InStep(Upsert(Move(c, src, dst, now), dst, o, now).0.items, Renamed(d2, src, dst))
  {
    var t := MoveTried(c, src, dst, now);
    MoveIsTried(c, src, dst, now);
    var i :| i in c.items && c.items[i].path == src;
    BelowSelects(src, dst);
    SameLengthNotSelected(dst, src);
    assert t.items[i].path == Rebase(dst, src, dst);
    var s := src + dst[|src|..];
    if s in d {
      var k := TwoAtOnePath(c, t.items, d, src, dst);
    }
    TwiceMovedIsNowhere(d, d2, src, dst);
    OutOfStep(t, Renamed(d2, src, dst), dst, o, now);
  }

  lemma TwoAtOnePath(c: Cat, t: Items, d: Files, src: Path, dst: Path) returns (k: Id)
    requires Valid(c) && Closed(d) && InStep(c.items, d) && Tried(c, t, src, dst)
    requires src in d && IsPath(dst) && dst != [] && |src| < |dst| && !Within(src, dst) && (src + dst[|src|..]) in d
    ensures k in t && k in c.items && c.items[k].path != src && t[k].path == Rebase(dst, src, dst)
  {
    var s := src + dst[|src|..];
    k :| k in c.items && c.items[k].path == s;
    assert s[..|src|] == src && s[|src|..] == dst[|src|..];
    assert s != dst by {
      assert Within(src, s);
    }
    BelowSelects(src, s);
    SameLengthNotSelected(dst, s);
  }

  /** A path beside the source that the LIKE selects loses its row. */
  lemma BesideIsOut(c: Cat, d: Files, d2: Files, src: Path, dst: Path, q: Path, o: Observed, now: int)
    requires Carried(c, d, d2, src, dst) && !Selects(src, dst) && MoveAccepted(c, src, dst, now)
    requires q in d && Selects(src, q) && !Below(src, q) && !Below(dst, q)
    ensures !InStep(Upsert(Move(c, src, dst, now), dst, o, now).0.items, Renamed(d2, src, dst))
  {
    var t := MoveTried(c, src, dst, now);
    MoveIsTried(c, src, dst, now);
    SelectsNotItself(src);
    WithinCases(src, q);
    WithinCases(dst, q);
    KeptOnDisk(d, d2, src, dst, q);
    forall i | i in t.items ensures t.items[i].path != q {
      if t.items[i].path == q {
        TriedAt(c, t.items, src, dst, q, i);
      }
    }
    assert !Within(q, dst) by {
      SelectsTrans(src, q, dst);
    }
    OutOfStep(t, Renamed(d2, src, dst), dst, o, now);
  }

  /** Whose row is at a path not within the destination. */
  lemma TriedAt(c: Cat, t: Items, src: Path, dst: Path, q: Path, i: Id)
    requires Tried(c, t, src, dst) && i in t && t[i].path == q && !Within(dst, q) && Indexed(c.items, q)
    ensures i in c.items && c.items[i].path == q && !Selects(src, q)
  {
    if i in c.items {
      TriedStays(c.items[i].path, src, dst, q);
    } else {
      var p :| p != [] && Below(p, dst) && !Indexed(c.items, p) && t[i].path == TriedPath(p, src, dst);
      TriedStays(p, src, dst, q);
    }
  }

  /** A path beside the destination that goes with it. */
  lemma SweptIsOut(c: Cat, d: Files, d2: Files, src: Path, dst: Path, q: Path, o: Observed, now: int)
    requires Carried(c, d, d2, src, dst) && !Selects(src, dst) && MoveAccepted(c, src, dst, now)
    requires forall r | r in d && Selects(src, r) :: Below(src, r) || Below(dst, r)
    requires dst in d && q in d && Selects(dst, q) && !Below(dst, q) && q != src
    ensures !InStep(Upsert(Move(c, src, dst, now), dst, o, now).0.items, Renamed(d2, src, dst))
  {
    var t := MoveTried(c, src, dst, now);
    MoveIsTried(c, src, dst, now);
    SelectsNotItself(dst);
    WithinCases(dst, q);
    KeptOnDisk(d, d2, src, dst, q);
    var p := Shift(q, src, dst);
    forall i | i in t.items ensures t.items[i].path != p {
      if t.items[i].path == p {
        NoneForSwept(c, t.items, d, src, dst, q, i);
      }
    }
    BelowSelects(dst, q);
    assert |p| > |dst| by {
      WithinCases(src, q);
    }
    OutOfStep(t, Renamed(d2, src, dst), dst, o, now);
  }

  lemma NoneForSwept(c: Cat, t: Items, d: Files, src: Path, dst: Path, q: Path, i: Id)
    requires Valid(c) && Closed(d) && InStep(c.items, d) && Tried(c, t, src, dst) && dst != [] && IsPath(dst) && src != dst
    requires !Selects(src, dst) && forall r | r in d && Selects(src, r) :: Below(src, r) || Below(dst, r)
    requires dst in d && q in d && Selects(dst, q) && !Within(dst, q) && q != src && i in t
    ensures t[i].path != Shift(q, src, dst)
  {
    assert ClearedAway(c.items, src, dst, q);
    if Within(src, q) {
      WithinCases(src, q);
      NoneBelow(c, t, d, src, dst, q, i);
    } else if t[i].path == q {
      TriedAt(c, t, src, dst, q, i);
    }
  }

  lemma NoneBelow(c: Cat, t: Items, d: Files, src: Path, dst: Path, q: Path, i: Id)
    requires Valid(c) && Closed(d) && InStep(c.items, d) && Tried(c, t, src, dst) && dst != [] && IsPath(dst) && src != dst
    requires !Selects(src, dst) && forall r | r in d && Selects(src, r) :: Below(src, r) || Below(dst, r)
    requires dst in d && q in d && Below(src, q) && ClearedAway(c.items, src, dst, q) && i in t
    ensures t[i].path != Rebase(q, src, dst)
  {
    var p := Rebase(q, src, dst);
    if i in c.items {
      var r := c.items[i].path;
      if r == src {
        assert TriedPath(r, src, dst) == dst && |p| > |dst|;
      } else if r in d && Below(dst, r) {
        OnDiskOccupied(c, d, src, dst, r);
      } else if Selects(src, r) {
        RebaseApart(r, q, src, dst);
      } else {
        assert Below(dst, p);
      }
    } else {
      var r :| r != [] && Below(r, dst) && !Indexed(c.items, r) && t[i].path == TriedPath(r, src, dst);
      ClosedAbove(d, r, dst);
    }
  }

  lemma RebaseApart(r: Path, q: Path, src: Path, dst: Path)
    requires Below(src, r) && Below(src, q)
    ensures Rebase(r, src, dst) == Rebase(q, src, dst) ==> r == q
  {
    if Rebase(r, src, dst) == Rebase(q, src, dst) {
      SameTail(dst, r[|src|..], q[|src|..]);
      assert r == src + r[|src|..] && q == src + q[|src|..];
    }
  }

  // ---- if it holds -----------------------------------------------------------------------------------------

  /** The disk without the destination, if its row is lost with those the clearing selects. */
  ghost function ShownAfter(d: Files, d3: Files, src: Path, dst: Path): Files {
    if dst in d && Selects(dst, src) then d3 - {dst} else d3
  }

  lemma FittingRow(c: Cat, d: Files, d2: Files, t: Items, src: Path, dst: Path, i: Id)
    requires Carried(c, d, d2, src, dst) && MoveFits(d, src, dst) && Tried(c, t, src, dst) && i in t && i in c.items
    ensures var dx := ShownAfter(d, Renamed(d2, src, dst), src, dst);
            t[i].path in dx && SameFile(t[i], dx[t[i].path])
  {
    var r := c.items[i].path;
    WithinCases(dst, r);
    if Within(dst, r) {
      OnDiskOccupied(c, d, src, dst, r);
    }
    KeptOnDisk(d, d2, src, dst, r);
    FittingPath(d, src, dst, r);
    LostSource(c, d, src, dst);
  }

  lemma LostSource(c: Cat, d: Files, src: Path, dst: Path)
    requires InStep(c.items, d) && src != dst
    ensures dst in d && Selects(dst, src) ==> ClearedAway(c.items, src, dst, src)
  {
  }

  lemma FittingPath(d: Files, src: Path, dst: Path, r: Path)
    requires MoveFits(d, src, dst) && r in d && !Within(dst, r) && IsPath(r) && IsPath(src) && src != []
    ensures TriedPath(r, src, dst) == Shift(r, src, dst)
    ensures r != src ==> Shift(r, src, dst) != dst
  {
    WithinCases(src, r);
    BelowSelects(src, r);
    WithinCases(dst, r);
    assert Within(src, src) && Shift(src, src, dst) == dst;
  }

  lemma FittingPlaceholder(c: Cat, d: Files, d2: Files, r: Row, src: Path, dst: Path)
    requires ReadyFor(d, d2, src, dst) && !Selects(src, dst) && IsPath(dst) && IsPath(src) && src != []
    requires AddedAbove(c, r, src, dst)
    ensures var dx := ShownAfter(d, Renamed(d2, src, dst), src, dst);
            r.path in dx && SameFile(r, dx[r.path])
  {
    var p :| p != [] && Below(p, dst) && !Indexed(c.items, p) && r.path == TriedPath(p, src, dst);
    AboveIsUntouched(src, dst, p);
    PlaceholderOnDisk(d, d2, src, dst, p);
  }

  lemma AboveIsUntouched(src: Path, dst: Path, r: Path)
    requires IsPath(dst) && IsPath(src) && src != [] && r != [] && Below(r, dst) && !Within(src, dst) && !Selects(src, dst)
    ensures TriedPath(r, src, dst) == r && r != dst
  {
    WithinCases(r, dst);
    assert IsPath(r);
    SelectsTrans(src, r, dst);
  }

  lemma FittingDisk(c: Cat, d: Files, d2: Files, t: Cat, src: Path, dst: Path, p: Path)
    requires Carried(c, d, d2, src, dst) && MoveFits(d, src, dst) && Tried(c, t.items, src, dst) && Valid(t)
    requires p in ShownAfter(d, Renamed(d2, src, dst), src, dst)
    ensures Indexed(t.items, p)
  {
    var q := ShownFrom(d, d2, src, dst, p);
    if q in d {
      KeptIsIndexed(c, d, t, src, dst, q);
    } else {
      MadeIsIndexed(c, d, t, src, dst, q);
    }
  }

  /** Where a path on disk comes from. */
  lemma ShownFrom(d: Files, d2: Files, src: Path, dst: Path, p: Path) returns (q: Path)
    requires ReadyFor(d, d2, src, dst) && p in ShownAfter(d, Renamed(d2, src, dst), src, dst)
    ensures p == Shift(q, src, dst) && !Within(dst, q)
    ensures q in d ==> !(dst in d && Selects(dst, src) && q == src)
    ensures q !in d ==> p == q && q != [] && Below(q, dst)
  {
    q := RenamedFrom(d2, src, dst, p);
    assert Shift(src, src, dst) == dst;
    if q !in d {
      NotWithinMoved(src, dst, q);
    }
  }

  lemma KeptIsIndexed(c: Cat, d: Files, t: Cat, src: Path, dst: Path, q: Path)
    requires Valid(c) && InStep(c.items, d) && MoveFits(d, src, dst) && Tried(c, t.items, src, dst) && src in d && src != dst
    requires q in d && !Within(dst, q) && !(dst in d && Selects(dst, src) && q == src)
    ensures Indexed(t.items, Shift(q, src, dst))
  {
    var k :| k in c.items && c.items[k].path == src;
    assert RowOk(c.items, k);
    var i :| i in c.items && c.items[i].path == q;
    assert RowOk(c.items, i);
    FittingPath(d, src, dst, q);
    WithinCases(dst, q);
    NotCleared(c, d, src, dst, q);
    assert t.items[i].path == Shift(q, src, dst);
  }

  lemma NotCleared(c: Cat, d: Files, src: Path, dst: Path, q: Path)
    requires InStep(c.items, d) && MoveFits(d, src, dst) && q in d && q != dst && !Below(dst, q)
    requires !(dst in d && Selects(dst, src) && q == src)
    ensures !ClearedAway(c.items, src, dst, q)
  {
  }

  /** A directory that was created above the destination. */
  lemma MadeIsIndexed(c: Cat, d: Files, t: Cat, src: Path, dst: Path, q: Path)
    requires Valid(c) && Closed(d) && InStep(c.items, d) && MoveFits(d, src, dst) && Tried(c, t.items, src, dst) && Valid(t)
    requires src in d && q !in d && q != [] && Below(q, dst)
    ensures Indexed(t.items, q)
  {
    if dst in d {
      ClosedAbove(d, q, dst);
    }
    var i :| i in c.items && c.items[i].path == src;
    assert t.items[i].path == dst;
    AncestorIndexed(t.items, dst, |q|);
  }

  lemma FittingMove(c: Cat, d: Files, d2: Files, src: Path, dst: Path, now: int)
    requires Carried(c, d, d2, src, dst) && MoveFits(d, src, dst)
    ensures var m := Move(c, src, dst, now);
            Valid(m) && InStep(m.items, ShownAfter(d, Renamed(d2, src, dst), src, dst))
  {
    FitsIsSafe(c, d, src, dst);
    MoveStep(c, src, dst, now);
    MoveIsTried(c, src, dst, now);
    var m, dx := Move(c, src, dst, now), ShownAfter(d, Renamed(d2, src, dst), src, dst);
    forall i | i in m.items ensures m.items[i].path in dx && SameFile(m.items[i], dx[m.items[i].path]) {
      if i in c.items {
        FittingRow(c, d, d2, m.items, src, dst, i);
      } else {
        FittingPlaceholder(c, d, d2, m.items[i], src, dst);
      }
    }
    forall p | p in dx ensures Indexed(m.items, p) {
      FittingDisk(c, d, d2, m, src, dst, p);
    }
  }

  lemma DestinationPut(d: Files, d2: Files, src: Path, dst: Path)
    requires ReadyFor(d, d2, src, dst) && IsPath(dst) && !Within(dst, src)
    ensures var d3 := Renamed(d2, src, dst);
            Closed(d3) && dst in d3 && Put(ShownAfter(d, d3, src, dst), d3, dst, d3[dst])
  {
    RenamedClosed(d, d2, src, dst);
    ShiftBack(d2, src, dst, src);
    assert Shift(src, src, dst) == dst;
  }

  /** After the move and the upsert of the destination, catalogue and disk are in step if and only if
      the LIKEs found what they were meant to find. */
  lemma MoveInStep(c: Cat, d: Files, d2: Files, src: Path, dst: Path, now: int)
    requires Carried(c, d, d2, src, dst)
    ensures var d3 := Renamed(d2, src, dst);
            && Closed(d3) && dst in d3
            && var c2 := Upsert(Move(c, src, dst, now), dst, AsObserved(dst, d3[dst]), now).0;
               && (InStep(c2.items, d3) <==> MoveFits(d, src, dst))
               && (InStep(c2.items, d3) ==> Valid(c2))
  {
    var d3 := Renamed(d2, src, dst);
    DestinationPut(d, d2, src, dst);
    if MoveFits(d, src, dst) {
      FittingMove(c, d, d2, src, dst, now);
      UpsertInStep(Move(c, src, dst, now), ShownAfter(d, d3, src, dst), d3, dst, d3[dst], now);
    } else {
      MisfitIsOut(c, d, d2, src, dst, AsObserved(dst, d3[dst]), now);
    }
  }

  lemma MisfitIsOut(c: Cat, d: Files, d2: Files, src: Path, dst: Path, o: Observed, now: int)
    requires Carried(c, d, d2, src, dst) && !MoveFits(d, src, dst)
    ensures !InStep(Upsert(Move(c, src, dst, now), dst, o, now).0.items, Renamed(d2, src, dst))
  {
    if !MoveAccepted(c, src, dst, now) {
      RefusedIsOut(c, d, d2, src, dst, o, now);
    } else if Selects(src, dst) {
      OvertakenIsOut(c, d, d2, src, dst, o, now);
    } else if q :| q in d && Selects(src, q) && !Below(src, q) && !Below(dst, q) {
      BesideIsOut(c, d, d2, src, dst, q, o, now);
    } else {
      var q :| q in d && Selects(dst, q) && !Below(dst, q) && q != src;
      SweptIsOut(c, d, d2, src, dst, q, o, now);
    }
  }
}
