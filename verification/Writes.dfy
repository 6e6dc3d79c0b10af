/** The write transactions of the API: Upsert, Delete and Move. */
module Writes {
  import opened Paths
  import opened SqlLike
  import opened Catalogue
  import opened TreeInvariant
  import opened History

  // ---- Upsert ---------------------------------------------------------------------

  predicate Records(r: Row, o: Observed) {
    r.isDir == o.isDir && r.size == o.size && r.mtime == o.mtime && r.ino == o.ino && r.dev == o.dev
  }

  /** p now has a row with the observed attributes, under the id it had if it had one; all
      other rows are untouched, and rows that appear besides are placeholders above p. */
  ghost predicate RowUpserted(c: Cat, c1: Cat, id: Id, p: Path, o: Observed) {
    && id in c1.items && c1.items[id].path == p && Records(c1.items[id], o)
    && (Indexed(c.items, p) ==> id == IdAt(c.items, p))
    && (!Indexed(c.items, p) ==> id !in c.items)
    && c.items.Keys <= c1.items.Keys
    && (forall i | i in c.items && i != id :: c1.items[i] == c.items[i])
    && (forall i | i in c1.items && i !in c.items && i != id ::
          IsPlaceholder(c1.items[i]) && Below(c1.items[i].path, p))
  }

  lemma SetStatKeeps(items: Items, id: Id, o: Observed)
    requires Tree(items)
    ensures Tree(SetStat(items, id, o)) && SetStat(items, id, o).Keys == items.Keys
    ensures forall i | i in items && i != id :: SetStat(items, id, o)[i] == items[i]
  {
    SameShapeKeepsTree(items, SetStat(items, id, o));
  }

  lemma WithinParentIsBelow(a: Path, p: Path)
    requires p != [] && Within(a, Parent(p))
    ensures Below(a, p)
  {
    WithinCases(a, p);
  }

  lemma UpdateStep(c: Cat, id: Id, p: Path, o: Observed, now: int)
    requires Valid(c) && id in c.items && c.items[id].path == p
    ensures var c1 := Journal(c.(items := SetStat(c.items, id, o)), Kind.Upserted, id, p, [], now);
            Valid(c1) && Evolves(c, c1, {}) && RowUpserted(c, c1, id, p, o)
  {
    SetStatKeeps(c.items, id, o);
    JournalStep(c, SetStat(c.items, id, o), c.minted, Kind.Upserted, id, p, [], now);
    IdIs(c.items, id, p);
  }

  lemma InsertStep(c: Cat, p: Path, o: Observed, now: int)
    requires Valid(c) && IsPath(p) && p != [] && !Indexed(c.items, p)
    requires Parent(p) == [] || Indexed(c.items, Parent(p))
    ensures var row := RowFor(IdAt(c.items, Parent(p)), p, o);
            var c1 := Journal(InsertRow(c, row), Kind.Upserted, Minted(c.minted), p, [], now);
            Valid(c1) && Evolves(c, c1, {}) && RowUpserted(c, c1, Minted(c.minted), p, o)
  {
    var id := Minted(c.minted);
    var row := RowFor(IdAt(c.items, Parent(p)), p, o);
    var items := c.items[id := row];
    assert Tree(items) by {
      InsertKeepsTree(c.items, id, row);
    }
    var c1 := Journal(InsertRow(c, row), Kind.Upserted, id, p, [], now);
    assert Valid(c1) && Evolves(c, c1, {}) by {
      JournalStep(c, items, c.minted + 1, Kind.Upserted, id, p, [], now);
    }
  }

  /** The second half of Upsert, once the parent is indexed. */
  lemma UpsertRow(c: Cat, p: Path, o: Observed, now: int)
    requires Valid(c) && IsPath(p) && p != []
    requires EnsurePath(c, Parent(p)) == c
    ensures var (c1, id) := Upsert(c, p, o, now);
            Valid(c1) && Evolves(c, c1, {}) && RowUpserted(c, c1, id, p, o)
  {
    if Indexed(c.items, p) {
      UpdateStep(c, IdAt(c.items, p), p, o, now);
    } else {
      InsertStep(c, p, o, now);
    }
  }

  lemma UpsertStep(c: Cat, p: Path, o: Observed, now: int)
    requires Valid(c) && IsPath(p)
    ensures var (c1, id) := Upsert(c, p, o, now);
            && Valid(c1) && Evolves(c, c1, Placeholders(c, c1) - {id})
            && (p != [] ==> RowUpserted(c, c1, id, p, o))
            && (p == [] ==> c1 == Journal(c, Kind.Upserted, Root, [], [], now))
  {
    var (c1, id) := Upsert(c, p, o, now);
    if p == [] {
      assert SetStat(c.items, Root, o) == c.items;
      JournalStep(c, c.items, c.minted, Kind.Upserted, Root, [], [], now);
      EvolvesMore(c, c1, {}, Placeholders(c, c1) - {id});
    } else {
      var c0 := EnsurePath(c, Parent(p));
      assert IsPath(Parent(p));
      EnsurePathStep(c, Parent(p));
      EnsureIndexed(c0, Parent(p));
      UpsertRow(c0, p, o, now);
      UpsertBoth(c, c0, c1, id, p, o, now);
    }
  }

  lemma UpsertBoth(c: Cat, c0: Cat, c1: Cat, id: Id, p: Path, o: Observed, now: int)
    requires Valid(c) && Valid(c0) && Valid(c1) && p != []
    requires Evolves(c, c0, Placeholders(c, c0)) && OnlyPlaceholders(c, c0, Parent(p))
    requires Evolves(c0, c1, {}) && RowUpserted(c0, c1, id, p, o)
    ensures Evolves(c, c1, Placeholders(c, c1) - {id}) && RowUpserted(c, c1, id, p, o)
  {
    forall i | i in c0.items && i !in c.items
      ensures Below(c0.items[i].path, p)
    {
      WithinParentIsBelow(c0.items[i].path, p);
    }
    EvolvesTrans(c, c0, c1, Placeholders(c, c0), {});
    if Indexed(c.items, p) {
      SameId(c.items, c0.items, p);
    }
    assert forall i | i in c0.items && c0.items[i].path == p :: i in c.items && c.items[i].path == p;
    EvolvesMore(c, c1, Placeholders(c, c0) + {}, Placeholders(c, c1) - {id});
  }

  // ---- Delete -----------------------------------------------------------------------

  lemma DeleteRoot(c: Cat, now: int)
    requires Valid(c)
    ensures Delete(c, [], now) == Journal(c, Deleted, Root, [], [], now)
    ensures Valid(Delete(c, [], now)) && Evolves(c, Delete(c, [], now), {})
  {
    forall i | i in c.items ensures !Selects([], c.items[i].path) {
      assert RowOk(c.items, i);
      SelectsIs([], c.items[i].path);
    }
    assert Subtree(c.items, []) == {};
    assert c.items - {Root} == c.items;
    JournalStep(c, c.items, c.minted, Deleted, Root, [], [], now);
  }

  /** Whatever the LIKE selects, a deletion leaves a tree and journals all that goes. */
  lemma DeleteStep(c: Cat, p: Path, now: int)
    requires Valid(c)
    ensures var c1 := Delete(c, p, now);
            && Valid(c1) && Evolves(c, c1, {})
            && (p == [] ==> c1 == Journal(c, Deleted, Root, [], [], now))
            && (p != [] && !Indexed(c.items, p) ==> c1 == c)
            && (Indexed(c.items, p) ==> SubtreeGone(c, c1, IdAt(c.items, p), p, now))
  {
    if p == [] {
      DeleteRoot(c, now);
    } else if Indexed(c.items, p) {
      DeleteSubtreeStep(c, IdAt(c.items, p), p, now);
    } else {
      EvolvesSelf(c);
    }
    assert forall i | i in c.items :: RowOk(c.items, i) && c.items[i].path != [];
  }

  /** In terms of the parent column: what goes is the row and everything that descends from it, if
      and only if the LIKE selects nothing outside the subtree. */
  lemma DeleteRemovesDescendants(c: Cat, p: Path, now: int)
    requires Valid(c) && Indexed(c.items, p)
    ensures var id, after := IdAt(c.items, p), Delete(c, p, now).items;
            (forall i | i in c.items :: i in after <==> i != id && !Descends(c.items, i, id)) <==> CaseSafe(c.items, p)
  {
    var j :| j in c.items && c.items[j].path == p;
    IdIs(c.items, j, p);
    DeleteStep(c, p, now);
    forall i | i in c.items ensures Descends(c.items, i, j) <==> Below(p, c.items[i].path) {
      DescendsIsBelow(c.items, i, j);
    }
    SelectsNotItself(p);
    SubtreeIfSafe(c.items, j, p);
  }

  /** The rows selected are those below if and only if nothing else is selected. */
  lemma SubtreeIfSafe(items: Items, j: Id, p: Path)
    requires Tree(items) && j in items && items[j].path == p
    ensures (forall i | i in items :: i in Subtree(items, p) <==> Below(p, items[i].path)) <==> CaseSafe(items, p)
  {
    assert RowOk(items, j);
    forall i | i in items ensures Below(p, items[i].path) ==> i in Subtree(items, p) {
      assert RowOk(items, i);
      BelowSelects(p, items[i].path);
    }
  }

  // ---- Move --------------------------------------------------------------------------

  /** Everything within dst is gone, everything within src hangs below dst under its old id,
      and nothing else changed except for placeholders above dst. */
  ghost predicate RowMoved(c: Cat, c1: Cat, id: Id, src: Path, dst: Path)
    requires dst != []
  {
    && (forall i | i in c.items ::
          var r := c.items[i];
          if src != dst && Within(dst, r.path) then i !in c1.items
          else i in c1.items
               && c1.items[i] == if i == id then r.(path := dst, name := Base(dst), parent := c1.items[i].parent)
                                 else r.(path := Shift(r.path, src, dst)))
    && (forall i | i in c1.items && i !in c.items :: IsPlaceholder(c1.items[i]) && Below(c1.items[i].path, dst))
  }

  lemma MovePathStep(c: Cat, id: Id, src: Path, dst: Path, now: int)
    requires Valid(c) && id in c.items && c.items[id].path == src
    requires dst != [] && IsPath(dst) && CaseSafe(c.items, src) && !Selects(src, dst)
    requires src == dst || !Indexed(c.items, dst)
    requires Parent(dst) == [] || Indexed(c.items, Parent(dst))
    ensures var newParent := IdAt(c.items, Parent(dst));
            var c1 := MovePath(c, id, src, dst, newParent, now);
            && Valid(c1) && Evolves(c, c1, {})
            && c1.items.Keys == c.items.Keys
            && forall i | i in c.items ::
                 c1.items[i] == if i == id then c.items[i].(path := dst, name := Base(dst), parent := newParent)
                                else c.items[i].(path := Shift(c.items[i].path, src, dst))
  {
    var newParent := IdAt(c.items, Parent(dst));
    RelocateKeepsTree(c.items, id, src, dst, newParent);
    var after := Relocate(c.items, id, src, dst, newParent);
    forall i | i in c.items
      ensures i in after && after[i] == if i == id then c.items[i].(path := dst, name := Base(dst), parent := newParent)
                                        else c.items[i].(path := Shift(c.items[i].path, src, dst))
    {
      RelocatedRow(c.items, id, src, dst, newParent, i);
    }
    RelocatedRow(c.items, id, src, dst, newParent, id);
    forall i | i != id ensures Seen(after, i) == Seen(c.items, i) {
    }
    JournalStep(c, after, c.minted, Moved, id, dst, src, now);
  }

  /** A move of a row that is no longer there only leaves its journal entry. */
  lemma MovePathOfNothing(c: Cat, id: Id, src: Path, dst: Path, newParent: Id, now: int)
    requires Valid(c) && id !in c.items && (id.Minted? ==> id.n < c.minted)
    requires dst != [] && forall i | i in c.items :: !Selects(src, c.items[i].path)
    ensures var c1 := MovePath(c, id, src, dst, newParent, now);
            Valid(c1) && Evolves(c, c1, {}) && c1.items == c.items
  {
    assert Relocate(c.items, id, src, dst, newParent) == c.items;
    JournalStep(c, c.items, c.minted, Moved, id, dst, src, now);
  }

  /** Another row is at the destination. */
  ghost predicate Occupied(items: Items, src: Path, dst: Path) {
    src != dst && Indexed(items, dst)
  }

  /** Clearing the destination. */
  ghost function Cleared(c: Cat, id: Id, dst: Path, now: int): Cat {
    if dst != [] && Indexed(c.items, dst) && IdAt(c.items, dst) != id
    then DeleteSubtree(c, IdAt(c.items, dst), dst, now) else c
  }

  lemma ClearedStep(c: Cat, id: Id, src: Path, dst: Path, now: int)
    requires Valid(c) && id in c.items && c.items[id].path == src && dst != []
    ensures var c1 := Cleared(c, id, dst, now);
            && Valid(c1) && Evolves(c, c1, {}) && c1.minted == c.minted
            && c1.items.Keys <= c.items.Keys
            && forall i | i in c.items ::
                 if Occupied(c.items, src, dst) && (c.items[i].path == dst || Selects(dst, c.items[i].path)) then i !in c1.items
                 else i in c1.items && c1.items[i] == c.items[i]
  {
    IdIs(c.items, id, src);
    if Indexed(c.items, dst) && IdAt(c.items, dst) != id {
      DeleteSubtreeStep(c, IdAt(c.items, dst), dst, now);
    } else {
      EvolvesSelf(c);
    }
  }

  lemma ClearedKeepsParent(c: Cat, id: Id, src: Path, dst: Path, now: int)
    requires Valid(c) && id in c.items && c.items[id].path == src && dst != [] && IsPath(dst)
    requires Parent(dst) == [] || Indexed(c.items, Parent(dst))
    ensures var c1 := Cleared(c, id, dst, now);
            && (Parent(dst) == [] || Indexed(c1.items, Parent(dst)))
            && IdAt(c1.items, Parent(dst)) == IdAt(c.items, Parent(dst))
            && (src != dst ==> !Indexed(c1.items, dst))
  {
    ClearedStep(c, id, src, dst, now);
    var c1 := Cleared(c, id, dst, now);
    if Parent(dst) != [] {
      var up := IdAt(c.items, Parent(dst));
      assert RowOk(c.items, up);
      SameLengthNotSelected(dst, Parent(dst));
      assert c1.items[up].path == Parent(dst);
      IdIs(c1.items, up, Parent(dst));
    }
  }

  /** A move that the LIKEs do not lead astray: they select nothing outside the source, except
      what goes with the destination, and not the destination itself. */
  ghost predicate MoveSafe(items: Items, src: Path, dst: Path) {
    && !Selects(src, dst)
    && forall i | i in items && Selects(src, items[i].path) ::
         Below(src, items[i].path) || (Occupied(items, src, dst) && Selects(dst, items[i].path))
  }

  /** Only what is within the source moves, and only what is within the destination goes. */
  ghost predicate MoveClean(items: Items, src: Path, dst: Path) {
    && !Selects(src, dst)
    && (forall i | i in items && Selects(src, items[i].path) :: Below(src, items[i].path) || Below(dst, items[i].path))
    && (Occupied(items, src, dst) ==> CaseSafe(items, dst))
  }

  lemma CleanIsSafe(items: Items, src: Path, dst: Path)
    requires Tree(items) && MoveClean(items, src, dst) && dst != [] && IsPath(dst)
    ensures MoveSafe(items, src, dst)
  {
    forall i | i in items && Selects(src, items[i].path)
      ensures Below(src, items[i].path) || (Occupied(items, src, dst) && Selects(dst, items[i].path))
    {
      assert RowOk(items, i);
      BelowSelects(dst, items[i].path);
      if Below(dst, items[i].path) && src != dst && !Indexed(items, dst) {
        NothingBelowUnindexed(items, dst, i);
      }
    }
  }

  /** After the clearing, the LIKE of the update selects the subtree alone. */
  lemma SafeAfterClearing(c: Cat, b: Cat, id: Id, src: Path, dst: Path, now: int)
    requires Valid(c) && id in c.items && c.items[id].path == src && dst != [] && b == Cleared(c, id, dst, now)
    ensures CaseSafe(b.items, src) && !Selects(src, dst) <==> MoveSafe(c.items, src, dst)
  {
    ClearedStep(c, id, src, dst, now);
  }

  lemma NothingLeftToMove(c: Cat, b: Cat, id: Id, src: Path, dst: Path, now: int)
    requires Valid(c) && id in c.items && c.items[id].path == src && dst != [] && IsPath(dst) && b == Cleared(c, id, dst, now)
    requires id !in b.items && CaseSafe(b.items, src)
    ensures forall i | i in b.items :: !Selects(src, b.items[i].path)
  {
    ClearedStep(c, id, src, dst, now);
    forall i | i in b.items ensures !Selects(src, b.items[i].path) {
      assert RowOk(b.items, i) && RowOk(c.items, id);
      if Below(src, b.items[i].path) {
        WithinCases(src, b.items[i].path);
        WithinCases(dst, b.items[i].path);
        SelectsTrans(dst, src, b.items[i].path);
      }
    }
  }

  ghost predicate MovedRows(b: Cat, c1: Cat, id: Id, src: Path, dst: Path)
    requires dst != []
  {
    && c1.items.Keys == b.items.Keys
    && forall i | i in b.items ::
         c1.items[i] == if i == id then b.items[i].(path := dst, name := Base(dst), parent := c1.items[i].parent)
                        else b.items[i].(path := Shift(b.items[i].path, src, dst))
  }

  lemma UnselectedStays(p: Path, src: Path, dst: Path)
    requires IsPath(p) && IsPath(src) && src != [] && !Selects(src, p) && p != src
    ensures Shift(p, src, dst) == p
  {
    WithinCases(src, p);
    BelowSelects(src, p);
  }

  lemma NothingMoved(b: Cat, c1: Cat, id: Id, src: Path, dst: Path)
    requires Tree(b.items) && IsPath(src) && src != [] && dst != [] && id !in b.items && c1.items == b.items
    requires forall i | i in b.items :: !Selects(src, b.items[i].path) && b.items[i].path != src
    ensures MovedRows(b, c1, id, src, dst)
  {
    forall i | i in b.items ensures Shift(b.items[i].path, src, dst) == b.items[i].path {
      assert RowOk(b.items, i);
      UnselectedStays(b.items[i].path, src, dst);
    }
  }

  /** Move, once the parent of the destination is indexed. */
  lemma MoveUnderIndexed(c: Cat, id: Id, src: Path, dst: Path, now: int) returns (b: Cat, c1: Cat)
    requires Valid(c) && id in c.items && c.items[id].path == src
    requires dst != [] && IsPath(dst) && MoveSafe(c.items, src, dst)
    requires Parent(dst) == [] || Indexed(c.items, Parent(dst))
    ensures b == Cleared(c, id, dst, now) && c1 == MovePath(b, id, src, dst, IdAt(c.items, Parent(dst)), now)
    ensures Valid(c1) && Evolves(c, c1, {}) && MovedRows(b, c1, id, src, dst)
  {
    b := Cleared(c, id, dst, now);
    ClearedStep(c, id, src, dst, now);
    ClearedKeepsParent(c, id, src, dst, now);
    SafeAfterClearing(c, b, id, src, dst, now);
    c1 := MovePath(b, id, src, dst, IdAt(c.items, Parent(dst)), now);
    assert RowOk(c.items, id);
    if id in b.items {
      MovePathStep(b, id, src, dst, now);
    } else {
      NothingLeftToMove(c, b, id, src, dst, now);
      MovePathOfNothing(b, id, src, dst, IdAt(c.items, Parent(dst)), now);
      IdIs(c.items, id, src);
      NothingMoved(b, c1, id, src, dst);
    }
    EvolvesTrans(c, b, c1, {}, {});
  }

  lemma BelowTrans(a: Path, b: Path, p: Path)
    requires Below(b, p)
    ensures Within(a, b) ==> Below(a, p)
  {
    assert |a| <= |b| ==> p[..|b|][..|a|] == p[..|a|];
  }

  lemma WithinTrans(a: Path, b: Path, p: Path)
    requires Within(a, b) && Within(b, p)
    ensures Within(a, p)
  {
    assert p[..|a|] == p[..|b|][..|a|];
  }

  // ---- ... with its placeholders -------------------------------------------------------------------

  /** A placeholder above the destination. */
  lemma PlaceholderAbove(c: Cat, b: Cat, dst: Path, i: Id)
    requires Valid(b) && dst != [] && OnlyPlaceholders(c, b, Parent(dst)) && i in b.items && i !in c.items
    ensures Below(b.items[i].path, dst) && IsPath(b.items[i].path) && b.items[i].path != []
  {
    assert RowOk(b.items, i);
    WithinParentIsBelow(b.items[i].path, dst);
  }

  lemma EnsuredOccupied(c: Cat, b: Cat, src: Path, dst: Path)
    requires Valid(c) && Valid(b) && dst != [] && OnlyPlaceholders(c, b, Parent(dst))
    ensures Occupied(b.items, src, dst) <==> Occupied(c.items, src, dst)
  {
    forall i | i in b.items && b.items[i].path == dst ensures i in c.items && c.items[i].path == dst {
      if i !in c.items {
        PlaceholderAbove(c, b, dst, i);
      }
    }
    forall i | i in c.items && c.items[i].path == dst ensures b.items[i].path == dst {
    }
  }

  /** Placeholders do not make a move unsafe, or safe. */
  lemma EnsuredSafe(c: Cat, b: Cat, src: Path, dst: Path)
    requires Valid(c) && Valid(b) && dst != [] && IsPath(dst) && IsPath(src) && src != []
    requires OnlyPlaceholders(c, b, Parent(dst))
    ensures MoveSafe(b.items, src, dst) <==> MoveSafe(c.items, src, dst)
  {
    EnsuredOccupied(c, b, src, dst);
    forall i | i in b.items && i !in c.items && !Selects(src, dst) ensures !Selects(src, b.items[i].path) {
      PlaceholderAbove(c, b, dst, i);
      WithinCases(b.items[i].path, dst);
      SelectsTrans(src, b.items[i].path, dst);
    }
    assert forall i | i in c.items :: b.items[i] == c.items[i];
  }

  /** Move keeps the catalogue valid and journals every changed fact, if the LIKEs stay within
      bounds; and then the update is not refused. */
  lemma MoveStep(c: Cat, src: Path, dst: Path, now: int)
    requires Valid(c) && src != [] && dst != [] && IsPath(dst)
    requires Indexed(c.items, src) ==> MoveSafe(c.items, src, dst)
    ensures var c1 := Move(c, src, dst, now);
            && Valid(c1) && Evolves(c, c1, Placeholders(c, c1))
            && c1 == MoveTried(c, src, dst, now)
            && (!Indexed(c.items, src) ==> c1 == c)
            && (forall i | i in c1.items && i !in c.items :: IsPlaceholder(c1.items[i]) && Below(c1.items[i].path, dst))
            && (Indexed(c.items, src) && MoveClean(c.items, src, dst) ==> RowMoved(c, c1, IdAt(c.items, src), src, dst))
  {
    if Indexed(c.items, src) {
      var id := IdAt(c.items, src);
      var e := EnsurePath(c, Parent(dst));
      assert IsPath(Parent(dst)) && RowOk(c.items, id);
      EnsurePathStep(c, Parent(dst));
      EnsuredSafe(c, e, src, dst);
      var b, c1 := MoveUnderIndexed(e, id, src, dst, now);
      MoveTriedIs(c, src, dst, now);
      MoveSilent(c, e, b, c1, id, src, dst, now);
      if MoveClean(c.items, src, dst) {
        MoveDoesAsSaid(c, e, b, c1, id, src, dst, now);
      }
    } else {
      EvolvesSelf(c);
    }
  }

  /** A placeholder is neither moved nor removed. */
  lemma PlaceholderKept(c: Cat, e: Cat, b: Cat, c1: Cat, id: Id, src: Path, dst: Path, now: int, i: Id)
    requires Valid(c) && Valid(e) && id in c.items && c.items[id].path == src && src != [] && dst != [] && IsPath(dst)
    requires OnlyPlaceholders(c, e, Parent(dst)) && MoveSafe(e.items, src, dst)
    requires b == Cleared(e, id, dst, now) && MovedRows(b, c1, id, src, dst)
    requires i in e.items && i !in c.items
    ensures i in c1.items && c1.items[i] == e.items[i]
  {
    PlaceholderAbove(c, e, dst, i);
    ClearedStep(e, id, src, dst, now);
    assert RowOk(c.items, id);
    SameLengthNotSelected(dst, e.items[i].path);
    WithinCases(e.items[i].path, dst);
    SelectsTrans(src, e.items[i].path, dst);
    assert e.items[i].path != src by {
      assert e.items[id].path == src;
    }
    UnselectedStays(e.items[i].path, src, dst);
  }

  lemma MoveSilent(c: Cat, e: Cat, b: Cat, c1: Cat, id: Id, src: Path, dst: Path, now: int)
    requires Valid(c) && Valid(e) && Valid(c1) && id in c.items && c.items[id].path == src && src != [] && dst != [] && IsPath(dst)
    requires OnlyPlaceholders(c, e, Parent(dst)) && Evolves(c, e, Placeholders(c, e)) && MoveSafe(e.items, src, dst)
    requires b == Cleared(e, id, dst, now) && MovedRows(b, c1, id, src, dst) && Evolves(e, c1, {})
    ensures Evolves(c, c1, Placeholders(c, c1))
    ensures forall i | i in c1.items && i !in c.items :: IsPlaceholder(c1.items[i]) && Below(c1.items[i].path, dst)
  {
    ClearedStep(e, id, src, dst, now);
    forall i | i in e.items && i !in c.items
      ensures i in c1.items && c1.items[i] == e.items[i] && IsPlaceholder(c1.items[i]) && Below(c1.items[i].path, dst)
    {
      PlaceholderKept(c, e, b, c1, id, src, dst, now, i);
      PlaceholderAbove(c, e, dst, i);
    }
    EvolvesTrans(c, e, c1, Placeholders(c, e), {});
    EvolvesMore(c, c1, Placeholders(c, e) + {}, Placeholders(c, c1));
  }

  /** A clean clearing removes what is within the destination. */
  lemma CleanClearing(e: Cat, b: Cat, id: Id, src: Path, dst: Path, now: int, i: Id)
    requires Valid(e) && id in e.items && e.items[id].path == src && dst != [] && IsPath(dst) && b == Cleared(e, id, dst, now)
    requires i in e.items && (Occupied(e.items, src, dst) && Selects(dst, e.items[i].path) ==> Below(dst, e.items[i].path))
    ensures if src != dst && Within(dst, e.items[i].path) then i !in b.items else i in b.items && b.items[i] == e.items[i]
  {
    ClearedStep(e, id, src, dst, now);
    assert RowOk(e.items, i);
    BelowSelects(dst, e.items[i].path);
    WithinCases(dst, e.items[i].path);
    if !Indexed(e.items, dst) {
      NothingBelowUnindexed(e.items, dst, i);
    }
  }

  lemma MoveDoesAsSaid(c: Cat, e: Cat, b: Cat, c1: Cat, id: Id, src: Path, dst: Path, now: int)
    requires Valid(c) && Valid(e) && id in c.items && c.items[id].path == src && dst != [] && IsPath(dst)
    requires OnlyPlaceholders(c, e, Parent(dst)) && MoveClean(c.items, src, dst)
    requires b == Cleared(e, id, dst, now) && MovedRows(b, c1, id, src, dst)
    requires forall i | i in c1.items && i !in c.items :: IsPlaceholder(c1.items[i]) && Below(c1.items[i].path, dst)
    ensures RowMoved(c, c1, id, src, dst)
  {
    EnsuredOccupied(c, e, src, dst);
    forall i | i in c.items
      ensures if src != dst && Within(dst, c.items[i].path) then i !in b.items else i in b.items && b.items[i] == c.items[i]
    {
      CleanClearing(e, b, id, src, dst, now, i);
    }
  }

  // ---- the condition is exactly right ---------------------------------------------------------------

  /** For an indexed source, the update is accepted and leaves a tree if and only if the LIKEs
      select neither the destination nor anything outside the source, except what goes with the
      destination.  In particular the destination must not be inside the source (fsapi.go:788),
      nor inside a case variant of it. */
  lemma MoveGuardIsExact(c: Cat, src: Path, dst: Path, now: int)
    requires Valid(c) && src != [] && dst != [] && IsPath(dst) && Indexed(c.items, src)
    ensures MoveAccepted(c, src, dst, now) && Tree(Move(c, src, dst, now).items) <==> MoveSafe(c.items, src, dst)
  {
    if MoveSafe(c.items, src, dst) {
      MoveStep(c, src, dst, now);
    } else {
      UnsafeBreaks(c, src, dst, now);
    }
  }

  /** For example, the handler admits a move of /s/foo to /s/FOO/bar. */
  lemma MoveIntoVariant(c: Cat, now: int)
    requires Valid(c) && Indexed(c.items, ["s", "foo"])
    ensures var src, dst := ["s", "foo"], ["s", "FOO", "bar"];
            !Within(src, dst) && !(MoveAccepted(c, src, dst, now) && Tree(Move(c, src, dst, now).items))
  {
    var src, dst: Path := ["s", "foo"], ["s", "FOO", "bar"];
    VariantSelects("bar");
    WithinCases(src, dst);
    assert IsPath(dst);
    MoveGuardIsExact(c, src, dst, now);
  }

  lemma MoveTriedIs(c: Cat, src: Path, dst: Path, now: int)
    requires src != [] && dst != [] && Indexed(c.items, src)
    ensures var e, id := EnsurePath(c, Parent(dst)), IdAt(c.items, src);
            MoveTried(c, src, dst, now) == MovePath(Cleared(e, id, dst, now), id, src, dst, IdAt(e.items, Parent(dst)), now)
  {
  }

  lemma UnsafeBreaks(c: Cat, src: Path, dst: Path, now: int)
    requires Valid(c) && src != [] && dst != [] && IsPath(dst) && Indexed(c.items, src) && !MoveSafe(c.items, src, dst)
    ensures !Tree(MoveTried(c, src, dst, now).items)
  {
    var id := IdAt(c.items, src);
    var e := EnsurePath(c, Parent(dst));
    assert IsPath(Parent(dst)) && RowOk(c.items, id);
    EnsurePathStep(c, Parent(dst));
    EnsuredSafe(c, e, src, dst);
    var b := Cleared(e, id, dst, now);
    ClearedStep(e, id, src, dst, now);
    ClearedKeepsParent(e, id, src, dst, now);
    SafeAfterClearing(e, b, id, src, dst, now);
    MoveTriedIs(c, src, dst, now);
    assert id in b.items || Selects(dst, src);
    UnsafeRelocation(b.items, id, src, dst, IdAt(e.items, Parent(dst)));
  }

  lemma UnsafeRelocation(items: Items, id: Id, src: Path, dst: Path, newParent: Id)
    requires Tree(items) && IsPath(src) && src != [] && dst != [] && IsPath(dst) && !(CaseSafe(items, src) && !Selects(src, dst))
    requires if id in items then items[id].path == src else Selects(dst, src)
    requires src == dst || !Indexed(items, dst)
    requires (Parent(dst) == [] || Indexed(items, Parent(dst))) && newParent == IdAt(items, Parent(dst))
    ensures !Tree(Relocate(items, id, src, dst, newParent))
  {
    if id in items {
      RelocateIsExact(items, id, src, dst, newParent);
    } else {
      ShorterNotSelected(src, dst);
      var k :| k in items && Selects(src, items[k].path) && !Below(src, items[k].path);
      OutsiderBreaks(items, id, src, dst, newParent, k);
    }
  }

  lemma ShorterNotSelected(src: Path, dst: Path)
    requires IsPath(src) && IsPath(dst) && src != [] && dst != [] && Selects(dst, src)
    ensures !Selects(src, dst)
  {
    BelowSelects(dst, src);
    SameLengthNotSelected(src, dst);
  }

  /** ... and it does what its name says if and only if only the source's subtree is selected, and
      of what is cleared only the destination's. */
  lemma MoveIsExact(c: Cat, src: Path, dst: Path, now: int)
    requires Valid(c) && src != [] && dst != [] && IsPath(dst) && Indexed(c.items, src)
    ensures MoveAccepted(c, src, dst, now) && RowMoved(c, Move(c, src, dst, now), IdAt(c.items, src), src, dst)
            <==> MoveClean(c.items, src, dst)
  {
    if MoveClean(c.items, src, dst) {
      CleanIsSafe(c.items, src, dst);
      MoveStep(c, src, dst, now);
    } else {
      var id := IdAt(c.items, src);
      var e := EnsurePath(c, Parent(dst));
      assert IsPath(Parent(dst)) && RowOk(c.items, id);
      EnsurePathStep(c, Parent(dst));
      EnsuredOccupied(c, e, src, dst);
      var b := Cleared(e, id, dst, now);
      ClearedStep(e, id, src, dst, now);
      var c1 := MoveTried(c, src, dst, now);
      MoveTriedIs(c, src, dst, now);
      UncleanStrays(c, e, b, c1, id, src, dst, IdAt(e.items, Parent(dst)));
    }
  }

  lemma UncleanStrays(c: Cat, e: Cat, b: Cat, c1: Cat, id: Id, src: Path, dst: Path, newParent: Id)
    requires Valid(c) && id in c.items && c.items[id].path == src && dst != [] && IsPath(dst) && !MoveClean(c.items, src, dst)
    requires forall i | i in c.items :: i in e.items && e.items[i] == c.items[i]
    requires forall i | i in c.items ::
               if Occupied(c.items, src, dst) && (c.items[i].path == dst || Selects(dst, c.items[i].path)) then i !in b.items
               else i in b.items && b.items[i] == c.items[i]
    requires c1.items == Relocate(b.items, id, src, dst, newParent)
    ensures !RowMoved(c, c1, id, src, dst)
  {
    assert RowOk(c.items, id);
    if Selects(src, dst) {
      BelowSelects(src, dst);
      SameLengthNotSelected(dst, src);
      assert src != dst;
      assert |c1.items[id].path| > |dst|;
    } else if Occupied(c.items, src, dst) && !CaseSafe(c.items, dst) {
      var i :| i in c.items && Selects(dst, c.items[i].path) && !Below(dst, c.items[i].path);
      SelectsNotItself(dst);
      WithinCases(dst, c.items[i].path);
      assert i !in c1.items;
    } else {
      var i :| i in c.items && Selects(src, c.items[i].path) && !Below(src, c.items[i].path) && !Below(dst, c.items[i].path);
      SelectsNotItself(src);
      WithinCases(dst, c.items[i].path);
      WithinCases(src, c.items[i].path);
      StrayRow(b.items, c1.items, id, src, dst, newParent, i);
    }
  }

  lemma StrayRow(items: Items, after: Items, id: Id, src: Path, dst: Path, newParent: Id, i: Id)
    requires dst != [] && after == Relocate(items, id, src, dst, newParent) && i != id
    requires i in items ==> Selects(src, items[i].path) && !Within(dst, items[i].path)
    ensures i in after ==> i in items && after[i].path != items[i].path
  {
    if i in items {
      assert Within(dst, Rebase(items[i].path, src, dst));
    }
  }
}
