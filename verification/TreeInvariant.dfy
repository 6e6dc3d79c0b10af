/** The parent column and the path column describe one and the same tree. */
module TreeInvariant {
  import opened Paths
  import opened SqlLike
  import opened Catalogue

  ghost predicate RowOk(items: Items, i: Id)
    requires i in items
  {
    var r := items[i];
    && i != Root
    && r.path != []
    && IsPath(r.path)
    && r.name == Base(r.path)
    && if |r.path| == 1 then r.parent == Root
       else r.parent in items && items[r.parent].path == Parent(r.path)
  }

  ghost predicate Tree(items: Items) {
    && (forall i {:trigger RowOk(items, i)} | i in items :: RowOk(items, i))
    && UniquePaths(items)
  }

  // ---- ancestors ------------------------------------------------------------------

  lemma ParentIndexed(items: Items, i: Id)
    requires Tree(items) && i in items
    ensures items[i].path != []
    ensures Parent(items[i].path) == [] || Indexed(items, Parent(items[i].path))
    ensures items[i].parent == IdAt(items, Parent(items[i].path))
  {
    assert RowOk(items, i);
  }

  /** Every prefix of an indexed path is indexed. */
  lemma {:induction false} AncestorIndexed(items: Items, p: Path, k: nat)
    requires Tree(items) && Indexed(items, p)
    requires 0 < k <= |p|
    ensures Indexed(items, p[..k])
    decreases |p|
  {
    var i :| i in items && items[i].path == p;
    if k == |p| {
      assert p[..k] == p;
    } else {
      ParentIndexed(items, i);
      assert Parent(p)[..k] == p[..k];
      AncestorIndexed(items, Parent(p), k);
    }
  }

  lemma NothingBelowUnindexed(items: Items, p: Path, i: Id)
    requires Tree(items) && p != [] && !Indexed(items, p)
    requires i in items
    ensures items[i].path != p && !Below(p, items[i].path)
  {
    if Below(p, items[i].path) {
      AncestorIndexed(items, items[i].path, |p|);
    }
  }

  // ---- prefix-based and parent-based subtrees -----------------------------------------

  /** a is reached from i by following the parent column at least once. */
  ghost predicate Descends(items: Items, i: Id, a: Id)
    requires Tree(items) && i in items
    decreases |items[i].path|
  {
    assert RowOk(items, i) && (items[i].parent in items ==> RowOk(items, items[i].parent));
    var up := items[i].parent;
    up == a || (up in items && Descends(items, up, a))
  }

  /** The rows a LIKE on the path selects are the rows below in the parent relation. */
  lemma {:induction false} DescendsIsBelow(items: Items, i: Id, a: Id)
    requires Tree(items) && i in items && a in items
    ensures Descends(items, i, a) <==> Below(items[a].path, items[i].path)
    decreases |items[i].path|
  {
    assert RowOk(items, i) && RowOk(items, a);
    var up := items[i].parent;
    var p, q := items[i].path, items[a].path;
    if up in items {
      assert RowOk(items, up);
      DescendsIsBelow(items, up, a);
      assert |q| < |p| ==> Parent(p)[..|q|] == p[..|q|];
      assert |q| == |p| - 1 ==> Parent(p)[..|q|] == Parent(p);
    }
  }

  /** No row is its own ancestor. */
  lemma NoCycle(items: Items, i: Id)
    requires Tree(items) && i in items
    ensures !Descends(items, i, i)
  {
    DescendsIsBelow(items, i, i);
  }

  // ---- the statements keep the tree ----------------------------------------------------

  lemma InsertKeepsTree(items: Items, id: Id, row: Row)
    requires Tree(items) && id !in items && id != Root
    requires row.path != [] && IsPath(row.path) && row.name == Base(row.path) && !Indexed(items, row.path)
    requires Parent(row.path) == [] || Indexed(items, Parent(row.path))
    requires row.parent == IdAt(items, Parent(row.path))
    ensures Tree(items[id := row])
  {
    var after := items[id := row];
    forall i | i in after ensures RowOk(after, i) {
      if i != id {
        assert RowOk(items, i);
      }
    }
    assert forall i | i in items :: items[i].path != row.path;
  }

  /** Statements that write neither path nor name nor parent keep the tree. */
  lemma SameShapeKeepsTree(items: Items, after: Items)
    requires Tree(items) && after.Keys == items.Keys
    requires forall i | i in items :: after[i].path == items[i].path && after[i].name == items[i].name
                                      && after[i].parent == items[i].parent
    ensures Tree(after)
  {
    forall i | i in after ensures RowOk(after, i) {
      assert RowOk(items, i);
    }
  }

  // ---- the statements that select with LIKE ------------------------------------------------------

  /** The LIKE selects nothing but what lies below p. */
  ghost predicate CaseSafe(items: Items, p: Path) {
    forall i | i in items && Selects(p, items[i].path) :: Below(p, items[i].path)
  }

  /** Something is indexed below p. */
  ghost predicate HasBelow(items: Items, p: Path) {
    exists i :: i in items && Below(p, items[i].path)
  }

  lemma BelowSelects(a: Path, p: Path)
    requires IsPath(a) && IsPath(p) && a != []
    ensures Below(a, p) ==> Selects(a, p)
    ensures Selects(a, p) ==> |a| < |p| && FoldPath(p[..|a|]) == FoldPath(a)
  {
    SelectsIs(a, p);
    FoldsBelowIs(a, p);
    if Below(a, p) {
      BelowFolds(a, p);
    }
  }

  lemma SelectsTrans(a: Path, p: Path, q: Path)
    requires IsPath(a) && IsPath(p) && IsPath(q) && a != []
    ensures Selects(a, p) && Within(p, q) ==> Selects(a, q)
  {
    SelectsIs(a, p);
    SelectsIs(a, q);
    if FoldsBelow(a, p) && Within(p, q) {
      FoldsBelowTrans(a, p, q);
    }
  }

  /** Removing a row with everything the LIKE selects keeps the tree. */
  lemma RemoveKeepsTree(items: Items, gone: set<Id>, p: Path)
    requires Tree(items) && IsPath(p)
    requires forall i | i in items :: i in gone <==> items[i].path == p || Selects(p, items[i].path)
    ensures Tree(items - gone)
  {
    var after := items - gone;
    forall i | i in after ensures RowOk(after, i) {
      assert RowOk(items, i);
      if |items[i].path| > 1 {
        assert RowOk(items, items[i].parent);
        ParentStays(items[i].path, p);
      }
    }
  }

  lemma ParentStays(q: Path, p: Path)
    requires |q| > 1 && IsPath(q) && IsPath(p) && IsPath(Parent(q)) && !Selects(p, q)
    ensures Parent(q) != p && !Selects(p, Parent(q))
  {
    WithinCases(Parent(q), q);
    WithinCases(Parent(q), Parent(q));
    if p != [] {
      BelowSelects(p, q);
      SelectsTrans(p, Parent(q), q);
    } else {
      SelectsIs(p, Parent(q));
    }
  }

  /** The outcome of movePath, row by row. */
  lemma RelocatedRow(items: Items, id: Id, src: Path, dst: Path, newParent: Id, i: Id)
    requires Tree(items) && id in items && items[id].path == src
    requires dst != [] && CaseSafe(items, src) && !Selects(src, dst)
    requires i in items
    ensures Relocate(items, id, src, dst, newParent).Keys == items.Keys
    ensures Relocate(items, id, src, dst, newParent)[i]
         == if i == id then items[i].(path := dst, name := Base(dst), parent := newParent)
            else items[i].(path := Shift(items[i].path, src, dst))
  {
    assert RowOk(items, i) && RowOk(items, id);
    WithinCases(src, items[i].path);
    BelowSelects(src, items[i].path);
  }

  lemma RelocateKeepsRow(items: Items, id: Id, src: Path, dst: Path, newParent: Id, i: Id)
    requires Tree(items) && id in items && items[id].path == src
    requires dst != [] && IsPath(dst) && CaseSafe(items, src) && !Selects(src, dst)
    requires Parent(dst) == [] || Indexed(items, Parent(dst))
    requires newParent == IdAt(items, Parent(dst))
    requires i in items
    ensures var after := Relocate(items, id, src, dst, newParent);
            i in after && RowOk(after, i) && after[i].path == Shift(items[i].path, src, dst)
  {
    var after := Relocate(items, id, src, dst, newParent);
    RelocatedRow(items, id, src, dst, newParent, i);
    assert RowOk(items, i) && RowOk(items, id);
    BelowSelects(src, dst);
    var p := items[i].path;
    if i == id {
      assert Shift(src, src, dst) == dst;
      WithinCases(src, dst);
      if Parent(dst) != [] {
        RelocatedRow(items, id, src, dst, newParent, newParent);
        WithinCases(src, Parent(dst));
      }
    } else {
      assert p != src;
      ShiftParent(p, src, dst);
      WithinCases(src, p);
      if |p| > 1 {
        RelocatedRow(items, id, src, dst, newParent, items[i].parent);
        assert after[items[i].parent].path == Shift(Parent(p), src, dst);
      }
    }
  }

  lemma RelocateKeepsTree(items: Items, id: Id, src: Path, dst: Path, newParent: Id)
    requires Tree(items) && id in items && items[id].path == src
    requires dst != [] && IsPath(dst) && CaseSafe(items, src) && !Selects(src, dst)
    requires src == dst || !Indexed(items, dst)
    requires Parent(dst) == [] || Indexed(items, Parent(dst))
    requires newParent == IdAt(items, Parent(dst))
    ensures Tree(Relocate(items, id, src, dst, newParent))
  {
    var after := Relocate(items, id, src, dst, newParent);
    RelocatedRow(items, id, src, dst, newParent, id);
    forall i | i in after ensures RowOk(after, i) {
      RelocateKeepsRow(items, id, src, dst, newParent, i);
    }
    forall i, j | i in after && j in after && after[i].path == after[j].path ensures i == j {
      RelocateKeepsRow(items, id, src, dst, newParent, i);
      RelocateKeepsRow(items, id, src, dst, newParent, j);
      var p, q := items[i].path, items[j].path;
      if src == dst {
        ShiftNowhere(p, src);
        ShiftNowhere(q, src);
      } else {
        NothingBelowUnindexed(items, dst, i);
        NothingBelowUnindexed(items, dst, j);
        WithinCases(dst, p);
        WithinCases(dst, q);
        ShiftInjective(p, q, src, dst);
      }
    }
  }

  // ---- ... and when they do not --------------------------------------------------------------------

  lemma IdIs(items: Items, id: Id, p: Path)
    requires Tree(items) && id in items && items[id].path == p
    ensures p != [] && Indexed(items, p) && IdAt(items, p) == id
  {
    assert RowOk(items, id);
  }

  /** A row the LIKE does not select, other than the one moved, keeps its path. */
  lemma UnselectedRow(items: Items, id: Id, src: Path, dst: Path, newParent: Id, i: Id)
    requires dst != [] && i in items && i != id && !Selects(src, items[i].path)
    ensures i in Relocate(items, id, src, dst, newParent) && Relocate(items, id, src, dst, newParent)[i] == items[i]
  {
  }

  lemma SameLengthNotSelected(src: Path, q: Path)
    requires IsPath(src) && IsPath(q) && src != [] && |q| <= |src|
    ensures !Selects(src, q)
  {
    BelowSelects(src, q);
  }

  /** A child of j whose path is rewritten while that of j is not. */
  lemma TornOff(items: Items, id: Id, src: Path, dst: Path, newParent: Id, i: Id, j: Id)
    requires Tree(items) && IsPath(src) && src != [] && dst != []
    requires i in items && i != id && j in items && j != id && |items[j].path| == |src| && items[j].path != dst
    requires items[i].parent == j && Selects(src, items[i].path)
    ensures !Tree(Relocate(items, id, src, dst, newParent))
  {
    var after := Relocate(items, id, src, dst, newParent);
    assert RowOk(items, i) && RowOk(items, j);
    SameLengthNotSelected(src, items[j].path);
    UnselectedRow(items, id, src, dst, newParent, j);
    assert after[i].path == Rebase(items[i].path, src, dst);
    assert Parent(after[i].path) == dst;
    assert !RowOk(after, i);
  }

  /** The rows at the first components of a selected path. */
  lemma SelectedTop(items: Items, src: Path, k: Id) returns (i: Id, j: Id)
    requires Tree(items) && IsPath(src) && src != [] && k in items && Selects(src, items[k].path)
    ensures |src| < |items[k].path|
    ensures i in items && items[i].path == items[k].path[..|src| + 1] && Selects(src, items[i].path)
    ensures j in items && items[j].path == items[k].path[..|src|] && items[i].parent == j
  {
    var p, n := items[k].path, |src|;
    assert RowOk(items, k);
    BelowSelects(src, p);
    AncestorIndexed(items, p, n);
    AncestorIndexed(items, p, n + 1);
    i, j := IdAt(items, p[..n + 1]), IdAt(items, p[..n]);
    assert RowOk(items, i) && RowOk(items, j);
    TopSelected(src, p);
    assert Parent(p[..n + 1]) == p[..n];
    ParentIndexed(items, i);
    IdIs(items, j, p[..n]);
  }

  lemma TopSelected(src: Path, p: Path)
    requires IsPath(src) && IsPath(p) && src != [] && Selects(src, p)
    ensures |src| < |p| && IsPath(p[..|src| + 1]) && Selects(src, p[..|src| + 1])
  {
    BelowSelects(src, p);
    var x := p[..|src| + 1];
    assert x[..|src|] == p[..|src|];
    SelectsIs(src, x);
    FoldsBelowIs(src, x);
  }

  /** A row outside the subtree that the LIKE selects is torn off its parent, or one above it is. */
  lemma OutsiderBreaks(items: Items, id: Id, src: Path, dst: Path, newParent: Id, k: Id)
    requires Tree(items) && (id in items ==> items[id].path == src) && IsPath(src) && src != [] && dst != []
    requires src == dst || !Indexed(items, dst)
    requires k in items && Selects(src, items[k].path) && !Below(src, items[k].path)
    ensures !Tree(Relocate(items, id, src, dst, newParent))
  {
    var i, j := SelectedTop(items, src, k);
    TornOff(items, id, src, dst, newParent, i, j);
  }

  /** A row moved directly below itself becomes its own parent. */
  lemma RelocateIntoItself(items: Items, id: Id, src: Path, dst: Path)
    requires Tree(items) && id in items && items[id].path == src
    requires IsPath(dst) && Below(src, dst) && |dst| == |src| + 1
    ensures !Tree(Relocate(items, id, src, dst, id))
  {
    var after := Relocate(items, id, src, dst, id);
    assert RowOk(items, id);
    BelowSelects(src, dst);
    assert after[id].parent == id && |after[id].path| == |dst| + 1;
    assert !RowOk(after, id);
  }

  /** Moved deeper below itself, it stops being above the child in whose subtree it was put. */
  lemma RelocateIntoChild(items: Items, id: Id, src: Path, dst: Path, newParent: Id, j: Id)
    requires Tree(items) && id in items && items[id].path == src && dst != []
    requires IsPath(dst) && Below(src, dst) && |dst| > |src| + 1
    requires j in items && j != id && items[j].parent == id && Selects(src, items[j].path) && |items[j].path| == |src| + 1
    ensures !Tree(Relocate(items, id, src, dst, newParent))
  {
    var after := Relocate(items, id, src, dst, newParent);
    assert RowOk(items, id);
    BelowSelects(src, dst);
    assert |after[id].path| == |dst| + |dst| - |src| && |after[j].path| == |dst| + 1 && after[j].parent == id;
    assert !RowOk(after, j);
  }

  /** If the LIKE selects nothing else, it can select only a direct child of a case variant. */
  lemma DeepVariant(items: Items, src: Path, dst: Path)
    requires Tree(items) && CaseSafe(items, src) && IsPath(src) && src != [] && IsPath(dst) && |dst| > |src| + 1
    requires Indexed(items, Parent(dst))
    ensures Selects(src, dst) ==> Below(src, dst)
  {
    var q := Parent(dst);
    assert q[..|src|] == dst[..|src|];
    SelectsIs(src, q);
    FoldsBelowIs(src, q);
    BelowSelects(src, dst);
  }

  /** A row moved below a case variant of its own path is moved once more by the LIKE. */
  lemma RelocateIntoVariant(items: Items, id: Id, src: Path, dst: Path, newParent: Id)
    requires Tree(items) && id in items && items[id].path == src && IsPath(dst) && Selects(src, dst)
    requires |dst| == |src| + 1 && !Below(src, dst) && Indexed(items, Parent(dst))
    requires newParent == IdAt(items, Parent(dst))
    ensures !Tree(Relocate(items, id, src, dst, newParent))
  {
    var after := Relocate(items, id, src, dst, newParent);
    assert RowOk(items, id) && RowOk(items, newParent);
    SameLengthNotSelected(src, Parent(dst));
    UnselectedRow(items, id, src, dst, newParent, newParent);
    assert |after[id].path| == |dst| + 1 && after[id].parent == newParent;
    assert !RowOk(after, id);
  }

  lemma ParentSelected(src: Path, dst: Path)
    requires IsPath(src) && src != [] && IsPath(dst) && Below(src, dst) && |dst| > |src| + 1
    ensures Selects(src, Parent(dst))
  {
    assert Parent(dst)[..|src|] == dst[..|src|];
    BelowSelects(src, Parent(dst));
  }

  /** The two updates keep the catalogue a tree if and only if the LIKE selects neither a row
      outside the subtree nor the destination. */
  lemma RelocateIsExact(items: Items, id: Id, src: Path, dst: Path, newParent: Id)
    requires Tree(items) && id in items && items[id].path == src
    requires dst != [] && IsPath(dst) && (src == dst || !Indexed(items, dst))
    requires Parent(dst) == [] || Indexed(items, Parent(dst))
    requires newParent == IdAt(items, Parent(dst))
    ensures Tree(Relocate(items, id, src, dst, newParent)) <==> CaseSafe(items, src) && !Selects(src, dst)
  {
    assert RowOk(items, id);
    if !CaseSafe(items, src) {
      var k :| k in items && Selects(src, items[k].path) && !Below(src, items[k].path);
      OutsiderBreaks(items, id, src, dst, newParent, k);
    } else if Selects(src, dst) {
      BelowSelects(src, dst);
      assert |Parent(dst)| >= |src|;
      if Below(src, dst) && |dst| == |src| + 1 {
        assert Parent(dst) == src;
        IdIs(items, id, src);
        RelocateIntoItself(items, id, src, dst);
      } else if Below(src, dst) {
        ParentSelected(src, dst);
        var i, j := SelectedTop(items, src, IdAt(items, Parent(dst)));
        assert Parent(dst)[..|src|] == dst[..|src|] == src;
        IdIs(items, id, src);
        IdIs(items, j, src);
        RelocateIntoChild(items, id, src, dst, newParent, i);
      } else {
        if |dst| > |src| + 1 {
          DeepVariant(items, src, dst);
        }
        RelocateIntoVariant(items, id, src, dst, newParent);
      }
    } else {
      RelocateKeepsTree(items, id, src, dst, newParent);
    }
  }

  /** Where the LIKE selects nothing else, the statement rewrites the subtree alone. */
  lemma RelocateSubtree(items: Items, id: Id, src: Path, dst: Path, newParent: Id)
    requires Tree(items) && id in items && items[id].path == src && dst != []
    requires CaseSafe(items, src) && !Selects(src, dst)
    ensures Relocate(items, id, src, dst, newParent)
         == map i | i in items :: if i == id then items[i].(path := dst, name := Base(dst), parent := newParent)
                                  else items[i].(path := Shift(items[i].path, src, dst))
  {
    forall i | i in items
      ensures Relocate(items, id, src, dst, newParent).Keys == items.Keys
      ensures Relocate(items, id, src, dst, newParent)[i]
           == if i == id then items[i].(path := dst, name := Base(dst), parent := newParent)
              else items[i].(path := Shift(items[i].path, src, dst))
    {
      RelocatedRow(items, id, src, dst, newParent, i);
    }
  }
}
