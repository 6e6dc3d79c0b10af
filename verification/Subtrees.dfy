/** When the LIKE of movePath and deleteSubtree selects whole subtrees only. */
module Subtrees {
  import opened Paths
  import opened SqlLike
  import opened Catalogue
  import opened TreeInvariant

  /** No row has a namesake, up to ASCII case, with something below it. */
  ghost predicate NoCaseTwins(items: Items) {
    forall i, j, k | i in items && j in items && k in items && j != k && Below(items[j].path, items[i].path) ::
      FoldPath(items[j].path) != FoldPath(items[k].path)
  }

  lemma SelectedIsBelow(items: Items, k: Id, i: Id)
    requires Tree(items) && NoCaseTwins(items) && k in items && i in items
    requires Selects(items[k].path, items[i].path)
    ensures Below(items[k].path, items[i].path)
  {
    var a, p := items[k].path, items[i].path;
    assert RowOk(items, k) && RowOk(items, i);
    BelowSelects(a, p);
    AncestorIndexed(items, p, |a|);
    var j := IdAt(items, p[..|a|]);
    assert Below(items[j].path, p);
  }

  lemma TwinSelectsMore(items: Items, i: Id, j: Id, k: Id)
    requires Tree(items) && i in items && j in items && k in items && j != k && Below(items[j].path, items[i].path)
    requires FoldPath(items[j].path) == FoldPath(items[k].path)
    ensures Selects(items[k].path, items[i].path) && !Below(items[k].path, items[i].path)
  {
    var a, p := items[k].path, items[i].path;
    assert RowOk(items, k) && RowOk(items, i);
    SelectsIs(a, p);
    FoldsBelowIs(a, p);
    assert |items[j].path| == |FoldPath(items[j].path)| == |a|;
  }

  /** For every row of a consistent catalogue the LIKE selects exactly its proper descendants, if
      and only if no two rows have paths differing by ASCII case only, one of them having
      descendants. */
  lemma LikeSelectsSubtree(items: Items)
    requires Tree(items)
    ensures (forall k | k in items :: CaseSafe(items, items[k].path)) <==> NoCaseTwins(items)
  {
    if NoCaseTwins(items) {
      forall k, i | k in items && i in items && Selects(items[k].path, items[i].path)
        ensures Below(items[k].path, items[i].path)
      {
        SelectedIsBelow(items, k, i);
      }
    } else {
      var i, j, k :| i in items && j in items && k in items && j != k && Below(items[j].path, items[i].path)
                     && FoldPath(items[j].path) == FoldPath(items[k].path);
      TwinSelectsMore(items, i, j, k);
    }
  }
}
