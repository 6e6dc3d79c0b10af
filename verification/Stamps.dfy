/** The journal is ordered in time, so that pruning by age cuts off its oldest part. */
module Stamps {
  import opened Paths
  import opened SqlLike
  import opened Catalogue
  import opened History

  /** An entry written at `now`; only the root's own entries carry the root's path. */
  predicate EntryAt(e: Change, now: int) {
    e.ts == now && (e.path == [] ==> e.id == Root)
  }

  ghost predicate Stamped(c0: Cat, c1: Cat, now: int) {
    && |c0.journal| <= |c1.journal|
    && c1.journal[..|c0.journal|] == c0.journal
    && forall k | |c0.journal| <= k < |c1.journal| :: EntryAt(c1.journal[k], now)
  }

  lemma StampedTrans(c0: Cat, c1: Cat, c2: Cat, now: int)
    requires Stamped(c0, c1, now) && Stamped(c1, c2, now)
    ensures Stamped(c0, c2, now)
  {
    var n0, n1 := |c0.journal|, |c1.journal|;
    assert c2.journal[..n0] == c2.journal[..n1][..n0];
    assert forall k | n0 <= k < n1 :: c2.journal[k] == c2.journal[..n1][k];
  }

  lemma DeleteSubtreeStamped(c: Cat, id: Id, p: Path, now: int)
    requires p != [] || id == Root
    ensures Stamped(c, DeleteSubtree(c, id, p, now), now)
  {
    var s := Subtree(c.items, p);
    var subs := DeepestFirst(c.items, s);
    var d := DeleteEach(c, subs, now);
    DeepestFirstLists(c.items, s);
    DeleteEachJournal(c, subs, now);
    SelectsNotRoot(p);
    forall k | 0 <= k < |subs| ensures subs[k].path != [] {
      assert subs[k].id in IdsOf(subs);
    }
    var c1 := DeleteSubtree(c, id, p, now);
    assert c1.journal[..|c.journal|] == d.journal[..|c.journal|];
  }

  lemma {:induction false} EnsurePathStamped(c: Cat, dir: Path, now: int)
    ensures Stamped(c, EnsurePath(c, dir), now)
    decreases |dir|
  {
    if dir != [] {
      EnsurePathStamped(c, Parent(dir), now);
    }
  }

  lemma UpsertStamped(c: Cat, p: Path, o: Observed, now: int)
    ensures Stamped(c, Upsert(c, p, o, now).0, now)
  {
    if p != [] {
      EnsurePathStamped(c, Parent(p), now);
      StampedTrans(c, EnsurePath(c, Parent(p)), Upsert(c, p, o, now).0, now);
    }
  }

  lemma MoveStamped(c: Cat, src: Path, dst: Path, now: int)
    requires dst != []
    ensures Stamped(c, Move(c, src, dst, now), now)
  {
    EnsurePathStamped(c, Parent(dst), now);
    MoveTriedStamped(c, src, dst, now);
  }

  lemma MoveTriedStamped(c: Cat, src: Path, dst: Path, now: int)
    requires dst != []
    ensures Stamped(c, MoveTried(c, src, dst, now), now)
  {
    if src != [] && Indexed(c.items, src) {
      var id := IdAt(c.items, src);
      var c1 := EnsurePath(c, Parent(dst));
      EnsurePathStamped(c, Parent(dst), now);
      if Indexed(c1.items, dst) && IdAt(c1.items, dst) != id {
        var c2 := DeleteSubtree(c1, IdAt(c1.items, dst), dst, now);
        DeleteSubtreeStamped(c1, IdAt(c1.items, dst), dst, now);
        StampedTrans(c, c1, c2, now);
        StampedTrans(c, c2, MoveTried(c, src, dst, now), now);
      } else {
        StampedTrans(c, c1, MoveTried(c, src, dst, now), now);
      }
    }
  }

  lemma {:induction false} ObserveAllStamped(s: Progress, rest: seq<Observed>, t: Task)
    ensures Stamped(s.c, ObserveAll(s, rest, t).c, t.now)
    decreases |rest|
  {
    if rest != [] {
      var s' := Observe(s, rest[0], t);
      assert Stamped(s.c, s'.c, t.now);
      ObserveAllStamped(s', rest[1..], t);
      StampedTrans(s.c, s'.c, ObserveAll(s', rest[1..], t).c, t.now);
    }
  }

  lemma {:induction false} DropAllStamped(s: Progress, rest: seq<Name>, t: Task)
    ensures Stamped(s.c, DropAll(s, rest, t).c, t.now)
    decreases |rest|
  {
    if rest != [] {
      var s', n := Drop(s, rest[0], t), rest[0];
      if n !in s.seen && n in t.known {
        DeleteSubtreeStamped(s.c, t.known[n], t.dir + [n], t.now);
      }
      DropAllStamped(s', rest[1..], t);
      StampedTrans(s.c, s'.c, DropAll(s', rest[1..], t).c, t.now);
    }
  }

  lemma ReconcileStamped(c: Cat, dir: Path, observed: seq<Observed>, missing: seq<Name>, now: int)
    ensures Stamped(c, Reconcile(c, dir, observed, missing, now).0, now)
  {
    var a := Entered(c, dir);
    EnsurePathStamped(c, dir, now);
    var t := TaskFor(a, dir, missing, now);
    var s1 := ObserveAll(Start(a, t.known), observed, t);
    ObserveAllStamped(Start(a, t.known), observed, t);
    DropAllStamped(s1, missing, t);
    StampedTrans(c, a, s1.c, now);
    StampedTrans(c, s1.c, DropAll(s1, missing, t).c, now);
  }

  // ---- order in time ----------------------------------------------------------------------

  predicate InOrder(journal: seq<Change>, clock: int) {
    && (forall k | 0 <= k < |journal| :: journal[k].ts <= clock && (journal[k].path == [] ==> journal[k].id == Root))
    && (forall j, k | 0 <= j < k < |journal| :: journal[j].ts <= journal[k].ts)
  }

  lemma StampedInOrder(c0: Cat, c1: Cat, clock: int, now: int)
    requires InOrder(c0.journal, clock) && clock <= now && Stamped(c0, c1, now)
    ensures InOrder(c1.journal, now)
  {
    assert forall k | 0 <= k < |c0.journal| :: c1.journal[k] == c1.journal[..|c0.journal|][k];
    assert forall k | |c0.journal| <= k < |c1.journal| :: EntryAt(c1.journal[k], now);
  }

  lemma {:induction false} NothingPruned(journal: seq<Change>, cut: int)
    requires forall k | 0 <= k < |journal| :: journal[k].ts >= cut
    ensures Pruned(journal, cut) == journal
  {
    if journal != [] {
      NothingPruned(journal[1..], cut);
      assert journal == [journal[0]] + journal[1..];
    }
  }

  predicate Older(e: Change, cut: int) {
    e.ts < cut
  }

  /** Pruning by age drops the oldest entries and keeps the rest as it is. */
  lemma {:induction false} PrunedIsSuffix(journal: seq<Change>, cut: int, clock: int) returns (d: nat)
    requires InOrder(journal, clock)
    ensures d <= |journal| && Pruned(journal, cut) == journal[d..]
    ensures forall k | 0 <= k < |journal| :: Older(journal[k], cut) <==> k < d
  {
    if journal == [] || journal[0].ts >= cut {
      d := 0;
      NothingPruned(journal, cut);
    } else {
      var rest := journal[1..];
      var d' := PrunedIsSuffix(rest, cut, clock);
      d := d' + 1;
      assert rest[d'..] == journal[d..];
      forall k | 0 <= k < |journal| ensures Older(journal[k], cut) <==> k < d {
        if k > 0 {
          assert journal[k] == rest[k - 1];
        }
      }
    }
  }

  /** Pruning keeps the sequence numbers contiguous and the catalogue valid. */
  lemma PruneStep(c: Cat, cut: int, clock: int) returns (d: nat)
    requires Valid(c) && InOrder(c.journal, clock)
    ensures d <= |c.journal| && Prune(c, cut) == c.(journal := c.journal[d..])
    ensures Valid(Prune(c, cut)) && InOrder(Prune(c, cut).journal, clock)
  {
    d := PrunedIsSuffix(c.journal, cut, clock);
  }
}
