/** What the journal entries of a write say. */
module JournalMeaning {
  import opened Paths
  import opened SqlLike
  import opened Catalogue
  import opened History
  import opened Writes
  import opened Reconciling
  import opened Stamps

  lemma PlaceholdersUnlogged(c: Cat, dir: Path)
    requires Valid(c) && IsPath(dir)
    ensures EnsurePath(c, dir).journal == c.journal && EnsurePath(c, dir).last == c.last
  {
    EnsurePathStep(c, dir);
  }

  /** Placeholders are not journaled; the upsert itself is, once. */
  lemma UpsertLogs(c: Cat, p: Path, o: Observed, now: int)
    requires Valid(c) && IsPath(p)
    ensures var (c1, id) := Upsert(c, p, o, now);
            c1.journal == c.journal + [Change(c.last + 1, Kind.Upserted, id, p, [], now)] && c1.last == c.last + 1
  {
    if p != [] {
      assert IsPath(Parent(p));
      PlaceholdersUnlogged(c, Parent(p));
    }
  }

  lemma ClearedLogs(b: Cat, id: Id, dst: Path, now: int)
    requires dst != []
    ensures var b1, n := Cleared(b, id, dst, now), |b.journal|;
            && n <= |b1.journal| && b1.journal[..n] == b.journal
            && forall k | n <= k < |b1.journal| ::
                 b1.journal[k].kind == Deleted && (b1.journal[k].path == dst || Selects(dst, b1.journal[k].path))
  {
    var b1 := Cleared(b, id, dst, now);
    if Indexed(b.items, dst) && IdAt(b.items, dst) != id {
      DeleteSubtreeIs(b, IdAt(b.items, dst), dst, now);
    }
  }

  /** A move is journaled once, with both paths, after the deletion of what it overwrites. */
  lemma MoveLogs(c: Cat, src: Path, dst: Path, now: int)
    requires Valid(c) && src != [] && dst != [] && IsPath(dst) && Indexed(c.items, src)
    ensures var c1 := Move(c, src, dst, now); var n, m := |c.journal|, |c1.journal|;
            if MoveAccepted(c, src, dst, now) then
              && n < m && c1.journal[..n] == c.journal
              && c1.journal[m - 1] == Change(c1.last, Moved, IdAt(c.items, src), dst, src, now)
              && forall k | n <= k < m - 1 ::
                   c1.journal[k].kind == Deleted && (c1.journal[k].path == dst || Selects(dst, c1.journal[k].path))
            else
              c1.journal == c.journal
  {
    var id := IdAt(c.items, src);
    var b := EnsurePath(c, Parent(dst));
    assert IsPath(Parent(dst));
    PlaceholdersUnlogged(c, Parent(dst));
    ClearedLogs(b, id, dst, now);
    MoveEnds(c, src, dst, now);
  }

  lemma MoveEnds(c: Cat, src: Path, dst: Path, now: int)
    requires src != [] && dst != [] && Indexed(c.items, src)
    ensures var b1 := Cleared(EnsurePath(c, Parent(dst)), IdAt(c.items, src), dst, now); var c1 := MoveTried(c, src, dst, now);
            c1.last == b1.last + 1 && c1.journal == b1.journal + [Change(c1.last, Moved, IdAt(c.items, src), dst, src, now)]
  {
  }

  /** An entry written while dir is reconciled: an upsert or a move of one of its children, which
      which is the one the caller gets the id of, or the deletion of a child or of something the
      LIKE selects for one. */
  ghost predicate Says(e: Change, dir: Path, ids: map<Name, Id>, was: Items) {
    && (e.kind == Deleted ==> exists n :: e.path == dir + [n] || Selects(dir + [n], e.path))
    && (e.kind != Deleted ==>
          Below(dir, e.path) && |e.path| == |dir| + 1 && Top(dir, e.path) in ids && ids[Top(dir, e.path)] == e.id)
    && (e.kind == Moved ==> e.id in was && was[e.id].path == e.oldPath && Below(dir, e.oldPath) && |e.oldPath| == |dir| + 1 && e.oldPath != e.path)
    && (e.kind != Moved ==> e.oldPath == [])
  }

  ghost predicate AllSay(log: seq<Change>, from: nat, dir: Path, ids: map<Name, Id>, was: Items) {
    forall k | from <= k < |log| :: Says(log[k], dir, ids, was)
  }

  lemma MoreIds(log: seq<Change>, from: nat, dir: Path, ids: map<Name, Id>, was: Items, n: Name, id: Id)
    requires AllSay(log, from, dir, ids, was) && n !in ids
    ensures AllSay(log, from, dir, ids[n := id], was)
  {
    forall k | from <= k < |log| ensures Says(log[k], dir, ids[n := id], was) {
      assert Says(log[k], dir, ids, was);
    }
  }

  lemma OneMore(log: seq<Change>, from: nat, dir: Path, ids: map<Name, Id>, was: Items, e: Change)
    requires AllSay(log, from, dir, ids, was) && Says(e, dir, ids, was)
    ensures AllSay(log + [e], from, dir, ids, was)
  {
    forall k | from <= k < |log| + 1 ensures Says((log + [e])[k], dir, ids, was) {
      if k < |log| {
        assert Says(log[k], dir, ids, was);
      }
    }
  }

  /** The known names are those of rows of dir. */
  ghost predicate WasKnown(t: Task) {
    forall n | n in t.known :: t.known[n] in t.was && t.was[t.known[n]].path == t.dir + [n]
  }

  lemma TaskWasKnown(a: Cat, t: Task)
    requires TaskOf(a, t)
    ensures WasKnown(t)
  {
    forall n | n in t.known ensures t.known[n] in t.was && t.was[t.known[n]].path == t.dir + [n] {
      KnownRow(a, t, n);
    }
  }

  lemma ObserveSays(s: Progress, o: Observed, t: Task, from: nat)
    requires o.name !in s.ids && WasKnown(t) && AllSay(s.c.journal, from, t.dir, s.ids, t.was)
    ensures AllSay(Observe(s, o, t).c.journal, from, t.dir, Observe(s, o, t).ids, t.was)
  {
    var m := ObserveCases(s, o, t);
    var s' := Observe(s, o, t);
    var id := s'.ids[o.name];
    BelowChild(t.dir, o.name);
    MoreIds(s.c.journal, from, t.dir, s.ids, t.was, o.name, id);
    if s'.c.journal != s.c.journal {
      var e := s'.c.journal[|s.c.journal|];
      assert s'.c.journal == s.c.journal + [e];
      if e.kind == Moved {
        BelowChild(t.dir, m.value);
        assert (t.dir + [m.value])[|t.dir|] == m.value && (t.dir + [o.name])[|t.dir|] == o.name;
      }
      OneMore(s.c.journal, from, t.dir, s'.ids, t.was, e);
    }
  }

  lemma {:induction false} ObserveAllSays(s: Progress, t: Task, rest: seq<Observed>, from: nat)
    requires Pending(s, t.known.Keys, rest) && WasKnown(t) && AllSay(s.c.journal, from, t.dir, s.ids, t.was)
    ensures AllSay(ObserveAll(s, rest, t).c.journal, from, t.dir, ObserveAll(s, rest, t).ids, t.was)
    decreases |rest|
  {
    if rest != [] {
      ObserveSays(s, rest[0], t, from);
      ObservePending(s, t, rest);
      ObserveAllSays(Observe(s, rest[0], t), t, rest[1..], from);
    }
  }

  lemma DropSays(s: Progress, n: Name, t: Task, from: nat)
    requires AllSay(s.c.journal, from, t.dir, s.ids, t.was)
    ensures AllSay(Drop(s, n, t).c.journal, from, t.dir, s.ids, t.was) && Drop(s, n, t).ids == s.ids
  {
    if n !in s.seen && n in t.known {
      var p := t.dir + [n];
      var c1 := DeleteSubtree(s.c, t.known[n], p, t.now);
      BelowChild(t.dir, n);
      var subs := DeepestFirst(s.c.items, Subtree(s.c.items, p));
      DeepestFirstLists(s.c.items, Subtree(s.c.items, p));
      DeleteEachJournal(s.c, subs, t.now);
      forall k | from <= k < |c1.journal| ensures Says(c1.journal[k], t.dir, s.ids, t.was) {
        var j := k - |s.c.journal|;
        if j < 0 {
          assert c1.journal[k] == DeleteEach(s.c, subs, t.now).journal[..|s.c.journal|][k];
        } else if j < |subs| {
          assert subs[j] in subs && subs[j].id in IdsOf(subs);
          assert Selects(t.dir + [n], subs[j].path);
        }
      }
    }
  }

  lemma {:induction false} DropAllSays(s: Progress, rest: seq<Name>, t: Task, from: nat)
    requires AllSay(s.c.journal, from, t.dir, s.ids, t.was)
    ensures AllSay(DropAll(s, rest, t).c.journal, from, t.dir, s.ids, t.was) && DropAll(s, rest, t).ids == s.ids
    decreases |rest|
  {
    if rest != [] {
      DropSays(s, rest[0], t, from);
      DropAllSays(Drop(s, rest[0], t), rest[1..], t, from);
    }
  }

  /** Reconcile journals nothing but upserts and moves of the observed entries, under the ids it
      returns, and deletions; a refused one journals nothing. */
  lemma ReconcileLogs(c: Cat, dir: Path, observed: seq<Observed>, missing: seq<Name>, now: int)
    requires Valid(c) && IsPath(dir) && DistinctNames(observed)
    ensures var (c1, ids) := Reconcile(c, dir, observed, missing, now);
            && |c.journal| <= |c1.journal| && c1.journal[..|c.journal|] == c.journal
            && AllSay(c1.journal, |c.journal|, dir, ids, Entered(c, dir).items)
            && (!Reconciled(Entered(c, dir), dir, observed, missing, now).ok ==> c1.journal == c.journal && ids == map[])
  {
    var a := Entered(c, dir);
    EnteredStep(c, dir);
    ReconcileStamped(c, dir, observed, missing, now);
    TaskWasKnown(a, TaskFor(a, dir, missing, now));
    var t := TaskFor(a, dir, missing, now);
    ObserveAllSays(Start(a, t.known), t, observed, |c.journal|);
    DropAllSays(ObserveAll(Start(a, t.known), observed, t), missing, t, |c.journal|);
  }
}
