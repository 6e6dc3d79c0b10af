/** The index itself: the two tables as fields, updated statement by statement. */
module IndexStore {
  import opened Paths
  import opened SqlLike
  import opened Catalogue
  import opened TreeInvariant
  import opened History
  import opened Writes
  import opened Reconciling
  import opened Feed

  /** Any listing of a finite set of names, as the iteration over a hash map yields. */
  method ListOf(s: set<Name>) returns (names: seq<Name>)
    ensures DistinctSeq(names) && SetOf(names) == s
  {
    names := [];
    var rest := s;
    while rest != {}
      invariant rest <= s && DistinctSeq(names) && SetOf(names) == s - rest
    {
      var n :| n in rest;
      assert SetOf(names + [n]) == SetOf(names) + {n};
      assert forall k | 0 <= k < |names| :: names[k] in SetOf(names);
      names := names + [n];
      rest := rest - {n};
    }
  }

  lemma SameFirst(items: Items, s: set<Id>, i: Id)
    requires s <= items.Keys && i in s && forall j | j in s :: Precedes(items, i, j)
    ensures First(items, s) == i
  {
  }

  /** What has been refused stays refused. */
  lemma {:induction false} RefusedStays(s: Progress, t: Task, rest: seq<Observed>)
    requires !s.ok
    ensures !ObserveAll(s, rest, t).ok
    decreases |rest|
  {
    if rest != [] {
      RefusedStays(Observe(s, rest[0], t), t, rest[1..]);
    }
  }

  /** Deletions are never refused. */
  lemma {:induction false} DropKeepsOk(s: Progress, t: Task, rest: seq<Name>)
    ensures DropAll(s, rest, t).ok == s.ok
    decreases |rest|
  {
    if rest != [] {
      DropKeepsOk(Drop(s, rest[0], t), t, rest[1..]);
    }
  }

  lemma {:induction false} DropKeepsCounters(s: Progress, t: Task, rest: seq<Name>)
    ensures DropAll(s, rest, t).c.minted == s.c.minted && DropAll(s, rest, t).c.bootstrapping == s.c.bootstrapping
    decreases |rest|
  {
    if rest != [] {
      var n := rest[0];
      if n !in s.seen && n in t.known {
        DeleteEachItems(s.c, DeepestFirst(s.c.items, Subtree(s.c.items, t.dir + [n])), t.now);
      }
      DropKeepsCounters(Drop(s, n, t), t, rest[1..]);
    }
  }

  /** The names of the rows in `done`. */
  ghost predicate Collected(items: Items, done: set<Id>, known: map<Name, Id>) {
    && done <= items.Keys
    && (forall n | n in known :: known[n] in done && items[known[n]].name == n)
    && (forall i | i in done :: items[i].name in known)
  }

  lemma CollectOne(items: Items, done: set<Id>, known: map<Name, Id>, i: Id)
    requires Collected(items, done, known) && i in items
    ensures Collected(items, done + {i}, known[items[i].name := i])
  {
  }

  class Index {
    var items: Items
    var changes: seq<Change>
    var last: nat
    var minted: nat
    var bootstrapping: bool

    constructor ()
      ensures State() == Cat(map[], [], 0, 0, false)
    {
      items, changes, last, minted, bootstrapping := map[], [], 0, 0, false;
    }

    ghost function State(): Cat
      reads this
    {
      Cat(items, changes, last, minted, bootstrapping)
    }

    method SetBootstrapping(on: bool)
      modifies this`bootstrapping
      ensures State() == old(State()).(bootstrapping := on)
    {
      bootstrapping := on;
    }

    // ---- reads ------------------------------------------------------------------------

    method ByPath(p: Path) returns (r: Option<Id>)
      requires UniquePaths(items)
      ensures r.Some? <==> p == [] || Indexed(items, p)
      ensures r.Some? ==> r.value == IdAt(items, p)
    {
      if p == [] {
        r := Some(Root);
      } else if i :| i in items && items[i].path == p {
        assert i == IdAt(items, p);
        r := Some(i);
      } else {
        r := None;
      }
    }

    /** The rows with the given parent, and the names they bear. */
    method ChildrenOf(pid: Id) returns (known: map<Name, Id>)
      requires Valid(State()) && (pid == Root || pid in items)
      ensures known == Known(items, pid)
    {
      known := CollectChildren(pid);
      KnownUnique(items, pid, known);
    }

    method CollectChildren(pid: Id) returns (known: map<Name, Id>)
      ensures Collected(items, ChildIds(items, pid), known)
    {
      known := map[];
      var rest := set i | i in items && items[i].parent == pid;
      ghost var done: set<Id> := {};
      while rest != {}
        invariant done + rest == ChildIds(items, pid)
        invariant Collected(items, done, known)
        decreases |rest|
      {
        var i :| i in rest;
        CollectOne(items, done, known, i);
        known := known[items[i].name := i];
        rest := rest - {i};
        done := done + {i};
      }
      assert done == ChildIds(items, pid);
    }

    // ---- single statements --------------------------------------------------------------

    method AppendChange(kind: Kind, id: Id, p: Path, oldPath: Path, now: int)
      modifies this`changes, this`last
      ensures State() == Journal(old(State()), kind, id, p, oldPath, now)
    {
      last := last + 1;
      changes := changes + [Change(last, kind, id, p, oldPath, now)];
    }

    /** journal: silent while bootstrapping. */
    method JournalChange(id: Id, p: Path, now: int)
      modifies this`changes, this`last
      ensures State() == JournalUpsert(old(State()), id, p, now)
    {
      if !bootstrapping {
        AppendChange(Upserted, id, p, [], now);
      }
    }

    method Insert(row: Row) returns (id: Id)
      modifies this`items, this`minted
      ensures State() == InsertRow(old(State()), row) && id == Minted(old(minted))
    {
      id := Minted(minted);
      minted := minted + 1;
      items := items[id := row];
    }

    method UpdateStat(id: Id, o: Observed)
      modifies this`items
      ensures items == SetStat(old(items), id, o)
    {
      if id in items {
        items := items[id := items[id].(isDir := o.isDir, size := o.size, mtime := o.mtime, ino := o.ino, dev := o.dev)];
      }
    }

    /** movePath: two updates, refused if they give two rows the same path, and a journal entry. */
    method Repath(id: Id, src: Path, dst: Path, newParent: Id, now: int) returns (ok: bool)
      requires dst != []
      modifies this`items, this`changes, this`last
      ensures ok <==> UniquePaths(MovePath(old(State()), id, src, dst, newParent, now).items)
      ensures ok ==> State() == MovePath(old(State()), id, src, dst, newParent, now)
    {
      if id in items {
        items := items[id := items[id].(path := dst, name := Base(dst), parent := newParent)];
      }
      items := map i | i in items ::
        if Selects(src, items[i].path) then items[i].(path := Rebase(items[i].path, src, dst)) else items[i];
      if !UniquePaths(items) {
        return false;
      }
      AppendChange(Moved, id, dst, src, now);
      ok := true;
    }

    /** ORDER BY length(path) DESC */
    method SelectBelow(p: Path) returns (subs: seq<Sub>)
      ensures subs == DeepestFirst(items, Subtree(items, p))
    {
      subs := [];
      var rest := set i | i in items && Selects(p, items[i].path);
      assert rest == Subtree(items, p);
      while rest != {}
        invariant rest <= items.Keys
        invariant subs + DeepestFirst(items, rest) == DeepestFirst(items, Subtree(items, p))
        decreases |rest|
      {
        FirstExists(items, rest);
        var i :| i in rest && forall j | j in rest :: Precedes(items, i, j);
        SameFirst(items, rest, i);
        assert subs + ([Sub(i, items[i].path)] + DeepestFirst(items, rest - {i}))
            == subs + [Sub(i, items[i].path)] + DeepestFirst(items, rest - {i});
        subs := subs + [Sub(i, items[i].path)];
        rest := rest - {i};
      }
    }

    method RemoveSubtree(id: Id, p: Path, now: int)
      modifies this`items, this`changes, this`last
      ensures State() == DeleteSubtree(old(State()), id, p, now)
    {
      var subs := SelectBelow(p);
      var k := 0;
      while k < |subs|
        invariant 0 <= k <= |subs|
        invariant minted == old(minted) && bootstrapping == old(bootstrapping)
        invariant DeleteEach(State(), subs[k..], now) == DeleteEach(old(State()), subs, now)
      {
        assert subs[k..][0] == subs[k] && subs[k..][1..] == subs[k + 1..];
        RemoveRow(subs[k].id, subs[k].path, now);
        k := k + 1;
      }
      RemoveRow(id, p, now);
    }

    method RemoveRow(id: Id, p: Path, now: int)
      modifies this`items, this`changes, this`last
      ensures State() == Journal(old(State()).(items := old(items) - {id}), Deleted, id, p, [], now)
    {
      items := items - {id};
      AppendChange(Deleted, id, p, [], now);
    }

    // ---- transactions ------------------------------------------------------------------------

    method Ensure(dir: Path)
      requires UniquePaths(items) && IsPath(dir)
      modifies this`items, this`minted
      ensures State() == EnsurePath(old(State()), dir) && UniquePaths(items)
      ensures old(Valid(State())) ==> Valid(State())
      decreases |dir|
    {
      if Valid(State()) {
        EnsurePathStep(State(), dir);
      }
      if dir == [] {
        return;
      }
      assert IsPath(Parent(dir));
      Ensure(Parent(dir));
      var here := ByPath(dir);
      if here.None? {
        var pid := ByPath(Parent(dir));
        var id := Insert(Row(pid.value, dir, Base(dir), true, 0, 0, 0, 0));
      }
    }

    /** Needs no more than the constraint on paths to do its work; on a valid catalogue it keeps
        it valid. */
    method Upsert(p: Path, o: Observed, now: int) returns (id: Id)
      requires UniquePaths(items) && IsPath(p)
      modifies this
      ensures (State(), id) == Catalogue.Upsert(old(State()), p, o, now)
      ensures old(Valid(State())) ==>
                && Valid(State()) && Evolves(old(State()), State(), Placeholders(old(State()), State()) - {id})
                && (p != [] ==> RowUpserted(old(State()), State(), id, p, o))
    {
      if Valid(State()) {
        UpsertStep(State(), p, o, now);
      }
      if p != [] {
        assert IsPath(Parent(p));
        Ensure(Parent(p));
      }
      var existing := ByPath(p);
      if existing.Some? {
        id := existing.value;
        UpdateStat(id, o);
      } else {
        var pid := ByPath(Parent(p));
        id := Insert(RowFor(pid.value, p, o));
      }
      AppendChange(Upserted, id, p, [], now);
    }

    /** The root has no row: deleting it only leaves a journal entry. */
    method Delete(p: Path, now: int)
      requires Valid(State())
      modifies this
      ensures State() == Catalogue.Delete(old(State()), p, now)
      ensures Valid(State()) && Evolves(old(State()), State(), {})
      ensures Indexed(old(items), p) ==> SubtreeGone(old(State()), State(), IdAt(old(items), p), p, now)
    {
      DeleteStep(State(), p, now);
      var it := ByPath(p);
      if it.Some? {
        RemoveSubtree(it.value, p, now);
      }
    }

    /** Accepted, and the catalogue kept a tree, if and only if the LIKEs stay within bounds; what
        is refused is rolled back. */
    method Move(src: Path, dst: Path, now: int) returns (accepted: bool)
      requires Valid(State()) && src != [] && dst != [] && IsPath(dst)
      modifies this
      ensures State() == Catalogue.Move(old(State()), src, dst, now)
      ensures UniquePaths(items)
      ensures Indexed(old(items), src) ==> (accepted && Tree(items) <==> MoveSafe(old(items), src, dst))
      ensures Indexed(old(items), src) ==> (accepted <==> MoveAccepted(old(State()), src, dst, now))
      ensures Indexed(old(items), src) ==> (accepted && RowMoved(old(State()), State(), IdAt(old(items), src), src, dst)
                                            <==> MoveClean(old(items), src, dst))
      ensures (Indexed(old(items), src) ==> MoveSafe(old(items), src, dst)) ==>
                Valid(State()) && Evolves(old(State()), State(), Placeholders(old(State()), State()))
    {
      var it := ByPath(src);
      if it.None? {
        MoveStep(State(), src, dst, now);
        return true;
      }
      MoveGuardIsExact(State(), src, dst, now);
      MoveIsExact(State(), src, dst, now);
      if MoveSafe(items, src, dst) {
        MoveStep(State(), src, dst, now);
      }
      accepted := MoveKnown(it.value, src, dst, now);
    }

    method MoveKnown(id: Id, src: Path, dst: Path, now: int) returns (accepted: bool)
      requires Valid(State()) && src != [] && dst != [] && IsPath(dst) && Indexed(items, src) && id == IdAt(items, src)
      modifies this
      ensures accepted <==> MoveAccepted(old(State()), src, dst, now)
      ensures State() == Catalogue.Move(old(State()), src, dst, now) && UniquePaths(items)
    {
      assert IsPath(Parent(dst));
      Ensure(Parent(dst));
      var saved := (items, changes, last);
      var newParent := ByPath(Parent(dst));
      var there := ByPath(dst);
      if there.Some? && there.value != id {
        RemoveSubtree(there.value, dst, now);
      }
      accepted := Repath(id, src, dst, newParent.value, now);
      if !accepted {
        items, changes, last := saved.0, saved.1, saved.2;
      }
    }

    method Mark(now: int)
      modifies this`changes, this`last
      ensures State() == MarkBootstrapped(old(State()), now)
    {
      AppendChange(Upserted, Root, [], [], now);
    }

    method PruneBefore(cut: int)
      modifies this`changes
      ensures State() == Prune(old(State()), cut)
    {
      var kept: seq<Change>, k := [], 0;
      while k < |changes|
        invariant 0 <= k <= |changes| && changes == old(changes)
        invariant kept + Pruned(changes[k..], cut) == Pruned(changes, cut)
      {
        assert changes[k..][0] == changes[k] && changes[k..][1..] == changes[k + 1..];
        if changes[k].ts >= cut {
          assert kept + ([changes[k]] + Pruned(changes[k + 1..], cut)) == kept + [changes[k]] + Pruned(changes[k + 1..], cut);
          kept := kept + [changes[k]];
        }
        k := k + 1;
      }
      assert Pruned(changes[k..], cut) == [];
      changes := kept;
    }
  
    // ---- reconciling -------------------------------------------------------------------------

    /** The loop over `missing` that looks for a vanished entry with o's inode. */
    method FindRenamed(t: Task, o: Observed, seen: set<Name>) returns (m: Option<Name>)
      ensures m == Candidate(t, t.missing, seen, o)
    {
      var k := 0;
      while k < |t.missing|
        invariant 0 <= k <= |t.missing|
        invariant Candidate(t, t.missing[k..], seen, o) == Candidate(t, t.missing, seen, o)
      {
        assert t.missing[k..][0] == t.missing[k] && t.missing[k..][1..] == t.missing[k + 1..];
        var n := t.missing[k];
        if n !in seen && n in t.known && t.known[n] in t.was
           && o.ino != 0 && t.was[t.known[n]].ino == o.ino && t.was[t.known[n]].dev == o.dev && t.was[t.known[n]].isDir == o.isDir {
          return Some(n);
        }
        k := k + 1;
      }
      m := None;
    }

    method ObserveOne(t: Task, o: Observed, seen: set<Name>, ids: map<Name, Id>, ghost dest: map<Name, Name>)
      returns (seen': set<Name>, ids': map<Name, Id>, ghost dest': map<Name, Name>, ok: bool)
      modifies this
      ensures ok <==> Observe(Progress(old(State()), seen, ids, dest, true), o, t).ok
      ensures ok ==> Progress(State(), seen', ids', dest', true) == Observe(Progress(old(State()), seen, ids, dest, true), o, t)
      ensures minted >= old(minted) && bootstrapping == old(bootstrapping)
    {
      seen', ids', dest', ok := seen + {o.name}, ids, dest, true;
      var p := t.dir + [o.name];
      if o.name in t.known {
        var id := t.known[o.name];
        ids' := ids[o.name := id];
        if id in t.was && Differs(t.was[id], o) {
          UpdateStat(id, o);
          JournalChange(id, p, t.now);
        }
        return;
      }
      if o.ino != 0 {
        var m := FindRenamed(t, o, seen');
        if m.Some? {
          var id := t.known[m.value];
          seen', dest' := seen' + {m.value}, dest[m.value := o.name];
          ok := Repath(id, t.dir + [m.value], p, t.pid, t.now);
          if !ok {
            return;
          }
          if id in items {
            items := items[id := items[id].(size := o.size, mtime := o.mtime)];
          }
          ids' := ids[o.name := id];
          return;
        }
      }
      var id := Insert(RowFor(t.pid, p, o));
      JournalChange(id, p, t.now);
      ids' := ids[o.name := id];
    }

    method DropMissing(t: Task, seen: set<Name>, ghost ids: map<Name, Id>, ghost dest: map<Name, Name>)
      returns (ghost dest': map<Name, Name>)
      modifies this
      ensures Progress(State(), seen, ids, dest', true) == DropAll(Progress(old(State()), seen, ids, dest, true), t.missing, t)
    {
      dest' := dest;
      var k := 0;
      while k < |t.missing|
        invariant 0 <= k <= |t.missing|
        invariant DropAll(Progress(State(), seen, ids, dest', true), t.missing[k..], t)
               == DropAll(Progress(old(State()), seen, ids, dest, true), t.missing, t)
      {
        assert t.missing[k..][0] == t.missing[k] && t.missing[k..][1..] == t.missing[k + 1..];
        var n := t.missing[k];
        if n !in seen && n in t.known {
          RemoveSubtree(t.known[n], t.dir + [n], t.now);
          dest' := dest' - {n};
        }
        k := k + 1;
      }
    }

    /** The loops, up to the first update that is refused. */
    method Reconciling(t: Task, observed: seq<Observed>) returns (ids: map<Name, Id>, ok: bool)
      requires t.was == items
      modifies this
      ensures var s := DropAll(ObserveAll(Start(old(State()), t.known), observed, t), t.missing, t);
              && (ok <==> s.ok)
              && (ok ==> State() == s.c && ids == s.ids)
      ensures minted >= old(minted) && bootstrapping == old(bootstrapping)
    {
      ids, ok := map[], true;
      var seen: set<Name> := {};
      ghost var dest := map n | n in t.known :: n;
      ghost var s1 := ObserveAll(Start(old(State()), t.known), observed, t);
      var k := 0;
      while k < |observed|
        invariant 0 <= k <= |observed|
        invariant ObserveAll(Progress(State(), seen, ids, dest, true), observed[k..], t) == s1
        invariant minted >= old(minted) && bootstrapping == old(bootstrapping)
      {
        assert observed[k..][0] == observed[k] && observed[k..][1..] == observed[k + 1..];
        ghost var s := Progress(State(), seen, ids, dest, true);
        seen, ids, dest, ok := ObserveOne(t, observed[k], seen, ids, dest);
        if !ok {
          RefusedStays(Observe(s, observed[k], t), t, observed[k + 1..]);
          DropKeepsOk(s1, t, t.missing);
          return;
        }
        k := k + 1;
      }
      assert Progress(State(), seen, ids, dest, true) == s1;
      DropKeepsOk(s1, t, t.missing);
      DropKeepsCounters(s1, t, t.missing);
      dest := DropMissing(t, seen, ids, dest);
    }

    /** The parent's id, its ancestors indexed first if need be. */
    method Enter(dir: Path) returns (pid: Id)
      requires Valid(State()) && IsPath(dir)
      modifies this`items, this`minted
      ensures State() == Entered(old(State()), dir) && Valid(State())
      ensures pid == IdAt(items, dir) && (pid == Root || pid in items)
    {
      EnteredStep(State(), dir);
      var parent := ByPath(dir);
      if parent.None? {
        Ensure(dir);
        parent := ByPath(dir);
      }
      pid := parent.value;
    }

    /** The transaction of Reconcile; a refused update rolls it back. */
    method ReconcileEntered(dir: Path, pid: Id, observed: seq<Observed>, now: int)
      returns (ids: map<Name, Id>, ok: bool, ghost missing: seq<Name>)
      requires Valid(State()) && (dir == [] || Indexed(items, dir)) && pid == IdAt(items, dir) && (pid == Root || pid in items)
      modifies this
      ensures ListsKnown(missing, Known(old(items), pid))
      ensures var s := Reconciled(old(State()), dir, observed, missing, now);
              && (ok <==> s.ok)
              && (ok ==> State() == s.c && ids == s.ids)
              && (!ok ==> State() == old(State()).(minted := minted) && minted >= old(minted) && ids == map[])
    {
      var known := ChildrenOf(pid);
      var listed := ListOf(known.Keys);
      missing := listed;
      var t := Task(dir, pid, known, items, listed, now);
      assert t == TaskFor(State(), dir, missing, now);
      var saved := (items, changes, last);
      ids, ok := Reconciling(t, observed);
      if !ok {
        items, changes, last, ids := saved.0, saved.1, saved.2, map[];
      }
    }

    /** Makes the catalogue agree with the observed contents of dir.  `missing` is the order in
        which the hash map happened to list the known names.  A refused update fails the call. */
    method Reconcile(dir: Path, observed: seq<Observed>, now: int)
      returns (ids: map<Name, Id>, ok: bool, ghost missing: seq<Name>)
      requires Valid(State()) && IsPath(dir) && DistinctNames(observed)
      modifies this
      ensures var a := Entered(old(State()), dir);
              && ListsKnown(missing, Known(a.items, IdAt(a.items, dir)))
              && (ok <==> Reconciled(a, dir, observed, missing, now).ok)
              && (ok ==> (State(), ids) == Catalogue.Reconcile(old(State()), dir, observed, missing, now))
              && (!ok ==> State() == a.(minted := minted) && minted >= a.minted && ids == map[])
              && (CaseClean(a.items, dir, observed) ==>
                    ok && Valid(State()) && Evolves(old(State()), State(), ReconcileUnlogged(old(State()), a, ids)))
    {
      ghost var before := State();
      var pid := Enter(dir);
      ghost var a := State();
      ids, ok, missing := ReconcileEntered(dir, pid, observed, now);
      if CaseClean(a.items, dir, observed) {
        ReconcileStep(before, dir, observed, missing, now);
      }
    }

    // ---- the journal --------------------------------------------------------------------------

    /** SELECT MAX(seq), and 0 when there is none. */
    method LatestSeq() returns (n: nat)
      ensures n == MaxSeq(changes)
    {
      n := 0;
      var k := |changes|;
      while k > 0
        invariant 0 <= k <= |changes| && n == MaxSeq(changes[k..])
      {
        k := k - 1;
        assert changes[k..][0] == changes[k] && changes[k..][1..] == changes[k + 1..];
        if changes[k].seqNo >= n {
          n := changes[k].seqNo;
        }
      }
      assert changes[0..] == changes;
    }

    method JournalStart() returns (n: nat)
      ensures n == MinSeq(changes)
    {
      n := 0;
      var k := |changes|;
      while k > 0
        invariant 0 <= k <= |changes| && n == MinSeq(changes[k..])
      {
        k := k - 1;
        assert changes[k..][0] == changes[k] && changes[k..][1..] == changes[k + 1..];
        if k == |changes| - 1 || changes[k].seqNo <= n {
          n := changes[k].seqNo;
        }
      }
      assert changes[0..] == changes;
    }

    /** WHERE seq > since ORDER BY seq */
    method SelectAfter(since: nat) returns (rows: seq<Change>)
      ensures rows == After(changes, since)
    {
      rows := [];
      var k := 0;
      while k < |changes|
        invariant 0 <= k <= |changes|
        invariant rows + After(changes[k..], since) == After(changes, since)
      {
        assert changes[k..][0] == changes[k] && changes[k..][1..] == changes[k + 1..];
        if changes[k].seqNo > since {
          assert rows + ([changes[k]] + After(changes[k + 1..], since)) == rows + [changes[k]] + After(changes[k + 1..], since);
          rows := rows + [changes[k]];
        }
        k := k + 1;
      }
      assert After(changes[k..], since) == [];
    }

    /** The entries after `since`, or a reset. */
    method ChangesAfter(since: nat, limit: nat) returns (a: Answer)
      ensures a == Feed.Changes(State(), since, limit)
    {
      var latest := LatestSeq();
      var start := JournalStart();
      if since == 0 || (start > 0 && since < start - 1) {
        return Answer([], latest, false, true);
      }
      var rows := SelectAfter(since);
      if |rows| > limit {
        a := Answer(rows[..limit], if limit > 0 then rows[limit - 1].seqNo else latest, true, false);
      } else {
        a := Answer(rows, latest, false, false);
      }
    }

    /** What the feed handler answers: compaction, filtering, and the current items.  A reset for
        a first call, and else exactly when an entry after `since` has been pruned from a journal
        that is not empty; it hands out the position of the last entry. */
    method AnswerJournal(since: nat, limit: nat, visible: Path -> bool) returns (page: Reply)
      requires Valid(State()) && limit >= 1
      ensures page == Page(State(), since, limit, visible)
      ensures page.reset <==> since == 0 || (changes != [] && Lost(State(), since))
      ensures page.reset || changes == [] ==> page.entries == [] && page.seqNo == if changes == [] then 0 else last
    {
      ResetIsExact(State(), since, limit);
      var a := ChangesAfter(since, limit);
      var deleted := DeletedIn(a.changes);
      var entries := CompactPage(a.changes, deleted, visible);
      page := Reply(a.latest, a.reset, entries, a.truncated);
    }

    method CompactPage(page: seq<Change>, deleted: set<Id>, visible: Path -> bool) returns (entries: seq<Entry>)
      ensures entries == Compacted(page, deleted, items, visible)
    {
      entries := [];
      var k := 0;
      while k < |page|
        invariant 0 <= k <= |page|
        invariant entries + Compacted(page[k..], deleted, items, visible) == Compacted(page, deleted, items, visible)
      {
        assert page[k..][0] == page[k] && page[k..][1..] == page[k + 1..];
        ghost var rest := Compacted(page[k + 1..], deleted, items, visible);
        if !Dropped(page[k], deleted, visible) {
          var x := EntryFor(page[k], items);
          assert Compacted(page[k..], deleted, items, visible) == [x] + rest;
          assert entries + ([x] + rest) == entries + [x] + rest;
          entries := entries + [x];
        } else {
          assert Compacted(page[k..], deleted, items, visible) == rest;
        }
        k := k + 1;
      }
      assert Compacted(page[k..], deleted, items, visible) == [];
    }
  }

  method DeletedIn(page: seq<Change>) returns (deleted: set<Id>)
    ensures deleted == DeletedIds(page)
  {
    deleted := {};
    var k := 0;
    while k < |page|
      invariant 0 <= k <= |page|
      invariant deleted == DeletedIds(page[..k])
    {
      DeletedNext(page, k);
      if page[k].kind == Deleted {
        deleted := deleted + {page[k].id};
      }
      k := k + 1;
    }
    assert page[..k] == page;
  }

  lemma DeletedNext(changes: seq<Change>, k: nat)
    requires k < |changes|
    ensures DeletedIds(changes[..k + 1]) == DeletedIds(changes[..k]) + if changes[k].kind == Deleted then {changes[k].id} else {}
  {
    var a, b := changes[..k], changes[..k + 1];
    forall id | id in DeletedIds(b) ensures id in DeletedIds(a) || (changes[k].kind == Deleted && changes[k].id == id) {
      var x :| 0 <= x < |b| && b[x].kind == Deleted && b[x].id == id;
      assert x < k ==> a[x] == b[x];
    }
    forall id | id in DeletedIds(a) ensures id in DeletedIds(b) {
      var x :| 0 <= x < |a| && a[x].kind == Deleted && a[x].id == id;
      assert b[x] == a[x];
    }
    assert changes[k].kind == Deleted ==> b[k].id == changes[k].id;
  }

  lemma KnownUnique(items: Items, pid: Id, known: map<Name, Id>)
    requires Tree(items) && (pid == Root || pid in items)
    requires forall n | n in known :: known[n] in items && items[known[n]].parent == pid && items[known[n]].name == n
    requires forall i | i in items && items[i].parent == pid :: items[i].name in known
    ensures known == Known(items, pid)
  {
    var k' := Known(items, pid);
    forall n | n in known ensures n in k' && k'[n] == known[n] {
      var i, j := known[n], k'[n];
      SiblingsByName(items, pid, i, j);
    }
    assert forall n | n in k' :: n in known;
  }

  lemma SiblingsByName(items: Items, pid: Id, i: Id, j: Id)
    requires Tree(items) && i in items && j in items && (pid == Root || pid in items)
    requires items[i].parent == pid && items[j].parent == pid && items[i].name == items[j].name
    ensures i == j
  {
    assert RowOk(items, i) && RowOk(items, j);
    if pid in items {
      assert RowOk(items, pid);
    }
    assert items[i].path == Parent(items[i].path) + [items[i].name];
    assert items[j].path == Parent(items[j].path) + [items[j].name];
  }
}
