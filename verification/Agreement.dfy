/** When the children of a reconciled directory are exactly what was observed. */
module Agreement {
  import opened Paths
  import opened Catalogue
  import opened TreeInvariant
  import opened History
  import opened Reconciling

  /** No entry under a new name has the inode and kind of a known child whose name is
      observed as well, further down the listing. */
  ghost predicate NoLateTwin(known: map<Name, Id>, was: Items, all: seq<Observed>) {
    forall j, k | 0 <= j < k < |all| && all[j].name !in known && all[k].name in known && known[all[k].name] in was ::
      !SameInode(was[known[all[k].name]], all[j])
  }

  predicate Shows(r: Row, dir: Path, o: Observed) {
    r.path == dir + [o.name] && r.isDir == o.isDir && r.size == o.size && r.mtime == o.mtime
  }

  /** Where the id of an observed entry comes from. */
  ghost predicate Origin(t: Task, id: Id, o: Observed) {
    if o.name in t.known then id == t.known[o.name]
    else id !in t.was || exists m :: m in t.known && id == t.known[m] && id in t.was && SameInode(t.was[id], o)
  }

  /** The inode a row records is the observed one, unless the row has not been written at all. */
  ghost predicate InodeOk(was: Items, id: Id, r: Row, o: Observed) {
    (r.ino == o.ino && r.dev == o.dev) || (id in was && r == was[id])
  }

  ghost predicate EntryOk(s: Progress, t: Task, o: Observed) {
    && o.name in s.ids && o.name in s.seen
    && s.ids[o.name] in s.c.items
    && Shows(s.c.items[s.ids[o.name]], t.dir, o)
    && Origin(t, s.ids[o.name], o)
    && InodeOk(t.was, s.ids[o.name], s.c.items[s.ids[o.name]], o)
  }

  /** Every known child with the inode and kind of entry j is itself observed, or has them in
      common with an earlier new entry. */
  ghost predicate Unclaimed(known: map<Name, Id>, was: Items, all: seq<Observed>, j: nat)
    requires j < |all|
  {
    forall m | m in known && known[m] in was && SameInode(was[known[m]], all[j]) ::
      m in Names(all) || exists i :: 0 <= i < j && all[i].name !in known && SameInode(was[known[m]], all[i])
  }

  /** A new entry that did not get the id of a known child had no claim to one. */
  ghost predicate FreshOnlyIfUnclaimed(known: map<Name, Id>, was: Items, ids: map<Name, Id>, all: seq<Observed>, k: nat)
    requires k <= |all|
  {
    forall j | 0 <= j < k && all[j].name !in known && all[j].name in ids && ids[all[j].name] !in was :: Unclaimed(known, was, all, j)
  }

  /** After the first k entries. */
  ghost predicate Agreed(s: Progress, t: Task, all: seq<Observed>, k: nat)
    requires k <= |all|
  {
    && s.dest.Keys == t.known.Keys
    && s.ids.Keys == Names(all[..k])
    && (forall j | 0 <= j < k :: EntryOk(s, t, all[j]))
    && (forall i | i in s.c.items && i !in t.was :: i in s.ids.Values)
    && FreshOnlyIfUnclaimed(t.known, t.was, s.ids, all, k)
    && (forall m | m in t.known && m in s.seen ::
          s.dest[m] in s.ids && s.ids[s.dest[m]] == t.known[m] && (m in s.ids || m !in Names(all)))
  }

  lemma NamesNext(all: seq<Observed>, k: nat)
    requires k < |all|
    ensures Names(all[..k + 1]) == Names(all[..k]) + {all[k].name}
  {
    assert all[..k + 1] == all[..k] + [all[k]];
  }

  lemma NameAt(all: seq<Observed>, n: Name) returns (k: nat)
    requires n in Names(all)
    ensures k < |all| && all[k].name == n
  {
    var o :| o in all && o.name == n;
    k :| 0 <= k < |all| && all[k] == o;
  }

  lemma NotYetNamed(all: seq<Observed>, k: nat)
    requires k < |all| && DistinctNames(all)
    ensures all[k].name !in Names(all[..k]) && all[k].name in Names(all)
  {
    assert all[k] in all;
    forall o | o in all[..k] ensures o.name != all[k].name {
      var j :| 0 <= j < k && all[..k][j] == o;
    }
  }

  /** The next name has not been touched in any way. */
  lemma NextUntouched(s: Progress, t: Task, all: seq<Observed>, k: nat)
    requires k < |all| && DistinctNames(all) && Agreed(s, t, all, k)
    ensures all[k].name !in s.ids
    ensures all[k].name in t.known ==> all[k].name !in s.seen
  {
    NotYetNamed(all, k);
  }

  /** Entries done earlier keep their rows. */
  lemma EntriesKept(s: Progress, s': Progress, t: Task, all: seq<Observed>, k: nat)
    requires k < |all| && DistinctNames(all) && Agreed(s, t, all, k)
    requires s.seen <= s'.seen && (forall n | n in s.ids :: n in s'.ids && s'.ids[n] == s.ids[n])
    requires forall i | i in s.c.items && i in s.ids.Values :: i in s'.c.items && s'.c.items[i] == s.c.items[i]
    ensures forall j | 0 <= j < k :: EntryOk(s', t, all[j])
  {
    forall j | 0 <= j < k ensures EntryOk(s', t, all[j]) {
      assert EntryOk(s, t, all[j]);
      assert s.ids[all[j].name] in s.ids.Values;
    }
  }

  lemma EntriesNext(s: Progress, s': Progress, t: Task, all: seq<Observed>, k: nat, id: Id)
    requires k < |all| && DistinctNames(all) && Agreed(s, t, all, k) && all[k].name !in s.ids
    requires s'.ids == s.ids[all[k].name := id] && s.seen <= s'.seen && EntryOk(s', t, all[k])
    requires forall i | i in s.c.items && i in s.ids.Values :: i in s'.c.items && s'.c.items[i] == s.c.items[i]
    ensures forall j | 0 <= j < k + 1 :: EntryOk(s', t, all[j])
  {
    EntriesKept(s, s', t, all, k);
  }

  /** The id of a done entry sits under its own name. */
  lemma DonePath(s: Progress, t: Task, all: seq<Observed>, k: nat, i: Id) returns (n: Name)
    requires k <= |all| && Agreed(s, t, all, k) && i in s.ids.Values
    ensures n in s.ids && s.ids[n] == i && n in s.seen && i in s.c.items && s.c.items[i].path == t.dir + [n]
  {
    n :| n in s.ids && s.ids[n] == i;
    var j := NameAt(all[..k], n);
    assert EntryOk(s, t, all[j]);
  }

  lemma DoneKnown(s: Progress, s': Progress, t: Task, all: seq<Observed>, k: nat, id: Id)
    requires k < |all| && Agreed(s, t, all, k)
    requires s'.ids == s.ids[all[k].name := id] && all[k].name !in s.ids
    requires s'.dest.Keys == t.known.Keys
    requires forall m | m in t.known && m in s'.seen ::
               (m in s.seen && s'.dest[m] == s.dest[m])
               || (s'.dest[m] == all[k].name && t.known[m] == id && (m == all[k].name || m !in Names(all)))
    ensures forall m | m in t.known && m in s'.seen ::
              s'.dest[m] in s'.ids && s'.ids[s'.dest[m]] == t.known[m] && (m in s'.ids || m !in Names(all))
  {
    assert forall n | n in s.ids :: n in s'.ids && s'.ids[n] == s.ids[n];
  }

  lemma NewcomersNamed(s: Progress, s': Progress, t: Task, all: seq<Observed>, k: nat, id: Id)
    requires k < |all| && Agreed(s, t, all, k) && s'.ids == s.ids[all[k].name := id] && all[k].name !in s.ids
    requires forall i | i in s'.c.items && i !in t.was :: i in s.c.items || i == id
    ensures forall i | i in s'.c.items && i !in t.was :: i in s'.ids.Values
  {
    forall i | i in s'.c.items && i !in t.was ensures i in s'.ids.Values {
      if i == id {
        assert s'.ids[all[k].name] == i;
      } else {
        var n := DonePath(s, t, all, k, i);
        assert s'.ids[n] == i;
      }
    }
  }

  lemma FreshNext(s: Progress, s': Progress, t: Task, all: seq<Observed>, k: nat, id: Id)
    requires k < |all| && DistinctNames(all) && FreshOnlyIfUnclaimed(t.known, t.was, s.ids, all, k)
    requires s'.ids == s.ids[all[k].name := id]
    requires all[k].name !in t.known && id !in t.was ==> Unclaimed(t.known, t.was, all, k)
    ensures FreshOnlyIfUnclaimed(t.known, t.was, s'.ids, all, k + 1)
  {
    forall j | 0 <= j < k + 1 && all[j].name !in t.known && all[j].name in s'.ids && s'.ids[all[j].name] !in t.was
      ensures Unclaimed(t.known, t.was, all, j)
    {
      assert j < k ==> all[j].name != all[k].name;
    }
  }

  /** One entry further, in terms of what changed. */
  lemma AgreedNext(s: Progress, s': Progress, t: Task, all: seq<Observed>, k: nat, id: Id)
    requires k < |all| && DistinctNames(all) && Agreed(s, t, all, k)
    requires s'.ids == s.ids[all[k].name := id] && s.seen <= s'.seen
    requires EntryOk(s', t, all[k])
    requires forall i | i in s.c.items && i in s.ids.Values :: i in s'.c.items && s'.c.items[i] == s.c.items[i]
    requires s'.dest.Keys == t.known.Keys
    requires forall m | m in t.known && m in s'.seen ::
               (m in s.seen && s'.dest[m] == s.dest[m])
               || (s'.dest[m] == all[k].name && t.known[m] == id && (m == all[k].name || m !in Names(all)))
    requires forall i | i in s'.c.items && i !in t.was :: i in s.c.items || i == id
    requires all[k].name !in t.known && id !in t.was ==> Unclaimed(t.known, t.was, all, k)
    ensures Agreed(s', t, all, k + 1)
  {
    NextUntouched(s, t, all, k);
    EntriesNext(s, s', t, all, k, id);
    NamesNext(all, k);
    DoneKnown(s, s', t, all, k, id);
    NewcomersNamed(s, s', t, all, k, id);
    FreshNext(s, s', t, all, k, id);
  }

  /** Rows of done entries are not within another child. */
  lemma DoneElsewhere(s: Progress, t: Task, all: seq<Observed>, k: nat, i: Id, m: Name)
    requires k <= |all| && Agreed(s, t, all, k) && i in s.ids.Values && m !in s.ids
    ensures i in s.c.items && s.c.items[i].path != t.dir + [m] && !Within(t.dir + [m], s.c.items[i].path)
  {
    var n := DonePath(s, t, all, k, i);
    ChildrenApart(t.dir, m, n);
  }

  lemma KnownEntryOk(s: Progress, s': Progress, t: Task, o: Observed)
    requires KnownOutcome(s, s', o, t) && t.known[o.name] in t.was && t.known[o.name] in s.c.items
    requires s.c.items[t.known[o.name]] == t.was[t.known[o.name]] && t.was[t.known[o.name]].path == t.dir + [o.name]
    requires s'.c == s.c ==> !Differs(t.was[t.known[o.name]], o)
    ensures EntryOk(s', t, o)
  {
  }

  lemma KnownAgrees(a: Cat, s: Progress, s': Progress, t: Task, all: seq<Observed>, k: nat)
    requires TaskOf(a, t) && Untouched(s, t) && k < |all| && DistinctNames(all) && Agreed(s, t, all, k)
    requires KnownOutcome(s, s', all[k], t)
    requires s'.c == s.c ==> t.known[all[k].name] in t.was && !Differs(t.was[t.known[all[k].name]], all[k])
    ensures Agreed(s', t, all, k + 1)
  {
    var o := all[k];
    var id := t.known[o.name];
    NextUntouched(s, t, all, k);
    NotYetNamed(all, k);
    KnownRow(a, t, o.name);
    KnownRows(s, s', o, t);
    forall i | i in s.c.items && i in s.ids.Values ensures s'.c.items[i] == s.c.items[i] {
      DoneElsewhere(s, t, all, k, i, o.name);
    }
    KnownEntryOk(s, s', t, o);
    AgreedNext(s, s', t, all, k, id);
  }

  lemma NewEntryOk(s: Progress, s': Progress, t: Task, o: Observed)
    requires NewOutcome(s, s', o, t) && o.name !in t.known && Minted(s.c.minted) !in t.was
    ensures EntryOk(s', t, o)
  {
    BelowChild(t.dir, o.name);
  }

  /** A known child that has been seen but is not observed went to an earlier new entry. */
  lemma SeenWentEarlier(a: Cat, s: Progress, t: Task, all: seq<Observed>, k: nat, m: Name)
    requires TaskOf(a, t) && k < |all| && Agreed(s, t, all, k) && m in t.known && m in s.seen && m !in Names(all)
    ensures exists i :: 0 <= i < k && all[i].name !in t.known && SameInode(t.was[t.known[m]], all[i])
  {
    var i := NameAt(all[..k], s.dest[m]);
    assert EntryOk(s, t, all[i]);
    KnownApart(a, t, m);
    assert all[i] in all;
    KnownRow(a, t, m);
    if all[i].name !in t.known {
      var m' :| m' in t.known && t.known[m] == t.known[m'] && SameInode(t.was[t.known[m]], all[i]);
    }
  }

  lemma NewUnclaimed(a: Cat, s: Progress, t: Task, all: seq<Observed>, k: nat)
    requires TaskOf(a, t) && k < |all| && Agreed(s, t, all, k) && all[k].name !in t.known
    requires forall n | n in t.known && t.known[n] in t.was && all[k].ino != 0 :: n in s.seen + {all[k].name} || !SameInode(t.was[t.known[n]], all[k])
    ensures Unclaimed(t.known, t.was, all, k)
  {
    forall m | m in t.known && t.known[m] in t.was && SameInode(t.was[t.known[m]], all[k]) && m !in Names(all)
      ensures exists i :: 0 <= i < k && all[i].name !in t.known && SameInode(t.was[t.known[m]], all[i])
    {
      SeenWentEarlier(a, s, t, all, k, m);
    }
  }

  lemma NewAgrees(a: Cat, s: Progress, s': Progress, t: Task, all: seq<Observed>, k: nat)
    requires TaskOf(a, t) && k < |all| && DistinctNames(all) && Agreed(s, t, all, k)
    requires NewOutcome(s, s', all[k], t) && all[k].name !in t.known && Unclaimed(t.known, t.was, all, k)
    requires Minted(s.c.minted) !in a.items && Minted(s.c.minted) !in s.c.items
    ensures Agreed(s', t, all, k + 1)
  {
    NextUntouched(s, t, all, k);
    NewEntryOk(s, s', t, all[k]);
    AgreedNext(s, s', t, all, k, Minted(s.c.minted));
  }

  /** A candidate that has not been seen yet is not observed later either. */
  lemma CandidateUnlisted(t: Task, all: seq<Observed>, k: nat, m: Name)
    requires k < |all| && NoLateTwin(t.known, t.was, all) && all[k].name !in t.known
    requires m in t.known && t.known[m] in t.was && SameInode(t.was[t.known[m]], all[k])
    requires m !in Names(all[..k])
    ensures m !in Names(all)
  {
    forall o | o in all ensures o.name != m {
      var j :| 0 <= j < |all| && all[j] == o;
      if j < k {
        assert all[j] in all[..k];
      }
    }
  }

  lemma UnseenNotDone(s: Progress, t: Task, all: seq<Observed>, k: nat, m: Name)
    requires k <= |all| && Agreed(s, t, all, k) && m !in s.seen
    ensures m !in s.ids
  {
    forall o | o in all[..k] ensures o.name != m {
      var j :| 0 <= j < k && all[..k][j] == o;
      assert EntryOk(s, t, all[j]);
    }
  }

  lemma RenamedEntryOk(s: Progress, s': Progress, t: Task, o: Observed, m: Name)
    requires m in t.known && t.known[m] in t.was && SameInode(t.was[t.known[m]], o) && o.name !in t.known
    requires s'.ids == s.ids[o.name := t.known[m]] && o.name in s'.seen
    requires t.known[m] in s'.c.items && Shows(s'.c.items[t.known[m]], t.dir, o)
    requires s'.c.items[t.known[m]].ino == o.ino && s'.c.items[t.known[m]].dev == o.dev
    ensures EntryOk(s', t, o)
  {
  }

  lemma RenameAgrees(s: Progress, s': Progress, t: Task, all: seq<Observed>, k: nat, m: Name)
    requires k < |all| && DistinctNames(all) && Agreed(s, t, all, k)
    requires m !in s.ids && m !in Names(all)
    requires RenameEffect(s, s', all[k], t, m) && all[k].name !in t.known
    requires EntryOk(s', t, all[k])
    requires s.c.items[t.known[m]].path == t.dir + [m] && t.known[m] in t.was
    ensures Agreed(s', t, all, k + 1)
  {
    NextUntouched(s, t, all, k);
    forall i | i in s.c.items && i in s.ids.Values ensures s'.c.items[i] == s.c.items[i] {
      DoneElsewhere(s, t, all, k, i, m);
    }
    AgreedNext(s, s', t, all, k, t.known[m]);
  }

  // ---- all entries, then the missing ------------------------------------------------------

  /** The row taken for renamed shows the entry. */
  lemma RenamedShows(a: Cat, s: Progress, s': Progress, t: Task, o: Observed, m: Name)
    requires Running(a, s, t) && o.name !in t.known && IsName(o.name) && CaseSafe(s.c.items, t.dir + [m])
    requires RenameOutcome(s, s', o, t, m) && m in s.dest && m != o.name && SameInode(t.was[t.known[m]], o)
    ensures EntryOk(s', t, o)
  {
    KnownRow(a, t, m);
    BelowChild(t.dir, o.name);
    RenameJournal(s, s', o, t, m);
    RenamedRows(s.c.items, s'.c.items, t.dir, t.known[m], t.pid, m, o);
    RenamedEntryOk(s, s', t, o, m);
  }

  lemma ObservedRename(a: Cat, s: Progress, s': Progress, t: Task, all: seq<Observed>, k: nat, m: Name)
    requires Running(a, s, t) && k < |all| && DistinctNames(all) && Agreed(s, t, all, k) && CaseSafe(s.c.items, t.dir + [m])
    requires all[k].name !in t.known && all[k].name !in s.seen && m !in s.ids && m !in Names(all)
    requires RenameOutcome(s, s', all[k], t, m) && m != all[k].name && SameInode(t.was[t.known[m]], all[k])
    ensures Agreed(s', t, all, k + 1)
  {
    KnownRow(a, t, m);
    RenameRows(a, s, s', all[k], t, m);
    RenamedShows(a, s, s', t, all[k], m);
    RenameAgrees(s, s', t, all, k, m);
  }

  lemma ObserveAgrees(a: Cat, s: Progress, t: Task, touched: set<Name>, all: seq<Observed>, k: nat)
    requires CaseReady(t, s.dest, touched) && k < |all| && EntryClean(t, touched, all[k])
    requires Running(a, s, t) && k < |all| && DistinctNames(all) && NoLateTwin(t.known, t.was, all) && Agreed(s, t, all, k)
    requires all[k].name in s.seen ==> all[k].name in t.known
    requires SetOf(t.missing) == t.known.Keys
    ensures Agreed(Observe(s, all[k], t), t, all, k + 1)
  {
    var o := all[k];
    var s' := Observe(s, o, t);
    var c := ObserveCases(s, o, t);
    NextUntouched(s, t, all, k);
    if o.name in t.known {
      KnownRow(a, t, o.name);
      KnownAgrees(a, s, s', t, all, k);
    } else if c.Some? {
      UnseenNotDone(s, t, all, k, c.value);
      CandidateUnlisted(t, all, k, c.value);
      CaseSafeNow(a, s, t, touched, c.value);
      ObservedRename(a, s, s', t, all, k, c.value);
    } else {
      FreshId(a, s.c, Unlogged(a, s.ids));
      assert forall n | n in t.known :: n in SetOf(t.missing);
      NewUnclaimed(a, s, t, all, k);
      NewAgrees(a, s, s', t, all, k);
    }
  }

  lemma {:induction false} ObserveAllAgrees(a: Cat, s: Progress, t: Task, touched: set<Name>, all: seq<Observed>, k: nat)
    requires CaseReady(t, s.dest, touched) && RestClean(t, touched, all)
    requires Running(a, s, t) && k <= |all| && DistinctNames(all) && NoLateTwin(t.known, t.was, all) && Agreed(s, t, all, k)
    requires Pending(s, t.known.Keys, all[k..]) && SetOf(t.missing) == t.known.Keys
    ensures Agreed(ObserveAll(s, all[k..], t), t, all, |all|)
    decreases |all| - k
  {
    if k < |all| {
      var o := all[k];
      assert all[k..][0] == o && all[k..][1..] == all[k + 1..];
      ObserveAgrees(a, s, t, touched, all, k);
      ObserveRuns(a, s, o, t, touched);
      ObserveNames(s, o, t);
      PendingNext(s, Observe(s, o, t), t.known.Keys, all[k..]);
      ObserveAllAgrees(a, Observe(s, o, t), t, touched, all, k + 1);
    }
  }

  /** The children of dir are exactly the observed entries, under the returned ids. */
  ghost predicate Agrees(b: Items, ids: map<Name, Id>, dir: Path, all: seq<Observed>) {
    && ids.Keys == Names(all)
    && (forall j | 0 <= j < |all| ::
          all[j].name in ids && ids[all[j].name] in b && Shows(b[ids[all[j].name]], dir, all[j]))
    && (forall i | i in b && Below(dir, b[i].path) && |b[i].path| == |dir| + 1 ::
          Top(dir, b[i].path) in ids && ids[Top(dir, b[i].path)] == i)
  }

  ghost predicate Inodes(a: Items, b: Items, ids: map<Name, Id>, all: seq<Observed>) {
    forall j | 0 <= j < |all| && all[j].name in ids && ids[all[j].name] in b ::
      InodeOk(a, ids[all[j].name], b[ids[all[j].name]], all[j])
  }

  lemma StartAgrees(a: Cat, t: Task, all: seq<Observed>)
    requires TaskOf(a, t) && DistinctNames(all)
    ensures Agreed(Start(a, t.known), t, all, 0) && Pending(Start(a, t.known), t.known.Keys, all)
  {
    assert all[..0] == [];
    assert Names([]) == {};
  }

  lemma ObservingAgrees(a: Cat, dir: Path, all: seq<Observed>, missing: seq<Name>, now: int)
    requires Valid(a) && IsPath(dir) && (dir == [] || Indexed(a.items, dir)) && DistinctNames(all)
    requires NoLateTwin(Known(a.items, IdAt(a.items, dir)), a.items, all)
    requires ListsKnown(missing, Known(a.items, IdAt(a.items, dir))) && CaseClean(a.items, dir, all)
    ensures Agreed(Observing(a, dir, all, missing, now), TaskFor(a, dir, missing, now), all, |all|)
  {
    var t := TaskFor(a, dir, missing, now);
    var s := Start(a, t.known);
    StartRunning(a, t);
    StartAgrees(a, t, all);
    assert all[0..] == all;
    CaseCleanStarts(a, t, all);
    ObserveAllAgrees(a, s, t, Touched(t.known, t.was, all), all, 0);
  }

  /** What is dropped is within the names nobody has seen. */
  ghost predicate KeptOutside(b: Items, b1: Items, dir: Path, gone: set<Name>) {
    && (forall i | i in b1 :: i in b && b1[i] == b[i])
    && (forall i | i in b && i !in b1 :: exists n :: n in gone && Within(dir + [n], b[i].path))
  }

  lemma DropKeeps(a: Cat, s: Progress, t: Task, n: Name)
    requires Running(a, s, t) && n in t.known && n !in s.seen && n in s.dest && CaseSafe(s.c.items, t.dir + [n])
    ensures KeptOutside(s.c.items, Drop(s, n, t).c.items, t.dir, {n})
  {
    KnownRow(a, t, n);
    DeleteSubtreeStep(s.c, t.known[n], t.dir + [n], t.now);
    SubtreeWithout(s.c.items, Drop(s, n, t).c.items, t.known[n], t.dir + [n]);
  }

  lemma KeptTrans(b: Items, b1: Items, b2: Items, dir: Path, g1: set<Name>, g2: set<Name>)
    requires KeptOutside(b, b1, dir, g1) && KeptOutside(b1, b2, dir, g2)
    ensures KeptOutside(b, b2, dir, g1 + g2)
  {
    forall i | i in b && i !in b2 ensures exists n :: n in g1 + g2 && Within(dir + [n], b[i].path) {
      if i in b1 {
        var n :| n in g2 && Within(dir + [n], b1[i].path);
        assert n in g1 + g2;
      } else {
        var n :| n in g1 && Within(dir + [n], b[i].path);
        assert n in g1 + g2;
      }
    }
  }

  lemma KeptAll(b: Items, dir: Path, gone: set<Name>)
    ensures KeptOutside(b, b, dir, gone)
  {
  }

  lemma DropAny(a: Cat, s: Progress, t: Task, touched: set<Name>, n: Name)
    requires Running(a, s, t) && n in t.known && n in s.dest
    requires CaseReady(t, s.dest, touched) && DropsTouched(t, s.seen, touched)
    ensures Running(a, Drop(s, n, t), t)
  {
    if n !in s.seen {
      CaseSafeNow(a, s, t, touched, n);
      DropStep(a, s, t, n);
    }
  }

  lemma DropAnyKeeps(a: Cat, s: Progress, t: Task, touched: set<Name>, n: Name)
    requires Running(a, s, t) && n in t.known && n in s.dest
    requires CaseReady(t, s.dest, touched) && DropsTouched(t, s.seen, touched)
    ensures KeptOutside(s.c.items, Drop(s, n, t).c.items, t.dir, {n} - s.seen)
  {
    if n !in s.seen {
      assert {n} - s.seen == {n};
      DropCleanly(a, s, t, touched, n);
    } else {
      KeptAll(s.c.items, t.dir, {n} - s.seen);
    }
  }

  lemma DropCleanly(a: Cat, s: Progress, t: Task, touched: set<Name>, n: Name)
    requires Running(a, s, t) && n in t.known && n in s.dest && n !in s.seen
    requires CaseReady(t, s.dest, touched) && DropsTouched(t, s.seen, touched)
    ensures KeptOutside(s.c.items, Drop(s, n, t).c.items, t.dir, {n})
  {
    CaseSafeNow(a, s, t, touched, n);
    DropKeeps(a, s, t, n);
  }

  lemma SetOfCons(rest: seq<Name>, seen: set<Name>)
    requires rest != []
    ensures SetOf(rest) - seen == ({rest[0]} - seen) + (SetOf(rest[1..]) - seen)
  {
    assert rest == [rest[0]] + rest[1..];
  }

  lemma {:induction false} DropAllKeeps(a: Cat, s: Progress, t: Task, touched: set<Name>, rest: seq<Name>)
    requires CaseReady(t, s.dest, touched) && DropsTouched(t, s.seen, touched)
    requires Running(a, s, t) && Droppable(s.dest.Keys, t.known.Keys, rest)
    ensures KeptOutside(s.c.items, DropAll(s, rest, t).c.items, t.dir, SetOf(rest) - s.seen)
    decreases |rest|
  {
    if rest != [] {
      var n := rest[0];
      var s' := Drop(s, n, t);
      DroppableNext(s.dest.Keys, t.known.Keys, rest, s'.dest.Keys);
      DropAny(a, s, t, touched, n);
      DropAnyKeeps(a, s, t, touched, n);
      DropAllKeeps(a, s', t, touched, rest[1..]);
      KeptTrans(s.c.items, s'.c.items, DropAll(s', rest[1..], t).c.items, t.dir, {n} - s.seen, SetOf(rest[1..]) - s.seen);
      SetOfCons(rest, s.seen);
    }
  }

  /** The rows of the observed entries survive the dropping. */
  lemma EntriesSurvive(s1: Progress, s: Progress, t: Task, all: seq<Observed>)
    requires Agreed(s1, t, all, |all|)
    requires KeptOutside(s1.c.items, s.c.items, t.dir, t.known.Keys - s1.seen) && s.ids == s1.ids
    ensures forall j | 0 <= j < |all| ::
              all[j].name in s.ids && s.ids[all[j].name] in s.c.items && Shows(s.c.items[s.ids[all[j].name]], t.dir, all[j])
              && InodeOk(t.was, s.ids[all[j].name], s.c.items[s.ids[all[j].name]], all[j])
  {
    forall j | 0 <= j < |all|
      ensures all[j].name in s.ids && s.ids[all[j].name] in s.c.items && Shows(s.c.items[s.ids[all[j].name]], t.dir, all[j])
              && InodeOk(t.was, s.ids[all[j].name], s.c.items[s.ids[all[j].name]], all[j])
    {
      assert EntryOk(s1, t, all[j]);
      var i := s1.ids[all[j].name];
      forall n | n in t.known.Keys - s1.seen ensures !Within(t.dir + [n], s1.c.items[i].path) {
        ChildrenApart(t.dir, n, all[j].name);
      }
    }
  }

  /** Nothing else is left directly in dir. */
  lemma NoOtherChild(a: Cat, s1: Progress, s: Progress, t: Task, all: seq<Observed>, i: Id)
    requires Running(a, s, t) && Agreed(s1, t, all, |all|)
    requires s.ids == s1.ids && s.dest == s1.dest - (t.known.Keys - s1.seen)
    requires i in s.c.items && Below(t.dir, s.c.items[i].path) && |s.c.items[i].path| == |t.dir| + 1
    requires i in s1.c.items && s1.c.items[i] == s.c.items[i]
    ensures Top(t.dir, s.c.items[i].path) in s.ids && s.ids[Top(t.dir, s.c.items[i].path)] == i
  {
    if i in a.items {
      TopKnown(a, t, i);
      var m := Top(t.dir, a.items[i].path);
      assert s.c.items[i].path == Replant(t.dir, a.items[i].path, s.dest[m]);
      assert s1.dest[m] in s1.ids;
    } else {
      var n := DonePath(s1, t, all, |all|, i);
      BelowChild(t.dir, n);
    }
  }

  lemma ReconciledAgrees(a: Cat, dir: Path, all: seq<Observed>, missing: seq<Name>, now: int)
    requires Valid(a) && IsPath(dir) && (dir == [] || Indexed(a.items, dir)) && DistinctNames(all)
    requires ListsKnown(missing, Known(a.items, IdAt(a.items, dir)))
    requires NoLateTwin(Known(a.items, IdAt(a.items, dir)), a.items, all) && CaseClean(a.items, dir, all)
    ensures var s, s1 := Reconciled(a, dir, all, missing, now), Observing(a, dir, all, missing, now);
            && Agrees(s.c.items, s.ids, dir, all)
            && Inodes(a.items, s.c.items, s.ids, all)
            && Agreed(s1, TaskFor(a, dir, missing, now), all, |all|)
            && KeptOutside(s1.c.items, s.c.items, dir, Known(a.items, IdAt(a.items, dir)).Keys - s1.seen)
  {
    var t := TaskFor(a, dir, missing, now);
    var s1, s := Observing(a, dir, all, missing, now), Reconciled(a, dir, all, missing, now);
    ObservingRuns(a, dir, all, missing, now);
    ReconciledRuns(a, dir, all, missing, now);
    ObservingAgrees(a, dir, all, missing, now);
    ListedDroppable(missing, t.known);
    UnseenIsTouched(Start(a, t.known), t, all);
    DropAllKeeps(a, s1, t, Touched(t.known, t.was, all), missing);
    EntriesSurvive(s1, s, t, all);
    forall i | i in s.c.items && Below(dir, s.c.items[i].path) && |s.c.items[i].path| == |dir| + 1
      ensures Top(dir, s.c.items[i].path) in s.ids && s.ids[Top(dir, s.c.items[i].path)] == i
    {
      NoOtherChild(a, s1, s, t, all, i);
    }
    assert all[..|all|] == all;
  }

  lemma ListedDroppable(missing: seq<Name>, known: map<Name, Id>)
    requires ListsKnown(missing, known)
    ensures Droppable(known.Keys, known.Keys, missing)
  {
    forall k | 0 <= k < |missing| ensures missing[k] in known.Keys {
      assert missing[k] in SetOf(missing);
    }
  }
}
