/** What scanning tells the journal. */
module ScanLogs {
  import opened Paths
  import opened SqlLike
  import opened Catalogue
  import opened History
  import opened Reconciling
  import opened Agreement
  import opened ReconcileTheorems
  import opened Stamps
  import opened JournalMeaning
  import opened Disk
  import opened Rescans

  /** Every row shows something on disk as it is. */
  ghost predicate Shown(items: Items, d: Files) {
    forall i | i in items :: items[i].path in d && Match(items[i], d[items[i].path], true)
  }

  /** From c0 to c1 nothing was journaled. */
  predicate Unsaid(c0: Cat, c1: Cat) {
    c1.journal == c0.journal && c1.last == c0.last
  }

  /** From c0 to c1 the catalogue was scanned at `now`: all changed facts are journaled, unless
      bootstrapping; and then nothing is, if there was nothing to correct.  Nothing is said about
      the root. */
  ghost predicate Logs(c0: Cat, c1: Cat, d: Files, now: int) {
    && Stamped(c0, c1, now)
    && c1.bootstrapping == c0.bootstrapping
    && (forall k | |c0.journal| <= k < |c1.journal| :: c1.journal[k].path != [])
    && (!c0.bootstrapping ==> Evolves(c0, c1, {}))
    && (c0.bootstrapping && Shown(c0.items, d) ==> Shown(c1.items, d) && Unsaid(c0, c1))
  }

  lemma LogsNothing(c: Cat, d: Files, now: int)
    ensures Logs(c, c, d, now)
  {
    EvolvesSelf(c);
  }

  lemma LogsTrans(c0: Cat, c1: Cat, c2: Cat, d: Files, now: int)
    requires Valid(c0) && Valid(c1) && Valid(c2) && Logs(c0, c1, d, now) && Logs(c1, c2, d, now)
    ensures Logs(c0, c2, d, now)
  {
    StampedTrans(c0, c1, c2, now);
    if !c0.bootstrapping {
      EvolvesTrans(c0, c1, c2, {}, {});
    }
    forall k | |c0.journal| <= k < |c2.journal| ensures c2.journal[k].path != [] {
      if k < |c1.journal| {
        assert c2.journal[k] == c2.journal[..|c1.journal|][k];
      }
    }
  }

  // ---- reconciling one directory ------------------------------------------------------------------

  /** Where every row shows the disk, reconciling leaves the rows there are as they are. */
  lemma RescanShows(a: Cat, b: Items, e: Path, ids: map<Name, Id>, all: seq<Observed>, d: Files)
    requires Rescan(a, b, e, ids, all, d) && Shown(a.items, d)
    ensures Shown(b, d)
  {
    forall i | i in b ensures b[i].path in d && Match(b[i], d[b[i].path], true) {
      if ChildOf(e, b[i].path) {
        ChildAfter(a, b, e, ids, all, d, i);
      } else {
        DeepRow(a, b, e, ids, all, d, i);
        NotBackAgain(a, b, e, ids, all, d, i);
      }
    }
  }

  /** Nothing known differs from what is observed or is missing. */
  ghost predicate NothingToCorrect(t: Task, all: seq<Observed>) {
    && (forall k | 0 <= k < |all| && all[k].name in t.known && t.known[all[k].name] in t.was :: !Differs(t.was[t.known[all[k].name]], all[k]))
    && t.known.Keys <= Names(all)
  }

  lemma ObserveSilently(s: Progress, t: Task, all: seq<Observed>, k: nat)
    requires NothingToCorrect(t, all) && NoLateTwin(t.known, t.was, all) && k < |all|
    requires s.c.bootstrapping && s.seen == Names(all[..k])
    ensures var s' := Observe(s, all[k], t);
            Unsaid(s.c, s'.c) && s'.c.bootstrapping && s'.seen == Names(all[..k + 1])
  {
    var o := all[k];
    assert all[..k + 1] == all[..k] + [o];
    assert Names(all[..k + 1]) == Names(all[..k]) + {o.name};
    forall n | n in t.known && n !in Names(all[..k]) && n != o.name && o.name !in t.known && t.known[n] in t.was
      ensures !SameInode(t.was[t.known[n]], o)
    {
      var j := ListedLater(all, k, n);
    }
  }

  lemma ListedLater(all: seq<Observed>, k: nat, n: Name) returns (j: nat)
    requires k < |all| && n in Names(all) && n !in Names(all[..k]) && n != all[k].name
    ensures k < j < |all| && all[j].name == n
  {
    j := NameAt(all, n);
    assert forall i | 0 <= i < k :: all[..k][i] == all[i] && all[i] in all[..k];
  }

  lemma {:induction false} ObserveAllSilently(s: Progress, t: Task, all: seq<Observed>, k: nat)
    requires NothingToCorrect(t, all) && NoLateTwin(t.known, t.was, all) && k <= |all|
    requires s.c.bootstrapping && s.seen == Names(all[..k])
    ensures var s' := ObserveAll(s, all[k..], t); Unsaid(s.c, s'.c) && s'.seen == Names(all)
    decreases |all| - k
  {
    if k == |all| {
      assert all[k..] == [] && all[..k] == all;
    } else {
      ObserveSilently(s, t, all, k);
      assert all[k..][0] == all[k] && all[k..][1..] == all[k + 1..];
      ObserveAllSilently(Observe(s, all[k], t), t, all, k + 1);
    }
  }

  lemma {:induction false} DropNothing(s: Progress, rest: seq<Name>, t: Task)
    requires t.known.Keys <= s.seen
    ensures DropAll(s, rest, t) == s
    decreases |rest|
  {
    if rest != [] {
      DropNothing(s, rest[1..], t);
    }
  }

  /** While bootstrapping, a directory with nothing to correct is reconciled without a word. */
  lemma ReconcileSilently(a: Cat, dir: Path, all: seq<Observed>, missing: seq<Name>, now: int)
    requires dir == [] || Indexed(a.items, dir)
    requires a.bootstrapping && NothingToCorrect(TaskFor(a, dir, missing, now), all) && NoLateTwin(KnownIn(a.items, dir), a.items, all)
    ensures Unsaid(a, Reconciled(a, dir, all, missing, now).c)
  {
    var t := TaskFor(a, dir, missing, now);
    var s := Start(a, t.known);
    assert all[..0] == [] && all[0..] == all && Names([]) == {};
    ObserveAllSilently(s, t, all, 0);
    DropNothing(ObserveAll(s, all, t), missing, t);
  }

  lemma ShownIsCorrect(a: Cat, dir: Path, all: seq<Observed>, missing: seq<Name>, now: int, d: Files)
    requires Valid(a) && IsPath(dir) && (dir == [] || Indexed(a.items, dir)) && Listing(d, dir, all) && Shown(a.items, d)
    ensures NothingToCorrect(TaskFor(a, dir, missing, now), all)
  {
    var t := TaskFor(a, dir, missing, now);
    forall n | n in t.known ensures n in Names(all) {
      KnownRow(a, t, n);
      EntryOnDisk(d, dir, all, n);
    }
    forall k | 0 <= k < |all| && all[k].name in t.known ensures !Differs(t.was[t.known[all[k].name]], all[k]) {
      KnownRow(a, t, all[k].name);
      assert all[k] in all;
    }
  }

  lemma SaysNotRoot(log: seq<Change>, from: nat, dir: Path, ids: map<Name, Id>, was: Items)
    requires AllSay(log, from, dir, ids, was)
    ensures forall k | from <= k < |log| :: log[k].path != []
  {
    forall k | from <= k < |log| ensures log[k].path != [] {
      assert Says(log[k], dir, ids, was);
      if log[k].kind == Deleted {
        var n :| log[k].path == dir + [n] || Selects(dir + [n], log[k].path);
        SelectsNotRoot(dir + [n]);
      }
    }
  }

  /** What the reconciling of one directory tells the journal. */
  lemma ReconcileLogsAll(a: Cat, c: Cat, dir: Path, ids: map<Name, Id>, all: seq<Observed>, missing: seq<Name>, now: int, d: Files)
    requires Valid(a) && Compatible(a.items, d) && DiskOk(d) && IsPath(dir) && (dir == [] || Indexed(a.items, dir)) && Listing(d, dir, all)
    requires ListsKnown(missing, KnownIn(a.items, dir)) && Rescan(a, c.items, dir, ids, all, d)
    requires Reconciled(a, dir, all, missing, now).ok && c == Reconciled(a, dir, all, missing, now).c
    ensures Logs(a, c, d, now)
  {
    CompatibleHasNoTwin(a, dir, all, d);
    CompatibleIsCaseClean(a, dir, all, d);
    ReconcileStep(a, dir, all, missing, now);
    ReconcileStamped(a, dir, all, missing, now);
    ReconcileLogs(a, dir, all, missing, now);
    SaysNotRoot(c.journal, |a.journal|, dir, Reconciled(a, dir, all, missing, now).ids, a.items);
    if a.bootstrapping && Shown(a.items, d) {
      ShownIsCorrect(a, dir, all, missing, now, d);
      ReconcileSilently(a, dir, all, missing, now);
      RescanShows(a, c.items, dir, ids, all, d);
    }
  }

  // ---- pruning -----------------------------------------------------------------------------------------

  lemma {:induction false} PrunedAre(journal: seq<Change>, cut: int, e: Change)
    ensures e in Pruned(journal, cut) <==> e in journal && e.ts >= cut
  {
    if journal != [] {
      PrunedAre(journal[1..], cut, e);
      assert journal == [journal[0]] + journal[1..];
    }
  }

  /** What was journaled at `now` survives the pruning. */
  lemma LogSurvives(c0: Cat, c1: Cat, now: int, keep: nat, id: Id)
    requires Contiguous(c0) && Stamped(c0, c1, now) && LoggedAfter(c1, c0.last, id)
    ensures LoggedAfter(Prune(c1, now - keep), c0.last, id)
  {
    forall j | 0 <= j < |c0.journal| ensures c1.journal[j].seqNo <= c0.last {
      assert c1.journal[j] == c1.journal[..|c0.journal|][j] == c0.journal[j];
    }
    var k :| 0 <= k < |c1.journal| && c1.journal[k].seqNo > c0.last && c1.journal[k].id == id;
    var e := c1.journal[k];
    PrunedAre(c1.journal, now - keep, e);
    var j :| 0 <= j < |Pruned(c1.journal, now - keep)| && Pruned(c1.journal, now - keep)[j] == e;
  }
}
