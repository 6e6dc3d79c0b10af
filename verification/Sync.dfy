/** Delta sync: a client that replays the feed, while the catalogue is written, reconciled
    and pruned in any order. */
module Sync {
  import opened Paths
  import opened Catalogue
  import opened History
  import opened Writes
  import opened Reconciling
  import opened Stamps
  import opened Feed

  /** `mustEnumerate`: the last answer was a reset, and the client has not enumerated yet. */
  datatype Client = Client(view: View, seqNo: nat, mustEnumerate: bool)

  /** `blind` collects, for the statements only, the ids the feed may never tell this client
      about: rows written without a journal entry and entries the filter hides. */
  datatype Sys = Sys(c: Cat, clock: int, client: Client, blind: set<Id>)

  datatype Event =
    | DoUpsert(path: Path, o: Observed)
    | DoDelete(path: Path)
    | DoMove(src: Path, dst: Path)
    | DoReconcile(dir: Path, observed: seq<Observed>, missing: seq<Name>)
    | DoMark
    | SetBootstrapping(on: bool)
    | DoPrune(keep: int)
    | Pull(limit: nat)
    | Enumerate

  // ---- one write ------------------------------------------------------------------------

  ghost predicate WriteOk(c: Cat, e: Event) {
    match e
    case DoUpsert(p, _) => IsPath(p)
    case DoDelete(p) => true
    case DoMove(src, dst) => src != [] && dst != [] && IsPath(dst) && (Indexed(c.items, src) ==> MoveSafe(c.items, src, dst))
    case DoReconcile(dir, observed, missing) =>
      && IsPath(dir) && DistinctNames(observed)
      && ListsKnown(missing, Known(Entered(c, dir).items, IdAt(Entered(c, dir).items, dir)))
      && CaseClean(Entered(c, dir).items, dir, observed)
    case DoMark => true
    case _ => false
  }

  ghost function Written(c: Cat, e: Event, now: int): Cat
    requires WriteOk(c, e)
  {
    match e
    case DoUpsert(p, o) => Upsert(c, p, o, now).0
    case DoDelete(p) => Delete(c, p, now)
    case DoMove(src, dst) => Move(c, src, dst, now)
    case DoReconcile(dir, observed, missing) => Reconcile(c, dir, observed, missing, now).0
    case DoMark => MarkBootstrapped(c, now)
  }

  /** The ids a write inserts or updates without a journal entry. */
  ghost function SilentIn(c: Cat, e: Event, now: int): set<Id>
    requires WriteOk(c, e)
  {
    match e
    case DoUpsert(p, o) => Placeholders(c, Upsert(c, p, o, now).0) - {Upsert(c, p, o, now).1}
    case DoMove(src, dst) => Placeholders(c, Move(c, src, dst, now))
    case DoReconcile(dir, observed, missing) =>
      ReconcileUnlogged(c, Entered(c, dir), Reconcile(c, dir, observed, missing, now).1)
    case _ => {}
  }

  /** A row that says no more than an unjournaled ancestor does. */
  predicate Bare(f: Option<Fact>) {
    f.Some? && f.value.isDir && f.value.size == 0 && f.value.mtime == 0
  }

  /** Unless bootstrapping, what changes unjournaled is a placeholder. */
  ghost predicate BareOrLogged(c: Cat, c1: Cat) {
    forall id :: Seen(c.items, id) != Seen(c1.items, id) ==> LoggedAfter(c1, c.last, id) || Bare(Seen(c1.items, id))
  }

  lemma WriteStep(c: Cat, e: Event, now: int)
    requires Valid(c) && WriteOk(c, e)
    ensures var c1 := Written(c, e, now);
            Valid(c1) && Evolves(c, c1, SilentIn(c, e, now)) && Stamped(c, c1, now)
  {
    match e
    case DoUpsert(p, o) => UpsertStep(c, p, o, now); UpsertStamped(c, p, o, now);
    case DoDelete(p) =>
      DeleteStep(c, p, now);
      if p == [] || Indexed(c.items, p) {
        DeleteSubtreeStamped(c, IdAt(c.items, p), p, now);
      }
    case DoMove(src, dst) => MoveStep(c, src, dst, now); MoveStamped(c, src, dst, now);
    case DoReconcile(dir, observed, missing) =>
      ReconcileStep(c, dir, observed, missing, now);
      ReconcileStamped(c, dir, observed, missing, now);
    case DoMark =>
      JournalStep(c, c.items, c.minted, Kind.Upserted, Root, [], [], now);
  }

  lemma WriteBare(c: Cat, e: Event, now: int)
    requires Valid(c) && WriteOk(c, e) && !c.bootstrapping
    ensures BareOrLogged(c, Written(c, e, now))
  {
    WriteStep(c, e, now);
    match e
    case DoUpsert(p, o) => UpsertStep(c, p, o, now);
    case DoMove(src, dst) => MoveStep(c, src, dst, now);
    case DoReconcile(dir, observed, missing) =>
      EnteredStep(c, dir);
      ReconciledRuns(Entered(c, dir), dir, observed, missing, now);
    case _ =>
  }

  // ---- what the client knows -------------------------------------------------------------

  /** The next answer will be a reset. */
  predicate ResetDue(c: Cat, since: nat) {
    since == 0 || Lost(c, since)
  }

  /** The client has the facts of this id, or the journal will tell it. */
  predicate Explained(c: Cat, client: Client, id: Id) {
    Got(client.view, id) == Seen(c.items, id) || LoggedAfter(c, client.seqNo, id)
  }

  ghost predicate InSync(c: Cat, client: Client, blind: set<Id>) {
    && client.seqNo <= c.last
    && (client.mustEnumerate || ResetDue(c, client.seqNo) || forall id :: id !in blind ==> Explained(c, client, id))
  }

  /** Every id the feed is silent about is a placeholder. */
  ghost predicate BlindIsBare(c: Cat, client: Client, blind: set<Id>) {
    client.mustEnumerate || ResetDue(c, client.seqNo)
    || forall id :: id in blind ==> Explained(c, client, id) || Bare(Seen(c.items, id))
  }

  lemma EvolvesExplained(c: Cat, c1: Cat, silent: set<Id>, client: Client, id: Id)
    requires Evolves(c, c1, silent) && client.seqNo <= c.last
    requires Explained(c, client, id)
    ensures id in silent || Explained(c1, client, id)
    ensures Seen(c.items, id) == Seen(c1.items, id) || LoggedAfter(c1, c.last, id) ==> Explained(c1, client, id)
  {
    if LoggedAfter(c, client.seqNo, id) {
      LogGrows(c, c1, client.seqNo, id, silent);
    } else if LoggedAfter(c1, c.last, id) {
      LoggedSooner(c1, c.last, client.seqNo, id);
    }
  }

  lemma LoggedSooner(c: Cat, since: nat, sooner: nat, id: Id)
    requires sooner <= since && LoggedAfter(c, since, id)
    ensures LoggedAfter(c, sooner, id)
  {
  }

  lemma EvolvesResetDue(c: Cat, c1: Cat, silent: set<Id>, since: nat)
    requires Evolves(c, c1, silent)
    ensures ResetDue(c, since) <==> ResetDue(c1, since)
  {
  }

  lemma WriteInSync(c: Cat, c1: Cat, silent: set<Id>, client: Client, blind: set<Id>)
    requires Evolves(c, c1, silent) && InSync(c, client, blind)
    ensures InSync(c1, client, blind + silent)
  {
    EvolvesResetDue(c, c1, silent, client.seqNo);
    if !client.mustEnumerate && !ResetDue(c, client.seqNo) {
      forall id | id !in blind + silent ensures Explained(c1, client, id) {
        EvolvesExplained(c, c1, silent, client, id);
      }
    }
  }

  lemma WriteBlindIsBare(c: Cat, c1: Cat, silent: set<Id>, client: Client, blind: set<Id>)
    requires Evolves(c, c1, silent) && InSync(c, client, blind) && BlindIsBare(c, client, blind)
    requires BareOrLogged(c, c1)
    ensures BlindIsBare(c1, client, blind + silent)
  {
    EvolvesResetDue(c, c1, silent, client.seqNo);
    if !client.mustEnumerate && !ResetDue(c, client.seqNo) {
      forall id | id in blind + silent ensures Explained(c1, client, id) || Bare(Seen(c1.items, id)) {
        if LoggedAfter(c1, c.last, id) {
          LoggedSooner(c1, c.last, client.seqNo, id);
        } else if Explained(c, client, id) {
          EvolvesExplained(c, c1, silent, client, id);
        }
      }
    }
  }

  // ---- pruning -----------------------------------------------------------------------------

  lemma PruneExplained(c: Cat, c1: Cat, client: Client, id: Id, d: nat)
    requires Contiguous(c) && d <= |c.journal| && c1 == c.(journal := c.journal[d..])
    requires Explained(c, client, id)
    ensures Explained(c1, client, id) || Lost(c1, client.seqNo)
  {
    if LoggedAfter(c, client.seqNo, id) {
      var k :| 0 <= k < |c.journal| && c.journal[k].seqNo > client.seqNo && c.journal[k].id == id;
      if k >= d {
        assert c1.journal[k - d] == c.journal[k];
      }
    }
  }

  lemma PruneInSync(c: Cat, c1: Cat, client: Client, blind: set<Id>, d: nat)
    requires Contiguous(c) && d <= |c.journal| && c1 == c.(journal := c.journal[d..])
    requires InSync(c, client, blind)
    ensures InSync(c1, client, blind)
    ensures BlindIsBare(c, client, blind) ==> BlindIsBare(c1, client, blind)
  {
    if !client.mustEnumerate && !ResetDue(c1, client.seqNo) {
      forall id | id !in blind || Explained(c, client, id) ensures Explained(c1, client, id) {
        PruneExplained(c, c1, client, id, d);
      }
    }
  }

  // ---- pulling a page ------------------------------------------------------------------------

  function Pulled(c: Cat, client: Client, limit: nat, visible: Path -> bool): Client {
    var page := Page(c, client.seqNo, limit, visible);
    if page.reset then client.(seqNo := page.seqNo, mustEnumerate := true)
    else client.(seqNo := page.seqNo, view := Apply(client.view, page.entries))
  }

  function BlindAfter(c: Cat, client: Client, limit: nat, visible: Path -> bool, blind: set<Id>): set<Id> {
    blind + Hidden(Changes(c, client.seqNo, limit).changes, visible)
    - Reported(Page(c, client.seqNo, limit, visible).entries)
  }

  lemma PageDeletesGone(c: Cat, since: nat, limit: nat)
    requires Valid(c) && 0 < since && Floor(c) <= since <= c.last && limit >= 1 && c.journal != []
    ensures DeletesGone(Changes(c, since, limit).changes, c.items)
  {
    ChangesPage(c, since, limit);
    var a, rest := Changes(c, since, limit), Suffix(c, since);
    forall k | 0 <= k < |a.changes| && a.changes[k].kind == Deleted ensures a.changes[k].id !in c.items {
      assert a.changes[k] == rest[k];
      assert rest[k] == c.journal[since - Floor(c) + k];
    }
  }

  /** An entry the client has not pulled is in the page or after it. */
  lemma LoggedInPage(c: Cat, since: nat, limit: nat, id: Id)
    requires Valid(c) && 0 < since && Floor(c) <= since <= c.last && limit >= 1 && c.journal != []
    requires LoggedAfter(c, since, id) && id != Root
    ensures var a := Changes(c, since, limit); id in TouchedIds(a.changes) || LoggedAfter(c, a.latest, id)
  {
    ChangesPage(c, since, limit);
    var a := Changes(c, since, limit);
    var k :| 0 <= k < |c.journal| && c.journal[k].seqNo > since && c.journal[k].id == id;
    var x := k - (since - Floor(c));
    if x < |a.changes| {
      assert Suffix(c, since)[x] == c.journal[k];
      assert a.changes[x].id == id;
    }
  }

  /** After a page, what it touches is right unless hidden; the rest is as explained as before. */
  lemma PulledExplains(c: Cat, client: Client, limit: nat, visible: Path -> bool, id: Id)
    requires Valid(c) && 0 < client.seqNo && Floor(c) <= client.seqNo <= c.last && limit >= 1 && c.journal != []
    ensures var a, page := Changes(c, client.seqNo, limit), Page(c, client.seqNo, limit, visible);
            && (id in Reported(page.entries) ==> Explained(c, Pulled(c, client, limit, visible), id))
            && (id !in Hidden(a.changes, visible) && Explained(c, client, id) && id != Root
                ==> Explained(c, Pulled(c, client, limit, visible), id))
  {
    var since := client.seqNo;
    var a, page := Changes(c, since, limit), Page(c, since, limit, visible);
    ChangesPage(c, since, limit);
    PageDeletesGone(c, since, limit);
    CompactedCurrent(a.changes, DeletedIds(a.changes), c.items, visible);
    ApplyIs(client.view, page.entries, c.items, id);
    if id in TouchedIds(a.changes) {
      TouchedIsReported(a.changes, c.items, visible, id);
    } else if LoggedAfter(c, since, id) && id != Root {
      LoggedInPage(c, since, limit, id);
    }
  }

  /** The client's view and the catalogue have no row for the root. */
  predicate RootFree(c: Cat, view: View) {
    Root !in c.items && Root !in view
  }

  lemma PulledRootFree(c: Cat, client: Client, limit: nat, visible: Path -> bool)
    requires RootFree(c, client.view)
    ensures RootFree(c, Pulled(c, client, limit, visible).view)
  {
    var a := Changes(c, client.seqNo, limit);
    ApplyRootFree(client.view, a.changes, DeletedIds(a.changes), c.items, visible);
  }

  lemma {:induction false} ApplyRootFree(view: View, changes: seq<Change>, deleted: set<Id>, items: Items, visible: Path -> bool)
    requires Root !in view
    ensures Root !in Apply(view, Compacted(changes, deleted, items, visible))
    decreases |changes|
  {
    if changes != [] {
      var rest := Compacted(changes[1..], deleted, items, visible);
      if Dropped(changes[0], deleted, visible) {
        assert Compacted(changes, deleted, items, visible) == rest;
        ApplyRootFree(view, changes[1..], deleted, items, visible);
      } else {
        var x := EntryFor(changes[0], items);
        assert Compacted(changes, deleted, items, visible) == [x] + rest;
        assert ([x] + rest)[1..] == rest;
        ApplyRootFree(Put(view, x.id, if x.kind == Deleted then None else x.fact), changes[1..], deleted, items, visible);
      }
    }
  }

  lemma PullAnswers(c: Cat, since: nat, limit: nat)
    requires Contiguous(c) && since <= c.last && limit >= 1
    ensures var a := Changes(c, since, limit);
            && a.latest <= c.last
            && (ResetDue(c, since) && !a.reset ==> a.latest == 0)
            && (!ResetDue(c, since) ==> !a.reset && (c.journal == [] ==> a.latest == 0))
  {
    SeqBounds(c.journal, Floor(c));
    AfterIsSuffix(c.journal, Floor(c), since);
    if !ResetDue(c, since) && c.journal != [] {
      ChangesPage(c, since, limit);
    }
  }

  lemma PullInSync(c: Cat, client: Client, limit: nat, visible: Path -> bool, blind: set<Id>)
    requires Valid(c) && InSync(c, client, blind) && limit >= 1 && RootFree(c, client.view)
    ensures InSync(c, Pulled(c, client, limit, visible), BlindAfter(c, client, limit, visible, blind))
    ensures RootFree(c, Pulled(c, client, limit, visible).view)
  {
    var client' := Pulled(c, client, limit, visible);
    PulledRootFree(c, client, limit, visible);
    PullAnswers(c, client.seqNo, limit);
    if !client'.mustEnumerate && client'.seqNo != 0 {
      forall id | id !in BlindAfter(c, client, limit, visible, blind) ensures Explained(c, client', id) {
        if id == Root {
          assert Got(client'.view, id) == None == Seen(c.items, id);
        } else {
          PulledExplains(c, client, limit, visible, id);
        }
      }
    }
  }

  /** With nothing filtered, a pull leaves no id unexplained that was explained before. */
  lemma PullBlindIsBare(c: Cat, client: Client, limit: nat, visible: Path -> bool, blind: set<Id>)
    requires Valid(c) && InSync(c, client, blind) && limit >= 1 && RootFree(c, client.view)
    requires BlindIsBare(c, client, blind) && (forall p :: visible(p))
    requires forall k | 0 <= k < |c.journal| :: c.journal[k].path == [] ==> c.journal[k].id == Root
    ensures BlindIsBare(c, Pulled(c, client, limit, visible), BlindAfter(c, client, limit, visible, blind))
  {
    var client' := Pulled(c, client, limit, visible);
    PullAnswers(c, client.seqNo, limit);
    PulledRootFree(c, client, limit, visible);
    if !client'.mustEnumerate && client'.seqNo != 0 {
      ChangesPage(c, client.seqNo, limit);
      NothingHidden(c, client.seqNo, limit, visible);
      forall id | id in BlindAfter(c, client, limit, visible, blind)
        ensures Explained(c, client', id) || Bare(Seen(c.items, id))
      {
        if id == Root {
          assert Got(client'.view, id) == None == Seen(c.items, id);
        } else {
          PulledExplains(c, client, limit, visible, id);
        }
      }
    }
  }

  lemma NothingHidden(c: Cat, since: nat, limit: nat, visible: Path -> bool)
    requires Contiguous(c) && 0 < since && Floor(c) <= since <= c.last && limit >= 1 && c.journal != []
    requires forall p :: visible(p)
    requires forall k | 0 <= k < |c.journal| :: c.journal[k].path == [] ==> c.journal[k].id == Root
    ensures Hidden(Changes(c, since, limit).changes, visible) == {}
  {
    ChangesPage(c, since, limit);
    var a := Changes(c, since, limit);
    forall k | 0 <= k < |a.changes| ensures a.changes[k].path == [] ==> a.changes[k].id == Root {
      assert a.changes[k] == Suffix(c, since)[k];
      assert a.changes[k] == c.journal[since - Floor(c) + k];
    }
  }

  // ---- the whole system ------------------------------------------------------------------------

  function Facts(items: Items): View {
    map id | id in items :: FactOf(items[id])
  }

  ghost predicate EventOk(s: Sys, e: Event, now: int) {
    && s.clock <= now
    && match e
       case SetBootstrapping(_) => true
       case DoPrune(_) => true
       case Pull(limit) => limit >= 1
       case Enumerate => true
       case _ => WriteOk(s.c, e)
  }

  ghost function Next(s: Sys, e: Event, now: int, visible: Path -> bool): Sys
    requires EventOk(s, e, now)
  {
    match e
    case SetBootstrapping(on) => s.(c := s.c.(bootstrapping := on), clock := now)
    case DoPrune(keep) => s.(c := Prune(s.c, now - keep), clock := now)
    case Pull(limit) => s.(client := Pulled(s.c, s.client, limit, visible), clock := now,
                           blind := BlindAfter(s.c, s.client, limit, visible, s.blind))
    case Enumerate => s.(client := s.client.(view := Facts(s.c.items), mustEnumerate := false), clock := now, blind := {})
    case _ => s.(c := Written(s.c, e, now), clock := now, blind := s.blind + SilentIn(s.c, e, now))
  }

  ghost predicate Good(s: Sys) {
    && Valid(s.c)
    && InOrder(s.c.journal, s.clock)
    && RootFree(s.c, s.client.view)
    && InSync(s.c, s.client, s.blind)
  }

  lemma WriteNext(s: Sys, e: Event, now: int, visible: Path -> bool)
    requires Good(s) && EventOk(s, e, now) && WriteOk(s.c, e)
    ensures Good(Next(s, e, now, visible))
  {
    var c1 := Written(s.c, e, now);
    WriteStep(s.c, e, now);
    StampedInOrder(s.c, c1, s.clock, now);
    WriteInSync(s.c, c1, SilentIn(s.c, e, now), s.client, s.blind);
  }

  lemma BootstrappingKeeps(c: Cat, on: bool, client: Client, blind: set<Id>)
    requires Valid(c) && InSync(c, client, blind)
    ensures Valid(c.(bootstrapping := on)) && InSync(c.(bootstrapping := on), client, blind)
    ensures BlindIsBare(c, client, blind) ==> BlindIsBare(c.(bootstrapping := on), client, blind)
  {
    var c1 := c.(bootstrapping := on);
    assert forall since, id :: LoggedAfter(c1, since, id) == LoggedAfter(c, since, id);
    assert forall id :: Explained(c1, client, id) == Explained(c, client, id);
  }

  /** Whatever happens next, every fact the client lacks is accounted for. */
  lemma NextGood(s: Sys, e: Event, now: int, visible: Path -> bool)
    requires Good(s) && EventOk(s, e, now)
    ensures Good(Next(s, e, now, visible))
  {
    match e
    case SetBootstrapping(on) => BootstrappingKeeps(s.c, on, s.client, s.blind);
    case DoPrune(keep) =>
      var d := PruneStep(s.c, now - keep, s.clock);
      PruneInSync(s.c, Prune(s.c, now - keep), s.client, s.blind, d);
    case Pull(limit) => PullInSync(s.c, s.client, limit, visible, s.blind);
    case Enumerate =>
      forall id ensures Got(Facts(s.c.items), id) == Seen(s.c.items, id) {
      }
    case _ => WriteNext(s, e, now, visible);
  }

  datatype Timed = Timed(e: Event, now: int)

  ghost predicate RunOk(s: Sys, run: seq<Timed>, visible: Path -> bool)
    decreases |run|
  {
    run == [] || (EventOk(s, run[0].e, run[0].now) && RunOk(Next(s, run[0].e, run[0].now, visible), run[1..], visible))
  }

  ghost function Run(s: Sys, run: seq<Timed>, visible: Path -> bool): Sys
    requires RunOk(s, run, visible)
    decreases |run|
  {
    if run == [] then s else Run(Next(s, run[0].e, run[0].now, visible), run[1..], visible)
  }

  function Initial(clock: int): Sys {
    Sys(Cat(map[], [], 0, 0, false), clock, Client(map[], 0, false), {})
  }

  lemma {:induction false} RunGood(s: Sys, run: seq<Timed>, visible: Path -> bool)
    requires Good(s) && RunOk(s, run, visible)
    ensures Good(Run(s, run, visible))
    decreases |run|
  {
    if run != [] {
      NextGood(s, run[0].e, run[0].now, visible);
      RunGood(Next(s, run[0].e, run[0].now, visible), run[1..], visible);
    }
  }

  /** On every run, with any filter: an id whose facts differ between client and catalogue has
      a journal entry the client has not pulled, or the client must start over, or the id was
      written without a journal entry or hidden from it. */
  lemma DifferenceIsExplained(clock: int, run: seq<Timed>, visible: Path -> bool, id: Id)
    requires RunOk(Initial(clock), run, visible)
    ensures var s := Run(Initial(clock), run, visible);
            Got(s.client.view, id) != Seen(s.c.items, id) ==>
              || LoggedAfter(s.c, s.client.seqNo, id)
              || ResetDue(s.c, s.client.seqNo) || s.client.mustEnumerate
              || id in s.blind
  {
    RunGood(Initial(clock), run, visible);
    var s := Run(Initial(clock), run, visible);
    assert Explained(s.c, s.client, id) || id in s.blind || s.client.mustEnumerate || ResetDue(s.c, s.client.seqNo);
  }

  // ---- the unrestricted view --------------------------------------------------------------------

  /** The run never bootstraps. */
  predicate Plain(run: seq<Timed>) {
    forall k | 0 <= k < |run| :: run[k].e != SetBootstrapping(true)
  }

  ghost predicate PlainGood(s: Sys) {
    Good(s) && BlindIsBare(s.c, s.client, s.blind) && !s.c.bootstrapping
  }

  lemma NextPlain(s: Sys, e: Event, now: int, visible: Path -> bool)
    requires PlainGood(s) && EventOk(s, e, now) && (forall p :: visible(p)) && e != SetBootstrapping(true)
    ensures PlainGood(Next(s, e, now, visible))
  {
    NextGood(s, e, now, visible);
    match e
    case SetBootstrapping(on) => BootstrappingKeeps(s.c, on, s.client, s.blind);
    case DoPrune(keep) =>
      var d := PruneStep(s.c, now - keep, s.clock);
      PruneInSync(s.c, Prune(s.c, now - keep), s.client, s.blind, d);
    case Pull(limit) => PullBlindIsBare(s.c, s.client, limit, visible, s.blind);
    case Enumerate =>
    case _ =>
      WriteStep(s.c, e, now);
      WriteBare(s.c, e, now);
      WriteBlindIsBare(s.c, Written(s.c, e, now), SilentIn(s.c, e, now), s.client, s.blind);
  }

  lemma {:induction false} RunPlain(s: Sys, run: seq<Timed>, visible: Path -> bool)
    requires PlainGood(s) && RunOk(s, run, visible) && (forall p :: visible(p)) && Plain(run)
    ensures PlainGood(Run(s, run, visible))
    decreases |run|
  {
    if run != [] {
      NextPlain(s, run[0].e, run[0].now, visible);
      assert forall k | 0 <= k < |run| - 1 :: run[1..][k] == run[k + 1];
      RunPlain(Next(s, run[0].e, run[0].now, visible), run[1..], visible);
    }
  }

  /** A client that has pulled everything and owes no enumeration sees the catalogue as it is:
      the same ids with the same facts, but for rows written without a journal entry, which are
      placeholders. */
  lemma CaughtUp(clock: int, run: seq<Timed>, visible: Path -> bool, id: Id)
    requires RunOk(Initial(clock), run, visible) && (forall p :: visible(p)) && Plain(run)
    ensures var s := Run(Initial(clock), run, visible);
            s.client.seqNo == s.c.last && !s.client.mustEnumerate && s.client.seqNo != 0 ==>
              Got(s.client.view, id) == Seen(s.c.items, id) || (id in s.blind && Bare(Seen(s.c.items, id)))
  {
    RunPlain(Initial(clock), run, visible);
    var s := Run(Initial(clock), run, visible);
    if s.client.seqNo == s.c.last && !s.client.mustEnumerate && s.client.seqNo != 0 {
      assert !LoggedAfter(s.c, s.client.seqNo, id);
      assert Explained(s.c, s.client, id) || id in s.blind;
    }
  }

  // ---- catching up -----------------------------------------------------------------------------

  function PullAll(c: Cat, client: Client, limits: seq<nat>, visible: Path -> bool): Client
    decreases |limits|
  {
    if limits == [] then client else PullAll(c, Pulled(c, client, limits[0], visible), limits[1..], visible)
  }

  /** Pulling pages of any size, while nothing is written, reaches the end of the journal. */
  lemma {:induction false} PullAllCatchesUp(c: Cat, client: Client, limits: seq<nat>, visible: Path -> bool)
    requires Contiguous(c) && c.journal != [] && client.seqNo <= c.last && !ResetDue(c, client.seqNo)
    requires |limits| > c.last - client.seqNo && forall k | 0 <= k < |limits| :: limits[k] >= 1
    ensures var client' := PullAll(c, client, limits, visible);
            client'.seqNo == c.last && client'.mustEnumerate == client.mustEnumerate
    decreases |limits|
  {
    ChangesPage(c, client.seqNo, limits[0]);
    var client1 := Pulled(c, client, limits[0], visible);
    if client1.seqNo == c.last {
      PullAllStays(c, client1, limits[1..], visible);
    } else {
      PullAllCatchesUp(c, client1, limits[1..], visible);
    }
  }

  lemma {:induction false} PullAllStays(c: Cat, client: Client, limits: seq<nat>, visible: Path -> bool)
    requires Contiguous(c) && c.journal != [] && client.seqNo == c.last && !ResetDue(c, client.seqNo)
    requires forall k | 0 <= k < |limits| :: limits[k] >= 1
    ensures var client' := PullAll(c, client, limits, visible);
            client'.seqNo == c.last && client'.mustEnumerate == client.mustEnumerate
    decreases |limits|
  {
    if limits != [] {
      ChangesPage(c, client.seqNo, limits[0]);
      PullAllStays(c, Pulled(c, client, limits[0], visible), limits[1..], visible);
    }
  }

  /** With nothing filtered, a pull makes no id blind. */
  lemma PullBlindShrinks(s: Sys, limit: nat, visible: Path -> bool)
    requires Good(s) && (forall p :: visible(p)) && limit >= 1
    ensures BlindAfter(s.c, s.client, limit, visible, s.blind) <= s.blind
  {
    var since := s.client.seqNo;
    PullAnswers(s.c, since, limit);
    SeqBounds(s.c.journal, Floor(s.c));
    AfterIsSuffix(s.c.journal, Floor(s.c), since);
    if 0 < since && Floor(s.c) <= since && s.c.journal != [] {
      NothingHidden(s.c, since, limit, visible);
    } else {
      assert Changes(s.c, since, limit).changes == [];
    }
  }

  lemma {:induction false} PullAllPlain(s: Sys, limits: seq<nat>, visible: Path -> bool) returns (s': Sys)
    requires PlainGood(s) && (forall p :: visible(p)) && forall k | 0 <= k < |limits| :: limits[k] >= 1
    ensures PlainGood(s') && s'.c == s.c && s'.blind <= s.blind && s'.client == PullAll(s.c, s.client, limits, visible)
    decreases |limits|
  {
    if limits == [] {
      s' := s;
    } else {
      NextPlain(s, Pull(limits[0]), s.clock, visible);
      PullBlindShrinks(s, limits[0], visible);
      s' := PullAllPlain(Next(s, Pull(limits[0]), s.clock, visible), limits[1..], visible);
    }
  }

  /** Delta sync converges: at any moment of any run, a client that owes no enumeration and need
      not start over has, after pulling pages of any size until the journal is used up, the same
      ids with the same facts as the catalogue, but for placeholders it was never told of. */
  lemma DeltaSyncConverges(clock: int, run: seq<Timed>, limits: seq<nat>, visible: Path -> bool)
    requires RunOk(Initial(clock), run, visible) && (forall p :: visible(p)) && Plain(run)
    requires forall k | 0 <= k < |limits| :: limits[k] >= 1
    ensures var s := Run(Initial(clock), run, visible);
            !s.client.mustEnumerate && !ResetDue(s.c, s.client.seqNo) && s.c.journal != []
            && |limits| > s.c.last - s.client.seqNo ==>
              var view := PullAll(s.c, s.client, limits, visible).view;
              forall id :: Got(view, id) == Seen(s.c.items, id) || (id in s.blind && Bare(Seen(s.c.items, id)))
  {
    RunPlain(Initial(clock), run, visible);
    var s := Run(Initial(clock), run, visible);
    if !s.client.mustEnumerate && !ResetDue(s.c, s.client.seqNo) && s.c.journal != [] && |limits| > s.c.last - s.client.seqNo {
      var s' := PullAllPlain(s, limits, visible);
      PullAllCatchesUp(s.c, s.client, limits, visible);
      forall id ensures Got(s'.client.view, id) == Seen(s.c.items, id) || (id in s.blind && Bare(Seen(s.c.items, id))) {
        assert !LoggedAfter(s.c, s'.client.seqNo, id);
        assert Explained(s.c, s'.client, id) || id in s'.blind;
      }
    }
  }

  // ---- starting over -------------------------------------------------------------------------------

  /** A client that pulls, and enumerates if it has to. */
  function Started(c: Cat, client: Client, limit: nat, visible: Path -> bool): Client {
    var pulled := Pulled(c, client, limit, visible);
    if pulled.mustEnumerate then pulled.(view := Facts(c.items), mustEnumerate := false) else pulled
  }

  /** A reset followed by an enumeration puts a client right, and it need not start over again if
      and only if the journal has entries: otherwise it is handed position 0, as at first. */
  lemma ResetHeals(clock: int, run: seq<Timed>, limit: nat, visible: Path -> bool)
    requires RunOk(Initial(clock), run, visible) && limit >= 1
    ensures var s := Run(Initial(clock), run, visible);
            Page(s.c, s.client.seqNo, limit, visible).reset ==>
              var client := Started(s.c, s.client, limit, visible);
              && !client.mustEnumerate && (forall id :: Got(client.view, id) == Seen(s.c.items, id))
              && (ResetDue(s.c, client.seqNo) <==> s.c.journal == [])
  {
    RunGood(Initial(clock), run, visible);
    var s := Run(Initial(clock), run, visible);
    ResetIsExact(s.c, s.client.seqNo, limit);
    forall id ensures Got(Facts(s.c.items), id) == Seen(s.c.items, id) {
    }
  }

  lemma StartedGood(s: Sys, limit: nat, visible: Path -> bool) returns (s': Sys)
    requires PlainGood(s) && (forall p :: visible(p)) && limit >= 1
    ensures PlainGood(s') && s'.c == s.c && s'.client == Started(s.c, s.client, limit, visible) && s'.blind <= s.blind
    ensures s.c.journal != [] ==> !s'.client.mustEnumerate && !ResetDue(s'.c, s'.client.seqNo)
  {
    ResetIsExact(s.c, s.client.seqNo, limit);
    PullAnswers(s.c, s.client.seqNo, limit);
    if s.c.journal != [] && !ResetDue(s.c, s.client.seqNo) {
      ChangesPage(s.c, s.client.seqNo, limit);
    }
    NextPlain(s, Pull(limit), s.clock, visible);
    PullBlindShrinks(s, limit, visible);
    s' := Next(s, Pull(limit), s.clock, visible);
    if s'.client.mustEnumerate {
      NextPlain(s', Enumerate, s.clock, visible);
      s' := Next(s', Enumerate, s.clock, visible);
    }
  }

  /** So delta sync converges from any client state: whatever position it is at, after one pull, an
      enumeration if that is a reset or one is owed, and pages until the journal is used up, the client has the
      catalogue's facts, but for placeholders it was never told of. */
  lemma StartOverConverges(clock: int, run: seq<Timed>, limit: nat, limits: seq<nat>, visible: Path -> bool)
    requires RunOk(Initial(clock), run, visible) && (forall p :: visible(p)) && Plain(run)
    requires limit >= 1 && forall k | 0 <= k < |limits| :: limits[k] >= 1
    ensures var s := Run(Initial(clock), run, visible);
            s.c.journal != [] && |limits| > s.c.last ==>
              var client := PullAll(s.c, Started(s.c, s.client, limit, visible), limits, visible);
              && client.seqNo == s.c.last && !client.mustEnumerate
              && forall id :: Got(client.view, id) == Seen(s.c.items, id) || (id in s.blind && Bare(Seen(s.c.items, id)))
  {
    RunPlain(Initial(clock), run, visible);
    var s := Run(Initial(clock), run, visible);
    if s.c.journal != [] && |limits| > s.c.last {
      var s1 := StartedGood(s, limit, visible);
      var s2 := PullAllPlain(s1, limits, visible);
      PullAllCatchesUp(s1.c, s1.client, limits, visible);
      forall id ensures Got(s2.client.view, id) == Seen(s.c.items, id) || (id in s.blind && Bare(Seen(s.c.items, id))) {
        assert !LoggedAfter(s.c, s2.client.seqNo, id);
        assert Explained(s.c, s2.client, id) || id in s2.blind;
      }
    }
  }

  /** On every run: a page as the handler sends it, compacted and with vanished items turned
      into deletes, does to a client what replaying the page's journal entries does. */
  lemma PagesMeanTheirEntries(clock: int, run: seq<Timed>, limit: nat)
    requires RunOk(Initial(clock), run, p => true) && limit >= 1
    ensures var s := Run(Initial(clock), run, p => true);
            !ResetDue(s.c, s.client.seqNo) && s.c.journal != [] ==>
              var a, page := Changes(s.c, s.client.seqNo, limit), Page(s.c, s.client.seqNo, limit, p => true);
              Apply(s.client.view, page.entries) == Replay(s.client.view, a.changes, s.c.items)
  {
    RunGood(Initial(clock), run, p => true);
    var s := Run(Initial(clock), run, p => true);
    if !ResetDue(s.c, s.client.seqNo) && s.c.journal != [] {
      var a := Changes(s.c, s.client.seqNo, limit);
      PageDeletesGone(s.c, s.client.seqNo, limit);
      ChangesPage(s.c, s.client.seqNo, limit);
      forall k | 0 <= k < |a.changes| ensures a.changes[k].id != Root ==> a.changes[k].path != [] {
        assert a.changes[k] == Suffix(s.c, s.client.seqNo)[k];
        assert a.changes[k] == s.c.journal[s.client.seqNo - Floor(s.c) + k];
      }
      CompactionKeepsMeaning(s.client.view, a.changes, s.c.items);
    }
  }
}
