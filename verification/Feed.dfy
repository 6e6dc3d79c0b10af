/** The id-based change feed: what Changes and its handler answer, and what a client makes
    of the answers. */
module Feed {
  import opened Paths
  import opened Catalogue
  import opened History

  // ---- reading the journal ------------------------------------------------------------

  function MaxSeq(journal: seq<Change>): nat {
    if journal == [] then 0
    else
      var m := MaxSeq(journal[1..]);
      if m > journal[0].seqNo then m else journal[0].seqNo
  }

  /** 0 for an empty journal, as the NULL of SQL is read. */
  function MinSeq(journal: seq<Change>): nat {
    if journal == [] then 0
    else
      var m := MinSeq(journal[1..]);
      if |journal| > 1 && m < journal[0].seqNo then m else journal[0].seqNo
  }

  /** WHERE seq > since, in order. */
  function After(journal: seq<Change>, since: nat): seq<Change> {
    if journal == [] then []
    else (if journal[0].seqNo > since then [journal[0]] else []) + After(journal[1..], since)
  }

  datatype Answer = Answer(changes: seq<Change>, latest: nat, truncated: bool, reset: bool)

  function Changes(c: Cat, since: nat, limit: nat): Answer {
    var latest, start := MaxSeq(c.journal), MinSeq(c.journal);
    if since == 0 || (start > 0 && since < start - 1) then Answer([], latest, false, true)
    else
      var rows := After(c.journal, since);
      if |rows| > limit then
        Answer(rows[..limit], if limit > 0 then rows[limit - 1].seqNo else latest, true, false)
      else Answer(rows, latest, false, false)
  }

  // ---- the handler ------------------------------------------------------------------------

  /** One entry of the response; the fact is that of the item as it is now. */
  datatype Entry = Entry(seqNo: nat, kind: Kind, id: Id, path: Path, oldPath: Path, fact: Option<Fact>)

  datatype Reply = Reply(seqNo: nat, reset: bool, entries: seq<Entry>, truncated: bool)

  function DeletedIds(changes: seq<Change>): set<Id> {
    set k | 0 <= k < |changes| && changes[k].kind == Deleted :: changes[k].id
  }

  predicate Dropped(e: Change, deleted: set<Id>, visible: Path -> bool) {
    (e.kind != Deleted && e.id in deleted) || e.id == Root || e.path == [] || !visible(e.path)
  }

  function EntryFor(e: Change, items: Items): Entry {
    var fact := if e.kind == Deleted then None else Seen(items, e.id);
    Entry(e.seqNo, if fact.None? then Deleted else e.kind, e.id, e.path, e.oldPath, fact)
  }

  function Compacted(changes: seq<Change>, deleted: set<Id>, items: Items, visible: Path -> bool): seq<Entry> {
    if changes == [] then []
    else (if Dropped(changes[0], deleted, visible) then [] else [EntryFor(changes[0], items)])
         + Compacted(changes[1..], deleted, items, visible)
  }

  function Page(c: Cat, since: nat, limit: nat, visible: Path -> bool): Reply {
    var a := Changes(c, since, limit);
    Reply(a.latest, a.reset, Compacted(a.changes, DeletedIds(a.changes), c.items, visible), a.truncated)
  }

  // ---- the client --------------------------------------------------------------------------

  type View = map<Id, Fact>

  function Put(view: View, id: Id, fact: Option<Fact>): View {
    if fact.Some? then view[id := fact.value] else view - {id}
  }

  function Got(view: View, id: Id): Option<Fact> {
    if id in view then Some(view[id]) else None
  }

  function Apply(view: View, entries: seq<Entry>): View
    decreases |entries|
  {
    if entries == [] then view
    else Apply(Put(view, entries[0].id, if entries[0].kind == Deleted then None else entries[0].fact), entries[1..])
  }

  /** Replaying the uncompacted page with the current items. */
  function Replay(view: View, changes: seq<Change>, items: Items): View
    decreases |changes|
  {
    if changes == [] then view
    else
      var e := changes[0];
      Replay(if e.id == Root then view else Put(view, e.id, if e.kind == Deleted then None else Seen(items, e.id)),
             changes[1..], items)
  }

  // ---- the journal is contiguous -----------------------------------------------------------------

  /** Sequence number of the last entry that has been pruned, 0 if none. */
  function Floor(c: Cat): int {
    c.last - |c.journal|
  }

  predicate ContiguousFrom(journal: seq<Change>, floor: int) {
    floor >= 0 && forall k | 0 <= k < |journal| :: journal[k].seqNo == floor + 1 + k
  }

  lemma {:induction false} SeqBounds(journal: seq<Change>, floor: int)
    requires ContiguousFrom(journal, floor)
    ensures MaxSeq(journal) == if journal == [] then 0 else floor + |journal|
    ensures MinSeq(journal) == if journal == [] then 0 else floor + 1
  {
    if journal != [] {
      SeqBounds(journal[1..], floor + 1);
    }
  }

  lemma {:induction false} AfterIsSuffix(journal: seq<Change>, floor: int, since: nat)
    requires ContiguousFrom(journal, floor)
    ensures After(journal, since)
         == if since <= floor then journal
            else if since - floor >= |journal| then [] else journal[since - floor..]
  {
    if journal != [] {
      AfterIsSuffix(journal[1..], floor + 1, since);
      if since > floor && since - floor < |journal| {
        assert journal[1..][since - floor - 1..] == journal[since - floor..];
      }
      if since <= floor {
        assert journal == [journal[0]] + journal[1..];
      }
    }
  }

  /** An entry the client has not seen is gone from the journal. */
  predicate Lost(c: Cat, since: nat) {
    since < Floor(c)
  }

  /** Changes answers reset exactly for a first call or when an entry after `since` has been pruned,
      provided the journal is not empty; and then it hands out the position of the last entry, and
      no changes.  An empty journal hands out position 0. */
  lemma ResetIsExact(c: Cat, since: nat, limit: nat)
    requires Contiguous(c)
    ensures var a := Changes(c, since, limit);
            && (a.reset <==> since == 0 || (c.journal != [] && Lost(c, since)))
            && (a.reset ==> a.changes == [] && !a.truncated && a.latest == if c.journal == [] then 0 else c.last)
            && (c.journal == [] ==> a.latest == 0 && a.changes == [])
  {
    SeqBounds(c.journal, Floor(c));
    AfterIsSuffix(c.journal, Floor(c), since);
  }

  /** The client's suffix of the journal. */
  function Suffix(c: Cat, since: nat): seq<Change>
    requires Floor(c) <= since <= c.last
  {
    c.journal[since - Floor(c)..]
  }

  /** A page that is not a reset: the first `limit` entries of the suffix, and where it ends. */
  lemma ChangesPage(c: Cat, since: nat, limit: nat)
    requires Contiguous(c) && 0 < since && Floor(c) <= since <= c.last && limit >= 1 && c.journal != []
    ensures var a, rest := Changes(c, since, limit), Suffix(c, since);
            && !a.reset
            && a.truncated == (|rest| > limit)
            && a.changes == (if a.truncated then rest[..limit] else rest)
            && a.latest == since + |a.changes|
            && (a.truncated ==> since < a.latest < c.last)
            && (!a.truncated ==> a.latest == c.last)
  {
    SeqBounds(c.journal, Floor(c));
    AfterIsSuffix(c.journal, Floor(c), since);
    if since == Floor(c) {
      assert c.journal[0..] == c.journal;
    }
    if since - Floor(c) == |c.journal| {
      assert Suffix(c, since) == [];
    }
  }

  /** The pages a client gets that follows the feed with the given limits. */
  function Pages(c: Cat, since: nat, limits: seq<nat>): seq<Change>
    decreases |limits|
  {
    if limits == [] then []
    else
      var a := Changes(c, since, limits[0]);
      a.changes + (if a.truncated then Pages(c, a.latest, limits[1..]) else [])
  }

  /** Whatever the limits, the pages put together are the whole suffix, nothing twice. */
  lemma {:induction false} PagesAreSuffix(c: Cat, since: nat, limits: seq<nat>)
    requires Contiguous(c) && 0 < since && Floor(c) <= since <= c.last && c.journal != []
    requires forall k | 0 <= k < |limits| :: limits[k] >= 1
    requires |limits| > c.last - since
    ensures Pages(c, since, limits) == Suffix(c, since)
    decreases |limits|
  {
    var a := Changes(c, since, limits[0]);
    ChangesPage(c, since, limits[0]);
    if a.truncated {
      PagesAreSuffix(c, a.latest, limits[1..]);
      var rest := Suffix(c, since);
      assert rest[..limits[0]] + rest[limits[0]..] == rest;
      assert Suffix(c, a.latest) == rest[limits[0]..];
    }
  }

  // ---- compaction keeps the meaning of a page --------------------------------------------------------

  /** Nothing the changes call deleted is in the catalogue. */
  predicate DeletesGone(changes: seq<Change>, items: Items) {
    && Root !in items
    && forall k | 0 <= k < |changes| && changes[k].kind == Deleted :: changes[k].id !in items
  }

  function TouchedIds(changes: seq<Change>): set<Id> {
    set k | 0 <= k < |changes| && changes[k].id != Root :: changes[k].id
  }

  lemma TouchedCons(changes: seq<Change>)
    requires changes != []
    ensures TouchedIds(changes) == (if changes[0].id == Root then {} else {changes[0].id}) + TouchedIds(changes[1..])
  {
    forall id | id in TouchedIds(changes) && id != changes[0].id ensures id in TouchedIds(changes[1..]) {
      var k :| 0 <= k < |changes| && changes[k].id == id && id != Root;
      assert changes[1..][k - 1].id == id;
    }
  }

  lemma {:induction false} ReplayIs(view: View, changes: seq<Change>, items: Items, id: Id)
    requires DeletesGone(changes, items)
    ensures Got(Replay(view, changes, items), id)
         == if id in TouchedIds(changes) then Seen(items, id) else Got(view, id)
    decreases |changes|
  {
    if changes != [] {
      TouchedCons(changes);
      var e := changes[0];
      var view' := if e.id == Root then view else Put(view, e.id, if e.kind == Deleted then None else Seen(items, e.id));
      ReplayIs(view', changes[1..], items, id);
    }
  }

  // ---- the entries of a page -------------------------------------------------------------------------

  /** The entry tells the change as it was journaled; an item that is gone is told as deleted. */
  predicate Tells(x: Entry, e: Change, items: Items) {
    && x.seqNo == e.seqNo && x.id == e.id && x.path == e.path && x.oldPath == e.oldPath
    && x.fact == (if e.kind != Deleted && e.id in items then Some(FactOf(items[e.id])) else None)
    && x.kind == (if e.id in items || e.kind == Deleted then e.kind else Deleted)
  }

  /** Whether a page has to tell a change: not one of the root or outside the filter, nor one of an
      item that is deleted later in the page. */
  ghost predicate Due(changes: seq<Change>, k: nat, visible: Path -> bool)
    requires k < |changes|
  {
    && changes[k].id != Root && changes[k].path != [] && visible(changes[k].path)
    && (changes[k].kind == Deleted || forall j | 0 <= j < |changes| && changes[j].kind == Deleted :: changes[j].id != changes[k].id)
  }

  /** Sequence numbers go up, so that no change is told twice. */
  predicate Ascending(entries: seq<Entry>) {
    forall i, j | 0 <= i < j < |entries| :: entries[i].seqNo < entries[j].seqNo
  }

  lemma {:induction false} CompactedFrom(changes: seq<Change>, deleted: set<Id>, items: Items, visible: Path -> bool, i: nat) returns (k: nat)
    requires i < |Compacted(changes, deleted, items, visible)|
    ensures k < |changes| && Tells(Compacted(changes, deleted, items, visible)[i], changes[k], items)
    ensures !Dropped(changes[k], deleted, visible)
    decreases |changes|
  {
    var rest := Compacted(changes[1..], deleted, items, visible);
    if Dropped(changes[0], deleted, visible) {
      k := CompactedFrom(changes[1..], deleted, items, visible, i);
      k := k + 1;
    } else if i == 0 {
      k := 0;
    } else {
      assert Compacted(changes, deleted, items, visible)[i] == rest[i - 1];
      k := CompactedFrom(changes[1..], deleted, items, visible, i - 1);
      k := k + 1;
    }
  }

  lemma {:induction false} CompactedTo(changes: seq<Change>, deleted: set<Id>, items: Items, visible: Path -> bool, k: nat) returns (i: nat)
    requires k < |changes| && !Dropped(changes[k], deleted, visible)
    ensures i < |Compacted(changes, deleted, items, visible)| && Tells(Compacted(changes, deleted, items, visible)[i], changes[k], items)
    decreases |changes|
  {
    if k == 0 {
      i := 0;
    } else {
      i := CompactedTo(changes[1..], deleted, items, visible, k - 1);
      var rest := Compacted(changes[1..], deleted, items, visible);
      var entries := Compacted(changes, deleted, items, visible);
      assert entries[|entries| - |rest| + i] == rest[i];
      i := |entries| - |rest| + i;
    }
  }

  lemma {:induction false} CompactedAscends(changes: seq<Change>, floor: int, deleted: set<Id>, items: Items, visible: Path -> bool)
    requires ContiguousFrom(changes, floor)
    ensures Ascending(Compacted(changes, deleted, items, visible))
    ensures forall i | 0 <= i < |Compacted(changes, deleted, items, visible)| :: Compacted(changes, deleted, items, visible)[i].seqNo > floor
    decreases |changes|
  {
    if changes != [] {
      CompactedAscends(changes[1..], floor + 1, deleted, items, visible);
      var rest := Compacted(changes[1..], deleted, items, visible);
      var entries := Compacted(changes, deleted, items, visible);
      if !Dropped(changes[0], deleted, visible) {
        assert entries == [EntryFor(changes[0], items)] + rest;
      }
    }
  }

  /** Some entry tells the change. */
  ghost predicate Told(entries: seq<Entry>, e: Change, items: Items) {
    exists i :: 0 <= i < |entries| && Tells(entries[i], e, items)
  }

  /** The entry tells some change that is due. */
  ghost predicate TellsDue(x: Entry, changes: seq<Change>, items: Items, visible: Path -> bool) {
    exists k :: 0 <= k < |changes| && Due(changes, k, visible) && Tells(x, changes[k], items)
  }

  /** The entries of a page tell those of its changes that are due, in order, once each. */
  lemma PageTells(c: Cat, since: nat, limit: nat, visible: Path -> bool)
    requires Contiguous(c) && limit >= 1 && since <= c.last
    ensures var a, entries := Changes(c, since, limit), Page(c, since, limit, visible).entries;
            && Ascending(entries)
            && (forall i | 0 <= i < |entries| :: TellsDue(entries[i], a.changes, c.items, visible))
            && (forall k | 0 <= k < |a.changes| && Due(a.changes, k, visible) :: Told(entries, a.changes[k], c.items))
  {
    var a, entries := Changes(c, since, limit), Page(c, since, limit, visible).entries;
    forall i | 0 <= i < |entries| ensures TellsDue(entries[i], a.changes, c.items, visible) {
      var k := CompactedFrom(a.changes, DeletedIds(a.changes), c.items, visible, i);
      DueOrDropped(a.changes, k, visible);
    }
    forall k | 0 <= k < |a.changes| && Due(a.changes, k, visible) ensures Told(entries, a.changes[k], c.items) {
      DueOrDropped(a.changes, k, visible);
      var i := CompactedTo(a.changes, DeletedIds(a.changes), c.items, visible, k);
    }
    var floor := PageIsContiguous(c, since, limit);
    CompactedAscends(a.changes, floor, DeletedIds(a.changes), c.items, visible);
  }

  lemma PageIsContiguous(c: Cat, since: nat, limit: nat) returns (floor: nat)
    requires Contiguous(c) && limit >= 1 && since <= c.last
    ensures ContiguousFrom(Changes(c, since, limit).changes, floor)
  {
    ResetIsExact(c, since, limit);
    floor := since;
    if 0 < since && Floor(c) <= since && c.journal != [] {
      ChangesPage(c, since, limit);
    }
  }

  lemma DueOrDropped(changes: seq<Change>, k: nat, visible: Path -> bool)
    requires k < |changes|
    ensures Due(changes, k, visible) <==> !Dropped(changes[k], DeletedIds(changes), visible)
  {
    if changes[k].id in DeletedIds(changes) {
      var j :| 0 <= j < |changes| && changes[j].kind == Deleted && changes[j].id == changes[k].id;
    }
  }

  /** The ids a page reports on. */
  function Reported(entries: seq<Entry>): set<Id> {
    set k | 0 <= k < |entries| :: entries[k].id
  }

  /** Every entry says how things are now. */
  predicate Current(entries: seq<Entry>, items: Items) {
    forall k | 0 <= k < |entries| ::
      (if entries[k].kind == Deleted then None else entries[k].fact) == Seen(items, entries[k].id)
  }

  lemma ReportedCons(entries: seq<Entry>)
    requires entries != []
    ensures Reported(entries) == {entries[0].id} + Reported(entries[1..])
  {
    forall id | id in Reported(entries) && id != entries[0].id ensures id in Reported(entries[1..]) {
      var k :| 0 <= k < |entries| && entries[k].id == id;
      assert entries[1..][k - 1].id == id;
    }
  }

  lemma {:induction false} ApplyIs(view: View, entries: seq<Entry>, items: Items, id: Id)
    requires Current(entries, items)
    ensures Got(Apply(view, entries), id) == if id in Reported(entries) then Seen(items, id) else Got(view, id)
    decreases |entries|
  {
    if entries != [] {
      ReportedCons(entries);
      var view' := Put(view, entries[0].id, if entries[0].kind == Deleted then None else entries[0].fact);
      ApplyIs(view', entries[1..], items, id);
    }
  }

  /** Ids with an entry in the page that the filter hides, and that it reports nothing about. */
  function Hidden(changes: seq<Change>, visible: Path -> bool): set<Id> {
    set k | 0 <= k < |changes| && changes[k].id != Root && (changes[k].path == [] || !visible(changes[k].path)) :: changes[k].id
  }

  lemma {:induction false} CompactedCurrent(changes: seq<Change>, deleted: set<Id>, items: Items, visible: Path -> bool)
    requires DeletesGone(changes, items)
    ensures Current(Compacted(changes, deleted, items, visible), items)
    ensures forall k | 0 <= k < |Compacted(changes, deleted, items, visible)| ::
              Compacted(changes, deleted, items, visible)[k].id in TouchedIds(changes)
    decreases |changes|
  {
    if changes != [] {
      CompactedCurrent(changes[1..], deleted, items, visible);
      TouchedCons(changes);
    }
  }

  /** An entry that is not dropped is reported. */
  lemma {:induction false} KeptIsReported(changes: seq<Change>, deleted: set<Id>, items: Items, visible: Path -> bool, k: nat)
    requires k < |changes| && !Dropped(changes[k], deleted, visible)
    ensures changes[k].id in Reported(Compacted(changes, deleted, items, visible))
    decreases |changes|
  {
    var entries := Compacted(changes, deleted, items, visible);
    if k == 0 {
      assert entries[0].id == changes[0].id;
    } else {
      KeptIsReported(changes[1..], deleted, items, visible, k - 1);
      var rest := Compacted(changes[1..], deleted, items, visible);
      var x :| 0 <= x < |rest| && rest[x].id == changes[k].id;
      assert entries[|entries| - |rest| + x] == rest[x];
    }
  }

  /** Every id the page touches is reported or hidden by the filter. */
  lemma TouchedIsReported(changes: seq<Change>, items: Items, visible: Path -> bool, id: Id)
    requires id in TouchedIds(changes)
    ensures id in Reported(Compacted(changes, DeletedIds(changes), items, visible)) || id in Hidden(changes, visible)
  {
    var deleted := DeletedIds(changes);
    var k :| 0 <= k < |changes| && changes[k].id == id && id != Root;
    var d := k;
    if changes[k].kind != Deleted && id in deleted {
      d :| 0 <= d < |changes| && changes[d].kind == Deleted && changes[d].id == id;
    }
    if !Dropped(changes[d], deleted, visible) {
      KeptIsReported(changes, deleted, items, visible, d);
    }
  }

  /** Dropping what a later delete of the page makes moot, and turning vanished items into
      deletes, gives the same client state as replaying the page as it is. */
  lemma CompactionKeepsMeaning(view: View, changes: seq<Change>, items: Items)
    requires DeletesGone(changes, items)
    requires forall k | 0 <= k < |changes| && changes[k].id != Root :: changes[k].path != []
    ensures Apply(view, Compacted(changes, DeletedIds(changes), items, p => true)) == Replay(view, changes, items)
  {
    var visible := p => true;
    var entries := Compacted(changes, DeletedIds(changes), items, visible);
    var v1, v2 := Apply(view, entries), Replay(view, changes, items);
    CompactedCurrent(changes, DeletedIds(changes), items, visible);
    forall id ensures Got(v1, id) == Got(v2, id) {
      ApplyIs(view, entries, items, id);
      ReplayIs(view, changes, items, id);
      if id in TouchedIds(changes) {
        TouchedIsReported(changes, items, visible, id);
      }
    }
    SameGot(v1, v2);
  }

  lemma SameGot(v1: View, v2: View)
    requires forall id :: Got(v1, id) == Got(v2, id)
    ensures v1 == v2
  {
    forall id ensures id in v1 <==> id in v2 {
      assert Got(v1, id) == Got(v2, id);
    }
    forall id | id in v1 ensures v1[id] == v2[id] {
      assert Got(v1, id) == Got(v2, id);
    }
  }
}
