/** What a client can observe of a row, and what the journal says happened since. */
module History {
  import opened Paths
  import opened SqlLike
  import opened Catalogue
  import opened TreeInvariant

  /** The columns a client mirrors; the path follows from parent and name. */
  datatype Fact = Fact(parent: Id, name: Name, isDir: bool, size: int, mtime: int)

  function FactOf(r: Row): Fact {
    Fact(r.parent, r.name, r.isDir, r.size, r.mtime)
  }

  /** Two rows have the same facts if and only if they agree in these columns. */
  lemma FactsTell(r: Row, r': Row)
    ensures FactOf(r) == FactOf(r') <==>
              r.parent == r'.parent && r.name == r'.name && r.isDir == r'.isDir && r.size == r'.size && r.mtime == r'.mtime
  {
  }

  function Seen(items: Items, id: Id): Option<Fact> {
    if id in items then Some(FactOf(items[id])) else None
  }

  /** The sequence numbers are contiguous and end at the counter. */
  predicate Contiguous(c: Cat) {
    && |c.journal| <= c.last
    && forall k | 0 <= k < |c.journal| :: c.journal[k].seqNo == c.last - |c.journal| + 1 + k
  }

  /** Ids in use were minted, and a deleted id never comes back. */
  predicate NoReuse(c: Cat) {
    && (forall i | i in c.items :: i.Minted? && i.n < c.minted)
    && (forall k | 0 <= k < |c.journal| ::
          var e := c.journal[k];
          (e.id.Minted? ==> e.id.n < c.minted) && (e.kind == Deleted ==> e.id !in c.items))
  }

  ghost predicate Valid(c: Cat) {
    Tree(c.items) && Contiguous(c) && NoReuse(c)
  }

  predicate LoggedAfter(c: Cat, since: nat, id: Id) {
    exists k :: 0 <= k < |c.journal| && c.journal[k].seqNo > since && c.journal[k].id == id
  }

  /** From c0 to c1 the journal only grew, and every id whose facts changed is in the new
      part of the journal, except those in `silent`. */
  ghost predicate Evolves(c0: Cat, c1: Cat, silent: set<Id>) {
    && c0.last <= c1.last
    && c0.minted <= c1.minted
    && c0.bootstrapping == c1.bootstrapping
    && |c1.journal| == |c0.journal| + (c1.last - c0.last)
    && c1.journal[..|c0.journal|] == c0.journal
    && forall id :: Seen(c0.items, id) != Seen(c1.items, id) ==> id in silent || LoggedAfter(c1, c0.last, id)
  }

  lemma EvolvesTrans(c0: Cat, c1: Cat, c2: Cat, s0: set<Id>, s1: set<Id>)
    requires Contiguous(c0) && Contiguous(c1) && Contiguous(c2)
    requires Evolves(c0, c1, s0) && Evolves(c1, c2, s1)
    ensures Evolves(c0, c2, s0 + s1)
  {
    var n0, n1 := |c0.journal|, |c1.journal|;
    assert c2.journal[..n0] == c2.journal[..n1][..n0] == c1.journal[..n0];
    forall id | Seen(c0.items, id) != Seen(c2.items, id) && id !in s0 + s1
      ensures LoggedAfter(c2, c0.last, id)
    {
      if Seen(c0.items, id) != Seen(c1.items, id) {
        LogGrows(c1, c2, c0.last, id, s1);
      } else {
        assert LoggedAfter(c2, c1.last, id);
      }
    }
  }

  lemma LogGrows(c1: Cat, c2: Cat, since: nat, id: Id, silent: set<Id>)
    requires Evolves(c1, c2, silent)
    requires LoggedAfter(c1, since, id)
    ensures LoggedAfter(c2, since, id)
  {
    var k :| 0 <= k < |c1.journal| && c1.journal[k].seqNo > since && c1.journal[k].id == id;
    assert c2.journal[..|c1.journal|][k] == c1.journal[k];
  }

  // ---- single statements ----------------------------------------------------------------

  /** Writing one journal entry, whose id is absent from the rows if it says so. */
  lemma JournalStep(c0: Cat, items: Items, minted: nat, kind: Kind, id: Id, p: Path, oldPath: Path, now: int)
    requires Valid(c0) && c0.minted <= minted
    requires Tree(items) && forall i | i in items :: i.Minted? && i.n < minted
    requires id.Minted? ==> id.n < minted
    requires kind == Deleted ==> id !in items
    requires forall i | i in items && i !in c0.items :: i.n >= c0.minted
    requires forall i | i != id :: Seen(items, i) == Seen(c0.items, i)
    ensures var c1 := Journal(c0.(items := items, minted := minted), kind, id, p, oldPath, now);
            Valid(c1) && Evolves(c0, c1, {})
  {
    var c1 := Journal(c0.(items := items, minted := minted), kind, id, p, oldPath, now);
    assert c1.journal[|c0.journal|].seqNo > c0.last && c1.journal[|c0.journal|].id == id;
    assert LoggedAfter(c1, c0.last, id);
  }

  /** The same without a journal entry: the id has to be counted as silent. */
  lemma SilentStep(c0: Cat, items: Items, minted: nat, id: Id)
    requires Valid(c0) && c0.minted <= minted
    requires Tree(items) && forall i | i in items :: i.Minted? && i.n < minted
    requires forall i | i in items && i !in c0.items :: i.n >= c0.minted
    requires forall i | i != id :: Seen(items, i) == Seen(c0.items, i)
    ensures var c1 := c0.(items := items, minted := minted);
            Valid(c1) && Evolves(c0, c1, {id})
  {
  }

  lemma EvolvesSelf(c: Cat)
    ensures Evolves(c, c, {})
  {
  }

  lemma EvolvesMore(c0: Cat, c1: Cat, s: set<Id>, s': set<Id>)
    requires Evolves(c0, c1, s) && s <= s'
    ensures Evolves(c0, c1, s')
  {
  }

  // ---- placeholders -------------------------------------------------------------------------

  /** Ids inserted by EnsurePath, none of which is journaled. */
  ghost function Placeholders(c0: Cat, c1: Cat): set<Id> {
    c1.items.Keys - c0.items.Keys
  }

  predicate IsPlaceholder(r: Row) {
    r.path != [] && r.name == Base(r.path) && r.isDir && r.size == 0 && r.mtime == 0 && r.ino == 0
  }

  /** c1 is c with placeholders added for dir or ancestors of it, and nothing else. */
  ghost predicate OnlyPlaceholders(c: Cat, c1: Cat, dir: Path) {
    && c1 == c.(items := c1.items, minted := c1.minted)
    && c.items.Keys <= c1.items.Keys
    && (forall i | i in c.items :: c1.items[i] == c.items[i])
    && (forall i | i in c1.items && i !in c.items ::
          i.Minted? && i.n >= c.minted && IsPlaceholder(c1.items[i]) && Within(c1.items[i].path, dir))
  }

  lemma AddPlaceholder(c: Cat, dir: Path)
    requires Valid(c) && IsPath(dir) && dir != [] && !Indexed(c.items, dir)
    requires Parent(dir) == [] || Indexed(c.items, Parent(dir))
    ensures var c1 := InsertRow(c, Row(IdAt(c.items, Parent(dir)), dir, Base(dir), true, 0, 0, 0, 0));
            Valid(c1) && Evolves(c, c1, {Minted(c.minted)}) && OnlyPlaceholders(c, c1, dir)
            && c1.items.Keys == c.items.Keys + {Minted(c.minted)}
  {
    var row := Row(IdAt(c.items, Parent(dir)), dir, Base(dir), true, 0, 0, 0, 0);
    var c1 := InsertRow(c, row);
    WithinCases(dir, dir);
    InsertKeepsTree(c.items, Minted(c.minted), row);
    SilentStep(c, c1.items, c1.minted, Minted(c.minted));
  }

  lemma OnlyPlaceholdersTrans(c: Cat, c1: Cat, c2: Cat, id: Id, dir: Path)
    requires dir != [] && Valid(c) && Valid(c1) && Valid(c2)
    requires Evolves(c, c1, Placeholders(c, c1)) && OnlyPlaceholders(c, c1, Parent(dir))
    requires Evolves(c1, c2, {id}) && OnlyPlaceholders(c1, c2, dir) && c2.items.Keys == c1.items.Keys + {id}
    requires id !in c1.items
    ensures Evolves(c, c2, Placeholders(c, c2)) && OnlyPlaceholders(c, c2, dir)
  {
    EvolvesTrans(c, c1, c2, Placeholders(c, c1), {id});
    assert Placeholders(c, c2) == Placeholders(c, c1) + {id};
    forall i | i in c1.items && i !in c.items ensures Within(c1.items[i].path, dir) {
      WithinCases(c1.items[i].path, dir);
    }
  }

  lemma {:induction false} EnsureIndexed(c: Cat, dir: Path)
    requires Tree(c.items) && (dir == [] || Indexed(c.items, dir))
    ensures EnsurePath(c, dir) == c
    decreases |dir|
  {
    if |dir| > 1 {
      AncestorIndexed(c.items, dir, |dir| - 1);
    }
    if dir != [] {
      EnsureIndexed(c, Parent(dir));
    }
  }

  /** EnsurePath adds placeholders, without a journal entry, and nothing else. */
  lemma {:induction false} EnsurePathStep(c: Cat, dir: Path)
    requires Valid(c) && IsPath(dir)
    ensures var c1 := EnsurePath(c, dir);
            Valid(c1) && Evolves(c, c1, Placeholders(c, c1)) && OnlyPlaceholders(c, c1, dir)
    decreases |dir|
  {
    if dir == [] || Indexed(c.items, dir) {
      EnsureIndexed(c, dir);
      EvolvesSelf(c);
      EvolvesMore(c, c, {}, Placeholders(c, c));
    } else {
      var c1 := EnsurePath(c, Parent(dir));
      EnsurePathStep(c, Parent(dir));
      if Indexed(c1.items, dir) {
        forall i | i in c1.items && i !in c.items ensures Within(c1.items[i].path, dir) {
          WithinCases(c1.items[i].path, dir);
        }
      } else {
        AddPlaceholder(c1, dir);
        OnlyPlaceholdersTrans(c, c1, EnsurePath(c, dir), Minted(c1.minted), dir);
      }
    }
  }

  /** Adding rows does not change the id at an indexed path. */
  lemma SameId(items: Items, more: Items, p: Path)
    requires Tree(more)
    requires p == [] || Indexed(items, p)
    requires forall i | i in items :: i in more && more[i].path == items[i].path
    ensures p == [] || Indexed(more, p)
    ensures IdAt(more, p) == IdAt(items, p)
  {
    if p != [] {
      var i := IdAt(items, p);
      assert more[i].path == p;
    }
  }

  // ---- deleting a subtree ----------------------------------------------------------------------

  function IdsOf(subs: seq<Sub>): set<Id> {
    set x | x in subs :: x.id
  }

  lemma {:induction false} DeleteEachItems(c: Cat, subs: seq<Sub>, now: int)
    ensures var c1 := DeleteEach(c, subs, now);
            c1 == c.(items := c.items - IdsOf(subs), journal := c1.journal, last := c.last + |subs|)
    decreases |subs|
  {
    if subs == [] {
      assert c.items - IdsOf(subs) == c.items;
    } else {
      DeleteEachItems(Journal(c.(items := c.items - {subs[0].id}), Deleted, subs[0].id, subs[0].path, [], now), subs[1..], now);
      assert subs == [subs[0]] + subs[1..];
      assert IdsOf(subs) == {subs[0].id} + IdsOf(subs[1..]);
      assert c.items - {subs[0].id} - IdsOf(subs[1..]) == c.items - IdsOf(subs);
    }
  }

  lemma {:induction false} DeleteEachJournal(c: Cat, subs: seq<Sub>, now: int)
    ensures var log, n := DeleteEach(c, subs, now).journal, |c.journal|;
            && |log| == n + |subs| && log[..n] == c.journal
            && forall k | n <= k < |log| :: log[k] == Change(c.last + 1 + (k - n), Deleted, subs[k - n].id, subs[k - n].path, [], now)
    decreases |subs|
  {
    if subs != [] {
      var c' := Journal(c.(items := c.items - {subs[0].id}), Deleted, subs[0].id, subs[0].path, [], now);
      DeleteEachJournal(c', subs[1..], now);
      var log, n := DeleteEach(c', subs[1..], now).journal, |c.journal|;
      assert log[..n] == log[..n + 1][..n] == c.journal;
      assert log[n] == log[..n + 1][n];
      forall k | n <= k < |log|
        ensures log[k] == Change(c.last + 1 + (k - n), Deleted, subs[k - n].id, subs[k - n].path, [], now)
      {
        if k > n {
          assert subs[1..][k - (n + 1)] == subs[k - n];
        }
      }
    }
  }

  ghost predicate Lists(items: Items, subs: seq<Sub>, s: set<Id>) {
    && (forall k | 0 <= k < |subs| :: subs[k].id in items && subs[k].path == items[subs[k].id].path)
    && IdsOf(subs) == s
    && (forall j, k | 0 <= j < k < |subs| :: subs[j].id != subs[k].id)
  }

  lemma ListsCons(items: Items, i: Id, rest: seq<Sub>, s: set<Id>)
    requires i in s && i in items && Lists(items, rest, s - {i})
    ensures Lists(items, [Sub(i, items[i].path)] + rest, s)
  {
    var subs := [Sub(i, items[i].path)] + rest;
    assert IdsOf(subs) == {i} + IdsOf(rest);
    forall k | 0 <= k < |rest| ensures rest[k].id in s - {i} {
      assert rest[k] in rest;
    }
  }

  /** The listing names each row once. */
  lemma {:induction false} DeepestFirstLists(items: Items, s: set<Id>)
    requires s <= items.Keys
    ensures Lists(items, DeepestFirst(items, s), s)
    decreases |s|
  {
    if s != {} {
      var i := First(items, s);
      DeepestFirstLists(items, s - {i});
      ListsCons(items, i, DeepestFirst(items, s - {i}), s);
    }
  }

  /** ... and a directory after everything in it. */
  lemma {:induction false} DeepestFirstOrder(items: Items, s: set<Id>, j: nat, k: nat)
    requires s <= items.Keys
    requires j < k < |DeepestFirst(items, s)|
    ensures !Below(DeepestFirst(items, s)[j].path, DeepestFirst(items, s)[k].path)
    decreases |s|
  {
    var i := First(items, s);
    if j > 0 {
      DeepestFirstOrder(items, s - {i}, j - 1, k - 1);
    } else {
      DeepestFirstLists(items, s - {i});
      var rest := DeepestFirst(items, s - {i});
      assert rest[k - 1] in rest && rest[k - 1].id in IdsOf(rest);
      var later := DeepestFirst(items, s - {i})[k - 1];
      assert Precedes(items, i, later.id);
      if Below(items[i].path, later.path) {
        BelowIsShorter(items[i].path, later.path);
      }
    }
  }

  /** Exactly the row and what the LIKE selects go, and each is journaled exactly once. */
  ghost predicate SubtreeGone(c: Cat, c1: Cat, id: Id, p: Path, now: int) {
    var n, m := |c.journal|, |c1.journal|;
    && c1.items == c.items - (Subtree(c.items, p) + {id})
    && c1.minted == c.minted && c1.bootstrapping == c.bootstrapping
    && n < m && c1.last == c.last + (m - n)
    && c1.journal[..n] == c.journal
    && (forall k | n <= k < m :: c1.journal[k].kind == Deleted && c1.journal[k].seqNo == c.last + 1 + (k - n)
                                 && c1.journal[k].ts == now)
    && (forall k | n <= k < m - 1 :: c1.journal[k].id in Subtree(c.items, p)
                                     && c1.journal[k].path == c.items[c1.journal[k].id].path)
    && (forall i | i in Subtree(c.items, p) :: exists k :: n <= k < m - 1 && c1.journal[k].id == i)
    && c1.journal[m - 1].id == id && c1.journal[m - 1].path == p
    && (forall j, k | n <= j < k < m :: c1.journal[j].id != c1.journal[k].id)
  }

  lemma ListedAt(subs: seq<Sub>, i: Id) returns (j: nat)
    requires i in IdsOf(subs)
    ensures j < |subs| && subs[j].id == i
  {
    var x :| x in subs && x.id == i;
    j :| 0 <= j < |subs| && subs[j] == x;
  }

  /** The entry of the k-th listed row. */
  lemma EntryOfListed(c: Cat, subs: seq<Sub>, now: int, log: seq<Change>, k: nat)
    requires log == DeleteEach(c, subs, now).journal && k < |subs|
    ensures |log| == |c.journal| + |subs| && log[..|c.journal|] == c.journal
    ensures log[|c.journal| + k] == Change(c.last + 1 + k, Deleted, subs[k].id, subs[k].path, [], now)
  {
    DeleteEachJournal(c, subs, now);
  }

  ghost predicate OfListed(e: Change, c: Cat, s: set<Id>, now: int, seqNo: nat) {
    e.kind == Deleted && e.seqNo == seqNo && e.ts == now && e.id in s && e.id in c.items && e.path == c.items[e.id].path
  }

  lemma EntriesOfListing(c: Cat, s: set<Id>, subs: seq<Sub>, now: int)
    requires Lists(c.items, subs, s)
    ensures var log, n := DeleteEach(c, subs, now).journal, |c.journal|;
            && |log| == n + |subs| && log[..n] == c.journal
            && (forall k | n <= k < |log| :: OfListed(log[k], c, s, now, c.last + 1 + (k - n)))
            && (forall i | i in s :: exists k :: n <= k < |log| && log[k].id == i)
            && (forall j, k | n <= j < k < |log| :: log[j].id != log[k].id)
  {
    var log, n := DeleteEach(c, subs, now).journal, |c.journal|;
    DeleteEachJournal(c, subs, now);
    forall k | n <= k < |log| ensures OfListed(log[k], c, s, now, c.last + 1 + (k - n)) {
      EntryOfListed(c, subs, now, log, k - n);
      assert subs[k - n] in subs;
    }
    forall i | i in s ensures exists k :: n <= k < |log| && log[k].id == i {
      var j := ListedAt(subs, i);
      EntryOfListed(c, subs, now, log, j);
    }
    forall j, k | n <= j < k < |log| ensures log[j].id != log[k].id {
      EntryOfListed(c, subs, now, log, j - n);
      EntryOfListed(c, subs, now, log, k - n);
    }
  }

  lemma ListedInJournal(c: Cat, c1: Cat, id: Id, p: Path, subs: seq<Sub>, now: int)
    requires Lists(c.items, subs, Subtree(c.items, p))
    requires c1.items == c.items - (Subtree(c.items, p) + {id})
    requires id !in Subtree(c.items, p)
    requires c1.journal == DeleteEach(c, subs, now).journal + [Change(c.last + |subs| + 1, Deleted, id, p, [], now)]
    requires c1 == c.(items := c1.items, journal := c1.journal, last := c.last + |subs| + 1)
    ensures SubtreeGone(c, c1, id, p, now)
  {
    EntriesOfListing(c, Subtree(c.items, p), subs, now);
    var d := DeleteEach(c, subs, now).journal;
    OneEntryMore(c, Subtree(c.items, p), d, Change(c.last + |subs| + 1, Deleted, id, p, [], now), now);
    assert c1.journal == d + [Change(c.last + |subs| + 1, Deleted, id, p, [], now)];
  }

  lemma OneEntryMore(c: Cat, s: set<Id>, d: seq<Change>, e: Change, now: int)
    requires |d| >= |c.journal| && d[..|c.journal|] == c.journal
    requires forall k | |c.journal| <= k < |d| :: OfListed(d[k], c, s, now, c.last + 1 + (k - |c.journal|))
    requires forall i | i in s :: exists k :: |c.journal| <= k < |d| && d[k].id == i
    requires e.id !in s && forall j, k | |c.journal| <= j < k < |d| :: d[j].id != d[k].id
    ensures var log, n := d + [e], |c.journal|;
            && log[..n] == c.journal && log[|log| - 1] == e
            && (forall k | n <= k < |log| - 1 :: OfListed(log[k], c, s, now, c.last + 1 + (k - n)))
            && (forall i | i in s :: exists k :: n <= k < |log| - 1 && log[k].id == i)
            && (forall j, k | n <= j < k < |log| :: log[j].id != log[k].id)
  {
    var log, n := d + [e], |c.journal|;
    assert log[..n] == d[..n];
    forall i | i in s ensures exists k :: n <= k < |log| - 1 && log[k].id == i {
      var k :| n <= k < |d| && d[k].id == i;
      assert log[k] == d[k];
    }
    forall j, k | n <= j < k < |log| ensures log[j].id != log[k].id {
      assert log[j] == d[j];
    }
  }

  lemma DeleteSubtreeIs(c: Cat, id: Id, p: Path, now: int)
    requires id in c.items ==> c.items[id].path == p
    ensures SubtreeGone(c, DeleteSubtree(c, id, p, now), id, p, now)
  {
    var s := Subtree(c.items, p);
    var subs := DeepestFirst(c.items, s);
    DeepestFirstLists(c.items, s);
    SelectsNotItself(p);
    DeleteEachItems(c, subs, now);
    LastDeleted(c, DeleteEach(c, subs, now), subs, id, p, now);
    ListedInJournal(c, DeleteSubtree(c, id, p, now), id, p, subs, now);
  }

  lemma LastDeleted(c: Cat, d: Cat, subs: seq<Sub>, id: Id, p: Path, now: int)
    requires d == c.(items := c.items - IdsOf(subs), journal := d.journal, last := c.last + |subs|)
    ensures Journal(d.(items := d.items - {id}), Deleted, id, p, [], now)
         == c.(items := c.items - (IdsOf(subs) + {id}), journal := d.journal + [Change(c.last + |subs| + 1, Deleted, id, p, [], now)],
               last := c.last + |subs| + 1)
  {
    assert c.items - IdsOf(subs) - {id} == c.items - (IdsOf(subs) + {id});
  }

  lemma SubtreeGoneLogged(c: Cat, c1: Cat, id: Id, p: Path, now: int, i: Id)
    requires SubtreeGone(c, c1, id, p, now)
    requires i == id || i in Subtree(c.items, p)
    ensures LoggedAfter(c1, c.last, i)
  {
    var n, m := |c.journal|, |c1.journal|;
    if i == id {
      assert c1.journal[m - 1].id == i && c1.journal[m - 1].seqNo > c.last;
    } else {
      var k :| n <= k < m - 1 && c1.journal[k].id == i;
      assert c1.journal[k].seqNo > c.last;
    }
  }

  lemma SubtreeGoneTree(c: Cat, c1: Cat, id: Id, p: Path, now: int)
    requires Tree(c.items) && id in c.items && c.items[id].path == p
    requires SubtreeGone(c, c1, id, p, now)
    ensures Tree(c1.items)
  {
    assert RowOk(c.items, id);
    RemoveKeepsTree(c.items, Subtree(c.items, p) + {id}, p);
  }

  lemma SubtreeGoneJournal(c: Cat, c1: Cat, id: Id, p: Path, now: int)
    requires Contiguous(c) && NoReuse(c) && id in c.items
    requires SubtreeGone(c, c1, id, p, now)
    ensures Contiguous(c1) && NoReuse(c1)
  {
    var n, m := |c.journal|, |c1.journal|;
    assert forall k | 0 <= k < n :: c1.journal[k] == c1.journal[..n][k] == c.journal[k];
    assert forall k | n <= k < m :: c1.journal[k].id in Subtree(c.items, p) + {id};
  }

  lemma DeleteSubtreeStep(c: Cat, id: Id, p: Path, now: int)
    requires Valid(c) && id in c.items && c.items[id].path == p
    ensures var c1 := DeleteSubtree(c, id, p, now);
            Valid(c1) && Evolves(c, c1, {}) && SubtreeGone(c, c1, id, p, now)
  {
    var c1 := DeleteSubtree(c, id, p, now);
    DeleteSubtreeIs(c, id, p, now);
    SubtreeGoneTree(c, c1, id, p, now);
    SubtreeGoneJournal(c, c1, id, p, now);
    forall i | Seen(c.items, i) != Seen(c1.items, i) ensures LoggedAfter(c1, c.last, i) {
      SubtreeGoneLogged(c, c1, id, p, now, i);
    }
  }
}
