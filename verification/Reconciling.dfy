/** Reconciling a directory, step by step: what every step keeps, whatever rename
    candidate it picks. */
module Reconciling {
  import opened Paths
  import opened SqlLike
  import opened Catalogue
  import opened TreeInvariant
  import opened History
  import opened Writes

  /** The task describes a directory of the catalogue a. */
  ghost predicate TaskOf(a: Cat, t: Task) {
    && Valid(a) && IsPath(t.dir)
    && (t.dir == [] || Indexed(a.items, t.dir))
    && t.pid == IdAt(a.items, t.dir)
    && t.was == a.items
    && t.known == Known(a.items, t.pid)
  }

  /** The component of p just below dir. */
  function Top(dir: Path, p: Path): Name
    requires Below(dir, p)
  {
    p[|dir|]
  }

  /** p with that component replaced by n. */
  function Replant(dir: Path, p: Path, n: Name): Path
    requires Below(dir, p)
  {
    dir + [n] + p[|dir| + 1..]
  }

  /** Where the rows of the catalogue a are while its directory dir is being reconciled:
      those not below dir untouched, the others under the present name of their top ancestor. */
  ghost predicate Placed(a: Items, b: Items, dir: Path, dest: map<Name, Name>) {
    && (forall m, n | m in dest && n in dest && dest[m] == dest[n] :: m == n)
    && (forall i | i in a && !Below(dir, a[i].path) :: i in b && b[i] == a[i])
    && (forall i | i in a && Below(dir, a[i].path) ::
          var p := a[i].path;
          if Top(dir, p) in dest then
            && i in b
            && b[i].path == Replant(dir, p, dest[Top(dir, p)])
            && (|p| > |dir| + 1 ==> b[i] == a[i].(path := b[i].path))
          else i !in b)
    && (forall i | i in b && i !in a :: |b[i].path| == |dir| + 1 && Below(dir, b[i].path))
  }

  /** Names not seen so far: known ones are still in place, others are free. */
  ghost predicate Untouched(s: Progress, t: Task) {
    && s.dest.Keys <= t.known.Keys
    && (forall n | n in t.known && n !in s.seen && n in s.dest ::
          s.dest[n] == n && t.known[n] in s.c.items && t.known[n] in t.was && s.c.items[t.known[n]] == t.was[t.known[n]])
    && (forall n | n !in t.known && n !in s.seen :: !Indexed(s.c.items, t.dir + [n]))
  }

  /** Ids whose rows were written without a journal entry. */
  function Unlogged(c: Cat, ids: map<Name, Id>): set<Id> {
    if c.bootstrapping then ids.Values else {}
  }

  ghost predicate Running(a: Cat, s: Progress, t: Task) {
    && s.ok
    && TaskOf(a, t)
    && Valid(s.c)
    && Evolves(a, s.c, Unlogged(a, s.ids))
    && Placed(a.items, s.c.items, t.dir, s.dest)
    && Untouched(s, t)
  }

  // ---- what the LIKEs may select --------------------------------------------------------------

  function Names(observed: seq<Observed>): set<Name> {
    set o | o in observed :: o.name
  }

  predicate SameFold(m: Name, n: Name) {
    FoldAll(m) == FoldAll(n)
  }

  /** The known names a LIKE may be run for: those not observed, to be dropped or taken for renamed,
      and those that may be taken for renamed before they are observed. */
  ghost function Touched(known: map<Name, Id>, was: Items, all: seq<Observed>): set<Name> {
    set m | m in known && (m !in Names(all)
                           || exists k :: 0 <= k < |all| && all[k].name !in known && known[m] in was && SameInode(was[known[m]], all[k]))
  }

  /** Taking o for a renamed directory brings nothing under a case variant of a touched name. */
  ghost predicate EntryClean(t: Task, touched: set<Name>, o: Observed) {
    o.name !in t.known ==>
      forall m | m in t.known && t.known[m] in t.was && SameInode(t.was[t.known[m]], o) ::
        m in touched && (HasBelow(t.was, t.dir + [m]) ==> forall n | n in touched && n != m :: !SameFold(n, o.name))
  }

  /** No touched name has rows below a case variant of it, now or after the renames. */
  ghost predicate CaseReady(t: Task, dest: map<Name, Name>, touched: set<Name>) {
    && (forall m | m in touched :: m in t.known && CaseSafe(t.was, t.dir + [m]))
    && (forall m | m in dest && dest[m] != m && HasBelow(t.was, t.dir + [m]) ::
          forall n | n in touched && n != m :: !SameFold(n, dest[m]))
  }

  /** The same of the catalogue and the observation, before the call. */
  ghost predicate CaseClean(items: Items, dir: Path, all: seq<Observed>)
    requires dir == [] || Indexed(items, dir)
  {
    var known := Known(items, IdAt(items, dir));
    var touched := Touched(known, items, all);
    && (forall m | m in touched :: CaseSafe(items, dir + [m]))
    && (forall k, m | 0 <= k < |all| && all[k].name !in known && m in known && SameInode(items[known[m]], all[k])
                      && HasBelow(items, dir + [m]) ::
          forall n | n in touched && n != m :: !SameFold(n, all[k].name))
  }

  lemma CaseCleanStarts(a: Cat, t: Task, all: seq<Observed>)
    requires TaskOf(a, t) && CaseClean(a.items, t.dir, all)
    ensures CaseReady(t, Start(a, t.known).dest, Touched(t.known, t.was, all))
    ensures forall k | 0 <= k < |all| :: EntryClean(t, Touched(t.known, t.was, all), all[k])
  {
  }

  /** The first component at which a path selected for dir/m differs in spelling, if any. */
  lemma SelectedUnder(dir: Path, m: Name, p: Path)
    requires IsPath(dir + [m]) && IsPath(p) && Selects(dir + [m], p)
    ensures |p| > |dir| + 1 && SameFold(p[|dir|], m)
  {
    BelowSelects(dir + [m], p);
    var q := p[..|dir| + 1];
    assert FoldPath(q)[|dir|] == FoldAll(q[|dir|]) && FoldPath(dir + [m])[|dir|] == FoldAll((dir + [m])[|dir|]);
  }

  /** In every state of the loop, the LIKE for a touched name still in place selects only what is
      below it. */
  lemma CaseSafeNow(a: Cat, s: Progress, t: Task, touched: set<Name>, m: Name)
    requires Running(a, s, t) && CaseReady(t, s.dest, touched) && m in touched && m in s.dest && s.dest[m] == m
    ensures CaseSafe(s.c.items, t.dir + [m])
  {
    var b := s.c.items;
    KnownRow(a, t, m);
    assert RowOk(a.items, t.known[m]);
    forall i | i in b && Selects(t.dir + [m], b[i].path) ensures Below(t.dir + [m], b[i].path) {
      assert RowOk(b, i);
      SelectedUnder(t.dir, m, b[i].path);
      assert i in a.items;
      if Below(t.dir, a.items[i].path) {
        SelectedMoved(a, s, t, touched, m, i);
      }
    }
  }

  /** A selected row below dir has not moved. */
  lemma SelectedMoved(a: Cat, s: Progress, t: Task, touched: set<Name>, m: Name, i: Id)
    requires Running(a, s, t) && CaseReady(t, s.dest, touched) && m in touched && m in s.dest && s.dest[m] == m
    requires i in s.c.items && i in a.items && Below(t.dir, a.items[i].path)
    requires |s.c.items[i].path| > |t.dir| + 1 && SameFold(s.c.items[i].path[|t.dir|], m)
    ensures s.c.items[i].path == a.items[i].path
  {
    var p := a.items[i].path;
    var top := Top(t.dir, p);
    TopKnown(a, t, i);
    DeepHasBelow(t.was, t.dir, i);
    assert p == t.dir + [top] + p[|t.dir| + 1..];
  }

  lemma DeepHasBelow(items: Items, dir: Path, i: Id)
    requires i in items && Below(dir, items[i].path) && |items[i].path| > |dir| + 1
    ensures HasBelow(items, dir + [Top(dir, items[i].path)])
  {
    var p := items[i].path;
    assert p[..|dir| + 1] == dir + [p[|dir|]];
    assert Below(dir + [Top(dir, p)], p);
  }

  // ---- facts about the directory -----------------------------------------------------

  /** The children of dir by the parent column are those by the path column. */
  lemma ChildPath(items: Items, dir: Path, i: Id)
    requires Tree(items) && i in items && (dir == [] || Indexed(items, dir))
    ensures items[i].path != []
    ensures items[i].parent == IdAt(items, dir) <==> Parent(items[i].path) == dir
    ensures Parent(items[i].path) == dir ==> items[i].path == dir + [items[i].name]
  {
    assert RowOk(items, i);
    ParentIndexed(items, i);
    var p := items[i].path;
    assert p == Parent(p) + [Base(p)];
    var up, up' := IdAt(items, dir), IdAt(items, Parent(p));
    assert dir != [] ==> RowOk(items, up) && up != Root;
    assert Parent(p) != [] ==> RowOk(items, up') && up' != Root;
  }

  lemma BelowChild(dir: Path, n: Name)
    ensures Below(dir, dir + [n]) && Top(dir, dir + [n]) == n && Parent(dir + [n]) == dir && Base(dir + [n]) == n
  {
  }

  lemma KnownRow(a: Cat, t: Task, n: Name)
    requires TaskOf(a, t) && n in t.known
    ensures var i := t.known[n];
            i in a.items && a.items[i].path == t.dir + [n] && a.items[i].name == n
            && Below(t.dir, a.items[i].path) && Top(t.dir, a.items[i].path) == n
  {
    ChildPath(a.items, t.dir, t.known[n]);
    BelowChild(t.dir, n);
  }

  lemma TopChild(items: Items, dir: Path, i: Id) returns (j: Id)
    requires Tree(items) && i in items && Below(dir, items[i].path)
    ensures j in items && items[j].path == dir + [Top(dir, items[i].path)]
    ensures items[i].path == dir + [Top(dir, items[i].path)] + items[i].path[|dir| + 1..]
    ensures |items[i].path| == |dir| + 1 ==> i == j
  {
    var p := items[i].path;
    var q := p[..|dir| + 1];
    AncestorIndexed(items, p, |dir| + 1);
    j := IdAt(items, q);
    assert q == dir + [Top(dir, p)];
    assert p == q + p[|dir| + 1..];
  }

  /** Every row below dir lies within a known child. */
  lemma TopKnown(a: Cat, t: Task, i: Id)
    requires TaskOf(a, t) && i in a.items && Below(t.dir, a.items[i].path)
    ensures Top(t.dir, a.items[i].path) in t.known
    ensures a.items[i].path == t.dir + [Top(t.dir, a.items[i].path)] + a.items[i].path[|t.dir| + 1..]
    ensures |a.items[i].path| == |t.dir| + 1 ==> i == t.known[Top(t.dir, a.items[i].path)]
  {
    var n := Top(t.dir, a.items[i].path);
    var j := TopChild(a.items, t.dir, i);
    BelowChild(t.dir, n);
    ChildPath(a.items, t.dir, j);
    assert a.items[j].name == n by {
      assert RowOk(a.items, j);
    }
    KnownRow(a, t, n);
  }

  lemma KnownIffIndexed(a: Cat, t: Task, n: Name)
    requires TaskOf(a, t)
    ensures n in t.known <==> Indexed(a.items, t.dir + [n])
  {
    BelowChild(t.dir, n);
    if n in t.known {
      KnownRow(a, t, n);
    }
    forall i | i in a.items && a.items[i].path == t.dir + [n] ensures n in t.known {
      ChildPath(a.items, t.dir, i);
      assert a.items[i].name == n by {
        assert RowOk(a.items, i);
      }
    }
  }

  lemma StartRunning(a: Cat, t: Task)
    requires TaskOf(a, t)
    ensures Running(a, Start(a, t.known), t)
  {
    var s := Start(a, t.known);
    EvolvesSelf(a);
    EvolvesMore(a, a, {}, Unlogged(a, s.ids));
    forall i | i in a.items && Below(t.dir, a.items[i].path)
      ensures Top(t.dir, a.items[i].path) in s.dest
      ensures a.items[i].path == Replant(t.dir, a.items[i].path, Top(t.dir, a.items[i].path))
    {
      TopKnown(a, t, i);
    }
    forall n | n !in t.known ensures !Indexed(a.items, t.dir + [n]) {
      KnownIffIndexed(a, t, n);
    }
  }

  /** The id of the directory itself stays where it is. */
  lemma DirStays(a: Cat, s: Progress, t: Task)
    requires Running(a, s, t)
    ensures t.dir == [] || Indexed(s.c.items, t.dir)
    ensures IdAt(s.c.items, t.dir) == t.pid
  {
    if t.dir != [] {
      assert s.c.items[t.pid] == a.items[t.pid];
      IdIs(s.c.items, t.pid, t.dir);
    }
  }

  // ---- one observed entry -----------------------------------------------------------------

  /** Writing one row, with or without its journal entry. */
  lemma UpsertEntry(a: Cat, c: Cat, ids: map<Name, Id>, n: Name, items: Items, minted: nat, id: Id, p: Path, now: int)
    requires Contiguous(a) && Valid(c) && c.minted <= minted
    requires Evolves(a, c, Unlogged(a, ids)) && n !in ids
    requires Tree(items) && forall i | i in items :: i.Minted? && i.n < minted
    requires id.Minted? && id.n < minted
    requires forall i | i in items && i !in c.items :: i.n >= c.minted
    requires forall i | i != id :: Seen(items, i) == Seen(c.items, i)
    ensures var c1 := JournalUpsert(c.(items := items, minted := minted), id, p, now);
            Valid(c1) && Evolves(a, c1, Unlogged(a, ids[n := id])) && c1.items == items
  {
    var c1 := JournalUpsert(c.(items := items, minted := minted), id, p, now);
    var w := if a.bootstrapping then {id} else {};
    if a.bootstrapping {
      SilentStep(c, items, minted, id);
      assert ids[n := id][n] == id;
      assert forall m | m in ids :: ids[n := id][m] == ids[m];
    } else {
      JournalStep(c, items, minted, Upserted, id, p, [], now);
    }
    EvolvesTrans(a, c, c1, Unlogged(a, ids), w);
    EvolvesMore(a, c1, Unlogged(a, ids) + w, Unlogged(a, ids[n := id]));
  }

  lemma NewIdMore(a: Cat, c: Cat, ids: map<Name, Id>, n: Name, id: Id)
    requires Evolves(a, c, Unlogged(a, ids)) && n !in ids
    ensures Evolves(a, c, Unlogged(a, ids[n := id]))
  {
    assert forall m | m in ids :: ids[n := id][m] == ids[m];
    EvolvesMore(a, c, Unlogged(a, ids), Unlogged(a, ids[n := id]));
  }

  /** Writing columns of one top row other than its path. */
  lemma SetTopPlaced(a: Items, b: Items, b1: Items, dir: Path, dest: map<Name, Name>, id: Id)
    requires Placed(a, b, dir, dest)
    requires b1.Keys == b.Keys && forall i | i in b :: b1[i].path == b[i].path && (i != id ==> b1[i] == b[i])
    requires id in a && |a[id].path| == |dir| + 1 && Below(dir, a[id].path)
    ensures Placed(a, b1, dir, dest)
  {
  }

  lemma SetTopUntouched(s: Progress, s': Progress, t: Task, n: Name, id: Id)
    requires Untouched(s, t)
    requires s'.dest == s.dest && s'.seen == s.seen + {n}
    requires s'.c.items.Keys == s.c.items.Keys
    requires forall i | i in s.c.items :: s'.c.items[i].path == s.c.items[i].path && (i != id ==> s'.c.items[i] == s.c.items[i])
    requires forall m | m in t.known && m != n :: t.known[m] != id
    ensures Untouched(s', t)
  {
    forall m | m !in t.known && m !in s'.seen ensures !Indexed(s'.c.items, t.dir + [m]) {
      assert !Indexed(s.c.items, t.dir + [m]);
    }
  }

  lemma KnownApart(a: Cat, t: Task, n: Name)
    requires TaskOf(a, t) && n in t.known
    ensures forall m | m in t.known && m != n :: t.known[m] != t.known[n]
  {
    forall m | m in t.known && m != n ensures t.known[m] != t.known[n] {
      KnownRow(a, t, m);
      KnownRow(a, t, n);
    }
  }

  /** What one observed entry with a known name does, in the words of Observe. */
  ghost predicate KnownOutcome(s: Progress, s': Progress, o: Observed, t: Task) {
    && o.name in t.known
    && (var id := t.known[o.name];
        && s'.dest == s.dest && s'.seen == s.seen + {o.name} && s'.ids == s.ids[o.name := id] && s'.ok == s.ok
        && (s'.c == s.c || s'.c == JournalUpsert(s.c.(items := SetStat(s.c.items, id, o)), id, t.dir + [o.name], t.now)))
  }

  lemma KnownLogged(a: Cat, s: Progress, s': Progress, o: Observed, t: Task)
    requires Valid(a) && Valid(s.c) && Evolves(a, s.c, Unlogged(a, s.ids)) && o.name !in s.ids
    requires KnownOutcome(s, s', o, t) && t.known[o.name] in a.items
    ensures Valid(s'.c) && Evolves(a, s'.c, Unlogged(a, s'.ids))
  {
    var id := t.known[o.name];
    if s'.c == s.c {
      NewIdMore(a, s.c, s.ids, o.name, id);
    } else {
      SetStatKeeps(s.c.items, id, o);
      UpsertEntry(a, s.c, s.ids, o.name, SetStat(s.c.items, id, o), s.c.minted, id, t.dir + [o.name], t.now);
    }
  }

  lemma KnownRows(s: Progress, s': Progress, o: Observed, t: Task)
    requires KnownOutcome(s, s', o, t)
    ensures s'.c.items.Keys == s.c.items.Keys
    ensures forall i | i in s.c.items :: s'.c.items[i].path == s.c.items[i].path
                                         && (i != t.known[o.name] ==> s'.c.items[i] == s.c.items[i])
  {
  }

  lemma KnownStep(a: Cat, s: Progress, s': Progress, o: Observed, t: Task)
    requires Running(a, s, t) && o.name !in s.ids && KnownOutcome(s, s', o, t)
    ensures Running(a, s', t)
  {
    var id := t.known[o.name];
    KnownRow(a, t, o.name);
    KnownLogged(a, s, s', o, t);
    KnownRows(s, s', o, t);
    SetTopPlaced(a.items, s.c.items, s'.c.items, t.dir, s.dest, id);
    KnownApart(a, t, o.name);
    SetTopUntouched(s, s', t, o.name, id);
  }

  /** Inserting a child under a free name. */
  lemma InsertPlaced(a: Items, b: Items, dir: Path, dest: map<Name, Name>, id: Id, row: Row)
    requires Placed(a, b, dir, dest) && id !in b && id !in a
    requires |row.path| == |dir| + 1 && Below(dir, row.path)
    ensures Placed(a, b[id := row], dir, dest)
  {
  }

  lemma FreshId(a: Cat, c: Cat, silent: set<Id>)
    requires NoReuse(a) && NoReuse(c) && Evolves(a, c, silent)
    ensures Minted(c.minted) !in a.items && Minted(c.minted) !in c.items
  {
  }

  lemma InsertUntouched(s: Progress, s': Progress, t: Task, n: Name, id: Id)
    requires Untouched(s, t)
    requires s'.dest == s.dest && s'.seen == s.seen + {n}
    requires id !in s.c.items && s'.c.items.Keys == s.c.items.Keys + {id}
    requires forall i | i in s.c.items :: s'.c.items[i] == s.c.items[i]
    requires s'.c.items[id].path == t.dir + [n]
    ensures Untouched(s', t)
  {
    forall m | m !in t.known && m !in s'.seen ensures !Indexed(s'.c.items, t.dir + [m]) {
      assert !Indexed(s.c.items, t.dir + [m]);
      BelowChild(t.dir, n);
      BelowChild(t.dir, m);
    }
  }

  /** What an observed entry with a new name and no rename candidate does. */
  ghost predicate NewOutcome(s: Progress, s': Progress, o: Observed, t: Task) {
    var id, p := Minted(s.c.minted), t.dir + [o.name];
    && s'.dest == s.dest && s'.seen == s.seen + {o.name} && s'.ids == s.ids[o.name := id] && s'.ok == s.ok
    && s'.c == JournalUpsert(InsertRow(s.c, RowFor(t.pid, p, o)), id, p, t.now)
  }

  lemma NewRowTree(items: Items, id: Id, t: Task, o: Observed)
    requires Tree(items) && id !in items && id != Root && IsName(o.name) && IsPath(t.dir)
    requires (t.dir == [] || Indexed(items, t.dir)) && IdAt(items, t.dir) == t.pid && !Indexed(items, t.dir + [o.name])
    ensures Tree(items[id := RowFor(t.pid, t.dir + [o.name], o)])
  {
    BelowChild(t.dir, o.name);
    InsertKeepsTree(items, id, RowFor(t.pid, t.dir + [o.name], o));
  }

  /** Inserting one row under the next id. */
  lemma InsertEntry(a: Cat, c: Cat, ids: map<Name, Id>, n: Name, row: Row, p: Path, now: int)
    requires Contiguous(a) && Valid(c) && Evolves(a, c, Unlogged(a, ids)) && n !in ids
    requires Tree(c.items[Minted(c.minted) := row])
    ensures var c1 := JournalUpsert(InsertRow(c, row), Minted(c.minted), p, now);
            Valid(c1) && Evolves(a, c1, Unlogged(a, ids[n := Minted(c.minted)]))
  {
    UpsertEntry(a, c, ids, n, c.items[Minted(c.minted) := row], c.minted + 1, Minted(c.minted), p, now);
  }

  lemma NewLogged(a: Cat, s: Progress, s': Progress, o: Observed, t: Task)
    requires Valid(a) && Valid(s.c) && Evolves(a, s.c, Unlogged(a, s.ids)) && o.name !in s.ids
    requires NewOutcome(s, s', o, t) && IsName(o.name) && IsPath(t.dir)
    requires (t.dir == [] || Indexed(s.c.items, t.dir)) && IdAt(s.c.items, t.dir) == t.pid
    requires !Indexed(s.c.items, t.dir + [o.name])
    ensures Valid(s'.c) && Evolves(a, s'.c, Unlogged(a, s'.ids))
  {
    var id, p := Minted(s.c.minted), t.dir + [o.name];
    NewRowTree(s.c.items, id, t, o);
    InsertEntry(a, s.c, s.ids, o.name, RowFor(t.pid, p, o), p, t.now);
  }

  lemma NewStep(a: Cat, s: Progress, s': Progress, o: Observed, t: Task)
    requires Running(a, s, t) && o.name !in t.known && o.name !in s.seen && o.name !in s.ids && IsName(o.name)
    requires NewOutcome(s, s', o, t)
    ensures Running(a, s', t)
  {
    var id := Minted(s.c.minted);
    BelowChild(t.dir, o.name);
    DirStays(a, s, t);
    NewLogged(a, s, s', o, t);
    FreshId(a, s.c, Unlogged(a, s.ids));
    InsertPlaced(a.items, s.c.items, t.dir, s.dest, id, RowFor(t.pid, t.dir + [o.name], o));
    InsertUntouched(s, s', t, o.name, id);
  }

  /** Moving a child that is still in place to a free name. */
  lemma RelocatePlaced(a: Items, b: Items, b1: Items, dir: Path, dest: map<Name, Name>, id: Id, m: Name, n: Name)
    requires Placed(a, b, dir, dest) && m in dest && dest[m] == m
    requires n !in dest.Values
    requires id in a && a[id].path == dir + [m] && id in b
    requires b1.Keys == b.Keys
    requires forall i | i in b && i != id :: b1[i] == b[i].(path := Shift(b[i].path, dir + [m], dir + [n]))
    requires b1[id].path == dir + [n]
    ensures Placed(a, b1, dir, dest[m := n])
  {
    BelowChild(dir, m);
    BelowChild(dir, n);
    forall i | i in a ensures !Below(dir, a[i].path) ==> i in b1 && b1[i] == a[i] {
      if !Below(dir, a[i].path) {
        ShiftChild(dir, a[i].path, m, n);
      }
    }
    forall i | i in a && Below(dir, a[i].path)
      ensures var p := a[i].path;
              if Top(dir, p) in dest then
                && i in b1
                && b1[i].path == Replant(dir, p, dest[m := n][Top(dir, p)])
                && (|p| > |dir| + 1 ==> b1[i] == a[i].(path := b1[i].path))
              else i !in b1
    {
      var p := a[i].path;
      if Top(dir, p) in dest {
        ReplantShift(dir, p, dest[Top(dir, p)], m, n);
      }
    }
    forall i | i in b1 && i !in a ensures |b1[i].path| == |dir| + 1 && Below(dir, b1[i].path) {
      ShiftChild(dir, b[i].path, m, n);
    }
  }

  lemma ReplantShift(dir: Path, p: Path, d: Name, m: Name, n: Name)
    requires Below(dir, p)
    ensures Shift(Replant(dir, p, d), dir + [m], dir + [n]) == Replant(dir, p, if d == m then n else d)
  {
    var q := Replant(dir, p, d);
    assert q[..|dir| + 1] == dir + [d];
    assert (dir + [d])[|dir|] == d && (dir + [m])[|dir|] == m;
    assert q[|dir| + 1..] == p[|dir| + 1..];
  }

  lemma ShiftChild(dir: Path, p: Path, m: Name, n: Name)
    ensures !Below(dir, p) ==> Shift(p, dir + [m], dir + [n]) == p
    ensures Below(dir, p) && |p| == |dir| + 1 ==>
              var q := Shift(p, dir + [m], dir + [n]); Below(dir, q) && |q| == |dir| + 1
  {
    assert |dir| < |p| ==> p[..|dir| + 1][..|dir|] == p[..|dir|];
    assert (dir + [m])[..|dir|] == dir;
  }

  /** What an observed entry does that is taken for the known name m, renamed. */
  ghost predicate RenameOutcome(s: Progress, s': Progress, o: Observed, t: Task, m: Name) {
    && m in t.known && m !in s.seen
    && (var id, p := t.known[m], t.dir + [o.name];
        var c := MovePath(s.c, id, t.dir + [m], p, t.pid, t.now);
        && s'.dest == s.dest[m := o.name] && s'.seen == s.seen + {o.name} + {m} && s'.ids == s.ids[o.name := id]
        && s'.ok == (s.ok && UniquePaths(c.items))
        && s'.c == c.(items := SetSizeAndTime(c.items, id, o)))
  }

  lemma ChildrenApart(dir: Path, m: Name, n: Name)
    requires m != n
    ensures !Below(dir + [m], dir + [n]) && !Within(dir + [m], dir + [n]) && dir + [m] != dir + [n]
  {
    BelowChild(dir, m);
    BelowChild(dir, n);
    WithinCases(dir + [m], dir + [n]);
  }

  /** The rows after a rename inside dir. */
  lemma RenamedRows(b: Items, b1: Items, dir: Path, id: Id, pid: Id, m: Name, o: Observed)
    requires Tree(b) && id in b && b[id].path == dir + [m] && m != o.name && CaseSafe(b, dir + [m])
    requires IsPath(dir + [o.name])
    requires b1 == SetSizeAndTime(Relocate(b, id, dir + [m], dir + [o.name], pid), id, o)
    ensures b1.Keys == b.Keys
    ensures forall i | i in b && i != id :: b1[i] == b[i].(path := Shift(b[i].path, dir + [m], dir + [o.name]))
    ensures b1[id] == b[id].(path := dir + [o.name], name := o.name, parent := pid, size := o.size, mtime := o.mtime)
  {
    ChildrenApart(dir, m, o.name);
    BelowChild(dir, o.name);
    assert RowOk(b, id);
    SameLengthNotSelected(dir + [m], dir + [o.name]);
    RelocatedRow(b, id, dir + [m], dir + [o.name], pid, id);
    forall i | i in b && i != id ensures b1[i] == b[i].(path := Shift(b[i].path, dir + [m], dir + [o.name])) {
      RelocatedRow(b, id, dir + [m], dir + [o.name], pid, i);
    }
  }

  lemma RenamedTree(b: Items, dir: Path, id: Id, pid: Id, m: Name, o: Observed)
    requires Tree(b) && id in b && b[id].path == dir + [m] && m != o.name && IsName(o.name) && IsPath(dir) && CaseSafe(b, dir + [m])
    requires (dir == [] || Indexed(b, dir)) && IdAt(b, dir) == pid
    requires !Indexed(b, dir + [o.name])
    ensures Tree(SetSizeAndTime(Relocate(b, id, dir + [m], dir + [o.name], pid), id, o))
    ensures UniquePaths(Relocate(b, id, dir + [m], dir + [o.name], pid))
  {
    ChildrenApart(dir, m, o.name);
    BelowChild(dir, o.name);
    assert RowOk(b, id);
    SameLengthNotSelected(dir + [m], dir + [o.name]);
    var moved := Relocate(b, id, dir + [m], dir + [o.name], pid);
    RelocateKeepsTree(b, id, dir + [m], dir + [o.name], pid);
    SameShapeKeepsTree(moved, SetSizeAndTime(moved, id, o));
  }

  lemma RenameJournal(s: Progress, s': Progress, o: Observed, t: Task, m: Name)
    requires RenameOutcome(s, s', o, t, m)
    ensures s'.c.items == SetSizeAndTime(Relocate(s.c.items, t.known[m], t.dir + [m], t.dir + [o.name], t.pid), t.known[m], o)
    ensures s'.c == Journal(s.c.(items := s'.c.items, minted := s.c.minted), Moved, t.known[m], t.dir + [o.name], t.dir + [m], t.now)
  {
  }

  /** The same, row by row. */
  ghost predicate RenameEffect(s: Progress, s': Progress, o: Observed, t: Task, m: Name) {
    && m in t.known && m in s.dest && t.known[m] in s.c.items
    && (var id, b, b1 := t.known[m], s.c.items, s'.c.items;
        && s'.dest == s.dest[m := o.name] && s'.seen == s.seen + {o.name} + {m} && s'.ids == s.ids[o.name := id] && s'.ok == s.ok
        && s'.c == Journal(s.c.(items := b1, minted := s.c.minted), Moved, id, t.dir + [o.name], t.dir + [m], t.now)
        && Tree(b1) && b1.Keys == b.Keys
        && (forall i | i in b && i != id :: b1[i] == b[i].(path := Shift(b[i].path, t.dir + [m], t.dir + [o.name])))
        && b1[id].path == t.dir + [o.name])
  }

  lemma RenameLogged(a: Cat, s: Progress, s': Progress, o: Observed, t: Task, m: Name)
    requires Contiguous(a) && Valid(s.c) && Evolves(a, s.c, Unlogged(a, s.ids)) && o.name !in s.ids
    requires RenameEffect(s, s', o, t, m)
    ensures Valid(s'.c) && Evolves(a, s'.c, Unlogged(a, s'.ids))
  {
    var id := t.known[m];
    JournalStep(s.c, s'.c.items, s.c.minted, Moved, id, t.dir + [o.name], t.dir + [m], t.now);
    EvolvesTrans(a, s.c, s'.c, Unlogged(a, s.ids), {});
    EvolvesMore(a, s'.c, Unlogged(a, s.ids) + {}, Unlogged(a, s.ids));
    NewIdMore(a, s'.c, s.ids, o.name, id);
  }

  lemma RenameKeepsKnown(a: Cat, s: Progress, s': Progress, o: Observed, t: Task, m: Name, n: Name)
    requires TaskOf(a, t) && Untouched(s, t)
    requires RenameEffect(s, s', o, t, m)
    requires n in t.known && n !in s.seen && n in s.dest && n != m
    ensures s'.dest[n] == n && t.known[n] in s'.c.items && s'.c.items[t.known[n]] == t.was[t.known[n]]
  {
    KnownApart(a, t, n);
    KnownRow(a, t, n);
    ChildrenApart(t.dir, m, n);
  }

  lemma RenameKeepsFree(s: Progress, s': Progress, o: Observed, t: Task, m: Name, n: Name)
    requires RenameEffect(s, s', o, t, m) && n != o.name && !Indexed(s.c.items, t.dir + [n])
    ensures !Indexed(s'.c.items, t.dir + [n])
  {
    ChildrenApart(t.dir, o.name, n);
    forall i | i in s.c.items ensures s'.c.items[i].path != t.dir + [n] {
      ShiftNotChild(t.dir, s.c.items[i].path, m, o.name, n);
    }
  }

  lemma RenameUntouched(a: Cat, s: Progress, s': Progress, o: Observed, t: Task, m: Name)
    requires TaskOf(a, t) && Untouched(s, t)
    requires RenameEffect(s, s', o, t, m)
    ensures Untouched(s', t)
  {
    forall n | n in t.known && n !in s'.seen && n in s'.dest
      ensures s'.dest[n] == n && t.known[n] in s'.c.items && s'.c.items[t.known[n]] == t.was[t.known[n]]
    {
      RenameKeepsKnown(a, s, s', o, t, m, n);
    }
    forall n | n !in t.known && n !in s'.seen ensures !Indexed(s'.c.items, t.dir + [n]) {
      RenameKeepsFree(s, s', o, t, m, n);
    }
  }

  lemma ShiftNotChild(dir: Path, p: Path, m: Name, d: Name, n: Name)
    requires n != d
    ensures p != dir + [n] ==> Shift(p, dir + [m], dir + [d]) != dir + [n]
  {
    assert (dir + [n])[|dir|] == n && (dir + [d])[|dir|] == d;
    if Within(dir + [m], p) {
      assert Shift(p, dir + [m], dir + [d])[|dir|] == d;
    }
  }

  lemma RenameRows(a: Cat, s: Progress, s': Progress, o: Observed, t: Task, m: Name)
    requires Running(a, s, t) && o.name !in t.known && o.name !in s.seen && IsName(o.name)
    requires RenameOutcome(s, s', o, t, m) && m in s.dest && CaseSafe(s.c.items, t.dir + [m])
    ensures RenameEffect(s, s', o, t, m)
  {
    KnownRow(a, t, m);
    DirStays(a, s, t);
    RenamesAll(s, s', o, t, m);
  }

  lemma RenamesAll(s: Progress, s': Progress, o: Observed, t: Task, m: Name)
    requires Tree(s.c.items) && RenameOutcome(s, s', o, t, m) && m != o.name && m in s.dest && IsName(o.name) && IsPath(t.dir)
    requires t.known[m] in s.c.items && s.c.items[t.known[m]].path == t.dir + [m] && CaseSafe(s.c.items, t.dir + [m])
    requires (t.dir == [] || Indexed(s.c.items, t.dir)) && IdAt(s.c.items, t.dir) == t.pid && !Indexed(s.c.items, t.dir + [o.name])
    ensures RenameEffect(s, s', o, t, m)
  {
    RenameJournal(s, s', o, t, m);
    RenameTree(s, s', o, t, m);
    BelowChild(t.dir, o.name);
    RenamedRows(s.c.items, s'.c.items, t.dir, t.known[m], t.pid, m, o);
  }

  lemma RenameTree(s: Progress, s': Progress, o: Observed, t: Task, m: Name)
    requires Tree(s.c.items) && RenameOutcome(s, s', o, t, m) && m != o.name && IsName(o.name) && IsPath(t.dir)
    requires t.known[m] in s.c.items && s.c.items[t.known[m]].path == t.dir + [m] && CaseSafe(s.c.items, t.dir + [m])
    requires (t.dir == [] || Indexed(s.c.items, t.dir)) && IdAt(s.c.items, t.dir) == t.pid && !Indexed(s.c.items, t.dir + [o.name])
    ensures Tree(s'.c.items) && s'.ok == s.ok
  {
    RenameJournal(s, s', o, t, m);
    RenamedTree(s.c.items, t.dir, t.known[m], t.pid, m, o);
  }

  lemma RenameRuns(a: Cat, s: Progress, s': Progress, o: Observed, t: Task, m: Name)
    requires Running(a, s, t) && o.name !in t.known && o.name !in s.seen && o.name !in s.ids
    requires RenameEffect(s, s', o, t, m) && m !in s.seen
    ensures Running(a, s', t)
  {
    KnownRow(a, t, m);
    FreeName(a, s, t, o.name);
    RenameLogged(a, s, s', o, t, m);
    RenameUntouched(a, s, s', o, t, m);
    RelocatePlaced(a.items, s.c.items, s'.c.items, t.dir, s.dest, t.known[m], m, o.name);
  }

  lemma RenameStep(a: Cat, s: Progress, s': Progress, o: Observed, t: Task, m: Name)
    requires Running(a, s, t) && o.name !in t.known && o.name !in s.seen && o.name !in s.ids && IsName(o.name)
    requires RenameOutcome(s, s', o, t, m) && m in s.dest && CaseSafe(s.c.items, t.dir + [m])
    ensures Running(a, s', t)
  {
    RenameRows(a, s, s', o, t, m);
    RenameRuns(a, s, s', o, t, m);
  }

  /** A name nobody has taken is not the present name of any known child. */
  lemma FreeName(a: Cat, s: Progress, t: Task, n: Name)
    requires TaskOf(a, t) && Placed(a.items, s.c.items, t.dir, s.dest) && s.dest.Keys <= t.known.Keys
    requires !Indexed(s.c.items, t.dir + [n])
    ensures n !in s.dest.Values
  {
    forall m | m in s.dest ensures s.dest[m] != n {
      var i := t.known[m];
      KnownRow(a, t, m);
      assert s.c.items[i].path == Replant(t.dir, a.items[i].path, s.dest[m]) == t.dir + [s.dest[m]];
    }
  }

  // ---- all observed entries ---------------------------------------------------------------------

  predicate DistinctNames(observed: seq<Observed>) {
    && (forall k | 0 <= k < |observed| :: IsName(observed[k].name))
    && (forall j, k | 0 <= j < k < |observed| :: observed[j].name != observed[k].name)
  }

  /** What has to hold of the names still to be processed. */
  predicate Pending(s: Progress, known: set<Name>, rest: seq<Observed>) {
    && s.dest.Keys == known
    && DistinctNames(rest)
    && (forall k | 0 <= k < |rest| :: rest[k].name !in s.ids && (rest[k].name in s.seen ==> rest[k].name in known))
  }

  /** Every entry is one of three things: known, a rename of a known name, or new. */
  lemma ObserveCases(s: Progress, o: Observed, t: Task) returns (m: Option<Name>)
    ensures var s' := Observe(s, o, t);
            if o.name in t.known then t.known[o.name] in t.was ==> KnownOutcome(s, s', o, t)
            else if m.Some? then
              RenameOutcome(s, s', o, t, m.value) && m.value in t.missing && m.value != o.name
              && t.known[m.value] in t.was && SameInode(t.was[t.known[m.value]], o)
            else
              NewOutcome(s, s', o, t)
              && (o.ino != 0 ==> forall n | n in t.missing && n in t.known && t.known[n] in t.was ::
                                   n in s.seen + {o.name} || !SameInode(t.was[t.known[n]], o))
  {
    m := if o.name !in t.known && o.ino != 0 then Candidate(t, t.missing, s.seen + {o.name}, o) else None;
  }

  lemma ReadyAfter(s: Progress, s': Progress, o: Observed, t: Task, touched: set<Name>, m: Option<Name>)
    requires CaseReady(t, s.dest, touched) && EntryClean(t, touched, o)
    requires if o.name !in t.known && m.Some?
             then s'.dest == s.dest[m.value := o.name] && m.value in t.known && t.known[m.value] in t.was
                  && SameInode(t.was[t.known[m.value]], o)
             else s'.dest == s.dest
    ensures CaseReady(t, s'.dest, touched)
  {
  }

  lemma ObserveRuns(a: Cat, s: Progress, o: Observed, t: Task, touched: set<Name>)
    requires Running(a, s, t) && s.dest.Keys == t.known.Keys
    requires CaseReady(t, s.dest, touched) && EntryClean(t, touched, o)
    requires o.name !in s.ids && IsName(o.name) && (o.name in s.seen ==> o.name in t.known)
    ensures Running(a, Observe(s, o, t), t) && CaseReady(t, Observe(s, o, t).dest, touched)
  {
    var m := ObserveCases(s, o, t);
    var s' := Observe(s, o, t);
    ReadyAfter(s, s', o, t, touched, m);
    if o.name in t.known {
      KnownRow(a, t, o.name);
      KnownStep(a, s, s', o, t);
    } else if m.Some? {
      CaseSafeNow(a, s, t, touched, m.value);
      RenameStep(a, s, s', o, t, m.value);
    } else {
      NewStep(a, s, s', o, t);
    }
  }

  lemma ObserveNames(s: Progress, o: Observed, t: Task)
    ensures var s' := Observe(s, o, t);
            && s'.ids.Keys == s.ids.Keys + {o.name}
            && s.seen + {o.name} <= s'.seen
            && s'.seen - (s.seen + {o.name}) <= t.known.Keys
            && s'.dest.Keys <= s.dest.Keys + t.known.Keys
            && s.dest.Keys <= s'.dest.Keys
  {
  }

  lemma PendingNext(s: Progress, s': Progress, known: set<Name>, rest: seq<Observed>)
    requires Pending(s, known, rest) && rest != []
    requires s'.ids.Keys == s.ids.Keys + {rest[0].name}
    requires s'.seen - (s.seen + {rest[0].name}) <= known
    requires s'.dest.Keys == known
    ensures Pending(s', known, rest[1..])
  {
    forall k | 0 <= k < |rest| - 1
      ensures rest[1..][k].name !in s'.ids && (rest[1..][k].name in s'.seen ==> rest[1..][k].name in known)
    {
      assert rest[1..][k] == rest[k + 1] && rest[k + 1].name != rest[0].name;
    }
  }

  lemma ObservePending(s: Progress, t: Task, rest: seq<Observed>)
    requires Pending(s, t.known.Keys, rest) && rest != []
    ensures Pending(Observe(s, rest[0], t), t.known.Keys, rest[1..])
  {
    ObserveNames(s, rest[0], t);
    PendingNext(s, Observe(s, rest[0], t), t.known.Keys, rest);
  }

  /** Every entry of the rest may be observed. */
  ghost predicate RestClean(t: Task, touched: set<Name>, rest: seq<Observed>) {
    forall k | 0 <= k < |rest| :: EntryClean(t, touched, rest[k])
  }

  lemma RestCleanNext(t: Task, touched: set<Name>, rest: seq<Observed>)
    requires RestClean(t, touched, rest) && rest != []
    ensures EntryClean(t, touched, rest[0]) && RestClean(t, touched, rest[1..])
  {
    forall k | 0 <= k < |rest| - 1 ensures EntryClean(t, touched, rest[1..][k]) {
      assert rest[1..][k] == rest[k + 1];
    }
  }

  lemma {:induction false} ObserveAllRuns(a: Cat, s: Progress, t: Task, touched: set<Name>, rest: seq<Observed>)
    requires Running(a, s, t) && Pending(s, t.known.Keys, rest)
    requires CaseReady(t, s.dest, touched) && RestClean(t, touched, rest)
    ensures var s' := ObserveAll(s, rest, t);
            Running(a, s', t) && s'.dest.Keys == t.known.Keys && CaseReady(t, s'.dest, touched)
    decreases |rest|
  {
    if rest != [] {
      RestCleanNext(t, touched, rest);
      ObserveRuns(a, s, rest[0], t, touched);
      ObservePending(s, t, rest);
      ObserveAllRuns(a, Observe(s, rest[0], t), t, touched, rest[1..]);
    }
  }

  // ---- dropping the missing ----------------------------------------------------------------

  /** b1 is b without the rows within p. */
  predicate Without(b: Items, b1: Items, p: Path) {
    && (forall i | i in b1 :: i in b && b1[i] == b[i])
    && (forall i | i in b :: i in b1 <==> !Within(p, b[i].path))
  }

  lemma SubtreeWithout(b: Items, b1: Items, id: Id, p: Path)
    requires Tree(b) && id in b && b[id].path == p && CaseSafe(b, p)
    requires b1 == b - (Subtree(b, p) + {id})
    ensures Without(b, b1, p)
  {
    assert RowOk(b, id);
    forall i | i in b ensures i in b1 <==> !Within(p, b[i].path) {
      assert RowOk(b, i);
      WithinCases(p, b[i].path);
      BelowSelects(p, b[i].path);
    }
  }

  lemma DropPlaced(a: Items, b: Items, b1: Items, dir: Path, dest: map<Name, Name>, n: Name)
    requires Placed(a, b, dir, dest) && n in dest && dest[n] == n
    requires Without(b, b1, dir + [n])
    ensures Placed(a, b1, dir, dest - {n})
  {
    forall i | i in a && !Below(dir, a[i].path) ensures i in b1 && b1[i] == a[i] {
      NotWithinChild(dir, n, a[i].path);
    }
    forall i | i in a && Below(dir, a[i].path) && Top(dir, a[i].path) in dest
      ensures i in b1 <==> Top(dir, a[i].path) != n
    {
      ReplantWithin(dir, a[i].path, dest[Top(dir, a[i].path)], n);
    }
  }

  lemma NotWithinChild(dir: Path, n: Name, p: Path)
    requires !Below(dir, p)
    ensures !Within(dir + [n], p)
  {
    assert |dir| < |p| ==> p[..|dir| + 1][..|dir|] == p[..|dir|];
    assert (dir + [n])[..|dir|] == dir;
  }

  lemma ReplantWithin(dir: Path, p: Path, d: Name, n: Name)
    requires Below(dir, p)
    ensures Within(dir + [n], Replant(dir, p, d)) <==> d == n
  {
    var q := Replant(dir, p, d);
    assert q[..|dir| + 1] == dir + [d];
    assert (dir + [d])[|dir|] == d && (dir + [n])[|dir|] == n;
  }

  lemma DropUntouched(a: Cat, s: Progress, s': Progress, t: Task, n: Name)
    requires TaskOf(a, t) && Untouched(s, t) && n in t.known && n in s.dest
    requires s'.seen == s.seen && s'.dest == s.dest - {n}
    requires Without(s.c.items, s'.c.items, t.dir + [n])
    ensures Untouched(s', t)
  {
    forall m | m in t.known && m !in s'.seen && m in s'.dest
      ensures s'.dest[m] == m && t.known[m] in s'.c.items && s'.c.items[t.known[m]] == t.was[t.known[m]]
    {
      KnownRow(a, t, m);
      ChildrenApart(t.dir, n, m);
    }
    forall m | m !in t.known && m !in s'.seen ensures !Indexed(s'.c.items, t.dir + [m]) {
      assert !Indexed(s.c.items, t.dir + [m]);
    }
  }

  lemma DropStep(a: Cat, s: Progress, t: Task, n: Name)
    requires Running(a, s, t) && n in t.known && n !in s.seen && n in s.dest && CaseSafe(s.c.items, t.dir + [n])
    ensures Running(a, Drop(s, n, t), t)
  {
    var s' := Drop(s, n, t);
    var id := t.known[n];
    KnownRow(a, t, n);
    DeleteSubtreeStep(s.c, id, t.dir + [n], t.now);
    SubtreeWithout(s.c.items, s'.c.items, id, t.dir + [n]);
    EvolvesTrans(a, s.c, s'.c, Unlogged(a, s.ids), {});
    EvolvesMore(a, s'.c, Unlogged(a, s.ids) + {}, Unlogged(a, s'.ids));
    DropPlaced(a.items, s.c.items, s'.c.items, t.dir, s.dest, n);
    DropUntouched(a, s, s', t, n);
  }

  predicate DistinctSeq(names: seq<Name>) {
    forall j, k | 0 <= j < k < |names| :: names[j] != names[k]
  }

  predicate Droppable(dest: set<Name>, known: set<Name>, rest: seq<Name>) {
    DistinctSeq(rest) && forall k | 0 <= k < |rest| :: rest[k] in known && rest[k] in dest
  }

  lemma DroppableNext(dest: set<Name>, known: set<Name>, rest: seq<Name>, dest': set<Name>)
    requires Droppable(dest, known, rest) && rest != []
    requires dest' == dest || dest' == dest - {rest[0]}
    ensures Droppable(dest', known, rest[1..])
  {
    assert forall k | 0 <= k < |rest| - 1 :: rest[1..][k] == rest[k + 1] && rest[k + 1] != rest[0];
  }

  /** What is dropped is touched. */
  ghost predicate DropsTouched(t: Task, seen: set<Name>, touched: set<Name>) {
    forall n | n in t.known && n !in seen :: n in touched
  }

  lemma {:induction false} DropAllRuns(a: Cat, s: Progress, t: Task, touched: set<Name>, rest: seq<Name>)
    requires Running(a, s, t) && Droppable(s.dest.Keys, t.known.Keys, rest)
    requires CaseReady(t, s.dest, touched) && DropsTouched(t, s.seen, touched)
    ensures Running(a, DropAll(s, rest, t), t)
    decreases |rest|
  {
    if rest != [] {
      if rest[0] !in s.seen {
        CaseSafeNow(a, s, t, touched, rest[0]);
        DropStep(a, s, t, rest[0]);
      }
      DroppableNext(s.dest.Keys, t.known.Keys, rest, Drop(s, rest[0], t).dest.Keys);
      DropAllRuns(a, Drop(s, rest[0], t), t, touched, rest[1..]);
    }
  }

  lemma {:induction false} DropAllNames(s: Progress, t: Task, rest: seq<Name>)
    requires forall k | 0 <= k < |rest| :: rest[k] in t.known
    ensures var s' := DropAll(s, rest, t);
            && s'.seen == s.seen && s'.ids == s.ids && s'.ok == s.ok
            && s'.dest == s.dest - (SetOf(rest) - s.seen)
    decreases |rest|
  {
    if rest == [] {
      assert s.dest - (SetOf(rest) - s.seen) == s.dest;
    } else {
      var n := rest[0];
      assert rest == [n] + rest[1..];
      DropAllNames(Drop(s, n, t), t, rest[1..]);
      var gone := SetOf(rest[1..]) - s.seen;
      assert SetOf(rest) - s.seen == if n in s.seen then gone else {n} + gone;
      assert s.dest - {n} - gone == s.dest - ({n} + gone);
    }
  }

  function SetOf<T(==)>(s: seq<T>): set<T> {
    set x | x in s
  }

  // ---- the whole transaction -------------------------------------------------------------------

  /** The order in which the missing names are gone through: any listing of the known ones. */
  ghost predicate ListsKnown(missing: seq<Name>, known: map<Name, Id>) {
    DistinctSeq(missing) && SetOf(missing) == known.Keys
  }

  ghost function Observing(c: Cat, dir: Path, observed: seq<Observed>, missing: seq<Name>, now: int): Progress
    requires dir == [] || Indexed(c.items, dir)
  {
    var t := TaskFor(c, dir, missing, now);
    ObserveAll(Start(c, t.known), observed, t)
  }

  lemma ObservingRuns(a: Cat, dir: Path, observed: seq<Observed>, missing: seq<Name>, now: int)
    requires Valid(a) && IsPath(dir) && (dir == [] || Indexed(a.items, dir)) && DistinctNames(observed)
    requires CaseClean(a.items, dir, observed)
    ensures var t, s := TaskFor(a, dir, missing, now), Observing(a, dir, observed, missing, now);
            TaskOf(a, t) && Running(a, s, t) && s.dest.Keys == t.known.Keys
            && CaseReady(t, s.dest, Touched(t.known, t.was, observed))
  {
    var t := TaskFor(a, dir, missing, now);
    StartRunning(a, t);
    CaseCleanStarts(a, t, observed);
    ObserveAllRuns(a, Start(a, t.known), t, Touched(t.known, t.was, observed), observed);
  }

  /** What the loop has not seen was not observed. */
  lemma {:induction false} ObservedIsSeen(s: Progress, t: Task, rest: seq<Observed>, n: Name)
    requires n in s.seen || n in Names(rest)
    ensures n in ObserveAll(s, rest, t).seen
    decreases |rest|
  {
    if rest != [] {
      assert rest == [rest[0]] + rest[1..];
      ObserveNames(s, rest[0], t);
      ObservedIsSeen(Observe(s, rest[0], t), t, rest[1..], n);
    } else {
      assert Names(rest) == {};
    }
  }

  lemma UnseenIsTouched(s: Progress, t: Task, all: seq<Observed>)
    ensures DropsTouched(t, ObserveAll(s, all, t).seen, Touched(t.known, t.was, all))
  {
    forall n | n in t.known && n !in ObserveAll(s, all, t).seen ensures n in Touched(t.known, t.was, all) {
      if n in Names(all) {
        ObservedIsSeen(s, t, all, n);
      }
    }
  }

  /** Whatever candidates are chosen, the final state is a tree, journaled, and every row is
      either untouched, moved along with its top ancestor, deleted or new. */
  lemma ReconciledRuns(a: Cat, dir: Path, observed: seq<Observed>, missing: seq<Name>, now: int)
    requires Valid(a) && IsPath(dir) && (dir == [] || Indexed(a.items, dir)) && DistinctNames(observed)
    requires ListsKnown(missing, Known(a.items, IdAt(a.items, dir))) && CaseClean(a.items, dir, observed)
    ensures var t, s, s1 := TaskFor(a, dir, missing, now), Reconciled(a, dir, observed, missing, now), Observing(a, dir, observed, missing, now);
            && TaskOf(a, t) && Running(a, s, t)
            && s.seen == s1.seen && s.ids == s1.ids
            && s.dest == s1.dest - (t.known.Keys - s1.seen)
  {
    var t := TaskFor(a, dir, missing, now);
    var s1 := Observing(a, dir, observed, missing, now);
    ObservingRuns(a, dir, observed, missing, now);
    forall k | 0 <= k < |missing| ensures missing[k] in t.known && missing[k] in s1.dest {
      assert missing[k] in SetOf(missing);
    }
    assert Running(a, Reconciled(a, dir, observed, missing, now), t) by {
      UnseenIsTouched(Start(a, t.known), t, observed);
      DropAllRuns(a, s1, t, Touched(t.known, t.was, observed), missing);
    }
    DropAllNames(s1, t, missing);
  }

  /** The ids a Reconcile writes without a journal entry. */
  ghost function ReconcileUnlogged(c: Cat, c1: Cat, ids: map<Name, Id>): set<Id> {
    Placeholders(c, c1) + Unlogged(c, ids)
  }

  lemma ReconcileStep(c: Cat, dir: Path, observed: seq<Observed>, missing: seq<Name>, now: int)
    requires Valid(c) && IsPath(dir) && DistinctNames(observed)
    requires ListsKnown(missing, Known(Entered(c, dir).items, IdAt(Entered(c, dir).items, dir)))
    requires CaseClean(Entered(c, dir).items, dir, observed)
    ensures var (c1, ids) := Reconcile(c, dir, observed, missing, now);
            var s := Reconciled(Entered(c, dir), dir, observed, missing, now);
            && s.ok && (c1, ids) == (s.c, s.ids)
            && Valid(c1) && Evolves(c, c1, ReconcileUnlogged(c, Entered(c, dir), ids))
  {
    var a := Entered(c, dir);
    var (c1, ids) := Reconcile(c, dir, observed, missing, now);
    EnteredStep(c, dir);
    ReconciledRuns(a, dir, observed, missing, now);
    EvolvesTrans(c, a, c1, Placeholders(c, a), Unlogged(a, ids));
  }

  lemma EnteredStep(c: Cat, dir: Path)
    requires Valid(c) && IsPath(dir)
    ensures var a := Entered(c, dir);
            Valid(a) && Evolves(c, a, Placeholders(c, a)) && OnlyPlaceholders(c, a, dir)
    ensures Entered(c, dir) == EnsurePath(c, dir)
  {
    EnsurePathStep(c, dir);
    if dir == [] || Indexed(c.items, dir) {
      EnsureIndexed(c, dir);
    }
  }
}
