/** What a client of Reconcile can rely on. */
module ReconcileTheorems {
  import opened Paths
  import opened Catalogue
  import opened History
  import opened Reconciling
  import opened Agreement

  ghost function KnownIn(a: Items, dir: Path): map<Name, Id>
    requires dir == [] || Indexed(a, dir)
  {
    Known(a, IdAt(a, dir))
  }

  /** Rows not below dir are untouched, and none appear there. */
  ghost predicate Outside(a: Items, b: Items, dir: Path) {
    && (forall i | i in a && !Below(dir, a[i].path) :: i in b && b[i] == a[i])
    && (forall i | i in b && i !in a :: Below(dir, b[i].path) && |b[i].path| == |dir| + 1)
    && (forall i | i in b && i in a && Below(dir, a[i].path) :: Below(dir, b[i].path))
  }

  /** An entry keeps the id of its name; a new name gets the id of a vanished child with the
      same inode and kind, or a fresh one. */
  ghost predicate Identity(a: Items, dir: Path, known: map<Name, Id>, ids: map<Name, Id>, all: seq<Observed>) {
    && (forall n, m | n in ids && m in ids && ids[n] == ids[m] :: n == m)
    && (forall j | 0 <= j < |all| && all[j].name in ids ::
          var id := ids[all[j].name];
          if all[j].name in known then id == known[all[j].name]
          else id !in a || exists m :: m in known && m !in Names(all) && known[m] == id && SameInode(a[id], all[j]))
  }

  /** A new entry gets the id of a vanished child with its inode and kind, unless another new entry
      has these as well. */
  ghost predicate Kept(a: Items, known: map<Name, Id>, ids: map<Name, Id>, all: seq<Observed>) {
    forall j, m | 0 <= j < |all| && all[j].name !in known && all[j].name in ids && Vanished(a, known, all, m)
                  && SameInode(a[known[m]], all[j]) && Sole(known, a[known[m]], all, j) ::
      ids[all[j].name] in a
  }

  ghost predicate Vanished(a: Items, known: map<Name, Id>, all: seq<Observed>, m: Name) {
    m in known && m !in Names(all) && known[m] in a
  }

  /** No new entry but j has the inode and kind of the row. */
  predicate Sole(known: map<Name, Id>, r: Row, all: seq<Observed>, j: nat) {
    forall i | 0 <= i < |all| && i != j && all[i].name !in known :: !SameInode(r, all[i])
  }

  /** What lies below a child goes where the child goes: with it to its present name, or away. */
  ghost predicate SubtreesFollow(a: Items, b: Items, dir: Path, known: map<Name, Id>, ids: map<Name, Id>) {
    forall i | i in a && Below(dir, a[i].path) && Top(dir, a[i].path) in known ::
      var child := known[Top(dir, a[i].path)];
      && (child !in ids.Values ==> i !in b)
      && (forall n | n in ids && ids[n] == child ::
            i in b && b[i].path == Replant(dir, a[i].path, n)
            && (|a[i].path| > |dir| + 1 ==> b[i] == a[i].(path := b[i].path)))
  }

  ghost predicate Outcome(a: Items, b: Items, dir: Path, ids: map<Name, Id>, all: seq<Observed>)
    requires dir == [] || Indexed(a, dir)
  {
    && Agrees(b, ids, dir, all)
    && Inodes(a, b, ids, all)
    && Outside(a, b, dir)
    && Identity(a, dir, KnownIn(a, dir), ids, all)
    && Kept(a, KnownIn(a, dir), ids, all)
    && SubtreesFollow(a, b, dir, KnownIn(a, dir), ids)
  }

  lemma PlacedOutside(a: Cat, s: Progress, t: Task)
    requires Running(a, s, t)
    ensures Outside(a.items, s.c.items, t.dir)
  {
    forall i | i in s.c.items && i in a.items && Below(t.dir, a.items[i].path) ensures Below(t.dir, s.c.items[i].path) {
      assert Replant(t.dir, a.items[i].path, s.dest[Top(t.dir, a.items[i].path)])[..|t.dir|] == t.dir;
    }
  }

  lemma IdsInjective(s: Progress, t: Task, all: seq<Observed>)
    requires Agrees(s.c.items, s.ids, t.dir, all)
    ensures forall n, m | n in s.ids && m in s.ids && s.ids[n] == s.ids[m] :: n == m
  {
    forall n, m | n in s.ids && m in s.ids && s.ids[n] == s.ids[m] ensures n == m {
      var j := NameAt(all, n);
      var k := NameAt(all, m);
      BelowChild(t.dir, n);
      BelowChild(t.dir, m);
    }
  }

  lemma KnownListed(s1: Progress, t: Task, all: seq<Observed>, m: Name)
    requires Agreed(s1, t, all, |all|) && m in t.known
    ensures m in Names(all) ==> m in s1.ids && s1.ids[m] == t.known[m]
  {
    if m in Names(all) {
      var k := NameAt(all, m);
      assert EntryOk(s1, t, all[k]);
    }
  }

  lemma OriginGone(a: Cat, s1: Progress, t: Task, all: seq<Observed>, j: nat)
    requires TaskOf(a, t) && j < |all| && Agreed(s1, t, all, |all|)
    requires forall n, m | n in s1.ids && m in s1.ids && s1.ids[n] == s1.ids[m] :: n == m
    ensures all[j].name in s1.ids
    ensures var id := s1.ids[all[j].name];
            if all[j].name in t.known then id == t.known[all[j].name]
            else id !in a.items || exists m :: m in t.known && m !in Names(all) && t.known[m] == id && SameInode(a.items[id], all[j])
  {
    assert EntryOk(s1, t, all[j]);
    var n, id := all[j].name, s1.ids[all[j].name];
    if n !in t.known && id in a.items {
      var m :| m in t.known && id == t.known[m] && SameInode(t.was[id], all[j]);
      KnownListed(s1, t, all, m);
    }
  }

  lemma FollowsDest(a: Cat, s1: Progress, s: Progress, t: Task, all: seq<Observed>)
    requires Running(a, s, t) && Agreed(s1, t, all, |all|)
    requires s.ids == s1.ids && s.dest == s1.dest - (t.known.Keys - s1.seen)
    requires forall n, m | n in s.ids && m in s.ids && s.ids[n] == s.ids[m] :: n == m
    requires forall n | n in s.ids :: s.ids[n] in s.c.items
    ensures SubtreesFollow(a.items, s.c.items, t.dir, t.known, s.ids)
  {
    forall i | i in a.items && Below(t.dir, a.items[i].path) && Top(t.dir, a.items[i].path) in t.known
      ensures var child := t.known[Top(t.dir, a.items[i].path)];
              && (child !in s.ids.Values ==> i !in s.c.items)
              && (forall n | n in s.ids && s.ids[n] == child ::
                    i in s.c.items && s.c.items[i].path == Replant(t.dir, a.items[i].path, n)
                    && (|a.items[i].path| > |t.dir| + 1 ==> s.c.items[i] == a.items[i].(path := s.c.items[i].path)))
    {
      var m := Top(t.dir, a.items[i].path);
      var child := t.known[m];
      KnownRow(a, t, m);
      if m in s.dest {
        assert s.dest[m] in s.ids && s.ids[s.dest[m]] == child;
      }
    }
  }

  /** Reconcile agrees with the observation and keeps identities, whichever candidates are
      chosen and in whatever order, if no new name shares its inode with a name observed later. */
  lemma ReconcileOutcome(a: Cat, dir: Path, all: seq<Observed>, missing: seq<Name>, now: int)
    requires Valid(a) && IsPath(dir) && (dir == [] || Indexed(a.items, dir)) && DistinctNames(all)
    requires ListsKnown(missing, KnownIn(a.items, dir))
    requires NoLateTwin(KnownIn(a.items, dir), a.items, all) && CaseClean(a.items, dir, all)
    ensures var s := Reconciled(a, dir, all, missing, now);
            s.ok && Valid(s.c) && Outcome(a.items, s.c.items, dir, s.ids, all)
  {
    var t := TaskFor(a, dir, missing, now);
    var s1, s := Observing(a, dir, all, missing, now), Reconciled(a, dir, all, missing, now);
    ReconciledRuns(a, dir, all, missing, now);
    ReconciledAgrees(a, dir, all, missing, now);
    PlacedOutside(a, s, t);
    IdsInjective(s, t, all);
    forall j | 0 <= j < |all|
      ensures var id := s.ids[all[j].name];
              if all[j].name in t.known then id == t.known[all[j].name]
              else id !in a.items || exists m :: m in t.known && m !in Names(all) && t.known[m] == id && SameInode(a.items[id], all[j])
    {
      OriginGone(a, s1, t, all, j);
    }
    forall n | n in s.ids ensures s.ids[n] in s.c.items {
      var j := NameAt(all, n);
    }
    FollowsDest(a, s1, s, t, all);
    KeepsIds(a, s1, t, all);
  }

  lemma KeepsIds(a: Cat, s1: Progress, t: Task, all: seq<Observed>)
    requires TaskOf(a, t) && FreshOnlyIfUnclaimed(t.known, t.was, s1.ids, all, |all|)
    ensures Kept(a.items, t.known, s1.ids, all)
  {
    forall j, m | 0 <= j < |all| && all[j].name !in t.known && all[j].name in s1.ids && Vanished(a.items, t.known, all, m)
                  && SameInode(a.items[t.known[m]], all[j]) && Sole(t.known, a.items[t.known[m]], all, j)
      ensures s1.ids[all[j].name] in a.items
    {
      assert s1.ids[all[j].name] !in t.was ==> Unclaimed(t.known, t.was, all, j);
    }
  }

  /** A new entry has an id of before if and only if a vanished child has its inode and kind, for
      every candidate order, if no two new entries share these with one vanished child; and it
      is the id of that child if there is only one. */
  lemma RenameKeepsId(a: Cat, dir: Path, all: seq<Observed>, missing: seq<Name>, now: int, j: nat)
    requires Valid(a) && IsPath(dir) && (dir == [] || Indexed(a.items, dir)) && DistinctNames(all)
    requires ListsKnown(missing, KnownIn(a.items, dir)) && NoLateTwin(KnownIn(a.items, dir), a.items, all)
    requires CaseClean(a.items, dir, all)
    requires j < |all| && all[j].name !in KnownIn(a.items, dir)
    requires forall m | Vanished(a.items, KnownIn(a.items, dir), all, m) && SameInode(a.items[KnownIn(a.items, dir)[m]], all[j]) ::
               Sole(KnownIn(a.items, dir), a.items[KnownIn(a.items, dir)[m]], all, j)
    ensures var known, ids := KnownIn(a.items, dir), Reconciled(a, dir, all, missing, now).ids;
            && all[j].name in ids
            && (ids[all[j].name] in a.items <==>
                  exists m :: Vanished(a.items, known, all, m) && SameInode(a.items[known[m]], all[j]))
            && forall m | Vanished(a.items, known, all, m) && SameInode(a.items[known[m]], all[j])
                          && (forall m' | Vanished(a.items, known, all, m') && SameInode(a.items[known[m']], all[j]) :: m' == m) ::
                 ids[all[j].name] == known[m]
  {
    var known, s := KnownIn(a.items, dir), Reconciled(a, dir, all, missing, now);
    ReconcileOutcome(a, dir, all, missing, now);
    var id := s.ids[all[j].name];
    if id in a.items {
      var m :| m in known && m !in Names(all) && known[m] == id && SameInode(a.items[id], all[j]);
      assert Vanished(a.items, known, all, m);
    }
  }

  // ---- the second call ---------------------------------------------------------------------

  /** Observing what is already there. */
  lemma {:induction false} ObserveIdle(a: Cat, s: Progress, t: Task, rest: seq<Observed>)
    requires TaskOf(a, t)
    requires forall k | 0 <= k < |rest| :: Idle(t, rest[k])
    ensures var s' := ObserveAll(s, rest, t);
            s'.c == s.c && s'.dest == s.dest && s'.seen == s.seen + Names(rest)
    decreases |rest|
  {
    if rest == [] {
      assert Names(rest) == {};
    } else {
      assert Idle(t, rest[0]);
      ObserveIdle(a, Observe(s, rest[0], t), t, rest[1..]);
      NamesCons(rest);
    }
  }

  /** The entry has a row that does not differ. */
  ghost predicate Idle(t: Task, o: Observed) {
    o.name in t.known && t.known[o.name] in t.was && !Differs(t.was[t.known[o.name]], o)
  }

  lemma NamesCons(rest: seq<Observed>)
    requires rest != []
    ensures Names(rest) == {rest[0].name} + Names(rest[1..])
  {
    assert rest == [rest[0]] + rest[1..];
  }

  lemma {:induction false} DropIdle(s: Progress, t: Task, rest: seq<Name>)
    requires forall k | 0 <= k < |rest| :: rest[k] in s.seen
    ensures DropAll(s, rest, t) == s
    decreases |rest|
  {
    if rest != [] {
      DropIdle(s, t, rest[1..]);
    }
  }

  lemma AgreeingEntry(a: Cat, t: Task, ids: map<Name, Id>, all: seq<Observed>, k: nat)
    requires TaskOf(a, t) && Agrees(a.items, ids, t.dir, all) && k < |all|
    ensures all[k].name in t.known && !Differs(a.items[t.known[all[k].name]], all[k])
  {
    BelowChild(t.dir, all[k].name);
    KnownIffIndexed(a, t, all[k].name);
    KnownRow(a, t, all[k].name);
  }

  /** Once the catalogue agrees, reconciling with the same observation writes nothing at all. */
  lemma ReconcileIdle(a: Cat, ids: map<Name, Id>, dir: Path, all: seq<Observed>, missing: seq<Name>, now: int)
    requires Valid(a) && IsPath(dir) && (dir == [] || Indexed(a.items, dir))
    requires Agrees(a.items, ids, dir, all)
    requires ListsKnown(missing, KnownIn(a.items, dir))
    ensures Reconcile(a, dir, all, missing, now).0 == a
  {
    var t := TaskFor(a, dir, missing, now);
    forall k | 0 <= k < |all|
      ensures Idle(t, all[k])
    {
      AgreeingEntry(a, t, ids, all, k);
      KnownRow(a, t, all[k].name);
    }
    var s := ObserveAll(Start(a, t.known), all, t);
    assert s.c == a && s.seen == Names(all) by {
      ObserveIdle(a, Start(a, t.known), t, all);
    }
    forall k | 0 <= k < |missing| ensures missing[k] in s.seen {
      assert missing[k] in SetOf(missing);
      KnownRow(a, t, missing[k]);
    }
    DropIdle(s, t, missing);
  }

  // ---- the condition is exact ----------------------------------------------------------------

  /** A consumed name stays consumed. */
  lemma {:induction false} ConsumedStays(s: Progress, t: Task, rest: seq<Observed>, n: Name)
    requires n in s.seen && n in s.dest
    ensures var s' := ObserveAll(s, rest, t);
            n in s'.seen && n in s'.dest && s'.dest[n] == s.dest[n]
    decreases |rest|
  {
    if rest != [] {
      var m := ObserveCases(s, rest[0], t);
      ConsumedStays(Observe(s, rest[0], t), t, rest[1..], n);
    }
  }

  /** The id recorded for a known name is the known one. */
  lemma {:induction false} KnownIdStays(s: Progress, t: Task, rest: seq<Observed>, n: Name)
    requires n in t.known
    requires (n in s.ids && s.ids[n] == t.known[n]) || exists k :: 0 <= k < |rest| && rest[k].name == n
    ensures var s' := ObserveAll(s, rest, t);
            n in s'.ids && s'.ids[n] == t.known[n]
    decreases |rest|
  {
    if rest != [] {
      var s' := Observe(s, rest[0], t);
      if !(n in s'.ids && s'.ids[n] == t.known[n]) {
        var k :| 0 <= k < |rest| && rest[k].name == n;
        assert rest[1..][k - 1].name == n;
      }
      KnownIdStays(s', t, rest[1..], n);
    }
  }

  /** Entries before position j do not take the name n for renamed. */
  lemma {:induction false} NotTaken(s: Progress, t: Task, rest: seq<Observed>, n: Name)
    requires n in t.known && t.known[n] in t.was && n !in s.seen && n in s.dest
    requires forall k | 0 <= k < |rest| :: rest[k].name != n && (rest[k].name in t.known || !SameInode(t.was[t.known[n]], rest[k]))
    ensures var s' := ObserveAll(s, rest, t);
            n !in s'.seen && n in s'.dest
    decreases |rest|
  {
    if rest != [] {
      var m := ObserveCases(s, rest[0], t);
      NotTaken(Observe(s, rest[0], t), t, rest[1..], n);
    }
  }

  lemma {:induction false} ObserveSplit(s: Progress, t: Task, first: seq<Observed>, second: seq<Observed>)
    ensures ObserveAll(s, first + second, t) == ObserveAll(ObserveAll(s, first, t), second, t)
    decreases |first|
  {
    if first == [] {
      assert first + second == second;
    } else {
      assert (first + second)[1..] == first[1..] + second;
      ObserveSplit(Observe(s, first[0], t), t, first[1..], second);
    }
  }

  /** If n stands first among the missing, the first twin of n takes it. */
  lemma TwinTakes(s: Progress, t: Task, o: Observed, n: Name)
    requires n in t.known && t.known[n] in t.was && n !in s.seen && n != o.name
    requires o.name !in t.known && SameInode(t.was[t.known[n]], o)
    requires t.missing != [] && t.missing[0] == n
    ensures var s' := Observe(s, o, t); n in s'.seen && n in s'.dest && s'.dest[n] == o.name
  {
  }

  /** n first, the other known names after it. */
  lemma ListingFrom(known: map<Name, Id>, n: Name) returns (missing: seq<Name>)
    requires n in known
    ensures ListsKnown(missing, known) && missing != [] && missing[0] == n
  {
    var rest := ListingOf(known.Keys - {n});
    missing := [n] + rest;
    assert SetOf(missing) == {n} + SetOf(rest);
    forall k | 0 <= k < |rest| ensures rest[k] != n {
      assert rest[k] in SetOf(rest);
    }
  }

  lemma {:induction false} ListingOf(s: set<Name>) returns (names: seq<Name>)
    ensures DistinctSeq(names) && SetOf(names) == s
    decreases |s|
  {
    if s == {} {
      names := [];
    } else {
      var n :| n in s;
      var rest := ListingOf(s - {n});
      names := [n] + rest;
      assert SetOf(names) == {n} + SetOf(rest);
      forall k | 0 <= k < |rest| ensures rest[k] != n {
        assert rest[k] in SetOf(rest);
      }
    }
  }

  ghost predicate Twin(known: map<Name, Id>, was: Items, all: seq<Observed>, j: nat, k: nat) {
    && j < k < |all| && all[j].name !in known && all[k].name in known && known[all[k].name] in was
    && SameInode(was[known[all[k].name]], all[j])
  }

  /** The earliest entry that has a later twin. */
  lemma {:induction false} FirstTwin(known: map<Name, Id>, was: Items, all: seq<Observed>, j: nat, k: nat) returns (j1: nat, k1: nat)
    requires Twin(known, was, all, j, k)
    ensures Twin(known, was, all, j1, k1)
    ensures forall i | 0 <= i < j1 :: !Twin(known, was, all, i, k1)
    decreases j
  {
    if i :| 0 <= i < j && Twin(known, was, all, i, k) {
      j1, k1 := FirstTwin(known, was, all, i, k);
    } else {
      j1, k1 := j, k;
    }
  }

  /** The first twin of n takes it, and it stays taken. */
  lemma TwinConsumed(a: Cat, t: Task, all: seq<Observed>, j: nat, k: nat)
    requires TaskOf(a, t) && DistinctNames(all) && Twin(t.known, t.was, all, j, k)
    requires forall i | 0 <= i < j :: !Twin(t.known, t.was, all, i, k)
    requires t.missing != [] && t.missing[0] == all[k].name
    ensures var s, n := ObserveAll(Start(a, t.known), all, t), all[k].name;
            n in s.seen && n in s.dest && s.dest[n] == all[j].name && n in s.ids && s.ids[n] == t.known[n]
  {
    var n, s0 := all[k].name, Start(a, t.known);
    var first, rest := all[..j], all[j + 1..];
    forall i | 0 <= i < j ensures first[i].name != n && (first[i].name in t.known || !SameInode(t.was[t.known[n]], first[i])) {
      assert !Twin(t.known, t.was, all, i, k);
    }
    NotTaken(s0, t, first, n);
    var s1 := ObserveAll(s0, first, t);
    TwinTakes(s1, t, all[j], n);
    var s2 := Observe(s1, all[j], t);
    assert rest[k - j - 1].name == n;
    ConsumedStays(s2, t, rest, n);
    KnownIdStays(s2, t, rest, n);
    SplitAt(s0, t, all, j);
  }

  lemma SplitAt(s0: Progress, t: Task, all: seq<Observed>, j: nat)
    requires j < |all|
    ensures ObserveAll(s0, all, t) == ObserveAll(Observe(ObserveAll(s0, all[..j], t), all[j], t), all[j + 1..], t)
  {
    var tail := [all[j]] + all[j + 1..];
    assert all == all[..j] + tail;
    assert tail[1..] == all[j + 1..];
    ObserveSplit(s0, t, all[..j], tail);
  }

  /** With a twin further down, there is an order in which the known entry loses its row to
      the new name, so the catalogue does not show it. */
  lemma TwinBreaks(a: Cat, dir: Path, all: seq<Observed>, now: int, j0: nat, k0: nat) returns (missing: seq<Name>)
    requires Valid(a) && IsPath(dir) && (dir == [] || Indexed(a.items, dir)) && DistinctNames(all)
    requires CaseClean(a.items, dir, all)
    requires Twin(KnownIn(a.items, dir), a.items, all, j0, k0)
    ensures ListsKnown(missing, KnownIn(a.items, dir))
    ensures var s := Reconciled(a, dir, all, missing, now); !Agrees(s.c.items, s.ids, dir, all)
  {
    var known := KnownIn(a.items, dir);
    var j, k := FirstTwin(known, a.items, all, j0, k0);
    missing := ListingFrom(known, all[k].name);
    var t := TaskFor(a, dir, missing, now);
    TwinConsumed(a, t, all, j, k);
    ReconciledRuns(a, dir, all, missing, now);
    TwinLost(a, t, Reconciled(a, dir, all, missing, now), all, k, all[j].name);
  }

  lemma TwinLost(a: Cat, t: Task, s: Progress, all: seq<Observed>, k: nat, d: Name)
    requires Running(a, s, t) && k < |all|
    requires var n := all[k].name; n in t.known && n in s.dest && s.dest[n] == d && d != n && n in s.ids && s.ids[n] == t.known[n]
    ensures !Agrees(s.c.items, s.ids, t.dir, all)
  {
    var n := all[k].name;
    KnownRow(a, t, n);
    BelowChild(t.dir, n);
    BelowChild(t.dir, d);
    assert s.c.items[t.known[n]].path == Replant(t.dir, a.items[t.known[n]].path, d) == t.dir + [d];
    assert !Shows(s.c.items[s.ids[n]], t.dir, all[k]);
  }

  /** Reconcile agrees with the observation in every order of the missing names if and only
      if no new name shares its inode and kind with a known name observed after it. */
  lemma AgreementIsExact(a: Cat, dir: Path, all: seq<Observed>, now: int)
    requires Valid(a) && IsPath(dir) && (dir == [] || Indexed(a.items, dir)) && DistinctNames(all)
    requires CaseClean(a.items, dir, all)
    ensures (forall missing | ListsKnown(missing, KnownIn(a.items, dir)) ::
               var s := Reconciled(a, dir, all, missing, now); Agrees(s.c.items, s.ids, dir, all))
            <==> NoLateTwin(KnownIn(a.items, dir), a.items, all)
  {
    var known := KnownIn(a.items, dir);
    if NoLateTwin(known, a.items, all) {
      forall missing | ListsKnown(missing, known)
        ensures var s := Reconciled(a, dir, all, missing, now); Agrees(s.c.items, s.ids, dir, all)
      {
        ReconciledAgrees(a, dir, all, missing, now);
      }
    } else {
      var j, k :| 0 <= j < k < |all| && all[j].name !in known && all[k].name in known && known[all[k].name] in a.items
                  && SameInode(a.items[known[all[k].name]], all[j]);
      var missing := TwinBreaks(a, dir, all, now, j, k);
    }
  }
}
