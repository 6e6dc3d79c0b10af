/** When the deletions of a Reconcile take exactly what vanished. */
module Drops {
  import opened Paths
  import opened SqlLike
  import opened Catalogue
  import opened TreeInvariant
  import opened History
  import opened Reconciling
  import opened ReconcileTheorems

  /** p is below dir, under a name that was not observed. */
  ghost predicate UnderVanished(dir: Path, all: seq<Observed>, p: Path) {
    Below(dir, p) && Top(dir, p) !in Names(all)
  }

  /** Of the old rows exactly those go that are under a vanished name. */
  ghost predicate OnlyVanishedGo(a: Items, b: Items, dir: Path, all: seq<Observed>) {
    forall i | i in a :: i in b <==> !UnderVanished(dir, all, a[i].path)
  }

  /** What the LIKE selects for a vanished name is under a vanished name too. */
  ghost predicate VanishedSelectVanished(a: Items, dir: Path, all: seq<Observed>)
    requires dir == [] || Indexed(a, dir)
  {
    forall m, i | m in KnownIn(a, dir) && m !in Names(all) && i in a && Selects(dir + [m], a[i].path) ::
      UnderVanished(dir, all, a[i].path)
  }

  ghost predicate SamePaths(a: Items, b: Items) {
    a.Keys == b.Keys && forall i | i in a :: a[i].path == b[i].path
  }

  lemma {:induction false} KnownOnly(s: Progress, rest: seq<Observed>, t: Task)
    requires forall k | 0 <= k < |rest| :: rest[k].name in t.known
    ensures var s' := ObserveAll(s, rest, t); SamePaths(s.c.items, s'.c.items) && s'.seen == s.seen + Names(rest)
    decreases |rest|
  {
    if rest != [] {
      var s1 := Observe(s, rest[0], t);
      assert SamePaths(s.c.items, s1.c.items);
      KnownOnly(s1, rest[1..], t);
      assert rest == [rest[0]] + rest[1..];
      assert Names(rest) == {rest[0].name} + Names(rest[1..]);
    } else {
      assert Names(rest) == {};
    }
  }

  /** The row is that of the name n, or selected for it. */
  predicate GoesWith(t: Task, n: Name, i: Id, p: Path) {
    n in t.known && (i == t.known[n] || Selects(t.dir + [n], p))
  }

  ghost predicate GoesWithOne(t: Task, rest: seq<Name>, seen: set<Name>, i: Id, p: Path) {
    exists k :: 0 <= k < |rest| && rest[k] !in seen && GoesWith(t, rest[k], i, p)
  }

  ghost predicate KnownPaths(items: Items, t: Task) {
    forall n | n in t.known && t.known[n] in items :: items[t.known[n]].path == t.dir + [n]
  }

  lemma GoesWithCons(t: Task, rest: seq<Name>, seen: set<Name>, i: Id, p: Path)
    requires rest != []
    ensures GoesWithOne(t, rest, seen, i, p)
            <==> (rest[0] !in seen && GoesWith(t, rest[0], i, p)) || GoesWithOne(t, rest[1..], seen, i, p)
  {
    if GoesWithOne(t, rest, seen, i, p) {
      var k :| 0 <= k < |rest| && rest[k] !in seen && GoesWith(t, rest[k], i, p);
      assert k > 0 ==> rest[1..][k - 1] == rest[k];
    }
    if GoesWithOne(t, rest[1..], seen, i, p) {
      var k :| 0 <= k < |rest[1..]| && rest[1..][k] !in seen && GoesWith(t, rest[1..][k], i, p);
      assert rest[k + 1] == rest[1..][k];
    }
  }

  lemma DropOne(s: Progress, n: Name, t: Task)
    requires KnownPaths(s.c.items, t)
    ensures var b := Drop(s, n, t).c.items;
            && (forall i | i in b :: i in s.c.items && b[i] == s.c.items[i])
            && (forall i | i in s.c.items :: i in b <==> !(n !in s.seen && GoesWith(t, n, i, s.c.items[i].path)))
  {
    if n !in s.seen && n in t.known {
      DeleteSubtreeIs(s.c, t.known[n], t.dir + [n], t.now);
    }
  }

  lemma {:induction false} DropEach(s: Progress, rest: seq<Name>, t: Task)
    requires KnownPaths(s.c.items, t)
    ensures var b := DropAll(s, rest, t).c.items;
            forall i | i in s.c.items :: i in b <==> !GoesWithOne(t, rest, s.seen, i, s.c.items[i].path)
    ensures forall i | i in DropAll(s, rest, t).c.items :: i in s.c.items
    decreases |rest|
  {
    if rest != [] {
      var s1 := Drop(s, rest[0], t);
      DropOne(s, rest[0], t);
      DropEach(s1, rest[1..], t);
      forall i | i in s.c.items
        ensures GoesWithOne(t, rest, s.seen, i, s.c.items[i].path)
                <==> (rest[0] !in s.seen && GoesWith(t, rest[0], i, s.c.items[i].path))
                     || GoesWithOne(t, rest[1..], s.seen, i, s.c.items[i].path)
      {
        GoesWithCons(t, rest, s.seen, i, s.c.items[i].path);
      }
    }
  }

  /** What goes, name by name. */
  lemma Gone(a: Cat, dir: Path, all: seq<Observed>, missing: seq<Name>, now: int, i: Id)
    requires Valid(a) && IsPath(dir) && (dir == [] || Indexed(a.items, dir)) && ListsKnown(missing, KnownIn(a.items, dir))
    requires forall k | 0 <= k < |all| :: all[k].name in KnownIn(a.items, dir)
    requires i in a.items
    ensures var t := TaskFor(a, dir, missing, now);
            i in Reconciled(a, dir, all, missing, now).c.items
            <==> !exists m :: m in t.known && m !in Names(all) && GoesWith(t, m, i, a.items[i].path)
  {
    var t := TaskFor(a, dir, missing, now);
    var s := Start(a, t.known);
    var s1 := ObserveAll(s, all, t);
    KnownOnly(s, all, t);
    forall n | n in t.known ensures a.items[t.known[n]].path == dir + [n] {
      KnownRow(a, t, n);
    }
    DropEach(s1, missing, t);
    var p := a.items[i].path;
    forall m | m in t.known && m !in Names(all) && GoesWith(t, m, i, p) ensures GoesWithOne(t, missing, s1.seen, i, p) {
      assert m in SetOf(missing);
      var k :| 0 <= k < |missing| && missing[k] == m;
    }
  }

  /** Where nothing is new: the deletions of a Reconcile take exactly the rows under vanished names, for
      any order of these, if and only if the LIKE selects nothing else for a vanished name. */
  lemma DropsAreExact(a: Cat, dir: Path, all: seq<Observed>, missing: seq<Name>, now: int)
    requires Valid(a) && IsPath(dir) && (dir == [] || Indexed(a.items, dir)) && ListsKnown(missing, KnownIn(a.items, dir))
    requires forall k | 0 <= k < |all| :: all[k].name in KnownIn(a.items, dir)
    ensures OnlyVanishedGo(a.items, Reconciled(a, dir, all, missing, now).c.items, dir, all)
            <==> VanishedSelectVanished(a.items, dir, all)
  {
    var t := TaskFor(a, dir, missing, now);
    forall i | i in a.items
      ensures i in Reconciled(a, dir, all, missing, now).c.items
              <==> !exists m :: m in t.known && m !in Names(all) && GoesWith(t, m, i, a.items[i].path)
      ensures UnderVanished(dir, all, a.items[i].path)
              ==> exists m :: m in t.known && m !in Names(all) && GoesWith(t, m, i, a.items[i].path)
    {
      Gone(a, dir, all, missing, now, i);
      if UnderVanished(dir, all, a.items[i].path) {
        VanishedGoes(a, t, all, i);
      }
    }
    forall m, i | m in t.known && m !in Names(all) && i in a.items && i == t.known[m] ensures UnderVanished(dir, all, a.items[i].path) {
      KnownRow(a, t, m);
    }
  }

  lemma VanishedGoes(a: Cat, t: Task, all: seq<Observed>, i: Id)
    requires TaskOf(a, t) && i in a.items && UnderVanished(t.dir, all, a.items[i].path)
    ensures var m := Top(t.dir, a.items[i].path); m in t.known && m !in Names(all) && GoesWith(t, m, i, a.items[i].path)
  {
    var p := a.items[i].path;
    var m := Top(t.dir, p);
    TopKnown(a, t, i);
    assert RowOk(a.items, i);
    KnownRow(a, t, m);
    assert RowOk(a.items, t.known[m]);
    if |p| > |t.dir| + 1 {
      assert p[..|t.dir| + 1] == t.dir + [m];
      BelowSelects(t.dir + [m], p);
    }
  }
}
