/** Reconciling one directory with the disk keeps the catalogue fit for further scans and
    does not disturb directories that are already finished. */
module Rescans {
  import opened Paths
  import opened SqlLike
  import opened Catalogue
  import opened TreeInvariant
  import opened History
  import opened Writes
  import opened Reconciling
  import opened Agreement
  import opened ReconcileTheorems
  import opened Disk

  /** From a to b the directory e was reconciled with what the disk lists for it. */
  ghost predicate Rescan(a: Cat, b: Items, e: Path, ids: map<Name, Id>, all: seq<Observed>, d: Files) {
    && Valid(a) && Tree(b) && DiskOk(d)
    && IsPath(e) && IsDirectory(d, e) && (e == [] || Indexed(a.items, e))
    && Listing(d, e, all)
    && Compatible(a.items, d)
    && Outcome(a.items, b, e, ids, all)
  }

  lemma EntryOnDisk(d: Files, e: Path, all: seq<Observed>, n: Name)
    requires Listing(d, e, all)
    ensures n in Names(all) <==> e + [n] in d
  {
    BelowChild(e, n);
    if n in Names(all) {
      var k := NameAt(all, n);
      assert all[k] in all;
    }
    if e + [n] in d {
      assert Base(e + [n]) in Names(all);
    }
  }

  lemma NoTwinBetween(a: Cat, e: Path, d: Files, t: Task, o: Observed, k: Name)
    requires TaskOf(a, t) && t.dir == e && Compatible(a.items, d)
    requires e + [o.name] in d && o == ObservedAt(o.name, d[e + [o.name]]) && e + [k] in d
    requires k in t.known && o.name != k && t.known[k] in a.items
    ensures !SameInode(a.items[t.known[k]], o)
  {
    KnownRow(a, t, k);
    BelowChild(e, k);
    BelowChild(e, o.name);
    assert Places(a.items, d, t.known[k], e + [k]);
    assert Fits(a.items, t.known[k], e + [k], d);
    assert ChildOf(e, e + [o.name]) && e + [o.name] != e + [k];
  }

  /** A compatible catalogue meets the inode hypothesis of Reconcile. */
  lemma CompatibleHasNoTwin(a: Cat, e: Path, all: seq<Observed>, d: Files)
    requires Valid(a) && IsPath(e) && (e == [] || Indexed(a.items, e)) && Listing(d, e, all) && Compatible(a.items, d)
    ensures NoLateTwin(KnownIn(a.items, e), a.items, all)
  {
    var t := TaskFor(a, e, [], 0);
    forall j, k | 0 <= j < k < |all| && all[j].name !in t.known && all[k].name in t.known && t.known[all[k].name] in a.items
      ensures !SameInode(a.items[t.known[all[k].name]], all[j])
    {
      assert all[j] in all && all[k] in all;
      NoTwinBetween(a, e, d, t, all[j], all[k].name);
    }
  }

  // ---- ... and what the LIKEs of Reconcile need ---------------------------------------------

  /** A touched name is not on disk any more. */
  lemma TouchedIsGone(a: Cat, e: Path, all: seq<Observed>, d: Files, m: Name)
    requires Valid(a) && IsPath(e) && (e == [] || Indexed(a.items, e)) && Listing(d, e, all) && Compatible(a.items, d)
    requires m in Touched(KnownIn(a.items, e), a.items, all)
    ensures m in KnownIn(a.items, e) && e + [m] !in d
  {
    var t := TaskFor(a, e, [], 0);
    EntryOnDisk(d, e, all, m);
    if m in Names(all) {
      var k :| 0 <= k < |all| && all[k].name !in t.known && SameInode(a.items[t.known[m]], all[k]);
      assert all[k] in all;
      NoTwinBetween(a, e, d, t, all[k], m);
    }
  }

  lemma TouchedIsSafe(a: Cat, e: Path, all: seq<Observed>, d: Files, m: Name)
    requires Valid(a) && IsPath(e) && (e == [] || Indexed(a.items, e)) && Listing(d, e, all) && Compatible(a.items, d)
    requires m in Touched(KnownIn(a.items, e), a.items, all)
    ensures CaseSafe(a.items, e + [m])
  {
    var t := TaskFor(a, e, [], 0);
    TouchedIsGone(a, e, all, d, m);
    KnownRow(a, t, m);
    SelectsNotItself(e + [m]);
    var y := t.known[m];
    assert Places(a.items, d, y, e + [m]);
    forall i | i in a.items && Selects(e + [m], a.items[i].path) ensures Below(e + [m], a.items[i].path) {
      assert Places(a.items, d, i, a.items[i].path);
      WithinCases(e + [m], a.items[i].path);
    }
  }

  lemma FoldSelects(e: Path, m: Name, n: Name, s: Path)
    requires IsPath(e + [m]) && IsPath(e + [n] + s) && s != [] && SameFold(m, n)
    ensures Selects(e + [m], e + [n] + s)
  {
    var p := e + [n] + s;
    SelectsIs(e + [m], p);
    FoldsBelowIs(e + [m], p);
    assert p[..|e| + 1] == e + [n];
    assert FoldPath(e + [n]) == FoldPath(e + [m]) by {
      forall k | 0 <= k < |e| + 1 ensures FoldPath(e + [n])[k] == FoldPath(e + [m])[k] {
      }
    }
  }

  /** What a renamed directory brings along does not come under a variant of another gone name. */
  lemma BroughtApart(a: Cat, e: Path, all: seq<Observed>, d: Files, o: Observed, m: Name, n: Name)
    requires Valid(a) && DiskOk(d) && IsPath(e) && (e == [] || Indexed(a.items, e)) && Listing(d, e, all) && Compatible(a.items, d)
    requires o in all && o.name !in KnownIn(a.items, e) && m in KnownIn(a.items, e)
    requires SameInode(a.items[KnownIn(a.items, e)[m]], o) && HasBelow(a.items, e + [m]) && e + [m] !in d
    requires n in KnownIn(a.items, e) && n != m && e + [n] !in d
    ensures !SameFold(n, o.name)
  {
    if SameFold(n, o.name) {
      var t := TaskFor(a, e, [], 0);
      var i :| i in a.items && Below(e + [m], a.items[i].path);
      KnownRow(a, t, m);
      KnownRow(a, t, n);
      KnownIffIndexed(a, t, o.name);
      BroughtUnder(a.items, d, e, o.name, m, n, t.known[m], t.known[n], i);
    }
  }

  lemma BroughtUnder(items: Items, d: Files, e: Path, o: Name, m: Name, n: Name, x: Id, y: Id, i: Id)
    requires Tree(items) && DiskOk(d) && RowsApart(items, d) && SameFold(n, o) && n != m && e + [n] !in d
    requires x in items && items[x].path == e + [m] && RenameOf(items, d, x, e + [o])
    requires y in items && items[y].path == e + [n] && i in items && Below(e + [m], items[i].path)
    ensures e + [o] == e + [n]
  {
    var r := Rebase(items[i].path, e + [m], e + [o]);
    var s := items[i].path[|e| + 1..];
    assert Places(items, d, i, r) && Places(items, d, y, e + [n]);
    assert RowOk(items, i) && RowOk(items, y);
    assert r == e + [o] + s;
    RebasedIsPath(d, items[i].path, e + [m], e + [o]);
    FoldSelects(e, n, o, s);
    assert r[|e|] == o;
    BelowUnder(e, n, r);
    BelowUnder(e, m, items[i].path);
    WithinUnder(e, n, items[i].path);
  }

  lemma RebasedIsPath(d: Files, p: Path, src: Path, dst: Path)
    requires DiskOk(d) && dst in d && IsPath(p)
    ensures IsPath(Rebase(p, src, dst))
  {
    assert IsPath(dst);
    if |src| <= |p| {
      var q := dst + p[|src|..];
      forall k | 0 <= k < |q| ensures IsName(q[k]) {
        if k >= |dst| {
          assert q[k] == p[k - |dst| + |src|];
        }
      }
    }
  }

  lemma BelowUnder(e: Path, n: Name, p: Path)
    ensures Below(e + [n], p) <==> Below(e, p) && Top(e, p) == n && |p| > |e| + 1
  {
    assert |p| > |e| ==> p[..|e| + 1] == p[..|e|] + [p[|e|]];
    assert (e + [n])[..|e|] == e && (e + [n])[|e|] == n;
  }

  lemma WithinUnder(e: Path, n: Name, p: Path)
    ensures Within(e + [n], p) ==> Below(e, p) && Top(e, p) == n
  {
    assert |p| > |e| ==> p[..|e| + 1] == p[..|e|] + [p[|e|]];
    assert (e + [n])[..|e|] == e && (e + [n])[|e|] == n;
  }

  lemma CompatibleIsCaseClean(a: Cat, e: Path, all: seq<Observed>, d: Files)
    requires Valid(a) && DiskOk(d) && IsPath(e) && (e == [] || Indexed(a.items, e)) && Listing(d, e, all) && Compatible(a.items, d)
    ensures CaseClean(a.items, e, all)
  {
    var known := KnownIn(a.items, e);
    var touched := Touched(known, a.items, all);
    forall m | m in touched ensures CaseSafe(a.items, e + [m]) {
      TouchedIsSafe(a, e, all, d, m);
    }
    forall k, m | 0 <= k < |all| && all[k].name !in known && m in known && SameInode(a.items[known[m]], all[k])
                  && HasBelow(a.items, e + [m])
      ensures forall n | n in touched && n != m :: !SameFold(n, all[k].name)
    {
      assert m in touched;
      TouchedIsGone(a, e, all, d, m);
      forall n | n in touched && n != m ensures !SameFold(n, all[k].name) {
        TouchedIsGone(a, e, all, d, n);
        BroughtApart(a, e, all, d, all[k], m, n);
      }
    }
  }

  // ---- where a row comes from --------------------------------------------------------------

  /** Paths change at most in the component just below e. */
  predicate SameShape(p: Path, q: Path, e: Path) {
    && |p| == |q|
    && (forall k | 0 <= k < |p| && k != |e| :: p[k] == q[k])
    && (Below(e, p) <==> Below(e, q))
    && (!Below(e, p) ==> p == q)
  }

  lemma ReplantShape(e: Path, p: Path, n: Name)
    requires Below(e, p)
    ensures SameShape(p, Replant(e, p, n), e) && Top(e, Replant(e, p, n)) == n
  {
    var q := Replant(e, p, n);
    assert forall k | 0 <= k < |e| :: q[k] == e[k] == p[..|e|][k];
    assert q[..|e|] == e;
    assert forall k | |e| + 1 <= k < |p| :: q[k] == p[|e| + 1..][k - |e| - 1];
  }

  lemma ReplantNowhere(e: Path, p: Path)
    requires Below(e, p)
    ensures Replant(e, p, Top(e, p)) == p
  {
    assert p == p[..|e|] + [p[|e|]] + p[|e| + 1..];
  }

  /** How a row below e got where it is: under the name n of its top ancestor, which was
      known as m before. */
  ghost predicate Came(a: Items, b: Items, e: Path, d: Files, i: Id, m: Name, n: Name)
    requires i in a && i in b
  {
    && Below(e, a[i].path) && Below(e, b[i].path)
    && Top(e, a[i].path) == m && Top(e, b[i].path) == n
    && b[i].path == Replant(e, a[i].path, n)
    && (|a[i].path| > |e| + 1 ==> b[i] == a[i].(path := b[i].path))
    && e + [n] in d
    && (m != n ==> e + [m] !in d && !Indexed(a, e + [n])
                   && exists x :: x in a && a[x].path == e + [m] && InodeOf(a[x], d[e + [n]]))
  }

  lemma Follow(a: Cat, b: Items, e: Path, ids: map<Name, Id>, all: seq<Observed>, d: Files, i: Id) returns (n: Name)
    requires Rescan(a, b, e, ids, all, d) && i in a.items && i in b && Below(e, a.items[i].path)
    ensures Came(a.items, b, e, d, i, Top(e, a.items[i].path), n)
    ensures n in ids && Top(e, a.items[i].path) in KnownIn(a.items, e)
    ensures ids[n] == KnownIn(a.items, e)[Top(e, a.items[i].path)]
  {
    var t := TaskFor(a, e, [], 0);
    TopKnown(a, t, i);
    var m := Top(e, a.items[i].path);
    KnownRow(a, t, m);
    assert t.known[m] in ids.Values;
    n :| n in ids && ids[n] == t.known[m];
    ReplantShape(e, a.items[i].path, n);
    var j := NameAt(all, n);
    EntryOnDisk(d, e, all, n);
    EntryOnDisk(d, e, all, m);
    if m != n {
      MovedFrom(a, b, e, ids, all, d, m, n, j);
    }
  }

  lemma MovedFrom(a: Cat, b: Items, e: Path, ids: map<Name, Id>, all: seq<Observed>, d: Files, m: Name, n: Name, j: nat)
    requires Rescan(a, b, e, ids, all, d) && m != n && m in KnownIn(a.items, e) && n in ids
    requires ids[n] == KnownIn(a.items, e)[m] && j < |all| && all[j].name == n
    ensures m !in Names(all) && !Indexed(a.items, e + [n]) && e + [n] in d
    ensures exists x :: x in a.items && a.items[x].path == e + [m] && InodeOf(a.items[x], d[e + [n]])
  {
    var t := TaskFor(a, e, [], 0);
    KnownRow(a, t, m);
    KnownApart(a, t, m);
    KnownIffIndexed(a, t, n);
    assert all[j] in all;
    assert n !in t.known;
    var m' :| m' in t.known && m' !in Names(all) && t.known[m'] == ids[n] && SameInode(a.items[ids[n]], all[j]);
    assert m' == m;
    assert InodeOf(a.items[ids[n]], d[e + [n]]);
  }

  lemma Traced(a: Cat, b: Items, e: Path, ids: map<Name, Id>, all: seq<Observed>, d: Files, i: Id)
    requires Rescan(a, b, e, ids, all, d) && i in a.items && i in b
    ensures SameShape(a.items[i].path, b[i].path, e)
    ensures !Below(e, a.items[i].path) ==> b[i] == a.items[i]
  {
    if Below(e, a.items[i].path) {
      var n := Follow(a, b, e, ids, all, d, i);
      ReplantShape(e, a.items[i].path, n);
    }
  }

  /** Rows with the same top ancestor now had the same one before. */
  lemma SameTop(a: Cat, b: Items, e: Path, ids: map<Name, Id>, all: seq<Observed>, d: Files, i: Id, c: Id)
    requires Rescan(a, b, e, ids, all, d) && i in a.items && i in b && c in a.items && c in b
    requires Below(e, b[i].path) && Below(e, b[c].path) && Top(e, b[i].path) == Top(e, b[c].path)
    ensures Below(e, a.items[i].path) && Below(e, a.items[c].path) && Top(e, a.items[i].path) == Top(e, a.items[c].path)
  {
    Traced(a, b, e, ids, all, d, i);
    Traced(a, b, e, ids, all, d, c);
    var n := Follow(a, b, e, ids, all, d, i);
    var n' := Follow(a, b, e, ids, all, d, c);
    var t := TaskFor(a, e, [], 0);
    KnownApart(a, t, Top(e, a.items[i].path));
  }

  lemma ShapeWithin(e: Path, a1: Path, b1: Path, a2: Path, b2: Path)
    requires SameShape(a1, b1, e) && SameShape(a2, b2, e) && Within(b1, b2)
    requires Below(e, b1) ==> Below(e, b2) && Top(e, a1) == Top(e, a2)
    requires !Below(e, b1) ==> !Below(e, b2)
    ensures Within(a1, a2) && a1[|a1|..] == b1[|b1|..] && a2[|a1|..] == b2[|b1|..]
  {
    forall k | 0 <= k < |a1| ensures a1[k] == a2[k] {
      assert b2[..|b1|][k] == b2[k];
    }
    assert a2[..|a1|] == a1;
  }

  lemma PrefixOfShorter(p: Path, e: Path, q: Path)
    requires Within(p, q) && Within(e, q) && |p| <= |e|
    ensures Within(p, e)
  {
    assert e[..|p|] == q[..|e|][..|p|] == q[..|p|];
  }

  lemma BelowBoth(e: Path, p: Path, q: Path)
    requires Within(p, q) && !Within(p, e)
    ensures Below(e, p) <==> Below(e, q)
    ensures Below(e, p) ==> Top(e, p) == Top(e, q)
  {
    if Below(e, p) {
      BelowWithin(e, p, q);
      assert q[..|p|][|e|] == q[|e|];
    }
    if Below(e, q) {
      assert forall k | 0 <= k < |p| :: p[k] == q[..|p|][k] == q[k];
      assert forall k | 0 <= k < |e| :: e[k] == q[..|e|][k] == q[k];
      if |p| <= |e| {
        PrefixOfShorter(p, e, q);
      }
      assert |p| > |e| ==> p[..|e|] == e;
    }
  }

  lemma BelowWithin(e: Path, p: Path, q: Path)
    requires Below(e, p) && Within(p, q)
    ensures Below(e, q)
  {
    assert q[..|e|] == q[..|p|][..|e|];
  }

  /** Containment among old rows that are not ancestors of e was there before. */
  lemma WithinBefore(a: Cat, b: Items, e: Path, ids: map<Name, Id>, all: seq<Observed>, d: Files, i: Id, c: Id)
    requires Rescan(a, b, e, ids, all, d) && i in a.items && i in b && c in a.items && c in b
    requires Within(b[i].path, b[c].path) && !Within(b[i].path, e)
    ensures Within(a.items[i].path, a.items[c].path)
    ensures |a.items[i].path| == |b[i].path| && |a.items[c].path| == |b[c].path|
    ensures a.items[c].path[|a.items[i].path|..] == b[c].path[|b[i].path|..]
  {
    BelowBoth(e, b[i].path, b[c].path);
    Traced(a, b, e, ids, all, d, i);
    Traced(a, b, e, ids, all, d, c);
    if Below(e, b[i].path) {
      SameTop(a, b, e, ids, all, d, i, c);
    }
    ShapeWithin(e, a.items[i].path, b[i].path, a.items[c].path, b[c].path);
  }

  // ---- the children of e --------------------------------------------------------------------

  /** A child of e is on disk, matches it, and has the inode of the disk or its old row. */
  lemma ChildAfter(a: Cat, b: Items, e: Path, ids: map<Name, Id>, all: seq<Observed>, d: Files, i: Id)
    requires Rescan(a, b, e, ids, all, d) && i in b && ChildOf(e, b[i].path)
    ensures b[i].path in d && Match(b[i], d[b[i].path], true)
    ensures (b[i].ino == d[b[i].path].ino && b[i].dev == d[b[i].path].dev) || (i in a.items && b[i] == a.items[i])
  {
    WithinCases(e, b[i].path);
    WithinCases(e, e);
    assert Below(e, b[i].path);
    var n := Top(e, b[i].path);
    assert b[i].path == e + [n];
    assert n in ids && ids[n] == i;
    var j := NameAt(all, n);
    assert all[j] in all;
  }

  lemma FreshIsChild(a: Cat, b: Items, e: Path, ids: map<Name, Id>, all: seq<Observed>, d: Files, i: Id)
    requires Rescan(a, b, e, ids, all, d) && i in b
    ensures i in a.items || ChildOf(e, b[i].path)
  {
    ChildCases(e, b[i].path);
  }

  /** Rows other than the children of e keep everything but the path. */
  lemma DeepRow(a: Cat, b: Items, e: Path, ids: map<Name, Id>, all: seq<Observed>, d: Files, i: Id)
    requires Rescan(a, b, e, ids, all, d) && i in b && !ChildOf(e, b[i].path)
    ensures i in a.items && b[i] == a.items[i].(path := b[i].path)
  {
    FreshIsChild(a, b, e, ids, all, d, i);
    Traced(a, b, e, ids, all, d, i);
    if Below(e, a.items[i].path) {
      var n := Follow(a, b, e, ids, all, d, i);
      ChildCases(e, b[i].path);
    }
  }

  /** A row that has something below it was there before, unless it is an ancestor of e. */
  lemma ParentIsOld(a: Cat, b: Items, e: Path, ids: map<Name, Id>, all: seq<Observed>, d: Files, i: Id, c: Id)
    requires Rescan(a, b, e, ids, all, d) && i in b && c in b && Below(b[i].path, b[c].path) && !Within(b[i].path, e)
    ensures i in a.items && c in a.items
  {
    var p, q := b[i].path, b[c].path;
    BelowBoth(e, p, q);
    FreshIsChild(a, b, e, ids, all, d, c);
    WithinCases(p, q);
    FreshIsChild(a, b, e, ids, all, d, i);
    if ChildOf(e, p) {
      ChildIsOld(a, b, e, ids, all, d, i, c);
    }
  }

  lemma ChildIsOld(a: Cat, b: Items, e: Path, ids: map<Name, Id>, all: seq<Observed>, d: Files, i: Id, c: Id)
    requires Rescan(a, b, e, ids, all, d) && i in b && ChildOf(e, b[i].path) && c in b && c in a.items
    requires Below(e, b[i].path) && Below(e, b[c].path) && Top(e, b[i].path) == Top(e, b[c].path)
    ensures i in a.items
  {
    Traced(a, b, e, ids, all, d, c);
    var n := Follow(a, b, e, ids, all, d, c);
    var t := TaskFor(a, e, [], 0);
    KnownRow(a, t, Top(e, a.items[c].path));
    assert ids[n] == i;
  }

  // ---- renamed entries keep their ids --------------------------------------------------------------

  /** The vanished child x of e is, by inode and kind, what is now at e + [n]. */
  ghost predicate WasRenamed(a: Items, d: Files, e: Path, x: Id, n: Name) {
    x in a && ChildOf(e, a[x].path) && a[x].path !in d && e + [n] in d && InodeOf(a[x], d[e + [n]])
  }

  /** No inode has two names on disk. */
  lemma SoleOnDisk(known: map<Name, Id>, r: Row, d: Files, e: Path, all: seq<Observed>, j: nat)
    requires DiskOk(d) && Listing(d, e, all) && j < |all| && SameInode(r, all[j])
    ensures Sole(known, r, all, j)
  {
    forall i | 0 <= i < |all| && SameInode(r, all[i]) ensures i == j {
      OneName(r, d, e, all, i, j);
    }
  }

  lemma OneName(r: Row, d: Files, e: Path, all: seq<Observed>, i: nat, j: nat)
    requires DiskOk(d) && Listing(d, e, all) && i < |all| && j < |all| && SameInode(r, all[i]) && SameInode(r, all[j])
    ensures i == j
  {
    assert all[i] in all && all[j] in all;
    var p, q := e + [all[i].name], e + [all[j].name];
    assert SameKey(d[p], d[q]);
    assert p[|e|] == all[i].name && q[|e|] == all[j].name;
  }

  lemma RenamedIsVanished(a: Cat, e: Path, all: seq<Observed>, d: Files, x: Id, n: Name) returns (m: Name)
    requires Valid(a) && IsPath(e) && (e == [] || Indexed(a.items, e)) && Listing(d, e, all) && WasRenamed(a.items, d, e, x, n)
    ensures Vanished(a.items, KnownIn(a.items, e), all, m) && KnownIn(a.items, e)[m] == x
  {
    var t := TaskFor(a, e, [], 0);
    ChildCases(e, a.items[x].path);
    TopKnown(a, t, x);
    m := Top(e, a.items[x].path);
    KnownRow(a, t, m);
    EntryOnDisk(d, e, all, m);
  }

  lemma RenamedIsKept(a: Cat, b: Items, e: Path, ids: map<Name, Id>, all: seq<Observed>, d: Files, n: Name, j: nat, x: Id)
    requires Rescan(a, b, e, ids, all, d) && j < |all| && all[j].name == n && n in ids && n !in KnownIn(a.items, e)
    requires WasRenamed(a.items, d, e, x, n)
    ensures ids[n] in a.items
  {
    var m := RenamedIsVanished(a, e, all, d, x, n);
    assert all[j] in all;
    SoleOnDisk(KnownIn(a.items, e), a.items[x], d, e, all, j);
  }

  lemma KeptIsRenamed(a: Cat, b: Items, e: Path, ids: map<Name, Id>, all: seq<Observed>, d: Files, n: Name, j: nat)
    requires Rescan(a, b, e, ids, all, d) && j < |all| && all[j].name == n && n in ids && n !in KnownIn(a.items, e)
    requires ids[n] in a.items
    ensures WasRenamed(a.items, d, e, ids[n], n)
  {
    var known := KnownIn(a.items, e);
    var m :| m in known && m !in Names(all) && known[m] == ids[n] && SameInode(a.items[ids[n]], all[j]);
    VanishedIsRenamed(a, e, all, d, n, j, m);
  }

  lemma VanishedIsRenamed(a: Cat, e: Path, all: seq<Observed>, d: Files, n: Name, j: nat, m: Name)
    requires Valid(a) && IsPath(e) && (e == [] || Indexed(a.items, e)) && Listing(d, e, all) && j < |all| && all[j].name == n
    requires m in KnownIn(a.items, e) && m !in Names(all) && SameInode(a.items[KnownIn(a.items, e)[m]], all[j])
    ensures WasRenamed(a.items, d, e, KnownIn(a.items, e)[m], n)
  {
    assert all[j] in all;
    KnownRow(a, TaskFor(a, e, [], 0), m);
    EntryOnDisk(d, e, all, m);
    BelowChild(e, m);
    ChildCases(e, e + [m]);
  }

  /** A new entry has an old id if and only if it was renamed; the id then is that of a child it was
      renamed from. */
  lemma RescanKeepsId(a: Cat, b: Items, e: Path, ids: map<Name, Id>, all: seq<Observed>, d: Files, n: Name)
    requires Rescan(a, b, e, ids, all, d) && e + [n] in d && !Indexed(a.items, e + [n])
    ensures n in ids && ids[n] in b && b[ids[n]].path == e + [n]
    ensures ids[n] in a.items <==> exists x :: WasRenamed(a.items, d, e, x, n)
    ensures ids[n] in a.items ==> WasRenamed(a.items, d, e, ids[n], n)
  {
    EntryOnDisk(d, e, all, n);
    KnownIffIndexed(a, TaskFor(a, e, [], 0), n);
    var j := NameAt(all, n);
    if x :| WasRenamed(a.items, d, e, x, n) {
      RenamedIsKept(a, b, e, ids, all, d, n, j, x);
    }
    if ids[n] in a.items {
      KeptIsRenamed(a, b, e, ids, all, d, n, j);
    }
  }

  // ---- compatibility is kept -------------------------------------------------------------------

  lemma HadBelow(a: Cat, b: Items, e: Path, ids: map<Name, Id>, all: seq<Observed>, d: Files, i: Id)
    requires Rescan(a, b, e, ids, all, d) && i in b && !Within(b[i].path, e) && HasBelow(b, b[i].path)
    ensures i in a.items && HasBelow(a.items, a.items[i].path)
  {
    var c :| c in b && Below(b[i].path, b[c].path);
    ParentIsOld(a, b, e, ids, all, d, i, c);
    WithinCases(b[i].path, b[c].path);
    WithinBefore(a, b, e, ids, all, d, i, c);
    assert Below(a.items[i].path, a.items[c].path);
  }

  lemma VanishedBefore(a: Cat, b: Items, e: Path, ids: map<Name, Id>, all: seq<Observed>, d: Files, x: Id)
    requires Rescan(a, b, e, ids, all, d) && x in b && b[x].path !in d
    ensures x in a.items && a.items[x].path !in d && b[x] == a.items[x].(path := b[x].path) && !Within(b[x].path, e)
  {
    if ChildOf(e, b[x].path) {
      ChildAfter(a, b, e, ids, all, d, x);
    }
    assert RowOk(b, x);
    if Within(b[x].path, e) {
      WithinDirIsDir(d, b[x].path, e);
    }
    DeepRow(a, b, e, ids, all, d, x);
    Traced(a, b, e, ids, all, d, x);
    if Below(e, a.items[x].path) {
      var n := Follow(a, b, e, ids, all, d, x);
      ReplantNowhere(e, a.items[x].path);
      if a.items[x].path in d {
        TopOnDisk(d, e, a.items[x].path);
      }
    }
  }

  lemma NothingWithinVanished(d: Files, p: Path, q: Path)
    requires DiskOk(d) && p != [] && p !in d && Within(p, q)
    ensures q !in d
  {
    WithinCases(p, q);
    if q in d {
      AncestorIsDir(d, p, q);
    }
  }

  /** A place of an old row was one before. */
  lemma OwnPlaceBefore(a: Cat, b: Items, e: Path, ids: map<Name, Id>, all: seq<Observed>, d: Files, i: Id)
    requires Rescan(a, b, e, ids, all, d) && i in b && i in a.items
    ensures Places(a.items, d, i, b[i].path)
  {
    Traced(a, b, e, ids, all, d, i);
    if Below(e, a.items[i].path) {
      var n := Follow(a, b, e, ids, all, d, i);
      ReplantNowhere(e, a.items[i].path);
      var m := Top(e, a.items[i].path);
      if m != n {
        var x :| x in a.items && a.items[x].path == e + [m] && InodeOf(a.items[x], d[e + [n]]);
        RenamePlace(a.items, d, e, i, x, m, n);
      }
    }
  }

  lemma RenamePlace(a: Items, d: Files, e: Path, i: Id, x: Id, m: Name, n: Name)
    requires i in a && x in a && Below(e, a[i].path) && Top(e, a[i].path) == m && !Indexed(a, e + [n])
    requires a[x].path == e + [m] && e + [m] !in d && e + [n] in d && InodeOf(a[x], d[e + [n]])
    ensures Places(a, d, i, Replant(e, a[i].path, n))
  {
    assert a[i].path[..|e| + 1] == e + [m];
    assert RenameOf(a, d, x, e + [n]);
    assert Rebase(a[i].path, a[x].path, e + [n]) == Replant(e, a[i].path, n);
  }

  /** A rename that is still possible was possible before. */
  lemma RenameOfBefore(a: Cat, b: Items, e: Path, ids: map<Name, Id>, all: seq<Observed>, d: Files, x: Id, q: Path)
    requires Rescan(a, b, e, ids, all, d) && RenameOf(b, d, x, q)
    ensures x in a.items && RenameOf(a.items, d, x, q) && !Within(b[x].path, e)
  {
    VanishedBefore(a, b, e, ids, all, d, x);
    Traced(a, b, e, ids, all, d, x);
    if Indexed(a.items, q) {
      DirStaysIndexed(a, b, e, ids, all, d, q);
    }
  }

  /** What is within a vanished row was within it before, and vanished with it. */
  lemma VanishedWith(a: Cat, b: Items, e: Path, ids: map<Name, Id>, all: seq<Observed>, d: Files, x: Id, i: Id)
    requires Rescan(a, b, e, ids, all, d) && x in b && b[x].path !in d && i in b && Within(b[x].path, b[i].path)
    ensures b[i].path !in d && !ChildOf(e, b[i].path) && !Within(b[i].path, e)
    ensures x in a.items && i in a.items && Within(a.items[x].path, a.items[i].path)
    ensures b[i] == a.items[i].(path := b[i].path)
    ensures forall q :: Rebase(a.items[i].path, a.items[x].path, q) == Rebase(b[i].path, b[x].path, q)
  {
    assert RowOk(b, x);
    NothingWithinVanished(d, b[x].path, b[i].path);
    VanishedBefore(a, b, e, ids, all, d, x);
    VanishedBefore(a, b, e, ids, all, d, i);
    WithinBefore(a, b, e, ids, all, d, x, i);
    if ChildOf(e, b[i].path) {
      ChildAfter(a, b, e, ids, all, d, i);
    }
  }

  lemma PlacesBefore(a: Cat, b: Items, e: Path, ids: map<Name, Id>, all: seq<Observed>, d: Files, i: Id, r: Path)
    requires Rescan(a, b, e, ids, all, d) && Places(b, d, i, r)
    ensures i in a.items ==> Places(a.items, d, i, r)
    ensures i !in a.items ==> r == b[i].path && ChildOf(e, r) && r in d
    ensures r != b[i].path ==> b[i].path !in d && !ChildOf(e, b[i].path) && !Within(b[i].path, e)
  {
    FreshIsChild(a, b, e, ids, all, d, i);
    if ChildOf(e, b[i].path) {
      ChildAfter(a, b, e, ids, all, d, i);
    }
    if i in a.items {
      OwnPlaceBefore(a, b, e, ids, all, d, i);
    }
    if r != b[i].path {
      var x, q :| RenameOf(b, d, x, q) && Within(b[x].path, b[i].path) && r == Rebase(b[i].path, b[x].path, q);
      VanishedWith(a, b, e, ids, all, d, x, i);
      RenameOfBefore(a, b, e, ids, all, d, x, q);
    }
  }

  /** The inode a row records is that of before, or that of the disk where the row is. */
  lemma FitsAfter(a: Cat, b: Items, e: Path, ids: map<Name, Id>, all: seq<Observed>, d: Files, i: Id, r: Path)
    requires Rescan(a, b, e, ids, all, d) && Places(b, d, i, r) && r in d
    ensures Fits(b, i, r, d)
  {
    PlacesBefore(a, b, e, ids, all, d, i, r);
    assert i in a.items ==> Fits(a.items, i, r, d);
    if ChildOf(e, b[i].path) {
      ChildAfter(a, b, e, ids, all, d, i);
    } else {
      DeepRow(a, b, e, ids, all, d, i);
    }
  }

  lemma KindFitsAfter(a: Cat, b: Items, e: Path, ids: map<Name, Id>, all: seq<Observed>, d: Files, i: Id, r: Path)
    requires Rescan(a, b, e, ids, all, d) && Places(b, d, i, r) && r in d && r != b[i].path
    ensures KindFits(b, i, r, d)
  {
    PlacesBefore(a, b, e, ids, all, d, i, r);
    if HasBelow(b, b[i].path) {
      HadBelow(a, b, e, ids, all, d, i);
      NotBackAgain(a, b, e, ids, all, d, i);
      assert KindFits(a.items, i, r, d);
    }
  }

  /** Where a row was that has moved there is nothing on disk. */
  lemma NotBackAgain(a: Cat, b: Items, e: Path, ids: map<Name, Id>, all: seq<Observed>, d: Files, i: Id)
    requires Rescan(a, b, e, ids, all, d) && i in a.items && i in b
    ensures a.items[i].path in d ==> a.items[i].path == b[i].path
  {
    if a.items[i].path in d {
      if Below(e, a.items[i].path) {
        TopOnDisk(d, e, a.items[i].path);
      }
      RowStays(a, b, e, ids, all, d, i);
    }
  }

  /** Rows of one subtree go to one place. */
  lemma WithinAfter(a: Cat, b: Items, e: Path, ids: map<Name, Id>, all: seq<Observed>, d: Files, y: Id, i: Id)
    requires Rescan(a, b, e, ids, all, d) && y in a.items && y in b && i in a.items && i in b
    requires Within(a.items[y].path, a.items[i].path)
    ensures Within(b[y].path, b[i].path)
  {
    var p, q := a.items[y].path, a.items[i].path;
    Traced(a, b, e, ids, all, d, y);
    Traced(a, b, e, ids, all, d, i);
    if Below(e, p) {
      BelowWithin(e, p, q);
      TopWithin(e, p, q);
      var n := Follow(a, b, e, ids, all, d, y);
      var n' := Follow(a, b, e, ids, all, d, i);
      ReplantBoth(e, p, q, n);
    } else if Below(e, q) {
      AboveBelow(e, p, q);
      WithinTrans(p, e, b[i].path);
    }
  }

  lemma TopWithin(e: Path, p: Path, q: Path)
    requires Below(e, p) && Within(p, q) && Below(e, q)
    ensures Top(e, p) == Top(e, q)
  {
    assert q[|e|] == q[..|p|][|e|];
  }

  lemma ReplantBoth(e: Path, p: Path, q: Path, n: Name)
    requires Below(e, p) && Below(e, q) && Within(p, q)
    ensures Within(Replant(e, p, n), Replant(e, q, n))
  {
    var u, v := Replant(e, p, n), Replant(e, q, n);
    forall k | 0 <= k < |u| ensures u[k] == v[k] {
      if k > |e| {
        assert u[k] == p[k] && v[k] == q[k] && q[..|p|][k] == q[k];
      }
    }
    assert v[..|u|] == u;
  }

  /** A prefix of something below e that is not itself below e is a prefix of e. */
  lemma AboveBelow(e: Path, p: Path, q: Path)
    requires Within(p, q) && Below(e, q) && !Below(e, p)
    ensures Within(p, e)
  {
    if |p| > |e| {
      LongerIsBelow(e, p, q);
    }
    PrefixOfShorter(p, e, q);
  }

  lemma LongerIsBelow(e: Path, p: Path, q: Path)
    requires Within(p, q) && Below(e, q) && |p| > |e|
    ensures Below(e, p)
  {
    assert p[..|e|] == q[..|p|][..|e|] == q[..|e|];
  }

  /** A fresh row has nothing gone above it, not even up to case. */
  lemma FreshApart(a: Cat, b: Items, e: Path, ids: map<Name, Id>, all: seq<Observed>, d: Files, y: Id, r: Path, r': Path)
    requires Rescan(a, b, e, ids, all, d) && Places(a.items, d, y, r) && r !in d && r != [] && r' in d && ChildOf(e, r')
    requires IsPath(r)
    ensures !Selects(r, r')
  {
    if Selects(r, r') {
      SelectedAbove(e, r, r');
      AncestorPlace(a.items, d, e, |r|);
    }
  }

  lemma SelectedAbove(e: Path, r: Path, r': Path)
    requires IsPath(r) && IsPath(r') && r != [] && ChildOf(e, r') && Selects(r, r')
    ensures |r| <= |e| && r'[..|r|] == e[..|r|]
  {
    BelowSelects(r, r');
    assert r'[..|r|] == Parent(r')[..|r|];
  }

  lemma AncestorPlace(items: Items, d: Files, e: Path, n: nat)
    requires Tree(items) && 0 < n <= |e| && Indexed(items, e)
    ensures exists k :: Places(items, d, k, e[..n])
  {
    AncestorIndexed(items, e, n);
    var k :| k in items && items[k].path == e[..n];
    assert Places(items, d, k, e[..n]);
  }

  lemma PlaceIsPath(items: Items, d: Files, i: Id, r: Path)
    requires Tree(items) && DiskOk(d) && Places(items, d, i, r)
    ensures IsPath(r) && r != [] && |r| == |items[i].path|
  {
    assert RowOk(items, i);
    if r != items[i].path {
      var x, q :| RenameOf(items, d, x, q) && Within(items[x].path, items[i].path) && r == Rebase(items[i].path, items[x].path, q);
      RebasedIsPath(d, items[i].path, items[x].path, q);
    }
  }

  lemma RowsApartAfter(a: Cat, b: Items, e: Path, ids: map<Name, Id>, all: seq<Observed>, d: Files, y: Id, i: Id, r: Path, r': Path)
    requires Rescan(a, b, e, ids, all, d)
    requires Places(b, d, y, r) && r !in d && Places(b, d, i, r') && Selects(r, r')
    ensures Below(r, r') || Within(b[y].path, b[i].path)
  {
    PlacesBefore(a, b, e, ids, all, d, y, r);
    PlacesBefore(a, b, e, ids, all, d, i, r');
    PlaceIsPath(b, d, y, r);
    if i in a.items {
      if Within(a.items[y].path, a.items[i].path) {
        WithinAfter(a, b, e, ids, all, d, y, i);
      }
    } else {
      FreshApart(a, b, e, ids, all, d, y, r, r');
    }
  }

  /** No fresh row comes to stand beside a place that is gone. */
  lemma NoFreshBeside(a: Cat, b: Items, e: Path, ids: map<Name, Id>, all: seq<Observed>, d: Files, y: Id, r: Path)
    requires Rescan(a, b, e, ids, all, d) && Places(b, d, y, r)
    ensures r !in d && r != [] ==> Parent(r) != e
  {
    if r !in d && r != [] && Parent(r) == e {
      if r == b[y].path {
        ChildAfter(a, b, e, ids, all, d, y);
      } else {
        var x, q :| RenameOf(b, d, x, q) && Within(b[x].path, b[y].path) && r == Rebase(b[y].path, b[x].path, q);
        RenamedAbove(e, b[y].path, b[x].path, q, r);
        if e != [] {
          DirStaysIndexed(a, b, e, ids, all, d, e);
          AncestorIndexed(b, e, |q|);
        }
      }
    }
  }

  lemma RenamedAbove(e: Path, p: Path, x: Path, q: Path, r: Path)
    requires |q| == |x| && |x| <= |p| && r == Rebase(p, x, q) && r != q && r != [] && Parent(r) == e && q != []
    ensures e != [] && 0 < |q| <= |e| && e[..|q|] == q
  {
    assert r == q + p[|x|..];
    assert |q| < |r|;
    assert e[..|q|] == r[..|r| - 1][..|q|] == r[..|q|];
  }

  lemma DiskApartAfter(a: Cat, b: Items, e: Path, ids: map<Name, Id>, all: seq<Observed>, d: Files, y: Id, r: Path, q: Path)
    requires Rescan(a, b, e, ids, all, d)
    requires Places(b, d, y, r) && r !in d && q in d && Selects(r, q) && |r| <= |q| && r != [] && q != []
    ensures Parent(r) == Parent(q[..|r|]) && forall k :: !Places(b, d, k, q[..|r|])
  {
    PlacesBefore(a, b, e, ids, all, d, y, r);
    NoFreshBeside(a, b, e, ids, all, d, y, r);
    assert Places(a.items, d, y, r);
    forall k ensures !Places(b, d, k, q[..|r|]) {
      if Places(b, d, k, q[..|r|]) {
        PlacesBefore(a, b, e, ids, all, d, k, q[..|r|]);
      }
    }
  }

  lemma RescanKeepsCompatible(a: Cat, b: Items, e: Path, ids: map<Name, Id>, all: seq<Observed>, d: Files)
    requires Rescan(a, b, e, ids, all, d)
    ensures Compatible(b, d)
  {
    forall i, r | Places(b, d, i, r) && r in d ensures Fits(b, i, r, d) {
      FitsAfter(a, b, e, ids, all, d, i, r);
    }
    forall i, r | Places(b, d, i, r) && r in d && r != b[i].path ensures KindFits(b, i, r, d) {
      KindFitsAfter(a, b, e, ids, all, d, i, r);
    }
    forall y, i, r, r' | Places(b, d, y, r) && r !in d && Places(b, d, i, r') && Selects(r, r')
      ensures Below(r, r') || Within(b[y].path, b[i].path)
    {
      RowsApartAfter(a, b, e, ids, all, d, y, i, r, r');
    }
    forall y, r, q | Places(b, d, y, r) && r !in d && q in d && Selects(r, q) && |r| <= |q| && r != [] && q != []
      ensures Parent(r) == Parent(q[..|r|]) && forall k :: !Places(b, d, k, q[..|r|])
    {
      DiskApartAfter(a, b, e, ids, all, d, y, r, q);
    }
  }

  // ---- files with rows below them ----------------------------------------------------------------

  /** A file on disk keeps the rows below it, and no file gets any. */
  lemma RescanKeepsStuck(a: Cat, b: Items, e: Path, ids: map<Name, Id>, all: seq<Observed>, d: Files, p: Path)
    requires Rescan(a, b, e, ids, all, d)
    ensures Stuck(a.items, d, p) <==> Stuck(b, d, p)
  {
    if Stuck(a.items, d, p) {
      StuckStays(a, b, e, ids, all, d, p);
    }
    if Stuck(b, d, p) {
      StuckBefore(a, b, e, ids, all, d, p);
    }
  }

  lemma StuckStays(a: Cat, b: Items, e: Path, ids: map<Name, Id>, all: seq<Observed>, d: Files, p: Path)
    requires Rescan(a, b, e, ids, all, d) && Stuck(a.items, d, p)
    ensures Stuck(b, d, p)
  {
    DirStaysIndexed(a, b, e, ids, all, d, p);
    var c :| c in a.items && Below(p, a.items[c].path);
    WithinCases(p, a.items[c].path);
    if Below(e, a.items[c].path) {
      FileAboveIsBelow(d, e, p, a.items[c].path);
      TopOnDisk(d, e, p);
      TopWithin(e, p, a.items[c].path);
    }
    RowStays(a, b, e, ids, all, d, c);
  }

  /** Of a file and a directory above the same path, the file is the lower. */
  lemma FileAboveIsBelow(d: Files, e: Path, p: Path, q: Path)
    requires DiskOk(d) && IsDirectory(d, e) && p in d && !d[p].isDir && Within(p, q) && Below(e, q)
    ensures Below(e, p)
  {
    if !Below(e, p) {
      AboveBelow(e, p, q);
      WithinDirIsDir(d, p, e);
    }
  }

  lemma StuckBefore(a: Cat, b: Items, e: Path, ids: map<Name, Id>, all: seq<Observed>, d: Files, p: Path)
    requires Rescan(a, b, e, ids, all, d) && Stuck(b, d, p)
    ensures Stuck(a.items, d, p)
  {
    var i :| i in b && b[i].path == p;
    if Within(p, e) {
      WithinDirIsDir(d, p, e);
    }
    HadBelow(a, b, e, ids, all, d, i);
    OwnPlaceBefore(a, b, e, ids, all, d, i);
    MovedIsDirectory(a.items, d, i, p);
  }

  lemma MovedIsDirectory(items: Items, d: Files, i: Id, p: Path)
    requires MovedKindsFit(items, d) && Places(items, d, i, p) && p in d && HasBelow(items, items[i].path)
    ensures p == items[i].path || d[p].isDir
  {
    if p != items[i].path {
      assert KindFits(items, i, p, d);
    }
  }

  // ---- finished directories --------------------------------------------------------------------

  /** Rows whose top ancestor is still on disk under its name stay where they are. */
  lemma RowStays(a: Cat, b: Items, e: Path, ids: map<Name, Id>, all: seq<Observed>, d: Files, i: Id)
    requires Rescan(a, b, e, ids, all, d) && i in a.items
    requires Below(e, a.items[i].path) ==> e + [Top(e, a.items[i].path)] in d
    ensures i in b && b[i].path == a.items[i].path
    ensures !ChildOf(e, a.items[i].path) ==> b[i] == a.items[i]
  {
    if Below(e, a.items[i].path) {
      var t := TaskFor(a, e, [], 0);
      var m := Top(e, a.items[i].path);
      TopKnown(a, t, i);
      EntryOnDisk(d, e, all, m);
      var j := NameAt(all, m);
      assert m in ids && ids[m] == t.known[m];
      ReplantNowhere(e, a.items[i].path);
      if |a.items[i].path| == |e| + 1 {
        assert Parent(a.items[i].path) == a.items[i].path[..|e|];
      }
    }
  }

  /** Conversely, a row deeper below e, under a top ancestor known by its name, has not moved. */
  lemma RowStayed(a: Cat, b: Items, e: Path, ids: map<Name, Id>, all: seq<Observed>, d: Files, i: Id)
    requires Rescan(a, b, e, ids, all, d) && i in b && !ChildOf(e, b[i].path)
    requires Below(e, b[i].path) ==> Indexed(a.items, e + [Top(e, b[i].path)])
    ensures i in a.items && a.items[i] == b[i]
  {
    DeepRow(a, b, e, ids, all, d, i);
    Traced(a, b, e, ids, all, d, i);
    if Below(e, b[i].path) {
      var n := Follow(a, b, e, ids, all, d, i);
      ReplantNowhere(e, a.items[i].path);
    }
  }

  lemma TopOnDisk(d: Files, e: Path, x: Path)
    requires DiskOk(d) && x in d && Below(e, x)
    ensures e + [Top(e, x)] in d && Within(e + [Top(e, x)], x)
  {
    assert x[..|e| + 1] == e + [Top(e, x)];
    WithinCases(e + [Top(e, x)], x);
    if e + [Top(e, x)] != x {
      AncestorIsDir(d, e + [Top(e, x)], x);
    }
  }

  lemma TopIndexed(items: Items, e: Path, x: Path)
    requires Tree(items) && Indexed(items, x) && Below(e, x)
    ensures Indexed(items, e + [Top(e, x)])
  {
    AncestorIndexed(items, x, |e| + 1);
    assert x[..|e| + 1] == e + [Top(e, x)];
  }

  lemma ChildTop(e: Path, x: Path, p: Path)
    requires ChildOf(x, p) && x != e && Below(e, p)
    ensures Below(e, x) && Top(e, x) == Top(e, p)
  {
    WithinCases(e, p);
    WithinCases(e, x);
  }

  lemma DirStaysIndexed(a: Cat, b: Items, e: Path, ids: map<Name, Id>, all: seq<Observed>, d: Files, p: Path)
    requires Rescan(a, b, e, ids, all, d) && Indexed(a.items, p) && (p in d || p == e)
    ensures Indexed(b, p)
  {
    var i :| i in a.items && a.items[i].path == p;
    if Below(e, p) {
      TopOnDisk(d, e, p);
    }
    RowStays(a, b, e, ids, all, d, i);
  }

  lemma ChildrenStay(a: Cat, b: Items, e: Path, ids: map<Name, Id>, all: seq<Observed>, d: Files, x: Path, i: Id)
    requires Rescan(a, b, e, ids, all, d)
    requires (x == [] || Indexed(a.items, x)) && x != e && i in b && ChildOf(x, b[i].path)
    ensures i in a.items && a.items[i] == b[i]
  {
    if Below(e, b[i].path) {
      ChildTop(e, x, b[i].path);
      TopIndexed(a.items, e, x);
    }
    RowStayed(a, b, e, ids, all, d, i);
  }

  /** Reconciling e leaves finished directories finished. */
  lemma RescanKeepsDone(a: Cat, b: Items, e: Path, ids: map<Name, Id>, all: seq<Observed>, d: Files, x: Path, exact: bool)
    requires Rescan(a, b, e, ids, all, d)
    requires IsDirectory(d, x) && Done(a.items, d, x, exact) && x != e
    ensures Done(b, d, x, exact)
  {
    if x != [] {
      DirStaysIndexed(a, b, e, ids, all, d, x);
    }
    forall i | i in b && ChildOf(x, b[i].path) ensures b[i].path in d && Match(b[i], d[b[i].path], exact) {
      ChildrenStay(a, b, e, ids, all, d, x, i);
    }
    forall p | p in d && ChildOf(x, p) ensures Indexed(b, p) {
      DirStaysIndexed(a, b, e, ids, all, d, p);
    }
  }

  lemma AgreesIndexed(b: Items, ids: map<Name, Id>, e: Path, all: seq<Observed>, n: Name)
    requires Agrees(b, ids, e, all) && n in Names(all)
    ensures Indexed(b, e + [n])
  {
    var j := NameAt(all, n);
    assert Shows(b[ids[all[j].name]], e, all[j]);
  }

  lemma ListedChild(d: Files, e: Path, all: seq<Observed>, p: Path)
    requires Listing(d, e, all) && p in d && ChildOf(e, p)
    ensures Base(p) in Names(all) && p == e + [Base(p)]
  {
  }

  lemma EntryIndexed(a: Cat, b: Items, e: Path, ids: map<Name, Id>, all: seq<Observed>, d: Files, p: Path)
    requires Rescan(a, b, e, ids, all, d) && p in d && ChildOf(e, p)
    ensures Indexed(b, p)
  {
    ListedChild(d, e, all, p);
    AgreesIndexed(b, ids, e, all, Base(p));
  }

  lemma EntriesFinished(a: Cat, b: Items, e: Path, ids: map<Name, Id>, all: seq<Observed>, d: Files)
    requires Rescan(a, b, e, ids, all, d)
    ensures forall p | p in d && ChildOf(e, p) :: Indexed(b, p)
    ensures forall i | i in b && ChildOf(e, b[i].path) :: b[i].path in d && Match(b[i], d[b[i].path], true)
  {
    forall p | p in d && ChildOf(e, p) ensures Indexed(b, p) {
      EntryIndexed(a, b, e, ids, all, d, p);
    }
    forall i | i in b && ChildOf(e, b[i].path) ensures b[i].path in d && Match(b[i], d[b[i].path], true) {
      ChildAfter(a, b, e, ids, all, d, i);
    }
  }

  /** ... and finishes e, sizes and times included. */
  lemma RescanFinishes(a: Cat, b: Items, e: Path, ids: map<Name, Id>, all: seq<Observed>, d: Files)
    requires Rescan(a, b, e, ids, all, d)
    ensures Done(b, d, e, true)
  {
    EntriesFinished(a, b, e, ids, all, d);
    if e != [] {
      DirStaysIndexed(a, b, e, ids, all, d, e);
    }
  }
}
