/** The item catalogue as a value: one row per file or directory, and the journal of
    changes.  The functions say what each write transaction does to the two tables. */
module Catalogue {
  import opened Paths
  import opened SqlLike

  datatype Option<+T> = None | Some(value: T)

  /** Ids are opaque: the k-th call of the id generator yields Minted(k). */
  datatype Id = Root | Minted(n: nat)

  datatype Row = Row(parent: Id, path: Path, name: Name, isDir: bool, size: int, mtime: int, ino: nat, dev: nat)

  datatype Kind = Upserted | Deleted | Moved

  datatype Change = Change(seqNo: nat, kind: Kind, id: Id, path: Path, oldPath: Path, ts: int)

  /** What the file system reports about one directory entry. */
  datatype Observed = Observed(name: Name, isDir: bool, size: int, mtime: int, ino: nat, dev: nat)

  type Items = map<Id, Row>

  /** `last` is the AUTOINCREMENT counter of the journal, `minted` that of the id generator. */
  datatype Cat = Cat(items: Items, journal: seq<Change>, last: nat, minted: nat, bootstrapping: bool)

  // ---- lookups ----------------------------------------------------------------

  /** The UNIQUE constraint on paths. */
  predicate UniquePaths(items: Items) {
    forall i, j | i in items && j in items && items[i].path == items[j].path :: i == j
  }

  ghost predicate Indexed(items: Items, p: Path) {
    exists i :: i in items && items[i].path == p
  }

  ghost function IdAt(items: Items, p: Path): (id: Id)
    requires p == [] || Indexed(items, p)
    ensures p == [] ==> id == Root
    ensures p != [] ==> id in items && items[id].path == p
  {
    if p == [] then Root else var i :| i in items && items[i].path == p; i
  }

  /** The ids of the direct children of a row, by name. */
  ghost function ChildIds(items: Items, pid: Id): set<Id> {
    set i | i in items && items[i].parent == pid
  }

  ghost function Known(items: Items, pid: Id): (known: map<Name, Id>)
    ensures forall n | n in known :: known[n] in items && items[known[n]].parent == pid && items[known[n]].name == n
    ensures forall i | i in items && items[i].parent == pid :: items[i].name in known
  {
    var names := set i | i in ChildIds(items, pid) :: items[i].name;
    map n | n in names :: var i :| i in ChildIds(items, pid) && items[i].name == n; i
  }

  // ---- single statements --------------------------------------------------------

  ghost function Journal(c: Cat, kind: Kind, id: Id, p: Path, oldPath: Path, now: int): Cat {
    c.(journal := c.journal + [Change(c.last + 1, kind, id, p, oldPath, now)], last := c.last + 1)
  }

  /** The journal method of the index: silent while bootstrapping. */
  ghost function JournalUpsert(c: Cat, id: Id, p: Path, now: int): Cat {
    if c.bootstrapping then c else Journal(c, Upserted, id, p, [], now)
  }

  ghost function InsertRow(c: Cat, row: Row): Cat {
    c.(items := c.items[Minted(c.minted) := row], minted := c.minted + 1)
  }

  ghost function SetStat(items: Items, id: Id, o: Observed): Items {
    if id in items then
      items[id := items[id].(isDir := o.isDir, size := o.size, mtime := o.mtime, ino := o.ino, dev := o.dev)]
    else
      items
  }

  ghost function SetSizeAndTime(items: Items, id: Id, o: Observed): Items {
    if id in items then items[id := items[id].(size := o.size, mtime := o.mtime)] else items
  }

  function RowFor(pid: Id, p: Path, o: Observed): Row
    requires p != []
  {
    Row(pid, p, Base(p), o.isDir, o.size, o.mtime, o.ino, o.dev)
  }

  /** The two UPDATE statements of movePath: the row itself, then every path the LIKE selects,
      in the table as the first statement leaves it. */
  ghost function Relocate(items: Items, id: Id, src: Path, dst: Path, newParent: Id): Items
    requires dst != []
  {
    var moved := if id in items
                 then items[id := items[id].(path := dst, name := Base(dst), parent := newParent)]
                 else items;
    map i | i in moved ::
      if Selects(src, moved[i].path) then moved[i].(path := Rebase(moved[i].path, src, dst)) else moved[i]
  }

  ghost function MovePath(c: Cat, id: Id, src: Path, dst: Path, newParent: Id, now: int): Cat
    requires dst != []
  {
    Journal(c.(items := Relocate(c.items, id, src, dst, newParent)), Moved, id, dst, src, now)
  }

  // ---- deletion, deepest rows first ------------------------------------------------

  /** The rows the LIKE of deleteSubtree selects. */
  ghost function Subtree(items: Items, p: Path): set<Id> {
    set i | i in items && Selects(p, items[i].path)
  }

  /** ORDER BY length(path) DESC; ties, which SQL leaves open, go by age of the id. */
  predicate Precedes(items: Items, i: Id, j: Id)
    requires i in items && j in items
  {
    var li, lj := |Slashed(items[i].path)|, |Slashed(items[j].path)|;
    li > lj || (li == lj && (i == j || i.Root? || (j.Minted? && i.n < j.n)))
  }

  lemma PrecedesIsOrder(items: Items, i: Id, j: Id, k: Id)
    requires i in items && j in items && k in items
    ensures Precedes(items, i, i)
    ensures Precedes(items, i, j) || Precedes(items, j, i)
    ensures Precedes(items, i, j) && Precedes(items, j, k) ==> Precedes(items, i, k)
  {
  }

  lemma {:induction false} FirstExists(items: Items, s: set<Id>)
    requires s != {} && s <= items.Keys
    ensures exists i :: i in s && forall j | j in s :: Precedes(items, i, j)
  {
    var x :| x in s;
    if s == {x} {
      PrecedesIsOrder(items, x, x, x);
    } else {
      FirstExists(items, s - {x});
      var i :| i in s - {x} && forall j | j in s - {x} :: Precedes(items, i, j);
      PrecedesIsOrder(items, x, i, x);
      var best := if Precedes(items, x, i) then x else i;
      forall j | j in s ensures Precedes(items, best, j) {
        PrecedesIsOrder(items, x, i, j);
      }
    }
  }

  ghost function First(items: Items, s: set<Id>): (i: Id)
    requires s != {} && s <= items.Keys
    ensures i in s && forall j | j in s :: Precedes(items, i, j)
  {
    FirstExists(items, s);
    var i :| i in s && forall j | j in s :: Precedes(items, i, j); i
  }

  datatype Sub = Sub(id: Id, path: Path)

  ghost function DeepestFirst(items: Items, s: set<Id>): seq<Sub>
    requires s <= items.Keys
    decreases |s|
  {
    if s == {} then []
    else
      var i := First(items, s);
      [Sub(i, items[i].path)] + DeepestFirst(items, s - {i})
  }

  ghost function DeleteEach(c: Cat, subs: seq<Sub>, now: int): Cat
    decreases |subs|
  {
    if subs == [] then c
    else DeleteEach(Journal(c.(items := c.items - {subs[0].id}), Deleted, subs[0].id, subs[0].path, [], now), subs[1..], now)
  }

  ghost function DeleteSubtree(c: Cat, id: Id, p: Path, now: int): Cat {
    var d := DeleteEach(c, DeepestFirst(c.items, Subtree(c.items, p)), now);
    Journal(d.(items := d.items - {id}), Deleted, id, p, [], now)
  }

  // ---- transactions -------------------------------------------------------------

  ghost function EnsurePath(c: Cat, dir: Path): (c': Cat)
    ensures dir == [] || Indexed(c'.items, dir)
    decreases |dir|
  {
    if dir == [] then c
    else
      var c1 := EnsurePath(c, Parent(dir));
      if Indexed(c1.items, dir) then c1
      else
        var c2 := InsertRow(c1, Row(IdAt(c1.items, Parent(dir)), dir, Base(dir), true, 0, 0, 0, 0));
        assert c2.items[Minted(c1.minted)].path == dir;
        c2
  }

  /** Write-through of one path; the second result is its id. */
  ghost function Upsert(c: Cat, p: Path, o: Observed, now: int): (Cat, Id) {
    var c1 := if p == [] then c else EnsurePath(c, Parent(p));
    if p == [] || Indexed(c1.items, p) then
      var id := IdAt(c1.items, p);
      (Journal(c1.(items := SetStat(c1.items, id, o)), Upserted, id, p, [], now), id)
    else
      var id := Minted(c1.minted);
      (Journal(InsertRow(c1, RowFor(IdAt(c1.items, Parent(p)), p, o)), Upserted, id, p, [], now), id)
  }

  ghost function Delete(c: Cat, p: Path, now: int): Cat {
    if p != [] && !Indexed(c.items, p) then c else DeleteSubtree(c, IdAt(c.items, p), p, now)
  }

  /** Move up to the point where the constraint on paths is checked. */
  ghost function MoveTried(c: Cat, src: Path, dst: Path, now: int): Cat
    requires dst != []
  {
    if src == [] || !Indexed(c.items, src) then c
    else
      var id := IdAt(c.items, src);
      var c1 := EnsurePath(c, Parent(dst));
      var newParent := IdAt(c1.items, Parent(dst));
      var c2 := if Indexed(c1.items, dst) && IdAt(c1.items, dst) != id
                then DeleteSubtree(c1, IdAt(c1.items, dst), dst, now) else c1;
      MovePath(c2, id, src, dst, newParent, now)
  }

  /** The update is refused if it gives two rows the same path. */
  ghost predicate MoveAccepted(c: Cat, src: Path, dst: Path, now: int)
    requires dst != []
  {
    UniquePaths(MoveTried(c, src, dst, now).items)
  }

  /** A refused move is rolled back to where its transaction began. */
  ghost function Move(c: Cat, src: Path, dst: Path, now: int): Cat
    requires dst != []
  {
    if MoveAccepted(c, src, dst, now) then MoveTried(c, src, dst, now) else EnsurePath(c, Parent(dst))
  }

  ghost function MarkBootstrapped(c: Cat, now: int): Cat {
    Journal(c, Upserted, Root, [], [], now)
  }

  /** DELETE FROM changes WHERE ts < cut. */
  ghost function Pruned(journal: seq<Change>, cut: int): seq<Change> {
    if journal == [] then []
    else (if journal[0].ts < cut then [] else [journal[0]]) + Pruned(journal[1..], cut)
  }

  ghost function Prune(c: Cat, cut: int): Cat {
    c.(journal := Pruned(c.journal, cut))
  }

  // ---- reconciling one directory ----------------------------------------------------

  /** What stays fixed while one directory is reconciled: the directory and its id, the
      children known beforehand with their rows, and the order `missing` lists them in. */
  datatype Task = Task(dir: Path, pid: Id, known: map<Name, Id>, was: Items, missing: seq<Name>, now: int)

  /** The loop state; `ok` is lost when an update is refused.  `dest` is for the proofs only:
      where each known name is now. */
  datatype Progress = Progress(c: Cat, seen: set<Name>, ids: map<Name, Id>, dest: map<Name, Name>, ok: bool)

  predicate SameInode(r: Row, o: Observed) {
    o.ino != 0 && r.ino == o.ino && r.dev == o.dev && r.isDir == o.isDir
  }

  /** The first known name, in the order of `missing`, not seen so far and with o's inode. */
  ghost function Candidate(t: Task, missing: seq<Name>, seen: set<Name>, o: Observed): (r: Option<Name>)
    ensures r.Some? ==> r.value in missing && r.value !in seen && r.value in t.known
                        && t.known[r.value] in t.was && SameInode(t.was[t.known[r.value]], o)
    ensures r.None? ==> forall n | n in missing && n in t.known && t.known[n] in t.was :: n in seen || !SameInode(t.was[t.known[n]], o)
    decreases |missing|
  {
    if missing == [] then None
    else
      var n := missing[0];
      if n !in seen && n in t.known && t.known[n] in t.was && SameInode(t.was[t.known[n]], o) then Some(n)
      else Candidate(t, missing[1..], seen, o)
  }

  predicate Differs(r: Row, o: Observed) {
    r.isDir != o.isDir || r.size != o.size || r.mtime != o.mtime
  }

  ghost function Observe(s: Progress, o: Observed, t: Task): Progress {
    var seen := s.seen + {o.name};
    var p := t.dir + [o.name];
    if o.name in t.known then
      var id := t.known[o.name];
      var c := if id in t.was && Differs(t.was[id], o)
               then JournalUpsert(s.c.(items := SetStat(s.c.items, id, o)), id, p, t.now) else s.c;
      s.(c := c, seen := seen, ids := s.ids[o.name := id])
    else
      var m := if o.ino != 0 then Candidate(t, t.missing, seen, o) else None;
      if m.Some? then
        var id := t.known[m.value];
        var c := MovePath(s.c, id, t.dir + [m.value], p, t.pid, t.now);
        Progress(c.(items := SetSizeAndTime(c.items, id, o)), seen + {m.value}, s.ids[o.name := id], s.dest[m.value := o.name],
                 s.ok && UniquePaths(c.items))
      else
        var id := Minted(s.c.minted);
        s.(c := JournalUpsert(InsertRow(s.c, RowFor(t.pid, p, o)), id, p, t.now), seen := seen, ids := s.ids[o.name := id])
  }

  ghost function ObserveAll(s: Progress, observed: seq<Observed>, t: Task): Progress
    decreases |observed|
  {
    if observed == [] then s else ObserveAll(Observe(s, observed[0], t), observed[1..], t)
  }

  ghost function Drop(s: Progress, n: Name, t: Task): Progress {
    if n in s.seen || n !in t.known then s
    else s.(c := DeleteSubtree(s.c, t.known[n], t.dir + [n], t.now), dest := s.dest - {n})
  }

  ghost function DropAll(s: Progress, missing: seq<Name>, t: Task): Progress
    decreases |missing|
  {
    if missing == [] then s else DropAll(Drop(s, missing[0], t), missing[1..], t)
  }

  ghost function TaskFor(c: Cat, dir: Path, missing: seq<Name>, now: int): Task
    requires dir == [] || Indexed(c.items, dir)
  {
    var pid := IdAt(c.items, dir);
    Task(dir, pid, Known(c.items, pid), c.items, missing, now)
  }

  function Start(c: Cat, known: map<Name, Id>): Progress {
    Progress(c, {}, map[], map n | n in known :: n, true)
  }

  /** The catalogue in which the transaction of Reconcile begins. */
  ghost function Entered(c: Cat, dir: Path): (c1: Cat)
    ensures dir == [] || Indexed(c1.items, dir)
  {
    if dir == [] || Indexed(c.items, dir) then c else EnsurePath(c, dir)
  }

  /** Reconcile of an entered directory: the final loop state holds the catalogue and ids. */
  ghost function Reconciled(c: Cat, dir: Path, observed: seq<Observed>, missing: seq<Name>, now: int): Progress
    requires dir == [] || Indexed(c.items, dir)
  {
    var t := TaskFor(c, dir, missing, now);
    DropAll(ObserveAll(Start(c, t.known), observed, t), missing, t)
  }

  /** If an update is refused the transaction is rolled back and there are no ids. */
  ghost function Reconcile(c: Cat, dir: Path, observed: seq<Observed>, missing: seq<Name>, now: int): (Cat, map<Name, Id>) {
    var a := Entered(c, dir);
    var s := Reconciled(a, dir, observed, missing, now);
    if s.ok then (s.c, s.ids) else (a.(minted := s.c.minted), map[])
  }
}
