/** The paginated change walk: a page is a stretch of one unbounded walk, whatever subtrees it
    skips to get there. */
module ChangesWalk {
  import opened Paths
  import opened Catalogue
  import opened WalkOrder

  datatype Node = File(mtime: int, regular: bool) | Dir(mtime: int, kids: Forest)
  datatype Forest = Nil | Cons(name: Name, node: Node, rest: Forest)

  /** One call of the walk's callback. */
  datatype Hit = Hit(path: Path, isDir: bool, regular: bool, mtime: int)

  function HitOf(p: Path, node: Node): Hit {
    Hit(p, node.Dir?, node.File? && node.regular, node.mtime)
  }

  /** The unbounded walk: a directory, then its entries in order. */
  function Walk(p: Path, node: Node): seq<Hit>
    decreases node, 1
  {
    [HitOf(p, node)] + if node.Dir? then WalkAll(p, node.kids) else []
  }

  function WalkAll(p: Path, kids: Forest): seq<Hit>
    decreases kids, 0
  {
    match kids
    case Nil => []
    case Cons(n, node, rest) => Walk(p + [n], node) + WalkAll(p, rest)
  }

  /** Directory listings are sorted by name. */
  predicate Sorted(node: Node) {
    node.Dir? ==> SortedAll(node.kids)
  }

  predicate SortedAll(kids: Forest) {
    match kids
    case Nil => true
    case Cons(n, node, rest) =>
      Sorted(node) && SortedAll(rest) && (rest.Cons? ==> CompareNames(n, rest.name) < 0)
  }

  // ---- the walk visits paths in the order of WalkCompare ----------------------------------------

  predicate InOrder(hits: seq<Hit>) {
    forall i, j | 0 <= i < j < |hits| :: WalkCompare(hits[i].path, hits[j].path) < 0
  }

  lemma {:induction false} WalkWithin(p: Path, node: Node)
    ensures forall i | 0 <= i < |Walk(p, node)| :: Within(p, Walk(p, node)[i].path) && (i > 0 ==> Below(p, Walk(p, node)[i].path))
    decreases node, 1
  {
    if node.Dir? {
      WalkAllBelow(p, node.kids);
    }
  }

  lemma {:induction false} WalkAllBelow(p: Path, kids: Forest)
    ensures forall i | 0 <= i < |WalkAll(p, kids)| :: Below(p, WalkAll(p, kids)[i].path)
    decreases kids
  {
    if kids.Cons? {
      WalkWithin(p + [kids.name], kids.node);
      WalkAllBelow(p, kids.rest);
      forall i | 0 <= i < |Walk(p + [kids.name], kids.node)| ensures Below(p, Walk(p + [kids.name], kids.node)[i].path) {
        var q := Walk(p + [kids.name], kids.node)[i].path;
        assert q[..|p|] == q[..|p| + 1][..|p|];
      }
    }
  }

  /** All entries of a sorted forest lie under its first name or a later one. */
  lemma {:induction false} LaterSiblings(p: Path, kids: Forest, m: Name, q: Path)
    requires kids.Cons? && SortedAll(kids) && CompareNames(m, kids.name) < 0 && Within(p + [m], q)
    ensures forall i | 0 <= i < |WalkAll(p, kids)| :: WalkCompare(q, WalkAll(p, kids)[i].path) < 0
    decreases kids
  {
    var n := kids.name;
    WalkWithin(p + [n], kids.node);
    forall i | 0 <= i < |Walk(p + [n], kids.node)| ensures WalkCompare(q, Walk(p + [n], kids.node)[i].path) < 0 {
      var r := Walk(p + [n], kids.node)[i].path;
      SiblingsDecide(p, m, n, q[|p| + 1..], r[|p| + 1..]);
      assert q == p + [m] + q[|p| + 1..] && r == p + [n] + r[|p| + 1..];
    }
    if kids.rest.Cons? {
      NamesTransitive(m, n, kids.rest.name);
      LaterSiblings(p, kids.rest, m, q);
    }
  }

  lemma {:induction false} WalkInOrder(p: Path, node: Node)
    requires Sorted(node)
    ensures InOrder(Walk(p, node))
    decreases node, 1
  {
    if node.Dir? {
      WalkAllInOrder(p, node.kids);
      WalkAllBelow(p, node.kids);
      forall j | 0 <= j < |WalkAll(p, node.kids)| ensures WalkCompare(p, WalkAll(p, node.kids)[j].path) < 0 {
        AncestorFirst(p, WalkAll(p, node.kids)[j].path);
      }
    }
  }

  lemma {:induction false} WalkAllInOrder(p: Path, kids: Forest)
    requires SortedAll(kids)
    ensures InOrder(WalkAll(p, kids))
    decreases kids
  {
    if kids.Cons? {
      var first, rest := Walk(p + [kids.name], kids.node), WalkAll(p, kids.rest);
      WalkInOrder(p + [kids.name], kids.node);
      WalkAllInOrder(p, kids.rest);
      WalkWithin(p + [kids.name], kids.node);
      forall i, j | 0 <= i < |first| && 0 <= j < |rest| ensures WalkCompare(first[i].path, rest[j].path) < 0 {
        LaterSiblings(p, kids.rest, kids.name, first[i].path);
      }
    }
  }

  // ---- the walk visits the whole tree, each thing once -------------------------------------------

  /** What the tree has at a path below it. */
  function Find(node: Node, rel: Path): Option<Node>
    decreases node, 1
  {
    if rel == [] then Some(node) else if node.Dir? then FindIn(node.kids, rel) else None
  }

  function FindIn(kids: Forest, rel: Path): Option<Node>
    requires rel != []
    decreases kids, 0
  {
    match kids
    case Nil => None
    case Cons(n, node, rest) => if rel[0] == n then Find(node, rel[1..]) else FindIn(rest, rel)
  }

  /** The hit has the kind and the time of the node. */
  predicate Shows(h: Hit, node: Node) {
    h.isDir == node.Dir? && h.regular == (node.File? && node.regular) && h.mtime == node.mtime
  }

  predicate HasName(kids: Forest, n: Name) {
    kids.Cons? && (kids.name == n || HasName(kids.rest, n))
  }

  lemma {:induction false} NamesApart(kids: Forest, m: Name)
    requires SortedAll(kids) && (kids.Cons? ==> CompareNames(m, kids.name) < 0)
    ensures !HasName(kids, m)
  {
    if kids.Cons? {
      NamesAntisymmetric(m, m);
      if kids.rest.Cons? {
        NamesTransitive(m, kids.name, kids.rest.name);
      }
      NamesApart(kids.rest, m);
    }
  }

  lemma {:induction false} FoundHasName(kids: Forest, rel: Path)
    requires rel != [] && FindIn(kids, rel).Some?
    ensures HasName(kids, rel[0])
    decreases kids
  {
    if rel[0] != kids.name {
      FoundHasName(kids.rest, rel);
    }
  }

  /** Every hit is something the tree has, with its kind and time. */
  lemma {:induction false} HitIsFound(p: Path, node: Node, i: nat)
    requires Sorted(node) && i < |Walk(p, node)|
    ensures var q := Walk(p, node)[i].path;
            Within(p, q) && Find(node, q[|p|..]).Some? && Shows(Walk(p, node)[i], Find(node, q[|p|..]).value)
    decreases node, 1
  {
    WalkWithin(p, node);
    if i == 0 {
      assert p[|p|..] == [];
    } else {
      HitIsFoundIn(p, node.kids, i - 1);
    }
  }

  lemma {:induction false} HitIsFoundIn(p: Path, kids: Forest, i: nat)
    requires SortedAll(kids) && i < |WalkAll(p, kids)|
    ensures var q := WalkAll(p, kids)[i].path;
            Below(p, q) && FindIn(kids, q[|p|..]).Some? && Shows(WalkAll(p, kids)[i], FindIn(kids, q[|p|..]).value)
    decreases kids, 0
  {
    WalkAllBelow(p, kids);
    var first := Walk(p + [kids.name], kids.node);
    var q := WalkAll(p, kids)[i].path;
    if i < |first| {
      HitIsFound(p + [kids.name], kids.node, i);
      assert q[..|p| + 1][|p|] == kids.name;
      assert q[|p|..][1..] == q[|p| + 1..];
    } else {
      HitIsFoundIn(p, kids.rest, i - |first|);
      FoundHasName(kids.rest, q[|p|..]);
      NamesApart(kids.rest, kids.name);
    }
  }

  /** Everything the tree has is hit. */
  lemma {:induction false} FoundIsHit(p: Path, node: Node, rel: Path) returns (i: nat)
    requires Find(node, rel).Some?
    ensures i < |Walk(p, node)| && Walk(p, node)[i].path == p + rel
    decreases node, 1
  {
    if rel == [] {
      i := 0;
      assert p + rel == p;
    } else {
      i := FoundIsHitIn(p, node.kids, rel);
      i := i + 1;
    }
  }

  lemma {:induction false} FoundIsHitIn(p: Path, kids: Forest, rel: Path) returns (i: nat)
    requires rel != [] && FindIn(kids, rel).Some?
    ensures i < |WalkAll(p, kids)| && WalkAll(p, kids)[i].path == p + rel
    decreases kids, 0
  {
    var first := Walk(p + [kids.name], kids.node);
    if rel[0] == kids.name {
      i := FoundIsHit(p + [kids.name], kids.node, rel[1..]);
      assert p + [kids.name] + rel[1..] == p + rel;
    } else {
      i := FoundIsHitIn(p, kids.rest, rel);
      i := |first| + i;
    }
  }

  /** The walk hits exactly what the tree has, each thing once, with its kind and time. */
  lemma WalkIsExact(base: Path, tree: Node, rel: Path)
    requires Sorted(tree)
    ensures Find(tree, rel).Some? <==> exists i :: 0 <= i < |Walk(base, tree)| && Walk(base, tree)[i].path == base + rel
    ensures forall i | 0 <= i < |Walk(base, tree)| && Walk(base, tree)[i].path == base + rel ::
              Find(tree, rel).Some? && Shows(Walk(base, tree)[i], Find(tree, rel).value)
    ensures forall i, j | 0 <= i < j < |Walk(base, tree)| :: Walk(base, tree)[i].path != Walk(base, tree)[j].path
  {
    if Find(tree, rel).Some? {
      var i := FoundIsHit(base, tree, rel);
    }
    forall i | 0 <= i < |Walk(base, tree)| && Walk(base, tree)[i].path == base + rel
      ensures Find(tree, rel).Some? && Shows(Walk(base, tree)[i], Find(tree, rel).value)
    {
      HitIsFound(base, tree, i);
      assert (base + rel)[|base|..] == rel;
    }
    WalkInOrder(base, tree);
    OrderedApart(Walk(base, tree));
  }

  lemma OrderedApart(hits: seq<Hit>)
    requires InOrder(hits)
    ensures forall i, j | 0 <= i < j < |hits| :: hits[i].path != hits[j].path
  {
    forall i, j | 0 <= i < j < |hits| ensures hits[i].path != hits[j].path {
      CompareAntisymmetric(hits[i].path, hits[i].path);
    }
  }

  // ---- what a page reports -----------------------------------------------------------------------

  /** Entries after the resume point. */
  function Later(hits: seq<Hit>, after: Option<Path>): seq<Hit> {
    if hits == [] then []
    else (if after.None? || WalkCompare(hits[0].path, after.value) > 0 then [hits[0]] else []) + Later(hits[1..], after)
  }

  function NewDirs(hits: seq<Hit>, since: int): seq<Path> {
    if hits == [] then []
    else (if hits[0].mtime > since && hits[0].isDir then [hits[0].path] else []) + NewDirs(hits[1..], since)
  }

  function NewFiles(hits: seq<Hit>, since: int): seq<Path> {
    if hits == [] then []
    else (if hits[0].mtime > since && !hits[0].isDir && hits[0].regular then [hits[0].path] else []) + NewFiles(hits[1..], since)
  }

  /** The tree has a directory there that was modified after `since`. */
  predicate IsNewDir(tree: Node, rel: Path, since: int) {
    var f := Find(tree, rel); f.Some? && f.value.Dir? && f.value.mtime > since
  }

  /** The tree has a regular file there that was modified after `since`. */
  predicate IsNewFile(tree: Node, rel: Path, since: int) {
    var f := Find(tree, rel); f.Some? && f.value.File? && f.value.regular && f.value.mtime > since
  }

  predicate Ascending(paths: seq<Path>) {
    forall i, j | 0 <= i < j < |paths| :: WalkCompare(paths[i], paths[j]) < 0
  }

  lemma {:induction false} NewAre(hits: seq<Hit>, since: int, p: Path)
    ensures p in NewDirs(hits, since) <==> exists i :: 0 <= i < |hits| && hits[i].path == p && hits[i].isDir && hits[i].mtime > since
    ensures p in NewFiles(hits, since)
            <==> exists i :: 0 <= i < |hits| && hits[i].path == p && !hits[i].isDir && hits[i].regular && hits[i].mtime > since
    decreases |hits|
  {
    if hits != [] {
      var rest := hits[1..];
      NewAre(rest, since, p);
      forall i | 0 <= i < |rest| ensures rest[i] == hits[i + 1] {
      }
      forall i | 0 < i < |hits| ensures hits[i] == rest[i - 1] {
      }
    }
  }

  lemma {:induction false} NewAscend(hits: seq<Hit>, since: int)
    requires InOrder(hits)
    ensures Ascending(NewDirs(hits, since)) && Ascending(NewFiles(hits, since))
    decreases |hits|
  {
    if hits != [] {
      var rest := hits[1..];
      NewAscend(rest, since);
      forall p | p in NewDirs(rest, since) || p in NewFiles(rest, since) ensures WalkCompare(hits[0].path, p) < 0 {
        NewAre(rest, since, p);
      }
    }
  }

  /** The reported paths: exactly what is new in the tree, in order, once each. */
  ghost predicate ReportsNew(dirs: seq<Path>, files: seq<Path>, base: Path, tree: Node, since: int) {
    && Ascending(dirs) && Ascending(files)
    && (forall p | p in dirs || p in files :: Within(base, p))
    && (forall rel: Path :: base + rel in dirs <==> IsNewDir(tree, rel, since))
    && (forall rel: Path :: base + rel in files <==> IsNewFile(tree, rel, since))
  }

  lemma WalkReportsNew(base: Path, tree: Node, since: int)
    requires Sorted(tree)
    ensures ReportsNew(NewDirs(Walk(base, tree), since), NewFiles(Walk(base, tree), since), base, tree, since)
  {
    var hits := Walk(base, tree);
    var dirs, files := NewDirs(hits, since), NewFiles(hits, since);
    WalkInOrder(base, tree);
    NewAscend(hits, since);
    WalkWithin(base, tree);
    forall p | p in dirs || p in files ensures Within(base, p) {
      NewAre(hits, since, p);
    }
    forall rel: Path ensures base + rel in dirs <==> IsNewDir(tree, rel, since) {
      WalkIsExact(base, tree, rel);
      NewAre(hits, since, base + rel);
    }
    forall rel: Path ensures base + rel in files <==> IsNewFile(tree, rel, since) {
      WalkIsExact(base, tree, rel);
      NewAre(hits, since, base + rel);
    }
  }

  /** When a page ends: after `limit` entries, or when the deadline has passed as the n-th entry
      is counted. */
  datatype Budget = Budget(limit: nat, late: nat -> bool)

  predicate Over(b: Budget, n: nat) {
    n > b.limit || b.late(n)
  }

  datatype Response = Response(dirs: seq<Path>, files: seq<Path>, truncated: bool, next: Option<Path>, last: Option<Path>, scanned: nat)

  const Blank := Response([], [], false, None, None, 0)

  function Count(s: Response, h: Hit, since: int, b: Budget): Response {
    if Over(b, s.scanned + 1) then s.(scanned := s.scanned + 1, truncated := true, next := s.last)
    else s.(scanned := s.scanned + 1, last := Some(h.path),
            dirs := s.dirs + NewDirs([h], since), files := s.files + NewFiles([h], since))
  }

  /** Counting entries until the budget is used up. */
  function CountAll(s: Response, hits: seq<Hit>, since: int, b: Budget): Response
    decreases |hits|
  {
    if s.truncated || hits == [] then s else CountAll(Count(s, hits[0], since, b), hits[1..], since, b)
  }

  lemma {:induction false} CountSplit(s: Response, first: seq<Hit>, second: seq<Hit>, since: int, b: Budget)
    ensures CountAll(s, first + second, since, b) == CountAll(CountAll(s, first, since, b), second, since, b)
    decreases |first|
  {
    if first == [] {
      assert first + second == second;
    } else if !s.truncated {
      assert (first + second)[1..] == first[1..] + second;
      CountSplit(Count(s, first[0], since, b), first[1..], second, since, b);
    }
  }

  lemma {:induction false} LaterSplit(first: seq<Hit>, second: seq<Hit>, after: Option<Path>)
    ensures Later(first + second, after) == Later(first, after) + Later(second, after)
    decreases |first|
  {
    if first == [] {
      assert first + second == second;
    } else {
      assert (first + second)[1..] == first[1..] + second;
      LaterSplit(first[1..], second, after);
    }
  }

  lemma {:induction false} NothingLater(hits: seq<Hit>, after: Path)
    requires forall i | 0 <= i < |hits| :: WalkCompare(hits[i].path, after) <= 0
    ensures Later(hits, Some(after)) == []
    decreases |hits|
  {
    if hits != [] {
      NothingLater(hits[1..], after);
    }
  }

  /** A subtree that is skipped contains nothing after the resume point. */
  lemma SkippedSubtree(p: Path, node: Node, after: Path)
    requires WalkCompare(p, after) <= 0
    requires node.Dir? ==> p != after && !Below(p, after)
    ensures Later(Walk(p, node), Some(after)) == []
  {
    var hits := Walk(p, node);
    WalkWithin(p, node);
    WithinCases(p, after);
    forall i | 0 <= i < |hits| ensures WalkCompare(hits[i].path, after) <= 0 {
      if node.Dir? {
        SubtreeBefore(p, hits[i].path[|p|..], after);
        assert hits[i].path == p + hits[i].path[|p|..];
      }
    }
    NothingLater(hits, after);
  }

  // ---- the handler's walk --------------------------------------------------------------------------

  datatype Action = Continue | SkipDir | SkipAll

  lemma NewOne(dirs: seq<Path>, files: seq<Path>, h: Hit, since: int)
    ensures dirs + NewDirs([h], since) == if h.mtime > since && h.isDir then dirs + [h.path] else dirs
    ensures files + NewFiles([h], since) == if h.mtime > since && !h.isDir && h.regular then files + [h.path] else files
  {
  }

  class PageWalk {
    const since: int
    const after: Option<Path>
    const budget: Budget
    var resp: Response

    constructor (since: int, after: Option<Path>, budget: Budget)
      ensures this.since == since && this.after == after && this.budget == budget && resp == Blank
    {
      this.since, this.after, this.budget, this.resp := since, after, budget, Blank;
    }

    method Visit(h: Hit) returns (act: Action)
      requires !resp.truncated
      modifies this
      ensures after.Some? && WalkCompare(h.path, after.value) <= 0 ==>
                resp == old(resp) && act == if h.isDir && h.path != after.value && !Below(h.path, after.value) then SkipDir else Continue
      ensures after.None? || WalkCompare(h.path, after.value) > 0 ==>
                resp == Count(old(resp), h, since, budget) && act == if resp.truncated then SkipAll else Continue
    {
      if after.Some? && WalkCompare(h.path, after.value) <= 0 {
        if h.isDir && (h.path == after.value || Below(h.path, after.value)) {
          return Continue;
        }
        if h.isDir {
          return SkipDir;
        }
        return Continue;
      }
      resp := resp.(scanned := resp.scanned + 1);
      if resp.scanned > budget.limit || budget.late(resp.scanned) {
        resp := resp.(truncated := true, next := resp.last);
        return SkipAll;
      }
      NewOne(resp.dirs, resp.files, h, since);
      resp := resp.(last := Some(h.path));
      if h.mtime <= since {
        return Continue;
      }
      if h.isDir {
        resp := resp.(dirs := resp.dirs + [h.path]);
      } else if h.regular {
        resp := resp.(files := resp.files + [h.path]);
      }
      return Continue;
    }

    /** Skipping subtrees changes nothing: the page counts the entries after the resume point. */
    method WalkNode(p: Path, node: Node)
      requires !resp.truncated
      modifies this
      ensures resp == CountAll(old(resp), Later(Walk(p, node), after), since, budget)
      decreases node, 1
    {
      var h := HitOf(p, node);
      LaterSplit([h], if node.Dir? then WalkAll(p, node.kids) else [], after);
      if after.Some? && WalkCompare(p, after.value) <= 0 && !(node.Dir? && (p == after.value || Below(p, after.value))) {
        SkippedSubtree(p, node, after.value);
      }
      ghost var before := resp;
      var act := Visit(h);
      if act == Continue {
        ghost var mid := resp;
        assert mid == CountAll(before, Later([h], after), since, budget);
        if node.Dir? {
          WalkKids(p, node.kids);
          CountSplit(before, Later([h], after), Later(WalkAll(p, node.kids), after), since, budget);
        }
      } else if act == SkipAll {
        assert resp == CountAll(before, Later([h], after), since, budget);
        CountSplit(before, Later([h], after), Later(if node.Dir? then WalkAll(p, node.kids) else [], after), since, budget);
      }
    }

    method WalkKids(p: Path, kids: Forest)
      requires !resp.truncated
      modifies this
      ensures resp == CountAll(old(resp), Later(WalkAll(p, kids), after), since, budget)
      decreases kids
    {
      if kids.Cons? {
        ghost var before := resp;
        ghost var first, second := Walk(p + [kids.name], kids.node), WalkAll(p, kids.rest);
        LaterSplit(first, second, after);
        CountSplit(before, Later(first, after), Later(second, after), since, budget);
        WalkNode(p + [kids.name], kids.node);
        if !resp.truncated {
          WalkKids(p, kids.rest);
        }
      }
    }
  }

  // ---- pages add up ----------------------------------------------------------------------------------

  lemma {:induction false} NewSplit(first: seq<Hit>, second: seq<Hit>, since: int)
    ensures NewDirs(first + second, since) == NewDirs(first, since) + NewDirs(second, since)
    ensures NewFiles(first + second, since) == NewFiles(first, since) + NewFiles(second, since)
    decreases |first|
  {
    if first == [] {
      assert first + second == second;
    } else {
      var h := first[0];
      var d := if h.mtime > since && h.isDir then [h.path] else [];
      var f := if h.mtime > since && !h.isDir && h.regular then [h.path] else [];
      assert (first + second)[1..] == first[1..] + second;
      NewSplit(first[1..], second, since);
      Associate(d, NewDirs(first[1..], since), NewDirs(second, since));
      Associate(f, NewFiles(first[1..], since), NewFiles(second, since));
    }
  }

  lemma Associate(a: seq<Path>, b: seq<Path>, c: seq<Path>)
    ensures a + (b + c) == a + b + c
  {
  }

  /** What a page has counted when it stops, why it stops, and where it tells the client to go on. */
  lemma {:induction false} PageIs(s: Response, hits: seq<Hit>, since: int, b: Budget) returns (k: nat)
    requires !s.truncated
    ensures k <= |hits|
    ensures var r := CountAll(s, hits, since, b);
            && r.dirs == s.dirs + NewDirs(hits[..k], since) && r.files == s.files + NewFiles(hits[..k], since)
            && (r.truncated <==> k < |hits|)
            && (r.truncated ==> r.next == if k > 0 then Some(hits[k - 1].path) else s.last)
            && (hits != [] ==> (k == 0 <==> Over(b, s.scanned + 1)))
            && (k > 0 ==> s.scanned + k <= b.limit) && (forall n: nat | s.scanned < n <= s.scanned + k :: !b.late(n))
            && (r.truncated ==> s.scanned + k >= b.limit || b.late(s.scanned + k + 1))
    decreases |hits|
  {
    if hits == [] || Over(b, s.scanned + 1) {
      k := 0;
      assert hits != [] ==> CountAll(s, hits, since, b) == Count(s, hits[0], since, b);
    } else {
      var k' := PageIs(Count(s, hits[0], since, b), hits[1..], since, b);
      k := k' + 1;
      FirstAndRest(hits, k, since);
      Associate(s.dirs, NewDirs([hits[0]], since), NewDirs(hits[1..][..k'], since));
      Associate(s.files, NewFiles([hits[0]], since), NewFiles(hits[1..][..k'], since));
    }
  }

  lemma FirstAndRest(hits: seq<Hit>, k: nat, since: int)
    requires 0 < k <= |hits|
    ensures NewDirs(hits[..k], since) == NewDirs([hits[0]], since) + NewDirs(hits[1..][..k - 1], since)
    ensures NewFiles(hits[..k], since) == NewFiles([hits[0]], since) + NewFiles(hits[1..][..k - 1], since)
    ensures k > 1 ==> hits[1..][k - 2] == hits[k - 1]
  {
    assert hits[..k] == [hits[0]] + hits[1..][..k - 1];
    NewSplit([hits[0]], hits[1..][..k - 1], since);
  }

  lemma {:induction false} LaterIsSuffix(hits: seq<Hit>, after: Path, k: nat)
    requires InOrder(hits) && k < |hits| && hits[k].path == after
    ensures Later(hits, Some(after)) == hits[k + 1..]
    decreases |hits|
  {
    if k > 0 {
      assert WalkCompare(hits[0].path, after) < 0;
      LaterIsSuffix(hits[1..], after, k - 1);
      assert hits[1..][k..] == hits[k + 1..];
    } else {
      forall i | 0 <= i < |hits| - 1 ensures WalkCompare(hits[1..][i].path, after) > 0 {
        CompareAntisymmetric(hits[0].path, hits[i + 1].path);
      }
      AllLater(hits[1..], after);
    }
  }

  lemma {:induction false} AllLater(hits: seq<Hit>, after: Path)
    requires forall i | 0 <= i < |hits| :: WalkCompare(hits[i].path, after) > 0
    ensures Later(hits, Some(after)) == hits
    decreases |hits|
  {
    if hits != [] {
      AllLater(hits[1..], after);
    }
  }

  lemma {:induction false} NoneIsAll(hits: seq<Hit>)
    ensures Later(hits, None) == hits
    decreases |hits|
  {
    if hits != [] {
      NoneIsAll(hits[1..]);
    }
  }

  lemma Prefixes(hits: seq<Hit>, done: nat, k: nat)
    requires done + k <= |hits|
    ensures hits[..done + k] == hits[..done] + hits[done..][..k]
    ensures k > 0 ==> hits[done..][k - 1] == hits[done + k - 1]
  {
  }

  /** A page that starts after `done` entries ends at a later one, and says where. */
  lemma PageStep(hits: seq<Hit>, done: nat, since: int, b: Budget, r: Response) returns (done': nat)
    requires InOrder(hits) && done < |hits| && r == CountAll(Blank, hits[done..], since, b) && !Over(b, 1)
    ensures done < done' <= |hits| && (r.truncated <==> done' < |hits|)
    ensures NewDirs(hits[..done], since) + r.dirs == NewDirs(hits[..done'], since)
    ensures NewFiles(hits[..done], since) + r.files == NewFiles(hits[..done'], since)
    ensures r.truncated ==> Later(hits, r.next) == hits[done'..]
  {
    var k := PageIs(Blank, hits[done..], since, b);
    done' := done + k;
    Prefixes(hits, done, k);
    NewSplit(hits[..done], hits[done..][..k], since);
    LaterIsSuffix(hits, hits[done' - 1].path, done' - 1);
  }

  /** Following `next` page after page, each of which counts at least one entry before its
      deadline, ends, and reports exactly what one unbounded walk reports: what is new in the tree, in
      order, once each. */
  method FollowPages(base: Path, tree: Node, since: int, limit: nat, late: (nat, nat) -> bool)
    returns (dirs: seq<Path>, files: seq<Path>, pages: nat)
    requires Sorted(tree) && limit >= 1 && forall n: nat :: !late(n, 1)
    ensures dirs == NewDirs(Walk(base, tree), since)
    ensures files == NewFiles(Walk(base, tree), since)
    ensures ReportsNew(dirs, files, base, tree, since)
    ensures pages <= |Walk(base, tree)|
  {
    ghost var hits := Walk(base, tree);
    ghost var done := 0;
    dirs, files, pages := [], [], 0;
    var after: Option<Path> := None;
    var more := true;
    WalkInOrder(base, tree);
    NoneIsAll(hits);
    while more
      invariant pages <= done <= |hits| && (more ==> done < |hits|)
      invariant !more ==> done == |hits|
      invariant more ==> Later(hits, after) == hits[done..]
      invariant dirs == NewDirs(hits[..done], since) && files == NewFiles(hits[..done], since)
      decreases |hits| - done, more
    {
      var number: nat := pages;
      var page := new PageWalk(since, after, Budget(limit, (n: nat) => late(number, n)));
      page.WalkNode(base, tree);
      ghost var done' := PageStep(hits, done, since, page.budget, page.resp);
      dirs, files, pages := dirs + page.resp.dirs, files + page.resp.files, pages + 1;
      more, after := page.resp.truncated, page.resp.next;
      done := done';
    }
    assert hits[..done] == hits;
    WalkReportsNew(base, tree, since);
  }

  /** A page whose deadline has passed at its first entry reports nothing and names no resume
      point, so that following it starts from the beginning again. */
  lemma LatePageIsStuck(hits: seq<Hit>, since: int, b: Budget)
    requires hits != []
    ensures var r := CountAll(Blank, hits, since, b);
            r.truncated && r.next == None <==> Over(b, 1)
  {
    var k := PageIs(Blank, hits, since, b);
  }
}
