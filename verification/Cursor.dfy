/** The cursor of the legacy feed: taken before the walk, two seconds early, and kept for all
    pages of a scan.  No file modification falls between two scans. */
module Cursor {
  import opened Paths
  import opened Catalogue
  import opened WalkOrder

  /** Two seconds, in nanoseconds. */
  const Lag := 2_000_000_000

  /** `mtime` has the files and their modification times, `at` the path the scan in progress has
      come to (a continuation page resumes after it), `visited` what it has looked at, and
      `present` the files that were there when it began and still are.
      `pending` is for the statement: the files whose last modification has not been reported,
      with the number of scans completed since. */
  datatype World = World(clock: int, mtime: map<Path, int>, scanning: bool, since: int, cursor: int,
                         at: Option<Path>, visited: set<Path>, present: set<Path>, pending: map<Path, nat>)

  datatype Event = Pass(time: nat) | Write(path: Path) | Remove(path: Path)
                 | FirstPage | NextPage | Visit(path: Path) | Finish

  /** The cursor of a page; a continuation passes that of the page before. */
  function PageCursor(clock: int, passed: int): int {
    var c := clock - Lag;
    if 0 < passed < c then passed else c
  }

  predicate Ahead(at: Option<Path>, p: Path) {
    at.None? || WalkCompare(p, at.value) > 0
  }

  /** The walk goes forward, passing over nothing that was there all the time, and ends when
      nothing of that kind is left ahead. */
  predicate Enabled(w: World, e: Event) {
    match e
    case Pass(_) => true
    case Write(_) => true
    case Remove(p) => p in w.mtime
    case FirstPage => !w.scanning
    case NextPage => w.scanning
    case Visit(p) =>
      w.scanning && p in w.mtime && Ahead(w.at, p)
      && forall q | q in w.present && Ahead(w.at, q) :: WalkCompare(q, p) >= 0
    case Finish => w.scanning && forall q | q in w.present :: !Ahead(w.at, q)
  }

  function Next(w: World, e: Event): World
    requires Enabled(w, e)
  {
    match e
    case Pass(t) => w.(clock := w.clock + t)
    case Write(p) => w.(mtime := w.mtime[p := w.clock], pending := w.pending[p := 0])
    case Remove(p) => w.(mtime := w.mtime - {p}, present := w.present - {p}, pending := w.pending - {p})
    case FirstPage => w.(scanning := true, cursor := PageCursor(w.clock, 0), at := None, visited := {}, present := w.mtime.Keys)
    case NextPage => w.(cursor := PageCursor(w.clock, w.cursor))
    case Visit(p) =>
      w.(at := Some(p), visited := w.visited + {p}, pending := if w.mtime[p] > w.since then w.pending - {p} else w.pending)
    case Finish =>
      w.(scanning := false, since := w.cursor, pending := map p | p in w.pending :: w.pending[p] + 1)
  }

  /** An unreported modification will be reported: by the scan in progress if it still has to
      come to the file, else by the next one. */
  predicate WillBeReported(w: World, p: Path)
    requires p in w.pending && p in w.mtime
  {
    && w.mtime[p] > w.since
    && (w.scanning ==>
          if w.pending[p] == 0 then (p in w.present && p !in w.visited) || w.mtime[p] > w.cursor
          else p in w.present && p !in w.visited)
    && w.pending[p] <= 1
  }

  predicate Inv(w: World) {
    && w.clock > Lag
    && w.since < w.clock
    && (w.scanning ==> 0 < w.cursor)
    && (w.scanning ==> w.cursor <= w.clock - Lag)
    && (w.scanning ==> forall q | q in w.present && !Ahead(w.at, q) :: q in w.visited)
    && (w.scanning ==> forall q | q in w.visited :: !Ahead(w.at, q))
    && w.pending.Keys <= w.mtime.Keys
    && (forall p | p in w.pending :: WillBeReported(w, p))
  }

  /** A scan that has run out has looked at everything that was there all the time. */
  lemma FinishedScanIsComplete(w: World)
    requires Inv(w) && Enabled(w, Finish)
    ensures w.present <= w.visited
  {
  }

  /** Continuation pages keep the cursor of the first page. */
  lemma CursorKept(w: World)
    requires Inv(w) && w.scanning
    ensures Next(w, NextPage).cursor == w.cursor
  {
  }

  lemma NextInv(w: World, e: Event)
    requires Inv(w) && Enabled(w, e)
    ensures Inv(Next(w, e))
  {
    var w' := Next(w, e);
    if e.Visit? && w.at.Some? {
      forall q | q in w.visited ensures WalkCompare(q, e.path) <= 0 {
        CompareAntisymmetric(e.path, w.at.value);
        if WalkCompare(q, w.at.value) < 0 {
          CompareTransitive(q, w.at.value, e.path);
        }
      }
    }
    forall p | p in w'.pending ensures WillBeReported(w', p) {
      if p in w.pending {
        assert WillBeReported(w, p);
      }
    }
  }

  predicate RunOk(w: World, run: seq<Event>)
    decreases |run|
  {
    run == [] || (Enabled(w, run[0]) && RunOk(Next(w, run[0]), run[1..]))
  }

  function Run(w: World, run: seq<Event>): World
    requires RunOk(w, run)
    decreases |run|
  {
    if run == [] then w else Run(Next(w, run[0]), run[1..])
  }

  /** In the beginning everything is news: the first scan has since = 0. */
  predicate Initial(w: World) {
    && w.clock > Lag && w.since == 0 && !w.scanning
    && w.pending == (map p | p in w.mtime :: 0)
    && (forall p | p in w.mtime :: 0 < w.mtime[p] <= w.clock)
  }

  /** On every run, a modification still in place that has not been reported yet has seen at
      most one scan complete since it was made. */
  lemma {:induction false} NothingIsLost(w: World, run: seq<Event>)
    requires Inv(w) && RunOk(w, run)
    ensures var w' := Run(w, run);
            Inv(w') && forall p | p in w'.pending :: p in w'.mtime && w'.pending[p] <= 1
    decreases |run|
  {
    if run == [] {
      assert forall p | p in w.pending :: WillBeReported(w, p);
    } else {
      NextInv(w, run[0]);
      NothingIsLost(Next(w, run[0]), run[1..]);
    }
  }

  lemma InitialInv(w: World)
    requires Initial(w)
    ensures Inv(w)
  {
  }
}
