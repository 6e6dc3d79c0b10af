/** Resumable uploads as interleaved steps of concurrent requests.  What one mutex section or
    one system call does is one step; everything else may happen in between. */
module Uploads {
  import opened Paths

  newtype byte = x: int | 0 <= x < 256

  /** An upload object outlives its entry in the store: requests hold pointers to it.  `source`
      is what the client means to send. */
  datatype Upload = Upload(dst: Path, size: nat, source: seq<byte>, offset: nat, expiresAt: int, busy: bool)

  datatype Thread =
    | Idle
    | Appending(k: nat, isOpen: bool, off: nat, written: nat)
    | Finished(k: nat)
    | Committing(k: nat)
    | Renamed(k: nat)
    | Aborting(k: nat)
    | Dropping(k: nat)
    | Sweeping(expired: set<nat>)

  /** `m` has the uploads in the store, `tmp` those whose temporary file still has its name,
      `data` the contents of that file wherever it is, `dst` what is published at a path. */
  datatype Store = Store(clock: int, objs: map<nat, Upload>, m: set<nat>, tmp: set<nat>, data: map<nat, seq<byte>>,
                         dst: map<Path, nat>, committed: set<nat>, removed: set<nat>, threads: map<nat, Thread>)

  datatype Step =
    | Tick(dt: nat)
    | Create(k: nat, path: Path, size: nat, source: seq<byte>, ttl: nat)
    | AppendAcquire(t: nat, k: nat)
    | AppendOpen(t: nat, off: nat)
    | AppendWrite(t: nat, bytes: seq<byte>)
    | AppendFinish(t: nat, ttl: nat)
    | AppendRelease(t: nat)
    | CommitAcquire(t: nat, k: nat)
    | CommitRename(t: nat)
    | CommitFail(t: nat)
    | CommitDelete(t: nat)
    | AbortGet(t: nat, k: nat)
    | AbortDelete(t: nat)
    | AbortRemove(t: nat)
    | JanitorCollect(t: nat)
    | JanitorRemove(t: nat, k: nat)

  function ThreadOf(s: Store, t: nat): Thread {
    if t in s.threads then s.threads[t] else Idle
  }

  predicate Expired(u: Upload, now: int) {
    now > u.expiresAt
  }

  /** The tests of `get` and, with the busy flag, of `acquire`. */
  predicate Found(s: Store, k: nat) {
    k in s.m && k in s.objs && !Expired(s.objs[k], s.clock)
  }

  predicate CanAcquire(s: Store, k: nat) {
    Found(s, k) && !s.objs[k].busy
  }

  function SetBusy(s: Store, k: nat, busy: bool): Store
    requires k in s.objs
  {
    s.(objs := s.objs[k := s.objs[k].(busy := busy)])
  }

  function SetThread(s: Store, t: nat, thread: Thread): Store {
    s.(threads := s.threads[t := thread])
  }

  /** Writing at a position within the file or at its end. */
  function WriteAt(data: seq<byte>, pos: nat, bytes: seq<byte>): seq<byte>
    requires pos <= |data|
  {
    data[..pos] + bytes + if pos + |bytes| < |data| then data[pos + |bytes|..] else []
  }

  function Remove(s: Store, k: nat): Store {
    if k in s.tmp then s.(tmp := s.tmp - {k}, removed := s.removed + {k}) else s
  }

  function ExpiredIdle(s: Store): set<nat> {
    set k | k in s.m && k in s.objs && Expired(s.objs[k], s.clock) && !s.objs[k].busy
  }

  /** The body of a PATCH carries bytes of the source from the offset `off` on that it names. */
  predicate Honest(s: Store, k: nat, off: nat, written: nat, bytes: seq<byte>) {
    k in s.objs && off + written + |bytes| <= |s.objs[k].source| && bytes == s.objs[k].source[off + written..][..|bytes|]
  }

  predicate Enabled(s: Store, e: Step) {
    match e
    case Tick(_) => true
    case Create(k, _, _, _, _) => k !in s.objs
    case AppendAcquire(t, k) => ThreadOf(s, t).Idle? && CanAcquire(s, k)
    case AppendOpen(t, off) =>
      var th := ThreadOf(s, t);
      th.Appending? && !th.isOpen && th.k in s.objs && off == s.objs[th.k].offset && th.k in s.tmp
    case AppendWrite(t, bytes) =>
      var th := ThreadOf(s, t);
      th.Appending? && th.isOpen && Honest(s, th.k, th.off, th.written, bytes)
      && th.k in s.data && s.objs[th.k].offset + th.written <= |s.data[th.k]|
    case AppendFinish(t, _) => var th := ThreadOf(s, t); th.Appending? && th.isOpen && th.k in s.objs
    case AppendRelease(t) => var th := ThreadOf(s, t); (th.Appending? || th.Finished?) && th.k in s.objs
    case CommitAcquire(t, k) => ThreadOf(s, t).Idle? && CanAcquire(s, k)
    case CommitRename(t) =>
      var th := ThreadOf(s, t);
      th.Committing? && th.k in s.tmp && th.k in s.objs
      && !(s.objs[th.k].size > 0 && s.objs[th.k].offset != s.objs[th.k].size)
    case CommitFail(t) => ThreadOf(s, t).Committing? && ThreadOf(s, t).k in s.objs
    case CommitDelete(t) => ThreadOf(s, t).Renamed?
    case AbortGet(t, k) => ThreadOf(s, t).Idle? && Found(s, k)
    case AbortDelete(t) => ThreadOf(s, t).Aborting?
    case AbortRemove(t) => ThreadOf(s, t).Dropping?
    case JanitorCollect(t) => ThreadOf(s, t).Idle? || ThreadOf(s, t) == Sweeping({})
    case JanitorRemove(t, k) => ThreadOf(s, t).Sweeping? && k in ThreadOf(s, t).expired
  }

  function Next(s: Store, e: Step): Store
    requires Enabled(s, e)
  {
    match e
    case Tick(dt) => s.(clock := s.clock + dt)
    case Create(k, path, size, source, ttl) =>
      s.(objs := s.objs[k := Upload(path, size, source, 0, s.clock + ttl, false)],
         m := s.m + {k}, tmp := s.tmp + {k}, data := s.data[k := []])
    case AppendAcquire(t, k) => SetThread(SetBusy(s, k, true), t, Appending(k, false, 0, 0))
    case AppendOpen(t, off) => SetThread(s, t, ThreadOf(s, t).(isOpen := true, off := off))
    case AppendWrite(t, bytes) =>
      var th := ThreadOf(s, t);
      SetThread(s.(data := s.data[th.k := WriteAt(s.data[th.k], s.objs[th.k].offset + th.written, bytes)]), t,
                th.(written := th.written + |bytes|))
    case AppendFinish(t, ttl) =>
      var th := ThreadOf(s, t);
      SetThread(s.(objs := s.objs[th.k := s.objs[th.k].(offset := s.objs[th.k].offset + th.written, expiresAt := s.clock + ttl)]),
                t, Finished(th.k))
    case AppendRelease(t) => SetThread(SetBusy(s, ThreadOf(s, t).k, false), t, Idle)
    case CommitAcquire(t, k) => SetThread(SetBusy(s, k, true), t, Committing(k))
    case CommitRename(t) =>
      var k := ThreadOf(s, t).k;
      SetThread(s.(tmp := s.tmp - {k}, dst := s.dst[s.objs[k].dst := k], committed := s.committed + {k}), t, Renamed(k))
    case CommitFail(t) => SetThread(SetBusy(s, ThreadOf(s, t).k, false), t, Idle)
    case CommitDelete(t) => SetThread(s.(m := s.m - {ThreadOf(s, t).k}), t, Idle)
    case AbortGet(t, k) => SetThread(s, t, Aborting(k))
    case AbortDelete(t) => SetThread(s.(m := s.m - {ThreadOf(s, t).k}), t, Dropping(ThreadOf(s, t).k))
    case AbortRemove(t) => SetThread(Remove(s, ThreadOf(s, t).k), t, Idle)
    case JanitorCollect(t) => SetThread(s.(m := s.m - ExpiredIdle(s)), t, Sweeping(ExpiredIdle(s)))
    case JanitorRemove(t, k) => SetThread(Remove(s, k), t, Sweeping(ThreadOf(s, t).expired - {k}))
  }

  // ---- invariants ----------------------------------------------------------------------------

  predicate Holds(th: Thread, k: nat) {
    (th.Appending? || th.Finished? || th.Committing? || th.Renamed?) && th.k == k
  }

  /** At most one append or commit holds an upload, and then it is marked busy; and an upload
      marked busy is held, or its commit is done. */
  ghost predicate OneHolder(threads: map<nat, Thread>, busy: set<nat>, done: set<nat>) {
    && (forall t, k | t in threads && Holds(threads[t], k) :: k in busy)
    && (forall t, t', k | t in threads && t' in threads && Holds(threads[t], k) && Holds(threads[t'], k) :: t == t')
    && (forall k | k in busy :: k in done || exists t :: t in threads && Holds(threads[t], k))
  }

  function Busy(s: Store): set<nat> {
    set k | k in s.objs && s.objs[k].busy
  }

  /** Committed, and out of the store. */
  function Finals(s: Store): set<nat> {
    s.committed - s.m
  }

  /** Every temporary file is still there, or published, or removed: exactly one of them. */
  predicate OneEnd(s: Store) {
    && s.objs.Keys == s.tmp + s.committed + s.removed
    && s.tmp !! s.committed && s.tmp !! s.removed && s.committed !! s.removed
  }

  /** What a committed upload's threads can be doing. */
  ghost predicate CommitStages(threads: map<nat, Thread>, m: set<nat>, committed: set<nat>) {
    && (forall k | k in committed && k in m :: exists t :: t in threads && threads[t] == Renamed(k))
    && (forall t, k | t in threads && k in committed && Holds(threads[t], k) :: threads[t] == Renamed(k))
    && (forall t | t in threads && threads[t].Renamed? :: threads[t].k in committed)
  }

  /** What removers have in hand is out of the store, and the janitor's is not busy. */
  predicate RemovalStages(threads: map<nat, Thread>, objs: set<nat>, m: set<nat>, busy: set<nat>) {
    && (forall t | t in threads && threads[t].Dropping? :: threads[t].k in objs && threads[t].k !in m)
    && (forall t | t in threads && threads[t].Aborting? :: threads[t].k in objs)
    && (forall t | t in threads && threads[t].Sweeping? :: threads[t].expired <= objs && threads[t].expired !! m && threads[t].expired !! busy)
  }

  ghost predicate Stages(s: Store) {
    && s.m <= s.objs.Keys && s.m !! s.removed && s.committed <= Busy(s)
    && CommitStages(s.threads, s.m, s.committed)
    && RemovalStages(s.threads, s.objs.Keys, s.m, Busy(s))
  }

  predicate Prefix(a: seq<byte>, b: seq<byte>) {
    |a| <= |b| && a == b[..|a|]
  }

  /** The file is a prefix of the source, at least up to the offset and what an append in
      progress has written. */
  predicate Faithful(s: Store) {
    && s.data.Keys == s.objs.Keys
    && (forall k | k in s.objs :: Prefix(s.data[k], s.objs[k].source) && s.objs[k].offset <= |s.data[k]|)
    && WrittenOk(s)
  }

  predicate WrittenOk(s: Store) {
    forall t | t in s.threads && s.threads[t].Appending? && s.threads[t].k in s.objs && s.threads[t].k in s.data ::
      && s.objs[s.threads[t].k].offset + s.threads[t].written <= |s.data[s.threads[t].k]|
      && (s.threads[t].isOpen ==> s.threads[t].off == s.objs[s.threads[t].k].offset)
  }

  /** What is published stems from a commit, with the declared length if one was declared. */
  predicate Published(s: Store) {
    && (forall p | p in s.dst :: s.dst[p] in s.committed && s.dst[p] in s.objs && s.objs[s.dst[p]].dst == p)
    && (forall k | k in s.committed && k in s.objs :: s.objs[k].dst in s.dst)
    && SizesKept(s)
  }

  /** A remover has taken k out of the store and not yet removed its file. */
  predicate InHand(th: Thread, k: nat) {
    (th.Dropping? && th.k == k) || (th.Sweeping? && k in th.expired)
  }

  /** No temporary file is forgotten: its upload is in the store, or a remover has it in hand. */
  ghost predicate NoLeak(threads: map<nat, Thread>, m: set<nat>, tmp: set<nat>) {
    forall k | k in tmp && k !in m :: exists t :: t in threads && InHand(threads[t], k)
  }

  predicate SizesKept(s: Store) {
    forall k | k in s.committed && k in s.objs && s.objs[k].size > 0 :: s.objs[k].offset == s.objs[k].size
  }

  ghost predicate Inv(s: Store) {
    && OneHolder(s.threads, Busy(s), Finals(s)) && OneEnd(s) && Stages(s) && Faithful(s) && Published(s)
    && NoLeak(s.threads, s.m, s.tmp)
  }

  lemma WriteKeepsPrefix(data: seq<byte>, source: seq<byte>, pos: nat, bytes: seq<byte>)
    requires Prefix(data, source) && pos <= |data| && pos + |bytes| <= |source|
    requires bytes == source[pos..][..|bytes|]
    ensures var d := WriteAt(data, pos, bytes);
            Prefix(d, source) && |d| >= |data| && |d| >= pos + |bytes|
  {
    var d := WriteAt(data, pos, bytes);
    forall i | 0 <= i < |d| ensures d[i] == source[i] {
      if i < pos {
        assert d[i] == data[i];
      } else if i < pos + |bytes| {
        assert bytes[i - pos] == source[pos..][i - pos];
      } else {
        assert d[i] == data[i];
      }
    }
    assert d == source[..|d|];
  }

  lemma HolderAcquires(threads: map<nat, Thread>, busy: set<nat>, done: set<nat>, t: nat, k: nat, th: Thread)
    requires OneHolder(threads, busy, done) && k !in busy && Holds(th, k)
    requires t in threads ==> threads[t].Idle?
    ensures OneHolder(threads[t := th], busy + {k}, done)
  {
    var threads' := threads[t := th];
    assert Holds(threads'[t], k);
    forall k' | k' in busy && k' !in done ensures exists t' :: t' in threads' && Holds(threads'[t'], k') {
      var t' :| t' in threads && Holds(threads[t'], k');
      assert t' in threads' && threads'[t'] == threads[t'];
    }
  }

  /** A thread that holds k goes on holding it. */
  lemma HolderGoesOn(threads: map<nat, Thread>, busy: set<nat>, done: set<nat>, done': set<nat>, t: nat, k: nat, th: Thread)
    requires OneHolder(threads, busy, done) && t in threads && Holds(threads[t], k) && Holds(th, k) && done <= done'
    ensures OneHolder(threads[t := th], busy, done')
  {
    var threads' := threads[t := th];
    assert Holds(threads'[t], k);
    forall k' | k' in busy && k' !in done ensures exists t' :: t' in threads' && Holds(threads'[t'], k') {
      var t' :| t' in threads && Holds(threads[t'], k');
      assert t' in threads' && Holds(threads'[t'], k');
    }
  }

  /** A thread lets k go: it is no longer busy, or its commit is done. */
  lemma HolderReleases(threads: map<nat, Thread>, busy: set<nat>, busy': set<nat>, done: set<nat>, done': set<nat>, t: nat, k: nat)
    requires OneHolder(threads, busy, done) && t in threads && Holds(threads[t], k) && done <= done'
    requires busy' == busy - {k} || (busy' == busy && k in done')
    ensures OneHolder(threads[t := Idle], busy', done')
  {
    var threads' := threads[t := Idle];
    forall k' | k' in busy' && k' !in done' ensures exists t' :: t' in threads' && Holds(threads'[t'], k') {
      var t' :| t' in threads && Holds(threads[t'], k');
      assert t' in threads' && threads'[t'] == threads[t'];
    }
  }

  predicate Holder(th: Thread) {
    th.Appending? || th.Finished? || th.Committing? || th.Renamed?
  }

  /** A thread that holds nothing does something else. */
  lemma BystanderMoves(threads: map<nat, Thread>, busy: set<nat>, done: set<nat>, done': set<nat>, t: nat, th: Thread)
    requires OneHolder(threads, busy, done) && (t in threads ==> !Holder(threads[t])) && !Holder(th) && done <= done'
    ensures OneHolder(threads[t := th], busy, done')
  {
    var threads' := threads[t := th];
    forall k' | k' in busy && k' !in done ensures exists t' :: t' in threads' && Holds(threads'[t'], k') {
      var t' :| t' in threads && Holds(threads[t'], k');
      assert t' in threads' && threads'[t'] == threads[t'];
    }
  }

  lemma BusyAfter(s: Store, e: Step)
    requires Enabled(s, e)
    ensures var b := Busy(Next(s, e));
            if e.AppendAcquire? || e.CommitAcquire? then b == Busy(s) + {e.k}
            else if e.AppendRelease? || e.CommitFail? then b == Busy(s) - {ThreadOf(s, e.t).k}
            else b == Busy(s)
  {
  }

  lemma HolderStep(s: Store, e: Step)
    requires Enabled(s, e) && OneHolder(s.threads, Busy(s), Finals(s)) && OneEnd(s) && Stages(s)
    ensures OneHolder(Next(s, e).threads, Busy(Next(s, e)), Finals(Next(s, e)))
  {
    BusyAfter(s, e);
    var b, f, f' := Busy(s), Finals(s), Finals(Next(s, e));
    if e.AppendAcquire? || e.CommitAcquire? {
      HolderAcquires(s.threads, b, f, e.t, e.k, Next(s, e).threads[e.t]);
    } else if e.AppendOpen? || e.AppendWrite? || e.AppendFinish? || e.CommitRename? {
      HolderGoesOn(s.threads, b, f, f', e.t, s.threads[e.t].k, Next(s, e).threads[e.t]);
    } else if e.AppendRelease? || e.CommitFail? || e.CommitDelete? {
      HolderReleases(s.threads, b, Busy(Next(s, e)), f, f', e.t, s.threads[e.t].k);
    } else if e.Create? {
      assert f' == f;
    } else if !e.Tick? {
      BystanderMoves(s.threads, b, f, f', e.t, Next(s, e).threads[e.t]);
    }
  }

  lemma EndStep(s: Store, e: Step)
    requires Enabled(s, e) && OneEnd(s) && s.committed <= Busy(s)
    ensures OneEnd(Next(s, e))
  {
    var s' := Next(s, e);
    if e.AbortRemove? || e.JanitorRemove? {
      assert s'.objs.Keys == s'.tmp + s'.committed + s'.removed;
    }
  }

  /** A thread other than one holding a committed upload moves, and m shrinks. */
  lemma CommitBystander(threads: map<nat, Thread>, m: set<nat>, m': set<nat>, committed: set<nat>, t: nat, th: Thread)
    requires CommitStages(threads, m, committed) && m' * committed <= m
    requires t in threads ==> !threads[t].Renamed?
    requires !th.Renamed? && forall k | Holds(th, k) :: k !in committed
    ensures CommitStages(threads[t := th], m', committed)
  {
    var threads' := threads[t := th];
    forall k | k in committed && k in m' ensures exists t' :: t' in threads' && threads'[t'] == Renamed(k) {
      var t' :| t' in threads && threads[t'] == Renamed(k);
      assert threads'[t'] == threads[t'];
    }
  }

  lemma Commits(threads: map<nat, Thread>, busy: set<nat>, done: set<nat>, m: set<nat>, committed: set<nat>, t: nat, k: nat)
    requires CommitStages(threads, m, committed) && OneHolder(threads, busy, done)
    requires t in threads && threads[t] == Committing(k)
    ensures CommitStages(threads[t := Renamed(k)], m, committed + {k})
  {
    var threads' := threads[t := Renamed(k)];
    assert threads'[t] == Renamed(k) && Holds(threads[t], k);
    forall k' | k' in committed && k' in m ensures exists t' :: t' in threads' && threads'[t'] == Renamed(k') {
      var t' :| t' in threads && threads[t'] == Renamed(k');
      assert threads'[t'] == threads[t'];
    }
  }

  lemma CommitEnds(threads: map<nat, Thread>, m: set<nat>, committed: set<nat>, t: nat, k: nat)
    requires CommitStages(threads, m, committed) && t in threads && threads[t] == Renamed(k)
    ensures CommitStages(threads[t := Idle], m - {k}, committed)
  {
    var threads' := threads[t := Idle];
    forall k' | k' in committed && k' in m - {k} ensures exists t' :: t' in threads' && threads'[t'] == Renamed(k') {
      var t' :| t' in threads && threads[t'] == Renamed(k');
      assert threads'[t'] == threads[t'];
    }
  }

  lemma CommitStagesStep(s: Store, e: Step)
    requires Enabled(s, e) && OneEnd(s) && Stages(s) && OneHolder(s.threads, Busy(s), Finals(s))
    ensures CommitStages(Next(s, e).threads, Next(s, e).m, Next(s, e).committed)
  {
    var s' := Next(s, e);
    assert s'.m * s.committed <= s.m;
    if e.CommitRename? {
      Commits(s.threads, Busy(s), Finals(s), s.m, s.committed, e.t, s.threads[e.t].k);
    } else if e.CommitDelete? {
      CommitEnds(s.threads, s.m, s.committed, e.t, s.threads[e.t].k);
    } else if e.Create? {
      assert e.k !in s.committed;
    } else if !e.Tick? {
      CommitBystander(s.threads, s.m, s'.m, s.committed, e.t, s'.threads[e.t]);
    }
  }

  /** A remover takes something in hand, or lets it go. */
  lemma RemoverMoves(threads: map<nat, Thread>, objs: set<nat>, m: set<nat>, m': set<nat>, busy: set<nat>, t: nat, th: Thread)
    requires RemovalStages(threads, objs, m, busy) && m' <= m
    requires th.Dropping? ==> th.k in objs && th.k !in m'
    requires th.Aborting? ==> th.k in objs
    requires th.Sweeping? ==> th.expired <= objs && th.expired !! m' && th.expired !! busy
    ensures RemovalStages(threads[t := th], objs, m', busy)
  {
  }

  lemma NewcomerKeeps(threads: map<nat, Thread>, objs: set<nat>, m: set<nat>, busy: set<nat>, k: nat)
    requires RemovalStages(threads, objs, m, busy) && k !in objs
    ensures RemovalStages(threads, objs + {k}, m + {k}, busy)
  {
  }

  /** The busy set changes, but not for what the janitor has in hand. */
  lemma BusyChanges(threads: map<nat, Thread>, objs: set<nat>, m: set<nat>, busy: set<nat>, busy': set<nat>)
    requires RemovalStages(threads, objs, m, busy) && busy' - busy <= m
    ensures RemovalStages(threads, objs, m, busy')
  {
  }

  lemma RemovalStagesStep(s: Store, e: Step)
    requires Enabled(s, e) && RemovalStages(s.threads, s.objs.Keys, s.m, Busy(s)) && s.m <= s.objs.Keys
    ensures RemovalStages(Next(s, e).threads, Next(s, e).objs.Keys, Next(s, e).m, Busy(Next(s, e)))
  {
    var s' := Next(s, e);
    BusyAfter(s, e);
    if e.Create? {
      NewcomerKeeps(s.threads, s.objs.Keys, s.m, Busy(s), e.k);
      assert s'.objs.Keys == s.objs.Keys + {e.k};
    } else if !e.Tick? {
      assert s'.objs.Keys == s.objs.Keys;
      RemoverMoves(s.threads, s.objs.Keys, s.m, s'.m, Busy(s), e.t, s'.threads[e.t]);
      BusyChanges(s'.threads, s.objs.Keys, s'.m, Busy(s), Busy(s'));
    }
  }

  lemma BoundsStep(s: Store, e: Step)
    requires Enabled(s, e) && OneEnd(s) && Stages(s) && OneHolder(s.threads, Busy(s), Finals(s))
    ensures var s' := Next(s, e); s'.m <= s'.objs.Keys && s'.m !! s'.removed && s'.committed <= Busy(s')
  {
    BusyAfter(s, e);
    if e.AppendRelease? || e.CommitFail? || e.CommitRename? {
      assert Holds(s.threads[e.t], s.threads[e.t].k);
    }
  }

  lemma StagesStep(s: Store, e: Step)
    requires Inv(s) && Enabled(s, e)
    ensures Stages(Next(s, e))
  {
    CommitStagesStep(s, e);
    RemovalStagesStep(s, e);
    BoundsStep(s, e);
  }

  lemma FilesStep(s: Store, e: Step)
    requires Enabled(s, e) && Faithful(s)
    ensures var s' := Next(s, e);
            && s'.data.Keys == s'.objs.Keys
            && forall k | k in s'.objs :: Prefix(s'.data[k], s'.objs[k].source) && s'.objs[k].offset <= |s'.data[k]|
  {
    if e.AppendWrite? {
      var th := ThreadOf(s, e.t);
      WriteKeepsPrefix(s.data[th.k], s.objs[th.k].source, s.objs[th.k].offset + th.written, e.bytes);
    }
  }

  lemma HeldIsBusy(s: Store, t: nat)
    requires Inv(s) && t in s.threads && Holder(s.threads[t])
    ensures s.threads[t].k in Busy(s) && s.threads[t].k in s.objs
    ensures forall t' | t' in s.threads && Holds(s.threads[t'], s.threads[t].k) :: t' == t
  {
    assert Holds(s.threads[t], s.threads[t].k);
  }

  lemma WrittenStep(s: Store, e: Step)
    requires Inv(s) && Enabled(s, e)
    ensures WrittenOk(Next(s, e))
  {
    if e.AppendWrite? {
      WriteStays(s, e);
    } else if e.AppendFinish? {
      FinishStays(s, e);
    } else if e.Create? {
      forall t | t in s.threads && s.threads[t].Appending? ensures s.threads[t].k in s.objs {
        HeldIsBusy(s, t);
      }
    }
  }

  lemma WriteStays(s: Store, e: Step)
    requires Faithful(s) && Enabled(s, e) && e.AppendWrite?
    ensures WrittenOk(Next(s, e))
  {
    var th := ThreadOf(s, e.t);
    WriteKeepsPrefix(s.data[th.k], s.objs[th.k].source, s.objs[th.k].offset + th.written, e.bytes);
  }

  lemma FinishStays(s: Store, e: Step)
    requires Inv(s) && Enabled(s, e) && e.AppendFinish?
    ensures WrittenOk(Next(s, e))
  {
    HeldIsBusy(s, e.t);
    assert forall t | t in s.threads && s.threads[t].Appending? :: Holds(s.threads[t], s.threads[t].k);
  }

  lemma FaithfulStep(s: Store, e: Step)
    requires Inv(s) && Enabled(s, e)
    ensures Faithful(Next(s, e))
  {
    FilesStep(s, e);
    WrittenStep(s, e);
  }

  lemma SizesStep(s: Store, e: Step)
    requires Enabled(s, e) && SizesKept(s) && CommitStages(s.threads, s.m, s.committed) && s.committed <= s.objs.Keys
    ensures SizesKept(Next(s, e))
  {
    if e.AppendFinish? {
      assert Holds(s.threads[e.t], s.threads[e.t].k);
      assert s.threads[e.t].k !in s.committed;
    }
  }

  lemma PublishedStep(s: Store, e: Step)
    requires Inv(s) && Enabled(s, e)
    ensures Published(Next(s, e))
  {
    SizesStep(s, e);
    PathsStep(s, e);
  }

  /** A committed upload's destination has something, which was committed for it. */
  lemma PathsStep(s: Store, e: Step)
    requires Enabled(s, e) && Published(s) && OneEnd(s)
    ensures var s' := Next(s, e);
            && (forall p | p in s'.dst :: s'.dst[p] in s'.committed && s'.dst[p] in s'.objs && s'.objs[s'.dst[p]].dst == p)
            && (forall k | k in s'.committed && k in s'.objs :: s'.objs[k].dst in s'.dst)
  {
    if e.CommitRename? {
      var k := s.threads[e.t].k;
      assert Next(s, e).dst == s.dst[s.objs[k].dst := k];
    }
  }

  /** One thread moves; what it lets out of hand has no temporary file any more. */
  lemma HandsKept(threads: map<nat, Thread>, m: set<nat>, tmp: set<nat>, m': set<nat>, tmp': set<nat>, t: nat, th: Thread)
    requires NoLeak(threads, m, tmp) && tmp' <= tmp
    requires forall k | k in tmp' && k in m && k !in m' :: InHand(th, k)
    requires forall k | k in tmp' && t in threads && InHand(threads[t], k) :: InHand(th, k)
    ensures NoLeak(threads[t := th], m', tmp')
  {
    var threads' := threads[t := th];
    forall k | k in tmp' && k !in m' ensures exists t' :: t' in threads' && InHand(threads'[t'], k) {
      if k in m {
        assert InHand(threads'[t], k);
      } else {
        var t' :| t' in threads && InHand(threads[t'], k);
        assert InHand(threads'[t'], k);
      }
    }
  }

  lemma NoLeakStep(s: Store, e: Step)
    requires Enabled(s, e) && NoLeak(s.threads, s.m, s.tmp) && OneEnd(s) && CommitStages(s.threads, s.m, s.committed)
    ensures NoLeak(Next(s, e).threads, Next(s, e).m, Next(s, e).tmp)
  {
    var s' := Next(s, e);
    if e.Create? {
      assert s'.threads == s.threads;
    } else if !e.Tick? {
      HandsKept(s.threads, s.m, s.tmp, s'.m, s'.tmp, e.t, s'.threads[e.t]);
    }
  }

  lemma InvStep(s: Store, e: Step)
    requires Inv(s) && Enabled(s, e)
    ensures Inv(Next(s, e))
  {
    NoLeakStep(s, e);
    HolderStep(s, e);
    EndStep(s, e);
    StagesStep(s, e);
    FaithfulStep(s, e);
    PublishedStep(s, e);
  }

  // ---- runs ------------------------------------------------------------------------------------

  predicate RunOk(s: Store, run: seq<Step>)
    decreases |run|
  {
    run == [] || (Enabled(s, run[0]) && RunOk(Next(s, run[0]), run[1..]))
  }

  function Run(s: Store, run: seq<Step>): Store
    requires RunOk(s, run)
    decreases |run|
  {
    if run == [] then s else Run(Next(s, run[0]), run[1..])
  }

  function Empty(clock: int): Store {
    Store(clock, map[], {}, {}, map[], map[], {}, {}, map[])
  }

  lemma {:induction false} RunInv(s: Store, run: seq<Step>)
    requires Inv(s) && RunOk(s, run)
    ensures Inv(Run(s, run))
    decreases |run|
  {
    if run != [] {
      InvStep(s, run[0]);
      RunInv(Next(s, run[0]), run[1..]);
    }
  }

  /** What no step undoes. */
  predicate Forward(s: Store, s': Store) {
    && ObjsForward(s.objs, s'.objs)
    && s.committed <= s'.committed && s.removed <= s'.removed
    && (forall k | k in s.committed && k in s.data :: k in s'.data && s'.data[k] == s.data[k])
    && DstForward(s.dst, s'.dst, s.committed)
  }

  predicate ObjsForward(a: map<nat, Upload>, b: map<nat, Upload>) {
    forall k | k in a :: k in b && b[k].source == a[k].source && b[k].size == a[k].size
                         && b[k].dst == a[k].dst && a[k].offset <= b[k].offset
  }

  predicate DstForward(a: map<Path, nat>, b: map<Path, nat>, committed: set<nat>) {
    forall p | p in a :: p in b && (b[p] != a[p] ==> b[p] !in committed)
  }

  lemma BytesForward(s: Store, e: Step)
    requires Enabled(s, e) && CommitStages(s.threads, s.m, s.committed) && s.committed <= s.objs.Keys
    ensures forall k | k in s.committed && k in s.data :: k in Next(s, e).data && Next(s, e).data[k] == s.data[k]
  {
    if e.AppendWrite? {
      assert Holds(s.threads[e.t], s.threads[e.t].k);
      assert s.threads[e.t].k !in s.committed;
    }
  }

  lemma PathsForward(s: Store, e: Step)
    requires Enabled(s, e) && Published(s) && OneEnd(s)
    ensures s.committed <= Next(s, e).committed && s.removed <= Next(s, e).removed
    ensures DstForward(s.dst, Next(s, e).dst, s.committed)
  {
  }

  lemma ObjsStep(s: Store, e: Step)
    requires Enabled(s, e)
    ensures ObjsForward(s.objs, Next(s, e).objs)
  {
  }

  lemma ForwardStep(s: Store, e: Step)
    requires Inv(s) && Enabled(s, e)
    ensures Forward(s, Next(s, e))
  {
    ObjsStep(s, e);
    BytesForward(s, e);
    PathsForward(s, e);
  }

  lemma ForwardTrans(a: Store, b: Store, c: Store)
    requires Forward(a, b) && Forward(b, c) && a.data.Keys == a.objs.Keys && a.committed <= a.objs.Keys
    ensures Forward(a, c)
  {
  }

  /** Offsets never decrease; committed stays committed, removed stays removed; published bytes
      never change; a published path can only be replaced by a later commit. */
  lemma {:induction false} RunForward(s: Store, run: seq<Step>)
    requires Inv(s) && RunOk(s, run)
    ensures Forward(s, Run(s, run))
    decreases |run|
  {
    if run != [] {
      InvStep(s, run[0]);
      ForwardStep(s, run[0]);
      RunForward(Next(s, run[0]), run[1..]);
      ForwardTrans(s, Next(s, run[0]), Run(Next(s, run[0]), run[1..]));
    }
  }

  /** The temporary file's first `offset` bytes are those of the source, under any retries,
      duplicates, interruptions and concurrent requests. */
  lemma OffsetIsFaithful(clock: int, run: seq<Step>, k: nat)
    requires RunOk(Empty(clock), run)
    ensures var s := Run(Empty(clock), run);
            k in s.objs ==>
              k in s.data && s.objs[k].offset <= |s.data[k]| && s.objs[k].offset <= |s.objs[k].source|
              && s.data[k][..s.objs[k].offset] == s.objs[k].source[..s.objs[k].offset]
  {
    RunInv(Empty(clock), run);
    var s := Run(Empty(clock), run);
    if k in s.objs {
      assert s.data[k][..s.objs[k].offset] == s.objs[k].source[..|s.data[k]|][..s.objs[k].offset];
    }
  }

  /** What is published under a declared size that is the size of the source is the source. */
  lemma CommitPublishesSource(clock: int, run: seq<Step>, p: Path)
    requires RunOk(Empty(clock), run)
    ensures var s := Run(Empty(clock), run);
            p in s.dst ==>
              s.dst[p] in s.objs && s.dst[p] in s.data
              && (var u := s.objs[s.dst[p]]; u.dst == p && (u.size == |u.source| ==> s.data[s.dst[p]] == u.source))
  {
    RunInv(Empty(clock), run);
    var s := Run(Empty(clock), run);
    if p in s.dst {
      var u := s.objs[s.dst[p]];
      assert u.source[..|u.source|] == u.source;
    }
  }

  /** Right after the rename of k what is read at its destination is the file of k, which is the
      source if the declared size is that of the source. */
  lemma RenamePublishes(s0: Store, t: nat)
    requires Inv(s0) && Enabled(s0, CommitRename(t))
    ensures var s1 := Next(s0, CommitRename(t)); var k := ThreadOf(s0, t).k;
            && k in s0.objs && k in s0.data && k !in s0.committed && k in s1.committed
            && var u := s0.objs[k];
               && u.dst in s1.dst && s1.dst[u.dst] == k && s1.data == s0.data
               && (u.size == |u.source| ==> s0.data[k] == u.source)
  {
    HeldIsBusy(s0, t);
    var u := s0.objs[ThreadOf(s0, t).k];
    assert u.source[..|u.source|] == u.source;
  }

  /** Whatever happens then, something is there: that file, unchanged, or one committed later. */
  lemma PublishedStays(s1: Store, run: seq<Step>, p: Path)
    requires Inv(s1) && RunOk(s1, run) && p in s1.dst
    ensures var s2 := Run(s1, run);
            && p in s2.dst && s1.dst[p] in s1.data && s2.dst[p] in s2.data
            && (s2.data[s2.dst[p]] == s1.data[s1.dst[p]] || (s2.dst[p] in s2.committed && s2.dst[p] !in s1.committed))
  {
    RunInv(s1, run);
    RunForward(s1, run);
  }

  /** A commit publishes, on every run. */
  lemma CommitPublishes(clock: int, before: seq<Step>, t: nat, after: seq<Step>)
    requires RunOk(Empty(clock), before) && Enabled(Run(Empty(clock), before), CommitRename(t))
    requires RunOk(Next(Run(Empty(clock), before), CommitRename(t)), after)
    ensures var s0 := Run(Empty(clock), before);
            var s1 := Next(s0, CommitRename(t));
            var s2 := Run(s1, after);
            var k := ThreadOf(s0, t).k;
            && k in s0.objs && k in s0.data && k !in s0.committed
            && var u := s0.objs[k];
               && u.dst in s1.dst && s1.dst[u.dst] in s1.data && s1.data[s1.dst[u.dst]] == s0.data[k]
               && (u.size == |u.source| ==> s0.data[k] == u.source)
               && u.dst in s2.dst && s2.dst[u.dst] in s2.data
               && (s2.data[s2.dst[u.dst]] == s0.data[k] || (s2.dst[u.dst] in s2.committed && s2.dst[u.dst] !in s1.committed))
  {
    RunInv(Empty(clock), before);
    var s0 := Run(Empty(clock), before);
    InvStep(s0, CommitRename(t));
    RenamePublishes(s0, t);
    PublishedStays(Next(s0, CommitRename(t)), after, s0.objs[ThreadOf(s0, t).k].dst);
  }

  // ---- a session that is let be can be completed ---------------------------------------------------

  /** A session is there for a handler only until its time is up, and for one at a time. */
  lemma HandlersFindLive(s: Store, e: Step)
    requires Enabled(s, e) && (e.AppendAcquire? || e.CommitAcquire? || e.AbortGet?)
    ensures e.k in s.m && e.k in s.objs && s.clock <= s.objs[e.k].expiresAt
    ensures !e.AbortGet? ==> !s.objs[e.k].busy
  {
  }

  /** Its temporary file is still there. */
  lemma IdleHasFile(s: Store, k: nat)
    requires Inv(s) && k in s.m && k in s.objs && !s.objs[k].busy
    ensures k in s.tmp && k in s.data && k !in s.committed && Prefix(s.data[k], s.objs[k].source)
    ensures s.objs[k].offset <= |s.data[k]|
  {
  }

  lemma WriteRest(data: seq<byte>, source: seq<byte>, pos: nat)
    requires Prefix(data, source) && pos <= |data|
    ensures WriteAt(data, pos, source[pos..]) == source
  {
    assert data[..pos] == source[..pos];
    assert source == source[..pos] + source[pos..];
  }

  /** An append of the rest of the source, from the offset on, is let through and leaves the whole source
      in the file, the offset at its end and the session idle. */
  lemma AppendCompletes(s: Store, t: nat, k: nat, ttl: nat) returns (s5: Store)
    requires CanAcquire(s, k) && ThreadOf(s, t).Idle? && k in s.tmp && k in s.data
    requires Prefix(s.data[k], s.objs[k].source) && s.objs[k].offset <= |s.data[k]|
    ensures Enabled(s, AppendAcquire(t, k))
    ensures var s1 := Next(s, AppendAcquire(t, k));
            var u := s.objs[k];
            && Enabled(s1, AppendOpen(t, u.offset))
            && u.offset <= |u.source|
            && var s2 := Next(s1, AppendOpen(t, u.offset));
            && Enabled(s2, AppendWrite(t, u.source[u.offset..]))
            && var s3 := Next(s2, AppendWrite(t, u.source[u.offset..]));
            && Enabled(s3, AppendFinish(t, ttl))
            && var s4 := Next(s3, AppendFinish(t, ttl));
            && Enabled(s4, AppendRelease(t))
            && s5 == Next(s4, AppendRelease(t))
    ensures ThreadOf(s5, t).Idle? && k in s5.m && k in s5.tmp && s5.clock == s.clock
    ensures k in s5.objs && k in s5.data && s5.data[k] == s.objs[k].source
            && s5.objs[k] == s.objs[k].(offset := |s.objs[k].source|, expiresAt := s.clock + ttl)
  {
    var u := s.objs[k];
    var s1 := Next(s, AppendAcquire(t, k));
    var s2 := Next(s1, AppendOpen(t, u.offset));
    var rest := u.source[u.offset..];
    assert rest == u.source[u.offset + 0..][..|rest|];
    WriteRest(s.data[k], u.source, u.offset);
    var s3 := Next(s2, AppendWrite(t, rest));
    var s4 := Next(s3, AppendFinish(t, ttl));
    s5 := Next(s4, AppendRelease(t));
  }

  /** Then a commit is let through, if the declared size is that of the source or 0, and what is read at
      the destination is the source. */
  lemma UploadCompletes(s: Store, t: nat, k: nat, ttl: nat) returns (s7: Store)
    requires Inv(s) && ThreadOf(s, t).Idle? && k in s.m && k in s.objs && !s.objs[k].busy && s.clock <= s.objs[k].expiresAt
    requires s.objs[k].size == 0 || s.objs[k].size == |s.objs[k].source|
    ensures s.objs[k].dst in s7.dst && s7.dst[s.objs[k].dst] in s7.data
    ensures s7.data[s7.dst[s.objs[k].dst]] == s.objs[k].source
  {
    IdleHasFile(s, k);
    var s5 := AppendCompletes(s, t, k, ttl);
    var s6 := Next(s5, CommitAcquire(t, k));
    s7 := Next(s6, CommitRename(t));
  }

  /** Once every request and the janitor are done, the temporary files that are left are those of the sessions. */
  lemma NothingForgotten(clock: int, run: seq<Step>)
    requires RunOk(Empty(clock), run)
    ensures var s := Run(Empty(clock), run);
            (forall t | t in s.threads :: s.threads[t].Idle? || s.threads[t] == Sweeping({})) ==> s.tmp <= s.m
  {
    RunInv(Empty(clock), run);
  }

  /** The janitor takes exactly the sessions whose time is up and that no request holds. */
  lemma CollectedIsExpired(s: Store, t: nat)
    requires Inv(s) && Enabled(s, JanitorCollect(t))
    ensures var s' := Next(s, JanitorCollect(t));
            && s'.m <= s.m && s'.tmp == s.tmp && ThreadOf(s', t).Sweeping? && ThreadOf(s', t).expired == s.m - s'.m
            && forall k | k in s.m :: k !in s'.m <==> s.clock > s.objs[k].expiresAt && !s.objs[k].busy
  {
  }

  /** Only what lasts: a session's time runs from its creation or its last append on, for `ttl`. */
  lemma ExpiryMoves(s: Store, e: Step, k: nat)
    requires Enabled(s, e)
    ensures k in s.objs ==> k in Next(s, e).objs
    ensures k in s.objs ==>
              (Next(s, e).objs[k].expiresAt == if e.AppendFinish? && ThreadOf(s, e.t).k == k then s.clock + e.ttl else s.objs[k].expiresAt)
    ensures k !in s.objs && k in Next(s, e).objs ==> e.Create? && Next(s, e).objs[k].expiresAt == s.clock + e.ttl
  {
  }

  /** The janitor removes no temporary file that a request holds, and neither it nor an abort
      touches what is published. */
  lemma RemovalsAreSafe(s: Store, e: Step)
    requires Inv(s) && Enabled(s, e) && (e.AbortRemove? || e.JanitorRemove?)
    ensures Next(s, e).dst == s.dst && Next(s, e).data == s.data && Next(s, e).committed == s.committed
    ensures e.JanitorRemove? ==> forall t | t in s.threads :: !Holds(s.threads[t], e.k)
    ensures forall k | k in Next(s, e).removed && k !in s.removed :: k in s.tmp && k !in s.m && k !in s.committed
  {
  }
}
