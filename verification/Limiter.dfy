/** The login limiter, and the bound it puts on failed logins per address. */
module Limiter {
  import opened Catalogue

  /** lockedUntil is None until the first lockout. */
  datatype Attempt = Attempt(failures: nat, lockedUntil: Option<int>, last: int)

  type Entries = map<string, Attempt>

  /** A limit that is not positive stands for 5. */
  function Limit(max: int): (m: nat)
    ensures m > 0
  {
    if max <= 0 then 5 else max
  }

  predicate LockedAt(entries: Entries, ip: string, now: int) {
    ip in entries && entries[ip].lockedUntil.Some? && now < entries[ip].lockedUntil.value
  }

  function Failed(entries: Entries, ip: string, max: nat, lockout: nat, now: int): Entries {
    var f := (if ip in entries then entries[ip].failures else 0) + 1;
    var until := if ip in entries then entries[ip].lockedUntil else None;
    entries[ip := if f >= max then Attempt(0, Some(now + lockout), now) else Attempt(f, until, now)]
  }

  predicate Stale(a: Attempt, lockout: nat, now: int) {
    (a.lockedUntil.Some? ==> now > a.lockedUntil.value) && now - a.last > lockout
  }

  function Swept(entries: Entries, lockout: nat, now: int): Entries {
    map ip | ip in entries && !Stale(entries[ip], lockout, now) :: entries[ip]
  }

  class Limiter {
    const max: nat
    const lockout: nat
    var entries: Entries

    constructor (max: int, lockout: nat)
      ensures this.max == Limit(max) && this.lockout == lockout && entries == map[]
    {
      this.max, this.lockout, this.entries := if max <= 0 then 5 else max, lockout, map[];
    }

    method Locked(ip: string, now: int) returns (locked: bool)
      ensures locked == LockedAt(entries, ip, now)
    {
      locked := false;
      if ip in entries {
        var a := entries[ip];
        locked := a.lockedUntil.Some? && now < a.lockedUntil.value;
      }
    }

    method Fail(ip: string, now: int)
      modifies this
      ensures entries == Failed(old(entries), ip, max, lockout, now)
    {
      if ip !in entries {
        entries := entries[ip := Attempt(0, None, now)];
      }
      var a := entries[ip].(failures := entries[ip].failures + 1, last := now);
      if a.failures >= max {
        a := a.(lockedUntil := Some(now + lockout), failures := 0);
      }
      entries := entries[ip := a];
    }

    method Reset(ip: string)
      modifies this
      ensures entries == old(entries) - {ip}
    {
      entries := entries - {ip};
    }

    /** Forgets who neither is locked out nor has failed within the lockout time; nobody's lockout
        ends by it. */
    method Sweep(now: int)
      modifies this
      ensures entries == Swept(old(entries), lockout, now)
      ensures forall ip, t | t >= now :: LockedAt(entries, ip, t) == LockedAt(old(entries), ip, t)
      ensures forall ip | ip in old(entries) && now - old(entries)[ip].last <= lockout :: ip in entries && entries[ip] == old(entries)[ip]
      ensures forall ip | ip in entries ::
                now - entries[ip].last <= lockout || (entries[ip].lockedUntil.Some? && now <= entries[ip].lockedUntil.value)
    {
      var todo := entries.Keys;
      while todo != {}
        invariant todo <= old(entries).Keys
        invariant forall ip | ip in entries :: ip in old(entries) && entries[ip] == old(entries)[ip]
        invariant forall ip | ip in old(entries) :: ip in entries <==> ip in todo || !Stale(old(entries)[ip], lockout, now)
        decreases todo
      {
        var ip :| ip in todo;
        var a := entries[ip];
        if (a.lockedUntil.None? || now > a.lockedUntil.value) && now - a.last > lockout {
          entries := entries - {ip};
        }
        todo := todo - {ip};
      }
    }
  }

  // ---- sequential logins from one address -----------------------------------------------------

  /** `checked`: a login of the address has passed the check and not failed yet.  `failures` are
      the times at which failed logins of the address were recorded, `locks` whether it was locked
      out right after each. */
  datatype World = World(entries: Entries, clock: int, checked: bool, failures: seq<int>, locks: seq<bool>)

  datatype Event = Pass(time: nat) | Check | Fail | Drop | Other(ip: string) | Accepted(ip: string) | Sweep

  predicate Enabled(w: World, me: string, e: Event) {
    match e
    case Check => !w.checked
    case Fail => w.checked
    case Drop => w.checked
    case Other(ip) => ip != me
    case Accepted(ip) => ip != me
    case _ => true
  }

  /** `Drop` is a login that ends otherwise than by a wrong key, as when the validator cannot be reached. */
  function Next(w: World, me: string, max: nat, lockout: nat, e: Event): World {
    match e
    case Pass(t) => w.(clock := w.clock + t)
    case Check => w.(checked := !LockedAt(w.entries, me, w.clock))
    case Fail =>
      var after := Failed(w.entries, me, max, lockout, w.clock);
      w.(entries := after, checked := false, failures := w.failures + [w.clock], locks := w.locks + [LockedAt(after, me, w.clock)])
    case Drop => w.(checked := false)
    case Other(ip) => w.(entries := Failed(w.entries, ip, max, lockout, w.clock))
    case Accepted(ip) => w.(entries := w.entries - {ip})
    case Sweep => w.(entries := Swept(w.entries, lockout, w.clock))
  }

  predicate Spaced(h: seq<int>, max: nat, lockout: nat) {
    forall i | 0 <= i < |h| - max :: h[i] + lockout <= h[i + max]
  }

  predicate InOrder(h: seq<int>, clock: int) {
    && (forall i, j | 0 <= i < j < |h| :: h[i] <= h[j])
    && (forall i | 0 <= i < |h| :: h[i] <= clock)
  }

  /** Number of failures in the current series. */
  function Current(w: World, me: string): nat {
    if me in w.entries then w.entries[me].failures else 0
  }

  predicate Inv(w: World, me: string, max: nat, lockout: nat) {
    var n, f := |w.failures|, Current(w, me);
    && InOrder(w.failures, w.clock)
    && Spaced(w.failures, max, lockout)
    && f < max && f <= n
    && (0 < f < n ==> w.failures[n - f - 1] + lockout <= w.failures[n - f])
    && (me in w.entries ==> n > 0 && w.entries[me].last == w.failures[n - 1])
    && (f == 0 && n > 0 ==>
          if me in w.entries then w.entries[me].lockedUntil == Some(w.failures[n - 1] + lockout)
          else w.failures[n - 1] + lockout <= w.clock)
    && (w.checked && f == 0 && n > 0 ==> w.failures[n - 1] + lockout <= w.clock)
    && (f > 0 && w.entries[me].lockedUntil.Some? ==> w.entries[me].lockedUntil.value <= w.clock)
  }

  /** With at most max - 1 failures in the current series, and a gap before it, one more is
      far enough from the max-th before. */
  lemma SpacedGrows(h: seq<int>, f: nat, max: nat, lockout: nat, now: int)
    requires InOrder(h, now) && Spaced(h, max, lockout) && f < max && f <= |h|
    requires 0 < f < |h| ==> h[|h| - f - 1] + lockout <= h[|h| - f]
    requires f == 0 && |h| > 0 ==> h[|h| - 1] + lockout <= now
    ensures InOrder(h + [now], now) && Spaced(h + [now], max, lockout)
  {
    if |h| >= max {
      assert h[|h| - max] <= h[|h| - f - 1];
      assert f > 0 ==> h[|h| - f] <= now;
    }
  }

  lemma FailInv(w: World, me: string, max: nat, lockout: nat)
    requires max > 0 && Inv(w, me, max, lockout) && w.checked
    ensures Inv(Next(w, me, max, lockout, Fail), me, max, lockout)
  {
    SpacedGrows(w.failures, Current(w, me), max, lockout, w.clock);
  }

  lemma NextInv(w: World, me: string, max: nat, lockout: nat, e: Event)
    requires max > 0 && Inv(w, me, max, lockout) && Enabled(w, me, e)
    ensures Inv(Next(w, me, max, lockout, e), me, max, lockout)
  {
    if e == Fail {
      FailInv(w, me, max, lockout);
    }
  }

  predicate RunOk(w: World, me: string, max: nat, lockout: nat, run: seq<Event>)
    decreases |run|
  {
    run == [] || (Enabled(w, me, run[0]) && RunOk(Next(w, me, max, lockout, run[0]), me, max, lockout, run[1..]))
  }

  function Run(w: World, me: string, max: nat, lockout: nat, run: seq<Event>): World
    decreases |run|
  {
    if run == [] then w else Run(Next(w, me, max, lockout, run[0]), me, max, lockout, run[1..])
  }

  /** A limiter that has seen nothing. */
  function Fresh(clock: int): World {
    World(map[], clock, false, [], [])
  }

  lemma {:induction false} RunInv(w: World, me: string, max: nat, lockout: nat, run: seq<Event>)
    requires max > 0 && Inv(w, me, max, lockout) && RunOk(w, me, max, lockout, run)
    ensures Inv(Run(w, me, max, lockout, run), me, max, lockout)
    decreases |run|
  {
    if run != [] {
      NextInv(w, me, max, lockout, run[0]);
      RunInv(Next(w, me, max, lockout, run[0]), me, max, lockout, run[1..]);
    }
  }

  // ---- when an address is locked out -----------------------------------------------------------------

  /** The i-th failure is at least the max-th since the lockout before it. */
  predicate EndsSeries(locks: seq<bool>, i: nat, max: nat) {
    i + 1 >= max && forall j | i + 1 - max <= j < i && 0 <= j < |locks| :: !locks[j]
  }

  /** ... and none of the max failures that end with it came later than `lockout` after the one before. */
  predicate Dense(h: seq<int>, i: nat, max: nat, lockout: nat) {
    forall j | i + 1 - max < j <= i && 0 < j < |h| :: h[j] - h[j - 1] <= lockout
  }

  /** The last j failures did not lock, and none came later than `lockout` after the one before. */
  predicate Streak(w: World, j: nat, lockout: nat) {
    var n := |w.failures|;
    && j <= n && |w.locks| == n
    && (forall i | n - j <= i < n :: !w.locks[i])
    && (forall i | n - j < i < n && 0 < i :: w.failures[i] - w.failures[i - 1] <= lockout)
  }

  /** Every lockout came with the max-th failure of a series, and with every such failure of a dense one. */
  predicate Recorded(h: seq<int>, locks: seq<bool>, max: nat, lockout: nat) {
    && |h| == |locks|
    && (forall i | 0 <= i < |h| && locks[i] :: EndsSeries(locks, i, max))
    && (lockout > 0 ==> forall i | 0 <= i < |h| && EndsSeries(locks, i, max) && Dense(h, i, max, lockout) :: locks[i])
  }

  ghost predicate LockInv(w: World, me: string, max: nat, lockout: nat) {
    var n, f := |w.failures|, Current(w, me);
    && |w.locks| == n && f <= n
    && (forall i | n - f <= i < n :: !w.locks[i])
    && (n > 0 && w.locks[n - 1] ==> f == 0)
    && (me in w.entries && f == 0 ==> n > 0 && w.locks[n - 1] == (lockout > 0))
    && Recorded(w.failures, w.locks, max, lockout)
    && (lockout > 0 ==> forall j: nat | Streak(w, j, lockout) :: j <= f || w.failures[n - 1] + lockout < w.clock)
  }

  lemma StreakBefore(w: World, w': World, me: string, max: nat, lockout: nat, j: nat)
    requires max > 0 && LockInv(w, me, max, lockout) && lockout > 0 && w' == Next(w, me, max, lockout, Fail)
    requires Streak(w', j, lockout)
    ensures j <= Current(w', me)
  {
    if j > 0 {
      var n := |w.failures|;
      assert w'.locks[n] == LockedAt(w'.entries, me, w.clock);
      forall i | n - (j - 1) <= i < n ensures !w.locks[i] {
        assert w'.locks[i] == w.locks[i];
      }
      forall i | n - (j - 1) < i < n && 0 < i ensures w.failures[i] - w.failures[i - 1] <= lockout {
        assert w'.failures[i] == w.failures[i] && w'.failures[i - 1] == w.failures[i - 1];
      }
      assert Streak(w, j - 1, lockout);
      assert j > 1 ==> w'.failures[n] - w'.failures[n - 1] <= lockout;
    }
  }

  lemma EndsSeriesGrows(locks: seq<bool>, b: bool, i: nat, max: nat)
    requires i <= |locks|
    ensures EndsSeries(locks + [b], i, max) <==> EndsSeries(locks, i, max)
  {
    forall j | i + 1 - max <= j < i && 0 <= j < |locks| + 1 ensures (locks + [b])[j] == locks[j] {
    }
  }

  lemma DenseGrows(h: seq<int>, now: int, i: nat, max: nat, lockout: nat)
    requires i < |h|
    ensures Dense(h + [now], i, max, lockout) <==> Dense(h, i, max, lockout)
  {
    var h' := h + [now];
    assert forall j | 0 <= j < |h| :: h'[j] == h[j];
    if Dense(h', i, max, lockout) {
      forall j | i + 1 - max < j <= i && 0 < j < |h| ensures h[j] - h[j - 1] <= lockout {
        assert h'[j] - h'[j - 1] <= lockout;
      }
    }
  }

  /** A series of max failures in close succession is a streak, if the last does not lock. */
  lemma SeriesIsStreak(w: World, max: nat, lockout: nat)
    requires max > 0 && |w.locks| == |w.failures| > 0 && !w.locks[|w.locks| - 1]
    requires EndsSeries(w.locks, |w.failures| - 1, max) && Dense(w.failures, |w.failures| - 1, max, lockout)
    ensures Streak(w, max, lockout)
  {
  }

  lemma FailLockInv(w: World, me: string, max: nat, lockout: nat)
    requires max > 0 && Inv(w, me, max, lockout) && LockInv(w, me, max, lockout) && w.checked
    ensures LockInv(Next(w, me, max, lockout, Fail), me, max, lockout)
  {
    var w' := Next(w, me, max, lockout, Fail);
    var n, b := |w.failures|, LockedAt(w'.entries, me, w.clock);
    FailInv(w, me, max, lockout);
    if lockout > 0 {
      FailEndsStreak(w, w', me, max, lockout);
    }
    if b {
      assert EndsSeries(w'.locks, n, max);
    }
    RecordedGrows(w.failures, w.locks, w.clock, b, max, lockout);
  }

  lemma FailEndsStreak(w: World, w': World, me: string, max: nat, lockout: nat)
    requires max > 0 && Inv(w, me, max, lockout) && LockInv(w, me, max, lockout) && w.checked
    requires lockout > 0 && w' == Next(w, me, max, lockout, Fail)
    ensures forall j: nat | Streak(w', j, lockout) :: j <= Current(w', me)
    ensures EndsSeries(w'.locks, |w.failures|, max) && Dense(w'.failures, |w.failures|, max, lockout) ==> w'.locks[|w.failures|]
  {
    var n := |w.failures|;
    FailInv(w, me, max, lockout);
    forall j: nat | Streak(w', j, lockout) ensures j <= Current(w', me) {
      StreakBefore(w, w', me, max, lockout, j);
    }
    if EndsSeries(w'.locks, n, max) && Dense(w'.failures, n, max, lockout) && !w'.locks[n] {
      SeriesIsStreak(w', max, lockout);
    }
  }

  lemma RecordedGrows(h: seq<int>, locks: seq<bool>, now: int, b: bool, max: nat, lockout: nat)
    requires Recorded(h, locks, max, lockout)
    requires b ==> EndsSeries(locks + [b], |h|, max)
    requires lockout > 0 && EndsSeries(locks + [b], |h|, max) && Dense(h + [now], |h|, max, lockout) ==> b
    ensures Recorded(h + [now], locks + [b], max, lockout)
  {
    forall i | 0 <= i < |h|
      ensures EndsSeries(locks + [b], i, max) <==> EndsSeries(locks, i, max)
      ensures Dense(h + [now], i, max, lockout) <==> Dense(h, i, max, lockout)
    {
      EndsSeriesGrows(locks, b, i, max);
      DenseGrows(h, now, i, max, lockout);
    }
  }

  /** Nothing but a failure changes what the history says; the sweeper only forgets what is old. */
  lemma OtherLockInv(w: World, me: string, max: nat, lockout: nat, e: Event)
    requires max > 0 && Inv(w, me, max, lockout) && LockInv(w, me, max, lockout) && Enabled(w, me, e) && e != Fail
    ensures LockInv(Next(w, me, max, lockout, e), me, max, lockout)
  {
    var w' := Next(w, me, max, lockout, e);
    forall j: nat | lockout > 0 && Streak(w', j, lockout)
      ensures j <= Current(w', me) || w'.failures[|w'.failures| - 1] + lockout < w'.clock
    {
      assert Streak(w, j, lockout);
    }
  }

  lemma {:induction false} RunLockInv(w: World, me: string, max: nat, lockout: nat, run: seq<Event>)
    requires max > 0 && Inv(w, me, max, lockout) && LockInv(w, me, max, lockout) && RunOk(w, me, max, lockout, run)
    ensures Inv(Run(w, me, max, lockout, run), me, max, lockout) && LockInv(Run(w, me, max, lockout, run), me, max, lockout)
    decreases |run|
  {
    if run != [] {
      NextInv(w, me, max, lockout, run[0]);
      if run[0] == Fail {
        FailLockInv(w, me, max, lockout);
      } else {
        OtherLockInv(w, me, max, lockout, run[0]);
      }
      RunLockInv(Next(w, me, max, lockout, run[0]), me, max, lockout, run[1..]);
    }
  }

  /** On every run: an address is locked out for `lockout` from a failure that locked it on, and at no
      other time; a failure locks only as the max-th since the lockout before, so that fewer than
      max failures never do; and it does lock if these came in close succession. */
  lemma LockoutIsExact(me: string, max: int, lockout: nat, clock: int, run: seq<Event>)
    requires RunOk(Fresh(clock), me, Limit(max), lockout, run)
    ensures var w := Run(Fresh(clock), me, Limit(max), lockout, run); var n := |w.failures|;
            && Recorded(w.failures, w.locks, Limit(max), lockout)
            && (LockedAt(w.entries, me, w.clock) <==> n > 0 && w.locks[n - 1] && w.clock < w.failures[n - 1] + lockout)
            && (n < Limit(max) ==> !LockedAt(w.entries, me, w.clock))
  {
    RunLockInv(Fresh(clock), me, Limit(max), lockout, run);
  }

  function InWindow(h: seq<int>, from: int, lockout: nat): set<nat> {
    set i | 0 <= i < |h| && from <= h[i] < from + lockout
  }

  /** On every run of sequential logins without an accepted key, whatever other addresses do
      and whenever the sweeper runs: at most `max` failures in any half-open window of length
      `lockout`, and the stored count stays below `max`. */
  lemma RateBound(me: string, max: int, lockout: nat, clock: int, run: seq<Event>, from: int)
    requires RunOk(Fresh(clock), me, Limit(max), lockout, run)
    ensures var w := Run(Fresh(clock), me, Limit(max), lockout, run);
            |InWindow(w.failures, from, lockout)| <= Limit(max) && Current(w, me) < Limit(max)
  {
    RunInv(Fresh(clock), me, Limit(max), lockout, run);
    WindowBound(Run(Fresh(clock), me, Limit(max), lockout, run).failures, Limit(max), lockout, from);
  }

  function Range(lo: nat, n: nat): (s: set<nat>)
    ensures |s| == n && forall i :: i in s <==> lo <= i < lo + n
  {
    if n == 0 then {} else Range(lo, n - 1) + {lo + n - 1}
  }

  lemma WindowBound(h: seq<int>, max: nat, lockout: nat, from: int)
    requires max > 0 && Spaced(h, max, lockout) && forall i, j | 0 <= i < j < |h| :: h[i] <= h[j]
    ensures |InWindow(h, from, lockout)| <= max
  {
    var s := InWindow(h, from, lockout);
    if s != {} {
      var first :| first in s;
      var lo := Least(h, from, lockout, first);
      forall i | i in s ensures i in Range(lo, max) {
        FarApart(h, max, lockout, lo, i);
      }
      SubsetCard(s, Range(lo, max));
    }
  }

  lemma FarApart(h: seq<int>, max: nat, lockout: nat, lo: nat, i: nat)
    requires Spaced(h, max, lockout) && forall i, j | 0 <= i < j < |h| :: h[i] <= h[j]
    requires lo < |h| && i < |h| && h[i] < h[lo] + lockout
    ensures i < lo + max
  {
    assert lo + max < |h| ==> h[lo] + lockout <= h[lo + max];
  }

  lemma SubsetCard(s: set<nat>, t: set<nat>)
    requires s <= t
    ensures |s| <= |t|
  {
    assert t == s + (t - s);
  }

  /** The first failure in the window. */
  lemma {:induction false} Least(h: seq<int>, from: int, lockout: nat, i: nat) returns (lo: nat)
    requires i < |h| && from <= h[i] < from + lockout
    ensures lo < |h| && from <= h[lo] < from + lockout
    ensures forall j | 0 <= j < lo :: !(from <= h[j] < from + lockout)
    decreases i
  {
    lo := i;
    if j :| 0 <= j < i && from <= h[j] < from + lockout {
      lo := Least(h, from, lockout, j);
    }
  }
}
