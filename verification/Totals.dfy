/** Counters, and sums of counters over sets of hours. */
module Totals {
  datatype Counters = Counters(requests: int, up: int, down: int, streams: int, uploads: int, downloads: int)

  const Zero := Counters(0, 0, 0, 0, 0, 0)

  function Add(a: Counters, b: Counters): Counters {
    Counters(a.requests + b.requests, a.up + b.up, a.down + b.down,
             a.streams + b.streams, a.uploads + b.uploads, a.downloads + b.downloads)
  }

  datatype Field = Requests | Up | Down | Streams | Uploads | Downloads

  function ValueOf(c: Counters, f: Field): int {
    match f
    case Requests => c.requests
    case Up => c.up
    case Down => c.down
    case Streams => c.streams
    case Uploads => c.uploads
    case Downloads => c.downloads
  }

  /** Every counter is added to its like. */
  lemma AddsFields(a: Counters, b: Counters, f: Field)
    ensures ValueOf(Add(a, b), f) == ValueOf(a, f) + ValueOf(b, f) && ValueOf(Zero, f) == 0
  {
  }

  /** The hourly buckets of one device. */
  type Hours = map<int, Counters>

  ghost function Pick(s: set<int>): (h: int)
    requires exists h :: h in s
    ensures h in s
  {
    var h :| h in s; h
  }

  ghost function SumOver(hours: Hours, s: set<int>): Counters
    requires s <= hours.Keys
  {
    if exists h :: h in s then Add(hours[Pick(s)], SumOver(hours, s - {Pick(s)})) else Zero
  }

  /** The order of summation does not matter. */
  lemma {:induction false} SumTakes(hours: Hours, s: set<int>, h: int)
    requires s <= hours.Keys && h in s
    ensures SumOver(hours, s) == Add(hours[h], SumOver(hours, s - {h}))
    decreases |s|
  {
    var x := Pick(s);
    if x != h {
      SumTakes(hours, s - {x}, h);
      SumTakes(hours, s - {h}, x);
      assert s - {x} - {h} == s - {h} - {x};
    }
  }

  /** Buckets outside the set do not matter. */
  lemma {:induction false} SumFrame(a: Hours, b: Hours, s: set<int>)
    requires s <= a.Keys && s <= b.Keys && forall h | h in s :: a[h] == b[h]
    ensures SumOver(a, s) == SumOver(b, s)
    decreases |s|
  {
    if exists h :: h in s {
      var h := Pick(s);
      SumTakes(a, s, h);
      SumTakes(b, s, h);
      SumFrame(a, b, s - {h});
    }
  }

  function Since(hours: Hours, since: int): set<int> {
    set h | h in hours && h >= since
  }

  function BucketOf(hours: Hours, h: int): Counters {
    if h in hours then hours[h] else Zero
  }

  /** Adding to one bucket adds to every sum that covers it, and to no other. */
  lemma SumAfterAdd(hours: Hours, h: int, delta: Counters, since: int)
    ensures var after := hours[h := Add(BucketOf(hours, h), delta)];
            var was := SumOver(hours, Since(hours, since));
            SumOver(after, Since(after, since)) == (if h >= since then Add(was, delta) else was)
  {
    var after := hours[h := Add(BucketOf(hours, h), delta)];
    var s, s' := Since(hours, since), Since(after, since);
    if h >= since {
      assert s' - {h} == s - {h};
      SumFrame(hours, after, s - {h});
      SumTakes(after, s', h);
      if h in s {
        SumTakes(hours, s, h);
      } else {
        assert s - {h} == s;
      }
    } else {
      assert s' == s;
      SumFrame(hours, after, s);
    }
  }

  // ---- series of counters --------------------------------------------------------------------

  function Total(points: seq<Counters>): Counters {
    if points == [] then Zero else Add(points[0], Total(points[1..]))
  }

  lemma {:induction false} TotalSplit(a: seq<Counters>, b: seq<Counters>)
    ensures Total(a + b) == Add(Total(a), Total(b))
    decreases |a|
  {
    if a == [] {
      assert a + b == b;
    } else {
      assert (a + b)[1..] == a[1..] + b;
      TotalSplit(a[1..], b);
    }
  }

  /** Adding at one place adds to the total. */
  lemma TotalAfterAdd(points: seq<Counters>, i: nat, delta: Counters)
    requires i < |points|
    ensures Total(points[i := Add(points[i], delta)]) == Add(Total(points), delta)
  {
    var p := points[i := Add(points[i], delta)];
    assert points == points[..i] + ([points[i]] + points[i + 1..]);
    assert p == points[..i] + ([p[i]] + points[i + 1..]);
    TotalSplit(points[..i], [points[i]] + points[i + 1..]);
    TotalSplit(points[..i], [p[i]] + points[i + 1..]);
    assert ([points[i]] + points[i + 1..])[1..] == points[i + 1..];
    assert ([p[i]] + points[i + 1..])[1..] == points[i + 1..];
  }

  function Zeros(n: nat): seq<Counters> {
    if n == 0 then [] else [Zero] + Zeros(n - 1)
  }

  lemma {:induction false} ZerosTotal(n: nat)
    ensures |Zeros(n)| == n && Total(Zeros(n)) == Zero
  {
    if n > 0 {
      ZerosTotal(n - 1);
      assert ([Zero] + Zeros(n - 1))[1..] == Zeros(n - 1);
    }
  }

  lemma {:induction false} ZeroAt(n: nat, i: nat)
    requires i < n
    ensures |Zeros(n)| == n && Zeros(n)[i] == Zero
  {
    ZerosTotal(n);
    if i > 0 {
      ZeroAt(n - 1, i - 1);
    }
  }
}
