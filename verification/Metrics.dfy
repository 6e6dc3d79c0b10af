/** Hourly metrics per device, against the log of everything recorded. */
module Metrics {
  import opened Totals

  const Hour := 3600

  /** The start of the hour of a time in seconds since the epoch. */
  function HourOf(t: nat): (h: nat)
    ensures h % Hour == 0 && h <= t < h + Hour
  {
    t / Hour * Hour
  }

  type Devices = map<string, Hours>

  datatype Record = Record(id: string, at: nat, delta: Counters)

  /** The sum of what was recorded for a device since a moment. */
  function SumLog(log: seq<Record>, id: string, since: int): Counters {
    if log == [] then Zero
    else
      var rest := SumLog(log[..|log| - 1], id, since);
      var r := log[|log| - 1];
      if r.id == id && r.at >= since then Add(rest, r.delta) else rest
  }

  function HoursOf(devices: Devices, id: string): Hours {
    if id in devices then devices[id] else map[]
  }

  ghost function SumSince(devices: Devices, id: string, since: int): Counters {
    SumOver(HoursOf(devices, id), Since(HoursOf(devices, id), since))
  }

  /** What a transfer of n bytes counts as: its bytes in one direction, and one transfer of its kind. */
  function TransferOf(kind: string, n: int): (c: Counters)
    ensures c.up + c.down == n && (kind == "upload" ==> c.down == 0) && (kind != "upload" ==> c.up == 0)
    ensures c.uploads + c.streams + c.downloads == 1 && c.uploads >= 0 && c.streams >= 0 && c.downloads >= 0 && c.requests == 0
    ensures c.uploads == 1 <==> kind == "upload"
    ensures c.streams == 1 <==> kind == "stream"
  {
    if kind == "upload" then Counters(0, n, 0, 0, 1, 0)
    else if kind == "stream" then Counters(0, 0, n, 1, 0, 0)
    else Counters(0, 0, n, 0, 0, 1)
  }

  function Added(devices: Devices, id: string, now: nat, delta: Counters): Devices {
    var hours := HoursOf(devices, id);
    devices[id := hours[HourOf(now) := Add(BucketOf(hours, HourOf(now)), delta)]]
  }

  function Cut(now: nat, keep: nat): nat {
    if now < keep then 0 else HourOf(now - keep)
  }

  function PrunedHours(hours: Hours, cut: int): Hours {
    map h | h in hours && h >= cut :: hours[h]
  }

  function PrunedDevices(devices: Devices, cut: int): Devices {
    map id | id in devices :: PrunedHours(devices[id], cut)
  }

  class Store {
    const keep: nat
    var devices: Devices
    var dirty: bool

    constructor (keep: nat)
      ensures this.keep == keep && devices == map[] && !dirty
    {
      this.keep, this.devices, this.dirty := keep, map[], false;
    }

    method Count(id: string, now: nat, delta: Counters)
      modifies this
      ensures devices == Added(old(devices), id, now, delta) && dirty
    {
      if id !in devices {
        devices := devices[id := map[]];
      }
      var h := HourOf(now);
      assert devices[id] == HoursOf(old(devices), id);
      if h !in devices[id] {
        devices := devices[id := devices[id][h := Zero]];
      }
      assert devices[id][h := Zero] == HoursOf(old(devices), id)[h := Zero] && devices[id][h] == BucketOf(HoursOf(old(devices), id), h);
      devices := devices[id := devices[id][h := Add(devices[id][h], delta)]];
      dirty := true;
      assert devices[id] == Added(old(devices), id, now, delta)[id];
    }

    method Request(id: string, now: nat)
      modifies this
      ensures devices == if id == "" then old(devices) else Added(old(devices), id, now, Counters(1, 0, 0, 0, 0, 0))
    {
      if id == "" { return; }
      Count(id, now, Counters(1, 0, 0, 0, 0, 0));
    }

    method Transfer(id: string, kind: string, n: int, now: nat)
      modifies this
      ensures devices == if id == "" then old(devices) else Added(old(devices), id, now, TransferOf(kind, n))
    {
      if id == "" { return; }
      match kind {
        case "upload" => Count(id, now, Counters(0, n, 0, 0, 1, 0));
        case "stream" => Count(id, now, Counters(0, 0, n, 1, 0, 0));
        case _ => Count(id, now, Counters(0, 0, n, 0, 0, 1));
      }
    }

    method Forget(id: string)
      modifies this
      ensures devices == old(devices) - {id} && dirty
    {
      devices := devices - {id};
      dirty := true;
    }

    /** Drops exactly the hours' buckets that had ended by the moment now - keep. */
    method Flush(now: nat)
      modifies this
      ensures devices == if old(dirty) then PrunedDevices(old(devices), Cut(now, keep)) else old(devices)
      ensures old(dirty) ==> devices.Keys == old(devices).Keys
      ensures old(dirty) ==> forall id, h | id in old(devices) && h in old(devices)[id] && h >= 0 && h % Hour == 0 ::
                if h + Hour > now - keep then h in devices[id] && devices[id][h] == old(devices)[id][h] else h !in devices[id]
      ensures !dirty
    {
      if !dirty { return; }
      forall h: int | h >= 0 && h % Hour == 0 ensures h >= Cut(now, keep) <==> h + Hour > now - keep {
        RetentionIs(h, now, keep);
      }
      var cut := Cut(now, keep);
      ghost var before := devices;
      var todo := devices.Keys;
      while todo != {}
        invariant todo <= before.Keys && devices.Keys == before.Keys
        invariant forall id | id in before ::
                    devices[id] == if id in todo then before[id] else PrunedHours(before[id], cut)
        decreases todo
      {
        var id :| id in todo;
        devices := devices[id := map h | h in devices[id] && h >= cut :: devices[id][h]];
        todo := todo - {id};
      }
      dirty := false;
      assert devices == PrunedDevices(before, cut);
    }

    /** Everything since a moment. */
    method Sum(id: string, since: int) returns (t: Counters)
      ensures t == SumSince(devices, id, since)
    {
      t := Zero;
      if id !in devices { return; }
      var hours := devices[id];
      var todo := hours.Keys;
      ghost var counted: set<int> := {};
      while exists h :: h in todo
        invariant todo <= hours.Keys
        invariant counted == (set h | h in hours && h !in todo && h >= since)
        invariant t == SumOver(hours, counted)
        decreases todo
      {
        var h :| h in todo;
        if h >= since {
          SumTakes(hours, counted + {h}, h);
          assert counted + {h} - {h} == counted;
          t := Add(t, hours[h]);
          counted := counted + {h};
        }
        todo := todo - {h};
      }
      assert counted == Since(hours, since);
    }

    /** The buckets from `start` on, in steps; each bucket is counted in exactly one point. */
    method Series(id: string, start: nat, step: nat, now: nat) returns (out: seq<Counters>)
      requires step > 0 && start <= now
      ensures |out| == (now - start) / step + 1
      ensures forall i | 0 <= i < |out| :: Point(HoursOf(devices, id), HoursOf(devices, id).Keys, out, start, step, i)
      ensures (forall h | h in HoursOf(devices, id) :: h <= now) ==> Total(out) == SumSince(devices, id, start)
    {
      var n := (now - start) / step + 1;
      out := Zeros(n);
      var hours := if id in devices then devices[id] else map[];
      var todo := hours.Keys;
      ghost var counted: set<int> := {};
      NothingCounted(hours, n, start, step);
      while exists h :: h in todo
        invariant todo <= hours.Keys && |out| == n
        invariant counted == InRange(hours, start, step, n) - todo
        invariant Counting(hours, counted, out, start, step)
        decreases todo
      {
        var h :| h in todo;
        if h >= start && SlotNo(h, start, step) < n {
          CountOne(hours, counted, out, start, step, h);
          out := out[SlotNo(h, start, step) := Add(out[SlotNo(h, start, step)], hours[h])];
          counted := counted + {h};
        }
        todo := todo - {h};
      }
      AllCounted(hours, counted, out, start, step, now);
    }
  }

  function InRange(hours: Hours, start: nat, step: nat, n: nat): set<int>
    requires step > 0
  {
    set h | h in hours && h >= start && SlotNo(h, start, step) < n
  }

  /** The i-th point has what was counted of its step. */
  ghost predicate Point(hours: Hours, counted: set<int>, out: seq<Counters>, start: nat, step: nat, i: nat)
    requires step > 0 && counted <= hours.Keys && i < |out|
  {
    out[i] == SumOver(hours, SlotIn(counted, start, step, i))
  }

  /** Every point has what was counted of its step, and together they have all of it. */
  ghost predicate Counting(hours: Hours, counted: set<int>, out: seq<Counters>, start: nat, step: nat)
    requires step > 0
  {
    && counted <= hours.Keys
    && (forall i | 0 <= i < |out| :: Point(hours, counted, out, start, step, i))
    && Total(out) == SumOver(hours, counted)
  }

  /** The step an hour falls into. */
  function SlotNo(h: int, start: nat, step: nat): (i: nat)
    requires step > 0 && h >= start
    ensures start + i * step <= h < start + (i + 1) * step
  {
    DivMonotone(0, h - start, step);
    (h - start) / step
  }

  /** The hours that fall into the i-th step. */
  function SlotIn(s: set<int>, start: nat, step: nat, i: nat): set<int>
    requires step > 0
  {
    set h | h in s && h >= start && SlotNo(h, start, step) == i
  }

  lemma NothingCounted(hours: Hours, n: nat, start: nat, step: nat)
    requires step > 0
    ensures |Zeros(n)| == n && Counting(hours, {}, Zeros(n), start, step)
  {
    ZerosTotal(n);
    forall i | 0 <= i < n ensures Point(hours, {}, Zeros(n), start, step, i) {
      assert SlotIn({}, start, step, i) == {};
      ZeroAt(n, i);
    }
  }

  lemma SlotGrows(hours: Hours, counted: set<int>, start: nat, step: nat, h: int, i: nat)
    requires step > 0 && counted <= hours.Keys && h in hours && h !in counted && h >= start
    ensures var was := SumOver(hours, SlotIn(counted, start, step, i));
            SumOver(hours, SlotIn(counted + {h}, start, step, i)) == (if SlotNo(h, start, step) == i then Add(was, hours[h]) else was)
  {
    var s := SlotIn(counted, start, step, i);
    if SlotNo(h, start, step) == i {
      assert SlotIn(counted + {h}, start, step, i) == s + {h};
      SumTakes(hours, s + {h}, h);
      assert s + {h} - {h} == s;
    } else {
      assert SlotIn(counted + {h}, start, step, i) == s;
    }
  }

  lemma CountOne(hours: Hours, counted: set<int>, out: seq<Counters>, start: nat, step: nat, h: int)
    requires step > 0 && Counting(hours, counted, out, start, step)
    requires h in hours && h !in counted && h >= start && SlotNo(h, start, step) < |out|
    ensures var k := SlotNo(h, start, step);
            Counting(hours, counted + {h}, out[k := Add(out[k], hours[h])], start, step)
  {
    var k := SlotNo(h, start, step);
    SumTakes(hours, counted + {h}, h);
    assert counted + {h} - {h} == counted;
    TotalAfterAdd(out, k, hours[h]);
    var out' := out[k := Add(out[k], hours[h])];
    forall i | 0 <= i < |out| ensures Point(hours, counted + {h}, out', start, step, i) {
      assert Point(hours, counted, out, start, step, i);
      SlotGrows(hours, counted, start, step, h, i);
    }
  }

  lemma AllCounted(hours: Hours, counted: set<int>, out: seq<Counters>, start: nat, step: nat, now: nat)
    requires step > 0 && start <= now && |out| == (now - start) / step + 1
    requires Counting(hours, counted, out, start, step) && counted == InRange(hours, start, step, |out|)
    ensures forall i | 0 <= i < |out| :: Point(hours, hours.Keys, out, start, step, i)
    ensures (forall h | h in hours :: h <= now) ==> Total(out) == SumOver(hours, Since(hours, start))
  {
    forall i | 0 <= i < |out| ensures Point(hours, hours.Keys, out, start, step, i) {
      assert Point(hours, counted, out, start, step, i);
      assert SlotIn(counted, start, step, i) == SlotIn(hours.Keys, start, step, i);
    }
    if forall h | h in hours :: h <= now {
      forall h | h in hours && start <= h ensures SlotNo(h, start, step) < |out| {
        DivMonotone(h - start, now - start, step);
      }
      assert counted == Since(hours, start);
    }
  }

  lemma MulMonotone(x: nat, y: nat, d: nat)
    requires x <= y
    ensures x * d <= y * d
  {
  }

  lemma LessByProduct(x: nat, y: nat, d: nat)
    requires x * d < y * d
    ensures x < y
  {
    if y <= x {
      MulMonotone(y, x, d);
    }
  }

  lemma DivMonotone(a: nat, b: nat, d: nat)
    requires d > 0 && a <= b
    ensures a / d <= b / d
  {
    var x, y := a / d, b / d;
    assert x * d <= a && b < (y + 1) * d;
    LessByProduct(x, y + 1, d);
  }

  // ---- the buckets refine the log --------------------------------------------------------------

  datatype World = World(devices: Devices, clock: nat, log: seq<Record>)

  datatype Event = Pass(time: nat) | Counted(id: string, delta: Counters) | Flushed(keep: nat) | Forgotten(id: string)

  function WithoutId(log: seq<Record>, id: string): seq<Record> {
    if log == [] then []
    else
      var rest := WithoutId(log[..|log| - 1], id);
      if log[|log| - 1].id == id then rest else rest + [log[|log| - 1]]
  }

  function Next(w: World, e: Event): World {
    match e
    case Pass(t) => w.(clock := w.clock + t)
    case Counted(id, delta) =>
      if id == "" then w
      else w.(devices := Added(w.devices, id, w.clock, delta), log := w.log + [Record(id, w.clock, delta)])
    case Flushed(keep) => w.(devices := PrunedDevices(w.devices, Cut(w.clock, keep)))
    case Forgotten(id) => w.(devices := w.devices - {id}, log := WithoutId(w.log, id))
  }

  /** The sums agree with the log from every full hour on that ends after `horizon`. */
  ghost predicate Refines(w: World, horizon: int) {
    && (forall id, h | id in w.devices && h in w.devices[id] :: 0 <= h <= w.clock && h % Hour == 0)
    && forall id: string, since: int | since + Hour > horizon && since % Hour == 0 ::
         SumSince(w.devices, id, since) == SumLog(w.log, id, since)
  }

  lemma CountedRefines(w: World, id: string, delta: Counters, id': string, since: int)
    requires SumSince(w.devices, id', since) == SumLog(w.log, id', since) && since % Hour == 0
    ensures var d := Added(w.devices, id, w.clock, delta);
            SumSince(d, id', since) == SumLog(w.log + [Record(id, w.clock, delta)], id', since)
  {
    var log := w.log + [Record(id, w.clock, delta)];
    assert log[..|log| - 1] == w.log;
    SumAfterAdd(HoursOf(w.devices, id), HourOf(w.clock), delta, since);
    assert HourOf(w.clock) >= since <==> w.clock >= since;
  }

  /** Retention: of the hours' buckets exactly those stay that end after the moment now - keep. */
  lemma RetentionIs(h: int, now: nat, keep: nat)
    requires h >= 0 && h % Hour == 0
    ensures h >= Cut(now, keep) <==> h + Hour > now - keep
  {
    if now >= keep {
      var c := HourOf(now - keep);
      assert h + Hour <= c || h >= c by {
        FullHoursApart(h, c);
      }
    }
  }

  lemma FullHoursApart(a: int, b: int)
    requires a % Hour == 0 && b % Hour == 0
    ensures a + Hour <= b || a >= b
  {
  }

  lemma FlushedRefines(devices: Devices, cut: int, id: string, since: int)
    requires forall h | id in devices && h in devices[id] && h >= since :: h >= cut
    ensures SumSince(PrunedDevices(devices, cut), id, since) == SumSince(devices, id, since)
  {
    var a, b := HoursOf(devices, id), HoursOf(PrunedDevices(devices, cut), id);
    assert Since(a, since) == Since(b, since);
    SumFrame(a, b, Since(a, since));
  }

  lemma {:induction false} ForgottenLog(log: seq<Record>, id: string, id': string, since: int)
    ensures SumLog(WithoutId(log, id), id', since) == if id' == id then Zero else SumLog(log, id', since)
    decreases |log|
  {
    if log != [] {
      var rest := WithoutId(log[..|log| - 1], id);
      ForgottenLog(log[..|log| - 1], id, id', since);
      assert (rest + [log[|log| - 1]])[..|rest|] == rest;
    }
  }

  /** A flush moves the horizon to its own time minus what it keeps. */
  function Horizon(horizon: int, clock: nat, e: Event): int {
    if e.Flushed? && clock - e.keep > horizon then clock - e.keep else horizon
  }

  lemma NextRefines(w: World, e: Event, horizon: int)
    requires Refines(w, horizon)
    ensures Refines(Next(w, e), Horizon(horizon, w.clock, e))
  {
    var w' := Next(w, e);
    forall id: string, since: int | since + Hour > Horizon(horizon, w.clock, e) && since % Hour == 0
      ensures SumSince(w'.devices, id, since) == SumLog(w'.log, id, since)
    {
      assert SumSince(w.devices, id, since) == SumLog(w.log, id, since);
      match e
      case Pass(_) =>
      case Counted(i, delta) => if i != "" { CountedRefines(w, i, delta, id, since); }
      case Flushed(keep) => FlushKeepsSum(w, keep, id, since);
      case Forgotten(i) => ForgottenLog(w.log, i, id, since);
    }
  }

  lemma FlushKeepsSum(w: World, keep: nat, id: string, since: int)
    requires forall id, h | id in w.devices && h in w.devices[id] :: h >= 0 && h % Hour == 0
    requires since + Hour > w.clock - keep && since % Hour == 0
    ensures SumSince(PrunedDevices(w.devices, Cut(w.clock, keep)), id, since) == SumSince(w.devices, id, since)
  {
    forall h | id in w.devices && h in w.devices[id] && h >= since ensures h >= Cut(w.clock, keep) {
      RetentionIs(h, w.clock, keep);
    }
    FlushedRefines(w.devices, Cut(w.clock, keep), id, since);
  }

  function Run(w: World, run: seq<Event>): World
    decreases |run|
  {
    if run == [] then w else Run(Next(w, run[0]), run[1..])
  }

  /** The latest of the moments `time of a flush - what it keeps`. */
  function LatestHorizon(horizon: int, clock: nat, run: seq<Event>): int
    decreases |run|
  {
    if run == [] then horizon
    else LatestHorizon(Horizon(horizon, clock, run[0]), if run[0].Pass? then clock + run[0].time else clock, run[1..])
  }

  lemma {:induction false} RunRefines(w: World, run: seq<Event>, horizon: int)
    requires Refines(w, horizon)
    ensures Refines(Run(w, run), LatestHorizon(horizon, w.clock, run))
    decreases |run|
  {
    if run != [] {
      NextRefines(w, run[0], horizon);
      RunRefines(Next(w, run[0]), run[1..], Horizon(horizon, w.clock, run[0]));
    }
  }

  /** The bytes or counts of a device since a moment, added up as numbers. */
  function SumOfField(log: seq<Record>, id: string, since: int, f: Field): int {
    if log == [] then 0
    else
      var r := log[|log| - 1];
      SumOfField(log[..|log| - 1], id, since, f) + if r.id == id && r.at >= since then ValueOf(r.delta, f) else 0
  }

  lemma {:induction false} LogAddsUp(log: seq<Record>, id: string, since: int, f: Field)
    ensures ValueOf(SumLog(log, id, since), f) == SumOfField(log, id, since, f)
    decreases |log|
  {
    if log != [] {
      LogAddsUp(log[..|log| - 1], id, since, f);
      AddsFields(SumLog(log[..|log| - 1], id, since), log[|log| - 1].delta, f);
    }
  }

  /** On every run from an empty store, the sum from a full hour on is that of the records since, if
      the hour ends after every moment `time of a flush - what it keeps`; without flushes, from any
      full hour on that there has been. */
  lemma SumIsLogSum(clock: nat, run: seq<Event>, id: string, since: int)
    requires since % Hour == 0 && since + Hour > LatestHorizon(0, clock, run)
    ensures var w := Run(World(map[], clock, []), run);
            && SumSince(w.devices, id, since) == SumLog(w.log, id, since)
            && forall f :: ValueOf(SumSince(w.devices, id, since), f) == SumOfField(w.log, id, since, f)
  {
    var w0 := World(map[], clock, []);
    assert Refines(w0, 0);
    RunRefines(w0, run, 0);
    forall f ensures ValueOf(SumLog(Run(w0, run).log, id, since), f) == SumOfField(Run(w0, run).log, id, since, f) {
      LogAddsUp(Run(w0, run).log, id, since, f);
    }
  }

  // ---- several devices ---------------------------------------------------------------------------

  function Column(all: seq<seq<Counters>>, i: nat): Counters
    decreases |all|
  {
    if all == [] then Zero
    else
      var last := all[|all| - 1];
      Add(Column(all[..|all| - 1], i), if i < |last| then last[i] else Zero)
  }

  function GrandTotal(all: seq<seq<Counters>>): Counters
    decreases |all|
  {
    if all == [] then Zero else Add(GrandTotal(all[..|all| - 1]), Total(all[|all| - 1]))
  }

  function At(points: seq<Counters>, i: nat): Counters {
    if i < |points| then points[i] else Zero
  }

  predicate SumAt(sum: seq<Counters>, a: seq<Counters>, b: seq<Counters>, i: nat) {
    At(sum, i) == Add(At(a, i), At(b, i))
  }

  /** sum is the point-by-point sum of a and b. */
  ghost predicate IsSum(sum: seq<Counters>, a: seq<Counters>, b: seq<Counters>) {
    && |sum| == (if |a| < |b| then |b| else |a|)
    && forall i: nat :: SumAt(sum, a, b, i)
  }

  function AddNext(sum: seq<Counters>, i: nat, x: Counters): seq<Counters> {
    if i >= |sum| then sum + [x] else sum[i := Add(sum[i], x)]
  }

  lemma SumAtNext(sum: seq<Counters>, a: seq<Counters>, b: seq<Counters>, x: Counters, k: nat)
    requires |sum| == (if |a| < |b| then |b| else |a|) && SumAt(sum, a, b, k)
    ensures SumAt(AddNext(sum, |b|, x), a, b + [x], k)
  {
    AtAppend(b, x, k);
    AtAddNext(sum, |b|, x, k);
  }

  lemma AtAppend(b: seq<Counters>, x: Counters, k: nat)
    ensures At(b + [x], k) == if k == |b| then x else At(b, k)
  {
  }

  lemma AtAddNext(sum: seq<Counters>, i: nat, x: Counters, k: nat)
    requires i <= |sum|
    ensures At(AddNext(sum, i, x), k) == if k == i then Add(At(sum, k), x) else At(sum, k)
  {
    AtAppend(sum, x, k);
  }

  lemma SumNext(sum: seq<Counters>, a: seq<Counters>, b: seq<Counters>, x: Counters)
    requires IsSum(sum, a, b) && Total(sum) == Add(Total(a), Total(b))
    ensures IsSum(AddNext(sum, |b|, x), a, b + [x]) && Total(AddNext(sum, |b|, x)) == Add(Total(a), Total(b + [x]))
  {
    var next, b' := AddNext(sum, |b|, x), b + [x];
    TotalSplit(b, [x]);
    forall k: nat ensures SumAt(next, a, b', k) {
      SumAtNext(sum, a, b, x, k);
    }
    if |b| >= |sum| {
      TotalSplit(sum, [x]);
    } else {
      TotalAfterAdd(sum, |b|, x);
    }
  }

  /** One device's series added to the sum so far, which it may extend. */
  method AddSeries(series: seq<Counters>, pts: seq<Counters>) returns (sum: seq<Counters>)
    ensures IsSum(sum, series, pts)
    ensures Total(sum) == Add(Total(series), Total(pts))
  {
    sum := series;
    var i := 0;
    while i < |pts|
      invariant 0 <= i <= |pts|
      invariant IsSum(sum, series, pts[..i]) && Total(sum) == Add(Total(series), Total(pts[..i]))
    {
      SumNext(sum, series, pts[..i], pts[i]);
      assert pts[..i + 1] == pts[..i] + [pts[i]];
      if i >= |sum| {
        sum := sum + [pts[i]];
      } else {
        sum := sum[i := Add(sum[i], pts[i])];
      }
      i := i + 1;
    }
    assert pts[..i] == pts;
  }

  predicate ColumnOk(series: seq<Counters>, all: seq<seq<Counters>>, i: nat) {
    At(series, i) == Column(all, i)
  }

  /** series is the sum of all, column by column and in total. */
  ghost predicate SumsUp(series: seq<Counters>, all: seq<seq<Counters>>) {
    && (forall i: nat :: ColumnOk(series, all, i))
    && Total(series) == GrandTotal(all)
    && forall j | 0 <= j < |all| :: |all[j]| <= |series|
  }

  lemma SumsUpNext(series: seq<Counters>, all: seq<seq<Counters>>, pts: seq<Counters>, sum: seq<Counters>)
    requires SumsUp(series, all) && IsSum(sum, series, pts) && Total(sum) == Add(Total(series), Total(pts))
    ensures SumsUp(sum, all + [pts])
  {
    assert (all + [pts])[..|all|] == all;
    forall i: nat ensures ColumnOk(sum, all + [pts], i) {
      assert ColumnOk(series, all, i);
      assert SumAt(sum, series, pts, i);
    }
  }

  /** The devices' series summed into one, even when their lengths differ. */
  method SeriesFor(all: seq<seq<Counters>>) returns (series: seq<Counters>)
    ensures SumsUp(series, all)
  {
    series := [];
    var k := 0;
    while k < |all|
      invariant 0 <= k <= |all| && SumsUp(series, all[..k])
    {
      var sum := AddSeries(series, all[k]);
      SumsUpNext(series, all[..k], all[k], sum);
      assert all[..k + 1] == all[..k] + [all[k]];
      series := sum;
      k := k + 1;
    }
    assert all[..k] == all;
  }

  function SumLogAll(log: seq<Record>, ids: seq<string>, since: int): Counters
    decreases |ids|
  {
    if ids == [] then Zero else Add(SumLogAll(log, ids[..|ids| - 1], since), SumLog(log, ids[|ids| - 1], since))
  }

  /** Sums over several devices are sums over their records. */
  method SumMany(store: Store, ghost w: World, ghost horizon: int, ids: seq<string>, since: int) returns (t: Counters)
    requires Refines(w, horizon) && store.devices == w.devices && since + Hour > horizon && since % Hour == 0
    ensures t == SumLogAll(w.log, ids, since)
  {
    t := Zero;
    var k := 0;
    while k < |ids|
      invariant 0 <= k <= |ids| && t == SumLogAll(w.log, ids[..k], since)
    {
      var x := store.Sum(ids[k], since);
      assert ids[..k + 1][..k] == ids[..k];
      t := Add(t, x);
      k := k + 1;
    }
    assert ids[..k] == ids;
  }
}
