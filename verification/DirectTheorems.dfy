/** What the direct-read plan guarantees, with and without faults. */
module DirectTheorems {
  import opened Prelude
  import opened Telemetry
  import opened DirectPlan

  // ----- the cut into chunks -----

  /** The tiles are consecutive and disjoint, none is empty or larger than `size`, and together they are
      exactly [lo, hi]. */
  ghost predicate Tile(ts: seq<Range>, lo: int, hi: int, size: nat) {
    && (ts == [] <==> lo > hi)
    && (ts != [] ==> ts[0].lo == lo && ts[|ts| - 1].hi == hi)
    && (forall k :: 0 <= k < |ts| ==> ts[k].lo <= ts[k].hi <= ts[k].lo + size - 1)
    && (forall k :: 0 <= k < |ts| - 1 ==> ts[k + 1].lo == ts[k].hi + 1 && ts[k].hi == ts[k].lo + size - 1)
  }

  lemma {:induction false} TilesTile(lo: int, hi: int, size: nat)
    requires 0 < size
    ensures Tile(Tiles(lo, hi, size), lo, hi, size)
    decreases hi - lo + 1
  {
    if lo <= hi {
      var next := Min(lo + size - 1, hi) + 1;
      TilesTile(next, hi, size);
      var rest, ts := Tiles(next, hi, size), Tiles(lo, hi, size);
      forall k | 0 <= k < |ts| - 1 ensures ts[k + 1].lo == ts[k].hi + 1 && ts[k].hi == ts[k].lo + size - 1 {
        assert ts[k + 1] == rest[k];
        if k > 0 { assert ts[k] == rest[k - 1]; }
      }
    }
  }

  lemma {:induction false} TileOf(lo: int, hi: int, size: nat, x: int)
    requires 0 < size && lo <= x <= hi
    ensures exists k :: 0 <= k < |Tiles(lo, hi, size)| && Tiles(lo, hi, size)[k].lo <= x <= Tiles(lo, hi, size)[k].hi
    decreases hi - lo
  {
    var end := Min(lo + size - 1, hi);
    if x <= end {
      assert Tiles(lo, hi, size)[0].lo <= x <= Tiles(lo, hi, size)[0].hi;
    } else {
      TileOf(end + 1, hi, size, x);
      var rest := Tiles(end + 1, hi, size);
      assert Tiles(lo, hi, size) == [Range(lo, end)] + rest;
      hide Tiles, Min;
      var k :| 0 <= k < |rest| && rest[k].lo <= x <= rest[k].hi;
      assert Tiles(lo, hi, size)[k + 1] == rest[k];
    }
  }

  /** The number of tiles is the number of points over the size, rounded up. */
  lemma {:induction false} TileCount(lo: int, hi: int, size: nat)
    requires 0 < size && lo <= hi
    ensures size * |Tiles(lo, hi, size)| - size < hi - lo + 1 <= size * |Tiles(lo, hi, size)|
    decreases hi - lo
  {
    if lo + size <= hi { TileCount(lo + size, hi, size); }
  }

  // ----- under any pattern of faults, every wanted index is answered or asked for alone -----

  predicate Covers(e: Entry, g: int, x: int) { e.group == g && e.lo <= x <= e.hi }

  /** Some request for the point succeeded, or the point was asked for alone. */
  ghost predicate Attended(log: seq<Entry>, g: int, x: int) {
    exists e :: e in log && Covers(e, g, x) && (e.reply.Points? || (e.lo == x && e.hi == x))
  }

  lemma AttendedInPart(part: seq<Entry>, log: seq<Entry>, g: int, x: int)
    requires Attended(part, g, x) && forall e :: e in part ==> e in log
    ensures Attended(log, g, x)
  {
    var e :| e in part && Covers(e, g, x) && (e.reply.Points? || (e.lo == x && e.hi == x));
    assert e in log;
  }

  lemma {:induction false} SinglesAttend(o: Oracle, n: nat, g: int, indices: seq<int>, x: int)
    requires RangeGroup(g) && x in indices
    ensures exists e :: e in Singles(o, n, g, indices) && e.group == g && e.lo == x && e.hi == x
    decreases |indices|
  {
    var log := Singles(o, n, g, indices);
    if indices[0] == x {
      assert log[0] in log;
    } else {
      SinglesAttend(o, n + 1, g, indices[1..], x);
      var e :| e in Singles(o, n + 1, g, indices[1..]) && e.group == g && e.lo == x && e.hi == x;
      assert e in log;
    }
  }

  /** Every wanted index of a chunk that failed twice is requested alone. */
  lemma TwiceFailedAskedAlone(o: Oracle, n: nat, g: int, lo: int, hi: int, indices: seq<int>, x: int)
    requires RangeGroup(g) && x in indices && lo <= x <= hi
    ensures o(n, g, lo, hi).Fault? && o(n + 1, g, lo, hi).Fault? ==>
      exists e :: e in ChunkReads(o, n, g, lo, hi, indices)[2..] && e.group == g && e.lo == x && e.hi == x
    ensures Attended(ChunkReads(o, n, g, lo, hi, indices), g, x)
  {
    var log := ChunkReads(o, n, g, lo, hi, indices);
    if o(n, g, lo, hi).Points? {
      assert log[0] in log && Covers(log[0], g, x);
    } else if o(n + 1, g, lo, hi).Points? {
      assert log[1] in log && Covers(log[1], g, x);
    } else {
      WithinExactly(indices, lo, hi, x);
      SinglesAttend(o, n + 2, g, Within(indices, lo, hi), x);
      assert log[2..] == Singles(o, n + 2, g, Within(indices, lo, hi));
      var e :| e in log[2..] && e.group == g && e.lo == x && e.hi == x;
      assert e in log && Covers(e, g, x);
    }
  }

  lemma {:induction false} TileReadsAttend(o: Oracle, n: nat, g: int, ts: seq<Range>, indices: seq<int>, k: nat, x: int)
    requires RangeGroup(g) && x in indices && k < |ts| && ts[k].lo <= x <= ts[k].hi
    ensures Attended(TileReads(o, n, g, ts, indices), g, x)
    decreases |ts|
  {
    var here := ChunkReads(o, n, g, ts[0].lo, ts[0].hi, indices);
    if k == 0 {
      TwiceFailedAskedAlone(o, n, g, ts[0].lo, ts[0].hi, indices, x);
      AttendedInPart(here, TileReads(o, n, g, ts, indices), g, x);
    } else {
      TileReadsAttend(o, n + |here|, g, ts[1..], indices, k - 1, x);
      AttendedInPart(TileReads(o, n + |here|, g, ts[1..], indices), TileReads(o, n, g, ts, indices), g, x);
    }
  }

  /** First and last index bound the rest. */
  predicate Spans(indices: seq<int>) { indices != [] && indices[0] <= indices[|indices| - 1] }

  lemma IncreasingBounds(indices: seq<int>, x: int)
    requires Increasing(indices) && x in indices
    ensures indices[0] <= x <= indices[|indices| - 1]
  {
    var k :| 0 <= k < |indices| && indices[k] == x;
  }

  lemma GroupAttends(o: Oracle, n: nat, g: int, indices: seq<int>, l: Limits, x: int)
    requires RangeGroup(g) && x in indices && indices[0] <= x <= indices[|indices| - 1]
    ensures Attended(GroupReads(o, Always, n, g, indices, l), g, x)
  {
    var log := GroupReads(o, Always, n, g, indices, l);
    var lo, hi := indices[0], indices[|indices| - 1];
    if |indices| * l.ratio < hi - lo + 1 {
      SinglesAttend(o, n, g, indices, x);
      var e :| e in log && e.group == g && e.lo == x && e.hi == x;
      assert Covers(e, g, x);
    } else if hi - lo + 1 <= ChunkSize(l.maxPoints, g) {
      if log[0].reply.Points? {
        assert log[0] in log && Covers(log[0], g, x);
      } else {
        SinglesAttend(o, n + 1, g, indices, x);
        var e :| e in Singles(o, n + 1, g, indices) && e.group == g && e.lo == x && e.hi == x;
        assert e in log && Covers(e, g, x);
      }
    } else {
      var size := ChunkSize(l.maxPoints, g);
      TileOf(lo, hi, size, x);
      var k :| 0 <= k < |Tiles(lo, hi, size)| && Tiles(lo, hi, size)[k].lo <= x <= Tiles(lo, hi, size)[k].hi;
      TileReadsAttend(o, n, g, Tiles(lo, hi, size), indices, k, x);
    }
  }

  lemma {:induction false} BatchAttends(o: Oracle, n: nat, ps: seq<GroupPlan>, l: Limits, k: nat, x: int)
    requires k < |ps| && RangeGroup(ps[k].group) && x in ps[k].indices
    requires ps[k].indices[0] <= x <= ps[k].indices[|ps[k].indices| - 1]
    ensures Attended(BatchReads(o, Always, n, ps, l), ps[k].group, x)
    decreases k
  {
    hide GroupReads, Attended;
    var here := GroupReads(o, Always, n, ps[0].group, ps[0].indices, l);
    var rest := BatchReads(o, Always, n + |here|, ps[1..], l);
    if k == 0 {
      GroupAttends(o, n, ps[0].group, ps[0].indices, l, x);
      AttendedInPart(here, here + rest, ps[0].group, x);
    } else {
      BatchAttends(o, n + |here|, ps[1..], l, k - 1, x);
      AttendedInPart(rest, here + rest, ps[k].group, x);
    }
  }

  lemma PlanOfSignal(groups: seq<int>, signals: seq<Signal>, i: nat) returns (k: nat)
    requires i < |signals| && signals[i].point.group != TEXT && signals[i].point.group in groups
    ensures var ps := Plans(groups, signals);
      k < |ps| && ps[k].group == signals[i].point.group && ProperPlan(ps[k]) && signals[i].point.index in ps[k].indices
  {
    var g, x := signals[i].point.group, signals[i].point.index;
    assert signals[i].point == Point(g, x);
    assert x in Wanted(signals, g);
    var ps := Plans(groups, signals);
    assert GroupPlan(g, Wanted(signals, g)) in ps;
    k :| 0 <= k < |ps| && ps[k] == GroupPlan(g, Wanted(signals, g));
  }

  /** Whatever the faults, a signal of a supported group is covered by a successful request or asked for alone. */
  lemma EverySignalAttended(o: Oracle, n: nat, signals: seq<Signal>, l: Limits, i: nat)
    requires i < |signals| && RangeGroup(signals[i].point.group)
    ensures Attended(DirectReads(o, n, signals, l), signals[i].point.group, signals[i].point.index)
  {
    hide BatchReads;
    hide Attended;
    hide Plans;
    var groups := Groups(signals);
    assert signals[i].point.group in groups;
    var ps := Plans(groups, signals);
    var k := PlanOfSignal(groups, signals, i);
    IncreasingBounds(ps[k].indices, signals[i].point.index);
    BatchAttends(o, n, ps, l, k, signals[i].point.index);
  }

  // ----- request sizes, under any pattern of faults -----

  /** A request for at most as many points as the settings allow, and for at most 12 analog inputs. */
  predicate SmallRequest(e: Entry, base: nat)
    ensures SmallRequest(e, base) && 1 <= base ==>
      1 <= e.hi - e.lo + 1 <= base && (e.group == 30 ==> e.hi - e.lo + 1 <= 12)
  {
    RangeGroup(e.group) && 0 <= e.hi - e.lo < Max(1, ChunkSize(base, e.group))
  }

  ghost predicate Small(log: seq<Entry>, base: nat) { forall e :: e in log ==> SmallRequest(e, base) }

  lemma {:induction false} SinglesSmall(o: Oracle, n: nat, g: int, indices: seq<int>, base: nat)
    ensures Small(Singles(o, n, g, indices), base)
    decreases |indices|
  {
    if indices != [] { SinglesSmall(o, n + 1, g, indices[1..], base); }
  }

  lemma ChunkSmall(o: Oracle, n: nat, g: int, lo: int, hi: int, indices: seq<int>, base: nat)
    requires RangeGroup(g) && lo <= hi <= lo + ChunkSize(base, g) - 1
    ensures Small(ChunkReads(o, n, g, lo, hi, indices), base)
  {
    SinglesSmall(o, n + 2, g, Within(indices, lo, hi), base);
  }

  lemma {:induction false} TileReadsSmall(o: Oracle, n: nat, g: int, ts: seq<Range>, indices: seq<int>, base: nat)
    requires RangeGroup(g)
    requires forall k :: 0 <= k < |ts| ==> ts[k].lo <= ts[k].hi <= ts[k].lo + ChunkSize(base, g) - 1
    ensures Small(TileReads(o, n, g, ts, indices), base)
    decreases |ts|
  {
    hide ChunkReads, SmallRequest;
    if ts != [] {
      var here := ChunkReads(o, n, g, ts[0].lo, ts[0].hi, indices);
      ChunkSmall(o, n, g, ts[0].lo, ts[0].hi, indices, base);
      TileReadsSmall(o, n + |here|, g, ts[1..], indices, base);
      SmallJoin(here, TileReads(o, n + |here|, g, ts[1..], indices), base);
    }
  }

  lemma GroupSmall(o: Oracle, n: nat, g: int, indices: seq<int>, l: Limits)
    requires Spans(indices)
    ensures Small(GroupReads(o, Always, n, g, indices, l), l.maxPoints)
  {
    var lo, hi := indices[0], indices[|indices| - 1];
    SinglesSmall(o, n, g, indices, l.maxPoints);
    SinglesSmall(o, n + 1, g, indices, l.maxPoints);
    if RangeGroup(g) {
      TilesTile(lo, hi, ChunkSize(l.maxPoints, g));
      TileReadsSmall(o, n, g, Tiles(lo, hi, ChunkSize(l.maxPoints, g)), indices, l.maxPoints);
    }
  }

  lemma SmallJoin(a: seq<Entry>, b: seq<Entry>, base: nat)
    ensures Small(a, base) && Small(b, base) ==> Small(a + b, base)
  {}

  /** No request of a batch exceeds its group's chunk size. */
  lemma {:induction false} RequestBounded(o: Oracle, n: nat, ps: seq<GroupPlan>, l: Limits, e: Entry)
    requires forall k :: 0 <= k < |ps| ==> Spans(ps[k].indices)
    requires e in BatchReads(o, Always, n, ps, l)
    ensures SmallRequest(e, l.maxPoints)
    decreases |ps|
  {
    hide GroupReads, SmallRequest;
    var here := GroupReads(o, Always, n, ps[0].group, ps[0].indices, l);
    if e in here {
      GroupSmall(o, n, ps[0].group, ps[0].indices, l);
    } else {
      RequestBounded(o, n + |here|, ps[1..], l, e);
    }
  }

  /** Analog inputs never ask for more than 12 points at once. */
  lemma {:induction false} AnalogRequestsBounded(o: Oracle, n: nat, signals: seq<Signal>, l: Limits)
    ensures forall e :: e in DirectReads(o, n, signals, l) && e.group == ANALOG_INPUT ==> e.hi - e.lo + 1 <= 12
  {
    var ps := Plans(Groups(signals), signals);
    forall k | 0 <= k < |ps| ensures Spans(ps[k].indices) {
      assert ProperPlan(ps[k]);
      IncreasingBounds(ps[k].indices, ps[k].indices[|ps[k].indices| - 1]);
    }
    forall e | e in DirectReads(o, n, signals, l) ensures SmallRequest(e, l.maxPoints) {
      RequestBounded(o, n, ps, l, e);
    }
  }

  // ----- against a fault-free outstation -----

  function True(truth: map<Point, real>, g: int, x: int): Option<real> {
    if Point(g, x) in truth then Some(RawOf(g, truth[Point(g, x)])) else None
  }

  ghost predicate Honest(r: Reply, truth: map<Point, real>, g: int, lo: int, hi: int) {
    r.Points? && forall x :: LastObject(g, r.objects, x) == if lo <= x <= hi then True(truth, g, x) else None
  }

  /** The outstation answers every request with exactly the points it has in the range. */
  ghost predicate Faithful(o: Oracle, truth: map<Point, real>) {
    forall n, g, lo, hi :: Honest(o(n, g, lo, hi), truth, g, lo, hi)
  }

  ghost predicate AllTrue(log: seq<Entry>, truth: map<Point, real>, g: int, x: int) {
    forall e :: e in log && e.group == g ==>
      Answer(e, g, x) == if Covers(e, g, x) then True(truth, g, x) else None
  }

  lemma {:induction false} TrueAnswer(log: seq<Entry>, truth: map<Point, real>, g: int, x: int)
    requires AllTrue(log, truth, g, x)
    ensures Latest(log, g, x) == if exists e :: e in log && Covers(e, g, x) then True(truth, g, x) else None
    decreases |log|
  {
    if log != [] {
      var last, before := log[|log| - 1], log[..|log| - 1];
      assert last in log;
      TrueAnswer(before, truth, g, x);
      if e :| e in before && Covers(e, g, x) { assert e in log; }
      if e :| e in log && Covers(e, g, x) && e != last { assert e in before; }
    }
  }

  /** The log from request number `n` on: each entry holds the oracle's reply to that very request. */
  ghost predicate Recorded(log: seq<Entry>, n: nat, o: Oracle) {
    forall k :: 0 <= k < |log| ==> log[k].reply == o(n + k, log[k].group, log[k].lo, log[k].hi)
  }

  lemma RecordedJoin(a: seq<Entry>, b: seq<Entry>, n: nat, o: Oracle)
    requires Recorded(a, n, o) && Recorded(b, n + |a|, o)
    ensures Recorded(a + b, n, o)
  {}

  lemma {:induction false} SinglesRecorded(o: Oracle, n: nat, g: int, indices: seq<int>)
    ensures Recorded(Singles(o, n, g, indices), n, o)
    decreases |indices|
  {
    if indices != [] && RangeGroup(g) {
      SinglesRecorded(o, n + 1, g, indices[1..]);
      RecordedJoin([Ask(o, n, g, indices[0], indices[0])], Singles(o, n + 1, g, indices[1..]), n, o);
    }
  }

  lemma ChunkRecorded(o: Oracle, n: nat, g: int, lo: int, hi: int, indices: seq<int>)
    ensures Recorded(ChunkReads(o, n, g, lo, hi, indices), n, o)
  {
    SinglesRecorded(o, n + 2, g, Within(indices, lo, hi));
    RecordedJoin([Ask(o, n, g, lo, hi), Ask(o, n + 1, g, lo, hi)], Singles(o, n + 2, g, Within(indices, lo, hi)), n, o);
  }

  lemma {:induction false} TileReadsRecorded(o: Oracle, n: nat, g: int, ts: seq<Range>, indices: seq<int>)
    ensures Recorded(TileReads(o, n, g, ts, indices), n, o)
    decreases |ts|
  {
    if ts != [] {
      var here := ChunkReads(o, n, g, ts[0].lo, ts[0].hi, indices);
      ChunkRecorded(o, n, g, ts[0].lo, ts[0].hi, indices);
      TileReadsRecorded(o, n + |here|, g, ts[1..], indices);
      RecordedJoin(here, TileReads(o, n + |here|, g, ts[1..], indices), n, o);
    }
  }

  lemma GroupRecorded(o: Oracle, alive: Alive, n: nat, g: int, indices: seq<int>, l: Limits)
    ensures Recorded(GroupReads(o, alive, n, g, indices, l), n, o)
  {
    if indices != [] {
      var lo, hi := indices[0], indices[|indices| - 1];
      SinglesRecorded(o, n, g, indices);
      SinglesRecorded(o, n + 1, g, indices);
      RecordedJoin([Ask(o, n, g, lo, hi)], Singles(o, n + 1, g, indices), n, o);
      if RangeGroup(g) { TileReadsRecorded(o, n, g, Tiles(lo, hi, ChunkSize(l.maxPoints, g)), indices); }
    }
  }

  lemma {:induction false} BatchRecorded(o: Oracle, alive: Alive, n: nat, ps: seq<GroupPlan>, l: Limits)
    ensures Recorded(BatchReads(o, alive, n, ps, l), n, o)
    decreases |ps|
  {
    hide GroupReads;
    if ps != [] && alive(n) {
      var here := GroupReads(o, alive, n, ps[0].group, ps[0].indices, l);
      GroupRecorded(o, alive, n, ps[0].group, ps[0].indices, l);
      BatchRecorded(o, alive, n + |here|, ps[1..], l);
      RecordedJoin(here, BatchReads(o, alive, n + |here|, ps[1..], l), n, o);
    }
  }

  lemma AttendedTruth(log: seq<Entry>, n: nat, o: Oracle, truth: map<Point, real>, g: int, x: int)
    requires Attended(log, g, x) && Recorded(log, n, o) && Faithful(o, truth)
    ensures Latest(log, g, x) == True(truth, g, x)
  {
    forall e | e in log && e.group == g
      ensures Answer(e, g, x) == if Covers(e, g, x) then True(truth, g, x) else None
    {
      var k :| 0 <= k < |log| && log[k] == e;
      assert Honest(o(n + k, e.group, e.lo, e.hi), truth, e.group, e.lo, e.hi);
    }
    TrueAnswer(log, truth, g, x);
  }

  lemma SingleAttended(o: Oracle, n: nat, g: int, x: int)
    ensures Attended([Ask(o, n, g, x, x)], g, x) && Recorded([Ask(o, n, g, x, x)], n, o)
  {
    assert Ask(o, n, g, x, x) in [Ask(o, n, g, x, x)] && Covers(Ask(o, n, g, x, x), g, x);
  }

  /** Whichever way the planner reads a group, a fault-free outstation gives each signal exactly what asking for its
      index alone would give. */
  lemma {:induction false} PlannerRefinesSingleReads(o: Oracle, n: nat, truth: map<Point, real>, signals: seq<Signal>,
                                                     l: Limits, i: nat)
    requires Faithful(o, truth) && i < |signals| && RangeGroup(signals[i].point.group)
    ensures var p := signals[i].point;
      && Latest(DirectReads(o, n, signals, l), p.group, p.index) == True(truth, p.group, p.index)
      && Latest([Ask(o, n, p.group, p.index, p.index)], p.group, p.index) == True(truth, p.group, p.index)
  {
    hide BatchReads, Attended, Recorded, Faithful, Latest, Plans, Groups;
    var g, x := signals[i].point.group, signals[i].point.index;
    EverySignalAttended(o, n, signals, l, i);
    BatchRecorded(o, Always, n, Plans(Groups(signals), signals), l);
    AttendedTruth(DirectReads(o, n, signals, l), n, o, truth, g, x);
    SingleAttended(o, n, g, x);
    AttendedTruth([Ask(o, n, g, x, x)], n, o, truth, g, x);
  }

  // ----- the cost of range mode -----

  function PointsAsked(log: seq<Entry>): int {
    if log == [] then 0 else (log[0].hi - log[0].lo + 1) + PointsAsked(log[1..])
  }

  lemma {:induction false} FaultFreeTiles(o: Oracle, n: nat, g: int, lo: int, hi: int, size: nat, indices: seq<int>)
    requires 0 < size && lo <= hi + 1 && forall n, g, lo, hi :: o(n, g, lo, hi).Points?
    ensures |TileReads(o, n, g, Tiles(lo, hi, size), indices)| == |Tiles(lo, hi, size)|
    ensures PointsAsked(TileReads(o, n, g, Tiles(lo, hi, size), indices)) == hi - lo + 1
    decreases hi - lo + 1
  {
    if lo <= hi {
      var end := Min(lo + size - 1, hi);
      var ts := Tiles(lo, hi, size);
      assert ts[1..] == Tiles(end + 1, hi, size) && ts[0] == Range(lo, end);
      var here := ChunkReads(o, n, g, lo, end, indices);
      assert |here| == 1;
      FaultFreeTiles(o, n + 1, g, end + 1, hi, size, indices);
      assert TileReads(o, n, g, ts, indices)[1..] == TileReads(o, n + 1, g, ts[1..], indices);
    }
  }

  /** Each wanted index asked for by its own request, in order. */
  ghost predicate OneByOne(log: seq<Entry>, g: int, indices: seq<int>) {
    |log| == |indices|
    && forall k :: 0 <= k < |log| ==> log[k].group == g && log[k].lo == log[k].hi == indices[k]
  }

  lemma {:induction false} SinglesOneByOne(o: Oracle, n: nat, g: int, indices: seq<int>)
    requires RangeGroup(g)
    ensures OneByOne(Singles(o, n, g, indices), g, indices) && PointsAsked(Singles(o, n, g, indices)) == |indices|
    decreases |indices|
  {
    if indices != [] {
      SinglesOneByOne(o, n + 1, g, indices[1..]);
      assert Singles(o, n, g, indices)[1..] == Singles(o, n + 1, g, indices[1..]);
    }
  }

  /** Without faults a group whose span exceeds ratio x n is read one index at a time; any other is read by range, which
      asks for exactly its span, at most ratio x n points, in exactly that many points over the chunk size, rounded up,
      requests. */
  lemma RangeModeCost(o: Oracle, n: nat, g: int, indices: seq<int>, l: Limits)
    requires forall n, g, lo, hi :: o(n, g, lo, hi).Points?
    requires RangeGroup(g) && indices != [] && Increasing(indices)
    ensures var log, span := GroupReads(o, Always, n, g, indices, l), indices[|indices| - 1] - indices[0] + 1;
      if |indices| * l.ratio < span then OneByOne(log, g, indices) && PointsAsked(log) == |indices|
      else
        var chunk := if g == 30 && l.maxPoints > 12 then 12 else l.maxPoints;
        PointsAsked(log) == span <= l.ratio * |indices| && chunk * |log| - chunk < span <= chunk * |log|
  {
    var lo, hi, size := indices[0], indices[|indices| - 1], ChunkSize(l.maxPoints, g);
    IncreasingBounds(indices, hi);
    var log := GroupReads(o, Always, n, g, indices, l);
    if |indices| * l.ratio < hi - lo + 1 {
      SinglesOneByOne(o, n, g, indices);
    } else if hi - lo + 1 <= size {
      assert PointsAsked(log) == (hi - lo + 1) + PointsAsked(log[1..]) && log[1..] == [];
    } else {
      FaultFreeTiles(o, n, g, lo, hi, size, indices);
      TileCount(lo, hi, size);
    }
  }

  /** On a connection that is down a baseline asks nothing. */
  lemma DownAsksNothing(o: Oracle, alive: Alive, n: nat, ps: seq<GroupPlan>, l: Limits)
    ensures !alive(n) ==> BatchReads(o, alive, n, ps, l) == []
  {}

  /** When the one request for a short span fails and takes the connection with it, a baseline asks nothing more. */
  lemma LostMidwayStops(o: Oracle, alive: Alive, n: nat, ps: seq<GroupPlan>, l: Limits)
    requires ps != [] && alive(n) && !alive(n + 1)
    requires var g, indices := ps[0].group, ps[0].indices;
      && RangeGroup(g) && indices != [] && o(n, g, indices[0], indices[|indices| - 1]).Fault?
      && indices[|indices| - 1] - indices[0] + 1 <= |indices| * l.ratio
      && indices[|indices| - 1] - indices[0] + 1 <= (if g == 30 && l.maxPoints > 12 then 12 else l.maxPoints)
    ensures var g, indices := ps[0].group, ps[0].indices;
      BatchReads(o, alive, n, ps, l) == [Entry(g, indices[0], indices[|indices| - 1], Fault)]
  {
    DownAsksNothing(o, alive, n + 1, ps[1..], l);
    var g, indices := ps[0].group, ps[0].indices;
    assert GroupReads(o, alive, n, g, indices, l) == [Ask(o, n, g, indices[0], indices[|indices| - 1])];
  }

  /** A chunk is requested once, again only after a fault, and its wanted indices alone only after two. */
  lemma ChunkRequests(o: Oracle, n: nat, g: int, lo: int, hi: int, indices: seq<int>)
    requires RangeGroup(g)
    ensures var log := ChunkReads(o, n, g, lo, hi, indices);
      && log[0] == Entry(g, lo, hi, o(n, g, lo, hi))
      && (o(n, g, lo, hi).Points? ==> |log| == 1)
      && (o(n, g, lo, hi).Fault? ==> |log| >= 2 && log[1] == Entry(g, lo, hi, o(n + 1, g, lo, hi)))
      && (o(n, g, lo, hi).Fault? && o(n + 1, g, lo, hi).Points? ==> |log| == 2)
      && (o(n, g, lo, hi).Fault? && o(n + 1, g, lo, hi).Fault? ==> OneByOne(log[2..], g, Within(indices, lo, hi)))
  {
    SinglesOneByOne(o, n + 2, g, Within(indices, lo, hi));
    var log := ChunkReads(o, n, g, lo, hi, indices);
    if o(n, g, lo, hi).Fault? && o(n + 1, g, lo, hi).Fault? {
      assert log[2..] == Singles(o, n + 2, g, Within(indices, lo, hi));
    }
  }
}
