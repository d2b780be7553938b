/** The outstation behind its read calls, the point dictionary filled in place, and the session that drives both. */
module DeviceSession {
  import opened Prelude
  import opened Telemetry
  import opened DirectPlan
  import opened DirectTheorems
  import opened EventCache

  /** Answers come from the environment; every request and its reply is kept in order. */
  class Outstation {
    const oracle: Oracle
    var log: seq<Entry>

    constructor (oracle: Oracle)
      ensures this.oracle == oracle && log == []
    {
      this.oracle, log := oracle, [];
    }

    method Read(g: int, lo: int, hi: int) returns (reply: Reply)
      modifies this
      ensures log == old(log) + [Ask(oracle, |old(log)|, g, lo, hi)]
      ensures reply == oracle(|old(log)|, g, lo, hi)
    {
      reply := oracle(|log|, g, lo, hi);
      log := log + [Entry(g, lo, hi, reply)];
    }
  }

  /** The dictionary of values, shared between a reader and its sessions. */
  class PointStore {
    var points: map<Point, real>

    constructor ()
      ensures points == map[]
    {
      points := map[];
    }
  }

  /** The baseline timestamp the reader keeps for a device. */
  class Stamp {
    var at: real

    constructor ()
      ensures at == 0.0
    {
      at := 0.0;
    }
  }

  function At(points: map<Point, real>, p: Point): Option<real> { if p in points then Some(points[p]) else None }

  /** The point holds the latest value the requests returned for it, or what it held before. */
  ghost predicate Holds(after: map<Point, real>, before: map<Point, real>, log: seq<Entry>, g: int, x: int) {
    At(after, Point(g, x)) == Or(Latest(log, g, x), At(before, Point(g, x)))
  }

  /** So it is for every point of the group, or for those of the given indices. */
  ghost predicate HoldsAll(after: map<Point, real>, before: map<Point, real>, log: seq<Entry>, g: int) {
    forall x :: Holds(after, before, log, g, x)
  }

  ghost predicate HoldsFor(after: map<Point, real>, before: map<Point, real>, log: seq<Entry>, g: int,
                           indices: seq<int>) {
    forall x :: x in indices ==> Holds(after, before, log, g, x)
  }

  /** Nothing is forgotten. */
  ghost predicate Grown(after: map<Point, real>, before: map<Point, real>) { before.Keys <= after.Keys }

  ghost predicate SameOutside(after: map<Point, real>, before: map<Point, real>, g: int) {
    && Grown(after, before)
    && forall p: Point :: p.group != g ==> At(after, p) == At(before, p)
  }

  /** The group's points outside the given indices keep what they hold. */
  ghost predicate SameUnwanted(after: map<Point, real>, before: map<Point, real>, g: int, indices: seq<int>) {
    forall x :: x !in indices ==> At(after, Point(g, x)) == At(before, Point(g, x))
  }

  lemma OutsideSelf(points: map<Point, real>, g: int)
    ensures SameOutside(points, points, g)
  {}

  lemma OutsideStays(after: map<Point, real>, mid: map<Point, real>, before: map<Point, real>, g: int)
    requires SameOutside(mid, before, g) && SameOutside(after, mid, g)
    ensures SameOutside(after, before, g)
  {}

  lemma HoldsAllConcat(after: map<Point, real>, mid: map<Point, real>, before: map<Point, real>,
                       a: seq<Entry>, b: seq<Entry>, g: int)
    requires HoldsAll(mid, before, a, g) && HoldsAll(after, mid, b, g)
    ensures HoldsAll(after, before, a + b, g)
  {
    forall x ensures Holds(after, before, a + b, g, x) {
      assert Holds(mid, before, a, g, x) && Holds(after, mid, b, g, x);
      LatestConcat(a, b, g, x);
    }
  }

  lemma HoldsForConcat(after: map<Point, real>, mid: map<Point, real>, before: map<Point, real>,
                       a: seq<Entry>, b: seq<Entry>, g: int, indices: seq<int>)
    requires HoldsFor(mid, before, a, g, indices) && HoldsFor(after, mid, b, g, indices)
    ensures HoldsFor(after, before, a + b, g, indices)
  {
    forall x | x in indices ensures Holds(after, before, a + b, g, x) {
      assert Holds(mid, before, a, g, x) && Holds(after, mid, b, g, x);
      LatestConcat(a, b, g, x);
    }
  }

  lemma {:induction false} FaultsSilent(log: seq<Entry>, g: int, x: int)
    requires forall k :: 0 <= k < |log| ==> log[k].reply.Fault?
    ensures Latest(log, g, x) == None
    decreases |log|
  {
    if log != [] { FaultsSilent(log[..|log| - 1], g, x); }
  }

  lemma FaultsStoreNothing(points: map<Point, real>, log: seq<Entry>, g: int)
    requires forall k :: 0 <= k < |log| ==> log[k].reply.Fault?
    ensures HoldsAll(points, points, log, g)
  {
    forall x ensures Holds(points, points, log, g, x) { FaultsSilent(log, g, x); }
  }

  ghost predicate OnlyGroup(log: seq<Entry>, g: int) { forall k :: 0 <= k < |log| ==> log[k].group == g }

  lemma {:induction false} SinglesGroup(o: Oracle, n: nat, g: int, indices: seq<int>)
    ensures OnlyGroup(Singles(o, n, g, indices), g)
    decreases |indices|
  {
    if indices != [] { SinglesGroup(o, n + 1, g, indices[1..]); }
  }

  lemma NoneOfGroup(g: int)
    ensures OnlyGroup([], g)
  {}

  lemma GroupJoin(a: seq<Entry>, b: seq<Entry>, g: int)
    requires OnlyGroup(a, g) && OnlyGroup(b, g)
    ensures OnlyGroup(a + b, g)
  {}

  lemma ChunkGroup(o: Oracle, n: nat, g: int, lo: int, hi: int, indices: seq<int>)
    ensures OnlyGroup(ChunkReads(o, n, g, lo, hi, indices), g)
  {
    SinglesGroup(o, n + 2, g, Within(indices, lo, hi));
  }

  lemma {:induction false} TileReadsGroup(o: Oracle, n: nat, g: int, ts: seq<Range>, indices: seq<int>)
    ensures OnlyGroup(TileReads(o, n, g, ts, indices), g)
    decreases |ts|
  {
    hide ChunkReads, OnlyGroup;
    if ts == [] {
      NoneOfGroup(g);
    } else {
      var here := ChunkReads(o, n, g, ts[0].lo, ts[0].hi, indices);
      ChunkGroup(o, n, g, ts[0].lo, ts[0].hi, indices);
      TileReadsGroup(o, n + |here|, g, ts[1..], indices);
      GroupJoin(here, TileReads(o, n + |here|, g, ts[1..], indices), g);
    }
  }

  lemma GroupReadsGroup(o: Oracle, alive: Alive, n: nat, g: int, indices: seq<int>, l: Limits)
    ensures OnlyGroup(GroupReads(o, alive, n, g, indices, l), g)
  {
    SinglesGroup(o, n, g, indices);
    SinglesGroup(o, n + 1, g, indices);
    if indices != [] && RangeGroup(g) {
      TileReadsGroup(o, n, g, Tiles(indices[0], indices[|indices| - 1], ChunkSize(l.maxPoints, g)), indices);
    }
  }

  /** The requests made so far are those of the first `i` indices. */
  ghost predicate SinglesLeft(o: Oracle, n: nat, g: int, indices: seq<int>, made: seq<Entry>, i: nat)
    requires i <= |indices|
  {
    |made| == i && Singles(o, n, g, indices) == made + Singles(o, n + i, g, indices[i..])
  }

  lemma SinglesAtStart(o: Oracle, n: nat, g: int, indices: seq<int>)
    ensures SinglesLeft(o, n, g, indices, [], 0)
  {
    assert indices[0..] == indices;
  }

  lemma SinglesNext(o: Oracle, n: nat, g: int, indices: seq<int>, made: seq<Entry>, i: nat)
    requires RangeGroup(g) && i < |indices| && SinglesLeft(o, n, g, indices, made, i)
    ensures |made| == i && SinglesLeft(o, n, g, indices, made + [Ask(o, n + i, g, indices[i], indices[i])], i + 1)
  {
    assert indices[i..][0] == indices[i] && indices[i..][1..] == indices[i + 1..];
    var e, rest := Ask(o, n + i, g, indices[i], indices[i]), Singles(o, n + i + 1, g, indices[i + 1..]);
    assert made + ([e] + rest) == (made + [e]) + rest;
  }

  lemma SinglesAtEnd(o: Oracle, n: nat, g: int, indices: seq<int>, made: seq<Entry>)
    requires SinglesLeft(o, n, g, indices, made, |indices|)
    ensures Singles(o, n, g, indices) == made
  {}

  lemma NoSingles(o: Oracle, n: nat, g: int, indices: seq<int>)
    ensures indices == [] || !RangeGroup(g) ==> Singles(o, n, g, indices) == []
  {}

  lemma NextTile(lo: int, hi: int, size: nat)
    requires 0 < size && lo <= hi
    ensures var b := if lo + size - 1 < hi then lo + size - 1 else hi;
      Tiles(lo, hi, size) == [Range(lo, b)] + Tiles(b + 1, hi, size)
  {}

  lemma NoTileLeft(lo: int, hi: int, size: nat)
    requires 0 < size && lo > hi
    ensures Tiles(lo, hi, size) == []
  {}

  lemma NothingHeld(points: map<Point, real>, g: int, indices: seq<int>)
    ensures HoldsFor(points, points, [], g, indices)
  {
    FaultsStoreNothing(points, [], g);
  }

  lemma NoTiles(o: Oracle, n: nat, g: int, indices: seq<int>)
    ensures TileReads(o, n, g, [], indices) == []
  {}

  lemma {:induction false} TileReadsOneMore(o: Oracle, n: nat, g: int, ts: seq<Range>, t: Range, indices: seq<int>)
    ensures var made := TileReads(o, n, g, ts, indices);
      TileReads(o, n, g, ts + [t], indices) == made + ChunkReads(o, n + |made|, g, t.lo, t.hi, indices)
    decreases |ts|
  {
    hide ChunkReads;
    if ts == [] {
      assert ts + [t] == [t];
      var here := ChunkReads(o, n, g, t.lo, t.hi, indices);
      assert TileReads(o, n, g, [t], indices) == here + TileReads(o, n + |here|, g, [], indices);
    } else {
      assert (ts + [t])[1..] == ts[1..] + [t];
      var here := ChunkReads(o, n, g, ts[0].lo, ts[0].hi, indices);
      TileReadsOneMore(o, n + |here|, g, ts[1..], t, indices);
      var rest := TileReads(o, n + |here|, g, ts[1..], indices);
      var last := ChunkReads(o, n + |here| + |rest|, g, t.lo, t.hi, indices);
      assert here + (rest + last) == (here + rest) + last;
      assert |here + rest| == |here| + |rest|;
    }
  }

  /** Every wanted point of the plans holds the latest value the requests returned, or what it held before. */
  ghost predicate PlansHold(after: map<Point, real>, before: map<Point, real>, made: seq<Entry>, ps: seq<GroupPlan>) {
    forall k :: 0 <= k < |ps| ==> HoldsFor(after, before, made, ps[k].group, ps[k].indices)
  }

  ghost predicate ReadablePlans(ps: seq<GroupPlan>) {
    && (forall k :: 0 <= k < |ps| ==> ps[k].indices != [])
    && (forall i, j :: 0 <= i < j < |ps| ==> ps[i].group != ps[j].group)
  }

  lemma NothingRead(points: map<Point, real>, ps: seq<GroupPlan>)
    ensures PlansHold(points, points, [], ps)
  {
    forall k | 0 <= k < |ps| ensures HoldsFor(points, points, [], ps[k].group, ps[k].indices) {
      FaultsStoreNothing(points, [], ps[k].group);
    }
  }

  /** Reading one group leaves what the other groups' points hold as it was. */
  lemma PlansStep(after: map<Point, real>, mid: map<Point, real>, before: map<Point, real>,
                  made: seq<Entry>, here: seq<Entry>, ps: seq<GroupPlan>, i: nat)
    requires ReadablePlans(ps) && i < |ps| && PlansHold(mid, before, made, ps)
    requires HoldsFor(after, mid, here, ps[i].group, ps[i].indices)
    requires OnlyGroup(here, ps[i].group) && SameOutside(after, mid, ps[i].group)
    ensures PlansHold(after, before, made + here, ps)
  {
    forall k | 0 <= k < |ps| ensures HoldsFor(after, before, made + here, ps[k].group, ps[k].indices) {
      if k != i { OtherGroup(after, mid, here, ps[i].group, ps[k].group, ps[k].indices); }
      HoldsForConcat(after, mid, before, made, here, ps[k].group, ps[k].indices);
    }
  }

  lemma OtherGroup(after: map<Point, real>, mid: map<Point, real>, here: seq<Entry>, read: int, g: int,
                   indices: seq<int>)
    requires OnlyGroup(here, read) && SameOutside(after, mid, read) && g != read
    ensures HoldsFor(after, mid, here, g, indices)
  {
    forall x | x in indices ensures Holds(after, mid, here, g, x) {
      OtherGroupsSilent(here, g, x);
      assert At(after, Point(g, x)) == At(mid, Point(g, x));
    }
  }

  /** The requests made so far are the plan's up to group `i`. */
  ghost predicate Remaining(o: Oracle, alive: Alive, n: nat, ps: seq<GroupPlan>, l: Limits, made: seq<Entry>, i: nat)
    requires i <= |ps|
  {
    BatchReads(o, alive, n, ps, l) == made + BatchReads(o, alive, n + |made|, ps[i..], l)
  }

  lemma GrowsOn(after: map<Point, real>, mid: map<Point, real>, before: map<Point, real>, g: int)
    requires Grown(mid, before) && SameOutside(after, mid, g)
    ensures Grown(after, before)
  {}

  lemma RemainingAtStart(o: Oracle, alive: Alive, n: nat, ps: seq<GroupPlan>, l: Limits)
    ensures Remaining(o, alive, n, ps, l, [], 0)
  {
    assert ps[0..] == ps;
    assert [] + BatchReads(o, alive, n, ps, l) == BatchReads(o, alive, n, ps, l);
  }

  lemma {:induction false} RemainingStep(o: Oracle, alive: Alive, n: nat, ps: seq<GroupPlan>, l: Limits,
                                         made: seq<Entry>, i: nat)
    requires i < |ps| && Remaining(o, alive, n, ps, l, made, i) && alive(n + |made|)
    ensures Remaining(o, alive, n, ps, l, made + GroupReads(o, alive, n + |made|, ps[i].group, ps[i].indices, l), i + 1)
  {
    hide GroupReads;
    var here := GroupReads(o, alive, n + |made|, ps[i].group, ps[i].indices, l);
    assert ps[i..][0] == ps[i] && ps[i..][1..] == ps[i + 1..];
    var rest := BatchReads(o, alive, n + |made| + |here|, ps[i + 1..], l);
    assert made + (here + rest) == (made + here) + rest;
    assert |made + here| == |made| + |here|;
  }

  lemma RemainingAtEnd(o: Oracle, alive: Alive, n: nat, ps: seq<GroupPlan>, l: Limits, made: seq<Entry>, i: nat)
    requires i <= |ps| && Remaining(o, alive, n, ps, l, made, i) && (i == |ps| || !alive(n + |made|))
    ensures BatchReads(o, alive, n, ps, l) == made
  {
    assert BatchReads(o, alive, n + |made|, ps[i..], l) == [];
    assert made + [] == made;
  }

  /** What the direct strategy reports for a signal, given the requests of the batch. */
  function DirectSample(made: seq<Entry>, s: Signal): Sample {
    if s.point.group == TEXT then Sample(0.0, Good)
    else
      match Latest(made, s.point.group, s.point.index)
      case None => Sample(0.0, NoChange)
      case Some(v) => Sample(v, Good)
  }

  /** A numeric signal reports no change exactly when no successful request returned its point; otherwise its value is
      one that was returned for it. */
  lemma DirectSampleMeans(made: seq<Entry>, s: Signal)
    requires s.point.group != TEXT
    ensures DirectSample(made, s).quality.NoChange? <==> forall v :: !Returned(made, s.point.group, s.point.index, v)
    ensures DirectSample(made, s).quality.NoChange?
         || (DirectSample(made, s).quality.Good?
           && Returned(made, s.point.group, s.point.index, DirectSample(made, s).value))
  {
    LatestExactly(made, s.point.group, s.point.index);
  }

  /** What a batch of direct reads owes a numeric signal: no change when every request was silent on its point,
      otherwise the last object returned for it, a set binary point as 1 and a clear one as 0. */
  ghost predicate Answers(made: seq<Entry>, p: Point, sample: Sample) {
    if AllSilent(made, p.group, p.index) then sample.quality == NoChange
    else sample.quality == Good && Conveys(made, p.group, p.index, sample.value)
  }

  lemma DirectSampleAnswers(made: seq<Entry>, s: Signal)
    ensures s.point.group != TEXT ==> Answers(made, s.point, DirectSample(made, s))
    ensures s.point.group == TEXT ==> DirectSample(made, s) == Sample(0.0, Good)
  {
    LatestIsLast(made, s.point.group, s.point.index);
  }

  /** What a baseline refresh asks for. */
  function BaselineReads(o: Oracle, alive: Alive, n: nat, signals: seq<Signal>, l: Limits): seq<Entry> {
    BatchReads(o, alive, n, Plans(Prioritised(Groups(signals)), signals), l)
  }

  /** What a baseline refresh leaves in the cache for the numeric points of the catalogue. */
  ghost predicate Absorbs(after: map<Point, real>, before: map<Point, real>, made: seq<Entry>, signals: seq<Signal>) {
    forall i :: 0 <= i < |signals| && signals[i].point.group != TEXT ==>
      Holds(after, before, made, signals[i].point.group, signals[i].point.index)
  }

  /** A good sample means that some request of the refresh returned the point. */
  predicate Fresh(sample: Sample, made: seq<Entry>, p: Point) {
    sample.quality.Good? ==> Latest(made, p.group, p.index).Some?
  }

  /** Every point the refresh finds in the cache was also returned by one of its requests. */
  predicate Renewed(before: map<Point, real>, made: seq<Entry>, p: Point) {
    p in before ==> Latest(made, p.group, p.index).Some?
  }

  lemma SampleFreshIff(after: map<Point, real>, before: map<Point, real>, made: seq<Entry>, s: Signal)
    requires s.point.group != TEXT && Holds(after, before, made, s.point.group, s.point.index)
    ensures Fresh(SampleOf(after, s, true, {}), made, s.point) <==> Renewed(before, made, s.point)
  {
    assert s.point == Point(s.point.group, s.point.index);
  }

  /** A baseline publishes only values it read exactly when each catalogue point already cached was returned by some
      request of the refresh. */
  lemma BaselineFreshIff(after: map<Point, real>, before: map<Point, real>, made: seq<Entry>, signals: seq<Signal>)
    requires Absorbs(after, before, made, signals)
    ensures var batch := BatchOf(before, signals, Baseline(after));
      (forall i :: 0 <= i < |signals| && signals[i].point.group != TEXT ==> Fresh(batch[i], made, signals[i].point))
      <==> (forall i :: 0 <= i < |signals| && signals[i].point.group != TEXT ==>
        Renewed(before, made, signals[i].point))
  {
    var batch := BatchOf(before, signals, Baseline(after));
    forall i | 0 <= i < |signals| && signals[i].point.group != TEXT
      ensures Fresh(batch[i], made, signals[i].point) <==> Renewed(before, made, signals[i].point)
    {
      assert Holds(after, before, made, signals[i].point.group, signals[i].point.index);
      SampleFreshIff(after, before, made, signals[i]);
    }
  }

  /** When every request of a due baseline fails, each numeric catalogue point already cached is published again as
      good, with its old value. */
  lemma {:induction false} FailedBaselineRepublishes(o: Oracle, alive: Alive, n: nat, signals: seq<Signal>, l: Limits,
                                  after: map<Point, real>, before: map<Point, real>, i: nat)
    requires forall n, g, lo, hi :: o(n, g, lo, hi).Fault?
    requires Absorbs(after, before, BaselineReads(o, alive, n, signals, l), signals)
    requires i < |signals| && signals[i].point.group != TEXT && signals[i].point in before
    ensures BatchOf(before, signals, Baseline(after))[i] == Sample(before[signals[i].point], Good)
    ensures !Fresh(BatchOf(before, signals, Baseline(after))[i], BaselineReads(o, alive, n, signals, l),
      signals[i].point)
  {
    hide BatchReads, Plans;
    var made, p := BaselineReads(o, alive, n, signals, l), signals[i].point;
    BatchRecorded(o, alive, n, Plans(Prioritised(Groups(signals)), signals), l);
    assert forall k :: 0 <= k < |made| ==> made[k].reply.Fault?;
    FaultsSilent(made, p.group, p.index);
    assert Holds(after, before, made, p.group, p.index) && p == Point(p.group, p.index);
  }

  lemma PlansReadable(groups: seq<int>, signals: seq<Signal>)
    requires forall i, j :: 0 <= i < j < |groups| ==> groups[i] != groups[j]
    ensures ReadablePlans(Plans(groups, signals))
  {
    var ps := Plans(groups, signals);
    forall k | 0 <= k < |ps| ensures ps[k].indices != [] { assert ProperPlan(ps[k]); }
  }

  lemma SignalHolds(groups: seq<int>, signals: seq<Signal>, i: nat,
                    after: map<Point, real>, before: map<Point, real>, made: seq<Entry>)
    requires i < |signals| && signals[i].point.group != TEXT
    requires forall j :: 0 <= j < |signals| ==> signals[j].point.group in groups
    requires PlansHold(after, before, made, Plans(groups, signals))
    ensures Holds(after, before, made, signals[i].point.group, signals[i].point.index)
  {
    var k := PlanOfSignal(groups, signals, i);
  }

  lemma {:induction false} OneMoreReply(points: map<Point, real>, replies: seq<PollReply>, r: PollReply)
    ensures var ws := if r.Successful? then PollWrites(r.poll) else [];
      && Absorbed(points, EventWrites(replies + [r])) == Absorbed(Absorbed(points, EventWrites(replies)), ws)
      && Changed(points, EventWrites(replies + [r]))
           == Changed(points, EventWrites(replies)) + Changed(Absorbed(points, EventWrites(replies)), ws)
    ensures AnySuccess(replies + [r]) <==> AnySuccess(replies) || r.Successful?
  {
    EventWritesConcat(replies, [r]);
    var ws := if r.Successful? then PollWrites(r.poll) else [];
    assert EventWrites([r]) == ws + EventWrites([]) == ws;
    AbsorbConcat(points, EventWrites(replies), ws);
    if i :| 0 <= i < |replies| && replies[i].Successful? { assert (replies + [r])[i].Successful?; }
    if r.Successful? { assert (replies + [r])[|replies|].Successful?; }
  }

  lemma {:induction false} EventWritesConcat(a: seq<PollReply>, b: seq<PollReply>)
    ensures EventWrites(a + b) == EventWrites(a) + EventWrites(b)
  {
    if a == [] {
      assert a + b == b;
    } else {
      assert (a + b)[1..] == a[1..] + b;
      EventWritesConcat(a[1..], b);
    }
  }

  class Session {
    const outstation: Outstation
    const limits: Limits
    const alive: Alive
    const baselineInterval: int
    var cache: PointStore
    var baselineAt: real
    var baselineRef: Stamp
    var open: bool

    /** A new session is given the device's shared cache and timestamp. */
    constructor (outstation: Outstation, limits: Limits, alive: Alive, baselineInterval: int, cache: PointStore,
                 ref: Stamp)
      ensures this.outstation == outstation && this.limits == limits && this.alive == alive
      ensures this.baselineInterval == Max(5, baselineInterval)
      ensures this.cache == cache && baselineRef == ref && Synced() && open
    {
      this.outstation, this.limits, this.alive := outstation, limits, alive;
      this.baselineInterval := if baselineInterval < 5 then 5 else baselineInterval;
      this.cache, this.baselineRef, this.baselineAt, this.open := cache, ref, ref.at, true;
    }

    /** The session's own timestamp is the shared one, so a session created later decides as this one would. */
    ghost predicate Synced()
      reads this, baselineRef
    {
      baselineAt == baselineRef.at
    }

    // ----- filling the dictionary -----

    /** Stores a reply's objects, all of them or only those of the wanted indices. */
    method Record(g: int, objects: seq<Object>, wanted: Option<seq<int>>, store: PointStore)
      modifies store
      ensures forall x :: wanted.None? || x in wanted.value ==>
        At(store.points, Point(g, x)) == Or(LastObject(g, objects, x), At(old(store.points), Point(g, x)))
      ensures wanted.Some? ==> SameUnwanted(store.points, old(store.points), g, wanted.value)
      ensures SameOutside(store.points, old(store.points), g)
    {
      var i := 0;
      while i < |objects|
        invariant i <= |objects|
        invariant forall x :: wanted.None? || x in wanted.value ==>
          At(store.points, Point(g, x)) == Or(LastObject(g, objects[..i], x), At(old(store.points), Point(g, x)))
        invariant wanted.Some? ==> SameUnwanted(store.points, old(store.points), g, wanted.value)
        invariant SameOutside(store.points, old(store.points), g)
      {
        var obj := objects[i];
        assert objects[..i + 1][..i] == objects[..i];
        if wanted.None? || obj.index in wanted.value {
          store.points := store.points[Point(g, obj.index) := RawOf(g, obj.value)];
        }
        i := i + 1;
      }
      assert objects[..i] == objects;
    }

    /** One request whose objects are all stored; a failed one stores nothing. */
    method ReadAndStore(g: int, lo: int, hi: int, store: PointStore) returns (ok: bool)
      modifies outstation, store
      ensures var e := Ask(outstation.oracle, |old(outstation.log)|, g, lo, hi);
        && outstation.log == old(outstation.log) + [e] && ok == e.reply.Points?
        && HoldsAll(store.points, old(store.points), [e], g)
      ensures SameOutside(store.points, old(store.points), g)
    {
      ghost var e := Ask(outstation.oracle, |outstation.log|, g, lo, hi);
      var reply := outstation.Read(g, lo, hi);
      ok := reply.Points?;
      if ok {
        Record(g, reply.objects, None, store);
      }
      forall x ensures Holds(store.points, old(store.points), [e], g, x) { LatestOne(e, g, x); }
    }

    /** Each index by its own request; a failed one is skipped, and an unsupported group asks nothing. */
    method FillSequential(g: int, indices: seq<int>, store: PointStore)
      modifies outstation, store
      ensures var made := Singles(outstation.oracle, |old(outstation.log)|, g, indices);
        outstation.log == old(outstation.log) + made && HoldsAll(store.points, old(store.points), made, g)
      ensures SameOutside(store.points, old(store.points), g)
    {
      ghost var o, n := outstation.oracle, |outstation.log|;
      ghost var made: seq<Entry> := [];
      NoSingles(o, n, g, indices);
      hide HoldsAll, SameOutside, Singles, SinglesLeft;
      FaultsStoreNothing(store.points, made, g);
      OutsideSelf(store.points, g);
      if !RangeGroup(g) {
        return;
      }
      var i := 0;
      SinglesAtStart(o, n, g, indices);
      while i < |indices|
        invariant i <= |indices| && SinglesLeft(o, n, g, indices, made, i)
        invariant outstation.log == old(outstation.log) + made
        invariant HoldsAll(store.points, old(store.points), made, g)
        invariant SameOutside(store.points, old(store.points), g)
      {
        ghost var before, e := store.points, Ask(o, n + i, g, indices[i], indices[i]);
        SinglesNext(o, n, g, indices, made, i);
        var ok := ReadAndStore(g, indices[i], indices[i], store);
        HoldsAllConcat(store.points, before, old(store.points), made, [e], g);
        OutsideStays(store.points, before, old(store.points), g);
        made := made + [e];
        i := i + 1;
      }
      SinglesAtEnd(o, n, g, indices, made);
    }

    /** One try of a chunk; only objects of wanted indices are stored. */
    method TryChunk(g: int, lo: int, hi: int, indices: seq<int>, store: PointStore) returns (ok: bool)
      modifies outstation, store
      ensures var e := Ask(outstation.oracle, |old(outstation.log)|, g, lo, hi);
        && outstation.log == old(outstation.log) + [e] && ok == e.reply.Points?
        && HoldsFor(store.points, old(store.points), [e], g, indices)
      ensures !ok ==> store.points == old(store.points)
      ensures SameUnwanted(store.points, old(store.points), g, indices)
      ensures SameOutside(store.points, old(store.points), g)
    {
      ghost var e := Ask(outstation.oracle, |outstation.log|, g, lo, hi);
      var reply := outstation.Read(g, lo, hi);
      ok := reply.Points?;
      if ok {
        Record(g, reply.objects, Some(indices), store);
      }
      forall x | x in indices ensures Holds(store.points, old(store.points), [e], g, x) { LatestOne(e, g, x); }
    }

    /** Up to two tries of a chunk. */
    method TryChunkTwice(g: int, lo: int, hi: int, indices: seq<int>, store: PointStore) returns (success: bool)
      modifies outstation, store
      ensures var n := |old(outstation.log)|;
        var first, second := Ask(outstation.oracle, n, g, lo, hi), Ask(outstation.oracle, n + 1, g, lo, hi);
        var made := if first.reply.Points? then [first] else [first, second];
        && outstation.log == old(outstation.log) + made && success == made[|made| - 1].reply.Points?
        && HoldsFor(store.points, old(store.points), made, g, indices)
      ensures SameUnwanted(store.points, old(store.points), g, indices)
      ensures SameOutside(store.points, old(store.points), g)
    {
      ghost var o, n := outstation.oracle, |outstation.log|;
      ghost var both := [Ask(o, n, g, lo, hi), Ask(o, n + 1, g, lo, hi)];
      success := false;
      var attempt := 0;
      assert both[..1] == [both[0]] && both[..2] == both;
      while attempt < 2 && !success
        invariant attempt <= 2 && (attempt == 0 ==> !success)
        invariant outstation.log == old(outstation.log) + both[..attempt]
        invariant attempt == 1 ==> success == both[0].reply.Points?
        invariant attempt == 2 ==> both[0].reply.Fault? && success == both[1].reply.Points?
        invariant attempt == 0 ==> store.points == old(store.points)
        invariant attempt > 0 ==> HoldsFor(store.points, old(store.points), both[..attempt], g, indices)
        invariant SameUnwanted(store.points, old(store.points), g, indices)
        invariant SameOutside(store.points, old(store.points), g)
      {
        ghost var before := store.points;
        success := TryChunk(g, lo, hi, indices, store);
        if attempt == 1 {
          HoldsForConcat(store.points, before, old(store.points), [both[0]], [both[1]], g, indices);
          assert [both[0]] + [both[1]] == both;
        }
        attempt := attempt + 1;
      }
    }

    /** One chunk: two tries, then its wanted indices alone. */
    method FillChunk(g: int, lo: int, hi: int, indices: seq<int>, store: PointStore)
      modifies outstation, store
      ensures var made := ChunkReads(outstation.oracle, |old(outstation.log)|, g, lo, hi, indices);
        outstation.log == old(outstation.log) + made && HoldsFor(store.points, old(store.points), made, g, indices)
      ensures SameOutside(store.points, old(store.points), g)
    {
      hide Holds, Within, Singles;
      ghost var o, n := outstation.oracle, |outstation.log|;
      var success := TryChunkTwice(g, lo, hi, indices, store);
      if !success {
        ghost var before := store.points;
        FillSequential(g, Within(indices, lo, hi), store);
        HoldsForConcat(store.points, before, old(store.points), [Ask(o, n, g, lo, hi), Ask(o, n + 1, g, lo, hi)],
                       Singles(o, n + 2, g, Within(indices, lo, hi)), g, indices);
      }
    }

    /** Consecutive chunks from `lo` up to `hi`. */
    method FillRangeChunked(g: int, lo: int, hi: int, indices: seq<int>, store: PointStore)
      modifies outstation, store
      ensures var made := TileReads(outstation.oracle, |old(outstation.log)|, g,
        Tiles(lo, hi, ChunkSize(limits.maxPoints, g)), indices);
        outstation.log == old(outstation.log) + made && HoldsFor(store.points, old(store.points), made, g, indices)
      ensures SameOutside(store.points, old(store.points), g)
    {
      hide ChunkReads, TileReads, Tiles, HoldsFor, SameOutside;
      OutsideSelf(store.points, g);
      NothingHeld(store.points, g, indices);
      var size := ChunkSize(limits.maxPoints, g);
      ghost var o, n := outstation.oracle, |outstation.log|;
      ghost var done: seq<Range> := [];
      NoTiles(o, n, g, indices);
      var a := lo;
      while a <= hi
        invariant done + Tiles(a, hi, size) == Tiles(lo, hi, size)
        invariant outstation.log == old(outstation.log) + TileReads(o, n, g, done, indices)
        invariant HoldsFor(store.points, old(store.points), TileReads(o, n, g, done, indices), g, indices)
        invariant SameOutside(store.points, old(store.points), g)
        decreases hi - a + 1
      {
        var b := if a + size - 1 < hi then a + size - 1 else hi;
        ghost var before, made := store.points, TileReads(o, n, g, done, indices);
        FillChunk(g, a, b, indices, store);
        OutsideStays(store.points, before, old(store.points), g);
        TileReadsOneMore(o, n, g, done, Range(a, b), indices);
        HoldsForConcat(store.points, before, old(store.points), made, ChunkReads(o, n + |made|, g, a, b, indices), g,
                       indices);
        NextTile(a, hi, size);
        assert done + ([Range(a, b)] + Tiles(b + 1, hi, size)) == (done + [Range(a, b)]) + Tiles(b + 1, hi, size);
        done := done + [Range(a, b)];
        a := b + 1;
      }
      NoTileLeft(a, hi, size);
      assert done == Tiles(lo, hi, size);
    }

    /** One group of a plan: sparse indices alone, a short span by one request, anything longer in chunks. */
    method FillGroup(g: int, indices: seq<int>, check: Alive, store: PointStore)
      requires indices != []
      modifies outstation, store
      ensures var made := GroupReads(outstation.oracle, check, |old(outstation.log)|, g, indices, limits);
        outstation.log == old(outstation.log) + made && HoldsFor(store.points, old(store.points), made, g, indices)
      ensures SameOutside(store.points, old(store.points), g)
    {
      hide TileReads, Tiles, SameOutside, Singles;
      ghost var o, n := outstation.oracle, |outstation.log|;
      if !RangeGroup(g) {
        FillSequential(g, indices, store);
        return;
      }
      var lo, hi := indices[0], indices[|indices| - 1];
      var span := hi - lo + 1;
      if |indices| * limits.ratio < span {
        FillSequential(g, indices, store);
      } else if span <= ChunkSize(limits.maxPoints, g) {
        var ok := ReadAndStore(g, lo, hi, store);
        if !ok && check(|outstation.log|) {
          ghost var before := store.points;
          FillSequential(g, indices, store);
          OutsideStays(store.points, before, old(store.points), g);
          HoldsAllConcat(store.points, before, old(store.points), [Ask(o, n, g, lo, hi)], Singles(o, n + 1, g, indices),
                         g);
        }
      } else {
        FillRangeChunked(g, lo, hi, indices, store);
      }
    }

    /** The groups of a plan in order, as long as the connection stands. */
    method FillPlans(ps: seq<GroupPlan>, check: Alive, store: PointStore)
      requires ReadablePlans(ps)
      modifies outstation, store
      ensures var made := BatchReads(outstation.oracle, check, |old(outstation.log)|, ps, limits);
        outstation.log == old(outstation.log) + made && PlansHold(store.points, old(store.points), made, ps)
      ensures Grown(store.points, old(store.points))
    {
      hide GroupReads, PlansHold, HoldsFor, OnlyGroup, SameOutside, Remaining, BatchReads;
      ghost var o, n := outstation.oracle, |outstation.log|;
      ghost var made: seq<Entry> := [];
      var i := 0;
      NothingRead(store.points, ps);
      RemainingAtStart(o, check, n, ps, limits);
      while i < |ps|
        invariant i <= |ps| && Remaining(o, check, n, ps, limits, made, i)
        invariant outstation.log == old(outstation.log) + made
        invariant PlansHold(store.points, old(store.points), made, ps) && Grown(store.points, old(store.points))
      {
        if !check(|outstation.log|) {
          break;
        }
        ghost var mid, here := store.points, GroupReads(o, check, n + |made|, ps[i].group, ps[i].indices, limits);
        FillGroup(ps[i].group, ps[i].indices, check, store);
        GroupReadsGroup(o, check, n + |made|, ps[i].group, ps[i].indices, limits);
        PlansStep(store.points, mid, old(store.points), made, here, ps, i);
        GrowsOn(store.points, mid, old(store.points), ps[i].group);
        RemainingStep(o, check, n, ps, limits, made, i);
        made := made + here;
        i := i + 1;
      }
      RemainingAtEnd(o, check, n, ps, limits, made, i);
    }

    // ----- the direct strategy -----

    /** Each numeric signal carries the latest value a successful request of this batch returned for its point, and no
        change exactly when none did. */
    method ReadBatchDirect(signals: seq<Signal>) returns (out: seq<Sample>)
      modifies outstation
      ensures outstation.log == old(outstation.log)
        + DirectReads(outstation.oracle, |old(outstation.log)|, signals, limits)
      ensures |out| == |signals|
      ensures forall i :: 0 <= i < |signals| ==>
        out[i] == DirectSample(DirectReads(outstation.oracle, |old(outstation.log)|, signals, limits), signals[i])
      ensures forall i :: 0 <= i < |signals| ==>
        if signals[i].point.group == 110 then out[i] == Sample(0.0, Good)
        else Answers(DirectReads(outstation.oracle, |old(outstation.log)|, signals, limits), signals[i].point, out[i])
    {
      hide BatchReads, PlansHold, Latest, Answers;
      var groups := Groups(signals);
      ghost var made := DirectReads(outstation.oracle, |outstation.log|, signals, limits);
      PlansReadable(groups, signals);
      var store := new PointStore();
      FillPlans(Plans(groups, signals), Always, store);
      out := Reported(signals, groups, store.points, made);
      forall i | 0 <= i < |signals|
        ensures if signals[i].point.group == 110 then out[i] == Sample(0.0, Good)
                else Answers(made, signals[i].point, out[i])
      {
        DirectSampleAnswers(made, signals[i]);
      }
    }

    /** The readings of a batch, from the dictionary its requests filled. */
    method Reported(signals: seq<Signal>, ghost groups: seq<int>, points: map<Point, real>, ghost made: seq<Entry>)
      returns (out: seq<Sample>)
      requires forall j :: 0 <= j < |signals| ==> signals[j].point.group in groups
      requires PlansHold(points, map[], made, Plans(groups, signals))
      ensures |out| == |signals| && forall i :: 0 <= i < |signals| ==> out[i] == DirectSample(made, signals[i])
    {
      hide PlansHold, Latest, Plans;
      out := [];
      while |out| < |signals|
        invariant |out| <= |signals|
        invariant forall i :: 0 <= i < |out| ==> out[i] == DirectSample(made, signals[i])
      {
        var s := signals[|out|];
        if s.point.group == TEXT {
          out := out + [Sample(0.0, Good)];
        } else {
          SignalHolds(groups, signals, |out|, points, map[], made);
          assert s.point == Point(s.point.group, s.point.index);
          if s.point !in points {
            out := out + [Sample(0.0, NoChange)];
          } else {
            out := out + [Sample(points[s.point], Good)];
          }
        }
      }
    }

    // ----- the event-driven strategy -----

    /** The baseline: every group of the catalogue, inputs first, into the shared cache. */
    method AbsorbSignals(signals: seq<Signal>)
      modifies outstation, cache
      ensures var made := BaselineReads(outstation.oracle, alive, |old(outstation.log)|, signals, limits);
        && outstation.log == old(outstation.log) + made
        && Absorbs(cache.points, old(cache.points), made, signals)
      ensures Grown(cache.points, old(cache.points))
    {
      var groups := Prioritised(Groups(signals));
      ghost var before, made := cache.points,
        BaselineReads(outstation.oracle, alive, |outstation.log|, signals, limits);
      PlansReadable(groups, signals);
      FillPlans(Plans(groups, signals), alive, cache);
      forall i | 0 <= i < |signals| && signals[i].point.group != TEXT
        ensures Holds(cache.points, before, made, signals[i].point.group, signals[i].point.index)
      {
        SignalHolds(groups, signals, i, cache.points, before, made);
      }
    }

    /** Takes over a poll's points and names those it changed. */
    method AbsorbPoll(poll: ClassPoll) returns (changed: set<Point>)
      modifies cache
      ensures cache.points == Absorbed(old(cache.points), PollWrites(poll))
      ensures changed == Changed(old(cache.points), PollWrites(poll))
      ensures TookPoll(cache.points, old(cache.points), poll)
    {
      hide TookPoll;
      PollTakesOver(cache.points, poll);
      var ws := PollWrites(poll);
      changed := {};
      var i := 0;
      assert ws[0..] == ws;
      while i < |ws|
        invariant i <= |ws|
        invariant Absorbed(old(cache.points), ws) == Absorbed(cache.points, ws[i..])
        invariant Changed(old(cache.points), ws) == changed + Changed(cache.points, ws[i..])
      {
        var w := ws[i];
        assert ws[i..][0] == w && ws[i..][1..] == ws[i + 1..];
        if w.point !in cache.points || cache.points[w.point] != w.value {
          cache.points := cache.points[w.point := w.value];
          changed := changed + {w.point};
        } else {
          assert cache.points[w.point := w.value] == cache.points;
        }
        i := i + 1;
      }
    }

    /** One event class, tried twice. */
    method PollWithRetry(attempts: nat -> PollReply) returns (reply: PollReply)
      ensures reply == if attempts(0).Successful? then attempts(0) else attempts(1)
    {
      var attempt := 0;
      reply := Unsuccessful;
      while attempt < 2 && reply.Unsuccessful?
        invariant attempt <= 2 && (attempt == 0 ==> reply.Unsuccessful?)
        invariant attempt == 1 ==> reply == attempts(0)
        invariant attempt == 2 ==> attempts(0).Unsuccessful? && reply == attempts(1)
      {
        reply := attempts(attempt);
        attempt := attempt + 1;
      }
    }

    /** Classes 1, 2 and 3 in turn. */
    method PollClasses(attempts: (nat, nat) -> PollReply)
      returns (changed: set<Point>, any: bool, ghost replies: seq<PollReply>)
      modifies cache
      ensures |replies| == 3 && any == AnySuccess(replies)
      ensures forall k :: 0 <= k < 3 ==>
        replies[k] == if attempts(k + 1, 0).Successful? then attempts(k + 1, 0) else attempts(k + 1, 1)
      ensures cache.points == Absorbed(old(cache.points), EventWrites(replies))
      ensures changed == Changed(old(cache.points), EventWrites(replies))
    {
      hide PollWrites;
      changed, any, replies := {}, false, [];
      var cls := 1;
      while cls <= 3
        invariant 1 <= cls <= 4 && |replies| == cls - 1 && any == AnySuccess(replies)
        invariant forall k :: 0 <= k < |replies| ==>
          replies[k] == if attempts(k + 1, 0).Successful? then attempts(k + 1, 0) else attempts(k + 1, 1)
        invariant cache.points == Absorbed(old(cache.points), EventWrites(replies))
        invariant changed == Changed(old(cache.points), EventWrites(replies))
      {
        var reply := PollWithRetry((k: nat) => attempts(cls, k));
        OneMoreReply(old(cache.points), replies, reply);
        if reply.Successful? {
          any := true;
          var more := AbsorbPoll(reply.poll);
          changed := changed + more;
        }
        replies := replies + [reply];
        cls := cls + 1;
      }
    }

    /** One event-driven batch is one step of the cache's run.  Whether a baseline is due depends on the shared cache
        and timestamp only; a due baseline republishes the whole cache, even one no request has refreshed. */
    method ReadBatchEventDriven(signals: seq<Signal>, now: real, attempts: (nat, nat) -> PollReply)
      returns (batch: seq<Sample>, ghost c: Cycle)
      requires Synced()
      modifies this`baselineAt, this`open, baselineRef, outstation, cache
      ensures Synced()
      ensures Possible(old(cache.points), c) && !c.Recreated?
      ensures cache.points == PointsAfter(old(cache.points), c) && batch == BatchOf(old(cache.points), signals, c)
      ensures c.Events? <==> old(cache.points) != map[] && now - old(baselineRef.at) < baselineInterval as real
      ensures c.Events? ==> outstation.log == old(outstation.log) && baselineRef.at == old(baselineRef.at)
      ensures c.Baseline? ==> baselineRef.at == now
      ensures c.Nothing? ==> forall i :: 0 <= i < |signals| ==> batch[i] == Sample(0.0, NoChange)
      ensures open == (old(open) && !c.Nothing?)
      ensures !c.Events? ==>
        var made := BaselineReads(outstation.oracle, alive, |old(outstation.log)|, signals, limits);
        && outstation.log == old(outstation.log) + made
        && Absorbs(cache.points, old(cache.points), made, signals)
    {
      hide BaselineReads, Absorbs, Absorbed, Changed;
      if |cache.points| == 0 || now - baselineAt >= baselineInterval as real {
        AbsorbSignals(signals);
        if |cache.points| == 0 {
          assert cache.points == map[] && old(cache.points).Keys <= cache.points.Keys;
          open := false;
          c := Nothing;
          batch := AllSamples(signals, NoChange);
          return;
        }
        baselineAt := now;
        baselineRef.at := now;
        c := Baseline(cache.points);
        batch := Materialised(cache.points, signals, true, {});
        return;
      }
      var changed, any;
      ghost var replies;
      changed, any, replies := PollClasses(attempts);
      c := Events(replies);
      QuietEvents(old(cache.points), replies);
      if !any && |cache.points| == 0 {
        batch := AllSamples(signals, Invalid);
      } else {
        batch := Materialised(cache.points, signals, false, changed);
      }
    }
  }
}
