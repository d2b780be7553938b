/** The event-driven session's cache: what baselines and event polls do to it, and what a consumer sees of it. */
module EventCache {
  import opened Prelude
  import opened Telemetry
  import opened DirectPlan

  datatype ClassPoll = ClassPoll(binaryInputs: seq<Object>, binaryOutputs: seq<Object>, analogInputs: seq<Object>,
                       analogOutputs: seq<Object>, counters: seq<Object>)

  /** An event poll after its retries; a raised error and an unsuccessful result end alike. */
  datatype PollReply = Unsuccessful | Successful(poll: ClassPoll)

  datatype Write = Write(point: Point, value: real)

  function Writes(g: int, objects: seq<Object>): (ws: seq<Write>)
    ensures |ws| == |objects|
    ensures forall i :: 0 <= i < |objects| ==> ws[i] == Write(Point(g, objects[i].index), RawOf(g, objects[i].value))
  {
    seq(|objects|, i requires 0 <= i < |objects| => Write(Point(g, objects[i].index), RawOf(g, objects[i].value)))
  }

  /** The order in which a poll's points are taken over. */
  function PollWrites(p: ClassPoll): seq<Write> {
    Writes(BINARY_INPUT, p.binaryInputs) + Writes(BINARY_OUTPUT, p.binaryOutputs) + Writes(ANALOG_INPUT, p.analogInputs)
    + Writes(ANALOG_OUTPUT, p.analogOutputs) + Writes(COUNTER, p.counters)
  }

  predicate Differs(points: map<Point, real>, w: Write) { w.point !in points || points[w.point] != w.value }

  function Absorbed(points: map<Point, real>, ws: seq<Write>): map<Point, real>
    decreases |ws|
  {
    if ws == [] then points else Absorbed(points[ws[0].point := ws[0].value], ws[1..])
  }

  /** The points some write changed, at the moment it was made. */
  function Changed(points: map<Point, real>, ws: seq<Write>): set<Point>
    decreases |ws|
  {
    if ws == [] then {}
    else (if Differs(points, ws[0]) then {ws[0].point} else {})
         + Changed(points[ws[0].point := ws[0].value], ws[1..])
  }

  lemma {:induction false} UnchangedStays(points: map<Point, real>, ws: seq<Write>, p: Point)
    ensures p in Changed(points, ws) ==> p in Absorbed(points, ws)
    ensures p in points ==> p in Absorbed(points, ws)
    ensures p in Absorbed(points, ws) && p !in Changed(points, ws) ==>
      p in points && Absorbed(points, ws)[p] == points[p]
    decreases |ws|
  {
    if ws != [] {
      var next := points[ws[0].point := ws[0].value];
      UnchangedStays(next, ws[1..], p);
    }
  }

  lemma {:induction false} AbsorbConcat(points: map<Point, real>, a: seq<Write>, b: seq<Write>)
    ensures Absorbed(points, a + b) == Absorbed(Absorbed(points, a), b)
    ensures Changed(points, a + b) == Changed(points, a) + Changed(Absorbed(points, a), b)
    decreases |a|
  {
    if a == [] {
      assert a + b == b;
    } else {
      assert (a + b)[1..] == a[1..] + b;
      AbsorbConcat(points[a[0].point := a[0].value], a[1..], b);
    }
  }

  /** A point is reported changed exactly when some write brought a value it did not hold at that moment. */
  lemma {:induction false} ChangedExactly(points: map<Point, real>, ws: seq<Write>, p: Point)
    ensures p in Changed(points, ws) <==> exists i :: 0 <= i < |ws| && Alters(points, ws, i, p)
    decreases |ws|
  {
    if ws != [] {
      var next := points[ws[0].point := ws[0].value];
      ChangedExactly(next, ws[1..], p);
      forall i | 0 <= i < |ws[1..]| ensures Alters(next, ws[1..], i, p) <==> Alters(points, ws, i + 1, p) {
        assert ws[..i + 1][1..] == ws[1..][..i] && ws[..i + 1][0] == ws[0];
      }
      assert ws[..0] == [];
      if i :| 0 <= i < |ws| && Alters(points, ws, i, p) {
        if i > 0 { assert Alters(next, ws[1..], i - 1, p); }
      }
      if i :| 0 <= i < |ws[1..]| && Alters(next, ws[1..], i, p) { assert Alters(points, ws, i + 1, p); }
      if ws[0].point == p && (p !in points || points[p] != ws[0].value) { assert Alters(points, ws, 0, p); }
    }
  }

  ghost predicate Alters(points: map<Point, real>, ws: seq<Write>, i: nat, p: Point)
    requires i < |ws|
  {
    var held := Absorbed(points, ws[..i]);
    ws[i].point == p && (p !in held || held[p] != ws[i].value)
  }

  /** Both maps hold the same for the point. */
  predicate Alike(after: map<Point, real>, before: map<Point, real>, p: Point) {
    (p in after <==> p in before) && (p in after ==> after[p] == before[p])
  }

  /** The group's points hold what the last of the objects for them says, or what they held before. */
  ghost predicate TookOver(after: map<Point, real>, before: map<Point, real>, g: int, objects: seq<Object>) {
    forall x :: TookPoint(after, before, g, objects, x)
  }

  ghost predicate TookPoint(after: map<Point, real>, before: map<Point, real>, g: int, objects: seq<Object>, x: int) {
    if forall j :: 0 <= j < |objects| ==> objects[j].index != x then Alike(after, before, Point(g, x))
    else
      Point(g, x) in after
      && exists j :: 0 <= j < |objects| && objects[j].index == x && Means(g, objects[j].value, after[Point(g, x)])
           && forall i :: j < i < |objects| ==> objects[i].index != x
  }

  /** What writing a group's objects in order leaves at a point. */
  lemma {:induction false} WritesLeave(points: map<Point, real>, g: int, objects: seq<Object>, p: Point)
    ensures var after, last := Absorbed(points, Writes(g, objects)), LastObject(g, objects, p.index);
      if p.group == g && last.Some? then p in after && after[p] == last.value else Alike(after, points, p)
    decreases |objects|
  {
    if objects == [] {
      assert Writes(g, objects) == [];
    } else {
      var init, o := objects[..|objects| - 1], objects[|objects| - 1];
      var w := Write(Point(g, o.index), RawOf(g, o.value));
      assert Writes(g, objects) == Writes(g, init) + [w];
      WritesLeave(points, g, init, p);
      AbsorbConcat(points, Writes(g, init), [w]);
      var mid := Absorbed(points, Writes(g, init));
      assert Absorbed(mid, [w]) == Absorbed(mid[w.point := w.value], []);
    }
  }

  lemma WritesTakeOver(points: map<Point, real>, g: int, objects: seq<Object>)
    ensures var after := Absorbed(points, Writes(g, objects));
      TookOver(after, points, g, objects) && forall p: Point :: p.group != g ==> Alike(after, points, p)
  {
    var after := Absorbed(points, Writes(g, objects));
    forall x ensures TookPoint(after, points, g, objects, x) {
      WritesLeave(points, g, objects, Point(g, x));
      LastObjectExactly(g, objects, x);
    }
    forall p: Point | p.group != g ensures Alike(after, points, p) { WritesLeave(points, g, objects, p); }
  }

  /** Each of a poll's lists goes to its own group: 1 and 10 for binary, 30 and 40 for analog points, 20
      for counters. */
  ghost predicate TookPoll(after: map<Point, real>, before: map<Point, real>, poll: ClassPoll) {
    && TookOver(after, before, 1, poll.binaryInputs) && TookOver(after, before, 10, poll.binaryOutputs)
    && TookOver(after, before, 30, poll.analogInputs) && TookOver(after, before, 40, poll.analogOutputs)
    && TookOver(after, before, 20, poll.counters)
    && forall p: Point :: p.group !in {1, 10, 20, 30, 40} ==> Alike(after, before, p)
  }

  ghost predicate OnlyTouches(after: map<Point, real>, before: map<Point, real>, g: int) {
    forall p: Point :: p.group != g ==> Alike(after, before, p)
  }

  /** What happens to other groups before and after does not matter to a group. */
  lemma TookBetween(m0: map<Point, real>, m1: map<Point, real>, m2: map<Point, real>, m3: map<Point, real>,
                    g: int, objects: seq<Object>)
    requires TookOver(m2, m1, g, objects)
    requires forall x :: Alike(m1, m0, Point(g, x)) && Alike(m3, m2, Point(g, x))
    ensures TookOver(m3, m0, g, objects)
  {
    forall x ensures TookPoint(m3, m0, g, objects, x) {
      assert TookPoint(m2, m1, g, objects, x) && Alike(m1, m0, Point(g, x)) && Alike(m3, m2, Point(g, x));
    }
  }

  lemma PollTakesOver(points: map<Point, real>, poll: ClassPoll)
    ensures TookPoll(Absorbed(points, PollWrites(poll)), points, poll)
  {
    var a := Absorbed(points, Writes(1, poll.binaryInputs));
    var b := Absorbed(a, Writes(10, poll.binaryOutputs));
    var c := Absorbed(b, Writes(30, poll.analogInputs));
    var d := Absorbed(c, Writes(40, poll.analogOutputs));
    var e := Absorbed(d, Writes(20, poll.counters));
    FiveLists(points, poll);
    WritesTakeOver(points, 1, poll.binaryInputs);
    WritesTakeOver(a, 10, poll.binaryOutputs);
    WritesTakeOver(b, 30, poll.analogInputs);
    WritesTakeOver(c, 40, poll.analogOutputs);
    WritesTakeOver(d, 20, poll.counters);
    hide TookOver;
    TookBetween(points, points, a, e, 1, poll.binaryInputs);
    TookBetween(points, a, b, e, 10, poll.binaryOutputs);
    TookBetween(points, b, c, e, 30, poll.analogInputs);
    TookBetween(points, c, d, e, 40, poll.analogOutputs);
    TookBetween(points, d, e, e, 20, poll.counters);
  }

  lemma FiveLists(points: map<Point, real>, poll: ClassPoll)
    ensures Absorbed(points, PollWrites(poll))
         == Absorbed(Absorbed(Absorbed(Absorbed(Absorbed(points, Writes(1, poll.binaryInputs)),
                                                Writes(10, poll.binaryOutputs)), Writes(30, poll.analogInputs)),
                              Writes(40, poll.analogOutputs)), Writes(20, poll.counters))
  {
    var a, b := Writes(1, poll.binaryInputs), Writes(10, poll.binaryOutputs);
    var c, d, e := Writes(30, poll.analogInputs), Writes(40, poll.analogOutputs), Writes(20, poll.counters);
    AbsorbConcat(points, a, b);
    AbsorbConcat(points, a + b, c);
    AbsorbConcat(points, a + b + c, d);
    AbsorbConcat(points, a + b + c + d, e);
  }

  // ----- what a batch reports -----

  datatype Sample = Sample(value: real, quality: Quality)

  function SampleOf(points: map<Point, real>, s: Signal, force: bool, changed: set<Point>): (r: Sample)
    ensures s.point.group == 110 ==> r == Sample(0.0, if force then Good else NoChange)
    ensures s.point.group != 110 ==> (r.quality.Invalid? <==> s.point !in points) && !r.quality.CommLost?
    ensures s.point.group != 110 && s.point in points ==>
      r.value == points[s.point] && (r.quality.Good? <==> force || s.point in changed)
  {
    if s.point.group == TEXT then Sample(0.0, if force then Good else NoChange)
    else if s.point !in points then Sample(0.0, Invalid)
    else Sample(points[s.point], if force || s.point in changed then Good else NoChange)
  }

  function Materialised(points: map<Point, real>, signals: seq<Signal>, force: bool,
                        changed: set<Point>): (out: seq<Sample>)
    ensures |out| == |signals|
    ensures forall i :: 0 <= i < |signals| ==> out[i] == SampleOf(points, signals[i], force, changed)
  {
    seq(|signals|, i requires 0 <= i < |signals| => SampleOf(points, signals[i], force, changed))
  }

  function AllSamples(signals: seq<Signal>, q: Quality): (out: seq<Sample>)
    ensures |out| == |signals| && forall i :: 0 <= i < |signals| ==> out[i] == Sample(0.0, q)
  {
    seq(|signals|, i requires 0 <= i < |signals| => Sample(0.0, q))
  }

  // ----- batches as steps -----

  /** How one batch went: nothing readable yet, a baseline that left the cache as `points`, the replies of the three
      event classes, or a session replaced between batches. */
  datatype Cycle = Nothing | Baseline(points: map<Point, real>) | Events(replies: seq<PollReply>) | Recreated

  function EventWrites(replies: seq<PollReply>): seq<Write> {
    if replies == [] then []
    else (if replies[0].Successful? then PollWrites(replies[0].poll) else []) + EventWrites(replies[1..])
  }

  predicate AnySuccess(replies: seq<PollReply>) { exists i :: 0 <= i < |replies| && replies[i].Successful? }

  function PointsAfter(points: map<Point, real>, c: Cycle): map<Point, real> {
    match c
    case Baseline(p) => p
    case Events(replies) => Absorbed(points, EventWrites(replies))
    case _ => points
  }

  function BatchOf(points: map<Point, real>, signals: seq<Signal>, c: Cycle): seq<Sample> {
    match c
    case Nothing => AllSamples(signals, NoChange)
    case Baseline(p) => Materialised(p, signals, true, {})
    case Events(replies) =>
      if !AnySuccess(replies) && points == map[] then AllSamples(signals, Invalid)
      else Materialised(PointsAfter(points, c), signals, false, Changed(points, EventWrites(replies)))
    case Recreated => []
  }

  /** The last good value published for each signal. */
  function Shown(view: map<string, real>, signals: seq<Signal>, batch: seq<Sample>): map<string, real>
    requires |batch| == |signals|
    decreases |batch|
  {
    if batch == [] then view
    else Shown(if batch[0].quality.Good? then view[signals[0].key := batch[0].value] else view, signals[1..],
               batch[1..])
  }

  /** A batch without readings happens only on an empty cache. */
  predicate Possible(points: map<Point, real>, c: Cycle) { c.Nothing? ==> points == map[] }

  datatype Device = Device(points: map<Point, real>, view: map<string, real>)

  function Next(signals: seq<Signal>, d: Device, c: Cycle): Device {
    if c.Recreated? || !Possible(d.points, c) then d
    else Device(PointsAfter(d.points, c), Shown(d.view, signals, BatchOf(d.points, signals, c)))
  }

  function Exec(signals: seq<Signal>, d: Device, cs: seq<Cycle>): Device
    decreases |cs|
  {
    if cs == [] then d else Exec(signals, Next(signals, d, cs[0]), cs[1..])
  }

  /** Every numeric catalogue point in the cache was last published with its current value. */
  ghost predicate ViewOk(signals: seq<Signal>, d: Device) {
    forall i :: 0 <= i < |signals| && signals[i].point.group != TEXT && signals[i].point in d.points ==>
      signals[i].key in d.view && d.view[signals[i].key] == d.points[signals[i].point]
  }

  lemma {:induction false} ShownAt(view: map<string, real>, signals: seq<Signal>, batch: seq<Sample>, i: nat)
    requires |batch| == |signals| && DistinctKeys(signals) && i < |signals|
    ensures batch[i].quality.Good? ==>
      signals[i].key in Shown(view, signals, batch) && Shown(view, signals, batch)[signals[i].key] == batch[i].value
    ensures !batch[i].quality.Good? && signals[i].key in view ==>
      signals[i].key in Shown(view, signals, batch)
        && Shown(view, signals, batch)[signals[i].key] == view[signals[i].key]
    decreases |batch|
  {
    var next := if batch[0].quality.Good? then view[signals[0].key := batch[0].value] else view;
    if i == 0 {
      KeyUntouched(next, signals[1..], batch[1..], signals[0].key);
    } else {
      ShownAt(next, signals[1..], batch[1..], i - 1);
    }
  }

  lemma {:induction false} KeyUntouched(view: map<string, real>, signals: seq<Signal>, batch: seq<Sample>, key: string)
    requires |batch| == |signals| && forall i :: 0 <= i < |signals| ==> signals[i].key != key
    ensures key in Shown(view, signals, batch) <==> key in view
    ensures key in view ==> Shown(view, signals, batch)[key] == view[key]
    decreases |batch|
  {
    if batch != [] {
      KeyUntouched(if batch[0].quality.Good? then view[signals[0].key := batch[0].value] else view,
                   signals[1..], batch[1..], key);
    }
  }

  lemma BatchKeepsView(signals: seq<Signal>, d: Device, c: Cycle)
    requires DistinctKeys(signals) && ViewOk(signals, d)
    ensures ViewOk(signals, Next(signals, d, c))
  {
    if !c.Recreated? && Possible(d.points, c) {
      var n, batch := Next(signals, d, c), BatchOf(d.points, signals, c);
      forall i | 0 <= i < |signals| && signals[i].point.group != TEXT && signals[i].point in n.points
        ensures signals[i].key in n.view && n.view[signals[i].key] == n.points[signals[i].point]
      {
        ShownAt(d.view, signals, batch, i);
        if c.Events? {
          UnchangedStays(d.points, EventWrites(c.replies), signals[i].point);
          NoWrites(c.replies);
        }
      }
    }
  }

  lemma {:induction false} NoWrites(replies: seq<PollReply>)
    ensures !AnySuccess(replies) ==> EventWrites(replies) == []
  {
    if replies != [] {
      NoWrites(replies[1..]);
      if AnySuccess(replies[1..]) {
        var i :| 0 <= i < |replies[1..]| && replies[1..][i].Successful?;
        assert replies[i + 1].Successful?;
      } else if replies[0].Successful? {
        assert AnySuccess(replies);
      }
    }
  }

  lemma QuietEvents(points: map<Point, real>, replies: seq<PollReply>)
    ensures !AnySuccess(replies) ==> Absorbed(points, EventWrites(replies)) == points
  {
    NoWrites(replies);
  }

  /** Over every run of baselines, event batches and session replacements, every numeric catalogue point in the shared
      cache has its current value as its last published good value. */
  lemma {:induction false} ShownIsCached(signals: seq<Signal>, d: Device, cs: seq<Cycle>)
    requires DistinctKeys(signals) && ViewOk(signals, d)
    ensures ViewOk(signals, Exec(signals, d, cs))
    decreases |cs|
  {
    if cs != [] {
      BatchKeepsView(signals, d, cs[0]);
      ShownIsCached(signals, Next(signals, d, cs[0]), cs[1..]);
    }
  }

  /** A batch of events publishes exactly the points that some event of the batch changed, even when a later one
      changed them back. */
  lemma EventsPublishChanges(points: map<Point, real>, signals: seq<Signal>, replies: seq<PollReply>, i: nat)
    requires i < |signals| && signals[i].point.group != TEXT
    ensures BatchOf(points, signals, Events(replies))[i].quality.Good?
      <==> signals[i].point in Changed(points, EventWrites(replies))
    ensures BatchOf(points, signals, Events(replies))[i].quality.NoChange? ==>
      signals[i].point in points && Absorbed(points, EventWrites(replies))[signals[i].point] == points[signals[i].point]
  {
    UnchangedStays(points, EventWrites(replies), signals[i].point);
    NoWrites(replies);
  }
}
