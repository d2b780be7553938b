/** What the direct-read planner asks of an outstation, as a function of the faults it meets, and what the
    answers say. */
module DirectPlan {
  import opened Prelude
  import opened Telemetry

  const BINARY_INPUT := 1
  const BINARY_OUTPUT := 10
  const COUNTER := 20
  const ANALOG_INPUT := 30
  const ANALOG_OUTPUT := 40
  const TEXT := 110
  const ANALOG_MAX_CHUNK := 12

  /** One object of a reply. */
  datatype Object = Object(index: int, value: real)

  datatype Reply = Fault | Points(objects: seq<Object>)

  /** One request, for the closed range [lo, hi] of a group, and how it was answered. */
  datatype Entry = Entry(group: int, lo: int, hi: int, reply: Reply)

  /** The environment: the reply to the n-th request. */
  type Oracle = (nat, int, int, int) -> Reply

  datatype RawLimits = RawLimits(maxPoints: nat, ratio: nat)
  type Limits = l: RawLimits | 1 <= l.maxPoints && 2 <= l.ratio witness RawLimits(24, 4)

  predicate RangeGroup(g: int)
    ensures RangeGroup(g) <==> g in {1, 10, 20, 30, 40}
  {
    g in {BINARY_INPUT, BINARY_OUTPUT, COUNTER, ANALOG_INPUT, ANALOG_OUTPUT}
  }

  /** What a stored number says of the object it came from: of a binary one whether it was set, of any other
      its value. */
  predicate Means(g: int, value: real, stored: real) {
    if g == 1 || g == 10 then stored in {0.0, 1.0} && (stored == 1.0 <==> value != 0.0) else stored == value
  }

  /** Binary points become 1 or 0. */
  function RawOf(g: int, value: real): (stored: real)
    ensures Means(g, value, stored)
  {
    if g == BINARY_INPUT || g == BINARY_OUTPUT then (if value != 0.0 then 1.0 else 0.0) else value
  }

  /** Analog inputs never go beyond 12 points at once. */
  function ChunkSize(base: nat, g: int): (size: nat)
    ensures size <= base && (g != 30 || base <= 12 ==> size == base) && (g == 30 && base > 12 ==> size == 12)
  {
    if g == ANALOG_INPUT then Min(base, ANALOG_MAX_CHUNK) else base
  }

  // ----- what the answers say about one point -----

  /** The value of the last object for `index`, as stored. */
  function LastObject(g: int, objects: seq<Object>, index: int): Option<real> {
    if objects == [] then None
    else if objects[|objects| - 1].index == index then Some(RawOf(g, objects[|objects| - 1].value))
    else LastObject(g, objects[..|objects| - 1], index)
  }

  function Answer(e: Entry, g: int, index: int): Option<real> {
    if e.group == g && e.reply.Points? then LastObject(g, e.reply.objects, index) else None
  }

  /** The most recent value that a successful request of the point's group returned for it. */
  function Latest(log: seq<Entry>, g: int, index: int): Option<real> {
    if log == [] then None
    else
      var a := Answer(log[|log| - 1], g, index);
      if a.Some? then a else Latest(log[..|log| - 1], g, index)
  }

  function Or(a: Option<real>, b: Option<real>): Option<real> { if a.Some? then a else b }

  lemma {:induction false} LatestConcat(a: seq<Entry>, b: seq<Entry>, g: int, index: int)
    ensures Latest(a + b, g, index) == Or(Latest(b, g, index), Latest(a, g, index))
    decreases |b|
  {
    if b == [] {
      assert a + b == a;
    } else {
      assert (a + b)[..|a + b| - 1] == a + b[..|b| - 1];
      LatestConcat(a, b[..|b| - 1], g, index);
    }
  }

  /** The request succeeded and returned the point with this value. */
  ghost predicate Gives(e: Entry, g: int, index: int, v: real) {
    e.group == g && e.reply.Points?
    && exists j :: 0 <= j < |e.reply.objects| && e.reply.objects[j].index == index
              && Means(g, e.reply.objects[j].value, v)
  }

  ghost predicate Returned(log: seq<Entry>, g: int, index: int, v: real) {
    exists e :: e in log && Gives(e, g, index, v)
  }

  lemma {:induction false} LastObjectExactly(g: int, objects: seq<Object>, index: int)
    ensures LastObject(g, objects, index).None? <==> forall j :: 0 <= j < |objects| ==> objects[j].index != index
    ensures LastObject(g, objects, index).Some? ==>
      exists j :: 0 <= j < |objects| && objects[j].index == index
        && Means(g, objects[j].value, LastObject(g, objects, index).value)
        && forall k :: j < k < |objects| ==> objects[k].index != index
    decreases |objects|
  {
    if objects != [] && objects[|objects| - 1].index != index { LastObjectExactly(g, objects[..|objects| - 1], index); }
  }

  lemma AnswerExactly(e: Entry, g: int, index: int)
    ensures Answer(e, g, index).None? ==> forall v :: !Gives(e, g, index, v)
    ensures Answer(e, g, index).Some? ==> Gives(e, g, index, Answer(e, g, index).value)
  {
    if e.group == g && e.reply.Points? { LastObjectExactly(g, e.reply.objects, index); }
  }

  /** There is no latest value exactly when no successful request returned the point; otherwise it is one that
      was returned. */
  lemma {:induction false} LatestExactly(log: seq<Entry>, g: int, index: int)
    ensures Latest(log, g, index).None? <==> forall v :: !Returned(log, g, index, v)
    ensures Latest(log, g, index).Some? ==> Returned(log, g, index, Latest(log, g, index).value)
    decreases |log|
  {
    hide Gives;
    if log != [] {
      var e, before := log[|log| - 1], log[..|log| - 1];
      assert log == before + [e];
      LatestExactly(before, g, index);
      AnswerExactly(e, g, index);
      var a := Answer(e, g, index);
      if a.Some? {
        assert e in log;
        assert Returned(log, g, index, a.value);
      } else {
        forall v ensures Returned(log, g, index, v) <==> Returned(before, g, index, v) {}
      }
    }
  }

  /** Object `j` is the last one that the request, successful and for the group, returned for the point. */
  predicate LastIn(e: Entry, g: int, index: int, j: nat) {
    && e.group == g && e.reply.Points? && j < |e.reply.objects| && e.reply.objects[j].index == index
    && forall i :: j < i < |e.reply.objects| ==> e.reply.objects[i].index != index
  }

  /** The request failed, was for another group or returned no object for the point. */
  predicate Silent(e: Entry, g: int, index: int) {
    e.group != g || e.reply.Fault? || forall i :: 0 <= i < |e.reply.objects| ==> e.reply.objects[i].index != index
  }

  /** The value is what the last object returned for the point says. */
  ghost predicate Conveys(log: seq<Entry>, g: int, index: int, v: real) {
    exists k: nat, j: nat :: k < |log| && LastIn(log[k], g, index, j) && Means(g, log[k].reply.objects[j].value, v)
      && forall m :: k < m < |log| ==> Silent(log[m], g, index)
  }

  ghost predicate AllSilent(log: seq<Entry>, g: int, index: int) {
    forall m :: 0 <= m < |log| ==> Silent(log[m], g, index)
  }

  lemma AnswerIsLast(e: Entry, g: int, index: int)
    ensures Answer(e, g, index).None? <==> Silent(e, g, index)
    ensures Answer(e, g, index).Some? ==>
      exists j: nat :: LastIn(e, g, index, j) && Means(g, e.reply.objects[j].value, Answer(e, g, index).value)
  {
    if e.group == g && e.reply.Points? { LastObjectExactly(g, e.reply.objects, index); }
  }

  lemma ConveysOn(before: seq<Entry>, e: Entry, g: int, index: int, v: real)
    requires Conveys(before, g, index, v) && Silent(e, g, index)
    ensures Conveys(before + [e], g, index, v)
  {
    hide Silent, Means;
    var k: nat, j: nat :| k < |before| && LastIn(before[k], g, index, j)
      && Means(g, before[k].reply.objects[j].value, v) && forall m :: k < m < |before| ==> Silent(before[m], g, index);
    var log := before + [e];
    assert log[k] == before[k];
    forall m | k < m < |log| ensures Silent(log[m], g, index) { assert m < |before| ==> log[m] == before[m]; }
  }

  /** The latest value is that of the last object returned for the point, and there is none exactly when no request
      returned any. */
  lemma {:induction false} LatestIsLast(log: seq<Entry>, g: int, index: int)
    ensures Latest(log, g, index).None? <==> AllSilent(log, g, index)
    ensures Latest(log, g, index).Some? ==> Conveys(log, g, index, Latest(log, g, index).value)
    decreases |log|
  {
    hide LastIn, Silent, Means, Answer, Conveys;
    if log != [] {
      var e, before := log[|log| - 1], log[..|log| - 1];
      assert log == before + [e];
      LatestIsLast(before, g, index);
      AnswerIsLast(e, g, index);
      if Answer(e, g, index).Some? {
        ConveysLast(before, e, g, index);
      } else if Latest(before, g, index).Some? {
        ConveysOn(before, e, g, index, Latest(before, g, index).value);
      }
    }
  }

  lemma ConveysLast(before: seq<Entry>, e: Entry, g: int, index: int)
    requires Answer(e, g, index).Some?
    ensures Conveys(before + [e], g, index, Answer(e, g, index).value)
  {
    AnswerIsLast(e, g, index);
    var j: nat :| LastIn(e, g, index, j) && Means(g, e.reply.objects[j].value, Answer(e, g, index).value);
    assert (before + [e])[|before|] == e;
  }

  lemma LatestOne(e: Entry, g: int, index: int)
    ensures Latest([e], g, index) == Answer(e, g, index)
  {
    assert [e][..0] == [];
  }

  lemma {:induction false} OtherGroupsSilent(log: seq<Entry>, g: int, index: int)
    requires forall e :: e in log ==> e.group != g
    ensures Latest(log, g, index) == None
  {
    if log != [] { OtherGroupsSilent(log[..|log| - 1], g, index); }
  }

  // ----- the requests -----

  function Ask(o: Oracle, n: nat, g: int, lo: int, hi: int): Entry { Entry(g, lo, hi, o(n, g, lo, hi)) }

  /** Each index alone; an unsupported group asks nothing. */
  function Singles(o: Oracle, n: nat, g: int, indices: seq<int>): seq<Entry>
    decreases |indices|
  {
    if indices == [] || !RangeGroup(g) then []
    else [Ask(o, n, g, indices[0], indices[0])] + Singles(o, n + 1, g, indices[1..])
  }

  /** The wanted indices of the closed range [lo, hi]. */
  function Within(indices: seq<int>, lo: int, hi: int): seq<int> {
    if indices == [] then []
    else (if lo <= indices[0] <= hi then [indices[0]] else []) + Within(indices[1..], lo, hi)
  }

  lemma {:induction false} WithinExactly(indices: seq<int>, lo: int, hi: int, x: int)
    ensures x in Within(indices, lo, hi) <==> x in indices && lo <= x <= hi
  {
    if indices != [] { WithinExactly(indices[1..], lo, hi, x); }
  }

  /** A chunk is tried twice; when both fail its wanted indices are asked for alone. */
  function ChunkReads(o: Oracle, n: nat, g: int, lo: int, hi: int, indices: seq<int>): seq<Entry> {
    var first := Ask(o, n, g, lo, hi);
    if first.reply.Points? then [first]
    else
      var second := Ask(o, n + 1, g, lo, hi);
      if second.reply.Points? then [first, second]
      else [first, second] + Singles(o, n + 2, g, Within(indices, lo, hi))
  }

  datatype Range = Range(lo: int, hi: int)

  /** [lo, hi] cut into ranges of `size` points, the last one possibly shorter. */
  function Tiles(lo: int, hi: int, size: nat): seq<Range>
    requires 0 < size
    decreases hi - lo + 1
  {
    if lo > hi then [] else [Range(lo, Min(lo + size - 1, hi))] + Tiles(Min(lo + size - 1, hi) + 1, hi, size)
  }

  function TileReads(o: Oracle, n: nat, g: int, tiles: seq<Range>, indices: seq<int>): seq<Entry>
    decreases |tiles|
  {
    if tiles == [] then []
    else
      var here := ChunkReads(o, n, g, tiles[0].lo, tiles[0].hi, indices);
      here + TileReads(o, n + |here|, g, tiles[1..], indices)
  }

  /** Whether the connection still stands after the n-th request; only the baseline refresh looks at it. */
  type Alive = nat -> bool

  /** The plan for one group over its wanted indices in ascending order. */
  function GroupReads(o: Oracle, alive: Alive, n: nat, g: int, indices: seq<int>, l: Limits): seq<Entry> {
    if indices == [] then []
    else
    var lo, hi := indices[0], indices[|indices| - 1];
    var span := hi - lo + 1;
    if !RangeGroup(g) || |indices| * l.ratio < span then Singles(o, n, g, indices)
    else if span <= ChunkSize(l.maxPoints, g) then
      var whole := Ask(o, n, g, lo, hi);
      if whole.reply.Points? || !alive(n + 1) then [whole] else [whole] + Singles(o, n + 1, g, indices)
    else TileReads(o, n, g, Tiles(lo, hi, ChunkSize(l.maxPoints, g)), indices)
  }

  // ----- the catalogue by group -----

  /** Distinct groups in order of first appearance. */
  function Groups(signals: seq<Signal>): (gs: seq<int>)
    ensures forall g :: g in gs <==> exists i :: 0 <= i < |signals| && signals[i].point.group == g
    ensures forall i, j :: 0 <= i < j < |gs| ==> gs[i] != gs[j]
  {
    if signals == [] then []
    else
      var before := Groups(signals[..|signals| - 1]);
      var g := signals[|signals| - 1].point.group;
      assert forall i :: 0 <= i < |signals| - 1 ==> signals[..|signals| - 1][i] == signals[i];
      if g in before then before else before + [g]
  }

  predicate Increasing(s: seq<int>) { forall i, j :: 0 <= i < j < |s| ==> s[i] < s[j] }

  function Inserted(s: seq<int>, x: int): (out: seq<int>)
    requires Increasing(s)
    ensures Increasing(out) && forall y :: y in out <==> y in s || y == x
  {
    if s == [] then [x]
    else if x < s[0] then [x] + s
    else if x == s[0] then s
    else
      var rest := Inserted(s[1..], x);
      assert forall k :: 0 <= k < |s[1..]| ==> s[0] < s[1..][k];
      assert forall k :: 0 <= k < |rest| ==> rest[k] in rest && s[0] < rest[k];
      [s[0]] + rest
  }

  /** The wanted indices of a group, ascending and without duplicates. */
  function Wanted(signals: seq<Signal>, g: int): (out: seq<int>)
    ensures Increasing(out)
    ensures forall x :: x in out <==> exists i :: 0 <= i < |signals| && signals[i].point == Point(g, x)
  {
    if signals == [] then []
    else
      var before := Wanted(signals[..|signals| - 1], g);
      var p := signals[|signals| - 1].point;
      assert forall i :: 0 <= i < |signals| - 1 ==> signals[..|signals| - 1][i] == signals[i];
      if p.group == g then Inserted(before, p.index) else before
  }

  /** The direct strategy never looks at the connection. */
  function Always(n: nat): bool { true }

  predicate AsksFor(signals: seq<Signal>, g: int) { g != TEXT && Wanted(signals, g) != [] }

  /** One group of the catalogue with its wanted indices. */
  datatype GroupPlan = GroupPlan(group: int, indices: seq<int>)

  ghost predicate ProperPlan(p: GroupPlan) { p.indices != [] && Increasing(p.indices) }

  /** The groups to be read, in the given order. */
  function Plans(groups: seq<int>, signals: seq<Signal>): (ps: seq<GroupPlan>)
    ensures forall p :: p in ps <==>
      p.group in groups && AsksFor(signals, p.group) && p.indices == Wanted(signals, p.group)
    ensures forall k :: 0 <= k < |ps| ==> ProperPlan(ps[k])
    ensures (forall i, j :: 0 <= i < j < |groups| ==> groups[i] != groups[j]) ==>
      forall i, j :: 0 <= i < j < |ps| ==> ps[i].group != ps[j].group
  {
    if groups == [] then []
    else (if AsksFor(signals, groups[0]) then [GroupPlan(groups[0], Wanted(signals, groups[0]))] else [])
         + Plans(groups[1..], signals)
  }

  /** The plan for a batch, group after group, as long as the connection stands. */
  function BatchReads(o: Oracle, alive: Alive, n: nat, ps: seq<GroupPlan>, l: Limits): seq<Entry>
    decreases |ps|
  {
    if ps == [] || !alive(n) then []
    else
      var here := GroupReads(o, alive, n, ps[0].group, ps[0].indices, l);
      here + BatchReads(o, alive, n + |here|, ps[1..], l)
  }

  const BASELINE_ORDER := [BINARY_INPUT, ANALOG_INPUT, COUNTER, BINARY_OUTPUT, ANALOG_OUTPUT]

  /** The members of `order` that occur in `gs`. */
  function Chosen(order: seq<int>, gs: seq<int>): (out: seq<int>)
    ensures forall g :: g in out <==> g in order && g in gs
    ensures (forall i, j :: 0 <= i < j < |order| ==> order[i] != order[j]) ==> forall i,
      j :: 0 <= i < j < |out| ==> out[i] != out[j]
  {
    if order == [] then []
    else
      var rest := Chosen(order[1..], gs);
      assert (forall i, j :: 0 <= i < j < |order| ==> order[i] != order[j]) ==> order[0] !in order[1..];
      if order[0] in gs then [order[0]] + rest else rest
  }

  /** Inputs before outputs: the order in which a baseline refresh reads the groups. */
  function Prioritised(gs: seq<int>): (out: seq<int>)
    requires forall i, j :: 0 <= i < j < |gs| ==> gs[i] != gs[j]
    ensures forall g :: g in out <==> g in gs
    ensures forall i, j :: 0 <= i < j < |out| ==> out[i] != out[j]
  {
    var known, others := Chosen(BASELINE_ORDER, gs), Others(gs);
    assert forall g :: g in BASELINE_ORDER <==> RangeGroup(g);
    assert forall k :: 0 <= k < |known| ==> known[k] in known && RangeGroup(known[k]);
    assert forall k :: 0 <= k < |others| ==> others[k] in others && !RangeGroup(others[k]);
    known + others
  }

  /** Binary inputs, analog inputs, counters, binary outputs, analog outputs, and everything else after them. */
  function Rank(g: int): int {
    if g == 1 then 0 else if g == 30 then 1 else if g == 20 then 2 else if g == 10 then 3 else if g == 40 then 4 else 99
  }

  predicate Ranked(s: seq<int>) { forall i, j :: 0 <= i < j < |s| ==> Rank(s[i]) <= Rank(s[j]) }

  lemma {:induction false} ChosenRanked(order: seq<int>, gs: seq<int>)
    requires Ranked(order)
    ensures Ranked(Chosen(order, gs))
    decreases |order|
  {
    if order != [] {
      var rest := Chosen(order[1..], gs);
      assert Ranked(order[1..]);
      ChosenRanked(order[1..], gs);
      forall k | 0 <= k < |rest| ensures Rank(order[0]) <= Rank(rest[k]) {
        assert rest[k] in rest;
        var i :| 0 <= i < |order[1..]| && order[1..][i] == rest[k];
        assert order[i + 1] == rest[k];
      }
      hide Rank;
      var out := Chosen(order, gs);
      assert out == rest || out == [order[0]] + rest;
    }
  }

  lemma RankedJoin(a: seq<int>, b: seq<int>)
    requires Ranked(a) && (forall i :: 0 <= i < |a| ==> Rank(a[i]) < 99)
      && forall i :: 0 <= i < |b| ==> Rank(b[i]) == 99
    ensures Ranked(a + b)
  {
    hide Rank;
  }

  /** The baseline reads its groups by rank. */
  lemma PrioritisedByRank(gs: seq<int>)
    requires forall i, j :: 0 <= i < j < |gs| ==> gs[i] != gs[j]
    ensures Ranked(Prioritised(gs))
  {
    ChosenRanked(BASELINE_ORDER, gs);
    var known, others := Chosen(BASELINE_ORDER, gs), Others(gs);
    forall i | 0 <= i < |known| ensures Rank(known[i]) < 99 { assert known[i] in known; }
    forall i | 0 <= i < |others| ensures Rank(others[i]) == 99 { assert others[i] in others; }
    RankedJoin(known, others);
  }

  function Others(gs: seq<int>): (out: seq<int>)
    ensures forall g :: g in out <==> g in gs && !RangeGroup(g)
    ensures (forall i, j :: 0 <= i < j < |gs| ==> gs[i] != gs[j]) ==> forall i,
      j :: 0 <= i < j < |out| ==> out[i] != out[j]
  {
    if gs == [] then []
    else
      var rest := Others(gs[1..]);
      assert (forall i, j :: 0 <= i < j < |gs| ==> gs[i] != gs[j]) ==> gs[0] !in gs[1..];
      if RangeGroup(gs[0]) then rest else [gs[0]] + rest
  }

  /** What the direct strategy asks for a catalogue. */
  function DirectReads(o: Oracle, n: nat, signals: seq<Signal>, l: Limits): seq<Entry> {
    BatchReads(o, Always, n, Plans(Groups(signals), signals), l)
  }
}
