/** One device's link as a step system: frames and link callbacks may land between any two signals of a read. */
module LinkRecovery {
  import opened Prelude
  import opened Telemetry
  import opened DeviceLink

  /** The catalogue the reader is called with and its staleness limit in seconds. */
  datatype Setup = Setup(cat: seq<Signal>, limit: int)

  predicate DistinctPoints(cat: seq<Signal>) { forall i, j :: 0 <= i < j < |cat| ==> cat[i].point != cat[j].point }

  datatype Phase = Waiting | Emitting(next: nat)

  /** The cache and the reader, with what a consumer last saw of each signal and what an observer knows of the link. */
  datatype Link = Link(cache: Cache, phase: Phase, view: map<string, Reading>, clock: real,
                       frames: nat,                // frames since the last link open and since the last stale edge
                       up: bool,                  // the link has opened and not closed since
                       lastFrame: Option<real>)   // when the last frame arrived

  datatype Event = Frame(p: Point, v: Value, at: real) | Open(at: real) | Close | ReadStart(at: real) | ReadNext

  const UNSEEN := Link(FRESH_CACHE, Waiting, map[], 1.0, 0, false, None)

  /** The clock never goes back. */
  function Now(l: Link, at: real): real { MaxReal(l.clock, at) }

  /** What the consumer holds after a batch: a reading without change is never published. */
  function Seen(view: map<string, Reading>, readings: seq<Reading>): map<string, Reading>
    decreases |readings|
  {
    if readings == [] then view
    else Seen(if readings[0].quality.NoChange? then view else view[readings[0].signalKey := readings[0]], readings[1..])
  }

  function StartRead(s: Setup, l: Link, now: real): Link {
    var b := ReadBegun(l.cache, s.limit, now);
    l.(cache := b, clock := now, frames := if StaleEdge(l.cache, s.limit, now) then 0 else l.frames,
       phase := if b.state.Online? && s.cat != [] then Emitting(0) else Waiting,
       view := if b.state.Online? || l.cache.announced then l.view else Seen(l.view, AllEmpty(s.cat, CommLost)))
  }

  function EmitNext(s: Setup, l: Link): Link
    requires l.phase.Emitting? && l.phase.next < |s.cat|
  {
    var i := l.phase.next;
    l.(cache := AfterEmit(l.cache, s.cat[i]), view := Seen(l.view, [EmittedReading(l.cache, s.cat[i])]),
       phase := if i + 1 < |s.cat| then Emitting(i + 1) else Waiting)
  }

  function Next(s: Setup, l: Link, e: Event): Link {
    match e
    case Frame(p, v, at) =>
      l.(cache := Written(l.cache, p, v, Now(l, at)), clock := Now(l, at), frames := l.frames + 1,
         lastFrame := Some(Now(l, at)))
    case Open(at) => l.(cache := LinkOpened(l.cache, Now(l, at)), clock := Now(l, at), frames := 0, up := true)
    case Close => l.(cache := LinkClosed(l.cache), up := false)
    case ReadStart(at) => if l.phase.Waiting? then StartRead(s, l, Now(l, at)) else l
    case ReadNext => if l.phase.Emitting? && l.phase.next < |s.cat| then EmitNext(s, l) else l
  }

  function Exec(s: Setup, l: Link, es: seq<Event>): Link
    decreases |es|
  {
    if es == [] then l else Exec(s, Next(s, l, es[0]), es[1..])
  }

  lemma {:induction false} ExecConcat(s: Setup, l: Link, a: seq<Event>, b: seq<Event>)
    ensures Exec(s, l, a + b) == Exec(s, Exec(s, l, a), b)
    decreases |a|
  {
    if a == [] {
      assert a + b == b;
    } else {
      assert (a + b)[1..] == a[1..] + b;
      ExecConcat(s, Next(s, l, a[0]), a[1..], b);
    }
  }

  /** The link after the first `k` events of a run. */
  function At(s: Setup, l: Link, es: seq<Event>, k: nat): Link
    requires k <= |es|
  {
    Exec(s, l, es[..k])
  }

  lemma AtNext(s: Setup, l: Link, es: seq<Event>, k: nat)
    requires k < |es|
    ensures At(s, l, es, k + 1) == Next(s, At(s, l, es, k), es[k])
  {
    assert es[..k + 1] == es[..k] + [es[k]];
    ExecConcat(s, l, es[..k], [es[k]]);
    assert Exec(s, At(s, l, es, k), [es[k]]) == Exec(s, Next(s, At(s, l, es, k), es[k]), []);
  }

  lemma AtLater(s: Setup, l: Link, es: seq<Event>, i: nat, k: nat)
    requires i <= k <= |es|
    ensures At(s, l, es, k) == Exec(s, At(s, l, es, i), es[i..k])
  {
    assert es[..k] == es[..i] + es[i..k];
    ExecConcat(s, l, es[..i], es[i..k]);
  }

  /** Positions after the first event are positions of the rest. */
  lemma AtRest(s: Setup, l: Link, es: seq<Event>, k: nat)
    requires k < |es|
    ensures At(s, l, es, k + 1) == At(s, Next(s, l, es[0]), es[1..], k)
  {
    assert es[..k + 1][1..] == es[1..][..k];
  }

  // ----- the invariant -----

  ghost predicate MachineInv(c: Cache) {
    && c.dirty <= c.values.Keys
    && (!c.state.Lost? ==> c.connected)
    && (c.pending ==> c.state.Online?)
    && (c.announced && c.state.Online? ==> c.pending)
  }

  ghost predicate ObserverInv(l: Link) {
    && (l.cache.connected <==> l.up)
    && (l.cache.state.Online? ==> l.frames >= 1)
    && l.clock >= 1.0
    && (l.cache.state.Recovering? ==> l.cache.startedAt == l.cache.anchorAt <= l.clock && l.cache.startedAt >= 1.0)
    && l.cache.lastUpdateAt == (if l.lastFrame.Some? then l.lastFrame.value else 0.0)
    && (l.lastFrame.Some? ==> 1.0 <= l.lastFrame.value <= l.clock)
  }

  /** Every known signal that is not marked was last seen with its current value, unless an outage stands announced. */
  ghost predicate ViewOk(cat: seq<Signal>, c: Cache, view: map<string, Reading>) {
    !c.announced ==>
      forall i :: 0 <= i < |cat| && cat[i].point in c.values && cat[i].point !in c.dirty ==>
        cat[i].key in view && view[cat[i].key] == GoodReading(cat[i], c.values[cat[i].point])
  }

  ghost predicate Inv(s: Setup, l: Link) {
    MachineInv(l.cache) && ObserverInv(l) && ViewOk(s.cat, l.cache, l.view)
  }

  predicate Proper(s: Setup) { DistinctKeys(s.cat) && DistinctPoints(s.cat) }

  lemma MachineKept(s: Setup, l: Link, e: Event)
    requires MachineInv(l.cache) && ObserverInv(l)
    ensures MachineInv(Next(s, l, e).cache) && ObserverInv(Next(s, l, e))
  {
    hide StartRead, EmitNext, Written, LinkOpened, LinkClosed;
    match e
    case Frame(p, v, at) => KeptByFrame(s, l, p, v, at);
    case Open(at) => KeptByOpen(s, l, at);
    case Close => KeptByClose(s, l);
    case ReadStart(at) => if l.phase.Waiting? { KeptByStart(s, l, Now(l, at)); }
    case ReadNext => if l.phase.Emitting? && l.phase.next < |s.cat| { KeptByEmit(s, l); }
  }

  lemma KeptByFrame(s: Setup, l: Link, p: Point, v: Value, at: real)
    requires MachineInv(l.cache) && ObserverInv(l)
    ensures MachineInv(Next(s, l, Frame(p, v, at)).cache) && ObserverInv(Next(s, l, Frame(p, v, at)))
  {}

  lemma KeptByOpen(s: Setup, l: Link, at: real)
    requires MachineInv(l.cache) && ObserverInv(l)
    ensures MachineInv(Next(s, l, Open(at)).cache) && ObserverInv(Next(s, l, Open(at)))
  {}

  lemma KeptByClose(s: Setup, l: Link)
    requires MachineInv(l.cache) && ObserverInv(l)
    ensures MachineInv(Next(s, l, Close).cache) && ObserverInv(Next(s, l, Close))
  {}

  lemma KeptByStart(s: Setup, l: Link, now: real)
    requires MachineInv(l.cache) && ObserverInv(l) && l.clock <= now
    ensures MachineInv(StartRead(s, l, now).cache) && ObserverInv(StartRead(s, l, now))
  {
    hide Seen, AllEmpty;
  }

  lemma KeptByEmit(s: Setup, l: Link)
    requires MachineInv(l.cache) && ObserverInv(l) && l.phase.Emitting? && l.phase.next < |s.cat|
    ensures MachineInv(EmitNext(s, l).cache) && ObserverInv(EmitNext(s, l))
  {
    hide Seen, EmittedReading;
  }

  lemma ViewKept(s: Setup, l: Link, e: Event)
    requires Proper(s) && Inv(s, l)
    ensures var n := Next(s, l, e); ViewOk(s.cat, n.cache, n.view)
  {
    if e == ReadNext && l.phase.Emitting? && l.phase.next < |s.cat| {
      var g := s.cat[l.phase.next];
      assert Seen(l.view, [EmittedReading(l.cache, g)])
          == if EmittedReading(l.cache, g).quality.NoChange? then l.view
            else l.view[g.key := EmittedReading(l.cache, g)];
    }
  }

  lemma {:induction false} RunKeeps(s: Setup, l: Link, es: seq<Event>)
    requires Proper(s) && Inv(s, l)
    ensures Inv(s, Exec(s, l, es))
    decreases |es|
  {
    if es != [] {
      MachineKept(s, l, es[0]);
      ViewKept(s, l, es[0]);
      RunKeeps(s, Next(s, l, es[0]), es[1..]);
    }
  }

  /** The machine's own invariant needs no assumption on the catalogue. */
  lemma {:induction false} MachineRunKeeps(s: Setup, l: Link, es: seq<Event>)
    requires MachineInv(l.cache) && ObserverInv(l)
    ensures MachineInv(Exec(s, l, es).cache) && ObserverInv(Exec(s, l, es))
    decreases |es|
  {
    if es != [] {
      MachineKept(s, l, es[0]);
      MachineRunKeeps(s, Next(s, l, es[0]), es[1..]);
    }
  }

  // ----- a read with nothing in between -----

  function Nexts(n: nat): (es: seq<Event>)
    ensures |es| == n && forall i :: 0 <= i < n ==> es[i] == ReadNext
  {
    if n == 0 then [] else [ReadNext] + Nexts(n - 1)
  }

  function ReadEvents(s: Setup, at: real): seq<Event> { [ReadStart(at)] + Nexts(|s.cat|) }

  function WholeRead(s: Setup, l: Link, at: real): Link {
    var now := Now(l, at);
    l.(cache := AfterRead(l.cache, s.limit, now, s.cat), clock := now, phase := Waiting,
       frames := if StaleEdge(l.cache, s.limit, now) then 0 else l.frames,
       view := Seen(l.view, Readings(l.cache, s.limit, now, s.cat)))
  }

  lemma {:induction false} NothingSeen(view: map<string, Reading>, readings: seq<Reading>)
    requires forall i :: 0 <= i < |readings| ==> readings[i].quality.NoChange?
    ensures Seen(view, readings) == view
    decreases |readings|
  {
    if readings != [] { NothingSeen(view, readings[1..]); }
  }

  lemma {:induction false} IdleNexts(s: Setup, l: Link, n: nat)
    requires l.phase.Waiting?
    ensures Exec(s, l, Nexts(n)) == l
    decreases n
  {
    if n > 0 {
      assert Nexts(n)[1..] == Nexts(n - 1);
      IdleNexts(s, l, n - 1);
    }
  }

  lemma {:induction false} EmitRun(s: Setup, l: Link, i: nat)
    requires i < |s.cat| && l.phase == Emitting(i)
    ensures Exec(s, l, Nexts(|s.cat| - i))
      == l.(cache := AfterEmitAll(l.cache, s.cat[i..]), phase := Waiting,
            view := Seen(l.view, EmittedAll(l.cache, s.cat[i..])))
    decreases |s.cat| - i
  {
    var n := Next(s, l, ReadNext);
    var k := |s.cat| - i;
    assert Nexts(k)[1..] == Nexts(k - 1) && Nexts(k)[0] == ReadNext;
    assert s.cat[i..][0] == s.cat[i] && s.cat[i..][1..] == s.cat[i + 1..];
    var r := EmittedReading(l.cache, s.cat[i]);
    assert EmittedAll(l.cache, s.cat[i..])[1..] == EmittedAll(AfterEmit(l.cache, s.cat[i]), s.cat[i + 1..]);
    var v := if r.quality.NoChange? then l.view else l.view[r.signalKey := r];
    assert [r][1..] == [] && Seen(l.view, [r]) == Seen(v, []) == v;
    assert Seen(l.view, EmittedAll(l.cache, s.cat[i..])) == Seen(v, EmittedAll(n.cache, s.cat[i + 1..]));
    assert Exec(s, l, Nexts(k)) == Exec(s, n, Nexts(k - 1));
    if i + 1 < |s.cat| {
      EmitRun(s, n, i + 1);
    } else {
      assert s.cat[i + 1..] == [];
    }
  }

  /** A read taken as one step is the run of its start and one step per signal. */
  lemma ReadIsRun(s: Setup, l: Link, at: real)
    requires l.phase.Waiting?
    ensures Exec(s, l, ReadEvents(s, at)) == WholeRead(s, l, at)
  {
    var n := Next(s, l, ReadStart(at));
    assert ReadEvents(s, at)[1..] == Nexts(|s.cat|);
    assert Exec(s, l, ReadEvents(s, at)) == Exec(s, n, Nexts(|s.cat|));
    if n.phase.Emitting? {
      EmitRun(s, n, 0);
      assert s.cat[0..] == s.cat;
    } else {
      IdleNexts(s, n, |s.cat|);
      if !n.cache.state.Online? && l.cache.announced { NothingSeen(l.view, AllEmpty(s.cat, NoChange)); }
    }
  }

  /** The readings a run makes, one for each signal its reads take. */
  function Emissions(s: Setup, l: Link, es: seq<Event>): seq<Reading>
    decreases |es|
  {
    if es == [] then []
    else
      (if es[0] == ReadNext && l.phase.Emitting? && l.phase.next < |s.cat|
       then [EmittedReading(l.cache, s.cat[l.phase.next])] else [])
      + Emissions(s, Next(s, l, es[0]), es[1..])
  }

  lemma {:induction false} EmitRunReadings(s: Setup, l: Link, i: nat)
    requires i < |s.cat| && l.phase == Emitting(i)
    ensures Emissions(s, l, Nexts(|s.cat| - i)) == EmittedAll(l.cache, s.cat[i..])
    decreases |s.cat| - i
  {
    var n, k := Next(s, l, ReadNext), |s.cat| - i;
    assert Nexts(k)[1..] == Nexts(k - 1) && Nexts(k)[0] == ReadNext;
    assert s.cat[i..][0] == s.cat[i] && s.cat[i..][1..] == s.cat[i + 1..];
    if i + 1 < |s.cat| {
      EmitRunReadings(s, n, i + 1);
    } else {
      assert s.cat[i + 1..] == [] && Nexts(k - 1) == [];
    }
  }

  /** The readings of an online read with nothing in between are those its steps make. */
  lemma ReadingsAreEmissions(s: Setup, l: Link, at: real)
    requires l.phase.Waiting? && s.cat != [] && Judged(l.cache, s.limit, Now(l, at)).state.Online?
    ensures Emissions(s, Next(s, l, ReadStart(at)), Nexts(|s.cat|)) == Readings(l.cache, s.limit, Now(l, at), s.cat)
  {
    EmitRunReadings(s, Next(s, l, ReadStart(at)), 0);
    assert s.cat[0..] == s.cat;
  }

  lemma {:induction false} SeenAt(view: map<string, Reading>, readings: seq<Reading>, key: string)
    requires forall i :: 0 <= i < |readings| && readings[i].signalKey == key ==> readings[i].quality.NoChange?
    ensures key in Seen(view, readings) <==> key in view
    ensures key in view ==> Seen(view, readings)[key] == view[key]
    decreases |readings|
  {
    if readings != [] {
      SeenAt(if readings[0].quality.NoChange? then view else view[readings[0].signalKey := readings[0]], readings[1..],
             key);
    }
  }
}
