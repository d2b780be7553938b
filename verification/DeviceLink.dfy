/** The per-device cache behind the OpenDNP3 master: values, change marks and the link-recovery machine. */
module DeviceLink {
  import opened Prelude
  import opened Telemetry

  const RECOVERY_GRACE := 15.0

  datatype LinkState = Lost | Recovering | Online

  datatype Cache = Cache(values: map<Point, Value>, dirty: set<Point>, connected: bool, lastUpdateAt: real,
                         announced: bool, state: LinkState, startedAt: real, anchorAt: real, pending: bool)

  const FRESH_CACHE := Cache(map[], {}, false, 0.0, false, Lost, 0.0, 0.0, false)

  // ----- what each method of the cache does to its value -----

  /** A frame's measurement for one point.  The first frame that answers a recovery confirms it. */
  function Written(c: Cache, p: Point, v: Value, now: real): Cache {
    var changed := p !in c.values || c.values[p] != v;
    var stored := c.(values := c.values[p := v], lastUpdateAt := now,
                     dirty := if changed then c.dirty + {p} else c.dirty);
    if stored.state.Recovering? && now >= c.anchorAt
    then stored.(state := Online, pending := true, dirty := stored.dirty + stored.values.Keys)
    else stored
  }

  function LinkSet(c: Cache, ok: bool): Cache {
    if ok then c.(connected := true)
    else c.(connected := false, state := Lost, startedAt := 0.0, anchorAt := 0.0, pending := false)
  }

  function RecoveryBegun(c: Cache, now: real): Cache {
    if c.state.Recovering? then c
    else c.(state := Recovering, startedAt := now, anchorAt := now, pending := false)
  }

  function RecoveryAge(c: Cache, now: real): real {
    if !c.state.Recovering? || c.startedAt == 0.0 then 0.0 else now - c.startedAt
  }

  function RecoveryFailed(c: Cache): Cache {
    if c.state.Recovering? then c.(state := Lost, startedAt := 0.0, anchorAt := 0.0, pending := false) else c
  }

  function AllDirty(c: Cache): Cache { c.(dirty := c.dirty + c.values.Keys) }

  function Cleared(c: Cache, p: Point): Cache { c.(dirty := c.dirty - {p}) }

  // ----- the two callbacks of the master application -----

  function LinkOpened(c: Cache, now: real): Cache { RecoveryBegun(LinkSet(c, true), now) }

  function LinkClosed(c: Cache): Cache { LinkSet(c, false) }

  // ----- a read, up to the loop over the signals -----

  /** The staleness limit: four baselines, ten scans or a minute, whichever is longest. */
  function StaleAfter(baseline: int, scan: int): (limit: int)
    ensures limit >= 4 * baseline && limit >= 10 * scan && limit >= 60
    ensures limit in {4 * baseline, 10 * scan, 60}
  {
    Max(Max(baseline * 4, scan * 10), 60)
  }

  predicate Stale(c: Cache, limit: int, now: real) {
    c.lastUpdateAt == 0.0 || now - c.lastUpdateAt > limit as real
  }

  /** The stale edge: connected and online, but no frame for too long. */
  predicate StaleEdge(c: Cache, limit: int, now: real) {
    c.connected && c.state.Online? && Stale(c, limit, now)
  }

  /** An online device on an open link that has sent no frame at all, or none for longer than four baselines, ten scans
      and a minute. */
  predicate GoneStale(c: Cache, baseline: int, scan: int, now: real) {
    && c.connected && c.state == Online
    && (c.lastUpdateAt == 0.0
        || (now - c.lastUpdateAt > (4 * baseline) as real && now - c.lastUpdateAt > (10 * scan) as real
            && now - c.lastUpdateAt > 60.0))
  }

  lemma StaleEdgeExactly(c: Cache, baseline: int, scan: int, now: real)
    ensures StaleEdge(c, StaleAfter(baseline, scan), now) <==> GoneStale(c, baseline, scan, now)
  {}

  function Judged(c: Cache, limit: int, now: real): Cache {
    var c1 := if StaleEdge(c, limit, now) then RecoveryBegun(c, now) else c;
    if c1.state.Recovering? && RecoveryAge(c1, now) > RECOVERY_GRACE then RecoveryFailed(c1) else c1
  }

  /** The cache as the read enters its loop or leaves early. */
  function ReadBegun(c: Cache, limit: int, now: real): Cache {
    var j := Judged(c, limit, now);
    if !j.state.Online? then j.(announced := true)
    else if j.pending then AllDirty(j.(pending := false, announced := false))
    else j
  }

  /** One signal of the loop: emitted when it is known and marked, and its mark is cleared. */
  function EmittedReading(c: Cache, s: Signal): Reading {
    if s.point in c.values && s.point in c.dirty then GoodReading(s, c.values[s.point]) else EmptyReading(s, NoChange)
  }

  function AfterEmit(c: Cache, s: Signal): Cache {
    if s.point in c.values && s.point in c.dirty then Cleared(c, s.point) else c
  }

  function EmittedAll(c: Cache, signals: seq<Signal>): seq<Reading>
    decreases |signals|
  {
    if signals == [] then [] else [EmittedReading(c, signals[0])] + EmittedAll(AfterEmit(c, signals[0]), signals[1..])
  }

  function AfterEmitAll(c: Cache, signals: seq<Signal>): Cache
    decreases |signals|
  {
    if signals == [] then c else AfterEmitAll(AfterEmit(c, signals[0]), signals[1..])
  }

  function AllEmpty(signals: seq<Signal>, q: Quality): (out: seq<Reading>)
    ensures |out| == |signals| && forall i :: 0 <= i < |signals| ==> out[i] == EmptyReading(signals[i], q)
  {
    seq(|signals|, i requires 0 <= i < |signals| => EmptyReading(signals[i], q))
  }

  function Readings(c: Cache, limit: int, now: real, signals: seq<Signal>): seq<Reading> {
    var b := ReadBegun(c, limit, now);
    if b.state.Online? then EmittedAll(b, signals)
    else AllEmpty(signals, if c.announced then NoChange else CommLost)
  }

  function AfterRead(c: Cache, limit: int, now: real, signals: seq<Signal>): Cache {
    var b := ReadBegun(c, limit, now);
    if b.state.Online? then AfterEmitAll(b, signals) else b
  }

  // ----- what an online read publishes -----

  lemma {:induction false} EmitKeepsRest(c: Cache, signals: seq<Signal>)
    ensures AfterEmitAll(c, signals) == c.(dirty := AfterEmitAll(c, signals).dirty)
    ensures forall p :: p in AfterEmitAll(c, signals).dirty <==>
      p in c.dirty && !(p in c.values && exists i :: 0 <= i < |signals| && signals[i].point == p)
    decreases |signals|
  {
    if signals != [] {
      var d := AfterEmit(c, signals[0]);
      EmitKeepsRest(d, signals[1..]);
      forall p ensures p in AfterEmitAll(c, signals).dirty <==>
        p in c.dirty && !(p in c.values && exists i :: 0 <= i < |signals| && signals[i].point == p)
      {
        if i :| 0 <= i < |signals| && signals[i].point == p {
          if i > 0 { assert signals[1..][i - 1].point == p; }
        }
        if j :| 0 <= j < |signals[1..]| && signals[1..][j].point == p { assert signals[j + 1].point == p; }
      }
    }
  }

  /** A signal is published good exactly when its point is known, marked, and not already taken by an earlier signal;
      otherwise it carries no change. */
  lemma {:induction false} EmitExactly(c: Cache, signals: seq<Signal>, i: nat)
    requires i < |signals|
    ensures |EmittedAll(c, signals)| == |signals|
    ensures EmittedAll(c, signals)[i] ==
      if signals[i].point in c.values && signals[i].point in c.dirty
         && (forall j :: 0 <= j < i ==> signals[j].point != signals[i].point)
      then GoodReading(signals[i], c.values[signals[i].point])
      else EmptyReading(signals[i], NoChange)
    decreases |signals|
  {
    var rest := signals[1..];
    if i == 0 {
      EmitLength(AfterEmit(c, signals[0]), rest);
    } else {
      EmitExactly(AfterEmit(c, signals[0]), rest, i - 1);
      var p := signals[i].point;
      if forall j :: 0 <= j < i ==> signals[j].point != p {
        forall j | 0 <= j < i - 1 ensures rest[j].point != p { assert rest[j] == signals[j + 1]; }
      } else {
        var j :| 0 <= j < i && signals[j].point == p;
        if j > 0 { assert rest[j - 1].point == p; }
      }
    }
  }

  lemma {:induction false} EmitLength(c: Cache, signals: seq<Signal>)
    ensures |EmittedAll(c, signals)| == |signals|
    decreases |signals|
  {
    if signals != [] { EmitLength(AfterEmit(c, signals[0]), signals[1..]); }
  }

  // ----- the objects -----

  class DeviceCache {
    var values: map<Point, Value>
    var dirty: set<Point>
    var connected: bool
    var lastUpdateAt: real
    var staleAnnounced: bool
    var state: LinkState
    var recoveryStartedAt: real
    var recoveryAnchorAt: real
    var pendingRecoveryPublish: bool

    ghost function Value(): Cache
      reads this
    {
      Cache(values, dirty, connected, lastUpdateAt, staleAnnounced, state,
            recoveryStartedAt, recoveryAnchorAt, pendingRecoveryPublish)
    }

    constructor ()
      ensures Value() == FRESH_CACHE
    {
      values, dirty, connected, lastUpdateAt, staleAnnounced := map[], {}, false, 0.0, false;
      state, recoveryStartedAt, recoveryAnchorAt, pendingRecoveryPublish := Lost, 0.0, 0.0, false;
    }

    method Set(p: Point, v: Telemetry.Value, now: real)
      modifies this
      ensures Value() == Written(old(Value()), p, v, now)
      ensures values == old(values)[p := v] && lastUpdateAt == now && connected == old(connected)
      ensures var confirms := old(state) == Recovering && now >= old(recoveryAnchorAt);
        && state == (if confirms then Online else old(state))
        && pendingRecoveryPublish == (confirms || old(pendingRecoveryPublish))
        && forall q :: q in dirty <==>
             || q in old(dirty)
             || (q == p && (p !in old(values) || old(values)[p] != v))
             || (confirms && q in values)
    {
      var known := p in values;
      if !known || values[p].raw != v.raw || values[p].text != v.text {
        dirty := dirty + {p};
      }
      values := values[p := v];
      lastUpdateAt := now;
      if state == Recovering && now >= recoveryAnchorAt {
        state := Online;
        pendingRecoveryPublish := true;
        dirty := dirty + values.Keys;
      }
    }

    method Get(p: Point) returns (r: Option<Telemetry.Value>)
      ensures r == if p in values then Some(values[p]) else None
    {
      r := if p in values then Some(values[p]) else None;
    }

    method ClearDirty(p: Point)
      modifies this`dirty
      ensures Value() == Cleared(old(Value()), p)
      ensures dirty == old(dirty) - {p}
    {
      dirty := dirty - {p};
    }

    method MarkAllDirty() returns (count: nat)
      modifies this`dirty
      ensures Value() == AllDirty(old(Value())) && count == |values|
      ensures dirty == old(dirty) + values.Keys
    {
      count := |values|;
      dirty := dirty + values.Keys;
    }

    method SetConnected(ok: bool)
      modifies this
      ensures Value() == LinkSet(old(Value()), ok)
      ensures connected == ok && values == old(values) && dirty == old(dirty) && staleAnnounced == old(staleAnnounced)
      ensures state == (if ok then old(state) else Lost)
      ensures pendingRecoveryPublish == (ok && old(pendingRecoveryPublish))
    {
      connected := ok;
      if !ok {
        state, recoveryStartedAt, recoveryAnchorAt, pendingRecoveryPublish := Lost, 0.0, 0.0, false;
      }
    }

    method BeginRecovery(now: real)
      modifies this
      ensures Value() == RecoveryBegun(old(Value()), now)
      ensures state == Recovering && (old(state) == Recovering ==> Value() == old(Value()))
      ensures old(state) != Recovering ==>
        recoveryStartedAt == recoveryAnchorAt == now && !pendingRecoveryPublish && values == old(values)
        && dirty == old(dirty)
    {
      if state == Recovering {
        return;
      }
      state, recoveryStartedAt, recoveryAnchorAt, pendingRecoveryPublish := Recovering, now, now, false;
    }

    method AgeOfRecovery(now: real) returns (age: real)
      ensures age == RecoveryAge(Value(), now)
      ensures state == Recovering && recoveryStartedAt != 0.0 ==> age == now - recoveryStartedAt
    {
      age := if state != Recovering || recoveryStartedAt == 0.0 then 0.0 else now - recoveryStartedAt;
    }

    method FailRecovery()
      modifies this
      ensures Value() == RecoveryFailed(old(Value()))
      ensures state == (if old(state) == Recovering then Lost else old(state))
      ensures values == old(values) && dirty == old(dirty)
    {
      if state == Recovering {
        state, recoveryStartedAt, recoveryAnchorAt, pendingRecoveryPublish := Lost, 0.0, 0.0, false;
      }
    }

    method ConsumeRecoveryPublish() returns (consumed: bool)
      modifies this`pendingRecoveryPublish
      ensures consumed == old(pendingRecoveryPublish)
      ensures Value() == old(Value()).(pending := false)
    {
      consumed := pendingRecoveryPublish;
      pendingRecoveryPublish := false;
    }

    method OnOpen(now: real)
      modifies this
      ensures Value() == LinkOpened(old(Value()), now)
      ensures connected && state == Recovering && values == old(values) && dirty == old(dirty)
      ensures old(state) != Recovering ==> recoveryStartedAt == now
    {
      SetConnected(true);
      BeginRecovery(now);
    }

    method OnClose()
      modifies this
      ensures Value() == LinkClosed(old(Value()))
      ensures !connected && state == Lost && values == old(values) && dirty == old(dirty)
    {
      SetConnected(false);
    }
  }

  class TelemetryReader {
    const cache: DeviceCache
    const scanInterval: int
    const baselineInterval: int

    constructor (cache: DeviceCache, scanInterval: int, baselineInterval: int)
      ensures this.cache == cache && this.scanInterval == scanInterval && this.baselineInterval == baselineInterval
    {
      this.cache, this.scanInterval, this.baselineInterval := cache, scanInterval, baselineInterval;
    }

    /** A read with no callback in between.  `polled` tells whether it asked the device for an integrity poll. */
    method ReadDevice(signals: seq<Signal>, now: real) returns (readings: seq<Reading>, polled: bool)
      modifies cache
      ensures readings == Readings(old(cache.Value()), StaleAfter(baselineInterval, scanInterval), now, signals)
      ensures cache.Value() == AfterRead(old(cache.Value()), StaleAfter(baselineInterval, scanInterval), now, signals)
      ensures polled == StaleEdge(old(cache.Value()), StaleAfter(baselineInterval, scanInterval), now)
      ensures polled <==> GoneStale(old(cache.Value()), baselineInterval, scanInterval, now)
    {
      hide EmittedAll, AfterEmitAll, GoneStale;
      StaleEdgeExactly(cache.Value(), baselineInterval, scanInterval, now);
      var threshold := if baselineInterval * 4 < scanInterval * 10 then scanInterval * 10 else baselineInterval * 4;
      if threshold < 60 {
        threshold := 60;
      }
      var state;
      state, polled := Judge(threshold, now);
      if state != Online {
        var already := cache.staleAnnounced;
        cache.staleAnnounced := true;
        readings := AllEmpty(signals, if already then NoChange else CommLost);
        return;
      }
      var recovered := cache.ConsumeRecoveryPublish();
      if recovered {
        cache.staleAnnounced := false;
        var count := cache.MarkAllDirty();
      }
      readings := EmitLoop(signals);
    }

    /** The stale edge and the end of the grace period, decided on one look at the cache. */
    method Judge(threshold: int, now: real) returns (state: LinkState, polled: bool)
      modifies cache
      ensures cache.Value() == Judged(old(cache.Value()), threshold, now) && state == cache.state
      ensures polled == StaleEdge(old(cache.Value()), threshold, now)
    {
      var connected := cache.connected;
      var stale := cache.lastUpdateAt == 0.0 || now - cache.lastUpdateAt > threshold as real;
      state := cache.state;
      polled := false;
      if connected && stale && state == Online {
        cache.BeginRecovery(now);
        state := Recovering;
        polled := true;
      }
      if state == Recovering {
        var age := cache.AgeOfRecovery(now);
        if age > RECOVERY_GRACE {
          cache.FailRecovery();
          state := Lost;
        }
      }
    }

    method EmitLoop(signals: seq<Signal>) returns (readings: seq<Reading>)
      modifies cache
      ensures readings == EmittedAll(old(cache.Value()), signals)
      ensures cache.Value() == AfterEmitAll(old(cache.Value()), signals)
    {
      readings := [];
      var i := 0;
      assert signals[0..] == signals;
      while i < |signals|
        invariant i <= |signals|
        invariant EmittedAll(old(cache.Value()), signals) == readings + EmittedAll(cache.Value(), signals[i..])
        invariant AfterEmitAll(old(cache.Value()), signals) == AfterEmitAll(cache.Value(), signals[i..])
      {
        var s := signals[i];
        assert signals[i..][0] == s && signals[i..][1..] == signals[i + 1..];
        var entry := cache.Get(s.point);
        if entry.None? || s.point !in cache.dirty {
          readings := readings + [EmptyReading(s, NoChange)];
        } else {
          readings := readings + [GoodReading(s, entry.value)];
          cache.ClearDirty(s.point);
        }
        i := i + 1;
      }
    }
  }
}
