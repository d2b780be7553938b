/** The gateway's configuration state and one poll cycle over the devices that are due. */
module Scheduler {
  import opened Prelude
  import opened Telemetry

  datatype Device = Device(code: string, pollInterval: int)

  datatype GatewayConfig = GatewayConfig(version: string, active: bool, devices: seq<Device>, signals: seq<Signal>,
                                         refreshNonce: int)

  function Interval(d: Device): real { Max(1, d.pollInterval) as real }

  function LastRead(last: map<string, real>, code: string): real { if code in last then last[code] else 0.0 }

  predicate IsDue(last: map<string, real>, d: Device, now: real) { now - LastRead(last, d.code) >= Interval(d) }

  /** The device's interval has passed, and so has a second. */
  predicate Waited(last: map<string, real>, d: Device, now: real) {
    var since := now - if d.code in last then last[d.code] else 0.0;
    since >= 1.0 && since >= d.pollInterval as real
  }

  /** The devices whose interval has passed, in configured order. */
  function Due(devices: seq<Device>, last: map<string, real>, now: real): seq<Device> {
    if devices == [] then []
    else
      var before := Due(devices[..|devices| - 1], last, now);
      if IsDue(last, devices[|devices| - 1], now) then before + [devices[|devices| - 1]] else before
  }

  lemma {:induction false} DueExactly(devices: seq<Device>, last: map<string, real>, now: real, d: Device)
    ensures d in Due(devices, last, now) <==> d in devices && Waited(last, d, now)
    decreases |devices|
  {
    if devices != [] {
      var k := |devices| - 1;
      assert devices == devices[..k] + [devices[k]];
      DueExactly(devices[..k], last, now, d);
    }
  }

  /** Configured order is kept. */
  lemma {:induction false} DueConcat(a: seq<Device>, b: seq<Device>, last: map<string, real>, now: real)
    ensures Due(a + b, last, now) == Due(a, last, now) + Due(b, last, now)
    decreases |b|
  {
    if b == [] {
      assert a + b == a;
    } else {
      assert (a + b)[..|a + b| - 1] == a + b[..|b| - 1];
      DueConcat(a, b[..|b| - 1], last, now);
    }
  }

  /** What a cycle polls: the published kinds of signal, in catalogue order. */
  function ReadableOnly(signals: seq<Signal>): seq<Signal> {
    if signals == [] then []
    else (if Readable(signals[0]) then [signals[0]] else []) + ReadableOnly(signals[1..])
  }

  /** Everything but commands and unknown types is polled, in catalogue order. */
  lemma {:induction false} ReadableExactly(a: seq<Signal>, b: seq<Signal>, s: Signal)
    ensures ReadableOnly(a + b) == ReadableOnly(a) + ReadableOnly(b)
    ensures s in ReadableOnly(a) <==> s in a && s.dataType != BinaryOutput && !s.dataType.OtherType?
    decreases |a|
  {
    if a == [] {
      assert a + b == b;
    } else {
      assert (a + b)[1..] == a[1..] + b;
      ReadableExactly(a[1..], b, s);
      assert s in a <==> s == a[0] || s in a[1..];
    }
  }

  function Codes(ds: seq<Device>): set<string> { set i | 0 <= i < |ds| :: ds[i].code }

  lemma CodesExactly(ds: seq<Device>)
    ensures forall c :: c in Codes(ds) <==> exists d :: d in ds && d.code == c
  {}

  /** The read times after the given devices were marked. */
  function Marked(last: map<string, real>, codes: set<string>, now: real): map<string, real> {
    map c | c in last.Keys + codes :: if c in codes then now else last[c]
  }

  function Forgotten(last: map<string, real>, known: set<string>): map<string, real> {
    map c | c in last && c in known :: last[c]
  }

  // ----- the state object -----

  class GatewayState {
    var devices: seq<Device>
    var signals: seq<Signal>
    var lastReadAt: map<string, real>
    var configVersion: string
    var active: bool
    var refreshNonce: int
    var refreshPending: bool

    constructor ()
      ensures devices == [] && signals == [] && lastReadAt == map[] && !active
      ensures configVersion == "" && refreshNonce == 0 && !refreshPending
    {
      devices, signals, lastReadAt, configVersion, active := [], [], map[], "", false;
      refreshNonce, refreshPending := 0, false;
    }

    /** Takes over a configuration; read times of devices it no longer names are dropped, all others stay. */
    method Update(config: GatewayConfig) returns (changed: bool)
      modifies this
      ensures changed == (config.version != old(configVersion)) && configVersion == config.version
      ensures devices == config.devices && signals == config.signals && active == config.active
      ensures lastReadAt == Forgotten(old(lastReadAt), Codes(config.devices))
      ensures forall c :: c in lastReadAt <==> c in old(lastReadAt) && exists d :: d in config.devices && d.code == c
      ensures forall c :: c in lastReadAt ==> lastReadAt[c] == old(lastReadAt)[c]
      ensures refreshNonce == config.refreshNonce
      ensures refreshPending == (old(refreshPending) || config.refreshNonce > old(refreshNonce))
    {
      changed := config.version != configVersion;
      devices, signals, active := config.devices, config.signals, config.active;
      KeepOnly(Codes(devices));
      CodesExactly(devices);
      configVersion := config.version;
      if config.refreshNonce > refreshNonce {
        refreshPending, refreshNonce := true, config.refreshNonce;
      } else if config.refreshNonce < refreshNonce {
        refreshNonce := config.refreshNonce;
      }
    }

    method KeepOnly(known: set<string>)
      modifies this`lastReadAt
      ensures lastReadAt == Forgotten(old(lastReadAt), known)
    {
      var keys := lastReadAt.Keys;
      while keys != {}
        invariant keys <= old(lastReadAt).Keys
        invariant lastReadAt == Forgotten(old(lastReadAt), known + keys)
        decreases |keys|
      {
        var key :| key in keys;
        keys := keys - {key};
        if key !in known {
          lastReadAt := lastReadAt - {key};
        }
      }
    }

    /** The operator's refresh request is handed out once. */
    method TakeRefreshRequest() returns (wanted: bool)
      modifies this`refreshPending
      ensures wanted == old(refreshPending) && !refreshPending
    {
      wanted := refreshPending;
      refreshPending := false;
    }

    method MarkRead(code: string, at: real)
      modifies this`lastReadAt
      ensures lastReadAt == Marked(old(lastReadAt), {code}, at) == old(lastReadAt)[code := at]
    {
      lastReadAt := lastReadAt[code := at];
    }

    method DueDevices(now: real) returns (due: seq<Device>)
      ensures due == Due(devices, lastReadAt, now)
      ensures forall d :: d in due <==> d in devices && Waited(lastReadAt, d, now)
    {
      due := [];
      var i := 0;
      while i < |devices|
        invariant i <= |devices| && due == Due(devices[..i], lastReadAt, now)
      {
        assert devices[..i + 1][..i] == devices[..i];
        var last := if devices[i].code in lastReadAt then lastReadAt[devices[i].code] else 0.0;
        var interval := if devices[i].pollInterval < 1 then 1 else devices[i].pollInterval;
        if now - last >= interval as real {
          due := due + [devices[i]];
        }
        i := i + 1;
      }
      assert devices[..i] == devices;
      forall d ensures d in due <==> d in devices && Waited(lastReadAt, d, now) {
        DueExactly(devices, lastReadAt, now, d);
      }
    }
  }

  // ----- one cycle -----

  /** How the poll of one device ends; a future may also fail in the pool. */
  datatype PollResult = Published(count: nat) | OutboxFull | Failed

  function CountOf(r: PollResult): (n: nat)
    ensures n == if r.Published? then r.count else 0
  {
    if r.Published? then r.count else 0
  }

  function Total(outcome: nat -> PollResult, n: nat): nat {
    if n == 0 then 0 else Total(outcome, n - 1) + CountOf(outcome(n - 1))
  }

  /** Of the first n futures, those in `done` contribute their counts. */
  function TotalOver(outcome: nat -> PollResult, done: set<nat>, n: nat): nat {
    if n == 0 then 0
    else TotalOver(outcome, done, n - 1) + (if n - 1 in done then CountOf(outcome(n - 1)) else 0)
  }

  lemma {:induction false} TotalOverAdd(outcome: nat -> PollResult, done: set<nat>, i: nat, n: nat)
    requires i !in done
    ensures TotalOver(outcome, done + {i}, n) == TotalOver(outcome, done, n) + if i < n then CountOf(outcome(i)) else 0
  {
    if n > 0 { TotalOverAdd(outcome, done, i, n - 1); }
  }

  lemma {:induction false} TotalOverNone(outcome: nat -> PollResult, n: nat)
    ensures TotalOver(outcome, {}, n) == 0
  {
    if n > 0 { TotalOverNone(outcome, n - 1); }
  }

  lemma {:induction false} TotalOverAll(outcome: nat -> PollResult, done: set<nat>, n: nat)
    requires forall i :: 0 <= i < n ==> i in done
    ensures TotalOver(outcome, done, n) == Total(outcome, n)
  {
    if n > 0 { TotalOverAll(outcome, done, n - 1); }
  }

  /** A cycle on the serial path handled exactly the first n due devices: it stopped before the next one because of the
      stop signal, or after the last one because of the outbox. */
  ghost predicate Prefix(due: nat, stop: nat -> bool, outcome: nat -> PollResult, n: nat) {
    && n <= due
    && (forall i :: 0 <= i < n ==> !stop(i))
    && (forall i :: 0 <= i < n - 1 ==> !outcome(i).OutboxFull?)
    && (n < due ==> stop(n) || (n > 0 && outcome(n - 1).OutboxFull?))
  }

  lemma NoCodesYet(due: seq<Device>, last: map<string, real>, now: real)
    ensures Marked(last, Codes(due[..0]), now) == last
  {}

  lemma CodesOneMore(due: seq<Device>, i: nat)
    requires i < |due|
    ensures Codes(due[..i + 1]) == Codes(due[..i]) + {due[i].code}
  {
    forall c ensures c in Codes(due[..i + 1]) <==> c in Codes(due[..i]) + {due[i].code} {
      if k :| 0 <= k < i && due[..i][k].code == c { assert due[..i + 1][k].code == c; }
      if c == due[i].code { assert due[..i + 1][i].code == c; }
    }
  }

  lemma MarkedAgain(last: map<string, real>, a: set<string>, b: set<string>, now: real)
    ensures Marked(Marked(last, a, now), b, now) == Marked(last, a + b, now)
  {}

  /** Devices one after the other; a stop leaves the rest unmarked, a full outbox still marks the device that met it. */
  method RunSerial(state: GatewayState, due: seq<Device>, now: real, stop: nat -> bool, outcome: nat -> PollResult)
    returns (total: nat, tripped: bool, ghost n: nat)
    modifies state`lastReadAt
    ensures Prefix(|due|, stop, outcome, n) && total == Total(outcome, n)
    ensures tripped <==> n > 0 && outcome(n - 1).OutboxFull?
    ensures state.lastReadAt == Marked(old(state.lastReadAt), Codes(due[..n]), now)
  {
    hide Marked, Codes;
    total, tripped := 0, false;
    var i := 0;
    NoCodesYet(due, state.lastReadAt, now);
    while i < |due|
      invariant i <= |due| && total == Total(outcome, i)
      invariant forall k :: 0 <= k < i ==> !stop(k) && !outcome(k).OutboxFull?
      invariant state.lastReadAt == Marked(old(state.lastReadAt), Codes(due[..i]), now)
    {
      if stop(i) {
        return total, false, i;
      }
      CodesOneMore(due, i);
      MarkedAgain(old(state.lastReadAt), Codes(due[..i]), {due[i].code}, now);
      state.MarkRead(due[i].code, now);
      var result := outcome(i);
      if result.OutboxFull? {
        return total, true, i + 1;
      }
      total := total + CountOf(result);
      i := i + 1;
    }
    n := i;
  }

  /** The serial path handles, and so marks, every due device exactly when no stop came before one of them and no device
      but the last met a full outbox. */
  lemma AllHandledIff(due: nat, stop: nat -> bool, outcome: nat -> PollResult, n: nat)
    requires Prefix(due, stop, outcome, n)
    ensures n == due
      <==> (forall i :: 0 <= i < due ==> !stop(i)) && (forall i :: 0 <= i < due - 1 ==> !outcome(i).OutboxFull?)
  {}

  /** Of two due devices the first meets a full outbox: the second keeps its old read time, if it had one. */
  lemma LeftOverUnmarked(due: seq<Device>, last: map<string, real>, now: real, stop: nat -> bool,
                         outcome: nat -> PollResult, n: nat)
    requires |due| == 2 && due[0].code != due[1].code && !stop(0) && outcome(0).OutboxFull?
    requires Prefix(|due|, stop, outcome, n)
    ensures var after := Marked(last, Codes(due[..n]), now);
      && after[due[0].code] == now
      && (due[1].code in after <==> due[1].code in last) && LastRead(after, due[1].code) == LastRead(last, due[1].code)
  {
    assert n == 1;
    assert due[..1][0] == due[0];
  }

  // ----- the parallel path -----

  const SLICE := 2.0
  const SHORTEST := 0.1

  /** The environment of a parallel cycle.  Times are seconds since the submission; for the k-th turn of the loop: the
      clock before the wait, whether a stop was asked for, which futures have finished, and the clock after the wait. */
  datatype Pool = Pool(started: real, before: nat -> real, stop: nat -> bool, finished: nat -> set<nat>,
                       after: nat -> real, outcome: nat -> PollResult)

  /** How long one wait may last: two seconds, or what remains of the cycle if that is less, but at least a tenth. */
  function Quantum(remaining: real): (q: real)
    ensures 0.1 <= q <= 2.0 && (q == 2.0 || q == remaining || q == 0.1)
    ensures remaining >= 2.0 ==> q == 2.0
    ensures 0.1 <= remaining <= 2.0 ==> q == remaining
  {
    MinReal(SLICE, MaxReal(SHORTEST, remaining))
  }

  /** A wait that returns no future took its whole time. */
  function AfterWait(pool: Pool, k: nat, at: real, quantum: real, newDone: set<nat>): real {
    MaxReal(pool.after(k), if newDone == {} then at + quantum else at)
  }

  ghost predicate Partition(done: set<nat>, timedOut: set<nat>, pending: set<nat>, n: nat) {
    && done !! timedOut && done !! pending && timedOut !! pending
    && forall i: nat :: i in done || i in timedOut || i in pending <==> i < n
  }

  /** The done futures are those that had finished by one of the first `rounds` waits. */
  ghost predicate Noticed(pool: Pool, done: set<nat>, rest: set<nat>, rounds: nat) {
    && (forall i :: i in done ==> exists k :: 0 <= k < rounds && i in pool.finished(k))
    && (forall i, k :: i in rest && 0 <= k < rounds ==> i !in pool.finished(k))
  }

  lemma NoticedNext(pool: Pool, done: set<nat>, pending: set<nat>, rounds: nat)
    requires Noticed(pool, done, pending, rounds)
    ensures var newDone := pool.finished(rounds) * pending; Noticed(pool, done + newDone, pending - newDone, rounds + 1)
  {}

  lemma PartitionNext(done: set<nat>, timedOut: set<nat>, pending: set<nat>, moved: set<nat>, n: nat)
    requires Partition(done, timedOut, pending, n) && moved <= pending
    ensures Partition(done + moved, timedOut, pending - moved, n) && forall i :: i in pending - moved ==> i < n
  {}

  lemma AfterOneWait(pool: Pool, done: set<nat>, timedOut: set<nat>, pending: set<nat>, rounds: nat, n: nat)
    requires Partition(done, timedOut, pending, n) && Noticed(pool, done, pending, rounds)
    ensures var newDone := pool.finished(rounds) * pending;
      var rest := pending - newDone;
      && Partition(done + newDone, timedOut, rest, n) && Noticed(pool, done + newDone, rest, rounds + 1)
      && (forall i :: i in rest ==> i < n) && |rest| <= |pending|
      && (newDone != {} ==> |rest| < |pending|) && (newDone == {} ==> rest == pending)
  {
    var newDone := pool.finished(rounds) * pending;
    var rest := pending - newDone;
    NoticedNext(pool, done, pending, rounds);
    PartitionNext(done, timedOut, pending, newDone, n);
    hide Noticed, Partition;
    if i :| i in newDone {
      Smaller(rest, pending, i);
    } else {
      assert rest == pending;
    }
  }

  /** All futures were submitted at the same time. */
  predicate Together(futureStart: seq<real>) {
    forall i, j :: 0 <= i < |futureStart| && 0 <= j < |futureStart| ==> futureStart[i] == futureStart[j]
  }

  /** The futures that have run for the device timeout. */
  function Late(futures: set<nat>, futureStart: seq<real>, at: real, timeout: real): set<nat> {
    set i | i in futures && i < |futureStart| && at - futureStart[i] >= timeout
  }

  /** Futures that started together are late together. */
  lemma LateTogether(futures: set<nat>, futureStart: seq<real>, at: real, timeout: real)
    requires Together(futureStart) && forall i :: i in futures ==> i < |futureStart|
    ensures Late(futures, futureStart, at, timeout) == {} || Late(futures, futureStart, at, timeout) == futures
  {
    var late := Late(futures, futureStart, at, timeout);
    if i :| i in late {
      forall j | j in futures ensures j in late { assert futureStart[j] == futureStart[i]; }
      assert late == futures;
    } else {
      assert late == {};
    }
  }

  lemma AfterGivingUp(pool: Pool, done: set<nat>, timedOut: set<nat>, pending: set<nat>, late: set<nat>, rounds: nat,
                      n: nat)
    requires Partition(done, timedOut, pending, n) && Noticed(pool, done, pending, rounds) && late <= pending
    ensures Partition(done, timedOut + late, pending - late, n) && Noticed(pool, done, pending - late, rounds)
    ensures timedOut == {} ==> Noticed(pool, done, timedOut + late + (pending - late), rounds)
    ensures |pending - late| <= |pending| && (late != {} ==> |pending - late| < |pending|)
  {
    if i :| i in late {
      Smaller(pending - late, pending, i);
    } else {
      assert pending - late == pending;
    }
  }

  /** Where the futures are after some waits.  Those submitted together are given up together. */
  ghost predicate Awaited(pool: Pool, futureStart: seq<real>, timeout: real, done: set<nat>, timedOut: set<nat>,
                         pending: set<nat>, rounds: nat, at: real)
  {
    && Partition(done, timedOut, pending, |futureStart|) && Noticed(pool, done, pending, rounds)
    && (timedOut != {} ==> 0.0 < timeout)
    && (forall i :: i in timedOut ==> i < |futureStart| && at - futureStart[i] >= timeout)
    && (Together(futureStart) ==>
          Noticed(pool, done, timedOut + pending, rounds) && (timedOut != {} ==> pending == {}))
  }

  lemma AllPending(pool: Pool, futureStart: seq<real>, timeout: real, at: real)
    ensures Awaited(pool, futureStart, timeout, {}, {}, Futures(|futureStart|), 0, at)
  {}

  lemma Passed(pool: Pool, futureStart: seq<real>, timeout: real, done: set<nat>, timedOut: set<nat>, pending: set<nat>,
               rounds: nat, at: real, later: real)
    requires Awaited(pool, futureStart, timeout, done, timedOut, pending, rounds, at) && at <= later
    ensures Awaited(pool, futureStart, timeout, done, timedOut, pending, rounds, later)
  {}

  /** No wait began after a stop or past the deadline. */
  ghost predicate Punctual(pool: Pool, rounds: nat, deadline: real) {
    forall k :: 0 <= k < rounds ==> !pool.stop(k) && pool.before(k) < deadline
  }

  lemma NoneYet(pool: Pool, deadline: real)
    ensures Punctual(pool, 0, deadline)
  {}

  lemma StillPunctual(pool: Pool, rounds: nat, deadline: real)
    requires Punctual(pool, rounds, deadline) && !pool.stop(rounds) && pool.before(rounds) < deadline
    ensures Punctual(pool, rounds + 1, deadline)
  {}

  /** No future is left that was past the device timeout after the last wait. */
  ghost predicate NoneOverdue(pool: Pool, futureStart: seq<real>, timeout: real, pending: set<nat>, rounds: nat) {
    rounds > 0 && timeout > 0.0 ==>
      forall i :: i in pending && i < |futureStart| ==> pool.after(rounds - 1) - futureStart[i] < timeout
  }

  lemma NotLate(pool: Pool, futureStart: seq<real>, timeout: real, pending: set<nat>, late: set<nat>, rounds: nat,
                at: real)
    requires rounds > 0 && pool.after(rounds - 1) <= at
    requires late == if 0.0 < timeout then Late(pending, futureStart, at, timeout) else {}
    ensures NoneOverdue(pool, futureStart, timeout, pending - late, rounds)
  {}

  lemma NothingAdded(none: set<nat>, some: set<nat>)
    requires none == {}
    ensures none + some == some
  {}

  lemma OneWait(pool: Pool, futureStart: seq<real>, timeout: real, done: set<nat>, timedOut: set<nat>,
                pending: set<nat>,
               rounds: nat, at: real)
    requires Awaited(pool, futureStart, timeout, done, timedOut, pending, rounds, at) && pending != {}
    ensures var newDone := pool.finished(rounds) * pending;
      var rest := pending - newDone;
      && Awaited(pool, futureStart, timeout, done + newDone, timedOut, rest, rounds + 1, at)
      && (forall i :: i in rest ==> i < |futureStart|) && (Together(futureStart) ==> timedOut == {})
      && |rest| <= |pending| && (newDone != {} ==> |rest| < |pending|)
  {
    hide Noticed, Partition, Together;
    var newDone := pool.finished(rounds) * pending;
    AfterOneWait(pool, done, timedOut, pending, rounds, |futureStart|);
    if Together(futureStart) { NothingAdded(timedOut, pending - newDone); }
  }

  lemma GivenUp(pool: Pool, futureStart: seq<real>, timeout: real, done: set<nat>, timedOut: set<nat>,
                pending: set<nat>,
                late: set<nat>, rounds: nat, at: real)
    requires Awaited(pool, futureStart, timeout, done, timedOut, pending, rounds, at)
    requires (forall i :: i in pending ==> i < |futureStart|) && (Together(futureStart) ==> timedOut == {})
    requires late == if 0.0 < timeout then Late(pending, futureStart, at, timeout) else {}
    ensures Awaited(pool, futureStart, timeout, done, timedOut + late, pending - late, rounds, at)
    ensures |pending - late| <= |pending| && (late != {} ==> |pending - late| < |pending|)
  {
    hide Noticed, Partition, Together;
    AfterGivingUp(pool, done, timedOut, pending, late, rounds, |futureStart|);
    if Together(futureStart) {
      LateTogether(pending, futureStart, at, timeout);
      assert timedOut + late == late;
    }
  }

  lemma Smaller(a: set<nat>, b: set<nat>, i: nat)
    requires a <= b && i in b && i !in a
    ensures |a| < |b|
  {
    assert |b| == |a| + |b - a| by { assert b == a + (b - a); }
    assert i in b - a;
  }

  function Futures(n: nat): (all: set<nat>)
    ensures forall i: nat :: i in all <==> i < n
  {
    if n == 0 then {} else Futures(n - 1) + {n - 1}
  }

  function CodesOf(due: seq<Device>, futures: set<nat>): set<string> {
    set i | i in futures && i < |due| :: due[i].code
  }

  lemma CodesOfOne(due: seq<Device>, i: nat)
    requires i < |due|
    ensures CodesOf(due, {i}) == {due[i].code}
  {}

  lemma NoCodes(due: seq<Device>, last: map<string, real>, now: real)
    ensures CodesOf(due, {}) == {} && Marked(last, {}, now) == last
  {}

  lemma CodesJoin(due: seq<Device>, a: set<nat>, b: set<nat>)
    ensures CodesOf(due, a + b) == CodesOf(due, a) + CodesOf(due, b)
  {}

  /** Marks the devices of some futures, one after the other. */
  method MarkFutures(state: GatewayState, due: seq<Device>, now: real, futures: set<nat>)
    requires forall i :: i in futures ==> i < |due|
    modifies state`lastReadAt
    ensures state.lastReadAt == Marked(old(state.lastReadAt), CodesOf(due, futures), now)
  {
    hide Marked, CodesOf;
    var left, gone := futures, {};
    NoCodes(due, state.lastReadAt, now);
    while left != {}
      invariant left + gone == futures
      invariant state.lastReadAt == Marked(old(state.lastReadAt), CodesOf(due, gone), now)
      decreases |left|
    {
      var i: nat :| i in left;
      CodesOfOne(due, i);
      CodesJoin(due, gone, {i});
      MarkedAgain(old(state.lastReadAt), CodesOf(due, gone), {due[i].code}, now);
      state.MarkRead(due[i].code, now);
      left, gone := left - {i}, gone + {i};
    }
    assert gone == futures;
  }

  /** Gives up the pending futures that have run for the device timeout and marks their devices. */
  method GiveUpLate(state: GatewayState, due: seq<Device>, now: real, pending: set<nat>, futureStart: seq<real>,
                    at: real,
                    deviceTimeout: real)
    returns (late: set<nat>)
    requires |futureStart| == |due| && forall i :: i in pending ==> i < |due|
    modifies state`lastReadAt
    ensures late == Late(pending, futureStart, at, deviceTimeout)
    ensures state.lastReadAt == Marked(old(state.lastReadAt), CodesOf(due, late), now)
  {
    hide Marked, CodesOf;
    late := {};
    var left, seen := pending, {};
    NoCodes(due, state.lastReadAt, now);
    while left != {}
      invariant left + seen == pending
      invariant late == Late(seen, futureStart, at, deviceTimeout)
      invariant state.lastReadAt == Marked(old(state.lastReadAt), CodesOf(due, late), now)
      decreases |left|
    {
      var i: nat :| i in left;
      var elapsed := at - futureStart[i];
      if elapsed >= deviceTimeout {
        CodesOfOne(due, i);
        CodesJoin(due, late, {i});
        MarkedAgain(old(state.lastReadAt), CodesOf(due, late), {due[i].code}, now);
        state.MarkRead(due[i].code, now);
        late := late + {i};
      }
      left, seen := left - {i}, seen + {i};
    }
    assert seen == pending;
  }

  /** Waits for the futures in slices.  No pending future had finished unnoticed; a future is given up only after the
      device timeout; futures are left over only after a stop or past the deadline.  Futures submitted together are
      given up together, so then none is left over. */
  method AwaitFutures(state: GatewayState, due: seq<Device>, now: real, futureStart: seq<real>, deviceTimeout: real,
                      cycleTimeout: real, pool: Pool)
    returns (done: set<nat>, timedOut: set<nat>, pending: set<nat>, rounds: nat, at: real)
    requires |futureStart| == |due|
    modifies state`lastReadAt
    ensures Awaited(pool, futureStart, deviceTimeout, done, timedOut, pending, rounds, at)
    ensures state.lastReadAt == Marked(old(state.lastReadAt), CodesOf(due, timedOut), now)
    ensures pending != {} ==> pool.stop(rounds) || at >= MaxReal(0.0, pool.started) + MaxReal(0.1, cycleTimeout)
    ensures Punctual(pool, rounds, MaxReal(0.0, pool.started) + MaxReal(0.1, cycleTimeout))
    ensures NoneOverdue(pool, futureStart, deviceTimeout, pending, rounds)
  {
    hide Awaited, CodesOf, Marked, Futures, Late, Quantum, Punctual;
    NoCodes(due, state.lastReadAt, now);
    done, timedOut, pending, rounds, at := {}, {}, Futures(|due|), 0, MaxReal(0.0, pool.started);
    AllPending(pool, futureStart, deviceTimeout, at);
    var deadline := at + MaxReal(SHORTEST, cycleTimeout);
    NoneYet(pool, deadline);
    while pending != {}
      invariant Awaited(pool, futureStart, deviceTimeout, done, timedOut, pending, rounds, at)
      invariant state.lastReadAt == Marked(old(state.lastReadAt), CodesOf(due, timedOut), now)
      invariant Punctual(pool, rounds, deadline) && NoneOverdue(pool, futureStart, deviceTimeout, pending, rounds)
      decreases |pending|, 10.0 * (deadline - at)
    {
      ghost var before := at;
      at := MaxReal(at, pool.before(rounds));
      var remaining := deadline - at;
      if remaining <= 0.0 || pool.stop(rounds) {
        Passed(pool, futureStart, deviceTimeout, done, timedOut, pending, rounds, before, at);
        break;
      }
      var quantum := Quantum(remaining);
      var newDone := pool.finished(rounds) * pending;
      OneWait(pool, futureStart, deviceTimeout, done, timedOut, pending, rounds, before);
      at := AfterWait(pool, rounds, at, quantum, newDone);
      pending := pending - newDone;
      done := done + newDone;
      rounds := rounds + 1;
      Passed(pool, futureStart, deviceTimeout, done, timedOut, pending, rounds, before, at);
      var late: set<nat> := {};
      if deviceTimeout > 0.0 {
        late := GiveUpLate(state, due, now, pending, futureStart, at, deviceTimeout);
      }
      StillPunctual(pool, rounds - 1, deadline);
      NotLate(pool, futureStart, deviceTimeout, pending, late, rounds, at);
      CodesJoin(due, timedOut, late);
      NoCodes(due, state.lastReadAt, now);
      MarkedAgain(old(state.lastReadAt), CodesOf(due, timedOut), CodesOf(due, late), now);
      GivenUp(pool, futureStart, deviceTimeout, done, timedOut, pending, late, rounds, at);
      timedOut, pending := timedOut + late, pending - late;
    }
  }

  /** Sums the counts of the completed futures and marks their devices. */
  method CollectDone(state: GatewayState, due: seq<Device>, now: real, done: set<nat>, outcome: nat -> PollResult)
    returns (total: nat, tripped: bool)
    requires forall i :: i in done ==> i < |due|
    modifies state`lastReadAt
    ensures total == TotalOver(outcome, done, |due|)
    ensures tripped <==> exists i :: i in done && outcome(i).OutboxFull?
    ensures state.lastReadAt == Marked(old(state.lastReadAt), CodesOf(due, done), now)
  {
    hide Marked, CodesOf, TotalOver;
    total, tripped := 0, false;
    var left, gone := done, {};
    NoCodes(due, state.lastReadAt, now);
    TotalOverNone(outcome, |due|);
    while left != {}
      invariant left + gone == done && left !! gone
      invariant total == TotalOver(outcome, gone, |due|)
      invariant tripped <==> exists i :: i in gone && outcome(i).OutboxFull?
      invariant state.lastReadAt == Marked(old(state.lastReadAt), CodesOf(due, gone), now)
      decreases |left|
    {
      var i: nat :| i in left;
      var result := outcome(i);
      if result.OutboxFull? {
        tripped := true;
      }
      CodesOfOne(due, i);
      CodesJoin(due, gone, {i});
      MarkedAgain(old(state.lastReadAt), CodesOf(due, gone), {due[i].code}, now);
      TotalOverAdd(outcome, gone, i, |due|);
      state.MarkRead(due[i].code, now);
      total := total + CountOf(result);
      left, gone := left - {i}, gone + {i};
    }
    assert gone == done;
  }

  /** All due devices at once.  Completed, timed-out and abandoned futures are all of them, each exactly once; every due
      device ends marked and only completed futures count. */
  method RunParallel(state: GatewayState, due: seq<Device>, now: real, deviceTimeout: real, cycleTimeout: real,
                     pool: Pool)
    returns (total: nat, tripped: bool, ghost done: set<nat>, ghost timedOut: set<nat>, ghost abandoned: set<nat>)
    modifies state`lastReadAt
    ensures Partition(done, timedOut, abandoned, |due|)
    ensures state.lastReadAt == Marked(old(state.lastReadAt), Codes(due), now)
    ensures total == TotalOver(pool.outcome, done, |due|)
    ensures timedOut == {} && abandoned == {} ==> total == Total(pool.outcome, |due|)
    ensures tripped <==> exists i :: i in done && pool.outcome(i).OutboxFull?
    ensures abandoned != {} ==> timedOut == {}
  {
    var futureStart := seq(|due|, _ => 0.0);
    var finished, late, left, rounds, at :=
      AwaitFutures(state, due, now, futureStart, deviceTimeout, cycleTimeout, pool);
    total, tripped := CollectDone(state, due, now, finished, pool.outcome);
    MarkedAgain(old(state.lastReadAt), CodesOf(due, late), CodesOf(due, finished), now);
    MarkFutures(state, due, now, left);
    MarkedAgain(old(state.lastReadAt), CodesOf(due, late) + CodesOf(due, finished), CodesOf(due, left), now);
    AllCodes(due, finished, late, left);
    done, timedOut, abandoned := finished, late, left;
    if late == {} && left == {} { TotalOverAll(pool.outcome, finished, |due|); }
  }

  lemma AllCodes(due: seq<Device>, done: set<nat>, timedOut: set<nat>, pending: set<nat>)
    requires Partition(done, timedOut, pending, |due|)
    ensures CodesOf(due, timedOut) + CodesOf(due, done) + CodesOf(due, pending) == Codes(due)
  {
    forall c ensures c in CodesOf(due, timedOut) + CodesOf(due, done) + CodesOf(due, pending) <==> c in Codes(due) {
      if i: nat :| i < |due| && due[i].code == c { assert i in done || i in timedOut || i in pending; }
    }
  }

  // ----- the cycle -----

  /** The environment of a cycle: the breaker flag, and the stop signal and polls of whichever path is taken. */
  datatype Surroundings = Surroundings(outboxFull: bool, stop: nat -> bool, outcome: nat -> PollResult, pool: Pool)

  lemma NoneReadable(signals: seq<Signal>)
    ensures ReadableOnly(signals) == []
      <==> forall s :: s in signals ==> s.dataType == BinaryOutput || s.dataType.OtherType?
  {
    forall s
      ensures s in ReadableOnly(signals) <==> s in signals && s.dataType != BinaryOutput && !s.dataType.OtherType?
    {
      ReadableExactly(signals, [], s);
    }
    if ReadableOnly(signals) != [] { assert ReadableOnly(signals)[0] in ReadableOnly(signals); }
  }

  /** One cycle reads a prefix of the due devices and marks exactly those; it reads none while the breaker is open.  It
      returns the messages published by the polls that ended, and whether one of them met a full outbox. */
  method RunPollCycle(state: GatewayState, now: real, maxParallel: int, deviceTimeout: real, cycleTimeout: real,
                      env: Surroundings)
    returns (total: nat, tripped: bool, ghost n: nat, ghost done: set<nat>)
    modifies state`lastReadAt
    ensures var due := Due(state.devices, old(state.lastReadAt), now);
      && n <= |due|
      && state.lastReadAt == Marked(old(state.lastReadAt), Codes(due[..n]), now)
      && if !state.active || env.outboxFull
              || (forall s :: s in state.signals ==> s.dataType == BinaryOutput || s.dataType.OtherType?)
         then n == 0 && total == 0 && !tripped
         else if maxParallel <= 1 || |due| <= 1 then
           Prefix(|due|, env.stop, env.outcome, n) && total == Total(env.outcome, n)
           && (tripped <==> n > 0 && env.outcome(n - 1).OutboxFull?)
         else
           n == |due| && (forall i :: i in done ==> i < |due|) && total == TotalOver(env.pool.outcome, done, |due|)
           && (tripped <==> exists i :: i in done && env.pool.outcome(i).OutboxFull?)
  {
    var due := state.DueDevices(now);
    assert Codes(due[..0]) == {} && due[..|due|] == due;
    NoneReadable(state.signals);
    total, tripped, n, done := 0, false, 0, {};
    if !state.active || ReadableOnly(state.signals) == [] {
      return;
    }
    if due == [] || env.outboxFull {
      return;
    }
    if maxParallel <= 1 || |due| == 1 {
      total, tripped, n := RunSerial(state, due, now, env.stop, env.outcome);
      return;
    }
    ghost var timedOut, abandoned;
    total, tripped, done, timedOut, abandoned := RunParallel(state, due, now, deviceTimeout, cycleTimeout, env.pool);
    n := |due|;
  }

  // ----- runs of cycles and configurations -----

  /** A turn reads the first n due devices, or replaces the configured devices. */
  datatype Turn = Cycle(at: real, n: nat) | Configure(devices: seq<Device>)

  datatype World = World(devices: seq<Device>, lastReadAt: map<string, real>, clock: real)

  function Reads(w: World, t: Turn): seq<Device>
    requires t.Cycle?
  {
    var due := Due(w.devices, w.lastReadAt, MaxReal(w.clock, t.at));
    due[..Min(t.n, |due|)]
  }

  function Next(w: World, t: Turn): World {
    match t
    case Cycle(at, n) =>
      var now := MaxReal(w.clock, at);
      w.(clock := now, lastReadAt := Marked(w.lastReadAt, Codes(Reads(w, t)), now))
    case Configure(devices) => w.(devices := devices, lastReadAt := Forgotten(w.lastReadAt, Codes(devices)))
  }

  function Exec(w: World, ts: seq<Turn>): World
    decreases |ts|
  {
    if ts == [] then w else Exec(Next(w, ts[0]), ts[1..])
  }

  lemma {:induction false} ExecConcat(w: World, a: seq<Turn>, b: seq<Turn>)
    ensures Exec(w, a + b) == Exec(Exec(w, a), b)
    decreases |a|
  {
    if a == [] {
      assert a + b == b;
    } else {
      assert (a + b)[1..] == a[1..] + b;
      ExecConcat(Next(w, a[0]), a[1..], b);
    }
  }

  /** Every configuration of the run names the device. */
  predicate Stays(ts: seq<Turn>, code: string) {
    forall k :: 0 <= k < |ts| && ts[k].Configure? ==> code in Codes(ts[k].devices)
  }

  lemma {:induction false} MarkStays(w: World, ts: seq<Turn>, code: string, since: real)
    requires Stays(ts, code) && code in w.lastReadAt && since <= w.lastReadAt[code] <= w.clock
    ensures var n := Exec(w, ts); code in n.lastReadAt && since <= n.lastReadAt[code] <= n.clock
    decreases |ts|
  {
    if ts != [] { MarkStays(Next(w, ts[0]), ts[1..], code, since); }
  }

  /** Two cycles that read the same device, configured all along, start at least a second and at least its interval
      apart. */
  lemma ReadsAreSpaced(w: World, ts: seq<Turn>, i: nat, j: nat, code: string, d: Device)
    requires i < j < |ts| && ts[i].Cycle? && ts[j].Cycle? && Stays(ts[i + 1..j], code)
    requires code in Codes(Reads(Exec(w, ts[..i]), ts[i]))
    requires d in Reads(Exec(w, ts[..j]), ts[j]) && d.code == code
    ensures Exec(w, ts[..j + 1]).clock - Exec(w, ts[..i + 1]).clock >= 1.0
    ensures Exec(w, ts[..j + 1]).clock - Exec(w, ts[..i + 1]).clock >= d.pollInterval as real
  {
    OneMore(w, ts, i);
    OneMore(w, ts, j);
    var first := Exec(w, ts[..i + 1]);
    assert ts[..j] == ts[..i + 1] + ts[i + 1..j];
    ExecConcat(w, ts[..i + 1], ts[i + 1..j]);
    MarkStays(first, ts[i + 1..j], code, first.clock);
    var second := Exec(w, ts[..j]);
    DueExactly(second.devices, second.lastReadAt, MaxReal(second.clock, ts[j].at), d);
  }

  lemma OneMore(w: World, ts: seq<Turn>, i: nat)
    requires i < |ts|
    ensures Exec(w, ts[..i + 1]) == Next(Exec(w, ts[..i]), ts[i])
  {
    assert ts[..i + 1] == ts[..i] + [ts[i]];
    ExecConcat(w, ts[..i], [ts[i]]);
    assert Exec(Exec(w, ts[..i]), [ts[i]]) == Exec(Next(Exec(w, ts[..i]), ts[i]), []);
  }

  /** No cycle of the run reads the device. */
  predicate Unread(w: World, ts: seq<Turn>, code: string)
    decreases |ts|
  {
    ts == [] || (!(ts[0].Cycle? && code in Codes(Reads(w, ts[0]))) && Unread(Next(w, ts[0]), ts[1..], code))
  }

  /** The mark of a device that is not read lasts exactly as long as every configuration names it. */
  lemma {:induction false} MarkLastsIffStays(w: World, ts: seq<Turn>, code: string)
    requires Unread(w, ts, code)
    ensures var n := Exec(w, ts);
      && (code in n.lastReadAt <==> code in w.lastReadAt && Stays(ts, code))
      && (code in n.lastReadAt ==> n.lastReadAt[code] == w.lastReadAt[code])
    decreases |ts|
  {
    if ts != [] {
      MarkLastsIffStays(Next(w, ts[0]), ts[1..], code);
      StaysSplit(ts, code);
    }
  }

  lemma StaysSplit(ts: seq<Turn>, code: string)
    requires ts != []
    ensures Stays(ts, code) <==> (ts[0].Configure? ==> code in Codes(ts[0].devices)) && Stays(ts[1..], code)
  {
    if Stays(ts[1..], code) && (ts[0].Configure? ==> code in Codes(ts[0].devices)) {
      forall k | 0 <= k < |ts| && ts[k].Configure? ensures code in Codes(ts[k].devices) {
        if k > 0 { assert ts[1..][k - 1] == ts[k]; }
      }
    }
  }

  /** Being configured all along is exactly what keeps reads apart: sooner than its interval after a read, a configured
      device is due again if and only if some configuration in between did not name it. */
  lemma DueEarlyIffDropped(w: World, ts: seq<Turn>, i: nat, d: Device, at: real)
    requires i < |ts| && ts[i].Cycle? && d.code in Codes(Reads(Exec(w, ts[..i]), ts[i]))
    requires Unread(Exec(w, ts[..i + 1]), ts[i + 1..], d.code) && d in Exec(w, ts).devices
    requires var now := MaxReal(Exec(w, ts).clock, at);
      var since := now - Exec(w, ts[..i + 1]).clock;
      (since < 1.0 || since < d.pollInterval as real) && now >= 1.0 && now >= d.pollInterval as real
    ensures d in Due(Exec(w, ts).devices, Exec(w, ts).lastReadAt, MaxReal(Exec(w, ts).clock, at))
      <==> !Stays(ts[i + 1..], d.code)
  {
    OneMore(w, ts, i);
    assert ts == ts[..i + 1] + ts[i + 1..];
    ExecConcat(w, ts[..i + 1], ts[i + 1..]);
    MarkLastsIffStays(Exec(w, ts[..i + 1]), ts[i + 1..], d.code);
    var n := Exec(w, ts);
    DueExactly(n.devices, n.lastReadAt, MaxReal(n.clock, at), d);
  }

  function Configures(cs: seq<seq<Device>>): (ts: seq<Turn>)
    ensures |ts| == |cs| && forall k :: 0 <= k < |cs| ==> ts[k] == Configure(cs[k])
  {
    seq(|cs|, k requires 0 <= k < |cs| => Configure(cs[k]))
  }

  lemma {:induction false} AfterConfigures(w: World, cs: seq<seq<Device>>, code: string)
    ensures var n := Exec(w, Configures(cs));
      && n.clock == w.clock && (cs != [] ==> n.devices == cs[|cs| - 1]) && Unread(w, Configures(cs), code)
    decreases |cs|
  {
    if cs != [] {
      assert Configures(cs)[1..] == Configures(cs[1..]);
      AfterConfigures(Next(w, Configure(cs[0])), cs[1..], code);
    }
  }

  /** Any device dropped from the configuration and named again is read at once, whenever it was read last. */
  lemma ReaddedIsReadAtOnce(w: World, cs: seq<seq<Device>>, d: Device, k: nat)
    requires k < |cs| && d.code !in Codes(cs[k]) && d in cs[|cs| - 1]
    requires w.clock >= 1.0 && w.clock >= d.pollInterval as real
    ensures var n := Exec(w, Configures(cs));
      && n.clock == w.clock
      && forall all: nat :: all >= |n.devices| ==> d in Reads(n, Cycle(w.clock, all))
  {
    AfterConfigures(w, cs, d.code);
    MarkLastsIffStays(w, Configures(cs), d.code);
    var n := Exec(w, Configures(cs));
    assert Configures(cs)[k] == Configure(cs[k]);
    DueExactly(n.devices, n.lastReadAt, n.clock, d);
    DueAtMost(n.devices, n.lastReadAt, n.clock);
    assert forall all: nat :: all >= |n.devices| ==>
      Reads(n, Cycle(w.clock, all)) == Due(n.devices, n.lastReadAt, n.clock);
  }

  lemma {:induction false} DueAtMost(devices: seq<Device>, last: map<string, real>, now: real)
    ensures |Due(devices, last, now)| <= |devices|
    decreases |devices|
  {
    if devices != [] { DueAtMost(devices[..|devices| - 1], last, now); }
  }
}
