/** How the outbox drains, when the circuit breaker opens and closes, and how the retrier backs off. */
module DeliveryProgress {
  import opened Prelude
  import opened Telemetry
  import opened OutboxTable
  import opened Delivery
  import opened DeliveryInvariant

  // ----- draining against a healthy broker -----

  function Mails(rows: seq<Row>): seq<Message> {
    if rows == [] then [] else [rows[0].mail] + Mails(rows[1..])
  }

  lemma {:induction false} MailsConcat(a: seq<Row>, b: seq<Row>)
    ensures Mails(a + b) == Mails(a) + Mails(b)
  {
    if a == [] {
      assert a + b == b;
    } else {
      assert (a + b)[1..] == a[1..] + b;
      MailsConcat(a[1..], b);
    }
  }

  /** `k` rows, each published with success and settled. */
  function AckRows(k: nat, now: real): seq<Event> {
    if k == 0 then [] else [PublishRow(Acked), CommitRow(now)] + AckRows(k - 1, now)
  }

  function AckPass(k: nat, now: real): seq<Event> {
    [Fetch] + AckRows(k, now) + [Finish(0.0)]
  }

  /** The core after the first `k` pending rows have been acknowledged in order. */
  function AfterAcks(c: Core, k: nat): Core
    requires k <= |c.queue.tables.rows|
  {
    c.(queue := c.queue.(tables := c.queue.tables.(rows := c.queue.tables.rows[k..]),
                         estimate := Max(0, c.queue.estimate - k)),
       log := c.log + Mails(c.queue.tables.rows[..k]), outboxFull := c.outboxFull && k == 0)
  }

  lemma AcksAdd(c: Core, j: nat, k: nat)
    requires j + k <= |c.queue.tables.rows|
    ensures AfterAcks(AfterAcks(c, j), k) == AfterAcks(c, j + k)
  {
    hide Mails;
    var rows := c.queue.tables.rows;
    assert rows[j..][k..] == rows[j + k..];
    assert rows[..j + k] == rows[..j] + rows[j..][..k];
    MailsConcat(rows[..j], rows[j..][..k]);
    assert (c.log + Mails(rows[..j])) + Mails(rows[j..][..k]) == c.log + Mails(rows[..j + k]);
  }

  lemma NoAcks(c: Core)
    ensures AfterAcks(c, 0) == c
  {
    assert c.queue.tables.rows[0..] == c.queue.tables.rows;
    assert c.log + Mails([]) == c.log;
  }

  /** The retrier is inside a batch that matches the front of the table. */
  ghost predicate Lined(c: Core) {
    c.retrier.InBatch? && SnapInv(c.retrier, c.queue.tables.rows) && Ascending(c.queue.tables.rows) && !c.stopping
  }

  lemma AckOne(cfg: Config, s: Sys, now: real)
    requires Lined(s.core) && s.core.retrier.pos < |s.core.retrier.snap|
    ensures s.core.queue.tables.rows != []
    ensures var n := Next(cfg, Next(cfg, s, PublishRow(Acked)), CommitRow(now)).core;
      Lined(n) && n == AfterAcks(s.core, 1).(retrier := InBatch(s.core.retrier.snap, s.core.retrier.pos + 1))
  {
    var r, rows := s.core.retrier, s.core.queue.tables.rows;
    assert r.snap[r.pos..][0] == rows[0];
    assert r.snap[r.pos + 1..] == r.snap[r.pos..][1..];
    CommitEffect(cfg, Next(cfg, s, PublishRow(Acked)).core, now);
    assert rows[..1] == [rows[0]] && Mails(rows[..1]) == [rows[0].mail] + Mails([]);
  }

  lemma TwoSteps(cfg: Config, s: Sys, a: Event, b: Event, es: seq<Event>)
    ensures Exec(cfg, s, [a, b] + es) == Exec(cfg, Next(cfg, Next(cfg, s, a), b), es)
  {
    assert ([a, b] + es)[1..] == [b] + es && ([b] + es)[1..] == es;
  }

  lemma {:induction false} AckBatch(cfg: Config, s: Sys, k: nat, now: real)
    requires Lined(s.core) && s.core.retrier.pos + k == |s.core.retrier.snap|
    ensures k <= |s.core.queue.tables.rows|
    ensures Exec(cfg, s, AckRows(k, now)).core
              == AfterAcks(s.core, k).(retrier := InBatch(s.core.retrier.snap, |s.core.retrier.snap|))
    decreases k
  {
    hide Step, Note, Mails, Ascending;
    if k == 0 {
      NoAcks(s.core);
    } else {
      AckOne(cfg, s, now);
      var n := Next(cfg, Next(cfg, s, PublishRow(Acked)), CommitRow(now));
      AckBatch(cfg, n, k - 1, now);
      TwoSteps(cfg, s, PublishRow(Acked), CommitRow(now), AckRows(k - 1, now));
      AcksAdd(s.core, 1, k - 1);
    }
  }

  /** A pass over a healthy broker delivers the oldest batch in id order and resets breaker and backoff. */
  lemma PassDrains(cfg: Config, s: Sys, now: real)
    requires s.core.retrier.Idle? && !s.core.stopping && s.core.queue.tables.rows != []
    requires Ascending(s.core.queue.tables.rows)
    ensures var k := Min(cfg.batchSize, |s.core.queue.tables.rows|);
      Exec(cfg, s, AckPass(k, now)).core == AfterAcks(s.core, k).(backoff := cfg.minBackoff)
  {
    var k := Min(cfg.batchSize, |s.core.queue.tables.rows|);
    var f := Next(cfg, s, Fetch);
    AckBatch(cfg, f, k, now);
    var b := Exec(cfg, f, AckRows(k, now));
    ExecConcat(cfg, s, [Fetch] + AckRows(k, now), [Finish(0.0)]);
    assert ([Fetch] + AckRows(k, now))[1..] == AckRows(k, now);
    assert Exec(cfg, s, [Fetch] + AckRows(k, now)) == b;
    assert Exec(cfg, b, [Finish(0.0)]) == Exec(cfg, Next(cfg, b, Finish(0.0)), []);
  }

  function Passes(n: nat, batch: nat): nat
    requires 0 < batch
  {
    if n == 0 then 0 else 1 + Passes(n - Min(batch, n), batch)
  }

  function AckPasses(n: nat, batch: nat, now: real): seq<Event>
    requires 0 < batch
  {
    if n == 0 then [] else AckPass(Min(batch, n), now) + AckPasses(n - Min(batch, n), batch, now)
  }

  /** The number of passes is n / batch rounded up: the only p with batch * (p - 1) < n <= batch * p. */
  lemma {:induction false} PassesRoundUp(n: nat, batch: nat)
    requires 0 < batch
    ensures batch * Passes(n, batch) - batch < n <= batch * Passes(n, batch) || n == Passes(n, batch) == 0
  {
    if n > batch { PassesRoundUp(n - batch, batch); }
  }

  /** With every attempt acknowledged, that many passes empty the outbox in id order, close the breaker
      and leave the backoff at its minimum. */
  lemma {:induction false} AllAcked(cfg: Config, s: Sys, now: real)
    requires s.core.retrier.Idle? && !s.core.stopping
    requires Ascending(s.core.queue.tables.rows)
    ensures var rows := s.core.queue.tables.rows;
      Exec(cfg, s, AckPasses(|rows|, cfg.batchSize, now)).core
        == AfterAcks(s.core, |rows|).(backoff := if rows == [] then s.core.backoff else cfg.minBackoff)
    decreases |s.core.queue.tables.rows|
  {
    hide Step, Note, Mails, AckPass;
    var rows := s.core.queue.tables.rows;
    if rows == [] {
      NoAcks(s.core);
    } else {
      var k := Min(cfg.batchSize, |rows|);
      PassDrains(cfg, s, now);
      AllAcked(cfg, Exec(cfg, s, AckPass(k, now)), now);
      ExecConcat(cfg, s, AckPass(k, now), AckPasses(|rows| - k, cfg.batchSize, now));
      AcksAdd(s.core, k, |rows| - k);
    }
  }

  /** From any reachable state with rows pending and the retrier waiting, a healthy broker drains the outbox, and the
      counter is exact again. */
  lemma HealthyBrokerDrains(cfg: Config, s: Sys, now: real)
    requires Inv(cfg, s) && s.core.retrier.Idle? && !s.core.stopping
    requires s.core.queue.tables.rows != []
    ensures var rows := s.core.queue.tables.rows;
      var n := Exec(cfg, s, AckPasses(|rows|, cfg.batchSize, now)).core;
      && n.queue.tables.rows == [] && n.queue.estimate == 0 && n.queue.tables.dead == s.core.queue.tables.dead
      && n.log == s.core.log + Mails(rows)
      && !n.outboxFull && n.backoff == cfg.minBackoff
  {
    var rows := s.core.queue.tables.rows;
    RowsAscend(cfg.maxRetries, rows, s.hist.ever, |s.hist.fate|, s.hist.fails);
    AllAcked(cfg, s, now);
    assert rows[..|rows|] == rows;
  }

  // ----- draining under any schedule -----

  /** The process goes on, nothing is inserted and the broker acknowledges what the retrier publishes; everything else
      may happen in any order. */
  predicate Fair(cfg: Config, s: Sys, es: seq<Event>)
    decreases |es|
  {
    es == [] ||
    (FairEvent(s.core, es[0]) && Fair(cfg, Next(cfg, s, es[0]), es[1..]))
  }

  predicate FairEvent(c: Core, e: Event) {
    !e.Restart? && !e.Stop? && !(e.Settle? && Stores(c, e)) && (e.PublishRow? ==> e.reply.Acked?)
  }

  /** The passes finished in a run. */
  function Finished(cfg: Config, s: Sys, es: seq<Event>): nat
    decreases |es|
  {
    if es == [] then 0
    else (if es[0].Finish? && CanFinish(s.core) then 1 else 0) + Finished(cfg, Next(cfg, s, es[0]), es[1..])
  }

  /** The rows left of `n` after `k` passes. */
  function LeftOf(n: nat, batch: nat, k: nat): nat
    requires 0 < batch
  {
    if k == 0 then n else LeftOf(n - Min(batch, n), batch, k - 1)
  }

  lemma {:induction false} NoneLeft(n: nat, batch: nat, k: nat)
    requires 0 < batch && Passes(n, batch) <= k
    ensures LeftOf(n, batch, k) == 0
  {
    if k > 0 { NoneLeft(n - Min(batch, n), batch, k - 1); }
  }

  /** At most `left` rows are pending, and the pass under way takes a full batch of them. */
  predicate Draining(cfg: Config, c: Core, left: nat) {
    && !c.stopping && |c.queue.tables.rows| <= left
    && match c.retrier
       case Idle => true
       case InBatch(snap, pos) => |c.queue.tables.rows| - (|snap| - pos) <= Max(0, left - cfg.batchSize)
       case Published(snap, pos, reply) => reply.Acked?
         && |c.queue.tables.rows| - (|snap| - pos) <= Max(0, left - cfg.batchSize)
       case Ended(failed) => !failed && c.queue.tables.rows == []
  }

  /** The rows that have left the front are in the broker's log. */
  ghost predicate FrontDelivered(all: seq<Row>, rows: seq<Row>, log: seq<Message>) {
    && |rows| <= |all| && rows == all[|all| - |rows|..]
    && forall i :: 0 <= i < |all| - |rows| ==> all[i].mail in log
  }

  lemma FairStep(cfg: Config, s: Sys, e: Event, left: nat)
    requires Inv(cfg, s) && Draining(cfg, s.core, left) && FairEvent(s.core, e)
    ensures Draining(cfg, Next(cfg, s, e).core,
                     if e.Finish? && CanFinish(s.core) then left - Min(cfg.batchSize, left) else left)
    ensures Next(cfg, s, e).core.backoff == if e.Finish? && CanFinish(s.core) then cfg.minBackoff else s.core.backoff
  {
    hide NotReady, TableInv, MailInv, WorkersInv, Ascending, Removed, RetrierInv;
    if s.core.retrier.InBatch? || s.core.retrier.Published? {
      if s.core.retrier.pos < |s.core.retrier.snap| { AtFront(cfg, s); }
    }
    if e.CommitRow? && Counted(s.core) { CommitEffect(cfg, s.core, e.now); }
  }

  lemma FairStepDelivers(cfg: Config, s: Sys, e: Event, left: nat, all: seq<Row>)
    requires Inv(cfg, s) && Draining(cfg, s.core, left) && FairEvent(s.core, e)
    requires FrontDelivered(all, s.core.queue.tables.rows, s.core.log)
    ensures var n := Next(cfg, s, e).core;
      FrontDelivered(all, n.queue.tables.rows, n.log) && n.queue.tables.dead == s.core.queue.tables.dead
  {
    hide NotReady, TableInv, WorkersInv, Ascending, Removed, AcceptedInv, OriginInv, DeletedInv, SnapInv;
    var rows, n := s.core.queue.tables.rows, Next(cfg, s, e).core;
    if e.CommitRow? && Counted(s.core) {
      AtFront(cfg, s);
      CommitEffect(cfg, s.core, e.now);
      assert rows[0].mail in s.core.log;
      assert all[|all| - |rows|] == rows[0] && n.queue.tables.rows == rows[1..] == all[|all| - |rows| + 1..];
    } else {
      assert n.queue.tables.rows == rows && s.core.log <= n.log;
    }
  }

  lemma {:induction false} FairRun(cfg: Config, s: Sys, es: seq<Event>, left: nat, all: seq<Row>)
    requires Inv(cfg, s) && Draining(cfg, s.core, left) && Fair(cfg, s, es)
    requires FrontDelivered(all, s.core.queue.tables.rows, s.core.log)
    ensures var n := Exec(cfg, s, es).core;
      && Draining(cfg, n, LeftOf(left, cfg.batchSize, Finished(cfg, s, es)))
      && FrontDelivered(all, n.queue.tables.rows, n.log) && n.queue.tables.dead == s.core.queue.tables.dead
      && n.backoff == (if Finished(cfg, s, es) > 0 then cfg.minBackoff else s.core.backoff)
    decreases |es|
  {
    hide Next, Draining, FrontDelivered, FairEvent, Inv;
    if es != [] {
      Kept(cfg, s, es[0]);
      FairStep(cfg, s, es[0], left);
      FairStepDelivers(cfg, s, es[0], left, all);
      var done := es[0].Finish? && CanFinish(s.core);
      FairRun(cfg, Next(cfg, s, es[0]), es[1..], if done then left - Min(cfg.batchSize, left) else left, all);
    }
  }

  /** From any reachable state with the retrier waiting, and under any interleaving with workers and cycles: when
      nothing is inserted and every row published is acknowledged, as many finished passes as batches fit deliver
      every pending row, and one is enough to leave the backoff at its minimum. */
  lemma AnyFairScheduleDrains(cfg: Config, s: Sys, es: seq<Event>)
    requires Inv(cfg, s) && s.core.retrier.Idle? && !s.core.stopping && Fair(cfg, s, es)
    requires Finished(cfg, s, es) >= Passes(|s.core.queue.tables.rows|, cfg.batchSize)
    ensures var n := Exec(cfg, s, es).core;
      && n.queue.tables.rows == [] && n.queue.estimate == 0 && n.queue.tables.dead == s.core.queue.tables.dead
      && (forall r :: r in s.core.queue.tables.rows ==> r.mail in n.log)
      && (Finished(cfg, s, es) > 0 ==> n.backoff == cfg.minBackoff)
  {
    var rows := s.core.queue.tables.rows;
    FairRun(cfg, s, es, |rows|, rows);
    NoneLeft(|rows|, cfg.batchSize, Finished(cfg, s, es));
    RunKeeps(cfg, s, es);
    forall r | r in rows ensures r.mail in Exec(cfg, s, es).core.log {
      var i :| 0 <= i < |rows| && rows[i] == r;
    }
  }

  // ----- the circuit breaker -----

  predicate SameProcess(es: seq<Event>) { forall i :: 0 <= i < |es| ==> !es[i].Restart? }

  predicate NoRowAcked(es: seq<Event>) {
    forall i :: 0 <= i < |es| && es[i].PublishRow? ==> es[i].reply.Raised?
  }

  /** No cycle and no publish is under way, on either side. */
  predicate Quiet(c: Core) {
    !c.cycleOpen && c.workers == map[] && !c.retrier.Published?
  }

  /** While the breaker is open no cycle starts and nothing is handed to publish, until a retrier row is
      acknowledged. */
  lemma {:induction false} BreakerHolds(cfg: Config, s: Sys, es: seq<Event>)
    requires s.core.outboxFull && !s.core.cycleOpen && s.core.workers == map[]
    requires !(s.core.retrier.Published? && s.core.retrier.reply.Acked?)
    requires SameProcess(es) && NoRowAcked(es)
    ensures var n := Exec(cfg, s, es);
      && n.core.outboxFull && !n.core.cycleOpen && n.core.workers == map[]
      && n.hist.submitted == s.hist.submitted && n.hist.accepted == s.hist.accepted
    decreases |es|
  {
    if es != [] { BreakerHolds(cfg, Next(cfg, s, es[0]), es[1..]); }
  }

  /** The event settles a publish the broker acknowledged, direct or from the outbox. */
  predicate SettlesAck(c: Core, e: Event) {
    || (e.Settle? && e.w in c.workers && c.workers[e.w].Sent? && c.workers[e.w].reply.Acked?)
    || (e.CommitRow? && Counted(c) && c.retrier.reply.Acked?)
  }

  /** Every publish that raises opens the breaker, and only an acknowledged publish closes it in the same process. */
  lemma {:induction false} OnlyAcksReopen(cfg: Config, s: Sys, w: Worker, es: seq<Event>)
    requires w in s.core.workers && s.core.workers[w].Refused? && SameProcess(es)
    ensures s.core.workers[w].mail in Next(cfg, s, Raise(w)).hist.refused
    ensures var n := Next(cfg, s, Raise(w));
      Exec(cfg, n, es).core.outboxFull || exists i :: 0 <= i < |es| && SettlesAck(Exec(cfg, n, es[..i]).core, es[i])
  {
    StaysOpen(cfg, Next(cfg, s, Raise(w)), es);
  }

  lemma {:induction false} StaysOpen(cfg: Config, s: Sys, es: seq<Event>)
    requires s.core.outboxFull && SameProcess(es)
    ensures Exec(cfg, s, es).core.outboxFull
      || exists i :: 0 <= i < |es| && SettlesAck(Exec(cfg, s, es[..i]).core, es[i])
    decreases |es|
  {
    if es != [] {
      var n := Next(cfg, s, es[0]);
      assert Exec(cfg, s, es[..0]) == s;
      if n.core.outboxFull {
        StaysOpen(cfg, n, es[1..]);
        if i :| 0 <= i < |es[1..]| && SettlesAck(Exec(cfg, n, es[1..][..i]).core, es[1..][i]) {
          assert es[..i + 1][0] == es[0] && es[..i + 1][1..] == es[1..][..i];
          assert SettlesAck(Exec(cfg, s, es[..i + 1]).core, es[i + 1]);
        }
      } else {
        assert SettlesAck(Exec(cfg, s, es[..0]).core, es[0]);
      }
    }
  }

  ghost predicate Latched(c: Core) {
    && c.outboxFull && c.queue.tables.rows == [] && Quiet(c)
    && (c.retrier.InBatch? ==> c.retrier.pos >= |c.retrier.snap|)
  }

  lemma {:induction false} LatchHolds(cfg: Config, s: Sys, es: seq<Event>)
    requires Latched(s.core) && SameProcess(es)
    ensures Latched(Exec(cfg, s, es).core)
    decreases |es|
  {
    if es != [] { LatchHolds(cfg, Next(cfg, s, es[0]), es[1..]); }
  }

  ghost predicate CanReopen(cfg: Config, s: Sys) {
    exists es :: SameProcess(es) && !Exec(cfg, s, es).core.outboxFull
  }

  lemma OneAckReopens(cfg: Config, s: Sys)
    requires Inv(cfg, s) && s.core.retrier.InBatch? && s.core.retrier.pos < |s.core.retrier.snap| && !s.core.stopping
    ensures !Exec(cfg, s, [PublishRow(Acked), CommitRow(0.0)]).core.outboxFull
  {
    var p := Next(cfg, s, PublishRow(Acked));
    assert Exec(cfg, s, [PublishRow(Acked), CommitRow(0.0)]) == Exec(cfg, p, [CommitRow(0.0)]);
    assert Exec(cfg, p, [CommitRow(0.0)]) == Exec(cfg, Next(cfg, p, CommitRow(0.0)), []);
  }

  /** The events that bring the retrier to the front row of a non-empty outbox. */
  function ToFront(r: Retrier): seq<Event> {
    match r
    case Idle => [Fetch]
    case InBatch(snap, pos) => if pos < |snap| then [] else [Finish(0.0), Fetch]
    case _ => [Finish(0.0), Fetch]
  }

  lemma ReachesFront(cfg: Config, s: Sys)
    requires Inv(cfg, s) && !s.core.retrier.Published? && !s.core.stopping && s.core.queue.tables.rows != []
    ensures var n := Exec(cfg, s, ToFront(s.core.retrier));
      Inv(cfg, n) && n.core.retrier.InBatch? && n.core.retrier.pos < |n.core.retrier.snap| && !n.core.stopping
  {
    hide Inv, Note;
    RunKeeps(cfg, s, ToFront(s.core.retrier));
    if s.core.retrier.Idle? {
      assert Exec(cfg, s, [Fetch]) == Exec(cfg, Next(cfg, s, Fetch), []);
    } else if !(s.core.retrier.InBatch? && s.core.retrier.pos < |s.core.retrier.snap|) {
      var f := Next(cfg, s, Finish(0.0));
      assert Exec(cfg, s, [Finish(0.0), Fetch]) == Exec(cfg, f, [Fetch]);
      assert Exec(cfg, f, [Fetch]) == Exec(cfg, Next(cfg, f, Fetch), []);
    }
  }

  /** An open breaker, with nothing under way, can close again within the process exactly when rows are left. */
  lemma BreakerReopensIffRowsLeft(cfg: Config, s: Sys)
    requires Inv(cfg, s) && s.core.outboxFull && Quiet(s.core) && !s.core.stopping
    ensures CanReopen(cfg, s) <==> s.core.queue.tables.rows != []
  {
    if s.core.queue.tables.rows != [] {
      ReachesFront(cfg, s);
      var es := ToFront(s.core.retrier);
      OneAckReopens(cfg, Exec(cfg, s, es));
      ExecConcat(cfg, s, es, [PublishRow(Acked), CommitRow(0.0)]);
      assert SameProcess(es + [PublishRow(Acked), CommitRow(0.0)]);
    } else if CanReopen(cfg, s) {
      var es :| SameProcess(es) && !Exec(cfg, s, es).core.outboxFull;
      LatchHolds(cfg, s, es);
    }
  }

  /** One failed publish whose message the disk refuses too. */
  function DiskFailure(m: Message, error: BrokerError): seq<Event> {
    [CycleStart, PollBegin(0), Send(0, m, Raised(error, false)), Settle(0, false, 0.0), Raise(0), PollEnd(0), CycleEnd]
  }

  /** A single disk error on an empty outbox latches the breaker: no later event of that process clears it. */
  lemma DiskErrorLatches(cfg: Config, maxPending: int, m: Message, error: BrokerError, later: seq<Event>)
    requires SameProcess(later)
    ensures var s := Exec(cfg, First(cfg, maxPending), DiskFailure(m, error));
      && Latched(s.core) && m in s.hist.refused && s.core.log == [] && s.core.queue.tables.dead == []
      && Exec(cfg, s, later).core.outboxFull
  {
    var s0, es := First(cfg, maxPending), DiskFailure(m, error);
    var s1 := Next(cfg, s0, es[0]);
    var s2 := Next(cfg, s1, es[1]);
    var s3 := Next(cfg, s2, es[2]);
    var s4 := Next(cfg, s3, es[3]);
    assert s4.core.workers[0] == Refused(m, false);
    var s5 := Next(cfg, s4, es[4]);
    var s6 := Next(cfg, s5, es[5]);
    var s7 := Next(cfg, s6, es[6]);
    assert Exec(cfg, s0, es) == Exec(cfg, s1, es[1..]) == Exec(cfg, s2, es[2..]) == Exec(cfg, s3, es[3..])
        == Exec(cfg, s4, es[4..]) by {
      assert es[1..][1..] == es[2..] && es[2..][1..] == es[3..] && es[3..][1..] == es[4..];
    }
    assert Exec(cfg, s4, es[4..]) == Exec(cfg, s5, es[5..]) == Exec(cfg, s6, es[6..]) == s7 by {
      assert es[4..][1..] == es[5..] && es[5..][1..] == es[6..] && es[6..][1..] == [];
    }
    LatchHolds(cfg, s7, later);
  }

  // ----- backoff -----

  function Power(r: real, k: nat): real { if k == 0 then 1.0 else r * Power(r, k - 1) }

  function ClosedForm(cfg: Config, k: nat): real {
    MinReal(cfg.maxBackoff, cfg.minBackoff * Power(cfg.multiplier, k))
  }

  lemma ClosedFormStep(cfg: Config, k: nat)
    ensures NextBackoff(cfg, ClosedForm(cfg, k)) == ClosedForm(cfg, k + 1)
  {
    var raw, m := cfg.minBackoff * Power(cfg.multiplier, k), cfg.multiplier;
    assert cfg.minBackoff * Power(m, k + 1) == raw * m;
    if raw <= cfg.maxBackoff {
    } else {
      assert raw * m >= cfg.maxBackoff * m by { assert (raw - cfg.maxBackoff) * m >= 0.0; }
      assert cfg.maxBackoff * m >= cfg.maxBackoff by { assert cfg.maxBackoff * (m - 1.0) >= 0.0; }
    }
  }

  /** Consecutive failing passes up to now, starting from `k` of them. */
  function Streak(cfg: Config, s: Sys, es: seq<Event>, k: nat): nat
    decreases |es|
  {
    if es == [] then k
    else
      var c := s.core;
      Streak(cfg, Next(cfg, s, es[0]), es[1..],
             if es[0].Restart? then 0
             else if es[0].Finish? && CanFinish(c) then (if c.retrier == Ended(true) then k + 1 else 0)
             else k)
  }

  /** After k consecutive failing passes the backoff is min(max, min * multiplier^k), over any run. */
  lemma {:induction false} BackoffClosedForm(cfg: Config, s: Sys, es: seq<Event>, k: nat)
    requires s.core.backoff == ClosedForm(cfg, k)
    ensures Exec(cfg, s, es).core.backoff == ClosedForm(cfg, Streak(cfg, s, es, k))
    decreases |es|
  {
    if es != [] {
      ClosedFormStep(cfg, k);
      var k' := if es[0].Restart? then 0
                else if es[0].Finish? && CanFinish(s.core) then (if s.core.retrier == Ended(true) then k + 1 else 0)
                else k;
      assert ClosedForm(cfg, 0) == cfg.minBackoff;
      BackoffClosedForm(cfg, Next(cfg, s, es[0]), es[1..], k');
    }
  }

  /** Each wait is within 20% of the backoff before the step, so it passes the cap by at most 20%. */
  lemma WaitBounds(cfg: Config, s: Sys, jitter: real)
    requires Inv(cfg, s) && -0.2 <= jitter <= 0.2
    ensures MaxReal(0.1, 0.8 * s.core.backoff) <= Wait(s.core.backoff, jitter) <= MaxReal(0.1, 1.2 * s.core.backoff)
    ensures Wait(s.core.backoff, jitter) <= 1.2 * cfg.maxBackoff
  {
    var b := s.core.backoff;
    var up, down := 0.2 - jitter, jitter + 0.2;
    assert b * up >= 0.0 && b * down >= 0.0;
    assert b * (1.0 + jitter) == 0.8 * b + b * down == 1.2 * b - b * up;
  }
}
