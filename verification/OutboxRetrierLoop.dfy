/** The background retrier: its backoff and one pass of its loop. */
module OutboxRetrierLoop {
  import opened Prelude
  import opened OutboxTable
  import opened Delivery
  import opened Publisher

  /** The retrier's settings as its constructor normalises them. */
  function Normalised(batchSize: int, maxRetries: int, minBackoff: real, maxBackoff: real,
                      multiplier: real, pollInterval: real): (c: Config)
    ensures batchSize >= 1 ==> c.batchSize == batchSize
    ensures maxRetries >= 1 ==> c.maxRetries == maxRetries
    ensures minBackoff >= 0.1 ==> c.minBackoff == minBackoff
    ensures maxBackoff >= c.minBackoff ==> c.maxBackoff == maxBackoff
    ensures multiplier >= 1.05 ==> c.multiplier == multiplier
    ensures pollInterval >= 0.5 ==> c.pollInterval == pollInterval
    ensures c.batchSize > batchSize ==> c.batchSize == 1
    ensures c.maxRetries > maxRetries ==> c.maxRetries == 1
    ensures c.minBackoff > minBackoff ==> c.minBackoff == 0.1
    ensures c.maxBackoff > maxBackoff ==> c.maxBackoff == c.minBackoff
    ensures c.multiplier > multiplier ==> c.multiplier == 1.05
    ensures c.pollInterval > pollInterval ==> c.pollInterval == 0.5
  {
    var least := MaxReal(0.1, minBackoff);
    RawConfig(Max(1, batchSize), Max(1, maxRetries), least, MaxReal(least, maxBackoff),
              MaxReal(1.05, multiplier), MaxReal(0.5, pollInterval))
  }

  /** The replies the broker gave in a run, in order. */
  function RepliesIn(es: seq<Event>): seq<Reply> {
    if es == [] then []
    else if es[|es| - 1].PublishRow? then RepliesIn(es[..|es| - 1]) + [es[|es| - 1].reply]
    else RepliesIn(es[..|es| - 1])
  }

  lemma RepliesGrow(es: seq<Event>, e: Event)
    ensures RepliesIn(es + [e]) == if e.PublishRow? then RepliesIn(es) + [e.reply] else RepliesIn(es)
  {
    assert (es + [e])[..|es|] == es;
  }

  function AckedAmong(replies: nat -> Reply, n: nat): (count: nat)
    ensures count <= n && (count == n <==> forall k :: 0 <= k < n ==> replies(k).Acked?)
    ensures count == 0 <==> forall k :: 0 <= k < n ==> replies(k).Raised?
  {
    if n == 0 then 0 else AckedAmong(replies, n - 1) + (if replies(n - 1).Acked? then 1 else 0)
  }

  /** Events of the retrier's own thread, or a request to stop. */
  predicate Own(e: Event) { e.Fetch? || e.PublishRow? || e.CommitRow? || e.Finish? || e.Stop? }

  /** The trace is the retrier's own and its broker replies are the first `n` of `replies`. */
  ghost predicate Hears(trace: seq<Event>, replies: nat -> Reply, n: nat) {
    && trace != [] && trace[0] == Fetch && (forall e :: e in trace ==> Own(e))
    && |RepliesIn(trace)| == n && (forall k :: 0 <= k < n ==> RepliesIn(trace)[k] == replies(k))
  }

  lemma TraceBegins(cfg: Config, c: Core, replies: nat -> Reply)
    ensures Hears([Fetch], replies, 0) && Replay(cfg, c, [Fetch]) == Step(cfg, c, Fetch)
  {
    assert Replay(cfg, c, [Fetch]) == Replay(cfg, Step(cfg, c, Fetch), []);
    assert RepliesIn([Fetch]) == RepliesIn([Fetch][..0]);
  }

  /** The steps of a waiting retrier, and the one that ends a pass. */
  lemma IdleSteps(cfg: Config, c: Core, jitter: real)
    requires c.retrier.Idle? && !c.stopping
    ensures Replay(cfg, c, []) == c && Step(cfg, c, Finish(jitter)) == c
    ensures var rows := c.queue.tables.rows;
      Step(cfg, c, Fetch)
        == c.(retrier := if rows == [] then Ended(false) else InBatch(Oldest(rows, cfg.batchSize), 0))
  {}

  lemma FinishSteps(cfg: Config, c: Core, jitter: real)
    requires CanFinish(c)
    ensures Step(cfg, c, Finish(jitter))
         == c.(retrier := Idle,
               backoff := if c.retrier == Ended(true) then NextBackoff(cfg, c.backoff) else cfg.minBackoff)
  {}

  lemma TraceRow(cfg: Config, c: Core, trace: seq<Event>, replies: nat -> Reply, n: nat, now: real)
    requires Hears(trace, replies, n)
    ensures var more := trace + [PublishRow(replies(n)), CommitRow(now)];
      && Hears(more, replies, n + 1)
      && Replay(cfg, c, more) == Step(cfg, Step(cfg, Replay(cfg, c, trace), PublishRow(replies(n))), CommitRow(now))
  {
    var mid := trace + [PublishRow(replies(n))];
    assert trace + [PublishRow(replies(n)), CommitRow(now)] == mid + [CommitRow(now)];
    RepliesGrow(trace, PublishRow(replies(n)));
    RepliesGrow(mid, CommitRow(now));
    ReplayOneMore(cfg, c, trace, PublishRow(replies(n)));
    ReplayOneMore(cfg, c, mid, CommitRow(now));
  }

  lemma TraceEvent(cfg: Config, c: Core, trace: seq<Event>, replies: nat -> Reply, n: nat, e: Event)
    requires Hears(trace, replies, n) && Own(e) && !e.PublishRow?
    ensures Hears(trace + [e], replies, n) && Replay(cfg, c, trace + [e]) == Step(cfg, Replay(cfg, c, trace), e)
  {
    RepliesGrow(trace, e);
    ReplayOneMore(cfg, c, trace, e);
  }

  class OutboxRetrier {
    const cfg: Config
    const outbox: Outbox
    const publisher: ResilientPublisher
    var currentBackoff: real
    var stopping: bool

    constructor (outbox: Outbox, publisher: ResilientPublisher, cfg: Config)
      requires publisher.outbox == outbox
      ensures this.outbox == outbox && this.publisher == publisher && this.cfg == cfg
      ensures currentBackoff == cfg.minBackoff && !stopping
    {
      this.outbox, this.publisher, this.cfg := outbox, publisher, cfg;
      currentBackoff, stopping := cfg.minBackoff, false;
    }

    ghost function View(base: Core, phase: Retrier): Core
      reads this, publisher, publisher.broker, publisher.outbox
    {
      publisher.View(base).(retrier := phase, backoff := currentBackoff, stopping := stopping)
    }

    method TakeNextBackoff(jitter: real) returns (wait: real)
      modifies this`currentBackoff
      ensures wait == Wait(old(currentBackoff), jitter)
      ensures currentBackoff == NextBackoff(cfg, old(currentBackoff))
    {
      var b := currentBackoff;
      var grown := b * cfg.multiplier;
      currentBackoff := if cfg.maxBackoff < grown then cfg.maxBackoff else grown;
      wait := if b * (1.0 + jitter) < 0.1 then 0.1 else b * (1.0 + jitter);
    }

    method ResetBackoff()
      modifies this`currentBackoff
      ensures currentBackoff == cfg.minBackoff
    {
      currentBackoff := cfg.minBackoff;
    }

    /** One row of a batch: publish it, then delete it, bury it, charge it or leave it alone. */
    method SettleRow(snap: seq<Row>, i: nat, reply: Reply, now: real, ghost base: Core)
      returns (sent: bool, failed: bool)
      requires publisher.outbox == outbox && publisher.Valid()
      requires i < |snap| && !stopping
      modifies publisher, publisher.broker, outbox
      ensures publisher.Valid()
      ensures sent == reply.Acked?
      ensures reply.Acked? ==> !failed && outbox.Value() == Removed(old(outbox.Value()), snap[i].id)
      ensures reply.Raised? && Outage(reply.error) ==> failed && outbox.Value() == old(outbox.Value())
      ensures reply.Raised? && !Outage(reply.error) ==>
        var q, text := old(outbox.Value()), reply.error.text;
        if snap[i].retryCount + 1 >= cfg.maxRetries
        then !failed && outbox.Value() == OutboxTable.Buried(q, snap[i].id, text, now)
        else failed && outbox.Value() == Retried(q, snap[i].id, text)
      ensures Step(cfg, Step(cfg, old(View(base, InBatch(snap, i))), PublishRow(reply)), CommitRow(now))
           == View(base, if failed then Ended(true) else InBatch(snap, i + 1))
    {
      hide NotReady, Outage, Removed, Retried, OutboxTable.Buried;
      var row := snap[i];
      sent, failed := false, false;
      var error := publisher.PublishOutboxRow(row, reply);
      if error.Some? {
        NotReadyIffOutage(error.value);
        if NotReady(error.value) {
          return false, true;
        }
        var nextRetry := row.retryCount + 1;
        if nextRetry >= cfg.maxRetries {
          var moved := outbox.MoveToDeadLetter(row.id, error.value.text, now);
          return false, false;
        }
        outbox.MarkRetry(row.id, error.value.text);
        return false, true;
      }
      outbox.Delete(row.id);
      sent := true;
    }

    /** The loop over a fetched batch, up to its end, a failure or a stop request arriving before row `stopAt`. */
    method RunBatch(rows: seq<Row>, replies: nat -> Reply, stopAt: nat, now: real,
                    ghost base: Core, ghost c0: Core)
      returns (sent: nat, failed: bool, heard: nat, ghost trace: seq<Event>)
      requires publisher.outbox == outbox && publisher.Valid() && !stopping
      requires Step(cfg, c0, Fetch) == View(base, InBatch(rows, 0))
      modifies this`stopping, publisher, publisher.broker, outbox
      ensures publisher.Valid() && Hears(trace, replies, heard) && heard <= |rows|
      ensures sent == AckedAmong(replies, heard)
      ensures exists phase ::
        Replay(cfg, c0, trace) == View(base, phase) && (failed <==> phase == Ended(true))
          && CanFinish(View(base, phase))
      ensures heard <= stopAt && (stopping <==> !failed && heard == stopAt < |rows|)
      ensures !failed && !stopping ==> heard == |rows|
    {
      hide Hears, Replay, RepliesIn;
      sent, failed, heard, trace := 0, false, 0, [Fetch];
      TraceBegins(cfg, c0, replies);
      while heard < |rows|
        invariant heard <= |rows| && heard <= stopAt && publisher.Valid() && !failed && !stopping
        invariant Replay(cfg, c0, trace) == View(base, InBatch(rows, heard))
        invariant Hears(trace, replies, heard) && sent == AckedAmong(replies, heard)
      {
        if heard == stopAt {
          stopping := true;
          TraceEvent(cfg, c0, trace, replies, heard, Stop);
          trace := trace + [Stop];
          assert CanFinish(View(base, InBatch(rows, heard)));
          return;
        }
        TraceRow(cfg, c0, trace, replies, heard, now);
        trace := trace + [PublishRow(replies(heard)), CommitRow(now)];
        var ok;
        ok, failed := SettleRow(rows, heard, replies(heard), now, base);
        heard := heard + 1;
        if ok {
          sent := sent + 1;
        }
        if failed {
          assert CanFinish(View(base, Ended(true)));
          return;
        }
      }
      assert CanFinish(View(base, InBatch(rows, heard)));
    }

    /** One pass of the loop, with no other thread in between: exactly the run of the step system that gets
        the same replies, from waiting to waiting.  A failed fetch changes nothing, the backoff included. */
    method RunPass(fetchOk: bool, replies: nat -> Reply, stopAt: nat, jitter: real, now: real, ghost base: Core)
      returns (sent: nat, wait: real, heard: nat, ghost trace: seq<Event>)
      requires publisher.outbox == outbox && publisher.Valid() && !stopping
      modifies this, publisher, publisher.broker, outbox
      ensures publisher.Valid() && sent == AckedAmong(replies, heard)
      ensures if fetchOk then Hears(trace, replies, heard) else trace == [] && heard == 0
      ensures Replay(cfg, old(View(base, Idle)), trace + [Finish(jitter)]) == View(base, Idle)
      ensures wait == if Replay(cfg, old(View(base, Idle)), trace).retrier == Ended(true)
                      then Wait(old(currentBackoff), jitter) else cfg.pollInterval
      ensures heard <= stopAt && (stopping ==> heard == stopAt < cfg.batchSize)
      ensures fetchOk && !stopping ==>
        Replay(cfg, old(View(base, Idle)), trace).retrier == Ended(true)
        || heard == Min(cfg.batchSize, |old(outbox.rows)|)
    {
      hide Hears, RepliesIn, Step, Replay;
      ghost var c0 := View(base, Idle);
      if !fetchOk {
        ReplayOneMore(cfg, c0, [], Finish(jitter));
        IdleSteps(cfg, c0, jitter);
        return 0, cfg.pollInterval, 0, [];
      }
      var rows := outbox.FetchBatch(cfg.batchSize);
      sent, heard := 0, 0;
      trace := [Fetch];
      TraceBegins(cfg, c0, replies);
      IdleSteps(cfg, c0, jitter);
      if |rows| == 0 {
        ResetBackoff();
        wait := cfg.pollInterval;
        ReplayOneMore(cfg, c0, trace, Finish(jitter));
        FinishSteps(cfg, Replay(cfg, c0, trace), jitter);
        return;
      }
      var failedInBatch;
      sent, failedInBatch, heard, trace := RunBatch(rows, replies, stopAt, now, base, c0);
      ReplayOneMore(cfg, c0, trace, Finish(jitter));
      FinishSteps(cfg, Replay(cfg, c0, trace), jitter);
      if failedInBatch {
        wait := TakeNextBackoff(jitter);
      } else {
        ResetBackoff();
        wait := cfg.pollInterval;
      }
    }
  }
}
