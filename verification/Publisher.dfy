/** The broker behind its publish call, and the publisher that falls back to the outbox. */
module Publisher {
  import opened Prelude
  import opened Telemetry
  import opened OutboxTable
  import opened Delivery

  const BREAKER_ERROR_LIMIT := 500

  /** The broker's stream.  Its reply is chosen by the environment; duplicates are kept. */
  class Broker {
    var log: seq<Message>

    constructor ()
      ensures log == []
    {
      log := [];
    }

    method Publish(m: Message, reply: Reply) returns (error: Option<BrokerError>)
      modifies this
      ensures log == LogReply(old(log), m, reply)
      ensures log == if reply.Acked? || reply.stored then old(log) + [m] else old(log)
      ensures error == if reply.Acked? then None else Some(reply.error)
    {
      match reply
      case Acked => log := log + [m]; error := None;
      case Raised(e, stored) =>
        if stored { log := log + [m]; }
        error := Some(e);
    }
  }

  /** How a call of `publish` ends for its caller. */
  datatype Outcome = Returned | RaisedFull | RaisedDisk

  /** The events of one undisturbed call of `publish` by worker `w`. */
  function PublishEvents(w: Worker, m: Message, reply: Reply, diskOk: bool, now: real, o: Outcome): seq<Event> {
    if o.Returned? then [Send(w, m, reply), Settle(w, diskOk, now)]
    else [Send(w, m, reply), Settle(w, diskOk, now), Raise(w)]
  }

  /** Queue and breaker after an undisturbed call that ends in `o`. */
  function QueueAfter(q: Queue, m: Message, reply: Reply, now: real, o: Outcome): Queue {
    if reply.Raised? && o.Returned? then Enqueued(q, m, Some(reply.error.text), now) else q
  }

  function BreakerAfter(full: bool, reply: Reply, o: Outcome): bool {
    reply.Raised? && (full || !o.Returned?)
  }

  function OutcomeOf(q: Queue, reply: Reply, diskOk: bool): Outcome {
    if reply.Acked? || (HasRoom(q) && diskOk) then Returned else if HasRoom(q) then RaisedDisk else RaisedFull
  }

  /** What the three events of a call do to the core, taken together. */
  lemma PublishIsRun(cfg: Config, c: Core, w: Worker, m: Message, reply: Reply, diskOk: bool, now: real, o: Outcome)
    requires w in c.workers && c.workers[w].Polling? && o == OutcomeOf(c.queue, reply, diskOk)
    ensures Replay(cfg, c, PublishEvents(w, m, reply, diskOk, now, o))
         == c.(queue := QueueAfter(c.queue, m, reply, now, o), outboxFull := BreakerAfter(c.outboxFull, reply, o),
               log := LogReply(c.log, m, reply),
               workers := if o.RaisedFull? then c.workers - {w} else c.workers)
  {
    var es := PublishEvents(w, m, reply, diskOk, now, o);
    var c1 := Step(cfg, c, es[0]);
    var c2 := Step(cfg, c1, es[1]);
    assert c.workers[w := c1.workers[w]][w := Polling] == c.workers;
    assert Replay(cfg, c, es) == Replay(cfg, c1, es[1..]) == Replay(cfg, c2, es[1..][1..]);
    if !o.Returned? {
      assert c2.workers == c.workers[w := Refused(m, o.RaisedFull?)];
      assert Replay(cfg, c2, es[1..][1..]) == Replay(cfg, Step(cfg, c2, es[2]), []);
      assert c2.workers[w := Polling] == c.workers && c2.workers - {w} == c.workers - {w};
    }
  }

  class ResilientPublisher {
    const broker: Broker
    const outbox: Outbox
    var consecutiveFailures: nat
    var outboxFull: bool
    var outboxFullSince: Option<real>
    var lastOutboxError: Option<string>

    constructor (broker: Broker, outbox: Outbox)
      ensures this.broker == broker && this.outbox == outbox && Valid() && !outboxFull && consecutiveFailures == 0
    {
      this.broker, this.outbox := broker, outbox;
      consecutiveFailures, outboxFull, outboxFullSince, lastOutboxError := 0, false, None, None;
    }

    /** The breaker's details are known exactly while it is open. */
    ghost predicate Valid()
      reads this
    {
      (outboxFullSince.Some? <==> outboxFull) && (lastOutboxError.Some? <==> outboxFull)
    }

    /** The step system's core as these objects stand; `base` supplies the parts held elsewhere. */
    ghost function View(base: Core): Core
      reads this, broker, outbox
    {
      base.(queue := outbox.Value(), outboxFull := outboxFull, log := broker.log)
    }

    method SetOutboxFull(error: string, now: real)
      requires Valid()
      modifies this
      ensures Valid() && outboxFull && consecutiveFailures == old(consecutiveFailures)
      ensures outboxFullSince == if old(outboxFull) then old(outboxFullSince) else Some(now)
      ensures lastOutboxError == Some(Truncate(error, 500))
    {
      if !outboxFull {
        outboxFullSince := Some(now);
      }
      outboxFull := true;
      lastOutboxError := Some(Truncate(error, BREAKER_ERROR_LIMIT));
    }

    method ClearOutboxFull()
      requires Valid()
      modifies this
      ensures Valid() && !outboxFull && consecutiveFailures == old(consecutiveFailures)
    {
      outboxFull, outboxFullSince, lastOutboxError := false, None, None;
    }

    /** A call of `publish` is the run Send, Settle and, when it raises, Raise. */
    method Publish(m: Message, reply: Reply, diskOk: bool, now: real, ghost cfg: Config, ghost base: Core,
                   ghost w: Worker)
      returns (o: Outcome)
      requires Valid() && w in base.workers && base.workers[w].Polling?
      modifies this, broker, outbox
      ensures Valid()
      ensures o == OutcomeOf(old(outbox.Value()), reply, diskOk)
      ensures Replay(cfg, old(View(base)), PublishEvents(w, m, reply, diskOk, now, o))
           == View(if o.RaisedFull? then base.(workers := base.workers - {w}) else base)
      ensures consecutiveFailures == if reply.Acked? then 0 else old(consecutiveFailures) + 1
      ensures outboxFull == (reply.Raised? && (old(outboxFull) || !o.Returned?))
      ensures broker.log == if reply.Acked? || reply.stored then old(broker.log) + [m] else old(broker.log)
      ensures reply.Raised? ==>
        (o.RaisedFull? <==> old(outbox.pendingEstimate) >= outbox.maxPending)
        && (o.RaisedDisk? <==> old(outbox.pendingEstimate) < outbox.maxPending && !diskOk)
      ensures if reply.Acked? || !o.Returned? then o.Returned? == reply.Acked? && outbox.Value() == old(outbox.Value())
        else outbox.rows == old(outbox.rows)
                            + [Row(old(outbox.nextId), Filed(m), now, 0, Some(reply.error.text))]
    {
      ghost var before := View(base);
      var error := broker.Publish(m, reply);
      if error.None? {
        consecutiveFailures := 0;
        if outboxFull {
          ClearOutboxFull();
        }
        o := Returned;
      } else {
        consecutiveFailures := consecutiveFailures + 1;
        var stored := outbox.Enqueue(m, Some(error.value.text), now, diskOk);
        match stored
        case Full =>
          SetOutboxFull("outbox full", now);
          o := RaisedFull;
        case DiskError =>
          SetOutboxFull("outbox_io_error: ", now);
          o := RaisedDisk;
        case Stored(_) =>
          o := Returned;
      }
      PublishIsRun(cfg, before, w, m, reply, diskOk, now, o);
    }

    /** The retrier's hook: the row goes to the broker as stored, and an acknowledgement closes the breaker. */
    method PublishOutboxRow(row: Row, reply: Reply) returns (error: Option<BrokerError>)
      requires Valid()
      modifies this, broker
      ensures Valid() && consecutiveFailures == old(consecutiveFailures)
      ensures broker.log == LogReply(old(broker.log), row.mail, reply)
      ensures broker.log == if reply.Acked? || reply.stored then old(broker.log) + [row.mail] else old(broker.log)
      ensures error == if reply.Acked? then None else Some(reply.error)
      ensures outboxFull == (old(outboxFull) && reply.Raised?)
    {
      error := broker.Publish(row.mail, reply);
      if error.None? && outboxFull {
        ClearOutboxFull();
      }
    }
  }
}
