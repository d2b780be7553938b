/** Every event keeps the global invariant of the delivery system, so every run does. */
module DeliveryInvariant {
  import opened Prelude
  import opened Telemetry
  import opened OutboxTable
  import opened Delivery

  // ----- the parts of the invariant, each on exactly the data it speaks about -----

  lemma FrontLeaves(limit: nat, rows: seq<Row>, ever: seq<Row>, gone: nat, fails: seq<nat>, fails2: seq<nat>)
    requires RowsInv(limit, rows, ever, gone, fails) && rows != [] && 0 < limit
    requires |fails2| == |fails| && forall k :: gone < k < |fails| ==> fails2[k] == fails[k]
    ensures RowsInv(limit, rows[1..], ever, gone + 1, fails2)
  {
    var left := rows[1..];
    if left != [] {
      assert left[0] == ever[gone + 1..][0] == ever[gone + 1];
      assert left[1..] == ever[gone + 1..][1..] == ever[gone + 2..];
    }
  }

  lemma FrontCharged(limit: nat, rows: seq<Row>, ever: seq<Row>, gone: nat, fails: seq<nat>, r: Row)
    requires RowsInv(limit, rows, ever, gone, fails) && rows != [] && rows[0].retryCount + 1 < limit
    requires SameMail(r, rows[0]) && r.retryCount == rows[0].retryCount + 1
    ensures RowsInv(limit, [r] + rows[1..], ever, gone, fails[gone := fails[gone] + 1])
  {
    assert ([r] + rows[1..])[1..] == rows[1..];
  }

  lemma RowAdded(limit: nat, rows: seq<Row>, ever: seq<Row>, gone: nat, fails: seq<nat>, r: Row)
    requires RowsInv(limit, rows, ever, gone, fails) && 0 < limit
    requires r.id == |ever| + 1 && r.retryCount == 0
    ensures RowsInv(limit, rows + [r], ever + [r], gone, fails + [0])
  {
    var ever2 := ever + [r];
    if rows == [] {
      assert (rows + [r])[1..] == [] == ever2[gone + 1..];
    } else {
      assert (rows + [r])[1..] == rows[1..] + [r] == ever[gone + 1..] + [r] == ever2[gone + 1..];
    }
  }

  lemma DeadUntouched(limit: nat, dead: seq<DeadRow>, ever: seq<Row>, fate: seq<Fate>, owner: seq<nat>, fails: seq<nat>,
                      ever2: seq<Row>, fails2: seq<nat>)
    requires DeadInv(limit, dead, ever, fate, owner, fails)
    requires ever <= ever2 && |fails2| == |ever2|
    requires forall k :: 0 <= k < |fate| ==> fails2[k] == fails[k]
    ensures DeadInv(limit, dead, ever2, fate, owner, fails2)
  {}

  lemma DeadOnDelivery(limit: nat, dead: seq<DeadRow>, ever: seq<Row>, fate: seq<Fate>, owner: seq<nat>,
                       fails: seq<nat>)
    requires DeadInv(limit, dead, ever, fate, owner, fails) && |fate| < |ever| && fails[|fate|] < limit
    ensures DeadInv(limit, dead, ever, fate + [Delivered], owner, fails)
  {}

  lemma DeadOnBurial(limit: nat, dead: seq<DeadRow>, ever: seq<Row>, fate: seq<Fate>, owner: seq<nat>, fails: seq<nat>,
                     d: DeadRow)
    requires DeadInv(limit, dead, ever, fate, owner, fails) && |fate| < |ever|
    requires fails[|fate|] + 1 == limit && d.retryCount == limit - 1 && RestsIn(d, ever[|fate|])
    ensures DeadInv(limit, dead + [d], ever, fate + [Delivery.Buried(|dead|)], owner + [|fate|],
                    fails[|fate| := fails[|fate|] + 1])
  {}

  lemma OriginKept(submitted: set<Message>, ever: seq<Row>, log: seq<Message>, more: set<Message>, log2: seq<Message>)
    requires OriginInv(submitted, ever, log) && submitted <= more
    requires forall m :: m in log2 ==> m in log || m in more || FiledFrom(submitted, m)
    ensures OriginInv(more, ever, log2)
  {
    forall m | FiledFrom(submitted, m) ensures FiledFrom(more, m) {
      var o :| o in submitted && m == Filed(o);
      assert o in more;
    }
  }

  lemma MailOnStore(accepted: set<Message>, acked: set<Message>, ever: seq<Row>, r: Row, m: Message)
    requires AcceptedInv(accepted, acked, ever) && r.mail == Filed(m)
    ensures AcceptedInv(accepted + {m}, acked, ever + [r])
  {
    var ever2 := ever + [r];
    assert ever2[|ever|].mail == Filed(m);
    forall o | WasFiled(ever, o) ensures WasFiled(ever2, o) {
      var k :| 0 <= k < |ever| && ever[k].mail == Filed(o);
      assert ever2[k].mail == Filed(o);
    }
  }

  lemma OriginOnStore(submitted: set<Message>, ever: seq<Row>, log: seq<Message>, r: Row, m: Message)
    requires OriginInv(submitted, ever, log) && m in submitted && r.mail == Filed(m)
    ensures OriginInv(submitted, ever + [r], log)
  {
    assert FiledFrom(submitted, r.mail);
  }

  // ----- one event at a time -----

  /** The row the retrier is about to settle is the oldest row of the table. */
  lemma AtFront(cfg: Config, s: Sys)
    requires TableInv(cfg, s.core.queue.tables, s.hist) && SnapInv(s.core.retrier, s.core.queue.tables.rows)
    requires (s.core.retrier.InBatch? || s.core.retrier.Published?) && s.core.retrier.pos < |s.core.retrier.snap|
    ensures s.core.queue.tables.rows != []
    ensures s.core.retrier.snap[s.core.retrier.pos] == s.core.queue.tables.rows[0]
    ensures s.core.retrier.snap[s.core.retrier.pos + 1..] <= s.core.queue.tables.rows[1..]
    ensures Ascending(s.core.queue.tables.rows)
  {
    var r, rows := s.core.retrier, s.core.queue.tables.rows;
    RowsAscend(cfg.maxRetries, rows, s.hist.ever, |s.hist.fate|, s.hist.fails);
    assert r.snap[r.pos..][0] == rows[0];
    assert r.snap[r.pos + 1..] == r.snap[r.pos..][1..];
  }

  /** Burying the oldest row moves it whole from one table to the other. */
  lemma FrontBuried(q: Queue, error: string, now: real)
    requires q.tables.rows != [] && Ascending(q.tables.rows)
    ensures OutboxTable.Buried(q, q.tables.rows[0].id, error, now)
      == q.(tables := q.tables.(rows := q.tables.rows[1..], nextDeadId := q.tables.nextDeadId + 1,
                                dead := q.tables.dead + [Burial(q.tables.nextDeadId, q.tables.rows[0], error, now)]),
            estimate := Max(0, q.estimate - 1))
  {
    FrontRow(q.tables.rows);
  }

  lemma ChargedFront(rows: seq<Row>, error: string)
    requires rows != [] && Ascending(rows)
    ensures Charged(rows, rows[0].id, error)
            == [rows[0].(retryCount := rows[0].retryCount + 1, lastError := Some(Truncate(error, ERROR_LIMIT)))]
              + rows[1..]
  {
    var out := Charged(rows, rows[0].id, error);
    forall i | 1 <= i < |rows| ensures out[i] == rows[i] {
      assert rows[0].id < rows[i].id;
    }
  }

  /** The tables and the counter after the retrier settles the oldest row, for each of the four outcomes. */
  lemma CommitEffect(cfg: Config, c: Core, now: real)
    requires c.retrier.Published? && c.retrier.pos < |c.retrier.snap|
    requires c.queue.tables.rows != [] && Ascending(c.queue.tables.rows)
    requires c.retrier.snap[c.retrier.pos] == c.queue.tables.rows[0]
    ensures var q, rows, reply := CommitStep(cfg, c, now).queue, c.queue.tables.rows, c.retrier.reply;
      if reply.Acked? then
        q == c.queue.(tables := c.queue.tables.(rows := rows[1..]), estimate := Max(0, c.queue.estimate - 1))
      else if Outage(reply.error) then q == c.queue && CommitStep(cfg, c, now).retrier == Ended(true)
      else if rows[0].retryCount + 1 >= cfg.maxRetries then
        q == c.queue.(tables := Tables(rows[1..], c.queue.tables.nextId,
                        c.queue.tables.dead + [Burial(c.queue.tables.nextDeadId, rows[0], reply.error.text, now)],
                        c.queue.tables.nextDeadId + 1),
                      estimate := Max(0, c.queue.estimate - 1))
      else
        q == c.queue.(tables := c.queue.tables.(rows :=
               [rows[0].(retryCount := rows[0].retryCount + 1,
                         lastError := Some(Truncate(reply.error.text, ERROR_LIMIT)))] + rows[1..]))
  {
    var rows := c.queue.tables.rows;
    FrontRow(rows);
    if c.retrier.reply.Raised? {
      NotReadyIffOutage(c.retrier.reply.error);
      ChargedFront(rows, c.retrier.reply.error.text);
      FrontBuried(c.queue, c.retrier.reply.error.text, now);
    }
  }

  lemma KeptByDelivery(cfg: Config, s: Sys, now: real)
    requires Inv(cfg, s) && s.core.retrier.Published? && s.core.retrier.reply.Acked?
    ensures Inv(cfg, Next(cfg, s, CommitRow(now)))
  {
    AtFront(cfg, s);
    CommitEffect(cfg, s.core, now);
    var rows, h := s.core.queue.tables.rows, s.hist;
    FrontLeaves(cfg.maxRetries, rows, h.ever, |h.fate|, h.fails, h.fails);
    DeadOnDelivery(cfg.maxRetries, s.core.queue.tables.dead, h.ever, h.fate, h.owner, h.fails);
    var n := Next(cfg, s, CommitRow(now));
    assert n.hist == h.(fate := h.fate + [Delivered], attempts := h.attempts + 1);
    assert n.core.queue.tables.rows == rows[1..];
  }

  lemma TableAfterBurial(cfg: Config, t: Tables, h: History, error: string, now: real)
    requires TableInv(cfg, t, h) && t.rows != [] && t.rows[0].retryCount + 1 >= cfg.maxRetries
    ensures |h.fate| < |h.fails| == |h.ever|
    ensures TableInv(cfg, Tables(t.rows[1..], t.nextId,
                                 t.dead + [Burial(t.nextDeadId, t.rows[0], error, now)], t.nextDeadId + 1),
                     h.(fate := h.fate + [Delivery.Buried(|t.dead|)], owner := h.owner + [|h.fate|],
                        fails := h.fails[|h.fate| := h.fails[|h.fate|] + 1], attempts := h.attempts + 1))
  {
    FrontLeaves(cfg.maxRetries, t.rows, h.ever, |h.fate|, h.fails, h.fails[|h.fate| := h.fails[|h.fate|] + 1]);
    DeadOnBurial(cfg.maxRetries, t.dead, h.ever, h.fate, h.owner, h.fails, Burial(t.nextDeadId, t.rows[0], error, now));
  }

  lemma DeletedAfterBurial(ever: seq<Row>, fate: seq<Fate>, acked: set<Message>, slot: nat)
    requires DeletedInv(ever, fate, acked) && |fate| < |ever|
    ensures DeletedInv(ever, fate + [Delivery.Buried(slot)], acked)
  {}

  lemma KeptByBurial(cfg: Config, s: Sys, now: real)
    requires Inv(cfg, s) && s.core.retrier.Published? && Counted(s.core) && s.core.retrier.reply.Raised?
    requires s.core.retrier.snap[s.core.retrier.pos].retryCount + 1 >= cfg.maxRetries
    ensures Inv(cfg, Next(cfg, s, CommitRow(now)))
  {
    hide LoggedInv, AcceptedInv, OriginInv, WorkersInv, DeletedInv, TableInv, NotReady, Outage, Burial;
    AtFront(cfg, s);
    var error := s.core.retrier.reply.error.text;
    NotReadyIffOutage(s.core.retrier.reply.error);
    CommitEffect(cfg, s.core, now);
    TableAfterBurial(cfg, s.core.queue.tables, s.hist, error, now);
    DeletedAfterBurial(s.hist.ever, s.hist.fate, s.hist.acked, |s.core.queue.tables.dead|);
  }

  lemma KeptByRetry(cfg: Config, s: Sys, now: real)
    requires Inv(cfg, s) && s.core.retrier.Published? && Counted(s.core) && s.core.retrier.reply.Raised?
    requires s.core.retrier.snap[s.core.retrier.pos].retryCount + 1 < cfg.maxRetries
    ensures Inv(cfg, Next(cfg, s, CommitRow(now)))
  {
    AtFront(cfg, s);
    var t, h := s.core.queue.tables, s.hist;
    NotReadyIffOutage(s.core.retrier.reply.error);
    CommitEffect(cfg, s.core, now);
    var fails2 := h.fails[|h.fate| := h.fails[|h.fate|] + 1];
    FrontCharged(cfg.maxRetries, t.rows, h.ever, |h.fate|, h.fails,
                 t.rows[0].(retryCount := t.rows[0].retryCount + 1,
                            lastError := Some(Truncate(s.core.retrier.reply.error.text, ERROR_LIMIT))));
    DeadUntouched(cfg.maxRetries, t.dead, h.ever, h.fate, h.owner, h.fails, h.ever, fails2);
    var n := Next(cfg, s, CommitRow(now));
    assert n.hist == h.(fails := fails2, attempts := h.attempts + 1);
  }

  lemma KeptByCommit(cfg: Config, s: Sys, now: real)
    requires Inv(cfg, s)
    ensures Inv(cfg, Next(cfg, s, CommitRow(now)))
  {
    if s.core.retrier.Published? {
      if s.core.retrier.reply.Acked? {
        KeptByDelivery(cfg, s, now);
      } else if !NotReady(s.core.retrier.reply.error) {
        if s.core.retrier.snap[s.core.retrier.pos].retryCount + 1 < cfg.maxRetries {
          KeptByRetry(cfg, s, now);
        } else {
          KeptByBurial(cfg, s, now);
        }
      }
    }
  }

  lemma KeptByStore(cfg: Config, s: Sys, e: Event)
    requires Inv(cfg, s) && e.Settle? && Stores(s.core, e)
    ensures Inv(cfg, Next(cfg, s, e))
  {
    var t, h, m := s.core.queue.tables, s.hist, s.core.workers[e.w].mail;
    var r := NewRow(s.core.queue, m, Some(s.core.workers[e.w].reply.error.text), e.now);
    RowAdded(cfg.maxRetries, t.rows, h.ever, |h.fate|, h.fails, r);
    DeadUntouched(cfg.maxRetries, t.dead, h.ever, h.fate, h.owner, h.fails, h.ever + [r], h.fails + [0]);
    MailOnStore(h.accepted, h.acked, h.ever, r, m);
    OriginOnStore(h.submitted, h.ever, s.core.log, r, m);
    var n := Next(cfg, s, e);
    assert n.hist == h.(accepted := h.accepted + {m}, fails := h.fails + [0], ever := h.ever + [r]);
  }

  lemma KeptBySettle(cfg: Config, s: Sys, e: Event)
    requires Inv(cfg, s) && e.Settle? && !Stores(s.core, e)
    ensures Inv(cfg, Next(cfg, s, e))
  {
    hide RowsInv, DeadInv, SnapInv, RetrierInv, DeletedInv, LoggedInv, OriginInv, WasFiled;
  }

  lemma KeptBySend(cfg: Config, s: Sys, e: Event)
    requires Inv(cfg, s) && e.Send?
    ensures Inv(cfg, Next(cfg, s, e))
  {
    var n := Next(cfg, s, e);
    OriginKept(s.hist.submitted, s.hist.ever, s.core.log, n.hist.submitted, n.core.log);
  }

  lemma KeptByPublishRow(cfg: Config, s: Sys, e: Event)
    requires Inv(cfg, s) && e.PublishRow?
    ensures Inv(cfg, Next(cfg, s, e))
  {
    var n, h := Next(cfg, s, e), s.hist;
    if s.core.retrier.InBatch? && s.core.retrier.pos < |s.core.retrier.snap| {
      AtFront(cfg, s);
      assert FiledFrom(h.submitted, h.ever[|h.fate|].mail);
      OriginKept(h.submitted, h.ever, s.core.log, h.submitted, n.core.log);
    }
  }

  lemma BackoffStays(cfg: Config, b: real)
    requires cfg.minBackoff <= b <= cfg.maxBackoff
    ensures cfg.minBackoff <= NextBackoff(cfg, b) <= cfg.maxBackoff
  {
    assert b * cfg.multiplier >= b * 1.0;
  }

  /** The remaining events touch neither the tables nor the log. */
  lemma KeptByRest(cfg: Config, s: Sys, e: Event)
    requires Inv(cfg, s) && !e.Settle? && !e.Send? && !e.PublishRow? && !e.CommitRow?
    ensures Inv(cfg, Next(cfg, s, e))
  {
    hide RowsInv, DeadInv, DeletedInv, LoggedInv, AcceptedInv, OriginInv, NextBackoff;
    if e.Finish? && CanFinish(s.core) { BackoffStays(cfg, s.core.backoff); }
  }

  lemma Kept(cfg: Config, s: Sys, e: Event)
    requires Inv(cfg, s)
    ensures Inv(cfg, Next(cfg, s, e))
  {
    if e.Settle? {
      if Stores(s.core, e) { KeptByStore(cfg, s, e); } else { KeptBySettle(cfg, s, e); }
    }
    else if e.Send? { KeptBySend(cfg, s, e); }
    else if e.PublishRow? { KeptByPublishRow(cfg, s, e); }
    else if e.CommitRow? { KeptByCommit(cfg, s, e.now); }
    else { KeptByRest(cfg, s, e); }
  }

  lemma {:induction false} RunKeeps(cfg: Config, s: Sys, es: seq<Event>)
    requires Inv(cfg, s)
    ensures Inv(cfg, Exec(cfg, s, es))
    decreases |es|
  {
    if es != [] {
      Kept(cfg, s, es[0]);
      RunKeeps(cfg, Next(cfg, s, es[0]), es[1..]);
    }
  }
}
