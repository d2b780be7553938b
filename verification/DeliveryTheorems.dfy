/** What holds of every run of the delivery system. */
module DeliveryTheorems {
  import opened Prelude
  import opened Telemetry
  import opened OutboxTable
  import opened Delivery
  import opened DeliveryInvariant

  // ----- conservation -----

  /** The broker has the message, or one of the two tables does. */
  ghost predicate Held(c: Core, m: Message) {
    || m in c.log || Filed(m) in c.log
    || (exists r :: r in c.queue.tables.rows && r.mail == Filed(m))
    || (exists d :: d in c.queue.tables.dead && d.mail == Filed(m))
  }

  lemma {:induction false} AcceptedStays(cfg: Config, s: Sys, es: seq<Event>)
    ensures s.hist.accepted <= Exec(cfg, s, es).hist.accepted
    decreases |es|
  {
    if es != [] { AcceptedStays(cfg, Next(cfg, s, es[0]), es[1..]); }
  }

  lemma AcceptedIsHeld(cfg: Config, s: Sys, m: Message)
    requires Inv(cfg, s) && m in s.hist.accepted
    ensures Held(s.core, m)
  {
    var t, h := s.core.queue.tables, s.hist;
    if m !in h.acked {
      var k :| 0 <= k < |h.ever| && h.ever[k].mail == Filed(m);
      if k < |h.fate| {
        if h.fate[k].Delivered? { assert h.ever[k].mail in h.acked; }
        else { assert t.dead[h.fate[k].slot] in t.dead && RestsIn(t.dead[h.fate[k].slot], h.ever[k]); }
      } else {
        RowsAscend(cfg.maxRetries, t.rows, h.ever, |h.fate|, h.fails);
        var i := k - |h.fate|;
        assert t.rows[i] in t.rows && SameMail(t.rows[i], h.ever[|h.fate| + i]);
      }
    }
  }

  /** Once a publish has returned normally its message is never lost, whatever producers, retrier and restarts do. */
  lemma Conservation(cfg: Config, maxPending: int, es: seq<Event>, later: seq<Event>, m: Message)
    requires m in Exec(cfg, First(cfg, maxPending), es).hist.accepted
    ensures Held(Exec(cfg, First(cfg, maxPending), es + later).core, m)
  {
    var s0 := First(cfg, maxPending);
    FirstInv(cfg, maxPending);
    RunKeeps(cfg, s0, es + later);
    ExecConcat(cfg, s0, es, later);
    AcceptedStays(cfg, Exec(cfg, s0, es), later);
    AcceptedIsHeld(cfg, Exec(cfg, s0, es + later), m);
  }

  /** Nothing reaches the broker or the tables that was not handed to publish, and headers change only by
      becoming absent. */
  lemma NothingInvented(cfg: Config, maxPending: int, es: seq<Event>, m: Message)
    requires var c := Exec(cfg, First(cfg, maxPending), es).core;
      m in c.log || (exists r :: r in c.queue.tables.rows && r.mail == m)
        || (exists d :: d in c.queue.tables.dead && d.mail == m)
    ensures var h := Exec(cfg, First(cfg, maxPending), es).hist;
      exists o :: o in h.submitted && (m == o || m == Filed(o))
  {
    FirstInv(cfg, maxPending);
    RunKeeps(cfg, First(cfg, maxPending), es);
    var s := Exec(cfg, First(cfg, maxPending), es);
    var t, h := s.core.queue.tables, s.hist;
    if m !in h.submitted {
      if r :| r in t.rows && r.mail == m {
        var i :| 0 <= i < |t.rows| && t.rows[i] == r;
        RowsAscend(cfg.maxRetries, t.rows, h.ever, |h.fate|, h.fails);
        assert SameMail(t.rows[i], h.ever[|h.fate| + i]);
        assert FiledFrom(h.submitted, h.ever[|h.fate| + i].mail);
      } else if d :| d in t.dead && d.mail == m {
        var j :| 0 <= j < |t.dead| && t.dead[j] == d;
        assert FiledFrom(h.submitted, h.ever[h.owner[j]].mail);
      }
      assert FiledFrom(h.submitted, m);
    }
  }

  // ----- every row inserted is accounted for -----

  function DeletedCount(fate: seq<Fate>): nat {
    if fate == [] then 0
    else DeletedCount(fate[..|fate| - 1]) + (if fate[|fate| - 1].Delivered? then 1 else 0)
  }

  ghost predicate Balanced(s: Sys) {
    |s.hist.fate| == |s.core.queue.tables.dead| + DeletedCount(s.hist.fate)
  }

  lemma BalanceKept(cfg: Config, s: Sys, e: Event)
    requires Inv(cfg, s) && Balanced(s)
    ensures Balanced(Next(cfg, s, e))
  {
    hide NotReady, Outage, TableInv, MailInv, WorkersInv, RetrierInv, Burial, Ascending;
    if e.CommitRow? && Counted(s.core) {
      if s.core.retrier.reply.Raised? { NotReadyIffOutage(s.core.retrier.reply.error); }
      AtFront(cfg, s);
      CommitEffect(cfg, s.core, e.now);
      var fate := Next(cfg, s, e).hist.fate;
      if fate != s.hist.fate { assert fate[..|fate| - 1] == s.hist.fate; }
    }
  }

  lemma {:induction false} RunBalances(cfg: Config, s: Sys, es: seq<Event>)
    requires Inv(cfg, s) && Balanced(s)
    ensures Balanced(Exec(cfg, s, es))
    decreases |es|
  {
    if es != [] {
      Kept(cfg, s, es[0]);
      BalanceKept(cfg, s, es[0]);
      RunBalances(cfg, Next(cfg, s, es[0]), es[1..]);
    }
  }

  /** Rows ever inserted = pending + dead-lettered + deleted, and each deleted row was acknowledged and is in the
      broker's log. */
  lemma Books(cfg: Config, maxPending: int, es: seq<Event>)
    ensures var s := Exec(cfg, First(cfg, maxPending), es);
      && |s.hist.ever| == |s.core.queue.tables.rows| + |s.core.queue.tables.dead| + DeletedCount(s.hist.fate)
      && |s.hist.fate| <= |s.hist.ever|
      && forall k :: 0 <= k < |s.hist.fate| && s.hist.fate[k].Delivered? ==>
           s.hist.ever[k].mail in s.hist.acked && s.hist.ever[k].mail in s.core.log
  {
    FirstInv(cfg, maxPending);
    RunKeeps(cfg, First(cfg, maxPending), es);
    RunBalances(cfg, First(cfg, maxPending), es);
  }

  // ----- the outbox loses rows at its front only -----

  /** The outbox is a contiguous suffix of everything inserted, untouched beyond its oldest row, and the row
      the retrier works on is that oldest row, retry count included. */
  lemma FrontOnly(cfg: Config, maxPending: int, es: seq<Event>)
    ensures var s := Exec(cfg, First(cfg, maxPending), es);
      var rows := s.core.queue.tables.rows;
      var gone := |s.hist.ever| - |rows|;
      && 0 <= gone
      && (rows != [] ==> SameMail(rows[0], s.hist.ever[gone]) && rows[1..] == s.hist.ever[gone + 1..])
      && (forall i :: 0 <= i < |rows| ==> rows[i].id == gone + i + 1)
      && (forall i :: 1 <= i < |rows| ==> rows[i].retryCount == 0)
      && ((s.core.retrier.InBatch? || s.core.retrier.Published?) && s.core.retrier.pos < |s.core.retrier.snap| ==>
            rows != [] && s.core.retrier.snap[s.core.retrier.pos] == rows[0])
  {
    FirstInv(cfg, maxPending);
    RunKeeps(cfg, First(cfg, maxPending), es);
    var s := Exec(cfg, First(cfg, maxPending), es);
    var rows := s.core.queue.tables.rows;
    RowsAscend(cfg.maxRetries, rows, s.hist.ever, |s.hist.fate|, s.hist.fails);
    forall i | 1 <= i < |rows| ensures rows[i].retryCount == 0 {
      assert rows[i] == rows[1..][i - 1] == s.hist.ever[|s.hist.fate| + 1..][i - 1];
    }
    if (s.core.retrier.InBatch? || s.core.retrier.Published?) && s.core.retrier.pos < |s.core.retrier.snap| {
      AtFront(cfg, s);
    }
  }

  // ----- the retry budget -----

  /** Stored retry counts are the counted failures and stay below the limit; a row reaches the dead-letter
      table exactly when its failures reach the limit, carrying the count it had before the last one. */
  lemma RetryBudget(cfg: Config, maxPending: int, es: seq<Event>)
    ensures var s := Exec(cfg, First(cfg, maxPending), es);
      var t, h := s.core.queue.tables, s.hist;
      && |h.fails| == |h.ever| == |h.fate| + |t.rows|
      && (forall i :: 0 <= i < |t.rows| ==> t.rows[i].retryCount == h.fails[|h.fate| + i] <= cfg.maxRetries - 1)
      && (forall k :: 0 <= k < |h.ever| ==> (h.fails[k] == cfg.maxRetries <==> k < |h.fate| && h.fate[k].Buried?))
      && (forall k :: 0 <= k < |h.fate| && h.fate[k].Buried? ==>
            h.fate[k].slot < |t.dead| && t.dead[h.fate[k].slot].retryCount == cfg.maxRetries - 1
            && RestsIn(t.dead[h.fate[k].slot], h.ever[k]))
  {
    FirstInv(cfg, maxPending);
    RunKeeps(cfg, First(cfg, maxPending), es);
    var s := Exec(cfg, First(cfg, maxPending), es);
    var t, h := s.core.queue.tables, s.hist;
    forall i | 0 <= i < |t.rows| ensures t.rows[i].retryCount == h.fails[|h.fate| + i] <= cfg.maxRetries - 1 {
      if i > 0 { assert t.rows[i] == t.rows[1..][i - 1] == h.ever[|h.fate| + 1..][i - 1]; }
    }
  }

  /** The retrier holds no counted reply and every reply it gets from here on says not-ready. */
  ghost predicate OutageOnly(c: Core, es: seq<Event>) {
    && !Counted(c)
    && forall i :: 0 <= i < |es| && es[i].PublishRow? ==> es[i].reply.Raised? && Outage(es[i].reply.error)
  }

  /** However long the broker is not ready, no row is charged, removed or dead-lettered; new rows only queue up. */
  lemma {:induction false} OutageChangesNoRow(cfg: Config, s: Sys, es: seq<Event>)
    requires Inv(cfg, s) && OutageOnly(s.core, es)
    ensures s.core.queue.tables.rows <= Exec(cfg, s, es).core.queue.tables.rows
    ensures Exec(cfg, s, es).core.queue.tables.dead == s.core.queue.tables.dead
    decreases |es|
  {
    if es != [] {
      Kept(cfg, s, es[0]);
      OutageStep(cfg, s, es[0]);
      OutageChangesNoRow(cfg, Next(cfg, s, es[0]), es[1..]);
    }
  }

  lemma OutageStep(cfg: Config, s: Sys, e: Event)
    requires SnapInv(s.core.retrier, s.core.queue.tables.rows) && !Counted(s.core)
    requires e.PublishRow? ==> e.reply.Raised? && Outage(e.reply.error)
    ensures s.core.queue.tables.rows <= Next(cfg, s, e).core.queue.tables.rows
    ensures Next(cfg, s, e).core.queue.tables.dead == s.core.queue.tables.dead
    ensures !Counted(Next(cfg, s, e).core)
  {
    hide NotReady, Outage;
    if e.PublishRow? { NotReadyIffOutage(e.reply.error); }
  }

  // ----- termination: each counted attempt uses up some of what the rows are owed -----

  function Owed(limit: nat, rows: seq<Row>): int {
    if rows == [] then 0 else (limit - rows[0].retryCount) + Owed(limit, rows[1..])
  }

  lemma {:induction false} OwedAppend(limit: nat, rows: seq<Row>, r: Row)
    ensures Owed(limit, rows + [r]) == Owed(limit, rows) + (limit - r.retryCount)
  {
    if rows == [] {
      assert rows + [r] == [r];
    } else {
      assert (rows + [r])[1..] == rows[1..] + [r];
      OwedAppend(limit, rows[1..], r);
    }
  }

  /** What `n` rows are owed when they are inserted. */
  function Grant(limit: nat, n: nat): int { if n == 0 then 0 else limit + Grant(limit, n - 1) }

  lemma {:induction false} GrantIsProduct(limit: nat, n: nat)
    ensures Grant(limit, n) == limit * n
  {
    if n > 0 { GrantIsProduct(limit, n - 1); }
  }

  /** Attempts made, plus what pending rows are still owed, less what all rows were granted. */
  function Overdraft(cfg: Config, s: Sys): int {
    s.hist.attempts + Owed(cfg.maxRetries, s.core.queue.tables.rows) - Grant(cfg.maxRetries, |s.hist.ever|)
  }

  lemma CommitSpends(cfg: Config, s: Sys, now: real)
    requires Inv(cfg, s) && Counted(s.core)
    ensures var n := Next(cfg, s, CommitRow(now));
      && n.hist.attempts == s.hist.attempts + 1 && n.hist.ever == s.hist.ever
      && Owed(cfg.maxRetries, n.core.queue.tables.rows) < Owed(cfg.maxRetries, s.core.queue.tables.rows)
  {
    AtFront(cfg, s);
    CommitEffect(cfg, s.core, now);
    var rows, n := s.core.queue.tables.rows, Next(cfg, s, CommitRow(now)).core.queue.tables.rows;
    assert n == rows[1..] || (n[0].retryCount == rows[0].retryCount + 1 && n[1..] == rows[1..]);
  }

  /** Every attempt that does not end not-ready strictly lowers what is owed; nothing else but an insertion
      raises it. */
  lemma AttemptStep(cfg: Config, s: Sys, e: Event)
    requires Inv(cfg, s)
    ensures Overdraft(cfg, Next(cfg, s, e)) <= Overdraft(cfg, s)
    ensures Next(cfg, s, e).hist.attempts != s.hist.attempts ==>
      Owed(cfg.maxRetries, Next(cfg, s, e).core.queue.tables.rows) < Owed(cfg.maxRetries, s.core.queue.tables.rows)
  {
    if e.CommitRow? && Counted(s.core) {
      CommitSpends(cfg, s, e.now);
    } else if e.Settle? && Stores(s.core, e) {
      OwedAppend(cfg.maxRetries, s.core.queue.tables.rows,
                 NewRow(s.core.queue, s.core.workers[e.w].mail, Some(s.core.workers[e.w].reply.error.text), e.now));
    } else {
      assert Next(cfg, s, e).core.queue.tables.rows == s.core.queue.tables.rows;
    }
  }

  lemma {:induction false} OverdraftFalls(cfg: Config, s: Sys, es: seq<Event>)
    requires Inv(cfg, s)
    ensures Overdraft(cfg, Exec(cfg, s, es)) <= Overdraft(cfg, s)
    decreases |es|
  {
    if es != [] {
      AttemptStep(cfg, s, es[0]);
      Kept(cfg, s, es[0]);
      OverdraftFalls(cfg, Next(cfg, s, es[0]), es[1..]);
    }
  }

  lemma {:induction false} OwedBound(limit: nat, rows: seq<Row>)
    ensures Owed(limit, rows) <= Grant(limit, |rows|)
    ensures (forall r :: r in rows ==> r.retryCount < limit) ==> |rows| <= Owed(limit, rows)
  {
    if rows != [] {
      OwedBound(limit, rows[1..]);
      assert rows[0] in rows;
    }
  }

  /** In any run the counted attempts are at most what was owed at the start plus the retry limit
      for each row inserted meanwhile. */
  lemma AttemptsBounded(cfg: Config, s: Sys, es: seq<Event>)
    requires Inv(cfg, s)
    ensures Exec(cfg, s, es).hist.attempts - s.hist.attempts
              <= Owed(cfg.maxRetries, s.core.queue.tables.rows)
                 + cfg.maxRetries * |Exec(cfg, s, es).hist.ever| - cfg.maxRetries * |s.hist.ever|
  {
    OverdraftFalls(cfg, s, es);
    RunKeeps(cfg, s, es);
    var n := Exec(cfg, s, es);
    RowsBelowLimit(cfg, n);
    OwedBound(cfg.maxRetries, n.core.queue.tables.rows);
    GrantIsProduct(cfg.maxRetries, |n.hist.ever|);
    GrantIsProduct(cfg.maxRetries, |s.hist.ever|);
  }

  /** Without arrivals the retrier makes at most (rows pending) x (retry limit) counted attempts, ever. */
  lemma {:induction false} DrainBound(cfg: Config, s: Sys, es: seq<Event>)
    requires Inv(cfg, s) && |Exec(cfg, s, es).hist.ever| == |s.hist.ever|
    ensures Exec(cfg, s, es).hist.attempts - s.hist.attempts <= cfg.maxRetries * |s.core.queue.tables.rows|
  {
    AttemptsBounded(cfg, s, es);
    OwedBound(cfg.maxRetries, s.core.queue.tables.rows);
    GrantIsProduct(cfg.maxRetries, |s.core.queue.tables.rows|);
  }

  lemma RowsBelowLimit(cfg: Config, s: Sys)
    requires Inv(cfg, s)
    ensures forall r :: r in s.core.queue.tables.rows ==> r.retryCount < cfg.maxRetries
  {
    var rows, h := s.core.queue.tables.rows, s.hist;
    forall r | r in rows ensures r.retryCount < cfg.maxRetries {
      var i :| 0 <= i < |rows| && rows[i] == r;
      if i > 0 { assert rows[i] == rows[1..][i - 1] == h.ever[|h.fate| + 1..][i - 1]; }
    }
  }

  // ----- the counter -----

  function Gap(s: Sys): int { |s.core.queue.tables.rows| - s.core.queue.estimate }

  predicate CountsSucceed(es: seq<Event>) {
    forall i :: 0 <= i < |es| && es[i].Restart? ==> es[i].countOk
  }

  lemma CounterStep(cfg: Config, s: Sys, e: Event)
    requires Inv(cfg, s) && (e.Restart? ==> e.countOk)
    ensures var n := Next(cfg, s, e);
      && 0 <= Gap(n) <= Gap(s)
      && |n.core.queue.tables.rows| <= Max(n.core.queue.maxPending + Gap(s), |s.core.queue.tables.rows|)
      && s.core.queue.maxPending <= n.core.queue.maxPending <= Max(s.core.queue.maxPending, SMALLEST_LIMIT)
  {
    if e.CommitRow? && Counted(s.core) {
      AtFront(cfg, s);
      CommitEffect(cfg, s.core, e.now);
    }
  }

  /** While initial counts succeed the gap between rows and estimate never grows, so an exact counter stays exact,
      and the rows never exceed the limit plus that gap, or the number found at the start. */
  lemma {:induction false} CounterTheorem(cfg: Config, s: Sys, es: seq<Event>)
    requires Inv(cfg, s) && CountsSucceed(es) && SMALLEST_LIMIT <= s.core.queue.maxPending
    ensures var n := Exec(cfg, s, es);
      && 0 <= Gap(n) <= Gap(s)
      && |n.core.queue.tables.rows| <= Max(s.core.queue.maxPending + Gap(s), |s.core.queue.tables.rows|)
    decreases |es|
  {
    if es != [] {
      CounterStep(cfg, s, es[0]);
      Kept(cfg, s, es[0]);
      CounterTheorem(cfg, Next(cfg, s, es[0]), es[1..]);
    }
  }

  /** From an empty database the estimate is the exact number of rows, and the rows respect the limit. */
  lemma ExactCounter(cfg: Config, maxPending: int, es: seq<Event>)
    requires CountsSucceed(es)
    ensures var q := Exec(cfg, First(cfg, maxPending), es).core.queue;
      q.estimate == |q.tables.rows| <= Max(SMALLEST_LIMIT, maxPending)
  {
    FirstInv(cfg, maxPending);
    CounterTheorem(cfg, First(cfg, maxPending), es);
  }

  /** When an initial count fails the estimate starts low by all rows found; it still never exceeds the rows, and the
      outbox can hold that many rows beyond its limit but no more. */
  lemma FailedCount(cfg: Config, s: Sys, es: seq<Event>)
    requires Inv(cfg, s) && CountsSucceed(es) && SMALLEST_LIMIT <= s.core.queue.maxPending
    ensures var n := Exec(cfg, Next(cfg, s, Restart(false)), es);
      && n.core.queue.estimate <= |n.core.queue.tables.rows|
      && Gap(n) <= |s.core.queue.tables.rows|
      && |n.core.queue.tables.rows| <= s.core.queue.maxPending + |s.core.queue.tables.rows|
  {
    Kept(cfg, s, Restart(false));
    CounterTheorem(cfg, Next(cfg, s, Restart(false)), es);
  }
}
