/** Store-and-forward delivery as a step system: poll workers, one retrier, the broker and process restarts,
    interleaved in any order.  An event that is not enabled changes nothing, so every sequence of events is a run. */
module Delivery {
  import opened Prelude
  import opened Telemetry
  import opened OutboxTable

  /** What the broker's exception looks like to the gateway. */
  datatype BrokerError = BrokerError(notReadyType: bool, text: string)

  /** A publish attempt either is acknowledged or raises; a raised attempt may still have been stored,
      as after a client-side timeout. */
  datatype Reply = Acked | Raised(error: BrokerError, stored: bool)

  function Lower(c: char): char { if 'A' <= c <= 'Z' then c - 'A' + 'a' else c }

  predicate BeginsWith(text: string, word: string) {
    word == "" || (text != "" && Lower(text[0]) == word[0] && BeginsWith(text[1..], word[1..]))
  }

  /** The text contains the words "not ready", in whatever case. */
  predicate SaysNotReady(text: string) {
    BeginsWith(text, "not ready") || (text != "" && SaysNotReady(text[1..]))
  }

  predicate NotReady(e: BrokerError) { e.notReadyType || SaysNotReady(e.text) }

  /** The nine characters from `i` on read "not ready", in whatever case. */
  predicate Spelled(text: string, i: nat) {
    && i + 9 <= |text|
    && text[i] in {'n', 'N'} && text[i + 1] in {'o', 'O'} && text[i + 2] in {'t', 'T'} && text[i + 3] == ' '
    && text[i + 4] in {'r', 'R'} && text[i + 5] in {'e', 'E'} && text[i + 6] in {'a', 'A'}
    && text[i + 7] in {'d', 'D'} && text[i + 8] in {'y', 'Y'}
  }

  /** An outage: the broker's own not-ready error, or any error that says so somewhere in its text. */
  ghost predicate Outage(e: BrokerError) { e.notReadyType || exists i: nat :: Spelled(e.text, i) }

  lemma {:induction false} BeginsExactly(text: string, word: string)
    ensures BeginsWith(text, word)
      <==> |word| <= |text| && forall j :: 0 <= j < |word| ==> Lower(text[j]) == word[j]
    decreases |word|
  {
    if word != "" && text != "" { BeginsExactly(text[1..], word[1..]); }
  }

  lemma LowerLetter(c: char, small: char)
    requires 'a' <= small <= 'z'
    ensures Lower(c) == small <==> c == small || c == small - 'a' + 'A'
  {}

  lemma SpelledAtStart(text: string)
    ensures BeginsWith(text, "not ready") <==> Spelled(text, 0)
  {
    var word := "not ready";
    BeginsExactly(text, word);
    if 9 <= |text| {
      LowerLetter(text[0], 'n');
      LowerLetter(text[1], 'o');
      LowerLetter(text[2], 't');
      LowerLetter(text[4], 'r');
      LowerLetter(text[5], 'e');
      LowerLetter(text[6], 'a');
      LowerLetter(text[7], 'd');
      LowerLetter(text[8], 'y');
      assert (forall j :: 0 <= j < 9 ==> Lower(text[j]) == word[j])
        <==> Lower(text[0]) == word[0] && Lower(text[1]) == word[1] && Lower(text[2]) == word[2]
             && Lower(text[3]) == word[3] && Lower(text[4]) == word[4] && Lower(text[5]) == word[5]
             && Lower(text[6]) == word[6] && Lower(text[7]) == word[7] && Lower(text[8]) == word[8];
    }
  }

  lemma {:induction false} SaysExactly(text: string)
    ensures SaysNotReady(text) <==> exists i: nat :: Spelled(text, i)
  {
    hide BeginsWith;
    SpelledAtStart(text);
    if text != "" {
      SaysExactly(text[1..]);
      if i: nat :| Spelled(text[1..], i) { assert Spelled(text, i + 1); }
      if i: nat :| Spelled(text, i) {
        if i > 0 { assert Spelled(text[1..], i - 1); }
      }
    }
  }

  /** The retrier takes exactly the outages for not-ready. */
  lemma NotReadyIffOutage(e: BrokerError)
    ensures NotReady(e) <==> Outage(e)
  {
    SaysExactly(e.text);
  }

  predicate Accepts(reply: Reply) { reply.Acked? || reply.stored }

  datatype RawConfig = RawConfig(batchSize: nat, maxRetries: nat,
                                 minBackoff: real, maxBackoff: real, multiplier: real, pollInterval: real)

  /** The retrier's settings after its constructor has raised them to their floors. */
  type Config = c: RawConfig | 1 <= c.batchSize && 1 <= c.maxRetries && 0.1 <= c.minBackoff <= c.maxBackoff
                               && 1.05 <= c.multiplier && 0.5 <= c.pollInterval
    witness RawConfig(100, 100, 1.0, 60.0, 1.5, 2.0)

  type Worker = nat

  /** A poll worker is between publishes, has the broker's reply, or has been refused by the outbox. */
  datatype WorkerPhase = Polling | Sent(mail: Message, reply: Reply) | Refused(mail: Message, full: bool)

  /** The retrier is waiting, inside a batch, holding the broker's reply for a row, or past its batch. */
  datatype Retrier = Idle
                   | InBatch(snap: seq<Row>, pos: nat)
                   | Published(snap: seq<Row>, pos: nat, reply: Reply)
                   | Ended(failed: bool)

  datatype Core = Core(queue: Queue, outboxFull: bool, log: seq<Message>,
                       workers: map<Worker, WorkerPhase>, cycleOpen: bool,
                       retrier: Retrier, stopping: bool, backoff: real)

  datatype Event =
    | CycleStart | CycleEnd | PollBegin(w: Worker) | PollEnd(w: Worker)
    | Send(w: Worker, mail: Message, reply: Reply)
    | Settle(w: Worker, diskOk: bool, now: real)
    | Raise(w: Worker)
    | Fetch | PublishRow(reply: Reply) | CommitRow(now: real) | Finish(jitter: real) | Stop
    | Restart(countOk: bool)

  function Start(cfg: Config, t: Tables, maxPending: int, countOk: bool, log: seq<Message>): Core {
    Core(Opened(t, maxPending, countOk), false, log, map[], false, Idle, false, cfg.minBackoff)
  }

  // ----- backoff -----

  function NextBackoff(cfg: Config, b: real): real { MinReal(cfg.maxBackoff, b * cfg.multiplier) }

  function Wait(b: real, jitter: real): real { MaxReal(0.1, b * (1.0 + jitter)) }

  // ----- one event -----

  predicate InPhase(c: Core, w: Worker, polling: bool) {
    w in c.workers && (c.workers[w].Polling? <==> polling)
  }

  function LogReply(log: seq<Message>, m: Message, reply: Reply): seq<Message> {
    if Accepts(reply) then log + [m] else log
  }

  predicate Stores(c: Core, e: Event)
    requires e.Settle?
  {
    e.w in c.workers && c.workers[e.w].Sent? && c.workers[e.w].reply.Raised? && HasRoom(c.queue) && e.diskOk
  }

  function SettleStep(c: Core, e: Event): Core
    requires e.Settle? && e.w in c.workers && c.workers[e.w].Sent?
  {
    var s := c.workers[e.w];
    if s.reply.Acked? then
      c.(outboxFull := false, workers := c.workers[e.w := Polling])
    else if Stores(c, e) then
      c.(queue := Enqueued(c.queue, s.mail, Some(s.reply.error.text), e.now), workers := c.workers[e.w := Polling])
    else
      c.(workers := c.workers[e.w := Refused(s.mail, !HasRoom(c.queue))])
  }

  /** A refusal for lack of room ends the worker's poll; a disk error only costs it this message. */
  function RaiseStep(c: Core, w: Worker): Core
    requires w in c.workers && c.workers[w].Refused?
  {
    c.(outboxFull := true,
       workers := if c.workers[w].full then c.workers - {w} else c.workers[w := Polling])
  }

  function CommitStep(cfg: Config, c: Core, now: real): Core
    requires c.retrier.Published? && c.retrier.pos < |c.retrier.snap|
  {
    var Published(snap, pos, reply) := c.retrier;
    var row := snap[pos];
    if reply.Acked? then
      c.(queue := Removed(c.queue, row.id), outboxFull := false, retrier := InBatch(snap, pos + 1))
    else if NotReady(reply.error) then
      c.(retrier := Ended(true))
    else if row.retryCount + 1 >= cfg.maxRetries then
      c.(queue := OutboxTable.Buried(c.queue, row.id, reply.error.text, now), retrier := InBatch(snap, pos + 1))
    else
      c.(queue := Retried(c.queue, row.id, reply.error.text), retrier := Ended(true))
  }

  predicate CanFinish(c: Core) {
    c.retrier.Ended? || (c.retrier.InBatch? && (c.stopping || c.retrier.pos >= |c.retrier.snap|))
  }

  function FinishStep(cfg: Config, c: Core): Core
    requires CanFinish(c)
  {
    c.(retrier := Idle, backoff := if c.retrier == Ended(true) then NextBackoff(cfg, c.backoff) else cfg.minBackoff)
  }

  function Step(cfg: Config, c: Core, e: Event): Core {
    match e
    case CycleStart => if c.outboxFull then c else c.(cycleOpen := true)
    case CycleEnd => c.(cycleOpen := false)
    case PollBegin(w) => if c.cycleOpen && w !in c.workers then c.(workers := c.workers[w := Polling]) else c
    case PollEnd(w) => if InPhase(c, w, true) then c.(workers := c.workers - {w}) else c
    case Send(w, m, reply) =>
      if InPhase(c, w, true)
      then c.(log := LogReply(c.log, m, reply), workers := c.workers[w := Sent(m, reply)]) else c
    case Settle(w, _, _) => if w in c.workers && c.workers[w].Sent? then SettleStep(c, e) else c
    case Raise(w) => if w in c.workers && c.workers[w].Refused? then RaiseStep(c, w) else c
    case Fetch =>
      if !c.retrier.Idle? || c.stopping then c
      else if c.queue.tables.rows == [] then c.(retrier := Ended(false))
      else c.(retrier := InBatch(Oldest(c.queue.tables.rows, cfg.batchSize), 0))
    case PublishRow(reply) =>
      if c.retrier.InBatch? && c.retrier.pos < |c.retrier.snap| && !c.stopping
      then c.(log := LogReply(c.log, c.retrier.snap[c.retrier.pos].mail, reply),
              retrier := Published(c.retrier.snap, c.retrier.pos, reply))
      else c
    case CommitRow(now) =>
      if c.retrier.Published? && c.retrier.pos < |c.retrier.snap| then CommitStep(cfg, c, now) else c
    case Finish(_) => if CanFinish(c) then FinishStep(cfg, c) else c
    case Stop => c.(stopping := true)
    case Restart(countOk) => Start(cfg, c.queue.tables, c.queue.maxPending, countOk, c.log)
  }

  // ----- what an observer of the whole run writes down -----

  /** How a row left the outbox; a buried row names its place in the dead-letter table. */
  datatype Fate = Delivered | Buried(slot: nat)

  datatype History = History(
    ever: seq<Row>,            // every row inserted, as inserted; row with id k + 1 stands at k
    fate: seq<Fate>,           // how the rows that left did leave, oldest first
    owner: seq<nat>,           // for each dead letter, the row it came from
    fails: seq<nat>,           // counted failed attempts of each row
    attempts: nat,             // publish attempts by the retrier that did not end not-ready
    submitted: set<Message>,   // every message handed to publish
    acked: set<Message>,       // every message the broker acknowledged
    accepted: set<Message>,    // every message whose publish returned normally
    refused: set<Message>)     // every message whose publish raised

  function Counted(c: Core): bool {
    c.retrier.Published? && c.retrier.pos < |c.retrier.snap|
    && (c.retrier.reply.Acked? || !NotReady(c.retrier.reply.error))
  }

  function NoteCommit(cfg: Config, c: Core, h: History): History
    requires Counted(c)
  {
    var Published(snap, pos, reply) := c.retrier;
    var k := |h.fate|;
    var tried := h.(attempts := h.attempts + 1);
    if reply.Acked? then tried.(fate := h.fate + [Delivered])
    else
      var charged := tried.(fails := if k < |h.fails| then h.fails[k := h.fails[k] + 1] else h.fails);
      if snap[pos].retryCount + 1 < cfg.maxRetries then charged
      else charged.(fate := h.fate + [Buried(|c.queue.tables.dead|)], owner := h.owner + [k])
  }

  function Note(cfg: Config, c: Core, h: History, e: Event): History {
    match e
    case Send(w, m, reply) =>
      if InPhase(c, w, true)
      then h.(submitted := h.submitted + {m}, acked := if reply.Acked? then h.acked + {m} else h.acked) else h
    case Settle(w, _, now) =>
      if w in c.workers && c.workers[w].Sent? then
        var s := c.workers[w];
        if s.reply.Acked? then h.(accepted := h.accepted + {s.mail})
        else if Stores(c, e) then
          h.(accepted := h.accepted + {s.mail}, fails := h.fails + [0],
             ever := h.ever + [NewRow(c.queue, s.mail, Some(s.reply.error.text), now)])
        else h
      else h
    case Raise(w) =>
      if w in c.workers && c.workers[w].Refused? then h.(refused := h.refused + {c.workers[w].mail}) else h
    case PublishRow(reply) =>
      if c.retrier.InBatch? && c.retrier.pos < |c.retrier.snap| && !c.stopping && reply.Acked?
      then h.(acked := h.acked + {c.retrier.snap[c.retrier.pos].mail}) else h
    case CommitRow(_) => if Counted(c) then NoteCommit(cfg, c, h) else h
    case _ => h
  }

  datatype Sys = Sys(core: Core, hist: History)

  const BLANK := History([], [], [], [], 0, {}, {}, {}, {})

  function First(cfg: Config, maxPending: int): Sys {
    Sys(Start(cfg, EMPTY_TABLES, maxPending, true, []), BLANK)
  }

  function Next(cfg: Config, s: Sys, e: Event): Sys {
    Sys(Step(cfg, s.core, e), Note(cfg, s.core, s.hist, e))
  }

  function Exec(cfg: Config, s: Sys, es: seq<Event>): Sys
    decreases |es|
  {
    if es == [] then s else Exec(cfg, Next(cfg, s, es[0]), es[1..])
  }

  lemma {:induction false} ExecConcat(cfg: Config, s: Sys, a: seq<Event>, b: seq<Event>)
    ensures Exec(cfg, s, a + b) == Exec(cfg, Exec(cfg, s, a), b)
    decreases |a|
  {
    if a == [] {
      assert a + b == b;
    } else {
      assert (a + b)[1..] == a[1..] + b;
      ExecConcat(cfg, Next(cfg, s, a[0]), a[1..], b);
    }
  }

  /** The same run without the observer. */
  function Replay(cfg: Config, c: Core, es: seq<Event>): Core
    decreases |es|
  {
    if es == [] then c else Replay(cfg, Step(cfg, c, es[0]), es[1..])
  }

  lemma {:induction false} ReplayIsExec(cfg: Config, c: Core, h: History, es: seq<Event>)
    ensures Replay(cfg, c, es) == Exec(cfg, Sys(c, h), es).core
    decreases |es|
  {
    if es != [] { ReplayIsExec(cfg, Step(cfg, c, es[0]), Note(cfg, c, h, es[0]), es[1..]); }
  }

  lemma {:induction false} ReplayOneMore(cfg: Config, c: Core, es: seq<Event>, e: Event)
    ensures Replay(cfg, c, es + [e]) == Step(cfg, Replay(cfg, c, es), e)
    decreases |es|
  {
    if es == [] {
      assert es + [e] == [e];
      assert Replay(cfg, c, [e]) == Replay(cfg, Step(cfg, c, e), []);
    } else {
      assert (es + [e])[1..] == es[1..] + [e];
      ReplayOneMore(cfg, Step(cfg, c, es[0]), es[1..], e);
    }
  }

  // ----- the global invariant -----

  /** The same message as inserted, with the id the table gave it. */
  predicate SameMail(r: Row, inserted: Row) {
    r.id == inserted.id && r.mail == inserted.mail && r.enqueuedAt == inserted.enqueuedAt
  }

  /** The outbox is the part of the insertion history that follows the `gone` rows that left;
      beyond the oldest row it is untouched, and stored retry counts are the counted failures. */
  ghost predicate RowsInv(limit: nat, rows: seq<Row>, ever: seq<Row>, gone: nat, fails: seq<nat>) {
    && |fails| == |ever| == gone + |rows|
    && (forall k :: 0 <= k < |ever| ==> ever[k].id == k + 1 && ever[k].retryCount == 0)
    && (rows != [] ==> SameMail(rows[0], ever[gone]) && rows[1..] == ever[gone + 1..]
                       && rows[0].retryCount == fails[gone] < limit)
    && (forall k :: gone < k < |fails| ==> fails[k] == 0)
  }

  ghost predicate RestsIn(d: DeadRow, r: Row) { d.mail == r.mail && d.enqueuedAt == r.enqueuedAt }

  /** The dead-letter table holds exactly the rows buried, each at its last permitted failure. */
  ghost predicate DeadInv(limit: nat, dead: seq<DeadRow>, ever: seq<Row>, fate: seq<Fate>, owner: seq<nat>,
                          fails: seq<nat>) {
    && |fate| <= |ever| == |fails| && |owner| == |dead|
    && (forall k :: 0 <= k < |fate| && fate[k].Buried? ==>
          fate[k].slot < |dead| && owner[fate[k].slot] == k && fails[k] == limit)
    && (forall k :: 0 <= k < |fate| && fate[k].Delivered? ==> fails[k] < limit)
    && (forall j :: 0 <= j < |dead| ==>
          owner[j] < |fate| && fate[owner[j]] == Buried(j)
          && RestsIn(dead[j], ever[owner[j]]) && dead[j].retryCount == limit - 1)
  }

  /** Every row deleted had been acknowledged. */
  ghost predicate DeletedInv(ever: seq<Row>, fate: seq<Fate>, acked: set<Message>) {
    |fate| <= |ever| && forall k :: 0 <= k < |fate| && fate[k].Delivered? ==> ever[k].mail in acked
  }

  /** What the retrier still has to do agrees with the front of the table it was read from. */
  ghost predicate SnapInv(r: Retrier, rows: seq<Row>) {
    (r.InBatch? || r.Published?) ==>
      r.pos <= |r.snap| && r.snap[r.pos..] <= rows && (r.Published? ==> r.pos < |r.snap|)
  }

  ghost predicate RetrierInv(r: Retrier, acked: set<Message>) {
    r.Published? && r.pos < |r.snap| && r.reply.Acked? ==> r.snap[r.pos].mail in acked
  }

  ghost predicate WorkersInv(workers: map<Worker, WorkerPhase>, submitted: set<Message>, acked: set<Message>) {
    && (forall w :: w in workers && !workers[w].Polling? ==> workers[w].mail in submitted)
    && (forall w :: w in workers && workers[w].Sent? && workers[w].reply.Acked? ==> workers[w].mail in acked)
  }

  ghost predicate WasFiled(ever: seq<Row>, m: Message) {
    exists k :: 0 <= k < |ever| && ever[k].mail == Filed(m)
  }

  ghost predicate FiledFrom(submitted: set<Message>, m: Message) {
    exists o :: o in submitted && m == Filed(o)
  }

  ghost predicate LoggedInv(acked: set<Message>, log: seq<Message>) { forall m :: m in acked ==> m in log }

  ghost predicate AcceptedInv(accepted: set<Message>, acked: set<Message>, ever: seq<Row>) {
    forall m :: m in accepted ==> m in acked || WasFiled(ever, m)
  }

  ghost predicate OriginInv(submitted: set<Message>, ever: seq<Row>, log: seq<Message>) {
    && (forall k :: 0 <= k < |ever| ==> FiledFrom(submitted, ever[k].mail))
    && (forall m :: m in log ==> m in submitted || FiledFrom(submitted, m))
  }

  ghost predicate TableInv(cfg: Config, t: Tables, h: History) {
    && RowsInv(cfg.maxRetries, t.rows, h.ever, |h.fate|, h.fails)
    && DeadInv(cfg.maxRetries, t.dead, h.ever, h.fate, h.owner, h.fails)
    && t.nextId == |h.ever| + 1
  }

  ghost predicate MailInv(c: Core, h: History) {
    && DeletedInv(h.ever, h.fate, h.acked)
    && LoggedInv(h.acked, c.log)
    && AcceptedInv(h.accepted, h.acked, h.ever)
    && OriginInv(h.submitted, h.ever, c.log)
  }

  ghost predicate Inv(cfg: Config, s: Sys) {
    && TableInv(cfg, s.core.queue.tables, s.hist)
    && SnapInv(s.core.retrier, s.core.queue.tables.rows)
    && RetrierInv(s.core.retrier, s.hist.acked)
    && WorkersInv(s.core.workers, s.hist.submitted, s.hist.acked)
    && MailInv(s.core, s.hist)
    && s.core.queue.estimate <= |s.core.queue.tables.rows|
    && cfg.minBackoff <= s.core.backoff <= cfg.maxBackoff
  }

  lemma FirstInv(cfg: Config, maxPending: int)
    ensures Inv(cfg, First(cfg, maxPending))
  {}

  lemma RowsAscend(limit: nat, rows: seq<Row>, ever: seq<Row>, gone: nat, fails: seq<nat>)
    requires RowsInv(limit, rows, ever, gone, fails)
    ensures Ascending(rows)
    ensures forall i :: 0 <= i < |rows| ==> SameMail(rows[i], ever[gone + i])
  {
    forall i | 0 <= i < |rows| ensures SameMail(rows[i], ever[gone + i]) && rows[i].id == gone + i + 1 {
      if i > 0 { assert rows[i] == rows[1..][i - 1] == ever[gone + 1..][i - 1]; }
    }
  }
}
