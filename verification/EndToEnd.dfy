/** From a field change to the broker: one device's poll, its messages, and where they are ever after. */
module EndToEnd {
  import opened Prelude
  import opened Telemetry
  import opened OutboxTable
  import opened Delivery
  import DeliveryInvariant
  import DeliveryTheorems
  import DeliveryProgress
  import opened Publisher
  import DeviceLink
  import LinkRecovery
  import LinkTheorems

  // ----- the messages of one poll -----

  /** What all messages of one poll share; `ids` are the fresh message ids in order. */
  datatype Poll = Poll(gateway: string, device: string, correlation: string, at: string, ids: nat -> string)

  /** One message for each reading that changed, in order; `k` ids are used already. */
  function Outgoing(p: Poll, readings: seq<Reading>, k: nat): seq<Message>
    decreases |readings|
  {
    if readings == [] then []
    else if readings[0].quality.NoChange? then Outgoing(p, readings[1..], k)
    else [MessageFor(p.gateway, p.device, readings[0], p.ids(k), p.correlation, p.at)]
         + Outgoing(p, readings[1..], k + 1)
  }

  /** The environment of one poll: the broker's reply and the disk's condition for each publish, and the clock. */
  datatype Weather = Weather(reply: nat -> Reply, diskOk: nat -> bool, now: real)

  /** An undisturbed poll as events: message after message until the outbox refuses one for lack of room. */
  function PollEvents(cfg: Config, c: Core, w: Worker, ms: seq<Message>, wx: Weather, k: nat): seq<Event>
    decreases |ms|
  {
    if ms == [] then []
    else
      var o := OutcomeOf(c.queue, wx.reply(k), wx.diskOk(k));
      var es := PublishEvents(w, ms[0], wx.reply(k), wx.diskOk(k), wx.now, o);
      if o.RaisedFull? then es else es + PollEvents(cfg, Replay(cfg, c, es), w, ms[1..], wx, k + 1)
  }

  /** How many publishes of such a poll return normally, and whether it was cut short. */
  function Tally(cfg: Config, c: Core, w: Worker, ms: seq<Message>, wx: Weather, k: nat): (nat, bool)
    decreases |ms|
  {
    if ms == [] then (0, false)
    else
      var o := OutcomeOf(c.queue, wx.reply(k), wx.diskOk(k));
      var es := PublishEvents(w, ms[0], wx.reply(k), wx.diskOk(k), wx.now, o);
      if o.RaisedFull? then (0, true)
      else
        var (n, full) := Tally(cfg, Replay(cfg, c, es), w, ms[1..], wx, k + 1);
        (n + if o.Returned? then 1 else 0, full)
  }

  /** Publishes what a read returned.  The poll ends early only when the outbox is full; a disk error costs
      one message. */
  method PublishReadings(p: Poll, readings: seq<Reading>, publisher: ResilientPublisher, wx: Weather,
                         ghost cfg: Config, ghost base: Core, ghost w: Worker)
    returns (published: nat, full: bool)
    requires publisher.Valid() && w in base.workers && base.workers[w].Polling?
    modifies publisher, publisher.broker, publisher.outbox
    ensures publisher.Valid()
    ensures var ms := Outgoing(p, readings, 0);
      && Replay(cfg, old(publisher.View(base)), PollEvents(cfg, old(publisher.View(base)), w, ms, wx, 0))
           == publisher.View(if full then base.(workers := base.workers - {w}) else base)
      && (published, full) == Tally(cfg, old(publisher.View(base)), w, ms, wx, 0)
  {
    hide PollEvents, Tally, Ahead, Replay, PublishEvents, Outgoing, MessageFor;
    published, full := 0, false;
    var i, k := 0, 0;
    ghost var c0, ms := publisher.View(base), Outgoing(p, readings, 0);
    assert readings[0..] == readings;
    AheadAtStart(cfg, c0, w, ms, wx);
    while i < |readings|
      invariant i <= |readings| && publisher.Valid() && !full
      invariant Ahead(cfg, c0, publisher.View(base), w, ms, Outgoing(p, readings[i..], k), wx, k, published)
    {
      ghost var c, rest := publisher.View(base), Outgoing(p, readings[i + 1..], k + 1);
      NextReading(p, readings, i, k);
      if !readings[i].quality.NoChange? {
        var m := MessageFor(p.gateway, p.device, readings[i], p.ids(k), p.correlation, p.at);
        var o := publisher.Publish(m, wx.reply(k), wx.diskOk(k), wx.now, cfg, base, w);
        AheadStep(cfg, c0, c, w, ms, m, rest, wx, k, published);
        if o.RaisedFull? {
          full := true;
          return;
        }
        if o.Returned? {
          published := published + 1;
        }
        k := k + 1;
      }
      i := i + 1;
    }
    AheadAtEnd(cfg, c0, publisher.View(base), w, ms, p, readings[i..], wx, k, published);
  }

  /** After part of a poll, what is left of it from here is what is left of the whole from its start. */
  ghost predicate Ahead(cfg: Config, c0: Core, c: Core, w: Worker, all: seq<Message>, rest: seq<Message>, wx: Weather,
                        k: nat, published: nat)
  {
    && Replay(cfg, c0, PollEvents(cfg, c0, w, all, wx, 0)) == Replay(cfg, c, PollEvents(cfg, c, w, rest, wx, k))
    && Tally(cfg, c0, w, all, wx, 0).1 == Tally(cfg, c, w, rest, wx, k).1
    && Tally(cfg, c0, w, all, wx, 0).0 == published + Tally(cfg, c, w, rest, wx, k).0
  }

  lemma NextReading(p: Poll, readings: seq<Reading>, i: nat, k: nat)
    requires i < |readings|
    ensures Outgoing(p, readings[i..], k) ==
      if readings[i].quality.NoChange? then Outgoing(p, readings[i + 1..], k)
      else [MessageFor(p.gateway, p.device, readings[i], p.ids(k), p.correlation, p.at)]
           + Outgoing(p, readings[i + 1..], k + 1)
  {
    assert readings[i..][0] == readings[i] && readings[i..][1..] == readings[i + 1..];
  }

  lemma AheadAtStart(cfg: Config, c: Core, w: Worker, ms: seq<Message>, wx: Weather)
    ensures Ahead(cfg, c, c, w, ms, ms, wx, 0, 0)
  {}

  /** One more publish: the poll goes on from the state it leaves, or is cut short there. */
  lemma AheadStep(cfg: Config, c0: Core, c: Core, w: Worker, all: seq<Message>, m: Message, rest: seq<Message>,
                  wx: Weather, k: nat, published: nat)
    requires Ahead(cfg, c0, c, w, all, [m] + rest, wx, k, published)
    ensures var o := OutcomeOf(c.queue, wx.reply(k), wx.diskOk(k));
      var n := Replay(cfg, c, PublishEvents(w, m, wx.reply(k), wx.diskOk(k), wx.now, o));
      if o.RaisedFull? then
        Replay(cfg, c0, PollEvents(cfg, c0, w, all, wx, 0)) == n && (published, true) == Tally(cfg, c0, w, all, wx, 0)
      else Ahead(cfg, c0, n, w, all, rest, wx, k + 1, published + if o.Returned? then 1 else 0)
  {
    hide Replay, PublishEvents;
    var o := OutcomeOf(c.queue, wx.reply(k), wx.diskOk(k));
    var es := PublishEvents(w, m, wx.reply(k), wx.diskOk(k), wx.now, o);
    var n := Replay(cfg, c, es);
    assert ([m] + rest)[0] == m && ([m] + rest)[1..] == rest;
    if !o.RaisedFull? { ReplayConcat(cfg, c, es, PollEvents(cfg, n, w, rest, wx, k + 1)); }
  }

  lemma AheadAtEnd(cfg: Config, c0: Core, c: Core, w: Worker, all: seq<Message>, p: Poll, readings: seq<Reading>,
                   wx: Weather, k: nat, published: nat)
    requires readings == [] && Ahead(cfg, c0, c, w, all, Outgoing(p, readings, k), wx, k, published)
    ensures Replay(cfg, c0, PollEvents(cfg, c0, w, all, wx, 0)) == c
      && (published, false) == Tally(cfg, c0, w, all, wx, 0)
  {}

  lemma {:induction false} ReplayConcat(cfg: Config, c: Core, a: seq<Event>, b: seq<Event>)
    ensures Replay(cfg, c, a + b) == Replay(cfg, Replay(cfg, c, a), b)
    decreases |a|
  {
    if a == [] {
      assert a + b == b;
    } else {
      assert (a + b)[1..] == a[1..] + b;
      ReplayConcat(cfg, Step(cfg, c, a[0]), a[1..], b);
    }
  }

  /** One device's poll: a read, then its publishes.  A read that raises, as it does when the device's master cannot
      be set up, publishes nothing. */
  method PollDevice(p: Poll, signals: seq<Signal>, reader: DeviceLink.TelemetryReader, readAt: real,
                    masterOk: bool, publisher: ResilientPublisher, wx: Weather,
                    ghost cfg: Config, ghost base: Core, ghost w: Worker)
    returns (published: nat, full: bool)
    requires publisher.Valid() && w in base.workers && base.workers[w].Polling?
    modifies reader.cache, publisher, publisher.broker, publisher.outbox
    ensures publisher.Valid()
    ensures var c, limit := old(reader.cache.Value()),
      DeviceLink.StaleAfter(reader.baselineInterval, reader.scanInterval);
      var polled := signals != [] && masterOk;
      var ms := if polled then Outgoing(p, DeviceLink.Readings(c, limit, readAt, signals), 0) else [];
      && reader.cache.Value() == (if polled then DeviceLink.AfterRead(c, limit, readAt, signals) else c)
      && Replay(cfg, old(publisher.View(base)), PollEvents(cfg, old(publisher.View(base)), w, ms, wx, 0))
           == publisher.View(if full then base.(workers := base.workers - {w}) else base)
      && (published, full) == Tally(cfg, old(publisher.View(base)), w, ms, wx, 0)
  {
    hide DeviceLink.Readings, DeviceLink.AfterRead, Tally, PollEvents;
    if signals == [] || !masterOk {
      NothingToSend(cfg, publisher.View(base), w, wx);
      return 0, false;
    }
    var readings, polled := reader.ReadDevice(signals, readAt);
    published, full := PublishReadings(p, readings, publisher, wx, cfg, base, w);
  }

  lemma NothingToSend(cfg: Config, c: Core, w: Worker, wx: Weather)
    ensures Replay(cfg, c, PollEvents(cfg, c, w, [], wx, 0)) == c && Tally(cfg, c, w, [], wx, 0) == (0, false)
  {}

  // ----- the messages a worker sends, in any interleaving -----

  predicate Sends(s: Sys, e: Event, w: Worker) { e.Send? && e.w == w && InPhase(s.core, w, true) }

  function SentBy(cfg: Config, s: Sys, es: seq<Event>, w: Worker): seq<Message>
    decreases |es|
  {
    if es == [] then []
    else (if Sends(s, es[0], w) then [es[0].mail] else []) + SentBy(cfg, Delivery.Next(cfg, s, es[0]), es[1..], w)
  }

  lemma {:induction false} SentByConcat(cfg: Config, s: Sys, a: seq<Event>, b: seq<Event>, w: Worker)
    ensures SentBy(cfg, s, a + b, w) == SentBy(cfg, s, a, w) + SentBy(cfg, Delivery.Exec(cfg, s, a), b, w)
    decreases |a|
  {
    hide Delivery.Next, Sends;
    if a == [] {
      assert a + b == b;
    } else {
      assert (a + b)[0] == a[0] && (a + b)[1..] == a[1..] + b;
      SentByConcat(cfg, Delivery.Next(cfg, s, a[0]), a[1..], b, w);
    }
  }

  /** The process lives on and no publish of the worker raises. */
  predicate Unraised(es: seq<Event>, w: Worker) {
    forall i :: 0 <= i < |es| ==> !es[i].Restart? && es[i] != Raise(w)
  }

  /** The message was accepted, or the worker still has it in hand. */
  ghost predicate Accounted(s: Sys, w: Worker, m: Message) {
    m in s.hist.accepted || (w in s.core.workers && !s.core.workers[w].Polling? && s.core.workers[w].mail == m)
  }

  lemma AccountedStep(cfg: Config, s: Sys, e: Event, w: Worker, m: Message)
    requires Accounted(s, w, m) && !e.Restart? && e != Raise(w)
    ensures Accounted(Delivery.Next(cfg, s, e), w, m)
  {}

  lemma {:induction false} AccountedStays(cfg: Config, s: Sys, es: seq<Event>, w: Worker, m: Message)
    requires Accounted(s, w, m) && Unraised(es, w)
    ensures Accounted(Delivery.Exec(cfg, s, es), w, m)
    decreases |es|
  {
    if es != [] {
      AccountedStep(cfg, s, es[0], w, m);
      AccountedStays(cfg, Delivery.Next(cfg, s, es[0]), es[1..], w, m);
    }
  }

  /** Whatever the retrier and other workers do in between, all that a worker sends is accepted unless a publish of its
      raises or the process dies. */
  lemma {:induction false} SentIsAccounted(cfg: Config, s: Sys, es: seq<Event>, w: Worker, m: Message)
    requires Unraised(es, w) && m in SentBy(cfg, s, es, w)
    ensures Accounted(Delivery.Exec(cfg, s, es), w, m)
    decreases |es|
  {
    var n := Delivery.Next(cfg, s, es[0]);
    if Sends(s, es[0], w) && es[0].mail == m {
      AccountedStays(cfg, n, es[1..], w, m);
    } else {
      SentIsAccounted(cfg, n, es[1..], w, m);
    }
  }

  lemma SettledStep(cfg: Config, s: Sys, e: Event, w: Worker, m: Message)
    requires (Accounted(s, w, m) || m in s.hist.refused) && !e.Restart?
    ensures var n := Delivery.Next(cfg, s, e); Accounted(n, w, m) || m in n.hist.refused
  {
    if m !in s.hist.refused && e != Raise(w) { AccountedStep(cfg, s, e, w, m); }
  }

  lemma {:induction false} SettledStays(cfg: Config, s: Sys, es: seq<Event>, w: Worker, m: Message)
    requires (Accounted(s, w, m) || m in s.hist.refused) && forall i :: 0 <= i < |es| ==> !es[i].Restart?
    ensures var n := Delivery.Exec(cfg, s, es); Accounted(n, w, m) || m in n.hist.refused
    decreases |es|
  {
    hide Delivery.Next;
    if es != [] {
      SettledStep(cfg, s, es[0], w, m);
      SettledStays(cfg, Delivery.Next(cfg, s, es[0]), es[1..], w, m);
    }
  }

  /** While the process lives, all that a worker sends is accepted, refused or still in its hands. */
  lemma {:induction false} SentIsSettled(cfg: Config, s: Sys, es: seq<Event>, w: Worker, m: Message)
    requires m in SentBy(cfg, s, es, w) && forall i :: 0 <= i < |es| ==> !es[i].Restart?
    ensures var n := Delivery.Exec(cfg, s, es); Accounted(n, w, m) || m in n.hist.refused
    decreases |es|
  {
    var n := Delivery.Next(cfg, s, es[0]);
    if Sends(s, es[0], w) && es[0].mail == m {
      SettledStays(cfg, n, es[1..], w, m);
    } else {
      SentIsSettled(cfg, n, es[1..], w, m);
    }
  }

  /** An undisturbed poll sends its messages in order, all of them unless it was cut short; when each publish returns,
      none raised. */
  lemma {:induction false} PollSends(cfg: Config, s: Sys, w: Worker, ms: seq<Message>, wx: Weather, k: nat)
    requires w in s.core.workers && s.core.workers[w].Polling?
    ensures var es, (n, full) := PollEvents(cfg, s.core, w, ms, wx, k), Tally(cfg, s.core, w, ms, wx, k);
      && SentBy(cfg, s, es, w) <= ms && n <= |ms|
      && (!full ==> SentBy(cfg, s, es, w) == ms)
      && (n == |ms| ==> Unraised(es, w) && !full)
    decreases |ms|
  {
    hide Delivery.Next, Replay, PublishEvents, OutcomeOf;
    if ms != [] {
      var o := OutcomeOf(s.core.queue, wx.reply(k), wx.diskOk(k));
      var es := PublishEvents(w, ms[0], wx.reply(k), wx.diskOk(k), wx.now, o);
      OneSend(cfg, s, w, ms[0], wx, k);
      var n := Delivery.Exec(cfg, s, es);
      ReplayIsExec(cfg, s.core, s.hist, es);
      if !o.RaisedFull? {
        PollSends(cfg, n, w, ms[1..], wx, k + 1);
        SentByConcat(cfg, s, es, PollEvents(cfg, n.core, w, ms[1..], wx, k + 1), w);
        assert [ms[0]] + ms[1..] == ms;
      }
    }
  }

  lemma OneSend(cfg: Config, s: Sys, w: Worker, m: Message, wx: Weather, k: nat)
    requires w in s.core.workers && s.core.workers[w].Polling?
    ensures var o := OutcomeOf(s.core.queue, wx.reply(k), wx.diskOk(k));
      var es := PublishEvents(w, m, wx.reply(k), wx.diskOk(k), wx.now, o);
      && SentBy(cfg, s, es, w) == [m]
      && (!o.RaisedFull? ==>
            w in Delivery.Exec(cfg, s, es).core.workers && Delivery.Exec(cfg, s, es).core.workers[w].Polling?)
      && (o.Returned? ==> Unraised(es, w))
  {
    var o := OutcomeOf(s.core.queue, wx.reply(k), wx.diskOk(k));
    var es := PublishEvents(w, m, wx.reply(k), wx.diskOk(k), wx.now, o);
    PublishIsRun(cfg, s.core, w, m, wx.reply(k), wx.diskOk(k), wx.now, o);
    ReplayIsExec(cfg, s.core, s.hist, es);
    var s1 := Delivery.Next(cfg, s, es[0]);
    assert SentBy(cfg, s1, es[1..], w) == [] by { NoMoreSends(cfg, s1, es[1..], w); }
  }

  lemma {:induction false} NoMoreSends(cfg: Config, s: Sys, es: seq<Event>, w: Worker)
    requires forall i :: 0 <= i < |es| ==> !es[i].Send?
    ensures SentBy(cfg, s, es, w) == []
    decreases |es|
  {
    if es != [] { NoMoreSends(cfg, Delivery.Next(cfg, s, es[0]), es[1..], w); }
  }

  // ----- what a raising publish costs -----

  /** How the publishes of an undisturbed poll end, up to the one that cuts it short. */
  function Outcomes(cfg: Config, c: Core, w: Worker, ms: seq<Message>, wx: Weather, k: nat): seq<Outcome>
    decreases |ms|
  {
    if ms == [] then []
    else
      var o := OutcomeOf(c.queue, wx.reply(k), wx.diskOk(k));
      if o.RaisedFull? then [o]
      else
        var es := PublishEvents(w, ms[0], wx.reply(k), wx.diskOk(k), wx.now, o);
        [o] + Outcomes(cfg, Replay(cfg, c, es), w, ms[1..], wx, k + 1)
  }

  /** The message's publish ended this way. */
  ghost predicate Ended(ms: seq<Message>, os: seq<Outcome>, m: Message, returned: bool) {
    exists i :: 0 <= i < |ms| && i < |os| && ms[i] == m && (os[i].Returned? <==> returned)
  }

  lemma EndedFirst(ms: seq<Message>, o: Outcome, os: seq<Outcome>, m: Message, returned: bool)
    requires ms != []
    ensures Ended(ms, [o] + os, m, returned)
      <==> (ms[0] == m && (o.Returned? <==> returned)) || Ended(ms[1..], os, m, returned)
  {
    var all := [o] + os;
    if i :| 0 <= i < |ms| && i < |all| && ms[i] == m && (all[i].Returned? <==> returned) {
      if i > 0 { assert ms[1..][i - 1] == m && os[i - 1] == all[i]; }
    }
    if ms[0] == m && (o.Returned? <==> returned) { assert all[0] == o; }
    if i :| 0 <= i < |ms[1..]| && i < |os| && ms[1..][i] == m && (os[i].Returned? <==> returned) {
      assert ms[i + 1] == m && all[i + 1] == os[i];
    }
  }

  /** A poll makes publishes in order until one finds the outbox full; of its messages exactly those whose publish
      returned are accepted, those whose publish raised are refused, and the rest are not sent at all. */
  lemma {:induction false} PollAccepts(cfg: Config, s: Sys, w: Worker, ms: seq<Message>, wx: Weather, k: nat)
    requires w in s.core.workers && s.core.workers[w].Polling?
    ensures var os, n := Outcomes(cfg, s.core, w, ms, wx, k),
        Delivery.Exec(cfg, s, PollEvents(cfg, s.core, w, ms, wx, k));
      && |os| <= |ms| && SentBy(cfg, s, PollEvents(cfg, s.core, w, ms, wx, k), w) == ms[..|os|]
      && (forall i :: 0 <= i < |os| ==> (os[i].RaisedFull? ==> i == |os| - 1))
      && (|os| < |ms| ==> os != [] && os[|os| - 1].RaisedFull?)
      && (forall m :: m in n.hist.accepted <==> m in s.hist.accepted || Ended(ms, os, m, true))
      && (forall m :: m in n.hist.refused <==> m in s.hist.refused || Ended(ms, os, m, false))
    decreases |ms|
  {
    hide Delivery.Next, Replay, PublishEvents, OutcomeOf, Ended;
    if ms == [] {
      NoneEnded([]);
    } else {
      var o := OutcomeOf(s.core.queue, wx.reply(k), wx.diskOk(k));
      var es := PublishEvents(w, ms[0], wx.reply(k), wx.diskOk(k), wx.now, o);
      OneSend(cfg, s, w, ms[0], wx, k);
      OneAccepted(cfg, s, w, ms[0], wx, k);
      var n := Delivery.Exec(cfg, s, es);
      ReplayIsExec(cfg, s.core, s.hist, es);
      if o.RaisedFull? {
        NoneEnded(ms[1..]);
        forall m, b ensures Ended(ms, [o], m, b) <==> ms[0] == m && (o.Returned? <==> b) {
          EndedFirst(ms, o, [], m, b);
          assert [o] + [] == [o];
        }
      } else {
        var rest := PollEvents(cfg, n.core, w, ms[1..], wx, k + 1);
        PollAccepts(cfg, n, w, ms[1..], wx, k + 1);
        SentByConcat(cfg, s, es, rest, w);
        Delivery.ExecConcat(cfg, s, es, rest);
        var os := Outcomes(cfg, n.core, w, ms[1..], wx, k + 1);
        assert [ms[0]] + ms[1..][..|os|] == ms[..|os| + 1];
        forall m, b ensures
          Ended(ms, [o] + os, m, b) <==> (ms[0] == m && (o.Returned? <==> b)) || Ended(ms[1..], os, m, b)
        {
          EndedFirst(ms, o, os, m, b);
        }
      }
    }
  }

  function ReturnedAmong(os: seq<Outcome>): nat {
    if os == [] then 0 else (if os[0].Returned? then 1 else 0) + ReturnedAmong(os[1..])
  }

  /** The poll's count is the number of its publishes that returned, and it was cut short exactly when the last one made
      found the outbox full. */
  lemma {:induction false} TallyCounts(cfg: Config, c: Core, w: Worker, ms: seq<Message>, wx: Weather, k: nat)
    ensures var os, (n, full) := Outcomes(cfg, c, w, ms, wx, k), Tally(cfg, c, w, ms, wx, k);
      n == ReturnedAmong(os) && (full <==> os != [] && os[|os| - 1].RaisedFull?)
    decreases |ms|
  {
    hide Replay, PublishEvents, OutcomeOf;
    if ms != [] {
      var o := OutcomeOf(c.queue, wx.reply(k), wx.diskOk(k));
      var es := PublishEvents(w, ms[0], wx.reply(k), wx.diskOk(k), wx.now, o);
      if o.RaisedFull? {
        assert ReturnedAmong([o]) == 0 + ReturnedAmong([]);
      } else {
        TallyCounts(cfg, Replay(cfg, c, es), w, ms[1..], wx, k + 1);
        var rest := Outcomes(cfg, Replay(cfg, c, es), w, ms[1..], wx, k + 1);
        assert ([o] + rest)[1..] == rest;
      }
    }
  }

  lemma NoneEnded(ms: seq<Message>)
    ensures forall m, b :: !Ended(ms, [], m, b)
  {}

  lemma OneAccepted(cfg: Config, s: Sys, w: Worker, m: Message, wx: Weather, k: nat)
    requires w in s.core.workers && s.core.workers[w].Polling?
    ensures var o := OutcomeOf(s.core.queue, wx.reply(k), wx.diskOk(k));
      var h := Delivery.Exec(cfg, s, PublishEvents(w, m, wx.reply(k), wx.diskOk(k), wx.now, o)).hist;
      && h.accepted == (if o.Returned? then s.hist.accepted + {m} else s.hist.accepted)
      && h.refused == (if o.Returned? then s.hist.refused else s.hist.refused + {m})
  {
    var o := OutcomeOf(s.core.queue, wx.reply(k), wx.diskOk(k));
    var es := PublishEvents(w, m, wx.reply(k), wx.diskOk(k), wx.now, o);
    var s1 := Delivery.Next(cfg, s, es[0]);
    var s2 := Delivery.Next(cfg, s1, es[1]);
    assert Delivery.Exec(cfg, s, es) == Delivery.Exec(cfg, s1, es[1..]) == Delivery.Exec(cfg, s2, es[1..][1..]);
    if !o.Returned? {
      assert Delivery.Exec(cfg, s2, es[1..][1..]) == Delivery.Exec(cfg, Delivery.Next(cfg, s2, es[2]), []);
    }
  }

  // ----- which messages name a signal -----

  function Naming(ms: seq<Message>, key: string): seq<Message> {
    if ms == [] then [] else (if ms[0].payload.signalKey == key then [ms[0]] else []) + Naming(ms[1..], key)
  }

  lemma {:induction false} NamingNone(p: Poll, readings: seq<Reading>, k: nat, key: string)
    requires forall i :: 0 <= i < |readings| ==> readings[i].signalKey != key
    ensures Naming(Outgoing(p, readings, k), key) == []
    decreases |readings|
  {
    if readings != [] {
      NamingNone(p, readings[1..], k, key);
      NamingNone(p, readings[1..], k + 1, key);
      if !readings[0].quality.NoChange? { assert Outgoing(p, readings, k)[1..] == Outgoing(p, readings[1..], k + 1); }
    }
  }

  /** A changed reading whose signal occurs once gives exactly one message. */
  lemma {:induction false} NamingOne(p: Poll, readings: seq<Reading>, k: nat, q: nat) returns (n: nat)
    requires q < |readings| && !readings[q].quality.NoChange?
    requires forall i :: 0 <= i < |readings| && i != q ==> readings[i].signalKey != readings[q].signalKey
    ensures Naming(Outgoing(p, readings, k), readings[q].signalKey)
         == [MessageFor(p.gateway, p.device, readings[q], p.ids(n), p.correlation, p.at)]
    decreases |readings|
  {
    var rest := readings[1..];
    if !readings[0].quality.NoChange? { assert Outgoing(p, readings, k)[1..] == Outgoing(p, rest, k + 1); }
    if q == 0 {
      NamingNone(p, rest, k + 1, readings[0].signalKey);
      n := k;
    } else {
      assert rest[q - 1] == readings[q];
      n := NamingOne(p, rest, if readings[0].quality.NoChange? then k else k + 1, q - 1);
    }
  }

  lemma {:induction false} NamedIsSent(ms: seq<Message>, key: string, m: Message)
    requires m in Naming(ms, key)
    ensures m in ms
  {
    if ms[0] != m { NamedIsSent(ms[1..], key, m); }
  }

  // ----- a field change marks its point until a read publishes it -----

  function Known(c: DeviceLink.Cache, p: Point): Option<Value> { if p in c.values then Some(c.values[p]) else None }

  /** No read takes catalogue signal `q` during the run. */
  predicate NotTaken(s: LinkRecovery.Setup, l: LinkRecovery.Link, es: seq<LinkRecovery.Event>, q: nat)
    decreases |es|
  {
    es == [] || (!LinkTheorems.Takes(s, l, es[0], q) && NotTaken(s, LinkRecovery.Next(s, l, es[0]), es[1..], q))
  }

  lemma FrameKeepsMark(c: DeviceLink.Cache, p: Point, before: Option<Value>, at: Point, v: Value, now: real)
    requires p in c.dirty || Known(c, p) == before
    ensures var n := DeviceLink.Written(c, at, v, now); p in n.dirty || Known(n, p) == before
  {}

  lemma ChangedStep(s: LinkRecovery.Setup, l: LinkRecovery.Link, e: LinkRecovery.Event, q: nat, before: Option<Value>)
    requires LinkRecovery.DistinctPoints(s.cat) && q < |s.cat| && !LinkTheorems.Takes(s, l, e, q)
    requires s.cat[q].point in l.cache.dirty || Known(l.cache, s.cat[q].point) == before
    ensures var c := LinkRecovery.Next(s, l, e).cache;
      s.cat[q].point in c.dirty || Known(c, s.cat[q].point) == before
  {
    if e.Frame? { FrameKeepsMark(l.cache, s.cat[q].point, before, e.p, e.v, LinkRecovery.Now(l, e.at)); }
  }

  /** Once changed, a point keeps its mark as long as no read takes its signal. */
  lemma {:induction false} ChangedStaysMarked(s: LinkRecovery.Setup, l: LinkRecovery.Link, es: seq<LinkRecovery.Event>,
                                              q: nat, before: Option<Value>)
    requires LinkRecovery.DistinctPoints(s.cat) && q < |s.cat| && NotTaken(s, l, es, q)
    requires s.cat[q].point in l.cache.dirty || Known(l.cache, s.cat[q].point) == before
    ensures var c := LinkRecovery.Exec(s, l, es).cache;
      s.cat[q].point in c.dirty || Known(c, s.cat[q].point) == before
    decreases |es|
  {
    hide LinkRecovery.Next, LinkTheorems.Takes, Known;
    if es != [] {
      ChangedStep(s, l, es[0], q, before);
      ChangedStaysMarked(s, LinkRecovery.Next(s, l, es[0]), es[1..], q, before);
    }
  }

  /** The read that starts finds the device online, runs to its end and is the only one of the run. */
  predicate OnlinePoll(s: LinkRecovery.Setup, l: LinkRecovery.Link, at: real, es: seq<LinkRecovery.Event>) {
    && l.phase.Waiting? && DeviceLink.Judged(l.cache, s.limit, LinkRecovery.Now(l, at)).state.Online?
    && LinkTheorems.OneRead(es)
    && LinkRecovery.Exec(s, LinkRecovery.Next(s, l, LinkRecovery.ReadStart(at)), es).phase.Waiting?
  }

  function PollReadings(s: LinkRecovery.Setup, l: LinkRecovery.Link, at: real,
                        es: seq<LinkRecovery.Event>): seq<Reading> {
    LinkRecovery.Emissions(s, LinkRecovery.Next(s, l, LinkRecovery.ReadStart(at)), es)
  }

  /** The value cached for catalogue signal `q` when the poll takes it, after `t` events of the read. */
  ghost predicate TakenWith(s: LinkRecovery.Setup, l: LinkRecovery.Link, at: real, es: seq<LinkRecovery.Event>,
                            t: nat, q: nat, v: Value)
  {
    t < |es| && q < |s.cat| && var n := LinkRecovery.At(s, LinkRecovery.Next(s, l, LinkRecovery.ReadStart(at)), es, t);
    LinkTheorems.Takes(s, n, es[t], q) && Known(n.cache, s.cat[q].point) == Some(v)
  }

  /** A marked point's signal gets one good reading with the value cached when the read takes it, and no other reading
      of the poll has its key. */
  lemma MarkedIsRead(s: LinkRecovery.Setup, l: LinkRecovery.Link, at: real, es: seq<LinkRecovery.Event>, q: nat)
    returns (t: nat, v: Value)
    requires LinkRecovery.Proper(s) && OnlinePoll(s, l, at, es)
    requires q < |s.cat| && LinkTheorems.Marked(s, l, q)
    ensures TakenWith(s, l, at, es, t, q, v)
    ensures var out := PollReadings(s, l, at, es);
      && |out| == |s.cat| && out[q] == GoodReading(s.cat[q], v)
      && forall i :: 0 <= i < |out| && i != q ==> out[i].signalKey != s.cat[q].key
  {
    var n := LinkRecovery.Next(s, l, LinkRecovery.ReadStart(at));
    t := LinkTheorems.ReadPublishes(s, n, es, 0, q);
    v := LinkRecovery.At(s, n, es, t).cache.values[s.cat[q].point];
    LinkTheorems.EmissionsShape(s, n, es, 0);
    assert forall i :: 0 <= i < |s.cat| && i != q ==> s.cat[i].key != s.cat[q].key;
  }

  // ----- end to end -----

  /** A catalogue point whose cached value changed since some moment, with its signal not taken by a read meanwhile,
      is named by exactly one message of the next online poll, good and with the value cached when the poll takes it;
      frames, opens and closes may land anywhere, inside reads too.  When the poll's worker sends that poll's
      messages, interleaved with anything else, and no publish of it raises, that message is accepted; and in every
      later state it is in the broker's log, the outbox or the dead-letter table. */
  lemma {:induction false} FieldChangeIsKept(
      s: LinkRecovery.Setup, es: seq<LinkRecovery.Event>, b: nat, at: real, read: seq<LinkRecovery.Event>, q: nat,
      p: Poll, cfg: Config, maxPending: int, before: seq<Event>, during: seq<Event>, after: seq<Event>, w: Worker)
    returns (t: nat, v: Value, n: nat)
    requires LinkRecovery.Proper(s) && b <= |es| && q < |s.cat|
    requires var earlier := LinkRecovery.At(s, LinkRecovery.UNSEEN, es, b);
      var now := LinkRecovery.Exec(s, LinkRecovery.UNSEEN, es);
      && NotTaken(s, earlier, es[b..], q) && OnlinePoll(s, now, at, read)
      && s.cat[q].point in now.cache.values
      && Known(now.cache, s.cat[q].point) != Known(earlier.cache, s.cat[q].point)
    requires var out := PollReadings(s, LinkRecovery.Exec(s, LinkRecovery.UNSEEN, es), at, read);
      PollSent(cfg, Delivery.Exec(cfg, First(cfg, maxPending), before), during, w, Outgoing(p, out, 0))
    ensures var now := LinkRecovery.Exec(s, LinkRecovery.UNSEEN, es);
      var m := MessageFor(p.gateway, p.device, GoodReading(s.cat[q], v), p.ids(n), p.correlation, p.at);
      && TakenWith(s, now, at, read, t, q, v)
      && Reports(m, p.gateway, p.device, s.cat[q], v)
      && Carries(m, p.gateway, p.device, GoodReading(s.cat[q], v), p.ids(n), p.correlation, p.at)
      && Naming(Outgoing(p, PollReadings(s, now, at, read), 0), s.cat[q].key) == [m]
      && m in Delivery.Exec(cfg, First(cfg, maxPending), before + during).hist.accepted
      && DeliveryTheorems.Held(Delivery.Exec(cfg, First(cfg, maxPending), before + during + after).core, m)
  {
    hide PollReadings, Outgoing, DeliveryTheorems.Held, MessageFor, OnlinePoll, PollSent, TakenWith;
    var earlier := LinkRecovery.At(s, LinkRecovery.UNSEEN, es, b);
    var now := LinkRecovery.Exec(s, LinkRecovery.UNSEEN, es);
    assert es[..|es|] == es;
    LinkRecovery.AtLater(s, LinkRecovery.UNSEEN, es, b, |es|);
    ChangedStaysMarked(s, earlier, es[b..], q, Known(earlier.cache, s.cat[q].point));
    t, v := MarkedIsRead(s, now, at, read, q);
    hide Reports, Carries, GoodReading;
    n := PollKeepsReading(PollReadings(s, now, at, read), q, p, cfg, maxPending, before, during, after, w);
    GoodMessageReports(p.gateway, p.device, s.cat[q], v, p.ids(n), p.correlation, p.at);
  }

  /** The worker sends exactly these messages, no publish of it raises, and at the end it has none in hand. */
  predicate PollSent(cfg: Config, s: Sys, es: seq<Event>, w: Worker, ms: seq<Message>) {
    && SentBy(cfg, s, es, w) == ms && Unraised(es, w)
    && var c := Delivery.Exec(cfg, s, es).core; w in c.workers ==> c.workers[w].Polling?
  }

  lemma PollKeepsReading(out: seq<Reading>, q: nat, p: Poll, cfg: Config, maxPending: int,
                         before: seq<Event>, during: seq<Event>, after: seq<Event>, w: Worker) returns (n: nat)
    requires q < |out| && !out[q].quality.NoChange?
    requires forall i :: 0 <= i < |out| && i != q ==> out[i].signalKey != out[q].signalKey
    requires PollSent(cfg, Delivery.Exec(cfg, First(cfg, maxPending), before), during, w, Outgoing(p, out, 0))
    ensures var m := MessageFor(p.gateway, p.device, out[q], p.ids(n), p.correlation, p.at);
      && Naming(Outgoing(p, out, 0), out[q].signalKey) == [m]
      && m in Delivery.Exec(cfg, First(cfg, maxPending), before + during).hist.accepted
      && DeliveryTheorems.Held(Delivery.Exec(cfg, First(cfg, maxPending), before + during + after).core, m)
  {
    hide Outgoing, DeliveryTheorems.Held, MessageFor, Delivery.Step, Delivery.Note;
    n := NamingOne(p, out, 0, q);
    var m := MessageFor(p.gateway, p.device, out[q], p.ids(n), p.correlation, p.at);
    assert m in [m];
    NamedIsSent(Outgoing(p, out, 0), out[q].signalKey, m);
    var sys := Delivery.Exec(cfg, First(cfg, maxPending), before);
    SentIsAccounted(cfg, sys, during, w, m);
    Delivery.ExecConcat(cfg, First(cfg, maxPending), before, during);
    DeliveryTheorems.Conservation(cfg, maxPending, before + during, after, m);
  }

  // ----- a refused change is lost -----

  lemma QuietStep(s: LinkRecovery.Setup, l: LinkRecovery.Link, e: LinkRecovery.Event, q: nat)
    requires q < |s.cat| && s.cat[q].point !in l.cache.dirty && !l.cache.pending && !e.Frame?
    ensures var c := LinkRecovery.Next(s, l, e).cache; s.cat[q].point !in c.dirty && !c.pending
  {
    hide DeviceLink.Written, LinkRecovery.Seen;
  }

  /** Without a further frame an unmarked point is not published again, whatever opens, closes and reads come. */
  lemma {:induction false} QuietNeverPublishes(s: LinkRecovery.Setup, l: LinkRecovery.Link, es: seq<LinkRecovery.Event>,
                                               q: nat, k: nat)
    requires q < |s.cat| && k < |es| && s.cat[q].point !in l.cache.dirty && !l.cache.pending
    requires forall i :: 0 <= i < |es| ==> !es[i].Frame?
    ensures !LinkTheorems.TakesGood(s, LinkRecovery.At(s, l, es, k), es[k], q)
    decreases |es|
  {
    hide LinkRecovery.Next;
    if k == 0 {
      assert es[..0] == [];
    } else {
      QuietStep(s, l, es[0], q);
      LinkRecovery.AtRest(s, l, es, k - 1);
      QuietNeverPublishes(s, LinkRecovery.Next(s, l, es[0]), es[1..], q, k - 1);
    }
  }

  lemma {:induction false} NothingOutgoing(p: Poll, readings: seq<Reading>, k: nat)
    requires forall i :: 0 <= i < |readings| ==> readings[i].quality.NoChange?
    ensures Outgoing(p, readings, k) == []
    decreases |readings|
  {
    if readings != [] { NothingOutgoing(p, readings[1..], k); }
  }

  /** The link after a device answered with one frame for the first catalogue point. */
  function OneChange(s: LinkRecovery.Setup, v: Value): LinkRecovery.Link
    requires s.cat != []
  {
    LinkRecovery.Exec(s, LinkRecovery.UNSEEN, [LinkRecovery.Open(2.0), LinkRecovery.Frame(s.cat[0].point, v, 3.0)])
  }

  /** The poll of that change is online and sends one message for it; its read takes the mark away. */
  lemma OneChangePoll(s: LinkRecovery.Setup, v: Value, p: Poll)
    requires LinkRecovery.Proper(s) && s.cat != [] && s.limit >= 60
    ensures var l, read := OneChange(s, v), LinkRecovery.Nexts(|s.cat|);
      var after := LinkRecovery.Exec(s, LinkRecovery.Next(s, l, LinkRecovery.ReadStart(4.0)), read);
      && OnlinePoll(s, l, 4.0, read) && s.cat[0].point !in after.cache.dirty && !after.cache.pending
      && Outgoing(p, PollReadings(s, l, 4.0, read), 0)
           == [MessageFor(p.gateway, p.device, GoodReading(s.cat[0], v), p.ids(0), p.correlation, p.at)]
  {
    var l, read, pt := OneChange(s, v), LinkRecovery.Nexts(|s.cat|), s.cat[0].point;
    var es := [LinkRecovery.Open(2.0), LinkRecovery.Frame(pt, v, 3.0)];
    var l1 := LinkRecovery.Next(s, LinkRecovery.UNSEEN, es[0]);
    assert l == LinkRecovery.Exec(s, l1, es[1..]) == LinkRecovery.Exec(s, LinkRecovery.Next(s, l1, es[1]), []);
    var n := LinkRecovery.Next(s, l, LinkRecovery.ReadStart(4.0));
    LinkRecovery.ReadIsRun(s, l, 4.0);
    assert LinkRecovery.ReadEvents(s, 4.0)[1..] == read;
    LinkRecovery.ReadingsAreEmissions(s, l, 4.0);
    var b := DeviceLink.ReadBegun(l.cache, s.limit, 4.0);
    DeviceLink.EmitKeepsRest(b, s.cat);
    assert s.cat[0].point == pt;
    var out := PollReadings(s, l, 4.0, read);
    DeviceLink.EmitExactly(b, s.cat, 0);
    forall i | 1 <= i < |out| ensures out[i].quality.NoChange? { DeviceLink.EmitExactly(b, s.cat, i); }
    NothingOutgoing(p, out[1..], 1);
  }

  /** A change read while the broker fails and the disk refuses its message: the message is nowhere, and no read
      publishes the point again until a further frame arrives. */
  lemma RefusedChangeIsLost(s: LinkRecovery.Setup, v: Value, p: Poll, cfg: Config, maxPending: int, error: BrokerError,
                            later: seq<LinkRecovery.Event>, k: nat)
    requires LinkRecovery.Proper(s) && s.cat != [] && s.limit >= 60
    requires k < |later| && forall i :: 0 <= i < |later| ==> !later[i].Frame?
    ensures var l, read := OneChange(s, v), LinkRecovery.Nexts(|s.cat|);
      var m := MessageFor(p.gateway, p.device, GoodReading(s.cat[0], v), p.ids(0), p.correlation, p.at);
      var after := LinkRecovery.Exec(s, LinkRecovery.Next(s, l, LinkRecovery.ReadStart(4.0)), read);
      var sys := Delivery.Exec(cfg, First(cfg, maxPending), DeliveryProgress.DiskFailure(m, error));
      && OnlinePoll(s, l, 4.0, read) && Outgoing(p, PollReadings(s, l, 4.0, read), 0) == [m]
      && m in sys.hist.refused && !DeliveryTheorems.Held(sys.core, m)
      && !LinkTheorems.TakesGood(s, LinkRecovery.At(s, after, later, k), later[k], 0)
  {
    hide PollReadings, Outgoing, OnlinePoll, MessageFor, DeliveryProgress.DiskFailure, Delivery.Exec;
    var l, read := OneChange(s, v), LinkRecovery.Nexts(|s.cat|);
    var m := MessageFor(p.gateway, p.device, GoodReading(s.cat[0], v), p.ids(0), p.correlation, p.at);
    OneChangePoll(s, v, p);
    var after := LinkRecovery.Exec(s, LinkRecovery.Next(s, l, LinkRecovery.ReadStart(4.0)), read);
    QuietNeverPublishes(s, after, later, 0, k);
    DeliveryProgress.DiskErrorLatches(cfg, maxPending, m, error, []);
  }
}
