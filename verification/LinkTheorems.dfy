/** What holds of every run of a device's link. */
module LinkTheorems {
  import opened Prelude
  import opened Telemetry
  import opened DeviceLink
  import opened LinkRecovery

  // ----- the consumer's view -----

  ghost predicate ViewSound(s: Setup) {
    forall es :: ViewOk(s.cat, Exec(s, UNSEEN, es).cache, Exec(s, UNSEEN, es).view)
  }

  /** Over every run, with callbacks landing between any two signals of a read, every known unmarked point was last
      seen with its current value unless an outage stands announced, and only known points are ever marked. */
  lemma ViewRefinement(s: Setup, es: seq<Event>)
    requires Proper(s)
    ensures var l := Exec(s, UNSEEN, es);
      ViewOk(s.cat, l.cache, l.view) && l.cache.dirty <= l.cache.values.Keys
  {
    RunKeeps(s, UNSEEN, es);
  }

  /** Open, one frame for the point, one read. */
  function AliasRun(s: Setup, p: Point, v: Value): seq<Event> {
    [Open(2.0), Frame(p, v, 3.0)] + ReadEvents(s, 4.0)
  }

  lemma SameKey(cat: seq<Signal>, i: nat, j: nat)
    requires DistinctKeys(cat) && i < |cat| && j < |cat| && cat[i].key == cat[j].key
    ensures i == j
  {}

  /** When two signals share a point, the first takes the mark and the second is never published. */
  lemma AliasHidden(s: Setup, i: nat, j: nat, v: Value)
    requires DistinctKeys(s.cat) && s.limit >= 60 && i < j < |s.cat| && s.cat[i].point == s.cat[j].point
    ensures var l := Exec(s, UNSEEN, AliasRun(s, s.cat[j].point, v));
      !ViewOk(s.cat, l.cache, l.view)
  {
    var p := s.cat[j].point;
    var l1 := Next(s, UNSEEN, Open(2.0));
    var l2 := Next(s, l1, Frame(p, v, 3.0));
    ExecConcat(s, UNSEEN, [Open(2.0), Frame(p, v, 3.0)], ReadEvents(s, 4.0));
    assert Exec(s, UNSEEN, [Open(2.0), Frame(p, v, 3.0)]) == Exec(s, l1, [Frame(p, v, 3.0)]) == Exec(s, l2, []) == l2;
    ReadIsRun(s, l2, 4.0);
    var b := ReadBegun(l2.cache, s.limit, 4.0);
    assert b.state.Online? && !b.announced && p in b.values && p in b.dirty;
    var out := EmittedAll(b, s.cat);
    EmitLength(b, s.cat);
    forall k | 0 <= k < |out| && out[k].signalKey == s.cat[j].key ensures out[k].quality.NoChange? {
      EmitExactly(b, s.cat, k);
      SameKey(s.cat, k, j);
    }
    SeenAt(map[], out, s.cat[j].key);
    EmitKeepsRest(b, s.cat);
  }

  /** The view is sound over all runs exactly for catalogues without two signals on one point. */
  lemma ViewSoundIffNoAlias(s: Setup)
    requires DistinctKeys(s.cat) && s.limit >= 60
    ensures ViewSound(s) <==> DistinctPoints(s.cat)
  {
    if DistinctPoints(s.cat) {
      forall es ensures ViewOk(s.cat, Exec(s, UNSEEN, es).cache, Exec(s, UNSEEN, es).view) {
        ViewRefinement(s, es);
      }
    } else {
      var i, j :| 0 <= i < j < |s.cat| && s.cat[i].point == s.cat[j].point;
      AliasHidden(s, i, j, Value(0.0, None));
    }
  }

  // ----- the machine's states -----

  /** The machine is only out of `Lost` on a link that is up, and owes a refresh only when online. */
  lemma LinkStates(s: Setup, es: seq<Event>)
    ensures var l := Exec(s, UNSEEN, es);
      && (!l.cache.state.Lost? ==> l.cache.connected && l.up)
      && (l.cache.pending ==> l.cache.state.Online?)
      && (l.cache.announced && l.cache.state.Online? ==> l.cache.pending)
  {
    MachineRunKeeps(s, UNSEEN, es);
  }

  // ----- what one read publishes, with callbacks between its signals -----

  /** The event takes catalogue signal `q` of the read under way. */
  predicate Takes(s: Setup, l: Link, e: Event, q: nat) {
    e == ReadNext && l.phase == Emitting(q) && q < |s.cat|
  }

  /** It is taken with a good reading of the value cached at that moment. */
  predicate TakesGood(s: Setup, l: Link, e: Event, q: nat) {
    && Takes(s, l, e, q) && s.cat[q].point in l.cache.values
    && EmittedReading(l.cache, s.cat[q]) == GoodReading(s.cat[q], l.cache.values[s.cat[q].point])
  }

  predicate Marked(s: Setup, l: Link, q: nat)
    requires q < |s.cat|
  {
    s.cat[q].point in l.cache.values && s.cat[q].point in l.cache.dirty
  }

  lemma MarkSurvives(s: Setup, l: Link, e: Event, m: nat, q: nat)
    requires DistinctPoints(s.cat) && l.phase == Emitting(m) && m <= q < |s.cat| && Marked(s, l, q)
    ensures var n := Next(s, l, e);
      TakesGood(s, l, e, q) || (Marked(s, n, q) && n.phase.Emitting? && n.phase.next <= q)
  {}

  /** A known marked signal that a read has not reached is published good before the read is over, whatever callbacks
      land in between. */
  lemma {:induction false} MarkedIsTaken(s: Setup, l: Link, es: seq<Event>, m: nat, q: nat) returns (k: nat)
    requires DistinctPoints(s.cat) && l.phase == Emitting(m) && m <= q < |s.cat| && Marked(s, l, q)
    requires Exec(s, l, es).phase.Waiting?
    ensures k < |es| && TakesGood(s, At(s, l, es, k), es[k], q)
    ensures forall m :: 0 <= m <= k ==> At(s, l, es, m).phase.Emitting?
    decreases |es|
  {
    var n := Next(s, l, es[0]);
    MarkSurvives(s, l, es[0], m, q);
    if TakesGood(s, l, es[0], q) {
      k := 0;
    } else {
      var rest := MarkedIsTaken(s, n, es[1..], n.phase.next, q);
      forall m | 0 <= m <= rest ensures At(s, l, es, m + 1) == At(s, n, es[1..], m) { AtRest(s, l, es, m); }
      k := rest + 1;
      forall m | 0 <= m <= k ensures At(s, l, es, m).phase.Emitting? {
        if m > 0 { assert At(s, l, es, m - 1 + 1) == At(s, n, es[1..], m - 1); }
      }
    }
  }

  /** No read starts. */
  predicate OneRead(es: seq<Event>) { forall i :: 0 <= i < |es| ==> !es[i].ReadStart? }

  lemma {:induction false} NoEmissions(s: Setup, l: Link, es: seq<Event>)
    requires l.phase.Waiting? && OneRead(es)
    ensures Emissions(s, l, es) == []
    decreases |es|
  {
    if es != [] { NoEmissions(s, Next(s, l, es[0]), es[1..]); }
  }

  /** A read that runs to its end makes one reading for each signal it had left, in catalogue order. */
  lemma {:induction false} EmissionsShape(s: Setup, l: Link, es: seq<Event>, m: nat)
    requires l.phase == Emitting(m) && m < |s.cat| && OneRead(es) && Exec(s, l, es).phase.Waiting?
    ensures var out := Emissions(s, l, es);
      |out| == |s.cat| - m && forall k :: 0 <= k < |out| ==> out[k].signalKey == s.cat[m + k].key
    decreases |es|
  {
    hide Written, LinkOpened, LinkClosed, StartRead, Seen, AfterEmit;
    var n := Next(s, l, es[0]);
    if n.phase.Emitting? {
      EmissionsShape(s, n, es[1..], n.phase.next);
    } else {
      NoEmissions(s, n, es[1..]);
    }
  }

  /** A known marked signal's reading is good and carries the value cached when the read takes it. */
  lemma {:induction false} ReadPublishes(s: Setup, l: Link, es: seq<Event>, m: nat, q: nat) returns (k: nat)
    requires DistinctPoints(s.cat) && l.phase == Emitting(m) && m <= q < |s.cat| && Marked(s, l, q)
    requires OneRead(es) && Exec(s, l, es).phase.Waiting?
    ensures k < |es| && TakesGood(s, At(s, l, es, k), es[k], q) && |Emissions(s, l, es)| == |s.cat| - m
    ensures Emissions(s, l, es)[q - m] == GoodReading(s.cat[q], At(s, l, es, k).cache.values[s.cat[q].point])
    decreases |es|
  {
    var n := Next(s, l, es[0]);
    EmissionsShape(s, l, es, m);
    MarkSurvives(s, l, es[0], m, q);
    if TakesGood(s, l, es[0], q) {
      k := 0;
    } else {
      k := ReadPublishes(s, n, es[1..], n.phase.next, q);
      AtRest(s, l, es, k);
      k := k + 1;
    }
  }

  // ----- no false online -----

  /** A read under way began at the last start before, and that start found the device online. */
  lemma {:induction false} ReadUnderWay(s: Setup, l: Link, es: seq<Event>, k: nat) returns (r: nat)
    requires l.phase.Waiting? && k <= |es| && At(s, l, es, k).phase.Emitting?
    ensures r < k && es[r].ReadStart? && At(s, l, es, r).phase.Waiting?
    ensures Judged(At(s, l, es, r).cache, s.limit, Now(At(s, l, es, r), es[r].at)).state.Online?
    ensures EmittingIn(s, l, es, r, k)
    decreases k
  {
    if k > 0 {
      AtNext(s, l, es, k - 1);
      if At(s, l, es, k - 1).phase.Emitting? {
        r := ReadUnderWay(s, l, es, k - 1);
      } else {
        r := k - 1;
      }
    }
  }

  /** The read that starts at position `r` is still under way at `k`. */
  ghost predicate EmittingIn(s: Setup, l: Link, es: seq<Event>, r: nat, k: nat)
    requires k <= |es|
  {
    forall m :: r < m <= k ==> At(s, l, es, m).phase.Emitting?
  }

  /** Every close strictly between the positions is followed there by an open. */
  predicate Reopened(es: seq<Event>, r: nat, k: nat)
    requires k <= |es|
  {
    forall m :: r < m < k && es[m].Close? ==> exists o :: m < o < k && es[o].Open?
  }

  /** Every open strictly between the positions is followed there by a frame. */
  predicate Answered(es: seq<Event>, r: nat, k: nat)
    requires k <= |es|
  {
    forall m :: r < m < k && es[m].Open? ==> exists f :: m < f < k && es[f].Frame?
  }

  lemma NothingBetween(es: seq<Event>, r: nat)
    requires r < |es|
    ensures Reopened(es, r, r + 1) && Answered(es, r, r + 1)
  {}

  lemma ReopenedNext(es: seq<Event>, r: nat, k: nat)
    requires r < k < |es|
    ensures Reopened(es, r, k + 1) <==> es[k].Open? || (!es[k].Close? && Reopened(es, r, k))
  {
    if Reopened(es, r, k + 1) && !es[k].Open? {
      forall m | r < m < k && es[m].Close? ensures exists o :: m < o < k && es[o].Open? {
        var o :| m < o < k + 1 && es[o].Open?;
      }
    }
    if !es[k].Open? && !es[k].Close? && Reopened(es, r, k) {
      forall m | r < m < k + 1 && es[m].Close? ensures exists o :: m < o < k + 1 && es[o].Open? {
        var o :| m < o < k && es[o].Open?;
      }
    }
  }

  lemma AnsweredNext(es: seq<Event>, r: nat, k: nat)
    requires r < k < |es|
    ensures Answered(es, r, k + 1) <==> es[k].Frame? || (!es[k].Open? && Answered(es, r, k))
  {
    if Answered(es, r, k + 1) && !es[k].Frame? {
      forall m | r < m < k && es[m].Open? ensures exists f :: m < f < k && es[f].Frame? {
        var f :| m < f < k + 1 && es[f].Frame?;
      }
    }
    if !es[k].Frame? && !es[k].Open? && Answered(es, r, k) {
      forall m | r < m < k + 1 && es[m].Open? ensures exists f :: m < f < k + 1 && es[f].Frame? {
        var f :| m < f < k && es[f].Frame?;
      }
    }
  }

  lemma {:induction false} UpIffReopened(s: Setup, l: Link, es: seq<Event>, r: nat, k: nat)
    requires r < k <= |es| && EmittingIn(s, l, es, r, k) && At(s, l, es, r + 1).up
    ensures At(s, l, es, k).up <==> Reopened(es, r, k)
    decreases k
  {
    hide At, Written, LinkOpened, LinkClosed, StartRead, Reopened;
    if k == r + 1 {
      assert Reopened(es, r, k) by { NothingBetween(es, r); }
    } else {
      UpIffReopened(s, l, es, r, k - 1);
      ReopenedNext(es, r, k - 1);
      AtNext(s, l, es, k - 1);
      assert At(s, l, es, k - 1).phase.Emitting?;
    }
  }

  lemma {:induction false} FramesIffAnswered(s: Setup, l: Link, es: seq<Event>, r: nat, k: nat)
    requires r < k <= |es| && EmittingIn(s, l, es, r, k) && At(s, l, es, r + 1).frames >= 1
    ensures At(s, l, es, k).frames >= 1 <==> Answered(es, r, k)
    decreases k
  {
    hide At, Written, LinkOpened, LinkClosed, StartRead, Answered;
    if k == r + 1 {
      assert Answered(es, r, k) by { NothingBetween(es, r); }
    } else {
      FramesIffAnswered(s, l, es, r, k - 1);
      AnsweredNext(es, r, k - 1);
      AtNext(s, l, es, k - 1);
      assert At(s, l, es, k - 1).phase.Emitting?;
    }
  }

  /** A good reading comes from a read that started on a link that was up, after a frame younger than the staleness
      limit and later than the last link open and the last stale edge.  When the reading is made the link is still up
      exactly when each close since that start was followed by an open, and has been heard since its last open exactly
      when each open since was followed by a frame. */
  lemma NoFalseOnline(s: Setup, es: seq<Event>, k: nat, q: nat) returns (r: nat)
    requires k < |es| && TakesGood(s, At(s, UNSEEN, es, k), es[k], q)
    ensures r < k && es[r].ReadStart? && At(s, UNSEEN, es, r).phase.Waiting? && EmittingIn(s, UNSEEN, es, r, k)
    ensures var l := At(s, UNSEEN, es, r);
      && l.up && l.frames >= 1 && !StaleEdge(l.cache, s.limit, Now(l, es[r].at))
      && l.lastFrame.Some? && Now(l, es[r].at) - l.lastFrame.value <= s.limit as real
    ensures At(s, UNSEEN, es, k).up <==> Reopened(es, r, k)
    ensures At(s, UNSEEN, es, k).frames >= 1 <==> Answered(es, r, k)
  {
    r := ReadUnderWay(s, UNSEEN, es, k);
    FirstKept(s);
    MachineAt(s, UNSEEN, es, r);
    AtNext(s, UNSEEN, es, r);
    UpIffReopened(s, UNSEEN, es, r, k);
    FramesIffAnswered(s, UNSEEN, es, r, k);
  }

  /** A close inside a read: the next signal is published as good on a link that is down. */
  lemma CloseInsideRead(s: Setup, v: Value)
    requires s.cat != [] && s.limit >= 60
    ensures var l := Exec(s, UNSEEN, [Open(2.0), Frame(s.cat[0].point, v, 3.0), ReadStart(4.0), Close]);
      TakesGood(s, l, ReadNext, 0) && !l.up && l.cache.state.Lost?
  {
    var es := [Open(2.0), Frame(s.cat[0].point, v, 3.0), ReadStart(4.0), Close];
    var l1 := Next(s, UNSEEN, es[0]);
    var l2 := Next(s, l1, es[1]);
    var l3 := Next(s, l2, es[2]);
    var l4 := Next(s, l3, es[3]);
    assert es[1..][1..] == es[2..] && es[2..][1..] == es[3..] && es[3..][1..] == [];
    assert Exec(s, UNSEEN, es) == Exec(s, l1, es[1..]) == Exec(s, l2, es[2..]) == Exec(s, l3, es[3..]) == l4;
  }

  // ----- one announcement per outage -----

  /** The event starts a read that publishes the comm-lost batch. */
  predicate Announces(s: Setup, l: Link, e: Event) {
    && e.ReadStart? && l.phase.Waiting? && !l.cache.announced
    && !Judged(l.cache, s.limit, Now(l, e.at)).state.Online?
  }

  /** A read starts at position `k`, and while it is under way, before `end`, it publishes every catalogue point known
      at its start as good with its current value. */
  ghost predicate Refreshes(s: Setup, l: Link, es: seq<Event>, k: nat, end: nat)
    requires k < end <= |es|
  {
    && es[k].ReadStart? && At(s, l, es, k).phase.Waiting?
    && forall q :: 0 <= q < |s.cat| && s.cat[q].point in At(s, l, es, k).cache.values ==>
       TakenBetween(s, l, es, k, end, q)
  }

  ghost predicate TakenBetween(s: Setup, l: Link, es: seq<Event>, k: nat, end: nat, q: nat)
    requires k < end <= |es|
  {
    exists t :: k < t < end && TakesGood(s, At(s, l, es, t), es[t], q) && EmittingIn(s, l, es, k, t)
  }

  /** Only an online read withdraws the announcement. */
  lemma WithdrawnByRead(s: Setup, l: Link, e: Event)
    requires l.cache.announced && !Next(s, l, e).cache.announced
    ensures e.ReadStart? && l.phase.Waiting? && Judged(l.cache, s.limit, Now(l, e.at)).state.Online?
  {}

  /** The first online read after an announcement publishes every point known at its start as good with its current
      value, before it is over. */
  lemma OnlineReadRefreshes(s: Setup, l: Link, at: real, es: seq<Event>, q: nat) returns (k: nat)
    requires DistinctPoints(s.cat) && MachineInv(l.cache) && l.cache.announced
    requires l.phase.Waiting? && Judged(l.cache, s.limit, Now(l, at)).state.Online?
    requires q < |s.cat| && s.cat[q].point in l.cache.values
    requires Exec(s, Next(s, l, ReadStart(at)), es).phase.Waiting?
    ensures k < |es| && TakesGood(s, At(s, Next(s, l, ReadStart(at)), es, k), es[k], q)
    ensures forall m :: 0 <= m <= k ==> At(s, Next(s, l, ReadStart(at)), es, m).phase.Emitting?
  {
    k := MarkedIsTaken(s, Next(s, l, ReadStart(at)), es, 0, q);
  }

  /** The first event that withdraws the announcement. */
  lemma {:induction false} Withdrawal(s: Setup, l: Link, es: seq<Event>, i: nat, j: nat) returns (k: nat)
    requires i <= j <= |es| && At(s, l, es, i).cache.announced && !At(s, l, es, j).cache.announced
    ensures i <= k < j && At(s, l, es, k).cache.announced && !At(s, l, es, k + 1).cache.announced
    decreases j - i
  {
    if At(s, l, es, i + 1).cache.announced {
      k := Withdrawal(s, l, es, i + 1, j);
    } else {
      k := i;
    }
  }

  lemma AnnouncementStands(s: Setup, l: Link, e: Event)
    requires Announces(s, l, e)
    ensures Next(s, l, e).cache.announced
  {}

  /** Between any two comm-lost batches there is a whole read that publishes every known catalogue point as good, with
      frames, opens and closes landing anywhere, inside reads too. */
  lemma OneAnnouncementPerOutage(s: Setup, es: seq<Event>, i: nat, j: nat)
    requires DistinctPoints(s.cat) && i < j < |es|
    requires Announces(s, At(s, UNSEEN, es, i), es[i]) && Announces(s, At(s, UNSEEN, es, j), es[j])
    ensures exists k :: i < k < j && Refreshes(s, UNSEEN, es, k, j)
  {
    AtNext(s, UNSEEN, es, i);
    AnnouncementStands(s, At(s, UNSEEN, es, i), es[i]);
    var k := Withdrawal(s, UNSEEN, es, i + 1, j);
    RefreshAt(s, es, k, j);
  }

  lemma RefreshAt(s: Setup, es: seq<Event>, k: nat, j: nat)
    requires DistinctPoints(s.cat) && k < j <= |es| && At(s, UNSEEN, es, j).phase.Waiting?
    requires At(s, UNSEEN, es, k).cache.announced && !At(s, UNSEEN, es, k + 1).cache.announced
    ensures Refreshes(s, UNSEEN, es, k, j)
  {
    hide Next, Exec, TakesGood;
    var l, n := At(s, UNSEEN, es, k), At(s, UNSEEN, es, k + 1);
    FirstKept(s);
    MachineRunKeeps(s, UNSEEN, es[..k]);
    AtNext(s, UNSEEN, es, k);
    WithdrawnByRead(s, l, es[k]);
    AtLater(s, UNSEEN, es, k + 1, j);
    forall q | 0 <= q < |s.cat| && s.cat[q].point in l.cache.values ensures TakenBetween(s, UNSEEN, es, k, j, q) {
      var rest := es[k + 1..j];
      var t := OnlineReadRefreshes(s, l, es[k].at, rest, q);
      forall m | 0 <= m <= t ensures At(s, UNSEEN, es, k + 1 + m) == At(s, n, rest, m) {
        AtLater(s, UNSEEN, es, k + 1, k + 1 + m);
        assert rest[..m] == es[k + 1..k + 1 + m];
      }
      forall m | k < m <= k + 1 + t ensures At(s, UNSEEN, es, m).phase.Emitting? {
        assert At(s, UNSEEN, es, k + 1 + (m - k - 1)) == At(s, n, rest, m - k - 1);
      }
      assert At(s, UNSEEN, es, k + 1 + t) == At(s, n, rest, t) && rest[t] == es[k + 1 + t];
    }
  }

  lemma FirstKept(s: Setup)
    ensures MachineInv(UNSEEN.cache) && ObserverInv(UNSEEN)
  {}

  /** The announcing read tells the consumer of every signal that communication is lost. */
  lemma AnnouncementReachesAll(s: Setup, l: Link, e: Event, i: nat)
    requires DistinctKeys(s.cat) && Announces(s, l, e) && i < |s.cat|
    ensures var view := Next(s, l, e).view;
      s.cat[i].key in view && view[s.cat[i].key].quality == CommLost && view[s.cat[i].key].scaled == 0.0
  {
    LastSeen(l.view, AllEmpty(s.cat, CommLost), i);
  }

  lemma {:induction false} LastSeen(view: map<string, Reading>, readings: seq<Reading>, i: nat)
    requires i < |readings| && readings[i].quality == CommLost
    requires forall j, k :: 0 <= j < k < |readings| ==> readings[j].signalKey != readings[k].signalKey
    ensures var seen := Seen(view, readings);
      readings[i].signalKey in seen && seen[readings[i].signalKey] == readings[i]
    decreases |readings|
  {
    var next := if readings[0].quality.NoChange? then view else view[readings[0].signalKey := readings[0]];
    if i == 0 {
      SeenAt(next, readings[1..], readings[0].signalKey);
    } else {
      LastSeen(next, readings[1..], i - 1);
    }
  }

  // ----- repeated values are not published -----

  /** The link stays as it is, every frame for the point repeats the value `v`, and every read comes within the limit
      of the last frame. */
  ghost predicate Steady(s: Setup, l: Link, e: Event, p: Point, v: Value) {
    && !e.Open? && !e.Close? && (e.Frame? && e.p == p ==> e.v == v)
    && (e.ReadStart? ==> l.cache.lastUpdateAt != 0.0 && Now(l, e.at) - l.cache.lastUpdateAt <= s.limit as real)
  }

  /** The point is known with value `v`, unmarked, and its device is online and owes no refresh. */
  ghost predicate Settled(l: Link, p: Point, v: Value) {
    l.cache.state.Online? && !l.cache.pending && p !in l.cache.dirty && p in l.cache.values && l.cache.values[p] == v
  }

  lemma SteadyStep(s: Setup, l: Link, e: Event, p: Point, v: Value)
    requires Settled(l, p, v) && Steady(s, l, e, p, v)
    ensures Settled(Next(s, l, e), p, v)
  {
    hide Seen, LinkOpened, LinkClosed;
  }

  /** Frames that repeat a cached value never publish it again: over any run that keeps the link and stays within the
      staleness limit, whatever other points do. */
  lemma {:induction false} RepeatsNeverPublish(s: Setup, l: Link, es: seq<Event>, q: nat, v: Value, k: nat)
    requires q < |s.cat| && k < |es| && Settled(l, s.cat[q].point, v)
    requires forall i :: 0 <= i < |es| ==> Steady(s, At(s, l, es, i), es[i], s.cat[q].point, v)
    ensures !TakesGood(s, At(s, l, es, k), es[k], q)
    decreases |es|
  {
    hide Next, Steady, At;
    if k == 0 {
      AtStart(s, l, es);
    } else {
      AtStart(s, l, es);
      assert Steady(s, At(s, l, es, 0), es[0], s.cat[q].point, v);
      SteadyStep(s, l, es[0], s.cat[q].point, v);
      var n := Next(s, l, es[0]);
      forall i | 0 <= i < |es[1..]| ensures Steady(s, At(s, n, es[1..], i), es[1..][i], s.cat[q].point, v) {
        AtRest(s, l, es, i);
        assert Steady(s, At(s, l, es, i + 1), es[i + 1], s.cat[q].point, v);
      }
      AtRest(s, l, es, k - 1);
      RepeatsNeverPublish(s, n, es[1..], q, v, k - 1);
    }
  }

  // ----- the grace window -----

  predicate Silent(es: seq<Event>) { forall i :: 0 <= i < |es| ==> !es[i].Frame? && !es[i].Close? }

  /** Some read of the run ended the recovery episode that `l` is in, after its grace period. */
  ghost predicate EpisodeEnds(s: Setup, l: Link, es: seq<Event>) {
    exists k :: 0 <= k < |es| && EndsAt(s, l, es, k)
  }

  ghost predicate EndsAt(s: Setup, l: Link, es: seq<Event>, k: nat)
    requires k < |es|
  {
    var n := Exec(s, l, es[..k + 1]);
    es[k].ReadStart? && n.cache.state.Lost? && n.cache.announced && n.clock > l.cache.startedAt + 15.0
  }

  /** However often the link opens again and is read, a silent recovery keeps its start until a read past the grace
      period ends it. */
  lemma {:induction false} EpisodeStartStays(s: Setup, l: Link, es: seq<Event>)
    requires MachineInv(l.cache) && ObserverInv(l) && l.cache.state.Recovering? && Silent(es)
    ensures EpisodeEnds(s, l, es)
         || (Exec(s, l, es).cache.state.Recovering? && Exec(s, l, es).cache.startedAt == l.cache.startedAt)
    decreases |es|
  {
    if es != [] {
      var n := Next(s, l, es[0]);
      MachineKept(s, l, es[0]);
      EpisodeStep(s, l, es[0]);
      if n.cache.state.Lost? {
        assert es[..1] == [es[0]] && Exec(s, l, [es[0]]) == Exec(s, n, []);
        assert EndsAt(s, l, es, 0);
      } else {
        EpisodeStartStays(s, n, es[1..]);
        if k :| 0 <= k < |es[1..]| && EndsAt(s, n, es[1..], k) {
          assert es[..k + 2][0] == es[0] && es[..k + 2][1..] == es[1..][..k + 1];
          assert EndsAt(s, l, es, k + 1);
        }
      }
    }
  }

  lemma EpisodeStep(s: Setup, l: Link, e: Event)
    requires MachineInv(l.cache) && ObserverInv(l) && l.cache.state.Recovering? && !e.Frame? && !e.Close?
    ensures var n := Next(s, l, e);
      || (n.cache.state.Recovering? && n.cache.startedAt == l.cache.startedAt)
      || (e.ReadStart? && n.cache.state.Lost? && n.cache.announced && n.clock > l.cache.startedAt + 15.0)
  {}

  /** A recovery that hears no frame is over once a read comes more than the grace period after its start, no matter how
      often the link opened meanwhile: that read, or an earlier one past the grace period, leaves the device lost. */
  lemma GraceWindow(s: Setup, l: Link, es: seq<Event>, at: real)
    requires MachineInv(l.cache) && ObserverInv(l) && l.cache.state.Recovering? && Silent(es)
    requires Exec(s, l, es).phase.Waiting? && Now(Exec(s, l, es), at) > l.cache.startedAt + 15.0
    ensures EpisodeEnds(s, l, es + [ReadStart(at)])
  {
    var all, n := es + [ReadStart(at)], Exec(s, l, es);
    EpisodeStartStays(s, l, es);
    if k :| 0 <= k < |es| && EndsAt(s, l, es, k) {
      assert all[..k + 1] == es[..k + 1];
      assert EndsAt(s, l, all, k);
    } else {
      MachineRunKeeps(s, l, es);
      ExecConcat(s, l, es, [ReadStart(at)]);
      assert Exec(s, n, [ReadStart(at)]) == Exec(s, Next(s, n, ReadStart(at)), []);
      assert all[..|es| + 1] == all;
      assert EndsAt(s, l, all, |es|);
    }
  }

  // ----- lost is absorbing without a link open -----

  predicate NeverOpens(es: seq<Event>) { forall i :: 0 <= i < |es| ==> !es[i].Open? }

  ghost predicate NoNewGood(old_: map<string, Reading>, new_: map<string, Reading>) {
    forall k :: k in new_ && new_[k].quality.Good? ==> k in old_ && old_[k] == new_[k]
  }

  lemma {:induction false} CommLostSeen(view: map<string, Reading>, readings: seq<Reading>)
    requires forall i :: 0 <= i < |readings| ==> readings[i].quality.CommLost?
    ensures NoNewGood(view, Seen(view, readings))
    decreases |readings|
  {
    if readings != [] { CommLostSeen(view[readings[0].signalKey := readings[0]], readings[1..]); }
  }

  /** From lost, no run of frames, closes and reads ever comes back online or publishes a good reading unless
      the link opens again, even while the link stays connected and frames keep arriving. */
  lemma {:induction false} LostIsAbsorbing(s: Setup, l: Link, es: seq<Event>)
    requires l.cache.state.Lost? && l.phase.Waiting? && NeverOpens(es)
    ensures var n := Exec(s, l, es);
      n.cache.state.Lost? && n.phase.Waiting? && NoNewGood(l.view, n.view)
    decreases |es|
  {
    if es != [] {
      var n := Next(s, l, es[0]);
      if es[0].ReadStart? { CommLostSeen(l.view, AllEmpty(s.cat, CommLost)); }
      LostIsAbsorbing(s, n, es[1..]);
    }
  }

  // ----- when an answering device comes back -----

  /** A frame after a silent stretch of a recovery brings the device online, unless a read past the grace period ended
      the recovery first. */
  lemma AnswerBringsBack(s: Setup, l: Link, es: seq<Event>, p: Point, v: Value, at: real)
    requires MachineInv(l.cache) && ObserverInv(l) && l.cache.state.Recovering? && Silent(es)
    ensures Exec(s, l, es + [Frame(p, v, at)]).cache.state.Online? || EpisodeEnds(s, l, es)
  {
    var n := Exec(s, l, es);
    EpisodeStartStays(s, l, es);
    MachineRunKeeps(s, l, es);
    ExecConcat(s, l, es, [Frame(p, v, at)]);
    assert Exec(s, n, [Frame(p, v, at)]) == Exec(s, Next(s, n, Frame(p, v, at)), []);
  }

  /** A link open while the device is lost, and up to position `k` neither a frame nor a close nor a read more than
      the grace period after that open. */
  ghost predicate Unanswered(s: Setup, l: Link, es: seq<Event>, i: nat, k: nat)
    requires k <= |es|
  {
    && i < k && es[i].Open? && At(s, l, es, i).cache.state.Lost?
    && forall m :: i < m < k ==> !es[m].Frame? && !es[m].Close? && !LateRead(s, l, es, i, m)
  }

  predicate LateRead(s: Setup, l: Link, es: seq<Event>, i: nat, m: nat)
    requires i < m < |es| && es[i].Open?
  {
    es[m].ReadStart? && Now(At(s, l, es, m), es[m].at) > Now(At(s, l, es, i), es[i].at) + 15.0
  }

  ghost predicate ComesOnline(s: Setup, l: Link, es: seq<Event>) {
    exists k :: 0 <= k <= |es| && At(s, l, es, k).cache.state.Online?
  }

  ghost predicate AnsweredInTime(s: Setup, l: Link, es: seq<Event>) {
    exists i: nat, j: nat :: i < j < |es| && es[j].Frame? && Unanswered(s, l, es, i, j)
  }

  ghost predicate Resting(l: Link) { MachineInv(l.cache) && ObserverInv(l) && l.phase.Waiting? && l.cache.state.Lost? }

  /** The recovery under way began with the open at `i` and has not been answered. */
  ghost predicate Pending(s: Setup, l: Link, es: seq<Event>, i: nat, k: nat)
    requires k <= |es|
  {
    && Unanswered(s, l, es, i, k) && At(s, l, es, k).cache.state.Recovering?
    && At(s, l, es, k).cache.startedAt == Now(At(s, l, es, i), es[i].at)
  }

  lemma PendingStep(s: Setup, l: Link, es: seq<Event>, i: nat, k: nat)
    requires k < |es| && Pending(s, l, es, i, k) && At(s, l, es, k).phase.Waiting?
    requires MachineInv(At(s, l, es, k).cache) && ObserverInv(At(s, l, es, k))
    ensures var n := At(s, l, es, k + 1);
      || (es[k].Frame? && n.cache.state.Online?)
      || (!es[k].Frame? && n.cache.state.Lost? && n.phase.Waiting? && (es[k].Close? || LateRead(s, l, es, i, k)))
      || (!es[k].Frame? && Pending(s, l, es, i, k + 1) && n.phase.Waiting?)
  {
    hide At;
    AtNext(s, l, es, k);
  }

  /** Until it first comes online, a lost device is lost or in a recovery that a link open began and
      nothing answered. */
  lemma {:induction false} LostOrPending(s: Setup, l: Link, es: seq<Event>, k: nat)
    requires Resting(l) && k <= |es| && forall m :: 0 <= m <= k ==> !At(s, l, es, m).cache.state.Online?
    ensures At(s, l, es, k).phase.Waiting?
    ensures At(s, l, es, k).cache.state.Lost? || exists i: nat :: Pending(s, l, es, i, k)
    decreases k
  {
    hide At;
    if k == 0 {
      AtStart(s, l, es);
    } else {
      LostOrPending(s, l, es, k - 1);
      AtNext(s, l, es, k - 1);
      if At(s, l, es, k - 1).cache.state.Lost? {
        if es[k - 1].Open? { assert Pending(s, l, es, k - 1, k); }
      } else {
        var i: nat :| Pending(s, l, es, i, k - 1);
        MachineAt(s, l, es, k - 1);
        PendingStep(s, l, es, i, k - 1);
      }
    }
  }

  lemma AtStart(s: Setup, l: Link, es: seq<Event>)
    ensures At(s, l, es, 0) == l
  {}

  lemma MachineAt(s: Setup, l: Link, es: seq<Event>, k: nat)
    requires MachineInv(l.cache) && ObserverInv(l) && k <= |es|
    ensures MachineInv(At(s, l, es, k).cache) && ObserverInv(At(s, l, es, k))
  {
    MachineRunKeeps(s, l, es[..k]);
  }

  lemma {:induction false} FirstOnline(s: Setup, l: Link, es: seq<Event>, k: nat) returns (f: nat)
    requires k <= |es| && At(s, l, es, k).cache.state.Online?
    ensures f <= k && At(s, l, es, f).cache.state.Online?
      && forall m :: 0 <= m < f ==> !At(s, l, es, m).cache.state.Online?
    decreases k
  {
    if m :| 0 <= m < k && At(s, l, es, m).cache.state.Online? {
      f := FirstOnline(s, l, es, m);
    } else {
      f := k;
    }
  }

  /** From lost a run comes online exactly when the link opens and then a frame arrives, with no close in between and
      no read more than the grace period after that open. */
  lemma {:induction false} OnlineIffAnsweredInTime(s: Setup, l: Link, es: seq<Event>)
    requires Resting(l)
    ensures ComesOnline(s, l, es) <==> AnsweredInTime(s, l, es)
  {
    hide At;
    AtStart(s, l, es);
    if k :| 0 <= k <= |es| && At(s, l, es, k).cache.state.Online? {
      var f := FirstOnline(s, l, es, k);
      f := f - 1;
      LostOrPending(s, l, es, f);
      AtNext(s, l, es, f);
      if i: nat :| Pending(s, l, es, i, f) {
        MachineAt(s, l, es, f);
        PendingStep(s, l, es, i, f);
      }
    }
    if i: nat, j: nat :| i < j < |es| && es[j].Frame? && Unanswered(s, l, es, i, j) {
      if !ComesOnline(s, l, es) {
        StaysPending(s, l, es, i, j);
        LostOrPending(s, l, es, j);
        MachineAt(s, l, es, j);
        PendingStep(s, l, es, i, j);
        assert false;
      }
    }
  }

  lemma {:induction false} StaysPending(s: Setup, l: Link, es: seq<Event>, i: nat, k: nat)
    requires Resting(l) && k <= |es| && Unanswered(s, l, es, i, k) && !ComesOnline(s, l, es)
    ensures Pending(s, l, es, i, k)
    decreases k
  {
    hide At;
    AtNext(s, l, es, k - 1);
    LostOrPending(s, l, es, k - 1);
    if i < k - 1 {
      StaysPending(s, l, es, i, k - 1);
      MachineAt(s, l, es, k - 1);
      PendingStep(s, l, es, i, k - 1);
    }
  }

  /** Such a device exists: connected, answering, and lost since its grace period ran out. */
  lemma AnsweringYetLost(s: Setup, p: Point, v: Value, later: seq<Event>)
    requires NeverOpens(later) && s.limit >= 60
    ensures var l := Exec(s, UNSEEN, [Open(2.0), ReadStart(18.0), Frame(p, v, 19.0)]);
      && l.cache.connected && l.lastFrame == Some(19.0) && l.cache.state.Lost?
      && Exec(s, l, later).cache.state.Lost?
  {
    var l1 := Next(s, UNSEEN, Open(2.0));
    var l2 := Next(s, l1, ReadStart(18.0));
    var l3 := Next(s, l2, Frame(p, v, 19.0));
    var es := [Open(2.0), ReadStart(18.0), Frame(p, v, 19.0)];
    assert Exec(s, UNSEEN, es) == Exec(s, l1, es[1..]) == Exec(s, l2, es[1..][1..]) == Exec(s, l3, es[1..][1..][1..])
      == l3;
    LostIsAbsorbing(s, l3, later);
  }

  // ----- the loop body at the granularity of the lock -----

  /** A frame or a link callback. */
  type Callback = e: Event | e.Frame? || e.Open? || e.Close? witness Close

  function Applied(c: Cache, e: Callback): Cache {
    match e
    case Frame(p, v, at) => Written(c, p, v, at)
    case Open(at) => LinkOpened(c, at)
    case Close => LinkClosed(c)
  }

  /** Callbacks that land while the reader is between two calls of the cache. */
  function Landed(c: Cache, fs: seq<Callback>): Cache
    decreases |fs|
  {
    if fs == [] then c else Landed(Applied(c, fs[0]), fs[1..])
  }

  /** One signal of the loop with callbacks landing between `get` and `is_dirty`, and between `is_dirty` and
      `clear_dirty`. */
  function SplitEmit(c: Cache, g: Signal, first: seq<Callback>, second: seq<Callback>): (Cache, Reading) {
    var c1 := Landed(c, first);
    if g.point !in c.values || g.point !in c1.dirty then (Landed(c1, second), EmptyReading(g, NoChange))
    else (Cleared(Landed(c1, second), g.point), GoodReading(g, c.values[g.point]))
  }

  /** The signal's part of the view invariant. */
  ghost predicate Covered(c: Cache, g: Signal, last: Option<Reading>) {
    g.point in c.values && (g.point in c.dirty || last == Some(GoodReading(g, c.values[g.point])))
  }

  lemma {:induction false} LandedKeepsMark(c: Cache, g: Signal, fs: seq<Callback>)
    requires g.point in c.values
    ensures g.point in Landed(c, fs).values
    ensures g.point in Landed(c, fs).dirty
      || (g.point !in c.dirty && Landed(c, fs).values[g.point] == c.values[g.point])
    decreases |fs|
  {
    if fs != [] { LandedKeepsMark(Applied(c, fs[0]), g, fs[1..]); }
  }

  /** The value of the last frame for the point. */
  function LastFrame(fs: seq<Callback>, p: Point): Option<Value> {
    if fs == [] then None
    else if LastFrame(fs[1..], p).Some? then LastFrame(fs[1..], p)
    else if fs[0].Frame? && fs[0].p == p then Some(fs[0].v) else None
  }

  lemma {:induction false} LandedValue(c: Cache, p: Point, fs: seq<Callback>)
    requires p in c.values
    ensures p in Landed(c, fs).values
    ensures Landed(c, fs).values[p] == if LastFrame(fs, p).Some? then LastFrame(fs, p).value else c.values[p]
    decreases |fs|
  {
    if fs != [] { LandedValue(Applied(c, fs[0]), p, fs[1..]); }
  }

  lemma {:induction false} LandedConcat(c: Cache, a: seq<Callback>, b: seq<Callback>)
    ensures Landed(c, a + b) == Landed(Landed(c, a), b)
    decreases |a|
  {
    if a == [] {
      assert a + b == b;
    } else {
      assert (a + b)[1..] == a[1..] + b;
      LandedConcat(Applied(c, a[0]), a[1..], b);
    }
  }

  /** Taking the loop body as one step is needed: split at the lock, a covered signal stays covered exactly when it is
      unmarked as its mark is tested, or no frame for its point landed in the whole window, or the last one carried
      the value that was read. */
  lemma LostMarkExactly(c: Cache, g: Signal, first: seq<Callback>, second: seq<Callback>, last: Option<Reading>)
    requires Covered(c, g, last)
    ensures var (n, r) := SplitEmit(c, g, first, second);
      var landed := LastFrame(first + second, g.point);
      && g.point in n.values
      && (Covered(n, g, if r.quality.NoChange? then last else Some(r))
          <==> g.point !in Landed(c, first).dirty || landed.None? || landed.value == c.values[g.point])
  {
    var c1 := Landed(c, first);
    LandedKeepsMark(c, g, first);
    LandedKeepsMark(c1, g, second);
    LandedConcat(c, first, second);
    LandedValue(c, g.point, first + second);
  }

  /** One frame inside the window is enough to lose an update for good. */
  lemma LostMarkWitness(c: Cache, g: Signal, v: Value, at: real)
    requires g.point in c.values && g.point in c.dirty && c.values[g.point] != v && c.state.Online?
    ensures var (n, r) := SplitEmit(c, g, [], [Frame(g.point, v, at)]);
      && g.point in n.values && n.values[g.point] == v && g.point !in n.dirty && r == GoodReading(g, c.values[g.point])
      && !Covered(n, g, Some(r))
  {
    assert Landed(c, [Frame(g.point, v, at)]) == Landed(Written(c, g.point, v, at), []);
  }
}
