/**
 The clock conditions of the two span rates are exact: whenever a second comes again after a later one, there is a
 run with these clock readings that forwards more than the limit in it.
 */
module SamplerExactRates {
  import opened Base
  import opened Sampling
  import opened RateLimiting
  import IdBatcher
  import opened Sampler
  import opened SamplerInvariants
  import opened SamplerLimits
  import opened SamplerSchedule

  // ---- The requests that overcharge a second ----

  /** The amounts asked for at the given times; nothing is asked where the amount is zero. */
  function Asked(times: seq<int>, ns: seq<int32>): seq<RateLimiting.Request>
    requires |ns| == |times|
  {
    if |times| == 0 then []
    else
      var m := |times| - 1;
      var init := Asked(times[..m], ns[..m]);
      if ns[m] > 0 then init + [Request(times[m], ns[m])] else init
  }

  /** A whole budget at i, more than one at k, which only moves the limiter on, and one span more at j. */
  function Greed(limit: int32, len: nat, i: nat, k: nat, j: nat): seq<int32>
    requires 0 < limit < INT32_MAX
  {
    seq(len, p => if p == i then limit else if p == k then limit + 1 else if p == j then 1 else 0)
  }

  lemma {:induction false} GreedAsks(limit: int32, times: seq<int>, i: nat, k: nat, j: nat, m: nat)
    requires 0 < limit < INT32_MAX && i < k < j < |times| && m <= |times|
    ensures Asked(times[..m], Greed(limit, |times|, i, k, j)[..m])
         == (if m > i then [Request(times[i], limit)] else [])
          + (if m > k then [Request(times[k], limit + 1)] else [])
          + (if m > j then [Request(times[j], 1)] else [])
  {
    if m > 0 {
      GreedAsks(limit, times, i, k, j, m - 1);
      var ns := Greed(limit, |times|, i, k, j);
      assert times[..m][..m - 1] == times[..m - 1] && ns[..m][..m - 1] == ns[..m - 1];
    }
  }

  lemma GreedGets(limit: int32, x: int, y: int)
    requires 0 < limit < INT32_MAX && x < y && 0 < y
    ensures AdmittedIn(Limiter(limit, 0, 0), [Request(x, limit), Request(y, limit + 1), Request(x, 1)], x) == limit + 1
  {
    hide Serve, AdmittedIn, Wrap32;
    var l := Limiter(limit, 0, 0);
    var a, b, c := Request(x, limit), Request(y, limit + 1), Request(x, 1);
    assert [] + [a] == [a] && [a] + [b] == [a, b] && [a, b] + [c] == [a, b, c];
    NoneServed(l, x);
    ServeSnoc(l, [], a, x);
    ServeSnoc(l, [a], b, x);
    assert Serve(l, [a, b]) == Limiter(limit, y, 0);
    ServeSnoc(l, [a, b], c, x);
  }

  /** The amounts overcharge the second that comes again. */
  lemma GreedOvercharges(limit: int32, times: seq<int>, i: nat, k: nat, j: nat)
    requires 0 < limit < INT32_MAX && i < k < j < |times|
    requires times[i] == times[j] && times[i] < times[k] && 0 < times[k]
    ensures AdmittedIn(Limiter(limit, 0, 0), Asked(times, Greed(limit, |times|, i, k, j)), times[i]) > limit
  {
    hide AdmittedIn, Asked;
    var ns := Greed(limit, |times|, i, k, j);
    assert times[..|times|] == times && ns[..|times|] == ns;
    GreedAsks(limit, times, i, k, j, |times|);
    GreedGets(limit, times[i], times[k]);
    assert Asked(times, ns) == [Request(times[i], limit), Request(times[k], limit + 1), Request(times[i], 1)];
  }

  // ---- A processor that lets everything through to its limits ----

  function Plain(max: nat, limit: int32, priorLimit: int32): Setup {
    Setup(Config(max, [], [RejectNothing()]), 1, 1, limit, priorLimit)
  }

  ghost predicate Permissive(c: Config) {
    c.accepts == [] && c.rejects == [RejectNothing()]
  }

  lemma NothingRejected(c: Config, t: TraceData)
    requires Permissive(c)
    ensures !ShouldBeDropped(c, t)
  {
    var r := RejectNothing();
    assert !SomeOperation(Locate(t.batches), r.operation.value);
    assert !ShouldDrop(r, t.batches);
  }

  function Spans(id: TraceId, n: nat): seq<Span> {
    seq(n, _ => Span(id, "", map[], 0, 0, false))
  }

  function Arrival(now: int, id: TraceId, n: nat): Event {
    ArriveEvent(now, map[], id, Spans(id, n))
  }

  /** A new trace is buffered, queued and pending. */
  lemma NewArrival(c: Config, s: State, now: int, id: TraceId, n: nat)
    requires 1 <= c.maxNumTraces && id !in s.traces && id !in s.history && 0 < n <= INT32_MAX
    requires |s.deleteChan| < c.maxNumTraces && s.pipeline.pending == []
    ensures
      var r := Arrive(c, s, now, map[], id, Spans(id, n));
      && r.traces.Keys == s.traces.Keys + {id} && (forall x :: x in s.traces ==> r.traces[x] == s.traces[x])
      && r.traces[id].spanCount == n && |Locate(r.traces[id].batches)| == n && !r.traces[id].byProbability
      && r.pipeline == IdBatcher.Enqueue(s.pipeline, id) && r.budgets == s.budgets
      && |r.deleteChan| == |s.deleteChan| + 1 && r.history == s.history && r.log == s.log
      && r.decisionLimiter == s.decisionLimiter
  {
    hide PrepareBatch, Locate, Enroll;
    var spans := Spans(id, n);
    var batch := PrepareBatch(map[], spans);
    LocateAppend([], map[], spans);
    assert [] + [batch] == [batch] && |LocateSpans(map[], spans)| == n;
    var s1 := Store(s, id, n);
    EnrollOnce(c, s1, id);
    var s2 := s1.(deleteChan := s.deleteChan + [id]);
    assert LoadOrStore(c, s, id, n) == s2;
    assert Arrive(c, s, now, map[], id, spans) == AppendBatch(s2, id, batch);
    assert Arrive(c, s, now, map[], id, spans).traces == s.traces[id := NewTrace(n).(batches := [batch])];
  }

  /** The two loops on a batch of one. */
  lemma LoopsOnce(c: Config, s: State, sec: int, e: Entry)
    requires |s.budgets| == |c.accepts|
    ensures Decide(c, s, sec, [e]) == SettleOne(c, DecideOne(c, Pass(s, 0, 0), sec, e), sec, e.id).s
  {
    hide SettleOne, DecideOne;
    var one := [e];
    assert one[..|one| - 1] == [] && one[|one| - 1] == e;
    var p := FirstLoop(c, Pass(s, 0, 0), sec, one);
    assert FirstLoop(c, Pass(s, 0, 0), sec, []) == Pass(s, 0, 0);
    assert SecondLoop(c, p, sec, []) == p;
  }

  /** A trace no rule rejects passes when there are no policies. */
  lemma PassesAll(c: Config, s: State, sec: int, e: Entry)
    requires Permissive(c) && s.budgets == [] && e.id in s.traces
    ensures
      var t := s.traces[e.id];
      DecideOne(c, Pass(s, 0, 0), sec, e) == FirstPass(Pass(s, t.spanCount, 0), sec, e.id, t, Sampled)
  {
    hide FirstPass;
    var t := s.traces[e.id];
    NothingRejected(c, t);
    assert t.(byProbability := t.byProbability, filterName := t.filterName) == t;
  }

  /** A tick decides the one trace of its batch, which the policies let pass. */
  lemma OneDecision(c: Config, s: State, sec: int, clocks: nat -> Clock, id: TraceId)
    requires Permissive(c) && s.budgets == [] && s.pipeline.pipe != []
    requires s.pipeline.pipe[0] == [id] && id in s.traces && !s.traces[id].byProbability
    ensures
      var r, n := Tick(c, s, sec, clocks), s.traces[id].spanCount;
      && r.traces == s.traces - {id} && r.pipeline == IdBatcher.TakeFirst(s.pipeline).0
      && r.decisionLimiter == s.decisionLimiter.Update(sec, n)
      && r.deleteChan == s.deleteChan && r.history.Keys == s.history.Keys + {id} && r.budgets == []
      && r.history[id].decision == s.decisionLimiter.Decide(sec, n)
      && |r.log| == |s.log| + 1 && r.log[..|s.log|] == s.log
      && forall x :: SpansFor(r.log[|s.log|], x, false)
                  == if x == sec && s.decisionLimiter.Admits(sec, n) then |Locate(s.traces[id].batches)| else 0
  {
    hide Locate, LocateTraces, Merge, Limiter.Update, Limiter.Admits, Decide, DecideOne, IdBatcher.Inside;
    var s1 := s.(pipeline := IdBatcher.TakeFirst(s.pipeline).0);
    var e := Entry(id, clocks(0));
    assert Entries([id], clocks) == [e];
    LoopsOnce(c, s1, sec, e);
    PassesAll(c, s1, sec, e);
    MergeKeeps(s.traces[id].batches);
    var p := DecideOne(c, Pass(s1, 0, 0), sec, e);
    assert p.s.traces - {id} == s.traces - {id};
  }

  // ---- Decisions ----

  /** Trace p, if it is to have spans, arrives before tick p, and so is decided by tick p + 1. */
  function Before(ns: seq<int32>, p: nat): seq<Event> {
    if p < |ns| && ns[p] > 0 then [Arrival(0, p, ns[p]), FillEvent] else []
  }

  function Plan(secs: seq<int>, ns: seq<int32>, q: nat): seq<Event>
    requires q <= |secs|
  {
    if q == 0 then []
    else Plan(secs, ns, q - 1) + Before(ns, q - 1) + [TickEvent(secs[q - 1], _ => _ => 0)]
  }

  /** The trace on its way when q ticks are over. */
  function OnItsWay(ns: seq<int32>, q: nat): seq<TraceId> {
    if 0 < q <= |ns| && ns[q - 1] > 0 then [q - 1] else []
  }

  /** The buffer holds just the traces with the given ids, as many spans as planned. */
  ghost predicate Holds(s: State, ids: set<TraceId>, ns: seq<int32>) {
    && s.traces.Keys == ids
    && forall x :: x in ids ==>
         x < |ns| && s.traces[x].spanCount == ns[x] == |Locate(s.traces[x].batches)| && !s.traces[x].byProbability
  }

  /** The part of the state the ticks work on, when q ticks are over and the traces `ids` are buffered. */
  ghost predicate Staged(s: State, q: nat, ns: seq<int32>, ids: set<TraceId>, current: seq<TraceId>) {
    && s.budgets == [] && s.pipeline.pending == [] && s.pipeline.current == current && !s.pipeline.stopped
    && s.pipeline.pipe == [OnItsWay(ns, q)]
    && Holds(s, ids, ns)
    && forall x :: x in s.history ==> x < q
  }

  /** What the limiter was asked, and what the log shows for it. */
  ghost predicate Served(s: State, limit: int32, reqs: seq<RateLimiting.Request>) {
    var l := Limiter(limit, 0, 0);
    && s.decisionLimiter == Serve(l, reqs)
    && forall x :: Charged(s.log, x, false) == AdmittedIn(l, reqs, x)
  }

  function AsSet(q: seq<TraceId>): set<TraceId> {
    set x | x in q
  }

  /** The requests of the first q ticks. */
  function AskedBy(secs: seq<int>, ns: seq<int32>, q: nat): seq<RateLimiting.Request>
    requires |secs| == |ns| + 1 && q <= |secs|
  {
    if q == 0 then [] else Asked(secs[1..][..q - 1], ns[..q - 1])
  }

  ghost predicate Planned(ns: seq<int32>, limit: int32) {
    forall p :: 0 <= p < |ns| ==> 0 <= ns[p] && ns[p] + limit <= INT32_MAX
  }

  lemma FitSnoc(u: Setup, events: seq<Event>, e: Event, slack: nat)
    requires FitAtTicks(u, events, slack) && (e.TickEvent? ==> HeldFit(Reached(u, events), slack))
    ensures FitAtTicks(u, events + [e], slack)
  {
    hide Reached, HeldFit;
    var all := events + [e];
    forall k | 0 <= k < |all| && all[k].TickEvent? ensures HeldFit(Reached(u, all[..k]), slack) {
      if k < |events| {
        assert all[..k] == events[..k];
      } else {
        assert all[..k] == events;
      }
    }
  }

  lemma TickSecsSnoc(events: seq<Event>, e: Event)
    ensures TickSecs(events + [e]) == TickSecs(events) + if e.TickEvent? then [e.sec] else []
  {
    assert (events + [e])[..|events|] == events;
  }

  /** An arrival and a turn of the filler put the next trace into the current batch. */
  lemma NextArrives(c: Config, s: State, q: nat, ns: seq<int32>, limit: int32)
    requires c.accepts == [] && |s.deleteChan| < c.maxNumTraces && Planned(ns, limit) && 0 < limit
    requires Staged(s, q, ns, AsSet(OnItsWay(ns, q)), []) && q < |ns| && ns[q] > 0
    ensures
      var m := Arrive(c, s, 0, map[], q, Spans(q, ns[q]));
      && m.pipeline.pending != [] && m.budgets == []
      && var r := m.(pipeline := IdBatcher.FillOne(m.pipeline));
         && Staged(r, q, ns, AsSet(OnItsWay(ns, q)) + {q}, [q])
         && r.decisionLimiter == s.decisionLimiter && r.log == s.log && |r.deleteChan| == |s.deleteChan| + 1
  {
    hide Arrive, Locate;
    NewArrival(c, s, 0, q, ns[q]);
  }

  /** A tick decides the trace on its way, if there is one, and the next one takes its place. */
  lemma NextDecided(c: Config, s: State, q: nat, ns: seq<int32>, sec: int, clocks: nat -> Clock)
    requires Permissive(c)
    requires Staged(s, q, ns, AsSet(OnItsWay(ns, q)) + AsSet(OnItsWay(ns, q + 1)), OnItsWay(ns, q + 1))
    ensures Staged(Tick(c, s, sec, clocks), q + 1, ns, AsSet(OnItsWay(ns, q + 1)), [])
    ensures Tick(c, s, sec, clocks).deleteChan == s.deleteChan
  {
    hide Tick, Locate;
    var way := OnItsWay(ns, q);
    if way == [] {
      IdleTick(c, s, sec, clocks);
    } else {
      OneDecision(c, s, sec, clocks, q - 1);
    }
  }

  lemma NextServed(c: Config, s: State, q: nat, ns: seq<int32>, sec: int, clocks: nat -> Clock,
                   limit: int32, reqs: seq<RateLimiting.Request>)
    requires Permissive(c) && Served(s, limit, reqs)
    requires Staged(s, q, ns, AsSet(OnItsWay(ns, q)) + AsSet(OnItsWay(ns, q + 1)), OnItsWay(ns, q + 1))
    ensures Served(Tick(c, s, sec, clocks), limit,
                   if OnItsWay(ns, q) == [] then reqs else reqs + [Request(sec, ns[q - 1])])
  {
    hide Tick, Locate, Serve, AdmittedIn, Charged;
    var r := Tick(c, s, sec, clocks);
    if OnItsWay(ns, q) == [] {
      IdleTick(c, s, sec, clocks);
    } else {
      OneDecision(c, s, sec, clocks, q - 1);
      var l, o, a := Limiter(limit, 0, 0), r.log[|s.log|], Request(sec, ns[q - 1]);
      assert q - 1 in s.traces && r.log == s.log + [o];
      ServeSnoc(l, reqs, a, sec);
      forall x ensures Charged(r.log, x, false) == AdmittedIn(l, reqs + [a], x) {
        ChargedSnoc(s.log, o, x, false);
        ServeSnoc(l, reqs, a, x);
      }
    }
  }

  /** The events are valid, small and have the seconds of the first q ticks. */
  ghost predicate Timetable(u: Setup, events: seq<Event>, secs: seq<int>) {
    ValidEvents(events) && FitAtTicks(u, events, Slack(u.limit)) && TickSecs(events) == secs
  }

  ghost predicate At(u: Setup, events: seq<Event>, ns: seq<int32>, q: nat, reqs: seq<RateLimiting.Request>,
                     ids: set<TraceId>, current: seq<TraceId>) {
    var s := Reached(u, events);
    Staged(s, q, ns, ids, current) && Served(s, u.limit, reqs)
  }

  lemma HeldIsPlanned(s: State, ids: set<TraceId>, ns: seq<int32>, limit: int32)
    requires Holds(s, ids, ns) && Planned(ns, limit) && 0 < limit
    ensures HeldFit(s, Slack(limit))
  {}

  ghost predicate Fits(u: Setup, secs: seq<int>, ns: seq<int32>) {
    && u == Plain(|secs| + 1, u.limit, u.priorLimit) && 0 < u.limit && |secs| == |ns| + 1
    && Planned(ns, u.limit)
  }

  /** An event that is not a tick keeps the timetable. */
  lemma TimetableSnoc(u: Setup, events: seq<Event>, secs: seq<int>, e: Event)
    requires Timetable(u, events, secs) && !e.TickEvent? && ValidEvent(e)
    ensures Timetable(u, events + [e], secs)
  {
    hide FitAtTicks, TickSecs;
    FitSnoc(u, events, e, Slack(u.limit));
    TickSecsSnoc(events, e);
  }

  /** The trace arrives and reaches the current batch. */
  lemma ArrivalState(u: Setup, events: seq<Event>, ns: seq<int32>, q: nat, reqs: seq<RateLimiting.Request>)
    requires Permissive(u.config) && |Reached(u, events).deleteChan| <= q < u.config.maxNumTraces
    requires 0 < u.limit && Planned(ns, u.limit) && q < |ns| && ns[q] > 0
    requires At(u, events, ns, q, reqs, AsSet(OnItsWay(ns, q)), [])
    ensures
      var more := events + [Arrival(0, q, ns[q])] + [FillEvent];
      && |Reached(u, more).deleteChan| <= q + 1
      && At(u, more, ns, q, reqs, AsSet(OnItsWay(ns, q)) + {q}, [q])
  {
    hide Reached, Serve, AdmittedIn, Charged, Holds, Arrive, Planned;
    var s, e := Reached(u, events), Arrival(0, q, ns[q]);
    NextArrives(u.config, s, q, ns, u.limit);
    ReachedSnoc(u, events, e);
    ReachedSnoc(u, events + [e], FillEvent);
  }

  lemma ArrivalStage(u: Setup, events: seq<Event>, secs: seq<int>, ns: seq<int32>, q: nat,
                     reqs: seq<RateLimiting.Request>)
    requires Fits(u, secs, ns) && q < |secs|
    requires Timetable(u, events, secs[..q]) && |Reached(u, events).deleteChan| <= q
    requires At(u, events, ns, q, reqs, AsSet(OnItsWay(ns, q)), [])
    ensures
      var more := events + Before(ns, q);
      && Timetable(u, more, secs[..q]) && |Reached(u, more).deleteChan| <= q + 1
      && At(u, more, ns, q, reqs, AsSet(OnItsWay(ns, q)) + AsSet(OnItsWay(ns, q + 1)), OnItsWay(ns, q + 1))
  {
    hide Reached, At, Timetable;
    if Before(ns, q) == [] {
      assert events + Before(ns, q) == events && AsSet(OnItsWay(ns, q + 1)) == {};
      assert AsSet(OnItsWay(ns, q)) + {} == AsSet(OnItsWay(ns, q));
    } else {
      var e := Arrival(0, q, ns[q]);
      ArrivalState(u, events, ns, q, reqs);
      TimetableSnoc(u, events, secs[..q], e);
      TimetableSnoc(u, events + [e], secs[..q], FillEvent);
      assert events + Before(ns, q) == events + [e] + [FillEvent];
      assert AsSet(OnItsWay(ns, q + 1)) == {q} && OnItsWay(ns, q + 1) == [q];
    }
  }

  lemma TickStage(u: Setup, events: seq<Event>, secs: seq<int>, ns: seq<int32>, q: nat, reqs: seq<RateLimiting.Request>)
    requires Fits(u, secs, ns) && q < |secs|
    requires Timetable(u, events, secs[..q])
    requires At(u, events, ns, q, reqs, AsSet(OnItsWay(ns, q)) + AsSet(OnItsWay(ns, q + 1)), OnItsWay(ns, q + 1))
    ensures
      var more := events + [TickEvent(secs[q], _ => _ => 0)];
      && Timetable(u, more, secs[..q + 1]) && Reached(u, more).deleteChan == Reached(u, events).deleteChan
      && At(u, more, ns, q + 1, if OnItsWay(ns, q) == [] then reqs else reqs + [Request(secs[q], ns[q - 1])],
            AsSet(OnItsWay(ns, q + 1)), [])
  {
    hide Reached, Served, Locate, Tick, FitAtTicks, TickSecs, HeldFit, Planned;
    var s := Reached(u, events);
    var e := TickEvent(secs[q], _ => _ => 0);
    NextDecided(u.config, s, q, ns, secs[q], e.clocks);
    NextServed(u.config, s, q, ns, secs[q], e.clocks, u.limit, reqs);
    ReachedSnoc(u, events, e);
    HeldIsPlanned(s, AsSet(OnItsWay(ns, q)) + AsSet(OnItsWay(ns, q + 1)), ns, u.limit);
    FitSnoc(u, events, e, Slack(u.limit));
    TickSecsSnoc(events, e);
  }

  lemma AskedByNext(secs: seq<int>, ns: seq<int32>, q: nat)
    requires |secs| == |ns| + 1 && q < |secs|
    ensures AskedBy(secs, ns, q + 1) ==
      if OnItsWay(ns, q) == [] then AskedBy(secs, ns, q) else AskedBy(secs, ns, q) + [Request(secs[q], ns[q - 1])]
  {
    if q > 0 {
      var t := secs[1..];
      assert t[..q][..q - 1] == t[..q - 1] && ns[..q][..q - 1] == ns[..q - 1];
    }
  }

  lemma NothingYet(u: Setup, ns: seq<int32>)
    requires u == Plain(u.config.maxNumTraces, u.limit, u.priorLimit)
    ensures At(u, [], ns, 0, [], {}, []) && Reached(u, []).deleteChan == []
    ensures Timetable(u, [], [])
  {
    assert Reached(u, []).pipeline.pipe == [[]];
  }

  /** The plan makes the limiter serve exactly the planned requests. */
  lemma {:induction false} PlanRuns(u: Setup, secs: seq<int>, ns: seq<int32>, q: nat)
    requires Fits(u, secs, ns) && q <= |secs|
    ensures
      var events := Plan(secs, ns, q);
      && Timetable(u, events, secs[..q]) && |Reached(u, events).deleteChan| <= q
      && At(u, events, ns, q, AskedBy(secs, ns, q), AsSet(OnItsWay(ns, q)), [])
  {
    hide Reached, Timetable, At, Planned;
    if q == 0 {
      NothingYet(u, ns);
      assert AsSet(OnItsWay(ns, 0)) == {} && secs[..0] == [];
    } else {
      var events := Plan(secs, ns, q - 1);
      PlanRuns(u, secs, ns, q - 1);
      var reqs := AskedBy(secs, ns, q - 1);
      ArrivalStage(u, events, secs, ns, q - 1, reqs);
      TickStage(u, events + Before(ns, q - 1), secs, ns, q - 1, reqs);
      AskedByNext(secs, ns, q - 1);
    }
  }

  /** In any processor with this limit, in any run with these tick seconds, no second is over the limit. */
  ghost predicate RateKept(limit: int32, secs: seq<int>) {
    forall u, events, second :: Admissible(u, events, limit, secs) ==>
      Charged(Reached(u, events).log, second, false) <= limit
  }

  ghost predicate Admissible(u: Setup, events: seq<Event>, limit: int32, secs: seq<int>) {
    && ValidSetup(u) && u.limit == limit && ValidEvents(events)
    && FitAtTicks(u, events, Slack(limit)) && TickSecs(events) == secs
  }

  lemma Overcharge(limit: int32, secs: seq<int>, i: nat, k: nat, j: nat)
    requires 0 < limit && 2 * limit < INT32_MAX && i < k < j < |secs| - 1
    requires secs[1..][i] == secs[1..][j] && secs[1..][i] < secs[1..][k] && 0 < secs[1..][k]
    ensures !RateKept(limit, secs)
  {
    hide Reached, Plan, AskedBy, Staged, AdmittedIn, Charged, Serve, FitAtTicks, TickSecs;
    var times := secs[1..];
    var ns := Greed(limit, |times|, i, k, j);
    var u := Plain(|secs| + 1, limit, 0);
    var events := Plan(secs, ns, |secs|);
    PlanRuns(u, secs, ns, |secs|);
    assert secs[..|secs|] == secs;
    assert AskedBy(secs, ns, |secs|) == Asked(times, ns) by { AskedByAll(secs, ns); }
    GreedOvercharges(limit, times, i, k, j);
    assert Admissible(u, events, limit, secs);
    assert Charged(Reached(u, events).log, times[i], false) > limit;
  }

  lemma AskedByAll(secs: seq<int>, ns: seq<int32>)
    requires |secs| == |ns| + 1
    ensures AskedBy(secs, ns, |secs|) == Asked(secs[1..], ns)
  {
    assert secs[1..][..|ns|] == secs[1..] && ns[..|ns|] == ns;
  }

  /**
   The clock condition is exact: for given tick seconds the limit is kept in all runs of all processors that have
   it if and only if, the first tick apart, no second comes again after a later one.
   */
  lemma GlobalRateIff(limit: int32, secs: seq<int>)
    requires 0 < limit && 2 * limit < INT32_MAX
    ensures NoReturn(ButFirst(secs)) <==> RateKept(limit, secs)
  {
    hide Reached, Charged, FitAtTicks, TickSecs;
    if NoReturn(ButFirst(secs)) {
      forall u, events, second | Admissible(u, events, limit, secs)
        ensures Charged(Reached(u, events).log, second, false) <= limit
      {
        GlobalRate(u, events, second);
      }
    } else {
      var t := ButFirst(secs);
      var i, k, j :| 0 <= i < k < j < |t| && t[i] == t[j] && !(t[k] <= t[i] || t[k] <= 0);
      Overcharge(limit, secs, i, k, j);
    }
  }

  // ---- Late spans ----

  /** One trace arrives and is sampled. */
  function Opening(now: int): seq<Event> {
    [Arrival(now, 0, 1), FillEvent, TickEvent(0, _ => _ => 0), TickEvent(0, _ => _ => 0)]
  }

  /** Then either more of its spans arrive, as many as planned, or another trace. */
  function Late(nows: seq<int>, ns: seq<int32>): seq<Event>
    requires |ns| == |nows|
  {
    if |nows| == 0 then []
    else
      var m := |nows| - 1;
      Late(nows[..m], ns[..m]) + [LateArrivalAt(nows, ns, m)]
  }

  ghost predicate Remembers(s: State) {
    && s.history.Keys == {0} && s.history[0].decision == Sampled
  }

  ghost predicate LateServed(s: State, limit: int32, reqs: seq<RateLimiting.Request>) {
    var l := Limiter(limit, 0, 0);
    && s.priorLimiter == Serve(l, reqs)
    && forall x :: Charged(s.log, x, true) == AdmittedIn(l, reqs, x)
  }

  lemma OpeningRuns(u: Setup, now: int)
    requires u == Plain(1, 0, u.priorLimit)
    ensures Remembers(Reached(u, Opening(now))) && LateServed(Reached(u, Opening(now)), u.priorLimit, [])
  {
    hide Arrive, Tick, Init, Run, Locate, Charged;
    var c, es := u.config, Opening(now);
    assert es == [] + [es[0]] + [es[1]] + [es[2]] + [es[3]];
    var s0 := Reached(u, []);
    StartedPlain(u);
    ReachedSnoc(u, [], es[0]);
    NewArrival(c, s0, now, 0, 1);
    ArriveBuffered(c, s0, now, map[], 0, Spans(0, 1));
    var s1 := Reached(u, [] + [es[0]]);
    ReachedSnoc(u, [] + [es[0]], es[1]);
    var s2 := Reached(u, [] + [es[0]] + [es[1]]);
    ReachedSnoc(u, [] + [es[0]] + [es[1]], es[2]);
    IdleTick(c, s2, 0, es[2].clocks);
    var s3 := Reached(u, [] + [es[0]] + [es[1]] + [es[2]]);
    assert s2.pipeline.current == [] + [0] == [0];
    assert s3.pipeline.pipe == [] + [[0]] == [[0]];
    ReachedSnoc(u, [] + [es[0]] + [es[1]] + [es[2]], es[3]);
    OneDecision(c, s3, 0, es[3].clocks, 0);
    TickLog(c, s3, 0, es[3].clocks);
    var s4 := Reached(u, es);
    forall x ensures Charged(s4.log, x, true) == AdmittedIn(Limiter(u.priorLimit, 0, 0), [], x) {
      assert s3.log == [];
      UnchargedSuffix([], s4.log, x, true);
      assert Charged([], x, true) == 0 by { NoCharge(x); }
    }
  }

  lemma NoCharge(x: int)
    ensures Charged([], x, true) == 0
  {}

  lemma StartedPlain(u: Setup)
    requires u == Plain(1, 0, u.priorLimit)
    ensures
      var s := Reached(u, []);
      && s == Init(u) && s.budgets == [] && s.pipeline.pipe == [[]] && s.pipeline.pending == [] && s.log == []
      && s.pipeline.current == [] && !s.pipeline.stopped && s.deleteChan == [] && s.traces == map[]
      && s.history == map[] && s.priorLimiter == Limiter(u.priorLimit, 0, 0) && s.decisionLimiter == Limiter(0, 0, 0)
  {
    assert Init(u).pipeline.pipe == [[]];
  }

  lemma LateStep(u: Setup, s: State, now: int, n: int32, reqs: seq<RateLimiting.Request>)
    requires 1 <= u.config.maxNumTraces && 0 < n && Remembers(s) && LateServed(s, u.priorLimit, reqs)
    ensures
      var r := Arrive(u.config, s, now, map[], 0, Spans(0, n));
      Remembers(r) && LateServed(r, u.priorLimit, reqs + [Request(now, n)])
  {
    hide PrepareBatch, LocateTraces, Limiter.Update, Limiter.Admits, Serve, AdmittedIn, Charged;
    var spans := Spans(0, n);
    LocateAppend([], map[], spans);
    assert |LocateSpans(map[], spans)| == n;
    var r := Arrive(u.config, s, now, map[], 0, spans);
    var l, o, a := Limiter(u.priorLimit, 0, 0), r.log[|s.log|], Request(now, n);
    assert r.log == s.log + [o];
    ServeSnoc(l, reqs, a, now);
    forall x ensures Charged(r.log, x, true) == AdmittedIn(l, reqs + [a], x) {
      ChargedSnoc(s.log, o, x, true);
      ServeSnoc(l, reqs, a, x);
    }
  }

  lemma OtherStep(u: Setup, s: State, now: int, id: TraceId, reqs: seq<RateLimiting.Request>)
    requires 1 <= u.config.maxNumTraces && id != 0 && Remembers(s) && LateServed(s, u.priorLimit, reqs)
    ensures
      var r := Arrive(u.config, s, now, map[], id, Spans(id, 1));
      Remembers(r) && LateServed(r, u.priorLimit, reqs)
  {
    hide Arrive, Serve, AdmittedIn, Charged, Extends;
    ArriveBuffered(u.config, s, now, map[], id, Spans(id, 1));
    ArriveStands(u.config, s, now, map[], id, Spans(id, 1));
    var r := Arrive(u.config, s, now, map[], id, Spans(id, 1));
    forall x ensures Charged(r.log, x, true) == Charged(s.log, x, true) {
      UnchargedSuffix(s.log, r.log, x, true);
    }
  }

  lemma ArrivalTimesSnoc(events: seq<Event>, e: Event)
    ensures ArrivalTimes(events + [e]) == ArrivalTimes(events) + if e.ArriveEvent? then [e.now] else []
  {
    assert (events + [e])[..|events|] == events;
  }

  ghost predicate LateTable(events: seq<Event>, times: seq<int>, limit: int32) {
    ValidEvents(events) && ArrivalsFit(events, limit) && ArrivalTimes(events) == times
  }

  lemma LateTableSnoc(events: seq<Event>, times: seq<int>, limit: int32, e: Event)
    requires LateTable(events, times, limit)
    requires e.ArriveEvent? ==> 0 < |e.spans| && |e.spans| + Slack(limit) <= INT32_MAX
    ensures LateTable(events + [e], if e.ArriveEvent? then times + [e.now] else times, limit)
  {
    hide ArrivalTimes;
    ArrivalTimesSnoc(events, e);
  }

  lemma NoLateTable(limit: int32)
    ensures LateTable([], [], limit)
  {}

  lemma OpeningTable(now: int, limit: int32)
    requires 0 < limit < INT32_MAX
    ensures LateTable(Opening(now), [now], limit)
  {
    hide LateTable;
    var es := Opening(now);
    var a := [] + [es[0]];
    var b := a + [es[1]];
    var d := b + [es[2]];
    NoLateTable(limit);
    LateTableSnoc([], [], limit, es[0]);
    assert [] + [now] == [now];
    LateTableSnoc(a, [now], limit, es[1]);
    LateTableSnoc(b, [now], limit, es[2]);
    LateTableSnoc(d, [now], limit, es[3]);
    assert es == d + [es[3]];
  }

  /** The m-th of the arrivals after the opening. */
  function LateArrivalAt(nows: seq<int>, ns: seq<int32>, m: nat): Event
    requires m < |nows| == |ns|
  {
    if ns[m] > 0 then Arrival(nows[m], 0, ns[m]) else Arrival(nows[m], m + 1, 1)
  }

  lemma LateArrives(u: Setup, init: seq<Event>, nows: seq<int>, ns: seq<int32>, m: nat, reqs: seq<RateLimiting.Request>)
    requires ValidSetup(u) && ValidEvents(init) && m < |nows| == |ns|
    requires Remembers(Reached(u, init)) && LateServed(Reached(u, init), u.priorLimit, reqs)
    ensures
      var r := Reached(u, init + [LateArrivalAt(nows, ns, m)]);
      && Remembers(r)
      && LateServed(r, u.priorLimit, if ns[m] > 0 then reqs + [Request(nows[m], ns[m])] else reqs)
  {
    hide Reached, Remembers, LateServed, Arrive, Inv;
    ReachedInv(u, init);
    WiredByInv(u.config, Reached(u, init));
    ReachedSnoc(u, init, LateArrivalAt(nows, ns, m));
    if ns[m] > 0 {
      LateStep(u, Reached(u, init), nows[m], ns[m], reqs);
    } else {
      OtherStep(u, Reached(u, init), nows[m], m + 1, reqs);
    }
  }

  lemma {:induction false} LateRuns(u: Setup, first: int, nows: seq<int>, ns: seq<int32>)
    requires u == Plain(1, 0, u.priorLimit) && |ns| == |nows|
    requires 0 < u.priorLimit < INT32_MAX && Planned(ns, u.priorLimit)
    ensures
      var events := Opening(first) + Late(nows, ns);
      && LateTable(events, [first] + nows, u.priorLimit)
      && Remembers(Reached(u, events)) && LateServed(Reached(u, events), u.priorLimit, Asked(nows, ns))
  {
    hide Reached, Remembers, LateServed, LateTable, Opening;
    if |nows| == 0 {
      OpeningRuns(u, first);
      OpeningTable(first, u.priorLimit);
      assert Opening(first) + Late(nows, ns) == Opening(first) && [first] + nows == [first];
    } else {
      var m := |nows| - 1;
      LateRuns(u, first, nows[..m], ns[..m]);
      var init := Opening(first) + Late(nows[..m], ns[..m]);
      var e := LateArrivalAt(nows, ns, m);
      assert Opening(first) + Late(nows, ns) == init + [e];
      LateTableSnoc(init, [first] + nows[..m], u.priorLimit, e);
      assert [first] + nows == ([first] + nows[..m]) + [nows[m]];
      assert ValidEvents(init) by { TableValid(init, [first] + nows[..m], u.priorLimit); }
      LateArrives(u, init, nows, ns, m, Asked(nows[..m], ns[..m]));
    }
  }

  lemma TableValid(events: seq<Event>, times: seq<int>, limit: int32)
    requires LateTable(events, times, limit)
    ensures ValidEvents(events)
  {}

  /** In any processor with this limit, in any run with these arrival times, no second's late spans are over it. */
  ghost predicate LateRateKept(limit: int32, times: seq<int>) {
    forall u, events, second :: ValidSetup(u) && u.priorLimit == limit && LateTable(events, times, limit) ==>
      Charged(Reached(u, events).log, second, true) <= limit
  }

  /**
   The clock condition on arrivals is exact as well: for given arrival times the limit for late spans is kept in all
   runs of all processors that have it if and only if, the first arrival apart, no second comes again after a later one.
   */
  lemma LateRateIff(limit: int32, times: seq<int>)
    requires 0 < limit && 2 * limit < INT32_MAX
    ensures NoReturn(ButFirst(times)) <==> LateRateKept(limit, times)
  {
    hide Reached, Charged, ArrivalTimes, AdmittedIn, Serve, Asked, ArrivalsFit;
    if NoReturn(ButFirst(times)) {
      forall u, events, second | ValidSetup(u) && u.priorLimit == limit && LateTable(events, times, limit)
        ensures Charged(Reached(u, events).log, second, true) <= limit
      {
        LateRate(u, events, second);
      }
    } else {
      var t := ButFirst(times);
      var i, k, j :| 0 <= i < k < j < |t| && t[i] == t[j] && !(t[k] <= t[i] || t[k] <= 0);
      var ns := Greed(limit, |t|, i, k, j);
      var u := Plain(1, 0, limit);
      LateRuns(u, times[0], t, ns);
      GreedOvercharges(limit, t, i, k, j);
      var events := Opening(times[0]) + Late(t, ns);
      assert [times[0]] + t == times;
      assert LateTable(events, times, limit) && Charged(Reached(u, events).log, t[i], true) > limit;
    }
  }
}
