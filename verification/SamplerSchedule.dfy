/**
 When the sampler gets to a trace: the exact delay of the id pipeline, seen from the trace buffer, and the stale ids
 a decided trace leaves behind in the eviction queue.
 */
module SamplerSchedule {
  import opened Base
  import opened Sampling
  import opened RateLimiting
  import IdBatcher
  import opened Sampler
  import opened SamplerInvariants
  import opened SamplerLimits

  function Ticks(events: seq<Event>): nat {
    if |events| == 0 then 0
    else Ticks(events[..|events| - 1]) + if events[|events| - 1].TickEvent? then 1 else 0
  }

  /** The id comes out with one of the next d takes. */
  ghost predicate DueWithin(p: IdBatcher.Pipeline<TraceId>, id: TraceId, d: nat) {
    || (exists j :: 0 <= j < d && j < |p.pipe| && id in p.pipe[j])
    || (|p.pipe| < d && id in p.current)
  }

  /** The id comes out with none of the next d takes. */
  ghost predicate NotDue(p: IdBatcher.Pipeline<TraceId>, id: TraceId, d: nat) {
    d <= |p.pipe| && forall j :: 0 <= j < d ==> id !in p.pipe[j]
  }

  // ---- What the events do to the pipeline ----

  /** No batch is closed or taken. */
  ghost predicate Standing(p: IdBatcher.Pipeline<TraceId>, q: IdBatcher.Pipeline<TraceId>) {
    && q.numBatches == p.numBatches && q.pipe == p.pipe
    && forall x :: x in p.current ==> x in q.current
  }

  lemma LoadOrStoreStands(c: Config, s: State, id: TraceId, n: nat)
    requires 1 <= c.maxNumTraces
    ensures
      var r := LoadOrStore(c, s, id, n);
      && Standing(s.pipeline, r.pipeline) && r.history == s.history
      && r.traces.Keys <= s.traces.Keys + {id}
  {
    hide Enroll, Wrap32;
    if id !in s.traces {
      EnrollFrames(c, Store(s, id, n), id);
    }
  }

  lemma AppendStands(s: State, id: TraceId, batch: Traces)
    ensures
      var r := AppendBatch(s, id, batch);
      r.pipeline == s.pipeline && r.history == s.history && r.traces.Keys == s.traces.Keys
  {}

  /** An arrival closes and takes no batch, remembers nothing and buffers no trace but its own. */
  lemma ArriveStands(c: Config, s: State, now: int, res: Attributes, id: TraceId, spans: seq<Span>)
    requires 1 <= c.maxNumTraces
    ensures
      var r := Arrive(c, s, now, res, id, spans);
      && Standing(s.pipeline, r.pipeline) && r.history == s.history
      && r.traces.Keys <= s.traces.Keys + {id}
  {
    hide LoadOrStore, AppendBatch, Wrap32, PrepareBatch, Limiter.Update, Limiter.Admits;
    LoadOrStoreStands(c, s, id, |spans|);
    AppendStands(LoadOrStore(c, s, id, |spans|), id, PrepareBatch(res, spans));
  }

  lemma StepStands(c: Config, s: State, e: Event)
    requires Wired(c, s) && !e.TickEvent?
    ensures Standing(s.pipeline, React(c, s, e).pipeline)
    ensures forall x :: x in React(c, s, e).history ==> x in s.history
  {
    hide Arrive;
    match e
    case ArriveEvent(now, res, id, spans) => ArriveStands(c, s, now, res, id, spans);
    case FillEvent =>
    case ForgetEvent(_) =>
  }

  /** A tick takes one batch, settles exactly its buffered traces and remembers them. */
  lemma TickTakes(c: Config, s: State, sec: int, clocks: nat -> Clock, id: TraceId)
    requires Inv(c, s)
    ensures s.pipeline.pipe != [] && |s.pipeline.pipe| == s.pipeline.numBatches
    ensures
      var r := Tick(c, s, sec, clocks);
      && r.pipeline.numBatches == s.pipeline.numBatches
      && r.pipeline.pipe == s.pipeline.pipe[1..] + [s.pipeline.current]
      && (id in s.pipeline.pipe[0] ==> id !in r.traces)
      && (id !in s.pipeline.pipe[0] && id in r.history ==> id in s.history)
  {
    hide Decide, Entries, IdBatcher.Inside, TraceOk;
    var (pipeline, batch, _) := IdBatcher.TakeFirst(s.pipeline);
    DecideFrame(c, s.(pipeline := pipeline), sec, Entries(batch, clocks));
    BatchIds(batch, clocks, id);
  }

  lemma DueStep(p: IdBatcher.Pipeline<TraceId>, q: IdBatcher.Pipeline<TraceId>, id: TraceId, d: nat)
    requires p.pipe != [] && q.pipe == p.pipe[1..] + [p.current] && id !in p.pipe[0]
    ensures DueWithin(p, id, d) ==> 1 <= d && DueWithin(q, id, d - 1)
  {
    if DueWithin(p, id, d) {
      if |p.pipe| < d && id in p.current {
        assert id in q.pipe[|p.pipe| - 1];
      } else {
        var j :| 0 <= j < d && j < |p.pipe| && id in p.pipe[j];
        assert q.pipe[j - 1] == p.pipe[j];
      }
    }
  }

  // ---- No later than numBatches + 1 ticks ----

  /** The id has left the buffer at some point of the run. */
  ghost predicate Left(c: Config, s: State, events: seq<Event>, id: TraceId) {
    exists k :: 0 <= k <= |events| && id !in Run(c, s, events[..k]).traces
  }

  lemma LeftGrows(c: Config, s: State, events: seq<Event>, id: TraceId)
    requires events != []
    ensures Left(c, s, events[..|events| - 1], id) ==> Left(c, s, events, id)
    ensures id !in Run(c, s, events).traces ==> Left(c, s, events, id)
  {
    hide Run;
    var init := events[..|events| - 1];
    if Left(c, s, init, id) {
      var k :| 0 <= k <= |init| && id !in Run(c, s, init[..k]).traces;
      assert init[..k] == events[..k];
    }
    assert events[..|events|] == events;
  }

  lemma {:induction false} DueRun(c: Config, s: State, events: seq<Event>, id: TraceId, d: nat)
    requires Inv(c, s) && ValidEvents(events) && DueWithin(s.pipeline, id, d)
    ensures Left(c, s, events, id)
         || (Ticks(events) < d && DueWithin(Run(c, s, events).pipeline, id, d - Ticks(events)))
  {
    hide Inv, React, Left;
    if |events| > 0 {
      var init, e := events[..|events| - 1], events[|events| - 1];
      DueRun(c, s, init, id, d);
      LeftGrows(c, s, events, id);
      RunInv(c, s, init);
      var m := Run(c, s, init);
      WiredByInv(c, m);
      if !Left(c, s, init, id) {
        if e.TickEvent? {
          TickTakes(c, m, e.sec, e.clocks, id);
          assert Run(c, s, events) == Tick(c, m, e.sec, e.clocks) by { TickReacts(c, m, e); }
          if id !in m.pipeline.pipe[0] {
            DueStep(m.pipeline, Run(c, s, events).pipeline, id, d - Ticks(init));
          }
        } else {
          StepStands(c, m, e);
        }
      }
    }
  }

  lemma TickReacts(c: Config, s: State, e: Event)
    requires Wired(c, s) && e.TickEvent?
    ensures React(c, s, e) == Tick(c, s, e.sec, e.clocks)
  {}

  lemma {:induction false} InsideSomewhere(bs: seq<IdBatcher.Batch<TraceId>>, id: TraceId)
    requires id in IdBatcher.Concat(bs)
    ensures exists j :: 0 <= j < |bs| && id in bs[j]
  {
    if |bs| > 0 && id !in bs[|bs| - 1] {
      InsideSomewhere(bs[..|bs| - 1], id);
    }
  }

  lemma {:induction false} StagesKept(u: Setup, events: seq<Event>)
    requires ValidSetup(u) && ValidEvents(events)
    ensures Reached(u, events).pipeline.numBatches == u.numBatches
  {
    hide Inv, React;
    if |events| > 0 {
      var init, e := events[..|events| - 1], events[|events| - 1];
      StagesKept(u, init);
      ReachedInv(u, init);
      var m := Reached(u, init);
      WiredByInv(u.config, m);
      if e.TickEvent? {
        TickTakes(u.config, m, e.sec, e.clocks, 0);
        TickReacts(u.config, m, e);
      } else {
        StepStands(u.config, m, e);
      }
    }
  }

  /**
   A buffered trace whose id has left the pending channel is decided or evicted within numBatches + 1 ticks,
   whatever else happens.
   */
  lemma DecidedWithin(u: Setup, before: seq<Event>, after: seq<Event>, id: TraceId)
    requires ValidSetup(u) && ValidEvents(before) && ValidEvents(after)
    requires id in Reached(u, before).traces && id !in Reached(u, before).pipeline.pending
    requires u.numBatches + 1 <= Ticks(after)
    ensures exists k :: 0 <= k <= |after| && id !in Reached(u, before + after[..k]).traces
  {
    hide Run, Init;
    ReachedInv(u, before);
    StagesKept(u, before);
    var s := Reached(u, before);
    assert id in IdBatcher.Inside(s.pipeline);
    if id in IdBatcher.Concat(s.pipeline.pipe) {
      InsideSomewhere(s.pipeline.pipe, id);
    }
    assert DueWithin(s.pipeline, id, u.numBatches + 1);
    DueRun(u.config, s, after, id, u.numBatches + 1);
    var k :| 0 <= k <= |after| && id !in Run(u.config, s, after[..k]).traces;
    RunAppend(u.config, Init(u), before, after[..k]);
  }

  // ---- No earlier ----

  lemma {:induction false} NotDueRun(c: Config, s: State, events: seq<Event>, id: TraceId, d: nat)
    requires Inv(c, s) && ValidEvents(events) && NotDue(s.pipeline, id, d) && id !in s.history
    requires Ticks(events) <= d
    ensures id !in Run(c, s, events).history && NotDue(Run(c, s, events).pipeline, id, d - Ticks(events))
  {
    hide Inv, React;
    if |events| > 0 {
      var init, e := events[..|events| - 1], events[|events| - 1];
      NotDueRun(c, s, init, id, d);
      RunInv(c, s, init);
      var m := Run(c, s, init);
      WiredByInv(c, m);
      if e.TickEvent? {
        TickTakes(c, m, e.sec, e.clocks, id);
        TickReacts(c, m, e);
      } else {
        StepStands(c, m, e);
      }
    }
  }

  /**
   The decision wait: a trace whose id is not in the pipeline when it arrives, or is still pending in it, has no
   decision in the next numBatches ticks, whatever else happens.
   */
  lemma NotDecidedBefore(u: Setup, before: seq<Event>, after: seq<Event>, id: TraceId)
    requires ValidSetup(u) && ValidEvents(before) && ValidEvents(after)
    requires id !in Reached(u, before).history && id !in IdBatcher.Concat(Reached(u, before).pipeline.pipe)
    requires Ticks(after) <= u.numBatches
    ensures id !in Reached(u, before + after).history
  {
    hide Run, Init;
    ReachedInv(u, before);
    StagesKept(u, before);
    var s := Reached(u, before);
    forall j | 0 <= j < |s.pipeline.pipe| ensures id !in s.pipeline.pipe[j] {
      InConcat(s.pipeline.pipe, j, id);
    }
    NotDueRun(u.config, s, after, id, u.numBatches);
    RunAppend(u.config, Init(u), before, after);
  }

  lemma {:induction false} InConcat(bs: seq<IdBatcher.Batch<TraceId>>, j: nat, id: TraceId)
    requires j < |bs|
    ensures id in bs[j] ==> id in IdBatcher.Concat(bs)
  {
    if j < |bs| - 1 {
      InConcat(bs[..|bs| - 1], j, id);
    }
  }

  // ---- Stale ids in the eviction queue ----

  /**
   A new trace is evicted by its own arrival if and only if the eviction queue is full and a stale entry of its own
   id is the oldest in it; its spans then count as evicted.
   */
  lemma SelfEvictionIff(u: Setup, events: seq<Event>, now: int, res: Attributes, id: TraceId, spans: seq<Span>)
    requires ValidSetup(u) && ValidEvents(events) && spans != []
    requires id !in Reached(u, events).traces && id !in Reached(u, events).history
    ensures
      var s := Reached(u, events);
      var r := Arrive(u.config, s, now, res, id, spans);
      var full := |s.deleteChan| == u.config.maxNumTraces;
      && (id !in r.traces <==> full && s.deleteChan[0] == id)
      && (id !in r.traces ==>
            Settled(r.log, id, EvictedFate) == Settled(s.log, id, EvictedFate) + multiset(LocateSpans(res, spans)))
  {
    hide Run, Init, IdBatcher.Inv, IdBatcher.Inside, AddId, Wrap32, PrepareBatch;
    hide Settled, LocateSpans, Locate, LocateTraces;
    ReachedInv(u, events);
    var s := Reached(u, events);
    var c := u.config;
    EnrollOnce(c, Store(s, id, |spans|), id);
    var r := Arrive(c, s, now, res, id, spans);
    if id !in r.traces {
      var batch := PrepareBatch(res, spans);
      var gone := Evicted(id, []);
      assert r.log == s.log + [gone] + [Evicted(id, [batch])];
      SettledSnoc(s.log, gone, id, EvictedFate);
      SettledSnoc(s.log + [gone], Evicted(id, [batch]), id, EvictedFate);
      EmptyLocate();
      LocateAppend([], res, spans);
    }
  }

  lemma EnrollOnce(c: Config, s: State, id: TraceId)
    requires 1 <= c.maxNumTraces && |s.deleteChan| <= c.maxNumTraces
    ensures Enroll(c, s, id) ==
      if |s.deleteChan| < c.maxNumTraces then s.(deleteChan := s.deleteChan + [id])
      else
        var s1 := Evict(s.(deleteChan := s.deleteChan[1..]), s.deleteChan[0]);
        s1.(deleteChan := s.deleteChan[1..] + [id])
  {}

  /** A reject rule that no trace meets: it makes the processor work, and lets everything through. */
  function RejectNothing(): RejectRule {
    RejectRule(None, None, [], Some(_ => false))
  }

  /** A processor for one trace, without policies or limits. */
  function Tiny(): Setup {
    Setup(Config(1, [], [RejectNothing()]), 1, 1, 0, 0)
  }

  /** One trace arrives, is decided, and its decision is forgotten; its id stays behind in the eviction queue. */
  function DecidedAndForgotten(res: Attributes, spans: seq<Span>): seq<Event> {
    [ArriveEvent(0, res, 7, spans), FillEvent, TickEvent(1, _ => _ => 1), TickEvent(2, _ => _ => 2), ForgetEvent(7)]
  }

  lemma ReachedSnoc(u: Setup, events: seq<Event>, e: Event)
    requires Wired(u.config, Reached(u, events))
    ensures Reached(u, events + [e]) == React(u.config, Reached(u, events), e)
  {
    hide React;
    assert (events + [e])[..|events|] == events;
  }

  /** The first arrival in an empty processor for one trace. */
  lemma FirstArrival(res: Attributes, spans: seq<Span>)
    requires spans != []
    ensures
      var s := Arrive(Tiny().config, Init(Tiny()), 0, res, 7, spans);
      && s.traces.Keys == {7} && s.deleteChan == [7] && s.history == map[] && s.budgets == []
      && s.pipeline.pipe == [[]] && s.pipeline.current == [] && s.pipeline.pending == [7] && !s.pipeline.stopped
  {
    hide Wrap32, PrepareBatch;
    var c, s := Tiny().config, Init(Tiny());
    EnrollOnce(c, Store(s, 7, |spans|), 7);
    assert s.pipeline.pipe == [[]];
  }

  /** A tick that decides the only buffered trace. */
  lemma LastTick(c: Config, s: State, sec: int, clocks: nat -> Clock, id: TraceId)
    requires |s.budgets| == |c.accepts| && s.pipeline.pipe != [] && s.pipeline.pipe[0] == [id]
    requires s.traces.Keys == {id}
    ensures
      var r := Tick(c, s, sec, clocks);
      && r.traces == map[] && r.deleteChan == s.deleteChan && |r.budgets| == |c.accepts|
      && (forall x :: x in r.history && x != id ==> x in s.history)
  {
    hide Decide;
    var (pipeline, batch, _) := IdBatcher.TakeFirst(s.pipeline);
    var s1 := s.(pipeline := pipeline);
    DecideFrame(c, s1, sec, Entries(batch, clocks));
    forall x ensures x in Ids(Entries(batch, clocks)) <==> x == id {
      BatchIds(batch, clocks, x);
    }
    assert Tick(c, s, sec, clocks).traces.Keys == {};
  }

  /** The processor is empty but for the id of a trace it no longer knows. */
  lemma LeftBehind(res: Attributes, spans: seq<Span>)
    requires spans != []
    ensures
      var s := Reached(Tiny(), DecidedAndForgotten(res, spans));
      s.traces == map[] && s.history == map[] && s.deleteChan == [7] && s.budgets == []
  {
    hide Arrive, Tick, Init, Run;
    var u := Tiny();
    var c, es := u.config, DecidedAndForgotten(res, spans);
    assert es == [] + [es[0]] + [es[1]] + [es[2]] + [es[3]] + [es[4]];
    var s0 := Reached(u, []);
    assert s0 == Init(u) && s0.budgets == [] by { Started(u); }
    ReachedSnoc(u, [], es[0]);
    FirstArrival(res, spans);
    var s1 := Reached(u, [] + [es[0]]);
    ReachedSnoc(u, [] + [es[0]], es[1]);
    var s2 := Reached(u, [] + [es[0]] + [es[1]]);
    ReachedSnoc(u, [] + [es[0]] + [es[1]], es[2]);
    IdleTick(c, s2, 1, es[2].clocks);
    var s3 := Reached(u, [] + [es[0]] + [es[1]] + [es[2]]);
    assert s2.pipeline.pipe == [[]] && s2.pipeline.current == [] + [7] == [7];
    assert s3.pipeline.pipe == [] + [[7]] == [[7]];
    ReachedSnoc(u, [] + [es[0]] + [es[1]] + [es[2]], es[3]);
    LastTick(c, s3, 2, es[3].clocks, 7);
    var s4 := Reached(u, [] + [es[0]] + [es[1]] + [es[2]] + [es[3]]);
    ReachedSnoc(u, [] + [es[0]] + [es[1]] + [es[2]] + [es[3]], es[4]);
    assert (s4.history - {7}).Keys == {};
  }

  lemma Started(u: Setup)
    ensures Reached(u, []) == Init(u)
    ensures u.config.accepts == [] ==> Init(u).budgets == []
  {}

  /**
   The self-eviction happens: when the same trace comes again it is the only one in the processor, and yet
   all its spans are evicted.
   */
  lemma StaleIdEvicts(res: Attributes, spans: seq<Span>)
    requires spans != []
    ensures
      var before := DecidedAndForgotten(res, spans);
      var s, r := Reached(Tiny(), before), Reached(Tiny(), before + [ArriveEvent(3, res, 7, spans)]);
      && s.traces == map[] && r.traces == map[]
      && Settled(r.log, 7, EvictedFate) == Settled(s.log, 7, EvictedFate) + multiset(LocateSpans(res, spans))
  {
    hide Reached, Settled, LocateSpans, Arrive, DecidedAndForgotten;
    var u := Tiny();
    var before := DecidedAndForgotten(res, spans);
    LeftBehind(res, spans);
    assert ValidEvents(before) by { AllValid(res, spans); }
    SelfEvictionIff(u, before, 3, res, 7, spans);
    ReachedSnoc(u, before, ArriveEvent(3, res, 7, spans));
    var r := Arrive(u.config, Reached(u, before), 3, res, 7, spans);
    ArriveStands(u.config, Reached(u, before), 3, res, 7, spans);
    assert r.traces.Keys == {};
  }

  lemma AllValid(res: Attributes, spans: seq<Span>)
    requires spans != []
    ensures ValidEvents(DecidedAndForgotten(res, spans))
  {}
}
