/**
 What the arrival of spans does, told without the steps it is made of: late spans follow the decision remembered for
 their trace, others join it or make a new one, and a new one pushes out the trace queued longest if the queue is full.
 */
module SamplerArrivals {
  import opened Base
  import opened Sampling
  import opened RateLimiting
  import IdBatcher
  import opened Sampler
  import opened SamplerInvariants
  import opened SamplerHistory
  import opened SamplerSchedule

  // ---- A remembered trace ----

  /** The outcome gives up exactly these spans of the trace. */
  ghost predicate GivesUp(o: Outcome, id: TraceId, located: seq<Located>) {
    o.Rejected? && o.id == id && Locate(o.batches) == located
  }

  /** The outcome forwards exactly these spans of the trace, as late, under the remembered name and mark. */
  ghost predicate PassesLate(o: Outcome, id: TraceId, now: int, info: HistoryInfo, located: seq<Located>) {
    && o.Forwarded? && o.id == id && o.second == now
    && o.tag == LateArrival(info.filterName, info.probabilistic) && LocateTraces(o.traces) == located
  }

  /** Nothing changes but the log, by one outcome, and the prior limiter, if the trace was sampled. */
  ghost predicate LateTold(s: State, now: int, res: Attributes, id: TraceId, spans: seq<Span>, r: State)
    requires id in s.history
  {
    var info, n, ls := s.history[id], Wrap32(|spans|), LocateSpans(res, spans);
    && |r.log| == |s.log| + 1 && r.log[..|s.log|] == s.log
    && r == s.(log := r.log, priorLimiter := r.priorLimiter)
    && if info.decision == Sampled then
         && r.priorLimiter == s.priorLimiter.Update(now, n)
         && (if s.priorLimiter.Admits(now, n) then PassesLate(r.log[|s.log|], id, now, info, ls)
             else GivesUp(r.log[|s.log|], id, ls))
       else
         r.priorLimiter == s.priorLimiter && GivesUp(r.log[|s.log|], id, ls)
  }

  lemma LateArrives(c: Config, s: State, now: int, res: Attributes, id: TraceId, spans: seq<Span>)
    requires Inv(c, s) && id in s.history
    ensures LateTold(s, now, res, id, spans, Arrive(c, s, now, res, id, spans))
  {
    hide Locate, LocateTraces, LocateSpans, PrepareBatch, Wrap32, Limiter.Update, Limiter.Admits, BufferTrace, TraceOk;
    hide IdBatcher.Inv, IdBatcher.Inside;
    LocateAppend([], res, spans);
    assert Final(s.history[id].decision);
  }

  // ---- A buffered trace ----

  /** The spans join the trace, behind those it has, and are counted; nothing else changes. */
  ghost predicate JoinTold(s: State, res: Attributes, id: TraceId, spans: seq<Span>, r: State)
    requires id in s.traces
  {
    && id in r.traces && r == s.(traces := s.traces[id := r.traces[id]])
    && r.traces[id] == s.traces[id].(batches := r.traces[id].batches, spanCount := r.traces[id].spanCount)
    && Locate(r.traces[id].batches) == Locate(s.traces[id].batches) + LocateSpans(res, spans)
    && r.traces[id].spanCount == Wrap32(|Locate(r.traces[id].batches)|)
  }

  lemma JoinArrives(c: Config, s: State, now: int, res: Attributes, id: TraceId, spans: seq<Span>)
    requires Inv(c, s) && id in s.traces
    ensures JoinTold(s, res, id, spans, Arrive(c, s, now, res, id, spans))
  {
    hide Locate, PrepareBatch, Wrap32, IdBatcher.Inv, IdBatcher.Inside;
    var t := s.traces[id];
    LocateAppend(t.batches, res, spans);
    WrapAdd(|Locate(t.batches)|, |spans|);
    assert |LocateSpans(res, spans)| == |spans|;
    var r := Arrive(c, s, now, res, id, spans);
    assert r.traces == s.traces[id := r.traces[id]];
  }

  // ---- A new trace ----

  /** The trace queued longest, if the queue is full. */
  function PushedOut(c: Config, s: State): set<TraceId> {
    if |s.deleteChan| == c.maxNumTraces && s.deleteChan != [] then {s.deleteChan[0]} else {}
  }

  /** The new trace is buffered, scheduled last and queued last, with just its spans. */
  ghost predicate NewTold(c: Config, s: State, res: Attributes, id: TraceId, spans: seq<Span>, r: State) {
    var out := PushedOut(c, s);
    && r.deleteChan == (if out == {} then s.deleteChan else s.deleteChan[1..]) + [id]
    && r.traces.Keys == s.traces.Keys + {id} - out
    && (forall x :: x in r.traces && x != id ==> r.traces[x] == s.traces[x])
    && (id in r.traces ==>
          && Locate(r.traces[id].batches) == LocateSpans(res, spans) && r.traces[id].spanCount == Wrap32(|spans|)
          && r.traces[id].finalDecision == Unspecified && !r.traces[id].byProbability && r.traces[id].filterName == "")
    && IdBatcher.Inside(r.pipeline) == IdBatcher.Inside(s.pipeline) + [id]
    && r.numTracesOnMap == |r.traces|
    && r == s.(traces := r.traces, deleteChan := r.deleteChan, pipeline := r.pipeline,
               numTracesOnMap := r.numTracesOnMap, log := r.log)
    && NewLog(s, res, id, spans, out, r.log)
  }

  /** Only what is pushed out is logged: the spans of that trace, and those that have just come if it is the same. */
  ghost predicate NewLog(s: State, res: Attributes, id: TraceId, spans: seq<Span>,
                         out: set<TraceId>, log: seq<Outcome>) {
    if id in out then
      && |log| == |s.log| + 2 && log[..|s.log|] == s.log && log[|s.log|] == Evicted(id, [])
      && log[|s.log| + 1].Evicted? && log[|s.log| + 1].id == id
      && Locate(log[|s.log| + 1].batches) == LocateSpans(res, spans)
    else if exists x :: x in out && x in s.traces then
      var x :| x in out && x in s.traces;
      log == s.log + [Evicted(x, s.traces[x].batches)]
    else
      log == s.log
  }

  lemma AddIdLast(p: IdBatcher.Pipeline<TraceId>, id: TraceId)
    ensures IdBatcher.Inside(AddId(p, id)) == IdBatcher.Inside(p) + [id]
  {
    hide IdBatcher.Concat;
    var q := if |p.pending| < p.channelSize || p.pending == [] then p else IdBatcher.FillOne(p);
    assert IdBatcher.Inside(q) == IdBatcher.Inside(p);
  }

  /** The state r in which a new trace of n spans is buffered and queued, before its spans are handed over. */
  ghost predicate EnrolledAs(c: Config, s: State, id: TraceId, n: nat, r: State) {
    var all, full := s.traces[id := NewTrace(n)], |s.deleteChan| == c.maxNumTraces && s.deleteChan != [];
    && r == s.(traces := r.traces, deleteChan := r.deleteChan, pipeline := AddId(s.pipeline, id),
               numTracesOnMap := r.numTracesOnMap, log := r.log)
    && (if !full then r.deleteChan == s.deleteChan + [id] && r.traces == all && r.log == s.log
        else
          var x := s.deleteChan[0];
          && r.deleteChan == s.deleteChan[1..] + [id] && r.traces == all - {x}
          && r.log == if x in all then s.log + [Evicted(x, all[x].batches)] else s.log)
  }

  lemma Enrolled(c: Config, s: State, id: TraceId, n: nat)
    requires 1 <= c.maxNumTraces && |s.deleteChan| <= c.maxNumTraces && id !in s.traces
    ensures EnrolledAs(c, s, id, n, LoadOrStore(c, s, id, n))
  {
    hide Enroll, AddId, Wrap32;
    EnrollOnce(c, Store(s, id, n), id);
    var all := s.traces[id := NewTrace(n)];
    if |s.deleteChan| == c.maxNumTraces && s.deleteChan[0] !in all {
      assert all - {s.deleteChan[0]} == all;
    }
  }

  /** What an arrival of a new trace leaves alone, and the counter it keeps. */
  lemma NewFrame(c: Config, s: State, now: int, res: Attributes, id: TraceId, spans: seq<Span>)
    requires Inv(c, s) && id !in s.traces && id !in s.history && spans != []
    ensures
      var r := Arrive(c, s, now, res, id, spans);
      && r == AppendBatch(LoadOrStore(c, s, id, |spans|), id, PrepareBatch(res, spans))
      && r.numTracesOnMap == |r.traces|
      && IdBatcher.Inside(AddId(s.pipeline, id)) == IdBatcher.Inside(s.pipeline) + [id]
  {
    hide LoadOrStore, AppendBatch, PrepareBatch, IdBatcher.Inv, IdBatcher.Inside, AddId, TraceOk;
    ArriveInv(c, s, now, res, id, spans);
    AddIdLast(s.pipeline, id);
  }

  /** The traces and the queue after the spans are handed over. */
  lemma NewShape(c: Config, s: State, res: Attributes, id: TraceId, spans: seq<Span>, m: State)
    requires id !in s.traces && EnrolledAs(c, s, id, |spans|, m)
    ensures
      var r, out := AppendBatch(m, id, PrepareBatch(res, spans)), PushedOut(c, s);
      && r.deleteChan == (if out == {} then s.deleteChan else s.deleteChan[1..]) + [id]
      && r.traces.Keys == s.traces.Keys + {id} - out
      && (forall x :: x in r.traces && x != id ==> r.traces[x] == s.traces[x])
      && (id in r.traces ==> r.traces[id] == NewTrace(|spans|).(batches := [PrepareBatch(res, spans)]))
      && r.pipeline == AddId(s.pipeline, id)
      && r == s.(traces := r.traces, deleteChan := r.deleteChan, pipeline := r.pipeline,
                 numTracesOnMap := r.numTracesOnMap, log := r.log)
  {
    hide PrepareBatch, AddId, Wrap32;
    var r := AppendBatch(m, id, PrepareBatch(res, spans));
    assert r.traces.Keys == m.traces.Keys;
    assert [] + [PrepareBatch(res, spans)] == [PrepareBatch(res, spans)];
  }

  lemma NewLogged(c: Config, s: State, res: Attributes, id: TraceId, spans: seq<Span>, m: State)
    requires id !in s.traces && EnrolledAs(c, s, id, |spans|, m)
    ensures NewLog(s, res, id, spans, PushedOut(c, s), AppendBatch(m, id, PrepareBatch(res, spans)).log)
  {
    hide PrepareBatch, AddId, Wrap32, Locate, LocateSpans;
    LocateAppend([], res, spans);
  }

  lemma NewArrives(c: Config, s: State, now: int, res: Attributes, id: TraceId, spans: seq<Span>)
    requires Inv(c, s) && id !in s.traces && id !in s.history && spans != []
    ensures NewTold(c, s, res, id, spans, Arrive(c, s, now, res, id, spans))
  {
    hide Arrive, LoadOrStore, AppendBatch, PrepareBatch, EnrolledAs, NewLog, AddId, PushedOut, Wrap32;
    hide Locate, LocateSpans;
    hide IdBatcher.Inv, IdBatcher.Inside, TraceOk;
    NewFrame(c, s, now, res, id, spans);
    Enrolled(c, s, id, |spans|);
    var m := LoadOrStore(c, s, id, |spans|);
    NewShape(c, s, res, id, spans, m);
    NewLogged(c, s, res, id, spans, m);
    LocateAppend([], res, spans);
  }

  // ---- In every run ----

  /** What an arrival does in every run. */
  lemma ArrivalInRuns(u: Setup, events: seq<Event>, now: int, res: Attributes, id: TraceId, spans: seq<Span>)
    requires ValidSetup(u) && ValidEvents(events) && spans != []
    ensures
      var s, r := Reached(u, events), Reached(u, events + [ArriveEvent(now, res, id, spans)]);
      if id in s.history then LateTold(s, now, res, id, spans, r)
      else if id in s.traces then JoinTold(s, res, id, spans, r)
      else NewTold(u.config, s, res, id, spans, r)
  {
    hide Inv, Arrive, LateTold, JoinTold, NewTold, Init;
    ReachedInv(u, events);
    var s := Reached(u, events);
    WiredByInv(u.config, s);
    ReachedSnoc(u, events, ArriveEvent(now, res, id, spans));
    if id in s.history {
      LateArrives(u.config, s, now, res, id, spans);
    } else if id in s.traces {
      JoinArrives(u.config, s, now, res, id, spans);
    } else {
      NewArrives(u.config, s, now, res, id, spans);
    }
  }

  lemma StepRemembers(c: Config, s: State, e: Event, id: TraceId)
    requires Inv(c, s) && id in s.history && e != ForgetEvent(id)
    ensures var r := React(c, s, e); id in r.history && r.history[id] == s.history[id]
  {
    hide Arrive, Tick, TraceOk, IdBatcher.Inv, IdBatcher.Inside;
    match e
    case ArriveEvent(now, res, x, spans) => ArriveStands(c, s, now, res, x, spans);
    case TickEvent(sec, clocks) => TickSilent(c, s, sec, clocks, id);
    case FillEvent =>
    case ForgetEvent(x) =>
  }

  lemma {:induction false} RunRemembers(c: Config, s: State, events: seq<Event>, id: TraceId)
    requires Inv(c, s) && ValidEvents(events) && id in s.history
    requires forall i :: 0 <= i < |events| ==> events[i] != ForgetEvent(id)
    ensures var r := Run(c, s, events); id in r.history && r.history[id] == s.history[id]
  {
    hide Inv, React;
    if |events| > 0 {
      var init := events[..|events| - 1];
      RunRemembers(c, s, init, id);
      RunInv(c, s, init);
      WiredByInv(c, Run(c, s, init));
      StepRemembers(c, Run(c, s, init), events[|events| - 1], id);
    }
  }

  /**
   A late arrival carries what was recorded when its trace was decided, however long ago: as long as the decision is
   not forgotten, the spans pass under that name and mark if the trace was sampled and the prior limiter has room
   for them, and are given up otherwise.
   */
  lemma LateArrivalCarries(u: Setup, before: seq<Event>, after: seq<Event>, now: int, res: Attributes,
                           id: TraceId, spans: seq<Span>)
    requires ValidSetup(u) && ValidEvents(before) && ValidEvents(after) && spans != []
    requires id in Reached(u, before).history
    requires forall i :: 0 <= i < |after| ==> after[i] != ForgetEvent(id)
    ensures
      var info, m := Reached(u, before).history[id], Reached(u, before + after);
      var r := Reached(u, before + after + [ArriveEvent(now, res, id, spans)]);
      && |r.log| == |m.log| + 1 && r.log[..|m.log|] == m.log
      && if info.decision == Sampled && m.priorLimiter.Admits(now, Wrap32(|spans|))
         then PassesLate(r.log[|m.log|], id, now, info, LocateSpans(res, spans))
         else GivesUp(r.log[|m.log|], id, LocateSpans(res, spans))
  {
    hide Run, Init, Inv, PassesLate, GivesUp, LocateSpans, Wrap32, Limiter.Update, Limiter.Admits, JoinTold, NewTold;
    ReachedInv(u, before);
    RunAppend(u.config, Init(u), before, after);
    RunRemembers(u.config, Reached(u, before), after, id);
    ArrivalInRuns(u, before + after, now, res, id, spans);
  }
}
