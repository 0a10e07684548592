/**
 What every step of the sampler keeps: bounded memory, a live schedule for every buffered trace,
 a sound decision history, and the balance of received spans.
 */
module SamplerInvariants {
  import opened Base
  import opened Sampling
  import opened RateLimiting
  import opened IdBatcher
  import opened Sampler

  // ---- The invariant ----

  /** A trace between steps: undecided, holding spans, and counting them. */
  ghost predicate TraceOk(t: TraceData) {
    && t.finalDecision == Unspecified && !t.byProbability
    && Locate(t.batches) != []
    && t.spanCount == Wrap32(|Locate(t.batches)|)
  }

  predicate Final(d: Decision) {
    d == Sampled || d == NotSampled || d == Dropped
  }

  ghost predicate Inv(c: Config, s: State) {
    && 1 <= c.maxNumTraces
    && |s.budgets| == |c.accepts|
    && IdBatcher.Inv(s.pipeline) && 1 <= s.pipeline.channelSize && !s.pipeline.closing
    && s.numTracesOnMap == |s.traces|
    && |s.deleteChan| <= c.maxNumTraces
    && (forall id :: id in s.traces ==>
          && TraceOk(s.traces[id])
          && id in s.deleteChan && id in Inside(s.pipeline)
          && id !in s.history)
    && (forall id :: id in s.history ==> Final(s.history[id].decision))
  }

  // ---- Balance of spans ----

  /** Spans of a trace that are still buffered. */
  ghost function Held(s: State, id: TraceId): multiset<Located> {
    if id in s.traces then multiset(Locate(s.traces[id].batches)) else multiset{}
  }

  ghost function Contents(o: Outcome): multiset<Located> {
    if o.Forwarded? then multiset(LocateTraces(o.traces)) else multiset(Locate(o.batches))
  }

  datatype Fate = AnyFate | ForwardedFate | RejectedFate | EvictedFate

  predicate HasFate(o: Outcome, f: Fate) {
    match f
    case AnyFate => true
    case ForwardedFate => o.Forwarded?
    case RejectedFate => o.Rejected?
    case EvictedFate => o.Evicted?
  }

  /** Spans of a trace the log accounts for, by what became of them. */
  ghost function Settled(log: seq<Outcome>, id: TraceId, f: Fate): multiset<Located> {
    if |log| == 0 then multiset{}
    else
      var o := log[|log| - 1];
      Settled(log[..|log| - 1], id, f) + if o.id == id && HasFate(o, f) then Contents(o) else multiset{}
  }

  ghost function Balance(s: State, id: TraceId): multiset<Located> {
    Held(s, id) + Settled(s.log, id, AnyFate)
  }

  lemma SettledSnoc(log: seq<Outcome>, o: Outcome, id: TraceId, f: Fate)
    ensures Settled(log + [o], id, f)
         == Settled(log, id, f) + if o.id == id && HasFate(o, f) then Contents(o) else multiset{}
  {
    assert (log + [o])[..|log|] == log;
  }

  /** The three fates are disjoint and cover the log. */
  lemma {:induction false} FatesPartition(log: seq<Outcome>, id: TraceId)
    ensures Settled(log, id, AnyFate)
         == Settled(log, id, ForwardedFate) + Settled(log, id, RejectedFate) + Settled(log, id, EvictedFate)
  {
    hide Contents;
    if |log| > 0 {
      FatesPartition(log[..|log| - 1], id);
    }
  }

  lemma LocateAppend(batches: seq<Traces>, res: Attributes, spans: seq<Span>)
    ensures Locate(batches + [PrepareBatch(res, spans)]) == Locate(batches) + LocateSpans(res, spans)
    ensures Locate([PrepareBatch(res, spans)]) == LocateSpans(res, spans)
    ensures LocateTraces(PrepareBatch(res, spans)) == LocateSpans(res, spans)
  {
    var b := PrepareBatch(res, spans);
    assert LocateTraces(b) == LocateSpans(res, spans) by {
      assert b[..0] == [] && [spans][..0] == [];
      assert LocateScopes(res, [spans]) == LocateSpans(res, spans);
    }
    assert (batches + [b])[..|batches|] == batches;
    var one: seq<Traces> := [b];
    assert one[..0] == [];
    assert Locate([b]) == Locate([]) + LocateTraces(b);
  }

  lemma {:induction false} LocateTracesConcat(a: Traces, b: Traces)
    ensures LocateTraces(a + b) == LocateTraces(a) + LocateTraces(b)
  {
    hide LocateScopes, LocateSpans;
    if |b| == 0 {
      assert a + b == a;
    } else {
      LocateTracesConcat(a, b[..|b| - 1]);
      assert (a + b)[..|a + b| - 1] == a + b[..|b| - 1];
    }
  }

  /** Combining the batches of a trace keeps its spans and their order. */
  lemma {:induction false} MergeKeeps(batches: seq<Traces>)
    ensures LocateTraces(Merge(batches)) == Locate(batches)
  {
    if |batches| > 0 {
      MergeKeeps(batches[..|batches| - 1]);
      LocateTracesConcat(Merge(batches[..|batches| - 1]), batches[|batches| - 1]);
    }
  }

  // ---- Arrival ----

  lemma DropSize(s: State, id: TraceId)
    ensures Drop(s, id).numTracesOnMap - |Drop(s, id).traces| == s.numTracesOnMap - |s.traces|
  {
    if id in s.traces {
      assert (s.traces - {id}).Keys == s.traces.Keys - {id};
    }
  }

  lemma EvictBalance(s: State, id: TraceId, x: TraceId)
    ensures Balance(Evict(s, id), x) == Balance(s, x)
  {
    if id in s.traces {
      SettledSnoc(s.log, Evicted(id, s.traces[id].batches), x, AnyFate);
    }
  }

  /** What enrolling an id in the eviction queue leaves alone. */
  ghost predicate Frames(s: State, r: State) {
    && r.history == s.history && r.pipeline == s.pipeline && r.budgets == s.budgets
    && r.decisionLimiter == s.decisionLimiter && r.priorLimiter == s.priorLimiter
    && r.traces.Keys <= s.traces.Keys
    && (forall x :: x in r.traces ==> r.traces[x] == s.traces[x])
    && r.numTracesOnMap - |r.traces| == s.numTracesOnMap - |s.traces|
  }

  lemma {:induction false} EnrollFrames(c: Config, s: State, id: TraceId)
    requires 1 <= c.maxNumTraces
    ensures
      var r := Enroll(c, s, id);
      && Frames(s, r)
      && id in r.deleteChan && |r.deleteChan| <= c.maxNumTraces
      && (forall x :: x in r.traces && x in s.deleteChan ==> x in r.deleteChan)
    decreases |s.deleteChan|
  {
    if |s.deleteChan| >= c.maxNumTraces {
      var oldest := s.deleteChan[0];
      var s1 := s.(deleteChan := s.deleteChan[1..]);
      var s2 := Evict(s1, oldest);
      DropSize(s1, oldest);
      EnrollFrames(c, s2, id);
      assert s.deleteChan == [oldest] + s.deleteChan[1..];
      assert forall x :: x in s2.traces && x in s.deleteChan ==> x in s2.deleteChan;
    }
  }

  lemma {:induction false} EnrollBalance(c: Config, s: State, id: TraceId, x: TraceId)
    requires 1 <= c.maxNumTraces
    ensures Balance(Enroll(c, s, id), x) == Balance(s, x)
    decreases |s.deleteChan|
  {
    if |s.deleteChan| >= c.maxNumTraces {
      var s1 := s.(deleteChan := s.deleteChan[1..]);
      EvictBalance(s1, s.deleteChan[0], x);
      EnrollBalance(c, Evict(s1, s.deleteChan[0]), id, x);
    }
  }

  lemma AppendBalance(s: State, id: TraceId, res: Attributes, spans: seq<Span>, x: TraceId)
    ensures Balance(AppendBatch(s, id, PrepareBatch(res, spans)), x)
         == Balance(s, x) + if x == id then multiset(LocateSpans(res, spans)) else multiset{}
  {
    hide Settled, Locate, LocateTraces, LocateSpans;
    var batch := PrepareBatch(res, spans);
    SettledSnoc(s.log, Evicted(id, [batch]), x, AnyFate);
    SettledSnoc(s.log, Rejected(id, [batch]), x, AnyFate);
    LocateAppend(if id in s.traces then s.traces[id].batches else [], res, spans);
  }

  lemma LogBalance(s: State, r: State, o: Outcome, x: TraceId)
    requires r.traces == s.traces && r.log == s.log + [o]
    ensures Balance(r, x) == Balance(s, x) + if o.id == x then Contents(o) else multiset{}
  {
    hide Contents;
    SettledSnoc(s.log, o, x, AnyFate);
  }

  /** The spans of an arrival are accounted for once, under their own trace; every other balance stands. */
  lemma ArriveBalance(c: Config, s: State, now: int, res: Attributes, id: TraceId, spans: seq<Span>, x: TraceId)
    requires 1 <= c.maxNumTraces
    ensures Balance(Arrive(c, s, now, res, id, spans), x)
         == Balance(s, x) + if x == id then multiset(LocateSpans(res, spans)) else multiset{}
  {
    hide Balance, Locate, LocateSpans, LocateTraces, BufferTrace, Wrap32, PrepareBatch;
    if id in s.history && Final(s.history[id].decision) {
      var r := Arrive(c, s, now, res, id, spans);
      assert r.log == s.log + [r.log[|s.log|]];
      LogBalance(s, r, r.log[|s.log|], x);
      LocateAppend([], res, spans);
    } else {
      BufferBalance(c, s, id, res, spans, x);
    }
  }

  lemma BufferBalance(c: Config, s: State, id: TraceId, res: Attributes, spans: seq<Span>, x: TraceId)
    requires 1 <= c.maxNumTraces
    ensures Balance(BufferTrace(c, s, id, res, spans), x)
         == Balance(s, x) + if x == id then multiset(LocateSpans(res, spans)) else multiset{}
  {
    hide LoadOrStore, AppendBatch, Balance, LocateSpans, PrepareBatch;
    LoadOrStoreBalance(c, s, id, |spans|, x);
    AppendBalance(LoadOrStore(c, s, id, |spans|), id, res, spans, x);
  }

  lemma LoadOrStoreBalance(c: Config, s: State, id: TraceId, n: nat, x: TraceId)
    requires 1 <= c.maxNumTraces
    ensures Balance(LoadOrStore(c, s, id, n), x) == Balance(s, x)
  {
    hide Settled, Locate, Enroll, Wrap32, AddId;
    if id !in s.traces {
      EmptyLocate();
      EnrollBalance(c, Store(s, id, n), id, x);
    }
  }

  lemma EmptyLocate()
    ensures Locate([]) == []
  {}

  lemma AddIdInside(p: Pipeline<TraceId>, id: TraceId)
    requires IdBatcher.Inv(p) && 1 <= p.channelSize && !p.closing
    ensures
      var q := AddId(p, id);
      && IdBatcher.Inv(q) && q.channelSize == p.channelSize && !q.closing
      && id in Inside(q) && forall x :: x in Inside(p) ==> x in Inside(q)
  {
    var p1 := if |p.pending| < p.channelSize || p.pending == [] then p else FillOne(p);
    assert Inside(p1) == Inside(p);
    if p1 != p {
      NextInv(p, Fill);
    }
    NextInv(p1, Add(id));
    assert Inside(AddId(p, id)) == Inside(p) + [id];
  }

  /** The state just before the spans reach the trace object: only that trace is incomplete. */
  ghost predicate Awaiting(c: Config, s: State, id: TraceId, n: nat) {
    && 1 <= c.maxNumTraces
    && |s.budgets| == |c.accepts|
    && IdBatcher.Inv(s.pipeline) && 1 <= s.pipeline.channelSize && !s.pipeline.closing
    && s.numTracesOnMap == |s.traces|
    && |s.deleteChan| <= c.maxNumTraces
    && (forall x :: x in s.traces ==> x in s.deleteChan && x in Inside(s.pipeline) && x !in s.history)
    && (forall x :: x in s.traces && x != id ==> TraceOk(s.traces[x]))
    && (id in s.traces ==>
          && s.traces[id].finalDecision == Unspecified && !s.traces[id].byProbability
          && s.traces[id].spanCount == Wrap32(|Locate(s.traces[id].batches)| + n))
    && (forall x :: x in s.history ==> Final(s.history[x].decision))
  }

  lemma LoadAwaits(c: Config, s: State, id: TraceId, n: nat)
    requires Inv(c, s) && id !in s.history && id in s.traces
    ensures Awaiting(c, LoadOrStore(c, s, id, n), id, n)
  {
    hide Locate, IdBatcher.Inv, Inside, Wrap32;
    WrapAdd(|Locate(s.traces[id].batches)|, n);
    assert LoadOrStore(c, s, id, n).traces.Keys == s.traces.Keys;
    assert |LoadOrStore(c, s, id, n).traces| == |s.traces|;
  }

  lemma StoreFrame(c: Config, s: State, id: TraceId, n: nat)
    requires Inv(c, s) && id !in s.history && id !in s.traces
    ensures
      var r := LoadOrStore(c, s, id, n);
      && r.budgets == s.budgets && r.history == s.history
      && IdBatcher.Inv(r.pipeline) && 1 <= r.pipeline.channelSize && !r.pipeline.closing
      && r.numTracesOnMap == |r.traces| && |r.deleteChan| <= c.maxNumTraces
      && (id in r.traces ==> r.traces[id] == NewTrace(n))
  {
    hide Enroll, IdBatcher.Inv, Inside, AddId, Wrap32, TraceOk;
    var s1 := Store(s, id, n);
    assert |s1.traces| == |s.traces| + 1 by {
      assert s1.traces.Keys == s.traces.Keys + {id};
    }
    AddIdInside(s.pipeline, id);
    EnrollFrames(c, s1, id);
  }

  lemma StoreOther(c: Config, s: State, id: TraceId, n: nat, x: TraceId)
    requires Inv(c, s) && id !in s.history && id !in s.traces
    requires x in LoadOrStore(c, s, id, n).traces
    ensures
      var r := LoadOrStore(c, s, id, n);
      && x in r.deleteChan && x in Inside(r.pipeline) && x !in r.history
      && (x != id ==> TraceOk(r.traces[x]))
  {
    hide Enroll, IdBatcher.Inv, Inside, AddId, Wrap32, TraceOk;
    AddIdInside(s.pipeline, id);
    EnrollFrames(c, Store(s, id, n), id);
    if x != id {
      assert x in s.traces;
    }
  }

  lemma StoreAwaits(c: Config, s: State, id: TraceId, n: nat)
    requires Inv(c, s) && id !in s.history && id !in s.traces
    ensures Awaiting(c, LoadOrStore(c, s, id, n), id, n)
  {
    hide LoadOrStore, IdBatcher.Inv, Inside, Wrap32, TraceOk, Locate;
    EmptyLocate();
    StoreFrame(c, s, id, n);
    forall x | x in LoadOrStore(c, s, id, n).traces {
      StoreOther(c, s, id, n, x);
    }
  }

  lemma AppendInv(c: Config, s: State, id: TraceId, res: Attributes, spans: seq<Span>)
    requires Awaiting(c, s, id, |spans|) && spans != []
    ensures Inv(c, AppendBatch(s, id, PrepareBatch(res, spans)))
  {
    hide Locate, IdBatcher.Inv, Inside, Wrap32, PrepareBatch;
    var r := AppendBatch(s, id, PrepareBatch(res, spans));
    if id in s.traces {
      LocateAppend(s.traces[id].batches, res, spans);
      assert |LocateSpans(res, spans)| == |spans|;
      assert r.traces.Keys == s.traces.Keys;
      assert |r.traces| == |s.traces|;
    }
  }

  lemma ArriveInv(c: Config, s: State, now: int, res: Attributes, id: TraceId, spans: seq<Span>)
    requires Inv(c, s) && spans != []
    ensures Inv(c, Arrive(c, s, now, res, id, spans))
  {
    hide LoadOrStore, AppendBatch, TraceOk, IdBatcher.Inv, Inside, PrepareBatch, Wrap32;
    if id !in s.history {
      if id in s.traces {
        LoadAwaits(c, s, id, |spans|);
      } else {
        StoreAwaits(c, s, id, |spans|);
      }
      AppendInv(c, LoadOrStore(c, s, id, |spans|), id, res, spans);
    }
  }

  // ---- Ticks ----

  ghost function Ids(entries: seq<Entry>): set<TraceId> {
    if |entries| == 0 then {} else Ids(entries[..|entries| - 1]) + {entries[|entries| - 1].id}
  }

  predicate Decided(d: Decision) {
    Final(d) || d == SecondChance
  }

  lemma {:induction false} EvaluateFromDecides(c: Config, t: TraceData, clock: Clock, i: nat, v: Verdict)
    requires i <= |c.accepts| && |v.budgets| == |c.accepts|
    requires v.decision == Unspecified ==> i < |c.accepts|
    requires v.decision == Unspecified || v.decision == NotSampled || v.decision == SecondChance
    ensures
      var r := EvaluateFrom(c, t, clock, i, v);
      && (r.decision == Sampled || r.decision == NotSampled || r.decision == SecondChance)
      && (r.byProbability && !v.byProbability ==> r.decision == Sampled)
    decreases |c.accepts| - i
  {
    if i < |c.accepts| {
      var rule := c.accepts[i];
      var (b, d) := Evaluated(rule.policy, v.budgets[i], clock(i), t.spanCount, Selects(rule.policy, t.batches));
      var v1 := v.(budgets := v.budgets[i := b]);
      if d == NotSampled {
        EvaluateFromDecides(c, t, clock, i + 1, if v.decision == Unspecified then v1.(decision := NotSampled) else v1);
      } else if d == SecondChance {
        EvaluateFromDecides(c, t, clock, i + 1, v1.(decision := SecondChance, filterName := rule.name));
      }
    }
  }

  /** The policy evaluators never leave a decision open. */
  lemma ProvisionalDecides(c: Config, t: TraceData, clock: Clock, budgets: seq<Budget>)
    requires |budgets| == |c.accepts|
    ensures
      var v := Provisional(c, t, clock, budgets);
      && (v.decision == Sampled || v.decision == NotSampled || v.decision == SecondChance)
      && (v.byProbability && !t.byProbability ==> v.decision == Sampled)
  {
    if |c.accepts| > 0 {
      EvaluateFromDecides(c, t, clock, 0, Verdict(Unspecified, t.byProbability, t.filterName, budgets));
    }
  }

  /** What the first loop does to a state, given the ids it visits. */
  ghost predicate FirstLoopFrame(s: State, r: State, ids: set<TraceId>) {
    && r.deleteChan == s.deleteChan && r.pipeline == s.pipeline && r.priorLimiter == s.priorLimiter
    && r.history == s.history && r.log == s.log && r.numTracesOnMap == s.numTracesOnMap
    && r.traces.Keys == s.traces.Keys
    && (forall x :: x in s.traces ==>
          && r.traces[x].batches == s.traces[x].batches && r.traces[x].spanCount == s.traces[x].spanCount
          && (x !in ids ==> r.traces[x] == s.traces[x])
          && (x in ids ==> Decided(r.traces[x].finalDecision)))
  }

  lemma DecideOneFrame(c: Config, p: Pass, sec: int, e: Entry)
    requires |p.s.budgets| == |c.accepts|
    ensures
      var r := DecideOne(c, p, sec, e).s;
      && r.deleteChan == p.s.deleteChan && r.pipeline == p.s.pipeline && r.priorLimiter == p.s.priorLimiter
      && r.history == p.s.history && r.log == p.s.log && r.numTracesOnMap == p.s.numTracesOnMap
      && r.traces.Keys == p.s.traces.Keys
      && (forall x :: x in r.traces && x != e.id ==> r.traces[x] == p.s.traces[x])
      && (e.id in p.s.traces ==>
            && r.traces[e.id].batches == p.s.traces[e.id].batches
            && r.traces[e.id].spanCount == p.s.traces[e.id].spanCount
            && Decided(r.traces[e.id].finalDecision))
  {
    hide Provisional, ShouldBeDropped;
    if e.id in p.s.traces {
      var t := p.s.traces[e.id];
      ProvisionalDecides(c, t, e.clock, p.s.budgets);
      var r := DecideOne(c, p, sec, e).s;
      assert r.traces.Keys == p.s.traces.Keys;
    }
  }

  lemma {:induction false} FirstLoopFrames(c: Config, p: Pass, sec: int, entries: seq<Entry>)
    requires |p.s.budgets| == |c.accepts|
    ensures FirstLoopFrame(p.s, FirstLoop(c, p, sec, entries).s, Ids(entries))
  {
    hide DecideOne;
    if |entries| > 0 {
      FirstLoopFrames(c, p, sec, entries[..|entries| - 1]);
      DecideOneFrame(c, FirstLoop(c, p, sec, entries[..|entries| - 1]), sec, entries[|entries| - 1]);
    }
  }

  /** What the second loop does to a state: it settles exactly the visited traces and remembers their decisions. */
  ghost predicate SecondLoopFrame(s: State, r: State, ids: set<TraceId>) {
    && r.deleteChan == s.deleteChan && r.pipeline == s.pipeline
    && r.priorLimiter == s.priorLimiter && r.budgets == s.budgets
    && Settles(s, r, ids)
    && r.numTracesOnMap - |r.traces| == s.numTracesOnMap - |s.traces|
  }

  ghost predicate Settles(s: State, r: State, ids: set<TraceId>) {
    && (forall x :: x in r.traces <==> x in s.traces && x !in ids)
    && (forall x :: x in r.traces ==> r.traces[x] == s.traces[x])
    && (forall x :: x in r.history <==> x in s.history || (x in s.traces && x in ids))
    && (forall x :: x in r.history && !(x in s.traces && x in ids) ==> r.history[x] == s.history[x])
    && (forall x :: x in s.traces && x in ids ==> Final(r.history[x].decision))
  }

  lemma SettleOneFrame(c: Config, p: Pass, sec: int, id: TraceId)
    requires id in p.s.traces ==> Decided(p.s.traces[id].finalDecision)
    ensures SecondLoopFrame(p.s, SettleOne(c, p, sec, id).s, {id})
    ensures SettleOne(c, p, sec, id).total == p.total && SettleOne(c, p, sec, id).selected == p.selected
  {
    hide Cleanup, Limiter.Update, Limiter.Admits;
    if id in p.s.traces {
      var s := SecondPass(p.s, sec, id);
      var r := SettleOne(c, p, sec, id).s;
      assert r.traces == p.s.traces - {id} by {
        assert s.traces - {id} == p.s.traces - {id};
      }
      assert Final(s.traces[id].finalDecision);
      assert |r.traces| == |p.s.traces| - 1 by {
        assert r.traces.Keys == p.s.traces.Keys - {id};
      }
    }
  }

  lemma {:induction false} SecondLoopFrames(c: Config, p: Pass, sec: int, entries: seq<Entry>)
    requires forall x :: x in p.s.traces && x in Ids(entries) ==> Decided(p.s.traces[x].finalDecision)
    ensures SecondLoopFrame(p.s, SecondLoop(c, p, sec, entries).s, Ids(entries))
    ensures SecondLoop(c, p, sec, entries).total == p.total && SecondLoop(c, p, sec, entries).selected == p.selected
  {
    hide SettleOne;
    if |entries| > 0 {
      var init, id := entries[..|entries| - 1], entries[|entries| - 1].id;
      SecondLoopFrames(c, p, sec, init);
      var m := SecondLoop(c, p, sec, init);
      SettleOneFrame(c, m, sec, id);
      SettlesCompose(p.s, m.s, SettleOne(c, m, sec, id).s, Ids(init), {id});
    }
  }

  lemma SettlesCompose(s: State, m: State, r: State, a: set<TraceId>, b: set<TraceId>)
    requires Settles(s, m, a) && Settles(m, r, b)
    ensures Settles(s, r, a + b)
  {}

  /** A tick settles exactly the buffered traces among the ids of the batch it takes. */
  lemma DecideFrame(c: Config, s: State, sec: int, entries: seq<Entry>)
    requires |s.budgets| == |c.accepts|
    ensures
      var r := Decide(c, s, sec, entries);
      && |r.budgets| == |c.accepts|
      && r.deleteChan == s.deleteChan && r.pipeline == s.pipeline && r.priorLimiter == s.priorLimiter
      && Settles(s, r, Ids(entries))
      && r.numTracesOnMap - |r.traces| == s.numTracesOnMap - |s.traces|
  {
    hide FirstLoop, SecondLoop;
    var p := FirstLoop(c, Pass(s, 0, 0), sec, entries);
    FirstLoopFrames(c, Pass(s, 0, 0), sec, entries);
    SecondLoopFrames(c, p, sec, entries);
    assert |p.s.traces| == |p.s.traces.Keys| == |s.traces.Keys| == |s.traces|;
  }

  lemma {:induction false} IdsOfEntries(ids: seq<TraceId>, clocks: nat -> Clock, n: nat)
    requires n <= |ids|
    ensures Ids(Entries(ids, clocks)[..n]) == set i | 0 <= i < n :: ids[i]
  {
    var es := Entries(ids, clocks);
    if n > 0 {
      IdsOfEntries(ids, clocks, n - 1);
      assert es[..n][..n - 1] == es[..n - 1];
      assert (set i | 0 <= i < n :: ids[i]) == (set i | 0 <= i < n - 1 :: ids[i]) + {ids[n - 1]};
    }
  }

  lemma BatchIds(ids: seq<TraceId>, clocks: nat -> Clock, x: TraceId)
    ensures x in Ids(Entries(ids, clocks)) <==> x in ids
  {
    IdsOfEntries(ids, clocks, |ids|);
    assert Entries(ids, clocks)[..|ids|] == Entries(ids, clocks);
  }

  lemma TickInv(c: Config, s: State, sec: int, clocks: nat -> Clock)
    requires Inv(c, s)
    ensures Inv(c, Tick(c, s, sec, clocks))
  {
    hide Locate, IdBatcher.Inv, Inside, Decide, TakeFirst, Entries, Wrap32;
    var (pipeline, batch, more) := TakeFirst(s.pipeline);
    var entries := Entries(batch, clocks);
    DecideFrame(c, s.(pipeline := pipeline), sec, entries);
    NextInv(s.pipeline, Take);
    TakeInside(s.pipeline);
    TakeKeepsChannel(s.pipeline);
    forall x | x in s.traces && x !in Ids(entries) ensures x in Inside(pipeline) {
      BatchIds(batch, clocks, x);
      assert x in batch + Inside(pipeline);
    }
  }

  lemma TakeKeepsChannel(p: Pipeline<TraceId>)
    ensures var q := TakeFirst(p).0; q.channelSize == p.channelSize && q.closing == p.closing
  {}

  // ---- Balance over a tick ----

  lemma SettleOneBalance(c: Config, p: Pass, sec: int, id: TraceId, x: TraceId)
    ensures Balance(SettleOne(c, p, sec, id).s, x) == Balance(p.s, x)
  {
    hide Settled, Locate, LocateTraces;
    if id in p.s.traces {
      var s := SecondPass(p.s, sec, id);
      var t := s.traces[id];
      SettledSnoc(s.log, Cleanup(c, p, sec, id, t), x, AnyFate);
      MergeKeeps(t.batches);
    }
  }

  lemma {:induction false} SecondLoopBalance(c: Config, p: Pass, sec: int, entries: seq<Entry>, x: TraceId)
    ensures Balance(SecondLoop(c, p, sec, entries).s, x) == Balance(p.s, x)
  {
    hide SettleOne, Balance;
    if |entries| > 0 {
      SecondLoopBalance(c, p, sec, entries[..|entries| - 1], x);
      SettleOneBalance(c, SecondLoop(c, p, sec, entries[..|entries| - 1]), sec, entries[|entries| - 1].id, x);
    }
  }

  lemma TickBalance(c: Config, s: State, sec: int, clocks: nat -> Clock, x: TraceId)
    requires |s.budgets| == |c.accepts|
    ensures Balance(Tick(c, s, sec, clocks), x) == Balance(s, x)
  {
    hide FirstLoop, SecondLoop, Settled, Locate;
    var (pipeline, batch, _) := TakeFirst(s.pipeline);
    var s1 := s.(pipeline := pipeline);
    var entries := Entries(batch, clocks);
    FirstLoopFrames(c, Pass(s1, 0, 0), sec, entries);
    SecondLoopBalance(c, FirstLoop(c, Pass(s1, 0, 0), sec, entries), sec, entries, x);
  }

  // ---- Steps and runs ----

  lemma StepInv(c: Config, s: State, e: Event)
    requires Inv(c, s) && ValidEvent(e)
    ensures Inv(c, React(c, s, e))
  {
    hide Arrive, Tick, TraceOk, Concat, IdBatcher.Inv;
    match e
    case ArriveEvent(now, res, id, spans) => ArriveInv(c, s, now, res, id, spans);
    case TickEvent(sec, clocks) => TickInv(c, s, sec, clocks);
    case FillEvent =>
      if s.pipeline.pending != [] {
        NextInv(s.pipeline, Fill);
        assert Inside(FillOne(s.pipeline)) == Inside(s.pipeline);
      }
    case ForgetEvent(id) =>
  }

  /** The state after a run of events. */
  ghost function Run(c: Config, s: State, events: seq<Event>): State {
    if |events| == 0 then s
    else
      var m := Run(c, s, events[..|events| - 1]);
      if Wired(c, m) then React(c, m, events[|events| - 1]) else m
  }

  /** The states a processor can reach. */
  ghost function Reached(u: Setup, events: seq<Event>): State {
    Run(u.config, Init(u), events)
  }

  /** Every reachable state satisfies the invariant. */
  lemma {:induction false} RunInv(c: Config, s: State, events: seq<Event>)
    requires Inv(c, s) && ValidEvents(events)
    ensures Inv(c, Run(c, s, events))
  {
    hide React, IdBatcher.Inv, TraceOk, Inside;
    if |events| > 0 {
      RunInv(c, s, events[..|events| - 1]);
      StepInv(c, Run(c, s, events[..|events| - 1]), events[|events| - 1]);
    }
  }

  lemma {:induction false} RunAppend(c: Config, s: State, a: seq<Event>, b: seq<Event>)
    ensures Run(c, s, a + b) == Run(c, Run(c, s, a), b)
  {
    hide React;
    if |b| == 0 {
      assert a + b == a;
    } else {
      RunAppend(c, s, a, b[..|b| - 1]);
      assert (a + b)[..|a + b| - 1] == a + b[..|b| - 1];
    }
  }

  /** The spans of a trace received during a run. */
  ghost function Received(events: seq<Event>, id: TraceId): multiset<Located> {
    if |events| == 0 then multiset{}
    else
      Received(events[..|events| - 1], id) + Brings(events[|events| - 1], id)
  }

  lemma InitInv(u: Setup)
    requires ValidSetup(u)
    ensures Inv(u.config, Init(u))
    ensures forall x :: Balance(Init(u), x) == multiset{}
  {
    StartInv<TraceId>(u.numBatches, u.channelSize);
  }

  /** The spans one event brings in for a trace. */
  ghost function Brings(e: Event, id: TraceId): multiset<Located> {
    if e.ArriveEvent? && e.id == id then multiset(LocateSpans(e.res, e.spans)) else multiset{}
  }

  lemma StepBalance(c: Config, s: State, e: Event, id: TraceId)
    requires Wired(c, s)
    ensures Balance(React(c, s, e), id) == Balance(s, id) + Brings(e, id)
  {
    hide Settled, Locate, LocateSpans, Arrive, Tick;
    match e
    case ArriveEvent(now, res, x, spans) => ArriveBalance(c, s, now, res, x, spans, id);
    case TickEvent(sec, clocks) => TickBalance(c, s, sec, clocks, id);
    case FillEvent =>
    case ForgetEvent(x) =>
  }

  lemma {:induction false} RunBalance(c: Config, s: State, events: seq<Event>, id: TraceId)
    requires Inv(c, s) && ValidEvents(events)
    ensures Balance(Run(c, s, events), id) == Balance(s, id) + Received(events, id)
  {
    hide Balance, React, Brings, Inv;
    if |events| > 0 {
      var init := events[..|events| - 1];
      RunBalance(c, s, init, id);
      RunInv(c, s, init);
      WiredByInv(c, Run(c, s, init));
      StepBalance(c, Run(c, s, init), events[|events| - 1], id);
    }
  }

  lemma WiredByInv(c: Config, s: State)
    requires Inv(c, s)
    ensures Wired(c, s)
  {}

  lemma ReachedBalance(u: Setup, events: seq<Event>, id: TraceId)
    requires ValidSetup(u) && ValidEvents(events)
    ensures Balance(Reached(u, events), id) == Received(events, id)
  {
    hide Balance, Run, Received, Inv, Init;
    InitInv(u);
    RunBalance(u.config, Init(u), events, id);
    assert Balance(Init(u), id) + Received(events, id) == Received(events, id);
  }

  /**
   Conservation over every run: the received spans of a trace are exactly those still buffered, those forwarded,
   those a decision rejected and those evicted, each counted once; nothing is invented and nothing forwarded twice.
   */
  lemma Conservation(u: Setup, events: seq<Event>, id: TraceId)
    requires ValidSetup(u) && ValidEvents(events)
    ensures
      var r := Reached(u, events);
      Received(events, id) == Held(r, id) + Settled(r.log, id, ForwardedFate)
                            + Settled(r.log, id, RejectedFate) + Settled(r.log, id, EvictedFate)
  {
    hide Settled, Held, Reached, Received;
    ReachedBalance(u, events, id);
    FatesPartition(Reached(u, events).log, id);
  }

  lemma HeldWithin(s: State, id: TraceId, all: multiset<Located>)
    requires Balance(s, id) == all && id in s.traces
    ensures |Locate(s.traces[id].batches)| <= |all|
  {}

  // ---- Small enough for int32 ----

  lemma ReachedInv(u: Setup, events: seq<Event>)
    requires ValidSetup(u) && ValidEvents(events)
    ensures Inv(u.config, Reached(u, events))
  {
    hide Inv, Run, Init;
    InitInv(u);
    RunInv(u.config, Init(u), events);
  }

  /** The spans each buffered trace holds, and so many more, fit int32. */
  ghost predicate HeldFit(s: State, slack: nat) {
    forall x :: x in s.traces ==> |Locate(s.traces[x].batches)| + slack <= INT32_MAX
  }

  /** So it is whenever a tick comes. */
  ghost predicate FitAtTicks(u: Setup, events: seq<Event>, slack: nat) {
    forall k :: 0 <= k < |events| && events[k].TickEvent? ==> HeldFit(Reached(u, events[..k]), slack)
  }

  lemma FitPrefix(u: Setup, events: seq<Event>, slack: nat)
    requires events != [] && FitAtTicks(u, events, slack)
    ensures FitAtTicks(u, events[..|events| - 1], slack)
    ensures events[|events| - 1].TickEvent? ==> HeldFit(Reached(u, events[..|events| - 1]), slack)
  {
    hide Reached, HeldFit;
    var init := events[..|events| - 1];
    forall k | 0 <= k < |init| && init[k].TickEvent? ensures HeldFit(Reached(u, init[..k]), slack) {
      assert init[..k] == events[..k] && init[k] == events[k];
    }
  }

  lemma {:induction false} ReceivedGrows(events: seq<Event>, k: nat, id: TraceId)
    requires k <= |events|
    ensures Received(events[..k], id) <= Received(events, id)
  {
    hide Brings;
    if k == |events| {
      assert events[..k] == events;
    } else {
      assert events[..|events| - 1][..k] == events[..k];
      ReceivedGrows(events[..|events| - 1], k, id);
    }
  }

  /** It is enough that no trace receives more than that in the whole run. */
  lemma FitByReceived(u: Setup, events: seq<Event>, slack: nat)
    requires ValidSetup(u) && ValidEvents(events)
    requires forall id :: |Received(events, id)| + slack <= INT32_MAX
    ensures FitAtTicks(u, events, slack) && HeldFit(Reached(u, events), slack)
  {
    hide Reached, Received, Balance;
    forall k | 0 <= k <= |events| ensures HeldFit(Reached(u, events[..k]), slack) {
      var r := Reached(u, events[..k]);
      forall x | x in r.traces ensures |Locate(r.traces[x].batches)| + slack <= INT32_MAX {
        ReachedBalance(u, events[..k], x);
        HeldWithin(r, x, Received(events[..k], x));
        ReceivedGrows(events, k, x);
        assert |Received(events[..k], x)| <= |Received(events, x)| by {
          SubCount(Received(events[..k], x), Received(events, x));
        }
      }
    }
    assert events[..|events|] == events;
  }

  lemma SubCount(a: multiset<Located>, b: multiset<Located>)
    requires a <= b
    ensures |a| <= |b|
  {
    assert b == a + (b - a);
  }

  // ---- Bounded memory ----

  lemma {:induction false} DistinctBound(ids: set<TraceId>, q: seq<TraceId>)
    requires forall x :: x in ids ==> x in q
    ensures |ids| <= |q|
  {
    if |q| == 0 {
      assert ids == {};
    } else {
      var x := q[|q| - 1];
      DistinctBound(ids - {x}, q[..|q| - 1]);
      if x in ids {
        assert |ids| == |ids - {x}| + 1;
      } else {
        assert ids - {x} == ids;
      }
    }
  }

  /**
   In every reachable state at most NumTraces traces are buffered, the counter equals their number, and each
   is still queued for eviction and scheduled for a decision, counts its spans and has no remembered decision.
   */
  lemma BoundedMemory(u: Setup, events: seq<Event>)
    requires ValidSetup(u) && ValidEvents(events)
    ensures
      var r := Reached(u, events);
      && |r.traces| <= u.config.maxNumTraces && r.numTracesOnMap == |r.traces|
      && (forall id :: id in r.traces ==>
            && id in r.deleteChan && id in Inside(r.pipeline) && id !in r.history
            && r.traces[id].spanCount == Wrap32(|Held(r, id)|))
      && (forall id :: id in r.history ==> Final(r.history[id].decision))
  {
    hide Run, Init, IdBatcher.Inv, Inside, Wrap32;
    InitInv(u);
    RunInv(u.config, Init(u), events);
    var r := Reached(u, events);
    DistinctBound(r.traces.Keys, r.deleteChan);
  }
}
