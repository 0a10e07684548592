/**
 The processor object of processor.go and cascade.go: the same steps as `Sampler`, carried out in place
 on the trace map, the eviction queue, the history and the objects the processor owns.
 */
module Processor {
  import opened Base
  import opened Sampling
  import opened RateLimiting
  import IdBatcher
  import opened Sampler
  import opened SamplerInvariants

  // ---- Grouping ----

  /** The spans of one trace, in order. */
  function OfTrace(spans: seq<Span>, id: TraceId): seq<Span> {
    if |spans| == 0 then []
    else
      OfTrace(spans[..|spans| - 1], id)
      + if spans[|spans| - 1].trace == id then [spans[|spans| - 1]] else []
  }

  function AllSpans(scopes: seq<seq<Span>>): seq<Span> {
    if |scopes| == 0 then [] else AllSpans(scopes[..|scopes| - 1]) + scopes[|scopes| - 1]
  }

  /** Every span is under its own trace id, in order, and there are no empty groups. */
  ghost predicate Groups(spans: seq<Span>, g: map<TraceId, seq<Span>>) {
    forall id :: if id in g then g[id] == OfTrace(spans, id) && g[id] != [] else OfTrace(spans, id) == []
  }

  lemma GroupsSnoc(spans: seq<Span>, g: map<TraceId, seq<Span>>, x: Span)
    requires Groups(spans, g)
    ensures Groups(spans + [x], g[x.trace := (if x.trace in g then g[x.trace] else []) + [x]])
  {
    assert (spans + [x])[..|spans|] == spans;
  }

  method GroupSpansByTraceKey(rs: ResourceSpans) returns (g: map<TraceId, seq<Span>>)
    ensures Groups(AllSpans(rs.scopes), g)
  {
    hide Groups;
    g := map[];
    EmptyGroups();
    ghost var done: seq<Span> := [];
    for j := 0 to |rs.scopes|
      invariant done == AllSpans(rs.scopes[..j])
      invariant Groups(done, g)
    {
      var spans := rs.scopes[j];
      ghost var before := done;
      for k := 0 to |spans|
        invariant done == before + spans[..k]
        invariant Groups(done, g)
      {
        var span := spans[k];
        GroupsSnoc(done, g, span);
        g := g[span.trace := (if span.trace in g then g[span.trace] else []) + [span]];
        done := done + [span];
        assert spans[..k + 1] == spans[..k] + [span];
      }
      assert spans[..|spans|] == spans;
      assert rs.scopes[..j + 1][..j] == rs.scopes[..j];
    }
    assert rs.scopes[..|rs.scopes|] == rs.scopes;
  }

  lemma EmptyGroups()
    ensures Groups([], map[])
  {}

  lemma EnrollStep(c: Config, s: State, id: TraceId)
    requires 1 <= c.maxNumTraces
    ensures Enroll(c, s, id) ==
      if |s.deleteChan| < c.maxNumTraces then s.(deleteChan := s.deleteChan + [id])
      else Enroll(c, Evict(s.(deleteChan := s.deleteChan[1..]), s.deleteChan[0]), id)
  {}

  /** The groups of an arrival, processed in some order. */
  function ArriveAll(c: Config, s: State, now: int, res: Attributes, g: map<TraceId, seq<Span>>,
                     order: seq<TraceId>): State
    requires 1 <= c.maxNumTraces && forall i :: 0 <= i < |order| ==> order[i] in g
  {
    if |order| == 0 then s
    else
      var id := order[|order| - 1];
      Arrive(c, ArriveAll(c, s, now, res, g, order[..|order| - 1]), now, res, id, g[id])
  }

  /** The arrival of a resource as events of a run. */
  function ArrivalEvents(now: int, res: Attributes, g: map<TraceId, seq<Span>>, order: seq<TraceId>): seq<Event>
    requires forall i :: 0 <= i < |order| ==> order[i] in g
  {
    seq(|order|, i requires 0 <= i < |order| => ArriveEvent(now, res, order[i], g[order[i]]))
  }

  /** Processing a resource is a run of arrivals, so everything proved of runs holds of it. */
  lemma {:induction false} ArriveAllIsRun(c: Config, s: State, now: int, res: Attributes,
                                          g: map<TraceId, seq<Span>>, order: seq<TraceId>)
    requires Inv(c, s) && (forall i :: 0 <= i < |order| ==> order[i] in g && g[order[i]] != [])
    ensures Run(c, s, ArrivalEvents(now, res, g, order)) == ArriveAll(c, s, now, res, g, order)
  {
    hide Arrive, Inv;
    WiredByInv(c, s);
    if |order| > 0 {
      var init := order[..|order| - 1];
      var events := ArrivalEvents(now, res, g, order);
      ArriveAllIsRun(c, s, now, res, g, init);
      RunInv(c, s, ArrivalEvents(now, res, g, init));
      WiredByInv(c, Run(c, s, ArrivalEvents(now, res, g, init)));
      assert events[..|events| - 1] == ArrivalEvents(now, res, g, init);
    }
  }

  lemma {:induction false} ReceivedGroup(now: int, res: Attributes, g: map<TraceId, seq<Span>>,
                                         order: seq<TraceId>, id: TraceId)
    requires forall i :: 0 <= i < |order| ==> order[i] in g
    requires forall i, j :: 0 <= i < j < |order| ==> order[i] != order[j]
    ensures Received(ArrivalEvents(now, res, g, order), id)
         == if id in order then multiset(LocateSpans(res, g[id])) else multiset{}
  {
    hide LocateSpans, Received, Brings;
    var events := ArrivalEvents(now, res, g, order);
    ReceivedLast(events, id);
    if |order| > 0 {
      var init, x := order[..|order| - 1], order[|order| - 1];
      ReceivedGroup(now, res, g, init, id);
      assert events[..|events| - 1] == ArrivalEvents(now, res, g, init);
      BringsArrival(now, res, x, g[x], id);
      LastOne(order, id);
    }
  }

  lemma ReceivedLast(events: seq<Event>, id: TraceId)
    ensures Received(events, id) == if |events| == 0 then multiset{}
      else Received(events[..|events| - 1], id) + Brings(events[|events| - 1], id)
  {}

  lemma BringsArrival(now: int, res: Attributes, x: TraceId, spans: seq<Span>, id: TraceId)
    ensures Brings(ArriveEvent(now, res, x, spans), id)
         == if id == x then multiset(LocateSpans(res, spans)) else multiset{}
  {}

  lemma LastOne(order: seq<TraceId>, id: TraceId)
    requires |order| > 0 && forall i, j :: 0 <= i < j < |order| ==> order[i] != order[j]
    ensures
      var init, x := order[..|order| - 1], order[|order| - 1];
      x !in init && (id in order <==> id in init || id == x)
  {}

  /** In that run each trace receives exactly the spans the resource holds for it. */
  lemma ReceivedOnce(spans: seq<Span>, now: int, res: Attributes, g: map<TraceId, seq<Span>>,
                     order: seq<TraceId>, id: TraceId)
    requires Groups(spans, g) && (forall x :: x in order <==> x in g)
    requires forall i, j :: 0 <= i < j < |order| ==> order[i] != order[j]
    ensures Received(ArrivalEvents(now, res, g, order), id) == multiset(LocateSpans(res, OfTrace(spans, id)))
  {
    hide OfTrace, Received, ArrivalEvents;
    ReceivedGroup(now, res, g, order, id);
  }

  // ---- The object ----

  method NewEvaluators(accepts: seq<AcceptRule>) returns (es: seq<PolicyEvaluator>)
    ensures |es| == |accepts|
    ensures forall i :: 0 <= i < |es| ==>
      fresh(es[i]) && es[i].policy == accepts[i].policy && es[i].Budgeted() == Budget(0, 0)
    ensures forall i, j :: 0 <= i < j < |es| ==> es[i] != es[j]
  {
    es := [];
    for k := 0 to |accepts|
      invariant |es| == k
      invariant forall i :: 0 <= i < k ==>
        fresh(es[i]) && es[i].policy == accepts[i].policy && es[i].Budgeted() == Budget(0, 0)
      invariant forall i, j :: 0 <= i < j < k ==> es[i] != es[j]
    {
      var e := new PolicyEvaluator(accepts[k].policy);
      es := es + [e];
    }
  }

  class CascadingFilterSpanProcessor {
    const config: Config
    const evaluators: seq<PolicyEvaluator>
    const decisionBatcher: IdBatcher.Batcher<TraceId>
    const decisionSpansLimiter: RateLimiter
    const priorSpansLimiter: RateLimiter
    var idToTrace: map<TraceId, TraceData>
    var deleteChan: seq<TraceId>
    var numTracesOnMap: int
    var decisionHistory: map<TraceId, HistoryInfo>
    ghost var log: seq<Outcome>

    /** The objects the processor owns are its own and apart from each other. */
    ghost predicate Wired() {
      && decisionSpansLimiter != priorSpansLimiter
      && |evaluators| == |config.accepts|
      && (forall i :: 0 <= i < |evaluators| ==> evaluators[i].policy == config.accepts[i].policy)
      && (forall i, j :: 0 <= i < j < |evaluators| ==> evaluators[i] != evaluators[j])
    }

    ghost function Budgets(): (b: seq<Budget>)
      reads evaluators
      ensures |b| == |evaluators|
    {
      seq(|evaluators|, i requires 0 <= i < |evaluators| reads evaluators => evaluators[i].Budgeted())
    }

    ghost function View(): State
      reads this, evaluators, decisionBatcher, decisionSpansLimiter, priorSpansLimiter
    {
      State(idToTrace, deleteChan, numTracesOnMap, decisionHistory, decisionBatcher.State(),
            decisionSpansLimiter.State(), priorSpansLimiter.State(), Budgets(), log)
    }

    ghost predicate Valid()
      reads this, evaluators, decisionBatcher, decisionSpansLimiter, priorSpansLimiter
    {
      Wired() && Inv(config, View())
    }

    constructor (u: Setup)
      requires ValidSetup(u)
      ensures Valid() && config == u.config
      ensures View() == Init(u)
    {
      config := u.config;
      var es := NewEvaluators(u.config.accepts);
      evaluators := es;
      decisionBatcher := new IdBatcher.Batcher<TraceId>(u.numBatches, u.channelSize);
      decisionSpansLimiter := new RateLimiter(u.limit);
      priorSpansLimiter := new RateLimiter(u.priorLimit);
      idToTrace, deleteChan, numTracesOnMap, decisionHistory, log := map[], [], 0, map[], [];
      new;
      InitInv(u);
      assert View().budgets == seq(|u.config.accepts|, _ => Budget(0, 0));
    }

    /** dropTrace. */
    method DropTrace(id: TraceId)
      modifies `idToTrace, `numTracesOnMap
      ensures View() == Drop(old(View()), id)
    {
      if id in idToTrace {
        idToTrace := idToTrace - {id};
        numTracesOnMap := numTracesOnMap - 1;
      }
    }

    /** The loop that queues a new id for eviction. */
    method EnrollForDeletion(id: TraceId)
      requires 1 <= config.maxNumTraces
      modifies `idToTrace, `numTracesOnMap, `deleteChan, `log
      ensures View() == Enroll(config, old(View()), id)
    {
      hide Enroll;
      var postDeletion := false;
      while !postDeletion
        invariant postDeletion ==> View() == Enroll(config, old(View()), id)
        invariant !postDeletion ==> Enroll(config, View(), id) == Enroll(config, old(View()), id)
        decreases !postDeletion, |deleteChan|
      {
        ghost var before := View();
        EnrollStep(config, before, id);
        if |deleteChan| < config.maxNumTraces {
          deleteChan := deleteChan + [id];
          postDeletion := true;
        } else {
          var traceKeyToDrop := deleteChan[0];
          deleteChan := deleteChan[1..];
          if traceKeyToDrop in idToTrace {
            log := log + [Evicted(traceKeyToDrop, idToTrace[traceKeyToDrop].batches)];
          }
          DropTrace(traceKeyToDrop);
          assert View() == Evict(before.(deleteChan := before.deleteChan[1..]), traceKeyToDrop);
        }
      }
    }

    /** The first half of bufferTraces: find the trace and count the spans, or store and enroll a new one. */
    method LoadOrStoreTrace(id: TraceId, n: nat) returns (newTraceIDs: int)
      requires Valid()
      modifies this, decisionBatcher
      ensures View() == LoadOrStore(config, old(View()), id, n)
      ensures newTraceIDs == if id in old(idToTrace) then 0 else 1
    {
      hide TraceOk, Final, IdBatcher.Inside, Enroll, Wrap32;
      newTraceIDs := 0;
      if id in idToTrace {
        var t := idToTrace[id];
        idToTrace := idToTrace[id := t.(spanCount := Wrap32(t.spanCount + Wrap32(n)))];
      } else {
        idToTrace := idToTrace[id := NewTrace(n)];
        newTraceIDs := newTraceIDs + 1;
        decisionBatcher.AddToCurrentBatch(id);
        numTracesOnMap := numTracesOnMap + 1;
        assert View() == Store(old(View()), id, n);
        EnrollForDeletion(id);
      }
    }

    /** bufferTraces: returns the number of new trace ids. */
    method BufferTraces(id: TraceId, res: Attributes, spans: seq<Span>) returns (newTraceIDs: int)
      requires Valid()
      modifies this, decisionBatcher
      ensures View() == BufferTrace(config, old(View()), id, res, spans)
      ensures newTraceIDs == if id in old(idToTrace) then 0 else 1
    {
      hide LoadOrStore, Inv, PrepareBatch;
      assert 1 <= config.maxNumTraces by { WiredByInv(config, View()); }
      newTraceIDs := LoadOrStoreTrace(id, |spans|);
      var batch := PrepareBatch(res, spans);
      // The trace may have left the map while its id was being queued: then nothing will ever read it again.
      if id in idToTrace {
        var t := idToTrace[id];
        if t.finalDecision == Pending || t.finalDecision == Unspecified {
          idToTrace := idToTrace[id := t.(batches := t.batches + [batch])];
        } else {
          log := log + [Rejected(id, [batch])];
        }
      } else {
        log := log + [Evicted(id, [batch])];
      }
    }

    /** processTraces for the spans of one trace. */
    method ProcessGroup(now: int, res: Attributes, id: TraceId, spans: seq<Span>) returns (newTraceIDs: int)
      requires Valid() && spans != []
      modifies this, decisionBatcher, priorSpansLimiter
      ensures View() == Arrive(config, old(View()), now, res, id, spans) && Valid()
    {
      hide Inv, BufferTrace, PrepareBatch;
      ArriveInv(config, View(), now, res, id, spans);
      newTraceIDs := 0;
      if id in decisionHistory {
        var info := decisionHistory[id];
        var finalDecision := info.decision;
        if finalDecision == Sampled {
          finalDecision := priorSpansLimiter.UpdateRate(now, Wrap32(|spans|));
        }
        var traceTd := PrepareBatch(res, spans);
        match finalDecision {
          case Sampled =>
            log := log + [Forwarded(id, now, LateArrival(info.filterName, info.probabilistic), traceTd)];
            return;
          case NotSampled =>
            log := log + [Rejected(id, [traceTd])];
            return;
          case Dropped =>
            log := log + [Rejected(id, [traceTd])];
            return;
          case _ =>
        }
      }
      newTraceIDs := BufferTraces(id, res, spans);
    }

    /** processTraces: the groups are visited in no particular order. */
    method ProcessTraces(now: int, rs: ResourceSpans)
      returns (ghost g: map<TraceId, seq<Span>>, ghost order: seq<TraceId>)
      requires Valid()
      modifies this, decisionBatcher, priorSpansLimiter
      ensures Groups(AllSpans(rs.scopes), g)
      ensures forall x :: x in order <==> x in g
      ensures forall i, j :: 0 <= i < j < |order| ==> order[i] != order[j]
      ensures Valid() && View() == ArriveAll(config, old(View()), now, rs.resource, g, order)
    {
      hide Inv, Arrive, AllSpans, Groups, Visits;
      var idToSpans := GroupSpansByTraceKey(rs);
      g := idToSpans;
      order := [];
      var todo := idToSpans.Keys;
      VisitsStart(g);
      assert 1 <= config.maxNumTraces by { WiredByInv(config, View()); }
      while todo != {}
        invariant Valid()
        invariant Visits(g, order, todo)
        invariant forall i :: 0 <= i < |order| ==> order[i] in g
        invariant View() == ArriveAll(config, old(View()), now, rs.resource, g, order)
        decreases |todo|
      {
        var id :| id in todo;
        VisitsStep(g, order, todo, id);
        GroupNotEmpty(AllSpans(rs.scopes), g, id);
        var newIds := ProcessGroup(now, rs.resource, id, idToSpans[id]);
        todo := todo - {id};
        assert (order + [id])[..|order|] == order;
        order := order + [id];
      }
      VisitsAll(g, order);
    }

    /** The history cache gives up an entry: the machine's forget event. */
    method ForgetDecision(id: TraceId)
      requires Valid()
      modifies `decisionHistory
      ensures View() == React(config, old(View()), ForgetEvent(id)) && Valid()
    {
      hide TraceOk, IdBatcher.Inv, IdBatcher.Inside;
      decisionHistory := decisionHistory - {id};
    }

    // ---- Deciding ----

    method ShouldBeDroppedNow(t: TraceData) returns (drop: bool)
      ensures drop == ShouldBeDropped(config, t)
    {
      for i := 0 to |config.rejects|
        invariant forall k :: 0 <= k < i ==> !ShouldDrop(config.rejects[k], t.batches)
      {
        var d := EvaluateRules(AsRules(config.rejects[i]), false, t.batches);
        assert Matches(AsRules(config.rejects[i]), t.batches) == ShouldDrop(config.rejects[i], t.batches);
        if d == Sampled {
          return true;
        }
      }
      return false;
    }

    /** makeProvisionalDecision: the decision, and the marks it leaves on the trace. */
    method MakeProvisionalDecision(t: TraceData, clock: Clock)
      returns (decision: Decision, byProbability: bool, filterName: string)
      requires Wired()
      modifies evaluators
      ensures Verdict(decision, byProbability, filterName, Budgets()) == Provisional(config, t, clock, old(Budgets()))
    {
      hide Selects, Evaluated;
      byProbability, filterName := t.byProbability, t.filterName;
      if |config.accepts| == 0 {
        return Sampled, byProbability, filterName;
      }
      decision := Unspecified;
      ghost var result := Provisional(config, t, clock, Budgets());
      for i := 0 to |config.accepts|
        invariant decision != Sampled
        invariant EvaluateFrom(config, t, clock, i, Verdict(decision, byProbability, filterName, Budgets())) == result
      {
        var rule := config.accepts[i];
        ghost var before := Budgets();
        var d := evaluators[i].Evaluate(clock(i), t.spanCount, t.batches);
        assert Budgets() == before[i := evaluators[i].Budgeted()];
        match d {
          case Sampled =>
            if rule.probabilistic {
              byProbability := true;
            } else {
              filterName := rule.name;
            }
            return Sampled, byProbability, filterName;
          case NotSampled =>
            if decision == Unspecified {
              decision := NotSampled;
            }
          case SecondChance =>
            if decision != Sampled {
              decision := SecondChance;
              filterName := rule.name;
            }
          case _ =>
        }
      }
    }

    /** firstPass. */
    method TakeFirstPass(currSecond: int, id: TraceId, t: TraceData, provisional: Decision,
                         ghost total: int, selected0: int)
      returns (selected: int)
      requires Wired()
      modifies `idToTrace, decisionSpansLimiter
      ensures Pass(View(), total, selected) ==
              FirstPass(Pass(old(View()), total, selected0), currSecond, id, t, provisional)
    {
      selected := selected0;
      var final := provisional;
      if provisional == Sampled {
        final := decisionSpansLimiter.UpdateRate(currSecond, t.spanCount);
        if final == Sampled && t.byProbability {
          selected := selected + t.spanCount;
        }
      }
      idToTrace := idToTrace[id := t.(finalDecision := final)];
    }

    /** The body of the first loop of decideOnBatch. */
    method DecideTrace(currSecond: int, id: TraceId, clock: Clock, total0: int, selected0: int)
      returns (total: int, selected: int)
      requires Wired()
      modifies `idToTrace, decisionSpansLimiter, evaluators
      ensures Pass(View(), total, selected) ==
              DecideOne(config, Pass(old(View()), total0, selected0), currSecond, Entry(id, clock))
    {
      hide Provisional, ShouldBeDropped, FirstPass;
      total, selected := total0, selected0;
      if id !in idToTrace {
        return;
      }
      var t := idToTrace[id];
      var dropped := ShouldBeDroppedNow(t);
      if dropped {
        selected := TakeFirstPass(currSecond, id, t, Dropped, total, selected);
      } else {
        total := total + t.spanCount;
        var decision, byProbability, filterName := MakeProvisionalDecision(t, clock);
        assert View() == old(View()).(budgets := Budgets());
        selected := TakeFirstPass(currSecond, id, t.(byProbability := byProbability, filterName := filterName),
                                  decision, total, selected);
      }
    }

    /** The body of the second loop: secondPass, the history entry, cleanup and dropTrace. */
    method SettleTrace(currSecond: int, id: TraceId, total: int, selected: int)
      requires Wired()
      modifies this, decisionSpansLimiter
      ensures Pass(View(), total, selected) ==
              SettleOne(config, Pass(old(View()), total, selected), currSecond, id)
    {
      hide Merge, Limiter.Update, Limiter.Admits;
      if id !in idToTrace {
        return;
      }
      var t := idToTrace[id];
      if t.finalDecision == SecondChance {
        var d := decisionSpansLimiter.UpdateRate(currSecond, t.spanCount);
        t := t.(finalDecision := d);
        idToTrace := idToTrace[id := t];
      }
      decisionHistory := decisionHistory[id := HistoryInfo(t.finalDecision, t.filterName, t.byProbability)];
      Clean(currSecond, id, t, total, selected);
      DropTrace(id);
    }

    /** cleanup: forwards the spans of a sampled trace as one, with its tag. */
    method Clean(currSecond: int, id: TraceId, t: TraceData, total: int, selected: int)
      modifies `log
      ensures log == old(log) + [Cleanup(config, Pass(View(), total, selected), currSecond, id, t)]
    {
      if t.finalDecision == Sampled {
        var allSpans: Traces := [];
        for j := 0 to |t.batches|
          invariant allSpans == Merge(t.batches[..j])
        {
          allSpans := allSpans + t.batches[j];
          assert t.batches[..j + 1][..j] == t.batches[..j];
        }
        assert t.batches[..|t.batches|] == t.batches;
        var tag := if t.byProbability then Probabilistic(selected, total)
                   else if |config.accepts| > 0 then Filtered(t.filterName)
                   else Untagged;
        log := log + [Forwarded(id, currSecond, tag, allSpans)];
      } else {
        log := log + [Rejected(id, t.batches)];
      }
    }

    /** decideOnBatch. */
    method DecideOnBatch(currSecond: int, batch: seq<TraceId>, clocks: nat -> Clock)
      requires Wired()
      modifies this, decisionSpansLimiter, evaluators
      ensures View() == Decide(config, old(View()), currSecond, Entries(batch, clocks))
    {
      hide DecideOne, SettleOne;
      ghost var entries := Entries(batch, clocks);
      ghost var start := Pass(View(), 0, 0);
      var total, selected := 0, 0;
      for i := 0 to |batch|
        invariant Pass(View(), total, selected) == FirstLoop(config, start, currSecond, entries[..i])
      {
        total, selected := DecideTrace(currSecond, batch[i], clocks(i), total, selected);
        assert entries[..i + 1][..i] == entries[..i] && entries[i] == Entry(batch[i], clocks(i));
      }
      assert entries[..|batch|] == entries;
      ghost var middle := Pass(View(), total, selected);
      for i := 0 to |batch|
        invariant Pass(View(), total, selected) == SecondLoop(config, middle, currSecond, entries[..i])
      {
        SettleTrace(currSecond, batch[i], total, selected);
        assert entries[..i + 1][..i] == entries[..i] && entries[i] == Entry(batch[i], clocks(i));
      }
    }

    /** samplingPolicyOnTick. */
    method SamplingPolicyOnTick(currSecond: int, clocks: nat -> Clock)
      requires Valid()
      modifies this, decisionBatcher, decisionSpansLimiter, evaluators
      ensures View() == Tick(config, old(View()), currSecond, clocks) && Valid()
    {
      hide Decide, IdBatcher.TakeFirst, TraceOk;
      TickInv(config, View(), currSecond, clocks);
      var batch, more := decisionBatcher.CloseCurrentAndTakeFirstBatch();
      DecideOnBatch(currSecond, batch, clocks);
    }
  }

  /** The groups visited so far, each once, and those still to do. */
  ghost predicate Visits(g: map<TraceId, seq<Span>>, order: seq<TraceId>, todo: set<TraceId>) {
    && (forall x :: x in g <==> x in order || x in todo)
    && (forall i :: 0 <= i < |order| ==> order[i] in g && order[i] !in todo)
    && (forall i, j :: 0 <= i < j < |order| ==> order[i] != order[j])
  }

  lemma VisitsStart(g: map<TraceId, seq<Span>>)
    ensures Visits(g, [], g.Keys)
  {}

  lemma VisitsStep(g: map<TraceId, seq<Span>>, order: seq<TraceId>, todo: set<TraceId>, id: TraceId)
    requires Visits(g, order, todo) && id in todo
    ensures id in g && Visits(g, order + [id], todo - {id})
    ensures forall i :: 0 <= i < |order + [id]| ==> (order + [id])[i] in g
  {
    var next := order + [id];
    assert forall x :: x in next <==> x in order || x == id;
  }

  lemma VisitsAll(g: map<TraceId, seq<Span>>, order: seq<TraceId>)
    requires Visits(g, order, {})
    ensures forall x :: x in order <==> x in g
    ensures forall i, j :: 0 <= i < j < |order| ==> order[i] != order[j]
  {}

  lemma GroupNotEmpty(spans: seq<Span>, g: map<TraceId, seq<Span>>, id: TraceId)
    requires Groups(spans, g) && id in g
    ensures g[id] != []
  {}
}
