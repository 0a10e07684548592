/**
 The cascading filter processor (processor.go, cascade.go) as a state machine over values.

 A state holds the buffered traces, the eviction queue, the decision history, the id pipeline,
 the two limiters, the policy budgets and a log of what became of the spans. `Arrive` is the part of
 processTraces for the spans of one trace, `Tick` is samplingPolicyOnTick; clock readings are inputs.
 */
module Sampler {
  import opened Base
  import opened Sampling
  import opened RateLimiting
  import opened IdBatcher

  // ---- Data ----

  datatype AcceptRule = AcceptRule(name: string, policy: Policy, probabilistic: bool)

  datatype Config = Config(maxNumTraces: nat, accepts: seq<AcceptRule>, rejects: seq<RejectRule>)

  datatype TraceData = TraceData(
    finalDecision: Decision,
    byProbability: bool,
    filterName: string,
    spanCount: int32,
    batches: seq<Traces>)

  datatype HistoryInfo = HistoryInfo(decision: Decision, filterName: string, probabilistic: bool)

  /** What is written on forwarded spans; the sampling probability is selected / total. */
  datatype Tag =
    | Probabilistic(selected: int, total: int)
    | Filtered(name: string)
    | Untagged
    | LateArrival(name: string, probabilistic: bool)

  /** What became of spans that left the buffer or never entered it. */
  datatype Outcome =
    | Forwarded(id: TraceId, second: int, tag: Tag, traces: Traces)
    | Rejected(id: TraceId, batches: seq<Traces>)
    | Evicted(id: TraceId, batches: seq<Traces>)

  datatype State = State(
    traces: map<TraceId, TraceData>,
    deleteChan: seq<TraceId>,
    numTracesOnMap: int,
    history: map<TraceId, HistoryInfo>,
    pipeline: Pipeline<TraceId>,
    decisionLimiter: Limiter,
    priorLimiter: Limiter,
    budgets: seq<Budget>,
    log: seq<Outcome>)

  /** What a processor is built from: its rules, the shape of its pipeline and its two limits. */
  datatype Setup = Setup(config: Config, numBatches: nat, channelSize: nat, limit: int32, priorLimit: int32)

  predicate ValidSetup(u: Setup) {
    1 <= u.config.maxNumTraces && 1 <= u.numBatches && 1 <= u.channelSize
  }

  function Init(u: Setup): State {
    State(map[], [], 0, map[], Start(u.numBatches, u.channelSize), Limiter(u.limit, 0, 0), Limiter(u.priorLimit, 0, 0),
          seq(|u.config.accepts|, _ => Budget(0, 0)), [])
  }

  // ---- Arriving spans ----

  function PrepareBatch(res: Attributes, spans: seq<Span>): Traces {
    [ResourceSpans(res, [spans])]
  }

  function NewTrace(n: int): TraceData {
    TraceData(Unspecified, false, "", Wrap32(n), [])
  }

  /** The batcher's send: on a full channel the filler makes room first. */
  function AddId(p: Pipeline<TraceId>, id: TraceId): Pipeline<TraceId> {
    Enqueue(if |p.pending| < p.channelSize || p.pending == [] then p else FillOne(p), id)
  }

  function Drop(s: State, id: TraceId): State {
    if id in s.traces then s.(traces := s.traces - {id}, numTracesOnMap := s.numTracesOnMap - 1) else s
  }

  /** Dropping to make room loses the spans the trace holds. */
  function Evict(s: State, id: TraceId): State {
    if id in s.traces then Drop(s, id).(log := s.log + [Evicted(id, s.traces[id].batches)]) else s
  }

  /** Queue the id for eviction, evicting the oldest queued ids while the queue is full. */
  function Enroll(c: Config, s: State, id: TraceId): State
    requires 1 <= c.maxNumTraces
    decreases |s.deleteChan|
  {
    if |s.deleteChan| < c.maxNumTraces then s.(deleteChan := s.deleteChan + [id])
    else Enroll(c, Evict(s.(deleteChan := s.deleteChan[1..]), s.deleteChan[0]), id)
  }

  /** Hand the spans to the trace object; they are lost if it has been evicted or decided meanwhile. */
  function AppendBatch(s: State, id: TraceId, batch: Traces): State {
    if id !in s.traces then s.(log := s.log + [Evicted(id, [batch])])
    else
      var t := s.traces[id];
      if t.finalDecision == Pending || t.finalDecision == Unspecified then
        s.(traces := s.traces[id := t.(batches := t.batches + [batch])])
      else
        s.(log := s.log + [Rejected(id, [batch])])
  }

  /** Count the spans on the trace they belong to, creating, scheduling and enrolling it if it is new. */
  function LoadOrStore(c: Config, s: State, id: TraceId, n: nat): State
    requires 1 <= c.maxNumTraces
  {
    if id in s.traces then
      var t := s.traces[id];
      s.(traces := s.traces[id := t.(spanCount := Wrap32(t.spanCount + Wrap32(n)))])
    else
      Enroll(c, Store(s, id, n), id)
  }

  function Store(s: State, id: TraceId, n: nat): State {
    s.(traces := s.traces[id := NewTrace(n)],
       pipeline := AddId(s.pipeline, id),
       numTracesOnMap := s.numTracesOnMap + 1)
  }

  function BufferTrace(c: Config, s: State, id: TraceId, res: Attributes, spans: seq<Span>): State
    requires 1 <= c.maxNumTraces
  {
    AppendBatch(LoadOrStore(c, s, id, |spans|), id, PrepareBatch(res, spans))
  }

  /** processTraces for the spans of one trace. */
  function Arrive(c: Config, s: State, now: int, res: Attributes, id: TraceId, spans: seq<Span>): State
    requires 1 <= c.maxNumTraces
  {
    var batch := PrepareBatch(res, spans);
    if id !in s.history then BufferTrace(c, s, id, res, spans)
    else
      var info := s.history[id];
      match info.decision
      case Sampled =>
        var s1 := s.(priorLimiter := s.priorLimiter.Update(now, Wrap32(|spans|)));
        if s.priorLimiter.Admits(now, Wrap32(|spans|)) then
          s1.(log := s.log + [Forwarded(id, now, LateArrival(info.filterName, info.probabilistic), batch)])
        else
          s1.(log := s.log + [Rejected(id, [batch])])
      case NotSampled => s.(log := s.log + [Rejected(id, [batch])])
      case Dropped => s.(log := s.log + [Rejected(id, [batch])])
      case _ => BufferTrace(c, s, id, res, spans)
  }

  // ---- Deciding on a batch ----

  type Clock = nat -> int

  /** An id of the batch and the clock readings of its policy evaluations. */
  datatype Entry = Entry(id: TraceId, clock: Clock)

  /** The provisional decision and what making it changed. */
  datatype Verdict = Verdict(decision: Decision, byProbability: bool, filterName: string, budgets: seq<Budget>)

  /** The loop of makeProvisionalDecision from policy i on. */
  ghost function EvaluateFrom(c: Config, t: TraceData, clock: Clock, i: nat, v: Verdict): Verdict
    requires i <= |c.accepts| && |v.budgets| == |c.accepts|
    decreases |c.accepts| - i
  {
    if i == |c.accepts| then v
    else
      var rule := c.accepts[i];
      var (b, d) := Evaluated(rule.policy, v.budgets[i], clock(i), t.spanCount, Selects(rule.policy, t.batches));
      var v1 := v.(budgets := v.budgets[i := b]);
      match d
      case Sampled =>
        if rule.probabilistic then v1.(decision := Sampled, byProbability := true)
        else v1.(decision := Sampled, filterName := rule.name)
      case NotSampled =>
        EvaluateFrom(c, t, clock, i + 1,
                     if v.decision == Unspecified then v1.(decision := NotSampled) else v1)
      case SecondChance =>
        EvaluateFrom(c, t, clock, i + 1,
                     if v.decision != Sampled then v1.(decision := SecondChance, filterName := rule.name) else v1)
      case _ => EvaluateFrom(c, t, clock, i + 1, v1)
  }

  ghost function Provisional(c: Config, t: TraceData, clock: Clock, budgets: seq<Budget>): Verdict
    requires |budgets| == |c.accepts|
  {
    if |c.accepts| == 0 then Verdict(Sampled, t.byProbability, t.filterName, budgets)
    else EvaluateFrom(c, t, clock, 0, Verdict(Unspecified, t.byProbability, t.filterName, budgets))
  }

  ghost predicate ShouldBeDropped(c: Config, t: TraceData) {
    exists i :: 0 <= i < |c.rejects| && ShouldDrop(c.rejects[i], t.batches)
  }

  /** The state during a tick, with its span totals. */
  datatype Pass = Pass(s: State, total: int, selected: int)

  function FirstPass(p: Pass, sec: int, id: TraceId, t: TraceData, d: Decision): Pass {
    if d == Sampled then
      var l := p.s.decisionLimiter;
      var f := l.Decide(sec, t.spanCount);
      Pass(p.s.(decisionLimiter := l.Update(sec, t.spanCount),
                traces := p.s.traces[id := t.(finalDecision := f)]),
           p.total,
           p.selected + if f == Sampled && t.byProbability then t.spanCount else 0)
    else
      p.(s := p.s.(traces := p.s.traces[id := t.(finalDecision := d)]))
  }

  /** The body of the first loop. */
  ghost function DecideOne(c: Config, p: Pass, sec: int, e: Entry): (q: Pass)
    requires |p.s.budgets| == |c.accepts|
    ensures |q.s.budgets| == |c.accepts|
  {
    if e.id !in p.s.traces then p
    else
      var t := p.s.traces[e.id];
      if ShouldBeDropped(c, t) then FirstPass(p, sec, e.id, t, Dropped)
      else
        var v := Provisional(c, t, e.clock, p.s.budgets);
        ProvisionalBudgets(c, t, e.clock, p.s.budgets);
        FirstPass(Pass(p.s.(budgets := v.budgets), p.total + t.spanCount, p.selected),
                  sec, e.id, t.(byProbability := v.byProbability, filterName := v.filterName), v.decision)
  }

  lemma {:induction false} EvaluateFromBudgets(c: Config, t: TraceData, clock: Clock, i: nat, v: Verdict)
    requires i <= |c.accepts| && |v.budgets| == |c.accepts|
    ensures |EvaluateFrom(c, t, clock, i, v).budgets| == |c.accepts|
    decreases |c.accepts| - i
  {
    if i < |c.accepts| {
      var rule := c.accepts[i];
      var (b, d) := Evaluated(rule.policy, v.budgets[i], clock(i), t.spanCount, Selects(rule.policy, t.batches));
      var v1 := v.(budgets := v.budgets[i := b]);
      EvaluateFromBudgets(c, t, clock, i + 1, v1);
      EvaluateFromBudgets(c, t, clock, i + 1, v1.(decision := NotSampled));
      EvaluateFromBudgets(c, t, clock, i + 1, v1.(decision := SecondChance, filterName := rule.name));
    }
  }

  lemma ProvisionalBudgets(c: Config, t: TraceData, clock: Clock, budgets: seq<Budget>)
    requires |budgets| == |c.accepts|
    ensures |Provisional(c, t, clock, budgets).budgets| == |c.accepts|
  {
    if |c.accepts| > 0 {
      EvaluateFromBudgets(c, t, clock, 0, Verdict(Unspecified, t.byProbability, t.filterName, budgets));
    }
  }

  ghost function FirstLoop(c: Config, p: Pass, sec: int, entries: seq<Entry>): (q: Pass)
    requires |p.s.budgets| == |c.accepts|
    ensures |q.s.budgets| == |c.accepts|
  {
    if |entries| == 0 then p
    else DecideOne(c, FirstLoop(c, p, sec, entries[..|entries| - 1]), sec, entries[|entries| - 1])
  }

  /** All batches of a trace as one, in order of arrival. */
  function Merge(batches: seq<Traces>): Traces {
    if |batches| == 0 then [] else Merge(batches[..|batches| - 1]) + batches[|batches| - 1]
  }

  function TagFor(c: Config, p: Pass, t: TraceData): Tag {
    if t.byProbability then Probabilistic(p.selected, p.total)
    else if |c.accepts| > 0 then Filtered(t.filterName)
    else Untagged
  }

  function SecondPass(s: State, sec: int, id: TraceId): State
    requires id in s.traces
  {
    var t := s.traces[id];
    if t.finalDecision == SecondChance then
      s.(decisionLimiter := s.decisionLimiter.Update(sec, t.spanCount),
         traces := s.traces[id := t.(finalDecision := s.decisionLimiter.Decide(sec, t.spanCount))])
    else s
  }

  /** Forward a sampled trace or give up its spans. */
  function Cleanup(c: Config, p: Pass, sec: int, id: TraceId, t: TraceData): Outcome {
    if t.finalDecision == Sampled then Forwarded(id, sec, TagFor(c, p, t), Merge(t.batches))
    else Rejected(id, t.batches)
  }

  /** The body of the second loop. */
  function SettleOne(c: Config, p: Pass, sec: int, id: TraceId): Pass {
    if id !in p.s.traces then p
    else
      var s := SecondPass(p.s, sec, id);
      var t := s.traces[id];
      var s1 := s.(history := s.history[id := HistoryInfo(t.finalDecision, t.filterName, t.byProbability)],
                   log := s.log + [Cleanup(c, p, sec, id, t)]);
      p.(s := Drop(s1, id))
  }

  function SecondLoop(c: Config, p: Pass, sec: int, entries: seq<Entry>): Pass {
    if |entries| == 0 then p
    else SettleOne(c, SecondLoop(c, p, sec, entries[..|entries| - 1]), sec, entries[|entries| - 1].id)
  }

  /** decideOnBatch. */
  ghost function Decide(c: Config, s: State, sec: int, entries: seq<Entry>): State
    requires |s.budgets| == |c.accepts|
  {
    SecondLoop(c, FirstLoop(c, Pass(s, 0, 0), sec, entries), sec, entries).s
  }

  function Entries(ids: seq<TraceId>, clocks: nat -> Clock): seq<Entry> {
    seq(|ids|, i requires 0 <= i < |ids| => Entry(ids[i], clocks(i)))
  }

  /** samplingPolicyOnTick. */
  ghost function Tick(c: Config, s: State, sec: int, clocks: nat -> Clock): State
    requires |s.budgets| == |c.accepts|
  {
    var (pipeline, batch, _) := TakeFirst(s.pipeline);
    Decide(c, s.(pipeline := pipeline), sec, Entries(batch, clocks))
  }

  // ---- Runs ----

  /** The history cache may forget any entry at any time; the filler may run at any time. */
  datatype Event =
    | ArriveEvent(now: int, res: Attributes, id: TraceId, spans: seq<Span>)
    | TickEvent(sec: int, clocks: nat -> Clock)
    | FillEvent
    | ForgetEvent(id: TraceId)

  /** The state belongs to the configuration: one budget for every policy. */
  predicate Wired(c: Config, s: State) {
    1 <= c.maxNumTraces && |s.budgets| == |c.accepts|
  }

  ghost function React(c: Config, s: State, e: Event): State
    requires Wired(c, s)
  {
    match e
    case ArriveEvent(now, res, id, spans) => Arrive(c, s, now, res, id, spans)
    case TickEvent(sec, clocks) => Tick(c, s, sec, clocks)
    case FillEvent => if s.pipeline.pending != [] then s.(pipeline := FillOne(s.pipeline)) else s
    case ForgetEvent(id) => s.(history := s.history - {id})
  }

  /** A group of arriving spans is never empty. */
  predicate ValidEvent(e: Event) {
    e.ArriveEvent? ==> e.spans != []
  }

  predicate ValidEvents(events: seq<Event>) {
    forall i :: 0 <= i < |events| ==> ValidEvent(events[i])
  }
}
