/**
 What the decisions of the sampler never exceed: the global span rate, the rate of late spans and the sampling
 probability.
 */
module SamplerLimits {
  import opened Base
  import opened Sampling
  import opened RateLimiting
  import IdBatcher
  import opened Sampler
  import opened SamplerInvariants

  // ---- Spans forwarded in a second ----

  /** Spans forwarded for one second by decisions, or as late arrivals; each kind has its own limit. */
  ghost function Charged(log: seq<Outcome>, second: int, late: bool): nat {
    if |log| == 0 then 0
    else
      var o := log[|log| - 1];
      Charged(log[..|log| - 1], second, late) + SpansFor(o, second, late)
  }

  ghost function SpansFor(o: Outcome, second: int, late: bool): nat {
    if o.Forwarded? && o.tag.LateArrival? == late && o.second == second then |LocateTraces(o.traces)| else 0
  }

  lemma ChargedSnoc(log: seq<Outcome>, o: Outcome, second: int, late: bool)
    ensures Charged(log + [o], second, late) == Charged(log, second, late) + SpansFor(o, second, late)
  {
    assert (log + [o])[..|log|] == log;
  }

  /** Every probability tag in the log is a ratio in (0, 1]. */
  ghost predicate TagsOk(log: seq<Outcome>) {
    forall o :: o in log && o.Forwarded? && o.tag.Probabilistic? ==> 0 < o.tag.selected <= o.tag.total
  }

  /** The traces of the state fit the limiter, and their counters are exact. */
  ghost predicate TracesFit(s: State) {
    forall x :: x in s.traces ==>
      && 0 < s.traces[x].spanCount && s.decisionLimiter.Fits(s.traces[x].spanCount)
      && s.traces[x].spanCount == |Locate(s.traces[x].batches)|
  }

  // ---- Spans admitted but not yet forwarded during a tick ----

  ghost function Due(m: map<TraceId, TraceData>, es: seq<Entry>): int {
    if |es| == 0 then 0
    else
      var id := es[0].id;
      (if id in m && m[id].finalDecision == Sampled then m[id].spanCount else 0) + Due(m - {id}, es[1..])
  }

  lemma {:induction false} DueZero(m: map<TraceId, TraceData>, es: seq<Entry>)
    requires forall x :: x in m ==> m[x].finalDecision != Sampled
    ensures Due(m, es) == 0
  {
    if |es| > 0 {
      DueZero(m - {es[0].id}, es[1..]);
    }
  }

  lemma {:induction false} DueUpdate(m: map<TraceId, TraceData>, id: TraceId, t: TraceData, es: seq<Entry>)
    requires id in m && t.spanCount == m[id].spanCount
    requires forall x :: x in m ==> 0 < m[x].spanCount
    ensures Due(m[id := t], es) <= Due(m, es) + if t.finalDecision == Sampled then t.spanCount else 0
    ensures 0 <= Due(m[id := t], es)
  {
    if |es| > 0 {
      var e := es[0].id;
      if e == id {
        assert m[id := t] - {id} == m - {id};
        DueNonNegative(m - {id}, es[1..]);
      } else {
        assert m[id := t] - {e} == (m - {e})[id := t];
        DueUpdate(m - {e}, id, t, es[1..]);
      }
    }
  }

  lemma {:induction false} DueNonNegative(m: map<TraceId, TraceData>, es: seq<Entry>)
    requires forall x :: x in m ==> 0 < m[x].spanCount
    ensures 0 <= Due(m, es)
  {
    if |es| > 0 {
      DueNonNegative(m - {es[0].id}, es[1..]);
    }
  }

  // ---- During a tick ----

  ghost predicate MidOk(p: Pass) {
    p.s.decisionLimiter.Valid() && TracesFit(p.s)
  }

  /** What requests at `sec` make of a limiter: it is untouched, or rolled to the second and charged. */
  predicate Advances(l: Limiter, l': Limiter, sec: int) {
    && l'.limit == l.limit
    && (l' == l || (l'.second == l.Rolled(sec).second && l.Rolled(sec).spans <= l'.spans))
  }

  /** The forwarded spans of the second are within what is charged for it. */
  ghost predicate WithinBudget(l: Limiter, log: seq<Outcome>, sec: int, late: bool) {
    0 < l.limit ==> Charged(log, sec, late) <= l.Rolled(sec).spans
  }

  /**
   Since the tick began in s0 only its own second has been charged; and if the second began within its budget,
   what it is charged and what it still owes the entries left is within it.
   */
  ghost predicate MidRate(s0: State, p: Pass, sec: int, rest: seq<Entry>) {
    var l := p.s.decisionLimiter;
    && Advances(s0.decisionLimiter, l, sec)
    && (forall x :: x != sec ==> Charged(p.s.log, x, false) == Charged(s0.log, x, false))
    && (0 < l.limit && WithinBudget(s0.decisionLimiter, s0.log, sec, false) ==>
          Charged(p.s.log, sec, false) + Due(p.s.traces, rest) <= l.Rolled(sec).spans)
  }

  /** The limiter has refused n spans in this second, and will keep refusing them. */
  predicate Refused(l: Limiter, sec: int, n: int32) {
    0 < l.limit && sec <= l.second && !l.Admits(sec, n)
  }

  /** A trace the probabilistic filter picked is counted as selected, or was refused and is not sampled. */
  ghost predicate MidTags(p: Pass, sec: int) {
    && 0 <= p.selected <= p.total
    && TagsOk(p.s.log)
    && forall x :: x in p.s.traces && p.s.traces[x].byProbability ==>
         var t := p.s.traces[x];
         || t.spanCount <= p.selected
         || (t.finalDecision != Sampled && Refused(p.s.decisionLimiter, sec, t.spanCount))
  }

  lemma LimiterStep(l: Limiter, sec: int, n: int32)
    requires l.Valid() && l.Fits(n)
    ensures
      var l' := l.Update(sec, n);
      && l'.Valid() && Advances(l, l', sec)
      && (0 < l.limit ==> l'.Rolled(sec).spans == l.Rolled(sec).spans + if l.Admits(sec, n) then n else 0)
      && (!l.Admits(sec, n) ==> Refused(l', sec, n))
  {}

  lemma LimitKept(l: Limiter, l': Limiter, sec: int)
    requires Advances(l, l', sec)
    ensures l'.limit == l.limit
  {}

  lemma AdvancesOn(l: Limiter, m: Limiter, r: Limiter, sec: int)
    requires Advances(l, m, sec) && Advances(m, r, sec)
    ensures Advances(l, r, sec)
  {}

  lemma RefusedStays(l: Limiter, sec: int, n: int32, m: int32)
    requires l.Valid() && l.Fits(n) && l.Fits(m) && Refused(l, sec, n)
    ensures Refused(l.Update(sec, m), sec, n)
  {
    RefusalPersists(l, sec, n, m);
  }

  /** The first pass on one trace, whatever led to its provisional decision. */
  lemma FirstPassKeeps(s0: State, p: Pass, sec: int, id: TraceId, t: TraceData, d: Decision, rest: seq<Entry>)
    requires MidOk(p) && MidRate(s0, p, sec, rest)
    requires id in p.s.traces && t.spanCount == p.s.traces[id].spanCount && t.batches == p.s.traces[id].batches
    ensures MidOk(FirstPass(p, sec, id, t, d))
    ensures MidRate(s0, FirstPass(p, sec, id, t, d), sec, rest)
  {
    hide Due, Charged, Locate, Limiter.Update, Limiter.Admits, Advances;
    var q := FirstPass(p, sec, id, t, d);
    var l := p.s.decisionLimiter;
    LimiterStep(l, sec, t.spanCount);
    AdvancesOn(s0.decisionLimiter, l, l.Update(sec, t.spanCount), sec);
    assert l.Update(sec, t.spanCount).limit == l.limit by { LimitKept(l, l.Update(sec, t.spanCount), sec); }
    DueUpdate(p.s.traces, id, q.s.traces[id], rest);
  }

  lemma FirstPassTags(p: Pass, sec: int, id: TraceId, t: TraceData, d: Decision)
    requires MidOk(p) && MidTags(p.(total := p.total), sec)
    requires id in p.s.traces && t.spanCount == p.s.traces[id].spanCount
    requires t.byProbability && !p.s.traces[id].byProbability ==> d == Sampled
    requires d == Sampled ==> p.selected + t.spanCount <= p.total
    ensures MidTags(FirstPass(p, sec, id, t, d), sec)
  {
    hide Locate, Limiter.Update, Limiter.Admits, TagsOk;
    var l := p.s.decisionLimiter;
    LimiterStep(l, sec, t.spanCount);
    forall x | x in p.s.traces && Refused(l, sec, p.s.traces[x].spanCount)
      ensures Refused(l.Update(sec, t.spanCount), sec, p.s.traces[x].spanCount)
    {
      RefusedStays(l, sec, p.s.traces[x].spanCount, t.spanCount);
    }
  }

  lemma DecideOneKeeps(s0: State, c: Config, p: Pass, sec: int, e: Entry, rest: seq<Entry>)
    requires |p.s.budgets| == |c.accepts|
    requires MidOk(p) && MidRate(s0, p, sec, rest) && MidTags(p, sec)
    ensures
      var q := DecideOne(c, p, sec, e);
      MidOk(q) && MidRate(s0, q, sec, rest) && MidTags(q, sec)
  {
    hide MidRate, Provisional, ShouldBeDropped, TagsOk, FirstPass, Refused, Locate;
    if e.id in p.s.traces {
      var t := p.s.traces[e.id];
      if ShouldBeDropped(c, t) {
        FirstPassKeeps(s0, p, sec, e.id, t, Dropped, rest);
        FirstPassTags(p, sec, e.id, t, Dropped);
      } else {
        var v := Provisional(c, t, e.clock, p.s.budgets);
        ProvisionalDecides(c, t, e.clock, p.s.budgets);
        var p1 := Pass(p.s.(budgets := v.budgets), p.total + t.spanCount, p.selected);
        var t1 := t.(byProbability := v.byProbability, filterName := v.filterName);
        MidRateReads(s0, p, p1, sec, rest);
        FirstPassKeeps(s0, p1, sec, e.id, t1, v.decision, rest);
        FirstPassTags(p1, sec, e.id, t1, v.decision);
      }
    }
  }

  lemma MidRateReads(s0: State, p: Pass, q: Pass, sec: int, rest: seq<Entry>)
    requires q.s.decisionLimiter == p.s.decisionLimiter && q.s.traces == p.s.traces && q.s.log == p.s.log
    ensures MidRate(s0, q, sec, rest) == MidRate(s0, p, sec, rest)
  {}

  lemma {:induction false} FirstLoopKeeps(s0: State, c: Config, p: Pass, sec: int,
                                          entries: seq<Entry>, rest: seq<Entry>)
    requires |p.s.budgets| == |c.accepts|
    requires MidOk(p) && MidRate(s0, p, sec, rest) && MidTags(p, sec)
    ensures
      var q := FirstLoop(c, p, sec, entries);
      MidOk(q) && MidRate(s0, q, sec, rest) && MidTags(q, sec)
  {
    hide MidOk, MidRate, MidTags, DecideOne;
    if |entries| > 0 {
      FirstLoopKeeps(s0, c, p, sec, entries[..|entries| - 1], rest);
      DecideOneKeeps(s0, c, FirstLoop(c, p, sec, entries[..|entries| - 1]), sec, entries[|entries| - 1], rest);
    }
  }

  lemma SettleRate(s0: State, c: Config, p: Pass, sec: int, e: Entry, rest: seq<Entry>)
    requires MidOk(p) && MidRate(s0, p, sec, [e] + rest)
    ensures MidOk(SettleOne(c, p, sec, e.id)) && MidRate(s0, SettleOne(c, p, sec, e.id), sec, rest)
  {
    hide Charged, Locate, LocateTraces, Limiter.Update, Limiter.Admits, Merge;
    var q := SettleOne(c, p, sec, e.id);
    assert ([e] + rest)[1..] == rest;
    if e.id in p.s.traces {
      var s := SecondPass(p.s, sec, e.id);
      var t := s.traces[e.id];
      assert q.s.traces == p.s.traces - {e.id};
      MergeKeeps(t.batches);
      LimiterStep(p.s.decisionLimiter, sec, t.spanCount);
      AdvancesOn(s0.decisionLimiter, p.s.decisionLimiter, p.s.decisionLimiter.Update(sec, t.spanCount), sec);
      forall x ensures Charged(q.s.log, x, false) == Charged(p.s.log, x, false)
                       + if t.finalDecision == Sampled && x == sec then t.spanCount else 0 {
        ChargedSnoc(p.s.log, Cleanup(c, p, sec, e.id, t), x, false);
      }
      DueNonNegative(p.s.traces - {e.id}, rest);
    } else {
      assert p.s.traces == p.s.traces - {e.id};
    }
  }

  lemma SettleTags(c: Config, p: Pass, sec: int, id: TraceId)
    requires MidOk(p) && MidTags(p, sec)
    ensures MidTags(SettleOne(c, p, sec, id), sec)
  {
    hide Locate, Limiter.Update, Merge;
    if id in p.s.traces {
      var t := p.s.traces[id];
      var l := p.s.decisionLimiter;
      LimiterStep(l, sec, t.spanCount);
      forall x | x in p.s.traces && Refused(l, sec, p.s.traces[x].spanCount)
        ensures Refused(l.Update(sec, t.spanCount), sec, p.s.traces[x].spanCount)
      {
        RefusedStays(l, sec, p.s.traces[x].spanCount, t.spanCount);
      }
    }
  }

  lemma {:induction false} SecondLoopKeeps(s0: State, c: Config, p: Pass, sec: int, entries: seq<Entry>, k: nat)
    requires k <= |entries|
    requires MidOk(p) && MidRate(s0, p, sec, entries) && MidTags(p, sec)
    ensures
      var q := SecondLoop(c, p, sec, entries[..k]);
      MidOk(q) && MidRate(s0, q, sec, entries[k..]) && MidTags(q, sec)
  {
    hide MidOk, MidRate, MidTags, SettleOne;
    if k == 0 {
      assert entries[0..] == entries;
    } else {
      SecondLoopKeeps(s0, c, p, sec, entries, k - 1);
      var q := SecondLoop(c, p, sec, entries[..k - 1]);
      assert entries[..k][..k - 1] == entries[..k - 1];
      assert entries[k - 1..] == [entries[k - 1]] + entries[k..];
      SettleRate(s0, c, q, sec, entries[k - 1], entries[k..]);
      SettleTags(c, q, sec, entries[k - 1].id);
    }
  }

  /**
   A tick for second `sec` charges no other second, keeps the second within its budget if it was, and writes
   only well formed probability tags. Nothing is asked of the clock.
   */
  lemma TickKeeps(c: Config, s: State, sec: int, clocks: nat -> Clock)
    requires Inv(c, s) && TracesFit(s)
    requires s.decisionLimiter.Valid() && TagsOk(s.log)
    ensures
      var r := Tick(c, s, sec, clocks);
      && r.decisionLimiter.Valid() && Advances(s.decisionLimiter, r.decisionLimiter, sec)
      && (forall x :: x != sec ==> Charged(r.log, x, false) == Charged(s.log, x, false))
      && (WithinBudget(s.decisionLimiter, s.log, sec, false) ==> WithinBudget(r.decisionLimiter, r.log, sec, false))
      && TagsOk(r.log)
  {
    hide FirstLoop, SecondLoop, TagsOk, Charged, Locate, IdBatcher.Inv, IdBatcher.Inside, Entries, IdBatcher.TakeFirst;
    var (pipeline, batch, _) := IdBatcher.TakeFirst(s.pipeline);
    var p := Pass(s.(pipeline := pipeline), 0, 0);
    var entries := Entries(batch, clocks);
    DueZero(s.traces, entries);
    FirstLoopKeeps(s, c, p, sec, entries, entries);
    var q := FirstLoop(c, p, sec, entries);
    SecondLoopKeeps(s, c, q, sec, entries, |entries|);
    assert entries[..|entries|] == entries && entries[|entries|..] == [];
    assert Due(SecondLoop(c, q, sec, entries).s.traces, []) == 0;
  }

  // ---- What arrivals and ticks do to the two rates ----

  /** The entries a log gained forward nothing, or only spans of the other kind. */
  ghost predicate Extends(log: seq<Outcome>, log': seq<Outcome>, late: bool) {
    && |log| <= |log'| && log'[..|log|] == log
    && forall i :: |log| <= i < |log'| ==> log'[i].Forwarded? ==> log'[i].tag.LateArrival? != late
  }

  lemma {:induction false} UnchargedSuffix(log: seq<Outcome>, log': seq<Outcome>, x: int, late: bool)
    requires Extends(log, log', late)
    ensures Charged(log', x, late) == Charged(log, x, late)
  {
    if |log'| == |log| {
      assert log' == log;
    } else {
      assert log'[..|log'| - 1][..|log|] == log;
      UnchargedSuffix(log, log'[..|log'| - 1], x, late);
    }
  }

  lemma TagsExtend(log: seq<Outcome>, log': seq<Outcome>)
    requires Extends(log, log', false) && TagsOk(log)
    ensures TagsOk(log')
  {
    forall o | o in log' && o.Forwarded? && o.tag.Probabilistic? ensures 0 < o.tag.selected <= o.tag.total {
      var i :| 0 <= i < |log'| && log'[i] == o;
      assert i < |log| && log[i] == o;
    }
  }

  lemma {:induction false} EnrollLog(c: Config, s: State, id: TraceId)
    requires 1 <= c.maxNumTraces
    ensures Extends(s.log, Enroll(c, s, id).log, false) && Extends(s.log, Enroll(c, s, id).log, true)
    decreases |s.deleteChan|
  {
    if |s.deleteChan| >= c.maxNumTraces {
      EnrollLog(c, Evict(s.(deleteChan := s.deleteChan[1..]), s.deleteChan[0]), id);
    }
  }

  lemma BufferLog(c: Config, s: State, id: TraceId, res: Attributes, spans: seq<Span>, late: bool)
    requires 1 <= c.maxNumTraces
    ensures
      var r := BufferTrace(c, s, id, res, spans);
      && r.decisionLimiter == s.decisionLimiter && r.priorLimiter == s.priorLimiter
      && Extends(s.log, r.log, late)
  {
    hide Enroll, Wrap32, AddId, PrepareBatch;
    if id !in s.traces {
      EnrollLog(c, Store(s, id, |spans|), id);
      EnrollFrames(c, Store(s, id, |spans|), id);
    }
  }

  lemma ArriveLog(c: Config, s: State, now: int, res: Attributes, id: TraceId, spans: seq<Span>)
    requires 1 <= c.maxNumTraces
    ensures
      var r := Arrive(c, s, now, res, id, spans);
      r.decisionLimiter == s.decisionLimiter && Extends(s.log, r.log, false)
  {
    hide BufferTrace, PrepareBatch, Wrap32;
    BufferLog(c, s, id, res, spans, false);
  }

  /** What an arrival of a remembered trace does: one outcome, charged to the prior limiter if it may pass. */
  lemma ArriveRemembered(c: Config, s: State, now: int, res: Attributes, id: TraceId, spans: seq<Span>)
    returns (o: Outcome)
    requires 1 <= c.maxNumTraces && id in s.history && Final(s.history[id].decision) && FitsInt32(|spans|)
    ensures
      var r := Arrive(c, s, now, res, id, spans);
      var asked := s.history[id].decision == Sampled;
      && r.log == s.log + [o]
      && r.priorLimiter == (if asked then s.priorLimiter.Update(now, |spans|) else s.priorLimiter)
      && forall x :: SpansFor(o, x, true)
                  == if asked && x == now && s.priorLimiter.Admits(now, |spans|) then |spans| else 0
  {
    hide BufferTrace, PrepareBatch, Limiter.Update, Limiter.Admits, LocateTraces;
    LocateAppend([], res, spans);
    assert |LocateSpans(res, spans)| == |spans|;
    o := Arrive(c, s, now, res, id, spans).log[|s.log|];
  }

  /** An arrival charges the late spans it forwards to the prior limiter, and nothing else. */
  lemma ArriveLate(c: Config, s: State, now: int, res: Attributes, id: TraceId, spans: seq<Span>)
    requires 1 <= c.maxNumTraces && s.priorLimiter.Valid() && s.priorLimiter.Fits(|spans|) && FitsInt32(|spans|)
    ensures
      var r := Arrive(c, s, now, res, id, spans);
      && r.priorLimiter.Valid() && Advances(s.priorLimiter, r.priorLimiter, now)
      && (forall x :: x != now ==> Charged(r.log, x, true) == Charged(s.log, x, true))
      && (WithinBudget(s.priorLimiter, s.log, now, true) ==> WithinBudget(r.priorLimiter, r.log, now, true))
  {
    hide Arrive, Charged, SpansFor, Limiter.Update, Limiter.Admits, Limiter.Rolled;
    var r := Arrive(c, s, now, res, id, spans);
    LimiterStep(s.priorLimiter, now, |spans|);
    if id in s.history && Final(s.history[id].decision) {
      var o := ArriveRemembered(c, s, now, res, id, spans);
      forall x ensures Charged(r.log, x, true) == Charged(s.log, x, true) + SpansFor(o, x, true) {
        ChargedSnoc(s.log, o, x, true);
      }
    } else {
      ArriveBuffered(c, s, now, res, id, spans);
      forall x ensures Charged(r.log, x, true) == Charged(s.log, x, true) {
        UnchargedSuffix(s.log, r.log, x, true);
      }
    }
  }

  /** An arrival of a trace that is not remembered charges no late spans. */
  lemma ArriveBuffered(c: Config, s: State, now: int, res: Attributes, id: TraceId, spans: seq<Span>)
    requires 1 <= c.maxNumTraces && !(id in s.history && Final(s.history[id].decision))
    ensures
      var r := Arrive(c, s, now, res, id, spans);
      r.priorLimiter == s.priorLimiter && Extends(s.log, r.log, true)
  {
    hide BufferTrace, PrepareBatch;
    BufferLog(c, s, id, res, spans, true);
  }

  lemma SettleLog(c: Config, p: Pass, sec: int, id: TraceId)
    ensures Extends(p.s.log, SettleOne(c, p, sec, id).s.log, true)
  {
    hide Merge, Limiter.Update, Limiter.Admits;
  }

  lemma {:induction false} SecondLoopLog(c: Config, p: Pass, sec: int, entries: seq<Entry>)
    ensures Extends(p.s.log, SecondLoop(c, p, sec, entries).s.log, true)
  {
    hide SettleOne;
    if |entries| > 0 {
      SecondLoopLog(c, p, sec, entries[..|entries| - 1]);
      SettleLog(c, SecondLoop(c, p, sec, entries[..|entries| - 1]), sec, entries[|entries| - 1].id);
    }
  }

  /** A tick has no part in the rate of late spans. */
  lemma TickLog(c: Config, s: State, sec: int, clocks: nat -> Clock)
    requires |s.budgets| == |c.accepts|
    ensures
      var r := Tick(c, s, sec, clocks);
      r.priorLimiter == s.priorLimiter && Extends(s.log, r.log, true)
  {
    hide FirstLoop, SecondLoop, Entries, IdBatcher.TakeFirst;
    var (pipeline, batch, _) := IdBatcher.TakeFirst(s.pipeline);
    var s1 := s.(pipeline := pipeline);
    var entries := Entries(batch, clocks);
    FirstLoopFrames(c, Pass(s1, 0, 0), sec, entries);
    SecondLoopLog(c, FirstLoop(c, Pass(s1, 0, 0), sec, entries), sec, entries);
    DecideFrame(c, s1, sec, entries);
  }

  // ---- Over runs ----

  /** The seconds of the ticks. */
  function TickSecs(events: seq<Event>): seq<int> {
    if |events| == 0 then []
    else
      var secs, e := TickSecs(events[..|events| - 1]), events[|events| - 1];
      if e.TickEvent? then secs + [e.sec] else secs
  }

  /** The first tick never has anything to decide, and the first arrival is never late; these are the others. */
  function ButFirst(times: seq<int>): seq<int> {
    if |times| == 0 then [] else times[1..]
  }

  /** The seconds of the arrivals. */
  function ArrivalTimes(events: seq<Event>): seq<int> {
    if |events| == 0 then []
    else
      var times, e := ArrivalTimes(events[..|events| - 1]), events[|events| - 1];
      if e.ArriveEvent? then times + [e.now] else times
  }

  /** Since the second x was last read, if ever, no later one was that could have moved a limiter on. */
  ghost predicate MayCome(times: seq<int>, x: int) {
    forall i, k :: 0 <= i < k < |times| && times[i] == x ==> times[k] <= x || times[k] <= 0
  }

  /**
   Between two readings of the same second there is none of a later one; the clock may go back otherwise. Limiters
   start at second zero, so that earlier seconds do not move them.
   */
  ghost predicate NoReturn(times: seq<int>) {
    forall i, k, j :: 0 <= i < k < j < |times| && times[i] == times[j] ==> times[k] <= times[i] || times[k] <= 0
  }

  lemma NoReturnSnoc(times: seq<int>, t: int)
    requires NoReturn(times + [t])
    ensures NoReturn(times) && MayCome(times, t)
  {
    var all := times + [t];
    forall i, k, j | 0 <= i < k < j < |times| && times[i] == times[j] ensures times[k] <= times[i] || times[k] <= 0 {
      assert all[i] == times[i] && all[k] == times[k] && all[j] == times[j];
    }
    forall i, k | 0 <= i < k < |times| && times[i] == t ensures times[k] <= t || times[k] <= 0 {
      assert all[i] == times[i] && all[k] == times[k] && all[|times|] == t;
    }
  }

  lemma ButFirstSnoc(times: seq<int>, t: int)
    requires NoReturn(ButFirst(times + [t]))
    ensures ButFirst(times + [t]) == if times == [] then [] else ButFirst(times) + [t]
    ensures NoReturn(ButFirst(times)) && (times != [] ==> MayCome(ButFirst(times), t))
  {
    hide NoReturn, MayCome;
    if times != [] {
      assert (times + [t])[1..] == times[1..] + [t];
      NoReturnSnoc(times[1..], t);
    } else {
      assert (times + [t])[1..] == [];
    }
  }

  /** The clock never goes back. */
  predicate Steady(times: seq<int>) {
    forall i, j :: 0 <= i < j < |times| ==> times[i] <= times[j]
  }

  /** A clock that never goes back meets the condition. */
  lemma SteadyClock(times: seq<int>)
    requires Steady(times)
    ensures NoReturn(times) && NoReturn(ButFirst(times))
  {}

  /** No second is over the limit, and one that may come again is within what is charged. */
  ghost predicate RateInv(l: Limiter, log: seq<Outcome>, times: seq<int>, late: bool) {
    && l.Valid() && 0 <= l.second
    && (0 < l.limit ==> forall x ::
          && Charged(log, x, late) <= l.limit
          && (MayCome(times, x) ==> Charged(log, x, late) <= l.Rolled(x).spans)
          && (x !in times ==> Charged(log, x, late) == 0))
  }

  lemma Earlier(times: seq<int>, t: int, x: int)
    ensures MayCome(times + [t], x) ==> MayCome(times, x)
    ensures MayCome(times + [t], x) && x in times ==> t <= x || t <= 0
  {
    var all, n := times + [t], |times|;
    assert all[n] == t && forall i :: 0 <= i < n ==> all[i] == times[i];
    if MayCome(all, x) {
      forall i, k | 0 <= i < k < n && times[i] == x ensures times[k] <= x || times[k] <= 0 {
        assert all[i] == x;
      }
      if x in times {
        var i :| 0 <= i < n && times[i] == x;
        assert all[i] == x;
      }
    }
  }

  /** An event that charges at most the second it reads keeps the invariant. */
  lemma RateStep(l: Limiter, log: seq<Outcome>, l': Limiter, log': seq<Outcome>, times: seq<int>, sec: int, late: bool)
    requires RateInv(l, log, times, late) && MayCome(times, sec) && l'.Valid() && Advances(l, l', sec)
    requires forall x :: x != sec ==> Charged(log', x, late) == Charged(log, x, late)
    requires WithinBudget(l, log, sec, late) ==> WithinBudget(l', log', sec, late)
    ensures RateInv(l', log', times + [sec], late)
  {
    hide MayCome, Charged;
    if 0 < l.limit {
      forall x
        ensures Charged(log', x, late) <= l'.limit
        ensures MayCome(times + [sec], x) ==> Charged(log', x, late) <= l'.Rolled(x).spans
        ensures x !in times + [sec] ==> Charged(log', x, late) == 0
      {
        Earlier(times, sec, x);
      }
    }
  }

  /** So does an event that charges nothing. */
  lemma RateStill(l: Limiter, log: seq<Outcome>, log': seq<Outcome>, times: seq<int>, late: bool)
    requires RateInv(l, log, times, late) && Extends(log, log', late)
    ensures RateInv(l, log', times, late)
  {
    hide MayCome, Charged, Extends;
    forall x ensures Charged(log', x, late) == Charged(log, x, late) {
      UnchargedSuffix(log, log', x, late);
    }
  }

  lemma NothingCharged(l: Limiter, late: bool)
    requires l.Valid() && 0 <= l.second
    ensures RateInv(l, [], [], late)
  {}

  // The first tick

  /** As long as there was no tick, the batch at the front of the pipe is the empty one it started with. */
  lemma {:induction false} FrontIsEmpty(u: Setup, events: seq<Event>)
    requires ValidSetup(u) && ValidEvents(events) && TickSecs(events) == []
    ensures
      var p := Reached(u, events).pipeline;
      p.pipe != [] && p.pipe[0] == []
  {
    hide Inv, Arrive, Tick;
    if |events| > 0 {
      var init, e := events[..|events| - 1], events[|events| - 1];
      FrontIsEmpty(u, init);
      ReachedInv(u, init);
      var m := Reached(u, init);
      WiredByInv(u.config, m);
      if e.ArriveEvent? {
        ArrivePipe(u.config, m, e.now, e.res, e.id, e.spans);
      }
    }
  }

  lemma ArrivePipe(c: Config, s: State, now: int, res: Attributes, id: TraceId, spans: seq<Span>)
    requires 1 <= c.maxNumTraces
    ensures Arrive(c, s, now, res, id, spans).pipeline.pipe == s.pipeline.pipe
  {
    hide Enroll, Wrap32, PrepareBatch, Limiter.Update, Limiter.Admits;
    if id !in s.traces {
      EnrollFrames(c, Store(s, id, |spans|), id);
    }
  }

  /** A tick for a batch that holds nothing changes nothing but the pipeline. */
  lemma IdleTick(c: Config, s: State, sec: int, clocks: nat -> Clock)
    requires |s.budgets| == |c.accepts| && s.pipeline.pipe != [] && s.pipeline.pipe[0] == []
    ensures Tick(c, s, sec, clocks) == s.(pipeline := IdBatcher.TakeFirst(s.pipeline).0)
  {
    assert Entries([], clocks) == [];
  }

  /** What must be left of int32 beside the count of a trace. */
  function Slack(limit: int32): nat {
    if 0 < limit then limit else 0
  }

  lemma TracesFitByHeld(c: Config, s: State)
    requires Inv(c, s) && HeldFit(s, Slack(s.decisionLimiter.limit))
    ensures TracesFit(s)
  {
    hide Locate, IdBatcher.Inv, IdBatcher.Inside;
  }

  /** Probability tags over every run, whatever the clock does. */
  lemma {:induction false} RunTags(u: Setup, events: seq<Event>)
    requires ValidSetup(u) && ValidEvents(events) && FitAtTicks(u, events, Slack(u.limit))
    ensures
      var r := Reached(u, events);
      r.decisionLimiter.Valid() && r.decisionLimiter.limit == u.limit && TagsOk(r.log)
  {
    hide Inv, TagsOk, HeldFit, Tick, Arrive, Limiter.Valid, Init, Charged;
    InitFields(u);
    if |events| > 0 {
      var init, e := events[..|events| - 1], events[|events| - 1];
      FitPrefix(u, events, Slack(u.limit));
      RunTags(u, init);
      ReachedInv(u, init);
      var m := Reached(u, init);
      WiredByInv(u.config, m);
      match e
      case ArriveEvent(now, res, id, spans) =>
        ArriveLog(u.config, m, now, res, id, spans);
        TagsExtend(m.log, Arrive(u.config, m, now, res, id, spans).log);
      case TickEvent(sec, clocks) =>
        TracesFitByHeld(u.config, m);
        TickKeeps(u.config, m, sec, clocks);
      case FillEvent =>
      case ForgetEvent(_) =>
    } else {
      assert TagsOk([]) by { NoTags(); }
    }
  }

  lemma NoTags()
    ensures TagsOk([])
  {}

  lemma {:induction false} RunRate(u: Setup, events: seq<Event>)
    requires ValidSetup(u) && ValidEvents(events) && FitAtTicks(u, events, Slack(u.limit))
    requires NoReturn(ButFirst(TickSecs(events)))
    ensures RateInv(Reached(u, events).decisionLimiter, Reached(u, events).log, ButFirst(TickSecs(events)), false)
  {
    hide Inv, RateInv, TagsOk, HeldFit, Tick, Arrive, Limiter.Valid, Init, MayCome, Charged, NoReturn;
    InitFields(u);
    if |events| == 0 {
      assert ButFirst(TickSecs(events)) == [];
      NothingCharged(Init(u).decisionLimiter, false);
    } else {
      var init, e := events[..|events| - 1], events[|events| - 1];
      FitPrefix(u, events, Slack(u.limit));
      ReachedInv(u, init);
      var m, r, secs := Reached(u, init), Reached(u, events), TickSecs(init);
      WiredByInv(u.config, m);
      if e.TickEvent? {
        ButFirstSnoc(secs, e.sec);
      }
      RunRate(u, init);
      match e
      case ArriveEvent(now, res, id, spans) =>
        ArriveLog(u.config, m, now, res, id, spans);
        RateStill(m.decisionLimiter, m.log, r.log, ButFirst(secs), false);
      case TickEvent(sec, clocks) =>
        RunTags(u, init);
        if secs == [] {
          FrontIsEmpty(u, init);
          IdleTick(u.config, m, sec, clocks);
        } else {
          TracesFitByHeld(u.config, m);
          TickKeeps(u.config, m, sec, clocks);
          RateStep(m.decisionLimiter, m.log, r.decisionLimiter, r.log, ButFirst(secs), sec, false);
        }
      case FillEvent =>
      case ForgetEvent(_) =>
    }
  }

  /** No single arrival leaves int32 together with a charged budget. */
  predicate ArrivalsFit(events: seq<Event>, limit: int32) {
    forall i :: 0 <= i < |events| && events[i].ArriveEvent? ==> |events[i].spans| + Slack(limit) <= INT32_MAX
  }

  /** Before the first arrival there is nothing to decide, and nothing remembered. */
  lemma {:induction false} NothingRemembered(u: Setup, events: seq<Event>)
    requires ValidSetup(u) && ValidEvents(events) && ArrivalTimes(events) == []
    ensures Reached(u, events).traces == map[] && Reached(u, events).history == map[]
  {
    hide Inv, Tick;
    if |events| > 0 {
      var init, e := events[..|events| - 1], events[|events| - 1];
      NothingRemembered(u, init);
      ReachedInv(u, init);
      var m := Reached(u, init);
      WiredByInv(u.config, m);
      if e.TickEvent? {
        NothingToSettle(u.config, m, e.sec, e.clocks);
      }
    }
  }

  lemma NothingToSettle(c: Config, s: State, sec: int, clocks: nat -> Clock)
    requires |s.budgets| == |c.accepts| && s.traces == map[] && s.history == map[]
    ensures var r := Tick(c, s, sec, clocks); r.traces == map[] && r.history == map[]
  {
    hide Decide, Entries, IdBatcher.TakeFirst;
    var (pipeline, batch, _) := IdBatcher.TakeFirst(s.pipeline);
    DecideFrame(c, s.(pipeline := pipeline), sec, Entries(batch, clocks));
    var r := Tick(c, s, sec, clocks);
    assert r.traces.Keys == {} && r.history.Keys == {};
  }

  lemma {:induction false} RunLateRate(u: Setup, events: seq<Event>)
    requires ValidSetup(u) && ValidEvents(events) && ArrivalsFit(events, u.priorLimit)
    requires NoReturn(ButFirst(ArrivalTimes(events)))
    ensures Reached(u, events).priorLimiter.limit == u.priorLimit
    ensures RateInv(Reached(u, events).priorLimiter, Reached(u, events).log, ButFirst(ArrivalTimes(events)), true)
  {
    hide Inv, RateInv, Tick, Arrive, Init, MayCome, Charged, NoReturn;
    InitFields(u);
    if |events| == 0 {
      NothingCharged(Init(u).priorLimiter, true);
    } else {
      var init, e := events[..|events| - 1], events[|events| - 1];
      var times := ArrivalTimes(init);
      if e.ArriveEvent? {
        ButFirstSnoc(times, e.now);
      }
      RunLateRate(u, init);
      ReachedInv(u, init);
      var m, r := Reached(u, init), Reached(u, events);
      WiredByInv(u.config, m);
      RateValid(m.priorLimiter, m.log, ButFirst(times), true);
      match e
      case ArriveEvent(now, res, id, spans) =>
        if times == [] {
          NothingRemembered(u, init);
          ArriveBuffered(u.config, m, now, res, id, spans);
          RateStill(m.priorLimiter, m.log, r.log, ButFirst(times), true);
        } else {
          ArriveLate(u.config, m, now, res, id, spans);
          RateStep(m.priorLimiter, m.log, r.priorLimiter, r.log, ButFirst(times), now, true);
        }
      case TickEvent(sec, clocks) =>
        TickLog(u.config, m, sec, clocks);
        RateStill(m.priorLimiter, m.log, r.log, ButFirst(times), true);
      case FillEvent =>
      case ForgetEvent(_) =>
    }
  }

  lemma RateValid(l: Limiter, log: seq<Outcome>, times: seq<int>, late: bool)
    requires RateInv(l, log, times, late)
    ensures l.Valid() && forall x :: 0 < l.limit ==> Charged(log, x, late) <= l.limit
  {}

  lemma InitFields(u: Setup)
    ensures
      var s := Init(u);
      && s.log == []
      && s.decisionLimiter.limit == u.limit && s.decisionLimiter.Valid() && s.decisionLimiter.second == 0
      && s.priorLimiter.limit == u.priorLimit && s.priorLimiter.Valid() && s.priorLimiter.second == 0
  {}

  /**
   The decision rate over every run whose traces, when a tick comes, are small enough for int32, and in which, the
   first tick apart, no tick's second comes again after a later one: with a positive limit the spans forwarded by the
   decisions of any one second never exceed it.
   */
  lemma GlobalRate(u: Setup, events: seq<Event>, second: int)
    requires ValidSetup(u) && ValidEvents(events) && FitAtTicks(u, events, Slack(u.limit))
    requires NoReturn(ButFirst(TickSecs(events)))
    ensures 0 < u.limit ==> Charged(Reached(u, events).log, second, false) <= u.limit
  {
    hide Reached, Charged, FitAtTicks, NoReturn, RateInv;
    RunRate(u, events);
    RunTags(u, events);
    RateValid(Reached(u, events).decisionLimiter, Reached(u, events).log, ButFirst(TickSecs(events)), false);
  }

  /**
   The late spans forwarded in any one second never exceed the limit for them, under the same clock condition on
   the arrivals, the first apart.
   */
  lemma LateRate(u: Setup, events: seq<Event>, second: int)
    requires ValidSetup(u) && ValidEvents(events) && ArrivalsFit(events, u.priorLimit)
    requires NoReturn(ButFirst(ArrivalTimes(events)))
    ensures 0 < u.priorLimit ==> Charged(Reached(u, events).log, second, true) <= u.priorLimit
  {
    hide Reached, Charged, ArrivalsFit, NoReturn, RateInv;
    RunLateRate(u, events);
    RateValid(Reached(u, events).priorLimiter, Reached(u, events).log, ButFirst(ArrivalTimes(events)), true);
  }

  /** The sampling probability written on a span is well defined and lies in (0, 1]. */
  ghost predicate ProbabilitiesOk(log: seq<Outcome>) {
    forall o :: o in log && o.Forwarded? && o.tag.Probabilistic? ==>
      o.tag.total != 0 && 0.0 < o.tag.selected as real / o.tag.total as real <= 1.0
  }

  /**
   Over every run of traces small enough for int32, whatever the clock does and even when an id occurs twice in a
   batch, every sampling probability written on a span lies in (0, 1].
   */
  lemma SamplingProbability(u: Setup, events: seq<Event>)
    requires ValidSetup(u) && ValidEvents(events) && FitAtTicks(u, events, Slack(u.limit))
    ensures ProbabilitiesOk(Reached(u, events).log)
  {
    hide Reached, FitAtTicks;
    RunTags(u, events);
    var log := Reached(u, events).log;
    forall o | o in log && o.Forwarded? && o.tag.Probabilistic?
      ensures o.tag.total != 0 && 0.0 < o.tag.selected as real / o.tag.total as real <= 1.0
    {
      RatioBounds(o.tag.selected, o.tag.total);
    }
  }

  lemma {:induction false} ArrivalReceived(events: seq<Event>, i: nat)
    requires i < |events| && events[i].ArriveEvent?
    ensures |events[i].spans| <= |Received(events, events[i].id)|
  {
    if i < |events| - 1 {
      ArrivalReceived(events[..|events| - 1], i);
    } else {
      assert |LocateSpans(events[i].res, events[i].spans)| == |events[i].spans|;
    }
  }

  /** No trace receives so many spans that, with a charged budget, they could leave int32. */
  ghost predicate Small(events: seq<Event>, limit: int32) {
    forall id :: |Received(events, id)| + Slack(limit) <= INT32_MAX
  }

  lemma SmallArrivals(events: seq<Event>, limit: int32)
    requires Small(events, limit)
    ensures ArrivalsFit(events, limit)
  {
    hide Received;
    forall i | 0 <= i < |events| && events[i].ArriveEvent?
      ensures |events[i].spans| + Slack(limit) <= INT32_MAX
    {
      ArrivalReceived(events, i);
    }
  }

  /**
   The limits in their simple form: with a clock that never goes back and traces that are small over the whole run,
   no second's decisions and no second's late spans exceed their limit, and every sampling probability is sound.
   */
  lemma SteadyRuns(u: Setup, events: seq<Event>, second: int)
    requires ValidSetup(u) && ValidEvents(events) && Small(events, u.limit) && Small(events, u.priorLimit)
    requires Steady(TickSecs(events)) && Steady(ArrivalTimes(events))
    ensures 0 < u.limit ==> Charged(Reached(u, events).log, second, false) <= u.limit
    ensures 0 < u.priorLimit ==> Charged(Reached(u, events).log, second, true) <= u.priorLimit
    ensures ProbabilitiesOk(Reached(u, events).log)
  {
    hide Reached, Charged, TickSecs, ArrivalTimes, NoReturn, ProbabilitiesOk;
    hide FitAtTicks, Received, HeldFit, ArrivalsFit;
    FitByReceived(u, events, Slack(u.limit));
    SmallArrivals(events, u.priorLimit);
    SteadyClock(TickSecs(events));
    SteadyClock(ArrivalTimes(events));
    GlobalRate(u, events, second);
    LateRate(u, events, second);
    SamplingProbability(u, events);
  }

  lemma RatioBounds(a: int, b: int)
    requires 0 < a <= b
    ensures 0.0 < a as real / b as real <= 1.0
  {}
}
