/**
 The decision history over runs, and the second chance traces of a batch.
 */
module SamplerHistory {
  import opened Base
  import opened Sampling
  import opened RateLimiting
  import IdBatcher
  import opened Sampler
  import opened SamplerInvariants

  // ---- Remembered refusals ----

  predicate Refusal(d: Decision) {
    d == NotSampled || d == Dropped
  }

  /** The log only grew, and by nothing that forwards spans of the trace. */
  ghost predicate Silent(log: seq<Outcome>, log': seq<Outcome>, id: TraceId) {
    && |log| <= |log'| && log'[..|log|] == log
    && forall i :: |log| <= i < |log'| && log'[i].Forwarded? ==> log'[i].id != id
  }

  lemma SilentTrans(a: seq<Outcome>, b: seq<Outcome>, c: seq<Outcome>, id: TraceId)
    requires Silent(a, b, id) && Silent(b, c, id)
    ensures Silent(a, c, id)
  {
    assert c[..|a|] == c[..|b|][..|a|];
    forall i | |a| <= i < |c| && c[i].Forwarded? ensures c[i].id != id {
      if i < |b| {
        assert c[i] == c[..|b|][i];
      }
    }
  }

  lemma {:induction false} EnrollSilent(c: Config, s: State, x: TraceId, id: TraceId)
    requires 1 <= c.maxNumTraces
    ensures Silent(s.log, Enroll(c, s, x).log, id)
    decreases |s.deleteChan|
  {
    if |s.deleteChan| >= c.maxNumTraces {
      var s1 := Evict(s.(deleteChan := s.deleteChan[1..]), s.deleteChan[0]);
      EnrollSilent(c, s1, x, id);
      SilentTrans(s.log, s1.log, Enroll(c, s, x).log, id);
    }
  }

  lemma BufferSilent(c: Config, s: State, x: TraceId, res: Attributes, spans: seq<Span>, id: TraceId)
    requires 1 <= c.maxNumTraces
    ensures Silent(s.log, BufferTrace(c, s, x, res, spans).log, id)
    ensures BufferTrace(c, s, x, res, spans).history == s.history
  {
    hide Enroll, AddId, Wrap32, PrepareBatch;
    if x !in s.traces {
      EnrollSilent(c, Store(s, x, |spans|), x, id);
      EnrollFrames(c, Store(s, x, |spans|), x);
    }
  }

  lemma ArriveSilent(c: Config, s: State, now: int, res: Attributes, x: TraceId, spans: seq<Span>, id: TraceId)
    requires 1 <= c.maxNumTraces
    requires id in s.history && Refusal(s.history[id].decision)
    ensures
      var r := Arrive(c, s, now, res, x, spans);
      r.history == s.history && Silent(s.log, r.log, id)
  {
    hide BufferTrace, PrepareBatch, Wrap32;
    BufferSilent(c, s, x, res, spans, id);
  }

  lemma SettleSilent(c: Config, p: Pass, sec: int, x: TraceId, id: TraceId)
    requires id !in p.s.traces
    ensures Silent(p.s.log, SettleOne(c, p, sec, x).s.log, id)
    ensures id !in SettleOne(c, p, sec, x).s.traces
  {
    hide Merge, Limiter.Update, Limiter.Admits;
  }

  lemma {:induction false} SecondLoopSilent(c: Config, p: Pass, sec: int, entries: seq<Entry>, id: TraceId)
    requires id !in p.s.traces
    ensures Silent(p.s.log, SecondLoop(c, p, sec, entries).s.log, id)
    ensures id !in SecondLoop(c, p, sec, entries).s.traces
  {
    hide SettleOne;
    if |entries| > 0 {
      SecondLoopSilent(c, p, sec, entries[..|entries| - 1], id);
      var m := SecondLoop(c, p, sec, entries[..|entries| - 1]);
      SettleSilent(c, m, sec, entries[|entries| - 1].id, id);
      SilentTrans(p.s.log, m.s.log, SecondLoop(c, p, sec, entries).s.log, id);
    }
  }

  lemma TickSilent(c: Config, s: State, sec: int, clocks: nat -> Clock, id: TraceId)
    requires |s.budgets| == |c.accepts| && id in s.history && id !in s.traces
    ensures
      var r := Tick(c, s, sec, clocks);
      id in r.history && r.history[id] == s.history[id] && Silent(s.log, r.log, id)
  {
    hide FirstLoop, SecondLoop, Entries, IdBatcher.TakeFirst;
    var (pipeline, batch, _) := IdBatcher.TakeFirst(s.pipeline);
    var s1 := s.(pipeline := pipeline);
    var entries := Entries(batch, clocks);
    FirstLoopFrames(c, Pass(s1, 0, 0), sec, entries);
    SecondLoopSilent(c, FirstLoop(c, Pass(s1, 0, 0), sec, entries), sec, entries, id);
    DecideFrame(c, s1, sec, entries);
  }

  lemma StepSilent(c: Config, s: State, e: Event, id: TraceId)
    requires Inv(c, s) && id in s.history && Refusal(s.history[id].decision)
    requires e != ForgetEvent(id)
    ensures
      var r := React(c, s, e);
      id in r.history && r.history[id] == s.history[id] && Silent(s.log, r.log, id)
  {
    hide Arrive, Tick, TraceOk, IdBatcher.Inv, IdBatcher.Inside;
    match e
    case ArriveEvent(now, res, x, spans) => ArriveSilent(c, s, now, res, x, spans, id);
    case TickEvent(sec, clocks) => TickSilent(c, s, sec, clocks, id);
    case FillEvent =>
    case ForgetEvent(x) =>
  }

  lemma {:induction false} RefusalRun(c: Config, s: State, events: seq<Event>, id: TraceId)
    requires Inv(c, s) && ValidEvents(events)
    requires id in s.history && Refusal(s.history[id].decision)
    requires forall i :: 0 <= i < |events| ==> events[i] != ForgetEvent(id)
    ensures
      var r := Run(c, s, events);
      id in r.history && r.history[id] == s.history[id] && Silent(s.log, r.log, id)
  {
    hide Inv, React;
    if |events| > 0 {
      var init := events[..|events| - 1];
      RefusalRun(c, s, init, id);
      RunInv(c, s, init);
      var m := Run(c, s, init);
      WiredByInv(c, m);
      StepSilent(c, m, events[|events| - 1], id);
      SilentTrans(s.log, m.log, Run(c, s, events).log, id);
    }
  }

  /**
   As long as the cache does not forget it, a trace remembered as not sampled or dropped in a reachable state
   stays so remembered, and none of its spans is forwarded, whatever else happens.
   */
  lemma RefusalHolds(u: Setup, before: seq<Event>, after: seq<Event>, id: TraceId)
    requires ValidSetup(u) && ValidEvents(before) && ValidEvents(after)
    requires id in Reached(u, before).history && Refusal(Reached(u, before).history[id].decision)
    requires forall i :: 0 <= i < |after| ==> after[i] != ForgetEvent(id)
    ensures
      var s, r := Reached(u, before), Reached(u, before + after);
      id in r.history && r.history[id] == s.history[id] && Silent(s.log, r.log, id)
  {
    hide Inv, Run, Init, Silent;
    InitInv(u);
    RunInv(u.config, Init(u), before);
    RunAppend(u.config, Init(u), before, after);
    RefusalRun(u.config, Reached(u, before), after, id);
  }

  // ---- Second chance traces ----

  ghost predicate BudgetsOk(c: Config, budgets: seq<Budget>) {
    && |budgets| == |c.accepts|
    && forall i :: 0 <= i < |budgets| ==> BudgetOk(c.accepts[i].policy, budgets[i])
  }

  /** Only a policy that samples the trace spends budget. */
  lemma {:induction false} EvaluateFromSpends(c: Config, t: TraceData, clock: Clock, i: nat, v: Verdict)
    requires i <= |c.accepts| && BudgetsOk(c, v.budgets) && 0 <= t.spanCount && v.decision != Sampled
    ensures
      var r := EvaluateFrom(c, t, clock, i, v);
      BudgetsOk(c, r.budgets) && (r.decision != Sampled ==> r.budgets == v.budgets)
    decreases |c.accepts| - i
  {
    if i < |c.accepts| {
      var rule := c.accepts[i];
      var selected := Selects(rule.policy, t.batches);
      var (b, d) := Evaluated(rule.policy, v.budgets[i], clock(i), t.spanCount, selected);
      if 0 <= rule.policy.limit {
        EarlyCheckExact(rule.policy, v.budgets[i], clock(i), t.spanCount, selected);
      }
      if d != Sampled {
        assert v.budgets[i := b] == v.budgets;
        EvaluateFromSpends(c, t, clock, i + 1,
          if d == SecondChance then v.(decision := SecondChance, filterName := rule.name)
          else if v.decision == Unspecified then v.(decision := NotSampled) else v);
      }
    }
  }

  lemma ProvisionalSpends(c: Config, t: TraceData, clock: Clock, budgets: seq<Budget>)
    requires BudgetsOk(c, budgets) && 0 <= t.spanCount
    ensures
      var v := Provisional(c, t, clock, budgets);
      BudgetsOk(c, v.budgets) && (v.decision != Sampled ==> v.budgets == budgets)
  {
    if |c.accepts| > 0 {
      EvaluateFromSpends(c, t, clock, 0, Verdict(Unspecified, t.byProbability, t.filterName, budgets));
    }
  }

  // ---- What the policies decide together ----

  /** A policy with a budget selects the trace and has room for all of it. */
  ghost predicate Grants(c: Config, t: TraceData, clock: Clock, budgets: seq<Budget>, k: nat)
    requires k < |c.accepts| == |budgets|
  {
    var p := c.accepts[k].policy;
    0 <= p.limit && Selects(p, t.batches) && FitsBudget(p, budgets[k], clock(k), t.spanCount)
  }

  /** A policy without a budget of its own selects the trace. */
  ghost predicate Offers(c: Config, t: TraceData, k: nat)
    requires k < |c.accepts|
  {
    c.accepts[k].policy.limit < 0 && Selects(c.accepts[k].policy, t.batches)
  }

  /** The first policy from i on to grant the trace. */
  ghost predicate FirstGrant(c: Config, t: TraceData, clock: Clock, budgets: seq<Budget>, i: nat, k: nat)
    requires |c.accepts| == |budgets|
  {
    && i <= k < |c.accepts| && Grants(c, t, clock, budgets, k)
    && forall j :: i <= j < k ==> !Grants(c, t, clock, budgets, j)
  }

  ghost predicate NoGrant(c: Config, t: TraceData, clock: Clock, budgets: seq<Budget>, i: nat)
    requires |c.accepts| == |budgets|
  {
    forall k :: i <= k < |c.accepts| ==> !Grants(c, t, clock, budgets, k)
  }

  /** No policy from i up to `end` offers a second chance. */
  ghost predicate NoOffer(c: Config, t: TraceData, i: nat, end: nat) {
    forall k :: i <= k < end && k < |c.accepts| ==> !Offers(c, t, k)
  }

  /** The name left by the policies from i up to `end`: that of the last to offer a second chance, or the one before. */
  ghost predicate Named(c: Config, t: TraceData, i: nat, end: nat, before: string, name: string) {
    if NoOffer(c, t, i, end) then name == before
    else exists k: nat :: i <= k < end && k < |c.accepts| && Offers(c, t, k) && name == c.accepts[k].name
                       && NoOffer(c, t, k + 1, end)
  }

  /** Policy k samples the trace: it alone pays, and it leaves its name or the probability mark. */
  ghost predicate Pays(c: Config, t: TraceData, clock: Clock, i: nat, u: Verdict, v: Verdict, k: nat)
    requires k < |c.accepts| == |u.budgets|
  {
    var rule := c.accepts[k];
    && v.decision == Sampled
    && |v.budgets| == |u.budgets| && (forall j :: 0 <= j < |u.budgets| && j != k ==> v.budgets[j] == u.budgets[j])
    && v.budgets[k].second == clock(k)
    && v.budgets[k].spans == Roll(u.budgets[k], clock(k)).spans + t.spanCount
    && v.byProbability == (u.byProbability || rule.probabilistic)
    && (if rule.probabilistic then Named(c, t, i, k, u.filterName, v.filterName) else v.filterName == rule.name)
  }

  /** The verdict v of the policies from i on, started from u. */
  ghost predicate Judged(c: Config, t: TraceData, clock: Clock, i: nat, u: Verdict, v: Verdict)
    requires |c.accepts| == |u.budgets|
  {
    if v.decision == Sampled then
      exists k: nat :: FirstGrant(c, t, clock, u.budgets, i, k) && Pays(c, t, clock, i, u, v, k)
    else
      && NoGrant(c, t, clock, u.budgets, i)
      && v.budgets == u.budgets && v.byProbability == u.byProbability
      && Named(c, t, i, |c.accepts|, u.filterName, v.filterName)
      && v.decision == if !NoOffer(c, t, i, |c.accepts|) then SecondChance
                       else if u.decision == Unspecified then NotSampled else u.decision
  }

  lemma NamedStep(c: Config, t: TraceData, i: nat, end: nat, before: string, middle: string, name: string)
    requires i < end <= |c.accepts| && Named(c, t, i + 1, end, middle, name)
    requires middle == if Offers(c, t, i) then c.accepts[i].name else before
    ensures Named(c, t, i, end, before, name)
  {
    hide Offers;
    if NoOffer(c, t, i + 1, end) {
      if Offers(c, t, i) {
        assert !NoOffer(c, t, i, end);
      }
    } else {
      var k: nat :| i + 1 <= k < end && k < |c.accepts| && Offers(c, t, k) && name == c.accepts[k].name
                 && NoOffer(c, t, k + 1, end);
      assert !NoOffer(c, t, i, end);
    }
  }

  /** Policy i passes the trace on, or offers it a second chance, and the rest decide. */
  lemma JudgedStep(c: Config, t: TraceData, clock: Clock, i: nat, u: Verdict, m: Verdict, v: Verdict)
    requires i < |c.accepts| == |u.budgets| && m.budgets == u.budgets && m.byProbability == u.byProbability
    requires !Grants(c, t, clock, u.budgets, i) && u.decision != Sampled
    requires Offers(c, t, i) ==> m.decision == SecondChance && m.filterName == c.accepts[i].name
    requires !Offers(c, t, i) ==>
      m.filterName == u.filterName && m.decision == if u.decision == Unspecified then NotSampled else u.decision
    requires Judged(c, t, clock, i + 1, m, v)
    ensures Judged(c, t, clock, i, u, v)
  {
    hide Grants, Offers, Named;
    if v.decision == Sampled {
      var k: nat :| FirstGrant(c, t, clock, m.budgets, i + 1, k) && Pays(c, t, clock, i + 1, m, v, k);
      if c.accepts[k].probabilistic {
        NamedStep(c, t, i, k, u.filterName, m.filterName, v.filterName);
      }
      assert FirstGrant(c, t, clock, u.budgets, i, k) && Pays(c, t, clock, i, u, v, k);
    } else {
      NamedStep(c, t, i, |c.accepts|, u.filterName, m.filterName, v.filterName);
    }
  }

  lemma JudgedFirst(c: Config, t: TraceData, clock: Clock, i: nat, u: Verdict, v: Verdict)
    requires i < |c.accepts| == |u.budgets| && Grants(c, t, clock, u.budgets, i) && Pays(c, t, clock, i, u, v, i)
    ensures Judged(c, t, clock, i, u, v)
  {
    assert FirstGrant(c, t, clock, u.budgets, i, i);
  }

  lemma JudgedByNone(c: Config, t: TraceData, clock: Clock, v: Verdict)
    requires |c.accepts| == |v.budgets| && (v.decision == NotSampled || v.decision == SecondChance)
    ensures Judged(c, t, clock, |c.accepts|, v, v)
  {}

  lemma {:induction false} EvaluateFromMeaning(c: Config, t: TraceData, clock: Clock, i: nat, v: Verdict)
    requires i <= |c.accepts| && BudgetsOk(c, v.budgets) && 0 <= t.spanCount
    requires v.decision == Unspecified ==> i < |c.accepts|
    requires v.decision == Unspecified || v.decision == NotSampled || v.decision == SecondChance
    ensures |v.budgets| == |c.accepts| && Judged(c, t, clock, i, v, EvaluateFrom(c, t, clock, i, v))
    decreases |c.accepts| - i
  {
    hide Judged, Selects, Charge, ShouldConsider;
    if i == |c.accepts| {
      JudgedByNone(c, t, clock, v);
    } else {
      var rule := c.accepts[i];
      var p, b := rule.policy, v.budgets[i];
      var selected := Selects(p, t.batches);
      var r := EvaluateFrom(c, t, clock, i, v);
      if p.limit < 0 {
        NegativeLimitOffersSecondChance(p, b, clock(i), t.spanCount, selected);
      } else {
        EarlyCheckExact(p, b, clock(i), t.spanCount, selected);
      }
      var (b', d) := Evaluated(p, b, clock(i), t.spanCount, selected);
      if d == Sampled {
        JudgedFirst(c, t, clock, i, v, r);
      } else {
        assert v.budgets[i := b'] == v.budgets;
        var m := if d == SecondChance then v.(decision := SecondChance, filterName := rule.name)
                 else if v.decision == Unspecified then v.(decision := NotSampled) else v;
        EvaluateFromMeaning(c, t, clock, i + 1, m);
        JudgedStep(c, t, clock, i, v, m, r);
      }
    }
  }

  /**
   What the policies decide together, with budgets that are not overdrawn: a trace is sampled iff some policy with a
   budget selects it and has room for it, and the first such policy alone pays; it gets a second chance iff none
   does but some policy without a budget selects it, the last of these giving the name; nothing is paid otherwise.
   */
  lemma ProvisionalMeaning(c: Config, t: TraceData, clock: Clock, budgets: seq<Budget>)
    requires BudgetsOk(c, budgets) && 0 <= t.spanCount
    ensures |budgets| == |c.accepts|
    ensures 0 < |c.accepts| ==>
      var v := Verdict(Unspecified, t.byProbability, t.filterName, budgets);
      Judged(c, t, clock, 0, v, Provisional(c, t, clock, budgets))
    ensures |c.accepts| == 0 ==> Provisional(c, t, clock, budgets).decision == Sampled
  {
    hide Judged;
    if 0 < |c.accepts| {
      EvaluateFromMeaning(c, t, clock, 0, Verdict(Unspecified, t.byProbability, t.filterName, budgets));
    }
  }

  // ---- Leaving out the second chances ----

  /** The provisional decision of the entry, when its turn comes, is second chance. */
  ghost predicate GetsSecondChance(c: Config, p: Pass, e: Entry)
    requires |p.s.budgets| == |c.accepts|
  {
    && e.id in p.s.traces
    && !ShouldBeDropped(c, p.s.traces[e.id])
    && Provisional(c, p.s.traces[e.id], e.clock, p.s.budgets).decision == SecondChance
  }

  /** The batch without the entries that are provisionally given a second chance. */
  ghost function Firsts(c: Config, p: Pass, sec: int, entries: seq<Entry>): seq<Entry>
    requires |p.s.budgets| == |c.accepts|
  {
    if |entries| == 0 then []
    else
      var init, e := entries[..|entries| - 1], entries[|entries| - 1];
      if GetsSecondChance(c, FirstLoop(c, p, sec, init), e) then Firsts(c, p, sec, init)
      else Firsts(c, p, sec, init) + [e]
  }

  predicate DistinctIds(entries: seq<Entry>) {
    forall i, j :: 0 <= i < j < |entries| ==> entries[i].id != entries[j].id
  }

  /** The first loop on the whole batch (p) and on its firsts (q), started from the same state s. */
  ghost predicate Similar(s: State, p: Pass, q: Pass, all: set<TraceId>, firsts: set<TraceId>) {
    && q.s.budgets == p.s.budgets && q.s.decisionLimiter == p.s.decisionLimiter
    && p.s.traces.Keys == s.traces.Keys && q.s.traces.Keys == s.traces.Keys
    && (forall x :: x in s.traces ==>
          && (x !in all ==> p.s.traces[x] == s.traces[x] && q.s.traces[x] == s.traces[x])
          && (x in firsts ==> p.s.traces[x] == q.s.traces[x] && p.s.traces[x].finalDecision != SecondChance))
    && firsts <= all
    && q.s.history == p.s.history == s.history
  }

  lemma {:induction false} NotYet(entries: seq<Entry>, k: nat)
    requires DistinctIds(entries) && k < |entries|
    ensures entries[k].id !in Ids(entries[..k])
  {
    IdsPrefix(entries, k, k);
  }

  lemma {:induction false} IdsPrefix(entries: seq<Entry>, n: nat, k: nat)
    requires DistinctIds(entries) && n <= k < |entries|
    ensures entries[k].id !in Ids(entries[..n])
  {
    if n > 0 {
      IdsPrefix(entries, n - 1, k);
      assert entries[..n][..n - 1] == entries[..n - 1];
    }
  }

  /** Deciding looks at nothing but the trace, the budgets and the limiter. */
  lemma SameDecision(c: Config, p: Pass, q: Pass, sec: int, e: Entry)
    requires |p.s.budgets| == |c.accepts| && e.id in p.s.traces && e.id in q.s.traces
    requires q.s.budgets == p.s.budgets && q.s.decisionLimiter == p.s.decisionLimiter
    requires q.s.traces[e.id] == p.s.traces[e.id]
    ensures
      var p', q' := DecideOne(c, p, sec, e).s, DecideOne(c, q, sec, e).s;
      && q'.budgets == p'.budgets && q'.decisionLimiter == p'.decisionLimiter
      && e.id in p'.traces && e.id in q'.traces && q'.traces[e.id] == p'.traces[e.id]
  {
    hide Provisional, ShouldBeDropped, Limiter.Update, Limiter.Admits;
  }

  /** What deciding on one entry spends, and whether its trace is left for the second pass. */
  lemma DecisionSpends(c: Config, p: Pass, sec: int, e: Entry)
    requires BudgetsOk(c, p.s.budgets) && |p.s.budgets| == |c.accepts|
    requires e.id in p.s.traces && 0 <= p.s.traces[e.id].spanCount
    ensures
      var p' := DecideOne(c, p, sec, e).s;
      && BudgetsOk(c, p'.budgets) && e.id in p'.traces
      && (GetsSecondChance(c, p, e) ==> p'.budgets == p.s.budgets && p'.decisionLimiter == p.s.decisionLimiter)
      && (!GetsSecondChance(c, p, e) ==> p'.traces[e.id].finalDecision != SecondChance)
  {
    hide Provisional, ShouldBeDropped, Limiter.Update, Limiter.Admits, BudgetsOk;
    var t := p.s.traces[e.id];
    ProvisionalSpends(c, t, e.clock, p.s.budgets);
    ProvisionalDecides(c, t, e.clock, p.s.budgets);
  }

  /** At most the trace of one id has changed. */
  ghost predicate OnlyAt(s: State, r: State, id: TraceId) {
    && r.traces.Keys == s.traces.Keys && r.history == s.history
    && forall x :: x in r.traces && x != id ==> r.traces[x] == s.traces[x]
  }

  lemma SimilarSecond(s: State, p: Pass, q: Pass, p': Pass, id: TraceId, all: set<TraceId>, firsts: set<TraceId>)
    requires Similar(s, p, q, all, firsts) && id !in all && OnlyAt(p.s, p'.s, id)
    requires p'.s.budgets == p.s.budgets && p'.s.decisionLimiter == p.s.decisionLimiter
    ensures Similar(s, p', q, all + {id}, firsts)
  {}

  lemma SimilarBoth(s: State, p: Pass, q: Pass, p': Pass, q': Pass, id: TraceId,
                    all: set<TraceId>, firsts: set<TraceId>)
    requires Similar(s, p, q, all, firsts) && id !in all && OnlyAt(p.s, p'.s, id) && OnlyAt(q.s, q'.s, id)
    requires q'.s.budgets == p'.s.budgets && q'.s.decisionLimiter == p'.s.decisionLimiter
    requires id in s.traces ==>
      && id in p'.s.traces && id in q'.s.traces && q'.s.traces[id] == p'.s.traces[id]
      && p'.s.traces[id].finalDecision != SecondChance
    ensures Similar(s, p', q', all + {id}, firsts + {id})
  {}

  lemma StepSimilar(c: Config, s: State, p: Pass, q: Pass, sec: int, e: Entry, all: set<TraceId>, firsts: set<TraceId>)
    requires Similar(s, p, q, all, firsts) && e.id !in all
    requires BudgetsOk(c, p.s.budgets) && |p.s.budgets| == |c.accepts|
    requires forall x :: x in s.traces ==> 0 <= s.traces[x].spanCount
    ensures
      var p' := DecideOne(c, p, sec, e);
      && BudgetsOk(c, p'.s.budgets)
      && if GetsSecondChance(c, p, e) then Similar(s, p', q, all + {e.id}, firsts)
         else Similar(s, p', DecideOne(c, q, sec, e), all + {e.id}, firsts + {e.id})
  {
    hide DecideOne, BudgetsOk, GetsSecondChance;
    DecideOneFrame(c, p, sec, e);
    DecideOneFrame(c, q, sec, e);
    var p', q' := DecideOne(c, p, sec, e), DecideOne(c, q, sec, e);
    if e.id in s.traces {
      DecisionSpends(c, p, sec, e);
      SameDecision(c, p, q, sec, e);
    } else {
      DecideNothing(c, p, sec, e);
      DecideNothing(c, q, sec, e);
    }
    if GetsSecondChance(c, p, e) {
      SimilarSecond(s, p, q, p', e.id, all, firsts);
    } else {
      SimilarBoth(s, p, q, p', q', e.id, all, firsts);
    }
  }

  lemma DecideNothing(c: Config, p: Pass, sec: int, e: Entry)
    requires |p.s.budgets| == |c.accepts| && e.id !in p.s.traces
    ensures DecideOne(c, p, sec, e) == p
  {}

  lemma BudgetsCount(c: Config, budgets: seq<Budget>)
    requires BudgetsOk(c, budgets)
    ensures |budgets| == |c.accepts|
  {}

  lemma {:induction false} LoopSimilar(c: Config, s: State, sec: int, entries: seq<Entry>)
    requires BudgetsOk(c, s.budgets) && DistinctIds(entries)
    requires forall x :: x in s.traces ==> 0 <= s.traces[x].spanCount
    ensures
      var firsts := Firsts(c, Pass(s, 0, 0), sec, entries);
      var p, q := FirstLoop(c, Pass(s, 0, 0), sec, entries), FirstLoop(c, Pass(s, 0, 0), sec, firsts);
      BudgetsOk(c, p.s.budgets) && Similar(s, p, q, Ids(entries), Ids(firsts))
  {
    hide DecideOne, GetsSecondChance, BudgetOk;
    if |entries| > 0 {
      var n := |entries| - 1;
      var init, e := entries[..n], entries[n];
      LoopSimilar(c, s, sec, init);
      NotYet(entries, n);
      var f := Firsts(c, Pass(s, 0, 0), sec, init);
      var p, q := FirstLoop(c, Pass(s, 0, 0), sec, init), FirstLoop(c, Pass(s, 0, 0), sec, f);
      assert |p.s.budgets| == |c.accepts| by { BudgetsCount(c, p.s.budgets); }
      StepSimilar(c, s, p, q, sec, e, Ids(init), Ids(f));
      assert (f + [e])[..|f|] == f;
    }
  }

  lemma SettleOther(c: Config, p: Pass, sec: int, id: TraceId, x: TraceId)
    requires x != id
    ensures
      var r := SettleOne(c, p, sec, id).s;
      && (x in r.traces <==> x in p.s.traces) && (x in r.traces ==> r.traces[x] == p.s.traces[x])
      && (x in r.history <==> x in p.s.history) && (x in r.history ==> r.history[x] == p.s.history[x])
  {
    hide Cleanup, Limiter.Update, Limiter.Admits;
  }

  /** The second loop records a decision made in the first loop as it is. */
  lemma {:induction false} SecondLoopRecords(c: Config, p: Pass, sec: int, entries: seq<Entry>, x: TraceId)
    requires x in p.s.traces && p.s.traces[x].finalDecision != SecondChance
    ensures
      var r := SecondLoop(c, p, sec, entries).s;
      var t := p.s.traces[x];
      if x in Ids(entries) then
        x !in r.traces && x in r.history && r.history[x] == HistoryInfo(t.finalDecision, t.filterName, t.byProbability)
      else x in r.traces && r.traces[x] == t
  {
    hide Cleanup, Limiter.Update, Limiter.Admits;
    if |entries| > 0 {
      var init, id := entries[..|entries| - 1], entries[|entries| - 1].id;
      SecondLoopRecords(c, p, sec, init, x);
      if id != x {
        SettleOther(c, SecondLoop(c, p, sec, init), sec, id, x);
      }
    }
  }

  /** What the history holds for a trace after the batch: its decision, filter name and probability mark. */
  ghost function Recorded(c: Config, s: State, sec: int, entries: seq<Entry>, x: TraceId): Option<HistoryInfo>
    requires |s.budgets| == |c.accepts|
  {
    var h := Decide(c, s, sec, entries).history;
    if x in h then Some(h[x]) else None
  }

  /**
   Second chance traces never displace others: in a batch of distinct ids, leaving out every trace that is
   provisionally given a second chance changes no other trace's decision, filter name or probability mark.
   */
  lemma SecondChanceNeverDisplaces(c: Config, s: State, sec: int, entries: seq<Entry>, x: TraceId)
    requires BudgetsOk(c, s.budgets) && DistinctIds(entries)
    requires forall y :: y in s.traces ==> 0 <= s.traces[y].spanCount
    requires x in s.traces && x in Ids(Firsts(c, Pass(s, 0, 0), sec, entries))
    ensures Recorded(c, s, sec, entries, x).Some?
    ensures Recorded(c, s, sec, Firsts(c, Pass(s, 0, 0), sec, entries), x) == Recorded(c, s, sec, entries, x)
  {
    hide FirstLoop, SecondLoop, Firsts, BudgetOk;
    var firsts := Firsts(c, Pass(s, 0, 0), sec, entries);
    LoopSimilar(c, s, sec, entries);
    SecondLoopRecords(c, FirstLoop(c, Pass(s, 0, 0), sec, entries), sec, entries, x);
    SecondLoopRecords(c, FirstLoop(c, Pass(s, 0, 0), sec, firsts), sec, firsts, x);
  }

  // ---- Reachable states meet the conditions ----

  /** Where no trace holds more spans than an int32 can count, every counter is exact. */
  lemma CountsExact(u: Setup, events: seq<Event>)
    requires ValidSetup(u) && ValidEvents(events) && HeldFit(Reached(u, events), 0)
    ensures
      var r := Reached(u, events);
      forall x :: x in r.traces ==> r.traces[x].spanCount == |Locate(r.traces[x].batches)| > 0
  {
    hide Reached, IdBatcher.Inv, IdBatcher.Inside, Locate;
    ReachedInv(u, events);
  }

  lemma {:induction false} FirstLoopBudgets(c: Config, p: Pass, sec: int, entries: seq<Entry>)
    requires BudgetsOk(c, p.s.budgets) && forall x :: x in p.s.traces ==> 0 <= p.s.traces[x].spanCount
    ensures BudgetsOk(c, FirstLoop(c, p, sec, entries).s.budgets)
  {
    hide Provisional, ShouldBeDropped, BudgetOk, Limiter.Update, Limiter.Admits;
    if |entries| > 0 {
      var init, e := entries[..|entries| - 1], entries[|entries| - 1];
      FirstLoopBudgets(c, p, sec, init);
      FirstLoopFrames(c, p, sec, init);
      var m := FirstLoop(c, p, sec, init);
      if e.id in m.s.traces {
        ProvisionalSpends(c, m.s.traces[e.id], e.clock, m.s.budgets);
      }
    }
  }

  lemma TickBudgets(c: Config, s: State, sec: int, clocks: nat -> Clock)
    requires BudgetsOk(c, s.budgets) && Inv(c, s) && forall x :: x in s.traces ==> 0 <= s.traces[x].spanCount
    ensures BudgetsOk(c, Tick(c, s, sec, clocks).budgets)
  {
    hide FirstLoop, SecondLoop, Entries, IdBatcher.TakeFirst, BudgetOk, IdBatcher.Inv, TraceOk;
    var (pipeline, batch, _) := IdBatcher.TakeFirst(s.pipeline);
    var p := Pass(s.(pipeline := pipeline), 0, 0);
    var entries := Entries(batch, clocks);
    FirstLoopBudgets(c, p, sec, entries);
    FirstLoopFrames(c, p, sec, entries);
    SecondLoopFrames(c, FirstLoop(c, p, sec, entries), sec, entries);
  }

  lemma ArriveBudgets(c: Config, s: State, now: int, res: Attributes, id: TraceId, spans: seq<Span>)
    requires 1 <= c.maxNumTraces
    ensures Arrive(c, s, now, res, id, spans).budgets == s.budgets
  {
    hide Enroll, AddId, Wrap32, PrepareBatch;
    if id !in s.traces {
      EnrollFrames(c, Store(s, id, |spans|), id);
    }
  }

  /** Over every run with exact counters whenever a tick comes, no policy budget is ever overdrawn. */
  lemma {:induction false} RunBudgets(u: Setup, events: seq<Event>)
    requires ValidSetup(u) && ValidEvents(events) && FitAtTicks(u, events, 0)
    ensures BudgetsOk(u.config, Reached(u, events).budgets)
  {
    hide Inv, HeldFit, Tick, Arrive, BudgetOk, Init;
    InitBudgets(u);
    if |events| > 0 {
      var init, e := events[..|events| - 1], events[|events| - 1];
      FitPrefix(u, events, 0);
      RunBudgets(u, init);
      ReachedInv(u, init);
      var m := Reached(u, init);
      WiredByInv(u.config, m);
      match e
      case ArriveEvent(now, res, id, spans) => ArriveBudgets(u.config, m, now, res, id, spans);
      case TickEvent(sec, clocks) =>
        CountsExact(u, init);
        TickBudgets(u.config, m, sec, clocks);
      case FillEvent =>
      case ForgetEvent(_) =>
    }
  }

  lemma InitBudgets(u: Setup)
    ensures BudgetsOk(u.config, Init(u).budgets)
  {}

  /** In every reachable state of a run with exact counters, on every batch of distinct ids. */
  lemma SecondChanceInEveryRun(u: Setup, events: seq<Event>, sec: int, entries: seq<Entry>, x: TraceId)
    requires ValidSetup(u) && ValidEvents(events) && DistinctIds(entries)
    requires FitAtTicks(u, events, 0) && HeldFit(Reached(u, events), 0)
    ensures |Reached(u, events).budgets| == |u.config.accepts|
    ensures
      var c, r := u.config, Reached(u, events);
      var firsts := Firsts(c, Pass(r, 0, 0), sec, entries);
      x in r.traces && x in Ids(firsts) ==> Recorded(c, r, sec, firsts, x) == Recorded(c, r, sec, entries, x)
  {
    hide Recorded, Firsts, BudgetOk, Run, Ids, Locate, Inv, Init;
    RunBudgets(u, events);
    CountsExact(u, events);
    var r := Reached(u, events);
    if x in r.traces && x in Ids(Firsts(u.config, Pass(r, 0, 0), sec, entries)) {
      SecondChanceNeverDisplaces(u.config, r, sec, entries, x);
    }
  }
}
