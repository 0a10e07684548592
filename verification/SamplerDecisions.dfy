/**
 What a tick decides, told without its loops: which visits of the batch ask the limiter for how many spans, in which
 order, and what is recorded, forwarded and charged for every trace. An id may stand in a batch more than once.
 */
module SamplerDecisions {
  import opened Base
  import opened Sampling
  import opened RateLimiting
  import IdBatcher
  import opened Sampler
  import opened SamplerInvariants
  import opened SamplerHistory

  // ---- Reject rules ----

  /** Every criterion the rule names is met; the attribute filters by one span, the others by some span or resource. */
  ghost predicate RejectMatches(r: RejectRule, batches: seq<Traces>) {
    var ls, res := Locate(batches), Resources(batches);
    && (r.operation.Some? ==> exists l :: l in ls && r.operation.value(l.span.name))
    && (r.numericAttr.Some? ==>
          || (exists a :: a in res && NumberAccepted(a, r.numericAttr.value))
          || (exists l :: l in ls && NumberAccepted(l.span.attributes, r.numericAttr.value)))
    && (r.stringAttr.Some? ==>
          || (exists a :: a in res && StringAccepted(a, r.stringAttr.value))
          || (exists l :: l in ls && StringAccepted(l.span.attributes, r.stringAttr.value)))
    && (|r.attrs| > 0 ==> exists l :: l in ls && AttrsAccepted(l.resource, l.span.attributes, r.attrs))
  }

  /** Some reject rule matches the trace. */
  ghost predicate Unwanted(c: Config, batches: seq<Traces>) {
    exists i :: 0 <= i < |c.rejects| && RejectMatches(c.rejects[i], batches)
  }

  lemma UnwantedIsDropped(c: Config, t: TraceData)
    ensures ShouldBeDropped(c, t) <==> Unwanted(c, t.batches)
  {
    hide Locate, Resources, NumberAccepted, StringAccepted, AttrsAccepted;
    forall i | 0 <= i < |c.rejects|
      ensures ShouldDrop(c.rejects[i], t.batches) == RejectMatches(c.rejects[i], t.batches)
    {
      RejectMeans(c.rejects[i], t.batches);
    }
  }

  lemma RejectMeans(r: RejectRule, batches: seq<Traces>)
    ensures ShouldDrop(r, batches) == RejectMatches(r, batches)
  {
    hide Locate, Resources, NumberAccepted, StringAccepted, AttrsAccepted, ErrorCount, Lasts;
  }

  // ---- What each visit of the first loop comes to ----

  /** The budgets when the given visits are over. */
  function BudgetsAfter(s: State, vs: seq<Verdict>): seq<Budget> {
    if |vs| == 0 then s.budgets else vs[|vs| - 1].budgets
  }

  /** The marks of a trace when the given visits are over: those of its last visit. */
  function Marks(s: State, es: seq<Entry>, vs: seq<Verdict>, x: TraceId): (bool, string)
    requires |vs| == |es| && x in s.traces
  {
    if |es| == 0 then (s.traces[x].byProbability, s.traces[x].filterName)
    else
      var n := |es| - 1;
      if es[n].id == x then (vs[n].byProbability, vs[n].filterName) else Marks(s, es[..n], vs[..n], x)
  }

  /**
   A visit: nothing for an id that is not buffered; dropped, at no cost, if a reject rule matches; otherwise what the
   policies say, given the budgets and marks so far. The limiter has no part in it.
   */
  ghost function Visit(c: Config, s: State, es: seq<Entry>, vs: seq<Verdict>, e: Entry): (v: Verdict)
    requires |vs| == |es| && |BudgetsAfter(s, vs)| == |c.accepts|
    ensures |v.budgets| == |c.accepts|
  {
    var budgets := BudgetsAfter(s, vs);
    if e.id !in s.traces then Verdict(Unspecified, false, "", budgets)
    else
      var t, m := s.traces[e.id], Marks(s, es, vs, e.id);
      if Unwanted(c, t.batches) then Verdict(Dropped, m.0, m.1, budgets)
      else
        ProvisionalBudgets(c, t.(byProbability := m.0, filterName := m.1), e.clock, budgets);
        Provisional(c, t.(byProbability := m.0, filterName := m.1), e.clock, budgets)
  }

  ghost function Visits(c: Config, s: State, es: seq<Entry>): (vs: seq<Verdict>)
    requires |s.budgets| == |c.accepts|
    ensures |vs| == |es| && |BudgetsAfter(s, vs)| == |c.accepts|
  {
    if |es| == 0 then []
    else
      var init := es[..|es| - 1];
      var vs := Visits(c, s, init);
      vs + [Visit(c, s, init, vs, es[|es| - 1])]
  }

  /** The spans the first loop asks the limiter for: those of the visits that end in Sampled, in batch order. */
  function FirstAsked(s: State, es: seq<Entry>, vs: seq<Verdict>, sec: int): seq<RateLimiting.Request>
    requires |vs| == |es|
  {
    if |es| == 0 then []
    else
      var n := |es| - 1;
      var asked := FirstAsked(s, es[..n], vs[..n], sec);
      if es[n].id in s.traces && vs[n].decision == Sampled then asked + [Request(sec, s.traces[es[n].id].spanCount)]
      else asked
  }

  /** The limiter's answer to the n-th visit. */
  predicate Granted(s: State, es: seq<Entry>, vs: seq<Verdict>, sec: int, n: nat)
    requires |vs| == |es| && n < |es| && es[n].id in s.traces
  {
    Serve(s.decisionLimiter, FirstAsked(s, es[..n], vs[..n], sec)).Admits(sec, s.traces[es[n].id].spanCount)
  }

  /** The decision on a trace after the first loop: that of its last visit, subject to the limiter if it is Sampled. */
  function FirstDecision(s: State, es: seq<Entry>, vs: seq<Verdict>, sec: int, x: TraceId): Decision
    requires |vs| == |es| && x in s.traces
  {
    if |es| == 0 then s.traces[x].finalDecision
    else
      var n := |es| - 1;
      if es[n].id != x then FirstDecision(s, es[..n], vs[..n], sec, x)
      else if vs[n].decision != Sampled then vs[n].decision
      else if Granted(s, es, vs, sec, n) then Sampled
      else NotSampled
  }

  /** The spans of all visits that are not dropped. */
  function Total(s: State, es: seq<Entry>, vs: seq<Verdict>): int
    requires |vs| == |es|
  {
    if |es| == 0 then 0
    else
      var n := |es| - 1;
      Total(s, es[..n], vs[..n])
      + if es[n].id in s.traces && vs[n].decision != Dropped then s.traces[es[n].id].spanCount else 0
  }

  /** The spans of the visits that bear the probability mark and were granted. */
  function Selected(s: State, es: seq<Entry>, vs: seq<Verdict>, sec: int): int
    requires |vs| == |es|
  {
    if |es| == 0 then 0
    else
      var n := |es| - 1;
      Selected(s, es[..n], vs[..n], sec)
      + if es[n].id in s.traces && vs[n].decision == Sampled && vs[n].byProbability && Granted(s, es, vs, sec, n)
        then s.traces[es[n].id].spanCount else 0
  }

  /** The trace when the first loop is over. */
  function Marked(s: State, es: seq<Entry>, vs: seq<Verdict>, sec: int, x: TraceId): TraceData
    requires |vs| == |es| && x in s.traces
  {
    var m := Marks(s, es, vs, x);
    s.traces[x].(finalDecision := FirstDecision(s, es, vs, sec, x), byProbability := m.0, filterName := m.1)
  }

  /** The first loop as told by its visits. */
  ghost predicate FirstTold(s: State, es: seq<Entry>, vs: seq<Verdict>, sec: int, p: Pass)
    requires |vs| == |es|
  {
    && p.s.budgets == BudgetsAfter(s, vs)
    && p.s.decisionLimiter == Serve(s.decisionLimiter, FirstAsked(s, es, vs, sec))
    && p.total == Total(s, es, vs) && p.selected == Selected(s, es, vs, sec)
    && p.s.traces.Keys == s.traces.Keys
    && (forall x :: x in s.traces ==> p.s.traces[x] == Marked(s, es, vs, sec, x))
    && p.s.history == s.history && p.s.log == s.log
  }

  /** The functions above, one visit further. */
  lemma OneMore(s: State, es: seq<Entry>, vs: seq<Verdict>, sec: int, e: Entry, v: Verdict)
    requires |vs| == |es|
    ensures
      var es', vs' := es + [e], vs + [v];
      && FirstAsked(s, es', vs', sec) == FirstAsked(s, es, vs, sec)
           + (if e.id in s.traces && v.decision == Sampled then [Request(sec, s.traces[e.id].spanCount)] else [])
      && Total(s, es', vs') == Total(s, es, vs)
           + (if e.id in s.traces && v.decision != Dropped then s.traces[e.id].spanCount else 0)
      && BudgetsAfter(s, vs') == v.budgets
      && (e.id in s.traces ==>
            && Granted(s, es', vs', sec, |es|)
               == Serve(s.decisionLimiter, FirstAsked(s, es, vs, sec)).Admits(sec, s.traces[e.id].spanCount)
            && Selected(s, es', vs', sec) == Selected(s, es, vs, sec)
                 + (if v.decision == Sampled && v.byProbability && Granted(s, es', vs', sec, |es|)
                    then s.traces[e.id].spanCount else 0)
            && Marks(s, es', vs', e.id) == (v.byProbability, v.filterName)
            && FirstDecision(s, es', vs', sec, e.id)
               == if v.decision != Sampled then v.decision
                  else if Granted(s, es', vs', sec, |es|) then Sampled else NotSampled)
      && (e.id !in s.traces ==> Selected(s, es', vs', sec) == Selected(s, es, vs, sec))
  {
    assert (es + [e])[..|es|] == es && (vs + [v])[..|vs|] == vs;
    assert FirstAsked(s, es, vs, sec) + [] == FirstAsked(s, es, vs, sec);
  }

  lemma OneMoreOther(s: State, es: seq<Entry>, vs: seq<Verdict>, sec: int, e: Entry, v: Verdict, x: TraceId)
    requires |vs| == |es| && x in s.traces && x != e.id
    ensures Marked(s, es + [e], vs + [v], sec, x) == Marked(s, es, vs, sec, x)
  {
    assert (es + [e])[..|es|] == es && (vs + [v])[..|vs|] == vs;
  }

  lemma {:induction false} EvaluationIgnores(c: Config, t: TraceData, d: Decision, clock: Clock, i: nat, v: Verdict)
    requires i <= |c.accepts| && |v.budgets| == |c.accepts|
    ensures EvaluateFrom(c, t.(finalDecision := d), clock, i, v) == EvaluateFrom(c, t, clock, i, v)
    decreases |c.accepts| - i
  {
    hide Selects;
    if i < |c.accepts| {
      var rule := c.accepts[i];
      var (b, _) := Evaluated(rule.policy, v.budgets[i], clock(i), t.spanCount, Selects(rule.policy, t.batches));
      var v1 := v.(budgets := v.budgets[i := b]);
      EvaluationIgnores(c, t, d, clock, i + 1, v1);
      EvaluationIgnores(c, t, d, clock, i + 1, v1.(decision := NotSampled));
      EvaluationIgnores(c, t, d, clock, i + 1, v1.(decision := SecondChance, filterName := rule.name));
    }
  }

  /** The policies do not look at an earlier decision. */
  lemma ProvisionalIgnores(c: Config, t: TraceData, d: Decision, clock: Clock, budgets: seq<Budget>)
    requires |budgets| == |c.accepts|
    ensures Provisional(c, t.(finalDecision := d), clock, budgets) == Provisional(c, t, clock, budgets)
  {
    if |c.accepts| > 0 {
      EvaluationIgnores(c, t, d, clock, 0, Verdict(Unspecified, t.byProbability, t.filterName, budgets));
    }
  }

  /** The verdict on a buffered trace, as the first loop comes to it. */
  lemma VerdictTold(c: Config, s: State, es: seq<Entry>, vs: seq<Verdict>, sec: int, p: Pass, e: Entry)
    requires |vs| == |es| && FirstTold(s, es, vs, sec, p) && |p.s.budgets| == |c.accepts| && e.id in s.traces
    ensures
      var v, t := Visit(c, s, es, vs, e), p.s.traces[e.id];
      DecideOne(c, p, sec, e) ==
        FirstPass(Pass(p.s.(budgets := v.budgets), if v.decision == Dropped then p.total else p.total + t.spanCount,
                       p.selected),
                  sec, e.id, t.(byProbability := v.byProbability, filterName := v.filterName), v.decision)
  {
    hide Unwanted, FirstPass, ShouldBeDropped, Provisional, Serve, FirstAsked, Selected, Total, FirstDecision, Marks;
    var t, m := p.s.traces[e.id], Marks(s, es, vs, e.id);
    var u := s.traces[e.id].(byProbability := m.0, filterName := m.1);
    assert t == u.(finalDecision := t.finalDecision);
    UnwantedIsDropped(c, t);
    ProvisionalIgnores(c, u, t.finalDecision, e.clock, p.s.budgets);
    ProvisionalDecides(c, u, e.clock, p.s.budgets);
    assert p.s.(budgets := p.s.budgets) == p.s;
  }

  lemma VisitTold(c: Config, s: State, es: seq<Entry>, vs: seq<Verdict>, sec: int, p: Pass, e: Entry)
    requires |vs| == |es| && FirstTold(s, es, vs, sec, p) && |p.s.budgets| == |c.accepts|
    ensures FirstTold(s, es + [e], vs + [Visit(c, s, es, vs, e)], sec, DecideOne(c, p, sec, e))
  {
    hide Visit, Serve, FirstAsked, Selected, Total, FirstDecision, Marks, Granted, DecideOne;
    hide Limiter.Update, Limiter.Admits;
    var v := Visit(c, s, es, vs, e);
    var es', vs' := es + [e], vs + [v];
    OneMore(s, es, vs, sec, e, v);
    var q := DecideOne(c, p, sec, e);
    if e.id in s.traces {
      VerdictTold(c, s, es, vs, sec, p, e);
      var n := s.traces[e.id].spanCount;
      ServeSnoc(s.decisionLimiter, FirstAsked(s, es, vs, sec), Request(sec, n), sec);
      assert FirstAsked(s, es, vs, sec) + [] == FirstAsked(s, es, vs, sec);
      forall x | x in s.traces ensures q.s.traces[x] == Marked(s, es', vs', sec, x) {
        if x != e.id {
          OneMoreOther(s, es, vs, sec, e, v, x);
        }
      }
      assert q.s.traces.Keys == s.traces.Keys;
    } else {
      AbsentVisit(c, s, es, vs, e);
      DecideNothing(c, p, sec, e);
      assert FirstAsked(s, es, vs, sec) + [] == FirstAsked(s, es, vs, sec);
      forall x | x in s.traces ensures q.s.traces[x] == Marked(s, es', vs', sec, x) {
        OneMoreOther(s, es, vs, sec, e, v, x);
      }
    }
  }

  lemma AbsentVisit(c: Config, s: State, es: seq<Entry>, vs: seq<Verdict>, e: Entry)
    requires |vs| == |es| && |BudgetsAfter(s, vs)| == |c.accepts| && e.id !in s.traces
    ensures Visit(c, s, es, vs, e).budgets == BudgetsAfter(s, vs)
  {}

  /** The first loop is what its visits say. */
  lemma {:induction false} FirstLoopTold(c: Config, s: State, sec: int, es: seq<Entry>)
    requires |s.budgets| == |c.accepts|
    ensures FirstTold(s, es, Visits(c, s, es), sec, FirstLoop(c, Pass(s, 0, 0), sec, es))
  {
    hide FirstTold, Visit, DecideOne, BudgetsAfter;
    if |es| == 0 {
      NothingTold(s, sec);
    } else {
      var n := |es| - 1;
      FirstLoopTold(c, s, sec, es[..n]);
      var p, vs := FirstLoop(c, Pass(s, 0, 0), sec, es[..n]), Visits(c, s, es[..n]);
      VisitTold(c, s, es[..n], vs, sec, p, es[n]);
      assert es[..n] + [es[n]] == es;
    }
  }

  lemma NothingTold(s: State, sec: int)
    ensures FirstTold(s, [], [], sec, Pass(s, 0, 0))
  {}

  // ---- The second loop ----

  /** A batch, its visits and the second it is decided for. */
  datatype Ballot = Ballot(s: State, es: seq<Entry>, vs: seq<Verdict>, sec: int) {
    predicate Valid() {
      |vs| == |es|
    }

    function First(x: TraceId): Decision
      requires Valid() && x in s.traces
    {
      FirstDecision(s, es, vs, sec, x)
    }

    /** The spans the second loop asks the limiter for on the given traces: those of the second chances, in order. */
    function SecondAsked(xs: seq<TraceId>): seq<RateLimiting.Request>
      requires Valid() && forall i :: 0 <= i < |xs| ==> xs[i] in s.traces
    {
      if |xs| == 0 then []
      else
        var n := |xs| - 1;
        if First(xs[n]) == SecondChance then SecondAsked(xs[..n]) + [Request(sec, s.traces[xs[n]].spanCount)]
        else SecondAsked(xs[..n])
    }

    /** All that is asked of the limiter when the traces xs have had their second chance. */
    function Asked(xs: seq<TraceId>): seq<RateLimiting.Request>
      requires Valid() && forall i :: 0 <= i < |xs| ==> xs[i] in s.traces
    {
      FirstAsked(s, es, vs, sec) + SecondAsked(xs)
    }

    /** The final decision on x, settled after the traces xs. */
    function Final(xs: seq<TraceId>, x: TraceId): Decision
      requires Valid() && x in s.traces && forall i :: 0 <= i < |xs| ==> xs[i] in s.traces
    {
      if First(x) != SecondChance then First(x)
      else if Serve(s.decisionLimiter, Asked(xs)).Admits(sec, s.traces[x].spanCount) then Sampled
      else NotSampled
    }

    /** What is remembered of x. */
    function Memory(xs: seq<TraceId>, x: TraceId): HistoryInfo
      requires Valid() && x in s.traces && forall i :: 0 <= i < |xs| ==> xs[i] in s.traces
    {
      var m := Marks(s, es, vs, x);
      HistoryInfo(Final(xs, x), m.1, m.0)
    }

    /** What is written on x: the ratio of selected to all spans, or the name of its policy, if there are any. */
    function Label(c: Config, x: TraceId): Tag
      requires Valid() && x in s.traces
    {
      var m := Marks(s, es, vs, x);
      if m.0 then Probabilistic(Selected(s, es, vs, sec), Total(s, es, vs))
      else if |c.accepts| > 0 then Filtered(m.1)
      else Untagged
    }

    /** The log entry for x: all its spans forwarded if it is sampled, all of them given up otherwise. */
    ghost predicate Tells(c: Config, xs: seq<TraceId>, x: TraceId, o: Outcome)
      requires Valid() && x in s.traces && forall i :: 0 <= i < |xs| ==> xs[i] in s.traces
    {
      if Final(xs, x) == Sampled then
        && o.Forwarded? && o.id == x && o.second == sec && o.tag == Label(c, x)
        && LocateTraces(o.traces) == Locate(s.traces[x].batches)
      else
        o == Outcome.Rejected(x, s.traces[x].batches)
    }
  }

  /** The buffered traces of a batch, each once, in the order in which the batch names them first. */
  function Order(s: State, es: seq<Entry>): (xs: seq<TraceId>)
    ensures forall i :: 0 <= i < |xs| ==> xs[i] in s.traces
    ensures forall i, j :: 0 <= i < j < |xs| ==> xs[i] != xs[j]
  {
    if |es| == 0 then []
    else
      var xs, x := Order(s, es[..|es| - 1]), es[|es| - 1].id;
      if x in s.traces && x !in xs then xs + [x] else xs
  }

  /** The second loop when it has settled the traces xs. */
  ghost predicate SecondTold(c: Config, b: Ballot, xs: seq<TraceId>, p: Pass, q: Pass)
    requires b.Valid() && forall i :: 0 <= i < |xs| ==> xs[i] in b.s.traces
  {
    && q.total == p.total && q.selected == p.selected && q.s.budgets == p.s.budgets
    && q.s.decisionLimiter == Serve(b.s.decisionLimiter, b.Asked(xs))
    && (forall x :: x in q.s.traces <==> x in b.s.traces && x !in xs)
    && (forall x :: x in q.s.traces ==> x in p.s.traces && q.s.traces[x] == p.s.traces[x])
    && Remembered(b, xs, q.s.history)
    && Logged(c, b, xs, q.s.log)
  }

  ghost predicate Remembered(b: Ballot, xs: seq<TraceId>, h: map<TraceId, HistoryInfo>)
    requires b.Valid() && forall i :: 0 <= i < |xs| ==> xs[i] in b.s.traces
  {
    && (forall i :: 0 <= i < |xs| ==> xs[i] in h && h[xs[i]] == b.Memory(xs[..i], xs[i]))
    && (forall x :: x !in xs ==> (x in h <==> x in b.s.history) && (x in h ==> h[x] == b.s.history[x]))
  }

  /** The log has one new entry for each of the traces. */
  ghost predicate Logged(c: Config, b: Ballot, xs: seq<TraceId>, log: seq<Outcome>)
    requires b.Valid() && forall i :: 0 <= i < |xs| ==> xs[i] in b.s.traces
  {
    && |log| == |b.s.log| + |xs| && log[..|b.s.log|] == b.s.log
    && forall i :: 0 <= i < |xs| ==> b.Tells(c, xs[..i], xs[i], log[|b.s.log| + i])
  }

  lemma RememberedNext(b: Ballot, xs: seq<TraceId>, h: map<TraceId, HistoryInfo>, x: TraceId)
    requires b.Valid() && (forall i :: 0 <= i < |xs| ==> xs[i] in b.s.traces) && x in b.s.traces && x !in xs
    requires Remembered(b, xs, h)
    ensures Remembered(b, xs + [x], h[x := b.Memory(xs, x)])
  {
    hide Ballot.Memory;
    var all, g := xs + [x], h[x := b.Memory(xs, x)];
    forall i | 0 <= i < |all| ensures all[i] in g && g[all[i]] == b.Memory(all[..i], all[i]) {
      if i < |xs| {
        assert all[..i] == xs[..i] && all[i] == xs[i] && xs[i] in xs;
      } else {
        assert all[..i] == xs;
      }
    }
  }

  lemma LoggedNext(c: Config, b: Ballot, xs: seq<TraceId>, log: seq<Outcome>, x: TraceId, o: Outcome)
    requires b.Valid() && (forall i :: 0 <= i < |xs| ==> xs[i] in b.s.traces) && x in b.s.traces
    requires Logged(c, b, xs, log) && b.Tells(c, xs, x, o)
    ensures Logged(c, b, xs + [x], log + [o])
  {
    hide Ballot.Tells;
    var all, more := xs + [x], log + [o];
    forall i | 0 <= i < |all| ensures b.Tells(c, all[..i], all[i], more[|b.s.log| + i]) {
      if i < |xs| {
        assert all[..i] == xs[..i];
      } else {
        assert all[..i] == xs;
      }
    }
  }

  lemma AskedNext(b: Ballot, xs: seq<TraceId>, x: TraceId)
    requires b.Valid() && (forall i :: 0 <= i < |xs| ==> xs[i] in b.s.traces) && x in b.s.traces
    ensures b.Asked(xs + [x]) == b.Asked(xs)
      + if b.First(x) == SecondChance then [Request(b.sec, b.s.traces[x].spanCount)] else []
  {
    hide FirstDecision, FirstAsked;
    assert (xs + [x])[..|xs|] == xs;
  }

  lemma SettleTold(c: Config, b: Ballot, xs: seq<TraceId>, p: Pass, q: Pass, x: TraceId)
    requires b.Valid() && (forall i :: 0 <= i < |xs| ==> xs[i] in b.s.traces)
    requires FirstTold(b.s, b.es, b.vs, b.sec, p) && SecondTold(c, b, xs, p, q)
    requires x in b.s.traces && x !in xs
    ensures SecondTold(c, b, xs + [x], p, SettleOne(c, q, b.sec, x))
  {
    hide FirstDecision, FirstAsked, Marks, Selected, Total, Serve, Limiter.Update, Limiter.Admits;
    hide Remembered, Logged, Merge, Locate, LocateTraces, Ballot.SecondAsked, Ballot.Asked;
    var t := b.s.traces[x];
    var n, asked := t.spanCount, b.Asked(xs);
    AskedNext(b, xs, x);
    ServeSnoc(b.s.decisionLimiter, asked, Request(b.sec, n), b.sec);
    assert asked + [] == asked;
    MergeKeeps(t.batches);
    RememberedNext(b, xs, q.s.history, x);
    var r := SettleOne(c, q, b.sec, x);
    var u := SecondPass(q.s, b.sec, x).traces[x];
    assert u.finalDecision == b.Final(xs, x) && u.batches == t.batches;
    var o := Cleanup(c, q, b.sec, x, u);
    assert b.Tells(c, xs, x, o);
    LoggedNext(c, b, xs, q.s.log, x, o);
    assert r.s.log == q.s.log + [o];
    assert r.s.history == q.s.history[x := b.Memory(xs, x)];
    assert forall y :: y in xs + [x] <==> y in xs || y == x;
  }

  lemma {:induction false} SecondLoopTold(c: Config, b: Ballot, p: Pass, k: nat)
    requires b.Valid() && FirstTold(b.s, b.es, b.vs, b.sec, p) && k <= |b.es|
    ensures SecondTold(c, b, Order(b.s, b.es[..k]), p, SecondLoop(c, p, b.sec, b.es[..k]))
  {
    hide FirstTold, SecondTold, SettleOne;
    if k == 0 {
      NoneSettled(c, b, p);
    } else {
      var n := k - 1;
      SecondLoopTold(c, b, p, n);
      var xs, x := Order(b.s, b.es[..n]), b.es[n].id;
      assert b.es[..k][..n] == b.es[..n];
      var q := SecondLoop(c, p, b.sec, b.es[..n]);
      if x in b.s.traces && x !in xs {
        SettleTold(c, b, xs, p, q, x);
      } else {
        SettledAlready(c, b, xs, p, q, x);
      }
    }
  }

  lemma NoneSettled(c: Config, b: Ballot, p: Pass)
    requires b.Valid() && FirstTold(b.s, b.es, b.vs, b.sec, p)
    ensures SecondTold(c, b, [], p, p)
  {
    hide FirstDecision, FirstAsked, Marks, Selected, Total;
    assert FirstAsked(b.s, b.es, b.vs, b.sec) + [] == FirstAsked(b.s, b.es, b.vs, b.sec);
  }

  lemma SettledAlready(c: Config, b: Ballot, xs: seq<TraceId>, p: Pass, q: Pass, x: TraceId)
    requires b.Valid() && (forall i :: 0 <= i < |xs| ==> xs[i] in b.s.traces)
    requires SecondTold(c, b, xs, p, q) && (x !in b.s.traces || x in xs)
    ensures SettleOne(c, q, b.sec, x) == q
  {
    hide Remembered, Logged, Serve;
  }

  // ---- The whole tick ----

  /** What became of the state s when the batch es was decided for the second sec. */
  ghost predicate Told(c: Config, s: State, es: seq<Entry>, sec: int, r: State)
    requires |s.budgets| == |c.accepts|
  {
    var b, xs := Ballot(s, es, Visits(c, s, es), sec), Order(s, es);
    && r.budgets == BudgetsAfter(s, b.vs)
    && r.decisionLimiter == Serve(s.decisionLimiter, b.Asked(xs))
    && (forall x :: x in r.traces <==> x in s.traces && x !in xs)
    && (forall x :: x in r.traces ==> r.traces[x] == s.traces[x])
    && Remembered(b, xs, r.history) && Logged(c, b, xs, r.log)
    && r.deleteChan == s.deleteChan && r.pipeline == s.pipeline && r.priorLimiter == s.priorLimiter
    && r.numTracesOnMap == s.numTracesOnMap - |xs|
  }

  lemma {:induction false} OrderHolds(s: State, es: seq<Entry>, x: TraceId)
    ensures x in Order(s, es) <==> x in s.traces && x in SamplerInvariants.Ids(es)
  {
    if |es| > 0 {
      OrderHolds(s, es[..|es| - 1], x);
    }
  }

  lemma {:induction false} OrderCount(m: map<TraceId, TraceData>, n: map<TraceId, TraceData>, xs: seq<TraceId>)
    requires forall i :: 0 <= i < |xs| ==> xs[i] in m
    requires forall i, j :: 0 <= i < j < |xs| ==> xs[i] != xs[j]
    requires forall x :: x in n <==> x in m && x !in xs
    ensures |n| == |m| - |xs|
  {
    if |xs| == 0 {
      assert n.Keys == m.Keys;
    } else {
      var k, x := |xs| - 1, xs[|xs| - 1];
      var mid := m - {x};
      assert forall y :: y in xs <==> y in xs[..k] || y == x;
      OrderCount(mid, n, xs[..k]);
      assert mid.Keys == m.Keys - {x};
    }
  }

  lemma {:induction false} Untouched(s: State, es: seq<Entry>, vs: seq<Verdict>, sec: int, x: TraceId)
    requires |vs| == |es| && x in s.traces && x !in SamplerInvariants.Ids(es)
    ensures Marked(s, es, vs, sec, x) == s.traces[x]
  {
    if |es| > 0 {
      Untouched(s, es[..|es| - 1], vs[..|es| - 1], sec, x);
    }
  }

  /** A batch is decided as its visits and the limiter say. */
  lemma DecideTold(c: Config, s: State, sec: int, es: seq<Entry>)
    requires |s.budgets| == |c.accepts|
    ensures Told(c, s, es, sec, Decide(c, s, sec, es))
  {
    hide Visits, FirstLoop, SecondLoop, Remembered, Logged, Serve, FirstAsked, Ballot.Asked, Marked, Order;
    var b, xs := Ballot(s, es, Visits(c, s, es), sec), Order(s, es);
    FirstLoopTold(c, s, sec, es);
    var p := FirstLoop(c, Pass(s, 0, 0), sec, es);
    SecondLoopTold(c, b, p, |es|);
    assert es[..|es|] == es;
    var r := Decide(c, s, sec, es);
    DecideFrame(c, s, sec, es);
    OrderCount(s.traces, r.traces, xs);
    forall x | x in r.traces ensures r.traces[x] == s.traces[x] {
      OrderHolds(s, es, x);
      Untouched(s, es, b.vs, sec, x);
    }
  }

  lemma TickTold(c: Config, s: State, sec: int, clocks: nat -> Clock)
    requires |s.budgets| == |c.accepts|
    ensures
      var (pipeline, batch, _) := IdBatcher.TakeFirst(s.pipeline);
      Told(c, s.(pipeline := pipeline), Entries(batch, clocks), sec, Tick(c, s, sec, clocks))
  {
    hide Told, Decide, Entries, IdBatcher.TakeFirst;
    var (pipeline, batch, _) := IdBatcher.TakeFirst(s.pipeline);
    DecideTold(c, s.(pipeline := pipeline), sec, Entries(batch, clocks));
  }

  // ---- What that means for one trace ----

  lemma VisitDrops(c: Config, s: State, es: seq<Entry>, vs: seq<Verdict>, e: Entry)
    requires |vs| == |es| && |BudgetsAfter(s, vs)| == |c.accepts| && e.id in s.traces
    ensures Visit(c, s, es, vs, e).decision == Dropped <==> Unwanted(c, s.traces[e.id].batches)
    ensures Unwanted(c, s.traces[e.id].batches) ==> Visit(c, s, es, vs, e).budgets == BudgetsAfter(s, vs)
  {
    hide Unwanted, Provisional;
    var m := Marks(s, es, vs, e.id);
    ProvisionalDecides(c, s.traces[e.id].(byProbability := m.0, filterName := m.1), e.clock, BudgetsAfter(s, vs));
  }

  lemma {:induction false} FirstDrops(c: Config, s: State, es: seq<Entry>, sec: int, x: TraceId)
    requires |s.budgets| == |c.accepts| && x in s.traces && x in SamplerInvariants.Ids(es)
    ensures FirstDecision(s, es, Visits(c, s, es), sec, x) == Dropped <==> Unwanted(c, s.traces[x].batches)
  {
    hide Unwanted, Visit, Serve, FirstAsked;
    var n := |es| - 1;
    var vs := Visits(c, s, es[..n]);
    assert Visits(c, s, es)[..n] == vs;
    if es[n].id == x {
      VisitDrops(c, s, es[..n], vs, es[n]);
    } else {
      FirstDrops(c, s, es[..n], sec, x);
    }
  }

  /** The new entries of the log for x: exactly one, at its place in the order. */
  lemma OneEntry(c: Config, b: Ballot, xs: seq<TraceId>, log: seq<Outcome>, i: nat)
    requires b.Valid() && (forall k :: 0 <= k < |xs| ==> xs[k] in b.s.traces) && i < |xs|
    requires (forall k, j :: 0 <= k < j < |xs| ==> xs[k] != xs[j]) && Logged(c, b, xs, log)
    ensures forall k :: |b.s.log| <= k < |log| ==> (log[k].id == xs[i] <==> k == |b.s.log| + i)
  {
    hide Ballot.Final, Ballot.Label, Locate, LocateTraces;
    forall k | |b.s.log| <= k < |log| ensures log[k].id == xs[i] <==> k == |b.s.log| + i {
      var j := k - |b.s.log|;
      assert b.Tells(c, xs[..j], xs[j], log[|b.s.log| + j]);
    }
  }

  /** What a tick makes of a buffered trace of its batch, settled after the traces `before`. */
  ghost predicate Treated(c: Config, s: State, es: seq<Entry>, sec: int, r: State, before: seq<TraceId>, x: TraceId)
    requires |s.budgets| == |c.accepts| && x in s.traces && forall i :: 0 <= i < |before| ==> before[i] in s.traces
  {
    var b := Ballot(s, es, Visits(c, s, es), sec);
    && x !in r.traces && x in r.history && r.history[x] == b.Memory(before, x)
    && (r.history[x].decision == Dropped <==> Unwanted(c, s.traces[x].batches))
    && |s.log| <= |r.log| && r.log[..|s.log|] == s.log
    && exists k :: |s.log| <= k < |r.log| && b.Tells(c, before, x, r.log[k])
         && forall j :: |s.log| <= j < |r.log| && r.log[j].id == x ==> j == k
  }

  lemma TraceTreated(c: Config, s: State, es: seq<Entry>, sec: int, r: State, i: nat)
    requires |s.budgets| == |c.accepts| && Told(c, s, es, sec, r) && i < |Order(s, es)|
    ensures Treated(c, s, es, sec, r, Order(s, es)[..i], Order(s, es)[i])
  {
    hide Visits, Serve, FirstAsked, Ballot.Asked, Ballot.Tells, Marks, Order, FirstDecision;
    var b, xs := Ballot(s, es, Visits(c, s, es), sec), Order(s, es);
    var x := xs[i];
    assert x in xs;
    OrderHolds(s, es, x);
    FirstDrops(c, s, es, sec, x);
    OneEntry(c, b, xs, r.log, i);
    assert b.Tells(c, xs[..i], x, r.log[|s.log| + i]);
    assert b.Memory(xs[..i], x).decision == Dropped <==> b.First(x) == Dropped;
  }

  // ---- Rejected traces cost nothing ----

  /** The entry is of a buffered trace that some reject rule matches. */
  ghost predicate Refuse(c: Config, s: State, x: TraceId) {
    x in s.traces && Unwanted(c, s.traces[x].batches)
  }

  /** The batch without the rejected traces. */
  ghost function Kept(c: Config, s: State, es: seq<Entry>): seq<Entry> {
    if |es| == 0 then []
    else
      var kept, e := Kept(c, s, es[..|es| - 1]), es[|es| - 1];
      if Refuse(c, s, e.id) then kept else kept + [e]
  }

  ghost function KeptIds(c: Config, s: State, xs: seq<TraceId>): (ys: seq<TraceId>)
    ensures forall y :: y in ys ==> y in xs
  {
    if |xs| == 0 then []
    else
      var ys, x := KeptIds(c, s, xs[..|xs| - 1]), xs[|xs| - 1];
      if Refuse(c, s, x) then ys else ys + [x]
  }

  /** Two batches that come to the same for all traces but the rejected ones. */
  ghost predicate SameAccount(c: Config, s: State, sec: int, es: seq<Entry>, vs: seq<Verdict>,
                              es': seq<Entry>, vs': seq<Verdict>)
    requires |vs| == |es| && |vs'| == |es'|
  {
    && BudgetsAfter(s, vs') == BudgetsAfter(s, vs)
    && FirstAsked(s, es', vs', sec) == FirstAsked(s, es, vs, sec)
    && Total(s, es', vs') == Total(s, es, vs) && Selected(s, es', vs', sec) == Selected(s, es, vs, sec)
    && forall x :: x in s.traces && !Refuse(c, s, x) ==> Marked(s, es', vs', sec, x) == Marked(s, es, vs, sec, x)
  }

  lemma RefusedVisit(c: Config, s: State, sec: int, es: seq<Entry>, vs: seq<Verdict>,
                     es': seq<Entry>, vs': seq<Verdict>, e: Entry)
    requires |vs| == |es| && |vs'| == |es'| && SameAccount(c, s, sec, es, vs, es', vs')
    requires |BudgetsAfter(s, vs)| == |c.accepts| && Refuse(c, s, e.id)
    ensures SameAccount(c, s, sec, es + [e], vs + [Visit(c, s, es, vs, e)], es', vs')
  {
    hide Visit, FirstAsked, Total, Selected, Marked, Unwanted;
    var v := Visit(c, s, es, vs, e);
    VisitDrops(c, s, es, vs, e);
    OneMore(s, es, vs, sec, e, v);
    assert FirstAsked(s, es, vs, sec) + [] == FirstAsked(s, es, vs, sec);
    forall x | x in s.traces && !Refuse(c, s, x)
      ensures Marked(s, es', vs', sec, x) == Marked(s, es + [e], vs + [v], sec, x)
    {
      OneMoreOther(s, es, vs, sec, e, v, x);
    }
  }

  /** A visit depends on nothing but the budgets and the marks. */
  lemma SameVisit(c: Config, s: State, es: seq<Entry>, vs: seq<Verdict>, es': seq<Entry>, vs': seq<Verdict>, e: Entry)
    requires |vs| == |es| && |vs'| == |es'| && BudgetsAfter(s, vs') == BudgetsAfter(s, vs)
    requires |BudgetsAfter(s, vs)| == |c.accepts|
    requires e.id in s.traces ==> Marks(s, es', vs', e.id) == Marks(s, es, vs, e.id)
    ensures Visit(c, s, es', vs', e) == Visit(c, s, es, vs, e)
  {
    hide Unwanted, Provisional, Marks, BudgetsAfter;
  }

  lemma KeptVisit(c: Config, s: State, sec: int, es: seq<Entry>, vs: seq<Verdict>,
                  es': seq<Entry>, vs': seq<Verdict>, e: Entry)
    requires |vs| == |es| && |vs'| == |es'| && SameAccount(c, s, sec, es, vs, es', vs')
    requires |BudgetsAfter(s, vs)| == |c.accepts| && !Refuse(c, s, e.id)
    ensures Visit(c, s, es', vs', e) == Visit(c, s, es, vs, e)
    ensures
      var v := Visit(c, s, es, vs, e);
      SameAccount(c, s, sec, es + [e], vs + [v], es' + [e], vs' + [v])
  {
    hide Visit, FirstAsked, Total, Selected, Refuse, FirstDecision, Marks, Granted, Serve;
    if e.id in s.traces {
      assert Marked(s, es', vs', sec, e.id) == Marked(s, es, vs, sec, e.id);
    }
    SameVisit(c, s, es, vs, es', vs', e);
    var v := Visit(c, s, es, vs, e);
    OneMore(s, es, vs, sec, e, v);
    OneMore(s, es', vs', sec, e, v);
    forall x | x in s.traces && !Refuse(c, s, x)
      ensures Marked(s, es' + [e], vs' + [v], sec, x) == Marked(s, es + [e], vs + [v], sec, x)
    {
      if x != e.id {
        OneMoreOther(s, es, vs, sec, e, v, x);
        OneMoreOther(s, es', vs', sec, e, v, x);
      }
    }
  }

  lemma {:induction false} KeptAccount(c: Config, s: State, sec: int, es: seq<Entry>)
    requires |s.budgets| == |c.accepts|
    ensures SameAccount(c, s, sec, es, Visits(c, s, es), Kept(c, s, es), Visits(c, s, Kept(c, s, es)))
  {
    hide SameAccount, Visit, Refuse;
    if |es| == 0 {
      NoAccount(c, s, sec);
    } else {
      var n := |es| - 1;
      var init, e := es[..n], es[n];
      KeptAccount(c, s, sec, init);
      var vs, kept := Visits(c, s, init), Kept(c, s, init);
      var vs' := Visits(c, s, kept);
      assert es == init + [e];
      if Refuse(c, s, e.id) {
        RefusedVisit(c, s, sec, init, vs, kept, vs', e);
      } else {
        KeptVisit(c, s, sec, init, vs, kept, vs', e);
        assert (kept + [e])[..|kept|] == kept;
      }
    }
  }

  lemma NoAccount(c: Config, s: State, sec: int)
    ensures SameAccount(c, s, sec, [], [], [], [])
  {}

  lemma {:induction false} KeptIdsHold(c: Config, s: State, xs: seq<TraceId>, x: TraceId)
    ensures x in KeptIds(c, s, xs) <==> x in xs && !Refuse(c, s, x)
  {
    hide Refuse;
    if |xs| > 0 {
      KeptIdsHold(c, s, xs[..|xs| - 1], x);
    }
  }

  lemma {:induction false} KeptOrder(c: Config, s: State, es: seq<Entry>)
    ensures Order(s, Kept(c, s, es)) == KeptIds(c, s, Order(s, es))
  {
    hide Refuse;
    if |es| > 0 {
      var n := |es| - 1;
      KeptOrder(c, s, es[..n]);
      var kept, xs, x := Kept(c, s, es[..n]), Order(s, es[..n]), es[n].id;
      assert (kept + [es[n]])[..|kept|] == kept;
      KeptIdsHold(c, s, xs, x);
      assert (xs + [x])[..|xs|] == xs;
      assert x !in s.traces ==> !Refuse(c, s, x) by { RefuseBuffered(c, s, x); }
    }
  }

  lemma RefuseBuffered(c: Config, s: State, x: TraceId)
    ensures Refuse(c, s, x) ==> x in s.traces
  {}

  lemma {:induction false} KeptSecond(c: Config, b: Ballot, b': Ballot, xs: seq<TraceId>)
    requires b.Valid() && b'.Valid() && b'.s == b.s && b'.sec == b.sec
    requires forall i :: 0 <= i < |xs| ==> xs[i] in b.s.traces
    requires forall i :: 0 <= i < |xs| ==>
      if Refuse(c, b.s, xs[i]) then b.First(xs[i]) == Dropped else b'.First(xs[i]) == b.First(xs[i])
    ensures forall y :: y in KeptIds(c, b.s, xs) ==> y in b.s.traces
    ensures b'.SecondAsked(KeptIds(c, b.s, xs)) == b.SecondAsked(xs)
  {
    hide Refuse, Ballot.First;
    if |xs| > 0 {
      var n := |xs| - 1;
      KeptSecond(c, b, b', xs[..n]);
      var ys := KeptIds(c, b.s, xs[..n]);
      assert (ys + [xs[n]])[..|ys|] == ys;
    }
  }

  lemma {:induction false} KeptPlace(c: Config, s: State, xs: seq<TraceId>, i: nat)
    requires i < |xs| && !Refuse(c, s, xs[i])
    ensures
      var ys, k := KeptIds(c, s, xs), |KeptIds(c, s, xs[..i])|;
      k < |ys| && ys[k] == xs[i] && ys[..k] == KeptIds(c, s, xs[..i])
  {
    hide Refuse;
    var n := |xs| - 1;
    if i < n {
      assert xs[..n][..i] == xs[..i];
      KeptPlace(c, s, xs[..n], i);
    }
  }

  /** The ballots of the batch and of the batch without the rejected traces agree on everything they share. */
  lemma KeptBallot(c: Config, s: State, sec: int, es: seq<Entry>, xs: seq<TraceId>)
    requires |s.budgets| == |c.accepts|
    requires forall i :: 0 <= i < |xs| ==> xs[i] in s.traces && xs[i] in SamplerInvariants.Ids(es)
    ensures forall y :: y in KeptIds(c, s, xs) ==> y in s.traces
    ensures
      var b, b' := Ballot(s, es, Visits(c, s, es), sec), Ballot(s, Kept(c, s, es), Visits(c, s, Kept(c, s, es)), sec);
      && b'.Asked(KeptIds(c, s, xs)) == b.Asked(xs)
      && (forall x :: x in s.traces && !Refuse(c, s, x) ==>
            b'.First(x) == b.First(x) && Marks(s, b'.es, b'.vs, x) == Marks(s, b.es, b.vs, x))
  {
    hide Visits, Kept, FirstAsked, Total, Selected, FirstDecision, Marks, Unwanted;
    var b, b' := Ballot(s, es, Visits(c, s, es), sec), Ballot(s, Kept(c, s, es), Visits(c, s, Kept(c, s, es)), sec);
    KeptAccount(c, s, sec, es);
    forall x | x in s.traces && !Refuse(c, s, x)
      ensures b'.First(x) == b.First(x) && Marks(s, b'.es, b'.vs, x) == Marks(s, b.es, b.vs, x)
    {
      assert Marked(s, b'.es, b'.vs, sec, x) == Marked(s, b.es, b.vs, sec, x);
    }
    forall i | 0 <= i < |xs| && Refuse(c, s, xs[i]) ensures b.First(xs[i]) == Dropped {
      FirstDrops(c, s, es, sec, xs[i]);
    }
    KeptSecond(c, b, b', xs);
  }

  /** What is remembered of a trace that is not rejected. */
  lemma KeptMemory(c: Config, s: State, sec: int, es: seq<Entry>, i: nat,
                   h: map<TraceId, HistoryInfo>, h': map<TraceId, HistoryInfo>)
    requires |s.budgets| == |c.accepts| && i < |Order(s, es)| && !Refuse(c, s, Order(s, es)[i])
    requires Remembered(Ballot(s, es, Visits(c, s, es), sec), Order(s, es), h)
    requires
      var kept := Kept(c, s, es);
      Remembered(Ballot(s, kept, Visits(c, s, kept), sec), Order(s, kept), h')
    ensures var x := Order(s, es)[i]; x in h && x in h' && h'[x] == h[x]
  {
    hide Visits, Kept, FirstDecision, Marks, Refuse, Order, Serve, KeptIds, Ballot.Asked;
    var kept, xs := Kept(c, s, es), Order(s, es);
    var b, b' := Ballot(s, es, Visits(c, s, es), sec), Ballot(s, kept, Visits(c, s, kept), sec);
    KeptOrder(c, s, es);
    forall k | 0 <= k < |xs| ensures xs[k] in SamplerInvariants.Ids(es) {
      OrderHolds(s, es, xs[k]);
      assert xs[k] in xs;
    }
    KeptPlace(c, s, xs, i);
    KeptBallot(c, s, sec, es, xs[..i]);
    assert h[xs[i]] == b.Memory(xs[..i], xs[i]);
    var ys, k := KeptIds(c, s, xs), |KeptIds(c, s, xs[..i])|;
    assert h'[ys[k]] == b'.Memory(ys[..k], ys[k]);
  }

  /**
   Rejected traces cost nothing: deciding the batch without them leaves the same budgets, the same limiter and the
   same record of every other trace, and counts the same spans.
   */
  lemma RejectsCostNothing(c: Config, s: State, sec: int, es: seq<Entry>)
    requires |s.budgets| == |c.accepts|
    ensures
      var r, r' := Decide(c, s, sec, es), Decide(c, s, sec, Kept(c, s, es));
      && r'.budgets == r.budgets && r'.decisionLimiter == r.decisionLimiter
      && (forall x :: x in Order(s, es) && !Refuse(c, s, x) ==>
            x in r.history && x in r'.history && r'.history[x] == r.history[x])
      && Total(s, Kept(c, s, es), Visits(c, s, Kept(c, s, es))) == Total(s, es, Visits(c, s, es))
      && Selected(s, Kept(c, s, es), Visits(c, s, Kept(c, s, es)), sec) == Selected(s, es, Visits(c, s, es), sec)
  {
    hide Visits, Kept, FirstAsked, Total, Selected, FirstDecision, Marks, Refuse, Decide, Order, Serve, Marked, Logged;
    hide KeptIds, Ballot.Asked, Remembered;
    var kept, xs := Kept(c, s, es), Order(s, es);
    var b, b' := Ballot(s, es, Visits(c, s, es), sec), Ballot(s, kept, Visits(c, s, kept), sec);
    var r, r' := Decide(c, s, sec, es), Decide(c, s, sec, kept);
    DecideTold(c, s, sec, es);
    DecideTold(c, s, sec, kept);
    KeptAccount(c, s, sec, es);
    KeptOrder(c, s, es);
    forall i | 0 <= i < |xs| ensures xs[i] in SamplerInvariants.Ids(es) {
      OrderHolds(s, es, xs[i]);
      assert xs[i] in xs;
    }
    KeptBallot(c, s, sec, es, xs);
    forall x | x in xs && !Refuse(c, s, x) ensures x in r.history && x in r'.history && r'.history[x] == r.history[x] {
      var i :| 0 <= i < |xs| && xs[i] == x;
      KeptMemory(c, s, sec, es, i, r.history, r'.history);
    }
  }

  // ---- In every run ----

  lemma {:induction false} BudgetsStay(c: Config, s: State, es: seq<Entry>)
    requires BudgetsOk(c, s.budgets) && |s.budgets| == |c.accepts|
    requires forall x :: x in s.traces ==> 0 <= s.traces[x].spanCount
    ensures BudgetsOk(c, BudgetsAfter(s, Visits(c, s, es)))
  {
    hide Unwanted, Provisional, BudgetsOk, Marks;
    if |es| > 0 {
      var init, e := es[..|es| - 1], es[|es| - 1];
      BudgetsStay(c, s, init);
      var vs := Visits(c, s, init);
      if e.id in s.traces {
        var m := Marks(s, init, vs, e.id);
        ProvisionalSpends(c, s.traces[e.id].(byProbability := m.0, filterName := m.1), e.clock, BudgetsAfter(s, vs));
      }
    }
  }

  /** A buffered trace that is not rejected is judged by the policies, on the budgets and marks of the visits before. */
  lemma VisitJudged(c: Config, s: State, es: seq<Entry>, e: Entry)
    requires BudgetsOk(c, s.budgets) && |s.budgets| == |c.accepts| && 0 < |c.accepts|
    requires forall x :: x in s.traces ==> 0 <= s.traces[x].spanCount
    requires e.id in s.traces && !Unwanted(c, s.traces[e.id].batches)
    ensures
      var vs := Visits(c, s, es);
      var m, budgets := Marks(s, es, vs, e.id), BudgetsAfter(s, vs);
      && Visits(c, s, es + [e]) == vs + [Visit(c, s, es, vs, e)]
      && Judged(c, s.traces[e.id].(byProbability := m.0, filterName := m.1), e.clock, 0,
                Verdict(Unspecified, m.0, m.1, budgets), Visit(c, s, es, vs, e))
  {
    hide Unwanted, Provisional, BudgetsOk, Marks, Judged, BudgetsAfter;
    assert (es + [e])[..|es|] == es;
    var vs := Visits(c, s, es);
    var m := Marks(s, es, vs, e.id);
    BudgetsStay(c, s, es);
    ProvisionalMeaning(c, s.traces[e.id].(byProbability := m.0, filterName := m.1), e.clock, BudgetsAfter(s, vs));
  }

  /** The batch the next tick takes, and the state it is decided in. */
  function Taken(s: State): (State, seq<TraceId>) {
    var (pipeline, batch, _) := IdBatcher.TakeFirst(s.pipeline);
    (s.(pipeline := pipeline), batch)
  }

  /** Every tick of every run does what its visits and the limiter say. */
  lemma TickInRuns(u: Setup, events: seq<Event>, sec: int, clocks: nat -> Clock)
    requires ValidSetup(u) && ValidEvents(events)
    ensures
      var (s, batch) := Taken(Reached(u, events));
      && |s.budgets| == |u.config.accepts|
      && Told(u.config, s, Entries(batch, clocks), sec, Reached(u, events + [TickEvent(sec, clocks)]))
  {
    hide Told, Inv, Tick, IdBatcher.TakeFirst, Entries, Init;
    ReachedInv(u, events);
    var m := Reached(u, events);
    WiredByInv(u.config, m);
    assert (events + [TickEvent(sec, clocks)])[..|events|] == events;
    TickTold(u.config, m, sec, clocks);
  }

  /**
   In every run: a buffered trace of the batch a tick takes is remembered as dropped if and only if some reject rule
   matches it; then none of its spans is forwarded, and it never had a part in what was charged.
   */
  lemma RejectsInRuns(u: Setup, events: seq<Event>, sec: int, clocks: nat -> Clock, x: TraceId)
    requires ValidSetup(u) && ValidEvents(events)
    requires x in Reached(u, events).traces && x in Taken(Reached(u, events)).1
    ensures
      var s, r := Reached(u, events), Reached(u, events + [TickEvent(sec, clocks)]);
      && x in r.history
      && (r.history[x].decision == Dropped <==> Unwanted(u.config, s.traces[x].batches))
      && (r.history[x].decision == Sampled <==>
            exists k :: |s.log| <= k < |r.log| && r.log[k].Forwarded? && r.log[k].id == x)
      && forall k :: |s.log| <= k < |r.log| && r.log[k].Forwarded? && r.log[k].id == x ==>
           LocateTraces(r.log[k].traces) == Locate(s.traces[x].batches)
  {
    hide Told, Reached, IdBatcher.TakeFirst, Unwanted, Entries, Order, Visits, Locate, LocateTraces;
    var (s, batch) := Taken(Reached(u, events));
    var es, r := Entries(batch, clocks), Reached(u, events + [TickEvent(sec, clocks)]);
    TickInRuns(u, events, sec, clocks);
    BatchIds(batch, clocks, x);
    OrderHolds(s, es, x);
    var xs := Order(s, es);
    var i :| 0 <= i < |xs| && xs[i] == x;
    TraceTreated(u.config, s, es, sec, r, i);
  }
}
