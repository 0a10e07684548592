/**
 What the documentation says a policy selects, "at least one span matching all defined criteria", beside what the
 evaluator computes: every criterion is met by some span, and not necessarily all by the same one.
 */
module PolicyMeaning {
  import opened Base
  import opened Sampling

  /** The criteria that are about a single span and its resource. */
  datatype Criterion = ByOperation | ByString | ByNumeric | ByAttrs

  predicate Names(p: Rules, c: Criterion) {
    match c
    case ByOperation => p.operation.Some?
    case ByString => p.stringAttr.Some?
    case ByNumeric => p.numericAttr.Some?
    case ByAttrs => |p.attrs| > 0
  }

  predicate Meets(p: Rules, c: Criterion, l: Located) {
    Names(p, c) &&
    match c
    case ByOperation => p.operation.value(l.span.name)
    case ByString =>
      StringAccepted(l.resource, p.stringAttr.value)
      || StringAccepted(l.span.attributes, p.stringAttr.value)
    case ByNumeric =>
      NumberAccepted(l.resource, p.numericAttr.value)
      || NumberAccepted(l.span.attributes, p.numericAttr.value)
    case ByAttrs => AttrsAccepted(l.resource, l.span.attributes, p.attrs)
  }

  ghost predicate EachBySome(p: Rules, ls: seq<Located>) {
    forall c :: Names(p, c) ==> exists l :: l in ls && Meets(p, c, l)
  }

  ghost predicate MeetsAll(p: Rules, l: Located) {
    forall c :: Names(p, c) ==> Meets(p, c, l)
  }

  ghost predicate AllByOne(p: Rules, ls: seq<Located>) {
    exists l :: l in ls && MeetsAll(p, l)
  }

  /** The bounds on the trace as a whole: its size, its errors and how long it lasts. */
  ghost predicate TraceBounds(p: Rules, ls: seq<Located>, window: seq<Located>) {
    && (p.minNumberOfSpans.Some? ==> |ls| >= p.minNumberOfSpans.value)
    && (p.minDuration.Some? ==> Lasts(window, p.minDuration.value))
    && (p.minNumberOfErrors.Some? ==> |ErrorIndexes(ls)| >= p.minNumberOfErrors.value)
  }

  /**
   What the documentation promises: one span matches all criteria. The duration is "the minimum duration of trace",
   as the comment of the setting and the example in the processor's README have it.
   */
  ghost predicate Documented(p: Rules, batches: seq<Traces>) {
    AllByOne(p, Locate(batches)) && TraceBounds(p, Locate(batches), Locate(batches))
  }

  // ---- Resources and their spans ----

  /** No resource is without spans. */
  ghost predicate Populated(batches: seq<Traces>) {
    forall r :: r in Resources(batches) ==> exists l :: l in Locate(batches) && l.resource == r
  }

  lemma {:induction false} ScopeResource(res: Attributes, scopes: seq<seq<Span>>, l: Located)
    requires l in LocateScopes(res, scopes)
    ensures l.resource == res
  {
    if l in LocateScopes(res, scopes[..|scopes| - 1]) {
      ScopeResource(res, scopes[..|scopes| - 1], l);
    }
  }

  lemma {:induction false} TraceResource(t: Traces, l: Located)
    requires l in LocateTraces(t)
    ensures l.resource in ResourcesOf(t)
  {
    hide LocateScopes;
    var n := |t| - 1;
    if l in LocateTraces(t[..n]) {
      TraceResource(t[..n], l);
      var i :| 0 <= i < n && ResourcesOf(t[..n])[i] == l.resource;
      assert ResourcesOf(t)[i] == l.resource;
    } else {
      ScopeResource(t[n].resource, t[n].scopes, l);
      assert ResourcesOf(t)[n] == l.resource;
    }
  }

  lemma {:induction false} BatchResource(batches: seq<Traces>, l: Located)
    requires l in Locate(batches)
    ensures l.resource in Resources(batches)
  {
    hide LocateTraces, ResourcesOf;
    var n := |batches| - 1;
    if l in Locate(batches[..n]) {
      BatchResource(batches[..n], l);
    } else {
      TraceResource(batches[n], l);
    }
  }

  /** The span stands in some scope of the resource. */
  ghost predicate StandsIn(r: ResourceSpans, l: Located) {
    l.resource == r.resource && exists s :: 0 <= s < |r.scopes| && l.span in r.scopes[s]
  }

  lemma {:induction false} ScopesHold(res: Attributes, scopes: seq<seq<Span>>, l: Located)
    ensures l in LocateScopes(res, scopes) <==>
      l.resource == res && exists s :: 0 <= s < |scopes| && l.span in scopes[s]
  {
    if |scopes| > 0 {
      var n := |scopes| - 1;
      ScopesHold(res, scopes[..n], l);
      SpansHold(res, scopes[n], l);
      if s :| 0 <= s < |scopes| && l.span in scopes[s] {
        assert s < n ==> scopes[..n][s] == scopes[s];
      }
    }
  }

  lemma SpansHold(res: Attributes, spans: seq<Span>, l: Located)
    ensures l in LocateSpans(res, spans) <==> l.resource == res && l.span in spans
  {
    if l.resource == res && l.span in spans {
      var i :| 0 <= i < |spans| && spans[i] == l.span;
      assert LocateSpans(res, spans)[i] == l;
    }
  }

  lemma {:induction false} TracesHold(t: Traces, l: Located)
    ensures l in LocateTraces(t) <==> exists i :: 0 <= i < |t| && StandsIn(t[i], l)
  {
    hide LocateScopes;
    if |t| > 0 {
      var n := |t| - 1;
      TracesHold(t[..n], l);
      ScopesHold(t[n].resource, t[n].scopes, l);
      if i :| 0 <= i < |t| && StandsIn(t[i], l) {
        assert i < n ==> t[..n][i] == t[i];
      }
    }
  }

  /** The spans that are looked at are exactly those in the scopes of the resources of the batches. */
  lemma {:induction false} LocateMeaning(batches: seq<Traces>, l: Located)
    ensures l in Locate(batches) <==>
      exists b, i :: 0 <= b < |batches| && 0 <= i < |batches[b]| && StandsIn(batches[b][i], l)
  {
    hide LocateTraces, StandsIn;
    if |batches| > 0 {
      var n := |batches| - 1;
      LocateMeaning(batches[..n], l);
      TracesHold(batches[n], l);
      if b, i :| 0 <= b < |batches| && 0 <= i < |batches[b]| && StandsIn(batches[b][i], l) {
        assert b < n ==> batches[..n][b] == batches[b];
      }
    }
  }

  /** So are the resources. */
  lemma {:induction false} ResourcesMeaning(batches: seq<Traces>, a: Attributes)
    ensures a in Resources(batches) <==>
      exists b, i :: 0 <= b < |batches| && 0 <= i < |batches[b]| && batches[b][i].resource == a
  {
    if |batches| > 0 {
      var n := |batches| - 1;
      ResourcesMeaning(batches[..n], a);
      var last := ResourcesOf(batches[n]);
      if b, i :| 0 <= b < |batches| && 0 <= i < |batches[b]| && batches[b][i].resource == a {
        if b < n {
          assert batches[..n][b] == batches[b];
        } else {
          assert last[i] == a;
        }
      }
    }
  }

  function CountScopes(scopes: seq<seq<Span>>): nat {
    if |scopes| == 0 then 0 else |scopes[0]| + CountScopes(scopes[1..])
  }

  function CountTraces(t: Traces): nat {
    if |t| == 0 then 0 else CountScopes(t[0].scopes) + CountTraces(t[1..])
  }

  /** The number of spans in the batches. */
  function CountSpans(batches: seq<Traces>): nat {
    if |batches| == 0 then 0 else CountTraces(batches[0]) + CountSpans(batches[1..])
  }

  lemma {:induction false} CountScopesSnoc(scopes: seq<seq<Span>>)
    requires scopes != []
    ensures CountScopes(scopes) == CountScopes(scopes[..|scopes| - 1]) + |scopes[|scopes| - 1]|
  {
    if |scopes| > 1 {
      CountScopesSnoc(scopes[1..]);
      assert scopes[1..][..|scopes| - 2] == scopes[..|scopes| - 1][1..];
    }
  }

  lemma {:induction false} CountTracesSnoc(t: Traces)
    requires t != []
    ensures CountTraces(t) == CountTraces(t[..|t| - 1]) + CountScopes(t[|t| - 1].scopes)
  {
    if |t| > 1 {
      CountTracesSnoc(t[1..]);
      assert t[1..][..|t| - 2] == t[..|t| - 1][1..];
    }
  }

  lemma {:induction false} CountSpansSnoc(batches: seq<Traces>)
    requires batches != []
    ensures CountSpans(batches) == CountSpans(batches[..|batches| - 1]) + CountTraces(batches[|batches| - 1])
  {
    if |batches| > 1 {
      CountSpansSnoc(batches[1..]);
      assert batches[1..][..|batches| - 2] == batches[..|batches| - 1][1..];
    }
  }

  lemma {:induction false} ScopesCounted(res: Attributes, scopes: seq<seq<Span>>)
    ensures |LocateScopes(res, scopes)| == CountScopes(scopes)
  {
    if |scopes| > 0 {
      ScopesCounted(res, scopes[..|scopes| - 1]);
      CountScopesSnoc(scopes);
    }
  }

  lemma {:induction false} TracesCounted(t: Traces)
    ensures |LocateTraces(t)| == CountTraces(t)
  {
    if |t| > 0 {
      TracesCounted(t[..|t| - 1]);
      ScopesCounted(t[|t| - 1].resource, t[|t| - 1].scopes);
      CountTracesSnoc(t);
    }
  }

  /** Each span is looked at once. */
  lemma {:induction false} SpansCounted(batches: seq<Traces>)
    ensures |Locate(batches)| == CountSpans(batches)
  {
    if |batches| > 0 {
      SpansCounted(batches[..|batches| - 1]);
      TracesCounted(batches[|batches| - 1]);
      CountSpansSnoc(batches);
    }
  }

  // ---- The evaluator, criterion by criterion ----

  ghost predicate FoundInResource(p: Rules, c: Criterion, r: Attributes) {
    || (c == ByString && p.stringAttr.Some? && StringAccepted(r, p.stringAttr.value))
    || (c == ByNumeric && p.numericAttr.Some? && NumberAccepted(r, p.numericAttr.value))
  }

  ghost predicate FoundInSpan(p: Rules, c: Criterion, l: Located) {
    match c
    case ByOperation => p.operation.Some? && p.operation.value(l.span.name)
    case ByString => p.stringAttr.Some? && StringAccepted(l.span.attributes, p.stringAttr.value)
    case ByNumeric => p.numericAttr.Some? && NumberAccepted(l.span.attributes, p.numericAttr.value)
    case ByAttrs => |p.attrs| > 0 && AttrsAccepted(l.resource, l.span.attributes, p.attrs)
  }

  ghost predicate Found(p: Rules, c: Criterion, res: seq<Attributes>, ls: seq<Located>) {
    || (exists r :: r in res && FoundInResource(p, c, r))
    || (exists l :: l in ls && FoundInSpan(p, c, l))
  }

  lemma MeaningByCriteria(p: Rules, res: seq<Attributes>, ls: seq<Located>, w: seq<Located>)
    ensures MeaningOver(p, res, ls, w) <==> (forall c :: Names(p, c) ==> Found(p, c, res, ls)) && TraceBounds(p, ls, w)
  {
    hide StringAccepted, NumberAccepted, AttrsAccepted, Lasts, ErrorCount, ErrorIndexes;
    ErrorCountMeaning(ls);
    assert Names(p, ByOperation) ==> Found(p, ByOperation, res, ls) == SomeOperation(ls, p.operation.value);
    assert Names(p, ByString) ==> Found(p, ByString, res, ls) == SomeString(res, ls, p.stringAttr.value);
    assert Names(p, ByNumeric) ==> Found(p, ByNumeric, res, ls) == SomeNumeric(res, ls, p.numericAttr.value);
    assert Names(p, ByAttrs) ==> Found(p, ByAttrs, res, ls) == SomeAttrs(ls, p.attrs);
  }

  lemma FoundIsMet(p: Rules, c: Criterion, batches: seq<Traces>)
    ensures (exists l :: l in Locate(batches) && Meets(p, c, l)) ==> Found(p, c, Resources(batches), Locate(batches))
    ensures Populated(batches) && Found(p, c, Resources(batches), Locate(batches)) ==>
      exists l :: l in Locate(batches) && Meets(p, c, l)
  {
    hide StringAccepted, NumberAccepted, AttrsAccepted, Locate, Resources;
    var res, ls := Resources(batches), Locate(batches);
    if l :| l in ls && Meets(p, c, l) {
      BatchResource(batches, l);
      assert FoundInSpan(p, c, l) || FoundInResource(p, c, l.resource);
    }
    if Populated(batches) && Found(p, c, res, ls) {
      if l :| l in ls && FoundInSpan(p, c, l) {
        assert Meets(p, c, l);
      } else {
        var r :| r in res && FoundInResource(p, c, r);
        var l :| l in ls && l.resource == r;
        assert Meets(p, c, l);
      }
    }
  }

  /** The evaluator selects a trace iff each criterion is met by some span and the bounds hold. */
  lemma MatchesByCriteria(p: Rules, batches: seq<Traces>)
    requires Populated(batches)
    ensures Matches(p, batches) <==>
      EachBySome(p, Locate(batches)) && TraceBounds(p, Locate(batches), Window(Locate(batches)))
  {
    hide Found, Meets, TraceBounds, MeaningOver, Names, Locate, Resources, Populated, Window;
    MeaningByCriteria(p, Resources(batches), Locate(batches), Window(Locate(batches)));
    forall c {
      FoundIsMet(p, c, batches);
    }
  }

  /** A policy selects what meets its rules, or, if it is inverted, what does not. */
  lemma PolicySelects(p: Policy, batches: seq<Traces>)
    requires Populated(batches)
    ensures
      var ls := Locate(batches);
      var met := EachBySome(p.rules, ls) && TraceBounds(p.rules, ls, Window(ls));
      Selects(p, batches) <==> if p.invertMatch then !met else met
  {
    hide EachBySome, TraceBounds, Matches, Locate, Window;
    MatchesByCriteria(p.rules, batches);
  }

  /** A span that meets all criteria is always enough, whatever else the trace holds. */
  lemma OneSpanIsEnough(p: Rules, batches: seq<Traces>)
    requires AllByOne(p, Locate(batches)) && TraceBounds(p, Locate(batches), Window(Locate(batches)))
    ensures Matches(p, batches)
  {
    hide Found, Meets, TraceBounds, MeaningOver, Names, Locate, Resources, Window;
    MeaningByCriteria(p, Resources(batches), Locate(batches), Window(Locate(batches)));
    var l :| l in Locate(batches) && MeetsAll(p, l);
    forall c | Names(p, c) ensures Found(p, c, Resources(batches), Locate(batches)) {
      assert Meets(p, c, l);
      FoundIsMet(p, c, batches);
    }
  }

  // ---- When code and documentation agree ----

  /** One of the named criteria, if there are any, implies all the others. */
  ghost predicate Dominated(p: Rules) {
    || (forall c :: !Names(p, c))
    || exists c :: ImpliesAll(p, c)
  }

  ghost predicate ImpliesAll(p: Rules, c: Criterion) {
    Names(p, c) && forall l :: Meets(p, c, l) ==> MeetsAll(p, l)
  }

  /** Rules that name at most one criterion are of this kind. */
  lemma SingleIsDominated(p: Rules)
    requires forall c, d :: Names(p, c) && Names(p, d) ==> c == d
    ensures Dominated(p)
  {
    hide Names, Meets;
    if c :| Names(p, c) {
      forall l | Meets(p, c, l) ensures MeetsAll(p, l) {
        forall d | Names(p, d) ensures Meets(p, d, l) {
          assert d == c;
        }
      }
      assert ImpliesAll(p, c);
    }
  }

  ghost predicate Timed(batches: seq<Traces>) {
    forall l :: l in Locate(batches) ==> !NoStart(l)
  }

  lemma TimedWindow(batches: seq<Traces>)
    requires Timed(batches)
    ensures Window(Locate(batches)) == Locate(batches)
  {
    hide NoStart;
    WindowIsAll(Locate(batches));
  }

  lemma OneMeetsEach(p: Rules, ls: seq<Located>)
    requires AllByOne(p, ls)
    ensures EachBySome(p, ls)
  {
    hide Names, Meets;
    var l :| l in ls && MeetsAll(p, l);
    forall c | Names(p, c) ensures exists l :: l in ls && Meets(p, c, l) {
      assert Meets(p, c, l);
    }
  }

  lemma DominatedByOne(p: Rules, ls: seq<Located>)
    requires Dominated(p) && ls != [] && EachBySome(p, ls)
    ensures AllByOne(p, ls)
  {
    hide Names, Meets;
    if c :| ImpliesAll(p, c) {
      var l :| l in ls && Meets(p, c, l);
      assert MeetsAll(p, l);
    } else {
      assert ls[0] in ls && MeetsAll(p, ls[0]);
    }
  }

  lemma AgreeWhenDominated(p: Rules, batches: seq<Traces>)
    requires Dominated(p) && Populated(batches) && Locate(batches) != [] && Timed(batches)
    ensures Matches(p, batches) <==> Documented(p, batches)
  {
    hide Dominated, TraceBounds, Matches, Locate, Populated, Timed, Window, EachBySome, AllByOne;
    TimedWindow(batches);
    MatchesByCriteria(p, batches);
    var ls := Locate(batches);
    if AllByOne(p, ls) {
      OneMeetsEach(p, ls);
    } else if EachBySome(p, ls) {
      DominatedByOne(p, ls);
    }
  }

  // ---- A trace on which they disagree ----

  /** The same span as far as the criteria go, made to meet any bound on errors and on a duration of d. */
  function Stretched(l: Located, d: int): Located {
    Located(l.resource, Span(0, l.span.name, l.span.attributes, 1_000, 1_000 * (1 + if d < 1 then 1 else d), true))
  }

  lemma StretchedMeets(p: Rules, c: Criterion, l: Located, d: int)
    ensures Meets(p, c, Stretched(l, d)) == Meets(p, c, l)
  {}

  lemma StretchedTwice(l: Located, d: int)
    ensures Stretched(Stretched(l, d), d) == Stretched(l, d)
  {}

  /** Each span of the list in a batch of its own. */
  function Spread(ls: seq<Located>): seq<Traces> {
    seq(|ls|, i requires 0 <= i < |ls| => [ResourceSpans(ls[i].resource, [[ls[i].span]])])
  }

  lemma {:induction false} SpreadLocates(ls: seq<Located>)
    ensures Locate(Spread(ls)) == ls && |Resources(Spread(ls))| == |ls|
    ensures forall i :: 0 <= i < |ls| ==> Resources(Spread(ls))[i] == ls[i].resource
  {
    hide LocateTraces;
    if |ls| > 0 {
      var n := |ls| - 1;
      SpreadLocates(ls[..n]);
      assert Spread(ls)[..n] == Spread(ls[..n]);
      LocateSingle(ls[n].resource, ls[n].span);
      assert ls == ls[..n] + [ls[n]];
    }
  }

  lemma SpreadPopulated(ls: seq<Located>)
    ensures Populated(Spread(ls))
  {
    SpreadLocates(ls);
    var res := Resources(Spread(ls));
    forall r | r in res ensures exists l :: l in Locate(Spread(ls)) && l.resource == r {
      var i :| 0 <= i < |res| && res[i] == r;
      assert ls[i] in Locate(Spread(ls));
    }
  }

  function Repeat(ls: seq<Located>, n: nat): seq<Located> {
    if n == 0 then [] else Repeat(ls, n - 1) + ls
  }

  lemma {:induction false} RepeatHolds(ls: seq<Located>, n: nat)
    requires ls != []
    ensures |Repeat(ls, n)| >= n
    ensures forall l :: l in Repeat(ls, n) ==> l in ls
    ensures n > 0 ==> forall l :: l in ls ==> l in Repeat(ls, n)
  {
    if n > 0 {
      RepeatHolds(ls, n - 1);
    }
  }

  lemma {:induction false} AllErrors(ls: seq<Located>)
    requires forall l :: l in ls ==> l.span.isError
    ensures |ErrorIndexes(ls)| == |ls|
  {
    ErrorCountMeaning(ls);
    if |ls| > 0 {
      AllErrors(ls[..|ls| - 1]);
      ErrorCountMeaning(ls[..|ls| - 1]);
    }
  }

  /** A list of spans of one trace, each a stretched one. */
  ghost predicate AllStretched(ls: seq<Located>, d: int) {
    forall l :: l in ls ==> l == Stretched(l, d)
  }

  lemma StretchedBounds(p: Rules, ls: seq<Located>, d: int)
    requires ls != [] && AllStretched(ls, d)
    requires p.minDuration.Some? ==> d == p.minDuration.value
    requires p.minNumberOfSpans.Some? ==> |ls| >= p.minNumberOfSpans.value
    requires p.minNumberOfErrors.Some? ==> |ls| >= p.minNumberOfErrors.value
    ensures TraceBounds(p, ls, ls) && forall l :: l in ls ==> !NoStart(l)
  {
    AllErrors(ls);
    var l := ls[0];
    assert l in ls && l == Stretched(l, d);
    assert Micros(l.span.start) == 1 && Micros(l.span.end) == 1 + if d < 1 then 1 else d;
  }

  /** For each named criterion a span that meets it, but not all. */
  ghost predicate Witnesses(p: Rules, ls: seq<Located>) {
    && EachBySome(p, ls)
    && forall l :: l in ls ==> !MeetsAll(p, l)
  }

  lemma WitnessFor(p: Rules, c: Criterion, d: int) returns (ls: seq<Located>)
    requires !Dominated(p)
    ensures Names(p, c) ==> exists l :: l in ls && Meets(p, c, l)
    ensures AllStretched(ls, d) && forall l :: l in ls ==> !MeetsAll(p, l)
  {
    hide Names, Meets, Stretched, MeetsAll;
    ls := [];
    if Names(p, c) {
      assert !ImpliesAll(p, c);
      var l :| Meets(p, c, l) && !MeetsAll(p, l);
      var l' := Stretched(l, d);
      StretchedMeets(p, c, l, d);
      StretchedMisses(p, l, d);
      StretchedTwice(l, d);
      ls := [l'];
      assert l' in ls;
    }
  }

  lemma StretchedMisses(p: Rules, l: Located, d: int)
    requires !MeetsAll(p, l)
    ensures !MeetsAll(p, Stretched(l, d))
  {
    hide Names, Meets, Stretched;
    var e :| Names(p, e) && !Meets(p, e, l);
    StretchedMeets(p, e, l, d);
  }

  lemma WitnessesExist(p: Rules, d: int) returns (ls: seq<Located>)
    requires !Dominated(p)
    ensures Witnesses(p, ls) && AllStretched(ls, d) && ls != []
  {
    hide Names, Meets, Dominated, MeetsAll, Stretched;
    var a := WitnessFor(p, ByOperation, d);
    var b := WitnessFor(p, ByString, d);
    var e := WitnessFor(p, ByNumeric, d);
    var f := WitnessFor(p, ByAttrs, d);
    ls := a + b + e + f;
    forall c | Names(p, c) ensures exists l :: l in ls && Meets(p, c, l) {
      match c
      case ByOperation => var l :| l in a && Meets(p, c, l); assert l in ls;
      case ByString => var l :| l in b && Meets(p, c, l); assert l in ls;
      case ByNumeric => var l :| l in e && Meets(p, c, l); assert l in ls;
      case ByAttrs => var l :| l in f && Meets(p, c, l); assert l in ls;
    }
    assert exists c :: Names(p, c) by { SomeNamed(p); }
  }

  lemma SomeNamed(p: Rules)
    requires !Dominated(p)
    ensures exists c :: Names(p, c)
  {}

  /** Enough copies of the witnesses meet every bound. */
  lemma Disagreement(p: Rules) returns (batches: seq<Traces>)
    requires !Dominated(p)
    ensures Populated(batches) && Locate(batches) != [] && Timed(batches)
    ensures Matches(p, batches) && !Documented(p, batches)
  {
    hide Names, Meets, Dominated, MeetsAll, Stretched, Matches, TraceBounds, Populated, NoStart, Locate;
    var d := if p.minDuration.Some? then p.minDuration.value else 0;
    var spans := if p.minNumberOfSpans.Some? then p.minNumberOfSpans.value else 0;
    var errors := if p.minNumberOfErrors.Some? then p.minNumberOfErrors.value else 0;
    var ws := WitnessesExist(p, d);
    var n: nat := if spans > errors && spans > 1 then spans else if errors > 1 then errors else 1;
    var ls := Repeat(ws, n);
    RepeatHolds(ws, n);
    StretchedBounds(p, ls, d);
    batches := Spread(ls);
    SpreadLocates(ls);
    SpreadPopulated(ls);
    TimedWindow(batches);
    MatchesByCriteria(p, batches);
  }

  /**
   Exactly when code and documentation agree: on all timed traces whose resources have spans, the evaluator selects
   what the documentation says if and only if one of the criteria named by the rules implies all the others.
   */
  lemma DocumentedIff(p: Rules)
    ensures Dominated(p) <==>
      forall batches :: Populated(batches) && Locate(batches) != [] && Timed(batches) ==>
        (Matches(p, batches) <==> Documented(p, batches))
  {
    hide *;
    if Dominated(p) {
      forall batches | Populated(batches) && Locate(batches) != [] && Timed(batches)
        ensures Matches(p, batches) <==> Documented(p, batches)
      {
        AgreeWhenDominated(p, batches);
      }
    } else {
      var batches := Disagreement(p);
    }
  }

  // ---- The duration of a single span ----

  /** Another sentence of the documentation: the minimum duration "selects the span". */
  ghost predicate SpanMatches(p: Rules, l: Located) {
    MeetsAll(p, l) && (p.minDuration.Some? ==> Lasts([l], p.minDuration.value))
  }

  /** One span matches all criteria and lasts long enough by itself. */
  ghost predicate DocumentedBySpan(p: Rules, batches: seq<Traces>) {
    && (exists l :: l in Locate(batches) && SpanMatches(p, l))
    && TraceBounds(p.(minDuration := None), Locate(batches), Locate(batches))
  }

  /** Some named criterion is met by no span at all. */
  ghost predicate Unmeetable(p: Rules) {
    exists c :: Names(p, c) && forall l :: !Meets(p, c, l)
  }

  /** Without a minimum duration the two sentences say the same. */
  lemma SameSentences(p: Rules, batches: seq<Traces>)
    requires p.minDuration.None?
    ensures DocumentedBySpan(p, batches) == Documented(p, batches)
  {
    hide MeetsAll, Locate, ErrorIndexes;
    assert p.(minDuration := None) == p;
  }

  /** A criterion that nothing meets lets nothing pass, in the code and by either sentence. */
  lemma NothingPasses(p: Rules, batches: seq<Traces>)
    requires Unmeetable(p) && Populated(batches)
    ensures !Matches(p, batches) && !DocumentedBySpan(p, batches)
  {
    hide Names, Meets, TraceBounds, Matches, Locate, Populated, Lasts;
    MatchesByCriteria(p, batches);
    var c :| Names(p, c) && forall l :: !Meets(p, c, l);
    assert !EachBySome(p, Locate(batches));
  }

  /** The same span as far as the criteria go, an error, over in the microsecond in which it starts. */
  function Momentary(l: Located, at: nat): Located {
    Located(l.resource, Span(0, l.span.name, l.span.attributes, 1_000 * at, 1_000 * at, true))
  }

  lemma MomentaryMeets(p: Rules, c: Criterion, l: Located, at: nat)
    ensures Meets(p, c, Momentary(l, at)) == Meets(p, c, l)
  {}

  ghost predicate AllMomentary(ls: seq<Located>) {
    forall l :: l in ls ==>
      l.span.isError && Micros(l.span.start) == Micros(l.span.end) && Micros(l.span.start) >= 1
  }

  lemma MomentaryIsOver(l: Located, at: nat)
    requires at >= 1
    ensures AllMomentary([Momentary(l, at)]) && Micros(Momentary(l, at).span.start) == at
  {}

  lemma MomentFor(p: Rules, c: Criterion) returns (ls: seq<Located>)
    requires !Unmeetable(p)
    ensures Names(p, c) ==> exists l :: l in ls && Meets(p, c, l)
    ensures AllMomentary(ls)
  {
    hide Names, Meets, Momentary;
    ls := [];
    if Names(p, c) {
      var l :| Meets(p, c, l);
      MomentaryMeets(p, c, l, 1);
      MomentaryIsOver(l, 1);
      ls := [Momentary(l, 1)];
      assert Momentary(l, 1) in ls;
    }
  }

  lemma MomentsFor(p: Rules) returns (ls: seq<Located>)
    requires !Unmeetable(p)
    ensures EachBySome(p, ls) && AllMomentary(ls)
  {
    hide Names, Meets, Unmeetable, Micros;
    var a := MomentFor(p, ByOperation);
    var b := MomentFor(p, ByString);
    var e := MomentFor(p, ByNumeric);
    var f := MomentFor(p, ByAttrs);
    ls := a + b + e + f;
    forall c | Names(p, c) ensures exists l :: l in ls && Meets(p, c, l) {
      match c
      case ByOperation => var l :| l in a && Meets(p, c, l); assert l in ls;
      case ByString => var l :| l in b && Meets(p, c, l); assert l in ls;
      case ByNumeric => var l :| l in e && Meets(p, c, l); assert l in ls;
      case ByAttrs => var l :| l in f && Meets(p, c, l); assert l in ls;
    }
  }

  /** Two moments, d microseconds apart. */
  function Apart(d: int): seq<Located> {
    var l := Located(map[], Span(0, "", map[], 0, 0, true));
    [Momentary(l, 1), Momentary(l, 1 + if d < 1 then 1 else d)]
  }

  lemma ApartLasts(ls: seq<Located>, d: int)
    requires forall l :: l in Apart(d) ==> l in ls
    ensures Lasts(ls, d) && AllMomentary(Apart(d))
  {
    var a, b := Apart(d)[0], Apart(d)[1];
    assert a in Apart(d) && b in Apart(d);
    assert Micros(a.span.start) == 1 && Micros(b.span.end) == 1 + if d < 1 then 1 else d;
  }

  lemma MomentsNeverLast(p: Rules, ls: seq<Located>)
    requires AllMomentary(ls) && p.minDuration.Some?
    ensures forall l :: l in ls ==> !SpanMatches(p, l)
    ensures forall l :: l in ls ==> !NoStart(l)
    ensures |ErrorIndexes(ls)| == |ls|
  {
    hide MeetsAll;
    AllErrors(ls);
    forall l | l in ls ensures !Lasts([l], p.minDuration.value) {
      assert forall x :: x in [l] ==> x == l;
    }
  }

  /** Moments far enough apart, and enough of them, are selected although none of them lasts. */
  lemma DisagreementBySpan(p: Rules) returns (batches: seq<Traces>)
    requires !Unmeetable(p) && p.minDuration.Some?
    ensures Populated(batches) && Locate(batches) != [] && Timed(batches)
    ensures Matches(p, batches) && !DocumentedBySpan(p, batches)
  {
    hide Names, Meets, Unmeetable, Matches, Populated, NoStart, Locate, SpanMatches, Micros, Lasts, Apart, ErrorIndexes;
    var d := p.minDuration.value;
    var spans := if p.minNumberOfSpans.Some? then p.minNumberOfSpans.value else 0;
    var errors := if p.minNumberOfErrors.Some? then p.minNumberOfErrors.value else 0;
    var ms := MomentsFor(p);
    var ws := Apart(d) + ms;
    ApartLasts(Apart(d), d);
    ApartTwo(d);
    var n: nat := if spans > errors && spans > 1 then spans else if errors > 1 then errors else 1;
    var ls := Repeat(ws, n);
    RepeatHolds(ws, n);
    assert AllMomentary(ws) && AllMomentary(ls);
    ApartLasts(ls, d);
    MomentsNeverLast(p, ls);
    batches := Spread(ls);
    SpreadLocates(ls);
    SpreadPopulated(ls);
    TimedWindow(batches);
    MatchesByCriteria(p, batches);
    EachBySomeGrows(p, ms, ls);
  }

  lemma ApartTwo(d: int)
    ensures |Apart(d)| == 2
  {}

  lemma EachBySomeGrows(p: Rules, some: seq<Located>, all: seq<Located>)
    requires EachBySome(p, some) && forall l :: l in some ==> l in all
    ensures EachBySome(p, all)
  {
    hide Names, Meets;
    forall c | Names(p, c) ensures exists l :: l in all && Meets(p, c, l) {
      var l :| l in some && Meets(p, c, l);
    }
  }

  /**
   Exactly when the code agrees with this sentence: without a minimum duration, as before; with one, only if
   some criterion is met by no span, so that nothing is ever selected.
   */
  lemma DocumentedBySpanIff(p: Rules)
    ensures (if p.minDuration.None? then Dominated(p) else Unmeetable(p)) <==>
      forall batches :: Populated(batches) && Locate(batches) != [] && Timed(batches) ==>
        (Matches(p, batches) <==> DocumentedBySpan(p, batches))
  {
    hide *;
    if p.minDuration.None? {
      DocumentedIff(p);
      forall batches ensures DocumentedBySpan(p, batches) == Documented(p, batches) {
        SameSentences(p, batches);
      }
    } else if Unmeetable(p) {
      forall batches | Populated(batches) && Locate(batches) != [] && Timed(batches)
        ensures Matches(p, batches) <==> DocumentedBySpan(p, batches)
      {
        NothingPasses(p, batches);
      }
    } else {
      var batches := DisagreementBySpan(p);
    }
  }

  /** Two spans that are over at once, 50 microseconds apart, under a rule that only asks for that duration. */
  lemma ShortSpansExample()
    ensures
      var p, batches := Rules(None, None, [], None, Some(50), None, None), Spread(Apart(50));
      Matches(p, batches) && !DocumentedBySpan(p, batches)
  {
    hide Apart, Lasts, Locate, Micros, SpanMatches, Matches, NoStart;
    var p, ls := Rules(None, None, [], None, Some(50), None, None), Apart(50);
    ApartLasts(ls, 50);
    MomentsNeverLast(p, ls);
    SpreadLocates(ls);
    SpreadPopulated(ls);
    TimedWindow(Spread(ls));
    MatchesByCriteria(p, Spread(ls));
  }

  /** Spans called "get", in the production environment. */
  function ProductionGets(): Rules {
    Rules(None, Some(StringFilter("env", {"prod"}, [])), [], Some(name => name == "get"), None, None, None)
  }

  /** One span has the name, the other the environment. */
  function GetAndPut(): seq<Located> {
    [Located(map[], Span(7, "get", map[], 1_000, 2_000, false)),
     Located(map[], Span(7, "put", map["env" := StrValue("prod")], 1_000, 2_000, false))]
  }

  /** Two spans, two criteria: no span meets both, and the trace is selected. */
  lemma TwoSpansExample()
    ensures Matches(ProductionGets(), Spread(GetAndPut()))
    ensures !Documented(ProductionGets(), Spread(GetAndPut()))
  {
    var p, ls := ProductionGets(), GetAndPut();
    ExampleMeets(p, ls);
    NoBounds(p, ls);
    hide *;
    SpreadLocates(ls);
    SpreadPopulated(ls);
    MatchesByCriteria(p, Spread(ls));
    DocumentedNeeds(p, Spread(ls));
  }

  lemma DocumentedNeeds(p: Rules, batches: seq<Traces>)
    ensures Documented(p, batches) ==> AllByOne(p, Locate(batches))
  {}

  lemma NoBounds(p: Rules, ls: seq<Located>)
    requires p.minDuration.None? && p.minNumberOfSpans.None? && p.minNumberOfErrors.None?
    ensures forall w :: TraceBounds(p, ls, w)
  {}

  lemma ExampleMeets(p: Rules, ls: seq<Located>)
    requires |ls| == 2 && p.stringAttr == Some(StringFilter("env", {"prod"}, [])) && p.operation.Some?
    requires p.attrs == [] && p.numericAttr.None?
    requires ls[0].span.name == "get" && p.operation.value("get") && !p.operation.value(ls[1].span.name)
    requires ls[0].resource == ls[0].span.attributes == map[]
    requires ls[1].span.attributes == map["env" := StrValue("prod")]
    ensures EachBySome(p, ls) && !AllByOne(p, ls)
  {
    assert Meets(p, ByOperation, ls[0]) && Meets(p, ByString, ls[1]);
    assert !Meets(p, ByOperation, ls[1]) && !Meets(p, ByString, ls[0]);
    assert Names(p, ByOperation) && Names(p, ByString);
  }
}
