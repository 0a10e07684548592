/**
 sampling/policy.go, sampling/policy_filter.go and sampling/drop_trace_factory.go:
 trace data, the rules a policy tests on it, and the per-policy span budget.
 */
module Sampling {
  import opened Base

  // ---- Trace data ----

  datatype Decision = Unspecified | Pending | Sampled | SecondChance | NotSampled | Dropped

  type TraceId = nat

  datatype Value = StrValue(str: string) | IntValue(num: int) | DoubleValue(double: real) | OtherValue

  /** Reading a value as a string gives "" when it holds something else. */
  function StrOf(v: Value): string {
    if v.StrValue? then v.str else ""
  }

  /** Reading a value as an integer gives 0 when it holds something else. */
  function IntOf(v: Value): int {
    if v.IntValue? then v.num else 0
  }

  type Attributes = map<string, Value>

  /** Timestamps are in nanoseconds. */
  datatype Span = Span(trace: TraceId, name: string, attributes: Attributes, start: nat, end: nat, isError: bool)

  datatype ResourceSpans = ResourceSpans(resource: Attributes, scopes: seq<seq<Span>>)

  type Traces = seq<ResourceSpans>

  function Micros(ts: nat): nat {
    ts / 1000
  }

  // ---- Filters ----

  type Regex = string -> bool

  datatype Range = Range(min: int, max: int)

  datatype NumericFilter = NumericFilter(key: string, range: Range)

  /** The factory leaves `patterns` empty unless regular expressions were asked for. */
  datatype StringFilter = StringFilter(key: string, values: set<string>, patterns: seq<Regex>)

  datatype AttributeFilter =
    AttributeFilter(key: string, values: set<string>, patterns: seq<Regex>, ranges: seq<Range>)

  datatype Rules = Rules(
    numericAttr: Option<NumericFilter>,
    stringAttr: Option<StringFilter>,
    attrs: seq<AttributeFilter>,
    operation: Option<Regex>,
    minDuration: Option<int>,      // microseconds
    minNumberOfSpans: Option<int>,
    minNumberOfErrors: Option<int>)

  predicate AnyPattern(patterns: seq<Regex>, s: string) {
    exists i :: 0 <= i < |patterns| && patterns[i](s)
  }

  predicate InAnyRange(v: Value, ranges: seq<Range>) {
    if v.DoubleValue? then
      exists i :: 0 <= i < |ranges| && ranges[i].min as real <= v.double <= ranges[i].max as real
    else if v.IntValue? then
      exists i :: 0 <= i < |ranges| && ranges[i].min <= v.num <= ranges[i].max
    else
      false
  }

  function CheckAttributeFilterMatchedAndFound(attrs: Attributes, f: AttributeFilter): (bool, bool) {
    if f.key !in attrs then (false, false)
    else
      var v := attrs[f.key];
      if |f.patterns| > 0 && AnyPattern(f.patterns, StrOf(v)) then (true, true)
      else if |f.patterns| == 0 && |f.values| > 0 && StrOf(v) != "" && StrOf(v) in f.values then (true, true)
      else if |f.ranges| > 0 && InAnyRange(v, f.ranges) then (true, true)
      else if |f.ranges| == 0 && |f.values| == 0 && |f.patterns| == 0 then (true, true)
      else (false, true)
  }

  predicate CheckIfAttrsMatched(res: Attributes, span: Attributes, filters: seq<AttributeFilter>) {
    if |filters| == 0 then true
    else
      var (spanMatched, spanFound) := CheckAttributeFilterMatchedAndFound(span, filters[0]);
      var resMatched := !spanFound && CheckAttributeFilterMatchedAndFound(res, filters[0]).0;
      (resMatched || spanMatched) && CheckIfAttrsMatched(res, span, filters[1..])
  }

  predicate CheckIfNumericAttrFound(attrs: Attributes, f: NumericFilter) {
    f.key in attrs && f.range.min <= IntOf(attrs[f.key]) <= f.range.max
  }

  predicate CheckIfStringAttrFound(attrs: Attributes, f: StringFilter) {
    f.key in attrs &&
    var s := StrOf(attrs[f.key]);
    if |f.patterns| > 0 then AnyPattern(f.patterns, s)
    else s != "" && s in f.values
  }

  // ---- What the filters mean ----

  /** The value a filter looks at: the span's own attribute hides the resource's. */
  function Effective(res: Attributes, span: Attributes, key: string): Option<Value> {
    if key in span then Some(span[key]) else if key in res then Some(res[key]) else None
  }

  /** The value lies within the range, both bounds included; only numbers do. */
  predicate Within(v: Value, r: Range) {
    match v
    case IntValue(n) => r.min <= n && n <= r.max
    case DoubleValue(d) => r.min as real <= d && d <= r.max as real
    case StrValue(_) => false
    case OtherValue => false
  }

  /** The value passes a filter: one of its criteria holds, or it names none. What is no string counts as "". */
  predicate Accepts(f: AttributeFilter, v: Value) {
    var text := match v case StrValue(t) => t case _ => "";
    || (exists i :: 0 <= i < |f.patterns| && f.patterns[i](text))
    || (f.patterns == [] && text != "" && text in f.values)
    || (exists i :: 0 <= i < |f.ranges| && Within(v, f.ranges[i]))
    || (f.patterns == [] && f.values == {} && f.ranges == [])
  }

  /** Every filter accepts the value in effect. */
  predicate AttrsAccepted(res: Attributes, span: Attributes, filters: seq<AttributeFilter>) {
    forall i :: 0 <= i < |filters| ==>
      var v := Effective(res, span, filters[i].key);
      v.Some? && Accepts(filters[i], v.value)
  }

  /** The key is there with a number within both bounds; what is no integer counts as 0. */
  predicate NumberAccepted(attrs: Attributes, f: NumericFilter) {
    f.key in attrs &&
    match attrs[f.key]
    case IntValue(n) => f.range.min <= n && n <= f.range.max
    case _ => f.range.min <= 0 && 0 <= f.range.max
  }

  /** The key is there with a string some pattern matches, or, without patterns, a non-empty one among the values. */
  predicate StringAccepted(attrs: Attributes, f: StringFilter) {
    f.key in attrs &&
    var text := match attrs[f.key] case StrValue(t) => t case _ => "";
    if f.patterns != [] then exists i :: 0 <= i < |f.patterns| && f.patterns[i](text)
    else text != "" && text in f.values
  }

  /** What the two simple checks test. */
  lemma NumericCheckMeans(attrs: Attributes, f: NumericFilter)
    ensures CheckIfNumericAttrFound(attrs, f) <==> NumberAccepted(attrs, f)
  {}

  lemma StringCheckMeans(attrs: Attributes, f: StringFilter)
    ensures CheckIfStringAttrFound(attrs, f) <==> StringAccepted(attrs, f)
  {}

  lemma InAnyRangeMeans(v: Value, ranges: seq<Range>)
    ensures InAnyRange(v, ranges) <==> exists i :: 0 <= i < |ranges| && Within(v, ranges[i])
  {
    if InAnyRange(v, ranges) {
      var i :| 0 <= i < |ranges| && (if v.DoubleValue? then ranges[i].min as real <= v.double <= ranges[i].max as real
                                     else v.IntValue? && ranges[i].min <= v.num <= ranges[i].max);
      assert Within(v, ranges[i]);
    }
  }

  /** The short-circuiting pass over the filters means: every filter accepts the value in effect. */
  lemma {:induction false} AttrsMatchedMeaning(res: Attributes, span: Attributes, filters: seq<AttributeFilter>)
    ensures CheckIfAttrsMatched(res, span, filters) <==> AttrsAccepted(res, span, filters)
  {
    if |filters| > 0 {
      AttrsMatchedMeaning(res, span, filters[1..]);
      var f := filters[0];
      var v := Effective(res, span, f.key);
      if v.Some? {
        InAnyRangeMeans(v.value, f.ranges);
      }
      assert CheckIfAttrsMatched(res, span, filters) ==
        (v.Some? && Accepts(f, v.value) && CheckIfAttrsMatched(res, span, filters[1..]));
      assert forall i :: 0 < i < |filters| ==> filters[i] == filters[1..][i - 1];
    }
  }

  /** A span together with the attributes of the resource it came from. */
  datatype Located = Located(resource: Attributes, span: Span)

  function LocateSpans(res: Attributes, spans: seq<Span>): seq<Located> {
    seq(|spans|, i requires 0 <= i < |spans| => Located(res, spans[i]))
  }

  function LocateScopes(res: Attributes, scopes: seq<seq<Span>>): seq<Located> {
    if |scopes| == 0 then []
    else LocateScopes(res, scopes[..|scopes| - 1]) + LocateSpans(res, scopes[|scopes| - 1])
  }

  function LocateTraces(t: Traces): seq<Located> {
    if |t| == 0 then []
    else LocateTraces(t[..|t| - 1]) + LocateScopes(t[|t| - 1].resource, t[|t| - 1].scopes)
  }

  /** Every span of the received batches, in the order the evaluator visits them. */
  function Locate(batches: seq<Traces>): seq<Located> {
    if |batches| == 0 then []
    else Locate(batches[..|batches| - 1]) + LocateTraces(batches[|batches| - 1])
  }

  function ResourcesOf(t: Traces): seq<Attributes> {
    seq(|t|, i requires 0 <= i < |t| => t[i].resource)
  }

  function Resources(batches: seq<Traces>): seq<Attributes> {
    if |batches| == 0 then []
    else Resources(batches[..|batches| - 1]) + ResourcesOf(batches[|batches| - 1])
  }

  function ErrorCount(ls: seq<Located>): nat {
    if |ls| == 0 then 0
    else ErrorCount(ls[..|ls| - 1]) + if ls[|ls| - 1].span.isError then 1 else 0
  }

  /** Where the erroneous spans stand. */
  ghost function ErrorIndexes(ls: seq<Located>): set<nat> {
    set i: nat | i < |ls| && ls[i].span.isError
  }

  /** The error count is the number of erroneous spans. */
  lemma {:induction false} ErrorCountMeaning(ls: seq<Located>)
    ensures ErrorCount(ls) == |ErrorIndexes(ls)|
  {
    if |ls| == 0 {
      assert ErrorIndexes(ls) == {};
    } else {
      var n := |ls| - 1;
      ErrorCountMeaning(ls[..n]);
      assert ErrorIndexes(ls) == ErrorIndexes(ls[..n]) + if ls[n].span.isError then {n} else {};
    }
  }

  predicate NoStart(l: Located) {
    Micros(l.span.start) == 0
  }

  /**
   The spans the duration is measured over. A start time of zero microseconds is
   taken for "nothing seen yet", so the span that follows one restarts the measure.
   */
  function Window(ls: seq<Located>): seq<Located> {
    if |ls| == 0 then []
    else
      var w := Window(ls[..|ls| - 1]);
      if |w| > 0 && !NoStart(w[|w| - 1]) then w + [ls[|ls| - 1]] else [ls[|ls| - 1]]
  }

  /** Latest end minus earliest start is positive and at least d. */
  ghost predicate Lasts(ls: seq<Located>, d: int) {
    exists a, b :: a in ls && b in ls && Micros(b.span.end) > Micros(a.span.start)
                && Micros(b.span.end) - Micros(a.span.start) >= d
  }

  ghost predicate SomeNumeric(res: seq<Attributes>, ls: seq<Located>, f: NumericFilter) {
    || (exists r :: r in res && NumberAccepted(r, f))
    || (exists l :: l in ls && NumberAccepted(l.span.attributes, f))
  }

  ghost predicate SomeString(res: seq<Attributes>, ls: seq<Located>, f: StringFilter) {
    || (exists r :: r in res && StringAccepted(r, f))
    || (exists l :: l in ls && StringAccepted(l.span.attributes, f))
  }

  /** One span satisfies all the attribute filters. */
  ghost predicate SomeAttrs(ls: seq<Located>, filters: seq<AttributeFilter>) {
    exists l :: l in ls && AttrsAccepted(l.resource, l.span.attributes, filters)
  }

  ghost predicate SomeOperation(ls: seq<Located>, re: Regex) {
    exists l :: l in ls && re(l.span.name)
  }

  /** The declarative meaning of a policy's rules, given the spans its duration is measured over. */
  ghost predicate MeaningOver(p: Rules, res: seq<Attributes>, ls: seq<Located>, window: seq<Located>) {
    && (p.operation.Some? ==> SomeOperation(ls, p.operation.value))
    && (p.minNumberOfSpans.Some? ==> |ls| >= p.minNumberOfSpans.value)
    && (p.minDuration.Some? ==> Lasts(window, p.minDuration.value))
    && (p.numericAttr.Some? ==> SomeNumeric(res, ls, p.numericAttr.value))
    && (p.stringAttr.Some? ==> SomeString(res, ls, p.stringAttr.value))
    && (|p.attrs| > 0 ==> SomeAttrs(ls, p.attrs))
    && (p.minNumberOfErrors.Some? ==> ErrorCount(ls) >= p.minNumberOfErrors.value)
  }

  /** Every rule is met by the trace as a whole: each criterion by some span, the bounds by all spans together. */
  ghost predicate RulesMet(p: Rules, batches: seq<Traces>) {
    MeaningOver(p, Resources(batches), Locate(batches), Locate(batches))
  }

  /** What the evaluator computes. */
  ghost predicate Matches(p: Rules, batches: seq<Traces>) {
    MeaningOver(p, Resources(batches), Locate(batches), Window(Locate(batches)))
  }

  // ---- The single pass over the spans ----

  /** The running flags, counters and extreme times of the pass. */
  datatype Scan = Scan(operation: bool, str: bool, numeric: bool, attrs: bool,
                       spans: int, errors: int, minStart: int, maxEnd: int)

  /** The running values after the resources `res` and the spans `seen`. */
  ghost predicate Tracks(p: Rules, res: seq<Attributes>, seen: seq<Located>, s: Scan) {
    && (p.operation.Some? ==> s.operation == SomeOperation(seen, p.operation.value))
    && (p.stringAttr.Some? ==> s.str == SomeString(res, seen, p.stringAttr.value))
    && (p.numericAttr.Some? ==> s.numeric == SomeNumeric(res, seen, p.numericAttr.value))
    && (|p.attrs| > 0 ==> s.attrs == SomeAttrs(seen, p.attrs))
    && s.errors == ErrorCount(seen)
    && (p.minDuration.Some? ==> Extent(Window(seen), s.minStart, s.maxEnd))
  }

  /** lo is the earliest start and hi the latest end of the window; both are 0 when it is empty. */
  ghost predicate Extent(w: seq<Located>, lo: int, hi: int) {
    if w == [] then lo == 0 && hi == 0
    else
      && (exists a :: a in w && lo == Micros(a.span.start))
      && (exists b :: b in w && hi == Micros(b.span.end))
      && (forall a :: a in w ==> lo <= Micros(a.span.start) && Micros(a.span.end) <= hi)
      && (lo == 0 <==> NoStart(w[|w| - 1]))
  }

  lemma InSnoc<T>(xs: seq<T>, x: T)
    ensures forall y :: y in xs + [x] <==> y in xs || y == x
  {}

  lemma ExtentGrows(w: seq<Located>, l: Located, lo: int, hi: int, lo': int, hi': int)
    requires w != [] && Extent(w, lo, hi) && lo != 0
    requires lo' == if Micros(l.span.start) < lo then Micros(l.span.start) else lo
    requires hi' == if Micros(l.span.end) > hi then Micros(l.span.end) else hi
    ensures Extent(w + [l], lo', hi')
  {
    hide Micros;
    var a :| a in w && lo == Micros(a.span.start);
    var b :| b in w && hi == Micros(b.span.end);
    InSnoc(w, l);
    assert a in w + [l] && b in w + [l] && l in w + [l];
    assert 0 <= lo <= Micros(a.span.start);
  }

  lemma ExtentStep(seen: seq<Located>, l: Located, lo: int, hi: int, lo': int, hi': int)
    requires Extent(Window(seen), lo, hi)
    requires lo' == if lo == 0 || Micros(l.span.start) < lo then Micros(l.span.start) else lo
    requires hi' == if lo == 0 || Micros(l.span.end) > hi then Micros(l.span.end) else hi
    ensures Extent(Window(seen + [l]), lo', hi')
  {
    hide Micros;
    var w := Window(seen);
    WindowSnoc(seen, l);
    if |w| > 0 && !NoStart(w[|w| - 1]) {
      ExtentGrows(w, l, lo, hi, lo', hi');
    } else {
      assert l in [l];
    }
  }

  lemma WindowSnoc(seen: seq<Located>, l: Located)
    ensures Window(seen + [l]) ==
      var w := Window(seen);
      if |w| > 0 && !NoStart(w[|w| - 1]) then w + [l] else [l]
  {
    assert (seen + [l])[..|seen|] == seen;
  }

  lemma ExtentMeansLasts(w: seq<Located>, lo: int, hi: int, d: int)
    requires Extent(w, lo, hi)
    ensures Lasts(w, d) <==> (hi > lo && hi - lo >= d)
  {
    if w != [] && hi > lo && hi - lo >= d {
      var a :| a in w && lo == Micros(a.span.start);
      var b :| b in w && hi == Micros(b.span.end);
    }
  }

  lemma TracksResource(p: Rules, res: seq<Attributes>, seen: seq<Located>, r: Attributes, s: Scan, s': Scan)
    requires Tracks(p, res, seen, s)
    requires p.stringAttr.Some? ==> s'.str == (s.str || StringAccepted(r, p.stringAttr.value))
    requires p.numericAttr.Some? ==> s'.numeric == (s.numeric || NumberAccepted(r, p.numericAttr.value))
    requires s' == s.(str := s'.str, numeric := s'.numeric)
    ensures Tracks(p, res + [r], seen, s')
  {
    InSnoc(res, r);
  }

  lemma FlagsStep(p: Rules, res: seq<Attributes>, seen: seq<Located>, l: Located)
    ensures p.operation.Some? ==>
      SomeOperation(seen + [l], p.operation.value)
      == (SomeOperation(seen, p.operation.value) || p.operation.value(l.span.name))
    ensures p.stringAttr.Some? ==>
      SomeString(res, seen + [l], p.stringAttr.value)
      == (SomeString(res, seen, p.stringAttr.value) || StringAccepted(l.span.attributes, p.stringAttr.value))
    ensures p.numericAttr.Some? ==>
      SomeNumeric(res, seen + [l], p.numericAttr.value)
      == (SomeNumeric(res, seen, p.numericAttr.value)
          || NumberAccepted(l.span.attributes, p.numericAttr.value))
    ensures SomeAttrs(seen + [l], p.attrs)
      == (SomeAttrs(seen, p.attrs) || AttrsAccepted(l.resource, l.span.attributes, p.attrs))
    ensures ErrorCount(seen + [l]) == ErrorCount(seen) + if l.span.isError then 1 else 0
  {
    InSnoc(seen, l);
    assert (seen + [l])[..|seen|] == seen;
  }

  /** The running values after one more span: flags stick, extremes widen, a zero start time restarts them. */
  ghost predicate Absorbs(p: Rules, l: Located, s: Scan, s': Scan) {
    && (p.operation.Some? ==> s'.operation == (s.operation || p.operation.value(l.span.name)))
    && (p.stringAttr.Some? ==> s'.str == (s.str || StringAccepted(l.span.attributes, p.stringAttr.value)))
    && (p.numericAttr.Some? ==>
         s'.numeric == (s.numeric || NumberAccepted(l.span.attributes, p.numericAttr.value)))
    && (|p.attrs| > 0 ==> s'.attrs == (s.attrs || AttrsAccepted(l.resource, l.span.attributes, p.attrs)))
    && s'.errors == s.errors + (if l.span.isError then 1 else 0)
    && (p.minDuration.Some? ==>
         var start, end := Micros(l.span.start), Micros(l.span.end);
         && s'.minStart == (if s.minStart == 0 || start < s.minStart then start else s.minStart)
         && s'.maxEnd == (if s.minStart == 0 || end > s.maxEnd then end else s.maxEnd))
    && s'.spans == s.spans
  }

  lemma TracksSpan(p: Rules, res: seq<Attributes>, seen: seq<Located>, l: Located, s: Scan, s': Scan)
    requires Tracks(p, res, seen, s) && Absorbs(p, l, s, s')
    ensures Tracks(p, res, seen + [l], s')
  {
    hide AttrsAccepted, StringAccepted, NumberAccepted, Extent, Window;
    hide SomeAttrs, SomeString, SomeNumeric, SomeOperation, ErrorCount;
    FlagsStep(p, res, seen, l);
    if p.minDuration.Some? {
      ExtentStep(seen, l, s.minStart, s.maxEnd, s'.minStart, s'.maxEnd);
    }
  }

  lemma TracksCount(p: Rules, res: seq<Attributes>, seen: seq<Located>, s: Scan, n: int)
    requires Tracks(p, res, seen, s)
    ensures Tracks(p, res, seen, s.(spans := n))
  {}

  /**
   evaluateRules: one pass over batches, resources, scopes and spans, then the verdict.
   */
  method EvaluateRules(p: Rules, invertMatch: bool, batches: seq<Traces>) returns (d: Decision)
    ensures d == if Matches(p, batches) != invertMatch then Sampled else NotSampled
  {
    hide LocateTraces, ResourcesOf, Extent, Window, Lasts, ErrorCount;
    hide SomeAttrs, SomeString, SomeNumeric, SomeOperation;
    var s := Scan(false, false, false, false, 0, 0, 0, 0);
    NothingSeen(p, s);
    for b := 0 to |batches|
      invariant Tracks(p, Resources(batches[..b]), Locate(batches[..b]), s)
      invariant s.spans == |Locate(batches[..b])|
    {
      s := ScanTraces(p, batches[b], s, Resources(batches[..b]), Locate(batches[..b]));
      assert batches[..b + 1][..b] == batches[..b];
    }
    assert batches[..|batches|] == batches;

    var operationMet, durationMet, spansMet, stringMet, numericMet, attrsMet, errorsMet :=
      true, true, true, true, true, true, true;
    if p.operation.Some? { operationMet := s.operation; }
    if p.minNumberOfSpans.Some? { spansMet := s.spans >= p.minNumberOfSpans.value; }
    if p.minDuration.Some? {
      durationMet := s.maxEnd > s.minStart && s.maxEnd - s.minStart >= p.minDuration.value;
      ExtentMeansLasts(Window(Locate(batches)), s.minStart, s.maxEnd, p.minDuration.value);
    }
    if p.numericAttr.Some? { numericMet := s.numeric; }
    if p.stringAttr.Some? { stringMet := s.str; }
    if |p.attrs| > 0 { attrsMet := s.attrs; }
    if p.minNumberOfErrors.Some? { errorsMet := s.errors >= p.minNumberOfErrors.value; }
    if spansMet && durationMet && operationMet && numericMet && stringMet && attrsMet && errorsMet {
      return if invertMatch then NotSampled else Sampled;
    }
    return if invertMatch then Sampled else NotSampled;
  }

  lemma NothingSeen(p: Rules, s: Scan)
    requires s == Scan(false, false, false, false, 0, 0, 0, 0)
    ensures Tracks(p, [], [], s)
  {}

  /** The loop over the resources of one batch. */
  method ScanTraces(p: Rules, t: Traces, s0: Scan, ghost res: seq<Attributes>, ghost seen: seq<Located>)
    returns (s: Scan)
    requires Tracks(p, res, seen, s0)
    ensures Tracks(p, res + ResourcesOf(t), seen + LocateTraces(t), s)
    ensures s.spans == s0.spans + |LocateTraces(t)|
  {
    hide Tracks, CheckIfStringAttrFound, CheckIfNumericAttrFound, StringAccepted, NumberAccepted;
    s := s0;
    assert res + ResourcesOf(t[..0]) == res && seen + LocateTraces(t[..0]) == seen;
    for i := 0 to |t|
      invariant Tracks(p, res + ResourcesOf(t[..i]), seen + LocateTraces(t[..i]), s)
      invariant s.spans == s0.spans + |LocateTraces(t[..i])|
    {
      var r := t[i].resource;
      ghost var s1 := s;
      if !s.str && p.stringAttr.Some? {
        s := s.(str := CheckIfStringAttrFound(r, p.stringAttr.value));
        StringCheckMeans(r, p.stringAttr.value);
      }
      if !s.numeric && p.numericAttr.Some? {
        s := s.(numeric := CheckIfNumericAttrFound(r, p.numericAttr.value));
        NumericCheckMeans(r, p.numericAttr.value);
      }
      TracksResource(p, res + ResourcesOf(t[..i]), seen + LocateTraces(t[..i]), r, s1, s);
      assert res + ResourcesOf(t[..i]) + [r] == res + ResourcesOf(t[..i + 1]);
      s := ScanScopes(p, r, t[i].scopes, s, res + ResourcesOf(t[..i + 1]), seen + LocateTraces(t[..i]));
      assert t[..i + 1][..i] == t[..i];
      assert seen + LocateTraces(t[..i]) + LocateScopes(r, t[i].scopes) == seen + LocateTraces(t[..i + 1]);
    }
    assert t[..|t|] == t;
  }

  /** The loop over the scopes of one resource. */
  method ScanScopes(p: Rules, r: Attributes, scopes: seq<seq<Span>>, s0: Scan,
                    ghost res: seq<Attributes>, ghost seen: seq<Located>)
    returns (s: Scan)
    requires Tracks(p, res, seen, s0)
    ensures Tracks(p, res, seen + LocateScopes(r, scopes), s)
    ensures s.spans == s0.spans + |LocateScopes(r, scopes)|
  {
    hide Tracks;
    s := s0;
    assert seen + LocateScopes(r, scopes[..0]) == seen;
    for j := 0 to |scopes|
      invariant Tracks(p, res, seen + LocateScopes(r, scopes[..j]), s)
      invariant s.spans == s0.spans + |LocateScopes(r, scopes[..j])|
    {
      TracksCount(p, res, seen + LocateScopes(r, scopes[..j]), s, s.spans + |scopes[j]|);
      s := s.(spans := s.spans + |scopes[j]|);
      s := ScanSpans(p, r, scopes[j], s, res, seen + LocateScopes(r, scopes[..j]));
      assert scopes[..j + 1][..j] == scopes[..j];
      assert seen + LocateScopes(r, scopes[..j]) + LocateSpans(r, scopes[j]) == seen + LocateScopes(r, scopes[..j + 1]);
    }
    assert scopes[..|scopes|] == scopes;
  }

  /** The innermost loop, over the spans of one scope. */
  method ScanSpans(p: Rules, r: Attributes, spans: seq<Span>, s0: Scan,
                   ghost res: seq<Attributes>, ghost seen: seq<Located>)
    returns (s: Scan)
    requires Tracks(p, res, seen, s0)
    ensures Tracks(p, res, seen + LocateSpans(r, spans), s)
    ensures s.spans == s0.spans
  {
    hide Tracks, Absorbs;
    s := s0;
    assert seen + LocateSpans(r, spans[..0]) == seen;
    for k := 0 to |spans|
      invariant Tracks(p, res, seen + LocateSpans(r, spans[..k]), s)
      invariant s.spans == s0.spans
    {
      ghost var s1, l := s, Located(r, spans[k]);
      s := ScanSpan(p, r, spans[k], s);
      TracksSpan(p, res, seen + LocateSpans(r, spans[..k]), l, s1, s);
      assert seen + LocateSpans(r, spans[..k + 1]) == seen + LocateSpans(r, spans[..k]) + [l];
    }
    assert spans[..|spans|] == spans;
  }

  /** The body of the innermost loop. */
  method ScanSpan(p: Rules, r: Attributes, span: Span, s0: Scan) returns (s: Scan)
    ensures Absorbs(p, Located(r, span), s0, s) && s.spans == s0.spans
  {
    hide CheckIfAttrsMatched, CheckIfStringAttrFound, CheckIfNumericAttrFound, Micros;
    hide AttrsAccepted, StringAccepted, NumberAccepted;
    var Scan(op, str, num, attrs, spans, errors, minStart, maxEnd) := s0;
    if !attrs && |p.attrs| > 0 {
      attrs := CheckIfAttrsMatched(r, span.attributes, p.attrs);
      AttrsMatchedMeaning(r, span.attributes, p.attrs);
    }
    if !str && p.stringAttr.Some? {
      str := CheckIfStringAttrFound(span.attributes, p.stringAttr.value);
      StringCheckMeans(span.attributes, p.stringAttr.value);
    }
    if !num && p.numericAttr.Some? {
      num := CheckIfNumericAttrFound(span.attributes, p.numericAttr.value);
      NumericCheckMeans(span.attributes, p.numericAttr.value);
    }
    if p.operation.Some? && !op {
      if p.operation.value(span.name) {
        op := true;
      }
    }
    if p.minDuration.Some? {
      var startTs, endTs := Micros(span.start), Micros(span.end);
      if minStart == 0 {
        minStart, maxEnd := startTs, endTs;
      } else {
        if startTs < minStart { minStart := startTs; }
        if endTs > maxEnd { maxEnd := endTs; }
      }
    }
    if span.isError {
      errors := errors + 1;
    }
    s := Scan(op, str, num, attrs, spans, errors, minStart, maxEnd);
  }

  // ---- When the pass sees all spans ----

  lemma {:induction false} WindowShort(ls: seq<Located>)
    ensures |Window(ls)| <= |ls|
  {
    hide NoStart;
    if |ls| > 0 {
      WindowShort(ls[..|ls| - 1]);
    }
  }

  /** The duration is measured over all spans exactly when only the last one may lack a start time. */
  lemma {:induction false} WindowIsAll(ls: seq<Located>)
    ensures Window(ls) == ls <==> forall i :: 0 <= i < |ls| - 1 ==> !NoStart(ls[i])
  {
    hide NoStart, Window;
    if |ls| <= 1 {
      WindowSmall(ls);
    } else {
      var init, x := ls[..|ls| - 1], ls[|ls| - 1];
      assert ls == init + [x];
      WindowIsAll(init);
      WindowShort(init);
      WindowSnoc(init, x);
      var w, last := Window(init), init[|init| - 1];
      assert forall i :: 0 <= i < |init| ==> ls[i] == init[i];
      if w != init {
        assert w + [x] != ls by {
          assert (w + [x])[..|w|] == w;
        }
      }
      assert Window(ls) == ls <==> w == init && !NoStart(last);
      assert last == ls[|ls| - 2];
    }
  }

  lemma WindowSmall(ls: seq<Located>)
    requires |ls| <= 1
    ensures Window(ls) == ls
  {}

  /** With start times present the single pass tests whether the rules are met by the trace as a whole. */
  lemma MatchesMeaning(p: Rules, batches: seq<Traces>)
    requires var ls := Locate(batches); forall i :: 0 <= i < |ls| - 1 ==> !NoStart(ls[i])
    ensures Matches(p, batches) == RulesMet(p, batches)
  {
    WindowIsAll(Locate(batches));
    assert Window(Locate(batches)) == Locate(batches);
  }

  // Batch order

  lemma {:induction false} ErrorCountConcat(a: seq<Located>, b: seq<Located>)
    ensures ErrorCount(a + b) == ErrorCount(a) + ErrorCount(b)
  {
    if |b| == 0 {
      assert a + b == a;
    } else {
      assert (a + b)[..|a + b| - 1] == a + b[..|b| - 1];
      ErrorCountConcat(a, b[..|b| - 1]);
    }
  }

  lemma LocateSnoc(bs: seq<Traces>, y: Traces)
    ensures multiset(Locate(bs + [y])) == multiset(Locate(bs)) + multiset(LocateTraces(y))
    ensures multiset(Resources(bs + [y])) == multiset(Resources(bs)) + multiset(ResourcesOf(y))
    ensures ErrorCount(Locate(bs + [y])) == ErrorCount(Locate(bs)) + ErrorCount(LocateTraces(y))
  {
    assert (bs + [y])[..|bs|] == bs;
    assert Locate(bs + [y]) == Locate(bs) + LocateTraces(y);
    assert Resources(bs + [y]) == Resources(bs) + ResourcesOf(y);
    ErrorCountConcat(Locate(bs), LocateTraces(y));
  }

  /** What one batch contributes is independent of where it stands. */
  lemma {:induction false} TakeOut(bs: seq<Traces>, i: nat)
    requires i < |bs|
    ensures
      var rest := bs[..i] + bs[i + 1..];
      && multiset(Locate(bs)) == multiset(Locate(rest)) + multiset(LocateTraces(bs[i]))
      && multiset(Resources(bs)) == multiset(Resources(rest)) + multiset(ResourcesOf(bs[i]))
      && ErrorCount(Locate(bs)) == ErrorCount(Locate(rest)) + ErrorCount(LocateTraces(bs[i]))
  {
    hide Locate, LocateTraces, Resources, ResourcesOf, ErrorCount;
    var n := |bs| - 1;
    assert bs == bs[..n] + [bs[n]];
    LocateSnoc(bs[..n], bs[n]);
    if i == n {
      assert bs[..i] + bs[i + 1..] == bs[..n];
    } else {
      TakeOut(bs[..n], i);
      var short := bs[..n][..i] + bs[..n][i + 1..];
      LocateSnoc(short, bs[n]);
      assert bs[..i] + bs[i + 1..] == short + [bs[n]];
    }
  }

  lemma {:induction false} SameContents(a: seq<Traces>, b: seq<Traces>)
    requires multiset(a) == multiset(b)
    ensures multiset(Locate(a)) == multiset(Locate(b))
    ensures multiset(Resources(a)) == multiset(Resources(b))
    ensures ErrorCount(Locate(a)) == ErrorCount(Locate(b))
  {
    hide Locate, LocateTraces, Resources, ResourcesOf, ErrorCount;
    if |a| == 0 {
      assert |multiset(b)| == 0;
    } else {
      var x := a[|a| - 1];
      assert a == a[..|a| - 1] + [x];
      assert x in multiset(b);
      var i :| 0 <= i < |b| && b[i] == x;
      var rest := b[..i] + b[i + 1..];
      assert b == b[..i] + [x] + b[i + 1..];
      assert multiset(a[..|a| - 1]) == multiset(a) - multiset{x};
      assert multiset(rest) == multiset(b) - multiset{x};
      SameContents(a[..|a| - 1], rest);
      TakeOut(b, i);
      LocateSnoc(a[..|a| - 1], x);
    }
  }

  lemma SameMeaning(p: Rules, a: seq<Traces>, b: seq<Traces>)
    requires multiset(a) == multiset(b)
    ensures RulesMet(p, a) == RulesMet(p, b)
  {
    hide Locate, LocateTraces, Resources, ResourcesOf, ErrorCount;
    hide AttrsAccepted, StringAccepted, NumberAccepted;
    SameContents(a, b);
    SameMembers(Resources(a), Resources(b));
    SameMembers(Locate(a), Locate(b));
  }

  lemma SameMembers<T>(a: seq<T>, b: seq<T>)
    requires multiset(a) == multiset(b)
    ensures |a| == |b| && forall x :: x in a <==> x in b
  {
    assert |a| == |multiset(a)| == |multiset(b)| == |b|;
    assert forall x :: x in a <==> x in multiset(a);
    assert forall x :: x in b <==> x in multiset(b);
  }

  /** The verdict does not depend on the order in which the batches of a trace arrived. */
  lemma OrderIndependent(p: Rules, a: seq<Traces>, b: seq<Traces>)
    requires multiset(a) == multiset(b)
    requires forall l :: l in Locate(a) ==> !NoStart(l)
    ensures Matches(p, a) == Matches(p, b) == RulesMet(p, a)
  {
    hide Matches, RulesMet, Locate, NoStart;
    SameContents(a, b);
    SameMembers(Locate(a), Locate(b));
    MatchesMeaning(p, a);
    MatchesMeaning(p, b);
    SameMeaning(p, a, b);
  }

  /** Without start times it does: a span at time zero hides the spans received before it, not those after. */
  lemma OrderMattersExample()
    ensures
      var early := Span(7, "early", map[], 0, 10_000, false);
      var late := Span(7, "late", map[], 100_000, 110_000, false);
      var p := Rules(None, None, [], None, Some(50), None, None);
      var b1, b2 := [ResourceSpans(map[], [[early]])], [ResourceSpans(map[], [[late]])];
      && multiset([b1, b2]) == multiset([b2, b1])
      && !Matches(p, [b1, b2]) && Matches(p, [b2, b1])
  {
    hide LocateTraces, Locate, Matches, Window;
    var early := Span(7, "early", map[], 0, 10_000, false);
    var late := Span(7, "late", map[], 100_000, 110_000, false);
    var l1, l2 := Located(map[], early), Located(map[], late);
    MatchesTwo(50, early, late);
    MatchesTwo(50, late, early);
    assert l1 in [l2, l1] && l2 in [l2, l1];
  }

  lemma DurationOnly(d: int, batches: seq<Traces>)
    ensures Matches(Rules(None, None, [], None, Some(d), None, None), batches) == Lasts(Window(Locate(batches)), d)
  {
    hide Window, Locate, Lasts;
  }

  lemma MatchesTwo(d: int, s1: Span, s2: Span)
    ensures
      var p := Rules(None, None, [], None, Some(d), None, None);
      var b1, b2 := [ResourceSpans(map[], [[s1]])], [ResourceSpans(map[], [[s2]])];
      var l1, l2 := Located(map[], s1), Located(map[], s2);
      Matches(p, [b1, b2]) == Lasts(if NoStart(l1) then [l2] else [l1, l2], d)
  {
    hide Matches, Lasts, Locate, LocateTraces, NoStart, Window;
    var b1, b2 := [ResourceSpans(map[], [[s1]])], [ResourceSpans(map[], [[s2]])];
    var l1, l2 := Located(map[], s1), Located(map[], s2);
    LocateSingle(map[], s1);
    LocateSingle(map[], s2);
    LocateTwo(b1, b2);
    assert [l1] + [l2] == [l1, l2];
    WindowSmall([l1]);
    WindowSnoc([l1], l2);
    DurationOnly(d, [b1, b2]);
  }

  lemma LocateSingle(res: Attributes, s: Span)
    ensures LocateTraces([ResourceSpans(res, [[s]])]) == [Located(res, s)]
  {
    var t := [ResourceSpans(res, [[s]])];
    assert t[..0] == [] && [[s]][..0] == [];
    assert LocateScopes(res, [[s]]) == LocateSpans(res, [s]);
  }

  lemma LocateTwo(a: Traces, b: Traces)
    ensures Locate([a, b]) == LocateTraces(a) + LocateTraces(b)
  {
    assert [a, b][..1] == [a] && [a][..0] == [];
    assert Locate([a]) == LocateTraces(a);
  }

  // ---- Reject rules ----

  /** A reject rule: the same tests without duration, size and error bounds. */
  datatype RejectRule = RejectRule(
    numericAttr: Option<NumericFilter>, stringAttr: Option<StringFilter>,
    attrs: seq<AttributeFilter>, operation: Option<Regex>)

  function AsRules(r: RejectRule): Rules {
    Rules(r.numericAttr, r.stringAttr, r.attrs, r.operation, None, None, None)
  }

  ghost predicate ShouldDrop(r: RejectRule, batches: seq<Traces>) {
    RulesMet(AsRules(r), batches)
  }

  // ---- The budget of a policy ----

  datatype Policy = Policy(rules: Rules, invertMatch: bool, limit: int32)

  datatype Budget = Budget(second: int, spans: int32)

  predicate ShouldConsider(p: Policy, b: Budget, now: int, n: int32) {
    if p.limit < 0 then true
    else if n > p.limit then false
    else if b.second == now && n > Wrap32(p.limit - b.spans) then false
    else true
  }

  function Roll(b: Budget, now: int): Budget {
    if b.second != now then Budget(now, 0) else b
  }

  /** updateRate: the budget afterwards, and the verdict. */
  function Charge(p: Policy, b: Budget, now: int, n: int32): (Budget, Decision) {
    var r := Roll(b, now);
    var total := Wrap32(r.spans + n);
    if total <= p.limit then (r.(spans := total), Sampled) else (r, NotSampled)
  }

  /** Evaluate on a trace of n spans whose rules have the given outcome. */
  function Evaluated(p: Policy, b: Budget, now: int, n: int32, selected: bool): (Budget, Decision) {
    if !ShouldConsider(p, b, now, n) || !selected then (b, NotSampled)
    else if p.limit < 0 then (b, SecondChance)
    else Charge(p, b, now, n)
  }

  ghost predicate Selects(p: Policy, batches: seq<Traces>) {
    Matches(p.rules, batches) != p.invertMatch
  }

  class PolicyEvaluator {
    const policy: Policy
    var currentSecond: int
    var spansInCurrentSecond: int32

    ghost function Budgeted(): Budget
      reads this
    {
      Budget(currentSecond, spansInCurrentSecond)
    }

    constructor (policy: Policy)
      ensures this.policy == policy && Budgeted() == Budget(0, 0)
    {
      this.policy := policy;
      currentSecond, spansInCurrentSecond := 0, 0;
    }

    method UpdateRate(now: int, n: int32) returns (d: Decision)
      modifies this
      ensures (Budgeted(), d) == Charge(policy, old(Budgeted()), now, n)
    {
      if currentSecond != now {
        currentSecond := now;
        spansInCurrentSecond := 0;
      }
      var total := Wrap32(spansInCurrentSecond + n);
      if total <= policy.limit {
        spansInCurrentSecond := total;
        return Sampled;
      }
      return NotSampled;
    }

    method Evaluate(now: int, n: int32, batches: seq<Traces>) returns (d: Decision)
      modifies this
      ensures (Budgeted(), d) == Evaluated(policy, old(Budgeted()), now, n, Selects(policy, batches))
    {
      if !ShouldConsider(policy, Budget(currentSecond, spansInCurrentSecond), now, n) {
        return NotSampled;
      }
      d := EvaluateRules(policy.rules, policy.invertMatch, batches);
      if d != Sampled {
        return d;
      }
      if policy.limit < 0 {
        return SecondChance;
      }
      d := UpdateRate(now, n);
    }
  }

  predicate BudgetOk(p: Policy, b: Budget) {
    0 <= p.limit ==> 0 <= b.spans <= p.limit
  }

  /** Spans of the trace fit what is left of the policy's budget at that time. */
  predicate FitsBudget(p: Policy, b: Budget, now: int, n: int32) {
    Roll(b, now).spans + n <= p.limit
  }

  /**
   The early check is exact: a non-negative limit admits a trace if and only if its rules select it
   and its spans fit; a trace that is not admitted leaves the budget alone, and no sum wraps.
   */
  lemma EarlyCheckExact(p: Policy, b: Budget, now: int, n: int32, selected: bool)
    requires 0 <= p.limit && 0 <= n && BudgetOk(p, b)
    ensures
      var (b', d) := Evaluated(p, b, now, n, selected);
      && (d == Sampled <==> selected && FitsBudget(p, b, now, n))
      && (d == Sampled ==> b' == Budget(now, Roll(b, now).spans + n))
      && (d != Sampled ==> d == NotSampled && b' == b)
      && BudgetOk(p, b')
    ensures ShouldConsider(p, b, now, n) ==> Charge(p, b, now, n).1 == Sampled
  {}

  /** A policy with a negative limit offers a second chance to every trace it selects, at no cost. */
  lemma NegativeLimitOffersSecondChance(p: Policy, b: Budget, now: int, n: int32, selected: bool)
    requires p.limit < 0
    ensures Evaluated(p, b, now, n, selected) == (b, if selected then SecondChance else NotSampled)
  {}

  /** One evaluation: its clock reading, the size of the trace and the outcome of the rules. */
  datatype Call = Call(now: int, n: int32, selected: bool)

  function After(p: Policy, b: Budget, calls: seq<Call>): Budget {
    if |calls| == 0 then b
    else
      var c := calls[|calls| - 1];
      Evaluated(p, After(p, b, calls[..|calls| - 1]), c.now, c.n, c.selected).0
  }

  /** Spans admitted by the calls from index `from` on. */
  function Admitted(p: Policy, b: Budget, calls: seq<Call>, from: nat): int {
    if |calls| <= from then 0
    else
      var c := calls[|calls| - 1];
      var before := After(p, b, calls[..|calls| - 1]);
      Admitted(p, b, calls[..|calls| - 1], from)
      + if Evaluated(p, before, c.now, c.n, c.selected).1 == Sampled then c.n else 0
  }

  /**
   Over every sequence of evaluations, whatever the clock does, the spans a policy admits in a
   stretch of calls made in the same second never exceed its limit.
   */
  lemma {:induction false} PolicyBudgetBound(p: Policy, b: Budget, calls: seq<Call>, from: nat)
    requires 0 <= p.limit && BudgetOk(p, b) && from <= |calls|
    requires forall i :: 0 <= i < |calls| ==> 0 <= calls[i].n
    requires forall i, j :: from <= i < j < |calls| ==> calls[i].now == calls[j].now
    ensures BudgetOk(p, After(p, b, calls))
    ensures 0 <= Admitted(p, b, calls, from) <= p.limit
    ensures from < |calls| && After(p, b, calls).second == calls[|calls| - 1].now
        ==> Admitted(p, b, calls, from) <= After(p, b, calls).spans
    ensures from < |calls| && After(p, b, calls).second != calls[|calls| - 1].now
        ==> Admitted(p, b, calls, from) == 0
  {
    if |calls| > 0 {
      var init, c := calls[..|calls| - 1], calls[|calls| - 1];
      if from < |calls| {
        PolicyBudgetBound(p, b, init, from);
        assert from < |init| ==> init[|init| - 1].now == c.now;
      } else {
        PolicyBudgetBound(p, b, init, |init|);
      }
      EarlyCheckExact(p, After(p, b, init), c.now, c.n, c.selected);
    }
  }
}
