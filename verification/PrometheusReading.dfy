/**
 What the rendered metrics say: every line is read back to the name, the labels, the number and the time it was made
 from, for every kind of metric.
 */
module PrometheusReading {
  import opened Base
  import opened Prometheus

  // ---- Numbers ----

  /** The number a non-empty string of digits stands for; nothing else is a number. */
  function ParseNat(s: string): Option<nat> {
    if s != "" && forall i :: 0 <= i < |s| ==> '0' <= s[i] <= '9' then Some(ReadDecimal(s)) else None
  }

  /** A number, or a minus sign and a number. */
  function ParseInt(s: string): Option<int> {
    if s != "" && s[0] == '-' then
      match ParseNat(s[1..])
      case None => None
      case Some(n) => var i: int := n; Some(-i)
    else
      match ParseNat(s)
      case None => None
      case Some(n) => Some(n)
  }

  lemma NatRoundTrip(n: nat)
    ensures ParseNat(Decimal(n)) == Some(n)
  {
    var s := Decimal(n);
    DecimalRoundTrip(n);
    assert forall i :: 0 <= i < |s| ==> IsDigit(s[i]);
  }

  /** Integers are read back with their sign. */
  lemma IntRoundTrip(i: int)
    ensures ParseInt(IntText(i)) == Some(i)
  {
    hide Decimal;
    if i < 0 {
      NatRoundTrip(-i);
      assert ("-" + Decimal(-i))[1..] == Decimal(-i);
    } else {
      NatRoundTrip(i);
      assert IsDigit(Decimal(i)[0]);
    }
  }

  // ---- Lines ----

  /** Only letters, digits and the four signs that are not replaced: such names are written as they are. */
  predicate Clean(k: string) {
    forall i :: 0 <= i < |k| ==> NameChar(k[i]) && k[i] != '_'
  }

  /** The characters of names by their codes: from '-' to ':', the letters and the underscore. */
  lemma NameCharacters(c: char)
    ensures NameChar(c) <==> var n := c as int; 45 <= n <= 58 || 65 <= n <= 90 || n == 95 || 97 <= n <= 122
  {}

  /** The value shown under a name: the point's own label, else the additional one, else the resource's attribute. */
  function Shown(attr: Attributes, labels: Attributes, extra: Option<(string, string)>, k: string): Option<string> {
    match LastLabel(labels, k)
    case Some(Text(t)) => Some(t)
    case Some(Other(_)) => Some("")
    case None =>
      if extra.Some? && extra.value.0 == k then Some(extra.value.1)
      else
        match Lookup(attr, k)
        case Some(Text(t)) => Some(t)
        case Some(Other(r)) => Some(r)
        case None => None
  }

  /** The line is read back to this name, these labels, this value and this time, in milliseconds. */
  ghost predicate Reads(line: string, name: string, attr: Attributes, labels: Attributes,
                        extra: Option<(string, string)>, value: string, ts: nat) {
    var r := ParseLine(line);
    && r.Some? && r.value.name == SanitizeKey(name) && r.value.value == value
    && ParseNat(r.value.ts) == Some(ts / 1_000_000)
    && forall k :: Clean(k) ==> ReadLabel(r.value.labels, k) == Shown(attr, labels, extra, k)
  }

  /** The same, with a count for its value. */
  ghost predicate Counts(line: string, name: string, attr: Attributes, labels: Attributes,
                         extra: Option<(string, string)>, n: nat, ts: nat) {
    exists text :: Reads(line, name, attr, labels, extra, text, ts) && ParseNat(text) == Some(n)
  }

  lemma ShownPlain(attr: Attributes, labels: Attributes, k: string)
    requires Clean(k)
    ensures ReadLabel(Labels(WithLabels(attr, labels)), k) == Shown(attr, labels, None, k)
  {
    hide Labels, WithLabels, ReadLabel, LastLabel, Lookup;
    ReadLabelIsLookup(WithLabels(attr, labels), k);
    LabelsOverride(attr, labels, k);
  }

  lemma ShownExtra(attr: Attributes, labels: Attributes, key: string, v: Value, k: string)
    requires Clean(k)
    ensures ReadLabel(Labels(WithLabels(MergeAttributes(attr, [(key, v)]), labels)), k)
         == Shown(attr, labels, Some((key, AsString(v))), k)
  {
    hide Labels, WithLabels, ReadLabel, LastLabel, Lookup, MergeAttributes, PutValue;
    var merged := MergeAttributes(attr, [(key, v)]);
    ReadLabelIsLookup(WithLabels(merged, labels), k);
    LabelsOverride(merged, labels, k);
    MergeOne(attr, key, v);
    PutLookup(attr, key, v, k);
  }

  lemma PlainReads(name: string, attr: Attributes, labels: Attributes, value: string, ts: nat)
    requires NumberText(value)
    ensures Reads(PointLine(name, attr, labels, value, ts), name, attr, labels, None, value, ts)
  {
    hide Line, ParseLine, RenderTags, Labels, WithLabels, Decimal, ReadLabel, Shown;
    LineRoundTrip(name, WithLabels(attr, labels), value, ts);
    NatRoundTrip(ts / 1_000_000);
    forall k | Clean(k) ensures ReadLabel(Labels(WithLabels(attr, labels)), k) == Shown(attr, labels, None, k) {
      ShownPlain(attr, labels, k);
    }
  }

  lemma ExtraReads(name: string, attr: Attributes, key: string, v: Value, labels: Attributes, value: string, ts: nat)
    requires NumberText(value)
    ensures Reads(PointLine(name, MergeAttributes(attr, [(key, v)]), labels, value, ts),
                  name, attr, labels, Some((key, AsString(v))), value, ts)
  {
    hide Line, ParseLine, RenderTags, Labels, WithLabels, Decimal, ReadLabel, Shown, MergeAttributes;
    var merged := MergeAttributes(attr, [(key, v)]);
    LineRoundTrip(name, WithLabels(merged, labels), value, ts);
    NatRoundTrip(ts / 1_000_000);
    forall k | Clean(k)
      ensures ReadLabel(Labels(WithLabels(merged, labels)), k) == Shown(attr, labels, Some((key, AsString(v))), k)
    {
      ShownExtra(attr, labels, key, v, k);
    }
  }

  // ---- Points ----

  /** A point of a gauge or a sum: its integer or its text; nothing if it has no value. */
  ghost predicate NumberRead(line: string, name: string, attr: Attributes, p: NumberPoint) {
    match p.value
    case IntNumber(n) =>
      exists text :: Reads(line, name, attr, p.labels, None, text, p.ts) && ParseInt(text) == Some(n)
    case DoubleNumber(t) => Reads(line, name, attr, p.labels, None, t, p.ts)
    case NoNumber => line == ""
  }

  lemma NumberReads(name: string, attr: Attributes, p: NumberPoint)
    requires p.value.DoubleNumber? ==> NumberText(p.value.text)
    ensures NumberRead(NumberLine(name, attr, p), name, attr, p)
  {
    hide Reads, PointLine, IntText, ParseInt;
    match p.value
    case IntNumber(n) =>
      IntTextIsNumber(n);
      IntRoundTrip(n);
      PlainReads(name, attr, p.labels, IntText(n), p.ts);
    case DoubleNumber(t) => PlainReads(name, attr, p.labels, t, p.ts);
    case NoNumber =>
  }

  /** The two lines that end a summary or a histogram: its sum and its count. */
  ghost predicate EndRead(lines: seq<string>, name: string, attr: Attributes, labels: Attributes,
                          sum: string, count: nat, ts: nat) {
    && |lines| >= 2
    && Reads(lines[|lines| - 2], name + "_sum", attr, labels, None, sum, ts)
    && Counts(lines[|lines| - 1], name + "_count", attr, labels, None, count, ts)
  }

  lemma EndReads(lines: seq<string>, name: string, attr: Attributes, labels: Attributes,
                 sum: string, count: nat, ts: nat)
    requires |lines| >= 2 && NumberText(sum)
    requires lines[|lines| - 2] == PointLine(name + "_sum", attr, labels, sum, ts)
    requires lines[|lines| - 1] == PointLine(name + "_count", attr, labels, Decimal(count), ts)
    ensures EndRead(lines, name, attr, labels, sum, count, ts)
  {
    hide Reads, PointLine, Decimal, ParseNat;
    PlainReads(name + "_sum", attr, labels, sum, ts);
    DecimalIsNumber(count);
    NatRoundTrip(count);
    PlainReads(name + "_count", attr, labels, Decimal(count), ts);
  }

  /** A summary: a line for each quantile with its value, then the sum and the count. */
  ghost predicate SummaryRead(lines: seq<string>, name: string, attr: Attributes, p: SummaryPoint) {
    && |lines| == |p.quantiles| + 2
    && (forall i :: 0 <= i < |p.quantiles| ==>
          Reads(lines[i], name, attr, p.labels, Some(("quantile", p.quantiles[i].0)), p.quantiles[i].1, p.ts))
    && EndRead(lines, name, attr, p.labels, p.sum, p.count, p.ts)
  }

  lemma SummaryReads(name: string, attr: Attributes, p: SummaryPoint)
    requires ValidSummary(p)
    ensures SummaryRead(SummaryLines(name, attr, p), name, attr, p)
  {
    hide Reads, PointLine, Decimal, MergeAttributes, EndRead;
    var lines := SummaryLines(name, attr, p);
    forall i | 0 <= i < |p.quantiles|
      ensures Reads(lines[i], name, attr, p.labels, Some(("quantile", p.quantiles[i].0)), p.quantiles[i].1, p.ts)
    {
      assert lines[i] == QuantileLine(name, attr, p, i);
      ExtraReads(name, attr, "quantile", Other(p.quantiles[i].0), p.labels, p.quantiles[i].1, p.ts);
    }
    EndReads(lines, name, attr, p.labels, p.sum, p.count, p.ts);
  }

  /** The counter of a bucket has 64 bits. */
  function Wrapped(n: nat): nat {
    n % 0x1_0000_0000_0000_0000
  }

  lemma {:induction false} CumulativeWraps(buckets: seq<nat>, n: nat)
    requires n <= |buckets|
    ensures Cumulative(buckets, n) == Wrapped(Total(buckets, n))
  {
    if n > 0 {
      CumulativeWraps(buckets, n - 1);
      WrappedSum(Total(buckets, n - 1), buckets[n - 1]);
    }
  }

  lemma WrappedSum(a: nat, b: nat)
    ensures Wrapped(Wrapped(a) + b) == Wrapped(a + b)
  {
    var m := 0x1_0000_0000_0000_0000;
    var q, r := a / m, a % m;
    var q', r' := (r + b) / m, (r + b) % m;
    Remainder(a + b, q + q', r');
  }

  lemma Remainder(x: nat, q: nat, r: nat)
    requires x == 0x1_0000_0000_0000_0000 * q + r && r < 0x1_0000_0000_0000_0000
    ensures Wrapped(x) == r
  {}

  /** A histogram with bounds: the observations up to each bound and in all, then the sum and the count. */
  ghost predicate HistogramRead(lines: seq<string>, name: string, attr: Attributes, p: HistogramPoint)
    requires ValidHistogram(p)
  {
    if p.bounds == [] then lines == []
    else
      && |lines| == |p.bounds| + 3
      && (forall i :: 0 <= i <= |p.bounds| ==>
            Counts(lines[i], name, attr, p.labels, Some(("le", if i < |p.bounds| then p.bounds[i] else "+Inf")),
                   Wrapped(Total(p.buckets, i + 1)), p.ts))
      && EndRead(lines, name, attr, p.labels, p.sum, p.count, p.ts)
  }

  lemma HistogramReads(name: string, attr: Attributes, p: HistogramPoint)
    requires ValidHistogram(p)
    ensures HistogramRead(HistogramLines(name, attr, p), name, attr, p)
  {
    hide Reads, PointLine, Decimal, MergeAttributes, EndRead, Wrapped, Total, Cumulative, ParseNat;
    if p.bounds != [] {
      var lines := HistogramLines(name, attr, p);
      forall i | 0 <= i <= |p.bounds|
        ensures Counts(lines[i], name, attr, p.labels, Some(("le", if i < |p.bounds| then p.bounds[i] else "+Inf")),
                       Wrapped(Total(p.buckets, i + 1)), p.ts)
      {
        var le := if i < |p.bounds| then Other(p.bounds[i]) else Text("+Inf");
        var n := Cumulative(p.buckets, i + 1);
        assert lines[i] == BucketLine(name, attr, p, i);
        CumulativeWraps(p.buckets, i + 1);
        DecimalIsNumber(n);
        NatRoundTrip(n);
        ExtraReads(name, attr, "le", le, p.labels, Decimal(n), p.ts);
      }
      EndReads(lines, name, attr, p.labels, p.sum, p.count, p.ts);
    }
  }

  // ---- Metrics ----

  /** The lines fall into consecutive groups, one for each summary. */
  ghost predicate SummariesRead(lines: seq<string>, name: string, attr: Attributes, ps: seq<SummaryPoint>)
    decreases |ps|
  {
    if |ps| == 0 then lines == []
    else exists n :: 0 <= n <= |lines| && SummariesRead(lines[..n], name, attr, ps[..|ps| - 1])
                  && SummaryRead(lines[n..], name, attr, ps[|ps| - 1])
  }

  lemma {:induction false} AllSummariesRead(name: string, attr: Attributes, ps: seq<SummaryPoint>)
    requires forall i :: 0 <= i < |ps| ==> ValidSummary(ps[i])
    ensures SummariesRead(AllSummaries(name, attr, ps), name, attr, ps)
  {
    hide SummaryRead, SummaryLines;
    if |ps| > 0 {
      var k := |ps| - 1;
      AllSummariesRead(name, attr, ps[..k]);
      SummaryReads(name, attr, ps[k]);
      var lines, n := AllSummaries(name, attr, ps), |AllSummaries(name, attr, ps[..k])|;
      assert lines[..n] == AllSummaries(name, attr, ps[..k]) && lines[n..] == SummaryLines(name, attr, ps[k]);
    }
  }

  /** The lines fall into consecutive groups, one for each histogram. */
  ghost predicate HistogramsRead(lines: seq<string>, name: string, attr: Attributes, ps: seq<HistogramPoint>)
    requires forall i :: 0 <= i < |ps| ==> ValidHistogram(ps[i])
    decreases |ps|
  {
    if |ps| == 0 then lines == []
    else exists n :: 0 <= n <= |lines| && HistogramsRead(lines[..n], name, attr, ps[..|ps| - 1])
                  && HistogramRead(lines[n..], name, attr, ps[|ps| - 1])
  }

  lemma {:induction false} AllHistogramsRead(name: string, attr: Attributes, ps: seq<HistogramPoint>)
    requires forall i :: 0 <= i < |ps| ==> ValidHistogram(ps[i])
    ensures HistogramsRead(AllHistograms(name, attr, ps), name, attr, ps)
  {
    hide HistogramRead, HistogramLines;
    if |ps| > 0 {
      var k := |ps| - 1;
      AllHistogramsRead(name, attr, ps[..k]);
      HistogramReads(name, attr, ps[k]);
      var lines, n := AllHistograms(name, attr, ps), |AllHistograms(name, attr, ps[..k])|;
      assert lines[..n] == AllHistograms(name, attr, ps[..k]) && lines[n..] == HistogramLines(name, attr, ps[k]);
    }
  }

  ghost predicate NumbersRead(lines: seq<string>, name: string, attr: Attributes, ps: seq<NumberPoint>) {
    |lines| == |ps| && forall i :: 0 <= i < |ps| ==> NumberRead(lines[i], name, attr, ps[i])
  }

  /** What the lines of a metric say. */
  ghost predicate MetricRead(lines: seq<string>, m: Metric, attr: Attributes)
    requires ValidMetric(m)
  {
    match m
    case Gauge(name, ps) => NumbersRead(lines, name, attr, ps)
    case Sum(name, ps) => NumbersRead(lines, name, attr, ps)
    case Summary(name, ps) => SummariesRead(lines, name, attr, ps)
    case Histogram(name, ps) => HistogramsRead(lines, name, attr, ps)
    case OtherMetric(_) => lines == []
  }

  lemma MetricLinesRead(m: Metric, attr: Attributes)
    requires ValidMetric(m)
    ensures MetricRead(MetricLines(m, attr), m, attr)
  {
    hide NumberLine, NumberRead, SummariesRead, HistogramsRead, AllSummaries, AllHistograms;
    match m
    case Gauge(name, ps) =>
      forall i | 0 <= i < |ps| ensures NumberRead(NumberLine(name, attr, ps[i]), name, attr, ps[i]) {
        NumberReads(name, attr, ps[i]);
      }
    case Sum(name, ps) =>
      forall i | 0 <= i < |ps| ensures NumberRead(NumberLine(name, attr, ps[i]), name, attr, ps[i]) {
        NumberReads(name, attr, ps[i]);
      }
    case Summary(name, ps) => AllSummariesRead(name, attr, ps);
    case Histogram(name, ps) => AllHistogramsRead(name, attr, ps);
    case OtherMetric(_) =>
  }

  /**
   What is sent for a metric can be read: splitting the text on newlines gives lines that say for every point of the
   metric its name, labels, numbers and time; only a metric without any line is sent as nothing.
   */
  lemma MetricReadsBack(m: Metric, attr: Attributes)
    requires ValidMetric(m)
    ensures
      var text := JoinLines(MetricLines(m, attr));
      (MetricRead([], m, attr) && text == "") || MetricRead(SplitLines(text), m, attr)
  {
    hide MetricRead, MetricLines, SplitLines, JoinLines, OneLine;
    MetricLinesRead(m, attr);
    MetricLinesOneLine(m, attr);
    var lines := MetricLines(m, attr);
    if lines == [] {
      assert JoinLines([]) == "" by { JoinNothing(); }
    } else {
      LinesRoundTrip(lines);
    }
  }

  lemma JoinNothing()
    ensures JoinLines([]) == ""
  {}

  /** The format itself, on a block of two labels. */
  lemma TagsExample()
    ensures RenderTags([("host", "h"), ("a", "\"")]) == "{host=\"h\",a=\"\\\"\"}"
  {
    var a, b := ("host", "h"), ("a", "\"");
    assert SanitizeValue("h") == "h" by {
      assert "h"[1..] == "";
    }
    assert SanitizeValue("\"") == "\\\"" by {
      assert "\""[1..] == "";
    }
    assert [a, b][1..] == [b];
    assert JoinPairs([b]) == RenderPair(b) && JoinPairs([a, b]) == RenderPair(a) + "," + RenderPair(b);
    assert RenderPair(a) == "host=\"h\"" && RenderPair(b) == "a=\"\\\"\"";
  }

  /** And on a whole line. */
  lemma LineExample()
    ensures Line("a b", "{c=\"d\"}", "-5", 2_000_000) == "a_b{c=\"d\"} -5 2"
  {
    assert SanitizeKey("a b") == "a_b";
    assert Decimal(2) == "2";
  }
}
