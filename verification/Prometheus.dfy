/**
 prometheus_formatter.go: rendering metrics as lines of the Prometheus text format, with a parser for what
 is rendered. Strings are sequences of characters; numbers in %g format are inputs.
 */
module Prometheus {
  import opened Base

  // ---- Names and values ----

  predicate NameChar(c: char) {
    '0' <= c <= '9' || 'a' <= c <= 'z' || 'A' <= c <= 'Z' || c == '.' || c == '/' || c == '_' || c == ':' || c == '-'
  }

  /** Every character that is not allowed in a name becomes an underscore. */
  function SanitizeKey(s: string): (r: string)
    ensures |r| == |s|
    ensures forall i :: 0 <= i < |r| ==> NameChar(r[i]) && (r[i] == s[i] || (!NameChar(s[i]) && r[i] == '_'))
  {
    seq(|s|, i requires 0 <= i < |s| => if NameChar(s[i]) then s[i] else '_')
  }

  function Escape(c: char): string {
    if c == '\\' then "\\\\" else if c == '"' then "\\\"" else if c == '\n' then "\\n" else [c]
  }

  /** Backslashes, quotes and newlines are escaped, everything else is left alone. */
  function SanitizeValue(s: string): string {
    if |s| == 0 then "" else Escape(s[0]) + SanitizeValue(s[1..])
  }

  datatype Value = Text(text: string) | Other(rendered: string)

  /** The string held by the value; "" when it holds something else. */
  function Str(v: Value): string {
    if v.Text? then v.text else ""
  }

  function AsString(v: Value): string {
    if v.Text? then v.text else v.rendered
  }

  /** Attributes keep the order in which they were added. */
  type Attributes = seq<(string, Value)>

  function PutValue(m: Attributes, k: string, v: Value): Attributes {
    if |m| == 0 then [(k, v)]
    else if m[0].0 == k then [(k, v)] + m[1..]
    else [m[0]] + PutValue(m[1..], k, v)
  }

  /** Labels override attributes of the same name; only their string values are used. */
  function WithLabels(attr: Attributes, labels: Attributes): Attributes {
    if |labels| == 0 then attr
    else
      var n := |labels| - 1;
      PutValue(WithLabels(attr, labels[..n]), labels[n].0, Text(Str(labels[n].1)))
  }

  function MergeAttributes(attr: Attributes, additional: Attributes): Attributes {
    if |additional| == 0 then attr
    else
      var n := |additional| - 1;
      PutValue(MergeAttributes(attr, additional[..n]), additional[n].0, additional[n].1)
  }

  /** The value of the first attribute of that name. */
  function Lookup(m: Attributes, k: string): Option<Value> {
    if |m| == 0 then None else if m[0].0 == k then Some(m[0].1) else Lookup(m[1..], k)
  }

  predicate DistinctNames(m: Attributes) {
    forall i, j :: 0 <= i < j < |m| ==> m[i].0 != m[j].0
  }

  /** Putting a value sets that name, keeps every other, and never repeats a name. */
  lemma {:induction false} PutLookup(m: Attributes, k: string, v: Value, j: string)
    ensures Lookup(PutValue(m, k, v), j) == if j == k then Some(v) else Lookup(m, j)
    ensures forall i :: 0 <= i < |PutValue(m, k, v)| ==>
      PutValue(m, k, v)[i].0 == k || exists n :: 0 <= n < |m| && m[n].0 == PutValue(m, k, v)[i].0
    ensures DistinctNames(m) ==> DistinctNames(PutValue(m, k, v))
  {
    if |m| > 0 && m[0].0 != k {
      PutLookup(m[1..], k, v, j);
      var r := PutValue(m[1..], k, v);
      assert PutValue(m, k, v) == [m[0]] + r;
      forall i | 0 <= i < |r| ensures r[i].0 == k || exists n :: 0 < n < |m| && m[n].0 == r[i].0 {
        if r[i].0 != k {
          var n :| 0 <= n < |m[1..]| && m[1..][n].0 == r[i].0;
          assert m[n + 1].0 == r[i].0;
        }
      }
    }
  }

  /** The last label of that name. */
  function LastLabel(labels: Attributes, k: string): Option<Value> {
    if |labels| == 0 then None
    else if labels[|labels| - 1].0 == k then Some(labels[|labels| - 1].1)
    else LastLabel(labels[..|labels| - 1], k)
  }

  /** A label hides the attribute of its name, the last one of that name wins, and every name is rendered once. */
  lemma {:induction false} LabelsOverride(attr: Attributes, labels: Attributes, k: string)
    ensures Lookup(WithLabels(attr, labels), k)
         == match LastLabel(labels, k) case None => Lookup(attr, k) case Some(v) => Some(Text(Str(v)))
    ensures DistinctNames(attr) ==> DistinctNames(WithLabels(attr, labels))
  {
    hide PutValue, Lookup, DistinctNames;
    if |labels| > 0 {
      var n := |labels| - 1;
      LabelsOverride(attr, labels[..n], k);
      PutLookup(WithLabels(attr, labels[..n]), labels[n].0, Text(Str(labels[n].1)), k);
    }
  }

  // ---- Label blocks ----

  type Label = (string, string)

  /** What a label block says: sanitized names with the original values. */
  function Labels(m: Attributes): seq<Label> {
    if |m| == 0 then [] else [(SanitizeKey(m[0].0), AsString(m[0].1))] + Labels(m[1..])
  }

  function FormatPair(key: string, value: string): string {
    key + "=" + "\"" + value + "\""
  }

  function RenderPair(l: Label): string {
    FormatPair(l.0, SanitizeValue(l.1))
  }

  function JoinPairs(ls: seq<Label>): string {
    if |ls| == 0 then "" else if |ls| == 1 then RenderPair(ls[0]) else RenderPair(ls[0]) + "," + JoinPairs(ls[1..])
  }

  function RenderTags(ls: seq<Label>): string {
    if |ls| == 0 then "" else "{" + JoinPairs(ls) + "}"
  }

  // ---- Parsing label blocks ----

  /** The text before and after the first occurrence of c. */
  function Until(s: string, c: char): Option<(string, string)> {
    if |s| == 0 then None
    else if s[0] == c then Some(("", s[1..]))
    else
      match Until(s[1..], c)
      case None => None
      case Some(p) => Some(([s[0]] + p.0, p.1))
  }

  /** The value up to the closing quote, and what follows it. */
  function ParseValue(s: string): Option<(string, string)> {
    if |s| == 0 then None
    else if s[0] == '"' then Some(("", s[1..]))
    else if s[0] == '\\' then
      if |s| < 2 then None
      else
        var c := if s[1] == 'n' then '\n' else s[1];
        match ParseValue(s[2..])
        case None => None
        case Some(p) => Some(([c] + p.0, p.1))
    else
      match ParseValue(s[1..])
      case None => None
      case Some(p) => Some(([s[0]] + p.0, p.1))
  }

  lemma {:induction false} UntilShort(s: string, c: char)
    ensures Until(s, c).Some? ==> |Until(s, c).value.1| < |s|
  {
    if |s| > 0 && s[0] != c {
      UntilShort(s[1..], c);
    }
  }

  lemma {:induction false} ParseValueShort(s: string)
    ensures ParseValue(s).Some? ==> |ParseValue(s).value.1| < |s|
    decreases |s|
  {
    if |s| > 0 && s[0] != '"' {
      if s[0] == '\\' && |s| >= 2 {
        ParseValueShort(s[2..]);
      } else if s[0] != '\\' {
        ParseValueShort(s[1..]);
      }
    }
  }

  /** The pairs up to the closing brace, and what follows it. */
  function ParsePairs(s: string): Option<(seq<Label>, string)>
    decreases |s|
  {
    match Until(s, '=')
    case None => None
    case Some(k) =>
      if |k.1| == 0 || k.1[0] != '"' then None
      else
        match ParseValue(k.1[1..])
        case None => None
        case Some(v) =>
          UntilShort(s, '=');
          ParseValueShort(k.1[1..]);
          if |v.1| == 0 then None
          else if v.1[0] == '}' then Some(([(k.0, v.0)], v.1[1..]))
          else if v.1[0] == ',' then
            match ParsePairs(v.1[1..])
            case None => None
            case Some(rest) => Some(([(k.0, v.0)] + rest.0, rest.1))
          else None
  }

  function ParseTags(s: string): Option<(seq<Label>, string)> {
    if |s| > 0 && s[0] == '{' then ParsePairs(s[1..]) else Some(([], s))
  }

  // ---- Labels round trip ----

  lemma {:induction false} UntilStops(k: string, c: char, rest: string)
    requires forall i :: 0 <= i < |k| ==> k[i] != c
    ensures Until(k + [c] + rest, c) == Some((k, rest))
  {
    var s := k + [c] + rest;
    if |k| == 0 {
      assert s[1..] == rest;
    } else {
      assert s[1..] == k[1..] + [c] + rest;
      UntilStops(k[1..], c, rest);
      assert [k[0]] + k[1..] == k;
    }
  }

  /** Whatever the value holds, the parser reads it back and stops at its closing quote. */
  lemma {:induction false} ValueRoundTrip(v: string, rest: string)
    ensures ParseValue(SanitizeValue(v) + "\"" + rest) == Some((v, rest))
  {
    var s := SanitizeValue(v) + "\"" + rest;
    if |v| == 0 {
      assert s[1..] == rest;
    } else {
      var e, tail := Escape(v[0]), SanitizeValue(v[1..]) + "\"" + rest;
      assert s == e + tail;
      ValueRoundTrip(v[1..], rest);
      assert [v[0]] + v[1..] == v;
      if |e| == 2 {
        assert s[2..] == tail;
      } else {
        assert s[1..] == tail;
      }
    }
  }

  lemma PairParses(l: Label, tail: string)
    requires forall i :: 0 <= i < |l.0| ==> NameChar(l.0[i])
    ensures
      var s := RenderPair(l) + tail;
      && Until(s, '=').Some? && Until(s, '=').value.0 == l.0
      && var after := Until(s, '=').value.1;
         |after| > 0 && after[0] == '"' && ParseValue(after[1..]) == Some((l.1, tail))
  {
    var v := SanitizeValue(l.1);
    var s := RenderPair(l) + tail;
    var after := "\"" + v + "\"" + tail;
    assert s == l.0 + ['='] + after;
    UntilStops(l.0, '=', after);
    assert after[1..] == v + "\"" + tail;
    ValueRoundTrip(l.1, tail);
  }

  lemma {:induction false} PairsRoundTrip(ls: seq<Label>, rest: string)
    requires ls != [] && forall j :: 0 <= j < |ls| ==> forall i :: 0 <= i < |ls[j].0| ==> NameChar(ls[j].0[i])
    ensures ParsePairs(JoinPairs(ls) + "}" + rest) == Some((ls, rest))
  {
    hide RenderPair, Until, ParseValue;
    if |ls| == 1 {
      var tail := "}" + rest;
      assert JoinPairs(ls) + "}" + rest == RenderPair(ls[0]) + tail;
      PairParses(ls[0], tail);
      assert tail[1..] == rest && ls == [ls[0]];
    } else {
      var tail := "," + (JoinPairs(ls[1..]) + "}" + rest);
      assert JoinPairs(ls) + "}" + rest == RenderPair(ls[0]) + tail;
      PairParses(ls[0], tail);
      assert tail[1..] == JoinPairs(ls[1..]) + "}" + rest;
      PairsRoundTrip(ls[1..], rest);
      assert [ls[0]] + ls[1..] == ls;
    }
  }

  lemma {:induction false} LabelsAreNames(m: Attributes)
    ensures |Labels(m)| == |m|
    ensures forall j :: 0 <= j < |m| ==>
      Labels(m)[j].1 == AsString(m[j].1) && forall i :: 0 <= i < |Labels(m)[j].0| ==> NameChar(Labels(m)[j].0[i])
  {
    if |m| > 0 {
      LabelsAreNames(m[1..]);
    }
  }

  /** The parser recovers from a rendered label block exactly the sanitized names and the original values. */
  lemma TagsRoundTrip(m: Attributes, rest: string)
    requires |rest| == 0 || rest[0] != '{'
    ensures ParseTags(RenderTags(Labels(m)) + rest) == Some((Labels(m), rest))
  {
    hide ParsePairs, JoinPairs, Labels;
    var ls := Labels(m);
    LabelsAreNames(m);
    if ls == [] {
      assert RenderTags(ls) + rest == rest;
    } else {
      var s := RenderTags(ls) + rest;
      assert s[1..] == JoinPairs(ls) + "}" + rest;
      PairsRoundTrip(ls, rest);
    }
  }

  // ---- Lines ----

  predicate IsDigit(c: char) {
    '0' <= c <= '9'
  }

  function Decimal(n: nat): (s: string)
    ensures s != "" && forall i :: 0 <= i < |s| ==> IsDigit(s[i])
  {
    if n < 10 then ['0' + n as char] else Decimal(n / 10) + ['0' + (n % 10) as char]
  }

  /** The number a string of digits stands for. */
  function ReadDecimal(s: string): nat {
    if |s| == 0 then 0
    else
      var c := s[|s| - 1];
      10 * ReadDecimal(s[..|s| - 1]) + if IsDigit(c) then c as int - '0' as int else 0
  }

  /** Numbers are read back, so different numbers are written differently. */
  lemma {:induction false} DecimalRoundTrip(n: nat)
    ensures ReadDecimal(Decimal(n)) == n
  {
    if n >= 10 {
      DecimalRoundTrip(n / 10);
      assert Decimal(n)[..|Decimal(n)| - 1] == Decimal(n / 10);
    } else {
      assert Decimal(n)[..0] == [];
    }
  }

  function IntText(i: int): string {
    if i < 0 then "-" + Decimal(-i) else Decimal(i)
  }

  /** A rendered number: neither blank nor newline. */
  predicate NumberText(s: string) {
    forall i :: 0 <= i < |s| ==> s[i] != ' ' && s[i] != '\n'
  }

  lemma DecimalIsNumber(n: nat)
    ensures NumberText(Decimal(n))
  {
    var s := Decimal(n);
    assert forall i :: 0 <= i < |s| ==> IsDigit(s[i]);
  }

  lemma IntTextIsNumber(i: int)
    ensures NumberText(IntText(i))
  {
    DecimalIsNumber(if i < 0 then -i else i);
  }

  /** Timestamps are in nanoseconds and written in milliseconds. */
  function Line(name: string, tags: string, value: string, ts: nat): string {
    SanitizeKey(name) + tags + " " + value + " " + Decimal(ts / 1_000_000)
  }

  datatype Parsed = Parsed(name: string, labels: seq<Label>, value: string, ts: string)

  /** The longest prefix of name characters, and what follows it. */
  function TakeName(s: string): (string, string) {
    if |s| == 0 || !NameChar(s[0]) then ("", s)
    else var p := TakeName(s[1..]); ([s[0]] + p.0, p.1)
  }

  function ParseLine(s: string): Option<Parsed> {
    var p := TakeName(s);
    match ParseTags(p.1)
    case None => None
    case Some(t) =>
      if |t.1| == 0 || t.1[0] != ' ' then None
      else
        match Until(t.1[1..], ' ')
        case None => None
        case Some(v) => Some(Parsed(p.0, t.0, v.0, v.1))
  }

  lemma {:induction false} TakeNameStops(k: string, rest: string)
    requires (forall i :: 0 <= i < |k| ==> NameChar(k[i])) && (|rest| > 0 ==> !NameChar(rest[0]))
    ensures TakeName(k + rest) == (k, rest)
  {
    if |k| == 0 {
      assert k + rest == rest;
    } else {
      assert (k + rest)[1..] == k[1..] + rest;
      TakeNameStops(k[1..], rest);
      assert [k[0]] + k[1..] == k;
    }
  }

  lemma AfterName(ls: seq<Label>, end: string)
    requires |end| > 0 && end[0] == ' '
    ensures !NameChar((RenderTags(ls) + end)[0])
  {}

  /** A rendered line can be read back whole: name, labels, value and time. */
  lemma LineRoundTrip(name: string, m: Attributes, value: string, ts: nat)
    requires NumberText(value)
    ensures ParseLine(Line(name, RenderTags(Labels(m)), value, ts))
         == Some(Parsed(SanitizeKey(name), Labels(m), value, Decimal(ts / 1_000_000)))
  {
    hide ParseTags, RenderTags, Labels, Until, TakeName, SanitizeKey, Decimal;
    var k, tags, time := SanitizeKey(name), RenderTags(Labels(m)), Decimal(ts / 1_000_000);
    var end := " " + value + " " + time;
    var s := Line(name, tags, value, ts);
    assert s == k + (tags + end);
    assert !NameChar((tags + end)[0]) by { AfterName(Labels(m), end); }
    TakeNameStops(k, tags + end);
    TagsRoundTrip(m, end);
    assert end[1..] == value + [' '] + time;
    UntilStops(value, ' ', time);
  }

  // ---- No newline inside a line ----

  predicate OneLine(s: string) {
    forall i :: 0 <= i < |s| ==> s[i] != '\n'
  }

  lemma {:induction false} ValueOneLine(v: string)
    ensures OneLine(SanitizeValue(v))
  {
    if |v| > 0 {
      ValueOneLine(v[1..]);
    }
  }

  lemma NameOneLine(s: string)
    ensures OneLine(SanitizeKey(s))
  {
    assert forall i :: 0 <= i < |s| ==> NameChar(SanitizeKey(s)[i]);
  }

  lemma {:induction false} PairsOneLine(m: Attributes)
    ensures OneLine(JoinPairs(Labels(m)))
  {
    if |m| > 0 {
      NameOneLine(m[0].0);
      ValueOneLine(AsString(m[0].1));
      PairsOneLine(m[1..]);
      LabelsAreNames(m);
      assert Labels(m)[1..] == Labels(m[1..]);
    }
  }

  lemma LineOneLine(name: string, m: Attributes, value: string, ts: nat)
    requires NumberText(value)
    ensures OneLine(Line(name, RenderTags(Labels(m)), value, ts))
  {
    hide JoinPairs, Labels;
    NameOneLine(name);
    PairsOneLine(m);
    DecimalIsNumber(ts / 1_000_000);
  }

  // ---- Joining and splitting lines ----

  function JoinLines(lines: seq<string>): string {
    if |lines| == 0 then "" else if |lines| == 1 then lines[0] else lines[0] + "\n" + JoinLines(lines[1..])
  }

  function SplitLines(s: string): seq<string>
    decreases |s|
  {
    match Until(s, '\n')
    case None => [s]
    case Some(p) => UntilShort(s, '\n'); [p.0] + SplitLines(p.1)
  }

  lemma {:induction false} UntilNone(s: string, c: char)
    requires forall i :: 0 <= i < |s| ==> s[i] != c
    ensures Until(s, c) == None
  {
    if |s| > 0 {
      UntilNone(s[1..], c);
    }
  }

  /** Splitting on newlines recovers a non-empty list of lines. */
  lemma {:induction false} LinesRoundTrip(lines: seq<string>)
    requires lines != [] && forall i :: 0 <= i < |lines| ==> OneLine(lines[i])
    ensures SplitLines(JoinLines(lines)) == lines
  {
    if |lines| == 1 {
      UntilNone(lines[0], '\n');
    } else {
      UntilStops(lines[0], '\n', JoinLines(lines[1..]));
      assert JoinLines(lines) == lines[0] + ['\n'] + JoinLines(lines[1..]);
      LinesRoundTrip(lines[1..]);
    }
  }

  // ---- Metrics ----

  datatype Number = IntNumber(int64: int) | DoubleNumber(text: string) | NoNumber

  datatype NumberPoint = NumberPoint(labels: Attributes, ts: nat, value: Number)

  /** Quantiles with their values, and the sum, all in %g format. */
  datatype SummaryPoint =
    SummaryPoint(labels: Attributes, ts: nat, quantiles: seq<(string, string)>, sum: string, count: nat)

  datatype HistogramPoint =
    HistogramPoint(labels: Attributes, ts: nat, bounds: seq<string>, buckets: seq<nat>, sum: string, count: nat)

  datatype Metric =
    | Gauge(name: string, points: seq<NumberPoint>)
    | Sum(name: string, points: seq<NumberPoint>)
    | Summary(name: string, summaries: seq<SummaryPoint>)
    | Histogram(name: string, histograms: seq<HistogramPoint>)
    | OtherMetric(name: string)

  /** Texts that stand for numbers are numbers; a histogram point has a bucket beyond every bound. */
  predicate ValidMetric(m: Metric) {
    match m
    case Gauge(_, ps) => forall i :: 0 <= i < |ps| && ps[i].value.DoubleNumber? ==> NumberText(ps[i].value.text)
    case Sum(_, ps) => forall i :: 0 <= i < |ps| && ps[i].value.DoubleNumber? ==> NumberText(ps[i].value.text)
    case Summary(_, ps) => forall i :: 0 <= i < |ps| ==> ValidSummary(ps[i])
    case Histogram(_, ps) => forall i :: 0 <= i < |ps| ==> ValidHistogram(ps[i])
    case OtherMetric(_) => true
  }

  predicate ValidSummary(p: SummaryPoint) {
    NumberText(p.sum) && forall i :: 0 <= i < |p.quantiles| ==> NumberText(p.quantiles[i].1)
  }

  predicate ValidHistogram(p: HistogramPoint) {
    NumberText(p.sum) && (p.bounds != [] ==> |p.bounds| < |p.buckets|)
  }

  /** A data point's line: its labels override the attributes of the resource. */
  function PointLine(name: string, attr: Attributes, labels: Attributes, value: string, ts: nat): string {
    Line(name, RenderTags(Labels(WithLabels(attr, labels))), value, ts)
  }

  function NumberLine(name: string, attr: Attributes, p: NumberPoint): string {
    match p.value
    case DoubleNumber(text) => PointLine(name, attr, p.labels, text, p.ts)
    case IntNumber(i) => PointLine(name, attr, p.labels, IntText(i), p.ts)
    case NoNumber => ""
  }

  /** Running total of the first n buckets, in 64 bits. */
  function Cumulative(buckets: seq<nat>, n: nat): nat
    requires n <= |buckets|
  {
    if n == 0 then 0 else (Cumulative(buckets, n - 1) + buckets[n - 1]) % 0x1_0000_0000_0000_0000
  }

  /** The line of bucket i: everything up to its upper bound, the last bound being infinity. */
  function BucketLine(name: string, attr: Attributes, p: HistogramPoint, i: nat): string
    requires i <= |p.bounds| && i < |p.buckets|
  {
    var le := if i < |p.bounds| then Other(p.bounds[i]) else Text("+Inf");
    PointLine(name, MergeAttributes(attr, [("le", le)]), p.labels, Decimal(Cumulative(p.buckets, i + 1)), p.ts)
  }

  function HistogramLines(name: string, attr: Attributes, p: HistogramPoint): seq<string>
    requires ValidHistogram(p)
  {
    if p.bounds == [] then []
    else
      seq(|p.bounds| + 1, i requires 0 <= i <= |p.bounds| => BucketLine(name, attr, p, i))
      + [PointLine(name + "_sum", attr, p.labels, p.sum, p.ts),
         PointLine(name + "_count", attr, p.labels, Decimal(p.count), p.ts)]
  }

  function QuantileLine(name: string, attr: Attributes, p: SummaryPoint, i: nat): string
    requires i < |p.quantiles|
  {
    PointLine(name, MergeAttributes(attr, [("quantile", Other(p.quantiles[i].0))]), p.labels, p.quantiles[i].1, p.ts)
  }

  function SummaryLines(name: string, attr: Attributes, p: SummaryPoint): seq<string> {
    seq(|p.quantiles|, i requires 0 <= i < |p.quantiles| => QuantileLine(name, attr, p, i))
    + [PointLine(name + "_sum", attr, p.labels, p.sum, p.ts),
       PointLine(name + "_count", attr, p.labels, Decimal(p.count), p.ts)]
  }

  function AllSummaries(name: string, attr: Attributes, ps: seq<SummaryPoint>): seq<string> {
    if |ps| == 0 then [] else AllSummaries(name, attr, ps[..|ps| - 1]) + SummaryLines(name, attr, ps[|ps| - 1])
  }

  function AllHistograms(name: string, attr: Attributes, ps: seq<HistogramPoint>): seq<string>
    requires forall i :: 0 <= i < |ps| ==> ValidHistogram(ps[i])
  {
    if |ps| == 0 then [] else AllHistograms(name, attr, ps[..|ps| - 1]) + HistogramLines(name, attr, ps[|ps| - 1])
  }

  /** The lines of a metric, in order. */
  function MetricLines(m: Metric, attr: Attributes): seq<string>
    requires ValidMetric(m)
  {
    match m
    case Gauge(name, ps) => seq(|ps|, i requires 0 <= i < |ps| => NumberLine(name, attr, ps[i]))
    case Sum(name, ps) => seq(|ps|, i requires 0 <= i < |ps| => NumberLine(name, attr, ps[i]))
    case Summary(name, ps) => AllSummaries(name, attr, ps)
    case Histogram(name, ps) => AllHistograms(name, attr, ps)
    case OtherMetric(_) => []
  }

  predicate OneLineEach(lines: seq<string>) {
    forall i :: 0 <= i < |lines| ==> OneLine(lines[i])
  }

  lemma PointOneLine(name: string, attr: Attributes, labels: Attributes, value: string, ts: nat)
    requires NumberText(value)
    ensures OneLine(PointLine(name, attr, labels, value, ts))
  {
    hide Line, RenderTags, Labels, WithLabels;
    LineOneLine(name, WithLabels(attr, labels), value, ts);
  }

  lemma NumberOneLine(name: string, attr: Attributes, p: NumberPoint)
    requires p.value.DoubleNumber? ==> NumberText(p.value.text)
    ensures OneLine(NumberLine(name, attr, p))
  {
    hide PointLine, IntText;
    match p.value
    case DoubleNumber(text) => PointOneLine(name, attr, p.labels, text, p.ts);
    case IntNumber(i) =>
      IntTextIsNumber(i);
      PointOneLine(name, attr, p.labels, IntText(i), p.ts);
    case NoNumber =>
  }

  lemma SummaryOneLine(name: string, attr: Attributes, p: SummaryPoint)
    requires ValidSummary(p)
    ensures OneLineEach(SummaryLines(name, attr, p))
  {
    hide PointLine, OneLine, MergeAttributes;
    PointOneLine(name + "_sum", attr, p.labels, p.sum, p.ts);
    DecimalIsNumber(p.count);
    PointOneLine(name + "_count", attr, p.labels, Decimal(p.count), p.ts);
    forall i | 0 <= i < |p.quantiles| ensures OneLine(QuantileLine(name, attr, p, i)) {
      var tag := [("quantile", Other(p.quantiles[i].0))];
      PointOneLine(name, MergeAttributes(attr, tag), p.labels, p.quantiles[i].1, p.ts);
    }
  }

  lemma HistogramOneLine(name: string, attr: Attributes, p: HistogramPoint)
    requires ValidHistogram(p)
    ensures OneLineEach(HistogramLines(name, attr, p))
  {
    hide PointLine, OneLine, MergeAttributes, Cumulative;
    PointOneLine(name + "_sum", attr, p.labels, p.sum, p.ts);
    DecimalIsNumber(p.count);
    PointOneLine(name + "_count", attr, p.labels, Decimal(p.count), p.ts);
    if p.bounds != [] {
      forall i | 0 <= i <= |p.bounds| ensures OneLine(BucketLine(name, attr, p, i)) {
        var le := if i < |p.bounds| then Other(p.bounds[i]) else Text("+Inf");
        DecimalIsNumber(Cumulative(p.buckets, i + 1));
        PointOneLine(name, MergeAttributes(attr, [("le", le)]), p.labels, Decimal(Cumulative(p.buckets, i + 1)), p.ts);
      }
    }
  }

  lemma {:induction false} SummariesOneLine(name: string, attr: Attributes, ps: seq<SummaryPoint>)
    requires forall i :: 0 <= i < |ps| ==> ValidSummary(ps[i])
    ensures OneLineEach(AllSummaries(name, attr, ps))
  {
    hide SummaryLines, OneLine;
    if |ps| > 0 {
      SummariesOneLine(name, attr, ps[..|ps| - 1]);
      SummaryOneLine(name, attr, ps[|ps| - 1]);
    }
  }

  lemma {:induction false} HistogramsOneLine(name: string, attr: Attributes, ps: seq<HistogramPoint>)
    requires forall i :: 0 <= i < |ps| ==> ValidHistogram(ps[i])
    ensures OneLineEach(AllHistograms(name, attr, ps))
  {
    hide HistogramLines, OneLine;
    if |ps| > 0 {
      HistogramsOneLine(name, attr, ps[..|ps| - 1]);
      HistogramOneLine(name, attr, ps[|ps| - 1]);
    }
  }

  lemma MetricLinesOneLine(m: Metric, attr: Attributes)
    requires ValidMetric(m)
    ensures OneLineEach(MetricLines(m, attr))
  {
    hide NumberLine, OneLine;
    match m
    case Gauge(name, ps) =>
      forall i | 0 <= i < |ps| ensures OneLine(NumberLine(name, attr, ps[i])) { NumberOneLine(name, attr, ps[i]); }
    case Sum(name, ps) =>
      forall i | 0 <= i < |ps| ensures OneLine(NumberLine(name, attr, ps[i])) { NumberOneLine(name, attr, ps[i]); }
    case Summary(name, ps) => SummariesOneLine(name, attr, ps);
    case Histogram(name, ps) => HistogramsOneLine(name, attr, ps);
    case OtherMetric(_) =>
  }

  /** No line of a metric contains a newline, whatever its names, labels and values hold. */
  lemma MetricOneLine(m: Metric, attr: Attributes, i: nat)
    requires ValidMetric(m) && i < |MetricLines(m, attr)|
    ensures OneLine(MetricLines(m, attr)[i])
  {
    hide MetricLines, OneLine;
    MetricLinesOneLine(m, attr);
  }

  // ---- The formatter's loops ----

  /** stringsJoinAndSurround with its fixed arguments: labels joined by commas between braces. */
  method StringsJoinAndSurround(s: seq<string>, ghost ls: seq<Label>) returns (r: string)
    requires |s| == |ls| && forall i :: 0 <= i < |s| ==> s[i] == RenderPair(ls[i])
    ensures r == RenderTags(ls)
  {
    hide RenderPair;
    if |s| == 0 {
      return "";
    }
    if |s| == 1 {
      assert JoinPairs(ls) == s[0];
      return "{" + s[0] + "}";
    }
    var b := "{" + s[0];
    for i := 1 to |s|
      invariant b == "{" + JoinPairs(ls[..i])
    {
      JoinPairsSnoc(ls[..i], ls[i]);
      assert ls[..i + 1] == ls[..i] + [ls[i]];
      b := b + ",";
      b := b + s[i];
    }
    assert ls[..|s|] == ls;
    r := b + "}";
  }

  lemma {:induction false} JoinPairsSnoc(ls: seq<Label>, l: Label)
    requires ls != []
    ensures JoinPairs(ls + [l]) == JoinPairs(ls) + "," + RenderPair(l)
  {
    hide RenderPair;
    if |ls| == 1 {
      assert (ls + [l])[1..] == [l];
    } else {
      JoinPairsSnoc(ls[1..], l);
      assert (ls + [l])[1..] == ls[1..] + [l];
    }
  }

  /** tags2String. */
  method Tags2String(attr: Attributes, labels: Attributes) returns (tags: string)
    ensures tags == RenderTags(Labels(WithLabels(attr, labels)))
  {
    hide RenderPair, Labels;
    if |attr| + |labels| == 0 {
      assert Labels(WithLabels(attr, labels)) == [] by { NoLabels(); }
      return "";
    }
    var merged := attr;
    for i := 0 to |labels|
      invariant merged == WithLabels(attr, labels[..i])
    {
      assert labels[..i + 1][..i] == labels[..i];
      merged := PutValue(merged, labels[i].0, Text(Str(labels[i].1)));
    }
    assert labels[..|labels|] == labels;
    var pairs: seq<string> := [];
    ghost var ls := Labels(merged);
    LabelsAt(merged);
    for i := 0 to |merged|
      invariant |pairs| == i && |ls| == |merged|
      invariant forall j :: 0 <= j < i ==> pairs[j] == RenderPair(ls[j])
    {
      var key, value := SanitizeKey(merged[i].0), SanitizeValue(AsString(merged[i].1));
      assert FormatPair(key, value) == RenderPair(ls[i]) by { RenderPairIs(ls[i]); }
      pairs := pairs + [FormatPair(key, value)];
    }
    tags := StringsJoinAndSurround(pairs, ls);
  }

  lemma RenderPairIs(l: Label)
    ensures RenderPair(l) == FormatPair(l.0, SanitizeValue(l.1))
  {}

  lemma NoLabels()
    ensures Labels([]) == []
  {}

  lemma {:induction false} LabelsAt(m: Attributes)
    ensures |Labels(m)| == |m|
    ensures forall i :: 0 <= i < |m| ==> Labels(m)[i] == (SanitizeKey(m[i].0), AsString(m[i].1))
  {
    if |m| > 0 {
      LabelsAt(m[1..]);
    }
  }

  method ValueLine(name: string, attr: Attributes, labels: Attributes, value: string, ts: nat) returns (line: string)
    ensures line == PointLine(name, attr, labels, value, ts)
  {
    var tags := Tags2String(attr, labels);
    line := Line(name, tags, value, ts);
  }

  /** The lines of one histogram point: a running total per bound, one for infinity, the sum and the count. */
  method HistogramPoint2Strings(name: string, p: HistogramPoint, attr: Attributes) returns (lines: seq<string>)
    requires ValidHistogram(p) && p.bounds != []
    ensures lines == HistogramLines(name, attr, p)
  {
    hide PointLine, MergeAttributes;
    var cumulative := 0;
    lines := [];
    for i := 0 to |p.bounds|
      invariant cumulative == Cumulative(p.buckets, i)
      invariant |lines| == i && forall j :: 0 <= j < i ==> lines[j] == BucketLine(name, attr, p, j)
    {
      cumulative := (cumulative + p.buckets[i]) % 0x1_0000_0000_0000_0000;
      var tag := [("le", Other(p.bounds[i]))];
      var line := ValueLine(name, MergeAttributes(attr, tag), p.labels, Decimal(cumulative), p.ts);
      lines := lines + [line];
    }
    cumulative := (cumulative + p.buckets[|p.bounds|]) % 0x1_0000_0000_0000_0000;
    var inf := ValueLine(name, MergeAttributes(attr, [("le", Text("+Inf"))]), p.labels, Decimal(cumulative), p.ts);
    assert inf == BucketLine(name, attr, p, |p.bounds|);
    lines := lines + [inf];
    var sum := ValueLine(name + "_sum", attr, p.labels, p.sum, p.ts);
    var count := ValueLine(name + "_count", attr, p.labels, Decimal(p.count), p.ts);
    lines := lines + [sum, count];
  }

  /** histogram2Strings: points without bounds are skipped. */
  method Histogram2Strings(name: string, ps: seq<HistogramPoint>, attr: Attributes) returns (lines: seq<string>)
    requires forall i :: 0 <= i < |ps| ==> ValidHistogram(ps[i])
    ensures lines == AllHistograms(name, attr, ps)
  {
    hide HistogramLines;
    lines := [];
    for k := 0 to |ps|
      invariant lines == AllHistograms(name, attr, ps[..k])
    {
      assert ps[..k + 1][..k] == ps[..k];
      if |ps[k].bounds| == 0 {
        assert HistogramLines(name, attr, ps[k]) == [] by { NoBoundsNoLines(name, attr, ps[k]); }
        assert lines == lines + [];
        continue;
      }
      var more := HistogramPoint2Strings(name, ps[k], attr);
      lines := lines + more;
    }
    assert ps[..|ps|] == ps;
  }

  lemma NoBoundsNoLines(name: string, attr: Attributes, p: HistogramPoint)
    requires ValidHistogram(p) && p.bounds == []
    ensures HistogramLines(name, attr, p) == []
  {}

  /** summary2Strings. */
  method Summary2Strings(name: string, ps: seq<SummaryPoint>, attr: Attributes) returns (lines: seq<string>)
    ensures lines == AllSummaries(name, attr, ps)
  {
    hide PointLine, MergeAttributes;
    lines := [];
    for k := 0 to |ps|
      invariant lines == AllSummaries(name, attr, ps[..k])
    {
      assert ps[..k + 1][..k] == ps[..k];
      var p := ps[k];
      var more: seq<string> := [];
      for i := 0 to |p.quantiles|
        invariant |more| == i && forall j :: 0 <= j < i ==> more[j] == QuantileLine(name, attr, p, j)
      {
        var tag := [("quantile", Other(p.quantiles[i].0))];
        var line := ValueLine(name, MergeAttributes(attr, tag), p.labels, p.quantiles[i].1, p.ts);
        more := more + [line];
      }
      var sum := ValueLine(name + "_sum", attr, p.labels, p.sum, p.ts);
      var count := ValueLine(name + "_count", attr, p.labels, Decimal(p.count), p.ts);
      assert SummaryLines(name, attr, p) == more + [sum, count];
      lines := lines + (more + [sum, count]);
    }
    assert ps[..|ps|] == ps;
  }

  /** gauge2Strings and sum2Strings. */
  method Numbers2Strings(name: string, ps: seq<NumberPoint>, attr: Attributes) returns (lines: seq<string>)
    ensures lines == seq(|ps|, i requires 0 <= i < |ps| => NumberLine(name, attr, ps[i]))
  {
    hide PointLine;
    lines := [];
    for k := 0 to |ps|
      invariant |lines| == k && forall j :: 0 <= j < k ==> lines[j] == NumberLine(name, attr, ps[j])
    {
      var line := "";
      match ps[k].value {
        case DoubleNumber(text) => line := ValueLine(name, attr, ps[k].labels, text, ps[k].ts);
        case IntNumber(i) => line := ValueLine(name, attr, ps[k].labels, IntText(i), ps[k].ts);
        case NoNumber =>
      }
      lines := lines + [line];
    }
  }

  /** metric2String: splitting the text on newlines gives back the lines, unless there are none. */
  method Metric2String(m: Metric, attr: Attributes) returns (text: string)
    requires ValidMetric(m)
    ensures text == JoinLines(MetricLines(m, attr))
    ensures MetricLines(m, attr) != [] ==> SplitLines(text) == MetricLines(m, attr)
  {
    hide NumberLine, AllSummaries, AllHistograms, SplitLines, OneLine;
    var lines: seq<string> := [];
    match m {
      case Gauge(name, ps) => lines := Numbers2Strings(name, ps, attr);
      case Sum(name, ps) => lines := Numbers2Strings(name, ps, attr);
      case Summary(name, ps) => lines := Summary2Strings(name, ps, attr);
      case Histogram(name, ps) => lines := Histogram2Strings(name, ps, attr);
      case OtherMetric(_) =>
    }
    text := JoinLines(lines);
    MetricLinesOneLine(m, attr);
    if lines != [] {
      LinesRoundTrip(lines);
    }
  }

  /** The bucket lines of a histogram are read back as running totals that end in the number of all observations. */
  lemma {:induction false} CumulativeIsTotal(buckets: seq<nat>, n: nat)
    requires n <= |buckets| && Total(buckets, |buckets|) < 0x1_0000_0000_0000_0000
    ensures Cumulative(buckets, n) == Total(buckets, n) <= Total(buckets, |buckets|)
  {
    TotalGrows(buckets, n);
    if n > 0 {
      CumulativeIsTotal(buckets, n - 1);
    }
  }

  function Total(buckets: seq<nat>, n: nat): nat
    requires n <= |buckets|
  {
    if n == 0 then 0 else Total(buckets, n - 1) + buckets[n - 1]
  }

  lemma {:induction false} TotalGrows(buckets: seq<nat>, n: nat)
    requires n <= |buckets|
    ensures Total(buckets, n) <= Total(buckets, |buckets|)
    decreases |buckets| - n
  {
    if n < |buckets| {
      TotalGrows(buckets, n + 1);
    }
  }

  /** The value of the first label of that name. */
  function ReadLabel(ls: seq<Label>, name: string): Option<string> {
    if |ls| == 0 then None else if ls[0].0 == name then Some(ls[0].1) else ReadLabel(ls[1..], name)
  }

  /** A name of allowed characters other than the underscore is only ever written by an attribute of that very name. */
  lemma {:induction false} ReadLabelIsLookup(m: Attributes, k: string)
    requires forall i :: 0 <= i < |k| ==> NameChar(k[i]) && k[i] != '_'
    ensures ReadLabel(Labels(m), k) == match Lookup(m, k) case None => None case Some(v) => Some(AsString(v))
  {
    if |m| > 0 {
      ReadLabelIsLookup(m[1..], k);
      var name := SanitizeKey(m[0].0);
      assert name == k <==> m[0].0 == k;
      assert Labels(m)[1..] == Labels(m[1..]);
    }
  }

  lemma MergeOne(attr: Attributes, k: string, v: Value)
    ensures MergeAttributes(attr, [(k, v)]) == PutValue(attr, k, v)
  {
    assert [(k, v)][..0] == [];
    assert MergeAttributes(attr, []) == attr;
  }

  /** The bound of bucket i, as it is written. */
  function BoundText(p: HistogramPoint, i: nat): string {
    if i < |p.bounds| then p.bounds[i] else "+Inf"
  }

  /**
   A bucket line is read back to the metric's name, the exact number of observations up to the bound of the bucket,
   and the label "le": it is the bound unless the data point has a label "le" of its own, which then hides it.
   */
  lemma BucketLineReadsBack(name: string, attr: Attributes, p: HistogramPoint, i: nat)
    requires i <= |p.bounds| && i < |p.buckets|
    requires Total(p.buckets, |p.buckets|) < 0x1_0000_0000_0000_0000
    ensures
      var r := ParseLine(BucketLine(name, attr, p, i));
      && r.Some? && r.value.name == SanitizeKey(name)
      && ReadDecimal(r.value.value) == Total(p.buckets, i + 1)
      && ReadDecimal(r.value.ts) == p.ts / 1_000_000
      && var own := LastLabel(p.labels, "le");
         ReadLabel(r.value.labels, "le") == Some(if own.Some? then Str(own.value) else BoundText(p, i))
  {
    hide Line, ParseLine, RenderTags, Labels, WithLabels, MergeAttributes, PutValue, Lookup, ReadLabel, LastLabel;
    var le := if i < |p.bounds| then Other(p.bounds[i]) else Text("+Inf");
    var n := Cumulative(p.buckets, i + 1);
    var merged := MergeAttributes(attr, [("le", le)]);
    CumulativeIsTotal(p.buckets, i + 1);
    DecimalIsNumber(n);
    DecimalRoundTrip(n);
    DecimalRoundTrip(p.ts / 1_000_000);
    LineRoundTrip(name, WithLabels(merged, p.labels), Decimal(n), p.ts);
    ReadLabelIsLookup(WithLabels(merged, p.labels), "le");
    LabelsOverride(merged, p.labels, "le");
    MergeOne(attr, "le", le);
    PutLookup(attr, "le", le, "le");
  }
}
