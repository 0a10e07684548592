/**
 sender.go: batching of formatted logs and metrics into requests of bounded size.

 Strings stand for byte strings. A send is recorded with its body, its record count, its source headers and
 its outcome; the outcome of the k-th request is an arbitrary input.
 */
module Sender {
  import opened Base

  // ---- Joining lines ----

  /** The lines joined with newlines. */
  function Join(lines: seq<string>): string {
    if |lines| == 0 then ""
    else if |lines| == 1 then lines[0]
    else Join(lines[..|lines| - 1]) + "\n" + lines[|lines| - 1]
  }

  lemma JoinSnoc(lines: seq<string>, line: string)
    requires lines != []
    ensures Join(lines + [line]) == Join(lines) + "\n" + line
  {
    assert (lines + [line])[..|lines|] == lines;
  }

  lemma {:induction false} JoinAppend(a: seq<string>, b: seq<string>)
    requires a != [] && b != []
    ensures Join(a + b) == Join(a) + "\n" + Join(b)
  {
    var init, x := b[..|b| - 1], b[|b| - 1];
    if |b| == 1 {
      assert a + b == a + [x];
      JoinSnoc(a, x);
    } else {
      JoinAppend(a, init);
      assert a + b == (a + init) + [x];
      JoinSnoc(a + init, x);
      assert Join(b) == Join(init) + "\n" + x;
    }
  }

  /** What appendAndMaybeSend adds up: every line and one byte more for each. */
  function TotalLength(lines: seq<string>): nat {
    if |lines| == 0 then 0 else TotalLength(lines[..|lines| - 1]) + |lines[|lines| - 1]| + 1
  }

  lemma {:induction false} TotalLengthIsJoin(lines: seq<string>)
    requires lines != []
    ensures TotalLength(lines) == |Join(lines)| + 1
  {
    if |lines| > 1 {
      TotalLengthIsJoin(lines[..|lines| - 1]);
    } else {
      assert lines[..0] == [];
      assert TotalLength(lines[..0]) == 0;
    }
  }

  // ---- The body under construction ----

  class BodyBuilder {
    var builder: string
    var counter: nat

    constructor ()
      ensures builder == "" && counter == 0
    {
      builder, counter := "", 0;
    }

    method Reset()
      modifies this
      ensures builder == "" && counter == 0
    {
      counter := 0;
      builder := "";
    }

    /** Adds the lines, joined with newlines, and counts them. */
    method AddLines(lines: seq<string>)
      modifies this
      ensures builder == old(builder) + Join(lines) && counter == old(counter) + |lines|
    {
      if |lines| == 0 {
        assert builder == builder + "";
        return;
      }
      builder := builder + lines[0];
      for i := 1 to |lines|
        invariant builder == old(builder) + Join(lines[..i]) && counter == old(counter)
      {
        JoinSnoc(lines[..i], lines[i]);
        assert lines[..i + 1] == lines[..i] + [lines[i]];
        builder := builder + "\n";
        builder := builder + lines[i];
      }
      assert lines[..|lines|] == lines;
      counter := counter + |lines|;
    }

    method AddNewLine()
      modifies this
      ensures builder == old(builder) + "\n" && counter == old(counter)
    {
      builder := builder + "\n";
    }
  }

  // ---- Requests ----

  type Headers = map<string, string>

  datatype Request = Request(body: string, counter: nat, headers: Headers, ok: bool)

  /** The outcomes of the successive sends. */
  type Transport = nat -> bool

  method Send(sent: seq<Request>, body: BodyBuilder, headers: Headers, net: Transport)
    returns (requests: seq<Request>, ok: bool)
    ensures ok == net(|sent|)
    ensures requests == sent + [Request(body.builder, body.counter, headers, ok)]
  {
    ok := net(|sent|);
    requests := sent + [Request(body.builder, body.counter, headers, ok)];
  }

  /**
   Sends the body first when the lines would fill it up, then appends them. The limit counts
   the separating newline.
   */
  method AppendAndMaybeSend(requests0: seq<Request>, lines: seq<string>, body: BodyBuilder, headers: Headers,
                            maxBody: int, net: Transport)
    returns (requests: seq<Request>, sent: bool, ok: bool)
    modifies body
    ensures sent == (old(body.builder) != "" && |old(body.builder)| + TotalLength(lines) >= maxBody)
    ensures requests == requests0
      + if sent then [Request(old(body.builder), old(body.counter), headers, net(|requests0|))] else []
    ensures sent ==> ok == net(|requests0|)
    ensures !sent ==> ok
    ensures body.builder == (if sent || old(body.builder) == "" then Join(lines)
                             else old(body.builder) + "\n" + Join(lines))
    ensures body.counter == (if sent then 0 else old(body.counter)) + |lines|
  {
    requests, sent, ok := requests0, false, true;
    var linesTotalLength := 0;
    for i := 0 to |lines|
      invariant linesTotalLength == TotalLength(lines[..i])
    {
      linesTotalLength := linesTotalLength + |lines[i]| + 1;
      assert lines[..i + 1][..i] == lines[..i];
    }
    assert lines[..|lines|] == lines;
    if |body.builder| > 0 && |body.builder| + linesTotalLength >= maxBody {
      sent := true;
      requests, ok := Send(requests0, body, headers, net);
      body.Reset();
    }
    if |body.builder| > 0 {
      body.AddNewLine();
    }
    body.AddLines(lines);
  }

  // ---- Batching as a function of the items ----

  /** A log record or a metrics resource with its formatted lines and source headers. */
  datatype Item<R> = Item(value: R, lines: seq<string>, headers: Headers)

  /** The requests so far, what each carried, what was dropped, and the body under construction. */
  datatype Batch<R> = Batch(
    requests: seq<Request>,
    carried: seq<seq<Item<R>>>,
    dropped: seq<R>,
    open: seq<Item<R>>,
    body: string,
    counter: nat)

  function NoBatch<R>(): Batch<R> {
    Batch([], [], [], [], "", 0)
  }

  function Values<R>(items: seq<Item<R>>): seq<R> {
    seq(|items|, i requires 0 <= i < |items| => items[i].value)
  }

  /** Send the body; on failure the values it was made from are dropped. */
  function Flush<R>(b: Batch<R>, headers: Headers, net: Transport): Batch<R> {
    var ok := net(|b.requests|);
    Batch(b.requests + [Request(b.body, b.counter, headers, ok)], b.carried + [b.open],
          if ok then b.dropped else b.dropped + Values(b.open), [], "", 0)
  }

  function Append<R>(b: Batch<R>, x: Item<R>, maxBody: int, net: Transport): Batch<R> {
    var c := if b.body != "" && |b.body| + TotalLength(x.lines) >= maxBody then Flush(b, x.headers, net) else b;
    c.(open := c.open + [x],
       body := if c.body == "" then Join(x.lines) else c.body + "\n" + Join(x.lines),
       counter := c.counter + |x.lines|)
  }

  /** The last request, unless there is nothing to send. */
  function Finish<R>(b: Batch<R>, headers: Headers, net: Transport): Batch<R> {
    if b.body != "" then Flush(b, headers, net) else b
  }

  // ---- Logs ----

  /** One record: dropped if it cannot be formatted, otherwise appended. */
  function LogStep<R>(b: Batch<R>, r: R, format: R -> Option<string>, headers: Headers,
                      maxBody: int, net: Transport): Batch<R> {
    match format(r)
    case None => b.(dropped := b.dropped + [r])
    case Some(line) => Append(b, Item(r, [line], headers), maxBody, net)
  }

  function LogBatch<R>(rs: seq<R>, format: R -> Option<string>, headers: Headers,
                       maxBody: int, net: Transport): Batch<R> {
    if |rs| == 0 then NoBatch()
    else LogStep(LogBatch(rs[..|rs| - 1], format, headers, maxBody, net), rs[|rs| - 1], format, headers, maxBody, net)
  }

  function Flatten<R>(scopes: seq<seq<R>>): seq<R> {
    if |scopes| == 0 then [] else Flatten(scopes[..|scopes| - 1]) + scopes[|scopes| - 1]
  }

  method SendNonOTLPLogs<R>(scopes: seq<seq<R>>, format: R -> Option<string>, headers: Headers,
                            maxBody: int, net: Transport)
    returns (requests: seq<Request>, droppedRecords: seq<R>)
    ensures
      var b := Finish(LogBatch(Flatten(scopes), format, headers, maxBody, net), headers, net);
      requests == b.requests && droppedRecords == b.dropped
  {
    hide LogBatch, NoBatch, Values;
    var body := new BodyBuilder();
    requests, droppedRecords := [], [];
    var currentRecords: seq<R> := [];
    ghost var b: Batch<R>, rs: seq<R> := NoBatch(), [];
    NothingBatched(format, headers, maxBody, net);
    for i := 0 to |scopes|
      invariant rs == Flatten(scopes[..i])
      invariant b == LogBatch(rs, format, headers, maxBody, net)
      invariant Holds(b, requests, droppedRecords, currentRecords, body.builder, body.counter)
      invariant fresh(body)
    {
      requests, droppedRecords, currentRecords, b :=
        SendScope(requests, droppedRecords, currentRecords, scopes[i], body, format, headers, maxBody, net, rs, b);
      rs := rs + scopes[i];
      assert scopes[..i + 1][..i] == scopes[..i];
    }
    assert scopes[..|scopes|] == scopes;
    if |body.builder| > 0 {
      var ok;
      requests, ok := Send(requests, body, headers, net);
      if !ok {
        droppedRecords := droppedRecords + currentRecords;
      }
    }
  }

  /** The variables of the sending loops hold the state of the batch. */
  ghost predicate Holds<R>(b: Batch<R>, requests: seq<Request>, dropped: seq<R>, current: seq<R>,
                           builder: string, counter: nat) {
    && requests == b.requests && dropped == b.dropped && current == Values(b.open)
    && builder == b.body && counter == b.counter
  }

  lemma NothingBatched<R>(format: R -> Option<string>, headers: Headers, maxBody: int, net: Transport)
    ensures LogBatch([], format, headers, maxBody, net) == NoBatch()
    ensures Holds<R>(NoBatch(), [], [], [], "", 0)
  {}

  /** The inner loop, over the records of one scope. */
  method SendScope<R>(requests0: seq<Request>, dropped0: seq<R>, current0: seq<R>, records: seq<R>, body: BodyBuilder,
                      format: R -> Option<string>, headers: Headers, maxBody: int, net: Transport,
                      ghost before: seq<R>, ghost b0: Batch<R>)
    returns (requests: seq<Request>, droppedRecords: seq<R>, currentRecords: seq<R>, ghost b: Batch<R>)
    requires b0 == LogBatch(before, format, headers, maxBody, net)
    requires Holds(b0, requests0, dropped0, current0, body.builder, body.counter)
    modifies body
    ensures b == LogBatch(before + records, format, headers, maxBody, net)
    ensures Holds(b, requests, droppedRecords, currentRecords, body.builder, body.counter)
  {
    hide LogStep, Holds;
    requests, droppedRecords, currentRecords, b := requests0, dropped0, current0, b0;
    assert before + records[..0] == before;
    for j := 0 to |records|
      invariant b == LogBatch(before + records[..j], format, headers, maxBody, net)
      invariant Holds(b, requests, droppedRecords, currentRecords, body.builder, body.counter)
    {
      requests, droppedRecords, currentRecords, b :=
        SendRecord(requests, droppedRecords, currentRecords, records[j], body, format, headers, maxBody, net, b);
      assert before + records[..j + 1] == (before + records[..j]) + [records[j]];
      assert (before + records[..j + 1])[..|before| + j] == before + records[..j];
    }
    assert records[..|records|] == records;
  }

  /** The body of the loop over the records. */
  method SendRecord<R>(requests0: seq<Request>, dropped0: seq<R>, current0: seq<R>, lr: R, body: BodyBuilder,
                       format: R -> Option<string>, headers: Headers, maxBody: int, net: Transport,
                       ghost b0: Batch<R>)
    returns (requests: seq<Request>, droppedRecords: seq<R>, currentRecords: seq<R>, ghost b: Batch<R>)
    requires Holds(b0, requests0, dropped0, current0, body.builder, body.counter)
    modifies body
    ensures b == LogStep(b0, lr, format, headers, maxBody, net)
    ensures Holds(b, requests, droppedRecords, currentRecords, body.builder, body.counter)
  {
    requests, droppedRecords, currentRecords := requests0, dropped0, current0;
    b := LogStep(b0, lr, format, headers, maxBody, net);
    var formatted := format(lr);
    if formatted.None? {
      droppedRecords := droppedRecords + [lr];
      return;
    }
    ghost var x := Item(lr, [formatted.value], headers);
    var sent, ok;
    requests, sent, ok := AppendAndMaybeSend(requests, [formatted.value], body, headers, maxBody, net);
    if !ok {
      droppedRecords := droppedRecords + currentRecords;
    }
    if sent {
      currentRecords := [];
    }
    assert Values(b0.open + [x]) == Values(b0.open) + [lr];
    assert Values([] + [x]) == [lr];
    currentRecords := currentRecords + [lr];
  }

  // ---- Metrics ----

  datatype Resource = Resource(attributes: map<string, string>, lines: seq<string>)

  const SOURCE_HOST := "_sourceHost"
  const SOURCE_NAME := "_sourceName"
  const SOURCE_CATEGORY := "_sourceCategory"
  const HEADER_HOST := "X-Sumo-Host"
  const HEADER_NAME := "X-Sumo-Name"
  const HEADER_CATEGORY := "X-Sumo-Category"

  /** getSourcesHeaders: the source attributes as headers. */
  function SourceHeaders(attrs: map<string, string>): Headers {
    var h0: Headers := map[];
    var h1 := if SOURCE_HOST in attrs then h0[HEADER_HOST := attrs[SOURCE_HOST]] else h0;
    var h2 := if SOURCE_NAME in attrs then h1[HEADER_NAME := attrs[SOURCE_NAME]] else h1;
    if SOURCE_CATEGORY in attrs then h2[HEADER_CATEGORY := attrs[SOURCE_CATEGORY]] else h2
  }

  /** Each header is there iff its attribute is, with its value, and there are no others. */
  lemma SourceHeadersMeaning(attrs: map<string, string>, h: string)
    ensures h in SourceHeaders(attrs) <==>
      || (h == HEADER_HOST && SOURCE_HOST in attrs)
      || (h == HEADER_NAME && SOURCE_NAME in attrs)
      || (h == HEADER_CATEGORY && SOURCE_CATEGORY in attrs)
    ensures SOURCE_HOST in attrs ==> SourceHeaders(attrs)[HEADER_HOST] == attrs[SOURCE_HOST]
    ensures SOURCE_NAME in attrs ==> SourceHeaders(attrs)[HEADER_NAME] == attrs[SOURCE_NAME]
    ensures SOURCE_CATEGORY in attrs ==> SourceHeaders(attrs)[HEADER_CATEGORY] == attrs[SOURCE_CATEGORY]
  {
    assert HEADER_HOST[7] == 'H' && HEADER_NAME[7] == 'N' && HEADER_CATEGORY[7] == 'C';
  }

  function AsItem(r: Resource): Item<Resource> {
    Item(r, r.lines, SourceHeaders(r.attributes))
  }

  /** Resources with other headers than the ones before them start a new request. */
  function MetricsBatch(rms: seq<Resource>, maxBody: int, net: Transport): Batch<Resource> {
    if |rms| == 0 then NoBatch()
    else
      var n := |rms| - 1;
      var b := MetricsBatch(rms[..n], maxBody, net);
      var changed := n > 0 && SourceHeaders(rms[n - 1].attributes) != SourceHeaders(rms[n].attributes) && b.body != "";
      Append(if changed then Flush(b, SourceHeaders(rms[n - 1].attributes), net) else b, AsItem(rms[n]), maxBody, net)
  }

  /** sendNonOTLPMetrics: the batch with its last request. */
  function MetricsSent(rms: seq<Resource>, maxBody: int, net: Transport): Batch<Resource> {
    var b := MetricsBatch(rms, maxBody, net);
    if rms == [] then b else Finish(b, SourceHeaders(rms[|rms| - 1].attributes), net)
  }

  method SendNonOTLPMetrics(rms: seq<Resource>, maxBody: int, net: Transport)
    returns (requests: seq<Request>, droppedMetrics: seq<Resource>)
    ensures requests == MetricsSent(rms, maxBody, net).requests
    ensures droppedMetrics == MetricsSent(rms, maxBody, net).dropped
  {
    hide SourceHeaders;
    var body := new BodyBuilder();
    requests, droppedMetrics := [], [];
    var currentResources: seq<Resource> := [];
    ghost var b: Batch<Resource> := NoBatch();
    var flds: map<string, string> := map[];
    for i := 0 to |rms|
      invariant b == MetricsBatch(rms[..i], maxBody, net)
      invariant Holds(b, requests, droppedMetrics, currentResources, body.builder, body.counter) && fresh(body)
      invariant i > 0 ==> flds == rms[i - 1].attributes
    {
      var rm := rms[i];
      flds := rm.attributes;
      assert rms[..i + 1][..i] == rms[..i];
      if i > 0 {
        var previous := SourceHeaders(rms[i - 1].attributes);
        if previous != SourceHeaders(flds) && |body.builder| > 0 {
          b := Flush(b, previous, net);
          var sentOk;
          requests, sentOk := Send(requests, body, previous, net);
          if !sentOk {
            droppedMetrics := droppedMetrics + currentResources;
          }
          body.Reset();
          currentResources := [];
        }
      }
      requests, droppedMetrics, currentResources, b :=
        SendResource(requests, droppedMetrics, currentResources, rm, body, maxBody, net, b);
    }
    assert rms[..|rms|] == rms;
    if |body.builder| > 0 {
      var ok;
      requests, ok := Send(requests, body, SourceHeaders(flds), net);
      if !ok {
        droppedMetrics := droppedMetrics + currentResources;
      }
    }
  }

  /** The rest of the loop body, once a change of headers has been dealt with. */
  method SendResource(requests0: seq<Request>, dropped0: seq<Resource>, current0: seq<Resource>, rm: Resource,
                      body: BodyBuilder, maxBody: int, net: Transport, ghost b0: Batch<Resource>)
    returns (requests: seq<Request>, dropped: seq<Resource>, current: seq<Resource>, ghost b: Batch<Resource>)
    requires Holds(b0, requests0, dropped0, current0, body.builder, body.counter)
    modifies body
    ensures b == Append(b0, AsItem(rm), maxBody, net)
    ensures Holds(b, requests, dropped, current, body.builder, body.counter)
  {
    hide SourceHeaders;
    requests, dropped, current := requests0, dropped0, current0;
    b := Append(b0, AsItem(rm), maxBody, net);
    var sent, ok;
    requests, sent, ok := AppendAndMaybeSend(requests, rm.lines, body, SourceHeaders(rm.attributes), maxBody, net);
    if !ok && sent {
      dropped := dropped + current;
    }
    if sent {
      current := [];
    }
    assert Values(b0.open + [AsItem(rm)]) == Values(b0.open) + [rm];
    assert Values([] + [AsItem(rm)]) == [rm];
    current := current + [rm];
  }
}
