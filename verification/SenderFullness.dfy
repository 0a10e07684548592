/**
 Requests keep the order of what is sent, and are not smaller than they need be: a request ends only where the source
 changes or the next item would fill it up to the limit.
 */
module SenderFullness {
  import opened Base
  import opened Sender
  import opened SenderProperties

  // ---- Order ----

  /** All items of the batch, request by request and then the open ones. */
  function Listed<R>(carried: seq<seq<Item<R>>>, open: seq<Item<R>>): seq<Item<R>> {
    if |carried| == 0 then open else Listed(carried[..|carried| - 1], carried[|carried| - 1] + open)
  }

  lemma ListedFlush<R>(b: Batch<R>, headers: Headers, net: Transport)
    ensures
      var c := Flush(b, headers, net);
      Listed(c.carried, c.open) == Listed(b.carried, b.open)
  {
    var c := Flush(b, headers, net);
    assert c.carried[..|b.carried|] == b.carried && b.open + [] == b.open;
  }

  lemma {:induction false} ListedOpen<R>(carried: seq<seq<Item<R>>>, open: seq<Item<R>>, x: Item<R>)
    ensures Listed(carried, open + [x]) == Listed(carried, open) + [x]
  {
    if |carried| > 0 {
      var n := |carried| - 1;
      assert carried[n] + (open + [x]) == (carried[n] + open) + [x];
      ListedOpen(carried[..n], carried[n] + open, x);
    }
  }

  lemma ListedAppend<R>(b: Batch<R>, x: Item<R>, maxBody: int, net: Transport)
    ensures
      var c := Append(b, x, maxBody, net);
      Listed(c.carried, c.open) == Listed(b.carried, b.open) + [x]
  {
    hide Listed, Flush, Join, TotalLength;
    ListedFlush(b, x.headers, net);
    ListedOpen(b.carried, b.open, x);
    ListedOpen(Flush(b, x.headers, net).carried, Flush(b, x.headers, net).open, x);
  }

  /** The formatted records as items, in order. */
  function LogItems<R>(rs: seq<R>, format: R -> Option<string>, headers: Headers): seq<Item<R>> {
    if |rs| == 0 then []
    else
      var items, r := LogItems(rs[..|rs| - 1], format, headers), rs[|rs| - 1];
      match format(r)
      case None => items
      case Some(line) => items + [Item(r, [line], headers)]
  }

  /** Log records stay in order, through all requests. */
  lemma {:induction false} LogsInOrder<R>(rs: seq<R>, format: R -> Option<string>, headers: Headers,
                                          maxBody: int, net: Transport)
    ensures
      var b := LogBatch(rs, format, headers, maxBody, net);
      Listed(b.carried, b.open) == LogItems(rs, format, headers)
  {
    hide Append;
    if |rs| > 0 {
      var init, r := rs[..|rs| - 1], rs[|rs| - 1];
      LogsInOrder(init, format, headers, maxBody, net);
      if format(r).Some? {
        ListedAppend(LogBatch(init, format, headers, maxBody, net), Item(r, [format(r).value], headers), maxBody, net);
      }
    }
  }

  /** Scope after scope, each in order. */
  lemma {:induction false} FlattenAppend<R>(a: seq<seq<R>>, b: seq<seq<R>>)
    ensures Flatten(a + b) == Flatten(a) + Flatten(b)
    ensures forall s: seq<R> :: Flatten([s]) == s
  {
    forall s: seq<R> ensures Flatten([s]) == s {
      assert [s][..0] == [] && Flatten([s]) == Flatten<R>([]) + s;
    }
    if |b| == 0 {
      assert a + b == a;
    } else {
      FlattenAppend(a, b[..|b| - 1]);
      assert (a + b)[..|a + b| - 1] == a + b[..|b| - 1];
    }
  }

  /** So do metrics resources. */
  lemma {:induction false} MetricsInOrder(rms: seq<Resource>, maxBody: int, net: Transport)
    ensures
      var b := MetricsBatch(rms, maxBody, net);
      Listed(b.carried, b.open) == seq(|rms|, i requires 0 <= i < |rms| => AsItem(rms[i]))
  {
    hide Append, Flush, Listed, AsItem, SourceHeaders;
    if |rms| == 0 {
      NoneListed();
    } else {
      var n := |rms| - 1;
      MetricsInOrder(rms[..n], maxBody, net);
      var b := MetricsBatch(rms[..n], maxBody, net);
      if n > 0 {
        ListedFlush(b, SourceHeaders(rms[n - 1].attributes), net);
        ListedAppend(Flush(b, SourceHeaders(rms[n - 1].attributes), net), AsItem(rms[n]), maxBody, net);
      }
      ListedAppend(b, AsItem(rms[n]), maxBody, net);
    }
  }

  /** The last request keeps the order as well. */
  lemma FinishInOrder<R>(b: Batch<R>, headers: Headers, net: Transport)
    ensures
      var c := Finish(b, headers, net);
      Listed(c.carried, c.open) == Listed(b.carried, b.open)
  {
    hide Listed, Flush;
    ListedFlush(b, headers, net);
  }

  lemma NoneListed()
    ensures Listed<Resource>([], []) == []
  {}

  // ---- Fullness ----

  /** The length the item would add to a body: its text and a newline. */
  function Added<R>(x: Item<R>): nat {
    if x.lines == [] then 0 else |Join(x.lines)| + 1
  }

  lemma AddedIsTotal<R>(x: Item<R>)
    ensures Added(x) == TotalLength(x.lines)
  {
    if x.lines != [] {
      TotalLengthIsJoin(x.lines);
    }
  }

  /** The request with these items had to end before the next one. */
  ghost predicate HadToEnd<R>(r: Request, items: seq<Item<R>>, next: Item<R>, maxBody: int) {
    items != [] && (|r.body| + Added(next) >= maxBody || next.headers != items[|items| - 1].headers)
  }

  /** Every request had to end before the item that begins the next one, or is open. */
  ghost predicate Full<R>(b: Batch<R>, maxBody: int) {
    && |b.requests| == |b.carried|
    && (forall k :: 0 <= k < |b.carried| ==> b.carried[k] != [])
    && (forall k :: 0 <= k < |b.carried| - 1 ==> HadToEnd(b.requests[k], b.carried[k], b.carried[k + 1][0], maxBody))
    && (b.body != "" ==> b.open != [])
    && (b.open != [] ==> EndedFor(b, b.open[0], maxBody))
  }

  /** The last request, if there is one, had to end before the item. */
  ghost predicate EndedFor<R>(b: Batch<R>, x: Item<R>, maxBody: int) {
    |b.requests| == |b.carried| &&
    var n := |b.carried| - 1;
    n >= 0 ==> HadToEnd(b.requests[n], b.carried[n], x, maxBody)
  }

  lemma FlushFull<R>(b: Batch<R>, headers: Headers, net: Transport, maxBody: int)
    requires Full(b, maxBody) && b.body != ""
    ensures Full(Flush(b, headers, net), maxBody)
    ensures forall x: Item<R> :: |b.body| + Added(x) >= maxBody || x.headers != b.open[|b.open| - 1].headers ==>
      EndedFor(Flush(b, headers, net), x, maxBody)
  {
    hide Added, Values;
    var c, n := Flush(b, headers, net), |b.carried|;
    assert c.carried[n] == b.open && c.requests[n].body == b.body;
    assert forall k :: 0 <= k < n ==> c.carried[k] == b.carried[k] && c.requests[k] == b.requests[k];
  }

  /** Appending to a batch whose last request, if nothing is open, had to end before the item. */
  lemma AppendFull<R>(b: Batch<R>, x: Item<R>, maxBody: int, net: Transport)
    requires Full(b, maxBody) && (b.open == [] ==> EndedFor(b, x, maxBody))
    ensures Full(Append(b, x, maxBody, net), maxBody)
  {
    hide Added, Join, TotalLength, Flush, HadToEnd;
    AddedIsTotal(x);
    var sends := b.body != "" && |b.body| + TotalLength(x.lines) >= maxBody;
    if sends {
      FlushFull(b, x.headers, net, maxBody);
    }
    var c := if sends then Flush(b, x.headers, net) else b;
    assert sends ==> c.open == [] by { FlushOpens(b, x.headers, net); }
  }

  lemma FlushOpens<R>(b: Batch<R>, headers: Headers, net: Transport)
    ensures Flush(b, headers, net).open == [] && Flush(b, headers, net).body == ""
  {}

  /** Once there is an open item there is one until the next flush; a log batch is only flushed to make room. */
  lemma {:induction false} LogBatchFull<R>(rs: seq<R>, format: R -> Option<string>, headers: Headers,
                                           maxBody: int, net: Transport)
    ensures
      var b := LogBatch(rs, format, headers, maxBody, net);
      Full(b, maxBody) && (b.open == [] ==> b.carried == [])
  {
    hide HadToEnd, Flush, Join, TotalLength;
    if |rs| > 0 {
      var init, r := rs[..|rs| - 1], rs[|rs| - 1];
      LogBatchFull(init, format, headers, maxBody, net);
      if format(r).Some? {
        AppendFull(LogBatch(init, format, headers, maxBody, net), Item(r, [format(r).value], headers), maxBody, net);
      }
    }
  }

  lemma FinishFull<R>(b: Batch<R>, headers: Headers, net: Transport, maxBody: int)
    requires Full(b, maxBody)
    ensures Full(Finish(b, headers, net), maxBody)
  {
    hide HadToEnd, Flush;
    if b.body != "" {
      FlushFull(b, headers, net, maxBody);
    }
  }

  /** Logs: each request but the last is so long that the line that begins the next one would have filled it up. */
  lemma LogsFull<R>(rs: seq<R>, format: R -> Option<string>, headers: Headers, maxBody: int, net: Transport)
    ensures Full(Finish(LogBatch(rs, format, headers, maxBody, net), headers, net), maxBody)
  {
    hide Full, LogBatch, Finish;
    LogBatchFull(rs, format, headers, maxBody, net);
    FinishFull(LogBatch(rs, format, headers, maxBody, net), headers, net, maxBody);
  }

  lemma {:induction false} MetricsBatchFull(rms: seq<Resource>, maxBody: int, net: Transport)
    ensures
      var b := MetricsBatch(rms, maxBody, net);
      && Full(b, maxBody) && (rms == [] ==> b == NoBatch())
      && (rms != [] ==> b.open != [] && b.open[|b.open| - 1] == AsItem(rms[|rms| - 1]))
  {
    hide HadToEnd, Flush, Join, TotalLength, SourceHeaders, Full, EndedFor;
    if |rms| == 0 {
      assert Full(NoBatch<Resource>(), maxBody) by { NoBatchFull<Resource>(maxBody); }
    } else {
      var n := |rms| - 1;
      var init, r := rms[..n], rms[n];
      MetricsBatchFull(init, maxBody, net);
      var b := MetricsBatch(init, maxBody, net);
      if n == 0 {
        NoBatchFull<Resource>(maxBody);
        NothingEnded(AsItem(r), maxBody);
        AppendFull(b, AsItem(r), maxBody, net);
      } else {
        var previous := SourceHeaders(rms[n - 1].attributes);
        if previous != SourceHeaders(r.attributes) && b.body != "" {
          FlushFull(b, previous, net, maxBody);
          FlushOpens(b, previous, net);
          AppendFull(Flush(b, previous, net), AsItem(r), maxBody, net);
        } else {
          AppendFull(b, AsItem(r), maxBody, net);
        }
      }
    }
  }

  lemma NoBatchFull<R>(maxBody: int)
    ensures Full(NoBatch<R>(), maxBody)
  {}

  lemma NothingEnded<R>(x: Item<R>, maxBody: int)
    ensures EndedFor(NoBatch<R>(), x, maxBody)
  {}

  /** Metrics: each request but the last ended because the source changed or the next resource would have filled it. */
  lemma MetricsFull(rms: seq<Resource>, maxBody: int, net: Transport)
    ensures Full(MetricsSent(rms, maxBody, net), maxBody)
  {
    hide Full, MetricsBatch, Finish, SourceHeaders;
    MetricsBatchFull(rms, maxBody, net);
    if rms != [] {
      FinishFull(MetricsBatch(rms, maxBody, net), SourceHeaders(rms[|rms| - 1].attributes), net, maxBody);
    }
  }
}
