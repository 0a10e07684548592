/**
 Which requests are of one source. Resources without text have nothing to send but are listed with a request; exactly
 when all resources of all requests share their source is said here.
 */
module SenderSources {
  import opened Base
  import opened Sender
  import opened SenderProperties

  predicate HasLines(r: Resource) {
    Join(r.lines) != ""
  }

  /** Resource j is the first with text from i on. */
  ghost predicate NextText(rms: seq<Resource>, i: nat, j: nat) {
    i <= j < |rms| && HasLines(rms[j]) && forall m :: i <= m < j ==> !HasLines(rms[m])
  }

  /** Every resource without text has the source of the next one with text. */
  ghost predicate Announced(rms: seq<Resource>) {
    forall i, j :: 0 <= i <= j && NextText(rms, i, j) ==>
      SourceHeaders(rms[i].attributes) == SourceHeaders(rms[j].attributes)
  }

  /** All items listed with a request have its headers. */
  ghost predicate OneSource<R>(b: Batch<R>) {
    |b.requests| == |b.carried| && forall k :: 0 <= k < |b.requests| ==> AllFrom(b.carried[k], b.requests[k].headers)
  }

  ghost predicate AllFrom<R>(items: seq<Item<R>>, headers: Headers) {
    forall i :: 0 <= i < |items| ==> items[i].headers == headers
  }

  // ---- The condition is enough ----

  /** The open items are the last of the first n resources, none of which has text if the body has none. */
  ghost predicate TailOpen(b: Batch<Resource>, rms: seq<Resource>, n: nat) {
    && |b.open| <= n <= |rms|
    && forall p :: n - |b.open| <= p < n ==>
         b.open[p - (n - |b.open|)] == AsItem(rms[p]) && (b.body == "" ==> !HasLines(rms[p]))
  }

  /** After the first n resources: once there is text, the open items are of one source. */
  ghost predicate Gathered(b: Batch<Resource>, rms: seq<Resource>, n: nat) {
    && TailOpen(b, rms, n)
    && (b.body != "" ==> n > 0 && AllFrom(b.open, SourceHeaders(rms[n - 1].attributes)))
  }

  /** Ready for resource n: if there is text, the open items are of its source. */
  ghost predicate Ready(b: Batch<Resource>, rms: seq<Resource>, n: nat) {
    && n < |rms| && TailOpen(b, rms, n)
    && (b.body != "" ==> AllFrom(b.open, SourceHeaders(rms[n].attributes)))
  }

  lemma FlushOneSource<R>(b: Batch<R>, headers: Headers, net: Transport)
    requires OneSource(b) && AllFrom(b.open, headers)
    ensures OneSource(Flush(b, headers, net))
  {
    hide AllFrom;
    var c := Flush(b, headers, net);
    forall k | 0 <= k < |c.requests| ensures AllFrom(c.carried[k], c.requests[k].headers) {
      if k < |b.requests| {
        assert c.requests[k] == b.requests[k] && c.carried[k] == b.carried[k];
      }
    }
  }

  /** The batch just before resource n is appended: a changed source has been sent off. */
  function Cleared(b: Batch<Resource>, rms: seq<Resource>, n: nat, net: Transport): Batch<Resource>
    requires n < |rms|
  {
    var changed := n > 0 && SourceHeaders(rms[n - 1].attributes) != SourceHeaders(rms[n].attributes) && b.body != "";
    if changed then Flush(b, SourceHeaders(rms[n - 1].attributes), net) else b
  }

  lemma MetricsBatchNext(rms: seq<Resource>, n: nat, maxBody: int, net: Transport)
    requires n < |rms|
    ensures MetricsBatch(rms[..n + 1], maxBody, net)
         == Append(Cleared(MetricsBatch(rms[..n], maxBody, net), rms, n, net), AsItem(rms[n]), maxBody, net)
  {
    hide Append, SourceHeaders, Flush;
    assert rms[..n + 1][..n] == rms[..n];
  }

  /** The batch just before the text of an item is added: a body it would fill has been sent off. */
  function Emptied(b: Batch<Resource>, x: Item<Resource>, maxBody: int, net: Transport): Batch<Resource> {
    if b.body != "" && |b.body| + TotalLength(x.lines) >= maxBody then Flush(b, x.headers, net) else b
  }

  lemma FlushReady(b: Batch<Resource>, rms: seq<Resource>, n: nat, headers: Headers, net: Transport)
    requires n < |rms| && OneSource(b) && AllFrom(b.open, headers)
    ensures Ready(Flush(b, headers, net), rms, n) && OneSource(Flush(b, headers, net))
  {
    hide SourceHeaders, OneSource, HasLines;
    FlushOneSource(b, headers, net);
  }

  lemma ClearedReady(b: Batch<Resource>, rms: seq<Resource>, n: nat, net: Transport)
    requires n < |rms| && Gathered(b, rms, n) && OneSource(b)
    ensures Ready(Cleared(b, rms, n, net), rms, n) && OneSource(Cleared(b, rms, n, net))
  {
    hide SourceHeaders, OneSource, TailOpen, Flush;
    if n > 0 && b.body != "" {
      FlushReady(b, rms, n, SourceHeaders(rms[n - 1].attributes), net);
    }
  }

  lemma EmptiedReady(b: Batch<Resource>, rms: seq<Resource>, n: nat, maxBody: int, net: Transport)
    requires n < |rms| && Ready(b, rms, n) && OneSource(b)
    ensures
      var c := Emptied(b, AsItem(rms[n]), maxBody, net);
      Ready(c, rms, n) && OneSource(c)
  {
    hide SourceHeaders, OneSource, TotalLength, TailOpen, Flush;
    if b.body != "" {
      FlushReady(b, rms, n, AsItem(rms[n]).headers, net);
    }
  }

  function Added(b: Batch<Resource>, x: Item<Resource>): Batch<Resource> {
    b.(open := b.open + [x],
       body := if b.body == "" then Join(x.lines) else b.body + "\n" + Join(x.lines),
       counter := b.counter + |x.lines|)
  }

  lemma AppendIsAdded(b: Batch<Resource>, x: Item<Resource>, maxBody: int, net: Transport)
    ensures Append(b, x, maxBody, net) == Added(Emptied(b, x, maxBody, net), x)
  {
    hide Flush, Join, TotalLength;
  }

  lemma AddedTail(b: Batch<Resource>, rms: seq<Resource>, n: nat)
    requires n < |rms| && TailOpen(b, rms, n)
    ensures TailOpen(Added(b, AsItem(rms[n])), rms, n + 1)
  {
    hide SourceHeaders, Join, AsItem;
    assert AsItem(rms[n]).lines == rms[n].lines by { LinesOf(rms[n]); }
  }

  lemma LinesOf(r: Resource)
    ensures AsItem(r).lines == r.lines && AsItem(r).headers == SourceHeaders(r.attributes)
  {}

  /** The text-less resources before the first with text are of its source. */
  lemma LeadersFollow(b: Batch<Resource>, rms: seq<Resource>, n: nat)
    requires n < |rms| && TailOpen(b, rms, n) && Announced(rms) && b.body == "" && HasLines(rms[n])
    ensures AllFrom(b.open, SourceHeaders(rms[n].attributes))
  {
    hide SourceHeaders, HasLines;
    forall i | 0 <= i < |b.open| ensures b.open[i].headers == SourceHeaders(rms[n].attributes) {
      var p := n - |b.open| + i;
      assert b.open[i] == AsItem(rms[p]);
      assert NextText(rms, p, n);
    }
  }

  lemma AddedGathered(b: Batch<Resource>, rms: seq<Resource>, n: nat)
    requires Ready(b, rms, n) && Announced(rms)
    ensures Gathered(Added(b, AsItem(rms[n])), rms, n + 1)
  {
    hide SourceHeaders, Join, TailOpen, Announced;
    AddedTail(b, rms, n);
    if b.body == "" && HasLines(rms[n]) {
      LeadersFollow(b, rms, n);
    }
  }

  lemma AddedOneSource(b: Batch<Resource>, x: Item<Resource>)
    requires OneSource(b)
    ensures OneSource(Added(b, x))
  {}

  lemma NoneGathered(rms: seq<Resource>, maxBody: int, net: Transport)
    ensures
      var b := MetricsBatch([], maxBody, net);
      Gathered(b, rms, 0) && OneSource(b)
  {}

  lemma {:induction false} AnnouncedBatch(rms: seq<Resource>, n: nat, maxBody: int, net: Transport)
    requires Announced(rms) && n <= |rms|
    ensures
      var b := MetricsBatch(rms[..n], maxBody, net);
      Gathered(b, rms, n) && OneSource(b)
  {
    hide SourceHeaders, Announced, Ready, Gathered, OneSource, AsItem, MetricsBatch, Append, Added, Emptied, Cleared;
    if n == 0 {
      assert rms[..0] == [];
      NoneGathered(rms, maxBody, net);
    } else {
      AnnouncedBatch(rms, n - 1, maxBody, net);
      MetricsBatchNext(rms, n - 1, maxBody, net);
      var b, x := Cleared(MetricsBatch(rms[..n - 1], maxBody, net), rms, n - 1, net), AsItem(rms[n - 1]);
      ClearedReady(MetricsBatch(rms[..n - 1], maxBody, net), rms, n - 1, net);
      EmptiedReady(b, rms, n - 1, maxBody, net);
      var c := Emptied(b, x, maxBody, net);
      AddedGathered(c, rms, n - 1);
      AddedOneSource(c, x);
      AppendIsAdded(b, x, maxBody, net);
    }
  }

  // ---- The condition is needed ----

  /** The two items are open together with some text, or listed with the same request. */
  ghost predicate Together<R(!new)>(b: Batch<R>, x: Item<R>, y: Item<R>) {
    || (b.body != "" && x in b.open && y in b.open)
    || exists k :: 0 <= k < |b.carried| && x in b.carried[k] && y in b.carried[k]
  }

  lemma FlushTogether<R(!new)>(b: Batch<R>, x: Item<R>, y: Item<R>, headers: Headers, net: Transport)
    requires Together(b, x, y)
    ensures Together(Flush(b, headers, net), x, y)
    ensures exists k :: 0 <= k < |Flush(b, headers, net).carried|
                     && x in Flush(b, headers, net).carried[k] && y in Flush(b, headers, net).carried[k]
  {
    var c := Flush(b, headers, net);
    if x in b.open && y in b.open {
      assert c.carried[|b.carried|] == b.open;
    } else {
      var k :| 0 <= k < |b.carried| && x in b.carried[k] && y in b.carried[k];
      assert c.carried[k] == b.carried[k];
    }
  }

  lemma AppendTogether<R(!new)>(b: Batch<R>, x: Item<R>, y: Item<R>, z: Item<R>, maxBody: int, net: Transport)
    requires Together(b, x, y)
    ensures Together(Append(b, z, maxBody, net), x, y)
  {
    hide Flush, TotalLength, Join;
    FlushTogether(b, x, y, z.headers, net);
  }

  /** With a limit of zero every text goes out as soon as another resource comes. */
  lemma ZeroLimit(rms: seq<Resource>, net: Transport)
    requires rms != [] && !HasLines(rms[|rms| - 1])
    ensures
      var b := MetricsBatch(rms, 0, net);
      b.body == "" && b.open != [] && b.open[|b.open| - 1] == AsItem(rms[|rms| - 1])
  {
    hide SourceHeaders, TotalLength, Join, Values;
  }

  lemma {:induction false} StillOpen(rms: seq<Resource>, i: nat, m: nat, net: Transport)
    requires i < m <= |rms| && forall k :: i <= k < m ==> !HasLines(rms[k])
    ensures
      var b := MetricsBatch(rms[..m], 0, net);
      b.body == "" && AsItem(rms[i]) in b.open
  {
    hide SourceHeaders, TotalLength, Join, Values;
    ZeroLimit(rms[..m], net);
    if m > i + 1 {
      StillOpen(rms, i, m - 1, net);
      assert rms[..m][..m - 1] == rms[..m - 1];
    }
  }

  lemma {:induction false} StayTogether(rms: seq<Resource>, i: nat, j: nat, m: nat, net: Transport)
    requires i < j < m <= |rms| && NextText(rms, i, j)
    ensures Together(MetricsBatch(rms[..m], 0, net), AsItem(rms[i]), AsItem(rms[j]))
  {
    hide SourceHeaders, TotalLength, Join, Values, AsItem, MetricsBatch, Together, Append, Flush;
    var x, y := AsItem(rms[i]), AsItem(rms[j]);
    var b := MetricsBatch(rms[..m - 1], 0, net);
    var c := Cleared(b, rms, m - 1, net);
    MetricsBatchNext(rms, m - 1, 0, net);
    if m == j + 1 {
      StillOpen(rms, i, j, net);
      LinesOf(rms[j]);
      MeetHere(b, x, y, net);
    } else {
      StayTogether(rms, i, j, m - 1, net);
      FlushTogether(b, x, y, SourceHeaders(rms[m - 2].attributes), net);
      AppendTogether(c, x, y, AsItem(rms[m - 1]), 0, net);
    }
  }

  lemma MeetHere<R(!new)>(b: Batch<R>, x: Item<R>, y: Item<R>, net: Transport)
    requires b.body == "" && x in b.open && Join(y.lines) != ""
    ensures Together(Append(b, y, 0, net), x, y)
  {
    hide Join, Flush;
  }

  lemma ListedTogether(rms: seq<Resource>, i: nat, j: nat, net: Transport) returns (k: nat)
    requires i < j && NextText(rms, i, j)
    ensures
      var b := MetricsSent(rms, 0, net);
      k < |b.carried| && AsItem(rms[i]) in b.carried[k] && AsItem(rms[j]) in b.carried[k]
  {
    hide SourceHeaders, MetricsBatch, Flush;
    StayTogether(rms, i, j, |rms|, net);
    assert rms[..|rms|] == rms;
    var open := MetricsBatch(rms, 0, net);
    if open.body != "" {
      FlushTogether(open, AsItem(rms[i]), AsItem(rms[j]), SourceHeaders(rms[|rms| - 1].attributes), net);
    }
    var b := MetricsSent(rms, 0, net);
    var l :| 0 <= l < |b.carried| && AsItem(rms[i]) in b.carried[l] && AsItem(rms[j]) in b.carried[l];
    k := l;
  }

  lemma ForeignListed(rms: seq<Resource>, i: nat, j: nat, net: Transport)
    requires NextText(rms, i, j) && SourceHeaders(rms[i].attributes) != SourceHeaders(rms[j].attributes)
    ensures !OneSource(MetricsSent(rms, 0, net))
  {
    hide SourceHeaders, MetricsSent;
    var k := ListedTogether(rms, i, j, net);
    var b := MetricsSent(rms, 0, net);
    var m :| 0 <= m < |b.carried[k]| && b.carried[k][m] == AsItem(rms[j]);
    OwnHeaders(rms, 0, net, k, m);
  }

  /**
   Exactly when every resource listed with a request has its source headers, whatever the size limit and the
   failures: every resource without text has the source of the next one with text.
   */
  lemma OneSourceIff(rms: seq<Resource>)
    ensures Announced(rms) <==> forall maxBody, net :: OneSource(MetricsSent(rms, maxBody, net))
  {
    hide OneSource, SourceHeaders, MetricsBatch, HasLines;
    if Announced(rms) {
      forall maxBody, net ensures OneSource(MetricsSent(rms, maxBody, net)) {
        AnnouncedBatch(rms, |rms|, maxBody, net);
        assert rms[..|rms|] == rms;
        var open := MetricsBatch(rms, maxBody, net);
        if open.body != "" {
          FlushOneSource(open, SourceHeaders(rms[|rms| - 1].attributes), net);
        }
      }
    } else {
      var i, j :| 0 <= i <= j && NextText(rms, i, j)
               && SourceHeaders(rms[i].attributes) != SourceHeaders(rms[j].attributes);
      ForeignListed(rms, i, j, _ => true);
      assert !OneSource(MetricsSent(rms, 0, _ => true));
    }
  }
}
