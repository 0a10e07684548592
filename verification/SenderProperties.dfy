/**
 What batching promises: nothing is lost or sent twice, requests stay within the size limit, and
 every request carries data of one source only.
 */
module SenderProperties {
  import opened Base
  import opened Sender

  // ---- Accounting, for every input and every pattern of failures ----

  /** The values carried by the requests with the given outcome. */
  ghost function Carried<R>(requests: seq<Request>, carried: seq<seq<Item<R>>>, ok: bool): multiset<R>
    requires |requests| == |carried|
  {
    if |requests| == 0 then multiset{}
    else
      var n := |requests| - 1;
      Carried(requests[..n], carried[..n], ok)
      + if requests[n].ok == ok then multiset(Values(carried[n])) else multiset{}
  }

  lemma CarriedSnoc<R>(requests: seq<Request>, carried: seq<seq<Item<R>>>, r: Request, c: seq<Item<R>>, ok: bool)
    requires |requests| == |carried|
    ensures Carried(requests + [r], carried + [c], ok)
         == Carried(requests, carried, ok) + if r.ok == ok then multiset(Values(c)) else multiset{}
  {
    assert (requests + [r])[..|requests|] == requests && (carried + [c])[..|carried|] == carried;
  }

  /** Every value is in a successful request, dropped, or still open; dropped are those of failed requests and `bad`. */
  ghost predicate Accounted<R>(b: Batch<R>, all: multiset<R>, bad: multiset<R>) {
    && |b.requests| == |b.carried|
    && all == Carried(b.requests, b.carried, true) + multiset(b.dropped) + multiset(Values(b.open))
    && multiset(b.dropped) == Carried(b.requests, b.carried, false) + bad
  }

  lemma FlushAccounted<R>(b: Batch<R>, headers: Headers, net: Transport, all: multiset<R>, bad: multiset<R>)
    requires Accounted(b, all, bad)
    ensures Accounted(Flush(b, headers, net), all, bad)
  {
    hide Carried;
    var r := Flush(b, headers, net).requests[|b.requests|];
    CarriedSnoc(b.requests, b.carried, r, b.open, true);
    CarriedSnoc(b.requests, b.carried, r, b.open, false);
  }

  lemma AppendAccounted<R>(b: Batch<R>, x: Item<R>, maxBody: int, net: Transport, all: multiset<R>, bad: multiset<R>)
    requires Accounted(b, all, bad)
    ensures Accounted(Append(b, x, maxBody, net), all + multiset{x.value}, bad)
  {
    hide Carried, TotalLength, Join, Flush;
    var sends := b.body != "" && |b.body| + TotalLength(x.lines) >= maxBody;
    var c := if sends then Flush(b, x.headers, net) else b;
    if sends {
      FlushAccounted(b, x.headers, net, all, bad);
    }
    assert Values(c.open + [x]) == Values(c.open) + [x.value];
  }

  /** The records that could not be formatted. */
  ghost function Unformatted<R>(rs: seq<R>, format: R -> Option<string>): multiset<R> {
    if |rs| == 0 then multiset{}
    else
      Unformatted(rs[..|rs| - 1], format)
      + if format(rs[|rs| - 1]).None? then multiset{rs[|rs| - 1]} else multiset{}
  }

  lemma {:induction false} LogBatchAccounted<R>(rs: seq<R>, format: R -> Option<string>, headers: Headers,
                                                maxBody: int, net: Transport)
    ensures Accounted(LogBatch(rs, format, headers, maxBody, net), multiset(rs), Unformatted(rs, format))
  {
    hide Append, Accounted;
    if |rs| == 0 {
      NoBatchAccounted<R>();
    } else {
      var init, r := rs[..|rs| - 1], rs[|rs| - 1];
      LogBatchAccounted(init, format, headers, maxBody, net);
      var b := LogBatch(init, format, headers, maxBody, net);
      assert rs == init + [r];
      if format(r).None? {
        DropAccounted(b, r, multiset(init), Unformatted(init, format));
      } else {
        assert Unformatted(rs, format) == Unformatted(init, format);
        var x := Item(r, [format(r).value], headers);
        AppendAccounted(b, x, maxBody, net, multiset(init), Unformatted(init, format));
      }
    }
  }

  lemma NoBatchAccounted<R>()
    ensures Accounted(NoBatch<R>(), multiset{}, multiset{})
  {}

  lemma DropAccounted<R>(b: Batch<R>, r: R, all: multiset<R>, bad: multiset<R>)
    requires Accounted(b, all, bad)
    ensures Accounted(b.(dropped := b.dropped + [r]), all + multiset{r}, bad + multiset{r})
  {}

  /** What is open when the batch ends and has no text to send. */
  function Unsent<R>(b: Batch<R>): seq<R> {
    if b.body == "" then Values(b.open) else []
  }

  /** Records whose text never reached a body: formatted to nothing since the last send. */
  function Lost<R>(rs: seq<R>, format: R -> Option<string>, headers: Headers, maxBody: int, net: Transport): seq<R> {
    Unsent(LogBatch(rs, format, headers, maxBody, net))
  }

  /**
   Every record is in exactly one successful request, exactly once among the dropped, or lost because its text
   and that of all records after it is empty; dropped are exactly those of failed requests and the unformatted.
   */
  lemma LogsAccounted<R>(scopes: seq<seq<R>>, format: R -> Option<string>, headers: Headers,
                         maxBody: int, net: Transport)
    ensures
      var rs := Flatten(scopes);
      var b := Finish(LogBatch(rs, format, headers, maxBody, net), headers, net);
      && |b.requests| == |b.carried|
      && multiset(rs) == Carried(b.requests, b.carried, true) + multiset(b.dropped)
                       + multiset(Lost(rs, format, headers, maxBody, net))
      && multiset(b.dropped) == Carried(b.requests, b.carried, false) + Unformatted(rs, format)
  {
    hide LogBatch, Flatten, Unformatted, Carried;
    var rs := Flatten(scopes);
    LogBatchAccounted(rs, format, headers, maxBody, net);
    var b := LogBatch(rs, format, headers, maxBody, net);
    if b.body != "" {
      FlushAccounted(b, headers, net, multiset(rs), Unformatted(rs, format));
    }
  }

  // ---- Well formed requests, for every input ----

  function AllLines<R>(items: seq<Item<R>>): seq<string> {
    if |items| == 0 then [] else AllLines(items[..|items| - 1]) + items[|items| - 1].lines
  }

  lemma AllLinesSnoc<R>(items: seq<Item<R>>, x: Item<R>)
    ensures AllLines(items + [x]) == AllLines(items) + x.lines
  {
    assert (items + [x])[..|items|] == items;
  }

  function Text<R>(x: Item<R>): string {
    Join(x.lines)
  }

  /** The texts of the items. */
  function Texts<R>(items: seq<Item<R>>): seq<string> {
    seq(|items|, i requires 0 <= i < |items| => Text(items[i]))
  }

  /** How many items come before the first that has any text. */
  function Lead<R>(items: seq<Item<R>>): (n: nat)
    ensures n <= |items| && (forall i :: 0 <= i < n ==> Text(items[i]) == "") && (n < |items| ==> Text(items[n]) != "")
  {
    if |items| == 0 then 0
    else
      var init := items[..|items| - 1];
      var n := Lead(init);
      if n < |init| then n else if Text(items[|items| - 1]) != "" then |init| else |items|
  }

  lemma LeadSnoc<R>(items: seq<Item<R>>, x: Item<R>)
    ensures Lead(items + [x]) ==
      if Lead(items) < |items| then Lead(items) else if Text(x) != "" then |items| else |items| + 1
  {
    assert (items + [x])[..|items|] == items;
  }

  /**
   A body: from the first item with text on, the texts of its items joined, all of them from one source. It is
   shorter than the limit, unless there is only one item from there on; an item without lines may make it as long.
   */
  ghost predicate WellFormed<R>(body: string, counter: nat, headers: Headers, items: seq<Item<R>>, maxBody: int) {
    var n := Lead(items);
    && n < |items|
    && body == Join(Texts(items[n..])) && body != ""
    && counter == |AllLines(items)|
    && (forall i :: n <= i < |items| ==> items[i].headers == headers)
    && (|body| < maxBody || n + 1 == |items| || (|body| == maxBody && items[|items| - 1].lines == []))
  }

  /** The body under construction: without text so far, or well formed with the headers of its last item. */
  ghost predicate OpenGood<R>(b: Batch<R>, maxBody: int) {
    if b.body == "" then Lead(b.open) == |b.open| && b.counter == |AllLines(b.open)|
    else b.open != [] && WellFormed(b.body, b.counter, b.open[|b.open| - 1].headers, b.open, maxBody)
  }

  ghost predicate Good<R>(b: Batch<R>, maxBody: int) {
    && |b.requests| == |b.carried|
    && (forall k :: 0 <= k < |b.requests| ==>
          WellFormed(b.requests[k].body, b.requests[k].counter, b.requests[k].headers, b.carried[k], maxBody))
    && OpenGood(b, maxBody)
  }

  lemma NoBatchGood<R>(maxBody: int)
    ensures Good(NoBatch<R>(), maxBody)
  {}

  lemma FlushGood<R>(b: Batch<R>, headers: Headers, net: Transport, maxBody: int)
    requires Good(b, maxBody) && b.body != "" && b.open != [] && b.open[|b.open| - 1].headers == headers
    ensures Good(Flush(b, headers, net), maxBody)
  {
    hide WellFormed;
    var c := Flush(b, headers, net);
    forall k | 0 <= k < |c.requests|
      ensures WellFormed(c.requests[k].body, c.requests[k].counter, c.requests[k].headers, c.carried[k], maxBody)
    {
      if k < |b.requests| {
        assert c.requests[k] == b.requests[k] && c.carried[k] == b.carried[k];
      }
    }
  }

  lemma ExtendWellFormed<R>(b: Batch<R>, x: Item<R>, maxBody: int)
    requires b.open != [] && WellFormed(b.body, b.counter, x.headers, b.open, maxBody)
    requires |b.body| + TotalLength(x.lines) < maxBody
    ensures WellFormed(b.body + "\n" + Join(x.lines), b.counter + |x.lines|, x.headers, b.open + [x], maxBody)
  {
    hide Lead, AllLines, Join, TotalLength;
    AllLinesSnoc(b.open, x);
    LeadSnoc(b.open, x);
    var n, all := Lead(b.open), b.open + [x];
    assert Texts(all[n..]) == Texts(b.open[n..]) + [Text(x)];
    JoinSnoc(Texts(b.open[n..]), Text(x));
    if x.lines == [] {
      JoinNone();
    } else {
      TotalLengthIsJoin(x.lines);
    }
  }

  lemma JoinNone()
    ensures Join([]) == ""
  {}

  lemma FirstText<R>(b: Batch<R>, x: Item<R>, maxBody: int)
    requires Lead(b.open) == |b.open| && b.counter == |AllLines(b.open)|
    ensures
      var all := b.open + [x];
      if Join(x.lines) == "" then Lead(all) == |all| && b.counter + |x.lines| == |AllLines(all)|
      else WellFormed(Join(x.lines), b.counter + |x.lines|, x.headers, all, maxBody)
  {
    hide AllLines, Lead, Join;
    var n, all := |b.open|, b.open + [x];
    AllLinesSnoc(b.open, x);
    LeadSnoc(b.open, x);
    assert Texts(all[n..]) == [Text(x)];
    JoinOne(Text(x));
  }

  /** A size triggered send uses the headers of the next item; they are those of the body, if it has text. */
  lemma AppendGood<R>(b: Batch<R>, x: Item<R>, maxBody: int, net: Transport)
    requires Good(b, maxBody)
    requires b.body != "" && b.open != [] ==> b.open[|b.open| - 1].headers == x.headers
    ensures Good(Append(b, x, maxBody, net), maxBody)
    ensures Append(b, x, maxBody, net).open != []
    ensures var o := Append(b, x, maxBody, net).open; o[|o| - 1] == x
  {
    hide Join, TotalLength, WellFormed, Lead, AllLines;
    var sends := b.body != "" && |b.body| + TotalLength(x.lines) >= maxBody;
    var c := if sends then Flush(b, x.headers, net) else b;
    if sends {
      FlushGood(b, x.headers, net, maxBody);
    }
    if c.body == "" {
      FirstText(c, x, maxBody);
    } else {
      ExtendWellFormed(c, x, maxBody);
      assert c.body + "\n" + Join(x.lines) != "";
    }
  }

  /** Every carried or open item satisfies p. */
  ghost predicate Every<R(!new)>(b: Batch<R>, p: Item<R> -> bool) {
    && (forall k, i :: 0 <= k < |b.carried| && 0 <= i < |b.carried[k]| ==> p(b.carried[k][i]))
    && (forall i :: 0 <= i < |b.open| ==> p(b.open[i]))
  }

  lemma NoBatchEvery<R(!new)>(p: Item<R> -> bool)
    ensures Every(NoBatch<R>(), p)
  {}

  lemma FlushEvery<R(!new)>(b: Batch<R>, headers: Headers, net: Transport, p: Item<R> -> bool)
    requires Every(b, p)
    ensures Every(Flush(b, headers, net), p)
  {}

  lemma AppendEvery<R(!new)>(b: Batch<R>, x: Item<R>, maxBody: int, net: Transport, p: Item<R> -> bool)
    requires Every(b, p) && p(x)
    ensures Every(Append(b, x, maxBody, net), p)
  {
    hide Join, TotalLength, Flush;
    FlushEvery(b, x.headers, net, p);
  }

  // ---- Logs ----

  /** The item is a record with its own line, sent with the headers of the logs. */
  ghost function LogItem<R>(format: R -> Option<string>, headers: Headers): Item<R> -> bool {
    (x: Item<R>) => format(x.value).Some? && x.lines == [format(x.value).value] && x.headers == headers
  }

  lemma {:induction false} LogBatchGood<R(!new)>(rs: seq<R>, format: R -> Option<string>, headers: Headers,
                                                 maxBody: int, net: Transport)
    ensures
      var b := LogBatch(rs, format, headers, maxBody, net);
      Good(b, maxBody) && Every(b, LogItem(format, headers))
  {
    hide WellFormed, TotalLength, Join, Append, OpenGood;
    if |rs| == 0 {
      NoBatchGood<R>(maxBody);
    } else {
      var init, r := rs[..|rs| - 1], rs[|rs| - 1];
      LogBatchGood(init, format, headers, maxBody, net);
      var b := LogBatch(init, format, headers, maxBody, net);
      if format(r).Some? {
        var x := Item(r, [format(r).value], headers);
        AppendGood(b, x, maxBody, net);
        AppendEvery(b, x, maxBody, net, LogItem(format, headers));
      } else {
        OpenGoodReads(b, b.(dropped := b.dropped + [r]), maxBody);
      }
    }
  }

  lemma OpenGoodReads<R>(b: Batch<R>, c: Batch<R>, maxBody: int)
    requires OpenGood(b, maxBody) && c.open == b.open && c.body == b.body && c.counter == b.counter
    ensures OpenGood(c, maxBody)
  {}

  lemma JoinOne(line: string)
    ensures Join([line]) == line
  {}

  lemma {:induction false} LinesPerRecord<R>(items: seq<Item<R>>, format: R -> Option<string>, headers: Headers)
    requires forall i :: 0 <= i < |items| ==> LogItem(format, headers)(items[i])
    ensures |AllLines(items)| == |items|
    ensures forall i :: 0 <= i < |items| ==> format(items[i].value) == Some(AllLines(items)[i])
    ensures Texts(items) == AllLines(items)
  {
    if |items| > 0 {
      var n := |items| - 1;
      LinesPerRecord(items[..n], format, headers);
      assert Texts(items) == Texts(items[..n]) + [Text(items[n])];
      JoinOne(items[n].lines[0]);
    }
  }

  /** One request for logs: its records, the join of their lines, their number, and its size. */
  ghost predicate LogRequest<R(!new)>(r: Request, items: seq<Item<R>>, format: R -> Option<string>, maxBody: int) {
    var lines, n := AllLines(items), Lead(items);
    && |lines| == |items| == r.counter && n < |items|
    && (forall i :: 0 <= i < |lines| ==> format(items[i].value) == Some(lines[i]))
    && (forall i :: 0 <= i < n ==> lines[i] == "")
    && r.body == Join(lines[n..])
    && (|r.body| < maxBody || n + 1 == |items|)
  }

  lemma LogRequestGood<R(!new)>(r: Request, items: seq<Item<R>>, format: R -> Option<string>, headers: Headers,
                                maxBody: int)
    requires WellFormed(r.body, r.counter, r.headers, items, maxBody)
    requires forall i :: 0 <= i < |items| ==> LogItem(format, headers)(items[i])
    ensures LogRequest(r, items, format, maxBody)
  {
    hide AllLines, Join;
    LinesPerRecord(items, format, headers);
    var n := Lead(items);
    assert Texts(items[n..]) == Texts(items)[n..];
    forall i | 0 <= i < n ensures AllLines(items)[i] == "" {
      assert Texts(items)[i] == Text(items[i]);
    }
    assert items[|items| - 1].lines != [];
  }

  /**
   Log batching for every input and every pattern of send failures: each record is in exactly one successful body,
   exactly once among the dropped, or lost at the end without any text. Each body is the newline join of its
   records' lines, from the first that is not empty on, with the number of its records as its counter, and shorter
   than the limit unless only one of its records is left from there on.
   */
  lemma LogsLosslessAndBounded<R(!new)>(scopes: seq<seq<R>>, format: R -> Option<string>, headers: Headers,
                                        maxBody: int, net: Transport)
    ensures
      var rs := Flatten(scopes);
      var b := Finish(LogBatch(rs, format, headers, maxBody, net), headers, net);
      && |b.requests| == |b.carried|
      && multiset(rs) == Carried(b.requests, b.carried, true) + multiset(b.dropped)
                       + multiset(Lost(rs, format, headers, maxBody, net))
      && (forall k :: 0 <= k < |b.requests| ==>
            b.requests[k].headers == headers && LogRequest(b.requests[k], b.carried[k], format, maxBody))
  {
    hide LogBatch, Flatten, Carried, Join, WellFormed, LogRequest, Lead, AllLines;
    var rs := Flatten(scopes);
    var open := LogBatch(rs, format, headers, maxBody, net);
    LogBatchGood(rs, format, headers, maxBody, net);
    LogsAccounted(scopes, format, headers, maxBody, net);
    if open.body != "" {
      FlushGood(open, headers, net, maxBody);
      FlushEvery(open, headers, net, LogItem(format, headers));
    }
    var b := Finish(open, headers, net);
    forall k | 0 <= k < |b.requests|
      ensures b.requests[k].headers == headers && LogRequest(b.requests[k], b.carried[k], format, maxBody)
    {
      LogRequestGood(b.requests[k], b.carried[k], format, headers, maxBody);
      HeadersOf(b.requests[k], b.carried[k], maxBody);
    }
  }

  lemma HeadersOf<R>(r: Request, items: seq<Item<R>>, maxBody: int)
    requires WellFormed(r.body, r.counter, r.headers, items, maxBody)
    ensures items != [] && items[|items| - 1].headers == r.headers
  {}

  /** With non-empty lines nothing is lost, and no record of a body is left out of its text. */
  lemma NonEmptyLines<R(!new)>(rs: seq<R>, format: R -> Option<string>, headers: Headers, maxBody: int, net: Transport)
    requires forall i :: 0 <= i < |rs| && format(rs[i]).Some? ==> format(rs[i]).value != ""
    ensures Lost(rs, format, headers, maxBody, net) == []
    ensures
      var b := Finish(LogBatch(rs, format, headers, maxBody, net), headers, net);
      forall k :: 0 <= k < |b.carried| ==> Lead(b.carried[k]) == 0
  {
    hide LogBatch, Lead, Join, WellFormed;
    var open := LogBatch(rs, format, headers, maxBody, net);
    NonEmptyItems(rs, format, headers, maxBody, net);
    LogBatchGood(rs, format, headers, maxBody, net);
    assert forall i :: 0 <= i < |open.open| ==> HasText<R>()(open.open[i]);
    NoLead(open.open);
    FlushEvery(open, headers, net, HasText<R>());
    var b := Finish(open, headers, net);
    forall k | 0 <= k < |b.carried| ensures Lead(b.carried[k]) == 0 {
      assert forall i :: 0 <= i < |b.carried[k]| ==> HasText<R>()(b.carried[k][i]);
      NoLead(b.carried[k]);
    }
  }

  lemma NoLead<R>(items: seq<Item<R>>)
    requires forall i :: 0 <= i < |items| ==> Text(items[i]) != ""
    ensures Lead(items) == 0
  {
    hide Text;
  }

  ghost function HasText<R>(): Item<R> -> bool {
    (x: Item<R>) => Text(x) != ""
  }

  lemma {:induction false} NonEmptyItems<R(!new)>(rs: seq<R>, format: R -> Option<string>, headers: Headers,
                                                  maxBody: int, net: Transport)
    requires forall i :: 0 <= i < |rs| && format(rs[i]).Some? ==> format(rs[i]).value != ""
    ensures Every(LogBatch(rs, format, headers, maxBody, net), HasText<R>())
  {
    hide Join, Append;
    if |rs| > 0 {
      var init, r := rs[..|rs| - 1], rs[|rs| - 1];
      NonEmptyItems(init, format, headers, maxBody, net);
      if format(r).Some? {
        var x := Item(r, [format(r).value], headers);
        JoinOne(format(r).value);
        AppendEvery(LogBatch(init, format, headers, maxBody, net), x, maxBody, net, HasText<R>());
      }
    }
  }

  // ---- Exactly what is lost ----

  /** The number of records up to the last one with a non-empty line. */
  function LastText<R>(rs: seq<R>, format: R -> Option<string>): (n: nat)
    ensures n <= |rs|
    ensures n > 0 ==> format(rs[n - 1]).Some? && format(rs[n - 1]).value != ""
    ensures forall i :: n <= i < |rs| ==> format(rs[i]).None? || format(rs[i]).value == ""
  {
    if |rs| == 0 then 0
    else
      var r := format(rs[|rs| - 1]);
      if r.Some? && r.value != "" then |rs| else LastText(rs[..|rs| - 1], format)
  }

  /** How many of the records can be formatted. */
  function Formatted<R>(rs: seq<R>, format: R -> Option<string>): nat {
    if |rs| == 0 then 0 else Formatted(rs[..|rs| - 1], format) + if format(rs[|rs| - 1]).Some? then 1 else 0
  }

  /** Empty lines that still fit a body of the given length: each adds its newline. */
  function Room(length: nat, maxBody: int): nat {
    if length + 1 < maxBody then maxBody - length - 1 else 0
  }

  /** The state after t empty lines were appended to a body of length n, or to none. */
  ghost predicate Trailing<R>(b: Batch<R>, length: nat, t: nat, maxBody: int) {
    if length > 0 && t <= Room(length, maxBody) then |b.body| == length + t
    else b.body == "" && |b.open| == if length > 0 then t - Room(length, maxBody) else t
  }

  lemma TrailingStep<R>(b: Batch<R>, x: Item<R>, length: nat, t: nat, maxBody: int, net: Transport)
    requires Trailing(b, length, t, maxBody) && x.lines == [""]
    ensures Trailing(Append(b, x, maxBody, net), length, t + 1, maxBody)
  {
    assert TotalLength([""]) == 1 by {
      TotalLengthIsJoin([""]);
    }
    JoinOne("");
    hide TotalLength, Join;
  }

  lemma {:induction false} TrailingBatch<R>(rs: seq<R>, format: R -> Option<string>, headers: Headers,
                                            maxBody: int, net: Transport)
    ensures
      var n := LastText(rs, format);
      Trailing(LogBatch(rs, format, headers, maxBody, net), |LogBatch(rs[..n], format, headers, maxBody, net).body|,
               Formatted(rs[n..], format), maxBody)
  {
    hide Append;
    var n := LastText(rs, format);
    if n == |rs| {
      assert rs[..n] == rs && rs[n..] == [];
      if n > 0 {
        LastBody(rs, format, headers, maxBody, net);
      }
    } else {
      var init, r := rs[..|rs| - 1], rs[|rs| - 1];
      TrailingBatch(init, format, headers, maxBody, net);
      assert LastText(init, format) == n && init[..n] == rs[..n] && rs[n..][..|rs| - 1 - n] == init[n..];
      if format(r).Some? {
        var length := |LogBatch(rs[..n], format, headers, maxBody, net).body|;
        TrailingStep(LogBatch(init, format, headers, maxBody, net), Item(r, [""], headers), length,
                     Formatted(init[n..], format), maxBody, net);
      }
    }
  }

  lemma LastBody<R>(rs: seq<R>, format: R -> Option<string>, headers: Headers, maxBody: int, net: Transport)
    requires LastText(rs, format) == |rs| > 0
    ensures LogBatch(rs, format, headers, maxBody, net).body != ""
  {
    JoinOne(format(rs[|rs| - 1]).value);
    hide Join, TotalLength;
  }

  /**
   Exactly how many records are lost, for every size limit: of the formatted records after the last one with text,
   those that no longer fit its body, or all of them if there is no text at all.
   */
  lemma LostCount<R>(rs: seq<R>, format: R -> Option<string>, headers: Headers, maxBody: int, net: Transport)
    ensures
      var n := LastText(rs, format);
      var t, room := Formatted(rs[n..], format), Room(|LogBatch(rs[..n], format, headers, maxBody, net).body|, maxBody);
      |Lost(rs, format, headers, maxBody, net)| == if n == 0 then t else if t > room then t - room else 0
  {
    hide LogBatch, Formatted;
    var n := LastText(rs, format);
    TrailingBatch(rs, format, headers, maxBody, net);
    if n > 0 {
      assert LastText(rs[..n], format) == n by { LastTextPrefix(rs, format); }
      LastBody(rs[..n], format, headers, maxBody, net);
    } else {
      assert rs[..0] == [];
      NothingBatched(format, headers, maxBody, net);
    }
    ValuesCount(LogBatch(rs, format, headers, maxBody, net).open);
  }

  lemma LastTextPrefix<R>(rs: seq<R>, format: R -> Option<string>)
    ensures var n := LastText(rs, format); LastText(rs[..n], format) == n
  {}

  /**
   Exactly when something is lost: there are t > 0 empty lines after the last one with text, and there is no text,
   or the body up to that line is so long that they do not all fit.
   */
  lemma SomethingLostIff<R>(rs: seq<R>, format: R -> Option<string>, headers: Headers, maxBody: int, net: Transport)
    ensures
      var n := LastText(rs, format);
      var t, b := Formatted(rs[n..], format), LogBatch(rs[..n], format, headers, maxBody, net);
      Lost(rs, format, headers, maxBody, net) != [] <==> t > 0 && (n == 0 || |b.body| + t >= maxBody)
  {
    hide LogBatch, Formatted, Lost;
    LostCount(rs, format, headers, maxBody, net);
  }

  lemma ValuesCount<R>(items: seq<Item<R>>)
    ensures |Values(items)| == |items|
  {}

  // ---- Metrics ----

  /** The item is a resource with its own lines and its own source headers. */
  ghost function ResourceItem(): Item<Resource> -> bool {
    (x: Item<Resource>) => x == AsItem(x.value)
  }

  ghost predicate MetricsOk(b: Batch<Resource>, rms: seq<Resource>, maxBody: int) {
    && Good(b, maxBody) && Accounted(b, multiset(rms), multiset{}) && Every(b, ResourceItem())
    && (rms != [] ==> b.open != [] && b.open[|b.open| - 1] == AsItem(rms[|rms| - 1]))
  }

  lemma MetricsFlush(b: Batch<Resource>, rms: seq<Resource>, maxBody: int, net: Transport)
    requires MetricsOk(b, rms, maxBody) && rms != [] && b.body != ""
    ensures
      var c := Flush(b, SourceHeaders(rms[|rms| - 1].attributes), net);
      Good(c, maxBody) && Accounted(c, multiset(rms), multiset{}) && Every(c, ResourceItem())
  {
    hide WellFormed, Accounted, SourceHeaders;
    var last := SourceHeaders(rms[|rms| - 1].attributes);
    FlushGood(b, last, net, maxBody);
    FlushAccounted(b, last, net, multiset(rms), multiset{});
    FlushEvery(b, last, net, ResourceItem());
  }

  /** Appending the next resource to a batch that is of its source, if it has text. */
  lemma MetricsAppend(c: Batch<Resource>, init: seq<Resource>, r: Resource, maxBody: int, net: Transport)
    requires Good(c, maxBody) && Accounted(c, multiset(init), multiset{}) && Every(c, ResourceItem())
    requires c.body != "" && c.open != [] ==> c.open[|c.open| - 1].headers == SourceHeaders(r.attributes)
    ensures MetricsOk(Append(c, AsItem(r), maxBody, net), init + [r], maxBody)
  {
    hide Good, Every, SourceHeaders, Accounted, Append;
    AppendGood(c, AsItem(r), maxBody, net);
    AppendAccounted(c, AsItem(r), maxBody, net, multiset(init), multiset{});
    AppendEvery(c, AsItem(r), maxBody, net, ResourceItem());
  }

  lemma {:induction false} MetricsBatchGood(rms: seq<Resource>, maxBody: int, net: Transport)
    ensures MetricsOk(MetricsBatch(rms, maxBody, net), rms, maxBody)
  {
    hide Good, Every, SourceHeaders, Accounted, Append;
    if |rms| == 0 {
      NoBatchAccounted<Resource>();
      NoBatchGood<Resource>(maxBody);
      NoBatchEvery(ResourceItem());
    } else {
      var n := |rms| - 1;
      var init, r := rms[..n], rms[n];
      MetricsBatchGood(init, maxBody, net);
      var b := MetricsBatch(init, maxBody, net);
      if b.body != "" && n > 0 {
        MetricsFlush(b, init, maxBody, net);
      }
      var changed := n > 0 && SourceHeaders(rms[n - 1].attributes) != SourceHeaders(r.attributes) && b.body != "";
      MetricsAppend(if changed then Flush(b, SourceHeaders(rms[n - 1].attributes), net) else b, init, r, maxBody, net);
      assert rms == init + [r];
    }
  }

  /** Resources without any text that are left when the batch ends. */
  function LostResources(rms: seq<Resource>, maxBody: int, net: Transport): seq<Resource> {
    Unsent(MetricsBatch(rms, maxBody, net))
  }

  /**
   Metrics, for every input and every pattern of send failures. Each resource goes wholly into one request and is
   delivered once or dropped once, the dropped ones being exactly those of the failed requests; only resources without
   any text can be left over. A request is made of resources as they are, with their own lines and headers: its
   source headers are those of each of its resources from the first with text on, its body is the join of their
   texts, and it is shorter than the limit unless there is only one; a last resource without lines may make it as long.
   */
  lemma MetricsHomogeneousAndConserved(rms: seq<Resource>, maxBody: int, net: Transport)
    ensures
      var b := MetricsSent(rms, maxBody, net);
      && |b.requests| == |b.carried|
      && multiset(rms) == Carried(b.requests, b.carried, true) + multiset(b.dropped)
                        + multiset(LostResources(rms, maxBody, net))
      && multiset(b.dropped) == Carried(b.requests, b.carried, false)
      && (forall x :: x in LostResources(rms, maxBody, net) ==> Join(x.lines) == "")
      && (forall k, i :: 0 <= k < |b.carried| && 0 <= i < |b.carried[k]| ==>
            b.carried[k][i] == AsItem(b.carried[k][i].value))
      && (forall k :: 0 <= k < |b.requests| ==>
            WellFormed(b.requests[k].body, b.requests[k].counter, b.requests[k].headers, b.carried[k], maxBody))
  {
    hide MetricsBatch, MetricsSent, Unsent, Join, AllLines, Carried, SourceHeaders, WellFormed, Lead, AsItem;
    MetricsBatchGood(rms, maxBody, net);
    MetricsSentGood(rms, maxBody, net);
    LostHaveNoText(MetricsBatch(rms, maxBody, net), maxBody);
    MetricsSentOpen(rms, maxBody, net);
  }

  /** What the batch keeps, after the last request as well. */
  lemma MetricsSentGood(rms: seq<Resource>, maxBody: int, net: Transport)
    ensures
      var b := MetricsSent(rms, maxBody, net);
      Good(b, maxBody) && Every(b, ResourceItem()) && Accounted(b, multiset(rms), multiset{})
  {
    hide MetricsBatch, Flush, SourceHeaders, Good, Every, Accounted;
    MetricsBatchGood(rms, maxBody, net);
    if rms != [] && MetricsBatch(rms, maxBody, net).body != "" {
      MetricsFlush(MetricsBatch(rms, maxBody, net), rms, maxBody, net);
    }
  }

  /** What is left open is what was never sent. */
  lemma MetricsSentOpen(rms: seq<Resource>, maxBody: int, net: Transport)
    ensures Values(MetricsSent(rms, maxBody, net).open) == LostResources(rms, maxBody, net)
  {
    hide MetricsBatch, SourceHeaders;
    MetricsBatchGood(rms, maxBody, net);
    assert rms == [] ==> MetricsBatch(rms, maxBody, net) == NoBatch() by { NoMetrics(maxBody, net); }
  }

  lemma NoMetrics(maxBody: int, net: Transport)
    ensures MetricsBatch([], maxBody, net) == NoBatch()
  {}

  lemma LostHaveNoText(b: Batch<Resource>, maxBody: int)
    requires Good(b, maxBody) && Every(b, ResourceItem())
    ensures forall x :: x in Unsent(b) ==> Join(x.lines) == ""
  {
    hide Join, WellFormed;
    if b.body == "" {
      forall x | x in Values(b.open) ensures Join(x.lines) == "" {
        var i :| 0 <= i < |b.open| && b.open[i].value == x;
        assert Text(b.open[i]) == "";
      }
    }
  }

  /** Every resource that has text is in a request with its own source headers. */
  lemma OwnHeaders(rms: seq<Resource>, maxBody: int, net: Transport, k: nat, i: nat)
    requires
      var b := MetricsSent(rms, maxBody, net);
      k < |b.carried| && i < |b.carried[k]| && Join(b.carried[k][i].value.lines) != ""
    ensures
      var b := MetricsSent(rms, maxBody, net);
      k < |b.requests| && b.requests[k].headers == SourceHeaders(b.carried[k][i].value.attributes)
  {
    hide MetricsSent, Join, SourceHeaders, Carried, AllLines;
    MetricsHomogeneousAndConserved(rms, maxBody, net);
    var b := MetricsSent(rms, maxBody, net);
    assert WellFormed(b.requests[k].body, b.requests[k].counter, b.requests[k].headers, b.carried[k], maxBody);
    assert Text(b.carried[k][i]) != "";
  }

  /** When all resources have text, none is left over and the body is the join of all their lines. */
  lemma AllHaveText(rms: seq<Resource>, maxBody: int, net: Transport)
    requires forall i :: 0 <= i < |rms| ==> Join(rms[i].lines) != ""
    ensures LostResources(rms, maxBody, net) == []
    ensures
      var b := MetricsSent(rms, maxBody, net);
      |b.requests| == |b.carried| &&
      forall k :: 0 <= k < |b.requests| ==>
        && b.requests[k].body == Join(AllLines(b.carried[k]))
        && (forall i :: 0 <= i < |b.carried[k]| ==> b.carried[k][i].headers == b.requests[k].headers)
        && (|b.requests[k].body| < maxBody || |b.carried[k]| == 1)
  {
    hide MetricsSent, Join, SourceHeaders, AllLines, WellFormed, MetricsBatch, Carried, LostResources;
    MetricsHomogeneousAndConserved(rms, maxBody, net);
    var b := MetricsSent(rms, maxBody, net);
    LeftoverHandedIn(rms, Carried(b.requests, b.carried, true) + multiset(b.dropped), LostResources(rms, maxBody, net));
    forall k | 0 <= k < |b.requests|
      ensures b.requests[k].body == Join(AllLines(b.carried[k]))
      ensures forall i :: 0 <= i < |b.carried[k]| ==> b.carried[k][i].headers == b.requests[k].headers
      ensures |b.requests[k].body| < maxBody || |b.carried[k]| == 1
    {
      forall i | 0 <= i < |b.carried[k]| ensures Text(b.carried[k][i]) != "" {
        CarriedHandedIn(b, k, i);
        assert b.carried[k][i].value in multiset(rms);
        assert b.carried[k][i] == AsItem(b.carried[k][i].value);
        var j :| 0 <= j < |rms| && rms[j] == b.carried[k][i].value;
      }
      FullRequest(b.requests[k], b.carried[k], maxBody);
    }
  }

  lemma LeftoverHandedIn<R>(all: seq<R>, others: multiset<R>, left: seq<R>)
    requires multiset(all) == others + multiset(left)
    ensures left == [] || (left[0] in left && exists i :: 0 <= i < |all| && all[i] == left[0])
  {
    if left != [] {
      assert left[0] in multiset(left) && left[0] in multiset(all);
    }
  }

  lemma FullRequest<R>(r: Request, items: seq<Item<R>>, maxBody: int)
    requires WellFormed(r.body, r.counter, r.headers, items, maxBody)
    requires forall i :: 0 <= i < |items| ==> Text(items[i]) != ""
    ensures r.body == Join(AllLines(items))
    ensures forall i :: 0 <= i < |items| ==> items[i].headers == r.headers
    ensures |r.body| < maxBody || |items| == 1
  {
    hide Join, AllLines, Lead;
    JoinNone();
    NoLead(items);
    assert items[0..] == items;
    forall i | 0 <= i < |items| ensures items[i].lines != [] {
      assert Text(items[i]) != "";
    }
    JoinOfTexts(items);
  }

  lemma {:induction false} CarriedHandedIn(b: Batch<Resource>, k: nat, i: nat)
    requires |b.requests| == |b.carried| && k < |b.carried| && i < |b.carried[k]|
    ensures b.carried[k][i].value in Carried(b.requests, b.carried, true) + Carried(b.requests, b.carried, false)
    decreases |b.carried|
  {
    var n := |b.requests| - 1;
    if k < n {
      CarriedHandedIn(b.(requests := b.requests[..n], carried := b.carried[..n]), k, i);
    } else {
      assert Values(b.carried[k])[i] == b.carried[k][i].value;
    }
  }

  /** Joining the texts of items is joining all their lines, if each has a line. */
  lemma {:induction false} JoinOfTexts<R>(items: seq<Item<R>>)
    requires items != [] && forall i :: 0 <= i < |items| ==> items[i].lines != []
    ensures Join(Texts(items)) == Join(AllLines(items)) && AllLines(items) != []
  {
    var n := |items| - 1;
    var init, x := items[..n], items[n];
    assert items == init + [x];
    AllLinesSnoc(init, x);
    assert Texts(items) == Texts(init) + [Text(x)];
    if n == 0 {
      assert Texts(items) == [Text(x)] && AllLines(init) + x.lines == x.lines;
    } else {
      JoinOfTexts(init);
      JoinSnoc(Texts(init), Text(x));
      JoinAppend(AllLines(init), x.lines);
    }
  }

  /** A resource without text, which has nothing to send, is listed with the next request whatever its headers. */
  lemma EmptyTextExample()
    ensures
      var a := Resource(map[SOURCE_HOST := "a"], []);
      var b := Resource(map[SOURCE_HOST := "b"], ["m 1 0"]);
      var sent := MetricsSent([a, b], 100, _ => false);
      && sent.carried == [[AsItem(a), AsItem(b)]] && sent.dropped == [a, b]
      && sent.requests[0].headers == SourceHeaders(b.attributes) != SourceHeaders(a.attributes)
  {
    var a := Resource(map[SOURCE_HOST := "a"], []);
    var b := Resource(map[SOURCE_HOST := "b"], ["m 1 0"]);
    var net: Transport := _ => false;
    assert SourceHeaders(a.attributes)[HEADER_HOST] == "a" && SourceHeaders(b.attributes)[HEADER_HOST] == "b";
    assert [a, b][..1] == [a] && [a][..0] == [];
    assert MetricsBatch([a], 100, net) == Batch([], [], [], [AsItem(a)], "", 0);
    assert [AsItem(a)] + [AsItem(b)] == [AsItem(a), AsItem(b)];
    assert MetricsBatch([a, b], 100, net) == Batch([], [], [], [AsItem(a), AsItem(b)], "m 1 0", 1);
    assert Values([AsItem(a), AsItem(b)]) == [a, b];
  }
}
