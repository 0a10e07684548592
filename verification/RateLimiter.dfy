/**
 rate_limitter.go: the limiter in front of the sampling decisions.
 `Limiter` is the value of a limiter, `RateLimiter` the object that changes it.
 */
module RateLimiting {
  import opened Base
  import opened Sampling

  datatype Limiter = Limiter(limit: int32, second: int, spans: int32) {
    /** The budget a request at `now` is charged to: a later second starts from zero. */
    function Rolled(now: int): Limiter {
      if second < now then this.(second := now, spans := 0) else this
    }

    predicate Admits(now: int, n: int32) {
      limit <= 0 || Wrap32(Rolled(now).spans + n) <= limit
    }

    function Update(now: int, n: int32): Limiter {
      if limit <= 0 then this
      else if Admits(now, n) then Rolled(now).(spans := Wrap32(Rolled(now).spans + n))
      else Rolled(now)
    }

    function Decide(now: int, n: int32): Decision {
      if Admits(now, n) then Sampled else NotSampled
    }

    predicate Valid() {
      0 <= spans && (0 < limit ==> spans <= limit)
    }

    /** No sum of a charged budget and this request can leave int32. */
    predicate Fits(n: int) {
      0 <= n && (0 < limit ==> n + limit <= INT32_MAX)
    }
  }

  class RateLimiter {
    const maxSpansPerSecond: int32
    var currentSecond: int
    var spansInCurrentSecond: int32

    ghost function State(): Limiter
      reads this
    {
      Limiter(maxSpansPerSecond, currentSecond, spansInCurrentSecond)
    }

    constructor (limit: int32)
      ensures State() == Limiter(limit, 0, 0)
    {
      maxSpansPerSecond := limit;
      currentSecond := 0;
      spansInCurrentSecond := 0;
    }

    method UpdateRate(currSecond: int, numSpans: int32) returns (d: Decision)
      modifies this
      ensures State() == old(State()).Update(currSecond, numSpans)
      ensures d == old(State()).Decide(currSecond, numSpans)
    {
      if maxSpansPerSecond <= 0 {
        return Sampled;
      }
      if currentSecond < currSecond {
        currentSecond := currSecond;
        spansInCurrentSecond := 0;
      }
      var spansInSecondIfSampled := Wrap32(spansInCurrentSecond + numSpans);
      if spansInSecondIfSampled <= maxSpansPerSecond {
        spansInCurrentSecond := spansInSecondIfSampled;
        return Sampled;
      }
      return NotSampled;
    }
  }

  // ---- What a sequence of requests is admitted ----

  datatype Request = Request(now: int, n: int32)

  function Serve(l: Limiter, reqs: seq<Request>): Limiter {
    if |reqs| == 0 then l
    else Serve(l, reqs[..|reqs| - 1]).Update(reqs[|reqs| - 1].now, reqs[|reqs| - 1].n)
  }

  /** Spans admitted for the requests made in one second. */
  function AdmittedIn(l: Limiter, reqs: seq<Request>, second: int): int {
    if |reqs| == 0 then 0 else
    var r := reqs[|reqs| - 1];
    AdmittedIn(l, reqs[..|reqs| - 1], second)
    + if r.now == second && Serve(l, reqs[..|reqs| - 1]).Admits(r.now, r.n) then r.n else 0
  }

  /** The latest second seen so far; the limiter never goes back behind it. */
  function Peak(start: int, nows: seq<int>): int {
    if |nows| == 0 then start
    else
      var p, now := Peak(start, nows[..|nows| - 1]), nows[|nows| - 1];
      if p < now then now else p
  }

  /**
   A second that comes again finds the clock where it was: no later second has come up in between that was
   not already past. Clock readings may go back otherwise.
   */
  predicate SamePeak(start: int, nows: seq<int>) {
    forall i, j :: 0 <= i < j < |nows| && nows[i] == nows[j] ==>
      Peak(start, nows[..i + 1]) == Peak(start, nows[..j + 1])
  }

  function Nows(reqs: seq<Request>): seq<int> {
    seq(|reqs|, i requires 0 <= i < |reqs| => reqs[i].now)
  }

  /** No sum that is tested leaves int32, and no amount is negative. */
  predicate NoWrap(l: Limiter, reqs: seq<Request>) {
    forall k :: 0 <= k < |reqs| ==>
      0 <= reqs[k].n && Serve(l, reqs[..k]).Rolled(reqs[k].now).spans + reqs[k].n <= INT32_MAX
  }

  lemma NoWrapPrefix(l: Limiter, reqs: seq<Request>)
    requires reqs != [] && NoWrap(l, reqs)
    ensures NoWrap(l, reqs[..|reqs| - 1])
    ensures 0 <= reqs[|reqs| - 1].n
    ensures Serve(l, reqs[..|reqs| - 1]).Rolled(reqs[|reqs| - 1].now).spans + reqs[|reqs| - 1].n <= INT32_MAX
  {
    hide Serve;
    var init := reqs[..|reqs| - 1];
    forall k | 0 <= k < |init|
      ensures 0 <= init[k].n && Serve(l, init[..k]).Rolled(init[k].now).spans + init[k].n <= INT32_MAX
    {
      assert init[..k] == reqs[..k];
    }
  }

  lemma NowsPrefix(reqs: seq<Request>, k: nat)
    requires k <= |reqs|
    ensures Nows(reqs[..k]) == Nows(reqs)[..k]
  {}

  /** The limiter stands at the latest second, and its budget is in order as long as nothing wraps. */
  lemma {:induction false} ServeValid(l: Limiter, reqs: seq<Request>)
    requires 0 < l.limit && l.Valid() && NoWrap(l, reqs)
    ensures Serve(l, reqs).Valid() && Serve(l, reqs).limit == l.limit
    ensures Serve(l, reqs).second == Peak(l.second, Nows(reqs))
  {
    hide NoWrap;
    if |reqs| > 0 {
      var n := |reqs| - 1;
      NoWrapPrefix(l, reqs);
      ServeValid(l, reqs[..n]);
      NowsPrefix(reqs, n);
    }
  }

  ghost predicate Unasked(reqs: seq<Request>, second: int) {
    forall k :: 0 <= k < |reqs| ==> reqs[k].now != second
  }

  lemma {:induction false} UnaskedUnserved(l: Limiter, reqs: seq<Request>, second: int)
    requires Unasked(reqs, second)
    ensures AdmittedIn(l, reqs, second) == 0
  {
    if |reqs| > 0 {
      UnaskedUnserved(l, reqs[..|reqs| - 1], second);
    }
  }

  lemma {:induction false} PeakGrows(start: int, nows: seq<int>, k: nat)
    requires k <= |nows|
    ensures Peak(start, nows[..k]) <= Peak(start, nows)
    ensures k > 0 ==> nows[k - 1] <= Peak(start, nows)
  {
    if k < |nows| {
      assert nows[..|nows| - 1][..k] == nows[..k];
      PeakGrows(start, nows[..|nows| - 1], k);
    } else {
      assert nows[..k] == nows;
    }
  }

  lemma PeakStarts(start: int, nows: seq<int>)
    ensures start <= Peak(start, nows)
  {
    PeakGrows(start, nows, 0);
    assert nows[..0] == [];
  }

  lemma SamePeakPrefix(start: int, nows: seq<int>)
    requires nows != [] && SamePeak(start, nows)
    ensures SamePeak(start, nows[..|nows| - 1])
  {
    var init := nows[..|nows| - 1];
    forall i, j | 0 <= i < j < |init| && init[i] == init[j]
      ensures Peak(start, init[..i + 1]) == Peak(start, init[..j + 1])
    {
      assert init[..i + 1] == nows[..i + 1] && init[..j + 1] == nows[..j + 1];
    }
  }

  /** The second was asked for since the limiter moved to where it stands. */
  ghost predicate AtPeak(start: int, reqs: seq<Request>, second: int) {
    exists k :: 0 <= k < |reqs| && reqs[k].now == second && Peak(start, Nows(reqs)[..k + 1]) == Peak(start, Nows(reqs))
  }

  /** A second asked for again is still at its peak. */
  lemma AskedAgain(start: int, reqs: seq<Request>)
    requires reqs != [] && SamePeak(start, Nows(reqs))
    ensures
      var init, now := reqs[..|reqs| - 1], reqs[|reqs| - 1].now;
      && (Peak(start, Nows(init)) < now ==> Unasked(init, now))
      && (Peak(start, Nows(init)) >= now ==> Unasked(init, now) || AtPeak(start, init, now))
  {
    var n := |reqs| - 1;
    var init, now, nows := reqs[..n], reqs[n].now, Nows(reqs);
    NowsPrefix(reqs, n);
    forall k | 0 <= k < n && init[k].now == now
      ensures now <= Peak(start, nows[..n]) && Peak(start, nows[..n][..k + 1]) == Peak(start, nows)
    {
      PeakGrows(start, nows[..n], k + 1);
      assert nows[k] == nows[n];
      assert nows[..n][..k + 1] == nows[..k + 1] && nows[..n + 1] == nows;
    }
  }

  /** What was at its peak before, if it is not the second asked for now, is so only if the limiter has not moved. */
  lemma PeakKept(start: int, reqs: seq<Request>, second: int)
    requires reqs != [] && reqs[|reqs| - 1].now != second && AtPeak(start, reqs, second)
    ensures
      var init := reqs[..|reqs| - 1];
      AtPeak(start, init, second) && Peak(start, Nows(init)) == Peak(start, Nows(reqs))
  {
    var n, nows := |reqs| - 1, Nows(reqs);
    var k :| 0 <= k < |reqs| && reqs[k].now == second && Peak(start, nows[..k + 1]) == Peak(start, nows);
    NowsPrefix(reqs, n);
    assert nows[..n][..k + 1] == nows[..k + 1];
    PeakGrows(start, nows[..n], k + 1);
    PeakGrows(start, nows, n);
    assert reqs[..n][k].now == second;
  }

  /**
   Over any sequence of requests, none of which makes a tested sum leave int32 and whose clock readings never
   come again after the limiter has moved on, no second is granted more than the limit.
   */
  lemma {:induction false} RateBound(l: Limiter, reqs: seq<Request>, second: int)
    requires 0 < l.limit && l.Valid() && NoWrap(l, reqs) && SamePeak(l.second, Nows(reqs))
    ensures AdmittedIn(l, reqs, second) <= l.limit
    ensures AtPeak(l.second, reqs, second) ==> AdmittedIn(l, reqs, second) <= Serve(l, reqs).spans
  {
    hide NoWrap, SamePeak, Peak, AtPeak;
    if |reqs| > 0 {
      var n := |reqs| - 1;
      var init, r := reqs[..n], reqs[n];
      NoWrapPrefix(l, reqs);
      NowsPrefix(reqs, n);
      SamePeakPrefix(l.second, Nows(reqs));
      RateBound(l, init, second);
      ServeValid(l, init);
      ServeValid(l, reqs);
      if r.now != second {
        if AtPeak(l.second, reqs, second) {
          PeakKept(l.second, reqs, second);
        }
      } else {
        AskedAgain(l.second, reqs);
        if Unasked(init, second) {
          UnaskedUnserved(l, init, second);
        }
      }
    }
  }

  /** Requests that fit, whatever is charged already, never wrap. */
  lemma {:induction false} FittingNeverWraps(l: Limiter, reqs: seq<Request>)
    requires 0 < l.limit && l.Valid() && forall i :: 0 <= i < |reqs| ==> l.Fits(reqs[i].n)
    ensures NoWrap(l, reqs)
  {
    hide Serve;
    if |reqs| > 0 {
      var init := reqs[..|reqs| - 1];
      FittingNeverWraps(l, init);
      ServeValid(l, init);
      forall k | 0 <= k < |reqs|
        ensures 0 <= reqs[k].n && Serve(l, reqs[..k]).Rolled(reqs[k].now).spans + reqs[k].n <= INT32_MAX
      {
        if k < |init| {
          assert init[..k] == reqs[..k] && init[k] == reqs[k];
        }
      }
    }
  }

  // ---- The clock condition is exact ----

  /** What is charged already when the request at i comes, if no request before it asks for anything. */
  function Opening(l: Limiter, nows: seq<int>, i: nat): int32
    requires i < |nows|
  {
    if Peak(l.second, nows[..i + 1]) == l.second then l.spans else 0
  }

  /** Requests at the given times: the rest of the budget at i, a whole budget at j, nothing otherwise. */
  function Greedy(l: Limiter, nows: seq<int>, i: nat, j: nat): seq<Request>
    requires i < |nows| && l.Valid() && 0 < l.limit
  {
    seq(|nows|, k requires 0 <= k < |nows| =>
      Request(nows[k], if k == i then l.limit - Opening(l, nows, i) else if k == j then l.limit else 0))
  }

  lemma GreedySnoc(l: Limiter, nows: seq<int>, i: nat, j: nat, m: nat, second: int)
    requires i < |nows| && l.Valid() && 0 < l.limit && m < |nows|
    ensures
      var reqs := Greedy(l, nows, i, j);
      && Serve(l, reqs[..m + 1]) == Serve(l, reqs[..m]).Update(reqs[m].now, reqs[m].n)
      && AdmittedIn(l, reqs[..m + 1], second) == AdmittedIn(l, reqs[..m], second)
           + (if reqs[m].now == second && Serve(l, reqs[..m]).Admits(reqs[m].now, reqs[m].n) then reqs[m].n else 0)
      && Peak(l.second, nows[..m + 1]) == (var p := Peak(l.second, nows[..m]); if p < nows[m] then nows[m] else p)
  {
    var reqs := Greedy(l, nows, i, j);
    assert reqs[..m + 1] == reqs[..m] + [reqs[m]];
    ServeSnoc(l, reqs[..m], reqs[m], second);
    assert nows[..m + 1][..m] == nows[..m];
  }

  /** What the budget and the grants are after the first m of these requests. */
  ghost predicate GreedyServed(l: Limiter, nows: seq<int>, i: nat, j: nat, m: nat)
    requires i < j < |nows| && m <= |nows| && l.Valid() && 0 < l.limit
  {
    var reqs := Greedy(l, nows, i, j);
    var s, admitted := Serve(l, reqs[..m]), AdmittedIn(l, reqs[..m], nows[i]);
    && s.limit == l.limit && s.second == Peak(l.second, nows[..m]) && s.Valid()
    && (m <= i ==> s.spans == (if s.second == l.second then l.spans else 0) && admitted == 0)
    && (i < m <= j ==>
          && s.spans == (if s.second == Peak(l.second, nows[..i + 1]) then l.limit else 0)
          && admitted == l.limit - Opening(l, nows, i))
    && (j < m ==> admitted == l.limit - Opening(l, nows, i) + l.limit)
  }

  lemma GreedyStep(l: Limiter, nows: seq<int>, i: nat, j: nat, m: nat)
    requires i < j < |nows| && m < |nows| && l.Valid() && 0 < l.limit
    requires nows[i] == nows[j] && Peak(l.second, nows[..i + 1]) != Peak(l.second, nows[..j + 1])
    requires GreedyServed(l, nows, i, j, m)
    ensures GreedyServed(l, nows, i, j, m + 1)
    ensures
      var reqs := Greedy(l, nows, i, j);
      0 <= reqs[m].n && Serve(l, reqs[..m]).Rolled(reqs[m].now).spans + reqs[m].n <= INT32_MAX
  {
    hide Serve, AdmittedIn, Peak;
    GreedySnoc(l, nows, i, j, m, nows[i]);
    PeakStarts(l.second, nows[..m]);
    if m == i {
      var s := Serve(l, Greedy(l, nows, i, j)[..i]);
      assert s.Rolled(nows[i]).spans == Opening(l, nows, i);
      assert s.Rolled(nows[i]).second == Peak(l.second, nows[..i + 1]);
      assert nows[..m + 1] == nows[..i + 1];
    } else if i < m <= j {
      assert nows[..m][..i + 1] == nows[..i + 1];
      PeakGrows(l.second, nows[..m], i + 1);
      assert nows[i] <= Peak(l.second, nows[..m]);
    }
  }

  lemma GreedyStart(l: Limiter, nows: seq<int>, i: nat, j: nat)
    requires i < j < |nows| && l.Valid() && 0 < l.limit
    ensures GreedyServed(l, nows, i, j, 0)
    ensures NoWrap(l, Greedy(l, nows, i, j)[..0])
  {
    assert Greedy(l, nows, i, j)[..0] == [] && nows[..0] == [];
  }

  lemma {:induction false} GreedyGrants(l: Limiter, nows: seq<int>, i: nat, j: nat, m: nat)
    requires i < j < |nows| && m <= |nows| && l.Valid() && 0 < l.limit
    requires nows[i] == nows[j] && Peak(l.second, nows[..i + 1]) != Peak(l.second, nows[..j + 1])
    ensures GreedyServed(l, nows, i, j, m)
    ensures NoWrap(l, Greedy(l, nows, i, j)[..m])
  {
    hide GreedyServed, NoWrap, Serve, Peak, Opening, AdmittedIn;
    var reqs := Greedy(l, nows, i, j);
    if m == 0 {
      GreedyStart(l, nows, i, j);
    } else {
      GreedyGrants(l, nows, i, j, m - 1);
      GreedyStep(l, nows, i, j, m - 1);
      NoWrapSnoc(l, reqs[..m - 1], reqs[m - 1]);
      assert reqs[..m] == reqs[..m - 1] + [reqs[m - 1]];
    }
  }

  lemma NoWrapSnoc(l: Limiter, reqs: seq<Request>, r: Request)
    requires NoWrap(l, reqs) && 0 <= r.n && Serve(l, reqs).Rolled(r.now).spans + r.n <= INT32_MAX
    ensures NoWrap(l, reqs + [r])
  {
    var all := reqs + [r];
    forall k | 0 <= k < |all|
      ensures 0 <= all[k].n && Serve(l, all[..k]).Rolled(all[k].now).spans + all[k].n <= INT32_MAX
    {
      if k < |reqs| {
        assert all[..k] == reqs[..k];
      } else {
        assert all[..k] == reqs;
      }
    }
  }

  /**
   Exactly when the clock is good enough: for a limiter with something left to grant, the limit holds for every
   choice of amounts at the given times if and only if no second comes again after the limiter has moved on.
   */
  lemma RateBoundIffSamePeak(l: Limiter, nows: seq<int>)
    requires 0 < l.limit && 0 <= l.spans < l.limit
    ensures SamePeak(l.second, nows) <==>
      forall reqs, second :: Nows(reqs) == nows && NoWrap(l, reqs) ==> AdmittedIn(l, reqs, second) <= l.limit
  {
    hide NoWrap, Serve, AdmittedIn, Peak;
    if SamePeak(l.second, nows) {
      forall reqs, second | Nows(reqs) == nows && NoWrap(l, reqs) ensures AdmittedIn(l, reqs, second) <= l.limit {
        RateBound(l, reqs, second);
      }
    } else {
      var i, j :| 0 <= i < j < |nows| && nows[i] == nows[j]
               && Peak(l.second, nows[..i + 1]) != Peak(l.second, nows[..j + 1]);
      var reqs := Greedy(l, nows, i, j);
      GreedyGrants(l, nows, i, j, |nows|);
      assert reqs[..|nows|] == reqs && Nows(reqs) == nows;
      assert AdmittedIn(l, reqs, nows[i]) > l.limit;
    }
  }

  // ---- So is the int32 condition ----

  predicate Chronological(l: Limiter, reqs: seq<Request>) {
    && (forall i :: 0 <= i < |reqs| ==> l.second <= reqs[i].now)
    && (forall i, j :: 0 <= i < j < |reqs| ==> reqs[i].now <= reqs[j].now)
  }

  /** A clock that never goes back meets the condition. */
  lemma ChronologicalSamePeak(l: Limiter, reqs: seq<Request>)
    requires Chronological(l, reqs)
    ensures SamePeak(l.second, Nows(reqs))
  {
    forall i | 0 <= i < |reqs| ensures Peak(l.second, Nows(reqs)[..i + 1]) == reqs[i].now {
      ChronologicalPeak(l, reqs, i);
    }
  }

  lemma {:induction false} ChronologicalPeak(l: Limiter, reqs: seq<Request>, i: nat)
    requires Chronological(l, reqs) && i < |reqs|
    ensures Peak(l.second, Nows(reqs)[..i + 1]) == reqs[i].now
  {
    var nows := Nows(reqs);
    assert nows[..i + 1][..i] == nows[..i];
    if i > 0 {
      ChronologicalPeak(l, reqs, i - 1);
    }
  }

  /**
   The limit in its simple form: with a clock that never goes back and requests that fit beside a full budget, no
   second is granted more than the limit.
   */
  lemma RateBoundInOrder(l: Limiter, reqs: seq<Request>, second: int)
    requires 0 < l.limit && l.Valid() && Chronological(l, reqs)
    requires forall i :: 0 <= i < |reqs| ==> l.Fits(reqs[i].n)
    ensures AdmittedIn(l, reqs, second) <= l.limit
  {
    hide NoWrap, SamePeak, Chronological;
    FittingNeverWraps(l, reqs);
    ChronologicalSamePeak(l, reqs);
    RateBound(l, reqs, second);
  }

  /** A fresh limiter's budget is exactly what it has granted in the second. */
  lemma {:induction false} BudgetIsGranted(l: Limiter, reqs: seq<Request>, now: int)
    requires 0 < l.limit && l.spans == 0 && NoWrap(l, reqs) && Chronological(l, reqs)
    requires l.second <= now && forall i :: 0 <= i < |reqs| ==> reqs[i].now <= now
    ensures AdmittedIn(l, reqs, now) == Serve(l, reqs).Rolled(now).spans
    ensures Serve(l, reqs).second <= now
  {
    hide NoWrap;
    if |reqs| > 0 {
      var init, r := reqs[..|reqs| - 1], reqs[|reqs| - 1];
      NoWrapPrefix(l, reqs);
      ServeValid(l, init);
      BudgetIsGranted(l, init, now);
      BudgetIsGranted(l, init, r.now);
    }
  }

  lemma AdmittedGrows(l: Limiter, reqs: seq<Request>, second: int)
    requires reqs != [] && 0 <= reqs[|reqs| - 1].n
    ensures AdmittedIn(l, reqs[..|reqs| - 1], second) <= AdmittedIn(l, reqs, second)
  {}

  /** With a clock that never goes back, a fresh limiter keeps its limit if and only if no sum it tests leaves int32. */
  lemma {:induction false} RateBoundIffNoWrap(l: Limiter, reqs: seq<Request>)
    requires 0 < l.limit && l.spans == 0 && Chronological(l, reqs)
    requires forall i :: 0 <= i < |reqs| ==> 0 <= reqs[i].n
    ensures NoWrap(l, reqs) <==> forall second :: AdmittedIn(l, reqs, second) <= l.limit
  {
    hide NoWrap, Serve, SamePeak;
    if NoWrap(l, reqs) {
      ChronologicalSamePeak(l, reqs);
      forall second ensures AdmittedIn(l, reqs, second) <= l.limit {
        RateBound(l, reqs, second);
      }
    } else if |reqs| == 0 {
      NothingWraps(l);
    } else {
      var init, r := reqs[..|reqs| - 1], reqs[|reqs| - 1];
      RateBoundIffNoWrap(l, init);
      if NoWrap(l, init) {
        ServeValid(l, init);
        BudgetIsGranted(l, init, r.now);
        assert init + [r] == reqs;
        if Serve(l, init).Rolled(r.now).spans + r.n <= INT32_MAX {
          NoWrapSnoc(l, init, r);
        }
        OvershootIffWraps(Serve(l, init), r.now, r.n);
        assert AdmittedIn(l, reqs, r.now) > l.limit;
      } else {
        var second :| AdmittedIn(l, init, second) > l.limit;
        AdmittedGrows(l, reqs, second);
      }
    }
  }

  lemma NothingWraps(l: Limiter)
    ensures NoWrap(l, [])
  {}

  /**
   Exactly when a single admission overshoots: the limiter grants more than its
   limit if and only if the sum it tests does not fit int32.
   */
  lemma OvershootIffWraps(l: Limiter, now: int, n: int32)
    requires 0 < l.limit && l.Valid() && 0 <= n
    ensures (l.Admits(now, n) && l.Rolled(now).spans + n > l.limit)
       <==> l.Rolled(now).spans + n > INT32_MAX
  {}

  /** A refused request stays refused while the limiter stands: budgets only fill up. */
  lemma RefusalPersists(l: Limiter, now: int, n: int32, m: int32)
    requires 0 < l.limit && l.Valid() && l.Fits(n) && l.Fits(m)
    requires now <= l.second && !l.Admits(now, n)
    ensures !l.Update(now, m).Admits(now, n)
  {}

  /** Without the int32 bound the promise fails, even in order: 2^31 - 1 spans are granted over a limit of 10. */
  lemma OvershootExample()
    ensures
      var l := Limiter(10, 0, 0);
      var reqs := [Request(1, 1), Request(1, 0x7FFF_FFFF)];
      AdmittedIn(l, reqs, 1) > l.limit
  {
    hide Serve, AdmittedIn;
    var l := Limiter(10, 0, 0);
    var a, b := Request(1, 1), Request(1, 0x7FFF_FFFF);
    NoneServed(l, 1);
    ServeSnoc(l, [], a, 1);
    ServeSnoc(l, [a], b, 1);
    assert [] + [a] == [a] && [a] + [b] == [a, b];
    assert Wrap32(1 + 0x7FFF_FFFF) == -0x8000_0000;
    assert Limiter(10, 1, 1).Admits(1, 0x7FFF_FFFF);
  }

  /** Nor does it hold if a second comes again after a later one: it gets a second budget. */
  lemma ClockBackExample()
    ensures
      var l := Limiter(10, 0, 0);
      var reqs := [Request(5, 10), Request(6, 1), Request(5, 9)];
      AdmittedIn(l, reqs, 5) > l.limit
  {
    hide Serve, AdmittedIn, Wrap32;
    var l := Limiter(10, 0, 0);
    var a, b, c := Request(5, 10), Request(6, 1), Request(5, 9);
    assert [] + [a] == [a] && [a] + [b] == [a, b] && [a, b] + [c] == [a, b, c];
    NoneServed(l, 5);
    ServeSnoc(l, [], a, 5);
    assert Serve(l, [a]) == Limiter(10, 5, 10) && AdmittedIn(l, [a], 5) == 10;
    ServeSnoc(l, [a], b, 5);
    assert Serve(l, [a, b]) == Limiter(10, 6, 1) && AdmittedIn(l, [a, b], 5) == 10;
    ServeSnoc(l, [a, b], c, 5);
    assert Limiter(10, 6, 1).Admits(5, 9);
  }

  lemma NoneServed(l: Limiter, second: int)
    ensures Serve(l, []) == l && AdmittedIn(l, [], second) == 0
  {}

  lemma ServeSnoc(l: Limiter, reqs: seq<Request>, r: Request, second: int)
    ensures Serve(l, reqs + [r]) == Serve(l, reqs).Update(r.now, r.n)
    ensures AdmittedIn(l, reqs + [r], second)
         == AdmittedIn(l, reqs, second) + if r.now == second && Serve(l, reqs).Admits(r.now, r.n) then r.n else 0
  {
    assert (reqs + [r])[..|reqs|] == reqs;
  }
}
