/**
 Spans without a start time. A start of zero microseconds restarts the measure of the duration, so that the verdict of
 a policy can miss spans and depend on the order in which the batches of a trace arrived. Exactly when is said here.
 */
module PolicyOrder {
  import opened Base
  import opened Sampling

  // ---- The window ----

  /** The window ends in the last span, and only that one can be without a start. */
  lemma {:induction false} WindowShape(ls: seq<Located>)
    requires ls != []
    ensures
      var w := Window(ls);
      && w != [] && w[|w| - 1] == ls[|ls| - 1]
      && (forall i :: 0 <= i < |w| - 1 ==> !NoStart(w[i]))
      && (forall l :: l in w ==> l in ls)
  {
    hide NoStart;
    if |ls| > 1 {
      WindowShape(ls[..|ls| - 1]);
    }
  }

  lemma StartlessIsLast(ls: seq<Located>, l: Located)
    requires l in Window(ls) && NoStart(l)
    ensures ls != [] && l == ls[|ls| - 1]
  {
    hide NoStart;
    WindowShape(ls);
  }

  /** The window restarts after any span without a start that is not the last. */
  lemma {:induction false} WindowRestarts(ls: seq<Located>, k: nat)
    requires k < |ls| - 1 && NoStart(ls[k])
    ensures Window(ls) == Window(ls[k + 1..])
  {
    hide NoStart, Window;
    var n := |ls| - 1;
    var init, x := ls[..n], ls[n];
    assert ls == init + [x];
    WindowSnoc(init, x);
    if k == n - 1 {
      WindowShape(init);
      assert ls[k + 1..] == [x];
      WindowSmall([x]);
    } else {
      WindowRestarts(init, k);
      assert ls[k + 1..] == init[k + 1..] + [x];
      WindowSnoc(init[k + 1..], x);
    }
  }

  /** A stretch at the end, all of whose spans but the last have a start, is in the window. */
  lemma {:induction false} WindowHolds(before: seq<Located>, s: seq<Located>, l: Located)
    requires l in s && forall i :: 0 <= i < |s| - 1 ==> !NoStart(s[i])
    ensures l in Window(before + s)
  {
    hide NoStart, Window;
    var n := |s| - 1;
    var init, x := s[..n], s[n];
    assert before + s == (before + init) + [x] && s == init + [x];
    WindowSnoc(before + init, x);
    if l in init {
      WindowHolds(before, init, l);
      var all := before + init;
      WindowShape(all);
      assert all[|all| - 1] == s[n - 1];
    }
  }

  // ---- When the verdict is about all spans ----

  ghost predicate Instant(l: Located) {
    Micros(l.span.end) == 0
  }

  /** No span of the list ends later. */
  ghost predicate Latest(ls: seq<Located>, l: Located) {
    forall x :: x in ls ==> Micros(x.span.end) <= Micros(l.span.end)
  }

  lemma {:induction false} SomeLatest(ls: seq<Located>) returns (l: Located)
    requires ls != []
    ensures l in ls && Latest(ls, l)
  {
    hide Micros;
    var x := ls[|ls| - 1];
    l := x;
    if |ls| > 1 {
      var m := SomeLatest(ls[..|ls| - 1]);
      if Micros(m.span.end) > Micros(x.span.end) {
        l := m;
      }
    }
    assert ls == ls[..|ls| - 1] + [x];
  }

  /**
   What is missed does not matter: only the last span may be without a start, or no span has an end, or the last
   span is without a start and the latest end is in the window.
   */
  ghost predicate NothingMissed(ls: seq<Located>) {
    || (forall i :: 0 <= i < |ls| - 1 ==> !NoStart(ls[i]))
    || (forall l :: l in ls ==> Instant(l))
    || (NoStart(ls[|ls| - 1]) && exists l :: l in Window(ls) && Latest(ls, l))
  }

  lemma SameDurations(ls: seq<Located>, d: int)
    requires NothingMissed(ls)
    ensures Lasts(Window(ls), d) == Lasts(ls, d)
  {
    hide Window;
    if forall i :: 0 <= i < |ls| - 1 ==> !NoStart(ls[i]) {
      WindowIsAll(ls);
    } else {
      WindowShape(ls);
      if !(forall l :: l in ls ==> Instant(l)) {
        var z := ls[|ls| - 1];
        var l :| l in Window(ls) && Latest(ls, l);
        assert z in Window(ls);
        if Lasts(ls, d) {
          var a, b :| a in ls && b in ls && Micros(b.span.end) > Micros(a.span.start)
                   && Micros(b.span.end) - Micros(a.span.start) >= d;
          assert Micros(l.span.end) >= Micros(b.span.end) && Micros(z.span.start) == 0;
        }
      }
    }
  }

  lemma MissedDuration(ls: seq<Located>) returns (d: int)
    requires !NothingMissed(ls)
    ensures Lasts(ls, d) && !Lasts(Window(ls), d)
  {
    hide Window;
    var i :| 0 <= i < |ls| - 1 && NoStart(ls[i]);
    var b := SomeLatest(ls);
    var x :| x in ls && !Instant(x);
    d := Micros(b.span.end);
    assert ls[i] in ls && Micros(x.span.end) <= d;
    WindowShape(ls);
    var w := Window(ls);
    if Lasts(w, d) {
      var a', b' :| a' in w && b' in w && Micros(b'.span.end) > Micros(a'.span.start)
                 && Micros(b'.span.end) - Micros(a'.span.start) >= d;
      assert NoStart(a') && Latest(ls, b');
      StartlessIsLast(ls, a');
    }
  }

  function DurationRule(d: int): Rules {
    Rules(None, None, [], None, Some(d), None, None)
  }

  /** Exactly when the evaluator tests the trace as a whole, whatever the rules. */
  lemma MatchesIff(batches: seq<Traces>)
    ensures NothingMissed(Locate(batches)) <==> forall p :: Matches(p, batches) == RulesMet(p, batches)
  {
    hide NothingMissed, Lasts, Window, Locate;
    var ls := Locate(batches);
    if NothingMissed(ls) {
      forall p ensures Matches(p, batches) == RulesMet(p, batches) {
        if p.minDuration.Some? {
          SameDurations(ls, p.minDuration.value);
        }
      }
    } else {
      var d := MissedDuration(ls);
      DurationOnly(d, batches);
      assert RulesMet(DurationRule(d), batches) == Lasts(ls, d);
      assert Matches(DurationRule(d), batches) != RulesMet(DurationRule(d), batches);
    }
  }

  // ---- When the order of the batches does not matter ----

  function Starts(t: Traces): seq<nat> {
    var ls := LocateTraces(t);
    seq(|ls|, i requires 0 <= i < |ls| => ls[i].span.start)
  }

  /** The same start times, batch by batch; everything else may differ. */
  ghost predicate SameStarts(a: seq<Traces>, b: seq<Traces>) {
    |a| == |b| && forall i :: 0 <= i < |a| ==> Starts(a[i]) == Starts(b[i])
  }

  ghost predicate AllStarted(a: seq<Traces>) {
    forall i :: 0 <= i < |a| ==> forall k :: 0 <= k < |Starts(a[i])| ==> Micros(Starts(a[i])[k]) != 0
  }

  /** At most one batch has any spans. */
  ghost predicate OneSpanned(a: seq<Traces>) {
    forall i, j :: 0 <= i < j < |a| ==> Starts(a[i]) == [] || Starts(a[j]) == []
  }

  // The condition is enough

  lemma {:induction false} Started(a: seq<Traces>, l: Located)
    requires AllStarted(a) && l in Locate(a)
    ensures !NoStart(l)
  {
    hide LocateTraces;
    var n := |a| - 1;
    if l in Locate(a[..n]) {
      assert forall i :: 0 <= i < n ==> a[..n][i] == a[i];
      Started(a[..n], l);
    } else {
      var ls := LocateTraces(a[n]);
      var k :| 0 <= k < |ls| && ls[k] == l;
      assert Starts(a[n])[k] == l.span.start;
    }
  }

  /** The batches that have spans. */
  ghost function Spanned(a: seq<Traces>): seq<Traces> {
    if |a| == 0 then []
    else
      var n := |a| - 1;
      if Starts(a[n]) == [] then Spanned(a[..n]) else Spanned(a[..n]) + [a[n]]
  }

  lemma {:induction false} SpannedLocate(a: seq<Traces>)
    ensures Locate(Spanned(a)) == Locate(a)
  {
    hide LocateTraces;
    if |a| > 0 {
      var n := |a| - 1;
      SpannedLocate(a[..n]);
      var s := Spanned(a[..n]);
      assert |Starts(a[n])| == |LocateTraces(a[n])|;
      assert (s + [a[n]])[..|s|] == s;
    }
  }

  lemma {:induction false} SpannedCount(a: seq<Traces>, t: Traces)
    ensures multiset(Spanned(a))[t] == if Starts(t) == [] then 0 else multiset(a)[t]
  {
    hide Starts;
    if |a| > 0 {
      SpannedCount(a[..|a| - 1], t);
      assert a == a[..|a| - 1] + [a[|a| - 1]];
    }
  }

  lemma {:induction false} AtMostOne(a: seq<Traces>)
    requires OneSpanned(a)
    ensures |Spanned(a)| <= 1
    ensures (forall i :: 0 <= i < |a| ==> Starts(a[i]) == []) ==> Spanned(a) == []
  {
    hide Starts;
    if |a| > 0 {
      var n := |a| - 1;
      assert forall i :: 0 <= i < n ==> a[..n][i] == a[i];
      AtMostOne(a[..n]);
    }
  }

  lemma SameFew(a: seq<Traces>, b: seq<Traces>)
    requires multiset(a) == multiset(b) && |a| <= 1
    ensures a == b
  {
    assert |a| == |multiset(a)| == |multiset(b)| == |b|;
    if |a| == 1 {
      assert a == [a[0]] && b == [b[0]];
      assert a[0] in multiset(b);
    }
  }

  lemma SpannedSame(a: seq<Traces>, b: seq<Traces>)
    requires multiset(a) == multiset(b) && OneSpanned(a)
    ensures Locate(a) == Locate(b)
  {
    hide Locate, Starts;
    forall t ensures multiset(Spanned(a))[t] == multiset(Spanned(b))[t] {
      SpannedCount(a, t);
      SpannedCount(b, t);
    }
    assert multiset(Spanned(a)) == multiset(Spanned(b));
    AtMostOne(a);
    SameFew(Spanned(a), Spanned(b));
    SpannedLocate(a);
    SpannedLocate(b);
  }

  lemma CalmSuffices(p: Rules, a: seq<Traces>, b: seq<Traces>)
    requires multiset(a) == multiset(b) && (AllStarted(a) || OneSpanned(a))
    ensures Matches(p, a) == Matches(p, b)
  {
    hide Locate, Resources, Window, Lasts, ErrorCount, SomeAttrs, SomeOperation, AllStarted, OneSpanned;
    hide StringAccepted, NumberAccepted;
    if AllStarted(a) {
      forall l | l in Locate(a) ensures !NoStart(l) {
        Started(a, l);
      }
      OrderIndependent(p, a, b);
    } else {
      SpannedSame(a, b);
      SameContents(a, b);
      SameMembers(Resources(a), Resources(b));
    }
  }

  lemma CalmCarries(a: seq<Traces>, b: seq<Traces>)
    requires SameStarts(a, b)
    ensures AllStarted(a) ==> AllStarted(b)
    ensures OneSpanned(a) ==> OneSpanned(b)
  {
    hide Starts;
  }

  // The condition is needed

  /** A batch of spans with the given starts; only the last has an end. */
  function Blank(starts: seq<nat>, end: nat): Traces {
    [ResourceSpans(map[], [BlankSpans(starts, end)])]
  }

  function BlankSpans(starts: seq<nat>, end: nat): seq<Span> {
    seq(|starts|, i requires 0 <= i < |starts| =>
      Span(0, "", map[], starts[i], if i == |starts| - 1 then end else 0, false))
  }

  function BlankList(starts: seq<nat>, end: nat): seq<Located> {
    LocateSpans(map[], BlankSpans(starts, end))
  }

  lemma BlankLocates(starts: seq<nat>, end: nat)
    ensures LocateTraces(Blank(starts, end)) == BlankList(starts, end) && Starts(Blank(starts, end)) == starts
  {
    var t := Blank(starts, end);
    var spans := BlankSpans(starts, end);
    assert t[..0] == [] && [spans][..0] == [];
    assert LocateScopes(map[], [spans]) == LocateSpans(map[], spans);
  }

  /** No ends before the last span, which ends a microsecond after it starts. */
  ghost predicate OneEnd(r: seq<Located>, x: seq<Located>, y: seq<Located>) {
    && y != []
    && (forall l :: l in r || l in x ==> Instant(l))
    && (forall i :: 0 <= i < |y| - 1 ==> Instant(y[i]))
    && Micros(y[|y| - 1].span.end) == Micros(y[|y| - 1].span.start) + 1
  }

  lemma NoEndNoDuration(w: seq<Located>, d: int)
    requires forall l :: l in w ==> Instant(l)
    ensures !Lasts(w, d)
  {}

  /** Spans of X are forgotten when Y comes, and those of Y when X does. */
  lemma ForgottenLater(r: seq<Located>, x: seq<Located>, y: seq<Located>)
    requires OneEnd(r, x, y) && x != []
    requires NoStart(y[|y| - 1]) || exists k :: 0 <= k < |x| - 1 && NoStart(x[k])
    ensures Lasts(Window(r + x + y), 1) && !Lasts(Window(r + y + x), 1)
  {
    hide NoStart, Window, Lasts;
    var one, two := r + x + y, r + y + x;
    var z := y[|y| - 1];
    WindowShape(one);
    assert one[|one| - 1] == z && z in Window(one);
    assert Lasts(Window(one), 1) by { LastsAlone(Window(one), z); }
    if k :| 0 <= k < |x| - 1 && NoStart(x[k]) {
      var n := |r| + |y| + k;
      assert two[n] == x[k] && two[n + 1..] == x[k + 1..];
      WindowRestarts(two, n);
      WindowShape(x[k + 1..]);
    } else {
      var n := |r| + |y| - 1;
      assert two[n] == z && two[n + 1..] == x;
      WindowRestarts(two, n);
      WindowShape(x);
    }
    NoEndNoDuration(Window(two), 1);
  }

  lemma LastsAlone(w: seq<Located>, z: Located)
    requires z in w && Micros(z.span.end) == Micros(z.span.start) + 1
    ensures Lasts(w, 1)
  {}

  /** Only the last span of X is without a start, and Y has one at its end. */
  lemma JoinedLater(r: seq<Located>, x: seq<Located>, y: seq<Located>) returns (d: int)
    requires OneEnd(r, x, y) && x != [] && NoStart(x[|x| - 1]) && !NoStart(y[|y| - 1])
    requires forall k :: 0 <= k < |x| - 1 ==> !NoStart(x[k])
    ensures !Lasts(Window(r + x + y), d) && Lasts(Window(r + y + x), d)
  {
    hide Window;
    var one, two := r + x + y, r + y + x;
    var z, s := y[|y| - 1], x[|x| - 1];
    d := Micros(z.span.start) + 1;
    var n := |r| + |x| - 1;
    assert one[n] == s && one[n + 1..] == y;
    WindowRestarts(one, n);
    WindowShape(y);
    var w := Window(y);
    forall a, b | a in w && b in w ensures !(Micros(b.span.end) > Micros(a.span.start)
                                              && Micros(b.span.end) - Micros(a.span.start) >= d) {
      var i :| 0 <= i < |w| && w[i] == a;
      assert !NoStart(a);
      var j :| 0 <= j < |y| && y[j] == b;
    }
    var front, tail := r + y[..|y| - 1], [z] + x;
    assert two == front + tail;
    assert z in tail && s in tail;
    WindowHolds(front, tail, z);
    WindowHolds(front, tail, s);
  }

  lemma OrdersDiffer(r: seq<Located>, x: seq<Located>, y: seq<Located>) returns (d: int)
    requires OneEnd(r, x, y) && exists k :: 0 <= k < |x| && NoStart(x[k])
    ensures Lasts(Window(r + x + y), d) != Lasts(Window(r + y + x), d)
  {
    hide NoStart, Window, Lasts, Instant;
    if NoStart(y[|y| - 1]) || exists k :: 0 <= k < |x| - 1 && NoStart(x[k]) {
      ForgottenLater(r, x, y);
      d := 1;
    } else {
      d := JoinedLater(r, x, y);
    }
  }

  function Without<T>(s: seq<T>, i: nat): seq<T>
    requires i < |s|
  {
    s[..i] + s[i + 1..]
  }

  lemma WithoutCount<T>(s: seq<T>, i: nat)
    requires i < |s|
    ensures multiset(s) == multiset(Without(s, i)) + multiset{s[i]}
  {
    assert s == s[..i] + [s[i]] + s[i + 1..];
  }

  lemma WithoutAt<T>(s: seq<T>, i: nat, n: nat)
    requires i < |s| && n < |s| - 1
    ensures Without(s, i)[n] == s[if n < i then n else n + 1]
  {}

  /** The element occurs at another place than the two. */
  ghost predicate Elsewhere<T(!new)>(s: seq<T>, i: nat, j: nat, x: T) {
    exists k :: 0 <= k < |s| && k != i && k != j && s[k] == x
  }

  lemma LeftElsewhere<T(!new)>(s: seq<T>, lo: nat, hi: nat, n: nat)
    requires lo < hi < |s| && n < |s| - 2
    ensures Elsewhere(s, lo, hi, Without(Without(s, hi), lo)[n])
  {
    var m := if n < lo then n else n + 1;
    WithoutAt(Without(s, hi), lo, n);
    WithoutAt(s, hi, m);
    var k := if m < hi then m else m + 1;
    assert s[k] == Without(Without(s, hi), lo)[n];
  }

  lemma LeftCount<T>(s: seq<T>, lo: nat, hi: nat)
    requires lo < hi < |s|
    ensures multiset(s) == multiset(Without(Without(s, hi), lo)) + multiset{s[lo]} + multiset{s[hi]}
  {
    WithoutCount(s, hi);
    WithoutAt(s, hi, lo);
    WithoutCount(Without(s, hi), lo);
  }

  /** Two elements moved to the end, in either order. */
  lemma MoveTwo<T(!new)>(s: seq<T>, i: nat, j: nat) returns (rest: seq<T>)
    requires i < |s| && j < |s| && i != j
    ensures multiset(rest + [s[i]] + [s[j]]) == multiset(s) && multiset(rest + [s[j]] + [s[i]]) == multiset(s)
    ensures forall x :: x in rest ==> Elsewhere(s, i, j, x)
  {
    var lo, hi := if i < j then i else j, if i < j then j else i;
    rest := Without(Without(s, hi), lo);
    LeftCount(s, lo, hi);
    forall x | x in rest ensures Elsewhere(s, i, j, x) {
      var n :| 0 <= n < |rest| && rest[n] == x;
      LeftElsewhere(s, lo, hi, n);
    }
    MultisetEnds(rest, s[i], s[j]);
    MultisetEnds(rest, s[j], s[i]);
  }

  lemma MultisetEnds<T>(rest: seq<T>, x: T, y: T)
    ensures multiset(rest + [x] + [y]) == multiset(rest) + multiset{x} + multiset{y}
  {}

  lemma {:induction false} AllInstant(bs: seq<Traces>)
    requires forall t :: t in bs ==> t == Blank(Starts(t), 0)
    ensures forall l :: l in Locate(bs) ==> Instant(l)
  {
    hide Starts, Blank;
    if |bs| > 0 {
      var n := |bs| - 1;
      AllInstant(bs[..n]);
      assert bs[n] in bs;
      BlankLocates(Starts(bs[n]), 0);
      forall l | l in LocateTraces(bs[n]) ensures Instant(l) {
        BlankInstant(Starts(bs[n]), l);
      }
    }
  }

  lemma BlankInstant(starts: seq<nat>, l: Located)
    requires l in BlankList(starts, 0)
    ensures Instant(l)
  {}

  lemma LocateLastTwo(rest: seq<Traces>, s: Traces, t: Traces)
    ensures Locate(rest + [s] + [t]) == Locate(rest) + LocateTraces(s) + LocateTraces(t)
  {
    hide LocateTraces;
    assert (rest + [s])[..|rest|] == rest;
    assert (rest + [s] + [t])[..|rest| + 1] == rest + [s];
  }

  /** The batches with the starts of a, in which nothing but the last span of batch j has an end. */
  function Blanked(a: seq<Traces>, j: nat): seq<Traces>
    requires j < |a| && Starts(a[j]) != []
  {
    seq(|a|, k requires 0 <= k < |a| => Blank(Starts(a[k]), if k == j then EndAfter(Starts(a[j])) else 0))
  }

  function EndAfter(starts: seq<nat>): nat
    requires starts != []
  {
    1_000 * (Micros(starts[|starts| - 1]) + 1)
  }

  lemma BlankedStarts(a: seq<Traces>, j: nat)
    requires j < |a| && Starts(a[j]) != []
    ensures SameStarts(a, Blanked(a, j))
  {
    hide Starts, Blank, EndAfter;
    forall i | 0 <= i < |a| ensures Starts(a[i]) == Starts(Blanked(a, j)[i]) {
      BlankLocates(Starts(a[i]), if i == j then EndAfter(Starts(a[j])) else 0);
    }
  }

  lemma BlankEnd(r: seq<Located>, xs: seq<nat>, ys: seq<nat>)
    requires ys != [] && forall l :: l in r ==> Instant(l)
    ensures OneEnd(r, BlankList(xs, 0), BlankList(ys, EndAfter(ys)))
  {
    forall l | l in BlankList(xs, 0) ensures Instant(l) {
      BlankInstant(xs, l);
    }
  }

  /** Moving the two batches to the end, in one order and the other, gives two verdicts. */
  lemma OrderMatters(a: seq<Traces>, i: nat, j: nat) returns (b: seq<Traces>, b': seq<Traces>, d: int)
    requires i < |a| && j < |a| && i != j && Starts(a[j]) != []
    requires exists k :: 0 <= k < |Starts(a[i])| && Micros(Starts(a[i])[k]) == 0
    ensures multiset(b) == multiset(Blanked(a, j)) == multiset(b')
    ensures Matches(DurationRule(d), b) != Matches(DurationRule(d), b')
  {
    hide Starts, Blank, EndAfter, Window, Lasts, Locate, LocateTraces, Matches, BlankList, OneEnd;
    var s := Blanked(a, j);
    var rest := MoveTwo(s, i, j);
    var xs, ys := Starts(a[i]), Starts(a[j]);
    b, b' := rest + [s[i]] + [s[j]], rest + [s[j]] + [s[i]];
    BlankLocates(xs, 0);
    BlankLocates(ys, EndAfter(ys));
    LocateLastTwo(rest, s[i], s[j]);
    LocateLastTwo(rest, s[j], s[i]);
    forall t | t in rest ensures t == Blank(Starts(t), 0) {
      var k :| 0 <= k < |s| && k != i && k != j && s[k] == t;
      BlankLocates(Starts(a[k]), 0);
    }
    AllInstant(rest);
    BlankEnd(Locate(rest), xs, ys);
    BlankStart(xs, 0);
    d := OrdersDiffer(Locate(rest), BlankList(xs, 0), BlankList(ys, EndAfter(ys)));
    DurationOnly(d, b);
    DurationOnly(d, b');
  }

  lemma BlankStart(starts: seq<nat>, end: nat)
    ensures |BlankList(starts, end)| == |starts|
    ensures forall k :: 0 <= k < |starts| ==> NoStart(BlankList(starts, end)[k]) == (Micros(starts[k]) == 0)
  {}

  /** Whatever else the spans with the starts of a hold, and whatever the rules, no order changes the verdict. */
  ghost predicate OrderFree(a: seq<Traces>) {
    forall b, b', p :: SameStarts(a, b) && multiset(b) == multiset(b') ==> Matches(p, b) == Matches(p, b')
  }

  /**
   Exactly when the order of the batches does not matter, given only their start times: no span is without a
   start, or at most one batch has any spans.
   */
  lemma OrderFreeIff(a: seq<Traces>)
    ensures OrderFree(a) <==> AllStarted(a) || OneSpanned(a)
  {
    hide Starts, Matches, Blanked;
    if AllStarted(a) || OneSpanned(a) {
      forall b, b', p | SameStarts(a, b) && multiset(b) == multiset(b') ensures Matches(p, b) == Matches(p, b') {
        CalmCarries(a, b);
        CalmSuffices(p, b, b');
      }
    } else {
      var i :| 0 <= i < |a| && exists k :: 0 <= k < |Starts(a[i])| && Micros(Starts(a[i])[k]) == 0;
      var m, n :| 0 <= m < n < |a| && Starts(a[m]) != [] && Starts(a[n]) != [];
      var j := if i == m then n else m;
      var b, b', d := OrderMatters(a, i, j);
      BlankedStarts(a, j);
      assert SameStarts(a, Blanked(a, j));
      assert Matches(DurationRule(d), Blanked(a, j)) != Matches(DurationRule(d), b)
          || Matches(DurationRule(d), Blanked(a, j)) != Matches(DurationRule(d), b');
    }
  }
}
