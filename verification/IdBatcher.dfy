/**
 idbatcher/id_batcher.go: a pipeline of id batches with a fixed number of stages.

 Ids pass from the pending channel through the filler goroutine into the batch under
 construction, and from there, batch by batch, through the pipe. Each operation and each
 turn of the filler is one step; `added`, `closed` and `delivered` record what a run did.
 */
module IdBatcher {
  import opened Base

  type Batch<T> = seq<T>

  datatype Pipeline<T> = Pipeline(
    numBatches: nat,
    channelSize: nat,
    pending: seq<T>,          // ids in the channel, oldest first
    current: Batch<T>,        // the batch under construction
    pipe: seq<Batch<T>>,      // completed batches, oldest first
    closing: bool,            // the pending channel is closed
    stopped: bool,            // the pipe is closed
    added: seq<T>,
    closed: seq<Batch<T>>,
    delivered: seq<Batch<T>>)

  datatype Step<T> = Add(id: T) | Fill | Take | BeginStop | EndStop

  function Empties<T>(n: nat): seq<Batch<T>> {
    seq(n, _ => [])
  }

  function Start<T>(numBatches: nat, channelSize: nat): Pipeline<T> {
    Pipeline(numBatches, channelSize, [], [], Empties(numBatches), false, false, [], [], [])
  }

  /** AddToCurrentBatch, once the channel has room. */
  function Enqueue<T>(p: Pipeline<T>, id: T): Pipeline<T> {
    p.(pending := p.pending + [id], added := p.added + [id])
  }

  /** One turn of the filler goroutine. */
  function FillOne<T>(p: Pipeline<T>): Pipeline<T>
    requires p.pending != []
  {
    p.(pending := p.pending[1..], current := p.current + [p.pending[0]])
  }

  /** CloseCurrentAndTakeFirstBatch. */
  function TakeFirst<T>(p: Pipeline<T>): (Pipeline<T>, Batch<T>, bool) {
    if p.pipe != [] then
      var first := p.pipe[0];
      if !p.stopped then
        (p.(pipe := p.pipe[1..] + [p.current], current := [],
            closed := p.closed + [p.current], delivered := p.delivered + [first]), first, true)
      else
        (p.(pipe := p.pipe[1..], delivered := p.delivered + [first]), first, true)
    else
      (p.(current := [], delivered := p.delivered + [p.current]), p.current, false)
  }

  /** A step can happen: sends need room in an open channel, the filler an id, the end of Stop an empty channel. */
  predicate Enabled<T>(p: Pipeline<T>, s: Step<T>) {
    match s
    case Add(_) => !p.closing && |p.pending| < p.channelSize
    case Fill => p.pending != []
    case Take => true
    case BeginStop => !p.closing
    case EndStop => p.closing && p.pending == [] && !p.stopped
  }

  function Next<T>(p: Pipeline<T>, s: Step<T>): Pipeline<T>
    requires Enabled(p, s)
  {
    match s
    case Add(id) => Enqueue(p, id)
    case Fill => FillOne(p)
    case Take => TakeFirst(p).0
    case BeginStop => p.(closing := true)
    case EndStop => p.(stopped := true)
  }

  function Concat<T>(bs: seq<Batch<T>>): seq<T> {
    if |bs| == 0 then [] else Concat(bs[..|bs| - 1]) + bs[|bs| - 1]
  }

  lemma {:induction false} ConcatAppend<T>(a: seq<Batch<T>>, b: seq<Batch<T>>)
    ensures Concat(a + b) == Concat(a) + Concat(b)
  {
    if |b| == 0 {
      assert a + b == a;
    } else {
      ConcatAppend(a, b[..|b| - 1]);
      assert (a + b)[..|a + b| - 1] == a + b[..|b| - 1];
    }
  }

  lemma ConcatSnoc<T>(a: seq<Batch<T>>, x: Batch<T>)
    ensures Concat(a + [x]) == Concat(a) + x
  {
    assert (a + [x])[..|a|] == a;
  }

  /** Everything still inside, in the order it will come out. */
  function Inside<T>(p: Pipeline<T>): seq<T> {
    Concat(p.pipe) + p.current + p.pending
  }

  ghost predicate Inv<T>(p: Pipeline<T>) {
    && 1 <= p.numBatches
    && |p.pending| <= p.channelSize
    && Concat(p.delivered) + Inside(p) == p.added
    && (!p.stopped ==> |p.pipe| == p.numBatches)
    && (p.stopped ==> p.closing && p.pending == [] && |p.pipe| <= p.numBatches)
    && (p.pipe != [] ==> p.delivered + p.pipe == Empties(p.numBatches) + p.closed)
    && (p.pipe == [] ==> Empties(p.numBatches) + p.closed <= p.delivered)
  }

  lemma {:induction false} ConcatEmpties<T>(n: nat)
    ensures Concat(Empties<T>(n)) == []
  {
    if n > 0 {
      ConcatEmpties<T>(n - 1);
      assert Empties<T>(n)[..n - 1] == Empties<T>(n - 1);
    }
  }

  lemma StartInv<T>(numBatches: nat, channelSize: nat)
    requires 1 <= numBatches
    ensures Inv(Start<T>(numBatches, channelSize))
  {
    ConcatEmpties<T>(numBatches);
    assert Empties<T>(numBatches) + [] == Empties<T>(numBatches);
  }

  lemma ConcatCons<T>(x: Batch<T>, bs: seq<Batch<T>>)
    ensures Concat([x] + bs) == x + Concat(bs)
  {
    ConcatSnoc([], x);
    assert [] + [x] == [x];
    ConcatAppend([x], bs);
  }

  lemma TakeInside<T>(p: Pipeline<T>)
    requires Inv(p)
    ensures
      var (q, first, _) := TakeFirst(p);
      && q.delivered == p.delivered + [first]
      && first + Inside(q) == Inside(p)
      && Concat(q.delivered) == Concat(p.delivered) + first
  {
    hide Concat;
    var (q, first, _) := TakeFirst(p);
    ConcatSnoc(p.delivered, first);
    if p.pipe != [] {
      assert p.pipe == [first] + p.pipe[1..];
      ConcatCons(first, p.pipe[1..]);
      ConcatSnoc(p.pipe[1..], p.current);
    } else {
      ConcatEmpties<T>(0);
      assert Empties<T>(0) == [];
    }
  }

  lemma TakeShape<T>(p: Pipeline<T>)
    requires Inv(p)
    ensures
      var q := TakeFirst(p).0;
      && (q.pipe != [] ==> q.delivered + q.pipe == Empties(q.numBatches) + q.closed)
      && (q.pipe == [] ==> Empties(q.numBatches) + q.closed <= q.delivered)
  {
    hide Concat, Empties, Inside;
    var (q, first, _) := TakeFirst(p);
    if p.pipe != [] {
      assert p.delivered + p.pipe == (p.delivered + [first]) + p.pipe[1..];
      if !p.stopped {
        assert q.delivered + q.pipe == (p.delivered + p.pipe) + [p.current];
        assert Empties(p.numBatches) + q.closed == (Empties(p.numBatches) + p.closed) + [p.current];
      } else if p.pipe[1..] == [] {
        assert q.delivered == p.delivered + p.pipe;
      }
    }
  }

  lemma TakeInv<T>(p: Pipeline<T>)
    requires Inv(p)
    ensures Inv(TakeFirst(p).0)
  {
    hide Concat, Empties, Inside;
    var (q, first, _) := TakeFirst(p);
    TakeInside(p);
    TakeShape(p);
    assert Concat(q.delivered) + Inside(q) == Concat(p.delivered) + (first + Inside(q));
  }

  lemma AddInv<T>(p: Pipeline<T>, id: T)
    requires Inv(p) && !p.closing && |p.pending| < p.channelSize
    ensures Inv(Enqueue(p, id)) && Inside(Enqueue(p, id)) == Inside(p) + [id]
  {
    hide Concat, Empties;
    var q := Enqueue(p, id);
    assert Inside(q) == Inside(p) + [id];
    assert Concat(q.delivered) + Inside(q) == (Concat(p.delivered) + Inside(p)) + [id];
  }

  lemma FillInv<T>(p: Pipeline<T>)
    requires Inv(p) && p.pending != []
    ensures Inv(FillOne(p)) && Inside(FillOne(p)) == Inside(p)
  {
    hide Concat, Empties;
    assert Inside(FillOne(p)) == Inside(p);
  }

  lemma NextInv<T>(p: Pipeline<T>, s: Step<T>)
    requires Inv(p) && Enabled(p, s)
    ensures Inv(Next(p, s))
  {
    hide Concat, Empties;
    match s
    case Add(id) => AddInv(p, id);
    case Fill => FillInv(p);
    case Take => TakeInv(p);
    case BeginStop =>
    case EndStop =>
  }

  // ---- Runs ----

  /** The state after the steps; None if one of them could not happen. */
  function Run<T>(p: Pipeline<T>, steps: seq<Step<T>>): Option<Pipeline<T>> {
    if |steps| == 0 then Some(p)
    else
      var m := Run(p, steps[..|steps| - 1]);
      var s := steps[|steps| - 1];
      if m.Some? && Enabled(m.value, s) then Some(Next(m.value, s)) else None
  }

  /**
   Every run of adds, filler turns, takes and a stop, in any interleaving:
   what was delivered followed by what is inside is exactly what was added, in order; the pipe holds
   numBatches batches until it is closed; and the batch closed by take k is delivered by take k + numBatches.
   */
  lemma {:induction false} ExactlyOnceInOrder<T>(n: nat, size: nat, steps: seq<Step<T>>, q: Pipeline<T>)
    requires 1 <= n && Run(Start<T>(n, size), steps) == Some(q)
    ensures Inv(q) && q.numBatches == n
    ensures Concat(q.delivered) + Inside(q) == q.added
    ensures !q.stopped ==> |q.pipe| == n && |q.closed| == |q.delivered|
    ensures forall k :: 0 <= k < |q.closed| && k + n < |q.delivered| ==> q.delivered[k + n] == q.closed[k]
  {
    RunInv(n, size, steps, q);
    var seen := Empties<T>(n) + q.closed;
    assert !q.stopped ==> |q.delivered + q.pipe| == |seen|;
    forall k | 0 <= k < |q.closed| && k + n < |q.delivered|
      ensures q.delivered[k + n] == q.closed[k]
    {
      assert seen[k + n] == q.closed[k];
      if q.pipe != [] {
        assert (q.delivered + q.pipe)[k + n] == q.delivered[k + n];
      }
    }
  }

  lemma {:induction false} RunInv<T>(n: nat, size: nat, steps: seq<Step<T>>, q: Pipeline<T>)
    requires 1 <= n && Run(Start<T>(n, size), steps) == Some(q)
    ensures Inv(q) && q.numBatches == n
  {
    StartInv<T>(n, size);
    if |steps| > 0 {
      var m := Run(Start<T>(n, size), steps[..|steps| - 1]).value;
      RunInv(n, size, steps[..|steps| - 1], m);
      NextInv(m, steps[|steps| - 1]);
    }
  }

  // ---- Draining after Stop ----

  function Drain<T>(p: Pipeline<T>, calls: nat): Pipeline<T> {
    if calls == 0 then p else TakeFirst(Drain(p, calls - 1)).0
  }

  /** After Stop, taking every batch left in the pipe and once more delivers every id ever added. */
  lemma DrainDeliversAll<T>(p: Pipeline<T>)
    requires Inv(p) && p.stopped
    ensures Concat(Drain(p, |p.pipe| + 1).delivered) == p.added
    ensures TakeFirst(Drain(p, |p.pipe|)).2 == false
    ensures forall k :: 0 <= k < |p.pipe| ==> TakeFirst(Drain(p, k)).2 == true
  {
    DrainPipe(p, |p.pipe|);
    var d := Drain(p, |p.pipe|);
    ConcatSnoc(d.delivered, d.current);
    assert d.pipe == [];
    assert Inside(d) == d.current;
    forall k | 0 <= k < |p.pipe| ensures TakeFirst(Drain(p, k)).2 == true {
      DrainPipe(p, k);
    }
  }

  lemma {:induction false} DrainPipe<T>(p: Pipeline<T>, k: nat)
    requires Inv(p) && p.stopped && k <= |p.pipe|
    ensures Inv(Drain(p, k)) && Drain(p, k).stopped
    ensures Drain(p, k).pipe == p.pipe[k..] && Drain(p, k).current == p.current
    ensures Drain(p, k).added == p.added
  {
    if k > 0 {
      DrainPipe(p, k - 1);
      NextInv(Drain(p, k - 1), Take);
      assert p.pipe[k - 1..][1..] == p.pipe[k..];
    }
  }

  // ---- The batcher object ----

  datatype Error = InvalidNumBatches | InvalidBatchChannelSize

  class Batcher<T> {
    const numBatches: nat
    const channelSize: nat
    var pendingIds: seq<T>
    var batches: seq<Batch<T>>
    var currentBatch: Batch<T>
    var closing: bool
    var stopped: bool
    ghost var added: seq<T>
    ghost var closed: seq<Batch<T>>
    ghost var delivered: seq<Batch<T>>

    ghost function State(): Pipeline<T>
      reads this
    {
      Pipeline(numBatches, channelSize, pendingIds, currentBatch, batches, closing, stopped,
               added, closed, delivered)
    }

    constructor (numBatches: nat, channelSize: nat)
      requires 1 <= numBatches && 1 <= channelSize
      ensures State() == Start(numBatches, channelSize)
      ensures Inv(State())
    {
      this.numBatches, this.channelSize := numBatches, channelSize;
      batches := Empties(numBatches);
      pendingIds, currentBatch := [], [];
      closing, stopped := false, false;
      added, closed, delivered := [], [], [];
      new;
      StartInv<T>(numBatches, channelSize);
    }

    /** New: refuses a pipe without stages and a channel without room. */
    static method New(numBatches: nat, channelSize: nat) returns (b: Option<Batcher<T>>, err: Option<Error>)
      ensures numBatches < 1 ==> b.None? && err == Some(InvalidNumBatches)
      ensures 1 <= numBatches && channelSize < 1 ==> b.None? && err == Some(InvalidBatchChannelSize)
      ensures 1 <= numBatches && 1 <= channelSize ==>
        b.Some? && err == None && fresh(b.value) && b.value.State() == Start(numBatches, channelSize)
    {
      if numBatches < 1 {
        return None, Some(InvalidNumBatches);
      }
      if channelSize < 1 {
        return None, Some(InvalidBatchChannelSize);
      }
      var o := new Batcher<T>(numBatches, channelSize);
      return Some(o), None;
    }

    /** The filler goroutine takes one id off the channel. */
    method FillCurrent()
      requires Inv(State()) && pendingIds != []
      modifies this
      ensures State() == FillOne(old(State())) && Inv(State())
    {
      NextInv(State(), Fill);
      currentBatch := currentBatch + [pendingIds[0]];
      pendingIds := pendingIds[1..];
    }

    /** The send blocks on a full channel until the filler has made room. */
    method AddToCurrentBatch(id: T)
      requires Inv(State()) && !closing && 1 <= channelSize
      modifies this
      ensures Inv(State())
      ensures var p := old(State());
        State() == Enqueue(if |p.pending| < p.channelSize then p else FillOne(p), id)
    {
      if |pendingIds| == channelSize {
        FillCurrent();
      }
      NextInv(State(), Add(id));
      pendingIds := pendingIds + [id];
      added := added + [id];
    }

    method CloseCurrentAndTakeFirstBatch() returns (batch: Batch<T>, more: bool)
      requires Inv(State())
      modifies this
      ensures (State(), batch, more) == TakeFirst(old(State()))
      ensures Inv(State())
    {
      NextInv(State(), Take);
      if batches != [] {
        batch := batches[0];
        batches := batches[1..];
        if !stopped {
          batches := batches + [currentBatch];
          closed := closed + [currentBatch];
          currentBatch := [];
        }
        delivered := delivered + [batch];
        return batch, true;
      }
      batch := currentBatch;
      delivered := delivered + [batch];
      currentBatch := [];
      more := false;
    }

    /** Stop closes the channel, waits for the filler to empty it, and closes the pipe. */
    method Stop()
      requires Inv(State()) && !closing && !stopped
      modifies this
      ensures Inv(State()) && stopped && pendingIds == []
      ensures batches == old(batches) && added == old(added) && delivered == old(delivered)
      ensures currentBatch == old(currentBatch) + old(pendingIds)
    {
      closing := true;
      assert currentBatch + pendingIds == old(currentBatch) + old(pendingIds);
      while pendingIds != []
        invariant Inv(State()) && closing && !stopped
        invariant batches == old(batches) && added == old(added) && delivered == old(delivered)
        invariant currentBatch + pendingIds == old(currentBatch) + old(pendingIds)
        decreases |pendingIds|
      {
        ghost var before := currentBatch + pendingIds;
        FillCurrent();
        assert currentBatch + pendingIds == before;
      }
      NextInv(State(), EndStop);
      stopped := true;
      assert currentBatch == currentBatch + pendingIds;
    }
  }
}
