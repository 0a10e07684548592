/**
 k8sprocessor/kube/client.go: the table from identifiers to pods, with updates that may come out of order and
 deletions delayed by a grace period. Clock readings are inputs.
 */
module PodTable {
  import opened Base

  type Identifier = string

  datatype Pod =
    Pod(name: string, namespace: string, address: string, uid: string, startTime: Option<int>, ignore: bool)

  datatype DeleteRequest = DeleteRequest(ts: int, id: Identifier, podName: string)

  datatype State = State(pods: map<Identifier, Pod>, deleteQueue: seq<DeleteRequest>)

  function PodIDFromName(p: Pod): Identifier {
    p.name + "." + p.namespace
  }

  // ---- Adding and updating ----

  function Identifiers(p: Pod): seq<Identifier> {
    [p.uid, p.address] + if p.name != "" && p.namespace != "" then [PodIDFromName(p)] else []
  }

  /** A missing time is never before another. */
  predicate Before(a: Option<int>, b: Option<int>) {
    a.Some? && b.Some? && a.value < b.value
  }

  /** Put the pod under the identifier unless the pod there started later. */
  function Put(pods: map<Identifier, Pod>, id: Identifier, p: Pod): map<Identifier, Pod> {
    if id == "" then pods
    else if id in pods && pods[id].startTime.Some? && Before(p.startTime, pods[id].startTime) then pods
    else pods[id := p]
  }

  function PutAll(pods: map<Identifier, Pod>, ids: seq<Identifier>, p: Pod): map<Identifier, Pod> {
    if |ids| == 0 then pods else Put(PutAll(pods, ids[..|ids| - 1], p), ids[|ids| - 1], p)
  }

  function AddOrUpdate(s: State, p: Pod): State {
    s.(pods := PutAll(s.pods, Identifiers(p), p))
  }

  // ---- Forgetting ----

  /** Ignored pods cannot be looked up. */
  function Lookup(pods: map<Identifier, Pod>, id: Identifier): Option<Pod> {
    if id in pods && !pods[id].ignore then Some(pods[id]) else None
  }

  function RequestDelete(s: State, id: Identifier, name: string, now: int): State {
    var p := Lookup(s.pods, id);
    if p.Some? && p.value.name == name then s.(deleteQueue := s.deleteQueue + [DeleteRequest(now, id, name)]) else s
  }

  /** forgetPod, with the clock readings of its three requests. */
  function Forget(s: State, p: Pod, t1: int, t2: int, t3: int): State {
    var s1 := RequestDelete(s, p.address, p.name, t1);
    var s2 := RequestDelete(s1, p.uid, p.name, t2);
    RequestDelete(s2, PodIDFromName(p), p.name, t3)
  }

  // ---- Sweeping ----

  predicate Due(d: DeleteRequest, grace: int, now: int) {
    d.ts + grace <= now
  }

  /** The number of requests the sweep takes: those in front that are out of their grace period. */
  function Cutoff(q: seq<DeleteRequest>, grace: int, now: int): (n: nat)
    ensures n <= |q| && (forall i :: 0 <= i < n ==> Due(q[i], grace, now)) && (n < |q| ==> !Due(q[n], grace, now))
  {
    if |q| == 0 || !Due(q[0], grace, now) then 0 else 1 + Cutoff(q[1..], grace, now)
  }

  function Delete(pods: map<Identifier, Pod>, d: DeleteRequest): map<Identifier, Pod> {
    if d.id in pods && pods[d.id].name == d.podName then pods - {d.id} else pods
  }

  function DeleteAll(pods: map<Identifier, Pod>, ds: seq<DeleteRequest>): map<Identifier, Pod> {
    if |ds| == 0 then pods else Delete(DeleteAll(pods, ds[..|ds| - 1]), ds[|ds| - 1])
  }

  function Sweep(s: State, grace: int, now: int): State {
    var n := Cutoff(s.deleteQueue, grace, now);
    State(DeleteAll(s.pods, s.deleteQueue[..n]), s.deleteQueue[n..])
  }

  // ---- Runs ----

  datatype Event = PodChanged(pod: Pod) | PodDeleted(pod: Pod, t1: int, t2: int, t3: int) | Swept(now: int)

  function React(s: State, e: Event, grace: int): State {
    match e
    case PodChanged(p) => AddOrUpdate(s, p)
    case PodDeleted(p, t1, t2, t3) => Forget(s, p, t1, t2, t3)
    case Swept(now) => Sweep(s, grace, now)
  }

  function Run(events: seq<Event>, grace: int): State {
    if |events| == 0 then State(map[], [])
    else React(Run(events[..|events| - 1], grace), events[|events| - 1], grace)
  }

  // ---- The latest start wins ----

  predicate Touches(e: Event, id: Identifier) {
    e.PodChanged? && id != "" && id in Identifiers(e.pod)
  }

  /** The latest event among those for the identifier with the greatest start time. */
  ghost predicate Wins(events: seq<Event>, id: Identifier, j: nat) {
    && j < |events| && Touches(events[j], id) && events[j].pod.startTime.Some?
    && forall i :: 0 <= i < |events| && Touches(events[i], id) && events[i].pod.startTime.Some? ==>
         if i <= j then events[i].pod.startTime.value <= events[j].pod.startTime.value
         else events[i].pod.startTime.value < events[j].pod.startTime.value
  }

  lemma {:induction false} PutAllAt(pods: map<Identifier, Pod>, ids: seq<Identifier>, p: Pod, id: Identifier)
    ensures
      var r := PutAll(pods, ids, p);
      if id in ids then (id in r <==> id in Put(pods, id, p)) && (id in r ==> r[id] == Put(pods, id, p)[id])
      else (id in r <==> id in pods) && (id in r ==> r[id] == pods[id])
  {
    if |ids| > 0 {
      PutAllAt(pods, ids[..|ids| - 1], p, id);
    }
  }

  /** The table at one identifier after changes only: a winner if any event touched it, nothing otherwise. */
  ghost predicate Settled(events: seq<Event>, pods: map<Identifier, Pod>, id: Identifier) {
    if exists i :: 0 <= i < |events| && Touches(events[i], id) then
      id in pods && exists j: nat :: Wins(events, id, j) && pods[id] == events[j].pod
    else id !in pods
  }

  lemma SettledStep(events: seq<Event>, e: Event, pods: map<Identifier, Pod>, id: Identifier)
    requires Settled(events, pods, id) && e.PodChanged? && e.pod.startTime.Some?
    ensures Settled(events + [e], PutAll(pods, Identifiers(e.pod), e.pod), id)
  {
    var all := events + [e];
    var n := |events|;
    PutAllAt(pods, Identifiers(e.pod), e.pod, id);
    assert all[n] == e && forall i :: 0 <= i < n ==> all[i] == events[i];
    var r := PutAll(pods, Identifiers(e.pod), e.pod);
    if exists i :: 0 <= i < n && Touches(events[i], id) {
      var i :| 0 <= i < n && Touches(events[i], id);
      assert Touches(all[i], id);
      var j: nat :| Wins(events, id, j) && pods[id] == events[j].pod;
      if Touches(e, id) && e.pod.startTime.value >= events[j].pod.startTime.value {
        assert Wins(all, id, n) && r[id] == all[n].pod;
      } else {
        assert Wins(all, id, j) && r[id] == all[j].pod;
      }
    } else if Touches(e, id) {
      assert Wins(all, id, n);
    } else {
      assert !exists i :: 0 <= i < |all| && Touches(all[i], id);
    }
  }

  /**
   With only changes of pods that have start times, in any order, each identifier maps to the latest event
   among those with the greatest start time, and identifiers never mentioned map to nothing.
   */
  lemma {:induction false} LatestStartWins(events: seq<Event>, grace: int, id: Identifier)
    requires id != ""
    requires forall i :: 0 <= i < |events| ==> events[i].PodChanged? && events[i].pod.startTime.Some?
    ensures Settled(events, Run(events, grace).pods, id)
  {
    if |events| > 0 {
      var n := |events| - 1;
      LatestStartWins(events[..n], grace, id);
      SettledStep(events[..n], events[n], Run(events[..n], grace).pods, id);
      assert events[..n] + [events[n]] == events;
    }
  }

  // ---- The delete queue ----

  predicate Ordered(q: seq<DeleteRequest>) {
    forall i, j :: 0 <= i < j < |q| ==> q[i].ts <= q[j].ts
  }

  /** A sweep takes exactly the requests out of their grace period iff none of them stands behind one that is not. */
  lemma SweepTakesExactlyDue(q: seq<DeleteRequest>, grace: int, now: int)
    ensures (forall i :: 0 <= i < |q| ==> (Due(q[i], grace, now) <==> i < Cutoff(q, grace, now)))
       <==> (forall i, j :: 0 <= i < j < |q| && Due(q[j], grace, now) ==> Due(q[i], grace, now))
  {
    var n := Cutoff(q, grace, now);
    if (forall i, j :: 0 <= i < j < |q| && Due(q[j], grace, now) ==> Due(q[i], grace, now)) && n < |q| {
      forall i | n <= i < |q| ensures !Due(q[i], grace, now) {}
    }
  }

  /** The clock readings of the events never go back; `latest` is the last of them. */
  predicate Chronological(events: seq<Event>, latest: int)
    decreases |events|
  {
    if |events| == 0 then true
    else
      var init := events[..|events| - 1];
      match events[|events| - 1]
      case PodChanged(_) => Chronological(init, latest)
      case PodDeleted(_, t1, t2, t3) => t1 <= t2 <= t3 <= latest && Chronological(init, t1)
      case Swept(now) => now <= latest && Chronological(init, now)
  }

  /** An earlier delete event asked for this request. */
  ghost predicate AskedFor(events: seq<Event>, d: DeleteRequest) {
    exists i :: 0 <= i < |events| && Asks(events[i], d)
  }

  predicate Asks(e: Event, d: DeleteRequest) {
    && e.PodDeleted? && e.pod.name == d.podName
    && ((d.id == e.pod.address && d.ts == e.t1)
        || (d.id == e.pod.uid && d.ts == e.t2)
        || (d.id == PodIDFromName(e.pod) && d.ts == e.t3))
  }

  /** Everything in the queue was asked for. */
  ghost predicate AllAsked(events: seq<Event>, q: seq<DeleteRequest>) {
    forall i :: 0 <= i < |q| ==> AskedFor(events, q[i])
  }

  lemma AskedForGrows(events: seq<Event>, e: Event, d: DeleteRequest)
    ensures AskedFor(events, d) || Asks(e, d) ==> AskedFor(events + [e], d)
  {
    var all := events + [e];
    if AskedFor(events, d) {
      var i :| 0 <= i < |events| && Asks(events[i], d);
      assert Asks(all[i], d);
    } else if Asks(e, d) {
      assert Asks(all[|events|], d);
    }
  }

  lemma AllAskedGrows(events: seq<Event>, e: Event, q: seq<DeleteRequest>)
    requires AllAsked(events, q)
    ensures AllAsked(events + [e], q)
  {
    forall i | 0 <= i < |q| ensures AskedFor(events + [e], q[i]) {
      AskedForGrows(events, e, q[i]);
    }
  }

  lemma RequestAsked(events: seq<Event>, s: State, id: Identifier, name: string, now: int)
    requires AllAsked(events, s.deleteQueue) && AskedFor(events, DeleteRequest(now, id, name))
    ensures AllAsked(events, RequestDelete(s, id, name, now).deleteQueue)
  {}

  lemma ForgetAsked(events: seq<Event>, e: Event, s: State)
    requires AllAsked(events, s.deleteQueue) && e.PodDeleted?
    ensures AllAsked(events + [e], Forget(s, e.pod, e.t1, e.t2, e.t3).deleteQueue)
  {
    hide AllAsked, RequestDelete, AskedFor;
    var p, all := e.pod, events + [e];
    AllAskedGrows(events, e, s.deleteQueue);
    AskedForGrows(events, e, DeleteRequest(e.t1, p.address, p.name));
    AskedForGrows(events, e, DeleteRequest(e.t2, p.uid, p.name));
    AskedForGrows(events, e, DeleteRequest(e.t3, PodIDFromName(p), p.name));
    var s1 := RequestDelete(s, p.address, p.name, e.t1);
    RequestAsked(all, s, p.address, p.name, e.t1);
    RequestAsked(all, s1, p.uid, p.name, e.t2);
    RequestAsked(all, RequestDelete(s1, p.uid, p.name, e.t2), PodIDFromName(p), p.name, e.t3);
  }

  lemma AllAskedDrop(events: seq<Event>, q: seq<DeleteRequest>, n: nat)
    requires AllAsked(events, q) && n <= |q|
    ensures AllAsked(events, q[n..])
  {}

  /** Over every run, whatever the clock does, the delete queue holds only what delete events asked for. */
  lemma {:induction false} QueueAsked(events: seq<Event>, grace: int)
    ensures AllAsked(events, Run(events, grace).deleteQueue)
  {
    hide AskedFor;
    if |events| > 0 {
      hide AllAsked;
      var init, e := events[..|events| - 1], events[|events| - 1];
      assert events == init + [e];
      var s := Run(init, grace);
      QueueAsked(init, grace);
      AllAskedGrows(init, e, s.deleteQueue);
      match e
      case PodChanged(_) =>
      case PodDeleted(_, _, _, _) => ForgetAsked(init, e, s);
      case Swept(now) => AllAskedDrop(events, s.deleteQueue, Cutoff(s.deleteQueue, grace, now));
    }
  }

  /** Ordered by time, and not past the latest reading. */
  predicate OrderedTo(q: seq<DeleteRequest>, latest: int) {
    Ordered(q) && forall i :: 0 <= i < |q| ==> q[i].ts <= latest
  }

  lemma RequestOrdered(s: State, id: Identifier, name: string, now: int, latest: int)
    requires OrderedTo(s.deleteQueue, latest) && latest <= now
    ensures OrderedTo(RequestDelete(s, id, name, now).deleteQueue, now)
  {}

  lemma ForgetOrdered(s: State, p: Pod, t1: int, t2: int, t3: int)
    requires OrderedTo(s.deleteQueue, t1) && t1 <= t2 <= t3
    ensures OrderedTo(Forget(s, p, t1, t2, t3).deleteQueue, t3)
  {
    hide OrderedTo, RequestDelete;
    var s1 := RequestDelete(s, p.address, p.name, t1);
    RequestOrdered(s, p.address, p.name, t1, t1);
    RequestOrdered(s1, p.uid, p.name, t2, t1);
    RequestOrdered(RequestDelete(s1, p.uid, p.name, t2), PodIDFromName(p), p.name, t3, t2);
  }

  lemma OrderedDrop(q: seq<DeleteRequest>, n: nat, latest: int, later: int)
    requires OrderedTo(q, latest) && n <= |q| && latest <= later
    ensures OrderedTo(q[n..], later)
  {}

  /** Over every run whose clock does not go back the delete queue is ordered by time. */
  lemma {:induction false} QueueOrdered(events: seq<Event>, grace: int, latest: int)
    requires Chronological(events, latest)
    ensures OrderedTo(Run(events, grace).deleteQueue, latest)
  {
    if |events| > 0 {
      hide OrderedTo;
      var init, e := events[..|events| - 1], events[|events| - 1];
      var s, r := Run(init, grace), Run(events, grace);
      match e
      case PodChanged(_) =>
        QueueOrdered(init, grace, latest);
      case PodDeleted(p, t1, t2, t3) =>
        QueueOrdered(init, grace, t1);
        ForgetOrdered(s, p, t1, t2, t3);
        OrderedDrop(r.deleteQueue, 0, t3, latest);
        assert r.deleteQueue[0..] == r.deleteQueue;
      case Swept(now) =>
        QueueOrdered(init, grace, now);
        OrderedDrop(s.deleteQueue, Cutoff(s.deleteQueue, grace, now), now, latest);
    }
  }

  /** A deletion takes effect: afterwards the identifier is free or leads to a pod of another name. */
  lemma {:induction false} DeletedGone(pods: map<Identifier, Pod>, ds: seq<DeleteRequest>, i: nat)
    requires i < |ds|
    ensures var r := DeleteAll(pods, ds); ds[i].id in r ==> r[ds[i].id].name != ds[i].podName
  {
    var n := |ds| - 1;
    if i < n {
      DeletedGone(pods, ds[..n], i);
    }
  }

  /**
   A sweep after any run whose clock does not go back takes exactly the requests at least the grace period old,
   each of them takes effect, and what stays in the queue is younger; entries that stay are not changed.
   */
  lemma SweepInRuns(events: seq<Event>, grace: int, now: int)
    requires Chronological(events, now)
    ensures
      var s, r := Run(events, grace), Run(events + [Swept(now)], grace);
      var n := Cutoff(s.deleteQueue, grace, now);
      && r.deleteQueue == s.deleteQueue[n..]
      && forall i :: 0 <= i < |s.deleteQueue| ==>
           var d := s.deleteQueue[i];
           && (i < n <==> d.ts + grace <= now)
           && (i < n && d.id in r.pods ==> r.pods[d.id].name != d.podName)
    ensures
      var s, r := Run(events, grace), Run(events + [Swept(now)], grace);
      forall id :: id in r.pods ==> id in s.pods && r.pods[id] == s.pods[id]
  {
    hide DeleteAll;
    var s := Run(events, grace);
    var q := s.deleteQueue;
    assert (events + [Swept(now)])[..|events|] == events;
    QueueOrdered(events, grace, now);
    SweepTakesExactlyDue(q, grace, now);
    var n := Cutoff(q, grace, now);
    forall i | 0 <= i < n
      ensures var r := DeleteAll(s.pods, q[..n]); q[i].id in r ==> r[q[i].id].name != q[i].podName
    {
      DeletedGone(s.pods, q[..n], i);
    }
    forall id | id in DeleteAll(s.pods, q[..n]) ensures id in s.pods && DeleteAll(s.pods, q[..n])[id] == s.pods[id] {
      DeletedBy(s.pods, q[..n], id);
    }
  }

  lemma {:induction false} DeletedBy(pods: map<Identifier, Pod>, ds: seq<DeleteRequest>, id: Identifier)
    ensures
      var r := DeleteAll(pods, ds);
      && (id in r ==> id in pods && r[id] == pods[id])
      && (id in pods && id !in r ==>
            exists i :: 0 <= i < |ds| && ds[i].id == id && ds[i].podName == pods[id].name)
  {
    if |ds| > 0 {
      var n := |ds| - 1;
      DeletedBy(pods, ds[..n], id);
      var m := DeleteAll(pods, ds[..n]);
      if id in pods && id !in m {
        var i :| 0 <= i < |ds[..n]| && ds[..n][i].id == id && ds[..n][i].podName == pods[id].name;
        assert ds[i].id == id && ds[i].podName == pods[id].name;
      } else if id in m && id !in DeleteAll(pods, ds) {
        assert ds[n].id == id && ds[n].podName == pods[id].name;
      }
    }
  }

  /**
   Nothing disappears early, whatever the clock does: an entry is only ever removed by a sweep, and was asked to be
   deleted, for that identifier and that pod's name, by a delete event at least the grace period before.
   */
  lemma RemovalsWereAskedFor(events: seq<Event>, e: Event, grace: int, id: Identifier)
    requires id in Run(events, grace).pods && id !in Run(events + [e], grace).pods
    ensures e.Swept?
    ensures exists i, d :: 0 <= i < |events| && Asks(events[i], d) && d.id == id
                        && d.podName == Run(events, grace).pods[id].name && d.ts + grace <= e.now
  {
    hide DeleteAll, PutAll;
    var s := Run(events, grace);
    assert (events + [e])[..|events|] == events;
    if e.PodChanged? {
      PutAllAt(s.pods, Identifiers(e.pod), e.pod, id);
    }
    QueueAsked(events, grace);
    var n := Cutoff(s.deleteQueue, grace, e.now);
    var taken := s.deleteQueue[..n];
    DeletedBy(s.pods, taken, id);
    var k :| 0 <= k < |taken| && taken[k].id == id && taken[k].podName == s.pods[id].name;
    assert taken[k] == s.deleteQueue[k];
    var i :| 0 <= i < |events| && Asks(events[i], s.deleteQueue[k]);
  }

  // ---- What each event does ----

  /** The identifier stands for the pod: its uid, its address, or its name and namespace if it has both. */
  predicate StandsFor(id: Identifier, p: Pod) {
    && id != ""
    && (id == p.uid || id == p.address || (p.name != "" && p.namespace != "" && id == p.name + "." + p.namespace))
  }

  /** Both start times are known, and that of p is earlier. */
  predicate StartedBefore(p: Pod, q: Pod) {
    match (p.startTime, q.startTime)
    case (Some(a), Some(b)) => a < b
    case _ => false
  }

  /** A change puts the pod under all its identifiers, except where a pod that started later is, and does no more. */
  lemma ChangePuts(s: State, p: Pod, grace: int, id: Identifier)
    ensures
      var r := React(s, PodChanged(p), grace);
      var puts := StandsFor(id, p) && !(id in s.pods && StartedBefore(p, s.pods[id]));
      && r.deleteQueue == s.deleteQueue
      && (id in r.pods <==> puts || id in s.pods)
      && (id in r.pods ==> r.pods[id] == if puts then p else s.pods[id])
  {
    hide PutAll;
    PutAllAt(s.pods, Identifiers(p), p, id);
    assert id != "" ==> (id in Identifiers(p) <==> StandsFor(id, p));
  }

  /** The identifier leads to a pod of that name that is not ignored. */
  predicate LeadsTo(pods: map<Identifier, Pod>, id: Identifier, name: string) {
    id in pods && pods[id].name == name && !pods[id].ignore
  }

  function Asked(pods: map<Identifier, Pod>, id: Identifier, name: string, t: int): seq<DeleteRequest> {
    if LeadsTo(pods, id, name) then [DeleteRequest(t, id, name)] else []
  }

  /** A deletion asks, at its own time each, for the three identifiers that still lead to a pod of that name. */
  lemma DeletionAsks(s: State, p: Pod, t1: int, t2: int, t3: int, grace: int)
    ensures React(s, PodDeleted(p, t1, t2, t3), grace)
         == s.(deleteQueue := s.deleteQueue + Asked(s.pods, p.address, p.name, t1) + Asked(s.pods, p.uid, p.name, t2)
                            + Asked(s.pods, p.name + "." + p.namespace, p.name, t3))
  {}

  /** The request is one of those a deletion makes. */
  predicate AskedBy(pods: map<Identifier, Pod>, p: Pod, t1: int, t2: int, t3: int, d: DeleteRequest) {
    && d.podName == p.name && LeadsTo(pods, d.id, p.name)
    && (d == DeleteRequest(t1, p.address, p.name) || d == DeleteRequest(t2, p.uid, p.name)
        || d == DeleteRequest(t3, p.name + "." + p.namespace, p.name))
  }

  lemma DeletionQueues(s: State, p: Pod, t1: int, t2: int, t3: int, grace: int, d: DeleteRequest)
    requires AskedBy(s.pods, p, t1, t2, t3, d)
    ensures d in React(s, PodDeleted(p, t1, t2, t3), grace).deleteQueue
  {
    DeletionAsks(s, p, t1, t2, t3, grace);
    assert d in Asked(s.pods, d.id, p.name, d.ts);
  }

  /** An event that does not take the request leaves it in the queue. */
  lemma RequestStays(s: State, e: Event, grace: int, d: DeleteRequest)
    requires d in s.deleteQueue && (e.Swept? ==> !Due(d, grace, e.now))
    ensures d in React(s, e, grace).deleteQueue
  {
    hide DeleteAll, PutAll;
    match e
    case PodChanged(_) =>
    case PodDeleted(p, t1, t2, t3) => DeletionAsks(s, p, t1, t2, t3, grace);
    case Swept(now) =>
      var i :| 0 <= i < |s.deleteQueue| && s.deleteQueue[i] == d;
      var n := Cutoff(s.deleteQueue, grace, now);
      assert i >= n;
      assert s.deleteQueue[n..][i - n] == d;
  }

  lemma {:induction false} RequestWaits(before: seq<Event>, after: seq<Event>, grace: int, d: DeleteRequest)
    requires d in Run(before, grace).deleteQueue
    requires forall i :: 0 <= i < |after| && after[i].Swept? ==> !Due(d, grace, after[i].now)
    ensures d in Run(before + after, grace).deleteQueue
  {
    hide React;
    if |after| == 0 {
      assert before + after == before;
    } else {
      var n := |after| - 1;
      RequestWaits(before, after[..n], grace, d);
      var all := before + after;
      assert all[..|all| - 1] == before + after[..n];
      RequestStays(Run(before + after[..n], grace), after[n], grace, d);
    }
  }

  /**
   Deletions take effect: after a delete event, each of the pod's identifiers that led to a pod of its name is free,
   or leads to a pod of another name, when the first sweep at least the grace period later is over, in every run
   whose clock does not go back.
   */
  lemma DeletionTakesEffect(before: seq<Event>, p: Pod, t1: int, t2: int, t3: int, after: seq<Event>, grace: int,
                            now: int, d: DeleteRequest)
    requires AskedBy(Run(before, grace).pods, p, t1, t2, t3, d)
    requires Chronological(before + [PodDeleted(p, t1, t2, t3)] + after, now) && d.ts + grace <= now
    requires forall i :: 0 <= i < |after| && after[i].Swept? ==> after[i].now < d.ts + grace
    ensures
      var r := Run(before + [PodDeleted(p, t1, t2, t3)] + after + [Swept(now)], grace);
      d.id in r.pods ==> r.pods[d.id].name != p.name
  {
    hide React;
    var deleted := before + [PodDeleted(p, t1, t2, t3)];
    assert deleted[..|before|] == before;
    DeletionQueues(Run(before, grace), p, t1, t2, t3, grace, d);
    RequestWaits(deleted, after, grace, d);
    SweepInRuns(deleted + after, grace, now);
  }

  // ---- The client object ----

  class WatchClient {
    const gracePeriod: int
    var pods: map<Identifier, Pod>
    var deleteQueue: seq<DeleteRequest>

    ghost function View(): State
      reads this
    {
      State(pods, deleteQueue)
    }

    constructor (gracePeriod: int)
      ensures View() == Run([], gracePeriod) && this.gracePeriod == gracePeriod
    {
      this.gracePeriod := gracePeriod;
      pods, deleteQueue := map[], [];
    }

    method AddOrUpdatePod(pod: Pod)
      modifies `pods
      ensures View() == React(old(View()), PodChanged(pod), gracePeriod)
    {
      var identifiers := [pod.uid, pod.address];
      if pod.name != "" && pod.namespace != "" {
        identifiers := identifiers + [PodIDFromName(pod)];
      }
      assert identifiers == Identifiers(pod);
      for i := 0 to |identifiers|
        invariant pods == PutAll(old(pods), identifiers[..i], pod)
      {
        assert identifiers[..i + 1][..i] == identifiers[..i];
        var identifier := identifiers[i];
        if identifier != "" {
          if identifier in pods {
            var p := pods[identifier];
            if p.startTime.Some? && Before(pod.startTime, p.startTime) {
              continue;
            }
          }
          pods := pods[identifier := pod];
        }
      }
      assert identifiers[..|identifiers|] == identifiers;
    }

    method GetPod(identifier: Identifier) returns (pod: Option<Pod>)
      ensures pod == Lookup(pods, identifier)
    {
      if identifier !in pods {
        return None;
      }
      if pods[identifier].ignore {
        return None;
      }
      return Some(pods[identifier]);
    }

    method AppendDeleteQueue(id: Identifier, podName: string, now: int)
      modifies `deleteQueue
      ensures deleteQueue == old(deleteQueue) + [DeleteRequest(now, id, podName)]
    {
      deleteQueue := deleteQueue + [DeleteRequest(now, id, podName)];
    }

    method ForgetPod(pod: Pod, t1: int, t2: int, t3: int)
      modifies `deleteQueue
      ensures View() == React(old(View()), PodDeleted(pod, t1, t2, t3), gracePeriod)
    {
      var p := GetPod(pod.address);
      if p.Some? && p.value.name == pod.name {
        AppendDeleteQueue(pod.address, pod.name, t1);
      }
      p := GetPod(pod.uid);
      if p.Some? && p.value.name == pod.name {
        AppendDeleteQueue(pod.uid, pod.name, t2);
      }
      var id := PodIDFromName(pod);
      p := GetPod(id);
      if p.Some? && p.value.name == pod.name {
        AppendDeleteQueue(id, pod.name, t3);
      }
    }

    /** One turn of deleteLoop. */
    method SweepOnce(now: int)
      modifies this
      ensures View() == React(old(View()), Swept(now), gracePeriod)
    {
      var cutoff := 0;
      while cutoff < |deleteQueue|
        invariant deleteQueue == old(deleteQueue) && pods == old(pods)
        invariant cutoff <= |deleteQueue|
        invariant forall i :: 0 <= i < cutoff ==> Due(deleteQueue[i], gracePeriod, now)
      {
        if deleteQueue[cutoff].ts + gracePeriod > now {
          break;
        }
        cutoff := cutoff + 1;
      }
      assert cutoff == Cutoff(deleteQueue, gracePeriod, now);
      var toDelete := deleteQueue[..cutoff];
      deleteQueue := deleteQueue[cutoff..];
      for i := 0 to |toDelete|
        invariant deleteQueue == old(deleteQueue)[cutoff..]
        invariant pods == DeleteAll(old(pods), toDelete[..i])
      {
        assert toDelete[..i + 1][..i] == toDelete[..i];
        var d := toDelete[i];
        if d.id in pods {
          if pods[d.id].name == d.podName {
            pods := pods - {d.id};
          }
        }
      }
      assert toDelete[..|toDelete|] == toDelete;
    }
  }
}
