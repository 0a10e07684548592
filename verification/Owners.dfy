/**
 k8sprocessor/kube/owner.go: the cache of owner objects and the search for the owners of a pod.
 */
module Owners {
  type Uid = string

  datatype ObjectOwner = ObjectOwner(uid: Uid, namespace: string, ownerUIDs: seq<Uid>, kind: string, name: string)

  type Table = map<Uid, ObjectOwner>

  // ---- Reachability ----

  /** A path of owner references: from the pod's references on, every object but the last is cached. */
  ghost predicate IsPath(t: Table, refs: seq<Uid>, p: seq<Uid>) {
    && p != [] && p[0] in refs
    && forall i :: 0 <= i < |p| - 1 ==> p[i] in t && p[i + 1] in t[p[i]].ownerUIDs
  }

  /** Some path of d steps beyond the pod's own references leads to the object. */
  ghost predicate ReachedIn(t: Table, refs: seq<Uid>, u: Uid, d: nat) {
    exists p :: IsPath(t, refs, p) && |p| == d + 1 && p[d] == u
  }

  ghost predicate Reachable(t: Table, refs: seq<Uid>, u: Uid) {
    exists d: nat :: ReachedIn(t, refs, u, d)
  }

  ghost predicate IsDistance(t: Table, refs: seq<Uid>, u: Uid, d: nat) {
    ReachedIn(t, refs, u, d) && forall e: nat :: ReachedIn(t, refs, u, e) ==> d <= e
  }

  lemma ReachRef(t: Table, refs: seq<Uid>, u: Uid)
    requires u in refs
    ensures ReachedIn(t, refs, u, 0)
  {
    assert IsPath(t, refs, [u]);
  }

  lemma ReachNext(t: Table, refs: seq<Uid>, u: Uid, d: nat, w: Uid)
    requires ReachedIn(t, refs, u, d) && u in t && w in t[u].ownerUIDs
    ensures ReachedIn(t, refs, w, d + 1)
  {
    var p :| IsPath(t, refs, p) && |p| == d + 1 && p[d] == u;
    assert IsPath(t, refs, p + [w]);
    assert (p + [w])[d + 1] == w;
  }

  // ---- The search ----

  /** Everything that can ever be queued. */
  ghost function Universe(t: Table, refs: seq<Uid>): set<Uid> {
    (set u | u in refs) + (set k, w | k in t && w in t[k].ownerUIDs :: w)
  }

  ghost predicate Marks(visited: set<Uid>, order: seq<Uid>) {
    forall u :: u in visited <==> u in order
  }

  /** The ids queued so far, in order, and how far from the pod each was found. */
  datatype Found = Found(order: seq<Uid>, dist: seq<nat>)

  ghost predicate Within(f: Found, u: Uid, d: nat) {
    && |f.order| == |f.dist|
    && exists j :: 0 <= j < |f.order| && f.order[j] == u && f.dist[j] <= d
  }

  predicate NoRepeats(s: seq<Uid>) {
    forall i, j :: 0 <= i < j < |s| ==> s[i] != s[j]
  }

  /** The ids were found along real paths, nearest first, each once. */
  ghost predicate Sound(t: Table, refs: seq<Uid>, f: Found) {
    && |f.order| == |f.dist| && NoRepeats(f.order)
    && (forall j :: 0 <= j < |f.order| ==> f.order[j] in Universe(t, refs) && ReachedIn(t, refs, f.order[j], f.dist[j]))
    && (forall i, j :: 0 <= i < j < |f.dist| ==> f.dist[i] <= f.dist[j])
  }

  /** Everything next to the first n ids has been queued, one step further at most. */
  ghost predicate Closed(t: Table, f: Found, n: nat) {
    n <= |f.order| == |f.dist| && forall j: nat :: j < n ==> AllNext(t, f, j)
  }

  /** If the j-th object is cached, all its references have been queued. */
  ghost predicate AllNext(t: Table, f: Found, j: nat) {
    j < |f.order| && (f.order[j] in t ==> NextWithin(t, f, j, |t[f.order[j]].ownerUIDs|))
  }

  /** The first m references of the j-th object have been queued. */
  ghost predicate NextWithin(t: Table, f: Found, j: nat, m: nat) {
    && j < |f.order| == |f.dist| && f.order[j] in t && m <= |t[f.order[j]].ownerUIDs|
    && forall k :: 0 <= k < m ==> Within(f, t[f.order[j]].ownerUIDs[k], f.dist[j] + 1)
  }

  function Enqueued(f: Found, u: Uid, d: nat): Found {
    Found(f.order + [u], f.dist + [d])
  }

  lemma WithinGrows(f: Found, u: Uid, d: nat, w: Uid, e: nat)
    requires |f.order| == |f.dist|
    ensures Within(f, w, e) ==> Within(Enqueued(f, u, d), w, e)
    ensures Within(Enqueued(f, u, d), u, d)
  {
    var g := Enqueued(f, u, d);
    assert g.order[|f.order|] == u && g.dist[|f.order|] == d;
    if Within(f, w, e) {
      var j :| 0 <= j < |f.order| && f.order[j] == w && f.dist[j] <= e;
      assert g.order[j] == w && g.dist[j] <= e;
    }
  }

  lemma SoundGrows(t: Table, refs: seq<Uid>, f: Found, u: Uid, d: nat)
    requires Sound(t, refs, f) && u !in f.order && u in Universe(t, refs) && ReachedIn(t, refs, u, d)
    requires forall j :: 0 <= j < |f.dist| ==> f.dist[j] <= d
    ensures Sound(t, refs, Enqueued(f, u, d))
  {}

  lemma ClosedGrows(t: Table, f: Found, n: nat, u: Uid, d: nat)
    requires |f.order| == |f.dist| && n <= |f.order| && Closed(t, f, n)
    ensures Closed(t, Enqueued(f, u, d), n)
  {
    var g := Enqueued(f, u, d);
    forall j: nat | j < n ensures AllNext(t, g, j) {
      assert AllNext(t, f, j);
      if f.order[j] in t {
        NextGrows(t, f, j, |t[f.order[j]].ownerUIDs|, u, d);
      }
    }
  }

  lemma NextGrows(t: Table, f: Found, j: nat, m: nat, u: Uid, d: nat)
    requires |f.order| == |f.dist| && j < |f.order| && f.order[j] in t && m <= |t[f.order[j]].ownerUIDs|
    requires NextWithin(t, f, j, m)
    ensures NextWithin(t, Enqueued(f, u, d), j, m)
  {
    var g := Enqueued(f, u, d);
    forall k | 0 <= k < m ensures Within(g, t[g.order[j]].ownerUIDs[k], g.dist[j] + 1) {
      WithinGrows(f, u, d, t[f.order[j]].ownerUIDs[k], f.dist[j] + 1);
    }
  }

  /** Once everything is closed, an object on a path has been found at least as near as the path reaches. */
  lemma {:induction false} Complete(t: Table, refs: seq<Uid>, f: Found, p: seq<Uid>, n: nat)
    requires |f.order| == |f.dist| && Closed(t, f, |f.order|)
    requires forall k :: 0 <= k < |refs| ==> Within(f, refs[k], 0)
    requires IsPath(t, refs, p) && n < |p|
    ensures Within(f, p[n], n)
  {
    if n == 0 {
      var k :| 0 <= k < |refs| && refs[k] == p[0];
    } else {
      Complete(t, refs, f, p, n - 1);
      var j :| 0 <= j < |f.order| && f.order[j] == p[n - 1] && f.dist[j] <= n - 1;
      var next := t[p[n - 1]].ownerUIDs;
      var k :| 0 <= k < |next| && next[k] == p[n];
      assert AllNext(t, f, j);
      assert Within(f, next[k], f.dist[j] + 1);
    }
  }

  lemma {:induction false} BoundedBy(s: seq<Uid>, all: set<Uid>)
    requires NoRepeats(s) && forall i :: 0 <= i < |s| ==> s[i] in all
    ensures |s| <= |all|
  {
    if |s| > 0 {
      var n := |s| - 1;
      BoundedBy(s[..n], all - {s[n]});
    }
  }

  /** The cached objects among the ids, in order. */
  function Cached(t: Table, order: seq<Uid>): seq<ObjectOwner> {
    if |order| == 0 then []
    else Cached(t, order[..|order| - 1]) + if order[|order| - 1] in t then [t[order[|order| - 1]]] else []
  }

  /**
   What the search promises: exactly the cached objects reachable through cached objects, each once,
   in order of distance.
   */
  ghost predicate Answers(t: Table, refs: seq<Uid>, owners: seq<ObjectOwner>, dist: seq<nat>) {
    && |dist| == |owners|
    && (forall i :: 0 <= i < |owners| ==>
          owners[i].uid in t && t[owners[i].uid] == owners[i] && IsDistance(t, refs, owners[i].uid, dist[i]))
    && (forall i, j :: 0 <= i < j < |owners| ==> owners[i].uid != owners[j].uid && dist[i] <= dist[j])
    && (forall u :: u in t && Reachable(t, refs, u) ==> t[u] in owners)
  }

  lemma {:induction false} CachedIn(t: Table, order: seq<Uid>, j: nat)
    requires j < |order| && order[j] in t
    ensures t[order[j]] in Cached(t, order)
  {
    if j < |order| - 1 {
      CachedIn(t, order[..|order| - 1], j);
    }
  }

  /** The distances of the cached objects among the ids. */
  function CachedDist(t: Table, f: Found): seq<nat>
    requires |f.order| == |f.dist|
    decreases |f.order|
  {
    if |f.order| == 0 then []
    else
      var n := |f.order| - 1;
      CachedDist(t, Found(f.order[..n], f.dist[..n])) + if f.order[n] in t then [f.dist[n]] else []
  }

  /** Every listed object is one of the ids, with that id's distance. */
  lemma {:induction false} CachedFrom(t: Table, f: Found)
    requires |f.order| == |f.dist| && NoRepeats(f.order)
    requires forall i, j :: 0 <= i < j < |f.dist| ==> f.dist[i] <= f.dist[j]
    requires forall u :: u in t ==> t[u].uid == u
    ensures
      var owners, dist := Cached(t, f.order), CachedDist(t, f);
      && |dist| == |owners|
      && (forall i :: 0 <= i < |owners| ==> Listed(t, f, owners[i], dist[i]))
      && (forall i, j :: 0 <= i < j < |owners| ==> owners[i].uid != owners[j].uid && dist[i] <= dist[j])
    decreases |f.order|
  {
    if |f.order| > 0 {
      var n := |f.order| - 1;
      var g := Found(f.order[..n], f.dist[..n]);
      CachedFrom(t, g);
      var owners, dist := Cached(t, g.order), CachedDist(t, g);
      forall i | 0 <= i < |owners| ensures Listed(t, f, owners[i], dist[i]) {
        ListedGrows(t, f, owners[i], dist[i]);
      }
      if f.order[n] in t {
        assert Listed(t, f, t[f.order[n]], f.dist[n]);
        forall i | 0 <= i < |owners| ensures owners[i].uid != f.order[n] && dist[i] <= f.dist[n] {
          assert Listed(t, g, owners[i], dist[i]);
        }
      }
    }
  }

  ghost predicate Listed(t: Table, f: Found, o: ObjectOwner, d: nat)
    requires |f.order| == |f.dist|
  {
    exists j :: 0 <= j < |f.order| && f.order[j] == o.uid && f.dist[j] == d && o.uid in t && t[o.uid] == o
  }

  lemma ListedGrows(t: Table, f: Found, o: ObjectOwner, d: nat)
    requires |f.order| == |f.dist| > 0
    requires Listed(t, Found(f.order[..|f.order| - 1], f.dist[..|f.order| - 1]), o, d)
    ensures Listed(t, f, o, d)
  {
    var g := Found(f.order[..|f.order| - 1], f.dist[..|f.order| - 1]);
    var j :| 0 <= j < |g.order| && g.order[j] == o.uid && g.dist[j] == d && o.uid in t && t[o.uid] == o;
    assert f.order[j] == o.uid && f.dist[j] == d;
  }

  lemma DistanceExact(t: Table, refs: seq<Uid>, f: Found, j: nat)
    requires Sound(t, refs, f) && Closed(t, f, |f.order|) && j < |f.order|
    requires forall k :: 0 <= k < |refs| ==> Within(f, refs[k], 0)
    ensures IsDistance(t, refs, f.order[j], f.dist[j])
  {
    forall e: nat | ReachedIn(t, refs, f.order[j], e) ensures f.dist[j] <= e {
      var p :| IsPath(t, refs, p) && |p| == e + 1 && p[e] == f.order[j];
      Complete(t, refs, f, p, e);
      var i :| 0 <= i < |f.order| && f.order[i] == p[e] && f.dist[i] <= e;
      assert i == j;
    }
  }

  lemma ListedExact(t: Table, refs: seq<Uid>, f: Found, o: ObjectOwner, d: nat)
    requires |f.order| == |f.dist| && Sound(t, refs, f) && Closed(t, f, |f.order|) && Listed(t, f, o, d)
    requires forall k :: 0 <= k < |refs| ==> Within(f, refs[k], 0)
    ensures o.uid in t && t[o.uid] == o && IsDistance(t, refs, o.uid, d)
  {
    hide Sound, Closed, Within, IsDistance;
    var j :| 0 <= j < |f.order| && f.order[j] == o.uid && f.dist[j] == d && o.uid in t && t[o.uid] == o;
    DistanceExact(t, refs, f, j);
  }

  lemma ReachableListed(t: Table, refs: seq<Uid>, f: Found, u: Uid)
    requires |f.order| == |f.dist| && Closed(t, f, |f.order|) && u in t && Reachable(t, refs, u)
    requires forall k :: 0 <= k < |refs| ==> Within(f, refs[k], 0)
    ensures t[u] in Cached(t, f.order)
  {
    hide Closed, Cached;
    var d: nat :| ReachedIn(t, refs, u, d);
    var p :| IsPath(t, refs, p) && |p| == d + 1 && p[d] == u;
    Complete(t, refs, f, p, d);
    var j :| 0 <= j < |f.order| && f.order[j] == u && f.dist[j] <= d;
    CachedIn(t, f.order, j);
  }

  lemma Concludes(t: Table, refs: seq<Uid>, f: Found)
    requires Searching(t, refs, f, |f.order|)
    requires forall u :: u in t ==> t[u].uid == u
    ensures Answers(t, refs, Cached(t, f.order), CachedDist(t, f))
  {
    hide Closed, Within, Cached, CachedDist, Listed, IsDistance, Reachable, Universe, ReachedIn;
    var owners, dist := Cached(t, f.order), CachedDist(t, f);
    CachedFrom(t, f);
    forall i | 0 <= i < |owners|
      ensures owners[i].uid in t && t[owners[i].uid] == owners[i] && IsDistance(t, refs, owners[i].uid, dist[i])
    {
      ListedExact(t, refs, f, owners[i], dist[i]);
    }
    forall u | u in t && Reachable(t, refs, u) ensures t[u] in owners {
      ReachableListed(t, refs, f, u);
    }
  }

  /** The state of the search when the first n found ids have been looked up. */
  ghost predicate Searching(t: Table, refs: seq<Uid>, f: Found, n: nat) {
    && Sound(t, refs, f) && |f.order| == |f.dist| && n <= |f.order|
    && Closed(t, f, n)
    && (forall k :: 0 <= k < |refs| ==> Within(f, refs[k], 0))
    && (n < |f.order| ==> forall j :: 0 <= j < |f.dist| ==> f.dist[j] <= f.dist[n] + 1)
  }

  lemma SearchStep(t: Table, refs: seq<Uid>, f: Found, n: nat)
    requires Searching(t, refs, f, n) && n < |f.order|
    requires f.order[n] in t ==> NextWithin(t, f, n, |t[f.order[n]].ownerUIDs|)
    ensures Searching(t, refs, f, n + 1)
    ensures Cached(t, f.order[..n + 1])
         == Cached(t, f.order[..n]) + if f.order[n] in t then [t[f.order[n]]] else []
  {
    hide Within, Universe, ReachedIn, NextWithin;
    assert f.order[..n + 1][..n] == f.order[..n];
  }

  lemma SearchBound(t: Table, refs: seq<Uid>, f: Found, n: nat)
    requires Searching(t, refs, f, n)
    ensures n <= |f.order| == |f.dist| <= |Universe(t, refs)|
  {
    BoundedBy(f.order, Universe(t, refs));
  }

  lemma SearchStart(t: Table, refs: seq<Uid>, f: Found)
    requires Sound(t, refs, f)
    requires forall k :: 0 <= k < |refs| ==> Within(f, refs[k], 0)
    requires forall j :: 0 <= j < |f.dist| ==> f.dist[j] == 0
    ensures Searching(t, refs, f, 0) && Cached(t, f.order[..0]) == []
  {}

  // ---- The cache object ----

  class OwnerCache {
    var objectOwners: Table

    ghost predicate Valid()
      reads this
    {
      forall u :: u in objectOwners ==> objectOwners[u].uid == u
    }

    constructor ()
      ensures Valid() && objectOwners == map[]
    {
      objectOwners := map[];
    }

    method DeleteObject(uid: Uid)
      requires Valid()
      modifies this
      ensures Valid() && objectOwners == old(objectOwners) - {uid}
    {
      objectOwners := objectOwners - {uid};
    }

    method CacheObject(kind: string, uid: Uid, namespace: string, name: string, references: seq<Uid>)
      requires Valid()
      modifies this
      ensures Valid()
      ensures objectOwners == old(objectOwners)[uid := ObjectOwner(uid, namespace, references, kind, name)]
    {
      var ownerUIDs: seq<Uid> := [];
      for i := 0 to |references|
        invariant ownerUIDs == references[..i] && objectOwners == old(objectOwners)
      {
        ownerUIDs := ownerUIDs + [references[i]];
      }
      assert references[..|references|] == references;
      objectOwners := objectOwners[uid := ObjectOwner(uid, namespace, ownerUIDs, kind, name)];
    }

    /** GetOwners, also on cyclic ownership. */
    method GetOwners(refs: seq<Uid>) returns (owners: seq<ObjectOwner>)
      requires Valid()
      ensures exists dist :: Answers(objectOwners, refs, owners, dist)
    {
      hide Searching, Cached, CachedDist, Universe, NextWithin, Answers, Queueing, Sound;
      owners := [];
      var visited, queue, f := QueueReferences(refs);
      ghost var n := 0;
      SearchStart(objectOwners, refs, f);
      SearchBound(objectOwners, refs, f, n);
      while |queue| > 0
        invariant Searching(objectOwners, refs, f, n)
        invariant n <= |f.order| == |f.dist| <= |Universe(objectOwners, refs)|
        invariant queue == f.order[n..]
        invariant Marks(visited, f.order)
        invariant owners == Cached(objectOwners, f.order[..n])
        decreases |Universe(objectOwners, refs)| - n
      {
        var uid := queue[0];
        queue := queue[1..];
        if uid in objectOwners {
          owners := owners + [objectOwners[uid]];
          ghost var before := f;
          QueueingStart(objectOwners, refs, f, n, visited, queue);
          visited, queue, f := QueueOwners(objectOwners, refs, objectOwners[uid], visited, queue, f, n);
          QueueingDone(objectOwners, refs, before, f, n, visited, queue);
        }
        SearchStep(objectOwners, refs, f, n);
        SearchBound(objectOwners, refs, f, n + 1);
        n := n + 1;
      }
      assert f.order[..n] == f.order;
      Concludes(objectOwners, refs, f);
    }

    /** The first loop: the pod's own references, each once. */
    method QueueReferences(refs: seq<Uid>) returns (visited: set<Uid>, queue: seq<Uid>, ghost f: Found)
      ensures Sound(objectOwners, refs, f) && queue == f.order
      ensures Marks(visited, f.order)
      ensures forall k :: 0 <= k < |refs| ==> Within(f, refs[k], 0)
      ensures forall j :: 0 <= j < |f.dist| ==> f.dist[j] == 0
    {
      hide Universe, ReachedIn;
      visited, queue, f := {}, [], Found([], []);
      for i := 0 to |refs|
        invariant Sound(objectOwners, refs, f) && queue == f.order
        invariant Marks(visited, f.order)
        invariant forall k :: 0 <= k < i ==> Within(f, refs[k], 0)
        invariant forall j :: 0 <= j < |f.dist| ==> f.dist[j] == 0
      {
        if refs[i] !in visited {
          ReachRef(objectOwners, refs, refs[i]);
          assert refs[i] in Universe(objectOwners, refs) by { RefInUniverse(objectOwners, refs, i); }
          SoundGrows(objectOwners, refs, f, refs[i], 0);
          forall k | 0 <= k < i ensures Within(Enqueued(f, refs[i], 0), refs[k], 0) {
            WithinGrows(f, refs[i], 0, refs[k], 0);
          }
          WithinGrows(f, refs[i], 0, refs[i], 0);
          queue := queue + [refs[i]];
          visited := visited + {refs[i]};
          f := Enqueued(f, refs[i], 0);
        } else {
          assert Within(f, refs[i], 0);
        }
      }
    }
  }

  /** The inner loop of the search: the owners of the n-th found object, each once. */
  method QueueOwners(ghost t: Table, refs: seq<Uid>, oo: ObjectOwner, visited0: set<Uid>, queue0: seq<Uid>,
                     ghost f0: Found, ghost n: nat)
    returns (visited: set<Uid>, queue: seq<Uid>, ghost f: Found)
    requires n < |f0.order| && f0.order[n] in t && t[f0.order[n]] == oo
    requires Queueing(t, refs, f0, f0, n, 0, visited0, queue0)
    ensures Queueing(t, refs, f0, f, n, |oo.ownerUIDs|, visited, queue)
  {
    hide *;
    visited, queue, f := visited0, queue0, f0;
    for i := 0 to |oo.ownerUIDs|
      invariant Queueing(t, refs, f0, f, n, i, visited, queue)
    {
      var w := oo.ownerUIDs[i];
      if w !in visited {
        f := QueueingNew(t, refs, f0, f, n, i, visited, queue);
        queue := queue + [w];
        visited := visited + {w};
      } else {
        QueueingKnown(t, refs, f0, f, n, i, visited, queue);
      }
    }
  }

  /** The state of the inner loop after m owners of the n-th found object. */
  ghost predicate Queueing(t: Table, refs: seq<Uid>, f0: Found, f: Found, n: nat, m: nat,
                           visited: set<Uid>, queue: seq<Uid>) {
    && Searching(t, refs, f, n)
    && n < |f0.order| <= |f.order| && f.order[..n + 1] == f0.order[..n + 1]
    && queue == f.order[n + 1..] && Marks(visited, f.order)
    && f0.order[n] in t && m <= |t[f0.order[n]].ownerUIDs| && f.order[n] == f0.order[n]
    && NextWithin(t, f, n, m)
  }

  lemma QueueingStart(t: Table, refs: seq<Uid>, f: Found, n: nat, visited: set<Uid>, queue: seq<Uid>)
    requires Searching(t, refs, f, n) && n < |f.order| && f.order[n] in t
    requires queue == f.order[n + 1..] && Marks(visited, f.order)
    ensures Queueing(t, refs, f, f, n, 0, visited, queue)
  {}

  lemma QueueingDone(t: Table, refs: seq<Uid>, f0: Found, f: Found, n: nat, visited: set<Uid>, queue: seq<Uid>)
    requires n < |f0.order| && f0.order[n] in t
    requires Queueing(t, refs, f0, f, n, |t[f0.order[n]].ownerUIDs|, visited, queue)
    ensures Searching(t, refs, f, n) && n < |f.order| == |f.dist| && queue == f.order[n + 1..]
    ensures f.order[n] == f0.order[n] && f.order[..n] == f0.order[..n]
    ensures Marks(visited, f.order)
    ensures NextWithin(t, f, n, |t[f.order[n]].ownerUIDs|)
  {
    assert f.order[..n] == f.order[..n + 1][..n] && f0.order[..n] == f0.order[..n + 1][..n];
  }

  lemma QueueingKnown(t: Table, refs: seq<Uid>, f0: Found, f: Found, n: nat, m: nat, visited: set<Uid>, queue: seq<Uid>)
    requires Queueing(t, refs, f0, f, n, m, visited, queue)
    requires m < |t[f0.order[n]].ownerUIDs| && t[f0.order[n]].ownerUIDs[m] in visited
    ensures Queueing(t, refs, f0, f, n, m + 1, visited, queue)
  {
    hide Searching, NextWithin;
    assert |f.order| == |f.dist| by { SearchBound(t, refs, f, n); }
    NextKnown(t, refs, f, n, m);
  }

  lemma QueueingNew(t: Table, refs: seq<Uid>, f0: Found, f: Found, n: nat, m: nat, visited: set<Uid>, queue: seq<Uid>)
    returns (g: Found)
    requires Queueing(t, refs, f0, f, n, m, visited, queue)
    requires m < |t[f0.order[n]].ownerUIDs| && t[f0.order[n]].ownerUIDs[m] !in visited
    ensures var w := t[f0.order[n]].ownerUIDs[m];
      Queueing(t, refs, f0, g, n, m + 1, visited + {w}, queue + [w])
  {
    hide Searching, NextWithin, Within;
    var w := t[f0.order[n]].ownerUIDs[m];
    assert |f.order| == |f.dist| by { SearchBound(t, refs, f, n); }
    g := Enqueued(f, w, f.dist[n] + 1);
    SearchGrows(t, refs, f, n, m, g);
    assert g.order[..n + 1] == f.order[..n + 1];
    assert queue + [w] == g.order[n + 1..];
    forall u ensures u in visited + {w} <==> u in g.order {
      assert u in g.order <==> u in f.order || u == w;
    }
  }

  lemma NextKnown(t: Table, refs: seq<Uid>, f: Found, n: nat, i: nat)
    requires n < |f.order| == |f.dist| && f.order[n] in t && Searching(t, refs, f, n)
    requires i < |t[f.order[n]].ownerUIDs| && t[f.order[n]].ownerUIDs[i] in f.order && NextWithin(t, f, n, i)
    ensures NextWithin(t, f, n, i + 1)
  {
    hide Sound, Closed;
    var j :| 0 <= j < |f.order| && f.order[j] == t[f.order[n]].ownerUIDs[i];
    assert Within(f, t[f.order[n]].ownerUIDs[i], f.dist[n] + 1);
  }

  /** Queueing one more owner keeps everything that was found. */
  lemma SearchGrows(t: Table, refs: seq<Uid>, f: Found, n: nat, i: nat, g: Found)
    requires n < |f.order| == |f.dist| && n < |g.order| == |g.dist|
    requires f.order[n] in t && g.order[n] == f.order[n] && i < |t[f.order[n]].ownerUIDs|
    requires g == Enqueued(f, t[f.order[n]].ownerUIDs[i], f.dist[n] + 1) && t[f.order[n]].ownerUIDs[i] !in f.order
    requires NextWithin(t, f, n, i)
    requires Searching(t, refs, f, n)
    ensures Searching(t, refs, g, n)
    ensures NextWithin(t, g, n, i + 1)
  {
    hide Closed, Within, ReachedIn, Universe;
    var w, d := t[f.order[n]].ownerUIDs[i], f.dist[n] + 1;
    assert Sound(t, refs, g) by {
      ReachNext(t, refs, f.order[n], f.dist[n], w);
      InUniverse(t, refs, f.order[n], i);
      SoundGrows(t, refs, f, w, d);
    }
    ClosedGrows(t, f, n, w, d);
    forall k | 0 <= k < |refs| ensures Within(g, refs[k], 0) {
      WithinGrows(f, w, d, refs[k], 0);
    }
    NextGrows(t, f, n, i, w, d);
    WithinGrows(f, w, d, w, d);
  }

  lemma RefInUniverse(t: Table, refs: seq<Uid>, i: nat)
    requires i < |refs|
    ensures refs[i] in Universe(t, refs)
  {
    assert refs[i] in refs;
  }

  lemma InUniverse(t: Table, refs: seq<Uid>, u: Uid, i: nat)
    requires u in t && i < |t[u].ownerUIDs|
    ensures t[u].ownerUIDs[i] in Universe(t, refs)
  {
    assert t[u].ownerUIDs[i] in t[u].ownerUIDs;
  }
}
