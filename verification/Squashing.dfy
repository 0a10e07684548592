/**
 nesting_processor.go: squashing maps with a single entry, and the whole of processAttributes.
 */
module Squashing {
  import opened Base
  import opened Nesting

  /** A key put in front of every key; "" stands for no key. */
  function Ext(key: string, x: string, sep: string): string {
    if key == "" then x else SquashKey(key, x, sep)
  }

  function Prefixed(key: string, es: set<(string, Scalar)>, sep: string): set<(string, Scalar)> {
    set e | e in es :: (Ext(key, e.0, sep), e.1)
  }

  /** Squashed through and through: no map in the tree has exactly one entry. */
  ghost predicate Normal(t: Tree) {
    t.Node? ==> |t.m| != 1 && forall k :: k in t.m ==> Normal(t.m[k])
  }

  /** A single leaf below any number of single entry maps. */
  ghost predicate Chain(t: Tree) {
    t.Node? ==> |t.m| == 1 && forall k :: k in t.m ==> Chain(t.m[k])
  }

  // ---- Keys of siblings never collide ----

  /** A squashed key and the key it came from: only a map gives its key a suffix. */
  ghost predicate Squashes(m: map<string, Tree>, k: string, suffix: string, sep: string) {
    k in m && (suffix != "" ==> m[k].Node?)
  }

  lemma FirstCut(k: string, suffix: string, sep: string)
    requires sep != "" && Cuts(k, sep)
    ensures Occurs(k + sep + suffix, sep, |k|)
    ensures forall j: nat :: j < |k| ==> !Occurs(k + sep + suffix, sep, j)
  {
    var s := k + sep + suffix;
    assert s[|k|..|k| + |sep|] == sep;
    forall j: nat | j < |k| ensures !Occurs(s, sep, j) {
      assert s[j..j + |sep|] == (k + sep)[j..j + |sep|];
      assert !Occurs(k + sep, sep, j);
    }
  }

  lemma PlainBelow(m: map<string, Tree>, k: string, sep: string)
    requires sep != "" && WellKeyed(Node(m), sep) && k in m
    ensures Plain(k, sep) && (m[k].Node? ==> Cuts(k, sep))
  {
    if m[k].Node? {
      CutsIsPlain(k, sep);
    }
  }

  lemma CutTwice(k1: string, s1: string, k2: string, s2: string, sep: string)
    requires sep != "" && Cuts(k1, sep) && Cuts(k2, sep) && k1 + sep + s1 == k2 + sep + s2
    ensures k1 == k2
  {
    FirstCut(k1, s1, sep);
    FirstCut(k2, s2, sep);
    var s := k1 + sep + s1;
    assert |k1| == |k2|;
    assert s[..|k1|] == k1 && s[..|k1|] == k2;
  }

  /** Entries of one map keep apart when their keys are extended. */
  lemma NoCollision(m: map<string, Tree>, k1: string, s1: string, k2: string, s2: string, sep: string)
    requires sep != "" && WellKeyed(Node(m), sep)
    requires Squashes(m, k1, s1, sep) && Squashes(m, k2, s2, sep)
    ensures SquashKey(k1, s1, sep) == SquashKey(k2, s2, sep) ==> k1 == k2
  {
    PlainBelow(m, k1, sep);
    PlainBelow(m, k2, sep);
    if s1 != "" {
      FirstCut(k1, s1, sep);
    }
    if s2 != "" {
      FirstCut(k2, s2, sep);
    }
    if s1 != "" && s2 != "" && SquashKey(k1, s1, sep) == SquashKey(k2, s2, sep) {
      CutTwice(k1, s1, k2, s2, sep);
    }
  }

  // ---- Meaning ----

  lemma ExtAssociates(k: string, s: string, x: string, sep: string)
    ensures SquashKey(k, Ext(s, x, sep), sep) == SquashKey(SquashKey(k, s, sep), x, sep)
  {
    if s != "" && x != "" {
      assert k + sep + (s + sep + x) == (k + sep + s) + sep + x;
    }
  }

  /** An entry may be replaced by its squashed value under the extended key. */
  lemma SquashedEntry(k: string, t: Tree, s: string, r: Tree, sep: string)
    requires Flat(t, sep) == Prefixed(s, Flat(r, sep), sep)
    ensures Under(k, t, sep) == Under(SquashKey(k, s, sep), r, sep)
  {
    hide Flat, SquashKey, Ext;
    forall y ensures y in Under(k, t, sep) <==> y in Under(SquashKey(k, s, sep), r, sep) {
      if y in Under(k, t, sep) {
        var e :| e in Flat(t, sep) && y == (SquashKey(k, e.0, sep), e.1);
        var f :| f in Flat(r, sep) && e == (Ext(s, f.0, sep), f.1);
        ExtAssociates(k, s, f.0, sep);
        assert y == (SquashKey(SquashKey(k, s, sep), f.0, sep), f.1);
      }
      if y in Under(SquashKey(k, s, sep), r, sep) {
        var f :| f in Flat(r, sep) && y == (SquashKey(SquashKey(k, s, sep), f.0, sep), f.1);
        ExtAssociates(k, s, f.0, sep);
        assert (Ext(s, f.0, sep), f.1) in Flat(t, sep);
      }
    }
  }

  /** What squashAttribute returns: a key to put in front, and the squashed value. */
  ghost predicate SquashedTo(t: Tree, key: string, r: Tree, sep: string) {
    && Flat(t, sep) == Prefixed(key, Flat(r, sep), sep)
    && Normal(r)
    && (key != "" ==> t.Node?)
    && (r.Leaf? <==> Chain(t))
  }

  lemma LeafSquashed(t: Tree, sep: string)
    requires t.Leaf?
    ensures SquashedTo(t, "", t, sep)
  {
    assert Prefixed("", Flat(t, sep), sep) == Flat(t, sep);
  }

  lemma SingleSquashed(m: map<string, Tree>, k: string, s: string, r: Tree, sep: string)
    requires m.Keys == {k} && WellKeyed(Node(m), sep) && SquashedTo(m[k], s, r, sep)
    ensures SquashedTo(Node(m), SquashKey(k, s, sep), r, sep)
  {
    FlatOne(m, k, sep);
    SquashedEntry(k, m[k], s, r, sep);
    assert Flat(Node(m), sep) == Under(SquashKey(k, s, sep), r, sep);
    assert |m| == |m.Keys| == 1;
    var key := SquashKey(k, s, sep);
    if key == "" {
      assert k == "" && s == "" && m[k].Leaf?;
      assert Flat(Node(m), sep) == {("", m[k].value)};
      assert Chain(m[k]) && r.Leaf?;
      assert Under("", r, sep) == Flat(r, sep) == Prefixed("", Flat(r, sep), sep);
    } else {
      assert Under(key, r, sep) == Prefixed(key, Flat(r, sep), sep);
    }
  }

  function Restrict(m: map<string, Tree>, ks: set<string>): map<string, Tree> {
    map k | k in m && k in ks :: m[k]
  }

  /** The entries of m visited so far, in their squashed form. */
  ghost predicate Partial(m: map<string, Tree>, done: set<string>, n: map<string, Tree>, sep: string) {
    && done <= m.Keys
    && |n| == |done|
    && Flat(Node(n), sep) == Flat(Node(Restrict(m, done)), sep)
    && (forall x :: x in n ==> Normal(n[x]))
    && (forall x :: x in n ==> ComesFrom(m, done, x, sep))
  }

  /** The key was squashed from the key of a visited entry. */
  ghost predicate ComesFrom(m: map<string, Tree>, done: set<string>, x: string, sep: string) {
    exists k, s :: k in done && Squashes(m, k, s, sep) && x == SquashKey(k, s, sep)
  }

  lemma PartialStart(m: map<string, Tree>, sep: string)
    ensures Partial(m, {}, map[], sep)
  {
    assert Restrict(m, {}).Keys == {};
  }

  lemma FreshKey(m: map<string, Tree>, done: set<string>, n: map<string, Tree>, k: string, s: string, sep: string)
    requires sep != "" && WellKeyed(Node(m), sep) && Partial(m, done, n, sep)
    requires k !in done && Squashes(m, k, s, sep)
    ensures SquashKey(k, s, sep) !in n
  {
    var x := SquashKey(k, s, sep);
    if x in n {
      var k', s' :| k' in done && Squashes(m, k', s', sep) && x == SquashKey(k', s', sep);
      NoCollision(m, k, s, k', s', sep);
    }
  }

  lemma PartialMeaning(m: map<string, Tree>, done: set<string>, n: map<string, Tree>,
                       k: string, s: string, r: Tree, sep: string)
    requires Flat(Node(n), sep) == Flat(Node(Restrict(m, done)), sep)
    requires k in m && k !in done && SquashedTo(m[k], s, r, sep) && SquashKey(k, s, sep) !in n
    ensures Flat(Node(n[SquashKey(k, s, sep) := r]), sep) == Flat(Node(Restrict(m, done + {k})), sep)
  {
    hide Flat, SquashKey;
    FlatPut(n, SquashKey(k, s, sep), r, sep);
    FlatPut(Restrict(m, done), k, m[k], sep);
    SquashedEntry(k, m[k], s, r, sep);
    assert Restrict(m, done + {k}) == Restrict(m, done)[k := m[k]];
  }

  lemma ComesFromHere(m: map<string, Tree>, done: set<string>, k: string, s: string, sep: string)
    requires Squashes(m, k, s, sep)
    ensures ComesFrom(m, done + {k}, SquashKey(k, s, sep), sep)
  {}

  lemma ComesFromStays(m: map<string, Tree>, done: set<string>, k: string, y: string, sep: string)
    requires ComesFrom(m, done, y, sep)
    ensures ComesFrom(m, done + {k}, y, sep)
  {}

  lemma PartialStep(m: map<string, Tree>, done: set<string>, n: map<string, Tree>,
                    k: string, s: string, r: Tree, sep: string)
    requires sep != "" && WellKeyed(Node(m), sep) && Partial(m, done, n, sep)
    requires k in m && k !in done && SquashedTo(m[k], s, r, sep)
    ensures Partial(m, done + {k}, n[SquashKey(k, s, sep) := r], sep)
  {
    hide Flat, SquashKey, WellKeyed, Restrict, Normal, ComesFrom, Chain, Prefixed;
    var x := SquashKey(k, s, sep);
    var n' := n[x := r];
    FreshKey(m, done, n, k, s, sep);
    PartialMeaning(m, done, n, k, s, r, sep);
    assert |n'| == |n| + 1 by {
      assert n'.Keys == n.Keys + {x};
    }
    forall y | y in n' ensures Normal(n'[y]) && ComesFrom(m, done + {k}, y, sep) {
      if y == x {
        ComesFromHere(m, done, k, s, sep);
      } else {
        ComesFromStays(m, done, k, y, sep);
      }
    }
  }

  lemma PartialEnd(m: map<string, Tree>, n: map<string, Tree>, sep: string)
    requires Partial(m, m.Keys, n, sep) && |m| != 1
    ensures SquashedTo(Node(m), "", Node(n), sep)
  {
    assert Restrict(m, m.Keys) == m;
    assert Prefixed("", Flat(Node(n), sep), sep) == Flat(Node(n), sep);
  }

  // ---- The squashed form does not depend on the order of visits ----

  /** The key and value a tree is squashed to: the visited entries are found by their keys, in no order. */
  ghost function Form(t: Tree, sep: string): (string, Tree)
    decreases t
  {
    if t.Leaf? then ("", t)
    else if |t.m| == 1 then
      var k :| k in t.m;
      (SquashKey(k, Form(t.m[k], sep).0, sep), Form(t.m[k], sep).1)
    else
      ("", Node(map x | x in FormKeys(t.m, t.m.Keys, sep) ::
                  var k :| k in t.m && FormKey(t.m, k, sep) == x; Form(t.m[k], sep).1))
  }

  ghost function FormKey(m: map<string, Tree>, k: string, sep: string): string
    requires k in m
    decreases Node(m), 0
  {
    SquashKey(k, Form(m[k], sep).0, sep)
  }

  ghost function FormKeys(m: map<string, Tree>, ks: set<string>, sep: string): set<string>
    requires ks <= m.Keys
    decreases Node(m), 1
  {
    set k | k in ks :: FormKey(m, k, sep)
  }

  /** The visited entries of m are there in their squashed form, and nothing else. */
  ghost predicate Formed(m: map<string, Tree>, done: set<string>, n: map<string, Tree>, sep: string) {
    && done <= m.Keys && n.Keys == FormKeys(m, done, sep)
    && forall k :: k in done ==> FormKey(m, k, sep) in n && n[FormKey(m, k, sep)] == Form(m[k], sep).1
  }

  lemma FormedStep(m: map<string, Tree>, done: set<string>, n: map<string, Tree>, k: string, sep: string)
    requires Formed(m, done, n, sep) && k in m && FormKey(m, k, sep) !in n
    ensures Formed(m, done + {k}, n[FormKey(m, k, sep) := Form(m[k], sep).1], sep)
  {
    hide Form, FormKey;
    assert FormKeys(m, done + {k}, sep) == FormKeys(m, done, sep) + {FormKey(m, k, sep)};
  }

  lemma FormedEnd(m: map<string, Tree>, n: map<string, Tree>, sep: string)
    requires Formed(m, m.Keys, n, sep) && |m| != 1
    ensures Form(Node(m), sep) == ("", Node(n))
  {
    var r := Form(Node(m), sep).1.m;
    assert r.Keys == n.Keys;
    forall x | x in n ensures r[x] == n[x] {
      var k :| k in m && FormKey(m, k, sep) == x && r[x] == Form(m[k], sep).1;
    }
    assert r == n;
  }

  lemma FormOne(m: map<string, Tree>, k: string, sep: string)
    requires m.Keys == {k}
    ensures Form(Node(m), sep) == (SquashKey(k, Form(m[k], sep).0, sep), Form(m[k], sep).1)
  {
    assert |m| == |m.Keys| == 1;
    assert forall j :: j in m <==> j == k;
  }

  /** What squashAttribute has to return. */
  ghost predicate Squashing(t: Tree, key: string, r: Tree, sep: string) {
    SquashedTo(t, key, r, sep) && (key, r) == Form(t, sep)
  }

  /** The loop state: the meaning and the form of the entries visited so far. */
  ghost predicate Visited(m: map<string, Tree>, done: set<string>, n: map<string, Tree>, sep: string) {
    Partial(m, done, n, sep) && Formed(m, done, n, sep)
  }

  lemma LeafDone(t: Tree, sep: string)
    requires t.Leaf?
    ensures Squashing(t, "", t, sep)
  {
    LeafSquashed(t, sep);
  }

  lemma SingleDone(m: map<string, Tree>, k: string, s: string, r: Tree, sep: string)
    requires m.Keys == {k} && WellKeyed(Node(m), sep) && Squashing(m[k], s, r, sep)
    ensures Squashing(Node(m), SquashKey(k, s, sep), r, sep)
  {
    hide SquashedTo, Form, SquashKey, WellKeyed;
    SingleSquashed(m, k, s, r, sep);
    FormOne(m, k, sep);
  }

  lemma VisitedStart(m: map<string, Tree>, sep: string)
    ensures Visited(m, {}, map[], sep)
  {
    PartialStart(m, sep);
  }

  lemma VisitedStep(m: map<string, Tree>, done: set<string>, n: map<string, Tree>,
                    k: string, s: string, r: Tree, sep: string)
    requires sep != "" && WellKeyed(Node(m), sep) && Visited(m, done, n, sep)
    requires k in m && k !in done && Squashing(m[k], s, r, sep)
    ensures Visited(m, done + {k}, n[SquashKey(k, s, sep) := r], sep)
  {
    hide Partial, Formed, Form, SquashKey, WellKeyed;
    PartialStep(m, done, n, k, s, r, sep);
    SuffixOfMap(m[k], s, r, sep);
    FreshKey(m, done, n, k, s, sep);
    FormedStep(m, done, n, k, sep);
  }

  lemma SuffixOfMap(t: Tree, s: string, r: Tree, sep: string)
    requires SquashedTo(t, s, r, sep)
    ensures s != "" ==> t.Node?
  {}

  lemma VisitedEnd(m: map<string, Tree>, n: map<string, Tree>, sep: string)
    requires Visited(m, m.Keys, n, sep) && |m| != 1
    ensures Squashing(Node(m), "", Node(n), sep)
  {
    hide Partial, Formed, Form, SquashedTo;
    PartialEnd(m, n, sep);
    FormedEnd(m, n, sep);
  }

  /** squashAttribute: the squashed value and the key it was squashed under. */
  method SquashAttribute(t: Tree, sep: string) returns (key: string, r: Tree)
    ensures sep != "" && WellKeyed(t, sep) ==> SquashedTo(t, key, r, sep) && (key, r) == Form(t, sep)
    decreases t
  {
    hide SquashedTo, Visited, Form;
    if t.Leaf? {
      LeafDone(t, sep);
      return "", t;
    }
    var m := t.m;
    if |m| == 1 {
      var k :| k in m;
      assert m.Keys == {k} by {
        OnlyKey(m, k);
      }
      var keySuffix, val := SquashAttribute(m[k], sep);
      if sep != "" && WellKeyed(t, sep) {
        SingleDone(m, k, keySuffix, val, sep);
      }
      return SquashKey(k, keySuffix, sep), val;
    }
    var newMap: map<string, Tree> := map[];
    var todo := m.Keys;
    VisitedStart(m, sep);
    assert m.Keys - todo == {};
    while todo != {}
      invariant todo <= m.Keys
      invariant sep != "" && WellKeyed(t, sep) ==> Visited(m, m.Keys - todo, newMap, sep)
      decreases |todo|
    {
      var k :| k in todo;
      var keySuffix, v := SquashAttribute(m[k], sep);
      if sep != "" && WellKeyed(t, sep) {
        VisitedStep(m, m.Keys - todo, newMap, k, keySuffix, v, sep);
      }
      if keySuffix == "" {
        newMap := newMap[k := v];
      } else {
        newMap := newMap[SquashKey(k, keySuffix, sep) := v];
      }
      assert m.Keys - (todo - {k}) == (m.Keys - todo) + {k};
      todo := todo - {k};
    }
    if sep != "" && WellKeyed(t, sep) {
      assert m.Keys - todo == m.Keys;
      VisitedEnd(m, newMap, sep);
    }
    return "", Node(newMap);
  }

  lemma OnlyKey(m: map<string, Tree>, k: string)
    requires |m| == 1 && k in m
    ensures m.Keys == {k}
  {
    assert |m.Keys - {k}| == 0;
  }

  /** The squashed attributes, if they are a map. */
  ghost function SquashForm(attributes: Attributes, sep: string): Option<Attributes> {
    var (key, t) := Form(Node(attributes), sep);
    if t.Leaf? then None else if key != "" then Some(map[key := t]) else Some(t.m)
  }

  /** squash: None when the squashed value is not a map, so that there is no map to return. */
  method Squash(attributes: Attributes, sep: string) returns (r: Option<Attributes>)
    ensures sep != "" && WellKeyed(Node(attributes), sep) ==>
      && r == SquashForm(attributes, sep)
      && (r.None? <==> Chain(Node(attributes)))
      && (r.Some? ==>
           && Flat(Node(r.value), sep) == Flat(Node(attributes), sep)
           && forall k :: k in r.value ==> Normal(r.value[k]))
  {
    hide Form;
    var key, t := SquashAttribute(Node(attributes), sep);
    if key != "" {
      if t.Leaf? {
        return None;
      }
      FlatOne(map[key := t], key, sep);
      return Some(map[key := t]);
    }
    if t.Leaf? {
      return None;
    }
    assert Prefixed("", Flat(t, sep), sep) == Flat(t, sep);
    return Some(t.m);
  }

  // ---- How many attributes make a chain ----

  lemma {:induction false} ChainMeaning(t: Tree, sep: string)
    requires Chain(t)
    ensures |Flat(t, sep)| == 1
    decreases t
  {
    if t.Node? {
      assert t.m.Keys != {};
      var k :| k in t.m;
      OnlyKey(t.m, k);
      ChainMeaning(t.m[k], sep);
      var e :| e in Flat(t.m[k], sep);
      assert Flat(t.m[k], sep) == {e} by {
        assert |Flat(t.m[k], sep) - {e}| == 0;
      }
      FlatOne(t.m, k, sep);
      assert Flat(t, sep) == {(SquashKey(k, e.0, sep), e.1)};
    }
  }

  lemma {:induction false} SomeMeaning(t: Tree, sep: string)
    requires WellKeyed(t, sep) && (t.Node? ==> t.m != map[])
    ensures Flat(t, sep) != {}
    ensures t.Leaf? ==> Flat(t, sep) == {("", t.value)}
    decreases t
  {
    if t.Node? {
      assert t.m.Keys != {};
      var k :| k in t.m;
      SomeMeaning(t.m[k], sep);
      var e :| e in Flat(t.m[k], sep);
      FlatHas(t.m, k, e.0, e.1, sep);
    }
  }

  /** Two entries of a map denote different keys. */
  lemma TwoEntries(m: map<string, Tree>, k1: string, k2: string, sep: string)
    requires sep != "" && WellKeyed(Node(m), sep) && k1 in m && k2 in m && k1 != k2
    ensures |Flat(Node(m), sep)| >= 2
  {
    SomeMeaning(m[k1], sep);
    SomeMeaning(m[k2], sep);
    var e1 :| e1 in Flat(m[k1], sep);
    var e2 :| e2 in Flat(m[k2], sep);
    FlatHas(m, k1, e1.0, e1.1, sep);
    FlatHas(m, k2, e2.0, e2.1, sep);
    NoCollision(m, k1, e1.0, k2, e2.0, sep);
    var a, b := (SquashKey(k1, e1.0, sep), e1.1), (SquashKey(k2, e2.0, sep), e2.1);
    assert {a, b} <= Flat(Node(m), sep);
    AtLeastTwo(Flat(Node(m), sep), a, b);
  }

  lemma AtLeastTwo(s: set<(string, Scalar)>, a: (string, Scalar), b: (string, Scalar))
    requires a in s && b in s && a != b
    ensures |s| >= 2
  {
    assert |s - {a}| >= 1 by {
      assert b in s - {a};
    }
  }

  lemma {:induction false} SingletonIsChain(t: Tree, sep: string)
    requires sep != "" && WellKeyed(t, sep) && |Flat(t, sep)| == 1
    ensures Chain(t)
    decreases t
  {
    if t.Node? {
      var e :| e in Flat(t, sep);
      var k, f :| k in t.m && f in Flat(t.m[k], sep) && e == (SquashKey(k, f.0, sep), f.1);
      forall j | j in t.m ensures j == k {
        if j != k {
          TwoEntries(t.m, j, k, sep);
        }
      }
      assert t.m.Keys == {k};
      assert |t.m| == |t.m.Keys| == 1;
      FlatOne(t.m, k, sep);
      SingleBelow(t.m, k, sep);
      SingletonIsChain(t.m[k], sep);
    }
  }

  lemma SquashKeyInjective(k: string, x: string, y: string, sep: string)
    requires sep != ""
    ensures SquashKey(k, x, sep) == SquashKey(k, y, sep) ==> x == y
  {
    if x != "" && y != "" && SquashKey(k, x, sep) == SquashKey(k, y, sep) {
      assert (k + sep + x)[|k| + |sep|..] == x && (k + sep + y)[|k| + |sep|..] == y;
    }
  }

  lemma SingleBelow(m: map<string, Tree>, k: string, sep: string)
    requires sep != "" && m.Keys == {k} && |Flat(Node(m), sep)| == 1
    ensures |Flat(m[k], sep)| == 1
  {
    FlatOne(m, k, sep);
    var e :| e in Flat(Node(m), sep);
    var f :| f in Flat(m[k], sep) && e == (SquashKey(k, f.0, sep), f.1);
    assert Flat(Node(m), sep) == {e} by {
      assert |Flat(Node(m), sep) - {e}| == 0;
    }
    forall g | g in Flat(m[k], sep) ensures g == f {
      FlatHas(m, k, g.0, g.1, sep);
      SquashKeyInjective(k, g.0, f.0, sep);
    }
    assert Flat(m[k], sep) == {f};
  }

  // ---- processAttributes ----

  datatype Config = Config(separator: string, allowlist: seq<string>, denylist: seq<string>, squashSingleValues: bool)

  predicate ShouldTranslateKey(c: Config, k: string) {
    && (|c.allowlist| > 0 ==> exists i :: 0 <= i < |c.allowlist| && c.allowlist[i] <= k)
    && !exists i :: 0 <= i < |c.denylist| && c.denylist[i] <= k
  }

  /** The key begins with the prefix. */
  predicate BeginsWith(k: string, prefix: string) {
    |prefix| <= |k| && k[..|prefix|] == prefix
  }

  /** A key is translated iff it begins with an entry of the allow list, if there is one, and none of the deny list. */
  lemma ShouldTranslateKeyMeaning(c: Config, k: string)
    ensures ShouldTranslateKey(c, k) <==>
      && (c.allowlist == [] || exists p :: p in c.allowlist && BeginsWith(k, p))
      && forall p :: p in c.denylist ==> !BeginsWith(k, p)
  {
    if p :| p in c.denylist && BeginsWith(k, p) {
      var i :| 0 <= i < |c.denylist| && c.denylist[i] == p;
      assert c.denylist[i] <= k;
    }
    if p :| p in c.allowlist && BeginsWith(k, p) {
      var i :| 0 <= i < |c.allowlist| && c.allowlist[i] == p;
      assert c.allowlist[i] <= k;
    }
    if i :| 0 <= i < |c.allowlist| && c.allowlist[i] <= k {
      assert c.allowlist[i] in c.allowlist && BeginsWith(k, c.allowlist[i]);
    }
    if i :| 0 <= i < |c.denylist| && c.denylist[i] <= k {
      assert c.denylist[i] in c.denylist && BeginsWith(k, c.denylist[i]);
    }
  }

  /** The attributes as keyed values. */
  function Items(attrs: map<string, Scalar>, ks: set<string>): set<(string, Scalar)>
    requires ks <= attrs.Keys
  {
    set k | k in ks :: (k, attrs[k])
  }

  /** Every attribute visited so far is denoted by the tree, and nothing else. */
  ghost predicate Nested(attrs: map<string, Scalar>, done: set<string>, m: Attributes, sep: string) {
    && done <= attrs.Keys
    && WellKeyed(Node(m), sep)
    && Flat(Node(m), sep) == Items(attrs, done)
  }

  lemma NestedStep(attrs: map<string, Scalar>, done: set<string>, m: Attributes, k: string, sep: string)
    requires sep != "" && Nested(attrs, done, m, sep) && k in attrs && k !in done
    requires NoEmptyParts(Split(k, sep))
    ensures Insert(Node(m), Split(k, sep), Leaf(attrs[k])).Node?
    ensures Nested(attrs, done + {k}, Insert(Node(m), Split(k, sep), Leaf(attrs[k])).m, sep)
  {
    var p := Split(k, sep);
    SplitThenJoin(k, sep);
    SplitIsClean(k, sep);
    assert Unused(Node(m), k, sep);
    InsertMeaning(Node(m), p, attrs[k], sep);
    InsertWellKeyed(Node(m), p, attrs[k], sep);
    assert Items(attrs, done + {k}) == Items(attrs, done) + {(k, attrs[k])};
  }

  /** Whatever the order of the attributes, the nested tree denotes exactly them. */
  lemma {:induction false} NestKeepsMeaning(attrs: map<string, Scalar>, order: seq<string>, sep: string)
    requires sep != "" && (forall i :: 0 <= i < |order| ==> order[i] in attrs)
    requires GoodKeys(attrs.Keys, sep) && Distinct(order)
    ensures
      var t := Nest(attrs, order, sep);
      t.Node? && Nested(attrs, (set k | k in order), t.m, sep)
  {
    hide Nested, Insert, Split;
    if |order| == 0 {
      NestedStart(attrs, sep);
      assert (set k | k in order) == {};
    } else {
      var n := |order| - 1;
      var init, x := order[..n], order[n];
      NestKeepsMeaning(attrs, init, sep);
      assert order == init + [x];
      NestedStep(attrs, (set k | k in init), Nest(attrs, init, sep).m, x, sep);
      assert (set k | k in order) == (set k | k in init) + {x};
    }
  }

  lemma ItemsCount(attrs: map<string, Scalar>, ks: set<string>)
    requires ks <= attrs.Keys
    ensures |Items(attrs, ks)| == |ks|
    decreases ks
  {
    if ks == {} {
      assert Items(attrs, ks) == {};
    } else {
      var k :| k in ks;
      ItemsCount(attrs, ks - {k});
      assert Items(attrs, ks) == Items(attrs, ks - {k}) + {(k, attrs[k])};
    }
  }

  /** strings.Split, with an empty separator cutting between all characters. */
  function Parts(k: string, sep: string): seq<string> {
    if sep == "" then seq(|k|, i requires 0 <= i < |k| => [k[i]]) else Split(k, sep)
  }

  /** Without a separator every character is a part. */
  lemma CharactersArePart(k: string)
    ensures |Parts(k, "")| == |k| && forall i :: 0 <= i < |k| ==> Parts(k, "")[i] == k[i..i + 1]
  {}

  function Scalars(attrs: Attributes): map<string, Scalar> {
    map k | k in attrs && attrs[k].Leaf? :: attrs[k].value
  }

  /** The condition under which nesting is meant to be used; the lists, if there are any, let all keys through. */
  ghost predicate Nestable(attrs: Attributes, c: Config) {
    && c.separator != "" && (forall k :: k in attrs ==> ShouldTranslateKey(c, k))
    && GoodKeys(attrs.Keys, c.separator)
    && forall k :: k in attrs ==> attrs[k].Leaf?
  }

  /** No key is to be translated. */
  ghost predicate AllExcluded(attrs: Attributes, c: Config) {
    forall k :: k in attrs ==> !ShouldTranslateKey(c, k)
  }

  lemma RestrictStep(attrs: Attributes, done: set<string>, k: string)
    requires k in attrs
    ensures Restrict(attrs, done + {k}) == Restrict(attrs, done)[k := attrs[k]]
  {}

  /** The order visits every attribute once. */
  ghost predicate Visits(attrs: map<string, Scalar>, order: seq<string>) {
    Distinct(order) && forall k :: k in order <==> k in attrs
  }

  /** The tree is the one built by visiting the attributes `done`, in some order. */
  ghost predicate NestedIn(attrs: map<string, Scalar>, order: seq<string>, done: set<string>, m: Attributes,
                           sep: string) {
    && sep != "" && Distinct(order) && (forall k :: k in order <==> k in done)
    && (forall i :: 0 <= i < |order| ==> order[i] in attrs)
    && Node(m) == Nest(attrs, order, sep)
  }

  lemma NestedInStep(attrs: map<string, Scalar>, order: seq<string>, done: set<string>, m: Attributes, k: string,
                     sep: string)
    requires NestedIn(attrs, order, done, m, sep) && k in attrs && k !in done
    ensures Insert(Node(m), Split(k, sep), Leaf(attrs[k])).Node? ==>
      NestedIn(attrs, order + [k], done + {k}, Insert(Node(m), Split(k, sep), Leaf(attrs[k])).m, sep)
  {
    hide Insert, Split;
    assert (order + [k])[..|order|] == order;
  }

  /** Whatever order the tree was built in, every order gives it. */
  lemma NestedInAny(attrs: map<string, Scalar>, order: seq<string>, m: Attributes, sep: string, other: seq<string>)
    requires NestedIn(attrs, order, attrs.Keys, m, sep) && GoodKeys(attrs.Keys, sep) && Visits(attrs, other)
    ensures Node(m) == Nest(attrs, other, sep)
  {
    hide Nest, GoodKeys;
    assert forall i :: 0 <= i < |other| ==> other[i] in attrs;
    NestOrderIndependent(attrs, order, other, sep);
  }

  /** The loop state when the attributes `done` have been visited, in the given order. */
  ghost predicate Underway(attrs: Attributes, c: Config, order: seq<string>, done: set<string>, m: Attributes) {
    && (Nestable(attrs, c) ==>
          Nested(Scalars(attrs), done, m, c.separator) && NestedIn(Scalars(attrs), order, done, m, c.separator))
    && (AllExcluded(attrs, c) ==> m == Restrict(attrs, done))
  }

  lemma UnderwayStart(attrs: Attributes, c: Config)
    ensures Underway(attrs, c, [], {}, map[])
  {
    hide Nested, NestedIn, Restrict, Scalars, Nestable, AllExcluded;
    NestedStart(Scalars(attrs), c.separator);
    assert Nestable(attrs, c) ==> c.separator != "" by { NestableParts(attrs, c); }
    RestrictAll(attrs);
  }

  lemma NestableParts(attrs: Attributes, c: Config)
    ensures Nestable(attrs, c) ==>
      c.separator != "" && GoodKeys(attrs.Keys, c.separator) && forall k :: k in attrs ==> attrs[k].Leaf?
  {}

  /** The new map after one attribute. */
  function NestOne(attrs: Attributes, c: Config, m: Attributes, k: string): Attributes
    requires k in attrs
  {
    var keys := Parts(k, c.separator);
    if !ShouldTranslateKey(c, k) || |keys| == 0 then m[k := attrs[k]] else Insert(Node(m), keys, attrs[k]).m
  }

  lemma UnderwayNests(attrs: Attributes, c: Config, order: seq<string>, done: set<string>, m: Attributes, k: string)
    requires Underway(attrs, c, order, done, m) && k in attrs && k !in done && Nestable(attrs, c)
    ensures Nested(Scalars(attrs), done + {k}, NestOne(attrs, c, m, k), c.separator)
    ensures NestedIn(Scalars(attrs), order + [k], done + {k}, NestOne(attrs, c, m, k), c.separator)
  {
    hide Nested, NestedIn, Restrict, Scalars, Split, AllExcluded, Insert;
    ScalarsAt(attrs, k);
    NestedStep(Scalars(attrs), done, m, k, c.separator);
    NestedInStep(Scalars(attrs), order, done, m, k, c.separator);
  }

  lemma UnderwayStep(attrs: Attributes, c: Config, order: seq<string>, done: set<string>, m: Attributes, k: string)
    requires Underway(attrs, c, order, done, m) && k in attrs && k !in done
    ensures Underway(attrs, c, order + [k], done + {k}, NestOne(attrs, c, m, k))
  {
    hide Nested, NestedIn, Restrict, Scalars, Nestable, Insert, Parts, ShouldTranslateKey;
    if Nestable(attrs, c) {
      UnderwayNests(attrs, c, order, done, m, k);
    }
    RestrictStep(attrs, done, k);
  }

  lemma UnderwayEnd(attrs: Attributes, c: Config, order: seq<string>, m: Attributes)
    requires Underway(attrs, c, order, attrs.Keys, m)
    ensures Nestable(attrs, c) ==>
      && Nested(Scalars(attrs), attrs.Keys, m, c.separator)
      && Visits(Scalars(attrs), order)
      && forall any :: Visits(Scalars(attrs), any) ==> Node(m) == Nest(Scalars(attrs), any, c.separator)
    ensures AllExcluded(attrs, c) ==> m == attrs
  {
    hide Nested, NestedIn, Restrict, Scalars, Nest, Insert, GoodKeys, AllExcluded;
    RestrictAll(attrs);
    if Nestable(attrs, c) {
      ScalarsKeys(attrs);
      NestedInVisits(Scalars(attrs), order, m, c.separator);
      forall any | Visits(Scalars(attrs), any) ensures Node(m) == Nest(Scalars(attrs), any, c.separator) {
        NestedInAny(Scalars(attrs), order, m, c.separator, any);
      }
    }
  }

  /** The loop over the attributes, visited in no particular order: every order would have given the same tree. */
  method NestAttributes(attrs: Attributes, c: Config) returns (newMap: Attributes, ghost order: seq<string>)
    ensures Nestable(attrs, c) ==>
      && Nested(Scalars(attrs), attrs.Keys, newMap, c.separator)
      && Visits(Scalars(attrs), order)
      && forall any :: Visits(Scalars(attrs), any) ==> Node(newMap) == Nest(Scalars(attrs), any, c.separator)
    ensures AllExcluded(attrs, c) ==> newMap == attrs
  {
    hide Underway, Nested, Nest, Parts, ShouldTranslateKey;
    newMap, order := map[], [];
    var todo := attrs.Keys;
    UnderwayStart(attrs, c);
    assert attrs.Keys - todo == {};
    while todo != {}
      invariant todo <= attrs.Keys
      invariant Underway(attrs, c, order, attrs.Keys - todo, newMap)
      decreases |todo|
    {
      var k :| k in todo;
      UnderwayStep(attrs, c, order, attrs.Keys - todo, newMap, k);
      var keys := Parts(k, c.separator);
      if !ShouldTranslateKey(c, k) || |keys| == 0 {
        newMap := newMap[k := attrs[k]];
      } else {
        newMap := Insert(Node(newMap), keys, attrs[k]).m;
      }
      order := order + [k];
      assert attrs.Keys - (todo - {k}) == (attrs.Keys - todo) + {k};
      todo := todo - {k};
    }
    assert attrs.Keys - todo == attrs.Keys;
    UnderwayEnd(attrs, c, order, newMap);
  }

  lemma NestedInVisits(attrs: map<string, Scalar>, order: seq<string>, m: Attributes, sep: string)
    requires NestedIn(attrs, order, attrs.Keys, m, sep)
    ensures Visits(attrs, order)
  {}

  lemma ScalarsKeys(attrs: Attributes)
    requires forall k :: k in attrs ==> attrs[k].Leaf?
    ensures Scalars(attrs).Keys == attrs.Keys
  {}

  lemma RestrictAll(attrs: Attributes)
    ensures Restrict(attrs, {}) == map[] && Restrict(attrs, attrs.Keys) == attrs
  {
    assert Restrict(attrs, {}).Keys == {};
  }

  lemma ScalarsAt(attrs: Attributes, k: string)
    requires k in attrs && attrs[k].Leaf?
    ensures k in Scalars(attrs) && attrs[k] == Leaf(Scalars(attrs)[k])
  {}

  /** What processAttributes makes of the nested map. */
  ghost function Finished(m: Attributes, c: Config): Option<Attributes> {
    if c.squashSingleValues then SquashForm(m, c.separator) else Some(m)
  }

  /**
   processAttributes: with scalar values, the nested, and the nested and squashed, attributes denote exactly the
   original ones and are the same for every order of visits; squashing fails only for a single attribute.
   */
  method ProcessAttributes(attrs: Attributes, c: Config) returns (r: Option<Attributes>)
    ensures Nestable(attrs, c) ==>
      && (r.None? <==> c.squashSingleValues && |attrs| == 1)
      && (r.Some? ==> Flat(Node(r.value), c.separator) == Items(Scalars(attrs), attrs.Keys))
      && (r.Some? && c.squashSingleValues ==> forall k :: k in r.value ==> Normal(r.value[k]))
    ensures Nestable(attrs, c) ==> forall any :: Visits(Scalars(attrs), any) ==>
      var t := Nest(Scalars(attrs), any, c.separator);
      t.Node? && r == Finished(t.m, c)
    ensures AllExcluded(attrs, c) && !c.squashSingleValues ==> r == Some(attrs)
  {
    hide Nested, Flat, WellKeyed, Normal, Chain, AllExcluded, SquashForm, Nest;
    ghost var order;
    var newMap;
    newMap, order := NestAttributes(attrs, c);
    if c.squashSingleValues {
      r := Squash(newMap, c.separator);
    } else {
      r := Some(newMap);
    }
    if Nestable(attrs, c) {
      ScalarsKeys(attrs);
      NestedMeans(Scalars(attrs), newMap, c.separator);
      ChainIffSingle(Scalars(attrs), newMap, c.separator);
      assert |attrs| == |attrs.Keys|;
      assert r == Finished(newMap, c);
    }
  }

  lemma ChainIffSingle(attrs: map<string, Scalar>, m: Attributes, sep: string)
    requires sep != "" && WellKeyed(Node(m), sep) && Flat(Node(m), sep) == Items(attrs, attrs.Keys)
    ensures Chain(Node(m)) <==> |attrs.Keys| == 1
  {
    ItemsCount(attrs, attrs.Keys);
    if |attrs.Keys| == 1 {
      SingletonIsChain(Node(m), sep);
    } else if Chain(Node(m)) {
      ChainMeaning(Node(m), sep);
    }
  }

  lemma NestedStart(attrs: map<string, Scalar>, sep: string)
    ensures Nested(attrs, {}, map[], sep)
    ensures sep != "" ==> NestedIn(attrs, [], {}, map[], sep)
  {}

  lemma NestedMeans(attrs: map<string, Scalar>, m: Attributes, sep: string)
    requires Nested(attrs, attrs.Keys, m, sep)
    ensures WellKeyed(Node(m), sep) && Flat(Node(m), sep) == Items(attrs, attrs.Keys)
  {}
}
