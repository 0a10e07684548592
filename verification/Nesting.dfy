/**
 nesting_processor.go: attributes with separated keys become nested maps, and maps with a single entry are
 squashed back into joined keys.

 A tree denotes a set of keyed values: the keys along a path are joined with the separator, and a last key ""
 stands for the value of the path itself. This is the meaning both transformations keep.
 */
module Nesting {
  import opened Base

  datatype Scalar = Str(s: string) | Int(i: int) | Bool(b: bool) | Double(d: real) | Empty

  datatype Tree = Leaf(value: Scalar) | Node(m: map<string, Tree>)

  type Attributes = map<string, Tree>

  // ---- Splitting keys ----

  /** The separator occurs in s at position i. */
  predicate Occurs(s: string, sep: string, i: nat) {
    i + |sep| <= |s| && s[i..i + |sep|] == sep
  }

  /** The first position from i on where the separator occurs, or None. */
  function IndexFrom(s: string, sep: string, i: nat): (r: Option<nat>)
    requires i <= |s|
    ensures r.Some? ==> i <= r.value && Occurs(s, sep, r.value)
    ensures forall j: nat :: i <= j < (if r.Some? then r.value else |s| + 1) ==> !Occurs(s, sep, j)
    decreases |s| - i
  {
    if Occurs(s, sep, i) then Some(i)
    else if i == |s| then None
    else IndexFrom(s, sep, i + 1)
  }

  function Split(s: string, sep: string): (parts: seq<string>)
    requires sep != ""
    ensures parts != []
  {
    match IndexFrom(s, sep, 0)
    case None => [s]
    case Some(i) => [s[..i]] + Split(s[i + |sep|..], sep)
  }

  /** squashKey: a key extended with the key below it. */
  function SquashKey(key: string, suffix: string, sep: string): string {
    if suffix == "" then key else key + sep + suffix
  }

  /** The key a path of keys stands for. */
  function PathKey(p: seq<string>, sep: string): string {
    if |p| == 0 then "" else SquashKey(p[0], PathKey(p[1..], sep), sep)
  }

  predicate NoEmptyParts(p: seq<string>) {
    forall i :: 0 <= i < |p| ==> p[i] != ""
  }

  lemma SplitAt(s: string, sep: string)
    requires sep != ""
    ensures
      match IndexFrom(s, sep, 0)
      case None => Split(s, sep) == [s]
      case Some(i) =>
        && i + |sep| <= |s| && s == s[..i] + sep + s[i + |sep|..]
        && Split(s, sep) == [s[..i]] + Split(s[i + |sep|..], sep)
  {}

  lemma {:induction false} SplitThenJoin(s: string, sep: string)
    requires sep != "" && NoEmptyParts(Split(s, sep))
    ensures PathKey(Split(s, sep), sep) == s && s != ""
    decreases |s|
  {
    hide Split, IndexFrom, Occurs;
    SplitAt(s, sep);
    var parts := Split(s, sep);
    match IndexFrom(s, sep, 0)
    case None =>
      assert parts[1..] == [] && parts[0] == s;
    case Some(i) =>
      var rest := Split(s[i + |sep|..], sep);
      assert parts[1..] == rest && parts[0] == s[..i];
      assert forall j :: 0 <= j < |rest| ==> rest[j] == parts[j + 1];
      SplitThenJoin(s[i + |sep|..], sep);
  }

  /** The separator does not occur in the key. */
  ghost predicate Plain(k: string, sep: string) {
    forall j: nat :: !Occurs(k, sep, j)
  }

  /** Followed by the separator, the key is cut off exactly where it ends. */
  ghost predicate Cuts(k: string, sep: string) {
    forall j: nat :: j < |k| ==> !Occurs(k + sep, sep, j)
  }

  lemma CutsIsPlain(k: string, sep: string)
    requires sep != "" && Cuts(k, sep)
    ensures Plain(k, sep)
  {
    forall j: nat ensures !Occurs(k, sep, j) {
      if Occurs(k, sep, j) {
        assert (k + sep)[j..j + |sep|] == k[j..j + |sep|];
        assert Occurs(k + sep, sep, j);
      }
    }
  }

  /** What splitting produces: every part is cut off where it ends, and the last contains no separator. */
  ghost predicate Clean(p: seq<string>, sep: string) {
    && (forall i :: 0 <= i < |p| - 1 ==> Cuts(p[i], sep))
    && (p != [] ==> Plain(p[|p| - 1], sep))
  }

  lemma {:induction false} SplitIsClean(s: string, sep: string)
    requires sep != ""
    ensures Clean(Split(s, sep), sep)
    decreases |s|
  {
    match IndexFrom(s, sep, 0)
    case None =>
      PlainWhole(s, sep);
    case Some(i) =>
      var rest := Split(s[i + |sep|..], sep);
      SplitIsClean(s[i + |sep|..], sep);
      var parts := Split(s, sep);
      assert forall j :: 1 <= j < |parts| ==> parts[j] == rest[j - 1];
      forall j: nat | j < i ensures !Occurs(s[..i] + sep, sep, j) {
        assert s[..i] + sep == s[..i + |sep|];
        assert s[..i + |sep|][j..j + |sep|] == s[j..j + |sep|];
        assert !Occurs(s, sep, j);
      }
  }

  lemma PlainWhole(s: string, sep: string)
    requires sep != "" && IndexFrom(s, sep, 0).None?
    ensures Plain(s, sep)
  {}

  // ---- The meaning of a tree ----

  function Flat(t: Tree, sep: string): set<(string, Scalar)> {
    match t
    case Leaf(v) => {("", v)}
    case Node(m) => set k, e | k in m && e in Flat(m[k], sep) :: (SquashKey(k, e.0, sep), e.1)
  }

  // ---- Inserting one attribute ----

  /** Maps down the rest of the path, ending in the value. */
  function Fresh(p: seq<string>, v: Tree): Tree {
    if |p| == 0 then v else Node(map[p[0] := Fresh(p[1..], v)])
  }

  /** The map a path goes through: a scalar counts as a map holding it under "". */
  function AsMap(t: Tree): map<string, Tree> {
    if t.Node? then t.m else map["" := t]
  }

  /**
   Walk down the path, turning scalars on the way into maps that hold them under "", and put the value
   at its end: merged if both are maps, under "" if a scalar meets a map.
   */
  function Insert(t: Tree, p: seq<string>, v: Tree): Tree
    decreases |p|
  {
    if |p| == 0 then
      if t.Leaf? then v
      else if v.Node? then Node(t.m + v.m)
      else Node(t.m["" := v])
    else
      var m := AsMap(t);
      Node(m[p[0] := if p[0] in m then Insert(m[p[0]], p[1..], v) else Fresh(p[1..], v)])
  }

  /** Keys without the separator over leaves, keys that cut over maps, "" only over leaves, no empty map below. */
  ghost predicate WellKeyed(t: Tree, sep: string) {
    t.Node? ==> forall k :: k in t.m ==>
      && WellKeyed(t.m[k], sep)
      && (t.m[k].Leaf? ==> Plain(k, sep))
      && (t.m[k].Node? ==> k != "" && Cuts(k, sep) && t.m[k].m != map[])
  }

  lemma PlainEmpty(sep: string)
    requires sep != ""
    ensures Plain("", sep)
  {}

  lemma {:induction false} FlatFresh(p: seq<string>, v: Scalar, sep: string)
    ensures Flat(Fresh(p, Leaf(v)), sep) == {(PathKey(p, sep), v)}
  {
    if |p| > 0 {
      FlatFresh(p[1..], v, sep);
      var m := map[p[0] := Fresh(p[1..], Leaf(v))];
      assert Fresh(p, Leaf(v)) == Node(m);
      assert Flat(m[p[0]], sep) == {(PathKey(p[1..], sep), v)};
      FlatOne(m, p[0], sep);
    }
  }

  lemma FlatOne(m: map<string, Tree>, k: string, sep: string)
    requires m.Keys == {k}
    ensures Flat(Node(m), sep) == set e | e in Flat(m[k], sep) :: (SquashKey(k, e.0, sep), e.1)
  {}

  /** The part of a map's meaning that one entry contributes. */
  function Under(k: string, t: Tree, sep: string): set<(string, Scalar)> {
    set e | e in Flat(t, sep) :: (SquashKey(k, e.0, sep), e.1)
  }

  lemma FlatPut(m: map<string, Tree>, k: string, t: Tree, sep: string)
    requires k !in m
    ensures Flat(Node(m[k := t]), sep) == Flat(Node(m), sep) + Under(k, t, sep)
  {
    var n := m[k := t];
    forall x ensures x in Flat(Node(n), sep) <==> x in Flat(Node(m), sep) + Under(k, t, sep) {
      if x in Flat(Node(n), sep) {
        var j, e :| j in n && e in Flat(n[j], sep) && x == (SquashKey(j, e.0, sep), e.1);
        if j != k {
          assert j in m && n[j] == m[j];
        }
      }
      if x in Flat(Node(m), sep) {
        var j, e :| j in m && e in Flat(m[j], sep) && x == (SquashKey(j, e.0, sep), e.1);
        assert j in n && n[j] == m[j];
      }
      if x in Under(k, t, sep) {
        assert k in n && n[k] == t;
      }
    }
  }

  lemma FlatSplit(m: map<string, Tree>, k: string, sep: string)
    requires k in m
    ensures Flat(Node(m), sep) == Flat(Node(m - {k}), sep) + Under(k, m[k], sep)
  {
    FlatPut(m - {k}, k, m[k], sep);
    assert (m - {k})[k := m[k]] == m;
  }

  lemma FlatReplace(m: map<string, Tree>, k: string, t: Tree, sep: string)
    ensures Flat(Node(m[k := t]), sep) == Flat(Node(m - {k}), sep) + Under(k, t, sep)
  {
    FlatPut(m - {k}, k, t, sep);
    assert (m - {k})[k := t] == m[k := t];
  }

  /** No value is denoted by the key. */
  ghost predicate Unused(t: Tree, key: string, sep: string) {
    forall v :: (key, v) !in Flat(t, sep)
  }

  lemma UnderGrows(k: string, t: Tree, t': Tree, x: string, v: Scalar, sep: string)
    requires Flat(t', sep) == Flat(t, sep) + {(x, v)}
    ensures Under(k, t', sep) == Under(k, t, sep) + {(SquashKey(k, x, sep), v)}
  {
    hide SquashKey, Flat;
    assert (x, v) in Flat(t', sep);
    forall y | y in Under(k, t', sep) ensures y in Under(k, t, sep) + {(SquashKey(k, x, sep), v)} {
      var e :| e in Flat(t', sep) && y == (SquashKey(k, e.0, sep), e.1);
    }
  }

  lemma FlatAsMap(t: Tree, sep: string)
    ensures Flat(Node(AsMap(t)), sep) == Flat(t, sep)
  {
    if t.Leaf? {
      FlatOne(AsMap(t), "", sep);
    }
  }

  lemma FlatHas(m: map<string, Tree>, k: string, x: string, v: Scalar, sep: string)
    requires k in m && (x, v) in Flat(m[k], sep)
    ensures (SquashKey(k, x, sep), v) in Flat(Node(m), sep)
  {}

  lemma UnusedBelow(m: map<string, Tree>, k: string, x: string, sep: string)
    requires k in m
    ensures Unused(Node(m), SquashKey(k, x, sep), sep) ==> Unused(m[k], x, sep)
  {
    if !Unused(m[k], x, sep) {
      var w :| (x, w) in Flat(m[k], sep);
      FlatHas(m, k, x, w, sep);
    }
  }

  /** A tree that denotes nothing by itself is a map without "". */
  lemma UnusedHere(t: Tree, sep: string)
    requires WellKeyed(t, sep)
    ensures Unused(t, "", sep) ==> t.Node? && "" !in t.m
  {
    if t.Leaf? {
      assert ("", t.value) in Flat(t, sep);
    } else if "" in t.m {
      assert ("", t.m[""].value) in Flat(t.m[""], sep);
      FlatHas(t.m, "", "", t.m[""].value, sep);
    }
  }

  lemma InsertHere(t: Tree, v: Scalar, sep: string)
    requires WellKeyed(t, sep) && Unused(t, "", sep)
    ensures Flat(Insert(t, [], Leaf(v)), sep) == Flat(t, sep) + {("", v)}
  {
    UnusedHere(t, sep);
    FlatPut(t.m, "", Leaf(v), sep);
    assert Under("", Leaf(v), sep) == {("", v)};
  }

  /** Inserting under an unused key adds exactly that key and value to the meaning. */
  lemma {:induction false} InsertMeaning(t: Tree, p: seq<string>, v: Scalar, sep: string)
    requires WellKeyed(t, sep) && NoEmptyParts(p) && Unused(t, PathKey(p, sep), sep)
    ensures Flat(Insert(t, p, Leaf(v)), sep) == Flat(t, sep) + {(PathKey(p, sep), v)}
    decreases |p|
  {
    hide Flat, SquashKey;
    if |p| == 0 {
      InsertHere(t, v, sep);
    } else {
      var m, k, rest := AsMap(t), p[0], p[1..];
      FlatAsMap(t, sep);
      if k in m {
        UnusedBelow(m, k, PathKey(rest, sep), sep);
        InsertMeaning(m[k], rest, v, sep);
        FlatSplit(m, k, sep);
        FlatReplace(m, k, Insert(m[k], rest, Leaf(v)), sep);
        UnderGrows(k, m[k], Insert(m[k], rest, Leaf(v)), PathKey(rest, sep), v, sep);
      } else {
        FlatFresh(rest, v, sep);
        FlatPut(m, k, Fresh(rest, Leaf(v)), sep);
        assert Under(k, Fresh(rest, Leaf(v)), sep) == {(PathKey(p, sep), v)};
      }
    }
  }

  lemma {:induction false} FreshWellKeyed(p: seq<string>, v: Scalar, sep: string)
    requires Clean(p, sep) && NoEmptyParts(p)
    ensures WellKeyed(Fresh(p, Leaf(v)), sep)
    ensures p != [] ==> Fresh(p, Leaf(v)).Node? && Fresh(p, Leaf(v)).m != map[]
  {
    if |p| > 0 {
      CleanTail(p, sep);
      FreshWellKeyed(p[1..], v, sep);
    }
  }

  lemma CleanTail(p: seq<string>, sep: string)
    requires Clean(p, sep) && p != []
    ensures Clean(p[1..], sep) && (|p| == 1 ==> Plain(p[0], sep)) && (|p| > 1 ==> Cuts(p[0], sep))
  {
    forall i | 0 <= i < |p[1..]| - 1 ensures Cuts(p[1..][i], sep) {
      assert p[1..][i] == p[i + 1];
    }
  }

  lemma {:induction false} InsertWellKeyed(t: Tree, p: seq<string>, v: Scalar, sep: string)
    requires sep != "" && WellKeyed(t, sep) && Clean(p, sep) && NoEmptyParts(p)
    ensures
      var r := Insert(t, p, Leaf(v));
      WellKeyed(r, sep) && (p != [] || t.Node? <==> r.Node?) && (r.Node? ==> r.m != map[])
    decreases |p|
  {
    PlainEmpty(sep);
    if |p| > 0 {
      var m := AsMap(t);
      CleanTail(p, sep);
      assert WellKeyed(Node(m), sep);
      if p[0] in m {
        InsertWellKeyed(m[p[0]], p[1..], v, sep);
      } else {
        FreshWellKeyed(p[1..], v, sep);
      }
    }
  }

  // ---- Where the value ends up, whatever it is ----

  /** The tree at the end of a path; a scalar is also found under "" below it. */
  function Follow(t: Tree, p: seq<string>): Option<Tree>
    decreases |p|
  {
    if |p| == 0 then Some(t)
    else if p[0] in AsMap(t) then Follow(AsMap(t)[p[0]], p[1..])
    else None
  }

  /** What is at the end of the path when a value meets what was there. */
  ghost predicate Meets(there: Option<Tree>, v: Tree, r: Tree) {
    match there
    case None => r == v
    case Some(Leaf(_)) => r == v
    case Some(Node(m)) =>
      && r.Node?
      && if v.Leaf? then r.m == m["" := v]
         else forall k :: (k in r.m <==> k in m || k in v.m)
                       && (k in r.m ==> r.m[k] == if k in v.m then v.m[k] else m[k])
  }

  lemma {:induction false} FreshEnds(p: seq<string>, v: Tree)
    ensures Follow(Fresh(p, v), p) == Some(v)
  {
    if |p| > 0 {
      FreshEnds(p[1..], v);
    }
  }

  /** The value is at the end of its path, merged with a map that was there, or under "" if it is a scalar. */
  lemma {:induction false} InsertEnds(t: Tree, p: seq<string>, v: Tree)
    ensures var r := Follow(Insert(t, p, v), p); r.Some? && Meets(Follow(t, p), v, r.value)
    decreases |p|
  {
    if |p| > 0 {
      var m := AsMap(t);
      if p[0] in m {
        InsertEnds(m[p[0]], p[1..], v);
      } else {
        FreshEnds(p[1..], v);
      }
    }
  }

  /** The paths part before either ends. */
  predicate Part(p: seq<string>, q: seq<string>)
    decreases |p|
  {
    |p| > 0 && |q| > 0 && (p[0] != q[0] || Part(p[1..], q[1..]))
  }

  lemma {:induction false} FreshElsewhere(p: seq<string>, v: Tree, q: seq<string>)
    requires Part(p, q)
    ensures Follow(Fresh(p, v), q) == None
    decreases |p|
  {
    if p[0] == q[0] {
      FreshElsewhere(p[1..], v, q[1..]);
    }
  }

  /** Nothing changes on paths that part from it. */
  lemma {:induction false} InsertElsewhere(t: Tree, p: seq<string>, v: Tree, q: seq<string>)
    requires Part(p, q)
    ensures Follow(Insert(t, p, v), q) == Follow(t, q)
    decreases |p|
  {
    var m := AsMap(t);
    if p[0] == q[0] {
      if p[0] in m {
        InsertElsewhere(m[p[0]], p[1..], v, q[1..]);
      } else {
        FreshElsewhere(p[1..], v, q[1..]);
      }
    }
  }

  // ---- Order independence ----

  lemma {:induction false} FreshCommutes(p: seq<string>, v: Scalar, q: seq<string>, w: Scalar)
    requires NoEmptyParts(p) && NoEmptyParts(q) && p != q
    ensures Insert(Fresh(p, Leaf(v)), q, Leaf(w)) == Insert(Fresh(q, Leaf(w)), p, Leaf(v))
    decreases |p|
  {
    if |p| > 0 && |q| > 0 {
      if p[0] == q[0] {
        assert p == [p[0]] + p[1..] && q == [q[0]] + q[1..];
        FreshCommutes(p[1..], v, q[1..], w);
      }
      var a, b := Insert(Fresh(p, Leaf(v)), q, Leaf(w)), Insert(Fresh(q, Leaf(w)), p, Leaf(v));
      assert a.m == b.m;
    } else if |p| == 0 {
      var a, b := Insert(Leaf(v), q, Leaf(w)), Insert(Fresh(q, Leaf(w)), [], Leaf(v));
      assert a.m == b.m;
    } else {
      var a, b := Insert(Fresh(p, Leaf(v)), [], Leaf(w)), Insert(Leaf(w), p, Leaf(v));
      assert a.m == b.m;
    }
  }

  /** The value at the end of a path against one further down. */
  lemma InsertHereCommutes(t: Tree, v: Scalar, q: seq<string>, w: Scalar)
    requires NoEmptyParts(q) && q != []
    ensures Insert(Insert(t, [], Leaf(v)), q, Leaf(w)) == Insert(Insert(t, q, Leaf(w)), [], Leaf(v))
  {
    var a, b := Insert(Insert(t, [], Leaf(v)), q, Leaf(w)), Insert(Insert(t, q, Leaf(w)), [], Leaf(v));
    assert a.m == b.m;
  }

  /** Paths that part at the first key. */
  lemma InsertApart(t: Tree, p: seq<string>, v: Scalar, q: seq<string>, w: Scalar)
    requires p != [] && q != [] && p[0] != q[0]
    ensures Insert(Insert(t, p, Leaf(v)), q, Leaf(w)) == Insert(Insert(t, q, Leaf(w)), p, Leaf(v))
  {
    var a, b := Insert(Insert(t, p, Leaf(v)), q, Leaf(w)), Insert(Insert(t, q, Leaf(w)), p, Leaf(v));
    assert a.m == b.m;
  }

  /** Two attributes can be inserted in either order: the tree is the same. */
  lemma {:induction false} InsertCommutes(t: Tree, p: seq<string>, v: Scalar, q: seq<string>, w: Scalar)
    requires NoEmptyParts(p) && NoEmptyParts(q) && p != q
    ensures Insert(Insert(t, p, Leaf(v)), q, Leaf(w)) == Insert(Insert(t, q, Leaf(w)), p, Leaf(v))
    decreases |p|
  {
    if p == [] {
      InsertHereCommutes(t, v, q, w);
    } else if q == [] {
      InsertHereCommutes(t, w, p, v);
    } else if p[0] != q[0] {
      InsertApart(t, p, v, q, w);
    } else {
      var m, k := AsMap(t), p[0];
      assert p == [k] + p[1..] && q == [k] + q[1..];
      if k in m {
        InsertCommutes(m[k], p[1..], v, q[1..], w);
      } else {
        FreshCommutes(p[1..], v, q[1..], w);
      }
      var x, y := Insert(t, p, Leaf(v)), Insert(t, q, Leaf(w));
      assert x.m[k := Insert(x.m[k], q[1..], Leaf(w))] == y.m[k := Insert(y.m[k], p[1..], Leaf(v))];
    }
  }

  /** The tree built from the attributes, visited in the given order. */
  function Nest(attrs: map<string, Scalar>, order: seq<string>, sep: string): Tree
    requires sep != "" && forall i :: 0 <= i < |order| ==> order[i] in attrs
  {
    if |order| == 0 then Node(map[])
    else
      var n := |order| - 1;
      Insert(Nest(attrs, order[..n], sep), Split(order[n], sep), Leaf(attrs[order[n]]))
  }

  /** Keys the nesting is meant for: no part of them is empty. */
  predicate GoodKeys(attrs: set<string>, sep: string)
    requires sep != ""
  {
    forall k :: k in attrs ==> NoEmptyParts(Split(k, sep))
  }

  lemma SplitInjective(a: string, b: string, sep: string)
    requires sep != "" && NoEmptyParts(Split(a, sep)) && NoEmptyParts(Split(b, sep)) && a != b
    ensures Split(a, sep) != Split(b, sep)
  {
    SplitThenJoin(a, sep);
    SplitThenJoin(b, sep);
  }

  predicate Distinct(order: seq<string>) {
    forall i, j :: 0 <= i < j < |order| ==> order[i] != order[j]
  }

  /** Any attribute could have been the last. */
  lemma {:induction false} NestLast(attrs: map<string, Scalar>, order: seq<string>, i: nat, sep: string)
    requires sep != "" && (forall j :: 0 <= j < |order| ==> order[j] in attrs)
    requires GoodKeys(attrs.Keys, sep) && Distinct(order) && i < |order|
    ensures Nest(attrs, order, sep)
         == Insert(Nest(attrs, order[..i] + order[i + 1..], sep), Split(order[i], sep), Leaf(attrs[order[i]]))
  {
    hide Insert, Split;
    var n := |order| - 1;
    var rest := order[..i] + order[i + 1..];
    if i == n {
      assert rest == order[..n];
    } else {
      var init, x, y := order[..n], order[i], order[n];
      var short := init[..i] + init[i + 1..];
      NestLast(attrs, init, i, sep);
      assert rest[..|rest| - 1] == short && rest[|rest| - 1] == y;
      SplitInjective(x, y, sep);
      InsertCommutes(Nest(attrs, short, sep), Split(x, sep), attrs[x], Split(y, sep), attrs[y]);
    }
  }

  /** The nested tree does not depend on the order in which the attributes are visited. */
  lemma {:induction false} NestOrderIndependent(attrs: map<string, Scalar>, a: seq<string>, b: seq<string>, sep: string)
    requires sep != "" && (forall i :: 0 <= i < |a| ==> a[i] in attrs) && (forall i :: 0 <= i < |b| ==> b[i] in attrs)
    requires GoodKeys(attrs.Keys, sep) && Distinct(a) && Distinct(b)
    requires forall k :: k in a <==> k in b
    ensures Nest(attrs, a, sep) == Nest(attrs, b, sep)
    decreases |a|
  {
    hide Insert, Split;
    if |a| == 0 {
      HasMember(b);
    } else {
      var n := |a| - 1;
      assert a[n] in b;
      var i :| 0 <= i < |b| && b[i] == a[n];
      var rest := b[..i] + b[i + 1..];
      assert forall k :: k in a[..n] <==> k in rest by {
        WithoutOne(a, n);
        WithoutOne(b, i);
        assert a[..n] + a[n + 1..] == a[..n];
      }
      NestOrderIndependent(attrs, a[..n], rest, sep);
      NestLast(attrs, b, i, sep);
    }
  }

  lemma HasMember(s: seq<string>)
    ensures s == [] || exists k :: k in s
  {
    if s != [] {
      assert s[0] in s;
    }
  }

  lemma WithoutOne(s: seq<string>, i: nat)
    requires Distinct(s) && i < |s|
    ensures
      var rest := s[..i] + s[i + 1..];
      Distinct(rest) && forall k :: k in rest <==> k in s && k != s[i]
  {
    var rest := s[..i] + s[i + 1..];
    forall k ensures k in rest <==> k in s && k != s[i] {
      if k in s && k != s[i] {
        var j :| 0 <= j < |s| && s[j] == k;
        assert rest[if j < i then j else j - 1] == k;
      }
    }
  }
}
