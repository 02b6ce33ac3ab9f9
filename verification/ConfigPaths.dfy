/** Configuration paths: a depth-first search over the graph of registered types, cut at types
    already on the current path, that records the label path of every type it enters.

    The graph may be cyclic.  The specification names a walk by the positions of the edges it
    takes, so that two walks with the same labels stay apart. */
module ConfigPaths {

  datatype TypeId = TypeId(name: string)

  datatype Attribute =
    | Pointer(name: string, pointee: TypeId)
    | Container(name: string, item: TypeId)
    | Plain(name: string)

  datatype Edge = Edge(name: string, target: TypeId)

  /** The type registry and the recorded aggregations; `childOf` holds (child, ancestor) pairs. */
  datatype Graph = Graph(
    registered: seq<TypeId>, attributes: map<TypeId, seq<Attribute>>,
    childOf: set<(TypeId, TypeId)>, objectType: TypeId, aggregates: seq<(TypeId, TypeId)>)
  {
    function AttributesOf(tid: TypeId): seq<Attribute> {
      if tid in attributes then attributes[tid] else []
    }

    function AttributeEdge(a: Attribute): seq<Edge> {
      match a
      case Pointer(name, pointee) => if pointee == objectType then [] else [Edge(name, pointee)]
      case Container(name, item) => [Edge(name + "/[i]", item)]
      case Plain(_) => []
    }

    function AttributeEdges(attrs: seq<Attribute>): seq<Edge> {
      if attrs == [] then [] else AttributeEdges(attrs[..|attrs| - 1]) + AttributeEdge(attrs[|attrs| - 1])
    }

    function ChildEdges(tid: TypeId, tids: seq<TypeId>): seq<Edge> {
      if tids == [] then []
      else
        var child := tids[|tids| - 1];
        ChildEdges(tid, tids[..|tids| - 1])
        + if (child, tid) in childOf then [Edge("$" + child.name, child)] else []
    }

    function Other(tid: TypeId, p: (TypeId, TypeId)): TypeId {
      if p.1 == tid then p.0 else p.1
    }

    function AggregateEdges(tid: TypeId, pairs: seq<(TypeId, TypeId)>): seq<Edge> {
      if pairs == [] then []
      else
        var p := pairs[|pairs| - 1];
        var other := Other(tid, p);
        AggregateEdges(tid, pairs[..|pairs| - 1])
        + if p.0 == tid || p.1 == tid then [Edge("$" + other.name, other)] else []
    }

    /** The edges out of a type, in the order in which the search follows them. */
    function Succ(tid: TypeId): seq<Edge> {
      AttributeEdges(AttributesOf(tid)) + ChildEdges(tid, registered) + AggregateEdges(tid, aggregates)
    }

    ghost function Types(): set<TypeId> {
      set t | t in registered
    }

    /** Type ids exist only by registration. */
    ghost predicate Closed() {
      forall tid, k :: tid in Types() && 0 <= k < |Succ(tid)| ==> Succ(tid)[k].target in Types()
    }
  }

  // ---------------------------------------------------------------- Walks

  type Walk = seq<nat>

  ghost predicate IsWalk(g: Graph, tid: TypeId, w: Walk)
    decreases |w|
  {
    w != [] ==> w[0] < |g.Succ(tid)| && IsWalk(g, g.Succ(tid)[w[0]].target, w[1..])
  }

  ghost function End(g: Graph, tid: TypeId, w: Walk): TypeId
    decreases |w|
  {
    if w == [] || w[0] >= |g.Succ(tid)| then tid else End(g, g.Succ(tid)[w[0]].target, w[1..])
  }

  ghost function Labels(g: Graph, tid: TypeId, w: Walk): seq<string>
    decreases |w|
  {
    if w == [] || w[0] >= |g.Succ(tid)| then []
    else var e := g.Succ(tid)[w[0]]; [e.name] + Labels(g, e.target, w[1..])
  }

  /** A walk that enters no type of `stack` and no type twice. */
  ghost predicate Simple(g: Graph, tid: TypeId, stack: set<TypeId>, w: Walk) {
    && IsWalk(g, tid, w)
    && (forall i :: 0 <= i <= |w| ==> End(g, tid, w[..i]) !in stack)
    && (forall i, j :: 0 <= i < j <= |w| ==> End(g, tid, w[..i]) != End(g, tid, w[..j]))
  }

  /** Strict lexicographic order: a walk comes before its extensions and before later branches. */
  ghost predicate Before(a: Walk, b: Walk) {
    b != [] && (a == [] || a[0] < b[0] || (a[0] == b[0] && Before(a[1..], b[1..])))
  }

  // ---------------------------------------------------------------- What the search records

  ghost function Prepend(k: nat, ws: seq<Walk>): seq<Walk> {
    seq(|ws|, i requires 0 <= i < |ws| => [k] + ws[i])
  }

  ghost function Walks(g: Graph, tid: TypeId, stack: set<TypeId>): seq<Walk>
    requires g.Closed() && tid in g.Types()
    decreases g.Types() - stack, 0
  {
    if tid in stack then [] else
    [[]] + WalksVia(g, tid, stack, |g.Succ(tid)|)
  }

  /** The walks that start with one of the first n edges. */
  ghost function WalksVia(g: Graph, tid: TypeId, stack: set<TypeId>, n: nat): seq<Walk>
    requires g.Closed() && tid in g.Types() && tid !in stack && n <= |g.Succ(tid)|
    decreases g.Types() - (stack + {tid}), n + 1
  {
    if n == 0 then [] else
    WalksVia(g, tid, stack, n - 1) + Prepend(n - 1, Walks(g, g.Succ(tid)[n - 1].target, stack + {tid}))
  }

  function PathString(path: seq<string>): string {
    if path == [] then "" else PathString(path[..|path| - 1]) + "/" + path[|path| - 1]
  }

  type Record = (TypeId, string)

  ghost function RecordOf(g: Graph, tid: TypeId, path: seq<string>, w: Walk): Record {
    (End(g, tid, w), PathString(path + Labels(g, tid, w)))
  }

  ghost function Records(g: Graph, tid: TypeId, path: seq<string>, ws: seq<Walk>): seq<Record> {
    seq(|ws|, i requires 0 <= i < |ws| => RecordOf(g, tid, path, ws[i]))
  }

  lemma RecordsConcat(g: Graph, tid: TypeId, path: seq<string>, a: seq<Walk>, b: seq<Walk>)
    ensures Records(g, tid, path, a + b) == Records(g, tid, path, a) + Records(g, tid, path, b)
  {
  }

  lemma RecordsPrepend(g: Graph, tid: TypeId, path: seq<string>, k: nat, ws: seq<Walk>)
    requires k < |g.Succ(tid)|
    ensures var e := g.Succ(tid)[k];
      Records(g, tid, path, Prepend(k, ws)) == Records(g, e.target, path + [e.name], ws)
  {
    var e := g.Succ(tid)[k];
    forall i | 0 <= i < |ws|
      ensures RecordOf(g, tid, path, [k] + ws[i]) == RecordOf(g, e.target, path + [e.name], ws[i])
    {
      var w := [k] + ws[i];
      assert w[1..] == ws[i];
      assert path + ([e.name] + Labels(g, e.target, ws[i])) == path + [e.name] + Labels(g, e.target, ws[i]);
    }
  }

  // ---------------------------------------------------------------- The walks are the simple walks

  lemma SimpleStep(g: Graph, tid: TypeId, stack: set<TypeId>, w: Walk)
    requires w != [] && w[0] < |g.Succ(tid)|
    ensures Simple(g, tid, stack, w) <==>
            tid !in stack && Simple(g, g.Succ(tid)[w[0]].target, stack + {tid}, w[1..])
  {
    var next := g.Succ(tid)[w[0]].target;
    forall i | 0 <= i < |w| ensures End(g, tid, w[..i + 1]) == End(g, next, w[1..][..i]) {
      assert w[..i + 1][1..] == w[1..][..i];
    }
    assert End(g, tid, w[..0]) == tid;
    if Simple(g, tid, stack, w) {
      assert forall i :: 0 <= i <= |w[1..]| ==> End(g, next, w[1..][..i]) == End(g, tid, w[..i + 1]);
    }
    if tid !in stack && Simple(g, next, stack + {tid}, w[1..]) {
      forall i, j | 0 <= i < j <= |w| ensures End(g, tid, w[..i]) != End(g, tid, w[..j]) {
        assert End(g, tid, w[..j]) == End(g, next, w[1..][..j - 1]);
        if i > 0 { assert End(g, tid, w[..i]) == End(g, next, w[1..][..i - 1]); }
      }
      forall i | 0 <= i <= |w| ensures End(g, tid, w[..i]) !in stack {
        if i > 0 { assert End(g, tid, w[..i]) == End(g, next, w[1..][..i - 1]); }
      }
    }
  }

  lemma {:induction false} WalksAreSimple(g: Graph, tid: TypeId, stack: set<TypeId>, w: Walk)
    requires g.Closed() && tid in g.Types()
    ensures w in Walks(g, tid, stack) <==> Simple(g, tid, stack, w)
    decreases |w|
  {
    if tid in stack {
      assert End(g, tid, w[..0]) == tid;
    } else if w == [] {
      assert Walks(g, tid, stack)[0] == [];
      assert w[..0] == w;
    } else {
      assert Walks(g, tid, stack) == [[]] + WalksVia(g, tid, stack, |g.Succ(tid)|);
      ViaMember(g, tid, stack, |g.Succ(tid)|, w);
      if w[0] < |g.Succ(tid)| {
        SimpleStep(g, tid, stack, w);
        WalksAreSimple(g, g.Succ(tid)[w[0]].target, stack + {tid}, w[1..]);
      }
    }
  }

  lemma {:induction false} ViaMember(g: Graph, tid: TypeId, stack: set<TypeId>, n: nat, w: Walk)
    requires g.Closed() && tid in g.Types() && tid !in stack && n <= |g.Succ(tid)|
    ensures w in WalksVia(g, tid, stack, n) <==>
            w != [] && w[0] < n && w[1..] in Walks(g, g.Succ(tid)[w[0]].target, stack + {tid})
    decreases n
  {
    if n > 0 {
      ViaMember(g, tid, stack, n - 1, w);
      PrependMember(n - 1, Walks(g, g.Succ(tid)[n - 1].target, stack + {tid}), w);
    }
  }

  lemma PrependMember(k: nat, ws: seq<Walk>, w: Walk)
    ensures w in Prepend(k, ws) <==> w != [] && w[0] == k && w[1..] in ws
  {
    if w != [] && w[0] == k && w[1..] in ws {
      var i :| 0 <= i < |ws| && ws[i] == w[1..];
      assert Prepend(k, ws)[i] == w;
    }
  }

  /** No walk is listed twice, and the list is the preorder of the search. */
  ghost predicate Increasing(ws: seq<Walk>) {
    forall i, j :: 0 <= i < j < |ws| ==> Before(ws[i], ws[j])
  }

  lemma ConcatIncreasing(a: seq<Walk>, b: seq<Walk>)
    requires Increasing(a) && Increasing(b)
    requires forall v, w :: v in a && w in b ==> Before(v, w)
    ensures Increasing(a + b)
  {
  }

  lemma PrependIncreasing(k: nat, ws: seq<Walk>)
    requires Increasing(ws)
    ensures Increasing(Prepend(k, ws))
  {
  }

  lemma {:induction false} WalksIncreasing(g: Graph, tid: TypeId, stack: set<TypeId>)
    requires g.Closed() && tid in g.Types()
    ensures Increasing(Walks(g, tid, stack))
    decreases g.Types() - stack, 0
  {
    if tid !in stack {
      ViaIncreasing(g, tid, stack, |g.Succ(tid)|);
      var via := WalksVia(g, tid, stack, |g.Succ(tid)|);
      forall v, w: Walk | v in [[]] && w in via ensures Before(v, w) {
        ViaMember(g, tid, stack, |g.Succ(tid)|, w);
      }
      ConcatIncreasing([[]], via);
    }
  }

  lemma {:induction false} ViaIncreasing(g: Graph, tid: TypeId, stack: set<TypeId>, n: nat)
    requires g.Closed() && tid in g.Types() && tid !in stack && n <= |g.Succ(tid)|
    ensures Increasing(WalksVia(g, tid, stack, n))
    decreases g.Types() - (stack + {tid}), n + 1
  {
    if n > 0 {
      var target := g.Succ(tid)[n - 1].target;
      var via, ws := WalksVia(g, tid, stack, n - 1), Walks(g, target, stack + {tid});
      ViaIncreasing(g, tid, stack, n - 1);
      WalksIncreasing(g, target, stack + {tid});
      PrependIncreasing(n - 1, ws);
      forall v, w | v in via && w in Prepend(n - 1, ws) ensures Before(v, w) {
        ViaMember(g, tid, stack, n - 1, v);
        PrependMember(n - 1, ws, w);
      }
      ConcatIncreasing(via, Prepend(n - 1, ws));
    }
  }

  // ---------------------------------------------------------------- Reachable types

  lemma {:induction false} WalkConcat(g: Graph, tid: TypeId, a: Walk, b: Walk)
    requires IsWalk(g, tid, a)
    ensures End(g, tid, a + b) == End(g, End(g, tid, a), b)
    ensures IsWalk(g, tid, a + b) <==> IsWalk(g, End(g, tid, a), b)
    decreases |a|
  {
    if a == [] {
      assert a + b == b;
    } else {
      assert (a + b)[1..] == a[1..] + b;
      WalkConcat(g, g.Succ(tid)[a[0]].target, a[1..], b);
    }
  }

  lemma {:induction false} WalkPrefix(g: Graph, tid: TypeId, w: Walk, i: nat)
    requires IsWalk(g, tid, w) && i <= |w|
    ensures IsWalk(g, tid, w[..i])
    decreases i
  {
    if i > 0 {
      assert w[..i][1..] == w[1..][..i - 1];
      WalkPrefix(g, g.Succ(tid)[w[0]].target, w[1..], i - 1);
    }
  }

  /** A walk that repeats a type can be cut short; what is left repeats none. */
  lemma {:induction false} Shorten(g: Graph, tid: TypeId, w: Walk) returns (v: Walk)
    requires IsWalk(g, tid, w)
    ensures Simple(g, tid, {}, v) && End(g, tid, v) == End(g, tid, w)
    decreases |w|
  {
    if i, j :| 0 <= i < j <= |w| && End(g, tid, w[..i]) == End(g, tid, w[..j]) {
      WalkPrefix(g, tid, w, i);
      WalkPrefix(g, tid, w, j);
      assert w[..j] + w[j..] == w;
      WalkConcat(g, tid, w[..j], w[j..]);
      WalkConcat(g, tid, w[..i], w[j..]);
      v := Shorten(g, tid, w[..i] + w[j..]);
    } else {
      v := w;
    }
  }

  ghost predicate Reachable(g: Graph, root: TypeId, t: TypeId) {
    exists w :: IsWalk(g, root, w) && End(g, root, w) == t
  }

  /** The paths recorded for type t, in the order of the records. */
  function PathsOf(output: seq<Record>, t: TypeId): seq<string> {
    if output == [] then []
    else PathsOf(output[..|output| - 1], t)
         + if output[|output| - 1].0 == t then [output[|output| - 1].1] else []
  }

  lemma {:induction false} PathsOfMember(output: seq<Record>, t: TypeId, p: string)
    ensures p in PathsOf(output, t) <==> (t, p) in output
  {
    if output != [] {
      var init := output[..|output| - 1];
      assert output == init + [output[|output| - 1]];
      PathsOfMember(init, t, p);
    }
  }

  lemma {:induction false} PathsOfConcat(a: seq<Record>, b: seq<Record>, t: TypeId)
    ensures PathsOf(a + b, t) == PathsOf(a, t) + PathsOf(b, t)
  {
    if b == [] {
      assert a + b == a;
    } else {
      assert (a + b)[..|a + b| - 1] == a + b[..|b| - 1];
      PathsOfConcat(a, b[..|b| - 1], t);
    }
  }

  /** What a search from `root` records. */
  ghost function Gathered(g: Graph, root: TypeId): seq<Record>
    requires g.Closed() && root in g.Types()
  {
    Records(g, root, [], Walks(g, root, {}))
  }

  /** The search from `root` makes record (t, p) exactly when p is the label path of a simple walk
      from the root to t. */
  lemma GatheredRecords(g: Graph, root: TypeId, r: Record)
    requires g.Closed() && root in g.Types()
    ensures r in Gathered(g, root) <==>
            exists w :: Simple(g, root, {}, w) && RecordOf(g, root, [], w) == r
  {
    hide Walks, WalksVia, Simple, RecordOf;
    var ws := Walks(g, root, {});
    var rs := Records(g, root, [], ws);
    if r in rs {
      var i :| 0 <= i < |rs| && rs[i] == r;
      WalksAreSimple(g, root, {}, ws[i]);
    }
    if w :| Simple(g, root, {}, w) && RecordOf(g, root, [], w) == r {
      WalksAreSimple(g, root, {}, w);
      var i :| 0 <= i < |ws| && ws[i] == w;
      assert rs[i] == r;
    }
  }

  /** What `Get(t)` returns after a search from `root`: exactly the label paths of the simple
      walks from the root to t. */
  lemma GatheredPaths(g: Graph, root: TypeId, t: TypeId, p: string)
    requires g.Closed() && root in g.Types()
    ensures p in PathsOf(Gathered(g, root), t) <==>
            exists w :: Simple(g, root, {}, w) && End(g, root, w) == t && PathString(Labels(g, root, w)) == p
  {
    PathsOfMember(Gathered(g, root), t, p);
    GatheredRecords(g, root, (t, p));
    forall w ensures RecordOf(g, root, [], w) == (End(g, root, w), PathString(Labels(g, root, w))) {
      assert [] + Labels(g, root, w) == Labels(g, root, w);
    }
  }

  /** Cutting the search at repeated types loses no type: a type gets a path from the root
      exactly when it can be reached from it at all. */
  lemma EveryReachableTypeHasAPath(g: Graph, root: TypeId, t: TypeId)
    requires g.Closed() && root in g.Types()
    ensures PathsOf(Gathered(g, root), t) != [] <==> Reachable(g, root, t)
  {
    var paths := PathsOf(Gathered(g, root), t);
    if paths != [] {
      GatheredPaths(g, root, t, paths[0]);
      assert paths[0] in paths;
    }
    if Reachable(g, root, t) {
      var w :| IsWalk(g, root, w) && End(g, root, w) == t;
      var v := Shorten(g, root, w);
      GatheredPaths(g, root, t, PathString(Labels(g, root, v)));
    }
  }

  // ---------------------------------------------------------------- The search itself

  lemma {:induction false} AttributePrefix(g: Graph, attrs: seq<Attribute>, i: nat)
    requires i <= |attrs|
    ensures g.AttributeEdges(attrs[..i]) <= g.AttributeEdges(attrs)
    decreases |attrs| - i
  {
    if i < |attrs| {
      assert attrs[..i + 1][..i] == attrs[..i];
      AttributePrefix(g, attrs, i + 1);
    } else {
      assert attrs[..i] == attrs;
    }
  }

  lemma {:induction false} ChildPrefix(g: Graph, tid: TypeId, tids: seq<TypeId>, i: nat)
    requires i <= |tids|
    ensures g.ChildEdges(tid, tids[..i]) <= g.ChildEdges(tid, tids)
    decreases |tids| - i
  {
    if i < |tids| {
      assert tids[..i + 1][..i] == tids[..i];
      ChildPrefix(g, tid, tids, i + 1);
    } else {
      assert tids[..i] == tids;
    }
  }

  lemma {:induction false} AggregatePrefix(g: Graph, tid: TypeId, pairs: seq<(TypeId, TypeId)>, i: nat)
    requires i <= |pairs|
    ensures g.AggregateEdges(tid, pairs[..i]) <= g.AggregateEdges(tid, pairs)
    decreases |pairs| - i
  {
    if i < |pairs| {
      assert pairs[..i + 1][..i] == pairs[..i];
      AggregatePrefix(g, tid, pairs, i + 1);
    } else {
      assert pairs[..i] == pairs;
    }
  }

  /** Edge n of tid, and the walks over one edge more. */
  ghost predicate IsEdge(g: Graph, tid: TypeId, n: nat, es: seq<Edge>) {
    n + |es| <= |g.Succ(tid)| && g.Succ(tid)[n..n + |es|] == es
  }

  lemma AttributeStep(g: Graph, tid: TypeId, attrs: seq<Attribute>, i: nat)
    requires attrs == g.AttributesOf(tid) && i < |attrs|
    ensures g.AttributeEdges(attrs[..i + 1]) == g.AttributeEdges(attrs[..i]) + g.AttributeEdge(attrs[i])
    ensures IsEdge(g, tid, |g.AttributeEdges(attrs[..i])|, g.AttributeEdge(attrs[i]))
  {
    AttributePrefix(g, attrs, i + 1);
    assert attrs[..i + 1][..i] == attrs[..i];
  }

  lemma ChildStep(g: Graph, tid: TypeId, j: nat)
    requires j < |g.registered|
    ensures var child := g.registered[j];
      var es := if (child, tid) in g.childOf then [Edge("$" + child.name, child)] else [];
      && g.ChildEdges(tid, g.registered[..j + 1]) == g.ChildEdges(tid, g.registered[..j]) + es
      && IsEdge(g, tid, |g.AttributeEdges(g.AttributesOf(tid))| + |g.ChildEdges(tid, g.registered[..j])|, es)
  {
    ChildPrefix(g, tid, g.registered, j + 1);
    assert g.registered[..j + 1][..j] == g.registered[..j];
  }

  lemma AggregateStep(g: Graph, tid: TypeId, k: nat)
    requires k < |g.aggregates|
    ensures var p := g.aggregates[k];
      var other := g.Other(tid, p);
      var es := if p.0 == tid || p.1 == tid then [Edge("$" + other.name, other)] else [];
      && g.AggregateEdges(tid, g.aggregates[..k + 1]) == g.AggregateEdges(tid, g.aggregates[..k]) + es
      && IsEdge(g, tid, |g.AttributeEdges(g.AttributesOf(tid))| + |g.ChildEdges(tid, g.registered)|
                        + |g.AggregateEdges(tid, g.aggregates[..k])|, es)
  {
    AggregatePrefix(g, tid, g.aggregates, k + 1);
    assert g.aggregates[..k + 1][..k] == g.aggregates[..k];
  }

  ghost predicate CanSearch(g: Graph, tid: TypeId, stack: set<TypeId>) {
    g.Closed() && tid in g.Types() && tid !in stack
  }

  /** The search at tid has recorded, after `start`, the walks over its first n edges. */
  ghost predicate Recorded(g: Graph, tid: TypeId, stack: set<TypeId>, path: seq<string>,
                           start: seq<Record>, output: seq<Record>, n: nat)
  {
    && CanSearch(g, tid, stack) && n <= |g.Succ(tid)|
    && output == start + Records(g, tid, path, WalksVia(g, tid, stack, n))
  }

  lemma ViaStep(g: Graph, tid: TypeId, stack: set<TypeId>, n: nat, e: Edge)
    requires CanSearch(g, tid, stack) && IsEdge(g, tid, n, [e])
    ensures n < |g.Succ(tid)| && g.Succ(tid)[n] == e && e.target in g.Types()
    ensures WalksVia(g, tid, stack, n + 1)
         == WalksVia(g, tid, stack, n) + Prepend(n, Walks(g, e.target, stack + {tid}))
  {
  }

  /** What following edge n adds to the records. */
  lemma FollowEdge(g: Graph, tid: TypeId, path: seq<string>, stack: set<TypeId>,
                   start: seq<Record>, output: seq<Record>, n: nat, e: Edge)
    requires Recorded(g, tid, stack, path, start, output, n) && IsEdge(g, tid, n, [e])
    ensures e.target in g.Types()
    ensures Recorded(g, tid, stack, path, start,
                     output + Records(g, e.target, path + [e.name], Walks(g, e.target, stack + {tid})), n + 1)
  {
    hide Records, WalksVia, Walks;
    ViaStep(g, tid, stack, n, e);
    var ws := Walks(g, e.target, stack + {tid});
    RecordsConcat(g, tid, path, WalksVia(g, tid, stack, n), Prepend(n, ws));
    RecordsPrepend(g, tid, path, n, ws);
  }

  lemma RootRecords(g: Graph, tid: TypeId, path: seq<string>, stack: set<TypeId>)
    requires CanSearch(g, tid, stack)
    ensures Records(g, tid, path, Walks(g, tid, stack))
         == [(tid, PathString(path))] + Records(g, tid, path, WalksVia(g, tid, stack, |g.Succ(tid)|))
  {
    RecordsConcat(g, tid, path, [[]], WalksVia(g, tid, stack, |g.Succ(tid)|));
    assert path + [] == path;
    assert Records(g, tid, path, [[]]) == [(tid, PathString(path))];
  }

  /** A search at tid records tid itself and then the walks over all its edges. */
  lemma SearchRecords(g: Graph, tid: TypeId, path: seq<string>, stack: set<TypeId>,
                      before: seq<Record>, output: seq<Record>)
    requires Recorded(g, tid, stack, path, before + [(tid, PathString(path))], output,
                      |g.AttributeEdges(g.AttributesOf(tid))| + |g.ChildEdges(tid, g.registered)|
                      + |g.AggregateEdges(tid, g.aggregates)|)
    ensures output == before + Records(g, tid, path, Walks(g, tid, stack))
  {
    hide Records, WalksVia, Walks;
    RootRecords(g, tid, path, stack);
  }

  lemma StartRecorded(g: Graph, tid: TypeId, path: seq<string>, stack: set<TypeId>, start: seq<Record>)
    requires CanSearch(g, tid, stack)
    ensures Recorded(g, tid, stack, path, start, start, 0)
  {
  }

  class StaticInformation {
    const registered: seq<TypeId>
    const attributes: map<TypeId, seq<Attribute>>
    const childOf: set<(TypeId, TypeId)>
    const objectType: TypeId
    var output: seq<Record>
    var currentPath: seq<string>
    var alreadyProcessed: seq<TypeId>
    var aggregates: seq<(TypeId, TypeId)>
    var noTids: seq<string>

    ghost function G(): Graph
      reads this`aggregates
    {
      Graph(registered, attributes, childOf, objectType, aggregates)
    }

    ghost function Stack(): set<TypeId>
      reads this`alreadyProcessed
    {
      set t | t in alreadyProcessed
    }

    constructor (registered: seq<TypeId>, attributes: map<TypeId, seq<Attribute>>,
                 childOf: set<(TypeId, TypeId)>, objectType: TypeId)
      ensures G() == Graph(registered, attributes, childOf, objectType, [])
      ensures output == [] && currentPath == [] && alreadyProcessed == [] && noTids == []
    {
      this.registered, this.attributes, this.childOf, this.objectType :=
        registered, attributes, childOf, objectType;
      output, currentPath, alreadyProcessed, aggregates, noTids := [], [], [], [], [];
    }

    /** Unknown names are noted, the first one only; known ones become an aggregation. */
    method RecordAggregationInfo(a: string, b: string)
      modifies this`aggregates, this`noTids
      ensures TypeId(a) in registered && TypeId(b) in registered ==>
                aggregates == old(aggregates) + [(TypeId(a), TypeId(b))] && noTids == old(noTids)
      ensures !(TypeId(a) in registered && TypeId(b) in registered) ==>
                aggregates == old(aggregates)
                && noTids == old(noTids) + [if TypeId(a) in registered then b else a]
    {
      if TypeId(a) !in registered {
        noTids := noTids + [a];
        return;
      }
      if TypeId(b) !in registered {
        noTids := noTids + [b];
        return;
      }
      aggregates := aggregates + [(TypeId(a), TypeId(b))];
    }

    method GetCurrentPath() returns (path: string)
      ensures path == PathString(currentPath)
    {
      path := "";
      for i := 0 to |currentPath|
        invariant path == PathString(currentPath[..i])
      {
        assert currentPath[..i + 1][..i] == currentPath[..i];
        path := path + "/" + currentPath[i];
      }
      assert currentPath[..|currentPath|] == currentPath;
    }

    method RecordOutput(tid: TypeId)
      modifies this`output
      ensures output == old(output) + [(tid, PathString(currentPath))]
    {
      var path := GetCurrentPath();
      output := output + [(tid, path)];
    }

    method HasAlreadyBeenProcessed(tid: TypeId) returns (found: bool)
      ensures found <==> tid in alreadyProcessed
    {
      for i := 0 to |alreadyProcessed|
        invariant tid !in alreadyProcessed[..i]
      {
        if alreadyProcessed[i] == tid { return true; }
      }
      return false;
    }

    method Get(tid: TypeId) returns (paths: seq<string>)
      ensures paths == PathsOf(output, tid)
    {
      paths := [];
      for i := 0 to |output|
        invariant paths == PathsOf(output[..i], tid)
      {
        assert output[..i + 1][..i] == output[..i];
        if output[i].0 == tid { paths := paths + [output[i].1]; }
      }
      assert output[..|output|] == output;
    }

    /** The object's graph is g, the types on its current path are `stack`, and tid is not one. */
    ghost predicate Ready(g: Graph, tid: TypeId, stack: set<TypeId>)
      reads this`aggregates, this`alreadyProcessed
    {
      g == G() && stack == Stack() && CanSearch(g, tid, stack)
    }

    /** Follows edge n out of tid: push, search, pop. */
    method Follow(tid: TypeId, name: string, target: TypeId,
                  ghost g: Graph, ghost stack: set<TypeId>, ghost start: seq<Record>, ghost n: nat)
      requires Ready(g, tid, stack)
      requires Recorded(g, tid, stack, currentPath, start, output, n)
      requires IsEdge(g, tid, n, [Edge(name, target)])
      modifies this`output, this`currentPath, this`alreadyProcessed
      ensures currentPath == old(currentPath) && alreadyProcessed == old(alreadyProcessed)
      ensures Recorded(g, tid, stack, currentPath, start, output, n + 1)
      decreases g.Types() - (stack + {tid}), 1
    {
      ghost var before, path := output, currentPath;
      FollowEdge(g, tid, path, stack, start, before, n, Edge(name, target));
      currentPath := currentPath + [name];
      alreadyProcessed := alreadyProcessed + [tid];
      assert Stack() == stack + {tid};
      DoGather(target, g, stack + {tid});
      alreadyProcessed := alreadyProcessed[..|alreadyProcessed| - 1];
      currentPath := currentPath[..|currentPath| - 1];
    }

    method FollowAttributes(tid: TypeId, ghost g: Graph, ghost stack: set<TypeId>, ghost start: seq<Record>)
      requires Ready(g, tid, stack)
      requires Recorded(g, tid, stack, currentPath, start, output, 0)
      modifies this`output, this`currentPath, this`alreadyProcessed
      ensures currentPath == old(currentPath) && alreadyProcessed == old(alreadyProcessed)
      ensures Recorded(g, tid, stack, currentPath, start, output, |g.AttributeEdges(g.AttributesOf(tid))|)
      decreases g.Types() - (stack + {tid}), 2
    {
      hide Recorded, CanSearch, IsEdge;
      var attrs := if tid in attributes then attributes[tid] else [];
      ghost var n: nat := 0;
      for i := 0 to |attrs|
        invariant currentPath == old(currentPath) && alreadyProcessed == old(alreadyProcessed)
        invariant n == |g.AttributeEdges(attrs[..i])|
        invariant Recorded(g, tid, stack, currentPath, start, output, n)
      {
        AttributeStep(g, tid, attrs, i);
        match attrs[i]
        case Pointer(name, pointee) =>
          if pointee != objectType {
            Follow(tid, name, pointee, g, stack, start, n);
            n := n + 1;
          }
        case Container(name, item) =>
          Follow(tid, name + "/[i]", item, g, stack, start, n);
          n := n + 1;
        case Plain(_) =>
      }
      assert attrs[..|attrs|] == attrs;
    }

    method FollowChildren(tid: TypeId, ghost g: Graph, ghost stack: set<TypeId>, ghost start: seq<Record>)
      requires Ready(g, tid, stack)
      requires Recorded(g, tid, stack, currentPath, start, output, |g.AttributeEdges(g.AttributesOf(tid))|)
      modifies this`output, this`currentPath, this`alreadyProcessed
      ensures currentPath == old(currentPath) && alreadyProcessed == old(alreadyProcessed)
      ensures Recorded(g, tid, stack, currentPath, start, output,
                       |g.AttributeEdges(g.AttributesOf(tid))| + |g.ChildEdges(tid, g.registered)|)
      decreases g.Types() - (stack + {tid}), 2
    {
      hide Recorded, CanSearch, IsEdge;
      ghost var a := |g.AttributeEdges(g.AttributesOf(tid))|;
      ghost var n: nat := a;
      for j := 0 to |registered|
        invariant currentPath == old(currentPath) && alreadyProcessed == old(alreadyProcessed)
        invariant n == a + |g.ChildEdges(tid, registered[..j])|
        invariant Recorded(g, tid, stack, currentPath, start, output, n)
      {
        ChildStep(g, tid, j);
        var child := registered[j];
        if (child, tid) in childOf {
          Follow(tid, "$" + child.name, child, g, stack, start, n);
          n := n + 1;
        }
      }
      assert registered[..|registered|] == registered;
    }

    method FollowAggregates(tid: TypeId, ghost g: Graph, ghost stack: set<TypeId>, ghost start: seq<Record>)
      requires Ready(g, tid, stack)
      requires Recorded(g, tid, stack, currentPath, start, output,
                        |g.AttributeEdges(g.AttributesOf(tid))| + |g.ChildEdges(tid, g.registered)|)
      modifies this`output, this`currentPath, this`alreadyProcessed
      ensures currentPath == old(currentPath) && alreadyProcessed == old(alreadyProcessed)
      ensures Recorded(g, tid, stack, currentPath, start, output,
                       |g.AttributeEdges(g.AttributesOf(tid))| + |g.ChildEdges(tid, g.registered)|
                       + |g.AggregateEdges(tid, g.aggregates)|)
      decreases g.Types() - (stack + {tid}), 2
    {
      hide Recorded, CanSearch, IsEdge;
      ghost var b := |g.AttributeEdges(g.AttributesOf(tid))| + |g.ChildEdges(tid, g.registered)|;
      ghost var n: nat := b;
      var pairs := aggregates;
      for k := 0 to |pairs|
        invariant currentPath == old(currentPath) && alreadyProcessed == old(alreadyProcessed)
        invariant n == b + |g.AggregateEdges(tid, pairs[..k])|
        invariant Recorded(g, tid, stack, currentPath, start, output, n)
      {
        AggregateStep(g, tid, k);
        var item := pairs[k];
        if item.0 == tid || item.1 == tid {
          var other := item.1;
          if item.1 == tid { other := item.0; }
          Follow(tid, "$" + other.name, other, g, stack, start, n);
          n := n + 1;
        }
      }
      assert pairs[..|pairs|] == pairs;
    }

    method DoGather(tid: TypeId, ghost g: Graph, ghost stack: set<TypeId>)
      requires g == G() && stack == Stack() && g.Closed() && tid in g.Types()
      modifies this`output, this`currentPath, this`alreadyProcessed
      ensures currentPath == old(currentPath) && alreadyProcessed == old(alreadyProcessed)
      ensures output == old(output) + Records(g, tid, currentPath, Walks(g, tid, stack))
      decreases g.Types() - stack, 0
    {
      var processed := HasAlreadyBeenProcessed(tid);
      if processed { return; }
      hide Recorded, CanSearch;
      RecordOutput(tid);
      ghost var start := output;
      StartRecorded(g, tid, currentPath, stack, start);
      FollowAttributes(tid, g, stack, start);
      FollowChildren(tid, g, stack, start);
      FollowAggregates(tid, g, stack, start);
      SearchRecords(g, tid, currentPath, stack, old(output), output);
    }

    /** The deduplication that follows works on a copy, so the records stay as searched. */
    method Gather(tid: TypeId)
      requires G().Closed() && tid in G().Types()
      requires currentPath == [] && alreadyProcessed == []
      modifies this`output, this`currentPath, this`alreadyProcessed
      ensures currentPath == [] && alreadyProcessed == []
      ensures output == old(output) + Gathered(G(), tid)
    {
      assert Stack() == {};
      DoGather(tid, G(), {});
    }

    /** The searches from all root objects, one after the other. */
    method GatherAll(roots: seq<TypeId>)
      requires AreTypes(G(), roots)
      requires currentPath == [] && alreadyProcessed == []
      modifies this`output, this`currentPath, this`alreadyProcessed
      ensures currentPath == [] && alreadyProcessed == []
      ensures output == old(output) + AllRecords(G(), roots)
    {
      hide Gathered;
      ghost var g := G();
      for i := 0 to |roots|
        invariant currentPath == [] && alreadyProcessed == []
        invariant output == old(output) + AllRecords(g, roots[..i])
      {
        assert roots[..i + 1][..i] == roots[..i];
        Gather(roots[i]);
      }
      assert roots[..|roots|] == roots;
    }
  }

  ghost predicate AreTypes(g: Graph, roots: seq<TypeId>) {
    g.Closed() && forall i :: 0 <= i < |roots| ==> roots[i] in g.Types()
  }

  ghost function AllRecords(g: Graph, roots: seq<TypeId>): seq<Record>
    requires AreTypes(g, roots)
  {
    if roots == [] then []
    else AllRecords(g, roots[..|roots| - 1]) + Gathered(g, roots[|roots| - 1])
  }

  /** After the searches from all roots a type has a path exactly when some root reaches it. */
  lemma {:induction false} TypesWithPaths(g: Graph, roots: seq<TypeId>, t: TypeId)
    requires AreTypes(g, roots)
    ensures PathsOf(AllRecords(g, roots), t) != [] <==> exists i :: 0 <= i < |roots| && Reachable(g, roots[i], t)
    decreases |roots|
  {
    hide Gathered, Reachable, PathsOf, AreTypes, AllRecords;
    PathsOfLastRoot(g, roots, t);
    if roots != [] {
      var init := roots[..|roots| - 1];
      TypesWithPaths(g, init, t);
      assert forall i :: 0 <= i < |init| ==> init[i] == roots[i];
    }
  }

  lemma PathsOfLastRoot(g: Graph, roots: seq<TypeId>, t: TypeId)
    requires AreTypes(g, roots)
    ensures if roots == [] then PathsOf(AllRecords(g, roots), t) == []
            else AreTypes(g, roots[..|roots| - 1])
                 && (PathsOf(AllRecords(g, roots), t) != [] <==>
                      PathsOf(AllRecords(g, roots[..|roots| - 1]), t) != [] || Reachable(g, roots[|roots| - 1], t))
  {
    if roots != [] {
      hide Gathered, Reachable, PathsOf;
      EveryReachableTypeHasAPath(g, roots[|roots| - 1], t);
      PathsOfConcat(AllRecords(g, roots[..|roots| - 1]), Gathered(g, roots[|roots| - 1]), t);
    }
  }
}
