/** What the search for configuration paths records, said of the registry itself: of the attributes,
    the registered child types and the recorded aggregations. */
module ConfigRoutes {
  import opened ConfigPaths
  import opened ConfigRepeats

  // ---------------------------------------------------------------- The sources of a type

  function AttributeCount(g: Graph, t: TypeId): nat {
    if t in g.attributes then |g.attributes[t]| else 0
  }

  function SourceCount(g: Graph, t: TypeId): nat {
    AttributeCount(g, t) + |g.registered| + |g.aggregates|
  }

  /** The n-th source of type t leads to another type under a label.  The sources are its attributes,
      then all registered types, then all aggregations. */
  ghost predicate LeadsAt(g: Graph, t: TypeId, n: nat, l: string, p: TypeId) {
    var a, r := AttributeCount(g, t), |g.registered|;
    if n < a then
      var attribute := g.attributes[t][n];
      || (attribute == Pointer(l, p) && p != g.objectType)
      || (attribute.Container? && attribute.item == p && l == attribute.name + "/[i]")
    else if n < a + r then
      g.registered[n - a] == p && (p, t) in g.childOf && l == "$" + p.name
    else if n < a + r + |g.aggregates| then
      (g.aggregates[n - a - r] == (t, p) || g.aggregates[n - a - r] == (p, t)) && l == "$" + p.name
    else false
  }

  /** The edges that the search makes of it. */
  function EdgesAt(g: Graph, t: TypeId, n: nat): seq<Edge>
    requires n < SourceCount(g, t)
  {
    var a, r := AttributeCount(g, t), |g.registered|;
    if n < a then g.AttributeEdge(g.attributes[t][n])
    else if n < a + r then
      var child := g.registered[n - a];
      if (child, t) in g.childOf then [Edge("$" + child.name, child)] else []
    else
      var p := g.aggregates[n - a - r];
      var other := g.Other(t, p);
      if p.0 == t || p.1 == t then [Edge("$" + other.name, other)] else []
  }

  lemma LeadsIff(g: Graph, t: TypeId, n: nat, l: string, p: TypeId)
    ensures LeadsAt(g, t, n, l, p) <==> n < SourceCount(g, t) && EdgesAt(g, t, n) == [Edge(l, p)]
  {
  }

  function Clamp(n: int, max: nat): nat {
    if n < 0 then 0 else if n > max then max else n
  }

  ghost function Edges(g: Graph, t: TypeId, i: nat, j: nat, k: nat): nat
    requires i <= AttributeCount(g, t) && j <= |g.registered| && k <= |g.aggregates|
  {
    |g.AttributeEdges(g.AttributesOf(t)[..i])| + |g.ChildEdges(t, g.registered[..j])|
    + |g.AggregateEdges(t, g.aggregates[..k])|
  }

  /** The number of edges that the sources before n make. */
  ghost function Position(g: Graph, t: TypeId, n: nat): nat {
    var a, r := AttributeCount(g, t), |g.registered|;
    Edges(g, t, Clamp(n, a), Clamp(n - a, r), Clamp(n - a - r, |g.aggregates|))
  }

  lemma AttributeSource(g: Graph, t: TypeId, i: nat)
    requires i < AttributeCount(g, t)
    ensures IsEdge(g, t, Edges(g, t, i, 0, 0), g.AttributeEdge(g.attributes[t][i]))
    ensures Edges(g, t, i + 1, 0, 0) == Edges(g, t, i, 0, 0) + |g.AttributeEdge(g.attributes[t][i])|
  {
    hide Graph.Succ, IsEdge;
    assert g.ChildEdges(t, g.registered[..0]) == [] && g.AggregateEdges(t, g.aggregates[..0]) == [];
    AttributeStep(g, t, g.AttributesOf(t), i);
  }

  lemma ChildSource(g: Graph, t: TypeId, j: nat)
    requires j < |g.registered|
    ensures var a, child := AttributeCount(g, t), g.registered[j];
      var es := if (child, t) in g.childOf then [Edge("$" + child.name, child)] else [];
      IsEdge(g, t, Edges(g, t, a, j, 0), es) && Edges(g, t, a, j + 1, 0) == Edges(g, t, a, j, 0) + |es|
  {
    hide Graph.Succ, IsEdge;
    assert g.AttributesOf(t)[..AttributeCount(g, t)] == g.AttributesOf(t);
    assert g.AggregateEdges(t, g.aggregates[..0]) == [];
    ChildStep(g, t, j);
  }

  lemma AggregateSource(g: Graph, t: TypeId, k: nat)
    requires k < |g.aggregates|
    ensures var a, r, p := AttributeCount(g, t), |g.registered|, g.aggregates[k];
      var other := g.Other(t, p);
      var es := if p.0 == t || p.1 == t then [Edge("$" + other.name, other)] else [];
      IsEdge(g, t, Edges(g, t, a, r, k), es) && Edges(g, t, a, r, k + 1) == Edges(g, t, a, r, k) + |es|
  {
    hide Graph.Succ, IsEdge;
    assert g.AttributesOf(t)[..AttributeCount(g, t)] == g.AttributesOf(t);
    assert g.registered[..|g.registered|] == g.registered;
    AggregateStep(g, t, k);
  }

  lemma PositionStep(g: Graph, t: TypeId, n: nat)
    requires n < SourceCount(g, t)
    ensures IsEdge(g, t, Position(g, t, n), EdgesAt(g, t, n))
    ensures Position(g, t, n + 1) == Position(g, t, n) + |EdgesAt(g, t, n)|
  {
    hide Edges, IsEdge;
    var a, r := AttributeCount(g, t), |g.registered|;
    if n < a {
      AttributeSource(g, t, n);
    } else if n < a + r {
      ChildSource(g, t, n - a);
    } else {
      AggregateSource(g, t, n - a - r);
    }
  }

  lemma PositionEnds(g: Graph, t: TypeId)
    ensures Position(g, t, SourceCount(g, t)) == |g.Succ(t)|
  {
    assert g.AttributesOf(t)[..AttributeCount(g, t)] == g.AttributesOf(t);
    assert g.registered[..|g.registered|] == g.registered && g.aggregates[..|g.aggregates|] == g.aggregates;
  }

  lemma {:induction false} PositionGrows(g: Graph, t: TypeId, n: nat, m: nat)
    requires n <= m <= SourceCount(g, t)
    ensures Position(g, t, n) <= Position(g, t, m)
    decreases m
  {
    hide Position, EdgesAt;
    if n < m {
      PositionGrows(g, t, n, m - 1);
      PositionStep(g, t, m - 1);
    }
  }

  /** Each edge has a source. */
  lemma {:induction false} SourceExists(g: Graph, t: TypeId, k: nat, m: nat) returns (n: nat)
    requires m <= SourceCount(g, t) && k < Position(g, t, m) && k < |g.Succ(t)|
    ensures n < m && Position(g, t, n) == k
    ensures EdgesAt(g, t, n) == [g.Succ(t)[k]]
    decreases m
  {
    hide Position, EdgesAt, Graph.Succ, IsEdge, SourceCount;
    if m == 0 {
      NoSources(g, t);
    } else {
      PositionStep(g, t, m - 1);
      AtMostOneEdge(g, t, m - 1);
      if k < Position(g, t, m - 1) {
        n := SourceExists(g, t, k, m - 1);
      } else {
        n := m - 1;
        EdgeThere(g, t, k, EdgesAt(g, t, n));
      }
    }
  }

  lemma NoSources(g: Graph, t: TypeId)
    ensures Position(g, t, 0) == 0
  {
  }

  lemma AtMostOneEdge(g: Graph, t: TypeId, n: nat)
    requires n < SourceCount(g, t)
    ensures |EdgesAt(g, t, n)| <= 1
  {
  }

  lemma EdgeThere(g: Graph, t: TypeId, k: nat, es: seq<Edge>)
    requires IsEdge(g, t, k, es) && |es| == 1
    ensures k < |g.Succ(t)| && es == [g.Succ(t)[k]]
  {
    assert g.Succ(t)[k..k + 1][0] == es[0];
  }

  ghost predicate IsSource(g: Graph, t: TypeId, k: nat, n: nat)
    requires k < |g.Succ(t)|
  {
    n < SourceCount(g, t) && Position(g, t, n) == k && EdgesAt(g, t, n) == [g.Succ(t)[k]]
  }

  ghost function SourceOf(g: Graph, t: TypeId, k: nat): (n: nat)
    requires k < |g.Succ(t)|
    ensures IsSource(g, t, k, n)
  {
    SourceFound(g, t, k);
    var n: nat :| IsSource(g, t, k, n);
    n
  }

  lemma SourceFound(g: Graph, t: TypeId, k: nat)
    requires k < |g.Succ(t)|
    ensures exists n: nat :: IsSource(g, t, k, n)
  {
    hide Position, EdgesAt, Graph.Succ;
    PositionEnds(g, t);
    var n := SourceExists(g, t, k, SourceCount(g, t));
    assert IsSource(g, t, k, n);
  }

  /** Edges are in the order of their sources. */
  lemma SourcesGrow(g: Graph, t: TypeId, k: nat, l: nat)
    requires k < l < |g.Succ(t)|
    ensures SourceOf(g, t, k) < SourceOf(g, t, l)
  {
    hide Position, EdgesAt, Graph.Succ, SourceOf;
    var n, m := SourceOf(g, t, k), SourceOf(g, t, l);
    assert IsSource(g, t, k, n) && IsSource(g, t, l, m);
    if m <= n { PositionGrows(g, t, m, n); }
  }

  /** A source that leads somewhere is the source of the edge at its position. */
  lemma SourceBack(g: Graph, t: TypeId, n: nat, l: string, p: TypeId)
    requires LeadsAt(g, t, n, l, p)
    ensures var k := Position(g, t, n); k < |g.Succ(t)| && g.Succ(t)[k] == Edge(l, p) && SourceOf(g, t, k) == n
  {
    hide Position, EdgesAt, Graph.Succ, SourceOf, LeadsAt;
    LeadsIff(g, t, n, l, p);
    PositionStep(g, t, n);
    var k := Position(g, t, n);
    EdgeThere(g, t, k, EdgesAt(g, t, n));
    var m := SourceOf(g, t, k);
    assert IsSource(g, t, k, m);
    if n < m { PositionGrows(g, t, n + 1, m); }
    if m < n {
      PositionStep(g, t, m);
      PositionGrows(g, t, m + 1, n);
    }
  }

  // ---------------------------------------------------------------- Routes

  /** The types on the way, the labels, and the number of the source taken at each step. */
  datatype Route = Route(types: seq<TypeId>, labels: seq<string>, sources: seq<nat>)
  {
    predicate Shaped() {
      |types| == |labels| + 1 && |sources| == |labels|
    }

    function Last(): TypeId
      requires Shaped()
    {
      types[|labels|]
    }
  }

  ghost predicate Linked(g: Graph, r: Route) {
    r.Shaped() && forall i :: 0 <= i < |r.labels| ==> LeadsAt(g, r.types[i], r.sources[i], r.labels[i], r.types[i + 1])
  }

  ghost predicate IsRoute(g: Graph, root: TypeId, r: Route) {
    Linked(g, r) && r.types[0] == root && forall i, j :: 0 <= i < j < |r.types| ==> r.types[i] != r.types[j]
  }

  function Slashed(labels: seq<string>): string {
    if labels == [] then "" else "/" + labels[0] + Slashed(labels[1..])
  }

  lemma {:induction false} SlashedSnoc(labels: seq<string>, l: string)
    ensures Slashed(labels + [l]) == Slashed(labels) + "/" + l
  {
    if labels == [] {
      assert (labels + [l])[1..] == [];
    } else {
      assert (labels + [l])[1..] == labels[1..] + [l];
      SlashedSnoc(labels[1..], l);
    }
  }

  lemma {:induction false} SlashedIsPath(labels: seq<string>)
    ensures PathString(labels) == Slashed(labels)
  {
    if labels != [] {
      var n := |labels| - 1;
      SlashedIsPath(labels[..n]);
      SlashedSnoc(labels[..n], labels[n]);
      assert labels[..n] + [labels[n]] == labels;
    }
  }

  ghost function RouteOf(g: Graph, t: TypeId, w: Walk): Route
    requires IsWalk(g, t, w)
    decreases |w|
  {
    if w == [] then Route([t], [], [])
    else
      var e := g.Succ(t)[w[0]];
      Cons(t, e.name, SourceOf(g, t, w[0]), RouteOf(g, e.target, w[1..]))
  }

  function Cons(t: TypeId, l: string, n: nat, r: Route): Route {
    Route([t] + r.types, [l] + r.labels, [n] + r.sources)
  }

  lemma ConsLinked(g: Graph, t: TypeId, l: string, n: nat, r: Route)
    requires Linked(g, r) && LeadsAt(g, t, n, l, r.types[0])
    ensures Linked(g, Cons(t, l, n, r))
  {
    hide LeadsAt;
    var s := Cons(t, l, n, r);
    forall i | 0 <= i < |s.labels| ensures LeadsAt(g, s.types[i], s.sources[i], s.labels[i], s.types[i + 1]) {
      if i > 0 {
        var j := i - 1;
        assert LeadsAt(g, r.types[j], r.sources[j], r.labels[j], r.types[j + 1]);
      }
    }
  }

  lemma SourceLeads(g: Graph, t: TypeId, k: nat)
    requires k < |g.Succ(t)|
    ensures LeadsAt(g, t, SourceOf(g, t, k), g.Succ(t)[k].name, g.Succ(t)[k].target)
  {
    hide Position, Graph.Succ, LeadsAt, EdgesAt;
    LeadsIff(g, t, SourceOf(g, t, k), g.Succ(t)[k].name, g.Succ(t)[k].target);
    assert IsSource(g, t, k, SourceOf(g, t, k));
  }

  lemma {:induction false} RouteOfWalk(g: Graph, t: TypeId, w: Walk)
    requires IsWalk(g, t, w)
    ensures var r := RouteOf(g, t, w); Linked(g, r) && r.types[0] == t && r.labels == Labels(g, t, w)
    ensures |Labels(g, t, w)| == |w|
    decreases |w|
  {
    hide Graph.Succ, LeadsAt, SourceOf;
    if w != [] {
      var e := g.Succ(t)[w[0]];
      RouteOfWalk(g, e.target, w[1..]);
      SourceLeads(g, t, w[0]);
      ConsLinked(g, t, e.name, SourceOf(g, t, w[0]), RouteOf(g, e.target, w[1..]));
    }
  }

  lemma {:induction false} RouteTypes(g: Graph, t: TypeId, w: Walk, i: nat)
    requires IsWalk(g, t, w) && i <= |w|
    ensures |RouteOf(g, t, w).types| == |w| + 1 && RouteOf(g, t, w).types[i] == End(g, t, w[..i])
    decreases |w|
  {
    hide Graph.Succ, SourceOf;
    if w != [] {
      var e := g.Succ(t)[w[0]];
      if i > 0 {
        RouteTypes(g, e.target, w[1..], i - 1);
        assert w[..i][1..] == w[1..][..i - 1];
      } else {
        RouteTypes(g, e.target, w[1..], 0);
      }
    }
  }

  /** Each route is the route of a walk. */
  lemma {:induction false} WalkOfRoute(g: Graph, r: Route) returns (w: Walk)
    requires Linked(g, r)
    ensures IsWalk(g, r.types[0], w) && RouteOf(g, r.types[0], w) == r
    decreases |r.labels|
  {
    hide Graph.Succ, LeadsAt, Position, SourceOf;
    if r.labels == [] {
      w := [];
      assert r.types == [r.types[0]];
    } else {
      var t, n, l := r.types[0], r.sources[0], r.labels[0];
      var rest := Route(r.types[1..], r.labels[1..], r.sources[1..]);
      RestLinked(g, r);
      var v := WalkOfRoute(g, rest);
      assert LeadsAt(g, r.types[0], r.sources[0], r.labels[0], r.types[0 + 1]);
      SourceBack(g, t, n, l, rest.types[0]);
      w := [Position(g, t, n)] + v;
      assert w[1..] == v;
      assert Cons(t, l, n, rest) == r;
    }
  }

  lemma RestLinked(g: Graph, r: Route)
    requires Linked(g, r) && r.labels != []
    ensures Linked(g, Route(r.types[1..], r.labels[1..], r.sources[1..]))
  {
    hide LeadsAt;
    var rest := Route(r.types[1..], r.labels[1..], r.sources[1..]);
    forall i | 0 <= i < |rest.labels|
      ensures LeadsAt(g, rest.types[i], rest.sources[i], rest.labels[i], rest.types[i + 1])
    {
      var j := i + 1;
      assert LeadsAt(g, r.types[j], r.sources[j], r.labels[j], r.types[j + 1]);
    }
  }

  lemma SimpleIffRoute(g: Graph, root: TypeId, w: Walk)
    requires IsWalk(g, root, w)
    ensures Simple(g, root, {}, w) <==> IsRoute(g, root, RouteOf(g, root, w))
  {
    hide RouteOf, Linked, IsWalk, End;
    RouteOfWalk(g, root, w);
    var r := RouteOf(g, root, w);
    forall i | 0 <= i <= |w| ensures |r.types| == |w| + 1 && r.types[i] == End(g, root, w[..i]) {
      RouteTypes(g, root, w, i);
    }
    RouteTypes(g, root, w, 0);
  }

  lemma RouteRecord(g: Graph, root: TypeId, w: Walk)
    requires IsWalk(g, root, w)
    ensures var r := RouteOf(g, root, w);
      r.Shaped() && RecordOf(g, root, [], w) == (r.Last(), Slashed(r.labels))
  {
    hide RouteOf, IsWalk, End, LeadsAt;
    RouteOfWalk(g, root, w);
    RouteTypes(g, root, w, |w|);
    assert w[..|w|] == w && [] + Labels(g, root, w) == Labels(g, root, w);
    SlashedIsPath(Labels(g, root, w));
  }

  /** The order of walks is the order of their sources. */
  lemma {:induction false} SourcesBefore(g: Graph, t: TypeId, v: Walk, w: Walk)
    requires IsWalk(g, t, v) && IsWalk(g, t, w) && Before(v, w)
    ensures Before(RouteOf(g, t, v).sources, RouteOf(g, t, w).sources)
    decreases |v|
  {
    hide Graph.Succ, SourceOf;
    var a, b := RouteOf(g, t, v).sources, RouteOf(g, t, w).sources;
    assert b[0] == SourceOf(g, t, w[0]);
    if v != [] {
      if v[0] == w[0] {
        SourcesBefore(g, g.Succ(t)[v[0]].target, v[1..], w[1..]);
        assert a[1..] == RouteOf(g, g.Succ(t)[v[0]].target, v[1..]).sources;
        assert b[1..] == RouteOf(g, g.Succ(t)[v[0]].target, w[1..]).sources;
      } else {
        SourcesGrow(g, t, v[0], w[0]);
      }
    }
  }

  // ---------------------------------------------------------------- The law of the records

  /** The records are those of all the routes from the root, one each, ordered by the sources they
      take: attributes before children before aggregations, each in its own order. */
  ghost predicate RecordsRoutes(g: Graph, root: TypeId, records: seq<Record>, routes: seq<Route>) {
    && |records| == |routes|
    && (forall i :: 0 <= i < |routes| ==>
          IsRoute(g, root, routes[i]) && records[i] == (routes[i].Last(), Slashed(routes[i].labels)))
    && (forall i, j :: 0 <= i < j < |routes| ==> Before(routes[i].sources, routes[j].sources))
    && (forall r :: IsRoute(g, root, r) ==> r in routes)
  }

  lemma GatheredRoutes(g: Graph, root: TypeId) returns (routes: seq<Route>)
    requires g.Closed() && root in g.Types()
    ensures RecordsRoutes(g, root, Gathered(g, root), routes)
  {
    hide IsWalk, RouteOf, IsRoute, Before, Graph.Closed, Graph.Types, RecordOf;
    var ws := Walks(g, root, {});
    WalksIncreasing(g, root, {});
    forall i | 0 <= i < |ws| ensures Simple(g, root, {}, ws[i]) { WalksAreSimple(g, root, {}, ws[i]); }
    SimpleAreWalks(g, root, ws);
    routes := RoutesOf(g, root, ws);
    forall i | 0 <= i < |ws|
      ensures IsRoute(g, root, routes[i]) && routes[i].Shaped()
              && Gathered(g, root)[i] == (routes[i].Last(), Slashed(routes[i].labels))
    {
      SimpleIffRoute(g, root, ws[i]);
      RouteRecord(g, root, ws[i]);
    }
    forall i, j | 0 <= i < j < |ws| ensures Before(routes[i].sources, routes[j].sources) {
      SourcesBefore(g, root, ws[i], ws[j]);
    }
    forall r | IsRoute(g, root, r) ensures r in routes { RouteListed(g, root, ws, r); }
  }

  ghost predicate AreWalks(g: Graph, root: TypeId, ws: seq<Walk>) {
    forall i :: 0 <= i < |ws| ==> IsWalk(g, root, ws[i])
  }

  lemma SimpleAreWalks(g: Graph, root: TypeId, ws: seq<Walk>)
    requires forall i :: 0 <= i < |ws| ==> Simple(g, root, {}, ws[i])
    ensures AreWalks(g, root, ws)
  {
  }

  ghost function RoutesOf(g: Graph, root: TypeId, ws: seq<Walk>): seq<Route>
    requires AreWalks(g, root, ws)
  {
    seq(|ws|, i requires 0 <= i < |ws| => RouteOf(g, root, ws[i]))
  }

  lemma RouteListed(g: Graph, root: TypeId, ws: seq<Walk>, r: Route)
    requires g.Closed() && root in g.Types() && ws == Walks(g, root, {}) && AreWalks(g, root, ws)
    requires IsRoute(g, root, r)
    ensures r in RoutesOf(g, root, ws)
  {
    hide IsWalk, RouteOf, Linked, Walks, Simple;
    var w := WalkOfRoute(g, r);
    SimpleIffRoute(g, root, w);
    WalksAreSimple(g, root, {}, w);
    var i :| 0 <= i < |ws| && ws[i] == w;
    assert RoutesOf(g, root, ws)[i] == r;
  }

  /** A record is made exactly when a route from the root has its end and its labels. */
  lemma RecordIff(g: Graph, root: TypeId, t: TypeId, path: string)
    requires g.Closed() && root in g.Types()
    ensures (t, path) in Gathered(g, root) <==>
            exists r :: IsRoute(g, root, r) && r.Last() == t && Slashed(r.labels) == path
  {
    hide IsRoute, Before, Gathered, Graph.Closed, Graph.Types, Slashed;
    var routes := GatheredRoutes(g, root);
    var rs := Gathered(g, root);
    if (t, path) in rs {
      var i :| 0 <= i < |rs| && rs[i] == (t, path);
      assert IsRoute(g, root, routes[i]);
    }
    if r :| IsRoute(g, root, r) && r.Shaped() && r.Last() == t && Slashed(r.labels) == path {
      var i :| 0 <= i < |routes| && routes[i] == r;
      assert rs[i] == (t, path);
    }
  }

  /** One source more: a route makes a record at its end, and one for each source there that leads
      to a type not on the route. */
  lemma LongerRoute(g: Graph, root: TypeId, r: Route, n: nat, l: string, p: TypeId)
    requires g.Closed() && root in g.Types() && IsRoute(g, root, r)
    requires LeadsAt(g, r.Last(), n, l, p) && p !in r.types
    ensures (p, Slashed(r.labels) + "/" + l) in Gathered(g, root)
  {
    hide LeadsAt, Gathered, Graph.Closed, Graph.Types;
    var s := Route(r.types + [p], r.labels + [l], r.sources + [n]);
    forall i | 0 <= i < |s.labels| ensures LeadsAt(g, s.types[i], s.sources[i], s.labels[i], s.types[i + 1]) {
      if i < |r.labels| { assert LeadsAt(g, r.types[i], r.sources[i], r.labels[i], r.types[i + 1]); }
    }
    assert forall i :: 0 <= i < |r.types| ==> r.types[i] in r.types;
    assert IsRoute(g, root, s) && s.Last() == p;
    SlashedSnoc(r.labels, l);
    RecordIff(g, root, p, Slashed(s.labels));
  }

  /** And every record but the root's own is made that way. */
  lemma ShorterRoute(g: Graph, root: TypeId, p: TypeId, path: string) returns (r: Route, n: nat, l: string)
    requires g.Closed() && root in g.Types() && (p, path) in Gathered(g, root)
    requires p != root
    ensures IsRoute(g, root, r) && LeadsAt(g, r.Last(), n, l, p) && p !in r.types
    ensures path == Slashed(r.labels) + "/" + l
  {
    hide LeadsAt, Gathered, Graph.Closed, Graph.Types;
    RecordIff(g, root, p, path);
    var s :| IsRoute(g, root, s) && s.Shaped() && s.Last() == p && Slashed(s.labels) == path;
    var k := |s.labels| - 1;
    assert LeadsAt(g, s.types[k], s.sources[k], s.labels[k], s.types[k + 1]);
    r, n, l := Route(s.types[..k + 1], s.labels[..k], s.sources[..k]), s.sources[k], s.labels[k];
    forall i | 0 <= i < |r.labels| ensures LeadsAt(g, r.types[i], r.sources[i], r.labels[i], r.types[i + 1]) {
      assert LeadsAt(g, s.types[i], s.sources[i], s.labels[i], s.types[i + 1]);
    }
    SlashedSnoc(s.labels[..k], l);
    assert s.labels[..k] + [l] == s.labels;
  }

  /** The root's own record is there, and no other of the root. */
  lemma RootRecord(g: Graph, root: TypeId, path: string)
    requires g.Closed() && root in g.Types()
    ensures (root, path) in Gathered(g, root) <==> path == ""
  {
    hide LeadsAt, Gathered, Graph.Closed, Graph.Types;
    RecordIff(g, root, root, path);
    var r := Route([root], [], []);
    assert IsRoute(g, root, r) && r.Last() == root && Slashed(r.labels) == "";
    if s :| IsRoute(g, root, s) && s.Shaped() && s.Last() == root && Slashed(s.labels) == path {
      assert s.labels == [];
    }
  }

  /** With plain names no path to `Object` ends in the name of a pointer attribute, or of any other
      attribute that is no container. */
  lemma NoPointerToObject(g: Graph, root: TypeId, path: string, s: string, name: string)
    requires g.Closed() && root in g.Types() && PlainNames(g) && g.objectType != root
    requires (g.objectType, path) in Gathered(g, root) && PlainName(name)
    ensures path != s + "/" + name
  {
    hide IsRoute, Gathered, Slashed, IsLabel, PlainNames, Graph.Closed, Graph.Types;
    var r, n, l := ShorterRoute(g, root, g.objectType, path);
    ObjectLabel(g, root, r, n, l);
    if path == s + "/" + name {
      PlainNameIsLabel(name);
      LastLabel(Slashed(r.labels), l, s, name);
      assert false;
    }
  }

  lemma PlainNameIsLabel(name: string)
    requires PlainName(name)
    ensures IsLabel(name)
  {
  }

  lemma ObjectLabel(g: Graph, root: TypeId, r: Route, n: nat, l: string)
    requires g.Closed() && root in g.Types() && PlainNames(g)
    requires IsRoute(g, root, r) && LeadsAt(g, r.Last(), n, l, g.objectType)
    ensures IsLabel(l) && !PlainName(l)
  {
    hide Graph.Succ, PlainNames, IsLabel, Position, SourceOf;
    var t := r.Last();
    var w := WalkOfRoute(g, r);
    EndIsType(g, root, w);
    RouteTypes(g, root, w, |w|);
    assert w[..|w|] == w;
    RouteOfWalk(g, root, w);
    SourceBack(g, t, n, l, g.objectType);
    var k := Position(g, t, n);
    assert g.Succ(t)[k] in g.Succ(t);
    LabelTellsEdge(g, t, g.Succ(t)[k], g.Succ(t)[k]);
    var a := AttributeCount(g, t);
    if n < a {
      var name := g.attributes[t][n].name;
      assert l == name + "/[i]";
      assert l[|name|] == '/';
    } else {
      assert l[0] == '$';
    }
  }

  lemma {:induction false} EndIsType(g: Graph, t: TypeId, w: Walk)
    requires g.Closed() && t in g.Types() && IsWalk(g, t, w)
    ensures End(g, t, w) in g.Types()
    decreases |w|
  {
    if w != [] {
      hide Graph.Succ;
      EndIsType(g, g.Succ(t)[w[0]].target, w[1..]);
    }
  }
}
