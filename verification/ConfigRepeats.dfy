/** When the search for configuration paths records something twice.

    The program calls a deduplication that works on a copy, so that repetitions stay and are
    printed. */
module ConfigRepeats {
  import opened ConfigPaths

  // ---------------------------------------------------------------- When records repeat

  ghost predicate Repeats<T>(s: seq<T>) {
    exists i, j :: 0 <= i < j < |s| && s[i] == s[j]
  }

  /** Nothing removes duplicates: a record is there twice exactly when two different simple walks
      have the same end and the same path. */
  lemma RepeatsIff(g: Graph, root: TypeId)
    requires g.Closed() && root in g.Types()
    ensures Repeats(Gathered(g, root)) <==>
            exists v, w :: v != w && Simple(g, root, {}, v) && Simple(g, root, {}, w)
                           && RecordOf(g, root, [], v) == RecordOf(g, root, [], w)
  {
    hide Walks, WalksVia, Simple, RecordOf, Before;
    var ws := Walks(g, root, {});
    WalksIncreasing(g, root, {});
    var rs := Gathered(g, root);
    if Repeats(rs) {
      var i, j :| 0 <= i < j < |rs| && rs[i] == rs[j];
      WalksAreSimple(g, root, {}, ws[i]);
      WalksAreSimple(g, root, {}, ws[j]);
      assert Before(ws[i], ws[j]);
      BeforeDiffers(ws[i], ws[j]);
      assert rs[i] == RecordOf(g, root, [], ws[i]) && rs[j] == RecordOf(g, root, [], ws[j]);
    }
    if v, w :| v != w && Simple(g, root, {}, v) && Simple(g, root, {}, w)
               && RecordOf(g, root, [], v) == RecordOf(g, root, [], w) {
      var i := RecordedAt(g, root, v);
      var j := RecordedAt(g, root, w);
      assert rs[i] == rs[j];
    }
  }

  lemma {:induction false} BeforeDiffers(a: Walk, b: Walk)
    requires Before(a, b)
    ensures a != b
    decreases |a|
  {
    if a != [] && a[0] == b[0] { BeforeDiffers(a[1..], b[1..]); }
  }

  /** What `Get(t)` returns holds a path twice exactly when a record of t is there twice. */
  lemma {:induction false} GetRepeatsIff(output: seq<Record>, t: TypeId)
    ensures Repeats(PathsOf(output, t)) <==> RecordRepeats(output, t)
  {
    if output != [] {
      hide Repeats, RecordRepeats;
      var n := |output| - 1;
      var init, r := output[..n], output[n];
      GetRepeatsIff(init, t);
      RecordRepeatsSnoc(init, r, t);
      PathsOfMember(init, t, r.1);
      RepeatsSnoc(PathsOf(init, t), r.1);
      assert init + [r] == output;
      if r.0 == t {
        assert r == (t, r.1);
      } else {
        assert PathsOf(init, t) + [] == PathsOf(init, t);
      }
    }
  }

  ghost predicate RecordRepeats(output: seq<Record>, t: TypeId) {
    exists i, j :: 0 <= i < j < |output| && output[i] == output[j] && output[i].0 == t
  }

  lemma RecordRepeatsSnoc(output: seq<Record>, r: Record, t: TypeId)
    ensures RecordRepeats(output + [r], t) <==> RecordRepeats(output, t) || (r.0 == t && r in output)
  {
    var all := output + [r];
    assert all[|output|] == r && forall i :: 0 <= i < |output| ==> all[i] == output[i];
  }

  lemma RepeatsSnoc<T>(s: seq<T>, x: T)
    ensures Repeats(s + [x]) <==> Repeats(s) || x in s
  {
    var all := s + [x];
    assert all[|s|] == x && forall i :: 0 <= i < |s| ==> all[i] == s[i];
  }

  /** Two equal edges out of the end of a simple walk, to a type that is not on the walk. */
  ghost predicate Twins(g: Graph, root: TypeId, w: Walk, i: nat, j: nat) {
    var es := g.Succ(End(g, root, w));
    && Simple(g, root, {}, w)
    && i < j < |es| && es[i] == es[j]
    && forall k :: 0 <= k <= |w| ==> End(g, root, w[..k]) != es[i].target
  }

  lemma {:induction false} LabelsConcat(g: Graph, tid: TypeId, a: Walk, b: Walk)
    requires IsWalk(g, tid, a)
    ensures Labels(g, tid, a + b) == Labels(g, tid, a) + Labels(g, End(g, tid, a), b)
    decreases |a|
  {
    hide Graph.Succ;
    if a == [] {
      assert a + b == b;
    } else {
      assert (a + b)[1..] == a[1..] + b;
      LabelsConcat(g, g.Succ(tid)[a[0]].target, a[1..], b);
    }
  }

  /** One edge more at the end of a walk. */
  lemma Extend(g: Graph, root: TypeId, w: Walk, i: nat)
    requires IsWalk(g, root, w) && i < |g.Succ(End(g, root, w))|
    ensures var e := g.Succ(End(g, root, w))[i];
      && IsWalk(g, root, w + [i]) && End(g, root, w + [i]) == e.target
      && Labels(g, root, w + [i]) == Labels(g, root, w) + [e.name]
  {
    WalkConcat(g, root, w, [i]);
    LabelsConcat(g, root, w, [i]);
    assert [i][1..] == [];
  }

  lemma ExtendSimple(g: Graph, root: TypeId, w: Walk, i: nat)
    requires Simple(g, root, {}, w) && i < |g.Succ(End(g, root, w))|
    ensures Simple(g, root, {}, w + [i]) <==>
            forall k :: 0 <= k <= |w| ==> End(g, root, w[..k]) != g.Succ(End(g, root, w))[i].target
  {
    hide Graph.Succ, Labels, End, IsWalk;
    Extend(g, root, w, i);
    var longer := w + [i];
    assert longer[..|longer|] == longer;
    assert forall k :: 0 <= k <= |w| ==> longer[..k] == w[..k];
  }

  /** Each such pair of edges makes a repeated record. */
  lemma TwinsRepeat(g: Graph, root: TypeId, w: Walk, i: nat, j: nat)
    requires g.Closed() && root in g.Types() && Twins(g, root, w, i, j)
    ensures Repeats(Gathered(g, root))
    ensures var e := g.Succ(End(g, root, w))[i];
      Repeats(PathsOf(Gathered(g, root), e.target))
      && PathString(Labels(g, root, w) + [e.name]) in PathsOf(Gathered(g, root), e.target)
  {
    hide Labels, End, PathsOf, Gathered, PathString, Graph.Succ, Graph.Closed, Repeats;
    ExtendSimple(g, root, w, i);
    ExtendSimple(g, root, w, j);
    Extend(g, root, w, i);
    Extend(g, root, w, j);
    assert (w + [i])[|w|] != (w + [j])[|w|];
    TwoWalksRepeat(g, root, w + [i], w + [j]);
    GatheredPaths(g, root, g.Succ(End(g, root, w))[i].target, PathString(Labels(g, root, w + [i])));
  }

  lemma TwoWalksRepeat(g: Graph, root: TypeId, v: Walk, w: Walk)
    requires g.Closed() && root in g.Types() && v != w
    requires Simple(g, root, {}, v) && Simple(g, root, {}, w)
    requires End(g, root, v) == End(g, root, w) && Labels(g, root, v) == Labels(g, root, w)
    ensures Repeats(Gathered(g, root)) && Repeats(PathsOf(Gathered(g, root), End(g, root, v)))
  {
    hide Walks, Simple, Labels, End, Gathered, PathsOf, Graph.Closed, Graph.Types, PathString;
    var i := RecordedAt(g, root, v);
    var j := RecordedAt(g, root, w);
    assert Gathered(g, root)[i] == Gathered(g, root)[j];
    GetRepeatsIff(Gathered(g, root), End(g, root, v));
  }

  lemma RecordedAt(g: Graph, root: TypeId, w: Walk) returns (i: nat)
    requires g.Closed() && root in g.Types() && Simple(g, root, {}, w)
    ensures |Gathered(g, root)| == |Walks(g, root, {})| && i < |Gathered(g, root)|
    ensures Walks(g, root, {})[i] == w && Gathered(g, root)[i] == RecordOf(g, root, [], w)
  {
    hide Simple, Walks, RecordOf, Graph.Closed, Graph.Types;
    WalksAreSimple(g, root, {}, w);
    var ws := Walks(g, root, {});
    i :| 0 <= i < |ws| && ws[i] == w;
  }

  // ---------------------------------------------------------------- Names without slashes

  /** Type and attribute names as the library uses them: no slash, no attribute that reads as an
      index or as a type, and no two attributes of a type with one name. */
  ghost predicate PlainNames(g: Graph) {
    && (forall t :: t in g.Types() ==> '/' !in t.name)
    && (forall t, k :: t in g.Types() && 0 <= k < |g.AttributesOf(t)| ==> PlainName(g.AttributesOf(t)[k].name))
    && (forall t, k, l :: t in g.Types() && 0 <= k < l < |g.AttributesOf(t)|
          ==> g.AttributesOf(t)[k].name != g.AttributesOf(t)[l].name)
  }

  const INDEX := "[i]"

  predicate PlainName(name: string) {
    '/' !in name && name != INDEX && (name == "" || name[0] != '$')
  }

  /** A label is one part of a path, or a part and an index. */
  predicate IsLabel(name: string) {
    ('/' !in name && name != INDEX)
    || (|name| >= 4 && name[|name| - 4..] == "/" + INDEX && '/' !in name[..|name| - 4])
  }

  lemma LastSlash(s: string, a: string, t: string, b: string)
    requires s + "/" + a == t + "/" + b && '/' !in a && '/' !in b
    ensures s == t && a == b
  {
    var all := s + "/" + a;
    assert all[|s|] == '/' && all[|t|] == '/';
    assert forall k :: |s| < k < |all| ==> all[k] == a[k - |s| - 1];
    assert forall k :: |t| < k < |all| ==> all[k] == b[k - |t| - 1];
    assert |s| == |t|;
    assert all[..|s|] == s && all[..|t|] == t;
    assert all[|s| + 1..] == a && all[|t| + 1..] == b;
  }

  /** The last label of a path can be told from the path. */
  lemma LastLabel(s: string, a: string, t: string, b: string)
    requires s + "/" + a == t + "/" + b && IsLabel(a) && IsLabel(b)
    ensures s == t && a == b
  {
    if '/' in a && '/' in b {
      Unindexed(s, a);
      Unindexed(t, b);
      LastSlash(s + "/" + a[..|a| - 4], INDEX, t + "/" + b[..|b| - 4], INDEX);
      LastSlash(s, a[..|a| - 4], t, b[..|b| - 4]);
      assert a == a[..|a| - 4] + a[|a| - 4..] && b == b[..|b| - 4] + b[|b| - 4..];
    } else if '/' in a {
      Unindexed(s, a);
      LastSlash(s + "/" + a[..|a| - 4], INDEX, t, b);
    } else if '/' in b {
      Unindexed(t, b);
      LastSlash(s, a, t + "/" + b[..|b| - 4], INDEX);
    } else {
      LastSlash(s, a, t, b);
    }
  }

  lemma Unindexed(s: string, a: string)
    requires |a| >= 4 && a[|a| - 4..] == "/" + INDEX
    ensures s + "/" + a == (s + "/" + a[..|a| - 4]) + "/" + INDEX
  {
    assert a == a[..|a| - 4] + a[|a| - 4..];
  }

  ghost predicate AreLabels(path: seq<string>) {
    forall k :: 0 <= k < |path| ==> IsLabel(path[k])
  }

  /** Different paths print differently. */
  lemma {:induction false} PathStringInjective(p: seq<string>, q: seq<string>)
    requires AreLabels(p) && AreLabels(q) && PathString(p) == PathString(q)
    ensures p == q
  {
    if p != [] && q != [] {
      var a, b := p[|p| - 1], q[|q| - 1];
      LastLabel(PathString(p[..|p| - 1]), a, PathString(q[..|q| - 1]), b);
      PathStringInjective(p[..|p| - 1], q[..|q| - 1]);
      assert p == p[..|p| - 1] + [a] && q == q[..|q| - 1] + [b];
    }
  }

  /** Where an edge comes from. */
  lemma {:induction false} AttributeEdgeFrom(g: Graph, attrs: seq<Attribute>, e: Edge)
    requires e in g.AttributeEdges(attrs)
    ensures exists k :: 0 <= k < |attrs| && g.AttributeEdge(attrs[k]) == [e]
  {
    var n := |attrs| - 1;
    if e in g.AttributeEdges(attrs[..n]) {
      AttributeEdgeFrom(g, attrs[..n], e);
      var k :| 0 <= k < n && g.AttributeEdge(attrs[..n][k]) == [e];
      assert attrs[k] == attrs[..n][k];
    } else {
      assert g.AttributeEdge(attrs[n]) == [e];
    }
  }

  lemma {:induction false} ChildEdgeNamed(g: Graph, tid: TypeId, tids: seq<TypeId>, e: Edge)
    requires e in g.ChildEdges(tid, tids)
    ensures e.name == "$" + e.target.name
  {
    var n := |tids| - 1;
    if e in g.ChildEdges(tid, tids[..n]) { ChildEdgeNamed(g, tid, tids[..n], e); }
  }

  lemma {:induction false} AggregateEdgeNamed(g: Graph, tid: TypeId, pairs: seq<(TypeId, TypeId)>, e: Edge)
    requires e in g.AggregateEdges(tid, pairs)
    ensures e.name == "$" + e.target.name
  {
    var n := |pairs| - 1;
    if e in g.AggregateEdges(tid, pairs[..n]) { AggregateEdgeNamed(g, tid, pairs[..n], e); }
  }

  ghost predicate FromAttribute(g: Graph, tid: TypeId, e: Edge, k: nat) {
    k < |g.AttributesOf(tid)| && g.AttributeEdge(g.AttributesOf(tid)[k]) == [e]
  }

  lemma EdgeFrom(g: Graph, tid: TypeId, e: Edge)
    requires e in g.Succ(tid)
    ensures e.name == "$" + e.target.name || exists k: nat :: FromAttribute(g, tid, e, k)
  {
    if e in g.AttributeEdges(g.AttributesOf(tid)) {
      AttributeEdgeFrom(g, g.AttributesOf(tid), e);
      var k :| 0 <= k < |g.AttributesOf(tid)| && g.AttributeEdge(g.AttributesOf(tid)[k]) == [e];
      assert FromAttribute(g, tid, e, k);
    } else if e in g.ChildEdges(tid, g.registered) {
      ChildEdgeNamed(g, tid, g.registered, e);
    } else {
      AggregateEdgeNamed(g, tid, g.aggregates, e);
    }
  }

  lemma Indexed(name: string)
    requires '/' !in name
    ensures IsLabel(name + "/[i]") && '/' in name + "/[i]" && (name + "/[i]")[..|name|] == name
  {
    var all := name + "/[i]";
    assert all[|name|] == '/';
    assert all[|all| - 4..] == "/" + INDEX && all[..|all| - 4] == name;
  }

  lemma IndexedInjective(a: string, b: string)
    requires a + "/[i]" == b + "/[i]"
    ensures a == b
  {
    assert (a + "/[i]")[..|a|] == a && (b + "/[i]")[..|b|] == b;
  }

  /** The name in an attribute's label, with or without the index. */
  predicate LabelOf(a: Attribute, name: string) {
    PlainName(a.name) && (name == a.name || name == a.name + "/[i]")
  }

  lemma AttributeLabel(a: Attribute, name: string)
    requires LabelOf(a, name)
    ensures IsLabel(name) && (name == "" || name[0] != '$') && (name == a.name <==> '/' !in name)
  {
    Indexed(a.name);
    if name != a.name && a.name != "" { assert name[0] == a.name[0]; }
  }

  lemma SameLabel(a: Attribute, b: Attribute, name: string)
    requires LabelOf(a, name) && LabelOf(b, name)
    ensures a.name == b.name
  {
    hide IsLabel, PlainName;
    AttributeLabel(a, name);
    AttributeLabel(b, name);
    if name != a.name { IndexedInjective(a.name, b.name); }
  }

  lemma AttributeLabelOf(g: Graph, tid: TypeId, e: Edge, k: nat)
    requires PlainNames(g) && tid in g.Types() && FromAttribute(g, tid, e, k)
    ensures LabelOf(g.AttributesOf(tid)[k], e.name)
  {
  }

  lemma TypeLabel(g: Graph, e: Edge)
    requires PlainNames(g) && e.target in g.Types() && e.name == "$" + e.target.name
    ensures IsLabel(e.name) && e.name[0] == '$' && e.name[1..] == e.target.name
  {
    assert e.name[0] == '$' && e.name[1..] == e.target.name;
  }

  lemma SameAttribute(g: Graph, tid: TypeId, k: nat, l: nat)
    requires PlainNames(g) && tid in g.Types() && k < |g.AttributesOf(tid)| && l < |g.AttributesOf(tid)|
    requires g.AttributesOf(tid)[k].name == g.AttributesOf(tid)[l].name
    ensures k == l
  {
  }

  /** With plain names the label tells the edge. */
  lemma LabelTellsEdge(g: Graph, tid: TypeId, d: Edge, e: Edge)
    requires PlainNames(g) && g.Closed() && tid in g.Types()
    requires d in g.Succ(tid) && e in g.Succ(tid)
    ensures IsLabel(e.name) && (d.name == e.name ==> d == e)
  {
    hide PlainNames, IsLabel, LabelOf, Graph.Succ, Graph.Closed, Graph.Types;
    var attrs := g.AttributesOf(tid);
    EdgeFrom(g, tid, d);
    EdgeFrom(g, tid, e);
    TargetIsType(g, tid, d);
    TargetIsType(g, tid, e);
    if k: nat :| FromAttribute(g, tid, e, k) {
      AttributeLabelOf(g, tid, e, k);
      AttributeLabel(attrs[k], e.name);
      if l: nat :| FromAttribute(g, tid, d, l) {
        AttributeLabelOf(g, tid, d, l);
        if d.name == e.name {
          SameLabel(attrs[k], attrs[l], d.name);
          SameAttribute(g, tid, k, l);
        }
      } else {
        TypeLabel(g, d);
      }
    } else {
      TypeLabel(g, e);
      if l: nat :| FromAttribute(g, tid, d, l) {
        AttributeLabelOf(g, tid, d, l);
        AttributeLabel(attrs[l], d.name);
      } else {
        TypeLabel(g, d);
      }
    }
  }

  lemma TargetIsType(g: Graph, tid: TypeId, e: Edge)
    requires g.Closed() && tid in g.Types() && e in g.Succ(tid)
    ensures e.target in g.Types()
  {
    var k :| 0 <= k < |g.Succ(tid)| && g.Succ(tid)[k] == e;
  }

  lemma {:induction false} WalkLabels(g: Graph, tid: TypeId, w: Walk)
    requires PlainNames(g) && g.Closed() && tid in g.Types() && IsWalk(g, tid, w)
    ensures AreLabels(Labels(g, tid, w)) && |Labels(g, tid, w)| == |w|
    decreases |w|
  {
    if w != [] {
      var e := g.Succ(tid)[w[0]];
      hide PlainNames, IsLabel;
      LabelTellsEdge(g, tid, e, e);
      WalkLabels(g, e.target, w[1..]);
    }
  }

  /** Two walks with the same labels part at two equal edges. */
  lemma {:induction false} Part(g: Graph, tid: TypeId, v: Walk, w: Walk) returns (k: nat)
    requires PlainNames(g) && g.Closed() && tid in g.Types()
    requires IsWalk(g, tid, v) && IsWalk(g, tid, w) && v != w
    requires Labels(g, tid, v) == Labels(g, tid, w)
    ensures k < |v| && k < |w| && v[..k] == w[..k] && v[k] != w[k]
    ensures SameEdge(g, End(g, tid, v[..k]), v[k], w[k])
    decreases |v|
  {
    hide PlainNames, Graph.Succ, Graph.Closed;
    WalkLabels(g, tid, v);
    WalkLabels(g, tid, w);
    FirstLabel(g, tid, v);
    FirstLabel(g, tid, w);
    var d, e := g.Succ(tid)[v[0]], g.Succ(tid)[w[0]];
    if v[0] != w[0] {
      LabelTellsEdge(g, tid, d, e);
      k := 0;
      assert v[..0] == [];
    } else {
      TargetIsType(g, tid, d);
      var l := Part(g, d.target, v[1..], w[1..]);
      k := l + 1;
      assert v[..k] == [v[0]] + v[1..][..l] && w[..k] == [w[0]] + w[1..][..l];
      assert v[..k][1..] == v[1..][..l];
    }
  }

  ghost predicate SameEdge(g: Graph, tid: TypeId, i: nat, j: nat) {
    i < |g.Succ(tid)| && j < |g.Succ(tid)| && g.Succ(tid)[i] == g.Succ(tid)[j]
  }

  lemma FirstLabel(g: Graph, tid: TypeId, w: Walk)
    requires IsWalk(g, tid, w) && w != []
    ensures var e := g.Succ(tid)[w[0]];
      && e in g.Succ(tid) && IsWalk(g, e.target, w[1..])
      && Labels(g, tid, w) == [e.name] + Labels(g, e.target, w[1..])
      && Labels(g, tid, w)[0] == e.name && Labels(g, tid, w)[1..] == Labels(g, e.target, w[1..])
  {
  }

  lemma SimplePrefix(g: Graph, root: TypeId, w: Walk, k: nat)
    requires Simple(g, root, {}, w) && k <= |w|
    ensures Simple(g, root, {}, w[..k])
  {
    WalkPrefix(g, root, w, k);
    assert forall i :: 0 <= i <= k ==> w[..k][..i] == w[..i];
  }

  /** With plain names the repeated records can be read off the graph: there are some exactly when
      two equal edges leave a type that a simple walk reaches, for a type not on the walk. */
  lemma RepeatsIffTwins(g: Graph, root: TypeId)
    requires g.Closed() && root in g.Types() && PlainNames(g)
    ensures Repeats(Gathered(g, root)) <==> exists w, i, j :: Twins(g, root, w, i, j)
  {
    if w, i, j :| Twins(g, root, w, i, j) { TwinsRepeat(g, root, w, i, j); }
    RepeatsIff(g, root);
    if v, w :| v != w && Simple(g, root, {}, v) && Simple(g, root, {}, w)
               && RecordOf(g, root, [], v) == RecordOf(g, root, [], w) {
      var k := PartSimple(g, root, v, w);
    }
  }

  lemma PartSimple(g: Graph, root: TypeId, v: Walk, w: Walk) returns (k: nat)
    requires g.Closed() && root in g.Types() && PlainNames(g)
    requires v != w && Simple(g, root, {}, v) && Simple(g, root, {}, w)
    requires RecordOf(g, root, [], v) == RecordOf(g, root, [], w)
    ensures k < |v| && k < |w|
    ensures Twins(g, root, v[..k], v[k], w[k]) || Twins(g, root, v[..k], w[k], v[k])
  {
    hide PlainNames, PathString;
    WalkLabels(g, root, v);
    WalkLabels(g, root, w);
    assert [] + Labels(g, root, v) == Labels(g, root, v) && [] + Labels(g, root, w) == Labels(g, root, w);
    PathStringInjective(Labels(g, root, v), Labels(g, root, w));
    k := Part(g, root, v, w);
    SimplePrefix(g, root, v, k);
    SimplePrefix(g, root, v, k + 1);
    assert v[..k + 1] == v[..k] + [v[k]];
    ExtendSimple(g, root, v[..k], v[k]);
  }

  /** An aggregation recorded twice, in either order of its types, makes such a pair of edges. */
  lemma AggregatedTwice(g: Graph, root: TypeId, w: Walk, k: nat, l: nat)
    requires g.Closed() && root in g.Types() && Simple(g, root, {}, w)
    requires k < l < |g.aggregates|
    requires var t, p, q := End(g, root, w), g.aggregates[k], g.aggregates[l];
      && (p.0 == t || p.1 == t) && (q.0 == t || q.1 == t) && g.Other(t, p) == g.Other(t, q)
      && forall m :: 0 <= m <= |w| ==> End(g, root, w[..m]) != g.Other(t, p)
    ensures var other := g.Other(End(g, root, w), g.aggregates[k]);
      && Repeats(PathsOf(Gathered(g, root), other))
      && PathString(Labels(g, root, w) + ["$" + other.name]) in PathsOf(Gathered(g, root), other)
  {
    hide Simple, End, Gathered, PathsOf, Labels, Graph.Succ, PathString, Repeats;
    var t := End(g, root, w);
    var i, j := AggregatePosition(g, t, k), AggregatePosition(g, t, l);
    AggregateAt(g, t, k);
    AggregateAt(g, t, l);
    PositionsGrow(g, t, k, l);
    assert Twins(g, root, w, i, j);
    TwinsRepeat(g, root, w, i, j);
  }

  /** Where the edge of aggregation k stands among the edges of tid, if it names tid. */
  ghost function AggregatePosition(g: Graph, tid: TypeId, k: nat): nat
    requires k < |g.aggregates|
  {
    |g.AttributeEdges(g.AttributesOf(tid))| + |g.ChildEdges(tid, g.registered)|
    + |g.AggregateEdges(tid, g.aggregates[..k])|
  }

  lemma AggregateAt(g: Graph, tid: TypeId, k: nat)
    requires k < |g.aggregates| && (g.aggregates[k].0 == tid || g.aggregates[k].1 == tid)
    ensures var i, other := AggregatePosition(g, tid, k), g.Other(tid, g.aggregates[k]);
      i < |g.Succ(tid)| && g.Succ(tid)[i] == Edge("$" + other.name, other)
  {
    hide Graph.Succ;
    AggregateStep(g, tid, k);
    var i := AggregatePosition(g, tid, k);
    assert g.Succ(tid)[i..i + 1][0] == g.Succ(tid)[i];
  }

  lemma PositionsGrow(g: Graph, tid: TypeId, k: nat, l: nat)
    requires k < l < |g.aggregates| && (g.aggregates[k].0 == tid || g.aggregates[k].1 == tid)
    ensures AggregatePosition(g, tid, k) < AggregatePosition(g, tid, l)
  {
    hide Graph.Succ;
    AggregateStep(g, tid, k);
    AggregatePrefix(g, tid, g.aggregates[..l], k + 1);
    assert g.aggregates[..l][..k + 1] == g.aggregates[..k + 1];
  }

  const OBJECT := TypeId("ns3::Object")
  const NODE := TypeId("ns3::Node")
  const ICMP := TypeId("ns3::Icmpv4L4Protocol")

  /** Node and Icmpv4L4Protocol, with the aggregation that is registered twice. */
  const NODE_GRAPH := Graph([NODE, ICMP], map[], {}, OBJECT, [(NODE, ICMP), (NODE, ICMP)])

  lemma IcmpIsRecordedTwice()
    ensures NODE_GRAPH.Closed() && NODE in NODE_GRAPH.Types()
    ensures Repeats(PathsOf(Gathered(NODE_GRAPH, NODE), ICMP))
  {
    var g := NODE_GRAPH;
    forall t, k | t in g.Types() && 0 <= k < |g.Succ(t)| ensures g.Succ(t)[k].target in g.Types() {
      NodeGraphEdges(t, g.Succ(t)[k]);
    }
    assert NODE in g.registered;
    var none: Walk := [];
    assert none[..0] == none;
    assert Simple(g, NODE, {}, none);
    AggregatedTwice(g, NODE, [], 0, 1);
  }

  lemma NodeGraphEdges(t: TypeId, e: Edge)
    requires t in NODE_GRAPH.Types() && e in NODE_GRAPH.Succ(t)
    ensures e.target in NODE_GRAPH.Types()
  {
    var g := NODE_GRAPH;
    assert g.AttributeEdges([]) == [];
    if e in g.ChildEdges(t, g.registered) {
      NoChildren(t, g.registered);
    } else {
      AggregateTarget(g, t, g.aggregates, e);
    }
  }

  lemma {:induction false} NoChildren(t: TypeId, tids: seq<TypeId>)
    ensures NODE_GRAPH.ChildEdges(t, tids) == []
  {
    if tids != [] { NoChildren(t, tids[..|tids| - 1]); }
  }

  lemma {:induction false} AggregateTarget(g: Graph, t: TypeId, pairs: seq<(TypeId, TypeId)>, e: Edge)
    requires e in g.AggregateEdges(t, pairs)
    ensures exists k :: 0 <= k < |pairs| && e.target in {pairs[k].0, pairs[k].1}
  {
    var n := |pairs| - 1;
    if e in g.AggregateEdges(t, pairs[..n]) {
      AggregateTarget(g, t, pairs[..n], e);
      var k :| 0 <= k < n && e.target in {pairs[..n][k].0, pairs[..n][k].1};
      assert pairs[k] == pairs[..n][k];
    } else {
      assert e.target == g.Other(t, pairs[n]);
    }
  }

  // ---------------------------------------------------------------- Repeated records over all roots

  /** Walk w from root i makes record r. */
  ghost predicate Makes(g: Graph, roots: seq<TypeId>, i: nat, w: Walk, r: Record) {
    i < |roots| && Simple(g, roots[i], {}, w) && RecordOf(g, roots[i], [], w) == r
  }

  lemma {:induction false} AllRecordsIff(g: Graph, roots: seq<TypeId>, r: Record)
    requires AreTypes(g, roots)
    ensures r in AllRecords(g, roots) <==> exists i, w :: Makes(g, roots, i, w, r)
    decreases |roots|
  {
    hide Simple, RecordOf, Gathered;
    if roots != [] {
      var n := |roots| - 1;
      var init := roots[..n];
      AllRecordsIff(g, init, r);
      GatheredRecords(g, roots[n], r);
      if i, w :| Makes(g, init, i, w, r) { assert Makes(g, roots, i, w, r); }
      if i: nat, w :| Makes(g, roots, i, w, r) {
        if i < n { assert Makes(g, init, i, w, r); }
      }
      if w :| Simple(g, roots[n], {}, w) && RecordOf(g, roots[n], [], w) == r { assert Makes(g, roots, n, w, r); }
    }
  }

  lemma RepeatsConcat<T>(a: seq<T>, b: seq<T>)
    ensures Repeats(a + b) <==> Repeats(a) || Repeats(b) || exists x :: x in a && x in b
  {
    var all := a + b;
    if i, j :| 0 <= i < j < |a| && a[i] == a[j] { assert all[i] == all[j]; }
    if i, j :| 0 <= i < j < |b| && b[i] == b[j] { assert all[|a| + i] == all[|a| + j]; }
    if x :| x in a && x in b {
      var i :| 0 <= i < |a| && a[i] == x;
      var j :| 0 <= j < |b| && b[j] == x;
      assert all[i] == all[|a| + j];
    }
    if i, j :| 0 <= i < j < |all| && all[i] == all[j] {
      if j < |a| {
        assert a[i] == a[j];
      } else if i < |a| {
        assert a[i] in a && b[j - |a|] in b;
      } else {
        assert b[i - |a|] == b[j - |a|];
      }
    }
  }

  /** Two different walks, or walks from two roots, make one record. */
  ghost predicate Clash(g: Graph, roots: seq<TypeId>, i: nat, v: Walk, j: nat, w: Walk, r: Record) {
    Makes(g, roots, i, v, r) && Makes(g, roots, j, w, r) && i <= j && (i == j ==> v != w)
  }

  ghost predicate AnyClash(g: Graph, roots: seq<TypeId>) {
    exists i, v, j, w, r :: Clash(g, roots, i, v, j, w, r)
  }

  /** Both from the last root. */
  ghost predicate ClashInLast(g: Graph, roots: seq<TypeId>)
    requires roots != []
  {
    var n: nat := |roots| - 1;
    exists v, w, r :: Clash(g, roots, n, v, n, w, r)
  }

  /** One from the last root, one from an earlier one. */
  ghost predicate ClashWithLast(g: Graph, roots: seq<TypeId>)
    requires roots != []
  {
    var n: nat := |roots| - 1;
    exists i: nat, v, w, r :: i < n && Clash(g, roots, i, v, n, w, r)
  }

  /** After the searches from all roots a record is there twice exactly when two different walks,
      or walks from two places in the list of roots, make it. */
  lemma {:induction false} AllRepeatIff(g: Graph, roots: seq<TypeId>)
    requires AreTypes(g, roots)
    ensures Repeats(AllRecords(g, roots)) <==> AnyClash(g, roots)
    decreases |roots|
  {
    if roots != [] {
      hide Repeats, Gathered, AllRecords, AreTypes, AnyClash, ClashInLast, ClashWithLast;
      var n := |roots| - 1;
      LastRoot(g, roots);
      AllRepeatIff(g, roots[..n]);
      RepeatsConcat(AllRecords(g, roots[..n]), Gathered(g, roots[n]));
      InLastIff(g, roots);
      WithLastIff(g, roots);
      ClashSplit(g, roots);
    } else {
      assert AllRecords(g, roots) == [];
    }
  }

  lemma LastRoot(g: Graph, roots: seq<TypeId>)
    requires AreTypes(g, roots) && roots != []
    ensures var n := |roots| - 1;
      && AreTypes(g, roots[..n]) && g.Closed() && roots[n] in g.Types()
      && AllRecords(g, roots) == AllRecords(g, roots[..n]) + Gathered(g, roots[n])
  {
  }

  lemma InLastIff(g: Graph, roots: seq<TypeId>)
    requires roots != [] && g.Closed() && roots[|roots| - 1] in g.Types()
    ensures Repeats(Gathered(g, roots[|roots| - 1])) <==> ClashInLast(g, roots)
  {
    hide Repeats, Simple, RecordOf, Gathered;
    var n := |roots| - 1;
    RepeatsIff(g, roots[n]);
    if v, w :| v != w && Simple(g, roots[n], {}, v) && Simple(g, roots[n], {}, w)
               && RecordOf(g, roots[n], [], v) == RecordOf(g, roots[n], [], w) {
      assert Clash(g, roots, n, v, n, w, RecordOf(g, roots[n], [], v));
    }
  }

  lemma WithLastIff(g: Graph, roots: seq<TypeId>)
    requires AreTypes(g, roots) && roots != []
    ensures var n := |roots| - 1;
      && AreTypes(g, roots[..n]) && roots[n] in g.Types()
      && ((exists r :: r in AllRecords(g, roots[..n]) && r in Gathered(g, roots[n])) <==> ClashWithLast(g, roots))
  {
    hide Simple, RecordOf, Gathered, AllRecords;
    var n: nat := |roots| - 1;
    var init := roots[..n];
    if r :| r in AllRecords(g, init) && r in Gathered(g, roots[n]) {
      AllRecordsIff(g, init, r);
      GatheredRecords(g, roots[n], r);
      var i, v :| Makes(g, init, i, v, r);
      var w :| Simple(g, roots[n], {}, w) && RecordOf(g, roots[n], [], w) == r;
      assert Clash(g, roots, i, v, n, w, r);
    }
    if ClashWithLast(g, roots) {
      var i: nat, v, w, r :| i < n && Clash(g, roots, i, v, n, w, r);
      AllRecordsIff(g, init, r);
      GatheredRecords(g, roots[n], r);
      assert Makes(g, init, i, v, r);
    }
  }

  lemma ClashSplit(g: Graph, roots: seq<TypeId>)
    requires roots != []
    ensures AnyClash(g, roots) <==>
            AnyClash(g, roots[..|roots| - 1]) || ClashInLast(g, roots) || ClashWithLast(g, roots)
  {
    hide Simple, RecordOf;
    var n: nat := |roots| - 1;
    var init := roots[..n];
    if AnyClash(g, init) {
      var i, v, j, w, r :| Clash(g, init, i, v, j, w, r);
      assert Clash(g, roots, i, v, j, w, r);
    }
    if AnyClash(g, roots) {
      var i: nat, v, j: nat, w, r :| Clash(g, roots, i, v, j, w, r);
      if j < n { assert Clash(g, init, i, v, j, w, r); }
    }
  }
}
