/** Which edges the search of TypePaths follows, said in terms of the registered
    types alone, and so which outputs it records. */
module TypeEdges {
  import opened TypePaths
  import opened TypeWalks

  // ---------------------------------------------------------------- parents

  /** Each type of the chain is the parent of the one before. */
  ghost predicate Parents(g: Graph, chain: seq<Tid>) {
    forall i :: 0 <= i < |chain| - 1 ==> chain[i] < |g.types| && chain[i + 1] == g.types[chain[i]].parent
  }

  /** Some chain of parents leads from j up to t. */
  ghost predicate Descends(g: Graph, j: Tid, t: Tid) {
    exists chain :: |chain| > 0 && chain[0] == j && chain[|chain| - 1] == t && Parents(g, chain)
  }

  lemma {:induction false} ClimbDescends(g: Graph, j: Tid, t: Tid)
    requires g.Valid() && j < |g.types|
    ensures Descends(g, j, g.Climb(j, t))
    decreases g.Rank(j)
  {
    if j == t || j == g.types[j].parent {
      var chain := [j];
      assert Parents(g, chain) && chain[0] == j && chain[|chain| - 1] == g.Climb(j, t);
    } else {
      var up := g.types[j].parent;
      ClimbDescends(g, up, t);
      var rest :| |rest| > 0 && rest[0] == up && rest[|rest| - 1] == g.Climb(up, t) && Parents(g, rest);
      var chain := [j] + rest;
      forall i | 0 <= i < |chain| - 1 ensures chain[i] < |g.types| && chain[i + 1] == g.types[chain[i]].parent {
        if i > 0 {
          assert chain[i] == rest[i - 1] && chain[i + 1] == rest[i];
        }
      }
      assert Parents(g, chain) && chain[|chain| - 1] == g.Climb(j, t);
    }
  }

  lemma {:induction false} ChainClimbs(g: Graph, chain: seq<Tid>)
    requires g.Valid() && |chain| > 0 && chain[0] < |g.types| && Parents(g, chain)
    ensures g.Climb(chain[0], chain[|chain| - 1]) == chain[|chain| - 1]
    decreases |chain|
  {
    var j, t := chain[0], chain[|chain| - 1];
    if j == t {
    } else {
      assert chain[1] == g.types[j].parent;
      assert forall i :: 0 <= i < |chain[1..]| ==> chain[1..][i] == chain[i + 1];
      ChainClimbs(g, chain[1..]);
    }
  }

  /** IsChildOf means a chain of parents to another type. */
  lemma ChildIff(g: Graph, j: Tid, t: Tid)
    requires g.Valid() && j < |g.types|
    ensures g.IsChildOf(j, t) <==> j != t && Descends(g, j, t)
  {
    ClimbDescends(g, j, t);
    if Descends(g, j, t) {
      var chain :| |chain| > 0 && chain[0] == j && chain[|chain| - 1] == t && Parents(g, chain);
      ChainClimbs(g, chain);
    }
  }

  // ------------------------------------------------------------------ edges

  /** What an attribute leads to: a pointer to the type it points to unless that is
      Object, a container to its items. */
  predicate AttributeLeads(g: Graph, a: Attribute, e: Edge) {
    || (a.checker.Pointer? && a.checker.pointee != g.objectType && e == Edge(a.name, a.checker.pointee))
    || (a.checker.Container? && e == Edge(a.name + "/[i]", a.checker.item))
  }

  /** The recorded pair joins two types. */
  predicate Joins(pair: (Tid, Tid), t: Tid, o: Tid) {
    pair == (t, o) || pair == (o, t)
  }

  predicate NamesType(g: Graph, e: Edge) {
    e.target < |g.types| && e.name == "$" + g.types[e.target].name
  }

  ghost predicate Rising(s: seq<nat>) {
    forall i, j :: 0 <= i < j < |s| ==> s[i] < s[j]
  }

  predicate LeadsOn(g: Graph, a: Attribute) {
    a.checker.Container? || (a.checker.Pointer? && a.checker.pointee != g.objectType)
  }

  lemma Appended(before: seq<nat>, last: nat)
    requires Rising(before) && forall i :: i in before ==> i < last
    ensures Rising(before + [last]) && forall i :: i in before + [last] <==> i in before || i == last
  {
    assert forall k :: 0 <= k < |before| ==> before[k] in before;
  }

  lemma {:induction false} AttributeOrder(g: Graph, attributes: seq<Attribute>) returns (at: seq<nat>)
    ensures Rising(at) && |at| == |AttributeEdges(g, attributes)|
    ensures forall i: nat :: i in at <==> i < |attributes| && LeadsOn(g, attributes[i])
    ensures forall k :: 0 <= k < |at| ==>
      at[k] < |attributes| && AttributeLeads(g, attributes[at[k]], AttributeEdges(g, attributes)[k])
  {
    if attributes == [] {
      at := [];
    } else {
      var last := |attributes| - 1;
      at := AttributeOrder(g, attributes[..last]);
      var a := attributes[last];
      if LeadsOn(g, a) {
        assert |AttributeEdge(g, a)| == 1 && AttributeLeads(g, a, AttributeEdge(g, a)[0]);
        Appended(at, last);
        at := at + [last];
      } else {
        assert AttributeEdge(g, a) == [];
      }
    }
  }

  lemma {:induction false} ChildOrder(g: Graph, t: Tid, n: nat) returns (at: seq<nat>)
    requires g.Valid() && n <= |g.types|
    ensures Rising(at) && |at| == |ChildEdges(g, t, n)|
    ensures forall j: nat :: j in at <==> j < n && g.IsChildOf(j, t)
    ensures forall k :: 0 <= k < |at| ==>
      ChildEdges(g, t, n)[k].target == at[k] && NamesType(g, ChildEdges(g, t, n)[k])
  {
    if n == 0 {
      at := [];
    } else {
      at := ChildOrder(g, t, n - 1);
      if g.IsChildOf(n - 1, t) {
        Appended(at, n - 1);
        at := at + [n - 1];
      }
    }
  }

  predicate Involves(pair: (Tid, Tid), t: Tid) {
    pair.0 == t || pair.1 == t
  }

  lemma {:induction false} AggregateOrder(g: Graph, t: Tid, pairs: seq<(Tid, Tid)>) returns (at: seq<nat>)
    requires forall i :: 0 <= i < |pairs| ==> pairs[i].0 < |g.types| && pairs[i].1 < |g.types|
    ensures Rising(at) && |at| == |AggregateEdges(g, t, pairs)|
    ensures forall i: nat :: i in at <==> i < |pairs| && Involves(pairs[i], t)
    ensures forall k :: 0 <= k < |at| ==>
      at[k] < |pairs| && Joins(pairs[at[k]], t, AggregateEdges(g, t, pairs)[k].target) &&
      NamesType(g, AggregateEdges(g, t, pairs)[k])
  {
    if pairs == [] {
      at := [];
    } else {
      var last := |pairs| - 1;
      at := AggregateOrder(g, t, pairs[..last]);
      if Involves(pairs[last], t) {
        Appended(at, last);
        at := at + [last];
      }
    }
  }

  /** The edges of a type, in order and each once: one for every attribute that leads
      on, one for every registered descendant, one for every recorded pair with the
      type in it. */
  lemma {:induction false} EdgesInOrder(g: Graph, t: Tid) returns (attributes: seq<nat>, children: seq<nat>, pairs: seq<nat>)
    requires g.Valid() && t < |g.types|
    ensures Rising(attributes) && Rising(children) && Rising(pairs)
    ensures |Edges(g, t)| == |attributes| + |children| + |pairs|
    ensures forall i: nat :: i in attributes <==>
      i < |g.types[t].attributes| && LeadsOn(g, g.types[t].attributes[i])
    ensures forall j: nat :: j in children <==> j < |g.types| && j != t && Descends(g, j, t)
    ensures forall i: nat :: i in pairs <==> i < |g.aggregates| && Involves(g.aggregates[i], t)
    ensures forall k :: 0 <= k < |attributes| ==>
      attributes[k] < |g.types[t].attributes| && AttributeLeads(g, g.types[t].attributes[attributes[k]], Edges(g, t)[k])
    ensures forall k :: 0 <= k < |children| ==>
      Edges(g, t)[|attributes| + k].target == children[k] && NamesType(g, Edges(g, t)[|attributes| + k])
    ensures forall k :: 0 <= k < |pairs| ==>
      pairs[k] < |g.aggregates| &&
      Joins(g.aggregates[pairs[k]], t, Edges(g, t)[|attributes| + |children| + k].target) &&
      NamesType(g, Edges(g, t)[|attributes| + |children| + k])
  {
    attributes := AttributeOrder(g, g.types[t].attributes);
    children := ChildOrder(g, t, |g.types|);
    pairs := AggregateOrder(g, t, g.aggregates);
    forall j: nat ensures j in children <==> j < |g.types| && j != t && Descends(g, j, t) {
      if j < |g.types| {
        ChildIff(g, j, t);
      }
    }
  }

  /** A step that the search can take from t, in terms of the registered types. */
  ghost predicate IsStep(g: Graph, t: Tid, e: Edge)
    requires t < |g.types|
  {
    || (exists i :: 0 <= i < |g.types[t].attributes| && AttributeLeads(g, g.types[t].attributes[i], e))
    || (NamesType(g, e) && e.target != t && Descends(g, e.target, t))
    || (NamesType(g, e) && exists i :: 0 <= i < |g.aggregates| && Joins(g.aggregates[i], t, e.target))
  }

  lemma {:induction false} AttributeIff(g: Graph, attributes: seq<Attribute>, e: Edge)
    ensures e in AttributeEdges(g, attributes) <==>
            exists i :: 0 <= i < |attributes| && AttributeLeads(g, attributes[i], e)
  {
    if attributes == [] {
    } else {
      var last := |attributes| - 1;
      var before := attributes[..last];
      AttributeIff(g, before, e);
      assert e in AttributeEdge(g, attributes[last]) <==> AttributeLeads(g, attributes[last], e);
      assert forall i :: 0 <= i < last ==> before[i] == attributes[i];
      if i :| 0 <= i < |attributes| && AttributeLeads(g, attributes[i], e) {
        assert i < last ==> AttributeLeads(g, before[i], e);
      }
    }
  }

  lemma {:induction false} ChildEdgeIff(g: Graph, t: Tid, n: nat, e: Edge)
    requires g.Valid() && n <= |g.types|
    ensures e in ChildEdges(g, t, n) <==> e.target < n && NamesType(g, e) && e.target != t && Descends(g, e.target, t)
  {
    if n == 0 {
    } else {
      ChildEdgeIff(g, t, n - 1, e);
      ChildIff(g, n - 1, t);
    }
  }

  lemma {:induction false} AggregateIff(g: Graph, t: Tid, pairs: seq<(Tid, Tid)>, e: Edge)
    requires forall i :: 0 <= i < |pairs| ==> pairs[i].0 < |g.types| && pairs[i].1 < |g.types|
    ensures e in AggregateEdges(g, t, pairs) <==>
            NamesType(g, e) && exists i :: 0 <= i < |pairs| && Joins(pairs[i], t, e.target)
  {
    if pairs == [] {
    } else {
      var last := |pairs| - 1;
      var before := pairs[..last];
      AggregateIff(g, t, before, e);
      assert forall i :: 0 <= i < last ==> before[i] == pairs[i];
      if i :| 0 <= i < |pairs| && Joins(pairs[i], t, e.target) {
        assert i < last ==> Joins(before[i], t, e.target);
      }
    }
  }

  /** The edges the search follows are exactly these steps. */
  lemma EdgeIff(g: Graph, t: Tid, e: Edge)
    requires g.Valid() && t < |g.types|
    ensures e in Edges(g, t) <==> IsStep(g, t, e)
  {
    AttributeIff(g, g.types[t].attributes, e);
    ChildEdgeIff(g, t, |g.types|, e);
    AggregateIff(g, t, g.aggregates, e);
  }

  // ----------------------------------------------------------------- outputs

  /** Steps one after the other, from the root. */
  ghost predicate IsTrail(g: Graph, root: Tid, es: seq<Edge>)
    requires root < |g.types|
    decreases |es|
  {
    es == [] ||
    (es[0].target < |g.types| && IsStep(g, root, es[0]) && IsTrail(g, es[0].target, es[1..]))
  }

  /** The types a trail comes to. */
  ghost function Stops(root: Tid, es: seq<Edge>): (stops: seq<Tid>)
    ensures |stops| == |es| + 1
    decreases |es|
  {
    if es == [] then [root] else [root] + Stops(es[0].target, es[1..])
  }

  ghost function Names(es: seq<Edge>): seq<string> {
    if es == [] then [] else [es[0].name] + Names(es[1..])
  }

  lemma {:induction false} WalkTrail(g: Graph, root: Tid, w: Walk) returns (es: seq<Edge>)
    requires g.Valid() && root < |g.types| && IsWalk(NetOf(g), root, w)
    ensures IsTrail(g, root, es) && Stops(root, es) == On(NetOf(g), root, w) && Names(es) == Labels(NetOf(g), root, w)
    decreases |w|
  {
    var net: Net := NetOf(g);
    if w == [] {
      es := [];
    } else {
      var e := net[root][w[0]];
      FirstEdge(net, root, w);
      var rest := WalkTrail(g, e.target, w[1..]);
      EdgeIff(g, root, e);
      es := [e] + rest;
      assert es[1..] == rest;
    }
  }

  lemma {:induction false} TrailWalk(g: Graph, root: Tid, es: seq<Edge>) returns (w: Walk)
    requires g.Valid() && root < |g.types| && IsTrail(g, root, es)
    ensures IsWalk(NetOf(g), root, w)
    ensures On(NetOf(g), root, w) == Stops(root, es) && Labels(NetOf(g), root, w) == Names(es)
    decreases |es|
  {
    var net: Net := NetOf(g);
    if es == [] {
      w := [];
    } else {
      EdgeIff(g, root, es[0]);
      var i :| 0 <= i < |net[root]| && net[root][i] == es[0];
      var rest := TrailWalk(g, es[0].target, es[1..]);
      w := [i] + rest;
      Prepended(net, root, i, rest);
    }
  }

  /** A type and a path are recorded exactly when some trail from the root, without
      coming to a type twice, ends at that type and has those names. */
  ghost predicate Recorded(g: Graph, root: Tid, o: Output, es: seq<Edge>)
    requires root < |g.types|
  {
    && IsTrail(g, root, es) && Fresh(Stops(root, es), [])
    && o == Output(Stops(root, es)[|es|], Show(Names(es)))
  }

  lemma {:induction false} RecordedTrail(g: Graph, root: Tid, k: nat) returns (es: seq<Edge>)
    requires g.Valid() && root < |g.types| && k < |Enumerate(g, root, [], [])|
    ensures Recorded(g, root, Enumerate(g, root, [], [])[k], es)
  {
    var net: Net, ws := NetOf(g), Walks(NetOf(g), root, []);
    GatherIsExact(g, root);
    var w := ws[k];
    assert w in ws && Simple(net, root, [], w);
    assert Describes(net, root, [], w, Enumerate(g, root, [], [])[k]);
    assert [] + Labels(net, root, w) == Labels(net, root, w);
    es := WalkTrail(g, root, w);
    assert |es| == |w|;
  }

  lemma {:induction false} TrailRecorded(g: Graph, root: Tid, o: Output, es: seq<Edge>)
    requires g.Valid() && root < |g.types| && Recorded(g, root, o, es)
    ensures o in Enumerate(g, root, [], [])
  {
    var net: Net, outs, ws := NetOf(g), Enumerate(g, root, [], []), Walks(NetOf(g), root, []);
    GatherIsExact(g, root);
    var w := TrailWalk(g, root, es);
    assert |es| == |w| && Simple(net, root, [], w);
    assert w in ws;
    var k :| 0 <= k < |ws| && ws[k] == w;
    assert Describes(net, root, [], w, outs[k]);
    assert [] + Labels(net, root, w) == Labels(net, root, w);
  }

  lemma {:induction false} GatherRecords(g: Graph, root: Tid, o: Output)
    requires g.Valid() && root < |g.types|
    ensures o in Enumerate(g, root, [], []) <==> exists es :: Recorded(g, root, o, es)
  {
    if o in Enumerate(g, root, [], []) {
      var k :| 0 <= k < |Enumerate(g, root, [], [])| && Enumerate(g, root, [], [])[k] == o;
      var es := RecordedTrail(g, root, k);
    }
    if es :| Recorded(g, root, o, es) {
      TrailRecorded(g, root, o, es);
    }
  }
}
