/** One half of what Uniquefy promises and Gather does not deliver: an output without
    duplicates.  Which type graphs have one all the same, by their edges. */
module TypePromise {
  import opened TypePaths
  import opened TypeWalks

  /** The output that stands for a walk: its end, and the names on the way. */
  ghost function OutputOf(net: Net, root: Tid, w: Walk): Output
    requires Ranged(net) && root < |net|
  {
    if IsWalk(net, root, w) then Output(End(net, root, w), Show(Labels(net, root, w))) else Output(root, "")
  }

  /** The k-th output stands for the k-th of the repetition-free walks. */
  ghost predicate Gathered(net: Net, root: Tid, outs: seq<Output>, ws: seq<Walk>)
    requires Ranged(net) && root < |net|
  {
    && |outs| == |ws| && Increasing(ws)
    && (forall k :: 0 <= k < |ws| ==> outs[k] == OutputOf(net, root, ws[k]))
    && (forall w :: w in ws <==> Simple(net, root, [], w))
  }

  lemma {:induction false} GatherGathers(g: Graph, root: Tid)
    requires g.Valid() && root < |g.types|
    ensures Gathered(NetOf(g), root, Enumerate(g, root, [], []), Walks(NetOf(g), root, []))
  {
    GatherIsExact(g, root);
    var net, outs, ws := NetOf(g), Enumerate(g, root, [], []), Walks(NetOf(g), root, []);
    forall k | 0 <= k < |ws| ensures outs[k] == OutputOf(net, root, ws[k]) {
      assert Describes(net, root, [], ws[k], outs[k]);
      assert [] + Labels(net, root, ws[k]) == Labels(net, root, ws[k]);
    }
  }

  lemma {:induction false} BeforeAsymmetric(a: Walk, b: Walk)
    requires Before(a, b)
    ensures !Before(b, a)
    decreases |a|
  {
    if a == [] {
    } else if a[0] == b[0] {
      BeforeAsymmetric(a[1..], b[1..]);
    }
  }

  lemma IndicesOf(ws: seq<Walk>, a: Walk, b: Walk) returns (i: nat, j: nat)
    requires Increasing(ws) && a in ws && b in ws && Before(a, b)
    ensures i < j < |ws| && ws[i] == a && ws[j] == b
  {
    i :| i < |ws| && ws[i] == a;
    j :| j < |ws| && ws[j] == b;
    BeforeAsymmetric(a, b);
    BeforeIrreflexive(a);
  }

  // ---------------------------------------------------------- edges and walks

  /** Some walk from the root comes to t without passing x. */
  ghost predicate Reaches(net: Net, root: Tid, t: Tid, x: Tid)
    requires Ranged(net) && root < |net|
  {
    exists w :: IsWalk(net, root, w) && End(net, root, w) == t && x !in On(net, root, w)
  }

  ghost predicate Reached(net: Net, root: Tid, t: Tid)
    requires Ranged(net) && root < |net|
  {
    exists w :: IsWalk(net, root, w) && End(net, root, w) == t
  }

  lemma FrontOfCons(t: Tid, s: seq<Tid>, n: nat)
    requires n <= |s|
    ensures ([t] + s)[..n + 1] == [t] + s[..n]
  {
  }

  /** A walk that goes on. */
  lemma {:induction false} Extended(net: Net, root: Tid, w: Walk, v: Walk)
    requires Ranged(net) && root < |net| && IsWalk(net, root, w) && IsWalk(net, End(net, root, w), v)
    ensures IsWalk(net, root, w + v) && End(net, root, w + v) == End(net, End(net, root, w), v)
    ensures Labels(net, root, w + v) == Labels(net, root, w) + Labels(net, End(net, root, w), v)
    decreases |w|
  {
    if w == [] {
      assert w + v == v;
    } else {
      FirstEdge(net, root, w);
      var rest := w[1..];
      Extended(net, net[root][w[0]].target, rest, v);
      Prepended(net, root, w[0], rest + v);
      assert [w[0]] + (rest + v) == w + v;
    }
  }

  lemma Associates(t: Tid, a: seq<Tid>, b: seq<Tid>)
    ensures [t] + (a + b) == [t] + a + b
  {
  }

  lemma {:induction false} OnExtended(net: Net, root: Tid, w: Walk, v: Walk)
    requires Ranged(net) && root < |net| && IsWalk(net, root, w) && IsWalk(net, End(net, root, w), v)
    ensures IsWalk(net, root, w + v)
    ensures On(net, root, w + v) == On(net, root, w)[..|w|] + On(net, End(net, root, w), v)
    decreases |w|
  {
    if w == [] {
      assert w + v == v;
    } else {
      FirstEdge(net, root, w);
      var x, rest := net[root][w[0]].target, w[1..];
      OnExtended(net, x, rest, v);
      Prepended(net, root, w[0], rest + v);
      assert [w[0]] + (rest + v) == w + v;
      FrontOfCons(root, On(net, x, rest), |rest|);
      Associates(root, On(net, x, rest)[..|rest|], On(net, End(net, root, w), v));
    }
  }

  lemma OneEdge(net: Net, t: Tid, i: nat)
    requires Ranged(net) && t < |net| && i < |net[t]|
    ensures IsWalk(net, t, [i]) && End(net, t, [i]) == net[t][i].target
    ensures Labels(net, t, [i]) == [net[t][i].name] && On(net, t, [i]) == [t, net[t][i].target]
  {
    var none: Walk := [];
    Prepended(net, t, i, none);
    assert [i] + none == [i];
  }

  /** A simple walk goes on along an edge to a new type. */
  lemma {:induction false} SimpleEdge(net: Net, root: Tid, w: Walk, i: nat)
    requires Ranged(net) && root < |net| && Simple(net, root, [], w) && i < |net[End(net, root, w)]|
    requires net[End(net, root, w)][i].target !in On(net, root, w)
    ensures var t := End(net, root, w);
      && Simple(net, root, [], w + [i]) && End(net, root, w + [i]) == net[t][i].target
      && Labels(net, root, w + [i]) == Labels(net, root, w) + [net[t][i].name]
      && On(net, root, w + [i]) == On(net, root, w) + [net[t][i].target]
  {
    var t, on := End(net, root, w), On(net, root, w);
    OneEdge(net, t, i);
    Extended(net, root, w, [i]);
    OnExtended(net, root, w, [i]);
    assert on == on[..|w|] + [t];
    assert On(net, root, w + [i]) == on + [net[t][i].target];
  }

  lemma AvoidingIsSimple(net: Net, root: Tid, t: Tid, x: Tid) returns (w: Walk)
    requires Ranged(net) && root < |net| && Reaches(net, root, t, x)
    ensures Simple(net, root, [], w) && End(net, root, w) == t && x !in On(net, root, w)
  {
    var any :| IsWalk(net, root, any) && End(net, root, any) == t && x !in On(net, root, any);
    w := CutLoops(net, root, [x], any);
  }

  lemma BeforePrefix(s: Walk, a: Walk, b: Walk)
    requires Before(a, b)
    ensures Before(s + a, s + b)
    decreases |s|
  {
    if s == [] {
      assert s + a == a && s + b == b;
    } else {
      BeforePrefix(s[1..], a, b);
      assert (s + a)[1..] == s[1..] + a && (s + b)[1..] == s[1..] + b;
    }
  }

  // --------------------------------------------------------------- duplicates

  ghost predicate NoDuplicates(outs: seq<Output>) {
    forall i, j :: 0 <= i < j < |outs| ==> outs[i] != outs[j]
  }

  /** Some type offers the same edge twice, and a walk comes to it that has not been
      at the edge's target: for example a child that is also aggregated. */
  ghost predicate SameEdgeTwice(net: Net, root: Tid, t: Tid, i: nat, j: nat)
    requires Ranged(net) && root < |net|
  {
    && t < |net| && i < j < |net[t]| && net[t][i] == net[t][j]
    && Reaches(net, root, t, net[t][i].target)
  }

  /** Such an edge is recorded twice, whatever the names are. */
  lemma {:induction false} TwiceIsDuplicate(
      net: Net, root: Tid, outs: seq<Output>, ws: seq<Walk>, t: Tid, i: nat, j: nat)
    requires Ranged(net) && root < |net| && Gathered(net, root, outs, ws) && SameEdgeTwice(net, root, t, i, j)
    ensures !NoDuplicates(outs)
  {
    var w := AvoidingIsSimple(net, root, t, net[t][i].target);
    SimpleEdge(net, root, w, i);
    SimpleEdge(net, root, w, j);
    var a, b := w + [i], w + [j];
    BeforePrefix(w, [i], [j]);
    var m, n := IndicesOf(ws, a, b);
    assert outs[m] == OutputOf(net, root, a) == OutputOf(net, root, b) == outs[n];
  }

  const INDEX := "/[i]"

  predicate Plain(s: string) {
    '/' !in s && (s == "" || s[0] != '[')
  }

  /** A name without slashes, or one of a container's items. */
  predicate GoodName(n: string) {
    Plain(n) || (|n| >= 4 && n[|n| - 4..] == INDEX && Plain(n[..|n| - 4]))
  }

  /** The name of an edge tells its target, among the edges of one type, and paths
      can be split into names. */
  ghost predicate NamesTell(net: Net)
    requires Ranged(net)
  {
    && (forall t, i :: 0 <= t < |net| && 0 <= i < |net[t]| ==> GoodName(net[t][i].name))
    && (forall t, i, j :: 0 <= t < |net| && 0 <= i < |net[t]| && 0 <= j < |net[t]| ==>
          net[t][i].name == net[t][j].name ==> net[t][i].target == net[t][j].target)
  }

  /** The part of a text after its last slash. */
  function Tail(s: string): string {
    if s == "" || s[|s| - 1] == '/' then "" else Tail(s[..|s| - 1]) + [s[|s| - 1]]
  }

  lemma {:induction false} TailOf(a: string, n: string)
    requires '/' !in n
    ensures Tail(a + "/" + n) == n
  {
    var s := a + "/" + n;
    if n == "" {
      assert s[|s| - 1] == '/';
    } else {
      var last := |n| - 1;
      assert s[..|s| - 1] == a + "/" + n[..last] && s[|s| - 1] == n[last];
      TailOf(a, n[..last]);
      assert n == n[..last] + [n[last]];
    }
  }

  lemma SameTail(a: string, n: string, b: string, m: string)
    requires '/' !in n && '/' !in m && a + "/" + n == b + "/" + m
    ensures a == b && n == m
  {
    TailOf(a, n);
    TailOf(b, m);
    assert a == (a + "/" + n)[..|a|] && b == (b + "/" + m)[..|b|];
  }

  lemma Indexed(a: string, n: string)
    requires |n| >= 4 && n[|n| - 4..] == INDEX
    ensures a + "/" + n == a + "/" + n[..|n| - 4] + "/" + "[i]"
  {
    assert n == n[..|n| - 4] + INDEX && INDEX == "/" + "[i]";
  }

  lemma LastName(a: string, n: string, b: string, m: string)
    requires GoodName(n) && GoodName(m) && a + "/" + n == b + "/" + m
    ensures a == b && n == m
  {
    var item := "[i]";
    if Plain(n) && Plain(m) {
      SameTail(a, n, b, m);
    } else if Plain(n) {
      Indexed(b, m);
      SameTail(a, n, b + "/" + m[..|m| - 4], item);
    } else if Plain(m) {
      Indexed(a, n);
      SameTail(a + "/" + n[..|n| - 4], item, b, m);
    } else {
      Indexed(a, n);
      Indexed(b, m);
      SameTail(a + "/" + n[..|n| - 4], item, b + "/" + m[..|m| - 4], item);
      SameTail(a, n[..|n| - 4], b, m[..|m| - 4]);
      assert n == n[..|n| - 4] + INDEX && m == m[..|m| - 4] + INDEX;
    }
  }

  ghost predicate AllGood(p: seq<string>) {
    forall k :: 0 <= k < |p| ==> GoodName(p[k])
  }

  lemma {:induction false} ShowInjective(p: seq<string>, q: seq<string>)
    requires AllGood(p) && AllGood(q) && Show(p) == Show(q)
    ensures p == q
    decreases |p|
  {
    if p == [] || q == [] {
      assert p == [] && q == [];
    } else {
      var m, n := |p| - 1, |q| - 1;
      LastName(Show(p[..m]), p[m], Show(q[..n]), q[n]);
      ShowInjective(p[..m], q[..n]);
    }
  }

  lemma {:induction false} LabelsGood(net: Net, root: Tid, w: Walk)
    requires Ranged(net) && root < |net| && NamesTell(net) && IsWalk(net, root, w)
    ensures AllGood(Labels(net, root, w))
    decreases |w|
  {
    if w == [] {
    } else {
      LabelsGood(net, net[root][w[0]].target, w[1..]);
    }
  }

  lemma SimpleTail(net: Net, root: Tid, avoid: seq<Tid>, w: Walk)
    requires Ranged(net) && root < |net| && Simple(net, root, avoid, w) && w != []
    ensures w[0] < |net[root]| && Simple(net, net[root][w[0]].target, avoid + [root], w[1..])
    ensures net[root][w[0]].target !in avoid + [root]
  {
    FirstEdge(net, root, w);
    var on := On(net, net[root][w[0]].target, w[1..]);
    FreshCons(root, on, avoid);
    assert on[0] == net[root][w[0]].target;
  }

  /** Where two simple walks with the same names part, they take the same edge twice. */
  lemma {:induction false} Parting(net: Net, root: Tid, avoid: seq<Tid>, a: Walk, b: Walk)
    returns (w: Walk, i: nat, j: nat)
    requires Ranged(net) && root < |net| && NamesTell(net) && a != b
    requires Simple(net, root, avoid, a) && Simple(net, root, avoid, b) && Labels(net, root, a) == Labels(net, root, b)
    ensures IsWalk(net, root, w) && i < |net[End(net, root, w)]| && j < |net[End(net, root, w)]|
    ensures i != j && net[End(net, root, w)][i] == net[End(net, root, w)][j]
    ensures net[End(net, root, w)][i].target !in avoid + On(net, root, w)
    decreases |a|
  {
    assert a != [] && b != [];
    FirstEdge(net, root, a);
    FirstEdge(net, root, b);
    SimpleTail(net, root, avoid, a);
    SimpleTail(net, root, avoid, b);
    var x := net[root][a[0]].target;
    assert Labels(net, root, a)[0] == net[root][a[0]].name && Labels(net, root, b)[0] == net[root][b[0]].name;
    if a[0] == b[0] {
      assert Labels(net, root, a)[1..] == Labels(net, x, a[1..]) && Labels(net, root, b)[1..] == Labels(net, x, b[1..]);
      assert a == [a[0]] + a[1..] && b == [b[0]] + b[1..];
      var rest;
      rest, i, j := Parting(net, x, avoid + [root], a[1..], b[1..]);
      w := [a[0]] + rest;
      Prepended(net, root, a[0], rest);
      assert avoid + [root] + On(net, x, rest) == avoid + On(net, root, w);
    } else {
      w, i, j := [], a[0], b[0];
      assert On(net, root, w) == [root];
    }
  }

  lemma TwiceFrom(net: Net, root: Tid, w: Walk, i: nat, j: nat)
    requires Ranged(net) && root < |net| && IsWalk(net, root, w)
    requires i < |net[End(net, root, w)]| && j < |net[End(net, root, w)]| && i != j
    requires net[End(net, root, w)][i] == net[End(net, root, w)][j]
    requires net[End(net, root, w)][i].target !in On(net, root, w)
    ensures exists t, m, n :: SameEdgeTwice(net, root, t, m, n)
  {
    var t := End(net, root, w);
    assert Reaches(net, root, t, net[t][i].target) && net[t][i].target == net[t][j].target;
    if i < j {
      assert SameEdgeTwice(net, root, t, i, j);
    } else {
      assert SameEdgeTwice(net, root, t, j, i);
    }
  }

  /** With telling names there is no other reason for a duplicate. */
  lemma {:induction false} DuplicateIsTwice(net: Net, root: Tid, outs: seq<Output>, ws: seq<Walk>)
    requires Ranged(net) && root < |net| && NamesTell(net)
    requires Gathered(net, root, outs, ws) && !NoDuplicates(outs)
    ensures exists t, i, j :: SameEdgeTwice(net, root, t, i, j)
  {
    var m, n :| 0 <= m < n < |outs| && outs[m] == outs[n];
    var a, b := ws[m], ws[n];
    assert a in ws && b in ws && Before(a, b);
    BeforeIrreflexive(a);
    LabelsGood(net, root, a);
    LabelsGood(net, root, b);
    ShowInjective(Labels(net, root, a), Labels(net, root, b));
    var w, i, j := Parting(net, root, [], a, b);
    TwiceFrom(net, root, w, i, j);
  }

  /** The output is free of duplicates exactly when no type offers the same edge
      twice to a type that can still be new when the search comes to it. */
  lemma {:induction false} NoDuplicatesIff(g: Graph, root: Tid)
    requires g.Valid() && root < |g.types| && NamesTell(NetOf(g))
    ensures NoDuplicates(Enumerate(g, root, [], [])) <==>
            !exists t, i, j :: SameEdgeTwice(NetOf(g), root, t, i, j)
  {
    var net, outs, ws := NetOf(g), Enumerate(g, root, [], []), Walks(NetOf(g), root, []);
    GatherGathers(g, root);
    if t, i, j :| SameEdgeTwice(net, root, t, i, j) {
      TwiceIsDuplicate(net, root, outs, ws, t, i, j);
    }
    if !NoDuplicates(outs) {
      DuplicateIsTwice(net, root, outs, ws);
    }
  }

  // --------------------------------------------------------- registered names

  predicate AttributeName(n: string) {
    '/' !in n && (n == "" || (n[0] != '[' && n[0] != '$'))
  }

  ghost predicate AttributeNames(attributes: seq<Attribute>) {
    && (forall i, j :: 0 <= i < j < |attributes| ==> attributes[i].name != attributes[j].name)
    && (forall i :: 0 <= i < |attributes| ==> AttributeName(attributes[i].name))
  }

  /** Type names differ, attribute names of one type differ, and no name contains a
      slash or starts like an item or a type in a path. */
  ghost predicate WellRegistered(g: Graph) {
    && (forall t, u :: 0 <= t < u < |g.types| ==> g.types[t].name != g.types[u].name)
    && (forall t :: 0 <= t < |g.types| ==> '/' !in g.types[t].name && AttributeNames(g.types[t].attributes))
  }

  ghost predicate FromAttribute(g: Graph, attributes: seq<Attribute>, e: Edge) {
    exists i :: 0 <= i < |attributes| && AttributeEdge(g, attributes[i]) == [e]
  }

  /** The edge is named after its target. */
  predicate FromType(g: Graph, e: Edge) {
    e.target < |g.types| && e.name == "$" + g.types[e.target].name
  }

  lemma {:induction false} AttributeKind(g: Graph, attributes: seq<Attribute>, e: Edge)
    requires e in AttributeEdges(g, attributes)
    ensures FromAttribute(g, attributes, e)
  {
    var last := |attributes| - 1;
    if e in AttributeEdges(g, attributes[..last]) {
      AttributeKind(g, attributes[..last], e);
      var i :| 0 <= i < last && AttributeEdge(g, attributes[..last][i]) == [e];
      assert AttributeEdge(g, attributes[i]) == [e];
    } else {
      assert AttributeEdge(g, attributes[last]) == [e];
    }
  }

  lemma {:induction false} ChildKind(g: Graph, tid: Tid, n: nat, e: Edge)
    requires g.Valid() && n <= |g.types| && e in ChildEdges(g, tid, n)
    ensures FromType(g, e)
  {
    if e in ChildEdges(g, tid, n - 1) {
      ChildKind(g, tid, n - 1, e);
    }
  }

  lemma {:induction false} AggregateKind(g: Graph, tid: Tid, pairs: seq<(Tid, Tid)>, e: Edge)
    requires forall i :: 0 <= i < |pairs| ==> pairs[i].0 < |g.types| && pairs[i].1 < |g.types|
    requires e in AggregateEdges(g, tid, pairs)
    ensures FromType(g, e)
  {
    var last := |pairs| - 1;
    if e in AggregateEdges(g, tid, pairs[..last]) {
      AggregateKind(g, tid, pairs[..last], e);
    }
  }

  lemma EdgeKind(g: Graph, tid: Tid, e: Edge)
    requires g.Valid() && tid < |g.types| && e in Edges(g, tid)
    ensures FromAttribute(g, g.types[tid].attributes, e) || FromType(g, e)
  {
    if e in AttributeEdges(g, g.types[tid].attributes) {
      AttributeKind(g, g.types[tid].attributes, e);
    } else if e in ChildEdges(g, tid, |g.types|) {
      ChildKind(g, tid, |g.types|, e);
    } else {
      AggregateKind(g, tid, g.aggregates, e);
    }
  }

  /** An attribute's edge carries its name, as it is or with the item suffix. */
  lemma AttributeEdgeName(g: Graph, a: Attribute, e: Edge)
    requires AttributeEdge(g, a) == [e] && AttributeName(a.name)
    ensures GoodName(e.name) && (e.name != "" ==> e.name[0] != '$')
    ensures e.name == a.name || e.name == a.name + INDEX
    ensures e.name == a.name <==> '/' !in e.name
  {
    if e.name == a.name + INDEX {
      assert e.name[|a.name|] == '/';
      assert e.name[..|a.name|] == a.name && e.name[|a.name|..] == INDEX;
    }
  }

  lemma TypeEdgeName(g: Graph, e: Edge)
    requires WellRegistered(g) && FromType(g, e)
    ensures GoodName(e.name) && e.name != "" && e.name[0] == '$'
  {
  }

  /** The first character tells where an edge comes from. */
  lemma KindByName(g: Graph, tid: Tid, e: Edge)
    requires g.Valid() && WellRegistered(g) && tid < |g.types| && e in Edges(g, tid)
    ensures GoodName(e.name) && (FromType(g, e) <==> e.name != "" && e.name[0] == '$')
  {
    if FromType(g, e) {
      TypeEdgeName(g, e);
    } else {
      var attributes := g.types[tid].attributes;
      EdgeKind(g, tid, e);
      var i :| 0 <= i < |attributes| && AttributeEdge(g, attributes[i]) == [e];
      AttributeEdgeName(g, attributes[i], e);
    }
  }

  lemma SuffixCancels(a: string, b: string)
    ensures a + INDEX == b + INDEX ==> a == b
  {
    if a + INDEX == b + INDEX {
      assert a == (a + INDEX)[..|a|] && b == (b + INDEX)[..|b|];
    }
  }

  /** Edges of one type with the same name have the same target. */
  lemma SameNameSameTarget(g: Graph, tid: Tid, e: Edge, f: Edge)
    requires g.Valid() && WellRegistered(g) && tid < |g.types|
    requires e in Edges(g, tid) && f in Edges(g, tid) && e.name == f.name
    ensures e.target == f.target
  {
    var attributes := g.types[tid].attributes;
    EdgeKind(g, tid, e);
    EdgeKind(g, tid, f);
    KindByName(g, tid, e);
    KindByName(g, tid, f);
    if FromType(g, e) {
      assert e.name[1..] == g.types[e.target].name && f.name[1..] == g.types[f.target].name;
    } else {
      var i :| 0 <= i < |attributes| && AttributeEdge(g, attributes[i]) == [e];
      var j :| 0 <= j < |attributes| && AttributeEdge(g, attributes[j]) == [f];
      AttributeEdgeName(g, attributes[i], e);
      AttributeEdgeName(g, attributes[j], f);
      SuffixCancels(attributes[i].name, attributes[j].name);
      assert i == j;
    }
  }

  /** Registered names tell the edges apart. */
  lemma RegisteredNamesTell(g: Graph)
    requires g.Valid() && WellRegistered(g)
    ensures NamesTell(NetOf(g))
  {
    var net: Net := NetOf(g);
    forall t, i | 0 <= t < |net| && 0 <= i < |net[t]| ensures GoodName(net[t][i].name) {
      KindByName(g, t, net[t][i]);
    }
    forall t, i, j | 0 <= t < |net| && 0 <= i < |net[t]| && 0 <= j < |net[t]| && net[t][i].name == net[t][j].name
      ensures net[t][i].target == net[t][j].target
    {
      SameNameSameTarget(g, t, net[t][i], net[t][j]);
    }
  }

  // ------------------------------------------------------------- an example

  /** Two types; the second is a child of the first, and aggregated with it. */
  function ChildAndAggregate(a: string, b: string): Graph {
    Graph([TypeInfo(a, 0, []), TypeInfo(b, 0, [])], 0, [(0, 1)])
  }

  lemma PairIsValid(a: string, b: string)
    ensures ChildAndAggregate(a, b).Valid()
  {
    var g := ChildAndAggregate(a, b);
    assert g.Ranked([0, 1]);
  }

  lemma OneChild(a: string, b: string)
    ensures var g := ChildAndAggregate(a, b);
      g.Valid() && ChildEdges(g, 0, 2) == [Edge("$" + b, 1)]
  {
    var g := ChildAndAggregate(a, b);
    PairIsValid(a, b);
    assert g.Climb(0, 0) == 0 && g.Climb(1, 0) == 0;
    assert !g.IsChildOf(0, 0) && g.IsChildOf(1, 0);
    assert ChildEdges(g, 0, 1) == [];
  }

  lemma TwoEdges(a: string, b: string)
    ensures var g := ChildAndAggregate(a, b);
      g.Valid() && Edges(g, 0) == [Edge("$" + b, 1), Edge("$" + b, 1)]
  {
    var g := ChildAndAggregate(a, b);
    OneChild(a, b);
    assert AggregateEdges(g, 0, []) == [];
    assert AggregateEdges(g, 0, g.aggregates) == [Edge("$" + b, 1)];
  }

  /** Then the search records the second type twice under the same path. */
  lemma DuplicateOutput(a: string, b: string)
    ensures ChildAndAggregate(a, b).Valid() && !NoDuplicates(Enumerate(ChildAndAggregate(a, b), 0, [], []))
  {
    var g := ChildAndAggregate(a, b);
    TwoEdges(a, b);
    var net, none: Walk := NetOf(g), [];
    assert net[0] == [Edge("$" + b, 1), Edge("$" + b, 1)];
    assert IsWalk(net, 0, none) && On(net, 0, none) == [0];
    assert SameEdgeTwice(net, 0, 0, 0, 1);
    GatherGathers(g, 0);
    TwiceIsDuplicate(net, 0, Enumerate(g, 0, [], []), Walks(net, 0, []), 0, 0, 1);
  }
}
