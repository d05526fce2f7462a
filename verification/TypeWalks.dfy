/** What the search of TypePaths finds: one output for each repetition-free walk
    through the type graph, in order, and so every type that can be reached. */
module TypeWalks {
  import opened TypePaths

  /** The edges out of each type, all to types of the net. */
  type Net = seq<seq<Edge>>

  ghost predicate Ranged(net: Net) {
    forall t, i :: 0 <= t < |net| && 0 <= i < |net[t]| ==> net[t][i].target < |net|
  }

  ghost predicate InNet(net: Net, edges: seq<Edge>) {
    forall i :: 0 <= i < |edges| ==> edges[i].target < |net|
  }

  /** The edges the search follows, type by type. */
  ghost function NetOf(g: Graph): (net: Net)
    requires g.Valid()
    ensures Ranged(net) && |net| == |g.types| && forall t :: 0 <= t < |net| ==> net[t] == Edges(g, t)
  {
    forall t | 0 <= t < |g.types| ensures InRange(g, Edges(g, t)) {
      EdgesInRange(g, t);
    }
    seq(|g.types|, t requires 0 <= t < |g.types| => Edges(g, t))
  }

  /** A walk from a type: which edge to take at each type it comes to. */
  type Walk = seq<nat>

  ghost predicate IsWalk(net: Net, root: Tid, w: Walk)
    requires Ranged(net) && root < |net|
    decreases |w|
  {
    w == [] ||
    (w[0] < |net[root]| &&
     (IsWalk(net, net[root][w[0]].target, w[1..])))
  }

  /** Where a walk ends. */
  ghost function End(net: Net, root: Tid, w: Walk): (r: Tid)
    requires Ranged(net) && root < |net| && IsWalk(net, root, w)
    ensures r < |net|
    decreases |w|
  {
    if w == [] then root
    else End(net, net[root][w[0]].target, w[1..])
  }

  ghost function Labels(net: Net, root: Tid, w: Walk): seq<string>
    requires Ranged(net) && root < |net| && IsWalk(net, root, w)
    decreases |w|
  {
    if w == [] then []
    else
      [net[root][w[0]].name] + Labels(net, net[root][w[0]].target, w[1..])
  }

  /** The types a walk comes to, from the first to the last. */
  ghost function On(net: Net, root: Tid, w: Walk): (r: seq<Tid>)
    requires Ranged(net) && root < |net| && IsWalk(net, root, w)
    ensures |r| == |w| + 1 && r[0] == root && r[|w|] == End(net, root, w)
    decreases |w|
  {
    if w == [] then [root]
    else [root] + On(net, net[root][w[0]].target, w[1..])
  }

  /** A walk by its first edge. */
  lemma FirstEdge(net: Net, root: Tid, w: Walk)
    requires Ranged(net) && root < |net| && IsWalk(net, root, w) && w != []
    ensures w[0] < |net[root]| && IsWalk(net, net[root][w[0]].target, w[1..])
    ensures End(net, root, w) == End(net, net[root][w[0]].target, w[1..])
    ensures Labels(net, root, w) == [net[root][w[0]].name] + Labels(net, net[root][w[0]].target, w[1..])
    ensures On(net, root, w) == [root] + On(net, net[root][w[0]].target, w[1..])
  {
  }

  lemma Prepended(net: Net, root: Tid, k: nat, w: Walk)
    requires Ranged(net) && root < |net| && k < |net[root]| && IsWalk(net, net[root][k].target, w)
    ensures IsWalk(net, root, [k] + w) && End(net, root, [k] + w) == End(net, net[root][k].target, w)
    ensures Labels(net, root, [k] + w) == [net[root][k].name] + Labels(net, net[root][k].target, w)
    ensures On(net, root, [k] + w) == [root] + On(net, net[root][k].target, w)
  {
    var all := [k] + w;
    assert all[1..] == w && all[0] == k;
    assert IsWalk(net, root, all);
    FirstEdge(net, root, all);
  }

  /** No type twice, and none of `avoid`. */
  ghost predicate Fresh(s: seq<Tid>, avoid: seq<Tid>) {
    (forall i, j :: 0 <= i < j < |s| ==> s[i] != s[j]) && (forall i :: 0 <= i < |s| ==> s[i] !in avoid)
  }

  /** A walk that comes to no type twice, and to none of `avoid`. */
  ghost predicate Simple(net: Net, root: Tid, avoid: seq<Tid>, w: Walk)
    requires Ranged(net) && root < |net|
  {
    IsWalk(net, root, w) && Fresh(On(net, root, w), avoid)
  }

  ghost function Prefixed(i: nat, ws: seq<Walk>): (r: seq<Walk>)
    ensures |r| == |ws| && forall k :: 0 <= k < |ws| ==> r[k] == [i] + ws[k]
  {
    seq(|ws|, k requires 0 <= k < |ws| => [i] + ws[k])
  }

  /** The walks the search takes, in order. */
  ghost function Walks(net: Net, root: Tid, processed: seq<Tid>): seq<Walk>
    requires Ranged(net) && root < |net|
    decreases Unseen(|net|, processed), 0
  {
    if root in processed then []
    else
      UnseenPush(|net|, processed, root);
      [[]] + WalksOver(net, net[root], processed + [root])
  }

  ghost function WalksOver(net: Net, edges: seq<Edge>, processed: seq<Tid>): seq<Walk>
    requires Ranged(net) && InNet(net, edges)
    decreases Unseen(|net|, processed), |edges| + 1
  {
    if edges == [] then []
    else
      var last := |edges| - 1;
      WalksOver(net, edges[..last], processed) +
      Prefixed(last, Walks(net, edges[last].target, processed))
  }

  /** An output says where a walk ends and which names it passed. */
  ghost predicate Describes(net: Net, root: Tid, path: seq<string>, w: Walk, o: Output)
    requires Ranged(net) && root < |net|
  {
    IsWalk(net, root, w) && o == Output(End(net, root, w), Show(path + Labels(net, root, w)))
  }

  /** The k-th output describes the k-th walk. */
  ghost predicate AllDescribe(net: Net, root: Tid, path: seq<string>, ws: seq<Walk>, outs: seq<Output>)
    requires Ranged(net) && root < |net|
  {
    |outs| == |ws| && forall k :: 0 <= k < |ws| ==> Describes(net, root, path, ws[k], outs[k])
  }

  lemma ThroughEdge(net: Net, tid: Tid, i: nat, path: seq<string>, w: Walk, o: Output)
    requires Ranged(net) && tid < |net| && i < |net[tid]| && net[tid][i].target < |net|
    requires Describes(net, net[tid][i].target, path + [net[tid][i].name], w, o)
    ensures Describes(net, tid, path, [i] + w, o)
  {
    var e := net[tid][i];
    assert ([i] + w)[1..] == w;
    assert path + ([e.name] + Labels(net, e.target, w)) == path + [e.name] + Labels(net, e.target, w);
  }

  lemma AllThroughEdge(net: Net, tid: Tid, i: nat, path: seq<string>, ws: seq<Walk>, outs: seq<Output>)
    requires Ranged(net) && tid < |net| && i < |net[tid]| && net[tid][i].target < |net|
    requires AllDescribe(net, net[tid][i].target, path + [net[tid][i].name], ws, outs)
    ensures AllDescribe(net, tid, path, Prefixed(i, ws), outs)
  {
    forall k | 0 <= k < |ws| ensures Describes(net, tid, path, Prefixed(i, ws)[k], outs[k]) {
      ThroughEdge(net, tid, i, path, ws[k], outs[k]);
    }
  }

  lemma {:induction false} OutputPerWalk(g: Graph, root: Tid, path: seq<string>, processed: seq<Tid>)
    requires g.Valid() && root < |g.types|
    ensures AllDescribe(NetOf(g), root, path, Walks(NetOf(g), root, processed), Enumerate(g, root, path, processed))
    decreases Free(g, processed), 0
  {
    if root in processed {
    } else {
      PushFrees(g, processed, root);
      var net, edges, n := NetOf(g), Edges(g, root), |Edges(g, root)|;
      assert edges[..n] == edges == net[root];
      EdgesInRange(g, root);
      OutputPerEdgeWalk(g, root, n, path, processed + [root]);
      assert path + [] == path;
      var outs := EnumerateEdges(g, edges, path, processed + [root]);
      assert Enumerate(g, root, path, processed) == [Output(root, Show(path))] + outs;
      assert Describes(net, root, path, [], Output(root, Show(path)));
    }
  }

  lemma {:induction false} OutputPerEdgeWalk(g: Graph, tid: Tid, n: nat, path: seq<string>, processed: seq<Tid>)
    requires g.Valid() && tid < |g.types| && n <= |Edges(g, tid)| && InRange(g, Edges(g, tid)[..n])
    ensures InNet(NetOf(g), Edges(g, tid)[..n])
    ensures AllDescribe(NetOf(g), tid, path, WalksOver(NetOf(g), Edges(g, tid)[..n], processed),
                        EnumerateEdges(g, Edges(g, tid)[..n], path, processed))
    decreases Free(g, processed), n + 1
  {
    if n == 0 {
    } else {
      var net, e, edges := NetOf(g), Edges(g, tid)[n - 1], Edges(g, tid)[..n];
      assert edges[..n - 1] == Edges(g, tid)[..n - 1] && edges[n - 1] == e == net[tid][n - 1];
      OutputPerEdgeWalk(g, tid, n - 1, path, processed);
      OutputPerWalk(g, e.target, path + [e.name], processed);
      AllThroughEdge(net, tid, n - 1, path, Walks(net, e.target, processed),
                     Enumerate(g, e.target, path + [e.name], processed));
    }
  }

  // -------------------------------------- exactly the repetition-free walks

  /** Simple walks by structure, as the search sees them. */
  ghost predicate SimpleFrom(net: Net, root: Tid, avoid: seq<Tid>, w: Walk)
    requires Ranged(net) && root < |net|
    decreases |w|
  {
    root !in avoid &&
    (w == [] ||
     (w[0] < |net[root]| &&
      (SimpleFrom(net, net[root][w[0]].target, avoid + [root], w[1..]))))
  }

  lemma InPrefixed(i: nat, ws: seq<Walk>, w: Walk)
    requires w != []
    ensures w in Prefixed(i, ws) <==> w[0] == i && w[1..] in ws
  {
    assert w == [w[0]] + w[1..];
    if w in Prefixed(i, ws) {
      var k :| 0 <= k < |ws| && [i] + ws[k] == w;
      assert w[1..] == ws[k];
    }
    if w[0] == i && w[1..] in ws {
      var k :| 0 <= k < |ws| && ws[k] == w[1..];
      assert Prefixed(i, ws)[k] == w;
    }
  }

  lemma {:induction false} WalksExact(net: Net, root: Tid, processed: seq<Tid>, w: Walk)
    requires Ranged(net) && root < |net|
    ensures w in Walks(net, root, processed) <==> SimpleFrom(net, root, processed, w)
    decreases Unseen(|net|, processed), 0
  {
    if root !in processed && w != [] {
      UnseenPush(|net|, processed, root);
      var n := |net[root]|;
      assert net[root][..n] == net[root];
      WalksOverExact(net, root, n, processed + [root], w);
    }
  }

  lemma {:induction false} WalksOverExact(net: Net, tid: Tid, n: nat, processed: seq<Tid>, w: Walk)
    requires Ranged(net) && tid < |net| && n <= |net[tid]| && InNet(net, net[tid][..n])
    requires w != []
    ensures w in WalksOver(net, net[tid][..n], processed) <==>
            w[0] < n && SimpleFrom(net, net[tid][..n][w[0]].target, processed, w[1..])
    decreases Unseen(|net|, processed), n + 1
  {
    if n == 0 {
    } else {
      var edges := net[tid][..n];
      assert edges[..n - 1] == net[tid][..n - 1];
      WalksOverExact(net, tid, n - 1, processed, w);
      WalksExact(net, edges[n - 1].target, processed, w[1..]);
      var before, inner := WalksOver(net, net[tid][..n - 1], processed), Walks(net, edges[n - 1].target, processed);
      InPrefixed(n - 1, inner, w);
      assert WalksOver(net, edges, processed) == before + Prefixed(n - 1, inner);
      assert w[0] < n - 1 ==> edges[w[0]] == net[tid][..n - 1][w[0]];
    }
  }

  lemma FreshCons(t: Tid, s: seq<Tid>, avoid: seq<Tid>)
    ensures Fresh([t] + s, avoid) <==> t !in avoid && Fresh(s, avoid + [t])
  {
    var all := [t] + s;
    assert forall i :: 0 <= i < |s| ==> all[i + 1] == s[i];
    if Fresh(all, avoid) {
      assert all[0] == t;
      forall i | 0 <= i < |s| ensures s[i] !in avoid + [t] {
        assert all[i + 1] !in avoid && all[0] != all[i + 1];
      }
      forall i, j | 0 <= i < j < |s| ensures s[i] != s[j] {
        assert all[i + 1] != all[j + 1];
      }
    }
  }

  /** The structural and the pointwise notion of a simple walk agree. */
  lemma {:induction false} SimpleAgrees(net: Net, root: Tid, avoid: seq<Tid>, w: Walk)
    requires Ranged(net) && root < |net|
    ensures SimpleFrom(net, root, avoid, w) <==> Simple(net, root, avoid, w)
    decreases |w|
  {
    if w == [] {
    } else if w[0] < |net[root]| {
      var next := net[root][w[0]].target;
      SimpleAgrees(net, next, avoid + [root], w[1..]);
      if IsWalk(net, root, w) {
        FreshCons(root, On(net, next, w[1..]), avoid);
      }
    }
  }

  // ----------------------------------------------------------------- order

  /** Lexicographic order on walks, a walk before its extensions. */
  ghost predicate Before(a: Walk, b: Walk)
    decreases |a|
  {
    b != [] && (a == [] || a[0] < b[0] || (a[0] == b[0] && Before(a[1..], b[1..])))
  }

  ghost predicate Increasing(ws: seq<Walk>) {
    forall i, j :: 0 <= i < j < |ws| ==> Before(ws[i], ws[j])
  }

  lemma {:induction false} BeforeIrreflexive(a: Walk)
    ensures !Before(a, a)
    decreases |a|
  {
    if a == [] {
    } else {
      BeforeIrreflexive(a[1..]);
    }
  }

  lemma PrefixedIncreasing(i: nat, ws: seq<Walk>)
    requires Increasing(ws)
    ensures Increasing(Prefixed(i, ws))
  {
    var r := Prefixed(i, ws);
    forall j, k | 0 <= j < k < |ws| ensures Before(r[j], r[k]) {
      assert r[j][1..] == ws[j] && r[k][1..] == ws[k];
    }
  }

  /** Every walk takes one of the first n edges. */
  ghost predicate StartBelow(ws: seq<Walk>, n: nat) {
    forall k :: 0 <= k < |ws| ==> ws[k] != [] && ws[k][0] < n
  }

  /** Walks that all start below edge i, and then walks through it. */
  lemma IncreasingAppend(ws: seq<Walk>, i: nat, inner: seq<Walk>)
    requires Increasing(ws) && Increasing(inner) && StartBelow(ws, i)
    ensures Increasing(ws + Prefixed(i, inner)) && StartBelow(ws + Prefixed(i, inner), i + 1)
  {
    PrefixedIncreasing(i, inner);
    var r := Prefixed(i, inner);
    forall j, k | 0 <= j < |ws| && 0 <= k < |r| ensures Before(ws[j], r[k]) {
      assert r[k][0] == i;
    }
  }

  lemma {:induction false} WalksIncreasing(net: Net, root: Tid, processed: seq<Tid>)
    requires Ranged(net) && root < |net|
    ensures Increasing(Walks(net, root, processed))
    decreases Unseen(|net|, processed), 0
  {
    if root !in processed {
      UnseenPush(|net|, processed, root);
      WalksOverIncreasing(net, net[root], processed + [root]);
    }
  }

  lemma {:induction false} WalksOverIncreasing(net: Net, edges: seq<Edge>, processed: seq<Tid>)
    requires Ranged(net) && InNet(net, edges)
    ensures Increasing(WalksOver(net, edges, processed)) && StartBelow(WalksOver(net, edges, processed), |edges|)
    decreases Unseen(|net|, processed), |edges| + 1
  {
    if edges == [] {
    } else {
      var last := |edges| - 1;
      WalksOverIncreasing(net, edges[..last], processed);
      WalksIncreasing(net, edges[last].target, processed);
      var before, inner := WalksOver(net, edges[..last], processed), Walks(net, edges[last].target, processed);
      assert WalksOver(net, edges, processed) == before + Prefixed(last, inner);
      IncreasingAppend(before, last, inner);
    }
  }

  /** What Gather appends, started with empty stacks: one output per
      repetition-free walk from the root, in lexicographic order of the walks,
      each walk once. */
  lemma {:induction false} GatherIsExact(g: Graph, root: Tid)
    requires g.Valid() && root < |g.types|
    ensures var net, outs, ws := NetOf(g), Enumerate(g, root, [], []), Walks(NetOf(g), root, []);
      && |outs| == |ws|
      && (forall k :: 0 <= k < |ws| ==> Describes(net, root, [], ws[k], outs[k]))
      && (forall w :: w in ws <==> Simple(net, root, [], w))
      && Increasing(ws)
      && (forall i, j :: 0 <= i < j < |ws| ==> ws[i] != ws[j])
  {
    var net, ws := NetOf(g), Walks(NetOf(g), root, []);
    OutputPerWalk(g, root, [], []);
    WalksIncreasing(net, root, []);
    forall w ensures w in ws <==> Simple(net, root, [], w) {
      WalksExact(net, root, [], w);
      SimpleAgrees(net, root, [], w);
    }
    forall i, j | 0 <= i < j < |ws| ensures ws[i] != ws[j] {
      BeforeIrreflexive(ws[i]);
    }
  }

  // ------------------------------------------------------------ reachability

  lemma TailOfCons(t: Tid, s: seq<Tid>, m: nat)
    requires m < |s|
    ensures ([t] + s)[m + 1] == s[m] && ([t] + s)[m + 1..] == s[m..]
  {
  }

  lemma {:induction false} Suffix(net: Net, root: Tid, w: Walk, m: nat)
    requires Ranged(net) && root < |net| && IsWalk(net, root, w) && m <= |w|
    ensures var t := On(net, root, w)[m];
      && t < |net| && IsWalk(net, t, w[m..])
      && End(net, t, w[m..]) == End(net, root, w) && On(net, t, w[m..]) == On(net, root, w)[m..]
    decreases |w|
  {
    if m == 0 {
      assert w[0..] == w;
    } else {
      var next, rest := net[root][w[0]].target, w[1..];
      var on := On(net, next, rest);
      Suffix(net, next, rest, m - 1);
      assert rest[m - 1..] == w[m..];
      TailOfCons(root, on, m - 1);
    }
  }

  /** Cutting loops out of a walk leaves a simple walk to the same type, which
      comes to no types that the walk does not come to. */
  lemma {:induction false} CutLoops(net: Net, root: Tid, avoid: seq<Tid>, w: Walk) returns (short: Walk)
    requires Ranged(net) && root < |net| && IsWalk(net, root, w)
    requires forall t :: t in On(net, root, w) ==> t !in avoid
    ensures Simple(net, root, avoid, short) && End(net, root, short) == End(net, root, w)
    decreases |w|
  {
    if w == [] {
      short := [];
    } else {
      var next, rest := net[root][w[0]].target, w[1..];
      var on := On(net, next, rest);
      assert forall t :: t in on ==> t in On(net, root, w);
      if root in on {
        var m :| 0 <= m < |on| && on[m] == root;
        Suffix(net, next, rest, m);
        short := CutLoops(net, root, avoid, rest[m..]);
      } else {
        var inner := CutLoops(net, next, avoid + [root], rest);
        short := [w[0]] + inner;
        assert short[1..] == inner;
        SimpleAgrees(net, next, avoid + [root], inner);
        SimpleAgrees(net, root, avoid, short);
      }
    }
  }

  /** A type appears in the output exactly when some walk, cyclic or not, reaches it. */
  lemma {:induction false} GatherReaches(g: Graph, root: Tid, tid: Tid)
    requires g.Valid() && root < |g.types|
    ensures (exists k :: 0 <= k < |Enumerate(g, root, [], [])| && Enumerate(g, root, [], [])[k].tid == tid) <==>
            (exists w :: IsWalk(NetOf(g), root, w) && End(NetOf(g), root, w) == tid)
  {
    GatherIsExact(g, root);
    var net, outs, ws := NetOf(g), Enumerate(g, root, [], []), Walks(NetOf(g), root, []);
    if k :| 0 <= k < |outs| && outs[k].tid == tid {
      assert Describes(net, root, [], ws[k], outs[k]);
    }
    if w :| IsWalk(net, root, w) && End(net, root, w) == tid {
      var short := CutLoops(net, root, [], w);
      assert short in ws;
      var k :| 0 <= k < |ws| && ws[k] == short;
      assert Describes(net, root, [], ws[k], outs[k]);
    }
  }
}
