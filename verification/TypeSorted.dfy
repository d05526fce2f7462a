/** The other half of what Uniquefy promises: an output sorted by type and path.
    Which type graphs have one without it, by their edges. */
module TypeSorted {
  import opened TypePaths
  import opened TypeWalks
  import opened TypePromise

  /** std::string's operator<. */
  predicate StringLess(a: string, b: string) {
    b != "" && (a == "" || a[0] < b[0] || (a[0] == b[0] && StringLess(a[1..], b[1..])))
  }

  /** operator< on pairs of a type and a path. */
  predicate Less(a: Output, b: Output) {
    a.tid < b.tid || (a.tid == b.tid && StringLess(a.path, b.path))
  }

  ghost predicate Sorted(outs: seq<Output>) {
    forall i, j :: 0 <= i < j < |outs| ==> Less(outs[i], outs[j])
  }

  /** The output of every simple walk is less than that of every simple walk after it. */
  ghost predicate WalksSorted(net: Net, root: Tid)
    requires Ranged(net) && root < |net|
  {
    forall a, b :: Simple(net, root, [], a) && Simple(net, root, [], b) && Before(a, b) ==>
      Less(OutputOf(net, root, a), OutputOf(net, root, b))
  }

  lemma {:induction false} SortedTogether(net: Net, root: Tid, outs: seq<Output>, ws: seq<Walk>)
    requires Ranged(net) && root < |net| && Gathered(net, root, outs, ws)
    ensures Sorted(outs) <==> WalksSorted(net, root)
  {
    if Sorted(outs) {
      forall a, b | Simple(net, root, [], a) && Simple(net, root, [], b) && Before(a, b)
        ensures Less(OutputOf(net, root, a), OutputOf(net, root, b))
      {
        var i, j := IndicesOf(ws, a, b);
        assert Less(outs[i], outs[j]);
      }
    }
    if WalksSorted(net, root) {
      forall i, j | 0 <= i < j < |outs| ensures Less(outs[i], outs[j]) {
        assert ws[i] in ws && ws[j] in ws && Before(ws[i], ws[j]);
      }
    }
  }

  // ------------------------------------------------------------ the condition

  /** Every edge goes to a larger type, unless the search cannot come to its start
      without having been at its target. */
  ghost predicate Upward(net: Net, root: Tid)
    requires Ranged(net) && root < |net|
  {
    forall t, i :: 0 <= t < |net| && 0 <= i < |net[t]| && Reaches(net, root, t, net[t][i].target) ==>
      t < net[t][i].target
  }

  /** A walk from smaller to larger types. */
  ghost predicate Up(net: Net, root: Tid, w: Walk)
    requires Ranged(net) && root < |net|
    decreases |w|
  {
    w == [] ||
    (w[0] < |net[root]| && root < net[root][w[0]].target && Up(net, net[root][w[0]].target, w[1..]))
  }

  /** What is recorded for a walk from t by edge i, less the path to t. */
  ghost function Along(net: Net, t: Tid, i: nat, v: Walk): Output
    requires Ranged(net) && t < |net| && i < |net[t]|
  {
    var x := net[t][i].target;
    if IsWalk(net, x, v) then Output(End(net, x, v), Show([net[t][i].name] + Labels(net, x, v))) else Output(x, "")
  }

  /** Whatever walks up lead to from the target of an edge comes before the target
      of each later edge. */
  ghost predicate BranchesInOrder(net: Net, root: Tid)
    requires Ranged(net) && root < |net|
  {
    forall t, i, j, v ::
      0 <= t < |net| && 0 <= i < j < |net[t]| && t < net[t][i].target && t < net[t][j].target &&
      Reached(net, root, t) && Up(net, net[t][i].target, v) ==>
        Less(Along(net, t, i, v), Along(net, t, j, []))
  }

  // ------------------------------------------------------------------ walks up

  lemma {:induction false} UpRises(net: Net, root: Tid, w: Walk)
    requires Ranged(net) && root < |net| && Up(net, root, w)
    ensures IsWalk(net, root, w)
    ensures forall i, j :: 0 <= i < j <= |w| ==> On(net, root, w)[i] < On(net, root, w)[j]
    decreases |w|
  {
    if w == [] {
    } else {
      var x, rest := net[root][w[0]].target, w[1..];
      UpRises(net, x, rest);
      FirstEdge(net, root, w);
      var on := On(net, x, rest);
      assert forall i :: 0 <= i < |on| ==> ([root] + on)[i + 1] == on[i];
      assert forall i :: 0 < i < |on| ==> on[0] < on[i];
    }
  }

  lemma {:induction false} UpIsSimple(net: Net, root: Tid, w: Walk)
    requires Ranged(net) && root < |net| && Up(net, root, w)
    ensures Simple(net, root, [], w) && root <= End(net, root, w) && (w != [] ==> root < End(net, root, w))
  {
    UpRises(net, root, w);
    var on := On(net, root, w);
    assert on[0] == root && on[|w|] == End(net, root, w);
  }

  lemma {:induction false} UpExtended(net: Net, root: Tid, w: Walk, v: Walk)
    requires Ranged(net) && root < |net| && Up(net, root, w) && IsWalk(net, root, w) && Up(net, End(net, root, w), v)
    ensures Up(net, root, w + v)
    decreases |w|
  {
    if w == [] {
      assert w + v == v;
    } else {
      FirstEdge(net, root, w);
      UpExtended(net, net[root][w[0]].target, w[1..], v);
      assert (w + v)[1..] == w[1..] + v;
    }
  }

  lemma UpEdge(net: Net, t: Tid, i: nat, v: Walk)
    requires Ranged(net) && t < |net|
    ensures Up(net, t, [i] + v) <==> i < |net[t]| && t < net[t][i].target && Up(net, net[t][i].target, v)
  {
    assert ([i] + v)[1..] == v;
  }

  lemma {:induction false} Prefix(net: Net, root: Tid, w: Walk, k: nat)
    requires Ranged(net) && root < |net| && IsWalk(net, root, w) && k < |w|
    ensures IsWalk(net, root, w[..k]) && End(net, root, w[..k]) == On(net, root, w)[k] < |net|
    ensures On(net, root, w[..k]) == On(net, root, w)[..k + 1]
    ensures w[k] < |net[On(net, root, w)[k]]| && net[On(net, root, w)[k]][w[k]].target == On(net, root, w)[k + 1]
    decreases |w|
  {
    FirstEdge(net, root, w);
    var x, rest := net[root][w[0]].target, w[1..];
    var on := On(net, x, rest);
    if k == 0 {
      assert w[..0] == [] && ([root] + on)[..1] == [root];
    } else {
      Prefix(net, x, rest, k - 1);
      Prepended(net, root, w[0], rest[..k - 1]);
      assert [w[0]] + rest[..k - 1] == w[..k];
      FrontOfCons(root, on, k);
    }
  }

  lemma {:induction false} RisesIsUp(net: Net, root: Tid, w: Walk)
    requires Ranged(net) && root < |net| && IsWalk(net, root, w)
    requires forall k :: 0 <= k < |w| ==> On(net, root, w)[k] < On(net, root, w)[k + 1]
    ensures Up(net, root, w)
    decreases |w|
  {
    if w == [] {
    } else {
      FirstEdge(net, root, w);
      var x, rest := net[root][w[0]].target, w[1..];
      var on := On(net, x, rest);
      assert On(net, root, w)[0] < On(net, root, w)[1];
      forall k | 0 <= k < |rest| ensures on[k] < on[k + 1] {
        assert On(net, root, w)[k + 1] < On(net, root, w)[k + 2];
      }
      RisesIsUp(net, x, rest);
    }
  }

  /** In an upward graph the simple walks from the root are the walks up. */
  lemma {:induction false} SimpleIsUp(net: Net, root: Tid, w: Walk)
    requires Ranged(net) && root < |net| && Upward(net, root) && Simple(net, root, [], w)
    ensures Up(net, root, w)
  {
    var on := On(net, root, w);
    forall k | 0 <= k < |w| ensures on[k] < on[k + 1] {
      Prefix(net, root, w, k);
      assert IsWalk(net, root, w[..k]) && End(net, root, w[..k]) == on[k];
      assert on[k + 1] !in on[..k + 1];
      assert Reaches(net, root, on[k], net[on[k]][w[k]].target);
    }
    RisesIsUp(net, root, w);
  }

  // ------------------------------------------------------------- comparing paths

  lemma {:induction false} ShowConcatenated(p: seq<string>, q: seq<string>)
    ensures Show(p + q) == Show(p) + Show(q)
  {
    if q == [] {
      assert p + q == p;
    } else {
      var last := |q| - 1;
      ShowConcatenated(p, q[..last]);
      assert (p + q)[..|p + q| - 1] == p + q[..last];
    }
  }

  lemma {:induction false} SamePrefix(c: string, a: string, b: string)
    ensures StringLess(c + a, c + b) <==> StringLess(a, b)
  {
    if c == "" {
      assert c + a == a && c + b == b;
    } else {
      SamePrefix(c[1..], a, b);
      assert (c + a)[1..] == c[1..] + a && (c + b)[1..] == c[1..] + b;
    }
  }

  /** A common beginning of two paths does not matter. */
  lemma LessAfter(path: seq<string>, x: Tid, p: seq<string>, y: Tid, q: seq<string>)
    ensures Less(Output(x, Show(path + p)), Output(y, Show(path + q))) <==> Less(Output(x, Show(p)), Output(y, Show(q)))
  {
    ShowConcatenated(path, p);
    ShowConcatenated(path, q);
    SamePrefix(Show(path), Show(p), Show(q));
  }

  lemma {:induction false} LessIrreflexive(s: string)
    ensures !StringLess(s, s)
  {
    if s == "" {
    } else {
      LessIrreflexive(s[1..]);
    }
  }

  // ---------------------------------------------------------------- both ways

  /** Sorted outputs force every edge to a new type upward. */
  lemma {:induction false} SortedIsUpward(net: Net, root: Tid)
    requires Ranged(net) && root < |net| && WalksSorted(net, root)
    ensures Upward(net, root)
  {
    forall t, i | 0 <= t < |net| && 0 <= i < |net[t]| && Reaches(net, root, t, net[t][i].target)
      ensures t < net[t][i].target
    {
      var w := AvoidingIsSimple(net, root, t, net[t][i].target);
      SimpleEdge(net, root, w, i);
      BeforePrefix(w, [], [i]);
      assert w + [] == w;
      assert Less(OutputOf(net, root, w), OutputOf(net, root, w + [i]));
      assert On(net, root, w)[|w|] == t;
    }
  }

  /** The output of a walk that goes on along an edge. */
  lemma OutputAlong(net: Net, root: Tid, w: Walk, i: nat, v: Walk)
    requires Ranged(net) && root < |net| && IsWalk(net, root, w) && i < |net[End(net, root, w)]|
    requires IsWalk(net, net[End(net, root, w)][i].target, v)
    ensures var t := End(net, root, w);
      var x := net[t][i].target;
      OutputOf(net, root, w + ([i] + v)) ==
        Output(End(net, x, v), Show(Labels(net, root, w) + ([net[t][i].name] + Labels(net, x, v))))
  {
    var t := End(net, root, w);
    Prepended(net, t, i, v);
    Extended(net, root, w, [i] + v);
  }

  /** A walk up that goes on along an edge up, and further up. */
  lemma UpAlong(net: Net, root: Tid, w: Walk, i: nat, v: Walk)
    requires Ranged(net) && root < |net| && Up(net, root, w) && IsWalk(net, root, w)
    requires i < |net[End(net, root, w)]| && End(net, root, w) < net[End(net, root, w)][i].target
    requires Up(net, net[End(net, root, w)][i].target, v)
    ensures IsWalk(net, net[End(net, root, w)][i].target, v) && Simple(net, root, [], w + ([i] + v))
  {
    var t := End(net, root, w);
    UpEdge(net, t, i, v);
    UpExtended(net, root, w, [i] + v);
    UpIsSimple(net, root, w + ([i] + v));
    UpRises(net, net[t][i].target, v);
  }

  /** Comparing two walks that part at their ends' edges i and j. */
  lemma CompareAlong(net: Net, root: Tid, w: Walk, i: nat, v: Walk, j: nat)
    requires Ranged(net) && root < |net| && IsWalk(net, root, w)
    requires i < |net[End(net, root, w)]| && j < |net[End(net, root, w)]|
    requires IsWalk(net, net[End(net, root, w)][i].target, v)
    ensures Less(OutputOf(net, root, w + ([i] + v)), OutputOf(net, root, w + ([j] + []))) <==>
            Less(Along(net, End(net, root, w), i, v), Along(net, End(net, root, w), j, []))
  {
    var t, none: Walk := End(net, root, w), [];
    var x, y := net[t][i].target, net[t][j].target;
    OutputAlong(net, root, w, i, v);
    OutputAlong(net, root, w, j, none);
    LessAfter(Labels(net, root, w), End(net, x, v), [net[t][i].name] + Labels(net, x, v),
              End(net, y, none), [net[t][j].name] + Labels(net, y, none));
  }

  lemma SortedPair(net: Net, root: Tid, a: Walk, b: Walk)
    requires Ranged(net) && root < |net| && WalksSorted(net, root) && Before(a, b)
    requires Simple(net, root, [], a) && Simple(net, root, [], b)
    ensures Less(OutputOf(net, root, a), OutputOf(net, root, b))
  {
  }

  lemma BranchesAt(net: Net, root: Tid, w: Walk, i: nat, v: Walk, j: nat)
    requires Ranged(net) && root < |net| && WalksSorted(net, root) && Up(net, root, w) && IsWalk(net, root, w)
    requires i < j < |net[End(net, root, w)]| && Up(net, net[End(net, root, w)][i].target, v)
    requires End(net, root, w) < net[End(net, root, w)][i].target
    requires End(net, root, w) < net[End(net, root, w)][j].target
    ensures Less(Along(net, End(net, root, w), i, v), Along(net, End(net, root, w), j, []))
  {
    var none: Walk := [];
    UpAlong(net, root, w, i, v);
    UpAlong(net, root, w, j, none);
    BeforePrefix(w, [i] + v, [j] + none);
    SortedPair(net, root, w + ([i] + v), w + ([j] + none));
    CompareAlong(net, root, w, i, v, j);
  }

  /** Sorted outputs force the branches into order. */
  lemma {:induction false} SortedIsBranching(net: Net, root: Tid, t: Tid, i: nat, j: nat, v: Walk)
    requires Ranged(net) && root < |net| && WalksSorted(net, root) && Upward(net, root)
    requires t < |net| && i < j < |net[t]| && t < net[t][i].target && t < net[t][j].target
    requires Reached(net, root, t) && Up(net, net[t][i].target, v)
    ensures Less(Along(net, t, i, v), Along(net, t, j, []))
  {
    var any :| IsWalk(net, root, any) && End(net, root, any) == t;
    var w := CutLoops(net, root, [], any);
    SimpleIsUp(net, root, w);
    BranchesAt(net, root, w, i, v, j);
  }

  lemma ReachedOn(net: Net, root: Tid, t: Tid, i: nat)
    requires Ranged(net) && root < |net| && t < |net| && i < |net[t]| && Reached(net, root, t)
    ensures Reached(net, root, net[t][i].target)
  {
    var w :| IsWalk(net, root, w) && End(net, root, w) == t;
    OneEdge(net, t, i);
    Extended(net, root, w, [i]);
    assert IsWalk(net, root, w + [i]);
  }

  /** Two walks up from a type that can be reached, in the order of the search. */
  lemma {:induction false} UpInOrder(net: Net, root: Tid, t: Tid, a: Walk, b: Walk)
    requires Ranged(net) && root < |net| && t < |net| && BranchesInOrder(net, root) && Reached(net, root, t)
    requires Up(net, t, a) && Up(net, t, b) && Before(a, b)
    ensures Less(OutputOf(net, t, a), OutputOf(net, t, b))
    decreases |a|
  {
    UpIsSimple(net, t, a);
    UpIsSimple(net, t, b);
    if a == [] {
      assert End(net, t, a) == t;
    } else {
      FirstEdge(net, t, a);
      FirstEdge(net, t, b);
      var i, j := a[0], b[0];
      var x, y := net[t][i].target, net[t][j].target;
      UpIsSimple(net, x, a[1..]);
      UpIsSimple(net, y, b[1..]);
      if i == j {
        ReachedOn(net, root, t, i);
        UpInOrder(net, root, x, a[1..], b[1..]);
        LessAfter([net[t][i].name], End(net, x, a[1..]), Labels(net, x, a[1..]), End(net, x, b[1..]), Labels(net, x, b[1..]));
      } else {
        assert Less(Along(net, t, i, a[1..]), Along(net, t, j, []));
        assert Along(net, t, i, a[1..]) == OutputOf(net, t, a);
        if b[1..] == [] {
          assert Along(net, t, j, b[1..]) == OutputOf(net, t, b);
        }
      }
    }
  }

  /** The output is sorted, without duplicates, exactly when every edge to a type
      that can still be new goes to a larger type, and whatever a type leads to by
      one edge comes before the target of each later edge. */
  lemma {:induction false} KeepsPromiseIff(g: Graph, root: Tid)
    requires g.Valid() && root < |g.types|
    ensures Sorted(Enumerate(g, root, [], [])) <==> Upward(NetOf(g), root) && BranchesInOrder(NetOf(g), root)
  {
    var net := NetOf(g);
    GatherGathers(g, root);
    SortedTogether(net, root, Enumerate(g, root, [], []), Walks(net, root, []));
    if WalksSorted(net, root) {
      SortedIsUpward(net, root);
      forall t, i, j, v |
        0 <= t < |net| && 0 <= i < j < |net[t]| && t < net[t][i].target && t < net[t][j].target &&
        Reached(net, root, t) && Up(net, net[t][i].target, v)
        ensures Less(Along(net, t, i, v), Along(net, t, j, []))
      {
        SortedIsBranching(net, root, t, i, j, v);
      }
    }
    if Upward(net, root) && BranchesInOrder(net, root) {
      forall a, b | Simple(net, root, [], a) && Simple(net, root, [], b) && Before(a, b)
        ensures Less(OutputOf(net, root, a), OutputOf(net, root, b))
      {
        SimpleIsUp(net, root, a);
        SimpleIsUp(net, root, b);
        assert IsWalk(net, root, []) && End(net, root, []) == root;
        UpInOrder(net, root, root, a, b);
      }
    }
  }

  /** A sorted output has no duplicates, so a duplicate breaks both halves. */
  lemma SortedIsUnique(outs: seq<Output>)
    requires Sorted(outs)
    ensures NoDuplicates(outs)
  {
    forall i, j | 0 <= i < j < |outs| ensures outs[i] != outs[j] {
      LessIrreflexive(outs[i].path);
    }
  }

  /** So a type that is a child and aggregated breaks the order as well. */
  lemma UnsortedOutput(a: string, b: string)
    ensures ChildAndAggregate(a, b).Valid() && !Sorted(Enumerate(ChildAndAggregate(a, b), 0, [], []))
  {
    DuplicateOutput(a, b);
    if Sorted(Enumerate(ChildAndAggregate(a, b), 0, [], [])) {
      SortedIsUnique(Enumerate(ChildAndAggregate(a, b), 0, [], []));
    }
  }
}
