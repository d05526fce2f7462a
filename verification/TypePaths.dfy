/** The search of print-introspected-doxygen.cc for configuration paths:
    StaticInformation::DoGather walks the type graph depth first, keeping the
    current path and the types on it in two stacks, and records one output per
    type it enters. */
module TypePaths {

  type Tid = nat

  datatype Checker = Pointer(pointee: Tid) | Container(item: Tid) | Plain

  datatype Attribute = Attribute(name: string, checker: Checker)

  datatype TypeInfo = TypeInfo(name: string, parent: Tid, attributes: seq<Attribute>)

  /** The registered types (a TypeId is an index), which of them is Object, and
      the recorded aggregations. */
  datatype Graph = Graph(types: seq<TypeInfo>, objectType: Tid, aggregates: seq<(Tid, Tid)>) {
    /** Every type mentioned is registered and every chain of parents ends. */
    ghost predicate Valid() {
      && (forall t :: 0 <= t < |types| ==> types[t].parent < |types|)
      && (exists rank :: Ranked(rank))
      && (forall t, i :: 0 <= t < |types| && 0 <= i < |types[t].attributes| ==>
            CheckerInRange(types[t].attributes[i].checker))
      && (forall i :: 0 <= i < |aggregates| ==>
            aggregates[i].0 < |types| && aggregates[i].1 < |types|)
    }

    predicate CheckerInRange(c: Checker) {
      match c
      case Pointer(t) => t < |types|
      case Container(t) => t < |types|
      case Plain => true
    }

    /** Ranks decrease from a type to its parent; a root is its own parent. */
    ghost predicate Ranked(rank: seq<nat>) {
      && |rank| == |types|
      && forall t :: 0 <= t < |types| ==>
           types[t].parent == t || (types[t].parent < |types| && rank[types[t].parent] < rank[t])
    }

    ghost function Rank(t: Tid): nat
      requires Valid() && t < |types|
    {
      var rank :| Ranked(rank);
      rank[t]
    }

    /** Where TypeId::IsChildOf stops when it climbs from t looking for `other`. */
    function Climb(t: Tid, other: Tid): (r: Tid)
      requires Valid() && t < |types|
      ensures r < |types|
      decreases Rank(t)
    {
      if t == other || t == types[t].parent then t else Climb(types[t].parent, other)
    }

    predicate IsChildOf(t: Tid, other: Tid)
      requires Valid() && t < |types|
    {
      Climb(t, other) == other && t != other
    }
  }

  // ------------------------------------------------------ edges out of a type

  datatype Edge = Edge(name: string, target: Tid)

  /** Pointer attributes to anything but Object, and object containers. */
  function AttributeEdge(g: Graph, a: Attribute): seq<Edge> {
    match a.checker
    case Pointer(t) => if t == g.objectType then [] else [Edge(a.name, t)]
    case Container(t) => [Edge(a.name + "/[i]", t)]
    case Plain => []
  }

  function AttributeEdges(g: Graph, attributes: seq<Attribute>): seq<Edge> {
    if attributes == [] then []
    else AttributeEdges(g, attributes[..|attributes| - 1]) + AttributeEdge(g, attributes[|attributes| - 1])
  }

  /** One edge to every registered descendant among the first n types. */
  function ChildEdges(g: Graph, tid: Tid, n: nat): seq<Edge>
    requires g.Valid() && n <= |g.types|
  {
    if n == 0 then []
    else ChildEdges(g, tid, n - 1) +
         (if g.IsChildOf(n - 1, tid) then [Edge("$" + g.types[n - 1].name, n - 1)] else [])
  }

  function Other(pair: (Tid, Tid), tid: Tid): Tid {
    if pair.1 == tid then pair.0 else pair.1
  }

  function AggregateEdges(g: Graph, tid: Tid, pairs: seq<(Tid, Tid)>): seq<Edge>
    requires forall i :: 0 <= i < |pairs| ==> pairs[i].0 < |g.types| && pairs[i].1 < |g.types|
  {
    if pairs == [] then []
    else
      var pair := pairs[|pairs| - 1];
      AggregateEdges(g, tid, pairs[..|pairs| - 1]) +
      (if pair.0 == tid || pair.1 == tid
       then [Edge("$" + g.types[Other(pair, tid)].name, Other(pair, tid))] else [])
  }

  function Edges(g: Graph, tid: Tid): seq<Edge>
    requires g.Valid() && tid < |g.types|
  {
    AttributeEdges(g, g.types[tid].attributes) + ChildEdges(g, tid, |g.types|) +
    AggregateEdges(g, tid, g.aggregates)
  }

  ghost predicate InRange(g: Graph, edges: seq<Edge>) {
    forall i :: 0 <= i < |edges| ==> edges[i].target < |g.types|
  }

  lemma {:induction false} AttributeEdgesInRange(g: Graph, attributes: seq<Attribute>)
    requires forall i :: 0 <= i < |attributes| ==> g.CheckerInRange(attributes[i].checker)
    ensures InRange(g, AttributeEdges(g, attributes))
  {
    if attributes == [] {
    } else {
      AttributeEdgesInRange(g, attributes[..|attributes| - 1]);
    }
  }

  lemma {:induction false} ChildEdgesInRange(g: Graph, tid: Tid, n: nat)
    requires g.Valid() && n <= |g.types|
    ensures InRange(g, ChildEdges(g, tid, n))
  {
    if n == 0 {
    } else {
      ChildEdgesInRange(g, tid, n - 1);
    }
  }

  lemma {:induction false} AggregateEdgesInRange(g: Graph, tid: Tid, pairs: seq<(Tid, Tid)>)
    requires forall i :: 0 <= i < |pairs| ==> pairs[i].0 < |g.types| && pairs[i].1 < |g.types|
    ensures InRange(g, AggregateEdges(g, tid, pairs))
  {
    if pairs == [] {
    } else {
      AggregateEdgesInRange(g, tid, pairs[..|pairs| - 1]);
    }
  }

  lemma AttributeStep(g: Graph, attributes: seq<Attribute>, i: nat)
    requires i < |attributes|
    ensures AttributeEdges(g, attributes[..i + 1]) == AttributeEdges(g, attributes[..i]) + AttributeEdge(g, attributes[i])
  {
    assert attributes[..i + 1][..i] == attributes[..i];
  }

  lemma AggregateStep(g: Graph, tid: Tid, k: nat)
    requires g.Valid() && k < |g.aggregates|
    ensures var pair, other := g.aggregates[k], Other(g.aggregates[k], tid);
      && pair.0 < |g.types| && pair.1 < |g.types|
      && AggregateEdges(g, tid, g.aggregates[..k + 1]) ==
         AggregateEdges(g, tid, g.aggregates[..k]) +
         (if pair.0 == tid || pair.1 == tid then [Edge("$" + g.types[other].name, other)] else [])
  {
    assert g.aggregates[..k + 1][..k] == g.aggregates[..k];
  }

  lemma EdgesInRange(g: Graph, tid: Tid)
    requires g.Valid() && tid < |g.types|
    ensures InRange(g, Edges(g, tid))
  {
    AttributeEdgesInRange(g, g.types[tid].attributes);
    ChildEdgesInRange(g, tid, |g.types|);
    AggregateEdgesInRange(g, tid, g.aggregates);
  }

  // -------------------------------------------------- what the search records

  datatype Output = Output(tid: Tid, path: string)

  /** GetCurrentPath. */
  function Show(path: seq<string>): string {
    if path == [] then "" else Show(path[..|path| - 1]) + "/" + path[|path| - 1]
  }

  /** How many of the first n types are not on the stack yet. */
  ghost function Unseen(n: nat, processed: seq<Tid>): nat {
    if n == 0 then 0 else Unseen(n - 1, processed) + (if n - 1 in processed then 0 else 1)
  }

  lemma {:induction false} UnseenPush(n: nat, processed: seq<Tid>, tid: Tid)
    requires tid !in processed
    ensures Unseen(n, processed + [tid]) == Unseen(n, processed) - (if tid < n then 1 else 0)
  {
    if n == 0 {
    } else {
      UnseenPush(n - 1, processed, tid);
    }
  }

  ghost function Free(g: Graph, processed: seq<Tid>): nat {
    Unseen(|g.types|, processed)
  }

  lemma PushFrees(g: Graph, processed: seq<Tid>, tid: Tid)
    requires tid < |g.types| && tid !in processed
    ensures Free(g, processed + [tid]) < Free(g, processed)
  {
    UnseenPush(|g.types|, processed, tid);
  }

  /** The outputs recorded below `tid`, entered with the given stacks. */
  ghost function Enumerate(g: Graph, tid: Tid, path: seq<string>, processed: seq<Tid>): seq<Output>
    requires g.Valid() && tid < |g.types|
    decreases Free(g, processed), 0
  {
    if tid in processed then []
    else
      PushFrees(g, processed, tid);
      EdgesInRange(g, tid);
      [Output(tid, Show(path))] + EnumerateEdges(g, Edges(g, tid), path, processed + [tid])
  }

  ghost function EnumerateEdges(g: Graph, edges: seq<Edge>, path: seq<string>, processed: seq<Tid>): seq<Output>
    requires g.Valid() && InRange(g, edges)
    decreases Free(g, processed), |edges| + 1
  {
    if edges == [] then []
    else
      var e := edges[|edges| - 1];
      EnumerateEdges(g, edges[..|edges| - 1], path, processed) +
      Enumerate(g, e.target, path + [e.name], processed)
  }

  lemma EnumerateMore(g: Graph, edges: seq<Edge>, e: Edge, path: seq<string>, processed: seq<Tid>)
    requires g.Valid() && InRange(g, edges) && e.target < |g.types|
    ensures InRange(g, edges + [e])
    ensures EnumerateEdges(g, edges + [e], path, processed) ==
            EnumerateEdges(g, edges, path, processed) + Enumerate(g, e.target, path + [e.name], processed)
  {
    assert (edges + [e])[..|edges|] == edges;
  }

  /** What was found along one more edge comes after what was found before. */
  lemma AppendFound(
      g: Graph, done: seq<Edge>, e: Edge, path: seq<string>, processed: seq<Tid>,
      start: seq<Output>, before: seq<Output>, after: seq<Output>)
    requires g.Valid() && InRange(g, done) && e.target < |g.types|
    requires before == start + EnumerateEdges(g, done, path, processed)
    requires after == before + Enumerate(g, e.target, path + [e.name], processed)
    ensures InRange(g, done + [e]) && after == start + EnumerateEdges(g, done + [e], path, processed)
  {
    EnumerateMore(g, done, e, path, processed);
    var found, more := EnumerateEdges(g, done, path, processed), Enumerate(g, e.target, path + [e.name], processed);
    assert start + found + more == start + (found + more);
  }

  /** The searching object, with its stacks and its output. */
  class StaticInformation {
    const g: Graph
    var output: seq<Output>
    var currentPath: seq<string>
    var alreadyProcessed: seq<Tid>

    constructor (g: Graph)
      ensures this.g == g && output == [] && currentPath == [] && alreadyProcessed == []
    {
      this.g := g;
      output, currentPath, alreadyProcessed := [], [], [];
    }

    method HasAlreadyBeenProcessed(tid: Tid) returns (found: bool)
      ensures found <==> tid in alreadyProcessed
    {
      for i := 0 to |alreadyProcessed|
        invariant tid !in alreadyProcessed[..i]
      {
        if alreadyProcessed[i] == tid {
          return true;
        }
      }
      return false;
    }

    method GetCurrentPath() returns (text: string)
      ensures text == Show(currentPath)
    {
      text := "";
      for i := 0 to |currentPath|
        invariant text == Show(currentPath[..i])
      {
        assert currentPath[..i + 1][..i] == currentPath[..i];
        text := text + "/" + currentPath[i];
      }
      assert currentPath[..|currentPath|] == currentPath;
    }

    method RecordOutput(tid: Tid)
      modifies this`output
      ensures output == old(output) + [Output(tid, Show(currentPath))]
    {
      var text := GetCurrentPath();
      output := output + [Output(tid, text)];
    }

    /** The output is `start` and then what was found along the edges of `done`,
        followed from `tid` under the current stacks. */
    ghost predicate Followed(tid: Tid, start: seq<Output>, done: seq<Edge>)
      requires g.Valid()
      reads this
    {
      InRange(g, done) &&
      output == start + EnumerateEdges(g, done, currentPath, alreadyProcessed + [tid])
    }

    /** Records everything below `tid` and leaves both stacks as they were. */
    method DoGather(tid: Tid)
      requires g.Valid() && tid < |g.types|
      modifies this
      ensures output == old(output) + Enumerate(g, tid, old(currentPath), old(alreadyProcessed))
      ensures currentPath == old(currentPath) && alreadyProcessed == old(alreadyProcessed)
      decreases Free(g, alreadyProcessed), 2
    {
      var seen := HasAlreadyBeenProcessed(tid);
      if seen {
        return;
      }
      RecordOutput(tid);
      ghost var start := output;
      EdgesInRange(g, tid);
      ghost var done := FollowAttributes(tid, start);
      done := FollowChildren(tid, start, done);
      done := FollowAggregates(tid, start, done);
      assert done == Edges(g, tid);
    }

    /** DoGather's loop over the attributes of `tid`. */
    method FollowAttributes(tid: Tid, ghost start: seq<Output>) returns (ghost done: seq<Edge>)
      requires g.Valid() && tid < |g.types| && tid !in alreadyProcessed && output == start
      modifies this
      ensures currentPath == old(currentPath) && alreadyProcessed == old(alreadyProcessed)
      ensures done == AttributeEdges(g, g.types[tid].attributes) && Followed(tid, start, done)
      decreases Free(g, alreadyProcessed), 1
    {
      done := [];
      var attributes := g.types[tid].attributes;
      for i := 0 to |attributes|
        invariant currentPath == old(currentPath) && alreadyProcessed == old(alreadyProcessed)
        invariant done == AttributeEdges(g, attributes[..i]) && Followed(tid, start, done)
      {
        AttributeStep(g, attributes, i);
        assert g.CheckerInRange(attributes[i].checker);
        match attributes[i].checker
        case Pointer(pointee) =>
          if pointee == g.objectType {
            continue;
          }
          done := Follow(tid, attributes[i].name, pointee, start, done);
        case Container(item) =>
          done := Follow(tid, attributes[i].name + "/[i]", item, start, done);
        case Plain =>
      }
      assert attributes[..|attributes|] == attributes;
    }

    /** DoGather's loop over the registered types. */
    method FollowChildren(tid: Tid, ghost start: seq<Output>, ghost before: seq<Edge>)
      returns (ghost done: seq<Edge>)
      requires g.Valid() && tid < |g.types| && tid !in alreadyProcessed && Followed(tid, start, before)
      modifies this
      ensures currentPath == old(currentPath) && alreadyProcessed == old(alreadyProcessed)
      ensures done == before + ChildEdges(g, tid, |g.types|) && Followed(tid, start, done)
      decreases Free(g, alreadyProcessed), 1
    {
      done := before;
      for j := 0 to |g.types|
        invariant currentPath == old(currentPath) && alreadyProcessed == old(alreadyProcessed)
        invariant done == before + ChildEdges(g, tid, j) && Followed(tid, start, done)
      {
        if g.IsChildOf(j, tid) {
          done := Follow(tid, "$" + g.types[j].name, j, start, done);
        }
      }
    }

    /** DoGather's loop over the recorded aggregations. */
    method FollowAggregates(tid: Tid, ghost start: seq<Output>, ghost before: seq<Edge>)
      returns (ghost done: seq<Edge>)
      requires g.Valid() && tid < |g.types| && tid !in alreadyProcessed && Followed(tid, start, before)
      modifies this
      ensures currentPath == old(currentPath) && alreadyProcessed == old(alreadyProcessed)
      ensures done == before + AggregateEdges(g, tid, g.aggregates) && Followed(tid, start, done)
      decreases Free(g, alreadyProcessed), 1
    {
      done := before;
      for k := 0 to |g.aggregates|
        invariant currentPath == old(currentPath) && alreadyProcessed == old(alreadyProcessed)
        invariant done == before + AggregateEdges(g, tid, g.aggregates[..k]) && Followed(tid, start, done)
      {
        AggregateStep(g, tid, k);
        var item := g.aggregates[k];
        if item.0 == tid || item.1 == tid {
          var other := item.1;
          if item.1 == tid {
            other := item.0;
          }
          done := Follow(tid, "$" + g.types[other].name, other, start, done);
        }
      }
      assert g.aggregates[..|g.aggregates|] == g.aggregates;
    }

    /** The five statements the source repeats for every edge: push the name and
        the type, search the target, pop both. */
    method Follow(tid: Tid, name: string, target: Tid, ghost start: seq<Output>, ghost done: seq<Edge>)
      returns (ghost done': seq<Edge>)
      requires g.Valid() && tid < |g.types| && tid !in alreadyProcessed && target < |g.types|
      requires Followed(tid, start, done)
      modifies this
      ensures currentPath == old(currentPath) && alreadyProcessed == old(alreadyProcessed)
      ensures done' == done + [Edge(name, target)] && Followed(tid, start, done')
      decreases Free(g, alreadyProcessed), 0
    {
      PushFrees(g, alreadyProcessed, tid);
      ghost var before := output;
      currentPath := currentPath + [name];
      alreadyProcessed := alreadyProcessed + [tid];
      DoGather(target);
      alreadyProcessed := alreadyProcessed[..|alreadyProcessed| - 1];
      currentPath := currentPath[..|currentPath| - 1];
      done' := done + [Edge(name, target)];
      AppendFound(g, done, Edge(name, target), currentPath, alreadyProcessed + [tid], start, before, output);
    }

    /** Gather passes a copy of the output to Uniquefy, whose sorting and dropping
        is lost: the output is what DoGather appended.  TypePromise and TypeSorted
        say when that is what Uniquefy promises anyway. */
    method Gather(tid: Tid)
      requires g.Valid() && tid < |g.types|
      modifies this
      ensures output == old(output) + Enumerate(g, tid, old(currentPath), old(alreadyProcessed))
      ensures currentPath == old(currentPath) && alreadyProcessed == old(alreadyProcessed)
    {
      DoGather(tid);
    }
  }
}
