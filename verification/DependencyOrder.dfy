/** The load order of the Python bindings (bindings/python/ns__init__.py):
    dependency_order repeatedly takes the libraries whose dependencies are all
    taken, one list per level, recursing until none is pending. */
module DependencyOrder {

  type Library = string

  type Dependencies = map<Library, seq<Library>>

  ghost predicate Distinct(s: seq<Library>) {
    forall i, j :: 0 <= i < j < |s| ==> s[i] != s[j]
  }

  /** `keys` lists the keys of the dictionary in its order. */
  ghost predicate KeyList(deps: Dependencies, keys: seq<Library>) {
    Distinct(keys) && forall m :: m in keys <==> m in deps
  }

  predicate CanLoad(deps: Dependencies, m: Library, current: seq<Library>)
    requires m in deps
  {
    forall d :: d in deps[m] ==> d in current
  }

  function Loadable(deps: Dependencies, pending: seq<Library>, current: seq<Library>): seq<Library>
    requires forall m :: m in pending ==> m in deps
  {
    if pending == [] then []
    else
      var last := |pending| - 1;
      var rest := Loadable(deps, pending[..last], current);
      if CanLoad(deps, pending[last], current) then rest + [pending[last]] else rest
  }

  /** list.remove: drop the first occurrence. */
  function RemoveFirst(s: seq<Library>, m: Library): seq<Library> {
    if s == [] then [] else if s[0] == m then s[1..] else [s[0]] + RemoveFirst(s[1..], m)
  }

  function Flatten(steps: seq<seq<Library>>): seq<Library> {
    if steps == [] then [] else Flatten(steps[..|steps| - 1]) + steps[|steps| - 1]
  }

  // ------------------------------------------------- what the levels should be

  /** A dependency chain: each library depends on the next. */
  ghost predicate IsChain(deps: Dependencies, c: seq<Library>) {
    c != [] && forall i :: 0 <= i < |c| - 1 ==> c[i] in deps && c[i + 1] in deps[c[i]]
  }

  /** The longest chain from m has k links, and every chain from m ends in a known library. */
  ghost predicate LongestChain(deps: Dependencies, m: Library, k: nat) {
    && (exists c :: IsChain(deps, c) && c[0] == m && |c| == k + 1)
    && (forall c :: IsChain(deps, c) && c[0] == m ==> |c| <= k + 1 && c[|c| - 1] in deps)
  }

  ghost predicate Acyclic(deps: Dependencies) {
    forall c :: IsChain(deps, c) && |c| > 1 ==> c[0] != c[|c| - 1]
  }

  ghost predicate Closed(deps: Dependencies) {
    forall m, d :: m in deps && d in deps[m] ==> d in deps
  }

  /** m and everything it needs can be loaded in k rounds. */
  ghost predicate LoadedBy(deps: Dependencies, m: Library, k: nat)
    decreases k
  {
    k > 0 && m in deps && forall d :: d in deps[m] ==> LoadedBy(deps, d, k - 1)
  }

  lemma {:induction false} LoadedLater(deps: Dependencies, m: Library, k: nat)
    requires LoadedBy(deps, m, k)
    ensures LoadedBy(deps, m, k + 1)
    decreases k
  {
    if deps[m] == [] {
    } else {
      forall d | d in deps[m] ensures LoadedBy(deps, d, k) {
        LoadedLater(deps, d, k - 1);
      }
    }
  }

  lemma {:induction false} ChainsOfLoaded(deps: Dependencies, m: Library, k: nat, c: seq<Library>)
    requires LoadedBy(deps, m, k) && IsChain(deps, c) && c[0] == m
    ensures |c| <= k && c[|c| - 1] in deps
    decreases k
  {
    if |c| == 1 {
    } else {
      ChainsOfLoaded(deps, c[1], k - 1, c[1..]);
    }
  }

  /** A library that is not loaded by round k starts a chain of k+1 libraries,
      or one that leaves the dictionary earlier. */
  lemma {:induction false} ChainOfUnloaded(deps: Dependencies, m: Library, k: nat) returns (c: seq<Library>)
    requires !LoadedBy(deps, m, k)
    ensures IsChain(deps, c) && c[0] == m
    ensures |c| == k + 1 || (|c| <= k && c[|c| - 1] !in deps)
    decreases k
  {
    if k == 0 || m !in deps {
      c := [m];
    } else {
      var d :| d in deps[m] && !LoadedBy(deps, d, k - 1);
      var rest := ChainOfUnloaded(deps, d, k - 1);
      c := [m] + rest;
      assert forall i :: 1 <= i < |c| ==> c[i] == rest[i - 1];
    }
  }

  /** A library is taken in round k exactly when its longest chain has k links. */
  lemma {:induction false} RoundIsLongestChain(deps: Dependencies, m: Library, k: nat)
    ensures LoadedBy(deps, m, k + 1) && !LoadedBy(deps, m, k) <==> LongestChain(deps, m, k)
  {
    if LoadedBy(deps, m, k + 1) && !LoadedBy(deps, m, k) {
      forall c | IsChain(deps, c) && c[0] == m ensures |c| <= k + 1 && c[|c| - 1] in deps {
        ChainsOfLoaded(deps, m, k + 1, c);
      }
      var c := ChainOfUnloaded(deps, m, k);
      assert |c| == k + 1;
    }
    if LongestChain(deps, m, k) {
      if LoadedBy(deps, m, k) {
        var c :| IsChain(deps, c) && c[0] == m && |c| == k + 1;
        ChainsOfLoaded(deps, m, k, c);
        assert false;
      }
      if !LoadedBy(deps, m, k + 1) {
        var c := ChainOfUnloaded(deps, m, k + 1);
        assert false;
      }
    }
  }

  // ------------------------------------------------ finite graphs have levels

  lemma {:induction false} DistinctFits(c: seq<Library>, s: set<Library>)
    requires Distinct(c) && forall i :: 0 <= i < |c| ==> c[i] in s
    ensures |c| <= |s|
  {
    if c == [] {
    } else {
      var last := |c| - 1;
      DistinctFits(c[..last], s - {c[last]});
    }
  }

  lemma {:induction false} ChainInKeys(deps: Dependencies, c: seq<Library>)
    requires Closed(deps) && IsChain(deps, c) && c[0] in deps
    ensures forall i :: 0 <= i < |c| ==> c[i] in deps
  {
    forall i | 0 <= i < |c| ensures c[i] in deps {
      if i > 0 {
        assert c[i - 1] in deps && c[i - 1 + 1] in deps[c[i - 1]];
      }
    }
  }

  lemma {:induction false} ChainIsDistinct(deps: Dependencies, c: seq<Library>)
    requires Acyclic(deps) && IsChain(deps, c)
    ensures Distinct(c)
  {
    forall i, j | 0 <= i < j < |c| ensures c[i] != c[j] {
      var part := c[i..j + 1];
      assert IsChain(deps, part);
      assert part[0] == c[i] && part[|part| - 1] == c[j];
    }
  }

  /** In an acyclic graph over its own keys, |deps| rounds load everything. */
  lemma {:induction false} AcyclicLoads(deps: Dependencies, m: Library)
    requires Acyclic(deps) && Closed(deps) && m in deps
    ensures LoadedBy(deps, m, |deps|)
  {
    if !LoadedBy(deps, m, |deps|) {
      var c := ChainOfUnloaded(deps, m, |deps|);
      ChainInKeys(deps, c);
      ChainIsDistinct(deps, c);
      DistinctFits(c, deps.Keys);
    }
  }

  lemma {:induction false} CycleNeverLoads(deps: Dependencies, c: seq<Library>, i: nat, k: nat)
    requires IsChain(deps, c) && |c| > 1 && c[0] == c[|c| - 1] && i < |c| - 1
    ensures !LoadedBy(deps, c[i], k)
    decreases k
  {
    if k == 0 {
    } else {
      assert c[i] in deps && c[i + 1] in deps[c[i]];
      CycleNeverLoads(deps, c, if i + 1 == |c| - 1 then 0 else i + 1, k - 1);
    }
  }

  /** Conversely, if some number of rounds loads every key then the graph is
      acyclic and closed. */
  lemma {:induction false} LoadedIsAcyclic(deps: Dependencies, k: nat)
    requires forall m :: m in deps ==> LoadedBy(deps, m, k)
    ensures Acyclic(deps) && Closed(deps)
  {
    forall m, d | m in deps && d in deps[m] ensures d in deps {
      assert LoadedBy(deps, d, k - 1);
    }
    forall c | IsChain(deps, c) && |c| > 1 ensures c[0] != c[|c| - 1] {
      if c[0] == c[|c| - 1] {
        assert c[0] in deps;
        CycleNeverLoads(deps, c, 0, k);
      }
    }
  }

  // -------------------------------------------------- the lists, round by round

  /** The keys still pending after k rounds, in dictionary order. */
  ghost function PendingAt(deps: Dependencies, keys: seq<Library>, k: nat): seq<Library> {
    if keys == [] then []
    else
      var last := |keys| - 1;
      var rest := PendingAt(deps, keys[..last], k);
      if LoadedBy(deps, keys[last], k) then rest else rest + [keys[last]]
  }

  /** The keys taken in round k, in dictionary order. */
  ghost function StepAt(deps: Dependencies, keys: seq<Library>, k: nat): seq<Library> {
    if keys == [] then []
    else
      var last := |keys| - 1;
      var rest := StepAt(deps, keys[..last], k);
      if LoadedBy(deps, keys[last], k + 1) && !LoadedBy(deps, keys[last], k) then rest + [keys[last]] else rest
  }

  lemma {:induction false} InPending(deps: Dependencies, keys: seq<Library>, k: nat, m: Library)
    ensures m in PendingAt(deps, keys, k) <==> m in keys && !LoadedBy(deps, m, k)
  {
    if keys == [] {
    } else {
      InPending(deps, keys[..|keys| - 1], k, m);
    }
  }

  lemma {:induction false} InStep(deps: Dependencies, keys: seq<Library>, k: nat, m: Library)
    ensures m in StepAt(deps, keys, k) <==> m in keys && LoadedBy(deps, m, k + 1) && !LoadedBy(deps, m, k)
  {
    if keys == [] {
    } else {
      InStep(deps, keys[..|keys| - 1], k, m);
    }
  }

  /** `current` holds exactly what k rounds load. */
  ghost predicate HoldsLoaded(deps: Dependencies, current: seq<Library>, k: nat) {
    forall m :: m in current <==> LoadedBy(deps, m, k)
  }

  lemma {:induction false} LoadableIsStep(deps: Dependencies, keys: seq<Library>, current: seq<Library>, k: nat)
    requires forall m :: m in keys ==> m in deps
    requires HoldsLoaded(deps, current, k)
    ensures forall m :: m in PendingAt(deps, keys, k) ==> m in deps
    ensures Loadable(deps, PendingAt(deps, keys, k), current) == StepAt(deps, keys, k)
  {
    if keys == [] {
    } else {
      var last := |keys| - 1;
      var m := keys[last];
      LoadableIsStep(deps, keys[..last], current, k);
      var rest := PendingAt(deps, keys[..last], k);
      assert m in keys;
      if !LoadedBy(deps, m, k) {
        assert (rest + [m])[..|rest|] == rest;
        assert CanLoad(deps, m, current) <==> LoadedBy(deps, m, k + 1);
      }
    }
  }

  lemma {:induction false} PendingDistinct(deps: Dependencies, keys: seq<Library>, k: nat)
    requires Distinct(keys)
    ensures Distinct(PendingAt(deps, keys, k))
  {
    if keys == [] {
    } else {
      var last := |keys| - 1;
      PendingDistinct(deps, keys[..last], k);
      InPending(deps, keys[..last], k, keys[last]);
    }
  }

  /** s without the members of r. */
  ghost function Without(s: seq<Library>, r: seq<Library>): seq<Library> {
    if s == [] then []
    else
      var last := |s| - 1;
      if s[last] in r then Without(s[..last], r) else Without(s[..last], r) + [s[last]]
  }

  lemma {:induction false} WithoutNone(s: seq<Library>)
    ensures Without(s, []) == s
  {
    if s == [] {
    } else {
      WithoutNone(s[..|s| - 1]);
    }
  }

  lemma {:induction false} InWithout(s: seq<Library>, r: seq<Library>, m: Library)
    ensures m in Without(s, r) <==> m in s && m !in r
  {
    if s == [] {
    } else {
      InWithout(s[..|s| - 1], r, m);
    }
  }

  lemma {:induction false} RemoveFirstAppend(s: seq<Library>, m: Library, x: Library)
    ensures RemoveFirst(s + [x], m) ==
            if m in s then RemoveFirst(s, m) + [x] else if x == m then s else s + [x]
  {
    if s == [] {
      assert s + [x] == [x];
    } else {
      assert (s + [x])[1..] == s[1..] + [x];
      if s[0] != m {
        RemoveFirstAppend(s[1..], m, x);
      }
    }
  }

  lemma {:induction false} RemoveAbsent(s: seq<Library>, m: Library)
    requires m !in s
    ensures RemoveFirst(s, m) == s
  {
    if s == [] {
    } else {
      RemoveAbsent(s[1..], m);
    }
  }

  lemma {:induction false} RemoveNext(s: seq<Library>, r: seq<Library>, m: Library)
    requires Distinct(s) && m !in r
    ensures RemoveFirst(Without(s, r), m) == Without(s, r + [m])
  {
    if s == [] {
    } else {
      var last := |s| - 1;
      RemoveNext(s[..last], r, m);
      InWithout(s[..last], r, m);
      assert s[last] in r + [m] <==> s[last] in r || s[last] == m;
      RemoveFirstAppend(Without(s[..last], r), m, s[last]);
      if m !in s[..last] {
        RemoveAbsent(Without(s[..last], r), m);
      }
    }
  }

  /** Taking a step out of the pending list leaves the next pending list. */
  lemma {:induction false} PendingShrinks(deps: Dependencies, keys: seq<Library>, k: nat, r: seq<Library>)
    requires forall m :: m in keys ==>
               (m in r <==> LoadedBy(deps, m, k + 1) && !LoadedBy(deps, m, k))
    ensures Without(PendingAt(deps, keys, k), r) == PendingAt(deps, keys, k + 1)
  {
    if keys == [] {
    } else {
      var last := |keys| - 1;
      PendingShrinks(deps, keys[..last], k, r);
      var rest := PendingAt(deps, keys[..last], k);
      assert keys[last] in keys;
      if LoadedBy(deps, keys[last], k) {
        LoadedLater(deps, keys[last], k);
      } else {
        assert (rest + [keys[last]])[..|rest|] == rest;
      }
    }
  }

  /** The first k steps. */
  ghost function Steps(deps: Dependencies, keys: seq<Library>, k: nat): (steps: seq<seq<Library>>)
    ensures |steps| == k && forall i :: 0 <= i < k ==> steps[i] == StepAt(deps, keys, i)
  {
    if k == 0 then [] else Steps(deps, keys, k - 1) + [StepAt(deps, keys, k - 1)]
  }

  /** All keys in the order of the first k rounds. */
  ghost function Rounds(deps: Dependencies, keys: seq<Library>, k: nat): seq<Library> {
    if k == 0 then [] else Rounds(deps, keys, k - 1) + StepAt(deps, keys, k - 1)
  }

  /** Dependencies come strictly before their dependents. */
  ghost predicate DependenciesFirst(deps: Dependencies, order: seq<Library>) {
    forall i, d :: 0 <= i < |order| && order[i] in deps && d in deps[order[i]] ==> d in order[..i]
  }

  lemma {:induction false} StepDistinct(deps: Dependencies, keys: seq<Library>, k: nat)
    requires Distinct(keys)
    ensures Distinct(StepAt(deps, keys, k))
  {
    if keys == [] {
    } else {
      var last := |keys| - 1;
      StepDistinct(deps, keys[..last], k);
      InStep(deps, keys[..last], k, keys[last]);
    }
  }

  lemma {:induction false} RoundsHoldLoaded(deps: Dependencies, keys: seq<Library>, k: nat)
    requires KeyList(deps, keys)
    ensures HoldsLoaded(deps, Rounds(deps, keys, k), k)
  {
    if k == 0 {
    } else {
      RoundsHoldLoaded(deps, keys, k - 1);
      forall m ensures m in Rounds(deps, keys, k) <==> LoadedBy(deps, m, k) {
        InStep(deps, keys, k - 1, m);
        if LoadedBy(deps, m, k - 1) {
          LoadedLater(deps, m, k - 1);
        }
      }
    }
  }

  lemma AppendStep(deps: Dependencies, before: seq<Library>, step: seq<Library>)
    requires Distinct(before) && Distinct(step) && DependenciesFirst(deps, before)
    requires forall m :: m in step ==> m !in before
    requires forall m, d :: m in step && m in deps && d in deps[m] ==> d in before
    ensures Distinct(before + step) && DependenciesFirst(deps, before + step)
  {
    var all := before + step;
    forall i, d | 0 <= i < |all| && all[i] in deps && d in deps[all[i]]
      ensures d in all[..i]
    {
      if i < |before| {
        assert all[..i] == before[..i];
      } else {
        assert all[i] in step;
        assert all[..i] == before + step[..i - |before|];
      }
    }
    forall i, j | 0 <= i < j < |all| ensures all[i] != all[j] {
      if i < |before| <= j {
        assert all[i] in before && all[j] in step;
      }
    }
  }

  lemma {:induction false} RoundsInOrder(deps: Dependencies, keys: seq<Library>, k: nat)
    requires KeyList(deps, keys)
    ensures Distinct(Rounds(deps, keys, k)) && DependenciesFirst(deps, Rounds(deps, keys, k))
  {
    if k == 0 {
    } else {
      RoundsInOrder(deps, keys, k - 1);
      RoundsHoldLoaded(deps, keys, k - 1);
      StepDistinct(deps, keys, k - 1);
      var before, step := Rounds(deps, keys, k - 1), StepAt(deps, keys, k - 1);
      forall m | m in step
        ensures m !in before && LoadedBy(deps, m, k)
      {
        InStep(deps, keys, k - 1, m);
      }
      AppendStep(deps, before, step);
    }
  }

  // ------------------------------------------------------------- the recursion

  datatype Outcome = Ordered(order: seq<Library>) | RecursionError

  /** `frames` calls from round k on load every key (the last call only finds
      nothing pending). */
  ghost predicate EnoughFrames(deps: Dependencies, k: nat, frames: nat) {
    frames > 0 && forall m :: m in deps ==> LoadedBy(deps, m, k + frames - 1)
  }

  /** What one round does to the lists. */
  lemma {:induction false} StepFacts(deps: Dependencies, keys: seq<Library>, k: nat)
    requires KeyList(deps, keys)
    ensures var pending, step := PendingAt(deps, keys, k), StepAt(deps, keys, k);
      && (forall m :: m in pending ==> m in deps)
      && Loadable(deps, pending, Rounds(deps, keys, k)) == step
      && Distinct(pending) && Distinct(step)
      && Without(pending, step) == PendingAt(deps, keys, k + 1)
  {
    RoundsHoldLoaded(deps, keys, k);
    LoadableIsStep(deps, keys, Rounds(deps, keys, k), k);
    PendingDistinct(deps, keys, k);
    StepDistinct(deps, keys, k);
    var step := StepAt(deps, keys, k);
    forall m | m in keys
      ensures m in step <==> LoadedBy(deps, m, k + 1) && !LoadedBy(deps, m, k)
    {
      InStep(deps, keys, k, m);
    }
    PendingShrinks(deps, keys, k, step);
  }

  lemma {:induction false} AllPendingAtStart(deps: Dependencies, keys: seq<Library>)
    ensures PendingAt(deps, keys, 0) == keys
  {
    if keys == [] {
    } else {
      AllPendingAtStart(deps, keys[..|keys| - 1]);
    }
  }

  lemma {:induction false} LoadedMuchLater(deps: Dependencies, m: Library, k: nat, n: nat)
    requires LoadedBy(deps, m, k) && k <= n
    ensures LoadedBy(deps, m, n)
    decreases n
  {
    if k == n {
    } else {
      LoadedMuchLater(deps, m, k, n - 1);
      LoadedLater(deps, m, n - 1);
    }
  }

  /** With nothing pending after k rounds, every later round also has everything;
      with something pending, k rounds are not enough. */
  lemma LoadedFromHere(deps: Dependencies, keys: seq<Library>, k: nat, n: nat)
    requires KeyList(deps, keys) && k <= n
    ensures PendingAt(deps, keys, k) == [] ==> forall m :: m in deps ==> LoadedBy(deps, m, n)
    ensures PendingAt(deps, keys, k) != [] ==> exists m :: m in deps && !LoadedBy(deps, m, k)
  {
    var p := PendingAt(deps, keys, k);
    if p == [] {
      forall m | m in deps ensures LoadedBy(deps, m, n) {
        InPending(deps, keys, k, m);
        LoadedMuchLater(deps, m, k, n);
      }
    } else {
      InPending(deps, keys, k, p[0]);
    }
  }

  /** The three lists that dependency_order mutates, shared by all its calls. */
  class Loader {
    const deps: Dependencies
    ghost const keys: seq<Library>
    var pending: seq<Library>
    var current: seq<Library>
    var steps: seq<seq<Library>>    // a dictionary with keys 0, 1, 2, ...

    constructor (deps: Dependencies, keys: seq<Library>)
      requires KeyList(deps, keys)
      ensures this.deps == deps && this.keys == keys && AtRound(0)
    {
      this.deps, this.keys := deps, keys;
      pending, current, steps := keys, [], [];
      new;
      AllPendingAtStart(deps, keys);
    }

    ghost predicate AtRound(k: nat)
      reads this
    {
      && KeyList(deps, keys)
      && pending == PendingAt(deps, keys, k)
      && current == Rounds(deps, keys, k)
      && steps == Steps(deps, keys, k)
    }

    method ModulesThatCanBeLoaded() returns (modules: seq<Library>)
      requires forall m :: m in pending ==> m in deps
      ensures modules == Loadable(deps, pending, current)
    {
      modules := [];
      for i := 0 to |pending|
        invariant modules == Loadable(deps, pending[..i], current)
      {
        assert pending[..i + 1][..i] == pending[..i];
        var needed := deps[pending[i]];
        var canBeLoaded := true;
        for j := 0 to |needed|
          invariant canBeLoaded
          invariant forall d :: d in needed[..j] ==> d in current
        {
          if needed[j] !in current {
            canBeLoaded := false;
            break;
          }
        }
        if !canBeLoaded {
          continue;
        }
        modules := modules + [pending[i]];
      }
      assert pending[..|pending|] == pending;
    }

    /** The body of dependency_order's loop, once per loadable module: file it
        under this step and move it from the pending to the current list. */
    method MoveAll(stepNumber: nat, ready: seq<Library>)
      requires stepNumber == |steps| - 1 && steps[stepNumber] == []
      requires Distinct(pending) && Distinct(ready)
      modifies this
      ensures steps == old(steps)[..stepNumber] + [ready]
      ensures pending == Without(old(pending), ready)
      ensures current == old(current) + ready
    {
      WithoutNone(pending);
      for i := 0 to |ready|
        invariant steps == old(steps)[..stepNumber] + [ready[..i]]
        invariant pending == Without(old(pending), ready[..i])
        invariant current == old(current) + ready[..i]
      {
        assert ready[..i + 1] == ready[..i] + [ready[i]];
        RemoveNext(old(pending), ready[..i], ready[i]);
        steps := steps[stepNumber := steps[stepNumber] + [ready[i]]];
        pending := RemoveFirst(pending, ready[i]);
        current := current + [ready[i]];
      }
      assert ready[..|ready|] == ready;
    }

    /** One level: everything that can be loaded now. */
    method TakeStep(stepNumber: nat)
      requires AtRound(stepNumber)
      modifies this
      ensures AtRound(stepNumber + 1)
    {
      StepFacts(deps, keys, stepNumber);
      steps := steps + [[]];
      var ready := ModulesThatCanBeLoaded();
      MoveAll(stepNumber, ready);
    }

    /** One call of dependency_order with `frames` stack frames left.  It
        completes exactly when that many rounds load every key. */
    method Order(stepNumber: nat, frames: nat) returns (ok: bool)
      requires AtRound(stepNumber)
      modifies this
      ensures ok <==> EnoughFrames(deps, stepNumber, frames)
      ensures AtRound(|steps|)
      ensures ok ==> pending == []
      decreases frames
    {
      if frames == 0 {
        return false;
      }
      LoadedFromHere(deps, keys, stepNumber, stepNumber + frames - 1);
      if pending == [] {
        return true;
      }
      TakeStep(stepNumber);
      ok := Order(stepNumber + 1, frames - 1);
    }
  }

  lemma {:induction false} FlattenRounds(deps: Dependencies, keys: seq<Library>, k: nat)
    ensures Flatten(Steps(deps, keys, k)) == Rounds(deps, keys, k)
  {
    if k == 0 {
    } else {
      FlattenRounds(deps, keys, k - 1);
      assert Steps(deps, keys, k)[..k - 1] == Steps(deps, keys, k - 1);
    }
  }

  /** sort_to_dependencies, from the collected dependencies on: order the keys
      and flatten the steps. */
  method SortToDependencies(deps: Dependencies, keys: seq<Library>, frames: nat)
    returns (r: Outcome, ghost steps: seq<seq<Library>>)
    requires KeyList(deps, keys)
    ensures r.Ordered? <==> EnoughFrames(deps, 0, frames)
    ensures r.Ordered? ==>
      && Distinct(r.order) && (forall m :: m in r.order <==> m in deps)
      && DependenciesFirst(deps, r.order)
      && r.order == Flatten(steps)
      && forall k, m :: 0 <= k < |steps| ==> (m in steps[k] <==> m in deps && LongestChain(deps, m, k))
  {
    var loader := new Loader(deps, keys);
    var ok := loader.Order(0, frames);
    steps := loader.steps;
    if !ok {
      return RecursionError, steps;
    }
    var sorted := [];
    for i := 0 to |loader.steps|
      invariant sorted == Flatten(loader.steps[..i])
    {
      assert loader.steps[..i + 1][..i] == loader.steps[..i];
      sorted := sorted + loader.steps[i];
    }
    assert loader.steps[..|steps|] == steps;
    FlattenRounds(deps, keys, |steps|);
    RoundsInOrder(deps, keys, |steps|);
    RoundsHoldLoaded(deps, keys, |steps|);
    LoadedFromHere(deps, keys, |steps|, |steps|);
    forall k, m | 0 <= k < |steps|
      ensures m in steps[k] <==> m in deps && LongestChain(deps, m, k)
    {
      InStep(deps, keys, k, m);
      RoundIsLongestChain(deps, m, k);
    }
    r := Ordered(sorted);
  }

  /** The recursion can complete at all exactly on acyclic graphs over their own
      keys, and then one stack frame more than there are libraries suffices. */
  lemma {:induction false} CompletesIff(deps: Dependencies)
    ensures (exists frames: nat :: EnoughFrames(deps, 0, frames)) <==> Acyclic(deps) && Closed(deps)
    ensures EnoughFrames(deps, 0, |deps| + 1) <==> Acyclic(deps) && Closed(deps)
  {
    if frames: nat :| EnoughFrames(deps, 0, frames) {
      LoadedIsAcyclic(deps, frames - 1);
    }
    if Acyclic(deps) && Closed(deps) {
      forall m | m in deps ensures LoadedBy(deps, m, |deps|) {
        AcyclicLoads(deps, m);
      }
      assert EnoughFrames(deps, 0, |deps| + 1);
    }
  }

  /** A library that depends on itself, and one that depends on an unknown one: no
      number of stack frames is enough. */
  lemma NeverCompletes(m: Library, d: Library)
    requires m != d
    ensures forall frames: nat :: !EnoughFrames(map[m := [m]], 0, frames)
    ensures forall frames: nat :: !EnoughFrames(map[m := [d]], 0, frames)
  {
    var self, unknown := map[m := [m]], map[m := [d]];
    CompletesIff(self);
    CompletesIff(unknown);
    assert IsChain(self, [m, m]);
    assert m in unknown && d in unknown[m] && d !in unknown;
  }

  lemma {:induction false} WithoutFewer(s: seq<Library>, r: seq<Library>)
    ensures |Without(s, r)| <= |s|
    ensures (exists m :: m in s && m in r) ==> |Without(s, r)| < |s|
  {
    if s == [] {
    } else {
      WithoutFewer(s[..|s| - 1], r);
    }
  }

  lemma {:induction false} SomeNext(deps: Dependencies, m: Library, k: nat, n: nat) returns (next: Library)
    requires !LoadedBy(deps, m, k) && LoadedBy(deps, m, n)
    ensures next in deps && LoadedBy(deps, next, k + 1) && !LoadedBy(deps, next, k)
    decreases n
  {
    if LoadedBy(deps, m, k + 1) {
      next := m;
    } else {
      var d :| d in deps[m] && !LoadedBy(deps, d, k);
      next := SomeNext(deps, d, k, n - 1);
    }
  }

  /** While something is pending in such a graph, a round takes something: the
      pending list gets shorter at every call. */
  lemma {:induction false} EveryRoundTakes(deps: Dependencies, keys: seq<Library>, k: nat)
    requires KeyList(deps, keys) && Acyclic(deps) && Closed(deps)
    requires PendingAt(deps, keys, k) != []
    ensures StepAt(deps, keys, k) != []
    ensures |PendingAt(deps, keys, k + 1)| < |PendingAt(deps, keys, k)|
  {
    var m := PendingAt(deps, keys, k)[0];
    InPending(deps, keys, k, m);
    AcyclicLoads(deps, m);
    var next := SomeNext(deps, m, k, |deps|);
    InStep(deps, keys, k, next);
    InPending(deps, keys, k, next);
    StepFacts(deps, keys, k);
    WithoutFewer(PendingAt(deps, keys, k), StepAt(deps, keys, k));
  }
}
