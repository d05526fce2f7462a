# Verified models of the P-EDCA simulation scratch programs and of ns-3's tooling

The repository is ns-3 with scratch programs that compare P-EDCA stations with
EDCA stations.  This project models the self-contained algorithms around the
simulations: the thread pool that runs ns-3's test suites, the traffic
application that loads the stations, the search for configuration paths, the
load order of the Python bindings, the arithmetic of the reported measurements,
the style fixer, and a TCP example's resumable writer.  It proves what they
promise for all inputs and over all runs.

`dafny verify dfyconfig.toml` checks the whole project.

| module | models |
|---|---|
| JobPool, PoolRuns, PoolResults, Tally | test.py: worker threads, dispatch, sentinels, collection, join; what is executed and returned; the summary counters, the failed-jobs list and the exit status |
| EventSimulator | src/core/model/default-simulator-impl.cc: the live-event set |
| TrafficModel, TrafficInvariant, TrafficTimers, TrafficMeaning, TrafficRates, TrafficApp, WeightedPick | scratch/uhr-mld-mixed-pedca.cc: `DynamicTrafficClientApp` as a state machine over values, what its handlers do in bits, bytes and draws, its invariants over all runs, and the application as an object whose handlers refine the state machine |
| TypePaths, TypeEdges, TypeWalks, TypePromise, TypeSorted | utils/print-introspected-doxygen.cc: `StaticInformation` |
| DependencyOrder | bindings/python/ns__init__.py: `sort_to_dependencies` |
| Percentiles, Cdfs, DelayHistograms, QueueDepth, QueueDelay, Stations, Fairness, Moments, Welford | scratch/uhr-mld-mixed-pedca.cc, examples/tcp/dctcp-example.cc, utils/bench-scheduler.cc: percentiles, CDFs, histogram merging, queue statistics, station groups, Jain's index, mean and variance |
| StyleFixer | utils/check-style-clang-format.py: the guarded line fixer |
| BufferWriter, Arithmetic | examples/socket/socket-bound-tcp-static-routing.cc: `WriteUntilBufferFull` |

## Conventions and assumptions

- Doubles and simulation times are exact reals.  Counters that the source keeps in
  64 bits are unbounded, except where their wrap-around is part of the result
  (`Fairness`: the unsigned Jain index; `Percentiles`: the wrapped index at q = 0;
  `Stations`: the 8-bit link id).
- Random draws, profile durations, socket replies, the events of other code, the
  completion order of jobs and the moment of an interrupt are inputs; statements
  quantify over all of them.  A profile duration is the number of milliseconds that is left
  after its conversion to a simulation time.
- A `std::map` is the sequence of its entries in key order, a Python dictionary
  comes with the list of its keys in insertion order, and a sort is described by its
  result: an ascending list with the same multiset of elements.
- Type names and attribute names are unique because registration aborts otherwise
  (src/core/model/type-id.cc:388, 698-702).  That they contain no slash and do not start
  with `[` or `$` is an assumption, made only where paths are read back
  (`TypePromise.RegisteredNamesTell`).
- `DynamicTrafficClientApp` is started once and stopped at most once, afterwards;
  its configuration has at least one flow and positive rates.  Other code may
  schedule and cancel events of its own, not the application's.

## Where the code and its promises differ

- **A zero draw picks the excluded flow.**  `PickFlow` compares `sample <= running`,
  so a draw of exactly 0 returns index 0 even when index 0 is excluded.  Then one
  profile change starts the same flow twice, and two send timers are live of which
  only one is stored.  The one-timer invariant is therefore stated as an equivalence
  (`TrafficTimers.OneTimerIff`): a run keeps it exactly when no profile change is such
  a double pick; strictly positive draws, which is what ns-3's uniform generator
  delivers, exclude it (`PositiveIsSingle`), and `ZeroDrawsDouble` is the failing input.
- **Percentiles at q = 0.**  The sorted form's index wraps around and returns the
  last value, the histogram form returns the first.  The two forms agree exactly when
  q is positive or there is one value only (`Percentiles.PercentilesAgree`).
- **Link ids are 8 bits wide.**  Round robin over the links is balanced for every
  number of stations exactly when there are at most 256 links or a multiple of 256
  (`Stations.BalancedIff`).  The program aborts unless there are one or two links
  (scratch/uhr-mld-mixed-pedca.cc:693), so a completed simulation is always balanced.
- **The unsigned Jain index wraps.**  `Fairness.DenominatorDecides` says exactly when
  nothing wraps, and then the printed number is Jain's index.  `FairGroupLost` is ten
  equal flows whose index becomes 0/0; `LuckyWrap` shows that a wrap can also cancel
  out, so the condition is exact for the four words, not for their quotient.
- **A fix can create a guard.**  Expanding a tab can turn an ordinary line into a
  formatting guard (`StyleFixer.FixCanCreateGuard`); the second pass is clean all the
  same (`SecondPassClean`).
- **`Uniquefy` takes its container by value.**  Its comment
  (utils/print-introspected-doxygen.cc:450-464) promises sorting and dropping of
  duplicates in place, but the caller's list is unchanged.  `TypePromise.DuplicateOutput`
  and `TypeSorted.UnsortedOutput` are graphs of two types, one a child of the other and
  aggregated with it, that break both halves.  Otherwise the edges decide.  There are
  no duplicates exactly when no type offers the same edge twice to a type that a walk
  to it can have avoided (`TypePromise.NoDuplicatesIff`, for registered names, see
  `RegisteredNamesTell`).  The list is sorted exactly when every edge to such a type
  goes up, and whatever an edge leads to comes before the target of each later edge
  (`TypeSorted.KeepsPromiseIff`, for any names).
- **A pool without workers hangs.**  With jobs and no worker the pool gets stuck; with
  a worker, or without jobs, it never does (`PoolRuns.DeadlockIff`).
- **`dependency_order` does not terminate on a cycle or an unknown dependency.**
  Python ends it with a recursion error.  `DependencyOrder.NeverCompletes` gives both
  inputs, and `CompletesIff` says exactly when it completes.
- **`WriteUntilBufferFull` calls `Close` when it runs out of room**, not only when
  everything is sent (ns-3's own TCP socket defers such a close while data is pending,
  src/internet/model/tcp-socket-base.cc:855-863).  `BufferWriter.RunsOutIff` and
  `BufferWriter.Flow.WriteToBuffer` say when: on a send buffer, exactly when the room at
  the start of the call is less than what is left to send.

## Model

| member | source | states |
|---|---|---|
| JobPool.StepInv | test.py:1101-1185 | every atomic step of the main thread, a worker or the signal handler keeps the global invariant: jobs neither lost nor duplicated (for all jobs, for skipped jobs and for each single job), one sentinel per worker, real jobs ahead of sentinels, phases of the main thread in order, break marks only after an interrupt |
| PoolRuns.RunInv | test.py:1599-1640 | the invariant holds in every state of every interleaving |
| PoolRuns.Progress | test.py:1954-1980 | with a worker, a state that is not final has a step other than the interrupt |
| PoolRuns.AllDelivered | test.py:1954-1957 | when all sentinels are sent and all workers gone, the input queue is empty and the results are exactly the dispatched jobs |
| PoolRuns.StuckIsFinal | test.py:1977-1980 | a pool with a worker stops only after the main thread joined everybody |
| PoolRuns.Delivery | test.py:2142-2143 | at the end of every complete run both queues are empty, all workers were joined and each dispatched job was collected exactly once |
| PoolRuns.Termination | test.py:1101-1128 | no schedule is longer than 6 steps per job, 7 per worker, and one |
| PoolRuns.OneSentinelPerWorker | test.py:1108-1109 | at each moment of a run a worker has taken one sentinel if it is gone and none otherwise |
| PoolRuns.InterruptStopsLaunches | test.py:1115-1118 | after an interrupt no worker passes the exit test: the commands that still finish are those of the workers that were past it |
| PoolRuns.DeadlockIff | test.py:1637-1640 | some run gets stuck before its end exactly when there are jobs and no worker |
| PoolResults.NoSkippedCommand | test.py:1124-1128 | whenever a command finishes in a run, the job its worker holds is neither to be skipped nor marked as a break |
| PoolResults.ResultsAreReturned | test.py:1124-1185 | at the end of every complete run, and for every job and return code, as many collected results that are neither skipped nor interrupted carry that code as commands of that job returned it |
| PoolResults.EachJobRunsOnce | test.py:1124-1178 | at the end of such a run the command of a job that is not to be skipped was executed at most as often as the job was dispatched, and without an interrupt exactly as often |
| Tally.CollectResults | test.py:1969-2128 | each counter is the number of results with its outcome and, for the commands that were executed, with its return code: 0 passed, 1 failed, 2 valgrind, any other crashed; the loop appends to and pops from the failed-jobs list as often as the outcome and the result file say |
| Tally.OutcomesByCode | test.py:1987-2013 | the outcomes of executed jobs are the return codes 0, 1, 2 and all others |
| Tally.OutcomesAddUp | test.py:1977-2013 | passed, failed, crashed, valgrind, skipped and interrupted results add up to all results |
| Tally.ListedIff | test.py:1993-1998 | a job is in the failed-jobs list exactly when some result of it was executed and either returned something other than 0 or was a suite whose result file says neither passed nor skipped |
| Tally.ListLength | test.py:1993-2128 | the list has an entry for each executed job that did not return 0, and one for each executed suite that its result file does not confirm |
| Tally.OrderIndependent | test.py:1977-2013 | the counts depend on the multiset of results, not on the completion order |
| Tally.FineCount | test.py:2252-2255 | passed plus skipped equals the total exactly when every result is one or the other |
| Tally.FinishedRun | test.py:1969-2255 | after a complete run of the pool the counters and the interrupted jobs add up to the dispatched jobs; passed, failed, valgrind and crashed are the numbers of commands of the run that returned 0, 1, 2 and anything else; the status is 0 exactly when no job was interrupted and every command of the run returned 0; without an interrupt none is interrupted and the skipped ones are those dispatched as such |
| EventSimulator.Sim.PendingIffLive | src/core/model/default-simulator-impl.cc:345-367 | the test on time stamp, serial number and cancel flag says exactly whether the event is in the queue and not cancelled |
| EventSimulator.Sim.ScheduleFacts | src/core/model/default-simulator-impl.cc:209-228 | scheduling adds one live event with a new id and keeps all others and all ids |
| EventSimulator.Sim.CancelFacts | src/core/model/default-simulator-impl.cc:336-343 | cancelling makes that event dead and no other |
| EventSimulator.Sim.PopFacts | src/core/model/default-simulator-impl.cc:116-135 | taking the next event moves time forward and removes just that event |
| WeightedPick.PickIndex | scratch/uhr-mld-mixed-pedca.cc:205-221 | the two loops compute the scan of the running sum that the lemmas below are about |
| WeightedPick.ScanExact | scratch/uhr-mld-mixed-pedca.cc:211-221 | for a sample in (0, total] the scan returns index i exactly when the sample is in the i-th half-open interval, whose length is the weight and which has positive weight |
| WeightedPick.ExcludedIff | scratch/uhr-mld-mixed-pedca.cc:192-222 | the excluded index is returned exactly when it is 0 and the draw is 0 |
| WeightedPick.CategoriesDiffer | scratch/wifi-clients-udp.cc:137-160 | two categories of one profile are equal exactly when the first is 0 and the second draw is 0 |
| TrafficInvariant.BothActiveSteady | scratch/uhr-mld-mixed-pedca.cc:225-245 | a profile change leaves one or two flows active, and ids and handlers in order |
| TrafficInvariant.ProfileWeak | scratch/uhr-mld-mixed-pedca.cc:224-251 | the profile timer that a profile change schedules is the only one |
| TrafficInvariant.StepWeak | scratch/uhr-mld-mixed-pedca.cc:150-301 | every start, stop, event and foreign action, whatever is drawn, keeps: one live profile timer, the stored one, while running and none after the stop, one or two flows active while running, and ids that belong to their handlers; after the stop nothing is sent |
| TrafficInvariant.RunWeak | scratch/uhr-mld-mixed-pedca.cc:150-301 | that invariant, profile timer and active flows, holds in every state of every run |
| TrafficInvariant.SilentAfterStop | scratch/uhr-mld-mixed-pedca.cc:171-190 | from the stop on no state of a run has further sends or bytes |
| TrafficMeaning.IntervalCarriesPacket | scratch/uhr-mld-mixed-pedca.cc:263-264 | the packet interval, at the rate of the flow, carries the bits of one packet |
| TrafficMeaning.ScheduleNextSets | scratch/uhr-mld-mixed-pedca.cc:260-269 | the timer that is stored is live and due when the rate has carried the bits of one packet |
| TrafficMeaning.SendEffect | scratch/uhr-mld-mixed-pedca.cc:271-301 | a flow sends exactly when it is active, its socket open, the packet size positive and the cap not reached: a whole packet or what the cap leaves, of which it counts what the socket took; then its timer is set and no other flow is touched; otherwise nothing happens |
| TrafficMeaning.ProfileEffect | scratch/uhr-mld-mixed-pedca.cc:224-251 | after a profile change the active flows are the first choice, and the second if there are two flows and the draw is below the probability of two; the next change is due after the drawn duration |
| TrafficMeaning.FirstChoice | scratch/uhr-mld-mixed-pedca.cc:192-222 | with the four categories as flows, the first choice is background for draws up to 0.02, best effort up to 0.10, video up to 0.20 and voice above |
| TrafficMeaning.CategoryChoice | scratch/wifi-clients-udp.cc:137-160 | the categories of the other program are chosen by draws up to 0.40, 0.50, 0.85 and above |
| TrafficTimers.SecondPick | scratch/uhr-mld-mixed-pedca.cc:238-245 | the second flow equals the first exactly when that is flow 0 and the draw is 0 |
| TrafficTimers.ProfileTimersIff | scratch/uhr-mld-mixed-pedca.cc:224-251 | a profile change keeps one timer per flow, the stored one, exactly when it is no double pick |
| TrafficTimers.OneTimerIff | scratch/uhr-mld-mixed-pedca.cc:150-301 | in all states of a run each flow has at most one live send timer, the stored one, only active flows have one, and none is live before the start or after the stop, exactly when no profile change of the run is a double pick |
| TrafficTimers.PositiveIsSingle | scratch/uhr-mld-mixed-pedca.cc:211-219 | with positive draws no step is a double pick |
| TrafficTimers.ZeroDrawsDouble | scratch/uhr-mld-mixed-pedca.cc:211-245 | all-zero draws with two flows and no cap do break the one-timer invariant at the start |
| TrafficRates.StepRated | scratch/uhr-mld-mixed-pedca.cc:253-301 | each step keeps, per flow, the pacing of sends by the stored timer |
| TrafficRates.RateBound | scratch/uhr-mld-mixed-pedca.cc:260-301 | in a run without double picks the bits of the sends of a flow beyond its activations are at most what its rate carries in the elapsed time |
| TrafficRates.StepBytes | scratch/uhr-mld-mixed-pedca.cc:271-301 | each step keeps the byte bounds under a socket that takes at most, or exactly, what it is offered |
| TrafficRates.BytesAt | scratch/uhr-mld-mixed-pedca.cc:279-299 | in every state of a run sent bytes never exceed a nonzero cap, and with full acceptance they are min(k * packetSize, cap) after k sends |
| TrafficApp.DynamicTrafficClientApp.StartApplication | scratch/uhr-mld-mixed-pedca.cc:150-169 | the handler does to the application and the simulator what the start step of the state machine does |
| TrafficApp.DynamicTrafficClientApp.StopApplication | scratch/uhr-mld-mixed-pedca.cc:171-190 | likewise for the stop |
| TrafficApp.DynamicTrafficClientApp.PickFlow | scratch/uhr-mld-mixed-pedca.cc:192-222 | weights by traffic class, zero for the excluded flow, and the weighted pick |
| TrafficApp.DynamicTrafficClientApp.DeactivateAll | scratch/uhr-mld-mixed-pedca.cc:227-234 | all flows inactive, their pending timers cancelled |
| TrafficApp.DynamicTrafficClientApp.ActivateChosen | scratch/uhr-mld-mixed-pedca.cc:227-245 | deactivation followed by one or two activations, as in the state machine |
| TrafficApp.DynamicTrafficClientApp.ChangeProfileNow | scratch/uhr-mld-mixed-pedca.cc:224-251 | the profile step of the state machine |
| TrafficApp.DynamicTrafficClientApp.ActivateFlow | scratch/uhr-mld-mixed-pedca.cc:253-258 | the activation of the state machine |
| TrafficApp.DynamicTrafficClientApp.ScheduleNextPacket | scratch/uhr-mld-mixed-pedca.cc:260-269 | the scheduling of the state machine: the new timer is stored, live, and due when the rate has carried the bits of one packet |
| TrafficApp.DynamicTrafficClientApp.SendPacketNow | scratch/uhr-mld-mixed-pedca.cc:271-301 | the send step of the state machine, early returns included |
| TypePaths.StaticInformation.HasAlreadyBeenProcessed | utils/print-introspected-doxygen.cc:421-433 | membership in the stack of types on the current path |
| TypePaths.StaticInformation.GetCurrentPath | utils/print-introspected-doxygen.cc:402-412 | the names on the stack, each after a slash |
| TypePaths.StaticInformation.RecordOutput | utils/print-introspected-doxygen.cc:414-419 | one more output with the current path |
| TypePaths.StaticInformation.Follow | utils/print-introspected-doxygen.cc:517-521 | one edge: push, search, pop |
| TypePaths.StaticInformation.FollowAttributes | utils/print-introspected-doxygen.cc:498-537 | pointer attributes except pointers to Object, and container attributes, in order |
| TypePaths.StaticInformation.FollowChildren | utils/print-introspected-doxygen.cc:538-550 | every registered child type, in order |
| TypePaths.StaticInformation.FollowAggregates | utils/print-introspected-doxygen.cc:551-571 | every aggregation that involves the type, in order |
| TypePaths.StaticInformation.DoGather | utils/print-introspected-doxygen.cc:489-572 | terminates on every finite, possibly cyclic graph, restores both stacks, and appends what the recursive enumerator lists |
| TypePaths.StaticInformation.Gather | utils/print-introspected-doxygen.cc:481-487 | the same; nothing is sorted or dropped |
| TypeEdges.ChildIff | src/core/model/type-id.cc:1040-1049 | a type is a child of another exactly when a nonempty chain of parents leads to that other type |
| TypeEdges.EdgesInOrder | utils/print-introspected-doxygen.cc:498-571 | the edges of a type are one for each attribute that leads on, then one for each registered descendant, then one for each aggregation that involves it, each group in its order; with target and name of each |
| TypeEdges.EdgeIff | utils/print-introspected-doxygen.cc:498-571 | an edge is followed exactly when it is a pointer attribute to a type other than Object, under its name; a container attribute, under its name and `/[i]`; another type with a chain of parents to this one; or the other end of an aggregation, both under `$` and the name of the type |
| TypeEdges.GatherRecords | utils/print-introspected-doxygen.cc:481-572 | a pair of type and path is recorded exactly when it is the end and the text of a sequence of such edges from the root that repeats no type |
| TypeWalks.OutputPerWalk | utils/print-introspected-doxygen.cc:489-572 | the k-th output carries the end and the names of the k-th enumerated walk |
| TypeWalks.WalksExact | utils/print-introspected-doxygen.cc:493-496 | a walk is enumerated exactly when it is free of repetition and of the types already on the stack |
| TypeWalks.SimpleAgrees | utils/print-introspected-doxygen.cc:493-496 | being free of repetition, step by step, means that no two positions of the walk have the same type |
| TypeWalks.WalksIncreasing | utils/print-introspected-doxygen.cc:498-571 | walks come in the order of their edges, prefixes first |
| TypeWalks.GatherIsExact | utils/print-introspected-doxygen.cc:481-572 | from a root: one output per repetition-free edge sequence and no other, parallel edges counted separately, in search order, none twice |
| TypeWalks.CutLoops | utils/print-introspected-doxygen.cc:493-496 | every walk can be shortened to a repetition-free one with the same end that avoids whatever the walk avoids |
| TypeWalks.GatherReaches | utils/print-introspected-doxygen.cc:481-572 | a type has an output exactly when some walk, cyclic or not, reaches it |
| TypePromise.ShowInjective | utils/print-introspected-doxygen.cc:402-412 | a path can be read back into the names it was made of |
| TypePromise.RegisteredNamesTell | utils/print-introspected-doxygen.cc:498-571 | with unique names the name of an edge tells its target, among the edges of one type |
| TypePromise.TwiceIsDuplicate | utils/print-introspected-doxygen.cc:538-571 | a type that offers the same edge twice to a type that a walk to it avoids causes a duplicate, whatever the names are |
| TypePromise.NoDuplicatesIff | utils/print-introspected-doxygen.cc:465-487 | where names tell, the gathered list has no duplicates exactly when there is no such type |
| TypePromise.DuplicateOutput | utils/print-introspected-doxygen.cc:538-571 | a type that is a child of another and aggregated with it is listed twice |
| TypeSorted.SimpleIsUp | utils/print-introspected-doxygen.cc:493-496 | where every edge to a type that can be new goes up, the search only ever goes up |
| TypeSorted.KeepsPromiseIff | utils/print-introspected-doxygen.cc:465-487 | the gathered list is sorted by type and path, without duplicates, exactly when every edge to a type that a walk to its start avoids goes to a larger type, and whatever goes up from one edge of a reached type comes before the target of each later edge up |
| TypeSorted.UnsortedOutput | utils/print-introspected-doxygen.cc:538-571 | the same two types break the order as well |
| DependencyOrder.Loader.ModulesThatCanBeLoaded | bindings/python/ns__init__.py:444-455 | the pending libraries all of whose dependencies are current, in order |
| DependencyOrder.Loader.MoveAll | bindings/python/ns__init__.py:464-469 | the loop files the loadable libraries under the step and moves them from pending to current |
| DependencyOrder.Loader.TakeStep | bindings/python/ns__init__.py:462-469 | one call takes all three lists from round k to round k + 1 |
| DependencyOrder.Loader.Order | bindings/python/ns__init__.py:457-472 | the recursion completes exactly when the available stack frames suffice for the rounds it takes to load every key, and then nothing is pending |
| DependencyOrder.SortToDependencies | bindings/python/ns__init__.py:474-479 | on completion every library occurs once, after all its dependencies, and is in step k exactly when its longest dependency chain has length k |
| DependencyOrder.RoundIsLongestChain | bindings/python/ns__init__.py:444-455 | a library is first loadable in round k exactly when its longest chain has k links |
| DependencyOrder.AcyclicLoads | bindings/python/ns__init__.py:457-472 | in an acyclic graph over its own keys as many rounds as libraries load everything |
| DependencyOrder.LoadedIsAcyclic | bindings/python/ns__init__.py:457-472 | conversely, a graph all of whose keys are loaded by some round is acyclic and has no unknown dependency |
| DependencyOrder.CompletesIff | bindings/python/ns__init__.py:457-472 | some number of frames suffices exactly for such graphs, and then one more than there are libraries does |
| DependencyOrder.EveryRoundTakes | bindings/python/ns__init__.py:464-468 | in such a graph each call with something pending makes the pending list shorter |
| DependencyOrder.NeverCompletes | bindings/python/ns__init__.py:457-472 | a library that depends on itself, or on one that is not a key, is never completed with any number of frames |
| DependencyOrder.RoundsInOrder | bindings/python/ns__init__.py:474-479 | the libraries of the first k rounds are distinct and follow their dependencies |
| Percentiles.HistogramPercentile | scratch/uhr-mld-mixed-pedca.cc:375-387 | for q in (0, 1] the cumulative scan returns the q-quantile of the expanded sample list: a sample with fewer than q of all samples below it and at least q of them up to it; for every q from 0 on, the nearest-rank percentile |
| Percentiles.ScanIsNearestRank | scratch/uhr-mld-mixed-pedca.cc:375-387 | the scan as a function has that meaning for every q from 0 on |
| Percentiles.SortedIsNearestRank | scratch/uhr-mld-mixed-pedca.cc:341-351 | for q > 0 the sorted form returns the nearest-rank percentile of its list |
| Percentiles.RankedIsQuantile | scratch/uhr-mld-mixed-pedca.cc:349 | for q in (0, 1] the nearest-rank percentile is the q-quantile, said in shares of the samples and without a rank |
| Percentiles.QuantileUnique | scratch/uhr-mld-mixed-pedca.cc:341-351 | a list has one q-quantile |
| Percentiles.NearestRankUnique | scratch/uhr-mld-mixed-pedca.cc:341-351 | there is one nearest-rank percentile |
| Percentiles.PercentilesAgree | scratch/uhr-mld-mixed-pedca.cc:341-393 | the two forms agree on the same samples exactly when q is positive or there is one value only |
| Percentiles.ValuesAtZero | scratch/uhr-mld-mixed-pedca.cc:348-350 | at q = 0 the scan returns the first value and the sorted form the last |
| Percentiles.GetHistogramPercentiles | scratch/uhr-mld-mixed-pedca.cc:368-393 | zeros without samples; otherwise the 0.50, 0.90, 0.95, 0.99 and 0.999 quantiles of the samples, which are the five numbers that the sorted form reports for them |
| Cdfs.BuildCdf | scratch/uhr-mld-mixed-pedca.cc:395-411 | one entry per bin, and none without samples; the lemmas below say what the entries are |
| Percentiles.SortedByResult | scratch/uhr-mld-mixed-pedca.cc:360 | a list has one ascending arrangement, so sorting is fixed by its result |
| Percentiles.GetPercentiles | scratch/uhr-mld-mixed-pedca.cc:353-366 | zeros without values; otherwise the 0.50, 0.90, 0.95, 0.99 and 0.999 quantiles of the values, for up to 2^64 of them, whatever ascending arrangement the sort makes |
| Cdfs.BuildCdfFromValues | scratch/uhr-mld-mixed-pedca.cc:413-428 | one entry per value, a repeated one included: those of the ascending arrangement of the values, each with its place in it as a share of all places |
| Cdfs.CdfMeaning | scratch/uhr-mld-mixed-pedca.cc:405-409 | each entry, the last included, is a value and the share of samples at most it; the last probability is 1 exactly when the total is the number of samples |
| Cdfs.CdfIncreases | scratch/uhr-mld-mixed-pedca.cc:405-409 | values and probabilities increase strictly |
| Cdfs.CdfsAgree | scratch/uhr-mld-mixed-pedca.cc:395-428 | the CDF of the bins is the CDF of the samples restricted to the last occurrence of each value |
| DelayHistograms.AddBin | scratch/uhr-mld-mixed-pedca.cc:1305-1335 | one more bin of a flow keeps it true that each of the four histograms holds, at the end of each bin in milliseconds, exactly the samples of the flows of its kind, and that the two counters count those above 10 and 20 ms |
| DelayHistograms.CollectsIff | scratch/uhr-mld-mixed-pedca.cc:1253-1302 | the tests of the loop pick the UDP flows to the access point or a station with no switched-off direction; of these the uplink, the downlink, and those on the fourth port of some station |
| DelayHistograms.AddFlow | scratch/uhr-mld-mixed-pedca.cc:1303-1336 | after a flow each histogram holds, at every value, the samples of the flows of its kind so far |
| DelayHistograms.MergeDelays | scratch/uhr-mld-mixed-pedca.cc:1253-1336 | the same for all flows; totals equal the sums of the bins, and each counter together with the samples up to its limit makes all samples |
| DelayHistograms.DirectionsAddUp | scratch/uhr-mld-mixed-pedca.cc:1260-1265 | uplink plus downlink samples are all samples, plus those counted twice, which are none if the access point's address is no station address |
| DelayHistograms.ReportDelays | scratch/uhr-mld-mixed-pedca.cc:1366-1372 | the four reported groups of delay percentiles are the five quantiles of the samples of all counted, uplink, downlink and voice flows |
| DelayHistograms.ReportIsFaithful | scratch/uhr-mld-mixed-pedca.cc:1366-1372 | percentiles of a merged histogram are percentiles of any sorted list of the merged samples |
| Welford.StepIsExact | utils/bench-scheduler.cc:345-349 | one update takes the exact mean and sum of squared deviations of a list to those of the list with one more sample |
| Welford.Accumulate | utils/bench-scheduler.cc:345-349 | the statements perform such an update |
| Welford.AccumulateAll | utils/bench-scheduler.cc:338-359 | and do so for all six fields of a run |
| Welford.Log | utils/bench-scheduler.cc:319-368 | nothing for fewer than two runs; otherwise each average is the exact mean, and each value under the square root the population variance, never negative |
| Fairness.JainRange | scratch/uhr-mld-mixed-pedca.cc:1192 | for nonnegative counts, not all zero, the index is in [1/n, 1]; it is 1 exactly when all are equal and 1/n exactly when one station receives everything |
| Fairness.JainOfReceived | scratch/uhr-mld-mixed-pedca.cc:1168-1192 | the one-pass sums give 0 if nothing was received and otherwise the square of the sum over n times the sum of squares, with these bounds |
| Fairness.CauchySchwarz | examples/tcp/dctcp-example.cc:180-186 | sum squared is at most n times the sum of squares |
| Fairness.DenominatorDecides | examples/tcp/dctcp-example.cc:180-186 | nothing wraps, `sum * sum` included, exactly when n times the sum of squares is below 2^64 |
| Fairness.PrintedIndexIsJain | examples/tcp/dctcp-example.cc:186 | without a wrap the printed number is Jain's index, or 0/0 when nothing was received |
| Fairness.PrintFairness | examples/tcp/dctcp-example.cc:173-240 | for the groups of 10, 20 and 10 flows the printed index is Jain's and the printed average is less than 8 bits per flow below the exact one, and the two aggregates are the bits of their groups, as long as the words involved do not wrap |
| Fairness.AverageOfGroup | examples/tcp/dctcp-example.cc:185 | the average loses less than one byte per flow to the integer division |
| Fairness.AggregateGbits | examples/tcp/dctcp-example.cc:218-240 | a running sum over two groups, wrapped at each step, is the sum of both when that fits |
| Fairness.FairGroupLost | examples/tcp/dctcp-example.cc:180-186 | ten equal flows of 2^31 bytes wrap to 0/0 |
| Fairness.LuckyWrap | examples/tcp/dctcp-example.cc:180-186 | one flow of 2^32 + 1 bytes among ten wraps and still gives Jain's index |
| QueueDepth.StaDepth.OnVoQueueDepthChange | scratch/uhr-mld-mixed-pedca.cc:498-507 | a change keeps the area equal to the integral of the depth up to the change, and the maximum equal to that of all depths |
| QueueDepth.StaDepth.Flush | scratch/uhr-mld-mixed-pedca.cc:1387-1389 | the area becomes the integral up to the end of the simulation, or up to the last change if that is later |
| QueueDepth.IntegralGrows | scratch/uhr-mld-mixed-pedca.cc:503 | the area function is the integral of the depth function: between changes it grows by depth times duration |
| QueueDepth.IntegralAtZero | scratch/uhr-mld-mixed-pedca.cc:503 | and it starts at 0 |
| QueueDepth.IntegralBound | scratch/uhr-mld-mixed-pedca.cc:503-506 | area and depth are bounded by the maximal depth |
| QueueDepth.CollectDepth | scratch/uhr-mld-mixed-pedca.cc:1383-1394 | for every duration, the mean times the number of stations times the duration, or a millisecond if that is longer, is the sum of the areas; the reported maximum is the greatest depth of any station; the mean is at most that unless the simulation ends before a change |
| QueueDelay.VoMacStats.OnVoQueueEnqueue | scratch/uhr-mld-mixed-pedca.cc:442-450 | keeps the statistics equal to a replay of the event log, and enqueues = delays + removals of tracked packets + overwritten entries + still tracked packets |
| QueueDelay.VoMacStats.OnVoQueueDequeue | scratch/uhr-mld-mixed-pedca.cc:452-466 | the same for a dequeue, with its delay recorded if the packet was tracked |
| QueueDelay.VoMacStats.OnVoQueueDrop | scratch/uhr-mld-mixed-pedca.cc:468-476 | the same for a drop |
| QueueDelay.VoMacStats.OnVoQueueDropBeforeEnqueue | scratch/uhr-mld-mixed-pedca.cc:478-486 | the same for a drop before the enqueue |
| QueueDelay.VoMacStats.OnVoQueueExpired | scratch/uhr-mld-mixed-pedca.cc:488-496 | the same for an expiry |
| QueueDelay.QueuedAtIffSince | scratch/uhr-mld-mixed-pedca.cc:449-465 | the replay finds an enqueue time exactly when some enqueue of the packet has no later event of that packet on that station, and it is that enqueue's time |
| QueueDelay.DelayMeaning | scratch/uhr-mld-mixed-pedca.cc:459-465 | the n-th delay is the time of the n-th recorded dequeue minus the latest enqueue of its packet with nothing between |
| QueueDelay.RecordedIff | scratch/uhr-mld-mixed-pedca.cc:461-465 | an event is recorded exactly when it is a dequeue of a packet that is queued then |
| QueueDelay.RecordedInOrder | scratch/uhr-mld-mixed-pedca.cc:461-465 | one delay for each recorded dequeue, in the order of the log |
| QueueDelay.NoOverwrites | scratch/uhr-mld-mixed-pedca.cc:449 | with unique packet ids no enqueue overwrites an entry |
| Stations.AssignPedca | scratch/uhr-mld-mixed-pedca.cc:661-679 | for every shuffled order exactly min(numPedcaStas, nStas) stations are marked, the first of the order, with their links in round robin; all other stations have link 0 |
| Stations.LinkIsRoundRobin | scratch/uhr-mld-mixed-pedca.cc:676-677 | the link of position i is what is left of i after whole rounds over the links, cut to 8 bits, and 0 without links |
| Stations.BalancedIff | scratch/uhr-mld-mixed-pedca.cc:676-677 | links differ by at most one marked station, for every number of stations, exactly when there are at most 256 links or a multiple of 256 |
| Stations.PerStation | scratch/uhr-mld-mixed-pedca.cc:1131-1144 | entry s of each per-station vector is what the sinks of station s received, all bytes or voice bytes, and the totals are what all sinks received |
| Stations.GroupOfStations | scratch/uhr-mld-mixed-pedca.cc:1151-1166 | the sum of such a vector over a group of stations is what the sinks of that group received |
| Stations.AggregateReceived | scratch/uhr-mld-mixed-pedca.cc:1131-1192 | group totals are what the group's sinks received, groups add up to the totals, for all bytes and for voice bytes; group sizes add up; the index is Jain's index of what each station received |
| StyleFixer.JoinSplit | utils/check-style-clang-format.py:643-644 | the lines of a text join to the text and each ends at its newline |
| StyleFixer.SplitJoin | utils/check-style-clang-format.py:676-678 | writing proper lines and reading them back gives the same lines |
| StyleFixer.TextFile.CheckManually | utils/check-style-clang-format.py:619-680 | the verdict is whether all checked lines comply, early exit or not; the file changes only in fix mode and when not compliant, and then each line is fixed where checked and kept elsewhere |
| StyleFixer.GuardMeaning | utils/check-style-clang-format.py:47-57 | a line switches formatting on or off exactly when it is one of the three texts with whitespace around it |
| StyleFixer.EnabledMeaning | utils/check-style-clang-format.py:646-659 | formatting is off exactly after an off guard that no on guard follows |
| StyleFixer.EnabledShrinks | utils/check-style-clang-format.py:646-659 | what is enabled after a fix was enabled before it, whatever guards the fix created |
| StyleFixer.SecondPassClean | utils/check-style-clang-format.py:646-678 | a fixed file complies on a second pass, with and without guards |
| StyleFixer.FixIsIdempotent | utils/check-style-clang-format.py:643-680 | read back, the fixed file complies, a second fix changes nothing, and lines in off regions are as they were |
| StyleFixer.TabsCheckIsGood | utils/check-style-clang-format.py:961-993 | the tabs check meets the conditions of the two lemmas above: fixed lines comply, guards stay guards, lines stay lines |
| StyleFixer.WhitespaceCheckIsGood | utils/check-style-clang-format.py:928-958 | so does the whitespace check |
| StyleFixer.WhitespaceMeaning | utils/check-style-clang-format.py:945-949 | a line complies exactly when it ends in a newline with no whitespace before it; the fixed line is all up to the last character that is no whitespace, and a newline |
| StyleFixer.SpaceIff | utils/check-style-clang-format.py:945 | the whitespace characters, one by one |
| StyleFixer.TabStop | utils/check-style-clang-format.py:978-984 | after text without tabs and line ends a tab expands to the one to four blanks that lead to the next multiple of four |
| StyleFixer.NewLineStart | utils/check-style-clang-format.py:978-984 | after a line end the columns are counted from 0 again |
| StyleFixer.TabsKeepWhitespaceClean | utils/check-style-clang-format.py:928-993 | the tabs fix leaves a line without trailing whitespace without it |
| StyleFixer.BothPassesClean | utils/check-style-clang-format.py:380-393 | after the whitespace pass, which ignores guards, and then the tabs pass, which respects them, both checks find the file compliant |
| StyleFixer.FixSpacing | utils/check-style-clang-format.py:412-422 | after the two checks ran on a file in fix mode no line has whitespace before its newline or lacks it, no line has a tab unless formatting is off there, both checks comply, and each line is the old one trimmed, perhaps with its tabs expanded |
| StyleFixer.FixCanCreateGuard | utils/check-style-clang-format.py:47-57 | a line with a tab that is no guard is fixed into an off guard |
| BufferWriter.NextWrite | examples/socket/socket-bound-tcp-static-routing.cc:207-211 | the largest offer that stays within the buffer, the target and the room |
| BufferWriter.RepeatedExtends | examples/socket/socket-bound-tcp-static-routing.cc:208-218 | bytes taken from the offset on continue the repeated buffer |
| BufferWriter.Flow.Accept | examples/socket/socket-bound-tcp-static-routing.cc:212-218 | the counter moves by what the socket took, and what it took so far stays a prefix of the repeated buffer |
| BufferWriter.Flow.WriteUntilBufferFull | examples/socket/socket-bound-tcp-static-routing.cc:202-221 | the counter is the fold of the socket's answers; the call ends at the first turn with nothing to send, no room or a refusal, closes the socket unless refused, and closes it with bytes unsent exactly when it runs out of room before the target and before a refusal; it never passes the target, and, if the socket always takes something, makes at most as many sends as there are bytes left, and one refused |
| BufferWriter.RunsOutIff | examples/socket/socket-bound-tcp-static-routing.cc:205-220 | on a send buffer, whose room shrinks by what it takes, a call runs out of room with bytes unsent exactly when its first room is less than what is left |
| BufferWriter.Flow.WriteToBuffer | examples/socket/socket-bound-tcp-static-routing.cc:202-221 | such a call sends what fits, closes the socket in any case, and stops short of the target exactly under that condition |
| BufferWriter.RunFlow | examples/socket/socket-bound-tcp-static-routing.cc:188-221 | over a whole flow byte k of the connection is `data[k mod writeSize]` and the target is never exceeded |
| BufferWriter.RunBufferedFlow | examples/socket/socket-bound-tcp-static-routing.cc:188-221 | with a send buffer at each call the whole target is sent exactly when the rooms add up to it, and otherwise as many bytes as they add up to |

## Left out

- The simulated networks: topology, PHY and MAC, routing, device and application set-up of every `main`; the P-EDCA contention itself is not in these files.
- Subprocesses, file, XML, CSV, HTML and console output, argument parsing, caching of earlier test results.
- Floating-point rounding, time-step rounding, and the square root of the standard deviation.
- Workers that raise an exception, and the elapsed times and outputs of jobs.
- `DynamicEdcaStaApp` beyond its weighted pick: the same state machine on fixed arrays, without the byte cap; it would repeat the traffic proofs.
- Jitter histograms, flow completion times and loss ratios, which are collected like the delays.
- Percentiles for negative q, which no caller uses.
- The backoff and access-delay callbacks, and the downlink and throughput figures of the P-EDCA program, which are sums and quotients of modelled counts.
- `Get`, `RecordAggregationInfo`, `GetNoTypeIds` and the list of attributes without types of `StaticInformation`.
- Extraction of linked libraries in the Python bindings; the order starts from the collected dependency dictionary.
- Interleaved flows sharing the global `currentTxBytes`: each flow runs by itself.
- `PrintThroughput` of the DCTCP example; the group vectors are taken to have the entries that the loops read.
- The include, license, emacs-line, encoding and clang-format checks, and the verbose messages of the style checks.
- MergeDelays: models the delay half of the flow loop only; packet counters and ratios of the same loop are left out.
