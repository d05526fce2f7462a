/** What holds over whole runs of the thread pool: delivery, freedom from deadlock,
    termination, and what an interrupt stops. */
module PoolRuns {
  import opened JobPool

  lemma {:induction false} RunInv(work: seq<Job>, n: nat, states: seq<State>, actions: seq<Action>, i: nat)
    requires NoBreaks(work) && IsRun(work, n, states, actions) && i < |states|
    ensures Inv(work, n, states[i])
  {
    if i == 0 {
      InitInv(work, n);
    } else {
      RunInv(work, n, states, actions, i - 1);
      StepInv(work, n, states[i - 1], actions[i - 1]);
    }
  }

  /** With everything sent and every worker gone, the input is empty and the
      results are all in the output queue or collected. */
  lemma {:induction false} AllDelivered(work: seq<Job>, n: nat, s: State)
    requires Inv(work, n, s) && n > 0 && s.todo == [] && s.sentinels == 0
    requires forall w :: 0 <= w < |s.workers| ==> s.workers[w].Exited?
    ensures s.input == []
    ensures forall q :: Count(q, work) == Count(q, s.output) + Count(q, s.collected)
    ensures |work| == |s.output| + |s.collected|
  {
    GoneBound(s.workers);
    forall q ensures s.input == [] && Count(q, work) == Count(q, s.output) + Count(q, s.collected) {
      AllBreaks(q, s.input);
      IdleHoldsNothing(q, s.workers);
      assert Conserved(q, work, s);
      assert work[..|work|] == work;
    }
    CountAll(work);
    CountAll(s.output);
    CountAll(s.collected);
  }

  /** Some worker, or the main thread, can move. */
  lemma Progress(work: seq<Job>, n: nat, s: State)
    requires Inv(work, n, s) && n > 0 && !Final(|work|, s)
    ensures exists a :: a != Interrupt && CanStep(|work|, s, a)
  {
    if s.todo != [] {
      assert CanStep(|work|, s, Dispatch);
    } else if s.sentinels > 0 {
      assert CanStep(|work|, s, SendSentinel);
    } else if w :| 0 <= w < |s.workers| && !s.workers[w].AtGet? && !s.workers[w].Exited? {
      match s.workers[w]
      case Got(_) => assert CanStep(|work|, s, Decide(w));
      case Running(_) => assert CanStep(|work|, s, Finish(w, 0));
      case ToPut(_) => assert CanStep(|work|, s, Put(w));
    } else if w :| 0 <= w < |s.workers| && s.workers[w].AtGet? {
      GoneBound(s.workers);
      assert s.input != [];
      assert CanStep(|work|, s, Get(w));
    } else {
      AllDelivered(work, n, s);
      if s.output != [] {
        assert CanStep(|work|, s, Collect);
      } else {
        assert CanStep(|work|, s, Join);
      }
    }
  }

  /** A pool with a worker stops only when the main thread is done. */
  lemma {:induction false} StuckIsFinal(work: seq<Job>, n: nat, s: State)
    requires Inv(work, n, s) && n > 0 && Stuck(|work|, s)
    ensures Final(|work|, s)
  {
    if !Final(|work|, s) {
      Progress(work, n, s);
    }
  }

  ghost predicate Delivered(work: seq<Job>, s: State) {
    && s.input == [] && s.output == []
    && (forall w :: 0 <= w < |s.workers| ==> s.workers[w].Exited?)
    && |s.collected| == |work|
    && (forall q :: Count(q, s.collected) == Count(q, work))
    && (!s.interrupted ==> NoBreaks(s.collected))
  }

  /** A run has stopped only when the main thread is done, and then both queues
      are empty, every worker has exited and every dispatched job was collected
      exactly once. */
  lemma {:induction false} Delivery(work: seq<Job>, n: nat, states: seq<State>, actions: seq<Action>)
    requires NoBreaks(work) && n > 0 && IsRun(work, n, states, actions)
    requires Stuck(|work|, states[|actions|])
    ensures Final(|work|, states[|actions|])
    ensures Delivered(work, states[|actions|])
    ensures |states[|actions|].workers| == n
  {
    var s := states[|actions|];
    RunInv(work, n, states, actions, |actions|);
    StuckIsFinal(work, n, s);
    AllDelivered(work, n, s);
  }

  /** Steps still to be taken, at most. */
  ghost function WorkerEffort(w: Worker): nat {
    match w
    case Got(_) => 4
    case Running(_) => 3
    case ToPut(_) => 2
    case _ => 0
  }

  ghost function Effort(ws: seq<Worker>): nat {
    if ws == [] then 0 else WorkerEffort(ws[0]) + Effort(ws[1..])
  }

  ghost function Measure(s: State): int {
    6 * |s.todo| + 6 * s.sentinels + 5 * |s.input| + Effort(s.workers) + |s.output|
    + (|s.workers| - s.joined) + (if s.interrupted then 0 else 1)
  }

  lemma {:induction false} SetEffort(ws: seq<Worker>, w: nat, x: Worker)
    requires w < |ws|
    ensures Effort(ws[w := x]) == Effort(ws) - WorkerEffort(ws[w]) + WorkerEffort(x)
  {
    if w == 0 {
      assert ws[w := x][1..] == ws[1..];
    } else {
      assert ws[w := x][1..] == ws[1..][w - 1 := x];
      SetEffort(ws[1..], w - 1, x);
    }
  }

  lemma {:induction false} NoEffort(ws: seq<Worker>)
    requires forall w :: 0 <= w < |ws| ==> ws[w].AtGet?
    ensures Effort(ws) == 0
  {
    if ws == [] {
    } else {
      NoEffort(ws[1..]);
    }
  }

  lemma StepDecreases(total: nat, s: State, a: Action)
    requires CanStep(total, s, a)
    ensures Measure(Step(total, s, a)) < Measure(s)
  {
    match a
    case Get(w) => SetEffort(s.workers, w, Got(s.input[0]));
    case Decide(w) => SetEffort(s.workers, w, AfterDecide(s.workers[w].job, s.interrupted));
    case Finish(w, rc) => SetEffort(s.workers, w, ToPut(s.workers[w].job.(returnCode := rc)));
    case Put(w) => SetEffort(s.workers, w, AtGet);
    case _ =>
  }

  lemma {:induction false} MeasureAt(work: seq<Job>, n: nat, states: seq<State>, actions: seq<Action>, i: nat)
    requires IsRun(work, n, states, actions) && i < |states|
    ensures Measure(states[i]) + i <= 6 * |work| + 7 * n + 1
  {
    if i == 0 {
      NoEffort(states[0].workers);
    } else {
      MeasureAt(work, n, states, actions, i - 1);
      StepDecreases(|work|, states[i - 1], actions[i - 1]);
    }
  }

  /** Every interleaving is finite: no schedule takes more than 6 steps per job
      and 7 per worker, plus one interrupt. */
  lemma {:induction false} Termination(work: seq<Job>, n: nat, states: seq<State>, actions: seq<Action>)
    requires NoBreaks(work) && IsRun(work, n, states, actions)
    ensures |actions| <= 6 * |work| + 7 * n + 1
  {
    MeasureAt(work, n, states, actions, |actions|);
    RunInv(work, n, states, actions, |actions|);
  }

  /** Sentinels worker w takes during the first i actions of a run. */
  ghost function SentinelsTaken(states: seq<State>, actions: seq<Action>, w: nat, i: nat): nat
    requires i <= |actions| <= |states|
  {
    if i == 0 then 0
    else SentinelsTaken(states, actions, w, i - 1) +
         (if actions[i - 1] == Get(w) && states[i - 1].input != [] && states[i - 1].input[0].isBreak then 1 else 0)
  }

  /** A worker takes one sentinel, and has taken it exactly when it is gone. */
  lemma {:induction false} OneSentinelPerWorker(
      work: seq<Job>, n: nat, states: seq<State>, actions: seq<Action>, w: nat, i: nat)
    requires NoBreaks(work) && IsRun(work, n, states, actions) && w < n && i <= |actions|
    ensures |states[i].workers| == n
    ensures SentinelsTaken(states, actions, w, i) == if Gone(states[i].workers[w]) then 1 else 0
  {
    if i == 0 {
    } else {
      OneSentinelPerWorker(work, n, states, actions, w, i - 1);
      assert states[i] == Step(|work|, states[i - 1], actions[i - 1]);
    }
  }

  /** Commands finished between the i-th and the k-th action. */
  ghost function Finished(actions: seq<Action>, i: nat, k: nat): nat
    requires i <= k <= |actions|
  {
    if i == k then 0 else Finished(actions, i, k - 1) + (if actions[k - 1].Finish? then 1 else 0)
  }

  ghost function RunningCount(ws: seq<Worker>): nat {
    if ws == [] then 0 else (if ws[0].Running? then 1 else 0) + RunningCount(ws[1..])
  }

  lemma {:induction false} SetRunning(ws: seq<Worker>, w: nat, x: Worker)
    requires w < |ws|
    ensures RunningCount(ws[w := x]) ==
            RunningCount(ws) - (if ws[w].Running? then 1 else 0) + (if x.Running? then 1 else 0)
  {
    if w == 0 {
      assert ws[w := x][1..] == ws[1..];
    } else {
      assert ws[w := x][1..] == ws[1..][w - 1 := x];
      SetRunning(ws[1..], w - 1, x);
    }
  }

  /** After an interrupt no worker passes the exit test: the commands that still
      finish are those of the workers that were past it, launched or about to be. */
  lemma {:induction false} InterruptStopsLaunches(
      work: seq<Job>, n: nat, states: seq<State>, actions: seq<Action>, i: nat, k: nat)
    requires IsRun(work, n, states, actions) && i <= k <= |actions| && states[i].interrupted
    ensures states[k].interrupted
    ensures Finished(actions, i, k) + RunningCount(states[k].workers) == RunningCount(states[i].workers)
  {
    if i == k {
    } else {
      InterruptStopsLaunches(work, n, states, actions, i, k - 1);
      var s, a := states[k - 1], actions[k - 1];
      assert states[k] == Step(|work|, s, a);
      match a
      case Get(w) => SetRunning(s.workers, w, Got(s.input[0]));
      case Decide(w) => SetRunning(s.workers, w, AfterDecide(s.workers[w].job, s.interrupted));
      case Finish(w, rc) => SetRunning(s.workers, w, ToPut(s.workers[w].job.(returnCode := rc)));
      case Put(w) => SetRunning(s.workers, w, AtGet);
      case _ =>
    }
  }

  /** The pool can get stuck before it is done exactly when there are jobs and
      no worker to run them. */
  ghost predicate CanDeadlock(work: seq<Job>, n: nat) {
    exists states, actions ::
      IsRun(work, n, states, actions) &&
      Stuck(|work|, states[|actions|]) && !Final(|work|, states[|actions|])
  }

  lemma {:induction false} NoDeadlockWithWorkers(work: seq<Job>, n: nat)
    requires NoBreaks(work) && n > 0
    ensures !CanDeadlock(work, n)
  {
    forall states, actions | IsRun(work, n, states, actions) && Stuck(|work|, states[|actions|])
      ensures Final(|work|, states[|actions|])
    {
      Delivery(work, n, states, actions);
    }
  }

  /** With no jobs and no workers the main thread is done before it starts. */
  lemma {:induction false} NothingToDo(s: State)
    requires Inv([], 0, s)
    ensures Final(0, s)
  {
    assert |s.todo| == 0 && |s.workers| == 0;
    assert OneSentinelEach(s) && Phases(0, s);
  }

  lemma {:induction false} NoDeadlockWithoutWork()
    ensures !CanDeadlock([], 0)
  {
    forall states, actions | IsRun([], 0, states, actions)
      ensures Final(0, states[|actions|])
    {
      RunInv([], 0, states, actions, |actions|);
      NothingToDo(states[|actions|]);
    }
  }

  /** The run in which the main thread dispatches the first k jobs to nobody. */
  lemma {:induction false} DispatchAll(work: seq<Job>, k: nat) returns (states: seq<State>, actions: seq<Action>)
    requires k <= |work|
    ensures IsRun(work, 0, states, actions)
    ensures states[|actions|] == State(work[k..], 0, work[..k], [], [], [], 0, false)
  {
    if k == 0 {
      states, actions := [Init(work, 0)], [];
      assert Init(work, 0).workers == [];
    } else {
      states, actions := DispatchAll(work, k - 1);
      var s := states[|actions|];
      assert work[..k] == work[..k - 1] + [work[k - 1]];
      states, actions := states + [Step(|work|, s, Dispatch)], actions + [Dispatch];
    }
  }

  lemma {:induction false} DeadlockWithoutWorkers(work: seq<Job>)
    requires work != []
    ensures CanDeadlock(work, 0)
  {
    var states, actions := DispatchAll(work, |work|);
    var s := states[|actions|];
    assert forall a :: CanStep(|work|, s, a) ==> a == Interrupt;
    assert Stuck(|work|, s) && !Final(|work|, s);
  }

  lemma {:induction false} DeadlockIff(work: seq<Job>, n: nat)
    requires NoBreaks(work)
    ensures CanDeadlock(work, n) <==> n == 0 && work != []
  {
    if n > 0 {
      NoDeadlockWithWorkers(work, n);
    } else if work == [] {
      NoDeadlockWithoutWork();
    } else {
      DeadlockWithoutWorkers(work);
    }
  }
}
