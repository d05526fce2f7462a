/** What the thread pool of test.py executes: the commands of the jobs that are
    neither skipped nor interrupted, each once, and the return codes that come back
    are theirs. */
module PoolResults {
  import opened JobPool
  import opened PoolRuns

  /** What to count: a ticket with one return code or with any, a return code of any
      ticket, or the return codes that stand for a crash. */
  datatype Want = Returning(ticket: Ticket, rc: int) | AnyCode(ticket: Ticket) | Code(rc: int) | CrashCode

  predicate Fits(want: Want, ticket: Ticket, rc: int) {
    match want
    case Returning(t, c) => ticket == t && rc == c
    case AnyCode(t) => ticket == t
    case Code(c) => rc == c
    case CrashCode => rc < 0 || rc > 2
  }

  /** A job that was run, with a result that is wanted. */
  predicate IsResult(want: Want, job: Job) {
    !job.isSkip && !job.isBreak && Fits(want, TicketOf(job), job.returnCode)
  }

  /** Wanted results among some jobs that were handed back. */
  function Results(want: Want, jobs: seq<Job>): nat {
    if jobs == [] then 0 else (if IsResult(want, jobs[0]) then 1 else 0) + Results(want, jobs[1..])
  }

  /** Wanted results in the hands of workers about to hand them back. */
  function Pending(want: Want, ws: seq<Worker>): nat {
    if ws == [] then 0
    else (if ws[0].ToPut? && IsResult(want, ws[0].job) then 1 else 0) + Pending(want, ws[1..])
  }

  /** The k-th action is the end of the command of a wanted job, as its worker holds
      it, with a wanted return code. */
  ghost predicate Executes(want: Want, s: State, a: Action) {
    a.Finish? && a.w < |s.workers| && s.workers[a.w].Running? &&
    Fits(want, TicketOf(s.workers[a.w].job), a.rc)
  }

  /** Such commands among the first i actions. */
  ghost function Executions(want: Want, states: seq<State>, actions: seq<Action>, i: nat): nat
    requires i <= |actions| <= |states|
  {
    if i == 0 then 0
    else Executions(want, states, actions, i - 1) + (if Executes(want, states[i - 1], actions[i - 1]) then 1 else 0)
  }

  /** A running job is no sentinel and not to be skipped. */
  ghost predicate RealWork(ws: seq<Worker>) {
    forall w :: 0 <= w < |ws| && ws[w].Running? ==> !ws[w].job.isSkip && !ws[w].job.isBreak
  }

  lemma {:induction false} ResultsAppend(want: Want, jobs: seq<Job>, job: Job)
    ensures Results(want, jobs + [job]) == Results(want, jobs) + (if IsResult(want, job) then 1 else 0)
  {
    if jobs == [] {
      assert jobs + [job] == [job];
    } else {
      assert (jobs + [job])[1..] == jobs[1..] + [job];
      ResultsAppend(want, jobs[1..], job);
    }
  }

  lemma {:induction false} SetPending(want: Want, ws: seq<Worker>, w: nat, x: Worker)
    requires w < |ws|
    ensures Pending(want, ws[w := x]) == Pending(want, ws)
              - (if ws[w].ToPut? && IsResult(want, ws[w].job) then 1 else 0)
              + (if x.ToPut? && IsResult(want, x.job) then 1 else 0)
  {
    if w == 0 {
      assert ws[w := x][1..] == ws[1..];
    } else {
      assert ws[w := x][1..] == ws[1..][w - 1 := x];
      SetPending(want, ws[1..], w - 1, x);
    }
  }

  lemma {:induction false} NothingPending(want: Want, ws: seq<Worker>)
    requires forall w :: 0 <= w < |ws| ==> !ws[w].ToPut?
    ensures Pending(want, ws) == 0
  {
    if ws == [] {
    } else {
      NothingPending(want, ws[1..]);
    }
  }

  /** Where the wanted results of a state are. */
  ghost function Known(want: Want, s: State): nat {
    Pending(want, s.workers) + Results(want, s.output) + Results(want, s.collected)
  }

  lemma WorkerKnows(want: Want, total: nat, s: State, a: Action)
    requires CanStep(total, s, a) && RealWork(s.workers)
    requires a.Get? || a.Decide? || a.Finish? || a.Put?
    ensures RealWork(Step(total, s, a).workers)
    ensures Known(want, Step(total, s, a)) == Known(want, s) + (if Executes(want, s, a) then 1 else 0)
  {
    var x := Step(total, s, a).workers[a.w];
    SetPending(want, s.workers, a.w, x);
    if a.Put? {
      ResultsAppend(want, s.output, s.workers[a.w].job);
    }
  }

  lemma MainKnows(want: Want, total: nat, s: State, a: Action)
    requires CanStep(total, s, a) && !(a.Get? || a.Decide? || a.Finish? || a.Put?)
    ensures Step(total, s, a).workers == s.workers
    ensures Known(want, Step(total, s, a)) == Known(want, s) && !Executes(want, s, a)
  {
    if a.Collect? {
      ResultsAppend(want, s.collected, s.output[0]);
    }
  }

  /** At every moment of a run the results that are known are those of the commands
      executed so far. */
  lemma {:induction false} KnownAt(
      want: Want, work: seq<Job>, n: nat, states: seq<State>, actions: seq<Action>, i: nat)
    requires IsRun(work, n, states, actions) && i < |states|
    ensures RealWork(states[i].workers)
    ensures Known(want, states[i]) == Executions(want, states, actions, i)
  {
    if i == 0 {
      NothingPending(want, states[0].workers);
    } else {
      KnownAt(want, work, n, states, actions, i - 1);
      var s, a := states[i - 1], actions[i - 1];
      assert states[i] == Step(|work|, s, a);
      if a.Get? || a.Decide? || a.Finish? || a.Put? {
        WorkerKnows(want, |work|, s, a);
      } else {
        MainKnows(want, |work|, s, a);
      }
    }
  }

  /** Commands are executed for jobs that are not to be skipped only. */
  lemma {:induction false} NoSkippedCommand(work: seq<Job>, n: nat, states: seq<State>, actions: seq<Action>, k: nat)
    requires IsRun(work, n, states, actions) && k < |actions| && actions[k].Finish?
    ensures actions[k].w < |states[k].workers| && states[k].workers[actions[k].w].Running?
    ensures !states[k].workers[actions[k].w].job.isSkip && !states[k].workers[actions[k].w].job.isBreak
  {
    KnownAt(AnyCode(Ticket(0, false, false)), work, n, states, actions, k);
    assert CanStep(|work|, states[k], actions[k]);
  }

  /** At the end of a complete run the collected results, apart from skipped and
      interrupted jobs, are those of the executed commands: as often with each
      ticket and return code as a command of that ticket ended with that code. */
  lemma {:induction false} ResultsAreReturned(
      want: Want, work: seq<Job>, n: nat, states: seq<State>, actions: seq<Action>)
    requires NoBreaks(work) && n > 0 && IsRun(work, n, states, actions)
    requires Stuck(|work|, states[|actions|])
    ensures Results(want, states[|actions|].collected) == Executions(want, states, actions, |actions|)
  {
    var s := states[|actions|];
    Delivery(work, n, states, actions);
    KnownAt(want, work, n, states, actions, |actions|);
    NothingPending(want, s.workers);
  }

  lemma {:induction false} AllAreResults(ticket: Ticket, jobs: seq<Job>)
    requires !ticket.isSkip
    ensures Results(AnyCode(ticket), jobs) <= Count(Only(ticket), jobs)
    ensures NoBreaks(jobs) ==> Results(AnyCode(ticket), jobs) == Count(Only(ticket), jobs)
  {
    if jobs == [] {
    } else {
      AllAreResults(ticket, jobs[1..]);
      assert forall j :: 0 <= j < |jobs[1..]| ==> jobs[1..][j] == jobs[j + 1];
    }
  }

  /** No command runs more often than its job was dispatched, and without an
      interrupt every job that is not to be skipped runs once. */
  lemma {:induction false} EachJobRunsOnce(
      ticket: Ticket, work: seq<Job>, n: nat, states: seq<State>, actions: seq<Action>)
    requires NoBreaks(work) && n > 0 && IsRun(work, n, states, actions) && !ticket.isSkip
    requires Stuck(|work|, states[|actions|])
    ensures Executions(AnyCode(ticket), states, actions, |actions|) <= Count(Only(ticket), work)
    ensures !states[|actions|].interrupted ==>
              Executions(AnyCode(ticket), states, actions, |actions|) == Count(Only(ticket), work)
  {
    var s := states[|actions|];
    Delivery(work, n, states, actions);
    RunInv(work, n, states, actions, |actions|);
    ResultsAreReturned(AnyCode(ticket), work, n, states, actions);
    AllAreResults(ticket, s.collected);
    assert Count(Only(ticket), work) == Count(Only(ticket), s.collected);
  }
}
