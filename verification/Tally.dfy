/** The collection loop of test.py: one outcome per result, the counters that
    make up the summary, the failed-jobs list and the exit status. */
module Tally {
  import opened JobPool
  import opened PoolRuns
  import opened PoolResults

  datatype Outcome = Interrupted | Skipped | Passed | Failed | ValgrindError | Crashed

  /** How the loop classifies a result: interrupted and skipped first, then by
      return code. */
  function OutcomeOf(job: Job): Outcome {
    if job.isBreak then Interrupted
    else if job.isSkip then Skipped
    else if job.returnCode == 0 then Passed
    else if job.returnCode == 1 then Failed
    else if job.returnCode == 2 then ValgrindError
    else Crashed
  }

  function Outcomes(o: Outcome, results: seq<Job>): nat {
    if results == [] then 0
    else Outcomes(o, results[..|results| - 1]) + (if OutcomeOf(results[|results| - 1]) == o then 1 else 0)
  }

  /** How often one result ends up in `failed_jobs`: an example once unless it
      passed; a test suite once more unless its result file was read (return
      codes 0 to 2) and says it passed or was skipped. */
  function FailedEntries(job: Job, xmlPasses: bool): nat {
    match OutcomeOf(job)
    case Interrupted => 0
    case Skipped => 0
    case o =>
      (if o == Passed then 0 else 1) +
      (if job.isExample || (o != Crashed && xmlPasses) then 0 else 1)
  }

  function Repeat(job: Job, n: nat): seq<Job> {
    seq(n, _ => job)
  }

  function FailedJobs(results: seq<Job>, xmlPasses: seq<bool>): seq<Job>
    requires |results| == |xmlPasses|
  {
    if results == [] then []
    else
      var last := |results| - 1;
      FailedJobs(results[..last], xmlPasses[..last]) +
      Repeat(results[last], FailedEntries(results[last], xmlPasses[last]))
  }

  /** One more result, in the counts and in the list. */
  lemma OneMore(results: seq<Job>, xmlPasses: seq<bool>, i: nat)
    requires i < |results| == |xmlPasses|
    ensures forall o :: Outcomes(o, results[..i + 1]) ==
              Outcomes(o, results[..i]) + (if OutcomeOf(results[i]) == o then 1 else 0)
    ensures FailedJobs(results[..i + 1], xmlPasses[..i + 1]) ==
            FailedJobs(results[..i], xmlPasses[..i]) +
            Repeat(results[i], FailedEntries(results[i], xmlPasses[i]))
  {
    assert results[..i + 1][..i] == results[..i] && xmlPasses[..i + 1][..i] == xmlPasses[..i];
  }

  datatype Counters = Counters(passed: nat, failed: nat, crashed: nat, valgrind: nat, skipped: nat)

  /** The outcomes are the return codes of the jobs that were run. */
  lemma {:induction false} OutcomesByCode(results: seq<Job>)
    ensures Outcomes(Passed, results) == Results(Code(0), results)
    ensures Outcomes(Failed, results) == Results(Code(1), results)
    ensures Outcomes(ValgrindError, results) == Results(Code(2), results)
    ensures Outcomes(Crashed, results) == Results(CrashCode, results)
  {
    if results == [] {
    } else {
      var last := |results| - 1;
      OutcomesByCode(results[..last]);
      assert results == results[..last] + [results[last]];
      ResultsAppend(Code(0), results[..last], results[last]);
      ResultsAppend(Code(1), results[..last], results[last]);
      ResultsAppend(Code(2), results[..last], results[last]);
      ResultsAppend(CrashCode, results[..last], results[last]);
    }
  }

  /** The loop over the output queue.  `xmlPasses[i]` is what the result file of
      the i-th result says, where the loop reads one. */
  method CollectResults(results: seq<Job>, xmlPasses: seq<bool>)
    returns (c: Counters, failedJobs: seq<Job>)
    requires |results| == |xmlPasses|
    ensures c.passed == Outcomes(Passed, results) && c.failed == Outcomes(Failed, results)
    ensures c.crashed == Outcomes(Crashed, results) && c.valgrind == Outcomes(ValgrindError, results)
    ensures c.skipped == Outcomes(Skipped, results)
    ensures c.passed == Results(Code(0), results) && c.failed == Results(Code(1), results)
    ensures c.valgrind == Results(Code(2), results) && c.crashed == Results(CrashCode, results)
    ensures failedJobs == FailedJobs(results, xmlPasses)
  {
    var passed, failed, crashed, valgrind, skipped := 0, 0, 0, 0, 0;
    failedJobs := [];
    for i := 0 to |results|
      invariant passed == Outcomes(Passed, results[..i]) && failed == Outcomes(Failed, results[..i])
      invariant crashed == Outcomes(Crashed, results[..i])
      invariant valgrind == Outcomes(ValgrindError, results[..i])
      invariant skipped == Outcomes(Skipped, results[..i])
      invariant failedJobs == FailedJobs(results[..i], xmlPasses[..i])
    {
      var job := results[i];
      ghost var before := failedJobs;
      OneMore(results, xmlPasses, i);
      if job.isBreak {
        assert Repeat(job, 0) == [];
        continue;
      }
      if job.isSkip {
        skipped := skipped + 1;
      } else {
        failedJobs := failedJobs + [job];
        if job.returnCode == 0 {
          passed := passed + 1;
          failedJobs := failedJobs[..|failedJobs| - 1];
        } else if job.returnCode == 1 {
          failed := failed + 1;
        } else if job.returnCode == 2 {
          valgrind := valgrind + 1;
        } else {
          crashed := crashed + 1;
        }
      }
      if !job.isExample && !job.isSkip {
        failedJobs := failedJobs + [job];
        if job.returnCode == 0 || job.returnCode == 1 || job.returnCode == 2 {
          if xmlPasses[i] {
            failedJobs := failedJobs[..|failedJobs| - 1];
          }
        }
      }
      assert failedJobs == before + Repeat(job, FailedEntries(job, xmlPasses[i]));
    }
    assert results[..|results|] == results && xmlPasses[..|results|] == xmlPasses;
    OutcomesByCode(results);
    c := Counters(passed, failed, crashed, valgrind, skipped);
  }

  /** The value `run_tests` returns. */
  function ExitStatus(c: Counters, totalTests: nat): int {
    if c.passed + c.skipped == totalTests then 0 else 1
  }

  lemma {:induction false} OutcomesAddUp(results: seq<Job>)
    ensures Outcomes(Passed, results) + Outcomes(Failed, results) + Outcomes(Crashed, results) +
            Outcomes(ValgrindError, results) + Outcomes(Skipped, results) +
            Outcomes(Interrupted, results) == |results|
  {
    if results == [] {
    } else {
      OutcomesAddUp(results[..|results| - 1]);
    }
  }

  predicate Fine(job: Job) {
    OutcomeOf(job) == Passed || OutcomeOf(job) == Skipped
  }

  lemma {:induction false} FineCount(results: seq<Job>)
    ensures Outcomes(Passed, results) + Outcomes(Skipped, results) <= |results|
    ensures Outcomes(Passed, results) + Outcomes(Skipped, results) == |results| <==>
            forall i :: 0 <= i < |results| ==> Fine(results[i])
  {
    if results == [] {
    } else {
      FineCount(results[..|results| - 1]);
    }
  }

  /** A result is listed as failed exactly when its job was run and either returned
      something else than 0, or is a test suite whose result file does not say that
      it passed or was skipped. */
  lemma {:induction false} ListedIff(results: seq<Job>, xmlPasses: seq<bool>, job: Job)
    requires |results| == |xmlPasses|
    ensures job in FailedJobs(results, xmlPasses) <==>
            exists i :: 0 <= i < |results| && results[i] == job && !job.isBreak && !job.isSkip &&
              (job.returnCode != 0 || (!job.isExample && !xmlPasses[i]))
  {
    if results == [] {
    } else {
      var last := |results| - 1;
      ListedIff(results[..last], xmlPasses[..last], job);
      var n := FailedEntries(results[last], xmlPasses[last]);
      var copies := Repeat(results[last], n);
      assert job in copies <==> results[last] == job && n > 0 by {
        if results[last] == job && n > 0 {
          assert copies[0] == job;
        }
      }
    }
  }

  /** Test suites that were run and whose result file was not read, or does not say
      that they passed or were skipped. */
  function Unconfirmed(results: seq<Job>, xmlPasses: seq<bool>): nat
    requires |results| == |xmlPasses|
  {
    if results == [] then 0
    else
      var last := |results| - 1;
      var job := results[last];
      Unconfirmed(results[..last], xmlPasses[..last]) +
      (if !job.isBreak && !job.isSkip && !job.isExample && !(0 <= job.returnCode <= 2 && xmlPasses[last]) then 1 else 0)
  }

  /** The list holds every failure once, and unconfirmed test suites once more. */
  lemma {:induction false} ListLength(results: seq<Job>, xmlPasses: seq<bool>)
    requires |results| == |xmlPasses|
    ensures |FailedJobs(results, xmlPasses)| ==
            Results(Code(1), results) + Results(Code(2), results) + Results(CrashCode, results) +
            Unconfirmed(results, xmlPasses)
  {
    if results == [] {
    } else {
      var last := |results| - 1;
      ListLength(results[..last], xmlPasses[..last]);
      assert results == results[..last] + [results[last]];
      ResultsAppend(Code(1), results[..last], results[last]);
      ResultsAppend(Code(2), results[..last], results[last]);
      ResultsAppend(CrashCode, results[..last], results[last]);
    }
  }

  // ------------------------------------------------------ order independence

  lemma {:induction false} OutcomesRemove(o: Outcome, results: seq<Job>, k: nat)
    requires k < |results|
    ensures Outcomes(o, results) ==
            Outcomes(o, results[..k] + results[k + 1..]) + (if OutcomeOf(results[k]) == o then 1 else 0)
  {
    var last := |results| - 1;
    if k == last {
      assert results[..k] + results[k + 1..] == results[..last];
    } else {
      var rest := results[..k] + results[k + 1..];
      assert rest[..|rest| - 1] == results[..last][..k] + results[..last][k + 1..];
      OutcomesRemove(o, results[..last], k);
    }
  }

  lemma DropOne(b: seq<Job>, job: Job) returns (k: nat)
    requires job in multiset(b)
    ensures k < |b| && b[k] == job
    ensures multiset(b[..k] + b[k + 1..]) == multiset(b) - multiset{job}
  {
    k :| 0 <= k < |b| && b[k] == job;
    assert b == b[..k] + [b[k]] + b[k + 1..];
  }

  /** The summary depends on which results came back, not on their order. */
  lemma {:induction false} OrderIndependent(o: Outcome, a: seq<Job>, b: seq<Job>)
    requires multiset(a) == multiset(b)
    ensures Outcomes(o, a) == Outcomes(o, b)
  {
    if a == [] {
      assert |multiset(b)| == 0;
    } else {
      var last := |a| - 1;
      assert a == a[..last] + [a[last]];
      var k := DropOne(b, a[last]);
      OutcomesRemove(o, b, k);
      OrderIndependent(o, a[..last], b[..k] + b[k + 1..]);
    }
  }

  // ---------------------------------------------------------------- the whole

  lemma {:induction false} NoneInterrupted(results: seq<Job>)
    ensures Outcomes(Interrupted, results) == 0 <==> NoBreaks(results)
    ensures NoBreaks(results) ==> Outcomes(Skipped, results) == Count(Skips, results)
  {
    if results == [] {
    } else {
      var last := |results| - 1;
      NoneInterrupted(results[..last]);
      CountAppend(Skips, results[..last], results[last]);
      assert results == results[..last] + [results[last]];
      assert NoBreaks(results) <==> NoBreaks(results[..last]) && !results[last].isBreak;
    }
  }

  lemma {:induction false} NoExecutions(want: Want, states: seq<State>, actions: seq<Action>, i: nat)
    requires i <= |actions| <= |states|
    ensures Executions(want, states, actions, i) == 0 <==>
            forall k :: 0 <= k < i ==> !Executes(want, states[k], actions[k])
  {
    if i == 0 {
    } else {
      NoExecutions(want, states, actions, i - 1);
    }
  }

  /** A command that ended with another code than 0 is counted under one of three
      kinds of codes. */
  lemma {:induction false} AllReturnZero(work: seq<Job>, n: nat, states: seq<State>, actions: seq<Action>)
    requires IsRun(work, n, states, actions)
    ensures (Executions(Code(1), states, actions, |actions|) == 0 && Executions(Code(2), states, actions, |actions|) == 0 &&
             Executions(CrashCode, states, actions, |actions|) == 0) <==>
            forall k :: 0 <= k < |actions| && actions[k].Finish? ==> actions[k].rc == 0
  {
    NoExecutions(Code(1), states, actions, |actions|);
    NoExecutions(Code(2), states, actions, |actions|);
    NoExecutions(CrashCode, states, actions, |actions|);
    forall k | 0 <= k < |actions| && actions[k].Finish?
      ensures Executes(Code(1), states[k], actions[k]) <==> actions[k].rc == 1
      ensures Executes(Code(2), states[k], actions[k]) <==> actions[k].rc == 2
      ensures Executes(CrashCode, states[k], actions[k]) <==> actions[k].rc < 0 || actions[k].rc > 2
    {
      NoSkippedCommand(work, n, states, actions, k);
    }
    if forall k :: 0 <= k < |actions| && actions[k].Finish? ==> actions[k].rc == 0 {
      forall k | 0 <= k < |actions|
        ensures !Executes(Code(1), states[k], actions[k]) && !Executes(Code(2), states[k], actions[k])
        ensures !Executes(CrashCode, states[k], actions[k])
      {
      }
    }
  }

  /** What the counters report about a finished run of the pool: they account for
      every job; each of them is the number of commands that ended with its return
      codes; the status is 0 exactly when no job was interrupted and every command
      returned 0; and without an interrupt the skipped jobs are the ones dispatched
      as such. */
  lemma {:induction false} FinishedRun(work: seq<Job>, n: nat, states: seq<State>, actions: seq<Action>, c: Counters)
    requires NoBreaks(work) && n > 0 && IsRun(work, n, states, actions)
    requires Stuck(|work|, states[|actions|])
    requires var r := states[|actions|].collected;
             c == Counters(Outcomes(Passed, r), Outcomes(Failed, r), Outcomes(Crashed, r),
                           Outcomes(ValgrindError, r), Outcomes(Skipped, r))
    ensures var s := states[|actions|];
      && c.passed + c.failed + c.crashed + c.valgrind + c.skipped +
           Outcomes(Interrupted, s.collected) == |work|
      && (ExitStatus(c, |work|) == 0 <==>
           forall i :: 0 <= i < |s.collected| ==> Fine(s.collected[i]))
      && (!s.interrupted ==>
           Outcomes(Interrupted, s.collected) == 0 && c.skipped == Count(Skips, work))
    ensures c.passed == Executions(Code(0), states, actions, |actions|)
    ensures c.failed == Executions(Code(1), states, actions, |actions|)
    ensures c.valgrind == Executions(Code(2), states, actions, |actions|)
    ensures c.crashed == Executions(CrashCode, states, actions, |actions|)
    ensures ExitStatus(c, |work|) == 0 <==>
            NoBreaks(states[|actions|].collected) &&
            forall k :: 0 <= k < |actions| && actions[k].Finish? ==> actions[k].rc == 0
  {
    var s := states[|actions|];
    Delivery(work, n, states, actions);
    OutcomesAddUp(s.collected);
    FineCount(s.collected);
    OutcomesByCode(s.collected);
    ResultsAreReturned(Code(0), work, n, states, actions);
    ResultsAreReturned(Code(1), work, n, states, actions);
    ResultsAreReturned(Code(2), work, n, states, actions);
    ResultsAreReturned(CrashCode, work, n, states, actions);
    AllReturnZero(work, n, states, actions);
    NoneInterrupted(s.collected);
  }
}
