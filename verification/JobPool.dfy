/** The thread pool of test.py: one main thread dispatches jobs and then one
    sentinel per worker, the workers drain the input queue, and the main thread
    collects exactly as many results as it dispatched jobs and joins the workers.

    The pool is a state machine.  An action is one atomic step of one thread (or
    of the SIGINT handler); a run is any interleaving of actions. */
module JobPool {

  /** A job object.  `id` stands for its immutable description; `isBreak` and
      `returnCode` are the two fields a worker assigns. */
  datatype Job = Job(id: nat, isExample: bool, isBreak: bool, isSkip: bool, returnCode: int)

  const SENTINEL := Job(0, false, true, false, 0)

  /** Where a worker stands in its loop. */
  datatype Worker =
    | AtGet                 // about to take from the input queue
    | Got(job: Job)         // holds a job whose flags it has not looked at
    | Running(job: Job)     // executing the job's command
    | ToPut(job: Job)       // about to put the job on the output queue
    | Exited                // took a sentinel and returned

  datatype State = State(
    todo: seq<Job>,         // jobs the main thread has not dispatched yet
    sentinels: nat,         // sentinels the main thread has not queued yet
    input: seq<Job>,
    workers: seq<Worker>,
    output: seq<Job>,
    collected: seq<Job>,    // results read by the main thread, in order
    joined: nat,            // workers joined so far
    interrupted: bool)      // thread_exit

  datatype Action =
    | Dispatch
    | SendSentinel
    | Collect
    | Join
    | Interrupt
    | Get(w: nat)
    | Decide(w: nat)        // the is_break, thread_exit and is_skip tests
    | Finish(w: nat, rc: int)
    | Put(w: nat)

  function Init(work: seq<Job>, n: nat): State {
    State(work, n, [], seq(n, _ => AtGet), [], [], 0, false)
  }

  /** Whether the thread named by `a` can take that step.  Queue reads and joins
      block; the main thread runs its phases in order. */
  predicate CanStep(total: nat, s: State, a: Action) {
    match a
    case Dispatch => s.todo != []
    case SendSentinel => s.todo == [] && s.sentinels > 0
    case Collect =>
      s.todo == [] && s.sentinels == 0 && |s.collected| < total && s.output != []
    case Join =>
      s.todo == [] && s.sentinels == 0 && |s.collected| >= total &&
      s.joined < |s.workers| && s.workers[s.joined].Exited?
    case Interrupt => !s.interrupted
    case Get(w) => w < |s.workers| && s.workers[w].AtGet? && s.input != []
    case Decide(w) => w < |s.workers| && s.workers[w].Got?
    case Finish(w, _) => w < |s.workers| && s.workers[w].Running?
    case Put(w) => w < |s.workers| && s.workers[w].ToPut?
  }

  /** What a worker does with the job it just took. */
  function AfterDecide(job: Job, interrupted: bool): Worker {
    if job.isBreak then Exited
    else if interrupted then ToPut(job.(isBreak := true))
    else if job.isSkip then ToPut(job)
    else Running(job)
  }

  function Step(total: nat, s: State, a: Action): State
    requires CanStep(total, s, a)
  {
    match a
    case Dispatch => s.(todo := s.todo[1..], input := s.input + [s.todo[0]])
    case SendSentinel => s.(sentinels := s.sentinels - 1, input := s.input + [SENTINEL])
    case Collect => s.(output := s.output[1..], collected := s.collected + [s.output[0]])
    case Join => s.(joined := s.joined + 1)
    case Interrupt => s.(interrupted := true)
    case Get(w) => s.(input := s.input[1..], workers := s.workers[w := Got(s.input[0])])
    case Decide(w) =>
      s.(workers := s.workers[w := AfterDecide(s.workers[w].job, s.interrupted)])
    case Finish(w, rc) =>
      s.(workers := s.workers[w := ToPut(s.workers[w].job.(returnCode := rc))])
    case Put(w) =>
      s.(workers := s.workers[w := AtGet], output := s.output + [s.workers[w].job])
  }

  /** The main thread has returned from its last join. */
  predicate Final(total: nat, s: State) {
    s.todo == [] && s.sentinels == 0 && |s.collected| >= total && s.joined == |s.workers|
  }

  predicate NoBreaks(work: seq<Job>) {
    forall j :: 0 <= j < |work| ==> !work[j].isBreak
  }

  ghost predicate IsRun(work: seq<Job>, n: nat, states: seq<State>, actions: seq<Action>) {
    && |states| == |actions| + 1
    && states[0] == Init(work, n)
    && forall i :: 0 <= i < |actions| ==>
         CanStep(|work|, states[i], actions[i]) &&
         states[i + 1] == Step(|work|, states[i], actions[i])
  }

  /** Only a new interrupt could still happen. */
  ghost predicate Stuck(total: nat, s: State) {
    forall a :: CanStep(total, s, a) ==> a == Interrupt
  }

  // ---------------------------------------------------------------- counting

  /** What no thread ever changes about a job. */
  datatype Ticket = Ticket(id: nat, isExample: bool, isSkip: bool)

  function TicketOf(job: Job): Ticket {
    Ticket(job.id, job.isExample, job.isSkip)
  }

  /** Counts below are of all jobs, of the jobs to be skipped, or of one ticket. */
  datatype Query = All | Skips | Only(ticket: Ticket)

  function Hit(q: Query, job: Job): nat {
    if q == All || (q == Skips && job.isSkip) || q == Only(TicketOf(job)) then 1 else 0
  }

  /** How many of `jobs` match. */
  function Count(q: Query, jobs: seq<Job>): nat {
    if jobs == [] then 0 else Hit(q, jobs[0]) + Count(q, jobs[1..])
  }

  /** How many real (non-sentinel) jobs of the input queue match. */
  function Queued(q: Query, input: seq<Job>): nat {
    if input == [] then 0
    else (if input[0].isBreak then 0 else Hit(q, input[0])) + Queued(q, input[1..])
  }

  function Breaks(input: seq<Job>): nat {
    if input == [] then 0 else (if input[0].isBreak then 1 else 0) + Breaks(input[1..])
  }

  /** The worker has taken its sentinel. */
  predicate Gone(w: Worker) {
    w.Exited? || (w.Got? && w.job.isBreak)
  }

  function HeldBy(q: Query, w: Worker): nat {
    if w.AtGet? || Gone(w) then 0 else Hit(q, w.job)
  }

  function Held(q: Query, ws: seq<Worker>): nat {
    if ws == [] then 0 else HeldBy(q, ws[0]) + Held(q, ws[1..])
  }

  function GoneCount(ws: seq<Worker>): nat {
    if ws == [] then 0 else (if Gone(ws[0]) then 1 else 0) + GoneCount(ws[1..])
  }

  lemma {:induction false} CountAppend(q: Query, jobs: seq<Job>, job: Job)
    ensures Count(q, jobs + [job]) == Count(q, jobs) + Hit(q, job)
  {
    if jobs == [] {
      assert jobs + [job] == [job];
    } else {
      assert (jobs + [job])[1..] == jobs[1..] + [job];
      CountAppend(q, jobs[1..], job);
    }
  }

  lemma {:induction false} CountAll(jobs: seq<Job>)
    ensures Count(All, jobs) == |jobs|
  {
    if jobs == [] {
    } else {
      CountAll(jobs[1..]);
    }
  }

  lemma {:induction false} QueuedAppend(q: Query, input: seq<Job>, job: Job)
    ensures Queued(q, input + [job]) == Queued(q, input) + (if job.isBreak then 0 else Hit(q, job))
    ensures Breaks(input + [job]) == Breaks(input) + (if job.isBreak then 1 else 0)
  {
    if input == [] {
      assert input + [job] == [job];
    } else {
      assert (input + [job])[1..] == input[1..] + [job];
      QueuedAppend(q, input[1..], job);
    }
  }

  lemma {:induction false} NoBreakLeft(input: seq<Job>)
    requires Breaks(input) == 0
    ensures NoBreaks(input)
  {
    if input == [] {
    } else {
      NoBreakLeft(input[1..]);
      assert forall j :: 1 <= j < |input| ==> input[j] == input[1..][j - 1];
    }
  }

  lemma {:induction false} AllBreaks(q: Query, input: seq<Job>)
    requires forall j :: 0 <= j < |input| ==> input[j].isBreak
    ensures Breaks(input) == |input| && Queued(q, input) == 0
  {
    if input == [] {
    } else {
      AllBreaks(q, input[1..]);
    }
  }

  lemma {:induction false} SetWorker(q: Query, ws: seq<Worker>, w: nat, x: Worker)
    requires w < |ws|
    ensures Held(q, ws[w := x]) == Held(q, ws) - HeldBy(q, ws[w]) + HeldBy(q, x)
    ensures GoneCount(ws[w := x]) ==
            GoneCount(ws) - (if Gone(ws[w]) then 1 else 0) + (if Gone(x) then 1 else 0)
  {
    if w == 0 {
      assert ws[w := x][1..] == ws[1..];
    } else {
      assert ws[w := x][1..] == ws[1..][w - 1 := x];
      SetWorker(q, ws[1..], w - 1, x);
    }
  }

  lemma {:induction false} GoneBound(ws: seq<Worker>)
    ensures GoneCount(ws) <= |ws|
    ensures GoneCount(ws) == |ws| <==> forall w :: 0 <= w < |ws| ==> Gone(ws[w])
    ensures GoneCount(ws) == 0 <==> forall w :: 0 <= w < |ws| ==> !Gone(ws[w])
  {
    if ws == [] {
    } else {
      GoneBound(ws[1..]);
      assert forall w :: 1 <= w < |ws| ==> ws[w] == ws[1..][w - 1];
      assert forall w :: 0 <= w < |ws[1..]| ==> ws[1..][w] == ws[w + 1];
    }
  }

  lemma {:induction false} IdleHoldsNothing(q: Query, ws: seq<Worker>)
    requires forall w :: 0 <= w < |ws| ==> ws[w].AtGet? || ws[w].Exited?
    ensures Held(q, ws) == 0
  {
    if ws == [] {
    } else {
      IdleHoldsNothing(q, ws[1..]);
    }
  }

  // --------------------------------------------------------------- invariant

  function Dispatched(work: seq<Job>, s: State): seq<Job>
    requires |s.todo| <= |work|
  {
    work[..|work| - |s.todo|]
  }

  /** No job is lost or duplicated: a dispatched job is in exactly one place. */
  ghost predicate Conserved(q: Query, work: seq<Job>, s: State)
    requires |s.todo| <= |work|
  {
    Count(q, Dispatched(work, s)) ==
    Queued(q, s.input) + Held(q, s.workers) + Count(q, s.output) + Count(q, s.collected)
  }

  /** Every sentinel is unsent, queued, or taken by one worker. */
  ghost predicate OneSentinelEach(s: State) {
    |s.workers| == s.sentinels + Breaks(s.input) + GoneCount(s.workers)
  }

  /** Real jobs precede sentinels, and once a sentinel was taken only sentinels remain. */
  ghost predicate JobsFirst(s: State) {
    && (s.todo != [] ==> s.sentinels == |s.workers|)
    && (forall i, j :: 0 <= i < j < |s.input| && s.input[i].isBreak ==> s.input[j].isBreak)
    && (GoneCount(s.workers) > 0 ==> forall j :: 0 <= j < |s.input| ==> s.input[j].isBreak)
  }

  /** The phases of the main thread, and what it knows in each. */
  ghost predicate Phases(total: nat, s: State) {
    && (s.collected != [] || s.joined > 0 ==> s.todo == [] && s.sentinels == 0)
    && s.joined <= |s.workers|
    && |s.collected| <= total
    && (s.joined > 0 ==> |s.collected| == total)
    && (forall w :: 0 <= w < s.joined ==> s.workers[w].Exited?)
  }

  /** A result marked is_break was handed back because of an interrupt. */
  ghost predicate BreaksAreInterrupts(s: State) {
    s.interrupted ||
    (NoBreaks(s.output) && NoBreaks(s.collected) &&
     forall w :: 0 <= w < |s.workers| && s.workers[w].ToPut? ==> !s.workers[w].job.isBreak)
  }

  ghost predicate OnlyRealJobsRun(s: State) {
    forall w :: 0 <= w < |s.workers| && s.workers[w].Running? ==> !s.workers[w].job.isBreak
  }

  ghost predicate Inv(work: seq<Job>, n: nat, s: State) {
    && |s.workers| == n
    && |s.todo| <= |work|
    && s.todo == work[|work| - |s.todo|..]
    && (forall q :: Conserved(q, work, s))
    && OneSentinelEach(s)
    && JobsFirst(s)
    && Phases(|work|, s)
    && BreaksAreInterrupts(s)
    && OnlyRealJobsRun(s)
  }

  lemma InitInv(work: seq<Job>, n: nat)
    requires NoBreaks(work)
    ensures Inv(work, n, Init(work, n))
  {
    var s := Init(work, n);
    GoneBound(s.workers);
    forall q ensures Conserved(q, work, s) {
      IdleHoldsNothing(q, s.workers);
    }
  }

  lemma MainConserves(q: Query, work: seq<Job>, s: State, a: Action)
    requires NoBreaks(work) && |s.todo| <= |work| && s.todo == work[|work| - |s.todo|..]
    requires Conserved(q, work, s) && CanStep(|work|, s, a)
    requires a.Dispatch? || a.SendSentinel? || a.Collect? || a.Join? || a.Interrupt?
    ensures Conserved(q, work, Step(|work|, s, a))
  {
    match a
    case Dispatch =>
      var k := |work| - |s.todo|;
      QueuedAppend(q, s.input, s.todo[0]);
      CountAppend(q, work[..k], work[k]);
      assert work[..k + 1] == work[..k] + [work[k]];
    case SendSentinel => QueuedAppend(q, s.input, SENTINEL);
    case Collect => CountAppend(q, s.collected, s.output[0]);
    case _ =>
  }

  /** Taking from the input queue and giving to the output queue. */
  lemma TransferConserves(q: Query, work: seq<Job>, s: State, a: Action)
    requires |s.todo| <= |work| && Conserved(q, work, s) && CanStep(|work|, s, a)
    requires a.Get? || a.Put?
    ensures Conserved(q, work, Step(|work|, s, a))
  {
    if a.Get? {
      SetWorker(q, s.workers, a.w, Got(s.input[0]));
    } else {
      SetWorker(q, s.workers, a.w, AtGet);
      CountAppend(q, s.output, s.workers[a.w].job);
    }
  }

  /** Looking at a job and running it. */
  lemma WorkConserves(q: Query, work: seq<Job>, s: State, a: Action)
    requires |s.todo| <= |work| && Conserved(q, work, s) && OnlyRealJobsRun(s) && CanStep(|work|, s, a)
    requires a.Decide? || a.Finish?
    ensures Conserved(q, work, Step(|work|, s, a))
  {
    var w, x := a.w, Step(|work|, s, a).workers[a.w];
    SetWorker(q, s.workers, w, x);
    assert HeldBy(q, x) == HeldBy(q, s.workers[w]);
  }

  lemma DispatchSentinels(s: State)
    requires OneSentinelEach(s) && JobsFirst(s) && s.todo != [] && NoBreaks(s.todo)
    ensures OneSentinelEach(Step(0, s, Dispatch)) && JobsFirst(Step(0, s, Dispatch))
  {
    NoBreakLeft(s.input);
    QueuedAppend(All, s.input, s.todo[0]);
  }

  lemma SendSentinels(s: State)
    requires OneSentinelEach(s) && JobsFirst(s) && CanStep(0, s, SendSentinel)
    ensures OneSentinelEach(Step(0, s, SendSentinel)) && JobsFirst(Step(0, s, SendSentinel))
  {
    QueuedAppend(All, s.input, SENTINEL);
  }

  lemma WorkerSentinels(total: nat, s: State, a: Action)
    requires OneSentinelEach(s) && JobsFirst(s) && OnlyRealJobsRun(s) && CanStep(total, s, a)
    requires a.Get? || a.Decide? || a.Finish? || a.Put?
    ensures OneSentinelEach(Step(total, s, a)) && JobsFirst(Step(total, s, a))
  {
    SetWorker(All, s.workers, a.w, Step(total, s, a).workers[a.w]);
    if a.Get? {
      assert forall j :: 1 <= j < |s.input| ==> s.input[j] == s.input[1..][j - 1];
    }
  }

  lemma StepSentinels(total: nat, s: State, a: Action)
    requires OneSentinelEach(s) && JobsFirst(s) && CanStep(total, s, a)
    requires NoBreaks(s.todo) && OnlyRealJobsRun(s)
    ensures OneSentinelEach(Step(total, s, a)) && JobsFirst(Step(total, s, a))
  {
    match a
    case Dispatch => DispatchSentinels(s);
    case SendSentinel => SendSentinels(s);
    case Get(_) => WorkerSentinels(total, s, a);
    case Decide(_) => WorkerSentinels(total, s, a);
    case Finish(_, _) => WorkerSentinels(total, s, a);
    case Put(_) => WorkerSentinels(total, s, a);
    case _ =>
  }

  lemma StepPhases(total: nat, s: State, a: Action)
    requires Phases(total, s) && CanStep(total, s, a)
    ensures Phases(total, Step(total, s, a))
  {
  }

  lemma StepMarks(total: nat, s: State, a: Action)
    requires BreaksAreInterrupts(s) && OnlyRealJobsRun(s) && CanStep(total, s, a)
    ensures BreaksAreInterrupts(Step(total, s, a)) && OnlyRealJobsRun(Step(total, s, a))
  {
  }

  lemma {:induction false} StepInv(work: seq<Job>, n: nat, s: State, a: Action)
    requires NoBreaks(work) && Inv(work, n, s) && CanStep(|work|, s, a)
    ensures Inv(work, n, Step(|work|, s, a))
  {
    forall q ensures Conserved(q, work, Step(|work|, s, a)) {
      assert Conserved(q, work, s);
      if a.Get? || a.Put? {
        TransferConserves(q, work, s, a);
      } else if a.Decide? || a.Finish? {
        WorkConserves(q, work, s, a);
      } else {
        MainConserves(q, work, s, a);
      }
    }
    StepSentinels(|work|, s, a);
    StepPhases(|work|, s, a);
    StepMarks(|work|, s, a);
  }
}
