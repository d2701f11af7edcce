/** The parallel test runner: one dispatching and collecting main thread, N worker threads, two
    unbounded FIFO queues, one "break" job per worker and an asynchronous stop flag. */
module TestRunner {
  import opened Common

  datatype Job = Job(id: nat, isSkip: bool, isBreak: bool, returncode: int)

  /** Where a worker is in its loop: blocked in get, holding a job before the test of thread_exit,
      running the job's command, or returned. */
  datatype Worker = Waiting | Holding(job: Job) | Running(job: Job) | Exited

  datatype State = State(
    todo: seq<Job>,
    breaksLeft: nat,
    input: seq<Job>,
    output: seq<Job>,
    workers: seq<Worker>,
    threadExit: bool,
    collected: seq<Job>,
    joined: nat,
    jobs: nat)

  datatype Step =
    | Interrupt
    | Dispatch
    | DispatchBreak
    | Collect
    | Join
    | Get(w: nat)
    | Look(w: nat)
    | Finish(w: nat, code: int)

  const BREAK_JOB := Job(0, false, true, 0)

  function Start(jobs: seq<Job>, n: nat): State {
    State(jobs, n, [], [], seq(n, _ => Waiting), false, [], 0, |jobs|)
  }

  predicate AllDispatched(s: State) {
    s.todo == [] && s.breaksLeft == 0
  }

  predicate Enabled(s: State, step: Step) {
    match step
    case Interrupt => true
    case Dispatch => s.todo != []
    case DispatchBreak => s.todo == [] && s.breaksLeft > 0
    case Collect => AllDispatched(s) && |s.collected| < s.jobs && s.output != []
    case Join => AllDispatched(s) && |s.collected| >= s.jobs && s.joined < |s.workers| && s.workers[s.joined].Exited?
    case Get(w) => w < |s.workers| && s.workers[w].Waiting? && s.input != []
    case Look(w) => w < |s.workers| && s.workers[w].Holding?
    case Finish(w, _) => w < |s.workers| && s.workers[w].Running?
  }

  function Next(s: State, step: Step): State
    requires Enabled(s, step)
  {
    match step
    case Interrupt => s.(threadExit := true)
    case Dispatch => s.(input := s.input + [s.todo[0]], todo := s.todo[1..])
    case DispatchBreak => s.(input := s.input + [BREAK_JOB], breaksLeft := s.breaksLeft - 1)
    case Collect => s.(collected := s.collected + [s.output[0]], output := s.output[1..])
    case Join => s.(joined := s.joined + 1)
    case Get(w) =>
      var job := s.input[0];
      s.(input := s.input[1..], workers := s.workers[w := if job.isBreak then Exited else Holding(job)])
    case Look(w) =>
      var job := s.workers[w].job;
      if s.threadExit then
        s.(output := s.output + [job.(isBreak := true)], workers := s.workers[w := Waiting])
      else if job.isSkip then
        s.(output := s.output + [job], workers := s.workers[w := Waiting])
      else
        s.(workers := s.workers[w := Running(job)])
    case Finish(w, code) =>
      var job := s.workers[w].job;
      s.(output := s.output + [job.(returncode := code)], workers := s.workers[w := Waiting])
  }

  /** The main thread has come past the last join. */
  predicate Done(s: State) {
    AllDispatched(s) && |s.collected| >= s.jobs && s.joined >= |s.workers|
  }

  ghost predicate IsRun(states: seq<State>, steps: seq<Step>) {
    && |states| == |steps| + 1
    && forall i :: 0 <= i < |steps| ==> Enabled(states[i], steps[i]) && states[i + 1] == Next(states[i], steps[i])
  }

  // ---------------------------------------------------------------------------
  // Conservation: every job and every break job is a token that is somewhere, once
  // ---------------------------------------------------------------------------

  datatype Token = Work(id: nat, isSkip: bool) | Break

  /** A break job in the input queue stands for itself; in the output queue every job is work,
      whether or not it was re-marked after an interrupt. */
  ghost function TokenOf(job: Job, queued: bool): Token {
    if queued && job.isBreak then Break else Work(job.id, job.isSkip)
  }

  ghost function InQueue(s: seq<Job>, queued: bool, k: Token): nat {
    if s == [] then 0 else
      InQueue(s[..|s| - 1], queued, k) + if TokenOf(s[|s| - 1], queued) == k then 1 else 0
  }

  /** A worker owns the job it holds; one that has returned has used up one break job. */
  ghost function HeldBy(worker: Worker, k: Token): nat {
    match worker
    case Waiting => 0
    case Holding(job) => if TokenOf(job, false) == k then 1 else 0
    case Running(job) => if TokenOf(job, false) == k then 1 else 0
    case Exited => if k == Break then 1 else 0
  }

  ghost function Held(workers: seq<Worker>, k: Token): nat {
    if workers == [] then 0 else Held(workers[..|workers| - 1], k) + HeldBy(workers[|workers| - 1], k)
  }

  /** How often token `k` occurs in the whole system. */
  ghost function Everywhere(s: State, k: Token): nat {
    InQueue(s.todo, true, k) + (if k == Break then s.breaksLeft else 0) + InQueue(s.input, true, k)
    + Held(s.workers, k) + InQueue(s.output, false, k) + InQueue(s.collected, false, k)
  }

  lemma Push(s: seq<Job>, job: Job, queued: bool, k: Token)
    ensures InQueue(s + [job], queued, k) == InQueue(s, queued, k) + if TokenOf(job, queued) == k then 1 else 0
  {
    assert (s + [job])[..|s + [job]| - 1] == s;
  }

  lemma {:induction false} Pop(s: seq<Job>, queued: bool, k: Token)
    requires s != []
    ensures InQueue(s, queued, k) == InQueue(s[1..], queued, k) + if TokenOf(s[0], queued) == k then 1 else 0
  {
    if |s| > 1 {
      Pop(s[..|s| - 1], queued, k);
      assert s[..|s| - 1][1..] == s[1..][..|s[1..]| - 1];
    }
  }

  lemma {:induction false} HeldUpdate(workers: seq<Worker>, w: nat, worker: Worker, k: Token)
    requires w < |workers|
    ensures Held(workers[w := worker], k) == Held(workers, k) - HeldBy(workers[w], k) + HeldBy(worker, k)
  {
    var front := workers[..|workers| - 1];
    if w == |workers| - 1 {
      assert workers[w := worker][..|workers| - 1] == front;
    } else {
      HeldUpdate(front, w, worker, k);
      assert workers[w := worker][..|workers| - 1] == front[w := worker];
    }
  }

  ghost predicate NoBreaks(s: seq<Job>) {
    forall i :: 0 <= i < |s| ==> !s[i].isBreak
  }

  ghost predicate OnlyBreaks(s: seq<Job>) {
    forall i :: 0 <= i < |s| ==> s[i].isBreak
  }

  /** Break jobs are queued behind all work. */
  ghost predicate BreaksLast(s: seq<Job>) {
    forall i, j :: 0 <= i < j < |s| && s[i].isBreak ==> s[j].isBreak
  }

  ghost predicate HeldJobsAreWork(workers: seq<Worker>) {
    forall w :: 0 <= w < |workers| ==>
      && (workers[w].Holding? ==> !workers[w].job.isBreak)
      && (workers[w].Running? ==> !workers[w].job.isBreak && !workers[w].job.isSkip)
  }

  /** The number of workers that hold a token. */
  ghost function Busy(workers: seq<Worker>): nat {
    if workers == [] then 0 else Busy(workers[..|workers| - 1]) + if workers[|workers| - 1].Waiting? then 0 else 1
  }

  lemma {:induction false} BusyUpdate(workers: seq<Worker>, w: nat, worker: Worker)
    requires w < |workers|
    ensures Busy(workers[w := worker]) + (if workers[w].Waiting? then 0 else 1)
         == Busy(workers) + (if worker.Waiting? then 0 else 1)
  {
    var front := workers[..|workers| - 1];
    if w == |workers| - 1 {
      assert workers[w := worker][..|workers| - 1] == front;
    } else {
      BusyUpdate(front, w, worker);
      assert workers[w := worker][..|workers| - 1] == front[w := worker];
    }
  }

  ghost predicate Inv(s: State, jobs: seq<Job>, n: nat) {
    && |s.workers| == n && s.jobs == |jobs| && NoBreaks(jobs)
    && (forall k :: Everywhere(s, k) == InQueue(jobs, true, k) + if k == Break then n else 0)
    && |s.todo| + s.breaksLeft + |s.input| + Busy(s.workers) + |s.output| + |s.collected| == |jobs| + n
    && NoBreaks(s.todo) && HeldJobsAreWork(s.workers)
    && s.breaksLeft <= n && (s.breaksLeft < n ==> s.todo == [])
    && (s.breaksLeft == n ==> NoBreaks(s.input))
    && BreaksLast(s.input)
    && ((exists w :: 0 <= w < n && s.workers[w].Exited?) ==> OnlyBreaks(s.input) && s.breaksLeft < n)
    && |s.collected| <= s.jobs && s.joined <= n
    && (forall w :: 0 <= w < s.joined ==> s.workers[w].Exited?)
    && (s.joined > 0 ==> |s.collected| == s.jobs)
  }

  lemma {:induction false} WaitingHoldNothing(n: nat, k: Token)
    ensures Held(seq<Worker>(n, _ => Waiting), k) == 0 && Busy(seq<Worker>(n, _ => Waiting)) == 0
  {
    if n > 0 {
      WaitingHoldNothing(n - 1, k);
      assert seq<Worker>(n, _ => Waiting)[..n - 1] == seq<Worker>(n - 1, _ => Waiting);
    }
  }

  lemma InvHoldsAtStart(jobs: seq<Job>, n: nat)
    requires NoBreaks(jobs)
    ensures Inv(Start(jobs, n), jobs, n)
  {
    WaitingHoldNothing(n, Break);
    forall k ensures Everywhere(Start(jobs, n), k) == InQueue(jobs, true, k) + if k == Break then n else 0 {
      WaitingHoldNothing(n, k);
    }
  }

  /** No step creates, copies or drops a job or a break job. */
  lemma TokensConserved(s: State, step: Step, k: Token)
    requires Enabled(s, step) && NoBreaks(s.todo) && HeldJobsAreWork(s.workers)
    ensures Everywhere(Next(s, step), k) == Everywhere(s, k)
  {
    hide InQueue, Held, NoBreaks;
    match step
    case Interrupt =>
    case Dispatch =>
      Pop(s.todo, true, k);
      Push(s.input, s.todo[0], true, k);
    case DispatchBreak =>
      Push(s.input, BREAK_JOB, true, k);
    case Collect =>
      Pop(s.output, false, k);
      Push(s.collected, s.output[0], false, k);
    case Join =>
    case Get(w) => WorkerConserves(s, step, k);
    case Look(w) => WorkerConserves(s, step, k);
    case Finish(w, code) => WorkerConserves(s, step, k);
  }

  lemma WorkerConserves(s: State, step: Step, k: Token)
    requires Enabled(s, step) && HeldJobsAreWork(s.workers)
    requires step.Get? || step.Look? || step.Finish?
    ensures Everywhere(Next(s, step), k) == Everywhere(s, k)
  {
    hide InQueue, Held;
    var t := Next(s, step);
    HeldUpdate(s.workers, step.w, t.workers[step.w], k);
    if step.Get? {
      Pop(s.input, true, k);
    } else if |t.output| > |s.output| {
      Push(s.output, t.output[|s.output|], false, k);
    }
  }

  lemma InvKept(s: State, step: Step, jobs: seq<Job>, n: nat)
    requires Inv(s, jobs, n) && Enabled(s, step)
    ensures Inv(Next(s, step), jobs, n)
  {
    hide Inv, Next;
    if step.Get? || step.Look? || step.Finish? { WorkerKeepsInv(s, step, jobs, n); } else { MainKeepsInv(s, step, jobs, n); }
  }

  lemma WorkerKeepsInv(s: State, step: Step, jobs: seq<Job>, n: nat)
    requires Inv(s, jobs, n) && Enabled(s, step)
    requires step.Get? || step.Look? || step.Finish?
    ensures Inv(Next(s, step), jobs, n)
  {
    hide Everywhere, InQueue, Busy;
    forall k ensures Everywhere(Next(s, step), k) == Everywhere(s, k) {
      TokensConserved(s, step, k);
    }
    BusyUpdate(s.workers, step.w, Next(s, step).workers[step.w]);
  }

  lemma MainKeepsInv(s: State, step: Step, jobs: seq<Job>, n: nat)
    requires Inv(s, jobs, n) && Enabled(s, step)
    requires !step.Get? && !step.Look? && !step.Finish?
    ensures Inv(Next(s, step), jobs, n)
  {
    hide Everywhere, InQueue, Busy;
    forall k ensures Everywhere(Next(s, step), k) == Everywhere(s, k) {
      TokensConserved(s, step, k);
    }
  }

  lemma {:induction false} InvAlways(jobs: seq<Job>, n: nat, states: seq<State>, steps: seq<Step>, k: nat)
    requires NoBreaks(jobs) && IsRun(states, steps) && states[0] == Start(jobs, n) && k < |states|
    ensures Inv(states[k], jobs, n)
  {
    if k == 0 {
      InvHoldsAtStart(jobs, n);
    } else {
      InvAlways(jobs, n, states, steps, k - 1);
      assert states[k - 1 + 1] == Next(states[k - 1], steps[k - 1]);
      InvKept(states[k - 1], steps[k - 1], jobs, n);
    }
  }

  // ---------------------------------------------------------------------------
  // Progress
  // ---------------------------------------------------------------------------

  lemma {:induction false} BreaksHeld(workers: seq<Worker>)
    ensures Held(workers, Break) <= Busy(workers) <= |workers|
    ensures Held(workers, Break) == |workers| <==> forall w :: 0 <= w < |workers| ==> workers[w].Exited?
    ensures (forall w :: 0 <= w < |workers| ==> workers[w].Exited? || workers[w].Waiting?) ==>
              Held(workers, Break) == Busy(workers) && forall id, skip :: Held(workers, Work(id, skip)) == 0
  {
    if workers != [] {
      BreaksHeld(workers[..|workers| - 1]);
    }
  }

  lemma {:induction false} NoBreakTokens(s: seq<Job>, queued: bool)
    requires queued ==> NoBreaks(s)
    ensures InQueue(s, queued, Break) == 0
    ensures NoBreaks(s) ==> forall k :: InQueue(s, true, k) == InQueue(s, false, k)
  {
    if s != [] { NoBreakTokens(s[..|s| - 1], queued); }
  }

  ghost predicate Quiet(s: State) {
    AllDispatched(s) &&
    forall w :: 0 <= w < |s.workers| ==> s.workers[w].Exited? || (s.workers[w].Waiting? && s.input == [])
  }

  lemma QuietInputIsEmpty(s: State, jobs: seq<Job>, n: nat)
    requires Inv(s, jobs, n) && n > 0 && Quiet(s)
    ensures s.input == []
  {
    if s.input != [] {
      assert s.workers[0].Exited?;
      BreaksHeld(s.workers);
      NoBreakTokens(jobs, true);
      Pop(s.input, true, Break);
    }
  }

  /** With everything dispatched and every worker idle or gone, nothing is left in the input queue
      and everything has been delivered. */
  lemma QuietMeansDelivered(s: State, jobs: seq<Job>, n: nat)
    requires Inv(s, jobs, n) && n > 0 && Quiet(s)
    ensures s.input == [] && (forall w :: 0 <= w < n ==> s.workers[w].Exited?)
    ensures |s.output| + |s.collected| == s.jobs
    ensures forall k :: InQueue(s.output, false, k) + InQueue(s.collected, false, k) == InQueue(jobs, false, k)
  {
    QuietInputIsEmpty(s, jobs, n);
    BreaksHeld(s.workers);
    NoBreakTokens(s.output, false);
    NoBreakTokens(s.collected, false);
    NoBreakTokens(jobs, true);
    assert Everywhere(s, Break) == n;
    forall k ensures InQueue(s.output, false, k) + InQueue(s.collected, false, k) == InQueue(jobs, false, k) {
      assert Everywhere(s, k) == InQueue(jobs, true, k) + if k == Break then n else 0;
      match k
      case Work(id, skip) => assert Held(s.workers, Work(id, skip)) == 0;
      case Break =>
    }
  }

  /** Nobody starves: as long as main is not past the last join, some thread can move. */
  lemma NoDeadlock(s: State, jobs: seq<Job>, n: nat) returns (step: Step)
    requires Inv(s, jobs, n) && n > 0 && !Done(s)
    ensures step != Interrupt && Enabled(s, step)
  {
    hide Inv;
    if s.todo != [] {
      step := Dispatch;
    } else if s.breaksLeft > 0 {
      step := DispatchBreak;
    } else if w :| 0 <= w < |s.workers| && s.workers[w].Holding? {
      step := Look(w);
    } else if w :| 0 <= w < |s.workers| && s.workers[w].Running? {
      step := Finish(w, 0);
    } else if w :| 0 <= w < |s.workers| && s.workers[w].Waiting? && s.input != [] {
      step := Get(w);
    } else {
      step := LastSteps(s, jobs, n);
    }
  }

  lemma LastSteps(s: State, jobs: seq<Job>, n: nat) returns (step: Step)
    requires Inv(s, jobs, n) && n > 0 && !Done(s) && Quiet(s)
    ensures step != Interrupt && Enabled(s, step)
  {
    QuietMeansDelivered(s, jobs, n);
    step := if |s.collected| < s.jobs then Collect else Join;
  }

  /** Work still to be done, counted in steps. */
  ghost function Rank(s: State): int {
    5 * (|s.todo| + s.breaksLeft) + 4 * |s.input| + WorkerRank(s.workers) + |s.output| + |s.workers| - s.joined
  }

  ghost function WorkerRank(workers: seq<Worker>): nat {
    if workers == [] then 0 else
      var last := workers[|workers| - 1];
      WorkerRank(workers[..|workers| - 1]) + if last.Holding? then 3 else if last.Running? then 2 else 0
  }

  lemma {:induction false} WorkerRankUpdate(workers: seq<Worker>, w: nat, worker: Worker)
    requires w < |workers|
    ensures WorkerRank(workers[w := worker]) + (if workers[w].Holding? then 3 else if workers[w].Running? then 2 else 0)
         == WorkerRank(workers) + (if worker.Holding? then 3 else if worker.Running? then 2 else 0)
  {
    var front := workers[..|workers| - 1];
    if w == |workers| - 1 {
      assert workers[w := worker][..|workers| - 1] == front;
    } else {
      WorkerRankUpdate(front, w, worker);
      assert workers[w := worker][..|workers| - 1] == front[w := worker];
    }
  }

  lemma RankDecreases(s: State, step: Step)
    requires Enabled(s, step)
    ensures step == Interrupt ==> Rank(Next(s, step)) == Rank(s)
    ensures step != Interrupt ==> Rank(Next(s, step)) < Rank(s)
  {
    if step.Get? || step.Look? || step.Finish? {
      WorkerRankUpdate(s.workers, step.w, Next(s, step).workers[step.w]);
    }
  }

  ghost function Moves(steps: seq<Step>): nat {
    if steps == [] then 0 else Moves(steps[..|steps| - 1]) + if steps[|steps| - 1].Interrupt? then 0 else 1
  }

  /** Every run is finite, interrupts aside: at most 5 moves a job and 6 a worker. */
  lemma {:induction false} RunsAreShort(jobs: seq<Job>, n: nat, states: seq<State>, steps: seq<Step>)
    requires NoBreaks(jobs) && IsRun(states, steps) && states[0] == Start(jobs, n)
    ensures Moves(steps) <= 5 * |jobs| + 6 * n
  {
    MovesPlusRank(states, steps);
    WaitingRank(n);
    InvAlways(jobs, n, states, steps, |steps|);
  }

  lemma {:induction false} WaitingRank(n: nat)
    ensures WorkerRank(seq<Worker>(n, _ => Waiting)) == 0
  {
    if n > 0 {
      WaitingRank(n - 1);
      assert seq<Worker>(n, _ => Waiting)[..n - 1] == seq<Worker>(n - 1, _ => Waiting);
    }
  }

  lemma {:induction false} MovesPlusRank(states: seq<State>, steps: seq<Step>)
    requires IsRun(states, steps)
    ensures Moves(steps) + Rank(states[|steps|]) <= Rank(states[0])
    decreases |steps|
  {
    if steps != [] {
      var k := |steps| - 1;
      MovesPlusRank(states[..k + 1], steps[..k]);
      assert states[k + 1] == Next(states[k], steps[k]);
      RankDecreases(states[k], steps[k]);
    }
  }

  // ---------------------------------------------------------------------------
  // What a finished run leaves behind
  // ---------------------------------------------------------------------------

  /** Both queues are empty, every worker has returned, and the collected results are the
      dispatched jobs, each exactly once and no break job among them. */
  ghost predicate NothingLost(s: State, jobs: seq<Job>, n: nat) {
    && s.input == [] && s.output == []
    && |s.workers| == n && (forall w :: 0 <= w < n ==> s.workers[w].Exited?)
    && |s.collected| == |jobs|
    && (forall k :: InQueue(s.collected, false, k) == InQueue(jobs, false, k))
  }

  lemma DoneMeansNothingLost(s: State, jobs: seq<Job>, n: nat)
    requires Inv(s, jobs, n) && n > 0 && Done(s)
    ensures NothingLost(s, jobs, n)
  {
    QuietMeansDelivered(s, jobs, n);
  }

  /** After the last join nothing is lost, whatever the interleaving and wherever the interrupt. */
  lemma FinishedRun(jobs: seq<Job>, n: nat, states: seq<State>, steps: seq<Step>)
    requires NoBreaks(jobs) && n > 0
    requires IsRun(states, steps) && states[0] == Start(jobs, n) && Done(states[|steps|])
    ensures NothingLost(states[|steps|], jobs, n)
  {
    InvAlways(jobs, n, states, steps, |steps|);
    DoneMeansNothingLost(states[|steps|], jobs, n);
  }

  /** A job comes back re-marked as a break only if the run was interrupted; a job that was not
      re-marked and not skipped carries the return code its command produced. */
  ghost predicate Faithful(s: State, code: nat -> int) {
    && (forall i :: 0 <= i < |s.output| ==> FaithfulJob(s.output[i], s.threadExit, code))
    && (forall i :: 0 <= i < |s.collected| ==> FaithfulJob(s.collected[i], s.threadExit, code))
  }

  ghost predicate FaithfulJob(job: Job, interrupted: bool, code: nat -> int) {
    (job.isBreak ==> interrupted) && (!job.isBreak && !job.isSkip ==> job.returncode == code(job.id))
  }

  /** The commands of the run return `code(id)`. */
  ghost predicate Obeys(states: seq<State>, steps: seq<Step>, code: nat -> int)
    requires IsRun(states, steps)
  {
    forall i :: 0 <= i < |steps| && steps[i].Finish? ==> steps[i].code == code(states[i].workers[steps[i].w].job.id)
  }

  lemma FaithfulKept(s: State, step: Step, code: nat -> int)
    requires Enabled(s, step) && Faithful(s, code)
    requires step.Finish? ==> step.code == code(s.workers[step.w].job.id)
    requires HeldJobsAreWork(s.workers)
    ensures Faithful(Next(s, step), code)
  {
  }

  lemma {:induction false} FaithfulAlways(jobs: seq<Job>, n: nat, states: seq<State>, steps: seq<Step>, code: nat -> int, k: nat)
    requires NoBreaks(jobs) && IsRun(states, steps) && states[0] == Start(jobs, n) && k < |states|
    requires Obeys(states, steps, code)
    ensures Faithful(states[k], code)
    ensures (forall i :: 0 <= i < k ==> steps[i] != Interrupt) ==> !states[k].threadExit
  {
    if k > 0 {
      FaithfulAlways(jobs, n, states, steps, code, k - 1);
      InvAlways(jobs, n, states, steps, k - 1);
      assert states[k - 1 + 1] == Next(states[k - 1], steps[k - 1]);
      FaithfulKept(states[k - 1], steps[k - 1], code);
    }
  }

  // ---------------------------------------------------------------------------
  // Order, and what an interrupt stops
  // ---------------------------------------------------------------------------

  ghost function Gets(steps: seq<Step>): nat {
    if steps == [] then 0 else Gets(steps[..|steps| - 1]) + if steps[|steps| - 1].Get? then 1 else 0
  }

  /** All that main dispatches: the jobs, then one break job a worker. */
  ghost function Dispatched(jobs: seq<Job>, n: nat): seq<Job> {
    jobs + seq(n, _ => BREAK_JOB)
  }

  /** What has not been taken by a worker yet, in the order in which it will be. */
  ghost function Waits(s: State): seq<Job> {
    s.input + s.todo + seq(s.breaksLeft, _ => BREAK_JOB)
  }

  lemma StepTakes(s: State, step: Step)
    requires Enabled(s, step)
    ensures step.Get? ==> Waits(s) != [] && Waits(Next(s, step)) == Waits(s)[1..]
    ensures !step.Get? ==> Waits(Next(s, step)) == Waits(s)
  {
    if step.DispatchBreak? {
      assert seq(s.breaksLeft, _ => BREAK_JOB) == [BREAK_JOB] + seq(s.breaksLeft - 1, _ => BREAK_JOB);
    }
  }

  /** The workers take the jobs in the order in which main dispatches them, and the breaks last. */
  lemma {:induction false} TakenInOrder(jobs: seq<Job>, n: nat, states: seq<State>, steps: seq<Step>, k: nat)
    requires IsRun(states, steps) && states[0] == Start(jobs, n) && k < |states|
    ensures Gets(steps[..k]) <= |jobs| + n
    ensures Waits(states[k]) == Dispatched(jobs, n)[Gets(steps[..k])..]
  {
    hide Next, Enabled, Waits, Dispatched;
    if k == 0 {
      StartWaits(jobs, n);
    } else {
      TakenInOrder(jobs, n, states, steps, k - 1);
      assert states[k - 1 + 1] == Next(states[k - 1], steps[k - 1]);
      assert steps[..k][..k - 1] == steps[..k - 1];
      StepTakes(states[k - 1], steps[k - 1]);
      DispatchedCount(jobs, n);
    }
  }

  lemma StartWaits(jobs: seq<Job>, n: nat)
    ensures Waits(Start(jobs, n)) == Dispatched(jobs, n) == Dispatched(jobs, n)[0..]
  {
  }

  lemma DispatchedCount(jobs: seq<Job>, n: nat)
    ensures |Dispatched(jobs, n)| == |jobs| + n
  {
  }

  /** What a step hands back: the result of a finished command; a skipped job as it is; after an
      interrupt a job that was not started, marked as a break. */
  ghost function HandedBack(s: State, step: Step): seq<Job>
    requires Enabled(s, step)
  {
    match step
    case Finish(w, code) => [s.workers[w].job.(returncode := code)]
    case Look(w) =>
      if s.threadExit then [s.workers[w].job.(isBreak := true)]
      else if s.workers[w].job.isSkip then [s.workers[w].job]
      else []
    case _ => []
  }

  ghost function Delivered(states: seq<State>, steps: seq<Step>, k: nat): seq<Job>
    requires IsRun(states, steps) && k < |states|
  {
    if k == 0 then [] else Delivered(states, steps, k - 1) + HandedBack(states[k - 1], steps[k - 1])
  }

  /** Main collects the results in the order in which the workers hand them back. */
  lemma {:induction false} CollectedInOrder(jobs: seq<Job>, n: nat, states: seq<State>, steps: seq<Step>, k: nat)
    requires IsRun(states, steps) && states[0] == Start(jobs, n) && k < |states|
    ensures states[k].collected + states[k].output == Delivered(states, steps, k)
  {
    if k > 0 {
      CollectedInOrder(jobs, n, states, steps, k - 1);
      assert states[k - 1 + 1] == Next(states[k - 1], steps[k - 1]);
      StepDelivers(states[k - 1], steps[k - 1]);
    }
  }

  lemma StepDelivers(s: State, step: Step)
    requires Enabled(s, step)
    ensures Next(s, step).collected + Next(s, step).output == s.collected + s.output + HandedBack(s, step)
  {
  }

  lemma {:induction false} InterruptIsSeen(jobs: seq<Job>, n: nat, states: seq<State>, steps: seq<Step>, k: nat)
    requires IsRun(states, steps) && states[0] == Start(jobs, n) && k < |states|
    ensures states[k].threadExit <==> Interrupt in steps[..k]
  {
    if k > 0 {
      InterruptIsSeen(jobs, n, states, steps, k - 1);
      assert states[k - 1 + 1] == Next(states[k - 1], steps[k - 1]);
      assert steps[..k] == steps[..k - 1] + [steps[k - 1]];
    }
  }

  /** Main dispatches everything before it collects, and collects everything before it joins. */
  lemma {:induction false} MainIsSequential(jobs: seq<Job>, n: nat, states: seq<State>, steps: seq<Step>, k: nat)
    requires IsRun(states, steps) && states[0] == Start(jobs, n) && k < |states|
    ensures states[k].collected != [] ==> AllDispatched(states[k])
    ensures states[k].joined > 0 ==> AllDispatched(states[k]) && |states[k].collected| >= |jobs| == states[k].jobs
    ensures states[k].jobs == |jobs|
  {
    if k > 0 {
      MainIsSequential(jobs, n, states, steps, k - 1);
      assert states[k - 1 + 1] == Next(states[k - 1], steps[k - 1]);
    }
  }

  /** After an interrupt no command is started: whoever runs one was already running it. */
  lemma {:induction false} NoCommandAfterInterrupt(states: seq<State>, steps: seq<Step>, i: nat, j: nat, w: nat)
    requires IsRun(states, steps) && i <= j < |states| && states[i].threadExit && w < |states[i].workers|
    ensures states[j].threadExit && |states[j].workers| == |states[i].workers|
    ensures states[j].workers[w].Running? ==> states[j].workers[w] == states[i].workers[w]
    decreases j
  {
    if i < j {
      NoCommandAfterInterrupt(states, steps, i, j - 1, w);
      assert states[j - 1 + 1] == Next(states[j - 1], steps[j - 1]);
    }
  }

  // ---------------------------------------------------------------------------
  // The tallies and the exit code
  // ---------------------------------------------------------------------------

  datatype Outcome = Interrupted | Skipped | Passed | Failed | ValgrindError | Crashed

  function OutcomeOf(job: Job): Outcome {
    if job.isBreak then Interrupted
    else if job.isSkip then Skipped
    else if job.returncode == 0 then Passed
    else if job.returncode == 1 then Failed
    else if job.returncode == 2 then ValgrindError
    else Crashed
  }

  predicate IsGood(job: Job) {
    !job.isBreak && (job.isSkip || job.returncode == 0)
  }

  ghost function Count(results: seq<Job>, outcome: Outcome): nat {
    if results == [] then 0 else
      Count(results[..|results| - 1], outcome) + if OutcomeOf(results[|results| - 1]) == outcome then 1 else 0
  }

  ghost predicate AllGood(results: seq<Job>) {
    forall i :: 0 <= i < |results| ==> IsGood(results[i])
  }

  /** Every result is counted under exactly one outcome. */
  lemma {:induction false} OutcomesAddUp(results: seq<Job>)
    ensures Count(results, Passed) + Count(results, Failed) + Count(results, ValgrindError)
            + Count(results, Crashed) + Count(results, Skipped) + Count(results, Interrupted) == |results|
    ensures Count(results, Passed) + Count(results, Skipped) == |results| <==> AllGood(results)
  {
    if results != [] {
      OutcomesAddUp(results[..|results| - 1]);
    }
  }

  ghost function Where(results: seq<Job>, outcome: Outcome): set<int> {
    set i | 0 <= i < |results| && OutcomeOf(results[i]) == outcome
  }

  lemma {:induction false} CountIs(results: seq<Job>, outcome: Outcome)
    ensures Count(results, outcome) == |Where(results, outcome)|
  {
    hide OutcomeOf;
    if results != [] {
      CountIs(results[..|results| - 1], outcome);
      WhereNext(results, outcome);
    }
  }

  lemma WhereNext(results: seq<Job>, outcome: Outcome)
    requires results != []
    ensures var n := |results| - 1;
            |Where(results, outcome)| == |Where(results[..n], outcome)| + if OutcomeOf(results[n]) == outcome then 1 else 0
  {
    hide OutcomeOf;
    var n := |results| - 1;
    var before, all := Where(results[..n], outcome), Where(results, outcome);
    assert n !in before;
    assert forall i :: i in before <==> i in all && i != n;
    if OutcomeOf(results[n]) == outcome {
      assert all == before + {n};
    } else {
      assert all == before;
    }
  }

  /** What the tallies count, said about the collected jobs themselves. */
  lemma CountsAre(results: seq<Job>)
    ensures Count(results, Passed) == |set i | 0 <= i < |results| && !results[i].isBreak && !results[i].isSkip && results[i].returncode == 0|
    ensures Count(results, Failed) == |set i | 0 <= i < |results| && !results[i].isBreak && !results[i].isSkip && results[i].returncode == 1|
    ensures Count(results, ValgrindError) == |set i | 0 <= i < |results| && !results[i].isBreak && !results[i].isSkip && results[i].returncode == 2|
    ensures Count(results, Crashed) == |set i | 0 <= i < |results| && !results[i].isBreak && !results[i].isSkip && results[i].returncode !in {0, 1, 2}|
    ensures Count(results, Skipped) == |set i | 0 <= i < |results| && !results[i].isBreak && results[i].isSkip|
    ensures Count(results, Interrupted) == |set i | 0 <= i < |results| && results[i].isBreak|
  {
    CountIs(results, Passed);
    CountIs(results, Failed);
    CountIs(results, ValgrindError);
    CountIs(results, Crashed);
    CountIs(results, Skipped);
    CountIs(results, Interrupted);
    hide Count;
    assert Where(results, Passed) == set i | 0 <= i < |results| && !results[i].isBreak && !results[i].isSkip && results[i].returncode == 0;
    assert Where(results, Failed) == set i | 0 <= i < |results| && !results[i].isBreak && !results[i].isSkip && results[i].returncode == 1;
    assert Where(results, ValgrindError) == set i | 0 <= i < |results| && !results[i].isBreak && !results[i].isSkip && results[i].returncode == 2;
    assert Where(results, Crashed) == set i | 0 <= i < |results| && !results[i].isBreak && !results[i].isSkip && results[i].returncode !in {0, 1, 2};
    assert Where(results, Skipped) == set i | 0 <= i < |results| && !results[i].isBreak && results[i].isSkip;
    assert Where(results, Interrupted) == set i | 0 <= i < |results| && results[i].isBreak;
  }

  datatype Tally = Tally(passed: nat, failed: nat, valgrindErrors: nat, crashed: nat, skipped: nat)

  /** The collecting loop and the final return of run_tests, for `totalTests` dispatched jobs. */
  method Summarize(results: seq<Job>, totalTests: nat) returns (tally: Tally, exitCode: int)
    requires totalTests == |results|
    ensures tally.passed == |set i | 0 <= i < |results| && !results[i].isBreak && !results[i].isSkip && results[i].returncode == 0|
    ensures tally.failed == |set i | 0 <= i < |results| && !results[i].isBreak && !results[i].isSkip && results[i].returncode == 1|
    ensures tally.valgrindErrors == |set i | 0 <= i < |results| && !results[i].isBreak && !results[i].isSkip && results[i].returncode == 2|
    ensures tally.crashed == |set i | 0 <= i < |results| && !results[i].isBreak && !results[i].isSkip && results[i].returncode !in {0, 1, 2}|
    ensures tally.skipped == |set i | 0 <= i < |results| && !results[i].isBreak && results[i].isSkip|
    ensures tally.passed + tally.failed + tally.valgrindErrors + tally.crashed + tally.skipped
            + |set i | 0 <= i < |results| && results[i].isBreak| == totalTests
    ensures exitCode == if AllGood(results) then 0 else 1
  {
    tally := Tally(0, 0, 0, 0, 0);
    for i := 0 to |results|
      invariant tally == Tally(Count(results[..i], Passed), Count(results[..i], Failed),
                               Count(results[..i], ValgrindError), Count(results[..i], Crashed),
                               Count(results[..i], Skipped))
    {
      var job := results[i];
      assert results[..i + 1][..i] == results[..i];
      if job.isBreak {
        continue;
      }
      if job.isSkip {
        tally := tally.(skipped := tally.skipped + 1);
      } else {
        if job.returncode == 0 {
          tally := tally.(passed := tally.passed + 1);
        } else if job.returncode == 1 {
          tally := tally.(failed := tally.failed + 1);
        } else if job.returncode == 2 {
          tally := tally.(valgrindErrors := tally.valgrindErrors + 1);
        } else {
          tally := tally.(crashed := tally.crashed + 1);
        }
      }
    }
    assert results[..|results|] == results;
    OutcomesAddUp(results);
    CountsAre(results);
    exitCode := if tally.passed + tally.skipped == totalTests then 0 else 1;
  }

  ghost predicate AllPass(jobs: seq<Job>, code: nat -> int) {
    forall i :: 0 <= i < |jobs| ==> jobs[i].isSkip || code(jobs[i].id) == 0
  }

  lemma {:induction false} InQueueMember(s: seq<Job>, k: Token)
    ensures InQueue(s, false, k) > 0 <==> exists i :: 0 <= i < |s| && TokenOf(s[i], false) == k
  {
    if s != [] { InQueueMember(s[..|s| - 1], k); }
  }

  /** Lists with the same tokens list the same jobs. */
  lemma SameTokens(s: seq<Job>, t: seq<Job>, i: nat) returns (j: nat)
    requires i < |s| && forall k :: InQueue(s, false, k) == InQueue(t, false, k)
    ensures j < |t| && t[j].id == s[i].id && t[j].isSkip == s[i].isSkip
  {
    InQueueMember(s, TokenOf(s[i], false));
    InQueueMember(t, TokenOf(s[i], false));
    j :| 0 <= j < |t| && TokenOf(t[j], false) == TokenOf(s[i], false);
  }

  /** The verdict does not depend on the schedule: an uninterrupted run ends well exactly when every
      job that is not skipped has return code 0. An interrupted run never ends better than that. */
  lemma VerdictIsScheduleIndependent(jobs: seq<Job>, n: nat, states: seq<State>, steps: seq<Step>, code: nat -> int)
    requires NoBreaks(jobs) && n > 0
    requires IsRun(states, steps) && states[0] == Start(jobs, n) && Done(states[|steps|])
    requires Obeys(states, steps, code)
    ensures AllGood(states[|steps|].collected) ==> AllPass(jobs, code)
    ensures Interrupt !in steps ==> (AllGood(states[|steps|].collected) <==> AllPass(jobs, code))
  {
    hide Done;
    FinishedRun(jobs, n, states, steps);
    FaithfulAlways(jobs, n, states, steps, code, |steps|);
    CompareResults(jobs, states[|steps|], code);
  }

  lemma CompareResults(jobs: seq<Job>, s: State, code: nat -> int)
    requires forall k :: InQueue(s.collected, false, k) == InQueue(jobs, false, k)
    requires Faithful(s, code)
    ensures AllGood(s.collected) ==> AllPass(jobs, code)
    ensures !s.threadExit && AllPass(jobs, code) ==> AllGood(s.collected)
  {
    hide InQueue;
    if AllGood(s.collected) {
      forall i | 0 <= i < |jobs| ensures jobs[i].isSkip || code(jobs[i].id) == 0 {
        var j := SameTokens(jobs, s.collected, i);
        assert IsGood(s.collected[j]) && FaithfulJob(s.collected[j], s.threadExit, code);
      }
    }
    if !s.threadExit && AllPass(jobs, code) {
      forall j | 0 <= j < |s.collected| ensures IsGood(s.collected[j]) {
        var i := SameTokens(s.collected, jobs, j);
        assert FaithfulJob(s.collected[j], s.threadExit, code);
      }
    }
  }
}
