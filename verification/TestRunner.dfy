/** The parallel test runner as a step system: one dispatcher, a number of worker threads,
    two FIFO queues, poison pills and an interrupt flag that may be set at any time. */
module TestRunner {

  datatype Job = Job(name: string, isBreak: bool, isSkip: bool, returncode: int)

  const PILL := Job("", true, false, 0)

  /** The job as it was before a worker touched it. */
  function Original(job: Job): Job {
    job.(isBreak := false, returncode := 0)
  }

  predicate IsOriginal(job: Job) {
    job == Original(job)
  }

  /** Where a worker thread is in its loop. */
  datatype Worker =
    | Getting              // about to take a job from the input queue
    | Checking(job: Job)   // has taken a real job, about to look at the interrupt flag
    | Deciding(job: Job)   // has seen the flag unset, about to start the job's process
    | Running(job: Job)    // the job's process is running
    | Putting(job: Job)    // about to put the job on the output queue
    | Returned

  datatype Tally = Tally(passed: nat, failed: nat, valgrind: nat, crashed: nat, skipped: nat)

  datatype State = State(
    pending: seq<Job>,     // jobs the dispatcher has still to queue
    jobs: nat,             // jobs it has queued
    pillsLeft: nat,        // pills it has still to queue
    input: seq<Job>,
    workers: seq<Worker>,
    output: seq<Job>,
    received: seq<Job>,    // what the collecting loop has taken from the output queue
    tally: Tally,
    joined: nat,           // threads joined
    threadExit: bool,
    launched: seq<Job>)    // history: jobs whose process has been started

  datatype Step =
    | Dispatch | PutPill | Collect | Join
    | Get(w: nat) | Check(w: nat) | Launch(w: nat) | Finish(w: nat, returncode: int) | Put(w: nat)
    | Interrupt

  function Start(jobs: seq<Job>, processors: nat): State {
    State(jobs, 0, processors, [], seq(processors, _ => Getting), [], [], Tally(0, 0, 0, 0, 0), 0, false, [])
  }

  predicate Enabled(s: State, step: Step) {
    match step
    case Dispatch => s.pending != []
    case PutPill => s.pending == [] && s.pillsLeft > 0
    case Collect => s.pending == [] && s.pillsLeft == 0 && |s.received| < s.jobs && s.output != []
    case Join =>
      && s.pending == [] && s.pillsLeft == 0 && |s.received| == s.jobs
      && s.joined < |s.workers| && s.workers[s.joined].Returned?
    case Get(w) => w < |s.workers| && s.workers[w].Getting? && s.input != []
    case Check(w) => w < |s.workers| && s.workers[w].Checking?
    case Launch(w) => w < |s.workers| && s.workers[w].Deciding?
    case Finish(w, _) => w < |s.workers| && s.workers[w].Running?
    case Put(w) => w < |s.workers| && s.workers[w].Putting?
    case Interrupt => true
  }

  function Count(t: Tally, job: Job): Tally {
    if job.isBreak then t
    else if job.isSkip then t.(skipped := t.skipped + 1)
    else if job.returncode == 0 then t.(passed := t.passed + 1)
    else if job.returncode == 1 then t.(failed := t.failed + 1)
    else if job.returncode == 2 then t.(valgrind := t.valgrind + 1)
    else t.(crashed := t.crashed + 1)
  }

  /** What a worker does with a job once it has read the interrupt flag. */
  function AfterCheck(job: Job, threadExit: bool): Worker {
    if threadExit then Putting(job.(isBreak := true))
    else if job.isSkip then Putting(job)
    else Deciding(job)
  }

  function Apply(s: State, step: Step): State
    requires Enabled(s, step)
  {
    match step
    case Dispatch => s.(pending := s.pending[1..], input := s.input + [s.pending[0]], jobs := s.jobs + 1)
    case PutPill => s.(input := s.input + [PILL], pillsLeft := s.pillsLeft - 1)
    case Collect =>
      s.(received := s.received + [s.output[0]], output := s.output[1..], tally := Count(s.tally, s.output[0]))
    case Join => s.(joined := s.joined + 1)
    case Get(w) =>
      s.(input := s.input[1..],
         workers := s.workers[w := if s.input[0].isBreak then Returned else Checking(s.input[0])])
    case Check(w) => s.(workers := s.workers[w := AfterCheck(s.workers[w].job, s.threadExit)])
    case Launch(w) =>
      s.(workers := s.workers[w := Running(s.workers[w].job)], launched := s.launched + [s.workers[w].job])
    case Finish(w, returncode) =>
      s.(workers := s.workers[w := Putting(s.workers[w].job.(returncode := returncode))])
    case Put(w) => s.(output := s.output + [s.workers[w].job], workers := s.workers[w := Getting])
    case Interrupt => s.(threadExit := true)
  }

  /** run_tests is past its last join. */
  predicate Done(s: State) {
    s.pending == [] && s.pillsLeft == 0 && |s.received| == s.jobs && s.joined == |s.workers|
  }

  predicate Stuck(s: State) {
    && !Enabled(s, Dispatch) && !Enabled(s, PutPill) && !Enabled(s, Collect) && !Enabled(s, Join)
    && forall w :: 0 <= w < |s.workers| ==>
      !Enabled(s, Get(w)) && !Enabled(s, Check(w)) && !Enabled(s, Launch(w)) && !Enabled(s, Finish(w, 0)) &&
      !Enabled(s, Put(w))
  }

  function ExitCode(s: State): int {
    if s.tally.passed + s.tally.skipped == s.jobs then 0 else 1
  }

  // ---- Bags: what the parts of the system hold, as multisets ----

  ghost function Bag<A(!new), B>(xs: seq<A>, f: A -> multiset<B>): multiset<B> {
    if xs == [] then multiset{} else Bag(xs[..|xs| - 1], f) + f(xs[|xs| - 1])
  }

  lemma BagAppend<A(!new), B>(xs: seq<A>, x: A, f: A -> multiset<B>, j: B)
    ensures Bag(xs + [x], f)[j] == Bag(xs, f)[j] + f(x)[j]
    ensures |Bag(xs + [x], f)| == |Bag(xs, f)| + |f(x)|
  {
  }

  lemma {:induction false} BagUpdate<A(!new), B>(xs: seq<A>, i: nat, x: A, f: A -> multiset<B>, j: B)
    requires i < |xs|
    ensures Bag(xs[i := x], f)[j] + f(xs[i])[j] == Bag(xs, f)[j] + f(x)[j]
    ensures |Bag(xs[i := x], f)| + |f(xs[i])| == |Bag(xs, f)| + |f(x)|
  {
    var n := |xs| - 1;
    if i < n {
      BagUpdate(xs[..n], i, x, f, j);
      assert xs[i := x][..n] == xs[..n][i := x];
    } else {
      assert xs[i := x][..n] == xs[..n];
    }
  }

  lemma {:induction false} BagTail<A(!new), B>(xs: seq<A>, f: A -> multiset<B>, j: B)
    requires xs != []
    ensures Bag(xs, f)[j] == f(xs[0])[j] + Bag(xs[1..], f)[j]
    ensures |Bag(xs, f)| == |f(xs[0])| + |Bag(xs[1..], f)|
  {
    var n := |xs| - 1;
    if n > 0 {
      BagTail(xs[..n], f, j);
      assert xs[..n][1..] == xs[1..][..n - 1];
    }
  }

  /** A bag is empty exactly when every element contributes nothing. */
  lemma {:induction false} BagEmpty<A(!new), B>(xs: seq<A>, f: A -> multiset<B>)
    ensures Bag(xs, f) == multiset{} <==> forall i :: 0 <= i < |xs| ==> f(xs[i]) == multiset{}
  {
    if xs != [] {
      var n := |xs| - 1;
      BagEmpty(xs[..n], f);
      assert forall i :: 0 <= i < n ==> xs[..n][i] == xs[i];
    }
  }

  lemma {:induction false} BagSize<A(!new)>(xs: seq<A>, f: A -> multiset<Job>)
    requires forall x :: |f(x)| <= 1
    ensures |Bag(xs, f)| <= |xs|
    ensures |Bag(xs, f)| == |xs| <==> forall i :: 0 <= i < |xs| ==> |f(xs[i])| == 1
  {
    if xs != [] {
      var n := |xs| - 1;
      BagSize(xs[..n], f);
      assert forall i :: 0 <= i < n ==> xs[..n][i] == xs[i];
    }
  }

  ghost function All(job: Job): multiset<Job> { multiset{Original(job)} }
  ghost function Real(job: Job): multiset<Job> { if job.isBreak then multiset{} else multiset{Original(job)} }
  ghost function Pill(job: Job): multiset<Job> { if job.isBreak then multiset{PILL} else multiset{} }
  ghost function Held(w: Worker): multiset<Job> {
    if w.Getting? || w.Returned? then multiset{} else multiset{Original(w.job)}
  }
  ghost function Gone(w: Worker): multiset<Job> { if w.Returned? then multiset{PILL} else multiset{} }

  /** Jobs whose process ran or is running: neither broken off nor skipped. */
  ghost function Ran(job: Job): multiset<Job> {
    if job.isBreak || job.isSkip then multiset{} else multiset{Original(job)}
  }
  ghost function RanBy(w: Worker): multiset<Job> {
    match w
    case Running(job) => multiset{Original(job)}
    case Putting(job) => Ran(job)
    case _ => multiset{}
  }

  // ---- The invariant ----

  /** How many copies of the job j are in the system, in whatever state of processing. */
  ghost function Copies(s: State, j: Job): nat {
    Bag(s.pending, All)[j] + Bag(s.input, Real)[j] + Bag(s.workers, Held)[j] + Bag(s.output, All)[j]
    + Bag(s.received, All)[j]
  }

  /** No job is lost or duplicated. */
  ghost predicate Conserved(jobs: seq<Job>, s: State) {
    && (forall j :: Copies(s, j) == Bag(jobs, All)[j])
    && s.jobs + |s.pending| == |jobs|
  }

  ghost function RanCopies(s: State, j: Job): nat {
    Bag(s.workers, RanBy)[j] + Bag(s.output, Ran)[j] + Bag(s.received, Ran)[j]
  }

  /** Exactly the jobs that were neither broken off nor skipped have been launched, each once. */
  ghost predicate LaunchedOnce(s: State) {
    forall j :: Bag(s.launched, All)[j] == RanCopies(s, j)
  }

  ghost predicate PillsAccounted(processors: nat, s: State) {
    && |s.workers| == processors
    && s.pillsLeft + |Bag(s.input, Pill)| + |Bag(s.workers, Gone)| == processors
  }

  /** Every real job is ahead of every pill. */
  ghost predicate PillsLast(s: State) {
    && (forall i, j :: 0 <= i < j < |s.input| && s.input[i].isBreak ==> s.input[j].isBreak)
    && (s.pending != [] ==> forall i :: 0 <= i < |s.input| ==> !s.input[i].isBreak)
    && ((exists w :: 0 <= w < |s.workers| && s.workers[w].Returned?) ==>
        s.pending == [] && forall i :: 0 <= i < |s.input| ==> s.input[i].isBreak)
  }

  ghost predicate WorkersSane(s: State) {
    && (forall i :: 0 <= i < |s.pending| ==> IsOriginal(s.pending[i]))
    && (forall i :: 0 <= i < |s.input| ==> s.input[i] == PILL || IsOriginal(s.input[i]))
    && (forall w :: 0 <= w < |s.workers| ==>
         (s.workers[w].Checking? ==> IsOriginal(s.workers[w].job)) &&
         (s.workers[w].Deciding? ==> IsOriginal(s.workers[w].job) && !s.workers[w].job.isSkip) &&
         (s.workers[w].Running? ==> IsOriginal(s.workers[w].job) && !s.workers[w].job.isSkip))
    && (s.workers == [] ==> s.output == [] && s.received == [])
  }

  /** Only an interrupt makes workers break jobs off. */
  ghost predicate BrokenOnlyAfterInterrupt(s: State) {
    s.threadExit ||
    (&& (forall i :: 0 <= i < |s.output| ==> !s.output[i].isBreak)
     && (forall i :: 0 <= i < |s.received| ==> !s.received[i].isBreak)
     && (forall w :: 0 <= w < |s.workers| && s.workers[w].Putting? ==> !s.workers[w].job.isBreak))
  }

  ghost function TallyOf(received: seq<Job>): Tally {
    if received == [] then Tally(0, 0, 0, 0, 0)
    else Count(TallyOf(received[..|received| - 1]), received[|received| - 1])
  }

  ghost predicate DispatcherSane(s: State) {
    && s.tally == TallyOf(s.received)
    && |s.received| <= s.jobs && s.joined <= |s.workers|
    && (forall w :: 0 <= w < s.joined ==> s.workers[w].Returned?)
    && (s.pillsLeft < |s.workers| ==> s.pending == [])
    && (s.received != [] || s.joined > 0 ==> s.pending == [] && s.pillsLeft == 0)
    && (s.joined > 0 ==> |s.received| == s.jobs)
  }

  ghost predicate Inv(jobs: seq<Job>, processors: nat, s: State) {
    && Conserved(jobs, s) && LaunchedOnce(s) && PillsAccounted(processors, s) && PillsLast(s)
    && WorkersSane(s) && BrokenOnlyAfterInterrupt(s) && DispatcherSane(s)
  }

  ghost predicate Originals(jobs: seq<Job>) {
    forall i :: 0 <= i < |jobs| ==> IsOriginal(jobs[i])
  }

  lemma NothingInBag<A(!new), B>(f: A -> multiset<B>)
    ensures Bag([], f) == multiset{}
  {
  }

  lemma IdleWorkers(workers: seq<Worker>)
    requires forall w :: 0 <= w < |workers| ==> workers[w] == Getting
    ensures Bag(workers, Held) == Bag(workers, RanBy) == Bag(workers, Gone) == multiset{}
  {
    hide Bag;
    BagEmpty(workers, Held);
    BagEmpty(workers, RanBy);
    BagEmpty(workers, Gone);
  }

  lemma InvStarts(jobs: seq<Job>, processors: nat)
    requires Originals(jobs)
    ensures Inv(jobs, processors, Start(jobs, processors))
  {
    hide Bag;
    hide Count;
    IdleWorkers(Start(jobs, processors).workers);
    NothingInBag(All);
    NothingInBag(Real);
    NothingInBag(Ran);
    NothingInBag(Pill);
  }

  lemma CopiesDispatcher(s: State, step: Step, j: Job)
    requires step.Dispatch? || step.PutPill? || step.Collect?
    requires (s.pending != [] ==> IsOriginal(s.pending[0])) && Enabled(s, step)
    ensures Copies(Apply(s, step), j) == Copies(s, j)
  {
    hide Bag;
    hide Count;
    if step.Dispatch? {
      BagTail(s.pending, All, j);
      BagAppend(s.input, s.pending[0], Real, j);
    } else if step.PutPill? {
      BagAppend(s.input, PILL, Real, j);
    } else {
      BagTail(s.output, All, j);
      BagAppend(s.received, s.output[0], All, j);
    }
  }

  lemma CopiesGet(s: State, step: Step, j: Job)
    requires step.Get? && Enabled(s, step)
    ensures Copies(Apply(s, step), j) == Copies(s, j)
  {
    hide Bag;
    BagTail(s.input, Real, j);
    BagUpdate(s.workers, step.w, Apply(s, step).workers[step.w], Held, j);
  }

  /** Looking at the flag, starting the process and finishing it leave the worker with its job. */
  lemma WorkerKeepsJob(s: State, step: Step)
    requires step.Check? || step.Launch? || step.Finish?
    requires Enabled(s, step)
    ensures var s' := Apply(s, step);
            && Held(s'.workers[step.w]) == Held(s.workers[step.w])
            && s'.workers == s.workers[step.w := s'.workers[step.w]]
            && s'.pending == s.pending && s'.input == s.input && s'.output == s.output && s'.received == s.received
  {
  }

  lemma CopiesWorker(s: State, step: Step, j: Job)
    requires step.Check? || step.Launch? || step.Finish?
    requires Enabled(s, step)
    ensures Copies(Apply(s, step), j) == Copies(s, j)
  {
    WorkerKeepsJob(s, step);
    hide Bag;
    hide Apply;
    hide Held;
    BagUpdate(s.workers, step.w, Apply(s, step).workers[step.w], Held, j);
  }

  lemma CopiesPut(s: State, step: Step, j: Job)
    requires step.Put? && Enabled(s, step)
    ensures Copies(Apply(s, step), j) == Copies(s, j)
  {
    hide Bag;
    BagUpdate(s.workers, step.w, Getting, Held, j);
    BagAppend(s.output, s.workers[step.w].job, All, j);
  }

  lemma CopiesStep(s: State, step: Step, j: Job)
    requires (s.pending != [] ==> IsOriginal(s.pending[0])) && Enabled(s, step)
    ensures Copies(Apply(s, step), j) == Copies(s, j)
  {
    match step
    case Dispatch => CopiesDispatcher(s, step, j);
    case PutPill => CopiesDispatcher(s, step, j);
    case Collect => CopiesDispatcher(s, step, j);
    case Get(_) => CopiesGet(s, step, j);
    case Put(_) => CopiesPut(s, step, j);
    case Check(_) => CopiesWorker(s, step, j);
    case Launch(_) => CopiesWorker(s, step, j);
    case Finish(_, _) => CopiesWorker(s, step, j);
    case _ =>
  }

  ghost predicate SameUnlaunched(s: State, s': State, j: Job) {
    RanCopies(s', j) - Bag(s'.launched, All)[j] == RanCopies(s, j) - Bag(s.launched, All)[j]
  }

  lemma RanCollect(s: State, j: Job)
    requires Enabled(s, Collect)
    ensures SameUnlaunched(s, Apply(s, Collect), j)
  {
    hide Bag;
    hide Count;
    BagTail(s.output, Ran, j);
    BagAppend(s.received, s.output[0], Ran, j);
  }

  lemma RanLaunch(s: State, w: nat, j: Job)
    requires Enabled(s, Launch(w))
    ensures SameUnlaunched(s, Apply(s, Launch(w)), j)
  {
    hide Bag;
    BagUpdate(s.workers, w, Running(s.workers[w].job), RanBy, j);
    BagAppend(s.launched, s.workers[w].job, All, j);
  }

  lemma RanMove(s: State, step: Step, j: Job)
    requires (step.Get? || step.Check? || step.Finish?) && Enabled(s, step)
    requires RanBy(Apply(s, step).workers[step.w]) == RanBy(s.workers[step.w])
    ensures SameUnlaunched(s, Apply(s, step), j)
  {
    hide Bag;
    BagUpdate(s.workers, step.w, Apply(s, step).workers[step.w], RanBy, j);
  }

  lemma RanPut(s: State, w: nat, j: Job)
    requires Enabled(s, Put(w))
    ensures SameUnlaunched(s, Apply(s, Put(w)), j)
  {
    hide Bag;
    BagUpdate(s.workers, w, Getting, RanBy, j);
    BagAppend(s.output, s.workers[w].job, Ran, j);
  }

  lemma RanStep(s: State, step: Step, j: Job)
    requires WorkersSane(s) && Enabled(s, step)
    ensures SameUnlaunched(s, Apply(s, step), j)
  {
    hide SameUnlaunched;
    match step
    case Collect => RanCollect(s, j);
    case Launch(w) => RanLaunch(s, w, j);
    case Get(_) => RanMove(s, step, j);
    case Check(_) => RanMove(s, step, j);
    case Finish(_, _) => RanMove(s, step, j);
    case Put(w) => RanPut(s, w, j);
    case _ => RanUntouched(s, step, j);
  }

  lemma RanUntouched(s: State, step: Step, j: Job)
    requires step.Dispatch? || step.PutPill? || step.Join? || step.Interrupt?
    requires Enabled(s, step)
    ensures SameUnlaunched(s, Apply(s, step), j)
  {
  }

  lemma PillsQueue(processors: nat, s: State, step: Step)
    requires step.Dispatch? || step.PutPill?
    requires PillsAccounted(processors, s) && WorkersSane(s) && Enabled(s, step)
    ensures PillsAccounted(processors, Apply(s, step))
  {
    hide Bag;
    BagAppend(s.input, if step.Dispatch? then s.pending[0] else PILL, Pill, PILL);
  }

  lemma PillsGet(processors: nat, s: State, w: nat)
    requires PillsAccounted(processors, s) && WorkersSane(s) && Enabled(s, Get(w))
    ensures PillsAccounted(processors, Apply(s, Get(w)))
  {
    hide Bag;
    BagTail(s.input, Pill, PILL);
    BagUpdate(s.workers, w, Apply(s, Get(w)).workers[w], Gone, PILL);
  }

  lemma PillsWorker(processors: nat, s: State, step: Step)
    requires step.Check? || step.Launch? || step.Finish? || step.Put?
    requires PillsAccounted(processors, s) && Enabled(s, step)
    ensures PillsAccounted(processors, Apply(s, step))
  {
    hide Bag;
    BagUpdate(s.workers, step.w, Apply(s, step).workers[step.w], Gone, PILL);
  }

  lemma PillsStep(processors: nat, s: State, step: Step)
    requires PillsAccounted(processors, s) && WorkersSane(s) && Enabled(s, step)
    ensures PillsAccounted(processors, Apply(s, step))
  {
    hide Bag;
    hide Count;
    match step
    case Dispatch => PillsQueue(processors, s, step);
    case PutPill => PillsQueue(processors, s, step);
    case Get(w) => PillsGet(processors, s, w);
    case Check(_) => PillsWorker(processors, s, step);
    case Launch(_) => PillsWorker(processors, s, step);
    case Finish(_, _) => PillsWorker(processors, s, step);
    case Put(_) => PillsWorker(processors, s, step);
    case _ =>
  }

  lemma PillsLastStep(s: State, step: Step)
    requires PillsLast(s) && WorkersSane(s) && DispatcherSane(s) && Enabled(s, step)
    ensures PillsLast(Apply(s, step))
  {
    hide Count;
    hide TallyOf;
  }

  lemma WorkersSaneStep(s: State, step: Step)
    requires WorkersSane(s) && Enabled(s, step)
    ensures WorkersSane(Apply(s, step))
  {
  }

  lemma BrokenStep(s: State, step: Step)
    requires BrokenOnlyAfterInterrupt(s) && WorkersSane(s) && Enabled(s, step)
    ensures BrokenOnlyAfterInterrupt(Apply(s, step))
  {
  }

  lemma DispatcherStep(s: State, step: Step)
    requires DispatcherSane(s) && Enabled(s, step)
    ensures DispatcherSane(Apply(s, step))
  {
  }

  /** Every step of every thread, and an interrupt at any moment, keeps the invariant. */
  lemma InvStep(jobs: seq<Job>, processors: nat, s: State, step: Step)
    requires Inv(jobs, processors, s) && Enabled(s, step)
    ensures Inv(jobs, processors, Apply(s, step))
  {
    hide Bag;
    hide Copies;
    hide RanCopies;
    forall j ensures Copies(Apply(s, step), j) == Copies(s, j) { CopiesStep(s, step, j); }
    forall j ensures Bag(Apply(s, step).launched, All)[j] == RanCopies(Apply(s, step), j) { RanStep(s, step, j); }
    PillsStep(processors, s, step);
    PillsLastStep(s, step);
    WorkersSaneStep(s, step);
    BrokenStep(s, step);
    DispatcherStep(s, step);
  }

  // ---- Safety ----

  /** When a worker takes a pill, every job has been taken from the queue already. */
  lemma PillMeansNoJobWaits(jobs: seq<Job>, processors: nat, s: State, w: nat)
    requires Inv(jobs, processors, s) && Enabled(s, Get(w))
    requires Apply(s, Get(w)).workers[w].Returned?
    ensures s.pending == [] && forall i :: 0 <= i < |s.input| ==> s.input[i] == PILL
  {
  }

  /** The job of a worker that has seen the flag unset and not yet started the process. */
  ghost function Decided(w: Worker): multiset<Job> {
    if w.Deciding? then multiset{Original(w.job)} else multiset{}
  }

  /** Once the flag is set, a job is launched only by a worker that had decided to; no further worker decides. */
  lemma CommittedStep(s: State, step: Step, j: Job)
    requires s.threadExit && Enabled(s, step)
    ensures var s' := Apply(s, step);
            && s'.threadExit && s.launched <= s'.launched
            && Bag(s'.launched, All)[j] + Bag(s'.workers, Decided)[j]
               == Bag(s.launched, All)[j] + Bag(s.workers, Decided)[j]
            && |s'.launched| + |Bag(s'.workers, Decided)| == |s.launched| + |Bag(s.workers, Decided)|
  {
    hide Bag;
    hide Count;
    if step.Get? || step.Check? || step.Launch? || step.Finish? || step.Put? {
      var next := Apply(s, step).workers[step.w];
      assert next.Getting? || next.Checking? || next.Running? || next.Putting? || next.Returned?;
      BagUpdate(s.workers, step.w, next, Decided, j);
      BagAppend(s.launched, if step.Launch? then next.job else PILL, All, j);
    }
  }

  ghost function Unbroken(job: Job): multiset<Job> {
    if job.isBreak then multiset{} else multiset{Original(job)}
  }

  /** The job of a worker that is past the look at the flag, unless it is broken off. */
  ghost function PastCheck(w: Worker): multiset<Job> {
    match w
    case Deciding(job) => multiset{Original(job)}
    case Running(job) => multiset{Original(job)}
    case Putting(job) => Unbroken(job)
    case _ => multiset{}
  }

  ghost function UnbrokenCopies(s: State, j: Job): nat {
    Bag(s.workers, PastCheck)[j] + Bag(s.output, Unbroken)[j] + Bag(s.received, Unbroken)[j]
  }

  lemma UnbrokenMove(s: State, step: Step, j: Job)
    requires s.threadExit && WorkersSane(s) && Enabled(s, step)
    requires step.Get? || step.Check? || step.Launch? || step.Finish?
    ensures UnbrokenCopies(Apply(s, step), j) == UnbrokenCopies(s, j)
  {
    MovesOneWorker(s, step);
    KeepsPastCheck(s, step);
    hide *;
    BagUpdate(s.workers, step.w, Apply(s, step).workers[step.w], PastCheck, j);
    SumOfBags(s, Apply(s, step), j);
  }

  lemma SumOfBags(s: State, s': State, j: Job)
    requires s'.output == s.output && s'.received == s.received
    requires Bag(s'.workers, PastCheck)[j] == Bag(s.workers, PastCheck)[j]
    ensures UnbrokenCopies(s', j) == UnbrokenCopies(s, j)
  {
  }

  lemma KeepsPastCheck(s: State, step: Step)
    requires s.threadExit && WorkersSane(s) && Enabled(s, step)
    requires step.Get? || step.Check? || step.Launch? || step.Finish?
    ensures PastCheck(Apply(s, step).workers[step.w]) == PastCheck(s.workers[step.w])
  {
    hide Count;
    if step.Get? {
      assert s.input[0] == PILL || IsOriginal(s.input[0]);
    } else {
      assert s.workers[step.w].Running? ==> IsOriginal(s.workers[step.w].job);
      hide WorkersSane;
    }
  }

  lemma MovesOneWorker(s: State, step: Step)
    requires step.Get? || step.Check? || step.Launch? || step.Finish?
    requires Enabled(s, step)
    ensures var s' := Apply(s, step);
            && step.w < |s.workers| && |s'.workers| == |s.workers|
            && s'.workers == s.workers[step.w := s'.workers[step.w]]
            && s'.output == s.output && s'.received == s.received
  {
  }

  lemma UnbrokenPut(s: State, w: nat, j: Job)
    requires Enabled(s, Put(w))
    ensures UnbrokenCopies(Apply(s, Put(w)), j) == UnbrokenCopies(s, j)
  {
    hide Bag;
    BagUpdate(s.workers, w, Getting, PastCheck, j);
    BagAppend(s.output, s.workers[w].job, Unbroken, j);
  }

  lemma UnbrokenCollect(s: State, j: Job)
    requires Enabled(s, Collect)
    ensures UnbrokenCopies(Apply(s, Collect), j) == UnbrokenCopies(s, j)
  {
    hide Bag;
    hide Count;
    BagTail(s.output, Unbroken, j);
    BagAppend(s.received, s.output[0], Unbroken, j);
  }

  lemma UnbrokenUntouched(s: State, step: Step, j: Job)
    requires (step.Dispatch? || step.PutPill? || step.Join? || step.Interrupt?) && Enabled(s, step)
    ensures UnbrokenCopies(Apply(s, step), j) == UnbrokenCopies(s, j)
  {
  }

  /** Once the flag is set, every job whose turn comes is broken off, skipped or not: no step adds to those that
      are not. */
  lemma UnbrokenStep(s: State, step: Step, j: Job)
    requires s.threadExit && WorkersSane(s) && Enabled(s, step)
    ensures Apply(s, step).threadExit && UnbrokenCopies(Apply(s, step), j) == UnbrokenCopies(s, j)
  {
    hide UnbrokenCopies;
    hide Count;
    match step
    case Collect => UnbrokenCollect(s, j);
    case Get(_) => UnbrokenMove(s, step, j);
    case Check(_) => UnbrokenMove(s, step, j);
    case Launch(_) => UnbrokenMove(s, step, j);
    case Finish(_, _) => UnbrokenMove(s, step, j);
    case Put(w) => UnbrokenPut(s, w, j);
    case _ => UnbrokenUntouched(s, step, j);
  }

  // ---- What an observer of the runner records ----

  /** The jobs taken from the input queue, the jobs put on the output queue, and each process that has ended,
      with the job it ran for and the code it returned. */
  datatype History = History(taken: seq<Job>, put: seq<Job>, ended: seq<(Job, int)>)

  const NOTHING := History([], [], [])

  function Record(s: State, step: Step, h: History): History
    requires Enabled(s, step)
  {
    match step
    case Get(_) => if s.input[0].isBreak then h else h.(taken := h.taken + [s.input[0]])
    case Finish(w, returncode) => h.(ended := h.ended + [(s.workers[w].job, returncode)])
    case Put(w) => h.(put := h.put + [s.workers[w].job])
    case _ => h
  }

  ghost function Reals(queue: seq<Job>): seq<Job> {
    if queue == [] then []
    else Reals(queue[..|queue| - 1]) + if queue[|queue| - 1].isBreak then [] else [queue[|queue| - 1]]
  }

  /** The job with the code it carries, if its process ended. */
  ghost function Coded(job: Job): multiset<(Job, int)> {
    if job.isBreak || job.isSkip then multiset{} else multiset{(Original(job), job.returncode)}
  }

  ghost function CodedBy(w: Worker): multiset<(Job, int)> {
    if w.Putting? then Coded(w.job) else multiset{}
  }

  ghost function CodedCopies(s: State, x: (Job, int)): nat {
    Bag(s.workers, CodedBy)[x] + Bag(s.output, Coded)[x] + Bag(s.received, Coded)[x]
  }

  /** Jobs are taken in the order in which they were given and received in the order in which they were put;
      and the jobs whose processes ended carry the codes that the processes returned. */
  ghost predicate Recorded(jobs: seq<Job>, s: State, h: History) {
    && h.taken + Reals(s.input) + s.pending == jobs
    && s.received + s.output == h.put
    && forall x :: CodedCopies(s, x) == multiset(h.ended)[x]
  }

  lemma RecordedAtStart(jobs: seq<Job>, processors: nat)
    ensures Recorded(jobs, Start(jobs, processors), NOTHING)
  {
    var s := Start(jobs, processors);
    BagEmpty(s.workers, CodedBy);
  }

  lemma {:induction false} RealsTail(queue: seq<Job>)
    requires queue != []
    ensures Reals(queue) == (if queue[0].isBreak then [] else [queue[0]]) + Reals(queue[1..])
  {
    var n := |queue| - 1;
    if n > 0 {
      RealsTail(queue[..n]);
      assert queue[..n][1..] == queue[1..][..n - 1];
    }
  }

  lemma RealsAppend(queue: seq<Job>, job: Job)
    ensures Reals(queue + [job]) == Reals(queue) + if job.isBreak then [] else [job]
  {
    assert (queue + [job])[..|queue|] == queue;
  }

  lemma TakenStep(jobs: seq<Job>, s: State, step: Step, h: History)
    requires Enabled(s, step) && WorkersSane(s) && h.taken + Reals(s.input) + s.pending == jobs
    ensures var s' := Apply(s, step); Record(s, step, h).taken + Reals(s'.input) + s'.pending == jobs
  {
    hide Reals;
    hide Count;
    if step.Dispatch? {
      RealsAppend(s.input, s.pending[0]);
      assert s.pending == [s.pending[0]] + s.pending[1..];
    } else if step.PutPill? {
      RealsAppend(s.input, PILL);
    } else if step.Get? {
      RealsTail(s.input);
    }
  }

  lemma PutStep(s: State, step: Step, h: History)
    requires Enabled(s, step) && s.received + s.output == h.put
    ensures var s' := Apply(s, step); s'.received + s'.output == Record(s, step, h).put
  {
    hide Count;
    if step.Collect? {
      assert s.output == [s.output[0]] + s.output[1..];
    }
  }

  ghost predicate SameUnended(s: State, s': State, x: (Job, int), more: nat) {
    CodedCopies(s', x) == CodedCopies(s, x) + more
  }

  lemma CodedCollect(s: State, x: (Job, int))
    requires Enabled(s, Collect)
    ensures SameUnended(s, Apply(s, Collect), x, 0)
  {
    hide Bag;
    hide Count;
    BagTail(s.output, Coded, x);
    BagAppend(s.received, s.output[0], Coded, x);
  }

  lemma CodedFinish(s: State, w: nat, returncode: int, x: (Job, int))
    requires WorkersSane(s) && Enabled(s, Finish(w, returncode))
    ensures SameUnended(s, Apply(s, Finish(w, returncode)), x, if x == (s.workers[w].job, returncode) then 1 else 0)
  {
    hide Bag;
    BagUpdate(s.workers, w, Apply(s, Finish(w, returncode)).workers[w], CodedBy, x);
  }

  lemma CodedPut(s: State, w: nat, x: (Job, int))
    requires Enabled(s, Put(w))
    ensures SameUnended(s, Apply(s, Put(w)), x, 0)
  {
    hide Bag;
    BagUpdate(s.workers, w, Getting, CodedBy, x);
    BagAppend(s.output, s.workers[w].job, Coded, x);
  }

  lemma CodedMove(s: State, step: Step, x: (Job, int))
    requires (step.Get? || step.Check? || step.Launch?) && Enabled(s, step)
    ensures SameUnended(s, Apply(s, step), x, 0)
  {
    hide Bag;
    var next := Apply(s, step).workers[step.w];
    BagUpdate(s.workers, step.w, next, CodedBy, x);
    assert CodedBy(s.workers[step.w]) == multiset{} && CodedBy(next) == multiset{};
  }

  lemma CodedUntouched(s: State, step: Step, x: (Job, int))
    requires (step.Dispatch? || step.PutPill? || step.Join? || step.Interrupt?) && Enabled(s, step)
    ensures SameUnended(s, Apply(s, step), x, 0)
  {
  }

  lemma CodedStep(s: State, step: Step, h: History, x: (Job, int))
    requires WorkersSane(s) && Enabled(s, step)
    ensures SameUnended(s, Apply(s, step), x, multiset(Record(s, step, h).ended)[x] - multiset(h.ended)[x])
  {
    hide SameUnended;
    match step
    case Collect => CodedCollect(s, x);
    case Finish(w, returncode) => CodedFinish(s, w, returncode, x);
    case Put(w) => CodedPut(s, w, x);
    case Get(_) => CodedMove(s, step, x);
    case Check(_) => CodedMove(s, step, x);
    case Launch(_) => CodedMove(s, step, x);
    case _ => CodedUntouched(s, step, x);
  }

  /** Every step keeps the account, whatever is recorded of it. */
  lemma RecordedStep(jobs: seq<Job>, s: State, step: Step, h: History)
    requires WorkersSane(s) && Recorded(jobs, s, h) && Enabled(s, step)
    ensures Recorded(jobs, Apply(s, step), Record(s, step, h))
  {
    hide Apply;
    hide Record;
    hide WorkersSane;
    hide CodedCopies;
    TakenStep(jobs, s, step, h);
    PutStep(s, step, h);
    forall x
      ensures CodedCopies(Apply(s, step), x) == multiset(Record(s, step, h).ended)[x]
    {
      CodedStep(s, step, h, x);
      assert CodedCopies(s, x) == multiset(h.ended)[x];
    }
  }

  // ---- Deadlock ----

  /** Where nothing can happen, no worker holds a job, and none waits for one that is there. */
  lemma QuietWorkers(s: State)
    requires Stuck(s)
    ensures forall w :: 0 <= w < |s.workers| ==>
      s.workers[w].Returned? || (s.workers[w].Getting? && s.input == [])
    ensures Bag(s.workers, Held) == multiset{} && Bag(s.workers, RanBy) == multiset{}
  {
    hide Bag;
    forall w | 0 <= w < |s.workers|
      ensures s.workers[w].Returned? || (s.workers[w].Getting? && s.input == [])
    {
      assert !Enabled(s, Get(w)) && !Enabled(s, Check(w)) && !Enabled(s, Launch(w)) && !Enabled(s, Finish(w, 0)) &&
             !Enabled(s, Put(w));
    }
    hide Stuck;
    BagEmpty(s.workers, Held);
    BagEmpty(s.workers, RanBy);
  }

  /** In a stuck state with workers, all of them have returned and no job or pill is left in the input queue. */
  lemma AllReturned(jobs: seq<Job>, processors: nat, s: State)
    requires Inv(jobs, processors, s) && Stuck(s) && processors > 0
    ensures forall w :: 0 <= w < |s.workers| ==> s.workers[w].Returned?
    ensures s.input == [] && s.pending == []
  {
    hide Conserved;
    hide LaunchedOnce;
    QuietWorkers(s);
    BagSize(s.workers, Gone);
    BagSize(s.input, Pill);
    assert forall w :: 0 <= w < |s.workers| ==> (|Gone(s.workers[w])| == 1 <==> s.workers[w].Returned?);
    assert s.input == [] ==> |Bag(s.input, Pill)| == 0;
    assert s.workers[0].Returned?;
  }

  lemma {:induction false} AllSize(js: seq<Job>)
    ensures |Bag(js, All)| == |js|
  {
    if js != [] {
      AllSize(js[..|js| - 1]);
    }
  }

  /** Where no worker holds a job and the input queue is empty, every job has reached the output queue. */
  lemma OutputHoldsTheRest(jobs: seq<Job>, processors: nat, s: State)
    requires Inv(jobs, processors, s) && Stuck(s) && s.input == [] && s.pending == []
    ensures Bag(s.output, All) + Bag(s.received, All) == Bag(jobs, All)
    ensures |s.output| + |s.received| == |jobs| == s.jobs
    ensures s.joined <= |s.workers| && |s.received| <= s.jobs
  {
    hide Bag;
    hide LaunchedOnce;
    hide PillsLast;
    hide WorkersSane;
    hide BrokenOnlyAfterInterrupt;
    hide TallyOf;
    QuietWorkers(s);
    BagEmpty(s.input, Real);
    BagEmpty(s.pending, All);
    assert Bag(s.output, All) + Bag(s.received, All) == Bag(jobs, All) by {
      forall j ensures Bag(s.output, All)[j] + Bag(s.received, All)[j] == Bag(jobs, All)[j] {
        assert Copies(s, j) == Bag(jobs, All)[j];
      }
    }
    AllSize(s.output);
    AllSize(s.received);
    AllSize(jobs);
  }

  /** With at least one worker the runner never deadlocks: where nothing but an interrupt can happen, it is done,
      and every dispatched job has been received. */
  lemma StuckMeansDone(jobs: seq<Job>, processors: nat, s: State)
    requires Inv(jobs, processors, s) && Stuck(s) && processors > 0
    ensures Done(s) && s.output == [] && s.input == [] && |s.received| == |jobs|
    ensures forall w :: 0 <= w < |s.workers| ==> s.workers[w].Returned?
  {
    hide Inv;
    hide Bag;
    AllReturned(jobs, processors, s);
    OutputHoldsTheRest(jobs, processors, s);
    assert !Enabled(s, Collect) && !Enabled(s, Join);
  }

  /** Without workers the runner can be done only if there was nothing to do. */
  lemma NoWorkersNoProgress(jobs: seq<Job>, s: State)
    requires Inv(jobs, 0, s)
    ensures Done(s) <==> s.pending == [] && jobs == []
  {
  }

  // ---- Termination ----

  ghost function Sum<A(!new)>(xs: seq<A>, f: A -> nat): nat {
    if xs == [] then 0 else Sum(xs[..|xs| - 1], f) + f(xs[|xs| - 1])
  }

  lemma SumAppend<A(!new)>(xs: seq<A>, x: A, f: A -> nat)
    ensures Sum(xs + [x], f) == Sum(xs, f) + f(x)
  {
  }

  lemma {:induction false} SumUpdate<A(!new)>(xs: seq<A>, i: nat, x: A, f: A -> nat)
    requires i < |xs|
    ensures Sum(xs[i := x], f) + f(xs[i]) == Sum(xs, f) + f(x)
  {
    var n := |xs| - 1;
    if i < n {
      SumUpdate(xs[..n], i, x, f);
      assert xs[i := x][..n] == xs[..n][i := x];
    } else {
      assert xs[i := x][..n] == xs[..n];
    }
  }

  lemma {:induction false} SumTail<A(!new)>(xs: seq<A>, f: A -> nat)
    requires xs != []
    ensures Sum(xs, f) == f(xs[0]) + Sum(xs[1..], f)
  {
    var n := |xs| - 1;
    if n > 0 {
      SumTail(xs[..n], f);
      assert xs[..n][1..] == xs[1..][..n - 1];
    }
  }

  ghost function InputWork(job: Job): nat { if job.isBreak then 1 else 6 }
  ghost function WorkerWork(w: Worker): nat {
    match w
    case Getting => 0
    case Checking(_) => 5
    case Deciding(_) => 4
    case Running(_) => 3
    case Putting(_) => 2
    case Returned => 0
  }

  /** The number of steps that can still be taken, not counting interrupts, is at most this. */
  ghost function Work(s: State): int {
    7 * |s.pending| + 2 * s.pillsLeft + Sum(s.input, InputWork) + Sum(s.workers, WorkerWork) + |s.output|
    + (|s.workers| - s.joined)
  }

  lemma WorkFalls(s: State, step: Step)
    requires WorkersSane(s) && Enabled(s, step) && !step.Interrupt?
    ensures Work(Apply(s, step)) < Work(s)
  {
    hide Sum;
    hide Count;
    var s' := Apply(s, step);
    match step
    case Dispatch => SumAppend(s.input, s.pending[0], InputWork);
    case PutPill => SumAppend(s.input, PILL, InputWork);
    case Get(w) => SumTail(s.input, InputWork); SumUpdate(s.workers, w, s'.workers[w], WorkerWork);
    case Check(w) => SumUpdate(s.workers, w, s'.workers[w], WorkerWork);
    case Launch(w) => SumUpdate(s.workers, w, s'.workers[w], WorkerWork);
    case Finish(w, rc) => SumUpdate(s.workers, w, s'.workers[w], WorkerWork);
    case Put(w) => SumUpdate(s.workers, w, s'.workers[w], WorkerWork);
    case _ =>
  }

  // ---- Whole runs ----

  /** steps leads from the start through states; the interleaving and the interrupts are arbitrary. */
  ghost predicate IsRun(jobs: seq<Job>, processors: nat, states: seq<State>, steps: seq<Step>) {
    && |states| == |steps| + 1 && states[0] == Start(jobs, processors)
    && forall i :: 0 <= i < |steps| ==> Enabled(states[i], steps[i]) && states[i + 1] == Apply(states[i], steps[i])
  }

  function Progress(steps: seq<Step>): nat {
    if steps == [] then 0
    else Progress(steps[..|steps| - 1]) + if steps[|steps| - 1].Interrupt? then 0 else 1
  }

  lemma {:induction false} RunKeepsInv(jobs: seq<Job>, processors: nat, states: seq<State>, steps: seq<Step>)
    requires Originals(jobs) && IsRun(jobs, processors, states, steps)
    ensures Inv(jobs, processors, states[|steps|])
    ensures Progress(steps) + Work(states[|steps|]) <= 7 * |jobs| + 3 * processors
    decreases |steps|
  {
    hide Inv;
    hide Work;
    var n := |steps| - 1;
    if n >= 0 {
      RunKeepsInv(jobs, processors, states[..n + 1], steps[..n]);
      InvStep(jobs, processors, states[n], steps[n]);
      WorkersStaySane(jobs, processors, states[n]);
      if steps[n].Interrupt? {
        InterruptIsNoWork(states[n]);
      } else {
        WorkFalls(states[n], steps[n]);
      }
    } else {
      InvStarts(jobs, processors);
      StartWork(jobs, processors);
    }
  }

  /** From the moment the flag is set, at most the jobs of the workers that had then decided are still launched,
      each at most once. */
  lemma {:induction false} LaunchesAfterInterrupt(jobs: seq<Job>, processors: nat, states: seq<State>, steps: seq<Step>,
                                                  i: nat, j: nat, job: Job)
    requires IsRun(jobs, processors, states, steps) && i <= j <= |steps| && states[i].threadExit
    ensures states[j].threadExit && states[i].launched <= states[j].launched
    ensures Bag(states[j].launched, All)[job] + Bag(states[j].workers, Decided)[job]
            == Bag(states[i].launched, All)[job] + Bag(states[i].workers, Decided)[job]
    ensures |states[j].launched| + |Bag(states[j].workers, Decided)|
            == |states[i].launched| + |Bag(states[i].workers, Decided)|
    decreases j - i
  {
    hide Bag;
    hide Enabled;
    hide Apply;
    if i < j {
      LaunchesAfterInterrupt(jobs, processors, states, steps, i, j - 1, job);
      CommittedStep(states[j - 1], steps[j - 1], job);
    }
  }

  /** From the moment the flag is set, the jobs that are ever put unbroken are those that were past the look at
      it. */
  lemma {:induction false} UnbrokenAfterInterrupt(jobs: seq<Job>, processors: nat, states: seq<State>,
                                                  steps: seq<Step>, i: nat, j: nat, job: Job)
    requires Originals(jobs) && IsRun(jobs, processors, states, steps) && i <= j <= |steps| && states[i].threadExit
    ensures states[j].threadExit && UnbrokenCopies(states[j], job) == UnbrokenCopies(states[i], job)
    decreases j - i
  {
    hide UnbrokenCopies;
    hide Enabled;
    hide Apply;
    hide Inv;
    if i < j {
      UnbrokenAfterInterrupt(jobs, processors, states, steps, i, j - 1, job);
      assert IsRun(jobs, processors, states[..j], steps[..j - 1]);
      RunKeepsInv(jobs, processors, states[..j], steps[..j - 1]);
      WorkersStaySane(jobs, processors, states[j - 1]);
      UnbrokenStep(states[j - 1], steps[j - 1], job);
    }
  }

  /** Such a launch does happen: the worker looks, the interrupt comes, the process starts. */
  lemma LateLaunch(job: Job)
    requires IsOriginal(job) && !job.isSkip
    ensures var s0 := Start([job], 1);
            && Enabled(s0, Dispatch) && Enabled(Apply(s0, Dispatch), Get(0))
            && var s2 := Apply(Apply(s0, Dispatch), Get(0));
            && Enabled(s2, Check(0))
            && var s4 := Apply(Apply(s2, Check(0)), Interrupt);
            && s4.threadExit && s4.launched == []
            && Enabled(s4, Launch(0)) && Apply(s4, Launch(0)).launched == [job]
  {
    assert ([job])[0] == job;
  }

  lemma WorkersStaySane(jobs: seq<Job>, processors: nat, s: State)
    requires Inv(jobs, processors, s)
    ensures WorkersSane(s)
  {
  }

  lemma InterruptIsNoWork(s: State)
    ensures Work(Apply(s, Interrupt)) == Work(s)
  {
  }

  lemma {:induction false} IdleWork(n: nat)
    ensures Sum(seq(n, _ => Getting), WorkerWork) == 0
  {
    if n > 0 {
      IdleWork(n - 1);
      assert seq(n, _ => Getting)[..n - 1] == seq(n - 1, _ => Getting);
    }
  }

  lemma StartWork(jobs: seq<Job>, processors: nat)
    ensures Work(Start(jobs, processors)) == 7 * |jobs| + 3 * processors
  {
    IdleWork(processors);
  }

  // ---- Results ----

  predicate Good(job: Job) {
    !job.isBreak && (job.isSkip || job.returncode == 0)
  }

  function Total(t: Tally): nat {
    t.passed + t.failed + t.valgrind + t.crashed + t.skipped
  }

  lemma TotalZero()
    ensures Total(Tally(0, 0, 0, 0, 0)) == 0
  {
  }

  lemma CountTotal(t: Tally, job: Job)
    ensures Total(Count(t, job)) == Total(t) + if job.isBreak then 0 else 1
  {
  }

  /** Every received job is counted exactly once, unless it was broken off. */
  lemma {:induction false} TallyTotal(received: seq<Job>)
    ensures Total(TallyOf(received)) + |Bag(received, Pill)| == |received|
  {
    hide Total;
    hide Count;
    if received != [] {
      var n := |received| - 1;
      TallyTotal(received[..n]);
      CountTotal(TallyOf(received[..n]), received[n]);
      assert Bag(received, Pill) == Bag(received[..n], Pill) + Pill(received[n]);
    } else {
      TotalZero();
    }
  }

  ghost function Where(received: seq<Job>, kind: Job -> bool): set<nat> {
    set i | 0 <= i < |received| && kind(received[i])
  }

  lemma WhereStep(received: seq<Job>, kind: Job -> bool)
    requires received != []
    ensures var n := |received| - 1;
            |Where(received, kind)| == |Where(received[..n], kind)| + if kind(received[n]) then 1 else 0
  {
    var n := |received| - 1;
    assert Where(received, kind) == Where(received[..n], kind) + if kind(received[n]) then {n} else {};
  }

  /** Each counter is the number of received jobs of its kind. */
  lemma {:induction false} TallyCounts(received: seq<Job>)
    ensures var t := TallyOf(received);
            && t.passed == |Where(received, (j: Job) => !j.isBreak && !j.isSkip && j.returncode == 0)|
            && t.failed == |Where(received, (j: Job) => !j.isBreak && !j.isSkip && j.returncode == 1)|
            && t.valgrind == |Where(received, (j: Job) => !j.isBreak && !j.isSkip && j.returncode == 2)|
            && t.crashed == |Where(received, (j: Job) => !j.isBreak && !j.isSkip && j.returncode !in {0, 1, 2})|
            && t.skipped == |Where(received, (j: Job) => !j.isBreak && j.isSkip)|
  {
    var passed := (j: Job) => !j.isBreak && !j.isSkip && j.returncode == 0;
    var failed := (j: Job) => !j.isBreak && !j.isSkip && j.returncode == 1;
    var valgrind := (j: Job) => !j.isBreak && !j.isSkip && j.returncode == 2;
    var crashed := (j: Job) => !j.isBreak && !j.isSkip && j.returncode !in {0, 1, 2};
    var skipped := (j: Job) => !j.isBreak && j.isSkip;
    if received != [] {
      TallyCounts(received[..|received| - 1]);
      WhereStep(received, passed);
      WhereStep(received, failed);
      WhereStep(received, valgrind);
      WhereStep(received, crashed);
      WhereStep(received, skipped);
    }
    hide Where;
  }

  /** The successes make up the whole just when every received job was good. */
  lemma {:induction false} TallyGood(received: seq<Job>)
    ensures var t := TallyOf(received);
            && t.passed + t.skipped <= |received|
            && (t.passed + t.skipped == |received| <==> forall i :: 0 <= i < |received| ==> Good(received[i]))
  {
    if received != [] {
      var rest := received[..|received| - 1];
      TallyGood(rest);
      assert forall i :: 0 <= i < |rest| ==> rest[i] == received[i];
    }
  }

  lemma {:induction false} UnbrokenRan(js: seq<Job>, j: Job)
    requires forall i :: 0 <= i < |js| ==> !js[i].isBreak
    ensures Bag(js, Ran)[j] == if j.isSkip then 0 else Bag(js, All)[j]
  {
    if js != [] {
      UnbrokenRan(js[..|js| - 1], j);
    }
  }

  lemma DoneMeansStuck(jobs: seq<Job>, processors: nat, s: State)
    requires Inv(jobs, processors, s) && Done(s)
    ensures Stuck(s)
  {
  }

  lemma AllReceived(jobs: seq<Job>, processors: nat, s: State)
    requires Inv(jobs, processors, s) && Done(s) && processors > 0
    ensures Bag(s.received, All) == Bag(jobs, All)
    ensures Stuck(s) && s.output == []
  {
    DoneMeansStuck(jobs, processors, s);
    hide *;
    StuckMeansDone(jobs, processors, s);
    PendingIsEmpty(s);
    OutputHoldsTheRest(jobs, processors, s);
    BagOfNothing(s.output);
  }

  lemma PendingIsEmpty(s: State)
    requires Done(s)
    ensures s.pending == []
  {
  }

  lemma BagOfNothing(js: seq<Job>)
    ensures js == [] ==> Bag(js, All) == multiset{} && Bag(js, Ran) == multiset{}
  {
  }

  /** When no worker holds a job and the output queue is empty, exactly the received jobs have been launched. */
  lemma LaunchedHaveRun(jobs: seq<Job>, processors: nat, s: State)
    requires Inv(jobs, processors, s) && Stuck(s) && s.output == []
    ensures Bag(s.launched, All) == Bag(s.received, Ran)
  {
    assert LaunchedOnce(s);
    hide Inv;
    hide Bag;
    QuietWorkers(s);
    BagOfNothing(s.output);
    hide Stuck;
    forall j ensures Bag(s.launched, All)[j] == Bag(s.received, Ran)[j] {
      assert Bag(s.launched, All)[j] == RanCopies(s, j);
    }
  }

  /** The counters are those of the received jobs. */
  lemma TallyIsReceived(jobs: seq<Job>, processors: nat, s: State)
    requires Inv(jobs, processors, s) && Done(s)
    ensures s.tally == TallyOf(s.received) && |s.received| == s.jobs == |jobs|
  {
  }

  lemma ExitCodeIsGood(jobs: seq<Job>, processors: nat, s: State)
    requires Inv(jobs, processors, s) && Done(s)
    ensures Total(s.tally) + |Bag(s.received, Pill)| == |jobs|
    ensures ExitCode(s) == 0 <==> forall i :: 0 <= i < |s.received| ==> Good(s.received[i])
  {
    hide Inv;
    hide Done;
    hide Bag;
    hide Good;
    hide Total;
    hide TallyOf;
    TallyIsReceived(jobs, processors, s);
    TallyTotal(s.received);
    TallyGood(s.received);
  }

  /** What run_tests has when it returns: each dispatched job was received exactly once, exactly the jobs neither
      broken off nor skipped were launched, each once, and the exit code is 0 just when every job was good. */
  lemma Results(jobs: seq<Job>, processors: nat, s: State)
    requires Inv(jobs, processors, s) && Done(s) && processors > 0
    ensures Bag(s.received, All) == Bag(jobs, All)
    ensures Bag(s.launched, All) == Bag(s.received, Ran)
    ensures Total(s.tally) + |Bag(s.received, Pill)| == |jobs|
    ensures ExitCode(s) == 0 <==> forall i :: 0 <= i < |s.received| ==> Good(s.received[i])
  {
    hide *;
    AllReceived(jobs, processors, s);
    LaunchedHaveRun(jobs, processors, s);
    ExitCodeIsGood(jobs, processors, s);
  }

  /** Without an interrupt nothing is broken off and exactly the jobs not marked as skipped are launched. */
  lemma ResultsWithoutInterrupt(jobs: seq<Job>, processors: nat, s: State)
    requires Inv(jobs, processors, s) && Done(s) && processors > 0 && !s.threadExit && Originals(jobs)
    ensures forall i :: 0 <= i < |s.received| ==> !s.received[i].isBreak
    ensures forall j :: Bag(s.launched, All)[j] == if j.isSkip then 0 else Bag(jobs, All)[j]
  {
    hide Bag;
    Results(jobs, processors, s);
    forall j ensures Bag(s.launched, All)[j] == if j.isSkip then 0 else Bag(jobs, All)[j] {
      UnbrokenRan(s.received, j);
    }
  }

  /** At the end the codes recorded of the processes are those of the jobs received. */
  lemma CodesAreReceived(jobs: seq<Job>, processors: nat, s: State, h: History)
    requires Inv(jobs, processors, s) && Done(s) && processors > 0 && Recorded(jobs, s, h)
    ensures Bag(s.received, Coded) == multiset(h.ended)
    ensures h.taken == jobs && h.put == s.received
  {
    StuckWhenDone(jobs, processors, s);
    forall x ensures Bag(s.received, Coded)[x] == multiset(h.ended)[x] {
      assert CodedCopies(s, x) == multiset(h.ended)[x];
    }
  }

  lemma StuckWhenDone(jobs: seq<Job>, processors: nat, s: State)
    requires Inv(jobs, processors, s) && Done(s) && processors > 0
    ensures s.pending == [] && s.input == [] && s.output == []
    ensures Bag(s.workers, CodedBy) == multiset{} == Bag(s.output, Coded)
  {
    DoneMeansStuck(jobs, processors, s);
    StuckMeansDone(jobs, processors, s);
    hide Inv;
    hide Bag;
    PendingIsEmpty(s);
    BagEmpty(s.workers, CodedBy);
    BagEmpty(s.output, Coded);
  }

  lemma {:induction false} InCodes(received: seq<Job>, x: (Job, int))
    ensures x in Bag(received, Coded) <==> exists i :: 0 <= i < |received| && x in Coded(received[i])
  {
    if received != [] {
      var n := |received| - 1;
      InCodes(received[..n], x);
      assert received == received[..n] + [received[n]];
      assert Bag(received, Coded)[x] == Bag(received[..n], Coded)[x] + Coded(received[n])[x];
    }
  }

  /** All received jobs are good exactly when none was broken off and every process returned 0. */
  lemma GoodByCodes(received: seq<Job>, ended: seq<(Job, int)>)
    requires Bag(received, Coded) == multiset(ended)
    ensures (forall i :: 0 <= i < |received| ==> Good(received[i])) <==>
            (forall i :: 0 <= i < |received| ==> !received[i].isBreak) &&
            (forall k :: 0 <= k < |ended| ==> ended[k].1 == 0)
  {
    hide Bag;
    forall x ensures x in ended <==> exists i :: 0 <= i < |received| && x in Coded(received[i]) {
      InCodes(received, x);
      assert x in ended <==> x in multiset(ended);
    }
    forall k | 0 <= k < |ended|
      ensures exists i :: 0 <= i < |received| && ended[k] in Coded(received[i])
    {
      assert ended[k] in ended;
    }
    forall i | 0 <= i < |received| && !received[i].isBreak && !received[i].isSkip
      ensures (Original(received[i]), received[i].returncode) in ended
    {
      assert (Original(received[i]), received[i].returncode) in Coded(received[i]);
    }
  }

  lemma Outcome(jobs: seq<Job>, processors: nat, s: State, h: History)
    requires Inv(jobs, processors, s) && Done(s) && processors > 0 && Recorded(jobs, s, h)
    ensures Bag(s.received, All) == Bag(jobs, All) && s.tally == TallyOf(s.received)
    ensures h.taken == jobs && h.put == s.received && Bag(s.received, Coded) == multiset(h.ended)
    ensures ExitCode(s) == 0 <==> forall i :: 0 <= i < |s.received| ==> Good(s.received[i])
    ensures ExitCode(s) == 0 <==>
      (forall i :: 0 <= i < |s.received| ==> !s.received[i].isBreak) &&
      (forall k :: 0 <= k < |h.ended| ==> h.ended[k].1 == 0)
  {
    hide *;
    Results(jobs, processors, s);
    CodesAreReceived(jobs, processors, s, h);
    GoodByCodes(s.received, h.ended);
    TallyIsReceived(jobs, processors, s);
  }

  // ---- The mutable runner ----

  /** The queues, threads and counters of run_tests; each method is one atomic action of one thread. */
  class Runner {
    var pending: seq<Job>
    var jobs: nat
    var pillsLeft: nat
    var inputQueue: seq<Job>
    var workers: seq<Worker>
    var outputQueue: seq<Job>
    var received: seq<Job>
    var tally: Tally
    var joined: nat
    var threadExit: bool
    var launched: seq<Job>

    function Abstract(): State
      reads this
    {
      State(pending, jobs, pillsLeft, inputQueue, workers, outputQueue, received, tally, joined, threadExit, launched)
    }

    constructor (jobs: seq<Job>, processors: nat)
      ensures Abstract() == Start(jobs, processors)
    {
      pending, this.jobs, pillsLeft := jobs, 0, processors;
      inputQueue, outputQueue, received := [], [], [];
      workers := seq(processors, _ => Getting);
      tally, joined, threadExit, launched := Tally(0, 0, 0, 0, 0), 0, false, [];
    }

    method DispatchJob()
      requires Enabled(Abstract(), Dispatch)
      modifies this
      ensures Abstract() == Apply(old(Abstract()), Dispatch)
    {
      inputQueue := inputQueue + [pending[0]];
      pending := pending[1..];
      jobs := jobs + 1;
    }

    method DispatchPill()
      requires Enabled(Abstract(), PutPill)
      modifies this
      ensures Abstract() == Apply(old(Abstract()), PutPill)
    {
      inputQueue := inputQueue + [PILL];
      pillsLeft := pillsLeft - 1;
    }

    method CollectJob()
      requires Enabled(Abstract(), Collect)
      modifies this
      ensures Abstract() == Apply(old(Abstract()), Collect)
    {
      var job := outputQueue[0];
      outputQueue := outputQueue[1..];
      received := received + [job];
      if job.isBreak {
        return;
      }
      if job.isSkip {
        tally := tally.(skipped := tally.skipped + 1);
      } else if job.returncode == 0 {
        tally := tally.(passed := tally.passed + 1);
      } else if job.returncode == 1 {
        tally := tally.(failed := tally.failed + 1);
      } else if job.returncode == 2 {
        tally := tally.(valgrind := tally.valgrind + 1);
      } else {
        tally := tally.(crashed := tally.crashed + 1);
      }
    }

    method JoinThread()
      requires Enabled(Abstract(), Join)
      modifies this
      ensures Abstract() == Apply(old(Abstract()), Join)
    {
      joined := joined + 1;
    }

    method GetJob(w: nat)
      requires Enabled(Abstract(), Get(w))
      modifies this
      ensures Abstract() == Apply(old(Abstract()), Get(w))
    {
      var job := inputQueue[0];
      inputQueue := inputQueue[1..];
      workers := workers[w := if job.isBreak then Returned else Checking(job)];
    }

    method CheckExit(w: nat)
      requires Enabled(Abstract(), Check(w))
      modifies this
      ensures Abstract() == Apply(old(Abstract()), Check(w))
    {
      var job := workers[w].job;
      if threadExit {
        workers := workers[w := Putting(job.(isBreak := true))];
      } else if job.isSkip {
        workers := workers[w := Putting(job)];
      } else {
        workers := workers[w := Deciding(job)];
      }
    }

    method LaunchJob(w: nat)
      requires Enabled(Abstract(), Launch(w))
      modifies this
      ensures Abstract() == Apply(old(Abstract()), Launch(w))
    {
      var job := workers[w].job;
      workers := workers[w := Running(job)];
      launched := launched + [job];
    }

    method FinishJob(w: nat, returncode: int)
      requires Enabled(Abstract(), Finish(w, returncode))
      modifies this
      ensures Abstract() == Apply(old(Abstract()), Finish(w, returncode))
    {
      workers := workers[w := Putting(workers[w].job.(returncode := returncode))];
    }

    method PutJob(w: nat)
      requires Enabled(Abstract(), Put(w))
      modifies this
      ensures Abstract() == Apply(old(Abstract()), Put(w))
    {
      outputQueue := outputQueue + [workers[w].job];
      workers := workers[w := Getting];
    }

    method SigintHook()
      modifies this
      ensures Abstract() == Apply(old(Abstract()), Interrupt)
    {
      threadExit := true;
    }
  }

  /** Any thread takes any step it can take, or the interrupt comes. */
  method Schedule(run: Runner) returns (step: Step)
    requires !Stuck(run.Abstract())
    modifies run
    ensures Enabled(old(run.Abstract()), step) && run.Abstract() == Apply(old(run.Abstract()), step)
    ensures step.Interrupt? ==> !old(run.threadExit)
  {
    hide Count;
    if {
      case run.pending != [] =>
        step := Dispatch;
        run.DispatchJob();
      case run.pending == [] && run.pillsLeft > 0 =>
        step := PutPill;
        run.DispatchPill();
      case run.pending == [] && run.pillsLeft == 0 && |run.received| < run.jobs && run.outputQueue != [] =>
        step := Collect;
        run.CollectJob();
      case run.pending == [] && run.pillsLeft == 0 && |run.received| == run.jobs && run.joined < |run.workers|
           && run.workers[run.joined].Returned? =>
        step := Join;
        run.JoinThread();
      case exists w :: 0 <= w < |run.workers| && run.workers[w].Getting? && run.inputQueue != [] =>
        var w :| 0 <= w < |run.workers| && run.workers[w].Getting?;
        step := Get(w);
        run.GetJob(w);
      case exists w :: 0 <= w < |run.workers| && run.workers[w].Checking? =>
        var w :| 0 <= w < |run.workers| && run.workers[w].Checking?;
        step := Check(w);
        run.CheckExit(w);
      case exists w :: 0 <= w < |run.workers| && run.workers[w].Deciding? =>
        var w :| 0 <= w < |run.workers| && run.workers[w].Deciding?;
        step := Launch(w);
        run.LaunchJob(w);
      case exists w :: 0 <= w < |run.workers| && run.workers[w].Running? =>
        var w :| 0 <= w < |run.workers| && run.workers[w].Running?;
        var returncode: int := *;
        step := Finish(w, returncode);
        run.FinishJob(w, returncode);
      case exists w :: 0 <= w < |run.workers| && run.workers[w].Putting? =>
        var w :| 0 <= w < |run.workers| && run.workers[w].Putting?;
        step := Put(w);
        run.PutJob(w);
      case !run.threadExit =>
        step := Interrupt;
        run.SigintHook();
    }
  }

  /** Let the threads run in any order, with an interrupt at any time or none: the runner always finishes,
      has received every job given to it once, with the codes that the processes returned, and fails unless
      all jobs were good. */
  method RunTests(tests: seq<Job>, processors: nat)
    returns (received: seq<Job>, tally: Tally, code: int, history: History)
    requires Originals(tests) && processors > 0
    ensures Bag(received, All) == Bag(tests, All)
    ensures history.taken == tests && history.put == received
    ensures Bag(received, Coded) == multiset(history.ended)
    ensures tally == TallyOf(received)
    ensures code == 0 || code == 1
    ensures code == 0 <==> forall i :: 0 <= i < |received| ==> Good(received[i])
    ensures code == 0 <==>
      (forall i :: 0 <= i < |received| ==> !received[i].isBreak) &&
      (forall k :: 0 <= k < |history.ended| ==> history.ended[k].1 == 0)
  {
    hide Recorded;
    hide Record;
    hide Coded;
    hide Inv;
    hide Work;
    hide Bag;
    hide Good;
    hide Originals;
    hide WorkersSane;
    hide Enabled;
    hide Apply;
    hide TallyOf;
    var run := new Runner(tests, processors);
    InvStarts(tests, processors);
    RunnerWork(tests, processors, run.Abstract());
    RecordedAtStart(tests, processors);
    history := NOTHING;
    while !Done(run.Abstract())
      invariant Inv(tests, processors, run.Abstract()) && Work(run.Abstract()) >= 0
      invariant fresh(run) && Recorded(tests, run.Abstract(), history)
      modifies run
      decreases Work(run.Abstract()), !run.threadExit
    {
      var s := run.Abstract();
      SomethingCanHappen(tests, processors, s);
      var step := Schedule(run);
      StepAdvances(tests, processors, s, step);
      StepIsRecorded(tests, processors, s, step, history);
      history := Record(s, step, history);
    }
    Outcome(tests, processors, run.Abstract(), history);
    received, tally := run.received, run.tally;
    code := if run.tally.passed + run.tally.skipped == run.jobs then 0 else 1;
  }

  lemma StepIsRecorded(jobs: seq<Job>, processors: nat, s: State, step: Step, h: History)
    requires Inv(jobs, processors, s) && Enabled(s, step) && Recorded(jobs, s, h)
    ensures Recorded(jobs, Apply(s, step), Record(s, step, h))
  {
    WorkersStaySane(jobs, processors, s);
    hide Inv;
    hide WorkersSane;
    hide Recorded;
    RecordedStep(jobs, s, step, h);
  }

  lemma StepAdvances(jobs: seq<Job>, processors: nat, s: State, step: Step)
    requires Inv(jobs, processors, s) && Enabled(s, step)
    ensures var s' := Apply(s, step);
            && Inv(jobs, processors, s') && Work(s') >= 0
            && if step.Interrupt? then Work(s') == Work(s) && s'.threadExit else Work(s') < Work(s)
  {
    InvStep(jobs, processors, s, step);
    RunnerWork(jobs, processors, Apply(s, step));
    if !step.Interrupt? {
      WorkFalls(s, step);
    }
  }

  lemma RunnerWork(jobs: seq<Job>, processors: nat, s: State)
    requires Inv(jobs, processors, s)
    ensures Work(s) >= 0
  {
  }

  lemma SomethingCanHappen(jobs: seq<Job>, processors: nat, s: State)
    requires Inv(jobs, processors, s) && processors > 0 && !Done(s)
    ensures !Stuck(s)
  {
    if Stuck(s) {
      StuckMeansDone(jobs, processors, s);
    }
  }
}
