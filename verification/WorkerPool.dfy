/** The pool of test workers (test.py, `worker_thread.run` and the dispatch, collect and
    join loops of `run_tests`).

    The main thread puts jobs and then one sentinel per worker on a first-in first-out input
    queue, collects one result per job from an output queue and joins the workers.  A signal
    handler may set the interrupt flag at any moment.  The threads interleave step by step.
 */
module WorkerPool {
  import opened Totals

  // ----- Jobs, workers and the whole state -----

  /** What running a job produces: a return code and, for a suite, the result in its XML file. */
  datatype Outcome = Outcome(returncode: int, xmlResult: string)

  /** A dispatched job is not a break job; a worker that notices an interrupt makes it one. */
  datatype Job = Job(id: nat, isExample: bool, isSkip: bool, isBreak: bool, outcome: Outcome) {
    /** The job as it was dispatched: workers change nothing but the break flag and the outcome. */
    function Origin(): Job {
      this.(isBreak := false, outcome := NoOutcome)
    }
  }

  const NoOutcome := Outcome(0, "")
  const Sentinel := Job(0, false, false, true, NoOutcome)

  datatype Worker = Waiting | Took(job: Job) | Running(job: Job) | Finished(job: Job) | Exited

  datatype Main = Dispatching(todo: seq<Job>) | Dismissing(left: nat) | Collecting(left: nat) | Joining(next: nat) | Done

  datatype State = State(
    input: seq<Job>,
    output: seq<Job>,
    workers: seq<Worker>,
    main: Main,
    jobs: nat,
    collected: seq<Job>,
    interrupted: bool)

  predicate Dispatchable(plan: seq<Job>) {
    forall i | 0 <= i < |plan| :: plan[i] == plan[i].Origin()
  }

  function Init(plan: seq<Job>, processors: nat): State {
    State([], [], seq(processors, _ => Waiting), Dispatching(plan), 0, [], false)
  }

  // ----- The steps of the threads -----

  datatype Action = MainStep | WorkerStep(worker: nat, outcome: Outcome) | Interrupt

  predicate MainEnabled(s: State) {
    match s.main
    case Dispatching(_) => true
    case Dismissing(_) => true
    case Collecting(left) => left == 0 || s.output != []
    case Joining(next) => next < |s.workers| ==> s.workers[next].Exited?
    case Done => false
  }

  function MainNext(s: State): State
    requires MainEnabled(s)
  {
    match s.main
    case Dispatching(todo) =>
      if todo == [] then s.(main := Dismissing(|s.workers|)) else
        s.(input := s.input + [todo[0]], jobs := s.jobs + 1, main := Dispatching(todo[1..]))
    case Dismissing(left) =>
      if left == 0 then s.(main := Collecting(s.jobs)) else
        s.(input := s.input + [Sentinel], main := Dismissing(left - 1))
    case Collecting(left) =>
      if left == 0 then s.(main := Joining(0)) else
        s.(collected := s.collected + [s.output[0]], output := s.output[1..], main := Collecting(left - 1))
    case Joining(next) =>
      if next < |s.workers| then s.(main := Joining(next + 1)) else s.(main := Done)
  }

  predicate WorkerEnabled(s: State, w: nat) {
    && w < |s.workers|
    && !s.workers[w].Exited?
    && (s.workers[w].Waiting? ==> s.input != [])
  }

  function WorkerNext(s: State, w: nat, outcome: Outcome): State
    requires WorkerEnabled(s, w)
  {
    match s.workers[w]
    case Waiting => s.(input := s.input[1..], workers := s.workers[w := Took(s.input[0])])
    case Took(job) => s.(workers := s.workers[w := Decide(job, s.interrupted)])
    case Running(job) => s.(workers := s.workers[w := Finished(job.(outcome := outcome))])
    case Finished(job) => s.(output := s.output + [job], workers := s.workers[w := Waiting])
  }

  /** What a worker does with a job it has taken: leave, hand it back unrun, or run it. */
  function Decide(job: Job, interrupted: bool): Worker {
    if job.isBreak then Exited
    else if interrupted then Finished(job.(isBreak := true))
    else if job.isSkip then Finished(job)
    else Running(job)
  }

  predicate Enabled(s: State, a: Action) {
    match a
    case MainStep => MainEnabled(s)
    case WorkerStep(w, _) => WorkerEnabled(s, w)
    case Interrupt => !s.interrupted
  }

  function Next(s: State, a: Action): State
    requires Enabled(s, a)
  {
    match a
    case MainStep => MainNext(s)
    case WorkerStep(w, outcome) => WorkerNext(s, w, outcome)
    case Interrupt => s.(interrupted := true)
  }

  /** A schedule is any interleaving of enabled steps. */
  ghost predicate Possible(s: State, schedule: seq<Action>)
    decreases |schedule|
  {
    schedule == [] || (Enabled(s, schedule[0]) && Possible(Next(s, schedule[0]), schedule[1..]))
  }

  ghost function After(s: State, schedule: seq<Action>): State
    requires Possible(s, schedule)
    decreases |schedule|
  {
    if schedule == [] then s else After(Next(s, schedule[0]), schedule[1..])
  }

  // ----- Where the jobs are -----

  // A weight on jobs, as a weight on results, on queued jobs (a sentinel is not a job) and on workers.

  ghost function OfResult(weight: Job -> int): Job -> int {
    (job: Job) => weight(job.Origin())
  }

  ghost function OfQueued(weight: Job -> int): Job -> int {
    (job: Job) => if job.isBreak then 0 else weight(job.Origin())
  }

  ghost function OfWorker(weight: Job -> int): Worker -> int {
    (w: Worker) =>
      match w
      case Took(job) => OfQueued(weight)(job)
      case Running(job) => weight(job.Origin())
      case Finished(job) => weight(job.Origin())
      case _ => 0
  }

  ghost function Todo(m: Main): seq<Job> {
    if m.Dispatching? then m.todo else []
  }

  /** The weight of all jobs, wherever they are by now. */
  ghost function Everywhere(s: State, weight: Job -> int): int {
    Total(Todo(s.main), OfResult(weight)) + Total(s.input, OfQueued(weight)) + Total(s.workers, OfWorker(weight))
    + Total(s.output, OfResult(weight)) + Total(s.collected, OfResult(weight))
  }

  ghost function One(): Job -> int {
    (job: Job) => 1
  }

  ghost function Is(it: Job): Job -> int {
    (job: Job) => if job == it then 1 else 0
  }

  /** How often a job was dispatched, or came back, up to what workers may change. */
  ghost function Times(jobs: seq<Job>, it: Job): int {
    Total(jobs, OfResult(Is(it)))
  }

  ghost function Sentinels(input: seq<Job>): int {
    Total(input, IsSentinel())
  }

  ghost function IsSentinel(): Job -> int {
    (job: Job) => if job.isBreak then 1 else 0
  }

  /** Workers that have a sentinel in hand or have left because of one. */
  ghost function Leavers(workers: seq<Worker>): int {
    Total(workers, IsLeaving())
  }

  ghost function IsLeaving(): Worker -> int {
    (w: Worker) => if w.Exited? || (w.Took? && w.job.isBreak) then 1 else 0
  }

  ghost function Sent(s: State): int {
    match s.main
    case Dispatching(_) => 0
    case Dismissing(left) => |s.workers| - left
    case _ => |s.workers|
  }

  // ----- The invariant -----

  /** Every job is in exactly one place. */
  ghost predicate Conserved(s: State, plan: seq<Job>) {
    && Everywhere(s, One()) == |plan|
    && forall it: Job :: Everywhere(s, Is(it)) == Times(plan, it)
  }

  /** Sentinels are behind every job, none is lost, and workers leave only when no job is queued. */
  ghost predicate InOrder(s: State) {
    && SentinelsLast(s.input)
    && Sentinels(s.input) + Leavers(s.workers) == Sent(s)
    && (Leavers(s.workers) > 0 ==> OnlySentinels(s.input))
  }

  ghost predicate SentinelsLast(input: seq<Job>) {
    forall i, j | 0 <= i < j < |input| :: input[i].isBreak ==> input[j].isBreak
  }

  ghost predicate OnlySentinels(input: seq<Job>) {
    forall i | 0 <= i < |input| :: input[i].isBreak
  }

  ghost predicate MainInStep(s: State, plan: seq<Job>) {
    match s.main
    case Dispatching(todo) => s.collected == [] && s.jobs + |todo| == |plan| && Dispatchable(todo)
    case Dismissing(left) => s.collected == [] && s.jobs == |plan| && left <= |s.workers|
    case Collecting(left) => |s.collected| + left == |plan|
    case Joining(next) =>
      && |s.collected| == |plan|
      && next <= |s.workers|
      && forall i | 0 <= i < next :: s.workers[i].Exited?
    case Done => |s.collected| == |plan| && forall i | 0 <= i < |s.workers| :: s.workers[i].Exited?
  }

  /** Break flags on jobs come from an interrupt, and a skipped job is never run. */
  ghost predicate Sane(s: State) {
    && (forall i | 0 <= i < |s.input| :: SaneQueued(s.input[i]))
    && (forall i | 0 <= i < |s.workers| :: SaneWorker(s.workers[i], s.interrupted))
    && (forall i | 0 <= i < |s.output| :: SaneResult(s.output[i], s.interrupted))
    && (forall i | 0 <= i < |s.collected| :: SaneResult(s.collected[i], s.interrupted))
  }

  ghost predicate SaneQueued(job: Job) {
    job.isBreak || job == job.Origin()
  }

  ghost predicate SaneWorker(w: Worker, interrupted: bool) {
    match w
    case Took(job) => SaneQueued(job)
    case Running(job) => !job.isBreak && !job.isSkip
    case Finished(job) => SaneResult(job, interrupted)
    case _ => true
  }

  ghost predicate SaneResult(job: Job, interrupted: bool) {
    (job.isBreak ==> interrupted) && (job.isBreak || job.isSkip ==> job.outcome == NoOutcome)
  }

  /** There is someone to do the work, or no work. */
  ghost predicate Manned(s: State, plan: seq<Job>) {
    s.workers != [] || plan == []
  }

  ghost predicate Inv(s: State, plan: seq<Job>) {
    Conserved(s, plan) && InOrder(s) && MainInStep(s, plan) && Sane(s) && Manned(s, plan)
  }

  // ----- Every step keeps the invariant -----

  lemma InitInv(plan: seq<Job>, processors: nat)
    requires (processors > 0 || plan == []) && Dispatchable(plan)
    ensures Inv(Init(plan, processors), plan)
  {
    var s := Init(plan, processors);
    NobodyLeft(s.workers);
    NobodyHolds(s.workers, One());
    CountAll(plan);
    forall it: Job
      ensures Everywhere(s, Is(it)) == Times(plan, it)
    {
      NobodyHolds(s.workers, Is(it));
    }
  }

  lemma {:induction false} NobodyLeft(workers: seq<Worker>)
    requires forall i | 0 <= i < |workers| :: workers[i].Waiting?
    ensures Leavers(workers) == 0
  {
    if workers != [] {
      NobodyLeft(workers[..|workers| - 1]);
    }
  }

  lemma MainConserves(s: State, weight: Job -> int)
    requires MainEnabled(s) && Dispatchable(Todo(s.main))
    ensures Everywhere(MainNext(s), weight) == Everywhere(s, weight)
  {
    match s.main
    case Dispatching(todo) =>
      if todo != [] {
        TotalCons(todo, OfResult(weight));
        TotalSnoc(s.input, todo[0], OfQueued(weight));
        assert todo[0] == todo[0].Origin();
      }
    case Dismissing(left) =>
      TotalSnoc(s.input, Sentinel, OfQueued(weight));
    case Collecting(left) =>
      if left != 0 {
        TotalCons(s.output, OfResult(weight));
        TotalSnoc(s.collected, s.output[0], OfResult(weight));
      }
    case Joining(next) =>
    case Done =>
  }

  lemma MainKeepsOrder(s: State, plan: seq<Job>)
    requires InOrder(s) && MainInStep(s, plan) && MainEnabled(s)
    ensures InOrder(MainNext(s))
  {
    match s.main
    case Dispatching(todo) =>
      if todo != [] {
        DispatchKeepsOrder(s);
      }
    case Dismissing(left) =>
      if left != 0 {
        DismissKeepsOrder(s);
      }
    case Collecting(left) =>
    case Joining(next) =>
    case Done =>
  }

  lemma DismissKeepsOrder(s: State)
    requires InOrder(s) && s.main.Dismissing? && s.main.left != 0
    ensures InOrder(MainNext(s))
  {
    hide OnlySentinels, SentinelsLast, Sent;
    TotalSnoc(s.input, Sentinel, IsSentinel());
    OneMoreSentinel(s.input);
    OneMoreSent(s);
  }

  lemma OneMoreSentinel(input: seq<Job>)
    ensures SentinelsLast(input) ==> SentinelsLast(input + [Sentinel])
    ensures OnlySentinels(input) ==> OnlySentinels(input + [Sentinel])
  {
  }

  lemma OneMoreSent(s: State)
    requires s.main.Dismissing? && s.main.left != 0
    ensures Sent(MainNext(s)) == Sent(s) + 1
  {
  }

  lemma DispatchKeepsOrder(s: State)
    requires InOrder(s) && s.main.Dispatching? && s.main.todo != [] && Dispatchable(s.main.todo)
    ensures InOrder(MainNext(s))
  {
    var job := s.main.todo[0];
    assert job == job.Origin();
    TotalSnoc(s.input, job, IsSentinel());
    TotalBounds(s.input, IsSentinel());
    TotalBounds(s.workers, IsLeaving());
    forall i | 0 <= i < |s.input|
      ensures !s.input[i].isBreak
    {
      assert IsSentinel()(s.input[i]) == 0;
    }
  }

  lemma MainKeepsStep(s: State, plan: seq<Job>)
    requires MainInStep(s, plan) && MainEnabled(s)
    ensures MainInStep(MainNext(s), plan)
  {
  }

  lemma MainKeepsSane(s: State)
    requires Sane(s) && MainEnabled(s) && Dispatchable(Todo(s.main))
    ensures Sane(MainNext(s))
  {
  }

  lemma WorkerConserves(s: State, w: nat, outcome: Outcome, weight: Job -> int)
    requires WorkerEnabled(s, w)
    ensures Everywhere(WorkerNext(s, w, outcome), weight) == Everywhere(s, weight)
  {
    TotalUpdate(s.workers, w, WorkerNext(s, w, outcome).workers[w], OfWorker(weight));
    match s.workers[w]
    case Waiting => TotalCons(s.input, OfQueued(weight));
    case Finished(job) => TotalSnoc(s.output, job, OfResult(weight));
    case Took(job) => assert job.(isBreak := true).Origin() == job.Origin();
    case Running(job) => assert job.(outcome := outcome).Origin() == job.Origin();
  }

  lemma WorkerKeepsOrder(s: State, w: nat, outcome: Outcome)
    requires InOrder(s) && WorkerEnabled(s, w)
    ensures InOrder(WorkerNext(s, w, outcome))
  {
    TotalUpdate(s.workers, w, WorkerNext(s, w, outcome).workers[w], IsLeaving());
    if s.workers[w].Waiting? {
      TotalCons(s.input, IsSentinel());
    }
  }

  lemma WorkerKeepsStep(s: State, plan: seq<Job>, w: nat, outcome: Outcome)
    requires MainInStep(s, plan) && WorkerEnabled(s, w)
    ensures MainInStep(WorkerNext(s, w, outcome), plan)
  {
  }

  lemma WorkerKeepsSane(s: State, w: nat, outcome: Outcome)
    requires Sane(s) && WorkerEnabled(s, w)
    ensures Sane(WorkerNext(s, w, outcome))
  {
    assert SaneWorker(s.workers[w], s.interrupted);
    assert SaneWorker(WorkerNext(s, w, outcome).workers[w], s.interrupted);
  }

  /** Conservation, whatever is weighed. */
  lemma NextConserves(s: State, a: Action, weight: Job -> int)
    requires Enabled(s, a) && Dispatchable(Todo(s.main))
    ensures Everywhere(Next(s, a), weight) == Everywhere(s, weight)
  {
    match a
    case MainStep => MainConserves(s, weight);
    case WorkerStep(w, outcome) => WorkerConserves(s, w, outcome, weight);
    case Interrupt =>
  }

  lemma NextInv(s: State, plan: seq<Job>, a: Action)
    requires Inv(s, plan) && Enabled(s, a)
    ensures Inv(Next(s, a), plan)
  {
    hide Conserved, InOrder, Sane;
    NextKeepsConserved(s, plan, a);
    match a
    case MainStep =>
      MainKeepsOrder(s, plan);
      MainKeepsStep(s, plan);
      MainKeepsSane(s);
    case WorkerStep(w, outcome) =>
      WorkerKeepsOrder(s, w, outcome);
      WorkerKeepsStep(s, plan, w, outcome);
      WorkerKeepsSane(s, w, outcome);
    case Interrupt => InterruptKeeps(s);
  }

  lemma NextKeepsConserved(s: State, plan: seq<Job>, a: Action)
    requires Conserved(s, plan) && MainInStep(s, plan) && Enabled(s, a)
    ensures Conserved(Next(s, a), plan)
  {
    hide Everywhere, Next;
    NextConserves(s, a, One());
    forall it: Job
      ensures Everywhere(Next(s, a), Is(it)) == Times(plan, it)
    {
      NextConserves(s, a, Is(it));
    }
  }

  lemma InterruptKeeps(s: State)
    requires !s.interrupted
    ensures InOrder(s) ==> InOrder(Next(s, Interrupt))
    ensures Sane(s) ==> Sane(Next(s, Interrupt))
  {
  }

  lemma {:induction false} AfterInv(s: State, plan: seq<Job>, schedule: seq<Action>)
    requires Inv(s, plan) && Possible(s, schedule)
    ensures Inv(After(s, schedule), plan)
    decreases |schedule|
  {
    if schedule != [] {
      NextInv(s, plan, schedule[0]);
      AfterInv(Next(s, schedule[0]), plan, schedule[1..]);
    }
  }

  // ----- No deadlock -----

  /** Someone other than the signal handler can always move until the run is over. */
  lemma NeverStuck(s: State, plan: seq<Job>) returns (a: Action)
    requires Inv(s, plan) && !s.main.Done?
    ensures !a.Interrupt? && Enabled(s, a)
  {
    a := MainStep;
    if !MainEnabled(s) {
      var w := WorkerReady(s, plan);
      a := WorkerStep(w, NoOutcome);
    }
  }

  /** When main waits for a result or for a worker to leave, a worker is ready. */
  lemma WorkerReady(s: State, plan: seq<Job>) returns (w: nat)
    requires Inv(s, plan) && !s.main.Done? && !MainEnabled(s)
    ensures WorkerEnabled(s, w)
  {
    if i :| 0 <= i < |s.workers| && !s.workers[i].Waiting? && !s.workers[i].Exited? {
      return i;
    }
    if s.main.Collecting? {
      SomeJobQueued(s, plan);
      TotalBounds(s.workers, IsLeaving());
      assert IsLeaving()(s.workers[0]) == 0;
      return 0;
    }
    w := s.main.next;
    TotalBounds(s.input, IsSentinel());
    TotalBounds(s.workers, IsLeaving());
    assert IsLeaving()(s.workers[w]) == 0;
  }

  /** Main waits for a result, nobody holds a job: then one is queued, and no worker has left. */
  lemma SomeJobQueued(s: State, plan: seq<Job>)
    requires Inv(s, plan) && s.main.Collecting? && s.main.left > 0 && s.output == []
    requires forall i | 0 <= i < |s.workers| :: s.workers[i].Waiting? || s.workers[i].Exited?
    ensures s.input != [] && Leavers(s.workers) == 0
  {
    TotalZero(s.workers, OfWorker(One()));
    TotalBounds(s.collected, OfResult(One()));
    TotalBounds(s.workers, IsLeaving());
    if Leavers(s.workers) > 0 {
      TotalZero(s.input, OfQueued(One()));
    }
  }

  /** A queue entry is a sentinel or a job. */
  lemma {:induction false} QueueSize(input: seq<Job>)
    ensures Sentinels(input) + Total(input, OfQueued(One())) == |input|
  {
    if input != [] {
      QueueSize(input[..|input| - 1]);
    }
  }

  // ----- Termination -----

  ghost function Effort(): Worker -> int {
    (w: Worker) =>
      match w
      case Took(_) => 3
      case Running(_) => 2
      case Finished(_) => 1
      case _ => 0
  }

  /** The steps main still has to take, with four worker steps for each queue entry it has yet to put. */
  ghost function MainEffort(s: State): int {
    var n := |s.workers|;
    match s.main
    case Dispatching(todo) => 6 * |todo| + s.jobs + 6 * n + 4
    case Dismissing(left) => 5 * left + s.jobs + n + 3
    case Collecting(left) => left + n + 2
    case Joining(next) => n - next + 1
    case Done => 0
  }

  ghost function Remaining(s: State): int {
    MainEffort(s) + 4 * |s.input| + Total(s.workers, Effort()) + if s.interrupted then 0 else 1
  }

  lemma NextIsCloser(s: State, plan: seq<Job>, a: Action)
    requires MainInStep(s, plan) && Enabled(s, a)
    ensures Remaining(Next(s, a)) < Remaining(s)
  {
    match a
    case MainStep => MainIsCloser(s, plan);
    case WorkerStep(w, outcome) => WorkerIsCloser(s, w, outcome);
    case Interrupt =>
  }

  lemma MainIsCloser(s: State, plan: seq<Job>)
    requires MainInStep(s, plan) && MainEnabled(s)
    ensures Remaining(MainNext(s)) < Remaining(s)
  {
  }

  lemma WorkerIsCloser(s: State, w: nat, outcome: Outcome)
    requires WorkerEnabled(s, w)
    ensures Remaining(WorkerNext(s, w, outcome)) < Remaining(s)
  {
    TotalUpdate(s.workers, w, WorkerNext(s, w, outcome).workers[w], Effort());
  }

  lemma {:induction false} EffortIsNat(workers: seq<Worker>)
    ensures Total(workers, Effort()) >= 0
  {
    if workers != [] {
      EffortIsNat(workers[..|workers| - 1]);
    }
  }

  lemma RemainingIsNat(s: State, plan: seq<Job>)
    requires Inv(s, plan)
    ensures Remaining(s) >= 0
  {
    EffortIsNat(s.workers);
  }

  lemma {:induction false} ScheduleIsBounded(s: State, plan: seq<Job>, schedule: seq<Action>)
    requires Inv(s, plan) && Possible(s, schedule)
    ensures |schedule| <= Remaining(s)
    decreases |schedule|
  {
    if schedule == [] {
      RemainingIsNat(s, plan);
    } else {
      NextIsCloser(s, plan, schedule[0]);
      NextInv(s, plan, schedule[0]);
      ScheduleIsBounded(Next(s, schedule[0]), plan, schedule[1..]);
    }
  }

  // ----- The whole run -----

  ghost predicate Complete(s: State, plan: seq<Job>) {
    && s.main.Done?
    && s.input == [] && s.output == []
    && (forall i | 0 <= i < |s.workers| :: s.workers[i].Exited?)
    && |s.collected| == |plan|
    && (forall it: Job :: Times(s.collected, it) == Times(plan, it))
    && (forall i | 0 <= i < |s.collected| :: SaneResult(s.collected[i], s.interrupted))
  }

  lemma DoneIsComplete(s: State, plan: seq<Job>)
    requires Inv(s, plan) && s.main.Done?
    ensures Complete(s, plan)
  {
    DoneIsEmpty(s, plan);
    forall it: Job
      ensures Times(s.collected, it) == Times(plan, it)
    {
      NobodyHolds(s.workers, Is(it));
      assert Everywhere(s, Is(it)) == Times(plan, it);
    }
  }

  lemma DoneIsEmpty(s: State, plan: seq<Job>)
    requires Inv(s, plan) && s.main.Done?
    ensures s.input == [] && s.output == []
  {
    hide Sane, SaneResult, SaneQueued, SaneWorker, OfQueued, OfResult, OfWorker, IsSentinel, IsLeaving, One, Is;
    AllLeavers(s.workers);
    SentinelsAreNat(s.input);
    QueueSize(s.input);
    NobodyHolds(s.workers, One());
    CountAll(s.output);
    CountAll(s.collected);
    assert Everywhere(s, One()) == |plan|;
  }

  lemma {:induction false} AllLeavers(workers: seq<Worker>)
    requires forall i | 0 <= i < |workers| :: workers[i].Exited?
    ensures Leavers(workers) == |workers|
  {
    if workers != [] {
      AllLeavers(workers[..|workers| - 1]);
    }
  }

  lemma {:induction false} NobodyHolds(workers: seq<Worker>, weight: Job -> int)
    requires forall i | 0 <= i < |workers| :: workers[i].Waiting? || workers[i].Exited?
    ensures Total(workers, OfWorker(weight)) == 0
  {
    if workers != [] {
      NobodyHolds(workers[..|workers| - 1], weight);
    }
  }

  lemma {:induction false} SentinelsAreNat(input: seq<Job>)
    ensures Sentinels(input) >= 0
  {
    if input != [] {
      SentinelsAreNat(input[..|input| - 1]);
    }
  }

  lemma {:induction false} CountAll(jobs: seq<Job>)
    ensures Total(jobs, OfResult(One())) == |jobs|
  {
    if jobs != [] {
      CountAll(jobs[..|jobs| - 1]);
    }
  }

  /** The main result.  Whatever the interleaving and whenever the interrupt: a run takes at
      most 6 steps for each job and each worker and 5 more, it never stops before it is over,
      and when it is over each job has been collected exactly as often as it was dispatched,
      the queues are empty and every worker has left. */
  lemma EveryRunCompletes(plan: seq<Job>, processors: nat, schedule: seq<Action>)
    requires (processors > 0 || plan == []) && Dispatchable(plan)
    requires Possible(Init(plan, processors), schedule)
    ensures var s := After(Init(plan, processors), schedule);
            && |schedule| <= 6 * |plan| + 6 * processors + 5
            && ((forall a | Enabled(s, a) :: a.Interrupt?) <==> s.main.Done?)
            && (s.main.Done? ==> Complete(s, plan))
  {
    hide *;
    var s0 := Init(plan, processors);
    var s := After(s0, schedule);
    InitInv(plan, processors);
    ScheduleIsBounded(s0, plan, schedule);
    InitEffort(plan, processors);
    AfterInv(s0, plan, schedule);
    if s.main.Done? {
      DoneIsComplete(s, plan);
      CompleteIsStuck(s, plan);
    } else {
      var a := NeverStuck(s, plan);
    }
  }

  lemma InitEffort(plan: seq<Job>, processors: nat)
    ensures Remaining(Init(plan, processors)) == 6 * |plan| + 6 * processors + 5
  {
    NobodyBusy(Init(plan, processors).workers);
  }

  lemma CompleteIsStuck(s: State, plan: seq<Job>)
    requires Complete(s, plan)
    ensures s.main.Done? && forall a | Enabled(s, a) :: a.Interrupt?
  {
  }

  /** The same for anything that can be weighed: what is collected weighs what was dispatched. */
  lemma CollectedWeighsTheSame(plan: seq<Job>, processors: nat, schedule: seq<Action>, weight: Job -> int)
    requires (processors > 0 || plan == []) && Dispatchable(plan)
    requires Possible(Init(plan, processors), schedule)
    requires After(Init(plan, processors), schedule).main.Done?
    ensures Total(After(Init(plan, processors), schedule).collected, OfResult(weight)) == Total(plan, OfResult(weight))
  {
    var s0 := Init(plan, processors);
    hide *;
    InitInv(plan, processors);
    AfterConserves(s0, plan, schedule, weight);
    EveryRunCompletes(plan, processors, schedule);
    InitWeighs(plan, processors, weight);
    CompleteWeighs(After(s0, schedule), plan, weight);
  }

  lemma InitWeighs(plan: seq<Job>, processors: nat, weight: Job -> int)
    ensures Everywhere(Init(plan, processors), weight) == Total(plan, OfResult(weight))
    ensures Results(Init(plan, processors), weight) == 0
  {
    var workers := Init(plan, processors).workers;
    NobodyHolds(workers, weight);
    NobodyFinished(workers, weight);
  }

  lemma CompleteWeighs(s: State, plan: seq<Job>, weight: Job -> int)
    requires Complete(s, plan)
    ensures Everywhere(s, weight) == Total(s.collected, OfResult(weight))
    ensures Results(s, weight) == Total(s.collected, OfRun(weight))
  {
    NobodyHolds(s.workers, weight);
    NobodyFinished(s.workers, weight);
  }

  lemma {:induction false} NobodyFinished(workers: seq<Worker>, weight: Job -> int)
    requires forall i | 0 <= i < |workers| :: workers[i].Waiting? || workers[i].Exited?
    ensures Total(workers, OfFinished(weight)) == 0
  {
    if workers != [] {
      NobodyFinished(workers[..|workers| - 1], weight);
    }
  }

  lemma {:induction false} AfterConserves(s: State, plan: seq<Job>, schedule: seq<Action>, weight: Job -> int)
    requires Inv(s, plan) && Possible(s, schedule)
    ensures Everywhere(After(s, schedule), weight) == Everywhere(s, weight)
    decreases |schedule|
  {
    if schedule != [] {
      NextInv(s, plan, schedule[0]);
      NextConserves(s, schedule[0], weight);
      AfterConserves(Next(s, schedule[0]), plan, schedule[1..], weight);
    }
  }

  // ----- Results come from runs -----

  /** A weight on results, counting only those of jobs that were run. */
  ghost function OfRun(weight: Job -> int): Job -> int {
    (job: Job) => if job.isBreak || job.isSkip then 0 else weight(job)
  }

  ghost function OfFinished(weight: Job -> int): Worker -> int {
    (w: Worker) => if w.Finished? then OfRun(weight)(w.job) else 0
  }

  ghost function Results(s: State, weight: Job -> int): int {
    Total(s.workers, OfFinished(weight)) + Total(s.output, OfRun(weight)) + Total(s.collected, OfRun(weight))
  }

  /** The weight of a job with the outcome that it is given, if this step runs one. */
  ghost function RunBy(s: State, a: Action, weight: Job -> int): int {
    match a
    case WorkerStep(w, outcome) =>
      if w < |s.workers| && s.workers[w].Running? then weight(s.workers[w].job.(outcome := outcome)) else 0
    case _ => 0
  }

  ghost function Runs(s: State, schedule: seq<Action>, weight: Job -> int): int
    requires Possible(s, schedule)
    decreases |schedule|
  {
    if schedule == [] then 0 else
      RunBy(s, schedule[0], weight) + Runs(Next(s, schedule[0]), schedule[1..], weight)
  }

  lemma MainKeepsResults(s: State, weight: Job -> int)
    requires MainEnabled(s)
    ensures Results(MainNext(s), weight) == Results(s, weight)
  {
    if s.main.Collecting? && s.main.left != 0 {
      TotalCons(s.output, OfRun(weight));
      TotalSnoc(s.collected, s.output[0], OfRun(weight));
    }
  }

  lemma WorkerAddsRun(s: State, w: nat, outcome: Outcome, weight: Job -> int)
    requires WorkerEnabled(s, w) && Sane(s)
    ensures Results(WorkerNext(s, w, outcome), weight) == Results(s, weight) + RunBy(s, WorkerStep(w, outcome), weight)
  {
    assert SaneWorker(s.workers[w], s.interrupted);
    TotalUpdate(s.workers, w, WorkerNext(s, w, outcome).workers[w], OfFinished(weight));
    if s.workers[w].Finished? {
      TotalSnoc(s.output, s.workers[w].job, OfRun(weight));
    }
  }

  lemma {:induction false} ResultsAreRuns(s: State, plan: seq<Job>, schedule: seq<Action>, weight: Job -> int)
    requires Inv(s, plan) && Possible(s, schedule)
    ensures Results(After(s, schedule), weight) == Results(s, weight) + Runs(s, schedule, weight)
    decreases |schedule|
  {
    if schedule != [] {
      match schedule[0] {
        case MainStep => MainKeepsResults(s, weight);
        case WorkerStep(w, outcome) => WorkerAddsRun(s, w, outcome, weight);
        case Interrupt =>
      }
      NextInv(s, plan, schedule[0]);
      ResultsAreRuns(Next(s, schedule[0]), plan, schedule[1..], weight);
    }
  }

  /** What a finished run collected from jobs that were run is exactly what running them returned. */
  lemma CollectedResultsAreRuns(plan: seq<Job>, processors: nat, schedule: seq<Action>, weight: Job -> int)
    requires (processors > 0 || plan == []) && Dispatchable(plan)
    requires Possible(Init(plan, processors), schedule)
    requires After(Init(plan, processors), schedule).main.Done?
    ensures Total(After(Init(plan, processors), schedule).collected, OfRun(weight))
            == Runs(Init(plan, processors), schedule, weight)
  {
    var s0 := Init(plan, processors);
    hide *;
    InitInv(plan, processors);
    ResultsAreRuns(s0, plan, schedule, weight);
    EveryRunCompletes(plan, processors, schedule);
    InitWeighs(plan, processors, weight);
    CompleteWeighs(After(s0, schedule), plan, weight);
  }

  ghost function IsRunning(): Worker -> int {
    (w: Worker) => if w.Running? then 1 else 0
  }

  lemma InterruptedStep(s: State, a: Action)
    requires Enabled(s, a) && s.interrupted
    ensures RunBy(s, a, One()) + Total(Next(s, a).workers, IsRunning()) == Total(s.workers, IsRunning())
  {
    if a.WorkerStep? {
      TotalUpdate(s.workers, a.worker, Next(s, a).workers[a.worker], IsRunning());
    }
  }

  /** After an interrupt nothing is run but the jobs that were running, one for each worker at most. */
  lemma {:induction false} InterruptStopsRuns(s: State, schedule: seq<Action>)
    requires Possible(s, schedule) && s.interrupted
    ensures Runs(s, schedule, One()) + Total(After(s, schedule).workers, IsRunning()) == Total(s.workers, IsRunning())
    ensures 0 <= Runs(s, schedule, One()) <= Total(s.workers, IsRunning()) <= |s.workers|
    decreases |schedule|
  {
    TotalBounds(s.workers, IsRunning());
    TotalBounds(After(s, schedule).workers, IsRunning());
    if schedule != [] {
      InterruptedStep(s, schedule[0]);
      InterruptStopsRuns(Next(s, schedule[0]), schedule[1..]);
    }
  }

  // ----- What an interrupt does to the results -----

  ghost function Whole(): Job -> int {
    (job: Job) => if job.isBreak then 0 else 1
  }

  ghost function OfWhole(): Worker -> int {
    (w: Worker) => if w.Finished? then Whole()(w.job) else 0
  }

  /** The results without a break flag: finished by a worker, in the output queue, or collected. */
  ghost function Unbroken(s: State): int {
    Total(s.workers, OfWhole()) + Total(s.output, Whole()) + Total(s.collected, Whole())
  }

  lemma MainKeepsUnbroken(s: State)
    requires MainEnabled(s)
    ensures Unbroken(MainNext(s)) == Unbroken(s)
  {
    if s.main.Collecting? && s.main.left != 0 {
      TotalCons(s.output, Whole());
      TotalSnoc(s.collected, s.output[0], Whole());
    }
  }

  lemma InterruptedWorker(s: State, w: nat, outcome: Outcome)
    requires WorkerEnabled(s, w) && Sane(s) && s.interrupted
    ensures Unbroken(WorkerNext(s, w, outcome)) == Unbroken(s) + RunBy(s, WorkerStep(w, outcome), One())
  {
    assert SaneWorker(s.workers[w], s.interrupted);
    TotalUpdate(s.workers, w, WorkerNext(s, w, outcome).workers[w], OfWhole());
    if s.workers[w].Finished? {
      TotalSnoc(s.output, s.workers[w].job, Whole());
    }
  }

  /** After an interrupt the results without a break flag grow by exactly the jobs that are run:
      a job taken afterwards comes back broken, even if it was to be skipped. */
  lemma {:induction false} UnbrokenAreRuns(s: State, plan: seq<Job>, schedule: seq<Action>)
    requires Inv(s, plan) && Possible(s, schedule) && s.interrupted
    ensures Unbroken(After(s, schedule)) == Unbroken(s) + Runs(s, schedule, One())
    decreases |schedule|
  {
    if schedule != [] {
      match schedule[0] {
        case MainStep => MainKeepsUnbroken(s);
        case WorkerStep(w, outcome) => InterruptedWorker(s, w, outcome);
        case Interrupt =>
      }
      NextInv(s, plan, schedule[0]);
      UnbrokenAreRuns(Next(s, schedule[0]), plan, schedule[1..]);
    }
  }

  lemma {:induction false} SplitSchedule(s: State, schedule: seq<Action>, i: nat)
    requires Possible(s, schedule) && i <= |schedule|
    ensures Possible(s, schedule[..i]) && Possible(After(s, schedule[..i]), schedule[i..])
    ensures After(s, schedule) == After(After(s, schedule[..i]), schedule[i..])
    decreases i
  {
    if i == 0 {
      assert schedule[..0] == [] && schedule[0..] == schedule;
    } else {
      SplitSchedule(Next(s, schedule[0]), schedule[1..], i - 1);
      assert schedule[..i][1..] == schedule[1..][..i - 1];
      assert schedule[1..][i - 1..] == schedule[i..];
    }
  }

  /** No worker has yet decided what to do with a job. */
  ghost predicate Undecided(s: State) {
    && s.output == [] && s.collected == []
    && forall i | 0 <= i < |s.workers| :: !s.workers[i].Running? && !s.workers[i].Finished?
  }

  /** Action `i` is an interrupt that comes before any worker decides. */
  ghost predicate InterruptedFirst(s: State, schedule: seq<Action>, i: nat) {
    && i < |schedule| && schedule[i] == Interrupt
    && Possible(s, schedule[..i]) && Undecided(After(s, schedule[..i]))
  }

  /** Then every job comes back unrun, skipped or not. */
  lemma AllBroken(plan: seq<Job>, processors: nat, schedule: seq<Action>, i: nat)
    requires (processors > 0 || plan == []) && Dispatchable(plan)
    requires Possible(Init(plan, processors), schedule) && InterruptedFirst(Init(plan, processors), schedule, i)
    ensures forall k | 0 <= k < |After(Init(plan, processors), schedule).collected| ::
              After(Init(plan, processors), schedule).collected[k].isBreak
  {
    hide *;
    var s0 := Init(plan, processors);
    InterruptedParts(s0, schedule, i);
    SplitSchedule(s0, schedule, i);
    var s1 := After(s0, schedule[..i]);
    InitInv(plan, processors);
    AfterInv(s0, plan, schedule[..i]);
    assert schedule[i..][0] == schedule[i];
    InterruptNow(s1, schedule[i..]);
    var s2 := Next(s1, Interrupt);
    NextInv(s1, plan, Interrupt);
    var rest := schedule[i..][1..];
    UnbrokenAreRuns(s2, plan, rest);
    InterruptStopsRuns(s2, rest);
    UndecidedIsNothing(s1);
    NothingUnbroken(After(s2, rest));
  }

  lemma InterruptedParts(s: State, schedule: seq<Action>, i: nat)
    requires InterruptedFirst(s, schedule, i)
    ensures i < |schedule| && schedule[i] == Interrupt && Possible(s, schedule[..i]) && Undecided(After(s, schedule[..i]))
  {
  }

  lemma InterruptNow(s: State, schedule: seq<Action>)
    requires schedule != [] && schedule[0] == Interrupt && Possible(s, schedule)
    ensures Enabled(s, Interrupt) && Next(s, Interrupt).interrupted
    ensures Possible(Next(s, Interrupt), schedule[1..]) && After(s, schedule) == After(Next(s, Interrupt), schedule[1..])
  {
  }

  lemma UndecidedIsNothing(s: State)
    requires Undecided(s) && Enabled(s, Interrupt)
    ensures Unbroken(Next(s, Interrupt)) == 0 && Total(Next(s, Interrupt).workers, IsRunning()) == 0
  {
    TotalZero(s.workers, OfWhole());
    TotalZero(s.workers, IsRunning());
  }

  lemma NothingUnbroken(s: State)
    requires Unbroken(s) <= 0
    ensures forall k | 0 <= k < |s.collected| :: s.collected[k].isBreak
  {
    TotalBounds(s.workers, OfWhole());
    TotalBounds(s.output, Whole());
    TotalBounds(s.collected, Whole());
    forall k | 0 <= k < |s.collected|
      ensures s.collected[k].isBreak
    {
      assert Whole()(s.collected[k]) == 0;
    }
  }

  // ----- First in, first out -----

  /** The jobs among the queue entries, in their order. */
  ghost function Jobs(input: seq<Job>): seq<Job> {
    if input == [] then [] else
      var last := input[|input| - 1];
      Jobs(input[..|input| - 1]) + if last.isBreak then [] else [last]
  }

  /** The jobs that no worker has taken yet, the next one first. */
  ghost function Untaken(s: State): seq<Job> {
    Jobs(s.input) + Todo(s.main)
  }

  lemma {:induction false} JobsCons(input: seq<Job>)
    requires input != []
    ensures Jobs(input) == (if input[0].isBreak then [] else [input[0]]) + Jobs(input[1..])
  {
    if |input| > 1 {
      var n := |input| - 1;
      JobsCons(input[..n]);
      assert input[1..][..n - 1] == input[..n][1..];
    } else {
      assert input[..0] == [] && input[1..] == [];
    }
  }

  lemma JobsSnoc(input: seq<Job>, job: Job)
    ensures Jobs(input + [job]) == Jobs(input) + if job.isBreak then [] else [job]
  {
    assert (input + [job])[..|input|] == input;
  }

  lemma MainTakesNone(s: State)
    requires MainEnabled(s) && Dispatchable(Todo(s.main))
    ensures Untaken(MainNext(s)) == Untaken(s)
  {
    hide Jobs;
    match s.main
    case Dispatching(todo) =>
      if todo != [] {
        assert todo[0] == todo[0].Origin();
        JobsSnoc(s.input, todo[0]);
        assert todo == [todo[0]] + todo[1..];
      }
    case Dismissing(left) => JobsSnoc(s.input, Sentinel);
    case Collecting(left) =>
    case Joining(next) =>
    case Done =>
  }

  lemma WorkerTakesFirst(s: State, w: nat, outcome: Outcome)
    requires WorkerEnabled(s, w)
    ensures var rest := Untaken(WorkerNext(s, w, outcome));
            || rest == Untaken(s)
            || (WorkerNext(s, w, outcome).workers[w].Took? && Untaken(s) == [WorkerNext(s, w, outcome).workers[w].job] + rest)
  {
    hide Jobs;
    if s.workers[w].Waiting? {
      JobsCons(s.input);
    }
  }

  /** Jobs are taken in the order of the plan: what is left of it is always its end. */
  lemma {:induction false} TakenInOrder(s: State, plan: seq<Job>, schedule: seq<Action>) returns (k: nat)
    requires Inv(s, plan) && Possible(s, schedule)
    ensures k <= |Untaken(s)| && Untaken(After(s, schedule)) == Untaken(s)[k..]
    decreases |schedule|
  {
    hide Inv, Untaken, Next, Enabled;
    k := 0;
    if schedule != [] {
      var next := Next(s, schedule[0]);
      NextTakesFirst(s, plan, schedule[0]);
      NextInv(s, plan, schedule[0]);
      k := TakenInOrder(next, plan, schedule[1..]);
      if Untaken(next) != Untaken(s) {
        k := k + 1;
      }
    }
  }

  lemma NextTakesFirst(s: State, plan: seq<Job>, a: Action)
    requires Inv(s, plan) && Enabled(s, a)
    ensures Untaken(Next(s, a)) == Untaken(s) || (Untaken(s) != [] && Untaken(Next(s, a)) == Untaken(s)[1..])
  {
    match a {
      case MainStep => MainTakesNone(s);
      case WorkerStep(w, outcome) => WorkerTakesFirst(s, w, outcome);
      case Interrupt =>
    }
  }

  /** Results are collected in the order in which workers put them. */
  lemma {:induction false} CollectedInOrder(s: State, schedule: seq<Action>)
    requires Possible(s, schedule)
    ensures s.collected + s.output <= After(s, schedule).collected + After(s, schedule).output
    decreases |schedule|
  {
    if schedule != [] {
      NextAppends(s, schedule[0]);
      CollectedInOrder(Next(s, schedule[0]), schedule[1..]);
    }
  }

  lemma NextAppends(s: State, a: Action)
    requires Enabled(s, a)
    ensures s.collected + s.output <= Next(s, a).collected + Next(s, a).output
  {
    if a.MainStep? && s.main.Collecting? && s.main.left != 0 {
      assert s.output == [s.output[0]] + s.output[1..];
    }
  }

  lemma {:induction false} NobodyBusy(workers: seq<Worker>)
    requires forall i | 0 <= i < |workers| :: workers[i].Waiting?
    ensures Total(workers, Effort()) == 0
  {
    if workers != [] {
      NobodyBusy(workers[..|workers| - 1]);
    }
  }

  lemma {:induction false} NeverInterrupted(s: State, schedule: seq<Action>)
    requires Possible(s, schedule) && !s.interrupted && Interrupt !in schedule
    ensures !After(s, schedule).interrupted
    decreases |schedule|
  {
    if schedule != [] {
      NeverInterrupted(Next(s, schedule[0]), schedule[1..]);
    }
  }

  /** Without an interrupt no job comes back unrun. */
  lemma NoInterruptNoBreak(plan: seq<Job>, processors: nat, schedule: seq<Action>)
    requires (processors > 0 || plan == []) && Dispatchable(plan)
    requires Possible(Init(plan, processors), schedule) && Interrupt !in schedule
    ensures var s := After(Init(plan, processors), schedule);
            && (forall i | 0 <= i < |s.output| :: !s.output[i].isBreak)
            && (forall i | 0 <= i < |s.collected| :: !s.collected[i].isBreak)
  {
    InitInv(plan, processors);
    AfterInv(Init(plan, processors), plan, schedule);
    NeverInterrupted(Init(plan, processors), schedule);
  }

  // ----- When a run can end at all -----

  /** With no worker and something to do, no run ever gets past collecting. */
  lemma {:induction false} NoWorkersNoEnd(s: State, plan: seq<Job>, schedule: seq<Action>)
    requires plan != [] && s.workers == [] && s.output == [] && Possible(s, schedule)
    requires match s.main
             case Dispatching(todo) => s.jobs + |todo| == |plan|
             case Dismissing(left) => s.jobs == |plan|
             case Collecting(left) => left == |plan|
             case _ => false
    ensures !After(s, schedule).main.Joining? && !After(s, schedule).main.Done?
    decreases |schedule|
  {
    if schedule != [] {
      NoWorkersNoEnd(Next(s, schedule[0]), plan, schedule[1..]);
    }
  }

  lemma {:induction false} RunToEnd(s: State, plan: seq<Job>) returns (schedule: seq<Action>)
    requires Inv(s, plan)
    ensures Possible(s, schedule) && After(s, schedule).main.Done?
    decreases Remaining(s)
  {
    if s.main.Done? {
      return [];
    }
    RemainingIsNat(s, plan);
    var a := NeverStuck(s, plan);
    NextInv(s, plan, a);
    NextIsCloser(s, plan, a);
    var rest := RunToEnd(Next(s, a), plan);
    schedule := [a] + rest;
    assert schedule[1..] == rest;
  }

  ghost predicate Ends(s: State, schedule: seq<Action>) {
    Possible(s, schedule) && After(s, schedule).main.Done?
  }

  /** The exact condition: some run ends if and only if there is a worker or nothing to do, and
      then, by `EveryRunCompletes`, every run does. */
  lemma SomeRunEndsIff(plan: seq<Job>, processors: nat)
    requires Dispatchable(plan)
    ensures (exists schedule: seq<Action> :: Ends(Init(plan, processors), schedule)) <==> processors > 0 || plan == []
  {
    var s0 := Init(plan, processors);
    if processors > 0 || plan == [] {
      InitInv(plan, processors);
      var schedule := RunToEnd(s0, plan);
      assert Ends(s0, schedule);
    } else if schedule: seq<Action> :| Ends(s0, schedule) {
      NoWorkersNoEnd(s0, plan, schedule);
      assert false;
    }
  }

  // ----- The threads at work on shared queues -----

  class TestRun {
    var inputQueue: seq<Job>
    var outputQueue: seq<Job>
    var workers: array<Worker>
    var main: Main
    var jobs: nat
    var collected: seq<Job>
    var threadExit: bool

    function Now(): State
      reads this, workers
    {
      State(inputQueue, outputQueue, workers[..], main, jobs, collected, threadExit)
    }

    constructor (plan: seq<Job>, processors: nat)
      ensures fresh(workers) && Now() == Init(plan, processors)
    {
      inputQueue, outputQueue, collected := [], [], [];
      workers := new Worker[processors](_ => Waiting);
      main, jobs, threadExit := Dispatching(plan), 0, false;
    }

    /** One step of the main thread: put a job or a sentinel, get a result, or join a worker. */
    method StepMain()
      requires MainEnabled(Now())
      modifies this
      ensures workers == old(workers) && Now() == MainNext(old(Now()))
    {
      match main
      case Dispatching(todo) =>
        if todo == [] {
          main := Dismissing(workers.Length);
        } else {
          inputQueue := inputQueue + [todo[0]];
          jobs := jobs + 1;
          main := Dispatching(todo[1..]);
        }
      case Dismissing(left) =>
        if left == 0 {
          main := Collecting(jobs);
        } else {
          inputQueue := inputQueue + [Sentinel];
          main := Dismissing(left - 1);
        }
      case Collecting(left) =>
        if left == 0 {
          main := Joining(0);
        } else {
          collected := collected + [outputQueue[0]];
          outputQueue := outputQueue[1..];
          main := Collecting(left - 1);
        }
      case Joining(next) =>
        main := if next < workers.Length then Joining(next + 1) else Done;
    }

    /** One step of a worker thread. */
    method StepWorker(w: nat, outcome: Outcome)
      requires WorkerEnabled(Now(), w)
      modifies this, workers
      ensures workers == old(workers) && Now() == WorkerNext(old(Now()), w, outcome)
    {
      match workers[w]
      case Waiting =>
        workers[w] := Took(inputQueue[0]);
        inputQueue := inputQueue[1..];
      case Took(job) =>
        if job.isBreak {
          workers[w] := Exited;
        } else if threadExit {
          workers[w] := Finished(job.(isBreak := true));
        } else if job.isSkip {
          workers[w] := Finished(job);
        } else {
          workers[w] := Running(job);
        }
      case Running(job) =>
        workers[w] := Finished(job.(outcome := outcome));
      case Finished(job) =>
        outputQueue := outputQueue + [job];
        workers[w] := Waiting;
    }

    method SigintHook()
      modifies this
      ensures workers == old(workers) && Now() == old(Now()).(interrupted := true)
    {
      threadExit := true;
    }

    /** Run the threads in an arbitrary interleaving until main is done. */
    method Run(ghost plan: seq<Job>)
      requires Inv(Now(), plan)
      modifies this, workers
      ensures Complete(Now(), plan)
    {
      while !main.Done?
        invariant workers == old(workers) && Inv(Now(), plan)
        decreases Remaining(Now())
      {
        RemainingIsNat(Now(), plan);
        ghost var ready := NeverStuck(Now(), plan);
        var a: Action :| Enabled(Now(), a);
        NextInv(Now(), plan, a);
        NextIsCloser(Now(), plan, a);
        match a
        case MainStep => StepMain();
        case WorkerStep(w, outcome) => StepWorker(w, outcome);
        case Interrupt => SigintHook();
      }
      DoneIsComplete(Now(), plan);
    }
  }
}
