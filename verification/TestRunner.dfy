/** The parallel test runner: main dispatches jobs to worker threads over a FIFO queue,
    sends one break token per worker, collects one result per job and joins the threads.

    A run is an interleaving of atomic steps of main, of the workers and of the interrupt
    handler.  The specification is a state machine over values; class `TestRun` performs the
    same steps in place, and `RunTests` is main under an arbitrary scheduler. */
module TestRunner {
  import opened Sums

  /** `launched` is history: it records that the job's process was started. */
  datatype Job = Job(id: nat, isBreak: bool, isSkip: bool, launched: bool, returncode: int)

  /** Program counter of a worker, with the job object it owns at that point. */
  datatype Worker =
    | Waiting
    | Holding(job: Job)     // taken, interrupt flag not yet read
    | Cleared(job: Job)     // flag read as false, process not yet started
    | Running(job: Job)
    | Reporting(job: Job)   // about to put the job on the output queue
    | Exited

  datatype Tally = Tally(passed: nat, failed: nat, valgrind: nat, crashed: nat, skipped: nat)

  /** One skip flag per job in dispatch order, and the number of worker threads. */
  datatype Config = Config(skips: seq<bool>, processors: nat)

  /** The loop counters of main are its program counter.  `collected` logs what main took from
      the output queue, `late` counts per worker the launches made with the flag raised. */
  datatype State = State(
    workers: seq<Worker>, input: seq<Job>, output: seq<Job>, threadExit: bool,
    jobs: nat, breaks: nat, joined: nat, tally: Tally,
    collected: seq<Job>, late: seq<nat>)

  /** A worker step carries the return code the process ends with, should it end in that step. */
  datatype Action = Main | Work(w: nat, rc: int) | Interrupt

  const BREAK_TOKEN := Job(0, true, false, false, 0)

  function NewJob(c: Config, id: nat): Job
    requires id < |c.skips|
  {
    Job(id, false, c.skips[id], false, 0)
  }

  function Init(): State {
    State([], [], [], false, 0, 0, 0, Tally(0, 0, 0, 0, 0), [], [])
  }

  predicate Done(c: Config, s: State) {
    && |s.workers| == c.processors && s.jobs == |c.skips| && s.breaks == c.processors
    && |s.collected| == |c.skips| && s.joined == c.processors
  }

  predicate Enabled(c: Config, s: State, a: Action) {
    match a
    case Main =>
      if |s.workers| < c.processors || s.jobs < |c.skips| || s.breaks < c.processors then true
      else if |s.collected| < |c.skips| then s.output != []
      else s.joined < c.processors && s.joined < |s.workers| && s.workers[s.joined].Exited?
    case Work(w, _) =>
      w < |s.workers| && !s.workers[w].Exited? && (s.workers[w].Waiting? ==> s.input != [])
    case Interrupt => !s.threadExit
  }

  function Count(t: Tally, j: Job): Tally {
    if j.isBreak then t
    else if j.isSkip then t.(skipped := t.skipped + 1)
    else if j.returncode == 0 then t.(passed := t.passed + 1)
    else if j.returncode == 1 then t.(failed := t.failed + 1)
    else if j.returncode == 2 then t.(valgrind := t.valgrind + 1)
    else t.(crashed := t.crashed + 1)
  }

  function MainNext(c: Config, s: State): State
    requires Enabled(c, s, Main)
  {
    if |s.workers| < c.processors then
      s.(workers := s.workers + [Waiting], late := s.late + [0])
    else if s.jobs < |c.skips| then
      s.(input := s.input + [NewJob(c, s.jobs)], jobs := s.jobs + 1)
    else if s.breaks < c.processors then
      s.(input := s.input + [BREAK_TOKEN], breaks := s.breaks + 1)
    else if |s.collected| < |c.skips| then
      s.(output := s.output[1..], collected := s.collected + [s.output[0]],
         tally := Count(s.tally, s.output[0]))
    else
      s.(joined := s.joined + 1)
  }

  function WorkNext(c: Config, s: State, w: nat, rc: int): State
    requires Enabled(c, s, Work(w, rc))
  {
    match s.workers[w]
    case Waiting =>
      var j := s.input[0];
      s.(input := s.input[1..], workers := s.workers[w := if j.isBreak then Exited else Holding(j)])
    case Holding(j) =>
      var next := if s.threadExit then Reporting(j.(isBreak := true))
                  else if j.isSkip then Reporting(j) else Cleared(j);
      s.(workers := s.workers[w := next])
    case Cleared(j) =>
      s.(workers := s.workers[w := Running(j.(launched := true))],
         late := if s.threadExit && w < |s.late| then s.late[w := s.late[w] + 1] else s.late)
    case Running(j) =>
      s.(workers := s.workers[w := Reporting(j.(returncode := rc))])
    case Reporting(j) =>
      s.(workers := s.workers[w := Waiting], output := s.output + [j])
  }

  function Next(c: Config, s: State, a: Action): State
    requires Enabled(c, s, a)
  {
    match a
    case Main => MainNext(c, s)
    case Work(w, rc) => WorkNext(c, s, w, rc)
    case Interrupt => s.(threadExit := true)
  }

  // ---------------------------------------------------------------- Where the jobs are

  /** Counts the job with this id; in the input queue a set break flag means a token, not a job. */
  function AtInput(id: nat): Job -> nat {
    (j: Job) => if j.id == id && !j.isBreak then 1 else 0
  }

  function At(id: nat): Job -> nat {
    (j: Job) => if j.id == id then 1 else 0
  }

  function AtWorker(id: nat): Worker -> nat {
    (w: Worker) => if !w.Waiting? && !w.Exited? && w.job.id == id then 1 else 0
  }

  /** The number of places that hold job `id`: input queue, workers, output queue, collected. */
  function Places(s: State, id: nat): nat {
    Sum(AtInput(id), s.input) + Sum(AtWorker(id), s.workers)
    + Sum(At(id), s.output) + Sum(At(id), s.collected)
  }

  // ---------------------------------------------------------------- Work left

  const JOB_WEIGHT: Job -> nat := (j: Job) => if j.isBreak then 1 else 6

  const WORKER_WEIGHT: Worker -> nat :=
    (w: Worker) => match w
      case Holding(_) => 5
      case Cleared(_) => 4
      case Running(_) => 3
      case Reporting(_) => 2
      case _ => 0

  /** The protocol steps still ahead of main, the workers and the interrupt handler, at most. */
  function Measure(c: Config, s: State): int {
    (c.processors - |s.workers|) + 7 * (|c.skips| - s.jobs) + 2 * (c.processors - s.breaks)
    + Sum(JOB_WEIGHT, s.input) + Sum(WORKER_WEIGHT, s.workers) + |s.output|
    + (c.processors - s.joined) + (if s.threadExit then 0 else 1)
  }

  const IS_TOKEN: Job -> nat := (j: Job) => if j.isBreak then 1 else 0
  const HAS_EXITED: Worker -> nat := (w: Worker) => if w.Exited? then 1 else 0

  // ---------------------------------------------------------------- The invariant

  /** A job no worker has decided about yet. */
  predicate Fresh(c: Config, j: Job) {
    j.id < |c.skips| && j == NewJob(c, j.id)
  }

  /** A reported job: interrupted or skipped without a launch, or launched and run to its end. */
  predicate Settled(c: Config, flag: bool, j: Job) {
    && j.id < |c.skips| && j.isSkip == c.skips[j.id]
    && (j.launched <==> !j.isBreak && !j.isSkip)
    && (j.isBreak ==> flag)
  }

  predicate WorkerOk(c: Config, flag: bool, w: Worker) {
    match w
    case Holding(j) => Fresh(c, j)
    case Cleared(j) => Fresh(c, j) && !j.isSkip
    case Running(j) => Settled(c, flag, j) && j.launched
    case Reporting(j) => Settled(c, flag, j)
    case _ => true
  }

  /** Main runs its loops in order. */
  predicate PhasesOk(c: Config, s: State) {
    && |s.workers| <= c.processors && s.jobs <= |c.skips| && s.breaks <= c.processors
    && |s.collected| <= |c.skips| && s.joined <= c.processors
    && (s.jobs > 0 || s.breaks > 0 ==> |s.workers| == c.processors)
    && (s.breaks > 0 || s.collected != [] || s.joined > 0 ==> s.jobs == |c.skips|)
    && (s.collected != [] || s.joined > 0 ==> s.breaks == c.processors)
    && (s.joined > 0 ==> |s.collected| == |c.skips|)
  }

  /** Real jobs come before break tokens, and once a worker has left no real job is queued. */
  predicate QueueOk(c: Config, s: State) {
    && (forall i :: 0 <= i < |s.input| ==> s.input[i].isBreak || Fresh(c, s.input[i]))
    && (forall i, k :: 0 <= i < k < |s.input| && s.input[i].isBreak ==> s.input[k].isBreak)
    && ((exists w :: 0 <= w < |s.workers| && s.workers[w].Exited?) ==>
         forall i :: 0 <= i < |s.input| ==> s.input[i].isBreak)
    && Sum(IS_TOKEN, s.input) + Sum(HAS_EXITED, s.workers) == s.breaks
  }

  predicate JobsOk(c: Config, s: State) {
    && (forall i :: 0 <= i < |s.workers| ==> WorkerOk(c, s.threadExit, s.workers[i]))
    && (forall i :: 0 <= i < |s.output| ==> Settled(c, s.threadExit, s.output[i]))
    && (forall i :: 0 <= i < |s.collected| ==> Settled(c, s.threadExit, s.collected[i]))
    && s.joined <= |s.workers| && (forall i :: 0 <= i < s.joined ==> s.workers[i].Exited?)
  }

  ghost predicate OnePlace(s: State) {
    forall id: nat :: Places(s, id) == if id < s.jobs then 1 else 0
  }

  /** The total of the ids' places, so that jobs can be counted. */
  predicate CountOk(s: State) {
    Sum(IS_REAL, s.input) + Sum(HOLDS, s.workers) + |s.output| + |s.collected| == s.jobs
  }

  const IS_REAL: Job -> nat := (j: Job) => if j.isBreak then 0 else 1
  const HOLDS: Worker -> nat := (w: Worker) => if w.Waiting? || w.Exited? then 0 else 1

  /** A worker launches at most one job after the flag went up: the one it had cleared before. */
  predicate LateOk(s: State) {
    && |s.late| == |s.workers|
    && forall w :: 0 <= w < |s.workers| ==>
         && s.late[w] <= 1
         && (!s.threadExit ==> s.late[w] == 0)
         && (s.threadExit && s.workers[w].Cleared? ==> s.late[w] == 0)
  }

  ghost predicate Inv(c: Config, s: State) {
    && PhasesOk(c, s) && QueueOk(c, s) && JobsOk(c, s) && OnePlace(s) && CountOk(s) && LateOk(s)
    && TallyOk(s)
  }

  // ---------------------------------------------------------------- What main counts

  datatype Verdict = Interrupted | Skip | Pass | Fail | Valgr | Crash

  function VerdictOf(j: Job): Verdict {
    if j.isBreak then Interrupted else if j.isSkip then Skip
    else if j.returncode == 0 then Pass else if j.returncode == 1 then Fail
    else if j.returncode == 2 then Valgr else Crash
  }

  function Is(v: Verdict): Job -> nat {
    (j: Job) => if VerdictOf(j) == v then 1 else 0
  }

  predicate TallyOk(s: State) {
    s.tally == Tally(Sum(Is(Pass), s.collected), Sum(Is(Fail), s.collected),
                     Sum(Is(Valgr), s.collected), Sum(Is(Crash), s.collected),
                     Sum(Is(Skip), s.collected))
  }

  // ---------------------------------------------------------------- Every step keeps the invariant

  lemma StepPhases(c: Config, s: State, a: Action)
    requires PhasesOk(c, s) && Enabled(c, s, a)
    ensures PhasesOk(c, Next(c, s, a))
  {
  }

  lemma MainKeepsJobs(c: Config, s: State)
    requires JobsOk(c, s) && LateOk(s) && Enabled(c, s, Main)
    ensures JobsOk(c, MainNext(c, s)) && LateOk(MainNext(c, s))
  {
  }

  lemma WorkKeepsJobs(c: Config, s: State, w: nat, rc: int)
    requires JobsOk(c, s) && LateOk(s) && Enabled(c, s, Work(w, rc))
    requires s.input != [] ==> s.input[0].isBreak || Fresh(c, s.input[0])
    ensures JobsOk(c, WorkNext(c, s, w, rc)) && LateOk(WorkNext(c, s, w, rc))
  {
  }

  /** How one step changes a sum over the input queue and one over the workers. */
  lemma StepSums(f: Job -> nat, g: Worker -> nat, c: Config, s: State, a: Action)
    requires Enabled(c, s, a)
    ensures var t := Next(c, s, a);
      match a
      case Main =>
        && Sum(f, t.input) == Sum(f, s.input) + (if |t.input| > |s.input| then f(t.input[|s.input|]) else 0)
        && Sum(g, t.workers) == Sum(g, s.workers) + (if |t.workers| > |s.workers| then g(Waiting) else 0)
      case Work(w, _) =>
        && Sum(f, s.input) == Sum(f, t.input) + (if s.workers[w].Waiting? then f(s.input[0]) else 0)
        && Sum(g, t.workers) + g(s.workers[w]) == Sum(g, s.workers) + g(t.workers[w])
      case Interrupt => t.input == s.input && t.workers == s.workers
  {
    var t := Next(c, s, a);
    match a
    case Main =>
      if |s.workers| < c.processors { SumAppend(g, s.workers, Waiting); }
      if |t.input| > |s.input| { SumAppend(f, s.input, t.input[|s.input|]); }
    case Work(w, _) => SumUpdate(g, s.workers, w, t.workers[w]);
    case Interrupt =>
  }

  /** How one step changes a sum over the output queue and one over the collected jobs. */
  lemma StepLogs(f: Job -> nat, c: Config, s: State, a: Action)
    requires Enabled(c, s, a)
    ensures var t := Next(c, s, a);
      && Sum(f, t.collected) == Sum(f, s.collected) + (if |t.collected| > |s.collected| then f(s.output[0]) else 0)
      && Sum(f, t.output) + (if |t.collected| > |s.collected| then f(s.output[0]) else 0)
         == Sum(f, s.output) + (if |t.output| > |s.output| then f(t.output[|s.output|]) else 0)
  {
    var t := Next(c, s, a);
    if |t.collected| > |s.collected| { SumAppend(f, s.collected, s.output[0]); }
    if |t.output| > |s.output| { SumAppend(f, s.output, t.output[|s.output|]); }
  }

  lemma StepTokens(c: Config, s: State, a: Action)
    requires Enabled(c, s, a)
    requires Sum(IS_TOKEN, s.input) + Sum(HAS_EXITED, s.workers) == s.breaks
    ensures var t := Next(c, s, a); Sum(IS_TOKEN, t.input) + Sum(HAS_EXITED, t.workers) == t.breaks
  {
    StepSums(IS_TOKEN, HAS_EXITED, c, s, a);
    if a.Work? {
      match s.workers[a.w]
      case Waiting =>
      case Holding(_) =>
      case Cleared(_) =>
      case Running(_) =>
      case Reporting(_) =>
    }
  }

  lemma MainKeepsQueue(c: Config, s: State)
    requires PhasesOk(c, s) && QueueOk(c, s) && Enabled(c, s, Main)
    ensures QueueOk(c, MainNext(c, s))
  {
    hide Sum;
    StepTokens(c, s, Main);
    SumPositive(IS_TOKEN, s.input);
    SumPositive(HAS_EXITED, s.workers);
    var t := MainNext(c, s);
    if |t.input| > |s.input| {
      assert forall i :: 0 <= i < |s.input| ==> t.input[i] == s.input[i];
    }
  }

  lemma WorkKeepsQueue(c: Config, s: State, w: nat, rc: int)
    requires QueueOk(c, s) && Enabled(c, s, Work(w, rc))
    ensures QueueOk(c, WorkNext(c, s, w, rc))
  {
    hide Sum;
    StepTokens(c, s, Work(w, rc));
    var t := WorkNext(c, s, w, rc);
    assert forall i :: 0 <= i < |t.workers| && i != w ==> t.workers[i] == s.workers[i];
    if s.workers[w].Waiting? {
      assert forall i :: 0 <= i < |t.input| ==> t.input[i] == s.input[i + 1];
      if s.input[0].isBreak {
        assert forall i :: 0 <= i < |t.input| ==> t.input[i].isBreak;
      }
    }
  }

  /** A step moves jobs between places; only a dispatch adds one. */
  lemma StepPlaces(c: Config, s: State, a: Action, id: nat)
    requires Enabled(c, s, a)
    ensures var t := Next(c, s, a);
      Places(t, id) == Places(s, id) + if t.jobs > s.jobs && id == s.jobs then 1 else 0
  {
    StepSums(AtInput(id), AtWorker(id), c, s, a);
    StepLogs(At(id), c, s, a);
    if a.Work? {
      match s.workers[a.w]
      case Waiting =>
      case Holding(_) =>
      case Cleared(_) =>
      case Running(_) =>
      case Reporting(_) =>
    }
  }

  lemma StepOnePlace(c: Config, s: State, a: Action)
    requires OnePlace(s) && Enabled(c, s, a)
    ensures OnePlace(Next(c, s, a))
  {
    forall id: nat ensures Places(Next(c, s, a), id) == if id < Next(c, s, a).jobs then 1 else 0 {
      StepPlaces(c, s, a, id);
    }
  }

  lemma StepCount(c: Config, s: State, a: Action)
    requires CountOk(s) && Enabled(c, s, a)
    ensures CountOk(Next(c, s, a))
  {
    StepSums(IS_REAL, HOLDS, c, s, a);
    if a.Work? {
      match s.workers[a.w]
      case Waiting =>
      case Holding(_) =>
      case Cleared(_) =>
      case Running(_) =>
      case Reporting(_) =>
    }
  }

  lemma StepTally(c: Config, s: State, a: Action)
    requires TallyOk(s) && Enabled(c, s, a)
    ensures TallyOk(Next(c, s, a))
  {
    hide Sum;
    StepLogs(Is(Pass), c, s, a);
    StepLogs(Is(Fail), c, s, a);
    StepLogs(Is(Valgr), c, s, a);
    StepLogs(Is(Crash), c, s, a);
    StepLogs(Is(Skip), c, s, a);
  }

  lemma StepKeepsInv(c: Config, s: State, a: Action)
    requires Inv(c, s) && Enabled(c, s, a)
    ensures Inv(c, Next(c, s, a))
  {
    StepPhases(c, s, a);
    match a {
      case Main => MainKeepsJobs(c, s); MainKeepsQueue(c, s);
      case Work(w, rc) => WorkKeepsJobs(c, s, w, rc); WorkKeepsQueue(c, s, w, rc);
      case Interrupt =>
    }
    StepOnePlace(c, s, a);
    StepCount(c, s, a);
    StepTally(c, s, a);
  }

  lemma StepFallsMeasure(c: Config, s: State, a: Action)
    requires PhasesOk(c, s) && Enabled(c, s, a)
    ensures 0 <= Measure(c, Next(c, s, a)) < Measure(c, s)
  {
    hide Sum;
    StepPhases(c, s, a);
    StepSums(JOB_WEIGHT, WORKER_WEIGHT, c, s, a);
    if a.Work? {
      match s.workers[a.w]
      case Waiting =>
      case Holding(_) =>
      case Cleared(_) =>
      case Running(_) =>
      case Reporting(_) =>
    }
  }

  // ---------------------------------------------------------------- Runs

  ghost predicate CanStep(c: Config, s: State, t: State) {
    exists a :: Enabled(c, s, a) && t == Next(c, s, a)
  }

  /** Any interleaving of main, the workers and interrupts, from the start. */
  ghost predicate IsRun(c: Config, run: seq<State>) {
    && run != [] && run[0] == Init()
    && forall i :: 0 <= i < |run| - 1 ==> CanStep(c, run[i], run[i + 1])
  }

  /** Neither main nor a worker can move. */
  ghost predicate Stuck(c: Config, s: State) {
    !Enabled(c, s, Main) && forall w: nat, rc: int :: !Enabled(c, s, Work(w, rc))
  }

  lemma InitInv(c: Config)
    ensures Inv(c, Init())
  {
  }

  /** Every step keeps the invariant and leaves less to do. */
  lemma StepInv(c: Config, s: State, a: Action)
    requires Inv(c, s) && Enabled(c, s, a)
    ensures var t := Next(c, s, a); Inv(c, t) && 0 <= Measure(c, t) < Measure(c, s)
  {
    StepKeepsInv(c, s, a);
    StepFallsMeasure(c, s, a);
  }

  lemma {:induction false} RunInv(c: Config, run: seq<State>)
    requires IsRun(c, run)
    ensures Inv(c, run[|run| - 1])
    ensures |run| - 1 + Measure(c, run[|run| - 1]) <= Measure(c, Init())
    ensures Measure(c, run[|run| - 1]) >= 0
  {
    var n := |run|;
    if n == 1 {
      InitInv(c);
    } else {
      RunInv(c, run[..n - 1]);
      assert CanStep(c, run[n - 2], run[n - 2 + 1]);
      var a :| Enabled(c, run[n - 2], a) && run[n - 1] == Next(c, run[n - 2], a);
      StepInv(c, run[n - 2], a);
    }
  }

  /** Every interleaving is short: no schedule can keep the protocol going. */
  lemma RunsAreBounded(c: Config, run: seq<State>)
    requires IsRun(c, run)
    ensures |run| <= 4 * c.processors + 7 * |c.skips| + 2
  {
    RunInv(c, run);
  }

  /** In every reachable state each dispatched job is in exactly one place, so it is reported at
      most once; the input queue is jobs and then break tokens; and while a job is still queued
      no worker has left. */
  lemma EveryRunIsSafe(c: Config, run: seq<State>)
    requires IsRun(c, run)
    ensures var s := run[|run| - 1];
      && (forall id: nat :: Places(s, id) == if id < s.jobs then 1 else 0)
      && (forall i, k :: 0 <= i < k < |s.input| && s.input[i].isBreak ==> s.input[k].isBreak)
      && (forall i, w :: 0 <= i < |s.input| && !s.input[i].isBreak && 0 <= w < |s.workers|
            ==> !s.workers[w].Exited?)
      && (forall w :: 0 <= w < |s.late| ==> s.late[w] <= 1)
  {
    RunInv(c, run);
  }

  // ---------------------------------------------------------------- Interrupt

  /** The flag is up, and whoever decides about job `id`, or has decided, reports it as a break. */
  ghost predicate WillBreak(s: State, id: nat) {
    && s.threadExit
    && (forall w :: 0 <= w < |s.workers| ==>
          match s.workers[w]
          case Cleared(j) => j.id != id
          case Running(j) => j.id != id
          case Reporting(j) => j.id == id ==> j.isBreak
          case _ => true)
    && (forall i :: 0 <= i < |s.output| && s.output[i].id == id ==> s.output[i].isBreak)
    && (forall i :: 0 <= i < |s.collected| && s.collected[i].id == id ==> s.collected[i].isBreak)
  }

  lemma StepKeepsWillBreak(c: Config, s: State, t: State, id: nat)
    requires WillBreak(s, id) && CanStep(c, s, t)
    ensures WillBreak(t, id)
  {
  }

  lemma {:induction false} WillBreakLasts(c: Config, run: seq<State>, k: nat, id: nat)
    requires IsRun(c, run) && k < |run| && WillBreak(run[k], id)
    ensures WillBreak(run[|run| - 1], id)
  {
    hide WillBreak, CanStep;
    var n := |run|;
    if k < n - 1 {
      WillBreakLasts(c, run[..n - 1], k, id);
      assert CanStep(c, run[n - 2], run[n - 2 + 1]);
      StepKeepsWillBreak(c, run[n - 2], run[n - 1], id);
    }
  }

  /** Job `id` is not dispatched yet, or queued, or taken by a worker that has not read the flag. */
  ghost predicate Undecided(s: State, id: nat) {
    || id >= s.jobs
    || (exists i :: 0 <= i < |s.input| && !s.input[i].isBreak && s.input[i].id == id)
    || (exists w :: 0 <= w < |s.workers| && s.workers[w].Holding? && s.workers[w].job.id == id)
  }

  /** An undecided job is at no worker past the flag, and not reported. */
  lemma UndecidedIsNowhereElse(s: State, id: nat)
    requires OnePlace(s) && Undecided(s, id)
    ensures forall w :: 0 <= w < |s.workers| && AtWorker(id)(s.workers[w]) > 0 ==> s.workers[w].Holding?
    ensures Sum(At(id), s.output) == 0 && Sum(At(id), s.collected) == 0
  {
    hide Sum;
    assert Places(s, id) == if id < s.jobs then 1 else 0;
    SumPositive(AtWorker(id), s.workers);
    if i :| 0 <= i < |s.input| && !s.input[i].isBreak && s.input[i].id == id {
      SumPositive(AtInput(id), s.input);
      assert AtInput(id)(s.input[i]) == 1;
    } else if w :| 0 <= w < |s.workers| && s.workers[w].Holding? && s.workers[w].job.id == id {
      SumUpdate(AtWorker(id), s.workers, w, Waiting);
      SumPositive(AtWorker(id), s.workers[w := Waiting]);
      assert AtWorker(id)(s.workers[w]) == 1 && AtWorker(id)(Waiting) == 0;
      assert forall v :: 0 <= v < |s.workers| && v != w ==> s.workers[w := Waiting][v] == s.workers[v];
    }
  }

  lemma UndecidedWillBreak(s: State, id: nat)
    requires OnePlace(s) && s.threadExit && Undecided(s, id)
    ensures WillBreak(s, id)
  {
    hide Sum, OnePlace, Undecided;
    UndecidedIsNowhereElse(s, id);
    SumPositive(At(id), s.output);
    SumPositive(At(id), s.collected);
    forall w | 0 <= w < |s.workers| && AtWorker(id)(s.workers[w]) > 0 ensures s.workers[w].Holding? {}
    assert forall i :: 0 <= i < |s.output| ==> At(id)(s.output[i]) == 0;
    assert forall i :: 0 <= i < |s.collected| ==> At(id)(s.collected[i]) == 0;
  }

  /** A job about which no worker has decided when the flag is up is never launched: no worker
      gets to run it, and its only report, skip flag or not, is that it was interrupted. */
  lemma InterruptStopsUndecided(c: Config, run: seq<State>, k: nat, id: nat)
    requires IsRun(c, run) && k < |run| && run[k].threadExit && Undecided(run[k], id)
    ensures var s := run[|run| - 1];
      && (forall w :: 0 <= w < |s.workers| && AtWorker(id)(s.workers[w]) > 0 ==>
            !s.workers[w].Cleared? && !s.workers[w].Running? && !s.workers[w].job.launched)
      && (forall i :: 0 <= i < |s.output| && s.output[i].id == id ==> !s.output[i].launched)
      && (forall i :: 0 <= i < |s.collected| && s.collected[i].id == id ==>
            !s.collected[i].launched && VerdictOf(s.collected[i]) == Interrupted)
  {
    hide Sum, OnePlace, Undecided, PhasesOk, QueueOk, CountOk, LateOk, TallyOk;
    assert run[..k + 1][k] == run[k];
    RunInv(c, run[..k + 1]);
    UndecidedWillBreak(run[k], id);
    WillBreakLasts(c, run, k, id);
    RunInv(c, run);
  }

  // ---------------------------------------------------------------- No deadlock

  lemma {:induction false} SumZeroOrWitness<T>(f: T -> nat, q: seq<T>) returns (i: nat)
    ensures Sum(f, q) == 0 || (i < |q| && f(q[i]) > 0)
    ensures Sum(f, q) == 0 ==> forall k :: 0 <= k < |q| ==> f(q[k]) == 0
  {
    SumPositive(f, q);
    i := 0;
    if Sum(f, q) > 0 { i :| 0 <= i < |q| && f(q[i]) > 0; }
  }

  /** With a worker, or with nothing to do, only the final state is stuck. */
  lemma NotStuck(c: Config, s: State)
    requires Inv(c, s) && !Done(c, s)
    requires c.processors > 0 || c.skips == []
    ensures Enabled(c, s, Main) || exists w: nat :: w < |s.workers| && Enabled(c, s, Work(w, 0))
  {
    if !Enabled(c, s, Main) {
      var w := SumZeroOrWitness(HOLDS, s.workers);
      if Sum(HOLDS, s.workers) > 0 {
        assert Enabled(c, s, Work(w, 0));
      } else {
        var waiter := WaitingWorker(c, s);
        assert Enabled(c, s, Work(waiter, 0));
      }
    }
  }

  /** When main is blocked and no worker holds a job, some worker can take from the queue. */
  lemma WaitingWorker(c: Config, s: State) returns (w: nat)
    requires Inv(c, s) && !Done(c, s) && !Enabled(c, s, Main)
    requires c.processors > 0 || c.skips == []
    requires Sum(HOLDS, s.workers) == 0
    ensures w < |s.workers| && s.workers[w].Waiting? && s.input != []
  {
    var _ := SumZeroOrWitness(HOLDS, s.workers);
    var j := SumZeroOrWitness(IS_REAL, s.input);
    var e := SumZeroOrWitness(HAS_EXITED, s.workers);
    if |s.collected| < |c.skips| {
      assert Sum(IS_REAL, s.input) > 0;
      w := 0;
      assert !s.workers[w].Exited?;
    } else {
      w := s.joined;
      ExitedFewer(s.workers, w);
    }
  }

  lemma {:induction false} ExitedFewer(ws: seq<Worker>, w: nat)
    requires w < |ws| && !ws[w].Exited?
    ensures Sum(HAS_EXITED, ws) < |ws|
  {
    if w == 0 {
      ExitedAtMost(ws[1..]);
    } else {
      assert ws[1..][w - 1] == ws[w];
      ExitedFewer(ws[1..], w - 1);
    }
  }

  lemma {:induction false} ExitedAtMost(ws: seq<Worker>)
    ensures Sum(HAS_EXITED, ws) <= |ws|
    ensures (forall i :: 0 <= i < |ws| ==> ws[i].Exited?) ==> Sum(HAS_EXITED, ws) == |ws|
  {
    if ws != [] {
      ExitedAtMost(ws[1..]);
      assert forall i :: 0 <= i < |ws[1..]| ==> ws[1..][i] == ws[i + 1];
    }
  }

  /** Without workers a run dispatches its jobs and then waits for a result for ever. */
  ghost function DispatchRun(c: Config, n: nat): (run: seq<State>)
    requires c.processors == 0 && n <= |c.skips|
    ensures |run| == n + 1 && run[0] == Init()
    ensures run[n].jobs == n && run[n].workers == [] && run[n].output == [] && run[n].collected == []
    ensures run[n].breaks == 0 && run[n].joined == 0
    ensures forall i :: 0 <= i < n ==> CanStep(c, run[i], run[i + 1])
  {
    if n == 0 then [Init()]
    else
      var head := DispatchRun(c, n - 1);
      assert Enabled(c, head[n - 1], Main);
      assert CanStep(c, head[n - 1], MainNext(c, head[n - 1]));
      head + [MainNext(c, head[n - 1])]
  }

  /** Every run that cannot go on has finished. */
  ghost predicate AlwaysFinishes(c: Config) {
    forall run :: IsRun(c, run) && Stuck(c, run[|run| - 1]) ==> Done(c, run[|run| - 1])
  }

  /** The runner always finishes exactly when it has a worker or no job to run. */
  lemma FinishesIff(c: Config)
    ensures AlwaysFinishes(c) <==> (c.processors > 0 || c.skips == [])
  {
    if c.processors > 0 || c.skips == [] {
      forall run | IsRun(c, run) && Stuck(c, run[|run| - 1]) ensures Done(c, run[|run| - 1]) {
        RunInv(c, run);
        if !Done(c, run[|run| - 1]) { NotStuck(c, run[|run| - 1]); }
      }
    } else {
      var run := DispatchRun(c, |c.skips|);
      assert IsRun(c, run);
      assert Stuck(c, run[|run| - 1]);
    }
  }

  // ---------------------------------------------------------------- The final report

  function Status(s: State): int {
    if s.tally.passed + s.tally.skipped == s.jobs then 0 else 1
  }

  predicate Good(j: Job) {
    !j.isBreak && (j.isSkip || (j.launched && j.returncode == 0))
  }

  lemma {:induction false} VerdictsPartition(q: seq<Job>)
    ensures Sum(Is(Interrupted), q) + Sum(Is(Skip), q) + Sum(Is(Pass), q) + Sum(Is(Fail), q)
          + Sum(Is(Valgr), q) + Sum(Is(Crash), q) == |q|
  {
    if q != [] { VerdictsPartition(q[1..]); }
  }

  lemma {:induction false} AllGood(c: Config, flag: bool, q: seq<Job>)
    requires forall i :: 0 <= i < |q| ==> Settled(c, flag, q[i])
    ensures Sum(Is(Pass), q) + Sum(Is(Skip), q) <= |q|
    ensures Sum(Is(Pass), q) + Sum(Is(Skip), q) == |q| <==> forall i :: 0 <= i < |q| ==> Good(q[i])
  {
    if q != [] {
      assert forall i :: 0 <= i < |q[1..]| ==> q[1..][i] == q[i + 1];
      AllGood(c, flag, q[1..]);
      assert Is(Pass)(q[0]) + Is(Skip)(q[0]) == 1 <==> Good(q[0]);
      if Good(q[0]) && forall i :: 0 <= i < |q[1..]| ==> Good(q[1..][i]) {
        assert forall i :: 0 < i < |q| ==> q[i] == q[1..][i - 1];
      }
    }
  }

  /** What main has when it returns: one result for each job and all threads gone. */
  lemma FinalReport(c: Config, s: State)
    requires Inv(c, s) && Done(c, s)
    ensures forall id: nat :: id < |c.skips| ==> Sum(At(id), s.collected) == 1
    ensures s.input == [] && s.output == []
    ensures forall w :: 0 <= w < |s.workers| ==> s.workers[w].Exited?
    ensures forall i :: 0 <= i < |s.collected| ==> Settled(c, s.threadExit, s.collected[i])
    ensures s.tally.passed + s.tally.failed + s.tally.valgrind + s.tally.crashed + s.tally.skipped
            + Sum(Is(Interrupted), s.collected) == |c.skips|
    ensures Status(s) == 0 <==> forall i :: 0 <= i < |s.collected| ==> Good(s.collected[i])
  {
    VerdictsPartition(s.collected);
    AllGood(c, s.threadExit, s.collected);
    ExitedAtMost(s.workers);
    var _ := SumZeroOrWitness(IS_REAL, s.input);
    var _ := SumZeroOrWitness(IS_TOKEN, s.input);
    forall id: nat | id < |c.skips| ensures Sum(At(id), s.collected) == 1 {
      assert Places(s, id) == 1;
      SumPositive(AtWorker(id), s.workers);
    }
  }

  // ---------------------------------------------------------------- Exit codes

  /** The report of a job whose process ended with this code. */
  predicate Carries(j: Job, rc: int) {
    j.launched && !j.isBreak && !j.isSkip && j.returncode == rc
  }

  /** Job `id` has ended, and wherever it is, it carries the code. */
  ghost predicate Ended(s: State, id: nat, rc: int) {
    && id < s.jobs
    && (forall i :: 0 <= i < |s.input| && s.input[i].id == id ==> s.input[i].isBreak)
    && (forall w :: 0 <= w < |s.workers| && AtWorker(id)(s.workers[w]) > 0 ==>
          s.workers[w].Reporting? && Carries(s.workers[w].job, rc))
    && (forall i :: 0 <= i < |s.output| && s.output[i].id == id ==> Carries(s.output[i], rc))
    && (forall i :: 0 <= i < |s.collected| && s.collected[i].id == id ==> Carries(s.collected[i], rc))
  }

  lemma StepKeepsEnded(c: Config, s: State, a: Action, id: nat, rc: int)
    requires Ended(s, id, rc) && Enabled(c, s, a)
    ensures Ended(Next(c, s, a), id, rc)
  {
  }

  /** A job that a worker has is nowhere else. */
  lemma NowhereElse(s: State, w: nat)
    requires OnePlace(s) && w < |s.workers| && !s.workers[w].Waiting? && !s.workers[w].Exited?
    ensures var id := s.workers[w].job.id;
      && id < s.jobs
      && (forall i :: 0 <= i < |s.input| && s.input[i].id == id ==> s.input[i].isBreak)
      && (forall v :: 0 <= v < |s.workers| && AtWorker(id)(s.workers[v]) > 0 ==> v == w)
      && (forall i :: 0 <= i < |s.output| ==> s.output[i].id != id)
      && (forall i :: 0 <= i < |s.collected| ==> s.collected[i].id != id)
  {
    hide Sum;
    var id := s.workers[w].job.id;
    var others := s.workers[w := Waiting];
    assert Places(s, id) == if id < s.jobs then 1 else 0;
    SumUpdate(AtWorker(id), s.workers, w, Waiting);
    SumPositive(AtWorker(id), others);
    SumPositive(AtInput(id), s.input);
    SumPositive(At(id), s.output);
    SumPositive(At(id), s.collected);
    assert AtWorker(id)(s.workers[w]) == 1 && AtWorker(id)(Waiting) == 0;
    assert forall v :: 0 <= v < |s.workers| && v != w ==> others[v] == s.workers[v];
    assert forall i :: 0 <= i < |s.input| ==> AtInput(id)(s.input[i]) == 0;
    assert forall i :: 0 <= i < |s.output| ==> At(id)(s.output[i]) == 0;
    assert forall i :: 0 <= i < |s.collected| ==> At(id)(s.collected[i]) == 0;
  }

  lemma RunningEnds(c: Config, s: State, w: nat, rc: int)
    requires Inv(c, s) && Enabled(c, s, Work(w, rc)) && s.workers[w].Running?
    ensures Ended(Next(c, s, Work(w, rc)), s.workers[w].job.id, rc)
  {
    hide Sum, OnePlace, PhasesOk, QueueOk, CountOk, LateOk, TallyOk;
    NowhereElse(s, w);
    assert WorkerOk(c, s.threadExit, s.workers[w]);
  }

  /** A run with the actions that make it. */
  ghost predicate IsTrace(c: Config, run: seq<State>, acts: seq<Action>) {
    && |run| == |acts| + 1 && run[0] == Init()
    && forall i :: 0 <= i < |acts| ==> Enabled(c, run[i], acts[i]) && run[i + 1] == Next(c, run[i], acts[i])
  }

  lemma {:induction false} TraceIsRun(c: Config, run: seq<State>, acts: seq<Action>)
    requires IsTrace(c, run, acts)
    ensures IsRun(c, run)
  {
    hide Enabled, Next, Init;
    forall i | 0 <= i < |run| - 1 ensures CanStep(c, run[i], run[i + 1]) {
      assert Enabled(c, run[i], acts[i]);
    }
  }

  /** Once a process has ended with a code, that code is what its job carries ever after, and so
      what main reads from its only report. */
  lemma {:induction false} ReportCarriesCode(c: Config, run: seq<State>, acts: seq<Action>, k: nat, m: nat)
    requires IsTrace(c, run, acts) && k < m < |run|
    requires acts[k].Work? && acts[k].w < |run[k].workers| && run[k].workers[acts[k].w].Running?
    ensures Ended(run[m], run[k].workers[acts[k].w].job.id, acts[k].rc)
    decreases m
  {
    hide Enabled, Next, Ended, Inv;
    if m == k + 1 {
      TraceIsRun(c, run, acts);
      assert IsRun(c, run[..k + 1]);
      RunInv(c, run[..k + 1]);
      RunningEnds(c, run[k], acts[k].w, acts[k].rc);
    } else {
      ReportCarriesCode(c, run, acts, k, m - 1);
      StepKeepsEnded(c, run[m - 1], acts[m - 1], run[k].workers[acts[k].w].job.id, acts[k].rc);
    }
  }

  /** All processes end as `exits` says. */
  predicate EndsAs(s: State, a: Action, exits: seq<int>) {
    a.Work? && a.w < |s.workers| && s.workers[a.w].Running? ==>
      s.workers[a.w].job.id < |exits| && a.rc == exits[s.workers[a.w].job.id]
  }

  predicate CodeOk(j: Job, exits: seq<int>) {
    j.launched ==> j.id < |exits| && j.returncode == exits[j.id]
  }

  predicate CodesOk(s: State, exits: seq<int>) {
    && (forall w :: 0 <= w < |s.workers| && s.workers[w].Reporting? ==> CodeOk(s.workers[w].job, exits))
    && (forall i :: 0 <= i < |s.output| ==> CodeOk(s.output[i], exits))
    && (forall i :: 0 <= i < |s.collected| ==> CodeOk(s.collected[i], exits))
  }

  lemma StepKeepsCodes(c: Config, s: State, a: Action, exits: seq<int>)
    requires Inv(c, s) && Enabled(c, s, a) && CodesOk(s, exits) && EndsAs(s, a, exits)
    ensures CodesOk(Next(c, s, a), exits)
  {
    hide Sum, OnePlace, PhasesOk, QueueOk, CountOk, LateOk, TallyOk;
    if a.Work? { assert WorkerOk(c, s.threadExit, s.workers[a.w]); }
  }

  lemma InitCodes(exits: seq<int>)
    ensures CodesOk(Init(), exits)
  {
  }

  lemma RunningId(c: Config, s: State, w: nat)
    requires Inv(c, s) && w < |s.workers| && s.workers[w].Running?
    ensures s.workers[w].job.id < |c.skips|
  {
    assert WorkerOk(c, s.threadExit, s.workers[w]);
  }

  // ---------------------------------------------------------------- The counts, by exit codes

  ghost function Ids(n: nat, p: nat -> bool): set<nat> {
    set id: nat | id < n && p(id)
  }

  /** The jobs that are reported as interrupted. */
  ghost function Stopped(q: seq<Job>): set<nat> {
    set i | 0 <= i < |q| && q[i].isBreak :: q[i].id
  }

  ghost function Reported(q: seq<Job>, p: nat -> bool): set<nat> {
    set i | 0 <= i < |q| && p(q[i].id) :: q[i].id
  }

  ghost predicate DistinctIds(q: seq<Job>) {
    forall i, j :: 0 <= i < j < |q| ==> q[i].id != q[j].id
  }

  lemma {:induction false} SumIsCardinality(f: Job -> nat, q: seq<Job>, p: nat -> bool)
    requires DistinctIds(q) && forall i :: 0 <= i < |q| ==> f(q[i]) == if p(q[i].id) then 1 else 0
    ensures Sum(f, q) == |Reported(q, p)|
  {
    if q != [] {
      var rest := q[1..];
      assert forall i :: 0 <= i < |rest| ==> rest[i] == q[i + 1];
      SumIsCardinality(f, rest, p);
      assert q[0].id !in Reported(rest, p);
      ReportedCons(q, p);
    }
  }

  lemma ReportedCons(q: seq<Job>, p: nat -> bool)
    requires q != []
    ensures Reported(q, p) == Reported(q[1..], p) + if p(q[0].id) then {q[0].id} else {}
  {
    var rest := q[1..];
    assert forall i :: 0 <= i < |rest| ==> rest[i] == q[i + 1];
    assert forall i :: 0 < i < |q| ==> q[i] == rest[i - 1];
    forall id | id in Reported(q, p) ensures id in Reported(rest, p) + (if p(q[0].id) then {q[0].id} else {}) {
      var i :| 0 <= i < |q| && p(q[i].id) && q[i].id == id;
      if i > 0 { assert rest[i - 1].id == id; }
    }
    forall id | id in Reported(rest, p) ensures id in Reported(q, p) {
      var i :| 0 <= i < |rest| && p(rest[i].id) && rest[i].id == id;
      assert q[i + 1].id == id;
    }
  }

  lemma {:induction false} TwiceCounts(q: seq<Job>, i: nat, j: nat)
    requires i < j < |q| && q[i].id == q[j].id
    ensures Sum(At(q[i].id), q) >= 2
  {
    var rest := q[1..];
    if i == 0 {
      SumPositive(At(q[0].id), rest);
      assert At(q[0].id)(rest[j - 1]) > 0;
    } else {
      assert rest[i - 1] == q[i] && rest[j - 1] == q[j];
      TwiceCounts(rest, i - 1, j - 1);
    }
  }

  /** One report for each job, and no others. */
  ghost predicate OneEach(q: seq<Job>, n: nat) {
    DistinctIds(q) && forall id: nat :: HasReport(q, id) <==> id < n
  }

  ghost predicate HasReport(q: seq<Job>, id: nat) {
    exists i :: 0 <= i < |q| && q[i].id == id
  }

  lemma OneReportEach(q: seq<Job>, n: nat)
    requires forall id: nat :: id < n ==> Sum(At(id), q) == 1
    requires forall i :: 0 <= i < |q| ==> q[i].id < n
    ensures OneEach(q, n)
  {
    hide Sum;
    forall i, j | 0 <= i < j < |q| ensures q[i].id != q[j].id {
      if q[i].id == q[j].id { TwiceCounts(q, i, j); }
    }
    forall id: nat | id < n ensures HasReport(q, id) {
      SumPositive(At(id), q);
      var i :| 0 <= i < |q| && At(id)(q[i]) > 0;
    }
  }

  lemma CountByIds(f: Job -> nat, q: seq<Job>, n: nat, p: nat -> bool)
    requires OneEach(q, n) && forall i :: 0 <= i < |q| ==> f(q[i]) == if p(q[i].id) then 1 else 0
    ensures Sum(f, q) == |Ids(n, p)|
  {
    SumIsCardinality(f, q, p);
    forall id: nat | id in Ids(n, p) ensures id in Reported(q, p) {
      assert HasReport(q, id);
      var i :| 0 <= i < |q| && q[i].id == id;
    }
    forall id: nat | id in Reported(q, p) ensures id in Ids(n, p) { assert HasReport(q, id); }
    assert Ids(n, p) == Reported(q, p);
  }

  lemma StoppedIff(q: seq<Job>, n: nat, i: nat)
    requires OneEach(q, n) && i < |q|
    ensures q[i].id in Stopped(q) <==> q[i].isBreak
  {
    if q[i].id in Stopped(q) {
      var k :| 0 <= k < |q| && q[k].isBreak && q[k].id == q[i].id;
      assert k == i;
    }
  }

  /** The counts of a final state are the numbers of jobs by what was configured for them and what
      their processes ended with. */
  ghost predicate CountsByCode(c: Config, t: Tally, stopped: set<nat>, exits: seq<int>)
    requires |exits| == |c.skips|
  {
    var n := |c.skips|;
    && t.passed == |Ids(n, (id: nat) => id < n && id !in stopped && !c.skips[id] && exits[id] == 0)|
    && t.failed == |Ids(n, (id: nat) => id < n && id !in stopped && !c.skips[id] && exits[id] == 1)|
    && t.valgrind == |Ids(n, (id: nat) => id < n && id !in stopped && !c.skips[id] && exits[id] == 2)|
    && t.crashed == |Ids(n, (id: nat) => id < n && id !in stopped && !c.skips[id] && exits[id] !in {0, 1, 2})|
    && t.skipped == |Ids(n, (id: nat) => id < n && id !in stopped && c.skips[id])|
  }

  lemma CountsAreByCode(c: Config, s: State, exits: seq<int>)
    requires Inv(c, s) && Done(c, s) && CodesOk(s, exits) && |exits| == |c.skips|
    ensures CountsByCode(c, s.tally, Stopped(s.collected), exits)
    ensures OneEach(s.collected, |c.skips|)
    ensures Stopped(s.collected) != {} ==> s.threadExit
    ensures Status(s) == 0 <==>
            Stopped(s.collected) == {} && forall id :: 0 <= id < |c.skips| ==> c.skips[id] || exits[id] == 0
  {
    hide Inv, Done, Sum, CodesOk, CountsByCode, JobFacts, TallyOk, Good;
    FinalReport(c, s);
    FinalFacts(c, s, exits);
    TallyByCode(c, s, exits);
    AllGoodByCode(c, s.collected, exits);
  }

  lemma FinalFacts(c: Config, s: State, exits: seq<int>)
    requires Inv(c, s) && Done(c, s) && CodesOk(s, exits) && |exits| == |c.skips|
    ensures OneEach(s.collected, |c.skips|) && TallyOk(s)
    ensures forall i :: 0 <= i < |s.collected| ==> JobFacts(c, s.collected[i], exits)
    ensures Stopped(s.collected) != {} ==> s.threadExit
  {
    hide Sum, TallyOk, OneEach;
    FinalReport(c, s);
    OneReportEach(s.collected, |c.skips|);
  }

  lemma TallyByCode(c: Config, s: State, exits: seq<int>)
    requires OneEach(s.collected, |c.skips|) && TallyOk(s) && |exits| == |c.skips|
    requires forall i :: 0 <= i < |s.collected| ==> JobFacts(c, s.collected[i], exits)
    ensures CountsByCode(c, s.tally, Stopped(s.collected), exits)
  {
    hide Sum, OneEach, Stopped, Ids;
    var q, n, stopped := s.collected, |c.skips|, Stopped(s.collected);
    forall i | 0 <= i < |q| ensures q[i].id in stopped <==> q[i].isBreak { StoppedIff(q, n, i); }
    CountByIds(Is(Pass), q, n, (id: nat) => id < n && id !in stopped && !c.skips[id] && exits[id] == 0);
    CountByIds(Is(Fail), q, n, (id: nat) => id < n && id !in stopped && !c.skips[id] && exits[id] == 1);
    CountByIds(Is(Valgr), q, n, (id: nat) => id < n && id !in stopped && !c.skips[id] && exits[id] == 2);
    CountByIds(Is(Crash), q, n, (id: nat) => id < n && id !in stopped && !c.skips[id] && exits[id] !in {0, 1, 2});
    CountByIds(Is(Skip), q, n, (id: nat) => id < n && id !in stopped && c.skips[id]);
  }

  /** What a settled report says of its job. */
  predicate JobFacts(c: Config, j: Job, exits: seq<int>) {
    && j.id < |c.skips| && j.id < |exits| && j.isSkip == c.skips[j.id]
    && (j.launched <==> !j.isBreak && !j.isSkip) && (j.launched ==> j.returncode == exits[j.id])
  }

  lemma AllGoodByCode(c: Config, q: seq<Job>, exits: seq<int>)
    requires OneEach(q, |c.skips|) && |exits| == |c.skips|
    requires forall i :: 0 <= i < |q| ==> JobFacts(c, q[i], exits)
    ensures (forall i :: 0 <= i < |q| ==> Good(q[i])) <==>
            Stopped(q) == {} && forall id :: 0 <= id < |c.skips| ==> c.skips[id] || exits[id] == 0
  {
    if forall i :: 0 <= i < |q| ==> Good(q[i]) {
      assert forall i :: 0 <= i < |q| ==> !q[i].isBreak;
      forall id: nat | id < |c.skips| ensures c.skips[id] || exits[id] == 0 {
        assert HasReport(q, id);
        var i :| 0 <= i < |q| && q[i].id == id;
        assert Good(q[i]) && JobFacts(c, q[i], exits);
      }
    }
    if Stopped(q) == {} {
      forall i | 0 <= i < |q| ensures !q[i].isBreak { StoppedIff(q, |c.skips|, i); }
    }
  }

  // ---------------------------------------------------------------- The program

  class TestRun {
    const c: Config
    var workers: seq<Worker>
    var inputQueue: seq<Job>
    var outputQueue: seq<Job>
    var threadExit: bool
    var jobs: nat
    var breaks: nat
    var joined: nat
    var passed: nat
    var failed: nat
    var valgrind: nat
    var crashed: nat
    var skipped: nat
    var collected: seq<Job>
    var late: seq<nat>

    function View(): State
      reads this
    {
      State(workers, inputQueue, outputQueue, threadExit, jobs, breaks, joined,
            Tally(passed, failed, valgrind, crashed, skipped), collected, late)
    }

    constructor (config: Config)
      ensures c == config && View() == Init()
    {
      c := config;
      workers, inputQueue, outputQueue, threadExit := [], [], [], false;
      jobs, breaks, joined := 0, 0, 0;
      passed, failed, valgrind, crashed, skipped := 0, 0, 0, 0, 0;
      collected, late := [], [];
    }

    /** The next atomic step of main's loops. */
    method MainStep()
      requires Enabled(c, View(), Main)
      modifies this
      ensures View() == MainNext(c, old(View()))
    {
      if |workers| < c.processors {
        workers, late := workers + [Waiting], late + [0];
      } else if jobs < |c.skips| {
        inputQueue := inputQueue + [NewJob(c, jobs)];
        jobs := jobs + 1;
      } else if breaks < c.processors {
        inputQueue := inputQueue + [BREAK_TOKEN];
        breaks := breaks + 1;
      } else if |collected| < |c.skips| {
        var job := outputQueue[0];
        outputQueue, collected := outputQueue[1..], collected + [job];
        if !job.isBreak {
          if job.isSkip {
            skipped := skipped + 1;
          } else if job.returncode == 0 {
            passed := passed + 1;
          } else if job.returncode == 1 {
            failed := failed + 1;
          } else if job.returncode == 2 {
            valgrind := valgrind + 1;
          } else {
            crashed := crashed + 1;
          }
        }
      } else {
        joined := joined + 1;
      }
    }

    /** The next atomic step of a worker's `run`. */
    method WorkerStep(w: nat, rc: int)
      requires Enabled(c, View(), Work(w, rc))
      modifies this
      ensures View() == WorkNext(c, old(View()), w, rc)
    {
      match workers[w]
      case Waiting =>
        var job := inputQueue[0];
        inputQueue := inputQueue[1..];
        workers := workers[w := if job.isBreak then Exited else Holding(job)];
      case Holding(job) =>
        if threadExit {
          workers := workers[w := Reporting(job.(isBreak := true))];
        } else if job.isSkip {
          workers := workers[w := Reporting(job)];
        } else {
          workers := workers[w := Cleared(job)];
        }
      case Cleared(job) =>
        workers := workers[w := Running(job.(launched := true))];
        if threadExit && w < |late| { late := late[w := late[w] + 1]; }
      case Running(job) =>
        workers := workers[w := Reporting(job.(returncode := rc))];
      case Reporting(job) =>
        outputQueue := outputQueue + [job];
        workers := workers[w := Waiting];
    }

    method SigintHook()
      modifies this
      ensures View() == old(View()).(threadExit := true)
    {
      threadExit := true;
    }

    /** Main to its return under an arbitrary scheduler, with processes that end as `exits` says,
        and an interrupt at an arbitrary moment or none. */
    method RunTests(exits: seq<int>) returns (status: int)
      requires View() == Init() && |exits| == |c.skips|
      requires c.processors > 0 || c.skips == []
      modifies this
      ensures Inv(c, View()) && Done(c, View()) && OneEach(collected, |c.skips|)
      ensures CountsByCode(c, Tally(passed, failed, valgrind, crashed, skipped), Stopped(collected), exits)
      ensures Stopped(collected) != {} ==> threadExit
      ensures status == 0 <==>
              Stopped(collected) == {} && forall id :: 0 <= id < |c.skips| ==> c.skips[id] || exits[id] == 0
      ensures passed + failed + valgrind + crashed + skipped
              + Sum(Is(Interrupted), collected) == |c.skips|
    {
      hide Inv, Done, Measure, WorkNext, MainNext, Sum, CodesOk, CountsByCode;
      InitInv(c);
      InitCodes(exits);
      while !Done(c, View())
        invariant Inv(c, View()) && CodesOk(View(), exits)
        decreases Measure(c, View())
      {
        ghost var s := View();
        NotStuck(c, s);
        if
        case Enabled(c, View(), Main) =>
          StepInv(c, s, Main);
          StepKeepsCodes(c, s, Main, exits);
          MainStep();
        case w: nat :| w < |workers| && Enabled(c, View(), Work(w, 0)) =>
          var rc: int := *;
          if workers[w].Running? {
            RunningId(c, s, w);
            rc := exits[workers[w].job.id];
          }
          StepInv(c, s, Work(w, rc));
          StepKeepsCodes(c, s, Work(w, rc), exits);
          WorkerStep(w, rc);
        case !threadExit =>
          StepInv(c, s, Interrupt);
          StepKeepsCodes(c, s, Interrupt, exits);
          SigintHook();
      }
      FinalReport(c, View());
      CountsAreByCode(c, View(), exits);
      status := if passed + skipped == jobs then 0 else 1;
    }
  }
}
