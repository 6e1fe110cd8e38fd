/** The test runner: a main thread that dispatches jobs, poisons, collects and joins, and worker threads
    that share an input and an output queue with it, under every interleaving of their atomic steps. */
module WorkerPool {

  /** The fields of a job that steer its way. Jobs are told apart by id, as the program tells objects apart. */
  datatype Job = Job(id: nat, isBreak: bool, isSkip: bool, returncode: int)

  datatype Worker =
    | Idle                 // blocked on, or about to call, get
    | Taken(job: Job)      // has a job in hand, has not looked at the exit flag yet
    | Running(job: Job)    // is waiting for the job's command
    | Exited

  datatype Counters = Counters(passed: nat, failed: nat, valgrind: nat, crashed: nat, skipped: nat)

  datatype State = State(
    suite: seq<Job>,       // everything that will be dispatched
    todo: seq<Job>,        // what has not been dispatched yet
    totalTests: nat,       // also the bound of the collecting loop
    poisoned: nat,         // break jobs put so far, one per worker
    input: seq<Job>,
    workers: seq<Worker>,
    output: seq<Job>,
    collected: seq<Job>,
    counters: Counters,
    joined: nat,
    threadExit: bool)

  datatype Step = Dispatch | Poison | Get(i: nat) | Look(i: nat) | Finish(i: nat, code: int) | Collect | Join | Sigint

  // ---------------------------------------------------------------- the steps

  ghost predicate Enabled(s: State, step: Step) {
    match step
    case Dispatch => s.todo != []
    case Poison => s.todo == [] && s.poisoned < |s.workers|
    case Get(i) => i < |s.workers| && s.workers[i].Idle? && s.input != []
    case Look(i) => i < |s.workers| && s.workers[i].Taken?
    case Finish(i, _) => i < |s.workers| && s.workers[i].Running?
    case Collect => Poisoned(s) && |s.collected| < s.totalTests && s.output != []
    case Join => Poisoned(s) && |s.collected| == s.totalTests && s.joined < |s.workers| && s.workers[s.joined].Exited?
    case Sigint => true
  }

  ghost predicate Poisoned(s: State) {
    s.todo == [] && s.poisoned == |s.workers|
  }

  ghost function Apply(s: State, step: Step): State
    requires Enabled(s, step)
  {
    match step
    case Dispatch =>
      s.(todo := s.todo[1..], totalTests := s.totalTests + 1, input := s.input + [s.todo[0]])
    case Poison =>
      s.(poisoned := s.poisoned + 1, input := s.input + [Job(|s.suite| + s.poisoned, true, false, 0)])
    case Get(i) =>
      var job := s.input[0];
      s.(input := s.input[1..], workers := s.workers[i := if job.isBreak then Exited else Taken(job)])
    case Look(i) =>
      var job := s.workers[i].job;
      if s.threadExit then
        s.(workers := s.workers[i := Idle], output := s.output + [job.(isBreak := true)])
      else if job.isSkip then
        s.(workers := s.workers[i := Idle], output := s.output + [job])
      else
        s.(workers := s.workers[i := Running(job)])
    case Finish(i, code) =>
      s.(workers := s.workers[i := Idle], output := s.output + [s.workers[i].job.(returncode := code)])
    case Collect =>
      s.(output := s.output[1..], collected := s.collected + [s.output[0]],
         counters := Tally(s.counters, s.output[0]))
    case Join => s.(joined := s.joined + 1)
    case Sigint => s.(threadExit := true)
  }

  function Tally(c: Counters, job: Job): Counters {
    if job.isBreak then c
    else if job.isSkip then c.(skipped := c.skipped + 1)
    else if job.returncode == 0 then c.(passed := c.passed + 1)
    else if job.returncode == 1 then c.(failed := c.failed + 1)
    else if job.returncode == 2 then c.(valgrind := c.valgrind + 1)
    else c.(crashed := c.crashed + 1)
  }

  ghost predicate WellFormedSuite(suite: seq<Job>) {
    forall k :: 0 <= k < |suite| ==> suite[k].id == k && !suite[k].isBreak
  }

  ghost function Init(suite: seq<Job>, processors: nat): State {
    State(suite, suite, 0, 0, [], seq(processors, _ => Idle), [], [], Counters(0, 0, 0, 0, 0), 0, false)
  }

  ghost predicate Run(s: State, steps: seq<Step>, t: State)
    decreases steps
  {
    if steps == [] then s == t else Enabled(s, steps[0]) && Run(Apply(s, steps[0]), steps[1..], t)
  }

  /** All results are collected and all workers are joined. */
  ghost predicate Done(s: State) {
    Poisoned(s) && |s.collected| == s.totalTests && s.joined == |s.workers|
  }

  // ---------------------------------------------------------------- sums over queues and workers

  ghost function Sum(f: Job -> nat, q: seq<Job>): nat {
    if q == [] then 0 else f(q[0]) + Sum(f, q[1..])
  }

  ghost function SumWorkers(f: Worker -> nat, w: seq<Worker>): nat {
    if w == [] then 0 else f(w[0]) + SumWorkers(f, w[1..])
  }

  lemma {:induction false} SumAppend(f: Job -> nat, q: seq<Job>, job: Job)
    ensures Sum(f, q + [job]) == Sum(f, q) + f(job)
  {
    if q != [] {
      assert (q + [job])[1..] == q[1..] + [job];
      SumAppend(f, q[1..], job);
    }
  }

  lemma {:induction false} SumPositive(f: Job -> nat, q: seq<Job>) returns (k: nat)
    requires Sum(f, q) > 0
    ensures k < |q| && f(q[k]) > 0
  {
    if f(q[0]) > 0 {
      k := 0;
    } else {
      k := SumPositive(f, q[1..]);
      k := k + 1;
    }
  }

  lemma {:induction false} SumWorkersPositive(f: Worker -> nat, w: seq<Worker>) returns (k: nat)
    requires SumWorkers(f, w) > 0
    ensures k < |w| && f(w[k]) > 0
  {
    if f(w[0]) > 0 {
      k := 0;
    } else {
      k := SumWorkersPositive(f, w[1..]);
      k := k + 1;
    }
  }

  lemma {:induction false} SumWorkersUpdate(f: Worker -> nat, w: seq<Worker>, i: nat, x: Worker)
    requires i < |w|
    ensures SumWorkers(f, w[i := x]) + f(w[i]) == SumWorkers(f, w) + f(x)
  {
    if i > 0 {
      assert w[i := x][1..] == w[1..][i - 1 := x];
      SumWorkersUpdate(f, w[1..], i - 1, x);
    } else {
      assert w[i := x][1..] == w[1..];
    }
  }

  lemma {:induction false} SumBound(f: Job -> nat, q: seq<Job>)
    requires forall k :: 0 <= k < |q| ==> f(q[k]) == 1
    ensures Sum(f, q) == |q|
  {
    if q != [] {
      SumBound(f, q[1..]);
    }
  }

  lemma {:induction false} SumWorkersZero(f: Worker -> nat, w: seq<Worker>)
    requires forall k :: 0 <= k < |w| ==> f(w[k]) == 0
    ensures SumWorkers(f, w) == 0
  {
    if w != [] {
      SumWorkersZero(f, w[1..]);
    }
  }

  // ---------------------------------------------------------------- conservation

  /** A weight given to each dispatched job by what never changes about it; break jobs weigh nothing. */
  datatype Key = Key(id: nat, isSkip: bool)

  ghost function OfJob(n: nat, w: Key -> nat): Job -> nat {
    (job: Job) => var weight: nat := if job.id < n then w(Key(job.id, job.isSkip)) else 0; weight
  }

  ghost function InHand(n: nat, w: Key -> nat): Worker -> nat {
    (x: Worker) => var weight: nat := if x.Taken? || x.Running? then OfJob(n, w)(x.job) else 0; weight
  }

  /** The weight of everything in the five places a job can be. */
  ghost function Mass(s: State, w: Key -> nat): nat {
    var f := OfJob(|s.suite|, w);
    Sum(f, s.todo) + Sum(f, s.input) + SumWorkers(InHand(|s.suite|, w), s.workers)
    + Sum(f, s.output) + Sum(f, s.collected)
  }

  ghost predicate IsWorkerStep(step: Step) {
    step.Get? || step.Look? || step.Finish?
  }

  lemma MassWorkerStep(s: State, step: Step, w: Key -> nat)
    requires Enabled(s, step) && IsWorkerStep(step)
    requires step.Get? && s.input[0].isBreak ==> s.input[0].id >= |s.suite|
    ensures Mass(Apply(s, step), w) == Mass(s, w)
  {
    var f, g, t := OfJob(|s.suite|, w), InHand(|s.suite|, w), Apply(s, step);
    SumWorkersUpdate(g, s.workers, step.i, t.workers[step.i]);
    if |t.output| > |s.output| {
      SumAppend(f, s.output, t.output[|s.output|]);
    }
  }

  /** No step loses, duplicates or relabels a job. */
  lemma MassStep(s: State, step: Step, w: Key -> nat)
    requires Enabled(s, step)
    requires forall k :: 0 <= k < |s.input| && s.input[k].isBreak ==> s.input[k].id >= |s.suite|
    ensures Mass(Apply(s, step), w) == Mass(s, w)
  {
    var f := OfJob(|s.suite|, w);
    if IsWorkerStep(step) {
      MassWorkerStep(s, step, w);
    } else if step == Dispatch {
      SumAppend(f, s.input, s.todo[0]);
    } else if step == Poison {
      SumAppend(f, s.input, Job(|s.suite| + s.poisoned, true, false, 0));
    } else if step == Collect {
      SumAppend(f, s.collected, s.output[0]);
    }
  }

  // ---------------------------------------------------------------- the invariant

  ghost function IsBreak(): Job -> nat {
    (job: Job) => var one: nat := if job.isBreak then 1 else 0; one
  }

  ghost function HasExited(): Worker -> nat {
    (x: Worker) => var one: nat := if x.Exited? then 1 else 0; one
  }

  ghost predicate Real(n: nat, job: Job) {
    !job.isBreak && job.id < n
  }

  /** Dispatching follows the suite and comes before poisoning. */
  ghost predicate DispatchInv(s: State) {
    && WellFormedSuite(s.suite)
    && s.totalTests + |s.todo| == |s.suite| && s.todo == s.suite[s.totalTests..]
    && s.poisoned <= |s.workers|
    && (s.todo != [] ==> s.poisoned == 0)
  }

  /** The input queue holds real jobs first and break jobs last. */
  ghost predicate QueueInv(s: State) {
    && (forall k :: 0 <= k < |s.input| ==> (s.input[k].isBreak <==> s.input[k].id >= |s.suite|))
    && (forall j, k :: 0 <= j < k < |s.input| && s.input[j].isBreak ==> s.input[k].isBreak)
    && (forall k :: 0 <= k < |s.input| && s.input[k].isBreak ==> s.todo == [])
  }

  /** No worker has exited while a real job is queued or still to be dispatched. */
  ghost predicate NoEarlyExit(s: State) {
    forall i :: 0 <= i < |s.workers| && s.workers[i].Exited? ==>
      s.todo == [] && forall k :: 0 <= k < |s.input| ==> s.input[k].isBreak
  }

  ghost predicate WorkersInv(s: State) {
    forall i :: 0 <= i < |s.workers| ==>
      match s.workers[i]
      case Taken(job) => Real(|s.suite|, job)
      case Running(job) => Real(|s.suite|, job) && !job.isSkip
      case _ => true
  }

  /** Results are results of dispatched jobs; only an interrupt turns one into a break. */
  ghost predicate ResultsInv(s: State) {
    && (forall k :: 0 <= k < |s.output| ==> s.output[k].id < |s.suite| && (s.output[k].isBreak ==> s.threadExit))
    && (forall k :: 0 <= k < |s.collected| ==>
          s.collected[k].id < |s.suite| && (s.collected[k].isBreak ==> s.threadExit))
    && |s.collected| <= s.totalTests
    && s.counters == CountersOf(s.collected)
  }

  /** Every break job put is still queued or has made one worker exit. */
  ghost predicate BreaksInv(s: State) {
    Sum(IsBreak(), s.input) + SumWorkers(HasExited(), s.workers) == s.poisoned
  }

  ghost predicate JoinInv(s: State) {
    s.joined <= |s.workers| && forall i :: 0 <= i < s.joined ==> s.workers[i].Exited?
  }

  ghost predicate Inv(s: State) {
    && DispatchInv(s) && QueueInv(s) && NoEarlyExit(s) && WorkersInv(s)
    && ResultsInv(s) && BreaksInv(s) && JoinInv(s)
  }

  datatype Outcome = Interrupt | Skip | Pass | Fail | Valgr | Crash

  /** How a collected job counts. */
  ghost function OutcomeOf(job: Job): Outcome {
    if job.isBreak then Interrupt
    else if job.isSkip then Skip
    else match job.returncode
      case 0 => Pass
      case 1 => Fail
      case 2 => Valgr
      case _ => Crash
  }

  ghost function Counted(o: Outcome): Job -> nat {
    (job: Job) => var one: nat := if OutcomeOf(job) == o then 1 else 0; one
  }

  ghost function CountersOf(q: seq<Job>): Counters {
    Counters(Sum(Counted(Pass), q), Sum(Counted(Fail), q), Sum(Counted(Valgr), q),
             Sum(Counted(Crash), q), Sum(Counted(Skip), q))
  }

  lemma InitInv(suite: seq<Job>, processors: nat)
    requires WellFormedSuite(suite)
    ensures Inv(Init(suite, processors))
  {
    SumWorkersZero(HasExited(), Init(suite, processors).workers);
  }

  lemma BreaksStep(s: State, step: Step)
    requires BreaksInv(s) && QueueInv(s) && WorkersInv(s) && Enabled(s, step)
    requires step == Dispatch ==> !s.todo[0].isBreak
    ensures BreaksInv(Apply(s, step))
  {
    var t := Apply(s, step);
    if IsWorkerStep(step) {
      SumWorkersUpdate(HasExited(), s.workers, step.i, t.workers[step.i]);
    } else if step == Dispatch {
      SumAppend(IsBreak(), s.input, s.todo[0]);
    } else if step == Poison {
      SumAppend(IsBreak(), s.input, Job(|s.suite| + s.poisoned, true, false, 0));
    }
  }

  lemma QueueStep(s: State, step: Step)
    requires DispatchInv(s) && QueueInv(s) && Enabled(s, step)
    ensures QueueInv(Apply(s, step))
  {}

  lemma NoEarlyExitStep(s: State, step: Step)
    requires DispatchInv(s) && QueueInv(s) && NoEarlyExit(s) && Enabled(s, step)
    ensures NoEarlyExit(Apply(s, step))
  {}

  lemma WorkersStep(s: State, step: Step)
    requires QueueInv(s) && WorkersInv(s) && Enabled(s, step)
    ensures WorkersInv(Apply(s, step))
  {}

  lemma DispatchStep(s: State, step: Step)
    requires DispatchInv(s) && Enabled(s, step)
    ensures DispatchInv(Apply(s, step))
    ensures Apply(s, step).suite == s.suite && |Apply(s, step).workers| == |s.workers|
  {}

  lemma JoinStep(s: State, step: Step)
    requires JoinInv(s) && Enabled(s, step)
    ensures JoinInv(Apply(s, step))
  {}

  lemma ResultsStep(s: State, step: Step)
    requires ResultsInv(s) && WorkersInv(s) && Enabled(s, step)
    ensures ResultsInv(Apply(s, step))
  {
    if step == Collect {
      CountersStep(s.collected, s.output[0]);
    }
  }

  lemma CountersStep(q: seq<Job>, job: Job)
    ensures CountersOf(q + [job]) == Tally(CountersOf(q), job)
  {
    SumAppend(Counted(Pass), q, job);
    SumAppend(Counted(Fail), q, job);
    SumAppend(Counted(Valgr), q, job);
    SumAppend(Counted(Crash), q, job);
    SumAppend(Counted(Skip), q, job);
  }

  lemma InvStep(s: State, step: Step)
    requires Inv(s) && Enabled(s, step)
    ensures Inv(Apply(s, step))
    ensures Apply(s, step).suite == s.suite && |Apply(s, step).workers| == |s.workers|
  {
    DispatchStep(s, step);
    QueueStep(s, step);
    NoEarlyExitStep(s, step);
    WorkersStep(s, step);
    ResultsStep(s, step);
    BreaksStep(s, step);
    JoinStep(s, step);
  }

  // ---------------------------------------------------------------- runs

  lemma {:induction false} RunInv(s: State, steps: seq<Step>, t: State)
    requires Inv(s) && Run(s, steps, t)
    ensures Inv(t) && t.suite == s.suite && |t.workers| == |s.workers|
    decreases steps
  {
    if steps != [] {
      InvStep(s, steps[0]);
      RunInv(Apply(s, steps[0]), steps[1..], t);
    }
  }

  lemma {:induction false} RunMass(s: State, steps: seq<Step>, t: State, w: Key -> nat)
    requires Inv(s) && Run(s, steps, t)
    ensures Mass(t, w) == Mass(s, w)
    decreases steps
  {
    if steps != [] {
      InvStep(s, steps[0]);
      MassStep(s, steps[0], w);
      RunMass(Apply(s, steps[0]), steps[1..], t, w);
    }
  }

  // ---------------------------------------------------------------- each job is in exactly one place

  ghost function Only(key: Key): Key -> nat {
    (k: Key) => var one: nat := if k == key then 1 else 0; one
  }

  ghost function One(): Key -> nat {
    (k: Key) => var one: nat := 1; one
  }

  ghost function KeyOf(suite: seq<Job>, k: nat): Key
    requires k < |suite|
  {
    Key(k, suite[k].isSkip)
  }

  /** Of the jobs of the suite, the k-th alone weighs one. */
  ghost predicate Singles(suite: seq<Job>, k: nat, w: Key -> nat) {
    forall j: nat :: j < |suite| ==> w(KeyOf(suite, j)) == if j == k then 1 else 0
  }

  lemma {:induction false} SuiteMass(suite: seq<Job>, m: nat, k: nat, w: Key -> nat)
    requires WellFormedSuite(suite) && m <= |suite| && k < |suite| && Singles(suite, k, w)
    ensures Sum(OfJob(|suite|, w), suite[m..]) == if m <= k then 1 else 0
    decreases |suite| - m
  {
    if m < |suite| {
      assert suite[m..][1..] == suite[m + 1..];
      assert Key(suite[m].id, suite[m].isSkip) == KeyOf(suite, m);
      SuiteMass(suite, m + 1, k, w);
    }
  }

  lemma InitMass(suite: seq<Job>, processors: nat, w: Key -> nat)
    ensures Mass(Init(suite, processors), w) == Sum(OfJob(|suite|, w), suite)
  {
    SumWorkersZero(InHand(|suite|, w), Init(suite, processors).workers);
  }

  lemma OneOfEach(suite: seq<Job>, processors: nat, steps: seq<Step>, t: State, k: nat, w: Key -> nat)
    requires WellFormedSuite(suite) && k < |suite| && Singles(suite, k, w)
    requires Run(Init(suite, processors), steps, t)
    ensures Mass(t, w) == 1
  {
    InitInv(suite, processors);
    RunMass(Init(suite, processors), steps, t, w);
    InitMass(suite, processors, w);
    SuiteMass(suite, 0, k, w);
    assert suite[0..] == suite;
  }

  /** In every reachable state, the k-th dispatched job is in exactly one of: not yet dispatched, queued for the
      workers, in one worker's hands, queued for the main thread, collected. Its skip mark is never changed. */
  lemma EachJobInOnePlace(suite: seq<Job>, processors: nat, steps: seq<Step>, t: State, k: nat)
    requires WellFormedSuite(suite) && k < |suite|
    requires Run(Init(suite, processors), steps, t)
    ensures Mass(t, Only(KeyOf(suite, k))) == 1
  {
    OneOfEach(suite, processors, steps, t, k, Only(KeyOf(suite, k)));
  }

  lemma AllJobsMass(suite: seq<Job>, processors: nat, steps: seq<Step>, t: State)
    requires WellFormedSuite(suite) && Run(Init(suite, processors), steps, t)
    ensures Mass(t, One()) == |suite|
  {
    InitInv(suite, processors);
    RunMass(Init(suite, processors), steps, t, One());
    InitMass(suite, processors, One());
    SumBound(OfJob(|suite|, One()), suite);
  }

  // ---------------------------------------------------------------- progress

  /** Something other than an interrupt can happen. */
  ghost predicate CanStep(s: State) {
    exists step :: step != Sigint && Enabled(s, step)
  }

  lemma StepIs(s: State, step: Step)
    requires step != Sigint && Enabled(s, step)
    ensures CanStep(s)
  {}

  lemma ActiveWorkerSteps(s: State, i: nat)
    requires i < |s.workers| && (s.workers[i].Taken? || s.workers[i].Running?)
    ensures CanStep(s)
  {
    if s.workers[i].Taken? {
      StepIs(s, Look(i));
    } else {
      StepIs(s, Finish(i, 0));
    }
  }

  /** While results are missing, one of them is available, in the making, or about to be picked up. */
  lemma CollectingSteps(s: State)
    requires Inv(s) && Poisoned(s) && |s.workers| > 0
    requires |s.collected| < s.totalTests && Mass(s, One()) == |s.suite|
    ensures CanStep(s)
  {
    var f, g := OfJob(|s.suite|, One()), InHand(|s.suite|, One());
    if s.output != [] {
      StepIs(s, Collect);
    } else if SumWorkers(g, s.workers) > 0 {
      var i := SumWorkersPositive(g, s.workers);
      ActiveWorkerSteps(s, i);
    } else {
      SumBound(f, s.collected);
      var k := SumPositive(f, s.input);
      assert !s.input[k].isBreak && !s.workers[0].Exited?;
      if s.workers[0].Idle? {
        StepIs(s, Get(0));
      } else {
        ActiveWorkerSteps(s, 0);
      }
    }
  }

  lemma {:induction false} SomeoneLeft(w: seq<Worker>, i: nat)
    requires i < |w| && !w[i].Exited?
    ensures SumWorkers(HasExited(), w) < |w|
  {
    if i == 0 {
      ExitBound(w[1..]);
    } else {
      SomeoneLeft(w[1..], i - 1);
    }
  }

  lemma {:induction false} ExitBound(w: seq<Worker>)
    ensures SumWorkers(HasExited(), w) <= |w|
  {
    if w != [] {
      ExitBound(w[1..]);
    }
  }

  /** Once all results are in, a worker that has not exited still finds a break job to take. */
  lemma JoiningSteps(s: State)
    requires Inv(s) && Poisoned(s) && |s.collected| == s.totalTests && s.joined < |s.workers|
    ensures CanStep(s)
  {
    match s.workers[s.joined]
    case Exited => StepIs(s, Join);
    case Idle =>
      SomeoneLeft(s.workers, s.joined);
      var k := SumPositive(IsBreak(), s.input);
      StepIs(s, Get(s.joined));
    case Taken(_) => ActiveWorkerSteps(s, s.joined);
    case Running(_) => ActiveWorkerSteps(s, s.joined);
  }

  /** No reachable state is stuck before every result is collected and every worker joined. */
  lemma Progress(suite: seq<Job>, processors: nat, steps: seq<Step>, t: State)
    requires WellFormedSuite(suite) && processors > 0 && Run(Init(suite, processors), steps, t)
    requires !Done(t)
    ensures CanStep(t)
  {
    InitInv(suite, processors);
    RunInv(Init(suite, processors), steps, t);
    AllJobsMass(suite, processors, steps, t);
    if t.todo != [] {
      StepIs(t, Dispatch);
    } else if t.poisoned < |t.workers| {
      StepIs(t, Poison);
    } else if |t.collected| < t.totalTests {
      CollectingSteps(t);
    } else {
      JoiningSteps(t);
    }
  }

  // ---------------------------------------------------------------- termination

  ghost function QueuePotential(): Job -> nat {
    (job: Job) => var p: nat := if job.isBreak then 1 else 5; p
  }

  ghost function WorkerPotential(): Worker -> nat {
    (x: Worker) => var p: nat := if x.Taken? then 4 else if x.Running? then 3 else 0; p
  }

  ghost function Potential(s: State): int {
    6 * |s.todo| + 2 * (|s.workers| - s.poisoned) + Sum(QueuePotential(), s.input)
    + SumWorkers(WorkerPotential(), s.workers) + 2 * |s.output| + (|s.workers| - s.joined)
  }

  ghost function Interrupts(steps: seq<Step>): nat {
    if steps == [] then 0 else (if steps[0] == Sigint then 1 else 0) + Interrupts(steps[1..])
  }

  /** Every step but an interrupt uses up some of the potential. */
  lemma PotentialStep(s: State, step: Step)
    requires DispatchInv(s) && JoinInv(s) && Enabled(s, step)
    ensures if step == Sigint then Potential(Apply(s, step)) == Potential(s)
            else Potential(Apply(s, step)) < Potential(s)
  {
    var f := QueuePotential();
    if IsWorkerStep(step) {
      PotentialWorkerStep(s, step);
    } else if step == Dispatch {
      SumAppend(f, s.input, s.todo[0]);
    } else if step == Poison {
      SumAppend(f, s.input, Job(|s.suite| + s.poisoned, true, false, 0));
    }
  }

  lemma PotentialWorkerStep(s: State, step: Step)
    requires Enabled(s, step) && IsWorkerStep(step)
    ensures Potential(Apply(s, step)) < Potential(s)
  {
    SumWorkersUpdate(WorkerPotential(), s.workers, step.i, Apply(s, step).workers[step.i]);
  }

  lemma {:induction false} RunPotential(s: State, steps: seq<Step>, t: State)
    requires Inv(s) && Run(s, steps, t)
    ensures |steps| + Potential(t) <= Potential(s) + Interrupts(steps)
    decreases steps
  {
    if steps != [] {
      InvStep(s, steps[0]);
      PotentialStep(s, steps[0]);
      RunPotential(Apply(s, steps[0]), steps[1..], t);
    }
  }

  /** Every run is finite: however often it is interrupted, no schedule lets more than this many other steps happen. */
  lemma RunsTerminate(suite: seq<Job>, processors: nat, steps: seq<Step>, t: State)
    requires WellFormedSuite(suite) && Run(Init(suite, processors), steps, t)
    ensures |steps| <= 6 * |suite| + 3 * processors + Interrupts(steps)
  {
    InitInv(suite, processors);
    RunInv(Init(suite, processors), steps, t);
    RunPotential(Init(suite, processors), steps, t);
    SumWorkersZero(WorkerPotential(), Init(suite, processors).workers);
  }

  // ---------------------------------------------------------------- accounting

  function Reported(c: Counters): nat {
    c.passed + c.failed + c.valgrind + c.crashed + c.skipped
  }

  function ExitStatus(c: Counters, totalTests: nat): int {
    if Successes(c) == totalTests then 0 else 1
  }

  function Successes(c: Counters): nat {
    c.passed + c.skipped
  }

  ghost predicate PassedOrSkipped(job: Job) {
    OutcomeOf(job) == Pass || OutcomeOf(job) == Skip
  }

  lemma {:induction false} SumAdds(f: Job -> nat, g: Job -> nat, h: Job -> nat, q: seq<Job>)
    requires forall job :: f(job) + g(job) == h(job)
    ensures Sum(f, q) + Sum(g, q) == Sum(h, q)
  {
    if q != [] {
      SumAdds(f, g, h, q[1..]);
    }
  }

  lemma {:induction false} SumAtMostOne(h: Job -> nat, q: seq<Job>)
    requires forall job :: h(job) <= 1
    ensures Sum(h, q) <= |q|
    ensures Sum(h, q) == |q| <==> forall k :: 0 <= k < |q| ==> h(q[k]) == 1
  {
    if q != [] {
      SumAtMostOne(h, q[1..]);
      assert forall k :: 1 <= k < |q| ==> q[k] == q[1..][k - 1];
    }
  }

  lemma OneOutcome(job: Job)
    ensures Counted(Pass)(job) + Counted(Fail)(job) + Counted(Valgr)(job) + Counted(Crash)(job) + Counted(Skip)(job)
            + Counted(Interrupt)(job) == 1
  {}

  /** Every collected result counts in exactly one way. */
  lemma {:induction false} EveryResultCounted(q: seq<Job>)
    ensures Reported(CountersOf(q)) + Sum(Counted(Interrupt), q) == |q|
  {
    if q != [] {
      EveryResultCounted(q[1..]);
      OneOutcome(q[0]);
    }
  }

  ghost function Good(): Job -> nat {
    (job: Job) => var one: nat := if PassedOrSkipped(job) then 1 else 0; one
  }

  lemma SuccessesCounted(q: seq<Job>)
    ensures Successes(CountersOf(q)) <= |q|
    ensures Successes(CountersOf(q)) == |q| <==> forall k :: 0 <= k < |q| ==> PassedOrSkipped(q[k])
  {
    SumAdds(Counted(Pass), Counted(Skip), Good(), q);
    SumAtMostOne(Good(), q);
  }

  lemma InputWeighsNothing(t: State, w: Key -> nat)
    requires Sum(OfJob(|t.suite|, One()), t.input) == 0
    ensures Sum(OfJob(|t.suite|, w), t.input) == 0
  {
    if Sum(OfJob(|t.suite|, w), t.input) > 0 {
      var k := SumPositive(OfJob(|t.suite|, w), t.input);
      SumAt(OfJob(|t.suite|, One()), t.input, k);
    }
  }

  lemma {:induction false} SumAt(f: Job -> nat, q: seq<Job>, k: nat)
    requires k < |q|
    ensures f(q[k]) <= Sum(f, q)
  {
    if k > 0 {
      SumAt(f, q[1..], k - 1);
    }
  }

  lemma AllCollected(suite: seq<Job>, processors: nat, steps: seq<Step>, t: State, k: nat)
    requires WellFormedSuite(suite) && Run(Init(suite, processors), steps, t) && Done(t) && k < |suite|
    ensures Sum(OfJob(|suite|, Only(KeyOf(suite, k))), t.collected) == 1
  {
    var one, key := OfJob(|suite|, One()), Only(KeyOf(suite, k));
    InitInv(suite, processors);
    RunInv(Init(suite, processors), steps, t);
    AllJobsMass(suite, processors, steps, t);
    EachJobInOnePlace(suite, processors, steps, t, k);
    SumBound(one, t.collected);
    SumBound(one, t.output);
    SumWorkersZero(InHand(|suite|, key), t.workers);
    InputWeighsNothing(t, key);
  }

  /** When the program is done, however it was scheduled and interrupted: every dispatched job has exactly one
      collected result, the categories and the interrupted jobs add up to the total, the exit status is 0 exactly
      when every job passed or was skipped, and nothing is interrupted unless the exit flag was raised. */
  lemma FinalAccounting(suite: seq<Job>, processors: nat, steps: seq<Step>, t: State)
    requires WellFormedSuite(suite) && Run(Init(suite, processors), steps, t) && Done(t)
    ensures |t.collected| == t.totalTests == |suite|
    ensures forall k :: 0 <= k < |suite| ==> Sum(OfJob(|suite|, Only(KeyOf(suite, k))), t.collected) == 1
    ensures Reported(t.counters) + Sum(Counted(Interrupt), t.collected) == t.totalTests
    ensures ExitStatus(t.counters, t.totalTests) == 0
            <==> (forall k :: 0 <= k < |t.collected| ==> PassedOrSkipped(t.collected[k]))
    ensures !t.threadExit ==> forall k :: 0 <= k < |t.collected| ==> !t.collected[k].isBreak
    ensures forall i :: 0 <= i < |t.workers| ==> t.workers[i].Exited?
  {
    InitInv(suite, processors);
    RunInv(Init(suite, processors), steps, t);
    EveryResultCounted(t.collected);
    SuccessesCounted(t.collected);
    forall k | 0 <= k < |suite|
      ensures Sum(OfJob(|suite|, Only(KeyOf(suite, k))), t.collected) == 1
    {
      AllCollected(suite, processors, steps, t, k);
    }
  }

  // ---------------------------------------------------------------- the program's own form

  /** The shared state of one run of the program: the queues, the main thread's counters and loop indexes, what each
      worker holds, and the global exit flag. Each method is one atomic step of one thread. */
  class TestRunner {
    const suite: seq<Job>
    var pending: seq<Job>
    var totalTests: nat
    var poisoned: nat
    var inputQueue: seq<Job>
    var workers: seq<Worker>
    var outputQueue: seq<Job>
    var passedTests: nat
    var failedTests: nat
    var valgrindErrors: nat
    var crashedTests: nat
    var skippedTests: nat
    var joined: nat
    var threadExit: bool
    ghost var results: seq<Job>

    ghost function View(): State
      reads this
    {
      State(suite, pending, totalTests, poisoned, inputQueue, workers, outputQueue, results,
            Counters(passedTests, failedTests, valgrindErrors, crashedTests, skippedTests), joined, threadExit)
    }

    constructor (jobs: seq<Job>, processors: nat)
      ensures View() == Init(jobs, processors)
    {
      suite, pending, totalTests, poisoned := jobs, jobs, 0, 0;
      inputQueue, outputQueue, workers := [], [], seq(processors, _ => Idle);
      passedTests, failedTests, valgrindErrors, crashedTests, skippedTests := 0, 0, 0, 0, 0;
      joined, threadExit := 0, false;
      results := [];
    }

    // The main thread.

    method DispatchJob()
      requires Enabled(View(), Dispatch)
      modifies this
      ensures View() == Apply(old(View()), Dispatch)
    {
      inputQueue := inputQueue + [pending[0]];
      pending := pending[1..];
      totalTests := totalTests + 1;
    }

    method PutBreak()
      requires Enabled(View(), Poison)
      modifies this
      ensures View() == Apply(old(View()), Poison)
    {
      inputQueue := inputQueue + [Job(|suite| + poisoned, true, false, 0)];
      poisoned := poisoned + 1;
    }

    method CollectResult()
      requires Enabled(View(), Collect)
      modifies this
      ensures View() == Apply(old(View()), Collect)
    {
      var job := outputQueue[0];
      outputQueue := outputQueue[1..];
      results := results + [job];
      if job.isBreak {
        return;
      }
      if job.isSkip {
        skippedTests := skippedTests + 1;
      } else {
        if job.returncode == 0 {
          passedTests := passedTests + 1;
        } else if job.returncode == 1 {
          failedTests := failedTests + 1;
        } else if job.returncode == 2 {
          valgrindErrors := valgrindErrors + 1;
        } else {
          crashedTests := crashedTests + 1;
        }
      }
    }

    method JoinNext()
      requires Enabled(View(), Join)
      modifies this
      ensures View() == Apply(old(View()), Join)
    {
      joined := joined + 1;
    }

    method SigintHook()
      modifies this
      ensures View() == Apply(old(View()), Sigint)
    {
      threadExit := true;
    }

    // A worker thread.

    method GetJob(i: nat)
      requires Enabled(View(), Get(i))
      modifies this
      ensures View() == Apply(old(View()), Get(i))
    {
      var job := inputQueue[0];
      inputQueue := inputQueue[1..];
      if job.isBreak {
        workers := workers[i := Exited];
        return;
      }
      workers := workers[i := Taken(job)];
    }

    method LookAtJob(i: nat)
      requires Enabled(View(), Look(i))
      modifies this
      ensures View() == Apply(old(View()), Look(i))
    {
      var job := workers[i].job;
      if threadExit {
        outputQueue := outputQueue + [job.(isBreak := true)];
        workers := workers[i := Idle];
      } else if job.isSkip {
        outputQueue := outputQueue + [job];
        workers := workers[i := Idle];
      } else {
        workers := workers[i := Running(job)];
      }
    }

    method FinishJob(i: nat, code: int)
      requires Enabled(View(), Finish(i, code))
      modifies this
      ensures View() == Apply(old(View()), Finish(i, code))
    {
      outputQueue := outputQueue + [workers[i].job.(returncode := code)];
      workers := workers[i := Idle];
    }

    /** Runs the threads in the order a scheduler picked, with the return codes the commands gave. */
    method Execute(schedule: seq<Step>, ghost end: State)
      requires Run(View(), schedule, end)
      modifies this
      ensures View() == end
    {
      for k := 0 to |schedule|
        invariant Run(View(), schedule[k..], end)
      {
        assert schedule[k..][1..] == schedule[k + 1..];
        match schedule[k]
        case Dispatch => DispatchJob();
        case Poison => PutBreak();
        case Get(i) => GetJob(i);
        case Look(i) => LookAtJob(i);
        case Finish(i, code) => FinishJob(i, code);
        case Collect => CollectResult();
        case Join => JoinNext();
        case Sigint => SigintHook();
      }
    }

    /** What run_tests returns: at the end of a run, 0 exactly when every job passed or was skipped. */
    method Status() returns (status: int)
      ensures status == ExitStatus(View().counters, totalTests)
      ensures Inv(View()) && Done(View()) ==>
                (status == 0 <==> forall k :: 0 <= k < |results| ==> PassedOrSkipped(results[k]))
    {
      SuccessesCounted(results);
      if passedTests + skippedTests == totalTests {
        return 0;
      }
      return 1;
    }
  }
}
