/** What the test runner reports against what the commands returned: the return codes that a run of the worker pool
    draws, job by job and all together. */
module WorkerResults {
  import opened Sequences
  import opened WorkerPool

  // ---------------------------------------------------------------- the codes that a run draws

  /** The code that a step draws for job k. */
  ghost function Drawn(s: State, step: Step, k: nat): seq<int>
    requires Enabled(s, step)
  {
    if step.Finish? && s.workers[step.i].job.id == k then [step.code] else []
  }

  /** The codes of the steps that finish the command of job k, in order. */
  ghost function CodesOf(s: State, steps: seq<Step>, t: State, k: nat): seq<int>
    requires Run(s, steps, t)
    decreases steps
  {
    if steps == [] then [] else Drawn(s, steps[0], k) + CodesOf(Apply(s, steps[0]), steps[1..], t, k)
  }

  /** A result shows an interrupt or a skip when no command was run, and else the one code that the command gave. */
  ghost predicate Shows(job: Job, codes: seq<int>) {
    if job.isBreak || job.isSkip then codes == [] else codes == [job.returncode]
  }

  // ---------------------------------------------------------------- one job's result

  ghost predicate NoneIn(q: seq<Job>, k: nat) {
    forall j :: 0 <= j < |q| ==> q[j].id != k
  }

  ghost predicate NotInHand(workers: seq<Worker>, k: nat) {
    forall i :: 0 <= i < |workers| && (workers[i].Taken? || workers[i].Running?) ==> workers[i].job.id != k
  }

  /** Job k has not been dispatched, is queued for the workers, or is in the hands of one. */
  ghost predicate Waiting(s: State, k: nat) {
    !NoneIn(s.todo, k) || !NoneIn(s.input, k) || !NotInHand(s.workers, k)
  }

  ghost predicate AllShow(q: seq<Job>, k: nat, codes: seq<int>) {
    forall j :: 0 <= j < |q| && q[j].id == k ==> Shows(q[j], codes)
  }

  /** A job that waits has drawn no code, and the results of job k show the codes drawn. */
  ghost predicate Recorded(s: State, k: nat, codes: seq<int>) {
    && (Waiting(s, k) ==> codes == [])
    && AllShow(s.output, k, codes) && AllShow(s.collected, k, codes)
  }

  ghost function OnlyId(k: nat): Key -> nat {
    (key: Key) => var one: nat := if key.id == k then 1 else 0; one
  }

  lemma SumZero(f: Job -> nat, q: seq<Job>)
    requires Sum(f, q) == 0
    ensures forall j :: 0 <= j < |q| ==> f(q[j]) == 0
  {
    forall j: nat | j < |q|
      ensures f(q[j]) == 0
    {
      SumAt(f, q, j);
    }
  }

  lemma {:induction false} SumWorkersNone(f: Worker -> nat, w: seq<Worker>)
    requires SumWorkers(f, w) == 0
    ensures forall i :: 0 <= i < |w| ==> f(w[i]) == 0
  {
    if w != [] {
      SumWorkersNone(f, w[1..]);
      assert forall i :: 1 <= i < |w| ==> w[i] == w[1..][i - 1];
    }
  }

  lemma NoMass(q: seq<Job>, n: nat, k: nat)
    requires k < n && Sum(OfJob(n, OnlyId(k)), q) == 0
    ensures NoneIn(q, k)
  {
    SumZero(OfJob(n, OnlyId(k)), q);
    assert forall j :: 0 <= j < |q| ==> OfJob(n, OnlyId(k))(q[j]) == 0;
  }

  lemma {:induction false} NoneWeighNothing(q: seq<Job>, n: nat, k: nat)
    requires NoneIn(q, k)
    ensures Sum(OfJob(n, OnlyId(k)), q) == 0
  {
    if q != [] {
      assert forall j :: 0 <= j < |q[1..]| ==> q[1..][j] == q[j + 1];
      NoneWeighNothing(q[1..], n, k);
    }
  }

  /** A job whose command is running is nowhere else. */
  lemma RunningAlone(s: State, i: nat, k: nat)
    requires k < |s.suite| && Mass(s, OnlyId(k)) == 1
    requires i < |s.workers| && s.workers[i].Running? && s.workers[i].job.id == k
    ensures NoneIn(s.todo, k) && NoneIn(s.input, k) && NoneIn(s.output, k) && NoneIn(s.collected, k)
    ensures NotInHand(s.workers[i := Idle], k)
  {
    var n, g := |s.suite|, InHand(|s.suite|, OnlyId(k));
    SumWorkersUpdate(g, s.workers, i, Idle);
    NoMass(s.todo, n, k);
    NoMass(s.input, n, k);
    NoMass(s.output, n, k);
    NoMass(s.collected, n, k);
    SumWorkersNone(g, s.workers[i := Idle]);
  }

  lemma FinishRecorded(s: State, i: nat, code: int, k: nat, codes: seq<int>)
    requires Inv(s) && k < |s.suite| && Mass(s, OnlyId(k)) == 1 && Recorded(s, k, codes)
    requires Enabled(s, Finish(i, code))
    ensures Recorded(Apply(s, Finish(i, code)), k, codes + Drawn(s, Finish(i, code), k))
  {
    if s.workers[i].job.id == k {
      RunningAlone(s, i, k);
      assert codes == [];
    } else {
      assert codes + [] == codes;
    }
  }

  lemma FinishGives(s: State, i: nat, code: int, k: nat, codes: seq<int>)
    requires Inv(s) && k < |s.suite| && Mass(s, OnlyId(k)) == 1 && Recorded(s, k, codes)
    requires Enabled(s, Finish(i, code)) && s.workers[i].job.id == k
    ensures var t := Apply(s, Finish(i, code));
            Recorded(t, k, [code]) && Inv(t) && t.suite == s.suite && Mass(t, OnlyId(k)) == 1
  {
    InvStep(s, Finish(i, code));
    MassStep(s, Finish(i, code), OnlyId(k));
    FinishRecorded(s, i, code, k, codes);
    AppendNothing([code]);
  }

  lemma OtherRecorded(s: State, step: Step, k: nat, codes: seq<int>)
    requires Inv(s) && k < |s.suite| && Recorded(s, k, codes) && Enabled(s, step) && !step.Finish?
    ensures Recorded(Apply(s, step), k, codes)
  {
  }

  lemma StepRecorded(s: State, step: Step, k: nat, codes: seq<int>)
    requires Inv(s) && k < |s.suite| && Mass(s, OnlyId(k)) == 1 && Recorded(s, k, codes) && Enabled(s, step)
    ensures Recorded(Apply(s, step), k, codes + Drawn(s, step, k))
  {
    if step.Finish? {
      FinishRecorded(s, step.i, step.code, k, codes);
    } else {
      OtherRecorded(s, step, k, codes);
      AppendNothing(codes);
    }
  }

  lemma {:induction false} RunRecorded(s: State, steps: seq<Step>, t: State, k: nat, codes: seq<int>)
    requires Inv(s) && k < |s.suite| && Mass(s, OnlyId(k)) == 1 && Recorded(s, k, codes) && Run(s, steps, t)
    ensures Recorded(t, k, codes + CodesOf(s, steps, t, k))
    decreases steps
  {
    if steps == [] {
      AppendNothing(codes);
    } else {
      var u, drawn := Apply(s, steps[0]), Drawn(s, steps[0], k);
      InvStep(s, steps[0]);
      MassStep(s, steps[0], OnlyId(k));
      StepRecorded(s, steps[0], k, codes);
      RunRecorded(u, steps[1..], t, k, codes + drawn);
      Associates(codes, drawn, CodesOf(u, steps[1..], t, k));
    }
  }

  /** In every reachable state, what the results of a job show is the codes that the run has drawn for it. */
  lemma ResultsShowCodes(suite: seq<Job>, processors: nat, steps: seq<Step>, t: State, k: nat)
    requires WellFormedSuite(suite) && k < |suite| && Run(Init(suite, processors), steps, t)
    ensures Recorded(t, k, CodesOf(Init(suite, processors), steps, t, k))
  {
    var s := Init(suite, processors);
    InitInv(suite, processors);
    OneOfEach(suite, processors, [], s, k, OnlyId(k));
    RunRecorded(s, steps, t, k, []);
    assert [] + CodesOf(s, steps, t, k) == CodesOf(s, steps, t, k);
  }

  /** There is a result of job k, and every one shows this code. */
  ghost predicate Carries(s: State, k: nat, code: int) {
    && !(NoneIn(s.output, k) && NoneIn(s.collected, k))
    && (forall j :: 0 <= j < |s.output| && s.output[j].id == k ==> IsResult(s.output[j], code))
    && (forall j :: 0 <= j < |s.collected| && s.collected[j].id == k ==> IsResult(s.collected[j], code))
  }

  ghost predicate IsResult(job: Job, code: int) {
    !job.isBreak && !job.isSkip && job.returncode == code
  }

  lemma CarriesFirstCode(s: State, k: nat, codes: seq<int>, code: int)
    requires k < |s.suite| && Mass(s, OnlyId(k)) == 1 && Recorded(s, k, codes) && codes != [] && codes[0] == code
    ensures Carries(s, k, code)
  {
    if NoneIn(s.output, k) && NoneIn(s.collected, k) {
      var n := |s.suite|;
      NoneWeighNothing(s.todo, n, k);
      NoneWeighNothing(s.input, n, k);
      NoneWeighNothing(s.output, n, k);
      NoneWeighNothing(s.collected, n, k);
      SumWorkersZero(InHand(n, OnlyId(k)), s.workers);
      assert false;
    }
  }

  lemma KeptFrom(s: State, steps: seq<Step>, t: State, k: nat, code: int)
    requires Inv(s) && k < |s.suite| && Mass(s, OnlyId(k)) == 1 && Recorded(s, k, [code]) && Run(s, steps, t)
    ensures Carries(t, k, code)
  {
    RunMass(s, steps, t, OnlyId(k));
    RunInv(s, steps, t);
    RunRecorded(s, steps, t, k, [code]);
    CarriesFirstCode(t, k, [code] + CodesOf(s, steps, t, k), code);
  }

  lemma KnownWell(suite: seq<Job>, processors: nat, steps: seq<Step>, t: State, k: nat)
    requires WellFormedSuite(suite) && k < |suite| && Run(Init(suite, processors), steps, t)
    ensures Mass(t, OnlyId(k)) == 1 && Recorded(t, k, CodesOf(Init(suite, processors), steps, t, k))
  {
    OneOfEach(suite, processors, steps, t, k, OnlyId(k));
    ResultsShowCodes(suite, processors, steps, t, k);
  }

  /** From the step that finishes the command of a job with some code, for ever after, the job has a result and the
      result shows that code. */
  lemma CodeIsKept(suite: seq<Job>, processors: nat, before: seq<Step>, s: State, i: nat, code: int,
                   after: seq<Step>, t: State)
    requires WellFormedSuite(suite) && Run(Init(suite, processors), before, s)
    requires Enabled(s, Finish(i, code)) && Run(Apply(s, Finish(i, code)), after, t)
    ensures Carries(t, s.workers[i].job.id, code)
  {
    var k, u := s.workers[i].job.id, Apply(s, Finish(i, code));
    InitInv(suite, processors);
    RunInv(Init(suite, processors), before, s);
    KnownWell(suite, processors, before, s, k);
    FinishGives(s, i, code, k, CodesOf(Init(suite, processors), before, s, k));
    KeptFrom(u, after, t, k, code);
  }

  // ---------------------------------------------------------------- all the results together

  /** Counts the results that show a code of some kind. */
  ghost function ShowsCode(kind: int -> bool): Job -> nat {
    (job: Job) => var one: nat := if !job.isBreak && !job.isSkip && kind(job.returncode) then 1 else 0; one
  }

  /** How many commands gave a code of some kind. */
  ghost function Given(steps: seq<Step>, kind: int -> bool): nat {
    if steps == [] then 0 else GivenBy(steps[0], kind) + Given(steps[1..], kind)
  }

  ghost function GivenBy(step: Step, kind: int -> bool): nat {
    if step.Finish? && kind(step.code) then 1 else 0
  }

  ghost function Shown(s: State, kind: int -> bool): nat {
    Sum(ShowsCode(kind), s.output) + Sum(ShowsCode(kind), s.collected)
  }

  /** A step that gives a code adds one result that shows it, and no other step changes what is shown. */
  lemma ShownStep(s: State, step: Step, kind: int -> bool)
    requires WorkersInv(s) && Enabled(s, step)
    ensures Shown(Apply(s, step), kind) == Shown(s, kind) + GivenBy(step, kind)
  {
    var t := Apply(s, step);
    if step == Collect {
      SumAppend(ShowsCode(kind), s.collected, s.output[0]);
    } else if |t.output| > |s.output| {
      SumAppend(ShowsCode(kind), s.output, t.output[|s.output|]);
    }
  }

  lemma {:induction false} RunShown(s: State, steps: seq<Step>, t: State, kind: int -> bool)
    requires Inv(s) && Run(s, steps, t)
    ensures Shown(t, kind) == Shown(s, kind) + Given(steps, kind)
    decreases steps
  {
    if steps != [] {
      InvStep(s, steps[0]);
      ShownStep(s, steps[0], kind);
      RunShown(Apply(s, steps[0]), steps[1..], t, kind);
    }
  }

  lemma NothingLeft(suite: seq<Job>, processors: nat, steps: seq<Step>, t: State)
    requires WellFormedSuite(suite) && Run(Init(suite, processors), steps, t) && Done(t)
    ensures t.output == []
  {
    InitInv(suite, processors);
    RunInv(Init(suite, processors), steps, t);
    AllJobsMass(suite, processors, steps, t);
    SumBound(OfJob(|suite|, One()), t.collected);
    SumBound(OfJob(|suite|, One()), t.output);
  }

  /** When the program is done, as many collected results show a code of some kind as commands gave one. */
  lemma CollectedAsGiven(suite: seq<Job>, processors: nat, steps: seq<Step>, t: State, kind: int -> bool)
    requires WellFormedSuite(suite) && Run(Init(suite, processors), steps, t) && Done(t)
    ensures Sum(ShowsCode(kind), t.collected) == Given(steps, kind)
  {
    InitInv(suite, processors);
    NothingLeft(suite, processors, steps, t);
    RunShown(Init(suite, processors), steps, t, kind);
  }

  lemma {:induction false} SumSame(f: Job -> nat, g: Job -> nat, q: seq<Job>)
    requires forall job :: f(job) == g(job)
    ensures Sum(f, q) == Sum(g, q)
  {
    if q != [] {
      SumSame(f, g, q[1..]);
    }
  }

  lemma CounterTells(suite: seq<Job>, processors: nat, steps: seq<Step>, t: State, o: Outcome, kind: int -> bool)
    requires WellFormedSuite(suite) && Run(Init(suite, processors), steps, t) && Done(t)
    requires forall job :: Counted(o)(job) == ShowsCode(kind)(job)
    ensures Sum(Counted(o), t.collected) == Given(steps, kind)
  {
    SumSame(Counted(o), ShowsCode(kind), t.collected);
    CollectedAsGiven(suite, processors, steps, t, kind);
  }

  lemma CountersAreSums(suite: seq<Job>, processors: nat, steps: seq<Step>, t: State)
    requires WellFormedSuite(suite) && Run(Init(suite, processors), steps, t)
    ensures t.counters.passed == Sum(Counted(Pass), t.collected) && t.counters.failed == Sum(Counted(Fail), t.collected)
    ensures t.counters.valgrind == Sum(Counted(Valgr), t.collected)
    ensures t.counters.crashed == Sum(Counted(Crash), t.collected)
  {
    InitInv(suite, processors);
    RunInv(Init(suite, processors), steps, t);
  }

  /** When the program is done, its counters count the codes that the commands gave: 0, 1, 2 and all others. */
  lemma CountersTellCodes(suite: seq<Job>, processors: nat, steps: seq<Step>, t: State)
    requires WellFormedSuite(suite) && Run(Init(suite, processors), steps, t) && Done(t)
    ensures t.counters.passed == Given(steps, code => code == 0)
    ensures t.counters.failed == Given(steps, code => code == 1)
    ensures t.counters.valgrind == Given(steps, code => code == 2)
    ensures t.counters.crashed == Given(steps, code => code !in {0, 1, 2})
  {
    CountersAreSums(suite, processors, steps, t);
    CounterTells(suite, processors, steps, t, Pass, code => code == 0);
    CounterTells(suite, processors, steps, t, Fail, code => code == 1);
    CounterTells(suite, processors, steps, t, Valgr, code => code == 2);
    CounterTells(suite, processors, steps, t, Crash, code => code !in {0, 1, 2});
  }

  lemma {:induction false} GivenNone(steps: seq<Step>, kind: int -> bool)
    ensures Given(steps, kind) == 0 <==> forall j :: 0 <= j < |steps| && steps[j].Finish? ==> !kind(steps[j].code)
  {
    if steps != [] {
      GivenNone(steps[1..], kind);
      assert forall j :: 1 <= j < |steps| ==> steps[j] == steps[1..][j - 1];
    }
  }

  /** No command gave any code but 0. */
  ghost predicate AllPassed(steps: seq<Step>) {
    forall j :: 0 <= j < |steps| && steps[j].Finish? ==> steps[j].code == 0
  }

  ghost predicate NoInterrupt(q: seq<Job>) {
    forall j :: 0 <= j < |q| ==> !q[j].isBreak
  }

  lemma GoodResults(q: seq<Job>, steps: seq<Step>)
    requires Sum(ShowsCode(code => code != 0), q) == Given(steps, code => code != 0)
    ensures (forall j :: 0 <= j < |q| ==> PassedOrSkipped(q[j])) <==> NoInterrupt(q) && AllPassed(steps)
  {
    var bad := ShowsCode(code => code != 0);
    GivenNone(steps, code => code != 0);
    if AllPassed(steps) {
      SumZero(bad, q);
      assert forall j :: 0 <= j < |q| ==> bad(q[j]) == 0;
    } else {
      var j := SumPositive(bad, q);
      assert !PassedOrSkipped(q[j]);
    }
  }

  lemma {:induction false} FlagIsLowered(s: State, steps: seq<Step>, t: State)
    requires Run(s, steps, t) && Sigint !in steps
    ensures t.threadExit == s.threadExit
    decreases steps
  {
    if steps != [] {
      FlagIsLowered(Apply(s, steps[0]), steps[1..], t);
    }
  }

  /** When the program is done, every job has one result, which shows the code that its command gave in this run, or
      an interrupt or a skip if its command was never finished. The exit status is 0 exactly when no job was interrupted
      and no command gave any code but 0, so without an interrupt it depends on the codes alone. */
  lemma StatusTellsCodes(suite: seq<Job>, processors: nat, steps: seq<Step>, t: State)
    requires WellFormedSuite(suite) && Run(Init(suite, processors), steps, t) && Done(t)
    ensures forall k: nat, j :: k < |suite| && 0 <= j < |t.collected| && t.collected[j].id == k ==>
              Shows(t.collected[j], CodesOf(Init(suite, processors), steps, t, k))
    ensures ExitStatus(t.counters, t.totalTests) == 0 <==> NoInterrupt(t.collected) && AllPassed(steps)
    ensures Sigint !in steps ==> (ExitStatus(t.counters, t.totalTests) == 0 <==> AllPassed(steps))
  {
    FinalAccounting(suite, processors, steps, t);
    CollectedAsGiven(suite, processors, steps, t, code => code != 0);
    GoodResults(t.collected, steps);
    if Sigint !in steps {
      FlagIsLowered(Init(suite, processors), steps, t);
    }
    forall k: nat, j | k < |suite| && 0 <= j < |t.collected| && t.collected[j].id == k
      ensures Shows(t.collected[j], CodesOf(Init(suite, processors), steps, t, k))
    {
      ResultsShowCodes(suite, processors, steps, t, k);
    }
  }

  // ---------------------------------------------------------------- interrupts

  ghost function IsRunning(): Worker -> nat {
    (x: Worker) => var one: nat := if x.Running? then 1 else 0; one
  }

  lemma NoNewCommand(s: State, step: Step)
    requires s.threadExit && Enabled(s, step)
    ensures Apply(s, step).threadExit
    ensures GivenBy(step, code => true) + SumWorkers(IsRunning(), Apply(s, step).workers)
         == SumWorkers(IsRunning(), s.workers)
  {
    if IsWorkerStep(step) {
      SumWorkersUpdate(IsRunning(), s.workers, step.i, Apply(s, step).workers[step.i]);
    }
  }

  /** Once the exit flag is raised no command is started: those that give a code from then on, and those still running,
      are as many as were running. */
  lemma {:induction false} InterruptStopsStarting(s: State, steps: seq<Step>, t: State)
    requires s.threadExit && Run(s, steps, t)
    ensures Given(steps, code => true) + SumWorkers(IsRunning(), t.workers) == SumWorkers(IsRunning(), s.workers)
    decreases steps
  {
    if steps != [] {
      NoNewCommand(s, steps[0]);
      InterruptStopsStarting(Apply(s, steps[0]), steps[1..], t);
    }
  }
}
