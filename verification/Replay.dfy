/** The replay memory of the learner: a ring of flattened transitions, and the targets learned from a sample of it. */
module Replay {
  import opened Options
  import opened Arithmetic
  import opened Python

  /** The weights of a network. */
  type Params(==, !new)

  type Row = seq<real>

  datatype Transition = Transition(s: Row, a: int, r: real, next: Row)

  // ---------------------------------------------------------------- flattening and slicing

  function HStack(t: Transition): Row {
    t.s + [t.a as real, t.r] + t.next
  }

  /** row[:n] and row[-n:], where minus zero is zero. */
  function First(row: Row, n: nat): Row {
    if n <= |row| then row[..n] else row
  }

  function Last(row: Row, n: nat): Row {
    if n == 0 || n >= |row| then row else row[|row| - n..]
  }

  /** astype(int) rounds towards zero. */
  function Truncate(x: real): int {
    if x >= 0.0 then x.Floor else -(-x).Floor
  }

  /** The four slices that learn takes of a row give the transition back. */
  ghost predicate Recovers(row: Row, t: Transition, n: nat)
    requires |row| == 2 * n + 2
  {
    First(row, n) == t.s && Truncate(row[n]) == t.a && row[n + 1] == t.r && Last(row, n) == t.next
  }

  lemma TruncateInt(a: int)
    ensures Truncate(a as real) == a
  {
    assert (-a) as real == -(a as real);
  }

  lemma HStackParts(t: Transition, n: nat)
    requires |t.s| == n && |t.next| == n
    ensures var row := HStack(t);
            row[..n] == t.s && row[n] == t.a as real && row[n + 1] == t.r && row[n + 2..] == t.next
  {}

  /** Every transition with the right total length is accepted into the memory; the slices give it back exactly when
      its two observations have the same length. */
  lemma RecoversIff(t: Transition, n: nat)
    requires n >= 1 && |t.s| + |t.next| == 2 * n
    ensures Recovers(HStack(t), t, n) <==> |t.s| == n
  {
    if |t.s| == n {
      HStackParts(t, n);
      TruncateInt(t.a);
      assert |HStack(t)| - n == n + 2;
    } else {
      assert |First(HStack(t), n)| == n;
    }
  }

  /** Without features the slice [-0:] is the whole row instead of the empty observation. */
  lemma NoFeatures(t: Transition)
    requires |t.s| == 0 && |t.next| == 0
    ensures !Recovers(HStack(t), t, 0)
  {
    assert |Last(HStack(t), 0)| == 2;
  }

  // ---------------------------------------------------------------- the ring

  /** i is the number of the latest of m transitions stored in row j. */
  ghost predicate IsLatest(m: nat, size: nat, j: nat, i: nat)
    requires size > 0
  {
    i < m && i % size == j && forall k :: i < k < m ==> k % size != j
  }

  ghost predicate NeverWritten(m: nat, size: nat, j: nat)
    requires size > 0
  {
    forall k :: 0 <= k < m ==> k % size != j
  }

  function ZeroRow(width: nat): Row {
    seq(width, _ => 0.0)
  }

  /** Each row holds the latest transition whose number is its index modulo the size, and zeros if there is none. */
  ghost predicate Refines(rows: seq<Row>, history: seq<Transition>, width: nat)
    requires |rows| > 0
  {
    var m, size := |history|, |rows|;
    && (forall j, i :: 0 <= j < size && 0 <= i < m && IsLatest(m, size, j, i) ==> rows[j] == HStack(history[i]))
    && (forall j :: 0 <= j < size && NeverWritten(m, size, j) ==> rows[j] == ZeroRow(width))
  }

  lemma RefinesStep(rows: seq<Row>, history: seq<Transition>, width: nat, t: Transition)
    requires |rows| > 0 && Refines(rows, history, width)
    ensures Refines(rows[|history| % |rows| := HStack(t)], history + [t], width)
  {
    var m, size := |history|, |rows|;
    var after, longer := rows[m % size := HStack(t)], history + [t];
    forall j, i | 0 <= j < size && 0 <= i < m + 1 && IsLatest(m + 1, size, j, i)
      ensures after[j] == HStack(longer[i])
    {
      if j == m % size {
        assert i == m;
      } else {
        assert i < m && IsLatest(m, size, j, i);
      }
    }
    forall j | 0 <= j < size && NeverWritten(m + 1, size, j)
      ensures after[j] == ZeroRow(width)
    {
      assert m % size != j;
      assert NeverWritten(m, size, j);
    }
  }

  lemma DifferentResidues(i: nat, k: nat, size: nat)
    requires i < k < i + size
    ensures k % size != i % size
  {
    Distribute(size, k / size, i / size);
    if k / size != i / size {
      SmallMultiple(size, k / size - i / size);
    }
  }

  /** Nothing recent is lost: each of the last `size` transitions is the latest of its row. */
  lemma RecentIsLatest(m: nat, size: nat, i: nat)
    requires size > 0 && i < m <= i + size
    ensures IsLatest(m, size, i % size, i)
  {
    forall k | i < k < m
      ensures k % size != i % size
    {
      DifferentResidues(i, k, size);
    }
  }

  lemma RecentIsKept(rows: seq<Row>, history: seq<Transition>, width: nat, i: nat)
    requires |rows| > 0 && Refines(rows, history, width) && i < |history| <= i + |rows|
    ensures rows[i % |rows|] == HStack(history[i])
  {
    RecentIsLatest(|history|, |rows|, i);
  }

  /** The latest number up to k stored in row j. */
  lemma {:induction false} LatestUpTo(m: nat, size: nat, j: nat, k: nat) returns (i: nat)
    requires 0 < size && j < size && j <= k < m && (forall l :: k < l < m ==> l % size != j)
    ensures IsLatest(m, size, j, i)
    decreases k
  {
    if k % size == j {
      i := k;
    } else {
      assert j % size == j;
      i := LatestUpTo(m, size, j, k - 1);
    }
  }

  lemma LatestIsRecent(m: nat, size: nat, j: nat, i: nat)
    requires size > 0 && IsLatest(m, size, j, i)
    ensures m <= i + size
  {
    if i + size < m {
      SameResidue(i, size);
    }
  }

  lemma SameResidue(i: nat, size: nat)
    requires size > 0
    ensures (i + size) % size == i % size
  {
    Distribute(size, i / size + 1, 1);
    Division(i + size, size, i / size + 1, i % size);
  }

  /** A sampled row has been written, and holds one of the last `size` transitions. */
  lemma SampledRow(rows: seq<Row>, history: seq<Transition>, width: nat, j: nat) returns (i: nat)
    requires |rows| > 0 && Refines(rows, history, width)
    requires j < if |history| > |rows| then |rows| else |history|
    ensures i < |history| <= i + |rows| && j < |rows| && rows[j] == HStack(history[i])
  {
    i := LatestUpTo(|history|, |rows|, j, |history| - 1);
    LatestIsRecent(|history|, |rows|, j, i);
  }

  /** The rows that may be sampled are exactly those that have been written. */
  lemma SampledIffWritten(m: nat, size: nat, j: nat)
    requires j < size
    ensures j < (if m > size then size else m) <==> !NeverWritten(m, size, j)
  {
    Division(j, size, 0, j);
    if m <= j {
      forall k | 0 <= k < m
        ensures k % size != j
      {
        Division(k, size, 0, k);
      }
    }
  }

  // ---------------------------------------------------------------- targets

  function Max(s: seq<real>): (x: real)
    requires s != []
    ensures x in s && forall y :: y in s ==> y <= x
  {
    if |s| == 1 then s[0]
    else
      assert forall y :: y in s ==> y == s[0] || y in s[1..];
      var rest := Max(s[1..]);
      if s[0] >= rest then s[0] else rest
  }

  /** The position an index denotes in a list of n values; a negative index counts from the end. */
  function Index(a: int, n: nat): (i: Option<nat>)
    ensures i.Some? ==> i.value < n
  {
    var position: int := if a >= 0 then a else a + n;
    if 0 <= position < n then Some(position) else None
  }

  /** What numpy.random.choice promises: as many numbers as asked for, each below the bound. */
  ghost predicate Chooses(choose: nat -> seq<nat>, size: nat) {
    forall bound: nat :: bound > 0 ==> |choose(bound)| == size && forall k :: 0 <= k < size ==> choose(bound)[k] < bound
  }

  /** A learner with its networks' predictions given by a function of weights and observation. */
  class DeepQNetwork {
    const nActions: nat
    const nFeatures: nat
    const batchSize: nat
    const replaceTargetIter: nat
    const gamma: real
    const predict: (Params, Row) -> seq<real>
    const memory: array<Row>
    var memoryCounter: Option<nat>
    var learnStepCounter: nat
    var evalParams: Params
    var targetParams: Params
    /** Everything ever stored, and the evaluation network's weights at every completed learning step. */
    ghost var history: seq<Transition>
    ghost var evalAt: seq<Params>

    /** The networks give one value per action. */
    ghost predicate Predicts() {
      forall p, x :: |predict(p, x)| == nActions
    }

    ghost predicate Valid()
      reads this, memory
    {
      && Predicts()
      && (forall t :: t in history ==> |HStack(t)| == Width())
      && (forall j :: 0 <= j < memory.Length ==> |memory[j]| == Width())
      && (history != [] ==> memoryCounter == Some(|history|))
      && (history == [] ==> memoryCounter == None || memoryCounter == Some(0))
      && (memory.Length == 0 ==> history == [])
      && (memory.Length > 0 ==> Refines(memory[..], history, Width()))
    }

    /** Between steps, the target network has the weights of the last synchronisation, or those of one already made
        for the coming step by an attempt that failed later. */
    ghost predicate Synchronised()
      reads this
    {
      && |evalAt| == learnStepCounter
      && (learnStepCounter > 0 ==>
            && replaceTargetIter > 0
            && (targetParams == evalAt[LastMultiple(learnStepCounter - 1, replaceTargetIter)]
                || (learnStepCounter % replaceTargetIter == 0 && targetParams == evalParams)))
    }

    function Width(): nat {
      2 * nFeatures + 2
    }

    constructor (nActions: nat, nFeatures: nat, replaceTargetIter: nat, memorySize: nat, batchSize: nat, gamma: real,
                 predict: (Params, Row) -> seq<real>, evalParams: Params, targetParams: Params)
      requires forall p, x :: |predict(p, x)| == nActions
      ensures Valid() && Synchronised() && fresh(memory) && history == [] && memoryCounter == None
              && learnStepCounter == 0
      ensures this.nActions == nActions && this.nFeatures == nFeatures && this.replaceTargetIter == replaceTargetIter
      ensures memory.Length == memorySize && this.batchSize == batchSize && this.gamma == gamma
              && this.predict == predict
      ensures this.evalParams == evalParams && this.targetParams == targetParams
    {
      this.nActions, this.nFeatures, this.replaceTargetIter := nActions, nFeatures, replaceTargetIter;
      this.batchSize, this.gamma, this.predict := batchSize, gamma, predict;
      this.evalParams, this.targetParams := evalParams, targetParams;
      var width := 2 * nFeatures + 2;
      memory := new Row[memorySize](_ => ZeroRow(width));
      memoryCounter, learnStepCounter := None, 0;
      history, evalAt := [], [];
    }

    /** store_transition. */
    method StoreTransition(s: Row, a: int, r: real, next: Row) returns (outcome: Outcome)
      requires Valid() && Synchronised()
      modifies this`memoryCounter, this`history, memory
      ensures Valid() && Synchronised()
      ensures memoryCounter == Some(|history|)
      ensures outcome == if memory.Length == 0 then ZeroDivisionError
                         else if |s| + |next| != 2 * nFeatures then ValueError
                         else Done
      ensures history == if outcome == Done then old(history) + [Transition(s, a, r, next)] else old(history)
    {
      if memoryCounter == None {
        memoryCounter := Some(0);
      }
      ghost var t := Transition(s, a, r, next);
      var transition := s + [a as real, r] + next;
      if memory.Length == 0 {
        return ZeroDivisionError;
      }
      var index := memoryCounter.value % memory.Length;
      if |transition| != Width() {
        return ValueError;
      }
      RefinesStep(memory[..], history, Width(), t);
      ghost var before := memory[..];
      memory[index] := transition;
      assert memory[..] == before[index := HStack(t)];
      memoryCounter := Some(memoryCounter.value + 1);
      history := history + [t];
      outcome := Done;
    }

    /** Both observations have a value per feature, and the action is one of the network's. */
    ghost predicate WellFormed(t: Transition) {
      |t.s| == nFeatures && |t.next| == nFeatures && 0 <= t.a < nActions
    }

    /** The target of one sample: the prediction for the state before, except at the action taken, where it is the
        reward plus the discounted best prediction, by the target network, for the state after. */
    ghost predicate IsTarget(q: seq<real>, t: Transition, eval: Params, target: Params)
      requires WellFormed(t) && Predicts()
    {
      && |q| == nActions
      && (forall j :: 0 <= j < nActions && j != t.a ==> q[j] == predict(eval, t.s)[j])
      && q[t.a] == t.r + gamma * Max(predict(target, t.next))
    }

    /** How many rows learn may draw from. */
    function SampleBound(): nat
      requires memoryCounter.Some?
      reads this
    {
      if memoryCounter.value > memory.Length then memory.Length else memoryCounter.value
    }

    /** Learning may draw exactly the rows that hold a transition. */
    lemma DrawableRows(j: nat)
      requires Valid() && memoryCounter.Some? && j < memory.Length
      ensures j < SampleBound() <==> !NeverWritten(|history|, memory.Length, j)
    {
      SampledIffWritten(|history|, memory.Length, j);
    }

    /** The row's action indexes the network's outputs. */
    predicate Usable(row: Row)
      requires |row| == Width()
    {
      Index(Truncate(row[nFeatures]), nActions).Some?
    }

    predicate AllUsable(batch: seq<Row>)
      requires forall k :: 0 <= k < |batch| ==> |batch[k]| == Width()
    {
      forall k :: 0 <= k < |batch| ==> Usable(batch[k])
    }

    function TargetOf(row: Row, eval: Params, target: Params): seq<real>
      requires |row| == Width() && Usable(row) && Predicts()
    {
      var qEval, qNext := predict(eval, First(row, nFeatures)), predict(target, Last(row, nFeatures));
      qEval[Index(Truncate(row[nFeatures]), nActions).value := row[nFeatures + 1] + gamma * Max(qNext)]
    }

    function Targets(batch: seq<Row>, eval: Params, target: Params): (q: seq<seq<real>>)
      requires (forall k :: 0 <= k < |batch| ==> |batch[k]| == Width()) && AllUsable(batch) && Predicts()
    {
      seq(|batch|, k requires 0 <= k < |batch| => TargetOf(batch[k], eval, target))
    }

    lemma TargetFromRow(t: Transition, eval: Params, target: Params)
      requires nFeatures >= 1 && WellFormed(t) && Predicts()
      ensures Usable(HStack(t)) && IsTarget(TargetOf(HStack(t), eval, target), t, eval, target)
    {
      RecoversIff(t, nFeatures);
    }

    /** The rows are those of the full history, whose transitions all have the right shape. */
    ghost predicate Remembers(rows: seq<Row>, history: seq<Transition>) {
      && nFeatures >= 1 && rows != [] && Predicts() && Refines(rows, history, Width())
      && (forall j :: 0 <= j < |rows| ==> |rows[j]| == Width())
      && (forall t :: t in history ==> WellFormed(t))
    }

    /** q is the target of a transition that row j holds, one of the last as many as there are rows. */
    ghost predicate LearnsFrom(q: seq<real>, rows: seq<Row>, history: seq<Transition>, j: nat, eval: Params,
                               target: Params)
      requires Predicts() && forall t :: t in history ==> WellFormed(t)
    {
      exists i: nat :: Holds(rows, history, j, i) && IsTarget(q, history[i], eval, target)
    }

    lemma RowTarget(rows: seq<Row>, history: seq<Transition>, j: nat, eval: Params, target: Params)
      requires Remembers(rows, history) && j < if |history| > |rows| then |rows| else |history|
      ensures Usable(rows[j]) && nActions > 0
              && LearnsFrom(TargetOf(rows[j], eval, target), rows, history, j, eval, target)
    {
      var i := SampledRow(rows, history, Width(), j);
      TargetFromRow(history[i], eval, target);
      assert Holds(rows, history, j, i);
    }

    ghost predicate LearnsSample(qTarget: seq<seq<real>>, rows: seq<Row>, history: seq<Transition>, sample: seq<nat>,
                                 eval: Params, target: Params)
      requires Predicts() && forall t :: t in history ==> WellFormed(t)
    {
      && |qTarget| == |sample|
      && forall k :: 0 <= k < |sample| ==> LearnsFrom(qTarget[k], rows, history, sample[k], eval, target)
    }

    lemma SampleTargets(rows: seq<Row>, history: seq<Transition>, sample: seq<nat>, batch: seq<Row>, eval: Params,
                        target: Params)
      requires Remembers(rows, history)
      requires forall k :: 0 <= k < |sample| ==> sample[k] < if |history| > |rows| then |rows| else |history|
      requires |batch| == |sample| && forall k :: 0 <= k < |sample| ==> batch[k] == rows[sample[k]]
      ensures AllUsable(batch) && (sample != [] ==> nActions > 0)
      ensures LearnsSample(Targets(batch, eval, target), rows, history, sample, eval, target)
    {
      forall k | 0 <= k < |sample|
        ensures Usable(batch[k]) && nActions > 0
        ensures LearnsFrom(TargetOf(batch[k], eval, target), rows, history, sample[k], eval, target)
      {
        RowTarget(rows, history, sample[k], eval, target);
      }
      if sample != [] {
        RowTarget(rows, history, sample[0], eval, target);
      }
    }

    /** The middle of learn: draws rows and computes the targets to train towards. */
    method DrawTargets(choose: nat -> seq<nat>) returns (outcome: Outcome, qTarget: seq<seq<real>>)
      requires Valid() && Chooses(choose, batchSize)
      ensures outcome == AttributeError <==> memoryCounter == None
      ensures outcome != ZeroDivisionError
      ensures Remembers(memory[..], history) ==>
                && (outcome == Done <==> history != [])
                && (outcome == Done ==>
                      LearnsSample(qTarget, memory[..], history, choose(SampleBound()), evalParams, targetParams))
    {
      if memoryCounter == None {
        return AttributeError, [];
      }
      var bound := if memoryCounter.value > memory.Length then memory.Length else memoryCounter.value;
      if bound == 0 {
        return ValueError, [];
      }
      var sampleIndex := choose(bound);
      var rows := memory[..];
      var batchMemory := seq(batchSize, k requires 0 <= k < batchSize => rows[sampleIndex[k]]);
      if Remembers(rows, history) {
        SampleTargets(rows, history, sampleIndex, batchMemory, evalParams, targetParams);
      }
      if nActions == 0 && batchSize > 0 {
        return ValueError, [];
      }
      if !AllUsable(batchMemory) {
        return IndexError, [];
      }
      qTarget := Targets(batchMemory, evalParams, targetParams);
      outcome := Done;
    }

    /** learn, with the draw and the result of training as parameters. */
    method Learn(choose: nat -> seq<nat>, trained: Params) returns (outcome: Outcome, qTarget: seq<seq<real>>)
      requires Valid() && Synchronised() && Chooses(choose, batchSize)
      modifies this`learnStepCounter, this`evalParams, this`targetParams, this`evalAt
      ensures Valid() && Synchronised()
      ensures outcome == Done ==>
                && learnStepCounter == old(learnStepCounter) + 1 && evalParams == trained
                && evalAt == old(evalAt) + [old(evalParams)] && replaceTargetIter > 0
                && targetParams == evalAt[LastMultiple(old(learnStepCounter), replaceTargetIter)]
      ensures outcome != Done ==> unchanged(`learnStepCounter, `evalParams, `evalAt)
      ensures outcome == ZeroDivisionError <==> replaceTargetIter == 0
      ensures outcome == AttributeError <==> replaceTargetIter > 0 && memoryCounter == None
      ensures Remembers(memory[..], history) ==>
                && (outcome == Done <==> replaceTargetIter > 0 && history != [])
                && (outcome == Done ==>
                      LearnsSample(qTarget, memory[..], history, choose(SampleBound()), old(evalParams), targetParams))
    {
      if replaceTargetIter == 0 {
        return ZeroDivisionError, [];
      }
      if learnStepCounter % replaceTargetIter == 0 {
        targetParams := evalParams;
      }
      outcome, qTarget := DrawTargets(choose);
      if outcome == Done {
        NextMultiple(learnStepCounter, replaceTargetIter);
        evalAt := evalAt + [evalParams];
        evalParams := trained;
        learnStepCounter := learnStepCounter + 1;
      }
    }
  }

  /** Row j holds transition i, which is one of the last as many as there are rows. */
  ghost predicate Holds(rows: seq<Row>, history: seq<Transition>, j: nat, i: nat) {
    j < |rows| && i < |history| <= i + |rows| && rows[j] == HStack(history[i])
  }

  /** The last step up to t at which the target network was synchronised. */
  function LastMultiple(t: nat, period: nat): (s: nat)
    requires period > 0
    ensures s <= t
  {
    Remainder(t, period);
    t - t % period
  }

  /** It is a multiple of the period, and the next one comes after t. */
  lemma LatestMultiple(t: nat, period: nat)
    requires period > 0
    ensures LastMultiple(t, period) % period == 0 && LastMultiple(t, period) <= t < LastMultiple(t, period) + period
  {
    Division(LastMultiple(t, period), period, t / period, 0);
  }

  lemma Remainder(t: nat, period: nat)
    requires period > 0
    ensures t % period <= t
  {
    if t < period {
      Division(t, period, 0, t);
    }
  }

  lemma NextMultiple(t: nat, period: nat)
    requires period > 0
    ensures t % period == 0 ==> LastMultiple(t, period) == t
    ensures t % period != 0 ==> t > 0 && LastMultiple(t, period) == LastMultiple(t - 1, period)
  {
    if t % period != 0 {
      Division(t - 1, period, t / period, t % period - 1);
    }
  }
}
