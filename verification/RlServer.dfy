/** The server's objects: the recorder, the learner it feeds and the script's own variables. */
module RlServer {
  import opened Options
  import opened Python
  import opened Records
  import opened Replay
  import opened Episode

  class DataRecorder {
    var nextSeqNum: nat
    var data: map<int, Record>
    var action: seq<int>

    ghost predicate Valid()
      reads this
    {
      NumberedFromZero(data, nextSeqNum)
    }

    constructor ()
      ensures Valid() && nextSeqNum == 0 && data == map[] && action == []
    {
      nextSeqNum, data, action := 0, map[], [];
    }

    /** add_one_record, of the fields a message was split into. */
    method AddOneRecord(row: Record) returns (outcome: Outcome)
      requires Valid()
      modifies this`nextSeqNum, this`data
      ensures Valid()
      ensures outcome in {Done, KeyError, AssertionError} && (outcome == Done <==> Acceptable(row, old(nextSeqNum)))
      ensures outcome == Done ==> nextSeqNum == old(nextSeqNum) + 1 && data == old(data)[old(nextSeqNum) := row]
      ensures outcome != Done ==> unchanged(this)
    {
      if SIZE !in row {
        return KeyError;
      }
      if row[SIZE] != |row| {
        return AssertionError;
      }
      if SSN !in row {
        return KeyError;
      }
      if row[SSN] != nextSeqNum {
        return AssertionError;
      }
      if TIME !in row {
        return KeyError;
      }
      if exists k :: 0 <= k < |SUBFLOW_FIELDS| && Numbered(SUBFLOW_FIELDS[k], 2) in row {
        return AssertionError;
      }
      if exists k :: 0 <= k < |META_FIELDS| && Plain(META_FIELDS[k]) !in row {
        return KeyError;
      }
      data := data[nextSeqNum := row];
      nextSeqNum := nextSeqNum + 1;
      outcome := Done;
    }

    function GetLatestData(): Record
      requires Valid() && nextSeqNum > 0
      reads this
    {
      data[nextSeqNum - 1]
    }

    /** add_pair_to_last_record, for the scheduler's number. */
    method AddSchedulerToLastRecord(value: int)
      requires Valid() && nextSeqNum > 0
      modifies this`data
      ensures Valid()
      ensures data == old(data)[nextSeqNum - 1 := old(data)[nextSeqNum - 1][SCHEDULER := value]]
    {
      data := data[nextSeqNum - 1 := data[nextSeqNum - 1][SCHEDULER := value]];
    }
  }

  /** The schedulers an option can force. */
  const FORCED: map<string, int> := map["RR" := 0, "RTT" := 1, "RD" := 2, "L-DBP" := 3]

  class Server {
    const rl: DeepQNetwork
    const switchInterval: int
    const forceReply: Option<string>
    var recorder: DataRecorder
    var lastAckedSeqSum: int
    var lastSchedulerTiming: Option<int>
    var accumulativeReward: real
    var action: Option<int>
    var step: nat
    var observationBeforeAction: seq<real>

    ghost function Now(): Vars
      reads this, recorder
    {
      Vars(recorder.data, recorder.nextSeqNum, recorder.action, lastAckedSeqSum, lastSchedulerTiming, action,
           accumulativeReward, step, observationBeforeAction)
    }

    constructor (rl: DeepQNetwork, switchInterval: int, forceReply: Option<string>)
      ensures this.rl == rl && this.switchInterval == switchInterval && this.forceReply == forceReply
      ensures lastAckedSeqSum == 0 && action == None && fresh(recorder)
    {
      this.rl, this.switchInterval, this.forceReply := rl, switchInterval, forceReply;
      recorder := new DataRecorder();
      lastAckedSeqSum, lastSchedulerTiming, accumulativeReward, action, step := 0, None, 0.0, None, 0;
      observationBeforeAction := [];
    }

    /** calculate_reward without a reset; it adds the same sum up twice. */
    method CalculateReward(row: Record) returns (outcome: Outcome, reward: real)
      modifies this`lastAckedSeqSum
      ensures outcome in {Done, KeyError} && (outcome == Done <==> HasAcks(row))
      ensures outcome == Done ==>
                reward == (Acked(row) - old(lastAckedSeqSum)) as real / SEGMENT && lastAckedSeqSum == Acked(row)
    {
      if SUBFLOWS !in row {
        return KeyError, 0.0;
      }
      var n := if row[SUBFLOWS] < 0 then 0 else row[SUBFLOWS];
      var gained := 0;
      for i := 0 to n
        invariant forall j: nat :: j < i ==> Numbered("lastAckedSeq", j) in row
        invariant gained == AckedUpTo(row, i)
      {
        if Numbered("lastAckedSeq", i) !in row {
          return KeyError, 0.0;
        }
        gained := gained + row[Numbered("lastAckedSeq", i)];
      }
      gained := gained - lastAckedSeqSum;
      lastAckedSeqSum := 0;
      for i := 0 to n
        invariant lastAckedSeqSum == AckedUpTo(row, i)
      {
        lastAckedSeqSum := lastAckedSeqSum + row[Numbered("lastAckedSeq", i)];
      }
      return Done, gained as real / SEGMENT;
    }

    /** Records a message's fields and extracts the observation from them. */
    method Observe(row: Record) returns (outcome: Outcome, observation: seq<real>)
      requires recorder.Valid()
      modifies recorder`data, recorder`nextSeqNum
      ensures recorder.Valid() && outcome != SystemExit
      ensures outcome == Done <==> Acceptable(row, old(recorder.nextSeqNum)) && Observable(row)
      ensures outcome == Done ==>
                && recorder.data == old(recorder.data)[old(recorder.nextSeqNum) := row]
                && recorder.nextSeqNum == old(recorder.nextSeqNum) + 1 && observation == Observation(row)
    {
      observation := [];
      outcome := recorder.AddOneRecord(row);
      if outcome == Done {
        outcome, observation := ExtractObservation(recorder.GetLatestData());
      }
    }

    /** The start of an episode, up to its loop. */
    method Begin(first: Option<Record>) returns (outcome: Outcome)
      modifies this
      ensures fresh(recorder) && action == old(action)
      ensures outcome == SystemExit <==> first == None
      ensures outcome == Done <==> first.Some? && Acceptable(first.value, 0) && Observable(first.value)
      ensures outcome == Done ==>
                Now() == Vars(map[0 := first.value], 1, [], 0, None, old(action), 0.0, 0, Observation(first.value))
    {
      recorder := new DataRecorder();
      if first == None {
        return SystemExit;
      }
      outcome, observationBeforeAction := Observe(first.value);
      if outcome != Done {
        return;
      }
      lastAckedSeqSum := 0;
      step, lastSchedulerTiming, accumulativeReward := 0, None, 0.0;
    }

    /** The scheduler a switch takes: the forced one if there is one. */
    function Choice(chosen: nat): (a: int)
      ensures chosen < 4 ==> 0 <= a < 4
    {
      if forceReply.Some? && forceReply.value in FORCED then FORCED[forceReply.value] else chosen
    }

    lemma ChoiceIs(chosen: nat)
      ensures forceReply == None ==> Choice(chosen) == chosen
      ensures forceReply == Some("RR") ==> Choice(chosen) == 0
      ensures forceReply == Some("RTT") ==> Choice(chosen) == 1
      ensures forceReply == Some("RD") ==> Choice(chosen) == 2
      ensures forceReply == Some("L-DBP") ==> Choice(chosen) == 3
    {}

    /** The schedulers on offer in the first n turns. */
    ghost function Offers(chosen: nat -> nat, n: nat): seq<int> {
      if n == 0 then [] else Offers(chosen, n - 1) + [Choice(chosen(n - 1))]
    }

    lemma {:induction false} OffersAt(chosen: nat -> nat, n: nat, k: nat)
      requires k < n
      ensures |Offers(chosen, n)| == n && Offers(chosen, n)[k] == Choice(chosen(k))
    {
      if k < n - 1 {
        OffersAt(chosen, n - 1, k);
      } else if n > 1 {
        OffersAt(chosen, n - 1, 0);
      }
    }

    /** The first half of the loop's body: answers the latest record. */
    method Reply(chosen: nat) returns (outcome: Outcome)
      requires HasLatest(Now()) && (lastSchedulerTiming.Some? ==> action.Some?)
      modifies this`lastSchedulerTiming, this`accumulativeReward, this`action, recorder`action, recorder`data
      ensures outcome ==
              if old(Due(Now(), switchInterval)) && forceReply.Some? && forceReply.value !in FORCED then KeyError
              else Done
      ensures outcome == Done ==> Now() == Replied(old(Now()), switchInterval, Choice(chosen))
    {
      var shouldUpdate := false;
      var time := recorder.GetLatestData()[TIME];
      if lastSchedulerTiming == None || time - lastSchedulerTiming.value > switchInterval {
        lastSchedulerTiming := Some(time);
        shouldUpdate := true;
        accumulativeReward := 0.0;
      }
      if shouldUpdate {
        action := Some(chosen);
        if forceReply.Some? {
          if forceReply.value !in FORCED {
            return KeyError;
          }
          action := Some(FORCED[forceReply.value]);
        }
        recorder.action := recorder.action + [action.value];
      } else {
        recorder.action := recorder.action + [NO_CHANGE];
      }
      recorder.AddSchedulerToLastRecord(action.value);
      outcome := Done;
    }

    /** The learner the script builds, with a memory of well-formed transitions only. */
    ghost predicate Learner()
      reads rl, rl.memory
    {
      && rl.Valid() && rl.Synchronised()
      && rl.nActions == 4 && rl.nFeatures == 4 && rl.replaceTargetIter == 200 && rl.memory.Length == 2000
      && forall t :: t in rl.history ==> rl.WellFormed(t)
    }

    /** Stores a transition and, every fifth step after the first 200, learns: neither can fail. */
    method Train(t: Transition, choose: nat -> seq<nat>, trained: Params)
      requires Learner() && rl.WellFormed(t) && Chooses(choose, rl.batchSize)
      modifies rl`memoryCounter, rl`history, rl.memory, rl`learnStepCounter, rl`evalParams, rl`targetParams, rl`evalAt
      ensures Learner() && rl.history == old(rl.history) + [t]
      ensures rl.learnStepCounter == old(rl.learnStepCounter) + if step > 200 && step % 5 == 0 then 1 else 0
    {
      var stored := rl.StoreTransition(t.s, t.a, t.r, t.next);
      if step > 200 && step % 5 == 0 {
        var learnt, qTarget := rl.Learn(choose, trained);
      }
    }

    /** Records the next message's fields and works out what the learner is told about it. */
    method TakeIn(row: Record) returns (outcome: Outcome, observation: seq<real>, reward: real)
      requires recorder.Valid()
      modifies this`lastAckedSeqSum, recorder`data, recorder`nextSeqNum
      ensures recorder.Valid()
      ensures outcome != SystemExit
      ensures outcome == Done <==> Acceptable(row, old(recorder.nextSeqNum)) && HasAcks(row) && Observable(row)
      ensures outcome == Done ==>
                && recorder.data == old(recorder.data)[old(recorder.nextSeqNum) := row]
                && recorder.nextSeqNum == old(recorder.nextSeqNum) + 1
                && lastAckedSeqSum == Acked(row) && observation == Observation(row)
                && reward == (Acked(row) - old(lastAckedSeqSum)) as real / SEGMENT
    {
      reward := 0.0;
      outcome, observation := Observe(row);
      if outcome != Done {
        return;
      }
      outcome, reward := CalculateReward(recorder.GetLatestData());
    }

    /** The second half of the loop's body: takes in the next record. */
    method Receive(row: Record, choose: nat -> seq<nat>, trained: Params) returns (outcome: Outcome)
      requires Learner() && HasLatest(Now()) && Chooses(choose, rl.batchSize)
      requires action.Some? && 0 <= action.value < 4 && |observationBeforeAction| == 4
      modifies this`lastAckedSeqSum, this`accumulativeReward, this`step, this`observationBeforeAction
      modifies recorder`data, recorder`nextSeqNum
      modifies rl`memoryCounter, rl`history, rl.memory, rl`learnStepCounter, rl`evalParams, rl`targetParams, rl`evalAt
      ensures Learner()
      ensures outcome != SystemExit
      ensures outcome == Done <==> Acceptable(row, old(recorder.nextSeqNum)) && HasAcks(row) && Observable(row)
      ensures outcome == Done ==> Now() == Received(old(Now()), row)
      ensures rl.history == old(rl.history) + if outcome == Done then [old(TransitionTo(Now(), row))] else []
    {
      var observationAfterAction, reward;
      outcome, observationAfterAction, reward := TakeIn(row);
      if outcome != Done {
        return;
      }
      accumulativeReward := accumulativeReward + reward;
      Train(Transition(observationBeforeAction, action.value, accumulativeReward, observationAfterAction), choose,
            trained);
      observationBeforeAction := observationAfterAction;
      step := step + 1;
    }

    /** Every choice is one of the four schedulers, and every draw of a sample is in range. */
    ghost predicate Draws(chosen: nat -> nat, choose: nat -> nat -> seq<nat>) {
      forall k :: chosen(k) < 4 && Chooses(choose(k), rl.batchSize)
    }

    /** Each record of an episode can be taken in. */
    ghost predicate AllUsable(rows: seq<Record>) {
      forall k :: 0 <= k < |rows| ==> UsableAt(rows[k], k)
    }

    ghost predicate UsableAt(row: Record, k: nat) {
      Acceptable(row, k) && Observable(row) && (k > 0 ==> HasAcks(row))
    }

    lemma UsableGrows(rows: seq<Record>, k: nat)
      requires k < |rows|
      ensures rows[..k] + [rows[k]] == rows[..k + 1] && rows[..|rows|] == rows
      ensures AllUsable(rows[..k + 1]) <==> AllUsable(rows[..k]) && UsableAt(rows[k], k)
      ensures !UsableAt(rows[k], k) ==> !AllUsable(rows)
    {
      assert forall j :: 0 <= j < k ==> rows[..k][j] == rows[..k + 1][j];
      assert rows[..k + 1][k] == rows[k];
    }

    lemma UsableNext(first: seq<Record>, received: seq<Record>, k: nat)
      requires |first| == 1 && k < |received| && AllUsable(first + received[..k])
      ensures first + received[..k] + [received[k]] == first + received[..k + 1]
      ensures if UsableAt(received[k], k + 1) then AllUsable(first + received[..k + 1])
              else !AllUsable(first + received)
    {
      var rows := first + received;
      assert rows[..k + 1] == first + received[..k] && rows[..k + 2] == first + received[..k + 1];
      UsableGrows(rows, k + 1);
    }

    ghost predicate ForcedKnown() {
      forceReply.Some? ==> forceReply.value in FORCED
    }

    /** The first half of the loop's body keeps everything in agreement. */
    method AnswerLatest(chosen: nat, ghost log: Log) returns (outcome: Outcome, ghost after: Log)
      requires AtLoopHead(Now(), rl.history, log, switchInterval) && chosen < 4
      modifies this`lastSchedulerTiming, this`accumulativeReward, this`action, recorder`action, recorder`data
      ensures outcome in {Done, KeyError}
      ensures outcome == Done <==>
                (LastSwitch(log.rows, switchInterval, |log.rows| - 1) == |log.rows| - 1 ==> ForcedKnown())
      ensures after == Chosen(log, Choice(chosen))
      ensures outcome == Done ==> AfterReply(Now(), rl.history, after, switchInterval)
    {
      after := Chosen(log, Choice(chosen));
      AnswerKeepsAgreement(Now(), rl.history, log, switchInterval, Choice(chosen));
      LatestRecord(Now(), log.rows, switchInterval);
      outcome := Reply(chosen);
    }

    /** The second half, too. */
    method TakeNext(row: Record, choose: nat -> seq<nat>, trained: Params, ghost log: Log)
      returns (outcome: Outcome, ghost after: Log)
      requires Learner() && AfterReply(Now(), rl.history, log, switchInterval) && Chooses(choose, rl.batchSize)
      modifies this`lastAckedSeqSum, this`accumulativeReward, this`step, this`observationBeforeAction
      modifies recorder`data, recorder`nextSeqNum
      modifies rl`memoryCounter, rl`history, rl.memory, rl`learnStepCounter, rl`evalParams, rl`targetParams, rl`evalAt
      ensures Learner() && outcome != SystemExit
      ensures outcome == Done <==> UsableAt(row, |log.rows|)
      ensures outcome == Done ==>
                && after.rows == log.rows + [row] && after.earlier == log.earlier && after.choices == log.choices
                && AtLoopHead(Now(), rl.history, after, switchInterval)
    {
      after := log;
      ghost var now, history := Now(), rl.history;
      ReadyToReceive(now, history, log, switchInterval);
      outcome := Receive(row, choose, trained);
      if outcome == Done {
        ReceiveKeepsAgreement(now, history, log, switchInterval, row);
        after := Longer(log, row, RewardFor(now, row));
      }
    }

    /** Everything up to the loop. */
    method Start(first: Option<Record>) returns (outcome: Outcome, ghost log: Log)
      modifies this
      ensures fresh(recorder)
      ensures outcome == SystemExit <==> first == None
      ensures outcome == Done <==> first.Some? && UsableAt(first.value, 0)
      ensures outcome == Done ==>
                log == Log([first.value], [], rl.history, []) && AtLoopHead(Now(), rl.history, log, switchInterval)
    {
      log := Log([], [], [], []);
      outcome := Begin(first);
      if outcome == Done {
        log := Log([first.value], [], rl.history, []);
        FirstRecord(Now(), first.value, rl.history, switchInterval);
      }
    }

    /** The loop's body: answers the latest record, and takes in the next one unless the simulator ended the episode. */
    method Turn(next: Option<Record>, chosen: nat, choose: nat -> seq<nat>, trained: Params, ghost log: Log)
      returns (outcome: Outcome, ghost after: Log)
      requires Learner() && AtLoopHead(Now(), rl.history, log, switchInterval)
      requires chosen < 4 && Chooses(choose, rl.batchSize)
      modifies this, recorder
      modifies rl`memoryCounter, rl`history, rl.memory, rl`learnStepCounter, rl`evalParams, rl`targetParams, rl`evalAt
      ensures Learner() && recorder == old(recorder) && outcome != SystemExit
      ensures outcome == Done ==>
                (|log.rows| == 1 ==> ForcedKnown()) && (next.Some? ==> UsableAt(next.value, |log.rows|))
      ensures outcome != Done ==> !ForcedKnown() || (next.Some? && !UsableAt(next.value, |log.rows|))
      ensures outcome == Done ==> after.choices == log.choices + [Choice(chosen)]
      ensures outcome == Done && next.None? ==>
                after.rows == log.rows && after.earlier == log.earlier
                && AfterReply(Now(), rl.history, after, switchInterval)
      ensures outcome == Done && next.Some? ==>
                && after.rows == log.rows + [next.value] && after.earlier == log.earlier
                && AtLoopHead(Now(), rl.history, after, switchInterval)
    {
      outcome, after := AnswerLatest(chosen, log);
      if outcome == Done && next.Some? {
        outcome, after := TakeNext(next.value, choose, trained, after);
      }
    }

    /** The loop, with the records received until the simulator ends the episode. */
    method Loop(received: seq<Record>, chosen: nat -> nat, choose: nat -> nat -> seq<nat>, trained: nat -> Params,
                ghost begun: Log)
      returns (outcome: Outcome, ghost log: Log)
      requires Learner() && AtLoopHead(Now(), rl.history, begun, switchInterval) && |begun.rows| == 1
               && AllUsable(begun.rows)
      requires Draws(chosen, choose) && begun.choices == []
      modifies this, recorder
      modifies rl`memoryCounter, rl`history, rl.memory, rl`learnStepCounter, rl`evalParams, rl`targetParams, rl`evalAt
      ensures Learner() && outcome != SystemExit
      ensures outcome == Done ==> AllUsable(log.rows) && ForcedKnown()
      ensures outcome != Done ==> !AllUsable(begun.rows + received) || !ForcedKnown()
      ensures outcome == Done ==>
                && log.rows == begun.rows + received && log.earlier == begun.earlier
                && log.choices == Offers(chosen, |received| + 1)
                && AfterReply(Now(), rl.history, log, switchInterval)
    {
      log := begun;
      assert received[..0] == [];
      var k := 0;
      while true
        invariant k <= |received| && recorder == old(recorder) && Learner() && log.earlier == begun.earlier
        invariant log.choices == Offers(chosen, k)
        invariant log.rows == begun.rows + received[..k] && AllUsable(log.rows) && (k > 0 ==> ForcedKnown())
        invariant AtLoopHead(Now(), rl.history, log, switchInterval)
        decreases |received| - k
      {
        if k == |received| {
          assert received[..k] == received;
          outcome, log := Turn(None, chosen(k), choose(k), trained(k), log);
          return;
        }
        UsableNext(begun.rows, received, k);
        outcome, log := Turn(Some(received[k]), chosen(k), choose(k), trained(k), log);
        if outcome != Done {
          return;
        }
        k := k + 1;
      }
    }

    /** An episode. */
    method RunEpisode(first: Option<Record>, received: seq<Record>, chosen: nat -> nat, choose: nat -> nat -> seq<nat>,
                      trained: nat -> Params)
      returns (outcome: Outcome, ghost log: Log)
      requires Learner()
      requires Draws(chosen, choose)
      modifies this
      modifies rl`memoryCounter, rl`history, rl.memory, rl`learnStepCounter, rl`evalParams, rl`targetParams, rl`evalAt
      ensures Learner()
      ensures outcome == SystemExit <==> first == None
      ensures outcome == Done <==> first.Some? && AllUsable([first.value] + received) && ForcedKnown()
      ensures outcome == Done ==>
                && log.rows == [first.value] + received && log.earlier == old(rl.history)
                && log.choices == Offers(chosen, |received| + 1)
                && AfterReply(Now(), rl.history, log, switchInterval)
    {
      outcome, log := Start(first);
      if first.Some? {
        UsableGrows([first.value] + received, 0);
      }
      if outcome == Done {
        outcome, log := Loop(received, chosen, choose, trained, log);
      }
    }
  }
}
