/** The server's episodes: records in, scheduler choices out, rewards and transitions to the learner. */
module Episode {
  import opened Options
  import opened Python
  import opened Records
  import opened Replay

  const NO_CHANGE := 999

  // ---------------------------------------------------------------- what an episode's lists must say

  /** Every record except perhaps the last has been answered: with a scheduler at a switch, with 999 in between. */
  ghost predicate Answered(actions: seq<int>, rows: seq<Record>, interval: int) {
    && |actions| <= |rows| && Timed(rows)
    && forall k :: 0 <= k < |actions| ==>
         if LastSwitch(rows, interval, k) == k then 0 <= actions[k] < 4 else actions[k] == NO_CHANGE
  }

  /** The scheduler in force after record k was answered. */
  ghost function InForce(actions: seq<int>, rows: seq<Record>, interval: int, k: nat): (a: int)
    requires Answered(actions, rows, interval) && k < |actions|
    ensures 0 <= a < 4
  {
    var w := LastSwitch(rows, interval, k);
    SwitchInForce(rows, interval, k, w);
    actions[w]
  }

  /** The recorder holds every record under its number, with the scheduler in force added once it was answered. */
  ghost predicate Recorded(data: map<int, Record>, actions: seq<int>, rows: seq<Record>, interval: int)
    requires Answered(actions, rows, interval)
  {
    && (forall k :: k in data <==> 0 <= k < |rows|)
    && forall k :: 0 <= k < |rows| ==> data[k] == Kept(actions, rows, interval, k)
  }

  ghost function Kept(actions: seq<int>, rows: seq<Record>, interval: int, k: nat): Record
    requires Answered(actions, rows, interval) && k < |rows|
  {
    if k < |actions| then rows[k][SCHEDULER := InForce(actions, rows, interval, k)] else rows[k]
  }

  ghost predicate Observed(rows: seq<Record>) {
    && rows != [] && Timed(rows) && AllAcked(rows)
    && forall k :: 0 <= k < |rows| ==> Observable(rows[k])
  }

  /** The transition from record k to the next: the scheduler in force, and what was gained since it was chosen. */
  ghost function TransitionFrom(actions: seq<int>, rows: seq<Record>, interval: int, k: nat): Transition
    requires Answered(actions, rows, interval) && Observed(rows) && k < |actions| && k + 1 < |rows|
  {
    Transition(Observation(rows[k]), InForce(actions, rows, interval, k),
               Gained(rows, LastSwitch(rows, interval, k), k + 1), Observation(rows[k + 1]))
  }

  /** The learner was given one transition for each pair of successive records, after those of earlier episodes. */
  ghost predicate Learned(history: seq<Transition>, earlier: seq<Transition>, actions: seq<int>, rows: seq<Record>,
                          interval: int)
    requires Answered(actions, rows, interval) && Observed(rows) && |rows| <= |actions| + 1
  {
    && |history| == |earlier| + |rows| - 1 && earlier <= history
    && forall k :: 0 <= k < |rows| - 1 ==> history[|earlier| + k] == TransitionFrom(actions, rows, interval, k)
  }

  // ---------------------------------------------------------------- answering the latest record

  lemma AnswerKeepsInForce(actions: seq<int>, rows: seq<Record>, interval: int, a: int, k: nat)
    requires Answered(actions, rows, interval) && Answered(actions + [a], rows, interval) && k < |actions|
    ensures InForce(actions + [a], rows, interval, k) == InForce(actions, rows, interval, k)
  {}

  lemma AnswerRecorded(data: map<int, Record>, actions: seq<int>, rows: seq<Record>, interval: int, a: int)
    requires |actions| + 1 == |rows| && Answered(actions, rows, interval) && Answered(actions + [a], rows, interval)
    requires Recorded(data, actions, rows, interval)
    ensures var last := |actions|;
            Recorded(data[last := data[last][SCHEDULER := InForce(actions + [a], rows, interval, last)]],
                     actions + [a], rows, interval)
  {
    forall k | 0 <= k < |actions|
      ensures Kept(actions + [a], rows, interval, k) == Kept(actions, rows, interval, k)
    {
      AnswerKeepsInForce(actions, rows, interval, a, k);
    }
    assert data[|actions|] == Kept(actions, rows, interval, |actions|) == rows[|actions|];
  }

  lemma AnswerLearned(history: seq<Transition>, earlier: seq<Transition>, actions: seq<int>, rows: seq<Record>,
                      interval: int, a: int)
    requires |actions| + 1 == |rows| && Answered(actions, rows, interval) && Answered(actions + [a], rows, interval)
    requires Observed(rows) && Learned(history, earlier, actions, rows, interval)
    ensures Learned(history, earlier, actions + [a], rows, interval)
  {
    forall k | 0 <= k < |rows| - 1
      ensures TransitionFrom(actions + [a], rows, interval, k) == TransitionFrom(actions, rows, interval, k)
    {
      AnswerKeepsInForce(actions, rows, interval, a, k);
    }
  }

  // ---------------------------------------------------------------- taking in a record

  lemma RecordAnswered(actions: seq<int>, rows: seq<Record>, interval: int, row: Record)
    requires Answered(actions, rows, interval) && TIME in row
    ensures Answered(actions, rows + [row], interval)
    ensures forall k :: 0 <= k < |rows| ==> LastSwitch(rows + [row], interval, k) == LastSwitch(rows, interval, k)
    ensures forall k :: 0 <= k < |actions| ==>
              InForce(actions, rows + [row], interval, k) == InForce(actions, rows, interval, k)
  {
    forall k | 0 <= k < |rows|
      ensures LastSwitch(rows + [row], interval, k) == LastSwitch(rows, interval, k)
    {
      LastSwitchOfLonger(rows, interval, k, row);
    }
  }

  lemma RecordRecorded(data: map<int, Record>, actions: seq<int>, rows: seq<Record>, interval: int, row: Record)
    requires Answered(actions, rows, interval) && TIME in row && |actions| == |rows|
    requires Recorded(data, actions, rows, interval)
    ensures Answered(actions, rows + [row], interval) && Recorded(data[|rows| := row], actions, rows + [row], interval)
  {
    RecordAnswered(actions, rows, interval, row);
  }

  lemma RecordObserved(rows: seq<Record>, row: Record)
    requires Observed(rows) && TIME in row && HasAcks(row) && Observable(row)
    ensures Observed(rows + [row])
  {}

  lemma RecordKeepsTransition(actions: seq<int>, rows: seq<Record>, interval: int, row: Record, k: nat)
    requires Answered(actions, rows, interval) && TIME in row && |actions| == |rows| && Observed(rows)
             && Observed(rows + [row])
    requires k + 1 < |rows|
    ensures Answered(actions, rows + [row], interval)
    ensures TransitionFrom(actions, rows + [row], interval, k) == TransitionFrom(actions, rows, interval, k)
  {
    RecordAnswered(actions, rows, interval, row);
  }

  lemma RecordLearned(history: seq<Transition>, earlier: seq<Transition>, actions: seq<int>, rows: seq<Record>,
                      interval: int, row: Record)
    requires Answered(actions, rows, interval) && TIME in row && |actions| == |rows| && Observed(rows)
             && Observed(rows + [row])
    requires Learned(history, earlier, actions, rows, interval)
    ensures Answered(actions, rows + [row], interval)
    ensures var t := TransitionFrom(actions, rows + [row], interval, |rows| - 1);
            Learned(history + [t], earlier, actions, rows + [row], interval)
  {
    RecordAnswered(actions, rows, interval, row);
    forall k | 0 <= k < |rows| - 1
      ensures TransitionFrom(actions, rows + [row], interval, k) == TransitionFrom(actions, rows, interval, k)
    {
      RecordKeepsTransition(actions, rows, interval, row, k);
    }
  }

  lemma RecordRewards(rewards: seq<real>, rows: seq<Record>, row: Record)
    requires AllAcked(rows) && rows != [] && AreRewards(rewards, rows) && HasAcks(row)
    ensures AllAcked(rows + [row])
    ensures AreRewards(rewards + [Gained(rows + [row], |rows| - 1, |rows|)], rows + [row])
  {
    var longer := rows + [row];
    assert forall k :: 0 <= k < |rows| ==> longer[k] == rows[k];
  }

  // ---------------------------------------------------------------- the script's variables

  /** What has happened in the episode: the records as received, the rewards returned, the transitions the learner was
      given in earlier episodes, and the schedulers on offer as the records were answered. */
  datatype Log = Log(rows: seq<Record>, rewards: seq<real>, earlier: seq<Transition>, choices: seq<int>)

  /** At a switch the scheduler on offer is sent, and in between 999. */
  ghost predicate Followed(actions: seq<int>, rows: seq<Record>, interval: int, choices: seq<int>) {
    && |choices| == |actions| <= |rows| && Timed(rows)
    && forall k :: 0 <= k < |actions| ==>
         actions[k] == if LastSwitch(rows, interval, k) == k then choices[k] else NO_CHANGE
  }

  lemma AnswerFollowed(actions: seq<int>, rows: seq<Record>, interval: int, choices: seq<int>, choice: int)
    requires Followed(actions, rows, interval, choices) && |actions| < |rows|
    ensures var a := if LastSwitch(rows, interval, |actions|) == |actions| then choice else NO_CHANGE;
            Followed(actions + [a], rows, interval, choices + [choice])
  {}

  lemma RecordFollowed(actions: seq<int>, rows: seq<Record>, interval: int, choices: seq<int>, row: Record)
    requires Followed(actions, rows, interval, choices) && TIME in row
    ensures Followed(actions, rows + [row], interval, choices)
  {
    forall k | 0 <= k < |rows|
      ensures LastSwitch(rows + [row], interval, k) == LastSwitch(rows, interval, k)
    {
      LastSwitchOfLonger(rows, interval, k, row);
    }
  }

  /** The variables of the script, of its recorder, and of calculate_reward. */
  datatype Vars = Vars(
    data: map<int, Record>, nextSeqNum: nat, actions: seq<int>, ackedSum: int, timing: Option<int>, action: Option<int>,
    gained: real, step: nat, observation: seq<real>)

  /** The recorder's keys are exactly the numbers already used, and each record carries its own number. */
  ghost predicate NumberedFromZero(data: map<int, Record>, nextSeqNum: nat) {
    && (forall k :: k in data <==> 0 <= k < nextSeqNum)
    && (forall k :: k in data ==> SSN in data[k] && data[k][SSN] == k && TIME in data[k])
  }

  /** The lists kept agree with the records received. */
  ghost predicate Agree(v: Vars, history: seq<Transition>, log: Log, interval: int) {
    var rows := log.rows;
    && Observed(rows) && Answered(v.actions, rows, interval) && |rows| <= |v.actions| + 1
    && NumberedFromZero(v.data, v.nextSeqNum) && Recorded(v.data, v.actions, rows, interval)
    && Learned(history, log.earlier, v.actions, rows, interval)
    && AreRewards(log.rewards, rows) && Followed(v.actions, rows, interval, log.choices)
    && v.ackedSum == Remembered(rows, |rows| - 1)
    && v.nextSeqNum == |rows| && v.step == |rows| - 1 && v.observation == Observation(rows[|rows| - 1])
  }

  /** The variables kept from the latest switch: its time, the scheduler, and what was gained since. */
  ghost predicate Scheduled(v: Vars, rows: seq<Record>, interval: int)
    requires Answered(v.actions, rows, interval) && Observed(rows)
  {
    if v.actions == [] then v.timing == None && v.gained == 0.0
    else
      var w := LastSwitch(rows, interval, |v.actions| - 1);
      && v.timing == Some(Time(rows, w))
      && v.action == Some(InForce(v.actions, rows, interval, |v.actions| - 1))
      && v.gained == Gained(rows, w, |rows| - 1)
  }

  /** At the head of the loop the latest record is still to be answered. */
  ghost predicate AtLoopHead(v: Vars, history: seq<Transition>, log: Log, interval: int) {
    Agree(v, history, log, interval) && Scheduled(v, log.rows, interval) && |v.actions| + 1 == |log.rows|
  }

  ghost predicate AfterReply(v: Vars, history: seq<Transition>, log: Log, interval: int) {
    Agree(v, history, log, interval) && Scheduled(v, log.rows, interval) && |v.actions| == |log.rows|
  }

  // ---------------------------------------------------------------- what one pass through the loop does to them

  ghost predicate HasLatest(v: Vars) {
    NumberedFromZero(v.data, v.nextSeqNum) && v.nextSeqNum > 0
  }

  /** A new choice is due for the latest record. */
  ghost predicate Due(v: Vars, interval: int)
    requires HasLatest(v)
  {
    v.timing == None || v.data[v.nextSeqNum - 1][TIME] - v.timing.value > interval
  }

  ghost function Replied(v: Vars, interval: int, choice: int): Vars
    requires HasLatest(v) && (v.timing.Some? ==> v.action.Some?)
  {
    var last, due := v.nextSeqNum - 1, Due(v, interval);
    var a := if due then choice else v.action.value;
    v.(timing := if due then Some(v.data[last][TIME]) else v.timing, gained := if due then 0.0 else v.gained,
       action := Some(a), actions := v.actions + [if due then choice else NO_CHANGE],
       data := v.data[last := v.data[last][SCHEDULER := a]])
  }

  ghost function RewardFor(v: Vars, row: Record): real
    requires HasAcks(row)
  {
    (Acked(row) - v.ackedSum) as real / SEGMENT
  }

  ghost function Received(v: Vars, row: Record): Vars
    requires HasAcks(row) && Observable(row)
  {
    v.(data := v.data[v.nextSeqNum := row], nextSeqNum := v.nextSeqNum + 1, ackedSum := Acked(row),
       gained := v.gained + RewardFor(v, row), step := v.step + 1, observation := Observation(row))
  }

  ghost function TransitionTo(v: Vars, row: Record): Transition
    requires HasAcks(row) && Observable(row) && v.action.Some?
  {
    Transition(v.observation, v.action.value, v.gained + RewardFor(v, row), Observation(row))
  }

  ghost function Chosen(log: Log, choice: int): Log {
    log.(choices := log.choices + [choice])
  }

  ghost function Longer(log: Log, row: Record, reward: real): Log {
    log.(rows := log.rows + [row], rewards := log.rewards + [reward])
  }

  lemma FirstRecord(v: Vars, row: Record, history: seq<Transition>, interval: int)
    requires Acceptable(row, 0) && Observable(row)
    requires v.data == map[0 := row] && v.nextSeqNum == 1 && v.actions == [] && v.ackedSum == 0 && v.timing == None
    requires v.gained == 0.0 && v.step == 0 && v.observation == Observation(row)
    ensures AtLoopHead(v, history, Log([row], [], history, []), interval)
  {
    assert Answered([], [row], interval);
  }

  /** A new choice is due exactly at the records where the reference switches. */
  lemma LatestRecord(v: Vars, rows: seq<Record>, interval: int)
    requires Answered(v.actions, rows, interval) && Observed(rows) && Scheduled(v, rows, interval)
             && |v.actions| + 1 == |rows|
    requires NumberedFromZero(v.data, v.nextSeqNum) && Recorded(v.data, v.actions, rows, interval)
             && v.nextSeqNum == |rows|
    ensures HasLatest(v) && v.data[v.nextSeqNum - 1] == rows[|v.actions|] && (v.timing.Some? ==> v.action.Some?)
    ensures Due(v, interval) <==> LastSwitch(rows, interval, |v.actions|) == |v.actions|
  {}

  lemma AnswerFits(actions: seq<int>, rows: seq<Record>, interval: int, a: int)
    requires Answered(actions, rows, interval) && |actions| < |rows|
    requires if LastSwitch(rows, interval, |actions|) == |actions| then 0 <= a < 4 else a == NO_CHANGE
    ensures Answered(actions + [a], rows, interval)
  {}

  lemma AnswerScheduled(v: Vars, rows: seq<Record>, interval: int, choice: int)
    requires Answered(v.actions, rows, interval) && Observed(rows) && Scheduled(v, rows, interval)
             && |v.actions| + 1 == |rows|
    requires HasLatest(v) && v.data[v.nextSeqNum - 1] == rows[|v.actions|] && (v.timing.Some? ==> v.action.Some?)
    requires Due(v, interval) <==> LastSwitch(rows, interval, |v.actions|) == |v.actions|
    requires Answered(Replied(v, interval, choice).actions, rows, interval)
    ensures Scheduled(Replied(v, interval, choice), rows, interval)
  {}

  lemma AnswerNumbered(data: map<int, Record>, n: nat, a: int)
    requires NumberedFromZero(data, n) && n > 0
    ensures NumberedFromZero(data[n - 1 := data[n - 1][SCHEDULER := a]], n)
  {}

  lemma AnswerAgrees(v: Vars, history: seq<Transition>, log: Log, interval: int, a: int, inForce: int, choice: int)
    requires Agree(v, history, log, interval) && |v.actions| + 1 == |log.rows|
             && Answered(v.actions + [a], log.rows, interval)
    requires inForce == InForce(v.actions + [a], log.rows, interval, |v.actions|)
    requires Followed(v.actions + [a], log.rows, interval, log.choices + [choice])
    ensures var last := v.nextSeqNum - 1;
            Agree(v.(actions := v.actions + [a], data := v.data[last := v.data[last][SCHEDULER := inForce]]),
                  history, Chosen(log, choice), interval)
  {
    AnswerNumbered(v.data, v.nextSeqNum, inForce);
    AnswerRecorded(v.data, v.actions, log.rows, interval, a);
    AnswerLearned(history, log.earlier, v.actions, log.rows, interval, a);
  }

  lemma AgreeDependsOn(v: Vars, u: Vars, history: seq<Transition>, log: Log, interval: int)
    requires Agree(v, history, log, interval) && u == v.(timing := u.timing, action := u.action, gained := u.gained)
    ensures Agree(u, history, log, interval)
  {}

  /** A choice is made exactly at the records where a switch is due. */
  lemma AnswerKeepsAgreement(v: Vars, history: seq<Transition>, log: Log, interval: int, choice: int)
    requires AtLoopHead(v, history, log, interval) && 0 <= choice < 4
    ensures HasLatest(v) && (v.timing.Some? ==> v.action.Some?)
    ensures AfterReply(Replied(v, interval, choice), history, Chosen(log, choice), interval)
  {
    LatestRecord(v, log.rows, interval);
    var a := if Due(v, interval) then choice else NO_CHANGE;
    AnswerFits(v.actions, log.rows, interval, a);
    AnswerFollowed(v.actions, log.rows, interval, log.choices, choice);
    AnswerScheduled(v, log.rows, interval, choice);
    var after := Replied(v, interval, choice);
    AnswerAgrees(v, history, log, interval, a, after.action.value, choice);
    AgreeDependsOn(v.(actions := after.actions, data := after.data), after, history, Chosen(log, choice), interval);
  }

  /** The gain since the latest switch grows by the reward. */
  lemma GainGrows(rows: seq<Record>, w: nat, row: Record)
    requires Observed(rows) && w < |rows| && HasAcks(row)
    ensures AllAcked(rows + [row])
    ensures var longer, n := rows + [row], |rows|;
            && Gained(longer, n - 1, n) == (Acked(row) - Remembered(rows, n - 1)) as real / SEGMENT
            && Gained(longer, w, n) == Gained(rows, w, n - 1) + Gained(longer, n - 1, n)
  {
    var longer := rows + [row];
    assert forall k :: 0 <= k < |rows| ==> longer[k] == rows[k];
    assert forall k :: 0 <= k < |rows| ==> Remembered(longer, k) == Remembered(rows, k);
  }

  lemma ReceiveScheduled(v: Vars, rows: seq<Record>, interval: int, row: Record)
    requires Answered(v.actions, rows, interval) && Observed(rows) && Observed(rows + [row])
    requires TIME in row && HasAcks(row) && Observable(row)
    requires Scheduled(v, rows, interval) && |v.actions| == |rows|
    requires v.ackedSum == Remembered(rows, |rows| - 1) && v.observation == Observation(rows[|rows| - 1])
    ensures var longer, n := rows + [row], |rows|;
            && Answered(v.actions, longer, interval) && v.action.Some? && 0 <= v.action.value < 4
            && Scheduled(Received(v, row), longer, interval)
            && TransitionFrom(v.actions, longer, interval, n - 1) == TransitionTo(v, row)
            && RewardFor(v, row) == Gained(longer, n - 1, n)
  {
    RecordAnswered(v.actions, rows, interval, row);
    GainGrows(rows, LastSwitch(rows, interval, |rows| - 1), row);
  }

  lemma ReceiveNumbered(data: map<int, Record>, n: nat, row: Record)
    requires NumberedFromZero(data, n) && SSN in row && row[SSN] == n && TIME in row
    ensures NumberedFromZero(data[n := row], n + 1)
  {}

  lemma ReceiveAgrees(v: Vars, history: seq<Transition>, log: Log, interval: int, row: Record, t: Transition,
                      reward: real)
    requires Agree(v, history, log, interval) && |v.actions| == |log.rows| && Acceptable(row, |log.rows|)
    requires HasAcks(row) && Observable(row) && Observed(log.rows + [row])
             && Answered(v.actions, log.rows + [row], interval)
    requires t == TransitionFrom(v.actions, log.rows + [row], interval, |log.rows| - 1)
    requires reward == Gained(log.rows + [row], |log.rows| - 1, |log.rows|)
    ensures Agree(Received(v, row), history + [t], Longer(log, row, reward), interval)
  {
    var rows, after := log.rows, Received(v, row);
    assert NumberedFromZero(after.data, after.nextSeqNum) by {
      ReceiveNumbered(v.data, v.nextSeqNum, row);
    }
    assert Recorded(after.data, after.actions, rows + [row], interval) by {
      RecordRecorded(v.data, v.actions, rows, interval, row);
    }
    assert Learned(history + [t], log.earlier, after.actions, rows + [row], interval) by {
      RecordLearned(history, log.earlier, v.actions, rows, interval, row);
    }
    assert Followed(after.actions, rows + [row], interval, log.choices) by {
      RecordFollowed(v.actions, rows, interval, log.choices, row);
    }
    assert AreRewards(log.rewards + [reward], rows + [row]) by {
      RecordRewards(log.rewards, rows, row);
    }
  }

  lemma ReadyToReceive(v: Vars, history: seq<Transition>, log: Log, interval: int)
    requires AfterReply(v, history, log, interval)
    ensures HasLatest(v) && v.nextSeqNum == |log.rows| && v.action.Some? && 0 <= v.action.value < 4
            && |v.observation| == 4
  {}

  /** The next record is accounted for in every list. */
  lemma ReceiveKeepsAgreement(v: Vars, history: seq<Transition>, log: Log, interval: int, row: Record)
    requires AfterReply(v, history, log, interval) && Acceptable(row, |log.rows|) && HasAcks(row) && Observable(row)
    ensures v.action.Some? && 0 <= v.action.value < 4
    ensures AtLoopHead(Received(v, row), history + [TransitionTo(v, row)], Longer(log, row, RewardFor(v, row)),
                       interval)
  {
    RecordObserved(log.rows, row);
    ReceiveScheduled(v, log.rows, interval, row);
    ReceiveAgrees(v, history, log, interval, row, TransitionTo(v, row), RewardFor(v, row));
  }

  // ---------------------------------------------------------------- what follows for an episode

  /** The gain kept since the latest switch is the growth of the acknowledged total since then; in the first period it
      is the whole total, as the reset remembers zero for the first record. All the rewards add up to the latest
      total. */
  lemma EpisodeRewards(v: Vars, history: seq<Transition>, log: Log, interval: int)
    requires AfterReply(v, history, log, interval) && |log.rows| > 1
    ensures var last := |log.rows| - 1;
            var w := LastSwitch(log.rows, interval, last);
            && v.gained == (Acked(log.rows[last]) - if w == 0 then 0 else Acked(log.rows[w])) as real / SEGMENT
            && v.gained == Sum(log.rewards[w..last])
            && Sum(log.rewards) == Acked(log.rows[last]) as real / SEGMENT
  {
    var last := |log.rows| - 1;
    RewardsTelescope(log.rewards, log.rows, LastSwitch(log.rows, interval, last), last);
    RewardsSum(log.rewards, log.rows);
  }

  /** The action sent for a record is the scheduler on offer there if a switch is due, and else 999. */
  lemma ActionsSent(v: Vars, history: seq<Transition>, log: Log, interval: int, k: nat)
    requires AfterReply(v, history, log, interval) && k < |log.rows|
    ensures k < |v.actions| == |log.choices|
    ensures v.actions[k] == if LastSwitch(log.rows, interval, k) == k then log.choices[k] else NO_CHANGE
    ensures v.data[k][SCHEDULER] == log.choices[LastSwitch(log.rows, interval, k)]
  {
    SwitchInForce(log.rows, interval, k, LastSwitch(log.rows, interval, k));
    assert v.data[k] == Kept(v.actions, log.rows, interval, k);
  }

  /** Every transition stored carries the scheduler in force and the sum of the rewards since it was chosen. */
  lemma StoredRewards(v: Vars, history: seq<Transition>, log: Log, interval: int, k: nat)
    requires AfterReply(v, history, log, interval) && k + 1 < |log.rows|
    ensures var t, w := history[|log.earlier| + k], LastSwitch(log.rows, interval, k);
            && t.s == Observation(log.rows[k]) && t.next == Observation(log.rows[k + 1])
            && t.a == v.actions[w] && 0 <= t.a < 4 && t.r == Sum(log.rewards[w..k + 1])
            && v.data[k][SCHEDULER] == t.a
  {
    var w := LastSwitch(log.rows, interval, k);
    RewardsTelescope(log.rewards, log.rows, w, k + 1);
    assert history[|log.earlier| + k] == TransitionFrom(v.actions, log.rows, interval, k);
    SwitchInForce(log.rows, interval, k, w);
    assert v.data[k] == Kept(v.actions, log.rows, interval, k);
  }
}
