/** What the simulator reports: records numbered in order, the observation and the acknowledged total read from one,
    and the switching times and rewards that a list of them determines. */
module Records {
  import opened Options
  import opened Python

  /** A field's name, such as time, or a name numbered by subflow, such as window0. */
  datatype Field = Plain(name: string) | Numbered(name: string, i: nat)

  type Record = map<Field, int>

  const SSN := Plain("ssn")
  const SIZE := Plain("size")
  const TIME := Plain("time")
  const SUBFLOWS := Plain("nbOfSubflows")
  const SCHEDULER := Plain("schedulerId")

  const META_FIELDS := ["lastAckedSeqMeta", "highTxMarkMeta", "availableTxBufferMeta", "nextTxSeqMeta", "totalCwndMeta",
                        "unAckMeta"]
  const SUBFLOW_FIELDS := ["rtt", "cWnd", "rWnd", "unAck", "availableTxBuffer"]

  // ---------------------------------------------------------------- one record

  /** The record is complete, has the expected number, and is one that the file writers take. */
  ghost predicate Acceptable(row: Record, number: int) {
    && SIZE in row && SSN in row && TIME in row
    && row[SIZE] == |row| && row[SSN] == number
    && (forall k :: 0 <= k < |SUBFLOW_FIELDS| ==> Numbered(SUBFLOW_FIELDS[k], 2) !in row)
    && (forall k :: 0 <= k < |META_FIELDS| ==> Plain(META_FIELDS[k]) in row)
  }

  predicate HasAcks(row: Record) {
    SUBFLOWS in row && forall i: nat :: i < row[SUBFLOWS] ==> Numbered("lastAckedSeq", i) in row
  }

  function AckedUpTo(row: Record, n: nat): int
    requires forall i: nat :: i < n ==> Numbered("lastAckedSeq", i) in row
  {
    if n == 0 then 0 else AckedUpTo(row, n - 1) + row[Numbered("lastAckedSeq", n - 1)]
  }

  /** The sum of the acknowledged sequence numbers of the record's subflows. */
  function Acked(row: Record): int
    requires HasAcks(row)
  {
    AckedUpTo(row, if row[SUBFLOWS] < 0 then 0 else row[SUBFLOWS])
  }

  ghost predicate NothingAcked(row: Record) {
    HasAcks(row) && forall i: nat :: i < row[SUBFLOWS] ==> row[Numbered("lastAckedSeq", i)] == 0
  }

  lemma {:induction false} AckedUpToChange(row: Record, n: nat, i: nat, x: int)
    requires i < n && forall j: nat :: j < n ==> Numbered("lastAckedSeq", j) in row
    ensures AckedUpTo(row[Numbered("lastAckedSeq", i) := x], n)
         == AckedUpTo(row, n) - row[Numbered("lastAckedSeq", i)] + x
    ensures (forall j: nat :: j < n ==> row[Numbered("lastAckedSeq", j)] == 0) ==> AckedUpTo(row, n) == 0
  {
    if i < n - 1 {
      AckedUpToChange(row, n - 1, i, x);
    } else {
      AckedUpToSame(row, row[Numbered("lastAckedSeq", i) := x], n - 1);
      if n > 1 {
        AckedUpToChange(row, n - 1, 0, x);
      }
    }
  }

  lemma {:induction false} AckedUpToSame(row: Record, other: Record, n: nat)
    requires forall j: nat :: j < n ==>
               Numbered("lastAckedSeq", j) in row && Numbered("lastAckedSeq", j) in other
               && row[Numbered("lastAckedSeq", j)] == other[Numbered("lastAckedSeq", j)]
    ensures AckedUpTo(row, n) == AckedUpTo(other, n)
  {
    if n > 0 {
      AckedUpToSame(row, other, n - 1);
    }
  }

  /** The total starts at zero and grows with each subflow's number by as much. */
  lemma AckedTotal(row: Record, i: nat, x: int)
    requires HasAcks(row)
    ensures NothingAcked(row) ==> Acked(row) == 0
    ensures i < row[SUBFLOWS] ==>
              var other := row[Numbered("lastAckedSeq", i) := x];
              HasAcks(other) && Acked(other) == Acked(row) - row[Numbered("lastAckedSeq", i)] + x
  {
    if row[SUBFLOWS] > 0 {
      AckedUpToChange(row, row[SUBFLOWS], if i < row[SUBFLOWS] then i else 0, x);
    }
  }

  /** At most two subflows, each with its windows. */
  predicate Observable(row: Record) {
    SUBFLOWS in row && row[SUBFLOWS] <= 2
    && forall i: nat :: i < row[SUBFLOWS] ==> Numbered("window", i) in row && Numbered("cWnd", i) in row
  }

  function Slot(row: Record, name: string, i: nat): real
    requires Observable(row) && name in {"window", "cWnd"}
  {
    if i < row[SUBFLOWS] then row[Numbered(name, i)] as real else 0.0
  }

  /** The four numbers observed, zero for an absent subflow. */
  function Observation(row: Record): seq<real>
    requires Observable(row)
  {
    [Slot(row, "window", 0), Slot(row, "cWnd", 0), Slot(row, "window", 1), Slot(row, "cWnd", 1)]
  }

  /** A subflow's window stands at twice its number and its congestion window after it. */
  lemma ObservationAt(row: Record, i: nat)
    requires Observable(row) && i < 2
    ensures |Observation(row)| == 4
    ensures i < row[SUBFLOWS] ==>
              Observation(row)[2 * i] == row[Numbered("window", i)] as real
              && Observation(row)[2 * i + 1] == row[Numbered("cWnd", i)] as real
    ensures i >= row[SUBFLOWS] ==> Observation(row)[2 * i] == Observation(row)[2 * i + 1] == 0.0
  {}

  /** extract_observation. */
  method ExtractObservation(row: Record) returns (outcome: Outcome, observation: seq<real>)
    ensures outcome in {Done, KeyError, IndexError} && (outcome == Done <==> Observable(row))
    ensures outcome == Done ==> observation == Observation(row)
  {
    observation := [0.0, 0.0, 0.0, 0.0];
    if SUBFLOWS !in row {
      return KeyError, observation;
    }
    var i := 0;
    while i < row[SUBFLOWS]
      invariant 0 <= i <= 2 && |observation| == 4 && (i <= row[SUBFLOWS] || i == 0)
      invariant forall j: nat :: j < i ==> Numbered("window", j) in row && Numbered("cWnd", j) in row
      invariant observation[0] == if i > 0 then row[Numbered("window", 0)] as real else 0.0
      invariant observation[1] == if i > 0 then row[Numbered("cWnd", 0)] as real else 0.0
      invariant observation[2] == if i > 1 then row[Numbered("window", 1)] as real else 0.0
      invariant observation[3] == if i > 1 then row[Numbered("cWnd", 1)] as real else 0.0
      decreases row[SUBFLOWS] - i
    {
      if Numbered("window", i) !in row {
        return KeyError, observation;
      }
      if i * 2 >= |observation| {
        return IndexError, observation;
      }
      observation := observation[i * 2 := row[Numbered("window", i)] as real];
      if Numbered("cWnd", i) !in row {
        return KeyError, observation;
      }
      observation := observation[i * 2 + 1 := row[Numbered("cWnd", i)] as real];
      i := i + 1;
    }
    outcome := Done;
  }

  // ---------------------------------------------------------------- switching

  ghost predicate Timed(rows: seq<Record>) {
    forall k :: 0 <= k < |rows| ==> TIME in rows[k]
  }

  function Time(rows: seq<Record>, k: nat): int
    requires k < |rows| && TIME in rows[k]
  {
    rows[k][TIME]
  }

  /** The latest record up to the k-th at which the scheduler is chosen anew: the first record, and then every record
      more than the interval after the latest choice. */
  ghost function LastSwitch(rows: seq<Record>, interval: int, k: nat): (w: nat)
    requires k < |rows| && Timed(rows)
    ensures w <= k
  {
    if k == 0 then 0
    else
      var w := LastSwitch(rows, interval, k - 1);
      if Time(rows, k) - Time(rows, w) > interval then k else w
  }

  lemma {:induction false} LastSwitchOfLonger(rows: seq<Record>, interval: int, k: nat, row: Record)
    requires k < |rows| && Timed(rows) && TIME in row
    ensures Timed(rows + [row]) && LastSwitch(rows + [row], interval, k) == LastSwitch(rows, interval, k)
  {
    if k > 0 {
      LastSwitchOfLonger(rows, interval, k - 1, row);
    }
  }

  /** The choice in force at record k was made at a switch, with no switch since; every record since then, up to k, is
      within the interval. */
  lemma {:induction false} SwitchInForce(rows: seq<Record>, interval: int, k: nat, j: nat)
    requires k < |rows| && Timed(rows) && LastSwitch(rows, interval, k) <= j <= k
    ensures var w := LastSwitch(rows, interval, k);
            LastSwitch(rows, interval, j) == w && (w < j ==> Time(rows, j) - Time(rows, w) <= interval)
  {
    if j < k {
      SwitchInForce(rows, interval, k - 1, j);
    }
  }

  /** Two successive switches are more than the interval apart, and so are any two when the interval is not negative. */
  lemma {:induction false} SwitchesApart(rows: seq<Record>, interval: int, i: nat, j: nat)
    requires i < j < |rows| && Timed(rows)
    requires LastSwitch(rows, interval, i) == i && LastSwitch(rows, interval, j) == j
    ensures LastSwitch(rows, interval, j - 1) == i || interval >= 0 ==> Time(rows, j) - Time(rows, i) > interval
    decreases j
  {
    var w := LastSwitch(rows, interval, j - 1);
    SwitchInForce(rows, interval, j - 1, w);
    if w > i && interval >= 0 {
      SwitchesApart(rows, interval, i, w);
    } else if w < i {
      SwitchInForce(rows, interval, j - 1, i);
    }
  }

  // ---------------------------------------------------------------- rewards

  const SEGMENT := 1418.0

  /** Every record after the first has its acknowledgements; the first is never asked for them. */
  ghost predicate AllAcked(rows: seq<Record>) {
    forall k :: 1 <= k < |rows| ==> HasAcks(rows[k])
  }

  /** The total remembered after record k: the reset for the first record leaves zero. */
  function Remembered(rows: seq<Record>, k: nat): int
    requires k < |rows| && (k > 0 ==> HasAcks(rows[k]))
  {
    if k == 0 then 0 else Acked(rows[k])
  }

  /** What was acknowledged from record w to record k, in segments. */
  function Gained(rows: seq<Record>, w: nat, k: nat): real
    requires w < |rows| && k < |rows|
    requires (k > 0 ==> HasAcks(rows[k])) && (w > 0 ==> HasAcks(rows[w]))
  {
    (Remembered(rows, k) - Remembered(rows, w)) as real / SEGMENT
  }

  function Sum(s: seq<real>): real {
    if s == [] then 0.0 else Sum(s[..|s| - 1]) + s[|s| - 1]
  }

  ghost predicate AreRewards(rewards: seq<real>, rows: seq<Record>)
    requires AllAcked(rows)
  {
    |rewards| + 1 == |rows| && forall k :: 0 <= k < |rewards| ==> rewards[k] == Gained(rows, k, k + 1)
  }

  /** Rewards telescope: those from record w to record k add up to what was acknowledged in between. */
  lemma {:induction false} RewardsTelescope(rewards: seq<real>, rows: seq<Record>, w: nat, k: nat)
    requires AllAcked(rows) && AreRewards(rewards, rows) && w <= k < |rows|
    ensures Sum(rewards[w..k]) == Gained(rows, w, k)
    decreases k
  {
    if w < k {
      RewardsTelescope(rewards, rows, w, k - 1);
      assert rewards[w..k][..k - 1 - w] == rewards[w..k - 1];
    } else {
      assert rewards[w..k] == [];
    }
  }

  /** All the rewards of an episode add up to the latest acknowledged total: the total of the first record counts. */
  lemma RewardsSum(rewards: seq<real>, rows: seq<Record>)
    requires AllAcked(rows) && AreRewards(rewards, rows) && |rows| > 1
    ensures Sum(rewards) == Acked(rows[|rows| - 1]) as real / SEGMENT
  {
    RewardsTelescope(rewards, rows, 0, |rows| - 1);
    assert rewards[0..|rows| - 1] == rewards;
  }
}
