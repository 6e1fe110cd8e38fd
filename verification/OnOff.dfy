/** The on/off traffic generator: timed events, bits credited across interruptions, and a byte limit.
    Time is exact (in seconds); the 32-bit and 64-bit counters wrap as the program's do. */
module OnOff {
  import opened Options

  /** The event behind m_startStopEvent, with the time it is due. */
  datatype StartStop = NoEvent | Start(at: real) | Stop(at: real)

  const TWO32 := 0x1_0000_0000
  const TWO64 := 0x1_0000_0000_0000_0000

  datatype State = State(
    now: real,
    hasSocket: bool,            // m_socket has been created
    connected: bool,
    rate: nat,
    rateFailSafe: nat,
    pktSize: nat,
    residualBits: nat,
    lastStartTime: real,
    maxBytes: nat,
    totBytes: nat,
    startStopEvent: StartStop,
    sendEvent: Option<real>,
    history: History)

  /** What the run has done since the last packet was sent, for stating what the credit promises. */
  datatype History = History(
    spent: real,             // on-time of the pending sends that were cancelled
    earned: real,            // that time in bits, at the rate of each cancellation
    cancels: nat,            // how many were cancelled
    fractional: bool,        // some cancelled one had run for a fraction of a bit
    handedOver: nat)         // bytes handed to the socket since the application was created

  // ---------------------------------------------------------------- the handlers

  ghost function PacketBits(s: State): nat {
    s.pktSize * 8 % TWO32
  }

  /** The bits earned in dt seconds: dt * rate, as BitsIsProduct shows. Written as a sum so that the proofs below stay
      linear. */
  ghost function Bits(dt: real, rate: nat): real {
    if rate == 0 then 0.0 else dt + Bits(dt, rate - 1)
  }

  /** The 32-bit addition to the residual bits. */
  function AddBits(residualBits: nat, bits: int): (r: nat)
    ensures 0 <= residualBits + bits < TWO32 ==> r == residualBits + bits
  {
    (residualBits + bits) % TWO32
  }

  /** The 64-bit addition to the bytes sent. */
  function AddBytes(totBytes: nat, pktSize: nat): (r: nat)
    ensures totBytes + pktSize < TWO64 ==> r == totBytes + pktSize
  {
    (totBytes + pktSize) % TWO64
  }

  /** The credit for a pending send that is about to be cancelled. */
  ghost function Credited(s: State): State {
    if s.sendEvent.Some? && s.rateFailSafe == s.rate then
      var bits := Bits(s.now - s.lastStartTime, s.rate);
      s.(residualBits := AddBits(s.residualBits, bits.Floor),
         history := s.history.(
           spent := s.history.spent + (s.now - s.lastStartTime),
           earned := s.history.earned + bits,
           cancels := s.history.cancels + 1,
           fractional := s.history.fractional || bits != bits.Floor as real))
    else s
  }

  ghost function CancelEvents(s: State): State {
    Credited(s).(rateFailSafe := s.rate, sendEvent := None, startStopEvent := NoEvent)
  }

  ghost function ScheduleNextTx(s: State): State
    requires s.rate > 0
  {
    if s.maxBytes == 0 || s.totBytes < s.maxBytes then
      var bits := (PacketBits(s) - s.residualBits) % TWO32;
      s.(sendEvent := Some(s.now + bits as real / s.rate as real))
    else
      CancelEvents(s)
  }

  ghost function StartSending(s: State, onTime: real): State
    requires s.rate > 0
  {
    ScheduleNextTx(s.(lastStartTime := s.now)).(startStopEvent := Stop(s.now + onTime))
  }

  ghost function StopSending(s: State, offTime: real): State {
    CancelEvents(s).(startStopEvent := Start(s.now + offTime))
  }

  ghost function PacketSent(s: State): State {
    s.(sendEvent := None, totBytes := AddBytes(s.totBytes, s.pktSize), lastStartTime := s.now, residualBits := 0,
       history := History(0.0, 0.0, 0, false, s.history.handedOver + s.pktSize))
  }

  ghost function SendPacket(s: State): State
    requires s.rate > 0
  {
    ScheduleNextTx(PacketSent(s))
  }

  ghost function ConnectionSucceeded(s: State, offTime: real): State {
    if s.startStopEvent == NoEvent then s.(connected := true, startStopEvent := Start(s.now + offTime))
    else s.(connected := true)
  }

  ghost function StartApplication(s: State, offTime: real): State {
    var t := CancelEvents(s.(hasSocket := true, rateFailSafe := s.rate));
    if t.connected then t.(startStopEvent := Start(t.now + offTime)) else t
  }

  // ---------------------------------------------------------------- the simulator

  /** What can happen next: a due event fires, the framework calls in, the rate attribute is set, or time passes. */
  datatype Step =
    | FireSend
    | FireStart(onTime: real)
    | FireStop(offTime: real)
    | AppStart(offTime: real)
    | AppStop
    | Connected(offTime: real)
    | SetRate(rate: nat)
    | Advance(to: real)

  /** Events fire when they are due; time never passes a pending event. */
  ghost predicate Enabled(s: State, step: Step) {
    match step
    case FireSend => s.sendEvent == Some(s.now)
    case FireStart(onTime) => s.startStopEvent == Start(s.now) && onTime >= 0.0
    case FireStop(offTime) => s.startStopEvent == Stop(s.now) && offTime >= 0.0
    case AppStart(offTime) => offTime >= 0.0
    case AppStop => true
    case Connected(offTime) => s.hasSocket && offTime >= 0.0
    case SetRate(rate) => rate > 0
    case Advance(to) => s.now <= to && (s.sendEvent.Some? ==> to <= s.sendEvent.value)
                        && (s.startStopEvent != NoEvent ==> to <= s.startStopEvent.at)
  }

  ghost function Apply(s: State, step: Step): State
    requires s.rate > 0 && Enabled(s, step)
  {
    match step
    case FireSend => SendPacket(s)
    case FireStart(onTime) => StartSending(s.(startStopEvent := NoEvent), onTime)
    case FireStop(offTime) => StopSending(s.(startStopEvent := NoEvent), offTime)
    case AppStart(offTime) => StartApplication(s, offTime)
    case AppStop => CancelEvents(s)
    case Connected(offTime) => ConnectionSucceeded(s, offTime)
    case SetRate(rate) => s.(rate := rate)
    case Advance(to) => s.(now := to)
  }

  ghost predicate Run(s: State, steps: seq<Step>, t: State)
    requires s.rate > 0
    decreases steps
  {
    if steps == [] then s == t
    else Enabled(s, steps[0]) && Apply(s, steps[0]).rate > 0 && Run(Apply(s, steps[0]), steps[1..], t)
  }

  ghost predicate Configured(s: State) {
    0 < s.rate && 0 < s.pktSize < TWO32 && s.maxBytes < TWO64
  }

  /** A freshly constructed application; the copy of the rate is not initialised by the constructor. */
  ghost predicate Initial(s: State) {
    && Configured(s)
    && !s.hasSocket && !s.connected && s.residualBits == 0 && s.totBytes == 0
    && s.startStopEvent == NoEvent && s.sendEvent == None
    && s.history == History(0.0, 0.0, 0, false, 0)
  }

  lemma {:induction false} RunAppend(s: State, a: seq<Step>, u: State, b: seq<Step>, t: State)
    requires s.rate > 0 && Run(s, a, u) && u.rate > 0 && Run(u, b, t)
    ensures Run(s, a + b, t)
    decreases a
  {
    if a == [] {
      assert a + b == b;
    } else {
      assert (a + b)[1..] == a[1..] + b;
      RunAppend(Apply(s, a[0]), a[1..], u, b, t);
    }
  }

  lemma RunOne(s: State, a: Step)
    requires s.rate > 0 && Enabled(s, a) && Apply(s, a).rate > 0
    ensures Run(s, [a], Apply(s, a))
  {
    assert [a][1..] == [];
  }

  /** One more step at the end of a run. */
  lemma RunThen(s: State, steps: seq<Step>, u: State, a: Step)
    requires s.rate > 0 && Run(s, steps, u) && u.rate > 0 && Enabled(u, a) && Apply(u, a).rate > 0
    ensures Run(s, steps + [a], Apply(u, a))
  {
    RunOne(u, a);
    RunAppend(s, steps, u, [a], Apply(u, a));
  }

  // ---------------------------------------------------------------- event discipline

  /** A send is pending only while a stop is pending, hence never together with a start. */
  ghost predicate Discipline(s: State) {
    s.sendEvent.Some? ==> s.startStopEvent.Stop?
  }

  lemma DisciplineStep(s: State, step: Step)
    requires s.rate > 0 && Discipline(s) && Enabled(s, step)
    ensures Discipline(Apply(s, step)) && Apply(s, step).rate > 0
  {}

  /** In every state of every run, even one that changes the rate, a send is pending only while a stop is. */
  lemma {:induction false} RunDiscipline(s: State, steps: seq<Step>, t: State)
    requires s.rate > 0 && Discipline(s) && Run(s, steps, t)
    ensures Discipline(t) && (t.sendEvent.Some? ==> !t.startStopEvent.Start?)
    decreases steps
  {
    if steps != [] {
      DisciplineStep(s, steps[0]);
      RunDiscipline(Apply(s, steps[0]), steps[1..], t);
    }
  }

  // ---------------------------------------------------------------- the credit

  /** The credit never exceeds a packet, and a pending send is due when the missing bits have been earned. */
  ghost predicate Credit(s: State) {
    && s.residualBits <= PacketBits(s)
    && (s.sendEvent.Some? ==>
          && s.rateFailSafe == s.rate
          && s.lastStartTime <= s.now <= s.sendEvent.value
          && Bits(s.sendEvent.value - s.lastStartTime, s.rate) == (PacketBits(s) - s.residualBits) as real)
  }

  /** The credit is what the cancelled sends have earned, rounded down to whole bits at each of them. */
  ghost predicate Rounding(s: State) {
    && (s.history.cancels == 0 ==> s.history.earned == s.residualBits as real)
    && (s.history.cancels > 0 ==>
          s.residualBits as real <= s.history.earned < (s.residualBits + s.history.cancels) as real)
    && (s.history.fractional <==> s.history.earned != s.residualBits as real)
    && s.history.earned == Bits(s.history.spent, s.rate)
  }

  lemma {:induction false} BitsIsProduct(dt: real, rate: nat)
    ensures Bits(dt, rate) == dt * rate as real
  {
    if rate > 0 {
      BitsIsProduct(dt, rate - 1);
      assert dt * rate as real == dt * (rate - 1) as real + dt;
    }
  }

  lemma {:induction false} BitsMonotone(x: real, y: real, rate: nat)
    requires x <= y
    ensures Bits(x, rate) <= Bits(y, rate)
  {
    if rate > 0 {
      BitsMonotone(x, y, rate - 1);
    }
  }

  lemma {:induction false} BitsZero(rate: nat)
    ensures Bits(0.0, rate) == 0.0
  {
    if rate > 0 {
      BitsZero(rate - 1);
    }
  }

  lemma {:induction false} BitsAdd(x: real, y: real, rate: nat)
    ensures Bits(x + y, rate) == Bits(x, rate) + Bits(y, rate)
  {
    if rate > 0 {
      BitsAdd(x, y, rate - 1);
    }
  }

  /** A part of the time it takes to earn `missing` bits earns at most that many. */
  lemma PartOfDelay(dt: real, delay: real, rate: nat, missing: nat)
    requires 0.0 <= dt <= delay && Bits(delay, rate) == missing as real
    ensures var bits := Bits(dt, rate);
            0 <= bits.Floor <= missing && bits.Floor as real <= bits < bits.Floor as real + 1.0
  {
    BitsZero(rate);
    BitsMonotone(0.0, dt, rate);
    BitsMonotone(dt, delay, rate);
  }

  lemma SmallMod(x: int)
    requires 0 <= x < TWO32
    ensures x % TWO32 == x
  {}

  lemma PacketBitsSmall(s: State)
    ensures PacketBits(s) < TWO32
  {}

  /** Cancelling a pending send earns at most the bits it still lacked: the 32-bit sum does not wrap. */
  lemma CancelBits(s: State)
    requires Credit(s) && s.sendEvent.Some?
    ensures var bits := Bits(s.now - s.lastStartTime, s.rate);
            && 0 <= bits.Floor && bits.Floor as real <= bits < bits.Floor as real + 1.0
            && CancelEvents(s).residualBits == s.residualBits + bits.Floor <= PacketBits(s)
  {
    var bits := Bits(s.now - s.lastStartTime, s.rate);
    PartOfDelay(s.now - s.lastStartTime, s.sendEvent.value - s.lastStartTime, s.rate, PacketBits(s) - s.residualBits);
    PacketBitsSmall(s);
  }

  lemma CancelCredit(s: State)
    requires Credit(s)
    ensures Credit(CancelEvents(s))
  {
    if s.sendEvent.Some? {
      CancelBits(s);
    }
  }

  lemma CancelRounding(s: State)
    requires Credit(s) && Rounding(s)
    ensures Rounding(CancelEvents(s))
  {
    if s.sendEvent.Some? {
      CancelBits(s);
      BitsAdd(s.history.spent, s.now - s.lastStartTime, s.rate);
    }
  }

  lemma Divide(missing: nat, rate: nat)
    requires rate > 0
    ensures missing as real / rate as real >= 0.0
    ensures Bits(missing as real / rate as real, rate) == missing as real
  {
    BitsIsProduct(missing as real / rate as real, rate);
  }

  lemma ScheduleCredit(s: State)
    requires Configured(s) && Credit(s) && s.sendEvent == None && s.lastStartTime == s.now
    requires s.rateFailSafe == s.rate
    ensures Credit(ScheduleNextTx(s))
  {
    if s.maxBytes == 0 || s.totBytes < s.maxBytes {
      var missing := PacketBits(s) - s.residualBits;
      PacketBitsSmall(s);
      SmallMod(missing);
      Divide(missing, s.rate);
      var t := ScheduleNextTx(s);
      assert t.sendEvent.value - t.lastStartTime == missing as real / s.rate as real;
    }
  }

  /** Once the application has been started, the copy of a fixed rate is the rate. */
  ghost predicate SameRate(s: State) {
    && (s.hasSocket ==> s.rateFailSafe == s.rate)
    && (s.startStopEvent != NoEvent || s.sendEvent.Some? ==> s.hasSocket)
  }

  ghost predicate CreditInv(s: State) {
    Configured(s) && Discipline(s) && SameRate(s) && Credit(s) && Rounding(s)
  }

  lemma CreditStep(s: State, step: Step)
    requires CreditInv(s) && Enabled(s, step) && !step.SetRate?
    ensures Credit(Apply(s, step))
  {
    match step
    case FireSend => ScheduleCredit(PacketSent(s));
    case FireStart(_) => ScheduleCredit(s.(startStopEvent := NoEvent, lastStartTime := s.now));
    case FireStop(_) => CancelCredit(s.(startStopEvent := NoEvent));
    case AppStart(_) => CancelCredit(s.(hasSocket := true, rateFailSafe := s.rate));
    case AppStop => CancelCredit(s);
    case Connected(_) =>
    case Advance(_) =>
  }

  lemma RoundingStep(s: State, step: Step)
    requires CreditInv(s) && Enabled(s, step) && !step.SetRate?
    ensures Rounding(Apply(s, step))
  {
    match step
    case FireSend => BitsZero(s.rate);
    case FireStart(_) =>
    case FireStop(_) => CancelRounding(s.(startStopEvent := NoEvent));
    case AppStart(_) => CancelRounding(s.(hasSocket := true, rateFailSafe := s.rate));
    case AppStop => CancelRounding(s);
    case Connected(_) =>
    case Advance(_) =>
  }

  lemma SameRateStep(s: State, step: Step)
    requires CreditInv(s) && Enabled(s, step) && !step.SetRate?
    ensures SameRate(Apply(s, step)) && Configured(Apply(s, step))
    ensures Apply(s, step).rate == s.rate && Apply(s, step).pktSize == s.pktSize
            && Apply(s, step).maxBytes == s.maxBytes
  {}

  ghost predicate FixedRate(steps: seq<Step>) {
    forall k :: 0 <= k < |steps| ==> !steps[k].SetRate?
  }

  lemma {:induction false} RunCredit(s: State, steps: seq<Step>, t: State)
    requires CreditInv(s) && FixedRate(steps) && Run(s, steps, t)
    ensures CreditInv(t)
    ensures t.rate == s.rate && t.pktSize == s.pktSize && t.maxBytes == s.maxBytes
    decreases steps
  {
    if steps != [] {
      var u := Apply(s, steps[0]);
      DisciplineStep(s, steps[0]);
      CreditStep(s, steps[0]);
      RoundingStep(s, steps[0]);
      SameRateStep(s, steps[0]);
      RunCredit(u, steps[1..], t);
    }
  }

  lemma InitialInv(s: State)
    requires Initial(s)
    ensures CreditInv(s)
  {
    BitsZero(s.rate);
  }

  /** At a fixed rate the credit never exceeds a packet, whenever and however often the application is started,
      stopped and interrupted, so the unsigned subtraction in ScheduleNextTx never wraps. */
  lemma CreditBound(init: State, steps: seq<Step>, s: State)
    requires Initial(init) && FixedRate(steps) && Run(init, steps, s)
    ensures s.residualBits <= PacketBits(s)
    ensures (PacketBits(s) - s.residualBits) % TWO32 == PacketBits(s) - s.residualBits
    ensures s.pktSize < TWO32 / 8 ==> PacketBits(s) == 8 * s.pktSize
  {
    InitialInv(init);
    RunCredit(init, steps, s);
    SmallMod(PacketBits(s) - s.residualBits);
  }

  /** The on-time between two packets: the cancelled parts and the last, uninterrupted one. */
  ghost function OnTime(s: State): real {
    s.history.spent + (s.now - s.lastStartTime)
  }

  /** When a packet is sent after k cancellations, the on-time since the last packet is worth the packet's bits or
      less than k bits more, and exactly the packet's bits if and only if no cancellation split a bit. */
  lemma PacketSpacing(init: State, steps: seq<Step>, s: State)
    requires Initial(init) && FixedRate(steps) && Run(init, steps, s) && Enabled(s, FireSend)
    ensures var bits := Bits(OnTime(s), s.rate);
            && PacketBits(s) as real <= bits
            && (s.history.cancels > 0 ==> bits < (PacketBits(s) + s.history.cancels) as real)
            && (bits == PacketBits(s) as real <==> !s.history.fractional)
            && (s.history.cancels == 0 ==> !s.history.fractional)
  {
    InitialInv(init);
    RunCredit(init, steps, s);
    BitsAdd(s.history.spent, s.now - s.lastStartTime, s.rate);
  }

  // ---------------------------------------------------------------- the program's own form

  method EarnedBits(delta: real, bitRate: nat) returns (bits: real)
    ensures bits == Bits(delta, bitRate)
  {
    BitsIsProduct(delta, bitRate);
    bits := delta * bitRate as real;
  }

  /** The application with the fields its methods update; now stands for Simulator::Now (). */
  class MpOnOffApplication {
    var now: real
    var hasSocket: bool
    var connected: bool
    var cbrRate: nat
    var cbrRateFailSafe: nat
    var pktSize: nat
    var residualBits: nat
    var lastStartTime: real
    var maxBytes: nat
    var totBytes: nat
    var startStopEvent: StartStop
    var sendEvent: Option<real>
    ghost var history: History

    ghost function View(): State
      reads this
    {
      State(now, hasSocket, connected, cbrRate, cbrRateFailSafe, pktSize, residualBits, lastStartTime, maxBytes,
            totBytes, startStopEvent, sendEvent, history)
    }

    constructor (rate: nat, failSafe: nat, packetSize: nat, limit: nat)
      requires 0 < rate && 0 < packetSize < TWO32 && limit < TWO64
      ensures Initial(View()) && now == 0.0 && cbrRate == rate && pktSize == packetSize && maxBytes == limit
    {
      now, hasSocket, connected, cbrRate, cbrRateFailSafe := 0.0, false, false, rate, failSafe;
      pktSize, residualBits, lastStartTime, maxBytes, totBytes := packetSize, 0, 0.0, limit, 0;
      startStopEvent, sendEvent := NoEvent, None;
      history := History(0.0, 0.0, 0, false, 0);
    }

    /** CancelEvents. */
    method CancelPending()
      modifies this
      ensures View() == CancelEvents(old(View()))
    {
      if sendEvent.Some? && cbrRateFailSafe == cbrRate {
        var delta := now - lastStartTime;
        var bits := EarnedBits(delta, cbrRate);
        residualBits := AddBits(residualBits, bits.Floor);
        history := history.(spent := history.spent + delta, earned := history.earned + bits,
                            cancels := history.cancels + 1,
                            fractional := history.fractional || bits != bits.Floor as real);
      }
      assert View() == Credited(old(View()));
      cbrRateFailSafe := cbrRate;
      sendEvent := None;
      startStopEvent := NoEvent;
    }

    method ScheduleNext()
      requires cbrRate > 0
      modifies this
      ensures View() == ScheduleNextTx(old(View()))
    {
      if maxBytes == 0 || totBytes < maxBytes {
        var bits := (pktSize * 8 % TWO32 - residualBits) % TWO32;
        sendEvent := Some(now + bits as real / cbrRate as real);
      } else {
        StopApp();
      }
    }

    method StartOnPeriod(onTime: real)
      requires cbrRate > 0 && Enabled(View(), FireStart(onTime))
      modifies this
      ensures View() == Apply(old(View()), FireStart(onTime))
    {
      startStopEvent := NoEvent;
      lastStartTime := now;
      ScheduleNext();
      startStopEvent := Stop(now + onTime);
    }

    method StopOnPeriod(offTime: real)
      requires cbrRate > 0 && Enabled(View(), FireStop(offTime))
      modifies this
      ensures View() == Apply(old(View()), FireStop(offTime))
    {
      startStopEvent := NoEvent;
      CancelPending();
      startStopEvent := Start(now + offTime);
    }

    method Send()
      requires cbrRate > 0 && sendEvent == Some(now)
      modifies this
      ensures View() == SendPacket(old(View()))
    {
      sendEvent := None;
      totBytes := AddBytes(totBytes, pktSize);
      lastStartTime := now;
      residualBits := 0;
      history := History(0.0, 0.0, 0, false, history.handedOver + pktSize);
      ScheduleNext();
    }

    method OnConnected(offTime: real)
      requires cbrRate > 0 && Enabled(View(), Connected(offTime))
      modifies this
      ensures View() == Apply(old(View()), Connected(offTime))
    {
      connected := true;
      if startStopEvent == NoEvent {
        startStopEvent := Start(now + offTime);
      }
    }

    method StartApp(offTime: real)
      requires cbrRate > 0 && Enabled(View(), AppStart(offTime))
      modifies this
      ensures View() == Apply(old(View()), AppStart(offTime))
    {
      hasSocket := true;
      cbrRateFailSafe := cbrRate;
      CancelPending();
      if !connected {
        return;
      }
      startStopEvent := Start(now + offTime);
    }

    method StopApp()
      modifies this
      ensures View() == CancelEvents(old(View()))
    {
      CancelPending();
    }
  }
}
