/** The on/off generator over a whole run at a fixed rate: how the packets sent compare with the time spent sending. */
module OnOffLongRun {
  import opened Options
  import opened OnOff

  /** The time during which a send was pending, and the packets sent and the sends cancelled in it. */
  datatype Totals = Totals(active: real, packets: nat, cancels: nat)

  /** The step cancels a pending send. */
  ghost predicate CancelsSend(s: State, step: Step) {
    s.sendEvent.Some? && (step.FireStop? || step.AppStart? || step.AppStop?)
  }

  ghost function Add(s: State, step: Step, so: Totals): Totals {
    Totals(so.active + if step.Advance? && s.sendEvent.Some? then step.to - s.now else 0.0,
           so.packets + if step.FireSend? then 1 else 0,
           so.cancels + if CancelsSend(s, step) then 1 else 0)
  }

  ghost function Total(s: State, steps: seq<Step>, t: State, so: Totals): Totals
    requires s.rate > 0 && Run(s, steps, t)
    decreases steps
  {
    if steps == [] then so else Total(Apply(s, steps[0]), steps[1..], t, Add(s, steps[0], so))
  }

  // ---------------------------------------------------------------- what every step keeps

  /** The bits earned since the last packet: the credited ones, before rounding, and those of the pending send. */
  ghost function SinceLast(s: State): real {
    s.history.earned + if s.sendEvent.Some? then Bits(s.now - s.lastStartTime, s.rate) else 0.0
  }

  ghost function Times(n: nat, bits: nat): nat {
    if n == 0 then 0 else bits + Times(n - 1, bits)
  }

  lemma {:induction false} TimesIsProduct(n: nat, bits: nat)
    ensures Times(n, bits) == n * bits
  {
    if n > 0 {
      TimesIsProduct(n - 1, bits);
      assert n * bits == (n - 1) * bits + bits;
    }
  }

  /** Up to the last packet, the time was worth the packets, or more by less than a bit for each cancellation. */
  ghost predicate Accounts(s: State, so: Totals) {
    var upToLast := Bits(so.active, s.rate) - SinceLast(s);
    && s.history.cancels <= so.cancels
    && Times(so.packets, PacketBits(s)) as real <= upToLast
    && upToLast <= (Times(so.packets, PacketBits(s)) + so.cancels - s.history.cancels) as real
  }

  /** What has been earned since the last packet is less than a packet and a bit for each cancellation. */
  lemma SinceLastBounds(s: State)
    requires CreditInv(s)
    ensures 0.0 <= SinceLast(s) <= (PacketBits(s) + s.history.cancels) as real
    ensures Enabled(s, FireSend) ==> PacketBits(s) as real <= SinceLast(s)
  {
    if s.sendEvent.Some? {
      var dt, delay := s.now - s.lastStartTime, s.sendEvent.value - s.lastStartTime;
      BitsZero(s.rate);
      BitsMonotone(0.0, dt, s.rate);
      BitsMonotone(dt, delay, s.rate);
    }
  }

  lemma CancelAccounts(s: State)
    ensures s.sendEvent.Some? && s.rateFailSafe == s.rate ==>
              SinceLast(CancelEvents(s)) == SinceLast(s) && CancelEvents(s).history.cancels == s.history.cancels + 1
    ensures s.sendEvent == None ==> SinceLast(CancelEvents(s)) == SinceLast(s) && CancelEvents(s).history == s.history
  {}

  lemma ScheduleAccounts(s: State)
    requires s.rate > 0 && s.sendEvent == None && s.lastStartTime == s.now
    ensures SinceLast(ScheduleNextTx(s)) == SinceLast(s) && ScheduleNextTx(s).history == s.history
    ensures PacketBits(ScheduleNextTx(s)) == PacketBits(s)
  {
    BitsZero(s.rate);
  }

  lemma SendAccounts(s: State, so: Totals)
    requires CreditInv(s) && Accounts(s, so) && Enabled(s, FireSend)
    ensures Accounts(Apply(s, FireSend), Add(s, FireSend, so))
  {
    SinceLastBounds(s);
    ScheduleAccounts(PacketSent(s));
    assert Times(so.packets + 1, PacketBits(s)) == PacketBits(s) + Times(so.packets, PacketBits(s));
  }

  lemma AdvanceAccounts(s: State, so: Totals, to: real)
    requires CreditInv(s) && Accounts(s, so) && Enabled(s, Advance(to))
    ensures Accounts(Apply(s, Advance(to)), Add(s, Advance(to), so))
  {
    if s.sendEvent.Some? {
      BitsAdd(so.active, to - s.now, s.rate);
      BitsAdd(s.now - s.lastStartTime, to - s.now, s.rate);
      assert s.now - s.lastStartTime + (to - s.now) == to - s.lastStartTime;
    }
  }

  lemma CancelStep(s: State, step: Step, so: Totals)
    requires CreditInv(s) && Accounts(s, so) && Enabled(s, step) && (step.FireStop? || step.AppStart? || step.AppStop?)
    ensures Accounts(Apply(s, step), Add(s, step, so))
  {
    match step
    case FireStop(_) => CancelAccounts(s.(startStopEvent := NoEvent));
    case AppStart(_) => CancelAccounts(s.(hasSocket := true, rateFailSafe := s.rate));
    case AppStop => CancelAccounts(s);
  }

  lemma AccountsStep(s: State, step: Step, so: Totals)
    requires CreditInv(s) && Accounts(s, so) && Enabled(s, step) && !step.SetRate?
    ensures Accounts(Apply(s, step), Add(s, step, so))
  {
    match step
    case FireSend => SendAccounts(s, so);
    case FireStart(_) => StartAccounts(s, step, so);
    case Connected(_) =>
    case Advance(to) => AdvanceAccounts(s, so, to);
    case _ => CancelStep(s, step, so);
  }

  lemma StartAccounts(s: State, step: Step, so: Totals)
    requires CreditInv(s) && Accounts(s, so) && Enabled(s, step) && step.FireStart?
    ensures Accounts(Apply(s, step), Add(s, step, so))
  {
    ScheduleAccounts(s.(startStopEvent := NoEvent, lastStartTime := s.now));
  }

  lemma {:induction false} RunAccounts(s: State, steps: seq<Step>, t: State, so: Totals)
    requires CreditInv(s) && Accounts(s, so) && FixedRate(steps) && Run(s, steps, t)
    ensures Accounts(t, Total(s, steps, t, so)) && CreditInv(t) && t.rate == s.rate && t.pktSize == s.pktSize
    decreases steps
  {
    if steps != [] {
      var u := Apply(s, steps[0]);
      DisciplineStep(s, steps[0]);
      CreditStep(s, steps[0]);
      RoundingStep(s, steps[0]);
      SameRateStep(s, steps[0]);
      AccountsStep(s, steps[0], so);
      RunAccounts(u, steps[1..], t, Add(s, steps[0], so));
    }
  }

  // ---------------------------------------------------------------- the long-run rate

  const NOTHING := Totals(0.0, 0, 0)

  lemma LongRunBits(init: State, steps: seq<Step>, s: State)
    requires Initial(init) && FixedRate(steps) && Run(init, steps, s)
    ensures var total := Total(init, steps, s, NOTHING);
            && Times(total.packets, PacketBits(init)) as real <= Bits(total.active, init.rate)
            && Bits(total.active, init.rate) <= (Times(total.packets + 1, PacketBits(init)) + total.cancels) as real
  {
    InitialInv(init);
    BitsZero(init.rate);
    RunAccounts(init, steps, s, NOTHING);
    SinceLastBounds(s);
  }

  /** The time sending is worth n packets, and at most one more and a bit for each of k cancellations. */
  ghost predicate WorthPackets(total: Totals, bits: nat, rate: nat) {
    && (total.packets * bits) as real <= total.active * rate as real
    && total.active * rate as real <= ((total.packets + 1) * bits + total.cancels) as real
  }

  lemma WorthFromTimes(total: Totals, bits: nat, rate: nat)
    requires Times(total.packets, bits) as real <= Bits(total.active, rate)
    requires Bits(total.active, rate) <= (Times(total.packets + 1, bits) + total.cancels) as real
    ensures WorthPackets(total, bits, rate)
  {
    BitsIsProduct(total.active, rate);
    TimesIsProduct(total.packets, bits);
    TimesIsProduct(total.packets + 1, bits);
  }

  /** At a fixed rate, after N packets and K cancelled sends, the time spent sending is worth at least N packets and at
      most one packet more, and a bit for each cancellation. */
  lemma LongRunRate(init: State, steps: seq<Step>, s: State)
    requires Initial(init) && FixedRate(steps) && Run(init, steps, s)
    ensures WorthPackets(Total(init, steps, s, NOTHING), PacketBits(init), init.rate)
  {
    LongRunBits(init, steps, s);
    WorthFromTimes(Total(init, steps, s, NOTHING), PacketBits(init), init.rate);
  }

  lemma {:induction false} HandedOverFrom(s: State, steps: seq<Step>, t: State, so: Totals)
    requires s.rate > 0 && Run(s, steps, t)
    ensures t.history.handedOver + Times(so.packets, s.pktSize)
         == s.history.handedOver + Times(Total(s, steps, t, so).packets, s.pktSize)
    decreases steps
  {
    if steps != [] {
      HandedOverFrom(Apply(s, steps[0]), steps[1..], t, Add(s, steps[0], so));
    }
  }

  /** The bytes handed over are those of the packets sent, whatever the rates. */
  lemma HandedOver(init: State, steps: seq<Step>, s: State)
    requires Initial(init) && Run(init, steps, s)
    ensures s.history.handedOver == Total(init, steps, s, NOTHING).packets * init.pktSize
  {
    HandedOverFrom(init, steps, s, NOTHING);
    TimesIsProduct(Total(init, steps, s, NOTHING).packets, init.pktSize);
  }
}
