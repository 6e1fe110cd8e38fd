/** The on/off generator while its rate changes: exactly which ranges of rates keep the credit within a packet, and a
    run in which an interruption loses part of a bit. */
module OnOffRates {
  import opened Options
  import opened OnOff

  // ---------------------------------------------------------------- one send, scheduled and credited at two rates

  /** A send scheduled for `missing` bits at rate `b` and cancelled at rate `a`, with the copy of the rate equal to
      `a`: whenever the cancellation comes, the credit stays within the packet, if and only if a is small enough. */
  lemma CreditAcrossRates(a: nat, b: nat, missing: nat)
    requires b > 0
    ensures (forall dt :: 0.0 <= dt <= missing as real / b as real ==> Bits(dt, a).Floor <= missing)
            <==> a * missing < (missing + 1) * b
  {
    var delay := missing as real / b as real;
    BitsIsProduct(delay, a);
    ScaledFloor(a, b, missing);
    Divide(missing, b);
    forall dt | 0.0 <= dt <= delay
      ensures Bits(dt, a) <= Bits(delay, a)
    {
      BitsMonotone(dt, delay, a);
    }
  }

  lemma LessTimes(x: real, y: real, b: real)
    requires b > 0.0
    ensures x < y <==> x * b < y * b
  {}

  lemma SwapFactors(d: real, a: real, b: real)
    ensures d * a * b == d * b * a
  {}

  lemma ProductAsReal(p: int, q: int)
    ensures p as real * q as real == (p * q) as real
  {}

  lemma ScaledFloor(a: nat, b: nat, missing: nat)
    requires b > 0
    ensures (missing as real / b as real * a as real).Floor <= missing <==> a * missing < (missing + 1) * b
  {
    var delay := missing as real / b as real;
    assert delay * b as real == missing as real;
    SwapFactors(delay, a as real, b as real);
    ProductAsReal(missing, a);
    ProductAsReal(missing + 1, b);
    LessTimes(delay * a as real, (missing + 1) as real, b as real);
  }

  /** Earning a packet's bits at the low rate takes less time than earning one bit more at the high rate. */
  ghost predicate CloseRates(bits: nat, lo: nat, hi: nat) {
    hi * bits < (bits + 1) * lo
  }

  lemma SmallerPacket(lo: nat, hi: nat, bits: nat, a: nat, b: nat, missing: nat)
    requires CloseRates(bits, lo, hi) && a <= hi && lo <= b && missing <= bits && lo <= hi
    ensures a * missing < (missing + 1) * b
  {
    assert (hi - lo) * bits < lo;
    assert (hi - lo) * missing <= (hi - lo) * bits;
    assert a * missing <= hi * missing && lo * (missing + 1) <= b * (missing + 1);
    assert hi * missing == (hi - lo) * missing + lo * missing;
  }

  lemma QuotientOf(delay: real, b: real, missing: real)
    requires b > 0.0 && delay * b == missing
    ensures delay == missing / b
  {}

  // ---------------------------------------------------------------- close rates keep the credit

  ghost predicate RatesWithin(steps: seq<Step>, lo: nat, hi: nat) {
    forall k :: 0 <= k < |steps| && steps[k].SetRate? ==> lo <= steps[k].rate <= hi
  }

  /** The pending send is due when the missing bits have been earned at rate b. */
  ghost predicate DueAt(s: State, b: nat)
    requires s.sendEvent.Some?
  {
    && s.lastStartTime <= s.now <= s.sendEvent.value
    && Bits(s.sendEvent.value - s.lastStartTime, b) == (PacketBits(s) - s.residualBits) as real
  }

  ghost predicate RatesInv(s: State, lo: nat, hi: nat) {
    && Configured(s) && Discipline(s) && lo <= s.rate <= hi && s.residualBits <= PacketBits(s)
    && (s.sendEvent.Some? ==> exists b :: lo <= b <= hi && DueAt(s, b))
  }

  /** A part dt of the delay in which `missing` bits are earned at rate b earns no more than them at rate a. */
  ghost predicate Kept(bits: nat, lo: nat, hi: nat, dt: real, a: nat, delay: real, b: nat, missing: nat) {
    0.0 <= dt <= delay && a <= hi && lo <= b && missing <= bits && Bits(delay, b) == missing as real
    ==> Bits(dt, a).Floor <= missing
  }

  ghost predicate CreditKept(bits: nat, lo: nat, hi: nat) {
    forall dt: real, a: nat, delay: real, b: nat, missing: nat :: Kept(bits, lo, hi, dt, a, delay, b, missing)
  }

  lemma CloseIsKept(bits: nat, lo: nat, hi: nat)
    requires 0 < lo <= hi && CloseRates(bits, lo, hi)
    ensures CreditKept(bits, lo, hi)
  {
    forall dt: real, a: nat, delay: real, b: nat, missing: nat
      ensures Kept(bits, lo, hi, dt, a, delay, b, missing)
    {
      if 0.0 <= dt <= delay && a <= hi && lo <= b && missing <= bits && Bits(delay, b) == missing as real {
        BitsIsProduct(delay, b);
        QuotientOf(delay, b as real, missing as real);
        SmallerPacket(lo, hi, bits, a, b, missing);
        CreditAcrossRates(a, b, missing);
      }
    }
  }

  lemma CreditWithin(s: State, lo: nat, hi: nat)
    requires 0 < lo <= hi && CreditKept(PacketBits(s), lo, hi) && RatesInv(s, lo, hi)
    ensures CancelEvents(s).residualBits <= PacketBits(s)
  {
    if s.sendEvent.Some? {
      var b :| lo <= b <= hi && DueAt(s, b);
      var dt, delay := s.now - s.lastStartTime, s.sendEvent.value - s.lastStartTime;
      var missing := PacketBits(s) - s.residualBits;
      BitsZero(s.rate);
      BitsMonotone(0.0, dt, s.rate);
      assert Kept(PacketBits(s), lo, hi, dt, s.rate, delay, b, missing);
    }
  }

  lemma ScheduleDue(s: State, lo: nat, hi: nat)
    requires Configured(s) && lo <= s.rate <= hi && s.residualBits <= PacketBits(s)
    requires s.sendEvent == None && s.lastStartTime == s.now
    ensures var t := ScheduleNextTx(s); t.residualBits == s.residualBits && (t.sendEvent.Some? ==> DueAt(t, s.rate))
  {
    if s.maxBytes == 0 || s.totBytes < s.maxBytes {
      var missing := PacketBits(s) - s.residualBits;
      PacketBitsSmall(s);
      SmallMod(missing);
      Divide(missing, s.rate);
      var t := ScheduleNextTx(s);
      assert t.sendEvent.value - t.lastStartTime == missing as real / s.rate as real;
    }
  }

  lemma RatesSchedule(s: State, step: Step, lo: nat, hi: nat)
    requires RatesInv(s, lo, hi) && Enabled(s, step) && (step.FireSend? || step.FireStart?)
    ensures RatesInv(Apply(s, step), lo, hi) && Apply(s, step).pktSize == s.pktSize
  {
    ScheduleDue(if step.FireSend? then PacketSent(s) else s.(startStopEvent := NoEvent, lastStartTime := s.now),
                lo, hi);
    assert Apply(s, step).sendEvent.Some? ==> DueAt(Apply(s, step), s.rate);
  }

  lemma RatesCancel(s: State, step: Step, lo: nat, hi: nat)
    requires 0 < lo <= hi && CreditKept(PacketBits(s), lo, hi) && RatesInv(s, lo, hi)
    requires Enabled(s, step) && (step.FireStop? || step.AppStart? || step.AppStop?)
    ensures RatesInv(Apply(s, step), lo, hi) && Apply(s, step).pktSize == s.pktSize
  {
    match step
    case FireStop(_) => CreditWithin(s, lo, hi);
    case AppStart(_) => StartCredit(s, lo, hi);
    case AppStop => CreditWithin(s, lo, hi);
  }

  lemma RatesStep(s: State, step: Step, lo: nat, hi: nat)
    requires 0 < lo <= hi && CreditKept(PacketBits(s), lo, hi) && RatesInv(s, lo, hi)
    requires Enabled(s, step) && (step.SetRate? ==> lo <= step.rate <= hi)
    ensures RatesInv(Apply(s, step), lo, hi) && Apply(s, step).pktSize == s.pktSize
  {
    match step
    case SetRate(rate) => KeepsDue(s, s.(rate := rate), lo, hi);
    case Advance(to) => KeepsDue(s, s.(now := to), lo, hi);
    case Connected(_) => RatesConnect(s, step, lo, hi);
    case FireSend => RatesSchedule(s, step, lo, hi);
    case FireStart(_) => RatesSchedule(s, step, lo, hi);
    case _ => RatesCancel(s, step, lo, hi);
  }

  lemma RatesConnect(s: State, step: Step, lo: nat, hi: nat)
    requires RatesInv(s, lo, hi) && Enabled(s, step) && step.Connected?
    ensures RatesInv(Apply(s, step), lo, hi) && Apply(s, step).pktSize == s.pktSize
  {
    if s.sendEvent.Some? {
      var b :| lo <= b <= hi && DueAt(s, b);
      assert DueAt(Apply(s, step), b);
    }
  }

  lemma StartCredit(s: State, lo: nat, hi: nat)
    requires 0 < lo <= hi && CreditKept(PacketBits(s), lo, hi) && RatesInv(s, lo, hi)
    ensures CancelEvents(s.(hasSocket := true, rateFailSafe := s.rate)).residualBits <= PacketBits(s)
  {
    var t := s.(hasSocket := true, rateFailSafe := s.rate);
    KeepsDue(s, t, lo, hi);
    CreditWithin(t, lo, hi);
  }

  lemma KeepsDue(s: State, t: State, lo: nat, hi: nat)
    requires RatesInv(s, lo, hi) && lo <= t.rate <= hi
    requires s.now <= t.now && (s.sendEvent.Some? ==> t.now <= s.sendEvent.value)
    requires t == s.(rate := t.rate, rateFailSafe := t.rateFailSafe, hasSocket := t.hasSocket, now := t.now)
             && 0 < t.rate
    ensures RatesInv(t, lo, hi)
  {
    if s.sendEvent.Some? {
      var b :| lo <= b <= hi && DueAt(s, b);
      assert DueAt(t, b);
    }
  }

  lemma {:induction false} RunRates(s: State, steps: seq<Step>, t: State, lo: nat, hi: nat)
    requires 0 < lo <= hi && CreditKept(PacketBits(s), lo, hi) && RatesInv(s, lo, hi)
    requires Run(s, steps, t) && RatesWithin(steps, lo, hi)
    ensures t.residualBits <= PacketBits(s)
    decreases steps
  {
    if steps != [] {
      RatesStep(s, steps[0], lo, hi);
      RunRates(Apply(s, steps[0]), steps[1..], t, lo, hi);
    }
  }

  // ---------------------------------------------------------------- rates further apart exceed it

  /** A run that schedules a packet at the low rate, with the copy of the rate at the high one, and then raises the
      rate again. */
  lemma SlowSend(init: State, lo: nat, hi: nat, onTime: real) returns (steps: seq<Step>, s: State)
    requires Initial(init) && 0 < lo <= hi && onTime >= 0.0
    ensures Run(init, steps, s) && RatesWithin(steps, lo, hi)
    ensures s.now == s.lastStartTime == init.now && s.rate == s.rateFailSafe == hi && s.pktSize == init.pktSize
    ensures s.residualBits == 0 && s.startStopEvent == Stop(init.now + onTime)
    ensures s.sendEvent == Some(init.now + PacketBits(init) as real / lo as real)
  {
    var a0 := [SetRate(hi)] + [AppStart(0.0)];
    var a1 := a0 + [Connected(0.0)] + [SetRate(lo)];
    var s1 := Apply(init, SetRate(hi));
    var s2 := Apply(s1, AppStart(0.0));
    var s3 := Apply(s2, Connected(0.0));
    var s4 := Apply(s3, SetRate(lo));
    var s5 := Apply(s4, FireStart(onTime));
    s := Apply(s5, SetRate(hi));
    PacketBitsSmall(init);
    SmallMod(PacketBits(init));
    RunOne(init, SetRate(hi));
    RunThen(init, [SetRate(hi)], s1, AppStart(0.0));
    RunThen(init, a0, s2, Connected(0.0));
    RunThen(init, a0 + [Connected(0.0)], s3, SetRate(lo));
    RunThen(init, a1, s4, FireStart(onTime));
    steps := a1 + [FireStart(onTime)] + [SetRate(hi)];
    RunThen(init, a1 + [FireStart(onTime)], s5, SetRate(hi));
  }

  /** Stopping such a run after dt seconds credits what the high rate earns in them. */
  lemma OverCredit(init: State, lo: nat, hi: nat, dt: real) returns (steps: seq<Step>, s: State)
    requires Initial(init) && 0 < lo <= hi && 0.0 <= dt <= PacketBits(init) as real / lo as real
    ensures Run(init, steps, s) && RatesWithin(steps, lo, hi)
    ensures s.residualBits == AddBits(0, Bits(dt, hi).Floor)
  {
    var before, u := SlowSend(init, lo, hi, dt);
    var u1 := Apply(u, Advance(u.now + dt));
    s := Apply(u1, AppStop);
    assert u1.now - u1.lastStartTime == dt;
    RunThen(init, before, u, Advance(u.now + dt));
    steps := before + [Advance(u.now + dt)] + [AppStop];
    RunThen(init, before + [Advance(u.now + dt)], u1, AppStop);
  }

  /** Comparing with one remembered copy of the rate does not protect the credit from a rate that is changed and
      changed back: a run of a one-byte-packet application that ends with 14 bits of credit for 8-bit packets. */
  lemma RateChangeOverflows(init: State) returns (steps: seq<Step>, s: State)
    requires Initial(init) && init.pktSize == 1
    ensures Run(init, steps, s) && s.residualBits == 14 > PacketBits(s)
  {
    BitsIsProduct(7.0, 2);
    steps, s := OverCredit(init, 1, 2, 7.0);
    RunKeepsSize(init, steps, s);
  }

  lemma {:induction false} RunKeepsSize(s: State, steps: seq<Step>, t: State)
    requires s.rate > 0 && Run(s, steps, t)
    ensures t.pktSize == s.pktSize && t.maxBytes == s.maxBytes
    decreases steps
  {
    if steps != [] {
      RunKeepsSize(Apply(s, steps[0]), steps[1..], t);
    }
  }

  lemma TimeForOneMore(bits: nat, lo: nat, hi: nat) returns (dt: real)
    requires 0 < lo <= hi && !CloseRates(bits, lo, hi)
    ensures 0.0 <= dt <= bits as real / lo as real && Bits(dt, hi) == (bits + 1) as real
  {
    dt := (bits + 1) as real / hi as real;
    Divide(bits + 1, hi);
    Divide(bits, lo);
    ProductAsReal(hi, bits);
    ProductAsReal(bits + 1, lo);
    CrossMultiply((bits + 1) as real, hi as real, bits as real, lo as real);
  }

  lemma CrossMultiply(x: real, h: real, y: real, l: real)
    requires h > 0.0 && l > 0.0 && x * l <= h * y
    ensures x / h <= y / l
  {
    var p, q := x / h, y / l;
    assert p * h == x && q * l == y;
    assert p * (h * l) == x * l && q * (h * l) == h * y;
    assert h * l > 0.0;
    LessTimes(q, p, h * l);
  }

  /** In every run with rates from lo to hi the credit stays within the packet. */
  ghost predicate AlwaysWithin(init: State, lo: nat, hi: nat)
    requires init.rate > 0
  {
    forall steps, s :: Run(init, steps, s) && RatesWithin(steps, lo, hi) ==> s.residualBits <= PacketBits(init)
  }

  lemma CloseRatesKeep(init: State, lo: nat, hi: nat)
    requires Initial(init) && 0 < lo <= init.rate <= hi && CloseRates(PacketBits(init), lo, hi)
    ensures AlwaysWithin(init, lo, hi)
  {
    CloseIsKept(PacketBits(init), lo, hi);
    forall steps, s | Run(init, steps, s) && RatesWithin(steps, lo, hi)
      ensures s.residualBits <= PacketBits(init)
    {
      RunRates(init, steps, s, lo, hi);
    }
  }

  /** At rates that are not close, one bit too many can be credited. */
  lemma FarRatesExceed(init: State, lo: nat, hi: nat) returns (steps: seq<Step>, s: State)
    requires Initial(init) && 0 < lo <= hi && !CloseRates(PacketBits(init), lo, hi)
    ensures Run(init, steps, s) && RatesWithin(steps, lo, hi) && s.residualBits == PacketBits(init) + 1
  {
    var dt := TimeForOneMore(PacketBits(init), lo, hi);
    steps, s := OverCredit(init, lo, hi, dt);
    PacketBitsEven(init);
    assert Bits(dt, hi).Floor == PacketBits(init) + 1;
  }

  /** With rates that vary between lo and hi, the credit stays within the packet in every run if and only if the two
      are close. */
  lemma CreditIffCloseRates(init: State, lo: nat, hi: nat)
    requires Initial(init) && 0 < lo <= init.rate <= hi
    ensures AlwaysWithin(init, lo, hi) <==> CloseRates(PacketBits(init), lo, hi)
  {
    if CloseRates(PacketBits(init), lo, hi) {
      CloseRatesKeep(init, lo, hi);
    } else {
      var steps, s := FarRatesExceed(init, lo, hi);
    }
  }

  lemma PacketBitsEven(s: State)
    ensures PacketBits(s) + 1 < TWO32
  {}

  // ---------------------------------------------------------------- an interruption that loses half a bit

  /** One byte at one bit per second, interrupted after half a second: the half bit is forgotten, so the packet is sent
      after eight and a half seconds of on-time instead of eight. */
  lemma HalfBitLost(init: State) returns (steps: seq<Step>, s: State)
    requires Initial(init) && init.pktSize == 1 && init.rate == 1
    ensures FixedRate(steps) && Run(init, steps, s) && Enabled(s, FireSend)
    ensures s.history.cancels == 1 && s.history.fractional && Bits(OnTime(s), s.rate) == 8.5 > PacketBits(s) as real
  {
    var before, u := Interrupted(init);
    var v := Apply(u, FireStart(8.0));
    assert v.sendEvent == Some(v.now + 8.0);
    s := Apply(v, Advance(v.now + 8.0));
    BitsIsProduct(8.5, 1);
    RunThen(init, before, u, FireStart(8.0));
    steps := before + [FireStart(8.0)] + [Advance(v.now + 8.0)];
    RunThen(init, before + [FireStart(8.0)], v, Advance(v.now + 8.0));
  }

  lemma Interrupted(init: State) returns (steps: seq<Step>, s: State)
    requires Initial(init) && init.pktSize == 1 && init.rate == 1
    ensures FixedRate(steps) && Run(init, steps, s)
    ensures s.rate == 1 && s.pktSize == 1 && s.residualBits == 0 && s.maxBytes == init.maxBytes && s.totBytes == 0
    ensures s.sendEvent == None && s.startStopEvent == Start(s.now)
    ensures s.history.cancels == 1 && s.history.fractional && s.history.spent == 0.5
  {
    var before, u := OnPeriod(init);
    var v := Apply(u, Advance(u.now + 0.5));
    s := Apply(v, FireStop(0.0));
    BitsIsProduct(0.5, 1);
    assert v.now - v.lastStartTime == 0.5 && 0.5.Floor == 0;
    RunThen(init, before, u, Advance(u.now + 0.5));
    steps := before + [Advance(u.now + 0.5)] + [FireStop(0.0)];
    RunThen(init, before + [Advance(u.now + 0.5)], v, FireStop(0.0));
  }

  lemma OnPeriod(init: State) returns (steps: seq<Step>, s: State)
    requires Initial(init) && init.pktSize == 1 && init.rate == 1
    ensures FixedRate(steps) && Run(init, steps, s)
    ensures s.now == s.lastStartTime == init.now && s.rate == s.rateFailSafe == 1 && s.pktSize == 1
            && s.residualBits == 0
    ensures s.sendEvent == Some(init.now + 8.0) && s.startStopEvent == Stop(init.now + 0.5)
    ensures s.maxBytes == init.maxBytes && s.totBytes == 0 && s.history == init.history && s.hasSocket && s.connected
  {
    var s1 := Apply(init, AppStart(0.0));
    var s2 := Apply(s1, Connected(0.0));
    s := Apply(s2, FireStart(0.5));
    RunOne(init, AppStart(0.0));
    RunThen(init, [AppStart(0.0)], s1, Connected(0.0));
    steps := [AppStart(0.0)] + [Connected(0.0)] + [FireStart(0.5)];
    RunThen(init, [AppStart(0.0)] + [Connected(0.0)], s2, FireStart(0.5));
  }
}
