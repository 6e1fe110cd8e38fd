/** The on/off generator's byte limit: what a run hands over, exactly when the limit is kept, and exactly when nothing
    is pending once it has been reached. */
module OnOffLimit {
  import opened Options
  import opened OnOff

  // ---------------------------------------------------------------- bytes handed over

  /** The limit rounded up to whole packets: what is left after each packet, until nothing is left. */
  ghost function RoundUp(bytes: int, pktSize: nat): nat
    requires pktSize > 0
    decreases bytes
  {
    if bytes <= 0 then 0 else pktSize + RoundUp(bytes - pktSize, pktSize)
  }

  /** It is the least multiple of the packet size that is not below the limit. */
  lemma {:induction false} RoundUpIsCeiling(bytes: nat, pktSize: nat) returns (packets: nat)
    requires pktSize > 0
    ensures RoundUp(bytes, pktSize) == packets * pktSize
    ensures bytes <= RoundUp(bytes, pktSize) < bytes + pktSize
    decreases bytes
  {
    if bytes == 0 {
      packets := 0;
    } else if bytes <= pktSize {
      packets := 1;
    } else {
      var rest := RoundUpIsCeiling(bytes - pktSize, pktSize);
      packets := rest + 1;
      assert packets * pktSize == rest * pktSize + pktSize;
    }
  }

  ghost predicate AtLimit(s: State) {
    s.maxBytes > 0 && s.totBytes >= s.maxBytes
  }

  /** The byte counter has not wrapped, is on its way to the rounded limit packet by packet, and a send is pending
      only below the limit. */
  ghost predicate LimitInv(s: State) {
    && Configured(s)
    && s.totBytes == s.history.handedOver
    && RoundUp(s.maxBytes, s.pktSize) == s.totBytes + RoundUp(s.maxBytes - s.totBytes, s.pktSize)
    && (s.sendEvent.Some? ==> !AtLimit(s))
  }

  /** A step keeps the account unless it sends the packet at which the 64-bit counter wraps. */
  lemma LimitStep(s: State, step: Step)
    requires LimitInv(s) && Enabled(s, step) && 0 < s.maxBytes
    requires step.FireSend? ==> s.totBytes + s.pktSize < TWO64
    ensures LimitInv(Apply(s, step))
    ensures Apply(s, step).maxBytes == s.maxBytes && Apply(s, step).pktSize == s.pktSize
  {
    match step
    case FireSend => LimitSend(s);
    case _ =>
  }

  lemma LimitSend(s: State)
    requires LimitInv(s) && Enabled(s, FireSend) && 0 < s.maxBytes && s.totBytes + s.pktSize < TWO64
    ensures LimitInv(SendPacket(s)) && SendPacket(s).maxBytes == s.maxBytes && SendPacket(s).pktSize == s.pktSize
  {
    var t := PacketSent(s);
    assert t.totBytes == t.history.handedOver == s.totBytes + s.pktSize;
    var left := s.maxBytes - s.totBytes;
    assert RoundUp(left, s.pktSize) == s.pktSize + RoundUp(left - s.pktSize, s.pktSize);
  }

  /** Below the limit, what has been sent and one more packet do not exceed the rounded limit. */
  lemma NextPacketFits(s: State)
    requires LimitInv(s) && !AtLimit(s) && 0 < s.maxBytes
    ensures s.totBytes + s.pktSize <= RoundUp(s.maxBytes, s.pktSize)
  {}

  lemma {:induction false} RunLimit(s: State, steps: seq<Step>, t: State)
    requires LimitInv(s) && Run(s, steps, t)
    requires 0 < s.maxBytes && RoundUp(s.maxBytes, s.pktSize) < TWO64
    ensures LimitInv(t) && t.maxBytes == s.maxBytes && t.pktSize == s.pktSize
    decreases steps
  {
    if steps != [] {
      if steps[0].FireSend? {
        NextPacketFits(s);
      }
      LimitStep(s, steps[0]);
      RunLimit(Apply(s, steps[0]), steps[1..], t);
    }
  }

  ghost predicate Quiet(s: State) {
    s.sendEvent == None && s.startStopEvent == NoEvent
  }

  /** The framework starts the application at most once and the connection succeeds at most once. */
  ghost predicate AtMostOnce(steps: seq<Step>, started: bool, linked: bool) {
    steps == []
    || ((steps[0].AppStart? ==> !started) && (steps[0].Connected? ==> !linked)
        && AtMostOnce(steps[1..], started || steps[0].AppStart?, linked || steps[0].Connected?))
  }

  ghost predicate QuietInv(s: State, started: bool, linked: bool) {
    && (!started ==> !s.hasSocket)
    && (s.connected ==> linked)
    && (linked ==> s.hasSocket)
    && (!linked ==> Quiet(s) && s.totBytes == 0)
    && (AtLimit(s) ==> Quiet(s))
  }

  lemma QuietStep(s: State, step: Step, started: bool, linked: bool)
    requires s.rate > 0 && QuietInv(s, started, linked) && Enabled(s, step)
    requires (step.AppStart? ==> !started) && (step.Connected? ==> !linked)
    ensures QuietInv(Apply(s, step), started || step.AppStart?, linked || step.Connected?)
  {}

  lemma {:induction false} RunQuiet(s: State, steps: seq<Step>, t: State, started: bool, linked: bool)
    requires s.rate > 0 && QuietInv(s, started, linked) && AtMostOnce(steps, started, linked) && Run(s, steps, t)
    ensures AtLimit(t) ==> Quiet(t)
    decreases steps
  {
    if steps != [] {
      QuietStep(s, steps[0], started, linked);
      RunQuiet(Apply(s, steps[0]), steps[1..], t, started || steps[0].AppStart?, linked || steps[0].Connected?);
    }
  }

  /** When the counter can hold the rounded limit, no run hands over more than it, and exactly that much once the limit
      is reached; with at most one start of the application and one connection success, nothing is pending then. */
  lemma LimitReached(init: State, steps: seq<Step>, s: State)
    requires Initial(init) && Run(init, steps, s)
    requires 0 < init.maxBytes && RoundUp(init.maxBytes, init.pktSize) < TWO64
    ensures s.history.handedOver <= RoundUp(init.maxBytes, init.pktSize)
    ensures AtLimit(s) ==> s.history.handedOver == RoundUp(init.maxBytes, init.pktSize)
    ensures AtLimit(s) && AtMostOnce(steps, false, false) ==> Quiet(s)
  {
    RunLimit(init, steps, s);
    if AtMostOnce(steps, false, false) {
      RunQuiet(init, steps, s, false, false);
    }
  }

  /** The packet that should reach the limit is noticed to do so exactly when the 64-bit counter can hold the
      rounded limit; otherwise the counter wraps below the limit. */
  lemma LastPacketNoticed(s: State)
    requires LimitInv(s) && 0 < s.maxBytes && !AtLimit(s) && Enabled(s, FireSend)
    requires s.history.handedOver + s.pktSize >= s.maxBytes
    ensures RoundUp(s.maxBytes, s.pktSize) == s.totBytes + s.pktSize
    ensures AtLimit(Apply(s, FireSend)) <==> RoundUp(s.maxBytes, s.pktSize) < TWO64
  {
    assert RoundUp(s.maxBytes - s.totBytes, s.pktSize) == s.pktSize;
    WrapOnce(s.totBytes + s.pktSize);
  }

  lemma WrapOnce(x: nat)
    requires x < 2 * TWO64
    ensures x % TWO64 == if x < TWO64 then x else x - TWO64
  {}

  // ---------------------------------------------------------------- a counter too small for the rounded limit

  /** The time between two packets, the packets still to be sent, and the time they take. */
  ghost function Gap(s: State): real
    requires s.rate > 0
  {
    PacketBits(s) as real / s.rate as real
  }

  ghost function Packets(bytes: int, pktSize: nat): nat
    requires pktSize > 0
    decreases bytes
  {
    if bytes <= 0 then 0 else 1 + Packets(bytes - pktSize, pktSize)
  }

  ghost function Span(n: nat, gap: real): real {
    if n == 0 then 0.0 else gap + Span(n - 1, gap)
  }

  lemma GapNotNegative(s: State)
    requires s.rate > 0
    ensures Gap(s) >= 0.0
  {}

  lemma {:induction false} SpanNotNegative(n: nat, gap: real)
    requires gap >= 0.0
    ensures Span(n, gap) >= 0.0
  {
    if n > 0 {
      SpanNotNegative(n - 1, gap);
    }
  }

  /** In an on period that lasts long enough for n more packets. */
  ghost predicate Sending(s: State, n: nat) {
    && s.rate > 0 && s.residualBits == 0 && s.hasSocket && s.connected
    && s.sendEvent.Some? && s.startStopEvent.Stop? && s.now <= s.sendEvent.value
    && s.sendEvent.value + Span(n, Gap(s)) <= s.startStopEvent.at
  }

  lemma FirstPacket(init: State, n: nat) returns (steps: seq<Step>, s: State)
    requires Initial(init) && 0 < init.maxBytes
    ensures Run(init, steps, s) && Sending(s, n) && LimitInv(s) && !AtLimit(s)
    ensures s.totBytes == s.history.handedOver == 0
    ensures s.maxBytes == init.maxBytes && s.pktSize == init.pktSize && s.rate == init.rate
  {
    var gap := Gap(init);
    GapNotNegative(init);
    SpanNotNegative(n, gap);
    PacketBitsSmall(init);
    SmallMod(PacketBits(init));
    var onTime := gap + Span(n, gap);
    var s1 := Apply(init, AppStart(0.0));
    var s2 := Apply(s1, Connected(0.0));
    s := Apply(s2, FireStart(onTime));
    RunOne(init, AppStart(0.0));
    RunThen(init, [AppStart(0.0)], s1, Connected(0.0));
    steps := [AppStart(0.0)] + [Connected(0.0)] + [FireStart(onTime)];
    RunThen(init, [AppStart(0.0)] + [Connected(0.0)], s2, FireStart(onTime));
  }

  /** Time passes until the pending send is due, and the packet is sent. */
  lemma NextPacket(init: State, steps: seq<Step>, s: State, n: nat) returns (more: seq<Step>, t: State)
    requires init.rate > 0 && Run(init, steps, s) && Sending(s, n)
    requires LimitInv(s) && 0 < s.maxBytes && !AtLimit(s)
    ensures Run(init, more, t) && t.hasSocket
    ensures t.history.handedOver == s.history.handedOver + s.pktSize
    ensures t.rate == s.rate && t.pktSize == s.pktSize && t.maxBytes == s.maxBytes
    ensures n > 0 && !AtLimit(t) ==> Sending(t, n - 1)
    ensures AtLimit(t) ==> Quiet(t)
    ensures if s.totBytes + s.pktSize < s.maxBytes
            then LimitInv(t) && !AtLimit(t) && t.totBytes == s.totBytes + s.pktSize
            else RoundUp(s.maxBytes, s.pktSize) == s.totBytes + s.pktSize
                 && (AtLimit(t) <==> s.totBytes + s.pktSize < TWO64)
  {
    GapNotNegative(s);
    SpanNotNegative(n, Gap(s));
    var due := s.sendEvent.value;
    var v := Apply(s, Advance(due));
    t := Apply(v, FireSend);
    RunThen(init, steps, s, Advance(due));
    more := steps + [Advance(due)] + [FireSend];
    RunThen(init, steps + [Advance(due)], v, FireSend);
    if n > 0 && !AtLimit(t) {
      StillSending(s, n);
    }
    if s.totBytes + s.pktSize < s.maxBytes {
      LimitStep(v, FireSend);
    } else {
      LastPacketNoticed(v);
    }
  }

  lemma StillSending(s: State, n: nat)
    requires Sending(s, n) && n > 0 && 0 < s.maxBytes && !AtLimit(SendPacket(s.(now := s.sendEvent.value)))
    ensures Sending(SendPacket(s.(now := s.sendEvent.value)), n - 1)
  {
    GapNotNegative(s);
    PacketBitsSmall(s);
    SmallMod(PacketBits(s));
  }

  lemma {:induction false} SendPastLimit(init: State, steps: seq<Step>, s: State, n: nat)
    returns (more: seq<Step>, t: State)
    requires init.rate > 0 && Run(init, steps, s) && LimitInv(s) && 0 < s.maxBytes && !AtLimit(s)
    requires RoundUp(s.maxBytes, s.pktSize) >= TWO64
    requires n == Packets(s.maxBytes - s.totBytes, s.pktSize) && Sending(s, n)
    ensures Run(init, more, t) && t.history.handedOver > RoundUp(s.maxBytes, s.pktSize)
    decreases n
  {
    var u;
    more, u := NextPacket(init, steps, s, n);
    if s.totBytes + s.pktSize < s.maxBytes {
      assert n - 1 == Packets(u.maxBytes - u.totBytes, u.pktSize);
      more, t := SendPastLimit(init, more, u, n - 1);
    } else {
      more, t := SendOneMore(init, more, u, n - 1);
    }
  }

  /** Past the wrap of the counter, the application goes on as if it were below the limit. */
  lemma SendOneMore(init: State, steps: seq<Step>, s: State, n: nat) returns (more: seq<Step>, t: State)
    requires init.rate > 0 && Run(init, steps, s) && Sending(s, n)
    ensures Run(init, more, t) && t.history.handedOver == s.history.handedOver + s.pktSize
  {
    GapNotNegative(s);
    SpanNotNegative(n, Gap(s));
    var due := s.sendEvent.value;
    var v := Apply(s, Advance(due));
    t := Apply(v, FireSend);
    RunThen(init, steps, s, Advance(due));
    more := steps + [Advance(due)] + [FireSend];
    RunThen(init, steps + [Advance(due)], v, FireSend);
  }

  /** No run hands over more than the rounded limit. */
  ghost predicate NeverExceeds(init: State)
    requires init.rate > 0 && init.pktSize > 0
  {
    forall steps, s :: Run(init, steps, s) ==> s.history.handedOver <= RoundUp(init.maxBytes, init.pktSize)
  }

  lemma LimitNeverExceeded(init: State)
    requires Initial(init) && 0 < init.maxBytes && RoundUp(init.maxBytes, init.pktSize) < TWO64
    ensures NeverExceeds(init)
  {
    forall steps, s | Run(init, steps, s)
      ensures s.history.handedOver <= RoundUp(init.maxBytes, init.pktSize)
    {
      LimitReached(init, steps, s);
    }
  }

  lemma LimitExceeded(init: State) returns (steps: seq<Step>, s: State)
    requires Initial(init) && 0 < init.maxBytes && RoundUp(init.maxBytes, init.pktSize) >= TWO64
    ensures Run(init, steps, s) && s.history.handedOver > RoundUp(init.maxBytes, init.pktSize)
  {
    steps, s := FirstPacket(init, Packets(init.maxBytes, init.pktSize));
    steps, s := SendPastLimit(init, steps, s, Packets(init.maxBytes, init.pktSize));
  }

  /** The limit, rounded up to whole packets, is kept in every run if and only if the 64-bit counter can hold it. */
  lemma LimitKeptIff(init: State)
    requires Initial(init) && 0 < init.maxBytes
    ensures NeverExceeds(init) <==> RoundUp(init.maxBytes, init.pktSize) < TWO64
  {
    if RoundUp(init.maxBytes, init.pktSize) < TWO64 {
      LimitNeverExceeded(init);
    } else {
      var steps, s := LimitExceeded(init);
    }
  }

  // ---------------------------------------------------------------- when nothing is pending past the limit

  /** Whether, of the calls since the limit was reached, the last start, stop or connection success is one that is not
      a stop. */
  ghost predicate RestartedAfter(s: State, step: Step, restarted: bool) {
    AtLimit(s) && if step.AppStart? || step.Connected? then true else if step.AppStop? then false else restarted
  }

  ghost predicate Restarted(s: State, steps: seq<Step>, t: State, restarted: bool)
    requires s.rate > 0 && Run(s, steps, t)
    decreases steps
  {
    if steps == [] then restarted
    else Restarted(Apply(s, steps[0]), steps[1..], t, RestartedAfter(s, steps[0], restarted))
  }

  /** Past the limit the application is connected, no send is pending, and another event is exactly after a restart. */
  ghost predicate RestInv(s: State, restarted: bool) {
    && (s.sendEvent.Some? || s.startStopEvent != NoEvent ==> s.connected)
    && (s.sendEvent.Some? ==> !AtLimit(s))
    && (AtLimit(s) ==> s.connected && (s.startStopEvent != NoEvent <==> restarted))
  }

  lemma RestStep(s: State, step: Step, restarted: bool)
    requires s.rate > 0 && RestInv(s, restarted) && Enabled(s, step)
    ensures RestInv(Apply(s, step), RestartedAfter(s, step, restarted))
  {}

  lemma {:induction false} RunRest(s: State, steps: seq<Step>, t: State, restarted: bool)
    requires s.rate > 0 && RestInv(s, restarted) && Run(s, steps, t)
    ensures RestInv(t, Restarted(s, steps, t, restarted))
    decreases steps
  {
    if steps != [] {
      RestStep(s, steps[0], restarted);
      RunRest(Apply(s, steps[0]), steps[1..], t, RestartedAfter(s, steps[0], restarted));
    }
  }

  /** Once the limit is reached, nothing is pending if and only if the application has not been restarted: since then,
      the last of its starts, stops and connection successes is a stop, or there is none. */
  lemma QuietIff(init: State, steps: seq<Step>, s: State)
    requires Initial(init) && Run(init, steps, s) && AtLimit(s)
    ensures Quiet(s) <==> !Restarted(init, steps, s, false)
  {
    RunRest(init, steps, s, false);
  }

  /** A run that is not quiet at the limit: the connection succeeds a second time after the only packet. */
  lemma RestartedByConnection(init: State) returns (steps: seq<Step>, s: State)
    requires Initial(init) && 0 < init.maxBytes <= init.pktSize
    ensures Run(init, steps, s) && AtLimit(s) && s.startStopEvent == Start(s.now) && s.connected && s.sendEvent == None
  {
    var before, u := FirstPacket(init, 0);
    var sent, v := NextPacket(init, before, u, 0);
    WrapOnce(init.pktSize);
    RunRest(init, sent, v, false);
    s := Apply(v, Connected(0.0));
    steps := sent + [Connected(0.0)];
    RunThen(init, sent, v, Connected(0.0));
  }

  /** After the limit, a restarted application goes on with an on/off cycle without packets that only a stop of the
      application ends: StartSending schedules the stop event even when ScheduleNextTx has just cancelled everything. */
  lemma {:induction false} CyclesWithoutPackets(s: State, steps: seq<Step>, t: State)
    requires s.rate > 0 && AtLimit(s) && s.connected && s.sendEvent == None && s.startStopEvent != NoEvent
    requires Run(s, steps, t) && forall k :: 0 <= k < |steps| ==> !steps[k].AppStop?
    ensures !Quiet(t) && t.sendEvent == None && t.history.handedOver == s.history.handedOver
    decreases steps
  {
    if steps != [] {
      CyclesWithoutPackets(Apply(s, steps[0]), steps[1..], t);
    }
  }
}
