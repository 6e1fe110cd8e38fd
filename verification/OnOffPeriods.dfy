/** How long the generator's periods last, in terms of the steps of a run and their times only. */
module OnOffPeriods {
  import opened Options
  import opened OnOff

  /** Nothing but time, the rate and the connection intervenes. */
  ghost predicate Undisturbed(steps: seq<Step>) {
    forall k :: 0 <= k < |steps| ==> steps[k].Advance? || steps[k].SetRate? || steps[k].Connected?
  }

  /** Packets are sent in between, too. */
  ghost predicate OnlySending(steps: seq<Step>) {
    forall k :: 0 <= k < |steps| ==>
      steps[k].FireSend? || steps[k].Advance? || steps[k].SetRate? || steps[k].Connected?
  }

  /** The state before the last step of a run. */
  lemma {:induction false} RunSplit(s: State, steps: seq<Step>, last: Step, t: State) returns (u: State)
    requires s.rate > 0 && Run(s, steps + [last], t)
    ensures Run(s, steps, u) && u.rate > 0 && Enabled(u, last) && t == Apply(u, last)
    decreases steps
  {
    var all := steps + [last];
    if steps == [] {
      u := s;
      assert all[1..] == [];
    } else {
      assert all[1..] == steps[1..] + [last];
      u := RunSplit(Apply(s, steps[0]), steps[1..], last, t);
    }
  }

  lemma {:induction false} StartStays(s: State, steps: seq<Step>, t: State)
    requires s.rate > 0 && s.startStopEvent.Start? && Undisturbed(steps) && Run(s, steps, t)
    ensures t.startStopEvent == s.startStopEvent
    decreases steps
  {
    if steps != [] {
      StartStays(Apply(s, steps[0]), steps[1..], t);
    }
  }

  /** Sending never moves the end of the period: it can only be cancelled. */
  ghost predicate StopsAt(s: State, at: real) {
    s.startStopEvent.Stop? ==> s.startStopEvent.at == at
  }

  lemma {:induction false} StopStays(s: State, steps: seq<Step>, t: State, at: real)
    requires s.rate > 0 && StopsAt(s, at) && OnlySending(steps) && Run(s, steps, t)
    ensures StopsAt(t, at)
    decreases steps
  {
    if steps != [] {
      StopStays(Apply(s, steps[0]), steps[1..], t, at);
    }
  }

  lemma RunFirst(s: State, first: Step, rest: seq<Step>, t: State)
    requires s.rate > 0 && Run(s, [first] + rest, t)
    ensures Enabled(s, first) && Apply(s, first).rate > 0 && Run(Apply(s, first), rest, t)
  {
    assert ([first] + rest)[1..] == rest;
  }

  /** A pending start fires at its time, unless it is cancelled. */
  lemma StartFires(s: State, between: seq<Step>, onTime: real, t: State)
    requires s.rate > 0 && s.startStopEvent.Start? && Undisturbed(between)
    requires Run(s, between + [FireStart(onTime)], t)
    ensures t.now == s.startStopEvent.at
  {
    var u := RunSplit(s, between, FireStart(onTime), t);
    StartStays(s, between, u);
  }

  /** An off period lasts the off time drawn at its beginning. */
  lemma OffPeriodLasts(s: State, offTime: real, between: seq<Step>, onTime: real, t: State)
    requires s.rate > 0 && Undisturbed(between) && Run(s, [FireStop(offTime)] + (between + [FireStart(onTime)]), t)
    ensures t.now == s.now + offTime
  {
    RunFirst(s, FireStop(offTime), between + [FireStart(onTime)], t);
    StartFires(Apply(s, FireStop(offTime)), between, onTime, t);
  }

  /** So does the wait after the connection, when nothing was pending. */
  lemma ConnectionWaits(s: State, offTime: real, between: seq<Step>, onTime: real, t: State)
    requires s.rate > 0 && Undisturbed(between) && Run(s, [Connected(offTime)] + (between + [FireStart(onTime)]), t)
    requires s.startStopEvent == NoEvent
    ensures t.now == s.now + offTime
  {
    RunFirst(s, Connected(offTime), between + [FireStart(onTime)], t);
    StartFires(Apply(s, Connected(offTime)), between, onTime, t);
  }

  /** And the wait after a start of a connected application. */
  lemma RestartWaits(s: State, offTime: real, between: seq<Step>, onTime: real, t: State)
    requires s.rate > 0 && Undisturbed(between) && Run(s, [AppStart(offTime)] + (between + [FireStart(onTime)]), t)
    requires s.connected
    ensures t.now == s.now + offTime
  {
    RunFirst(s, AppStart(offTime), between + [FireStart(onTime)], t);
    StartFires(Apply(s, AppStart(offTime)), between, onTime, t);
  }

  /** An on period lasts the on time drawn at its beginning, however many packets are sent in it. */
  lemma OnPeriodLasts(s: State, onTime: real, between: seq<Step>, offTime: real, t: State)
    requires s.rate > 0 && OnlySending(between) && Run(s, [FireStart(onTime)] + (between + [FireStop(offTime)]), t)
    ensures t.now == s.now + onTime
  {
    RunFirst(s, FireStart(onTime), between + [FireStop(offTime)], t);
    var u := RunSplit(Apply(s, FireStart(onTime)), between, FireStop(offTime), t);
    StopStays(Apply(s, FireStart(onTime)), between, u, s.now + onTime);
  }
}
