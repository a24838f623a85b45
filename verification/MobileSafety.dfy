/** What the phone receiver never does, over every run of events. */
module MobileSafety {
  import opened Types
  import opened MassoKeyboard
  import opened ControlMapper
  import opened MobileProtocol
  import opened UsbOutput
  import opened MobileReceiver
  import opened MobileMeaning

  ghost function Reached(es: seq<Event>): State {
    if es == [] then BOOT else Step(Reached(es[..|es| - 1]), es[|es| - 1])
  }

  lemma ReachedStep(es: seq<Event>, n: nat)
    requires n < |es|
    ensures Reached(es[..n + 1]) == Step(Reached(es[..n]), es[n])
  {
    hide Step;
    assert es[..n + 1][..n] == es[..n];
  }

  /** While a neutral controller is demanded, no key is wanted on the wire. */
  predicate Safe(s: State) {
    (s.neutralRequired ==> !HasKey(s.output.desired)) && Exclusive(s.mapper)
  }

  /** An undelivered cancel event. */
  predicate Cancels(s: State, data: seq<bv8>) {
    |data| == 10 && IsFresh(s.session, data) && data[7] == 5
  }

  /** An accepted frame with the dead-man up or no direction, and no cancel. */
  predicate NeutralFrame(s: State, e: Event) {
    e.Frame? && Accepts(s.session, e.data) && |e.data| == 10 && !AsksMotion(e.data) && !Cancels(s, e.data)
  }

  /** The events that must stop output until the controller has been neutral. */
  predicate Stops(s: State, e: Event) {
    match e
    case Frame(data, t) => !Accepts(s.session, data) || Cancels(s, data)
    case Connected(_) => true
    case Disconnected(_) => true
    case UsbPass(env, _) =>
      MountChanges(s.output, env)
      || (env.mounted && env.ready && !env.accepts && Offer(s.output).Some?)
    case TimeoutPass(t) => TimesOut(s, Clock(t))
  }

  lemma FrameIsSafe(s: State, e: Event)
    requires Safe(s) && e.Frame?
    ensures Safe(Step(s, e))
    ensures Stops(s, e) ==> Step(s, e).neutralRequired
    ensures !Step(s, e).neutralRequired ==> !s.neutralRequired || NeutralFrame(s, e)
  {
    hide Accepts, IsFresh, AsksMotion, OnFrame, Exclusive, Read;
    FrameIsExact(s, e.data, Clock(e.t));
    FrameIsExclusive(s, e.data, Clock(e.t));
  }

  lemma FrameIsExclusive(s: State, data: seq<bv8>, now: uint32)
    ensures Exclusive(OnFrame(s, data, now).mapper)
  {
    hide Consume, AfterFrame, Accepts, ControlMapper.Output, CncReport, Next;
    AcceptedFrame(s.session, data, now);
    NextIsExclusive(s.mapper, IdleState(now), now);
    NextIsExclusive(s.mapper, Consume(s.session, data, now).input, now);
  }

  lemma NextIsExclusive(m: MapperState, g: GamepadState, now: uint32)
    ensures Exclusive(Next(DEFAULT_CONFIG, m, g, now))
  {
  }

  lemma StepIsSafe(s: State, e: Event)
    requires Safe(s)
    ensures Safe(Step(s, e))
    ensures Stops(s, e) ==> Step(s, e).neutralRequired
    ensures !Step(s, e).neutralRequired ==> !s.neutralRequired || NeutralFrame(s, e)
    ensures s.neutralRequired ==> (forall r <- Wire(s, e) :: !HasKey(r))
  {
    hide Consume, AfterFrame, Accepts, ControlMapper.Output, CncReport;
    if e.Frame? {
      FrameIsSafe(s, e);
    }
  }

  /** The neutral gate holds in every reachable state. */
  lemma {:induction false} GateHoldsAlways(es: seq<Event>)
    ensures Safe(Reached(es))
  {
    hide Step, Safe;
    if es == [] {
      BootIsSafe();
    } else {
      GateHoldsAlways(es[..|es| - 1]);
      StepIsSafe(Reached(es[..|es| - 1]), es[|es| - 1]);
    }
  }

  lemma BootIsSafe()
    ensures Safe(BOOT)
  {
  }

  /** Whenever output is enabled, a neutral frame enabled it and nothing has stopped it since. */
  lemma {:induction false} EnabledByNeutralFrame(es: seq<Event>) returns (k: nat)
    requires !Reached(es).neutralRequired
    ensures k < |es| && NeutralFrame(Reached(es[..k]), es[k])
    ensures forall m :: k < m <= |es| ==> !Reached(es[..m]).neutralRequired
  {
    hide Step, NeutralFrame, Safe, Stops, Wire;
    assert es != [];
    var n := |es| - 1;
    assert es[..n + 1] == es;
    GateHoldsAlways(es[..n]);
    StepIsSafe(Reached(es[..n]), es[n]);
    if Reached(es[..n]).neutralRequired {
      k := n;
    } else {
      k := EnabledByNeutralFrame(es[..n]);
      assert es[..n][..k] == es[..k] && es[..n][k] == es[k];
      forall m | k < m <= |es|
        ensures !Reached(es[..m]).neutralRequired
      {
        if m <= n {
          assert es[..n][..m] == es[..m];
        }
      }
    }
  }

  /**
   * A key reaches the host only after an accepted neutral frame with nothing that stops output in
   * between: no connect, disconnect, rejected frame, cancel, timeout, mount change or failed send.
   */
  lemma KeyNeedsNeutralFrame(es: seq<Event>, j: nat) returns (k: nat)
    requires j < |es| && exists r <- Wire(Reached(es[..j]), es[j]) :: HasKey(r)
    ensures k < j && NeutralFrame(Reached(es[..k]), es[k])
    ensures forall m :: k < m < j ==> !Stops(Reached(es[..m]), es[m])
  {
    hide Step, NeutralFrame, Safe, Stops, Wire;
    GateHoldsAlways(es[..j]);
    StepIsSafe(Reached(es[..j]), es[j]);
    k := EnabledByNeutralFrame(es[..j]);
    assert es[..j][..k] == es[..k] && es[..j][k] == es[k];
    forall m | k < m < j
      ensures !Stops(Reached(es[..m]), es[m])
    {
      GateHoldsAlways(es[..m]);
      StepIsSafe(Reached(es[..m]), es[m]);
      ReachedStep(es, m);
      assert es[..j][..m + 1] == es[..m + 1];
    }
  }

  /** The jog a direction byte stands for; Y and Z run opposite to the stick. */
  function DirectionMeaning(direction: bv8, continuous: bool): Meaning {
    if direction == 1 then Jog(X, Negative, continuous)
    else if direction == 2 then Jog(X, Positive, continuous)
    else if direction == 3 then Jog(Y, Negative, continuous)
    else if direction == 4 then Jog(Y, Positive, continuous)
    else if direction == 5 then Jog(Z, Negative, continuous)
    else if direction == 6 then Jog(Z, Positive, continuous)
    else Nothing
  }

  /**
   * The bytes of an accepted frame ask for exactly this jog: dead-man bit set, a direction given, the rapid bit
   * deciding the rate, no new cancel, while output was enabled.
   */
  predicate AsksFor(s: State, e: Event, report: KeyboardReport) {
    && e.Frame?
    && Accepts(s.session, e.data) && |e.data| == 10
    && e.data[5] & 0x01 != 0 && e.data[4] != 0 && !Cancels(s, e.data) && !s.neutralRequired
    && Read(report) == DirectionMeaning(e.data[4], e.data[5] & 0x02 != 0)
  }

  lemma NoDirectionNoMeaning()
    ensures forall continuous :: DirectionMeaning(0, continuous) == Nothing
  {
  }

  lemma JogIsItsDirection(direction: bv8, continuous: bool)
    requires AxisOf(direction).Some?
    ensures Jog(AxisOf(direction).value, WayOf(direction), continuous) == DirectionMeaning(direction, continuous)
    ensures direction != 0
  {
  }

  lemma OtherEventsOnlyRelease(s: State, e: Event)
    requires !e.Frame?
    ensures Step(s, e).output.desired == s.output.desired || !HasKey(Step(s, e).output.desired)
  {
    hide Next;
  }

  /**
   * The bytes of an accepted frame ask for exactly this step: a new event of 1 to 4, for 0.01, 0.10, 0.50 and
   * 1.00 mm, with the dead-man bit clear and no direction, after a frame without a selection.
   */
  predicate SelectsStep(s: State, e: Event, report: KeyboardReport) {
    && e.Frame?
    && Accepts(s.session, e.data) && |e.data| == 10
    && IsFresh(s.session, e.data)
    && e.data[5] & 0x01 == 0 && e.data[4] == 0 && !s.mapper.selectionWasPressed
    && (|| (e.data[7] == 1 && Read(report) == SelectStep(Mm001))
        || (e.data[7] == 2 && Read(report) == SelectStep(Mm010))
        || (e.data[7] == 3 && Read(report) == SelectStep(Mm050))
        || (e.data[7] == 4 && Read(report) == SelectStep(Mm100)))
  }

  lemma FrameKey(s: State, e: Event)
    requires e.Frame? && HasKey(Step(s, e).output.desired)
    ensures var report := Step(s, e).output.desired; AsksFor(s, e, report) || SelectsStep(s, e, report)
  {
    hide Accepts, OnFrame, Read, DirectionMeaning, AxisOf, WayOf, IsFresh;
    FrameIsExact(s, e.data, Clock(e.t));
    if |e.data| == 10 && AxisOf(e.data[4]).Some? {
      JogIsItsDirection(e.data[4], e.data[5] & 0x02 != 0);
    }
  }

  /**
   * In every reachable state a wanted key was asked for by the most recent frame, accepted and not cancelled:
   * a jog with the dead-man held, while output was enabled, for exactly that axis, direction and rate; a step
   * by a newly delivered event with the dead-man up and no direction.
   */
  lemma {:induction false} KeyComesFromLatestFrame(es: seq<Event>) returns (i: nat)
    requires HasKey(Reached(es).output.desired)
    ensures i < |es| && forall m :: i < m < |es| ==> !es[m].Frame?
    ensures var s, report := Reached(es[..i]), Reached(es).output.desired;
            AsksFor(s, es[i], report) || SelectsStep(s, es[i], report)
  {
    hide Step, AsksFor, SelectsStep;
    assert es != [] by {
      BootWantsNothing();
    }
    var n := |es| - 1;
    if es[n].Frame? {
      i := n;
      FrameKey(Reached(es[..n]), es[n]);
    } else {
      OtherEventsOnlyRelease(Reached(es[..n]), es[n]);
      i := KeyComesFromLatestFrame(es[..n]);
      assert es[..n][..i] == es[..i];
    }
  }

  lemma BootWantsNothing()
    ensures !HasKey(Reached([]).output.desired)
  {
  }

  /** In particular a wanted jog, which no step event can ask for. */
  lemma JogComesFromLatestFrame(es: seq<Event>) returns (i: nat)
    requires IsJog(Reached(es).output.desired)
    ensures i < |es| && AsksFor(Reached(es[..i]), es[i], Reached(es).output.desired)
    ensures forall m :: i < m < |es| ==> !es[m].Frame?
  {
    hide Reached, AsksFor;
    i := KeyComesFromLatestFrame(es);
  }

  /** The latest time of an accepted frame, of a USB pass and of a timeout pass; 0 before any. */
  ghost function LastAccepted(es: seq<Event>): nat {
    if es == [] then 0
    else
      var n := |es| - 1;
      if es[n].Frame? && Accepts(Reached(es[..n]).session, es[n].data) then es[n].t else LastAccepted(es[..n])
  }

  ghost function LastUsb(es: seq<Event>): nat {
    if es == [] then 0 else if es[|es| - 1].UsbPass? then es[|es| - 1].t else LastUsb(es[..|es| - 1])
  }

  ghost function LastTimeout(es: seq<Event>): nat {
    if es == [] then 0 else if es[|es| - 1].TimeoutPass? then es[|es| - 1].t else LastTimeout(es[..|es| - 1])
  }

  const HEALTHY := UsbEnv(true, true, true)

  /**
   * Time never runs backwards, every kind of pass comes round within `gap`, and the host is always ready and
   * accepting.
   */
  ghost predicate Steady(es: seq<Event>, gap: nat) {
    && gap <= 4000
    && (forall i, j :: 0 <= i <= j < |es| ==> es[i].t <= es[j].t)
    && (forall i :: 0 <= i < |es| ==> es[i].t <= LastUsb(es[..i]) + gap && es[i].t <= LastTimeout(es[..i]) + gap)
    && (forall i :: 0 <= i < |es| && es[i].UsbPass? ==> es[i].env == HEALTHY)
  }

  /** Besides, no frame is accepted at a moment when the 32-bit clock reads zero. */
  ghost predicate Paced(es: seq<Event>, gap: nat) {
    && Steady(es, gap)
    && (forall i :: 0 <= i < |es| && es[i].Frame? && Accepts(Reached(es[..i]).session, es[i].data) ==>
          Clock(es[i].t) != 0)
  }

  ghost predicate Timely(es: seq<Event>, gap: nat) {
    var s := Reached(es);
    && (HasKey(s.output.desired) ==>
          && s.lastValidMs == Clock(LastAccepted(es)) != 0
          && LastTimeout(es) <= LastAccepted(es) + 150)
    && (HasKey(s.output.sent) ==> LastUsb(es) <= LastAccepted(es) + 150 + gap)
    && (es != [] ==> LastAccepted(es) <= es[|es| - 1].t && LastTimeout(es) <= es[|es| - 1].t)
    && (es == [] ==> LastAccepted(es) == LastTimeout(es) == 0)
  }

  lemma UsbPassSettles(s: State, e: Event)
    requires e.UsbPass? && e.env == HEALTHY
    ensures var r := Step(s, e).output; HasKey(r.sent) ==> r.sent == s.output.desired
  {
  }

  lemma PacedPrefix(es: seq<Event>, gap: nat)
    requires Paced(es, gap) && es != []
    ensures Paced(es[..|es| - 1], gap)
  {
    hide Accepts, LastUsb, LastTimeout, Reached;
    var p := es[..|es| - 1];
    assert forall i :: 0 <= i < |p| ==> p[..i] == es[..i] && p[i] == es[i];
  }

  /** The timeout guard is exact unless the frame came at clock value 0, which it takes for "none". */
  lemma TimeoutIsExact(s: State, last: nat, now: nat)
    requires last <= now < last + 0x1_0000_0000
    requires s.lastValidMs == Clock(last) && HasKey(s.output.desired)
    ensures TimesOut(s, Clock(now)) <==> Clock(last) != 0 && now - last > 150
  {
    ElapsedAcrossWraps(last, now);
  }

  predicate AcceptedFrameAt(s: State, e: Event) {
    e.Frame? && Accepts(s.session, e.data)
  }

  lemma EventOnTimer(s: State, e: Event)
    ensures AcceptedFrameAt(s, e) ==> Step(s, e).lastValidMs == Clock(e.t)
    ensures !e.UsbPass? ==> Step(s, e).output.sent == s.output.sent
    ensures !AcceptedFrameAt(s, e) && HasKey(Step(s, e).output.desired) ==>
              && Step(s, e).output.desired == s.output.desired && Step(s, e).lastValidMs == s.lastValidMs
              && (e.TimeoutPass? ==> !TimesOut(s, Clock(e.t)))
  {
    hide Accepts, Consume, AfterFrame, Next, CncReport, ControlMapper.Output, TimesOut;
  }

  lemma {:induction false} TimelyAlways(es: seq<Event>, gap: nat)
    requires Paced(es, gap)
    ensures Timely(es, gap)
  {
    hide Accepts, Step, ServiceUsb, TimesOut;
    if es != [] {
      var n := |es| - 1;
      PacedPrefix(es, gap);
      TimelyAlways(es[..n], gap);
      var s, e := Reached(es[..n]), es[n];
      assert n > 0 ==> es[n - 1].t <= e.t;
      EventOnTimer(s, e);
      if e.UsbPass? {
        UsbPassSettles(s, e);
      } else if e.TimeoutPass? && HasKey(s.output.desired) {
        TimeoutIsExact(s, LastAccepted(es[..n]), e.t);
      }
    }
  }

  /**
   * The host never holds a key longer than 150 ms plus two pass intervals after the last accepted frame,
   * however often the 32-bit clock wraps.
   */
  lemma KeyIsNeverHeldLong(es: seq<Event>, gap: nat, now: nat)
    requires Paced(es, gap) && HasKey(Reached(es).output.sent)
    requires now <= LastUsb(es) + gap
    ensures now <= LastAccepted(es) + 150 + 2 * gap
  {
    TimelyAlways(es, gap);
  }

  /** A run as the endpoint sees it: the report wanted at each pass, and what the host answered. */
  ghost function PassesOf(es: seq<Event>): seq<Pass> {
    if es == [] then []
    else
      var n := |es| - 1;
      PassesOf(es[..n]) + if es[n].UsbPass? then [Pass(Reached(es[..n]).output.desired, es[n].env)] else []
  }

  lemma OnlyUsbPassSends(s: State, e: Event)
    requires !e.UsbPass?
    ensures var o := Step(s, e).output; o.sent == s.output.sent && o.wasMounted == s.output.wasMounted
  {
    hide Next, CncReport, ControlMapper.Output, Accepts, Consume, AfterFrame, Elapsed;
  }

  lemma PassIsServed(s: State, e: Event, o: UsbOutput.Output)
    requires e.UsbPass? && o.sent == s.output.sent && o.wasMounted == s.output.wasMounted
    ensures var r := PassResult(o, Pass(s.output.desired, e.env));
            && r.output.sent == Step(s, e).output.sent && r.output.wasMounted == Step(s, e).output.wasMounted
            && r.wire == Wire(s, e)
  {
    hide ServiceUsb;
    assert o.(desired := s.output.desired) == s.output;
  }

  /** The endpoint's memory is that of its passes, and each pass sends what the receiver sends. */
  lemma {:induction false} EndpointSeesPasses(es: seq<Event>)
    ensures var o, r := Reached(es).output, RunPasses(INITIAL_OUTPUT, PassesOf(es));
            o.sent == r.sent && o.wasMounted == r.wasMounted
    ensures es != [] && es[|es| - 1].UsbPass? ==>
              var n, all := |es| - 1, PassesOf(es);
              && all == PassesOf(es[..n]) + [all[|all| - 1]]
              && Wire(Reached(es[..n]), es[n])
                 == PassResult(RunPasses(INITIAL_OUTPUT, PassesOf(es[..n])), all[|all| - 1]).wire
  {
    hide Step, ServiceUsb, Wire, PassResult;
    if es != [] {
      var n := |es| - 1;
      var s, e, before := Reached(es[..n]), es[n], PassesOf(es[..n]);
      EndpointSeesPasses(es[..n]);
      if e.UsbPass? {
        var pass := Pass(s.output.desired, e.env);
        PassIsServed(s, e, RunPasses(INITIAL_OUTPUT, before));
        assert (before + [pass])[..|before|] == before;
      } else {
        OnlyUsbPassSends(s, e);
        assert PassesOf(es) == before;
      }
    }
  }

  /** Between mount changes the host sees a key, then all keys up, in strict turn, and `sent` is its last report. */
  lemma WireAlternatesAlways(es: seq<Event>)
    ensures var wire := WireSinceMount(INITIAL_OUTPUT, PassesOf(es));
            Alternates(wire) && Reached(es).output.sent == LastSent(wire)
  {
    hide Alternates, ServiceUsb;
    EndpointSeesPasses(es);
    WireAlternates(PassesOf(es));
  }
}
