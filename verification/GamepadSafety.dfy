/** What the gamepad receiver never does, over every run of events from any boot. */
module GamepadSafety {
  import opened Types
  import opened MassoKeyboard
  import opened ProductionConfig
  import opened ControlMapper
  import opened UsbOutput
  import opened RecordCodec
  import opened PersistentConfig
  import opened GamepadReceiver
  import AtomicRegister
  import opened ReportMeaning
  import Lite2Report

  ghost function Reached(start: State, es: seq<Event>): State {
    if es == [] then start else Step(Reached(start, es[..|es| - 1]), es[|es| - 1])
  }

  lemma ReachedStep(start: State, es: seq<Event>, n: nat)
    requires n < |es|
    ensures Reached(start, es[..n + 1]) == Step(Reached(start, es[..n]), es[n])
  {
    hide Step;
    assert es[..n + 1][..n] == es[..n];
  }

  lemma {:induction false} ReachedInParts(start: State, first: seq<Event>, second: seq<Event>)
    ensures Reached(start, first + second) == Reached(Reached(start, first), second)
  {
    hide Step;
    if second == [] {
      assert first + second == first;
    } else {
      var n := |second| - 1;
      assert (first + second)[..|first| + n] == first + second[..n];
      ReachedInParts(start, first, second[..n]);
    }
  }

  lemma PrefixOfPrefix(es: seq<Event>, n: nat, m: nat)
    requires m <= n <= |es|
    ensures es[..n][..m] == es[..m]
    ensures m < n ==> es[..n][m] == es[m]
  {
  }

  /** What holds even between two commands of one setup pass. */
  predicate Core(s: State) {
    var p := s.pairing;
    && (s.arming.rearm ==> !HasKey(s.output.desired))
    && (p.chordConfirmed ==> p.selected && !HasKey(s.output.desired))
    && (p.chordStarted != 0 ==> p.selected)
    && (p.selected ==> p.active.text.Some? && p.candidate == p.active.text && !p.scanActive && !p.scanRequested)
    && (!p.selected ==> p.active.text == HomeAddress(s.store.address, s.fallback))
    && p.active == Aim(p.active, p.active.text)
    && Exclusive(s.mapper)
  }

  /** What holds between events: a closed setup port means no pairing activity, an open one no motion. */
  predicate Safe(s: State) {
    && Core(s)
    && (s.pairing.selected || s.pairing.scanActive || s.pairing.scanRequested ==> s.setup.active)
    && (s.setup.active ==> s.arming.rearm)
    && s.setup.wasActive == s.setup.active
  }

  /** The link is up with a supported descriptor, and the report parses. */
  predicate Readable(s: State, e: Event) {
    && e.Report? && s.link.descriptorReady && s.link.profileActive
    && Lite2Report.Parse(e.report, Clock(e.t)).Some?
  }

  function RawOf(s: State, e: Event): GamepadState
    requires Readable(s, e)
  {
    Lite2Report.Parse(e.report, Clock(e.t)).value
  }

  /** A valid report, consumed outside setup and pairing, with the dead-man up and every stick at rest. */
  predicate Arms(s: State, e: Event) {
    Readable(s, e) && !s.setup.active && !s.pairing.selected && IsNeutral(RawOf(s, e), s.mapping)
  }

  /** The neutral test of the code is the documented one. */
  lemma SafeToArmIsNeutral(raw: GamepadState, m: ProductionMapping)
    ensures SafeToArm(Mapped(raw, m)) <==> IsNeutral(raw, m)
  {
    hide Mapped, IsValid, Down;
    MappedKeepsTheRest(raw, m);
    if IsValid(m) {
      MotionIsDocumented(raw, m);
    } else {
      InvalidIsCancelled(raw, m);
    }
  }

  /**
   * A report demands re-arming if it is unreadable, and ends the demand exactly when it is readable, consumed
   * outside setup and pairing, and neutral.
   */
  lemma ArmingIsExact(s: State, e: Event)
    requires e.Report?
    ensures Step(s, e).arming.rearm <==> !Readable(s, e) || (s.arming.rearm && !Arms(s, e))
    ensures Step(s, e).arming.lastValidMs
            == if !Readable(s, e) then 0
               else if s.setup.active || s.pairing.selected then s.arming.lastValidMs
               else Clock(e.t)
  {
    hide Lite2Report.Parse, Mapped, Next, ControlMapper.Output, CncReport, SafeToArm, IsNeutral, HoldsChord, Elapsed;
    if Readable(s, e) {
      SafeToArmIsNeutral(RawOf(s, e), s.mapping);
    }
  }

  /** The endpoint as it stands after the stale check of an output pass. */
  function Fresh(s: State, e: Event): UsbOutput.Output
    requires e.OutputPass?
  {
    ServiceStale(s, Clock(e.t)).output
  }

  /** The events after which motion must not resume by itself. */
  predicate Faults(s: State, e: Event) {
    match e
    case Report(_, report, t) => ReadReport(s, report, Clock(t)).None?
    case IncomingConnection(peer, sound, answered, _) => sound && Admits(s, peer) && !answered
    case ConnectTimer(_, _) => false
    case ConnectionOpened(_, _, _) => true
    case ConnectionLost(_, _) => true
    case DescriptorAvailable(supported, _) => !supported
    case SetupPass(open, _, _) => open
    case OutputPass(env, t) =>
      || Stale(s, Clock(t))
      || MountChanges(Fresh(s, e), env)
      || (env.mounted && env.ready && !env.accepts && Offer(Fresh(s, e)).Some?)
    case InquiryResult(_, _) => false
    case InquiryComplete(_) => false
    case ScanTimer(_, _) => false
    case ConfirmationRequest(_, _, _) => false
  }

  lemma StoreKeepsAddress(p: Persist, m: ProductionMapping, env: StoreEnv)
    ensures Store(p, m, env).state.address == p.address
  {
    hide EncodeBytes, DecodeBytes, Validate;
  }

  lemma StoreAddressCommits(p: Persist, m: ProductionMapping, a: Address, env: StoreEnv)
    ensures var r := StoreAddress(p, m, a, env);
            r.state.address == (if r.ok then Some(a) else p.address)
  {
    hide Store;
    StoreKeepsAddress(p.(address := Some(a)), m, env);
  }

  lemma CancelIsClean(s: State)
    requires Core(s)
    ensures Core(CancelPairing(s))
    ensures var p := CancelPairing(s).pairing; !p.selected && !p.scanActive && !p.scanRequested
  {
  }

  lemma ExecuteKeepsCore(s: State, request: Request, now: uint32)
    requires Core(s)
    ensures Core(Execute(s, request, now))
  {
    hide Store, StoreAddress, Exclusive;
    match request
    case SetConfig(m, env) => StoreKeepsAddress(s.store, m, env);
    case StartScanning => CancelIsClean(s);
    case PairCandidate(address) =>
    case Confirm(env) =>
      if MayCommit(s) {
        StoreAddressCommits(s.store, s.mapping, s.pairing.active.text.value, env);
      }
    case Cancel => CancelIsClean(s);
  }

  lemma {:induction false} CommandsKeepCore(s: State, requests: seq<Request>, now: uint32)
    requires Core(s)
    ensures Core(ExecuteAll(s, requests, now))
  {
    hide Core, Execute;
    if requests != [] {
      CommandsKeepCore(s, requests[..|requests| - 1], now);
      ExecuteKeepsCore(ExecuteAll(s, requests[..|requests| - 1], now), requests[|requests| - 1], now);
    }
  }

  lemma SetupPassIsSafe(s: State, open: bool, requests: seq<Request>, now: uint32)
    requires Safe(s)
    ensures Safe(OnSetup(s, open, requests, now))
    ensures open ==> OnSetup(s, open, requests, now).arming.rearm
    ensures !open ==> OnSetup(s, open, requests, now).arming == s.arming
  {
    hide Execute, ExecuteAll, CancelPairing, Exclusive;
    if open {
      CommandsKeepCore(WithSetup(s, true), requests, now);
      SessionStaysOpen(WithSetup(s, true), requests, now);
    } else {
      CancelIsClean(WithSetup(s, false));
      CancelKeepsArming(WithSetup(s, false));
    }
  }

  lemma CancelKeepsArming(s: State)
    ensures var c := CancelPairing(s);
            c.arming == s.arming && c.setup == s.setup && c.output == s.output && c.store == s.store
            && c.mapping == s.mapping
  {
  }

  lemma ReportIsSafe(s: State, e: Event)
    requires Safe(s) && e.Report?
    ensures Safe(Step(s, e))
    ensures Faults(s, e) ==> Step(s, e).arming.rearm
    ensures !Step(s, e).arming.rearm ==> !s.arming.rearm || Arms(s, e)
  {
    ArmingIsExact(s, e);
    hide ReadReport, Next, CncReport, ControlMapper.Output, SafeToArm, HoldsChord, Elapsed;
    NextIsExclusive(s.mapper, IdleState(Clock(e.t)), Clock(e.t));
    var g := ReadReport(s, e.report, Clock(e.t));
    if g.Some? {
      NextIsExclusive(s.mapper, g.value, Clock(e.t));
      NextIsExclusive(ResetMapper(s.mapper, Clock(e.t)), g.value, Clock(e.t));
    }
  }

  lemma NextIsExclusive(m: MapperState, g: GamepadState, now: uint32)
    ensures Exclusive(Next(DEFAULT_CONFIG, m, g, now))
  {
  }

  lemma OutputIsSafe(s: State, e: Event)
    requires Safe(s) && e.OutputPass?
    ensures Safe(Step(s, e))
    ensures Faults(s, e) ==> Step(s, e).arming.rearm
    ensures !Step(s, e).arming.rearm ==> !s.arming.rearm
    ensures s.arming.rearm ==> forall r <- Wire(s, e) :: !HasKey(r)
  {
    hide Exclusive, Elapsed;
  }

  lemma StepIsSafe(s: State, e: Event)
    requires Safe(s)
    ensures Safe(Step(s, e))
    ensures Faults(s, e) ==> Step(s, e).arming.rearm
    ensures !Step(s, e).arming.rearm ==> !s.arming.rearm || Arms(s, e)
    ensures s.arming.rearm ==> forall r <- Wire(s, e) :: !HasKey(r)
  {
    if e.Report? {
      ReportIsSafe(s, e);
    } else if e.OutputPass? {
      OutputIsSafe(s, e);
    } else if e.SetupPass? {
      hide OnSetup, Safe;
      SetupPassIsSafe(s, e.open, e.requests, Clock(e.t));
    } else {
      hide Exclusive, Elapsed, CancelPairing;
      CancelIsClean(FailClosed(s));
      CancelKeepsArming(FailClosed(s));
    }
  }

  lemma BootIsSafe(f: Flash, fallback: Option<Address>, bonds: set<Address>)
    ensures Safe(Boot(f, fallback, bonds))
  {
    hide Load;
  }

  /**
   * In every reachable state, including during scan, selection, confirmation and cancellation: a demanded
   * re-arm means no key is wanted, an open setup port means no motion, a closed one means no candidate.
   */
  lemma {:induction false} SafeAlways(start: State, es: seq<Event>)
    requires Safe(start)
    ensures Safe(Reached(start, es))
  {
    hide Step, Safe, Faults, Arms, Wire;
    if es != [] {
      SafeAlways(start, es[..|es| - 1]);
      StepIsSafe(Reached(start, es[..|es| - 1]), es[|es| - 1]);
    }
  }

  /** Whenever output is enabled, an arming report enabled it and nothing has disarmed it since. */
  lemma {:induction false} EnabledByArmingReport(start: State, es: seq<Event>) returns (k: nat)
    requires Safe(start) && start.arming.rearm
    requires !Reached(start, es).arming.rearm
    ensures k < |es| && Arms(Reached(start, es[..k]), es[k])
    ensures forall m :: k < m <= |es| ==> !Reached(start, es[..m]).arming.rearm
  {
    hide Step, Arms, Safe, Faults, Wire;
    assert es != [];
    var n := |es| - 1;
    assert es[..n + 1] == es;
    SafeAlways(start, es[..n]);
    StepIsSafe(Reached(start, es[..n]), es[n]);
    if Reached(start, es[..n]).arming.rearm {
      k := n;
    } else {
      k := EnabledByArmingReport(start, es[..n]);
      PrefixOfPrefix(es, n, k);
      forall m | k < m <= |es|
        ensures !Reached(start, es[..m]).arming.rearm
      {
        if m <= n {
          PrefixOfPrefix(es, n, m);
        }
      }
    }
  }

  /**
   * A key reaches the host only after a valid, neutral report consumed outside setup and pairing, with no
   * fault in between: no disconnect, malformed report, stale timeout, mount change, refused send or setup.
   */
  lemma KeyNeedsArmingReport(start: State, es: seq<Event>, j: nat) returns (k: nat)
    requires Safe(start) && start.arming.rearm
    requires j < |es| && exists r <- Wire(Reached(start, es[..j]), es[j]) :: HasKey(r)
    ensures k < j && Arms(Reached(start, es[..k]), es[k])
    ensures forall m :: k < m < j ==> !Faults(Reached(start, es[..m]), es[m])
  {
    hide Step, Arms, Safe, Faults, Wire;
    SafeAlways(start, es[..j]);
    StepIsSafe(Reached(start, es[..j]), es[j]);
    k := EnabledByArmingReport(start, es[..j]);
    PrefixOfPrefix(es, j, k);
    forall m | k < m < j
      ensures !Faults(Reached(start, es[..m]), es[m])
    {
      SafeAlways(start, es[..m]);
      StepIsSafe(Reached(start, es[..m]), es[m]);
      ReachedStep(start, es, m);
      PrefixOfPrefix(es, j, m + 1);
    }
  }

  /** Keys may be published: nothing demands re-arming, and neither setup nor pairing is on. */
  predicate Enabled(s: State) {
    !s.arming.rearm && !s.setup.active && !s.pairing.selected
  }

  /** This report, consumed while keys may be published, asked for this key. */
  predicate Published(s: State, e: Event, report: KeyboardReport) {
    && Readable(s, e) && Enabled(s) && IsValid(s.mapping)
    && Read(report) == Asked(RawOf(s, e), s.mapping, s.mapper) != Nothing
  }

  lemma ParsedIsFresh(s: State, e: Event)
    requires Readable(s, e)
    ensures RawOf(s, e).connected && RawOf(s, e).sampleMs == Clock(e.t)
  {
    Lite2Report.ParseIsDocumented(e.report, Clock(e.t));
  }

  /**
   * After any report the wanted key is exactly what its raw buttons and sticks ask for, while keys may be
   * published under a valid mapping, and none otherwise.
   */
  lemma ReportIsExact(s: State, e: Event)
    requires e.Report?
    ensures Read(Step(s, e).output.desired)
            == if Readable(s, e) && Enabled(s) && IsValid(s.mapping) then Asked(RawOf(s, e), s.mapping, s.mapper)
               else Nothing
    ensures HasKey(Step(s, e).output.desired) <==> Read(Step(s, e).output.desired) != Nothing
  {
    hide Lite2Report.Parse, Mapped, Next, ControlMapper.Output, CncReport, SafeToArm, Asked, IsValid, HoldsChord, Elapsed, Read;
    ReleasedReadsNothing();
    if Readable(s, e) {
      var raw, now := RawOf(s, e), Clock(e.t);
      ParsedIsFresh(s, e);
      ReportReadsBack(s.mapping.cncProfile, ControlMapper.Output(DEFAULT_CONFIG, s.mapper, Mapped(raw, s.mapping), now));
      if IsValid(s.mapping) {
        AskedIsSent(raw, s.mapping, s.mapper, now);
      } else {
        InvalidSendsNothing(raw, s.mapping, s.mapper, now);
      }
    }
  }

  lemma ReleasedReadsNothing()
    ensures Read(RELEASED) == Nothing
  {
  }

  /** The mapper a report starts from: while re-arming it forgets everything but its place in the cycle. */
  function StartsFrom(s: State): MapperState {
    if s.arming.rearm then MapperState(None, false, false, false, s.mapper.nextResolution) else s.mapper
  }

  /** What a report leaves in the mapper: the moving axis, the demand for centre, the held buttons, the cycle. */
  lemma ReportLeavesMapper(s: State, e: Event)
    requires e.Report?
    ensures !Readable(s, e) ==>
              Step(s, e).mapper == MapperState(None, false, false, false, s.mapper.nextResolution)
    ensures Readable(s, e) && (s.setup.active || s.pairing.selected) ==> Step(s, e).mapper == s.mapper
    ensures Readable(s, e) && !s.setup.active && !s.pairing.selected && !IsValid(s.mapping) ==>
              Step(s, e).mapper == MapperState(None, true, false, false, s.mapper.nextResolution)
    ensures Readable(s, e) && !s.setup.active && !s.pairing.selected && IsValid(s.mapping) ==>
              var raw, m, from, after := RawOf(s, e), s.mapping, StartsFrom(s), Step(s, e).mapper;
              var asked := Asked(raw, m, from);
              && after.lockedAxis == (if asked.Jog? then Some(asked.axis) else None)
              && (after.awaitingCenter <==>
                    || Presses(raw, m, 1)
                    || (Down(raw.buttons, m.deadmanMask) && from.awaitingCenter && !AtRest(raw, 9000))
                    || (Down(raw.buttons, m.deadmanMask) && !from.awaitingCenter && from.lockedAxis.Some? && !asked.Jog?))
              && (after.resolutionWasPressed <==> Presses(raw, m, 2))
              && (after.selectionWasPressed <==> PressedSize(raw, m).Some?)
              && (after.nextResolution
                  == if asked.SelectStep? && !(PressedSize(raw, m).Some? && !from.selectionWasPressed) then
                       (match from.nextResolution
                        case Mm001 => Mm010 case Mm010 => Mm050 case Mm050 => Mm100 case Mm100 => Mm001)
                     else from.nextResolution)
  {
    hide Lite2Report.Parse, Mapped, Next, ControlMapper.Output, CncReport, SafeToArm, Asked, IsValid, HoldsChord,
      Elapsed, Presses, Down, AtRest, PressedSize, ResetMapper;
    ResetForgets(s.mapper, Clock(e.t));
    if Readable(s, e) && IsValid(s.mapping) {
      ParsedIsFresh(s, e);
      AskedIsRemembered(RawOf(s, e), s.mapping, StartsFrom(s), Clock(e.t));
    } else if Readable(s, e) {
      ParsedIsFresh(s, e);
      InvalidIsRemembered(RawOf(s, e), s.mapping, StartsFrom(s), Clock(e.t));
    }
  }

  /** Beyond that a report touches only the wanted key, and the chord of a candidate tried in an open session. */
  lemma ReportTouchesNothingElse(s: State, e: Event)
    requires e.Report?
    ensures var x := Step(s, e);
            && x == s.(arming := x.arming, mapper := x.mapper, output := s.output.(desired := x.output.desired),
                       pairing := s.pairing.(chordStarted := x.pairing.chordStarted,
                                             chordConfirmed := x.pairing.chordConfirmed))
            && (!Readable(s, e) || !s.pairing.selected || !s.setup.active ==> x.pairing == s.pairing)
  {
    hide Lite2Report.Parse, Mapped, Next, ControlMapper.Output, CncReport, SafeToArm, HoldsChord, Elapsed, ResetMapper;
  }

  /** An output pass: 150 ms without a report release the key and disarm, then the endpoint is served. */
  lemma OutputPassInFull(s: State, e: Event)
    requires e.OutputPass?
    ensures var since := s.arming.lastValidMs;
            var silent := s.output.desired != RELEASED && since != 0 && (Clock(e.t) - since) % 0x1_0000_0000 > 150;
            var r := ServiceUsb(if silent then s.output.(desired := RELEASED) else s.output, e.env);
            Step(s, e) == s.(output := r.output,
                             arming := if silent then Arming(true, 0)
                                       else s.arming.(rearm := s.arming.rearm || r.locked))
  {
    hide ServiceUsb;
  }

  lemma ResetForgets(m: MapperState, now: uint32)
    ensures ResetMapper(m, now) == MapperState(None, false, false, false, m.nextResolution)
  {
  }

  /** An invalid mapping can never put a key on the wire, whatever the controller sends. */
  lemma InvalidMappingYieldsNoKey(s: State, e: Event)
    requires e.Report? && !IsValid(s.mapping)
    ensures !HasKey(Step(s, e).output.desired)
  {
    hide Lite2Report.Parse, Mapped, Next, ControlMapper.Output, CncReport, SafeToArm, IsValid, HoldsChord, Elapsed, Read;
    if Readable(s, e) {
      var raw, now := RawOf(s, e), Clock(e.t);
      InvalidSendsNothing(raw, s.mapping, s.mapper, now);
      ReportReadsBack(s.mapping.cncProfile, ControlMapper.Output(DEFAULT_CONFIG, s.mapper, Mapped(raw, s.mapping), now));
    }
  }

  lemma {:induction false} CommandsOnlyRelease(s: State, requests: seq<Request>, now: uint32)
    ensures var o := ExecuteAll(s, requests, now).output;
            o.desired == s.output.desired || !HasKey(o.desired)
  {
    hide Store, StoreAddress;
    if requests != [] {
      CommandsOnlyRelease(s, requests[..|requests| - 1], now);
    }
  }

  lemma OtherEventsOnlyRelease(s: State, e: Event)
    requires !e.Report?
    ensures Step(s, e).output.desired == s.output.desired || !HasKey(Step(s, e).output.desired)
  {
    hide ExecuteAll, Elapsed;
    if e.SetupPass? {
      CommandsOnlyRelease(WithSetup(s, true), e.requests, Clock(e.t));
    }
  }

  /**
   * In every reachable state a wanted key is what the most recent report of all asked for, while keys could be
   * published: a jog with the mapped dead-man held, cancel up, its own stick deflected that way and, with no
   * axis locked before, the one the sticks choose; a step of the size its freshly pressed button stands for,
   * with the dead-man up and every stick at rest.
   */
  lemma {:induction false} KeyComesFromLatestReport(start: State, es: seq<Event>) returns (i: nat)
    requires !HasKey(start.output.desired)
    requires HasKey(Reached(start, es).output.desired)
    ensures i < |es| && Published(Reached(start, es[..i]), es[i], Reached(start, es).output.desired)
    ensures forall m :: i < m < |es| ==> !es[m].Report?
  {
    hide Step, Published;
    assert es != [];
    var n := |es| - 1;
    if es[n].Report? {
      i := n;
      ReportIsPublished(Reached(start, es[..n]), es[n]);
    } else {
      OtherEventsOnlyRelease(Reached(start, es[..n]), es[n]);
      i := KeyComesFromLatestReport(start, es[..n]);
      PrefixOfPrefix(es, n, i);
    }
  }

  lemma ReportIsPublished(s: State, e: Event)
    requires e.Report? && HasKey(Step(s, e).output.desired)
    ensures Published(s, e, Step(s, e).output.desired)
  {
    hide Step, Asked, Read, IsValid, Lite2Report.Parse;
    ReportIsExact(s, e);
  }

  /** A run as the endpoint sees it: the report wanted at each output pass, and what the host answered. */
  ghost function PassesOf(start: State, es: seq<Event>): seq<Pass> {
    if es == [] then []
    else
      var n := |es| - 1;
      PassesOf(start, es[..n])
      + if es[n].OutputPass? then [Pass(Fresh(Reached(start, es[..n]), es[n]).desired, es[n].env)] else []
  }

  lemma OnlyOutputPassSends(s: State, e: Event)
    requires !e.OutputPass?
    ensures var o := Step(s, e).output; o.sent == s.output.sent && o.wasMounted == s.output.wasMounted
  {
    hide ExecuteAll, Elapsed;
    if e.SetupPass? {
      CommandsSendNothing(WithSetup(s, true), e.requests, Clock(e.t));
    }
  }

  lemma {:induction false} CommandsSendNothing(s: State, requests: seq<Request>, now: uint32)
    ensures var o := ExecuteAll(s, requests, now).output;
            o.sent == s.output.sent && o.wasMounted == s.output.wasMounted
  {
    hide Store, StoreAddress;
    if requests != [] {
      CommandsSendNothing(s, requests[..|requests| - 1], now);
    }
  }

  lemma PassIsServed(s: State, e: Event, o: UsbOutput.Output)
    requires e.OutputPass? && o.sent == s.output.sent && o.wasMounted == s.output.wasMounted
    ensures var r := PassResult(o, Pass(Fresh(s, e).desired, e.env));
            && r.output.sent == Step(s, e).output.sent && r.output.wasMounted == Step(s, e).output.wasMounted
            && r.wire == Wire(s, e)
  {
    hide ServiceUsb, ServiceStale;
    StaleCheckSendsNothing(s, Clock(e.t));
    assert o.(desired := Fresh(s, e).desired) == Fresh(s, e);
  }

  /** The endpoint's memory is that of its passes, and each pass sends what the receiver sends. */
  lemma {:induction false} EndpointSeesPasses(start: State, es: seq<Event>)
    requires start.output == INITIAL_OUTPUT
    ensures var o, r := Reached(start, es).output, RunPasses(INITIAL_OUTPUT, PassesOf(start, es));
            o.sent == r.sent && o.wasMounted == r.wasMounted
    ensures es != [] && es[|es| - 1].OutputPass? ==>
              var n, all := |es| - 1, PassesOf(start, es);
              && all == PassesOf(start, es[..n]) + [all[|all| - 1]]
              && Wire(Reached(start, es[..n]), es[n])
                 == PassResult(RunPasses(INITIAL_OUTPUT, PassesOf(start, es[..n])), all[|all| - 1]).wire
  {
    hide Step, ServiceUsb, ServiceStale, Wire, PassResult, Fresh;
    if es != [] {
      var n := |es| - 1;
      var s, e, before := Reached(start, es[..n]), es[n], PassesOf(start, es[..n]);
      EndpointSeesPasses(start, es[..n]);
      if e.OutputPass? {
        var pass := Pass(Fresh(s, e).desired, e.env);
        PassIsServed(s, e, RunPasses(INITIAL_OUTPUT, before));
        assert (before + [pass])[..|before|] == before;
      } else {
        OnlyOutputPassSends(s, e);
        assert PassesOf(start, es) == before;
      }
    }
  }

  /** Between mount changes the host sees a key, then all keys up, in strict turn, and `sent` is its last report. */
  lemma WireAlternatesAlways(start: State, es: seq<Event>)
    requires start.output == INITIAL_OUTPUT
    ensures var wire := WireSinceMount(INITIAL_OUTPUT, PassesOf(start, es));
            Alternates(wire) && Reached(start, es).output.sent == LastSent(wire)
  {
    hide Alternates, ServiceUsb;
    EndpointSeesPasses(start, es);
    WireAlternates(PassesOf(start, es));
  }

  lemma StaleCheckSendsNothing(s: State, now: uint32)
    ensures ServiceStale(s, now).output.sent == s.output.sent
    ensures ServiceStale(s, now).output.wasMounted == s.output.wasMounted
  {
  }

  /** The flash side of a receiver. */
  function DeviceOf(s: State): AtomicRegister.Device {
    AtomicRegister.Device(s.store, s.mapping)
  }

  /** The flash driver is honest about every store this command makes. */
  predicate HonestRequest(s: State, request: Request) {
    match request
    case SetConfig(m, env) => AtomicRegister.Honest(DeviceOf(s), AtomicRegister.Save(m, env))
    case Confirm(env) =>
      s.pairing.active.text.Some? ==>
        AtomicRegister.Honest(DeviceOf(s), AtomicRegister.Pair(s.pairing.active.text.value, env))
    case StartScanning => true
    case PairCandidate(_) => true
    case Cancel => true
  }

  predicate HonestRequests(s: State, requests: seq<Request>, now: uint32) {
    requests == [] ||
    (HonestRequests(s, requests[..|requests| - 1], now)
     && HonestRequest(ExecuteAll(s, requests[..|requests| - 1], now), requests[|requests| - 1]))
  }

  predicate HonestEvent(s: State, e: Event) {
    e.SetupPass? && e.open ==> HonestRequests(WithSetup(s, true), e.requests, Clock(e.t))
  }

  ghost predicate HonestEvents(start: State, es: seq<Event>) {
    forall i :: 0 <= i < |es| ==> HonestEvent(Reached(start, es[..i]), es[i])
  }

  lemma RequestKeepsSync(s: State, request: Request, now: uint32)
    requires AtomicRegister.InSync(DeviceOf(s)) && HonestRequest(s, request)
    ensures AtomicRegister.InSync(DeviceOf(Execute(s, request, now)))
  {
    hide Store, StoreAddress, AtomicRegister.InSync, AtomicRegister.Honest;
    match request
    case SetConfig(m, env) => AtomicRegister.OneOperation(DeviceOf(s), AtomicRegister.Save(m, env));
    case Confirm(env) =>
      if MayCommit(s) {
        AtomicRegister.OneOperation(DeviceOf(s), AtomicRegister.Pair(s.pairing.active.text.value, env));
      }
    case StartScanning => CancelKeepsArming(s);
    case PairCandidate(_) =>
    case Cancel => CancelKeepsArming(s);
  }

  lemma {:induction false} RequestsKeepSync(s: State, requests: seq<Request>, now: uint32)
    requires AtomicRegister.InSync(DeviceOf(s)) && HonestRequests(s, requests, now)
    ensures AtomicRegister.InSync(DeviceOf(ExecuteAll(s, requests, now)))
  {
    hide Execute, HonestRequest, AtomicRegister.InSync;
    if requests != [] {
      RequestsKeepSync(s, requests[..|requests| - 1], now);
      RequestKeepsSync(ExecuteAll(s, requests[..|requests| - 1], now), requests[|requests| - 1], now);
    }
  }

  lemma EventKeepsStore(s: State, e: Event)
    requires !(e.SetupPass? && e.open)
    ensures DeviceOf(Step(s, e)) == DeviceOf(s)
  {
    hide ReadReport, Elapsed, Next, ControlMapper.Output, CncReport, ServiceUsb;
  }

  lemma SetupKeepsCommands(s: State, requests: seq<Request>, now: uint32)
    ensures DeviceOf(OnSetup(s, true, requests, now)) == DeviceOf(ExecuteAll(WithSetup(s, true), requests, now))
  {
    hide ExecuteAll;
  }

  /**
   * Through every successful or failed save and pairing of a whole boot, the mapping, address, sequence
   * and active slot in memory are exactly what the next boot would load.
   */
  lemma {:induction false} MemoryMatchesFlashAlways(
    f: Flash, fallback: Option<Address>, bonds: set<Address>, es: seq<Event>)
    requires HonestEvents(Boot(f, fallback, bonds), es)
    ensures AtomicRegister.InSync(DeviceOf(Reached(Boot(f, fallback, bonds), es)))
  {
    hide Step, HonestEvent, Load;
    var start := Boot(f, fallback, bonds);
    if es != [] {
      var n := |es| - 1;
      assert forall i :: 0 <= i <= n ==> es[..n][..i] == es[..i];
      assert forall i :: 0 <= i < n ==> es[..n][i] == es[i];
      MemoryMatchesFlashAlways(f, fallback, bonds, es[..n]);
      SyncStep(Reached(start, es[..n]), es[n]);
    }
  }

  lemma SyncStep(s: State, e: Event)
    requires AtomicRegister.InSync(DeviceOf(s)) && HonestEvent(s, e)
    ensures AtomicRegister.InSync(DeviceOf(Step(s, e)))
  {
    hide ExecuteAll, AtomicRegister.InSync, OnSetup;
    if e.SetupPass? && e.open {
      RequestsKeepSync(WithSetup(s, true), e.requests, Clock(e.t));
      SetupKeepsCommands(s, e.requests, Clock(e.t));
    } else {
      EventKeepsStore(s, e);
    }
  }
}
