/** What a rejected candidate leaves behind, in runs the main loop can make. */
module RejectedCandidate {
  import opened Types
  import opened MassoKeyboard
  import opened RecordCodec
  import opened PersistentConfig
  import opened GamepadReceiver
  import opened GamepadSafety
  import opened GamepadTiming
  import opened MainLoop
  import opened GamepadPeers
  import opened SampleReports
  import ControlMapper
  import ProductionConfig

  lemma OneRequest(s: State, request: Request, now: uint32)
    ensures ExecuteAll(s, [request], now) == Execute(s, request, now)
  {
    hide Execute;
    assert [request][..0] == [];
  }

  predicate SameDevice(s: State, s': State) {
    s'.store == s.store && s'.fallback == s.fallback && s'.mapping == s.mapping
  }

  /** Disarmed, with the keyboard mounted and no key wanted. */
  predicate Calm(s: State) {
    s.arming.rearm && !HasKey(s.output.desired) && s.output.wasMounted
  }

  predicate AppOpen(s: State) {
    s.setup == Setup(true, true) && Calm(s)
  }

  predicate IsTrying(s: State, peer: Address) {
    AppOpen(s) && s.pairing.selected && s.pairing.active == Target(peer, true, Some(peer))
  }

  predicate IsRolledBack(s: State) {
    && !s.pairing.selected && !s.pairing.scanActive && !s.pairing.scanRequested
    && s.setup == Setup(false, false) && Calm(s)
  }

  /** An iteration with the app open: the commands, and a calm endpoint. */
  lemma OpenIteration(s: State, requests: seq<Request>, t: nat)
    ensures var x, s' := ExecuteAll(WithSetup(s, true), requests, Clock(t)), Reached(s, Iteration(true, requests, t));
            && AppOpen(s') && s'.pairing == x.pairing && SameDevice(x, s')
            && s'.link == x.link && s'.mapper == x.mapper
  {
    hide ExecuteAll, Reached, OnUsb, ServiceStale;
    SessionStaysOpen(WithSetup(s, true), requests, Clock(t));
    IterationReached(s, true, requests, t);
    QuietPass(OnSetup(s, true, requests, Clock(t)), Clock(t));
  }

  lemma IdleIteration(s: State, t: nat)
    ensures var s' := Reached(s, Iteration(true, [], t));
            AppOpen(s') && s'.pairing == s.pairing && SameDevice(s, s') && s'.link == s.link
  {
    hide Reached;
    OpenIteration(s, [], t);
  }

  /** Open the app and scan; the timer comes round 750 ms later and finds a controller, which is selected. */
  function Scan(): seq<Event> {
    Iteration(true, [StartScanning], 1000) + [ScanTimer(true, 1751)] + Iteration(true, [], 1751)
  }

  function Attempt(peer: Address): seq<Event> {
    Scan() + [InquiryResult(Inquiry(peer, None, LITE2_CLASS, None), 2500)] + Iteration(true, [PairCandidate(peer)], 3000)
  }

  predicate IsScanning(s: State) {
    AppOpen(s) && s.pairing.scanActive && !s.pairing.selected
  }

  lemma ScanStarts(s: State)
    requires !s.pairing.selected
    ensures var s' := Reached(s, Iteration(true, [StartScanning], 1000));
            && AppOpen(s') && SameDevice(s, s') && s'.pairing.bonds == s.pairing.bonds
            && !s'.pairing.selected && s'.pairing.scanRequested && s'.pairing.scanRequestedMs == 1000
  {
    hide Reached, CancelPairing;
    OpenIteration(s, [StartScanning], 1000);
    OneRequest(WithSetup(s, true), StartScanning, Clock(1000));
  }

  lemma TimerStartsScan(s: State)
    requires AppOpen(s) && !s.pairing.selected && s.pairing.scanRequested && s.pairing.scanRequestedMs == 1000
    ensures var s' := Step(s, ScanTimer(true, 1751));
            IsScanning(s') && SameDevice(s, s') && s'.pairing.bonds == s.pairing.bonds
  {
  }

  lemma ScanRuns(s: State)
    requires !s.pairing.selected
    ensures var s' := Reached(s, Scan());
            IsScanning(s') && SameDevice(s, s') && s'.pairing.bonds == s.pairing.bonds
  {
    hide Reached, Step, Iteration;
    var a, timer := Iteration(true, [StartScanning], 1000), ScanTimer(true, 1751);
    ScanStarts(s);
    ReachedInParts(s, a, [timer]);
    EventReached(Reached(s, a), timer);
    TimerStartsScan(Reached(s, a));
    ReachedInParts(s, a + [timer], Iteration(true, [], 1751));
    IdleIteration(Reached(s, a + [timer]), 1751);
  }

  lemma AttemptSelects(s: State, peer: Address)
    requires !s.pairing.selected
    ensures var s' := Reached(s, Attempt(peer));
            && IsTrying(s', peer) && SameDevice(s, s')
            && s'.pairing.bonds == if s.store.address == Some(peer) then s.pairing.bonds else s.pairing.bonds - {peer}
  {
    hide Reached, Scan;
    var found, select := InquiryResult(Inquiry(peer, None, LITE2_CLASS, None), 2500), [PairCandidate(peer)];
    ScanRuns(s);
    ReachedInParts(s, Scan(), [found]);
    EventReached(Reached(s, Scan()), found);
    var s2 := Reached(s, Scan() + [found]);
    ReachedInParts(s, Scan() + [found], Iteration(true, select, 3000));
    OpenIteration(s2, select, 3000);
    OneRequest(WithSetup(s2, true), PairCandidate(peer), Clock(3000));
  }

  /** The receiver calls the candidate, which pairs, and the link opens. */
  function Calls(peer: Address): seq<Event> {
    [ConnectTimer(true, 3501), ConfirmationRequest(peer, true, 3700)]
  }

  function LinkUp(peer: Address): seq<Event> {
    Calls(peer) + [ConnectionOpened(peer, true, 3800), DescriptorAvailable(true, 3900)] + Iteration(true, [], 4000)
  }

  lemma CallBonds(s: State, peer: Address)
    requires IsTrying(s, peer)
    ensures LetsIn(s, Calls(peer)[0], peer)
    ensures var s' := Reached(s, Calls(peer));
            IsTrying(s', peer) && SameDevice(s, s') && s'.pairing.bonds == s.pairing.bonds + {peer}
  {
    var es := Calls(peer);
    ReachedStep(s, es, 0);
    ReachedStep(s, es, 1);
    assert es[..2] == es && es[..0] == [];
  }

  lemma LinkComesUp(s: State, peer: Address)
    requires IsTrying(s, peer)
    ensures var s' := Reached(s, LinkUp(peer));
            && IsTrying(s', peer) && SameDevice(s, s') && s'.link == Link(true, true, true)
            && s'.pairing.bonds == s.pairing.bonds + {peer}
  {
    hide Reached;
    var a, up, described := Calls(peer), ConnectionOpened(peer, true, 3800), DescriptorAvailable(true, 3900);
    CallBonds(s, peer);
    ReachedInParts(s, a, [up]);
    EventReached(Reached(s, a), up);
    ReachedInParts(s, a + [up], [described]);
    EventReached(Reached(s, a + [up]), described);
    assert a + [up] + [described] == a + [up, described];
    ReachedInParts(s, a + [up, described], Iteration(true, [], 4000));
    IdleIteration(Reached(s, a + [up, described]), 4000);
  }

  /** Reject it, and close the app a second later. */
  function Rejection(t: nat): seq<Event> {
    Iteration(true, [Cancel], t) + Iteration(false, [], t + 1000)
  }

  lemma ClosedIteration(s: State, t: nat)
    requires !s.pairing.selected && !s.pairing.scanActive && !s.pairing.scanRequested
    requires !HasKey(s.output.desired) && s.output.wasMounted
    ensures var s' := Reached(s, Iteration(false, [], t));
            && s' == s.(output := s'.output, setup := Setup(false, false))
            && !HasKey(s'.output.desired) && s'.output.wasMounted
  {
    hide Reached, OnUsb, ServiceStale;
    IterationReached(s, false, [], t);
    QuietPass(OnSetup(s, false, [], Clock(t)), Clock(t));
  }

  lemma RejectionRollsBack(s: State, peer: Address, t: nat)
    requires IsTrying(s, peer)
    ensures var s' := Reached(s, Rejection(t));
            && IsRolledBack(s') && SameDevice(s, s') && s'.link == s.link
            && s'.pairing.active == Aim(s.pairing.active, Home(s))
            && s'.pairing.bonds == if s.store.address == Some(peer) then s.pairing.bonds else s.pairing.bonds - {peer}
  {
    hide Reached;
    OpenIteration(s, [Cancel], t);
    OneRequest(WithSetup(s, true), Cancel, Clock(t));
    var s1 := Reached(s, Iteration(true, [Cancel], t));
    ReachedInParts(s, Iteration(true, [Cancel], t), Iteration(false, [], t + 1000));
    ClosedIteration(s1, t + 1000);
  }

  lemma AttemptIsRealistic(peer: Address)
    ensures var es := Attempt(peer); Realistic(es) && LastPass(es) == TimeOfLast(es) == 3000
  {
    hide Realistic, LastPassSince, TimeOfLast, Iteration;
    var found := InquiryResult(Inquiry(peer, None, LITE2_CLASS, None), 2500);
    var a := Iteration(true, [StartScanning], 1000);
    NothingIsRealistic();
    IterationFollows([], true, [StartScanning], 1000);
    assert [] + a == a;
    EventFollows(a, ScanTimer(true, 1751));
    IterationFollows(a + [ScanTimer(true, 1751)], true, [], 1751);
    EventFollows(Scan(), found);
    IterationFollows(Scan() + [found], true, [PairCandidate(peer)], 3000);
  }

  lemma RejectionFollows(es: seq<Event>, t: nat)
    requires Realistic(es) && TimeOfLast(es) <= t <= LastPass(es) + INTERVAL
    ensures var all := es + Rejection(t); Realistic(all) && LastPass(all) == TimeOfLast(all) == t + 1000
  {
    hide Realistic, LastPassSince, TimeOfLast, Iteration;
    IterationFollows(es, true, [Cancel], t);
    IterationFollows(es + Iteration(true, [Cancel], t), false, [], t + 1000);
    assert es + Rejection(t) == es + Iteration(true, [Cancel], t) + Iteration(false, [], t + 1000);
  }

  lemma LinkUpFollows(es: seq<Event>, peer: Address)
    requires Realistic(es) && LastPass(es) == TimeOfLast(es) == 3000
    ensures var all := es + LinkUp(peer); Realistic(all) && LastPass(all) == TimeOfLast(all) == 4000
  {
    hide Realistic, LastPassSince, TimeOfLast, Iteration;
    var a := es + [ConnectTimer(true, 3501)];
    var b := a + [ConfirmationRequest(peer, true, 3700)];
    var c := b + [ConnectionOpened(peer, true, 3800)];
    var d := c + [DescriptorAvailable(true, 3900)];
    EventFollows(es, ConnectTimer(true, 3501));
    EventFollows(a, ConfirmationRequest(peer, true, 3700));
    EventFollows(b, ConnectionOpened(peer, true, 3800));
    EventFollows(c, DescriptorAvailable(true, 3900));
    IterationFollows(d, true, [], 4000);
    assert es + LinkUp(peer) == d + Iteration(true, [], 4000);
  }

  const NEW_RECEIVER := Boot(Flash(true, true, None, None), None, {})

  function RejectedRun(peer: Address): seq<Event> {
    Attempt(peer) + Rejection(4500)
  }

  /**
   * On a receiver without stored or compiled address, the address filter still passes any rejected candidate,
   * although no link key is left for it.
   */
  lemma RejectedCandidateIsLetIn(peer: Address)
    requires AddressValid(peer)
    ensures Realistic(RejectedRun(peer))
    ensures var s := Reached(NEW_RECEIVER, RejectedRun(peer));
            && IsRolledBack(s) && Home(s).None? && s.pairing.active.text.None?
            && Admits(s, peer) && !LetsInHomeOnly(s) && s.pairing.bonds == {}
  {
    hide Reached, Realistic, Attempt, LastPassSince, TimeOfLast;
    AttemptIsRealistic(peer);
    RejectionFollows(Attempt(peer), 4500);
    AttemptSelects(NEW_RECEIVER, peer);
    var trying := Reached(NEW_RECEIVER, Attempt(peer));
    RejectionRollsBack(trying, peer, 4500);
    ReachedInParts(NEW_RECEIVER, Attempt(peer), Rejection(4500));
    var s := Reached(trying, Rejection(4500));
    assert Admits(s, peer) && Home(s) != Some(peer);
  }

  /** Try a candidate until its link is up, reject it, and centre its sticks once. */
  function OldLinkRun(peer: Address): seq<Event> {
    Attempt(peer) + LinkUp(peer) + Rejection(5900) + [Report(peer, NEUTRAL_REPORT, 7200)] + Iteration(false, [], 7300)
  }

  lemma OldLinkRunIsRealistic(peer: Address)
    ensures Realistic(OldLinkRun(peer))
  {
    hide Realistic, LastPassSince, TimeOfLast, Iteration, Attempt, LinkUp, Rejection;
    var report := Report(peer, NEUTRAL_REPORT, 7200);
    AttemptIsRealistic(peer);
    LinkUpFollows(Attempt(peer), peer);
    RejectionFollows(Attempt(peer) + LinkUp(peer), 5900);
    EventFollows(Attempt(peer) + LinkUp(peer) + Rejection(5900), report);
    IterationFollows(Attempt(peer) + LinkUp(peer) + Rejection(5900) + [report], false, [], 7300);
  }

  lemma OldLinkRunIsHonest(start: State, peer: Address)
    requires !start.pairing.selected
    ensures BondedRadio(start, OldLinkRun(peer))
  {
    hide Reached, LetsIn, IsTrying;
    var es, a := OldLinkRun(peer), Attempt(peer);
    assert |a| == 8 && es[..8] == a && es[..10] == a + Calls(peer) && es[8] == Calls(peer)[0];
    AttemptSelects(start, peer);
    CallBonds(Reached(start, a), peer);
    ReachedInParts(start, a, Calls(peer));
    assert es[10] == ConnectionOpened(peer, true, 3800);
    assert BondedSince(start, es, 8, 10, 18, peer);
    assert |es| == 21 && forall i :: 0 <= i < |es| && es[i].Report? ==> i == 18;
  }

  lemma NeutralArms(s: State, peer: Address)
    requires IsRolledBack(s) && s.link == Link(true, true, true) && s.mapping == ProductionConfig.DEFAULT_MAPPING
    ensures var s' := Step(s, Report(peer, NEUTRAL_REPORT, 7200));
            && !s'.arming.rearm && !HasKey(s'.output.desired) && s'.output.wasMounted
            && s'.pairing == s.pairing && SameDevice(s, s') && s'.setup == s.setup
  {
    hide ReadReport, ControlMapper.Next;
    ReadsDefault(s, NEUTRAL_REPORT, Clock(7200));
  }

  /**
   * The condition is needed: a rejected candidate whose link has not closed yet arms the output, although the
   * stored controller is another one and the candidate's link key is gone.
   */
  lemma RejectedCandidateArms(peer: Address, home: Address)
    requires peer != home && AddressValid(home)
    ensures var start, es := PairedBoot(home), OldLinkRun(peer);
            var s := Reached(start, es);
            && Realistic(es) && BondedRadio(start, es)
            && !s.arming.rearm && !s.pairing.selected && !s.setup.active
            && s.store.address == Some(home) && s.pairing.bonds == {home}
  {
    hide Reached, IsTrying, IsRolledBack, BondedRadio, Realistic, PairedBoot, Attempt, LinkUp, Rejection, Step, Iteration;
    var start, report := PairedBoot(home), Report(peer, NEUTRAL_REPORT, 7200);
    var a, b, c, last := Attempt(peer), LinkUp(peer), Rejection(5900), Iteration(false, [], 7300);
    PairedBootIs(home);
    AttemptSelects(start, peer);
    ReachedInParts(start, a, b);
    LinkComesUp(Reached(start, a), peer);
    ReachedInParts(start, a + b, c);
    RejectionRollsBack(Reached(start, a + b), peer, 5900);
    ReachedInParts(start, a + b + c, [report]);
    EventReached(Reached(start, a + b + c), report);
    NeutralArms(Reached(start, a + b + c), peer);
    ReachedInParts(start, a + b + c + [report], last);
    RolledBackIsIdle(Reached(start, a + b + c));
    ClosedIteration(Reached(start, a + b + c + [report]), 7300);
    OldLinkRunIsRealistic(peer);
    OldLinkRunIsHonest(start, peer);
  }

  lemma RolledBackIsIdle(s: State)
    requires IsRolledBack(s)
    ensures !s.pairing.selected && !s.pairing.scanActive && !s.pairing.scanRequested
    ensures !HasKey(s.output.desired) && s.output.wasMounted && s.setup == Setup(false, false)
  {
  }
}
