/**
 * The polled gamepad receiver: controller reports, connection and descriptor events, the setup session
 * with its pairing transaction, the stale-input timer and the USB service, all on one main-loop context.
 */
module GamepadReceiver {
  import opened Types
  import opened MassoKeyboard
  import opened ProductionConfig
  import opened ControlMapper
  import opened UsbOutput
  import opened RecordCodec
  import opened PersistentConfig
  import Lite2Report

  const STALE_MS := 150
  const CENTER_LIMIT: int16 := 9000
  const CONFIRM_MS := 3000
  const SCAN_GIVE_UP_MS := 65000
  const CONFIRMATION_CHORD: bv32 := 0x00100 | 0x00200 | 0x00800

  /**
   * Who the receiver talks to, kept three times: the address that connections are compared with, whether it
   * may be called, and the text it came from (empty text is None).
   */
  datatype Target = Target(address: Address, valid: bool, text: Option<Address>)

  const NO_TARGET := Target(NO_ADDRESS, false, None)

  /** Reading an address text writes the address only when there is one to read. */
  function Aim(t: Target, text: Option<Address>): Target {
    Target(if text.Some? then text.value else t.address, text.Some?, text)
  }

  /**
   * The pairing globals. `candidate` is the last scan result, `selected` the uncommitted-candidate flag,
   * `bonds` the link keys in flash.
   */
  datatype Pairing = Pairing(
    active: Target,
    candidate: Option<Address>,
    scanActive: bool,
    scanRequested: bool,
    scanRequestedMs: uint32,
    selected: bool,
    chordConfirmed: bool,
    chordStarted: uint32,
    bonds: set<Address>)

  /** The HID link: connected, and with a descriptor some profile supports. */
  datatype Link = Link(connected: bool, descriptorReady: bool, profileActive: bool)

  const NO_LINK := Link(false, false, false)

  /** `rearm` demands a neutral report; `lastValidMs` is zero for "none". */
  datatype Arming = Arming(rearm: bool, lastValidMs: uint32)

  /** Whether the setup port is open now, and whether it was at the previous service. */
  datatype Setup = Setup(active: bool, wasActive: bool)

  datatype State = State(
    link: Link,
    arming: Arming,
    mapper: MapperState,
    mapping: ProductionMapping,
    store: Persist,
    pairing: Pairing,
    setup: Setup,
    output: UsbOutput.Output,
    fallback: Option<Address>)

  /** The address used when nothing is being paired: the stored one, else the compiled one. */
  function HomeAddress(stored: Option<Address>, fallback: Option<Address>): Option<Address> {
    if stored.Some? then stored else fallback
  }

  function Boot(f: Flash, fallback: Option<Address>, bonds: set<Address>): State {
    var l := Load(f);
    State(NO_LINK, Arming(true, 0), INITIAL_MAPPER, l.mapping,
          Persist(l.sequence, l.active, l.address, f),
          Pairing(Aim(NO_TARGET, HomeAddress(l.address, fallback)), None, false, false, 0, false, false, 0, bonds),
          Setup(false, false), INITIAL_OUTPUT, fallback)
  }

  function Released(s: State): State {
    s.(output := s.output.(desired := RELEASED))
  }

  function Rearmed(s: State): State {
    s.(arming := s.arming.(rearm := true))
  }

  function ResetMapper(m: MapperState, now: uint32): MapperState {
    Next(DEFAULT_CONFIG, m, IdleState(now), now)
  }

  predicate SafeToArm(g: GamepadState) {
    !g.deadman && Centered(g, CENTER_LIMIT)
  }

  /** The mapped controller state of a report the active profile understands. */
  function ReadReport(s: State, report: seq<bv8>, now: uint32): Option<GamepadState> {
    if !s.link.descriptorReady || !s.link.profileActive then None
    else
      match Lite2Report.Parse(report, now)
      case None => None
      case Some(raw) => Some(Mapped(raw, s.mapping))
  }

  predicate HoldsChord(g: GamepadState) {
    g.buttons & CONFIRMATION_CHORD == CONFIRMATION_CHORD
  }

  function ChordStep(p: Pairing, g: GamepadState, now: uint32): Pairing {
    if !HoldsChord(g) then p.(chordStarted := 0)
    else
      var started := if p.chordStarted == 0 then now else p.chordStarted;
      p.(chordStarted := started, chordConfirmed := p.chordConfirmed || Elapsed(now, started) >= CONFIRM_MS)
  }

  function OnReport(s: State, report: seq<bv8>, now: uint32): State {
    match ReadReport(s, report, now)
    case None => Released(s).(arming := Arming(true, 0), mapper := ResetMapper(s.mapper, now))
    case Some(g) =>
      if s.pairing.selected then
        Released(s).(pairing := if s.setup.active then ChordStep(s.pairing, g, now) else s.pairing)
      else if s.setup.active then Released(s)
      else if s.arming.rearm then
        Released(s).(arming := Arming(!SafeToArm(g), now),
                     mapper := Next(DEFAULT_CONFIG, ResetMapper(s.mapper, now), g, now))
      else
        s.(arming := Arming(false, now),
           mapper := Next(DEFAULT_CONFIG, s.mapper, g, now),
           output := s.output.(desired :=
                                 CncReport(s.mapping.cncProfile,
                                           ControlMapper.Output(DEFAULT_CONFIG, s.mapper, g, now))))
  }

  function FailClosed(s: State): State {
    Released(s).(link := NO_LINK, arming := Arming(true, 0))
  }

  function CancelPairing(s: State): State {
    var p, stored := s.pairing, s.store.address;
    var rejected := p.active.text;
    var bonds := if p.selected && rejected.Some? && stored != rejected then p.bonds - {rejected.value} else p.bonds;
    s.(pairing := p.(active := Aim(p.active, HomeAddress(stored, s.fallback)), scanActive := false, scanRequested := false,
                     selected := false, chordConfirmed := false, chordStarted := 0, bonds := bonds))
  }

  function StartScan(s: State, now: uint32): State {
    var s' := Rearmed(Released(if s.pairing.selected then CancelPairing(s) else s));
    s'.(pairing := s'.pairing.(candidate := None, scanActive := false, scanRequested := true, scanRequestedMs := now,
                               selected := false, chordConfirmed := false, chordStarted := 0))
  }

  function SelectCandidate(s: State, address: Address): State {
    if s.pairing.candidate != Some(address) then s
    else
      s.(pairing := s.pairing.(
           active := Aim(s.pairing.active, Some(address)), scanActive := false, scanRequested := false,
           selected := true, chordConfirmed := false, chordStarted := 0,
           bonds := if s.store.address == Some(address) then s.pairing.bonds else s.pairing.bonds - {address}))
  }

  /** The preconditions of a commit, before the store is tried. */
  predicate MayCommit(s: State) {
    && s.pairing.selected && s.pairing.chordConfirmed
    && s.pairing.active.address in s.pairing.bonds && s.pairing.active.text.Some?
  }

  predicate Commits(s: State, env: StoreEnv) {
    MayCommit(s) && StoreAddress(s.store, s.mapping, s.pairing.active.text.value, env).ok
  }

  function ConfirmPairing(s: State, env: StoreEnv): State {
    if !MayCommit(s) then s
    else
      var p := s.pairing;
      var r := StoreAddress(s.store, s.mapping, p.active.text.value, env);
      if !r.ok then s.(store := r.state)
      else
        var previous := s.store.address;
        var bonds := if previous.Some? && previous != p.active.text then p.bonds - {previous.value} else p.bonds;
        Rearmed(s).(
          store := r.state,
          pairing := p.(selected := false, chordConfirmed := false, chordStarted := 0, bonds := bonds))
  }

  /** The setup commands that change the receiver. */
  datatype Request =
    | SetConfig(candidate: ProductionMapping, env: StoreEnv)
    | StartScanning
    | PairCandidate(address: Address)
    | Confirm(env: StoreEnv)
    | Cancel

  function Execute(s: State, request: Request, now: uint32): State {
    match request
    case SetConfig(m, env) =>
      var r := Store(s.store, m, env);
      s.(store := r.state, mapping := if r.ok then m else s.mapping)
    case StartScanning => StartScan(s, now)
    case PairCandidate(address) => SelectCandidate(s, address)
    case Confirm(env) => ConfirmPairing(s, env)
    case Cancel => CancelPairing(s)
  }

  /** Whether the command reports success. */
  predicate Succeeds(s: State, request: Request) {
    match request
    case SetConfig(m, env) => Store(s.store, m, env).ok
    case StartScanning => true
    case PairCandidate(address) => s.pairing.candidate == Some(address)
    case Confirm(env) => Commits(s, env)
    case Cancel => true
  }

  function ExecuteAll(s: State, requests: seq<Request>, now: uint32): State {
    if requests == [] then s
    else Execute(ExecuteAll(s, requests[..|requests| - 1], now), requests[|requests| - 1], now)
  }

  /** Right after the setup channel was serviced: an open session disarms, a closing one rolls back. */
  function AfterSetup(s: State): State {
    var s' :=
      if s.setup.active then Rearmed(Released(s))
      else if s.setup.wasActive && (s.pairing.scanRequested || s.pairing.scanActive || s.pairing.selected) then
        CancelPairing(s)
      else s;
    s'.(setup := Setup(s.setup.active, s.setup.active))
  }

  function WithSetup(s: State, open: bool): State {
    s.(setup := s.setup.(active := open))
  }

  function OnSetup(s: State, open: bool, requests: seq<Request>, now: uint32): State {
    AfterSetup(if open then ExecuteAll(WithSetup(s, true), requests, now) else WithSetup(s, false))
  }

  predicate Stale(s: State, now: uint32) {
    HasKey(s.output.desired) && s.arming.lastValidMs != 0 && Elapsed(now, s.arming.lastValidMs) > STALE_MS
  }

  function ServiceStale(s: State, now: uint32): State {
    if Stale(s, now) then Released(s).(arming := Arming(true, 0)) else s
  }

  function OnUsb(s: State, env: UsbEnv): State {
    var r := ServiceUsb(s.output, env);
    s.(output := r.output, arming := s.arming.(rearm := s.arming.rearm || r.locked))
  }

  function OnScanTimer(s: State, started: bool, now: uint32): State {
    var p := s.pairing;
    if !p.scanRequested then s
    else if Elapsed(now, p.scanRequestedMs) > SCAN_GIVE_UP_MS then s.(pairing := p.(scanRequested := false))
    else if started then s.(pairing := p.(scanActive := true, scanRequested := false))
    else s
  }

  function OnDescriptor(s: State, supported: bool): State {
    if supported then s.(link := s.link.(profileActive := true, descriptorReady := true))
    else
      var s' := FailClosed(s);
      if s'.pairing.selected then CancelPairing(s') else s'
  }

  /** `bonded` is whether pairing, once allowed, went through; allowing it and bonding are one step. */
  function OnConfirmationRequest(s: State, address: Address, bonded: bool): State {
    if s.setup.active && s.pairing.selected && s.pairing.active.address == address && bonded then
      s.(pairing := s.pairing.(bonds := s.pairing.bonds + {address}))
    else s
  }

  /** What the radio says about one device in range. */
  datatype Inquiry = Inquiry(address: Address, name: Option<string>, deviceClass: nat, rssi: Option<int>)

  const LITE2_NAME := "8BitDo Lite 2"
  const LITE2_CLASS := 0x002508
  const NAME_LIMIT := 63

  /** The part of a name the code compares: what fits its buffer, up to the first zero byte. */
  function ComparedName(name: string): string {
    UpToZero(if |name| <= NAME_LIMIT then name else name[..NAME_LIMIT])
  }

  function UpToZero(name: string): string {
    if name == "" || name[0] == '\0' then "" else [name[0]] + UpToZero(name[1..])
  }

  predicate NamedLite2(found: Inquiry) {
    found.name.Some? && ComparedName(found.name.value) == LITE2_NAME
  }

  /** The advertised name, or else the device class, must be the known one. */
  predicate IsCandidate(found: Inquiry) {
    NamedLite2(found) || found.deviceClass == LITE2_CLASS
  }

  function OnInquiry(s: State, found: Inquiry): State {
    if s.pairing.scanActive && IsCandidate(found) then s.(pairing := s.pairing.(candidate := Some(found.address))) else s
  }

  /** Incoming connections are compared with the target address alone. */
  predicate Admits(s: State, peer: Address) {
    peer == s.pairing.active.address
  }

  /** A foreign connection is declined; `answered` is whether accepting one went through. */
  function OnIncoming(s: State, peer: Address, sound: bool, answered: bool): State {
    if sound && Admits(s, peer) && !answered then FailClosed(s) else s
  }

  /**
   * Events carry unbounded time; the code only sees its 32-bit reading. It does not look at the peer of a
   * link that opens, closes or reports.
   */
  datatype Event =
    | Report(peer: Address, report: seq<bv8>, t: nat)
    | IncomingConnection(peer: Address, sound: bool, answered: bool, t: nat)
    | ConnectTimer(called: bool, t: nat)
    | ConnectionOpened(peer: Address, success: bool, t: nat)
    | ConnectionLost(peer: Address, t: nat)
    | DescriptorAvailable(supported: bool, t: nat)
    | InquiryResult(found: Inquiry, t: nat)
    | InquiryComplete(t: nat)
    | ScanTimer(started: bool, t: nat)
    | ConfirmationRequest(address: Address, bonded: bool, t: nat)
    | SetupPass(open: bool, requests: seq<Request>, t: nat)
    | OutputPass(env: UsbEnv, t: nat)

  function Step(s: State, e: Event): State {
    match e
    case Report(_, report, t) => OnReport(s, report, Clock(t))
    case IncomingConnection(peer, sound, answered, _) => OnIncoming(s, peer, sound, answered)
    case ConnectTimer(_, _) => s
    case ConnectionOpened(_, success, _) => FailClosed(s).(link := NO_LINK.(connected := success))
    case ConnectionLost(_, _) => FailClosed(s)
    case DescriptorAvailable(supported, _) => OnDescriptor(s, supported)
    case InquiryResult(found, _) => OnInquiry(s, found)
    case InquiryComplete(_) => s.(pairing := s.pairing.(scanActive := false))
    case ScanTimer(started, t) => OnScanTimer(s, started, Clock(t))
    case ConfirmationRequest(address, bonded, _) => OnConfirmationRequest(s, address, bonded)
    case SetupPass(open, requests, t) => OnSetup(s, open, requests, Clock(t))
    case OutputPass(env, t) => OnUsb(ServiceStale(s, Clock(t)), env)
  }

  /** The report the host accepts during an event, if any. */
  function Wire(s: State, e: Event): seq<KeyboardReport> {
    if e.OutputPass? then ServiceUsb(ServiceStale(s, Clock(e.t)).output, e.env).wire else []
  }

  class Receiver {
    const mapper: Mapper
    const store: ConfigStore
    const fallback: Option<Address>
    var link: Link
    var arming: Arming
    var productionMapping: ProductionMapping
    var pairing: Pairing
    var setup: Setup
    var output: UsbOutput.Output
    ghost var wire: seq<KeyboardReport>

    constructor (tlv: TagStore, fallback: Option<Address>, bonds: set<Address>)
      ensures Valid() && View() == Boot(tlv.State(), fallback, bonds) && wire == []
      ensures fresh(mapper) && fresh(store) && store.tlv == tlv
    {
      mapper := new Mapper(DEFAULT_CONFIG);
      var config := new ConfigStore(tlv);
      var ok, mapping := config.LoadMapping();
      store := config;
      this.fallback := fallback;
      link, arming, productionMapping := NO_LINK, Arming(true, 0), mapping;
      var home := if config.controllerAddress.Some? then config.controllerAddress else fallback;
      pairing := Pairing(Aim(NO_TARGET, home), None, false, false, 0, false, false, 0, bonds);
      setup, output, wire := Setup(false, false), INITIAL_OUTPUT, [];
    }

    ghost predicate Valid()
      reads this, mapper
    {
      mapper.config == DEFAULT_CONFIG && mapper.Valid()
    }

    ghost function View(): State
      reads this, mapper, store, store.tlv
    {
      State(link, arming, mapper.State(), productionMapping, store.State(), pairing, setup, output, fallback)
    }

    method PublishRelease()
      requires Valid()
      modifies this`output
      ensures Valid() && View() == Released(old(View()))
    {
      output := output.(desired := RELEASED);
    }

    method ConsumeControllerReport(report: seq<bv8>, now: uint32)
      requires Valid()
      modifies this`arming, this`pairing, this`output, mapper
      ensures Valid() && View() == OnReport(old(View()), report, now)
    {
      hide Lite2Report.Parse, Mapped, Next, ControlMapper.Output, CncReport, Centered, HoldsChord, Elapsed;
      var parsed := if !link.descriptorReady || !link.profileActive then None else Lite2Report.Parse(report, now);
      if parsed.None? {
        arming := Arming(true, 0);
        var _ := mapper.Update(IdleState(now), now);
        PublishRelease();
        return;
      }
      var input := ApplyProductionMapping(parsed.value, productionMapping);
      if pairing.selected {
        if setup.active {
          TrackChord(input, now);
        }
        PublishRelease();
        return;
      }
      if setup.active {
        PublishRelease();
        return;
      }
      arming := arming.(lastValidMs := now);
      if arming.rearm {
        var _ := mapper.Update(IdleState(now), now);
        var _ := mapper.Update(input, now);
        PublishRelease();
        if !input.deadman && Centered(input, CENTER_LIMIT) {
          arming := arming.(rearm := false);
        }
        return;
      }
      var frame := mapper.Update(input, now);
      output := output.(desired := CncReport(productionMapping.cncProfile, frame));
    }

    method TrackChord(input: GamepadState, now: uint32)
      requires Valid()
      modifies this`pairing
      ensures Valid() && pairing == ChordStep(old(pairing), input, now)
    {
      if input.buttons & CONFIRMATION_CHORD == CONFIRMATION_CHORD {
        if pairing.chordStarted == 0 {
          pairing := pairing.(chordStarted := now);
        }
        if !pairing.chordConfirmed && Elapsed(now, pairing.chordStarted) >= CONFIRM_MS {
          pairing := pairing.(chordConfirmed := true);
        }
      } else {
        pairing := pairing.(chordStarted := 0);
      }
    }

    method FailClosedNow()
      requires Valid()
      modifies this`link, this`arming, this`output
      ensures Valid() && View() == FailClosed(old(View()))
    {
      link, arming := NO_LINK, Arming(true, 0);
      PublishRelease();
    }

    method CancelPairingNow()
      requires Valid()
      modifies this`pairing
      ensures Valid() && View() == CancelPairing(old(View()))
    {
      var rejected := if pairing.selected then pairing.active.text else None;
      pairing := pairing.(scanRequested := false, scanActive := false, selected := false,
                          chordConfirmed := false, chordStarted := 0);
      var stored := store.controllerAddress;
      if rejected.Some? && stored != rejected {
        pairing := pairing.(bonds := pairing.bonds - {rejected.value});
      }
      pairing := pairing.(active := Aim(pairing.active, if stored.Some? then stored else fallback));
    }

    method StartPairingScan(now: uint32)
      requires Valid()
      modifies this`arming, this`pairing, this`output
      ensures Valid() && View() == StartScan(old(View()), now)
    {
      if pairing.selected {
        CancelPairingNow();
      }
      PublishRelease();
      arming := arming.(rearm := true);
      pairing := pairing.(selected := false, chordConfirmed := false, chordStarted := 0);
      pairing := pairing.(candidate := None, scanActive := false, scanRequested := true, scanRequestedMs := now);
    }

    method SelectPairingCandidate(address: Address) returns (ok: bool)
      requires Valid()
      modifies this`pairing
      ensures Valid() && View() == SelectCandidate(old(View()), address)
      ensures ok <==> old(pairing.candidate) == Some(address)
    {
      if pairing.candidate != Some(address) {
        return false;
      }
      pairing := pairing.(scanRequested := false, scanActive := false, active := Aim(pairing.active, Some(address)));
      pairing := pairing.(selected := true, chordConfirmed := false, chordStarted := 0);
      if store.controllerAddress != Some(address) {
        pairing := pairing.(bonds := pairing.bonds - {address});
      }
      ok := true;
    }

    method ConfirmPairingCandidate(env: StoreEnv) returns (ok: bool)
      requires Valid()
      modifies this`arming, this`pairing, store, store.tlv
      ensures Valid() && View() == ConfirmPairing(old(View()), env)
      ensures ok <==> Commits(old(View()), env)
    {
      hide Store, StoreAddress;
      if !pairing.selected || !pairing.chordConfirmed {
        return false;
      }
      if pairing.active.address !in pairing.bonds || pairing.active.text.None? {
        return false;
      }
      var previous := store.controllerAddress;
      ok := store.StoreControllerAddress(productionMapping, pairing.active.text.value, env);
      if !ok {
        return false;
      }
      if previous.Some? && previous != pairing.active.text {
        pairing := pairing.(bonds := pairing.bonds - {previous.value});
      }
      pairing := pairing.(selected := false, chordConfirmed := false, chordStarted := 0);
      arming := arming.(rearm := true);
    }

    method ExecuteRequest(request: Request, now: uint32) returns (ok: bool)
      requires Valid()
      modifies this`arming, this`pairing, this`output, this`productionMapping, store, store.tlv
      ensures Valid() && View() == Execute(old(View()), request, now)
      ensures ok <==> Succeeds(old(View()), request)
    {
      hide Store, StoreAddress, ConfirmPairing, CancelPairing, SelectCandidate, StartScan, Commits;
      ok := true;
      match request
      case SetConfig(candidate, env) =>
        ok := store.StoreMapping(candidate, env);
        if ok {
          productionMapping := candidate;
        }
      case StartScanning => StartPairingScan(now);
      case PairCandidate(address) => ok := SelectPairingCandidate(address);
      case Confirm(env) => ok := ConfirmPairingCandidate(env);
      case Cancel => CancelPairingNow();
    }

    method OpenOrCloseSetup(open: bool)
      requires Valid()
      modifies this`setup
      ensures Valid() && View() == WithSetup(old(View()), open) && setup.active == open
    {
      setup := setup.(active := open);
    }

    method SettleSetup()
      requires Valid()
      modifies this`arming, this`pairing, this`output, this`setup
      ensures Valid() && View() == AfterSetup(old(View()))
    {
      hide CancelPairing;
      if setup.active {
        PublishRelease();
        arming := arming.(rearm := true);
      } else if setup.wasActive && (pairing.scanRequested || pairing.scanActive || pairing.selected) {
        CancelPairingNow();
      }
      setup := setup.(wasActive := setup.active);
    }

    method ServiceSetup(open: bool, requests: seq<Request>, now: uint32)
      requires Valid()
      modifies this`arming, this`pairing, this`output, this`productionMapping, this`setup, store, store.tlv
      ensures Valid() && View() == OnSetup(old(View()), open, requests, now)
    {
      hide Execute, AfterSetup, WithSetup, Succeeds;
      OpenOrCloseSetup(open);
      if open {
        ghost var start := View();
        for i := 0 to |requests|
          invariant Valid() && View() == ExecuteAll(start, requests[..i], now)
        {
          assert requests[..i + 1][..i] == requests[..i];
          var _ := ExecuteRequest(requests[i], now);
        }
        assert requests[..|requests|] == requests;
      }
      SettleSetup();
    }

    method ServiceStaleInput(now: uint32)
      requires Valid()
      modifies this`arming, this`output
      ensures Valid() && View() == ServiceStale(old(View()), now)
    {
      if HasKey(output.desired) && arming.lastValidMs != 0 && Elapsed(now, arming.lastValidMs) > STALE_MS {
        arming := Arming(true, 0);
        PublishRelease();
      }
    }

    method ServiceUsbKeyboard(env: UsbEnv)
      requires Valid()
      modifies this`arming, this`output, this`wire
      ensures Valid() && View() == OnUsb(old(View()), env)
      ensures wire == old(wire) + ServiceUsb(old(View()).output, env).wire
    {
      if env.mounted != output.wasMounted {
        output := output.(sent := RELEASED);
        arming := arming.(rearm := true);
        PublishRelease();
        output := output.(wasMounted := env.mounted);
      }
      if !env.mounted || !env.ready || output.desired == output.sent {
        return;
      }
      if HasKey(output.sent) && HasKey(output.desired) {
        if env.accepts {
          output := output.(sent := RELEASED);
          wire := wire + [RELEASED];
        } else {
          arming := arming.(rearm := true);
          PublishRelease();
        }
        return;
      }
      if env.accepts {
        output := output.(sent := output.desired);
        wire := wire + [output.desired];
      } else {
        arming := arming.(rearm := true);
        PublishRelease();
      }
    }

    method BeginPairingScan(started: bool, now: uint32)
      requires Valid()
      modifies this`pairing
      ensures Valid() && View() == OnScanTimer(old(View()), started, now)
    {
      if !pairing.scanRequested {
        return;
      }
      if Elapsed(now, pairing.scanRequestedMs) > SCAN_GIVE_UP_MS {
        pairing := pairing.(scanRequested := false);
        return;
      }
      if started {
        pairing := pairing.(scanActive := true, scanRequested := false);
      }
    }

    method Handle(e: Event)
      requires Valid()
      modifies this, mapper, store, store.tlv
      ensures Valid() && View() == Step(old(View()), e)
      ensures wire == old(wire) + Wire(old(View()), e)
    {
      hide OnReport, CancelPairing, OnScanTimer, OnSetup, ServiceStale, OnUsb, ServiceUsb, IsCandidate;
      match e
      case Report(_, report, t) => ConsumeControllerReport(report, Clock(t));
      case IncomingConnection(peer, sound, answered, _) =>
        if sound && peer == pairing.active.address && !answered {
          FailClosedNow();
        }
      case ConnectTimer(_, _) =>
      case ConnectionOpened(_, success, _) =>
        FailClosedNow();
        link := link.(connected := success);
      case ConnectionLost(_, _) => FailClosedNow();
      case DescriptorAvailable(supported, _) =>
        link := link.(profileActive := supported, descriptorReady := supported);
        if !supported {
          FailClosedNow();
          if pairing.selected {
            CancelPairingNow();
          }
        }
      case InquiryResult(found, _) =>
        if pairing.scanActive && IsCandidate(found) {
          pairing := pairing.(candidate := Some(found.address));
        }
      case InquiryComplete(_) => pairing := pairing.(scanActive := false);
      case ScanTimer(started, t) => BeginPairingScan(started, Clock(t));
      case ConfirmationRequest(address, bonded, _) =>
        if setup.active && pairing.selected && pairing.active.address == address && bonded {
          pairing := pairing.(bonds := pairing.bonds + {address});
        }
      case SetupPass(open, requests, t) => ServiceSetup(open, requests, Clock(t));
      case OutputPass(env, t) =>
        ServiceStaleInput(Clock(t));
        ServiceUsbKeyboard(env);
    }
  }

  /** No command closes the session it came through. */
  lemma {:induction false} SessionStaysOpen(s: State, requests: seq<Request>, now: uint32)
    ensures ExecuteAll(s, requests, now).setup == s.setup
  {
    hide Store, StoreAddress;
    if requests != [] {
      SessionStaysOpen(s, requests[..|requests| - 1], now);
    }
  }
}
