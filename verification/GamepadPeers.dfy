/** Whose connections the receiver lets in, and whose reports arm it. */
module GamepadPeers {
  import opened Types
  import opened RecordCodec
  import opened PersistentConfig
  import opened GamepadReceiver
  import opened GamepadSafety
  import opened GamepadPairing
  import ControlMapper
  import UsbOutput

  function Home(s: State): Option<Address> {
    HomeAddress(s.store.address, s.fallback)
  }

  predicate Selects(s: State, request: Request) {
    request.PairCandidate? && s.pairing.candidate == Some(request.address)
  }

  /** The candidate most recently selected, by one pass and by a whole run; None if there never was one. */
  function ChoiceInPass(s: State, requests: seq<Request>, now: uint32, before: Option<Address>): Option<Address> {
    if requests == [] then before
    else
      var n := |requests| - 1;
      if Selects(ExecuteAll(s, requests[..n], now), requests[n]) then Some(requests[n].address)
      else ChoiceInPass(s, requests[..n], now, before)
  }

  ghost function LastChoice(start: State, es: seq<Event>): Option<Address> {
    if es == [] then None
    else
      var n := |es| - 1;
      var before := LastChoice(start, es[..n]);
      if es[n].SetupPass? && es[n].open then
        ChoiceInPass(WithSetup(Reached(start, es[..n]), true), es[n].requests, Clock(es[n].t), before)
      else before
  }

  /** The address connections are compared with, when `choice` was the last candidate. */
  predicate Targets(s: State, choice: Option<Address>) {
    var address := s.pairing.active.address;
    if s.pairing.selected then choice == Some(address)
    else if Home(s).Some? then Home(s) == Some(address)
    else address == if choice.Some? then choice.value else NO_ADDRESS
  }

  lemma CancelTargets(s: State, choice: Option<Address>)
    requires Core(s) && Targets(s, choice)
    ensures Targets(CancelPairing(s), choice)
  {
    hide ControlMapper.Exclusive;
  }

  lemma RequestTargets(s: State, request: Request, now: uint32, choice: Option<Address>)
    requires Core(s) && Targets(s, choice)
    ensures Targets(Execute(s, request, now), if Selects(s, request) then Some(request.address) else choice)
  {
    hide Store, StoreAddress, ControlMapper.Exclusive;
    match request
    case SetConfig(m, env) => StoreKeepsAddress(s.store, m, env);
    case StartScanning => CancelTargets(s, choice);
    case PairCandidate(_) =>
    case Confirm(env) =>
      if MayCommit(s) {
        StoreAddressCommits(s.store, s.mapping, s.pairing.active.text.value, env);
      }
    case Cancel => CancelTargets(s, choice);
  }

  lemma {:induction false} RequestsTarget(s: State, requests: seq<Request>, now: uint32, choice: Option<Address>)
    requires Core(s) && Targets(s, choice)
    ensures Targets(ExecuteAll(s, requests, now), ChoiceInPass(s, requests, now, choice))
  {
    hide Core, Execute, Targets;
    if requests != [] {
      var n := |requests| - 1;
      RequestsTarget(s, requests[..n], now, choice);
      CommandsKeepCore(s, requests[..n], now);
      RequestTargets(ExecuteAll(s, requests[..n], now), requests[n], now, ChoiceInPass(s, requests[..n], now, choice));
    }
  }

  lemma SetupTargets(s: State, open: bool, requests: seq<Request>, now: uint32, choice: Option<Address>)
    requires Safe(s) && Targets(s, choice)
    ensures Targets(OnSetup(s, open, requests, now),
                    if open then ChoiceInPass(WithSetup(s, true), requests, now, choice) else choice)
  {
    hide ExecuteAll, CancelPairing, ControlMapper.Exclusive, ChoiceInPass;
    if open {
      RequestsTarget(WithSetup(s, true), requests, now, choice);
      SessionStaysOpen(WithSetup(s, true), requests, now);
    } else {
      CancelTargets(WithSetup(s, false), choice);
    }
  }

  lemma EventTargets(s: State, e: Event, choice: Option<Address>)
    requires Safe(s) && Targets(s, choice) && !e.SetupPass?
    ensures Targets(Step(s, e), choice)
  {
    if e.DescriptorAvailable? {
      hide Core, CancelPairing;
      FailClosedKeepsCore(s);
      CancelTargets(FailClosed(s), choice);
    } else if e.Report? {
      ReportKeepsBonds(s, e);
    } else {
      hide ControlMapper.Exclusive, Elapsed, OnDescriptor, OnReport, OnSetup, UsbOutput.ServiceUsb, IsCandidate;
    }
  }

  lemma {:induction false} TargetsAlways(f: Flash, fallback: Option<Address>, bonds: set<Address>, es: seq<Event>)
    ensures var start := Boot(f, fallback, bonds); Targets(Reached(start, es), LastChoice(start, es))
  {
    hide Step, Targets, Load, Boot, ChoiceInPass, OnSetup, Safe;
    var start := Boot(f, fallback, bonds);
    BootIsSafe(f, fallback, bonds);
    if es == [] {
      BootTargets(f, fallback, bonds);
    } else {
      var n := |es| - 1;
      var s, e := Reached(start, es[..n]), es[n];
      SafeAlways(start, es[..n]);
      TargetsAlways(f, fallback, bonds, es[..n]);
      if e.SetupPass? {
        SetupTargets(s, e.open, e.requests, Clock(e.t), LastChoice(start, es[..n]));
        SetupStepIs(s, e);
      } else {
        EventTargets(s, e, LastChoice(start, es[..n]));
      }
    }
  }

  lemma SetupStepIs(s: State, e: Event)
    requires e.SetupPass?
    ensures Step(s, e) == OnSetup(s, e.open, e.requests, Clock(e.t))
  {
    hide OnSetup;
  }

  lemma BootTargets(f: Flash, fallback: Option<Address>, bonds: set<Address>)
    ensures Targets(Boot(f, fallback, bonds), None)
  {
    hide Load;
  }

  /**
   * With no candidate, the receiver lets in the stored or compiled controller if there is one, and otherwise
   * still the last candidate, however long ago it was rejected.
   */
  lemma LetsInHomeOrLastChoice(
    f: Flash, fallback: Option<Address>, bonds: set<Address>, es: seq<Event>, peer: Address)
    requires !Reached(Boot(f, fallback, bonds), es).pairing.selected
    ensures var start := Boot(f, fallback, bonds);
            var s, choice := Reached(start, es), LastChoice(start, es);
            Admits(s, peer) <==> peer == if Home(s).Some? then Home(s).value
                                         else if choice.Some? then choice.value else NO_ADDRESS
  {
    hide Boot, Reached;
    TargetsAlways(f, fallback, bonds, es);
  }

  /** Among real addresses, exactly the stored or compiled one is let in. */
  ghost predicate LetsInHomeOnly(s: State) {
    forall peer: Address :: AddressValid(peer) ==> (Admits(s, peer) <==> Home(s) == Some(peer))
  }

  /**
   * Once an attempt is rolled back only the home controller is let in, if and only if there is a stored or
   * compiled address, or no candidate was ever selected.
   */
  lemma RollbackRestoresFilter(f: Flash, fallback: Option<Address>, bonds: set<Address>, es: seq<Event>)
    requires !Reached(Boot(f, fallback, bonds), es).pairing.selected
    ensures var start := Boot(f, fallback, bonds);
            var s, choice := Reached(start, es), LastChoice(start, es);
            LetsInHomeOnly(s) <==> Home(s).Some? || choice.None? || !AddressValid(choice.value)
  {
    hide Boot, Reached;
    TargetsAlways(f, fallback, bonds, es);
    var start := Boot(f, fallback, bonds);
    var s, choice := Reached(start, es), LastChoice(start, es);
    if Home(s).None? && choice.Some? {
      assert Admits(s, choice.value);
    }
  }

  /** The code lets this peer in: an incoming connection it accepts, or a call it makes. */
  predicate LetsIn(s: State, e: Event, peer: Address) {
    || (e.IncomingConnection? && e.peer == peer && e.sound && e.answered && Admits(s, peer))
    || (e.ConnectTimer? && e.called && s.pairing.active.valid && s.pairing.active.address == peer)
  }

  predicate StaysOpen(es: seq<Event>, from: nat, to: nat, peer: Address)
    requires to <= |es|
  {
    forall m :: from < m < to ==> !(es[m].ConnectionLost? && es[m].peer == peer)
  }

  /** The peer was let in at `j`, its link opened at `k` and has been open until `i`. */
  ghost predicate LinkedSince(start: State, es: seq<Event>, j: nat, k: nat, i: nat, peer: Address)
    requires j < k < i <= |es|
  {
    && LetsIn(Reached(start, es[..j]), es[j], peer)
    && es[k].ConnectionOpened? && es[k].success && es[k].peer == peer
    && StaysOpen(es, j, i, peer)
  }

  /** The link was encrypted when it opened, which takes a link key. */
  ghost predicate BondedSince(start: State, es: seq<Event>, j: nat, k: nat, i: nat, peer: Address)
    requires j < k < i <= |es|
  {
    LinkedSince(start, es, j, k, i, peer) && peer in Reached(start, es[..k]).pairing.bonds
  }

  /** Reports come only over open links that were let in and encrypted. */
  ghost predicate BondedRadio(start: State, es: seq<Event>) {
    forall i :: 0 <= i < |es| && es[i].Report? ==>
      exists j: nat, k: nat :: j < k < i && BondedSince(start, es, j, k, i, es[i].peer)
  }

  /** Reports come only over open links, and links open only after they were let in. */
  ghost predicate HonestRadio(start: State, es: seq<Event>) {
    forall i :: 0 <= i < |es| && es[i].Report? ==>
      exists j: nat, k: nat :: j < k < i && LinkedSince(start, es, j, k, i, es[i].peer)
  }

  /**
   * Output is armed by the home controller if and only if the reporting link was let in under the target
   * address that is in force when it arms.
   */
  lemma ArmedByHomeUnlessLinkIsOld(start: State, es: seq<Event>, i: nat) returns (j: nat, k: nat)
    requires Safe(start) && HonestRadio(start, es)
    requires i < |es| && Arms(Reached(start, es[..i]), es[i]) && Home(Reached(start, es[..i])).Some?
    ensures j < k < i && LinkedSince(start, es, j, k, i, es[i].peer)
    ensures var s := Reached(start, es[..i]);
            Home(s) == Some(es[i].peer)
            <==> Reached(start, es[..j]).pairing.active.address == s.pairing.active.address
  {
    hide Reached, StaysOpen;
    j, k :| j < k < i && LinkedSince(start, es, j, k, i, es[i].peer);
    SafeAlways(start, es[..i]);
  }

  /** In particular by nobody else, once the peer's link has closed under the present target. */
  lemma ArmedByHomeOnceClosed(start: State, es: seq<Event>, c: nat, i: nat)
    requires Safe(start) && HonestRadio(start, es)
    requires c < i < |es| && Arms(Reached(start, es[..i]), es[i]) && Home(Reached(start, es[..i])).Some?
    requires es[c].ConnectionLost? && es[c].peer == es[i].peer
    requires forall m :: c < m <= i ==>
               Reached(start, es[..m]).pairing.active.address == Reached(start, es[..i]).pairing.active.address
    ensures Home(Reached(start, es[..i])) == Some(es[i].peer)
  {
    hide Reached, Arms, Home;
    var j, k := ArmedByHomeUnlessLinkIsOld(start, es, i);
    assert j != c && !(j < c < i);
  }

  /** A stale target address opens no door: with nobody stored and nobody selected there is no link key left. */
  lemma NobodyStoredNobodyBonded(f: Flash, fallback: Option<Address>, bonds: set<Address>, es: seq<Event>)
    requires NoStranger(Boot(f, fallback, bonds))
    requires var s := Reached(Boot(f, fallback, bonds), es); !s.pairing.selected && s.store.address.None?
    ensures Reached(Boot(f, fallback, bonds), es).pairing.bonds == {}
  {
    hide Boot, Reached;
    PairingIsATransaction(f, fallback, bonds, es);
  }

  /** The peer is stored, or is the candidate being tried. */
  predicate Known(s: State, peer: Address) {
    peer in Stored(s) + Chosen(s)
  }

  /** The commands that can end that: a rollback of the candidate, or a commit of another one. */
  predicate Forgets(s: State, request: Request, peer: Address) {
    || (s.pairing.selected && s.pairing.active.address == peer && (request.Cancel? || request.StartScanning?))
    || (s.store.address == Some(peer) && request.Confirm? && Commits(s, request.env)
        && s.pairing.active.address != peer)
  }

  lemma RequestForgets(s: State, request: Request, now: uint32, peer: Address)
    requires Core(s) && Known(s, peer) && !Known(Execute(s, request, now), peer)
    ensures Forgets(s, request, peer)
  {
    hide Store, StoreAddress, ControlMapper.Exclusive;
    match request
    case SetConfig(m, env) => StoreKeepsAddress(s.store, m, env);
    case StartScanning =>
    case PairCandidate(_) =>
    case Confirm(env) =>
      if MayCommit(s) {
        StoreAddressCommits(s.store, s.mapping, s.pairing.active.text.value, env);
      }
    case Cancel =>
  }

  lemma {:induction false} RequestsForget(s: State, requests: seq<Request>, now: uint32, peer: Address)
    returns (r: nat)
    requires Core(s) && Known(s, peer) && !Known(ExecuteAll(s, requests, now), peer)
    ensures r < |requests| && Forgets(ExecuteAll(s, requests[..r], now), requests[r], peer)
  {
    hide Core, Execute, Known, Forgets;
    var n := |requests| - 1;
    var before := ExecuteAll(s, requests[..n], now);
    if Known(before, peer) {
      r := n;
      CommandsKeepCore(s, requests[..n], now);
      RequestForgets(before, requests[n], now, peer);
    } else {
      r := RequestsForget(s, requests[..n], now, peer);
      assert requests[..n][..r] == requests[..r];
    }
  }

  /**
   * What makes the receiver forget a peer: the rollback of its selection, by a command, by the app closing or
   * by an unsupported descriptor, or the commit of another controller.
   */
  predicate EventForgets(s: State, e: Event, peer: Address) {
    var trying := s.pairing.selected && s.pairing.active.address == peer;
    || (e.DescriptorAvailable? && !e.supported && trying)
    || (e.SetupPass? && !e.open && trying)
    || (e.SetupPass? && e.open
        && exists r :: 0 <= r < |e.requests|
             && Forgets(ExecuteAll(WithSetup(s, true), e.requests[..r], Clock(e.t)), e.requests[r], peer))
  }

  lemma OnlyTheseForget(s: State, e: Event, peer: Address)
    requires Safe(s) && Known(s, peer) && !Known(Step(s, e), peer)
    ensures EventForgets(s, e, peer)
  {
    hide ControlMapper.Exclusive, Elapsed, ExecuteAll, OnReport, UsbOutput.ServiceUsb, IsCandidate, Forgets;
    if e.Report? {
      ReportKeepsBonds(s, e);
    } else if e.SetupPass? && e.open {
      SessionStaysOpen(WithSetup(s, true), e.requests, Clock(e.t));
      var r := RequestsForget(WithSetup(s, true), e.requests, Clock(e.t), peer);
    }
  }

  /** The peer was known until event `m`, which made the receiver forget it, and not again until `i`. */
  ghost predicate ForgottenAt(start: State, es: seq<Event>, m: nat, i: nat, peer: Address)
    requires m < i <= |es|
  {
    && Known(Reached(start, es[..m]), peer) && EventForgets(Reached(start, es[..m]), es[m], peer)
    && forall n :: m < n <= i ==> !Known(Reached(start, es[..n]), peer)
  }

  lemma {:induction false} LastForgotten(start: State, es: seq<Event>, k: nat, i: nat, peer: Address) returns (m: nat)
    requires Safe(start) && k < i <= |es|
    requires Known(Reached(start, es[..k]), peer) && !Known(Reached(start, es[..i]), peer)
    ensures k <= m < i && ForgottenAt(start, es, m, i, peer)
    decreases i - k
  {
    hide Step, Known, EventForgets, Safe;
    ReachedStep(start, es, k);
    SafeAlways(start, es[..k]);
    if Known(Reached(start, es[..k + 1]), peer) {
      m := LastForgotten(start, es, k + 1, i, peer);
    } else if forall n :: k < n <= i ==> !Known(Reached(start, es[..n]), peer) {
      m := k;
      OnlyTheseForget(Reached(start, es[..k]), es[k], peer);
    } else {
      var n :| k < n <= i && Known(Reached(start, es[..n]), peer);
      m := LastForgotten(start, es, n, i, peer);
    }
  }

  /**
   * Over encrypted links, whoever arms the output is the stored controller, if and only if the receiver has
   * not forgotten it while its link stayed open: by rolling its selection back, or by storing another one.
   */
  lemma ArmedByStoredUnlessForgotten(
    f: Flash, fallback: Option<Address>, bonds: set<Address>, es: seq<Event>, i: nat) returns (j: nat, k: nat)
    requires NoStranger(Boot(f, fallback, bonds)) && BondedRadio(Boot(f, fallback, bonds), es)
    requires i < |es| && Arms(Reached(Boot(f, fallback, bonds), es[..i]), es[i])
    ensures var start := Boot(f, fallback, bonds);
            && j < k < i && BondedSince(start, es, j, k, i, es[i].peer)
            && Known(Reached(start, es[..k]), es[i].peer)
            && (Reached(start, es[..i]).store.address == Some(es[i].peer)
                <==> !exists m :: k <= m < i && ForgottenAt(start, es, m, i, es[i].peer))
  {
    hide Boot, Reached, LinkedSince, EventForgets;
    var start, peer := Boot(f, fallback, bonds), es[i].peer;
    j, k :| j < k < i && BondedSince(start, es, j, k, i, peer);
    PairingIsATransaction(f, fallback, bonds, es[..k]);
    BootIsSafe(f, fallback, bonds);
    assert Known(Reached(start, es[..k]), peer);
    if !Known(Reached(start, es[..i]), peer) {
      var m := LastForgotten(start, es, k, i, peer);
    }
  }

  /** What takes the link down: any connection event, an unsupported descriptor, or failing to accept the target. */
  predicate Unlinks(s: State, e: Event) {
    || e.ConnectionOpened? || e.ConnectionLost?
    || (e.DescriptorAvailable? && !e.supported)
    || (e.IncomingConnection? && e.sound && !e.answered && e.peer == s.pairing.active.address)
  }

  /** A supported descriptor came at `d`, and nothing has taken the link down since. */
  ghost predicate DescribedSince(start: State, es: seq<Event>, d: nat)
    requires d < |es|
  {
    && es[d].DescriptorAvailable? && es[d].supported
    && forall m :: d < m < |es| ==> !Unlinks(Reached(start, es[..m]), es[m])
  }

  lemma LinkMoves(s: State, e: Event)
    ensures var up := Step(s, e).link.descriptorReady && Step(s, e).link.profileActive;
            if Unlinks(s, e) then !up
            else if e.DescriptorAvailable? then up
            else up == (s.link.descriptorReady && s.link.profileActive)
  {
    hide ExecuteAll, Elapsed, ReadReport, IsCandidate, UsbOutput.ServiceUsb;
    if e.SetupPass? {
      CommandsKeepLink(WithSetup(s, true), e.requests, Clock(e.t));
    }
  }

  lemma {:induction false} CommandsKeepLink(s: State, requests: seq<Request>, now: uint32)
    ensures ExecuteAll(s, requests, now).link == s.link
  {
    hide Store, StoreAddress;
    if requests != [] {
      CommandsKeepLink(s, requests[..|requests| - 1], now);
    }
  }

  /** One event more: an earlier descriptor still counts unless the event takes the link down. */
  lemma DescribedGrows(start: State, es: seq<Event>, d: nat)
    requires d < |es| - 1
    ensures var n := |es| - 1;
            DescribedSince(start, es, d)
            <==> DescribedSince(start, es[..n], d) && !Unlinks(Reached(start, es[..n]), es[n])
  {
    hide Reached, Unlinks;
    var n := |es| - 1;
    assert es[..n][d] == es[d];
    assert forall m :: 0 <= m < n ==> es[..n][m] == es[m] && es[..n][..m] == es[..m];
  }

  lemma LastDescribes(start: State, es: seq<Event>)
    requires es != []
    ensures DescribedSince(start, es, |es| - 1) <==> es[|es| - 1].DescriptorAvailable? && es[|es| - 1].supported
  {
    hide Reached, Unlinks;
  }

  /** Reports are looked at exactly while the link has a supported descriptor that came since it was made. */
  lemma {:induction false} LinkIsUpExactly(start: State, es: seq<Event>)
    requires start.link == NO_LINK
    ensures var link := Reached(start, es).link;
            link.descriptorReady && link.profileActive <==> exists d :: 0 <= d < |es| && DescribedSince(start, es, d)
  {
    hide Step, Unlinks, DescribedSince;
    if es != [] {
      var n := |es| - 1;
      var s, e := Reached(start, es[..n]), es[n];
      LinkIsUpExactly(start, es[..n]);
      LinkMoves(s, e);
      forall d | 0 <= d < n
        ensures DescribedSince(start, es, d) <==> DescribedSince(start, es[..n], d) && !Unlinks(s, e)
      {
        DescribedGrows(start, es, d);
      }
      LastDescribes(start, es);
      if e.DescriptorAvailable? {
        DescriptorDecides(s, e);
      }
    }
  }

  lemma DescriptorDecides(s: State, e: Event)
    requires e.DescriptorAvailable?
    ensures Unlinks(s, e) <==> !e.supported
  {
  }
}
