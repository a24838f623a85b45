/** Pairing as a transaction: what is bonded, what is stored, and what a commit takes. */
module GamepadPairing {
  import opened Types
  import opened RecordCodec
  import opened PersistentConfig
  import opened GamepadReceiver
  import opened GamepadSafety
  import opened ProductionConfig
  import Lite2Report
  import AtomicRegister
  import MassoKeyboard
  import ControlMapper
  import UsbOutput

  function Stored(s: State): set<Address> {
    if s.store.address.Some? then {s.store.address.value} else {}
  }

  function Chosen(s: State): set<Address> {
    if s.pairing.selected then {s.pairing.active.address} else {}
  }

  /** Only the stored controller and the candidate being tried ever have link keys. */
  predicate NoStranger(s: State) {
    s.pairing.bonds <= Stored(s) + Chosen(s)
  }

  /** The stored controller has its link key. */
  predicate StoredIsBonded(s: State) {
    Stored(s) <= s.pairing.bonds
  }

  lemma CancelDropsCandidate(s: State)
    requires Core(s)
    ensures NoStranger(s) ==> NoStranger(CancelPairing(s))
    ensures StoredIsBonded(s) ==> StoredIsBonded(CancelPairing(s))
    ensures CancelPairing(s).store == s.store
  {
  }

  lemma RequestKeepsBonds(s: State, request: Request, now: uint32)
    requires Core(s)
    ensures NoStranger(s) ==> NoStranger(Execute(s, request, now))
    ensures StoredIsBonded(s) ==> StoredIsBonded(Execute(s, request, now))
    ensures Execute(s, request, now).store.address
            == if request.Confirm? && Commits(s, request.env) then s.pairing.active.text else s.store.address
  {
    hide Store, StoreAddress, ControlMapper.Exclusive;
    match request
    case SetConfig(m, env) => StoreKeepsAddress(s.store, m, env);
    case StartScanning => CancelDropsCandidate(s);
    case PairCandidate(_) =>
    case Confirm(env) =>
      if MayCommit(s) {
        StoreAddressCommits(s.store, s.mapping, s.pairing.active.text.value, env);
      }
    case Cancel => CancelDropsCandidate(s);
  }

  lemma {:induction false} RequestsKeepBonds(s: State, requests: seq<Request>, now: uint32)
    requires Core(s)
    ensures NoStranger(s) ==> NoStranger(ExecuteAll(s, requests, now))
    ensures StoredIsBonded(s) ==> StoredIsBonded(ExecuteAll(s, requests, now))
  {
    hide Core, Execute, NoStranger, StoredIsBonded;
    if requests != [] {
      var before := ExecuteAll(s, requests[..|requests| - 1], now);
      RequestsKeepBonds(s, requests[..|requests| - 1], now);
      CommandsKeepCore(s, requests[..|requests| - 1], now);
      RequestKeepsBonds(before, requests[|requests| - 1], now);
    }
  }

  lemma SetupKeepsBonds(s: State, open: bool, requests: seq<Request>, now: uint32)
    requires Safe(s)
    ensures NoStranger(s) ==> NoStranger(OnSetup(s, open, requests, now))
    ensures StoredIsBonded(s) ==> StoredIsBonded(OnSetup(s, open, requests, now))
  {
    hide ExecuteAll, CancelPairing, ControlMapper.Exclusive;
    if open {
      RequestsKeepBonds(WithSetup(s, true), requests, now);
      SessionStaysOpen(WithSetup(s, true), requests, now);
    } else {
      CancelDropsCandidate(WithSetup(s, false));
    }
  }

  lemma EventKeepsBonds(s: State, e: Event)
    requires Safe(s)
    ensures NoStranger(s) ==> NoStranger(Step(s, e))
    ensures StoredIsBonded(s) ==> StoredIsBonded(Step(s, e))
  {
    if e.SetupPass? {
      hide OnSetup, Safe, NoStranger, StoredIsBonded;
      SetupKeepsBonds(s, e.open, e.requests, Clock(e.t));
    } else if e.DescriptorAvailable? {
      hide Core, CancelPairing;
      FailClosedKeepsCore(s);
      CancelDropsCandidate(FailClosed(s));
    } else if e.Report? {
      ReportKeepsBonds(s, e);
    } else {
      hide ControlMapper.Exclusive, Elapsed, OnDescriptor, OnReport, OnSetup, UsbOutput.ServiceUsb;
    }
  }

  lemma ReportKeepsBonds(s: State, e: Event)
    requires e.Report?
    ensures var s' := Step(s, e);
            && s'.store == s.store && s'.pairing.bonds == s.pairing.bonds
            && s'.pairing.selected == s.pairing.selected && s'.pairing.active == s.pairing.active
  {
    hide ReadReport, SafeToArm, HoldsChord, Elapsed,
      ControlMapper.Next, ControlMapper.Output, MassoKeyboard.CncReport;
  }

  lemma FailClosedKeepsCore(s: State)
    requires Core(s)
    ensures Core(FailClosed(s))
  {
    hide ControlMapper.Exclusive;
  }

  /**
   * Over every run of a boot that starts with no stray link keys there is never a stray one. Without a
   * candidate the target text is that of the stored or compiled controller, and the target address is too
   * where there is one. Once the stored controller is bonded it stays bonded, through every failed, cancelled
   * or abandoned attempt and every commit.
   */
  lemma {:induction false} PairingIsATransaction(
    f: Flash, fallback: Option<Address>, bonds: set<Address>, es: seq<Event>)
    requires NoStranger(Boot(f, fallback, bonds))
    ensures var s := Reached(Boot(f, fallback, bonds), es);
            && NoStranger(s)
            && (StoredIsBonded(Boot(f, fallback, bonds)) ==> StoredIsBonded(s))
            && (!s.pairing.selected ==> s.pairing.active == Aim(s.pairing.active, HomeAddress(s.store.address, s.fallback)))
            && (!s.setup.active ==> !s.pairing.selected)
  {
    hide Step, NoStranger, StoredIsBonded, Load, Boot;
    var start := Boot(f, fallback, bonds);
    BootIsSafe(f, fallback, bonds);
    SafeAlways(start, es);
    if es != [] {
      PairingIsATransaction(f, fallback, bonds, es[..|es| - 1]);
      SafeAlways(start, es[..|es| - 1]);
      EventKeepsBonds(Reached(start, es[..|es| - 1]), es[|es| - 1]);
    }
  }

  /** A readable report with L2, R2 and Plus all down in its raw button word. */
  predicate ChordReport(s: State, e: Event) {
    Readable(s, e) && ChordDown(RawOf(s, e).buttons)
  }

  predicate ChordDown(buttons: bv32) {
    buttons & 0x00100 != 0 && buttons & 0x00200 != 0 && buttons & 0x00800 != 0
  }

  lemma ChordIsThreeButtons(g: GamepadState)
    ensures HoldsChord(g) <==> ChordDown(g.buttons)
  {
  }

  lemma ChordIsRaw(raw: GamepadState, m: ProductionMapping)
    ensures HoldsChord(Mapped(raw, m)) <==> ChordDown(raw.buttons)
  {
    hide Mapped, HoldsChord, ChordDown;
    MappedKeepsTheRest(raw, m);
    ChordIsThreeButtons(Mapped(raw, m));
  }

  /**
   * The chord in full. While a candidate is tried in an open session, a readable report with the chord starts
   * or continues its clock, one without it clears it, and it matures exactly when the clock shows 3000 ms.
   */
  lemma ChordIsExact(s: State, e: Event)
    requires Readable(s, e) && s.pairing.selected && s.setup.active
    ensures var p, q := s.pairing, Step(s, e).pairing;
            && q.chordStarted == (if !ChordReport(s, e) then 0
                                  else if p.chordStarted == 0 then Clock(e.t) else p.chordStarted)
            && (q.chordConfirmed <==>
                  p.chordConfirmed
                  || (ChordReport(s, e) && (Clock(e.t) - q.chordStarted) % 0x1_0000_0000 >= 3000))
  {
    hide Mapped, HoldsChord, ChordDown, Lite2Report.Parse;
    ChordIsRaw(RawOf(s, e), s.mapping);
  }

  /** In real time: a chord clocked since `since` matures at exactly the first report 3000 ms later. */
  lemma ChordMatures(s: State, e: Event, since: nat)
    requires s.pairing.selected && s.setup.active && ChordReport(s, e)
    requires s.pairing.chordStarted == Clock(since) != 0 && since <= e.t < since + 0x1_0000_0000
    ensures Step(s, e).pairing.chordConfirmed <==> s.pairing.chordConfirmed || e.t - since >= 3000
  {
    hide Step, ChordDown, Lite2Report.Parse;
    ChordIsExact(s, e);
    ElapsedAcrossWraps(since, e.t);
  }

  /** The same candidate stays selected. */
  predicate SameChoice(before: Pairing, after: Pairing) {
    before.selected && after.selected && before.active == after.active
  }

  /** A command leaves the chord alone, or forgets it entirely. */
  predicate ChordKeptOrForgotten(before: Pairing, after: Pairing) {
    || (after.chordStarted == 0 && !after.chordConfirmed)
    || (after.chordStarted == before.chordStarted && after.chordConfirmed == before.chordConfirmed
        && after.selected == before.selected && after.active == before.active)
  }

  lemma RequestKeepsOrForgets(s: State, request: Request, now: uint32)
    ensures ChordKeptOrForgotten(s.pairing, Execute(s, request, now).pairing)
  {
    hide Store, StoreAddress;
  }

  lemma {:induction false} RequestsKeepOrForget(s: State, requests: seq<Request>, now: uint32)
    ensures ChordKeptOrForgotten(s.pairing, ExecuteAll(s, requests, now).pairing)
  {
    hide Execute;
    if requests != [] {
      RequestsKeepOrForget(s, requests[..|requests| - 1], now);
      RequestKeepsOrForgets(ExecuteAll(s, requests[..|requests| - 1], now), requests[|requests| - 1], now);
    }
  }

  lemma SetupKeepsOrForgets(s: State, open: bool, requests: seq<Request>, now: uint32)
    ensures ChordKeptOrForgotten(s.pairing, OnSetup(s, open, requests, now).pairing)
  {
    hide ExecuteAll;
    RequestsKeepOrForget(WithSetup(s, true), requests, now);
  }

  /** One event either forgets the chord, leaves it, starts it, or lets it mature. */
  lemma ChordMoves(s: State, e: Event)
    requires Safe(s)
    ensures var p, q := s.pairing, Step(s, e).pairing;
            && (q.chordStarted != 0 ==>
                  && SameChoice(p, q)
                  && (Readable(s, e) ==> ChordReport(s, e))
                  && (q.chordStarted == p.chordStarted
                      || (p.chordStarted == 0 && ChordReport(s, e) && q.chordStarted == Clock(e.t))))
            && (q.chordConfirmed ==>
                  && SameChoice(p, q)
                  && (p.chordConfirmed
                      || (ChordReport(s, e) && q.chordStarted != 0
                          && Elapsed(Clock(e.t), q.chordStarted) >= 3000)))
  {
    hide ControlMapper.Exclusive, HoldsChord, SafeToArm, ControlMapper.Next, ControlMapper.Output,
      MassoKeyboard.CncReport, UsbOutput.ServiceUsb, OnSetup, Mapped, ChordDown, Lite2Report.Parse, IsCandidate;
    if e.SetupPass? {
      SetupKeepsOrForgets(s, e.open, e.requests, Clock(e.t));
    } else if Readable(s, e) {
      ChordIsRaw(RawOf(s, e), s.mapping);
    }
  }

  /** From event `i` on, the candidate stays selected, and every valid report up to `j` holds the chord. */
  ghost predicate HeldThrough(start: State, es: seq<Event>, i: nat, j: nat)
    requires i <= j <= |es|
  {
    && (forall m :: i <= m <= |es| ==> SameChoice(Reached(start, es[..m]).pairing, Reached(start, es).pairing))
    && (forall m :: i <= m < j && Readable(Reached(start, es[..m]), es[m]) ==>
          ChordReport(Reached(start, es[..m]), es[m]))
  }

  lemma HeldThroughGrows(start: State, es: seq<Event>, i: nat, j: nat, j': nat)
    requires es != [] && i <= j <= j' <= |es| && j <= |es| - 1
    requires HeldThrough(start, es[..|es| - 1], i, j)
    requires SameChoice(Reached(start, es[..|es| - 1]).pairing, Reached(start, es).pairing)
    requires j' == j || (j == |es| - 1 && j' == |es|
                         && (Readable(Reached(start, es[..j]), es[j]) ==> ChordReport(Reached(start, es[..j]), es[j])))
    ensures HeldThrough(start, es, i, j')
  {
    hide Reached, Readable, ChordReport;
    var n := |es| - 1;
    assert es[..n + 1] == es;
    forall m | i <= m <= |es|
      ensures SameChoice(Reached(start, es[..m]).pairing, Reached(start, es).pairing)
    {
      if m <= n {
        PrefixOfPrefix(es, n, m);
      }
    }
    forall m | i <= m < j' && Readable(Reached(start, es[..m]), es[m])
      ensures ChordReport(Reached(start, es[..m]), es[m])
    {
      if m < j {
        PrefixOfPrefix(es, n, m);
      }
    }
  }

  lemma HeldAtOnce(start: State, es: seq<Event>)
    requires Reached(start, es).pairing.selected
    ensures HeldThrough(start, es, |es|, |es|)
  {
    hide Reached;
    assert es[..|es|] == es;
  }

  /** A running chord was started by a report, and every valid report since has held it. */
  lemma {:induction false} ChordStartedBy(start: State, es: seq<Event>) returns (i: nat)
    requires Safe(start) && start.pairing.chordStarted == 0
    requires Reached(start, es).pairing.chordStarted != 0
    ensures i < |es| && ChordReport(Reached(start, es[..i]), es[i])
    ensures Reached(start, es).pairing.chordStarted == Clock(es[i].t)
    ensures HeldThrough(start, es, i, |es|)
  {
    hide Step, Safe, Readable, ChordReport, HeldThrough;
    var n := |es| - 1;
    var s := Reached(start, es[..n]);
    SafeAlways(start, es[..n]);
    ChordMoves(s, es[n]);
    if s.pairing.chordStarted == 0 {
      i := n;
      HeldAtOnce(start, es[..n]);
    } else {
      i := ChordStartedBy(start, es[..n]);
      PrefixOfPrefix(es, n, i);
    }
    HeldThroughGrows(start, es, i, n, |es|);
  }

  /** A matured chord was held in every valid report across at least three seconds. */
  lemma {:induction false} ChordConfirmedBy(start: State, es: seq<Event>) returns (i: nat, j: nat)
    requires Safe(start) && start.pairing.chordStarted == 0 && !start.pairing.chordConfirmed
    requires forall a, b :: 0 <= a <= b < |es| ==> es[a].t <= es[b].t
    requires Reached(start, es).pairing.chordConfirmed
    ensures i <= j < |es| && es[j].t - es[i].t >= 3000
    ensures ChordReport(Reached(start, es[..i]), es[i]) && ChordReport(Reached(start, es[..j]), es[j])
    ensures HeldThrough(start, es, i, j + 1)
  {
    hide Step, Safe, Readable, ChordReport, HeldThrough, Elapsed;
    var n := |es| - 1;
    var s := Reached(start, es[..n]);
    SafeAlways(start, es[..n]);
    ChordMoves(s, es[n]);
    if s.pairing.chordConfirmed {
      i, j := ChordConfirmedBy(start, es[..n]);
      PrefixOfPrefix(es, n, i);
      PrefixOfPrefix(es, n, j);
      HeldThroughGrows(start, es, i, j + 1, j + 1);
    } else {
      i := ChordStartedBy(start, es);
      j := n;
      ElapsedAcrossWraps(es[i].t, es[n].t);
    }
  }

  /**
   * A confirmation commits exactly when the chord of the selected candidate has matured, the candidate is
   * bonded and has a real address, and flash takes the complete record and reads it back.
   */
  lemma CommitsExactly(s: State, env: StoreEnv)
    requires Core(s) && AtomicRegister.InSync(DeviceOf(s))
    ensures Commits(s, env) <==>
              var p, address := s.pairing, s.pairing.active.address;
              && p.selected && p.chordConfirmed && address in p.bonds
              && AddressValid(address) && s.store.flash.present && env.accepted
              && env.readback == Some(EncodeBytes(s.mapping, (s.store.sequence + 1) % 0x1_0000_0000, Some(address)))
  {
    hide StoreAddress, EncodeBytes, AtomicRegister.InSync, ControlMapper.Exclusive;
    if MayCommit(s) {
      AtomicRegister.PairSucceedsExactly(DeviceOf(s), s.pairing.active.text.value, env);
    }
  }

  /** What it takes to store `address`: its chord was held across three seconds before, while it stayed selected. */
  ghost predicate EarnedByChord(start: State, es: seq<Event>, address: Address, i: nat, j: nat)
    requires i <= j < |es|
  {
    && es[j].t - es[i].t >= 3000
    && ChordReport(Reached(start, es[..i]), es[i]) && ChordReport(Reached(start, es[..j]), es[j])
    && HeldThrough(start, es, i, j + 1)
    && Reached(start, es).pairing.active == Target(address, true, Some(address))
  }

  /** Within one setup pass the stored address stays, or becomes the candidate whose chord had matured. */
  lemma {:induction false} AddressMovesOnce(s: State, requests: seq<Request>, now: uint32)
    requires Core(s)
    ensures var x := ExecuteAll(s, requests, now);
            || x.store.address == s.store.address
            || (s.pairing.chordConfirmed && x.store.address == s.pairing.active.text && !x.pairing.chordConfirmed)
  {
    hide Core, Execute, StoreAddress;
    if requests != [] {
      var n := |requests| - 1;
      var before := ExecuteAll(s, requests[..n], now);
      AddressMovesOnce(s, requests[..n], now);
      CommandsKeepCore(s, requests[..n], now);
      RequestKeepsBonds(before, requests[n], now);
      RequestsKeepOrForget(s, requests[..n], now);
      RequestKeepsOrForgets(before, requests[n], now);
      if requests[n].Confirm? && Commits(before, requests[n].env) {
        CommitEndsSelection(before, requests[n].env, now);
      }
    }
  }

  lemma CommitEndsSelection(s: State, env: StoreEnv, now: uint32)
    requires Commits(s, env)
    ensures s.pairing.chordConfirmed && !Execute(s, Confirm(env), now).pairing.chordConfirmed
  {
    hide StoreAddress;
  }

  lemma AddressMovesOnlyInSetup(s: State, e: Event)
    requires Safe(s)
    requires Step(s, e).store.address != s.store.address
    ensures s.pairing.chordConfirmed && Step(s, e).store.address == s.pairing.active.text
  {
    hide ControlMapper.Exclusive, ExecuteAll, Elapsed, ReadReport;
    if e.SetupPass? && e.open {
      AddressMovesOnce(WithSetup(s, true), e.requests, Clock(e.t));
      SetupKeepsCommands(s, e.requests, Clock(e.t));
    } else {
      EventKeepsStore(s, e);
    }
  }

  /**
   * The stored controller changes only to a candidate that stayed selected while its confirmation chord
   * was held in every valid report across at least three seconds.
   */
  lemma StoredAddressIsEarned(start: State, es: seq<Event>, n: nat) returns (i: nat, j: nat)
    requires Safe(start) && start.pairing.chordStarted == 0 && !start.pairing.chordConfirmed
    requires forall a, b :: 0 <= a <= b < |es| ==> es[a].t <= es[b].t
    requires n < |es| && Reached(start, es[..n + 1]).store.address != Reached(start, es[..n]).store.address
    ensures i <= j < n && Reached(start, es[..n + 1]).store.address.Some?
    ensures EarnedByChord(start, es[..n], Reached(start, es[..n + 1]).store.address.value, i, j)
  {
    hide Step, Safe, ChordReport, HeldThrough;
    SafeAlways(start, es[..n]);
    ReachedStep(start, es, n);
    AddressMovesOnlyInSetup(Reached(start, es[..n]), es[n]);
    i, j := ChordConfirmedBy(start, es[..n]);
    ConfirmedIsSelected(Reached(start, es[..n]));
  }

  lemma ConfirmedIsSelected(s: State)
    requires Safe(s) && s.pairing.chordConfirmed
    ensures s.pairing.active.text.Some?
    ensures var text := s.pairing.active.text; s.pairing.active == Target(text.value, true, text)
  {
  }

  /** Every commit, even one that stores the same address again, takes such a chord. */
  lemma CommitIsEarned(start: State, es: seq<Event>, n: nat, r: nat) returns (i: nat, j: nat)
    requires Safe(start) && start.pairing.chordStarted == 0 && !start.pairing.chordConfirmed
    requires forall a, b :: 0 <= a <= b < |es| ==> es[a].t <= es[b].t
    requires n < |es| && es[n].SetupPass? && es[n].open
    requires r < |es[n].requests| && es[n].requests[r].Confirm?
    requires var s := WithSetup(Reached(start, es[..n]), true);
             Commits(ExecuteAll(s, es[n].requests[..r], Clock(es[n].t)), es[n].requests[r].env)
    ensures var s := WithSetup(Reached(start, es[..n]), true);
            var committed := ExecuteAll(s, es[n].requests[..r], Clock(es[n].t)).pairing.active.text;
            i <= j < n && committed.Some? && EarnedByChord(start, es[..n], committed.value, i, j)
  {
    hide Step, Safe, ChordReport, HeldThrough, ExecuteAll, StoreAddress;
    var s := Reached(start, es[..n]);
    SafeAlways(start, es[..n]);
    RequestsKeepOrForget(WithSetup(s, true), es[n].requests[..r], Clock(es[n].t));
    i, j := ChordConfirmedBy(start, es[..n]);
    ConfirmedIsSelected(s);
  }

  /** A requested scan is given up exactly when the timer comes more than 65 seconds after the request. */
  lemma ScanTimerIsExact(s: State, started: bool, since: nat, now: nat)
    requires s.pairing.scanRequested && s.pairing.scanRequestedMs == Clock(since)
    requires since <= now < since + 0x1_0000_0000
    ensures var p, q := s.pairing, OnScanTimer(s, started, Clock(now)).pairing;
            if now - since > 65000 then q == p.(scanRequested := false)
            else if started then q == p.(scanActive := true, scanRequested := false)
            else q == p
  {
    ElapsedAcrossWraps(since, now);
  }

  /** The selected candidate is not the stored controller, and has a link key. */
  predicate NewlyBonded(s: State) {
    s.pairing.selected && s.pairing.active.address in s.pairing.bonds
    && s.store.address != Some(s.pairing.active.address)
  }

  /** No command can give a candidate its link key: selecting drops it. */
  lemma RequestBondsNobody(s: State, request: Request, now: uint32)
    requires Core(s) && NewlyBonded(Execute(s, request, now))
    ensures NewlyBonded(s) && SameChoice(s.pairing, Execute(s, request, now).pairing)
  {
    hide Store, StoreAddress, ControlMapper.Exclusive;
    match request
    case SetConfig(m, env) => StoreKeepsAddress(s.store, m, env);
    case StartScanning =>
    case PairCandidate(_) =>
    case Confirm(env) =>
      if MayCommit(s) {
        StoreAddressCommits(s.store, s.mapping, s.pairing.active.text.value, env);
      }
    case Cancel =>
  }

  lemma {:induction false} RequestsBondNobody(s: State, requests: seq<Request>, now: uint32)
    requires Core(s) && NewlyBonded(ExecuteAll(s, requests, now))
    ensures NewlyBonded(s) && SameChoice(s.pairing, ExecuteAll(s, requests, now).pairing)
  {
    hide Core, Execute, NewlyBonded;
    var n := |requests| - 1;
    if requests == [] {
      BondedIsChosen(s);
    } else {
      CommandsKeepCore(s, requests[..n], now);
      RequestBondsNobody(ExecuteAll(s, requests[..n], now), requests[n], now);
      RequestsBondNobody(s, requests[..n], now);
    }
  }

  lemma BondedIsChosen(s: State)
    requires NewlyBonded(s)
    ensures s.pairing.selected
  {
  }

  /** The selected candidate pairs over the air. */
  predicate Pairs(s: State, e: Event, address: Address) {
    e.ConfirmationRequest? && e.bonded && e.address == address
  }

  lemma OnlyPairingBonds(s: State, e: Event)
    requires Safe(s) && NewlyBonded(Step(s, e))
    ensures SameChoice(s.pairing, Step(s, e).pairing)
    ensures NewlyBonded(s) || Pairs(s, e, s.pairing.active.address)
  {
    hide ControlMapper.Exclusive, Elapsed, ExecuteAll, OnReport, UsbOutput.ServiceUsb, IsCandidate;
    if e.Report? {
      ReportKeepsBonds(s, e);
    } else if e.SetupPass? && e.open {
      SessionStaysOpen(WithSetup(s, true), e.requests, Clock(e.t));
      RequestsBondNobody(WithSetup(s, true), e.requests, Clock(e.t));
    }
  }

  /** A new candidate's link key was made while it was selected, and it has stayed selected since. */
  lemma {:induction false} BondIsFresh(start: State, es: seq<Event>) returns (c: nat)
    requires Safe(start) && !start.pairing.selected && NewlyBonded(Reached(start, es))
    ensures c < |es| && Pairs(Reached(start, es[..c]), es[c], Reached(start, es).pairing.active.address)
    ensures forall m :: c <= m <= |es| ==> SameChoice(Reached(start, es[..m]).pairing, Reached(start, es).pairing)
  {
    hide Step, Safe, Pairs;
    assert es != [];
    var n := |es| - 1;
    assert es[..n + 1] == es;
    SafeAlways(start, es[..n]);
    OnlyPairingBonds(Reached(start, es[..n]), es[n]);
    if NewlyBonded(Reached(start, es[..n])) {
      c := BondIsFresh(start, es[..n]);
      PrefixOfPrefix(es, n, c);
      forall m | c <= m <= |es|
        ensures SameChoice(Reached(start, es[..m]).pairing, Reached(start, es).pairing)
      {
        if m <= n {
          PrefixOfPrefix(es, n, m);
        }
      }
    } else {
      c := n;
    }
  }

  /** A commit of another controller than the stored one takes a link key made during this very selection. */
  lemma CommitTakesFreshBond(start: State, es: seq<Event>, n: nat, r: nat) returns (c: nat)
    requires Safe(start) && !start.pairing.selected
    requires n < |es| && es[n].SetupPass? && es[n].open && r < |es[n].requests| && es[n].requests[r].Confirm?
    requires var x := ExecuteAll(WithSetup(Reached(start, es[..n]), true), es[n].requests[..r], Clock(es[n].t));
             Commits(x, es[n].requests[r].env) && x.store.address != Some(x.pairing.active.address)
    ensures var x := ExecuteAll(WithSetup(Reached(start, es[..n]), true), es[n].requests[..r], Clock(es[n].t));
            c < n && Pairs(Reached(start, es[..c]), es[c], x.pairing.active.address)
    ensures forall m :: c <= m <= n ==> SameChoice(Reached(start, es[..m]).pairing, Reached(start, es[..n]).pairing)
  {
    hide Step, Safe, Pairs, ExecuteAll, StoreAddress;
    var s := Reached(start, es[..n]);
    SafeAlways(start, es[..n]);
    SafeIsCore(s);
    RequestsBondNobody(WithSetup(s, true), es[n].requests[..r], Clock(es[n].t));
    c := BondIsFresh(start, es[..n]);
    PrefixOfPrefix(es, n, c);
    assert forall m :: c <= m <= n ==> es[..n][..m] == es[..m];
  }

  lemma SafeIsCore(s: State)
    requires Safe(s)
    ensures Core(WithSetup(s, true))
  {
    hide ControlMapper.Exclusive;
  }
}
