/** The pairing commands and radio events in full, field by field. */
module PairingCommands {
  import opened Types
  import opened MassoKeyboard
  import opened RecordCodec
  import opened PersistentConfig
  import opened GamepadReceiver

  /** The target after a rollback: the stored controller, else the compiled one, else an address no longer valid. */
  function HomeTarget(s: State): Target {
    var stored, compiled := s.store.address, s.fallback;
    if stored.Some? then Target(stored.value, true, stored)
    else if compiled.Some? then Target(compiled.value, true, compiled)
    else Target(s.pairing.active.address, false, None)
  }

  /** A link key that a rollback drops: that of the candidate, unless it is the stored controller. */
  predicate Dropped(s: State, a: Address) {
    s.pairing.selected && s.pairing.active.text == Some(a) && s.store.address != Some(a)
  }

  lemma CancelInFull(s: State)
    ensures var q := CancelPairing(s).pairing;
            && CancelPairing(s) == s.(pairing := q)
            && q == Pairing(HomeTarget(s), s.pairing.candidate, false, false, s.pairing.scanRequestedMs,
                            false, false, 0, q.bonds)
            && forall a :: a in q.bonds <==> a in s.pairing.bonds && !Dropped(s, a)
  {
  }

  lemma ScanInFull(s: State, now: uint32)
    ensures var x := StartScan(s, now);
            && x == s.(pairing := x.pairing, output := s.output.(desired := RELEASED), arming := s.arming.(rearm := true))
            && x.pairing == Pairing(if s.pairing.selected then HomeTarget(s) else s.pairing.active, None, false, true, now,
                                    false, false, 0, x.pairing.bonds)
            && forall a :: a in x.pairing.bonds <==> a in s.pairing.bonds && !Dropped(s, a)
  {
  }

  lemma SelectInFull(s: State, address: Address)
    ensures var x := SelectCandidate(s, address);
            if s.pairing.candidate != Some(address) then x == s
            else
              && x == s.(pairing := x.pairing)
              && x.pairing == Pairing(Target(address, true, Some(address)), Some(address), false, false,
                                      s.pairing.scanRequestedMs, true, false, 0, x.pairing.bonds)
              && forall a :: a in x.pairing.bonds <==>
                   a in s.pairing.bonds && (a != address || s.store.address == Some(address))
  {
  }

  /** A commit keeps the candidate as target, ends the selection, disarms, and drops the key of the one replaced. */
  lemma ConfirmInFull(s: State, env: StoreEnv)
    ensures var x := ConfirmPairing(s, env);
            if !Commits(s, env) then x == s.(store := x.store)
            else
              && x == s.(store := x.store, arming := s.arming.(rearm := true), pairing := x.pairing)
              && x.pairing == s.pairing.(selected := false, chordConfirmed := false, chordStarted := 0,
                                         bonds := x.pairing.bonds)
              && forall a :: a in x.pairing.bonds <==>
                   a in s.pairing.bonds && !(s.store.address == Some(a) && s.pairing.active.text != Some(a))
  {
    hide StoreAddress;
  }

  /** The advertised name, as a C string, is that of the known gamepad. */
  predicate IsNamedLite2(name: string) {
    13 <= |name| && name[..13] == "8BitDo Lite 2" && (|name| == 13 || name[13] == '\0')
  }

  /** A device becomes the candidate exactly while a scan runs and its name or its class is the known one. */
  lemma InquiryInFull(s: State, found: Inquiry)
    ensures var known := found.deviceClass == 0x002508 || (found.name.Some? && IsNamedLite2(found.name.value));
            OnInquiry(s, found)
            == s.(pairing := s.pairing.(candidate := if s.pairing.scanActive && known then Some(found.address)
                                                     else s.pairing.candidate))
  {
    if found.name.Some? {
      var name := found.name.value;
      var kept := if |name| <= 63 then name else name[..63];
      UpToZeroIs(kept, LITE2_NAME);
      assert 13 <= |name| ==> kept[..13] == name[..13];
    }
  }

  lemma {:induction false} UpToZeroIs(text: string, word: string)
    requires '\0' !in word
    ensures UpToZero(text) == word <==>
              |word| <= |text| && text[..|word|] == word && (|text| == |word| || text[|word|] == '\0')
  {
    if text != "" && text[0] != '\0' && word != "" {
      UpToZeroIs(text[1..], word[1..]);
      assert word == [word[0]] + word[1..];
      assert |word| <= |text| ==> text[..|word|] == [text[0]] + text[1..][..|word| - 1];
    } else if text != "" && word != "" && |word| <= |text| {
      assert text[..|word|][0] == text[0] && word[0] in word;
    }
  }

  /** Pairing over the air is allowed for the candidate alone, in an open session. */
  lemma ConfirmationInFull(s: State, address: Address, bonded: bool)
    ensures var x := OnConfirmationRequest(s, address, bonded);
            && x == s.(pairing := s.pairing.(bonds := x.pairing.bonds))
            && forall a :: a in x.pairing.bonds <==>
                 || a in s.pairing.bonds
                 || (a == address && bonded && s.setup.active && s.pairing.selected && s.pairing.active.address == a)
  {
  }

  /** The end of an inquiry, a connection, and a descriptor. */
  lemma LinkEventsInFull(s: State, e: Event)
    ensures e.InquiryComplete? ==> Step(s, e) == s.(pairing := s.pairing.(scanActive := false))
    ensures e.ConnectTimer? ==> Step(s, e) == s
    ensures e.ConnectionOpened? ==>
              Step(s, e) == s.(link := Link(e.success, false, false), arming := Arming(true, 0),
                               output := s.output.(desired := RELEASED))
    ensures e.ConnectionLost? || (e.IncomingConnection? && e.sound && !e.answered && e.peer == s.pairing.active.address) ==>
              Step(s, e) == s.(link := Link(false, false, false), arming := Arming(true, 0),
                               output := s.output.(desired := RELEASED))
    ensures e.IncomingConnection? && (!e.sound || e.answered || e.peer != s.pairing.active.address) ==> Step(s, e) == s
    ensures e.DescriptorAvailable? && e.supported ==>
              Step(s, e) == s.(link := Link(s.link.connected, true, true))
    ensures e.DescriptorAvailable? && !e.supported ==>
              var down := s.(link := Link(false, false, false), arming := Arming(true, 0),
                             output := s.output.(desired := RELEASED));
              Step(s, e) == if s.pairing.selected then down.(pairing := CancelPairing(s).pairing) else down
  {
    hide ExecuteAll, Elapsed, ReadReport, IsCandidate;
  }

  /** The end of a setup pass. */
  lemma SettleInFull(s: State)
    ensures var x := AfterSetup(s);
            && x.setup == Setup(s.setup.active, s.setup.active)
            && (s.setup.active ==>
                  x == s.(setup := x.setup, arming := s.arming.(rearm := true), output := s.output.(desired := RELEASED)))
            && (!s.setup.active ==>
                  x == s.(setup := x.setup,
                          pairing := if s.setup.wasActive
                                        && (s.pairing.selected || s.pairing.scanActive || s.pairing.scanRequested) then
                                       CancelPairing(s).pairing
                                     else s.pairing))
  {
  }
}
