/** Two reports of the known gamepad, what the default mapping makes of them, and a receiver paired with one. */
module SampleReports {
  import opened Types
  import opened RecordCodec
  import opened PersistentConfig
  import opened GamepadReceiver
  import Lite2Report
  import ProductionConfig
  import ControlMapper
  import UsbOutput

  const NEUTRAL_REPORT: seq<bv8> := [0xa1, 0x01, 0, 0, 0, 127, 127, 127, 128, 0, 0]
  const JOG_RIGHT_REPORT: seq<bv8> := [0xa1, 0x01, 0, 1, 0, 255, 127, 127, 128, 0, 0]

  lemma NeutralParses(now: uint32)
    ensures Lite2Report.Parse(NEUTRAL_REPORT, now) == Some(IdleState(now).(connected := true))
  {
  }

  lemma JogRightParses(now: uint32)
    ensures Lite2Report.Parse(JOG_RIGHT_REPORT, now)
            == Some(IdleState(now).(connected := true, leftX := 32767, buttons := 0x00100, deadman := true))
  {
  }

  lemma NoFaceHeld(raw: GamepadState)
    requires raw.buttons in {0, 0x00100}
    ensures forall i :: 0 <= i < 4 ==> !ProductionConfig.Held(raw, ProductionConfig.FaceMask(i))
  {
  }

  lemma NoFaceButton(raw: GamepadState)
    requires raw.buttons in {0, 0x00100}
    ensures ProductionConfig.IsValid(ProductionConfig.DEFAULT_MAPPING)
    ensures var g := ProductionConfig.Mapped(raw, ProductionConfig.DEFAULT_MAPPING);
            g == raw.(deadman := raw.buttons == 0x00100, rapid := false, precision := false,
                      cycleResolution := false, selectResolution := false, cancel := false)
  {
    hide ProductionConfig.Validate;
    var m := ProductionConfig.DEFAULT_MAPPING;
    ProductionConfig.ValidationIsDocumented(m);
    NoFaceHeld(raw);
    assert ProductionConfig.LastStep(raw, m, 1) == raw.selectedResolution;
    assert ProductionConfig.LastStep(raw, m, 3) == raw.selectedResolution;
  }

  lemma ReadsDefault(s: State, report: seq<bv8>, now: uint32)
    requires s.link == Link(true, true, true) && s.mapping == ProductionConfig.DEFAULT_MAPPING
    ensures report == NEUTRAL_REPORT ==> ReadReport(s, report, now) == Some(IdleState(now).(connected := true))
    ensures report == JOG_RIGHT_REPORT ==>
              ReadReport(s, report, now)
              == Some(IdleState(now).(connected := true, leftX := 32767, buttons := 0x00100, deadman := true))
  {
    hide Lite2Report.Parse, ProductionConfig.Mapped;
    NeutralParses(now);
    JogRightParses(now);
    NoFaceButton(IdleState(now).(connected := true));
    NoFaceButton(IdleState(now).(connected := true, leftX := 32767, buttons := 0x00100, deadman := true));
  }

  /** Flash after a first, successful pairing. */
  function PairedFlash(peer: Address): Flash {
    Flash(true, true, Some(EncodeBytes(ProductionConfig.DEFAULT_MAPPING, 1, Some(peer))), None)
  }

  /** A boot with a stored, bonded controller and no compiled address. */
  function PairedBoot(peer: Address): State {
    Boot(PairedFlash(peer), None, {peer})
  }

  lemma PairedBootIs(peer: Address)
    requires AddressValid(peer)
    ensures var s := PairedBoot(peer);
            && s == Boot(PairedFlash(peer), None, {peer})
            && s.store.address == Some(peer) && s.mapping == ProductionConfig.DEFAULT_MAPPING
            && s.pairing == Pairing(Target(peer, true, Some(peer)), None, false, false, 0, false, false, 0, {peer})
            && s.link == NO_LINK && s.arming == Arming(true, 0) && s.setup == Setup(false, false)
            && s.mapper == ControlMapper.INITIAL_MAPPER && s.output == UsbOutput.INITIAL_OUTPUT
  {
    hide EncodeBytes, DecodeBytes, ProductionConfig.Validate;
    ProductionConfig.ValidationIsDocumented(ProductionConfig.DEFAULT_MAPPING);
    StoredIsRecovered(ProductionConfig.DEFAULT_MAPPING, 1, Some(peer));
  }
}
