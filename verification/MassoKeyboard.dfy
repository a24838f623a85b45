/** The MASSO G3 keyboard translator: one safety-filtered frame to one boot keyboard report. */
module MassoKeyboard {
  import opened Types

  /** Boot layout of Appendix B.1 of the USB HID 1.11 specification. */
  datatype KeyboardReport = KeyboardReport(
    modifier: byte, reserved: byte, key0: byte, key1: byte, key2: byte, key3: byte, key4: byte, key5: byte)

  const RELEASED := KeyboardReport(0, 0, 0, 0, 0, 0, 0, 0)

  const LEFT_SHIFT: byte := 0x02
  const KEY_D: byte := 0x07
  const KEY_U: byte := 0x18
  const KEY_1: byte := 0x1e
  const KEY_2: byte := 0x1f
  const KEY_3: byte := 0x20
  const KEY_4: byte := 0x21
  const KEY_RIGHT: byte := 0x4f
  const KEY_LEFT: byte := 0x50
  const KEY_DOWN: byte := 0x51
  const KEY_UP: byte := 0x52

  type CncProfileId = byte

  const MASSO_G3_TOUCH_5_13: CncProfileId := 0

  predicate HasKey(r: KeyboardReport) {
    r != RELEASED
  }

  function OneKey(modifier: byte, key: byte): KeyboardReport {
    RELEASED.(modifier := modifier, key0 := key)
  }

  function StepKey(step: StepResolution): byte {
    match step
    case Mm001 => KEY_4
    case Mm010 => KEY_3
    case Mm050 => KEY_2
    case Mm100 => KEY_1
  }

  function JogKey(axis: Axis, direction: Direction): byte {
    match axis
    case X => if direction == Positive then KEY_RIGHT else KEY_LEFT
    case Y => if direction == Positive then KEY_UP else KEY_DOWN
    case Z => if direction == Positive then KEY_U else KEY_D
  }

  function MassoReport(frame: OutputFrame): KeyboardReport {
    if frame.releaseAll then RELEASED
    else if frame.step.Some? then OneKey(0, StepKey(frame.step.value))
    else if frame.jog.None? then RELEASED
    else
      OneKey(if frame.jog.value.rate == RapidRate then LEFT_SHIFT else 0,
             JogKey(frame.jog.value.axis, frame.jog.value.direction))
  }

  /** An unsupported profile fails closed. */
  function CncReport(id: CncProfileId, frame: OutputFrame): KeyboardReport {
    if id == MASSO_G3_TOUCH_5_13 then MassoReport(frame) else RELEASED
  }

  /** What a CNC controller reads off the wire, from the published key table alone. */
  datatype Meaning =
    | Nothing
    | SelectStep(step: StepResolution)
    | Jog(axis: Axis, direction: Direction, continuous: bool)
    | Unassigned

  function KeyMeaning(key: byte, shifted: bool): Meaning {
    if key == 0x21 && !shifted then SelectStep(Mm001)
    else if key == 0x20 && !shifted then SelectStep(Mm010)
    else if key == 0x1f && !shifted then SelectStep(Mm050)
    else if key == 0x1e && !shifted then SelectStep(Mm100)
    else if key == 0x4f then Jog(X, Positive, shifted)
    else if key == 0x50 then Jog(X, Negative, shifted)
    else if key == 0x52 then Jog(Y, Positive, shifted)
    else if key == 0x51 then Jog(Y, Negative, shifted)
    else if key == 0x18 then Jog(Z, Positive, shifted)
    else if key == 0x07 then Jog(Z, Negative, shifted)
    else Unassigned
  }

  function Read(r: KeyboardReport): Meaning {
    if r == RELEASED then Nothing
    else if r != OneKey(r.modifier, r.key0) || r.modifier !in {0, 0x02} then Unassigned
    else KeyMeaning(r.key0, r.modifier == 0x02)
  }

  predicate IsJog(r: KeyboardReport) {
    Read(r).Jog?
  }

  /** What a frame asks for; a step selection outranks a jog. */
  function Intent(frame: OutputFrame): Meaning {
    if frame.releaseAll || (frame.step.None? && frame.jog.None?) then Nothing
    else if frame.step.Some? then SelectStep(frame.step.value)
    else Jog(frame.jog.value.axis, frame.jog.value.direction, frame.jog.value.rate == RapidRate)
  }

  /** Reading the wire recovers exactly what the frame asked for, and never an unassigned key. */
  lemma ReportReadsBack(id: CncProfileId, frame: OutputFrame)
    ensures Read(CncReport(id, frame)) == (if id == MASSO_G3_TOUCH_5_13 then Intent(frame) else Nothing)
    ensures HasKey(CncReport(id, frame)) <==> Read(CncReport(id, frame)) != Nothing
  {
    if id == MASSO_G3_TOUCH_5_13 && !frame.releaseAll {
      if frame.step.Some? {
        assert Read(OneKey(0, StepKey(frame.step.value))) == SelectStep(frame.step.value);
      } else if frame.jog.Some? {
        var jog := frame.jog.value;
        var shifted := jog.rate == RapidRate;
        assert KeyMeaning(JogKey(jog.axis, jog.direction), shifted) == Jog(jog.axis, jog.direction, shifted);
      }
    }
  }
}
