/** Parsing the gamepad's 11-byte interrupt report. */
module Lite2Report {
  import opened Types

  const REPORT_LENGTH := 11

  function Clamp(n: int): int16 {
    if n < -32768 then -32768 else if n > 32767 then 32767 else n
  }

  function Normalize(raw: bv8, center: int): int16 {
    Clamp((raw as int - center) * 256)
  }

  function Buttons(report: seq<bv8>): bv32
    requires |report| == REPORT_LENGTH
  {
    (report[2] as bv32) | ((report[3] as bv32) << 8) | (((report[4] & 0x0f) as bv32) << 16)
  }

  /** Any other shape is refused; the mapped booleans are set later by the user's mapping. */
  function Parse(report: seq<bv8>, sampleMs: uint32): Option<GamepadState> {
    if |report| != REPORT_LENGTH || report[0] != 0xa1 || report[1] != 0x01 then None
    else
      var buttons := Buttons(report);
      Some(IdleState(sampleMs).(
             buttons := buttons,
             leftX := Normalize(report[5], 127),
             leftY := Normalize(report[6], 127),
             rightX := Normalize(report[7], 127),
             rightY := Normalize(report[8], 128),
             deadman := buttons & 0x00100 != 0,
             rapid := buttons & 0x00200 != 0,
             precision := buttons & 0x00080 != 0,
             cycleResolution := buttons & 0x00001 != 0,
             cancel := buttons & 0x00002 != 0,
             connected := true))
  }

  /** One button of the word against one bit of a report byte. */
  predicate SameButton(buttons: bv32, mask: bv32, raw: bv8, bit: bv8) {
    buttons & mask != 0 <==> raw & bit != 0
  }

  /** The face and shoulder buttons sit in byte 2, the triggers and the plus button in byte 3. */
  lemma ButtonsAreDocumented(report: seq<bv8>)
    requires |report| == 11
    ensures var b := Buttons(report);
            && SameButton(b, 0x001, report[2], 0x01) && SameButton(b, 0x002, report[2], 0x02)
            && SameButton(b, 0x008, report[2], 0x08) && SameButton(b, 0x010, report[2], 0x10)
            && SameButton(b, 0x040, report[2], 0x40) && SameButton(b, 0x080, report[2], 0x80)
            && SameButton(b, 0x100, report[3], 0x01) && SameButton(b, 0x200, report[3], 0x02)
            && SameButton(b, 0x800, report[3], 0x08)
  {
  }

  /** A stick byte, counted from its centre in steps of 256 and cut at the largest 16-bit number. */
  predicate IsStick(value: int16, raw: bv8, center: int) {
    var steps := (raw as int - center) * 256;
    value == if steps > 32767 then 32767 else steps
  }

  /** Exactly the reports of 11 bytes that start with a1 01 are read: sticks in bytes 5, 6 and 8, and now. */
  lemma ParseIsDocumented(report: seq<bv8>, now: uint32)
    ensures Parse(report, now).Some? <==> |report| == 11 && report[0] == 0xa1 && report[1] == 0x01
    ensures Parse(report, now).Some? ==>
              var g := Parse(report, now).value;
              && g.buttons == Buttons(report) && g.connected && g.sampleMs == now
              && IsStick(g.leftX, report[5], 127) && IsStick(g.leftY, report[6], 127) && IsStick(g.rightY, report[8], 128)
  {
    hide Buttons;
  }
}
