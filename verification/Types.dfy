/** Value types shared by every component, and the 32-bit millisecond clock. */
module Types {

  datatype Option<+T> = None | Some(value: T)

  type byte = n: int | 0 <= n < 0x100
  type uint32 = n: int | 0 <= n < 0x1_0000_0000
  type uint16 = n: int | 0 <= n < 0x1_0000
  type int16 = n: int | -0x8000 <= n < 0x8000

  datatype Axis = X | Y | Z
  datatype Direction = Negative | Positive
  datatype JogRate = PrecisionRate | NormalRate | RapidRate
  datatype StepResolution = Mm001 | Mm010 | Mm050 | Mm100

  datatype GamepadState = GamepadState(
    leftX: int16,
    leftY: int16,
    rightX: int16,
    rightY: int16,
    buttons: bv32,
    deadman: bool,
    rapid: bool,
    precision: bool,
    cycleResolution: bool,
    selectResolution: bool,
    selectedResolution: StepResolution,
    cancel: bool,
    connected: bool,
    sampleMs: uint32)

  /** A default-initialised state: centred, nothing pressed, not connected. */
  function IdleState(sampleMs: uint32): GamepadState {
    GamepadState(0, 0, 0, 0, 0, false, false, false, false, false, Mm001, false, false, sampleMs)
  }

  datatype JogCommand = JogCommand(axis: Axis, direction: Direction, rate: JogRate)

  /** `jog` and `step` are the optional payloads behind the source's has_ flags. */
  datatype OutputFrame = OutputFrame(releaseAll: bool, jog: Option<JogCommand>, step: Option<StepResolution>)

  const RELEASE_FRAME := OutputFrame(true, None, None)

  function Magnitude(value: int16): nat {
    var wide: int := value;
    if wide < 0 then -wide else wide
  }

  /** The reading of the stick that drives an axis. */
  function AxisValue(g: GamepadState, axis: Axis): int16 {
    match axis
    case X => g.leftX
    case Y => g.leftY
    case Z => g.rightY
  }

  /** Gamepad Y is positive downward, so Y and Z are inverted. */
  function JogDirection(axis: Axis, value: int16): Direction {
    if (if axis == X then value > 0 else value < 0) then Positive else Negative
  }

  predicate Centered(g: GamepadState, deadzone: int16) {
    Magnitude(g.leftX) <= deadzone && Magnitude(g.leftY) <= deadzone && Magnitude(g.rightY) <= deadzone
  }

  /** What the 32-bit millisecond counter shows at unbounded time `t`. */
  function Clock(t: nat): uint32 {
    t % 0x1_0000_0000
  }

  /** Unsigned 32-bit subtraction. */
  function Elapsed(now: uint32, since: uint32): uint32 {
    (now - since) % 0x1_0000_0000
  }

  /** Unsigned subtraction of clock readings is exact up to whole wraps. */
  lemma ElapsedAcrossWraps(since: nat, now: nat)
    requires since <= now
    ensures Elapsed(Clock(now), Clock(since)) == (now - since) % 0x1_0000_0000
    ensures Elapsed(Clock(now), Clock(since)) <= now - since
  {
    var q0, q1 := since / 0x1_0000_0000, now / 0x1_0000_0000;
    assert since == q0 * 0x1_0000_0000 + Clock(since);
    assert now == q1 * 0x1_0000_0000 + Clock(now);
    assert now - since == (q1 - q0) * 0x1_0000_0000 + (Clock(now) - Clock(since));
  }
}
