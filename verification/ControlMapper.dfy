/** The one-axis-at-a-time safety mapper and its behaviour over every input sequence. */
module ControlMapper {
  import opened Types

  datatype MapperConfig = MapperConfig(deadzone: int16, staleTimeoutMs: uint32)

  const DEFAULT_CONFIG := MapperConfig(9000, 150)

  datatype MapperState = MapperState(
    lockedAxis: Option<Axis>,
    awaitingCenter: bool,
    resolutionWasPressed: bool,
    selectionWasPressed: bool,
    nextResolution: StepResolution)

  const INITIAL_MAPPER := MapperState(None, false, false, false, Mm001)

  function After(step: StepResolution): StepResolution {
    match step
    case Mm001 => Mm010
    case Mm010 => Mm050
    case Mm050 => Mm100
    case Mm100 => Mm001
  }

  /** An axis lock and a wait for centre never hold together. */
  predicate Exclusive(s: MapperState) {
    !(s.lockedAxis.Some? && s.awaitingCenter)
  }

  /** Disconnected, or the sample is too old at `now`. */
  predicate Lost(c: MapperConfig, g: GamepadState, now: uint32) {
    !g.connected || Elapsed(now, g.sampleMs) > c.staleTimeoutMs
  }

  function FreshAxis(c: MapperConfig, g: GamepadState): Axis {
    if Magnitude(g.rightY) > c.deadzone then Z
    else if Magnitude(g.leftX) >= Magnitude(g.leftY) then X
    else Y
  }

  /** The input asks for motion and nothing forbids it. */
  predicate MayMove(c: MapperConfig, s: MapperState, g: GamepadState, now: uint32) {
    !Lost(c, g, now) && !g.cancel && g.deadman && !s.awaitingCenter
  }

  /** The axis held or newly chosen by this update, before its stick is looked at. */
  function CandidateAxis(c: MapperConfig, s: MapperState, g: GamepadState): Option<Axis> {
    if s.lockedAxis.Some? then s.lockedAxis
    else if Centered(g, c.deadzone) then None
    else Some(FreshAxis(c, g))
  }

  predicate PastDeadzone(c: MapperConfig, g: GamepadState, axis: Axis) {
    Magnitude(AxisValue(g, axis)) > c.deadzone
  }

  function NextLock(c: MapperConfig, s: MapperState, g: GamepadState, now: uint32): Option<Axis> {
    var axis := CandidateAxis(c, s, g);
    if MayMove(c, s, g, now) && axis.Some? && PastDeadzone(c, g, axis.value) then axis else None
  }

  predicate NextAwaiting(c: MapperConfig, s: MapperState, g: GamepadState, now: uint32) {
    && !Lost(c, g, now)
    && (g.cancel
        || (g.deadman
            && (if s.awaitingCenter then !Centered(g, c.deadzone)
                else s.lockedAxis.Some? && !PastDeadzone(c, g, s.lockedAxis.value))))
  }

  /** A step may be selected: dead-man up, everything centred, nothing cancelled. */
  predicate MaySelect(c: MapperConfig, g: GamepadState, now: uint32) {
    !Lost(c, g, now) && !g.cancel && !g.deadman && Centered(g, c.deadzone)
  }

  predicate Cycles(c: MapperConfig, s: MapperState, g: GamepadState, now: uint32) {
    && MaySelect(c, g, now)
    && !(g.selectResolution && !s.selectionWasPressed)
    && g.cycleResolution && !s.resolutionWasPressed
  }

  function StepOutput(c: MapperConfig, s: MapperState, g: GamepadState, now: uint32): Option<StepResolution> {
    if Cycles(c, s, g, now) then Some(s.nextResolution)
    else if MaySelect(c, g, now) && g.selectResolution && !s.selectionWasPressed then Some(g.selectedResolution)
    else None
  }

  function JogOutput(c: MapperConfig, s: MapperState, g: GamepadState, now: uint32): Option<JogCommand> {
    match NextLock(c, s, g, now)
    case None => None
    case Some(axis) =>
      Some(JogCommand(axis, JogDirection(axis, AxisValue(g, axis)),
                      if g.precision then PrecisionRate else if g.rapid then RapidRate else NormalRate))
  }

  function Output(c: MapperConfig, s: MapperState, g: GamepadState, now: uint32): OutputFrame {
    var jog, step := JogOutput(c, s, g, now), StepOutput(c, s, g, now);
    OutputFrame(jog.None? && step.None?, jog, step)
  }

  function Next(c: MapperConfig, s: MapperState, g: GamepadState, now: uint32): MapperState {
    MapperState(
      NextLock(c, s, g, now),
      NextAwaiting(c, s, g, now),
      !Lost(c, g, now) && g.cycleResolution,
      !Lost(c, g, now) && g.selectResolution,
      if Cycles(c, s, g, now) then After(s.nextResolution) else s.nextResolution)
  }

  class Mapper {
    const config: MapperConfig
    var lockedAxis: Option<Axis>
    var awaitingCenter: bool
    var resolutionButtonWasPressed: bool
    var selectionButtonWasPressed: bool
    var nextResolution: StepResolution

    constructor (config: MapperConfig)
      ensures this.config == config && State() == INITIAL_MAPPER && Valid()
    {
      this.config := config;
      lockedAxis, awaitingCenter := None, false;
      resolutionButtonWasPressed, selectionButtonWasPressed := false, false;
      nextResolution := Mm001;
    }

    ghost predicate Valid()
      reads this
    {
      Exclusive(State())
    }

    ghost function State(): MapperState
      reads this
    {
      MapperState(lockedAxis, awaitingCenter, resolutionButtonWasPressed, selectionButtonWasPressed, nextResolution)
    }

    method Update(g: GamepadState, now: uint32) returns (out: OutputFrame)
      requires Valid()
      modifies this
      ensures Valid()
      ensures out == Output(config, old(State()), g, now)
      ensures State() == Next(config, old(State()), g, now)
    {
      out := RELEASE_FRAME;
      var stale := Elapsed(now, g.sampleMs) > config.staleTimeoutMs;
      if !g.connected || stale {
        lockedAxis, awaitingCenter := None, false;
        resolutionButtonWasPressed, selectionButtonWasPressed := false, false;
        return;
      }
      var centered :=
        && Magnitude(g.leftX) <= config.deadzone
        && Magnitude(g.leftY) <= config.deadzone
        && Magnitude(g.rightY) <= config.deadzone;
      var resolutionEdge := g.cycleResolution && !resolutionButtonWasPressed;
      resolutionButtonWasPressed := g.cycleResolution;
      var selectionEdge := g.selectResolution && !selectionButtonWasPressed;
      selectionButtonWasPressed := g.selectResolution;

      if g.cancel {
        lockedAxis, awaitingCenter := None, true;
        return;
      }
      if !g.deadman {
        lockedAxis, awaitingCenter := None, false;
        if centered && selectionEdge {
          out := OutputFrame(false, None, Some(g.selectedResolution));
        } else if centered && resolutionEdge {
          out := OutputFrame(false, None, Some(nextResolution));
          nextResolution := After(nextResolution);
        }
        return;
      }
      out := Drive(g, now, centered);
    }

    /** The motion half of the update: dead-man held, nothing cancelled, sample fresh. */
    method Drive(g: GamepadState, now: uint32, centered: bool) returns (out: OutputFrame)
      requires Valid()
      requires !Lost(config, g, now) && !g.cancel && g.deadman
      requires centered <==> Centered(g, config.deadzone)
      modifies this`lockedAxis, this`awaitingCenter
      ensures Valid()
      ensures lockedAxis == NextLock(config, old(State()), g, now)
      ensures awaitingCenter == NextAwaiting(config, old(State()), g, now)
      ensures out == (var jog := JogOutput(config, old(State()), g, now); OutputFrame(jog.None?, jog, None))
    {
      out := RELEASE_FRAME;
      if awaitingCenter {
        if centered {
          awaitingCenter := false;
        }
        return;
      }
      if lockedAxis.None? {
        if centered {
          return;
        }
        if Magnitude(g.rightY) > config.deadzone {
          lockedAxis := Some(Z);
        } else {
          lockedAxis := Some(if Magnitude(g.leftX) >= Magnitude(g.leftY) then X else Y);
        }
      }
      var axis := lockedAxis.value;
      var value := AxisValue(g, axis);
      if Magnitude(value) <= config.deadzone {
        lockedAxis, awaitingCenter := None, true;
        return;
      }
      var positive := if axis == X then value > 0 else value < 0;
      out := OutputFrame(
        false,
        Some(JogCommand(axis, if positive then Positive else Negative,
                        if g.precision then PrecisionRate else if g.rapid then RapidRate else NormalRate)),
        None);
    }
  }

  predicate Far(value: int, limit: int) {
    value < -limit || limit < value
  }

  /** The stick of an axis, counted positive in the direction the machine then moves. */
  function Push(g: GamepadState, axis: Axis): int {
    var x: int, y: int, z: int := g.leftX, g.leftY, g.rightY;
    match axis
    case X => x
    case Y => -y
    case Z => -z
  }

  predicate AtRest(g: GamepadState, limit: int) {
    !Far(g.leftX, limit) && !Far(g.leftY, limit) && !Far(g.rightY, limit)
  }

  /** The axis a deflection starts: Z before the left stick, and of its two axes the one deflected more. */
  function FirstAxis(g: GamepadState, limit: int): Axis {
    var x: int := g.leftX;
    if Far(g.rightY, limit) then Z else if Far(g.leftY, if x < 0 then -x else x) then Y else X
  }

  /** The axis that moves, and which way, while motion is asked for. */
  function Moves(s: MapperState, g: GamepadState, limit: int): Option<(Axis, Direction)> {
    var axis := if s.lockedAxis.Some? then s.lockedAxis.value else FirstAxis(g, limit);
    if s.awaitingCenter || !Far(Push(g, axis), limit) then None
    else Some((axis, if Push(g, axis) > 0 then Positive else Negative))
  }

  /** The step a state with the dead-man up asks for: a new selection outranks a new cycle press. */
  function Picks(s: MapperState, g: GamepadState, limit: int): Option<StepResolution> {
    if !AtRest(g, limit) then None
    else if g.selectResolution && !s.selectionWasPressed then Some(g.selectedResolution)
    else if g.cycleResolution && !s.resolutionWasPressed then Some(s.nextResolution)
    else None
  }

  /** A sample that may be acted on. */
  predicate Usable(c: MapperConfig, g: GamepadState, now: uint32) {
    g.connected && (now - g.sampleMs) % 0x1_0000_0000 <= c.staleTimeoutMs
  }

  /** One update in full, from the sticks and buttons alone. */
  lemma UpdateIsDocumented(c: MapperConfig, s: MapperState, g: GamepadState, now: uint32)
    requires c.deadzone >= 0
    ensures var out, drives := Output(c, s, g, now), Usable(c, g, now) && !g.cancel && g.deadman;
            && out.jog == (if !drives || Moves(s, g, c.deadzone).None? then None
                           else
                             var (axis, direction) := Moves(s, g, c.deadzone).value;
                             Some(JogCommand(axis, direction,
                                             if g.precision then PrecisionRate
                                             else if g.rapid then RapidRate else NormalRate)))
            && out.step == (if Usable(c, g, now) && !g.cancel && !g.deadman then Picks(s, g, c.deadzone) else None)
            && (out.releaseAll <==> out.jog.None? && out.step.None?)
  {
  }

  /** What an update leaves behind: the moving axis, whether the sticks must be centred first, the held buttons. */
  lemma UpdateLeaves(c: MapperConfig, s: MapperState, g: GamepadState, now: uint32)
    requires c.deadzone >= 0
    ensures var out, s' := Output(c, s, g, now), Next(c, s, g, now);
            && s'.lockedAxis == (if out.jog.Some? then Some(out.jog.value.axis) else None)
            && (s'.awaitingCenter <==>
                  Usable(c, g, now)
                  && (g.cancel
                      || (g.deadman && s.awaitingCenter && !AtRest(g, c.deadzone))
                      || (g.deadman && !s.awaitingCenter && s.lockedAxis.Some? && out.jog.None?)))
            && (s'.resolutionWasPressed <==> Usable(c, g, now) && g.cycleResolution)
            && (s'.selectionWasPressed <==> Usable(c, g, now) && g.selectResolution)
            && (s'.nextResolution
                == if out.step.Some? && !(g.selectResolution && !s.selectionWasPressed) then
                     (match s.nextResolution case Mm001 => Mm010 case Mm010 => Mm050 case Mm050 => Mm100 case Mm100 => Mm001)
                   else s.nextResolution)
  {
  }

  /** With the compiled settings a sample may be acted on for 150 ms. */
  lemma DefaultIsUsable(g: GamepadState, now: uint32)
    ensures Usable(DEFAULT_CONFIG, g, now) <==> g.connected && (now - g.sampleMs) % 0x1_0000_0000 <= 150
  {
  }


  datatype Sample = Sample(g: GamepadState, now: uint32)

  /** The mapper's state after a whole input sequence. */
  ghost function Run(c: MapperConfig, start: MapperState, inputs: seq<Sample>): MapperState {
    if inputs == [] then start
    else
      var last := inputs[|inputs| - 1];
      Next(c, Run(c, start, inputs[..|inputs| - 1]), last.g, last.now)
  }

  /** The frame produced by the i-th update of a run. */
  ghost function FrameAt(c: MapperConfig, start: MapperState, inputs: seq<Sample>, i: nat): OutputFrame
    requires i < |inputs|
  {
    Output(c, Run(c, start, inputs[..i]), inputs[i].g, inputs[i].now)
  }

  lemma RunStep(c: MapperConfig, start: MapperState, inputs: seq<Sample>, i: nat)
    requires i < |inputs|
    ensures Run(c, start, inputs[..i + 1]) == Next(c, Run(c, start, inputs[..i]), inputs[i].g, inputs[i].now)
  {
    assert inputs[..i + 1][..i] == inputs[..i];
  }

  /** The lock and the wait for centre exclude each other in every reachable state. */
  lemma {:induction false} ExclusiveInEveryRun(c: MapperConfig, start: MapperState, inputs: seq<Sample>)
    requires Exclusive(start)
    ensures Exclusive(Run(c, start, inputs))
  {
    if inputs != [] {
      ExclusiveInEveryRun(c, start, inputs[..|inputs| - 1]);
    }
  }

  /** A jog frame is exactly a held, fresh, uncancelled request whose own stick is past the deadzone. */
  lemma JogIsDeliberate(c: MapperConfig, s: MapperState, g: GamepadState, now: uint32)
    requires Output(c, s, g, now).jog.Some?
    ensures g.connected && Elapsed(now, g.sampleMs) <= c.staleTimeoutMs
    ensures g.deadman && !g.cancel && !s.awaitingCenter
    ensures Output(c, s, g, now).step.None? && !Output(c, s, g, now).releaseAll
    ensures var jog := Output(c, s, g, now).jog.value;
            && Magnitude(AxisValue(g, jog.axis)) > c.deadzone
            && jog.direction == JogDirection(jog.axis, AxisValue(g, jog.axis))
            && (s.lockedAxis.Some? ==> s.lockedAxis == Some(jog.axis))
            && (jog.rate == RapidRate ==> g.rapid && !g.precision)
  {
  }

  /** A step selection is a fresh press with the dead-man up, cancel up and every stick centred. */
  lemma StepIsDeliberate(c: MapperConfig, s: MapperState, g: GamepadState, now: uint32)
    requires Output(c, s, g, now).step.Some?
    ensures g.connected && Elapsed(now, g.sampleMs) <= c.staleTimeoutMs
    ensures !g.deadman && !g.cancel && Centered(g, c.deadzone) && Output(c, s, g, now).jog.None?
    ensures var step := Output(c, s, g, now).step.value;
            || (g.selectResolution && !s.selectionWasPressed && step == g.selectedResolution)
            || (g.cycleResolution && !s.resolutionWasPressed && step == s.nextResolution)
  {
  }

  /**
   * With no axis locked and nothing forbidding motion, a first deflection moves at once: Z whenever its stick
   * is past the deadzone, and otherwise the axis of the left stick that is deflected more, X on a tie.
   */
  lemma FreshLockMoves(c: MapperConfig, s: MapperState, g: GamepadState, now: uint32)
    requires Usable(c, g, now) && !g.cancel && g.deadman && !s.awaitingCenter && s.lockedAxis.None?
    requires c.deadzone >= 0
    ensures AtRest(g, c.deadzone) <==> Output(c, s, g, now).jog.None?
    ensures !AtRest(g, c.deadzone) ==>
              var axis := Output(c, s, g, now).jog.value.axis;
              && Next(c, s, g, now).lockedAxis == Some(axis)
              && (axis == Z <==> Magnitude(g.rightY) > c.deadzone)
              && (axis == X <==> Magnitude(g.rightY) <= c.deadzone && Magnitude(g.leftX) >= Magnitude(g.leftY))
  {
    UpdateIsDocumented(c, s, g, now);
    UpdateLeaves(c, s, g, now);
    hide Output, Next, Usable;
  }

  /** Only these updates let the mapper choose a different axis. */
  predicate Separates(c: MapperConfig, g: GamepadState, now: uint32) {
    Lost(c, g, now) || (!g.cancel && (!g.deadman || Centered(g, c.deadzone)))
  }

  /** One update keeps the axis, or keeps waiting for centre, unless it separates. */
  lemma LockIsKept(c: MapperConfig, s: MapperState, g: GamepadState, now: uint32, axis: Axis)
    requires s.lockedAxis == Some(axis) || s.awaitingCenter
    requires Exclusive(s) && !Separates(c, g, now)
    ensures Next(c, s, g, now).lockedAxis == Some(axis) || Next(c, s, g, now).awaitingCenter
  {
  }

  /** Without a separating update, the mapper keeps the axis or waits for centre. */
  lemma {:induction false} AxisIsKept(
    c: MapperConfig, start: MapperState, inputs: seq<Sample>, i: nat, n: nat, axis: Axis)
    requires i < n <= |inputs|
    requires Exclusive(start)
    requires FrameAt(c, start, inputs, i).jog.Some? && FrameAt(c, start, inputs, i).jog.value.axis == axis
    requires forall k :: i < k < n ==> !Separates(c, inputs[k].g, inputs[k].now)
    ensures Run(c, start, inputs[..n]).lockedAxis == Some(axis) || Run(c, start, inputs[..n]).awaitingCenter
    decreases n
  {
    RunStep(c, start, inputs, n - 1);
    ExclusiveInEveryRun(c, start, inputs[..n - 1]);
    if i < n - 1 {
      AxisIsKept(c, start, inputs, i, n - 1, axis);
    }
  }

  /**
   * Two jog frames of one run on different axes have a separating update strictly between them:
   * a lost controller, a released dead-man, or all three sticks centred.
   */
  lemma AxisChangeIsSeparated(c: MapperConfig, start: MapperState, inputs: seq<Sample>, i: nat, j: nat)
    requires i < j < |inputs|
    requires Exclusive(start)
    requires FrameAt(c, start, inputs, i).jog.Some? && FrameAt(c, start, inputs, j).jog.Some?
    requires FrameAt(c, start, inputs, i).jog.value.axis != FrameAt(c, start, inputs, j).jog.value.axis
    ensures exists k :: i < k < j && Separates(c, inputs[k].g, inputs[k].now)
  {
    if forall k :: i < k < j ==> !Separates(c, inputs[k].g, inputs[k].now) {
      AxisIsKept(c, start, inputs, i, j, FrameAt(c, start, inputs, i).jog.value.axis);
      JogIsDeliberate(c, Run(c, start, inputs[..j]), inputs[j].g, inputs[j].now);
      assert false;
    }
  }

  /** The resolutions announced by the cycle button over a run, in order. */
  ghost function CycleOutputs(c: MapperConfig, start: MapperState, inputs: seq<Sample>): seq<StepResolution> {
    if inputs == [] then []
    else
      var before, last := inputs[..|inputs| - 1], inputs[|inputs| - 1];
      var s := Run(c, start, before);
      CycleOutputs(c, start, before)
      + if Cycles(c, s, last.g, last.now) then [Output(c, s, last.g, last.now).step.value] else []
  }

  ghost function NthAfter(step: StepResolution, n: nat): StepResolution {
    if n == 0 then step else After(NthAfter(step, n - 1))
  }

  /** However other inputs interleave, the k-th press announces the k-th resolution of the cycle. */
  lemma {:induction false} CycleNeverSkips(c: MapperConfig, start: MapperState, inputs: seq<Sample>)
    ensures var out := CycleOutputs(c, start, inputs);
            && (forall k :: 0 <= k < |out| ==> out[k] == NthAfter(start.nextResolution, k))
            && Run(c, start, inputs).nextResolution == NthAfter(start.nextResolution, |out|)
  {
    if inputs != [] {
      CycleNeverSkips(c, start, inputs[..|inputs| - 1]);
    }
  }

  lemma CycleHasPeriodFour(step: StepResolution, n: nat)
    ensures NthAfter(step, n + 4) == NthAfter(step, n)
  {
    assert NthAfter(step, n + 4) == After(NthAfter(step, n + 3));
    assert NthAfter(step, n + 3) == After(NthAfter(step, n + 2));
    assert NthAfter(step, n + 2) == After(NthAfter(step, n + 1));
    assert NthAfter(step, n + 1) == After(NthAfter(step, n));
  }

  lemma {:induction false} CycleIsModFour(step: StepResolution, n: nat)
    ensures NthAfter(step, n) == NthAfter(step, n % 4)
  {
    if n >= 4 {
      CycleIsModFour(step, n - 4);
      CycleHasPeriodFour(step, n - 4);
    }
  }

  /** However other inputs interleave, the k-th press announces the resolution at place k mod 4 of the cycle. */
  lemma PressAnnouncesModFour(c: MapperConfig, start: MapperState, inputs: seq<Sample>, k: nat)
    requires k < |CycleOutputs(c, start, inputs)|
    ensures CycleOutputs(c, start, inputs)[k] == NthAfter(start.nextResolution, k % 4)
  {
    CycleNeverSkips(c, start, inputs);
    CycleIsModFour(start.nextResolution, k);
  }

  /** From power-on the announced presses go 0.01, 0.10, 0.50, 1.00 mm and round again. */
  lemma PressesFromPowerOn(c: MapperConfig, inputs: seq<Sample>, k: nat)
    requires k < |CycleOutputs(c, INITIAL_MAPPER, inputs)|
    ensures CycleOutputs(c, INITIAL_MAPPER, inputs)[k]
            == if k % 4 == 0 then Mm001 else if k % 4 == 1 then Mm010 else if k % 4 == 2 then Mm050 else Mm100
  {
    hide CycleOutputs;
    PressAnnouncesModFour(c, INITIAL_MAPPER, inputs, k);
    FourPlaces(Mm001);
  }

  lemma FourPlaces(step: StepResolution)
    ensures NthAfter(step, 0) == step && NthAfter(step, 1) == After(step)
    ensures NthAfter(step, 2) == After(After(step)) && NthAfter(step, 3) == After(After(After(step)))
  {
  }
}
