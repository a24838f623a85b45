/** The constrained user mapping: validation and its application to a raw controller state. */
module ProductionConfig {
  import opened Types
  import opened MassoKeyboard

  /** The enumeration's underlying byte; a stored record can hold any value. */
  type ButtonAction = byte

  const UNASSIGNED: ButtonAction := 0
  const CANCEL: ButtonAction := 1
  const CYCLE_RESOLUTION: ButtonAction := 2
  const STEP_0_01: ButtonAction := 3
  const STEP_0_10: ButtonAction := 4
  const STEP_0_50: ButtonAction := 5
  const STEP_1_00: ButtonAction := 6

  const L1: bv32 := 0x00040
  const R1: bv32 := 0x00080
  const L2: bv32 := 0x00100
  const R2: bv32 := 0x00200
  const MINUS: bv32 := 0x00400
  const PLUS: bv32 := 0x00800

  const MOTION_CONTROLS: bv32 := 0x00040 | 0x00080 | 0x00100 | 0x00200

  datatype ProductionMapping = ProductionMapping(
    cncProfile: CncProfileId,
    deadmanMask: bv32,
    continuousMask: bv32,
    precisionMask: bv32,
    resolutionMask: bv32,
    faceA: ButtonAction,
    faceB: ButtonAction,
    faceX: ButtonAction,
    faceY: ButtonAction)

  const DEFAULT_MAPPING :=
    ProductionMapping(MASSO_G3_TOUCH_5_13, L2, R2, R1, 0, CYCLE_RESOLUTION, CANCEL, UNASSIGNED, UNASSIGNED)

  datatype ConfigValidation =
    | Valid
    | InvalidControl
    | DuplicateMotionControl
    | UnsafeFaceAction
    | UnsupportedCncProfile
    | UnsupportedProfileAction

  predicate IsSingleMask(value: bv32) {
    value != 0 && value & (value - 1) == 0
  }

  predicate IsSafeFaceAction(action: ButtonAction) {
    action in {UNASSIGNED, CANCEL, CYCLE_RESOLUTION, STEP_0_01, STEP_0_10, STEP_0_50, STEP_1_00}
  }

  predicate IsStepAction(action: ButtonAction) {
    action in {CYCLE_RESOLUTION, STEP_0_01, STEP_0_10, STEP_0_50, STEP_1_00}
  }

  predicate SupportsStepResolution(id: CncProfileId) {
    id == MASSO_G3_TOUCH_5_13
  }

  predicate IsMotionControl(mask: bv32) {
    IsSingleMask(mask) && mask & MOTION_CONTROLS != 0
  }

  function Validate(m: ProductionMapping): ConfigValidation {
    if m.cncProfile != MASSO_G3_TOUCH_5_13 then UnsupportedCncProfile
    else if !IsMotionControl(m.deadmanMask) || !IsMotionControl(m.continuousMask)
            || !IsMotionControl(m.precisionMask) || m.resolutionMask != 0 then InvalidControl
    else if m.deadmanMask == m.continuousMask || m.deadmanMask == m.precisionMask
            || m.continuousMask == m.precisionMask then DuplicateMotionControl
    else if !IsSafeFaceAction(m.faceA) || !IsSafeFaceAction(m.faceB)
            || !IsSafeFaceAction(m.faceX) || !IsSafeFaceAction(m.faceY) then UnsafeFaceAction
    else if !SupportsStepResolution(m.cncProfile)
            && (IsStepAction(m.faceA) || IsStepAction(m.faceB)
                || IsStepAction(m.faceX) || IsStepAction(m.faceY)) then UnsupportedProfileAction
    else Valid
  }

  predicate IsValid(m: ProductionMapping) {
    Validate(m) == Valid
  }

  /** The documented rule: three different shoulder or trigger buttons and known face actions. */
  ghost predicate Documented(m: ProductionMapping) {
    && m.cncProfile == MASSO_G3_TOUCH_5_13
    && {m.deadmanMask, m.continuousMask, m.precisionMask} <= {L1, R1, L2, R2}
    && |{m.deadmanMask, m.continuousMask, m.precisionMask}| == 3
    && m.resolutionMask == 0
    && m.faceA <= 6 && m.faceB <= 6 && m.faceX <= 6 && m.faceY <= 6
  }

  lemma MotionControlIsOneButton(mask: bv32)
    ensures IsMotionControl(mask) <==> mask in {L1, R1, L2, R2}
  {
  }

  lemma SafeActionIsSmallByte(action: ButtonAction)
    ensures IsSafeFaceAction(action) <==> action <= 6
  {
  }

  lemma TripleIsDistinct(a: bv32, b: bv32, c: bv32)
    ensures |{a, b, c}| == 3 <==> a != b && a != c && b != c
  {
    if a == b {
      assert {a, b, c} == {a, c};
    } else if a == c || b == c {
      assert {a, b, c} == {a, b};
    }
  }

  /** Validation accepts exactly the documented mappings, whatever bytes the record holds. */
  lemma ValidationIsDocumented(m: ProductionMapping)
    ensures IsValid(m) <==> Documented(m)
  {
    MotionControlIsOneButton(m.deadmanMask);
    MotionControlIsOneButton(m.continuousMask);
    MotionControlIsOneButton(m.precisionMask);
    SafeActionIsSmallByte(m.faceA);
    SafeActionIsSmallByte(m.faceB);
    SafeActionIsSmallByte(m.faceX);
    SafeActionIsSmallByte(m.faceY);
    TripleIsDistinct(m.deadmanMask, m.continuousMask, m.precisionMask);
  }

  /** Why a mapping is refused, and that the default is L2 to move, R2 for continuous, R1 for precision, A and B. */
  lemma RefusalIsDocumented(m: ProductionMapping)
    ensures var masks := {m.deadmanMask, m.continuousMask, m.precisionMask};
            var motion, known := masks <= {0x40, 0x80, 0x100, 0x200} && m.resolutionMask == 0,
              m.faceA <= 6 && m.faceB <= 6 && m.faceX <= 6 && m.faceY <= 6;
            Validate(m) == if m.cncProfile != 0 then UnsupportedCncProfile
                           else if !motion then InvalidControl
                           else if |masks| != 3 then DuplicateMotionControl
                           else if !known then UnsafeFaceAction
                           else Valid
    ensures DEFAULT_MAPPING == ProductionMapping(0, 0x100, 0x200, 0x80, 0, 2, 1, 0, 0)
  {
    MotionControlIsOneButton(m.deadmanMask);
    MotionControlIsOneButton(m.continuousMask);
    MotionControlIsOneButton(m.precisionMask);
    SafeActionIsSmallByte(m.faceA);
    SafeActionIsSmallByte(m.faceB);
    SafeActionIsSmallByte(m.faceX);
    SafeActionIsSmallByte(m.faceY);
    TripleIsDistinct(m.deadmanMask, m.continuousMask, m.precisionMask);
    hide IsMotionControl, IsSafeFaceAction;
  }


  function FaceMask(i: nat): bv32
    requires i < 4
  {
    if i == 0 then 0x00001 else if i == 1 then 0x00002 else if i == 2 then 0x00008 else 0x00010
  }

  function FaceAction(m: ProductionMapping, i: nat): ButtonAction
    requires i < 4
  {
    if i == 0 then m.faceA else if i == 1 then m.faceB else if i == 2 then m.faceX else m.faceY
  }

  predicate Held(raw: GamepadState, mask: bv32) {
    raw.buttons & mask != 0
  }

  /** Some held face button among the first `n` carries one of the actions. */
  predicate FaceHeld(raw: GamepadState, m: ProductionMapping, actions: set<ButtonAction>, n: nat)
    requires n <= 4
  {
    exists i :: 0 <= i < n && Held(raw, FaceMask(i)) && FaceAction(m, i) in actions
  }

  const FIXED_STEPS := {STEP_0_01, STEP_0_10, STEP_0_50, STEP_1_00}

  function StepOf(action: ButtonAction): StepResolution {
    if action == STEP_0_01 then Mm001 else if action == STEP_0_10 then Mm010
    else if action == STEP_0_50 then Mm050 else Mm100
  }

  /** With several step buttons held, the last face button in A, B, X, Y order wins. */
  function LastStep(raw: GamepadState, m: ProductionMapping, n: nat): StepResolution
    requires n <= 4
  {
    if n == 0 then raw.selectedResolution
    else if Held(raw, FaceMask(n - 1)) && FaceAction(m, n - 1) in FIXED_STEPS then StepOf(FaceAction(m, n - 1))
    else LastStep(raw, m, n - 1)
  }

  /** The mapped state when only the first `n` face buttons have been considered. */
  function MappedBelow(raw: GamepadState, m: ProductionMapping, n: nat): GamepadState
    requires n <= 4
  {
    raw.(deadman := Held(raw, m.deadmanMask),
         rapid := Held(raw, m.continuousMask),
         precision := Held(raw, m.precisionMask),
         cycleResolution := FaceHeld(raw, m, {CYCLE_RESOLUTION}, n),
         selectResolution := FaceHeld(raw, m, FIXED_STEPS, n),
         selectedResolution := LastStep(raw, m, n),
         cancel := FaceHeld(raw, m, {CANCEL}, n))
  }

  /** The mapped state; an invalid mapping is turned into a held cancel. */
  function Mapped(raw: GamepadState, m: ProductionMapping): GamepadState {
    if !IsValid(m) then
      raw.(deadman := false, rapid := false, precision := false,
           cycleResolution := false, selectResolution := false, cancel := true)
    else
      MappedBelow(raw, m, 4)
  }

  lemma FaceHeldGrows(raw: GamepadState, m: ProductionMapping, actions: set<ButtonAction>, n: nat)
    requires n < 4
    ensures FaceHeld(raw, m, actions, n + 1)
            <==> FaceHeld(raw, m, actions, n) || (Held(raw, FaceMask(n)) && FaceAction(m, n) in actions)
  {
  }

  lemma MappedGrows(raw: GamepadState, m: ProductionMapping, n: nat)
    requires n < 4
    ensures var g, action := MappedBelow(raw, m, n), FaceAction(m, n);
            MappedBelow(raw, m, n + 1)
            == if !Held(raw, FaceMask(n)) then g
               else if action == CANCEL then g.(cancel := true)
               else if action == CYCLE_RESOLUTION then g.(cycleResolution := true)
               else if action in FIXED_STEPS then g.(selectResolution := true, selectedResolution := StepOf(action))
               else g
  {
    hide Held, StepOf, FaceMask, FaceAction;
    FaceHeldGrows(raw, m, {CYCLE_RESOLUTION}, n);
    FaceHeldGrows(raw, m, FIXED_STEPS, n);
    FaceHeldGrows(raw, m, {CANCEL}, n);
  }

  /** A held face button carries this action: A, B, X and Y are bits 0, 1, 3 and 4 of the button word. */
  predicate Presses(raw: GamepadState, m: ProductionMapping, action: int) {
    || (Down(raw.buttons, 0x01) && m.faceA == action)
    || (Down(raw.buttons, 0x02) && m.faceB == action)
    || (Down(raw.buttons, 0x08) && m.faceX == action)
    || (Down(raw.buttons, 0x10) && m.faceY == action)
  }

  predicate PressesStep(raw: GamepadState, m: ProductionMapping) {
    Presses(raw, m, 3) || Presses(raw, m, 4) || Presses(raw, m, 5) || Presses(raw, m, 6)
  }

  /** The documented step sizes of actions 3 to 6. */
  function SizeOf(action: int): Option<StepResolution> {
    if action == 3 then Some(Mm001)
    else if action == 4 then Some(Mm010)
    else if action == 5 then Some(Mm050)
    else if action == 6 then Some(Mm100)
    else None
  }

  /** The size the held buttons ask for: Y outranks X, X outranks B, B outranks A. */
  function PressedSize(raw: GamepadState, m: ProductionMapping): Option<StepResolution> {
    if Down(raw.buttons, 0x10) && SizeOf(m.faceY).Some? then SizeOf(m.faceY)
    else if Down(raw.buttons, 0x08) && SizeOf(m.faceX).Some? then SizeOf(m.faceX)
    else if Down(raw.buttons, 0x02) && SizeOf(m.faceB).Some? then SizeOf(m.faceB)
    else if Down(raw.buttons, 0x01) then SizeOf(m.faceA)
    else None
  }

  lemma FaceHeldIsPressed(raw: GamepadState, m: ProductionMapping, action: ButtonAction)
    ensures FaceHeld(raw, m, {action}, 4) <==> Presses(raw, m, action)
  {
    FaceHeldGrows(raw, m, {action}, 0);
    FaceHeldGrows(raw, m, {action}, 1);
    FaceHeldGrows(raw, m, {action}, 2);
    FaceHeldGrows(raw, m, {action}, 3);
  }

  lemma StepHeldIsPressed(raw: GamepadState, m: ProductionMapping)
    ensures FaceHeld(raw, m, FIXED_STEPS, 4) <==> PressesStep(raw, m)
    ensures PressesStep(raw, m) <==> PressedSize(raw, m).Some?
  {
    FaceHeldGrows(raw, m, FIXED_STEPS, 0);
    FaceHeldGrows(raw, m, FIXED_STEPS, 1);
    FaceHeldGrows(raw, m, FIXED_STEPS, 2);
    FaceHeldGrows(raw, m, FIXED_STEPS, 3);
  }

  lemma LastStepIsPressed(raw: GamepadState, m: ProductionMapping)
    requires PressedSize(raw, m).Some?
    ensures LastStep(raw, m, 4) == PressedSize(raw, m).value
  {
    assert LastStep(raw, m, 1) == if Held(raw, FaceMask(0)) && FaceAction(m, 0) in FIXED_STEPS then StepOf(FaceAction(m, 0))
                                  else raw.selectedResolution;
    assert LastStep(raw, m, 3) == if Held(raw, FaceMask(2)) && FaceAction(m, 2) in FIXED_STEPS then StepOf(FaceAction(m, 2))
                                  else LastStep(raw, m, 2);
  }

  /** The mapping sets the seven control fields and nothing else. */
  lemma MappedKeepsTheRest(raw: GamepadState, m: ProductionMapping)
    ensures var g := Mapped(raw, m);
            && g.leftX == raw.leftX && g.leftY == raw.leftY && g.rightX == raw.rightX && g.rightY == raw.rightY
            && g.buttons == raw.buttons && g.connected == raw.connected && g.sampleMs == raw.sampleMs
  {
    hide IsValid, FaceHeld, LastStep, Held;
  }

  lemma InvalidIsCancelled(raw: GamepadState, m: ProductionMapping)
    requires !IsValid(m)
    ensures var g := Mapped(raw, m);
            g.cancel && !g.deadman && !g.rapid && !g.precision && !g.cycleResolution && !g.selectResolution
  {
    hide IsValid, FaceHeld, LastStep, Held;
  }

  lemma MappedLevels(raw: GamepadState, m: ProductionMapping)
    requires IsValid(m)
    ensures var g := Mapped(raw, m);
            && g.deadman == Held(raw, m.deadmanMask)
            && g.rapid == Held(raw, m.continuousMask)
            && g.precision == Held(raw, m.precisionMask)
  {
    hide IsValid, FaceHeld, LastStep, Held;
  }

  lemma MappedFaces(raw: GamepadState, m: ProductionMapping)
    requires IsValid(m)
    ensures var g := Mapped(raw, m);
            && g.cancel == FaceHeld(raw, m, {CANCEL}, 4)
            && g.cycleResolution == FaceHeld(raw, m, {CYCLE_RESOLUTION}, 4)
            && g.selectResolution == FaceHeld(raw, m, FIXED_STEPS, 4)
            && g.selectedResolution == LastStep(raw, m, 4)
  {
    hide IsValid, FaceHeld, LastStep, Held;
  }

  /** Some button of the mask is down in the button word. */
  predicate Down(buttons: bv32, mask: bv32) {
    buttons & mask != 0
  }

  lemma HeldIsDown(raw: GamepadState, mask: bv32)
    ensures Held(raw, mask) <==> Down(raw.buttons, mask)
  {
  }

  /** What a valid mapping makes of the motion controls, from the button word alone. */
  lemma MotionIsDocumented(raw: GamepadState, m: ProductionMapping)
    requires IsValid(m)
    ensures var g := Mapped(raw, m);
            && (g.deadman <==> Down(raw.buttons, m.deadmanMask))
            && (g.rapid <==> Down(raw.buttons, m.continuousMask))
            && (g.precision <==> Down(raw.buttons, m.precisionMask))
  {
    hide Mapped, IsValid, Held, Down;
    MappedLevels(raw, m);
    HeldIsDown(raw, m.deadmanMask);
    HeldIsDown(raw, m.continuousMask);
    HeldIsDown(raw, m.precisionMask);
  }

  /** What a valid mapping makes of the face buttons, from the button word and the mapping's own bytes alone. */
  lemma FacesAreDocumented(raw: GamepadState, m: ProductionMapping)
    requires IsValid(m)
    ensures var g := Mapped(raw, m);
            && (g.cancel <==> Presses(raw, m, 1))
            && (g.cycleResolution <==> Presses(raw, m, 2))
            && (g.selectResolution <==> PressedSize(raw, m).Some?)
            && (g.selectResolution ==> PressedSize(raw, m) == Some(g.selectedResolution))
  {
    hide Mapped, IsValid, FaceHeld, LastStep, Presses, PressedSize, PressesStep;
    MappedFaces(raw, m);
    FaceHeldIsPressed(raw, m, CANCEL);
    FaceHeldIsPressed(raw, m, CYCLE_RESOLUTION);
    StepHeldIsPressed(raw, m);
    if PressedSize(raw, m).Some? {
      LastStepIsPressed(raw, m);
    }
  }

  lemma ValidHasNoResolutionControl(m: ProductionMapping)
    requires IsValid(m)
    ensures m.resolutionMask == 0
  {
  }

  method ApplyProductionMapping(raw: GamepadState, mapping: ProductionMapping) returns (mapped: GamepadState)
    ensures mapped == Mapped(raw, mapping)
  {
    hide Validate, Held, StepOf, FaceMask, FaceAction;
    mapped := raw;
    if Validate(mapping) != Valid {
      mapped := mapped.(deadman := false, rapid := false, precision := false,
                        cycleResolution := false, selectResolution := false, cancel := true);
      return;
    }
    ValidHasNoResolutionControl(mapping);
    mapped := mapped.(deadman := Held(raw, mapping.deadmanMask),
                      rapid := Held(raw, mapping.continuousMask),
                      precision := Held(raw, mapping.precisionMask),
                      cycleResolution := mapping.resolutionMask != 0 && Held(raw, mapping.resolutionMask),
                      cancel := false,
                      selectResolution := false);
    for i := 0 to 4
      invariant mapped == MappedBelow(raw, mapping, i)
    {
      MappedGrows(raw, mapping, i);
      var action := FaceAction(mapping, i);
      if Held(raw, FaceMask(i)) {
        if action == CANCEL {
          mapped := mapped.(cancel := true);
        } else if action == CYCLE_RESOLUTION {
          mapped := mapped.(cycleResolution := true);
        } else if action in FIXED_STEPS {
          mapped := mapped.(selectResolution := true, selectedResolution := StepOf(action));
        }
      }
    }
  }
}
