/** The mapping as text: what the receiver prints, what it reads, and that the two agree. */
module MappingText {
  import opened Types
  import opened MassoKeyboard
  import opened ProductionConfig
  import opened FieldParser

  const NO_MASK: bv32 := 0xffff_ffff
  const NO_ACTION: ButtonAction := 0xff

  function ControlMask(value: string, allowResolution: bool): bv32 {
    if value == "L1" then L1
    else if value == "R1" then R1
    else if value == "L2" then L2
    else if value == "R2" then R2
    else if allowResolution && value == "MINUS" then MINUS
    else if allowResolution && value == "PLUS" then PLUS
    else if allowResolution && value == "UNASSIGNED" then 0
    else NO_MASK
  }

  function ControlName(mask: bv32): string {
    if mask == L1 then "L1"
    else if mask == R1 then "R1"
    else if mask == L2 then "L2"
    else if mask == R2 then "R2"
    else if mask == MINUS then "MINUS"
    else if mask == PLUS then "PLUS"
    else "UNASSIGNED"
  }

  function ActionOf(value: string): ButtonAction {
    if value == "UNASSIGNED" then UNASSIGNED
    else if value == "CANCEL" then CANCEL
    else if value == "CYCLE_RESOLUTION" then CYCLE_RESOLUTION
    else if value == "STEP_0_01" then STEP_0_01
    else if value == "STEP_0_10" then STEP_0_10
    else if value == "STEP_0_50" then STEP_0_50
    else if value == "STEP_1_00" then STEP_1_00
    else NO_ACTION
  }

  function ActionName(action: ButtonAction): string {
    if action == CANCEL then "CANCEL"
    else if action == CYCLE_RESOLUTION then "CYCLE_RESOLUTION"
    else if action == STEP_0_01 then "STEP_0_01"
    else if action == STEP_0_10 then "STEP_0_10"
    else if action == STEP_0_50 then "STEP_0_50"
    else if action == STEP_1_00 then "STEP_1_00"
    else "UNASSIGNED"
  }

  const MASSO_KEY := "masso-g3-touch-5.13"

  function ProfileByKey(key: string): Option<CncProfileId> {
    if key == MASSO_KEY then Some(MASSO_G3_TOUCH_5_13) else None
  }

  /** A word the reader can take: not empty, no quote, shorter than the smallest buffer it is read into. */
  predicate IsWord(value: string, size: nat) {
    0 < |value| < size && '"' !in value
  }

  lemma ControlNamesMatch(value: string, mask: bv32)
    requires mask in {L1, R1, L2, R2}
    ensures ControlMask(value, false) == mask <==> value == ControlName(mask)
    ensures IsWord(ControlName(mask), 16)
  {
  }

  lemma UnassignedMatches(value: string)
    ensures ControlMask(value, true) == 0 <==> value == ControlName(0)
    ensures IsWord(ControlName(0), 20)
  {
  }

  lemma ActionNamesMatch(value: string, action: ButtonAction)
    requires IsSafeFaceAction(action)
    ensures ActionOf(value) == action <==> value == ActionName(action)
    ensures IsWord(ActionName(action), 24)
  {
  }

  lemma ProfileNamesMatch(value: string)
    ensures ProfileByKey(value) == Some(MASSO_G3_TOUCH_5_13) <==> value == MASSO_KEY
    ensures IsWord(MASSO_KEY, 48)
  {
  }

  /** The text in front of a quoted value. */
  function Key(name: string): (key: string)
    ensures key != ""
  {
    "\"" + name + "\":\""
  }

  function ReadProfile(line: string, current: CncProfileId): Option<CncProfileId> {
    if StrStr(line, Key("cncProfile"), 0).None? then Some(current)
    else
      match ReadString(line, Key("cncProfile"), 48)
      case None => None
      case Some(name) => ProfileByKey(name)
  }

  function ReadMask(line: string, name: string, size: nat, allowResolution: bool): Option<bv32> {
    match ReadString(line, Key(name), size)
    case None => None
    case Some(value) => Some(ControlMask(value, allowResolution))
  }

  function ReadAction(line: string, name: string): Option<ButtonAction> {
    match ReadString(line, Key(name), 24)
    case None => None
    case Some(value) => Some(ActionOf(value))
  }

  function ParseMapping(line: string, current: ProductionMapping): Option<ProductionMapping> {
    var deadman, continuous := ReadMask(line, "deadman", 16, false), ReadMask(line, "continuous", 16, false);
    var resolution := ReadMask(line, "resolution", 20, true);
    var a, b := ReadAction(line, "faceA"), ReadAction(line, "faceB");
    var x, y := ReadAction(line, "faceX"), ReadAction(line, "faceY");
    if deadman.None? || continuous.None? || resolution.None? || a.None? || b.None? || x.None? || y.None? then None
    else
      match ReadProfile(line, current.cncProfile)
      case None => None
      case Some(profile) =>
        var candidate := ProductionMapping(profile, deadman.value, continuous.value, current.precisionMask,
                                           resolution.value, a.value, b.value, x.value, y.value);
        if IsValid(candidate) then Some(candidate) else None
  }

  ghost predicate SaysField(line: string, name: string, value: string) {
    Says(line, Key(name), value)
  }

  /** What a line says about the profile; saying nothing keeps the current one. */
  ghost predicate SaysProfile(line: string, profile: CncProfileId, current: CncProfileId) {
    if Occurrences(line, Key("cncProfile")) == {} then profile == current
    else SaysField(line, "cncProfile", MASSO_KEY) && profile == MASSO_G3_TOUCH_5_13
  }

  /** The line names every control and action of `m`, each behind a key that stands there once. */
  ghost predicate SaysMapping(line: string, m: ProductionMapping, current: ProductionMapping) {
    && SaysField(line, "deadman", ControlName(m.deadmanMask))
    && SaysField(line, "continuous", ControlName(m.continuousMask))
    && SaysField(line, "resolution", ControlName(m.resolutionMask))
    && SaysField(line, "faceA", ActionName(m.faceA))
    && SaysField(line, "faceB", ActionName(m.faceB))
    && SaysField(line, "faceX", ActionName(m.faceX))
    && SaysField(line, "faceY", ActionName(m.faceY))
    && SaysProfile(line, m.cncProfile, current.cncProfile)
    && m.precisionMask == current.precisionMask
  }

  lemma MotionFieldIsLiteral(line: string, name: string, mask: bv32)
    requires mask in {L1, R1, L2, R2}
    ensures ReadMask(line, name, 16, false) == Some(mask) <==> SaysField(line, name, ControlName(mask))
  {
    hide ControlMask, ControlName, Says, ReadString;
    ControlNamesMatch(ControlName(mask), mask);
    ReadStringIsLiteral(line, Key(name), 16, ControlName(mask));
    if ReadString(line, Key(name), 16).Some? {
      ControlNamesMatch(ReadString(line, Key(name), 16).value, mask);
    }
  }

  lemma ResolutionFieldIsLiteral(line: string)
    ensures ReadMask(line, "resolution", 20, true) == Some(0) <==> SaysField(line, "resolution", ControlName(0))
  {
    hide ControlMask, ControlName, Says, ReadString;
    UnassignedMatches(ControlName(0));
    ReadStringIsLiteral(line, Key("resolution"), 20, ControlName(0));
    if ReadString(line, Key("resolution"), 20).Some? {
      UnassignedMatches(ReadString(line, Key("resolution"), 20).value);
    }
  }

  lemma ActionFieldIsLiteral(line: string, name: string, action: ButtonAction)
    requires IsSafeFaceAction(action)
    ensures ReadAction(line, name) == Some(action) <==> SaysField(line, name, ActionName(action))
  {
    hide ActionOf, ActionName, Says, ReadString, IsSafeFaceAction;
    ActionNamesMatch(ActionName(action), action);
    ReadStringIsLiteral(line, Key(name), 24, ActionName(action));
    if ReadString(line, Key(name), 24).Some? {
      ActionNamesMatch(ReadString(line, Key(name), 24).value, action);
    }
  }

  lemma ProfileFieldIsLiteral(line: string, profile: CncProfileId, current: CncProfileId)
    requires profile == MASSO_G3_TOUCH_5_13
    ensures ReadProfile(line, current) == Some(profile) <==> SaysProfile(line, profile, current)
  {
    hide Says, ReadString, ProfileByKey, IsWord;
    var key := Key("cncProfile");
    ProfileNamesMatch(MASSO_KEY);
    ReadStringIsLiteral(line, key, 48, MASSO_KEY);
    NowhereIsNowhere(line, key);
    if ReadString(line, key, 48).Some? {
      ProfileNamesMatch(ReadString(line, key, 48).value);
    }
  }

  lemma NowhereIsNowhere(line: string, key: string)
    ensures StrStr(line, key, 0).None? <==> Occurrences(line, key) == {}
  {
    if StrStr(line, key, 0).Some? {
      assert StrStr(line, key, 0).value in Occurrences(line, key);
    }
  }

  /** On any line: a mapping is read exactly when it is valid and the line says it, precision control kept. */
  lemma ParsesExactly(line: string, current: ProductionMapping, m: ProductionMapping)
    ensures ParseMapping(line, current) == Some(m) <==> IsValid(m) && SaysMapping(line, m, current)
  {
    hide ReadMask, ReadAction, ReadProfile, SaysField, SaysProfile, IsValid, ControlName, ActionName;
    if IsValid(m) {
      ValidFields(m);
      MotionFieldIsLiteral(line, "deadman", m.deadmanMask);
      MotionFieldIsLiteral(line, "continuous", m.continuousMask);
      ResolutionFieldIsLiteral(line);
      ActionFieldIsLiteral(line, "faceA", m.faceA);
      ActionFieldIsLiteral(line, "faceB", m.faceB);
      ActionFieldIsLiteral(line, "faceX", m.faceX);
      ActionFieldIsLiteral(line, "faceY", m.faceY);
      ProfileFieldIsLiteral(line, m.cncProfile, current.cncProfile);
    }
  }

  lemma ValidFields(m: ProductionMapping)
    requires IsValid(m)
    ensures m.deadmanMask in {L1, R1, L2, R2} && m.continuousMask in {L1, R1, L2, R2}
    ensures m.resolutionMask == 0 && m.cncProfile == MASSO_G3_TOUCH_5_13
    ensures IsSafeFaceAction(m.faceA) && IsSafeFaceAction(m.faceB)
    ensures IsSafeFaceAction(m.faceX) && IsSafeFaceAction(m.faceY)
  {
    hide IsSafeFaceAction;
    ValidationIsDocumented(m);
  }

  /** The documented words for every control, every action and the CNC profile. */
  lemma NamesAreDocumented()
    ensures ControlName(0x00040) == "L1" && ControlName(0x00080) == "R1"
    ensures ControlName(0x00100) == "L2" && ControlName(0x00200) == "R2" && ControlName(0) == "UNASSIGNED"
    ensures ActionName(0) == "UNASSIGNED" && ActionName(1) == "CANCEL" && ActionName(2) == "CYCLE_RESOLUTION"
    ensures ActionName(3) == "STEP_0_01" && ActionName(4) == "STEP_0_10"
    ensures ActionName(5) == "STEP_0_50" && ActionName(6) == "STEP_1_00"
    ensures MASSO_KEY == "masso-g3-touch-5.13"
  {
  }
}
