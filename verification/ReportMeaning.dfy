/** What one controller report asks of the machine, from its raw buttons and sticks alone. */
module ReportMeaning {
  import opened Types
  import opened MassoKeyboard
  import opened ProductionConfig
  import opened ControlMapper

  /** The documented reading of a raw state under a valid mapping, given what the mapper remembers. */
  function Asked(raw: GamepadState, m: ProductionMapping, mapper: MapperState): Meaning {
    if Presses(raw, m, 1) then Nothing
    else if Down(raw.buttons, m.deadmanMask) then
      match Moves(mapper, raw, 9000)
      case None => Nothing
      case Some((axis, direction)) =>
        Jog(axis, direction, Down(raw.buttons, m.continuousMask) && !Down(raw.buttons, m.precisionMask))
    else if !AtRest(raw, 9000) then Nothing
    else if PressedSize(raw, m).Some? && !mapper.selectionWasPressed then SelectStep(PressedSize(raw, m).value)
    else if Presses(raw, m, 2) && !mapper.resolutionWasPressed then SelectStep(mapper.nextResolution)
    else Nothing
  }

  /** Dead-man up, every stick at rest. */
  predicate IsNeutral(raw: GamepadState, m: ProductionMapping) {
    AtRest(raw, 9000) && (IsValid(m) ==> !Down(raw.buttons, m.deadmanMask))
  }

  lemma SameSticks(a: GamepadState, b: GamepadState, mapper: MapperState)
    requires a.leftX == b.leftX && a.leftY == b.leftY && a.rightY == b.rightY
    ensures AtRest(a, 9000) == AtRest(b, 9000) && Moves(mapper, a, 9000) == Moves(mapper, b, 9000)
  {
  }

  lemma FreshIsUsable(g: GamepadState, now: uint32)
    requires g.connected && g.sampleMs == now
    ensures Usable(DEFAULT_CONFIG, g, now)
  {
  }

  lemma RateIsContinuous(precision: bool, rapid: bool)
    ensures (if precision then PrecisionRate else if rapid then RapidRate else NormalRate) == RapidRate
            <==> rapid && !precision
  {
  }

  /** Mapping, mapper and translator together send exactly what was asked for. */
  lemma AskedIsSent(raw: GamepadState, m: ProductionMapping, mapper: MapperState, now: uint32)
    requires IsValid(m) && raw.connected && raw.sampleMs == now
    ensures Read(CncReport(m.cncProfile, ControlMapper.Output(DEFAULT_CONFIG, mapper, Mapped(raw, m), now)))
            == Asked(raw, m, mapper)
  {
    hide Mapped, IsValid, Down, Presses, PressedSize, Moves, AtRest, ControlMapper.Output, CncReport, Usable, Read, Picks;
    var g := Mapped(raw, m);
    MappedKeepsTheRest(raw, m);
    MotionIsDocumented(raw, m);
    FacesAreDocumented(raw, m);
    SameSticks(raw, g, mapper);
    FreshIsUsable(g, now);
    UpdateIsDocumented(DEFAULT_CONFIG, mapper, g, now);
    ValidIsMasso(m);
    ReportReadsBack(m.cncProfile, ControlMapper.Output(DEFAULT_CONFIG, mapper, g, now));
    PicksInFull(mapper, g);
  }

  lemma PicksInFull(s: MapperState, g: GamepadState)
    ensures Picks(s, g, 9000)
            == if !AtRest(g, 9000) then None
               else if g.selectResolution && !s.selectionWasPressed then Some(g.selectedResolution)
               else if g.cycleResolution && !s.resolutionWasPressed then Some(s.nextResolution)
               else None
  {
  }

  lemma ValidIsMasso(m: ProductionMapping)
    requires IsValid(m)
    ensures m.cncProfile == MASSO_G3_TOUCH_5_13
  {
  }

  /** What a report leaves in the mapper, from the same raw facts. */
  lemma AskedIsRemembered(raw: GamepadState, m: ProductionMapping, mapper: MapperState, now: uint32)
    requires IsValid(m) && raw.connected && raw.sampleMs == now
    ensures var after, asked := Next(DEFAULT_CONFIG, mapper, Mapped(raw, m), now), Asked(raw, m, mapper);
            && after.lockedAxis == (if asked.Jog? then Some(asked.axis) else None)
            && (after.awaitingCenter <==>
                  || Presses(raw, m, 1)
                  || (Down(raw.buttons, m.deadmanMask) && mapper.awaitingCenter && !AtRest(raw, 9000))
                  || (Down(raw.buttons, m.deadmanMask) && !mapper.awaitingCenter && mapper.lockedAxis.Some? && !asked.Jog?))
            && (after.resolutionWasPressed <==> Presses(raw, m, 2))
            && (after.selectionWasPressed <==> PressedSize(raw, m).Some?)
            && (after.nextResolution
                == if asked.SelectStep? && !(PressedSize(raw, m).Some? && !mapper.selectionWasPressed) then
                     (match mapper.nextResolution
                      case Mm001 => Mm010 case Mm010 => Mm050 case Mm050 => Mm100 case Mm100 => Mm001)
                   else mapper.nextResolution)
  {
    hide Mapped, IsValid, Down, Presses, PressedSize, Moves, AtRest, ControlMapper.Output, Next, Usable, Picks;
    var g := Mapped(raw, m);
    MappedKeepsTheRest(raw, m);
    MotionIsDocumented(raw, m);
    FacesAreDocumented(raw, m);
    SameSticks(raw, g, mapper);
    FreshIsUsable(g, now);
    UpdateIsDocumented(DEFAULT_CONFIG, mapper, g, now);
    UpdateLeaves(DEFAULT_CONFIG, mapper, g, now);
    PicksInFull(mapper, g);
  }

  /** An invalid mapping sends nothing. */
  lemma InvalidSendsNothing(raw: GamepadState, m: ProductionMapping, mapper: MapperState, now: uint32)
    requires !IsValid(m)
    ensures Read(CncReport(m.cncProfile, ControlMapper.Output(DEFAULT_CONFIG, mapper, Mapped(raw, m), now))) == Nothing
  {
    hide Mapped, IsValid, Moves, Picks, ControlMapper.Output, CncReport, Usable, Read;
    var g := Mapped(raw, m);
    InvalidIsCancelled(raw, m);
    UpdateIsDocumented(DEFAULT_CONFIG, mapper, g, now);
    ReportReadsBack(m.cncProfile, ControlMapper.Output(DEFAULT_CONFIG, mapper, g, now));
  }

  /** It is a held cancel: the sticks must be centred before anything moves. */
  lemma InvalidIsRemembered(raw: GamepadState, m: ProductionMapping, mapper: MapperState, now: uint32)
    requires !IsValid(m) && raw.connected && raw.sampleMs == now
    ensures Next(DEFAULT_CONFIG, mapper, Mapped(raw, m), now)
            == MapperState(None, true, false, false, mapper.nextResolution)
  {
    hide Mapped, IsValid, Moves, Picks, ControlMapper.Output, Next, Usable, AtRest;
    var g := Mapped(raw, m);
    InvalidIsCancelled(raw, m);
    MappedKeepsTheRest(raw, m);
    FreshIsUsable(g, now);
    UpdateIsDocumented(DEFAULT_CONFIG, mapper, g, now);
    UpdateLeaves(DEFAULT_CONFIG, mapper, g, now);
  }
}
