/** What one phone frame asks of the machine, from its bytes alone. */
module MobileMeaning {
  import opened Types
  import opened MassoKeyboard
  import opened ControlMapper
  import opened MobileProtocol
  import opened MobileReceiver
  import opened UsbOutput
  import Crc8

  /** The documented frame: ten bytes, magic, version, check, profile, and no bit or code without a meaning. */
  predicate IsWellFormed(data: seq<bv8>) {
    && |data| == 10 && data[0] == 0x52 && data[1] == 2 && data[8] == 1
    && Crc8.Crc(data[..9]) == data[9]
    && data[5] & 0xf8 == 0 && data[5] & 0x06 != 0x06
    && data[4] in {0, 1, 2, 3, 4, 5, 6} && data[7] in {0, 1, 2, 3, 4, 5}
  }

  /** Its number is at most half the number space ahead of the last accepted one. */
  predicate IsNext(s: Session, data: seq<bv8>)
    requires |data| == 10
  {
    s.hasSequence ==>
      0 < (ByteValue(data[2]) + 256 * ByteValue(data[3]) - s.lastSequence) % 0x1_0000 <= 0x7fff
  }

  /** Its event, if any, has not just been delivered. */
  predicate IsFresh(s: Session, data: seq<bv8>)
    requires |data| == 10
  {
    data[7] != 0 && !(s.hasEvent && s.lastEvent == data[6])
  }

  function AxisOf(direction: bv8): Option<Axis> {
    if direction == 1 || direction == 2 then Some(X)
    else if direction == 3 || direction == 4 then Some(Y)
    else if direction == 5 || direction == 6 then Some(Z)
    else None
  }

  /** Even directions move the positive way. */
  function WayOf(direction: bv8): Direction {
    if direction == 2 || direction == 4 || direction == 6 then Positive else Negative
  }

  function SizeOfEvent(event: bv8): Option<StepResolution> {
    if event == 1 then Some(Mm001)
    else if event == 2 then Some(Mm010)
    else if event == 3 then Some(Mm050)
    else if event == 4 then Some(Mm100)
    else None
  }

  /** Dead-man bit set and a direction given. */
  predicate AsksMotion(data: seq<bv8>)
    requires |data| == 10
  {
    data[5] & 0x01 != 0 && data[4] != 0
  }

  /** The documented reading of an accepted frame. */
  function Requested(s: State, data: seq<bv8>): Meaning
    requires |data| == 10
  {
    var unseen := IsFresh(s.session, data);
    if unseen && data[7] == 5 then Nothing
    else if AsksMotion(data) then
      var axis, locked := AxisOf(data[4]), s.mapper.lockedAxis;
      if s.neutralRequired || s.mapper.awaitingCenter || axis.None? || (locked.Some? && locked != axis) then Nothing
      else Jog(axis.value, WayOf(data[4]), data[5] & 0x02 != 0)
    else if data[5] & 0x01 == 0 && data[4] == 0 && unseen && !s.mapper.selectionWasPressed && SizeOfEvent(data[7]).Some? then
      SelectStep(SizeOfEvent(data[7]).value)
    else Nothing
  }

  lemma FormatIsDocumented(data: seq<bv8>)
    ensures FormatError(data) == NoError <==> IsWellFormed(data)
  {
    hide Crc8.Crc;
    if |data| == 10 {
      SmallBytes(data[4], data[7]);
    }
  }

  lemma SmallBytes(a: bv8, b: bv8)
    ensures a <= 6 <==> a in {0, 1, 2, 3, 4, 5, 6}
    ensures b <= 5 <==> b in {0, 1, 2, 3, 4, 5}
  {
  }

  /** A frame is accepted exactly when it is well formed and next. */
  lemma AcceptanceIsDocumented(s: Session, data: seq<bv8>)
    ensures Accepts(s, data) <==> IsWellFormed(data) && IsNext(s, data)
  {
    hide FormatError, IsWellFormed;
    FormatIsDocumented(data);
    WellFormedIsTen(data);
  }

  lemma WellFormedIsTen(data: seq<bv8>)
    ensures IsWellFormed(data) ==> |data| == 10
  {
    hide Crc8.Crc;
  }

  /** The levels of an accepted frame, bit by bit. */
  lemma LevelsAreDocumented(s: Session, data: seq<bv8>, now: uint32)
    requires Accepts(s, data)
    ensures |data| == 10
    ensures var g := Consume(s, data, now).input;
            && g.connected && g.sampleMs == now && !g.cycleResolution
            && (g.deadman <==> data[5] & 0x01 != 0)
            && (g.rapid <==> data[5] & 0x02 != 0)
            && (g.precision <==> data[5] & 0x04 != 0)
  {
    hide FormatError, InWindow16, SequenceOf, Delivers, StepOfEvent;
    WellFormedHasLength(data);
  }

  lemma HeldHasNoEvent(data: seq<bv8>, now: uint32)
    requires |data| == 10
    ensures !HeldControls(data, now).cancel && !HeldControls(data, now).selectResolution
  {
  }

  /** The event of an accepted frame. */
  lemma EventIsDocumented(s: Session, data: seq<bv8>, now: uint32)
    requires Accepts(s, data)
    ensures |data| == 10
    ensures var g := Consume(s, data, now).input;
            && (g.cancel <==> IsFresh(s, data) && data[7] == 5)
            && (g.selectResolution <==> IsFresh(s, data) && data[7] != 5)
            && (g.selectResolution ==> SizeOfEvent(data[7]) == Some(g.selectedResolution))
  {
    hide FormatError, InWindow16, SequenceOf, HeldControls;
    WellFormedHasLength(data);
    EventsAreSmall(s, data);
    HeldHasNoEvent(data, now);
  }

  lemma EventsAreSmall(s: Session, data: seq<bv8>)
    requires Accepts(s, data)
    ensures |data| == 10 && data[7] in {0, 1, 2, 3, 4, 5} && data[4] in {0, 1, 2, 3, 4, 5, 6}
    ensures data[5] & 0x06 != 0x06
  {
    hide FormatError, InWindow16, SequenceOf, Crc8.Crc;
    FormatIsDocumented(data);
  }

  /** One stick, fully deflected, for each direction. */
  lemma SticksAreDocumented(s: Session, data: seq<bv8>, now: uint32, mapper: MapperState)
    requires Accepts(s, data)
    ensures |data| == 10
    ensures var g := Consume(s, data, now).input;
            && (AtRest(g, 9000) <==> AxisOf(data[4]).None?)
            && Moves(mapper, g, 9000)
               == if mapper.awaitingCenter || AxisOf(data[4]).None?
                     || (mapper.lockedAxis.Some? && mapper.lockedAxis != AxisOf(data[4])) then None
                  else Some((AxisOf(data[4]).value, WayOf(data[4])))
  {
    hide FormatError, InWindow16, SequenceOf, Delivers, StepOfEvent;
    WellFormedHasLength(data);
  }

  lemma NoAxisNoDirection(direction: bv8)
    requires direction in {0, 1, 2, 3, 4, 5, 6}
    ensures AxisOf(direction).None? <==> direction == 0
  {
  }

  /** Both rate bits together are refused, so the rapid bit alone decides. */
  lemma RateBits(flags: bv8)
    requires flags & 0x06 != 0x06
    ensures flags & 0x02 != 0 && flags & 0x04 == 0 <==> flags & 0x02 != 0
  {
  }

  /** After any frame the wanted key is exactly what its bytes ask for, if it is accepted, and none otherwise. */
  lemma FrameIsExact(s: State, data: seq<bv8>, now: uint32)
    ensures Accepts(s.session, data) ==> |data| == 10
    ensures var s' := OnFrame(s, data, now);
            && Read(s'.output.desired) == (if Accepts(s.session, data) then Requested(s, data) else Nothing)
            && (HasKey(s'.output.desired) <==> Read(s'.output.desired) != Nothing)
            && (s'.neutralRequired <==>
                  || !Accepts(s.session, data)
                  || (IsFresh(s.session, data) && data[7] == 5)
                  || (AsksMotion(data) && s.neutralRequired))
            && s'.lastValidMs == (if Accepts(s.session, data) then now else s.lastValidMs)
  {
    hide Consume, AfterFrame, Accepts, Next, ControlMapper.Output, CncReport, Read, Moves, Usable, AtRest, Picks,
      AxisOf, WayOf, SizeOfEvent, IsFresh;
    ReleasedMeansNothing();
    if Accepts(s.session, data) {
      var g := Consume(s.session, data, now).input;
      AcceptedFrame(s.session, data, now);
      LevelsAreDocumented(s.session, data, now);
      EventIsDocumented(s.session, data, now);
      SticksAreDocumented(s.session, data, now, s.mapper);
      EventsAreSmall(s.session, data);
      NoAxisNoDirection(data[4]);
      RateBits(data[5]);
      FreshSampleIsUsable(g, now);
      UpdateIsDocumented(DEFAULT_CONFIG, s.mapper, g, now);
      ReportReadsBack(MASSO_G3_TOUCH_5_13, ControlMapper.Output(DEFAULT_CONFIG, s.mapper, g, now));
      PicksWithoutCycle(s.mapper, g);
    }
  }

  lemma ReleasedMeansNothing()
    ensures Read(RELEASED) == Nothing
  {
  }

  lemma FreshSampleIsUsable(g: GamepadState, now: uint32)
    requires g.connected && g.sampleMs == now
    ensures Usable(DEFAULT_CONFIG, g, now)
  {
  }

  lemma PicksWithoutCycle(s: MapperState, g: GamepadState)
    requires !g.cycleResolution
    ensures Picks(s, g, 9000)
            == if AtRest(g, 9000) && g.selectResolution && !s.selectionWasPressed then Some(g.selectedResolution) else None
  {
  }

  /** What a frame leaves in the mapper and the session. */
  lemma FrameLeaves(s: State, data: seq<bv8>, now: uint32)
    ensures Accepts(s.session, data) ==> |data| == 10
    ensures !Accepts(s.session, data) ==>
              var s' := OnFrame(s, data, now);
              s'.session == s.session && s'.mapper == MapperState(None, false, false, false, s.mapper.nextResolution)
    ensures Accepts(s.session, data) ==>
              var s', asked, cancels := OnFrame(s, data, now), Requested(s, data), IsFresh(s.session, data) && data[7] == 5;
              && s'.mapper == (if AsksMotion(data) && (cancels || s.neutralRequired) then
                                 MapperState(None, false, false, false, s.mapper.nextResolution)
                               else
                                 MapperState(
                                   if asked.Jog? then Some(asked.axis) else None,
                                   cancels || (data[5] & 0x01 != 0 && s.mapper.awaitingCenter && data[4] != 0)
                                   || (data[5] & 0x01 != 0 && !s.mapper.awaitingCenter && s.mapper.lockedAxis.Some? && !asked.Jog?),
                                   false, IsFresh(s.session, data) && data[7] != 5, s.mapper.nextResolution))
              && s'.session == Session(true, ByteValue(data[2]) + 256 * ByteValue(data[3]),
                                       s.session.hasEvent || data[7] != 0,
                                       if data[7] != 0 then data[6] else s.session.lastEvent)
  {
    hide Consume, Accepts, Next, ControlMapper.Output, CncReport, Moves, Usable, AtRest, Picks, AxisOf, WayOf,
      SizeOfEvent, IsFresh, FormatError, AfterFrame, ResetMapper;
    ResetForgets(s.mapper, now);
    AcceptedFrame(s.session, data, now);
    if Accepts(s.session, data) {
      var g := Consume(s.session, data, now).input;
      LevelsAreDocumented(s.session, data, now);
      EventIsDocumented(s.session, data, now);
      SticksAreDocumented(s.session, data, now, s.mapper);
      EventsAreSmall(s.session, data);
      NoAxisNoDirection(data[4]);
      FreshSampleIsUsable(g, now);
      UpdateIsDocumented(DEFAULT_CONFIG, s.mapper, g, now);
      UpdateLeaves(DEFAULT_CONFIG, s.mapper, g, now);
      PicksWithoutCycle(s.mapper, g);
      SessionIsDocumented(s.session, data);
    } else {
      RejectedKeepsSession(s.session, data);
    }
  }

  lemma ResetForgets(m: MapperState, now: uint32)
    ensures ResetMapper(m, now) == MapperState(None, false, false, false, m.nextResolution)
  {
  }

  lemma RejectedKeepsSession(s: Session, data: seq<bv8>)
    requires !Accepts(s, data)
    ensures AfterFrame(s, data) == s
  {
  }

  lemma SessionIsDocumented(s: Session, data: seq<bv8>)
    requires Accepts(s, data)
    ensures |data| == 10
    ensures AfterFrame(s, data)
            == Session(true, ByteValue(data[2]) + 256 * ByteValue(data[3]), s.hasEvent || data[7] != 0,
                       if data[7] != 0 then data[6] else s.lastEvent)
  {
    hide FormatError;
    WellFormedHasLength(data);
  }

  /** A malformed frame is refused for the first thing wrong with it, in this order. */
  lemma FirstErrorIsReported(data: seq<bv8>)
    ensures FormatError(data)
            == if |data| != 10 then WrongLength
               else if data[0] != 0x52 then BadMagic
               else if data[1] != 2 then BadVersion
               else if Crc8.Crc(data[..9]) != data[9] then BadCrc
               else if data[8] != 1 then UnsupportedProfile
               else if data[5] & 0xf8 != 0 then InvalidFlags
               else if data[4] !in {0, 1, 2, 3, 4, 5, 6} then InvalidDirection
               else if data[7] !in {0, 1, 2, 3, 4, 5} then InvalidEvent
               else if data[5] & 0x06 == 0x06 then AmbiguousRate
               else NoError
  {
    hide Crc8.Crc;
    if |data| == 10 {
      SmallBytes(data[4], data[7]);
    }
  }

  /** The bridge after a loss of trust: everything forgotten but the cycle position, and a neutral frame demanded. */
  function Distrusted(s: State): State {
    s.(mapper := MapperState(None, false, false, false, s.mapper.nextResolution), neutralRequired := true,
       output := s.output.(desired := RELEASED))
  }

  /** What happens between frames: links come and go, 150 ms pass without a frame, the endpoint is served. */
  lemma OtherEventsInFull(s: State, e: Event)
    requires !e.Frame?
    ensures e.Connected? || e.Disconnected? ==>
              Step(s, e) == Distrusted(s).(session := Session(false, 0, false, 0), lastValidMs := 0)
    ensures e.TimeoutPass? ==>
              var silent := s.lastValidMs != 0 && (Clock(e.t) - s.lastValidMs) % 0x1_0000_0000 > 150;
              Step(s, e) == if s.output.desired != RELEASED && silent then Distrusted(s).(lastValidMs := 0) else s
    ensures e.UsbPass? ==>
              var r := ServiceUsb(s.output, e.env);
              Step(s, e) == (if r.locked then Distrusted(s) else s).(output := r.output)
  {
    hide ServiceUsb;
  }
}
