/** The phone's 10-byte frames: validation, replay window and event de-duplication. */
module MobileProtocol {
  import opened Types
  import opened Crc8

  const FRAME_LENGTH := 10
  const FRAME_MAGIC: bv8 := 0x52
  const PROTOCOL_VERSION: bv8 := 2
  const MASSO_PROFILE: bv8 := 1
  const FULL_NEGATIVE: int16 := -32767
  const FULL_POSITIVE: int16 := 32767

  datatype FrameError =
    | NoError
    | WrongLength
    | BadMagic
    | BadVersion
    | BadCrc
    | UnsupportedProfile
    | InvalidFlags
    | InvalidDirection
    | InvalidEvent
    | AmbiguousRate
    | ReplayedSequence

  datatype FrameResult = FrameResult(accepted: bool, error: FrameError, sequence: uint16, profile: bv8, input: GamepadState)

  function Rejection(error: FrameError): FrameResult {
    FrameResult(false, error, 0, MASSO_PROFILE, IdleState(0))
  }

  datatype Session = Session(hasSequence: bool, lastSequence: uint16, hasEvent: bool, lastEvent: bv8)

  const FRESH_SESSION := Session(false, 0, false, 0)

  function ByteValue(b: bv8): (n: nat)
    ensures n < 256
  {
    b as int
  }

  function SequenceOf(data: seq<bv8>): uint16
    requires |data| == FRAME_LENGTH
  {
    ByteValue(data[2]) + 256 * ByteValue(data[3])
  }

  /** Unsigned 16-bit distance from one sequence number to a later one. */
  function Forward(from: uint16, to: uint16): uint16 {
    (to - from) % 0x1_0000
  }

  /** The first complaint about the frame itself, in the order the checks are made. */
  function FormatError(data: seq<bv8>): FrameError {
    if |data| != FRAME_LENGTH then WrongLength
    else if data[0] != FRAME_MAGIC then BadMagic
    else if data[1] != PROTOCOL_VERSION then BadVersion
    else if Crc(data[..9]) != data[9] then BadCrc
    else if data[8] != MASSO_PROFILE then UnsupportedProfile
    else if data[5] & 0xf8 != 0 then InvalidFlags
    else if data[4] > 6 then InvalidDirection
    else if data[7] > 5 then InvalidEvent
    else if data[5] & 0x06 == 0x06 then AmbiguousRate
    else NoError
  }

  predicate InWindow16(s: Session, sequence: uint16) {
    s.hasSequence ==> 0 < Forward(s.lastSequence, sequence) <= 0x7fff
  }

  /** The frame carries an event this session has not just seen. */
  predicate Delivers(s: Session, data: seq<bv8>)
    requires |data| == FRAME_LENGTH
  {
    data[7] != 0 && !(s.hasEvent && data[6] == s.lastEvent)
  }

  function Steered(direction: bv8, now: uint32): GamepadState {
    var idle := IdleState(now).(connected := true);
    if direction == 1 then idle.(leftX := FULL_NEGATIVE)
    else if direction == 2 then idle.(leftX := FULL_POSITIVE)
    else if direction == 3 then idle.(leftY := FULL_POSITIVE)
    else if direction == 4 then idle.(leftY := FULL_NEGATIVE)
    else if direction == 5 then idle.(rightY := FULL_POSITIVE)
    else if direction == 6 then idle.(rightY := FULL_NEGATIVE)
    else idle
  }

  function StepOfEvent(event: bv8): StepResolution {
    if event == 1 then Mm001 else if event == 2 then Mm010 else if event == 3 then Mm050 else Mm100
  }

  /** The level-sensitive half of a frame: direction, dead-man and rate. */
  function HeldControls(data: seq<bv8>, now: uint32): GamepadState
    requires |data| == FRAME_LENGTH
  {
    Steered(data[4], now).(
      deadman := data[5] & 0x01 != 0,
      rapid := data[5] & 0x02 != 0,
      precision := data[5] & 0x04 != 0)
  }

  function InputOf(s: Session, data: seq<bv8>, now: uint32): GamepadState
    requires |data| == FRAME_LENGTH
  {
    var held := HeldControls(data, now);
    if !Delivers(s, data) then held
    else if data[7] == 5 then held.(cancel := true)
    else held.(selectResolution := true, selectedResolution := StepOfEvent(data[7]))
  }

  predicate Accepts(s: Session, data: seq<bv8>) {
    FormatError(data) == NoError && InWindow16(s, SequenceOf(data))
  }

  function Consume(s: Session, data: seq<bv8>, now: uint32): FrameResult {
    if FormatError(data) != NoError then Rejection(FormatError(data))
    else if !InWindow16(s, SequenceOf(data)) then Rejection(ReplayedSequence)
    else FrameResult(true, NoError, SequenceOf(data), data[8], InputOf(s, data, now))
  }

  function AfterFrame(s: Session, data: seq<bv8>): Session {
    if !Accepts(s, data) then s
    else if Delivers(s, data) then Session(true, SequenceOf(data), true, data[6])
    else s.(hasSequence := true, lastSequence := SequenceOf(data))
  }

  /** The bytes behind a possibly null buffer pointer. */
  ghost function Buffer(data: array?<bv8>): seq<bv8>
    reads data
  {
    if data == null then [] else data[..]
  }

  class MobileInputSession {
    var hasSequence: bool
    var lastSequence: uint16
    var hasEvent: bool
    var lastEventSequence: bv8

    constructor ()
      ensures State() == FRESH_SESSION
    {
      hasSequence, lastSequence, hasEvent, lastEventSequence := false, 0, false, 0;
    }

    ghost function State(): Session
      reads this
    {
      Session(hasSequence, lastSequence, hasEvent, lastEventSequence)
    }

    method Reset()
      modifies this
      ensures State() == FRESH_SESSION
    {
      hasSequence, lastSequence, hasEvent, lastEventSequence := false, 0, false, 0;
    }

    method CheckFormat(data: array?<bv8>) returns (error: FrameError)
      ensures error == FormatError(Buffer(data))
    {
      hide Crc;
      if data == null || data.Length != FRAME_LENGTH {
        return WrongLength;
      }
      if data[0] != FRAME_MAGIC {
        return BadMagic;
      }
      if data[1] != PROTOCOL_VERSION {
        return BadVersion;
      }
      var crc := MobileCrc8(data, FRAME_LENGTH - 1);
      assert data[..][..9] == data[..9];
      if crc != data[9] {
        return BadCrc;
      }
      if data[8] != MASSO_PROFILE {
        return UnsupportedProfile;
      }
      if data[5] & 0xf8 != 0 {
        return InvalidFlags;
      }
      if data[4] > 6 {
        return InvalidDirection;
      }
      if data[7] > 5 {
        return InvalidEvent;
      }
      error := if data[5] & 0x06 == 0x06 then AmbiguousRate else NoError;
    }

    method ConsumeFrame(data: array?<bv8>, now: uint32) returns (result: FrameResult)
      modifies this
      ensures result == Consume(old(State()), Buffer(data), now)
      ensures State() == AfterFrame(old(State()), Buffer(data))
    {
      hide FormatError, ByteValue, Forward, HeldControls, Steered, StepOfEvent;
      var error := CheckFormat(data);
      if error != NoError {
        return Rejection(error);
      }
      WellFormedHasLength(Buffer(data));
      var sequence: uint16 := ByteValue(data[2]) + 256 * ByteValue(data[3]);
      if hasSequence {
        var delta := Forward(lastSequence, sequence);
        if delta == 0 || delta > 0x7fff {
          return Rejection(ReplayedSequence);
        }
      }
      hasSequence := true;
      lastSequence := sequence;
      var input := HeldControls(data[..], now);
      if data[7] != 0 && !(hasEvent && data[6] == lastEventSequence) {
        hasEvent := true;
        lastEventSequence := data[6];
        if data[7] == 5 {
          input := input.(cancel := true);
        } else {
          input := input.(selectResolution := true, selectedResolution := StepOfEvent(data[7]));
        }
      }
      result := FrameResult(true, NoError, sequence, data[8], input);
    }
  }

  lemma WellFormedHasLength(data: seq<bv8>)
    requires FormatError(data) == NoError
    ensures |data| == FRAME_LENGTH && Crc(data[..9]) == data[9] && data[4] <= 6 && data[7] <= 5
  {
  }
}
