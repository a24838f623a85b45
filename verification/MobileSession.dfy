/** The mobile session over whole runs: replay protection, event delivery and corruption. */
module MobileSession {
  import opened Types
  import opened Bits
  import opened Crc8
  import opened MobileProtocol

  /** Every buffer handed to the session since its last reset. */
  ghost function Run(inputs: seq<seq<bv8>>): Session {
    if inputs == [] then FRESH_SESSION
    else AfterFrame(Run(inputs[..|inputs| - 1]), inputs[|inputs| - 1])
  }

  /** The buffers that were accepted, in order. */
  ghost function Accepted(inputs: seq<seq<bv8>>): (frames: seq<seq<bv8>>)
    ensures forall i :: 0 <= i < |frames| ==> |frames[i]| == FRAME_LENGTH
  {
    if inputs == [] then []
    else
      var before, last := inputs[..|inputs| - 1], inputs[|inputs| - 1];
      if Accepts(Run(before), last) then Accepted(before) + [last] else Accepted(before)
  }

  /** The number of the latest event-bearing frame, if there was one. */
  ghost function LatestEvent(frames: seq<seq<bv8>>): Option<bv8>
    requires forall i :: 0 <= i < |frames| ==> |frames[i]| == FRAME_LENGTH
  {
    if frames == [] then None
    else
      var last := frames[|frames| - 1];
      if last[7] != 0 then Some(last[6]) else LatestEvent(frames[..|frames| - 1])
  }

  /** The session a history of accepted frames stands for. */
  ghost function Summary(frames: seq<seq<bv8>>): Session
    requires forall i :: 0 <= i < |frames| ==> |frames[i]| == FRAME_LENGTH
  {
    var event := LatestEvent(frames);
    Session(frames != [], if frames == [] then 0 else SequenceOf(frames[|frames| - 1]),
            event.Some?, if event.Some? then event.value else 0)
  }

  /** The session remembers exactly its accepted history; rejected buffers leave no trace. */
  lemma {:induction false} SessionIsItsHistory(inputs: seq<seq<bv8>>)
    ensures Run(inputs) == Summary(Accepted(inputs))
  {
    hide FormatError, SequenceOf, InWindow16;
    if inputs != [] {
      var before, last := inputs[..|inputs| - 1], inputs[|inputs| - 1];
      SessionIsItsHistory(before);
      if Accepts(Run(before), last) {
        assert Accepted(inputs)[..|Accepted(before)|] == Accepted(before);
      }
    }
  }

  /** A rejected buffer, whatever is wrong with it, changes nothing: leaving all of them out is the same run. */
  lemma {:induction false} RejectedLeavesSession(inputs: seq<seq<bv8>>)
    ensures Run(Accepted(inputs)) == Run(inputs)
    ensures Accepted(Accepted(inputs)) == Accepted(inputs)
    ensures forall s, data, now :: Consume(s, data, now).accepted <==> Accepts(s, data)
    ensures forall s, data, now :: !Consume(s, data, now).accepted ==> AfterFrame(s, data) == s
  {
    hide FormatError, SequenceOf, InWindow16, Delivers;
    if inputs != [] {
      var before, last := inputs[..|inputs| - 1], inputs[|inputs| - 1];
      RejectedLeavesSession(before);
      if Accepts(Run(before), last) {
        assert Accepted(inputs)[..|Accepted(before)|] == Accepted(before);
      }
    }
  }

  /**
   * A frame accepted after any run delivers its event exactly when it has one whose number differs
   * from that of the latest accepted event-bearing frame.
   */
  lemma EventIsDeliveredOnce(inputs: seq<seq<bv8>>, data: seq<bv8>, now: uint32)
    requires Accepts(Run(inputs), data)
    ensures var input := Consume(Run(inputs), data, now).input;
            && ((input.cancel || input.selectResolution)
                <==> data[7] != 0 && LatestEvent(Accepted(inputs)) != Some(data[6]))
            && (input.cancel ==> data[7] == 5)
            && (input.selectResolution ==>
                  || (data[7] == 1 && input.selectedResolution == Mm001)
                  || (data[7] == 2 && input.selectedResolution == Mm010)
                  || (data[7] == 3 && input.selectedResolution == Mm050)
                  || (data[7] == 4 && input.selectedResolution == Mm100))
  {
    hide Run, Accepted;
    SessionIsItsHistory(inputs);
    SteeringHasNoEvents(data[4], now);
    SmallEvent(data);
  }

  lemma SteeringHasNoEvents(direction: bv8, now: uint32)
    ensures !Steered(direction, now).cancel && !Steered(direction, now).selectResolution
  {
  }

  lemma SmallEvent(data: seq<bv8>)
    requires FormatError(data) == NoError
    ensures |data| == FRAME_LENGTH && data[7] in {0, 1, 2, 3, 4, 5}
  {
    hide Crc;
    SmallByte(data[7]);
  }

  lemma SmallByte(b: bv8)
    ensures b <= 5 ==> b in {0, 1, 2, 3, 4, 5}
  {
  }

  /** Sequence numbers with the 16-bit wrap undone. */
  ghost function Unwrapped(numbers: seq<uint16>): nat
    requires numbers != []
  {
    var n := |numbers| - 1;
    if n == 0 then numbers[0]
    else Unwrapped(numbers[..n]) + Forward(numbers[n - 1], numbers[n])
  }

  ghost function Numbers(frames: seq<seq<bv8>>): (numbers: seq<uint16>)
    requires forall i :: 0 <= i < |frames| ==> |frames[i]| == FRAME_LENGTH
    ensures |numbers| == |frames|
  {
    seq(|frames|, i requires 0 <= i < |frames| => SequenceOf(frames[i]))
  }

  /** Each number is at most half the number space ahead of the one before. */
  ghost predicate StepsForward(numbers: seq<uint16>) {
    forall i :: 0 < i < |numbers| ==> 0 < Forward(numbers[i - 1], numbers[i]) <= 0x7fff
  }

  lemma {:induction false} AcceptedStepForward(inputs: seq<seq<bv8>>)
    ensures StepsForward(Numbers(Accepted(inputs)))
  {
    hide FormatError, SequenceOf, Forward;
    if inputs != [] {
      var before, last := inputs[..|inputs| - 1], inputs[|inputs| - 1];
      AcceptedStepForward(before);
      SessionIsItsHistory(before);
      if Accepts(Run(before), last) {
        WellFormedHasLength(last);
        assert Numbers(Accepted(inputs)) == Numbers(Accepted(before)) + [SequenceOf(last)];
      }
    }
  }

  lemma ModuloSum(a: nat, from: uint16, to: uint16)
    requires a % 0x1_0000 == from
    ensures (a + Forward(from, to)) % 0x1_0000 == to
  {
    var q := a / 0x1_0000;
    assert a == q * 0x1_0000 + from;
    if to >= from {
      assert a + Forward(from, to) == q * 0x1_0000 + to;
    } else {
      assert a + Forward(from, to) == (q + 1) * 0x1_0000 + to;
    }
  }

  lemma {:induction false} UnwrappedIsTheNumber(numbers: seq<uint16>)
    requires numbers != []
    ensures Unwrapped(numbers) % 0x1_0000 == numbers[|numbers| - 1]
  {
    var n := |numbers| - 1;
    if n > 0 {
      UnwrappedIsTheNumber(numbers[..n]);
      ModuloSum(Unwrapped(numbers[..n]), numbers[n - 1], numbers[n]);
    }
  }

  lemma {:induction false} UnwrappedGrows(numbers: seq<uint16>, i: nat, j: nat)
    requires i < j < |numbers| && StepsForward(numbers)
    ensures 0 < Unwrapped(numbers[..j + 1]) - Unwrapped(numbers[..i + 1]) <= 0x7fff * (j - i)
    decreases j
  {
    assert numbers[..j + 1][..j] == numbers[..j];
    if i < j - 1 {
      UnwrappedGrows(numbers, i, j - 1);
    }
  }

  /** Over any run, the unwrapped numbers of accepted frames strictly increase. */
  lemma AcceptedNumbersIncrease(inputs: seq<seq<bv8>>, i: nat, j: nat)
    requires i < j < |Accepted(inputs)|
    ensures var numbers := Numbers(Accepted(inputs));
            && Unwrapped(numbers[..i + 1]) < Unwrapped(numbers[..j + 1])
            && Unwrapped(numbers[..i + 1]) % 0x1_0000 == SequenceOf(Accepted(inputs)[i])
            && Unwrapped(numbers[..j + 1]) % 0x1_0000 == SequenceOf(Accepted(inputs)[j])
  {
    hide Unwrapped, SequenceOf, StepsForward, Accepted;
    var numbers := Numbers(Accepted(inputs));
    AcceptedStepForward(inputs);
    UnwrappedGrows(numbers, i, j);
    UnwrappedIsTheNumber(numbers[..i + 1]);
    UnwrappedIsTheNumber(numbers[..j + 1]);
  }

  /** Two accepted frames with the same 16-bit number are at least three acceptances apart. */
  lemma SameNumberIsThreeApart(inputs: seq<seq<bv8>>, i: nat, j: nat)
    requires i < j < |Accepted(inputs)|
    requires SequenceOf(Accepted(inputs)[i]) == SequenceOf(Accepted(inputs)[j])
    ensures j - i >= 3
  {
    hide Unwrapped, SequenceOf, StepsForward, Accepted;
    var numbers := Numbers(Accepted(inputs));
    AcceptedNumbersIncrease(inputs, i, j);
    AcceptedStepForward(inputs);
    UnwrappedGrows(numbers, i, j);
    EqualResiduesAreFar(Unwrapped(numbers[..i + 1]), Unwrapped(numbers[..j + 1]));
  }

  lemma EqualResiduesAreFar(a: nat, b: nat)
    requires a < b && a % 0x1_0000 == b % 0x1_0000
    ensures b - a >= 0x1_0000
  {
    assert a == (a / 0x1_0000) * 0x1_0000 + a % 0x1_0000;
    assert b == (b / 0x1_0000) * 0x1_0000 + b % 0x1_0000;
  }

  /** A frame that carries this number, direction and flags, with a good check and no event. */
  function FrameOf(number: uint16, direction: bv8, flags: bv8): (data: seq<bv8>)
    ensures |data| == FRAME_LENGTH
  {
    var body := BodyOf(number, direction, flags);
    body + [Crc(body)]
  }

  function BodyOf(number: uint16, direction: bv8, flags: bv8): (body: seq<bv8>)
    ensures |body| == 9
  {
    [FRAME_MAGIC, PROTOCOL_VERSION, ByteOf(number % 256), ByteOf(number / 256), direction, flags, 0, 0, MASSO_PROFILE]
  }

  lemma FrameIsSound(number: uint16, direction: bv8, flags: bv8)
    requires direction in {0, 2} && flags in {0, 1}
    ensures var data := FrameOf(number, direction, flags);
            && FormatError(data) == NoError && SequenceOf(data) == number
            && data[4] == direction && data[5] == flags && data[7] == 0
  {
    hide Crc, ByteOf;
    var data := FrameOf(number, direction, flags);
    assert data[..9] == BodyOf(number, direction, flags);
    ByteOfInt(number % 256);
    ByteOfInt(number / 256);
  }

  ghost function FramesOf(numbers: seq<uint16>): (frames: seq<seq<bv8>>)
    ensures |frames| == |numbers|
    ensures forall i :: 0 <= i < |frames| ==> |frames[i]| == FRAME_LENGTH
  {
    seq(|numbers|, i requires 0 <= i < |numbers| => FrameOf(numbers[i], 0, 0))
  }

  lemma NumbersOfFrames(numbers: seq<uint16>)
    ensures Numbers(FramesOf(numbers)) == numbers
  {
    hide FormatError, SequenceOf, FrameOf;
    forall i | 0 <= i < |numbers|
      ensures SequenceOf(FramesOf(numbers)[i]) == numbers[i]
    {
      FrameIsSound(numbers[i], 0, 0);
    }
  }

  /** Stepping forward is all it takes: every such list of numbers is accepted in full by some run. */
  lemma {:induction false} ForwardNumbersAreAccepted(numbers: seq<uint16>)
    requires StepsForward(numbers)
    ensures Accepted(FramesOf(numbers)) == FramesOf(numbers) && Numbers(FramesOf(numbers)) == numbers
  {
    hide FormatError, SequenceOf, FrameOf, Forward, Delivers;
    NumbersOfFrames(numbers);
    if numbers != [] {
      var n := |numbers| - 1;
      var before := FramesOf(numbers[..n]);
      assert FramesOf(numbers)[..n] == before;
      ForwardNumbersAreAccepted(numbers[..n]);
      SessionIsItsHistory(before);
      FrameIsSound(numbers[n], 0, 0);
      if n > 0 {
        assert SequenceOf(before[n - 1]) == numbers[n - 1];
      }
    }
  }

  /** Three is exact: four frames are all accepted, and the last has the number of the first. */
  lemma ThreeStepsCanReturn()
    ensures var inputs := FramesOf([0, 0x7fff, 0xfffe, 0]);
            && |Accepted(inputs)| == 4
            && SequenceOf(Accepted(inputs)[3]) == SequenceOf(Accepted(inputs)[0])
  {
    hide FramesOf, SequenceOf, Accepted;
    var numbers: seq<uint16> := [0, 0x7fff, 0xfffe, 0];
    ForwardNumbersAreAccepted(numbers);
    assert Numbers(FramesOf(numbers))[0] == Numbers(FramesOf(numbers))[3];
  }

  /** An accepted frame damaged by an odd number of flips, or by a burst of at most 8 bits, is rejected. */
  lemma DamagedFrameIsRejected(s: Session, s': Session, data: seq<bv8>, error: seq<bv8>, now: uint32)
    requires Accepts(s, data) && |error| == FRAME_LENGTH && Detectable(error)
    ensures !Consume(s', XorBytes(data, error), now).accepted
    ensures AfterFrame(s', XorBytes(data, error)) == s'
  {
    hide Crc, Detectable, XorBytes;
    WellFormedIsDivisible(data);
    DetectableIsSeen(error);
    CrcIsLinear(data, error);
    ZeroChangesNothing(Crc(error));
    if FormatError(XorBytes(data, error)) == NoError {
      WellFormedIsDivisible(XorBytes(data, error));
    }
  }

  lemma ZeroChangesNothing(b: bv8)
    ensures 0 ^ b == b
  {
  }

  lemma WellFormedIsDivisible(data: seq<bv8>)
    requires FormatError(data) == NoError
    ensures |data| == FRAME_LENGTH && Crc(data) == 0
  {
    hide Crc;
    WellFormedHasLength(data);
    assert data == data[..9] + [data[9]];
    AppendedCrcGivesZero(data[..9], data[9]);
  }
}
