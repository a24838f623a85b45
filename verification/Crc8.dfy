/** The mobile frame check: an 8-bit CRC with generator x^8 + x^2 + x + 1, most significant bit first. */
module Crc8 {
  import opened Bits
  import opened Lfsr

  const GENERATOR := [false, false, false, false, false, true, true, true]

  function Step(c: bv8): bv8 {
    if c & 0x80 != 0 then (c << 1) ^ 0x07 else c << 1
  }

  function Steps(c: bv8, n: nat): bv8 {
    if n == 0 then c else Step(Steps(c, n - 1))
  }

  function Crc(data: seq<bv8>): bv8 {
    if data == [] then 0 else Steps(Crc(data[..|data| - 1]) ^ data[|data| - 1], 8)
  }

  method MobileCrc8(data: array<bv8>, length: nat) returns (crc: bv8)
    requires length <= data.Length
    ensures crc == Crc(data[..length])
  {
    crc := 0;
    for i := 0 to length
      invariant crc == Crc(data[..i])
    {
      assert data[..i + 1][..i] == data[..i];
      crc := crc ^ data[i];
      ghost var mixed := crc;
      for bit := 0 to 8
        invariant crc == Steps(mixed, bit)
      {
        crc := if crc & 0x80 != 0 then (crc << 1) ^ 0x07 else crc << 1;
      }
    }
  }

  lemma StepBit(c: bv8, i: nat)
    requires i < 8
    ensures Bit(Step(c), i) <==> ((i > 0 && Bit(c, i - 1)) != (Bit(c, 7) && i <= 2))
  {
    if c & 0x80 != 0 {
    } else {
    }
  }

  lemma StepIsShift(c: bv8)
    ensures MsbBits(Step(c)) == Shift(GENERATOR, MsbBits(c))
  {
    forall i | 0 <= i < 8
      ensures MsbBits(Step(c))[i] == Shift(GENERATOR, MsbBits(c))[i]
    {
      StepBit(c, 7 - i);
      assert GENERATOR[i] <==> 7 - i <= 2;
    }
  }

  lemma BitsOfXor(a: bv8, b: bv8)
    ensures MsbBits(a ^ b) == Xor(MsbBits(a), MsbBits(b))
  {
    forall i | 0 <= i < 8
      ensures MsbBits(a ^ b)[i] == Xor(MsbBits(a), MsbBits(b))[i]
    {
      BitOfXor(a, b, 7 - i);
    }
  }

  lemma BitsOfZero(c: bv8)
    ensures AllZero(MsbBits(c)) <==> c == 0
  {
    if AllZero(MsbBits(c)) {
      forall i | 0 <= i < 8
        ensures !Bit(c, i)
      {
        assert !MsbBits(c)[7 - i];
      }
      AllBitsClear(c);
    }
  }

  lemma {:induction false} StepsAreShifts(c: bv8, n: nat)
    ensures MsbBits(Steps(c, n)) == Shifts(GENERATOR, MsbBits(c), n)
  {
    if n != 0 {
      StepsAreShifts(c, n - 1);
      StepIsShift(Steps(c, n - 1));
    }
  }

  lemma ByteIsFed(c: bv8, d: bv8)
    ensures MsbBits(Steps(c ^ d, 8)) == Feed(GENERATOR, MsbBits(c), MsbBits(d))
  {
    StepsAreShifts(c ^ d, 8);
    BitsOfXor(c, d);
    WordIsFed(GENERATOR, MsbBits(c), MsbBits(d));
  }

  /** The byte-wise loop is long division of the message bits by the generator. */
  lemma {:induction false} CrcIsDivision(data: seq<bv8>)
    ensures MsbBits(Crc(data)) == Feed(GENERATOR, Zeros(8), MsbStream(data))
  {
    if data == [] {
      BitsOfZero(0);
      ZeroIsZeros(MsbBits(0));
    } else {
      var before, last := data[..|data| - 1], data[|data| - 1];
      CrcIsDivision(before);
      ByteIsFed(Crc(before), last);
      FeedOfConcat(GENERATOR, Zeros(8), MsbStream(before), MsbBits(last));
    }
  }

  lemma {:induction false} StreamOfXor(a: seq<bv8>, b: seq<bv8>)
    requires |a| == |b|
    ensures MsbStream(XorBytes(a, b)) == Xor(MsbStream(a), MsbStream(b))
  {
    if a != [] {
      var n := |a| - 1;
      assert XorBytes(a, b)[..n] == XorBytes(a[..n], b[..n]);
      StreamOfXor(a[..n], b[..n]);
      BitsOfXor(a[n], b[n]);
      XorOfConcat(MsbStream(a[..n]), MsbBits(a[n]), MsbStream(b[..n]), MsbBits(b[n]));
    }
  }

  lemma SameBitsSameByte(a: bv8, b: bv8)
    requires MsbBits(a) == MsbBits(b)
    ensures a == b
  {
    BitsOfXor(a, b);
    BitsOfZero(a ^ b);
    assert a ^ b == 0 ==> a == b;
  }

  /** The CRC is linear over exclusive-or, at every message length. */
  lemma CrcIsLinear(a: seq<bv8>, b: seq<bv8>)
    requires |a| == |b|
    ensures Crc(XorBytes(a, b)) == Crc(a) ^ Crc(b)
  {
    CrcIsDivision(a);
    CrcIsDivision(b);
    CrcIsDivision(XorBytes(a, b));
    StreamOfXor(a, b);
    FeedIsLinear(GENERATOR, Zeros(8), Zeros(8), MsbStream(a), MsbStream(b));
    XorWithZero(Zeros(8), Zeros(8));
    BitsOfXor(Crc(a), Crc(b));
    SameBitsSameByte(Crc(XorBytes(a, b)), Crc(a) ^ Crc(b));
  }

  lemma StepsAreInjective(c: bv8)
    ensures Steps(c, 8) == 0 <==> c == 0
  {
    StepsAreShifts(c, 8);
    ShiftsAreInjective(GENERATOR, MsbBits(c), 8);
    BitsOfZero(c);
    BitsOfZero(Steps(c, 8));
  }

  /** Appending one byte to a message gives zero exactly when that byte is the message's CRC. */
  lemma AppendedCrcGivesZero(data: seq<bv8>, check: bv8)
    ensures Crc(data + [check]) == 0 <==> check == Crc(data)
  {
    assert (data + [check])[..|data|] == data;
    StepsAreInjective(Crc(data) ^ check);
    XorZeroMeansEqual(Crc(data), check);
  }

  lemma XorZeroMeansEqual(a: bv8, b: bv8)
    ensures a ^ b == 0 <==> a == b
  {
  }

  lemma GeneratorIsOdd()
    ensures Odd(GENERATOR)
  {
    var zeros := Zeros(5);
    assert GENERATOR == zeros + [true] + [true] + [true];
    OnesOfConcat(zeros + [true] + [true], [true]);
    OnesOfConcat(zeros + [true], [true]);
    OnesOfConcat(zeros, [true]);
    OnesOfZero(zeros);
    assert Ones([true]) == Ones([]) + 1;
  }

  /** The CRC carries the bit parity of the whole message. */
  lemma CrcKeepsParity(data: seq<bv8>)
    ensures Odd(MsbBits(Crc(data))) <==> Odd(MsbStream(data))
  {
    CrcIsDivision(data);
    GeneratorIsOdd();
    FeedKeepsParity(GENERATOR, Zeros(8), MsbStream(data));
    OnesOfZero(Zeros(8));
  }

  /** An error the CRC is guaranteed to see: an odd number of flips, or a burst of at most 8 bits. */
  ghost predicate Detectable(error: seq<bv8>) {
    Odd(MsbStream(error)) || Burst(MsbStream(error), 8)
  }

  lemma DetectableIsSeen(error: seq<bv8>)
    requires Detectable(error)
    ensures Crc(error) != 0
  {
    BitsOfZero(Crc(error));
    if Odd(MsbStream(error)) {
      CrcKeepsParity(error);
      if AllZero(MsbBits(Crc(error))) {
        OnesOfZero(MsbBits(Crc(error)));
      }
    } else {
      CrcIsDivision(error);
      BurstIsSeen(GENERATOR, MsbStream(error));
    }
  }
}
