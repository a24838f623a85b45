/** The record check: the CRC-32 of section 8 of RFC 1952, least significant bit first. */
module Crc32 {
  import opened Bits
  import opened Lfsr

  const POLYNOMIAL: bv32 := 0xedb88320
  const ALL_ONES: bv32 := 0xffffffff

  function Mix(a: bv32, b: bv32): bv32 {
    a ^ b
  }

  /** The branch-free inner step of the firmware. */
  function Step(c: bv32): bv32 {
    (c >> 1) ^ (POLYNOMIAL & (0 - (c & 1)))
  }

  function Steps(c: bv32, n: nat): bv32 {
    if n == 0 then c else Step(Steps(c, n - 1))
  }

  /** The register after some bytes, before the final complement. */
  function Register(start: bv32, data: seq<bv8>): bv32 {
    if data == [] then start
    else Steps(Mix(Register(start, data[..|data| - 1]), data[|data| - 1] as bv32), 8)
  }

  function Not(c: bv32): bv32 {
    !c
  }

  function Crc(data: seq<bv8>): bv32 {
    Not(Register(ALL_ONES, data))
  }

  method ComputeCrc32(data: array<bv8>, size: nat) returns (crc: bv32)
    requires size <= data.Length
    ensures crc == Crc(data[..size])
  {
    hide Step, Mix;
    crc := ALL_ONES;
    for i := 0 to size
      invariant crc == Register(ALL_ONES, data[..i])
    {
      assert data[..i + 1][..i] == data[..i];
      crc := Mix(crc, data[i] as bv32);
      ghost var mixed := crc;
      for bit := 0 to 8
        invariant crc == Steps(mixed, bit)
      {
        crc := Step(crc);
      }
    }
    crc := Not(crc);
  }

  function Half(w: bv32): bv32 {
    w >> 1
  }

  function RightBy(w: bv32, n: nat): bv32 {
    if n == 0 then w else Half(RightBy(w, n - 1))
  }

  predicate Low(w: bv32) {
    w & 1 != 0
  }

  /** All 32 bits of a word, least significant first. */
  function WordBits(w: bv32): (r: seq<bool>)
    ensures |r| == 32
  {
    seq(32, i requires 0 <= i < 32 => Low(RightBy(w, i)))
  }

  lemma {:induction false} RightByAdds(w: bv32, m: nat, n: nat)
    ensures RightBy(RightBy(w, m), n) == RightBy(w, m + n)
  {
    hide Half;
    if n != 0 {
      RightByAdds(w, m, n - 1);
    }
  }

  lemma HalfOfShift(w: bv32)
    ensures Half(w) == w >> 1 && Half(w >> 1) == w >> 2 && Half(w >> 2) == w >> 3 && Half(w >> 3) == w >> 4
    ensures Half(w >> 4) == w >> 5 && Half(w >> 5) == w >> 6 && Half(w >> 6) == w >> 7 && Half(w >> 7) == w >> 8
  {
  }

  lemma RightByIsShift(w: bv32)
    ensures RightBy(w, 1) == w >> 1 && RightBy(w, 2) == w >> 2 && RightBy(w, 3) == w >> 3 && RightBy(w, 4) == w >> 4
    ensures RightBy(w, 5) == w >> 5 && RightBy(w, 6) == w >> 6 && RightBy(w, 7) == w >> 7 && RightBy(w, 8) == w >> 8
  {
    hide Half;
    HalfOfShift(w);
    assert RightBy(w, 1) == Half(RightBy(w, 0));
    assert RightBy(w, 2) == Half(RightBy(w, 1));
    assert RightBy(w, 3) == Half(RightBy(w, 2));
    assert RightBy(w, 4) == Half(RightBy(w, 3));
    assert RightBy(w, 5) == Half(RightBy(w, 4));
    assert RightBy(w, 6) == Half(RightBy(w, 5));
    assert RightBy(w, 7) == Half(RightBy(w, 6));
    assert RightBy(w, 8) == Half(RightBy(w, 7));
  }

  function Drop8(w: bv32): bv32 {
    w >> 8
  }

  lemma RightByEight(w: bv32)
    ensures RightBy(w, 8) == Drop8(w)
  {
    hide Half, RightBy;
    RightByIsShift(w);
  }

  lemma RightByBytes(w: bv32)
    ensures RightBy(w, 8) == Drop8(w)
    ensures RightBy(w, 16) == Drop8(Drop8(w))
    ensures RightBy(w, 24) == Drop8(Drop8(Drop8(w)))
  {
    hide Half, RightBy, Drop8;
    RightByEight(w);
    RightByAdds(w, 8, 8);
    RightByEight(Drop8(w));
    RightByAdds(w, 16, 8);
    RightByEight(Drop8(Drop8(w)));
  }

  lemma DropAll(w: bv32)
    ensures Drop8(Drop8(Drop8(Drop8(w)))) == 0
  {
  }

  lemma RightByAll(w: bv32)
    ensures RightBy(w, 32) == 0
  {
    hide Half, RightBy, Drop8;
    RightByBytes(w);
    RightByAdds(w, 24, 8);
    RightByEight(Drop8(Drop8(Drop8(w))));
    DropAll(w);
  }

  lemma HalvingMix(a: bv32, b: bv32)
    ensures Half(Mix(a, b)) == Mix(Half(a), Half(b))
    ensures Low(Mix(a, b)) <==> (Low(a) != Low(b))
  {
  }

  lemma {:induction false} RightByOfMix(a: bv32, b: bv32, n: nat)
    ensures RightBy(Mix(a, b), n) == Mix(RightBy(a, n), RightBy(b, n))
  {
    hide Half, Mix;
    if n != 0 {
      RightByOfMix(a, b, n - 1);
      HalvingMix(RightBy(a, n - 1), RightBy(b, n - 1));
    }
  }

  lemma BitsOfMix(a: bv32, b: bv32)
    ensures WordBits(Mix(a, b)) == Xor(WordBits(a), WordBits(b))
  {
    hide RightBy, Low, Half, Mix;
    forall i | 0 <= i < 32
      ensures WordBits(Mix(a, b))[i] == Xor(WordBits(a), WordBits(b))[i]
    {
      RightByOfMix(a, b, i);
      HalvingMix(RightBy(a, i), RightBy(b, i));
    }
  }

  lemma {:induction false} RightByOfZero(n: nat)
    ensures RightBy(0, n) == 0
  {
    if n != 0 {
      RightByOfZero(n - 1);
    }
  }

  lemma BitsOfZero()
    ensures WordBits(0) == Zeros(32)
  {
    forall i | 0 <= i < 32
      ensures !WordBits(0)[i]
    {
      RightByOfZero(i);
    }
  }

  lemma LastHalf(w: bv32)
    ensures !Low(RightBy(Half(w), 31))
  {
    hide Half;
    assert RightBy(w, 1) == Half(RightBy(w, 0));
    RightByAdds(w, 1, 31);
    RightByAll(w);
  }

  lemma BitsOfHalf(w: bv32)
    ensures WordBits(Half(w)) == WordBits(w)[1..] + [false]
  {
    hide Low, Half;
    assert RightBy(w, 1) == Half(RightBy(w, 0));
    LastHalf(w);
    forall i | 0 <= i < 32
      ensures WordBits(Half(w))[i] == (WordBits(w)[1..] + [false])[i]
    {
      RightByAdds(w, 1, i);
    }
  }

  lemma StepBranches(c: bv32)
    ensures Step(c) == Mix(Half(c), if Low(c) then POLYNOMIAL else 0)
  {
    assert c & 1 == 0 || c & 1 == 1;
  }

  lemma StepIsShift(c: bv32)
    ensures WordBits(Step(c)) == Shift(WordBits(POLYNOMIAL), WordBits(c))
  {
    hide Step, Half, Low, Mix;
    StepBranches(c);
    BitsOfMix(Half(c), if Low(c) then POLYNOMIAL else 0);
    BitsOfHalf(c);
    BitsOfZero();
    assert RightBy(c, 0) == c;
    assert WordBits(c)[0] == Low(c);
    XorWithZero(WordBits(c)[1..] + [false], Zeros(32));
  }

  lemma {:induction false} StepsAreShifts(c: bv32, n: nat)
    ensures WordBits(Steps(c, n)) == Shifts(WordBits(POLYNOMIAL), WordBits(c), n)
  {
    if n != 0 {
      StepsAreShifts(c, n - 1);
      StepIsShift(Steps(c, n - 1));
    }
  }

  lemma TopByteOfPolynomial()
    ensures Drop8(Drop8(Drop8(POLYNOMIAL))) >> 7 == 1
  {
  }

  lemma PolynomialEndsInOne()
    ensures WordBits(POLYNOMIAL)[31]
  {
    hide Half, RightBy, Drop8;
    RightByBytes(POLYNOMIAL);
    RightByAdds(POLYNOMIAL, 24, 7);
    TopByteOfPolynomial();
    RightByIsShift(Drop8(Drop8(Drop8(POLYNOMIAL))));
  }

  function LowByte(w: bv32): bv8 {
    (w & 0xff) as bv8
  }

  /** A word as the record stores it, low byte first. */
  function Le32(w: bv32): (r: seq<bv8>)
    ensures |r| == 4
  {
    [LowByte(w), LowByte(Drop8(w)), LowByte(Drop8(Drop8(w))), LowByte(Drop8(Drop8(Drop8(w))))]
  }

  lemma LowHalfByteBits(w: bv32)
    ensures var b := LowByte(w);
            Bit(b, 0) == Low(w) && Bit(b, 1) == Low(w >> 1) && Bit(b, 2) == Low(w >> 2) && Bit(b, 3) == Low(w >> 3)
  {
  }

  lemma HighHalfByteBits(w: bv32)
    ensures var b := LowByte(w);
            && Bit(b, 4) == Low(w >> 4) && Bit(b, 5) == Low(w >> 5) && Bit(b, 6) == Low(w >> 6)
            && Bit(b, 7) == Low(w >> 7)
  {
  }

  lemma RightByNone(w: bv32)
    ensures RightBy(w, 0) == w
  {
  }

  lemma LowByteBit(w: bv32, i: nat)
    requires i < 8
    ensures Bit(LowByte(w), i) == Low(RightBy(w, i))
  {
    hide Low, LowByte, Bit, RightBy;
    LowHalfByteBits(w);
    HighHalfByteBits(w);
    RightByIsShift(w);
    RightByNone(w);
  }

  lemma StreamOfFour(b: seq<bv8>)
    requires |b| == 4
    ensures LsbStream(b) == LsbBits(b[0]) + LsbBits(b[1]) + LsbBits(b[2]) + LsbBits(b[3])
  {
    assert b[..3][..2] == b[..2] && b[..2][..1] == b[..1] && b[..1][..0] == [];
    assert LsbStream(b[..1]) == LsbStream([]) + LsbBits(b[0]);
    assert LsbStream(b[..2]) == LsbStream(b[..1]) + LsbBits(b[1]);
    assert LsbStream(b[..3]) == LsbStream(b[..2]) + LsbBits(b[2]);
    assert LsbStream(b) == LsbStream(b[..3]) + LsbBits(b[3]);
    assert LsbStream([]) + LsbBits(b[0]) == LsbBits(b[0]);
  }

  lemma ByteOfWord(w: bv32, shifted: bv32, k: nat)
    requires k <= 3 && shifted == RightBy(w, 8 * k)
    ensures WordBits(w)[8 * k..8 * k + 8] == LsbBits(LowByte(shifted))
  {
    hide RightBy, LowByte, Low, Bit;
    forall i | 0 <= i < 8
      ensures WordBits(w)[8 * k + i] == LsbBits(LowByte(shifted))[i]
    {
      RightByAdds(w, 8 * k, i);
      LowByteBit(shifted, i);
    }
  }

  /** The bits of a word are the bits of its stored bytes in order. */
  lemma WordIsItsBytes(w: bv32)
    ensures WordBits(w) == LsbStream(Le32(w))
  {
    hide RightBy, LowByte, WordBits, LsbBits, Drop8;
    RightByNone(w);
    RightByBytes(w);
    ByteOfWord(w, w, 0);
    ByteOfWord(w, Drop8(w), 1);
    ByteOfWord(w, Drop8(Drop8(w)), 2);
    ByteOfWord(w, Drop8(Drop8(Drop8(w))), 3);
    StreamOfFour(Le32(w));
    var b := WordBits(w);
    assert b == b[0..8] + b[8..16] + b[16..24] + b[24..32];
  }

  lemma ByteInWord(d: bv8)
    ensures LowByte(d as bv32) == d && Drop8(d as bv32) == 0
  {
  }

  lemma NoBits()
    ensures LsbBits(0) == Zeros(8) && LowByte(0) == 0 && Drop8(0) == 0
  {
    forall i | 0 <= i < 8
      ensures !Bit(0, i)
    {
    }
  }

  lemma BitsOfByteWord(d: bv8)
    ensures WordBits(d as bv32)[..8] == LsbBits(d) && AllZero(Pending(WordBits(d as bv32), 8))
  {
    hide LowByte, WordBits, LsbBits, Drop8;
    ByteInWord(d);
    NoBits();
    WordIsItsBytes(d as bv32);
    StreamOfFour(Le32(d as bv32));
  }

  lemma ByteIsFed(c: bv32, d: bv8)
    ensures WordBits(Steps(Mix(c, d as bv32), 8)) == Feed(WordBits(POLYNOMIAL), WordBits(c), LsbBits(d))
  {
    hide Step, Mix, WordBits, LsbBits, Pending;
    var p, w := WordBits(POLYNOMIAL), WordBits(d as bv32);
    StepsAreShifts(Mix(c, d as bv32), 8);
    BitsOfMix(c, d as bv32);
    BitsOfByteWord(d);
    WordThenShifts(p, WordBits(c), w, 8);
    XorWithZero(Feed(p, WordBits(c), LsbBits(d)), Pending(w, 8));
  }

  /** The byte-wise loop is long division of the bytes' bits, least significant first. */
  lemma {:induction false} RegisterIsDivision(start: bv32, data: seq<bv8>)
    ensures WordBits(Register(start, data)) == Feed(WordBits(POLYNOMIAL), WordBits(start), LsbStream(data))
  {
    hide Steps, Mix, WordBits, LsbBits;
    if data != [] {
      var before, last := data[..|data| - 1], data[|data| - 1];
      RegisterIsDivision(start, before);
      ByteIsFed(Register(start, before), last);
      FeedOfConcat(WordBits(POLYNOMIAL), WordBits(start), LsbStream(before), LsbBits(last));
    }
  }

  lemma BitsOfByteXor(a: bv8, b: bv8)
    ensures LsbBits(a ^ b) == Xor(LsbBits(a), LsbBits(b))
  {
    forall i | 0 <= i < 8
      ensures LsbBits(a ^ b)[i] == Xor(LsbBits(a), LsbBits(b))[i]
    {
      BitOfXor(a, b, i);
    }
  }

  lemma {:induction false} StreamOfXor(a: seq<bv8>, b: seq<bv8>)
    requires |a| == |b|
    ensures LsbStream(XorBytes(a, b)) == Xor(LsbStream(a), LsbStream(b))
  {
    if a != [] {
      var n := |a| - 1;
      assert XorBytes(a, b)[..n] == XorBytes(a[..n], b[..n]);
      StreamOfXor(a[..n], b[..n]);
      BitsOfByteXor(a[n], b[n]);
      XorOfConcat(LsbStream(a[..n]), LsbBits(a[n]), LsbStream(b[..n]), LsbBits(b[n]));
    }
  }

  /** The last four bytes are the CRC of all the bytes before them. */
  predicate Checked(record: seq<bv8>) {
    |record| >= 4 && record[|record| - 4..] == Le32(Crc(record[..|record| - 4]))
  }

  lemma {:induction false} StreamOfConcat(a: seq<bv8>, b: seq<bv8>)
    ensures LsbStream(a + b) == LsbStream(a) + LsbStream(b)
  {
    if b == [] {
      assert a + b == a;
    } else {
      assert (a + b)[..|a + b| - 1] == a + b[..|b| - 1];
      StreamOfConcat(a, b[..|b| - 1]);
    }
  }

  ghost function Residue(): seq<bool> {
    Shifts(WordBits(POLYNOMIAL), WordBits(ALL_ONES), 32)
  }

  lemma Complement(r: bv32)
    ensures Mix(r, Not(r)) == ALL_ONES
  {
  }

  /** Every record that passes its check leaves the same remainder. */
  lemma CheckedLeavesResidue(record: seq<bv8>)
    requires Checked(record)
    ensures Feed(WordBits(POLYNOMIAL), WordBits(ALL_ONES), LsbStream(record)) == Residue()
  {
    hide Mix, Not, WordBits, Le32, Register;
    var p := WordBits(POLYNOMIAL);
    var n := |record| - 4;
    var body, check := record[..n], record[n..];
    var r := Register(ALL_ONES, body);
    assert record == body + check;
    StreamOfConcat(body, check);
    FeedOfConcat(p, WordBits(ALL_ONES), LsbStream(body), LsbStream(check));
    RegisterIsDivision(ALL_ONES, body);
    WordIsItsBytes(Not(r));
    WordIsFed(p, WordBits(r), WordBits(Not(r)));
    BitsOfMix(r, Not(r));
    Complement(r);
  }

  /** Two records of one length that differ by a burst of at most 32 bits cannot both pass. */
  lemma BurstBreaksCheck(a: seq<bv8>, b: seq<bv8>)
    requires |a| == |b| && Checked(a)
    requires Burst(LsbStream(XorBytes(a, b)), 32)
    ensures !Checked(b)
  {
    hide WordBits;
    if Checked(b) {
      var p, ones := WordBits(POLYNOMIAL), WordBits(ALL_ONES);
      CheckedLeavesResidue(a);
      CheckedLeavesResidue(b);
      StreamOfXor(a, b);
      FeedIsLinear(p, ones, ones, LsbStream(a), LsbStream(b));
      XorWithItself(ones);
      XorWithItself(Residue());
      PolynomialEndsInOne();
      BurstIsSeen(p, LsbStream(XorBytes(a, b)));
      assert false;
    }
  }

  lemma XorWithItself(a: seq<bool>)
    ensures Xor(a, a) == Zeros(|a|)
  {
  }

  /** One entry of the table of section 8 of RFC 1952: eight conditional steps of the entry's index. */
  function RfcTable(n: bv8): bv32 {
    RfcSteps(n as bv32, 8)
  }

  function RfcSteps(c: bv32, k: nat): bv32 {
    if k == 0 then c
    else
      var c' := RfcSteps(c, k - 1);
      if c' & 1 != 0 then 0xedb88320 ^ (c' >> 1) else c' >> 1
  }

  /** The table-driven update of section 8 of RFC 1952. */
  function RfcUpdate(c: bv32, data: seq<bv8>): bv32 {
    if data == [] then c
    else
      var c' := RfcUpdate(c, data[..|data| - 1]);
      Mix(RfcTable(LowByte(Mix(c', data[|data| - 1] as bv32))), Drop8(c'))
  }

  function RfcCrc(data: seq<bv8>): bv32 {
    Not(RfcUpdate(ALL_ONES, data))
  }

  lemma OneRfcStep(c: bv32)
    ensures Step(c) == if c & 1 != 0 then 0xedb88320 ^ (c >> 1) else c >> 1
  {
    assert c & 1 == 0 || c & 1 == 1;
  }

  lemma {:induction false} RfcStepsAreSteps(c: bv32, k: nat)
    ensures RfcSteps(c, k) == Steps(c, k)
  {
    hide Step;
    if k != 0 {
      RfcStepsAreSteps(c, k - 1);
      OneRfcStep(RfcSteps(c, k - 1));
    }
  }

  lemma BytesOfZero(w: bv32)
    requires Le32(w) == [0, 0, 0, 0]
    ensures w == 0
  {
    assert Le32(w)[0] == 0 && Le32(w)[1] == 0 && Le32(w)[2] == 0 && Le32(w)[3] == 0;
  }

  lemma ZeroBitsZeroWord(w: bv32)
    requires AllZero(WordBits(w))
    ensures w == 0
  {
    hide WordBits, LowByte, Bit, Drop8;
    WordIsItsBytes(w);
    var b := Le32(w);
    StreamOfFour(b);
    forall k | 0 <= k < 4
      ensures b[k] == 0
    {
      forall i | 0 <= i < 8
        ensures !Bit(b[k], i)
      {
        assert LsbStream(b)[8 * k + i] == LsbBits(b[k])[i];
      }
      AllBitsClear(b[k]);
    }
    BytesOfZero(w);
  }

  lemma MixZeroMeansEqual(a: bv32, b: bv32)
    requires Mix(a, b) == 0
    ensures a == b
  {
  }

  lemma SameBitsSameWord(a: bv32, b: bv32)
    requires WordBits(a) == WordBits(b)
    ensures a == b
  {
    hide WordBits, Mix;
    BitsOfMix(a, b);
    XorWithItself(WordBits(a));
    ZeroBitsZeroWord(Mix(a, b));
    MixZeroMeansEqual(a, b);
  }

  lemma DropMixedByte(c: bv32, d: bv8)
    ensures Drop8(Mix(c, d as bv32)) == Drop8(c)
  {
  }

  lemma PendingIsDropped(x: bv32)
    ensures Pending(WordBits(x), 8) == WordBits(Drop8(x)) && WordBits(x)[..8] == LsbBits(LowByte(x))
  {
    hide Low, RightBy, LowByte, LsbBits, Drop8;
    RightByNone(x);
    ByteOfWord(x, x, 0);
    RightByEight(x);
    forall i | 0 <= i < 32
      ensures Pending(WordBits(x), 8)[i] == WordBits(Drop8(x))[i]
    {
      RightByAdds(x, 8, i);
      if i >= 24 {
        RightByAdds(x, 32, i - 24);
        RightByAll(x);
        RightByOfZero(i - 24);
        LowOfZero();
      }
    }
  }

  lemma LowOfZero()
    ensures !Low(0)
  {
  }

  /** Eight steps of any word split into a table entry of its low byte and the rest moved down. */
  lemma TableSplits(x: bv32)
    ensures Steps(x, 8) == Mix(RfcTable(LowByte(x)), Drop8(x))
  {
    hide Mix, Step, Steps, WordBits, LowByte, LsbBits, Drop8, RfcSteps;
    var p := WordBits(POLYNOMIAL);
    var entry := LowByte(x) as bv32;
    StepsAreShifts(x, 8);
    BitsOfZero();
    XorWithZero(WordBits(x), Zeros(32));
    WordThenShifts(p, Zeros(32), WordBits(x), 8);
    PendingIsDropped(x);
    RfcStepsAreSteps(entry, 8);
    StepsAreShifts(entry, 8);
    XorWithZero(WordBits(entry), Zeros(32));
    WordThenShifts(p, Zeros(32), WordBits(entry), 8);
    BitsOfByteWord(LowByte(x));
    XorWithZero(Feed(p, Zeros(32), LsbBits(LowByte(x))), Pending(WordBits(entry), 8));
    BitsOfMix(RfcTable(LowByte(x)), Drop8(x));
    SameBitsSameWord(Steps(x, 8), Mix(RfcTable(LowByte(x)), Drop8(x)));
  }

  /** The branch-free loop computes the CRC of section 8 of RFC 1952 on every input. */
  lemma CrcIsRfc1952(data: seq<bv8>)
    ensures Crc(data) == RfcCrc(data)
  {
    hide Register, RfcUpdate, Not;
    RegisterIsRfc(data);
  }

  lemma {:induction false} RegisterIsRfc(data: seq<bv8>)
    ensures Register(ALL_ONES, data) == RfcUpdate(ALL_ONES, data)
  {
    hide Mix, Steps, Drop8, LowByte, RfcTable;
    if data != [] {
      var before, last := data[..|data| - 1], data[|data| - 1];
      RegisterIsRfc(before);
      var c := Register(ALL_ONES, before);
      TableSplits(Mix(c, last as bv32));
      DropMixedByte(c, last);
    }
  }

  /** The check of no bytes, as the standard gives it. */
  lemma EmptyCheck()
    ensures Crc([]) == 0
  {
  }
}
