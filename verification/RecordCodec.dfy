/** The 44-byte configuration record: packed layout, encoding and fail-closed decoding. */
module RecordCodec {
  import opened Types
  import opened ProductionConfig
  import opened Crc32
  import opened Bits

  const MAGIC: bv32 := 0x4f4d5047
  const SCHEMA: bv16 := 1
  const RECORD_SIZE := 44

  /** A Bluetooth device address as a 48-bit number; its canonical text is in one-to-one correspondence. */
  type Address = n: int | 0 <= n < 0x1_0000_0000_0000

  const NO_ADDRESS: Address := 0
  const BROADCAST: Address := 0xffff_ffff_ffff

  predicate AddressValid(a: Address) {
    a != NO_ADDRESS && a != BROADCAST
  }

  /** The scan of the six bytes: some byte is not 00 and some byte is not ff. */
  method AddressBytesValid(bytes: array<bv8>) returns (valid: bool)
    requires bytes.Length == 6
    ensures valid == AddressValid(FromAddressBytes(bytes[..]))
  {
    hide FromAddressBytes;
    var anyNonzero, anyNotFf := false, false;
    for i := 0 to 6
      invariant anyNonzero <==> exists k :: 0 <= k < i && bytes[k] != 0
      invariant anyNotFf <==> exists k :: 0 <= k < i && bytes[k] != 0xff
    {
      anyNonzero := anyNonzero || bytes[i] != 0;
      anyNotFf := anyNotFf || bytes[i] != 0xff;
    }
    valid := anyNonzero && anyNotFf;
    ExtremeAddresses(bytes[..]);
  }

  /** The packed structure, field by field, as the compiler lays it out. */
  datatype Record = Record(
    magic: bv32,
    schema: bv16,
    size: bv16,
    sequence: uint32,
    deadmanMask: bv32,
    continuousMask: bv32,
    precisionMask: bv32,
    resolutionMask: bv32,
    faceA: byte,
    faceB: byte,
    faceX: byte,
    faceY: byte,
    controllerAddress: Address,
    controllerValid: byte,
    cncProfile: byte,
    crc: bv32)

  function Le16(w: bv16): (r: seq<bv8>)
    ensures |r| == 2
  {
    [(w & 0xff) as bv8, (w >> 8) as bv8]
  }

  /** The wrapping sequence number as stored, low byte first. */
  function SequenceBytes(s: uint32): (r: seq<bv8>)
    ensures |r| == 4
  {
    [ByteOf(s % 256), ByteOf(s / 256 % 256), ByteOf(s / 65536 % 256), ByteOf(s / 16777216)]
  }

  function FromSequenceBytes(b: seq<bv8>): uint32
    requires |b| == 4
  {
    (b[0] as int) + 256 * (b[1] as int) + 65536 * (b[2] as int) + 16777216 * (b[3] as int)
  }

  lemma Digits(s: uint32)
    ensures s % 256 + 256 * (s / 256 % 256) + 65536 * (s / 65536 % 256) + 16777216 * (s / 16777216) == s
  {
  }

  lemma SequenceRoundTrip(s: uint32)
    ensures FromSequenceBytes(SequenceBytes(s)) == s
  {
    hide ByteOf;
    ByteOfInt(s % 256);
    ByteOfInt(s / 256 % 256);
    ByteOfInt(s / 65536 % 256);
    ByteOfInt(s / 16777216);
    Digits(s);
  }

  lemma DigitsOfSum(d0: nat, d1: nat, d2: nat, d3: nat)
    requires d0 < 256 && d1 < 256 && d2 < 256 && d3 < 256
    ensures var s := d0 + 256 * d1 + 65536 * d2 + 16777216 * d3;
            s % 256 == d0 && s / 256 % 256 == d1 && s / 65536 % 256 == d2 && s / 16777216 == d3
  {
  }

  lemma BytesOfDigits(d0: nat, d1: nat, d2: nat, d3: nat, s: uint32)
    requires d0 < 256 && d1 < 256 && d2 < 256 && d3 < 256
    requires s == d0 + 256 * d1 + 65536 * d2 + 16777216 * d3
    ensures SequenceBytes(s) == [ByteOf(d0), ByteOf(d1), ByteOf(d2), ByteOf(d3)]
  {
    hide ByteOf;
    DigitsOfSum(d0, d1, d2, d3);
  }

  lemma SequenceBytesRoundTrip(b: seq<bv8>)
    requires |b| == 4
    ensures SequenceBytes(FromSequenceBytes(b)) == b
  {
    hide ByteOf, SequenceBytes;
    IntOfByte(b[0]);
    IntOfByte(b[1]);
    IntOfByte(b[2]);
    IntOfByte(b[3]);
    BytesOfDigits(b[0] as int, b[1] as int, b[2] as int, b[3] as int, FromSequenceBytes(b));
  }

  /** The address bytes in the order they are written. */
  function AddressBytes(a: Address): (r: seq<bv8>)
    ensures |r| == 6
  {
    [ByteOf(a / 0x100_0000_0000), ByteOf(a / 0x1_0000_0000 % 256), ByteOf(a / 0x100_0000 % 256),
     ByteOf(a / 0x1_0000 % 256), ByteOf(a / 0x100 % 256), ByteOf(a % 256)]
  }

  function FromAddressBytes(b: seq<bv8>): Address
    requires |b| == 6
  {
    0x100_0000_0000 * IntOf(b[0]) + 0x1_0000_0000 * IntOf(b[1]) + 0x100_0000 * IntOf(b[2])
    + 0x1_0000 * IntOf(b[3]) + 0x100 * IntOf(b[4]) + IntOf(b[5])
  }

  function IntOf(b: bv8): byte {
    b as int
  }

  lemma IntOfByteOf(n: byte)
    ensures IntOf(ByteOf(n)) == n
  {
    ByteOfInt(n);
  }

  lemma ByteOfIntOf(b: bv8)
    ensures ByteOf(IntOf(b)) == b
  {
    IntOfByte(b);
  }

  lemma IntOfExtremes(b: bv8)
    ensures IntOf(b) == 0 <==> b == 0
    ensures IntOf(b) == 255 <==> b == 0xff
  {
    IntOfByte(b);
    ByteOfInt(0);
    ByteOfInt(255);
  }

  lemma ExtremeAddresses(b: seq<bv8>)
    requires |b| == 6
    ensures FromAddressBytes(b) == NO_ADDRESS <==> forall k :: 0 <= k < 6 ==> b[k] == 0
    ensures FromAddressBytes(b) == BROADCAST <==> forall k :: 0 <= k < 6 ==> b[k] == 0xff
  {
    hide IntOf;
    forall k | 0 <= k < 6
      ensures IntOf(b[k]) == 0 <==> b[k] == 0
      ensures IntOf(b[k]) == 255 <==> b[k] == 0xff
    {
      IntOfExtremes(b[k]);
    }
  }

  lemma AddressDigits(a: Address)
    ensures 0x100_0000_0000 * (a / 0x100_0000_0000) + 0x1_0000_0000 * (a / 0x1_0000_0000 % 256)
            + 0x100_0000 * (a / 0x100_0000 % 256) + 0x1_0000 * (a / 0x1_0000 % 256)
            + 0x100 * (a / 0x100 % 256) + a % 256 == a
  {
    assert a / 0x100 / 0x100 == a / 0x1_0000;
    assert a / 0x1_0000 / 0x100 == a / 0x100_0000;
    assert a / 0x100_0000 / 0x100 == a / 0x1_0000_0000;
    assert a / 0x1_0000_0000 / 0x100 == a / 0x100_0000_0000;
  }

  lemma AddressRoundTrip(a: Address)
    ensures FromAddressBytes(AddressBytes(a)) == a
  {
    hide ByteOf, IntOf;
    IntOfByteOf(a / 0x100_0000_0000);
    IntOfByteOf(a / 0x1_0000_0000 % 256);
    IntOfByteOf(a / 0x100_0000 % 256);
    IntOfByteOf(a / 0x1_0000 % 256);
    IntOfByteOf(a / 0x100 % 256);
    IntOfByteOf(a % 256);
    AddressDigits(a);
  }

  lemma DigitsOfAddress(d0: byte, d1: byte, d2: byte, d3: byte, d4: byte, d5: byte)
    ensures var a := 0x100_0000_0000 * d0 + 0x1_0000_0000 * d1 + 0x100_0000 * d2 + 0x1_0000 * d3 + 0x100 * d4 + d5;
            && a / 0x100_0000_0000 == d0 && a / 0x1_0000_0000 % 256 == d1 && a / 0x100_0000 % 256 == d2
            && a / 0x1_0000 % 256 == d3 && a / 0x100 % 256 == d4 && a % 256 == d5
  {
    var a := 0x100_0000_0000 * d0 + 0x1_0000_0000 * d1 + 0x100_0000 * d2 + 0x1_0000 * d3 + 0x100 * d4 + d5;
    assert a / 0x100 == 0x1_0000_0000 * d0 + 0x100_0000 * d1 + 0x1_0000 * d2 + 0x100 * d3 + d4;
    assert a / 0x1_0000 == 0x100_0000 * d0 + 0x1_0000 * d1 + 0x100 * d2 + d3;
    assert a / 0x100_0000 == 0x1_0000 * d0 + 0x100 * d1 + d2;
    assert a / 0x1_0000_0000 == 0x100 * d0 + d1;
  }

  lemma BytesOfAddressDigits(d0: byte, d1: byte, d2: byte, d3: byte, d4: byte, d5: byte, a: Address)
    requires a == 0x100_0000_0000 * d0 + 0x1_0000_0000 * d1 + 0x100_0000 * d2 + 0x1_0000 * d3 + 0x100 * d4 + d5
    ensures AddressBytes(a) == [ByteOf(d0), ByteOf(d1), ByteOf(d2), ByteOf(d3), ByteOf(d4), ByteOf(d5)]
  {
    hide ByteOf;
    DigitsOfAddress(d0, d1, d2, d3, d4, d5);
  }

  lemma AddressBytesRoundTrip(b: seq<bv8>)
    requires |b| == 6
    ensures AddressBytes(FromAddressBytes(b)) == b
  {
    hide ByteOf, IntOf, AddressBytes;
    ByteOfIntOf(b[0]);
    ByteOfIntOf(b[1]);
    ByteOfIntOf(b[2]);
    ByteOfIntOf(b[3]);
    ByteOfIntOf(b[4]);
    ByteOfIntOf(b[5]);
    BytesOfAddressDigits(IntOf(b[0]), IntOf(b[1]), IntOf(b[2]), IntOf(b[3]), IntOf(b[4]), IntOf(b[5]),
                         FromAddressBytes(b));
  }

  /** Everything before the check word. */
  function Head(r: Record): (bytes: seq<bv8>)
    ensures |bytes| == 12
  {
    Le32(r.magic) + Le16(r.schema) + Le16(r.size) + SequenceBytes(r.sequence)
  }

  function Masks(r: Record): (bytes: seq<bv8>)
    ensures |bytes| == 16
  {
    Le32(r.deadmanMask) + Le32(r.continuousMask) + Le32(r.precisionMask) + Le32(r.resolutionMask)
  }

  function Tail(r: Record): (bytes: seq<bv8>)
    ensures |bytes| == 12
  {
    [ByteOf(r.faceA), ByteOf(r.faceB), ByteOf(r.faceX), ByteOf(r.faceY)]
    + AddressBytes(r.controllerAddress) + [ByteOf(r.controllerValid), ByteOf(r.cncProfile)]
  }

  function Body(r: Record): (bytes: seq<bv8>)
    ensures |bytes| == 40
  {
    Head(r) + Masks(r) + Tail(r)
  }

  function Bytes(r: Record): (bytes: seq<bv8>)
    ensures |bytes| == RECORD_SIZE
  {
    Body(r) + Le32(r.crc)
  }

  function FromLe32(b: seq<bv8>): bv32
    requires |b| == 4
  {
    (b[0] as bv32) | ((b[1] as bv32) << 8) | ((b[2] as bv32) << 16) | ((b[3] as bv32) << 24)
  }

  function FromLe16(b: seq<bv8>): bv16
    requires |b| == 2
  {
    (b[0] as bv16) | ((b[1] as bv16) << 8)
  }

  function FromBytes(b: seq<bv8>): Record
    requires |b| == RECORD_SIZE
  {
    Record(
      FromLe32(b[0..4]), FromLe16(b[4..6]), FromLe16(b[6..8]), FromSequenceBytes(b[8..12]),
      FromLe32(b[12..16]), FromLe32(b[16..20]), FromLe32(b[20..24]), FromLe32(b[24..28]),
      IntOf(b[28]), IntOf(b[29]), IntOf(b[30]), IntOf(b[31]),
      FromAddressBytes(b[32..38]), IntOf(b[38]), IntOf(b[39]),
      FromLe32(b[40..44]))
  }

  lemma Word32RoundTrip(w: bv32)
    ensures FromLe32(Le32(w)) == w
  {
  }

  lemma Word16RoundTrip(w: bv16)
    ensures FromLe16(Le16(w)) == w
  {
  }

  lemma Bytes32RoundTrip(b: seq<bv8>)
    requires |b| == 4
    ensures Le32(FromLe32(b)) == b
  {
  }

  lemma Bytes16RoundTrip(b: seq<bv8>)
    requires |b| == 2
    ensures Le16(FromLe16(b)) == b
  {
  }

  lemma HeadOf(b: seq<bv8>, h: seq<bv8>, m: seq<bv8>, t: seq<bv8>, c: seq<bv8>)
    requires |h| == 12 && |m| == 16 && |t| == 12 && |c| == 4
    requires b == h + m + t + c
    ensures b[0..12] == h && b[12..28] == m && b[28..40] == t && b[40..44] == c && b[..40] == h + m + t
  {
  }

  lemma HeadRoundTrip(r: Record)
    ensures var h := Head(r);
            && FromLe32(h[0..4]) == r.magic && FromLe16(h[4..6]) == r.schema
            && FromLe16(h[6..8]) == r.size && FromSequenceBytes(h[8..12]) == r.sequence
  {
    hide Le32, Le16, FromLe32, FromLe16, SequenceBytes, FromSequenceBytes;
    Word32RoundTrip(r.magic);
    Word16RoundTrip(r.schema);
    Word16RoundTrip(r.size);
    SequenceRoundTrip(r.sequence);
    var h := Head(r);
    assert h[0..4] == Le32(r.magic) && h[4..6] == Le16(r.schema) && h[6..8] == Le16(r.size);
    assert h[8..12] == SequenceBytes(r.sequence);
  }

  lemma MasksRoundTrip(r: Record)
    ensures var m := Masks(r);
            && FromLe32(m[0..4]) == r.deadmanMask && FromLe32(m[4..8]) == r.continuousMask
            && FromLe32(m[8..12]) == r.precisionMask && FromLe32(m[12..16]) == r.resolutionMask
  {
    hide Le32, FromLe32;
    Word32RoundTrip(r.deadmanMask);
    Word32RoundTrip(r.continuousMask);
    Word32RoundTrip(r.precisionMask);
    Word32RoundTrip(r.resolutionMask);
    var m := Masks(r);
    assert m[0..4] == Le32(r.deadmanMask) && m[4..8] == Le32(r.continuousMask);
    assert m[8..12] == Le32(r.precisionMask) && m[12..16] == Le32(r.resolutionMask);
  }

  lemma TailRoundTrip(r: Record, b: seq<bv8>)
    requires |b| == RECORD_SIZE && b[28..40] == Tail(r)
    ensures var f := FromBytes(b);
            && f.faceA == r.faceA && f.faceB == r.faceB && f.faceX == r.faceX && f.faceY == r.faceY
            && f.controllerAddress == r.controllerAddress && f.controllerValid == r.controllerValid
            && f.cncProfile == r.cncProfile
  {
    hide FromLe32, FromLe16, FromSequenceBytes, ByteOf, AddressBytes, FromAddressBytes;
    ByteOfInt(r.faceA);
    ByteOfInt(r.faceB);
    ByteOfInt(r.faceX);
    ByteOfInt(r.faceY);
    ByteOfInt(r.controllerValid);
    ByteOfInt(r.cncProfile);
    AddressRoundTrip(r.controllerAddress);
    var t := Tail(r);
    assert b[28] == t[0] && b[29] == t[1] && b[30] == t[2] && b[31] == t[3] && b[38] == t[10] && b[39] == t[11];
    assert t[4..10] == AddressBytes(r.controllerAddress);
    assert forall i :: 4 <= i < 10 ==> b[28..40][i] == b[28 + i];
    assert b[32..38] == t[4..10];
  }

  /** Reading back the packed bytes recovers every field. */
  lemma RecordRoundTrip(r: Record)
    ensures FromBytes(Bytes(r)) == r
  {
    hide Le32, Le16, FromLe32, FromLe16, FromSequenceBytes, Head, Masks, Tail;
    var b := Bytes(r);
    HeadOf(b, Head(r), Masks(r), Tail(r), Le32(r.crc));
    HeadRoundTrip(r);
    MasksRoundTrip(r);
    TailRoundTrip(r, b);
    Word32RoundTrip(r.crc);
    var h, m := b[0..12], b[12..28];
    assert b[0..4] == h[0..4] && b[4..6] == h[4..6] && b[6..8] == h[6..8] && b[8..12] == h[8..12];
    assert b[12..16] == m[0..4] && b[16..20] == m[4..8] && b[20..24] == m[8..12] && b[24..28] == m[12..16];
  }

  lemma HeadOfBytes(b: seq<bv8>)
    requires |b| == RECORD_SIZE
    ensures Head(FromBytes(b)) == b[0..12]
  {
    hide Le32, Le16, FromLe32, FromLe16, SequenceBytes, FromSequenceBytes;
    Bytes32RoundTrip(b[0..4]);
    Bytes16RoundTrip(b[4..6]);
    Bytes16RoundTrip(b[6..8]);
    SequenceBytesRoundTrip(b[8..12]);
  }

  lemma MasksOfBytes(b: seq<bv8>)
    requires |b| == RECORD_SIZE
    ensures Masks(FromBytes(b)) == b[12..28]
  {
    hide Le32, FromLe16, FromLe32, FromSequenceBytes;
    Bytes32RoundTrip(b[12..16]);
    Bytes32RoundTrip(b[16..20]);
    Bytes32RoundTrip(b[20..24]);
    Bytes32RoundTrip(b[24..28]);
  }

  lemma TailOfBytes(b: seq<bv8>)
    requires |b| == RECORD_SIZE
    ensures Tail(FromBytes(b)) == b[28..40]
  {
    hide FromLe32, FromLe16, FromSequenceBytes, ByteOf, IntOf, AddressBytes, FromAddressBytes;
    ByteOfIntOf(b[28]);
    ByteOfIntOf(b[29]);
    ByteOfIntOf(b[30]);
    ByteOfIntOf(b[31]);
    ByteOfIntOf(b[38]);
    ByteOfIntOf(b[39]);
    AddressBytesRoundTrip(b[32..38]);
    assert b[28..40] == [b[28], b[29], b[30], b[31]] + b[32..38] + [b[38], b[39]];
  }

  /** Every 44 bytes are the packed form of exactly one record. */
  lemma BytesRoundTrip(b: seq<bv8>)
    requires |b| == RECORD_SIZE
    ensures Bytes(FromBytes(b)) == b
  {
    hide Le32, FromLe32, FromLe16, FromSequenceBytes, Head, Masks, Tail;
    HeadOfBytes(b);
    MasksOfBytes(b);
    Bytes32RoundTrip(b[40..44]);
    TailOfBytes(b);
  }

  function Encode(m: ProductionMapping, sequence: uint32, address: Option<Address>): Record {
    var r := Record(
      MAGIC, SCHEMA, 44, sequence,
      m.deadmanMask, m.continuousMask, m.precisionMask, m.resolutionMask,
      m.faceA, m.faceB, m.faceX, m.faceY,
      if address.Some? then address.value else NO_ADDRESS,
      if address.Some? && AddressValid(address.value) then 1 else 0,
      m.cncProfile,
      0);
    r.(crc := Crc(Body(r)))
  }

  /** What a record says once it has been accepted. */
  datatype Contents = Contents(mapping: ProductionMapping, sequence: uint32, address: Option<Address>)

  function MappingOf(r: Record): ProductionMapping {
    ProductionMapping(r.cncProfile, r.deadmanMask, r.continuousMask, r.precisionMask, r.resolutionMask,
                      r.faceA, r.faceB, r.faceX, r.faceY)
  }

  function Decode(r: Record): Option<Contents> {
    if r.magic != MAGIC || r.schema != SCHEMA || r.size != 44 || r.controllerValid > 1
       || (r.controllerValid != 0 && !AddressValid(r.controllerAddress))
       || r.crc != Crc(Body(r)) then None
    else if !IsValid(MappingOf(r)) then None
    else Some(Contents(MappingOf(r), r.sequence, if r.controllerValid != 0 then Some(r.controllerAddress) else None))
  }

  /** A stored value of any length; only a complete record can be accepted. */
  function DecodeBytes(b: seq<bv8>): Option<Contents> {
    if |b| != RECORD_SIZE then None else Decode(FromBytes(b))
  }

  function EncodeBytes(m: ProductionMapping, sequence: uint32, address: Option<Address>): (b: seq<bv8>)
    ensures |b| == RECORD_SIZE
  {
    Bytes(Encode(m, sequence, address))
  }

  lemma BodyIgnoresCrc(r: Record, crc: bv32)
    ensures Body(r.(crc := crc)) == Body(r)
  {
    hide Le32, Le16;
  }

  /** Storing and reading back recovers mapping, sequence and address. */
  lemma StoredIsRecovered(m: ProductionMapping, sequence: uint32, address: Option<Address>)
    requires IsValid(m)
    requires address.Some? ==> AddressValid(address.value)
    ensures DecodeBytes(EncodeBytes(m, sequence, address)) == Some(Contents(m, sequence, address))
  {
    hide Bytes, FromBytes, Body, Crc, Validate;
    var r := Encode(m, sequence, address);
    RecordRoundTrip(r);
    BodyIgnoresCrc(r.(crc := 0), r.crc);
  }

  /** Whatever bytes are found, an accepted record is complete, checked and valid. */
  lemma AcceptedIsChecked(b: seq<bv8>)
    requires DecodeBytes(b).Some?
    ensures Checked(b) && |b| == RECORD_SIZE
    ensures var c := DecodeBytes(b).value;
            IsValid(c.mapping) && (c.address.Some? ==> AddressValid(c.address.value))
  {
    hide Body, Crc, Validate, Le32, FromBytes, Checked;
    var r := FromBytes(b);
    BytesRoundTrip(b);
    BodyThenCrcIsChecked(r);
  }

  lemma BodyThenCrcIsChecked(r: Record)
    requires r.crc == Crc(Body(r))
    ensures Checked(Bytes(r))
  {
    hide Body, Crc, Le32;
    var b := Bytes(r);
    assert b[..40] == Body(r) && b[40..] == Le32(r.crc);
  }

  /**
   * An accepted record is the only one with its contents, unless it carries unused address bytes:
   * those are covered by the check but not by the meaning.
   */
  lemma AcceptedIsCanonical(b: seq<bv8>)
    requires DecodeBytes(b).Some?
    ensures var c := DecodeBytes(b).value;
            EncodeBytes(c.mapping, c.sequence, c.address) == b
            <==> c.address.Some? || FromBytes(b).controllerAddress == NO_ADDRESS
  {
    hide Bytes, FromBytes, Body, Crc, Validate;
    var c := DecodeBytes(b).value;
    var r, e := FromBytes(b), Encode(c.mapping, c.sequence, c.address);
    BytesRoundTrip(b);
    RecordRoundTrip(e);
    BodyIgnoresCrc(r, 0);
    if c.address.Some? || r.controllerAddress == NO_ADDRESS {
      assert e.(crc := 0) == r.(crc := 0);
      BodyIgnoresCrc(e, 0);
      assert e == r;
    }
  }

  /** Four bytes of a record, low byte first, as a word. */
  predicate IsWord(b: seq<bv8>, i: nat, w: bv32)
    requires i + 4 <= |b|
  {
    WordAt(b, i) == w
  }

  function WordAt(b: seq<bv8>, i: nat): bv32
    requires i + 4 <= |b|
  {
    (b[i] as bv32) | ((b[i + 1] as bv32) << 8) | ((b[i + 2] as bv32) << 16) | ((b[i + 3] as bv32) << 24)
  }

  predicate IsHalf(b: seq<bv8>, i: nat, w: bv16)
    requires i + 2 <= |b|
  {
    HalfAt(b, i) == w
  }

  function HalfAt(b: seq<bv8>, i: nat): bv16
    requires i + 2 <= |b|
  {
    (b[i] as bv16) | ((b[i + 1] as bv16) << 8)
  }

  lemma WordStands(b: seq<bv8>, i: nat)
    requires i + 4 <= |b|
    ensures IsWord(b, i, FromLe32(b[i..i + 4]))
  {
  }

  lemma HalfStands(b: seq<bv8>, i: nat)
    requires i + 2 <= |b|
    ensures IsHalf(b, i, FromLe16(b[i..i + 2]))
  {
  }

  /** What stands where in the 44 bytes, apart from the address. */
  predicate Stands(b: seq<bv8>, m: ProductionMapping, sequence: uint32)
    requires |b| == 44
  {
    && IsWord(b, 0, 0x4f4d5047) && IsHalf(b, 4, 1) && IsHalf(b, 6, 44)
    && (b[8] as int) + 256 * (b[9] as int) + 65536 * (b[10] as int) + 16777216 * (b[11] as int) == sequence
    && IsWord(b, 12, m.deadmanMask) && IsWord(b, 16, m.continuousMask)
    && IsWord(b, 20, m.precisionMask) && IsWord(b, 24, m.resolutionMask)
    && b[28] as int == m.faceA && b[29] as int == m.faceB && b[30] as int == m.faceX && b[31] as int == m.faceY
    && b[39] as int == m.cncProfile
    && IsWord(b, 40, Crc(b[..40]))
  }

  predicate AddressStands(b: seq<bv8>, address: Address)
    requires |b| == 44
  {
    0x100_0000_0000 * (b[32] as int) + 0x1_0000_0000 * (b[33] as int) + 0x100_0000 * (b[34] as int)
    + 0x1_0000 * (b[35] as int) + 0x100 * (b[36] as int) + (b[37] as int) == address
  }

  /** The bytes of a stored record, place by place. */
  lemma LayoutIsDocumented(m: ProductionMapping, sequence: uint32, address: Option<Address>)
    ensures var b := EncodeBytes(m, sequence, address);
            |b| == 44 && Stands(b, m, sequence) && (address.Some? ==> AddressStands(b, address.value))
  {
    hide Bytes, FromBytes, Crc, Stands, AddressStands, Body;
    var r, b := Encode(m, sequence, address), EncodeBytes(m, sequence, address);
    RecordRoundTrip(r);
    BodyIgnoresCrc(r.(crc := 0), r.crc);
    StandsInFields(b, m, sequence);
    AddressStandsInField(b, r.controllerAddress);
  }

  /** The address is marked as present exactly when there is one, and neither all zeros nor all ones. */
  lemma FlagIsDocumented(m: ProductionMapping, sequence: uint32, address: Option<Address>)
    ensures EncodeBytes(m, sequence, address)[38] as int
            == if address.Some? && address.value != 0 && address.value != 0xffff_ffff_ffff then 1 else 0
  {
    hide Bytes, FromLe32, FromLe16, Crc, FromAddressBytes, FromSequenceBytes;
    RecordRoundTrip(Encode(m, sequence, address));
  }

  lemma WordStandsOnce(b: seq<bv8>, i: nat, w: bv32)
    requires i + 4 <= |b|
    ensures IsWord(b, i, w) <==> FromLe32(b[i..i + 4]) == w
  {
    hide WordAt, FromLe32;
    WordStands(b, i);
  }

  lemma HalfStandsOnce(b: seq<bv8>, i: nat, w: bv16)
    requires i + 2 <= |b|
    ensures IsHalf(b, i, w) <==> FromLe16(b[i..i + 2]) == w
  {
    hide HalfAt, FromLe16;
    HalfStands(b, i);
  }

  lemma StandsInFields(b: seq<bv8>, m: ProductionMapping, sequence: uint32)
    requires |b| == 44
    ensures var r := FromBytes(b);
            Stands(b, m, sequence) <==>
              && r.magic == 0x4f4d5047 && r.schema == 1 && r.size == 44
              && MappingOf(r) == m && r.sequence == sequence && r.crc == Crc(Body(r))
  {
    hide Bytes, FromLe32, FromLe16, Crc, IsWord, IsHalf, Body;
    BytesRoundTrip(b);
    CheckCoversBody(FromBytes(b));
    WordStandsOnce(b, 0, 0x4f4d5047);
    HalfStandsOnce(b, 4, 1);
    HalfStandsOnce(b, 6, 44);
    WordStandsOnce(b, 12, m.deadmanMask);
    WordStandsOnce(b, 16, m.continuousMask);
    WordStandsOnce(b, 20, m.precisionMask);
    WordStandsOnce(b, 24, m.resolutionMask);
    WordStandsOnce(b, 40, Crc(b[..40]));
  }

  lemma AddressStandsInField(b: seq<bv8>, address: Address)
    requires |b| == 44
    ensures AddressStands(b, address) <==> FromBytes(b).controllerAddress == address
    ensures b[38] as int == FromBytes(b).controllerValid
  {
    hide FromLe32, FromLe16, FromSequenceBytes;
  }

  /** Any bytes are accepted with these contents exactly when they say so, place by place. */
  lemma DecodesExactly(b: seq<bv8>, c: Contents)
    ensures DecodeBytes(b) == Some(c) <==>
              && |b| == 44 && Stands(b, c.mapping, c.sequence) && IsValid(c.mapping)
              && (if c.address.None? then b[38] as int == 0
                  else
                    && b[38] as int == 1 && AddressStands(b, c.address.value)
                    && c.address.value != 0 && c.address.value != 0xffff_ffff_ffff)
  {
    hide FromBytes, Stands, AddressStands, Crc, Body, Validate;
    if |b| == 44 {
      StandsInFields(b, c.mapping, c.sequence);
      if c.address.Some? {
        AddressStandsInField(b, c.address.value);
      } else {
        AddressStandsInField(b, 0);
      }
    }
  }

  lemma CheckCoversBody(r: Record)
    ensures Bytes(r)[..40] == Body(r)
  {
    hide Body, Le32;
  }


  /** The default mapping without an address, with a leftover byte where an address would be. */
  function LeftoverRecord(): Record {
    var r := Encode(DEFAULT_MAPPING, 0, None).(controllerAddress := 5);
    r.(crc := Crc(Body(r)))
  }

  /** Such a record is accepted, and is not the encoding of what it says. */
  lemma LeftoverIsAccepted()
    ensures var b := Bytes(LeftoverRecord());
            && DecodeBytes(b) == Some(Contents(DEFAULT_MAPPING, 0, None))
            && EncodeBytes(DEFAULT_MAPPING, 0, None) != b
  {
    hide Bytes, FromBytes, Body, Crc, Validate;
    var r := Encode(DEFAULT_MAPPING, 0, None).(controllerAddress := 5);
    ValidationIsDocumented(DEFAULT_MAPPING);
    RecordRoundTrip(LeftoverRecord());
    BodyIgnoresCrc(r, Crc(Body(r)));
    BodyIgnoresCrc(r, 0);
    AcceptedIsCanonical(Bytes(LeftoverRecord()));
  }

  /** Two stored values that differ by a burst of at most 32 bits are never both accepted. */
  lemma BurstIsRejected(a: seq<bv8>, b: seq<bv8>)
    requires |a| == |b| && DecodeBytes(a).Some?
    requires Burst(LsbStream(XorBytes(a, b)), 32)
    ensures DecodeBytes(b).None?
  {
    hide DecodeBytes, Checked;
    AcceptedIsChecked(a);
    BurstBreaksCheck(a, b);
    if DecodeBytes(b).Some? {
      AcceptedIsChecked(b);
    }
  }
}
