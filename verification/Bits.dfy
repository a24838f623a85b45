/** Byte sequences seen as bit streams, in both transmission orders. */
module Bits {

  function XorBytes(a: seq<bv8>, b: seq<bv8>): (r: seq<bv8>)
    requires |a| == |b|
  {
    seq(|a|, i requires 0 <= i < |a| => a[i] ^ b[i])
  }

  function Mask(i: nat): bv8
    requires i < 8
  {
    if i == 0 then 0x01 else if i == 1 then 0x02 else if i == 2 then 0x04 else if i == 3 then 0x08
    else if i == 4 then 0x10 else if i == 5 then 0x20 else if i == 6 then 0x40 else 0x80
  }

  /** Bit `i` of a byte, bit 0 being the least significant. */
  predicate Bit(b: bv8, i: nat)
    requires i < 8
  {
    b & Mask(i) != 0
  }

  function LsbBits(b: bv8): (r: seq<bool>)
    ensures |r| == 8
  {
    seq(8, i requires 0 <= i < 8 => Bit(b, i))
  }

  function MsbBits(b: bv8): (r: seq<bool>)
    ensures |r| == 8
  {
    seq(8, i requires 0 <= i < 8 => Bit(b, 7 - i))
  }

  lemma MaskOfXor(a: bv8, b: bv8, m: bv8)
    requires m in {0x01, 0x02, 0x04, 0x08, 0x10, 0x20, 0x40, 0x80}
    ensures ((a ^ b) & m != 0) <==> ((a & m != 0) != (b & m != 0))
  {
    if m == 0x01 {
    } else if m == 0x02 {
    } else if m == 0x04 {
    } else if m == 0x08 {
    } else if m == 0x10 {
    } else if m == 0x20 {
    } else if m == 0x40 {
    } else {
    }
  }

  lemma BitOfXor(a: bv8, b: bv8, i: nat)
    requires i < 8
    ensures Bit(a ^ b, i) <==> (Bit(a, i) != Bit(b, i))
  {
    MaskOfXor(a, b, Mask(i));
  }

  lemma AllBitsClear(b: bv8)
    requires forall i :: 0 <= i < 8 ==> !Bit(b, i)
    ensures b == 0
  {
    assert !Bit(b, 0) && !Bit(b, 1) && !Bit(b, 2) && !Bit(b, 3) && !Bit(b, 4) && !Bit(b, 5) && !Bit(b, 6) && !Bit(b, 7);
  }

  /** Least significant bit of each byte first. */
  function LsbStream(data: seq<bv8>): (r: seq<bool>)
    ensures |r| == 8 * |data|
  {
    if data == [] then [] else LsbStream(data[..|data| - 1]) + LsbBits(data[|data| - 1])
  }

  /** Most significant bit of each byte first. */
  function MsbStream(data: seq<bv8>): (r: seq<bool>)
    ensures |r| == 8 * |data|
  {
    if data == [] then [] else MsbStream(data[..|data| - 1]) + MsbBits(data[|data| - 1])
  }

  function Ones(bits: seq<bool>): nat {
    if bits == [] then 0 else Ones(bits[..|bits| - 1]) + if bits[|bits| - 1] then 1 else 0
  }

  predicate AllZero(bits: seq<bool>) {
    forall i :: 0 <= i < |bits| ==> !bits[i]
  }

  /** Something is flipped, and everything flipped lies within `width` consecutive bits. */
  ghost predicate Burst(bits: seq<bool>, width: nat) {
    && !AllZero(bits)
    && exists start: nat :: InWindow(bits, start, width)
  }

  ghost predicate InWindow(bits: seq<bool>, start: nat, width: nat) {
    forall i :: 0 <= i < |bits| && bits[i] ==> start <= i < start + width
  }

  lemma BurstPlace(bits: seq<bool>, width: nat) returns (start: nat)
    requires Burst(bits, width) && width <= |bits|
    ensures start + width <= |bits| && InWindow(bits, start, width)
  {
    var first: nat :| InWindow(bits, first, width);
    start := if first + width <= |bits| then first else |bits| - width;
  }

  lemma ThreeParts(bits: seq<bool>, i: nat, j: nat)
    requires i <= j <= |bits|
    ensures bits == bits[..i] + (bits[i..j] + bits[j..])
  {
  }

  /** A burst splits a long enough stream into zeros, one full window, and zeros. */
  lemma BurstSplits(bits: seq<bool>, width: nat)
    returns (before: seq<bool>, window: seq<bool>, rest: seq<bool>)
    requires Burst(bits, width) && width <= |bits|
    ensures bits == before + (window + rest) && |window| == width
    ensures AllZero(before) && AllZero(rest) && !AllZero(window)
  {
    var start := BurstPlace(bits, width);
    before, window, rest := bits[..start], bits[start..start + width], bits[start + width..];
    ThreeParts(bits, start, start + width);
    assert !AllZero(window) by {
      var i :| 0 <= i < |bits| && bits[i];
      assert window[i - start];
    }
  }

  lemma OnesOfConcat(a: seq<bool>, b: seq<bool>)
    ensures Ones(a + b) == Ones(a) + Ones(b)
  {
    if b == [] {
      assert a + b == a;
    } else {
      assert (a + b)[..|a + b| - 1] == a + b[..|b| - 1];
      OnesOfConcat(a, b[..|b| - 1]);
    }
  }

  function ByteOf(n: nat): bv8
    requires n < 256
  {
    n as bv8
  }

  lemma NextByte(b: bv8)
    requires b as int < 255
    ensures (b + 1) as int == b as int + 1
  {
  }

  lemma {:induction false} ByteOfInt(n: nat)
    requires n < 256
    ensures ByteOf(n) as int == n
  {
    if n != 0 {
      ByteOfInt(n - 1);
      NextByte(ByteOf(n - 1));
      IntOfByte(ByteOf(n - 1) + 1);
    }
  }

  lemma IntOfByte(b: bv8)
    ensures 0 <= b as int < 256 && ByteOf(b as int) == b
  {
  }
}
