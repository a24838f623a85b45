/**
 * A cyclic redundancy check as a shift register of any width, fed one message bit at a time.
 * Position 0 of the register is the end that shifts out, so one theory serves both bit orders.
 */
module Lfsr {
  import opened Bits

  function Zeros(n: nat): (z: seq<bool>)
    ensures |z| == n && AllZero(z)
  {
    seq(n, i => false)
  }

  function Xor(a: seq<bool>, b: seq<bool>): (r: seq<bool>)
    requires |a| == |b|
    ensures |r| == |a|
  {
    seq(|a|, i requires 0 <= i < |a| => a[i] != b[i])
  }

  /** One step of long division by the generator whose low coefficients are `poly`. */
  function Shift(poly: seq<bool>, c: seq<bool>): (r: seq<bool>)
    requires |c| == |poly| > 0
    ensures |r| == |poly|
  {
    Xor(c[1..] + [false], if c[0] then poly else Zeros(|poly|))
  }

  function Flip(c: seq<bool>, bit: bool): (r: seq<bool>)
    requires |c| > 0
    ensures |r| == |c|
  {
    c[0 := c[0] != bit]
  }

  /** The remainder register after taking in a bit stream. */
  function Feed(poly: seq<bool>, c: seq<bool>, bits: seq<bool>): (r: seq<bool>)
    requires |c| == |poly| > 0
    ensures |r| == |poly|
  {
    if bits == [] then c
    else Shift(poly, Flip(Feed(poly, c, bits[..|bits| - 1]), bits[|bits| - 1]))
  }

  function Shifts(poly: seq<bool>, c: seq<bool>, n: nat): (r: seq<bool>)
    requires |c| == |poly| > 0
    ensures |r| == |poly|
  {
    if n == 0 then c else Shift(poly, Shifts(poly, c, n - 1))
  }

  lemma FeedOfConcat(poly: seq<bool>, c: seq<bool>, a: seq<bool>, b: seq<bool>)
    requires |c| == |poly| > 0
    ensures Feed(poly, c, a + b) == Feed(poly, Feed(poly, c, a), b)
  {
    if b == [] {
      assert a + b == a;
    } else {
      assert (a + b)[..|a + b| - 1] == a + b[..|b| - 1];
      FeedOfConcat(poly, c, a, b[..|b| - 1]);
    }
  }

  lemma ShiftIsLinear(poly: seq<bool>, a: seq<bool>, b: seq<bool>)
    requires |a| == |b| == |poly| > 0
    ensures Shift(poly, Xor(a, b)) == Xor(Shift(poly, a), Shift(poly, b))
  {
  }

  lemma ShiftIsInjective(poly: seq<bool>, c: seq<bool>)
    requires |c| == |poly| > 0 && poly[|poly| - 1]
    ensures AllZero(Shift(poly, c)) <==> AllZero(c)
  {
    var r := Shift(poly, c);
    assert r[|poly| - 1] == c[0];
    if !c[0] {
      assert forall i :: 0 <= i < |poly| - 1 ==> r[i] == c[i + 1];
      assert forall i :: 0 < i < |poly| ==> c[i] == r[i - 1];
    }
  }

  lemma {:induction false} FeedIsLinear(
    poly: seq<bool>, c: seq<bool>, d: seq<bool>, a: seq<bool>, b: seq<bool>)
    requires |c| == |d| == |poly| > 0 && |a| == |b|
    ensures Feed(poly, Xor(c, d), Xor(a, b)) == Xor(Feed(poly, c, a), Feed(poly, d, b))
  {
    if a != [] {
      var n := |a| - 1;
      FeedIsLinear(poly, c, d, a[..n], b[..n]);
      assert Xor(a, b)[..n] == Xor(a[..n], b[..n]);
      var c', d' := Feed(poly, c, a[..n]), Feed(poly, d, b[..n]);
      assert Flip(Xor(c', d'), a[n] != b[n]) == Xor(Flip(c', a[n]), Flip(d', b[n]));
      ShiftIsLinear(poly, Flip(c', a[n]), Flip(d', b[n]));
    }
  }

  lemma {:induction false} ZerosDoNotClear(poly: seq<bool>, c: seq<bool>, bits: seq<bool>)
    requires |c| == |poly| > 0 && poly[|poly| - 1]
    requires AllZero(bits)
    ensures AllZero(Feed(poly, c, bits)) <==> AllZero(c)
  {
    if bits != [] {
      var n := |bits| - 1;
      ZerosDoNotClear(poly, c, bits[..n]);
      var c' := Feed(poly, c, bits[..n]);
      assert Flip(c', bits[n]) == c';
      ShiftIsInjective(poly, c');
    }
  }

  lemma {:induction false} ShiftsAreInjective(poly: seq<bool>, c: seq<bool>, n: nat)
    requires |c| == |poly| > 0 && poly[|poly| - 1]
    ensures AllZero(Shifts(poly, c, n)) <==> AllZero(c)
  {
    if n != 0 {
      ShiftsAreInjective(poly, c, n - 1);
      ShiftIsInjective(poly, Shifts(poly, c, n - 1));
    }
  }

  /** What is left of a word after its first `n` bits have shifted out. */
  function Pending(w: seq<bool>, n: nat): (r: seq<bool>)
    requires n <= |w|
    ensures |r| == |w|
  {
    w[n..] + Zeros(n)
  }

  /** Mixing a word in at once, or feeding its bits one by one, is the same division. */
  lemma {:induction false} WordThenShifts(poly: seq<bool>, c: seq<bool>, w: seq<bool>, n: nat)
    requires |c| == |w| == |poly| > 0 && n <= |w|
    ensures Shifts(poly, Xor(c, w), n) == Xor(Feed(poly, c, w[..n]), Pending(w, n))
  {
    if n == 0 {
      assert Pending(w, 0) == w;
    } else {
      WordThenShifts(poly, c, w, n - 1);
      assert w[..n][..n - 1] == w[..n - 1];
      var c', rest := Feed(poly, c, w[..n - 1]), Pending(w, n - 1);
      var head, tail := [w[n - 1]] + Zeros(|w| - 1), [false] + rest[1..];
      assert Xor(c', rest) == Xor(Flip(c', w[n - 1]), tail);
      ShiftIsLinear(poly, Flip(c', w[n - 1]), tail);
      assert Shift(poly, tail) == Pending(w, n);
    }
  }

  lemma XorWithZero(a: seq<bool>, z: seq<bool>)
    requires |a| == |z| && AllZero(z)
    ensures Xor(a, z) == a && Xor(z, a) == a
  {
  }

  lemma XorOfConcat(a: seq<bool>, b: seq<bool>, c: seq<bool>, d: seq<bool>)
    requires |a| == |c| && |b| == |d|
    ensures Xor(a + b, c + d) == Xor(a, c) + Xor(b, d)
  {
  }

  /** A whole word mixed in and shifted through is the word's bits fed. */
  lemma WordIsFed(poly: seq<bool>, c: seq<bool>, w: seq<bool>)
    requires |c| == |w| == |poly| > 0
    ensures Shifts(poly, Xor(c, w), |w|) == Feed(poly, c, w)
  {
    WordThenShifts(poly, c, w, |w|);
    assert w[..|w|] == w;
    XorWithZero(Feed(poly, c, w), Pending(w, |w|));
  }

  lemma WindowIsSeen(poly: seq<bool>, window: seq<bool>)
    requires |window| == |poly| > 0 && poly[|poly| - 1]
    ensures AllZero(Feed(poly, Zeros(|poly|), window)) <==> AllZero(window)
  {
    WordIsFed(poly, Zeros(|poly|), window);
    XorWithZero(window, Zeros(|poly|));
    ShiftsAreInjective(poly, window, |poly|);
  }

  lemma ZeroIsZeros(c: seq<bool>)
    requires AllZero(c)
    ensures c == Zeros(|c|)
  {
  }

  lemma WindowAmongZeros(poly: seq<bool>, before: seq<bool>, window: seq<bool>, rest: seq<bool>)
    requires |window| == |poly| > 0 && poly[|poly| - 1]
    requires AllZero(before) && AllZero(rest) && !AllZero(window)
    ensures !AllZero(Feed(poly, Zeros(|poly|), before + (window + rest)))
  {
    var z := Zeros(|poly|);
    FeedOfConcat(poly, z, before, window + rest);
    ZerosDoNotClear(poly, z, before);
    ZeroIsZeros(Feed(poly, z, before));
    FeedOfConcat(poly, z, window, rest);
    WindowIsSeen(poly, window);
    ZerosDoNotClear(poly, Feed(poly, z, window), rest);
  }

  /** A burst no wider than the register always leaves a remainder, in a stream of any length. */
  lemma BurstIsSeen(poly: seq<bool>, bits: seq<bool>)
    requires |poly| > 0 && poly[|poly| - 1]
    requires |poly| <= |bits| && Burst(bits, |poly|)
    ensures !AllZero(Feed(poly, Zeros(|poly|), bits))
  {
    var before, window, rest := BurstSplits(bits, |poly|);
    WindowAmongZeros(poly, before, window, rest);
  }

  predicate Odd(bits: seq<bool>) {
    Ones(bits) % 2 == 1
  }

  lemma {:induction false} OddOfXor(a: seq<bool>, b: seq<bool>)
    requires |a| == |b|
    ensures Odd(Xor(a, b)) <==> (Odd(a) != Odd(b))
  {
    if a != [] {
      var n := |a| - 1;
      assert Xor(a, b)[..n] == Xor(a[..n], b[..n]);
      OddOfXor(a[..n], b[..n]);
    }
  }

  lemma {:induction false} OnesOfZero(bits: seq<bool>)
    requires AllZero(bits)
    ensures Ones(bits) == 0
  {
    if bits != [] {
      OnesOfZero(bits[..|bits| - 1]);
    }
  }

  lemma ShiftKeepsParity(poly: seq<bool>, c: seq<bool>)
    requires |c| == |poly| > 0 && Odd(poly)
    ensures Odd(Shift(poly, c)) <==> Odd(c)
  {
    assert c == [c[0]] + c[1..];
    OnesOfConcat([c[0]], c[1..]);
    OnesOfConcat(c[1..], [false]);
    OnesOfZero(Zeros(|poly|));
    OddOfXor(c[1..] + [false], if c[0] then poly else Zeros(|poly|));
    assert Ones([c[0]]) == Ones([]) + (if c[0] then 1 else 0) && Ones([false]) == 0;
  }

  lemma FlipParity(c: seq<bool>, bit: bool)
    requires |c| > 0
    ensures Odd(Flip(c, bit)) <==> (Odd(c) != bit)
  {
    assert c == [c[0]] + c[1..];
    assert Flip(c, bit) == [c[0] != bit] + c[1..];
    OnesOfConcat([c[0]], c[1..]);
    OnesOfConcat([c[0] != bit], c[1..]);
    assert Ones([c[0]]) == Ones([]) + (if c[0] then 1 else 0);
    assert Ones([c[0] != bit]) == Ones([]) + (if c[0] != bit then 1 else 0);
  }

  /** With an odd generator tail the register carries the parity of everything fed to it. */
  lemma {:induction false} FeedKeepsParity(poly: seq<bool>, c: seq<bool>, bits: seq<bool>)
    requires |c| == |poly| > 0 && Odd(poly)
    ensures Odd(Feed(poly, c, bits)) <==> (Odd(c) != Odd(bits))
  {
    if bits != [] {
      var n := |bits| - 1;
      FeedKeepsParity(poly, c, bits[..n]);
      FlipParity(Feed(poly, c, bits[..n]), bits[n]);
      ShiftKeepsParity(poly, Flip(Feed(poly, c, bits[..n]), bits[n]));
    }
  }
}
