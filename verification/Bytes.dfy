/**
 Bytes and the fixed-width integers of the wire formats.

 Shifts and masks of the source are written as division and remainder by powers of two,
 so that every truncating cast is visible in the text.
 */
module Bytes {

  const TWO16: int := 0x1_0000
  const TWO24: int := 0x100_0000
  const TWO32: int := 0x1_0000_0000
  const TWO64: int := 0x1_0000_0000_0000_0000

  type Byte = x: int | 0 <= x < 256
  type U16 = x: int | 0 <= x < TWO16
  type U32 = x: int | 0 <= x < TWO32
  type U64 = x: int | 0 <= x < TWO64

  // ---------------------------------------------------------------- big-endian

  /** Four bytes, most significant first; whatever does not fit in 32 bits is lost. */
  function Be32(x: nat): (b: seq<Byte>)
    ensures |b| == 4
  {
    [x / 0x100_0000 % 256, x / 0x1_0000 % 256, x / 0x100 % 256, x % 256]
  }

  function Be24(x: nat): (b: seq<Byte>)
    ensures |b| == 3
  {
    [x / 0x1_0000 % 256, x / 0x100 % 256, x % 256]
  }

  function RdBe32(b: seq<Byte>): (x: U32)
    requires |b| >= 4
  {
    var b0: int, b1: int, b2: int, b3: int := b[0], b[1], b[2], b[3];
    0x100_0000 * b0 + 0x1_0000 * b1 + 0x100 * b2 + b3
  }

  function RdBe24(b: seq<Byte>): (x: nat)
    requires |b| >= 3
    ensures x < TWO24
  {
    var b0: int, b1: int, b2: int := b[0], b[1], b[2];
    0x1_0000 * b0 + 0x100 * b1 + b2
  }

  /** A number by its last four base-256 digits. */
  lemma FourDigits(x: nat) returns (q: nat)
    ensures x == TWO32 * q + 0x100_0000 * (x / 0x100_0000 % 256) + 0x1_0000 * (x / 0x1_0000 % 256) + 0x100 * (x / 0x100 % 256) + x % 256
  {
    DivTwice(x);
    DivTwice(x / 0x100);
    assert x / 0x100_0000 == x / 0x100 / 0x1_0000;
    q := x / 0x100_0000 / 256;
  }

  lemma DivTwice(x: nat)
    ensures x / 0x1_0000 == x / 0x100 / 0x100
  {
  }

  lemma Remainder32(x: nat, q: nat, v: U32)
    requires x == TWO32 * q + v
    ensures x % TWO32 == v
  {
  }

  lemma Remainder16(x: nat, q: nat, v: U16)
    requires x == TWO16 * q + v
    ensures x % TWO16 == v
  {
  }

  lemma Remainder64(x: nat, q: nat, v: U64)
    requires x == TWO64 * q + v
    ensures x % TWO64 == v
  {
  }

  lemma Be32RoundTrip(x: nat, tail: seq<Byte>)
    ensures RdBe32(Be32(x) + tail) == x % TWO32
  {
    var q := FourDigits(x);
    Remainder32(x, q, RdBe32(Be32(x)));
    assert forall i | 0 <= i < 4 :: (Be32(x) + tail)[i] == Be32(x)[i];
  }

  lemma Be32Wraps(x: nat)
    ensures Be32(x % TWO32) == Be32(x)
  {
    var q, y := x / TWO32, x % TWO32;
    assert x / 0x100_0000 == 256 * q + y / 0x100_0000;
    assert x / 0x1_0000 == 256 * (0x100 * q) + y / 0x1_0000;
    assert x / 0x100 == 256 * (0x1_0000 * q) + y / 0x100;
    assert x == 256 * (0x100_0000 * q) + y;
    LastDigit(q, y / 0x100_0000);
    LastDigit(0x100 * q, y / 0x1_0000);
    LastDigit(0x1_0000 * q, y / 0x100);
    LastDigit(0x100_0000 * q, y);
  }

  lemma LastDigit(a: nat, b: nat)
    ensures (256 * a + b) % 256 == b % 256
  {
  }

  lemma Be24RoundTrip(x: nat, tail: seq<Byte>)
    requires x < TWO24
    ensures RdBe24(Be24(x) + tail) == x
  {
    DivTwice(x);
    assert forall i | 0 <= i < 3 :: (Be24(x) + tail)[i] == Be24(x)[i];
  }

  lemma Be24Inverse(b: seq<Byte>)
    requires |b| >= 3
    ensures Be24(RdBe24(b)) == b[..3]
  {
    var b0: int, b1: int, b2: int := b[0], b[1], b[2];
    var x := RdBe24(b);
    assert x / 0x100 == 0x100 * b0 + b1;
    assert x / 0x1_0000 == b0;
    LastDigit(b0, b1);
    LastDigit(0x100 * b0 + b1, b2);
  }

  // ------------------------------------------------------------- little-endian

  /** Two bytes, least significant first; whatever does not fit in 16 bits is lost. */
  function Le16(x: nat): (b: seq<Byte>)
    ensures |b| == 2
  {
    [x % 256, x / 256 % 256]
  }

  function RdLe16(b: seq<Byte>): (x: U16)
    requires |b| >= 2
  {
    var b0: int, b1: int := b[0], b[1];
    256 * b1 + b0
  }

  lemma Le16RoundTrip(x: nat, tail: seq<Byte>)
    ensures RdLe16(Le16(x) + tail) == x % TWO16
  {
    Remainder16(x, x / 256 / 256, RdLe16(Le16(x)));
    assert forall i | 0 <= i < 2 :: (Le16(x) + tail)[i] == Le16(x)[i];
  }

  /** The little-endian wire identity of a 32-bit number. */
  function ToLeBytes(x: U32): (b: seq<Byte>)
    ensures |b| == 4
  {
    [x % 256, x / 0x100 % 256, x / 0x1_0000 % 256, x / 0x100_0000 % 256]
  }

  lemma ToLeBytesInjective(x: U32, y: U32)
    ensures ToLeBytes(x) == ToLeBytes(y) <==> x == y
  {
    if ToLeBytes(x) == ToLeBytes(y) {
      var p := FourDigits(x);
      var q := FourDigits(y);
      assert p == 0 && q == 0;
      assert forall i | 0 <= i < 4 :: ToLeBytes(x)[i] == ToLeBytes(y)[i];
    }
  }

  // ------------------------------------------- big-endian numbers of any length

  /** The number a byte string denotes when read most significant byte first. */
  function BeValue(s: seq<Byte>): nat {
    if s == [] then 0 else BeValue(s[..|s| - 1]) * 256 + s[|s| - 1]
  }

  /** The shortest big-endian byte string for x, with one byte for zero. */
  function MinBe(x: nat): (s: seq<Byte>)
    ensures s != []
  {
    if x < 256 then [x] else MinBe(x / 256) + [x % 256]
  }

  lemma {:induction false} MinBeValue(x: nat)
    ensures BeValue(MinBe(x)) == x
  {
    var s := MinBe(x);
    if x >= 256 {
      assert s[..|s| - 1] == MinBe(x / 256);
      MinBeValue(x / 256);
    } else {
      assert s[..0] == [];
    }
  }

  lemma {:induction false} BeValueLeadingZero(s: seq<Byte>)
    ensures BeValue([0] + s) == BeValue(s)
  {
    if s == [] {
      assert ([0] + s)[..0] == [];
    } else {
      BeValueLeadingZero(s[..|s| - 1]);
      assert ([0] + s)[..|s|] == [0] + s[..|s| - 1];
    }
  }

  /** A byte string without a leading zero is the shortest one for its value. */
  lemma {:induction false} MinBeUnique(s: seq<Byte>)
    requires s != [] && (|s| > 1 ==> s[0] != 0)
    ensures MinBe(BeValue(s)) == s
  {
    var init, last := s[..|s| - 1], s[|s| - 1];
    if |s| == 1 {
      assert init == [];
    } else {
      MinBeUnique(init);
      BeValuePositive(init);
      assert BeValue(s) / 256 == BeValue(init) && BeValue(s) % 256 == last;
      assert s == init + [last];
    }
  }

  lemma {:induction false} BeValuePositive(s: seq<Byte>)
    requires s != [] && s[0] != 0
    ensures BeValue(s) > 0
  {
    if |s| > 1 {
      BeValuePositive(s[..|s| - 1]);
    }
  }

  /** No byte string for x is shorter than MinBe(x), except the empty one for zero. */
  lemma {:induction false} MinBeShortest(s: seq<Byte>)
    ensures |MinBe(BeValue(s))| <= if s == [] then 1 else |s|
  {
    if s != [] {
      var init := s[..|s| - 1];
      MinBeShortest(init);
      assert BeValue(s) / 256 == BeValue(init);
      if init == [] {
        assert BeValue(s) < 256;
      }
    }
  }

  lemma {:induction false} MinBeMonotone(x: nat, y: nat)
    requires x <= y
    ensures |MinBe(x)| <= |MinBe(y)|
    decreases y
  {
    if x >= 256 {
      MinBeMonotone(x / 256, y / 256);
    }
  }

  lemma {:induction false} MinBeLength(x: nat, n: nat)
    requires n >= 1 && x < Pow256(n)
    ensures |MinBe(x)| <= n
  {
    if x >= 256 {
      MinBeLength(x / 256, n - 1);
    }
  }

  function Pow256(n: nat): nat {
    if n == 0 then 1 else 256 * Pow256(n - 1)
  }

  lemma MinBeLength64(x: U64)
    ensures |MinBe(x)| <= 8
  {
    assert Pow256(4) == TWO32;
    assert Pow256(8) == 256 * (256 * (256 * (256 * Pow256(4))));
    MinBeLength(x, 8);
  }

  lemma {:induction false} BeValueSplit(a: seq<Byte>, b: seq<Byte>)
    ensures BeValue(a + b) == BeValue(a) * Pow256(|b|) + BeValue(b)
  {
    if b == [] {
      assert a + b == a;
    } else {
      var init, last := b[..|b| - 1], b[|b| - 1];
      BeValueSplit(a, init);
      assert (a + b)[..|a + b| - 1] == a + init;
      var x, p := BeValue(a), Pow256(|init|);
      assert (x * p + BeValue(init)) * 256 == x * (256 * p) + BeValue(init) * 256;
    }
  }

  lemma {:induction false} BeValueBelow(s: seq<Byte>)
    ensures BeValue(s) < Pow256(|s|)
  {
    if s != [] {
      BeValueBelow(s[..|s| - 1]);
    }
  }
}
