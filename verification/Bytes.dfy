/**
  * Octets, big-endian numbers and bitwise exclusive or. Numbers are unbounded, so that an octet is a
  * number below 256 and its bits are reached by division; the laws say what this amounts to bit by
  * bit and octet by octet, and that writing and reading are inverse.
  */
module Bytes {

  /** An unsigned octet. Bit tests on octets are written with division and remainder. */
  type byte = x: int | 0 <= x < 256

  const TWO_TO_THE_16: nat := 0x1_0000
  const TWO_TO_THE_32: nat := 0x1_0000_0000
  const TWO_TO_THE_64: nat := 0x1_0000_0000_0000_0000

  /** The concatenation of a list of strings. */
  function Concat<T>(parts: seq<seq<T>>): seq<T> {
    if parts == [] then [] else parts[0] + Concat(parts[1..])
  }

  lemma {:induction false} ConcatAppend<T>(a: seq<seq<T>>, b: seq<seq<T>>)
    ensures Concat(a + b) == Concat(a) + Concat(b)
  {
    if a == [] {
      assert a + b == b;
    } else {
      assert (a + b)[1..] == a[1..] + b;
      ConcatAppend(a[1..], b);
    }
  }

  lemma ConcatSnoc<T>(a: seq<seq<T>>, x: seq<T>)
    ensures Concat(a + [x]) == Concat(a) + x
  {
    ConcatAppend(a, [x]);
    assert Concat([x]) == x + Concat<T>([]);
  }

  // ---------------------------------------------------------------- big endian

  function Pow256(n: nat): (p: nat)
    ensures p > 0
  {
    if n == 0 then 1 else 256 * Pow256(n - 1)
  }

  /** The low `n` octets of `v`, most significant first. */
  function BigEndian(n: nat, v: nat): (s: seq<byte>)
    ensures |s| == n
  {
    if n == 0 then [] else BigEndian(n - 1, v / 256) + [v % 256]
  }

  /** The number whose octets, most significant first, are `s`. */
  function FromBigEndian(s: seq<byte>): nat {
    if s == [] then 0 else 256 * FromBigEndian(s[..|s| - 1]) + s[|s| - 1]
  }

  lemma {:induction false} BigEndianRoundTrip(n: nat, v: nat)
    requires v < Pow256(n)
    ensures FromBigEndian(BigEndian(n, v)) == v
  {
    if n > 0 {
      BigEndianRoundTrip(n - 1, v / 256);
      assert BigEndian(n, v)[..n - 1] == BigEndian(n - 1, v / 256);
    }
  }

  lemma {:induction false} FromBigEndianRoundTrip(s: seq<byte>)
    ensures FromBigEndian(s) < Pow256(|s|)
    ensures BigEndian(|s|, FromBigEndian(s)) == s
  {
    if s != [] {
      FromBigEndianRoundTrip(s[..|s| - 1]);
    }
  }

  lemma Pow256Values()
    ensures Pow256(2) == TWO_TO_THE_16
    ensures Pow256(8) == TWO_TO_THE_64
  {
    assert Pow256(1) == 256;
    assert Pow256(2) == 256 * Pow256(1);
    assert Pow256(3) == 256 * Pow256(2);
    assert Pow256(4) == 256 * Pow256(3);
    assert Pow256(5) == 256 * Pow256(4);
    assert Pow256(6) == 256 * Pow256(5);
    assert Pow256(7) == 256 * Pow256(6);
    assert Pow256(8) == 256 * Pow256(7);
  }

  /** The two widths the wire format uses. */
  lemma BigEndianReadBack(n: nat, v: nat)
    requires (n == 2 && v < TWO_TO_THE_16) || (n == 8 && v < TWO_TO_THE_64)
    ensures FromBigEndian(BigEndian(n, v)) == v
  {
    Pow256Values();
    hide BigEndian, FromBigEndian;
    BigEndianRoundTrip(n, v);
  }

  function Quad(v: nat): (s: seq<byte>)
    ensures |s| == 4
  {
    [v / 0x100_0000 % 256, v / 0x1_0000 % 256, v / 0x100 % 256, v % 256]
  }

  lemma ShiftTwice(v: nat)
    ensures v / 0x100 / 256 == v / 0x1_0000
    ensures v / 0x1_0000 / 256 == v / 0x100_0000
    ensures v / 0x100_0000 / 256 == v / TWO_TO_THE_32
  {
  }

  lemma BigEndianFour(n: nat, v: nat)
    ensures BigEndian(n + 4, v) == BigEndian(n, v / TWO_TO_THE_32) + Quad(v)
  {
    hide BigEndian;
    ShiftTwice(v);
    BigEndianStep(n + 3, v);
    BigEndianStep(n + 2, v / 0x100);
    BigEndianStep(n + 1, v / 0x1_0000);
    BigEndianStep(n, v / 0x100_0000);
  }

  /** The octets of the two widths, the most significant first. */
  lemma BigEndianOctets(v: nat)
    ensures BigEndian(2, v) == [v / 0x100 % 256, v % 256]
    ensures BigEndian(8, v) == Quad(v / TWO_TO_THE_32) + Quad(v)
  {
    hide BigEndian, Quad;
    BigEndianNone(v / 0x100 / 256);
    BigEndianStep(0, v / 0x100);
    BigEndianStep(1, v);
    BigEndianNone(v / TWO_TO_THE_32 / TWO_TO_THE_32);
    BigEndianFour(0, v / TWO_TO_THE_32);
    BigEndianFour(4, v);
    assert [] + Quad(v / TWO_TO_THE_32) == Quad(v / TWO_TO_THE_32);
  }

  lemma BigEndianStep(n: nat, v: nat)
    ensures BigEndian(n + 1, v) == BigEndian(n, v / 256) + [v % 256]
  {
  }

  lemma BigEndianNone(v: nat)
    ensures BigEndian(0, v) == []
  {
  }

  // ---------------------------------------------------------------- exclusive or

  /** Bit `i` of a number, the lowest being bit 0. */
  predicate Bit(x: nat, i: nat) { if i == 0 then x % 2 == 1 else Bit(x / 2, i - 1) }

  /** Exclusive or of the low `n` bits of two numbers. */
  function XorBits(n: nat, a: nat, b: nat): nat {
    if n == 0 then 0 else (a + b) % 2 + 2 * XorBits(n - 1, a / 2, b / 2)
  }

  function Pow2(n: nat): (p: nat)
    ensures p > 0
  {
    if n == 0 then 1 else 2 * Pow2(n - 1)
  }

  lemma LowBit(a: nat, b: nat, h: nat)
    ensures var x := (a + b) % 2 + 2 * h; x / 2 == h && (x + b) % 2 == a % 2
  {
  }

  lemma {:induction false} XorBitsInvolution(n: nat, a: nat, b: nat)
    requires a < Pow2(n)
    ensures XorBits(n, a, b) < Pow2(n)
    ensures XorBits(n, XorBits(n, a, b), b) == a
  {
    if n > 0 {
      XorBitsInvolution(n - 1, a / 2, b / 2);
      LowBit(a, b, XorBits(n - 1, a / 2, b / 2));
    }
  }

  function Xor(a: byte, b: byte): byte {
    XorBitsInvolution(8, a, b);
    assert Pow2(8) == 256;
    XorBits(8, a, b)
  }

  lemma {:induction false} XorBitsAre(n: nat, a: nat, b: nat, i: nat)
    requires i < n
    ensures Bit(XorBits(n, a, b), i) <==> (Bit(a, i) != Bit(b, i))
  {
    var h := XorBits(n - 1, a / 2, b / 2);
    BitOfTwice((a + b) % 2, h, i);
    if i == 0 {
      OddSum(a, b);
    } else {
      XorBitsAre(n - 1, a / 2, b / 2, i - 1);
    }
  }

  lemma OddSum(a: nat, b: nat)
    ensures (a + b) % 2 == 1 <==> (a % 2 == 1) != (b % 2 == 1)
  {
  }

  lemma BitOfTwice(low: nat, h: nat, i: nat)
    requires low < 2
    ensures Bit(low + 2 * h, i) == if i == 0 then low == 1 else Bit(h, i - 1)
  {
  }

  /** A bit is set if and only if exactly one of the two is. */
  lemma XorIsExclusive(a: byte, b: byte, i: nat)
    requires i < 8
    ensures Bit(Xor(a, b), i) <==> (Bit(a, i) != Bit(b, i))
  {
    XorBitsAre(8, a, b, i);
  }

  lemma XorInvolution(a: byte, b: byte)
    ensures Xor(Xor(a, b), b) == a
  {
    assert Pow2(8) == 256;
    XorBitsInvolution(8, a, b);
  }
}
