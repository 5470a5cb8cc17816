/** SHA-1 as FIPS 180-4 defines it: sections 4.1.1, 4.2.1, 5.1.1, 5.3.1 and 6.1.2. */
module Sha1Spec {
  import opened Bytes

  type word = bv32
  type octet = bv8

  /** Addition modulo 2^32. */
  function Add(x: word, y: word): word { x + y }

  // Rotation to the left by a fixed number of bits.

  function Rotl1(x: word): word { (x << 1) | (x >> 31) }

  function Rotl5(x: word): word { (x << 5) | (x >> 27) }

  function Rotl30(x: word): word { (x << 30) | (x >> 2) }

  function Ch(x: word, y: word, z: word): word { (x & y) ^ (!x & z) }

  function Parity(x: word, y: word, z: word): word { x ^ y ^ z }

  function Maj(x: word, y: word, z: word): word { (x & y) ^ (x & z) ^ (y & z) }

  /** The function and the constant of round `t`. */
  function F(t: nat, x: word, y: word, z: word): word {
    if t < 20 then Ch(x, y, z) else if 40 <= t < 60 then Maj(x, y, z) else Parity(x, y, z)
  }

  function K(t: nat): word {
    if t < 20 then 0x5A827999 else if t < 40 then 0x6ED9EBA1 else if t < 60 then 0x8F1BBCDC else 0xCA62C1D6
  }

  /** A 64-octet message block. */
  type Block = m: seq<octet> | |m| == 64 witness seq(64, _ => 0)

  /** The big-endian word at the front of `m`. */
  function WordAt(m: seq<octet>, i: nat): word
    requires i + 4 <= |m|
  {
    (m[i] as word << 24) | (m[i + 1] as word << 16) | (m[i + 2] as word << 8) | (m[i + 3] as word)
  }

  function Xor4(x: word, y: word, z: word, u: word): word { x ^ y ^ z ^ u }

  /** The message schedule. */
  function W(m: Block, t: nat): word {
    if t < 16 then WordAt(m, 4 * t)
    else Rotl1(Xor4(W(m, t - 3), W(m, t - 8), W(m, t - 14), W(m, t - 16)))
  }

  datatype Regs = Regs(a: word, b: word, c: word, d: word, e: word)

  /** The value that enters the first working variable. */
  function Mix(rot: word, f: word, e: word, k: word, w: word): word { rot + f + e + k + w }

  /** The working variables after `t` rounds. */
  function Rounds(r: Regs, m: Block, t: nat): Regs {
    if t == 0 then r
    else
      var s := Rounds(r, m, t - 1);
      Regs(Mix(Rotl5(s.a), F(t - 1, s.b, s.c, s.d), s.e, K(t - 1), W(m, t - 1)), s.a, Rotl30(s.b), s.c, s.d)
  }

  /** The five words of the hash value. */
  type State = s: seq<word> | |s| == 5 witness [0, 0, 0, 0, 0]

  function RegsOf(h: State): Regs { Regs(h[0], h[1], h[2], h[3], h[4]) }

  function Compress(h: State, m: Block): State {
    var r := Rounds(RegsOf(h), m, 80);
    [Add(h[0], r.a), Add(h[1], r.b), Add(h[2], r.c), Add(h[3], r.d), Add(h[4], r.e)]
  }

  const Initial: State := [0x67452301, 0xEFCDAB89, 0x98BADCFE, 0x10325476, 0xC3D2E1F0]

  /** Compresses the whole blocks of `m`, one after the other. */
  function Fold(h: State, m: seq<octet>): State
    decreases |m|
  {
    if |m| < 64 then h else Fold(Compress(h, m[..64]), m[64..])
  }

  /** The 64-bit length in bits, as octets. */
  function LengthOctets(bits: nat): (s: seq<octet>)
    ensures |s| == 8
  {
    seq(8, i requires 0 <= i < 8 => BigEndian(8, bits)[i] as octet)
  }

  /** A one bit, the least number of zero bits that leaves room for the length, and the length. */
  function Padding(n: nat): seq<octet> {
    [0x80] + seq((119 - n % 64) % 64, _ => 0) + LengthOctets(8 * n)
  }

  function Pad(m: seq<octet>): seq<octet> { m + Padding(|m|) }

  function WordOctets(w: word): (s: seq<octet>)
    ensures |s| == 4
  {
    [(w >> 24) as octet, ((w >> 16) & 0xFF) as octet, ((w >> 8) & 0xFF) as octet, (w & 0xFF) as octet]
  }

  function StateOctets(h: State): (s: seq<octet>)
    ensures |s| == 20
  {
    WordOctets(h[0]) + WordOctets(h[1]) + WordOctets(h[2]) + WordOctets(h[3]) + WordOctets(h[4])
  }

  function Digest(m: seq<octet>): seq<octet> { StateOctets(Fold(Initial, Pad(m))) }

  // ---------------------------------------------------------------- laws

  lemma PadIsWhole(m: seq<octet>)
    ensures |Pad(m)| % 64 == 0
    ensures |Pad(m)| <= |m| + 72
  {
  }

  /** The written words are read back, so no two hash values share a digest. */
  lemma WordOctetsReadBack(w: word)
    ensures WordAt(WordOctets(w), 0) == w
  {
  }

  /** Whole blocks may be folded first and the rest later. */
  lemma {:induction false} FoldAppend(h: State, a: seq<octet>, b: seq<octet>)
    requires |a| % 64 == 0
    ensures Fold(h, a + b) == Fold(Fold(h, a), b)
    decreases |a|
  {
    hide Compress;
    if |a| < 64 {
      assert a + b == b;
    } else {
      assert (a + b)[..64] == a[..64] && (a + b)[64..] == a[64..] + b;
      FoldAppend(Compress(h, a[..64]), a[64..], b);
    }
  }
}
