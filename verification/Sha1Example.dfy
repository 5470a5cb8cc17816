/**
  * SHA-1 by its bits and by its example: what the rotations and the functions of FIPS 180-4 section
  * 4.1.1 do to each bit, and the digest of "abc", computed word by word and round by round, which
  * depends on every constant and on the place of every word.
  */
module Sha1Example {
  import opened Bytes
  import opened Sha1Spec
  import Sha1

  // ---------------------------------------------------------------- bit by bit

  /** The word in which only bit `i` is set, the lowest being bit 0. */
  function Mask(i: nat): word { if i == 0 then 1 else Twice(Mask(i - 1)) }

  function Twice(x: word): word { x << 1 }

  function Under(x: word, m: word): word { x & m }

  predicate WordBit(x: word, i: nat) { Under(x, Mask(i)) == Mask(i) }

  lemma Masks()
    ensures Mask(0) == 0x1 && Mask(1) == 0x2 && Mask(2) == 0x4 && Mask(3) == 0x8
    ensures Mask(4) == 0x10 && Mask(5) == 0x20 && Mask(6) == 0x40 && Mask(7) == 0x80
    ensures Mask(8) == 0x100 && Mask(9) == 0x200 && Mask(10) == 0x400 && Mask(11) == 0x800
    ensures Mask(12) == 0x1000 && Mask(13) == 0x2000 && Mask(14) == 0x4000 && Mask(15) == 0x8000
    ensures Mask(16) == 0x10000 && Mask(17) == 0x20000 && Mask(18) == 0x40000 && Mask(19) == 0x80000
    ensures Mask(20) == 0x100000 && Mask(21) == 0x200000 && Mask(22) == 0x400000 && Mask(23) == 0x800000
    ensures Mask(24) == 0x1000000 && Mask(25) == 0x2000000 && Mask(26) == 0x4000000 && Mask(27) == 0x8000000
    ensures Mask(28) == 0x10000000 && Mask(29) == 0x20000000 && Mask(30) == 0x40000000 && Mask(31) == 0x80000000
  {
  }

  lemma MaskRotates(i: nat)
    requires i < 32
    ensures Rotl1(Mask(i)) == Mask((i + 1) % 32)
  {
    Masks();
    hide Mask;
    match i
    case 0 => case 1 => case 2 => case 3 => case 4 => case 5 => case 6 => case 7 =>
    case 8 => case 9 => case 10 => case 11 => case 12 => case 13 => case 14 => case 15 =>
    case 16 => case 17 => case 18 => case 19 => case 20 => case 21 => case 22 => case 23 =>
    case 24 => case 25 => case 26 => case 27 => case 28 => case 29 => case 30 => case 31 =>
  }

  lemma RotatedTogether(x: word, m: word)
    ensures Under(Rotl1(x), Rotl1(m)) == Rotl1(Under(x, m))
    ensures Rotl1(x) == Rotl1(m) ==> x == m
  {
  }

  /** The other rotations by the one by a single place. */
  lemma RotationsCompose(x: word)
    ensures Rotl5(x) == Rotl1(Rotl1(Rotl1(Rotl1(Rotl1(x)))))
    ensures Rotl1(Rotl1(Rotl30(x))) == x
  {
  }

  lemma OneUp(x: word, i: nat)
    requires i < 32
    ensures WordBit(Rotl1(x), (i + 1) % 32) == WordBit(x, i)
  {
    hide Mask, Rotl1, Under;
    MaskRotates(i);
    RotatedTogether(x, Mask(i));
    RotatedTogether(Under(x, Mask(i)), Mask(i));
  }

  lemma FiveUp(x: word, i: nat)
    requires i < 32
    ensures WordBit(Rotl5(x), (i + 5) % 32) == WordBit(x, i)
  {
    hide WordBit, Rotl1, Rotl5, Rotl30;
    RotationsCompose(x);
    var x1, i1 := Rotl1(x), (i + 1) % 32;
    var x2, i2 := Rotl1(x1), (i1 + 1) % 32;
    var x3, i3 := Rotl1(x2), (i2 + 1) % 32;
    var x4, i4 := Rotl1(x3), (i3 + 1) % 32;
    OneUp(x, i);
    OneUp(x1, i1);
    OneUp(x2, i2);
    OneUp(x3, i3);
    OneUp(x4, i4);
    assert (i4 + 1) % 32 == (i + 5) % 32;
  }

  lemma TwoDown(x: word, i: nat)
    requires i < 32
    ensures WordBit(Rotl30(x), (i + 30) % 32) == WordBit(x, i)
  {
    hide WordBit, Rotl1, Rotl5, Rotl30;
    RotationsCompose(x);
    var y, j := Rotl30(x), (i + 30) % 32;
    OneUp(y, j);
    OneUp(Rotl1(y), (j + 1) % 32);
    assert ((j + 1) % 32 + 1) % 32 == i;
  }

  /** Each rotation moves bit `i` up by so many places, round the end of the word. */
  lemma RotationsMoveBits(x: word, i: nat)
    requires i < 32
    ensures WordBit(Rotl1(x), (i + 1) % 32) == WordBit(x, i)
    ensures WordBit(Rotl5(x), (i + 5) % 32) == WordBit(x, i)
    ensures WordBit(Rotl30(x), (i + 30) % 32) == WordBit(x, i)
  {
    hide WordBit, Rotl1, Rotl5, Rotl30;
    OneUp(x, i);
    FiveUp(x, i);
    TwoDown(x, i);
  }

  /** Under a mask of one bit there is that bit or none. */
  lemma {:induction false} ZeroOrMask(x: word, i: nat)
    ensures Under(x, Mask(i)) == 0 || Under(x, Mask(i)) == Mask(i)
    decreases i
  {
    hide Under, Twice, Half;
    if i == 0 {
      UnderOne(x);
    } else {
      UnderShift(x, Mask(i - 1));
      ZeroOrMask(Half(x), i - 1);
      TwiceZero();
    }
  }

  lemma UnderOne(x: word)
    ensures Under(x, 1) == 0 || Under(x, 1) == 1
  {
  }

  function Half(x: word): word { x >> 1 }

  lemma UnderShift(x: word, m: word)
    ensures Under(x, Twice(m)) == Twice(Under(Half(x), m))
  {
  }

  lemma TwiceZero()
    ensures Twice(0) == 0
  {
  }

  lemma MaskNotZero(i: nat)
    requires i < 32
    ensures Mask(i) != 0
  {
    Masks();
    hide Mask;
    match i
    case 0 => case 1 => case 2 => case 3 => case 4 => case 5 => case 6 => case 7 =>
    case 8 => case 9 => case 10 => case 11 => case 12 => case 13 => case 14 => case 15 =>
    case 16 => case 17 => case 18 => case 19 => case 20 => case 21 => case 22 => case 23 =>
    case 24 => case 25 => case 26 => case 27 => case 28 => case 29 => case 30 => case 31 =>
  }

  lemma ChoiceUnder(x: word, y: word, z: word, m: word)
    ensures Under(Ch(x, y, z), m) == Ch(Under(x, m), Under(y, m), Under(z, m))
  {
  }

  lemma ParityUnder(x: word, y: word, z: word, m: word)
    ensures Under(Parity(x, y, z), m) == Parity(Under(x, m), Under(y, m), Under(z, m))
  {
  }

  lemma MajorityUnder(x: word, y: word, z: word, m: word)
    ensures Under(Maj(x, y, z), m) == Maj(Under(x, m), Under(y, m), Under(z, m))
  {
  }

  /** The functions of words that are zero or the mask. */
  lemma FunctionsOfMasks(m: word, b: word, c: word)
    requires (b == 0 || b == m) && (c == 0 || c == m)
    ensures Ch(0, b, c) == c && Ch(m, b, c) == b
    ensures Parity(0, 0, c) == c && Parity(m, m, c) == c && Parity(0, m, 0) == Parity(m, 0, 0) == m
    ensures Parity(0, m, m) == Parity(m, 0, m) == 0
    ensures Maj(b, b, c) == Maj(b, c, b) == Maj(c, b, b) == b
  {
  }

  /** Of each bit: a choice, an odd number, a majority (FIPS 180-4 section 4.1.1). */
  lemma FunctionsOfBits(x: word, y: word, z: word, i: nat)
    requires i < 32
    ensures WordBit(Ch(x, y, z), i) == if WordBit(x, i) then WordBit(y, i) else WordBit(z, i)
    ensures WordBit(Parity(x, y, z), i) == ((WordBit(x, i) != WordBit(y, i)) != WordBit(z, i))
    ensures WordBit(Maj(x, y, z), i) ==
      ((WordBit(x, i) && WordBit(y, i)) || (WordBit(x, i) && WordBit(z, i)) || (WordBit(y, i) && WordBit(z, i)))
  {
    hide Mask, Under, Ch, Parity, Maj;
    var m := Mask(i);
    MaskNotZero(i);
    ZeroOrMask(x, i);
    ZeroOrMask(y, i);
    ZeroOrMask(z, i);
    ChoiceUnder(x, y, z, m);
    ParityUnder(x, y, z, m);
    MajorityUnder(x, y, z, m);
    var a, b, c := Under(x, m), Under(y, m), Under(z, m);
    FunctionsOfMasks(m, b, c);
    FunctionsOfMasks(m, c, b);
    FunctionsOfMasks(m, a, c);
    FunctionsOfMasks(m, c, a);
    FunctionsOfMasks(m, a, b);
    FunctionsOfMasks(m, b, a);
  }

  // ---------------------------------------------------------------- the example

  const ABC: seq<octet> := [0x61, 0x62, 0x63]

  /** Its one block: a one bit, zeros, and the length of 24 bits. */
  const Padded: Block := [0x61, 0x62, 0x63, 0x80] + seq(59, _ => 0) + [0x18]

  const Start: Regs := RegsOf(Initial)

  lemma PaddedIs()
    ensures Pad(ABC) == Padded
  {
    BigEndianOctets(24);
    assert Quad(24) == [0, 0, 0, 24] && Quad(24 / TWO_TO_THE_32) == [0, 0, 0, 0];
    assert LengthOctets(24) == [0, 0, 0, 0, 0, 0, 0, 24];
  }

  /** The schedule, sixteen words at a time. */
  lemma Words0()
    ensures W(Padded, 0) == 0x61626380 && W(Padded, 1) == 0x00000000
    ensures W(Padded, 2) == 0x00000000 && W(Padded, 3) == 0x00000000
    ensures W(Padded, 4) == 0x00000000 && W(Padded, 5) == 0x00000000
    ensures W(Padded, 6) == 0x00000000 && W(Padded, 7) == 0x00000000
    ensures W(Padded, 8) == 0x00000000 && W(Padded, 9) == 0x00000000
    ensures W(Padded, 10) == 0x00000000 && W(Padded, 11) == 0x00000000
    ensures W(Padded, 12) == 0x00000000 && W(Padded, 13) == 0x00000000
    ensures W(Padded, 14) == 0x00000000 && W(Padded, 15) == 0x00000018
  {
    hide Padded, WordAt;
    forall t | 0 <= t < 16 ensures W(Padded, t) == WordAt(Padded, 4 * t) {
    }
    FirstWord();
    LastWord();
    forall t | 1 <= t < 15 ensures WordAt(Padded, 4 * t) == 0 {
      ZeroWord(4 * t);
    }
  }

  lemma FirstWord()
    ensures WordAt(Padded, 0) == 0x61626380
  {
  }

  lemma LastWord()
    ensures WordAt(Padded, 60) == 0x18
  {
  }

  lemma ZeroWord(i: nat)
    requires 4 <= i <= 56
    ensures WordAt(Padded, i) == 0
  {
  }

  lemma Words16()
    ensures W(Padded, 16) == 0xC2C4C700 && W(Padded, 17) == 0x00000000
    ensures W(Padded, 18) == 0x00000030 && W(Padded, 19) == 0x85898E01
    ensures W(Padded, 20) == 0x00000000 && W(Padded, 21) == 0x00000060
    ensures W(Padded, 22) == 0x0B131C03 && W(Padded, 23) == 0x00000030
    ensures W(Padded, 24) == 0x85898EC1 && W(Padded, 25) == 0x16263806
    ensures W(Padded, 26) == 0x00000000 && W(Padded, 27) == 0x00000180
    ensures W(Padded, 28) == 0x2C4C700C && W(Padded, 29) == 0x000000F0
    ensures W(Padded, 30) == 0x93AFB507 && W(Padded, 31) == 0x5898E048
  {
    hide W;
    Words0();
    Sha1.NextWord(Padded, 16); Sha1.NextWord(Padded, 17); Sha1.NextWord(Padded, 18); Sha1.NextWord(Padded, 19);
    Sha1.NextWord(Padded, 20); Sha1.NextWord(Padded, 21); Sha1.NextWord(Padded, 22); Sha1.NextWord(Padded, 23);
    Sha1.NextWord(Padded, 24); Sha1.NextWord(Padded, 25); Sha1.NextWord(Padded, 26); Sha1.NextWord(Padded, 27);
    Sha1.NextWord(Padded, 28); Sha1.NextWord(Padded, 29); Sha1.NextWord(Padded, 30); Sha1.NextWord(Padded, 31);
  }

  lemma Words32()
    ensures W(Padded, 32) == 0x8E9A9202 && W(Padded, 33) == 0x00000600
    ensures W(Padded, 34) == 0xB131C0F0 && W(Padded, 35) == 0x16263BC6
    ensures W(Padded, 36) == 0x4EBED41E && W(Padded, 37) == 0x626380A1
    ensures W(Padded, 38) == 0x16263806 && W(Padded, 39) == 0x000018C0
    ensures W(Padded, 40) == 0xD2E138C4 && W(Padded, 41) == 0x00000F00
    ensures W(Padded, 42) == 0x3AFB5079 && W(Padded, 43) == 0x898E04E5
    ensures W(Padded, 44) == 0xE2BA3C2B && W(Padded, 45) == 0x000060C0
    ensures W(Padded, 46) == 0x053A37CD && W(Padded, 47) == 0x74458547
  {
    hide W;
    Words16();
    Sha1.NextWord(Padded, 32); Sha1.NextWord(Padded, 33); Sha1.NextWord(Padded, 34); Sha1.NextWord(Padded, 35);
    Sha1.NextWord(Padded, 36); Sha1.NextWord(Padded, 37); Sha1.NextWord(Padded, 38); Sha1.NextWord(Padded, 39);
    Sha1.NextWord(Padded, 40); Sha1.NextWord(Padded, 41); Sha1.NextWord(Padded, 42); Sha1.NextWord(Padded, 43);
    Sha1.NextWord(Padded, 44); Sha1.NextWord(Padded, 45); Sha1.NextWord(Padded, 46); Sha1.NextWord(Padded, 47);
  }

  lemma Words48()
    ensures W(Padded, 48) == 0xDA9415ED && W(Padded, 49) == 0x26380A16
    ensures W(Padded, 50) == 0x626383A1 && W(Padded, 51) == 0x4EBF54DE
    ensures W(Padded, 52) == 0x3835B44B && W(Padded, 53) == 0x0000F600
    ensures W(Padded, 54) == 0x1E84C7A3 && W(Padded, 55) == 0x98E04D98
    ensures W(Padded, 56) == 0x651D16A0 && W(Padded, 57) == 0x62658CA1
    ensures W(Padded, 58) == 0x458544D6 && W(Padded, 59) == 0x44584CB7
    ensures W(Padded, 60) == 0x7BA06619 && W(Padded, 61) == 0x6380AEA2
    ensures W(Padded, 62) == 0x0AE55269 && W(Padded, 63) == 0x627B49A1
  {
    hide W;
    Words32();
    Sha1.NextWord(Padded, 48); Sha1.NextWord(Padded, 49); Sha1.NextWord(Padded, 50); Sha1.NextWord(Padded, 51);
    Sha1.NextWord(Padded, 52); Sha1.NextWord(Padded, 53); Sha1.NextWord(Padded, 54); Sha1.NextWord(Padded, 55);
    Sha1.NextWord(Padded, 56); Sha1.NextWord(Padded, 57); Sha1.NextWord(Padded, 58); Sha1.NextWord(Padded, 59);
    Sha1.NextWord(Padded, 60); Sha1.NextWord(Padded, 61); Sha1.NextWord(Padded, 62); Sha1.NextWord(Padded, 63);
  }

  lemma Words64()
    ensures W(Padded, 64) == 0x7CD45C9D && W(Padded, 65) == 0x000F0000
    ensures W(Padded, 66) == 0xFB50753A && W(Padded, 67) == 0xEC6765E8
    ensures W(Padded, 68) == 0xBA3C2BE2 && W(Padded, 69) == 0x0060C000
    ensures W(Padded, 70) == 0x3A37CD05 && W(Padded, 71) == 0x458546F4
    ensures W(Padded, 72) == 0xB8599DD6 && W(Padded, 73) == 0x380A1A26
    ensures W(Padded, 74) == 0x01E02203 && W(Padded, 75) == 0xE7CC3456
    ensures W(Padded, 76) == 0xE6E60B69 && W(Padded, 77) == 0x00F60A00
    ensures W(Padded, 78) == 0x5795EF4F && W(Padded, 79) == 0x822E0879
  {
    hide W;
    Words48();
    Sha1.NextWord(Padded, 64); Sha1.NextWord(Padded, 65); Sha1.NextWord(Padded, 66); Sha1.NextWord(Padded, 67);
    Sha1.NextWord(Padded, 68); Sha1.NextWord(Padded, 69); Sha1.NextWord(Padded, 70); Sha1.NextWord(Padded, 71);
    Sha1.NextWord(Padded, 72); Sha1.NextWord(Padded, 73); Sha1.NextWord(Padded, 74); Sha1.NextWord(Padded, 75);
    Sha1.NextWord(Padded, 76); Sha1.NextWord(Padded, 77); Sha1.NextWord(Padded, 78); Sha1.NextWord(Padded, 79);
  }

  lemma OneRound(t: nat, s: Regs, n: Regs)
    requires Rounds(Start, Padded, t) == s
    requires n == Regs(Mix(Rotl5(s.a), F(t, s.b, s.c, s.d), s.e, K(t), W(Padded, t)), s.a, Rotl30(s.b), s.c, s.d)
    ensures Rounds(Start, Padded, t + 1) == n
  {
    hide Mix, F, K, W, Rotl5, Rotl30;
  }

  /** The working variables, sixteen rounds at a time. */
  lemma Rounds16()
    ensures Rounds(Start, Padded, 16) == Regs(0x20BDD62F, 0x196BEE77, 0x644A3DA5, 0x1181ED99, 0x18C623F9)
  {
    hide W, Rounds;
    Words0();
    NoRounds();
    var s0 := Regs(0x67452301, 0xEFCDAB89, 0x98BADCFE, 0x10325476, 0xC3D2E1F0);
    var s1 := Regs(0x0116FC33, s0.a, 0x7BF36AE2, s0.c, s0.d);
    OneRound(0, s0, s1);
    var s2 := Regs(0x8990536D, s1.a, 0x59D148C0, s1.c, s1.d);
    OneRound(1, s1, s2);
    var s3 := Regs(0xA1390F08, s2.a, 0xC045BF0C, s2.c, s2.d);
    OneRound(2, s2, s3);
    var s4 := Regs(0xCDD8E11B, s3.a, 0x626414DB, s3.c, s3.d);
    OneRound(3, s3, s4);
    var s5 := Regs(0xCFD499DE, s4.a, 0x284E43C2, s4.c, s4.d);
    OneRound(4, s4, s5);
    var s6 := Regs(0x3FC7CA40, s5.a, 0xF3763846, s5.c, s5.d);
    OneRound(5, s5, s6);
    var s7 := Regs(0x993E30C1, s6.a, 0xB3F52677, s6.c, s6.d);
    OneRound(6, s6, s7);
    var s8 := Regs(0x9E8C07D4, s7.a, 0x0FF1F290, s7.c, s7.d);
    OneRound(7, s7, s8);
    var s9 := Regs(0x4B6AE328, s8.a, 0x664F8C30, s8.c, s8.d);
    OneRound(8, s8, s9);
    var s10 := Regs(0x8351F929, s9.a, 0x27A301F5, s9.c, s9.d);
    OneRound(9, s9, s10);
    var s11 := Regs(0xFBDA9E89, s10.a, 0x12DAB8CA, s10.c, s10.d);
    OneRound(10, s10, s11);
    var s12 := Regs(0x63188FE4, s11.a, 0x60D47E4A, s11.c, s11.d);
    OneRound(11, s11, s12);
    var s13 := Regs(0x4607B664, s12.a, 0x7EF6A7A2, s12.c, s12.d);
    OneRound(12, s12, s13);
    var s14 := Regs(0x9128F695, s13.a, 0x18C623F9, s13.c, s13.d);
    OneRound(13, s13, s14);
    var s15 := Regs(0x196BEE77, s14.a, 0x1181ED99, s14.c, s14.d);
    OneRound(14, s14, s15);
    var s16 := Regs(0x20BDD62F, s15.a, 0x644A3DA5, s15.c, s15.d);
    OneRound(15, s15, s16);
  }

  lemma Rounds32()
    ensures Rounds(Start, Padded, 32) == Regs(0x3B845D33, 0x1267B407, 0x717EEBD7, 0xA0DC2D4B, 0xD2AA1365)
  {
    hide W, Rounds;
    Words16();
    Rounds16();
    var s16 := Regs(0x20BDD62F, 0x196BEE77, 0x644A3DA5, 0x1181ED99, 0x18C623F9);
    var s17 := Regs(0x4E925823, s16.a, 0xC65AFB9D, s16.c, s16.d);
    OneRound(16, s16, s17);
    var s18 := Regs(0x82AA6728, s17.a, 0xC82F758B, s17.c, s17.d);
    OneRound(17, s17, s18);
    var s19 := Regs(0xDC64901D, s18.a, 0xD3A49608, s18.c, s18.d);
    OneRound(18, s18, s19);
    var s20 := Regs(0xFD9E1D7D, s19.a, 0x20AA99CA, s19.c, s19.d);
    OneRound(19, s19, s20);
    var s21 := Regs(0x1A37B0CA, s20.a, 0x77192407, s20.c, s20.d);
    OneRound(20, s20, s21);
    var s22 := Regs(0x33A23BFC, s21.a, 0x7F67875F, s21.c, s21.d);
    OneRound(21, s21, s22);
    var s23 := Regs(0x21283486, s22.a, 0x868DEC32, s22.c, s22.d);
    OneRound(22, s22, s23);
    var s24 := Regs(0xD541F12D, s23.a, 0x0CE88EFF, s23.c, s23.d);
    OneRound(23, s23, s24);
    var s25 := Regs(0xC7567DC6, s24.a, 0x884A0D21, s24.c, s24.d);
    OneRound(24, s24, s25);
    var s26 := Regs(0x48413BA4, s25.a, 0x75507C4B, s25.c, s25.d);
    OneRound(25, s25, s26);
    var s27 := Regs(0xBE35FBD5, s26.a, 0xB1D59F71, s26.c, s26.d);
    OneRound(26, s26, s27);
    var s28 := Regs(0x4AA84D97, s27.a, 0x12104EE9, s27.c, s27.d);
    OneRound(27, s27, s28);
    var s29 := Regs(0x8370B52E, s28.a, 0x6F8D7EF5, s28.c, s28.d);
    OneRound(28, s28, s29);
    var s30 := Regs(0xC5FBAF5D, s29.a, 0xD2AA1365, s29.c, s29.d);
    OneRound(29, s29, s30);
    var s31 := Regs(0x1267B407, s30.a, 0xA0DC2D4B, s30.c, s30.d);
    OneRound(30, s30, s31);
    var s32 := Regs(0x3B845D33, s31.a, 0x717EEBD7, s31.c, s31.d);
    OneRound(31, s31, s32);
  }

  lemma Rounds48()
    ensures Rounds(Start, Padded, 48) == Regs(0xBEAD02CA, 0xA01B846C, 0x8714787C, 0x503CA382, 0xFB86C6AB)
  {
    hide W, Rounds;
    Words32();
    Rounds32();
    var s32 := Regs(0x3B845D33, 0x1267B407, 0x717EEBD7, 0xA0DC2D4B, 0xD2AA1365);
    var s33 := Regs(0x046FAA0A, s32.a, 0xC499ED01, s32.c, s32.d);
    OneRound(32, s32, s33);
    var s34 := Regs(0x2C0EBC11, s33.a, 0xCEE1174C, s33.c, s33.d);
    OneRound(33, s33, s34);
    var s35 := Regs(0x21796AD4, s34.a, 0x811BEA82, s34.c, s34.d);
    OneRound(34, s34, s35);
    var s36 := Regs(0xDCBBB0CB, s35.a, 0x4B03AF04, s35.c, s35.d);
    OneRound(35, s35, s36);
    var s37 := Regs(0x0F511FD8, s36.a, 0x085E5AB5, s36.c, s36.d);
    OneRound(36, s36, s37);
    var s38 := Regs(0xDC63973F, s37.a, 0xF72EEC32, s37.c, s37.d);
    OneRound(37, s37, s38);
    var s39 := Regs(0x4C986405, s38.a, 0x03D447F6, s38.c, s38.d);
    OneRound(38, s38, s39);
    var s40 := Regs(0x32DE1CBA, s39.a, 0xF718E5CF, s39.c, s39.d);
    OneRound(39, s39, s40);
    var s41 := Regs(0xFC87DEDF, s40.a, 0x53261901, s40.c, s40.d);
    OneRound(40, s40, s41);
    var s42 := Regs(0x970A0D5C, s41.a, 0x8CB7872E, s41.c, s41.d);
    OneRound(41, s41, s42);
    var s43 := Regs(0x7F193DC5, s42.a, 0xFF21F7B7, s42.c, s42.d);
    OneRound(42, s42, s43);
    var s44 := Regs(0xEE1B1AAF, s43.a, 0x25C28357, s43.c, s43.d);
    OneRound(43, s43, s44);
    var s45 := Regs(0x40F28E09, s44.a, 0x5FC64F71, s44.c, s44.d);
    OneRound(44, s44, s45);
    var s46 := Regs(0x1C51E1F2, s45.a, 0xFB86C6AB, s45.c, s45.d);
    OneRound(45, s45, s46);
    var s47 := Regs(0xA01B846C, s46.a, 0x503CA382, s46.c, s46.d);
    OneRound(46, s46, s47);
    var s48 := Regs(0xBEAD02CA, s47.a, 0x8714787C, s47.c, s47.d);
    OneRound(47, s47, s48);
  }

  lemma Rounds64()
    ensures Rounds(Start, Padded, 64) == Regs(0x6B61C9E1, 0xB66C020B, 0x9523272C, 0xF5D5B051, 0x8FD4B796)
  {
    hide W, Rounds;
    Words48();
    Rounds48();
    var s48 := Regs(0xBEAD02CA, 0xA01B846C, 0x8714787C, 0x503CA382, 0xFB86C6AB);
    var s49 := Regs(0xBAF39337, s48.a, 0x2806E11B, s48.c, s48.d);
    OneRound(48, s48, s49);
    var s50 := Regs(0x120731C5, s49.a, 0xAFAB40B2, s49.c, s49.d);
    OneRound(49, s49, s50);
    var s51 := Regs(0x641DB2CE, s50.a, 0xEEBCE4CD, s50.c, s50.d);
    OneRound(50, s50, s51);
    var s52 := Regs(0x3847AD66, s51.a, 0x4481CC71, s51.c, s51.d);
    OneRound(51, s51, s52);
    var s53 := Regs(0xE490436D, s52.a, 0x99076CB3, s52.c, s52.d);
    OneRound(52, s52, s53);
    var s54 := Regs(0x27E9F1D8, s53.a, 0x8E11EB59, s53.c, s53.d);
    OneRound(53, s53, s54);
    var s55 := Regs(0x7B71F76D, s54.a, 0x792410DB, s54.c, s54.d);
    OneRound(54, s54, s55);
    var s56 := Regs(0x5E6456AF, s55.a, 0x09FA7C76, s55.c, s55.d);
    OneRound(55, s55, s56);
    var s57 := Regs(0xC846093F, s56.a, 0x5EDC7DDB, s56.c, s56.d);
    OneRound(56, s56, s57);
    var s58 := Regs(0xD262FF50, s57.a, 0xD79915AB, s57.c, s57.d);
    OneRound(57, s57, s58);
    var s59 := Regs(0x09D785FD, s58.a, 0xF211824F, s58.c, s58.d);
    OneRound(58, s58, s59);
    var s60 := Regs(0x3F52DE5A, s59.a, 0x3498BFD4, s59.c, s59.d);
    OneRound(59, s59, s60);
    var s61 := Regs(0xD756C147, s60.a, 0x4275E17F, s60.c, s60.d);
    OneRound(60, s60, s61);
    var s62 := Regs(0x548C9CB2, s61.a, 0x8FD4B796, s61.c, s61.d);
    OneRound(61, s61, s62);
    var s63 := Regs(0xB66C020B, s62.a, 0xF5D5B051, s62.c, s62.d);
    OneRound(62, s62, s63);
    var s64 := Regs(0x6B61C9E1, s63.a, 0x9523272C, s63.c, s63.d);
    OneRound(63, s63, s64);
  }

  lemma Rounds80()
    ensures Rounds(Start, Padded, 80) == Regs(0x42541B35, 0x5738D5E1, 0x21834873, 0x681E6DF6, 0xD8FDF6AD)
  {
    hide W, Rounds;
    Words64();
    Rounds64();
    var s64 := Regs(0x6B61C9E1, 0xB66C020B, 0x9523272C, 0xF5D5B051, 0x8FD4B796);
    var s65 := Regs(0x19DFA7AC, s64.a, 0xED9B0082, s64.c, s64.d);
    OneRound(64, s64, s65);
    var s66 := Regs(0x101655F9, s65.a, 0x5AD87278, s65.c, s65.d);
    OneRound(65, s65, s66);
    var s67 := Regs(0x0C3DF2B4, s66.a, 0x0677E9EB, s66.c, s66.d);
    OneRound(66, s66, s67);
    var s68 := Regs(0x78DD4D2B, s67.a, 0x4405957E, s67.c, s67.d);
    OneRound(67, s67, s68);
    var s69 := Regs(0x497093C0, s68.a, 0x030F7CAD, s68.c, s68.d);
    OneRound(68, s68, s69);
    var s70 := Regs(0x3F2588C2, s69.a, 0xDE37534A, s69.c, s69.d);
    OneRound(69, s69, s70);
    var s71 := Regs(0xC199F8C7, s70.a, 0x125C24F0, s70.c, s70.d);
    OneRound(70, s70, s71);
    var s72 := Regs(0x39859DE7, s71.a, 0x8FC96230, s71.c, s71.d);
    OneRound(71, s71, s72);
    var s73 := Regs(0xEDB42DE4, s72.a, 0xF0667E31, s72.c, s72.d);
    OneRound(72, s72, s73);
    var s74 := Regs(0x11793F6F, s73.a, 0xCE616779, s73.c, s73.d);
    OneRound(73, s73, s74);
    var s75 := Regs(0x5EE76897, s74.a, 0x3B6D0B79, s74.c, s74.d);
    OneRound(74, s74, s75);
    var s76 := Regs(0x63F7DAB7, s75.a, 0xC45E4FDB, s75.c, s75.d);
    OneRound(75, s75, s76);
    var s77 := Regs(0xA079B7D9, s76.a, 0xD7B9DA25, s76.c, s76.d);
    OneRound(76, s76, s77);
    var s78 := Regs(0x860D21CC, s77.a, 0xD8FDF6AD, s77.c, s77.d);
    OneRound(77, s77, s78);
    var s79 := Regs(0x5738D5E1, s78.a, 0x681E6DF6, s78.c, s78.d);
    OneRound(78, s78, s79);
    var s80 := Regs(0x42541B35, s79.a, 0x21834873, s79.c, s79.d);
    OneRound(79, s79, s80);
  }

  lemma NoRounds()
    ensures Rounds(Start, Padded, 0) == Start
  {
  }

  /** The digest of "abc" is the one of the example in FIPS 180-4. */
  lemma DigestOfAbc()
    ensures Digest(ABC) ==
      [0xA9, 0x99, 0x3E, 0x36, 0x47, 0x06, 0x81, 0x6A, 0xBA, 0x3E,
       0x25, 0x71, 0x78, 0x50, 0xC2, 0x6C, 0x9C, 0xD0, 0xD8, 0x9D]
  {
    hide Rounds, Pad;
    PaddedIs();
    Rounds80();
    var h: State := [0xA9993E36, 0x4706816A, 0xBA3E2571, 0x7850C26C, 0x9CD0D89D];
    assert Compress(Initial, Padded) == h;
    OneBlock(Padded);
  }

  lemma OneBlock(m: Block)
    ensures Fold(Initial, m) == Compress(Initial, m)
  {
    hide Compress;
    assert m[..64] == m && m[64..] == [];
  }
}
