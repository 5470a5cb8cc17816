/**
  * The transform of the hash: the schedule is kept in a circular window of sixteen words that is
  * overwritten in place, and instead of moving the five working words each round is written with
  * renamed registers. Both are proved to be the compression function of FIPS 180-4.
  */
module Sha1 {
  import opened Bytes
  import opened Sha1Spec

  // ---------------------------------------------------------------- word identities

  /** The little-endian word the memory copy leaves at index `i`. */
  function Loaded(m: Block, i: nat): word
    requires i < 16
  {
    (m[4 * i] as word) | (m[4 * i + 1] as word << 8) | (m[4 * i + 2] as word << 16) | (m[4 * i + 3] as word << 24)
  }

  function Rotl8(x: word): word { (x << 8) | (x >> 24) }

  function Rotl24(x: word): word { (x << 24) | (x >> 8) }

  function Swap(x: word): word { (Rotl24(x) & 0xFF00FF00) | (Rotl8(x) & 0x00FF00FF) }

  /** Swapping the octets of the loaded word gives the big-endian word. */
  lemma SwapOctets(a: octet, b: octet, c: octet, d: octet)
    ensures Swap((a as word) | (b as word << 8) | (c as word << 16) | (d as word << 24)) ==
      (a as word << 24) | (b as word << 16) | (c as word << 8) | (d as word)
  {
  }

  lemma SwapLoaded(m: Block, i: nat)
    requires i < 16
    ensures Swap(Loaded(m, i)) == W(m, i)
  {
    SwapOctets(m[4 * i], m[4 * i + 1], m[4 * i + 2], m[4 * i + 3]);
  }

  lemma ChooseForm(x: word, y: word, z: word)
    ensures (x & (y ^ z)) ^ z == Ch(x, y, z)
  {
  }

  lemma MajorityForm(x: word, y: word, z: word)
    ensures ((x | y) & z) | (x & y) == Maj(x, y, z)
  {
  }

  // ---------------------------------------------------------------- the circular schedule

  /**
    * Before round `t`: the sixteen slots hold the last sixteen words of the schedule, and those
    * not yet reached still hold what was loaded.
    */
  ghost predicate Scheduled(block: seq<word>, m: Block, t: nat) {
    && |block| == 16
    && (forall s :: t - 16 <= s < t && 0 <= s ==> block[s % 16] == W(m, s))
    && (forall s :: t <= s < 16 ==> block[s] == Loaded(m, s))
  }

  lemma SlotMoves(block: seq<word>, m: Block, t: nat)
    requires Scheduled(block, m, t)
    ensures |block| == 16
    ensures Scheduled(block[t % 16 := W(m, t)], m, t + 1)
  {
    hide W, Loaded;
    var b := block[t % 16 := W(m, t)];
    forall s | t - 15 <= s < t + 1 && 0 <= s ensures b[s % 16] == W(m, s) {
      if s != t { assert s % 16 != t % 16; }
    }
  }

  method Blk0(block: array<word>, i: nat, ghost m: Block) returns (w: word)
    requires i < 16 && Scheduled(block[..], m, i)
    modifies block
    ensures w == W(m, i) && Scheduled(block[..], m, i + 1)
  {
    hide W, Loaded, Rotl8, Rotl24;
    SwapLoaded(m, i);
    SlotMoves(block[..], m, i);
    ghost var next := block[..][i % 16 := W(m, i)];
    block[i] := (Rotl24(block[i]) & 0xFF00FF00) | (Rotl8(block[i]) & 0x00FF00FF);
    assert block[..] == next;
    return block[i];
  }

  /** The four slots the next word is made of. */
  lemma SlotsRead(block: seq<word>, m: Block, i: nat)
    requires i >= 16 && Scheduled(block, m, i)
    ensures block[(i + 13) % 16] == W(m, i - 3) && block[(i + 8) % 16] == W(m, i - 8)
    ensures block[(i + 2) % 16] == W(m, i - 14) && block[i % 16] == W(m, i - 16)
  {
    hide W, Loaded;
    assert (i + 13) % 16 == (i - 3) % 16 && (i + 8) % 16 == (i - 8) % 16 && (i + 2) % 16 == (i - 14) % 16
      && i % 16 == (i - 16) % 16;
  }

  lemma NextWord(m: Block, i: nat)
    requires i >= 16
    ensures W(m, i) == Rotl1(Xor4(W(m, i - 3), W(m, i - 8), W(m, i - 14), W(m, i - 16)))
  {
    hide Rotl1, Xor4;
  }

  method Blk(block: array<word>, i: nat, ghost m: Block) returns (w: word)
    requires i >= 16 && Scheduled(block[..], m, i)
    modifies block
    ensures w == W(m, i) && Scheduled(block[..], m, i + 1)
  {
    hide Scheduled, Rotl1, Xor4, W;
    SlotMoves(block[..], m, i);
    SlotsRead(block[..], m, i);
    NextWord(m, i);
    ghost var next := block[..][i % 16 := W(m, i)];
    block[i % 16] := Rotl1(Xor4(block[(i + 13) % 16], block[(i + 8) % 16], block[(i + 2) % 16], block[i % 16]));
    assert block[..] == next;
    return block[i % 16];
  }

  // ---------------------------------------------------------------- rounds with renamed registers

  /** Before round `i` the registers, in the order given, are the working variables. */
  ghost predicate At(r: Regs, m: Block, i: nat, block: seq<word>, v: word, w: word, x: word, y: word, z: word) {
    Rounds(r, m, i) == Regs(v, w, x, y, z) && Scheduled(block, m, i)
  }

  /** `z += f + w + k + rot`, the addition every round macro makes. */
  function Accumulate(z: word, f: word, w: word, k: word, rot: word): word { z + (f + w + k + rot) }

  lemma AccumulateIsMix(z: word, f: word, w: word, k: word, rot: word)
    ensures Accumulate(z, f, w, k, rot) == Mix(rot, f, z, k, w)
  {
  }

  lemma RoundDone(r: Regs, m: Block, i: nat, v: word, w: word, x: word, y: word, z: word, f: word)
    requires Rounds(r, m, i) == Regs(v, w, x, y, z) && f == F(i, w, x, y)
    ensures Rounds(r, m, i + 1) == Regs(Accumulate(z, f, W(m, i), K(i), Rotl5(v)), v, Rotl30(w), x, y)
  {
    hide Accumulate, Mix, W, F, K, Rotl5, Rotl30;
    AccumulateIsMix(z, f, W(m, i), K(i), Rotl5(v));
  }

  method R0(block: array<word>, v: word, w: word, x: word, y: word, z: word, i: nat, ghost r: Regs, ghost m: Block)
    returns (z': word, w': word)
    requires i < 16 && At(r, m, i, block[..], v, w, x, y, z)
    modifies block
    ensures At(r, m, i + 1, block[..], z', v, w', x, y)
  {
    hide Accumulate, W, Scheduled, Rounds, Rotl5, Rotl30, Ch;
    var b := Blk0(block, i, m);
    ChooseForm(w, x, y);
    z' := Accumulate(z, ((w & (x ^ y)) ^ y), b, 0x5A827999, Rotl5(v));
    w' := Rotl30(w);
    RoundDone(r, m, i, v, w, x, y, z, (w & (x ^ y)) ^ y);
  }

  method R1(block: array<word>, v: word, w: word, x: word, y: word, z: word, i: nat, ghost r: Regs, ghost m: Block)
    returns (z': word, w': word)
    requires 16 <= i < 20 && At(r, m, i, block[..], v, w, x, y, z)
    modifies block
    ensures At(r, m, i + 1, block[..], z', v, w', x, y)
  {
    hide Accumulate, W, Scheduled, Rounds, Rotl5, Rotl30, Ch;
    var b := Blk(block, i, m);
    ChooseForm(w, x, y);
    z' := Accumulate(z, ((w & (x ^ y)) ^ y), b, 0x5A827999, Rotl5(v));
    w' := Rotl30(w);
    RoundDone(r, m, i, v, w, x, y, z, (w & (x ^ y)) ^ y);
  }

  method R2(block: array<word>, v: word, w: word, x: word, y: word, z: word, i: nat, ghost r: Regs, ghost m: Block)
    returns (z': word, w': word)
    requires 20 <= i < 40 && At(r, m, i, block[..], v, w, x, y, z)
    modifies block
    ensures At(r, m, i + 1, block[..], z', v, w', x, y)
  {
    hide Accumulate, W, Scheduled, Rounds, Rotl5, Rotl30;
    var b := Blk(block, i, m);
    z' := Accumulate(z, (w ^ x ^ y), b, 0x6ED9EBA1, Rotl5(v));
    w' := Rotl30(w);
    RoundDone(r, m, i, v, w, x, y, z, w ^ x ^ y);
  }

  method R3(block: array<word>, v: word, w: word, x: word, y: word, z: word, i: nat, ghost r: Regs, ghost m: Block)
    returns (z': word, w': word)
    requires 40 <= i < 60 && At(r, m, i, block[..], v, w, x, y, z)
    modifies block
    ensures At(r, m, i + 1, block[..], z', v, w', x, y)
  {
    hide Accumulate, W, Scheduled, Rounds, Rotl5, Rotl30, Maj;
    var b := Blk(block, i, m);
    MajorityForm(w, x, y);
    z' := Accumulate(z, (((w | x) & y) | (w & x)), b, 0x8F1BBCDC, Rotl5(v));
    w' := Rotl30(w);
    RoundDone(r, m, i, v, w, x, y, z, ((w | x) & y) | (w & x));
  }

  method R4(block: array<word>, v: word, w: word, x: word, y: word, z: word, i: nat, ghost r: Regs, ghost m: Block)
    returns (z': word, w': word)
    requires 60 <= i < 80 && At(r, m, i, block[..], v, w, x, y, z)
    modifies block
    ensures At(r, m, i + 1, block[..], z', v, w', x, y)
  {
    hide Accumulate, W, Scheduled, Rounds, Rotl5, Rotl30;
    var b := Blk(block, i, m);
    z' := Accumulate(z, (w ^ x ^ y), b, 0xCA62C1D6, Rotl5(v));
    w' := Rotl30(w);
    RoundDone(r, m, i, v, w, x, y, z, w ^ x ^ y);
  }

  /** Rounds 0 to 19, written out with the registers renamed from one to the next. */
  method Rounds0(block: array<word>, a0: word, b0: word, c0: word, d0: word, e0: word, ghost r: Regs, ghost m: Block)
    returns (a: word, b: word, c: word, d: word, e: word)
    requires At(r, m, 0, block[..], a0, b0, c0, d0, e0)
    modifies block
    ensures At(r, m, 20, block[..], a, b, c, d, e)
  {
    hide At;
    a, b, c, d, e := a0, b0, c0, d0, e0;
    e, b := R0(block, a, b, c, d, e, 0, r, m);
    d, a := R0(block, e, a, b, c, d, 1, r, m);
    c, e := R0(block, d, e, a, b, c, 2, r, m);
    b, d := R0(block, c, d, e, a, b, 3, r, m);
    a, c := R0(block, b, c, d, e, a, 4, r, m);
    e, b := R0(block, a, b, c, d, e, 5, r, m);
    d, a := R0(block, e, a, b, c, d, 6, r, m);
    c, e := R0(block, d, e, a, b, c, 7, r, m);
    b, d := R0(block, c, d, e, a, b, 8, r, m);
    a, c := R0(block, b, c, d, e, a, 9, r, m);
    e, b := R0(block, a, b, c, d, e, 10, r, m);
    d, a := R0(block, e, a, b, c, d, 11, r, m);
    c, e := R0(block, d, e, a, b, c, 12, r, m);
    b, d := R0(block, c, d, e, a, b, 13, r, m);
    a, c := R0(block, b, c, d, e, a, 14, r, m);
    e, b := R0(block, a, b, c, d, e, 15, r, m);
    d, a := R1(block, e, a, b, c, d, 16, r, m);
    c, e := R1(block, d, e, a, b, c, 17, r, m);
    b, d := R1(block, c, d, e, a, b, 18, r, m);
    a, c := R1(block, b, c, d, e, a, 19, r, m);
  }

  /** Rounds 20 to 39, written out with the registers renamed from one to the next. */
  method Rounds20(block: array<word>, a0: word, b0: word, c0: word, d0: word, e0: word, ghost r: Regs, ghost m: Block)
    returns (a: word, b: word, c: word, d: word, e: word)
    requires At(r, m, 20, block[..], a0, b0, c0, d0, e0)
    modifies block
    ensures At(r, m, 40, block[..], a, b, c, d, e)
  {
    hide At;
    a, b, c, d, e := a0, b0, c0, d0, e0;
    e, b := R2(block, a, b, c, d, e, 20, r, m);
    d, a := R2(block, e, a, b, c, d, 21, r, m);
    c, e := R2(block, d, e, a, b, c, 22, r, m);
    b, d := R2(block, c, d, e, a, b, 23, r, m);
    a, c := R2(block, b, c, d, e, a, 24, r, m);
    e, b := R2(block, a, b, c, d, e, 25, r, m);
    d, a := R2(block, e, a, b, c, d, 26, r, m);
    c, e := R2(block, d, e, a, b, c, 27, r, m);
    b, d := R2(block, c, d, e, a, b, 28, r, m);
    a, c := R2(block, b, c, d, e, a, 29, r, m);
    e, b := R2(block, a, b, c, d, e, 30, r, m);
    d, a := R2(block, e, a, b, c, d, 31, r, m);
    c, e := R2(block, d, e, a, b, c, 32, r, m);
    b, d := R2(block, c, d, e, a, b, 33, r, m);
    a, c := R2(block, b, c, d, e, a, 34, r, m);
    e, b := R2(block, a, b, c, d, e, 35, r, m);
    d, a := R2(block, e, a, b, c, d, 36, r, m);
    c, e := R2(block, d, e, a, b, c, 37, r, m);
    b, d := R2(block, c, d, e, a, b, 38, r, m);
    a, c := R2(block, b, c, d, e, a, 39, r, m);
  }

  /** Rounds 40 to 59, written out with the registers renamed from one to the next. */
  method Rounds40(block: array<word>, a0: word, b0: word, c0: word, d0: word, e0: word, ghost r: Regs, ghost m: Block)
    returns (a: word, b: word, c: word, d: word, e: word)
    requires At(r, m, 40, block[..], a0, b0, c0, d0, e0)
    modifies block
    ensures At(r, m, 60, block[..], a, b, c, d, e)
  {
    hide At;
    a, b, c, d, e := a0, b0, c0, d0, e0;
    e, b := R3(block, a, b, c, d, e, 40, r, m);
    d, a := R3(block, e, a, b, c, d, 41, r, m);
    c, e := R3(block, d, e, a, b, c, 42, r, m);
    b, d := R3(block, c, d, e, a, b, 43, r, m);
    a, c := R3(block, b, c, d, e, a, 44, r, m);
    e, b := R3(block, a, b, c, d, e, 45, r, m);
    d, a := R3(block, e, a, b, c, d, 46, r, m);
    c, e := R3(block, d, e, a, b, c, 47, r, m);
    b, d := R3(block, c, d, e, a, b, 48, r, m);
    a, c := R3(block, b, c, d, e, a, 49, r, m);
    e, b := R3(block, a, b, c, d, e, 50, r, m);
    d, a := R3(block, e, a, b, c, d, 51, r, m);
    c, e := R3(block, d, e, a, b, c, 52, r, m);
    b, d := R3(block, c, d, e, a, b, 53, r, m);
    a, c := R3(block, b, c, d, e, a, 54, r, m);
    e, b := R3(block, a, b, c, d, e, 55, r, m);
    d, a := R3(block, e, a, b, c, d, 56, r, m);
    c, e := R3(block, d, e, a, b, c, 57, r, m);
    b, d := R3(block, c, d, e, a, b, 58, r, m);
    a, c := R3(block, b, c, d, e, a, 59, r, m);
  }

  /** Rounds 60 to 79, written out with the registers renamed from one to the next. */
  method Rounds60(block: array<word>, a0: word, b0: word, c0: word, d0: word, e0: word, ghost r: Regs, ghost m: Block)
    returns (a: word, b: word, c: word, d: word, e: word)
    requires At(r, m, 60, block[..], a0, b0, c0, d0, e0)
    modifies block
    ensures At(r, m, 80, block[..], a, b, c, d, e)
  {
    hide At;
    a, b, c, d, e := a0, b0, c0, d0, e0;
    e, b := R4(block, a, b, c, d, e, 60, r, m);
    d, a := R4(block, e, a, b, c, d, 61, r, m);
    c, e := R4(block, d, e, a, b, c, 62, r, m);
    b, d := R4(block, c, d, e, a, b, 63, r, m);
    a, c := R4(block, b, c, d, e, a, 64, r, m);
    e, b := R4(block, a, b, c, d, e, 65, r, m);
    d, a := R4(block, e, a, b, c, d, 66, r, m);
    c, e := R4(block, d, e, a, b, c, 67, r, m);
    b, d := R4(block, c, d, e, a, b, 68, r, m);
    a, c := R4(block, b, c, d, e, a, 69, r, m);
    e, b := R4(block, a, b, c, d, e, 70, r, m);
    d, a := R4(block, e, a, b, c, d, 71, r, m);
    c, e := R4(block, d, e, a, b, c, 72, r, m);
    b, d := R4(block, c, d, e, a, b, 73, r, m);
    a, c := R4(block, b, c, d, e, a, 74, r, m);
    e, b := R4(block, a, b, c, d, e, 75, r, m);
    d, a := R4(block, e, a, b, c, d, 76, r, m);
    c, e := R4(block, d, e, a, b, c, 77, r, m);
    b, d := R4(block, c, d, e, a, b, 78, r, m);
    a, c := R4(block, b, c, d, e, a, 79, r, m);
  }

  lemma Start(r: Regs, m: Block, block: seq<word>)
    requires |block| == 16 && forall i :: 0 <= i < 16 ==> block[i] == Loaded(m, i)
    ensures At(r, m, 0, block, r.a, r.b, r.c, r.d, r.e)
  {
    hide W, Loaded;
  }

  lemma Finish(h: State, m: Block, block: seq<word>, a: word, b: word, c: word, d: word, e: word)
    requires At(RegsOf(h), m, 80, block, a, b, c, d, e)
    ensures Compress(h, m) == [Add(h[0], a), Add(h[1], b), Add(h[2], c), Add(h[3], d), Add(h[4], e)]
  {
    hide Rounds, W, Add, Scheduled;
  }

  /** The compression function with the schedule in sixteen words and the rounds unrolled. */
  method Transform(state: array<word>, m: Block)
    requires state.Length == 5
    modifies state
    ensures state[..] == Compress(old(state[..]), m)
  {
    hide Add, Loaded, At, Compress, Rounds;
    ghost var h: State := state[..];
    ghost var r := RegsOf(h);
    var block := new word[16](i requires 0 <= i < 16 => Loaded(m, i));
    var a, b, c, d, e := state[0], state[1], state[2], state[3], state[4];
    Start(r, m, block[..]);
    a, b, c, d, e := Rounds0(block, a, b, c, d, e, r, m);
    a, b, c, d, e := Rounds20(block, a, b, c, d, e, r, m);
    a, b, c, d, e := Rounds40(block, a, b, c, d, e, r, m);
    a, b, c, d, e := Rounds60(block, a, b, c, d, e, r, m);
    Finish(h, m, block[..], a, b, c, d, e);
    state[0] := Add(state[0], a);
    state[1] := Add(state[1], b);
    state[2] := Add(state[2], c);
    state[3] := Add(state[3], d);
    state[4] := Add(state[4], e);
  }
}
