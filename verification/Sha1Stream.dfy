/**
  * The hash object: it takes the message in pieces and finishes with padding and length. The counter
  * of bits is two words with a carry between them, the index of blocks has 32 bits, and both are
  * followed exactly, with the condition under which the loop over blocks ends.
  */
module Sha1Stream {
  import opened Bytes
  import opened Sha1Spec
  import Sha1

  /** The two 32-bit words of the bit counter, low word first. */
  datatype Count = Count(low: nat, high: nat)

  predicate IsCount(c: Count) { c.low < TWO_TO_THE_32 && c.high < TWO_TO_THE_32 }

  function CountValue(c: Count): nat { c.high * TWO_TO_THE_32 + c.low }

  /** The hand-written carry: one if the low word wrapped, and the bits the shift by three lost. */
  function AddCount(c: Count, len: nat): Count {
    var low := (c.low + 8 * len) % TWO_TO_THE_32;
    var high := if low < c.low then (c.high + 1) % TWO_TO_THE_32 else c.high;
    Count(low, (high + len / 0x2000_0000) % TWO_TO_THE_32)
  }

  /** The low word wraps at most once, and being smaller than before tells. */
  lemma LowWordCarries(low: nat, len: nat)
    requires low < TWO_TO_THE_32
    ensures var next := (low + 8 * len) % TWO_TO_THE_32; var carry := if next < low then 1 else 0;
      next == low + 8 * len - (carry + len / 0x2000_0000) * TWO_TO_THE_32
  {
    var q, r := len / 0x2000_0000, 8 * (len % 0x2000_0000);
    assert 8 * len == q * TWO_TO_THE_32 + r;
    assert (low + 8 * len) % TWO_TO_THE_32 == (low + r) % TWO_TO_THE_32;
  }

  /** The two words count eight times the octets, modulo 2^64. */
  lemma CountIsBits(c: Count, bytes: nat, len: nat)
    requires IsCount(c) && CountValue(c) == 8 * bytes % TWO_TO_THE_64
    ensures IsCount(AddCount(c, len))
    ensures CountValue(AddCount(c, len)) == 8 * (bytes + len) % TWO_TO_THE_64
  {
    var d, q := AddCount(c, len), len / 0x2000_0000;
    LowWordCarries(c.low, len);
    var carry := if d.low < c.low then 1 else 0;
    HighWord(c.high, carry, q);
    WordPair(c.high + carry + q, d.low);
    SameWrap(CountValue(c), 8 * bytes, 8 * len);
  }

  lemma SameWrap(a: nat, b: nat, n: nat)
    requires a == b % TWO_TO_THE_64
    ensures (a + n) % TWO_TO_THE_64 == (b + n) % TWO_TO_THE_64
  {
    var k := b / TWO_TO_THE_64;
    assert b + n == k * TWO_TO_THE_64 + (a + n);
  }

  lemma HighWord(high: nat, carry: nat, q: nat)
    requires high < TWO_TO_THE_32 && carry <= 1
    ensures ((high + carry) % TWO_TO_THE_32 + q) % TWO_TO_THE_32 == (high + carry + q) % TWO_TO_THE_32
  {
  }

  lemma WordPair(high: nat, low: nat)
    requires low < TWO_TO_THE_32
    ensures (high % TWO_TO_THE_32) * TWO_TO_THE_32 + low == (high * TWO_TO_THE_32 + low) % TWO_TO_THE_64
  {
    var k := high / TWO_TO_THE_32;
    assert high * TWO_TO_THE_32 + low == k * TWO_TO_THE_64 + ((high % TWO_TO_THE_32) * TWO_TO_THE_32 + low);
  }

  /** `x >> (8 * k)` */
  function ShiftOctets(x: nat, k: nat): nat {
    if k == 0 then x else if k == 1 then x / 0x100 else if k == 2 then x / 0x1_0000 else x / 0x100_0000
  }

  /** The counter words, high word first, each with its most significant octet first. */
  function CountOctets(c: Count): (s: seq<octet>)
    ensures |s| == 8
  {
    seq(8, i requires 0 <= i < 8 => (ShiftOctets(if i >= 4 then c.low else c.high, 3 - i % 4) % 256) as octet)
  }

  lemma LowDigit(a: nat, b: nat)
    ensures (256 * a + b) % 256 == b % 256
  {
  }

  lemma QuadWraps(v: nat)
    ensures Quad(v) == Quad(v % TWO_TO_THE_32)
  {
    var k, r := v / TWO_TO_THE_32, v % TWO_TO_THE_32;
    assert v == 256 * (0x100_0000 * k) + r;
    assert v / 0x100 == 256 * (0x1_0000 * k) + r / 0x100;
    assert v / 0x1_0000 == 256 * (0x100 * k) + r / 0x1_0000;
    assert v / 0x100_0000 == 256 * k + r / 0x100_0000;
    LowDigit(0x100_0000 * k, r);
    LowDigit(0x1_0000 * k, r / 0x100);
    LowDigit(0x100 * k, r / 0x1_0000);
    LowDigit(k, r / 0x100_0000);
  }

  /** The two words of a 64-bit value. */
  lemma WordsOf(c: Count, v: nat)
    requires IsCount(c) && CountValue(c) == v % TWO_TO_THE_64
    ensures c.low == v % TWO_TO_THE_32 && c.high == v / TWO_TO_THE_32 % TWO_TO_THE_32
  {
    var k := v / TWO_TO_THE_64;
    assert v == (k * TWO_TO_THE_32 + c.high) * TWO_TO_THE_32 + c.low;
    assert v / TWO_TO_THE_32 == k * TWO_TO_THE_32 + c.high;
  }

  lemma LengthQuads(c: Count, v: nat)
    requires IsCount(c) && CountValue(c) == v % TWO_TO_THE_64
    ensures BigEndian(8, v) == Quad(c.high) + Quad(c.low)
  {
    hide BigEndian, Quad;
    WordsOf(c, v);
    BigEndianFour(4, v);
    BigEndianFour(0, v / TWO_TO_THE_32);
    QuadWraps(v);
    QuadWraps(v / TWO_TO_THE_32);
    BigEndianNone(v / TWO_TO_THE_32 / TWO_TO_THE_32);
    assert [] + Quad(c.high) == Quad(c.high);
  }

  lemma QuadDigit(x: nat, k: nat)
    requires k < 4
    ensures Quad(x)[k] == ShiftOctets(x, 3 - k) % 256
  {
  }

  lemma CountOctetsAreLength(c: Count, n: nat)
    requires IsCount(c) && CountValue(c) == 8 * n % TWO_TO_THE_64
    ensures CountOctets(c) == LengthOctets(8 * n)
  {
    hide CountOctets, LengthOctets;
    forall i | 0 <= i < 8 ensures CountOctets(c)[i] == LengthOctets(8 * n)[i] {
      CountOctetAt(c, n, i);
    }
  }

  lemma CountOctetAt(c: Count, n: nat, i: nat)
    requires i < 8 && IsCount(c) && CountValue(c) == 8 * n % TWO_TO_THE_64
    ensures CountOctets(c)[i] == LengthOctets(8 * n)[i]
  {
    hide BigEndian, Quad, ShiftOctets, IsCount, CountValue;
    LengthQuads(c, 8 * n);
    var x := if i < 4 then c.high else c.low;
    QuadDigit(x, i % 4);
    assert BigEndian(8, 8 * n)[i] == Quad(x)[i % 4];
  }

  // ---------------------------------------------------------------- the block index

  /** Where the block loop stops when `j` octets are buffered and `len` arrive. */
  function LastIndex(j: nat, len: nat): int { 64 * ((j + len) / 64) - j }

  /** The 32-bit index reaches the end of the piece. */
  predicate IndexFits(j: nat, len: nat) { j + len < TWO_TO_THE_32 }

  /**
    * The loop's 32-bit arithmetic agrees with the intended one at every index the loop visits
    * exactly if fewer than 2^32 octets are buffered and arriving.
    */
  lemma IndexFitsExactly(j: nat, len: nat)
    requires j < 64 && j + len > 63
    ensures IndexFits(j, len) <==>
      forall k :: 1 <= k <= (j + len) / 64 ==>
        && 64 * k - j < TWO_TO_THE_32
        && ((64 * k - j + 63) % TWO_TO_THE_32 < len <==> 64 * k - j + 63 < len)
  {
    var n := (j + len) / 64;
    var last := LastIndex(j, len);
    assert IndexFits(j, len) <==> last + 63 < TWO_TO_THE_32;
    if IndexFits(j, len) {
      forall k | 1 <= k <= n
        ensures 64 * k - j < TWO_TO_THE_32
        ensures (64 * k - j + 63) % TWO_TO_THE_32 < len <==> 64 * k - j + 63 < len
      {
        assert 64 * k - j <= last;
      }
    } else {
      assert last == 64 * n - j && last + 63 >= TWO_TO_THE_32 && last + 63 >= len;
      if last < TWO_TO_THE_32 {
        assert (last + 63) % TWO_TO_THE_32 == last + 63 - TWO_TO_THE_32 < len;
        assert !((64 * n - j + 63) % TWO_TO_THE_32 < len <==> 64 * n - j + 63 < len);
      }
      assert 1 <= n;
    }
  }

  /** The 32-bit index of the block loop after `k` rounds. */
  function IndexAt(j: nat, k: nat): nat
    requires j < 64
  {
    (64 - j + 64 * k) % TWO_TO_THE_32
  }

  /** The loop goes on for another round. */
  predicate GoesOn(j: nat, len: nat, k: nat)
    requires j < 64
  {
    (IndexAt(j, k) + 63) % TWO_TO_THE_32 < len
  }

  /** `n` rounds and no more. */
  ghost predicate EndsAfter(j: nat, len: nat, n: nat)
    requires j < 64
  {
    !GoesOn(j, len, n) && forall k :: 0 <= k < n ==> GoesOn(j, len, k)
  }

  /**
    * The block loop comes to an end, after the rounds it should make and at the index where it
    * should stop, if and only if fewer than 2^32 octets are buffered and arriving; otherwise there
    * is no end to it.
    */
  lemma LoopEnds(j: nat, len: nat)
    requires j < 64 && j + len > 63
    ensures IndexFits(j, len) ==>
      var n := (j + len) / 64 - 1; EndsAfter(j, len, n) && IndexAt(j, n) == LastIndex(j, len)
    ensures IndexFits(j, len) <==> exists n: nat :: EndsAfter(j, len, n)
    ensures !IndexFits(j, len) ==> forall k: nat :: GoesOn(j, len, k)
  {
    var n := (j + len) / 64 - 1;
    if IndexFits(j, len) {
      forall k | 0 <= k <= n
        ensures IndexAt(j, k) == 64 - j + 64 * k && (GoesOn(j, len, k) <==> k < n)
      {
      }
      assert EndsAfter(j, len, n);
    } else {
      forall k: nat ensures GoesOn(j, len, k) {
        ResidueBelow(63 - j, k + 1);
        assert IndexAt(j, k) + 63 == (64 * k + 64 - j) % TWO_TO_THE_32 + 63;
        WrapTwice(64 * k + 64 - j, 63);
      }
    }
  }

  lemma WrapTwice(a: nat, b: nat)
    ensures (a % TWO_TO_THE_32 + b) % TWO_TO_THE_32 == (a + b) % TWO_TO_THE_32
  {
    var q := a / TWO_TO_THE_32;
    assert a + b == q * TWO_TO_THE_32 + (a % TWO_TO_THE_32 + b);
  }

  /** Wrapping keeps what is left over from whole blocks. */
  lemma ResidueBelow(r: nat, k: nat)
    requires r < 64
    ensures (64 * k + r) % TWO_TO_THE_32 <= TWO_TO_THE_32 - 64 + r
  {
    var q, m := k / 0x400_0000, k % 0x400_0000;
    assert 64 * k + r == q * TWO_TO_THE_32 + (64 * m + r);
    Wraps(q, 64 * m + r);
  }

  /** The shortest piece that may be too long, if 63 octets are buffered. */
  const TOO_LONG: nat := TWO_TO_THE_32 - 63

  /** Pieces shorter than that always come to an end, one of that length need not. */
  lemma LongPiece()
    ensures forall j, len :: 0 <= j < 64 && 0 <= len < TOO_LONG ==> IndexFits(j, len)
    ensures !IndexFits(63, TOO_LONG) && forall k: nat :: GoesOn(63, TOO_LONG, k)
  {
    LoopEnds(63, TOO_LONG);
  }

  // ---------------------------------------------------------------- whole blocks and the rest

  /** The part of the message that has gone through the transform, and the part that waits. */
  function Whole(msg: seq<octet>): (s: seq<octet>)
    ensures |s| % 64 == 0
  {
    msg[..|msg| / 64 * 64]
  }

  function Rest(msg: seq<octet>): (s: seq<octet>)
    ensures |s| == |msg| % 64
  {
    msg[|msg| / 64 * 64..]
  }

  lemma WholeAndRest(msg: seq<octet>, done: seq<octet>, left: seq<octet>)
    requires msg == done + left && |done| % 64 == 0 && |left| < 64
    ensures Whole(msg) == done && Rest(msg) == left
  {
    assert |msg| / 64 * 64 == |done|;
  }

  lemma WholeThenRest(msg: seq<octet>)
    ensures msg == Whole(msg) + Rest(msg)
  {
  }

  lemma FoldOne(h: State, done: seq<octet>, m: Block)
    requires |done| % 64 == 0
    ensures Fold(h, done + m) == Compress(Fold(h, done), m)
  {
    hide Compress;
    FoldAppend(h, done, m);
    assert m[..64] == m && m[64..] == [];
    assert Fold(Fold(h, done), m) == Fold(Compress(Fold(h, done), m), []);
  }

  /** The zero octets between the octet 128 and the length: as few as fill the block. */
  function Zeros(n: nat): nat { (119 - n % 64) % 64 }

  lemma ZerosAreLeast(n: nat, k: nat)
    requires k <= Zeros(n)
    ensures (n + 1 + k) % 64 == 56 <==> k == Zeros(n)
  {
    var q, m := n / 64, n % 64;
    assert n + 1 + k == 64 * q + (m + 1 + k);
    WrapsAt64(q, m + 1 + k);
  }

  /** While it does not wrap, the index says whether there is another block. */
  lemma AnotherRound(start: nat, len: nat, rounds: nat)
    requires start <= len && start + (len - start) / 64 * 64 + 63 < TWO_TO_THE_32
    requires rounds <= (len - start) / 64
    ensures (start + 64 * rounds + 63) % TWO_TO_THE_32 < len <==> rounds < (len - start) / 64
  {
    var i := start + 64 * rounds + 63;
    assert i < TWO_TO_THE_32;
  }

  class Hash {
    const state: array<word>
    const buffer: array<octet>
    var count: Count
    ghost var msg: seq<octet>

    ghost predicate Valid()
      reads this, state, buffer
    {
      && state.Length == 5 && buffer.Length == 64
      && IsCount(count) && CountValue(count) == 8 * |msg| % TWO_TO_THE_64
      && state[..] == Fold(Initial, Whole(msg))
      && buffer[..|msg| % 64] == Rest(msg)
    }

    constructor ()
      ensures Valid() && msg == []
      ensures fresh(state) && fresh(buffer)
    {
      state := new word[5](i requires 0 <= i < 5 => Initial[i]);
      buffer := new octet[64](_ => 0);
      count := Count(0, 0);
      msg := [];
      new;
      assert state[..] == Initial;
    }

    /** The number of buffered octets, as the low counter word has it. */
    lemma BufferedOctets()
      requires Valid()
      ensures count.low / 8 % 64 == |msg| % 64
    {
      var bits := 8 * |msg|;
      assert count.low == bits % TWO_TO_THE_64 % TWO_TO_THE_32;
      LowWord(|msg|);
    }

    /** Sends one block through the transform. */
    method Absorb(m: Block, ghost done: seq<octet>)
      requires Valid1() && |done| % 64 == 0 && state[..] == Fold(Initial, done)
      modifies state
      ensures state[..] == Fold(Initial, done + m)
    {
      hide Compress, Fold;
      FoldOne(Initial, done, m);
      Sha1.Transform(state, m);
    }

    ghost predicate Valid1()
      reads this
    {
      state.Length == 5 && buffer.Length == 64
    }

    /** The loop over the whole blocks of `data` from `start`. */
    method AbsorbBlocks(data: seq<octet>, start: nat, ghost done: seq<octet>) returns (i: nat)
      requires Valid1() && |done| % 64 == 0 && state[..] == Fold(Initial, done)
      requires start <= |data| && start + (|data| - start) / 64 * 64 + 63 < TWO_TO_THE_32
      modifies state
      ensures i == start + (|data| - start) / 64 * 64
      ensures state[..] == Fold(Initial, done + data[start..i])
    {
      hide Compress, Fold;
      i := start;
      assert done + data[start..start] == done;
      ghost var rounds: nat := 0;
      AnotherRound(start, |data|, 0);
      while (i + 63) % TWO_TO_THE_32 < |data|
        invariant i == start + 64 * rounds && rounds <= (|data| - start) / 64
        invariant (i + 63) % TWO_TO_THE_32 < |data| <==> rounds < (|data| - start) / 64
        invariant state[..] == Fold(Initial, done + data[start..i])
        decreases |data| - i
      {
        Absorb(data[i..i + 64], done + data[start..i]);
        assert done + data[start..i] + data[i..i + 64] == done + data[start..i + 64];
        i := i + 64;
        rounds := rounds + 1;
        AnotherRound(start, |data|, rounds);
      }
    }

    /** Completes the buffered block with the front of `data` and absorbs all whole blocks. */
    method Drain(j: nat, data: seq<octet>, ghost done: seq<octet>) returns (i: nat)
      requires Valid1() && |done| % 64 == 0 && state[..] == Fold(Initial, done)
      requires j < 64 && j + |data| > 63 && IndexFits(j, |data|)
      modifies state, buffer
      ensures 64 - j <= i == LastIndex(j, |data|) <= |data| < i + 64 && (|done| + j + i) % 64 == 0
      ensures state[..] == Fold(Initial, done + old(buffer[..j]) + data[..i])
    {
      hide Compress, Fold;
      i := 64 - j;
      ghost var front := buffer[..j];
      Copy(buffer, j, data[..i]);
      assert buffer[..] == front + data[..i];
      Absorb(buffer[..], done);
      ghost var next := done + buffer[..];
      var from := i;
      i := AbsorbBlocks(data, from, next);
      assert next + data[from..i] == done + front + data[..i];
    }

    /** Buffers what is left once whole blocks are gone. */
    method Keep(j: nat, rest: seq<octet>, ghost done: seq<octet>, ghost total: seq<octet>)
      requires Valid1() && j + |rest| < 64 && |done| % 64 == 0
      requires total == done + buffer[..j] + rest
      modifies buffer
      ensures Whole(total) == done && buffer[..|total| % 64] == Rest(total)
    {
      Copy(buffer, j, rest);
      ghost var left := buffer[..j + |rest|];
      assert total == done + left;
      WholeAndRest(total, done, left);
    }

    /** Takes the next piece of the message. */
    method Update(data: seq<octet>)
      requires Valid() && IndexFits(|msg| % 64, |data|)
      modifies this, state, buffer
      ensures Valid() && msg == old(msg) + data
    {
      hide Compress, Fold, AddCount, CountValue, IsCount, Whole, Rest, LastIndex, IndexFits;
      BufferedOctets();
      CountIsBits(count, |msg|, |data|);
      WholeThenRest(msg);
      var i := 0;
      var j := count.low;
      count := AddCount(count, |data|);
      j := j / 8 % 64;
      ghost var done := Whole(msg);
      assert msg == done + buffer[..j];
      if j + |data| > 63 {
        i := Drain(j, data, done);
        done := msg + data[..i];
        assert done == Whole(msg) + old(buffer[..j]) + data[..i];
        j := 0;
      }
      assert msg + data == done + buffer[..j] + data[i..];
      Keep(j, data[i..], done, msg + data);
      msg := msg + data;
    }

    /** `Update` with a piece short enough for any index. */
    method Append(data: seq<octet>)
      requires Valid() && |data| <= 8
      modifies this, state, buffer
      ensures Valid() && msg == old(msg) + data
      ensures count.low / 8 % 64 == |msg| % 64
    {
      hide Valid;
      Update(data);
      BufferedOctets();
    }

    /** Appends zero octets until the length fits into the block. */
    method PadWithZeros(ghost n: nat)
      requires Valid() && |msg| == n + 1 && count.low / 8 % 64 == |msg| % 64
      modifies this, state, buffer
      ensures Valid() && msg == old(msg) + seq(Zeros(n), _ => 0)
    {
      hide Valid, Zeros;
      ghost var zeros: seq<octet> := [];
      ghost var goal := Zeros(n);
      ZerosAreLeast(n, 0);
      while count.low / 8 % 64 != 56
        invariant Valid() && |zeros| <= goal && msg == old(msg) + zeros
        invariant forall i :: 0 <= i < |zeros| ==> zeros[i] == 0
        invariant count.low / 8 % 64 == |msg| % 64
        decreases goal - |zeros|
      {
        ZerosAreLeast(n, |zeros|);
        Append([0]);
        zeros := zeros + [0];
      }
      ZerosAreLeast(n, |zeros|);
      assert zeros == seq(goal, _ => 0 as octet);
    }

    lemma CountKnown()
      requires Valid()
      ensures CountOctets(count) == LengthOctets(8 * |msg|)
    {
      hide CountOctets, LengthOctets;
      CountOctetsAreLength(count, |msg|);
    }

    lemma StateKnown()
      requires Valid() && Whole(msg) == msg
      ensures state.Length == 5 && state[..] == Fold(Initial, msg)
    {
      hide Fold;
    }

    /** Closes the message; the digest is the one of FIPS 180-4 for everything taken so far. */
    method Finish() returns (digest: seq<octet>)
      requires Valid()
      modifies this, state, buffer
      ensures digest == Digest(old(msg))
    {
      hide Valid, Fold, CountOctets, LengthOctets, Pad, StateOctets;
      ghost var m := msg;
      var finalCount := CountOctets(count);
      CountKnown();
      Append([0x80]);
      PadWithZeros(|m|);
      Append(finalCount);
      Padded(m, msg);
      StateKnown();
      digest := StateOctets(state[..]);
    }

    /** Copies octets into the buffer. */
    method Copy(b: array<octet>, at: nat, data: seq<octet>)
      requires at + |data| <= b.Length
      modifies b
      ensures b[..at] == old(b[..at]) && b[at..at + |data|] == data && b[at + |data|..] == old(b[at + |data|..])
    {
      forall k | 0 <= k < |data| {
        b[at + k] := data[k];
      }
    }
  }

  lemma Wraps(k: nat, r: nat)
    requires r < TWO_TO_THE_32
    ensures (k * TWO_TO_THE_32 + r) % TWO_TO_THE_32 == r
  {
  }

  lemma WrapsAt64(k: nat, r: nat)
    ensures (64 * k + r) % 64 == r % 64
  {
  }

  /** The octets that fit the low word of a bit counter. */
  lemma LowOctets(n: nat)
    ensures 8 * n % TWO_TO_THE_32 / 8 == n % 0x2000_0000
  {
    var k, r := n / 0x2000_0000, n % 0x2000_0000;
    assert 8 * n == k * TWO_TO_THE_32 + 8 * r;
    Wraps(k, 8 * r);
  }

  lemma LowWord(n: nat)
    ensures 8 * n % TWO_TO_THE_64 % TWO_TO_THE_32 / 8 % 64 == n % 64
  {
    LowOfWide(8 * n);
    LowOctets(n);
    var k, r := n / 0x2000_0000, n % 0x2000_0000;
    assert n == 64 * (k * 0x80_0000) + r;
    WrapsAt64(k * 0x80_0000, r);
  }

  lemma LowOfWide(a: nat)
    ensures a % TWO_TO_THE_64 % TWO_TO_THE_32 == a % TWO_TO_THE_32
  {
    var k, r := a / TWO_TO_THE_64, a % TWO_TO_THE_64;
    assert a == (k * TWO_TO_THE_32 + r / TWO_TO_THE_32) * TWO_TO_THE_32 + r % TWO_TO_THE_32;
  }

  lemma Padded(m: seq<octet>, msg: seq<octet>)
    requires msg == m + [0x80] + seq((119 - |m| % 64) % 64, _ => 0) + LengthOctets(8 * |m|)
    ensures msg == Pad(m) && Whole(msg) == msg
  {
    hide LengthOctets;
    PadIsWhole(m);
    assert msg == Pad(m);
  }

  /** Every piece is short enough for the 32-bit block index where it starts. */
  ghost predicate PiecesFit(pieces: seq<seq<octet>>) {
    forall k :: 0 <= k < |pieces| ==> IndexFits(|Concat(pieces[..k])| % 64, |pieces[k]|)
  }

  /** However a message is cut into pieces, hashing them one by one gives the digest of the whole. */
  method HashPieces(pieces: seq<seq<octet>>) returns (digest: seq<octet>)
    requires PiecesFit(pieces)
    ensures digest == Digest(Concat(pieces))
  {
    hide Digest, IndexFits;
    var h := new Hash();
    for k := 0 to |pieces|
      invariant h.Valid() && h.msg == Concat(pieces[..k])
      invariant fresh(h) && fresh(h.state) && fresh(h.buffer)
    {
      assert pieces[..k + 1] == pieces[..k] + [pieces[k]];
      ConcatSnoc(pieces[..k], pieces[k]);
      h.Update(pieces[k]);
    }
    assert pieces[..|pieces|] == pieces;
    digest := h.Finish();
  }

  /** The one-shot helper. */
  method HashOf(data: seq<octet>) returns (digest: seq<octet>)
    requires IndexFits(0, |data|)
    ensures digest == Digest(data)
  {
    hide Digest, IndexFits;
    var h := new Hash();
    h.Update(data);
    assert [] + data == data;
    digest := h.Finish();
  }
}
