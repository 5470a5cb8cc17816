/**
  * The parse loop with the 64-bit sum of header and payload length that the source computes: where
  * it is the loop of `Frames` and `Session`, and what it does where the sum wraps.
  */
module Wrapping {
  import opened Bytes
  import opened Frames

  /** Header and declared length together, in 64 bits. */
  function Sum64(data: seq<byte>): nat
    requires |data| >= 2 && |data| >= HeaderLen(data)
  {
    (HeaderLen(data) + PayloadLen(data)) % TWO_TO_THE_64
  }

  /** A complete header whose sum does not fit. */
  predicate Wraps(data: seq<byte>) {
    && |data| >= 2 && |data| >= HeaderLen(data)
    && HeaderLen(data) + PayloadLen(data) >= TWO_TO_THE_64
  }

  /** One iteration: wait for more, refuse a masked frame, or take a payload and drop some octets. */
  datatype Round = Wait(wanted: nat) | Refuse(wanted: nat) | Take(payload: seq<byte>, drop: nat)

  function Max(a: nat, b: nat): nat { if a < b then b else a }

  function Min(a: nat, b: nat): nat { if a < b then a else b }

  /** The payload is cut at the end of the buffer, as `substr` does. */
  function RoundOf(data: seq<byte>): (r: Round)
    ensures r.Take? ==> data != [] && r.drop <= |data|
  {
    if |data| < 2 then Wait(2)
    else if |data| < HeaderLen(data) then Wait(HeaderLen(data))
    else
      var wanted := Max(HeaderLen(data), Sum64(data));
      if |data| < wanted then Wait(wanted)
      else if IsMasked(data) then Refuse(wanted)
      else Take(data[HeaderLen(data)..Min(HeaderLen(data) + PayloadLen(data), |data|)], Sum64(data))
  }

  /** The cached size comes from an earlier iteration over fewer octets of the same frame. */
  predicate Cached(data: seq<byte>, cached: nat) {
    && 2 <= cached <= |data|
    && cached <= (if |data| < HeaderLen(data) then HeaderLen(data) else Max(HeaderLen(data), Sum64(data)))
  }

  /** The iteration as it is written. */
  method Iterate(data: seq<byte>, cached: nat) returns (r: Round)
    requires Cached(data, cached)
    ensures r == RoundOf(data)
  {
    hide FromBigEndian;
    var isMasked := data[1] >= 128;
    var payloadLen: nat := data[1] % 128;
    var headerLen := 2 + (if isMasked then 4 else 0)
      + (if payloadLen >= 126 then (if payloadLen == 127 then 8 else 2) else 0);
    var wanted := Max(cached, headerLen);
    if |data| < wanted {
      return Wait(wanted);
    }
    if payloadLen == 126 {
      payloadLen := FromBigEndian(data[2..4]);
    } else if payloadLen == 127 {
      payloadLen := FromBigEndian(data[2..10]);
    }
    var sum := (headerLen + payloadLen) % TWO_TO_THE_64;
    wanted := Max(wanted, sum);
    if |data| < wanted {
      return Wait(wanted);
    }
    if isMasked {
      return Refuse(wanted);
    }
    return Take(data[headerLen..Min(headerLen + payloadLen, |data|)], sum);
  }

  // ---------------------------------------------------------------- one iteration

  /** What the loop of the model makes of the same buffer. */
  function LookRound(data: seq<byte>): Round {
    match Look(data)
    case More(wanted) => Wait(wanted)
    case Whole(masked, _, total) => if masked then Refuse(total) else Take(FrontFrame(data).payload, total)
  }

  lemma WrappedSum(data: seq<byte>)
    requires |data| >= 2 && |data| >= HeaderLen(data)
    ensures PayloadLen(data) < TWO_TO_THE_64
    ensures Sum64(data) == HeaderLen(data) + PayloadLen(data) - if Wraps(data) then TWO_TO_THE_64 else 0
    ensures Wraps(data) ==> Sum64(data) < HeaderLen(data) && data[1] % 128 == 127
  {
    hide FromBigEndian;
    Pow256Values();
    if data[1] % 128 == 127 {
      FromBigEndianRoundTrip(data[2..10]);
    } else if data[1] % 128 == 126 {
      FromBigEndianRoundTrip(data[2..4]);
    }
  }

  /** The two agree exactly unless the sum wraps, for every buffer there can be. */
  lemma RoundIsLook(data: seq<byte>)
    requires |data| < TWO_TO_THE_64
    ensures RoundOf(data) == LookRound(data) <==> !Wraps(data)
    ensures Wraps(data) ==> Look(data).More? && !RoundOf(data).Wait?
  {
    hide PayloadLen, HeaderLen;
    if |data| >= 2 && |data| >= HeaderLen(data) {
      WrappedSum(data);
    }
  }

  /** An unmasked header that declares ten octets less than 2^64. */
  predicate Hangs(data: seq<byte>) {
    |data| >= 10 && !IsMasked(data) && data[1] % 128 == 127 && PayloadLen(data) == TWO_TO_THE_64 - 10
  }

  /** A taken frame shortens the buffer exactly unless it is one of these. */
  lemma TakenShortens(data: seq<byte>)
    requires RoundOf(data).Take?
    ensures |data[RoundOf(data).drop..]| < |data| <==> !Hangs(data)
  {
    hide FromBigEndian;
    WrappedSum(data);
  }

  lemma HangTakes(data: seq<byte>)
    requires Hangs(data)
    ensures RoundOf(data).Take? && RoundOf(data).drop == 0
  {
    hide FromBigEndian;
  }

  // ---------------------------------------------------------------- the loop

  /** A frame handed on: opcode octet and payload. */
  datatype Piece = Piece(op: byte, payload: seq<byte>)

  datatype Outcome = Running | Ended(pieces: seq<Piece>, rest: seq<byte>, refused: bool)

  /** At most `fuel` iterations. */
  function Loop(data: seq<byte>, fuel: nat): Outcome {
    if fuel == 0 then Running
    else
      match RoundOf(data)
      case Wait(_) => Ended([], data, false)
      case Refuse(_) => Ended([], data, true)
      case Take(payload, drop) =>
        match Loop(data[drop..], fuel - 1)
        case Running => Running
        case Ended(pieces, rest, refused) => Ended([Piece(data[0], payload)] + pieces, rest, refused)
  }

  function PieceOf(f: Frame): Piece
    requires f.head != []
  {
    Piece(f.head[0], f.payload)
  }

  /** What the model hands on. */
  function Handed(data: seq<byte>): (ps: seq<Piece>)
    decreases |data|
  {
    match Look(data)
    case More(_) => []
    case Whole(masked, _, total) => if masked then [] else [PieceOf(FrontFrame(data))] + Handed(data[total..])
  }

  lemma {:induction false} HandedIsParsed(data: seq<byte>)
    ensures var fs := ParseAll(data).frames;
      |Handed(data)| == |fs| && forall i :: 0 <= i < |fs| ==> fs[i].head != [] && Handed(data)[i] == PieceOf(fs[i])
    decreases |data|
  {
    hide Look, FrontFrame;
    if Look(data).Whole? && !Look(data).masked {
      ParseStep(data);
      HandedIsParsed(data[Look(data).total..]);
    }
  }

  function Parsed64(data: seq<byte>): Outcome { Ended(Handed(data), ParseAll(data).rest, ParseAll(data).stuck) }

  /** A frame that is there in full is taken by both. */
  lemma FrontAgrees(data: seq<byte>)
    requires |data| < TWO_TO_THE_64 && Look(data).Whole? && !Look(data).masked
    ensures RoundOf(data) == Take(FrontFrame(data).payload, Look(data).total) && FrontFrame(data).head[0] == data[0]
  {
    hide HeaderLen, PayloadLen;
    RoundIsLook(data);
  }

  /**
    * The source's loop ends with the frames and the rest of the model's if and only if the header at
    * the front of that rest does not wrap.
    */
  lemma {:induction false} LoopIsParse(data: seq<byte>, fuel: nat)
    requires |data| < TWO_TO_THE_64 && fuel > |data|
    ensures Loop(data, fuel) == Parsed64(data) <==> !Wraps(ParseAll(data).rest)
    decreases |data|
  {
    hide Look, FrontFrame, RoundOf, Wraps, ParseAll;
    if Look(data).Whole? && !Look(data).masked {
      var d := data[Look(data).total..];
      FrontAgrees(data);
      ParseStep(data);
      LoopIsParse(d, fuel - 1);
      var first, next := PieceOf(FrontFrame(data)), Loop(d, fuel - 1);
      if next.Ended? {
        assert ([first] + next.pieces)[1..] == next.pieces && ([first] + Handed(d))[1..] == Handed(d);
      }
    } else {
      ParseStop(data);
      RoundIsLook(data);
    }
  }

  lemma WrapsWithMore(data: seq<byte>, more: seq<byte>)
    requires Wraps(data)
    ensures Wraps(data + more)
  {
    hide FromBigEndian;
    var all := data + more;
    assert all[1] == data[1];
    if data[1] % 128 == 127 {
      assert all[2..10] == data[2..10];
    } else if data[1] % 128 == 126 {
      assert all[2..4] == data[2..4];
    }
  }

  /**
    * A header that wraps stays in front of what is left over, so if none is in front of the rest of
    * the whole stream, none was after any of the reads, and the source's loop was the model's at
    * each of them.
    */
  lemma WrapsStays(a: seq<byte>, b: seq<byte>)
    requires |a + b| < TWO_TO_THE_64 && Wraps(ParseAll(a).rest)
    ensures Wraps(ParseAll(a + b).rest)
  {
    hide Look, ParseAll, Wraps;
    var rest := ParseAll(a).rest;
    ParseConserves(a);
    ParseResumes(a, b);
    WrapsWithMore(rest, b);
    RoundIsLook(rest + b);
    ParseStop(rest + b);
  }

  /** Some number of taken frames leads to a header that is never dropped. */
  predicate ReachesHang(data: seq<byte>)
    decreases |data|
  {
    RoundOf(data).Take? && (RoundOf(data).drop == 0 || ReachesHang(data[RoundOf(data).drop..]))
  }

  /** The loop goes on for ever if and only if it comes to such a header. */
  lemma {:induction false} RunsForEver(data: seq<byte>, fuel: nat)
    requires fuel > |data|
    ensures Loop(data, fuel).Running? <==> ReachesHang(data)
    decreases fuel
  {
    hide RoundOf;
    if RoundOf(data).Take? {
      if RoundOf(data).drop == 0 {
        StaysThere(data, fuel);
      } else {
        RunsForEver(data[RoundOf(data).drop..], fuel - 1);
      }
    }
  }

  lemma {:induction false} StaysThere(data: seq<byte>, fuel: nat)
    requires RoundOf(data).Take? && RoundOf(data).drop == 0
    ensures Loop(data, fuel).Running?
    decreases fuel
  {
    hide RoundOf;
    if fuel > 0 {
      assert data[0..] == data;
      StaysThere(data, fuel - 1);
    }
  }

  // ---------------------------------------------------------------- the inputs

  function Header(last: byte): (h: seq<byte>)
    ensures |h| == 10
  {
    [0x82, 0x7F, 0xFF, 0xFF, 0xFF, 0xFF, 0xFF, 0xFF, 0xFF, last]
  }

  lemma {:induction false} AllOnes(k: nat)
    ensures FromBigEndian(seq(k, _ => 0xFF)) == Pow256(k) - 1
  {
    var s: seq<byte> := seq(k, _ => 0xFF);
    if k > 0 {
      assert s[..k - 1] == seq(k - 1, _ => 0xFF);
      AllOnes(k - 1);
    }
  }

  lemma DeclaredLength(last: byte, more: seq<byte>)
    ensures var d := Header(last) + more;
      && !IsMasked(d) && HeaderLen(d) == 10 && PayloadLen(d) == TWO_TO_THE_64 - 0x100 + last
  {
    hide FromBigEndian, Pow256;
    var d := Header(last) + more;
    var s: seq<byte> := seq(7, _ => 0xFF) + [last];
    assert d[2..10] == s;
    FromBigEndianSnoc(seq(7, _ => 0xFF), last);
    AllOnes(7);
    Pow256Values();
    Pow256Eight();
  }

  lemma FromBigEndianSnoc(s: seq<byte>, x: byte)
    ensures FromBigEndian(s + [x]) == 256 * FromBigEndian(s) + x
  {
    assert (s + [x])[..|s|] == s;
  }

  lemma Pow256Eight()
    ensures Pow256(8) == 256 * Pow256(7)
  {
  }

  /**
    * An unmasked binary frame that declares 2^64 - 1 or 2^64 - 10 octets is taken at once, with
    * whatever has arrived behind its header as payload, so the payload depends on the reads; of the
    * former one octet stays behind to be taken for a header, of the latter everything, for ever.
    */
  lemma WrappedFrames(more: seq<byte>, fuel: nat)
    requires |more| < TWO_TO_THE_64 - 10
    ensures RoundOf(Header(0xFF) + more) == Take(more, 9)
    ensures RoundOf(Header(0xF6) + more) == Take(more, 0)
    ensures Hangs(Header(0xF6) + more) && Loop(Header(0xF6) + more, fuel).Running?
    ensures Look(Header(0xFF) + more).More? && Look(Header(0xF6) + more).More?
  {
    hide HeaderLen, PayloadLen, Look;
    forall last: byte | last in {0xFF, 0xF6}
      ensures var d := Header(last) + more;
        RoundOf(d) == Take(more, last as int - 0xF6) && Look(d).More? && d[1] == 0x7F
      ensures PayloadLen(Header(last) + more) == TWO_TO_THE_64 - 0x100 + last && !IsMasked(Header(last) + more)
    {
      var d := Header(last) + more;
      DeclaredLength(last, more);
      RoundIsLook(d);
      assert d[10..] == more;
    }
    StaysThere(Header(0xF6) + more, fuel);
  }
}
