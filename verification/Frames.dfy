/**
  * The WebSocket base framing (RFC 6455 section 5.2): header arithmetic of the receiving side,
  * the masked frames of the sending side, and how the two fit together.
  */
module Frames {
  import opened Bytes

  const CONTINUATION: byte := 0
  const TEXT: byte := 1
  const BINARY: byte := 2
  const CLOSE: byte := 8
  const PING: byte := 9
  const PONG: byte := 10
  const FIN: byte := 128

  /** The opcode without its flag bits. */
  function CleanOp(op: byte): byte { op % 16 }

  predicate IsFin(op: byte) { op >= FIN }

  /** The three reserved bits. */
  function Rsv(op: byte): nat { op / 16 % 8 }

  predicate IsControl(op: byte) { CleanOp(op) in {CLOSE, PING, PONG} }

  predicate IsData(op: byte) { CleanOp(op) in {CONTINUATION, TEXT, BINARY} }

  // ---------------------------------------------------------------- header arithmetic

  predicate IsMasked(data: seq<byte>)
    requires |data| >= 2
  {
    data[1] >= 128
  }

  function HeaderLen(data: seq<byte>): (n: nat)
    requires |data| >= 2
    ensures 2 <= n <= 14
  {
    var l := data[1] % 128;
    2 + (if IsMasked(data) then 4 else 0) + (if l >= 126 then (if l == 127 then 8 else 2) else 0)
  }

  function PayloadLen(data: seq<byte>): nat
    requires |data| >= 2 && |data| >= HeaderLen(data)
  {
    var l := data[1] % 128;
    if l == 126 then FromBigEndian(data[2..4])
    else if l == 127 then FromBigEndian(data[2..10])
    else l
  }

  /** What the front of a buffer holds: too few octets, or a whole frame. */
  datatype Front = More(wanted: nat) | Whole(masked: bool, header: nat, total: nat)

  function Look(data: seq<byte>): (f: Front)
    ensures f.More? ==> |data| < f.wanted && 2 <= f.wanted
    ensures f.Whole? ==> 2 <= f.header <= f.total <= |data|
  {
    if |data| < 2 then More(2)
    else if |data| < HeaderLen(data) then More(HeaderLen(data))
    else
      var total := HeaderLen(data) + PayloadLen(data);
      if |data| < total then More(total) else Whole(IsMasked(data), HeaderLen(data), total)
  }

  lemma {:induction false} TopOctet(s: seq<byte>)
    requires s != []
    ensures FromBigEndian(s) < (s[0] + 1) * Pow256(|s| - 1)
  {
    if |s| == 1 {
      assert s[..0] == [];
    } else {
      var front := s[..|s| - 1];
      TopOctet(front);
      assert Pow256(|s| - 1) == 256 * Pow256(|s| - 2);
      assert FromBigEndian(front) + 1 <= (s[0] + 1) * Pow256(|s| - 2);
      assert 256 * (FromBigEndian(front) + 1) <= (s[0] + 1) * Pow256(|s| - 1);
    }
  }

  /**
    * The 64-bit sum of header and payload length wraps exactly for the declared lengths within a
    * header of 2^64. No buffer holds such a frame, so it makes a difference only to one that is never
    * complete, and a length whose top bit is zero, as section 5.2 demands, is never one of them.
    */
  lemma SumWraps(data: seq<byte>)
    requires |data| >= 2 && |data| >= HeaderLen(data)
    ensures var sum := HeaderLen(data) + PayloadLen(data);
      && (sum % TWO_TO_THE_64 != sum <==> PayloadLen(data) >= TWO_TO_THE_64 - HeaderLen(data))
      && (sum % TWO_TO_THE_64 != sum && |data| < TWO_TO_THE_64 ==> Look(data).More?)
      && (data[1] % 128 != 127 || data[2] < 128 ==> sum % TWO_TO_THE_64 == sum)
  {
    hide FromBigEndian;
    Pow256Values();
    if data[1] % 128 == 127 {
      TopOctet(data[2..10]);
      assert data[2..10][0] == data[2];
      assert TWO_TO_THE_64 == 256 * Pow256(7);
    } else if data[1] % 128 == 126 {
      FromBigEndianRoundTrip(data[2..4]);
    }
  }

  /** Octets already present decide the header; more of them never revise it. */
  lemma LookExtends(data: seq<byte>, more: seq<byte>)
    ensures Look(data).Whole? ==> Look(data + more) == Look(data)
    ensures Look(data).More? ==>
      var f := Look(data + more);
      if f.More? then Look(data).wanted <= f.wanted else Look(data).wanted <= f.total
    ensures Look(data).More? && |data + more| < Look(data).wanted ==> Look(data + more) == Look(data)
  {
    hide FromBigEndian;
    var all := data + more;
    if |data| >= 2 {
      assert all[0] == data[0] && all[1] == data[1];
      if |data| >= HeaderLen(data) {
        if data[1] % 128 == 126 {
          assert all[2..4] == data[2..4];
        } else if data[1] % 128 == 127 {
          assert all[2..10] == data[2..10];
        }
      }
    }
  }

  // ---------------------------------------------------------------- the incoming stream

  /** A frame as received: raw header octets and payload. */
  datatype Frame = Frame(head: seq<byte>, payload: seq<byte>)

  function Raw(f: Frame): seq<byte> { f.head + f.payload }

  function RawAll(fs: seq<Frame>): seq<byte> {
    if fs == [] then [] else Raw(fs[0]) + RawAll(fs[1..])
  }

  lemma RawAllCons(f: Frame, fs: seq<Frame>)
    ensures RawAll([f] + fs) == Raw(f) + RawAll(fs)
  {
    assert ([f] + fs)[1..] == fs;
  }

  /** The frame at the front of a buffer that holds all of it. */
  function FrontFrame(data: seq<byte>): (f: Frame)
    requires Look(data).Whole?
    ensures Raw(f) == data[..Look(data).total]
    ensures f.head != []
  {
    Frame(data[..Look(data).header], data[Look(data).header..Look(data).total])
  }

  /** Frames in front, the octets after them, and whether a masked frame stopped the parser. */
  datatype Parsed = Parsed(frames: seq<Frame>, rest: seq<byte>, stuck: bool)

  function ParseAll(data: seq<byte>): Parsed
    decreases |data|
  {
    match Look(data)
    case More(_) => Parsed([], data, false)
    case Whole(masked, _, total) =>
      if masked then Parsed([], data, true)
      else
        var p := ParseAll(data[total..]);
        p.(frames := [FrontFrame(data)] + p.frames)
  }

  lemma ParseStep(data: seq<byte>)
    requires Look(data).Whole? && !Look(data).masked
    ensures var p := ParseAll(data[Look(data).total..]);
      ParseAll(data) == Parsed([FrontFrame(data)] + p.frames, p.rest, p.stuck)
  {
    hide Look, FrontFrame;
  }

  lemma ParseStop(data: seq<byte>)
    requires !(Look(data).Whole? && !Look(data).masked)
    ensures ParseAll(data) == Parsed([], data, Look(data).Whole?)
  {
    hide Look;
  }

  /** No octet is lost or duplicated. */
  lemma {:induction false} ParseConserves(data: seq<byte>)
    ensures var p := ParseAll(data);
      && RawAll(p.frames) + p.rest == data
      && (if p.stuck then Look(p.rest).Whole? && Look(p.rest).masked else Look(p.rest).More?)
    decreases |data|
  {
    hide Look, FrontFrame, Raw, RawAll, ParseAll;
    if Look(data).Whole? && !Look(data).masked {
      var total := Look(data).total;
      var p := ParseAll(data[total..]);
      ParseStep(data);
      ParseConserves(data[total..]);
      RawAllCons(FrontFrame(data), p.frames);
      assert data == data[..total] + data[total..];
      assert data[..total] + (RawAll(p.frames) + p.rest) == (data[..total] + RawAll(p.frames)) + p.rest;
    } else {
      ParseStop(data);
      RawNone();
      assert [] + data == data;
    }
  }

  lemma RawNone()
    ensures RawAll([]) == []
  {
  }

  /** Parsing `a` first and going on when `b` has arrived is parsing `a + b`. */
  lemma {:induction false} ParseResumes(a: seq<byte>, b: seq<byte>)
    ensures var p, q := ParseAll(a), ParseAll(ParseAll(a).rest + b);
      ParseAll(a + b) == Parsed(p.frames + q.frames, q.rest, q.stuck)
    ensures ParseAll(a).stuck ==> ParseAll(a + b).stuck && ParseAll(a + b).frames == ParseAll(a).frames
    decreases |a|
  {
    hide FrontFrame, Look, ParseAll;
    LookExtends(a, b);
    if Look(a).Whole? && !Look(a).masked {
      var total := Look(a).total;
      ParseStep(a);
      ParseStep(a + b);
      FrontFrameExtends(a, b);
      assert (a + b)[total..] == a[total..] + b;
      ParseResumes(a[total..], b);
      var p := ParseAll(a[total..]);
      var q := ParseAll(p.rest + b);
      assert [FrontFrame(a)] + (p.frames + q.frames) == ([FrontFrame(a)] + p.frames) + q.frames;
    } else {
      ParseStop(a);
      var q := ParseAll(a + b);
      assert [] + q.frames == q.frames;
      if Look(a).Whole? {
        ParseStop(a + b);
      }
    }
  }

  lemma FrontFrameExtends(a: seq<byte>, b: seq<byte>)
    requires Look(a).Whole?
    ensures Look(a + b).Whole? && FrontFrame(a + b) == FrontFrame(a)
  {
    LookExtends(a, b);
    var l := Look(a);
    assert (a + b)[..l.header] == a[..l.header];
    assert (a + b)[l.header..l.total] == a[l.header..l.total];
  }

  /** The parser run over reads: each read is appended to what the last one left over. */
  function ParseReads(rest: seq<byte>, chunks: seq<seq<byte>>): Parsed
    decreases |chunks|
  {
    if chunks == [] then Parsed([], rest, false)
    else
      var p := ParseAll(rest + chunks[0]);
      var q := ParseReads(p.rest, chunks[1..]);
      Parsed(p.frames + q.frames, q.rest, p.stuck || q.stuck)
  }

  /**
    * Read-chunking independence: however the octets are split into reads, the same frames come
    * out and the same octets are left over as when all of them arrive at once.
    */
  lemma {:induction false} ChunkingIndependence(rest: seq<byte>, chunks: seq<seq<byte>>)
    requires ParseAll(rest).frames == [] && ParseAll(rest).rest == rest
    ensures var r, p := ParseReads(rest, chunks), ParseAll(rest + Concat(chunks));
      && r.frames == p.frames && r.rest == p.rest
      && (r.stuck || ParseAll(rest).stuck) == p.stuck
    decreases |chunks|
  {
    hide ParseAll;
    if chunks == [] {
      assert rest + Concat(chunks) == rest;
    } else {
      var a, more := rest + chunks[0], Concat(chunks[1..]);
      var p := ParseAll(a);
      ParseIdle(a);
      ChunkingIndependence(p.rest, chunks[1..]);
      ParseResumes(a, more);
      ParseResumes(rest, chunks[0]);
      assert rest + Concat(chunks) == a + more;
    }
  }

  /** What the parser leaves over holds no further frame. */
  lemma {:induction false} ParseIdle(data: seq<byte>)
    ensures var p := ParseAll(data);
      ParseAll(p.rest) == Parsed([], p.rest, p.stuck)
    decreases |data|
  {
    if Look(data).Whole? && !Look(data).masked {
      ParseIdle(data[Look(data).total..]);
    }
  }

  // ---------------------------------------------------------------- frames a server sends

  /** The three ways of writing a payload length. */
  datatype Form = Short | Medium | Long

  predicate Fits(form: Form, n: nat) {
    match form
    case Short => n <= 125
    case Medium => n < TWO_TO_THE_16
    case Long => n < TWO_TO_THE_64
  }

  /** The length octets; like the writer they keep only as many bits as the form has. */
  function LengthOctets(form: Form, n: nat, mask: byte): seq<byte>
    requires mask in {0, 128}
  {
    match form
    case Short => [mask + n % 128]
    case Medium => [mask + 126] + BigEndian(2, n)
    case Long => [mask + 127] + BigEndian(8, n)
  }

  /** An unmasked frame whose length is written in any form that can hold it. */
  function ServerFrame(op: byte, form: Form, payload: seq<byte>): Frame
    requires Fits(form, |payload|)
  {
    Frame([op] + LengthOctets(form, |payload|, 0), payload)
  }

  lemma LengthReadBack(op: byte, form: Form, n: nat, mask: byte, tail: seq<byte>)
    requires Fits(form, n) && mask in {0, 128}
    requires mask == 128 ==> |tail| >= 4
    ensures var d := [op] + LengthOctets(form, n, mask) + tail;
      && HeaderLen(d) == 1 + |LengthOctets(form, n, mask)| + (if mask == 128 then 4 else 0)
      && HeaderLen(d) <= |d|
      && PayloadLen(d) == n && IsMasked(d) == (mask == 128) && d[0] == op
  {
    hide BigEndian, FromBigEndian;
    var d := [op] + LengthOctets(form, n, mask) + tail;
    match form
    case Short =>
    case Medium =>
      BigEndianReadBack(2, n);
      assert d[2..4] == BigEndian(2, n);
    case Long =>
      BigEndianReadBack(8, n);
      assert d[2..10] == BigEndian(8, n);
  }

  /** A server frame at the front of the stream is recognised as exactly that frame. */
  lemma ServerFrameInFront(op: byte, form: Form, payload: seq<byte>, more: seq<byte>)
    requires Fits(form, |payload|)
    ensures var f := ServerFrame(op, form, payload);
      && f.head[0] == op
      && Look(Raw(f) + more) == Whole(false, |f.head|, |Raw(f)|)
      && FrontFrame(Raw(f) + more) == f
  {
    var f := ServerFrame(op, form, payload);
    var d := Raw(f) + more;
    LengthReadBack(op, form, |payload|, 0, payload + more);
    assert d == [op] + LengthOctets(form, |payload|, 0) + (payload + more);
    assert d[..|f.head|] == f.head;
    assert d[|f.head|..|Raw(f)|] == payload;
  }

  // ---------------------------------------------------------------- frames the client sends

  /** A masking key: four octets. */
  type Key = k: seq<byte> | |k| == 4 witness [0, 0, 0, 0]

  /** A frame handed to the serialiser together with the masking key drawn for it. */
  datatype Sent = Sent(op: byte, payload: seq<byte>, key: Key)

  function Mask(key: Key, payload: seq<byte>): (r: seq<byte>)
    ensures |r| == |payload|
  {
    seq(|payload|, i requires 0 <= i < |payload| => Xor(payload[i], key[i % 4]))
  }

  lemma MaskInvolution(key: Key, payload: seq<byte>)
    ensures Mask(key, Mask(key, payload)) == payload
  {
    var twice := Mask(key, Mask(key, payload));
    forall i | 0 <= i < |payload| ensures twice[i] == payload[i] {
      XorInvolution(payload[i], key[i % 4]);
    }
  }

  /** The length form the serialiser picks. */
  function PickForm(n: nat): Form {
    if n > 65535 then Long else if n > 125 then Medium else Short
  }

  /** The octets put on the wire for one frame. */
  function Serialise(s: Sent): (r: seq<byte>)
    ensures |r| > |s.payload|
  {
    [s.op] + LengthOctets(PickForm(|s.payload|), |s.payload|, 128) + s.key + Mask(s.key, s.payload)
  }

  /** What a server reads from a whole masked frame at the front of its buffer. */
  function Unmask(data: seq<byte>): Sent
    requires Look(data).Whole? && Look(data).masked
  {
    var l := Look(data);
    var key := data[l.header - 4..l.header];
    Sent(data[0], Mask(key, data[l.header..l.total]), key)
  }

  datatype Received = Received(sent: seq<Sent>, rest: seq<byte>)

  /** The server's view of a stream of masked frames, by the same header arithmetic. */
  function Receive(data: seq<byte>): Received
    decreases |data|
  {
    match Look(data)
    case More(_) => Received([], data)
    case Whole(masked, _, total) =>
      if !masked then Received([], data)
      else
        var r := Receive(data[total..]);
        r.(sent := [Unmask(data)] + r.sent)
  }

  ghost predicate Sendable(ss: seq<Sent>) {
    forall i :: 0 <= i < |ss| ==> |ss[i].payload| < TWO_TO_THE_64
  }

  function SerialiseAll(ss: seq<Sent>): seq<byte> {
    if ss == [] then [] else Serialise(ss[0]) + SerialiseAll(ss[1..])
  }

  /** A masked frame is recognised, whatever form its length is written in. */
  lemma MaskedInFront(op: byte, form: Form, payload: seq<byte>, key: Key, more: seq<byte>)
    requires Fits(form, |payload|)
    ensures var f := Frame([op] + LengthOctets(form, |payload|, 128) + key, Mask(key, payload));
      && Look(Raw(f) + more) == Whole(true, |f.head|, |Raw(f)|)
      && FrontFrame(Raw(f) + more) == f
  {
    hide LengthOctets, Mask;
    var len := LengthOctets(form, |payload|, 128);
    var f := Frame([op] + len + key, Mask(key, payload));
    var d := Raw(f) + more;
    LengthReadBack(op, form, |payload|, 128, key + f.payload + more);
    assert d == [op] + len + (key + f.payload + more);
    assert d[..|f.head|] == f.head;
    assert d[|f.head|..|Raw(f)|] == f.payload;
  }

  lemma SerialisedInFront(s: Sent, more: seq<byte>)
    requires |s.payload| < TWO_TO_THE_64
    ensures var d := Serialise(s) + more;
      && Look(d) == Whole(true, |Serialise(s)| - |s.payload|, |Serialise(s)|)
      && Unmask(d) == s
  {
    hide LengthOctets, Mask, Look, FrontFrame;
    var d, n := Serialise(s) + more, |s.payload|;
    var form := PickForm(n);
    MaskedInFront(s.op, form, s.payload, s.key, more);
    var len := LengthOctets(form, n, 128);
    var head := [s.op] + len + s.key;
    assert Serialise(s) == head + Mask(s.key, s.payload);
    assert d[|head| - 4..|head|] == s.key;
    assert d[|head|..|head| + n] == Mask(s.key, s.payload);
    MaskInvolution(s.key, s.payload);
  }

  /** A serialised frame in front is read, and then what is behind it. */
  lemma ReceiveFirst(s: Sent, rest: seq<byte>)
    requires |s.payload| < TWO_TO_THE_64
    ensures var r := Receive(rest); Receive(Serialise(s) + rest) == Received([s] + r.sent, r.rest)
  {
    hide Look, Serialise, Unmask;
    SerialisedInFront(s, rest);
    assert (Serialise(s) + rest)[|Serialise(s)|..] == rest;
  }

  lemma ReceiveNone(data: seq<byte>)
    requires Look(data).More?
    ensures Receive(data) == Received([], data)
  {
  }

  /** Serialiser round trip: the concatenated frames are read back one by one, and nothing else is. */
  lemma {:induction false} SerialiserRoundTrip(ss: seq<Sent>)
    requires Sendable(ss)
    ensures Receive(SerialiseAll(ss)) == Received(ss, [])
  {
    hide Receive, Serialise;
    if ss == [] {
      ReceiveNone([]);
    } else {
      SerialiserRoundTrip(ss[1..]);
      ReceiveFirst(ss[0], SerialiseAll(ss[1..]));
    }
  }

  /** Octets that stop within a frame read back as the frames before it, and the piece is left over. */
  lemma {:induction false} CutStream(ss: seq<Sent>, next: Sent, tail: seq<byte>)
    requires Sendable(ss) && |next.payload| < TWO_TO_THE_64 && tail < Serialise(next)
    ensures Receive(SerialiseAll(ss) + tail) == Received(ss, tail)
  {
    hide Look, Serialise, Receive;
    if ss == [] {
      var more := Serialise(next)[|tail|..];
      assert tail + more == Serialise(next) == Serialise(next) + [];
      SerialisedInFront(next, []);
      LookExtends(tail, more);
      assert SerialiseAll(ss) + tail == tail;
      ReceiveNone(tail);
    } else {
      var rest := SerialiseAll(ss[1..]) + tail;
      assert SerialiseAll(ss) + tail == Serialise(ss[0]) + rest;
      CutStream(ss[1..], next, tail);
      ReceiveFirst(ss[0], rest);
    }
  }

  /** Hence different frame sequences never share a wire image. */
  lemma SerialiserInjective(ss: seq<Sent>, tt: seq<Sent>)
    requires Sendable(ss) && Sendable(tt) && SerialiseAll(ss) == SerialiseAll(tt)
    ensures ss == tt
  {
    SerialiserRoundTrip(ss);
    SerialiserRoundTrip(tt);
  }

  /** No octets that read back as the frame are fewer than the ones the serialiser emits. */
  lemma ShortestForm(s: Sent, data: seq<byte>)
    requires |s.payload| < TWO_TO_THE_64
    requires Look(data).Whole? && Look(data).masked && Unmask(data) == s
    ensures |Serialise(s)| <= Look(data).total
  {
    var l := Look(data);
    assert l.total - l.header == |s.payload|;
    Pow256Values();
    if data[1] % 128 == 126 {
      FromBigEndianRoundTrip(data[2..4]);
    }
  }
}
