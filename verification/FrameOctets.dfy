/**
  * The frames of both directions octet by octet, without the names of opcodes, flags and reasons:
  * what each first octet means when it is read, and what is written for each call.
  */
module FrameOctets {
  import opened Bytes
  import opened Utf8
  import opened Utf8Laws
  import opened Frames
  import opened Session
  import opened SessionSafety
  import Chunking

  // ---------------------------------------------------------------- the length

  /** The length octets of a payload of `n` octets, with the mask bit or without (RFC 6455 section 5.2). */
  function LengthOf(n: nat, mask: byte): seq<byte>
    requires mask in {0, 128}
  {
    if n <= 125 then [mask + n]
    else if n <= 65535 then [mask + 126, n / 256, n % 256]
    else [mask + 127] + Quad(n / 0x1_0000_0000) + Quad(n)
  }

  lemma LengthIs(n: nat, mask: byte)
    requires mask in {0, 128}
    ensures LengthOctets(PickForm(n), n, mask) == LengthOf(n, mask)
  {
    hide BigEndian, Quad;
    BigEndianOctets(n);
  }

  // ---------------------------------------------------------------- what is written

  /**
    * The image of a frame: opcode, length with the mask bit, key, and the payload, of which each bit
    * is the exclusive or of its bit with that of the key octet in turn (RFC 6455 section 5.3).
    */
  lemma Image(s: Sent)
    ensures var r := Serialise(s); var at := 1 + |LengthOf(|s.payload|, 128)|;
      && |r| == at + 4 + |s.payload|
      && r[..at] == [s.op] + LengthOf(|s.payload|, 128) && r[at..at + 4] == s.key
      && forall i, b :: 0 <= i < |s.payload| && 0 <= b < 8 ==>
           (Bit(r[at + 4 + i], b) <==> (Bit(s.payload[i], b) != Bit(s.key[i % 4], b)))
  {
    hide LengthOctets, Xor, Bit;
    LengthIs(|s.payload|, 128);
    var r, at := Serialise(s), 1 + |LengthOf(|s.payload|, 128)|;
    forall i, b | 0 <= i < |s.payload| && 0 <= b < 8
      ensures Bit(r[at + 4 + i], b) <==> (Bit(s.payload[i], b) != Bit(s.key[i % 4], b))
    {
      assert r[at + 4 + i] == Mask(s.key, s.payload)[i];
      XorIsExclusive(s.payload[i], s.key[i % 4], b);
    }
  }

  const Hello: seq<byte> := [0x48, 0x65, 0x6C, 0x6C, 0x6F]
  const HelloKey: Key := [0x37, 0xFA, 0x21, 0x3D]

  /** The masked text frame of RFC 6455 section 5.7. */
  lemma HelloImage()
    ensures Serialise(Sent(0x81, Hello, HelloKey)) ==
      [0x81, 0x85, 0x37, 0xFA, 0x21, 0x3D, 0x7F, 0x9F, 0x4D, 0x51, 0x58]
  {
    hide Xor, LengthOctets;
    HelloMasked();
    HelloMaskedRest();
    LengthIs(5, 128);
    assert Mask(HelloKey, Hello) == [0x7F, 0x9F, 0x4D, 0x51, 0x58];
  }

  /** One bit of the exclusive or. */
  function Odd(a: nat, b: nat, d: nat): nat
    requires d > 0
  {
    (a / d + b / d) % 2
  }

  lemma XorNext(n: nat, a: nat, b: nat, d: nat)
    requires d in {1, 2, 4, 8, 16, 32, 64, 128}
    ensures XorBits(n + 1, a / d, b / d) == Odd(a, b, d) + 2 * XorBits(n, a / (2 * d), b / (2 * d))
  {
    HalfOf(a, d);
    HalfOf(b, d);
  }

  lemma HalfOf(a: nat, d: nat)
    requires d in {1, 2, 4, 8, 16, 32, 64, 128}
    ensures a / d / 2 == a / (2 * d)
  {
  }

  lemma XorSum(a: byte, b: byte)
    ensures Xor(a, b) == Odd(a, b, 1) + 2 * Odd(a, b, 2) + 4 * Odd(a, b, 4) + 8 * Odd(a, b, 8)
      + 16 * Odd(a, b, 16) + 32 * Odd(a, b, 32) + 64 * Odd(a, b, 64) + 128 * Odd(a, b, 128)
  {
    XorIs(a, b);
    hide XorBits, Odd, Xor;
    XorNext(7, a, b, 1);
    XorNext(6, a, b, 2);
    XorNext(5, a, b, 4);
    XorNext(4, a, b, 8);
    XorNext(3, a, b, 16);
    XorNext(2, a, b, 32);
    XorNext(1, a, b, 64);
    XorNext(0, a, b, 128);
    NoBits(a / 256, b / 256);
  }

  lemma XorIs(a: byte, b: byte)
    ensures Xor(a, b) == XorBits(8, a / 1, b / 1)
  {
    hide XorBits;
  }

  lemma NoBits(a: nat, b: nat)
    ensures XorBits(0, a, b) == 0
  {
  }

  lemma HelloMasked()
    ensures Xor(0x48, 0x37) == 0x7F && Xor(0x65, 0xFA) == 0x9F && Xor(0x6C, 0x21) == 0x4D
  {
    hide Xor;
    XorSum(0x48, 0x37);
    XorSum(0x65, 0xFA);
    XorSum(0x6C, 0x21);
  }

  lemma HelloMaskedRest()
    ensures Xor(0x6C, 0x3D) == 0x51 && Xor(0x6F, 0x37) == 0x58
  {
    hide Xor;
    XorSum(0x6C, 0x3D);
    XorSum(0x6F, 0x37);
  }

  /** The status code 1002 and "Protocol error"; 1007 and "Invalid utf8"; 1007 and "Invalid utf-8". */
  const ERROR: seq<byte> :=
    [0x03, 0xEA, 0x50, 0x72, 0x6F, 0x74, 0x6F, 0x63, 0x6F, 0x6C, 0x20, 0x65, 0x72, 0x72, 0x6F, 0x72]
  const BAD_TEXT: seq<byte> :=
    [0x03, 0xEF, 0x49, 0x6E, 0x76, 0x61, 0x6C, 0x69, 0x64, 0x20, 0x75, 0x74, 0x66, 0x38]
  const BAD_REASON: seq<byte> :=
    [0x03, 0xEF, 0x49, 0x6E, 0x76, 0x61, 0x6C, 0x69, 0x64, 0x20, 0x75, 0x74, 0x66, 0x2D, 0x38]

  /** "Connection lost" */
  const LOST: seq<byte> := [0x43, 0x6F, 0x6E, 0x6E, 0x65, 0x63, 0x74, 0x69, 0x6F, 0x6E, 0x20, 0x6C, 0x6F, 0x73, 0x74]

  /** The payload of a Close frame. */
  function CloseBody(code: nat, reason: seq<byte>): seq<byte> { [code / 256 % 256, code % 256] + reason }

  lemma Reasons()
    ensures CloseBody(1002, ProtocolError()) == ERROR
    ensures CloseBody(1007, BadText()) == BAD_TEXT && CloseBody(1007, BadReason()) == BAD_REASON
    ensures ConnectionLost() == LOST
  {
  }

  lemma CloseBodyIs(code: nat, reason: seq<byte>)
    ensures BigEndian(2, code) + reason == CloseBody(code, reason)
  {
    hide BigEndian;
    BigEndianOctets(code);
  }

  /** One frame more in the queue. */
  function Queues(c: Config, st: State, op: byte, payload: seq<byte>, after: After): State {
    st.(sent := st.sent + [Queued(Sent(op, payload, c.key(|st.sent|)), after)])
  }

  function Sixteen(high: byte, low: byte): nat { 256 * (high as int) + low as int }

  /** The client's own Close. */
  function Closes(c: Config, st: State, body: seq<byte>): State {
    Queues(c, st, 0x88, body, Nothing).(phase := ClientClose)
  }

  /** The answer to the server's. */
  function Ends(c: Config, st: State, body: seq<byte>): State
    requires |body| >= 2
  {
    Queues(c, st, 0x88, body, if c.hasClose then Notify(Sixteen(body[0], body[1]), body[2..]) else Nothing)
      .(phase := Closed)
  }

  /** The first octet of each kind of message, ping and pong the application sends. */
  lemma WhatIsSent(c: Config, st: State, p: seq<byte>, tag: nat)
    requires st.phase.Open?
    ensures Step(c, st, Do(Send(TextKind, p, tag))) == Queues(c, st, 0x81, p, Tell(tag))
    ensures Step(c, st, Do(Send(BinaryKind, p, tag))) == Queues(c, st, 0x82, p, Tell(tag))
    ensures Step(c, st, Do(Send(PingKind, p, tag))) == Queues(c, st, 0x89, p, Tell(tag))
    ensures Step(c, st, Do(Send(PongKind, p, tag))) == Queues(c, st, 0x8A, p, Tell(tag))
  {
  }

  /** On any other connection a message is refused at once, and another close has no effect. */
  lemma WhatIsRefused(c: Config, st: State, kind: Kind, p: seq<byte>, tag: nat, code: Code)
    requires !st.phase.Open?
    ensures Step(c, st, Do(Send(kind, p, tag))) == st.(log := st.log + [OnRefused(tag)])
    ensures st.phase.ClientClose? || st.phase.Closed? ==> Step(c, st, Do(Close(code, p))) == st
  {
    hide Scan;
  }

  /** The application closes an open connection. */
  lemma WhatIsClosed(c: Config, st: State, code: Code, reason: seq<byte>)
    requires st.phase.Open?
    ensures Step(c, st, Do(Close(code, reason))) ==
      if Scan(c.mode, reason).result.Valid? then Closes(c, st, CloseBody(code, reason)) else st
  {
    hide Scan, BigEndian;
    CloseBodyIs(code, reason);
  }

  /** The stream ends on an open connection. */
  lemma WhatIsLost(c: Config, st: State)
    requires st.phase.Open?
    ensures Step(c, st, Gone) ==
      if c.hasClose then ActAll(c, st.(phase := Closed, log := st.log + [OnClose(1006, LOST)]),
        c.app(st.log + [OnClose(1006, LOST)]))
      else st.(phase := Closed)
  {
    hide ActAll, ConnectionLost;
    Reasons();
    assert st.log + [OnClose(1006, LOST)] != st.log;
  }

  // ---------------------------------------------------------------- what is read

  /** An unmasked frame. */
  function Plain(op: byte, p: seq<byte>): seq<byte> { [op] + LengthOf(|p|, 0) + p }

  /** Open, with no octets buffered and nothing under reassembly. */
  predicate Still(st: State) { st.phase.Open? && st.data == [] && st.fragOp == 0 }

  /** The parser between two frames. */
  function AtRest(st: State): State { st.(data := [], wanted := 2) }

  /** The application is shown an event, and what it does about it. */
  function Shows(c: Config, st: State, e: Event): State {
    ActAll(c, AtRest(st.(log := st.log + [e])), c.app(st.log + [e]))
  }

  /** One read of one frame is the frame handled, and the application's reaction. */
  lemma OneRead(c: Config, st: State, op: byte, p: seq<byte>)
    requires st.data == [] && |p| < TWO_TO_THE_64
    ensures var st1 := HandleFrame(c, AtRest(st), op, p);
      Step(c, st, Data(Plain(op, p))) == React(c, AtRest(st), st1)
  {
    hide LengthOctets, Look, FrontFrame, TakeFrame, Feed, HandleFrame;
    var form := PickForm(|p|);
    LengthIs(|p|, 0);
    var f := ServerFrame(op, form, p);
    ServerFrameInFront(op, form, p, []);
    var d := Plain(op, p);
    assert Raw(f) == d && Raw(f) + [] == d && [] + d == d && d[|d|..] == [];
    var st0 := st.(data := d);
    var rest := AtRest(st);
    Chunking.FeedUnfold(c, st0);
    assert st0 == Chunking.Parser(rest, d, st.wanted);
    Chunking.TakenAlike(c, rest, f, d, st.wanted);
    Chunking.TakenLeavesParser(c, rest, f);
    var st1 := TakeFrame(c, rest, f);
    assert TakeFrame(c, st0, f).(wanted := 2, data := []) == st1;
    EmptyLook();
    Chunking.FeedUnfold(c, st1);
    TakeIs(c, rest, f);
  }

  lemma TakeIs(c: Config, st: State, f: Frame)
    requires f.head != []
    ensures TakeFrame(c, st, f) == React(c, st, HandleFrame(c, st, f.head[0], f.payload))
  {
    hide React, HandleFrame;
  }

  lemma EmptyLook()
    ensures Look([]) == More(2)
  {
  }

  /** The reaction to a step that showed one event, or none. */
  lemma Reacts(c: Config, st: State, st1: State)
    ensures st1.log == st.log ==> React(c, st, st1) == st1
    ensures forall e :: st1.log == st.log + [e] ==> React(c, st, st1) == ActAll(c, st1, c.app(st1.log))
  {
    hide ActAll;
  }

  /** 0x81: a text. */
  lemma TextRead(c: Config, st: State, p: seq<byte>)
    requires Still(st) && |p| < TWO_TO_THE_64
    ensures Step(c, st, Data(Plain(0x81, p))) ==
      if !Scan(c.mode, p).result.Valid? then AtRest(Closes(c, st, BAD_TEXT))
      else if c.hasMessage then Shows(c, st, OnMessage(p, false))
      else AtRest(st)
  {
    hide Scan, React, ActAll, Step, Plain, HandleFrame;
    OneRead(c, st, 0x81, p);
    WholeText(c, AtRest(st), p);
    Reacts(c, AtRest(st), HandleFrame(c, AtRest(st), 0x81, p));
  }

  /** 0x82: a binary message. */
  lemma BinaryRead(c: Config, st: State, p: seq<byte>)
    requires Still(st) && |p| < TWO_TO_THE_64
    ensures Step(c, st, Data(Plain(0x82, p))) ==
      if c.hasMessage then Shows(c, st, OnMessage(p, true)) else AtRest(st)
  {
    hide React, ActAll, Step, Plain;
    OneRead(c, st, 0x82, p);
    Reacts(c, AtRest(st), HandleFrame(c, AtRest(st), 0x82, p));
  }

  /** 0x89: a ping, shown or answered with a pong. */
  lemma PingRead(c: Config, st: State, p: seq<byte>)
    requires Still(st) && |p| < TWO_TO_THE_64
    ensures Step(c, st, Data(Plain(0x89, p))) ==
      if |p| > 125 then AtRest(Closes(c, st, ERROR))
      else if c.hasPing then Shows(c, st, OnPing(p))
      else AtRest(Queues(c, st, 0x8A, p, Nothing))
  {
    hide DoClose, React, ActAll, Step, Plain, ProtocolError;
    OneRead(c, st, 0x89, p);
    Refuses(c, AtRest(st));
    Reacts(c, AtRest(st), HandleFrame(c, AtRest(st), 0x89, p));
  }

  /** 0x8A: a pong. */
  lemma PongRead(c: Config, st: State, p: seq<byte>)
    requires Still(st) && |p| < TWO_TO_THE_64
    ensures Step(c, st, Data(Plain(0x8A, p))) ==
      if |p| > 125 then AtRest(Closes(c, st, ERROR))
      else if c.hasPong then Shows(c, st, OnPong(p))
      else AtRest(st)
  {
    hide DoClose, React, ActAll, Step, Plain, ProtocolError;
    OneRead(c, st, 0x8A, p);
    Refuses(c, AtRest(st));
    Reacts(c, AtRest(st), HandleFrame(c, AtRest(st), 0x8A, p));
  }

  /** The payload a Close frame is answered with. */
  function AnswerTo(m: Mode, p: seq<byte>): (body: seq<byte>)
    ensures |body| >= 2
  {
    if p == [] then [0x03, 0xE8]
    else if |p| == 1 || |p| > 125 then ERROR
    else if !Scan(m, p[2..]).result.Valid? then BAD_REASON
    else
      var code := Sixteen(p[0], p[1]);
      if 1000 <= code <= 1003 || 1007 <= code <= 1014 || 3000 <= code <= 4999 then p else ERROR
  }

  /** 0x88: a Close, answered and the end; 0x08, which lacks the final bit, as well. */
  lemma CloseRead(c: Config, st: State, p: seq<byte>)
    requires Still(st) && |p| < TWO_TO_THE_64
    ensures Step(c, st, Data(Plain(0x88, p))) == AtRest(Ends(c, st, AnswerTo(c.mode, p)))
    ensures Step(c, st, Data(Plain(0x08, p))) == AtRest(Ends(c, st, ERROR))
  {
    hide React, ActAll, Step, Plain, Ends, HandleFrame, AnswerTo;
    OneRead(c, st, 0x88, p);
    OneRead(c, st, 0x08, p);
    CloseTaken(c, AtRest(st), p);
    EndsSilent(c, st, AnswerTo(c.mode, p));
    EndsSilent(c, st, ERROR);
    Reacts(c, AtRest(st), HandleFrame(c, AtRest(st), 0x88, p));
    Reacts(c, AtRest(st), HandleFrame(c, AtRest(st), 0x08, p));
  }

  lemma EndsSilent(c: Config, st: State, body: seq<byte>)
    requires |body| >= 2
    ensures AtRest(Ends(c, st, body)) == Ends(c, AtRest(st), body) && Ends(c, AtRest(st), body).log == st.log
  {
  }

  lemma CloseTaken(c: Config, st: State, p: seq<byte>)
    requires st.phase.Open?
    ensures HandleFrame(c, st, 0x88, p) == Ends(c, st, AnswerTo(c.mode, p))
    ensures HandleFrame(c, st, 0x08, p) == Ends(c, st, ERROR)
  {
    hide Scan, DoClose, CloseBody, Ends, CloseCode, CloseReason, ProtocolError, BadReason;
    CodeOf(p);
    Reasons();
    EndsAre(c, st, 1002, ProtocolError());
    EndsAre(c, st, 1007, BadReason());
    EndsAre(c, st, CloseCode(p), CloseReason(p));
    EmptyReason(c.mode);
  }

  lemma EmptyReason(m: Mode)
    ensures Scan(m, []).result.Valid?
  {
  }

  lemma CodeOf(p: seq<byte>)
    ensures p == [] ==> CloseBody(CloseCode(p), CloseReason(p)) == [0x03, 0xE8]
    ensures p == [] ==> CloseCode(p) == 1000 && CloseReason(p) == []
    ensures CloseCode(p) < 0x1_0000
    ensures |p| >= 2 ==>
      CloseCode(p) == Sixteen(p[0], p[1]) && CloseReason(p) == p[2..] && CloseBody(CloseCode(p), CloseReason(p)) == p
  {
    if |p| >= 2 {
      var s := p[..2];
      assert s[..1] == [p[0]] && FromBigEndian([p[0]]) == p[0];
      assert FromBigEndian(s) == 256 * FromBigEndian(s[..1]) + s[1];
    }
  }

  /** A refusal on an open connection. */
  lemma Refuses(c: Config, st: State)
    requires st.phase.Open?
    ensures DoClose(c, st, 1002, ProtocolError()) == Closes(c, st, ERROR)
    ensures DoClose(c, st, 1007, BadText()) == Closes(c, st, BAD_TEXT)
  {
    hide BigEndian, ProtocolError, BadText;
    CloseBodyIs(1002, ProtocolError());
    CloseBodyIs(1007, BadText());
    Reasons();
  }

  lemma EndsAre(c: Config, st: State, code: nat, reason: seq<byte>)
    requires st.phase.Open? && code < 0x1_0000
    ensures DoClose(c, st.(phase := ServerClose), code, reason) == Ends(c, st, CloseBody(code, reason))
  {
    hide BigEndian;
    CloseBodyIs(code, reason);
    var body := CloseBody(code, reason);
    assert body[2..] == reason && Sixteen(body[0], body[1]) == code;
  }

  /** Every other first octet, those with a reserved bit among them, is refused. */
  lemma OthersRead(c: Config, st: State, op: byte, p: seq<byte>)
    requires Still(st) && |p| < TWO_TO_THE_64
    requires op !in {0x81, 0x82, 0x88, 0x89, 0x8A, 0x01, 0x02, 0x08}
    ensures Step(c, st, Data(Plain(op, p))) == AtRest(Closes(c, st, ERROR))
  {
    hide Scan, DoClose, React, ActAll, Step, Plain, ProtocolError;
    OneRead(c, st, op, p);
    Refuses(c, AtRest(st));
    Reacts(c, AtRest(st), HandleFrame(c, AtRest(st), op, p));
  }

  // ---------------------------------------------------------------- a message in two

  /** 0x01 and 0x80: a text cut in two. */
  lemma TwoTexts(c: Config, st: State, p: seq<byte>, q: seq<byte>)
    requires Still(st) && |p| < TWO_TO_THE_64 && |q| < TWO_TO_THE_64
    ensures var v := Scan(c.mode, p); var st1 := Step(c, st, Data(Plain(0x01, p)));
      if v.result.Invalid? then st1 == AtRest(Closes(c, st.(fragOp := 1, fragPayload := p), BAD_TEXT))
      else
        && st1 == AtRest(st.(fragOp := 1, fragPayload := p, fragOffset := v.last))
        && Step(c, st1, Data(Plain(0x80, q))) ==
             var st2 := st.(fragPayload := [], fragOffset := v.last);
             if !Scan(c.mode, p + q).result.Valid? then AtRest(Closes(c, st2, BAD_TEXT))
             else if c.hasMessage then Shows(c, st2, OnMessage(p + q, false))
             else AtRest(st2)
  {
    hide Scan, DoClose, React, ActAll, Step, Plain, BadText, HandleFrame, Suffix;
    var st1 := AtRest(st.(fragOp := 1, fragPayload := p, fragOffset := Scan(c.mode, p).last));
    OneRead(c, st, 0x01, p);
    FirstText(c, AtRest(st), p);
    Reacts(c, AtRest(st), HandleFrame(c, AtRest(st), 0x01, p));
    if !Scan(c.mode, p).result.Invalid? {
      OneRead(c, st1, 0x80, q);
      LastText(c, st1, p, q);
      Reacts(c, st1, HandleFrame(c, st1, 0x80, q));
    }
  }

  lemma WholeText(c: Config, st: State, p: seq<byte>)
    requires Still(st)
    ensures HandleFrame(c, st, 0x81, p) ==
      if !Scan(c.mode, p).result.Valid? then Closes(c, st, BAD_TEXT) else Emit(st, c.hasMessage, OnMessage(p, false))
  {
    hide Scan, DoClose, BadText;
    Refuses(c, st);
  }

  lemma FirstText(c: Config, st: State, p: seq<byte>)
    requires Still(st)
    ensures HandleFrame(c, st, 0x01, p) ==
      if Scan(c.mode, p).result.Invalid? then Closes(c, st.(fragOp := 1, fragPayload := p), BAD_TEXT)
      else st.(fragOp := 1, fragPayload := p, fragOffset := Scan(c.mode, p).last)
  {
    hide Scan, DoClose, BadText;
    Refuses(c, st.(fragOp := 1, fragPayload := p));
  }

  lemma LastText(c: Config, st: State, p: seq<byte>, q: seq<byte>)
    requires st.phase.Open? && st.fragOp == 1 && st.fragPayload == p
    requires !Scan(c.mode, p).result.Invalid? && st.fragOffset == Scan(c.mode, p).last
    ensures HandleFrame(c, st, 0x80, q) ==
      var st1 := st.(fragOp := 0, fragPayload := []);
      if !Scan(c.mode, p + q).result.Valid? then Closes(c, st1, BAD_TEXT)
      else Emit(st1, c.hasMessage, OnMessage(p + q, false))
  {
    hide Scan, DoClose, BadText;
    Refuses(c, st.(fragOp := 0, fragPayload := []));
    ResumeAt(c.mode, p, q);
  }

  /** 0x02 and 0x80: a binary message cut in two. */
  lemma TwoBinaries(c: Config, st: State, p: seq<byte>, q: seq<byte>)
    requires Still(st) && |p| < TWO_TO_THE_64 && |q| < TWO_TO_THE_64
    ensures var st1 := Step(c, st, Data(Plain(0x02, p)));
      && st1 == AtRest(st.(fragOp := 2, fragPayload := p, fragOffset := 0))
      && Step(c, st1, Data(Plain(0x80, q))) ==
           if c.hasMessage then Shows(c, st.(fragPayload := [], fragOffset := 0), OnMessage(p + q, true))
           else AtRest(st.(fragPayload := [], fragOffset := 0))
  {
    hide Scan, React, ActAll, Step, Plain;
    var st1 := AtRest(st.(fragOp := 2, fragPayload := p, fragOffset := 0));
    OneRead(c, st, 0x02, p);
    Reacts(c, AtRest(st), HandleFrame(c, AtRest(st), 0x02, p));
    OneRead(c, st1, 0x80, q);
    Reacts(c, AtRest(st1), HandleFrame(c, AtRest(st1), 0x80, q));
  }
}
