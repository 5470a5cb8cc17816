/**
  * The receiving rules of RFC 6455 stated on their own: which frame is legal where, what a legal
  * frame shows to the application, and how an illegal one is answered.
  */
module Protocol {
  import opened Bytes
  import opened Utf8
  import opened Utf8Laws
  import opened Frames
  import opened Session
  import opened SessionSafety

  /** The message under reassembly: its opcode, `CONTINUATION` when there is none. */
  datatype Assembly = Assembly(op: byte, sofar: seq<byte>)

  const NO_MESSAGE: Assembly := Assembly(CONTINUATION, [])

  function AssemblyOf(st: State): Assembly {
    if st.fragOp == CONTINUATION then NO_MESSAGE else Assembly(st.fragOp, st.fragPayload)
  }

  /** The opcode and the octets of the message a data frame belongs to, up to and including it. */
  function MessageOp(a: Assembly, op: byte): byte {
    if CleanOp(op) == CONTINUATION then a.op else CleanOp(op)
  }

  function MessageSoFar(a: Assembly, op: byte, payload: seq<byte>): seq<byte> {
    if CleanOp(op) == CONTINUATION then a.sofar + payload else payload
  }

  /** Sections 5.2, 5.4 and 5.5: flags, opcodes, sizes and the order of fragments. */
  predicate WellFramed(a: Assembly, op: byte, payload: seq<byte>) {
    && Rsv(op) == 0
    && (IsControl(op) || IsData(op))
    && (IsControl(op) ==> IsFin(op) && |payload| <= 125)
    && (CleanOp(op) == CLOSE ==> |payload| != 1)
    && (IsData(op) ==> (CleanOp(op) == CONTINUATION <==> a.op != CONTINUATION))
  }

  /** Section 8.1: a text so far is no dead end, and a complete one is valid as a whole. */
  predicate WellSpelt(m: Mode, a: Assembly, op: byte, payload: seq<byte>) {
    && (IsData(op) && MessageOp(a, op) == TEXT ==>
          var r := Scan(m, MessageSoFar(a, op, payload)).result;
          if IsFin(op) then r.Valid? else !r.Invalid?)
    && (CleanOp(op) == CLOSE ==> Scan(m, CloseReason(payload)).result.Valid?)
  }

  /** Section 7.4: codes that may appear in a Close frame. */
  predicate WellCoded(op: byte, payload: seq<byte>) {
    CleanOp(op) == CLOSE && |payload| >= 2 ==>
      var code := FromBigEndian(payload[..2]);
      1000 <= code <= 1003 || 1007 <= code <= 1014 || 3000 <= code <= 4999
  }

  predicate Legal(m: Mode, a: Assembly, op: byte, payload: seq<byte>) {
    WellFramed(a, op, payload) && WellSpelt(m, a, op, payload) && WellCoded(op, payload)
  }

  /** The message under reassembly after a legal frame. */
  function Advance(a: Assembly, op: byte, payload: seq<byte>): Assembly {
    if !IsData(op) then a
    else if IsFin(op) then NO_MESSAGE
    else Assembly(MessageOp(a, op), MessageSoFar(a, op, payload))
  }

  /** What a legal frame other than Close shows to the application. */
  function Shown(c: Config, a: Assembly, op: byte, payload: seq<byte>): seq<Event> {
    if CleanOp(op) == PING then if c.hasPing then [OnPing(payload)] else []
    else if CleanOp(op) == PONG then if c.hasPong then [OnPong(payload)] else []
    else if IsFin(op) && c.hasMessage then
      [OnMessage(MessageSoFar(a, op, payload), MessageOp(a, op) == BINARY)]
    else []
  }

  /** The payloads of the pongs a legal frame makes the client queue. */
  function PongsFor(c: Config, op: byte, payload: seq<byte>): seq<seq<byte>> {
    if CleanOp(op) == PING && !c.hasPing then [payload] else []
  }

  function Queue(c: Config, st: State, op: byte, payload: seq<byte>, after: After): seq<Queued> {
    st.sent + [Queued(Sent(op, payload, c.key(|st.sent|)), after)]
  }

  /** The frames queued by the client when it takes a legal frame other than Close. */
  function PongQueue(c: Config, st: State, op: byte, payload: seq<byte>): seq<Queued> {
    if CleanOp(op) == PING && !c.hasPing then Queue(c, st, FIN + PONG, payload, Nothing) else st.sent
  }

  /** Ready to take frames: reassembly and validation agree. */
  predicate Ready(m: Mode, st: State) {
    (st.phase.Open? || st.phase.ClientClose?) && KnownFragment(st) && Tied(m, st)
  }

  // ---------------------------------------------------------------- legal frames

  /**
    * A legal frame other than Close is taken exactly as the protocol says: the phase stays, the
    * application is shown the message, ping or pong, and nothing but a pong for an unhandled ping
    * is queued.
    */
  lemma LegalTaken(c: Config, st: State, op: byte, payload: seq<byte>)
    requires Ready(c.mode, st) && CleanOp(op) != CLOSE
    requires Legal(c.mode, AssemblyOf(st), op, payload)
    ensures var st1 := HandleFrame(c, st, op, payload); var a := AssemblyOf(st);
      && Ready(c.mode, st1)
      && st1.phase == st.phase && st1.popped == st.popped
      && st1.data == st.data && st1.wanted == st.wanted
      && AssemblyOf(st1) == Advance(a, op, payload)
      && st1.log == st.log + Shown(c, a, op, payload)
      && st1.sent == PongQueue(c, st, op, payload)
  {
    hide Scan, HandlePing, HandlePong, HandleText, HandleBinary, HandleContinuation, Advance, Shown, AssemblyOf;
    if IsControl(op) {
      ControlTaken(c, st, op, payload);
    } else if CleanOp(op) == CONTINUATION {
      ContinuationTaken(c, st, op, payload);
    } else {
      FirstFrameTaken(c, st, op, payload);
    }
  }

  lemma ControlTaken(c: Config, st: State, op: byte, payload: seq<byte>)
    requires Ready(c.mode, st) && IsControl(op) && CleanOp(op) != CLOSE
    requires Legal(c.mode, AssemblyOf(st), op, payload)
    ensures var st1 := if CleanOp(op) == PING then HandlePing(c, st, op, payload) else HandlePong(c, st, op, payload);
      var a := AssemblyOf(st);
      && Ready(c.mode, st1)
      && st1.phase == st.phase && st1.popped == st.popped
      && st1.data == st.data && st1.wanted == st.wanted
      && AssemblyOf(st1) == Advance(a, op, payload)
      && st1.log == st.log + Shown(c, a, op, payload)
      && st1.sent == PongQueue(c, st, op, payload)
  {
    hide Scan;
    assert st.log + [] == st.log;
  }

  lemma FirstFrameTaken(c: Config, st: State, op: byte, payload: seq<byte>)
    requires Ready(c.mode, st) && CleanOp(op) in {TEXT, BINARY}
    requires Legal(c.mode, AssemblyOf(st), op, payload)
    ensures var st1 := if CleanOp(op) == TEXT then HandleText(c, st, op, payload) else HandleBinary(c, st, op, payload);
      var a := AssemblyOf(st);
      && Ready(c.mode, st1)
      && st1.phase == st.phase && st1.popped == st.popped
      && st1.data == st.data && st1.wanted == st.wanted
      && AssemblyOf(st1) == Advance(a, op, payload)
      && st1.log == st.log + Shown(c, a, op, payload)
      && st1.sent == st.sent
  {
    hide Scan;
    assert st.log + [] == st.log;
  }

  lemma ContinuationTaken(c: Config, st: State, op: byte, payload: seq<byte>)
    requires Ready(c.mode, st) && CleanOp(op) == CONTINUATION
    requires Legal(c.mode, AssemblyOf(st), op, payload)
    ensures var st1 := HandleContinuation(c, st, op, payload); var a := AssemblyOf(st);
      && Ready(c.mode, st1)
      && st1.phase == st.phase && st1.popped == st.popped
      && st1.data == st.data && st1.wanted == st.wanted
      && AssemblyOf(st1) == Advance(a, op, payload)
      && st1.log == st.log + Shown(c, a, op, payload)
      && st1.sent == st.sent
  {
    hide Scan;
    if st.fragOp == TEXT {
      ResumedScan(c.mode, st, payload);
    }
  }

  // ---------------------------------------------------------------- illegal frames

  /** The status code that answers an illegal frame. */
  function FaultCode(m: Mode, a: Assembly, op: byte, payload: seq<byte>): nat {
    if WellFramed(a, op, payload) && !WellSpelt(m, a, op, payload) then 1007 else 1002
  }

  /** The connection is failed with `code`: one Close frame and nothing else. */
  predicate FailedWith(c: Config, st: State, st1: State, code: nat, closed: bool) {
    && st1.log == st.log
    && |st1.sent| == |st.sent| + 1 && st1.sent[..|st.sent|] == st.sent
    && var q := st1.sent[|st.sent|];
    && q.frame.op == FIN + CLOSE && BigEndian(2, code) <= q.frame.payload
    && (if closed then st1.phase.Closed? && q.after.Notify? == c.hasClose
        else st1.phase.ClientClose? && q.after.Nothing?)
  }

  lemma CloseFails(c: Config, st: State, code: nat, reason: seq<byte>)
    requires st.phase.Open? || st.phase.ServerClose?
    ensures FailedWith(c, st, DoClose(c, st, code, reason), code, st.phase.ServerClose?)
  {
    hide BigEndian;
  }

  lemma IllegalClose(c: Config, st: State, op: byte, payload: seq<byte>)
    requires st.phase.Open? && CleanOp(op) == CLOSE && Rsv(op) == 0
    requires !Legal(c.mode, AssemblyOf(st), op, payload)
    ensures FailedWith(c, st, HandleClose(c, st, op, payload), FaultCode(c.mode, AssemblyOf(st), op, payload), true)
  {
    hide Scan, BigEndian, FromBigEndian, DoClose, FailedWith;
    var st1 := st.(phase := ServerClose);
    CloseFails(c, st1, 1002, ProtocolError());
    CloseFails(c, st1, 1007, BadReason());
    FailedFrom(c, st, st1, DoClose(c, st1, 1002, ProtocolError()), 1002);
    FailedFrom(c, st, st1, DoClose(c, st1, 1007, BadReason()), 1007);
  }

  lemma FailedFrom(c: Config, st: State, st1: State, st2: State, code: nat)
    requires st1.log == st.log && st1.sent == st.sent && FailedWith(c, st1, st2, code, true)
    ensures FailedWith(c, st, st2, code, true)
  {
    hide BigEndian;
  }

  lemma IllegalControl(c: Config, st: State, op: byte, payload: seq<byte>)
    requires st.phase.Open? && CleanOp(op) in {PING, PONG}
    requires !Legal(c.mode, AssemblyOf(st), op, payload)
    ensures FailedWith(c, st, HandleFrame(c, st, op, payload), FaultCode(c.mode, AssemblyOf(st), op, payload), false)
  {
    hide Scan, DoClose, FailedWith, BigEndian;
    CloseFails(c, st, 1002, ProtocolError());
  }

  lemma IllegalData(c: Config, st: State, op: byte, payload: seq<byte>)
    requires Ready(c.mode, st) && st.phase.Open? && IsData(op) && CleanOp(op) != CONTINUATION
    requires !Legal(c.mode, AssemblyOf(st), op, payload)
    ensures FailedWith(c, st, HandleFrame(c, st, op, payload), FaultCode(c.mode, AssemblyOf(st), op, payload), false)
  {
    hide Scan, DoClose, FailedWith, BigEndian;
    CloseFails(c, st, 1002, ProtocolError());
    CloseFails(c, st, 1007, BadText());
    var st1 := st.(fragOp := TEXT, fragPayload := payload);
    CloseFails(c, st1, 1007, BadText());
    FailedSame(c, st, st1, DoClose(c, st1, 1007, BadText()), 1007);
  }

  lemma FailedSame(c: Config, st: State, st1: State, st2: State, code: nat)
    requires st1.log == st.log && st1.sent == st.sent && FailedWith(c, st1, st2, code, false)
    ensures FailedWith(c, st, st2, code, false)
  {
    hide BigEndian;
  }

  lemma IllegalContinuation(c: Config, st: State, op: byte, payload: seq<byte>)
    requires Ready(c.mode, st) && st.phase.Open? && CleanOp(op) == CONTINUATION
    requires !Legal(c.mode, AssemblyOf(st), op, payload)
    ensures FailedWith(c, st, HandleFrame(c, st, op, payload), FaultCode(c.mode, AssemblyOf(st), op, payload), false)
  {
    hide Scan, DoClose, FailedWith, BigEndian;
    CloseFails(c, st, 1002, ProtocolError());
    if st.fragOp == TEXT {
      ResumedScan(c.mode, st, payload);
      var all := st.fragPayload + payload;
      var st1 := st.(fragOp := CONTINUATION, fragPayload := []);
      CloseFails(c, st1, 1007, BadText());
      FailedSame(c, st, st1, DoClose(c, st1, 1007, BadText()), 1007);
      var st2 := st.(fragPayload := all);
      CloseFails(c, st2, 1007, BadText());
      FailedSame(c, st, st2, DoClose(c, st2, 1007, BadText()), 1007);
    }
  }

  /**
    * An illegal frame on an open connection shows nothing to the application and is answered by
    * exactly one Close frame, with 1007 for text that is not valid and 1002 for anything else.
    */
  lemma IllegalAnswered(c: Config, st: State, op: byte, payload: seq<byte>)
    requires Ready(c.mode, st) && st.phase.Open?
    requires !Legal(c.mode, AssemblyOf(st), op, payload)
    ensures FailedWith(c, st, HandleFrame(c, st, op, payload), FaultCode(c.mode, AssemblyOf(st), op, payload),
      CleanOp(op) == CLOSE && Rsv(op) == 0)
  {
    hide DoClose, FailedWith, Ready, Scan;
    CloseFails(c, st, 1002, ProtocolError());
    if CleanOp(op) == CLOSE {
      if Rsv(op) == 0 {
        hide FaultCode;
        IllegalClose(c, st, op, payload);
      }
    } else if IsControl(op) {
      IllegalControl(c, st, op, payload);
    } else if CleanOp(op) == CONTINUATION {
      IllegalContinuation(c, st, op, payload);
    } else if IsData(op) {
      IllegalData(c, st, op, payload);
    }
  }

  /**
    * Once the client has begun to close, an illegal frame other than Close is neither shown nor
    * answered.
    */
  lemma IllegalIgnored(c: Config, st: State, op: byte, payload: seq<byte>)
    requires Ready(c.mode, st) && st.phase.ClientClose?
    requires !Legal(c.mode, AssemblyOf(st), op, payload) && !(CleanOp(op) == CLOSE && Rsv(op) == 0)
    ensures var st1 := HandleFrame(c, st, op, payload);
      st1.log == st.log && st1.sent == st.sent && st1.phase == st.phase
  {
    hide Scan, BigEndian, FromBigEndian;
    if st.fragOp == TEXT {
      ResumedScan(c.mode, st, payload);
    }
  }

  /**
    * A legal Close frame on an open connection is answered with its own status code and reason,
    * octet for octet (1000 when it carries none), and the connection is closed.
    */
  lemma CloseEchoed(c: Config, st: State, op: byte, payload: seq<byte>)
    requires Ready(c.mode, st) && st.phase.Open? && CleanOp(op) == CLOSE
    requires Legal(c.mode, AssemblyOf(st), op, payload)
    ensures var st1 := HandleFrame(c, st, op, payload);
      && st1.phase.Closed? && st1.log == st.log
      && st1.sent == Queue(c, st, FIN + CLOSE, if payload == [] then BigEndian(2, 1000) else payload,
           if c.hasClose then Notify(CloseCode(payload), CloseReason(payload)) else Nothing)
  {
    hide Scan, BigEndian, FromBigEndian;
    if payload == [] {
      assert BigEndian(2, 1000) + [] == BigEndian(2, 1000);
    } else {
      FromBigEndianRoundTrip(payload[..2]);
      assert payload[..2] + payload[2..] == payload;
    }
  }

  /**
    * The reply to the client's own Close ends the connection whatever it looks like: the
    * application learns its code and reason, nothing more is queued.
    */
  lemma ReplyEnds(c: Config, st: State, op: byte, payload: seq<byte>)
    requires st.phase.ClientClose? && CleanOp(op) == CLOSE && Rsv(op) == 0
    ensures var st1 := HandleFrame(c, st, op, payload);
      && st1.phase.Closed? && st1.sent == st.sent
      && st1.log == st.log + (if c.hasClose then [OnClose(CloseCode(payload), CloseReason(payload))] else [])
    ensures |payload| >= 2 ==> BigEndian(2, CloseCode(payload)) + CloseReason(payload) == payload
    ensures |payload| < 2 ==> CloseCode(payload) == 1000 && CloseReason(payload) == payload
  {
    hide BigEndian, FromBigEndian;
    assert st.log + [] == st.log;
    if |payload| >= 2 {
      FromBigEndianRoundTrip(payload[..2]);
      assert payload[..2] + payload[2..] == payload;
    }
  }

  /** Hence on an open connection the phase stays open exactly for the legal frames other than Close. */
  lemma StaysOpenIffLegal(c: Config, st: State, op: byte, payload: seq<byte>)
    requires Ready(c.mode, st) && st.phase.Open?
    ensures HandleFrame(c, st, op, payload).phase.Open? <==>
      Legal(c.mode, AssemblyOf(st), op, payload) && CleanOp(op) != CLOSE
  {
    hide Legal, HandleFrame, Ready, FaultCode;
    if !Legal(c.mode, AssemblyOf(st), op, payload) {
      IllegalAnswered(c, st, op, payload);
    } else if CleanOp(op) == CLOSE {
      CloseEchoed(c, st, op, payload);
    } else {
      LegalTaken(c, st, op, payload);
    }
  }
}
