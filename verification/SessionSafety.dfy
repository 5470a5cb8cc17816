/**
  * What every step of a connection keeps, from the moment it is open: the closing handshake
  * (RFC 6455 sections 5.5.1 and 7.1), the single close notification, and the tie between the
  * fragment buffer and its validated part.
  */
module SessionSafety {
  import opened Bytes
  import opened Utf8
  import opened Utf8Laws
  import opened Frames
  import opened Session

  // ---------------------------------------------------------------- the invariants

  predicate IsClose(q: Queued) { CleanOp(q.frame.op) == CLOSE }

  /** A pong the client queues by itself, as opposed to one the application sends. */
  predicate IsAutoPong(q: Queued) { q.frame.op == FIN + PONG && q.after.Nothing? }

  /** No Close frame before the handshake starts, and only automatic pongs behind it. */
  ghost predicate ClosesOnce(phase: Phase, sent: seq<Queued>) {
    && (phase.Open? ==> forall i :: 0 <= i < |sent| ==> !IsClose(sent[i]))
    && (phase.ClientClose? ==> exists i :: 0 <= i < |sent| && IsClose(sent[i]))
    && forall i, j :: 0 <= i < j < |sent| && IsClose(sent[i]) ==> IsAutoPong(sent[j])
  }

  /** The notifications the application has received. */
  function Fired(log: seq<Event>): nat {
    if log == [] then 0 else Fired(log[..|log| - 1]) + if log[|log| - 1].OnClose? then 1 else 0
  }

  /** The notifications that wait for a queued Close frame to be sent. */
  function Waiting(queue: seq<Queued>): nat {
    if queue == [] then 0 else (if queue[0].after.Notify? then 1 else 0) + Waiting(queue[1..])
  }

  function Notices(st: State): nat
    requires st.popped <= |st.sent|
  {
    Fired(st.log) + Waiting(st.sent[st.popped..])
  }

  predicate Live(phase: Phase) { phase.Open? || phase.ClientClose? || phase.Closed? }

  /** The close handshake and notification part of the invariant. */
  ghost predicate Orderly(c: Config, st: State) {
    && st.popped <= |st.sent|
    && Live(st.phase)
    && (Notices(st) == if st.phase.Closed? && c.hasClose then 1 else 0)
    && ClosesOnce(st.phase, st.sent)
  }

  /** The remembered offset is the code point boundary up to which the buffer is valid. */
  predicate Tied(m: Mode, st: State) {
    st.fragOp == TEXT ==>
      !Scan(m, st.fragPayload).result.Invalid? && st.fragOffset == Scan(m, st.fragPayload).last
  }

  predicate KnownFragment(st: State) { st.fragOp in {CONTINUATION, TEXT, BINARY} }

  ghost predicate Inv(c: Config, st: State) {
    && KnownFragment(st)
    && (st.phase.Open? ==> Tied(c.mode, st))
    && Orderly(c, st)
  }

  /** Open, then one of the closing phases, then closed. */
  function Rank(phase: Phase): nat {
    match phase
    case Init => 0
    case Connect => 1
    case Handshake => 2
    case Open => 3
    case ClientClose => 4
    case ServerClose => 4
    case Closed => 5
  }

  // ---------------------------------------------------------------- counting

  lemma FiredSnoc(log: seq<Event>, e: Event)
    ensures Fired(log + [e]) == Fired(log) + if e.OnClose? then 1 else 0
  {
    assert (log + [e])[..|log|] == log;
  }

  lemma {:induction false} WaitingSnoc(queue: seq<Queued>, q: Queued)
    ensures Waiting(queue + [q]) == Waiting(queue) + if q.after.Notify? then 1 else 0
  {
    if queue == [] {
      assert queue + [q] == [q];
      assert Waiting([q][1..]) == 0;
    } else {
      assert (queue + [q])[1..] == queue[1..] + [q];
      WaitingSnoc(queue[1..], q);
    }
  }

  // ---------------------------------------------------------------- sending keeps order

  lemma OtherBehind(phase: Phase, sent: seq<Queued>, q: Queued)
    requires ClosesOnce(phase, sent) && !IsClose(q) && (phase.Open? || IsAutoPong(q))
    ensures ClosesOnce(phase, sent + [q])
  {
    hide IsClose, IsAutoPong;
    if phase.ClientClose? {
      var i :| 0 <= i < |sent| && IsClose(sent[i]);
      assert IsClose((sent + [q])[i]);
    }
  }

  lemma CloseBehind(sent: seq<Queued>, q: Queued)
    requires ClosesOnce(Open, sent) && IsClose(q)
    ensures ClosesOnce(ClientClose, sent + [q]) && ClosesOnce(Closed, sent + [q])
  {
    hide IsClose, IsAutoPong;
    assert IsClose((sent + [q])[|sent|]);
  }

  lemma WaitingGrows(st: State, q: Queued)
    requires st.popped <= |st.sent|
    ensures Waiting((st.sent + [q])[st.popped..]) == Waiting(st.sent[st.popped..]) + if q.after.Notify? then 1 else 0
  {
    WaitingSnoc(st.sent[st.popped..], q);
    assert (st.sent + [q])[st.popped..] == st.sent[st.popped..] + [q];
  }

  /** Queueing a frame that is neither the first Close nor anything behind it but an automatic pong. */
  lemma QueueKeeps(c: Config, st: State, op: byte, payload: seq<byte>, after: After)
    requires Orderly(c, st) && CleanOp(op) != CLOSE && !after.Notify?
    requires st.phase.Open? || (op == FIN + PONG && after.Nothing?)
    ensures Orderly(c, SendFrame(c, st, op, payload, after))
  {
    hide ClosesOnce;
    var q := Queued(Sent(op, payload, c.key(|st.sent|)), after);
    OtherBehind(st.phase, st.sent, q);
    WaitingGrows(st, q);
  }

  /** Queueing the first Close frame from the open phase. */
  lemma FirstCloseKeeps(c: Config, st: State, payload: seq<byte>)
    requires Orderly(c, st) && st.phase.Open?
    ensures Orderly(c, SendFrame(c, st, FIN + CLOSE, payload, Nothing))
  {
    hide ClosesOnce;
    var q := Queued(Sent(FIN + CLOSE, payload, c.key(|st.sent|)), Nothing);
    CloseBehind(st.sent, q);
    WaitingGrows(st, q);
  }

  /** Answering the server's Close frame. */
  lemma AnswerKeeps(c: Config, st: State, code: nat, reason: seq<byte>)
    requires Orderly(c, st) && st.phase.Open?
    ensures var st1 := DoClose(c, st.(phase := ServerClose), code, reason);
      Orderly(c, st1) && st1.phase.Closed?
  {
    hide ClosesOnce;
    var after := if c.hasClose then Notify(code, reason) else Nothing;
    var q := Queued(Sent(FIN + CLOSE, BigEndian(2, code) + reason, c.key(|st.sent|)), after);
    CloseBehind(st.sent, q);
    WaitingGrows(st, q);
  }

  lemma DoCloseKeeps(c: Config, st: State, code: nat, reason: seq<byte>)
    requires Orderly(c, st)
    ensures var st1 := DoClose(c, st, code, reason);
      && Orderly(c, st1) && !st1.phase.Open? && Rank(st.phase) <= Rank(st1.phase)
  {
    if st.phase.Open? {
      FirstCloseKeeps(c, st, BigEndian(2, code) + reason);
    }
  }

  lemma EmitKeeps(c: Config, st: State, e: Event)
    requires Orderly(c, st) && !e.OnClose?
    ensures Orderly(c, Emit(st, true, e))
  {
    hide ClosesOnce, Waiting, Fired;
    FiredSnoc(st.log, e);
  }

  lemma ClosesStay(phase: Phase, sent: seq<Queued>)
    requires ClosesOnce(phase, sent)
    ensures ClosesOnce(Closed, sent)
  {
    hide IsClose, IsAutoPong;
  }

  /** Closing at once: the handshake reply from the server, or the end of the stream. */
  lemma ClosedKeeps(c: Config, st: State, code: nat, reason: seq<byte>)
    requires Orderly(c, st) && !st.phase.Closed?
    ensures Orderly(c, Emit(st, c.hasClose, OnClose(code, reason)).(phase := Closed))
  {
    hide ClosesOnce, Waiting, Fired;
    ClosesStay(st.phase, st.sent);
    FiredSnoc(st.log, OnClose(code, reason));
  }

  lemma ActKeeps(c: Config, st: State, a: Action)
    requires Inv(c, st)
    ensures var st1 := Act(c, st, a);
      Inv(c, st1) && Rank(st.phase) <= Rank(st1.phase)
  {
    hide ClosesOnce, Notices;
    match a
    case Send(kind, payload, tag) =>
      if st.phase.Open? {
        QueueKeeps(c, st, OpOf(kind), payload, Tell(tag));
      } else {
        EmitKeeps(c, st, OnRefused(tag));
      }
    case Close(code, reason) =>
      if Scan(c.mode, reason).result.Valid? {
        DoCloseKeeps(c, st, code, reason);
      }
  }

  lemma {:induction false} ActAllKeeps(c: Config, st: State, acts: seq<Action>)
    requires Inv(c, st)
    ensures var st1 := ActAll(c, st, acts);
      Inv(c, st1) && Rank(st.phase) <= Rank(st1.phase)
    decreases |acts|
  {
    hide Inv, Act, Rank;
    if acts != [] {
      ActKeeps(c, st, acts[0]);
      ActAllKeeps(c, Act(c, st, acts[0]), acts[1..]);
    }
  }

  // ---------------------------------------------------------------- receiving keeps order

  lemma HandleCloseKeeps(c: Config, st: State, op: byte, payload: seq<byte>)
    requires Orderly(c, st) && !st.phase.Closed?
    ensures var st1 := HandleClose(c, st, op, payload);
      Orderly(c, st1) && st1.phase.Closed?
  {
    hide ClosesOnce, Notices, DoClose;
    var code, reason := CloseCode(payload), CloseReason(payload);
    if st.phase.ClientClose? {
      ClosedKeeps(c, st, code, reason);
    } else {
      AnswerKeeps(c, st, 1002, ProtocolError());
      AnswerKeeps(c, st, 1007, BadReason());
      AnswerKeeps(c, st, code, reason);
    }
  }

  lemma FragmentFieldsFree(c: Config, st: State, op: byte, payload: seq<byte>, offset: nat)
    requires Orderly(c, st)
    ensures Orderly(c, st.(fragOp := op, fragPayload := payload, fragOffset := offset))
  {
  }

  lemma HandleTextKeeps(c: Config, st: State, op: byte, payload: seq<byte>)
    requires Inv(c, st)
    ensures var st1 := HandleText(c, st, op, payload);
      Inv(c, st1) && Rank(st.phase) <= Rank(st1.phase)
  {
    hide ClosesOnce, Notices, Scan, DoClose;
    DoCloseKeeps(c, st, 1002, ProtocolError());
    DoCloseKeeps(c, st, 1007, BadText());
    var st1 := st.(fragOp := TEXT, fragPayload := payload);
    FragmentFieldsFree(c, st, TEXT, payload, st.fragOffset);
    DoCloseKeeps(c, st1, 1007, BadText());
    EmitKeeps(c, st, OnMessage(payload, false));
    DoCloseFrame(c, st, 1002, ProtocolError());
    DoCloseFrame(c, st, 1007, BadText());
    DoCloseFrame(c, st1, 1007, BadText());
    FragmentFieldsFree(c, st, TEXT, payload, Scan(c.mode, payload).last);
  }

  /** Closing leaves the fragment and parser fields alone. */
  lemma DoCloseFrame(c: Config, st: State, code: nat, reason: seq<byte>)
    ensures var st1 := DoClose(c, st, code, reason);
      && st1.fragOp == st.fragOp && st1.fragPayload == st.fragPayload && st1.fragOffset == st.fragOffset
      && st1.data == st.data && st1.wanted == st.wanted && st1.popped == st.popped && st1.log == st.log
  {
  }

  lemma HandleBinaryKeeps(c: Config, st: State, op: byte, payload: seq<byte>)
    requires Inv(c, st)
    ensures var st1 := HandleBinary(c, st, op, payload);
      Inv(c, st1) && Rank(st.phase) <= Rank(st1.phase)
  {
    hide ClosesOnce, Notices, Scan, DoClose;
    DoCloseKeeps(c, st, 1002, ProtocolError());
    DoCloseFrame(c, st, 1002, ProtocolError());
    EmitKeeps(c, st, OnMessage(payload, true));
    FragmentFieldsFree(c, st, BINARY, payload, 0);
  }

  /** Validation resumed at the remembered offset judges the whole accumulated text. */
  lemma ResumedScan(m: Mode, st: State, payload: seq<byte>)
    requires st.fragOp == TEXT && Tied(m, st)
    ensures var all := st.fragPayload + payload;
      && st.fragOffset <= |st.fragPayload|
      && Scan(m, all) == Shift(Scan(m, Suffix(all, st.fragOffset)), st.fragOffset)
  {
    ResumeAt(m, st.fragPayload, payload);
  }

  lemma HandleContinuationKeeps(c: Config, st: State, op: byte, payload: seq<byte>)
    requires Inv(c, st)
    ensures var st1 := HandleContinuation(c, st, op, payload);
      Inv(c, st1) && Rank(st.phase) <= Rank(st1.phase)
  {
    hide ClosesOnce, Notices, Scan, DoClose;
    var all := st.fragPayload + payload;
    var v := Scan(c.mode, Suffix(all, st.fragOffset));
    DoCloseKeeps(c, st, 1002, ProtocolError());
    DoCloseFrame(c, st, 1002, ProtocolError());
    if st.fragOp != CONTINUATION {
      if st.phase.Open? && st.fragOp == TEXT {
        ResumedScan(c.mode, st, payload);
      }
      if IsFin(op) {
        var st1 := st.(fragOp := CONTINUATION, fragPayload := []);
        FragmentFieldsFree(c, st, CONTINUATION, [], st.fragOffset);
        DoCloseKeeps(c, st1, 1007, BadText());
        DoCloseFrame(c, st1, 1007, BadText());
        EmitKeeps(c, st1, OnMessage(all, st.fragOp == BINARY));
      } else {
        var st1 := st.(fragPayload := all);
        FragmentFieldsFree(c, st, st.fragOp, all, st.fragOffset);
        DoCloseKeeps(c, st1, 1007, BadText());
        DoCloseFrame(c, st1, 1007, BadText());
        FragmentFieldsFree(c, st, st.fragOp, all, st.fragOffset + v.last);
      }
    }
  }

  lemma HandlePingPongKeeps(c: Config, st: State, op: byte, payload: seq<byte>)
    requires Inv(c, st)
    ensures Inv(c, HandlePing(c, st, op, payload)) && Rank(st.phase) <= Rank(HandlePing(c, st, op, payload).phase)
    ensures Inv(c, HandlePong(c, st, op, payload)) && Rank(st.phase) <= Rank(HandlePong(c, st, op, payload).phase)
  {
    hide ClosesOnce, Notices, Scan, DoClose;
    DoCloseKeeps(c, st, 1002, ProtocolError());
    DoCloseFrame(c, st, 1002, ProtocolError());
    EmitKeeps(c, st, OnPing(payload));
    EmitKeeps(c, st, OnPong(payload));
    QueueKeeps(c, st, FIN + PONG, payload, Nothing);
  }

  /** Every frame keeps the invariant, never goes back a phase, and never rests in `ServerClose`. */
  lemma HandleFrameKeeps(c: Config, st: State, op: byte, payload: seq<byte>)
    requires Inv(c, st)
    ensures var st1 := HandleFrame(c, st, op, payload);
      Inv(c, st1) && Rank(st.phase) <= Rank(st1.phase)
  {
    hide ClosesOnce, Notices, Scan, DoClose;
    hide HandleText, HandleBinary, HandleContinuation, HandlePing, HandlePong, HandleClose;
    if !st.phase.Closed? {
      DoCloseKeeps(c, st, 1002, ProtocolError());
      DoCloseFrame(c, st, 1002, ProtocolError());
      HandleCloseKeeps(c, st, op, payload);
      HandleCloseFragment(c, st, op, payload);
      HandlePingPongKeeps(c, st, op, payload);
      HandleTextKeeps(c, st, op, payload);
      HandleBinaryKeeps(c, st, op, payload);
      HandleContinuationKeeps(c, st, op, payload);
    }
  }

  lemma HandleCloseFragment(c: Config, st: State, op: byte, payload: seq<byte>)
    ensures HandleClose(c, st, op, payload).fragOp == st.fragOp
  {
    hide Scan;
  }

  lemma ParserFieldsFree(c: Config, st: State, data: seq<byte>, wanted: nat)
    requires Inv(c, st)
    ensures Inv(c, st.(data := data, wanted := wanted))
  {
  }

  lemma TakeFrameKeeps(c: Config, st: State, f: Frame)
    requires Inv(c, st) && f.head != []
    ensures var st1 := TakeFrame(c, st, f);
      Inv(c, st1) && Rank(st.phase) <= Rank(st1.phase)
  {
    hide Inv, HandleFrame, Rank, ActAll;
    HandleFrameKeeps(c, st, f.head[0], f.payload);
    var st1 := HandleFrame(c, st, f.head[0], f.payload);
    ActAllKeeps(c, st1, c.app(st1.log));
  }

  lemma {:induction false} FeedKeeps(c: Config, st: State)
    requires Inv(c, st)
    ensures var st1 := Feed(c, st);
      Inv(c, st1) && Rank(st.phase) <= Rank(st1.phase)
    decreases |st.data|
  {
    hide Inv, TakeFrame, Rank, Look, FrontFrame, DoClose;
    match Look(st.data)
    case More(wanted) =>
      ParserFieldsFree(c, st, st.data, wanted);
    case Whole(masked, _, total) =>
      if masked {
        ParserFieldsFree(c, st, st.data, total);
        var st1 := st.(wanted := total);
        StopKeeps(c, st1);
      } else {
        var f := FrontFrame(st.data);
        TakeFrameKeeps(c, st, f);
        var st1 := TakeFrame(c, st, f);
        ParserFieldsFree(c, st1, st.data[total..], 2);
        FeedKeeps(c, st1.(wanted := 2, data := st.data[total..]));
      }
  }

  lemma StopKeeps(c: Config, st: State)
    requires Inv(c, st)
    ensures var st1 := DoClose(c, st, 1002, ProtocolError());
      Inv(c, st1) && Rank(st.phase) <= Rank(st1.phase)
  {
    DoCloseKeeps(c, st, 1002, ProtocolError());
    DoCloseFrame(c, st, 1002, ProtocolError());
  }

  // ---------------------------------------------------------------- entry points

  lemma PopKeeps(c: Config, st: State, room: nat)
    requires Inv(c, st)
    ensures var st1 := PopFrame(c, st, room);
      Inv(c, st1) && Rank(st.phase) <= Rank(st1.phase)
  {
    hide ActAll, Serialise, TakenWhole;
    if st.popped < |st.sent| {
      var q := st.sent[st.popped];
      var st1 := Handed(st, room);
      var queue := st.sent[st.popped..];
      assert queue[0] == q && queue[1..] == st.sent[st1.popped..];
      match q.after
      case Nothing =>
      case Tell(tag) =>
        FiredSnoc(st.log, OnSent(tag, TakenWhole(st, room)));
        var st2 := Emit(st1, true, OnSent(tag, TakenWhole(st, room)));
        ActAllKeeps(c, st2, c.app(st2.log));
      case Notify(code, reason) =>
        FiredSnoc(st.log, OnClose(code, reason));
        var st2 := Emit(st1, true, OnClose(code, reason));
        ActAllKeeps(c, st2, c.app(st2.log));
    }
  }

  lemma DisconnectKeeps(c: Config, st: State)
    requires Inv(c, st)
    ensures Inv(c, Disconnect(c, st)) && Disconnect(c, st).phase.Closed?
  {
    hide ActAll;
    if !st.phase.Closed? {
      ClosedKeeps(c, st, 1006, ConnectionLost());
      var st1 := Emit(st.(phase := Closed), c.hasClose, OnClose(1006, ConnectionLost()));
      assert st1 == Emit(st, c.hasClose, OnClose(1006, ConnectionLost())).(phase := Closed);
      ActAllKeeps(c, st1, c.app(st1.log));
    }
  }

  lemma StepKeeps(c: Config, st: State, i: Input)
    requires Inv(c, st)
    ensures var st1 := Step(c, st, i);
      Inv(c, st1) && Rank(st.phase) <= Rank(st1.phase)
  {
    hide Inv, Feed, Disconnect, PopFrame, Act;
    match i
    case Data(chunk) =>
      ParserFieldsFree(c, st, st.data + chunk, st.wanted);
      FeedKeeps(c, st.(data := st.data + chunk));
    case Gone =>
      DisconnectKeeps(c, st);
    case Do(action) =>
      ActKeeps(c, st, action);
    case Pop(room) =>
      PopKeeps(c, st, room);
  }

  lemma {:induction false} RunKeeps(c: Config, st: State, run: seq<Input>)
    requires Inv(c, st)
    ensures var st1 := Run(c, st, run);
      Inv(c, st1) && Rank(st.phase) <= Rank(st1.phase)
    decreases |run|
  {
    hide Inv, Step, Rank;
    if run != [] {
      StepKeeps(c, st, run[0]);
      RunKeeps(c, Step(c, st, run[0]), run[1..]);
    }
  }

  lemma OpenedKeeps(c: Config)
    ensures Inv(c, Opened)
  {
    assert Scan(c.mode, []).last == 0;
  }

  lemma {:induction false} RunAppend(c: Config, st: State, a: seq<Input>, b: seq<Input>)
    ensures Run(c, st, a + b) == Run(c, Run(c, st, a), b)
    decreases |a|
  {
    hide Step;
    if a == [] {
      assert a + b == b;
    } else {
      assert (a + b)[1..] == a[1..] + b;
      RunAppend(c, Step(c, st, a[0]), a[1..], b);
    }
  }
}
