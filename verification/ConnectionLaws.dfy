/**
  * The connection over whole runs: safety of the closing handshake, the single notification,
  * silence after the end, and what is known about a text under reassembly.
  */
module ConnectionLaws {
  import opened Bytes
  import opened Utf8
  import opened Utf8Laws
  import opened Frames
  import opened Session
  import opened SessionSafety

  // ---------------------------------------------------------------- over every run

  /**
    * Closing handshake safety. Whatever the server sends, the application does and the socket
    * delivers: the phases only advance, `ServerClose` is never seen between two steps, at most
    * one Close frame is ever queued, nothing is queued behind it but automatic pongs (so no text
    * or binary frame), and while the connection is open there is none.
    */
  lemma CloseHandshakeSafety(c: Config, run: seq<Input>, more: seq<Input>)
    ensures var phase := Run(c, Opened, run).phase; phase.Open? || phase.ClientClose? || phase.Closed?
    ensures Rank(Run(c, Opened, run).phase) <= Rank(Run(c, Opened, run + more).phase)
    ensures var st := Run(c, Opened, run);
      st.phase.Open? ==> forall i :: 0 <= i < |st.sent| ==> CleanOp(st.sent[i].frame.op) != CLOSE
    ensures var sent := Run(c, Opened, run).sent;
      forall i, j :: 0 <= i < |sent| && 0 <= j < |sent| ==> IsClose(sent[i]) && IsClose(sent[j]) ==> i == j
    ensures var sent := Run(c, Opened, run).sent;
      forall i, j :: 0 <= i < j < |sent| && IsClose(sent[i]) ==> sent[j].frame.op == FIN + PONG
  {
    hide Run, Notices, Tied;
    OpenedKeeps(c);
    RunKeeps(c, Opened, run);
    RunAppend(c, Opened, run, more);
    var st := Run(c, Opened, run);
    RunKeeps(c, st, more);
    assert ClosesOnce(st.phase, st.sent);
    forall i, j | 0 <= i < j < |st.sent| && IsClose(st.sent[i])
      ensures st.sent[j].frame.op == FIN + PONG && !IsClose(st.sent[j])
    {
      assert IsAutoPong(st.sent[j]);
    }
  }

  /**
    * The application learns of the end exactly once: the notifications it has received and the
    * ones still waiting in the queue are one together once the connection is closed, none before.
    */
  lemma NotifiedExactlyOnce(c: Config, run: seq<Input>)
    ensures var st := Run(c, Opened, run);
      && st.popped <= |st.sent|
      && Fired(st.log) + Waiting(st.sent[st.popped..]) == (if st.phase.Closed? && c.hasClose then 1 else 0)
  {
    hide Run, Inv, Fired, Waiting, Rank;
    OpenedKeeps(c);
    RunKeeps(c, Opened, run);
    NoticesKnown(c, Run(c, Opened, run));
  }

  lemma NoticesKnown(c: Config, st: State)
    requires Inv(c, st)
    ensures st.popped <= |st.sent|
    ensures Fired(st.log) + Waiting(st.sent[st.popped..]) == (if st.phase.Closed? && c.hasClose then 1 else 0)
  {
    hide ClosesOnce, Tied, Fired, Waiting;
  }

  /**
    * In every run the validated part of a text under reassembly is known while the connection is
    * open: the buffer is not a dead end and the offset is the end of its last complete code point.
    */
  lemma OffsetIsBoundary(c: Config, run: seq<Input>)
    ensures var st := Run(c, Opened, run);
      st.phase.Open? && st.fragOp == TEXT ==>
        && st.fragOffset <= |st.fragPayload|
        && Scan(c.mode, st.fragPayload[..st.fragOffset]) == Verdict(Valid, st.fragOffset)
        && Scan(c.mode, st.fragPayload) == Shift(Scan(c.mode, st.fragPayload[st.fragOffset..]), st.fragOffset)
  {
    hide Run, Orderly, Scan;
    OpenedKeeps(c);
    RunKeeps(c, Opened, run);
    var st := Run(c, Opened, run);
    if st.phase.Open? && st.fragOp == TEXT {
      ScanComposes(c.mode, st.fragPayload, []);
      assert st.fragPayload + [] == st.fragPayload;
      assert st.fragPayload[st.fragOffset..] + [] == st.fragPayload[st.fragOffset..];
    }
  }

  // ---------------------------------------------------------------- silence

  predicate IsDelivery(e: Event) { e.OnMessage? || e.OnPing? || e.OnPong? }

  /** The messages, pings and pongs the application has received, in order. */
  function Delivered(log: seq<Event>): seq<Event> {
    if log == [] then []
    else Delivered(log[..|log| - 1]) + if IsDelivery(log[|log| - 1]) then [log[|log| - 1]] else []
  }

  lemma DeliveredSnoc(log: seq<Event>, e: Event)
    ensures Delivered(log + [e]) == Delivered(log) + if IsDelivery(e) then [e] else []
  {
    assert (log + [e])[..|log|] == log;
  }

  lemma {:induction false} ActAllDelivers(c: Config, st: State, acts: seq<Action>)
    ensures Delivered(ActAll(c, st, acts).log) == Delivered(st.log)
    decreases |acts|
  {
    hide Scan;
    if acts != [] {
      if acts[0].Send? {
        DeliveredSnoc(st.log, OnRefused(acts[0].tag));
      }
      ActAllDelivers(c, Act(c, st, acts[0]), acts[1..]);
    }
  }

  lemma {:induction false} FeedClosed(c: Config, st: State)
    requires st.phase.Closed?
    ensures var st1 := Feed(c, st);
      st1.log == st.log && st1.sent == st.sent && st1.phase.Closed?
    decreases |st.data|
  {
    hide Look, FrontFrame;
    match Look(st.data)
    case More(_) =>
    case Whole(masked, _, total) =>
      if !masked {
        var st1 := st.(wanted := 2, data := st.data[total..]);
        assert TakeFrame(c, st, FrontFrame(st.data)) == st;
        FeedClosed(c, st1);
      }
  }

  lemma ReactDelivers(c: Config, before: State, st: State)
    ensures Delivered(React(c, before, st).log) == Delivered(st.log)
  {
    ActAllDelivers(c, st, c.app(st.log));
  }

  lemma PopDelivers(c: Config, st: State, room: nat)
    ensures Delivered(PopFrame(c, st, room).log) == Delivered(st.log)
  {
    hide Delivered, React, Serialise, TakenWhole;
    if st.popped < |st.sent| {
      var st1 := Handed(st, room);
      match st.sent[st.popped].after
      case Nothing =>
      case Tell(tag) =>
        DeliveredSnoc(st.log, OnSent(tag, TakenWhole(st, room)));
        ReactDelivers(c, st, Emit(st1, true, OnSent(tag, TakenWhole(st, room))));
      case Notify(code, reason) =>
        DeliveredSnoc(st.log, OnClose(code, reason));
        ReactDelivers(c, st, Emit(st1, true, OnClose(code, reason)));
    }
  }

  lemma {:induction false} ClosedQueuesNothing(c: Config, st: State, acts: seq<Action>)
    requires st.phase.Closed?
    ensures ActAll(c, st, acts).sent == st.sent
    decreases |acts|
  {
    hide Scan;
    if acts != [] {
      ClosedQueuesNothing(c, Act(c, st, acts[0]), acts[1..]);
    }
  }

  lemma ClosedPopQueuesNothing(c: Config, st: State, room: nat)
    requires st.phase.Closed?
    ensures PopFrame(c, st, room).sent == st.sent
  {
    hide ActAll, Serialise, TakenWhole;
    if st.popped < |st.sent| {
      var st1 := Handed(st, room);
      match st.sent[st.popped].after
      case Nothing =>
      case Tell(tag) =>
        var st2 := Emit(st1, true, OnSent(tag, TakenWhole(st, room)));
        ClosedQueuesNothing(c, st2, c.app(st2.log));
      case Notify(code, reason) =>
        var st2 := Emit(st1, true, OnClose(code, reason));
        ClosedQueuesNothing(c, st2, c.app(st2.log));
    }
  }

  lemma ClosedStepIsSilent(c: Config, st: State, i: Input)
    requires st.phase.Closed?
    ensures Delivered(Step(c, st, i).log) == Delivered(st.log)
    ensures Step(c, st, i).sent == st.sent
    ensures i.Data? ==> Step(c, st, i).log == st.log
  {
    hide Feed, Scan, PopFrame, Delivered;
    match i
    case Data(chunk) =>
      FeedClosed(c, st.(data := st.data + chunk));
    case Gone =>
    case Do(action) =>
      if action.Send? {
        DeliveredSnoc(st.log, OnRefused(action.tag));
      }
    case Pop(room) =>
      PopDelivers(c, st, room);
      ClosedPopQueuesNothing(c, st, room);
  }

  /** Nothing is delivered or queued once the connection is closed, whatever still arrives. */
  lemma {:induction false} SilentOnceClosed(c: Config, st: State, run: seq<Input>)
    requires st.phase.Closed? && Inv(c, st)
    ensures Delivered(Run(c, st, run).log) == Delivered(st.log)
    ensures Run(c, st, run).sent == st.sent
    decreases |run|
  {
    hide Inv, Step;
    if run != [] {
      StepKeeps(c, st, run[0]);
      ClosedStepIsSilent(c, st, run[0]);
      ClosedRank(c, st, run[0]);
      SilentOnceClosed(c, Step(c, st, run[0]), run[1..]);
    }
  }

  lemma ClosedRank(c: Config, st: State, i: Input)
    requires st.phase.Closed? && Inv(c, st)
    ensures Step(c, st, i).phase.Closed?
  {
    hide Step;
    StepKeeps(c, st, i);
  }

  // ---------------------------------------------------------------- the notification is the last word

  /** No message, ping or pong is delivered behind a close notification. */
  ghost predicate Sealed(log: seq<Event>) {
    forall i, j :: 0 <= i < j < |log| && log[i].OnClose? ==> !IsDelivery(log[j])
  }

  lemma SealedSnoc(log: seq<Event>, e: Event)
    requires Sealed(log) && (IsDelivery(e) ==> Fired(log) == 0)
    ensures Sealed(log + [e])
  {
    if IsDelivery(e) {
      FiredNone(log);
    }
  }

  lemma {:induction false} FiredNone(log: seq<Event>)
    requires Fired(log) == 0
    ensures forall i :: 0 <= i < |log| ==> !log[i].OnClose?
  {
    if log != [] {
      FiredNone(log[..|log| - 1]);
    }
  }

  lemma NotFiredBefore(c: Config, st: State)
    requires Inv(c, st) && !st.phase.Closed?
    ensures Fired(st.log) == 0
  {
    hide ClosesOnce, Tied, Fired, Waiting;
  }

  lemma {:induction false} ActAllSealed(c: Config, st: State, acts: seq<Action>)
    requires Sealed(st.log)
    ensures Sealed(ActAll(c, st, acts).log)
    decreases |acts|
  {
    hide Scan, Sealed, BigEndian;
    if acts != [] {
      if acts[0].Send? {
        SealedSnoc(st.log, OnRefused(acts[0].tag));
      }
      ActAllSealed(c, Act(c, st, acts[0]), acts[1..]);
    }
  }

  /** The log with one event more at most. */
  predicate OneMore(log: seq<Event>, log1: seq<Event>) {
    log1 == log || (|log1| == |log| + 1 && log1 == log + [log1[|log|]])
  }

  /** A frame shows one event at most. */
  lemma HandleFrameLog(c: Config, st: State, op: byte, payload: seq<byte>)
    ensures OneMore(st.log, HandleFrame(c, st, op, payload).log)
  {
    hide Scan, DoClose, RefusedCode, FromBigEndian;
    DoCloseFrame(c, st, 1002, ProtocolError());
    DoCloseFrame(c, st, 1007, BadText());
    DoCloseFrame(c, st.(phase := ServerClose), 1002, ProtocolError());
    DoCloseFrame(c, st.(phase := ServerClose), 1007, BadReason());
    DoCloseFrame(c, st.(phase := ServerClose), CloseCode(payload), CloseReason(payload));
    DoCloseFrame(c, st.(fragOp := TEXT, fragPayload := payload), 1007, BadText());
    DoCloseFrame(c, st.(fragOp := CONTINUATION, fragPayload := []), 1007, BadText());
    DoCloseFrame(c, st.(fragPayload := st.fragPayload + payload), 1007, BadText());
  }

  lemma TakeFrameSealed(c: Config, st: State, f: Frame)
    requires Inv(c, st) && Sealed(st.log) && f.head != []
    ensures Sealed(TakeFrame(c, st, f).log)
  {
    hide Inv, HandleFrame, Sealed, Fired, ActAll;
    var st1 := HandleFrame(c, st, f.head[0], f.payload);
    if st.phase.Closed? {
      ClosedTakes(c, st, f.head[0], f.payload);
    } else {
      NotFiredBefore(c, st);
      HandleFrameLog(c, st, f.head[0], f.payload);
      if st1.log != st.log {
        SealedSnoc(st.log, st1.log[|st.log|]);
      }
    }
    ActAllSealed(c, st1, c.app(st1.log));
  }

  lemma ClosedTakes(c: Config, st: State, op: byte, payload: seq<byte>)
    requires st.phase.Closed?
    ensures HandleFrame(c, st, op, payload) == st
  {
  }

  lemma {:induction false} FeedSealed(c: Config, st: State)
    requires Inv(c, st) && Sealed(st.log)
    ensures Sealed(Feed(c, st).log)
    decreases |st.data|
  {
    hide Inv, TakeFrame, Look, FrontFrame, DoClose, Sealed;
    match Look(st.data)
    case More(_) =>
    case Whole(masked, _, total) =>
      if masked {
        DoCloseFrame(c, st.(wanted := total), 1002, ProtocolError());
      } else {
        var f := FrontFrame(st.data);
        TakeFrameSealed(c, st, f);
        TakeFrameKeeps(c, st, f);
        ParserFieldsFree(c, TakeFrame(c, st, f), st.data[total..], 2);
        FeedSealed(c, TakeFrame(c, st, f).(wanted := 2, data := st.data[total..]));
      }
  }

  lemma StepSealed(c: Config, st: State, i: Input)
    requires Inv(c, st) && Sealed(st.log)
    ensures Sealed(Step(c, st, i).log)
  {
    hide Inv, Feed, Scan, Sealed, ActAll, Serialise, TakenWhole, BigEndian;
    match i
    case Data(chunk) =>
      ParserFieldsFree(c, st, st.data + chunk, st.wanted);
      FeedSealed(c, st.(data := st.data + chunk));
    case Gone =>
      var st1 := Emit(st.(phase := Closed), c.hasClose, OnClose(1006, ConnectionLost()));
      SealedSnoc(st.log, OnClose(1006, ConnectionLost()));
      ActAllSealed(c, st1, c.app(st1.log));
    case Do(action) =>
      if action.Send? {
        SealedSnoc(st.log, OnRefused(action.tag));
      }
    case Pop(room) =>
      PopSealed(c, st, room);
  }

  lemma PopSealed(c: Config, st: State, room: nat)
    requires Sealed(st.log)
    ensures Sealed(PopFrame(c, st, room).log)
  {
    hide Sealed, ActAll, Serialise, TakenWhole;
    if st.popped < |st.sent| {
      var st1 := Handed(st, room);
      match st.sent[st.popped].after
      case Nothing =>
      case Tell(tag) =>
        var e := OnSent(tag, TakenWhole(st, room));
        SealedSnoc(st.log, e);
        ActAllSealed(c, Emit(st1, true, e), c.app(st.log + [e]));
      case Notify(code, reason) =>
        var e := OnClose(code, reason);
        SealedSnoc(st.log, e);
        ActAllSealed(c, Emit(st1, true, e), c.app(st.log + [e]));
    }
  }

  lemma {:induction false} RunSealed(c: Config, st: State, run: seq<Input>)
    requires Inv(c, st) && Sealed(st.log)
    ensures Sealed(Run(c, st, run).log)
    decreases |run|
  {
    hide Inv, Step, Sealed;
    if run != [] {
      StepKeeps(c, st, run[0]);
      StepSealed(c, st, run[0]);
      RunSealed(c, Step(c, st, run[0]), run[1..]);
    }
  }

  lemma NothingSealed()
    ensures Sealed(Opened.log)
  {
  }

  /**
    * In no run is a message, ping or pong delivered behind a close notification, not even one that
    * arrives in the same read as the frame that caused it.
    */
  lemma NothingBehindClose(c: Config, run: seq<Input>)
    ensures Sealed(Run(c, Opened, run).log)
  {
    hide Run, Inv, Sealed;
    OpenedKeeps(c);
    NothingSealed();
    RunSealed(c, Opened, run);
  }

  // ---------------------------------------------------------------- after a local close

  /**
    * The remembered offset is only moved by text that is no dead end. After a first fragment that
    * is one, it points into the new buffer exactly if the offset left by an earlier message does.
    */
  lemma OffsetAfterTextStart(c: Config, st: State, op: byte, payload: seq<byte>)
    requires st.fragOp == CONTINUATION && !IsFin(op)
    ensures var st1 := HandleText(c, st, op, payload);
      st1.fragOp == TEXT &&
      (st1.fragOffset <= |st1.fragPayload| <==>
        !Scan(c.mode, payload).result.Invalid? || st.fragOffset <= |payload|)
  {
    hide Scan;
    DoCloseFrame(c, st.(fragOp := TEXT, fragPayload := payload), 1007, BadText());
  }

  lemma AsciiIsValid(m: Mode, s: seq<byte>)
    requires forall i :: 0 <= i < |s| ==> s[i] < 0x80
    ensures Scan(m, s) == Verdict(Valid, |s|)
  {
    if s != [] && !m.NoCheck? {
      AsciiIsValid(m, s[1..]);
      assert ReadHead(m, s) == Char(1, s[0]);
    }
  }

  /** Such a stale offset does occur, in the two frames that follow a delivered text. */
  lemma StaleOffset(c: Config)
    requires !c.mode.NoCheck?
    ensures var abc: seq<byte> := [0x61, 0x62, 0x63];
      var st0 := HandleFrame(c, Opened, TEXT, abc);
      var st1 := HandleFrame(c, st0, FIN + CONTINUATION, []);
      var st2 := HandleFrame(c, st1, TEXT, [0xFF]);
      && st1.phase.Open? && st1.fragOp == CONTINUATION && st1.fragOffset == 3
      && st1.log == (if c.hasMessage then [OnMessage(abc, false)] else [])
      && st2.phase.ClientClose? && st2.fragOp == TEXT && st2.fragOffset == 3 > |st2.fragPayload|
  {
    hide Scan;
    var abc: seq<byte> := [0x61, 0x62, 0x63];
    AsciiIsValid(c.mode, abc);
    AsciiIsValid(c.mode, []);
    var st0 := HandleFrame(c, Opened, TEXT, abc);
    assert st0 == Opened.(fragOp := TEXT, fragPayload := abc, fragOffset := 3);
    assert abc + [] == abc && Suffix(abc, 3) == [];
    var st1 := HandleFrame(c, st0, FIN + CONTINUATION, []);
    assert st1 == Emit(Opened.(fragOffset := 3), c.hasMessage, OnMessage(abc, false));
    assert ReadHead(c.mode, [0xFF]) == BadHead;
    ScanStep(c.mode, [0xFF]);
  }
}
