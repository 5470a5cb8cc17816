/**
  * The sending direction end to end: what the application sends leaves the queue in order, the
  * server reads exactly the frames the socket has taken in full, and those are the ones the
  * application is told have been sent.
  */
module Sending {
  import opened Bytes
  import opened Utf8
  import opened Frames
  import opened Session
  import opened SessionSafety

  // ---------------------------------------------------------------- acknowledgements

  /** What the callbacks of queued frames have been called with, in order. */
  function Acks(log: seq<Event>): seq<(nat, bool)> {
    if log == [] then []
    else
      var e := log[|log| - 1];
      Acks(log[..|log| - 1]) + if e.OnSent? then [(e.tag, e.ok)] else []
  }

  lemma AcksSnoc(log: seq<Event>, e: Event)
    ensures Acks(log + [e]) == Acks(log) + if e.OnSent? then [(e.tag, e.ok)] else []
  {
    assert (log + [e])[..|log|] == log;
  }

  /** What they are to be called with: true for the first `whole` frames. */
  function Answers(queue: seq<Queued>, whole: nat): seq<(nat, bool)> {
    if queue == [] then []
    else
      var n := |queue| - 1;
      Answers(queue[..n], whole) + if queue[n].after.Tell? then [(queue[n].after.tag, n < whole)] else []
  }

  lemma AnswersSnoc(queue: seq<Queued>, q: Queued, whole: nat)
    ensures Answers(queue + [q], whole) ==
      Answers(queue, whole) + if q.after.Tell? then [(q.after.tag, |queue| < whole)] else []
  {
    assert (queue + [q])[..|queue|] == queue;
  }

  /** Frames within the first `m` are answered alike whatever lies behind. */
  lemma {:induction false} AnswersAlike(queue: seq<Queued>, m: nat, n: nat)
    requires |queue| <= m && |queue| <= n
    ensures Answers(queue, m) == Answers(queue, n)
  {
    if queue != [] {
      AnswersAlike(queue[..|queue| - 1], m, n);
    }
  }

  // ---------------------------------------------------------------- nothing queued is ever touched again

  /** Frames and events are only ever appended, and nothing leaves the queue or is acknowledged. */
  predicate Adds(st: State, st1: State) {
    && st.sent <= st1.sent && st.log <= st1.log
    && st1.popped == st.popped && st1.whole == st.whole && st1.wire == st.wire
    && Acks(st1.log) == Acks(st.log)
  }

  lemma ActAdds(c: Config, st: State, a: Action)
    ensures Adds(st, Act(c, st, a))
  {
    hide Scan, BigEndian, Acks;
    if a.Send? {
      AcksSnoc(st.log, OnRefused(a.tag));
    }
  }

  lemma {:induction false} ActAllAdds(c: Config, st: State, acts: seq<Action>)
    ensures Adds(st, ActAll(c, st, acts))
    decreases |acts|
  {
    hide Act, Acks;
    if acts != [] {
      ActAdds(c, st, acts[0]);
      ActAllAdds(c, Act(c, st, acts[0]), acts[1..]);
    }
  }

  lemma DoCloseAdds(c: Config, st: State, code: nat, reason: seq<byte>)
    ensures Adds(st, DoClose(c, st, code, reason))
  {
    hide BigEndian, Acks;
  }

  lemma ControlAdds(c: Config, st: State, op: byte, payload: seq<byte>)
    ensures Adds(st, HandleClose(c, st, op, payload))
    ensures Adds(st, HandlePing(c, st, op, payload)) && Adds(st, HandlePong(c, st, op, payload))
  {
    hide Scan, DoClose, RefusedCode, FromBigEndian, Acks;
    var st1 := st.(phase := ServerClose);
    AcksSnoc(st.log, OnClose(CloseCode(payload), CloseReason(payload)));
    AcksSnoc(st.log, OnPing(payload));
    AcksSnoc(st.log, OnPong(payload));
    DoCloseAdds(c, st, 1002, ProtocolError());
    DoCloseAdds(c, st1, 1002, ProtocolError());
    DoCloseAdds(c, st1, 1007, BadReason());
    DoCloseAdds(c, st1, CloseCode(payload), CloseReason(payload));
  }

  lemma DataAdds(c: Config, st: State, op: byte, payload: seq<byte>)
    ensures Adds(st, HandleText(c, st, op, payload)) && Adds(st, HandleBinary(c, st, op, payload))
    ensures Adds(st, HandleContinuation(c, st, op, payload))
  {
    hide Scan, DoClose, Acks;
    AcksSnoc(st.log, OnMessage(payload, false));
    AcksSnoc(st.log, OnMessage(payload, true));
    AcksSnoc(st.log, OnMessage(st.fragPayload + payload, st.fragOp == BINARY));
    DoCloseAdds(c, st, 1002, ProtocolError());
    DoCloseAdds(c, st, 1007, BadText());
    DoCloseAdds(c, st.(fragOp := TEXT, fragPayload := payload), 1007, BadText());
    DoCloseAdds(c, st.(fragOp := CONTINUATION, fragPayload := []), 1007, BadText());
    DoCloseAdds(c, st.(fragPayload := st.fragPayload + payload), 1007, BadText());
  }

  lemma HandleFrameAdds(c: Config, st: State, op: byte, payload: seq<byte>)
    ensures Adds(st, HandleFrame(c, st, op, payload))
  {
    hide DoClose, HandleClose, HandlePing, HandlePong, HandleText, HandleBinary, HandleContinuation, Acks;
    DoCloseAdds(c, st, 1002, ProtocolError());
    ControlAdds(c, st, op, payload);
    DataAdds(c, st, op, payload);
  }

  lemma {:induction false} FeedAdds(c: Config, st: State)
    ensures Adds(st, Feed(c, st))
    decreases |st.data|
  {
    hide HandleFrame, ActAll, Look, FrontFrame, DoClose, Acks;
    match Look(st.data)
    case More(_) =>
    case Whole(masked, _, total) =>
      if masked {
        DoCloseAdds(c, st.(wanted := total), 1002, ProtocolError());
      } else {
        var f := FrontFrame(st.data);
        var st0, st1 := HandleFrame(c, st, f.head[0], f.payload), TakeFrame(c, st, f);
        HandleFrameAdds(c, st, f.head[0], f.payload);
        ActAllAdds(c, st0, c.app(st0.log));
        FeedAdds(c, st1.(wanted := 2, data := st.data[total..]));
      }
  }

  // ---------------------------------------------------------------- what the socket has taken

  function FramesOf(queue: seq<Queued>): (r: seq<Sent>)
    ensures |r| == |queue|
  {
    seq(|queue|, i requires 0 <= i < |queue| => queue[i].frame)
  }

  /** The octets of the frames taken in full. */
  function WholeFrames(st: State): seq<byte>
    requires st.whole <= |st.sent|
  {
    SerialiseAll(FramesOf(st.sent[..st.whole]))
  }

  /**
    * The wire carries the frames taken in full and, once a frame has been cut short, a proper part
    * of it; every frame that has left the queue has been answered accordingly.
    */
  ghost predicate OnWire(st: State) {
    && st.whole <= st.popped <= |st.sent|
    && WholeFrames(st) <= st.wire
    && (if st.whole == st.popped then st.wire == WholeFrames(st)
        else st.wire[|WholeFrames(st)|..] < Serialise(st.sent[st.whole].frame))
    && Acks(st.log) == Answers(st.sent[..st.popped], st.whole)
  }

  lemma AddsKeeps(st: State, st1: State)
    requires OnWire(st) && Adds(st, st1)
    ensures OnWire(st1)
  {
    hide Acks, Answers, Serialise;
    assert st1.sent[..st.popped] == st.sent[..st.popped];
    assert st1.sent[..st.whole] == st.sent[..st.whole];
  }

  lemma {:induction false} SerialiseSnoc(ss: seq<Sent>, s: Sent)
    ensures SerialiseAll(ss + [s]) == SerialiseAll(ss) + Serialise(s)
  {
    hide Serialise;
    if ss == [] {
      assert ss + [s] == [s] && SerialiseAll([s][1..]) == [];
    } else {
      assert (ss + [s])[1..] == ss[1..] + [s];
      SerialiseSnoc(ss[1..], s);
    }
  }

  /** The frame at the head leaves: in full, in part, or, behind one cut short, not at all. */
  lemma HandedWire(st: State, room: nat)
    requires OnWire(st) && st.popped < |st.sent|
    ensures var st1 := Handed(st, room);
      && st1.whole <= st1.popped
      && WholeFrames(st1) <= st1.wire
      && (if st1.whole == st1.popped then st1.wire == WholeFrames(st1)
          else st1.wire[|WholeFrames(st1)|..] < Serialise(st1.sent[st1.whole].frame))
  {
    hide Acks, Answers, Serialise, SerialiseAll;
    var f := st.sent[st.popped].frame;
    var st1 := Handed(st, room);
    if TakenWhole(st, room) {
      assert st.sent[..st1.whole] == st.sent[..st.whole] + [st.sent[st.popped]];
      assert FramesOf(st.sent[..st1.whole]) == FramesOf(st.sent[..st.whole]) + [f];
      SerialiseSnoc(FramesOf(st.sent[..st.whole]), f);
    } else if st.whole == st.popped {
      assert st1.wire[|WholeFrames(st1)|..] == Serialise(f)[..Taken(st, room)];
    } else {
      assert st1.wire == st.wire;
    }
  }

  lemma HandedAnswers(st: State, room: nat)
    requires OnWire(st) && st.popped < |st.sent|
    ensures var q, st1 := st.sent[st.popped], Handed(st, room);
      Answers(st.sent[..st1.popped], st1.whole) ==
        Acks(st.log) + if q.after.Tell? then [(q.after.tag, TakenWhole(st, room))] else []
  {
    hide Acks, Answers, Serialise, SerialiseAll;
    var q, st1 := st.sent[st.popped], Handed(st, room);
    assert st.sent[..st1.popped] == st.sent[..st.popped] + [q];
    AnswersSnoc(st.sent[..st.popped], q, st1.whole);
    if st1.whole != st.whole {
      AnswersAlike(st.sent[..st.popped], st.whole, st1.whole);
    }
  }

  lemma PopKeepsWire(c: Config, st: State, room: nat)
    requires OnWire(st)
    ensures OnWire(PopFrame(c, st, room)) && Grows(st, PopFrame(c, st, room))
  {
    hide ActAll, Answers, Serialise, SerialiseAll, Acks, TakenWhole;
    if st.popped < |st.sent| {
      var st1 := Handed(st, room);
      var q := st.sent[st.popped];
      HandedWire(st, room);
      HandedAnswers(st, room);
      match q.after
      case Nothing =>
      case Tell(tag) =>
        AcksSnoc(st.log, OnSent(tag, TakenWhole(st, room)));
        var st2 := Emit(st1, true, OnSent(tag, TakenWhole(st, room)));
        ActAllAdds(c, st2, c.app(st2.log));
        AddsKeeps(st2, ActAll(c, st2, c.app(st2.log)));
      case Notify(code, reason) =>
        AcksSnoc(st.log, OnClose(code, reason));
        var st2 := Emit(st1, true, OnClose(code, reason));
        ActAllAdds(c, st2, c.app(st2.log));
        AddsKeeps(st2, ActAll(c, st2, c.app(st2.log)));
    }
  }

  /** Later: more events, more frames, more of them gone, more octets behind those on the wire. */
  predicate Grows(st: State, st1: State) {
    && st.log <= st1.log && st.sent <= st1.sent && st.popped <= st1.popped
    && st.whole <= st1.whole && st.wire <= st1.wire
  }

  /** Every step but a frame leaving the queue only adds. */
  lemma OtherAdds(c: Config, st: State, i: Input)
    requires !i.Pop?
    ensures Adds(st, Step(c, st, i))
  {
    hide Feed, Act, ActAll, Acks;
    match i
    case Data(chunk) =>
      FeedAdds(c, st.(data := st.data + chunk));
    case Gone =>
      var st1 := Emit(st.(phase := Closed), c.hasClose, OnClose(1006, ConnectionLost()));
      AcksSnoc(st.log, OnClose(1006, ConnectionLost()));
      ActAllAdds(c, st1, c.app(st1.log));
    case Do(action) =>
      ActAdds(c, st, action);
  }

  lemma StepGrows(c: Config, st: State, i: Input)
    requires OnWire(st)
    ensures OnWire(Step(c, st, i)) && Grows(st, Step(c, st, i))
  {
    hide Step, PopFrame, OnWire, Acks;
    if i.Pop? {
      PopKeepsWire(c, st, i.room);
      PopIs(c, st, i.room);
    } else {
      OtherAdds(c, st, i);
      AddsKeeps(st, Step(c, st, i));
    }
  }

  lemma PopIs(c: Config, st: State, room: nat)
    ensures Step(c, st, Pop(room)) == PopFrame(c, st, room)
  {
    hide PopFrame;
  }

  lemma {:induction false} RunGrows(c: Config, st: State, run: seq<Input>)
    requires OnWire(st)
    ensures OnWire(Run(c, st, run)) && Grows(st, Run(c, st, run))
    decreases |run|
  {
    hide Step, OnWire;
    if run != [] {
      StepGrows(c, st, run[0]);
      RunGrows(c, Step(c, st, run[0]), run[1..]);
    }
  }

  lemma OpenedOnWire()
    ensures OnWire(Opened)
  {
    assert FramesOf(Opened.sent[..0]) == [];
  }

  // ---------------------------------------------------------------- the server's side

  /** No queued frame is longer than a length field can say. */
  ghost predicate AllSendable(st: State) {
    forall i :: 0 <= i < |st.sent| ==> |st.sent[i].frame.payload| < TWO_TO_THE_64
  }

  /**
    * From the octets the socket has taken a server reads exactly the frames taken in full, in the
    * order in which they were queued.
    */
  lemma ServerReads(st: State)
    requires OnWire(st) && AllSendable(st)
    ensures Receive(st.wire).sent == FramesOf(st.sent[..st.whole])
    ensures st.whole == st.popped ==> Receive(st.wire).rest == []
  {
    hide Acks, Answers, Receive, Serialise, SerialiseAll;
    var ss := FramesOf(st.sent[..st.whole]);
    assert Sendable(ss);
    if st.whole == st.popped {
      SerialiserRoundTrip(ss);
    } else {
      var tail := st.wire[|WholeFrames(st)|..];
      assert st.wire == SerialiseAll(ss) + tail;
      CutStream(ss, st.sent[st.whole].frame, tail);
    }
  }

  /**
    * Over every run: the server reads the first frames ever queued, in order, and the socket has
    * taken their images and, once a frame has been cut short, a proper part of it; the callbacks of
    * the queued frames have been called once for each that has left, in order, with true exactly for
    * those the server reads.
    */
  lemma ReadAndAnswered(c: Config, run: seq<Input>)
    requires AllSendable(Run(c, Opened, run))
    ensures var st := Run(c, Opened, run); var got := Receive(st.wire).sent;
      && |got| <= st.popped <= |st.sent|
      && got == FramesOf(st.sent[..|got|])
      && SerialiseAll(got) <= st.wire
      && (if |got| == st.popped then st.wire == SerialiseAll(got)
          else st.wire[|SerialiseAll(got)|..] < Serialise(st.sent[|got|].frame))
      && Acks(st.log) == Answers(st.sent[..st.popped], |got|)
  {
    hide Run, Receive, Acks, Answers, Serialise, SerialiseAll;
    OpenedOnWire();
    RunGrows(c, Opened, run);
    ServerReads(Run(c, Opened, run));
  }

  /** First in, first out: what the server has read is a prefix of what it will have read. */
  lemma FirstInFirstOut(c: Config, run: seq<Input>, more: seq<Input>)
    requires AllSendable(Run(c, Opened, run + more))
    ensures var st, later := Run(c, Opened, run), Run(c, Opened, run + more);
      && st.wire <= later.wire && FramesOf(st.sent) <= FramesOf(later.sent)
      && Receive(st.wire).sent <= Receive(later.wire).sent <= FramesOf(later.sent)
  {
    hide Run, Receive, OnWire;
    OpenedOnWire();
    RunAppend(c, Opened, run, more);
    RunGrows(c, Opened, run);
    var st, later := Run(c, Opened, run), Run(c, Opened, run + more);
    RunGrows(c, st, more);
    forall i | 0 <= i < |st.sent| ensures st.sent[i] == later.sent[i] {
    }
    ServerReads(st);
    ServerReads(later);
    WholeFits(st);
    WholeFits(later);
  }

  lemma WholeFits(st: State)
    requires OnWire(st)
    ensures st.whole <= st.popped <= |st.sent|
  {
  }

  // ---------------------------------------------------------------- one message

  lemma {:induction false} AnswersAt(queue: seq<Queued>, whole: nat, n: nat)
    requires n <= |queue|
    ensures Answers(queue[..n], whole) <= Answers(queue, whole)
    decreases |queue|
  {
    if n == |queue| {
      assert queue[..n] == queue;
    } else {
      AnswersAt(queue[..|queue| - 1], whole, n);
      assert queue[..|queue| - 1][..n] == queue[..n];
    }
  }

  lemma AnswerOf(queue: seq<Queued>, whole: nat, n: nat)
    requires n < |queue| && queue[n].after.Tell?
    ensures var k := |Answers(queue[..n], whole)|;
      k < |Answers(queue, whole)| && Answers(queue, whole)[k] == (queue[n].after.tag, n < whole)
  {
    hide Answers;
    AnswersAt(queue, whole, n + 1);
    AnswersSnoc(queue[..n], queue[n], whole);
    assert queue[..n + 1] == queue[..n] + [queue[n]];
  }

  lemma {:induction false} AnswersCount(queue: seq<Queued>, m: nat, n: nat)
    ensures |Answers(queue, m)| == |Answers(queue, n)|
  {
    if queue != [] {
      AnswersCount(queue[..|queue| - 1], m, n);
    }
  }

  lemma OpenSendQueues(c: Config, st: State, kind: Kind, payload: seq<byte>, tag: nat)
    requires st.phase.Open?
    ensures Step(c, st, Do(Send(kind, payload, tag))).sent
      == st.sent + [Queued(Sent(OpOf(kind), payload, c.key(|st.sent|)), Tell(tag))]
  {
  }

  /**
    * The `n`th frame ever queued is this message, whose callback is the `k`th of those of queued
    * frames: it has been called exactly if the frame has left the queue, with true exactly if the
    * server reads the frame, which then is the message.
    */
  predicate Answered(st: State, n: nat, k: nat, kind: Kind, payload: seq<byte>, tag: nat) {
    var got := Receive(st.wire).sent;
    && (k < |Acks(st.log)| <==> n < st.popped)
    && (n < st.popped ==> k < |Acks(st.log)| && Acks(st.log)[k] == (tag, n < |got|))
    && (n < |got| ==> n < st.popped && got[n].op == OpOf(kind) && got[n].payload == payload)
  }

  /**
    * A message sent on an open connection, whatever happens afterwards. Its callback, the one behind
    * those of the frames queued before, has been called once if its frame has left the queue and is
    * pending otherwise; and it has been called with true if and only if the server reads the
    * message, which it then does at the place where the message was queued.
    */
  lemma SentArrives(c: Config, run: seq<Input>, kind: Kind, payload: seq<byte>, tag: nat, more: seq<Input>)
    requires Run(c, Opened, run).phase.Open?
    requires AllSendable(Run(c, Opened, run + [Do(Send(kind, payload, tag))] + more))
    ensures var st, later := Run(c, Opened, run), Run(c, Opened, run + [Do(Send(kind, payload, tag))] + more);
      Answered(later, |st.sent|, |Answers(st.sent, 0)|, kind, payload, tag)
  {
    hide Run, Step, Receive, Answers, Acks, OnWire;
    var i := Do(Send(kind, payload, tag));
    var st := Run(c, Opened, run);
    RunAppend(c, Opened, run, [i] + more);
    assert run + [i] + more == run + ([i] + more);
    RunFirst(c, st, i, more);
    OpenedOnWire();
    RunGrows(c, Opened, run);
    StepGrows(c, st, i);
    OpenSendQueues(c, st, kind, payload, tag);
    var st1 := Step(c, st, i);
    RunGrows(c, st1, more);
    var later := Run(c, st1, more);
    ReadAndAnswered(c, run + [i] + more);
    var n, whole := |st.sent|, |Receive(later.wire).sent|;
    assert later.sent[n] == st1.sent[n];
    assert later.sent[..n] == st.sent;
    var gone := later.sent[..later.popped];
    AnswersCount(st.sent, 0, whole);
    if n < later.popped {
      AnswerOf(gone, whole, n);
      assert gone[..n] == st.sent;
    } else {
      AnswersAt(st.sent, whole, later.popped);
      assert st.sent[..later.popped] == gone;
    }
  }

  lemma RunFirst(c: Config, st: State, i: Input, more: seq<Input>)
    ensures Run(c, st, [i] + more) == Run(c, Step(c, st, i), more)
  {
    hide Step;
    assert ([i] + more)[1..] == more;
  }
}
