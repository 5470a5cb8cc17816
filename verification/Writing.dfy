/**
  * The send task over the TCP client, the two machines side by side: every run of both is a run of
  * the connection, in which a completed write is a frame that leaves the queue.
  */
module Writing {
  import opened Bytes
  import opened Frames
  import S = Session
  import SessionSafety
  import T = Transfers
  import Sending

  // ---------------------------------------------------------------- the two machines side by side

  /**
    * The connection, the TCP client below it, whether the send task waits for a write to complete,
    * and whether an attempt to write has met the end of the stream.
    */
  datatype World = World(web: S.State, tcp: T.State, busy: bool, dead: bool)

  /**
    * A step of the connection, a step of the TCP client, or the send task taking the next frame from
    * the queue and starting to write it, with the answer of the socket.
    */
  datatype Move =
    | Web(i: S.Input)
    | Net(j: T.Input)
    | Write(id: nat, res: T.Option<seq<byte>>)

  const Begun: World := World(S.Opened, T.Fresh.(connected := true), false, false)

  /** The write of everything of the next frame. */
  function WriteOf(web: S.State, id: nat): T.Op
    requires web.popped < |web.sent|
  {
    var image := Serialise(web.sent[web.popped].frame);
    T.Op(id, T.Tx, true, image, |image|, [])
  }

  /** An attempt to write meets the end of the stream. */
  predicate MeetsEnd(tcp: T.State, j: T.Input) {
    var op := T.Asked(tcp, j);
    op.Some? && op.value.dir.Tx? && j.res == T.Some([])
  }

  function Below(w: World, j: T.Input): World {
    w.(tcp := T.Step(w.tcp, j), dead := w.dead || MeetsEnd(w.tcp, j))
  }

  /** The step calls the completion of a write, which resumes the send task. */
  predicate Completes(tcp: T.State, j: T.Input) {
    j.Run? && tcp.queue != [] && tcp.queue[0].Done? && tcp.queue[0].op.dir.Tx?
  }

  function Next(c: S.Config, w: World, m: Move): World
    requires Lawful(w, m)
  {
    match m
    case Web(i) => w.(web := S.Step(c, w.web, i))
    case Net(j) =>
      if Completes(w.tcp, j) then
        Below(w, j).(web := S.PopFrame(c, w.web, |w.tcp.queue[0].op.moved|), busy := false)
      else Below(w, j)
    case Write(id, res) => Below(w, T.Start(WriteOf(w.web, id), res)).(busy := true)
  }

  /**
    * Only the send task writes, one frame at a time; results are possible; a connection is not made
    * again and a stream that has ended takes nothing more.
    */
  predicate Lawful(w: World, m: Move) {
    match m
    case Web(i) => !i.Pop?
    case Net(j) => LawfulBelow(w, j) && !(j.Start? && j.op.dir.Tx?)
    case Write(id, res) =>
      !w.busy && w.web.popped < |w.web.sent| && LawfulBelow(w, T.Start(WriteOf(w.web, id), res))
  }

  predicate LawfulBelow(w: World, j: T.Input) {
    !j.Connected? && T.Allowed(w.tcp, j) && (w.dead ==> T.NoOctets(j))
  }

  function Go(c: S.Config, w: World, moves: seq<Move>): World
    requires AllLawful(c, w, moves)
    decreases |moves|
  {
    if moves == [] then w else Go(c, Next(c, w, moves[0]), moves[1..])
  }

  predicate AllLawful(c: S.Config, w: World, moves: seq<Move>)
    decreases |moves|
  {
    moves == [] || (Lawful(w, moves[0]) && AllLawful(c, Next(c, w, moves[0]), moves[1..]))
  }

  /** What a move is to the connection: a completed write is a frame that leaves the queue. */
  function Seen(w: World, m: Move): seq<S.Input> {
    match m
    case Web(i) => [i]
    case Net(j) => if Completes(w.tcp, j) then [S.Pop(|w.tcp.queue[0].op.moved|)] else []
    case Write(_, _) => []
  }

  function AllSeen(c: S.Config, w: World, moves: seq<Move>): seq<S.Input>
    requires AllLawful(c, w, moves)
    decreases |moves|
  {
    if moves == [] then [] else Seen(w, moves[0]) + AllSeen(c, Next(c, w, moves[0]), moves[1..])
  }

  // ---------------------------------------------------------------- where the write is

  /** The writes among the work, in order. */
  function Writes(ws: seq<T.Work>): seq<T.Op> {
    if ws == [] then [] else WritesIn(ws[0]) + Writes(ws[1..])
  }

  function WritesIn(work: T.Work): seq<T.Op> {
    match work
    case Done(op, _) => if op.dir.Tx? then [op] else []
    case Cancel(_, tx, _) => T.Listed(tx)
  }

  lemma {:induction false} WritesAppend(a: seq<T.Work>, b: seq<T.Work>)
    ensures Writes(a + b) == Writes(a) + Writes(b)
  {
    hide WritesIn;
    if a == [] {
      assert a + b == b;
    } else {
      assert (a + b)[1..] == a[1..] + b;
      WritesAppend(a[1..], b);
    }
  }

  lemma WritesSnoc(a: seq<T.Work>, work: T.Work)
    ensures Writes(a + [work]) == Writes(a) + WritesIn(work)
  {
    hide WritesIn;
    WritesAppend(a, [work]);
    assert [work][1..] == [] && WritesIn(work) + [] == WritesIn(work);
  }

  lemma NoneOf(op: T.Option<T.Op>)
    requires op.Some? ==> op.value.dir.Rx?
    ensures Writes(T.Dones(op)) == []
  {
    if op.Some? {
      assert T.Dones(op)[1..] == [];
    }
  }

  lemma OneOf(op: T.Option<T.Op>)
    requires op.Some? ==> op.value.dir.Tx?
    ensures Writes(T.Dones(op)) == T.Listed(op)
  {
    if op.Some? {
      assert T.Dones(op)[1..] == [];
    }
  }

  predicate Idle(tcp: T.State) { tcp.tx.None? && Writes(tcp.queue) == [] }

  /** In its handler, which there is only on a connection. */
  predicate Active(tcp: T.State, op: T.Op) {
    tcp.tx == T.Some(op) && Writes(tcp.queue) == [] && tcp.connected
  }

  /** Over, its completion not called yet. */
  predicate Finished(tcp: T.State, op: T.Op) { tcp.tx.None? && Writes(tcp.queue) == [op] }

  predicate Has(tcp: T.State, op: T.Op) { Active(tcp, op) || Finished(tcp, op) }

  function TxStream(tcp: T.State): seq<byte> { T.Stream(tcp.traffic, T.Tx) }

  /** The handlers taken out are of the right kind. */
  predicate Sorted(work: T.Work) {
    work.Cancel? ==>
      && (work.rx.Some? ==> work.rx.value.dir.Rx?)
      && (work.tx.Some? ==> work.tx.value.dir.Tx?)
  }

  ghost predicate Kinds(tcp: T.State) {
    T.InTheirPlace(tcp) && forall k :: 0 <= k < |tcp.queue| ==> Sorted(tcp.queue[k])
  }

  lemma AttemptKinds(tcp: T.State, op: T.Op, res: T.Option<seq<byte>>)
    requires Kinds(tcp)
    ensures Kinds(T.Attempt(tcp, op, res))
  {
    hide Sorted;
    forall o, why ensures Sorted(T.Done(o, why)) {
      DoneSorted(o, why);
    }
  }

  lemma DoneSorted(op: T.Op, why: T.Why)
    ensures Sorted(T.Done(op, why))
  {
  }

  lemma StepKinds(tcp: T.State, j: T.Input)
    requires Kinds(tcp)
    ensures Kinds(T.Step(tcp, j))
  {
    hide T.Attempt;
    match j
    case Connected =>
    case Start(op, res) =>
      AttemptKinds(tcp, op, res);
    case Ready(dir, res) =>
      if T.Handler(tcp, dir).Some? {
        AttemptKinds(tcp, T.Handler(tcp, dir).value, res);
      }
    case Disconnect(cb) =>
    case Run =>
  }

  // -------- steps without the write

  /** A step that moves no octets to the socket leaves them, and calls no completion of a write. */
  predicate Quiet(tcp: T.State, tcp1: T.State) {
    && TxStream(tcp1) == TxStream(tcp) && Writes(tcp1.ran) == Writes(tcp.ran)
    && (tcp1.connected ==> tcp.connected)
  }

  /** The write stays where it is, or is cut off. */
  predicate StaysAbout(tcp: T.State, tcp1: T.State) {
    && (Idle(tcp) ==> Idle(tcp1))
    && (tcp.tx.Some? && Active(tcp, tcp.tx.value) ==>
          Active(tcp1, tcp.tx.value) || (Finished(tcp1, tcp.tx.value) && !tcp1.connected))
    && (|Writes(tcp.queue)| == 1 && Finished(tcp, Writes(tcp.queue)[0]) ==> Finished(tcp1, Writes(tcp.queue)[0]))
  }

  lemma ReadStep(tcp: T.State, op: T.Op, res: T.Option<seq<byte>>)
    requires op.dir.Rx?
    ensures var tcp1 := T.Attempt(tcp, op, res); Quiet(tcp, tcp1) && StaysAbout(tcp, tcp1)
  {
    hide T.Stream, Writes;
    if res.Some? {
      var op1 := op.(moved := op.moved + res.value);
      T.StreamSnoc(tcp.traffic, T.Chunk(op.id, op.dir, res.value), T.Tx);
      assert TxStream(tcp) + [] == TxStream(tcp);
      WritesSnoc(tcp.queue, T.Done(op1, T.Ended));
      WritesSnoc(tcp.queue, T.Done(op1, T.Moved));
      assert Writes(tcp.queue) + [] == Writes(tcp.queue);
    }
  }

  lemma CutStep(tcp: T.State, cb: T.Option<nat>)
    requires Kinds(tcp)
    ensures var tcp1 := T.Step(tcp, T.Disconnect(cb)); Quiet(tcp, tcp1) && StaysAbout(tcp, tcp1)
  {
    hide T.Stream, Writes;
    WritesSnoc(tcp.queue, T.Cancel(tcp.rx, tcp.tx, cb));
    assert Writes(tcp.queue) + [] == Writes(tcp.queue);
  }

  lemma WorkStep(tcp: T.State)
    requires Kinds(tcp) && !Completes(tcp, T.Run)
    requires Idle(tcp) || (exists op :: Has(tcp, op))
    ensures var tcp1 := T.Step(tcp, T.Run); Quiet(tcp, tcp1) && StaysAbout(tcp, tcp1)
  {
    hide T.Stream, Writes, T.Dones;
    T.RunIs(tcp);
    if tcp.queue != [] {
      var head, rest := tcp.queue[0], tcp.queue[1..];
      assert tcp.queue == [head] + rest;
      WritesSnoc([], head);
      WritesNone();
      assert [] + [head] == [head] && [] + WritesIn(head) == WritesIn(head);
      WritesAppend([head], rest);
      if head.Done? {
        WritesSnoc(tcp.ran, head);
        assert Writes(tcp.ran) + [] == Writes(tcp.ran) && [] + Writes(rest) == Writes(rest);
      } else {
        WritesAppend(rest + T.Dones(head.rx), T.Dones(head.tx));
        WritesAppend(rest, T.Dones(head.rx));
        NoneOf(head.rx);
        OneOf(head.tx);
        assert Writes(rest) + [] == Writes(rest);
      }
    }
  }

  lemma WritesNone()
    ensures Writes([]) == []
  {
  }

  /** Every step other than one of the write itself. */
  lemma OtherStep(tcp: T.State, j: T.Input)
    requires Kinds(tcp) && !Completes(tcp, j) && !j.Connected? && !(j.Start? && j.op.dir.Tx?)
    requires j.Ready? && j.dir.Tx? ==> tcp.tx.None?
    requires Idle(tcp) || (exists op :: Has(tcp, op))
    ensures var tcp1 := T.Step(tcp, j); Quiet(tcp, tcp1) && StaysAbout(tcp, tcp1)
  {
    hide T.Stream, Writes, T.Attempt;
    match j
    case Start(op, res) =>
      if !T.Refused(tcp, op) {
        if tcp.connected {
          ReadStep(tcp, op, res);
        } else {
          WritesSnoc(tcp.queue, T.Done(op, T.Unconnected));
          assert Writes(tcp.queue) + [] == Writes(tcp.queue);
        }
      }
    case Ready(dir, res) =>
      if T.Handler(tcp, dir).Some? {
        ReadStep(tcp, T.Handler(tcp, dir).value, res);
      }
    case Disconnect(cb) => CutStep(tcp, cb);
    case Run => WorkStep(tcp);
  }

  // -------- steps of the write

  /** The write has gone on from `op` to `op1`. */
  predicate GoesOn(tcp: T.State, tcp1: T.State, op: T.Op, op1: T.Op) {
    && op1.(moved := op.moved) == op && |op.moved| <= |op1.moved|
    && op1.moved[..|op.moved|] == op.moved && op1.moved <= op1.data
    && TxStream(tcp1) == TxStream(tcp) + op1.moved[|op.moved|..]
    && Writes(tcp1.ran) == Writes(tcp.ran) && tcp1.connected == tcp.connected
  }

  /** An attempt to write, of a new transfer or of the one in the handler. */
  lemma AttemptStep(tcp: T.State, op: T.Op, res: T.Option<seq<byte>>)
    requires tcp.connected && Writes(tcp.queue) == [] && (tcp.tx.None? || tcp.tx == T.Some(op))
    requires op.dir.Tx? && op.all && op.size == |op.data| && op.moved <= op.data && T.Possible(op, res)
    ensures var tcp1 := T.Attempt(tcp, op, res);
      var op1 := if res.None? then op else op.(moved := op.moved + res.value);
      && GoesOn(tcp, tcp1, op, op1)
      && (Active(tcp1, op1) || (Finished(tcp1, op1) && (|op1.moved| == op1.size || res == T.Some([]))))
  {
    hide T.Stream, Writes;
    if res.Some? {
      var op1 := op.(moved := op.moved + res.value);
      T.StreamSnoc(tcp.traffic, T.Chunk(op.id, op.dir, res.value), T.Tx);
      assert op1.moved[|op.moved|..] == res.value && op1.moved[..|op.moved|] == op.moved;
      WritesSnoc(tcp.queue, T.Done(op1, T.Ended));
      WritesSnoc(tcp.queue, T.Done(op1, T.Moved));
      assert [] + [op1] == [op1];
    } else {
      assert TxStream(tcp) + op.moved[|op.moved|..] == TxStream(tcp);
    }
  }

  /** The write without a connection. */
  lemma RefusedStep(tcp: T.State, op: T.Op)
    requires !tcp.connected && Idle(tcp) && op.dir.Tx? && op.moved == []
    ensures var tcp1 := T.Push(tcp.(past := tcp.past + [op]), T.Done(op, T.Unconnected));
      GoesOn(tcp, tcp1, op, op) && Finished(tcp1, op)
  {
    hide T.Stream, Writes;
    WritesSnoc(tcp.queue, T.Done(op, T.Unconnected));
    assert [] + [op] == [op];
    assert TxStream(tcp) + op.moved[|op.moved|..] == TxStream(tcp);
  }

  /** The completion is called. */
  lemma CompletedStep(tcp: T.State, op: T.Op)
    requires Has(tcp, op) && Completes(tcp, T.Run)
    ensures var tcp1 := T.Step(tcp, T.Run);
      && op == tcp.queue[0].op && Finished(tcp, op) && Idle(tcp1) && TxStream(tcp1) == TxStream(tcp)
      && Writes(tcp1.ran) == Writes(tcp.ran) + [op] && tcp1.connected == tcp.connected
  {
    hide T.Stream, Writes;
    var head, rest := tcp.queue[0], tcp.queue[1..];
    assert tcp.queue == [head] + rest;
    WritesNone();
    WritesSnoc([], head);
    assert [] + [head] == [head] && [] + WritesIn(head) == WritesIn(head);
    WritesAppend([head], rest);
    assert Writes(tcp.queue)[0] == head.op;
    WritesSnoc(tcp.ran, head);
  }

  // ---------------------------------------------------------------- what both machines keep

  /** Nothing will be taken any more. */
  predicate Over(w: World) { w.dead || !w.tcp.connected }

  /** The write under way is that of the next frame. */
  predicate Ours(w: World, op: T.Op)
    requires w.web.popped < |w.web.sent|
  {
    && op == WriteOf(w.web, op.id).(moved := op.moved) && op.moved <= op.data
    && TxStream(w.tcp) == w.web.wire + op.moved
    && (w.web.whole < w.web.popped ==> op.moved == [])
    && (Finished(w.tcp, op) && |op.moved| < op.size ==> Over(w))
  }

  /** The writes completed are those of the frames that have left the queue, those in full come first. */
  ghost predicate Accounted(w: World) {
    var done := Writes(w.tcp.ran);
    && |done| == w.web.popped <= |w.web.sent|
    && forall i :: 0 <= i < |done| ==>
         && done[i].data == Serialise(w.web.sent[i].frame) && done[i].size == |done[i].data|
         && (|done[i].moved| == done[i].size <==> i < w.web.whole)
  }

  ghost predicate Underway(w: World) {
    w.web.popped < |w.web.sent| && exists op :: Has(w.tcp, op) && Ours(w, op)
  }

  ghost predicate Joined(w: World) {
    && Kinds(w.tcp) && Sending.OnWire(w.web) && Accounted(w)
    && (w.web.whole < w.web.popped ==> Over(w))
    && (if w.busy then Underway(w) else Idle(w.tcp) && TxStream(w.tcp) == w.web.wire)
  }

  lemma BegunJoined()
    ensures Joined(Begun)
  {
    Sending.OpenedOnWire();
  }

  /** A step of the connection only adds frames behind. */
  lemma WebKeeps(c: S.Config, w: World, i: S.Input)
    requires Joined(w) && !i.Pop?
    ensures Joined(w.(web := S.Step(c, w.web, i)))
  {
    hide Kinds, Sending.OnWire, S.Step, Serialise, Writes, Sending.Acks, T.Stream;
    Sending.OtherAdds(c, w.web, i);
    Sending.AddsKeeps(w.web, S.Step(c, w.web, i));
    var w1 := w.(web := S.Step(c, w.web, i));
    assert w1.web.sent[..|w.web.sent|] == w.web.sent;
    if w.busy {
      var op :| Has(w.tcp, op) && Ours(w, op);
      assert WriteOf(w1.web, op.id) == WriteOf(w.web, op.id);
      assert Has(w1.tcp, op) && Ours(w1, op);
    }
  }

  /** What leaves the queue with a completed write. */
  lemma PopParts(c: S.Config, web: S.State, room: nat)
    requires web.popped < |web.sent|
    ensures var web1 := S.PopFrame(c, web, room); var h := S.Handed(web, room);
      web.sent <= web1.sent && web1.popped == h.popped && web1.whole == h.whole && web1.wire == h.wire
  {
    hide S.ActAll, Sending.Acks, Serialise, S.TakenWhole, S.Taken;
    var h := S.Handed(web, room);
    match web.sent[web.popped].after
    case Nothing =>
    case Tell(tag) =>
      var web2 := S.Emit(h, true, S.OnSent(tag, S.TakenWhole(web, room)));
      Sending.ActAllAdds(c, web2, c.app(web2.log));
    case Notify(code, reason) =>
      var web2 := S.Emit(h, true, S.OnClose(code, reason));
      Sending.ActAllAdds(c, web2, c.app(web2.log));
  }

  /** The socket has taken of the frame what the write has moved. */
  lemma TakenIsMoved(w: World, op: T.Op)
    requires w.web.whole <= w.web.popped < |w.web.sent| && Ours(w, op)
    ensures S.Taken(w.web, |op.moved|) == |op.moved|
    ensures S.TakenWhole(w.web, |op.moved|) <==> |op.moved| == op.size
    ensures var h := S.Handed(w.web, |op.moved|);
      && h.popped == w.web.popped + 1 && h.wire == TxStream(w.tcp)
      && h.whole == w.web.whole + (if |op.moved| == op.size then 1 else 0)
  {
    hide Serialise, T.Stream;
    var image := Serialise(w.web.sent[w.web.popped].frame);
    assert op.data == image && op.size == |image|;
    assert image[..|op.moved|] == op.moved;
  }

  lemma CompletedKeeps(c: S.Config, w: World)
    requires Joined(w) && w.busy && Completes(w.tcp, T.Run) && LawfulBelow(w, T.Run)
    ensures Joined(Next(c, w, Net(T.Run)))
  {
    hide Kinds, Sending.OnWire, S.PopFrame, Serialise, Writes, T.Stream, S.Handed, T.Step, S.Taken, S.TakenWhole;
    var w1 := Next(c, w, Net(T.Run));
    var op :| Has(w.tcp, op) && Ours(w, op);
    StepKinds(w.tcp, T.Run);
    CompletedStep(w.tcp, op);
    Sending.WholeFits(w.web);
    Sending.PopKeepsWire(c, w.web, |op.moved|);
    PopParts(c, w.web, |op.moved|);
    TakenIsMoved(w, op);
    var done, done1 := Writes(w.tcp.ran), Writes(w1.tcp.ran);
    forall i | 0 <= i < |done1|
      ensures done1[i].data == Serialise(w1.web.sent[i].frame) && done1[i].size == |done1[i].data|
      ensures |done1[i].moved| == done1[i].size <==> i < w1.web.whole
    {
      assert w1.web.sent[i] == w.web.sent[i];
      assert i < |done| ==> done1[i] == done[i];
    }
  }

  lemma BelowKeeps(c: S.Config, w: World, j: T.Input)
    requires Joined(w) && Lawful(w, Net(j)) && !Completes(w.tcp, j)
    ensures Joined(Below(w, j))
  {
    hide Kinds, Sending.OnWire, Serialise, Writes, T.Stream, T.Step, Idle, Active, Finished;
    var w1 := Below(w, j);
    StepKinds(w.tcp, j);
    if w.busy {
      var op :| Has(w.tcp, op) && Ours(w, op);
      if j.Ready? && j.dir.Tx? && w.tcp.tx.Some? {
        ReadyKeeps(w, j, op);
      } else {
        OtherStep(w.tcp, j);
        OtherKeeps(w, j, op);
      }
    } else {
      IdleHas(w.tcp);
      OtherStep(w.tcp, j);
    }
  }

  lemma IdleHas(tcp: T.State)
    requires Idle(tcp)
    ensures tcp.tx.None?
  {
  }

  lemma OtherKeeps(w: World, j: T.Input, op: T.Op)
    requires w.web.popped < |w.web.sent| && Has(w.tcp, op) && Ours(w, op)
    requires Quiet(w.tcp, T.Step(w.tcp, j)) && StaysAbout(w.tcp, T.Step(w.tcp, j))
    ensures Has(Below(w, j).tcp, op) && Ours(Below(w, j), op)
  {
    hide Serialise, Writes, T.Stream, T.Step;
    assert Active(w.tcp, op) || Finished(w.tcp, op);
  }

  /** The write in the handler goes on. */
  lemma ReadyKeeps(w: World, j: T.Input, op: T.Op)
    requires w.web.popped < |w.web.sent| && Has(w.tcp, op) && Ours(w, op)
    requires j.Ready? && j.dir.Tx? && w.tcp.tx.Some? && LawfulBelow(w, j)
    requires w.web.whole < w.web.popped ==> Over(w)
    ensures Below(w, j).web == w.web && Underway(Below(w, j))
    ensures Writes(Below(w, j).tcp.ran) == Writes(w.tcp.ran)
    ensures Over(w) ==> Over(Below(w, j))
  {
    hide Serialise, Writes, T.Stream, T.Attempt;
    AttemptStep(w.tcp, op, j.res);
    var op1 := if j.res.None? then op else op.(moved := op.moved + j.res.value);
    assert T.Step(w.tcp, j) == T.Attempt(w.tcp, op, j.res);
    GoneOn(w, Below(w, j), op, op1);
  }

  /** A write that has gone on is still that of the next frame. */
  lemma GoneOn(w: World, w1: World, op: T.Op, op1: T.Op)
    requires w.web.popped < |w.web.sent| && w1.web == w.web && GoesOn(w.tcp, w1.tcp, op, op1)
    requires op == WriteOf(w.web, op.id).(moved := op.moved) && TxStream(w.tcp) == w.web.wire + op.moved
    requires w.web.whole < w.web.popped ==> op1.moved == []
    requires Has(w1.tcp, op1) && (Finished(w1.tcp, op1) && |op1.moved| < op1.size ==> Over(w1))
    ensures Underway(w1)
  {
    hide Serialise, Writes, T.Stream, Finished, Active;
    assert op1.moved == op.moved + op1.moved[|op.moved|..];
    assert w.web.wire + op1.moved == w.web.wire + op.moved + op1.moved[|op.moved|..];
    assert Ours(w1, op1);
  }

  /** The send task takes the next frame. */
  lemma WriteKeeps(c: S.Config, w: World, id: nat, res: T.Option<seq<byte>>)
    requires Joined(w) && Lawful(w, Write(id, res))
    ensures Joined(Next(c, w, Write(id, res)))
  {
    hide Kinds, Sending.OnWire, Serialise, Writes, T.Stream, T.Attempt;
    var op := WriteOf(w.web, id);
    var j := T.Start(op, res);
    var w1 := Next(c, w, Write(id, res));
    StepKinds(w.tcp, j);
    assert TxStream(w.tcp) == w.web.wire + op.moved;
    if w.tcp.connected {
      AttemptStep(w.tcp, op, res);
      GoneOn(w, w1, op, if res.None? then op else op.(moved := op.moved + res.value));
    } else {
      RefusedStep(w.tcp, op);
      GoneOn(w, w1, op, op);
    }
  }

  lemma NextKeeps(c: S.Config, w: World, m: Move)
    requires Joined(w) && Lawful(w, m)
    ensures Joined(Next(c, w, m))
    ensures Next(c, w, m).web == S.Run(c, w.web, Seen(w, m))
  {
    hide Joined, S.Step, S.PopFrame, Below, Underway;
    match m
    case Web(i) =>
      WebKeeps(c, w, i);
      RunSingle(c, w.web, i);
    case Net(j) =>
      if Completes(w.tcp, j) {
        CompletesBusy(w, j);
        CompletedKeeps(c, w);
        RunSingle(c, w.web, S.Pop(|w.tcp.queue[0].op.moved|));
        Sending.PopIs(c, w.web, |w.tcp.queue[0].op.moved|);
      } else {
        BelowKeeps(c, w, j);
      }
      BelowWeb(w, j);
    case Write(id, res) =>
      WriteKeeps(c, w, id, res);
      BelowWeb(w, T.Start(WriteOf(w.web, id), res));
  }

  lemma BelowWeb(w: World, j: T.Input)
    ensures Below(w, j).web == w.web && Below(w, j).busy == w.busy
  {
  }

  lemma RunSingle(c: S.Config, web: S.State, i: S.Input)
    ensures S.Run(c, web, [i]) == S.Step(c, web, i)
  {
    hide S.Step;
    assert [i][1..] == [];
  }

  lemma CompletesBusy(w: World, j: T.Input)
    requires Joined(w) && Completes(w.tcp, j)
    ensures w.busy
  {
    hide Kinds, Sending.OnWire, Accounted, Underway;
    assert w.tcp.queue == [w.tcp.queue[0]] + w.tcp.queue[1..];
  }

  lemma {:induction false} GoKeeps(c: S.Config, w: World, moves: seq<Move>)
    requires Joined(w) && AllLawful(c, w, moves)
    ensures Joined(Go(c, w, moves))
    ensures Go(c, w, moves).web == S.Run(c, w.web, AllSeen(c, w, moves))
    decreases |moves|
  {
    hide Joined, Next, Lawful, Seen, S.Run;
    if moves == [] {
      RunNone(c, w.web);
    } else {
      NextKeeps(c, w, moves[0]);
      var w1 := Next(c, w, moves[0]);
      GoKeeps(c, w1, moves[1..]);
      SessionSafety.RunAppend(c, w.web, Seen(w, moves[0]), AllSeen(c, w1, moves[1..]));
    }
  }

  lemma RunNone(c: S.Config, web: S.State)
    ensures S.Run(c, web, []) == web
  {
  }

  // ---------------------------------------------------------------- every run of both

  /** The write under way, in its handler or waiting for its completion to be called. */
  function Current(tcp: T.State): T.Option<T.Op> {
    if tcp.tx.Some? then tcp.tx else if Writes(tcp.queue) != [] then T.Some(Writes(tcp.queue)[0]) else T.None
  }

  lemma CurrentIs(tcp: T.State)
    ensures Idle(tcp) ==> Current(tcp).None?
    ensures forall op :: Has(tcp, op) ==> Current(tcp) == T.Some(op)
  {
    hide Writes;
  }

  /** What the callbacks of the frames are called with: whether the write has moved everything. */
  function Called(queue: seq<S.Queued>, done: seq<T.Op>): seq<(nat, bool)>
    requires |queue| == |done|
  {
    if queue == [] then []
    else
      var n := |queue| - 1;
      Called(queue[..n], done[..n])
      + if queue[n].after.Tell? then [(queue[n].after.tag, |done[n].moved| == done[n].size)] else []
  }

  lemma {:induction false} CalledIs(queue: seq<S.Queued>, done: seq<T.Op>, whole: nat)
    requires |queue| == |done|
    requires forall i :: 0 <= i < |done| ==> (|done[i].moved| == done[i].size <==> i < whole)
    ensures Called(queue, done) == Sending.Answers(queue, whole)
  {
    if queue != [] {
      CalledIs(queue[..|queue| - 1], done[..|queue| - 1], whole);
    }
  }

  /**
    * Every run of the send task over the TCP client is a run of the connection in which a completed
    * write is a frame that leaves the queue. The octets the socket has taken are those on the wire
    * and then what the write under way has moved; the writes completed carry the images of the
    * frames that have left, in order; exactly those taken in full have moved everything; and the
    * callbacks of the frames have been called with just that.
    */
  lemma WritesArePops(c: S.Config, moves: seq<Move>)
    requires AllLawful(c, Begun, moves)
    ensures Go(c, Begun, moves).web == S.Run(c, S.Opened, AllSeen(c, Begun, moves))
    ensures var w := Go(c, Begun, moves); TxStream(w.tcp) == w.web.wire + T.MovedIn(Current(w.tcp))
    ensures var w := Go(c, Begun, moves); w.busy <==> Current(w.tcp).Some?
    ensures Accounted(Go(c, Begun, moves))
    ensures var w := Go(c, Begun, moves);
      Sending.Acks(w.web.log) == Called(w.web.sent[..w.web.popped], Writes(w.tcp.ran))
  {
    hide Go, AllSeen, S.Run, Kinds, Has, Idle, Writes, Current, T.Stream, Serialise;
    BegunJoined();
    GoKeeps(c, Begun, moves);
    var w := Go(c, Begun, moves);
    CurrentIs(w.tcp);
    assert w.web.wire + [] == w.web.wire;
    CalledIs(w.web.sent[..w.web.popped], Writes(w.tcp.ran), w.web.whole);
  }

  /** The frames that the socket has taken to the last octet, the one being written among them. */
  function Arrived(w: World): nat {
    var op := Current(w.tcp);
    w.web.whole + if op.Some? && |op.value.moved| == op.value.size then 1 else 0
  }

  /**
    * From all the octets the socket has taken a server reads exactly those frames, whether or not
    * their callbacks have been called yet.
    */
  lemma StreamIsRead(c: S.Config, moves: seq<Move>)
    requires AllLawful(c, Begun, moves) && Sending.AllSendable(Go(c, Begun, moves).web)
    ensures var w := Go(c, Begun, moves);
      Arrived(w) <= |w.web.sent| && Receive(TxStream(w.tcp)).sent == Sending.FramesOf(w.web.sent[..Arrived(w)])
  {
    hide Go, Kinds, Accounted, Has, Idle, Writes, Current, T.Stream, Serialise, Receive, Sending.OnWire;
    BegunJoined();
    GoKeeps(c, Begun, moves);
    var w := Go(c, Begun, moves);
    CurrentIs(w.tcp);
    Sending.WholeFits(w.web);
    Sending.ServerReads(w.web);
    if w.busy {
      var op :| Has(w.tcp, op) && Ours(w, op);
      if w.web.whole < w.web.popped {
        assert w.web.wire + [] == w.web.wire;
        assert op.size > 0;
      } else {
        WritingIsRead(w, op);
      }
    }
  }

  lemma WritingIsRead(w: World, op: T.Op)
    requires Sending.OnWire(w.web) && Sending.AllSendable(w.web)
    requires w.web.whole == w.web.popped < |w.web.sent| && Ours(w, op)
    ensures var n := w.web.whole + (if |op.moved| == op.size then 1 else 0);
      Receive(TxStream(w.tcp)).sent == Sending.FramesOf(w.web.sent[..n])
  {
    hide T.Stream, Serialise, Receive, SerialiseAll, Sending.Acks, Sending.Answers;
    var n := w.web.whole;
    var ss, next := Sending.FramesOf(w.web.sent[..n]), w.web.sent[n].frame;
    assert Sendable(ss) && op.data == Serialise(next);
    if |op.moved| == op.size {
      assert op.moved == Serialise(next);
      assert w.web.sent[..n + 1] == w.web.sent[..n] + [w.web.sent[n]];
      assert Sending.FramesOf(w.web.sent[..n + 1]) == ss + [next];
      Sending.SerialiseSnoc(ss, next);
      SerialiserRoundTrip(ss + [next]);
    } else {
      CutStream(ss, next, op.moved);
    }
  }
}
