/**
  * End to end: what of a stream of frames is delivered, however it is encoded and read and whatever
  * the application does meanwhile, up to its first fault or Close.
  */
module Endings {
  import opened Bytes
  import opened Frames
  import opened Session
  import opened SessionSafety
  import opened ConnectionLaws
  import opened Protocol
  import opened Delivery
  import Chunking
  import Sending
  import Utf8

  // ---------------------------------------------------------------- cutting a run at an octet

  lemma {:induction false} SplitRun(c: Config, st: State, run: seq<Input>, n: nat)
    returns (a: seq<Input>, b: seq<Input>)
    requires Inv(c, st) && StaysConnected(run) && n <= |Reads(run)|
    ensures StaysConnected(a) && StaysConnected(b)
    ensures Reads(a) == Reads(run)[..n] && Reads(b) == Reads(run)[n..]
    ensures Run(c, Run(c, st, a), b) == Run(c, st, run)
    ensures n == 0 ==> a == []
    ensures n > 0 ==> a != [] && a[|a| - 1].Data? && a[|a| - 1].chunk != []
    decreases |run|
  {
    hide Inv, Step, Reads;
    ReadsNone();
    if n == 0 {
      a, b := [], run;
    } else {
      HasReads(run);
      var i, rest := run[0], run[1..];
      assert run == [i] + rest;
      ReadsCons(i, rest);
      var head := ChunkOf(i);
      if n < |head| {
        a, b := [Data(head[..n])], [Data(head[n..])] + rest;
        SplitChunk(c, st, head, rest, n);
      } else {
        StepKeeps(c, st, i);
        var a1;
        Pieces(head, Reads(rest), n);
        a1, b := SplitRun(c, Step(c, st, i), rest, n - |head|);
        a := [i] + a1;
        assert a[1..] == a1;
        ReadsCons(i, a1);
      }
    }
  }

  /** The cut between two pieces of what is read. */
  lemma {:induction false} SplitBetween(c: Config, st: State, run: seq<Input>, x: seq<byte>, y: seq<byte>)
    returns (a: seq<Input>, b: seq<Input>)
    requires Inv(c, st) && StaysConnected(run) && Reads(run) == x + y
    ensures StaysConnected(a) && StaysConnected(b) && Reads(a) == x && Reads(b) == y
    ensures Run(c, Run(c, st, a), b) == Run(c, st, run)
    ensures x != [] ==> a != [] && a[|a| - 1].Data? && a[|a| - 1].chunk != []
  {
    hide Inv, Run, Reads, StaysConnected;
    a, b := SplitRun(c, st, run, |x|);
  }

  /** The cut within a read. */
  lemma SplitChunk(c: Config, st: State, chunk: seq<byte>, rest: seq<Input>, n: nat)
    requires Inv(c, st) && n < |chunk|
    ensures var a, b := [Data(chunk[..n])], [Data(chunk[n..])] + rest;
      && Reads(a) == chunk[..n] && Reads(b) == chunk[n..] + Reads(rest)
      && Run(c, Run(c, st, a), b) == Run(c, st, [Data(chunk)] + rest)
  {
    hide Inv, Step, Reads;
    var a, b := [Data(chunk[..n])], [Data(chunk[n..])] + rest;
    assert chunk == chunk[..n] + chunk[n..] && b[1..] == rest && ([Data(chunk)] + rest)[1..] == rest;
    assert a == a + [] && chunk[..n] + [] == chunk[..n];
    ReadsNone();
    ReadsCons(a[0], []);
    ReadsCons(b[0], rest);
    Chunking.InvLive(c, st);
    Chunking.TwoReads(c, st, chunk[..n], chunk[n..]);
    Chunking.RunOne(c, st, a[0]);
  }

  /** What one input reads. */
  function ChunkOf(i: Input): seq<byte> { if i.Data? then i.chunk else [] }

  lemma ReadsNone()
    ensures Reads([]) == []
  {
  }

  lemma ReadsCons(i: Input, rest: seq<Input>)
    ensures Reads([i] + rest) == ChunkOf(i) + Reads(rest)
  {
    assert ([i] + rest)[1..] == rest;
  }

  lemma HasReads(run: seq<Input>)
    requires Reads(run) != []
    ensures run != []
  {
  }

  lemma Pieces(h: seq<byte>, r: seq<byte>, n: nat)
    requires |h| <= n <= |h| + |r|
    ensures (h + r)[..n] == h + r[..n - |h|] && (h + r)[n..] == r[n - |h|..]
  {
  }

  // ---------------------------------------------------------------- the application adds no deliveries or pongs

  lemma {:induction false} ActAllPongs(c: Config, st: State, acts: seq<Action>)
    ensures AutoPongs(ActAll(c, st, acts).sent) == AutoPongs(st.sent)
    decreases |acts|
  {
    hide Act, AutoPongs;
    if acts != [] {
      ActPongs(c, st, acts[0]);
      ActAllPongs(c, Act(c, st, acts[0]), acts[1..]);
    }
  }

  lemma ActPongs(c: Config, st: State, a: Action)
    ensures AutoPongs(Act(c, st, a).sent) == AutoPongs(st.sent)
  {
    hide Utf8.Scan, AutoPongs, BigEndian;
    match a
    case Send(kind, payload, tag) =>
      AutoPongsSnoc(st.sent, Queued(Sent(OpOf(kind), payload, c.key(|st.sent|)), Tell(tag)));
    case Close(code, reason) =>
      var f := Sent(FIN + CLOSE, BigEndian(2, code) + reason, c.key(|st.sent|));
      AutoPongsSnoc(st.sent, Queued(f, Nothing));
      AutoPongsSnoc(st.sent, Queued(f, Notify(code, reason)));
  }

  // ---------------------------------------------------------------- the fault

  /** A Close frame the client takes for one. */
  predicate Closing(w: Wire) { w.mask.Plain? && CleanOp(w.op) == CLOSE && Rsv(w.op) == 0 }

  /** A frame that is masked, a Close, or illegal. */
  predicate Faulty(c: Config, a: Assembly, w: Wire) {
    w.mask.Masked? || CleanOp(w.op) == CLOSE || !Legal(c.mode, a, w.op, w.payload)
  }

  /** A masked frame in front of the buffer. */
  predicate Jammed(data: seq<byte>) { Look(data).Whole? && Look(data).masked }

  ghost predicate HasClose(sent: seq<Queued>) { exists i :: 0 <= i < |sent| && IsClose(sent[i]) }

  /**
    * After its first fault: nothing more delivered, a Close frame queued, no longer open. A Close has
    * closed the connection, and a masked frame stays in front of the buffer.
    */
  ghost predicate Faulted(st: State, st1: State, w: Wire) {
    && Delivered(st1.log) == Delivered(st.log) && AutoPongs(st1.sent) == AutoPongs(st.sent)
    && !st1.phase.Open? && HasClose(st1.sent) && (Closing(w) ==> st1.phase.Closed?)
    && (w.mask.Masked? ==> st1.phase.ClientClose? && Jammed(st1.data))
  }

  lemma HandledFault(c: Config, st: State, w: Wire)
    requires Ready(c.mode, st) && (st.phase.ClientClose? ==> HasClose(st.sent))
    requires w.mask.Plain? && Faulty(c, AssemblyOf(st), w)
    ensures Faulted(st, HandleFrame(c, st, w.op, w.payload), w)
  {
    hide HandleFrame, Legal, Ready, Delivered, AutoPongs, FaultCode, Look;
    var op, payload := w.op, w.payload;
    var st1 := HandleFrame(c, st, op, payload);
    var legal := Legal(c.mode, AssemblyOf(st), op, payload);
    Phases(c, st);
    if st.phase.Open? {
      if legal {
        LegalRsv(c.mode, AssemblyOf(st), op, payload);
        CloseEchoed(c, st, op, payload);
      } else {
        IllegalAnswered(c, st, op, payload);
      }
      OneMoreClose(st, st1);
    } else if Closing(w) {
      ReplyEnds(c, st, op, payload);
      DeliveredSnoc(st.log, OnClose(CloseCode(payload), CloseReason(payload)));
      assert st.log + [] == st.log;
    } else {
      if legal {
        LegalRsv(c.mode, AssemblyOf(st), op, payload);
      }
      IllegalIgnored(c, st, op, payload);
    }
  }

  lemma Phases(c: Config, st: State)
    requires Ready(c.mode, st)
    ensures st.phase.Open? || st.phase.ClientClose?
  {
  }

  lemma LegalRsv(m: Utf8.Mode, a: Assembly, op: byte, payload: seq<byte>)
    requires Legal(m, a, op, payload)
    ensures Rsv(op) == 0
  {
  }

  lemma OneMoreClose(st: State, st1: State)
    requires |st1.sent| == |st.sent| + 1 && st1.sent[..|st.sent|] == st.sent
    requires st1.sent[|st.sent|].frame.op == FIN + CLOSE
    ensures HasClose(st1.sent) && AutoPongs(st1.sent) == AutoPongs(st.sent)
  {
    hide AutoPongs;
    var q := st1.sent[|st.sent|];
    assert st1.sent == st.sent + [q] && IsClose(q);
    AutoPongsSnoc(st.sent, q);
  }

  lemma TakenFault(c: Config, st: State, f: Frame, w: Wire)
    requires f.head != [] && f.head[0] == w.op && f.payload == w.payload && w.mask.Plain?
    requires Ready(c.mode, st) && (st.phase.ClientClose? ==> HasClose(st.sent))
    requires Faulty(c, AssemblyOf(st), w)
    ensures Faulted(st, TakeFrame(c, st, f), w)
  {
    hide HandleFrame, Ready, Delivered, AutoPongs, ActAll, AssemblyOf, Closing, Faulty, Jammed;
    HandledFault(c, st, w);
    var st1 := HandleFrame(c, st, w.op, w.payload);
    ActAllPongs(c, st1, c.app(st1.log));
    ActAllDelivers(c, st1, c.app(st1.log));
    Sending.ActAllAdds(c, st1, c.app(st1.log));
    CloseStays(st1.sent, ActAll(c, st1, c.app(st1.log)).sent);
    ActAllRank(c, st1, c.app(st1.log));
  }

  lemma CloseStays(sent: seq<Queued>, later: seq<Queued>)
    requires HasClose(sent) && sent <= later
    ensures HasClose(later)
  {
    var i :| 0 <= i < |sent| && IsClose(sent[i]);
    assert IsClose(later[i]);
  }

  /** The application never reopens a connection. */
  lemma {:induction false} ActAllRank(c: Config, st: State, acts: seq<Action>)
    ensures !st.phase.Open? ==> !ActAll(c, st, acts).phase.Open?
    ensures st.phase.Closed? ==> ActAll(c, st, acts).phase.Closed?
    decreases |acts|
  {
    hide Utf8.Scan, BigEndian;
    if acts != [] {
      ActAllRank(c, Act(c, st, acts[0]), acts[1..]);
    }
  }

  // ---------------------------------------------------------------- the reads that carry it

  /** Less than the frame: the parser waits. */
  lemma PieceWaits(w: Wire, data: seq<byte>, more: seq<byte>)
    requires FitsForm(w) && data + more == Raw(FrameOf(w)) && more != []
    ensures Look(data).More?
  {
    hide Look, FrameOf;
    var f := FrameOf(w);
    FrameInFront(w, []);
    assert Raw(f) + [] == Raw(f);
    LookExtends(data, more);
    LookBounds(data);
  }

  lemma LookBounds(data: seq<byte>)
    ensures Look(data).Whole? ==> Look(data).total <= |data|
  {
  }

  lemma FaultTaken(c: Config, st: State, w: Wire)
    requires FitsForm(w) && Ready(c.mode, st) && (st.phase.ClientClose? ==> HasClose(st.sent))
    requires Faulty(c, AssemblyOf(st), w)
    requires st.data == Raw(FrameOf(w))
    ensures Faulted(st, Feed(c, st), w)
  {
    hide Look, FrameOf, Feed, TakeFrame, FrontFrame, Faulty, Ready, AssemblyOf, DoClose;
    hide Delivered, AutoPongs, HasClose, Closing;
    var f := FrameOf(w);
    FrameInFront(w, []);
    assert st.data + [] == st.data;
    Chunking.FeedUnfold(c, st);
    if w.mask.Masked? {
      MaskedFault(c, st, w);
    } else {
      TakenFault(c, st, f, w);
      var st1 := TakeFrame(c, st, f).(wanted := 2, data := st.data[|Raw(f)|..]);
      assert st1.data == [];
      Chunking.FeedUnfold(c, st1);
      EmptyWaits();
    }
  }

  /** A masked frame is answered with a Close frame, and stays where it is. */
  lemma MaskedFault(c: Config, st: State, w: Wire)
    requires Ready(c.mode, st) && (st.phase.ClientClose? ==> HasClose(st.sent))
    requires w.mask.Masked? && Jammed(st.data)
    ensures Faulted(st, DoClose(c, st.(wanted := Look(st.data).total), 1002, ProtocolError()), w)
  {
    hide Look, Delivered, AutoPongs, BigEndian;
    var st1 := DoClose(c, st.(wanted := Look(st.data).total), 1002, ProtocolError());
    if st.phase.Open? {
      OneMoreClose(st, st1);
    }
  }

  lemma EmptyWaits()
    ensures Look([]) == More(2)
  {
  }

  lemma InvHasClose(c: Config, st: State)
    requires Inv(c, st)
    ensures st.phase.ClientClose? ==> HasClose(st.sent)
  {
  }

  /** The fault is still to come: the frame is `w`, of which `more` has not been read yet. */
  ghost predicate Pending(c: Config, st: State, w: Wire, more: seq<byte>) {
    && Inv(c, st) && Ready(c.mode, st) && FitsForm(w)
    && Faulty(c, AssemblyOf(st), w)
    && st.data + more == Raw(FrameOf(w))
  }

  lemma LastRead(c: Config, st: State, w: Wire, chunk: seq<byte>)
    requires Pending(c, st, w, chunk)
    ensures Faulted(st, Step(c, st, Data(chunk)), w)
  {
    hide Inv, Ready, FrameOf, Faulty, AssemblyOf, Delivered, AutoPongs, HasClose, Closing, Feed;
    var st0 := st.(data := st.data + chunk);
    ParserFieldsFree(c, st, st0.data, st.wanted);
    ParserReady(c.mode, st, st0.data, st.wanted);
    InvHasClose(c, st0);
    FaultTaken(c, st0, w);
  }

  lemma EarlierRead(c: Config, st: State, w: Wire, chunk: seq<byte>, more: seq<byte>)
    requires Pending(c, st, w, chunk + more) && more != []
    ensures var st1 := Step(c, st, Data(chunk));
      && Pending(c, st1, w, more) && st1.log == st.log && st1.sent == st.sent
  {
    hide Inv, Ready, FrameOf, Faulty, AssemblyOf, Feed, Look, Raw;
    var st0 := st.(data := st.data + chunk);
    assert st0.data + more == st.data + (chunk + more);
    PieceWaits(w, st0.data, more);
    Chunking.FeedUnfold(c, st0);
    var wanted := Look(st0.data).wanted;
    ParserFieldsFree(c, st, st0.data, wanted);
    ParserReady(c.mode, st, st0.data, wanted);
    assert Step(c, st, Data(chunk)) == st.(data := st0.data, wanted := wanted);
  }

  lemma NoRead(c: Config, st: State, w: Wire, i: Input, more: seq<byte>)
    requires Pending(c, st, w, more) && (i.Do? || i.Pop?)
    ensures var st1 := Step(c, st, i);
      && Pending(c, st1, w, more)
      && Delivered(st1.log) == Delivered(st.log) && AutoPongs(st1.sent) == AutoPongs(st.sent)
  {
    hide Inv, Ready, FrameOf, Faulty, AssemblyOf, Delivered, AutoPongs, Step, Follows;
    StepKeeps(c, st, i);
    OtherStepFollows(c, st, i, []);
    FollowsNothing(c, st, Step(c, st, i));
  }

  /** A run that reads exactly the faulty frame and ends with the read that completes it. */
  lemma {:induction false} FaultRun(c: Config, st: State, run: seq<Input>, w: Wire)
    requires StaysConnected(run) && Pending(c, st, w, Reads(run))
    requires run != [] && run[|run| - 1].Data? && run[|run| - 1].chunk != []
    ensures Faulted(st, Run(c, st, run), w)
    decreases |run|
  {
    hide Pending, Step, Delivered, AutoPongs, HasClose, Closing;
    var i, rest := run[0], run[1..];
    if rest == [] {
      assert i.chunk + [] == i.chunk;
      Chunking.RunOne(c, st, i);
      LastRead(c, st, w, i.chunk);
    } else {
      assert rest[|rest| - 1] == run[|run| - 1];
      ReadsNotEmpty(rest);
      if i.Data? {
        EarlierRead(c, st, w, i.chunk, Reads(rest));
      } else {
        assert [] + Reads(rest) == Reads(rest);
        NoRead(c, st, w, i, Reads(rest));
      }
      FaultRun(c, Step(c, st, i), rest, w);
    }
  }

  lemma ReadsNotEmpty(run: seq<Input>)
    requires run != [] && run[|run| - 1].Data? && run[|run| - 1].chunk != []
    ensures Reads(run) != []
    decreases |run|
  {
    if |run| > 1 {
      ReadsNotEmpty(run[1..]);
    }
  }

  lemma ParserReady(m: Utf8.Mode, st: State, data: seq<byte>, wanted: nat)
    requires Ready(m, st)
    ensures Ready(m, st.(data := data, wanted := wanted))
    ensures AssemblyOf(st.(data := data, wanted := wanted)) == AssemblyOf(st)
  {
  }

  lemma FollowsNothing(c: Config, st: State, st1: State)
    requires Follows(c, st, [], st1, [])
    ensures Ready(c.mode, st1) && AssemblyOf(st1) == AssemblyOf(st)
    ensures Delivered(st1.log) == Delivered(st.log) && AutoPongs(st1.sent) == AutoPongs(st.sent)
  {
    hide Delivered, AutoPongs, Ready;
    ThroughNone(c, AssemblyOf(st));
    ThroughNone(c, AssemblyOf(st1));
    assert Delivered(st1.log) + [] == Delivered(st1.log) && Delivered(st.log) + [] == Delivered(st.log);
    assert AutoPongs(st1.sent) + [] == AutoPongs(st1.sent) && AutoPongs(st.sent) + [] == AutoPongs(st.sent);
  }

  // ---------------------------------------------------------------- behind a masked frame

  /** Whatever the application is notified of is that the connection is lost. */
  predicate OnlyLost(log: seq<Event>) {
    forall i :: 0 <= i < |log| && log[i].OnClose? ==> log[i] == OnClose(1006, ConnectionLost())
  }

  /** A masked frame is in the way and no notification waits to be given. */
  predicate Shut(st: State) {
    && Jammed(st.data) && (st.phase.ClientClose? || st.phase.Closed?)
    && (forall i :: st.popped <= i < |st.sent| ==> !st.sent[i].after.Notify?)
    && OnlyLost(st.log)
  }

  /** It stays so; nothing is queued or delivered. */
  predicate StaysShut(st: State, st1: State) {
    Shut(st1) && st1.sent == st.sent && Delivered(st1.log) == Delivered(st.log)
  }

  lemma {:induction false} ActAllShut(c: Config, st: State, acts: seq<Action>)
    requires Shut(st)
    ensures var st1 := ActAll(c, st, acts); StaysShut(st, st1) && st1.phase == st.phase
    decreases |acts|
  {
    hide Utf8.Scan, Look, ConnectionLost, Delivered, BigEndian;
    if acts != [] {
      if acts[0].Send? {
        DeliveredSnoc(st.log, OnRefused(acts[0].tag));
      }
      ActAllShut(c, Act(c, st, acts[0]), acts[1..]);
    }
  }

  lemma ShutReads(c: Config, st: State, chunk: seq<byte>)
    requires Shut(st)
    ensures var st1 := Step(c, st, Data(chunk));
      StaysShut(st, st1) && st1.phase == st.phase && st1.log == st.log
  {
    hide Look, ConnectionLost, Delivered, BigEndian, Feed;
    Chunking.FeedUnfold(c, st.(data := st.data + chunk));
    LookExtends(st.data, chunk);
  }

  lemma ShutPops(c: Config, st: State, room: nat)
    requires Shut(st)
    ensures var st1 := Step(c, st, Pop(room)); StaysShut(st, st1) && st1.phase == st.phase
  {
    hide Jammed, ConnectionLost, Delivered, ActAll, TakenWhole, Serialise;
    if st.popped < |st.sent| {
      var after, st1 := st.sent[st.popped].after, Handed(st, room);
      if after.Tell? {
        var e := OnSent(after.tag, TakenWhole(st, room));
        DeliveredSnoc(st.log, e);
        ActAllShut(c, Emit(st1, true, e), c.app(st.log + [e]));
      }
    }
  }

  lemma ShutEnds(c: Config, st: State)
    requires Shut(st)
    ensures var st1 := Step(c, st, Gone); StaysShut(st, st1) && st1.phase.Closed?
  {
    hide Jammed, ConnectionLost, Delivered, ActAll;
    var e := OnClose(1006, ConnectionLost());
    var st1 := st.(phase := Closed);
    if st.phase.ClientClose? && c.hasClose {
      DeliveredSnoc(st.log, e);
      ActAllShut(c, Emit(st1, true, e), c.app(st.log + [e]));
    }
  }

  /**
    * Behind a masked frame nothing the server sends is ever taken again, its Close frame included:
    * whatever happens, nothing is delivered or queued any more, and the connection closes if and
    * only if the stream ends, with the notification that it is lost.
    */
  lemma {:induction false} ShutRun(c: Config, st: State, run: seq<Input>)
    requires Shut(st)
    ensures var st1 := Run(c, st, run);
      StaysShut(st, st1) && st1.phase == if StaysConnected(run) then st.phase else Closed
    decreases |run|
  {
    hide Shut, Step, Delivered;
    if run != [] {
      var i, rest := run[0], run[1..];
      match i {
        case Data(chunk) => ShutReads(c, st, chunk);
        case Gone => ShutEnds(c, st);
        case Do(action) => ShutActs(c, st, action);
        case Pop(room) => ShutPops(c, st, room);
      }
      ShutRun(c, Step(c, st, i), rest);
      assert run == [i] + rest;
    }
  }

  lemma ShutActs(c: Config, st: State, a: Action)
    requires Shut(st)
    ensures var st1 := Step(c, st, Do(a)); StaysShut(st, st1) && st1.phase == st.phase
  {
    hide Shut, Delivered, Act;
    ActAllShut(c, st, [a]);
    assert [a][1..] == [];
  }

  /** Until then nobody has been notified of anything. */
  lemma ShutFrom(c: Config, st: State)
    requires Inv(c, st) && st.phase.ClientClose? && Jammed(st.data)
    ensures Shut(st)
  {
    hide ClosesOnce, Tied, Fired, Waiting, Jammed;
    NoticesKnown(c, st);
    FiredNone(st.log);
    WaitingNone(st.sent[st.popped..]);
    forall i | st.popped <= i < |st.sent| ensures !st.sent[i].after.Notify? {
      assert st.sent[i] == st.sent[st.popped..][i - st.popped];
    }
  }

  lemma {:induction false} WaitingNone(queue: seq<Queued>)
    requires Waiting(queue) == 0
    ensures forall i :: 0 <= i < |queue| ==> !queue[i].after.Notify?
  {
    if queue != [] {
      WaitingNone(queue[1..]);
    }
  }

  // ---------------------------------------------------------------- whole streams

  lemma {:induction false} OctetsAppend(ws: seq<Wire>, vs: seq<Wire>)
    requires AllFit(ws) && AllFit(vs)
    ensures AllFit(ws + vs)
    ensures Octets(ws + vs) == Octets(ws) + Octets(vs)
  {
    hide FrameOf;
    if ws == [] {
      assert ws + vs == vs;
    } else {
      assert (ws + vs)[1..] == ws[1..] + vs;
      OctetsAppend(ws[1..], vs);
      assert FitsForm(ws[0]);
    }
  }

  lemma OctetsOne(w: Wire)
    requires FitsForm(w)
    ensures AllFit([w]) && Octets([w]) == Raw(FrameOf(w))
  {
    assert [w][1..] == [];
  }

  lemma {:induction false} DeliveredPrefix(log: seq<Event>, more: seq<Event>)
    requires log <= more
    ensures Delivered(log) <= Delivered(more)
    decreases |more|
  {
    if log == more {
    } else {
      DeliveredPrefix(log, more[..|more| - 1]);
    }
  }

  lemma {:induction false} PongsPrefix(sent: seq<Queued>, more: seq<Queued>)
    requires sent <= more
    ensures AutoPongs(sent) <= AutoPongs(more)
    decreases |more|
  {
    if sent == more {
    } else {
      PongsPrefix(sent, more[..|more| - 1]);
    }
  }

  /** The state after the legal frames, from any run that reads them. */
  lemma LegalStretch(c: Config, run: seq<Input>, ws: seq<Wire>)
    requires AllFit(ws) && Through(c, NO_MESSAGE, ws).legal
    requires Reads(run) == Octets(ws) && StaysConnected(run)
    ensures var st, t := Run(c, Opened, run), Through(c, NO_MESSAGE, ws);
      && Inv(c, st) && Ready(c.mode, st) && AssemblyOf(st) == t.after && st.data == [] && st.wanted == 2
      && Delivered(st.log) == t.shown && AutoPongs(st.sent) == t.pongs
  {
    hide Run, Through, Utf8.Scan, Inv;
    assert Opened.data + Reads(run) == Octets(ws);
    RunFollows(c, Opened, run, ws);
    OpenedKeeps(c);
    RunKeeps(c, Opened, run);
    var st, t := Run(c, Opened, run), Through(c, NO_MESSAGE, ws);
    ThroughNone(c, AssemblyOf(st));
    assert Delivered(st.log) + [] == Delivered(st.log) && AutoPongs(st.sent) + [] == AutoPongs(st.sent);
    assert Delivered([]) + t.shown == t.shown && AutoPongs([]) + t.pongs == t.pongs;
  }

  /**
    * End-to-end delivery. For every list of sound items, every way of fragmenting and encoding
    * them, every split of the octets into reads and everything the application does in between or
    * from its callbacks, the application receives exactly the items in order, each unhandled ping
    * queues one pong with its payload in order, and parser and reassembly end idle.
    */
  lemma EndToEnd(c: Config, items: seq<Item>, run: seq<Input>)
    requires AllSound(c.mode, items) && AllFit(WiresOf(items))
    requires Reads(run) == Octets(WiresOf(items)) && StaysConnected(run)
    ensures var st := Run(c, Opened, run);
      && Delivered(st.log) == Expected(c, items)
      && AutoPongs(st.sent) == ExpectedPongs(c, items)
      && st.data == [] && st.wanted == 2 && st.fragOp == CONTINUATION
      && !st.phase.Closed?
  {
    hide Run, Through, Octets, WiresOf, Reads, Sound, Inv;
    ItemsThrough(c, items);
    LegalStretch(c, run, WiresOf(items));
  }

  /** The length of the longest legal prefix that has no Close in it. */
  lemma {:induction false} LongestLegal(c: Config, ws: seq<Wire>) returns (k: nat)
    ensures k <= |ws| && Through(c, NO_MESSAGE, ws[..k]).legal
    ensures k < |ws| ==> !Through(c, NO_MESSAGE, ws[..k + 1]).legal
  {
    hide Through;
    ThroughNone(c, NO_MESSAGE);
    k := 0;
    while k < |ws| && Through(c, NO_MESSAGE, ws[..k + 1]).legal
      invariant k <= |ws| && Through(c, NO_MESSAGE, ws[..k]).legal
    {
      k := k + 1;
    }
    assert ws[..|ws|] == ws;
  }

  /** One Close frame and one only. */
  ghost predicate OneClose(sent: seq<Queued>) {
    && HasClose(sent)
    && forall i, j :: 0 <= i < |sent| && 0 <= j < |sent| ==> IsClose(sent[i]) && IsClose(sent[j]) ==> i == j
  }

  lemma FaultIs(c: Config, ws: seq<Wire>, k: nat)
    requires k < |ws| && Through(c, NO_MESSAGE, ws[..k]).legal && !Through(c, NO_MESSAGE, ws[..k + 1]).legal
    ensures Faulty(c, Through(c, NO_MESSAGE, ws[..k]).after, ws[k])
  {
    hide Through, Legal, Advance, Shown, PongsFor;
    assert ws[..k + 1] == ws[..k] + [ws[k]];
    ThroughAppend(c, NO_MESSAGE, ws[..k], [ws[k]]);
    ThroughOne(c, Through(c, NO_MESSAGE, ws[..k]).after, ws[k]);
  }

  /** The run reads and does what two runs do, one behind the other. */
  predicate Cut(c: Config, run: seq<Input>, upto: seq<Input>, behind: seq<Input>) {
    Run(c, Run(c, Opened, upto), behind) == Run(c, Opened, run) && Reads(upto) + Reads(behind) == Reads(run)
  }

  /** What legal frames are to show has been delivered, and nothing else; the same for their pongs. */
  predicate ShowsOnly(c: Config, st: State, ws: seq<Wire>) {
    Delivered(st.log) == Through(c, NO_MESSAGE, ws).shown && AutoPongs(st.sent) == Through(c, NO_MESSAGE, ws).pongs
  }

  /** It has been delivered before anything else. */
  predicate ShowsFirst(c: Config, st: State, ws: seq<Wire>) {
    Through(c, NO_MESSAGE, ws).shown <= Delivered(st.log) && Through(c, NO_MESSAGE, ws).pongs <= AutoPongs(st.sent)
  }

  /** One Close frame has been queued, a Close has closed the connection, a masked frame is in the way. */
  ghost predicate EndedBy(st: State, w: Wire) {
    && !st.phase.Open? && OneClose(st.sent)
    && (Closing(w) ==> st.phase.Closed?)
    && (w.mask.Masked? ==> st.phase.ClientClose? && Shut(st))
  }

  /**
    * A stream with a fault. The run can be cut where the fault has been read: until then the frames
    * before it have shown exactly what they are to show, one Close frame has been queued, before or
    * because of the fault, and a Close has closed the connection. Later this stays so, and nothing
    * at all is shown behind a Close or a masked frame.
    */
  lemma {:induction false} FaultEnds(c: Config, ws: seq<Wire>, k: nat, run: seq<Input>)
    returns (upto: seq<Input>, behind: seq<Input>)
    requires AllFit(ws) && Reads(run) == Octets(ws) && StaysConnected(run)
    requires k < |ws| && Through(c, NO_MESSAGE, ws[..k]).legal && !Through(c, NO_MESSAGE, ws[..k + 1]).legal
    ensures Cut(c, run, upto, behind) && Reads(upto) == Octets(ws[..k]) + Octets([ws[k]])
    ensures ShowsOnly(c, Run(c, Opened, upto), ws[..k]) && EndedBy(Run(c, Opened, upto), ws[k])
    ensures ShowsFirst(c, Run(c, Opened, run), ws[..k]) && EndedBy(Run(c, Opened, run), ws[k])
    ensures Closing(ws[k]) || ws[k].mask.Masked? ==> ShowsOnly(c, Run(c, Opened, run), ws[..k])
  {
    hide Run, Through, Faulty, Inv, Ready, Closing, Shut, HasClose, IsClose, Delivered, AutoPongs, Sending.OnWire;
    hide Octets, Reads, FitsForm, AllFit, StaysConnected, AssemblyOf;
    var w := ws[k];
    CutAround(ws, k);
    var before, at;
    before, at, behind := CutInThree(c, ws, k, run);
    LegalStretch(c, before, ws[..k]);
    var st0 := Run(c, Opened, before);
    upto := before + at;
    RunAppend(c, Opened, before, at);
    ReadsAppend(before, at);
    FaultIs(c, ws, k);
    FaultRead(c, st0, at, w);
    RunKeeps(c, st0, at);
    Sending.OpenedOnWire();
    Sending.RunGrows(c, Opened, upto);
    Behind(c, Run(c, Opened, upto), behind, w);
    OnlyClose(c, upto);
    OnlyClose(c, run);
  }

  predicate CutTwice(c: Config, run: seq<Input>, before: seq<Input>, at: seq<Input>, behind: seq<Input>) {
    Run(c, Run(c, Run(c, Opened, before), at), behind) == Run(c, Opened, run)
  }

  /** The run cut in front of and behind the octets of one frame. */
  lemma {:induction false} CutInThree(c: Config, ws: seq<Wire>, k: nat, run: seq<Input>)
    returns (before: seq<Input>, at: seq<Input>, behind: seq<Input>)
    requires AllFit(ws) && Reads(run) == Octets(ws) && StaysConnected(run) && k < |ws|
    ensures AllFit(ws[..k]) && AllFit([ws[k]])
    ensures StaysConnected(before) && StaysConnected(at) && StaysConnected(behind)
    ensures Reads(before) == Octets(ws[..k]) && Reads(at) == Octets([ws[k]])
    ensures Reads(before) + Reads(at) + Reads(behind) == Reads(run)
    ensures CutTwice(c, run, before, at, behind)
    ensures at != [] && at[|at| - 1].Data? && at[|at| - 1].chunk != []
  {
    hide Run, Inv, Octets, Reads, FitsForm, AllFit, StaysConnected, Raw, FrameOf;
    CutAround(ws, k);
    var p, f, r := Octets(ws[..k]), Octets([ws[k]]), Octets(ws[k + 1..]);
    OpenedKeeps(c);
    var tail;
    before, tail := SplitBetween(c, Opened, run, p, f + r);
    RunKeeps(c, Opened, before);
    at, behind := SplitBetween(c, Run(c, Opened, before), tail, f, r);
    assert p + f + r == p + (f + r);
  }

  /** Reading the faulty frame from an idle parser. */
  lemma FaultRead(c: Config, st: State, at: seq<Input>, w: Wire)
    requires Inv(c, st) && Ready(c.mode, st) && st.data == [] && StaysConnected(at) && FitsForm(w)
    requires AllFit([w]) && Reads(at) == Octets([w])
    requires Faulty(c, AssemblyOf(st), w)
    requires at != [] && at[|at| - 1].Data? && at[|at| - 1].chunk != []
    ensures Faulted(st, Run(c, st, at), w)
  {
    hide Run, Inv, Ready, Faulty, AssemblyOf, Octets, Reads, Raw, FrameOf, Faulted;
    OctetsOne(w);
    assert [] + Reads(at) == Reads(at);
    FaultRun(c, st, at, w);
  }

  lemma {:induction false} ReadsAppend(a: seq<Input>, b: seq<Input>)
    ensures Reads(a + b) == Reads(a) + Reads(b)
  {
    if a == [] {
      assert a + b == b;
    } else {
      assert (a + b)[1..] == a[1..] + b;
      ReadsAppend(a[1..], b);
    }
  }

  lemma AllFitPieces(ws: seq<Wire>, k: nat)
    requires AllFit(ws) && k < |ws|
    ensures AllFit(ws[..k]) && AllFit(ws[k + 1..]) && FitsForm(ws[k])
  {
    hide FitsForm;
  }

  lemma RawNotEmpty(w: Wire)
    requires FitsForm(w)
    ensures Raw(FrameOf(w)) != []
  {
  }

  /** The octets before, of and behind one frame. */
  lemma CutAround(ws: seq<Wire>, k: nat)
    requires AllFit(ws) && k < |ws|
    ensures AllFit(ws[..k]) && AllFit([ws[k]]) && AllFit(ws[k + 1..]) && FitsForm(ws[k])
    ensures Octets([ws[k]]) == Raw(FrameOf(ws[k])) && Octets([ws[k]]) != []
    ensures Octets(ws) == Octets(ws[..k]) + (Octets([ws[k]]) + Octets(ws[k + 1..]))
  {
    hide FrameOf, Octets, FitsForm, Raw, AllFit;
    var w := ws[k];
    AllFitPieces(ws, k);
    OctetsOne(w);
    RawNotEmpty(w);
    assert ws == ws[..k] + ([w] + ws[k + 1..]);
    OctetsAppend([w], ws[k + 1..]);
    OctetsAppend(ws[..k], [w] + ws[k + 1..]);
  }

  /** What comes after the fault changes nothing of what was before it. */
  lemma Behind(c: Config, st: State, run: seq<Input>, w: Wire)
    requires Inv(c, st) && !st.phase.Open? && HasClose(st.sent) && (Closing(w) ==> st.phase.Closed?)
    requires w.mask.Masked? ==> st.phase.ClientClose? && Jammed(st.data)
    requires Sending.OnWire(st) && StaysConnected(run)
    ensures var st1 := Run(c, st, run);
      && Delivered(st.log) <= Delivered(st1.log) && AutoPongs(st.sent) <= AutoPongs(st1.sent)
      && !st1.phase.Open? && HasClose(st1.sent) && (Closing(w) ==> st1.phase.Closed?)
      && (w.mask.Masked? ==> st1.phase.ClientClose? && Shut(st) && Shut(st1))
      && (Closing(w) || w.mask.Masked? ==>
            Delivered(st1.log) == Delivered(st.log) && AutoPongs(st1.sent) == AutoPongs(st.sent))
  {
    hide Run, Inv, HasClose, Delivered, AutoPongs, Closing, Sending.OnWire, Jammed, Shut;
    RunKeeps(c, st, run);
    Sending.RunGrows(c, st, run);
    var st1 := Run(c, st, run);
    DeliveredPrefix(st.log, st1.log);
    PongsPrefix(st.sent, st1.sent);
    CloseStays(st.sent, st1.sent);
    Chunking.InvLive(c, st);
    Chunking.InvLive(c, st1);
    if w.mask.Masked? {
      ShutFrom(c, st);
      ShutRun(c, st, run);
    } else if Closing(w) {
      SilentOnceClosed(c, st, run);
    }
  }

  lemma OnlyClose(c: Config, run: seq<Input>)
    ensures var sent := Run(c, Opened, run).sent;
      forall i, j :: 0 <= i < |sent| && 0 <= j < |sent| ==> IsClose(sent[i]) && IsClose(sent[j]) ==> i == j
  {
    hide Run, IsClose;
    CloseHandshakeSafety(c, run, []);
  }

  /**
    * A stream whose first fault is a masked frame, and whatever comes after it: the frames before it
    * have shown exactly what they are to show, nothing else is ever shown or queued, no Close reply
    * is ever seen, and the end of the stream is what the application is notified of.
    */
  lemma {:induction false} MaskedStops(c: Config, ws: seq<Wire>, k: nat, run: seq<Input>, more: seq<Input>)
    requires AllFit(ws) && Reads(run) == Octets(ws) && StaysConnected(run)
    requires k < |ws| && Through(c, NO_MESSAGE, ws[..k]).legal && ws[k].mask.Masked?
    ensures ShowsOnly(c, Run(c, Opened, run + more), ws[..k])
    ensures Run(c, Opened, run + more).sent == Run(c, Opened, run).sent
    ensures OneClose(Run(c, Opened, run + more).sent)
    ensures Run(c, Opened, run + more).phase == if StaysConnected(more) then ClientClose else Closed
    ensures OnlyLost(Run(c, Opened, run + more).log)
    ensures Fired(Run(c, Opened, run + more).log) == if c.hasClose && !StaysConnected(more) then 1 else 0
  {
    hide Run, Through, OneClose, Delivered, AutoPongs, Reads, Octets, AllFit, Fired, Waiting, Inv;
    hide StaysConnected, OnlyLost;
    MaskedIsFault(c, ws, k);
    var _, _ := FaultEnds(c, ws, k, run);
    var st := Run(c, Opened, run);
    ShutRun(c, st, more);
    RunAppend(c, Opened, run, more);
    NotifiedExactlyOnce(c, run + more);
    NoneWaits(Run(c, Opened, run + more));
  }

  lemma MaskedIsFault(c: Config, ws: seq<Wire>, k: nat)
    requires k < |ws| && ws[k].mask.Masked?
    ensures !Through(c, NO_MESSAGE, ws[..k + 1]).legal
  {
    hide Through, Legal, Advance, Shown, PongsFor;
    assert ws[..k + 1] == ws[..k] + [ws[k]];
    ThroughAppend(c, NO_MESSAGE, ws[..k], [ws[k]]);
    ThroughOne(c, Through(c, NO_MESSAGE, ws[..k]).after, ws[k]);
  }

  lemma NoneWaits(st: State)
    requires Shut(st) && st.popped <= |st.sent|
    ensures Waiting(st.sent[st.popped..]) == 0
  {
    WaitingZero(st.sent[st.popped..]);
  }

  lemma {:induction false} WaitingZero(queue: seq<Queued>)
    requires forall i :: 0 <= i < |queue| ==> !queue[i].after.Notify?
    ensures Waiting(queue) == 0
  {
    if queue != [] {
      WaitingZero(queue[1..]);
    }
  }

  /**
    * Any frames at all, masked ones among them. There is a longest prefix of legal frames without a
    * Close. If it is the whole stream, exactly what it is to show is delivered and the parser is
    * idle; otherwise that much is delivered first, and one Close frame follows.
    */
  lemma {:induction false} AnyFrames(c: Config, ws: seq<Wire>, run: seq<Input>) returns (k: nat)
    requires AllFit(ws) && Reads(run) == Octets(ws) && StaysConnected(run)
    ensures k <= |ws| && Through(c, NO_MESSAGE, ws[..k]).legal
    ensures k < |ws| ==> !Through(c, NO_MESSAGE, ws[..k + 1]).legal
    ensures ShowsFirst(c, Run(c, Opened, run), ws[..k])
    ensures k == |ws| ==> ShowsOnly(c, Run(c, Opened, run), ws[..k]) && Run(c, Opened, run).data == []
    ensures k < |ws| ==> !Run(c, Opened, run).phase.Open? && OneClose(Run(c, Opened, run).sent)
  {
    hide Run, Through, OneClose, Inv, Ready, Delivered, AutoPongs;
    k := LongestLegal(c, ws);
    if k == |ws| {
      assert ws[..k] == ws;
      LegalStretch(c, run, ws);
    } else {
      var _, _ := FaultEnds(c, ws, k, run);
    }
  }
}
