/**
  * What the server makes of the client's frames. They are legal by the same rules exactly if the
  * application keeps the limits that the client does not check for it: on texts, on the size of
  * control frames and of reasons, and on status codes.
  */
module Outgoing {
  import opened Bytes
  import opened Utf8
  import opened Frames
  import opened Session
  import opened SessionSafety
  import opened ConnectionLaws
  import opened Protocol

  /** A complete message or control frame that the rules for received frames allow. */
  predicate LegalFrame(m: Mode, f: Sent) { IsFin(f.op) && Legal(m, NO_MESSAGE, f.op, f.payload) }

  ghost predicate AllLegal(m: Mode, sent: seq<Queued>) {
    forall i :: 0 <= i < |sent| ==> LegalFrame(m, sent[i].frame)
  }

  /** Texts are valid, pings, pongs and reasons are short, and status codes are ones that may be sent. */
  predicate KeepsLimits(m: Mode, a: Action) {
    match a
    case Send(kind, payload, _) =>
      && (kind.TextKind? ==> Scan(m, payload).result.Valid?)
      && (kind.PingKind? || kind.PongKind? ==> |payload| <= 125)
    case Close(code, reason) =>
      && |reason| <= 123
      && (1000 <= code <= 1003 || 1007 <= code <= 1014 || 3000 <= code <= 4999)
  }

  ghost predicate AllKeep(m: Mode, acts: seq<Action>) {
    forall i :: 0 <= i < |acts| ==> KeepsLimits(m, acts[i])
  }

  // ---------------------------------------------------------------- what the application asked for

  /** The call has an effect: a frame is queued. */
  predicate Accepts(c: Config, st: State, a: Action) {
    match a
    case Send(_, _, _) => st.phase.Open?
    case Close(_, reason) => Scan(c.mode, reason).result.Valid? && !st.phase.Closed? && !st.phase.ClientClose?
  }

  /** The accepted ones of some calls, of the reactions while octets are parsed, of a step, of a run. */
  function AskedAll(c: Config, st: State, acts: seq<Action>): seq<Action>
    decreases |acts|
  {
    if acts == [] then []
    else (if Accepts(c, st, acts[0]) then [acts[0]] else []) + AskedAll(c, Act(c, st, acts[0]), acts[1..])
  }

  function AskedReact(c: Config, before: State, st: State): seq<Action> {
    if st.log == before.log then [] else AskedAll(c, st, c.app(st.log))
  }

  function AskedFeed(c: Config, st: State): seq<Action>
    decreases |st.data|
  {
    match Look(st.data)
    case More(_) => []
    case Whole(masked, _, total) =>
      if masked then []
      else
        var f := FrontFrame(st.data);
        AskedReact(c, st, HandleFrame(c, st, f.head[0], f.payload))
        + AskedFeed(c, TakeFrame(c, st, f).(wanted := 2, data := st.data[total..]))
  }

  function AskedPop(c: Config, st: State, room: nat): seq<Action> {
    if st.popped >= |st.sent| then []
    else
      match st.sent[st.popped].after
      case Nothing => []
      case Tell(tag) => AskedReact(c, st, Emit(Handed(st, room), true, OnSent(tag, TakenWhole(st, room))))
      case Notify(code, reason) => AskedReact(c, st, Emit(Handed(st, room), true, OnClose(code, reason)))
  }

  function AskedStep(c: Config, st: State, i: Input): seq<Action> {
    match i
    case Data(chunk) => AskedFeed(c, st.(data := st.data + chunk))
    case Gone =>
      if st.phase.Closed? || st.phase.ServerClose? then []
      else AskedReact(c, st, Emit(st.(phase := Closed), c.hasClose, OnClose(1006, ConnectionLost())))
    case Do(action) => if Accepts(c, st, action) then [action] else []
    case Pop(room) => AskedPop(c, st, room)
  }

  function AskedRun(c: Config, st: State, run: seq<Input>): seq<Action>
    decreases |run|
  {
    if run == [] then [] else AskedStep(c, st, run[0]) + AskedRun(c, Step(c, st, run[0]), run[1..])
  }

  // ---------------------------------------------------------------- frames and calls, one by one

  /** The frames of `st1` beyond those of `st` are legal exactly if the calls `acts` keep the limits. */
  ghost predicate Matches(m: Mode, st: State, st1: State, acts: seq<Action>) {
    AllLegal(m, st1.sent) <==> AllLegal(m, st.sent) && AllKeep(m, acts)
  }

  lemma MatchesThen(m: Mode, st: State, st1: State, st2: State, a: seq<Action>, b: seq<Action>)
    requires Matches(m, st, st1, a) && Matches(m, st1, st2, b)
    ensures Matches(m, st, st2, a + b)
  {
    hide AllKeep, AllLegal;
    AllKeepAppend(m, a, b);
  }

  lemma AllKeepAppend(m: Mode, a: seq<Action>, b: seq<Action>)
    ensures AllKeep(m, a + b) <==> AllKeep(m, a) && AllKeep(m, b)
  {
    hide KeepsLimits;
    if AllKeep(m, a + b) {
      forall i | 0 <= i < |a| ensures KeepsLimits(m, a[i]) {
        assert (a + b)[i] == a[i];
      }
      forall i | 0 <= i < |b| ensures KeepsLimits(m, b[i]) {
        assert (a + b)[|a| + i] == b[i];
      }
    }
  }

  lemma MatchesSame(m: Mode, st: State, st1: State)
    requires st1.sent == st.sent
    ensures Matches(m, st, st1, [])
  {
  }

  /** One frame more that is legal whatever the application does. */
  ghost predicate OneLegalMore(m: Mode, st: State, st1: State) {
    || st1.sent == st.sent
    || (|st1.sent| == |st.sent| + 1 && st1.sent[..|st.sent|] == st.sent
        && LegalFrame(m, st1.sent[|st.sent|].frame))
  }

  lemma OneLegalMatches(m: Mode, st: State, st1: State)
    requires OneLegalMore(m, st, st1)
    ensures Matches(m, st, st1, [])
  {
    hide LegalFrame;
    if st1.sent != st.sent {
      assert forall i :: 0 <= i < |st.sent| ==> st1.sent[i] == st.sent[i];
    }
  }

  lemma CloseFrameLegal(m: Mode, code: Code, reason: seq<byte>)
    requires Scan(m, reason).result.Valid?
    ensures Legal(m, NO_MESSAGE, FIN + CLOSE, BigEndian(2, code) + reason) <==>
      |reason| <= 123 && (1000 <= code <= 1003 || 1007 <= code <= 1014 || 3000 <= code <= 4999)
  {
    hide Scan, BigEndian, FromBigEndian;
    var payload := BigEndian(2, code) + reason;
    BigEndianReadBack(2, code);
    assert payload[..2] == BigEndian(2, code) && payload[2..] == reason;
  }

  lemma ActMatches(c: Config, st: State, a: Action)
    ensures Matches(c.mode, st, Act(c, st, a), if Accepts(c, st, a) then [a] else [])
  {
    hide Scan, BigEndian, LegalFrame, KeepsLimits;
    var st1 := Act(c, st, a);
    if Accepts(c, st, a) {
      var q := st1.sent[|st.sent|];
      assert st1.sent == st.sent + [q];
      FrameOfAction(c, st, a);
      OneMatches(c.mode, st, st1, q, a);
    }
  }

  lemma OneMatches(m: Mode, st: State, st1: State, q: Queued, a: Action)
    requires st1.sent == st.sent + [q] && (LegalFrame(m, q.frame) <==> KeepsLimits(m, a))
    ensures Matches(m, st, st1, [a])
  {
    hide LegalFrame, KeepsLimits;
    assert forall i :: 0 <= i < |st.sent| ==> st1.sent[i] == st.sent[i];
    assert st1.sent[|st.sent|] == q;
    assert AllKeep(m, [a]) <==> KeepsLimits(m, [a][0]);
  }

  lemma FrameOfAction(c: Config, st: State, a: Action)
    requires Accepts(c, st, a)
    ensures |Act(c, st, a).sent| == |st.sent| + 1
    ensures LegalFrame(c.mode, Act(c, st, a).sent[|st.sent|].frame) <==> KeepsLimits(c.mode, a)
  {
    hide Scan, BigEndian, FromBigEndian;
    if a.Close? {
      hide Legal;
      CloseFrameLegal(c.mode, a.code, a.reason);
    }
  }

  lemma {:induction false} ActAllMatches(c: Config, st: State, acts: seq<Action>)
    ensures Matches(c.mode, st, ActAll(c, st, acts), AskedAll(c, st, acts))
    decreases |acts|
  {
    hide Act, Accepts, Matches;
    if acts == [] {
      MatchesSame(c.mode, st, st);
    } else {
      var st1 := Act(c, st, acts[0]);
      ActMatches(c, st, acts[0]);
      ActAllMatches(c, st1, acts[1..]);
      MatchesThen(c.mode, st, st1, ActAll(c, st1, acts[1..]),
        if Accepts(c, st, acts[0]) then [acts[0]] else [], AskedAll(c, st1, acts[1..]));
    }
  }

  lemma ReactMatches(c: Config, before: State, st: State)
    ensures Matches(c.mode, st, React(c, before, st), AskedReact(c, before, st))
  {
    hide ActAll, AskedAll, Matches;
    MatchesSame(c.mode, st, st);
    ActAllMatches(c, st, c.app(st.log));
  }

  // ---------------------------------------------------------------- frames the client queues by itself

  lemma FixedReasons(m: Mode)
    ensures Scan(m, ProtocolError()).result.Valid? && |ProtocolError()| <= 123
    ensures Scan(m, BadText()).result.Valid? && |BadText()| <= 123
    ensures Scan(m, BadReason()).result.Valid? && |BadReason()| <= 123
  {
    hide Scan;
    AsciiIsValid(m, ProtocolError());
    AsciiIsValid(m, BadText());
    AsciiIsValid(m, BadReason());
  }

  lemma DoCloseLegal(c: Config, st: State, code: Code, reason: seq<byte>)
    requires Scan(c.mode, reason).result.Valid? && |reason| <= 123
    requires 1000 <= code <= 1003 || 1007 <= code <= 1014 || 3000 <= code <= 4999
    ensures OneLegalMore(c.mode, st, DoClose(c, st, code, reason))
  {
    hide Scan, BigEndian, Legal;
    CloseFrameLegal(c.mode, code, reason);
  }

  lemma FaultsLegal(c: Config, st: State)
    ensures OneLegalMore(c.mode, st, DoClose(c, st, 1002, ProtocolError()))
    ensures OneLegalMore(c.mode, st, DoClose(c, st, 1007, BadText()))
    ensures OneLegalMore(c.mode, st, DoClose(c, st, 1007, BadReason()))
  {
    hide Scan, DoClose, OneLegalMore, ProtocolError, BadText, BadReason;
    FixedReasons(c.mode);
    DoCloseLegal(c, st, 1002, ProtocolError());
    DoCloseLegal(c, st, 1007, BadText());
    DoCloseLegal(c, st, 1007, BadReason());
  }

  lemma HandleCloseLegal(c: Config, st: State, op: byte, payload: seq<byte>)
    ensures OneLegalMore(c.mode, st, HandleClose(c, st, op, payload))
  {
    hide Scan, DoClose, FromBigEndian, LegalFrame;
    var st1 := st.(phase := ServerClose);
    FaultsLegal(c, st1);
    if !st.phase.ClientClose? && |payload| <= 125 && |payload| != 1 {
      var code, reason := CloseCode(payload), CloseReason(payload);
      if |payload| >= 2 {
        FromBigEndianRoundTrip(payload[..2]);
        Pow256Values();
      }
      if Scan(c.mode, reason).result.Valid? && !RefusedCode(code) {
        DoCloseLegal(c, st1, code, reason);
      }
    }
  }

  lemma PongLegal(c: Config, st: State, payload: seq<byte>)
    requires |payload| <= 125
    ensures OneLegalMore(c.mode, st, SendFrame(c, st, FIN + PONG, payload, Nothing))
  {
  }

  lemma DataLegal(c: Config, st: State, op: byte, payload: seq<byte>)
    ensures OneLegalMore(c.mode, st, HandleText(c, st, op, payload))
    ensures OneLegalMore(c.mode, st, HandleBinary(c, st, op, payload))
    ensures OneLegalMore(c.mode, st, HandleContinuation(c, st, op, payload))
  {
    hide Scan, DoClose, LegalFrame;
    FaultsLegal(c, st);
    FaultsLegal(c, st.(fragOp := TEXT, fragPayload := payload));
    FaultsLegal(c, st.(fragOp := CONTINUATION, fragPayload := []));
    FaultsLegal(c, st.(fragPayload := st.fragPayload + payload));
  }

  /** Whatever arrives, the client by itself queues one legal frame at most. */
  lemma HandleFrameLegal(c: Config, st: State, op: byte, payload: seq<byte>)
    ensures OneLegalMore(c.mode, st, HandleFrame(c, st, op, payload))
  {
    hide DoClose, HandleClose, HandleText, HandleBinary, HandleContinuation, SendFrame, LegalFrame;
    FaultsLegal(c, st);
    HandleCloseLegal(c, st, op, payload);
    DataLegal(c, st, op, payload);
    if |payload| <= 125 {
      PongLegal(c, st, payload);
    }
  }

  // ---------------------------------------------------------------- whole runs

  lemma TakeFrameMatches(c: Config, st: State, f: Frame)
    requires f.head != []
    ensures var st1 := HandleFrame(c, st, f.head[0], f.payload);
      Matches(c.mode, st, TakeFrame(c, st, f), AskedReact(c, st, st1))
  {
    hide HandleFrame, OneLegalMore, Matches, React, AskedReact;
    var st1 := HandleFrame(c, st, f.head[0], f.payload);
    HandleFrameLegal(c, st, f.head[0], f.payload);
    OneLegalMatches(c.mode, st, st1);
    ReactMatches(c, st, st1);
    MatchesThen(c.mode, st, st1, React(c, st, st1), [], AskedReact(c, st, st1));
    assert [] + AskedReact(c, st, st1) == AskedReact(c, st, st1);
  }

  lemma {:induction false} FeedMatches(c: Config, st: State)
    ensures Matches(c.mode, st, Feed(c, st), AskedFeed(c, st))
    decreases |st.data|
  {
    hide Look, FrontFrame, HandleFrame, TakeFrame, DoClose, OneLegalMore, Matches, AskedReact;
    match Look(st.data)
    case More(_) =>
      MatchesSame(c.mode, st, Feed(c, st));
    case Whole(masked, _, total) =>
      if masked {
        var st0 := st.(wanted := total);
        FaultsLegal(c, st0);
        OneLegalMatches(c.mode, st0, Feed(c, st));
        MatchesSame(c.mode, st, st0);
        MatchesThen(c.mode, st, st0, Feed(c, st), [], []);
        assert [] + AskedFeed(c, st) == AskedFeed(c, st);
      } else {
        var f := FrontFrame(st.data);
        var st1 := TakeFrame(c, st, f);
        var st2 := st1.(wanted := 2, data := st.data[total..]);
        var a := AskedReact(c, st, HandleFrame(c, st, f.head[0], f.payload));
        TakeFrameMatches(c, st, f);
        MatchesSame(c.mode, st1, st2);
        MatchesThen(c.mode, st, st1, st2, a, []);
        assert a + [] == a;
        FeedMatches(c, st2);
        MatchesThen(c.mode, st, st2, Feed(c, st2), a, AskedFeed(c, st2));
      }
  }

  /** Reactions after a step that queues nothing itself. */
  lemma ThenReacts(c: Config, before: State, st: State)
    requires st.sent == before.sent
    ensures Matches(c.mode, before, React(c, before, st), AskedReact(c, before, st))
  {
    hide Matches, React, AskedReact;
    MatchesSame(c.mode, before, st);
    ReactMatches(c, before, st);
    MatchesThen(c.mode, before, st, React(c, before, st), [], AskedReact(c, before, st));
    assert [] + AskedReact(c, before, st) == AskedReact(c, before, st);
  }

  lemma StepMatches(c: Config, st: State, i: Input)
    ensures Matches(c.mode, st, Step(c, st, i), AskedStep(c, st, i))
  {
    hide Feed, AskedFeed, Act, Matches, React, AskedReact, Serialise, TakenWhole, Accepts;
    MatchesSame(c.mode, st, st);
    match i
    case Data(chunk) =>
      var st0 := st.(data := st.data + chunk);
      MatchesSame(c.mode, st, st0);
      FeedMatches(c, st0);
      MatchesThen(c.mode, st, st0, Feed(c, st0), [], AskedFeed(c, st0));
      assert [] + AskedFeed(c, st0) == AskedFeed(c, st0);
    case Gone =>
      var st1 := st.(phase := Closed);
      MatchesSame(c.mode, st, st1);
      ThenReacts(c, st, Emit(st1, c.hasClose, OnClose(1006, ConnectionLost())));
    case Do(action) =>
      ActMatches(c, st, action);
    case Pop(room) =>
      if st.popped < |st.sent| {
        var st1 := Handed(st, room);
        MatchesSame(c.mode, st, st1);
        match st.sent[st.popped].after
        case Nothing =>
        case Tell(tag) => ThenReacts(c, st, Emit(st1, true, OnSent(tag, TakenWhole(st, room))));
        case Notify(code, reason) => ThenReacts(c, st, Emit(st1, true, OnClose(code, reason)));
      }
  }

  lemma {:induction false} RunMatches(c: Config, st: State, run: seq<Input>)
    ensures Matches(c.mode, st, Run(c, st, run), AskedRun(c, st, run))
    decreases |run|
  {
    hide Step, AskedStep, Matches;
    if run == [] {
      MatchesSame(c.mode, st, st);
    } else {
      var st1 := Step(c, st, run[0]);
      StepMatches(c, st, run[0]);
      RunMatches(c, st1, run[1..]);
      MatchesThen(c.mode, st, st1, Run(c, st1, run[1..]), AskedStep(c, st, run[0]), AskedRun(c, st1, run[1..]));
    }
  }

  /**
    * Over every run all frames ever queued are legal for the server if and only if every accepted
    * call of the application keeps the limits on text, size and status code: the client checks none
    * of these itself, and what it queues by itself is always legal.
    */
  lemma LegalIffLimits(c: Config, run: seq<Input>)
    ensures AllLegal(c.mode, Run(c, Opened, run).sent) <==> AllKeep(c.mode, AskedRun(c, Opened, run))
  {
    hide Run, AskedRun, LegalFrame, KeepsLimits;
    RunMatches(c, Opened, run);
  }

  /** A reason of 124 octets is accepted and makes a Close frame that is too long. */
  lemma LongReason(c: Config)
    ensures var a := Close(1000, seq(124, _ => 0x61));
      Accepts(c, Opened, a) && !KeepsLimits(c.mode, a)
  {
    hide Scan;
    AsciiIsValid(c.mode, seq(124, _ => 0x61));
  }
}
