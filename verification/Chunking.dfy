/**
  * Reads and frames: the parse loop takes exactly the frames of the octets it holds, and how the
  * octets are cut into reads makes no difference to the connection.
  */
module Chunking {
  import opened Bytes
  import opened Utf8
  import opened Frames
  import opened Session
  import opened SessionSafety

  // ---------------------------------------------------------------- frames are handled without the parser

  /** The same connection with other parser fields. */
  function Parser(st: State, d: seq<byte>, w: nat): State { st.(data := d, wanted := w) }

  lemma DoCloseAlike(c: Config, st: State, code: nat, reason: seq<byte>, d: seq<byte>, w: nat)
    ensures DoClose(c, Parser(st, d, w), code, reason) == Parser(DoClose(c, st, code, reason), d, w)
  {
    hide BigEndian;
  }

  lemma ControlAlike(c: Config, st: State, op: byte, payload: seq<byte>, d: seq<byte>, w: nat)
    ensures HandleClose(c, Parser(st, d, w), op, payload) == Parser(HandleClose(c, st, op, payload), d, w)
    ensures HandlePing(c, Parser(st, d, w), op, payload) == Parser(HandlePing(c, st, op, payload), d, w)
    ensures HandlePong(c, Parser(st, d, w), op, payload) == Parser(HandlePong(c, st, op, payload), d, w)
  {
    hide Scan, DoClose, RefusedCode, FromBigEndian;
    var st1 := st.(phase := ServerClose);
    DoCloseAlike(c, st, 1002, ProtocolError(), d, w);
    DoCloseAlike(c, st1, 1002, ProtocolError(), d, w);
    DoCloseAlike(c, st1, 1007, BadReason(), d, w);
    DoCloseAlike(c, st1, CloseCode(payload), CloseReason(payload), d, w);
  }

  lemma TextAlike(c: Config, st: State, op: byte, payload: seq<byte>, d: seq<byte>, w: nat)
    ensures HandleText(c, Parser(st, d, w), op, payload) == Parser(HandleText(c, st, op, payload), d, w)
  {
    hide Scan, DoClose;
    DoCloseAlike(c, st, 1002, ProtocolError(), d, w);
    DoCloseAlike(c, st, 1007, BadText(), d, w);
    DoCloseAlike(c, st.(fragOp := TEXT, fragPayload := payload), 1007, BadText(), d, w);
  }

  lemma ContinuationAlike(c: Config, st: State, op: byte, payload: seq<byte>, d: seq<byte>, w: nat)
    ensures HandleContinuation(c, Parser(st, d, w), op, payload) == Parser(HandleContinuation(c, st, op, payload), d, w)
  {
    hide Scan, DoClose;
    DoCloseAlike(c, st, 1002, ProtocolError(), d, w);
    DoCloseAlike(c, st.(fragOp := CONTINUATION, fragPayload := []), 1007, BadText(), d, w);
    DoCloseAlike(c, st.(fragPayload := st.fragPayload + payload), 1007, BadText(), d, w);
  }

  lemma HandleFrameAlike(c: Config, st: State, op: byte, payload: seq<byte>, d: seq<byte>, w: nat)
    ensures HandleFrame(c, Parser(st, d, w), op, payload) == Parser(HandleFrame(c, st, op, payload), d, w)
  {
    hide DoClose, HandleClose, HandlePing, HandlePong, HandleText, HandleContinuation;
    DoCloseAlike(c, st, 1002, ProtocolError(), d, w);
    ControlAlike(c, st, op, payload, d, w);
    TextAlike(c, st, op, payload, d, w);
    ContinuationAlike(c, st, op, payload, d, w);
  }

  lemma {:induction false} ActAllAlike(c: Config, st: State, acts: seq<Action>, d: seq<byte>, w: nat)
    ensures ActAll(c, Parser(st, d, w), acts) == Parser(ActAll(c, st, acts), d, w)
    decreases |acts|
  {
    hide Scan, BigEndian;
    if acts != [] {
      ActAllAlike(c, Act(c, st, acts[0]), acts[1..], d, w);
    }
  }

  /** Frames are handled without regard to the parser's buffer and its cached size. */
  lemma TakenAlike(c: Config, st: State, f: Frame, d: seq<byte>, w: nat)
    requires f.head != []
    ensures TakeFrame(c, Parser(st, d, w), f) == Parser(TakeFrame(c, st, f), d, w)
  {
    hide HandleFrame, ActAll;
    HandleFrameAlike(c, st, f.head[0], f.payload, d, w);
    var st2 := HandleFrame(c, st, f.head[0], f.payload);
    ActAllAlike(c, st2, c.app(st2.log), d, w);
  }

  /** So they leave buffer and cached size alone. */
  lemma TakenLeavesParser(c: Config, st: State, f: Frame)
    requires f.head != []
    ensures TakeFrame(c, st, f).data == st.data && TakeFrame(c, st, f).wanted == st.wanted
  {
    hide TakeFrame;
    TakenAlike(c, st, f, st.data, st.wanted);
    assert Parser(st, st.data, st.wanted) == st;
  }

  // ---------------------------------------------------------------- the loop

  lemma FeedUnfold(c: Config, st: State)
    ensures var l := Look(st.data);
      && (l.More? ==> Feed(c, st) == st.(wanted := l.wanted))
      && (l.Whole? ==>
            Feed(c, st) ==
              if l.masked then DoClose(c, st.(wanted := l.total), 1002, ProtocolError())
              else Feed(c, TakeFrame(c, st, FrontFrame(st.data)).(wanted := 2, data := st.data[l.total..])))
  {
  }

  /** The cached size decides when the buffer is looked at, never what comes of it. */
  lemma CacheIsOnlyACache(c: Config, st: State, w: nat)
    ensures Feed(c, st.(wanted := w)) == Feed(c, st)
  {
    hide TakeFrame, Feed, Look, FrontFrame, DoClose;
    FeedUnfold(c, st);
    FeedUnfold(c, st.(wanted := w));
    if Look(st.data).Whole? {
      TakenAlike(c, st, FrontFrame(st.data), st.data, w);
      assert st.(wanted := w) == Parser(st, st.data, w);
      TakenLeavesParser(c, st, FrontFrame(st.data));
    }
  }

  /** The frames, one after the other. */
  function TakeAll(c: Config, st: State, fs: seq<Frame>): State
    requires forall i :: 0 <= i < |fs| ==> fs[i].head != []
    decreases |fs|
  {
    if fs == [] then st else TakeAll(c, TakeFrame(c, st, fs[0]), fs[1..])
  }

  /** The end of the loop: the octets left over are kept, and a masked frame in front closes. */
  function Leave(c: Config, st: State, rest: seq<byte>): State {
    match Look(rest)
    case More(wanted) => Parser(st, rest, wanted)
    case Whole(_, _, total) => DoClose(c, Parser(st, rest, total), 1002, ProtocolError())
  }

  lemma {:induction false} ParsedHeads(data: seq<byte>)
    ensures forall i :: 0 <= i < |ParseAll(data).frames| ==> ParseAll(data).frames[i].head != []
    decreases |data|
  {
    hide Look;
    if Look(data).Whole? && !Look(data).masked {
      ParsedHeads(data[Look(data).total..]);
      ParseStep(data);
    }
  }

  lemma {:induction false} TakeAllAlike(c: Config, st: State, fs: seq<Frame>, d: seq<byte>, w: nat)
    requires forall i :: 0 <= i < |fs| ==> fs[i].head != []
    ensures TakeAll(c, Parser(st, d, w), fs) == Parser(TakeAll(c, st, fs), d, w)
    decreases |fs|
  {
    hide TakeFrame;
    if fs != [] {
      TakenAlike(c, st, fs[0], d, w);
      TakeAllAlike(c, TakeFrame(c, st, fs[0]), fs[1..], d, w);
    }
  }

  /** The loop takes exactly the frames of the buffered octets and leaves exactly their rest. */
  lemma {:induction false} FeedIsParse(c: Config, st: State)
    ensures forall i :: 0 <= i < |ParseAll(st.data).frames| ==> ParseAll(st.data).frames[i].head != []
    ensures Feed(c, st) == Leave(c, TakeAll(c, st, ParseAll(st.data).frames), ParseAll(st.data).rest)
    decreases |st.data|
  {
    hide TakeFrame, Feed, Look, FrontFrame, DoClose, ParseAll;
    FeedUnfold(c, st);
    ParsedHeads(st.data);
    if Look(st.data).Whole? && !Look(st.data).masked {
      ParseStep(st.data);
      var f, d := FrontFrame(st.data), st.data[Look(st.data).total..];
      var p := ParseAll(d);
      var st1 := TakeFrame(c, st, f);
      FeedIsParse(c, Parser(st1, d, 2));
      TakeAllAlike(c, st1, p.frames, d, 2);
      assert ([f] + p.frames)[1..] == p.frames;
      LeaveAlike(c, TakeAll(c, st1, p.frames), d, 2, p.rest);
    } else {
      ParseStop(st.data);
      assert Parser(st, st.data, Feed(c, st).wanted) == st.(wanted := Feed(c, st).wanted);
    }
  }

  lemma LeaveAlike(c: Config, st: State, d: seq<byte>, w: nat, rest: seq<byte>)
    ensures Leave(c, Parser(st, d, w), rest) == Leave(c, st, rest)
  {
    hide DoClose, Look;
  }

  // ---------------------------------------------------------------- cutting the stream anywhere

  lemma ActLive(c: Config, st: State, a: Action)
    requires Live(st.phase)
    ensures Live(Act(c, st, a).phase)
  {
    hide Scan, BigEndian;
  }

  lemma {:induction false} ActAllLive(c: Config, st: State, acts: seq<Action>)
    requires Live(st.phase)
    ensures Live(ActAll(c, st, acts).phase)
    decreases |acts|
  {
    hide Act;
    if acts != [] {
      ActLive(c, st, acts[0]);
      ActAllLive(c, Act(c, st, acts[0]), acts[1..]);
    }
  }

  lemma HandleFrameLive(c: Config, st: State, op: byte, payload: seq<byte>)
    requires Live(st.phase)
    ensures Live(HandleFrame(c, st, op, payload).phase)
  {
    hide Scan, BigEndian, FromBigEndian, RefusedCode;
  }

  lemma TakeFrameLive(c: Config, st: State, f: Frame)
    requires Live(st.phase) && f.head != []
    ensures Live(TakeFrame(c, st, f).phase)
  {
    hide HandleFrame, ActAll;
    HandleFrameLive(c, st, f.head[0], f.payload);
    var st1 := HandleFrame(c, st, f.head[0], f.payload);
    ActAllLive(c, st1, c.app(st1.log));
  }

  /** Closing a second time changes nothing. */
  lemma DoCloseTwice(c: Config, st: State, code: nat, reason: seq<byte>)
    requires Live(st.phase)
    ensures DoClose(c, DoClose(c, st, code, reason), code, reason) == DoClose(c, st, code, reason)
    ensures DoClose(c, st, code, reason).data == st.data && DoClose(c, st, code, reason).wanted == st.wanted
  {
    hide BigEndian;
  }

  /**
    * Octets may arrive in one read or in two: parsing what is there and going on when `b` has
    * arrived leaves the connection as if all of it had arrived at once, legal or not.
    */
  lemma {:induction false} FeedResumes(c: Config, st: State, b: seq<byte>)
    requires Live(st.phase)
    ensures var st1 := Feed(c, st);
      Feed(c, st.(data := st.data + b)) == Feed(c, st1.(data := st1.data + b))
    decreases |st.data|
  {
    hide TakeFrame, Feed, Look, FrontFrame, DoClose;
    LookExtends(st.data, b);
    var st0 := st.(data := st.data + b);
    FeedUnfold(c, st);
    match Look(st.data)
    case More(wanted) =>
      CacheIsOnlyACache(c, st0, wanted);
      assert st0.(wanted := wanted) == Feed(c, st).(data := st.data + b);
    case Whole(masked, _, total) =>
      if masked {
        ClosedResumes(c, st, b, total);
      } else {
        var f := FrontFrame(st.data);
        FrontFrameExtends(st.data, b);
        FeedUnfold(c, st0);
        TakenAlike(c, st, f, st0.data, st.wanted);
        assert st0 == Parser(st, st0.data, st.wanted);
        assert st0.data[total..] == st.data[total..] + b;
        var st1 := TakeFrame(c, st, f).(wanted := 2, data := st.data[total..]);
        TakeFrameLive(c, st, f);
        FeedResumes(c, st1, b);
      }
  }

  /** The same where a masked frame has stopped the parser. */
  lemma ClosedResumes(c: Config, st: State, b: seq<byte>, total: nat)
    requires Live(st.phase) && Look(st.data).Whole? && Look(st.data).masked && total == Look(st.data).total
    ensures var st1 := Feed(c, st);
      Feed(c, st.(data := st.data + b)) == Feed(c, st1.(data := st1.data + b))
  {
    hide Feed, Look, DoClose, TakeFrame, FrontFrame;
    LookExtends(st.data, b);
    var st0 := st.(data := st.data + b);
    var st1 := DoClose(c, st.(wanted := total), 1002, ProtocolError());
    FeedUnfold(c, st);
    FeedUnfold(c, st0);
    DoCloseTwice(c, st.(wanted := total), 1002, ProtocolError());
    var st2 := st1.(data := st.data + b);
    FeedUnfold(c, st2);
    DoCloseAlike(c, st.(wanted := total), 1002, ProtocolError(), st.data + b, total);
    DoCloseAlike(c, st1, 1002, ProtocolError(), st.data + b, total);
    assert st0.(wanted := total) == Parser(st.(wanted := total), st.data + b, total);
    assert st2.(wanted := total) == Parser(st1, st.data + b, total);
  }

  lemma {:induction false} FeedLive(c: Config, st: State)
    requires Live(st.phase)
    ensures Live(Feed(c, st).phase)
    decreases |st.data|
  {
    hide TakeFrame, Look, FrontFrame, BigEndian;
    if Look(st.data).Whole? && !Look(st.data).masked {
      TakeFrameLive(c, st, FrontFrame(st.data));
      FeedLive(c, TakeFrame(c, st, FrontFrame(st.data)).(wanted := 2, data := st.data[Look(st.data).total..]));
    }
  }

  // ---------------------------------------------------------------- in every run

  function Datas(chunks: seq<seq<byte>>): seq<Input> {
    seq(|chunks|, i requires 0 <= i < |chunks| => Data(chunks[i]))
  }

  /** Two reads in a row are one. */
  lemma TwoReads(c: Config, st: State, a: seq<byte>, b: seq<byte>)
    requires Live(st.phase)
    ensures Step(c, Step(c, st, Data(a)), Data(b)) == Step(c, st, Data(a + b))
  {
    hide Feed;
    FeedResumes(c, st.(data := st.data + a), b);
    assert st.data + a + b == st.data + (a + b);
  }

  lemma {:induction false} ReadsJoin(c: Config, st: State, chunks: seq<seq<byte>>)
    requires Live(st.phase) && chunks != []
    ensures Run(c, st, Datas(chunks)) == Step(c, st, Data(Concat(chunks)))
    decreases |chunks|
  {
    hide Step;
    var first, rest := chunks[0], chunks[1..];
    assert Datas(chunks)[1..] == Datas(rest);
    if rest == [] {
      assert Concat(chunks) == first + Concat(rest) == first;
    } else {
      StepLive(c, st, first);
      ReadsJoin(c, Step(c, st, Data(first)), rest);
      TwoReads(c, st, first, Concat(rest));
    }
  }

  lemma StepLive(c: Config, st: State, chunk: seq<byte>)
    requires Live(st.phase)
    ensures Live(Step(c, st, Data(chunk)).phase)
  {
    hide Feed;
    FeedLive(c, st.(data := st.data + chunk));
  }

  /**
    * Read-chunking independence of the connection. At any point of any run, any octets, legal or
    * not, and any way of cutting them into reads: phase, log, queue, reassembly, octets left over
    * and everything that follows are those of a single read. Lengths are unbounded here; `Wrapping`
    * says for which octets the source's 64-bit sum makes no difference.
    */
  lemma ReadsDoNotMatter(c: Config, before: seq<Input>, chunks: seq<seq<byte>>, behind: seq<Input>)
    requires chunks != []
    ensures Run(c, Opened, before + Datas(chunks) + behind) == Run(c, Opened, before + [Data(Concat(chunks))] + behind)
  {
    hide Run, Step, Inv;
    OpenedKeeps(c);
    RunKeeps(c, Opened, before);
    var st := Run(c, Opened, before);
    InvLive(c, st);
    ReadsJoin(c, st, chunks);
    RunAppend(c, Opened, before, Datas(chunks));
    RunAppend(c, Opened, before + Datas(chunks), behind);
    RunAppend(c, Opened, before, [Data(Concat(chunks))]);
    RunAppend(c, Opened, before + [Data(Concat(chunks))], behind);
    RunOne(c, st, Data(Concat(chunks)));
  }

  lemma InvLive(c: Config, st: State)
    requires Inv(c, st)
    ensures Live(st.phase)
  {
  }

  lemma RunOne(c: Config, st: State, i: Input)
    ensures Run(c, st, [i]) == Step(c, st, i)
  {
    hide Step;
    assert [i][1..] == [];
  }
}
