/**
  * The end of the HTTP upgrade: octets are read up to the delimiter of the header, and those received
  * behind it become the first input of the frame parser, if the stream goes on. What happens to them
  * if it has ended is shown by a whole message.
  */
module Handshake {
  import opened Bytes
  import opened ConnectionLaws
  import opened Frames
  import opened Session
  import opened SessionSafety
  import Chunking
  import Utf8
  import WebSocket

  predicate OccursAt(s: seq<byte>, delim: seq<byte>, i: nat) {
    i + |delim| <= |s| && s[i..i + |delim|] == delim
  }

  /** The first occurrence of the delimiter at or behind `from`, the length if there is none. */
  function Find(s: seq<byte>, delim: seq<byte>, from: nat): (r: nat)
    requires delim != [] && from <= |s|
    ensures from <= r <= |s| && (forall i :: from <= i < r ==> !OccursAt(s, delim, i))
    ensures r < |s| ==> OccursAt(s, delim, r)
    decreases |s| - from
  {
    if from == |s| || OccursAt(s, delim, from) then from else Find(s, delim, from + 1)
  }

  /** Later octets do not move the first occurrence. */
  lemma FindStays(a: seq<byte>, b: seq<byte>, delim: seq<byte>)
    requires delim != [] && Find(a, delim, 0) < |a|
    ensures Find(a + b, delim, 0) == Find(a, delim, 0)
  {
    var i := Find(a, delim, 0);
    assert (a + b)[i..i + |delim|] == a[i..i + |delim|];
    assert OccursAt(a + b, delim, i);
    forall j | 0 <= j < i ensures !OccursAt(a + b, delim, j) {
      assert !OccursAt(a, delim, j);
      assert (a + b)[j..j + |delim|] == a[j..j + |delim|];
    }
  }

  /** The results of the receive calls up to the first empty one, which is the end of the stream. */
  function UntilEnd(chunks: seq<seq<byte>>): (r: seq<seq<byte>>)
    ensures |r| <= |chunks| && r == chunks[..|r|] && (forall i :: 0 <= i < |r| ==> r[i] != [])
    ensures |r| < |chunks| ==> chunks[|r|] == []
  {
    if chunks == [] || chunks[0] == [] then [] else [chunks[0]] + UntilEnd(chunks[1..])
  }

  /** Reads until the delimiter has been seen. `chunks` are the results of the receive calls. */
  method ReadUntil(chunks: seq<seq<byte>>, delim: seq<byte>)
    returns (found: bool, result: seq<byte>, extra: seq<byte>, used: nat)
    requires delim != []
    ensures var came := UntilEnd(chunks); var all := Concat(came);
      && (found <==> Find(all, delim, 0) < |all|)
      && used <= |came|
      && (found ==> result == all[..Find(all, delim, 0)] && result + delim + extra == Concat(came[..used]))
  {
    hide Find, UntilEnd;
    ghost var came := UntilEnd(chunks);
    result, extra, used := [], [], 0;
    while used < |chunks| && chunks[used] != []
      invariant used <= |came| && result == Concat(came[..used])
      invariant Find(result, delim, 0) == |result|
      decreases |came| - used
    {
      assert came[..used + 1] == came[..used] + [came[used]] && came[used] == chunks[used];
      ConcatSnoc(came[..used], came[used]);
      result := result + chunks[used];
      used := used + 1;
      assert came == came[..used] + came[used..];
      ConcatAppend(came[..used], came[used..]);
      var pos := Find(result, delim, 0);
      if pos < |result| {
        FindStays(result, Concat(came[used..]), delim);
        assert OccursAt(result, delim, pos);
        extra := result[pos + |delim|..];
        assert result == result[..pos] + delim + extra;
        result := result[..pos];
        return true, result, extra, used;
      }
    }
    assert came[..used] == came;
    return false, result, extra, used;
  }

  lemma BehindCut(all: seq<byte>, cut: seq<byte>, extra: seq<byte>, rest: seq<byte>)
    requires all == cut + extra + rest
    ensures all[|cut|..] == extra + rest
  {
  }

  /**
    * However the octets of the upgrade arrive, header and frames are told apart at the same place:
    * the header is what precedes the first delimiter, and what was read too far is, with the octets
    * still to come, what follows it.
    */
  lemma SplitIsStable(chunks: seq<seq<byte>>, used: nat, delim: seq<byte>, result: seq<byte>, extra: seq<byte>)
    requires delim != [] && used <= |chunks|
    requires Find(Concat(chunks), delim, 0) < |Concat(chunks)|
    requires result == Concat(chunks)[..Find(Concat(chunks), delim, 0)]
    requires result + delim + extra == Concat(chunks[..used])
    ensures extra + Concat(chunks[used..]) == Concat(chunks)[Find(Concat(chunks), delim, 0) + |delim|..]
  {
    hide Find, Concat;
    var cut, rest := result + delim, Concat(chunks[used..]);
    assert chunks == chunks[..used] + chunks[used..];
    ConcatAppend(chunks[..used], chunks[used..]);
    BehindCut(Concat(chunks), cut, extra, rest);
  }

  /** The connection at the end of the upgrade, with the octets read too far as the parser's buffer. */
  function Begun(extra: seq<byte>): State { Opened.(data := extra) }

  /**
    * The data event raised by hand reads from the socket before it parses. If the stream goes on, the
    * connection is from then on as if the surplus had been the first read.
    */
  lemma SurplusIsFirstRead(c: Config, extra: seq<byte>, read: WebSocket.Read, run: seq<Input>)
    requires !WebSocket.InputOf(read).Gone?
    ensures var i := WebSocket.InputOf(read);
      Run(c, Step(c, Begun(extra), i), run) == Run(c, Opened, [Data(extra), i] + run)
  {
    hide Feed;
    var chunk := WebSocket.InputOf(read).chunk;
    assert [] + extra == extra;
    assert Step(c, Opened, Data(extra)) == Feed(c, Begun(extra));
    Chunking.FeedResumes(c, Begun(extra), chunk);
    var all := [Data(extra), Data(chunk)] + run;
    assert all[1..] == [Data(chunk)] + run && all[1..][1..] == run;
  }

  /** If it has ended, the surplus is never parsed: nothing in it is delivered, then or later. */
  lemma SurplusIsLost(c: Config, extra: seq<byte>, read: WebSocket.Read, run: seq<Input>)
    requires WebSocket.InputOf(read).Gone?
    ensures var st := Step(c, Begun(extra), WebSocket.InputOf(read));
      st.phase.Closed? && st.data == extra && Delivered(Run(c, st, run).log) == []
  {
    hide Inv, Delivered, ActAll;
    var st := Step(c, Begun(extra), Gone);
    OpenedKeeps(c);
    ParserFieldsFree(c, Opened, extra, 2);
    StepKeeps(c, Begun(extra), Gone);
    var st1 := Emit(Begun(extra).(phase := Closed), c.hasClose, OnClose(1006, ConnectionLost()));
    DeliveredSnoc([], OnClose(1006, ConnectionLost()));
    ReactDelivers(c, Begun(extra), st1);
    NothingDelivered();
    Chunking.ActAllAlike(c, st1, c.app(st1.log), extra, 2);
    assert Chunking.Parser(st1, extra, 2) == st1;
    DisconnectKeeps(c, Begun(extra));
    SilentOnceClosed(c, st, run);
  }

  lemma NothingDelivered()
    ensures Delivered([]) == []
  {
  }

  /** A whole message can be lost like that: it would have been delivered had the stream gone on. */
  lemma LostMessage(c: Config, read: WebSocket.Read)
    requires c.hasMessage && WebSocket.InputOf(read).Gone?
    ensures var extra: seq<byte> := [0x81, 1, 0x61];
      && ParseAll(extra).frames == [Frame([0x81, 1], [0x61])]
      && Delivered(Step(c, Begun(extra), Data([])).log) == [OnMessage([0x61], false)]
      && Delivered(Step(c, Begun(extra), WebSocket.InputOf(read)).log) == []
  {
    hide Delivered, Feed, TakeFrame, ParseAll;
    var extra: seq<byte> := [FIN + TEXT, 1, 0x61];
    var f := Frame([FIN + TEXT, 1], [0x61]);
    SurplusIsLost(c, extra, read, []);
    RunNone(c, Step(c, Begun(extra), WebSocket.InputOf(read)));
    assert Look(extra) == Whole(false, 2, 3) && FrontFrame(extra) == f && extra[3..] == [];
    ParseStep(extra);
    ParseNothing();
    assert extra + [] == extra;
    Chunking.FeedIsParse(c, Begun(extra));
    TakesMessage(c, extra);
    var st := TakeFrame(c, Begun(extra), f);
    TakeOne(c, Begun(extra), f);
  }

  lemma ParseNothing()
    ensures ParseAll([]) == Parsed([], [], false)
  {
  }

  lemma RunNone(c: Config, st: State)
    ensures Run(c, st, []) == st
  {
  }

  lemma TakeOne(c: Config, st: State, f: Frame)
    requires f.head != []
    ensures Chunking.TakeAll(c, st, [f]) == TakeFrame(c, st, f)
    ensures Chunking.Leave(c, st, []).log == st.log
  {
    hide TakeFrame;
    assert [f][1..] == [];
    assert Chunking.TakeAll(c, TakeFrame(c, st, f), [f][1..]) == TakeFrame(c, st, f);
  }

  lemma TakesMessage(c: Config, data: seq<byte>)
    requires c.hasMessage
    ensures Delivered(TakeFrame(c, Begun(data), Frame([FIN + TEXT, 1], [0x61])).log) == [OnMessage([0x61], false)]
  {
    hide Delivered, ActAll, Utf8.Scan;
    AsciiIsValid(c.mode, [0x61]);
    var st := Begun(data);
    var st1 := HandleFrame(c, st, FIN + TEXT, [0x61]);
    assert st1.log == [] + [OnMessage([0x61], false)];
    DeliveredSnoc([], OnMessage([0x61], false));
    NothingDelivered();
    ReactDelivers(c, st, st1);
  }
}
