/**
  * The connection object: the fields the client updates in place and the methods that do it, each
  * proved to be the step of the state machine in `Session`. Sending and parsing work on buffers
  * octet by octet, and the queue of frames, the log and the wire are kept beside them.
  */
module WebSocket {
  import opened Bytes
  import opened Utf8
  import opened Utf8Laws
  import opened Frames
  import S = Session
  import L = SessionSafety
  import C = Chunking

  // ---------------------------------------------------------------- big-endian access

  method GetBe(ptr: seq<byte>) returns (result: nat)
    ensures result == FromBigEndian(ptr)
  {
    result := 0;
    for i := 0 to |ptr|
      invariant result == FromBigEndian(ptr[..i])
    {
      assert ptr[..i + 1][..i] == ptr[..i];
      result := 256 * result + ptr[i];
    }
    assert ptr[..|ptr|] == ptr;
  }

  /** Writes the low `n` octets of `val` at `at`, the most significant first. */
  method SetBe(a: array<byte>, at: nat, n: nat, val: nat)
    requires at + n <= a.Length
    modifies a
    ensures a[at..at + n] == BigEndian(n, val)
    ensures a[..at] == old(a[..at]) && a[at + n..] == old(a[at + n..])
  {
    var v := val;
    for k := 0 to n
      invariant BigEndian(n, val) == BigEndian(n - k, v) + a[at + n - k..at + n]
      invariant a[..at] == old(a[..at]) && a[at + n..] == old(a[at + n..])
    {
      ghost var was := a[at + n - k..at + n];
      a[at + n - 1 - k] := v % 256;
      assert a[at + n - 1 - k..at + n] == [v % 256] + was;
      v := v / 256;
    }
  }

  // ---------------------------------------------------------------- the serialiser

  /** The octets in front of the masking key: opcode and payload length in its shortest form. */
  method WriteHeader(first: array<byte>, op: byte, n: nat)
    requires first.Length == 6 + |LengthOctets(PickForm(n), n, 128)| - 1 + n
    modifies first
    ensures var h := 1 + |LengthOctets(PickForm(n), n, 128)|;
      first[..h] == [op] + LengthOctets(PickForm(n), n, 128) && first[h..] == old(first[h..])
  {
    hide BigEndian;
    first[0] := op;
    if n > 65535 {
      first[1] := 127;
      SetBe(first, 2, 8, n);
      assert first[..10] == first[..2] + first[2..10];
    } else if n > 125 {
      first[1] := 126;
      SetBe(first, 2, 2, n);
      assert first[..4] == first[..2] + first[2..4];
    } else {
      first[1] := n;
    }
    first[1] := first[1] + 128;
  }

  /** Lays out header, key and payload in one buffer, then masks the payload in place. */
  method BuildFrame(op: byte, buf: seq<byte>, key: Key) returns (wire: seq<byte>)
    ensures wire == Serialise(Sent(op, buf, key))
  {
    hide BigEndian, Xor, Mask;
    var headerLen := 2 + 4;
    if |buf| > 65535 {
      headerLen := headerLen + 8;
    } else if |buf| > 125 {
      headerLen := headerLen + 2;
    }
    ghost var len := LengthOctets(PickForm(|buf|), |buf|, 128);
    assert headerLen == 5 + |len|;
    hide LengthOctets, PickForm;
    var first := new byte[headerLen + |buf|];
    forall i | 0 <= i < |buf| {
      first[headerLen + i] := buf[i];
    }
    assert first[headerLen..] == buf;
    WriteHeader(first, op, |buf|);
    assert first[headerLen..] == first[headerLen - 4..][4..];
    assert first[headerLen..] == buf;
    forall i | 0 <= i < 4 {
      first[headerLen - 4 + i] := key[i];
    }
    assert first[headerLen - 4..headerLen] == key;
    assert first[headerLen..] == buf;
    assert first[..headerLen - 4] == [op] + len;
    ghost var head := first[..headerLen];
    assert head == [op] + len + key;
    MaskInPlace(first, headerLen, buf, key);
    wire := first[..];
    assert wire == first[..headerLen] + first[headerLen..];
  }

  /** The masking loop over the octets behind the header. */
  method MaskInPlace(first: array<byte>, headerLen: nat, ghost buf: seq<byte>, key: Key)
    requires 4 <= headerLen <= first.Length && first[headerLen..] == buf
    requires first[headerLen - 4..headerLen] == key
    modifies first
    ensures first[..headerLen] == old(first[..headerLen])
    ensures first[headerLen..] == Mask(key, buf)
  {
    hide Xor;
    ghost var head := first[..headerLen];
    var i := 0;
    while i < first.Length - headerLen
      invariant 0 <= i <= |buf|
      invariant first[..headerLen] == head
      invariant forall j :: 0 <= j < i ==> first[headerLen + j] == Xor(buf[j], key[j % 4])
      invariant forall j :: i <= j < |buf| ==> first[headerLen + j] == buf[j]
    {
      assert first[headerLen - 4 + i % 4] == head[headerLen - 4 + i % 4] == key[i % 4];
      first[headerLen + i] := Xor(first[headerLen + i], first[headerLen - 4 + i % 4]);
      i := i + 1;
    }
  }

  // ---------------------------------------------------------------- the connection

  /** The result of asking the socket for octets, or the news that the read was cancelled. */
  datatype Read = Cancelled | Ended | NoData | Some(chunk: seq<byte>)

  /** The read as an input of the state machine. */
  function InputOf(read: Read): S.Input {
    match read
    case Cancelled => S.Gone
    case Ended => S.Gone
    case NoData => S.Data([])
    case Some(chunk) => S.Data(chunk)
  }

  /**
    * The header arithmetic of one iteration, with the cached size raised to the header's and then
    * to the whole frame's as they become known.
    */
  method Inspect(data: seq<byte>, cached: nat) returns (front: Front, wanted: nat)
    requires |data| >= cached && WantedSound(data, cached)
    ensures front == Look(data)
    ensures wanted == if front.More? then front.wanted else front.total
  {
    hide FromBigEndian;
    var isMasked := data[1] >= 128;
    var payloadLen: nat := data[1] % 128;
    var headerLen := 2 + (if isMasked then 4 else 0)
      + (if payloadLen >= 126 then (if payloadLen == 127 then 8 else 2) else 0);
    wanted := if cached < headerLen then headerLen else cached;
    if |data| < wanted {
      return More(wanted), wanted;
    }
    if payloadLen == 126 {
      payloadLen := GetBe(data[2..4]);
    } else if payloadLen == 127 {
      payloadLen := GetBe(data[2..10]);
    }
    var total := headerLen + payloadLen;
    wanted := if wanted < total then total else wanted;
    if |data| < wanted {
      return More(wanted), wanted;
    }
    return Whole(isMasked, headerLen, total), wanted;
  }

  class WebSocketState {
    const cfg: S.Config
    var conState: S.Phase
    var parserData: seq<byte>
    var parserWantedSize: nat
    var fragmentCode: byte
    var fragmentPayload: seq<byte>
    var fragmentValidateOffset: nat
    var sendQueue: seq<(seq<byte>, S.After)>
    var keysDrawn: nat
    var log: seq<S.Event>

    ghost var sent: seq<S.Queued>
    ghost var popped: nat
    ghost var whole: nat
    ghost var wire: seq<byte>

    /** The queue holds the wire images of the frames that have not left it, in order. */
    ghost predicate Valid()
      reads this
    {
      && popped + |sendQueue| == |sent| == keysDrawn
      && forall i :: 0 <= i < |sendQueue| ==>
           sendQueue[i] == (Serialise(sent[popped + i].frame), sent[popped + i].after)
    }

    /** The cached size is never more than what the buffered octets call for. */
    ghost predicate ParserSound()
      reads this
    {
      WantedSound(parserData, parserWantedSize)
    }

    /** The state of the object as a state of the state machine. */
    ghost function View(): S.State
      reads this
    {
      S.State(conState, parserData, parserWantedSize, fragmentCode, fragmentPayload,
        fragmentValidateOffset, sent, popped, whole, wire, log)
    }

    constructor (cfg: S.Config)
      ensures this.cfg == cfg
      ensures Valid() && ParserSound()
      ensures View() == S.Opened
    {
      this.cfg := cfg;
      conState := S.Open;
      parserData, parserWantedSize := [], 2;
      fragmentCode, fragmentPayload, fragmentValidateOffset := CONTINUATION, [], 0;
      sendQueue, keysDrawn, log := [], 0, [];
      sent, popped, whole, wire := [], 0, 0, [];
    }

    // -------------------------------------------------------------- sending

    method SendFrame(op: byte, buf: seq<byte>, cb: S.After)
      requires Valid()
      modifies this
      ensures Valid() && View() == S.SendFrame(cfg, old(View()), op, buf, cb)
      ensures parserData == old(parserData) && parserWantedSize == old(parserWantedSize)
    {
      hide Serialise;
      if CleanOp(op) == CLOSE && conState.Open? {
        conState := S.ClientClose;
      }
      var key := cfg.key(keysDrawn);
      var wire := BuildFrame(op, buf, key);
      keysDrawn := keysDrawn + 1;
      sendQueue := sendQueue + [(wire, cb)];
      sent := sent + [S.Queued(Sent(op, buf, key), cb)];
    }

    method Close(code: nat, reason: seq<byte>)
      requires Valid()
      modifies this
      ensures Valid() && View() == S.DoClose(cfg, old(View()), code, reason)
      ensures parserData == old(parserData) && parserWantedSize == old(parserWantedSize)
    {
      hide BigEndian;
      if conState.Closed? || conState.ClientClose? {
        return;
      }
      var cb := S.Nothing;
      if conState.ServerClose? {
        conState := S.Closed;
        if cfg.hasClose {
          cb := S.Notify(code, reason);
        }
      }
      var payload := new byte[2 + |reason|];
      SetBe(payload, 0, 2, code);
      forall i | 0 <= i < |reason| {
        payload[2 + i] := reason[i];
      }
      assert payload[0..2] == BigEndian(2, code);
      assert payload[2..] == reason;
      assert payload[..] == BigEndian(2, code) + reason;
      SendFrame(FIN + CLOSE, payload[..], cb);
    }

    // -------------------------------------------------------------- the public interface

    /** `send`, `send_text`, `send_binary`, `send_ping` and `send_pong`. */
    method Send(kind: S.Kind, payload: seq<byte>, tag: nat)
      requires Valid()
      modifies this
      ensures Valid() && View() == S.Act(cfg, old(View()), S.Send(kind, payload, tag))
      ensures parserData == old(parserData) && parserWantedSize == old(parserWantedSize)
    {
      if !conState.Open? {
        log := log + [S.OnRefused(tag)];
        return;
      }
      SendFrame(S.OpOf(kind), payload, S.Tell(tag));
    }

    method UserClose(code: S.Code, reason: seq<byte>)
      requires Valid()
      modifies this
      ensures Valid() && View() == S.Act(cfg, old(View()), S.Close(code, reason))
      ensures parserData == old(parserData) && parserWantedSize == old(parserWantedSize)
    {
      hide Scan;
      var v := Validate(cfg.mode, reason);
      if !v.result.Valid? {
        return;
      }
      Close(code, reason);
    }

    /** What the application does from within a callback. */
    method Perform(acts: seq<S.Action>)
      requires Valid()
      modifies this
      ensures Valid() && View() == S.ActAll(cfg, old(View()), acts)
      ensures parserData == old(parserData) && parserWantedSize == old(parserWantedSize)
    {
      hide Valid, S.Act;
      ghost var start := View();
      var i := 0;
      assert acts[0..] == acts;
      while i < |acts|
        invariant 0 <= i <= |acts|
        invariant Valid() && S.ActAll(cfg, View(), acts[i..]) == S.ActAll(cfg, start, acts)
        invariant parserData == old(parserData) && parserWantedSize == old(parserWantedSize)
      {
        assert acts[i..][0] == acts[i] && acts[i..][1..] == acts[i + 1..];
        match acts[i] {
          case Send(kind, payload, tag) => Send(kind, payload, tag);
          case Close(code, reason) => UserClose(code, reason);
        }
        i := i + 1;
      }
    }

    /** Runs a callback that is set: the application sees the event and reacts. */
    method Call(e: S.Event)
      requires Valid()
      modifies this
      ensures Valid() && View() == S.React(cfg, old(View()), S.Emit(old(View()), true, e))
      ensures parserData == old(parserData) && parserWantedSize == old(parserWantedSize)
    {
      log := log + [e];
      Perform(cfg.app(log));
    }

    // -------------------------------------------------------------- frames

    method HandleCloseFrame(op: byte, payload: seq<byte>)
      requires Valid()
      modifies this
      ensures Valid()
      ensures View() == S.React(cfg, old(View()), S.HandleClose(cfg, old(View()), op, payload))
    {
      hide Scan, BigEndian, FromBigEndian, S.ActAll, S.DoClose;
      var code := 1000;
      var reason := payload;
      if |reason| >= 2 {
        code := GetBe(payload[..2]);
        reason := reason[2..];
      }
      if conState.ClientClose? {
        ghost var start := View();
        if cfg.hasClose {
          Call(S.OnClose(code, reason));
          ClosingActsAlike(cfg, start.(log := start.log + [S.OnClose(code, reason)]),
            cfg.app(start.log + [S.OnClose(code, reason)]));
        }
        conState := S.Closed;
        return;
      }
      ghost var st1 := View().(phase := S.ServerClose);
      conState := S.ServerClose;
      DoCloseLog(cfg, st1);
      if !IsFin(op) || |payload| > 125 || |payload| == 1 {
        Close(1002, S.ProtocolError());
        return;
      }
      var v := Validate(cfg.mode, reason);
      if !v.result.Valid? {
        Close(1007, S.BadReason());
        return;
      }
      if code < 1000 || code == 1004 || code == 1005 || code == 1006 || 1015 <= code < 3000 || code >= 5000 {
        Close(1002, S.ProtocolError());
        return;
      }
      Close(code, reason);
    }

    method HandlePingFrame(op: byte, payload: seq<byte>)
      requires Valid()
      modifies this
      ensures Valid()
      ensures View() == S.React(cfg, old(View()), S.HandlePing(cfg, old(View()), op, payload))
    {
      hide S.ActAll, S.DoClose;
      DoCloseLog(cfg, View());
      if !IsFin(op) || |payload| > 125 {
        Close(1002, S.ProtocolError());
        return;
      }
      if cfg.hasPing {
        Call(S.OnPing(payload));
      } else {
        SendFrame(FIN + PONG, payload, S.Nothing);
      }
    }

    method HandlePongFrame(op: byte, payload: seq<byte>)
      requires Valid()
      modifies this
      ensures Valid()
      ensures View() == S.React(cfg, old(View()), S.HandlePong(cfg, old(View()), op, payload))
    {
      hide S.ActAll, S.DoClose;
      DoCloseLog(cfg, View());
      if !IsFin(op) || |payload| > 125 {
        Close(1002, S.ProtocolError());
        return;
      }
      if cfg.hasPong {
        Call(S.OnPong(payload));
      }
    }

    method HandleTextFrame(op: byte, payload: seq<byte>)
      requires Valid()
      modifies this
      ensures Valid()
      ensures View() == S.React(cfg, old(View()), S.HandleText(cfg, old(View()), op, payload))
    {
      hide Scan, S.ActAll, S.DoClose;
      DoCloseLog(cfg, View());
      if fragmentCode != CONTINUATION {
        Close(1002, S.ProtocolError());
        return;
      }
      if !IsFin(op) {
        fragmentCode := TEXT;
        fragmentPayload := payload;
        DoCloseLog(cfg, View());
        var v := Validate(cfg.mode, fragmentPayload);
        if v.result.Invalid? {
          Close(1007, S.BadText());
          return;
        }
        fragmentValidateOffset := v.last;
      } else {
        var v := Validate(cfg.mode, payload);
        if !v.result.Valid? {
          Close(1007, S.BadText());
          return;
        }
        if cfg.hasMessage {
          Call(S.OnMessage(payload, false));
        }
      }
    }

    method HandleBinaryFrame(op: byte, payload: seq<byte>)
      requires Valid()
      modifies this
      ensures Valid()
      ensures View() == S.React(cfg, old(View()), S.HandleBinary(cfg, old(View()), op, payload))
    {
      hide S.ActAll, S.DoClose;
      DoCloseLog(cfg, View());
      if fragmentCode != CONTINUATION {
        Close(1002, S.ProtocolError());
        return;
      }
      if !IsFin(op) {
        fragmentCode := BINARY;
        fragmentPayload := payload;
        fragmentValidateOffset := 0;
      } else if cfg.hasMessage {
        Call(S.OnMessage(payload, true));
      }
    }

    method HandleContinuationFrame(op: byte, payload: seq<byte>)
      requires Valid()
      modifies this
      ensures Valid()
      ensures View() == S.React(cfg, old(View()), S.HandleContinuation(cfg, old(View()), op, payload))
    {
      hide Scan, S.ActAll, S.DoClose;
      DoCloseLog(cfg, View());
      if fragmentCode == CONTINUATION {
        Close(1002, S.ProtocolError());
        return;
      }
      fragmentPayload := fragmentPayload + payload;
      DoCloseLog(cfg, View());
      if IsFin(op) {
        var binary := fragmentCode == BINARY;
        fragmentCode := CONTINUATION;
        var whole := fragmentPayload;
        fragmentPayload := [];
        DoCloseLog(cfg, View());
        if !binary {
          var v := Validate(cfg.mode, S.Suffix(whole, fragmentValidateOffset));
          if !v.result.Valid? {
            Close(1007, S.BadText());
            return;
          }
        }
        if cfg.hasMessage {
          Call(S.OnMessage(whole, binary));
        }
      } else if fragmentCode != BINARY {
        var v := Validate(cfg.mode, S.Suffix(fragmentPayload, fragmentValidateOffset));
        if v.result.Invalid? {
          Close(1007, S.BadText());
          return;
        }
        fragmentValidateOffset := fragmentValidateOffset + v.last;
      }
    }

    method HandleFrame(code: byte, payload: seq<byte>)
      requires Valid()
      modifies this
      ensures Valid()
      ensures View() == S.React(cfg, old(View()), S.HandleFrame(cfg, old(View()), code, payload))
    {
      hide S.React, S.DoClose, S.HandleClose, S.HandlePing, S.HandlePong;
      hide S.HandleText, S.HandleBinary, S.HandleContinuation;
      ghost var start := View();
      NoReaction(cfg, start, start);
      DoCloseLog(cfg, start);
      NoReaction(cfg, start, S.DoClose(cfg, start, 1002, S.ProtocolError()));
      if conState.Closed? || conState.ServerClose? {
        return;
      }
      var cleanCode := CleanOp(code);
      if cleanCode == CLOSE || cleanCode == PING || cleanCode == PONG {
        if Rsv(code) != 0 {
          Close(1002, S.ProtocolError());
          return;
        }
        if cleanCode == CLOSE {
          HandleCloseFrame(code, payload);
        } else if cleanCode == PING {
          HandlePingFrame(code, payload);
        } else {
          HandlePongFrame(code, payload);
        }
      } else if cleanCode == CONTINUATION || cleanCode == BINARY || cleanCode == TEXT {
        if Rsv(code) != 0 {
          Close(1002, S.ProtocolError());
          return;
        }
        if cleanCode == CONTINUATION {
          HandleContinuationFrame(code, payload);
        } else if cleanCode == BINARY {
          HandleBinaryFrame(code, payload);
        } else {
          HandleTextFrame(code, payload);
        }
      } else {
        Close(1002, S.ProtocolError());
      }
    }

    // -------------------------------------------------------------- entry points

    method RawOnDisconnect()
      requires Valid()
      modifies this
      ensures Valid() && View() == S.Step(cfg, old(View()), S.Gone)
      ensures parserData == old(parserData) && parserWantedSize == old(parserWantedSize)
    {
      hide S.ActAll;
      var before := conState;
      conState := S.Closed;
      if before.Closed? || before.ServerClose? {
        return;
      }
      if cfg.hasClose {
        Call(S.OnClose(1006, S.ConnectionLost()));
      }
    }

    /**
      * The data event. The result tells whether the handler is to be removed. The loop looks at
      * the buffer only when it holds as many octets as the last look asked for.
      */
    method RawOnDataAvailable(read: Read) returns (clear: bool)
      requires Valid() && ParserSound()
      modifies this
      ensures Valid() && ParserSound()
      ensures View() == S.Step(cfg, old(View()), InputOf(read))
      ensures clear <==> InputOf(read).Gone?
      ensures !clear ==>
        var f := Look(parserData);
        f == More(parserWantedSize) || (f.Whole? && f.masked && f.total == parserWantedSize)
    {
      hide S.Feed, S.TakeFrame, FromBigEndian, S.HandleFrame, S.DoClose;
      if read.Cancelled? || read.Ended? {
        RawOnDisconnect();
        return true;
      }
      ghost var start := View();
      if read.Some? {
        LookExtends(parserData, read.chunk);
        parserData := parserData + read.chunk;
      } else {
        assert parserData + [] == parserData;
      }
      ghost var fed := S.Feed(cfg, start.(data := parserData));
      while |parserData| >= parserWantedSize
        invariant Valid() && ParserSound() && S.Feed(cfg, View()) == fed
        decreases |parserData|, if |parserData| >= parserWantedSize then 1 else 0
      {
        ghost var st := View();
        C.FeedUnfold(cfg, st);
        var front;
        front, parserWantedSize := Inspect(parserData, parserWantedSize);
        C.CacheIsOnlyACache(cfg, st, parserWantedSize);
        if front.More? {
          continue;
        }
        if front.masked {
          Close(1002, S.ProtocolError());
          L.DoCloseFrame(cfg, st.(wanted := front.total), 1002, S.ProtocolError());
          return false;
        }
        TakeNext(front);
      }
      C.FeedUnfold(cfg, View());
      return false;
    }

    /** Handles the frame at the front of the buffer and drops its octets. */
    method TakeNext(front: Front)
      requires Valid() && front == Look(parserData) && front.Whole? && !front.masked
      requires parserWantedSize == front.total
      modifies this
      ensures Valid() && ParserSound() && |parserData| < |old(parserData)|
      ensures S.Feed(cfg, View()) == S.Feed(cfg, old(View()))
    {
      hide S.Feed, S.React, S.HandleFrame, S.TakeFrame;
      ghost var st := View();
      ghost var f := FrontFrame(parserData);
      C.FeedUnfold(cfg, st);
      C.TakenLeavesParser(cfg, st, f);
      TakeFrameIs(cfg, st, f);
      assert f.head[0] == parserData[0] && f.payload == parserData[front.header..front.total];
      HandleFrame(parserData[0], parserData[front.header..front.total]);
      parserWantedSize := 2;
      parserData := parserData[front.total..];
    }

    /**
      * One round of the sending task: the socket has taken `res` octets of the frame at the head of
      * the queue, none if it took an earlier one in part only.
      */
    method PopSent(res: nat)
      requires Valid()
      requires sendQueue != [] ==> res <= |sendQueue[0].0| && (whole < popped ==> res == 0)
      modifies this
      ensures Valid() && View() == S.Step(cfg, old(View()), S.Pop(res))
      ensures parserData == old(parserData) && parserWantedSize == old(parserWantedSize)
    {
      hide S.ActAll, Serialise;
      if sendQueue == [] {
        return;
      }
      var element := sendQueue[0];
      ghost var was := sent[popped];
      var ok := res == |element.0|;
      wire := wire + element.0[..res];
      if ok {
        whole := whole + 1;
      }
      sendQueue := sendQueue[1..];
      popped := popped + 1;
      match element.1 {
        case Nothing =>
        case Tell(tag) => Call(S.OnSent(tag, ok));
        case Notify(code, reason) => Call(S.OnClose(code, reason));
      }
    }

    /**
      * The handshake is over: octets read with it become the parser's buffer, and the data event is
      * raised by hand.
      */
    method Begin(buffer: seq<byte>, read: Read)
      requires Valid() && View() == S.Opened
      modifies this
      ensures Valid() && View() == S.Step(cfg, S.Opened.(data := buffer), InputOf(read))
    {
      parserData := buffer;
      var _ := RawOnDataAvailable(read);
    }
  }

  /** At most what is needed, and exactly that when the buffer is still too short. */
  ghost predicate WantedSound(data: seq<byte>, wanted: nat) {
    && 2 <= wanted
    && wanted <= (if Look(data).More? then Look(data).wanted else Look(data).total)
    && (|data| < wanted ==> Look(data) == More(wanted))
  }

  // ---------------------------------------------------------------- about the steps

  lemma NoReaction(c: S.Config, before: S.State, st: S.State)
    requires st.log == before.log
    ensures S.React(c, before, st) == st
  {
  }

  lemma DoCloseLog(c: S.Config, st: S.State)
    ensures forall code, reason :: S.DoClose(c, st, code, reason).log == st.log
  {
  }

  /** Inside the last close notification the application can neither send nor close any more. */
  lemma {:induction false} ClosingActsAlike(c: S.Config, st: S.State, acts: seq<S.Action>)
    requires st.phase.ClientClose?
    ensures S.ActAll(c, st, acts).(phase := S.Closed) == S.ActAll(c, st.(phase := S.Closed), acts)
    decreases |acts|
  {
    hide Scan;
    if acts != [] {
      ClosingActsAlike(c, S.Act(c, st, acts[0]), acts[1..]);
    }
  }

  lemma TakeFrameIs(c: S.Config, st: S.State, f: Frame)
    requires f.head != []
    ensures S.TakeFrame(c, st, f) == S.React(c, st, S.HandleFrame(c, st, f.head[0], f.payload))
  {
    hide S.React, S.HandleFrame;
  }
}
