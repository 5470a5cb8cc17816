/**
  * The WebSocket connection as a state machine: every entry point of the client maps a state to
  * the next one. The callbacks of the application may call back into `send` and `close`.
  */
module Session {
  import opened Bytes
  import opened Utf8
  import opened Frames

  datatype Phase = Init | Connect | Handshake | Open | ClientClose | ServerClose | Closed

  datatype Kind = TextKind | BinaryKind | PingKind | PongKind

  /** A status code: sixteen bits. */
  type Code = x: nat | x < TWO_TO_THE_16

  /** What the application may ask for, at any time or from within a callback. */
  datatype Action =
    | Send(kind: Kind, payload: seq<byte>, tag: nat)
    | Close(code: Code, reason: seq<byte>)

  /**
    * What the application gets to see. `tag` names the callback passed to `send`; it is called with
    * false at once if the call is refused, and later with the outcome if the frame was queued.
    */
  datatype Event =
    | OnMessage(payload: seq<byte>, binary: bool)
    | OnPing(payload: seq<byte>)
    | OnPong(payload: seq<byte>)
    | OnClose(code: nat, reason: seq<byte>)
    | OnSent(tag: nat, ok: bool)
    | OnRefused(tag: nat)

  /** What happens once a queued frame has been handed to the socket. */
  datatype After = Nothing | Tell(tag: nat) | Notify(code: nat, reason: seq<byte>)

  datatype Queued = Queued(frame: Sent, after: After)

  /**
    * Fixed for a connection: the validation mode, which callbacks are set, the application's
    * reaction to everything it has seen so far, and the masking keys in the order they are drawn.
    */
  datatype Config = Config(
    mode: Mode,
    hasMessage: bool,
    hasPing: bool,
    hasPong: bool,
    hasClose: bool,
    app: seq<Event> -> seq<Action>,
    key: nat -> Key)

  /**
    * `sent` holds every frame ever queued, the first `popped` of which have left the queue, the
    * first `whole` of which the socket has taken in full; `wire` is every octet it has taken; `log`
    * is everything the application has seen.
    */
  datatype State = State(
    phase: Phase,
    data: seq<byte>,
    wanted: nat,
    fragOp: byte,
    fragPayload: seq<byte>,
    fragOffset: nat,
    sent: seq<Queued>,
    popped: nat,
    whole: nat,
    wire: seq<byte>,
    log: seq<Event>)

  function Ascii(s: string): seq<byte> {
    seq(|s|, i requires 0 <= i < |s| => s[i] as int % 256)
  }

  function ProtocolError(): seq<byte> { Ascii("Protocol error") }
  function BadText(): seq<byte> { Ascii("Invalid utf8") }
  function BadReason(): seq<byte> { Ascii("Invalid utf-8") }
  function ConnectionLost(): seq<byte> { Ascii("Connection lost") }

  /** The state of a connection right after the handshake. */
  const Opened: State := State(Open, [], 2, CONTINUATION, [], 0, [], 0, 0, [], [])

  // ---------------------------------------------------------------- sending

  function Emit(st: State, set_: bool, e: Event): State {
    if set_ then st.(log := st.log + [e]) else st
  }

  function SendFrame(c: Config, st: State, op: byte, payload: seq<byte>, after: After): State {
    var phase := if CleanOp(op) == CLOSE && st.phase.Open? then ClientClose else st.phase;
    st.(phase := phase, sent := st.sent + [Queued(Sent(op, payload, c.key(|st.sent|)), after)])
  }

  function DoClose(c: Config, st: State, code: nat, reason: seq<byte>): State {
    if st.phase.Closed? || st.phase.ClientClose? then st
    else if st.phase.ServerClose? then
      SendFrame(c, st.(phase := Closed), FIN + CLOSE, BigEndian(2, code) + reason,
        if c.hasClose then Notify(code, reason) else Nothing)
    else SendFrame(c, st, FIN + CLOSE, BigEndian(2, code) + reason, Nothing)
  }

  function OpOf(kind: Kind): byte {
    match kind
    case TextKind => FIN + TEXT
    case BinaryKind => FIN + BINARY
    case PingKind => FIN + PING
    case PongKind => FIN + PONG
  }

  function Act(c: Config, st: State, a: Action): State {
    match a
    case Send(kind, payload, tag) =>
      if !st.phase.Open? then Emit(st, true, OnRefused(tag))
      else SendFrame(c, st, OpOf(kind), payload, Tell(tag))
    case Close(code, reason) =>
      if !Scan(c.mode, reason).result.Valid? then st else DoClose(c, st, code, reason)
  }

  function ActAll(c: Config, st: State, acts: seq<Action>): State
    decreases |acts|
  {
    if acts == [] then st else ActAll(c, Act(c, st, acts[0]), acts[1..])
  }

  /** After a step that ran a callback the application reacts. */
  function React(c: Config, before: State, st: State): State {
    if st.log == before.log then st else ActAll(c, st, c.app(st.log))
  }

  // ---------------------------------------------------------------- receiving

  function CloseCode(payload: seq<byte>): nat {
    if |payload| >= 2 then FromBigEndian(payload[..2]) else 1000
  }

  function CloseReason(payload: seq<byte>): seq<byte> {
    if |payload| >= 2 then payload[2..] else payload
  }

  predicate RefusedCode(code: nat) {
    code < 1000 || code == 1004 || code == 1005 || code == 1006 || 1015 <= code < 3000 || code >= 5000
  }

  function HandleClose(c: Config, st: State, op: byte, payload: seq<byte>): State {
    var code, reason := CloseCode(payload), CloseReason(payload);
    if st.phase.ClientClose? then
      Emit(st, c.hasClose, OnClose(code, reason)).(phase := Closed)
    else
      var st1 := st.(phase := ServerClose);
      if !IsFin(op) || |payload| > 125 || |payload| == 1 then DoClose(c, st1, 1002, ProtocolError())
      else if !Scan(c.mode, reason).result.Valid? then DoClose(c, st1, 1007, BadReason())
      else if RefusedCode(code) then DoClose(c, st1, 1002, ProtocolError())
      else DoClose(c, st1, code, reason)
  }

  function HandlePing(c: Config, st: State, op: byte, payload: seq<byte>): State {
    if !IsFin(op) || |payload| > 125 then DoClose(c, st, 1002, ProtocolError())
    else if c.hasPing then Emit(st, true, OnPing(payload))
    else SendFrame(c, st, FIN + PONG, payload, Nothing)
  }

  function HandlePong(c: Config, st: State, op: byte, payload: seq<byte>): State {
    if !IsFin(op) || |payload| > 125 then DoClose(c, st, 1002, ProtocolError())
    else Emit(st, c.hasPong, OnPong(payload))
  }

  function HandleText(c: Config, st: State, op: byte, payload: seq<byte>): State {
    if st.fragOp != CONTINUATION then DoClose(c, st, 1002, ProtocolError())
    else
      var v := Scan(c.mode, payload);
      if !IsFin(op) then
        var st1 := st.(fragOp := TEXT, fragPayload := payload);
        if v.result.Invalid? then DoClose(c, st1, 1007, BadText())
        else st1.(fragOffset := v.last)
      else if !v.result.Valid? then DoClose(c, st, 1007, BadText())
      else Emit(st, c.hasMessage, OnMessage(payload, false))
  }

  function HandleBinary(c: Config, st: State, op: byte, payload: seq<byte>): State {
    if st.fragOp != CONTINUATION then DoClose(c, st, 1002, ProtocolError())
    else if !IsFin(op) then st.(fragOp := BINARY, fragPayload := payload, fragOffset := 0)
    else Emit(st, c.hasMessage, OnMessage(payload, true))
  }

  /** `s` without its first `n` octets; the source leaves this open when there are fewer. */
  function Suffix(s: seq<byte>, n: nat): seq<byte> {
    if n <= |s| then s[n..] else []
  }

  function HandleContinuation(c: Config, st: State, op: byte, payload: seq<byte>): State {
    if st.fragOp == CONTINUATION then DoClose(c, st, 1002, ProtocolError())
    else
      var all := st.fragPayload + payload;
      var v := Scan(c.mode, Suffix(all, st.fragOffset));
      if IsFin(op) then
        var st1 := st.(fragOp := CONTINUATION, fragPayload := []);
        if st.fragOp != BINARY && !v.result.Valid? then DoClose(c, st1, 1007, BadText())
        else Emit(st1, c.hasMessage, OnMessage(all, st.fragOp == BINARY))
      else
        var st1 := st.(fragPayload := all);
        if st.fragOp == BINARY then st1
        else if v.result.Invalid? then DoClose(c, st1, 1007, BadText())
        else st1.(fragOffset := st.fragOffset + v.last)
  }

  function HandleFrame(c: Config, st: State, op: byte, payload: seq<byte>): State {
    if st.phase.Closed? || st.phase.ServerClose? then st
    else if IsControl(op) then
      if Rsv(op) != 0 then DoClose(c, st, 1002, ProtocolError())
      else if CleanOp(op) == CLOSE then HandleClose(c, st, op, payload)
      else if CleanOp(op) == PING then HandlePing(c, st, op, payload)
      else HandlePong(c, st, op, payload)
    else if IsData(op) then
      if Rsv(op) != 0 then DoClose(c, st, 1002, ProtocolError())
      else if CleanOp(op) == CONTINUATION then HandleContinuation(c, st, op, payload)
      else if CleanOp(op) == BINARY then HandleBinary(c, st, op, payload)
      else HandleText(c, st, op, payload)
    else DoClose(c, st, 1002, ProtocolError())
  }

  /** One frame, then whatever the application does about it. */
  function TakeFrame(c: Config, st: State, f: Frame): State
    requires f.head != []
  {
    React(c, st, HandleFrame(c, st, f.head[0], f.payload))
  }

  /** The parse loop over the buffered octets. */
  function Feed(c: Config, st: State): State
    decreases |st.data|
  {
    match Look(st.data)
    case More(wanted) => st.(wanted := wanted)
    case Whole(masked, _, total) =>
      if masked then DoClose(c, st.(wanted := total), 1002, ProtocolError())
      else Feed(c, TakeFrame(c, st, FrontFrame(st.data)).(wanted := 2, data := st.data[total..]))
  }

  // ---------------------------------------------------------------- entry points

  /**
    * An entry point: octets read, end of stream, an application call, a frame leaving the queue
    * while the socket has `room` for so many octets.
    */
  datatype Input =
    | Data(chunk: seq<byte>)
    | Gone
    | Do(action: Action)
    | Pop(room: nat)

  function Disconnect(c: Config, st: State): State {
    var st1 := st.(phase := Closed);
    if st.phase.Closed? || st.phase.ServerClose? then st1
    else React(c, st, Emit(st1, c.hasClose, OnClose(1006, ConnectionLost())))
  }

  /**
    * How many octets of the next frame the socket takes. A frame is cut short only when the stream
    * has ended or is disconnected, so nothing is taken any more once one has been.
    */
  function Taken(st: State, room: nat): (n: nat)
    requires st.popped < |st.sent|
    ensures n <= |Serialise(st.sent[st.popped].frame)|
  {
    var size := |Serialise(st.sent[st.popped].frame)|;
    if st.whole < st.popped then 0 else if room < size then room else size
  }

  predicate TakenWhole(st: State, room: nat)
    requires st.popped < |st.sent|
  {
    Taken(st, room) == |Serialise(st.sent[st.popped].frame)|
  }

  /** The next frame has left the queue, and the socket has taken what it would. */
  function Handed(st: State, room: nat): State
    requires st.popped < |st.sent|
  {
    var image := Serialise(st.sent[st.popped].frame);
    st.(popped := st.popped + 1,
        whole := st.whole + (if TakenWhole(st, room) then 1 else 0),
        wire := st.wire + image[..Taken(st, room)])
  }

  /** A frame leaves the queue, and its callback is told whether all of it was taken. */
  function PopFrame(c: Config, st: State, room: nat): State {
    if st.popped >= |st.sent| then st
    else
      var st1 := Handed(st, room);
      match st.sent[st.popped].after
      case Nothing => st1
      case Tell(tag) => React(c, st, Emit(st1, true, OnSent(tag, TakenWhole(st, room))))
      case Notify(code, reason) => React(c, st, Emit(st1, true, OnClose(code, reason)))
  }

  function Step(c: Config, st: State, i: Input): State {
    match i
    case Data(chunk) => Feed(c, st.(data := st.data + chunk))
    case Gone => Disconnect(c, st)
    case Do(action) => Act(c, st, action)
    case Pop(room) => PopFrame(c, st, room)
  }

  function Run(c: Config, st: State, run: seq<Input>): State
    decreases |run|
  {
    if run == [] then st else Run(c, Step(c, st, run[0]), run[1..])
  }
}
