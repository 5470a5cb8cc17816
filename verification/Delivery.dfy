/**
  * Delivery: the frames of whatever messages a server sends, however it fragments them and mixes in
  * pings and pongs, and a connection that follows them frame by frame and read by read.
  */
module Delivery {
  import opened Bytes
  import opened Utf8
  import opened Utf8Laws
  import opened Frames
  import opened Session
  import opened SessionSafety
  import opened ConnectionLaws
  import opened Protocol

  // ---------------------------------------------------------------- what the server sends

  /** A server must not mask its frames; one that does uses a key. */
  datatype Masking = Plain | Masked(key: Key)

  /** A frame on the wire: opcode octet, length form, payload and masking. */
  datatype Wire = Wire(op: byte, form: Form, payload: seq<byte>, mask: Masking)

  datatype Control = Control(ping: bool, form: Form, payload: seq<byte>)

  /** A fragment and the control frames that come before it. */
  datatype Part = Part(before: seq<Control>, form: Form, payload: seq<byte>)

  datatype Item = Message(binary: bool, parts: seq<Part>) | Alone(control: Control)

  function WireOf(control: Control): Wire {
    Wire(FIN + (if control.ping then PING else PONG), control.form, control.payload, Plain)
  }

  function ControlWires(controls: seq<Control>): seq<Wire> {
    seq(|controls|, i requires 0 <= i < |controls| => WireOf(controls[i]))
  }

  /** The fragments of a message: its opcode on the first, the final bit on the last. */
  function PartWires(op: byte, parts: seq<Part>): seq<Wire>
    requires op < FIN
  {
    if parts == [] then []
    else
      var fin := if |parts| == 1 then FIN else 0;
      ControlWires(parts[0].before)
      + [Wire(op + fin, parts[0].form, parts[0].payload, Plain)]
      + PartWires(CONTINUATION, parts[1..])
  }

  function ItemWires(item: Item): seq<Wire> {
    match item
    case Message(binary, parts) => PartWires(if binary then BINARY else TEXT, parts)
    case Alone(control) => [WireOf(control)]
  }

  function WiresOf(items: seq<Item>): seq<Wire> {
    if items == [] then [] else ItemWires(items[0]) + WiresOf(items[1..])
  }

  predicate FitsForm(w: Wire) { Fits(w.form, |w.payload|) }

  ghost predicate AllFit(ws: seq<Wire>) { forall i :: 0 <= i < |ws| ==> FitsForm(ws[i]) }

  ghost function Octets(ws: seq<Wire>): seq<byte>
    requires AllFit(ws)
  {
    if ws == [] then [] else Raw(FrameOf(ws[0])) + Octets(ws[1..])
  }

  /** The frame as it is written, the payload of a masked one masked. */
  function FrameOf(w: Wire): Frame
    requires FitsForm(w)
  {
    match w.mask
    case Plain => ServerFrame(w.op, w.form, w.payload)
    case Masked(key) => Frame([w.op] + LengthOctets(w.form, |w.payload|, 128) + key, Mask(key, w.payload))
  }

  /** It is recognised in front of any octets. */
  lemma FrameInFront(w: Wire, more: seq<byte>)
    requires FitsForm(w)
    ensures var f := FrameOf(w);
      && f.head != [] && f.head[0] == w.op && (w.mask.Plain? ==> f.payload == w.payload)
      && Look(Raw(f) + more) == Whole(w.mask.Masked?, |f.head|, |Raw(f)|)
      && FrontFrame(Raw(f) + more) == f
  {
    match w.mask
    case Plain =>
      ServerFrameInFront(w.op, w.form, w.payload, more);
    case Masked(key) =>
      MaskedInFront(w.op, w.form, w.payload, key, more);
  }

  // ---------------------------------------------------------------- what is meant by it

  function PartText(parts: seq<Part>): seq<byte> {
    if parts == [] then [] else parts[0].payload + PartText(parts[1..])
  }

  predicate SoundControl(control: Control) { |control.payload| <= 125 }

  ghost predicate SoundControls(controls: seq<Control>) {
    forall i :: 0 <= i < |controls| ==> SoundControl(controls[i])
  }

  ghost predicate SoundParts(parts: seq<Part>) {
    forall i :: 0 <= i < |parts| ==> SoundControls(parts[i].before)
  }

  /** Messages are not empty of fragments, texts are valid as a whole, control payloads are short. */
  ghost predicate Sound(m: Mode, item: Item) {
    match item
    case Message(binary, parts) =>
      parts != [] && SoundParts(parts) && (!binary ==> Scan(m, PartText(parts)).result.Valid?)
    case Alone(control) => SoundControl(control)
  }

  function ControlEvents(c: Config, controls: seq<Control>): seq<Event> {
    if controls == [] then [] else ControlEvent(c, controls[0]) + ControlEvents(c, controls[1..])
  }

  function ControlEvent(c: Config, control: Control): seq<Event> {
    if control.ping then if c.hasPing then [OnPing(control.payload)] else []
    else if c.hasPong then [OnPong(control.payload)] else []
  }

  function PartEvents(c: Config, parts: seq<Part>): seq<Event> {
    if parts == [] then [] else ControlEvents(c, parts[0].before) + PartEvents(c, parts[1..])
  }

  /** What the application is to receive for one item, and for all of them. */
  function ItemEvents(c: Config, item: Item): seq<Event> {
    match item
    case Message(binary, parts) =>
      PartEvents(c, parts) + if c.hasMessage then [OnMessage(PartText(parts), binary)] else []
    case Alone(control) => ControlEvent(c, control)
  }

  function Expected(c: Config, items: seq<Item>): seq<Event> {
    if items == [] then [] else ItemEvents(c, items[0]) + Expected(c, items[1..])
  }

  function ControlPongs(c: Config, controls: seq<Control>): seq<seq<byte>> {
    if controls == [] then [] else ControlPong(c, controls[0]) + ControlPongs(c, controls[1..])
  }

  function ControlPong(c: Config, control: Control): seq<seq<byte>> {
    if control.ping && !c.hasPing then [control.payload] else []
  }

  function PartPongs(c: Config, parts: seq<Part>): seq<seq<byte>> {
    if parts == [] then [] else ControlPongs(c, parts[0].before) + PartPongs(c, parts[1..])
  }

  function ItemPongs(c: Config, item: Item): seq<seq<byte>> {
    match item
    case Message(_, parts) => PartPongs(c, parts)
    case Alone(control) => ControlPong(c, control)
  }

  /** The pongs to be queued: one for each ping nobody handles, with its payload, in order. */
  function ExpectedPongs(c: Config, items: seq<Item>): seq<seq<byte>> {
    if items == [] then [] else ItemPongs(c, items[0]) + ExpectedPongs(c, items[1..])
  }

  // ---------------------------------------------------------------- frames, one after the other

  /** What a sequence of frames amounts to by the protocol alone. */
  datatype Trace = Trace(after: Assembly, shown: seq<Event>, pongs: seq<seq<byte>>, legal: bool)

  function Through(c: Config, a: Assembly, ws: seq<Wire>): Trace
    decreases |ws|
  {
    if ws == [] then Trace(a, [], [], true)
    else
      var w := ws[0];
      var t := Through(c, Advance(a, w.op, w.payload), ws[1..]);
      Trace(t.after, Shown(c, a, w.op, w.payload) + t.shown, PongsFor(c, w.op, w.payload) + t.pongs,
        w.mask.Plain? && CleanOp(w.op) != CLOSE && Legal(c.mode, a, w.op, w.payload) && t.legal)
  }

  function Then(s: Trace, t: Trace): Trace {
    Trace(t.after, s.shown + t.shown, s.pongs + t.pongs, s.legal && t.legal)
  }

  lemma {:induction false} ThroughAppend(c: Config, a: Assembly, ws: seq<Wire>, vs: seq<Wire>)
    ensures Through(c, a, ws + vs) == Then(Through(c, a, ws), Through(c, Through(c, a, ws).after, vs))
    decreases |ws|
  {
    hide Advance, Shown, PongsFor, Legal;
    if ws == [] {
      assert ws + vs == vs;
      var t := Through(c, a, vs);
      assert [] + t.shown == t.shown && [] + t.pongs == t.pongs;
    } else {
      assert (ws + vs)[0] == ws[0] && (ws + vs)[1..] == ws[1..] + vs;
      var b := Advance(a, ws[0].op, ws[0].payload);
      ThroughAppend(c, b, ws[1..], vs);
      var t, u := Through(c, b, ws[1..]), Through(c, Through(c, b, ws[1..]).after, vs);
      var sh, po := Shown(c, a, ws[0].op, ws[0].payload), PongsFor(c, ws[0].op, ws[0].payload);
      assert sh + (t.shown + u.shown) == (sh + t.shown) + u.shown;
      assert po + (t.pongs + u.pongs) == (po + t.pongs) + u.pongs;
    }
  }

  lemma ThroughOne(c: Config, a: Assembly, w: Wire)
    ensures Through(c, a, [w]) ==
      Trace(Advance(a, w.op, w.payload), Shown(c, a, w.op, w.payload), PongsFor(c, w.op, w.payload),
        w.mask.Plain? && CleanOp(w.op) != CLOSE && Legal(c.mode, a, w.op, w.payload))
  {
    hide Advance, Shown, PongsFor, Legal;
    var t := Through(c, Advance(a, w.op, w.payload), [w][1..]);
    assert t == Trace(Advance(a, w.op, w.payload), [], [], true);
    assert Shown(c, a, w.op, w.payload) + [] == Shown(c, a, w.op, w.payload);
    assert PongsFor(c, w.op, w.payload) + [] == PongsFor(c, w.op, w.payload);
  }

  lemma ControlThrough(c: Config, a: Assembly, control: Control)
    requires SoundControl(control)
    ensures Through(c, a, [WireOf(control)]) == Trace(a, ControlEvent(c, control), ControlPong(c, control), true)
  {
    ThroughOne(c, a, WireOf(control));
  }

  /** Control frames pass through a message under reassembly without touching it. */
  lemma {:induction false} ControlsThrough(c: Config, a: Assembly, controls: seq<Control>)
    requires SoundControls(controls)
    ensures Through(c, a, ControlWires(controls)) ==
      Trace(a, ControlEvents(c, controls), ControlPongs(c, controls), true)
    decreases |controls|
  {
    hide Through, ControlEvent, ControlPong, SoundControl, WireOf;
    if controls == [] {
      ThroughNone(c, a);
    } else {
      ControlThrough(c, a, controls[0]);
      ControlsThrough(c, a, controls[1..]);
      assert ControlWires(controls) == [WireOf(controls[0])] + ControlWires(controls[1..]);
      ThroughAppend(c, a, [WireOf(controls[0])], ControlWires(controls[1..]));
    }
  }

  lemma ThroughNone(c: Config, a: Assembly)
    ensures Through(c, a, []) == Trace(a, [], [], true)
  {
  }

  /** The opcode on the next fragment of a message of which `a` has been gathered. */
  function NextOp(a: Assembly, kind: byte): byte { if a.op == CONTINUATION then kind else CONTINUATION }

  /** One data frame that continues or starts a message that can still become valid. */
  lemma DataThrough(c: Config, a: Assembly, kind: byte, form: Form, payload: seq<byte>, fin: bool, more: seq<byte>)
    requires kind in {TEXT, BINARY} && (a == NO_MESSAGE || a.op == kind)
    requires kind == TEXT ==> Scan(c.mode, a.sofar + payload + more).result.Valid?
    requires fin ==> more == []
    ensures var text := a.sofar + payload;
      Through(c, a, [Wire(NextOp(a, kind) + (if fin then FIN else 0), form, payload, Plain)]) ==
      Trace(if fin then NO_MESSAGE else Assembly(kind, text),
        if fin && c.hasMessage then [OnMessage(text, kind == BINARY)] else [], [], true)
  {
    hide Scan, Through, Advance, Shown, PongsFor, Legal;
    var op := NextOp(a, kind) + if fin then FIN else 0;
    ThroughOne(c, a, Wire(op, form, payload, Plain));
    DataMeans(c, a, kind, payload, fin);
    DataLegal(c, a, kind, payload, fin, more);
  }

  lemma DataMeans(c: Config, a: Assembly, kind: byte, payload: seq<byte>, fin: bool)
    requires kind in {TEXT, BINARY} && (a == NO_MESSAGE || a.op == kind)
    ensures var op := NextOp(a, kind) + (if fin then FIN else 0); var text := a.sofar + payload;
      && CleanOp(op) == NextOp(a, kind) && IsData(op) && Rsv(op) == 0 && IsFin(op) == fin
      && MessageOp(a, op) == kind && MessageSoFar(a, op, payload) == text
      && Advance(a, op, payload) == (if fin then NO_MESSAGE else Assembly(kind, text))
      && Shown(c, a, op, payload) == (if fin && c.hasMessage then [OnMessage(text, kind == BINARY)] else [])
      && PongsFor(c, op, payload) == []
  {
    assert [] + payload == payload;
  }

  lemma DataLegal(c: Config, a: Assembly, kind: byte, payload: seq<byte>, fin: bool, more: seq<byte>)
    requires kind in {TEXT, BINARY} && (a == NO_MESSAGE || a.op == kind)
    requires kind == TEXT ==> Scan(c.mode, a.sofar + payload + more).result.Valid?
    requires fin ==> more == []
    ensures Legal(c.mode, a, NextOp(a, kind) + (if fin then FIN else 0), payload)
  {
    hide Scan, Advance, Shown, PongsFor;
    DataMeans(c, a, kind, payload, fin);
    var text := a.sofar + payload;
    ScanExtends(c.mode, text, more);
    assert text + [] == text;
  }

  lemma {:induction false} PartsThrough(c: Config, a: Assembly, kind: byte, parts: seq<Part>)
    requires kind in {TEXT, BINARY} && (a == NO_MESSAGE || a.op == kind)
    requires parts != [] && SoundParts(parts)
    requires kind == TEXT ==> Scan(c.mode, a.sofar + PartText(parts)).result.Valid?
    ensures Through(c, a, PartWires(NextOp(a, kind), parts)) ==
      Trace(NO_MESSAGE,
        PartEvents(c, parts) + (if c.hasMessage then [OnMessage(a.sofar + PartText(parts), kind == BINARY)] else []),
        PartPongs(c, parts), true)
    decreases |parts|
  {
    hide Through, Scan, ControlEvents, ControlPongs, ControlWires;
    var p, rest := parts[0], parts[1..];
    var last := |parts| == 1;
    var w := Wire(NextOp(a, kind) + (if last then FIN else 0), p.form, p.payload, Plain);
    assert a.sofar + PartText(parts) == a.sofar + p.payload + PartText(rest);
    ControlsThrough(c, a, p.before);
    DataThrough(c, a, kind, p.form, p.payload, last, PartText(rest));
    ThroughAppend(c, a, ControlWires(p.before), [w]);
    var text := a.sofar + p.payload;
    if last {
      assert PartWires(CONTINUATION, rest) == [];
      assert PartWires(NextOp(a, kind), parts) == ControlWires(p.before) + [w];
      assert text == a.sofar + PartText(parts);
      assert PartEvents(c, rest) == [] && PartPongs(c, rest) == [];
    } else {
      var b := Assembly(kind, text);
      PartsThrough(c, b, kind, rest);
      ThroughAppend(c, a, ControlWires(p.before) + [w], PartWires(CONTINUATION, rest));
      assert ControlEvents(c, p.before) + [] == ControlEvents(c, p.before);
      assert ControlPongs(c, p.before) + [] == ControlPongs(c, p.before);
      var msg := if c.hasMessage then [OnMessage(text + PartText(rest), kind == BINARY)] else [];
      assert ControlEvents(c, p.before) + (PartEvents(c, rest) + msg)
          == (ControlEvents(c, p.before) + PartEvents(c, rest)) + msg;
    }
  }

  lemma ItemThrough(c: Config, item: Item)
    requires Sound(c.mode, item)
    ensures Through(c, NO_MESSAGE, ItemWires(item)) == Trace(NO_MESSAGE, ItemEvents(c, item), ItemPongs(c, item), true)
  {
    hide Through, Scan;
    match item
    case Message(binary, parts) =>
      assert [] + PartText(parts) == PartText(parts);
      PartsThrough(c, NO_MESSAGE, if binary then BINARY else TEXT, parts);
    case Alone(control) =>
      ControlThrough(c, NO_MESSAGE, control);
  }

  ghost predicate AllSound(m: Mode, items: seq<Item>) {
    forall i :: 0 <= i < |items| ==> Sound(m, items[i])
  }

  /** The frames of sound items are legal, and amount to the items. */
  lemma {:induction false} ItemsThrough(c: Config, items: seq<Item>)
    requires AllSound(c.mode, items)
    ensures Through(c, NO_MESSAGE, WiresOf(items)) ==
      Trace(NO_MESSAGE, Expected(c, items), ExpectedPongs(c, items), true)
    decreases |items|
  {
    hide Through, ItemWires, ItemEvents, ItemPongs, Sound;
    if items == [] {
      ThroughNone(c, NO_MESSAGE);
    } else {
      ItemThrough(c, items[0]);
      ItemsThrough(c, items[1..]);
      ThroughAppend(c, NO_MESSAGE, ItemWires(items[0]), WiresOf(items[1..]));
    }
  }

  // ---------------------------------------------------------------- the connection follows the frames

  /** The payloads of the pongs the client has queued by itself, in order. */
  function AutoPongs(sent: seq<Queued>): seq<seq<byte>> {
    if sent == [] then []
    else
      var q := sent[|sent| - 1];
      AutoPongs(sent[..|sent| - 1]) + if IsAutoPong(q) then [q.frame.payload] else []
  }

  lemma AutoPongsSnoc(sent: seq<Queued>, q: Queued)
    ensures AutoPongs(sent + [q]) == AutoPongs(sent) + if IsAutoPong(q) then [q.frame.payload] else []
  {
    assert (sent + [q])[..|sent|] == sent;
  }

  /**
    * Taking the frames `ws` from `st` is to end in the same place as taking the frames `vs` from
    * `st1`: what has been shown and what is still to be shown stay the same together.
    */
  ghost predicate Follows(c: Config, st: State, ws: seq<Wire>, st1: State, vs: seq<Wire>) {
    && Ready(c.mode, st1)
    && var t, u := Through(c, AssemblyOf(st), ws), Through(c, AssemblyOf(st1), vs);
    && u.legal == t.legal && u.after == t.after
    && Delivered(st1.log) + u.shown == Delivered(st.log) + t.shown
    && AutoPongs(st1.sent) + u.pongs == AutoPongs(st.sent) + t.pongs
  }

  lemma FollowsTrans(c: Config, st: State, ws: seq<Wire>, st1: State, vs: seq<Wire>, st2: State, us: seq<Wire>)
    requires Follows(c, st, ws, st1, vs) && Follows(c, st1, vs, st2, us)
    ensures Follows(c, st, ws, st2, us)
  {
    hide Through, Delivered, AutoPongs, Ready;
  }

  /** Only what matters for the frames to come. */
  predicate SameView(st: State, st1: State) {
    && st1.fragOp == st.fragOp && st1.fragPayload == st.fragPayload && st1.fragOffset == st.fragOffset
    && (st1.phase.Open? || st1.phase.ClientClose?)
    && Delivered(st1.log) == Delivered(st.log)
    && AutoPongs(st1.sent) == AutoPongs(st.sent)
  }

  lemma ActView(c: Config, st: State, a: Action)
    requires st.phase.Open? || st.phase.ClientClose?
    ensures var st1 := Act(c, st, a); SameView(st, st1) && st1.data == st.data && st1.wanted == st.wanted
  {
    hide Scan, Delivered, AutoPongs;
    match a
    case Send(kind, payload, tag) =>
      DeliveredSnoc(st.log, OnRefused(tag));
      AutoPongsSnoc(st.sent, Queued(Sent(OpOf(kind), payload, c.key(|st.sent|)), Tell(tag)));
    case Close(code, reason) =>
      AutoPongsSnoc(st.sent, Queued(Sent(FIN + CLOSE, BigEndian(2, code) + reason, c.key(|st.sent|)), Nothing));
  }

  lemma {:induction false} ActAllView(c: Config, st: State, acts: seq<Action>)
    requires st.phase.Open? || st.phase.ClientClose?
    ensures var st1 := ActAll(c, st, acts); SameView(st, st1) && st1.data == st.data && st1.wanted == st.wanted
    decreases |acts|
  {
    hide Act, Delivered, AutoPongs;
    if acts != [] {
      ActView(c, st, acts[0]);
      ActAllView(c, Act(c, st, acts[0]), acts[1..]);
    }
  }

  lemma SameViewFollows(c: Config, st: State, st1: State, ws: seq<Wire>)
    requires Ready(c.mode, st) && SameView(st, st1)
    ensures Follows(c, st, ws, st1, ws)
  {
    hide Through, Delivered, AutoPongs;
  }

  /** Taking a legal frame: what it shows moves from what is to come to what has been delivered. */
  lemma HandledFollows(c: Config, st: State, ws: seq<Wire>)
    requires Ready(c.mode, st) && ws != [] && Through(c, AssemblyOf(st), ws).legal
    ensures var st1 := HandleFrame(c, st, ws[0].op, ws[0].payload);
      && Follows(c, st, ws, st1, ws[1..]) && Ready(c.mode, st1)
      && st1.data == st.data && st1.wanted == st.wanted
  {
    hide Scan, HandleFrame, Legal, Delivered, AutoPongs, Shown, PongsFor, Advance, AssemblyOf;
    var w, a := ws[0], AssemblyOf(st);
    LegalTaken(c, st, w.op, w.payload);
    var st1 := HandleFrame(c, st, w.op, w.payload);
    TakenShows(c, st, st1, w);
    var u := Through(c, AssemblyOf(st1), ws[1..]);
    assert Delivered(st1.log) + u.shown == Delivered(st.log) + (Shown(c, a, w.op, w.payload) + u.shown);
    assert AutoPongs(st1.sent) + u.pongs == AutoPongs(st.sent) + (PongsFor(c, w.op, w.payload) + u.pongs);
  }

  lemma TakenFollows(c: Config, st: State, f: Frame, ws: seq<Wire>)
    requires Ready(c.mode, st) && ws != [] && f.head != [] && f.head[0] == ws[0].op && f.payload == ws[0].payload
    requires Through(c, AssemblyOf(st), ws).legal
    ensures var st1 := TakeFrame(c, st, f);
      Follows(c, st, ws, st1, ws[1..]) && st1.data == st.data && st1.wanted == st.wanted
  {
    hide Scan, HandleFrame, Follows, Through, SameView, ActAll;
    HandledFollows(c, st, ws);
    var st1 := HandleFrame(c, st, ws[0].op, ws[0].payload);
    NoActions(c, st1);
    ActAllView(c, st1, c.app(st1.log));
    ActAllView(c, st1, []);
    var st2 := React(c, st, st1);
    SameViewFollows(c, st1, st2, ws[1..]);
    FollowsTrans(c, st, ws, st1, ws[1..], st2, ws[1..]);
  }

  lemma NoActions(c: Config, st: State)
    ensures ActAll(c, st, []) == st
  {
  }

  lemma TakenShows(c: Config, st: State, st1: State, w: Wire)
    requires st1.log == st.log + Shown(c, AssemblyOf(st), w.op, w.payload)
    requires st1.sent == PongQueue(c, st, w.op, w.payload)
    ensures Delivered(st1.log) == Delivered(st.log) + Shown(c, AssemblyOf(st), w.op, w.payload)
    ensures AutoPongs(st1.sent) == AutoPongs(st.sent) + PongsFor(c, w.op, w.payload)
  {
    hide Delivered, AutoPongs;
    var shown := Shown(c, AssemblyOf(st), w.op, w.payload);
    if shown == [] {
      assert st.log + [] == st.log;
    } else {
      assert shown == [shown[0]];
      DeliveredSnoc(st.log, shown[0]);
    }
    AutoPongsSnoc(st.sent, Queued(Sent(FIN + PONG, w.payload, c.key(|st.sent|)), Nothing));
  }

  lemma ParserView(c: Config, st: State, ws: seq<Wire>, data: seq<byte>, wanted: nat)
    requires Ready(c.mode, st)
    ensures Follows(c, st, ws, st.(data := data, wanted := wanted), ws)
  {
    hide Through, Delivered, AutoPongs;
  }

  /** The parser between two reads: an unfinished frame and the number of octets it waits for. */
  predicate Waits(st: State) { Look(st.data) == More(st.wanted) }

  /** One read: the frames it completes are taken, the rest of the stream lines up with the rest of the frames. */
  lemma {:induction false} FeedFollows(c: Config, st: State, more: seq<byte>, ws: seq<Wire>) returns (vs: seq<Wire>)
    requires Ready(c.mode, st) && Through(c, AssemblyOf(st), ws).legal
    requires AllFit(ws) && st.data + more == Octets(ws)
    ensures AllFit(vs)
    ensures var st1 := Feed(c, st);
      Follows(c, st, ws, st1, vs) && Waits(st1) && st1.data + more == Octets(vs)
    decreases |st.data|
  {
    hide Through, TakeFrame, FrontFrame, Look, FrameOf, Follows;
    match Look(st.data)
    case More(wanted) =>
      vs := ws;
      ParserView(c, st, ws, st.data, wanted);
    case Whole(masked, _, total) =>
      LegalPlain(c, AssemblyOf(st), ws);
      FrontIsFirst(st.data, more, ws);
      var f := FrontFrame(st.data);
      TakenFollows(c, st, f, ws);
      var st1 := TakeFrame(c, st, f);
      var st2 := st1.(wanted := 2, data := st.data[total..]);
      FollowsReady(c, st, ws, st1, ws[1..]);
      ParserView(c, st1, ws[1..], st.data[total..], 2);
      FollowsTrans(c, st, ws, st1, ws[1..], st2, ws[1..]);
      FollowsReady(c, st, ws, st2, ws[1..]);
      vs := FeedFollows(c, st2, more, ws[1..]);
      FollowsTrans(c, st, ws, st2, ws[1..], Feed(c, st2), vs);
  }

  lemma FollowsReady(c: Config, st: State, ws: seq<Wire>, st1: State, vs: seq<Wire>)
    requires Follows(c, st, ws, st1, vs)
    ensures Ready(c.mode, st1)
    ensures Through(c, AssemblyOf(st1), vs).legal == Through(c, AssemblyOf(st), ws).legal
  {
  }

  lemma LegalPlain(c: Config, a: Assembly, ws: seq<Wire>)
    requires Through(c, a, ws).legal
    ensures ws != [] ==> ws[0].mask.Plain?
  {
    hide Legal, Advance, Shown, PongsFor;
  }

  /** A whole frame at the front of the buffer is the first one the server sent. */
  lemma FrontIsFirst(data: seq<byte>, more: seq<byte>, ws: seq<Wire>)
    requires Look(data).Whole? && AllFit(ws) && data + more == Octets(ws)
    requires ws != [] ==> ws[0].mask.Plain?
    ensures ws != [] && AllFit(ws[1..]) && !Look(data).masked
    ensures var f := FrontFrame(data); f.head[0] == ws[0].op && f.payload == ws[0].payload
    ensures data[Look(data).total..] + more == Octets(ws[1..])
  {
    hide Look, FrontFrame, FrameOf;
    FrontFrameExtends(data, more);
    LookExtends(data, more);
    var w := ws[0];
    assert FitsForm(w);
    var f := FrameOf(w);
    FrameInFront(w, Octets(ws[1..]));
    assert (data + more)[|Raw(f)|..] == Octets(ws[1..]);
    assert (data + more)[|Raw(f)|..] == data[Look(data).total..] + more;
  }

  // ---------------------------------------------------------------- whole runs

  /** The octets read in a run. */
  function Reads(run: seq<Input>): seq<byte> {
    if run == [] then [] else (if run[0].Data? then run[0].chunk else []) + Reads(run[1..])
  }

  ghost predicate StaysConnected(run: seq<Input>) { forall i :: 0 <= i < |run| ==> !run[i].Gone? }

  lemma OtherStepFollows(c: Config, st: State, i: Input, ws: seq<Wire>)
    requires Ready(c.mode, st) && (i.Do? || i.Pop?)
    ensures var st1 := Step(c, st, i);
      Follows(c, st, ws, st1, ws) && st1.data == st.data && st1.wanted == st.wanted
  {
    hide Delivered, AutoPongs, Through, Act, Scan, ActAll, Follows, Serialise, TakenWhole;
    match i
    case Do(action) =>
      ActView(c, st, action);
      SameViewFollows(c, st, Step(c, st, i), ws);
    case Pop(room) =>
      PopDelivers(c, st, room);
      if st.popped < |st.sent| {
        var st1 := Handed(st, room);
        match st.sent[st.popped].after
        case Nothing =>
        case Tell(tag) =>
          var st2 := Emit(st1, true, OnSent(tag, TakenWhole(st, room)));
          ActAllView(c, st2, c.app(st2.log));
        case Notify(code, reason) =>
          var st2 := Emit(st1, true, OnClose(code, reason));
          ActAllView(c, st2, c.app(st2.log));
      }
      SameViewFollows(c, st, PopFrame(c, st, room), ws);
    case _ =>
  }

  lemma {:induction false} RunFollows(c: Config, st: State, run: seq<Input>, ws: seq<Wire>)
    requires Ready(c.mode, st) && Waits(st) && Through(c, AssemblyOf(st), ws).legal
    requires AllFit(ws) && st.data + Reads(run) == Octets(ws) && StaysConnected(run)
    ensures var st1 := Run(c, st, run);
      Follows(c, st, ws, st1, []) && st1.data == [] && st1.wanted == 2
    decreases |run|
  {
    hide Through, Look, Step, Follows, Octets, AllFit, Ready, AssemblyOf, FitsForm;
    if run == [] {
      NothingLeft(st, ws);
      ParserView(c, st, [], st.data, st.wanted);
      assert st.(data := st.data, wanted := st.wanted) == st;
    } else {
      var st1 := Step(c, st, run[0]);
      var rest := run[1..];
      if run[0].Data? {
        var st0 := st.(data := st.data + run[0].chunk);
        ParserView(c, st, ws, st0.data, st.wanted);
        FollowsReady(c, st, ws, st0, ws);
        assert st0.data + Reads(rest) == Octets(ws);
        var vs := FeedFollows(c, st0, Reads(rest), ws);
        DataStep(c, st, run[0].chunk);
        FollowsTrans(c, st, ws, st0, ws, st1, vs);
        FollowsReady(c, st, ws, st1, vs);
        RunFollows(c, st1, rest, vs);
        FollowsTrans(c, st, ws, st1, vs, Run(c, st, run), []);
      } else {
        OtherStepFollows(c, st, run[0], ws);
        FollowsReady(c, st, ws, st1, ws);
        assert [] + Reads(rest) == Reads(rest);
        RunFollows(c, st1, rest, ws);
        FollowsTrans(c, st, ws, st1, ws, Run(c, st, run), []);
      }
    }
  }

  lemma DataStep(c: Config, st: State, chunk: seq<byte>)
    ensures Step(c, st, Data(chunk)) == Feed(c, st.(data := st.data + chunk))
  {
    hide Feed;
  }

  lemma NothingLeft(st: State, ws: seq<Wire>)
    requires Waits(st) && AllFit(ws) && st.data + [] == Octets(ws)
    ensures ws == [] && st.data == [] && st.wanted == 2
  {
    assert st.data == st.data + [];
    if ws != [] {
      assert FitsForm(ws[0]);
      FrameInFront(ws[0], Octets(ws[1..]));
    }
  }
}
