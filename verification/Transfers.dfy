/**
  * Reads and writes of the TCP client as a state machine. The socket is an oracle: each attempt
  * moves some octets, reports the end of the stream, or has nothing to offer.
  */
module Transfers {
  import opened Bytes

  datatype Option<T> = None | Some(value: T)

  datatype Dir = Tx | Rx

  /**
    * A transfer under way. `data` is the buffer to be sent (empty for a read), `size` its length
    * or the room there run, `moved` what has gone through the socket so far. With `all` the
    * transfer goes on until everything is moved.
    */
  datatype Op = Op(id: nat, dir: Dir, all: bool, data: seq<byte>, size: nat, moved: seq<byte>)

  /** Why a transfer was over. */
  datatype Why = Moved | Ended | Cancelled | Unconnected

  /**
    * Work for the executor: a completion, or the handlers a disconnect has taken out together with
    * the callback of the disconnect itself.
    */
  datatype Work = Done(op: Op, why: Why) | Cancel(rx: Option<Op>, tx: Option<Op>, cb: Option<nat>)

  /** Octets that went through the socket in one attempt. */
  datatype Chunk = Chunk(op: nat, dir: Dir, octets: seq<byte>)

  /**
    * `queue` is the executor's queue, `ran` the completions that have been called, `past` the
    * transfers that have left their handler, `traffic` everything the socket moved, `ended` the
    * callbacks of disconnects that have been called.
    */
  datatype State = State(
    connected: bool,
    tx: Option<Op>,
    rx: Option<Op>,
    queue: seq<Work>,
    ran: seq<Work>,
    past: seq<Op>,
    traffic: seq<Chunk>,
    ended: seq<nat>)

  const Fresh: State := State(false, None, None, [], [], [], [], [])

  function Handler(st: State, dir: Dir): Option<Op> { if dir.Tx? then st.tx else st.rx }

  function SetHandler(st: State, dir: Dir, op: Option<Op>): State {
    if dir.Tx? then st.(tx := op) else st.(rx := op)
  }

  /** The socket took or gave the octets that come next, and no more than there is room for. */
  predicate Possible(op: Op, res: Option<seq<byte>>) {
    res.Some? ==>
      && |op.moved| + |res.value| <= op.size
      && (op.dir.Tx? ==> op.moved + res.value <= op.data)
  }

  function Push(st: State, w: Work): State { st.(queue := st.queue + [w]) }

  /** One attempt on behalf of `op`, which is in or on its way to its handler. */
  function Attempt(st: State, op: Op, res: Option<seq<byte>>): State {
    if res.None? then SetHandler(st, op.dir, Some(op))
    else
      var op1 := op.(moved := op.moved + res.value);
      var st1 := st.(traffic := st.traffic + [Chunk(op.id, op.dir, res.value)]);
      if !op.all || res.value == [] || |op1.moved| == op.size then
        Push(SetHandler(st1, op.dir, None).(past := st1.past + [op1]),
          Done(op1, if res.value == [] && |op1.moved| < op.size then Ended else Moved))
      else SetHandler(st1, op.dir, Some(op1))
  }

  datatype Input =
    | Connected
    | Start(op: Op, res: Option<seq<byte>>)
    | Ready(dir: Dir, res: Option<seq<byte>>)
    | Disconnect(cb: Option<nat>)
    | Run

  /** What the callers and the socket keep to: transfers start from nothing, results are possible. */
  predicate Allowed(st: State, i: Input) {
    match i
    case Start(op, res) =>
      op.moved == [] && (op.dir.Tx? ==> op.size == |op.data|) && Possible(op, res)
    case Ready(dir, res) => Handler(st, dir).Some? ==> Possible(Handler(st, dir).value, res)
    case _ => true
  }

  /** `send`, `send_all`, `recv` and `recv_all` refuse to start while one of their kind is active. */
  predicate Refused(st: State, op: Op) { Handler(st, op.dir).Some? }

  function Step(st: State, i: Input): State {
    match i
    case Connected => st.(connected := true)
    case Start(op, res) =>
      if Refused(st, op) then st
      else if !st.connected then Push(st.(past := st.past + [op]), Done(op, Unconnected))
      else Attempt(st, op, res)
    case Ready(dir, res) =>
      if Handler(st, dir).None? then st else Attempt(st, Handler(st, dir).value, res)
    case Disconnect(cb) =>
      Push(st.(connected := false, tx := None, rx := None, past := st.past + Listed(st.rx) + Listed(st.tx)),
        Cancel(st.rx, st.tx, cb))
    case Run =>
      if st.queue == [] then st
      else
        var w := st.queue[0];
        var st1 := st.(queue := st.queue[1..]);
        if w.Done? then st1.(ran := st1.ran + [w])
        else st1.(queue := st1.queue + Dones(w.rx) + Dones(w.tx), ended := st1.ended + Told(w))
  }

  function Listed(op: Option<Op>): seq<Op> { if op.Some? then [op.value] else [] }

  /** The callback of a disconnect is called behind the cancelled handlers, in the same job. */
  function Told(w: Work): seq<nat> { if w.Cancel? && w.cb.Some? then [w.cb.value] else [] }

  /** A cancelled handler pushes its completion with what it has moved. */
  function Dones(op: Option<Op>): seq<Work> { if op.Some? then [Done(op.value, Cancelled)] else [] }

  lemma DisconnectIs(st: State, cb: Option<nat>)
    ensures Step(st, Disconnect(cb)) ==
      Push(st.(connected := false, tx := None, rx := None, past := st.past + Listed(st.rx) + Listed(st.tx)),
        Cancel(st.rx, st.tx, cb))
  {
    hide Listed, Push;
  }

  lemma RunIs(st: State)
    ensures st.queue != [] ==>
      var w, st1 := st.queue[0], st.(queue := st.queue[1..]);
      Step(st, Run) ==
        if w.Done? then st1.(ran := st1.ran + [w])
        else st1.(queue := st1.queue + Dones(w.rx) + Dones(w.tx), ended := st1.ended + Told(w))
  {
    hide Dones, Told;
  }

  // ---------------------------------------------------------------- what every run keeps

  /** The octets the socket moved for transfer `id`, in order. */
  function For(traffic: seq<Chunk>, id: nat): seq<byte> {
    if traffic == [] then []
    else
      var c := traffic[|traffic| - 1];
      For(traffic[..|traffic| - 1], id) + if c.op == id then c.octets else []
  }

  /** All octets moved in one direction, in order. */
  function Stream(traffic: seq<Chunk>, dir: Dir): seq<byte> {
    if traffic == [] then []
    else
      var c := traffic[|traffic| - 1];
      Stream(traffic[..|traffic| - 1], dir) + if c.dir == dir then c.octets else []
  }

  /** What the transfers of one direction moved, one after the other. */
  function MovedBy(ops: seq<Op>, dir: Dir): seq<byte> {
    if ops == [] then []
    else MovedBy(ops[..|ops| - 1], dir) + if ops[|ops| - 1].dir == dir then ops[|ops| - 1].moved else []
  }

  lemma ForSnoc(traffic: seq<Chunk>, c: Chunk, id: nat)
    ensures For(traffic + [c], id) == For(traffic, id) + if c.op == id then c.octets else []
  {
    assert (traffic + [c])[..|traffic|] == traffic;
  }

  lemma StreamSnoc(traffic: seq<Chunk>, c: Chunk, dir: Dir)
    ensures Stream(traffic + [c], dir) == Stream(traffic, dir) + if c.dir == dir then c.octets else []
  {
    assert (traffic + [c])[..|traffic|] == traffic;
  }

  lemma MovedSnoc(ops: seq<Op>, op: Op, dir: Dir)
    ensures MovedBy(ops + [op], dir) == MovedBy(ops, dir) + if op.dir == dir then op.moved else []
  {
    assert (ops + [op])[..|ops|] == ops;
  }

  /** A transfer is in order: a prefix of its buffer, no more than its size. */
  predicate Sound(op: Op) {
    && |op.moved| <= op.size
    && (op.dir.Tx? ==> op.size == |op.data| && op.moved <= op.data)
  }

  /** A completion is in order: short only because the stream ended or the transfer was cut off. */
  predicate SoundDone(w: Work) {
    w.Done? ==> Sound(w.op) && (w.op.all && |w.op.moved| < w.op.size ==> !w.why.Moved?)
  }

  /** How often `id` occurs in a handler, in the queue, and among the completions called. */
  function InHandler(op: Option<Op>, id: nat): nat { if op.Some? && op.value.id == id then 1 else 0 }

  function InWork(w: Work, id: nat): nat {
    match w
    case Done(op, _) => if op.id == id then 1 else 0
    case Cancel(rx, tx, _) => InHandler(rx, id) + InHandler(tx, id)
  }

  function InWorks(ws: seq<Work>, id: nat): nat {
    if ws == [] then 0 else InWork(ws[0], id) + InWorks(ws[1..], id)
  }

  function Places(st: State, id: nat): nat {
    InHandler(st.tx, id) + InHandler(st.rx, id) + InWorks(st.queue, id) + InWorks(st.ran, id)
  }

  lemma {:induction false} InWorksAppend(a: seq<Work>, b: seq<Work>, id: nat)
    ensures InWorks(a + b, id) == InWorks(a, id) + InWorks(b, id)
  {
    if a == [] {
      assert a + b == b;
    } else {
      assert (a + b)[1..] == a[1..] + b;
      InWorksAppend(a[1..], b, id);
    }
  }

  lemma InWorksOne(w: Work, id: nat)
    ensures InWorks([w], id) == InWork(w, id)
  {
    assert [w][1..] == [];
  }

  // -------- each transfer has exactly one place

  predicate InTheirPlace(st: State) {
    (st.tx.Some? ==> st.tx.value.dir.Tx?) && (st.rx.Some? ==> st.rx.value.dir.Rx?)
  }

  lemma PushPlaces(st: State, w: Work, id: nat)
    ensures InWorks(Push(st, w).queue, id) == InWorks(st.queue, id) + InWork(w, id)
  {
    InWorksAppend(st.queue, [w], id);
    InWorksOne(w, id);
  }

  lemma AttemptPlaces(st: State, op: Op, res: Option<seq<byte>>, id: nat)
    ensures Places(Attempt(st, op, res), id) ==
      Places(SetHandler(st, op.dir, None), id) + if op.id == id then 1 else 0
  {
    hide InWorks;
    if res.Some? {
      var op1 := op.(moved := op.moved + res.value);
      PushPlaces(st, Done(op1, Ended), id);
      PushPlaces(st, Done(op1, Moved), id);
    }
  }

  /** A step neither loses nor duplicates a transfer; only an accepted start adds one. */
  lemma StepPlaces(st: State, i: Input, id: nat)
    requires InTheirPlace(st)
    ensures Places(Step(st, i), id) ==
      Places(st, id) + if i.Start? && !Refused(st, i.op) && i.op.id == id then 1 else 0
  {
    hide InWorks, Attempt;
    match i
    case Connected =>
    case Start(op, res) =>
      if !Refused(st, op) {
        if st.connected {
          AttemptPlaces(st, op, res, id);
        } else {
          PushPlaces(st, Done(op, Unconnected), id);
        }
      }
    case Ready(dir, res) =>
      if Handler(st, dir).Some? {
        var op := Handler(st, dir).value;
        AttemptPlaces(st, op, res, id);
      }
    case Disconnect(cb) =>
      PushPlaces(st, Cancel(st.rx, st.tx, cb), id);
    case Run =>
      RunPlaces(st, id);
  }

  lemma RunPlaces(st: State, id: nat)
    ensures Places(Step(st, Run), id) == Places(st, id)
  {
    if st.queue != [] {
      var w := st.queue[0];
      assert st.queue == [w] + st.queue[1..];
      if w.Done? {
        InWorksAppend(st.ran, [w], id);
        InWorksOne(w, id);
      } else {
        InWorksAppend(st.queue[1..] + Dones(w.rx), Dones(w.tx), id);
        InWorksAppend(st.queue[1..], Dones(w.rx), id);
        DonesPlaces(w.rx, id);
        DonesPlaces(w.tx, id);
      }
    }
  }

  lemma DonesPlaces(op: Option<Op>, id: nat)
    ensures InWorks(Dones(op), id) == InHandler(op, id)
  {
    if op.Some? {
      InWorksOne(Done(op.value, Cancelled), id);
    }
  }

  // -------- what is known about every transfer that is somewhere

  /** The transfer is in order and has moved exactly what the socket moved for it. */
  predicate Faithful(traffic: seq<Chunk>, op: Op) { Sound(op) && For(traffic, op.id) == op.moved }

  predicate FaithfulIf(traffic: seq<Chunk>, op: Option<Op>) { op.Some? ==> Faithful(traffic, op.value) }

  predicate FaithfulWork(traffic: seq<Chunk>, w: Work) {
    match w
    case Done(op, _) => Faithful(traffic, op) && SoundDone(w)
    case Cancel(rx, tx, _) => FaithfulIf(traffic, rx) && FaithfulIf(traffic, tx)
  }

  ghost predicate FaithfulWorks(traffic: seq<Chunk>, ws: seq<Work>) {
    forall i :: 0 <= i < |ws| ==> FaithfulWork(traffic, ws[i])
  }

  function MovedIn(op: Option<Op>): seq<byte> { if op.Some? then op.value.moved else [] }

  ghost predicate Conserved(st: State, dir: Dir) {
    Stream(st.traffic, dir) == MovedBy(st.past, dir) + MovedIn(Handler(st, dir))
  }

  ghost predicate Inv(st: State) {
    && InTheirPlace(st)
    && FaithfulIf(st.traffic, st.tx) && FaithfulIf(st.traffic, st.rx)
    && FaithfulWorks(st.traffic, st.queue) && FaithfulWorks(st.traffic, st.ran)
    && Conserved(st, Tx) && Conserved(st, Rx)
    && (forall i :: 0 <= i < |st.ran| ==> st.ran[i].Done?)
    && (forall id: nat :: Places(st, id) <= 1)
    && (forall id: nat :: Places(st, id) == 0 ==> For(st.traffic, id) == [])
  }

  /** A new transfer has a callback of its own. */
  predicate NewCallback(st: State, i: Input) { i.Start? ==> Places(st, i.op.id) == 0 }

  /** Traffic for one transfer leaves the others alone. */
  lemma OtherTraffic(traffic: seq<Chunk>, c: Chunk, op: Op)
    requires op.id != c.op && Faithful(traffic, op)
    ensures Faithful(traffic + [c], op)
  {
    ForSnoc(traffic, c, op.id);
  }

  lemma OtherTrafficIf(traffic: seq<Chunk>, c: Chunk, op: Option<Op>)
    requires InHandler(op, c.op) == 0 && FaithfulIf(traffic, op)
    ensures FaithfulIf(traffic + [c], op)
  {
    if op.Some? {
      OtherTraffic(traffic, c, op.value);
    }
  }

  lemma {:induction false} OtherTrafficAll(traffic: seq<Chunk>, c: Chunk, ws: seq<Work>)
    requires InWorks(ws, c.op) == 0 && FaithfulWorks(traffic, ws)
    ensures FaithfulWorks(traffic + [c], ws)
  {
    hide Faithful, For;
    if ws != [] {
      var w := ws[0];
      assert FaithfulWork(traffic, w);
      match w {
        case Done(op, _) => OtherTraffic(traffic, c, op);
        case Cancel(rx, tx, _) =>
          OtherTrafficIf(traffic, c, rx);
          OtherTrafficIf(traffic, c, tx);
      }
      assert FaithfulWorks(traffic, ws[1..]);
      OtherTrafficAll(traffic, c, ws[1..]);
      forall i | 0 <= i < |ws| ensures FaithfulWork(traffic + [c], ws[i]) {
        if i > 0 { assert ws[i] == ws[1..][i - 1]; }
      }
    }
  }

  /** The state without the transfer that is about to move something. */
  ghost predicate Around(st: State, op: Op) {
    && InTheirPlace(st) && Handler(st, op.dir).None?
    && FaithfulIf(st.traffic, st.tx) && FaithfulIf(st.traffic, st.rx)
    && FaithfulWorks(st.traffic, st.queue) && FaithfulWorks(st.traffic, st.ran)
    && Stream(st.traffic, op.dir) == MovedBy(st.past, op.dir) + op.moved
    && Conserved(st, if op.dir.Tx? then Rx else Tx)
    && Places(st, op.id) == 0 && Faithful(st.traffic, op)
  }

  /** The facts of the invariant that are not about counting. */
  ghost predicate InvFacts(st: State) {
    && InTheirPlace(st)
    && FaithfulIf(st.traffic, st.tx) && FaithfulIf(st.traffic, st.rx)
    && FaithfulWorks(st.traffic, st.queue) && FaithfulWorks(st.traffic, st.ran)
    && Conserved(st, Tx) && Conserved(st, Rx)
  }

  /** Moving octets for `op`: what is in the handlers and queues stays faithful. */
  lemma MoveAround(st: State, op: Op, octets: seq<byte>)
    requires Around(st, op) && Possible(op, Some(octets))
    ensures var c := Chunk(op.id, op.dir, octets); var op1 := op.(moved := op.moved + octets);
      Around(st.(traffic := st.traffic + [c]), op1)
  {
    hide Faithful, For, Stream, MovedBy, InWorks, SoundDone;
    var c := Chunk(op.id, op.dir, octets);
    OtherTrafficIf(st.traffic, c, st.tx);
    OtherTrafficIf(st.traffic, c, st.rx);
    OtherTrafficAll(st.traffic, c, st.queue);
    OtherTrafficAll(st.traffic, c, st.ran);
    StreamSnoc(st.traffic, c, Tx);
    StreamSnoc(st.traffic, c, Rx);
    OwnTraffic(st.traffic, op, octets);
    assert MovedBy(st.past, op.dir) + op.moved + octets == MovedBy(st.past, op.dir) + (op.moved + octets);
    assert Stream(st.traffic, Tx) + [] == Stream(st.traffic, Tx);
    assert Stream(st.traffic, Rx) + [] == Stream(st.traffic, Rx);
  }

  lemma OwnTraffic(traffic: seq<Chunk>, op: Op, octets: seq<byte>)
    requires Faithful(traffic, op) && Possible(op, Some(octets))
    ensures Faithful(traffic + [Chunk(op.id, op.dir, octets)], op.(moved := op.moved + octets))
  {
    hide For;
    ForSnoc(traffic, Chunk(op.id, op.dir, octets), op.id);
  }

  /** The transfer settles in its handler. */
  lemma Settles(st: State, op: Op)
    requires Around(st, op)
    ensures InvFacts(SetHandler(st, op.dir, Some(op)))
  {
    hide Faithful, Stream, MovedBy, InWorks, FaithfulWorks;
  }

  /** The transfer is over and its completion is pushed. */
  lemma Completes(st: State, op: Op, why: Why)
    requires Around(st, op) && SoundDone(Done(op, why))
    ensures InvFacts(Push(st.(past := st.past + [op]), Done(op, why)))
  {
    hide Faithful, Stream, MovedBy, InWorks, SoundDone;
    MovedSnoc(st.past, op, Tx);
    MovedSnoc(st.past, op, Rx);
    assert MovedBy(st.past, Tx) + [] == MovedBy(st.past, Tx);
    assert MovedBy(st.past, Rx) + [] == MovedBy(st.past, Rx);
    var rest := MovedBy(st.past, op.dir) + op.moved;
    assert rest + [] == rest;
  }

  lemma AttemptFacts(st: State, op: Op, res: Option<seq<byte>>)
    requires Around(st, op) && Possible(op, res)
    ensures InvFacts(Attempt(st, op, res))
  {
    hide Faithful, Stream, MovedBy, InWorks, FaithfulWorks, Around, InvFacts;
    AroundSettled(st, op);
    if res.None? {
      Settles(st, op);
    } else {
      var op1 := op.(moved := op.moved + res.value);
      var st1 := st.(traffic := st.traffic + [Chunk(op.id, op.dir, res.value)]);
      MoveAround(st, op, res.value);
      AroundSettled(st1, op1);
      if !op.all || res.value == [] || |op1.moved| == op.size {
        var why := if res.value == [] && |op1.moved| < op.size then Ended else Moved;
        Completes(st1, op1, why);
        assert SetHandler(st1, op.dir, None) == st1;
      } else {
        Settles(st1, op1);
      }
    }
  }

  lemma AroundSettled(st: State, op: Op)
    requires Around(st, op)
    ensures Handler(st, op.dir).None? && Sound(op)
  {
  }

  // -------- every step

  lemma StartFacts(st: State, op: Op, res: Option<seq<byte>>)
    requires Inv(st) && Allowed(st, Start(op, res)) && Places(st, op.id) == 0 && !Refused(st, op)
    ensures InvFacts(Step(st, Start(op, res)))
  {
    hide Stream, MovedBy, InWorks, FaithfulWorks, For;
    assert For(st.traffic, op.id) == [];
    assert MovedBy(st.past, op.dir) + [] == MovedBy(st.past, op.dir) + op.moved;
    assert Around(st, op);
    if st.connected {
      AttemptFacts(st, op, res);
    } else {
      Completes(st, op, Unconnected);
    }
  }

  lemma ReadyFacts(st: State, dir: Dir, res: Option<seq<byte>>)
    requires Inv(st) && Allowed(st, Ready(dir, res)) && Handler(st, dir).Some?
    ensures InvFacts(Step(st, Ready(dir, res)))
  {
    hide Stream, MovedBy, InWorks, FaithfulWorks, For, Sound;
    var op := Handler(st, dir).value;
    var st0 := SetHandler(st, dir, None);
    assert Places(st, op.id) == Places(st0, op.id) + 1;
    assert Around(st0, op);
    AttemptFacts(st0, op, res);
    assert SetHandler(st0, dir, None) == st0;
    AttemptIgnoresHandler(st, op, res);
  }

  lemma AttemptIgnoresHandler(st: State, op: Op, res: Option<seq<byte>>)
    ensures Attempt(SetHandler(st, op.dir, None), op, res) == Attempt(st, op, res)
  {
  }

  lemma DisconnectFacts(st: State, cb: Option<nat>)
    requires Inv(st)
    ensures InvFacts(Step(st, Disconnect(cb)))
  {
    hide Stream, InWorks, For, Sound, Faithful, MovedBy, Listed, FaithfulWorks, Places;
    var w := Cancel(st.rx, st.tx, cb);
    assert FaithfulWork(st.traffic, w);
    OneFaithful(st.traffic, w);
    FaithfulAppend(st.traffic, st.queue, [w]);
    DisconnectMoved(st, cb, Tx);
    DisconnectMoved(st, cb, Rx);
  }

  lemma OneFaithful(traffic: seq<Chunk>, w: Work)
    requires FaithfulWork(traffic, w)
    ensures FaithfulWorks(traffic, [w])
  {
    hide FaithfulWork;
  }

  lemma DisconnectMoved(st: State, cb: Option<nat>, dir: Dir)
    requires InTheirPlace(st) && Conserved(st, dir)
    ensures Conserved(Step(st, Disconnect(cb)), dir)
  {
    hide Stream, MovedBy, Listed;
    var p := st.past + Listed(st.rx);
    ListedMoved(st.past, st.rx, dir);
    ListedMoved(p, st.tx, dir);
    var rest := MovedBy(st.past, dir);
    assert rest + [] == rest;
    assert (rest + MovedIn(st.rx)) + [] == rest + MovedIn(st.rx);
    assert (rest + MovedIn(st.tx)) + [] == rest + MovedIn(st.tx);
  }

  lemma ListedMoved(past: seq<Op>, op: Option<Op>, dir: Dir)
    ensures MovedBy(past + Listed(op), dir) ==
      MovedBy(past, dir) + if op.Some? && op.value.dir == dir then op.value.moved else []
  {
    hide MovedBy;
    if op.Some? {
      MovedSnoc(past, op.value, dir);
    } else {
      assert past + [] == past;
      assert MovedBy(past, dir) + [] == MovedBy(past, dir);
    }
  }

  lemma FaithfulAppend(traffic: seq<Chunk>, a: seq<Work>, b: seq<Work>)
    requires FaithfulWorks(traffic, a) && FaithfulWorks(traffic, b)
    ensures FaithfulWorks(traffic, a + b)
  {
    hide FaithfulWork;
  }

  lemma DonesFaithful(traffic: seq<Chunk>, op: Option<Op>)
    requires FaithfulIf(traffic, op)
    ensures FaithfulWorks(traffic, Dones(op))
  {
    hide For, Sound;
  }

  lemma RunFacts(st: State)
    requires Inv(st)
    ensures InvFacts(Step(st, Run))
  {
    hide Stream, InWorks, For, Sound, Faithful, MovedBy, Dones;
    if st.queue != [] {
      var w := st.queue[0];
      assert FaithfulWork(st.traffic, w);
      assert FaithfulWorks(st.traffic, st.queue[1..]);
      assert FaithfulWorks(st.traffic, [w]);
      if w.Done? {
        FaithfulAppend(st.traffic, st.ran, [w]);
      } else {
        DonesFaithful(st.traffic, w.rx);
        DonesFaithful(st.traffic, w.tx);
        FaithfulAppend(st.traffic, st.queue[1..], Dones(w.rx));
        FaithfulAppend(st.traffic, st.queue[1..] + Dones(w.rx), Dones(w.tx));
      }
    }
  }

  lemma StepKeeps(st: State, i: Input)
    requires Inv(st) && Allowed(st, i) && NewCallback(st, i)
    ensures Inv(Step(st, i))
  {
    hide Places, For, InvFacts;
    StepFacts(st, i);
    FactsOf(Step(st, i));
    RanGrows(st, i);
    forall id: nat ensures Places(Step(st, i), id) <= 1 {
      StepPlaces(st, i, id);
    }
    forall id: nat | Places(Step(st, i), id) == 0 ensures For(Step(st, i).traffic, id) == [] {
      StepPlaces(st, i, id);
      StepSilent(st, i, id);
    }
  }

  lemma RanGrows(st: State, i: Input)
    ensures var st1 := Step(st, i);
      st1.ran == st.ran || (st1.ran == st.ran + [st1.ran[|st.ran|]] && st1.ran[|st.ran|].Done?)
  {
  }

  lemma FactsOf(st: State)
    requires InvFacts(st)
    ensures InTheirPlace(st)
    ensures FaithfulIf(st.traffic, st.tx) && FaithfulIf(st.traffic, st.rx)
    ensures FaithfulWorks(st.traffic, st.queue) && FaithfulWorks(st.traffic, st.ran)
    ensures Conserved(st, Tx) && Conserved(st, Rx)
  {
  }

  lemma StepFacts(st: State, i: Input)
    requires Inv(st) && Allowed(st, i) && NewCallback(st, i)
    ensures InvFacts(Step(st, i))
  {
    hide Places, Stream, MovedBy, For, Faithful, FaithfulWorks, Attempt;
    match i
    case Connected =>
    case Start(op, res) =>
      if !Refused(st, op) {
        StartFacts(st, op, res);
      }
    case Ready(dir, res) =>
      if Handler(st, dir).Some? {
        ReadyFacts(st, dir, res);
      }
    case Disconnect(cb) =>
      DisconnectFacts(st, cb);
    case Run =>
      RunFacts(st);
  }

  /** What one attempt adds to the traffic of a transfer. */
  lemma AttemptTraffic(st: State, op: Op, res: Option<seq<byte>>, id: nat)
    requires op.id != id
    ensures For(Attempt(st, op, res).traffic, id) == For(st.traffic, id)
  {
    hide For;
    if res.Some? {
      ForSnoc(st.traffic, Chunk(op.id, op.dir, res.value), id);
      assert For(st.traffic, id) + [] == For(st.traffic, id);
    }
  }

  /** Only a transfer that has a place causes traffic. */
  lemma StepSilent(st: State, i: Input, id: nat)
    requires Inv(st) && Places(st, id) == 0
    requires i.Start? && !Refused(st, i.op) ==> i.op.id != id
    ensures For(Step(st, i).traffic, id) == []
  {
    hide InWorks, For, Attempt;
    match i
    case Connected =>
    case Start(op, res) =>
      if !Refused(st, op) {
        AttemptTraffic(st, op, res, id);
      }
    case Ready(dir, res) =>
      if Handler(st, dir).Some? {
        AttemptTraffic(st, Handler(st, dir).value, res, id);
      }
    case Disconnect(_) =>
    case Run =>
  }

  // ---------------------------------------------------------------- whole runs

  function RunAll(st: State, run: seq<Input>): State
    decreases |run|
  {
    if run == [] then st else RunAll(Step(st, run[0]), run[1..])
  }

  /** Every input of the run is one that callers and socket may make. */
  predicate Lawful(st: State, run: seq<Input>)
    decreases |run|
  {
    run == [] || (Allowed(st, run[0]) && NewCallback(st, run[0]) && Lawful(Step(st, run[0]), run[1..]))
  }

  lemma {:induction false} RunKeeps(st: State, run: seq<Input>)
    requires Inv(st) && Lawful(st, run)
    ensures Inv(RunAll(st, run))
    decreases |run|
  {
    hide Inv, Step, Allowed, NewCallback;
    if run != [] {
      StepKeeps(st, run[0]);
      RunKeeps(Step(st, run[0]), run[1..]);
    }
  }

  lemma NothingHeld()
    ensures Held(Fresh)
  {
  }

  lemma FreshKeeps()
    ensures Inv(Fresh)
  {
  }

  // -------- what has left a handler is still around as work

  predicate Holds(w: Work, op: Op) { if w.Done? then w.op == op else w.rx == Some(op) || w.tx == Some(op) }

  ghost predicate HeldIn(ws: seq<Work>, op: Op) { exists i :: 0 <= i < |ws| && Holds(ws[i], op) }

  ghost predicate Held(st: State) {
    forall k :: 0 <= k < |st.past| ==> HeldIn(st.queue, st.past[k]) || HeldIn(st.ran, st.past[k])
  }

  lemma HeldAppend(a: seq<Work>, b: seq<Work>, op: Op)
    requires HeldIn(a, op) || HeldIn(b, op)
    ensures HeldIn(a + b, op)
  {
    hide Holds;
    if HeldIn(a, op) {
      var i :| 0 <= i < |a| && Holds(a[i], op);
      assert Holds((a + b)[i], op);
    } else {
      var i :| 0 <= i < |b| && Holds(b[i], op);
      assert Holds((a + b)[|a| + i], op);
    }
  }

  lemma HeldOne(w: Work, op: Op)
    requires Holds(w, op)
    ensures HeldIn([w], op)
  {
    assert Holds([w][0], op);
  }

  lemma PushHeld(st: State, w: Work, ops: seq<Op>)
    requires Held(st) && forall k :: 0 <= k < |ops| ==> Holds(w, ops[k])
    ensures Held(Push(st.(past := st.past + ops), w))
  {
    hide Holds, HeldIn;
    var st1 := Push(st.(past := st.past + ops), w);
    forall k | 0 <= k < |st1.past| ensures HeldIn(st1.queue, st1.past[k]) || HeldIn(st1.ran, st1.past[k]) {
      if k < |st.past| {
        if HeldIn(st.queue, st.past[k]) {
          HeldAppend(st.queue, [w], st.past[k]);
        }
      } else {
        HeldOne(w, st1.past[k]);
        HeldAppend(st.queue, [w], st1.past[k]);
      }
    }
  }

  lemma RunHeld(st: State)
    requires Held(st)
    ensures Held(Step(st, Run))
  {
    hide HeldIn;
    if st.queue != [] {
      var w, rest := st.queue[0], st.queue[1..];
      var st1 := Step(st, Run);
      forall k | 0 <= k < |st1.past| ensures HeldIn(st1.queue, st1.past[k]) || HeldIn(st1.ran, st1.past[k]) {
        HeldMoves(st, st.past[k]);
      }
    }
  }

  lemma HeldMoves(st: State, op: Op)
    requires st.queue != [] && (HeldIn(st.queue, op) || HeldIn(st.ran, op))
    ensures HeldIn(Step(st, Run).queue, op) || HeldIn(Step(st, Run).ran, op)
  {
    var w, rest := st.queue[0], st.queue[1..];
    if HeldIn(st.ran, op) {
      HeldAppend(st.ran, [w], op);
    } else {
      var i :| 0 <= i < |st.queue| && Holds(st.queue[i], op);
      if i > 0 {
        assert Holds(rest[i - 1], op);
        if w.Cancel? {
          HeldAppend(rest, Dones(w.rx), op);
          HeldAppend(rest + Dones(w.rx), Dones(w.tx), op);
        }
      } else if w.Done? {
        HeldOne(w, op);
        HeldAppend(st.ran, [w], op);
      } else {
        HeldOne(Done(op, Cancelled), op);
        if w.rx == Some(op) {
          HeldAppend(rest, Dones(w.rx), op);
        }
        HeldAppend(rest + Dones(w.rx), Dones(w.tx), op);
      }
    }
  }

  lemma StepHeld(st: State, i: Input)
    requires Held(st)
    ensures Held(Step(st, i))
  {
    hide HeldIn;
    match i
    case Connected =>
    case Start(op, res) =>
      if !Refused(st, op) {
        if st.connected {
          AttemptHeld(st, op, res);
        } else {
          PushHeld(st, Done(op, Unconnected), [op]);
        }
      }
    case Ready(dir, res) =>
      if Handler(st, dir).Some? {
        AttemptHeld(st, Handler(st, dir).value, res);
      }
    case Disconnect(cb) =>
      var st0 := st.(connected := false, tx := None, rx := None);
      PushHeld(st0, Cancel(st.rx, st.tx, cb), Listed(st.rx) + Listed(st.tx));
      assert st.past + (Listed(st.rx) + Listed(st.tx)) == st.past + Listed(st.rx) + Listed(st.tx);
    case Run =>
      RunHeld(st);
  }

  lemma AttemptHeld(st: State, op: Op, res: Option<seq<byte>>)
    requires Held(st)
    ensures Held(Attempt(st, op, res))
  {
    hide HeldIn;
    if res.Some? {
      var op1 := op.(moved := op.moved + res.value);
      var st1 := SetHandler(st.(traffic := st.traffic + [Chunk(op.id, op.dir, res.value)]), op.dir, None);
      PushHeld(st1, Done(op1, Ended), [op1]);
      PushHeld(st1, Done(op1, Moved), [op1]);
    }
  }

  lemma {:induction false} RunAllHeld(st: State, run: seq<Input>)
    requires Held(st)
    ensures Held(RunAll(st, run))
    decreases |run|
  {
    hide Held, Step;
    if run != [] {
      StepHeld(st, run[0]);
      RunAllHeld(Step(st, run[0]), run[1..]);
    }
  }

  lemma PastFaithful(st: State)
    requires Inv(st) && Held(st)
    ensures forall k :: 0 <= k < |st.past| ==> Faithful(st.traffic, st.past[k])
  {
    hide For, Sound, SoundDone, Places, Conserved;
    forall k | 0 <= k < |st.past| ensures Faithful(st.traffic, st.past[k]) {
      var op := st.past[k];
      if HeldIn(st.queue, op) {
        var i :| 0 <= i < |st.queue| && Holds(st.queue[i], op);
        assert FaithfulWork(st.traffic, st.queue[i]);
      } else {
        var i :| 0 <= i < |st.ran| && Holds(st.ran[i], op);
        assert FaithfulWork(st.traffic, st.ran[i]);
      }
    }
  }

  // -------- why a transfer was over

  /** The transfer on whose behalf the socket is asked in a step. */
  function Asked(st: State, i: Input): Option<Op> {
    match i
    case Start(op, _) => if !Refused(st, op) && st.connected then Some(op) else None
    case Ready(dir, _) => Handler(st, dir)
    case _ => None
  }

  /** The step that made completion `w` due. */
  predicate Cause(st: State, i: Input, w: Work)
    requires w.Done?
  {
    match w.why
    case Unconnected => i.Start? && i.op == w.op && !Refused(st, i.op) && !st.connected
    case Cancelled => i.Disconnect? && (st.rx == Some(w.op) || st.tx == Some(w.op))
    case Ended =>
      (i.Start? || i.Ready?) && i.res == Some([]) && Asked(st, i) == Some(w.op) && |w.op.moved| < w.op.size
    case Moved =>
      && (i.Start? || i.Ready?) && i.res.Some? && Asked(st, i).Some?
      && w.op == Asked(st, i).value.(moved := Asked(st, i).value.moved + i.res.value)
  }

  lemma {:induction false} RunAllAppend(st: State, a: seq<Input>, b: seq<Input>)
    ensures RunAll(st, a + b) == RunAll(RunAll(st, a), b)
    decreases |a|
  {
    hide Step;
    if a == [] {
      assert a + b == b;
    } else {
      assert (a + b)[1..] == a[1..] + b;
      RunAllAppend(Step(st, a[0]), a[1..], b);
    }
  }

  lemma RunAllLast(st: State, run: seq<Input>)
    requires run != []
    ensures RunAll(st, run) == Step(RunAll(st, run[..|run| - 1]), run[|run| - 1])
  {
    hide Step;
    var n := |run| - 1;
    assert run == run[..n] + [run[n]];
    RunAllAppend(st, run[..n], [run[n]]);
    assert [run[n]][1..] == [];
  }

  predicate Present(st: State, w: Work) { w in st.queue || w in st.ran }

  /** Where the work of a state comes from. */
  predicate NewWork(st: State, i: Input, w: Work) {
    if w.Cancel? then i.Disconnect? && w == Cancel(st.rx, st.tx, i.cb)
    else
      || Cause(st, i, w)
      || (i.Run? && st.queue != [] && st.queue[0].Cancel? && (w in Dones(st.queue[0].rx) || w in Dones(st.queue[0].tx)))
  }

  lemma AttemptWork(st: State, op: Op, i: Input, w: Work)
    requires (i.Start? || i.Ready?) && Asked(st, i) == Some(op)
    requires Present(Attempt(st, op, i.res), w) && !Present(st, w)
    ensures NewWork(st, i, w)
  {
    assert op.moved + [] == op.moved;
  }

  lemma StepWork(st: State, i: Input, w: Work)
    requires Present(Step(st, i), w) && !Present(st, w)
    ensures NewWork(st, i, w)
  {
    hide Attempt, Dones;
    match i
    case Connected =>
    case Start(op, res) =>
      if !Refused(st, op) && st.connected {
        AttemptWork(st, op, i, w);
      }
    case Ready(dir, res) =>
      if Handler(st, dir).Some? {
        AttemptWork(st, Handler(st, dir).value, i, w);
      }
    case Disconnect(cb) =>
    case Run =>
      RunWork(st, w);
  }

  lemma RunWork(st: State, w: Work)
    requires Present(Step(st, Run), w) && !Present(st, w)
    ensures NewWork(st, Run, w)
  {
    if st.queue != [] {
      var head, rest := st.queue[0], st.queue[1..];
      assert forall x :: x in rest ==> x in st.queue;
      assert head in st.queue;
    }
  }

  /** The disconnect that queued a cancellation. */
  lemma {:induction false} CancelCause(run: seq<Input>, w: Work) returns (j: nat)
    requires w.Cancel? && Present(RunAll(Fresh, run), w)
    ensures j < |run| && run[j].Disconnect?
    ensures RunAll(Fresh, run[..j]).rx == w.rx && RunAll(Fresh, run[..j]).tx == w.tx
    decreases |run|
  {
    hide Step, NewWork, Present;
    if run == [] {
      NothingPresent(w);
      assert false;
    } else {
      var n := |run| - 1;
      RunAllLast(Fresh, run);
      var st := RunAll(Fresh, run[..n]);
      if Present(st, w) {
        j := CancelCause(run[..n], w);
        assert run[..n][..j] == run[..j];
      } else {
        StepWork(st, run[n], w);
        CancelIsNew(st, run[n], w);
        j := n;
      }
    }
  }

  lemma NothingPresent(w: Work)
    ensures !Present(Fresh, w) && RunAll(Fresh, []) == Fresh
  {
  }

  lemma CancelIsNew(st: State, i: Input, w: Work)
    requires NewWork(st, i, w) && w.Cancel?
    ensures i.Disconnect? && w == Cancel(st.rx, st.tx, i.cb)
  {
  }

  /** Every completion, called or waiting, has a cause in the run. */
  lemma {:induction false} DoneCause(run: seq<Input>, w: Work) returns (j: nat)
    requires w.Done? && Present(RunAll(Fresh, run), w)
    ensures j < |run| && Cause(RunAll(Fresh, run[..j]), run[j], w)
    decreases |run|
  {
    hide Step, Present, Cause;
    if run == [] {
      NothingPresent(w);
      assert false;
    } else {
      var n := |run| - 1;
      RunAllLast(Fresh, run);
      var st := RunAll(Fresh, run[..n]);
      if Present(st, w) {
        j := DoneCause(run[..n], w);
        assert run[..n][..j] == run[..j];
      } else {
        StepWork(st, run[n], w);
        if Cause(st, run[n], w) {
          j := n;
        } else {
          var head := st.queue[0];
          HeadPresent(st);
          j := CancelCause(run[..n], head);
          assert run[..n][..j] == run[..j];
          CutOff(RunAll(Fresh, run[..j]), run[j], head, w);
        }
      }
    }
  }

  lemma HeadPresent(st: State)
    requires st.queue != []
    ensures Present(st, st.queue[0])
  {
  }

  lemma CutOff(st: State, i: Input, head: Work, w: Work)
    requires head.Cancel? && i.Disconnect? && st.rx == head.rx && st.tx == head.tx
    requires w.Done? && (w in Dones(head.rx) || w in Dones(head.tx))
    ensures Cause(st, i, w)
  {
  }

  // -------- when a transfer is over

  /** The answer ends the transfer: any answer one that takes what it gets, the rest one of everything. */
  predicate Enough(op: Op, res: Option<seq<byte>>) {
    match res
    case None => false
    case Some(octets) => if op.all then octets == [] || |op.moved| + |octets| == op.size else true
  }

  /** The transfer with what the answer has moved. */
  function Further(op: Op, res: Option<seq<byte>>): Op {
    if res.Some? then op.(moved := op.moved + res.value) else op
  }

  /**
    * A transfer on whose behalf the socket is asked leaves its handler, with its completion behind
    * the queue, if and only if the answer ends it: without `all` that is any answer, with `all` the
    * end of the stream or the last octet. Otherwise it waits in its handler with what it has moved,
    * and nothing is queued.
    */
  lemma OverIffEnough(st: State, i: Input)
    requires InTheirPlace(st) && Asked(st, i).Some?
    ensures var op := Asked(st, i).value; var st1 := Step(st, i); var op1 := Further(op, i.res);
      && (Handler(st1, op.dir).None? <==> Enough(op, i.res))
      && (Enough(op, i.res) ==>
            && st1.past == st.past + [op1]
            && st1.queue ==
                 st.queue + [Done(op1, if i.res == Some([]) && |op1.moved| < op1.size then Ended else Moved)])
      && (!Enough(op, i.res) ==>
            Handler(st1, op.dir) == Some(op1) && st1.queue == st.queue && st1.past == st.past)
  {
    var op := Asked(st, i).value;
    assert !Enough(op, i.res) && i.res.Some? ==> op.all;
  }

  /** A transfer that takes what it gets has got nothing as long as it waits. */
  predicate PlainWaits(st: State) {
    && (st.tx.Some? && !st.tx.value.all ==> st.tx.value.moved == [])
    && (st.rx.Some? && !st.rx.value.all ==> st.rx.value.moved == [])
  }

  lemma {:induction false} RunPlainWaits(st: State, run: seq<Input>)
    requires InTheirPlace(st) && PlainWaits(st) && Lawful(st, run)
    ensures PlainWaits(RunAll(st, run))
    decreases |run|
  {
    hide Attempt, NewCallback;
    if run != [] {
      StepPlainWaits(st, run[0]);
      RunPlainWaits(Step(st, run[0]), run[1..]);
    }
  }

  lemma StepPlainWaits(st: State, i: Input)
    requires InTheirPlace(st) && PlainWaits(st) && Allowed(st, i)
    ensures InTheirPlace(Step(st, i)) && PlainWaits(Step(st, i))
  {
  }

  // -------- nothing is written behind a short write

  /** A write attempt at which the socket takes nothing. */
  predicate NoOctets(i: Input) {
    (i.Start? && i.op.dir.Tx?) || (i.Ready? && i.dir.Tx?) ==> i.res.None? || i.res == Some([])
  }

  predicate Down(st: State) { !st.connected && st.tx.None? }

  lemma QuietStep(st: State, i: Input)
    requires InTheirPlace(st) && (NoOctets(i) || (Down(st) && !i.Connected?))
    ensures Stream(Step(st, i).traffic, Tx) == Stream(st.traffic, Tx)
    ensures Down(st) && !i.Connected? ==> Down(Step(st, i))
  {
    hide Stream;
    if (i.Start? || i.Ready?) && i.res.Some? && Asked(st, i).Some? {
      var op := Asked(st, i).value;
      StreamSnoc(st.traffic, Chunk(op.id, op.dir, i.res.value), Tx);
      assert Stream(st.traffic, Tx) + [] == Stream(st.traffic, Tx);
    }
  }

  lemma {:induction false} QuietRun(st: State, run: seq<Input>)
    requires Inv(st) && Lawful(st, run)
    requires
      || (forall k :: 0 <= k < |run| ==> NoOctets(run[k]))
      || (Down(st) && forall k :: 0 <= k < |run| ==> !run[k].Connected?)
    ensures Stream(RunAll(st, run).traffic, Tx) == Stream(st.traffic, Tx)
    decreases |run|
  {
    hide Step, Stream, Allowed, NewCallback, Places, FaithfulWorks, Conserved, FaithfulIf, NoOctets, Down;
    if run != [] {
      QuietStep(st, run[0]);
      StepKeeps(st, run[0]);
      QuietRun(Step(st, run[0]), run[1..]);
    }
  }

  lemma {:induction false} LawfulSplit(st: State, a: seq<Input>, b: seq<Input>)
    requires Lawful(st, a + b)
    ensures Lawful(st, a) && Lawful(RunAll(st, a), b)
    decreases |a|
  {
    hide Step, Allowed, NewCallback;
    if a == [] {
      assert a + b == b;
    } else {
      assert (a + b)[1..] == a[1..] + b;
      LawfulSplit(Step(st, a[0]), a[1..], b);
    }
  }

  /** The step that makes a short write due takes nothing, and leaves the transfer side down or ended. */
  lemma ShortCause(st: State, i: Input, w: Work)
    requires Inv(st) && w.Done? && w.op.dir.Tx? && !w.why.Moved? && Cause(st, i, w)
    ensures Stream(Step(st, i).traffic, Tx) == Stream(st.traffic, Tx)
    ensures !w.why.Ended? ==> Down(Step(st, i))
  {
    hide Stream, Places, FaithfulWorks, Conserved, For;
    if w.why.Ended? {
      StreamSnoc(st.traffic, Chunk(w.op.id, w.op.dir, []), Tx);
      assert Stream(st.traffic, Tx) + [] == Stream(st.traffic, Tx);
    }
  }

  /** Behind step `j` an ended stream stays ended, and a connection that is down stays down. */
  ghost predicate StaysSo(run: seq<Input>, j: nat, why: Why) {
    forall k :: j < k < |run| ==> if why.Ended? then NoOctets(run[k]) else !run[k].Connected?
  }

  /**
    * A write of everything that falls short is the last to move anything: it was answered with the
    * end of the stream, cut off by a disconnect, or made without a connection, and unless the stream
    * opens again or a new connection is made, the socket takes nothing from that step on.
    */
  lemma {:induction false} ShortWriteIsLast(run: seq<Input>, w: Work) returns (j: nat)
    requires Lawful(Fresh, run) && w.Done? && Present(RunAll(Fresh, run), w)
    requires w.op.dir.Tx? && w.op.all && |w.op.moved| < w.op.size
    ensures j < |run| && !w.why.Moved? && Cause(RunAll(Fresh, run[..j]), run[j], w)
    ensures StaysSo(run, j, w.why) ==>
      Stream(RunAll(Fresh, run).traffic, Tx) == Stream(RunAll(Fresh, run[..j]).traffic, Tx)
  {
    hide RunAll, Lawful, Step, Cause, Inv, Stream, Down;
    FreshKeeps();
    RunKeeps(Fresh, run);
    PresentSound(RunAll(Fresh, run), w);
    j := DoneCause(run, w);
    var a, b := run[..j + 1], run[j + 1..];
    assert run == a + b && a[..j] == run[..j] && a[j] == run[j];
    RunAllLast(Fresh, a);
    RunAllAppend(Fresh, a, b);
    LawfulSplit(Fresh, a, b);
    assert a == run[..j] + [run[j]];
    LawfulSplit(Fresh, run[..j], [run[j]]);
    var st := RunAll(Fresh, run[..j]);
    RunKeeps(Fresh, run[..j]);
    RunKeeps(Fresh, a);
    ShortCause(st, run[j], w);
    if StaysSo(run, j, w.why) {
      forall k | 0 <= k < |b| ensures if w.why.Ended? then NoOctets(b[k]) else !b[k].Connected? {
        assert b[k] == run[j + 1 + k];
      }
      QuietRun(RunAll(Fresh, a), b);
    }
  }

  lemma PresentSound(st: State, w: Work)
    requires Inv(st) && Present(st, w)
    ensures FaithfulWork(st.traffic, w)
  {
    hide FaithfulWork;
  }

  // -------- the callbacks of disconnects

  function EndsPending(ws: seq<Work>): seq<nat> {
    if ws == [] then [] else Told(ws[0]) + EndsPending(ws[1..])
  }

  function EndsAsked(run: seq<Input>): seq<nat> {
    if run == [] then []
    else (if run[0].Disconnect? && run[0].cb.Some? then [run[0].cb.value] else []) + EndsAsked(run[1..])
  }

  lemma {:induction false} EndsAppend(a: seq<Work>, b: seq<Work>)
    ensures EndsPending(a + b) == EndsPending(a) + EndsPending(b)
  {
    if a == [] {
      assert a + b == b;
    } else {
      assert (a + b)[1..] == a[1..] + b;
      EndsAppend(a[1..], b);
    }
  }

  lemma EndsOne(w: Work)
    ensures EndsPending([w]) == Told(w)
  {
    assert [w][1..] == [] && Told(w) + [] == Told(w);
  }

  lemma RunEnds(st: State)
    requires st.queue != []
    ensures var st1 := Step(st, Run);
      st1.ended + EndsPending(st1.queue) == st.ended + EndsPending(st.queue)
  {
    hide EndsPending, Told, Dones, Step;
    RunIs(st);
    var w, rest := st.queue[0], st.queue[1..];
    assert st.queue == [w] + rest;
    EndsAppend([w], rest);
    EndsOne(w);
    assert st.ended + (Told(w) + EndsPending(rest)) == (st.ended + Told(w)) + EndsPending(rest);
    if w.Cancel? {
      EndsAppend(rest + Dones(w.rx), Dones(w.tx));
      EndsAppend(rest, Dones(w.rx));
      NoEnds(w.rx);
      NoEnds(w.tx);
      assert EndsPending(rest) + [] + [] == EndsPending(rest);
    } else {
      DoneTells(w);
      assert st.ended + [] == st.ended;
    }
  }

  lemma StepEnds(st: State, i: Input)
    ensures var st1 := Step(st, i);
      st1.ended + EndsPending(st1.queue) ==
        st.ended + EndsPending(st.queue) + if i.Disconnect? && i.cb.Some? then [i.cb.value] else []
  {
    hide EndsPending, Told, Dones;
    var st1 := Step(st, i);
    assert st.ended + EndsPending(st.queue) + [] == st.ended + EndsPending(st.queue);
    if i.Run? && st.queue != [] {
      RunEnds(st);
    } else if st1.queue != st.queue {
      var w := st1.queue[|st.queue|];
      assert st1.queue == st.queue + [w];
      EndsAppend(st.queue, [w]);
      EndsOne(w);
      TellsOf(w);
      assert st.ended + (EndsPending(st.queue) + Told(w)) == st.ended + EndsPending(st.queue) + Told(w);
    }
  }

  lemma DoneTells(w: Work)
    requires w.Done?
    ensures Told(w) == []
  {
  }

  lemma TellsOf(w: Work)
    ensures Told(w) == if w.Cancel? && w.cb.Some? then [w.cb.value] else []
  {
  }

  lemma NoEnds(op: Option<Op>)
    ensures EndsPending(Dones(op)) == []
  {
    if op.Some? {
      EndsOne(Done(op.value, Cancelled));
    }
  }

  /** The callbacks of disconnects, those called and those waiting, are those asked for, in order. */
  lemma {:induction false} DisconnectsReported(st: State, run: seq<Input>)
    ensures var st1 := RunAll(st, run);
      st1.ended + EndsPending(st1.queue) == st.ended + EndsPending(st.queue) + EndsAsked(run)
    decreases |run|
  {
    hide Step, EndsPending;
    var known := st.ended + EndsPending(st.queue);
    if run == [] {
      assert known + [] == known;
    } else {
      StepEnds(st, run[0]);
      DisconnectsReported(Step(st, run[0]), run[1..]);
      var first := if run[0].Disconnect? && run[0].cb.Some? then [run[0].cb.value] else [];
      assert known + (first + EndsAsked(run[1..])) == (known + first) + EndsAsked(run[1..]);
    }
  }

  /**
    * Stream conservation. In every run the octets the socket took are, without gap, repetition or
    * reordering, what the write transfers moved one after the other, and each moved a prefix of its
    * buffer; the same holds for the octets it gave and the read transfers.
    */
  lemma StreamsConserved(run: seq<Input>, dir: Dir)
    requires Lawful(Fresh, run)
    ensures var st := RunAll(Fresh, run);
      Stream(st.traffic, dir) == MovedBy(st.past, dir) + MovedIn(Handler(st, dir))
    ensures FaithfulIf(RunAll(Fresh, run).traffic, RunAll(Fresh, run).tx)
    ensures FaithfulIf(RunAll(Fresh, run).traffic, RunAll(Fresh, run).rx)
    ensures var st := RunAll(Fresh, run);
      forall k :: 0 <= k < |st.past| ==> Faithful(st.traffic, st.past[k])
  {
    hide RunAll, Lawful, Stream, MovedBy, For, Places, FaithfulWorks, Held, Faithful;
    FreshKeeps();
    RunKeeps(Fresh, run);
    NothingHeld();
    RunAllHeld(Fresh, run);
    PastFaithful(RunAll(Fresh, run));
  }

  /**
    * Single completion. In every run a completion that was called carries exactly the octets the
    * socket moved for its transfer, and has not been and will not be called again. It has a cause in
    * the run, and it is short of the size of a transfer of everything only if that cause is the end
    * of the stream, a disconnect, or that there was no connection.
    */
  lemma {:induction false} CompletedOnce(run: seq<Input>, k: nat) returns (j: nat)
    requires Lawful(Fresh, run) && k < |RunAll(Fresh, run).ran|
    ensures var st := RunAll(Fresh, run); var w := st.ran[k];
      && w.Done? && For(st.traffic, w.op.id) == w.op.moved
      && (w.op.dir.Tx? ==> w.op.moved <= w.op.data)
      && (w.op.all && |w.op.moved| < w.op.size ==> w.why.Ended? || w.why.Cancelled? || w.why.Unconnected?)
      && InWorks(st.ran, w.op.id) == 1
      && InWorks(st.queue, w.op.id) == 0 && InHandler(st.tx, w.op.id) == 0 && InHandler(st.rx, w.op.id) == 0
      && j < |run| && Cause(RunAll(Fresh, run[..j]), run[j], w)
  {
    hide RunAll, Lawful, For, InWorks, Conserved, Cause;
    FreshKeeps();
    RunKeeps(Fresh, run);
    var st := RunAll(Fresh, run);
    var w := st.ran[k];
    assert FaithfulWork(st.traffic, w);
    InWorksAt(st.ran, k, w.op.id);
    assert Places(st, w.op.id) <= 1;
    j := DoneCause(run, w);
  }

  lemma {:induction false} InWorksAt(ws: seq<Work>, k: nat, id: nat)
    requires k < |ws|
    ensures InWork(ws[k], id) <= InWorks(ws, id)
  {
    if k > 0 {
      InWorksAt(ws[1..], k - 1, id);
    }
  }

  /** Nothing gets lost: a transfer that was accepted is in a handler, in the queue, or completed. */
  lemma {:induction false} NeverLost(st: State, run: seq<Input>, id: nat)
    requires Inv(st) && Lawful(st, run) && Places(st, id) == 1
    ensures Places(RunAll(st, run), id) == 1
    decreases |run|
  {
    hide Inv, Step, Allowed, Places, NewCallback;
    if run != [] {
      StepKeeps(st, run[0]);
      FactsIn(st);
      KeepsPlace(st, run[0], id);
      NeverLost(Step(st, run[0]), run[1..], id);
    }
  }

  lemma FactsIn(st: State)
    requires Inv(st)
    ensures InTheirPlace(st)
  {
  }

  lemma KeepsPlace(st: State, i: Input, id: nat)
    requires InTheirPlace(st) && Places(st, id) == 1 && NewCallback(st, i)
    ensures Places(Step(st, i), id) == 1
  {
    hide Places, Step;
    StepPlaces(st, i, id);
  }
}
