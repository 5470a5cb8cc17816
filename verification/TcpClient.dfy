/**
  * The TCP client object: handlers that keep their own progress, a receive buffer filled in place,
  * and completions pushed to the executor. Every method is a step of `Transfers`; for a read the
  * front of the caller's buffer is, besides, what the socket has given for this transfer.
  */
module TcpClient {
  import opened Bytes
  import T = Transfers

  /** What the send handler captures. */
  datatype SendHandler = SendHandler(id: nat, all: bool, buffer: seq<byte>, sent: nat)

  /** What the receive handler captures; the buffer is the caller's. */
  datatype RecvHandler = RecvHandler(id: nat, all: bool, buffer: array<byte>, read: nat)

  datatype Slot = NoOne | Someone(id: nat, count: nat)

  /** What the executor is to call: a callback with its count, or cancelled handlers and a disconnect's callback. */
  datatype Job = Call(id: nat, count: nat) | CancelBoth(rx: Slot, tx: Slot, cb: T.Option<nat>)

  /** The octets a write attempt from `at` took, by the value the socket returned. */
  function Took(buffer: seq<byte>, at: nat, res: int): T.Option<seq<byte>>
    requires at <= |buffer| && -1 <= res <= |buffer| - at
  {
    if res == -1 then T.None else T.Some(buffer[at..at + res])
  }

  /** What the socket returns for octets read. */
  function Count(got: T.Option<seq<byte>>): int { if got.Some? then |got.value| else -1 }

  /**
    * The value the socket returned ends the transfer, of which so many octets are done then: any value
    * but -1 if the call is content with what it gets, otherwise the end of the stream or the last octet.
    */
  predicate Ends(all: bool, res: int, done: int, size: nat) {
    res != -1 && (all ==> res == 0 || done == size)
  }

  predicate SlotIs(s: Slot, op: T.Option<T.Op>) {
    match s
    case NoOne => op.None?
    case Someone(id, count) => op.Some? && op.value.id == id && |op.value.moved| == count
  }

  predicate JobIs(j: Job, w: T.Work) {
    match j
    case Call(id, count) => w.Done? && w.op.id == id && |w.op.moved| == count
    case CancelBoth(rx, tx, cb) => w.Cancel? && SlotIs(rx, w.rx) && SlotIs(tx, w.tx) && w.cb == cb
  }

  /** The real jobs and the recorded ones, one by one. */
  ghost predicate JobsAre(js: seq<Job>, ws: seq<T.Work>) {
    |js| == |ws| && forall i :: 0 <= i < |js| ==> JobIs(js[i], ws[i])
  }

  lemma JobsSnoc(js: seq<Job>, ws: seq<T.Work>, j: Job, w: T.Work)
    requires JobsAre(js, ws) && JobIs(j, w)
    ensures JobsAre(js + [j], ws + [w])
  {
    hide JobIs;
  }

  lemma JobsTail(js: seq<Job>, ws: seq<T.Work>)
    requires JobsAre(js, ws) && js != []
    ensures ws != [] && JobIs(js[0], ws[0]) && JobsAre(js[1..], ws[1..])
  {
    hide JobIs;
  }

  /** The send handler's captures against the recorded transfer. */
  ghost predicate SendIs(handler: T.Option<SendHandler>, tx: T.Option<T.Op>) {
    match handler
    case None => tx.None?
    case Some(h) =>
      h.sent <= |h.buffer| && tx == T.Some(T.Op(h.id, T.Tx, h.all, h.buffer, |h.buffer|, h.buffer[..h.sent]))
  }

  /** The receive handler's captures, and what is in the caller's buffer, against the recorded transfer. */
  ghost predicate RecvIs(handler: T.Option<RecvHandler>, rx: T.Option<T.Op>)
    reads if handler.Some? then {handler.value.buffer} else {}
  {
    match handler
    case None => rx.None?
    case Some(h) =>
      h.read <= h.buffer.Length && rx == T.Some(T.Op(h.id, T.Rx, h.all, [], h.buffer.Length, h.buffer[..h.read]))
  }

  function SendSlot(handler: T.Option<SendHandler>): Slot {
    if handler.Some? then Someone(handler.value.id, handler.value.sent) else NoOne
  }

  function RecvSlot(handler: T.Option<RecvHandler>): Slot {
    if handler.Some? then Someone(handler.value.id, handler.value.read) else NoOne
  }

  lemma CancelIs(send: T.Option<SendHandler>, recv: T.Option<RecvHandler>, tx: T.Option<T.Op>, rx: T.Option<T.Op>,
      cb: T.Option<nat>)
    requires SendIs(send, tx) && RecvIs(recv, rx)
    ensures JobIs(CancelBoth(RecvSlot(recv), SendSlot(send), cb), T.Cancel(rx, tx, cb))
  {
  }

  /** A cancelled handler pushes its callback with its progress. */
  function Pushed(slot: Slot): seq<Job> { if slot.Someone? then [Call(slot.id, slot.count)] else [] }

  lemma PushedAre(js: seq<Job>, ws: seq<T.Work>, slot: Slot, op: T.Option<T.Op>)
    requires JobsAre(js, ws) && SlotIs(slot, op)
    ensures JobsAre(js + Pushed(slot), ws + T.Dones(op))
  {
    hide JobsAre;
    if slot.Someone? {
      JobsSnoc(js, ws, Call(slot.id, slot.count), T.Done(op.value, T.Cancelled));
    } else {
      assert js + [] == js && ws + [] == ws;
    }
  }

  lemma CancelJobs(js: seq<Job>, ws: seq<T.Work>, r: Slot, t: Slot, w: T.Work)
    requires JobsAre(js, ws) && w.Cancel? && SlotIs(r, w.rx) && SlotIs(t, w.tx)
    ensures JobsAre(js + Pushed(r) + Pushed(t), ws + T.Dones(w.rx) + T.Dones(w.tx))
  {
    hide JobsAre, SlotIs, Pushed, T.Dones;
    PushedAre(js, ws, r, w.rx);
    PushedAre(js + Pushed(r), ws + T.Dones(w.rx), t, w.tx);
  }

  class Client {
    var isConnected: bool
    var sendHandler: T.Option<SendHandler>
    var recvHandler: T.Option<RecvHandler>
    var queue: seq<Job>

    ghost var tx: T.Option<T.Op>
    ghost var rx: T.Option<T.Op>
    ghost var works: seq<T.Work>
    ghost var ran: seq<T.Work>
    ghost var past: seq<T.Op>
    ghost var traffic: seq<T.Chunk>
    ghost var ended: seq<nat>

    /** The caller's buffer while a read is under way. */
    ghost function Buffers(): set<object>
      reads this
    {
      if recvHandler.Some? then {recvHandler.value.buffer} else {}
    }

    ghost predicate Valid()
      reads this, Buffers()
    {
      && SendIs(sendHandler, tx) && RecvIs(recvHandler, rx)
      && JobsAre(queue, works)
    }

    ghost function View(): T.State
      reads this
    {
      T.State(isConnected, tx, rx, works, ran, past, traffic, ended)
    }

    constructor ()
      ensures Valid() && View() == T.Fresh && recvHandler.None?
    {
      isConnected, sendHandler, recvHandler, queue := false, T.None, T.None, [];
      tx, rx, works, ran, past, traffic, ended := T.None, T.None, [], [], [], [], [];
    }

    /** The executor's `push` of a completion. */
    method PushDone(id: nat, count: nat, ghost op: T.Op, ghost why: T.Why)
      requires op.id == id && |op.moved| == count
      requires Valid()
      modifies this`queue, this`works, this`past
      ensures Valid() && works == old(works) + [T.Done(op, why)] && past == old(past) + [op]
      ensures queue == old(queue) + [Call(id, count)]
    {
      hide JobsAre, SendIs, T.Step;
      JobsSnoc(queue, works, Call(id, count), T.Done(op, why));
      queue := queue + [Call(id, count)];
      works := works + [T.Done(op, why)];
      past := past + [op];
    }

    // -------------------------------------------------------------- writing

    /** `send` and `send_all`; `res` is what the socket answers if it is asked. */
    method StartSend(id: nat, all: bool, buffer: seq<byte>, res: int) returns (ok: bool)
      requires Valid() && -1 <= res <= |buffer|
      modifies this
      ensures Valid() && recvHandler == old(recvHandler) && ok == old(sendHandler.None?)
      ensures View() == T.Step(old(View()),
        T.Start(T.Op(id, T.Tx, all, buffer, |buffer|, []), Took(buffer, 0, res)))
      ensures isConnected == old(isConnected)
      ensures !ok ==> sendHandler == old(sendHandler) && queue == old(queue)
      ensures ok && !isConnected ==> sendHandler.None? && queue == old(queue) + [Call(id, 0)]
      ensures ok && isConnected ==>
        if Ends(all, res, res, |buffer|) then sendHandler.None? && queue == old(queue) + [Call(id, res)]
        else
          && sendHandler == T.Some(SendHandler(id, all, buffer, if res == -1 then 0 else res))
          && queue == old(queue)
    {
      hide JobsAre, T.Dones, T.Listed, T.Told;
      if sendHandler.Some? {
        return false;
      }
      ok := true;
      ghost var op := T.Op(id, T.Tx, all, buffer, |buffer|, []);
      if !isConnected {
        PushDone(id, 0, op, T.Unconnected);
        return;
      }
      if res >= 0 {
        assert [] + buffer[0..res] == buffer[..res];
        traffic := traffic + [T.Chunk(id, T.Tx, buffer[0..res])];
        op := op.(moved := buffer[..res]);
      }
      if (all && (res == 0 || res == |buffer|)) || (!all && res != -1) {
        PushDone(id, res, op, if res == 0 && |buffer| > 0 then T.Ended else T.Moved);
        return;
      }
      var sent := if res < 0 then 0 else res;
      assert buffer[..0] == [];
      sendHandler := T.Some(SendHandler(id, all, buffer, sent));
      tx := T.Some(op);
    }

    /** The socket is writable. */
    method OnWritable(res: int)
      requires Valid()
      requires sendHandler.Some? ==> -1 <= res <= |sendHandler.value.buffer| - sendHandler.value.sent
      modifies this
      ensures Valid() && recvHandler == old(recvHandler)
      ensures View() == T.Step(old(View()), T.Ready(T.Tx,
        if old(sendHandler).Some?
        then Took(old(sendHandler).value.buffer, old(sendHandler).value.sent, res)
        else T.None))
      ensures old(sendHandler).None? || res == -1 ==> sendHandler == old(sendHandler) && queue == old(queue)
      ensures old(sendHandler).Some? && res != -1 ==>
        var h := old(sendHandler).value; var sent := h.sent + res;
        if Ends(h.all, res, sent, |h.buffer|) then sendHandler.None? && queue == old(queue) + [Call(h.id, sent)]
        else sendHandler == T.Some(h.(sent := sent)) && queue == old(queue)
    {
      hide JobsAre, T.Dones, T.Listed, T.Told;
      if sendHandler.None? {
        return;
      }
      var h := sendHandler.value;
      if res == -1 {
        return;
      }
      var sent := h.sent + res;
      assert h.buffer[..h.sent] + h.buffer[h.sent..sent] == h.buffer[..sent];
      ghost var op := tx.value.(moved := h.buffer[..sent]);
      traffic := traffic + [T.Chunk(h.id, T.Tx, h.buffer[h.sent..sent])];
      if !h.all || res == 0 || sent == |h.buffer| {
        sendHandler, tx := T.None, T.None;
        PushDone(h.id, sent, op, if res == 0 && sent < |h.buffer| then T.Ended else T.Moved);
      } else {
        sendHandler, tx := T.Some(h.(sent := sent)), T.Some(op);
      }
    }

    // -------------------------------------------------------------- reading

    /** The socket writes what it has behind what is already there. */
    method Fill(buffer: array<byte>, at: nat, got: seq<byte>)
      requires at + |got| <= buffer.Length
      modifies buffer
      ensures buffer[..at + |got|] == old(buffer[..at]) + got
      ensures buffer[at + |got|..] == old(buffer[at + |got|..])
    {
      forall k | 0 <= k < |got| {
        buffer[at + k] := got[k];
      }
    }

    /** `recv` and `recv_all` into the whole of `buffer`; `got` is what the socket answers if asked. */
    method StartRecv(id: nat, all: bool, buffer: array<byte>, got: T.Option<seq<byte>>) returns (ok: bool)
      requires Valid() && (got.Some? ==> |got.value| <= buffer.Length)
      modifies this, buffer
      ensures Valid() && ok == old(recvHandler.None?)
      ensures View() == T.Step(old(View()), T.Start(T.Op(id, T.Rx, all, [], buffer.Length, []), got))
      ensures !(ok && isConnected && got.Some?) ==> buffer[..] == old(buffer[..])
      ensures ok && isConnected && got.Some? ==>
        && buffer[..|got.value|] == got.value && buffer[|got.value|..] == old(buffer[|got.value|..])
        && (old(T.For(traffic, id)) == [] ==> buffer[..|got.value|] == T.For(traffic, id))
      ensures ok && recvHandler.Some? ==> recvHandler.value.buffer == buffer && recvHandler.value.id == id
      ensures isConnected == old(isConnected)
      ensures !ok ==> recvHandler == old(recvHandler) && queue == old(queue)
      ensures ok && !isConnected ==> recvHandler.None? && queue == old(queue) + [Call(id, 0)]
      ensures ok && isConnected ==>
        var res := Count(got);
        if Ends(all, res, res, buffer.Length) then recvHandler.None? && queue == old(queue) + [Call(id, res)]
        else
          && recvHandler == T.Some(RecvHandler(id, all, buffer, if res == -1 then 0 else res))
          && queue == old(queue)
    {
      hide JobsAre, SendIs;
      if recvHandler.Some? {
        return false;
      }
      ok := true;
      ghost var op := T.Op(id, T.Rx, all, [], buffer.Length, []);
      if !isConnected {
        PushDone(id, 0, op, T.Unconnected);
        return;
      }
      var read := 0;
      if got.Some? {
        read := |got.value|;
        Fill(buffer, 0, got.value);
        assert buffer[..0 + read] == [] + got.value == got.value;
        traffic := traffic + [T.Chunk(id, T.Rx, got.value)];
        op := op.(moved := got.value);
        if (all && (read == 0 || read == buffer.Length)) || !all {
          PushDone(id, read, op, if read == 0 && buffer.Length > 0 then T.Ended else T.Moved);
          return;
        }
      }
      assert buffer[..0] == [];
      recvHandler := T.Some(RecvHandler(id, all, buffer, read));
      rx := T.Some(op);
    }

    /** The socket is readable. */
    method OnReadable(got: T.Option<seq<byte>>)
      requires Valid()
      requires recvHandler.Some? && got.Some? ==>
        |got.value| <= recvHandler.value.buffer.Length - recvHandler.value.read
      modifies this, Buffers()
      ensures Valid()
      ensures View() == T.Step(old(View()), T.Ready(T.Rx, got))
      ensures old(recvHandler).Some? && got.Some? ==>
        var h := old(recvHandler).value; var read := h.read + |got.value|;
        && h.buffer[..read] == old(recvHandler.value.buffer[..recvHandler.value.read]) + got.value
        && h.buffer[read..] == old(recvHandler.value.buffer[recvHandler.value.read + |got.value|..])
        && (old(T.FaithfulIf(traffic, rx)) ==> h.buffer[..read] == T.For(traffic, h.id))
      ensures recvHandler.Some? ==>
        old(recvHandler).Some? && recvHandler == T.Some(old(recvHandler).value.(read := recvHandler.value.read))
      ensures old(recvHandler).None? || got.None? ==> recvHandler == old(recvHandler) && queue == old(queue)
      ensures old(recvHandler).Some? && got.Some? ==>
        var h := old(recvHandler).value; var read := h.read + |got.value|;
        if Ends(h.all, |got.value|, read, h.buffer.Length) then
          recvHandler.None? && queue == old(queue) + [Call(h.id, read)]
        else recvHandler == T.Some(h.(read := read)) && queue == old(queue)
    {
      hide JobsAre, SendIs, T.Dones, T.Listed, T.Told;
      if recvHandler.None? || got.None? {
        return;
      }
      var h := recvHandler.value;
      var res := |got.value|;
      Fill(h.buffer, h.read, got.value);
      var read := h.read + res;
      ghost var op := rx.value.(moved := rx.value.moved + got.value);
      traffic := traffic + [T.Chunk(h.id, T.Rx, got.value)];
      if !h.all || res == 0 || read == h.buffer.Length {
        recvHandler, rx := T.None, T.None;
        PushDone(h.id, read, op, if res == 0 && read < h.buffer.Length then T.Ended else T.Moved);
      } else {
        recvHandler, rx := T.Some(h.(read := read)), T.Some(op);
      }
    }

    // -------------------------------------------------------------- the connection

    method OnConnected()
      requires Valid()
      modifies this
      ensures Valid() && recvHandler == old(recvHandler) && View() == T.Step(old(View()), T.Connected)
    {
      isConnected := true;
    }

    method Disconnect(cb: T.Option<nat>)
      requires Valid()
      modifies this
      ensures Valid() && recvHandler.None? && View() == T.Step(old(View()), T.Disconnect(cb))
      ensures !isConnected && sendHandler.None?
      ensures queue == old(queue) + [CancelBoth(old(RecvSlot(recvHandler)), old(SendSlot(sendHandler)), cb)]
    {
      hide JobsAre, JobIs, T.Listed, T.Step;
      T.DisconnectIs(View(), cb);
      var sendCb, recvCb := sendHandler, recvHandler;
      ghost var w := T.Cancel(rx, tx, cb);
      CancelIs(sendCb, recvCb, tx, rx, cb);
      past := past + T.Listed(rx) + T.Listed(tx);
      sendHandler, recvHandler, tx, rx := T.None, T.None, T.None, T.None;
      isConnected := false;
      var job := CancelBoth(RecvSlot(recvCb), SendSlot(sendCb), cb);
      JobsSnoc(queue, works, job, w);
      queue, works := queue + [job], works + [w];
    }

    /** The executor takes the next job: a callback is called, a cancelled handler pushes its own. */
    method RunOne() returns (called: Slot, told: T.Option<nat>)
      requires Valid()
      modifies this
      ensures Valid() && recvHandler == old(recvHandler) && View() == T.Step(old(View()), T.Run)
      ensures called.Someone? ==>
        |ran| == |old(ran)| + 1 && ran[|ran| - 1].op.id == called.id && |ran[|ran| - 1].op.moved| == called.count
      ensures ended == old(ended) + if told.Some? then [told.value] else []
      ensures old(queue) == [] ==> queue == [] && called.NoOne? && told.None?
      ensures old(queue) != [] ==> match old(queue)[0]
        case Call(id, count) => called == Someone(id, count) && told.None? && queue == old(queue)[1..]
        case CancelBoth(r, t, cb) =>
          called.NoOne? && told == cb && queue == old(queue)[1..] + Pushed(r) + Pushed(t)
    {
      called, told := NoOne, T.None;
      if queue == [] {
        assert works == [];
        return;
      }
      hide JobsAre, T.Listed, T.Told, T.Step, T.Dones, SendIs, RecvIs, Pushed;
      T.RunIs(View());
      JobsTail(queue, works);
      var job := queue[0];
      ghost var w := works[0];
      queue, works := queue[1..], works[1..];
      match job {
        case Call(id, count) =>
          called := Someone(id, count);
          ran := ran + [w];
        case CancelBoth(r, t, cb) =>
          CancelJobs(queue, works, r, t, w);
          queue := queue + Pushed(r) + Pushed(t);
          works := works + T.Dones(w.rx) + T.Dones(w.tx);
          told := cb;
          ended := ended + T.Told(w);
      }
    }
  }
}
