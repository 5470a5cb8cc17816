/**
  * Completion against cancellation: done events, stop requests and the executor's queue, over every
  * interleaving. A callback resumes one awaiting coroutine: how often, which event decides the
  * result, and which transfers are under way meanwhile.
  */
module Completion {

  /** The result code a cancelled transfer is resumed with. */
  const ABORTED_BY_CALLBACK: int := 42

  /** A queued call of callback `cb`; a stop also takes the handle off the executor first. */
  datatype Job = Deliver(cb: nat, code: int) | Abort(handle: nat, cb: nat)

  /** A callback that has been called, with its code. */
  datatype Call = Call(cb: nat, code: int)

  /** `installed` maps a handle to its done callback, `active` are the handles being transferred. */
  datatype State = State(installed: map<nat, nat>, active: set<nat>, queue: seq<Job>, ran: seq<Call>)

  const Idle: State := State(map[], {}, [], [])

  datatype Input =
    | Await(handle: nat, cb: nat)
    | Done(handle: nat, code: int)
    | Stop(handle: nat)
    | Pop

  /** Takes the callback out of a handle. */
  function Take(st: State, h: nat): State { st.(installed := st.installed - {h}) }

  function Step(st: State, i: Input): State {
    match i
    case Await(h, cb) => st.(installed := st.installed[h := cb], active := st.active + {h})
    case Done(h, code) =>
      var st1 := Take(st, h).(active := st.active - {h});
      if h in st.installed then st1.(queue := st1.queue + [Deliver(st.installed[h], code)]) else st1
    case Stop(h) =>
      if h in st.installed then Take(st, h).(queue := st.queue + [Abort(h, st.installed[h])]) else st
    case Pop =>
      if st.queue == [] then st
      else
        var j := st.queue[0];
        var st1 := st.(queue := st.queue[1..]);
        match j
        case Deliver(cb, code) => st1.(ran := st1.ran + [Call(cb, code)])
        case Abort(h, cb) => st1.(active := st1.active - {h}, ran := st1.ran + [Call(cb, ABORTED_BY_CALLBACK)])
  }

  function Run(st: State, run: seq<Input>): State
    decreases |run|
  {
    if run == [] then st else Run(Step(st, run[0]), run[1..])
  }

  // ---------------------------------------------------------------- the one place of a callback

  ghost predicate Installed(st: State, cb: nat) { exists h :: h in st.installed && st.installed[h] == cb }

  function CbOf(j: Job): nat { j.cb }

  function CodeOf(j: Job): int { if j.Deliver? then j.code else ABORTED_BY_CALLBACK }

  /** The calls of `cb` in a queue, in order; and among those made. */
  function Queued(queue: seq<Job>, cb: nat): seq<int> {
    if queue == [] then []
    else (if CbOf(queue[0]) == cb then [CodeOf(queue[0])] else []) + Queued(queue[1..], cb)
  }

  function Called(ran: seq<Call>, cb: nat): seq<int> {
    if ran == [] then []
    else Called(ran[..|ran| - 1], cb) + if ran[|ran| - 1].cb == cb then [ran[|ran| - 1].code] else []
  }

  /** Every code `cb` has been or will be called with. */
  function Codes(st: State, cb: nat): seq<int> { Called(st.ran, cb) + Queued(st.queue, cb) }

  /** Handles hold different callbacks, and a callback is in a handle, or decided, never both. */
  ghost predicate Inv(st: State) {
    && (forall g, h :: g in st.installed && h in st.installed && st.installed[g] == st.installed[h] ==> g == h)
    && (forall cb: nat :: |Codes(st, cb)| <= 1)
    && (forall h :: h in st.installed ==> Codes(st, st.installed[h]) == [])
  }

  /** Awaiting uses a handle that is free and a callback that is new. */
  ghost predicate Allowed(st: State, i: Input) {
    i.Await? ==> i.handle !in st.installed && !Installed(st, i.cb) && Codes(st, i.cb) == []
  }

  ghost predicate Lawful(st: State, run: seq<Input>)
    decreases |run|
  {
    run == [] || (Allowed(st, run[0]) && Lawful(Step(st, run[0]), run[1..]))
  }

  lemma QueuedCons(j: Job, rest: seq<Job>, cb: nat)
    ensures Queued([j] + rest, cb) == (if CbOf(j) == cb then [CodeOf(j)] else []) + Queued(rest, cb)
  {
    assert ([j] + rest)[1..] == rest;
  }

  lemma {:induction false} QueuedSnoc(queue: seq<Job>, j: Job, cb: nat)
    ensures Queued(queue + [j], cb) == Queued(queue, cb) + if CbOf(j) == cb then [CodeOf(j)] else []
  {
    hide CbOf, CodeOf, Queued;
    QueuedNone(cb);
    if queue == [] {
      QueuedCons(j, [], cb);
      assert queue + [j] == [j] + [];
    } else {
      var i, rest := queue[0], queue[1..];
      assert queue == [i] + rest && queue + [j] == [i] + (rest + [j]);
      QueuedCons(i, rest, cb);
      QueuedCons(i, rest + [j], cb);
      QueuedSnoc(rest, j, cb);
    }
  }

  lemma QueuedNone(cb: nat)
    ensures Queued([], cb) == []
  {
  }

  lemma CalledSnoc(ran: seq<Call>, c: Call, cb: nat)
    ensures Called(ran + [c], cb) == Called(ran, cb) + if c.cb == cb then [c.code] else []
  {
    assert (ran + [c])[..|ran|] == ran;
  }

  /** The code an event decides for the callback it takes out of its handle. */
  function Decided(st: State, i: Input, cb: nat): seq<int> {
    match i
    case Done(h, code) => if h in st.installed && st.installed[h] == cb then [code] else []
    case Stop(h) => if h in st.installed && st.installed[h] == cb then [ABORTED_BY_CALLBACK] else []
    case _ => []
  }

  /** A step adds to the codes of a callback exactly what the event decides, and running it adds nothing. */
  lemma StepCodes(st: State, i: Input, cb: nat)
    ensures Codes(Step(st, i), cb) == Codes(st, cb) + Decided(st, i, cb)
  {
    hide Queued, Called;
    assert Codes(st, cb) + [] == Codes(st, cb);
    match i
    case Await(h, c) =>
    case Done(h, code) =>
      if h in st.installed {
        QueuedSnoc(st.queue, Deliver(st.installed[h], code), cb);
      }
    case Stop(h) =>
      if h in st.installed {
        QueuedSnoc(st.queue, Abort(h, st.installed[h]), cb);
      }
    case Pop =>
      if st.queue != [] {
        var j, rest := st.queue[0], st.queue[1..];
        CalledSnoc(st.ran, Call(CbOf(j), CodeOf(j)), cb);
        QueuedCons(j, rest, cb);
        assert st.queue == [j] + rest;
        assert Codes(Step(st, Pop), cb) == Codes(st, cb);
      }
  }

  lemma StepKeeps(st: State, i: Input)
    requires Inv(st) && Allowed(st, i)
    ensures Inv(Step(st, i))
  {
    hide Codes;
    var st1 := Step(st, i);
    forall cb: nat ensures |Codes(st1, cb)| <= 1 {
      StepCodes(st, i, cb);
    }
    forall h | h in st1.installed ensures Codes(st1, st1.installed[h]) == [] {
      StepCodes(st, i, st1.installed[h]);
    }
  }

  lemma {:induction false} RunKeeps(st: State, run: seq<Input>)
    requires Inv(st) && Lawful(st, run)
    ensures Inv(Run(st, run))
    decreases |run|
  {
    hide Inv, Step, Allowed;
    if run != [] {
      StepKeeps(st, run[0]);
      RunKeeps(Step(st, run[0]), run[1..]);
    }
  }

  /**
    * Over every interleaving a callback is called at most once, and while it sits in a handle it
    * is neither queued nor called.
    */
  lemma ResumedAtMostOnce(run: seq<Input>, cb: nat)
    requires Lawful(Idle, run)
    ensures var st := Run(Idle, run);
      && |Called(st.ran, cb)| + |Queued(st.queue, cb)| <= 1
      && (Installed(st, cb) ==> Called(st.ran, cb) == [] && Queued(st.queue, cb) == [])
  {
    hide Run, Lawful;
    RunKeeps(Idle, run);
    var st := Run(Idle, run);
    assert |Codes(st, cb)| <= 1;
  }

  /**
    * The first event wins. Once a done event or a stop request has taken a callback, whatever
    * follows it is called with the code decided then, or still waiting to be.
    */
  lemma {:induction false} FirstEventWins(st: State, run: seq<Input>, cb: nat, code: int)
    requires Inv(st) && Lawful(st, run) && Codes(st, cb) == [code]
    ensures Codes(Run(st, run), cb) == [code]
    decreases |run|
  {
    hide Codes, Step;
    if run != [] {
      StepKeeps(st, run[0]);
      StepCodes(st, run[0], cb);
      FirstEventWins(Step(st, run[0]), run[1..], cb, code);
    }
  }

  /** A stop request takes effect on an awaited transfer: it decides the abort code. */
  lemma StopDecides(st: State, h: nat)
    requires Inv(st) && h in st.installed
    ensures Codes(Step(st, Stop(h)), st.installed[h]) == [42]
    ensures h !in Step(st, Stop(h)).installed
  {
    hide Codes;
    StepCodes(st, Stop(h), st.installed[h]);
  }

  /** A stop request changes anything exactly if a callback is installed: made earlier, it is lost. */
  lemma StopNeedsCallback(st: State, h: nat)
    ensures Step(st, Stop(h)) == st <==> h !in st.installed
  {
    if h in st.installed {
      assert |Step(st, Stop(h)).queue| == |st.queue| + 1;
    }
  }

  lemma StopBeforeAwaitIsLost(st: State, h: nat, cb: nat)
    requires h !in st.installed
    ensures Run(st, [Stop(h), Await(h, cb)]) == Run(st, [Await(h, cb)])
  {
    assert [Stop(h), Await(h, cb)][1..] == [Await(h, cb)];
    StopNeedsCallback(st, h);
  }

  /** Emptying the queue calls every decided callback. */
  lemma {:induction false} DrainedIsCalled(st: State, cb: nat)
    requires st.queue == []
    ensures Called(st.ran, cb) == Codes(st, cb)
  {
    assert Called(st.ran, cb) + [] == Called(st.ran, cb);
  }

  lemma {:induction false} RunAppend(st: State, a: seq<Input>, b: seq<Input>)
    ensures Run(st, a + b) == Run(Run(st, a), b)
    decreases |a|
  {
    hide Step;
    if a == [] {
      assert a + b == b;
    } else {
      assert (a + b)[1..] == a[1..] + b;
      RunAppend(Step(st, a[0]), a[1..], b);
    }
  }

  lemma RunSnoc(st: State, a: seq<Input>, i: Input)
    ensures Run(st, a + [i]) == Step(Run(st, a), i)
  {
    hide Step;
    RunAppend(st, a, [i]);
    assert Run(Run(st, a), [i]) == Run(Step(Run(st, a), i), [i][1..]);
  }

  // ---------------------------------------------------------------- transfers under way

  /** A stopped transfer waits to be taken off the executor. */
  ghost predicate AbortQueued(queue: seq<Job>, h: nat) {
    exists i :: 0 <= i < |queue| && queue[i].Abort? && queue[i].handle == h
  }

  lemma AbortQueuedCons(j: Job, rest: seq<Job>, h: nat)
    ensures AbortQueued([j] + rest, h) <==> (j.Abort? && j.handle == h) || AbortQueued(rest, h)
  {
    var all := [j] + rest;
    if AbortQueued(rest, h) {
      var i :| 0 <= i < |rest| && rest[i].Abort? && rest[i].handle == h;
      assert all[i + 1] == rest[i];
    }
    if j.Abort? && j.handle == h {
      assert all[0] == j;
    }
    if AbortQueued(all, h) {
      var i :| 0 <= i < |all| && all[i].Abort? && all[i].handle == h;
      assert i > 0 ==> rest[i - 1] == all[i];
    }
  }

  lemma AbortQueuedSnoc(queue: seq<Job>, j: Job, h: nat)
    ensures AbortQueued(queue + [j], h) <==> AbortQueued(queue, h) || (j.Abort? && j.handle == h)
  {
    var all := queue + [j];
    if AbortQueued(queue, h) {
      var i :| 0 <= i < |queue| && queue[i].Abort? && queue[i].handle == h;
      assert all[i] == queue[i];
    }
    if j.Abort? && j.handle == h {
      assert all[|queue|] == j;
    }
  }

  /** An awaited handle is being transferred, and no other except a stopped one. */
  ghost predicate UnderWay(st: State) { forall h: nat :: Consistent(st, h) }

  ghost predicate Consistent(st: State, h: nat) {
    && (h in st.installed ==> h in st.active && !AbortQueued(st.queue, h))
    && (h in st.active ==> h in st.installed || AbortQueued(st.queue, h))
  }

  /** No handle is awaited while a stopped transfer of it waits to be taken off. */
  ghost predicate Careful(st: State, run: seq<Input>)
    decreases |run|
  {
    run == [] || (Patient(st, run[0]) && Careful(Step(st, run[0]), run[1..]))
  }

  ghost predicate Patient(st: State, i: Input) { i.Await? ==> !AbortQueued(st.queue, i.handle) }

  lemma StepConsistent(st: State, i: Input, h: nat)
    requires Consistent(st, h) && Patient(st, i)
    ensures Consistent(Step(st, i), h)
  {
    hide AbortQueued;
    match i
    case Await(_, _) =>
    case Done(g, code) =>
      if g in st.installed {
        AbortQueuedSnoc(st.queue, Deliver(st.installed[g], code), h);
      }
    case Stop(g) =>
      if g in st.installed {
        AbortQueuedSnoc(st.queue, Abort(g, st.installed[g]), h);
      }
    case Pop =>
      if st.queue != [] {
        assert st.queue == [st.queue[0]] + st.queue[1..];
        AbortQueuedCons(st.queue[0], st.queue[1..], h);
      }
  }

  lemma StepUnderWay(st: State, i: Input)
    requires UnderWay(st) && Patient(st, i)
    ensures UnderWay(Step(st, i))
  {
    hide Consistent, Patient, Step;
    forall h: nat ensures Consistent(Step(st, i), h) {
      StepConsistent(st, i, h);
    }
  }

  lemma {:induction false} RunUnderWay(st: State, run: seq<Input>)
    requires UnderWay(st) && Careful(st, run)
    ensures UnderWay(Run(st, run))
    decreases |run|
  {
    hide UnderWay, Patient, Step;
    if run != [] {
      StepUnderWay(st, run[0]);
      RunUnderWay(Step(st, run[0]), run[1..]);
    }
  }

  /**
    * Over every interleaving in which that is so, an awaited handle is being transferred, and once
    * the queue is empty exactly the awaited ones are.
    */
  lemma AwaitedIsActive(run: seq<Input>)
    requires Careful(Idle, run)
    ensures var st := Run(Idle, run); forall h: nat :: h in st.installed ==> h in st.active
    ensures var st := Run(Idle, run); st.queue == [] ==> st.active == st.installed.Keys
  {
    hide Run, Careful, AbortQueued;
    RunUnderWay(Idle, run);
    var st := Run(Idle, run);
    forall h: nat ensures h in st.installed ==> h in st.active
      ensures st.queue == [] ==> (h in st.active <==> h in st.installed)
    {
      assert Consistent(st, h);
      NoneQueued(h);
    }
  }

  /** Emptying the queue takes off exactly the handles that wait for it. */
  lemma {:induction false} DrainedActive(st: State, h: nat)
    ensures var st1 := Run(st, Pops(|st.queue|));
      && st1.queue == [] && st1.installed == st.installed
      && (h in st1.active <==> h in st.active && !AbortQueued(st.queue, h))
    decreases |st.queue|
  {
    hide AbortQueued;
    if st.queue == [] {
      NoneQueued(h);
    } else {
      var n := |st.queue| - 1;
      assert Pops(n + 1)[1..] == Pops(n) && Pops(n + 1)[0] == Pop;
      DrainedActive(Step(st, Pop), h);
      assert st.queue == [st.queue[0]] + st.queue[1..];
      AbortQueuedCons(st.queue[0], st.queue[1..], h);
    }
  }

  lemma NoneQueued(h: nat)
    ensures !AbortQueued([], h)
  {
  }

  /**
    * A handle awaited at any moment: once the jobs queued at that moment have run, its callback is
    * still installed, but its transfer is still under way if and only if no stopped transfer of the
    * same handle was among them.
    */
  lemma AwaitSurvives(st: State, h: nat, cb: nat)
    ensures var st1 := Run(Step(st, Await(h, cb)), Pops(|st.queue|));
      h in st1.installed && st1.installed[h] == cb && (h in st1.active <==> !AbortQueued(st.queue, h))
  {
    hide AbortQueued, Run;
    DrainedActive(Step(st, Await(h, cb)), h);
  }

  /** The run that loses a transfer: awaited, stopped, awaited again, and only then the queue. */
  lemma AwaitedTooEarly(h: nat, cb: nat, cb1: nat)
    requires cb != cb1
    ensures Lawful(Idle, [Await(h, cb), Stop(h), Await(h, cb1), Pop])
    ensures Run(Idle, [Await(h, cb), Stop(h), Await(h, cb1), Pop]) ==
      State(map[h := cb1], {}, [], [Call(cb, 42)])
  {
    var st1 := Step(Idle, Await(h, cb));
    var st2 := Step(st1, Stop(h));
    var st3 := Step(st2, Await(h, cb1));
    var st4 := Step(st3, Pop);
    assert st1.installed == map[h := cb] && st2.installed == map[] && st3.installed == map[h := cb1];
    assert Queued(st2.queue, cb1) == [] by {
      assert st2.queue == [Abort(h, cb)];
      assert Queued([Abort(h, cb)][1..], cb1) == [];
    }
    assert Allowed(Idle, Await(h, cb)) && Allowed(st2, Await(h, cb1));
    Four(Await(h, cb), Stop(h), Await(h, cb1), Pop);
    assert st4 == State(map[h := cb1], {}, [], [Call(cb, ABORTED_BY_CALLBACK)]);
  }

  lemma First(st: State, i: Input, rest: seq<Input>)
    ensures Run(st, [i] + rest) == Run(Step(st, i), rest)
    ensures Lawful(st, [i] + rest) <==> Allowed(st, i) && Lawful(Step(st, i), rest)
  {
    hide Step, Allowed;
    assert ([i] + rest)[1..] == rest;
  }

  lemma Four(a: Input, b: Input, c: Input, d: Input)
    ensures var st1 := Step(Idle, a); var st2 := Step(st1, b); var st3 := Step(st2, c);
      && Run(Idle, [a, b, c, d]) == Step(st3, d)
      && (Lawful(Idle, [a, b, c, d]) <==>
            Allowed(Idle, a) && Allowed(st1, b) && Allowed(st2, c) && Allowed(st3, d))
  {
    hide Step, Allowed;
    var st1 := Step(Idle, a);
    var st2 := Step(st1, b);
    var st3 := Step(st2, c);
    First(Idle, a, [b, c, d]);
    First(st1, b, [c, d]);
    First(st2, c, [d]);
    First(st3, d, []);
    assert [a] + [b, c, d] == [a, b, c, d] && [b] + [c, d] == [b, c, d];
  }

  /** What the transfer engine reports as done: a handle and its result code. */
  datatype Event = Event(handle: nat, code: int)

  function Events(evts: seq<Event>): seq<Input> {
    seq(|evts|, i requires 0 <= i < |evts| => Done(evts[i].handle, evts[i].code))
  }

  function Pops(n: nat): seq<Input> { seq(n, _ => Pop) }

  /** The part of the executor that deals with transfers. Handles are not connect-only. */
  class Executor {
    var installed: map<nat, nat>
    var active: set<nat>
    var queue: seq<Job>
    var ran: seq<Call>

    function View(): State
      reads this
    {
      State(installed, active, queue, ran)
    }

    constructor ()
      ensures View() == Idle
    {
      installed, active, queue, ran := map[], {}, [], [];
    }

    method AwaitSuspend(h: nat, cb: nat)
      modifies this
      ensures View() == Step(old(View()), Await(h, cb))
    {
      installed := installed[h := cb];
      active := active + {h};
    }

    /** The worker's loop over finished transfers. */
    method HandleEvents(evts: seq<Event>)
      modifies this
      ensures View() == Run(old(View()), Events(evts))
    {
      hide Run;
      ghost var start := View();
      RunNone(start);
      assert Events(evts[..0]) == [];
      for i := 0 to |evts|
        invariant View() == Run(start, Events(evts[..i]))
      {
        var h := evts[i].handle;
        assert Events(evts[..i + 1]) == Events(evts[..i]) + [Done(h, evts[i].code)];
        RunSnoc(start, Events(evts[..i]), Done(h, evts[i].code));
        var had := h in installed;
        var cb := if had then installed[h] else 0;
        installed := installed - {h};
        active := active - {h};
        if had {
          queue := queue + [Deliver(cb, evts[i].code)];
        }
      }
      assert evts[..|evts|] == evts;
    }

    /** The stop callback of an awaited transfer. */
    method StopRequested(h: nat)
      modifies this
      ensures View() == Step(old(View()), Stop(h))
    {
      if h in installed {
        var cb := installed[h];
        installed := installed - {h};
        queue := queue + [Abort(h, cb)];
      }
    }

    /** The worker's loop over the queue: everything queued is called, in order. */
    method DrainQueue()
      modifies this
      ensures queue == [] && View() == Run(old(View()), Pops(|old(queue)|))
      ensures forall cb: nat :: Called(ran, cb) == Codes(old(View()), cb)
    {
      hide Run, Called, Queued;
      ghost var start := View();
      ghost var n := 0;
      RunNone(start);
      assert Pops(0) == [];
      while queue != []
        invariant n + |queue| == |start.queue| && View() == Run(start, Pops(n))
        invariant forall cb: nat :: Codes(View(), cb) == Codes(start, cb)
        decreases |queue|
      {
        ghost var st := View();
        var j := queue[0];
        assert Pops(n + 1) == Pops(n) + [Pop];
        RunSnoc(start, Pops(n), Pop);
        queue := queue[1..];
        match j {
          case Deliver(cb, code) => ran := ran + [Call(cb, code)];
          case Abort(h, cb) =>
            active := active - {h};
            ran := ran + [Call(cb, ABORTED_BY_CALLBACK)];
        }
        n := n + 1;
        forall cb: nat ensures Codes(View(), cb) == Codes(start, cb) {
          StepCodes(st, Pop, cb);
          assert Codes(st, cb) + [] == Codes(st, cb);
        }
      }
      forall cb: nat ensures Called(ran, cb) == Codes(start, cb) {
        DrainedIsCalled(View(), cb);
      }
    }
  }

  lemma RunNone(st: State)
    ensures Run(st, []) == st
  {
  }
}
