/**
  * The timers of the executor, an ordered multimap: by time, and in the order of scheduling among
  * equals. A pass of the worker runs those that are due and shortens its timeout to the next one;
  * times are compared in whole milliseconds.
  */
module Timers {

  /** A scheduled function and the time point it is scheduled for, in nanoseconds. */
  datatype Timer = Timer(time: int, fn: nat)

  predicate Ordered(s: seq<Timer>) { forall i, j :: 0 <= i < j < |s| ==> s[i].time <= s[j].time }

  /** Whole milliseconds, rounded towards zero. */
  function Millis(nanos: int): int {
    if nanos >= 0 then nanos / 1_000_000 else -(-nanos / 1_000_000)
  }

  /** The time that is less than a millisecond is dropped. */
  lemma MillisMeans(nanos: int)
    ensures nanos >= 0 ==> Millis(nanos) * 1_000_000 <= nanos < (Millis(nanos) + 1) * 1_000_000
    ensures nanos < 0 ==> (Millis(nanos) - 1) * 1_000_000 < nanos <= Millis(nanos) * 1_000_000
  {
  }

  /** Near enough to be run. */
  predicate Due(t: Timer, now: int) { Millis(t.time - now) <= 100 }

  lemma DueMeans(t: Timer, now: int)
    ensures Due(t, now) <==> t.time < now + 101_000_000
  {
  }

  /** The timers for time point `at`, in order. */
  function At(s: seq<Timer>, at: int): seq<Timer> {
    if s == [] then [] else At(s[..|s| - 1], at) + if s[|s| - 1].time == at then [s[|s| - 1]] else []
  }

  lemma AtSnoc(s: seq<Timer>, t: Timer, at: int)
    ensures At(s + [t], at) == At(s, at) + if t.time == at then [t] else []
  {
    assert (s + [t])[..|s|] == s;
  }

  lemma {:induction false} AtAppend(a: seq<Timer>, b: seq<Timer>, at: int)
    ensures At(a + b, at) == At(a, at) + At(b, at)
  {
    if b == [] {
      assert a + b == a;
    } else {
      var n := |b| - 1;
      assert (a + b)[..|a| + n] == a + b[..n];
      AtAppend(a, b[..n], at);
    }
  }

  /** No timer for `at` among later ones. */
  lemma {:induction false} AtNone(s: seq<Timer>, at: int)
    requires forall i :: 0 <= i < |s| ==> s[i].time != at
    ensures At(s, at) == []
  {
    if s != [] {
      AtNone(s[..|s| - 1], at);
    }
  }

  /** The timers of a list that are due, in order; and those that are not. */
  function DueOf(s: seq<Timer>, now: int): seq<Timer> {
    if s == [] then [] else (if Due(s[0], now) then [s[0]] else []) + DueOf(s[1..], now)
  }

  function NotDueOf(s: seq<Timer>, now: int): seq<Timer> {
    if s == [] then [] else (if Due(s[0], now) then [] else [s[0]]) + NotDueOf(s[1..], now)
  }

  /** An ordered list splits into what is due and what is not at a single point. */
  lemma {:induction false} DueSplits(s: seq<Timer>, k: nat, now: int)
    requires Ordered(s) && k <= |s|
    requires forall i :: 0 <= i < k ==> Due(s[i], now)
    requires k < |s| ==> !Due(s[k], now)
    ensures DueOf(s, now) == s[..k] && NotDueOf(s, now) == s[k..]
  {
    hide Due;
    if s != [] {
      if k > 0 {
        assert s[1..][..k - 1] == s[1..k];
        DueSplits(s[1..], k - 1, now);
        assert s[..k] == [s[0]] + s[1..k];
      } else {
        LaterNotDue(s, now);
        if |s| > 1 {
          assert !Due(s[1], now);
        }
        DueSplits(s[1..], 0, now);
      }
    }
  }

  lemma LaterNotDue(s: seq<Timer>, now: int)
    requires Ordered(s) && s != [] && !Due(s[0], now)
    ensures forall i :: 0 <= i < |s| ==> !Due(s[i], now)
  {
    forall i | 0 <= i < |s| ensures !Due(s[i], now) {
      DueMeans(s[0], now);
      DueMeans(s[i], now);
    }
  }

  class Schedule {
    var scheduled: seq<Timer>

    constructor ()
      ensures scheduled == []
    {
      scheduled := [];
    }

    /** `emplace` into the multimap: behind everything scheduled for the same time or earlier. */
    method Add(time: int, fn: nat)
      requires Ordered(scheduled)
      modifies this
      ensures Ordered(scheduled)
      ensures multiset(scheduled) == multiset(old(scheduled)) + multiset{Timer(time, fn)}
      ensures forall at :: At(scheduled, at) == At(old(scheduled), at) + if at == time then [Timer(time, fn)] else []
    {
      var t := Timer(time, fn);
      var k := |scheduled|;
      while k > 0 && scheduled[k - 1].time > time
        invariant 0 <= k <= |scheduled|
        invariant forall i :: k <= i < |scheduled| ==> scheduled[i].time > time
        invariant scheduled == old(scheduled)
      {
        k := k - 1;
      }
      hide At, Ordered;
      ghost var s := scheduled;
      InsertedOrdered(s, k, t);
      InsertedMultiset(s, k, t);
      scheduled := scheduled[..k] + [t] + scheduled[k..];
      forall at ensures At(scheduled, at) == At(s, at) + if at == time then [t] else [] {
        InsertedAt(s, k, t, at);
      }
    }

    /**
      * One pass of the worker over the timers. `polled` is the timeout of the transfers; nothing
      * is done if it is zero, and a negative one stands for 500 milliseconds. The functions do not
      * schedule others.
      */
    method Pass(polled: int, now: int) returns (ran: seq<Timer>, timeout: int)
      requires Ordered(scheduled)
      modifies this
      ensures Ordered(scheduled)
      ensures polled == 0 ==> ran == [] && scheduled == old(scheduled) && timeout == 0
      ensures polled != 0 ==>
        && ran == DueOf(old(scheduled), now) && scheduled == NotDueOf(old(scheduled), now)
        && old(scheduled) == ran + scheduled
        && (scheduled == [] ==> timeout == if polled < 0 then 500 else polled)
        && (scheduled != [] ==>
              var wait := Millis(scheduled[0].time - now);
              var base := if polled < 0 then 500 else polled;
              100 < wait && timeout == if base > wait then wait else base)
    {
      hide DueOf, NotDueOf, Ordered, Millis;
      ran, timeout := [], polled;
      if timeout == 0 {
        return;
      }
      if timeout < 0 {
        timeout := 500;
      }
      ghost var base := timeout;
      ghost var s := scheduled;
      while scheduled != []
        invariant |ran| <= |s| && ran == s[..|ran|] && scheduled == s[|ran|..]
        invariant forall i :: 0 <= i < |ran| ==> Due(s[i], now)
        invariant timeout == base
        decreases |scheduled|
      {
        var elem := scheduled[0];
        var diff := Millis(elem.time - now);
        if diff > 100 {
          if timeout > diff {
            timeout := diff;
          }
          break;
        }
        scheduled := scheduled[1..];
        ran := ran + [elem];
      }
      DueSplits(s, |ran|, now);
      OrderedRest(s, |ran|);
    }
  }

  lemma OrderedRest(s: seq<Timer>, k: nat)
    requires Ordered(s) && k <= |s|
    ensures Ordered(s[k..])
  {
  }

  lemma InsertedOrdered(s: seq<Timer>, k: nat, t: Timer)
    requires Ordered(s) && k <= |s|
    requires k > 0 ==> s[k - 1].time <= t.time
    requires forall i :: k <= i < |s| ==> s[i].time > t.time
    ensures Ordered(s[..k] + [t] + s[k..])
  {
    var r := s[..k] + [t] + s[k..];
    assert forall i :: 0 <= i < k ==> r[i] == s[i];
    assert r[k] == t;
    assert forall i :: k < i < |r| ==> r[i] == s[i - 1];
  }

  lemma InsertedMultiset(s: seq<Timer>, k: nat, t: Timer)
    requires k <= |s|
    ensures multiset(s[..k] + [t] + s[k..]) == multiset(s) + multiset{t}
  {
    assert s == s[..k] + s[k..];
  }

  lemma InsertedAt(s: seq<Timer>, k: nat, t: Timer, at: int)
    requires k <= |s|
    requires forall i :: k <= i < |s| ==> s[i].time > t.time
    ensures At(s[..k] + [t] + s[k..], at) == At(s, at) + if at == t.time then [t] else []
  {
    hide At;
    AtAppend(s[..k] + [t], s[k..], at);
    AtSnoc(s[..k], t, at);
    AtAppend(s[..k], s[k..], at);
    assert s == s[..k] + s[k..];
    if at == t.time {
      AtNone(s[k..], at);
      assert At(s[..k], at) + [] == At(s[..k], at);
    } else {
      assert At(s, at) + [] == At(s, at);
    }
  }
}
