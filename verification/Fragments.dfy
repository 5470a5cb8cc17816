/**
  * Text that arrives in fragments: incremental validation against validation of the whole
  * (RFC 6455 sections 5.4 and 8.1).
  */
module Fragments {
  import opened Bytes
  import opened Utf8
  import opened Utf8Laws
  import opened Frames
  import opened Session
  import opened SessionSafety
  import opened Protocol
  import opened ConnectionLaws

  function FragmentOp(op: byte, first: bool, fin: bool): byte
    requires op < FIN
  {
    (if first then op else CONTINUATION) + if fin then FIN else 0
  }

  /** Takes the parts of one text message, the last of them final if `fin`. */
  function TakeParts(c: Config, st: State, parts: seq<seq<byte>>, fin: bool): State
    decreases |parts|
  {
    if parts == [] then st
    else
      var n := |parts| - 1;
      HandleFrame(c, TakeParts(c, st, parts[..n], false), FragmentOp(TEXT, n == 0, fin), parts[n])
  }

  /** No message is under reassembly, and frames are still taken: open, or closing. */
  predicate Fresh(st: State) { (st.phase.Open? || st.phase.ClientClose?) && st.fragOp == CONTINUATION }

  /**
    * Where the validated part of the buffer starts: at its front, unless the first fragment is a
    * dead end, which leaves the offset of an earlier message in place.
    */
  function Base(c: Config, st: State, first: seq<byte>): nat {
    if Scan(c.mode, first).result.Invalid? then st.fragOffset else 0
  }

  function CloseFrame(c: Config, st: State, code: nat, reason: seq<byte>): seq<Queued> {
    Queue(c, st, FIN + CLOSE, BigEndian(2, code) + reason, Nothing)
  }

  /** Bad text has been met: from the open phase a Close frame with 1007 is queued, once. */
  predicate Refused(c: Config, st: State, st1: State) {
    && st1.phase.ClientClose?
    && st1.sent == if st.phase.Open? then CloseFrame(c, st, 1007, BadText()) else st.sent
  }

  predicate Undisturbed(st: State, st1: State) { st1.phase == st.phase && st1.sent == st.sent }

  /** The buffer during reassembly, with the part between base and offset known to be valid. */
  ghost predicate Gathered(c: Config, st: State, st1: State, text: seq<byte>, base: nat) {
    && st1.fragOp == TEXT && st1.fragPayload == text
    && (st1.fragOffset == base
        || (base <= st1.fragOffset <= |text| && Scan(c.mode, text[base..st1.fragOffset]).result.Valid?))
    && st1.log == st.log
    && (if Scan(c.mode, text).result.Invalid? then Refused(c, st, st1) else Undisturbed(st, st1))
    && (base == 0 && !Scan(c.mode, text).result.Invalid? ==> st1.fragOffset == Scan(c.mode, text).last)
  }

  lemma FirstPart(c: Config, st: State, text: seq<byte>)
    requires Fresh(st)
    ensures Gathered(c, st, HandleFrame(c, st, TEXT, text), text, Base(c, st, text))
  {
    hide Scan, BigEndian;
    var v := Scan(c.mode, text);
    if !v.result.Invalid? {
      ScanOfPrefix(c.mode, text);
      assert text[0..v.last] == text[..v.last];
    }
  }

  lemma EmptyIsValid(m: Mode)
    ensures Scan(m, []).result.Valid?
  {
  }

  /** What the scan from the offset says about the text from its base. */
  lemma ScanFromBase(m: Mode, text: seq<byte>, more: seq<byte>, base: nat, offset: nat)
    requires base <= offset <= |text + more|
    requires offset == base || (offset <= |text| && Scan(m, text[base..offset]).result.Valid?)
    ensures var all := text + more; var v := Scan(m, all[offset..]);
      && Scan(m, all[base..]) == Shift(v, offset - base)
      && (!v.result.Invalid? ==>
            offset + v.last <= |all| && Scan(m, all[base..offset + v.last]).result.Valid?)
  {
    hide Scan;
    var all := text + more;
    var good := all[base..offset];
    if offset == base {
      EmptyIsValid(m);
    } else {
      assert good == text[base..offset];
    }
    ValidPrefix(m, good, all[offset..]);
    assert all[base..] == good + all[offset..];
    var v := Scan(m, all[offset..]);
    if !v.result.Invalid? {
      ScanOfPrefix(m, all[offset..]);
      ValidPrefix(m, good, all[offset..][..v.last]);
      assert all[base..offset + v.last] == good + all[offset..][..v.last];
    }
  }

  /** If the base is not the front, the text is a dead end from its first fragment on. */
  ghost predicate BaseSound(m: Mode, text: seq<byte>, base: nat) {
    base == 0 || Scan(m, text).result.Invalid?
  }

  lemma NextPart(c: Config, st: State, st1: State, text: seq<byte>, more: seq<byte>, base: nat)
    requires Fresh(st) && Gathered(c, st, st1, text, base)
    requires BaseSound(c.mode, text, base) && base <= |text + more|
    ensures Gathered(c, st, HandleFrame(c, st1, CONTINUATION, more), text + more, base)
    ensures BaseSound(c.mode, text + more, base)
  {
    hide Scan, BigEndian;
    var all := text + more;
    ScanFromBase(c.mode, text, more, base, st1.fragOffset);
    ScanExtends(c.mode, text, more);
    assert Suffix(all, st1.fragOffset) == all[st1.fragOffset..];
    if st1.fragOffset != base {
      assert all[base..st1.fragOffset] == text[base..st1.fragOffset];
    }
    assert all[0..] == all;
  }

  lemma LastPart(c: Config, st: State, st1: State, text: seq<byte>, more: seq<byte>, base: nat)
    requires Fresh(st) && Gathered(c, st, st1, text, base)
    requires BaseSound(c.mode, text, base) && base <= |text + more|
    ensures var all := text + more; var st2 := HandleFrame(c, st1, FIN + CONTINUATION, more);
      && st2.log == st.log +
           (if c.hasMessage && Scan(c.mode, all[base..]).result.Valid? then [OnMessage(all, false)] else [])
      && st2.fragOp == CONTINUATION
      && (if Scan(c.mode, all).result.Valid? then Undisturbed(st, st2) else Refused(c, st, st2))
  {
    hide Scan, BigEndian;
    var all := text + more;
    ScanFromBase(c.mode, text, more, base, st1.fragOffset);
    ScanExtends(c.mode, text, more);
    assert Suffix(all, st1.fragOffset) == all[st1.fragOffset..];
    assert all[0..] == all;
    assert st.log + [] == st.log;
  }

  /** The validated part starts within the octets of the first two fragments, where it is first looked at. */
  predicate InRange(c: Config, st: State, parts: seq<seq<byte>>)
    requires |parts| >= 2
  {
    Base(c, st, parts[0]) <= |parts[0]| + |parts[1]|
  }

  lemma FirstTwo(parts: seq<seq<byte>>)
    requires |parts| >= 2
    ensures |parts[0]| + |parts[1]| <= |Concat(parts)|
  {
    assert Concat(parts) == parts[0] + (parts[1] + Concat(parts[1..][1..]));
  }

  lemma {:induction false} PartsGathered(c: Config, st: State, parts: seq<seq<byte>>)
    requires Fresh(st) && parts != [] && (|parts| >= 2 ==> InRange(c, st, parts))
    ensures var base := Base(c, st, parts[0]);
      && Gathered(c, st, TakeParts(c, st, parts, false), Concat(parts), base)
      && BaseSound(c.mode, Concat(parts), base)
    decreases |parts|
  {
    hide Scan, Gathered, HandleFrame;
    var n := |parts| - 1;
    if n == 0 {
      assert TakeParts(c, st, parts[..0], false) == st;
      assert Concat(parts) == parts[0] + Concat(parts[1..]) == parts[0];
      FirstPart(c, st, parts[0]);
    } else {
      PartsGathered(c, st, parts[..n]);
      ConcatSnoc(parts[..n], parts[n]);
      assert parts == parts[..n] + [parts[n]];
      FirstTwo(parts);
      NextPart(c, st, TakeParts(c, st, parts[..n], false), Concat(parts[..n]), parts[n], Base(c, st, parts[0]));
    }
  }

  /**
    * Fail fast: on an open connection the Close frame with 1007 is queued at the first fragment
    * with which the text so far becomes a dead end, and not before; on a closing one none is.
    */
  lemma DeadEndClosesAtOnce(c: Config, st: State, parts: seq<seq<byte>>)
    requires Fresh(st) && parts != [] && (|parts| >= 2 ==> InRange(c, st, parts))
    ensures var st1 := TakeParts(c, st, parts, false); var text := Concat(parts);
      && st1.log == st.log && st1.fragPayload == text
      && (if Scan(c.mode, text).result.Invalid? then Refused(c, st, st1)
          else Undisturbed(st, st1) && st1.fragOffset == Scan(c.mode, text).last)
  {
    hide Scan;
    PartsGathered(c, st, parts);
  }

  /**
    * A text in two or more fragments leaves the connection as it is exactly if the whole is valid;
    * otherwise an open connection queues one Close frame with 1007. What is delivered is decided by the text
    * behind its base.
    */
  lemma FragmentedText(c: Config, st: State, parts: seq<seq<byte>>)
    requires Fresh(st) && |parts| >= 2 && InRange(c, st, parts)
    ensures var st1 := TakeParts(c, st, parts, true); var text := Concat(parts);
      && Base(c, st, parts[0]) <= |text|
      && st1.log == st.log +
           (if c.hasMessage && Scan(c.mode, text[Base(c, st, parts[0])..]).result.Valid?
            then [OnMessage(text, false)] else [])
      && (if Scan(c.mode, text).result.Valid? then Undisturbed(st, st1) else Refused(c, st, st1))
  {
    hide Scan, Gathered, HandleFrame, BigEndian;
    var n := |parts| - 1;
    PartsGathered(c, st, parts[..n]);
    ConcatSnoc(parts[..n], parts[n]);
    assert parts == parts[..n] + [parts[n]];
    FirstTwo(parts);
    LastPart(c, st, TakeParts(c, st, parts[..n], false), Concat(parts[..n]), parts[n], Base(c, st, parts[0]));
  }

  /**
    * When a fragmented text is delivered, exactly: if it is valid, and also if its first fragment is
    * a dead end but everything behind the offset left by an earlier message is valid.
    */
  lemma DeliveredIff(c: Config, st: State, parts: seq<seq<byte>>)
    requires Fresh(st) && |parts| >= 2 && c.hasMessage && InRange(c, st, parts)
    ensures Base(c, st, parts[0]) <= |Concat(parts)|
    ensures TakeParts(c, st, parts, true).log == st.log + [OnMessage(Concat(parts), false)] <==>
      || Scan(c.mode, Concat(parts)).result.Valid?
      || (Scan(c.mode, parts[0]).result.Invalid? && Scan(c.mode, Concat(parts)[st.fragOffset..]).result.Valid?)
    ensures Scan(c.mode, parts[0]).result.Invalid? ==> Scan(c.mode, Concat(parts)).result.Invalid?
  {
    hide Scan, TakeParts;
    FragmentedText(c, st, parts);
    FirstTwo(parts);
    var text := Concat(parts);
    assert text == parts[0] + Concat(parts[1..]);
    ScanExtends(c.mode, parts[0], Concat(parts[1..]));
    assert text[0..] == text;
    assert st.log + [] == st.log;
    assert |st.log + [OnMessage(text, false)]| == |st.log| + 1;
  }

  /** After a text of three octets in fragments the offset three is left behind. */
  lemma OffsetThree(c: Config)
    requires !c.mode.NoCheck?
    ensures var abc: seq<byte> := [0x61, 0x62, 0x63];
      var st := HandleFrame(c, HandleFrame(c, Opened, TEXT, abc), FIN + CONTINUATION, []);
      st.phase.Open? && st.fragOp == CONTINUATION && st.fragOffset == 3
  {
    hide Scan, HandleFrame;
    StaleOffset(c);
  }

  /** The text FF 61 62 63 in two fragments: a dead end, and valid behind that offset. */
  lemma BadTextDelivered(c: Config, st: State)
    requires !c.mode.NoCheck? && c.hasMessage && Fresh(st) && st.fragOffset == 3
    ensures var bad: seq<byte> := [0xFF, 0x61, 0x62, 0x63];
      && Scan(c.mode, bad).result.Invalid?
      && TakeParts(c, st, [bad[..3], bad[3..]], true).log == st.log + [OnMessage(bad, false)]
  {
    hide Scan, TakeParts;
    var bad: seq<byte> := [0xFF, 0x61, 0x62, 0x63];
    var parts := [bad[..3], bad[3..]];
    ConcatSnoc([bad[..3]], bad[3..]);
    ConcatSnoc([], bad[..3]);
    assert [] + [bad[..3]] == [bad[..3]] && [bad[..3]] + [bad[3..]] == parts && [] + bad[..3] + bad[3..] == bad;
    assert ReadHead(c.mode, bad[..3]) == BadHead;
    ScanStep(c.mode, bad[..3]);
    assert bad[3..] == [0x63];
    AsciiIsValid(c.mode, bad[3..]);
    DeliveredIff(c, st, parts);
  }

  /**
    * An invalid text that is delivered: two frames behind a text of three octets in fragments, on the
    * open connection, and also once the client has begun to close.
    */
  lemma InvalidDelivered(c: Config)
    requires !c.mode.NoCheck? && c.hasMessage
    ensures var abc: seq<byte> := [0x61, 0x62, 0x63]; var bad: seq<byte> := [0xFF, 0x61, 0x62, 0x63];
      var st := HandleFrame(c, HandleFrame(c, Opened, TEXT, abc), FIN + CONTINUATION, []);
      var st1 := DoClose(c, st, 1000, []);
      && st.phase.Open? && st1.phase.ClientClose? && Scan(c.mode, bad).result.Invalid?
      && TakeParts(c, st, [bad[..3], bad[3..]], true).log == st.log + [OnMessage(bad, false)]
      && TakeParts(c, st1, [bad[..3], bad[3..]], true).log == st1.log + [OnMessage(bad, false)]
  {
    hide Scan, TakeParts, HandleFrame, BigEndian;
    OffsetThree(c);
    var abc: seq<byte> := [0x61, 0x62, 0x63];
    var st := HandleFrame(c, HandleFrame(c, Opened, TEXT, abc), FIN + CONTINUATION, []);
    BadTextDelivered(c, st);
    BadTextDelivered(c, DoClose(c, st, 1000, []));
  }
}
