/**
  * The UTF-8 validator: a decoder with five modes and three results that also reports
  * the position up to which the input is a sequence of complete, accepted code points.
  */
module Utf8 {
  import opened Bytes

  datatype Mode = NoCheck | Normal | Strict | Pedantic | Extreme
  datatype Result = Invalid | Valid | Incomplete

  /** `last` is where the first rejected or unfinished code point starts. */
  datatype Verdict = Verdict(result: Result, last: nat)

  // ---------------------------------------------------------------- one code point

  function LeadingOnes(c: byte): nat {
    if c < 0x80 then 0
    else if c < 0xC0 then 1
    else if c < 0xE0 then 2
    else if c < 0xF0 then 3
    else if c < 0xF8 then 4
    else if c < 0xFC then 5
    else if c < 0xFE then 6
    else if c == 0xFE then 7
    else 8
  }

  /** The code point bits a lead octet carries. */
  function LeadPayload(c: byte): nat {
    match LeadingOnes(c)
    case 0 => c
    case 2 => c % 32
    case 3 => c % 16
    case 4 => c % 8
    case 5 => c % 4
    case 6 => c % 2
    case _ => 0
  }

  predicate IsRestricted(m: Mode) { m.Pedantic? || m.Extreme? }

  /** The checks made once a code point of `bits` octets is complete. */
  predicate Accepts(m: Mode, bits: nat, cp: nat) {
    && (m.Strict? || IsRestricted(m) ==>
          && !(cp < 128 && bits != 0)
          && !(cp < 2048 && bits > 2)
          && !(cp < 65536 && bits > 3)
          && !(cp < 1048576 && bits > 4))
    && (IsRestricted(m) ==>
          && !(0xd800 <= cp <= 0xdfff)
          && cp % 0x10000 != 0xfeff
          && !(0xfdd0 <= cp <= 0xfdef)
          && cp <= 0x10FFFF)
    && (m.Extreme? ==> cp % 0x10000 != 0xffff && cp % 0x10000 != 0xfffe)
  }

  datatype Tail = BadTail | CutTail | Done(cp: nat)

  /** `acc` shifted left by `6 * k` bits. */
  function Shifted(acc: nat, k: nat): nat
    decreases k
  {
    if k == 0 then acc else Shifted(64 * acc, k - 1)
  }

  /** Reads `k` continuation octets from the front of `s`. */
  function ReadTail(m: Mode, acc: nat, k: nat, s: seq<byte>): Tail
    decreases k
  {
    if k == 0 then Done(acc)
    else if s == [] then
      if IsRestricted(m) && Shifted(acc, k) > 0x10FFFF then BadTail else CutTail
    else if s[0] / 64 != 2 then BadTail
    else ReadTail(m, 64 * acc + s[0] % 64, k - 1, s[1..])
  }

  datatype Head = BadHead | CutHead | Char(len: nat, cp: nat)

  /** Lead octets no code point of the mode can start with. */
  predicate BadLead(m: Mode, c: byte) {
    var bits := LeadingOnes(c);
    bits == 1 || bits > 6 || (bits > 4 && !m.Normal?)
  }

  /** Reads one code point from the front of `s`. */
  function ReadHead(m: Mode, s: seq<byte>): (h: Head)
    requires s != []
    ensures h.Char? ==> 1 <= h.len <= |s|
  {
    var bits := LeadingOnes(s[0]);
    if bits == 0 then Char(1, s[0])
    else if BadLead(m, s[0]) then BadHead
    else
      ReadTailLength(m, LeadPayload(s[0]), bits - 1, s[1..]);
      match ReadTail(m, LeadPayload(s[0]), bits - 1, s[1..])
      case BadTail => BadHead
      case CutTail => CutHead
      case Done(cp) => if Accepts(m, bits, cp) then Char(bits, cp) else BadHead
  }

  lemma {:induction false} ReadTailLength(m: Mode, acc: nat, k: nat, s: seq<byte>)
    ensures ReadTail(m, acc, k, s).Done? ==> k <= |s|
    decreases k
  {
    if k > 0 && s != [] {
      ReadTailLength(m, 64 * acc + s[0] % 64, k - 1, s[1..]);
    }
  }

  // ---------------------------------------------------------------- whole strings

  function Shift(v: Verdict, n: nat): Verdict { Verdict(v.result, v.last + n) }

  /** What the validator answers. */
  function Scan(m: Mode, s: seq<byte>): (v: Verdict)
    ensures v.last <= |s|
    ensures v.result.Valid? ==> v.last == |s|
  {
    if m.NoCheck? then Verdict(Valid, |s|)
    else if s == [] then Verdict(Valid, 0)
    else
      match ReadHead(m, s)
      case BadHead => Verdict(Invalid, 0)
      case CutHead => Verdict(Incomplete, 0)
      case Char(n, _) => Shift(Scan(m, s[n..]), n)
  }

  /** Consumes the next octet of a code point that still lacks `k` of them. */
  method NextOctet(m: Mode, s: seq<byte>, end: nat, acc: nat, k: nat, ghost want: Tail)
    returns (stop: bool, r: Result, cp: nat)
    requires end < |s| && 1 <= k
    requires want == ReadTail(m, acc, k, s[end + 1..])
    ensures stop ==> !r.Valid? && want == if r.Invalid? then BadTail else CutTail
    ensures !stop ==> end + 1 < |s| && want == ReadTail(m, cp, k - 1, s[end + 2..])
    ensures !stop && k == 1 ==> want == Done(cp)
  {
    stop, r, cp := true, Invalid, acc;
    if end + 1 == |s| {
      if m.Normal? || m.Strict? {
        r := Incomplete;
      } else if IsRestricted(m) && Shifted(acc, k) > 0x10FFFF {
        r := Invalid;
      } else {
        r := Incomplete;
      }
      return;
    }
    var c := s[end + 1];
    assert s[end + 1..][0] == c && s[end + 1..][1..] == s[end + 2..];
    if c / 64 != 2 {
      return;
    }
    stop := false;
    cp := 64 * acc + c % 64;
  }

  /**
    * The switch on the lead octet at `it`, whose cases fall through from the longest form to
    * the shortest. `end` is the position of the last octet read.
    */
  method ReadOctets(m: Mode, s: seq<byte>, it: nat, ghost want: Tail)
    returns (stop: bool, r: Result, end: nat, cp: nat)
    requires it < |s| && LeadingOnes(s[it]) > 0 && !BadLead(m, s[it])
    requires want == ReadTail(m, LeadPayload(s[it]), LeadingOnes(s[it]) - 1, s[it + 1..])
    ensures stop ==> !r.Valid? && want == if r.Invalid? then BadTail else CutTail
    ensures !stop ==> end < |s| && end + 1 == it + LeadingOnes(s[it]) && want == Done(cp)
  {
    hide ReadTail;
    var bits := LeadingOnes(s[it]);
    end, cp := it, LeadPayload(s[it]);
    if bits >= 6 {
      stop, r, cp := NextOctet(m, s, end, cp, 5, want);
      if stop { return; }
      end := end + 1;
    }
    if bits >= 5 {
      stop, r, cp := NextOctet(m, s, end, cp, 4, want);
      if stop { return; }
      end := end + 1;
    }
    if bits >= 4 {
      stop, r, cp := NextOctet(m, s, end, cp, 3, want);
      if stop { return; }
      end := end + 1;
    }
    if bits >= 3 {
      stop, r, cp := NextOctet(m, s, end, cp, 2, want);
      if stop { return; }
      end := end + 1;
    }
    stop, r, cp := NextOctet(m, s, end, cp, 1, want);
    if stop { return; }
    end := end + 1;
  }

  /** The checks on a complete code point of `bits` octets. */
  method Check(m: Mode, bits: nat, cp: nat) returns (ok: bool)
    ensures ok <==> Accepts(m, bits, cp)
  {
    if m.Strict? || IsRestricted(m) {
      if cp < 128 && bits != 0 { return false; }
      if cp < 2048 && bits > 2 { return false; }
      if cp < 65536 && bits > 3 { return false; }
      if cp < 1048576 && bits > 4 { return false; }
    }
    if IsRestricted(m) {
      if 0xd800 <= cp <= 0xdfff { return false; }
      if cp % 0x10000 == 0xfeff { return false; }
      if 0xfdd0 <= cp <= 0xfdef { return false; }
      if cp > 0x10FFFF { return false; }
    }
    if m.Extreme? {
      if cp % 0x10000 == 0xffff || cp % 0x10000 == 0xfffe { return false; }
    }
    return true;
  }

  /** One iteration: how the scan of the rest at `it` depends on the lead octet there. */
  lemma ScanFrom(m: Mode, s: seq<byte>, it: nat)
    requires !m.NoCheck? && it < |s|
    ensures var bits := LeadingOnes(s[it]);
      && (bits == 0 ==> Scan(m, s[it..]) == Shift(Scan(m, s[it + 1..]), 1))
      && (bits > 0 ==>
            var want := ReadTail(m, LeadPayload(s[it]), bits - 1, s[it + 1..]);
            && (BadLead(m, s[it]) || want.BadTail? ==> Scan(m, s[it..]) == Verdict(Invalid, 0))
            && (!BadLead(m, s[it]) && want.CutTail? ==> Scan(m, s[it..]) == Verdict(Incomplete, 0))
            && (!BadLead(m, s[it]) && want.Done? ==>
                  && it + bits <= |s|
                  && Scan(m, s[it..]) ==
                       if Accepts(m, bits, want.cp) then Shift(Scan(m, s[it + bits..]), bits)
                       else Verdict(Invalid, 0)))
  {
    var rest := s[it..];
    var bits := LeadingOnes(s[it]);
    assert rest[0] == s[it] && rest[1..] == s[it + 1..];
    if bits > 0 {
      ReadTailLength(m, LeadPayload(s[it]), bits - 1, s[it + 1..]);
    }
    if it + bits <= |s| {
      assert rest[bits..] == s[it + bits..];
    }
  }

  lemma ScanEnds(m: Mode, s: seq<byte>)
    ensures Scan(m, []) == Verdict(Valid, 0)
    ensures m.NoCheck? ==> Scan(m, s) == Verdict(Valid, |s|)
  {
  }

  /** The validation loop. */
  method Validate(m: Mode, s: seq<byte>) returns (v: Verdict)
    ensures v == Scan(m, s)
  {
    hide ReadTail, Accepts, Scan, LeadPayload, LeadingOnes;
    ScanEnds(m, s);
    if m.NoCheck? {
      return Verdict(Valid, |s|);
    }
    var it := 0;
    while it != |s|
      invariant it <= |s|
      invariant Scan(m, s) == Shift(Scan(m, s[it..]), it)
    {
      var last := it;
      ScanFrom(m, s, it);
      var bits := LeadingOnes(s[it]);
      if bits == 0 {
        it := it + 1;
        continue;
      }
      if bits == 1 || bits > 6 || (bits > 4 && !m.Normal?) {
        return Verdict(Invalid, last);
      }
      var stop, r, end, cp := ReadOctets(m, s, it, ReadTail(m, LeadPayload(s[it]), bits - 1, s[it + 1..]));
      if stop {
        return Verdict(r, last);
      }
      var ok := Check(m, bits, cp);
      if !ok {
        return Verdict(Invalid, last);
      }
      it := end + 1;
    }
    return Verdict(Valid, |s|);
  }
}
