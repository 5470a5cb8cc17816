/**
  * What the verdicts of the UTF-8 validator mean: how they compose over a string that arrives
  * in pieces, and which strings are accepted.
  */
module Utf8Laws {
  import opened Bytes
  import opened Utf8

  // ---------------------------------------------------------------- strings in pieces

  lemma {:induction false} ShiftedMonotone(a: nat, b: nat, k: nat)
    requires a <= b
    ensures Shifted(a, k) <= Shifted(b, k)
    ensures a <= Shifted(a, k)
    decreases k
  {
    if k > 0 {
      ShiftedMonotone(64 * a, 64 * b, k - 1);
    }
  }

  /** Past the cut-off no continuation brings the code point back into range. */
  lemma {:induction false} BeyondCutOff(m: Mode, acc: nat, k: nat, s: seq<byte>)
    requires IsRestricted(m) && Shifted(acc, k) > 0x10FFFF
    ensures var r := ReadTail(m, acc, k, s); r.BadTail? || (r.Done? && r.cp > 0x10FFFF)
    decreases k
  {
    if k > 0 && s != [] {
      ShiftedMonotone(64 * acc, 64 * acc + s[0] % 64, k - 1);
      BeyondCutOff(m, 64 * acc + s[0] % 64, k - 1, s[1..]);
    }
  }

  lemma {:induction false} TailExtends(m: Mode, acc: nat, k: nat, s: seq<byte>, t: seq<byte>)
    ensures ReadTail(m, acc, k, s).Done? ==> ReadTail(m, acc, k, s + t) == ReadTail(m, acc, k, s)
    ensures ReadTail(m, acc, k, s).BadTail? ==>
      var r := ReadTail(m, acc, k, s + t);
      r.BadTail? || (IsRestricted(m) && r.Done? && r.cp > 0x10FFFF)
    decreases k
  {
    if k > 0 {
      if s == [] {
        assert s + t == t;
        if IsRestricted(m) && Shifted(acc, k) > 0x10FFFF {
          BeyondCutOff(m, acc, k, t);
        }
      } else {
        assert (s + t)[1..] == s[1..] + t;
        TailExtends(m, 64 * acc + s[0] % 64, k - 1, s[1..], t);
      }
    }
  }

  /** A decision about the first code point is not revised by later octets. */
  lemma HeadExtends(m: Mode, s: seq<byte>, t: seq<byte>)
    requires s != [] && !ReadHead(m, s).CutHead?
    ensures ReadHead(m, s + t) == ReadHead(m, s)
  {
    assert (s + t)[0] == s[0] && (s + t)[1..] == s[1..] + t;
    var bits := LeadingOnes(s[0]);
    if bits > 0 && !BadLead(m, s[0]) {
      TailExtends(m, LeadPayload(s[0]), bits - 1, s[1..], t);
    }
  }

  /** The octets after the first code point play no part in reading it. */
  lemma {:induction false} TailTruncates(m: Mode, acc: nat, k: nat, s: seq<byte>)
    requires ReadTail(m, acc, k, s).Done?
    ensures k <= |s| && ReadTail(m, acc, k, s[..k]) == ReadTail(m, acc, k, s)
    decreases k
  {
    if k > 0 {
      TailTruncates(m, 64 * acc + s[0] % 64, k - 1, s[1..]);
      assert s[..k][1..] == s[1..][..k - 1];
    }
  }

  lemma HeadTruncates(m: Mode, s: seq<byte>)
    requires s != [] && ReadHead(m, s).Char?
    ensures ReadHead(m, s[..ReadHead(m, s).len]) == ReadHead(m, s)
  {
    var bits := LeadingOnes(s[0]);
    if bits > 0 {
      TailTruncates(m, LeadPayload(s[0]), bits - 1, s[1..]);
      assert s[..bits][1..] == s[1..][..bits - 1];
    }
  }

  lemma HeadAt(m: Mode, s: seq<byte>, n: nat, t: seq<byte>)
    requires 0 < n <= |s| && ReadHead(m, s[..n]).Char? && ReadHead(m, s[..n]).len == n
    ensures ReadHead(m, s).Char? && ReadHead(m, s).len == n
    ensures s[n..] + t == (s + t)[n..]
  {
    HeadExtends(m, s[..n], s[n..]);
    assert s[..n] + s[n..] == s;
  }

  lemma ScanStep(m: Mode, s: seq<byte>)
    requires !m.NoCheck? && s != []
    ensures var h := ReadHead(m, s);
      && (h.BadHead? ==> Scan(m, s) == Verdict(Invalid, 0))
      && (h.CutHead? ==> Scan(m, s) == Verdict(Incomplete, 0))
      && (h.Char? ==> Scan(m, s) == Shift(Scan(m, s[h.len..]), h.len))
  {
    hide ReadHead;
  }

  lemma ScanStop(m: Mode, s: seq<byte>)
    requires m.NoCheck? || s == []
    ensures Scan(m, s) == Verdict(Valid, |s|)
  {
    hide ReadHead;
  }

  lemma {:induction false} ScanExtends(m: Mode, s: seq<byte>, t: seq<byte>)
    ensures var v := Scan(m, s);
      && (!v.result.Invalid? ==> Scan(m, s + t) == Shift(Scan(m, s[v.last..] + t), v.last))
      && (v.result.Invalid? ==> Scan(m, s + t) == v)
    decreases |s|
  {
    hide ReadHead, Scan;
    if m.NoCheck? || s == [] {
      ScanStop(m, s);
      assert s[|s|..] + t == t;
      if m.NoCheck? {
        ScanStop(m, s + t);
        ScanStop(m, t);
      } else {
        assert s + t == t;
      }
    } else {
      ScanStep(m, s);
      ScanStep(m, s + t);
      match ReadHead(m, s)
      case BadHead =>
        HeadExtends(m, s, t);
      case CutHead =>
        assert s[0..] == s;
      case Char(n, _) =>
        HeadExtends(m, s, t);
        ScanExtends(m, s[n..], t);
        assert (s + t)[n..] == s[n..] + t;
        var v := Scan(m, s[n..]);
        assert s[v.last + n..] == s[n..][v.last..];
    }
  }

  lemma {:induction false} ScanOfPrefix(m: Mode, s: seq<byte>)
    requires !Scan(m, s).result.Invalid?
    ensures Scan(m, s[..Scan(m, s).last]) == Verdict(Valid, Scan(m, s).last)
    decreases |s|
  {
    hide ReadHead;
    if !m.NoCheck? && s != [] && ReadHead(m, s).Char? {
      var n := ReadHead(m, s).len;
      ScanOfPrefix(m, s[n..]);
      var k := Scan(m, s[n..]).last;
      var p := s[..n + k];
      HeadTruncates(m, s);
      assert p[..n] == s[..n];
      HeadAt(m, p, n, []);
      assert p[n..] == s[n..][..k];
    }
  }

  /**
    * Composition and stability. Unless `s` is already invalid, everything up to the reported
    * position is valid and validation may resume there once more octets arrive; an invalid
    * string stays invalid at the same position whatever follows.
    */
  lemma ScanComposes(m: Mode, s: seq<byte>, t: seq<byte>)
    ensures var v := Scan(m, s);
      && (!v.result.Invalid? ==>
            && Scan(m, s[..v.last]) == Verdict(Valid, v.last)
            && Scan(m, s + t) == Shift(Scan(m, s[v.last..] + t), v.last))
      && (v.result.Invalid? ==> Scan(m, s + t) == v)
  {
    ScanExtends(m, s, t);
    if !Scan(m, s).result.Invalid? {
      ScanOfPrefix(m, s);
    }
  }

  /** A valid string followed by anything is judged by what follows. */
  lemma ValidPrefix(m: Mode, s: seq<byte>, t: seq<byte>)
    requires Scan(m, s).result.Valid?
    ensures Scan(m, s + t) == Shift(Scan(m, t), |s|)
  {
    ScanExtends(m, s, t);
    assert s[|s|..] + t == t;
  }

  /** The remembered position of a valid-so-far prefix: resuming there is resuming nowhere else. */
  lemma ResumeAt(m: Mode, s: seq<byte>, t: seq<byte>)
    requires !Scan(m, s).result.Invalid?
    ensures var k := Scan(m, s).last;
      && (s + t)[k..] == s[k..] + t
      && Scan(m, s + t) == Shift(Scan(m, (s + t)[k..]), k)
  {
    var k := Scan(m, s).last;
    assert (s + t)[k..] == s[k..] + t;
    ScanExtends(m, s, t);
  }

  // ---------------------------------------------------------------- accepted strings

  /** A code point written with `n` octets. */
  datatype Written = Written(n: nat, cp: nat)

  /** One more than the largest code point that `n` octets can hold (RFC 3629 section 3, RFC 2279 section 2). */
  function Capacity(n: nat): nat {
    match n
    case 1 => 0x80
    case 2 => 0x800
    case 3 => 0x1_0000
    case 4 => 0x20_0000
    case 5 => 0x400_0000
    case 6 => 0x8000_0000
    case _ => 0
  }

  /** The code points each mode admits. */
  predicate Admits(m: Mode, cp: nat)
    decreases m.Extreme?
  {
    match m
    case NoCheck => true
    case Normal => cp < 0x8000_0000
    case Strict => cp <= 0x1F_FFFF
    case Pedantic =>
      && cp <= 0x10_FFFF
      && !(0xD800 <= cp <= 0xDFFF)
      && !(0xFDD0 <= cp <= 0xFDEF)
      && cp % 0x1_0000 != 0xFEFF
    case Extreme => Admits(Pedantic, cp) && cp % 0x1_0000 !in {0xFFFE, 0xFFFF}
  }

  /** `Normal` takes any of the six forms, the other modes only the shortest. */
  predicate MayWrite(m: Mode, w: Written) {
    && 1 <= w.n <= 6
    && w.cp < Capacity(w.n)
    && Admits(m, w.cp)
    && (m.Normal? || w.n == 1 || Capacity(w.n - 1) <= w.cp)
  }

  /** The mark that announces `n` octets. */
  function Mark(n: nat): nat {
    match n
    case 2 => 0xC0
    case 3 => 0xE0
    case 4 => 0xF0
    case 5 => 0xF8
    case 6 => 0xFC
    case _ => 0
  }

  /** The low `k` sextets of `x`, as continuation octets. */
  function Sextets(k: nat, x: nat): (s: seq<byte>)
    ensures |s| == k
  {
    if k == 0 then [] else Sextets(k - 1, x / 64) + [0x80 + x % 64]
  }

  /** `x` without its low `k` sextets. */
  function Above(k: nat, x: nat): nat {
    if k == 0 then x else Above(k - 1, x / 64)
  }

  lemma LeadOctet(w: Written)
    requires 2 <= w.n <= 6 && w.cp < Capacity(w.n)
    ensures var c := Mark(w.n) + Above(w.n - 1, w.cp);
      c < 256 && LeadingOnes(c) == w.n && LeadPayload(c) == Above(w.n - 1, w.cp)
  {
    var q1 := w.cp / 64;
    assert Above(w.n - 1, w.cp) == Above(w.n - 2, q1);
    if w.n >= 3 {
      var q2 := q1 / 64;
      assert Above(w.n - 2, q1) == Above(w.n - 3, q2);
      if w.n >= 4 {
        var q3 := q2 / 64;
        assert Above(w.n - 3, q2) == Above(w.n - 4, q3);
        if w.n >= 5 {
          var q4 := q3 / 64;
          assert Above(w.n - 4, q3) == Above(w.n - 5, q4);
          if w.n >= 6 {
            assert Above(1, q4) == Above(0, q4 / 64);
          }
        }
      }
    }
  }

  /** The octets of the `n`-octet form. */
  function Octets(w: Written): (s: seq<byte>)
    requires 1 <= w.n <= 6 && w.cp < Capacity(w.n)
    ensures |s| == w.n
  {
    if w.n == 1 then [w.cp]
    else
      LeadOctet(w);
      [Mark(w.n) + Above(w.n - 1, w.cp)] + Sextets(w.n - 1, w.cp)
  }

  ghost predicate AllMayWrite(m: Mode, ws: seq<Written>) {
    forall i :: 0 <= i < |ws| ==> MayWrite(m, ws[i])
  }

  ghost function WriteAll(m: Mode, ws: seq<Written>): seq<byte>
    requires AllMayWrite(m, ws)
  {
    if ws == [] then [] else Octets(ws[0]) + WriteAll(m, ws[1..])
  }

  /** `s` is some sequence of code points the mode admits, each in a form the mode admits. */
  ghost predicate IsText(m: Mode, s: seq<byte>) {
    exists ws: seq<Written> :: AllMayWrite(m, ws) && WriteAll(m, ws) == s
  }

  // ---------------------------------------------------------------- reading is the inverse of writing

  ghost predicate Conts(k: nat, s: seq<byte>) {
    |s| >= k && forall i :: 0 <= i < k ==> s[i] / 64 == 2
  }

  /** The value of `k` continuation octets appended to `acc`. */
  ghost function Value(acc: nat, k: nat, s: seq<byte>): nat
    requires k <= |s|
  {
    if k == 0 then acc else 64 * Value(acc, k - 1, s) + s[k - 1] % 64
  }

  lemma {:induction false} ValueCons(acc: nat, k: nat, s: seq<byte>)
    requires k < |s|
    ensures Value(acc, k + 1, s) == Value(64 * acc + s[0] % 64, k, s[1..])
  {
    if k == 0 {
      assert Value(acc, 1, s) == 64 * Value(acc, 0, s) + s[0] % 64;
    } else {
      ValueCons(acc, k - 1, s);
    }
  }

  lemma {:induction false} TailIs(m: Mode, acc: nat, k: nat, s: seq<byte>)
    ensures ReadTail(m, acc, k, s).Done? <==> Conts(k, s)
    ensures Conts(k, s) ==> ReadTail(m, acc, k, s) == Done(Value(acc, k, s))
    decreases k
  {
    if k > 0 && s != [] {
      TailIs(m, 64 * acc + s[0] % 64, k - 1, s[1..]);
      if k <= |s| {
        ValueCons(acc, k - 1, s);
      }
      if Conts(k, s) {
        assert Conts(k - 1, s[1..]);
      }
      if s[0] / 64 == 2 && Conts(k - 1, s[1..]) {
        forall i | 0 <= i < k ensures s[i] / 64 == 2 {
          if i > 0 { assert s[1..][i - 1] == s[i]; }
        }
      }
    }
  }

  lemma {:induction false} WrittenIsRead(k: nat, x: nat, t: seq<byte>)
    ensures Conts(k, Sextets(k, x) + t)
    ensures Value(Above(k, x), k, Sextets(k, x) + t) == x
  {
    if k > 0 {
      WrittenIsRead(k - 1, x / 64, [0x80 + x % 64] + t);
      assert Sextets(k - 1, x / 64) + ([0x80 + x % 64] + t) == Sextets(k, x) + t;
    }
  }

  lemma {:induction false} ReadIsWritten(a: nat, k: nat, s: seq<byte>)
    requires Conts(k, s)
    ensures Above(k, Value(a, k, s)) == a
    ensures Sextets(k, Value(a, k, s)) == s[..k]
  {
    if k > 0 {
      ReadIsWritten(a, k - 1, s);
      var v := Value(a, k - 1, s);
      assert Value(a, k, s) / 64 == v;
      assert s[..k] == s[..k - 1] + [s[k - 1]];
    }
  }

  lemma LeadIs(c: byte)
    ensures var n := LeadingOnes(c);
      && (n == 0 ==> LeadPayload(c) == c)
      && (2 <= n <= 6 ==> c == Mark(n) + LeadPayload(c))
  {
  }

  /** A value read from `n` octets fits `n` octets. */
  lemma ValueFits(c: byte, s: seq<byte>)
    requires 2 <= LeadingOnes(c) <= 6 && |s| >= LeadingOnes(c) - 1
    ensures Value(LeadPayload(c), LeadingOnes(c) - 1, s) < Capacity(LeadingOnes(c))
  {
    var a, n := LeadPayload(c), LeadingOnes(c);
    assert Value(a, 1, s) <= 64 * a + 63;
    if n >= 3 {
      assert Value(a, 2, s) <= 64 * Value(a, 1, s) + 63;
      if n >= 4 {
        assert Value(a, 3, s) <= 64 * Value(a, 2, s) + 63;
        if n >= 5 {
          assert Value(a, 4, s) <= 64 * Value(a, 3, s) + 63;
          if n >= 6 {
            assert Value(a, 5, s) <= 64 * Value(a, 4, s) + 63;
          }
        }
      }
    }
  }

  /** The checks in the loop are exactly the admission rule of the mode. */
  lemma AcceptsIsMayWrite(m: Mode, c: byte, cp: nat)
    requires !m.NoCheck? && 2 <= LeadingOnes(c) <= 6 && cp < Capacity(LeadingOnes(c))
    ensures !BadLead(m, c) && Accepts(m, LeadingOnes(c), cp) <==> MayWrite(m, Written(LeadingOnes(c), cp))
  {
  }

  lemma HeadFromTail(m: Mode, s: seq<byte>, cp: nat)
    requires s != [] && LeadingOnes(s[0]) > 0 && !BadLead(m, s[0]) && Accepts(m, LeadingOnes(s[0]), cp)
    requires ReadTail(m, LeadPayload(s[0]), LeadingOnes(s[0]) - 1, s[1..]) == Done(cp)
    ensures ReadHead(m, s) == Char(LeadingOnes(s[0]), cp)
  {
    hide ReadTail, LeadPayload, Accepts, BadLead;
  }

  /** An admitted code point is read back from the front of any string it starts. */
  lemma HeadOfWritten(m: Mode, w: Written, t: seq<byte>)
    requires !m.NoCheck? && MayWrite(m, w)
    ensures ReadHead(m, Octets(w) + t) == Char(w.n, w.cp)
  {
    var s := Octets(w) + t;
    if w.n > 1 {
      LeadOctet(w);
      AcceptsIsMayWrite(m, s[0], w.cp);
      LongHead(m, w, s, t);
    }
  }

  lemma LongHead(m: Mode, w: Written, s: seq<byte>, t: seq<byte>)
    requires 2 <= w.n <= 6 && w.cp < Capacity(w.n) && s == Octets(w) + t
    requires LeadingOnes(s[0]) == w.n && LeadPayload(s[0]) == Above(w.n - 1, w.cp)
    requires !BadLead(m, s[0]) && Accepts(m, w.n, w.cp)
    ensures ReadHead(m, s) == Char(w.n, w.cp)
  {
    hide ReadTail, Value, Above, Accepts, BadLead, LeadPayload, ReadHead, LeadingOnes, Sextets;
    var k := w.n - 1;
    assert s[1..] == Sextets(k, w.cp) + t;
    WrittenIsRead(k, w.cp, t);
    TailIs(m, LeadPayload(s[0]), k, s[1..]);
    HeadFromTail(m, s, w.cp);
  }

  /** What is read is an admitted code point, written at the front. */
  lemma WrittenOfHead(m: Mode, s: seq<byte>)
    requires !m.NoCheck? && s != [] && ReadHead(m, s).Char?
    ensures var w := Written(ReadHead(m, s).len, ReadHead(m, s).cp);
      MayWrite(m, w) && Octets(w) == s[..w.n]
  {
    var n := LeadingOnes(s[0]);
    LeadIs(s[0]);
    if n > 0 {
      var a, k := LeadPayload(s[0]), n - 1;
      TailIs(m, a, k, s[1..]);
      ReadIsWritten(a, k, s[1..]);
      ValueFits(s[0], s[1..]);
      AcceptsIsMayWrite(m, s[0], Value(a, k, s[1..]));
      assert s[..n] == [s[0]] + s[1..][..k];
    } else {
      assert s[..1] == [s[0]];
    }
  }

  lemma {:induction false} TextIsValid(m: Mode, ws: seq<Written>)
    requires !m.NoCheck? && AllMayWrite(m, ws)
    ensures Scan(m, WriteAll(m, ws)).result.Valid?
  {
    hide ReadHead, Octets, MayWrite;
    if ws != [] {
      var s := WriteAll(m, ws);
      assert MayWrite(m, ws[0]);
      HeadOfWritten(m, ws[0], WriteAll(m, ws[1..]));
      ScanStep(m, s);
      TextIsValid(m, ws[1..]);
    }
  }

  lemma {:induction false} ValidIsText(m: Mode, s: seq<byte>) returns (ws: seq<Written>)
    requires !m.NoCheck? && Scan(m, s).result.Valid?
    ensures AllMayWrite(m, ws) && WriteAll(m, ws) == s
    decreases |s|
  {
    hide ReadHead, Octets, MayWrite;
    if s == [] {
      ws := [];
    } else {
      ScanStep(m, s);
      WrittenOfHead(m, s);
      var h := ReadHead(m, s);
      var rest := ValidIsText(m, s[h.len..]);
      ws := [Written(h.len, h.cp)] + rest;
      assert ws[1..] == rest;
    }
  }

  /**
    * Exactly the texts of the mode are `valid`: sequences of admitted code points, in their
    * shortest form except in the normal mode, which takes any of the six forms.
    */
  lemma ValidIffText(m: Mode, s: seq<byte>)
    ensures Scan(m, s).result.Valid? <==> m.NoCheck? || IsText(m, s)
  {
    if !m.NoCheck? {
      if Scan(m, s).result.Valid? {
        var ws := ValidIsText(m, s);
      }
      if IsText(m, s) {
        var ws: seq<Written> :| AllMayWrite(m, ws) && WriteAll(m, ws) == s;
        TextIsValid(m, ws);
      }
    }
  }

  // ---------------------------------------------------------------- the reported position

  /** What is read from the front of a string is read from the front of any long enough prefix of it. */
  lemma HeadOfPrefix(m: Mode, s: seq<byte>, n: nat)
    requires 0 < n <= |s|
    ensures ReadHead(m, s[..n]).Char? ==> ReadHead(m, s) == ReadHead(m, s[..n])
    ensures ReadHead(m, s).Char? && ReadHead(m, s).len <= n ==> ReadHead(m, s[..n]) == ReadHead(m, s)
  {
    hide ReadHead;
    assert s == s[..n] + s[n..];
    if ReadHead(m, s[..n]).Char? {
      HeadExtends(m, s[..n], s[n..]);
    }
    if ReadHead(m, s).Char? && ReadHead(m, s).len <= n {
      var k := ReadHead(m, s).len;
      HeadTruncates(m, s);
      HeadExtends(m, s[..k], s[k..n]);
      assert s[..n] == s[..k] + s[k..n];
    }
  }

  lemma {:induction false} UpToLast(m: Mode, s: seq<byte>, n: nat)
    requires !m.NoCheck? && n <= |s|
    ensures n == Scan(m, s).last ==> Scan(m, s[..n]).result.Valid?
    ensures n > Scan(m, s).last ==> !Scan(m, s[..n]).result.Valid?
    decreases |s|
  {
    hide ReadHead, Scan;
    ScanStop(m, []);
    if n > 0 {
      var p := s[..n];
      ScanStep(m, s);
      ScanStep(m, p);
      HeadOfPrefix(m, s, n);
      if ReadHead(m, s).Char? && ReadHead(m, s).len <= n {
        var k := ReadHead(m, s).len;
        UpToLast(m, s[k..], n - k);
        assert p[k..] == s[k..][..n - k];
      }
    } else {
      assert s[..0] == [];
    }
  }

  /** Valid or not, the reported position is the end of the longest valid prefix. */
  lemma LongestValidPrefix(m: Mode, s: seq<byte>)
    ensures Scan(m, s[..Scan(m, s).last]).result.Valid?
    ensures forall n :: Scan(m, s).last < n <= |s| ==> !Scan(m, s[..n]).result.Valid?
  {
    hide Scan;
    if m.NoCheck? {
      ScanStop(m, s);
      ScanStop(m, s[..|s|]);
    } else {
      UpToLast(m, s, Scan(m, s).last);
      forall n | Scan(m, s).last < n <= |s| ensures !Scan(m, s[..n]).result.Valid? {
        UpToLast(m, s, n);
      }
    }
  }

  // ---------------------------------------------------------------- unfinished strings

  /** A code point the mode waits for: at most four octets unless normal, in range if that is checked early. */
  predicate Awaited(m: Mode, w: Written) {
    && 2 <= w.n <= 6 && w.cp < Capacity(w.n)
    && (m.Normal? || w.n <= 4)
    && (m.Pedantic? || m.Extreme? ==> w.cp <= 0x10FFFF)
  }

  /** The octets so far are some of those of such a code point, but not all. */
  ghost predicate Begins(m: Mode, t: seq<byte>) {
    t != [] && exists w :: Awaited(m, w) && t < Octets(w)
  }

  lemma {:induction false} CutTailIs(m: Mode, acc: nat, k: nat, s: seq<byte>)
    ensures ReadTail(m, acc, k, s).CutTail? <==>
      && |s| < k && Conts(|s|, s)
      && (IsRestricted(m) ==> Shifted(Value(acc, |s|, s), k - |s|) <= 0x10FFFF)
    decreases k
  {
    if k > 0 && s != [] {
      CutTailIs(m, 64 * acc + s[0] % 64, k - 1, s[1..]);
      ValueCons(acc, |s| - 1, s);
      if Conts(|s|, s) {
        assert s[0] / 64 == 2 && Conts(|s| - 1, s[1..]);
      }
      if s[0] / 64 == 2 && Conts(|s| - 1, s[1..]) {
        forall i | 0 <= i < |s| ensures s[i] / 64 == 2 {
          if i > 0 { assert s[1..][i - 1] == s[i]; }
        }
      }
    }
  }

  lemma {:induction false} ShiftedSnoc(acc: nat, k: nat)
    requires k > 0
    ensures Shifted(acc, k) == 64 * Shifted(acc, k - 1)
    decreases k
  {
    if k > 1 {
      ShiftedSnoc(64 * acc, k - 1);
    }
  }

  /** Zero sextets behind `v`. */
  lemma {:induction false} ShiftedSextets(v: nat, k: nat, j: nat)
    requires j <= k
    ensures Above(k, Shifted(v, j)) == Above(k - j, v)
    ensures Sextets(k - j, v) <= Sextets(k, Shifted(v, j))
    decreases j
  {
    if j > 0 {
      ShiftedSnoc(v, j);
      ShiftedSextets(v, k - 1, j - 1);
      assert Shifted(v, j) / 64 == Shifted(v, j - 1);
    }
  }

  lemma {:induction false} SextetsPrefix(k: nat, x: nat, i: nat)
    requires i <= k
    ensures Sextets(k, x)[..i] == Sextets(i, Above(k - i, x))
    decreases k
  {
    if i == k {
      assert Sextets(k, x)[..k] == Sextets(k, x);
    } else {
      SextetsPrefix(k - 1, x / 64, i);
      assert Sextets(k, x)[..i] == Sextets(k - 1, x / 64)[..i];
    }
  }

  lemma {:induction false} AboveAbove(i: nat, j: nat, x: nat)
    ensures Above(i, Above(j, x)) == Above(i + j, x)
    ensures Shifted(Above(j, x), j) <= x
    decreases j
  {
    if j > 0 {
      AboveAbove(i, j - 1, x / 64);
      ShiftedSnoc(Above(j, x), j);
    }
  }

  lemma {:induction false} ShiftedBelow(v: nat, a: nat, b: nat, j: nat)
    requires v < a && b == Shifted(a, j)
    ensures Shifted(v, j) < b
    decreases j
  {
    if j > 0 {
      ShiftedBelow(64 * v, 64 * a, b, j - 1);
    }
  }

  /** Cut off within a code point the mode waits for. */
  lemma CutHeadIs(m: Mode, t: seq<byte>)
    requires !m.NoCheck? && t != []
    ensures ReadHead(m, t).CutHead? <==>
      var n, k := LeadingOnes(t[0]), |t| - 1;
      && 2 <= n <= 6 && (m.Normal? || n <= 4) && |t| < n && Conts(k, t[1..])
      && (IsRestricted(m) ==> Shifted(Value(LeadPayload(t[0]), k, t[1..]), n - |t|) <= 0x10FFFF)
  {
    hide LeadPayload, ReadTail, Value, Conts, Shifted, Accepts, LeadingOnes;
    if LeadingOnes(t[0]) > 0 {
      CutTailIs(m, LeadPayload(t[0]), LeadingOnes(t[0]) - 1, t[1..]);
    }
  }

  lemma BeginsIsCut(m: Mode, w: Written, t: seq<byte>)
    requires !m.NoCheck? && Awaited(m, w) && t != [] && t < Octets(w)
    ensures ReadHead(m, t).CutHead?
  {
    hide ReadHead, LeadPayload, LeadingOnes, Mark, Value, Above, Shifted, Sextets;
    var k, i := w.n - 1, |t| - 1;
    LeadOctet(w);
    CutHeadIs(m, t);
    assert t[0] == Octets(w)[0] && t[1..] == Sextets(k, w.cp)[..i];
    SextetsPrefix(k, w.cp, i);
    var v := Above(k - i, w.cp);
    WrittenIsRead(i, v, []);
    assert Sextets(i, v) + [] == t[1..];
    AboveAbove(i, k - i, w.cp);
  }

  lemma CutBegins(m: Mode, t: seq<byte>) returns (w: Written)
    requires !m.NoCheck? && t != [] && ReadHead(m, t).CutHead?
    ensures Awaited(m, w) && t < Octets(w)
  {
    hide ReadHead, LeadPayload, LeadingOnes, Mark, Value, Above, Shifted, Sextets;
    CutHeadIs(m, t);
    var n, i := LeadingOnes(t[0]), |t| - 1;
    var a, k := LeadPayload(t[0]), n - 1;
    var v := Value(a, i, t[1..]);
    w := Written(n, Shifted(v, k - i));
    LeadIs(t[0]);
    ReadIsWritten(a, i, t[1..]);
    ShiftedSextets(v, k, k - i);
    CutFits(t[0], t[1..]);
    assert Sextets(i, v) == t[1..];
    assert Octets(w) == [t[0]] + Sextets(k, w.cp);
    assert t == [t[0]] + t[1..];
  }

  /** With zeros for what is missing the value fits. */
  lemma CutFits(c: byte, s: seq<byte>)
    requires 2 <= LeadingOnes(c) <= 6 && |s| < LeadingOnes(c) - 1
    ensures Shifted(Value(LeadPayload(c), |s|, s), LeadingOnes(c) - 1 - |s|) < Capacity(LeadingOnes(c))
  {
    var zeros: seq<byte> := seq(LeadingOnes(c) - 1 - |s|, _ => 0x80);
    ValueFits(c, s + zeros);
    ValueOfZeros(LeadPayload(c), s, zeros, |zeros|);
  }

  lemma {:induction false} ValueOfZeros(acc: nat, s: seq<byte>, zeros: seq<byte>, j: nat)
    requires j <= |zeros| && forall i :: 0 <= i < |zeros| ==> zeros[i] == 0x80
    ensures Value(acc, |s| + j, s + zeros) == Shifted(Value(acc, |s|, s), j)
    decreases j
  {
    if j == 0 {
      ValueOfFront(acc, |s|, s, zeros);
    } else {
      ValueOfZeros(acc, s, zeros, j - 1);
      ShiftedSnoc(Value(acc, |s|, s), j);
    }
  }

  lemma {:induction false} ValueOfFront(acc: nat, k: nat, s: seq<byte>, t: seq<byte>)
    requires k <= |s|
    ensures Value(acc, k, s + t) == Value(acc, k, s)
    decreases k
  {
    if k > 0 {
      ValueOfFront(acc, k - 1, s, t);
    }
  }

  /**
    * A string is incomplete if and only if behind its longest valid prefix there are some, but not
    * all, of the octets of a code point the mode waits for.
    */
  lemma IncompleteIffBegins(m: Mode, s: seq<byte>)
    ensures Scan(m, s).result.Incomplete? <==> !m.NoCheck? && Begins(m, s[Scan(m, s).last..])
  {
    hide ReadHead, Scan, Octets;
    if m.NoCheck? {
      ScanStop(m, s);
    } else {
      LastHead(m, s);
      var t := s[Scan(m, s).last..];
      if t != [] && ReadHead(m, t).CutHead? {
        var w := CutBegins(m, t);
      }
      if Begins(m, t) {
        var w :| Awaited(m, w) && t < Octets(w);
        BeginsIsCut(m, w, t);
      }
    }
  }

  lemma {:induction false} LastHead(m: Mode, s: seq<byte>)
    requires !m.NoCheck?
    ensures var v := Scan(m, s); var t := s[v.last..];
      v.result.Incomplete? <==> t != [] && ReadHead(m, t).CutHead?
    decreases |s|
  {
    hide ReadHead, Scan;
    if s == [] {
      ScanStop(m, s);
    } else {
      ScanStep(m, s);
      if ReadHead(m, s).Char? {
        var n := ReadHead(m, s).len;
        LastHead(m, s[n..]);
        assert s[Scan(m, s).last..] == s[n..][Scan(m, s[n..]).last..];
      } else {
        assert s[0..] == s;
      }
    }
  }

  /** The six forms octet by octet (RFC 3629 section 3, RFC 2279 section 2). */
  lemma OctetsAre(n: nat, x: nat)
    requires 1 <= n <= 6 && x < Capacity(n)
    ensures Octets(Written(n, x)) ==
      match n
      case 1 => [x]
      case 2 => [0xC0 + x / 0x40, 0x80 + x % 0x40]
      case 3 => [0xE0 + x / 0x1000, 0x80 + x / 0x40 % 0x40, 0x80 + x % 0x40]
      case 4 => [0xF0 + x / 0x4_0000, 0x80 + x / 0x1000 % 0x40, 0x80 + x / 0x40 % 0x40, 0x80 + x % 0x40]
      case 5 =>
        [0xF8 + x / 0x100_0000, 0x80 + x / 0x4_0000 % 0x40, 0x80 + x / 0x1000 % 0x40,
         0x80 + x / 0x40 % 0x40, 0x80 + x % 0x40]
      case _ =>
        [0xFC + x / 0x4000_0000, 0x80 + x / 0x100_0000 % 0x40, 0x80 + x / 0x4_0000 % 0x40,
         0x80 + x / 0x1000 % 0x40, 0x80 + x / 0x40 % 0x40, 0x80 + x % 0x40]
  {
    hide Capacity, Sextets, Above;
    var x1, x2, x3, x4, x5 := x / 0x40, x / 0x1000, x / 0x4_0000, x / 0x100_0000, x / 0x4000_0000;
    SixtyFourths(x);
    match n
    case 1 =>
    case 2 =>
      NoSextets(x1);
      SextetsSnoc(0, x);
    case 3 =>
      NoSextets(x2);
      SextetsSnoc(0, x1);
      SextetsSnoc(1, x);
    case 4 =>
      NoSextets(x3);
      SextetsSnoc(0, x2);
      SextetsSnoc(1, x1);
      SextetsSnoc(2, x);
    case 5 =>
      NoSextets(x4);
      SextetsSnoc(0, x3);
      SextetsSnoc(1, x2);
      SextetsSnoc(2, x1);
      SextetsSnoc(3, x);
    case _ =>
      NoSextets(x5);
      SextetsSnoc(0, x4);
      SextetsSnoc(1, x3);
      SextetsSnoc(2, x2);
      SextetsSnoc(3, x1);
      SextetsSnoc(4, x);
  }

  lemma NoSextets(x: nat)
    ensures Sextets(0, x) == [] && Above(0, x) == x
  {
  }

  lemma SixtyFourths(x: nat)
    ensures x / 0x40 / 64 == x / 0x1000
    ensures x / 0x1000 / 64 == x / 0x4_0000
    ensures x / 0x4_0000 / 64 == x / 0x100_0000
    ensures x / 0x100_0000 / 64 == x / 0x4000_0000
  {
  }

  lemma SextetsSnoc(k: nat, x: nat)
    ensures Sextets(k + 1, x) == Sextets(k, x / 64) + [0x80 + x % 64] && Above(k + 1, x) == Above(k, x / 64)
  {
  }
}
