/**
  * Base64 and its variant for URLs and file names (RFC 4648 sections 4 and 5): the loops of encoder
  * and decoder, the round trip, and what both mean by the alphabet and by the numbers that octets and
  * letters make. Strings of any length but one more than a multiple of four are decoded.
  */
module Base64 {
  import opened Bytes

  // ---------------------------------------------------------------- the alphabet

  /** The letter for a sextet: A to Z, a to z, 0 to 9, then '+' and '/'. */
  function Letter(v: nat): char
    requires v < 64
  {
    if v < 26 then 'A' + v as char
    else if v < 52 then 'a' + (v - 26) as char
    else if v < 62 then '0' + (v - 52) as char
    else if v == 62 then '+'
    else '/'
  }

  /** The decoder's table: a sextet for every character, zero for those of no meaning. */
  function Sextet(c: char): (v: nat)
    ensures v < 64
  {
    if 'A' <= c <= 'Z' then (c - 'A') as nat
    else if 'a' <= c <= 'z' then (c - 'a') as nat + 26
    else if '0' <= c <= '9' then (c - '0') as nat + 52
    else if c == '+' || c == '-' || c == '.' then 62
    else if c == '/' || c == ',' || c == '_' then 63
    else 0
  }

  /** The alphabet of RFC 4648 table 1, and that of table 2. */
  const ALPHABET: string := "ABCDEFGHIJKLMNOPQRSTUVWXYZ" + "abcdefghijklmnopqrstuvwxyz" + "0123456789" + "+/"
  const URL_ALPHABET: string := "ABCDEFGHIJKLMNOPQRSTUVWXYZ" + "abcdefghijklmnopqrstuvwxyz" + "0123456789" + "-_"

  /** The letter of a sextet is the one at its place. */
  lemma LetterAt(v: nat)
    requires v < 64
    ensures |ALPHABET| == 64 && Letter(v) == ALPHABET[v]
  {
  }

  /** What the decoder's table has for the characters '+' to '?', '@' to 'S', 'T' to 'g' and 'h' to 'z'. */
  const TABLE_PLUS: seq<nat> := [62, 63, 62, 62, 63, 52, 53, 54, 55, 56, 57, 58, 59, 60, 61, 0, 0, 0, 0, 0, 0]
  const TABLE_AT: seq<nat> := [0, 0, 1, 2, 3, 4, 5, 6, 7, 8, 9, 10, 11, 12, 13, 14, 15, 16, 17, 18]
  const TABLE_T: seq<nat> := [19, 20, 21, 22, 23, 24, 25, 0, 0, 0, 0, 63, 0, 26, 27, 28, 29, 30, 31, 32]
  const TABLE_H: seq<nat> := [33, 34, 35, 36, 37, 38, 39, 40, 41, 42, 43, 44, 45, 46, 47, 48, 49, 50, 51]

  /** For every character the decoder has the entry of that table, and zero beyond it. */
  lemma SextetAt(c: char)
    ensures Sextet(c) ==
      if '+' <= c <= '?' then TABLE_PLUS[(c - '+') as nat]
      else if '@' <= c <= 'S' then TABLE_AT[(c - '@') as nat]
      else if 'T' <= c <= 'g' then TABLE_T[(c - 'T') as nat]
      else if 'h' <= c <= 'z' then TABLE_H[(c - 'h') as nat]
      else 0
  {
    hide Sextet, TABLE_PLUS, TABLE_AT, TABLE_T, TABLE_H;
    EntriesFirst(c);
    EntriesLast(c);
    NoEntry(c);
  }

  lemma EntriesFirst(c: char)
    ensures |TABLE_PLUS| == 21 && ('+' <= c <= '?' ==> Sextet(c) == TABLE_PLUS[(c - '+') as nat])
    ensures |TABLE_AT| == 20 && ('@' <= c <= 'S' ==> Sextet(c) == TABLE_AT[(c - '@') as nat])
  {
  }

  lemma EntriesLast(c: char)
    ensures |TABLE_T| == 20 && ('T' <= c <= 'g' ==> Sextet(c) == TABLE_T[(c - 'T') as nat])
    ensures |TABLE_H| == 19 && ('h' <= c <= 'z' ==> Sextet(c) == TABLE_H[(c - 'h') as nat])
  {
  }

  lemma NoEntry(c: char)
    ensures c < '+' || 'z' < c ==> Sextet(c) == 0
  {
  }

  lemma SextetOfLetter(v: nat)
    requires v < 64
    ensures Sextet(Letter(v)) == v && Letter(v) != '='
  {
  }

  // ---------------------------------------------------------------- groups

  /** Three octets as four letters. */
  function Group(a: byte, b: byte, c: byte): (s: string)
    ensures |s| == 4
  {
    [Letter(a / 4), Letter(a % 4 * 16 + b / 16), Letter(b % 16 * 4 + c / 64), Letter(c % 64)]
  }

  /** Four characters as three octets. */
  function Ungroup(s: string): (r: seq<byte>)
    requires |s| == 4
    ensures |r| == 3
  {
    var n := ((Sextet(s[0]) * 64 + Sextet(s[1])) * 64 + Sextet(s[2])) * 64 + Sextet(s[3]);
    [n / 65536, n / 256 % 256, n % 256]
  }

  lemma ThreeOctets(a: byte, b: byte, c: byte, n: nat)
    requires n == a * 65536 + b * 256 + c
    ensures n / 65536 == a && n / 256 % 256 == b && n % 256 == c
  {
    assert n / 256 == a * 256 + b;
  }

  lemma FourSextets(a: byte, b: byte, c: byte)
    ensures ((a / 4 * 64 + (a % 4 * 16 + b / 16)) * 64 + (b % 16 * 4 + c / 64)) * 64 + c % 64
      == a * 65536 + b * 256 + c
  {
    var a1, a0, b1, b0, c1, c0 := a / 4, a % 4, b / 16, b % 16, c / 64, c % 64;
    assert a == 4 * a1 + a0 && b == 16 * b1 + b0 && c == 64 * c1 + c0;
    assert ((a1 * 64 + (a0 * 16 + b1)) * 64 + (b0 * 4 + c1)) * 64 + c0
      == (4 * a1 + a0) * 65536 + (16 * b1 + b0) * 256 + (64 * c1 + c0);
  }

  lemma UngroupGroup(a: byte, b: byte, c: byte)
    ensures Ungroup(Group(a, b, c)) == [a, b, c]
  {
    SextetOfLetter(a / 4);
    SextetOfLetter(a % 4 * 16 + b / 16);
    SextetOfLetter(b % 16 * 4 + c / 64);
    SextetOfLetter(c % 64);
    hide Sextet, Letter;
    var n := ((a / 4 * 64 + (a % 4 * 16 + b / 16)) * 64 + (b % 16 * 4 + c / 64)) * 64 + c % 64;
    FourSextets(a, b, c);
    ThreeOctets(a, b, c, n);
  }

  /** The encoding: whole groups, then one or two octets with padding. */
  function Encoded(data: seq<byte>): string {
    if |data| == 0 then ""
    else if |data| == 1 then [Letter(data[0] / 4), Letter(data[0] % 4 * 16), '=', '=']
    else if |data| == 2 then
      [Letter(data[0] / 4), Letter(data[0] % 4 * 16 + data[1] / 16), Letter(data[1] % 16 * 4), '=']
    else Group(data[0], data[1], data[2]) + Encoded(data[3..])
  }

  function UngroupAll(s: string): seq<byte>
    requires |s| % 4 == 0
  {
    if s == "" then [] else Ungroup(s[..4]) + UngroupAll(s[4..])
  }

  predicate IsPadded(data: string) { |data| > 0 && (|data| % 4 != 0 || data[|data| - 1] == '=') }

  /** Where the last, incomplete group starts. */
  function TailStart(data: string): (n: nat)
    requires |data| % 4 != 1
    ensures n % 4 == 0 && n <= |data|
    ensures IsPadded(data) ==> n + 1 < |data| <= n + 4
    ensures !IsPadded(data) ==> n == |data|
  {
    ((|data| + 3) / 4 - if IsPadded(data) then 1 else 0) * 4
  }

  /** The one or two octets of an incomplete group. */
  function UngroupTail(t: string): seq<byte>
    requires 2 <= |t| <= 4
  {
    var a, b := Sextet(t[0]), Sextet(t[1]);
    [a * 4 + b / 16] + if |t| > 2 && t[2] != '=' then [b % 16 * 16 + Sextet(t[2]) / 4] else []
  }

  /** The decoding of any string whose length can be one of an encoding, padded or not. */
  function Decoded(data: string): seq<byte>
    requires |data| % 4 != 1
  {
    var n := TailStart(data);
    UngroupAll(data[..n]) + if IsPadded(data) then UngroupTail(data[n..]) else []
  }

  // ---------------------------------------------------------------- laws

  /** Three octets take four characters, and so does what is left over. */
  lemma {:induction false} EncodedLength(data: seq<byte>)
    ensures |Encoded(data)| == 4 * ((|data| + 2) / 3)
  {
    hide Letter;
    if |data| >= 3 {
      EncodedLength(data[3..]);
    }
  }

  /** The padding: letters first, then as many '=' as octets are missing. */
  predicate IsLetter(c: char) { c != '=' && exists v :: 0 <= v < 64 && c == Letter(v) }

  lemma LetterIs(v: nat)
    requires v < 64
    ensures IsLetter(Letter(v))
  {
    SextetOfLetter(v);
  }

  lemma GroupLetters(a: byte, b: byte, c: byte)
    ensures forall i :: 0 <= i < 4 ==> IsLetter(Group(a, b, c)[i])
  {
    hide Letter, IsLetter;
    LetterIs(a / 4);
    LetterIs(a % 4 * 16 + b / 16);
    LetterIs(b % 16 * 4 + c / 64);
    LetterIs(c % 64);
  }

  /** Letters first, then `k` times '='. */
  ghost predicate Shape(s: string, k: nat) {
    && k <= |s|
    && (forall i :: 0 <= i < |s| - k ==> IsLetter(s[i]))
    && (forall i :: |s| - k <= i < |s| ==> s[i] == '=')
  }

  /** As many '=' as octets are missing from the last group. */
  lemma {:induction false} EncodedShape(data: seq<byte>)
    ensures Shape(Encoded(data), (3 - |data| % 3) % 3)
  {
    hide Letter, IsLetter;
    if |data| >= 3 {
      hide Group;
      var g, t := Group(data[0], data[1], data[2]), Encoded(data[3..]);
      EncodedShape(data[3..]);
      GroupLetters(data[0], data[1], data[2]);
      var s := g + t;
      assert forall i :: 4 <= i < |s| ==> s[i] == t[i - 4];
    } else if |data| > 0 {
      LetterIs(data[0] / 4);
      LetterIs(data[0] % 4 * 16);
      if |data| == 2 {
        LetterIs(data[0] % 4 * 16 + data[1] / 16);
        LetterIs(data[1] % 16 * 4);
      }
    }
  }

  lemma {:induction false} DecodeGroupFirst(g: string, s: string)
    requires |g| == 4 && |s| % 4 != 1 && (forall i :: 0 <= i < 4 ==> IsLetter(g[i]))
    ensures Decoded(g + s) == Ungroup(g) + Decoded(s)
  {
    hide Ungroup, UngroupTail, Letter;
    var d := g + s;
    if s == "" {
      assert d == g && d[..4] == g && d[4..] == "";
    } else {
      assert d[|d| - 1] == s[|s| - 1];
      var n := TailStart(s);
      assert TailStart(d) == n + 4;
      assert d[..n + 4] == g + s[..n] && d[n + 4..] == s[n..];
      assert (g + s[..n])[..4] == g && (g + s[..n])[4..] == s[..n];
    }
  }

  /** Decoding undoes encoding. */
  lemma {:induction false} RoundTrip(data: seq<byte>)
    ensures |Encoded(data)| % 4 == 0
    ensures Decoded(Encoded(data)) == data
  {
    hide Group, Decoded, Ungroup, Letter;
    EncodedLength(data);
    if |data| >= 3 {
      var g, s := Group(data[0], data[1], data[2]), Encoded(data[3..]);
      RoundTrip(data[3..]);
      GroupLetters(data[0], data[1], data[2]);
      DecodeGroupFirst(g, s);
      UngroupGroup(data[0], data[1], data[2]);
      assert [data[0], data[1], data[2]] + data[3..] == data;
    } else {
      ShortRoundTrip(data);
    }
  }

  lemma Nibbles(a: byte, b: byte)
    ensures var x := a % 4 * 16 + b / 16; x < 64 && x / 16 == a % 4 && x % 16 == b / 16
    ensures a / 4 * 4 + a % 4 == a && b / 16 * 16 + b % 16 * 4 / 4 == b
  {
  }

  lemma ShortRoundTrip(data: seq<byte>)
    requires |data| < 3
    ensures |Encoded(data)| % 4 == 0
    ensures Decoded(Encoded(data)) == data
  {
    if |data| > 0 {
      var a := data[0];
      var b := if |data| > 1 then data[1] else 0;
      SextetOfLetter(a / 4);
      SextetOfLetter(a % 4 * 16 + b / 16);
      SextetOfLetter(b % 16 * 4);
      Nibbles(a, b);
      hide Letter, Sextet;
      var s := Encoded(data);
      assert IsPadded(s) && TailStart(s) == 0;
      assert s[..0] == "" && s[0..] == s;
      assert Decoded(s) == UngroupTail(s);
    }
  }

  lemma EncodedInjective(x: seq<byte>, y: seq<byte>)
    requires Encoded(x) == Encoded(y)
    ensures x == y
  {
    RoundTrip(x);
    RoundTrip(y);
  }

  // ---------------------------------------------------------------- by its numbers

  /** A string of letters and their places in the alphabet. */
  ghost predicate Spells(s: string, vs: seq<nat>) {
    |s| == |vs| && forall i :: 0 <= i < |s| ==> vs[i] < 64 && s[i] == ALPHABET[vs[i]]
  }

  /** The places as the digits of a number to base 64, the most significant first. */
  function Number(vs: seq<nat>): nat {
    if vs == [] then 0 else 64 * Number(vs[..|vs| - 1]) + vs[|vs| - 1]
  }

  lemma NumberSnoc(vs: seq<nat>, v: nat)
    ensures Number(vs + [v]) == 64 * Number(vs) + v
  {
    assert (vs + [v])[..|vs|] == vs;
  }

  lemma NumbersOf(a: nat, b: nat, c: nat, d: nat)
    ensures Number([a, b]) == 64 * a + b
    ensures Number([a, b, c]) == (a * 64 + b) * 64 + c
    ensures Number([a, b, c, d]) == ((a * 64 + b) * 64 + c) * 64 + d
  {
    hide Number;
    NoNumber();
    NumberSnoc([], a);
    NumberSnoc([a], b);
    NumberSnoc([a, b], c);
    NumberSnoc([a, b, c], d);
    assert [] + [a] == [a] && [a] + [b] == [a, b] && [a, b] + [c] == [a, b, c] && [a, b, c] + [d] == [a, b, c, d];
  }

  lemma NoNumber()
    ensures Number([]) == 0
  {
  }

  lemma OctetNumbers(a: byte, b: byte, c: byte)
    ensures FromBigEndian([a]) == a
    ensures FromBigEndian([a, b]) == a * 256 + b
    ensures FromBigEndian([a, b, c]) == a * 65536 + b * 256 + c
  {
    assert [a][..0] == [] && [a, b][..1] == [a] && [a, b, c][..2] == [a, b];
    assert FromBigEndian([]) == 0;
  }

  /**
    * The letters of a group, read as a number, are the number its octets make; those of one or two
    * octets are theirs with four or two zero bits behind, and '=' stands for the octets missing.
    */
  lemma {:induction false} GroupNumber(a: byte, b: byte, c: byte)
    returns (three: seq<nat>, two: seq<nat>, one: seq<nat>)
    ensures Spells(Group(a, b, c), three) && Number(three) == FromBigEndian([a, b, c])
    ensures |Encoded([a, b])| == 4 && Spells(Encoded([a, b])[..3], two) && Encoded([a, b])[3] == '='
    ensures Number(two) == 4 * FromBigEndian([a, b])
    ensures |Encoded([a])| == 4 && Spells(Encoded([a])[..2], one) && Encoded([a])[2..] == "=="
    ensures Number(one) == 16 * FromBigEndian([a])
  {
    hide Letter, Number, ALPHABET, FromBigEndian;
    var v0, v1, v2, v3 := a / 4, a % 4 * 16 + b / 16, b % 16 * 4 + c / 64, c % 64;
    var w1, w2 := a % 4 * 16, b % 16 * 4;
    three, two, one := [v0, v1, v2, v3], [v0, v1, w2], [v0, w1];
    LetterAt(v0);
    LetterAt(v1);
    LetterAt(v2);
    LetterAt(v3);
    LetterAt(w1);
    LetterAt(w2);
    NumbersOf(v0, v1, v2, v3);
    NumbersOf(v0, v1, w2, 0);
    NumbersOf(v0, w1, 0, 0);
    OctetNumbers(a, b, c);
    FourSextets(a, b, c);
    TwoOctets(a, b);
  }

  lemma TwoOctets(a: byte, b: byte)
    ensures (a / 4 * 64 + (a % 4 * 16 + b / 16)) * 64 + b % 16 * 4 == 4 * (a * 256 + b)
    ensures a / 4 * 64 + a % 4 * 16 == 16 * a
  {
    var a1, a0, b1, b0 := a / 4, a % 4, b / 16, b % 16;
    assert a == 4 * a1 + a0 && b == 16 * b1 + b0;
  }

  /** The groups are in the order of the octets, and what is left over is at the end. */
  lemma {:induction false} GroupAt(data: seq<byte>, i: nat)
    requires 3 * i <= |data|
    ensures 4 * i <= |Encoded(data)| && Encoded(data)[4 * i..] == Encoded(data[3 * i..])
    ensures 3 * i + 3 <= |data| ==>
      && 4 * i + 4 <= |Encoded(data)|
      && Encoded(data)[4 * i..4 * i + 4] == Group(data[3 * i], data[3 * i + 1], data[3 * i + 2])
    decreases i
  {
    hide Group, Letter;
    if i == 0 {
      assert data[0..] == data;
    } else {
      var g, rest := Group(data[0], data[1], data[2]), data[3..];
      GroupAt(rest, i - 1);
      assert Encoded(data) == g + Encoded(rest);
      assert rest[3 * (i - 1)..] == data[3 * i..];
      Behind(g, Encoded(rest), 4 * (i - 1));
    }
  }

  lemma Behind(g: string, s: string, k: nat)
    requires |g| == 4 && k <= |s|
    ensures (g + s)[k + 4..] == s[k..]
    ensures k + 4 <= |s| ==> (g + s)[k + 4..k + 8] == s[k..k + 4]
  {
  }

  /** Four characters of any kind are decoded to the octets of the number their table entries make. */
  lemma UngroupNumber(s: string)
    requires |s| == 4
    ensures FromBigEndian(Ungroup(s)) == Number([Sextet(s[0]), Sextet(s[1]), Sextet(s[2]), Sextet(s[3])])
  {
    hide Sextet, Number, FromBigEndian;
    var a, b, c, d := Sextet(s[0]), Sextet(s[1]), Sextet(s[2]), Sextet(s[3]);
    var n := ((a * 64 + b) * 64 + c) * 64 + d;
    NumbersOf(a, b, c, d);
    assert n < 0x100_0000;
    assert Ungroup(s) == [n / 65536, n / 256 % 256, n % 256];
    OctetNumbers(n / 65536, n / 256 % 256, n % 256);
    Recomposed(n);
  }

  lemma Recomposed(n: nat)
    ensures n / 65536 * 65536 + n / 256 % 256 * 256 + n % 256 == n
  {
    assert n / 256 / 256 == n / 65536;
  }

  /** Where the decoded octets are; the padding may be left out. */
  lemma {:induction false} UngroupAt(s: string, i: nat)
    requires |s| % 4 == 0 && 4 * i + 4 <= |s|
    ensures 3 * i + 3 <= |UngroupAll(s)| && UngroupAll(s)[3 * i..3 * i + 3] == Ungroup(s[4 * i..4 * i + 4])
    decreases i
  {
    hide Ungroup;
    var r := UngroupAll(s);
    assert r == Ungroup(s[..4]) + UngroupAll(s[4..]);
    if i > 0 {
      UngroupAt(s[4..], i - 1);
      assert s[4..][4 * (i - 1)..4 * (i - 1) + 4] == s[4 * i..4 * i + 4];
      assert r[3 * i..3 * i + 3] == UngroupAll(s[4..])[3 * (i - 1)..3 * (i - 1) + 3];
    }
  }

  lemma PaddingIsOptional(s: string)
    requires |s| % 4 != 1
    ensures Decoded(Repadded(s)) == Decoded(s)
  {
    hide UngroupAll, Sextet;
    var r, n := Repadded(s), TailStart(s);
    if |s| % 4 == 0 {
      assert r == s;
    } else {
      assert IsPadded(s) && IsPadded(r) && TailStart(r) == n;
      assert r[..n] == s[..n];
    }
  }

  /** The examples of RFC 4648 section 10, in part. */
  lemma Examples()
    ensures Encoded([0x66]) == "Zg==" && Encoded([0x66, 0x6F]) == "Zm8=" && Encoded([0x66, 0x6F, 0x6F]) == "Zm9v"
    ensures Decoded("Zg==") == [0x66] && Decoded("Zm8=") == [0x66, 0x6F] && Decoded("Zm9v") == [0x66, 0x6F, 0x6F]
  {
    assert Encoded([0x66]) == "Zg==" && Encoded([0x66, 0x6F]) == "Zm8=" && Encoded([0x66, 0x6F, 0x6F]) == "Zm9v" by {
      assert [0x66 as byte, 0x6F, 0x6F][3..] == [];
    }
    hide Encoded, Decoded;
    RoundTrip([0x66]);
    RoundTrip([0x66, 0x6F]);
    RoundTrip([0x66, 0x6F, 0x6F]);
  }

  // ---------------------------------------------------------------- the URL alphabet

  /** The letters of the URL form are those of the other table, at the same places. */
  lemma UrlLetterAt(v: nat)
    requires v < 64
    ensures |URL_ALPHABET| == 64 && ToUrl(Letter(v)) == URL_ALPHABET[v]
    ensures Sextet(FromUrl(URL_ALPHABET[v])) == v
  {
    hide Sextet, Letter, ToUrl, FromUrl, URL_ALPHABET;
    SextetOfLetter(v);
    FromLetter(v);
    UrlTable(v);
  }

  lemma UrlTable(v: nat)
    requires v < 64
    ensures |URL_ALPHABET| == 64 && ToUrl(Letter(v)) == URL_ALPHABET[v]
  {
    hide Sextet;
  }

  lemma FromLetter(v: nat)
    requires v < 64
    ensures FromUrl(ToUrl(Letter(v))) == Letter(v)
  {
  }

  function ToUrl(c: char): char { if c == '+' then '-' else if c == '/' then '_' else c }

  function FromUrl(c: char): char { if c == '-' then '+' else if c == '_' then '/' else c }

  function MapAll(s: string, f: char -> char): (r: string)
    ensures |r| == |s|
  {
    seq(|s|, i requires 0 <= i < |s| => f(s[i]))
  }

  /** The string in front of the first '='. */
  function BeforePadding(s: string): string {
    if s == "" || s[0] == '=' then "" else [s[0]] + BeforePadding(s[1..])
  }

  /** `s` with '=' appended up to the next multiple of four. */
  function Repadded(s: string): (r: string)
    ensures |r| % 4 == 0
  {
    s + seq((|s| + 3) / 4 * 4 - |s|, _ => '=')
  }

  function UrlEncoded(data: seq<byte>): string { BeforePadding(MapAll(Encoded(data), ToUrl)) }

  function UrlDecoded(s: string): seq<byte> { Decoded(Repadded(MapAll(s, FromUrl))) }

  lemma {:induction false} BeforePaddingIs(s: string, n: nat)
    requires n <= |s| && (forall i :: 0 <= i < n ==> s[i] != '=') && (n < |s| ==> s[n] == '=')
    ensures BeforePadding(s) == s[..n]
  {
    if n > 0 {
      BeforePaddingIs(s[1..], n - 1);
      assert s[..n] == [s[0]] + s[1..][..n - 1];
    }
  }

  lemma UrlLetter(c: char)
    requires IsLetter(c)
    ensures ToUrl(c) !in {'=', '+', '/'} && FromUrl(ToUrl(c)) == c
  {
  }

  /** The URL form has no padding and neither '+' nor '/'. */
  lemma UrlShape(data: seq<byte>)
    ensures var s, k := Encoded(data), (3 - |data| % 3) % 3;
      && k <= |s| && UrlEncoded(data) == MapAll(s, ToUrl)[..|s| - k]
      && forall i :: 0 <= i < |s| - k ==>
           ToUrl(s[i]) !in {'=', '+', '/'} && FromUrl(ToUrl(s[i])) == s[i]
  {
    EncodedShape(data);
    var s, k := Encoded(data), (3 - |data| % 3) % 3;
    var t := MapAll(s, ToUrl);
    forall i | 0 <= i < |s| - k
      ensures ToUrl(s[i]) !in {'=', '+', '/'} && FromUrl(ToUrl(s[i])) == s[i] && t[i] != '='
    {
      hide ToUrl, FromUrl, IsLetter, Encoded;
      UrlLetter(s[i]);
    }
    if k > 0 {
      hide FromUrl, IsLetter, Encoded;
      assert s[|s| - k] == '=';
      assert t[|s| - k] == ToUrl('=') == '=';
    }
    hide ToUrl, FromUrl, IsLetter, Encoded;
    BeforePaddingIs(t, |s| - k);
  }

  /** Stripping the padding loses nothing: it is restored from the length. */
  lemma UrlRoundTrip(data: seq<byte>)
    ensures UrlDecoded(UrlEncoded(data)) == data
  {
    hide Encoded, Decoded, ToUrl, FromUrl;
    UrlShape(data);
    EncodedShape(data);
    EncodedLength(data);
    var s, k := Encoded(data), (3 - |data| % 3) % 3;
    var u := MapAll(UrlEncoded(data), FromUrl);
    assert u == s[..|s| - k];
    assert (|u| + 3) / 4 * 4 == |s|;
    assert Repadded(u) == s;
    RoundTrip(data);
  }

  // ---------------------------------------------------------------- the loops

  /** Writes the four letters of a whole group. */
  method PutGroup(buffer: array<char>, out: nat, a: byte, b: byte, c: byte)
    requires out + 4 <= buffer.Length
    modifies buffer
    ensures buffer[..out + 4] == old(buffer[..out]) + Group(a, b, c)
  {
    hide Letter;
    buffer[out] := Letter(a / 4);
    buffer[out + 1] := Letter(a % 4 * 16 + b / 16);
    buffer[out + 2] := Letter(b % 16 * 4 + c / 64);
    buffer[out + 3] := Letter(c % 64);
  }

  /** Writes the last group of one or two octets. */
  method PutTail(buffer: array<char>, out: nat, rest: seq<byte>)
    requires out + 4 == buffer.Length && 1 <= |rest| <= 2
    modifies buffer
    ensures buffer[..] == old(buffer[..out]) + Encoded(rest)
  {
    hide Letter, Group;
    buffer[out] := Letter(rest[0] / 4);
    if |rest| == 1 {
      buffer[out + 1] := Letter(rest[0] % 4 * 16);
      buffer[out + 2] := '=';
    } else {
      buffer[out + 1] := Letter(rest[0] % 4 * 16 + rest[1] / 16);
      buffer[out + 2] := Letter(rest[1] % 16 * 4);
    }
    buffer[out + 3] := '=';
  }

  lemma EncodedFrom(data: seq<byte>, at: nat)
    requires at + 3 <= |data|
    ensures Encoded(data[at..]) == Group(data[at], data[at + 1], data[at + 2]) + Encoded(data[at + 3..])
  {
    hide Group;
    assert data[at..][3..] == data[at + 3..];
  }

  /** Encodes through an output index into a string of the final length. */
  method Encode(data: seq<byte>) returns (res: string)
    ensures res == Encoded(data)
  {
    hide Letter, Encoded, Group;
    var olen := 4 * ((|data| + 2) / 3);
    EncodedLength(data);
    var buffer := new char[olen](_ => '\0');
    var out, at := 0, 0;
    assert data[0..] == data && buffer[..0] == "";
    ghost var groups: nat := 0;
    while |data| - at >= 3
      invariant at == 3 * groups <= |data| && out == 4 * groups <= olen
      invariant buffer[..out] + Encoded(data[at..]) == Encoded(data)
    {
      EncodedFrom(data, at);
      ghost var was := buffer[..out];
      PutGroup(buffer, out, data[at], data[at + 1], data[at + 2]);
      out := out + 4;
      at := at + 3;
      groups := groups + 1;
      assert buffer[..out] + Encoded(data[at..]) == was + Encoded(data[at - 3..]);
    }
    EncodedLength(data[at..]);
    if |data| - at > 0 {
      PutTail(buffer, out, data[at..]);
    } else {
      assert Encoded(data[at..]) == "";
      assert buffer[..] == buffer[..out];
    }
    res := buffer[..];
  }

  /** Reads one group of four characters. */
  method GetGroup(data: string, i: nat) returns (r: seq<byte>)
    requires i + 4 <= |data|
    ensures r == Ungroup(data[i..i + 4])
  {
    hide Sextet;
    var n := ((Sextet(data[i]) * 64 + Sextet(data[i + 1])) * 64 + Sextet(data[i + 2])) * 64 + Sextet(data[i + 3]);
    ghost var g := data[i..i + 4];
    assert g[0] == data[i] && g[1] == data[i + 1] && g[2] == data[i + 2] && g[3] == data[i + 3];
    r := [n / 65536, n / 256 % 256, n % 256];
  }

  lemma UngroupFrom(s: string, i: nat)
    requires |s| % 4 == 0 && i % 4 == 0 && i + 4 <= |s|
    ensures UngroupAll(s[i..]) == Ungroup(s[i..i + 4]) + UngroupAll(s[i + 4..])
  {
    hide Ungroup;
    assert s[i..][..4] == s[i..i + 4] && s[i..][4..] == s[i + 4..];
  }

  /** Decodes whole groups, then the incomplete one. */
  method Decode(data: string) returns (str: seq<byte>)
    requires |data| % 4 != 1
    ensures str == Decoded(data)
  {
    hide Sextet, Ungroup, UngroupAll;
    var pad := if |data| > 0 && (|data| % 4 != 0 || data[|data| - 1] == '=') then 1 else 0;
    var l := ((|data| + 3) / 4 - pad) * 4;
    assert l == TailStart(data);
    ghost var whole := data[..l];
    assert whole[0..] == whole;
    str := [];
    var i := 0;
    while i < l
      invariant 0 <= i <= l && i % 4 == 0
      invariant str + UngroupAll(whole[i..]) == UngroupAll(whole)
    {
      UngroupFrom(whole, i);
      assert whole[i..i + 4] == data[i..i + 4];
      ghost var was := str;
      var g := GetGroup(data, i);
      str := str + g;
      i := i + 4;
      assert was + (g + UngroupAll(whole[i..])) == str + UngroupAll(whole[i..]);
    }
    NothingUngrouped();
    assert whole[l..] == "" && str == UngroupAll(whole);
    if pad == 1 {
      var t := GetTail(data, l);
      str := str + t;
    }
  }

  lemma NothingUngrouped()
    ensures UngroupAll("") == []
  {
  }

  /** Reads the incomplete group. */
  method GetTail(data: string, l: nat) returns (r: seq<byte>)
    requires l + 2 <= |data| <= l + 4
    ensures r == UngroupTail(data[l..])
  {
    hide Sextet;
    ghost var tail := data[l..];
    var a, b := Sextet(data[l]), Sextet(data[l + 1]);
    assert tail[0] == data[l] && tail[1] == data[l + 1];
    r := [a * 4 + b / 16];
    if |data| > l + 2 && data[l + 2] != '=' {
      assert tail[2] == data[l + 2];
      r := r + [b % 16 * 16 + Sextet(data[l + 2]) / 4];
    }
  }

  /** Rewrites the characters of a string in place. */
  method Rewrite(a: array<char>, f: char -> char)
    modifies a
    ensures a[..] == MapAll(old(a[..]), f)
  {
    ghost var s := a[..];
    for i := 0 to a.Length
      invariant forall j :: 0 <= j < i ==> a[j] == f(s[j])
      invariant forall j :: i <= j < a.Length ==> a[j] == s[j]
    {
      a[i] := f(a[i]);
    }
  }

  /** Base64 with the other alphabet and the padding cut off at the first '='. */
  method UrlEncode(data: seq<byte>) returns (res: string)
    ensures res == UrlEncoded(data)
  {
    var s := Encode(data);
    var a := new char[|s|](i requires 0 <= i < |s| => s[i]);
    assert a[..] == s;
    Rewrite(a, ToUrl);
    var pos := 0;
    while pos < a.Length && a[pos] != '='
      invariant 0 <= pos <= a.Length && forall i :: 0 <= i < pos ==> a[i] != '='
    {
      pos := pos + 1;
    }
    BeforePaddingIs(a[..], pos);
    res := a[..pos];
  }

  /** Back to the first alphabet, padded to a multiple of four, then decoded. */
  method UrlDecode(data: string) returns (str: seq<byte>)
    ensures str == UrlDecoded(data)
  {
    var a := new char[|data|](i requires 0 <= i < |data| => data[i]);
    assert a[..] == data;
    Rewrite(a, FromUrl);
    var d := a[..] + seq((|data| + 3) / 4 * 4 - |data|, _ => '=');
    assert d == Repadded(MapAll(data, FromUrl));
    str := Decode(d);
  }
}
