/**
  * Parsing and printing of URIs (RFC 3986 section 3). The parser narrows a view of the text part by
  * part: scheme, authority with its user, host and port, then path, query and fragment. The printer
  * writes the parts that are there.
  */
module Uri {

  // ---------------------------------------------------------------- searching

  /** The first position of one of the characters, the length if there is none. */
  function FindOf(s: string, cs: set<char>): (r: nat)
    ensures r <= |s| && (forall i :: 0 <= i < r ==> s[i] !in cs) && (r < |s| ==> s[r] in cs)
  {
    if s == "" || s[0] in cs then 0 else 1 + FindOf(s[1..], cs)
  }

  predicate ColonSlash(s: string, i: nat) { i + 1 < |s| && s[i] == ':' && s[i + 1] == '/' }

  /** The first position of ":/", the length if there is none. */
  function FindColonSlash(s: string): (r: nat)
    ensures r <= |s| && (forall i :: 0 <= i < r ==> !ColonSlash(s, i)) && (r < |s| ==> ColonSlash(s, r))
  {
    if s == "" || ColonSlash(s, 0) then 0
    else
      var r := FindColonSlash(s[1..]);
      assert forall i :: 0 < i < |s| ==> (ColonSlash(s, i) <==> ColonSlash(s[1..], i - 1));
      1 + r
  }

  /** The last position of a character, the length if there is none. */
  function FindLast(s: string, c: char): (r: nat)
    ensures r <= |s| && (r < |s| ==> s[r] == c && forall i :: r < i < |s| ==> s[i] != c)
    ensures r == |s| ==> forall i :: 0 <= i < |s| ==> s[i] != c
  {
    if s == "" then 0
    else if s[|s| - 1] == c then |s| - 1
    else
      var r := FindLast(s[..|s| - 1], c);
      if r == |s| - 1 then |s| else r
  }

  // ---------------------------------------------------------------- decimal numbers

  function Digit(d: nat): char
    requires d < 10
  {
    '0' + d as char
  }

  predicate IsDigit(c: char) { '0' <= c <= '9' }

  /** `std::to_string` of a number that is not negative. */
  function Decimal(n: nat): (s: string)
    ensures s != "" && forall i :: 0 <= i < |s| ==> IsDigit(s[i])
  {
    if n < 10 then [Digit(n)] else Decimal(n / 10) + [Digit(n % 10)]
  }

  /** The number the digits at the front of `s` make, continuing `acc`. */
  function DigitsValue(acc: nat, s: string): nat
    decreases |s|
  {
    if s == "" || !IsDigit(s[0]) then acc else DigitsValue(10 * acc + (s[0] - '0') as nat, s[1..])
  }

  predicate IsSpace(c: char) { c in {' ', '\t', '\n', '\r'} || c == 11 as char || c == 12 as char }

  function SkipSpace(s: string): string {
    if s != "" && IsSpace(s[0]) then SkipSpace(s[1..]) else s
  }

  datatype Number = Number(value: int) | NotANumber

  /** `std::stoi`: white space, a sign, digits, and whatever follows; the 32-bit range is checked. */
  function Stoi(str: string): Number {
    var s := SkipSpace(str);
    var negative := s != "" && s[0] == '-';
    var t := if s != "" && (s[0] == '-' || s[0] == '+') then s[1..] else s;
    if t == "" || !IsDigit(t[0]) then NotANumber
    else
      var d: int := DigitsValue(0, t);
      var v := if negative then -d else d;
      if -0x8000_0000 <= v <= 0x7FFF_FFFF then Number(v) else NotANumber
  }

  lemma {:induction false} DigitsAppend(acc: nat, s: string, d: nat)
    requires d < 10 && forall i :: 0 <= i < |s| ==> IsDigit(s[i])
    ensures DigitsValue(acc, s + [Digit(d)]) == 10 * DigitsValue(acc, s) + d
    decreases |s|
  {
    var t := s + [Digit(d)];
    if s == "" {
      assert t[1..] == "";
      assert DigitsValue(acc, t) == DigitsValue(10 * acc + d, "");
    } else {
      assert t[1..] == s[1..] + [Digit(d)];
      DigitsAppend(10 * acc + (s[0] - '0') as nat, s[1..], d);
    }
  }

  lemma {:induction false} DecimalValue(n: nat)
    ensures DigitsValue(0, Decimal(n)) == n
  {
    if n < 10 {
      assert [Digit(n)][1..] == "";
    } else {
      DecimalValue(n / 10);
      DigitsAppend(0, Decimal(n / 10), n % 10);
    }
  }

  /** Printed numbers are read back. */
  lemma StoiOfDecimal(n: nat)
    requires n <= 0x7FFF_FFFF
    ensures Stoi(Decimal(n)) == Number(n)
  {
    DecimalValue(n);
    assert IsDigit(Decimal(n)[0]);
  }

  // ---------------------------------------------------------------- the URI

  datatype Uri = Uri(
    scheme: string,
    auth: string,
    host: string,
    port: int,
    path: string,
    query: string,
    fragment: string)

  const Empty: Uri := Uri("", "", "", -1, "", "", "")

  /** The setter of the port. */
  function Clamped(port: int): int {
    if port < -1 then -1 else if port > 65535 then 65535 else port
  }

  /** A parse: a URI, a refusal, or the exception of the number conversion. */
  datatype Outcome = Parsed(uri: Uri) | Refused | Threw

  /** A port behind a colon. */
  function ParsePort(u: Uri, digits: string): Outcome {
    match Stoi(digits)
    case NotANumber => Threw
    case Number(p) => Parsed(u.(port := Clamped(p)))
  }

  /** An IPv6 host, in brackets. */
  function ParseBracketed(u: Uri, host: string): Outcome {
    var close := FindOf(host, {']'});
    if close == |host| then Refused
    else
      var u1 := u.(host := host[..close + 1]);
      var rest := host[close + 1..];
      if rest != "" && rest[0] == ':' then ParsePort(u1, rest[1..]) else Parsed(u1)
  }

  function ParsePlain(u: Uri, host: string): Outcome {
    var colon := FindLast(host, ':');
    if colon == |host| then Parsed(u.(host := host))
    else ParsePort(u.(host := host[..colon]), host[colon + 1..])
  }

  function ParseHost(u: Uri, host: string): Outcome {
    if host != "" && host[0] == '[' then ParseBracketed(u, host) else ParsePlain(u, host)
  }

  /** The part between "//" and the path. */
  function ParseAuthority(u: Uri, text: string): Outcome {
    var at := FindOf(text, {'@'});
    if at < |text| then ParseHost(u.(auth := text[..at]), text[at + 1..]) else ParseHost(u, text)
  }

  /** Query and fragment, with the character that announces them. */
  function ParseTail(u: Uri, text: string): Uri
    requires text != ""
  {
    if text[0] == '?' then
      var hash := FindOf(text, {'#'});
      var u1 := u.(query := text[1..hash]);
      if hash == |text| then u1 else u1.(fragment := text[hash + 1..])
    else u.(fragment := text[1..])
  }

  /** Path, query and fragment. */
  function ParseRest(u: Uri, text: string): Uri {
    var pos := FindOf(text, {'?', '#'});
    var u1 := u.(path := text[..pos]);
    if pos == |text| then u1 else ParseTail(u1, text[pos..])
  }

  function ParseUri(text: string): Outcome {
    var pos := FindColonSlash(text);
    if pos == |text| then Refused
    else
      var u := Empty.(scheme := text[..pos]);
      var rest := text[pos + 2..];
      if rest == "" then Refused
      else if rest[0] == '/' then
        var authority := rest[1..];
        var end := FindOf(authority, {'/', '?', '#'});
        match ParseAuthority(u, authority[..end])
        case Parsed(v) => Parsed(ParseRest(v, authority[end..]))
        case other => other
      else Parsed(ParseRest(u, rest))
  }

  function ToText(u: Uri): string {
    SchemePart(u) + AuthPart(u) + u.host + PortText(u.port) + u.path + QueryPart(u) + FragmentPart(u)
  }

  function SchemePart(u: Uri): string { if u.scheme != "" then u.scheme + "://" else "" }

  function AuthPart(u: Uri): string { if u.auth != "" then u.auth + "@" else "" }

  function QueryPart(u: Uri): string { if u.query != "" then "?" + u.query else "" }

  function FragmentPart(u: Uri): string { if u.fragment != "" then "#" + u.fragment else "" }

  function PortText(port: int): string {
    if port == -1 then ""
    else if port < 0 then ":-" + Decimal(-port)
    else ":" + Decimal(port)
  }

  function AuthorityText(u: Uri): string { AuthPart(u) + u.host + PortText(u.port) }

  function RestText(u: Uri): string { u.path + QueryPart(u) + FragmentPart(u) }

  // ---------------------------------------------------------------- round trip

  predicate FreeOf(s: string, cs: set<char>) { forall i :: 0 <= i < |s| ==> s[i] !in cs }

  predicate IsBracketed(host: string) {
    |host| >= 2 && host[0] == '[' && host[|host| - 1] == ']' && FreeOf(host[..|host| - 1], {']'})
  }

  /** URIs that are printed without ambiguity. */
  predicate WellFormed(u: Uri) {
    && u.scheme != "" && (forall i :: 0 <= i < |u.scheme| ==> !ColonSlash(u.scheme, i))
    && FreeOf(u.auth, {'/', '?', '#', '@'})
    && FreeOf(u.host, {'/', '?', '#', '@'})
    && (IsBracketed(u.host) || (FreeOf(u.host, {':'}) && (u.host != "" ==> u.host[0] != '[')))
    && -1 <= u.port <= 65535
    && (u.path != "" ==> u.path[0] == '/') && FreeOf(u.path, {'?', '#'})
    && FreeOf(u.query, {'#'})
  }

  /**
    * URIs that are read back from their text: as above, and an '@' may stand in the host if there is
    * an authentication part in front of it, a ':' if there is a port behind it.
    */
  predicate ReadsBack(u: Uri) {
    && u.scheme != "" && (forall i :: 0 <= i < |u.scheme| ==> !ColonSlash(u.scheme, i))
    && FreeOf(u.auth, {'/', '?', '#', '@'})
    && FreeOf(u.host, {'/', '?', '#'}) && (u.auth == "" ==> FreeOf(u.host, {'@'}))
    && (IsBracketed(u.host) || ((u.port == -1 ==> FreeOf(u.host, {':'})) && (u.host != "" ==> u.host[0] != '[')))
    && -1 <= u.port <= 65535
    && (u.path != "" ==> u.path[0] == '/') && FreeOf(u.path, {'?', '#'})
    && FreeOf(u.query, {'#'})
  }

  lemma WellFormedReadsBack(u: Uri)
    requires WellFormed(u)
    ensures ReadsBack(u)
  {
  }

  /** The first of some characters in a text free of them up to there. */
  lemma FirstIs(a: string, b: string, cs: set<char>)
    requires FreeOf(a, cs) && (b != "" ==> b[0] in cs)
    ensures FindOf(a + b, cs) == |a|
    ensures (a + b)[..|a|] == a && (a + b)[|a|..] == b
  {
    assert forall i :: 0 <= i < |a| ==> (a + b)[i] == a[i];
    assert b != "" ==> (a + b)[|a|] == b[0];
  }

  lemma TailReadBack(u: Uri, v: Uri)
    requires FreeOf(u.query, {'#'}) && v.query == "" && v.fragment == ""
    requires QueryPart(u) + FragmentPart(u) != ""
    ensures ParseTail(v, QueryPart(u) + FragmentPart(u)) == v.(query := u.query, fragment := u.fragment)
  {
    hide FindOf;
    var q, f := QueryPart(u), FragmentPart(u);
    if u.query != "" {
      assert FreeOf(q, {'#'});
      FirstIs(q, f, {'#'});
      assert (q + f)[1..|q|] == u.query;
      if u.fragment != "" {
        assert (q + f)[|q| + 1..] == u.fragment;
      }
    } else {
      assert q + f == f && f[1..] == u.fragment;
    }
  }

  lemma RestReadBack(u: Uri, v: Uri)
    requires FreeOf(u.path, {'?', '#'}) && FreeOf(u.query, {'#'})
    requires v.query == "" && v.fragment == ""
    ensures ParseRest(v, RestText(u)) == v.(path := u.path, query := u.query, fragment := u.fragment)
  {
    hide FindOf, ParseTail;
    var t := QueryPart(u) + FragmentPart(u);
    assert RestText(u) == u.path + t;
    FirstIs(u.path, t, {'?', '#'});
    if t != "" {
      TailReadBack(u, v.(path := u.path));
    } else {
      assert u.query == "" && u.fragment == "";
    }
  }

  lemma PortReadBack(port: int)
    requires 0 <= port <= 65535
    ensures PortText(port) == ":" + Decimal(port)
    ensures Stoi(PortText(port)[1..]) == Number(port) && Clamped(port) == port
    ensures forall i :: 1 <= i < |PortText(port)| ==> PortText(port)[i] != ':'
  {
    StoiOfDecimal(port);
    assert (":" + Decimal(port))[1..] == Decimal(port);
  }

  lemma BracketedReadBack(u: Uri, v: Uri)
    requires ReadsBack(u) && v.port == -1 && IsBracketed(u.host)
    ensures ParseBracketed(v, u.host + PortText(u.port)) == Parsed(v.(host := u.host, port := u.port))
  {
    hide Stoi, Decimal, FindOf;
    var p := PortText(u.port);
    if u.port >= 0 {
      PortReadBack(u.port);
    }
    hide PortText;
    var inner := u.host[..|u.host| - 1];
    assert u.host + p == inner + ("]" + p);
    FirstIs(inner, "]" + p, {']'});
    assert (u.host + p)[..|u.host|] == u.host && (u.host + p)[|u.host|..] == p;
    if u.port == -1 {
      NoPort();
    }
  }

  lemma PlainReadBack(u: Uri, v: Uri)
    requires ReadsBack(u) && v.port == -1 && (u.port == -1 ==> FreeOf(u.host, {':'}))
    ensures ParsePlain(v, u.host + PortText(u.port)) == Parsed(v.(host := u.host, port := u.port))
  {
    hide Stoi, Decimal, FindLast;
    var p := PortText(u.port);
    if u.port == -1 {
      NoColon(u.host);
      assert u.host + p == u.host;
    } else {
      PortReadBack(u.port);
      LastColon(u.host, p);
      assert (u.host + p)[..|u.host|] == u.host && (u.host + p)[|u.host| + 1..] == p[1..];
    }
  }

  /** Host and port without the authentication part. */
  lemma HostReadBack(u: Uri, v: Uri)
    requires ReadsBack(u) && v.port == -1
    ensures ParseHost(v, u.host + PortText(u.port)) == Parsed(v.(host := u.host, port := u.port))
  {
    hide ParseBracketed, ParsePlain;
    if IsBracketed(u.host) {
      BracketedReadBack(u, v);
    } else {
      PlainReadBack(u, v);
      PortStart(u.port);
    }
  }

  lemma PortStart(port: int)
    ensures PortText(port) != "" ==> PortText(port)[0] == ':'
  {
  }

  lemma NoColon(host: string)
    requires FreeOf(host, {':'})
    ensures FindLast(host, ':') == |host|
  {
  }

  lemma LastColon(host: string, p: string)
    requires p != "" && p[0] == ':' && forall i :: 1 <= i < |p| ==> p[i] != ':'
    ensures FindLast(host + p, ':') == |host|
  {
    var r := FindLast(host + p, ':');
    assert (host + p)[|host|] == ':';
  }

  lemma PortFree(u: Uri, cs: set<char>)
    requires -1 <= u.port && FreeOf(u.host, cs) && cs <= {'/', '?', '#', '@', ']'}
    ensures FreeOf(u.host + PortText(u.port), cs)
  {
  }

  lemma NoneFound(s: string, cs: set<char>)
    requires FreeOf(s, cs)
    ensures FindOf(s, cs) == |s|
  {
  }

  lemma AuthorityReadBack(u: Uri, v: Uri)
    requires ReadsBack(u) && v.port == -1 && v.auth == "" && v.host == ""
    ensures ParseAuthority(v, AuthorityText(u)) == Parsed(v.(auth := u.auth, host := u.host, port := u.port))
  {
    hide FindOf, ParseHost, PortText;
    var rest := u.host + PortText(u.port);
    var text := AuthorityText(u);
    if u.auth == "" {
      PortFree(u, {'@'});
      NoneFound(rest, {'@'});
      assert text == rest;
      HostReadBack(u, v);
    } else {
      assert text == u.auth + ("@" + rest);
      FirstIs(u.auth, "@" + rest, {'@'});
      assert text[|u.auth| + 1..] == rest;
      HostReadBack(u, v.(auth := u.auth));
    }
  }

  lemma SchemeFound(scheme: string, rest: string)
    requires forall i :: 0 <= i < |scheme| ==> !ColonSlash(scheme, i)
    ensures FindColonSlash(scheme + "://" + rest) == |scheme|
    ensures (scheme + "://" + rest)[..|scheme|] == scheme
    ensures (scheme + "://" + rest)[|scheme| + 2..] == "/" + rest
  {
    var s := scheme + "://" + rest;
    assert ColonSlash(s, |scheme|);
    forall i | 0 <= i < |scheme| ensures !ColonSlash(s, i) {
      if i + 1 < |scheme| {
        assert s[i] == scheme[i] && s[i + 1] == scheme[i + 1];
        assert !ColonSlash(scheme, i);
      } else {
        assert s[i + 1] == ':';
      }
    }
    var r := FindColonSlash(s);
    assert !(r < |scheme|);
    assert !(r > |scheme|);
  }

  lemma ReadBack(u: Uri)
    requires ReadsBack(u)
    ensures ParseUri(ToText(u)) == Parsed(u)
  {
    hide FindOf, FindColonSlash, ParseAuthority, ParseRest, PortText;
    var a, r := AuthorityText(u), RestText(u);
    Regrouped(u);
    SchemeFound(u.scheme, a + r);
    assert ("/" + (a + r))[1..] == a + r;
    AuthorityFree(u);
    RestStart(u);
    FirstIs(a, r, {'/', '?', '#'});
    var v := Empty.(scheme := u.scheme);
    AuthorityReadBack(u, v);
    RestReadBack(u, v.(auth := u.auth, host := u.host, port := u.port));
  }

  lemma Regrouped(u: Uri)
    requires u.scheme != ""
    ensures ToText(u) == u.scheme + "://" + (AuthorityText(u) + RestText(u))
  {
    hide PortText, AuthPart, QueryPart, FragmentPart;
    var s, a, p, q, f := u.scheme + "://", AuthPart(u), PortText(u.port), QueryPart(u), FragmentPart(u);
    Associate(s, a, u.host, p);
    Associate(s + (a + u.host + p), u.path, q, f);
    Associate(s, a + u.host + p, u.path + q + f, "");
    assert u.path + q + f + "" == u.path + q + f;
  }

  lemma Associate(a: string, b: string, c: string, d: string)
    ensures a + b + c + d == a + (b + c + d)
  {
  }

  lemma AuthorityFree(u: Uri)
    requires FreeOf(u.auth, {'/', '?', '#'}) && FreeOf(u.host, {'/', '?', '#'}) && -1 <= u.port
    ensures FreeOf(AuthorityText(u), {'/', '?', '#'})
  {
    hide PortText;
    PortFree(u, {'/', '?', '#'});
    var rest := u.host + PortText(u.port);
    if u.auth != "" {
      assert AuthorityText(u) == u.auth + ("@" + rest);
    } else {
      assert AuthorityText(u) == rest;
    }
  }

  lemma RestStart(u: Uri)
    requires u.path != "" ==> u.path[0] == '/'
    ensures RestText(u) != "" ==> RestText(u)[0] in {'/', '?', '#'}
  {
  }

  // ---------------------------------------------------------------- what a parse can give

  /** What a parse of the authority can set. */
  predicate AuthorityOut(u: Uri) {
    && FreeOf(u.auth, {'/', '?', '#', '@'}) && FreeOf(u.host, {'/', '?', '#'}) && -1 <= u.port <= 65535
  }

  lemma PortOut(v: Uri, digits: string)
    requires ParsePort(v, digits).Parsed?
    ensures var u := ParsePort(v, digits).uri; u == v.(port := u.port) && -1 <= u.port <= 65535
  {
    hide Stoi;
  }

  lemma HostOut(v: Uri, text: string)
    requires ParseHost(v, text).Parsed? && FreeOf(text, {'/', '?', '#'}) && v.port == -1
    ensures var u := ParseHost(v, text).uri;
      && u == v.(host := u.host, port := u.port) && -1 <= u.port <= 65535
      && u.host <= text && FreeOf(u.host, {'/', '?', '#'})
  {
    hide Stoi, FindOf, FindLast, ParsePort;
    if text != "" && text[0] == '[' {
      var close := FindOf(text, {']'});
      var v1 := v.(host := text[..close + 1]);
      var rest := text[close + 1..];
      if rest != "" && rest[0] == ':' {
        PortOut(v1, rest[1..]);
      }
    } else {
      var colon := FindLast(text, ':');
      if colon < |text| {
        PortOut(v.(host := text[..colon]), text[colon + 1..]);
      }
    }
  }

  lemma AuthorityOutIs(v: Uri, text: string)
    requires ParseAuthority(v, text).Parsed? && FreeOf(text, {'/', '?', '#'})
    requires v.auth == "" && v.port == -1
    ensures var u := ParseAuthority(v, text).uri;
      AuthorityOut(u) && u == v.(auth := u.auth, host := u.host, port := u.port)
  {
    hide FindOf, ParseHost;
    var at := FindOf(text, {'@'});
    if at < |text| {
      HostOut(v.(auth := text[..at]), text[at + 1..]);
    } else {
      HostOut(v, text);
    }
  }

  /** The rest is never longer than what it is parsed from, and its parts end where they should. */
  lemma RestOut(v: Uri, text: string)
    requires v.query == "" && v.fragment == ""
    ensures var u := ParseRest(v, text);
      && u == v.(path := u.path, query := u.query, fragment := u.fragment)
      && u.path <= text && FreeOf(u.path, {'?', '#'}) && FreeOf(u.query, {'#'})
      && |RestText(u)| <= |text|
  {
    hide FindOf;
    var pos := FindOf(text, {'?', '#'});
    if pos < |text| && text[pos] == '?' {
      var t := text[pos..];
      var hash := FindOf(t, {'#'});
      assert forall i :: 1 <= i < hash ==> t[i] !in {'#'};
      assert FreeOf(t[1..hash], {'#'});
    }
  }

  // ---------------------------------------------------------------- the condition is necessary

  lemma SchemeFree(t: string, pos: nat)
    requires pos == FindColonSlash(t)
    ensures forall i :: 0 <= i < pos ==> !ColonSlash(t[..pos], i)
  {
    hide FindColonSlash;
    forall i | 0 <= i < pos ensures !ColonSlash(t[..pos], i) {
      assert !ColonSlash(t, i);
    }
  }

  lemma AuthorityCase(v: Uri, authority: string, u: Uri)
    requires v.auth == "" && v.port == -1 && v.query == "" && v.fragment == ""
    requires var end := FindOf(authority, {'/', '?', '#'}); var p := ParseAuthority(v, authority[..end]);
      p.Parsed? && u == ParseRest(p.uri, authority[end..])
    ensures AuthorityOut(u) && u.scheme == v.scheme && |RestText(u)| <= |authority|
  {
    hide FindOf, ParseAuthority, ParseRest, RestText;
    var end := FindOf(authority, {'/', '?', '#'});
    assert FreeOf(authority[..end], {'/', '?', '#'});
    AuthorityOutIs(v, authority[..end]);
    RestOut(ParseAuthority(v, authority[..end]).uri, authority[end..]);
  }

  /** What a parsed text looks like around the first ":/", at `pos`. */
  predicate Opens(t: string, pos: nat, u: Uri) {
    && pos + 2 < |t| && u.scheme == t[..pos]
    && (if t[pos + 2] == '/' then AuthorityOut(u) && |RestText(u)| <= |t| - pos - 3
        else u.auth == "" && u.host == "" && u.port == -1 && |RestText(u)| <= |t| - pos - 2)
  }

  /** The scheme is what precedes the first ":/"; what is behind it is too short to hold it again. */
  lemma SchemeOut(t: string, u: Uri)
    requires ParseUri(t) == Parsed(u)
    ensures Opens(t, FindColonSlash(t), u)
  {
    hide FindOf, FindColonSlash, ParseAuthority, ParseRest, RestText, AuthorityOut, ColonSlash;
    var pos := FindColonSlash(t);
    FirstColonSlash(t);
    var v := Empty.(scheme := t[..pos]);
    var rest := t[pos + 2..];
    if rest[0] == '/' {
      AuthorityCase(v, rest[1..], u);
      assert t[pos + 2] == '/';
    } else {
      RestOut(v, rest);
    }
  }

  /** Without a scheme the text cannot start with the ":/" that the parser needs there. */
  lemma SchemeNeeded(u: Uri)
    requires ParseUri(ToText(u)) == Parsed(u)
    ensures u.scheme != ""
  {
    hide ParseUri, ToText, RestText, AuthorityText, AuthorityOut, FindColonSlash;
    if u.scheme == "" {
      SchemeOut(ToText(u), u);
      FirstColonSlash(ToText(u));
      TextLength(u);
      if ToText(u)[2] == '/' {
        SlashSecond(u);
      } else {
        NoAuthority(u);
      }
      assert false;
    }
  }

  lemma FirstColonSlash(t: string)
    requires FindColonSlash(t) < |t|
    ensures FindColonSlash(t) + 1 < |t| && t[FindColonSlash(t)] == ':' && t[FindColonSlash(t) + 1] == '/'
  {
    hide FindColonSlash;
  }

  lemma NoAuthority(u: Uri)
    requires u.auth == "" && u.host == "" && u.port == -1
    ensures AuthorityText(u) == ""
  {
  }

  lemma TextLength(u: Uri)
    requires u.scheme == ""
    ensures ToText(u) == AuthorityText(u) + RestText(u)
  {
    hide PortText, AuthPart, QueryPart, FragmentPart;
    var a, p, q, f := AuthPart(u), PortText(u.port), QueryPart(u), FragmentPart(u);
    assert "" + a == a;
    Associate(a + u.host + p, u.path, q, f);
  }

  /** A ':' and a '/' in front of the text come from the path at the latest. */
  lemma SlashSecond(u: Uri)
    requires AuthorityOut(u) && |AuthorityText(u) + RestText(u)| >= 2
    requires (AuthorityText(u) + RestText(u))[0] == ':' && (AuthorityText(u) + RestText(u))[1] == '/'
    ensures |AuthorityText(u)| <= 1
  {
    var a := AuthorityText(u);
    if |a| > 1 {
      assert a[1] == (a + RestText(u))[1];
      AuthorityFree(u);
      assert false;
    }
  }

  /** With a scheme the parser finds authority and rest where the printer put them. */
  lemma PartsFound(u: Uri)
    requires ParseUri(ToText(u)) == Parsed(u) && u.scheme != ""
    ensures forall i :: 0 <= i < |u.scheme| ==> !ColonSlash(u.scheme, i)
    ensures AuthorityOut(u) && FreeOf(u.path, {'?', '#'}) && FreeOf(u.query, {'#'})
    ensures u.path != "" ==> u.path[0] == '/'
    ensures ParseAuthority(Empty.(scheme := u.scheme), AuthorityText(u))
      == Parsed(Empty.(scheme := u.scheme, auth := u.auth, host := u.host, port := u.port))
  {
    hide FindOf, FindColonSlash, ParseAuthority, ParseRest, PortText;
    Regrouped(u);
    var a, r, t := AuthorityText(u), RestText(u), ToText(u);
    var pos := FindColonSlash(t);
    SchemeOut(t, u);
    SchemeFree(t, pos);
    assert pos == |u.scheme|;
    SchemeFound(u.scheme, a + r);
    var v := Empty.(scheme := u.scheme);
    assert ("/" + (a + r))[1..] == a + r;
    var end := FindOf(a + r, {'/', '?', '#'});
    var text, tail := (a + r)[..end], (a + r)[end..];
    var w := ParseAuthority(v, text);
    AuthorityOutIs(v, text);
    RestOut(w.uri, tail);
    AuthorityFree(u);
    RestStart(u);
    FirstIs(a, r, {'/', '?', '#'});
  }

  /** A host and port that are read back from their text are as they have to be. */
  lemma HostNeeded(u: Uri, v: Uri)
    requires ParseHost(v, u.host + PortText(u.port)) == Parsed(v.(host := u.host, port := u.port))
    requires v.port == -1 && -1 <= u.port
    ensures IsBracketed(u.host) || ((u.port == -1 ==> FreeOf(u.host, {':'})) && (u.host != "" ==> u.host[0] != '['))
  {
    hide FindOf, FindLast, ParsePort, PortText, Stoi;
    var t := u.host + PortText(u.port);
    PortStart(u.port);
    NoPort();
    if t != "" && t[0] == '[' {
      var close := FindOf(t, {']'});
      BracketedOut(v, t, close);
      assert u.host == t[..close + 1];
      assert FreeOf(t[..close], {']'});
      assert u.host[..|u.host| - 1] == t[..close];
    } else {
      assert u.host != "" ==> u.host[0] == t[0];
      if u.port == -1 {
        assert t == u.host;
        PlainOut(v, t);
      }
    }
  }

  lemma BracketedOut(v: Uri, text: string, close: nat)
    requires close == FindOf(text, {']'}) && ParseBracketed(v, text).Parsed?
    ensures close < |text| && ParseBracketed(v, text).uri.host == text[..close + 1]
  {
    hide FindOf, Stoi, Clamped;
  }

  lemma PlainOut(v: Uri, text: string)
    requires ParsePlain(v, text).Parsed? && ParsePlain(v, text).uri.host == text
    ensures FreeOf(text, {':'})
  {
    hide FindLast, ParsePort;
    var colon := FindLast(text, ':');
    if colon < |text| {
      PortOut(v.(host := text[..colon]), text[colon + 1..]);
    }
  }

  /** Without authentication part there is no '@' in a host that is read back. */
  lemma NoAtNeeded(u: Uri, v: Uri)
    requires AuthorityOut(u) && u.auth == "" && v.auth == "" && v.port == -1
    requires ParseAuthority(v, AuthorityText(u)) == Parsed(v.(auth := u.auth, host := u.host, port := u.port))
    ensures FreeOf(u.host, {'@'})
  {
    hide FindOf, ParseHost, PortText;
    var t := u.host + PortText(u.port);
    assert AuthorityText(u) == t;
    var at := FindOf(t, {'@'});
    PortStart(u.port);
    if at < |t| {
      PortFree(u, {'/', '?', '#'});
      HostOut(v.(auth := t[..at]), t[at + 1..]);
      assert t[..at] == "" && at == 0;
      PortFree(u.(host := ""), {'@'});
      assert "" + PortText(u.port) == PortText(u.port);
      assert u.host != "" && u.host[0] == '@';
      assert t[1..] == u.host[1..] + PortText(u.port);
      HostShorter(u, v);
      assert false;
    } else {
      assert forall i :: 0 <= i < |u.host| ==> u.host[i] == t[i];
    }
  }

  /** What follows an '@' in front of the host is not parsed as the same host again. */
  lemma HostShorter(u: Uri, v: Uri)
    requires AuthorityOut(u) && u.host != "" && u.host[0] == '@'
    ensures var p := ParseHost(v, u.host[1..] + PortText(u.port));
      p.Parsed? ==> p.uri.host != u.host
  {
    hide FindOf, FindLast, Stoi, ParsePort;
    var h := u.host[1..];
    var t := h + PortText(u.port);
    if u.port >= 0 {
      PortReadBack(u.port);
    }
    if t != "" && t[0] == '[' {
      if ParseBracketed(v, t).Parsed? {
        BracketedOut(v, t, FindOf(t, {']'}));
      }
    } else {
      var colon := FindLast(t, ':');
      if u.port >= 0 {
        LastColon(h, PortText(u.port));
      } else {
        NoPort();
        assert t == h;
      }
      if colon < |t| && ParsePlain(v, t).Parsed? {
        PortOut(v.(host := t[..colon]), t[colon + 1..]);
      }
    }
  }

  lemma NeedsAll(u: Uri)
    requires ParseUri(ToText(u)) == Parsed(u)
    ensures ReadsBack(u)
  {
    hide ParseUri, ToText, ParseAuthority, ParseHost, FindOf, PortText, IsBracketed;
    SchemeNeeded(u);
    PartsFound(u);
    var v := Empty.(scheme := u.scheme);
    if u.auth == "" {
      NoAtNeeded(u, v);
    }
    HostPart(u, v);
    HostNeeded(u, v.(auth := u.auth));
  }

  /** Behind the authentication part, host and port are parsed by themselves. */
  lemma HostPart(u: Uri, v: Uri)
    requires AuthorityOut(u) && (u.auth == "" ==> FreeOf(u.host, {'@'}))
    ensures ParseAuthority(v, AuthorityText(u)) ==
      ParseHost(if u.auth == "" then v else v.(auth := u.auth), u.host + PortText(u.port))
  {
    hide FindOf, ParseHost, PortText;
    var rest := u.host + PortText(u.port);
    var text := AuthorityText(u);
    if u.auth == "" {
      PortFree(u, {'@'});
      NoneFound(rest, {'@'});
      assert text == rest;
    } else {
      assert text == u.auth + ("@" + rest);
      FirstIs(u.auth, "@" + rest, {'@'});
      assert text[|u.auth| + 1..] == rest;
    }
  }

  // ---------------------------------------------------------------- the laws

  /** A URI is read back from its text, field by field, if and only if the condition holds. */
  lemma RoundTrip(u: Uri)
    ensures ParseUri(ToText(u)) == Parsed(u) <==> ReadsBack(u)
  {
    hide ParseUri, ToText, ReadsBack;
    if ReadsBack(u) {
      ReadBack(u);
    }
    if ParseUri(ToText(u)) == Parsed(u) {
      NeedsAll(u);
    }
  }

  /** So every well-formed URI is. */
  lemma WellFormedRoundTrip(u: Uri)
    requires WellFormed(u)
    ensures ParseUri(ToText(u)) == Parsed(u)
  {
    hide ParseUri, ToText;
    WellFormedReadsBack(u);
    ReadBack(u);
  }

  /** Different URIs that are read back have different texts. */
  lemma ToTextInjective(u: Uri, v: Uri)
    requires ReadsBack(u) && ReadsBack(v) && ToText(u) == ToText(v)
    ensures u == v
  {
    hide ParseUri, ToText, ReadsBack;
    ReadBack(u);
    ReadBack(v);
  }

  /** A single slash makes no authority, and the slash is no part of the path: such a text is not read back. */
  lemma SingleSlash(scheme: string, path: string)
    requires scheme != "" && (forall i :: 0 <= i < |scheme| ==> !ColonSlash(scheme, i)) && scheme[|scheme| - 1] != ':'
    requires path != "" && path[0] != '/' && FreeOf(path, {'?', '#'})
    ensures ParseUri(scheme + ":/" + path) == Parsed(Empty.(scheme := scheme, path := path))
    ensures var u := Empty.(scheme := scheme, path := path); ParseUri(ToText(u)) != Parsed(u)
  {
    var s := scheme + ":/" + path;
    assert ColonSlash(s, |scheme|);
    forall i | 0 <= i < |scheme| ensures !ColonSlash(s, i) {
      if i + 1 < |scheme| {
        assert s[i] == scheme[i] && s[i + 1] == scheme[i + 1];
        assert !ColonSlash(scheme, i);
      } else {
        assert s[i] == scheme[|scheme| - 1];
      }
    }
    var r := FindColonSlash(s);
    assert r == |scheme| by {
      assert !(r < |scheme|);
      assert !(r > |scheme|);
    }
    assert s[..r] == scheme && s[r + 2..] == path;
    NoneFound(path, {'?', '#'});
    assert path[..|path|] == path;
    hide ToText, ParseUri;
    RoundTrip(Empty.(scheme := scheme, path := path));
  }

  // ---------------------------------------------------------------- the object

  /** How a call of the parser ends. */
  datatype Status = Ok | Bad | Exception

  class UriObject {
    var scheme: string
    var auth: string
    var host: string
    var port: int
    var path: string
    var query: string
    var fragment: string

    function View(): Uri
      reads this
    {
      Uri(scheme, auth, host, port, path, query, fragment)
    }

    constructor ()
      ensures View() == Empty
    {
      scheme, auth, host, port, path, query, fragment := "", "", "", -1, "", "", "";
    }

    method SetPort(p: int)
      modifies this`port
      ensures port == if p > 65535 then 65535 else if p < -1 then -1 else p
    {
      var low := if p < 65535 then p else 65535;
      port := if -1 < low then low else -1;
    }

    /** The port behind the colon, by the library's number conversion. */
    method ReadPort(digits: string) returns (st: Status)
      modifies this`port
      ensures match Stoi(digits)
        case NotANumber => st == Exception && port == old(port)
        case Number(p) => st == Ok && port == Clamped(p)
    {
      match Stoi(digits) {
        case NotANumber => return Exception;
        case Number(p) =>
          SetPort(p);
          return Ok;
      }
    }

    /** Narrows the authority to its host while setting authentication, host and port. */
    method ReadAuthority(authority: string) returns (st: Status)
      modifies this
      ensures var r := ParseAuthority(old(View()), authority);
        (r.Parsed? <==> st.Ok?) && (r.Refused? <==> st.Bad?) && (r.Parsed? ==> View() == r.uri)
    {
      hide FindOf, FindLast, Stoi;
      var h := authority;
      var pos := FindOf(h, {'@'});
      if pos < |h| {
        auth := h[..pos];
        h := h[pos + 1..];
      }
      if h != "" && h[0] == '[' {
        pos := FindOf(h, {']'});
        if pos == |h| {
          return Bad;
        }
        host := h[..pos + 1];
        h := h[pos + 1..];
        if h != "" && h[0] == ':' {
          h := h[1..];
          st := ReadPort(h);
          return;
        }
      } else {
        pos := FindLast(h, ':');
        if pos != |h| {
          st := ReadPort(h[pos + 1..]);
          if st.Exception? {
            return;
          }
          h := h[..pos];
        }
        host := h;
      }
      return Ok;
    }

    /** Narrows the text behind the authority while setting path, query and fragment. */
    method ReadRest(text: string)
      modifies this
      ensures View() == ParseRest(old(View()), text)
    {
      hide FindOf;
      var str := text;
      var pos := FindOf(str, {'?', '#'});
      path := str[..pos];
      if pos == |str| {
        return;
      }
      str := str[pos..];
      if str[0] == '?' {
        pos := FindOf(str, {'#'});
        query := str[1..pos];
        if pos == |str| {
          return;
        }
        str := str[pos..];
      }
      str := str[1..];
      fragment := str;
    }

    /** Narrows the text from the scheme to the fragment while setting the fields. */
    method ParseInto(text: string) returns (st: Status)
      requires View() == Empty
      modifies this
      ensures var r := ParseUri(text);
        (r.Parsed? <==> st.Ok?) && (r.Refused? <==> st.Bad?) && (r.Parsed? ==> View() == r.uri)
    {
      hide FindOf, FindColonSlash, ParseAuthority, ParseRest;
      var str := text;
      var pos := FindColonSlash(str);
      if pos == |str| {
        return Bad;
      }
      scheme := str[..pos];
      str := str[pos + 2..];
      if str == "" {
        return Bad;
      }
      if str[0] == '/' {
        str := str[1..];
        var end := FindOf(str, {'/', '?', '#'});
        var authority := str[..end];
        str := str[end..];
        st := ReadAuthority(authority);
        if !st.Ok? {
          return;
        }
      }
      ReadRest(str);
      return Ok;
    }

    /** Appends the parts that are there. */
    method ToString() returns (res: string)
      ensures res == ToText(View())
    {
      ghost var u := View();
      hide PortText;
      res := "";
      if scheme != "" {
        res := res + (scheme + "://");
      }
      assert res == SchemePart(u);
      if auth != "" {
        res := res + (auth + "@");
      }
      assert res == SchemePart(u) + AuthPart(u);
      if host != "" {
        res := res + host;
      }
      NoPort();
      hide SchemePart, AuthPart;
      assert res == SchemePart(u) + AuthPart(u) + u.host;
      if port != -1 {
        res := res + PortText(port);
      }
      assert res == SchemePart(u) + AuthPart(u) + u.host + PortText(u.port);
      ghost var front := res;
      if path != "" {
        res := res + path;
      }
      assert res == front + u.path;
      if query != "" {
        res := res + ("?" + query);
      }
      assert res == front + u.path + QueryPart(u);
      if fragment != "" {
        res := res + ("#" + fragment);
      }
      assert res == front + u.path + QueryPart(u) + FragmentPart(u);
    }
  }

  lemma NoPort()
    ensures PortText(-1) == ""
  {
  }

  /** Printing a URI and parsing the text gives it back exactly if it is one that reads back. */
  method Reparse(u: Uri) returns (v: UriObject, st: Status)
    ensures st.Ok? && v.View() == u <==> ReadsBack(u)
  {
    hide ReadsBack, ParseUri, ToText;
    var w := new UriObject();
    w.scheme, w.auth, w.host, w.port, w.path, w.query, w.fragment :=
      u.scheme, u.auth, u.host, u.port, u.path, u.query, u.fragment;
    var text := w.ToString();
    RoundTrip(u);
    v := new UriObject();
    st := v.ParseInto(text);
  }
}
