/**
  * What the URI parser makes of every text, told from the parts the text is put together of: refusals
  * and exceptions, hosts in brackets and without, ports of any spelling, and all the other texts that
  * the printer never writes.
  */
module UriParts {
  import opened Uri

  // ---------------------------------------------------------------- numbers

  predicate AllSpace(s: string) { forall i :: 0 <= i < |s| ==> s[i] in {' ', '\t', '\n', '\r', '\U{b}', '\U{c}'} }

  predicate NoDigitFirst(s: string) { s == "" || !('0' <= s[0] <= '9') }

  /** A number of 32 bits, or the exception. */
  function Ranged(v: int): Number { if -2147483648 <= v <= 2147483647 then Number(v) else NotANumber }

  lemma {:induction false} SpaceSkipped(space: string, s: string)
    requires AllSpace(space) && (s == "" || !IsSpace(s[0]))
    ensures SkipSpace(space + s) == s
  {
    if space == "" {
      assert space + s == s;
    } else {
      assert (space + s)[0] == space[0] && (space + s)[1..] == space[1..] + s;
      SpaceSkipped(space[1..], s);
    }
  }

  lemma {:induction false} DigitsThenJunk(acc: nat, digits: string, junk: string)
    requires (forall i :: 0 <= i < |digits| ==> IsDigit(digits[i])) && NoDigitFirst(junk)
    ensures DigitsValue(acc, digits + junk) == DigitsValue(acc, digits)
    decreases |digits|
  {
    if digits == "" {
      assert digits + junk == junk;
    } else {
      assert (digits + junk)[0] == digits[0] && (digits + junk)[1..] == digits[1..] + junk;
      DigitsThenJunk(10 * acc + (digits[0] - '0') as nat, digits[1..], junk);
    }
  }

  /** White space, a sign or none, the digits of a number and anything that is no digit. */
  lemma NumberOf(space: string, n: nat, junk: string)
    requires AllSpace(space) && NoDigitFirst(junk)
    ensures Stoi(space + (Decimal(n) + junk)) == Ranged(n)
    ensures Stoi(space + ("+" + (Decimal(n) + junk))) == Ranged(n)
    ensures Stoi(space + ("-" + (Decimal(n) + junk))) == Ranged(-(n as int))
  {
    hide Decimal, DigitsValue, SkipSpace;
    var t := Decimal(n) + junk;
    assert IsDigit(Decimal(n)[0]) && t[0] == Decimal(n)[0];
    DecimalValue(n);
    DigitsThenJunk(0, Decimal(n), junk);
    SpaceSkipped(space, t);
    SpaceSkipped(space, "+" + t);
    SpaceSkipped(space, "-" + t);
    assert ("+" + t)[1..] == t && ("-" + t)[1..] == t;
  }

  /** Without a digit where one has to be there is the exception. */
  lemma NoNumber(space: string, sign: string, junk: string)
    requires AllSpace(space) && sign in {"", "+", "-"} && NoDigitFirst(junk)
    requires sign == "" ==> junk == "" || (junk[0] !in {'+', '-'} && !IsSpace(junk[0]))
    ensures Stoi(space + (sign + junk)) == NotANumber
  {
    hide SkipSpace, DigitsValue;
    SpaceSkipped(space, sign + junk);
    if sign == "" {
      assert sign + junk == junk;
    } else {
      assert (sign + junk)[0] == sign[0] && (sign + junk)[1..] == junk;
    }
  }

  lemma {:induction false} DecimalExamples()
    ensures Decimal(0) == "0" && Decimal(443) == "443" && Decimal(65535) == "65535"
  {
    assert Decimal(65535) == Decimal(6553) + "5" && Decimal(6553) == Decimal(655) + "3";
    assert Decimal(655) == Decimal(65) + "5" && Decimal(65) == Decimal(6) + "5" && Decimal(6) == "6";
    assert Decimal(443) == Decimal(44) + "3" && Decimal(44) == Decimal(4) + "4" && Decimal(4) == "4";
  }

  /** Every port but -1 is printed behind a colon, and read back as itself. */
  lemma PortPrinted(port: int)
    requires port != -1 && -0x8000_0000 <= port <= 0x7FFF_FFFF
    ensures PortText(-1) == "" && PortText(port) != "" && PortText(port)[0] == ':'
    ensures Stoi(PortText(port)[1..]) == Number(port)
  {
    hide Decimal, Stoi;
    var n := if port < 0 then -port else port;
    PlainNumber(n);
    var d := Decimal(n);
    if port < 0 {
      assert (":-" + d)[1..] == "-" + d;
    } else {
      assert (":" + d)[1..] == d;
    }
  }

  lemma PlainNumber(n: nat)
    ensures Stoi(Decimal(n)) == Ranged(n) && Stoi("-" + Decimal(n)) == Ranged(-(n as int))
  {
    hide Decimal, Stoi;
    var d := Decimal(n);
    NumberOf("", n, "");
    assert d + "" == d && "" + d == d && "" + ("-" + d) == "-" + d;
  }

  // ---------------------------------------------------------------- host and port

  /** The port behind a colon: an exception, or the number within -1 and 65535. */
  function Ported(u: Uri, digits: string): Outcome {
    match Stoi(digits)
    case NotANumber => Threw
    case Number(p) => Parsed(u.(port := if p > 65535 then 65535 else if p < -1 then -1 else p))
  }

  lemma PortIs(u: Uri, digits: string)
    ensures ParsePort(u, digits) == Ported(u, digits)
  {
    hide Stoi;
  }

  /** A host in brackets: refused if they are not closed, and only a colon may follow them to some effect. */
  lemma Bracketed(u: Uri, inner: string, behind: string)
    requires FreeOf(inner, {']'})
    ensures ParseHost(u, "[" + inner).Refused?
    ensures behind == "" || behind[0] != ':' ==>
      ParseHost(u, "[" + inner + "]" + behind) == Parsed(u.(host := "[" + inner + "]"))
    ensures ParseHost(u, "[" + inner + "]" + ":" + behind) == Ported(u.(host := "[" + inner + "]"), behind)
  {
    hide FindOf, ParsePort;
    var h := "[" + inner;
    assert FreeOf(h, {']'});
    NoneFound(h, {']'});
    Closed(h, behind);
    Closed(h, ":" + behind);
    assert h + "]" + ":" + behind == h + "]" + (":" + behind) && (":" + behind)[1..] == behind;
    PortIs(u.(host := h + "]"), behind);
  }

  lemma Closed(h: string, behind: string)
    requires FreeOf(h, {']'})
    ensures var t := h + "]" + behind;
      FindOf(t, {']'}) == |h| && t[..|h| + 1] == h + "]" && t[|h| + 1..] == behind
  {
    hide FindOf;
    assert h + "]" + behind == h + ("]" + behind);
    FirstIs(h, "]" + behind, {']'});
  }

  /** Any other host: what is behind its last colon is the port. */
  lemma Unbracketed(u: Uri, h: string, digits: string)
    requires h == "" || h[0] != '['
    ensures FreeOf(h, {':'}) ==> ParseHost(u, h) == Parsed(u.(host := h))
    ensures FreeOf(digits, {':'}) ==> ParseHost(u, h + ":" + digits) == Ported(u.(host := h), digits)
  {
    hide FindLast, ParsePort;
    if FreeOf(h, {':'}) {
      assert FindLast(h, ':') == |h|;
    }
    if FreeOf(digits, {':'}) {
      var t := h + ":" + digits;
      assert t == h + (":" + digits);
      LastColon(h, ":" + digits);
      assert t[..|h|] == h && t[|h| + 1..] == digits && t[0] == (if h == "" then ':' else h[0]);
      PortIs(u.(host := h), digits);
    }
  }

  /** What is in front of the first '@' is the authentication. */
  lemma Authority(u: Uri, auth: string, h: string)
    requires FreeOf(auth, {'@'})
    ensures ParseAuthority(u, auth + "@" + h) == ParseHost(u.(auth := auth), h)
    ensures FreeOf(h, {'@'}) ==> ParseAuthority(u, h) == ParseHost(u, h)
  {
    hide FindOf, ParseHost;
    var t := auth + "@" + h;
    assert t == auth + ("@" + h);
    FirstIs(auth, "@" + h, {'@'});
    assert t[|auth| + 1..] == h;
    if FreeOf(h, {'@'}) {
      NoneFound(h, {'@'});
    }
  }

  // ---------------------------------------------------------------- the whole text

  /** Path, query and fragment, each of which may be empty. */
  lemma Rest(u: Uri, path: string, query: string, fragment: string)
    requires FreeOf(path, {'?', '#'}) && FreeOf(query, {'#'})
    ensures ParseRest(u, path) == u.(path := path)
    ensures ParseRest(u, path + ("?" + query)) == u.(path := path, query := query)
    ensures ParseRest(u, path + ("#" + fragment)) == u.(path := path, fragment := fragment)
    ensures ParseRest(u, path + ("?" + query + ("#" + fragment))) ==
      u.(path := path, query := query, fragment := fragment)
  {
    hide FindOf;
    var q, f := "?" + query, "#" + fragment;
    NoneFound(path, {'?', '#'});
    FirstIs(path, q, {'?', '#'});
    FirstIs(path, f, {'?', '#'});
    FirstIs(path, q + f, {'?', '#'});
    assert FreeOf(q, {'#'});
    NoneFound(q, {'#'});
    FirstIs(q, f, {'#'});
    assert q[1..] == query && f[1..] == fragment && (q + f)[1..|q|] == query && (q + f)[|q| + 1..] == fragment;
  }

  predicate NoColonSlash(s: string) { forall i :: 0 <= i < |s| ==> !ColonSlash(s, i) }

  /**
    * Every text: without ":/", or with nothing behind it, it is refused; a single slash is followed by
    * the path; two are followed by the authority, whose refusal or exception is that of the whole.
    */
  lemma WholeText(scheme: string, authority: string, rest: string)
    requires NoColonSlash(scheme) && FreeOf(authority, {'/', '?', '#'})
    ensures ParseUri(scheme).Refused? && ParseUri(scheme + ":/").Refused?
    ensures rest != "" && rest[0] != '/' ==>
      ParseUri(scheme + ":/" + rest) == Parsed(ParseRest(Empty.(scheme := scheme), rest))
    ensures rest == "" || rest[0] in {'/', '?', '#'} ==>
      ParseUri(scheme + "://" + (authority + rest)) ==
        match ParseAuthority(Empty.(scheme := scheme), authority)
        case Parsed(v) => Parsed(ParseRest(v, rest))
        case other => other
  {
    hide FindOf, FindColonSlash, ParseAuthority, ParseRest;
    assert FindColonSlash(scheme) == |scheme|;
    OneSlash(scheme, "");
    OneSlash(scheme, rest);
    assert scheme + ":/" + "" == scheme + ":/";
    SchemeFound(scheme, authority + rest);
    assert ("/" + (authority + rest))[1..] == authority + rest;
    if rest == "" || rest[0] in {'/', '?', '#'} {
      FirstIs(authority, rest, {'/', '?', '#'});
    }
  }

  lemma OneSlash(scheme: string, rest: string)
    requires NoColonSlash(scheme)
    ensures var s := scheme + ":/" + rest;
      FindColonSlash(s) == |scheme| && s[..|scheme|] == scheme && s[|scheme| + 2..] == rest
  {
    var s := scheme + ":/" + rest;
    assert ColonSlash(s, |scheme|);
    forall i | 0 <= i < |scheme| ensures !ColonSlash(s, i) {
      if i + 1 < |scheme| {
        assert s[i] == scheme[i] && s[i + 1] == scheme[i + 1];
        assert !ColonSlash(scheme, i);
      } else {
        assert s[i + 1] == ':';
      }
    }
    var r := FindColonSlash(s);
    assert !(r < |scheme|);
    assert !(r > |scheme|);
  }
}
