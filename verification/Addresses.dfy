/** Destination addresses and their `host:port` text form (src/address.rs). */
module Addresses {
  import opened Bytes
  import opened Text

  datatype Ip = V4(octets: seq<byte>) | V6(octets: seq<byte>) {
    predicate Valid() { if V4? then |octets| == 4 else |octets| == 16 }
  }

  /** IP-literal text, supplied by the standard library: `parse` and `show` are parameters, and
      `Lawful` lists what is used of them. */
  datatype IpText = IpText(parse: text -> Option<Ip>, show: Ip -> text)

  predicate IsIpChar(c: byte) {
    IsDigit(c) || 65 <= c <= 70 || 97 <= c <= 102 || c == DOT || c == COLON
  }

  ghost predicate Lawful(t: IpText) {
    && (forall ip: Ip :: ip.Valid() ==> t.parse(t.show(ip)) == Some(ip))
    && (forall s: text :: t.parse(s).Some? ==> ParseLaw(s, t.parse(s).value))
  }

  predicate ParseLaw(s: text, ip: Ip) {
    && ip.Valid()
    && s != []
    && (forall i :: 0 <= i < |s| ==> IsIpChar(s[i]))
    && (ip.V6? <==> COLON in s)
  }

  datatype Address = Address(host: text, port: u16)

  /** `Address::new`: only the empty host is refused. */
  function New(host: text, port: u16): Result<Address> {
    if host == [] then Err(InvalidAddress) else Ok(Address(host, port))
  }

  function Display(a: Address): (s: text)
    ensures s != []
  {
    if COLON in a.host then [OPEN] + a.host + [CLOSE, COLON] + Decimal(a.port)
    else a.host + [COLON] + Decimal(a.port)
  }

  predicate Bracketed(s: text) { |s| >= 2 && s[0] == OPEN && s[|s| - 1] == CLOSE }

  function Strip(s: text): text {
    if Bracketed(s) then s[1..|s| - 1] else s
  }

  /** A numeric IPv6 zone: `ip%digits` below 2^32, which socket-address parsing reads and drops. */
  function WithoutZone(s: text): text {
    var i := FirstIndex(s, PERCENT);
    if i < |s| && ParseDigits(s[i + 1..], 0xffff_ffff).Some? then s[..i] else s
  }

  /** `str::parse::<SocketAddr>`. */
  function ParseSocket(t: IpText, s: text): Option<(Ip, u16)> {
    var i := LastIndex(s, COLON);
    if i < 0 then None
    else
      var host, port := s[..i], ParseDigits(s[i + 1..], 0xffff);
      if port.None? then None
      else if t.parse(host).Some? && t.parse(host).value.V4? then Some((t.parse(host).value, port.value))
      else if Bracketed(host) then
        var inner := t.parse(WithoutZone(Strip(host)));
        if inner.Some? && inner.value.V6? then Some((inner.value, port.value)) else None
      else None
  }

  /** `Address::from_str`. */
  function Parse(t: IpText, s: text): Result<Address> {
    var socket := ParseSocket(t, s);
    if socket.Some? then Ok(Address(t.show(socket.value.0), socket.value.1))
    else
      var i := LastIndex(s, COLON);
      if i < 0 then Err(InvalidAddress)
      else
        var port := ParseUnsigned(s[i + 1..], 0xffff);
        if port.None? then Err(InvalidAddress) else New(Strip(s[..i]), port.value)
  }

  /** Hosts that survive printing and parsing: a host that reads as an IP literal is spelled the way
      the literal prints, carries no numeric zone, and is not a bracketed string without a colon. */
  predicate TextStable(t: IpText, host: text) {
    var literal := t.parse(host);
    && (literal.Some? ==> t.show(literal.value) == host)
    && (COLON in host ==> t.parse(WithoutZone(host)).Some? ==> WithoutZone(host) == host)
    && (COLON !in host ==> !Bracketed(host))
  }

  lemma DisplaySplits(a: Address)
    ensures var s, i := Display(a), LastIndex(Display(a), COLON);
            && i >= 0
            && s[..i] == (if COLON in a.host then [OPEN] + a.host + [CLOSE] else a.host)
            && s[i + 1..] == Decimal(a.port)
  {
    var s, d := Display(a), Decimal(a.port);
    var k := |s| - |d| - 1;
    assert s[k] == COLON && s[k + 1..] == d;
    forall j | k < j < |s| ensures s[j] != COLON {
      assert s[j] == d[j - k - 1] && IsDigit(d[j - k - 1]);
    }
    assert LastIndex(s, COLON) == k;
  }

  /** The host that comes back: an IP literal as it prints and without its zone, a colon-free host without its
      brackets, any other host unchanged. */
  function Reread(t: IpText, host: text): text {
    if COLON in host then
      var literal := t.parse(WithoutZone(host));
      if literal.Some? then t.show(literal.value) else host
    else
      var literal := t.parse(host);
      if literal.Some? then t.show(literal.value) else Strip(host)
  }

  /** Printing then parsing, for every address: the reread host, refused if nothing is left of it. */
  lemma PrintThenParse(t: IpText, a: Address)
    requires Lawful(t)
    ensures Parse(t, Display(a)) == New(Reread(t, a.host), a.port)
  {
    DisplaySplits(a);
    ParseDecimal(a.port, 0xffff);
    LiteralsPrint(t);
    if COLON in a.host {
      var host := [OPEN] + a.host + [CLOSE];
      assert host[0] == OPEN && !IsIpChar(host[0]) && t.parse(host).None?;
      assert Bracketed(host) && Strip(host) == a.host;
      if t.parse(WithoutZone(a.host)).Some? {
        ZoneHasColon(t, a.host);
      }
    } else if t.parse(a.host).Some? {
      assert ParseLaw(a.host, t.parse(a.host).value);
    } else if Bracketed(a.host) {
      ColonFreeBrackets(t, a.host);
    }
  }

  lemma LiteralsPrint(t: IpText)
    requires Lawful(t)
    ensures forall s: text :: t.parse(s).Some? ==> t.show(t.parse(s).value) != []
  {
    forall s: text | t.parse(s).Some? ensures t.show(t.parse(s).value) != [] {
      var ip := t.parse(s).value;
      assert ParseLaw(s, ip) && t.parse(t.show(ip)) == Some(ip);
      assert ParseLaw(t.show(ip), ip);
    }
  }

  lemma StableIsReread(t: IpText, host: text)
    requires Lawful(t)
    ensures Reread(t, host) == host <==> TextStable(t, host)
  {
    if COLON in host {
      if t.parse(WithoutZone(host)).Some? && WithoutZone(host) != host {
        ZoneNeverReturns(t, host);
      } else if t.parse(host).Some? {
        LiteralHasNoZone(t, host);
      }
    } else if t.parse(host).Some? {
      assert ParseLaw(host, t.parse(host).value);
      assert host[0] != OPEN;
    } else if Bracketed(host) {
      assert |Strip(host)| < |host|;
    }
  }

  /** Printing then parsing is the identity exactly on the stable hosts. */
  lemma TextRoundTrip(t: IpText, a: Address)
    requires Lawful(t) && a.host != []
    ensures Parse(t, Display(a)) == Ok(a) <==> TextStable(t, a.host)
  {
    PrintThenParse(t, a);
    StableIsReread(t, a.host);
  }

  /** A pair of brackets with nothing in it. */
  const BARE: text := [OPEN, CLOSE]

  /** One host that can be named is refused when it is read back. */
  lemma OnlyBareBracketsAreRefused(t: IpText, a: Address)
    requires Lawful(t) && a.host != []
    ensures Parse(t, Display(a)).Ok? <==> a.host != BARE
  {
    PrintThenParse(t, a);
    LiteralsPrint(t);
    if t.parse(a.host).Some? {
      assert ParseLaw(a.host, t.parse(a.host).value);
      assert a.host[0] != OPEN;
    } else if Bracketed(a.host) && COLON !in a.host && Strip(a.host) == [] {
      assert a.host == BARE;
    }
  }

  lemma LiteralHasNoZone(t: IpText, host: text)
    requires Lawful(t) && t.parse(host).Some?
    ensures WithoutZone(host) == host
  {
    assert ParseLaw(host, t.parse(host).value);
    assert PERCENT !in host;
  }

  /** A digit string holds no colon, so dropping a zone keeps every colon. */
  lemma ZoneHasColon(t: IpText, host: text)
    requires Lawful(t) && COLON in host && t.parse(WithoutZone(host)).Some?
    ensures t.parse(WithoutZone(host)).value.V6?
  {
    var i := FirstIndex(host, PERCENT);
    if WithoutZone(host) != host {
      var k :| 0 <= k < |host| && host[k] == COLON;
      assert k < i by {
        assert forall j :: i < j < |host| ==> host[i + 1..][j - i - 1] == host[j];
      }
      assert host[..i][k] == COLON;
    }
    assert ParseLaw(WithoutZone(host), t.parse(WithoutZone(host)).value);
  }

  lemma ZoneNeverReturns(t: IpText, host: text)
    requires Lawful(t) && WithoutZone(host) != host && t.parse(WithoutZone(host)).Some?
    ensures t.show(t.parse(WithoutZone(host)).value) != host
  {
    var ip := t.parse(WithoutZone(host)).value;
    var printed := t.show(ip);
    assert t.parse(printed) == Some(ip) && ParseLaw(printed, ip);
    assert forall j :: 0 <= j < |printed| ==> printed[j] != PERCENT;
    assert host[FirstIndex(host, PERCENT)] == PERCENT;
  }

  lemma ColonFreeBrackets(t: IpText, host: text)
    requires Lawful(t) && Bracketed(host) && COLON !in host
    ensures t.parse(WithoutZone(Strip(host))).Some? ==> t.parse(WithoutZone(Strip(host))).value.V4?
  {
    var inner := WithoutZone(Strip(host));
    assert COLON !in inner;
  }

  /** Which text is an address: a host that is more than a pair of brackets, the last colon, and a number of at
      most 65535. */
  lemma {:induction false} ParsesExactly(t: IpText, s: text, host: text, digits: text)
    requires Lawful(t) && s == host + [COLON] + digits && COLON !in digits
    ensures Parse(t, s).Ok? <==> ParseUnsigned(digits, 65535).Some? && host != [] && host != BARE
  {
    LastColon(s, host, digits);
    DigitsArePort(digits);
    SocketHost(t, s);
    NothingLeft(host);
  }

  lemma NoColonNoAddress(t: IpText, s: text)
    requires COLON !in s
    ensures Parse(t, s).Err?
  {
  }

  lemma LastColon(s: text, host: text, digits: text)
    requires s == host + [COLON] + digits && COLON !in digits
    ensures LastIndex(s, COLON) == |host| && s[..|host|] == host && s[|host| + 1..] == digits
  {
    assert s[|host|] == COLON;
    assert forall j :: |host| < j < |s| ==> s[j] == digits[j - |host| - 1];
  }

  lemma NothingLeft(host: text)
    ensures Strip(host) == [] <==> host == [] || host == BARE
  {
  }

  lemma DigitsArePort(digits: text)
    ensures ParseDigits(digits, 0xffff).Some? ==> ParseUnsigned(digits, 0xffff) == ParseDigits(digits, 0xffff)
  {
    if digits != [] && AllDigits(digits) {
      assert IsDigit(digits[0]);
    }
  }

  /** A socket address has a host. */
  lemma SocketHost(t: IpText, s: text)
    requires Lawful(t) && LastIndex(s, COLON) >= 0
    ensures var host := s[..LastIndex(s, COLON)];
            ParseSocket(t, s).Some? ==> host != [] && host != BARE
  {
    var host := s[..LastIndex(s, COLON)];
    if t.parse(host).Some? {
      assert ParseLaw(host, t.parse(host).value);
      assert host[0] != OPEN;
    } else if host == BARE {
      assert Strip(host) == [] && WithoutZone([]) == [];
      assert t.parse([]).None?;
    }
  }

  /** What the text means: the port is the number after the last colon; the host is what stands before it without
      brackets, or, for an IP literal with a port in plain digits, the literal as it prints. */
  lemma {:induction false} ParsedMeans(t: IpText, s: text)
    requires Lawful(t) && Parse(t, s).Ok?
    ensures var i, a := LastIndex(s, COLON), Parse(t, s).value;
            && i >= 0 && Spells(s[i + 1..], a.port)
            && var host, literal := s[..i], LiteralIn(t, s[..i]);
            a.host == if literal.Some? && AllDigits(s[i + 1..]) then t.show(literal.value) else Strip(host)
  {
    var i := LastIndex(s, COLON);
    var host, digits := s[..i], s[i + 1..];
    DigitsArePort(digits);
    ParsesWhatSpells(digits, 0xffff, Parse(t, s).value.port);
    if t.parse(host).Some? {
      assert ParseLaw(host, t.parse(host).value);
      assert host[0] != OPEN;
    }
  }

  /** The IP literal that a socket address names: IPv4 as it stands, IPv6 in brackets with or without a zone. */
  function LiteralIn(t: IpText, host: text): Option<Ip> {
    if Bracketed(host) then
      var inner := t.parse(WithoutZone(host[1..|host| - 1]));
      if inner.Some? && inner.value.V6? then inner else None
    else
      var plain := t.parse(host);
      if plain.Some? && plain.value.V4? then plain else None
  }

  /** The printed form of a UTF-8 host is UTF-8. */
  lemma DisplayIsUtf8(a: Address)
    requires Utf8(a.host)
    ensures Utf8(Display(a))
  {
    PortIsAscii(a.port);
    if COLON in a.host {
      AsciiAround([OPEN], a.host, [CLOSE, COLON] + Decimal(a.port), Display(a));
    } else {
      AsciiAround([], a.host, [COLON] + Decimal(a.port), Display(a));
    }
  }

  lemma PortIsAscii(port: u16)
    ensures IsAscii([COLON] + Decimal(port)) && IsAscii([CLOSE, COLON] + Decimal(port))
  {
    var d := Decimal(port);
    forall i | 0 <= i < |d| ensures d[i] < 0x80 {
      assert IsDigit(d[i]);
    }
  }

  lemma AsciiAround(before: text, s: text, after: text, whole: text)
    requires IsAscii(before) && Utf8(s) && IsAscii(after)
    requires whole == before + s + after
    ensures Utf8(whole)
  {
    AsciiIsUtf8(before);
    AsciiIsUtf8(after);
    Utf8Append(before, s);
    Utf8Append(before + s, after);
  }

  // ---- hosts that do not survive ----

  /** A host in brackets without a colon loses them; with nothing in them, it is refused. */
  lemma BracketsAreLost(t: IpText, inner: text, port: u16)
    requires Lawful(t) && COLON !in inner
    ensures Parse(t, Display(Address([OPEN] + inner + [CLOSE], port))) == New(inner, port)
    ensures !TextStable(t, [OPEN] + inner + [CLOSE])
  {
    var host := [OPEN] + inner + [CLOSE];
    PrintThenParse(t, Address(host, port));
    assert host[0] == OPEN && !IsIpChar(host[0]) && t.parse(host).None?;
    assert Bracketed(host) && Strip(host) == inner;
  }

  lemma {:induction false} ZoneIsStripped(printed: text)
    requires PERCENT !in printed
    ensures WithoutZone(printed + [PERCENT, 49]) == printed
  {
    var host, n := printed + [PERCENT, 49], |printed|;
    assert host[n] == PERCENT && host[n + 1..] == [49];
    assert forall j :: 0 <= j < n ==> host[j] == printed[j] && printed[j] in printed;
    OneDigit();
  }

  lemma OneDigit()
    ensures ParseDigits([49], 0xffff_ffff).Some?
  {
    assert DigitsValue([49]) == DigitsValue([49][..0]) * 10 + 1;
  }

  /** A numeric zone after an IPv6 literal is dropped. */
  lemma ZoneIsLost(t: IpText, ip: Ip, port: u16)
    requires Lawful(t) && ip.V6? && ip.Valid()
    ensures Parse(t, Display(Address(t.show(ip) + [PERCENT, 49], port))) == Ok(Address(t.show(ip), port))
    ensures !TextStable(t, t.show(ip) + [PERCENT, 49])
  {
    var printed := t.show(ip);
    var host := printed + [PERCENT, 49];
    assert t.parse(printed) == Some(ip) && ParseLaw(printed, ip);
    var k :| 0 <= k < |printed| && printed[k] == COLON;
    assert host[k] == COLON;
    ZoneIsStripped(printed);
    PrintThenParse(t, Address(host, port));
  }

  // ---- the laws have a model ----

  predicate IsHex(c: byte) { IsDigit(c) || 97 <= c <= 102 }

  function HexDigit(n: nat): (c: byte)
    requires n < 16
    ensures IsHex(c) && HexValue(c) == n
  {
    if n < 10 then 48 + n else 87 + n
  }

  function HexValue(c: byte): (n: nat)
    requires IsHex(c)
    ensures n < 16
  {
    if IsDigit(c) then c as int - 48 else c as int - 87
  }

  predicate AllHex(s: text) { forall i :: 0 <= i < |s| ==> IsHex(s[i]) }

  function ToHex(octets: seq<byte>): (s: text)
    ensures |s| == 2 * |octets| && AllHex(s)
    ensures forall i :: 0 <= i < |octets| ==>
              HexValue(s[2 * i]) == octets[i] / 16 && HexValue(s[2 * i + 1]) == octets[i] % 16
  {
    if octets == [] then []
    else ToHex(octets[..|octets| - 1]) + [HexDigit(octets[|octets| - 1] / 16), HexDigit(octets[|octets| - 1] % 16)]
  }

  function FromHex(s: text): (octets: seq<byte>)
    requires AllHex(s) && |s| % 2 == 0
    ensures |octets| == |s| / 2
  {
    seq(|s| / 2, i requires 0 <= i < |s| / 2 => HexValue(s[2 * i]) * 16 + HexValue(s[2 * i + 1]))
  }

  lemma HexInverse(octets: seq<byte>)
    ensures FromHex(ToHex(octets)) == octets
  {
  }

  function HexParse(s: text): Option<Ip> {
    if |s| == 8 && AllHex(s) then Some(V4(FromHex(s)))
    else if |s| == 33 && s[0] == COLON && AllHex(s[1..]) then Some(V6(FromHex(s[1..])))
    else None
  }

  function HexShow(ip: Ip): text {
    if ip.V4? then ToHex(ip.octets) else [COLON] + ToHex(ip.octets)
  }

  /** The laws asked of IP text are consistent: a plain hexadecimal notation meets them. */
  lemma LawsHaveAModel()
    ensures Lawful(IpText(HexParse, HexShow))
  {
    var t := IpText(HexParse, HexShow);
    forall ip: Ip | ip.Valid() ensures t.parse(t.show(ip)) == Some(ip) {
      HexInverse(ip.octets);
      if ip.V6? {
        assert HexShow(ip)[1..] == ToHex(ip.octets);
      }
    }
    forall s: text | t.parse(s).Some? ensures ParseLaw(s, t.parse(s).value) {
      if |s| == 33 {
        forall i | 0 < i < |s| ensures IsHex(s[i]) { assert s[i] == s[1..][i - 1]; }
      }
    }
  }

  /** A notation in which an IPv6 literal may start with one colon or two. */
  function LaxParse(s: text): Option<Ip> {
    if |s| == 34 && s[0] == COLON then HexParse(s[1..]) else HexParse(s)
  }

  const LAX := IpText(LaxParse, HexShow)

  /** The laws also allow literals with several spellings. */
  lemma LaxIsLawful()
    ensures Lawful(LAX)
  {
    LawsHaveAModel();
    var strict := IpText(HexParse, HexShow);
    forall ip: Ip | ip.Valid() ensures LAX.parse(LAX.show(ip)) == Some(ip) {
      assert strict.parse(strict.show(ip)) == Some(ip);
      assert |HexShow(ip)| != 34;
    }
    forall s: text | LAX.parse(s).Some? ensures ParseLaw(s, LAX.parse(s).value) {
      if |s| == 34 && s[0] == COLON {
        assert strict.parse(s[1..]).Some? && ParseLaw(s[1..], LAX.parse(s).value);
        forall i | 0 < i < |s| ensures IsIpChar(s[i]) { assert s[i] == s[1..][i - 1]; }
      } else {
        assert strict.parse(s).Some?;
      }
    }
  }

  /** The unspecified IPv6 address, as it prints, and with a second colon. */
  const UNSPECIFIED: text := HexShow(V6(seq(16, _ => 0)))
  const RESPELLED: text := [COLON] + UNSPECIFIED

  lemma Respelling(port: u16)
    ensures LAX.parse(UNSPECIFIED).Some? && LAX.parse(RESPELLED) == LAX.parse(UNSPECIFIED)
    ensures LAX.show(LAX.parse(UNSPECIFIED).value) == UNSPECIFIED != RESPELLED
    ensures Parse(LAX, Display(Address(RESPELLED, port))) == Ok(Address(UNSPECIFIED, port))
    ensures !TextStable(LAX, RESPELLED)
  {
    LaxIsLawful();
    var ip := V6(seq(16, _ => 0));
    assert ip.Valid() && LAX.parse(LAX.show(ip)) == Some(ip);
    assert |UNSPECIFIED| == 33 && RESPELLED[1..] == UNSPECIFIED && RESPELLED[0] == COLON;
    assert LAX.parse(RESPELLED) == HexParse(UNSPECIFIED) == Some(ip);
    LiteralHasNoZone(LAX, RESPELLED);
    PrintThenParse(LAX, Address(RESPELLED, port));
  }
}
