/** SQuic wire forms (src/shadowquic/mod.rs): SOCKS5-style addresses (section 5 of RFC 1928), the
    announcements on a control stream, and the payload records on a unidirectional stream. */
module SquicWire {
  import opened Bytes
  import opened Text
  import opened Addresses

  const IPV4: byte := 0x01
  const DOMAIN: byte := 0x03
  const IPV6: byte := 0x04
  const MAX_DOMAIN_LENGTH := 255

  function EncodeAddress(t: IpText, a: Address): (r: Result<seq<byte>>)
    ensures r.Ok? ==> |r.value| >= 3
  {
    var literal := t.parse(a.host);
    if literal.Some? then
      Ok([if literal.value.V4? then IPV4 else IPV6] + literal.value.octets + Be16(a.port))
    else if a.host == [] || |a.host| > MAX_DOMAIN_LENGTH || !IsAscii(a.host) then Err(InvalidAddress)
    else Ok([DOMAIN, |a.host|] + a.host + Be16(a.port))
  }

  /** `encode_address` as written, pushing onto a buffer. */
  method AppendAddress(t: IpText, a: Address) returns (r: Result<seq<byte>>)
    ensures r == EncodeAddress(t, a)
  {
    var frame: seq<byte>;
    var literal := t.parse(a.host);
    if literal.Some? {
      frame := [if literal.value.V4? then IPV4 else IPV6];
      frame := frame + literal.value.octets;
    } else {
      if |a.host| == 0 || |a.host| > MAX_DOMAIN_LENGTH || !IsAscii(a.host) {
        return Err(InvalidAddress);
      }
      frame := [DOMAIN];
      frame := frame + [|a.host|];
      frame := frame + a.host;
    }
    frame := frame + Be16(a.port);
    assert literal.None? ==> frame == [DOMAIN, |a.host|] + a.host + Be16(a.port);
    return Ok(frame);
  }

  /** The host that follows the kind byte. */
  function DecodeHost(t: IpText, kind: byte, s: seq<byte>): Result<(text, seq<byte>)> {
    if kind == IPV4 then
      if |s| < 4 then Err(UnexpectedEof) else Ok((t.show(V4(s[..4])), s[4..]))
    else if kind == IPV6 then
      if |s| < 16 then Err(UnexpectedEof) else Ok((t.show(V6(s[..16])), s[16..]))
    else if kind == DOMAIN then
      if s == [] || |s| < 1 + s[0] as int then Err(UnexpectedEof)
      else if !Utf8(s[1..1 + s[0] as int]) then Err(InvalidAddress)
      else Ok((s[1..1 + s[0] as int], s[1 + s[0] as int..]))
    else Err(Protocol("invalid ShadowQuic address type"))
  }

  function DecodeAddress(t: IpText, s: seq<byte>): Result<(Address, seq<byte>)> {
    if s == [] then Err(UnexpectedEof)
    else
      var (host, rest) :- DecodeHost(t, s[0], s[1..]);
      if |rest| < 2 then Err(UnexpectedEof)
      else
        var address :- New(host, FromBe16(rest[..2]));
        Ok((address, rest[2..]))
  }

  /** The address the receiver names: an IP literal is spelled as it prints, anything else is unchanged. */
  function Canonical(t: IpText, a: Address): Address {
    var literal := t.parse(a.host);
    if literal.Some? then Address(t.show(literal.value), a.port) else a
  }

  /** Decoding an encoded address, whatever follows it, gives its canonical form and the rest. */
  lemma AddressRoundTrip(t: IpText, a: Address, rest: seq<byte>)
    requires Lawful(t) && EncodeAddress(t, a).Ok?
    ensures DecodeAddress(t, EncodeAddress(t, a).value + rest) == Ok((Canonical(t, a), rest))
  {
    var wire, literal, tail := EncodeAddress(t, a).value + rest, t.parse(a.host), Be16(a.port) + rest;
    Be16Inverse(a.port);
    assert tail[..2] == Be16(a.port) && tail[2..] == rest;
    if literal.Some? {
      var ip := literal.value;
      assert ParseLaw(a.host, ip);
      assert t.parse(t.show(ip)) == Some(ip) && ParseLaw(t.show(ip), ip);
      assert wire[1..] == ip.octets + tail;
    } else {
      AsciiIsUtf8(a.host);
      var n := |a.host|;
      assert wire[1..] == [n] + a.host + tail;
      assert wire[1..][1..1 + n] == a.host && wire[1..][1 + n..] == tail;
    }
  }

  /** An announcement: the destination and its context id. */
  datatype Announcement = Announcement(destination: Address, id: u16)

  function EncodeAnnouncement(t: IpText, n: Announcement): seq<byte>
    requires EncodeAddress(t, n.destination).Ok?
  {
    EncodeAddress(t, n.destination).value + Be16(n.id)
  }

  function DecodeAnnouncement(t: IpText, s: seq<byte>): Result<(Announcement, seq<byte>)> {
    var (destination, rest) :- DecodeAddress(t, s);
    if |rest| < 2 then Err(UnexpectedEof)
    else Ok((Announcement(destination, FromBe16(rest[..2])), rest[2..]))
  }

  lemma AnnouncementRoundTrip(t: IpText, n: Announcement, rest: seq<byte>)
    requires Lawful(t) && EncodeAddress(t, n.destination).Ok?
    ensures DecodeAnnouncement(t, EncodeAnnouncement(t, n) + rest) ==
            Ok((Announcement(Canonical(t, n.destination), n.id), rest))
  {
    var tail := Be16(n.id) + rest;
    assert EncodeAnnouncement(t, n) + rest == EncodeAddress(t, n.destination).value + tail;
    AddressRoundTrip(t, n.destination, tail);
    Be16Inverse(n.id);
    assert tail[..2] == Be16(n.id) && tail[2..] == rest;
  }

  /** A length-prefixed payload on a unidirectional stream. */
  function EncodeRecord(data: seq<byte>): seq<byte>
    requires |data| < 0x1_0000
  {
    Be16(|data|) + data
  }

  function DecodeRecord(s: seq<byte>): Result<(seq<byte>, seq<byte>)> {
    if |s| < 2 || |s| < 2 + FromBe16(s[..2]) as int then Err(UnexpectedEof)
    else Ok((s[2..2 + FromBe16(s[..2]) as int], s[2 + FromBe16(s[..2]) as int..]))
  }

  lemma RecordRoundTrip(data: seq<byte>, rest: seq<byte>)
    requires |data| < 0x1_0000
    ensures DecodeRecord(EncodeRecord(data) + rest) == Ok((data, rest))
  {
    var s := EncodeRecord(data) + rest;
    Be16Inverse(|data|);
    assert s[..2] == Be16(|data|) && s[2..2 + |data|] == data && s[2 + |data|..] == rest;
  }

  /** Every IP literal can be encoded, and every host of 1 to 255 ASCII bytes, and no other. */
  lemma EncodesExactly(t: IpText, a: Address)
    ensures EncodeAddress(t, a).Ok? <==>
            t.parse(a.host).Some? || (1 <= |a.host| <= 255 && forall i :: 0 <= i < |a.host| ==> a.host[i] < 128)
  {
  }

  /** An encoded IP address, followed by `rest`. */
  predicate IpLayout(t: IpText, s: seq<byte>, a: Address, rest: seq<byte>, ip: Ip) {
    && ip.Valid() && a.host == t.show(ip)
    && s == [if ip.V4? then 0x01 else 0x04] + ip.octets + Be16(a.port) + rest
  }

  /** An encoded domain, followed by `rest`. */
  predicate DomainLayout(s: seq<byte>, a: Address, rest: seq<byte>) {
    1 <= |a.host| <= 255 && Utf8(a.host) && s == [0x03, |a.host|] + a.host + Be16(a.port) + rest
  }

  /** The decoder takes exactly these two forms: an IP address, which it spells as it prints, and a domain. */
  lemma DecodesExactly(t: IpText, s: seq<byte>, a: Address, rest: seq<byte>)
    requires Lawful(t)
    ensures DecodeAddress(t, s) == Ok((a, rest)) <==>
            (exists ip :: IpLayout(t, s, a, rest, ip)) || DomainLayout(s, a, rest)
  {
    if DecodeAddress(t, s) == Ok((a, rest)) {
      DecodedLayout(t, s, a, rest);
    }
    if ip :| IpLayout(t, s, a, rest, ip) {
      IpDecodes(t, s, a, rest, ip);
    } else if DomainLayout(s, a, rest) {
      DomainDecodes(t, s, a, rest);
    }
  }

  lemma DecodedLayout(t: IpText, s: seq<byte>, a: Address, rest: seq<byte>)
    requires DecodeAddress(t, s) == Ok((a, rest))
    ensures (exists ip :: IpLayout(t, s, a, rest, ip)) || DomainLayout(s, a, rest)
  {
    var (host, tail) := DecodeHost(t, s[0], s[1..]).value;
    assert tail == Be16(a.port) + rest;
    if s[0] == IPV4 {
      assert s == [IPV4] + s[1..][..4] + Be16(a.port) + rest;
      assert IpLayout(t, s, a, rest, V4(s[1..][..4]));
    } else if s[0] == IPV6 {
      assert s == [IPV6] + s[1..][..16] + Be16(a.port) + rest;
      assert IpLayout(t, s, a, rest, V6(s[1..][..16]));
    } else {
      assert s == [DOMAIN, s[1]] + host + Be16(a.port) + rest;
    }
  }

  lemma PortIsRead(port: u16, rest: seq<byte>)
    ensures var tail := Be16(port) + rest;
            |tail| >= 2 && FromBe16(tail[..2]) == port && tail[2..] == rest
  {
    Be16Inverse(port);
    var tail := Be16(port) + rest;
    assert tail[..2] == Be16(port);
  }

  lemma IpDecodes(t: IpText, s: seq<byte>, a: Address, rest: seq<byte>, ip: Ip)
    requires Lawful(t) && IpLayout(t, s, a, rest, ip)
    ensures DecodeAddress(t, s) == Ok((a, rest))
  {
    var n, tail := |ip.octets|, Be16(a.port) + rest;
    PortIsRead(a.port, rest);
    assert s[1..] == ip.octets + tail && s[1..][..n] == ip.octets && s[1..][n..] == tail;
    assert t.parse(t.show(ip)) == Some(ip) && ParseLaw(t.show(ip), ip);
  }

  lemma DomainDecodes(t: IpText, s: seq<byte>, a: Address, rest: seq<byte>)
    requires DomainLayout(s, a, rest)
    ensures DecodeAddress(t, s) == Ok((a, rest))
  {
    var n, tail := |a.host|, Be16(a.port) + rest;
    PortIsRead(a.port, rest);
    assert s[1..] == [n] + a.host + tail;
    assert s[1..][1..1 + n] == a.host && s[1..][1 + n..] == tail;
  }
}
