/** Hysteria2 UDP datagrams (the message codec of src/hysteria2/packet.rs). */
module UdpFrames {
  import opened Bytes
  import opened Text
  import opened Addresses
  import Varint

  const HEADER_SIZE := 8
  const MAX_ADDRESS_LENGTH := 2048

  datatype UdpMessage = UdpMessage(
    sessionId: u32,
    packetId: u16,
    fragmentId: byte,
    fragmentTotal: byte,
    destination: Address,
    data: seq<byte>)

  function EncodeMessage(sessionId: u32, packetId: u16, fragmentId: byte, fragmentTotal: byte,
                         address: text, addressLength: seq<byte>, data: seq<byte>): (frame: seq<byte>)
    ensures |frame| == HEADER_SIZE + |addressLength| + |address| + |data|
  {
    Be32(sessionId) + Be16(packetId) + [fragmentId, fragmentTotal] + addressLength + address + data
  }

  /** `encode_message` as written, appending field by field. */
  method AppendMessage(m: UdpMessage, address: text, addressLength: seq<byte>) returns (frame: seq<byte>)
    ensures frame == EncodeMessage(m.sessionId, m.packetId, m.fragmentId, m.fragmentTotal,
                                   address, addressLength, m.data)
  {
    frame := Be32(m.sessionId);
    frame := frame + Be16(m.packetId);
    frame := frame + [m.fragmentId];
    frame := frame + [m.fragmentTotal];
    frame := frame + addressLength;
    frame := frame + address;
    frame := frame + m.data;
  }

  function DecodeMessage(t: IpText, data: seq<byte>): (r: Result<UdpMessage>)
    ensures r.Ok? ==> |data| > HEADER_SIZE + |r.value.data|
  {
    if |data| < HEADER_SIZE then Err(Protocol("truncated Hysteria2 UDP message"))
    else
      var (length, width) :- Varint.DecodeSlice(data[HEADER_SIZE..]);
      DecodeBody(t, data, length, HEADER_SIZE + width)
  }

  /** The decoder once the address length and its place are known. */
  function DecodeBody(t: IpText, data: seq<byte>, length: nat, start: nat): (r: Result<UdpMessage>)
    requires HEADER_SIZE < start <= |data|
    ensures r.Ok? ==> |data| > HEADER_SIZE + |r.value.data|
  {
    var end := start + length;
    if length == 0 || length > MAX_ADDRESS_LENGTH then Err(InvalidAddress)
    else if end > |data| then Err(Protocol("truncated Hysteria2 UDP address"))
    else
      var destination :- ParseBytes(t, data[start..end]);
      Ok(UdpMessage(FromBe32(data[..4]), FromBe16(data[4..6]), data[6], data[7], destination, data[end..]))
  }

  /** Wire bytes to an address: they must be UTF-8 before they are parsed. */
  function ParseBytes(t: IpText, bytes: seq<byte>): Result<Address> {
    if Utf8(bytes) then Parse(t, bytes) else Err(InvalidAddress)
  }

  lemma ParseBytesInverse(t: IpText, a: Address)
    requires Lawful(t) && a.host != [] && Utf8(a.host)
    ensures ParseBytes(t, Display(a)) == Ok(a) <==> TextStable(t, a.host)
  {
    DisplayIsUtf8(a);
    TextRoundTrip(t, a);
  }

  /** The addresses that the UDP and TCP writers can carry and the readers hand back unchanged. */
  predicate Carried(t: IpText, a: Address) {
    && a.host != [] && Utf8(a.host)
    && TextStable(t, a.host)
    && |Display(a)| <= MAX_ADDRESS_LENGTH
  }

  /** The frame of a whole message, as `send` builds it. */
  function Frame(m: UdpMessage): seq<byte>
    requires |Display(m.destination)| <= MAX_ADDRESS_LENGTH
  {
    var address := Display(m.destination);
    EncodeMessage(m.sessionId, m.packetId, m.fragmentId, m.fragmentTotal,
                  address, Varint.Encode(|address|).value, m.data)
  }

  lemma HeaderLayout(sessionId: u32, packetId: u16, fragmentId: byte, fragmentTotal: byte,
                     address: text, addressLength: seq<byte>, data: seq<byte>)
    ensures var f := EncodeMessage(sessionId, packetId, fragmentId, fragmentTotal, address, addressLength, data);
            var start := HEADER_SIZE + |addressLength|;
            && f[..4] == Be32(sessionId) && f[4..6] == Be16(packetId)
            && f[6] == fragmentId && f[7] == fragmentTotal
            && f[HEADER_SIZE..] == addressLength + (address + data)
            && f[start..start + |address|] == address
            && f[start + |address|..] == data
  {
  }

  /** Everything but the address text comes back as written; the text goes through the parser. */
  lemma FrameFields(t: IpText, m: UdpMessage)
    requires |Display(m.destination)| <= MAX_ADDRESS_LENGTH
    ensures DecodeMessage(t, Frame(m)) ==
            var parsed := ParseBytes(t, Display(m.destination));
            if parsed.Ok? then Ok(m.(destination := parsed.value)) else Err(parsed.error)
  {
    var address := Display(m.destination);
    var width := Varint.Encode(|address|).value;
    HeaderLayout(m.sessionId, m.packetId, m.fragmentId, m.fragmentTotal, address, width, m.data);
    var frame := Frame(m);
    assert Varint.DecodeSlice(frame[HEADER_SIZE..]) == Ok((|address|, |width|)) by {
      Varint.RoundTrip(|address|, address + m.data);
    }
    Be32Inverse(m.sessionId);
    Be16Inverse(m.packetId);
    assert DecodeMessage(t, frame) == DecodeBody(t, frame, |address|, HEADER_SIZE + |width|);
  }

  /** Decoding an encoded message restores every field and the exact payload, exactly when the
      address text is stable. */
  lemma MessageRoundTrip(t: IpText, m: UdpMessage)
    requires Lawful(t) && m.destination.host != [] && Utf8(m.destination.host)
    requires |Display(m.destination)| <= MAX_ADDRESS_LENGTH
    ensures DecodeMessage(t, Frame(m)) == Ok(m) <==> TextStable(t, m.destination.host)
  {
    FrameFields(t, m);
    ParseBytesInverse(t, m.destination);
  }

  /** A frame with that message in it: the address behind a variable integer that gives its length. */
  predicate FrameOf(t: IpText, data: seq<byte>, m: UdpMessage, width: seq<byte>, address: text) {
    && data == EncodeMessage(m.sessionId, m.packetId, m.fragmentId, m.fragmentTotal, address, width, m.data)
    && Varint.IsVarint(width, |address|) && 1 <= |address| <= 2048
    && ParseBytes(t, address) == Ok(m.destination)
  }

  lemma DecodedIsFrame(t: IpText, data: seq<byte>) returns (width: seq<byte>, address: text)
    requires DecodeMessage(t, data).Ok?
    ensures FrameOf(t, data, DecodeMessage(t, data).value, width, address)
  {
    var rest := data[HEADER_SIZE..];
    var (length, k) := Varint.DecodeSlice(rest).value;
    width, address := rest[..k], data[HEADER_SIZE + k..HEADER_SIZE + k + length];
    Varint.DecodesExactly(rest, length, k);
    var m := DecodeMessage(t, data).value;
    FrameJoins(data, k, length);
    assert Be32(m.sessionId) == data[..4] && Be16(m.packetId) == data[4..6];
  }

  lemma FrameJoins(data: seq<byte>, k: nat, length: nat)
    requires HEADER_SIZE + k + length <= |data|
    ensures var start := HEADER_SIZE + k;
            data == data[..4] + data[4..6] + [data[6], data[7]] + data[HEADER_SIZE..][..k] + data[start..start + length]
                    + data[start + length..]
  {
  }

  lemma FrameDecodes(t: IpText, data: seq<byte>, m: UdpMessage, width: seq<byte>, address: text)
    requires FrameOf(t, data, m, width, address)
    ensures DecodeMessage(t, data) == Ok(m)
  {
    HeaderLayout(m.sessionId, m.packetId, m.fragmentId, m.fragmentTotal, address, width, m.data);
    var rest := data[HEADER_SIZE..];
    assert rest[..|width|] == width;
    Varint.DecodesExactly(rest, |address|, |width|);
    Be32Inverse(m.sessionId);
    Be16Inverse(m.packetId);
    assert DecodeMessage(t, data) == DecodeBody(t, data, |address|, HEADER_SIZE + |width|);
  }

  /** The decoder takes exactly the frames. */
  lemma DecodesExactly(t: IpText, data: seq<byte>, m: UdpMessage)
    ensures DecodeMessage(t, data) == Ok(m) <==> exists width, address :: FrameOf(t, data, m, width, address)
  {
    if DecodeMessage(t, data) == Ok(m) {
      var width, address := DecodedIsFrame(t, data);
    }
    if width, address :| FrameOf(t, data, m, width, address) {
      FrameDecodes(t, data, m, width, address);
    }
  }
}
