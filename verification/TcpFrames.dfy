/** Hysteria2 TCP request and response frames (src/hysteria2/protocol.rs). */
module TcpFrames {
  import opened Bytes
  import opened Text
  import opened Addresses
  import opened UdpFrames
  import Varint

  const FRAME_TYPE_TCP_REQUEST: u64 := 0x401
  const MAX_MESSAGE_LENGTH := 2048
  const MAX_PADDING_LENGTH := 4096

  /** A length-prefixed block. */
  function Block(s: seq<byte>): Result<seq<byte>> {
    if |s| > Varint.MAX then Err(InvalidVarInt)
    else
      var length :- Varint.Encode(|s|);
      Ok(length + s)
  }

  /** Reads a length-prefixed block, refusing a length above `limit` before reading any of it. */
  function ReadBlock(input: seq<byte>, limit: nat, refusal: Error): Result<(seq<byte>, seq<byte>)> {
    var (length, rest) :- Varint.Read(input);
    if length > limit then Err(refusal)
    else if |rest| < length then Err(UnexpectedEof)
    else Ok((rest[..length], rest[length..]))
  }

  lemma BlockRoundTrip(s: seq<byte>, rest: seq<byte>, limit: nat, refusal: Error)
    requires |s| <= Varint.MAX
    ensures Block(s).Ok?
    ensures ReadBlock(Block(s).value + rest, limit, refusal) ==
            if |s| <= limit then Ok((s, rest)) else Err(refusal)
  {
    Varint.RoundTrip(|s|, s + rest);
    assert Block(s).value + rest == Varint.Encode(|s|).value + (s + rest);
  }

  /** What `write_tcp_request` puts on the stream, for a padding it drew. */
  function WriteRequest(destination: Address, padding: seq<byte>): Result<seq<byte>> {
    var address := Display(destination);
    if |address| > MAX_ADDRESS_LENGTH then Err(InvalidAddress)
    else
      var kind :- Varint.Encode(FRAME_TYPE_TCP_REQUEST);
      var authority :- Block(address);
      var padded :- Block(padding);
      Ok(kind + authority + padded)
  }

  function ReadRequest(t: IpText, input: seq<byte>): Result<(Address, seq<byte>)> {
    var (kind, in1) :- Varint.Read(input);
    if kind != FRAME_TYPE_TCP_REQUEST then Err(Protocol("unexpected stream frame type"))
    else ReadRequestBody(t, in1)
  }

  function ReadRequestBody(t: IpText, input: seq<byte>): Result<(Address, seq<byte>)> {
    var (address, in2) :- ReadBlock(input, MAX_ADDRESS_LENGTH, InvalidAddress);
    if address == [] then Err(InvalidAddress)
    else
      var (_, rest) :- ReadBlock(in2, MAX_PADDING_LENGTH, Protocol("request padding is too large"));
      var destination :- ParseBytes(t, address);
      Ok((destination, rest))
  }

  /** The outcome a server reports: success, or an error message. */
  datatype Outcome = Success | Failure(message: text)

  function WireMessage(outcome: Outcome): text {
    if outcome.Success? then [] else outcome.message[..Min(|outcome.message|, MAX_MESSAGE_LENGTH)]
  }

  function WriteResponse(outcome: Outcome, padding: seq<byte>): Result<seq<byte>> {
    var message :- Block(WireMessage(outcome));
    var padded :- Block(padding);
    Ok([if outcome.Success? then 0 else 1] + message + padded)
  }

  /** The text before every remote error message: "remote error: ". */
  const REMOTE_ERROR: text := [114, 101, 109, 111, 116, 101, 32, 101, 114, 114, 111, 114, 58, 32]

  /** What the client learns from a response: success, or the text of the error it raises. */
  datatype Reply = Accepted | Refused(message: text)

  function ReadResponse(input: seq<byte>): Result<(Reply, seq<byte>)> {
    if input == [] then Err(UnexpectedEof)
    else
      var (message, in1) :- ReadBlock(input[1..], MAX_MESSAGE_LENGTH, Protocol("response message is too large"));
      var (_, rest) :- ReadBlock(in1, MAX_PADDING_LENGTH, Protocol("response padding is too large"));
      Ok((if input[0] == 0 then Accepted else Refused(REMOTE_ERROR + Lossy(message)), rest))
  }

  lemma RequestBodyRoundTrip(t: IpText, destination: Address, padding: seq<byte>, rest: seq<byte>)
    requires Lawful(t) && Carried(t, destination) && |padding| <= MAX_PADDING_LENGTH
    ensures Block(Display(destination)).Ok? && Block(padding).Ok?
    ensures ReadRequestBody(t, Block(Display(destination)).value + (Block(padding).value + rest)) ==
            Ok((destination, rest))
  {
    BlockRoundTrip(padding, rest, MAX_PADDING_LENGTH, Protocol("request padding is too large"));
    BlockRoundTrip(Display(destination), Block(padding).value + rest, MAX_ADDRESS_LENGTH, InvalidAddress);
    ParseBytesInverse(t, destination);
  }

  /** Inside a stream the request reader returns the written address and leaves exactly what follows. */
  lemma RequestRoundTrip(t: IpText, destination: Address, padding: seq<byte>, rest: seq<byte>)
    requires Lawful(t) && Carried(t, destination) && |padding| <= MAX_PADDING_LENGTH
    ensures WriteRequest(destination, padding).Ok?
    ensures ReadRequest(t, WriteRequest(destination, padding).value + rest) == Ok((destination, rest))
  {
    RequestBodyRoundTrip(t, destination, padding, rest);
    var kind, a := Varint.Encode(FRAME_TYPE_TCP_REQUEST).value, Block(Display(destination)).value;
    var p := Block(padding).value;
    Regroup(kind, a, p, rest);
    Varint.RoundTrip(FRAME_TYPE_TCP_REQUEST, a + (p + rest));
  }

  lemma Regroup(a: seq<byte>, b: seq<byte>, c: seq<byte>, d: seq<byte>)
    ensures a + b + c + d == a + (b + (c + d))
  {
  }

  /** The response reader reports success exactly when the writer was given success; an error message of any
      length arrives, cut to 2048 bytes, as readable text, and unchanged if the cut leaves UTF-8; the frame and
      nothing more is consumed. */
  lemma ResponseRoundTrip(outcome: Outcome, padding: seq<byte>, rest: seq<byte>)
    requires |padding| <= MAX_PADDING_LENGTH
    ensures WriteResponse(outcome, padding).Ok?
    ensures var message := WireMessage(outcome);
            && ReadResponse(WriteResponse(outcome, padding).value + rest) ==
                 Ok((if outcome.Success? then Accepted else Refused(REMOTE_ERROR + Lossy(message)), rest))
            && Utf8(Lossy(message)) && (Utf8(message) ==> Lossy(message) == message)
  {
    var message := WireMessage(outcome);
    LossyIsUtf8(message);
    BlockRoundTrip(padding, rest, MAX_PADDING_LENGTH, Protocol("response padding is too large"));
    var in1 := Block(padding).value + rest;
    BlockRoundTrip(message, in1, MAX_MESSAGE_LENGTH, Protocol("response message is too large"));
    StatusThenBlocks(if outcome.Success? then 0 else 1, Block(message).value, Block(padding).value, rest);
  }

  lemma FailureRoundTrip(message: text, padding: seq<byte>, rest: seq<byte>, shown: text)
    requires |padding| <= MAX_PADDING_LENGTH && Lossy(message[..Min(|message|, MAX_MESSAGE_LENGTH)]) == shown
    ensures WriteResponse(Failure(message), padding).Ok?
    ensures ReadResponse(WriteResponse(Failure(message), padding).value + rest) ==
            Ok((Refused(REMOTE_ERROR + shown), rest))
  {
    ResponseRoundTrip(Failure(message), padding, rest);
  }

  /** The part of an error message that the client shows as it is. */
  lemma ShownPart(message: text) returns (k: nat)
    requires Utf8(message)
    ensures ShownUpTo(message, Min(|message|, MAX_MESSAGE_LENGTH), k)
    ensures |message| <= MAX_MESSAGE_LENGTH ==> k == |message|
  {
    if |message| <= MAX_MESSAGE_LENGTH {
      k := |message|;
      assert message[..k] == message && message + [] == message;
      LossyIsUtf8(message);
    } else {
      k := CutShows(message, MAX_MESSAGE_LENGTH);
    }
  }

  /** What the client shows of an error message: the whole of it, or its first 2048 bytes up to the last whole
      character, with a replacement character for one that the cut splits. */
  lemma ErrorTextShown(message: text, padding: seq<byte>, rest: seq<byte>) returns (k: nat)
    requires Utf8(message) && |padding| <= MAX_PADDING_LENGTH
    ensures k <= Min(|message|, 2048) <= k + 3 && Utf8(message[..k])
    ensures |message| <= 2048 ==> k == |message|
    ensures WriteResponse(Failure(message), padding).Ok?
    ensures var shown := message[..k] + (if k < Min(|message|, 2048) then REPLACEMENT else []);
            ReadResponse(WriteResponse(Failure(message), padding).value + rest) ==
            Ok((Refused(REMOTE_ERROR + shown), rest))
  {
    k := ShownPart(message);
    var shown := message[..k] + (if k < Min(|message|, 2048) then REPLACEMENT else []);
    FailureRoundTrip(message, padding, rest, shown);
  }

  const ACCENTED: text := [0xc3, 0xa9]

  /** 2047 times the letter a, and an accented letter of two bytes. */
  function SplitMessage(): (m: text)
    ensures |m| == 2049 && m[..2047] + ACCENTED == m
    ensures forall i :: 0 <= i < 2047 ==> m[i] == 97
  {
    seq(2047, _ => 97) + ACCENTED
  }

  lemma SplitMessageShown()
    ensures Utf8(SplitMessage())
    ensures Lossy(SplitMessage()[..2048]) == SplitMessage()[..2047] + REPLACEMENT
  {
    var m := SplitMessage();
    var letters := m[..2047];
    AsciiIsUtf8(letters);
    AccentedLetter();
    Utf8Append(letters, ACCENTED);
    assert m[..2048] == letters + ACCENTED[..1];
    LossyAppend(letters, ACCENTED[..1]);
  }

  lemma AccentedLetter()
    ensures Utf8(ACCENTED) && Lossy(ACCENTED[..1]) == REPLACEMENT
  {
    assert ScalarLength(ACCENTED) == 2 && ACCENTED[2..] == [];
    PartOfScalar(ACCENTED, 1);
  }

  /** A message whose last letter is split by the cut: a replacement character shows in its place. */
  lemma LastLetterIsLost(padding: seq<byte>, rest: seq<byte>)
    requires |padding| <= MAX_PADDING_LENGTH
    ensures Utf8(SplitMessage()) && WriteResponse(Failure(SplitMessage()), padding).Ok?
    ensures ReadResponse(WriteResponse(Failure(SplitMessage()), padding).value + rest) ==
            Ok((Refused(REMOTE_ERROR + (SplitMessage()[..2047] + REPLACEMENT)), rest))
  {
    SplitMessageShown();
    FailureRoundTrip(SplitMessage(), padding, rest, SplitMessage()[..2047] + REPLACEMENT);
  }

  lemma StatusThenBlocks(status: byte, message: seq<byte>, padded: seq<byte>, rest: seq<byte>)
    ensures var wire := [status] + message + padded + rest;
            wire[0] == status && wire[1..] == message + (padded + rest)
  {
  }

  /** A block: its length as a variable integer, then its bytes. */
  predicate BlockOf(w: seq<byte>, s: seq<byte>, limit: nat) {
    Varint.IsVarint(w, |s|) && |s| <= limit
  }

  /** A block is read exactly where one stands that is not too long. */
  lemma ReadsBlock(input: seq<byte>, limit: nat, refusal: Error, s: seq<byte>, rest: seq<byte>)
    ensures ReadBlock(input, limit, refusal) == Ok((s, rest)) <==>
            exists w :: input == w + (s + rest) && BlockOf(w, s, limit)
  {
    Varint.ReadsExactly(input, |s|, s + rest);
    if ReadBlock(input, limit, refusal) == Ok((s, rest)) {
      assert Varint.Read(input).value.1 == s + rest;
      var w :| input == w + (s + rest) && Varint.IsVarint(w, |s|);
      assert BlockOf(w, s, limit);
    }
    if w :| input == w + (s + rest) && BlockOf(w, s, limit) {
      assert Varint.Read(input) == Ok((|s|, s + rest));
    }
  }

  /** The parts of a request: its kind, the length and bytes of the address, the length and bytes of the padding. */
  datatype RequestParts = RequestParts(
    kind: seq<byte>, width: seq<byte>, address: text, paddingWidth: seq<byte>, padding: seq<byte>)

  predicate IsRequest(t: IpText, input: seq<byte>, a: Address, rest: seq<byte>, p: RequestParts) {
    && input == p.kind + (p.width + (p.address + (p.paddingWidth + (p.padding + rest))))
    && Varint.IsVarint(p.kind, 0x401) && p.address != [] && ParseBytes(t, p.address) == Ok(a)
    && BlockOf(p.width, p.address, 2048) && BlockOf(p.paddingWidth, p.padding, 4096)
  }

  lemma RequestIsRead(t: IpText, input: seq<byte>, a: Address, rest: seq<byte>, p: RequestParts)
    requires IsRequest(t, input, a, rest, p)
    ensures ReadRequest(t, input) == Ok((a, rest))
  {
    var in2 := p.paddingWidth + (p.padding + rest);
    var in1 := p.width + (p.address + in2);
    Varint.ReadsExactly(input, 0x401, in1);
    ReadsBlock(in1, MAX_ADDRESS_LENGTH, InvalidAddress, p.address, in2);
    ReadsBlock(in2, MAX_PADDING_LENGTH, Protocol("request padding is too large"), p.padding, rest);
  }

  lemma ReadIsRequest(t: IpText, input: seq<byte>, a: Address, rest: seq<byte>) returns (p: RequestParts)
    requires ReadRequest(t, input) == Ok((a, rest))
    ensures IsRequest(t, input, a, rest, p)
  {
    var in1 := Varint.Read(input).value.1;
    var (address, in2) := ReadBlock(in1, MAX_ADDRESS_LENGTH, InvalidAddress).value;
    var padding := ReadBlock(in2, MAX_PADDING_LENGTH, Protocol("request padding is too large")).value.0;
    Varint.ReadsExactly(input, 0x401, in1);
    ReadsBlock(in1, MAX_ADDRESS_LENGTH, InvalidAddress, address, in2);
    ReadsBlock(in2, MAX_PADDING_LENGTH, Protocol("request padding is too large"), padding, rest);
    var kind :| input == kind + in1 && Varint.IsVarint(kind, 0x401);
    var width :| in1 == width + (address + in2) && BlockOf(width, address, MAX_ADDRESS_LENGTH);
    var paddingWidth :| in2 == paddingWidth + (padding + rest) && BlockOf(paddingWidth, padding, MAX_PADDING_LENGTH);
    p := RequestParts(kind, width, address, paddingWidth, padding);
  }

  /** The request reader takes exactly the requests: kind 0x401, an address of 1 to 2048 bytes that parses, and a
      padding of at most 4096, and leaves what follows. */
  lemma RequestExactly(t: IpText, input: seq<byte>, a: Address, rest: seq<byte>)
    ensures ReadRequest(t, input) == Ok((a, rest)) <==> exists p :: IsRequest(t, input, a, rest, p)
  {
    if ReadRequest(t, input) == Ok((a, rest)) {
      var p := ReadIsRequest(t, input, a, rest);
    }
    if p :| IsRequest(t, input, a, rest, p) {
      RequestIsRead(t, input, a, rest, p);
    }
  }

  /** The parts of a response. */
  datatype ResponseParts = ResponseParts(
    status: byte, width: seq<byte>, message: seq<byte>, paddingWidth: seq<byte>, padding: seq<byte>)

  predicate IsResponse(input: seq<byte>, reply: Reply, rest: seq<byte>, p: ResponseParts) {
    && input == [p.status] + (p.width + (p.message + (p.paddingWidth + (p.padding + rest))))
    && BlockOf(p.width, p.message, 2048) && BlockOf(p.paddingWidth, p.padding, 4096)
    && reply == if p.status == 0 then Accepted else Refused(REMOTE_ERROR + Lossy(p.message))
  }

  /** The response reader takes exactly the responses, whatever their status byte; 0 alone means success. */
  lemma ResponseExactly(input: seq<byte>, reply: Reply, rest: seq<byte>)
    ensures ReadResponse(input) == Ok((reply, rest)) <==> exists p :: IsResponse(input, reply, rest, p)
  {
    if ReadResponse(input) == Ok((reply, rest)) {
      var p := ReadIsResponse(input, reply, rest);
    }
    if p :| IsResponse(input, reply, rest, p) {
      ResponseIsRead(input, reply, rest, p);
    }
  }

  lemma ResponseIsRead(input: seq<byte>, reply: Reply, rest: seq<byte>, p: ResponseParts)
    requires IsResponse(input, reply, rest, p)
    ensures ReadResponse(input) == Ok((reply, rest))
  {
    var in2 := p.paddingWidth + (p.padding + rest);
    assert input[1..] == p.width + (p.message + in2);
    ReadsBlock(input[1..], MAX_MESSAGE_LENGTH, Protocol("response message is too large"), p.message, in2);
    ReadsBlock(in2, MAX_PADDING_LENGTH, Protocol("response padding is too large"), p.padding, rest);
  }

  lemma ReadIsResponse(input: seq<byte>, reply: Reply, rest: seq<byte>) returns (p: ResponseParts)
    requires ReadResponse(input) == Ok((reply, rest))
    ensures IsResponse(input, reply, rest, p)
  {
    var (message, in2) := ReadBlock(input[1..], MAX_MESSAGE_LENGTH, Protocol("response message is too large")).value;
    var padding := ReadBlock(in2, MAX_PADDING_LENGTH, Protocol("response padding is too large")).value.0;
    ReadsBlock(input[1..], MAX_MESSAGE_LENGTH, Protocol("response message is too large"), message, in2);
    ReadsBlock(in2, MAX_PADDING_LENGTH, Protocol("response padding is too large"), padding, rest);
    var width :| input[1..] == width + (message + in2) && BlockOf(width, message, MAX_MESSAGE_LENGTH);
    var paddingWidth :| in2 == paddingWidth + (padding + rest) && BlockOf(paddingWidth, padding, MAX_PADDING_LENGTH);
    p := ResponseParts(input[0], width, message, paddingWidth, padding);
    assert input == [input[0]] + input[1..];
  }

  /** A byte stream: writers extend it at the end, readers consume it from the front. */
  class ByteStream {
    var data: seq<byte>

    constructor (bytes: seq<byte>)
      ensures data == bytes
    {
      data := bytes;
    }

    method ReadU8() returns (r: Result<byte>)
      modifies this
      ensures if old(data) == [] then r == Err(UnexpectedEof) && data == []
              else r == Ok(old(data)[0]) && data == old(data)[1..]
    {
      if data == [] {
        return Err(UnexpectedEof);
      }
      var first := data[0];
      data := data[1..];
      return Ok(first);
    }

    /** `varint::read`: one byte decides the length, the others are shifted in. */
    method ReadVarint() returns (r: Result<u64>)
      modifies this
      ensures Varint.Read(old(data)).Ok? ==> r.Ok? && (r.value, data) == Varint.Read(old(data)).value
      ensures Varint.Read(old(data)).Err? ==> r == Err(Varint.Read(old(data)).error)
    {
      var first :- ReadU8();
      var length := Varint.WireLength(first);
      var value: nat := first % 64;
      for i := 1 to length
        invariant Varint.ReadTail(value, length - i, data) == Varint.ReadTail(first % 64, length - 1, old(data)[1..])
      {
        var next :- ReadU8();
        value := value * 256 + next;
      }
      Varint.ReadTailIsShift(first % 64, length - 1, old(data)[1..]);
      Varint.ValueBound(first, old(data)[1..][..length - 1]);
      return Ok(value);
    }

    method ReadBytes(limit: nat, refusal: Error) returns (r: Result<seq<byte>>)
      modifies this
      ensures ReadBlock(old(data), limit, refusal).Ok? ==>
                r.Ok? && (r.value, data) == ReadBlock(old(data), limit, refusal).value
      ensures ReadBlock(old(data), limit, refusal).Err? ==> r == Err(ReadBlock(old(data), limit, refusal).error)
    {
      var length :- ReadVarint();
      if length > limit {
        return Err(refusal);
      }
      if |data| < length {
        return Err(UnexpectedEof);
      }
      var block := data[..length];
      data := data[length..];
      return Ok(block);
    }

    /** `read_tcp_request`. */
    method ReadTcpRequest(t: IpText) returns (r: Result<Address>)
      modifies this
      ensures ReadRequest(t, old(data)).Ok? ==> r.Ok? && (r.value, data) == ReadRequest(t, old(data)).value
      ensures ReadRequest(t, old(data)).Err? ==> r == Err(ReadRequest(t, old(data)).error)
    {
      var kind :- ReadVarint();
      if kind != FRAME_TYPE_TCP_REQUEST {
        return Err(Protocol("unexpected stream frame type"));
      }
      var address :- ReadBytes(MAX_ADDRESS_LENGTH, InvalidAddress);
      if address == [] {
        return Err(InvalidAddress);
      }
      var _ :- ReadBytes(MAX_PADDING_LENGTH, Protocol("request padding is too large"));
      var destination :- ParseBytes(t, address);
      return Ok(destination);
    }

    /** `read_tcp_response`. */
    method ReadTcpResponse() returns (r: Result<Reply>)
      modifies this
      ensures ReadResponse(old(data)).Ok? ==> r.Ok? && (r.value, data) == ReadResponse(old(data)).value
      ensures ReadResponse(old(data)).Err? ==> r == Err(ReadResponse(old(data)).error)
    {
      var status :- ReadU8();
      var message :- ReadBytes(MAX_MESSAGE_LENGTH, Protocol("response message is too large"));
      var _ :- ReadBytes(MAX_PADDING_LENGTH, Protocol("response padding is too large"));
      return Ok(if status == 0 then Accepted else Refused(REMOTE_ERROR + Lossy(message)));
    }

    /** `write_tcp_request`, for a padding it drew. */
    method WriteTcpRequest(destination: Address, padding: seq<byte>) returns (r: Result<()>)
      requires |padding| <= MAX_PADDING_LENGTH
      modifies this
      ensures WriteRequest(destination, padding).Ok? ==>
                r.Ok? && data == old(data) + WriteRequest(destination, padding).value
      ensures WriteRequest(destination, padding).Err? ==>
                r == Err(WriteRequest(destination, padding).error) && data == old(data)
    {
      var address := Display(destination);
      if |address| > MAX_ADDRESS_LENGTH {
        return Err(InvalidAddress);
      }
      var kind := Varint.Encode(FRAME_TYPE_TCP_REQUEST).value;
      data := data + kind;
      var length := Varint.Encode(|address|).value;
      data := data + length;
      data := data + address;
      var padded := Varint.Encode(|padding|).value;
      data := data + padded;
      data := data + padding;
      assert data == old(data) + (kind + (length + address) + (padded + padding));
      return Ok(());
    }

    /** `write_tcp_response`, for a padding it drew. */
    method WriteTcpResponse(outcome: Outcome, padding: seq<byte>)
      requires |padding| <= MAX_PADDING_LENGTH
      modifies this
      ensures WriteResponse(outcome, padding).Ok? && data == old(data) + WriteResponse(outcome, padding).value
    {
      var status: byte, message: text := 0, [];
      if outcome.Failure? {
        status, message := 1, outcome.message;
      }
      message := message[..Min(|message|, MAX_MESSAGE_LENGTH)];
      assert message == WireMessage(outcome);
      data := data + [status];
      var length := Varint.Encode(|message|).value;
      data := data + length;
      data := data + message;
      var padded := Varint.Encode(|padding|).value;
      data := data + padded;
      data := data + padding;
      assert data == old(data) + ([status] + (length + message) + (padded + padding));
    }
  }
}
