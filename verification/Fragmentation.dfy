/** Fragment planning in `Hysteria2PacketConnection::send` (src/hysteria2/packet.rs), and its
    composition with the reassembler. */
module Fragmentation {
  import opened Bytes
  import opened Text
  import opened Addresses
  import opened UdpFrames
  import opened Reassembly
  import opened ReassemblyRuns
  import Varint

  const INITIAL_UDP_MTU := 1197

  /** `slice::chunks`: all of length `size` but the last, which is shorter and not empty. */
  function Chunks(data: seq<byte>, size: nat): (pieces: seq<seq<byte>>)
    requires size > 0
    ensures Concat(pieces) == data
    ensures forall k :: 0 <= k < |pieces| ==> 0 < |pieces[k]| <= size
    decreases |data|
  {
    if data == [] then []
    else if |data| <= size then
      assert Concat([data]) == data + Concat([]);
      [data]
    else
      var rest := Chunks(data[size..], size);
      assert Concat([data[..size]] + rest) == data[..size] + Concat(rest) by {
        assert ([data[..size]] + rest)[1..] == rest;
      }
      [data[..size]] + rest
  }

  /** `usize::div_ceil`; `CeilDivBound` says that it is the ceiling. */
  function CeilDiv(n: nat, size: nat): nat
    requires size > 0
  {
    if n == 0 then 0 else if n <= size then 1 else 1 + CeilDiv(n - size, size)
  }

  lemma {:induction false} CeilDivBound(n: nat, size: nat, k: nat)
    requires size > 0
    ensures CeilDiv(n, size) <= k <==> n <= k * size
  {
    if k > 0 && n > size {
      CeilDivBound(n - size, size, k - 1);
      assert (k - 1) * size == k * size - size;
    } else if k > 0 {
      MulMonotone(1, k, size);
    }
  }

  lemma {:induction false} ChunkCount(data: seq<byte>, size: nat)
    requires size > 0
    ensures |Chunks(data, size)| == CeilDiv(|data|, size)
    decreases |data|
  {
    if |data| > size {
      ChunkCount(data[size..], size);
    }
  }

  /** The 16-bit id of the n-th send: a wrapping 32-bit counter, plus one, modulo 65535. */
  function PacketId(n: nat): u16 {
    (n % 0x1_0000_0000 + 1) % 0x1_0000_0000 % 0xffff
  }

  /** Fewer than 65535 sends apart, two sends share an id in one case only: they are adjacent and the
      second is the one whose incremented counter wraps to zero. */
  lemma PacketIdsCollide(i: nat, j: nat)
    requires i < j < i + 0xffff
    ensures PacketId(i) == PacketId(j) <==> j == i + 1 && (j + 1) % 0x1_0000_0000 == 0
  {
    var a, d := (i + 1) % 0x1_0000_0000, j - i;
    ModAdd(i + 1, d);
    ModAdd(i, 1);
    ModAdd(j, 1);
    IdsApart(a, d);
  }

  lemma ModAdd(n: nat, d: nat)
    ensures (n + d) % 0x1_0000_0000 == (n % 0x1_0000_0000 + d) % 0x1_0000_0000
  {
  }

  lemma IdsApart(a: u32, d: nat)
    requires 0 < d < 0xffff
    ensures var b := (a + d) % 0x1_0000_0000;
            a % 0xffff == b % 0xffff <==> d == 1 && b == 0
  {
    if a + d < 0x1_0000_0000 {
      SameResidue(a, a + d);
    } else {
      var b := a + d - 0x1_0000_0000;
      SameResidue(b, a);
      assert a - b == 0xffff * 0x1_0001 - (d - 1);
    }
  }

  lemma SameResidue(a: nat, b: nat)
    requires a <= b
    ensures a % 0xffff == b % 0xffff <==> (b - a) % 0xffff == 0
  {
  }

  function Budget(maxDatagramSize: Option<nat>): (n: nat)
    ensures n <= INITIAL_UDP_MTU
  {
    match maxDatagramSize
    case None => INITIAL_UDP_MTU
    case Some(size) => Min(Max(size - 3, 0), INITIAL_UDP_MTU)
  }

  /** The budget is the most that stays within 1197 bytes and three bytes below what the path takes; a path that
      takes no datagrams yet counts for nothing. */
  lemma BudgetExactly(maxDatagramSize: Option<nat>, n: nat)
    ensures n <= Budget(maxDatagramSize) <==>
            n <= 1197 && (n > 0 && maxDatagramSize.Some? ==> n + 3 <= maxDatagramSize.value)
  {
  }

  function HeaderSize(destination: Address): nat
    requires |Display(destination)| <= MAX_ADDRESS_LENGTH
  {
    HEADER_SIZE + |Varint.Encode(|Display(destination)|).value| + |Display(destination)|
  }

  /** The payloads of the frames: the chunks, or a single empty one. */
  function Pieces(data: seq<byte>, size: nat): (pieces: seq<seq<byte>>)
    requires size > 0
    ensures pieces != [] && Concat(pieces) == data
    ensures forall k :: 0 <= k < |pieces| ==> |pieces[k]| <= size
  {
    if data == [] then [[]] else Chunks(data, size)
  }

  /** One numbered frame per piece. */
  function Frames(sessionId: u32, packetId: u16, destination: Address, pieces: seq<seq<byte>>): (frames: seq<seq<byte>>)
    requires |Display(destination)| <= MAX_ADDRESS_LENGTH && |pieces| <= 255
    ensures |frames| == |pieces|
    ensures forall k :: 0 <= k < |frames| ==>
              frames[k] == Frame(UdpMessage(sessionId, packetId, k, |pieces|, destination, pieces[k]))
  {
    seq(|pieces|, k requires 0 <= k < |pieces| =>
      Frame(UdpMessage(sessionId, packetId, k, |pieces|, destination, pieces[k])))
  }

  /** The frames `send` hands to QUIC, or the reason it refuses the packet. */
  function Plan(sessionId: u32, packetId: u16, packet: Packet, budget: nat): Result<seq<seq<byte>>> {
    var address := Display(packet.destination);
    if |packet.data| > MAX_UDP_SIZE then Err(Protocol("Hysteria2 UDP packet exceeds 4096 bytes"))
    else if |address| > MAX_ADDRESS_LENGTH then Err(InvalidAddress)
    else if HeaderSize(packet.destination) >= budget then
      Err(Protocol("Hysteria2 UDP address exceeds QUIC datagram size"))
    else
      var size := budget - HeaderSize(packet.destination);
      if Max(CeilDiv(|packet.data|, size), 1) > 255 then Err(Protocol("too many Hysteria2 UDP fragments"))
      else
        var pieces := Pieces(packet.data, size);
        assert |pieces| == Max(CeilDiv(|packet.data|, size), 1) by { ChunkCount(packet.data, size); }
        Ok(Frames(sessionId, packetId, packet.destination, pieces))
  }

  /** The payloads of a send's frames; none if not even an empty one would fit. */
  function PiecesOf(packet: Packet, budget: nat): (pieces: seq<seq<byte>>)
    ensures pieces != [] ==> Concat(pieces) == packet.data
  {
    if |Display(packet.destination)| <= MAX_ADDRESS_LENGTH && HeaderSize(packet.destination) < budget
    then Pieces(packet.data, budget - HeaderSize(packet.destination)) else []
  }

  /** A planned send: every frame is a numbered fragment that fits the budget, and the payloads in
      order are the packet. */
  lemma PlanSound(sessionId: u32, packetId: u16, packet: Packet, budget: nat)
    requires Plan(sessionId, packetId, packet, budget).Ok?
    ensures |Display(packet.destination)| <= MAX_ADDRESS_LENGTH && |packet.data| <= MAX_UDP_SIZE
    ensures var frames, pieces := Plan(sessionId, packetId, packet, budget).value, PiecesOf(packet, budget);
            && 1 <= |frames| == |pieces| <= 255
            && Concat(pieces) == packet.data
            && forall k :: 0 <= k < |frames| ==>
                 && frames[k] == Frame(UdpMessage(sessionId, packetId, k, |pieces|, packet.destination, pieces[k]))
                 && |frames[k]| <= budget
  {
    ChunkCount(packet.data, budget - HeaderSize(packet.destination));
  }

  /** The frames fit what the path takes, with three bytes to spare, and the initial budget. */
  lemma FramesFitThePath(sessionId: u32, packetId: u16, packet: Packet, maxDatagramSize: Option<nat>, k: nat)
    requires Plan(sessionId, packetId, packet, Budget(maxDatagramSize)).Ok?
    requires k < |Plan(sessionId, packetId, packet, Budget(maxDatagramSize)).value|
    ensures var frame := Plan(sessionId, packetId, packet, Budget(maxDatagramSize)).value[k];
            && |frame| <= 1197
            && (maxDatagramSize.Some? ==> |frame| + 3 <= maxDatagramSize.value)
  {
    PlanSound(sessionId, packetId, packet, Budget(maxDatagramSize));
  }

  /** Exactly which packets are refused. Once 17 payload bytes fit in a frame, the fragment count is
      never the reason. */
  lemma PlanAccepts(sessionId: u32, packetId: u16, packet: Packet, budget: nat)
    requires |Display(packet.destination)| <= MAX_ADDRESS_LENGTH
    ensures var header := HeaderSize(packet.destination);
            && (Plan(sessionId, packetId, packet, budget).Ok? <==>
                |packet.data| <= 4096 && header < budget && |packet.data| <= 255 * (budget - header))
            && (|packet.data| <= 4096 && header + 17 <= budget ==>
                Plan(sessionId, packetId, packet, budget).Ok?)
  {
    var header := HeaderSize(packet.destination);
    if header < budget {
      CeilDivBound(|packet.data|, budget - header, 255);
    }
  }

  const REFUSED := Protocol("datagram refused")

  /** What a connection takes of a plan before it refuses a datagram, and what `send` then returns. */
  function Taken(plan: Result<seq<seq<byte>>>, takes: nat): (seq<seq<byte>>, Result<()>) {
    if plan.Err? then ([], Err(plan.error))
    else if takes < |plan.value| then (plan.value[..takes], Err(REFUSED))
    else (plan.value, Ok(()))
  }

  /** The sending half of a session: the packet counter and everything handed to QUIC. */
  class PacketSender {
    const sessionId: u32
    var nextPacketId: u32
    var datagrams: seq<seq<byte>>

    constructor (id: u32)
      ensures sessionId == id && nextPacketId == 0 && datagrams == []
    {
      sessionId, nextPacketId, datagrams := id, 0, [];
    }

    /** `send`, chunk by chunk, on a connection that takes that many datagrams before it refuses one. The counter
        moves for every packet that passes the size test, sent or not. */
    method Send(packet: Packet, maxDatagramSize: Option<nat>, takes: nat) returns (r: Result<()>)
      modifies this`nextPacketId, this`datagrams
      ensures var plan := Plan(sessionId, PacketId(old(nextPacketId)), packet, Budget(maxDatagramSize));
              datagrams == old(datagrams) + Taken(plan, takes).0 && r == Taken(plan, takes).1
      ensures nextPacketId == (if |packet.data| > MAX_UDP_SIZE then old(nextPacketId)
                               else (old(nextPacketId) + 1) % 0x1_0000_0000)
    {
      if |packet.data| > MAX_UDP_SIZE {
        return Err(Protocol("Hysteria2 UDP packet exceeds 4096 bytes"));
      }
      var packetId := PacketId(nextPacketId);
      nextPacketId := (nextPacketId + 1) % 0x1_0000_0000;
      r := SendNumbered(packetId, packet, Budget(maxDatagramSize), takes);
    }

    /** The rest of `send`, once the packet has its id. */
    method SendNumbered(packetId: u16, packet: Packet, budget: nat, takes: nat) returns (r: Result<()>)
      requires |packet.data| <= MAX_UDP_SIZE
      modifies this`datagrams
      ensures var plan := Plan(sessionId, packetId, packet, budget);
              datagrams == old(datagrams) + Taken(plan, takes).0 && r == Taken(plan, takes).1
    {
      var address := Display(packet.destination);
      if |address| > MAX_ADDRESS_LENGTH {
        return Err(InvalidAddress);
      }
      var addressLength := Varint.Encode(|address|).value;
      var headerSize := HEADER_SIZE + |addressLength| + |address|;
      if headerSize >= budget {
        return Err(Protocol("Hysteria2 UDP address exceeds QUIC datagram size"));
      }
      var size := budget - headerSize;
      var total := Max(CeilDiv(|packet.data|, size), 1);
      if total > 255 {
        return Err(Protocol("too many Hysteria2 UDP fragments"));
      }
      var chunks := Chunks(packet.data, size);
      assert packet.data != [] ==> |chunks| == total by { ChunkCount(packet.data, size); }
      r := Emit(packetId, total, packet, addressLength, chunks, takes);
      if packet.data == [] {
        var frame := EncodeMessage(sessionId, packetId, 0, 1, address, addressLength, []);
        assert [frame] == Frames(sessionId, packetId, packet.destination, [[]]);
        if takes == 0 {
          return Err(REFUSED);
        }
        datagrams := datagrams + [frame];
      }
    }

    /** The chunk loop. The enumeration index is cut to a byte, as in the source; it always fits. */
    method Emit(packetId: u16, total: byte, packet: Packet, addressLength: seq<byte>, chunks: seq<seq<byte>>,
                takes: nat)
      returns (r: Result<()>)
      requires |Display(packet.destination)| <= MAX_ADDRESS_LENGTH
      requires addressLength == Varint.Encode(|Display(packet.destination)|).value
      requires chunks == [] || |chunks| == total
      modifies this`datagrams
      ensures var frames := Ok(Frames(sessionId, packetId, packet.destination, chunks));
              datagrams == old(datagrams) + Taken(frames, takes).0 && r == Taken(frames, takes).1
    {
      var address := Display(packet.destination);
      ghost var frames := Frames(sessionId, packetId, packet.destination, chunks);
      for k := 0 to |chunks|
        invariant datagrams == old(datagrams) + frames[..k] && k <= takes
      {
        var frame := EncodeMessage(sessionId, packetId, k % 256, total, address, addressLength, chunks[k]);
        assert frame == frames[k];
        assert frames[..k + 1] == frames[..k] + [frames[k]];
        if k == takes {
          return Err(REFUSED);
        }
        datagrams := datagrams + [frame];
      }
      assert frames[..|chunks|] == frames;
      return Ok(());
    }
  }

  /** A message that one of the frames decodes to. */
  predicate FromFrames(t: IpText, m: UdpMessage, frames: seq<seq<byte>>) {
    exists k :: 0 <= k < |frames| && DecodeMessage(t, frames[k]) == Ok(m)
  }

  /** One send: the id it drew, the packet, and the budget it met. */
  datatype Sent = Sent(id: u16, packet: Packet, budget: nat)

  /** A message that a frame of this send decodes to. */
  predicate FromSend(t: IpText, sessionId: u32, s: Sent, m: UdpMessage) {
    && Plan(sessionId, s.id, s.packet, s.budget).Ok?
    && FromFrames(t, m, Plan(sessionId, s.id, s.packet, s.budget).value)
  }

  /** Whatever decodes from a frame of a send is a copy of one of its fragments. */
  lemma FramesDecode(t: IpText, sessionId: u32, s: Sent, m: UdpMessage)
    requires Lawful(t) && Carried(t, s.packet.destination) && FromSend(t, sessionId, s, m)
    ensures m.sessionId == sessionId && CopyOf(m, s.id, PiecesOf(s.packet, s.budget), s.packet.destination)
  {
    PlanSound(sessionId, s.id, s.packet, s.budget);
    var frames, pieces := Plan(sessionId, s.id, s.packet, s.budget).value, PiecesOf(s.packet, s.budget);
    var k :| 0 <= k < |frames| && DecodeMessage(t, frames[k]) == Ok(m);
    MessageRoundTrip(t, UdpMessage(sessionId, s.id, k, |pieces|, s.packet.destination, pieces[k]));
  }

  /** A packet sent in one frame is delivered whole by that frame. */
  lemma SingleFrameDelivers(t: IpText, sessionId: u32, s: Sent, m: UdpMessage, fragments: Fragments, now: nat)
    requires Lawful(t) && Carried(t, s.packet.destination) && FromSend(t, sessionId, s, m)
    requires |Plan(sessionId, s.id, s.packet, s.budget).value| == 1 && Valid(fragments)
    ensures Feed(fragments, m, now) == (fragments, Ok(Some(s.packet)))
  {
    PlanSound(sessionId, s.id, s.packet, s.budget);
    FramesDecode(t, sessionId, s, m);
    var pieces := PiecesOf(s.packet, s.budget);
    assert Concat(pieces) == pieces[0] + Concat(pieces[1..]);
  }

  /** Send, lose order, repeat and interleave, then reassemble: nothing until the last missing frame
      arrives, and then exactly the packet that was sent. */
  lemma SendThenReassemble(t: IpText, sessionId: u32, s: Sent, start: Fragments, trace: seq<Arrival>)
    requires Lawful(t) && Carried(t, s.packet.destination)
    requires Plan(sessionId, s.id, s.packet, s.budget).Ok?
    requires |Plan(sessionId, s.id, s.packet, s.budget).value| >= 2
    requires Valid(start) && Clocked(trace) && trace != [] && IsFor(Last(trace), s.id)
    requires var frames, sub := Plan(sessionId, s.id, s.packet, s.budget).value, Filter(trace, s.id);
             && (forall i :: 0 <= i < |sub| ==> FromSend(t, sessionId, s, sub[i].message))
             && Prompt(sub) && Aged(Lookup(start, s.id), sub[0].at).None?
             && !Covers(Init(sub), |frames|)
    ensures var frames, sub := Plan(sessionId, s.id, s.packet, s.budget).value, Filter(trace, s.id);
            Answer(start, trace) == if Covers(sub, |frames|) then Ok(Some(s.packet)) else Ok(None)
  {
    PlanSound(sessionId, s.id, s.packet, s.budget);
    var sub := Filter(trace, s.id);
    forall i | 0 <= i < |sub| ensures CopyOf(sub[i].message, s.id, PiecesOf(s.packet, s.budget), s.packet.destination) {
      FramesDecode(t, sessionId, s, sub[i].message);
    }
    Identity(start, trace, s.id, PiecesOf(s.packet, s.budget), s.packet.destination);
    assert |s.packet.data| <= MAX_UDP_SIZE;
  }

  function CutOf(s: Sent): (c: Cut)
    ensures c.id == s.id && c.destination == s.packet.destination
  {
    Cut(s.id, PiecesOf(s.packet, s.budget), s.packet.destination)
  }

  /** All fragments of a packet, decoded, in order and at once. */
  function FragmentTrace(sessionId: u32, c: Cut): (trace: seq<Arrival>)
    requires |c.pieces| <= 255
    ensures |trace| == |c.pieces|
    ensures forall k :: 0 <= k < |trace| ==>
              trace[k] == Arrival(UdpMessage(sessionId, c.id, k, |c.pieces|, c.destination, c.pieces[k]), 0)
  {
    seq(|c.pieces|, k requires 0 <= k < |c.pieces| =>
      Arrival(UdpMessage(sessionId, c.id, k, |c.pieces|, c.destination, c.pieces[k]), 0))
  }

  lemma InOrderDecodes(t: IpText, sessionId: u32, s: Sent, k: nat)
    requires Lawful(t) && Carried(t, s.packet.destination) && Plan(sessionId, s.id, s.packet, s.budget).Ok?
    requires k < |CutOf(s).pieces| <= 255
    ensures FromSend(t, sessionId, s, FragmentTrace(sessionId, CutOf(s))[k].message)
  {
    PlanSound(sessionId, s.id, s.packet, s.budget);
    var pieces, frames := PiecesOf(s.packet, s.budget), Plan(sessionId, s.id, s.packet, s.budget).value;
    MessageRoundTrip(t, UdpMessage(sessionId, s.id, k, |pieces|, s.packet.destination, pieces[k]));
    assert DecodeMessage(t, frames[k]) == Ok(FragmentTrace(sessionId, CutOf(s))[k].message);
  }

  lemma {:induction false} InOrderCovers(sessionId: u32, c: Cut)
    requires 2 <= |c.pieces| <= 255
    ensures var trace := FragmentTrace(sessionId, c);
            && Filter(trace, c.id) == trace && Prompt(trace) && Clocked(trace)
            && Covers(trace, |trace|) && !Covers(Init(trace), |trace|)
  {
    var trace := FragmentTrace(sessionId, c);
    FilterAll(trace, c.id);
    SeenInOrder(trace);
  }

  /** Every packet that is sent in two frames or more comes out of a fresh reassembler when its frames arrive in
      order. */
  lemma {:induction false} InOrderDelivers(t: IpText, sessionId: u32, s: Sent)
    requires Lawful(t) && Carried(t, s.packet.destination) && Plan(sessionId, s.id, s.packet, s.budget).Ok?
    requires 2 <= |CutOf(s).pieces| <= 255
    ensures Answer(map[], FragmentTrace(sessionId, CutOf(s))) == Ok(Some(s.packet))
  {
    var trace := FragmentTrace(sessionId, CutOf(s));
    InOrderCovers(sessionId, CutOf(s));
    forall k | 0 <= k < |trace| ensures FromSend(t, sessionId, s, trace[k].message) {
      InOrderDecodes(t, sessionId, s, k);
    }
    PlanSound(sessionId, s.id, s.packet, s.budget);
    OwnTraceDelivers(t, sessionId, s, trace);
  }

  lemma {:induction false} OwnTraceDelivers(t: IpText, sessionId: u32, s: Sent, trace: seq<Arrival>)
    requires Lawful(t) && Carried(t, s.packet.destination) && Plan(sessionId, s.id, s.packet, s.budget).Ok?
    requires 2 <= |Plan(sessionId, s.id, s.packet, s.budget).value| == |trace|
    requires Filter(trace, s.id) == trace && Prompt(trace) && Clocked(trace)
    requires Covers(trace, |trace|) && !Covers(Init(trace), |trace|)
    requires forall k :: 0 <= k < |trace| ==> FromSend(t, sessionId, s, trace[k].message)
    ensures Answer(map[], trace) == Ok(Some(s.packet))
  {
    assert IsFor(Filter(trace, s.id)[|trace| - 1], s.id);
    SendThenReassemble(t, sessionId, s, map[], trace);
  }

  // ---- many sends at once ----

  /** The ids of consecutive sends, from counter value `base` on. */
  function IdsFrom(base: nat, count: nat): (ids: seq<u16>)
    ensures |ids| == count
    ensures forall i :: 0 <= i < count ==> ids[i] == PacketId(base + i)
  {
    if count == 0 then [] else IdsFrom(base, count - 1) + [PacketId(base + (count - 1))]
  }

  /** Sends that do not straddle the one whose incremented counter wraps to zero. */
  predicate ClearOfWrap(base: nat, count: nat) {
    base % 0x1_0000_0000 + count < 0x1_0000_0000 || base % 0x1_0000_0000 == 0xffff_ffff
  }

  predicate Distinct(ids: seq<u16>) {
    forall i, j :: 0 <= i < j < |ids| ==> ids[i] != ids[j]
  }

  /** Up to 65535 consecutive sends all have different ids exactly when they are clear of the wrap. */
  lemma ConsecutiveIds(base: nat, count: nat)
    requires count <= 0xffff
    ensures Distinct(IdsFrom(base, count)) <==> ClearOfWrap(base, count)
  {
    var ids := IdsFrom(base, count);
    if ClearOfWrap(base, count) {
      forall i, j | 0 <= i < j < |ids| ensures ids[i] != ids[j] {
        NoWrapBetween(base, count, i, j);
      }
    } else {
      var i := WrapBetween(base, count);
      assert ids[i] == ids[i + 1];
    }
  }

  lemma NoWrapBetween(base: nat, count: nat, i: nat, j: nat)
    requires count <= 0xffff && ClearOfWrap(base, count) && i < j < count
    ensures PacketId(base + i) != PacketId(base + j)
  {
    PacketIdsCollide(base + i, base + j);
    ModAdd(base, j + 1);
  }

  lemma WrapBetween(base: nat, count: nat) returns (i: nat)
    requires count <= 0xffff && !ClearOfWrap(base, count)
    ensures i + 1 < count && PacketId(base + i) == PacketId(base + (i + 1))
  {
    i := 0xffff_fffe - base % 0x1_0000_0000;
    PacketIdsCollide(base + i, base + (i + 1));
    ModAdd(base, i + 2);
  }

  // ---- what a shared id does ----

  lemma {:induction false} ChunkLengths(data: seq<byte>, size: nat, k: nat, before: nat)
    requires size > 0 && k < |Chunks(data, size)| && before == k * size
    ensures |Chunks(data, size)[k]| == Min(size, |data| - before)
    decreases |data|
  {
    if k > 0 {
      OneLess(k, size);
      ChunkLengths(data[size..], size, k - 1, before - size);
    }
  }

  lemma OneLess(k: nat, size: nat)
    requires k > 0
    ensures (k - 1) * size == k * size - size >= 0
  {
    MulMonotone(1, k, size);
  }

  /** The first j pieces of one packet and the others of another. */
  function Mixed(a: Cut, b: Cut, j: nat): Cut
    requires j <= |a.pieces| == |b.pieces|
  {
    a.(pieces := a.pieces[..j] + b.pieces[j..])
  }

  /** Two packets to one destination that share an id and a number of fragments mix: fragments of both fill one
      set, and the answer is that of a packet nobody sent. */
  lemma {:induction false} SharedIdMixes(sessionId: u32, a: Cut, b: Cut, j: nat)
    requires a.id == b.id && a.destination == b.destination
    requires 2 <= |a.pieces| == |b.pieces| <= 255 && j <= |a.pieces|
    ensures var trace := FragmentTrace(sessionId, Mixed(a, b, j));
            && (forall k :: 0 <= k < j ==> trace[k] == FragmentTrace(sessionId, a)[k])
            && (forall k :: j <= k < |trace| ==> trace[k] == FragmentTrace(sessionId, b)[k])
            && Answer(map[], trace) == Whole(Mixed(a, b, j))
  {
    var c := Mixed(a, b, j);
    var trace := FragmentTrace(sessionId, c);
    InOrderCovers(sessionId, c);
    OwnFragmentsDeliver(c, trace);
  }

  lemma {:induction false} OwnFragmentsDeliver(c: Cut, trace: seq<Arrival>)
    requires 2 <= |c.pieces| <= 255 && |trace| == |c.pieces|
    requires Filter(trace, c.id) == trace && Prompt(trace) && Clocked(trace)
    requires Covers(trace, |trace|) && !Covers(Init(trace), |trace|)
    requires forall k :: 0 <= k < |trace| ==> CopyOf(trace[k].message, c.id, c.pieces, c.destination)
    ensures Answer(map[], trace) == Whole(c)
  {
    assert IsFor(Filter(trace, c.id)[|trace| - 1], c.id);
    Identity(map[], trace, c.id, c.pieces, c.destination);
  }

  /** A destination that every notation reads back: the host x. */
  const PLAIN := Address([120], 1)

  lemma PlainIsCarried(t: IpText)
    requires Lawful(t)
    ensures Carried(t, PLAIN) && HeaderSize(PLAIN) == 12
  {
    assert !IsIpChar(PLAIN.host[0]) && t.parse(PLAIN.host).None?;
    assert Display(PLAIN) == [120, COLON] + [49];
    AsciiIsUtf8(PLAIN.host);
  }

  function FullPayload(): (data: seq<byte>)
    ensures |data| == MAX_UDP_SIZE
  {
    seq(MAX_UDP_SIZE, _ => 0)
  }

  /** Packets of full size, the first with the initial budget, the second on a path that takes less. */
  const BEFORE_WRAP := Sent(PacketId(0xffff_fffe), Packet(FullPayload(), PLAIN), INITIAL_UDP_MTU)
  const AT_WRAP := Sent(PacketId(0xffff_ffff), Packet(FullPayload(), PLAIN), Budget(Some(1050)))

  lemma FourPieces(s: Sent, size: nat)
    requires |s.packet.data| == MAX_UDP_SIZE && s.packet.destination == PLAIN && HeaderSize(PLAIN) == 12
    requires s.budget == size + 12 && 1024 <= size <= 1185
    ensures |CutOf(s).pieces| == 4
    ensures forall k :: 0 <= k < 4 ==> |CutOf(s).pieces[k]| == Min(size, MAX_UDP_SIZE - k * size)
  {
    ChunkCount(s.packet.data, size);
    CeilDivBound(MAX_UDP_SIZE, size, 4);
    CeilDivBound(MAX_UDP_SIZE, size, 3);
    assert CutOf(s).pieces == Chunks(s.packet.data, size);
    forall k | 0 <= k < 4 ensures |CutOf(s).pieces[k]| == Min(size, MAX_UDP_SIZE - k * size) {
      ChunkLengths(s.packet.data, size, k, k * size);
    }
  }

  lemma ConcatFour(parts: seq<seq<byte>>)
    requires |parts| == 4
    ensures |Concat(parts)| == |parts[0]| + |parts[1]| + |parts[2]| + |parts[3]|
  {
    ConcatAt(parts, 3);
    ConcatAt(parts, 2);
    ConcatAt(parts, 1);
    ConcatAt(parts, 0);
    assert parts[..4] == parts && parts[..0] == [];
  }

  /** The two sends at the counter wrap, neither of them refused: three frames of the first and the last of the
      second make the reassembler fail. */
  lemma WrapBreaksReassembly(t: IpText, sessionId: u32)
    requires Lawful(t)
    ensures BEFORE_WRAP.id == AT_WRAP.id && |CutOf(BEFORE_WRAP).pieces| == |CutOf(AT_WRAP).pieces| == 4
    ensures Plan(sessionId, BEFORE_WRAP.id, BEFORE_WRAP.packet, BEFORE_WRAP.budget).Ok?
    ensures Plan(sessionId, AT_WRAP.id, AT_WRAP.packet, AT_WRAP.budget).Ok?
    ensures var a, b := CutOf(BEFORE_WRAP), CutOf(AT_WRAP);
            var trace := FragmentTrace(sessionId, Mixed(a, b, 3));
            && (forall k :: 0 <= k < 3 ==> trace[k] == FragmentTrace(sessionId, a)[k])
            && trace[3] == FragmentTrace(sessionId, b)[3]
            && Answer(map[], trace).Err?
  {
    PlainIsCarried(t);
    var a, b := CutOf(BEFORE_WRAP), CutOf(AT_WRAP);
    PacketIdsCollide(0xffff_fffe, 0xffff_ffff);
    FourPieces(BEFORE_WRAP, 1185);
    FourPieces(AT_WRAP, 1035);
    SharedIdMixes(sessionId, a, b, 3);
    ConcatFour(Mixed(a, b, 3).pieces);
    PlanAccepts(sessionId, BEFORE_WRAP.id, BEFORE_WRAP.packet, BEFORE_WRAP.budget);
    PlanAccepts(sessionId, AT_WRAP.id, AT_WRAP.packet, AT_WRAP.budget);
  }

  /** Frames of sends with different ids: arrival x decodes from a frame of the send `origin[x]`. */
  predicate FramesOfSends(t: IpText, sessionId: u32, sends: seq<Sent>, origin: seq<nat>, trace: seq<Arrival>) {
    && |origin| == |trace|
    && (forall i :: 0 <= i < |sends| ==> Carried(t, sends[i].packet.destination))
    && (forall i, j :: 0 <= i < j < |sends| ==> sends[i].id != sends[j].id)
    && (forall x :: 0 <= x < |trace| ==>
          origin[x] < |sends| && FromSend(t, sessionId, sends[origin[x]], trace[x].message))
  }

  /** The frames of any sends with different ids may be lost, repeated, reordered and delayed at will: the
      reassembler never fails on them, and delivers nothing but the packet of the send the last one belongs to. */
  lemma OnlySentPacketsArrive(t: IpText, sessionId: u32, sends: seq<Sent>, origin: seq<nat>, trace: seq<Arrival>)
    requires Lawful(t) && trace != [] && FramesOfSends(t, sessionId, sends, origin, trace)
    ensures Answer(map[], trace) == Ok(None) || Answer(map[], trace) == Ok(Some(sends[origin[|trace| - 1]].packet))
  {
    forall x | 0 <= x < |trace|
      ensures origin[x] < |sends|
      ensures var s := sends[origin[x]];
              CopyOf(trace[x].message, s.id, PiecesOf(s.packet, s.budget), s.packet.destination)
    {
      FramesDecode(t, sessionId, sends[origin[x]], trace[x].message);
    }
    var s := sends[origin[|trace| - 1]];
    PlanSound(sessionId, s.id, s.packet, s.budget);
    CutsArrive(sends, origin, trace);
  }

  lemma CutsArrive(sends: seq<Sent>, origin: seq<nat>, trace: seq<Arrival>)
    requires forall i, j :: 0 <= i < j < |sends| ==> sends[i].id != sends[j].id
    requires |origin| == |trace| && trace != []
    requires forall x :: 0 <= x < |trace| ==>
               && origin[x] < |sends|
               && var s := sends[origin[x]];
               CopyOf(trace[x].message, s.id, PiecesOf(s.packet, s.budget), s.packet.destination)
    requires |sends[origin[|trace| - 1]].packet.data| <= MAX_UDP_SIZE
    ensures Answer(map[], trace) == Ok(None) || Answer(map[], trace) == Ok(Some(sends[origin[|trace| - 1]].packet))
  {
    var cuts := seq(|sends|, i requires 0 <= i < |sends| => CutOf(sends[i]));
    NothingElseArrives(cuts, origin, trace);
  }

  /** The same for consecutive calls of `send`, which draw their ids from the counter: up to 65535 of them,
      clear of the wrap. */
  lemma ConsecutiveSendsArrive(t: IpText, sessionId: u32, base: nat, sends: seq<Sent>, origin: seq<nat>,
                               trace: seq<Arrival>)
    requires Lawful(t) && trace != [] && |sends| <= 0xffff && ClearOfWrap(base, |sends|)
    requires forall i :: 0 <= i < |sends| ==>
               sends[i].id == PacketId(base + i) && Carried(t, sends[i].packet.destination)
    requires |origin| == |trace| && forall x :: 0 <= x < |trace| ==>
               origin[x] < |sends| && FromSend(t, sessionId, sends[origin[x]], trace[x].message)
    ensures Answer(map[], trace) == Ok(None) || Answer(map[], trace) == Ok(Some(sends[origin[|trace| - 1]].packet))
  {
    ConsecutiveIds(base, |sends|);
    var ids := IdsFrom(base, |sends|);
    assert forall i :: 0 <= i < |sends| ==> sends[i].id == ids[i];
    OnlySentPacketsArrive(t, sessionId, sends, origin, trace);
  }
}
