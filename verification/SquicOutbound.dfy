/** The sending side of SQuic UDP associations (`ShadowQuicPacketConnection::send` in
    src/shadowquic/mod.rs). All associations of a connection share one 16-bit id counter. */
module SquicOutbound {
  import opened Bytes
  import opened Addresses
  import opened SquicWire

  datatype UdpMode = DatagramMode | StreamMode

  datatype Packet = Packet(data: seq<byte>, destination: Address)

  datatype Context = DatagramContext(id: u16) | StreamContext(uni: nat)

  /** One association: the bytes written to its control stream, which start with `header`, and its
      contexts. `announced` and `sent` are history: announcements written, packets accepted. */
  datatype Sender = Sender(
    mode: UdpMode,
    header: seq<byte>,
    control: seq<byte>,
    contexts: map<Address, Context>,
    announced: seq<Announcement>,
    sent: seq<Packet>)

  /** A unidirectional stream: the bytes written to it. The other fields are history. */
  datatype Uni = Uni(
    bytes: seq<byte>,
    association: nat,
    destination: Address,
    id: u16,
    payloads: seq<seq<byte>>)

  /** What one increment of the id counter was for. */
  datatype Allocation = Allocation(association: nat, destination: Address)

  datatype Outbound = Outbound(
    allocations: seq<Allocation>,
    senders: seq<Sender>,
    unis: seq<Uni>,
    datagrams: seq<seq<byte>>)

  const IDS := 0x1_0000

  /** The id the next `fetch_add` returns. */
  function NextId(o: Outbound): u16 { |o.allocations| % IDS }

  /** What QUIC may refuse during a send: writing the announcement, opening the stream, or taking the
      payload. A refused write adds nothing that the other end reads. */
  datatype Fault = NoFault | AnnounceFails | OpenFails | PayloadFails

  function WithSender(o: Outbound, a: nat, s: Sender): Outbound
    requires a < |o.senders|
  {
    o.(senders := o.senders[a := s])
  }

  function Allocate(o: Outbound, a: nat, destination: Address): Outbound {
    o.(allocations := o.allocations + [Allocation(a, destination)])
  }

  function Announce(t: IpText, o: Outbound, a: nat, n: Announcement): Outbound
    requires a < |o.senders| && EncodeAddress(t, n.destination).Ok?
  {
    var s := o.senders[a];
    WithSender(o, a, s.(control := s.control + EncodeAnnouncement(t, n), announced := s.announced + [n]))
  }

  function AddContext(o: Outbound, a: nat, destination: Address, context: Context): Outbound
    requires a < |o.senders|
  {
    WithSender(o, a, o.senders[a].(contexts := o.senders[a].contexts[destination := context]))
  }

  /** The context of a new destination, with the stream it may need. */
  function OpenContext(o: Outbound, a: nat, n: Announcement): Outbound
    requires a < |o.senders|
  {
    match o.senders[a].mode
    case DatagramMode => AddContext(o, a, n.destination, DatagramContext(n.id))
    case StreamMode =>
      AddContext(o.(unis := o.unis + [Uni(Be16(n.id), a, n.destination, n.id, [])]), a, n.destination,
                 StreamContext(|o.unis|))
  }

  function Accepted(o: Outbound, a: nat, packet: Packet): Outbound
    requires a < |o.senders|
  {
    WithSender(o, a, o.senders[a].(sent := o.senders[a].sent + [packet]))
  }

  /** The payload of a packet whose destination has a context. */
  function SendPayload(o: Outbound, a: nat, packet: Packet, fault: Fault): (Outbound, Result<()>)
    requires a < |o.senders| && packet.destination in o.senders[a].contexts
  {
    match o.senders[a].contexts[packet.destination]
    case DatagramContext(id) =>
      if fault.PayloadFails? then (o, Err(Protocol("datagram refused")))
      else (Accepted(o.(datagrams := o.datagrams + [Be16(id) + packet.data]), a, packet), Ok(()))
    case StreamContext(u) =>
      if |packet.data| >= 0x1_0000 then (o, Err(Protocol("ShadowQuic UDP packet exceeds 65535 bytes")))
      else if fault.PayloadFails? || u >= |o.unis| then (o, Err(Closed))
      else
        var uni := o.unis[u];
        var next := uni.(bytes := uni.bytes + EncodeRecord(packet.data), payloads := uni.payloads + [packet.data]);
        (Accepted(o.(unis := o.unis[u := next]), a, packet), Ok(()))
  }

  /** A context for a destination that has none. The id is spent even if the address cannot be encoded. */
  function NewContext(t: IpText, o: Outbound, a: nat, destination: Address, fault: Fault):
    (r: (Outbound, Result<()>))
    requires a < |o.senders| && destination !in o.senders[a].contexts
    ensures |r.0.senders| == |o.senders|
    ensures r.1.Ok? <==> destination in r.0.senders[a].contexts
  {
    var id := NextId(o);
    var o1 := Allocate(o, a, destination);
    var wire := EncodeAddress(t, destination);
    if wire.Err? then (o1, Err(wire.error))
    else if fault.AnnounceFails? then (o1, Err(Closed))
    else
      var n := Announcement(destination, id);
      var o2 := Announce(t, o1, a, n);
      if fault.OpenFails? && o.senders[a].mode.StreamMode? then (o2, Err(Closed))
      else (OpenContext(o2, a, n), Ok(()))
  }

  /** `send`, which runs to completion while it holds the association's lock. */
  function Send(t: IpText, o: Outbound, a: nat, packet: Packet, fault: Fault): (Outbound, Result<()>)
    requires a < |o.senders|
  {
    if packet.destination in o.senders[a].contexts then SendPayload(o, a, packet, fault)
    else
      var (o1, outcome) := NewContext(t, o, a, packet.destination, fault);
      if outcome.Err? then (o1, outcome) else SendPayload(o1, a, packet, fault)
  }

  /** The endpoint's mutable state: the wrapping counter, the associations, and what was given to QUIC. */
  class Endpoint {
    var nextId: u16
    var senders: seq<Sender>
    var unis: seq<Uni>
    var datagrams: seq<seq<byte>>
    ghost var allocations: seq<Allocation>

    ghost function View(): Outbound
      reads this
    {
      Outbound(allocations, senders, unis, datagrams)
    }

    ghost predicate Invariant()
      reads this
    {
      nextId == NextId(View())
    }

    constructor ()
      ensures View() == Outbound([], [], [], []) && Invariant()
    {
      nextId, senders, unis, datagrams, allocations := 0, [], [], [], [];
    }

    /** `send` step by step, in the source's order of effects. */
    method SendPacket(t: IpText, a: nat, packet: Packet, fault: Fault) returns (r: Result<()>)
      requires Invariant() && a < |senders|
      modifies this
      ensures Invariant()
      ensures (View(), r) == Send(t, old(View()), a, packet, fault)
    {
      var destination := packet.destination;
      if destination !in senders[a].contexts {
        var id := nextId;
        nextId := (nextId + 1) % IDS;
        allocations := allocations + [Allocation(a, destination)];
        var wire := EncodeAddress(t, destination);
        if wire.Err? {
          return Err(wire.error);
        }
        if fault.AnnounceFails? {
          return Err(Closed);
        }
        var s := senders[a];
        s := s.(control := s.control + (wire.value + Be16(id)),
                announced := s.announced + [Announcement(destination, id)]);
        senders := senders[a := s];
        var context := DatagramContext(id);
        if s.mode.StreamMode? {
          if fault.OpenFails? {
            return Err(Closed);
          }
          context := StreamContext(|unis|);
          unis := unis + [Uni(Be16(id), a, destination, id, [])];
        }
        senders := senders[a := s.(contexts := s.contexts[destination := context])];
        assert (View(), Ok(())) == NewContext(t, old(View()), a, destination, fault);
      }
      r := SendInContext(a, packet, fault);
    }

    method SendInContext(a: nat, packet: Packet, fault: Fault) returns (r: Result<()>)
      requires a < |senders| && packet.destination in senders[a].contexts
      modifies this`senders, this`unis, this`datagrams
      ensures (View(), r) == SendPayload(old(View()), a, packet, fault)
    {
      match senders[a].contexts[packet.destination] {
        case DatagramContext(id) =>
          if fault.PayloadFails? {
            return Err(Protocol("datagram refused"));
          }
          datagrams := datagrams + [Be16(id) + packet.data];
        case StreamContext(u) =>
          if |packet.data| >= 0x1_0000 {
            return Err(Protocol("ShadowQuic UDP packet exceeds 65535 bytes"));
          }
          if fault.PayloadFails? || u >= |unis| {
            return Err(Closed);
          }
          var uni := unis[u];
          unis := unis[u := uni.(bytes := uni.bytes + EncodeRecord(packet.data),
                                 payloads := uni.payloads + [packet.data])];
      }
      senders := senders[a := senders[a].(sent := senders[a].sent + [packet])];
      return Ok(());
    }
  }
}
