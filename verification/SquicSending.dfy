/** What one call of `ShadowQuicPacketConnection::send` does, exactly (src/shadowquic/mod.rs): when it succeeds, what
    is then on the wire, and that a failure carries nothing. */
module SquicSending {
  import opened Bytes
  import opened Addresses
  import opened SquicWire
  import opened SquicOutbound
  import opened SquicOutboundProofs
  import opened SquicDelivery

  /** The destination has a context, or gets one; QUIC takes the payload; and in stream mode it is not too long. */
  predicate CanSend(t: IpText, o: Outbound, a: nat, packet: Packet, fault: Fault)
    requires a < |o.senders|
  {
    var s := o.senders[a];
    && (packet.destination in s.contexts ||
        (&& EncodeAddress(t, packet.destination).Ok? && !fault.AnnounceFails?
         && (fault.OpenFails? ==> s.mode.DatagramMode?)))
    && !fault.PayloadFails?
    && (s.mode.StreamMode? ==> |packet.data| <= 65535)
  }

  /** The context a packet uses fits the mode of its association. */
  predicate FitsMode(o: Outbound, a: nat, d: Address)
    requires a < |o.senders| && d in o.senders[a].contexts
  {
    match o.senders[a].contexts[d]
    case DatagramContext(_) => o.senders[a].mode.DatagramMode?
    case StreamContext(u) =>
      o.senders[a].mode.StreamMode? && u < |o.unis| && o.unis[u].association == a && o.unis[u].destination == d
  }

  lemma ContextFits(t: IpText, o: Outbound, a: nat, d: Address)
    requires OutboundOk(t, o) && a < |o.senders| && d in o.senders[a].contexts
    ensures FitsMode(o, a, d) && Announcement(d, ContextId(o, a, d)) in o.senders[a].announced
  {
    assert SenderOk(t, o, a) && ContextOk(o, a, d);
  }

  /** The id of a context. */
  function ContextId(o: Outbound, a: nat, d: Address): u16
    requires a < |o.senders| && d in o.senders[a].contexts && FitsMode(o, a, d)
  {
    match o.senders[a].contexts[d]
    case DatagramContext(id) => id
    case StreamContext(u) => o.unis[u].id
  }

  lemma NewContextFits(t: IpText, o: Outbound, a: nat, d: Address, fault: Fault)
    requires a < |o.senders| && d !in o.senders[a].contexts
    ensures var (r, outcome) := NewContext(t, o, a, d, fault);
            && (outcome.Ok? <==> EncodeAddress(t, d).Ok? && !fault.AnnounceFails?
                                 && (fault.OpenFails? ==> o.senders[a].mode.DatagramMode?))
            && |r.senders| == |o.senders| && r.senders[a].mode == o.senders[a].mode
            && SameTraffic(o, r)
            && (outcome.Ok? ==>
                  && d in r.senders[a].contexts && FitsMode(r, a, d)
                  && ContextId(r, a, d) == NextId(o)
                  && Announcement(d, NextId(o)) in r.senders[a].announced
                  && (o.senders[a].mode.StreamMode? ==>
                        r.senders[a].contexts[d] == StreamContext(|o.unis|) && |r.unis| == |o.unis| + 1))
  {
    if EncodeAddress(t, d).Ok? {
      var n := |o.senders[a].announced|;
      assert (o.senders[a].announced + [Announcement(d, NextId(o))])[n] == Announcement(d, NextId(o));
    }
  }

  /** A call succeeds exactly when it can. */
  lemma SendSucceeds(t: IpText, o: Outbound, a: nat, packet: Packet, fault: Fault)
    requires OutboundOk(t, o) && a < |o.senders|
    ensures Send(t, o, a, packet, fault).1.Ok? <==> CanSend(t, o, a, packet, fault)
  {
    if packet.destination in o.senders[a].contexts {
      ContextFits(t, o, a, packet.destination);
    } else {
      NewContextFits(t, o, a, packet.destination, fault);
    }
  }

  /** The traffic of r is that of o and one packet more: accepted on association a and nowhere else, and handed over
      once, as a datagram or on one stream of that association and destination. */
  predicate OneMore(o: Outbound, r: Outbound, a: nat, packet: Packet, id: u16)
    requires a < |o.senders|
  {
    && |r.senders| == |o.senders|
    && (forall b :: 0 <= b < |o.senders| ==>
          r.senders[b].sent == if b == a then o.senders[b].sent + [packet] else o.senders[b].sent)
    && Announcement(packet.destination, id) in r.senders[a].announced
    && match o.senders[a].mode
       case DatagramMode => r.unis == o.unis && r.datagrams == o.datagrams + [Be16(id) + packet.data]
       case StreamMode => r.datagrams == o.datagrams && OneRecordMore(o, r, a, packet, id)
  }

  predicate OneRecordMore(o: Outbound, r: Outbound, a: nat, packet: Packet, id: u16) {
    && |packet.data| <= 65535 && |o.unis| <= |r.unis| <= |o.unis| + 1
    && exists u :: 0 <= u < |r.unis| && (u == |o.unis| || |r.unis| == |o.unis|) && GrewBy(o, r, u, a, packet, id)
  }

  /** Stream u carries one record more, and the other streams are as they were. */
  predicate GrewBy(o: Outbound, r: Outbound, u: nat, a: nat, packet: Packet, id: u16)
    requires u < |r.unis| && |o.unis| <= |r.unis| && |packet.data| <= 65535
  {
    var x, was := r.unis[u], if u < |o.unis| then o.unis[u] else Uni(Be16(id), a, packet.destination, id, []);
    && was.association == a && was.destination == packet.destination && was.id == id
    && x == was.(bytes := was.bytes + Be16(|packet.data|) + packet.data, payloads := was.payloads + [packet.data])
    && forall v :: 0 <= v < |o.unis| && v != u ==> r.unis[v] == o.unis[v]
  }

  lemma PayloadIsOneMore(o: Outbound, a: nat, packet: Packet, fault: Fault)
    requires a < |o.senders| && packet.destination in o.senders[a].contexts && FitsMode(o, a, packet.destination)
    requires Announcement(packet.destination, ContextId(o, a, packet.destination)) in o.senders[a].announced
    requires !fault.PayloadFails? && (o.senders[a].mode.StreamMode? ==> |packet.data| <= 65535)
    ensures var r := SendPayload(o, a, packet, fault).0;
            OneMore(o, r, a, packet, ContextId(o, a, packet.destination)) && |r.unis| == |o.unis|
  {
    var r, id := SendPayload(o, a, packet, fault).0, ContextId(o, a, packet.destination);
    match o.senders[a].contexts[packet.destination]
    case DatagramContext(_) =>
    case StreamContext(u) =>
      assert o.unis[u].bytes + EncodeRecord(packet.data) == o.unis[u].bytes + Be16(|packet.data|) + packet.data;
      assert GrewBy(o, r, u, a, packet, id);
  }

  /** The same on top of a context that was just opened. */
  lemma NewIsOneMore(t: IpText, o: Outbound, a: nat, packet: Packet, fault: Fault)
    requires a < |o.senders| && packet.destination !in o.senders[a].contexts && CanSend(t, o, a, packet, fault)
    ensures OneMore(o, Send(t, o, a, packet, fault).0, a, packet, NextId(o))
  {
    var d, id := packet.destination, NextId(o);
    var o1 := NewContext(t, o, a, d, fault).0;
    NewContextFits(t, o, a, d, fault);
    PayloadIsOneMore(o1, a, packet, fault);
    var r := SendPayload(o1, a, packet, fault).0;
    if o.senders[a].mode.StreamMode? {
      var u := |o.unis|;
      assert o1.unis == o.unis + [Uni(Be16(id), a, d, id, [])];
      assert r.unis[u].bytes == Be16(id) + Be16(|packet.data|) + packet.data by {
        assert Be16(id) + EncodeRecord(packet.data) == Be16(id) + Be16(|packet.data|) + packet.data;
      }
      assert GrewBy(o, r, u, a, packet, id);
    }
  }

  /** A call that succeeds adds exactly its packet, under an id announced for its destination; one that fails adds
      nothing that carries a packet. */
  lemma SendExactly(t: IpText, o: Outbound, a: nat, packet: Packet, fault: Fault) returns (id: u16)
    requires OutboundOk(t, o) && a < |o.senders|
    ensures var (r, outcome) := Send(t, o, a, packet, fault);
            if CanSend(t, o, a, packet, fault) then outcome.Ok? && OneMore(o, r, a, packet, id)
            else outcome.Err? && SameTraffic(o, r)
  {
    SendSucceeds(t, o, a, packet, fault);
    var d := packet.destination;
    id := NextId(o);
    if d in o.senders[a].contexts {
      ContextFits(t, o, a, d);
      id := ContextId(o, a, d);
      if CanSend(t, o, a, packet, fault) {
        PayloadIsOneMore(o, a, packet, fault);
      }
    } else {
      NewContextFits(t, o, a, d, fault);
      if CanSend(t, o, a, packet, fault) {
        NewIsOneMore(t, o, a, packet, fault);
      }
    }
  }
}
