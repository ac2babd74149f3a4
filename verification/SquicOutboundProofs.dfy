/** What every send keeps: each id belongs to one association and destination, and each byte stream is
    the concatenation of the frames written to it. */
module SquicOutboundProofs {
  import opened Bytes
  import opened Addresses
  import opened SquicWire
  import opened SquicOutbound

  // ---- framed streams ----

  predicate Encodable(t: IpText, ns: seq<Announcement>) {
    forall j :: 0 <= j < |ns| ==> EncodeAddress(t, ns[j].destination).Ok?
  }

  function AnnouncementFrames(t: IpText, ns: seq<Announcement>): (frames: seq<seq<byte>>)
    requires Encodable(t, ns)
    ensures |frames| == |ns| && forall j :: 0 <= j < |ns| ==> frames[j] == EncodeAnnouncement(t, ns[j])
  {
    seq(|ns|, j requires 0 <= j < |ns| => EncodeAnnouncement(t, ns[j]))
  }

  function AnnouncedBytes(t: IpText, ns: seq<Announcement>): seq<byte>
    requires Encodable(t, ns)
  {
    Concat(AnnouncementFrames(t, ns))
  }

  lemma AnnouncedSnoc(t: IpText, ns: seq<Announcement>, n: Announcement)
    requires Encodable(t, ns) && EncodeAddress(t, n.destination).Ok?
    ensures Encodable(t, ns + [n])
    ensures AnnouncedBytes(t, ns + [n]) == AnnouncedBytes(t, ns) + EncodeAnnouncement(t, n)
  {
    assert AnnouncementFrames(t, ns + [n]) == AnnouncementFrames(t, ns) + [EncodeAnnouncement(t, n)];
    ConcatSnoc(AnnouncementFrames(t, ns), EncodeAnnouncement(t, n));
  }

  /** The k-th announcement stands where the first k end. */
  lemma AnnouncedAt(t: IpText, ns: seq<Announcement>, k: nat) returns (rest: seq<byte>)
    requires k < |ns| && Encodable(t, ns)
    ensures AnnouncedBytes(t, ns) == AnnouncedBytes(t, ns[..k]) + (EncodeAnnouncement(t, ns[k]) + rest)
    ensures AnnouncedBytes(t, ns[..k + 1]) == AnnouncedBytes(t, ns[..k]) + EncodeAnnouncement(t, ns[k])
  {
    var frames := AnnouncementFrames(t, ns);
    assert AnnouncementFrames(t, ns[..k]) == frames[..k] && AnnouncementFrames(t, ns[..k + 1]) == frames[..k + 1];
    ConcatAt(frames, k);
    rest := Concat(frames[k + 1..]);
  }

  predicate Short(payloads: seq<seq<byte>>) {
    forall k :: 0 <= k < |payloads| ==> |payloads[k]| < 0x1_0000
  }

  function RecordFrames(payloads: seq<seq<byte>>): (frames: seq<seq<byte>>)
    requires Short(payloads)
    ensures |frames| == |payloads| && forall k :: 0 <= k < |payloads| ==> frames[k] == EncodeRecord(payloads[k])
  {
    seq(|payloads|, k requires 0 <= k < |payloads| => EncodeRecord(payloads[k]))
  }

  function Records(payloads: seq<seq<byte>>): seq<byte>
    requires Short(payloads)
  {
    Concat(RecordFrames(payloads))
  }

  lemma RecordsSnoc(payloads: seq<seq<byte>>, data: seq<byte>)
    requires Short(payloads) && |data| < 0x1_0000
    ensures Short(payloads + [data])
    ensures Records(payloads + [data]) == Records(payloads) + EncodeRecord(data)
  {
    assert RecordFrames(payloads + [data]) == RecordFrames(payloads) + [EncodeRecord(data)];
    ConcatSnoc(RecordFrames(payloads), EncodeRecord(data));
  }

  lemma RecordsAt(payloads: seq<seq<byte>>, k: nat) returns (rest: seq<byte>)
    requires k < |payloads| && Short(payloads)
    ensures Records(payloads) == Records(payloads[..k]) + (EncodeRecord(payloads[k]) + rest)
    ensures Records(payloads[..k + 1]) == Records(payloads[..k]) + EncodeRecord(payloads[k])
  {
    var frames := RecordFrames(payloads);
    assert RecordFrames(payloads[..k]) == frames[..k] && RecordFrames(payloads[..k + 1]) == frames[..k + 1];
    ConcatAt(frames, k);
    rest := Concat(frames[k + 1..]);
  }

  // ---- the invariant of the sending end ----

  /** The payloads accepted for one destination, in order. */
  function SentTo(sent: seq<Packet>, d: Address): seq<seq<byte>> {
    if sent == [] then []
    else
      var init, last := sent[..|sent| - 1], sent[|sent| - 1];
      if last.destination == d then SentTo(init, d) + [last.data] else SentTo(init, d)
  }

  lemma SentSnoc(sent: seq<Packet>, p: Packet, d: Address)
    ensures SentTo(sent + [p], d) == if p.destination == d then SentTo(sent, d) + [p.data] else SentTo(sent, d)
  {
    assert (sent + [p])[..|sent|] == sent;
  }

  lemma {:induction false} SentNone(sent: seq<Packet>, d: Address)
    requires forall k :: 0 <= k < |sent| ==> sent[k].destination != d
    ensures SentTo(sent, d) == []
    decreases |sent|
  {
    if sent != [] {
      SentNone(sent[..|sent| - 1], d);
    }
  }

  lemma {:induction false} SentToWasSent(sent: seq<Packet>, d: Address, data: seq<byte>)
    requires data in SentTo(sent, d)
    ensures Packet(data, d) in sent
    decreases |sent|
  {
    if sent != [] {
      var init, last := sent[..|sent| - 1], sent[|sent| - 1];
      if last.destination != d || last.data != data {
        SentToWasSent(init, d, data);
      }
    }
  }

  lemma {:induction false} SentIsSentTo(sent: seq<Packet>, p: Packet)
    requires p in sent
    ensures p.data in SentTo(sent, p.destination)
    decreases |sent|
  {
    var init, last := sent[..|sent| - 1], sent[|sent| - 1];
    if last != p {
      SentIsSentTo(init, p);
    }
  }

  /** Id `id` was given out once, to this association for this destination. */
  predicate Allocated(o: Outbound, id: nat, a: nat, d: Address) {
    id < |o.allocations| && o.allocations[id] == Allocation(a, d)
  }

  predicate ContextOk(o: Outbound, a: nat, d: Address)
    requires a < |o.senders| && d in o.senders[a].contexts
  {
    match o.senders[a].contexts[d]
    case DatagramContext(id) =>
      && o.senders[a].mode.DatagramMode?
      && Allocated(o, id, a, d) && Announcement(d, id) in o.senders[a].announced
    case StreamContext(u) =>
      && o.senders[a].mode.StreamMode?
      && u < |o.unis| && o.unis[u].association == a && o.unis[u].destination == d
      && Announcement(d, o.unis[u].id) in o.senders[a].announced
  }

  /** An accepted packet has a context, and in datagram mode its datagram was handed over. */
  predicate SentOk(o: Outbound, a: nat, p: Packet)
    requires a < |o.senders|
  {
    && p.destination in o.senders[a].contexts
    && var context := o.senders[a].contexts[p.destination];
    context.DatagramContext? ==> Be16(context.id) + p.data in o.datagrams
  }

  predicate SenderOk(t: IpText, o: Outbound, a: nat)
    requires a < |o.senders|
  {
    var s := o.senders[a];
    && Encodable(t, s.announced)
    && s.control == s.header + AnnouncedBytes(t, s.announced)
    && (forall j :: 0 <= j < |s.announced| ==> Allocated(o, s.announced[j].id, a, s.announced[j].destination))
    && (forall d | d in s.contexts :: ContextOk(o, a, d))
    && (forall k :: 0 <= k < |s.sent| ==> SentOk(o, a, s.sent[k]))
  }

  predicate UniOk(o: Outbound, u: nat)
    requires u < |o.unis|
  {
    var x := o.unis[u];
    && x.association < |o.senders|
    && x.destination in o.senders[x.association].contexts
    && o.senders[x.association].contexts[x.destination] == StreamContext(u)
    && Allocated(o, x.id, x.association, x.destination)
    && Short(x.payloads)
    && x.bytes == Be16(x.id) + Records(x.payloads)
    && x.payloads == SentTo(o.senders[x.association].sent, x.destination)
  }

  predicate DatagramOk(o: Outbound, bytes: seq<byte>) {
    && |bytes| >= 2
    && FromBe16(bytes[..2]) < |o.allocations|
    && var owner := o.allocations[FromBe16(bytes[..2])];
    && owner.association < |o.senders|
    && o.senders[owner.association].mode.DatagramMode?
    && Packet(bytes[2..], owner.destination) in o.senders[owner.association].sent
    && Announcement(owner.destination, FromBe16(bytes[..2])) in o.senders[owner.association].announced
  }

  predicate SendersOk(t: IpText, o: Outbound) {
    forall a :: 0 <= a < |o.senders| ==> SenderOk(t, o, a)
  }

  predicate UnisOk(o: Outbound) {
    forall u :: 0 <= u < |o.unis| ==> UniOk(o, u)
  }

  predicate DatagramsOk(o: Outbound) {
    forall k :: 0 <= k < |o.datagrams| ==> DatagramOk(o, o.datagrams[k])
  }

  predicate OutboundOk(t: IpText, o: Outbound) {
    SendersOk(t, o) && UnisOk(o) && DatagramsOk(o)
  }

  /** Nothing that was written or accepted is ever taken back. */
  predicate Grows(o: Outbound, o': Outbound) {
    && o.allocations <= o'.allocations
    && |o.senders| <= |o'.senders|
    && (forall a :: 0 <= a < |o.senders| ==>
          && o'.senders[a].mode == o.senders[a].mode
          && o'.senders[a].header == o.senders[a].header
          && o.senders[a].announced <= o'.senders[a].announced
          && o.senders[a].sent <= o'.senders[a].sent)
    && |o.unis| <= |o'.unis|
    && (forall u :: 0 <= u < |o.unis| ==>
          && o'.unis[u].association == o.unis[u].association
          && o'.unis[u].destination == o.unis[u].destination
          && o'.unis[u].id == o.unis[u].id
          && o.unis[u].payloads <= o'.unis[u].payloads)
    && o.datagrams <= o'.datagrams
  }

  lemma SenderKept(t: IpText, o: Outbound, r: Outbound, b: nat)
    requires b < |o.senders| && SenderOk(t, o, b) && Grows(o, r) && r.senders[b] == o.senders[b]
    ensures SenderOk(t, r, b)
  {
    forall e | e in r.senders[b].contexts ensures ContextOk(r, b, e) {
      assert ContextOk(o, b, e);
    }
    SentKept(o, r, b, o.senders[b].sent);
  }

  lemma SentKept(o: Outbound, r: Outbound, b: nat, sent: seq<Packet>)
    requires b < |o.senders| && b < |r.senders| && o.datagrams <= r.datagrams
    requires forall e | e in o.senders[b].contexts ::
               e in r.senders[b].contexts && r.senders[b].contexts[e] == o.senders[b].contexts[e]
    requires forall k :: 0 <= k < |sent| ==> SentOk(o, b, sent[k])
    ensures forall k :: 0 <= k < |sent| ==> SentOk(r, b, sent[k])
  {
    forall k | 0 <= k < |sent| ensures SentOk(r, b, sent[k]) {
      assert SentOk(o, b, sent[k]);
      var context := o.senders[b].contexts[sent[k].destination];
      if context.DatagramContext? {
        var j :| 0 <= j < |o.datagrams| && o.datagrams[j] == Be16(context.id) + sent[k].data;
        assert r.datagrams[j] == o.datagrams[j];
      }
    }
  }

  lemma UniKept(o: Outbound, r: Outbound, u: nat)
    requires u < |o.unis| && UniOk(o, u) && Grows(o, r) && r.unis[u] == o.unis[u]
    requires var x := o.unis[u];
             && x.destination in r.senders[x.association].contexts
             && r.senders[x.association].contexts[x.destination] == StreamContext(u)
             && SentTo(r.senders[x.association].sent, x.destination) == x.payloads
    ensures UniOk(r, u)
  {
  }

  lemma DatagramsKept(o: Outbound, r: Outbound)
    requires DatagramsOk(o) && Grows(o, r) && r.datagrams == o.datagrams
    ensures DatagramsOk(r)
  {
    forall k | 0 <= k < |r.datagrams| ensures DatagramOk(r, r.datagrams[k]) {
      DatagramKept(o, r, o.datagrams[k]);
    }
  }

  lemma DatagramKept(o: Outbound, r: Outbound, bytes: seq<byte>)
    requires DatagramOk(o, bytes) && Grows(o, r)
    ensures DatagramOk(r, bytes)
  {
    var owner := o.allocations[FromBe16(bytes[..2])];
    assert r.allocations[FromBe16(bytes[..2])] == owner;
    var before, after := o.senders[owner.association].sent, r.senders[owner.association].sent;
    var k :| 0 <= k < |before| && before[k] == Packet(bytes[2..], owner.destination);
    assert after[k] == before[k];
  }

  lemma AllocateOk(t: IpText, o: Outbound, a: nat, d: Address)
    requires OutboundOk(t, o)
    ensures OutboundOk(t, Allocate(o, a, d)) && Grows(o, Allocate(o, a, d))
  {
    var r := Allocate(o, a, d);
    forall b | 0 <= b < |r.senders| ensures SenderOk(t, r, b) { SenderKept(t, o, r, b); }
    forall u | 0 <= u < |r.unis| ensures UniOk(r, u) { UniKept(o, r, u); }
    DatagramsKept(o, r);
  }

  lemma AnnounceSender(t: IpText, o: Outbound, a: nat, n: Announcement)
    requires a < |o.senders| && SenderOk(t, o, a) && EncodeAddress(t, n.destination).Ok?
    requires Allocated(o, n.id, a, n.destination)
    ensures SenderOk(t, Announce(t, o, a, n), a)
  {
    var r := Announce(t, o, a, n);
    AnnouncedSnoc(t, o.senders[a].announced, n);
    forall e | e in r.senders[a].contexts ensures ContextOk(r, a, e) {
      assert ContextOk(o, a, e);
    }
    SentKept(o, r, a, o.senders[a].sent);
  }

  lemma AnnounceOk(t: IpText, o: Outbound, a: nat, n: Announcement)
    requires OutboundOk(t, o) && a < |o.senders| && EncodeAddress(t, n.destination).Ok?
    requires Allocated(o, n.id, a, n.destination)
    ensures OutboundOk(t, Announce(t, o, a, n)) && Grows(o, Announce(t, o, a, n))
  {
    var r := Announce(t, o, a, n);
    assert Grows(o, r);
    forall b | 0 <= b < |r.senders| ensures SenderOk(t, r, b) {
      if b == a { AnnounceSender(t, o, a, n); } else { SenderKept(t, o, r, b); }
    }
    forall u | 0 <= u < |r.unis| ensures UniOk(r, u) { UniKept(o, r, u); }
    DatagramsKept(o, r);
  }

  lemma OpenContextSender(t: IpText, o: Outbound, a: nat, n: Announcement)
    requires a < |o.senders| && SenderOk(t, o, a) && Allocated(o, n.id, a, n.destination)
    requires n in o.senders[a].announced && n.destination !in o.senders[a].contexts
    ensures SenderOk(t, OpenContext(o, a, n), a)
  {
    var r := OpenContext(o, a, n);
    forall e | e in r.senders[a].contexts ensures ContextOk(r, a, e) {
      if e != n.destination {
        assert ContextOk(o, a, e);
      }
    }
    SentKept(o, r, a, o.senders[a].sent);
  }

  lemma OpenContextOk(t: IpText, o: Outbound, a: nat, n: Announcement)
    requires OutboundOk(t, o) && a < |o.senders| && n.destination !in o.senders[a].contexts
    requires Allocated(o, n.id, a, n.destination) && n in o.senders[a].announced
    ensures OutboundOk(t, OpenContext(o, a, n)) && Grows(o, OpenContext(o, a, n))
  {
    var r := OpenContext(o, a, n);
    assert Grows(o, r);
    forall b | 0 <= b < |r.senders| ensures SenderOk(t, r, b) {
      if b == a { OpenContextSender(t, o, a, n); } else { SenderKept(t, o, r, b); }
    }
    forall u | 0 <= u < |r.unis| ensures UniOk(r, u) {
      if u < |o.unis| { UniKept(o, r, u); } else { NewUniOk(t, o, a, n); }
    }
    DatagramsKept(o, r);
  }

  /** A stream just opened: nothing was accepted for its destination before it had a context. */
  lemma NewUniOk(t: IpText, o: Outbound, a: nat, n: Announcement)
    requires a < |o.senders| && SenderOk(t, o, a) && n.destination !in o.senders[a].contexts
    requires o.senders[a].mode.StreamMode? && Allocated(o, n.id, a, n.destination)
    ensures UniOk(OpenContext(o, a, n), |o.unis|)
  {
    assert forall k :: 0 <= k < |o.senders[a].sent| ==> SentOk(o, a, o.senders[a].sent[k]);
    SentNone(o.senders[a].sent, n.destination);
    assert Records([]) == [];
  }

  lemma AcceptedSender(t: IpText, o: Outbound, r: Outbound, a: nat, packet: Packet)
    requires a < |o.senders| && SenderOk(t, o, a) && packet.destination in o.senders[a].contexts && Grows(o, r)
    requires r.senders[a] == o.senders[a].(sent := o.senders[a].sent + [packet]) && SentOk(r, a, packet)
    ensures SenderOk(t, r, a)
  {
    forall e | e in r.senders[a].contexts ensures ContextOk(r, a, e) {
      assert ContextOk(o, a, e);
    }
    SentKept(o, r, a, o.senders[a].sent);
  }

  lemma DatagramPayloadOk(t: IpText, o: Outbound, a: nat, packet: Packet, id: u16)
    requires OutboundOk(t, o) && a < |o.senders| && packet.destination in o.senders[a].contexts
    requires o.senders[a].contexts[packet.destination] == DatagramContext(id)
    ensures var r := Accepted(o.(datagrams := o.datagrams + [Be16(id) + packet.data]), a, packet);
            OutboundOk(t, r) && Grows(o, r)
  {
    var bytes := Be16(id) + packet.data;
    var r := Accepted(o.(datagrams := o.datagrams + [bytes]), a, packet);
    assert Grows(o, r) && r.datagrams[|o.datagrams|] == bytes;
    forall b | 0 <= b < |r.senders| ensures SenderOk(t, r, b) {
      if b == a { AcceptedSender(t, o, r, a, packet); } else { SenderKept(t, o, r, b); }
    }
    forall u | 0 <= u < |r.unis| ensures UniOk(r, u) {
      assert UniOk(o, u);
      SentSnoc(o.senders[a].sent, packet, o.unis[u].destination);
      UniKept(o, r, u);
    }
    forall k | 0 <= k < |r.datagrams| ensures DatagramOk(r, r.datagrams[k]) {
      if k < |o.datagrams| {
        DatagramKept(o, r, o.datagrams[k]);
      } else {
        NewDatagramOk(t, o, r, a, packet, id);
      }
    }
  }

  lemma NewDatagramOk(t: IpText, o: Outbound, r: Outbound, a: nat, packet: Packet, id: u16)
    requires a < |o.senders| && SenderOk(t, o, a) && packet.destination in o.senders[a].contexts && Grows(o, r)
    requires o.senders[a].contexts[packet.destination] == DatagramContext(id)
    requires r.senders[a].sent == o.senders[a].sent + [packet]
    ensures DatagramOk(r, Be16(id) + packet.data)
  {
    var bytes := Be16(id) + packet.data;
    assert ContextOk(o, a, packet.destination);
    Be16Inverse(id);
    assert bytes[..2] == Be16(id) && bytes[2..] == packet.data;
    assert r.senders[a].sent[|o.senders[a].sent|] == packet;
  }

  lemma StreamPayloadOk(t: IpText, o: Outbound, a: nat, packet: Packet, u: nat)
    requires OutboundOk(t, o) && a < |o.senders| && packet.destination in o.senders[a].contexts
    requires o.senders[a].contexts[packet.destination] == StreamContext(u)
    requires |packet.data| < 0x1_0000 && u < |o.unis|
    ensures var x := o.unis[u];
            var next := x.(bytes := x.bytes + EncodeRecord(packet.data), payloads := x.payloads + [packet.data]);
            var r := Accepted(o.(unis := o.unis[u := next]), a, packet);
            OutboundOk(t, r) && Grows(o, r)
  {
    var x := o.unis[u];
    var next := x.(bytes := x.bytes + EncodeRecord(packet.data), payloads := x.payloads + [packet.data]);
    var r := Accepted(o.(unis := o.unis[u := next]), a, packet);
    assert Grows(o, r);
    forall b | 0 <= b < |r.senders| ensures SenderOk(t, r, b) {
      if b == a { AcceptedSender(t, o, r, a, packet); } else { SenderKept(t, o, r, b); }
    }
    forall v | 0 <= v < |r.unis| ensures UniOk(r, v) {
      assert UniOk(o, v) && SenderOk(t, o, a) && ContextOk(o, a, packet.destination);
      StreamPayloadUni(o, r, a, packet, u, v);
    }
    DatagramsKept(o, r);
  }

  lemma StreamPayloadUni(o: Outbound, r: Outbound, a: nat, packet: Packet, u: nat, v: nat)
    requires a < |o.senders| && u < |o.unis| && v < |o.unis| && UniOk(o, u) && UniOk(o, v) && Grows(o, r)
    requires o.unis[u].association == a && o.unis[u].destination == packet.destination && |packet.data| < 0x1_0000
    requires r.senders == o.senders[a := o.senders[a].(sent := o.senders[a].sent + [packet])]
    requires var x := o.unis[u];
             r.unis == o.unis[u := x.(bytes := x.bytes + EncodeRecord(packet.data),
                                      payloads := x.payloads + [packet.data])]
    ensures UniOk(r, v)
  {
    if v == u {
      SentSnoc(o.senders[a].sent, packet, o.unis[v].destination);
      RecordsSnoc(o.unis[u].payloads, packet.data);
    } else {
      OtherUniKept(o, r, a, packet, v);
    }
  }

  lemma OtherUniKept(o: Outbound, r: Outbound, a: nat, packet: Packet, v: nat)
    requires a < |o.senders| && v < |o.unis| && UniOk(o, v) && Grows(o, r) && r.unis[v] == o.unis[v]
    requires o.unis[v].association == a ==> o.unis[v].destination != packet.destination
    requires r.senders == o.senders[a := o.senders[a].(sent := o.senders[a].sent + [packet])]
    ensures UniOk(r, v)
  {
    SentSnoc(o.senders[a].sent, packet, o.unis[v].destination);
    UniKept(o, r, v);
  }

  lemma GrowsTransitive(o: Outbound, p: Outbound, q: Outbound)
    requires Grows(o, p) && Grows(p, q)
    ensures Grows(o, q)
  {
  }

  lemma SendPayloadOk(t: IpText, o: Outbound, a: nat, packet: Packet, fault: Fault)
    requires OutboundOk(t, o) && a < |o.senders| && packet.destination in o.senders[a].contexts
    ensures var r := SendPayload(o, a, packet, fault).0;
            OutboundOk(t, r) && Grows(o, r) && r.allocations == o.allocations
  {
    match o.senders[a].contexts[packet.destination]
    case DatagramContext(id) =>
      DatagramPayloadOk(t, o, a, packet, id);
    case StreamContext(u) =>
      if |packet.data| < 0x1_0000 && u < |o.unis| {
        StreamPayloadOk(t, o, a, packet, u);
      }
  }

  lemma NewContextOk(t: IpText, o: Outbound, a: nat, d: Address, fault: Fault)
    requires OutboundOk(t, o) && a < |o.senders| && d !in o.senders[a].contexts
    requires |o.allocations| < IDS
    ensures var r := NewContext(t, o, a, d, fault).0;
            OutboundOk(t, r) && Grows(o, r) && |r.allocations| == |o.allocations| + 1
  {
    var id := NextId(o);
    var o1 := Allocate(o, a, d);
    AllocateOk(t, o, a, d);
    if EncodeAddress(t, d).Ok? {
      var n := Announcement(d, id);
      var o2 := Announce(t, o1, a, n);
      AnnounceOk(t, o1, a, n);
      GrowsTransitive(o, o1, o2);
      OpenContextOk(t, o2, a, n);
      GrowsTransitive(o, o2, OpenContext(o2, a, n));
    }
  }

  /** As long as ids are not reused, a send keeps the invariant and takes nothing back. */
  lemma SendOk(t: IpText, o: Outbound, a: nat, packet: Packet, fault: Fault)
    requires OutboundOk(t, o) && a < |o.senders|
    requires |Send(t, o, a, packet, fault).0.allocations| <= IDS
    ensures OutboundOk(t, Send(t, o, a, packet, fault).0) && Grows(o, Send(t, o, a, packet, fault).0)
  {
    if packet.destination in o.senders[a].contexts {
      SendPayloadOk(t, o, a, packet, fault);
    } else {
      AllocationsGrow(t, o, a, packet, fault);
      NewContextOk(t, o, a, packet.destination, fault);
      var (o1, outcome) := NewContext(t, o, a, packet.destination, fault);
      if outcome.Ok? {
        SendPayloadOk(t, o1, a, packet, fault);
        GrowsTransitive(o, o1, SendPayload(o1, a, packet, fault).0);
      }
    }
  }

  /** Ids are only ever given out, whatever the count. */
  lemma AllocationsGrow(t: IpText, o: Outbound, a: nat, packet: Packet, fault: Fault)
    requires a < |o.senders|
    ensures |Send(t, o, a, packet, fault).0.allocations| ==
            |o.allocations| + (if packet.destination in o.senders[a].contexts then 0 else 1)
    ensures |Send(t, o, a, packet, fault).0.senders| == |o.senders|
  {
  }
}
