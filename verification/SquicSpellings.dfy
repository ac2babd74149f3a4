/** When stream-mode UDP is first-in first-out per destination: exactly when the destination has no second
    spelling. Contexts are keyed by the address as the sender spells it, so two spellings of one IP literal
    travel on two streams, while the receiver names both alike. */
module SquicSpellings {
  import opened Bytes
  import opened Text
  import opened Addresses
  import opened SquicWire
  import opened SquicOutbound
  import opened SquicOutboundProofs
  import opened SquicRegistry
  import opened SquicMachine
  import opened SquicDelivery
  import opened SquicSchedules

  /** Within the id bound, association a, in stream mode, has sent to `d`. */
  predicate WithContext(s: State, a: nat, d: Address) {
    && |s.out.allocations| <= IDS && a < |s.out.senders|
    && s.out.senders[a].mode.StreamMode? && d in s.out.senders[a].contexts
  }

  /** The payloads accepted for a destination in any spelling, in order. */
  function SentToAny(c: Config, sent: seq<Packet>, d: Address): seq<seq<byte>> {
    if sent == [] then []
    else
      var init, last := sent[..|sent| - 1], sent[|sent| - 1];
      if Canonical(c.ip, last.destination) == Canonical(c.ip, d) then SentToAny(c, init, d) + [last.data]
      else SentToAny(c, init, d)
  }

  /** What association a has received for `d` is a prefix of what was accepted for sending to it. */
  predicate Fifo(c: Config, s: State, a: nat, d: Address)
    requires WithContext(s, a, d)
  {
    DeliveredTo(s.events, a, Canonical(c.ip, d)) <= SentToAny(c, s.out.senders[a].sent, d)
  }

  /** With one spelling in use, there is only one thing to count. */
  lemma {:induction false} OneSpelling(c: Config, sent: seq<Packet>, d: Address)
    requires forall k :: 0 <= k < |sent| && Canonical(c.ip, sent[k].destination) == Canonical(c.ip, d) ==>
               sent[k].destination == d
    ensures SentToAny(c, sent, d) == SentTo(sent, d)
    decreases |sent|
  {
    if sent != [] {
      OneSpelling(c, sent[..|sent| - 1], d);
    }
  }

  lemma TwoSent(c: Config, p: Packet, q: Packet, d: Address)
    requires Canonical(c.ip, p.destination) == Canonical(c.ip, q.destination) == Canonical(c.ip, d)
    ensures SentToAny(c, [p, q], d) == [p.data, q.data]
  {
    assert [p, q][..1] == [p] && [p][..0] == [];
    assert SentToAny(c, [p], d) == SentToAny(c, [], d) + [p.data];
  }

  ghost predicate AlwaysFifo(c: Config, d: Address) {
    forall s, a: nat | Reachable(c, s) && WithContext(s, a, d) :: Fifo(c, s, a, d)
  }

  /** Another address that can be encoded and that the receiver names like `d`. */
  predicate OtherSpelling(c: Config, d: Address, e: Address) {
    e != d && EncodeAddress(c.ip, e).Ok? && Canonical(c.ip, e) == Canonical(c.ip, d)
  }

  /** What can be encoded is text. */
  lemma EncodableIsText(t: IpText, a: Address)
    requires Lawful(t) && EncodeAddress(t, a).Ok?
    ensures IsText(a)
  {
    if t.parse(a.host).Some? {
      assert ParseLaw(a.host, t.parse(a.host).value);
    }
    AsciiIsUtf8(a.host);
  }

  const EARLY: seq<byte> := [7]
  const LATE: seq<byte> := [9]

  /** What the first packet to a destination leaves behind in stream mode. */
  function Sends(t: IpText, o: Outbound, packet: Packet): Outbound
    requires |o.senders| == 1 && EncodeAddress(t, packet.destination).Ok? && |packet.data| < 0x1_0000
  {
    var s, d, id := o.senders[0], packet.destination, NextId(o);
    Outbound(o.allocations + [Allocation(0, d)],
             [Sender(s.mode, s.header, s.control + EncodeAnnouncement(t, Announcement(d, id)),
                     s.contexts[d := StreamContext(|o.unis|)], s.announced + [Announcement(d, id)], s.sent + [packet])],
             o.unis + [Uni(Be16(id) + EncodeRecord(packet.data), 0, d, id, [packet.data])],
             o.datagrams)
  }

  lemma FirstSend(t: IpText, o: Outbound, packet: Packet)
    requires |o.senders| == 1 && o.senders[0].mode.StreamMode? && packet.destination !in o.senders[0].contexts
    requires EncodeAddress(t, packet.destination).Ok? && |packet.data| < 0x1_0000
    ensures Send(t, o, 0, packet, NoFault).0 == Sends(t, o, packet)
  {
    var (o1, outcome) := NewContext(t, o, 0, packet.destination, NoFault);
    assert o1.unis == o.unis + [Uni(Be16(NextId(o)), 0, packet.destination, NextId(o), [])];
    assert [] + [packet.data] == [packet.data];
    assert SendPayload(o1, 0, packet, NoFault).0.unis == Sends(t, o, packet).unis;
    assert SendPayload(o1, 0, packet, NoFault).0.senders == Sends(t, o, packet).senders;
  }

  /** Both packets are sent, each on its own stream. */
  predicate BothSent(c: Config, o: Outbound, d: Address, e: Address) {
    && EncodeAddress(c.ip, d).Ok? && EncodeAddress(c.ip, e).Ok? && Header(c, StreamMode, d).Ok?
    && |o.allocations| == 2 && |o.senders| == 1 && |o.unis| == 2
    && o.senders[0].mode.StreamMode? && d in o.senders[0].contexts
    && o.senders[0].sent == [Packet(EARLY, d), Packet(LATE, e)]
    && o.senders[0].control == Header(c, StreamMode, d).value +
         (EncodeAnnouncement(c.ip, Announcement(d, 0)) + EncodeAnnouncement(c.ip, Announcement(e, 1)))
    && o.unis[1].bytes == Be16(1) + EncodeRecord(LATE)
  }

  /** The state of the sending end after the packet for `d`. */
  predicate OneSent(c: Config, s: State, d: Address) {
    && EncodeAddress(c.ip, d).Ok? && Header(c, StreamMode, d).Ok? && s == Start(s.out)
    && |s.out.allocations| == 1 && |s.out.senders| == 1 && |s.out.unis| == 1
    && s.out.senders[0].mode.StreamMode? && s.out.senders[0].contexts.Keys == {d}
    && s.out.senders[0].sent == [Packet(EARLY, d)]
    && s.out.senders[0].control == Header(c, StreamMode, d).value + EncodeAnnouncement(c.ip, Announcement(d, 0))
  }

  lemma SendsEarly(c: Config, d: Address) returns (s: State)
    requires Lawful(c.ip) && EncodeAddress(c.ip, d).Ok?
    ensures Reachable(c, s) && OneSent(c, s, d)
  {
    EncodableIsText(c.ip, d);
    InitialIsReachable(c);
    s := Next(c, INITIAL, OpenAssociation(StreamMode, d));
    var header := Header(c, StreamMode, d).value;
    assert s.out == Outbound([], [Sender(StreamMode, header, header, map[], [], [])], [], []);
    FirstSend(c.ip, s.out, Packet(EARLY, d));
    s := Next(c, s, SendPacket(0, Packet(EARLY, d), NoFault));
  }

  lemma SendsLate(c: Config, s: State, d: Address, e: Address) returns (r: State)
    requires Lawful(c.ip) && Reachable(c, s) && OneSent(c, s, d) && EncodeAddress(c.ip, e).Ok? && d != e
    ensures Reachable(c, r) && r == Start(r.out) && BothSent(c, r.out, d, e)
  {
    EncodableIsText(c.ip, e);
    FirstSend(c.ip, s.out, Packet(LATE, e));
    r := Next(c, s, SendPacket(0, Packet(LATE, e), NoFault));
    assert r.out == Sends(c.ip, s.out, Packet(LATE, e));
    LateOnTop(c, s, d, e);
  }

  lemma LateOnTop(c: Config, s: State, d: Address, e: Address)
    requires OneSent(c, s, d) && EncodeAddress(c.ip, e).Ok? && d != e
    ensures BothSent(c, Sends(c.ip, s.out, Packet(LATE, e)), d, e)
  {
    var header, first := Header(c, StreamMode, d).value, EncodeAnnouncement(c.ip, Announcement(d, 0));
    var second := EncodeAnnouncement(c.ip, Announcement(e, 1));
    assert header + first + second == header + (first + second);
    assert [Packet(EARLY, d)] + [Packet(LATE, e)] == [Packet(EARLY, d), Packet(LATE, e)];
  }

  /** The control stream is read up to its end. */
  lemma RoutesAreRead(c: Config, s: State, d: Address, e: Address) returns (r: State)
    requires Lawful(c.ip) && Reachable(c, s) && Calm(c, s) && BothSent(c, s.out, d, e)
    requires forall i :: 0 <= i < |s.tasks| ==> s.tasks[i].job.Authenticate?
    ensures Reachable(c, r) && Calm(c, r) && r.out == s.out
    ensures 1 in r.reg.routes && r.reg.routes[1] == Route(0, Canonical(c.ip, e))
    ensures forall i :: 0 <= i < |r.tasks| ==> !r.tasks[i].job.Stream?
  {
    var header, n := Header(c, StreamMode, d).value, |s.tasks|;
    var first, second := EncodeAnnouncement(c.ip, Announcement(d, 0)), EncodeAnnouncement(c.ip, Announcement(e, 1));
    var control := s.out.senders[0].control;
    assert control[|header|..] == first + second && control[|control| - |second|..] == second + [];
    r := OpenControl(c, s, 0, StreamMode, d, first + second);
    r := ReadsRoute(c, r, n, 0, [], Announcement(d, 0), second);
    r := ReadsRoute(c, r, n, 0, [] + [0], Announcement(e, 1), []);
  }

  /** Both streams are accepted; the task of the second is the first to run. */
  lemma LateArrivesFirst(c: Config, s: State, d: Address, e: Address) returns (r: State)
    requires Reachable(c, s) && Calm(c, s) && BothSent(c, s.out, d, e)
    requires 1 in s.reg.routes && s.reg.routes[1] == Route(0, Canonical(c.ip, e))
    requires forall i :: 0 <= i < |s.tasks| ==> !s.tasks[i].job.Stream?
    ensures Reachable(c, r) && r.out == s.out
    ensures r.events == s.events + [Queued(0, Packet(LATE, Canonical(c.ip, e)), |s.tasks| + 1)]
  {
    var n := |s.tasks|;
    r := Next(c, s, Accept(Stream(0)));
    assert r.tasks[n].job == Stream(0);
    r := Enter(c, r, Stream(1));
    assert s.out.unis[1].bytes[..2] == Be16(1) && s.out.unis[1].bytes[2..] == EncodeRecord(LATE);
    r := FindsRoute(c, r, n + 1, 1);
    r := QueuesRecord(c, r, n + 1, 1, s.reg.routes[1], LATE);
  }

  /** With a second spelling there is a run, at every receiver that lets anything through, that delivers the later
      of two packets to one destination first. */
  lemma TwoSpellingsReorder(c: Config, d: Address, e: Address) returns (s: State)
    requires Lawful(c.ip) && CanOpen(c.role) && EncodeAddress(c.ip, d).Ok? && OtherSpelling(c, d, e)
    ensures Reachable(c, s) && WithContext(s, 0, d)
    ensures s.out.senders[0].sent == [Packet(EARLY, d), Packet(LATE, e)]
    ensures DeliveredTo(s.events, 0, Canonical(c.ip, d)) == [LATE]
    ensures SentToAny(c, s.out.senders[0].sent, d) == [EARLY, LATE]
  {
    s := SendsEarly(c, d);
    s := SendsLate(c, s, d, e);
    s := OpenGate(c, s);
    s := RoutesAreRead(c, s, d, e);
    var before := s.events;
    s := LateArrivesFirst(c, s, d, e);
    FirstDelivery(before, s.events[|before|], 0, Canonical(c.ip, d));
    TwoSent(c, Packet(EARLY, d), Packet(LATE, e), d);
  }

  lemma FirstDelivery(events: seq<Event>, e: Event, a: nat, d: Address)
    requires Quiet(events) && e.Queued? && e.association == a && e.packet.destination == d
    ensures DeliveredTo(events + [e], a, d) == [e.packet.data]
  {
    assert (events + [e])[..|events|] == events;
    NoEvents(events, a, d);
  }

  /** Every destination with a context was announced, so it can be encoded. */
  lemma ContextsEncodable(c: Config, o: Outbound, a: nat, e: Address)
    requires a < |o.senders| && SenderOk(c.ip, o, a) && e in o.senders[a].contexts
    ensures EncodeAddress(c.ip, e).Ok?
  {
    assert ContextOk(o, a, e);
  }

  lemma FifoWithSoleSpelling(c: Config, s: State, a: nat, d: Address)
    requires Lawful(c.ip) && Reachable(c, s) && WithContext(s, a, d)
    requires EncodeAddress(c.ip, d).Ok? ==> forall e :: !OtherSpelling(c, d, e)
    ensures Fifo(c, s, a, d)
  {
    var steps :| FeasibleRun(c, steps) && Exec(c, steps) == s;
    RunsAreSound(c, steps);
    assert SenderOk(c.ip, s.out, a);
    ContextsEncodable(c, s.out, a, d);
    forall e | e in s.out.senders[a].contexts && Canonical(c.ip, e) == Canonical(c.ip, d) ensures e == d {
      ContextsEncodable(c, s.out, a, e);
      assert !OtherSpelling(c, d, e);
    }
    StreamModeIsFifo(c, steps, a, d);
    forall k | 0 <= k < |s.out.senders[a].sent| ensures SentOk(s.out, a, s.out.senders[a].sent[k]) {
    }
    OneSpelling(c, s.out.senders[a].sent, d);
  }

  /** First-in first-out per destination, exactly: it fails for a destination that can be encoded and has a
      second spelling, at every receiver that lets anything through, and holds in all other cases. */
  lemma FifoExactly(c: Config, d: Address)
    requires Lawful(c.ip)
    ensures AlwaysFifo(c, d) <==>
            !(CanOpen(c.role) && EncodeAddress(c.ip, d).Ok? && exists e :: OtherSpelling(c, d, e))
  {
    if CanOpen(c.role) && EncodeAddress(c.ip, d).Ok? && exists e :: OtherSpelling(c, d, e) {
      var e :| OtherSpelling(c, d, e);
      var s := TwoSpellingsReorder(c, d, e);
      assert [LATE][0] != [EARLY, LATE][0];
      assert !Fifo(c, s, 0, d);
    } else {
      forall s, a: nat | Reachable(c, s) && WithContext(s, a, d) ensures Fifo(c, s, a, d) {
        if CanOpen(c.role) {
          FifoWithSoleSpelling(c, s, a, d);
        } else {
          ClosedGateIsQuiet(c, s);
          NoEvents(s.events, a, Canonical(c.ip, d));
        }
      }
    }
  }

  /** The condition bites: in a lawful notation with two spellings of one literal, order fails for it at every
      receiver that lets anything through. */
  lemma SpellingsExist(role: Role, port: u16)
    ensures Lawful(LAX) && OtherSpelling(Config(LAX, role), Address(UNSPECIFIED, port), Address(RESPELLED, port))
    ensures AlwaysFifo(Config(LAX, role), Address(UNSPECIFIED, port)) <==> !CanOpen(role)
  {
    LaxIsLawful();
    Respelled(Config(LAX, role), port);
    FifoExactly(Config(LAX, role), Address(UNSPECIFIED, port));
  }

  lemma Respelled(c: Config, port: u16)
    requires c.ip == LAX
    ensures EncodeAddress(c.ip, Address(UNSPECIFIED, port)).Ok?
    ensures OtherSpelling(c, Address(UNSPECIFIED, port), Address(RESPELLED, port))
  {
    Respelling(port);
  }
}
