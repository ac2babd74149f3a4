/** The delivery theorems of SQuic UDP, for every run. */
module SquicDelivery {
  import opened Bytes
  import opened Addresses
  import opened SquicWire
  import opened SquicOutbound
  import opened SquicOutboundProofs
  import opened SquicMachine
  import opened SquicIntegrity

  lemma AllocationsOnlyGrow(c: Config, s: State, step: Step)
    ensures |s.out.allocations| <= |Apply(c, s, step).out.allocations|
  {
    if step.SendPacket? && step.association < |s.out.senders| {
      AllocationsGrow(c.ip, s.out, step.association, step.packet, step.fault);
    }
  }

  /** Every run that gives out at most 65536 ids keeps the invariant. */
  lemma {:induction false} RunsAreSound(c: Config, steps: seq<Step>)
    requires Lawful(c.ip) && |Exec(c, steps).out.allocations| <= IDS
    ensures Inv(c, Exec(c, steps))
    decreases |steps|
  {
    if steps != [] {
      var init, last := steps[..|steps| - 1], steps[|steps| - 1];
      AllocationsOnlyGrow(c, Exec(c, init), last);
      RunsAreSound(c, init);
      ApplyStep(c, Exec(c, init), last);
    }
  }

  /** Delivery integrity: a packet queued to an association carries the payload, and the destination up to
      the spelling of IP literals, of a packet sent on that association. */
  lemma DeliveryIntegrity(c: Config, steps: seq<Step>, k: nat) returns (p: Packet)
    requires Lawful(c.ip) && |Exec(c, steps).out.allocations| <= IDS
    requires k < |Exec(c, steps).events| && Exec(c, steps).events[k].Queued?
    ensures var s, e := Exec(c, steps), Exec(c, steps).events[k];
            && e.association < |s.out.senders|
            && p in s.out.senders[e.association].sent
            && p.data == e.packet.data
            && Canonical(c.ip, p.destination) == e.packet.destination
  {
    RunsAreSound(c, steps);
    var s, e := Exec(c, steps), Exec(c, steps).events[k];
    assert EventOk(c, s.out, s.tasks, e);
    match s.tasks[e.task].job
    case Stream(u) =>
      var x := s.out.unis[u];
      assert UniOk(s.out, u);
      p := Packet(e.packet.data, x.destination);
      SentToWasSent(s.out.senders[x.association].sent, x.destination, e.packet.data);
    case Payload(bytes) =>
      assert DatagramOk(s.out, bytes);
      p := Packet(bytes[2..], s.out.allocations[FromBe16(bytes[..2])].destination);
  }

  /** The other way round: every accepted packet is on the wire, under an id that was announced for its
      destination on its association's control stream. */
  lemma AcceptedIsOnTheWire(c: Config, steps: seq<Step>, a: nat, p: Packet) returns (id: u16)
    requires Lawful(c.ip) && |Exec(c, steps).out.allocations| <= IDS
    requires a < |Exec(c, steps).out.senders| && p in Exec(c, steps).out.senders[a].sent
    ensures var o := Exec(c, steps).out;
            && Announcement(p.destination, id) in o.senders[a].announced
            && match o.senders[a].mode
               case DatagramMode => Be16(id) + p.data in o.datagrams
               case StreamMode => exists u :: 0 <= u < |o.unis| && o.unis[u].id == id && p.data in o.unis[u].payloads
  {
    RunsAreSound(c, steps);
    var o := Exec(c, steps).out;
    assert SenderOk(c.ip, o, a);
    var k :| 0 <= k < |o.senders[a].sent| && o.senders[a].sent[k] == p;
    assert SentOk(o, a, o.senders[a].sent[k]) && ContextOk(o, a, p.destination);
    match o.senders[a].contexts[p.destination]
    case DatagramContext(x) => id := x;
    case StreamContext(u) =>
      id := o.unis[u].id;
      assert UniOk(o, u);
      SentIsSentTo(o.senders[a].sent, p);
  }

  /** A payload task whose id is routed queues exactly its payload, to the association the id was given to. */
  lemma RoutedPayloadIsQueued(c: Config, steps: seq<Step>, i: nat)
    requires Lawful(c.ip) && |Exec(c, steps).out.allocations| <= IDS
    requires var s := Exec(c, steps);
             && i < |s.tasks| && s.tasks[i].job.Payload? && s.tasks[i].phase.LookingUp?
             && s.tasks[i].phase.id in s.reg.routes
    ensures var s := Exec(c, steps);
            var id, r := s.tasks[i].phase.id, Exec(c, steps + [Advance(i), Advance(i)]);
            && id < |s.out.allocations| && |s.tasks[i].job.datagram| >= 2
            && r.events == s.events + [Queued(s.out.allocations[id].association,
                 Packet(s.tasks[i].job.datagram[2..], Canonical(c.ip, s.out.allocations[id].destination)), i)]
  {
    RunsAreSound(c, steps);
    var s := Exec(c, steps);
    assert TaskOk(c, s.out, s.tasks[i], QueuedBy(s.events, i));
    var more := steps + [Advance(i), Advance(i)];
    assert more[..|more| - 1] == steps + [Advance(i)];
    assert (steps + [Advance(i)])[..|steps|] == steps;
    LookThenQueue(c, s, i);
  }

  lemma LookThenQueue(c: Config, s: State, i: nat)
    requires i < |s.tasks| && s.tasks[i].job.Payload? && |s.tasks[i].job.datagram| >= 2
    requires s.tasks[i].phase.LookingUp? && s.tasks[i].phase.id in s.reg.routes
    ensures var route := s.reg.routes[s.tasks[i].phase.id];
            Apply(c, Apply(c, s, Advance(i)), Advance(i)).events ==
            s.events + [Queued(route.association, Packet(s.tasks[i].job.datagram[2..], route.destination), i)]
  {
  }

  // ---- stream mode ----

  /** The payloads queued to an association under a destination, in order. */
  function DeliveredTo(events: seq<Event>, a: nat, d: Address): seq<seq<byte>> {
    if events == [] then []
    else
      var init, last := events[..|events| - 1], events[|events| - 1];
      if last.Queued? && last.association == a && last.packet.destination == d
      then DeliveredTo(init, a, d) + [last.packet.data] else DeliveredTo(init, a, d)
  }

  /** Each stream is delivered in order, with its packet boundaries, from the first packet on. */
  lemma StreamPrefix(c: Config, steps: seq<Step>, i: nat)
    requires Lawful(c.ip) && |Exec(c, steps).out.allocations| <= IDS
    requires i < |Exec(c, steps).tasks| && Exec(c, steps).tasks[i].job.Stream?
    ensures var s, u := Exec(c, steps), Exec(c, steps).tasks[i].job.uni;
            && u < |s.out.unis| && s.out.unis[u].association < |s.out.senders|
            && QueuedBy(s.events, i) <= SentTo(s.out.senders[s.out.unis[u].association].sent, s.out.unis[u].destination)
  {
    RunsAreSound(c, steps);
    var s := Exec(c, steps);
    assert TaskOk(c, s.out, s.tasks[i], QueuedBy(s.events, i));
    assert UniOk(s.out, s.tasks[i].job.uni);
  }

  /** No other destination of the association is spelled differently but means the same. */
  predicate SoleSpelling(c: Config, sender: Sender, d: Address) {
    && d in sender.contexts
    && forall e | e in sender.contexts && Canonical(c.ip, e) == Canonical(c.ip, d) :: e == d
  }

  /** In stream mode what an association receives for a destination is a prefix of what was accepted for
      sending to it, in order and with boundaries intact. */
  lemma StreamModeIsFifo(c: Config, steps: seq<Step>, a: nat, d: Address)
    requires Lawful(c.ip) && |Exec(c, steps).out.allocations| <= IDS
    requires var s := Exec(c, steps);
             a < |s.out.senders| && s.out.senders[a].mode.StreamMode? && SoleSpelling(c, s.out.senders[a], d)
    ensures var s := Exec(c, steps);
            DeliveredTo(s.events, a, Canonical(c.ip, d)) <= SentTo(s.out.senders[a].sent, d)
  {
    RunsAreSound(c, steps);
    var s := Exec(c, steps);
    assert SenderOk(c.ip, s.out, a) && ContextOk(s.out, a, d);
    var u := s.out.senders[a].contexts[d].uni;
    forall k | 0 <= k < |s.events| ensures FromStream(c, s, s.events[k], a, d, u) {
      assert EventOk(c, s.out, s.tasks, s.events[k]);
      SourceOfEvent(c, s, s.events[k], a, d, u);
    }
    if i :| 0 <= i < |s.tasks| && s.tasks[i].job == Stream(u) {
      forall k | 0 <= k < |s.events|
        ensures s.events[k].Queued? ==>
                  (s.events[k].association == a && s.events[k].packet.destination == Canonical(c.ip, d) <==>
                   s.events[k].task == i)
      {
        assert FromStream(c, s, s.events[k], a, d, u);
        assert EventOk(c, s.out, s.tasks, s.events[k]);
      }
      SameEvents(s.events, a, Canonical(c.ip, d), i);
      assert TaskOk(c, s.out, s.tasks[i], QueuedBy(s.events, i));
      assert UniOk(s.out, u);
    } else {
      forall k | 0 <= k < |s.events| && s.events[k].Queued?
        ensures !(s.events[k].association == a && s.events[k].packet.destination == Canonical(c.ip, d))
      {
        assert FromStream(c, s, s.events[k], a, d, u);
        assert EventOk(c, s.out, s.tasks, s.events[k]);
      }
      NoEvents(s.events, a, Canonical(c.ip, d));
    }
  }

  /** Queued under (a, d) means queued by the task of stream u. */
  predicate FromStream(c: Config, s: State, e: Event, a: nat, d: Address, u: nat) {
    e.Queued? && e.association == a && e.packet.destination == Canonical(c.ip, d) ==>
      e.task < |s.tasks| && s.tasks[e.task].job == Stream(u)
  }

  lemma SourceOfEvent(c: Config, s: State, e: Event, a: nat, d: Address, u: nat)
    requires Inv(c, s) && EventOk(c, s.out, s.tasks, e) && a < |s.out.senders|
    requires s.out.senders[a].mode.StreamMode? && SoleSpelling(c, s.out.senders[a], d)
    requires s.out.senders[a].contexts[d] == StreamContext(u)
    ensures FromStream(c, s, e, a, d, u)
  {
    assert forall bytes | bytes in s.out.datagrams :: DatagramOk(s.out, bytes);
    if e.Queued? && e.association == a && s.tasks[e.task].job.Stream? {
      assert UniOk(s.out, s.tasks[e.task].job.uni);
    }
  }

  lemma {:induction false} SameEvents(events: seq<Event>, a: nat, d: Address, i: nat)
    requires forall k :: 0 <= k < |events| && events[k].Queued? ==>
               (events[k].association == a && events[k].packet.destination == d <==> events[k].task == i)
    ensures DeliveredTo(events, a, d) == QueuedBy(events, i)
    decreases |events|
  {
    if events != [] {
      SameEvents(events[..|events| - 1], a, d, i);
    }
  }

  lemma {:induction false} NoEvents(events: seq<Event>, a: nat, d: Address)
    requires forall k :: 0 <= k < |events| && events[k].Queued? ==>
               !(events[k].association == a && events[k].packet.destination == d)
    ensures DeliveredTo(events, a, d) == []
    decreases |events|
  {
    if events != [] {
      NoEvents(events[..|events| - 1], a, d);
    }
  }

  /** Nothing that carries packets has changed, but for new and empty streams. */
  predicate SameTraffic(o: Outbound, r: Outbound) {
    && |o.unis| <= |r.unis| && r.unis[..|o.unis|] == o.unis
    && (forall u :: |o.unis| <= u < |r.unis| ==> r.unis[u].payloads == [])
    && r.datagrams == o.datagrams
    && |r.senders| == |o.senders|
    && forall b :: 0 <= b < |o.senders| ==> r.senders[b].sent == o.senders[b].sent
  }

  lemma NewContextCarriesNothing(t: IpText, o: Outbound, a: nat, d: Address, fault: Fault)
    requires a < |o.senders| && o.senders[a].mode.StreamMode? && d !in o.senders[a].contexts
    ensures var (r, outcome) := NewContext(t, o, a, d, fault);
            SameTraffic(o, r) && (outcome.Ok? ==> r.senders[a].contexts[d].StreamContext?)
  {
  }

  /** In stream mode a packet over 65535 bytes is refused and leaves every stream, datagram and accepted packet
      as it was; later packets are framed as if it had not been sent. */
  lemma OversizeLeavesStreamsAlone(t: IpText, o: Outbound, a: nat, packet: Packet, fault: Fault)
    requires a < |o.senders| && o.senders[a].mode.StreamMode? && |packet.data| >= 0x1_0000
    requires OutboundOk(t, o)
    ensures Send(t, o, a, packet, fault).1.Err? && SameTraffic(o, Send(t, o, a, packet, fault).0)
  {
    assert SenderOk(t, o, a);
    if packet.destination in o.senders[a].contexts {
      assert ContextOk(o, a, packet.destination);
    } else {
      NewContextCarriesNothing(t, o, a, packet.destination, fault);
    }
  }
}
