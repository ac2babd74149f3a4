/** Delivery integrity holds up to 65536 context ids and no further: with one more id there is a run that
    queues a payload to the wrong association. */
module SquicBound {
  import opened Bytes
  import opened Text
  import opened Addresses
  import opened SquicWire
  import opened SquicOutbound
  import opened SquicMachine
  import opened SquicSchedules
  import SquicDelivery

  /** A packet sent on association a that reads like `p` at the other end. */
  predicate SentAs(c: Config, s: State, a: nat, p: Packet) {
    a < |s.out.senders| &&
    exists k :: 0 <= k < |s.out.senders[a].sent| && Matches(c, s.out.senders[a].sent[k], p)
  }

  predicate Matches(c: Config, sent: Packet, received: Packet) {
    sent.data == received.data && Canonical(c.ip, sent.destination) == received.destination
  }

  /** Every queued packet was sent on the association it is queued to. */
  predicate Intact(c: Config, s: State) {
    forall k :: 0 <= k < |s.events| && s.events[k].Queued? ==> SentAs(c, s, s.events[k].association, s.events[k].packet)
  }

  /** No run that gives out at most n ids misdelivers. */
  ghost predicate AlwaysIntact(c: Config, n: nat) {
    forall s | Reachable(c, s) && |s.out.allocations| <= n :: Intact(c, s)
  }

  const FIRST := Packet([7], Address([97], 1))
  const SECOND := Packet([9], Address([97], 2))
  /** A host with an accent: it cannot be encoded, so the send fails, but its id is spent. */
  const UNSENDABLE := Packet([], Address([0xc3, 0xa9], 0))

  lemma HostsAreText()
    ensures IsText(FIRST.destination) && IsText(SECOND.destination) && IsText(UNSENDABLE.destination)
  {
    var accent := UNSENDABLE.destination.host;
    assert Utf8([97][1..]) && Utf8([97]);
    assert ScalarLength(accent) == 2 && Utf8(accent[2..]);
  }

  lemma CanEncode(c: Config, host: text, port: u16)
    requires host == [97]
    ensures EncodeAddress(c.ip, Address(host, port)).Ok?
  {
  }

  function Request(c: Config): seq<byte> {
    CanEncode(c, FIRST.destination.host, FIRST.destination.port);
    Header(c, DatagramMode, FIRST.destination).value
  }

  /** An association that has sent nothing. */
  function Idle(c: Config): Sender {
    Sender(DatagramMode, Request(c), Request(c), map[], [], [])
  }

  /** Two associations, of which the first has sent one packet under id 0. */
  predicate Opened(c: Config, s: State) {
    && s == Start(s.out) && |s.out.senders| == 2
    && s.out.senders[0].contexts.Keys == {FIRST.destination}
    && s.out.senders[1] == Idle(c)
    && Be16(0) + FIRST.data in s.out.datagrams
  }

  lemma Opening(c: Config) returns (s: State)
    ensures Reachable(c, s) && Opened(c, s) && |s.out.allocations| == 1
  {
    HostsAreText();
    CanEncode(c, FIRST.destination.host, FIRST.destination.port);
    InitialIsReachable(c);
    s := Next(c, INITIAL, OpenAssociation(DatagramMode, FIRST.destination));
    s := Next(c, s, OpenAssociation(DatagramMode, FIRST.destination));
    assert s == Start(Outbound([], [Idle(c), Idle(c)], [], []));
    s := Next(c, s, SendPacket(0, FIRST, NoFault));
    assert s.out.datagrams == [Be16(0) + FIRST.data];
  }

  lemma SpendStep(c: Config, s: State)
    requires Lawful(c.ip) && Opened(c, s)
    ensures var r := Apply(c, s, SendPacket(0, UNSENDABLE, NoFault));
            r.out == Allocate(s.out, 0, UNSENDABLE.destination) && Opened(c, r)
  {
    assert !IsIpChar(UNSENDABLE.destination.host[0]);
    assert EncodeAddress(c.ip, UNSENDABLE.destination).Err?;
  }

  lemma {:induction false} Spending(c: Config, s: State, n: nat) returns (r: State)
    requires Lawful(c.ip) && Reachable(c, s) && Opened(c, s)
    ensures Reachable(c, r) && Opened(c, r) && |r.out.allocations| == |s.out.allocations| + n
    decreases n
  {
    r := s;
    if n > 0 {
      SpendStep(c, s);
      HostsAreText();
      r := Next(c, s, SendPacket(0, UNSENDABLE, NoFault));
      r := Spending(c, r, n - 1);
    }
  }

  /** The second association is given id 0 again, and announces it. */
  predicate Reused(c: Config, o: Outbound) {
    && |o.senders| == 2 && |o.allocations| == IDS + 1
    && EncodeAddress(c.ip, SECOND.destination).Ok?
    && o.senders[1].control == Request(c) + EncodeAnnouncement(c.ip, Announcement(SECOND.destination, 0))
    && o.senders[1].sent == [SECOND]
    && Be16(0) + FIRST.data in o.datagrams
  }

  lemma IdIsReused(c: Config, s: State)
    requires Opened(c, s) && |s.out.allocations| == IDS
    ensures var r := Apply(c, s, SendPacket(1, SECOND, NoFault)); r == Start(r.out) && Reused(c, r.out)
  {
    CanEncode(c, SECOND.destination.host, SECOND.destination.port);
    var k :| 0 <= k < |s.out.datagrams| && s.out.datagrams[k] == Be16(0) + FIRST.data;
    assert Apply(c, s, SendPacket(1, SECOND, NoFault)).out.datagrams[k] == s.out.datagrams[k];
  }

  /** Both control streams are accepted, and the second takes over the route for 0. */
  lemma RouteIsTakenOver(c: Config, s: State) returns (r: State)
    requires Lawful(c.ip) && Reachable(c, s) && Calm(c, s) && Reused(c, s.out)
    requires forall i :: 0 <= i < |s.tasks| ==> s.tasks[i].job.Authenticate?
    ensures Reachable(c, r) && Calm(c, r) && r.out == s.out
    ensures 0 in r.reg.routes && r.reg.routes[0].association == 1
  {
    var n, wire := |s.tasks|, EncodeAnnouncement(c.ip, Announcement(SECOND.destination, 0));
    r := Next(c, s, Accept(Associate(0)));
    assert r.tasks[n].job == Associate(0);
    CanEncode(c, FIRST.destination.host, FIRST.destination.port);
    r := OpenControl(c, r, 1, DatagramMode, FIRST.destination, wire);
    assert r.out.senders[1].control[|Request(c)|..] == wire + [];
    r := ReadsRoute(c, r, n + 1, 1, [], Announcement(SECOND.destination, 0), []);
  }

  /** A datagram of the first association, arriving now, is queued to the second. */
  lemma DatagramIsMisrouted(c: Config, s: State) returns (r: State)
    requires Reachable(c, s) && Calm(c, s) && Reused(c, s.out)
    requires 0 in s.reg.routes && s.reg.routes[0].association == 1
    ensures Reachable(c, r) && r.out == s.out
    ensures r.events == s.events + [Queued(1, Packet(FIRST.data, s.reg.routes[0].destination), |s.tasks|)]
  {
    var bytes, i := Be16(0) + FIRST.data, |s.tasks|;
    assert bytes[..2] == Be16(0) && bytes[2..] == FIRST.data;
    r := Enter(c, s, Payload(bytes));
    r := FindsRoute(c, r, i, 0);
    r := QueuesPayload(c, r, i, s.reg.routes[0], FIRST.data);
  }

  /** With 65537 ids there is a run that queues to association 1 a payload it was never given. */
  lemma MisdeliveryPastTheBound(c: Config) returns (s: State)
    requires Lawful(c.ip) && CanOpen(c.role)
    ensures Reachable(c, s) && |s.out.allocations| == 65537 && !Intact(c, s)
  {
    HostsAreText();
    s := Opening(c);
    s := Spending(c, s, IDS - 1);
    IdIsReused(c, s);
    s := Next(c, s, SendPacket(1, SECOND, NoFault));
    s := OpenGate(c, s);
    s := RouteIsTakenOver(c, s);
    var k := |s.events|;
    s := DatagramIsMisrouted(c, s);
    assert s.events[k].Queued? && !SentAs(c, s, 1, s.events[k].packet);
  }

  /** The number of ids up to which delivery is safe is exactly 65536, at every receiver that lets anything
      through. A server that knows no user queues nothing at all. */
  lemma IntegrityExactly(c: Config, n: nat)
    requires Lawful(c.ip)
    ensures AlwaysIntact(c, n) <==> n <= 65536 || !CanOpen(c.role)
  {
    if n <= IDS {
      forall s | Reachable(c, s) && |s.out.allocations| <= n ensures Intact(c, s) {
        IntactWithinBound(c, s);
      }
    } else if CanOpen(c.role) {
      var s := MisdeliveryPastTheBound(c);
    } else {
      forall s | Reachable(c, s) && |s.out.allocations| <= n ensures Intact(c, s) {
        ClosedGateIsQuiet(c, s);
      }
    }
  }

  lemma IntactWithinBound(c: Config, s: State)
    requires Lawful(c.ip) && Reachable(c, s) && |s.out.allocations| <= IDS
    ensures Intact(c, s)
  {
    var steps :| FeasibleRun(c, steps) && Exec(c, steps) == s;
    forall k | 0 <= k < |s.events| && s.events[k].Queued?
      ensures SentAs(c, s, s.events[k].association, s.events[k].packet)
    {
      var p := SquicDelivery.DeliveryIntegrity(c, steps, k);
      assert Matches(c, p, s.events[k].packet);
    }
  }
}
