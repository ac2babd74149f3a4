/** What every run of the session table keeps. */
module SessionProofs {
  import opened Bytes
  import opened Addresses
  import opened UdpFrames
  import opened Reassembly
  import opened ReassemblyRuns
  import opened Sessions

  /** The packets a fresh reassembler produces from a trace. */
  function Outputs(trace: seq<Arrival>): seq<Packet>
    decreases |trace|
  {
    if trace == [] then []
    else
      var answer := Answer(map[], trace);
      if answer.Ok? && answer.value.Some? then Outputs(Init(trace)) + [answer.value.value] else Outputs(Init(trace))
  }

  /** The messages given to session `i`, in order. */
  function FedTo(log: seq<Entry>, i: nat): seq<Arrival>
    decreases |log|
  {
    if log == [] then []
    else
      var init, last := log[..|log| - 1], log[|log| - 1];
      if last.session == i then FedTo(init, i) + [last.arrival] else FedTo(init, i)
  }

  /** In order, possibly with gaps. */
  predicate Subsequence(a: seq<Packet>, b: seq<Packet>)
    decreases |b|
  {
    a == [] || (b != [] &&
      ((a[|a| - 1] == b[|b| - 1] && Subsequence(a[..|a| - 1], b[..|b| - 1])) || Subsequence(a, b[..|b| - 1])))
  }

  lemma SubsequenceSnoc(a: seq<Packet>, b: seq<Packet>, p: Packet)
    requires Subsequence(a, b)
    ensures Subsequence(a + [p], b + [p]) && Subsequence(a, b + [p])
  {
    assert (a + [p])[..|a|] == a && (b + [p])[..|b|] == b;
  }

  /** A session's state is what a fresh reassembler makes of the messages given to it. */
  predicate Reassembles(s: Session, fed: seq<Arrival>) {
    s.fragments == Run(map[], fed) && s.reassembled == Outputs(fed)
  }

  /** What `recv` returned, followed by what is queued, is an in-order part of what was reassembled, and all
      of it while the queue cannot have been full. */
  predicate InOrder(s: Session) {
    && Subsequence(s.received + s.queue, s.reassembled)
    && |s.queue| <= QUEUE_CAPACITY
    && (|s.reassembled| <= QUEUE_CAPACITY ==> s.received + s.queue == s.reassembled)
  }

  predicate StatesOk(t: Table) {
    forall i :: 0 <= i < |t.sessions| ==> Reassembles(t.sessions[i], FedTo(t.log, i))
  }

  predicate QueuesOk(t: Table) {
    forall i :: 0 <= i < |t.sessions| ==> InOrder(t.sessions[i])
  }

  /** Every message went to a session with its own id. */
  predicate LogOk(t: Table) {
    forall x :: 0 <= x < |t.log| ==>
      && t.log[x].session < |t.sessions|
      && t.log[x].arrival.message.sessionId == t.sessions[t.log[x].session].id
  }

  /** The table can upgrade to every live session. */
  predicate TableOk(t: Table) {
    && (forall id | id in t.byId :: t.byId[id] < |t.sessions| && t.sessions[t.byId[id]].id == id)
    && (forall i :: 0 <= i < |t.sessions| && t.sessions[i].live ==>
          t.sessions[i].id in t.byId && t.byId[t.sessions[i].id] == i)
  }

  predicate Inv(t: Table) {
    FragmentsValid(t) && StatesOk(t) && QueuesOk(t) && LogOk(t) && TableOk(t)
  }

  lemma FeedIsLast(fed: seq<Arrival>, a: Arrival)
    ensures Feed(Run(map[], fed), a.message, a.at) == (Run(map[], fed + [a]), Answer(map[], fed + [a]))
  {
    assert Init(fed + [a]) == fed && Last(fed + [a]) == a;
  }

  lemma OutputsSnoc(fed: seq<Arrival>, a: Arrival)
    ensures var answer := Answer(map[], fed + [a]);
            Outputs(fed + [a]) ==
            if answer.Ok? && answer.value.Some? then Outputs(fed) + [answer.value.value] else Outputs(fed)
  {
    assert Init(fed + [a]) == fed;
  }

  lemma InputReassembles(s: Session, fed: seq<Arrival>, a: Arrival)
    requires Valid(s.fragments) && Reassembles(s, fed)
    ensures Reassembles(Input(s, a).0, fed + [a])
  {
    FeedIsLast(fed, a);
    OutputsSnoc(fed, a);
  }

  /** One more reassembled packet, queued unless the queue is full. */
  lemma QueueStep(s: Session, p: Packet)
    requires InOrder(s)
    ensures InOrder(s.(reassembled := s.reassembled + [p],
                       queue := if |s.queue| < QUEUE_CAPACITY then s.queue + [p] else s.queue))
  {
    SubsequenceSnoc(s.received + s.queue, s.reassembled, p);
    assert s.received + (s.queue + [p]) == s.received + s.queue + [p];
    assert |s.received + s.queue| >= |s.queue|;
  }

  lemma InputInOrder(s: Session, a: Arrival)
    requires Valid(s.fragments) && InOrder(s)
    ensures InOrder(Input(s, a).0)
  {
    var (fragments, answer) := Feed(s.fragments, a.message, a.at);
    var next := s.(fragments := fragments);
    assert InOrder(next);
    if answer.Ok? && answer.value.Some? {
      QueueStep(next, answer.value.value);
    }
  }

  lemma FedSnoc(log: seq<Entry>, e: Entry, i: nat)
    ensures FedTo(log + [e], i) == if e.session == i then FedTo(log, i) + [e.arrival] else FedTo(log, i)
  {
    assert (log + [e])[..|log|] == log;
  }

  lemma {:induction false} FedNone(log: seq<Entry>, i: nat)
    requires forall x :: 0 <= x < |log| ==> log[x].session != i
    ensures FedTo(log, i) == []
    decreases |log|
  {
    if log != [] {
      FedNone(log[..|log| - 1], i);
    }
  }

  lemma DeliverStates(t: Table, i: nat, a: Arrival)
    requires i < |t.sessions| && FragmentsValid(t) && StatesOk(t)
    ensures StatesOk(Deliver(t, i, a))
  {
    var r := Deliver(t, i, a);
    forall j | 0 <= j < |r.sessions| ensures Reassembles(r.sessions[j], FedTo(r.log, j)) {
      FedSnoc(t.log, Entry(a, i), j);
      if j == i { InputReassembles(t.sessions[i], FedTo(t.log, i), a); }
    }
  }

  lemma DeliverQueues(t: Table, i: nat, a: Arrival)
    requires i < |t.sessions| && FragmentsValid(t) && QueuesOk(t)
    ensures QueuesOk(Deliver(t, i, a))
  {
    InputInOrder(t.sessions[i], a);
  }

  lemma DeliverTable(t: Table, i: nat, a: Arrival)
    requires i < |t.sessions| && FragmentsValid(t) && t.sessions[i].id == a.message.sessionId
    requires LogOk(t) && TableOk(t)
    ensures LogOk(Deliver(t, i, a)) && TableOk(Deliver(t, i, a))
  {
  }

  lemma DeliverOk(t: Table, i: nat, a: Arrival)
    requires i < |t.sessions| && Inv(t) && t.sessions[i].id == a.message.sessionId
    ensures Inv(Deliver(t, i, a))
  {
    DeliverStates(t, i, a);
    DeliverQueues(t, i, a);
    DeliverTable(t, i, a);
  }

  lemma RegisterStates(t: Table, id: u32)
    requires FragmentsValid(t) && LogOk(t) && StatesOk(t)
    ensures StatesOk(Register(t, id))
  {
    var r, n := Register(t, id), |t.sessions|;
    forall i | 0 <= i < |r.sessions| ensures Reassembles(r.sessions[i], FedTo(r.log, i)) {
      if i < n {
        assert Reassembles(t.sessions[i], FedTo(t.log, i)) && r.sessions[i] == t.sessions[i];
      } else {
        FedNone(t.log, n);
        assert r.sessions[n] == NewSession(id);
        assert Reassembles(NewSession(id), []);
      }
    }
  }

  lemma RegisterTable(t: Table, id: u32)
    requires FragmentsValid(t) && LogOk(t) && TableOk(t) && Upgrade(t, id).None?
    ensures LogOk(Register(t, id)) && TableOk(Register(t, id))
  {
  }

  lemma RegisterQueues(t: Table, id: u32)
    requires FragmentsValid(t) && QueuesOk(t)
    ensures QueuesOk(Register(t, id))
  {
    assert InOrder(NewSession(id));
  }

  lemma RegisterOk(t: Table, id: u32)
    requires Inv(t) && Upgrade(t, id).None?
    ensures Inv(Register(t, id))
  {
    RegisterStates(t, id);
    RegisterQueues(t, id);
    RegisterTable(t, id);
  }

  lemma DatagramOk(ip: IpText, t: Table, bytes: seq<byte>, at: nat, routerAccepts: bool)
    requires Inv(t)
    ensures Inv(OnDatagram(ip, t, bytes, at, routerAccepts))
  {
    var decoded := DecodeMessage(ip, bytes);
    if decoded.Ok? {
      var a := Arrival(decoded.value, at);
      var existing := Upgrade(t, a.message.sessionId);
      if existing.Some? {
        DeliverOk(t, existing.value, a);
      } else if routerAccepts {
        RegisterOk(t, a.message.sessionId);
        DeliverOk(Register(t, a.message.sessionId), |t.sessions|, a);
      }
    }
  }

  lemma RouterStates(ip: IpText, t: Table, e: Event)
    requires FragmentsValid(t) && !e.Datagram? && StatesOk(t)
    ensures StatesOk(React(ip, t, e))
  {
    var r := React(ip, t, e);
    assert r.log == t.log && |r.sessions| == |t.sessions|;
    forall i | 0 <= i < |r.sessions| ensures Reassembles(r.sessions[i], FedTo(r.log, i)) {
      assert Reassembles(t.sessions[i], FedTo(t.log, i));
    }
  }

  lemma RouterQueues(ip: IpText, t: Table, e: Event)
    requires FragmentsValid(t) && !e.Datagram? && QueuesOk(t)
    ensures QueuesOk(React(ip, t, e))
  {
    if e.session < |t.sessions| && t.sessions[e.session].queue != [] {
      var s := t.sessions[e.session];
      assert s.received + [s.queue[0]] + s.queue[1..] == s.received + s.queue;
    }
  }

  lemma RouterTable(ip: IpText, t: Table, e: Event)
    requires FragmentsValid(t) && !e.Datagram? && LogOk(t) && TableOk(t)
    ensures LogOk(React(ip, t, e)) && TableOk(React(ip, t, e))
  {
  }

  lemma RouterOk(ip: IpText, t: Table, e: Event)
    requires Inv(t) && !e.Datagram?
    ensures Inv(React(ip, t, e))
  {
    RouterStates(ip, t, e);
    RouterQueues(ip, t, e);
    RouterTable(ip, t, e);
  }

  /** Every run of datagrams, releases and receives keeps the invariant. */
  lemma {:induction false} RunsAreSafe(ip: IpText, events: seq<Event>)
    ensures Inv(After(ip, events))
    decreases |events|
  {
    if events != [] {
      var init, last := events[..|events| - 1], events[|events| - 1];
      RunsAreSafe(ip, init);
      if last.Datagram? {
        DatagramOk(ip, After(ip, init), last.bytes, last.at, last.routerAccepts);
      } else {
        RouterOk(ip, After(ip, init), last);
      }
    }
  }

  /** At most one live session per id, in every run. */
  lemma OneLiveSessionPerId(ip: IpText, events: seq<Event>, i: nat, j: nat)
    requires var t := After(ip, events);
             i < j < |t.sessions| && t.sessions[i].live && t.sessions[j].live
    ensures After(ip, events).sessions[i].id != After(ip, events).sessions[j].id
  {
    RunsAreSafe(ip, events);
  }

  /** A session is announced exactly when none with that id is live. */
  lemma AnnouncedWhenNoneLive(ip: IpText, events: seq<Event>, bytes: seq<byte>, at: nat)
    requires After(ip, events).open && DecodeMessage(ip, bytes).Ok?
    ensures var t, id := After(ip, events), DecodeMessage(ip, bytes).value.sessionId;
            var r := React(ip, t, Datagram(bytes, at, true));
            |r.sessions| == |t.sessions| + 1 <==>
            forall i :: 0 <= i < |t.sessions| && t.sessions[i].live ==> t.sessions[i].id != id
  {
    RunsAreSafe(ip, events);
  }

  /** One decoded datagram goes to one live session, which has its id; no other session moves. */
  lemma DatagramEffect(ip: IpText, events: seq<Event>, bytes: seq<byte>, at: nat) returns (i: nat)
    requires After(ip, events).open && DecodeMessage(ip, bytes).Ok?
    ensures var t, m := After(ip, events), DecodeMessage(ip, bytes).value;
            var r := React(ip, t, Datagram(bytes, at, true));
            && i < |r.sessions| && r.sessions[i].id == m.sessionId && r.sessions[i].live
            && (i < |t.sessions| ==> t.sessions[i].live)
            && r.log == t.log + [Entry(Arrival(m, at), i)]
            && forall j :: 0 <= j < |t.sessions| && j != i ==> r.sessions[j] == t.sessions[j]
  {
    RunsAreSafe(ip, events);
    var t := After(ip, events);
    var existing := Upgrade(t, DecodeMessage(ip, bytes).value.sessionId);
    i := if existing.Some? then existing.value else |t.sessions|;
  }

  /** A released session is out of the game: nothing later reaches it or changes it. */
  lemma {:induction false} ReleasedIsFrozen(ip: IpText, events: seq<Event>, more: seq<Event>, i: nat)
    requires i < |After(ip, events).sessions| && !After(ip, events).sessions[i].live
    ensures var t, r := After(ip, events), After(ip, events + more);
            i < |r.sessions| && r.sessions[i] == t.sessions[i] && FedTo(r.log, i) == FedTo(t.log, i)
    decreases |more|
  {
    if more == [] {
      assert events + more == events;
    } else {
      var init, last := more[..|more| - 1], more[|more| - 1];
      assert (events + more)[..|events + more| - 1] == events + init;
      ReleasedIsFrozen(ip, events, init, i);
      RunsAreSafe(ip, events + init);
      FrozenStep(ip, After(ip, events + init), last, i);
    }
  }

  lemma FrozenStep(ip: IpText, t: Table, e: Event, i: nat)
    requires Inv(t) && i < |t.sessions| && !t.sessions[i].live
    ensures var r := React(ip, t, e);
            i < |r.sessions| && r.sessions[i] == t.sessions[i] && FedTo(r.log, i) == FedTo(t.log, i)
  {
    if e.Datagram? {
      FrozenDatagram(ip, t, e.bytes, e.at, e.routerAccepts, i);
    }
  }

  lemma FrozenDatagram(ip: IpText, t: Table, bytes: seq<byte>, at: nat, routerAccepts: bool, i: nat)
    requires FragmentsValid(t) && i < |t.sessions| && !t.sessions[i].live
    ensures var r := OnDatagram(ip, t, bytes, at, routerAccepts);
            i < |r.sessions| && r.sessions[i] == t.sessions[i] && FedTo(r.log, i) == FedTo(t.log, i)
  {
    var decoded := DecodeMessage(ip, bytes);
    if decoded.Ok? {
      var a := Arrival(decoded.value, at);
      var existing := Upgrade(t, a.message.sessionId);
      if existing.Some? {
        DeliverElsewhere(t, existing.value, a, i);
      } else {
        DeliverElsewhere(Register(t, a.message.sessionId), |t.sessions|, a, i);
      }
    }
  }

  lemma DeliverElsewhere(t: Table, j: nat, a: Arrival, i: nat)
    requires FragmentsValid(t) && i < |t.sessions| && j < |t.sessions| && i != j
    ensures var r := Deliver(t, j, a);
            r.sessions[i] == t.sessions[i] && FedTo(r.log, i) == FedTo(t.log, i)
  {
    FedSnoc(t.log, Entry(a, j), i);
  }

  /** What `recv` returned is an in-order part of what a fresh reassembler makes of the messages given to
      this very session, all of which carry its id. */
  lemma ReceivedComesFromOwnMessages(ip: IpText, events: seq<Event>, i: nat)
    requires i < |After(ip, events).sessions|
    ensures var t := After(ip, events);
            var fed := FedTo(t.log, i);
            && Subsequence(t.sessions[i].received, Outputs(fed))
            && (|Outputs(fed)| <= 64 ==> t.sessions[i].received + t.sessions[i].queue == Outputs(fed))
            && forall k :: 0 <= k < |fed| ==> fed[k].message.sessionId == t.sessions[i].id
  {
    RunsAreSafe(ip, events);
    var t := After(ip, events);
    var s := t.sessions[i];
    PrefixSubsequence(s.received, s.queue, s.reassembled);
    FedIds(t.log, i, s.id);
  }

  lemma {:induction false} FedIds(log: seq<Entry>, i: nat, id: u32)
    requires forall x :: 0 <= x < |log| && log[x].session == i ==> log[x].arrival.message.sessionId == id
    ensures forall k :: 0 <= k < |FedTo(log, i)| ==> FedTo(log, i)[k].message.sessionId == id
    decreases |log|
  {
    if log != [] {
      FedIds(log[..|log| - 1], i, id);
    }
  }

  lemma {:induction false} PrefixSubsequence(a: seq<Packet>, q: seq<Packet>, b: seq<Packet>)
    requires Subsequence(a + q, b)
    ensures Subsequence(a, b)
    decreases |b|, |q|
  {
    if q == [] {
      assert a + q == a;
    } else {
      var q' := q[..|q| - 1];
      assert (a + q)[..|a + q| - 1] == a + q';
      if Subsequence(a + q, b[..|b| - 1]) {
        PrefixSubsequence(a, q, b[..|b| - 1]);
      } else {
        PrefixSubsequence(a, q', b[..|b| - 1]);
      }
    }
  }

  /** What a datagram finds: the session that gets it, as it was, or a new one. */
  function Finds(t: Table, i: nat, id: u32): Session {
    if i < |t.sessions| then t.sessions[i] else NewSession(id)
  }

  /** The queue after a message that the reassembler answers like that. */
  function Queued(queue: seq<Packet>, answer: Result<Option<Packet>>): seq<Packet> {
    if answer.Ok? && answer.value.Some? && |queue| < 64 then queue + [answer.value.value] else queue
  }

  lemma InputQueues(s: Session, fed: seq<Arrival>, a: Arrival)
    requires Valid(s.fragments) && Reassembles(s, fed)
    ensures Input(s, a).0.received == s.received
    ensures Input(s, a).0.queue == Queued(s.queue, Answer(map[], fed + [a]))
  {
    FeedIsLast(fed, a);
  }

  /** The session that gets a message, after it. */
  lemma GetsInput(ip: IpText, t: Table, bytes: seq<byte>, at: nat, i: nat)
    requires FragmentsValid(t) && t.open && DecodeMessage(ip, bytes).Ok?
    requires var id := DecodeMessage(ip, bytes).value.sessionId;
             i == if Upgrade(t, id).Some? then Upgrade(t, id).value else |t.sessions|
    ensures var m := DecodeMessage(ip, bytes).value;
            var r := React(ip, t, Datagram(bytes, at, true));
            && i < |r.sessions| && r.log == t.log + [Entry(Arrival(m, at), i)]
            && Valid(Finds(t, i, m.sessionId).fragments)
            && r.sessions[i] == Input(Finds(t, i, m.sessionId), Arrival(m, at)).0
  {
  }

  lemma FoundReassembles(t: Table, i: nat, id: u32)
    requires Inv(t) && i <= |t.sessions|
    ensures Reassembles(Finds(t, i, id), FedTo(t.log, i))
  {
    if i == |t.sessions| {
      FedNone(t.log, i);
    }
  }

  /** In every run, a packet that a datagram completes is queued exactly when fewer than 64 are waiting; it goes to
      the end of the queue, nothing that waits is lost, and nothing counts as received. */
  lemma QueueExactly(ip: IpText, events: seq<Event>, bytes: seq<byte>, at: nat) returns (i: nat)
    requires After(ip, events).open && DecodeMessage(ip, bytes).Ok?
    ensures var t, m := After(ip, events), DecodeMessage(ip, bytes).value;
            var r, was := React(ip, t, Datagram(bytes, at, true)), Finds(t, i, m.sessionId);
            && i < |r.sessions| && r.log == t.log + [Entry(Arrival(m, at), i)]
            && r.sessions[i].received == was.received
            && r.sessions[i].queue == Queued(was.queue, Answer(map[], FedTo(t.log, i) + [Arrival(m, at)]))
  {
    RunsAreSafe(ip, events);
    var t, m := After(ip, events), DecodeMessage(ip, bytes).value;
    i := if Upgrade(t, m.sessionId).Some? then Upgrade(t, m.sessionId).value else |t.sessions|;
    GetsInput(ip, t, bytes, at, i);
    FoundReassembles(t, i, m.sessionId);
    InputQueues(Finds(t, i, m.sessionId), FedTo(t.log, i), Arrival(m, at));
  }

  /** `recv` on a live session takes the oldest packet that waits, and leaves a session with none alone. */
  lemma RecvTakesTheOldest(ip: IpText, events: seq<Event>, i: nat)
    requires i < |After(ip, events).sessions| && After(ip, events).sessions[i].live
    ensures var t := After(ip, events);
            var r, s := React(ip, t, Recv(i)), t.sessions[i];
            if s.queue == [] then r == t
            else
              && |r.sessions| == |t.sessions| && r.log == t.log && r.open == t.open
              && r.sessions[i].received == s.received + [s.queue[0]] && [s.queue[0]] + r.sessions[i].queue == s.queue
              && r.sessions[i].live && r.sessions[i].fragments == s.fragments
              && forall j :: 0 <= j < |t.sessions| && j != i ==> r.sessions[j] == t.sessions[j]
  {
  }

  /** A release ends that session and no other, so that its id is announced again. */
  lemma ReleaseEndsTheSession(ip: IpText, events: seq<Event>, i: nat)
    requires i < |After(ip, events).sessions|
    ensures var t := After(ip, events);
            var r := React(ip, t, Release(i));
            && |r.sessions| == |t.sessions| && !r.sessions[i].live && r.open == t.open && r.log == t.log
            && (t.sessions[i].live ==> Upgrade(r, t.sessions[i].id).None?)
            && forall j :: 0 <= j < |t.sessions| && j != i ==> r.sessions[j] == t.sessions[j]
  {
    RunsAreSafe(ip, events);
  }

  /** A message for a new session that the router does not take ends the loop and changes nothing else. */
  lemma RouterRefuses(ip: IpText, events: seq<Event>, bytes: seq<byte>, at: nat)
    requires After(ip, events).open && DecodeMessage(ip, bytes).Ok?
    requires forall i :: 0 <= i < |After(ip, events).sessions| && After(ip, events).sessions[i].live ==>
               After(ip, events).sessions[i].id != DecodeMessage(ip, bytes).value.sessionId
    ensures React(ip, After(ip, events), Datagram(bytes, at, false)) == After(ip, events).(open := false)
  {
    RunsAreSafe(ip, events);
  }
}
