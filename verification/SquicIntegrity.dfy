/** Delivery integrity of SQuic UDP over whole runs: what reaches an association's queue was sent on the
    matching association, to that destination. */
module SquicIntegrity {
  import opened Bytes
  import opened Text
  import opened Addresses
  import opened SquicWire
  import opened SquicOutbound
  import opened SquicOutboundProofs
  import opened SquicRegistry
  import opened SquicMachine

  /** The route that belongs to an id. */
  function RouteOf(c: Config, o: Outbound, id: nat): Route
    requires id < |o.allocations|
  {
    Route(o.allocations[id].association, Canonical(c.ip, o.allocations[id].destination))
  }

  ghost predicate HeaderOk(c: Config, sender: Sender) {
    if c.role.Client? then sender.header == []
    else
      && sender.header != [] && sender.header[0] == Opcode(sender.mode)
      && exists d :: EncodeAddress(c.ip, d).Ok? && sender.header[1..] == EncodeAddress(c.ip, d).value
  }

  predicate RoutesOk(c: Config, o: Outbound, routes: map<u16, Route>) {
    forall id | id in routes :: id < |o.allocations| && routes[id] == RouteOf(c, o, id)
  }

  predicate IdsPrefix(sender: Sender, ids: seq<u16>) {
    |ids| <= |sender.announced| && forall j :: 0 <= j < |ids| ==> ids[j] == sender.announced[j].id
  }

  /** A control task that has consumed exactly the announcements of `ids`. */
  predicate ReaderAt(c: Config, sender: Sender, position: nat, ids: seq<u16>) {
    && IdsPrefix(sender, ids)
    && Encodable(c.ip, sender.announced[..|ids|])
    && position == |sender.header| + |AnnouncedBytes(c.ip, sender.announced[..|ids|])|
  }

  predicate AssociateOk(c: Config, sender: Sender, phase: Phase) {
    match phase
    case Gated(_) => c.role.Server?
    case Admitted(_, _, _) => c.role.Server?
    case Reading(position, ids) => ReaderAt(c, sender, position, ids)
    case Notifying(position, ids, id) => ReaderAt(c, sender, position, ids + [id])
    case Removing(ids) => IdsPrefix(sender, ids)
    case Done => true
    case _ => false
  }

  /** The id a task waits for or was routed by. */
  predicate WaitsFor(c: Config, o: Outbound, phase: Phase, id: nat) {
    match phase
    case Subscribe(x) => x == id
    case LookingUp(x, _) => x == id
    case Checking(x, _) => x == id
    case Parked(x, _) => x == id
    case Routed(route, _) => id < |o.allocations| && route == RouteOf(c, o, id)
    case Gated(_) => true
    case Admitted(_, _, _) => true
    case Done => true
    case _ => false
  }

  /** A stream task that has queued the payloads `q`, in order, and stands right behind them. */
  predicate StreamOk(c: Config, o: Outbound, u: nat, phase: Phase, q: seq<seq<byte>>)
    requires u < |o.unis|
  {
    && WaitsFor(c, o, phase, o.unis[u].id)
    && q <= o.unis[u].payloads
    && (!phase.Done? && !phase.Routed? ==> q == [])
    && (phase.Routed? ==> Short(q) && phase.position == 2 + |Records(q)|)
  }

  predicate PayloadOk(c: Config, o: Outbound, bytes: seq<byte>, phase: Phase) {
    && bytes in o.datagrams && |bytes| >= 2
    && WaitsFor(c, o, phase, FromBe16(bytes[..2]))
  }

  predicate TaskOk(c: Config, o: Outbound, task: Task, q: seq<seq<byte>>) {
    match task.job
    case Associate(a) => a < |o.senders| && AssociateOk(c, o.senders[a], task.phase)
    case Stream(u) => u < |o.unis| && StreamOk(c, o, u, task.phase, q)
    case Payload(bytes) => PayloadOk(c, o, bytes, task.phase)
    case _ => task.phase.Fresh? || task.phase.Gated? || task.phase.Admitted? || task.phase.Done?
  }

  /** The payloads a task has queued, in order. */
  function QueuedBy(events: seq<Event>, i: nat): seq<seq<byte>> {
    if events == [] then []
    else
      var init, last := events[..|events| - 1], events[|events| - 1];
      if last.Queued? && last.task == i then QueuedBy(init, i) + [last.packet.data] else QueuedBy(init, i)
  }

  /** A queued packet came out of a stream or datagram of the association it was queued to. */
  predicate EventOk(c: Config, o: Outbound, tasks: seq<Task>, e: Event) {
    e.Queued? ==>
      && e.task < |tasks|
      && match tasks[e.task].job
         case Stream(u) =>
           && u < |o.unis| && o.unis[u].association == e.association
           && Canonical(c.ip, o.unis[u].destination) == e.packet.destination
           && e.packet.data in o.unis[u].payloads
         case Payload(bytes) =>
           && bytes in o.datagrams && |bytes| >= 2 && FromBe16(bytes[..2]) < |o.allocations|
           && RouteOf(c, o, FromBe16(bytes[..2])) == Route(e.association, e.packet.destination)
           && e.packet.data == bytes[2..]
         case _ => false
  }

  ghost predicate HeadersOk(c: Config, o: Outbound) {
    forall a :: 0 <= a < |o.senders| ==> HeaderOk(c, o.senders[a])
  }

  predicate TasksOk(c: Config, s: State) {
    forall i :: 0 <= i < |s.tasks| ==> TaskOk(c, s.out, s.tasks[i], QueuedBy(s.events, i))
  }

  predicate EventsOk(c: Config, s: State) {
    forall k :: 0 <= k < |s.events| ==> EventOk(c, s.out, s.tasks, s.events[k])
  }

  predicate JobsUnique(s: State) {
    forall i, j :: 0 <= i < j < |s.tasks| && s.tasks[i].job == s.tasks[j].job ==>
      !s.tasks[i].job.Associate? && !s.tasks[i].job.Stream?
  }

  ghost predicate Inv(c: Config, s: State) {
    && OutboundOk(c.ip, s.out)
    && HeadersOk(c, s.out)
    && RoutesOk(c, s.out, s.reg.routes)
    && TasksOk(c, s)
    && EventsOk(c, s)
    && JobsUnique(s)
  }

  // ---- how the parts move ----

  lemma QueuedSnoc(events: seq<Event>, e: Event, i: nat)
    ensures QueuedBy(events + [e], i) ==
            if e.Queued? && e.task == i then QueuedBy(events, i) + [e.packet.data] else QueuedBy(events, i)
  {
    assert (events + [e])[..|events|] == events;
  }

  lemma {:induction false} QueuedNone(events: seq<Event>, i: nat)
    requires forall k :: 0 <= k < |events| && events[k].Queued? ==> events[k].task != i
    ensures QueuedBy(events, i) == []
    decreases |events|
  {
    if events != [] {
      QueuedNone(events[..|events| - 1], i);
    }
  }

  lemma AssociateGrows(c: Config, o: Outbound, o': Outbound, a: nat, phase: Phase)
    requires Grows(o, o') && a < |o.senders| && AssociateOk(c, o.senders[a], phase)
    ensures AssociateOk(c, o'.senders[a], phase)
  {
    var k := match phase case Reading(_, ids) => |ids| case Notifying(_, ids, _) => |ids| + 1 case _ => 0;
    if k <= |o.senders[a].announced| {
      assert o'.senders[a].announced[..k] == o.senders[a].announced[..k];
    }
  }

  lemma TaskGrows(c: Config, o: Outbound, o': Outbound, task: Task, q: seq<seq<byte>>)
    requires Grows(o, o') && TaskOk(c, o, task, q)
    ensures TaskOk(c, o', task, q)
  {
    if task.job.Associate? {
      AssociateGrows(c, o, o', task.job.association, task.phase);
    } else if task.job.Payload? {
      var k :| 0 <= k < |o.datagrams| && o.datagrams[k] == task.job.datagram;
      assert o'.datagrams[k] == o.datagrams[k];
    }
  }

  lemma EventGrows(c: Config, o: Outbound, o': Outbound, tasks: seq<Task>, e: Event)
    requires Grows(o, o') && EventOk(c, o, tasks, e)
    ensures EventOk(c, o', tasks, e)
  {
    if e.Queued? {
      match tasks[e.task].job
      case Stream(u) =>
        var k :| 0 <= k < |o.unis[u].payloads| && o.unis[u].payloads[k] == e.packet.data;
        assert o'.unis[u].payloads[k] == o.unis[u].payloads[k];
      case Payload(bytes) =>
        var k :| 0 <= k < |o.datagrams| && o.datagrams[k] == bytes;
        assert o'.datagrams[k] == o.datagrams[k];
    }
  }

  /** The sending end moved. */
  lemma OutMoves(c: Config, s: State, o': Outbound)
    requires Inv(c, s) && Grows(s.out, o') && OutboundOk(c.ip, o') && HeadersOk(c, o')
    ensures Inv(c, s.(out := o'))
  {
    var r := s.(out := o');
    forall i | 0 <= i < |r.tasks| ensures TaskOk(c, r.out, r.tasks[i], QueuedBy(r.events, i)) {
      TaskGrows(c, s.out, o', s.tasks[i], QueuedBy(s.events, i));
    }
    forall k | 0 <= k < |r.events| ensures EventOk(c, r.out, r.tasks, r.events[k]) {
      EventGrows(c, s.out, o', s.tasks, s.events[k]);
    }
  }

  /** Task i moved to a phase that suits it; the routes may have changed. */
  lemma TaskMoves(c: Config, s: State, i: nat, phase: Phase, reg: Registry)
    requires Inv(c, s) && i < |s.tasks| && RoutesOk(c, s.out, reg.routes)
    requires TaskOk(c, s.out, Task(s.tasks[i].job, phase), QueuedBy(s.events, i))
    ensures Inv(c, SetPhase(s.(reg := reg), i, phase))
  {
    var r := SetPhase(s.(reg := reg), i, phase);
    forall j | 0 <= j < |r.tasks| ensures TaskOk(c, r.out, r.tasks[j], QueuedBy(r.events, j)) {
      assert TaskOk(c, s.out, s.tasks[j], QueuedBy(s.events, j));
    }
    forall k | 0 <= k < |r.events| ensures EventOk(c, r.out, r.tasks, r.events[k]) {
      assert EventOk(c, s.out, s.tasks, s.events[k]);
    }
  }

  /** Something was observed. */
  lemma EventMoves(c: Config, s: State, e: Event)
    requires OutboundOk(c.ip, s.out) && HeadersOk(c, s.out) && RoutesOk(c, s.out, s.reg.routes) && JobsUnique(s)
    requires EventsOk(c, s) && EventOk(c, s.out, s.tasks, e)
    requires forall i :: 0 <= i < |s.tasks| ==>
               TaskOk(c, s.out, s.tasks[i],
                      if e.Queued? && e.task == i then QueuedBy(s.events, i) + [e.packet.data]
                      else QueuedBy(s.events, i))
    ensures Inv(c, Emit(s, e))
  {
    var r := Emit(s, e);
    forall i | 0 <= i < |r.tasks| ensures TaskOk(c, r.out, r.tasks[i], QueuedBy(r.events, i)) {
      QueuedSnoc(s.events, e, i);
    }
    forall k | 0 <= k < |r.events| ensures EventOk(c, r.out, r.tasks, r.events[k]) {
      if k < |s.events| { assert EventOk(c, s.out, s.tasks, s.events[k]); }
    }
  }

  // ---- the steps ----

  lemma OpenStep(c: Config, s: State, mode: UdpMode, destination: Address)
    requires Inv(c, s)
    ensures Inv(c, DoOpen(c, s, mode, destination))
  {
    var header := Header(c, mode, destination);
    if header.Ok? {
      var o' := s.out.(senders := s.out.senders + [Sender(mode, header.value, header.value, map[], [], [])]);
      assert Grows(s.out, o');
      var n := |s.out.senders|;
      forall a | 0 <= a < |o'.senders| ensures SenderOk(c.ip, o', a) {
        if a < n { SenderKept(c.ip, s.out, o', a); } else { assert AnnouncementFrames(c.ip, []) == []; }
      }
      forall u | 0 <= u < |o'.unis| ensures UniOk(o', u) { UniKept(s.out, o', u); }
      DatagramsKept(s.out, o');
      forall a | 0 <= a < |o'.senders| ensures HeaderOk(c, o'.senders[a]) {
        if a < n {
          assert HeaderOk(c, s.out.senders[a]);
        } else if c.role.Server? {
          assert EncodeAddress(c.ip, destination).Ok?;
          assert header.value[1..] == EncodeAddress(c.ip, destination).value;
        }
      }
      OutMoves(c, s, o');
    }
  }

  lemma SendStep(c: Config, s: State, a: nat, packet: Packet, fault: Fault)
    requires Inv(c, s) && a < |s.out.senders|
    requires |Send(c.ip, s.out, a, packet, fault).0.allocations| <= IDS
    ensures Inv(c, s.(out := Send(c.ip, s.out, a, packet, fault).0))
  {
    var o' := Send(c.ip, s.out, a, packet, fault).0;
    SendOk(c.ip, s.out, a, packet, fault);
    AllocationsGrow(c.ip, s.out, a, packet, fault);
    forall b | 0 <= b < |o'.senders| ensures HeaderOk(c, o'.senders[b]) {
      assert HeaderOk(c, s.out.senders[b]);
    }
    OutMoves(c, s, o');
  }

  lemma AcceptStep(c: Config, s: State, job: Job)
    requires Inv(c, s) && Arrives(c, s, job)
    ensures Inv(c, s.(tasks := s.tasks + [Task(job, Entry(c, job))]))
  {
    var r := s.(tasks := s.tasks + [Task(job, Entry(c, job))]);
    var n := |s.tasks|;
    QueuedNone(s.events, n) by {
      forall k | 0 <= k < |s.events| && s.events[k].Queued? ensures s.events[k].task != n {
        assert EventOk(c, s.out, s.tasks, s.events[k]);
      }
    }
    if job.Payload? {
      assert DatagramOk(s.out, job.datagram);
    }
    if job.Associate? && c.role.Client? {
      assert HeaderOk(c, s.out.senders[job.association]);
      assert AnnouncementFrames(c.ip, s.out.senders[job.association].announced[..0]) == [];
    }
    forall i | 0 <= i < |r.tasks| ensures TaskOk(c, r.out, r.tasks[i], QueuedBy(r.events, i)) {
      if i < n { assert TaskOk(c, s.out, s.tasks[i], QueuedBy(s.events, i)); }
    }
    forall k | 0 <= k < |r.events| ensures EventOk(c, r.out, r.tasks, r.events[k]) {
      assert EventOk(c, s.out, s.tasks, s.events[k]);
    }
  }

  lemma AdmittedStep(c: Config, s: State, i: nat, user: text)
    requires Lawful(c.ip) && Inv(c, s) && i < |s.tasks| && s.tasks[i].phase.Admitted?
    ensures Inv(c, DoAdmitted(c, s, i, user))
  {
    assert TaskOk(c, s.out, s.tasks[i], QueuedBy(s.events, i));
    match s.tasks[i].job
    case Authenticate(_) =>
    case Connect =>
      TaskMoves(c, s, i, Done, s.reg);
      EventMoves(c, SetPhase(s, i, Done), StreamAccepted(ReportedUser(c, user)));
    case Extension =>
      TaskMoves(c, s, i, Done, s.reg);
      EventMoves(c, SetPhase(s, i, Done), ExtensionReplied);
    case Associate(a) =>
      AssociationStep(c, s, i, a, user);
    case Payload(bytes) =>
      TaskMoves(c, s, i, Subscribe(FromBe16(bytes[..2])), s.reg);
    case Stream(u) =>
      assert UniOk(s.out, u);
      var x := s.out.unis[u];
      Be16Inverse(x.id);
      assert x.bytes[..2] == Be16(x.id);
      TaskMoves(c, s, i, Subscribe(x.id), s.reg);
  }

  lemma ModeIsRead(c: Config, o: Outbound, a: nat)
    requires c.role.Server? && a < |o.senders| && HeaderOk(c, o.senders[a]) && SenderOk(c.ip, o, a)
    ensures o.senders[a].control != [] && ModeOf(o.senders[a].control[0]) == Some(o.senders[a].mode)
  {
    assert o.senders[a].control[0] == o.senders[a].header[0];
  }

  /** The request at the head of a control stream is read to its last byte and no further. */
  lemma HeaderIsConsumed(c: Config, o: Outbound, a: nat)
    requires Lawful(c.ip) && c.role.Server? && a < |o.senders| && HeaderOk(c, o.senders[a]) && SenderOk(c.ip, o, a)
    ensures var sender := o.senders[a];
            && sender.control != [] && ModeOf(sender.control[0]) == Some(sender.mode)
            && var decoded := DecodeAddress(c.ip, sender.control[1..]);
            && decoded.Ok? && |decoded.value.1| <= |sender.control|
            && ReaderAt(c, sender, |sender.control| - |decoded.value.1|, [])
  {
    var sender := o.senders[a];
    ModeIsRead(c, o, a);
    var d :| EncodeAddress(c.ip, d).Ok? && sender.header[1..] == EncodeAddress(c.ip, d).value;
    var rest := AnnouncedBytes(c.ip, sender.announced);
    BehindFirst(sender.header, rest);
    AddressRoundTrip(c.ip, d, rest);
    assert AnnouncementFrames(c.ip, sender.announced[..0]) == [];
  }

  lemma BehindFirst(header: seq<byte>, rest: seq<byte>)
    requires header != []
    ensures (header + rest)[1..] == header[1..] + rest
  {
  }

  lemma AssociationStep(c: Config, s: State, i: nat, a: nat, user: text)
    requires Lawful(c.ip) && Inv(c, s) && i < |s.tasks| && s.tasks[i].phase.Admitted? && s.tasks[i].job == Associate(a)
    ensures Inv(c, DoAdmitted(c, s, i, user))
  {
    assert TaskOk(c, s.out, s.tasks[i], QueuedBy(s.events, i));
    HeaderIsConsumed(c, s.out, a);
    var control := s.out.senders[a].control;
    var phase := Reading(|control| - |DecodeAddress(c.ip, control[1..]).value.1|, []);
    TaskMoves(c, s, i, phase, s.reg);
    var e := AssociationAccepted(a, s.out.senders[a].mode, DecodeAddress(c.ip, control[1..]).value.0,
                                 ReportedUser(c, user));
    EventMoves(c, SetPhase(s, i, phase), e);
  }

  lemma SkipFrames(header: seq<byte>, done: seq<byte>, next: seq<byte>)
    ensures (header + (done + next))[|header| + |done|..] == next
  {
  }

  /** One announcement further. */
  lemma ReaderMoves(c: Config, sender: Sender, position: nat, ids: seq<u16>)
    requires Encodable(c.ip, sender.announced) && ReaderAt(c, sender, position, ids) && |ids| < |sender.announced|
    ensures var n := sender.announced[|ids|];
            ReaderAt(c, sender, position + |EncodeAnnouncement(c.ip, n)|, ids + [n.id])
  {
    var _ := AnnouncedAt(c.ip, sender.announced, |ids|);
  }

  /** What a reader behind the first k announcements still has before it. */
  lemma Unread(c: Config, o: Outbound, a: nat, position: nat, ids: seq<u16>) returns (rest: seq<byte>)
    requires a < |o.senders| && SenderOk(c.ip, o, a) && ReaderAt(c, o.senders[a], position, ids)
    ensures position <= |o.senders[a].control|
    ensures o.senders[a].control[position..] ==
            if |ids| < |o.senders[a].announced|
            then EncodeAnnouncement(c.ip, o.senders[a].announced[|ids|]) + rest else []
  {
    var sender, k := o.senders[a], |ids|;
    rest := [];
    if k < |sender.announced| {
      rest := AnnouncedAt(c.ip, sender.announced, k);
      SkipFrames(sender.header, AnnouncedBytes(c.ip, sender.announced[..k]),
                 EncodeAnnouncement(c.ip, sender.announced[k]) + rest);
    } else {
      assert sender.announced[..k] == sender.announced;
    }
  }

  /** It decodes the next one, or finds nothing more. */
  lemma NextAnnouncement(c: Config, o: Outbound, a: nat, position: nat, ids: seq<u16>)
    requires Lawful(c.ip) && a < |o.senders| && SenderOk(c.ip, o, a) && ReaderAt(c, o.senders[a], position, ids)
    ensures position <= |o.senders[a].control|
    ensures var sender := o.senders[a];
            var decoded := DecodeAnnouncement(c.ip, sender.control[position..]);
            if |ids| < |sender.announced| then
              && var n := sender.announced[|ids|];
              && decoded.Ok? && |decoded.value.1| <= |sender.control|
              && decoded.value.0 == Announcement(Canonical(c.ip, n.destination), n.id)
              && ReaderAt(c, sender, |sender.control| - |decoded.value.1|, ids + [n.id])
            else decoded.Err?
  {
    var rest := Unread(c, o, a, position, ids);
    if |ids| < |o.senders[a].announced| {
      AnnouncementRoundTrip(c.ip, o.senders[a].announced[|ids|], rest);
      ReaderMoves(c, o.senders[a], position, ids);
    }
  }

  /** Reading an announcement does nothing, or inserts the route that belongs to its id. */
  lemma ReadOutcome(c: Config, s: State, i: nat, position: nat, ids: seq<u16>)
    requires Lawful(c.ip) && i < |s.tasks| && s.tasks[i].job.Associate?
    requires var a := s.tasks[i].job.association;
             a < |s.out.senders| && SenderOk(c.ip, s.out, a) && ReaderAt(c, s.out.senders[a], position, ids)
    ensures var r := DoRead(c, s, i, position, ids);
            var a := s.tasks[i].job.association;
            r == s ||
            (&& |r.tasks| == |s.tasks| && r.tasks[i].phase.Notifying?
             && var next := r.tasks[i].phase;
             && next.id < |s.out.allocations| && AssociateOk(c, s.out.senders[a], next)
             && r == SetPhase(s.(reg := Insert(s.reg, next.id, RouteOf(c, s.out, next.id))), i, next))
  {
    var a := s.tasks[i].job.association;
    var sender := s.out.senders[a];
    NextAnnouncement(c, s.out, a, position, ids);
    if |ids| < |sender.announced| {
      assert Allocated(s.out, sender.announced[|ids|].id, a, sender.announced[|ids|].destination);
    }
  }

  lemma ReadStep(c: Config, s: State, i: nat, position: nat, ids: seq<u16>)
    requires Lawful(c.ip) && Inv(c, s) && i < |s.tasks| && s.tasks[i].phase == Reading(position, ids)
    ensures Inv(c, DoRead(c, s, i, position, ids))
  {
    assert TaskOk(c, s.out, s.tasks[i], QueuedBy(s.events, i));
    assert SenderOk(c.ip, s.out, s.tasks[i].job.association);
    ReadOutcome(c, s, i, position, ids);
    var r := DoRead(c, s, i, position, ids);
    if r != s {
      var next := r.tasks[i].phase;
      TaskMoves(c, s, i, next, Insert(s.reg, next.id, RouteOf(c, s.out, next.id)));
    }
  }

  lemma DeliverPayloadStep(c: Config, s: State, i: nat)
    requires Inv(c, s) && i < |s.tasks| && s.tasks[i].phase.Routed? && s.tasks[i].job.Payload?
    ensures Inv(c, DoDeliver(s, i, s.tasks[i].phase.route, s.tasks[i].phase.position))
  {
    assert TaskOk(c, s.out, s.tasks[i], QueuedBy(s.events, i));
    var route, bytes := s.tasks[i].phase.route, s.tasks[i].job.datagram;
    TaskMoves(c, s, i, Done, s.reg);
    var e := Queued(route.association, Packet(bytes[2..], route.destination), i);
    var r := SetPhase(s, i, Done);
    forall j | 0 <= j < |r.tasks|
      ensures TaskOk(c, r.out, r.tasks[j],
                     if j == i then QueuedBy(r.events, j) + [e.packet.data] else QueuedBy(r.events, j))
    {
      assert TaskOk(c, r.out, r.tasks[j], QueuedBy(r.events, j));
    }
    EventMoves(c, r, e);
  }

  /** A reader behind the payloads `q` decodes the next one, or finds nothing more. */
  lemma NextRecord(o: Outbound, u: nat, position: nat, q: seq<seq<byte>>)
    requires u < |o.unis| && UniOk(o, u) && q <= o.unis[u].payloads && Short(q) && position == 2 + |Records(q)|
    ensures position <= |o.unis[u].bytes|
    ensures var x := o.unis[u];
            var decoded := DecodeRecord(x.bytes[position..]);
            if |q| < |x.payloads| then
              && decoded.Ok? && |decoded.value.1| <= |x.bytes|
              && decoded.value.0 == x.payloads[|q|]
              && Short(q + [decoded.value.0]) && q + [decoded.value.0] <= x.payloads
              && |x.bytes| - |decoded.value.1| == 2 + |Records(q + [decoded.value.0])|
            else decoded.Err?
  {
    var x, k := o.unis[u], |q|;
    assert x.payloads[..k] == q;
    if k < |x.payloads| {
      var data := x.payloads[k];
      var rest := RecordsAt(x.payloads, k);
      assert x.payloads[..k + 1] == q + [data];
      SkipFrames(Be16(x.id), Records(q), EncodeRecord(data) + rest);
      RecordRoundTrip(data, rest);
    } else {
      assert q == x.payloads;
    }
  }

  /** The next payload is one of this stream's, and the task then stands behind it. */
  lemma StreamDelivers(c: Config, o: Outbound, tasks: seq<Task>, i: nat, u: nat, route: Route, position: nat,
                       q: seq<seq<byte>>)
    requires u < |o.unis| && UniOk(o, u) && StreamOk(c, o, u, Routed(route, position), q)
    requires i < |tasks| && tasks[i].job == Stream(u) && |q| < |o.unis[u].payloads|
    ensures position <= |o.unis[u].bytes| && DecodeRecord(o.unis[u].bytes[position..]).Ok?
    ensures var (data, rest) := DecodeRecord(o.unis[u].bytes[position..]).value;
            && |rest| <= |o.unis[u].bytes|
            && StreamOk(c, o, u, Routed(route, |o.unis[u].bytes| - |rest|), q + [data])
            && EventOk(c, o, tasks, Queued(route.association, Packet(data, route.destination), i))
  {
    NextRecord(o, u, position, q);
  }

  lemma DeliverStreamStep(c: Config, s: State, i: nat)
    requires Inv(c, s) && i < |s.tasks| && s.tasks[i].phase.Routed? && s.tasks[i].job.Stream?
    ensures Inv(c, DoDeliver(s, i, s.tasks[i].phase.route, s.tasks[i].phase.position))
  {
    var q, task := QueuedBy(s.events, i), s.tasks[i];
    assert TaskOk(c, s.out, task, q) && UniOk(s.out, task.job.uni);
    var r := DoDeliver(s, i, task.phase.route, task.phase.position);
    StreamOutcome(c, s, i, q);
    if r != s {
      StreamQueues(c, s, i, r.tasks[i].phase, r.events[|s.events|]);
    }
  }

  /** Delivering from a stream does nothing, or queues the next payload and moves behind it. */
  lemma StreamOutcome(c: Config, s: State, i: nat, q: seq<seq<byte>>)
    requires i < |s.tasks| && s.tasks[i].phase.Routed? && s.tasks[i].job.Stream? && s.tasks[i].job.uni < |s.out.unis|
    requires UniOk(s.out, s.tasks[i].job.uni) && StreamOk(c, s.out, s.tasks[i].job.uni, s.tasks[i].phase, q)
    ensures var r := DoDeliver(s, i, s.tasks[i].phase.route, s.tasks[i].phase.position);
            r == s ||
            (&& |r.events| == |s.events| + 1 && |r.tasks| == |s.tasks|
             && var e, next := r.events[|s.events|], r.tasks[i].phase;
             && r == Emit(SetPhase(s, i, next), e)
             && e.Queued? && e.task == i && EventOk(c, s.out, s.tasks, e)
             && TaskOk(c, s.out, Task(s.tasks[i].job, next), q + [e.packet.data]))
  {
    var u, phase := s.tasks[i].job.uni, s.tasks[i].phase;
    if |q| < |s.out.unis[u].payloads| {
      StreamDelivers(c, s.out, s.tasks, i, u, phase.route, phase.position, q);
    } else {
      NextRecord(s.out, u, phase.position, q);
    }
  }

  lemma StreamQueues(c: Config, s: State, i: nat, next: Phase, e: Event)
    requires Inv(c, s) && i < |s.tasks| && e.Queued? && e.task == i
    requires TaskOk(c, s.out, Task(s.tasks[i].job, next), QueuedBy(s.events, i) + [e.packet.data])
    requires EventOk(c, s.out, s.tasks, e)
    ensures Inv(c, Emit(SetPhase(s, i, next), e))
  {
    var r := SetPhase(s, i, next);
    forall k | 0 <= k < |r.events| ensures EventOk(c, r.out, r.tasks, r.events[k]) {
      assert EventOk(c, s.out, s.tasks, s.events[k]);
    }
    forall j | 0 <= j < |r.tasks|
      ensures TaskOk(c, r.out, r.tasks[j],
                     if j == i then QueuedBy(r.events, j) + [e.packet.data] else QueuedBy(r.events, j))
    {
      assert TaskOk(c, s.out, s.tasks[j], QueuedBy(s.events, j));
    }
    EventMoves(c, r, e);
  }

  lemma AuthenticateStep(c: Config, s: State, i: nat, credential: Credential)
    requires Inv(c, s) && i < |s.tasks| && s.tasks[i].phase.Fresh?
    ensures Inv(c, DoAuthenticate(c, s, i, credential))
  {
    assert TaskOk(c, s.out, s.tasks[i], QueuedBy(s.events, i));
    TaskMoves(c, s, i, Done, s.reg);
    var r := SetPhase(s, i, Done);
    EventMoves(c, r, CredentialFound(credential));
  }

  lemma AdvanceStep(c: Config, s: State, i: nat)
    requires Lawful(c.ip) && Inv(c, s) && i < |s.tasks|
    ensures Inv(c, DoAdvance(c, s, i))
  {
    assert TaskOk(c, s.out, s.tasks[i], QueuedBy(s.events, i));
    match s.tasks[i].phase
    case Fresh =>
      if s.tasks[i].job.Authenticate? { AuthenticateStep(c, s, i, s.tasks[i].job.credential); }
    case Gated(gate) =>
      var r := DoGate(c, s, i, gate);
      TaskMoves(c, s, i, r.tasks[i].phase, s.reg);
      assert r == SetPhase(s, i, r.tasks[i].phase);
    case Admitted(user, _, _) => AdmittedStep(c, s, i, user);
    case Reading(position, ids) => ReadStep(c, s, i, position, ids);
    case Notifying(position, ids, id) => TaskMoves(c, s, i, Reading(position, ids + [id]), Notify(s.reg));
    case Removing(ids) => TaskMoves(c, s, i, Done, RemoveIds(s.reg, ids));
    case Routed(route, position) =>
      if s.tasks[i].job.Payload? {
        DeliverPayloadStep(c, s, i);
      } else {
        DeliverStreamStep(c, s, i);
      }
    case Done =>
    case _ =>
      WaitStep(c, s, i);
  }

  lemma WaitStep(c: Config, s: State, i: nat)
    requires Inv(c, s) && i < |s.tasks|
    requires var phase := s.tasks[i].phase; phase.Subscribe? || phase.LookingUp? || phase.Checking? || phase.Parked?
    ensures Inv(c, DoAdvance(c, s, i))
  {
    assert TaskOk(c, s.out, s.tasks[i], QueuedBy(s.events, i));
    var r := DoAdvance(c, s, i);
    assert RecordFrames([]) == [];
    TaskMoves(c, s, i, r.tasks[i].phase, s.reg);
    assert r == SetPhase(s, i, r.tasks[i].phase);
  }

  lemma FailStep(c: Config, s: State, i: nat)
    requires Inv(c, s) && i < |s.tasks|
    ensures Inv(c, DoFail(s, i))
  {
    assert TaskOk(c, s.out, s.tasks[i], QueuedBy(s.events, i));
    var r := DoFail(s, i);
    TaskMoves(c, s, i, r.tasks[i].phase, s.reg);
    assert r == SetPhase(s, i, r.tasks[i].phase);
  }

  lemma ApplyStep(c: Config, s: State, step: Step)
    requires Lawful(c.ip) && Inv(c, s) && |Apply(c, s, step).out.allocations| <= IDS
    ensures Inv(c, Apply(c, s, step))
  {
    match step
    case OpenAssociation(mode, destination) => OpenStep(c, s, mode, destination);
    case SendPacket(a, packet, fault) => if a < |s.out.senders| { SendStep(c, s, a, packet, fault); }
    case Accept(job) => if Arrives(c, s, job) { AcceptStep(c, s, job); }
    case Advance(i) => if i < |s.tasks| { AdvanceStep(c, s, i); }
    case Fail(i) => if i < |s.tasks| { FailStep(c, s, i); }
    case StoreClosed =>
    case NotifyClosed =>
  }
}
