/** What the receiving end of SQuic does when its tasks move (src/shadowquic/mod.rs): streams are read to their end,
    announcements become routes, requests are accepted as they were made, the gate answers as the credential does,
    and teardown and close take effect. */
module SquicProgress {
  import opened Bytes
  import opened Addresses
  import opened SquicWire
  import opened SquicOutbound
  import opened SquicOutboundProofs
  import opened SquicRegistry
  import opened SquicMachine
  import opened SquicIntegrity
  import opened SquicDelivery
  import opened SquicOwnership

  // ---- streams ----

  /** What was accepted for sending on the stream that task i reads. */
  function AcceptedFor(s: State, i: nat): seq<seq<byte>>
    requires i < |s.tasks| && s.tasks[i].job.Stream? && s.tasks[i].job.uni < |s.out.unis|
    requires s.out.unis[s.tasks[i].job.uni].association < |s.out.senders|
  {
    var x := s.out.unis[s.tasks[i].job.uni];
    SentTo(s.out.senders[x.association].sent, x.destination)
  }

  /** Task i reads a stream and knows its route. */
  predicate Drains(s: State, i: nat) {
    && i < |s.tasks| && s.tasks[i].job.Stream? && s.tasks[i].phase.Routed? && s.tasks[i].job.uni < |s.out.unis|
    && s.out.unis[s.tasks[i].job.uni].association < |s.out.senders|
  }

  lemma NextIsQueued(c: Config, s: State, i: nat)
    requires SquicIntegrity.Inv(c, s) && Drains(s, i) && |QueuedBy(s.events, i)| < |AcceptedFor(s, i)|
    ensures var r, x := Apply(c, s, Advance(i)), s.out.unis[s.tasks[i].job.uni];
            && r.out == s.out && Drains(r, i) && r.tasks[i].job == s.tasks[i].job
            && r.events == s.events + [Queued(x.association,
                 Packet(AcceptedFor(s, i)[|QueuedBy(s.events, i)|], Canonical(c.ip, x.destination)), i)]
  {
    var q, u, phase := QueuedBy(s.events, i), s.tasks[i].job.uni, s.tasks[i].phase;
    assert TaskOk(c, s.out, s.tasks[i], q) && UniOk(s.out, u);
    NextRecord(s.out, u, phase.position, q);
  }

  /** In every run within the id bound, a move of a stream's task queues exactly the next packet accepted for its
      association and destination, as long as there is one. */
  lemma StreamGoesOn(c: Config, steps: seq<Step>, i: nat)
    requires Lawful(c.ip) && |Exec(c, steps).out.allocations| <= IDS && Drains(Exec(c, steps), i)
    requires |QueuedBy(Exec(c, steps).events, i)| < |AcceptedFor(Exec(c, steps), i)|
    ensures var s := Exec(c, steps);
            var r, x := Exec(c, steps + [Advance(i)]), s.out.unis[s.tasks[i].job.uni];
            r.events == s.events + [Queued(x.association,
              Packet(AcceptedFor(s, i)[|QueuedBy(s.events, i)|], Canonical(c.ip, x.destination)), i)]
  {
    RunsAreSound(c, steps);
    NextIsQueued(c, Exec(c, steps), i);
    ExecSnoc(c, steps, Advance(i));
  }

  function Repeat(step: Step, n: nat): (steps: seq<Step>)
    ensures |steps| == n
  {
    if n == 0 then [] else Repeat(step, n - 1) + [step]
  }

  /** Task i has queued n payloads more, and nothing else about it has changed. */
  predicate Drained(s: State, r: State, i: nat, n: nat) {
    && Drains(s, i) && Drains(r, i) && r.out == s.out && r.tasks[i].job == s.tasks[i].job
    && |QueuedBy(r.events, i)| == |QueuedBy(s.events, i)| + n
  }

  predicate Left(s: State, i: nat, n: nat) {
    Drains(s, i) && |QueuedBy(s.events, i)| + n <= |AcceptedFor(s, i)|
  }

  lemma DrainsOne(c: Config, s: State, i: nat)
    requires Lawful(c.ip) && SquicIntegrity.Inv(c, s) && |s.out.allocations| <= IDS && Left(s, i, 1)
    ensures var r := Apply(c, s, Advance(i)); SquicIntegrity.Inv(c, r) && Drained(s, r, i, 1)
  {
    NextIsQueued(c, s, i);
    var r := Apply(c, s, Advance(i));
    QueuedSnoc(s.events, r.events[|s.events|], i);
    ApplyStep(c, s, Advance(i));
  }

  lemma DrainedTogether(s: State, r: State, q: State, i: nat, n: nat)
    requires Drained(s, r, i, n) && Drained(r, q, i, 1)
    ensures Drained(s, q, i, n + 1)
  {
  }

  lemma LeftLess(s: State, r: State, i: nat, n: nat, m: nat)
    requires Left(s, i, n + m) && Drained(s, r, i, n)
    ensures Left(r, i, m)
  {
  }

  /** After n moves of task i. */
  function Moved(c: Config, s: State, i: nat, n: nat): State {
    if n == 0 then s else Apply(c, Moved(c, s, i, n - 1), Advance(i))
  }

  lemma {:induction false} DrainsOn(c: Config, s: State, i: nat, n: nat)
    requires Lawful(c.ip) && SquicIntegrity.Inv(c, s) && |s.out.allocations| <= IDS && Left(s, i, n)
    ensures SquicIntegrity.Inv(c, Moved(c, s, i, n)) && Drained(s, Moved(c, s, i, n), i, n)
    decreases n
  {
    if n > 0 {
      DrainsOn(c, s, i, n - 1);
      var r := Moved(c, s, i, n - 1);
      LeftLess(s, r, i, n - 1, 1);
      DrainsOne(c, r, i);
      DrainedTogether(s, r, Apply(c, r, Advance(i)), i, n - 1);
    }
  }

  lemma {:induction false} MovedIsRun(c: Config, steps: seq<Step>, i: nat, n: nat)
    ensures Exec(c, steps + Repeat(Advance(i), n)) == Moved(c, Exec(c, steps), i, n)
    decreases n
  {
    if n == 0 {
      assert steps + Repeat(Advance(i), 0) == steps;
    } else {
      MovedIsRun(c, steps, i, n - 1);
      var longer := steps + Repeat(Advance(i), n - 1);
      assert longer + [Advance(i)] == steps + Repeat(Advance(i), n);
      ExecSnoc(c, longer, Advance(i));
    }
  }

  /** With nothing left to read, a move changes nothing. */
  lemma NothingLeft(c: Config, s: State, i: nat)
    requires SquicIntegrity.Inv(c, s) && Drains(s, i) && |QueuedBy(s.events, i)| == |AcceptedFor(s, i)|
    ensures Apply(c, s, Advance(i)) == s
  {
    var q, u := QueuedBy(s.events, i), s.tasks[i].job.uni;
    assert TaskOk(c, s.out, s.tasks[i], q) && UniOk(s.out, u);
    NextRecord(s.out, u, s.tasks[i].phase.position, q);
  }

  lemma {:induction false} StaysDrained(c: Config, s: State, i: nat, m: nat)
    requires Apply(c, s, Advance(i)) == s
    ensures Moved(c, s, i, m) == s
    decreases m
  {
    if m > 0 {
      StaysDrained(c, s, i, m - 1);
    }
  }

  lemma {:induction false} MovedOn(c: Config, s: State, i: nat, n: nat, m: nat)
    ensures Moved(c, s, i, n + m) == Moved(c, Moved(c, s, i, n), i, m)
    decreases m
  {
    if m > 0 {
      MovedOn(c, s, i, n, m - 1);
    }
  }

  lemma MovesEnd(c: Config, s: State, i: nat, k: nat, n: nat)
    requires k <= n && Apply(c, Moved(c, s, i, k), Advance(i)) == Moved(c, s, i, k)
    ensures Moved(c, s, i, n) == Moved(c, s, i, k)
  {
    StaysDrained(c, Moved(c, s, i, k), i, n - k);
    MovedOn(c, s, i, k, n - k);
  }

  lemma DrainedIsIdle(c: Config, s: State, r: State, i: nat, k: nat)
    requires SquicIntegrity.Inv(c, r) && Drained(s, r, i, k) && |QueuedBy(s.events, i)| + k == |AcceptedFor(s, i)|
    ensures Apply(c, r, Advance(i)) == r
  {
    NothingLeft(c, r, i);
  }

  /** All that is left, and any number of moves more. */
  lemma DrainsAll(c: Config, s: State, i: nat, k: nat, n: nat)
    requires Lawful(c.ip) && SquicIntegrity.Inv(c, s) && |s.out.allocations| <= IDS && Drains(s, i)
    requires |AcceptedFor(s, i)| == |QueuedBy(s.events, i)| + k && k <= n
    ensures Drained(s, Moved(c, s, i, n), i, k)
  {
    DrainsOn(c, s, i, k);
    DrainedIsIdle(c, s, Moved(c, s, i, k), i, k);
    MovesEnd(c, s, i, k, n);
  }

  /** After as many moves of a stream's task as there are packets left for it, or more, everything that was accepted
      for it is queued, in order. */
  lemma StreamIsDrained(c: Config, steps: seq<Step>, i: nat, n: nat)
    requires Lawful(c.ip) && |Exec(c, steps).out.allocations| <= IDS && Drains(Exec(c, steps), i)
    requires |AcceptedFor(Exec(c, steps), i)| <= |QueuedBy(Exec(c, steps).events, i)| + n
    ensures QueuedBy(Exec(c, steps + Repeat(Advance(i), n)).events, i) == AcceptedFor(Exec(c, steps), i)
  {
    RunsAreSound(c, steps);
    StreamPrefix(c, steps, i);
    DrainsAll(c, Exec(c, steps), i, |AcceptedFor(Exec(c, steps), i)| - |QueuedBy(Exec(c, steps).events, i)|, n);
    MovedIsRun(c, steps, i, n);
    StreamPrefix(c, steps + Repeat(Advance(i), n), i);
  }

  // ---- announcements ----

  /** In every run within the id bound, a control task that has announcements left registers the next one in two
      moves: its id leads to its association, under its canonical destination. */
  lemma AnnouncementBecomesRoute(c: Config, steps: seq<Step>, i: nat, a: nat)
    requires Lawful(c.ip) && |Exec(c, steps).out.allocations| <= IDS
    requires var s := Exec(c, steps);
             && i < |s.tasks| && s.tasks[i].job == Associate(a) && s.tasks[i].phase.Reading?
             && a < |s.out.senders| && |s.tasks[i].phase.ids| < |s.out.senders[a].announced|
    ensures var s := Exec(c, steps);
            var r, ids := Apply(c, Apply(c, s, Advance(i)), Advance(i)), s.tasks[i].phase.ids;
            var n := s.out.senders[a].announced[|ids|];
            && r.reg.routes == s.reg.routes[n.id := Route(a, Canonical(c.ip, n.destination))]
            && r.reg.generation == s.reg.generation + 1
            && i < |r.tasks| && r.tasks[i].phase.Reading? && r.tasks[i].phase.ids == ids + [n.id]
  {
    RunsAreSound(c, steps);
    NextIsRegistered(c, Exec(c, steps), i, a);
  }

  /** Before the announcement n, and about to read it. */
  lemma NextIsInserted(c: Config, s: State, i: nat, a: nat)
    requires Lawful(c.ip) && SquicIntegrity.Inv(c, s) && i < |s.tasks| && s.tasks[i].job == Associate(a)
    requires s.tasks[i].phase.Reading? && a < |s.out.senders|
    requires |s.tasks[i].phase.ids| < |s.out.senders[a].announced|
    ensures var r, ids := Apply(c, s, Advance(i)), s.tasks[i].phase.ids;
            var n := s.out.senders[a].announced[|ids|];
            && |r.tasks| == |s.tasks| && r.tasks[i].job == Associate(a)
            && r.tasks[i].phase.Notifying? && r.tasks[i].phase.ids == ids && r.tasks[i].phase.id == n.id
            && r.reg == Insert(s.reg, n.id, Route(a, Canonical(c.ip, n.destination)))
  {
    assert TaskOk(c, s.out, s.tasks[i], QueuedBy(s.events, i)) && SenderOk(c.ip, s.out, a);
    NextAnnouncement(c, s.out, a, s.tasks[i].phase.position, s.tasks[i].phase.ids);
  }

  lemma NextIsRegistered(c: Config, s: State, i: nat, a: nat)
    requires Lawful(c.ip) && SquicIntegrity.Inv(c, s) && i < |s.tasks| && s.tasks[i].job == Associate(a)
    requires s.tasks[i].phase.Reading? && a < |s.out.senders|
    requires |s.tasks[i].phase.ids| < |s.out.senders[a].announced|
    ensures var r, ids := Apply(c, Apply(c, s, Advance(i)), Advance(i)), s.tasks[i].phase.ids;
            var n := s.out.senders[a].announced[|ids|];
            && r.reg.routes == s.reg.routes[n.id := Route(a, Canonical(c.ip, n.destination))]
            && r.reg.generation == s.reg.generation + 1
            && i < |r.tasks| && r.tasks[i].phase.Reading? && r.tasks[i].phase.ids == ids + [n.id]
  {
    NextIsInserted(c, s, i, a);
    NotifyEnds(c, Apply(c, s, Advance(i)), i);
  }

  lemma NotifyEnds(c: Config, s: State, i: nat)
    requires i < |s.tasks| && s.tasks[i].phase.Notifying?
    ensures var r, phase := Apply(c, s, Advance(i)), s.tasks[i].phase;
            r == SetPhase(s.(reg := Notify(s.reg)), i, Reading(phase.position, phase.ids + [phase.id]))
  {
  }

  /** A control task that fails takes its routes with it: one move later exactly its ids are gone. */
  lemma TeardownRemoves(c: Config, s: State, i: nat)
    requires i < |s.tasks| && s.tasks[i].phase.Reading?
    ensures var r := Apply(c, Apply(c, s, Fail(i)), Advance(i));
            && i < |r.tasks| && r.tasks[i].phase.Done?
            && r.reg.routes == s.reg.routes - Registered(s.tasks[i])
  {
  }

  // ---- requests ----

  /** An association accepted as it was requested: in its mode, under the canonical form of its destination. */
  ghost predicate AsRequested(c: Config, o: Outbound, e: Event) {
    e.AssociationAccepted? ==>
      && e.association < |o.senders| && e.mode == o.senders[e.association].mode
      && exists d :: Requested(c, o.senders[e.association], d) && e.destination == Canonical(c.ip, d)
  }

  predicate Requested(c: Config, sender: Sender, d: Address) {
    EncodeAddress(c.ip, d).Ok? && sender.header == [Opcode(sender.mode)] + EncodeAddress(c.ip, d).value
  }

  lemma HeadersStay(c: Config, s: State, step: Step)
    ensures var r := Apply(c, s, step);
            && |s.out.senders| <= |r.out.senders|
            && forall a :: 0 <= a < |s.out.senders| ==>
                 r.out.senders[a].mode == s.out.senders[a].mode && r.out.senders[a].header == s.out.senders[a].header
  {
    if step.SendPacket? && step.association < |s.out.senders| {
      SendKeepsHeaders(c.ip, s.out, step.association, step.packet, step.fault);
    } else if step.Advance? && step.task < |s.tasks| {
      AdvanceTouchesOne(c, s, step.task);
    }
  }

  predicate SameHeaders(o: Outbound, r: Outbound) {
    && |r.senders| == |o.senders|
    && forall b :: 0 <= b < |o.senders| ==>
         r.senders[b].mode == o.senders[b].mode && r.senders[b].header == o.senders[b].header
  }

  lemma SendKeepsHeaders(t: IpText, o: Outbound, a: nat, packet: Packet, fault: Fault)
    requires a < |o.senders|
    ensures SameHeaders(o, Send(t, o, a, packet, fault).0)
  {
    if packet.destination in o.senders[a].contexts {
      PayloadKeepsHeaders(o, a, packet, fault);
    } else {
      ContextKeepsHeaders(t, o, a, packet.destination, fault);
      var (o1, outcome) := NewContext(t, o, a, packet.destination, fault);
      if outcome.Ok? {
        PayloadKeepsHeaders(o1, a, packet, fault);
      }
    }
  }

  lemma PayloadKeepsHeaders(o: Outbound, a: nat, packet: Packet, fault: Fault)
    requires a < |o.senders| && packet.destination in o.senders[a].contexts
    ensures SameHeaders(o, SendPayload(o, a, packet, fault).0)
  {
  }

  lemma ContextKeepsHeaders(t: IpText, o: Outbound, a: nat, d: Address, fault: Fault)
    requires a < |o.senders| && d !in o.senders[a].contexts
    ensures SameHeaders(o, NewContext(t, o, a, d, fault).0)
  {
  }

  /** The request at the head of a control stream is the one that was made. */
  lemma RequestIsRead(c: Config, s: State, a: nat) returns (d: Address)
    requires Lawful(c.ip) && SquicIntegrity.Inv(c, s) && c.role.Server? && a < |s.out.senders|
    ensures var sender := s.out.senders[a];
            && Requested(c, sender, d) && sender.control != [] && ModeOf(sender.control[0]) == Some(sender.mode)
            && DecodeAddress(c.ip, sender.control[1..]).Ok?
            && DecodeAddress(c.ip, sender.control[1..]).value.0 == Canonical(c.ip, d)
  {
    var sender := s.out.senders[a];
    assert HeaderOk(c, sender) && SenderOk(c.ip, s.out, a);
    d :| EncodeAddress(c.ip, d).Ok? && sender.header[1..] == EncodeAddress(c.ip, d).value;
    assert sender.header == [Opcode(sender.mode)] + EncodeAddress(c.ip, d).value;
    var rest := AnnouncedBytes(c.ip, sender.announced);
    assert sender.control[1..] == EncodeAddress(c.ip, d).value + rest;
    AddressRoundTrip(c.ip, d, rest);
  }

  /** An event of a step: one of before, or one that the moving task emits. */
  lemma AcceptanceStep(c: Config, s: State, step: Step, k: nat)
    requires Lawful(c.ip) && SquicIntegrity.Inv(c, s) && k < |Apply(c, s, step).events|
    requires forall j :: 0 <= j < |s.events| ==> AsRequested(c, s.out, s.events[j])
    ensures AsRequested(c, s.out, Apply(c, s, step).events[k])
  {
    if step.Advance? && step.task < |s.tasks| {
      MoveAccepts(c, s, step.task, k);
    } else {
      OnlyMovesEmit(c, s, step);
    }
  }

  lemma MoveAccepts(c: Config, s: State, i: nat, k: nat)
    requires Lawful(c.ip) && SquicIntegrity.Inv(c, s) && i < |s.tasks| && k < |DoAdvance(c, s, i).events|
    requires forall j :: 0 <= j < |s.events| ==> AsRequested(c, s.out, s.events[j])
    ensures AsRequested(c, s.out, DoAdvance(c, s, i).events[k])
  {
    AdvanceKeepsEvents(c, s, i);
    if k < |s.events| {
      assert DoAdvance(c, s, i).events[k] == s.events[k];
    } else if DoAdvance(c, s, i).events[k].AssociationAccepted? {
      AcceptedByTask(c, s, i);
    }
  }

  lemma OnlyMovesEmit(c: Config, s: State, step: Step)
    requires step.Advance? ==> step.task >= |s.tasks|
    ensures Apply(c, s, step).events == s.events
  {
  }

  lemma AdvanceKeepsEvents(c: Config, s: State, i: nat)
    requires i < |s.tasks|
    ensures s.events <= DoAdvance(c, s, i).events && |DoAdvance(c, s, i).events| <= |s.events| + 1
    ensures |DoAdvance(c, s, i).events| > |s.events| && DoAdvance(c, s, i).events[|s.events|].AssociationAccepted? ==>
              s.tasks[i].phase.Admitted? && s.tasks[i].job.Associate?
  {
  }

  lemma AcceptedByTask(c: Config, s: State, i: nat)
    requires Lawful(c.ip) && SquicIntegrity.Inv(c, s) && i < |s.tasks|
    requires |DoAdvance(c, s, i).events| == |s.events| + 1 && DoAdvance(c, s, i).events[|s.events|].AssociationAccepted?
    ensures AsRequested(c, s.out, DoAdvance(c, s, i).events[|s.events|])
  {
    AdvanceKeepsEvents(c, s, i);
    assert TaskOk(c, s.out, s.tasks[i], QueuedBy(s.events, i));
    var d := RequestIsRead(c, s, s.tasks[i].job.association);
  }

  lemma {:induction false} RequestsHold(c: Config, steps: seq<Step>)
    requires Lawful(c.ip) && |Exec(c, steps).out.allocations| <= IDS
    ensures forall k :: 0 <= k < |Exec(c, steps).events| ==>
              AsRequested(c, Exec(c, steps).out, Exec(c, steps).events[k])
    decreases |steps|
  {
    if steps != [] {
      var init, last := steps[..|steps| - 1], steps[|steps| - 1];
      var s := Exec(c, init);
      AllocationsOnlyGrow(c, s, last);
      RequestsHold(c, init);
      RunsAreSound(c, init);
      HeadersStay(c, s, last);
      forall k | 0 <= k < |Exec(c, steps).events| ensures AsRequested(c, Exec(c, steps).out, Exec(c, steps).events[k]) {
        AcceptanceStep(c, s, last, k);
      }
    }
  }

  /** In every run within the id bound, an association is accepted in the mode and to the canonical destination that
      its sender asked for. */
  lemma AcceptedAsRequested(c: Config, steps: seq<Step>, k: nat)
    requires Lawful(c.ip) && |Exec(c, steps).out.allocations| <= IDS
    requires k < |Exec(c, steps).events| && Exec(c, steps).events[k].AssociationAccepted?
    ensures AsRequested(c, Exec(c, steps).out, Exec(c, steps).events[k])
  {
    RequestsHold(c, steps);
  }

  // ---- the gate ----

  /** How the gate answers a server's task that looks: a JLS connection lets it pass; otherwise it waits for a result
      and passes under the name of a known credential, or ends. */
  lemma GateAnswers(c: Config, s: State, i: nat)
    requires c.role.Server? && i < |s.tasks| && s.tasks[i].phase.Gated? && s.tasks[i].phase.gate.Borrow?
    ensures var next := Apply(c, s, Advance(i)).tasks[i].phase;
            && (c.role.auth.Jls? ==> next.Admitted? && next.user == [])
            && (c.role.auth.Sunny? && s.cell.None? ==> next.Gated? && next.gate.Await?)
            && (c.role.auth.Sunny? && s.cell.Some? && s.cell.value.Granted? ==>
                  next.Admitted? && next.user == s.cell.value.user)
            && (c.role.auth.Sunny? && s.cell.Some? && s.cell.value.Denied? ==> next.Done?)
  {
  }

  /** What a credential does to the cell of a Sunny connection: the name stored for it, or a refusal. */
  lemma CredentialDecides(c: Config, s: State, i: nat)
    requires c.role.Server? && c.role.auth.Sunny? && i < |s.tasks|
    requires s.tasks[i].job.Authenticate? && s.tasks[i].phase.Fresh?
    ensures var r, credential := Apply(c, s, Advance(i)), s.tasks[i].job.credential;
            && r.cell == (if credential in c.role.auth.users then Some(Granted(c.role.auth.users[credential]))
                          else Some(Denied))
            && r.version == s.version + 1 && r.tasks[i].phase.Done?
  {
  }

  /** A stream request that is let through is reported: under the JLS user of the connection, or under the name of
      the credential. */
  lemma StreamIsReported(c: Config, s: State, i: nat)
    requires c.role.Server? && i < |s.tasks| && s.tasks[i].job.Connect? && s.tasks[i].phase == Gated(Borrow(0, 0, 0))
    requires c.role.auth.Sunny? ==> s.cell.Some? && s.cell.value.Granted?
    ensures var r := Apply(c, Apply(c, s, Advance(i)), Advance(i));
            && r.events == s.events + [StreamAccepted(if c.role.auth.Jls? then c.role.auth.user else s.cell.value.user)]
            && r.tasks[i].phase.Done?
  {
  }

  /** An extension request that is let through gets its reply. */
  lemma ExtensionIsAnswered(c: Config, s: State, i: nat)
    requires i < |s.tasks| && s.tasks[i].job.Extension? && s.tasks[i].phase.Admitted?
    ensures Apply(c, s, Advance(i)).events == s.events + [ExtensionReplied]
  {
  }

  /** Every request of a peer gets a task of its own while the connection is open, and none afterwards. */
  lemma RequestsGetTasks(c: Config, s: State, job: Job)
    requires c.role.Server? && (job.Connect? || job.Extension? || job.Authenticate?)
    ensures var r := Apply(c, s, Accept(job));
            if s.closing.NotClosing?
            then r == s.(tasks := s.tasks + [r.tasks[|s.tasks|]]) && |r.tasks| == |s.tasks| + 1
              && r.tasks[|s.tasks|].job == job
              && (job.Authenticate? || r.tasks[|s.tasks|].phase == Gated(Borrow(0, 0, 0)))
            else r == s
  {
  }

  /** So does everything a sender puts on the wire: each datagram, as often as it comes, and each control or
      payload stream once. */
  lemma TrafficGetsTasks(c: Config, s: State, job: Job)
    requires s.closing.NotClosing?
    requires match job
             case Payload(bytes) => bytes in s.out.datagrams
             case Stream(u) => u < |s.out.unis| && forall i :: 0 <= i < |s.tasks| ==> s.tasks[i].job != job
             case Associate(a) => a < |s.out.senders| && forall i :: 0 <= i < |s.tasks| ==> s.tasks[i].job != job
             case _ => false
    ensures var r := Apply(c, s, Accept(job));
            && |r.tasks| == |s.tasks| + 1 && r == s.(tasks := s.tasks + [r.tasks[|s.tasks|]])
            && r.tasks[|s.tasks|].job == job
            && (c.role.Server? ==> r.tasks[|s.tasks|].phase == Gated(Borrow(0, 0, 0)))
            && (c.role.Client? && job.Associate? ==> r.tasks[|s.tasks|].phase == Reading(0, []))
            && (c.role.Client? && !job.Associate? ==> r.tasks[|s.tasks|].phase.Admitted?)
  {
  }

  /** `close` on a server takes effect in its two steps. */
  lemma CloseTakesEffect(c: Config, s: State)
    requires c.role.Server? && s.closing.NotClosing?
    ensures var r := Apply(c, Apply(c, s, StoreClosed), NotifyClosed);
            && r.closing.Notified? && r.reg.closed && r.reg.generation == s.reg.generation + 1
            && r.reg.routes == s.reg.routes && r.tasks == s.tasks && r.events == s.events
  {
  }
}
