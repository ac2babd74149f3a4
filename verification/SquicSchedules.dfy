/** Runs that callers and QUIC can bring about, and the pieces from which such runs are put together: opening
    the authentication gate, accepting a stream or datagram, registering a route, looking it up. */
module SquicSchedules {
  import opened Bytes
  import opened Text
  import opened Addresses
  import opened SquicWire
  import opened SquicOutbound
  import opened SquicRegistry
  import opened SquicMachine
  import SquicGate

  /** Whether any task can ever get past the gate. */
  predicate CanOpen(role: Role) {
    role.Client? || role.auth.Jls? || role.auth.users != map[]
  }

  /** Hosts are strings, and not empty. */
  predicate IsText(a: Address) { a.host != [] && Utf8(a.host) }

  predicate Accepted(s: State, job: Job) {
    exists i :: 0 <= i < |s.tasks| && s.tasks[i].job == job
  }

  /** Callers name text addresses; QUIC hands streams over in the order in which they were opened. */
  predicate Feasible(s: State, step: Step) {
    match step
    case OpenAssociation(_, destination) => IsText(destination)
    case SendPacket(_, packet, _) => IsText(packet.destination)
    case Accept(Associate(a)) => forall b :: 0 <= b < a ==> Accepted(s, Associate(b))
    case Accept(Stream(u)) => forall v :: 0 <= v < u ==> Accepted(s, Stream(v))
    case _ => true
  }

  predicate FeasibleRun(c: Config, steps: seq<Step>) {
    steps == [] ||
    (FeasibleRun(c, steps[..|steps| - 1]) && Feasible(Exec(c, steps[..|steps| - 1]), steps[|steps| - 1]))
  }

  ghost predicate Reachable(c: Config, s: State) {
    exists steps :: FeasibleRun(c, steps) && Exec(c, steps) == s
  }

  lemma InitialIsReachable(c: Config)
    ensures Reachable(c, INITIAL)
  {
    assert FeasibleRun(c, []) && Exec(c, []) == INITIAL;
  }

  lemma Next(c: Config, s: State, step: Step) returns (r: State)
    requires Reachable(c, s) && Feasible(s, step)
    ensures r == Apply(c, s, step) && Reachable(c, r)
  {
    r := Apply(c, s, step);
    var steps :| FeasibleRun(c, steps) && Exec(c, steps) == s;
    var more := steps + [step];
    assert more[..|more| - 1] == steps;
    assert FeasibleRun(c, more) && Exec(c, more) == r;
  }

  /** Nothing has been queued yet. */
  predicate Quiet(events: seq<Event>) {
    forall k :: 0 <= k < |events| ==> !events[k].Queued?
  }

  /** A server behind whose gate no user is known never queues anything. */
  lemma ClosedGateIsQuiet(c: Config, s: State)
    requires Reachable(c, s) && !CanOpen(c.role)
    ensures Quiet(s.events)
  {
    var steps :| FeasibleRun(c, steps) && Exec(c, steps) == s;
    ExecAppend(c, [], steps);
    assert [] + steps == steps;
    forall k | 0 <= k < |s.events| ensures !s.events[k].Queued? {
      SquicGate.GateHolds(c, Outbound([], [], [], []), steps, k);
      NobodyOpens(c, s.events, k);
    }
  }

  lemma NobodyOpens(c: Config, events: seq<Event>, k: nat)
    requires !CanOpen(c.role) && k < |events| && SquicGate.EventGated(c, events, k)
    ensures !events[k].Queued?
  {
  }

  // ---- the receiving end ----

  /** Open for business: accepting, with a gate that lets tasks through, and nothing queued so far. */
  predicate Calm(c: Config, s: State) {
    && s.closing.NotClosing? && Quiet(s.events)
    && (c.role.Client? || c.role.auth.Jls? || (s.cell.Some? && s.cell.value.Granted?))
  }

  lemma OpenGate(c: Config, s: State) returns (r: State)
    requires Reachable(c, s) && CanOpen(c.role) && s == Start(s.out)
    ensures Reachable(c, r) && Calm(c, r) && r.out == s.out && r.reg == s.reg
    ensures forall i :: 0 <= i < |r.tasks| ==> r.tasks[i].job.Authenticate?
  {
    r := s;
    if c.role.Server? && c.role.auth.Sunny? {
      var credential :| credential in c.role.auth.users;
      r := Next(c, r, Accept(Authenticate(credential)));
      r := Next(c, r, Advance(0));
    }
  }

  /** A stream or datagram is accepted and its task passes the gate. */
  lemma Enter(c: Config, s: State, job: Job) returns (r: State)
    requires Reachable(c, s) && Calm(c, s) && Arrives(c, s, job) && Feasible(s, Accept(job))
    requires job.Payload? || job.Stream? || (job.Associate? && c.role.Server?)
    ensures Reachable(c, r) && Calm(c, r) && |r.tasks| == |s.tasks| + 1
    ensures r == s.(tasks := s.tasks + [r.tasks[|s.tasks|]])
    ensures r.tasks[|s.tasks|].job == job && r.tasks[|s.tasks|].phase.Admitted?
  {
    r := Next(c, s, Accept(job));
    if c.role.Server? {
      r := Next(c, r, Advance(|s.tasks|));
    }
  }

  /** A control stream is accepted and its request read, so that announcements come next. */
  lemma OpenControl(c: Config, s: State, a: nat, mode: UdpMode, destination: Address, rest: seq<byte>)
    returns (r: State)
    requires Lawful(c.ip) && Reachable(c, s) && Calm(c, s)
    requires Arrives(c, s, Associate(a)) && Feasible(s, Accept(Associate(a)))
    requires Header(c, mode, destination).Ok?
    requires s.out.senders[a].control == Header(c, mode, destination).value + rest
    ensures Reachable(c, r) && Calm(c, r) && r.out == s.out && r.reg == s.reg
    ensures r.tasks == s.tasks + [Task(Associate(a), Reading(|Header(c, mode, destination).value|, []))]
  {
    if c.role.Client? {
      r := Next(c, s, Accept(Associate(a)));
    } else {
      r := Enter(c, s, Associate(a));
      ReadsHeader(c, r, |s.tasks|, a, mode, destination, rest);
      r := Next(c, r, Advance(|s.tasks|));
    }
  }

  lemma ReadsHeader(c: Config, s: State, i: nat, a: nat, mode: UdpMode, destination: Address, rest: seq<byte>)
    requires Lawful(c.ip) && c.role.Server? && Header(c, mode, destination).Ok?
    requires i < |s.tasks| && s.tasks[i].job == Associate(a) && s.tasks[i].phase.Admitted? && a < |s.out.senders|
    requires s.out.senders[a].control == Header(c, mode, destination).value + rest
    ensures Apply(c, s, Advance(i)) ==
            Emit(SetPhase(s, i, Reading(|Header(c, mode, destination).value|, [])),
                 AssociationAccepted(a, mode, Canonical(c.ip, destination), ReportedUser(c, s.tasks[i].phase.user)))
  {
    assert s.out.senders[a].control[1..] == EncodeAddress(c.ip, destination).value + rest;
    AddressRoundTrip(c.ip, destination, rest);
  }

  /** The task of association a stands before the announcement n. */
  predicate Before(c: Config, s: State, i: nat, a: nat, ids: seq<u16>, n: Announcement, rest: seq<byte>) {
    && i < |s.tasks| && a < |s.out.senders| && s.tasks[i].job == Associate(a) && EncodeAddress(c.ip, n.destination).Ok?
    && s.tasks[i].phase.Reading? && s.tasks[i].phase.ids == ids
    && s.tasks[i].phase.position <= |s.out.senders[a].control|
    && s.out.senders[a].control[s.tasks[i].phase.position..] == EncodeAnnouncement(c.ip, n) + rest
    && |rest| <= |s.out.senders[a].control|
  }

  lemma DecodesRoute(c: Config, s: State, i: nat, a: nat, ids: seq<u16>, n: Announcement, rest: seq<byte>)
    requires Lawful(c.ip) && Before(c, s, i, a, ids, n, rest)
    ensures DoRead(c, s, i, s.tasks[i].phase.position, ids) ==
            SetPhase(s.(reg := Insert(s.reg, n.id, Route(a, Canonical(c.ip, n.destination)))), i,
                     Notifying(|s.out.senders[a].control| - |rest|, ids, n.id))
  {
    AnnouncementRoundTrip(c.ip, n, rest);
  }

  lemma InsertsRoute(c: Config, s: State, i: nat, a: nat, ids: seq<u16>, n: Announcement, rest: seq<byte>)
    requires Lawful(c.ip) && Before(c, s, i, a, ids, n, rest)
    ensures Apply(c, s, Advance(i)) ==
            SetPhase(s.(reg := Insert(s.reg, n.id, Route(a, Canonical(c.ip, n.destination)))), i,
                     Notifying(|s.out.senders[a].control| - |rest|, ids, n.id))
  {
    DecodesRoute(c, s, i, a, ids, n, rest);
    assert Apply(c, s, Advance(i)) == DoRead(c, s, i, s.tasks[i].phase.position, ids);
  }

  /** It reads the announcement and registers its route. */
  lemma ReadsRoute(c: Config, s: State, i: nat, a: nat, ids: seq<u16>, n: Announcement, rest: seq<byte>)
    returns (r: State)
    requires Lawful(c.ip) && Reachable(c, s) && Calm(c, s) && Before(c, s, i, a, ids, n, rest)
    ensures Reachable(c, r) && Calm(c, r) && r.out == s.out
    ensures r.tasks == s.tasks[i := Task(Associate(a), Reading(|s.out.senders[a].control| - |rest|, ids + [n.id]))]
    ensures r.reg.routes == s.reg.routes[n.id := Route(a, Canonical(c.ip, n.destination))]
  {
    RegistersRoute(c, s, i, a, ids, n, rest);
    r := NextTwo(c, s, Advance(i));
  }

  lemma NextTwo(c: Config, s: State, step: Step) returns (r: State)
    requires Reachable(c, s) && step.Advance?
    ensures r == Apply(c, Apply(c, s, step), step) && Reachable(c, r)
  {
    r := Next(c, s, step);
    r := Next(c, r, step);
  }

  lemma RegistersRoute(c: Config, s: State, i: nat, a: nat, ids: seq<u16>, n: Announcement, rest: seq<byte>)
    requires Lawful(c.ip) && Before(c, s, i, a, ids, n, rest)
    ensures Apply(c, Apply(c, s, Advance(i)), Advance(i)) ==
            SetPhase(s.(reg := Notify(Insert(s.reg, n.id, Route(a, Canonical(c.ip, n.destination))))), i,
                     Reading(|s.out.senders[a].control| - |rest|, ids + [n.id]))
  {
    InsertsRoute(c, s, i, a, ids, n, rest);
    NotifiesRoute(c, Apply(c, s, Advance(i)), i, |s.out.senders[a].control| - |rest|, ids, n.id);
  }

  lemma NotifiesRoute(c: Config, s: State, i: nat, position: nat, ids: seq<u16>, id: u16)
    requires i < |s.tasks| && s.tasks[i].phase == Notifying(position, ids, id)
    ensures Apply(c, s, Advance(i)) == SetPhase(s.(reg := Notify(s.reg)), i, Reading(position, ids + [id]))
  {
  }

  /** The id at the head of a datagram or stream. */
  predicate Bears(s: State, job: Job, id: u16) {
    match job
    case Payload(bytes) => |bytes| >= 2 && bytes[..2] == Be16(id)
    case Stream(u) => u < |s.out.unis| && |s.out.unis[u].bytes| >= 2 && s.out.unis[u].bytes[..2] == Be16(id)
    case _ => false
  }

  lemma Subscribes(c: Config, s: State, i: nat, id: u16)
    requires i < |s.tasks| && s.tasks[i].phase.Admitted? && Bears(s, s.tasks[i].job, id)
    ensures Apply(c, s, Advance(i)) == SetPhase(s, i, Subscribe(id))
  {
    Be16Inverse(id);
  }

  lemma LooksUp(c: Config, s: State, i: nat, id: u16)
    requires i < |s.tasks| && s.tasks[i].phase == Subscribe(id) && id in s.reg.routes
    ensures Apply(c, Apply(c, s, Advance(i)), Advance(i)) == SetPhase(s, i, Routed(s.reg.routes[id], 2))
  {
  }

  /** An admitted task whose id is routed finds its route. */
  lemma FindsRoute(c: Config, s: State, i: nat, id: u16) returns (r: State)
    requires Reachable(c, s) && Calm(c, s) && i < |s.tasks| && s.tasks[i].phase.Admitted?
    requires Bears(s, s.tasks[i].job, id) && id in s.reg.routes
    ensures Reachable(c, r) && Calm(c, r) && r == SetPhase(s, i, Routed(s.reg.routes[id], 2))
  {
    Subscribes(c, s, i, id);
    LooksUp(c, SetPhase(s, i, Subscribe(id)), i, id);
    r := Next(c, s, Advance(i));
    r := NextTwo(c, r, Advance(i));
  }

  /** A routed datagram is queued. */
  lemma QueuesPayload(c: Config, s: State, i: nat, route: Route, data: seq<byte>) returns (r: State)
    requires Reachable(c, s) && i < |s.tasks| && s.tasks[i].phase == Routed(route, 2)
    requires s.tasks[i].job.Payload? && |s.tasks[i].job.datagram| >= 2 && s.tasks[i].job.datagram[2..] == data
    ensures Reachable(c, r) && r.out == s.out
    ensures r.events == s.events + [Queued(route.association, Packet(data, route.destination), i)]
  {
    r := Next(c, s, Advance(i));
  }

  lemma DeliversRecord(s: State, i: nat, u: nat, route: Route, data: seq<byte>)
    requires i < |s.tasks| && s.tasks[i].job == Stream(u) && u < |s.out.unis|
    requires |s.out.unis[u].bytes| >= 2 && |data| < 0x1_0000 && s.out.unis[u].bytes[2..] == EncodeRecord(data)
    ensures DoDeliver(s, i, route, 2) ==
            Emit(SetPhase(s, i, Routed(route, |s.out.unis[u].bytes|)),
                 Queued(route.association, Packet(data, route.destination), i))
  {
    assert EncodeRecord(data) == EncodeRecord(data) + [];
    RecordRoundTrip(data, []);
  }

  /** The first payload of a routed stream is queued. */
  lemma QueuesRecord(c: Config, s: State, i: nat, u: nat, route: Route, data: seq<byte>) returns (r: State)
    requires Reachable(c, s) && i < |s.tasks| && s.tasks[i] == Task(Stream(u), Routed(route, 2)) && u < |s.out.unis|
    requires |s.out.unis[u].bytes| >= 2 && |data| < 0x1_0000 && s.out.unis[u].bytes[2..] == EncodeRecord(data)
    ensures Reachable(c, r) && r.out == s.out
    ensures r.events == s.events + [Queued(route.association, Packet(data, route.destination), i)]
  {
    DeliversRecord(s, i, u, route, data);
    r := Next(c, s, Advance(i));
    assert r == DoDeliver(s, i, route, 2);
  }
}
