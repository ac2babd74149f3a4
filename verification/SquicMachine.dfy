/** One direction of a SQuic connection as a transition system (src/shadowquic/mod.rs): sends at one end,
    and at the other the spawned tasks, their shared route registry and the SunnyQUIC authentication cell.
    A run is any list of steps; a step that is not enabled changes nothing. */
module SquicMachine {
  import opened Bytes
  import opened Text
  import opened Addresses
  import opened SquicWire
  import opened SquicOutbound
  import opened SquicRegistry

  type Credential = seq<byte>

  datatype Auth = Jls(user: text) | Sunny(users: map<Credential, text>)

  /** The receiving end: a server, with the authentication captured when it accepted the connection, or a
      client. */
  datatype Role = Server(auth: Auth) | Client

  datatype Config = Config(ip: IpText, role: Role)

  /** `wait_for_sunny_auth`: about to look at the cell, or waiting for it to change from the version the
      receiver has seen. Passes of the loop and timed waits are counted. */
  datatype Gate =
    | Borrow(passes: nat, waits: nat, seen: nat)
    | Await(passes: nat, waits: nat, seen: nat)

  datatype Verdict = Granted(user: text) | Denied

  datatype Job =
    | Authenticate(credential: Credential)
    | Connect
    | Extension
    | Associate(association: nat)
    | Payload(datagram: seq<byte>)
    | Stream(uni: nat)

  /** Where a task stands. `Notifying` sits between the insert and the notify of `register`; `Subscribe`,
      `LookingUp`, `Checking` and `Parked` are the points of the loop in `wait`. */
  datatype Phase =
    | Fresh
    | Gated(gate: Gate)
    | Admitted(user: text, passes: nat, waits: nat)
    | Reading(position: nat, ids: seq<u16>)
    | Notifying(position: nat, ids: seq<u16>, id: u16)
    | Removing(ids: seq<u16>)
    | Subscribe(id: u16)
    | LookingUp(id: u16, generation: nat)
    | Checking(id: u16, generation: nat)
    | Parked(id: u16, generation: nat)
    | Routed(route: Route, position: nat)
    | Done

  datatype Task = Task(job: Job, phase: Phase)

  /** What the receiving end does that can be seen, in order. */
  datatype Event =
    | CredentialFound(credential: Credential)
    | StreamAccepted(user: text)
    | AssociationAccepted(association: nat, mode: UdpMode, destination: Address, user: text)
    | ExtensionReplied
    | Queued(association: nat, packet: Packet, task: nat)

  /** `close` stores the flag and then notifies. */
  datatype Closing = NotClosing | Stored | Notified

  datatype State = State(
    out: Outbound,
    reg: Registry,
    closing: Closing,
    tasks: seq<Task>,
    cell: Option<Verdict>,
    version: nat,
    events: seq<Event>)

  /** A connection at its start, towards a peer that has already written `o`, or will. */
  function Start(o: Outbound): State {
    State(o, EMPTY, NotClosing, [], None, 0, [])
  }

  const INITIAL := Start(Outbound([], [], [], []))

  datatype Step =
    | OpenAssociation(mode: UdpMode, destination: Address)
    | SendPacket(association: nat, packet: Packet, fault: Fault)
    | Accept(job: Job)
    | Advance(task: nat)
    | Fail(task: nat)
    | StoreClosed
    | NotifyClosed

  function Opcode(mode: UdpMode): byte { if mode.DatagramMode? then 0x03 else 0x04 }

  /** The mode that a request asks for; any other first byte is not a request for an association. */
  function ModeOf(opcode: byte): Option<UdpMode> {
    if opcode == 0x03 then Some(DatagramMode) else if opcode == 0x04 then Some(StreamMode) else None
  }

  /** The control stream towards a server starts with the request; towards a client it does not. */
  function Header(c: Config, mode: UdpMode, destination: Address): Result<seq<byte>> {
    if c.role.Client? then Ok([])
    else
      var wire :- EncodeAddress(c.ip, destination);
      Ok([Opcode(mode)] + wire)
  }

  function DoOpen(c: Config, s: State, mode: UdpMode, destination: Address): State {
    var header := Header(c, mode, destination);
    if header.Err? then s
    else s.(out := s.out.(senders := s.out.senders + [Sender(mode, header.value, header.value, map[], [], [])]))
  }

  /** Streams are accepted once; a datagram must have been sent. */
  predicate Arrives(c: Config, s: State, job: Job) {
    && s.closing.NotClosing?
    && match job
       case Associate(a) => a < |s.out.senders| && !exists i :: 0 <= i < |s.tasks| && s.tasks[i].job == job
       case Stream(u) => u < |s.out.unis| && !exists i :: 0 <= i < |s.tasks| && s.tasks[i].job == job
       case Payload(bytes) => bytes in s.out.datagrams
       case _ => c.role.Server?
  }

  function Entry(c: Config, job: Job): Phase {
    if job.Authenticate? then Fresh
    else if c.role.Server? then Gated(Borrow(0, 0, 0))
    else if job.Associate? then Reading(0, [])
    else Admitted([], 0, 0)
  }

  function SetPhase(s: State, i: nat, phase: Phase): State
    requires i < |s.tasks|
  {
    s.(tasks := s.tasks[i := s.tasks[i].(phase := phase)])
  }

  function Emit(s: State, e: Event): State {
    s.(events := s.events + [e])
  }

  /** The user reported for what passed the gate. */
  function ReportedUser(c: Config, user: text): text {
    if user == [] && c.role.Server? && c.role.auth.Jls? then c.role.auth.user else user
  }

  function DoAuthenticate(c: Config, s: State, i: nat, credential: Credential): State
    requires i < |s.tasks|
  {
    var done := SetPhase(s, i, Done);
    if c.role.Client? || c.role.auth.Jls? then done
    else if credential in c.role.auth.users then
      Emit(done.(cell := Some(Granted(c.role.auth.users[credential])), version := s.version + 1),
           CredentialFound(credential))
    else done.(cell := Some(Denied), version := s.version + 1)
  }

  function DoGate(c: Config, s: State, i: nat, gate: Gate): State
    requires i < |s.tasks|
  {
    if c.role.Client? || c.role.auth.Jls? then SetPhase(s, i, Admitted([], 0, 0))
    else
      match gate
      case Borrow(passes, waits, seen) =>
        if s.cell.None? then SetPhase(s, i, Gated(Await(passes + 1, waits + 1, seen)))
        else if s.cell.value.Denied? then SetPhase(s, i, Done)
        else SetPhase(s, i, Admitted(s.cell.value.user, passes + 1, waits))
      case Await(passes, waits, seen) =>
        if s.version == seen then s else SetPhase(s, i, Gated(Borrow(passes, waits, s.version)))
  }

  function DoAdmitted(c: Config, s: State, i: nat, user: text): State
    requires i < |s.tasks|
  {
    match s.tasks[i].job
    case Authenticate(_) => s
    case Connect => Emit(SetPhase(s, i, Done), StreamAccepted(ReportedUser(c, user)))
    case Extension => Emit(SetPhase(s, i, Done), ExtensionReplied)
    case Associate(a) =>
      if a >= |s.out.senders| || s.out.senders[a].control == [] then s
      else
        var control := s.out.senders[a].control;
        var mode, decoded := ModeOf(control[0]), DecodeAddress(c.ip, control[1..]);
        if mode.None? then SetPhase(s, i, Done)
        else if decoded.Err? || |decoded.value.1| > |control| then s
        else Emit(SetPhase(s, i, Reading(|control| - |decoded.value.1|, [])),
                  AssociationAccepted(a, mode.value, decoded.value.0, ReportedUser(c, user)))
    case Payload(bytes) =>
      if |bytes| < 2 then SetPhase(s, i, Done) else SetPhase(s, i, Subscribe(FromBe16(bytes[..2])))
    case Stream(u) =>
      if u >= |s.out.unis| || |s.out.unis[u].bytes| < 2 then s
      else SetPhase(s, i, Subscribe(FromBe16(s.out.unis[u].bytes[..2])))
  }

  /** One announcement: decoded, and its route inserted. */
  function DoRead(c: Config, s: State, i: nat, position: nat, ids: seq<u16>): State
    requires i < |s.tasks|
  {
    if !s.tasks[i].job.Associate? || s.tasks[i].job.association >= |s.out.senders| then s
    else
      var a := s.tasks[i].job.association;
      var control := s.out.senders[a].control;
      if position > |control| then s
      else
        var decoded := DecodeAnnouncement(c.ip, control[position..]);
        if decoded.Err? || |decoded.value.1| > |control| then s
        else
          var (n, rest) := decoded.value;
          SetPhase(s.(reg := Insert(s.reg, n.id, Route(a, n.destination))), i,
                   Notifying(|control| - |rest|, ids, n.id))
  }

  /** Put a payload on the queue its route names. */
  function DoDeliver(s: State, i: nat, route: Route, position: nat): State
    requires i < |s.tasks|
  {
    match s.tasks[i].job
    case Payload(bytes) =>
      if |bytes| < 2 then s
      else Emit(SetPhase(s, i, Done), Queued(route.association, Packet(bytes[2..], route.destination), i))
    case Stream(u) =>
      if u >= |s.out.unis| || position > |s.out.unis[u].bytes| then s
      else
        var bytes := s.out.unis[u].bytes;
        var decoded := DecodeRecord(bytes[position..]);
        if decoded.Err? || |decoded.value.1| > |bytes| then s
        else Emit(SetPhase(s, i, Routed(route, |bytes| - |decoded.value.1|)),
                  Queued(route.association, Packet(decoded.value.0, route.destination), i))
    case _ => s
  }

  function DoAdvance(c: Config, s: State, i: nat): State
    requires i < |s.tasks|
  {
    match s.tasks[i].phase
    case Fresh => if s.tasks[i].job.Authenticate? then DoAuthenticate(c, s, i, s.tasks[i].job.credential) else s
    case Gated(gate) => DoGate(c, s, i, gate)
    case Admitted(user, _, _) => DoAdmitted(c, s, i, user)
    case Reading(position, ids) => DoRead(c, s, i, position, ids)
    case Notifying(position, ids, id) =>
      SetPhase(s.(reg := Notify(s.reg)), i, Reading(position, ids + [id]))
    case Removing(ids) => SetPhase(s.(reg := RemoveIds(s.reg, ids)), i, Done)
    case Subscribe(id) => SetPhase(s, i, LookingUp(id, s.reg.generation))
    case LookingUp(id, generation) =>
      if id in s.reg.routes then SetPhase(s, i, Routed(s.reg.routes[id], 2))
      else SetPhase(s, i, Checking(id, generation))
    case Checking(id, generation) =>
      if s.reg.closed then SetPhase(s, i, Done) else SetPhase(s, i, Parked(id, generation))
    case Parked(id, generation) =>
      if generation == s.reg.generation then s else SetPhase(s, i, Subscribe(id))
    case Routed(route, position) => DoDeliver(s, i, route, position)
    case Done => s
  }

  /** A read, a write, a timeout or a closed queue ends the task; a control task then removes its routes. */
  function DoFail(s: State, i: nat): State
    requires i < |s.tasks|
  {
    match s.tasks[i].phase
    case Reading(_, ids) => SetPhase(s, i, Removing(ids))
    case Fresh => SetPhase(s, i, Done)
    case Gated(_) => SetPhase(s, i, Done)
    case Admitted(_, _, _) => SetPhase(s, i, Done)
    case Routed(_, _) => SetPhase(s, i, Done)
    case _ => s
  }

  function Apply(c: Config, s: State, step: Step): State {
    match step
    case OpenAssociation(mode, destination) => DoOpen(c, s, mode, destination)
    case SendPacket(a, packet, fault) =>
      if a < |s.out.senders| then s.(out := Send(c.ip, s.out, a, packet, fault).0) else s
    case Accept(job) => if Arrives(c, s, job) then s.(tasks := s.tasks + [Task(job, Entry(c, job))]) else s
    case Advance(i) => if i < |s.tasks| then DoAdvance(c, s, i) else s
    case Fail(i) => if i < |s.tasks| then DoFail(s, i) else s
    case StoreClosed =>
      if c.role.Server? && s.closing.NotClosing? then s.(reg := s.reg.(closed := true), closing := Stored) else s
    case NotifyClosed =>
      if s.closing.Stored? then s.(reg := Notify(s.reg), closing := Notified) else s
  }

  function Exec(c: Config, steps: seq<Step>): State {
    if steps == [] then INITIAL else Apply(c, Exec(c, steps[..|steps| - 1]), steps[|steps| - 1])
  }

  /** A move of one task leaves all others where they are. */
  lemma AdvanceTouchesOne(c: Config, s: State, i: nat)
    requires i < |s.tasks|
    ensures var r := DoAdvance(c, s, i);
            && |r.tasks| == |s.tasks| && r.tasks == s.tasks[i := r.tasks[i]]
            && s.reg.generation <= r.reg.generation && r.closing == s.closing && r.out == s.out
  {
    if s.tasks[i].phase.Admitted? {
      AdmittedTouchesOne(c, s, i, s.tasks[i].phase.user);
    }
  }

  lemma AdmittedTouchesOne(c: Config, s: State, i: nat, user: text)
    requires i < |s.tasks|
    ensures var r := DoAdmitted(c, s, i, user);
            && |r.tasks| == |s.tasks| && r.tasks == s.tasks[i := r.tasks[i]]
            && r.reg == s.reg && r.closing == s.closing && r.out == s.out
  {
  }

  lemma ExecSnoc(c: Config, steps: seq<Step>, step: Step)
    ensures Exec(c, steps + [step]) == Apply(c, Exec(c, steps), step)
  {
    assert (steps + [step])[..|steps|] == steps;
  }

  /** Continue a run from a state. */
  function Continue(c: Config, s: State, steps: seq<Step>): State
    decreases |steps|
  {
    if steps == [] then s else Continue(c, Apply(c, s, steps[0]), steps[1..])
  }

  lemma {:induction false} ExecAppend(c: Config, first: seq<Step>, more: seq<Step>)
    ensures Exec(c, first + more) == Continue(c, Exec(c, first), more)
    decreases |more|
  {
    if more == [] {
      assert first + more == first;
    } else {
      ExecSnoc(c, first, more[0]);
      assert first + more == first + [more[0]] + more[1..];
      ExecAppend(c, first + [more[0]], more[1..]);
    }
  }
}
