/** The UDP session table of the Hysteria2 server loop (src/hysteria2/server.rs), with the session's
    input and receive queue (src/hysteria2/packet.rs). A session is live while the router holds it; the
    table keeps weak references only. */
module Sessions {
  import opened Bytes
  import opened Addresses
  import opened UdpFrames
  import opened Reassembly
  import opened ReassemblyRuns

  const QUEUE_CAPACITY := 64

  /** `reassembled` and `received` are history: the packets the session's reassembler produced, and those
      `recv` returned. */
  datatype Session = Session(
    id: u32,
    live: bool,
    fragments: Fragments,
    queue: seq<Packet>,
    reassembled: seq<Packet>,
    received: seq<Packet>)

  /** A decoded message and the session it was given to. */
  datatype Entry = Entry(arrival: Arrival, session: nat)

  /** `log` is the history of all decoded messages. The loop ends (`open` false) on an undecodable
      datagram, an oversized reassembly, or a router that no longer accepts. */
  datatype Table = Table(
    sessions: seq<Session>,
    byId: map<u32, nat>,
    open: bool,
    log: seq<Entry>)

  const NEW_TABLE := Table([], map[], true, [])

  datatype Event =
    | Datagram(bytes: seq<byte>, at: nat, routerAccepts: bool)
    | Release(session: nat)
    | Recv(session: nat)

  function NewSession(id: u32): Session {
    Session(id, true, map[], [], [], [])
  }

  /** `Weak::upgrade` of the entry, if any. */
  function Upgrade(t: Table, id: u32): Option<nat> {
    if id in t.byId && t.byId[id] < |t.sessions| && t.sessions[t.byId[id]].live then Some(t.byId[id]) else None
  }

  /** `input`: reassemble, and queue the packet unless the queue is full. */
  function Input(s: Session, a: Arrival): (r: (Session, bool))
    requires Valid(s.fragments)
    ensures Valid(r.0.fragments)
  {
    var (fragments, answer) := Feed(s.fragments, a.message, a.at);
    var next := s.(fragments := fragments);
    if answer.Err? then (next, false)
    else if answer.value.None? then (next, true)
    else
      var packet := answer.value.value;
      (next.(reassembled := s.reassembled + [packet],
             queue := if |s.queue| < QUEUE_CAPACITY then s.queue + [packet] else s.queue), true)
  }

  predicate FragmentsValid(t: Table) {
    forall i :: 0 <= i < |t.sessions| ==> Valid(t.sessions[i].fragments)
  }

  /** Hand a message to session `i`. */
  function Deliver(t: Table, i: nat, a: Arrival): (r: Table)
    requires i < |t.sessions| && FragmentsValid(t)
    ensures FragmentsValid(r)
  {
    var (next, ok) := Input(t.sessions[i], a);
    t.(sessions := t.sessions[i := next], open := ok, log := t.log + [Entry(a, i)])
  }

  function Register(t: Table, id: u32): (r: Table)
    requires FragmentsValid(t)
    ensures FragmentsValid(r)
  {
    t.(sessions := t.sessions + [NewSession(id)], byId := t.byId[id := |t.sessions|])
  }

  function OnDatagram(ip: IpText, t: Table, bytes: seq<byte>, at: nat, routerAccepts: bool): (r: Table)
    requires FragmentsValid(t)
    ensures FragmentsValid(r)
  {
    var decoded := DecodeMessage(ip, bytes);
    if decoded.Err? then t.(open := false)
    else
      var a := Arrival(decoded.value, at);
      var existing := Upgrade(t, a.message.sessionId);
      if existing.Some? then Deliver(t, existing.value, a)
      else if !routerAccepts then t.(open := false)
      else Deliver(Register(t, a.message.sessionId), |t.sessions|, a)
  }

  function React(ip: IpText, t: Table, e: Event): (r: Table)
    requires FragmentsValid(t)
    ensures FragmentsValid(r)
  {
    match e
    case Datagram(bytes, at, routerAccepts) =>
      if t.open then OnDatagram(ip, t, bytes, at, routerAccepts) else t
    case Release(i) =>
      if i < |t.sessions| then t.(sessions := t.sessions[i := t.sessions[i].(live := false)]) else t
    case Recv(i) =>
      if i < |t.sessions| && t.sessions[i].live && t.sessions[i].queue != [] then
        var s := t.sessions[i];
        t.(sessions := t.sessions[i := s.(queue := s.queue[1..], received := s.received + [s.queue[0]])])
      else t
  }

  function After(ip: IpText, events: seq<Event>): (r: Table)
    ensures FragmentsValid(r)
  {
    if events == [] then NEW_TABLE else React(ip, After(ip, events[..|events| - 1]), events[|events| - 1])
  }

  /** The loop's own mutable state. */
  class UdpSessions {
    var sessions: seq<Session>
    var byId: map<u32, nat>
    var open: bool
    var log: seq<Entry>

    ghost function View(): Table
      reads this
    {
      Table(sessions, byId, open, log)
    }

    constructor ()
      ensures View() == NEW_TABLE
    {
      sessions, byId, open, log := [], map[], true, [];
    }

    /** One pass of the loop over a datagram. */
    method HandleDatagram(ip: IpText, bytes: seq<byte>, at: nat, routerAccepts: bool)
      requires open && FragmentsValid(View())
      modifies this
      ensures View() == OnDatagram(ip, old(View()), bytes, at, routerAccepts)
    {
      var decoded := DecodeMessage(ip, bytes);
      if decoded.Err? {
        open := false;
        return;
      }
      var id := decoded.value.sessionId;
      var i := |sessions|;
      if id in byId && byId[id] < |sessions| && sessions[byId[id]].live {
        i := byId[id];
      } else {
        if !routerAccepts {
          open := false;
          return;
        }
        sessions := sessions + [NewSession(id)];
        byId := byId[id := i];
      }
      var a := Arrival(decoded.value, at);
      var (next, ok) := Input(sessions[i], a);
      sessions := sessions[i := next];
      open, log := ok, log + [Entry(a, i)];
    }
  }
}
