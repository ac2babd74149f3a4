/** What ends the server's UDP loop, and that peers which only send what `send` produces never do. */
module SessionHealth {
  import opened Bytes
  import opened Text
  import opened Addresses
  import opened UdpFrames
  import opened Reassembly
  import opened ReassemblyRuns
  import opened Fragmentation
  import opened Sessions
  import opened SessionProofs

  /** The message completes a set of fragments that hold more than 4096 bytes together. */
  predicate TooLong(fragments: Fragments, m: UdpMessage, now: nat) {
    IsFragment(m) &&
    var f := Absorb(Target(Lookup(Sweep(fragments, now), m.packetId), m, now), m, now);
    Complete(f) && |Concat(Values(f.parts))| > 4096
  }

  lemma FailsWhenTooLong(fragments: Fragments, m: UdpMessage, now: nat)
    requires Valid(fragments)
    ensures Feed(fragments, m, now).1.Err? <==> TooLong(fragments, m, now)
  {
    if IsFragment(m) {
      AbsorbCounts(Lookup(Sweep(fragments, now), m.packetId), m, now);
    }
  }

  /** The fragments held for a session id: those of its live session, if there is one. */
  function FragmentsFor(t: Table, id: u32): Fragments {
    if Upgrade(t, id).Some? then t.sessions[Upgrade(t, id).value].fragments else map[]
  }

  predicate HasLive(t: Table, id: u32) {
    exists i :: 0 <= i < |t.sessions| && t.sessions[i].live && t.sessions[i].id == id
  }

  /** A datagram leaves the loop open exactly when it decodes, its session is live or the router takes a new
      one, and it does not complete a packet of more than 4096 bytes. */
  lemma LoopStaysOpen(ip: IpText, events: seq<Event>, bytes: seq<byte>, at: nat, routerAccepts: bool)
    requires After(ip, events).open
    ensures var t, decoded := After(ip, events), DecodeMessage(ip, bytes);
            React(ip, t, Datagram(bytes, at, routerAccepts)).open <==>
            && decoded.Ok?
            && (HasLive(t, decoded.value.sessionId) || routerAccepts)
            && !TooLong(FragmentsFor(t, decoded.value.sessionId), decoded.value, at)
  {
    RunsAreSafe(ip, events);
    var t, decoded := After(ip, events), DecodeMessage(ip, bytes);
    if decoded.Ok? {
      FailsWhenTooLong(FragmentsFor(t, decoded.value.sessionId), decoded.value, at);
      LiveIsUpgraded(t, decoded.value.sessionId);
    }
  }

  lemma LiveIsUpgraded(t: Table, id: u32)
    requires TableOk(t)
    ensures HasLive(t, id) <==> Upgrade(t, id).Some?
  {
  }

  // ---- peers that send what `send` produces ----

  /** For every session id the packets sent under it, cut into fragments under different packet ids, none of
      them too long. */
  predicate GoodCuts(cuts: map<u32, seq<Cut>>) {
    forall id | id in cuts ::
      && (forall i, j :: 0 <= i < j < |cuts[id]| ==> cuts[id][i].id != cuts[id][j].id)
      && (forall i :: 0 <= i < |cuts[id]| ==> |Concat(cuts[id][i].pieces)| <= MAX_UDP_SIZE)
  }

  predicate Belongs(cuts: map<u32, seq<Cut>>, m: UdpMessage) {
    m.sessionId in cuts && OfCuts(cuts[m.sessionId], m)
  }

  predicate LogBelongs(cuts: map<u32, seq<Cut>>, t: Table) {
    forall x :: 0 <= x < |t.log| ==> Belongs(cuts, t.log[x].arrival.message)
  }

  predicate Welcome(ip: IpText, cuts: map<u32, seq<Cut>>, e: Event) {
    e.Datagram? ==>
      e.routerAccepts && DecodeMessage(ip, e.bytes).Ok? && Belongs(cuts, DecodeMessage(ip, e.bytes).value)
  }

  lemma {:induction false} FedBelong(cuts: map<u32, seq<Cut>>, log: seq<Entry>, i: nat)
    requires forall x :: 0 <= x < |log| ==> Belongs(cuts, log[x].arrival.message)
    ensures forall k :: 0 <= k < |FedTo(log, i)| ==> Belongs(cuts, FedTo(log, i)[k].message)
    decreases |log|
  {
    if log != [] {
      FedBelong(cuts, log[..|log| - 1], i);
    }
  }

  /** Fragments of such packets, all of one session, never make the reassembler fail. */
  lemma {:induction false} FragmentsNeverFail(cuts: map<u32, seq<Cut>>, id: u32, fed: seq<Arrival>, a: Arrival)
    requires GoodCuts(cuts) && a.message.sessionId == id && Belongs(cuts, a.message)
    requires forall k :: 0 <= k < |fed| ==> fed[k].message.sessionId == id && Belongs(cuts, fed[k].message)
    ensures Feed(Run(map[], fed), a.message, a.at).1.Ok?
  {
    var trace := fed + [a];
    assert Init(trace) == fed && Last(trace) == a;
    var origin := ChooseOrigins(cuts[id], trace);
    NothingElseArrives(cuts[id], origin, trace);
  }

  lemma DatagramWelcome(ip: IpText, cuts: map<u32, seq<Cut>>, t: Table, e: Event)
    requires GoodCuts(cuts) && Inv(t) && t.open && LogBelongs(cuts, t) && e.Datagram? && Welcome(ip, cuts, e)
    ensures var r := React(ip, t, e); r.open && LogBelongs(cuts, r)
  {
    var m := DecodeMessage(ip, e.bytes).value;
    var existing := Upgrade(t, m.sessionId);
    if existing.Some? {
      var i := existing.value;
      FedBelong(cuts, t.log, i);
      FedIds(t.log, i, m.sessionId);
      assert Reassembles(t.sessions[i], FedTo(t.log, i));
      FragmentsNeverFail(cuts, m.sessionId, FedTo(t.log, i), Arrival(m, e.at));
    } else {
      FragmentsNeverFail(cuts, m.sessionId, [], Arrival(m, e.at));
    }
  }

  lemma {:induction false} WelcomeRuns(ip: IpText, cuts: map<u32, seq<Cut>>, events: seq<Event>)
    requires GoodCuts(cuts) && forall k :: 0 <= k < |events| ==> Welcome(ip, cuts, events[k])
    ensures After(ip, events).open && LogBelongs(cuts, After(ip, events))
    decreases |events|
  {
    if events != [] {
      var init, last := events[..|events| - 1], events[|events| - 1];
      WelcomeRuns(ip, cuts, init);
      RunsAreSafe(ip, init);
      if last.Datagram? {
        DatagramWelcome(ip, cuts, After(ip, init), last);
      }
    }
  }

  /** The sends of a peer that were not refused, for every session id it uses, with different packet ids. */
  predicate GoodSends(sends: map<u32, seq<Sent>>) {
    forall id | id in sends ::
      && (forall i :: 0 <= i < |sends[id]| ==> GoodSend(id, sends[id][i]))
      && (forall i, j :: 0 <= i < j < |sends[id]| ==> sends[id][i].id != sends[id][j].id)
  }

  /** Hosts are strings, and not empty. */
  predicate GoodSend(sessionId: u32, s: Sent) {
    && s.packet.destination.host != [] && Utf8(s.packet.destination.host)
    && Plan(sessionId, s.id, s.packet, s.budget).Ok?
  }

  /** A datagram that one of these sends handed to QUIC. */
  predicate FromPeer(sends: map<u32, seq<Sent>>, bytes: seq<byte>) {
    exists id, i :: id in sends && 0 <= i < |sends[id]| && IsFrameOf(id, sends[id][i], bytes)
  }

  predicate IsFrameOf(sessionId: u32, s: Sent, bytes: seq<byte>) {
    var plan := Plan(sessionId, s.id, s.packet, s.budget);
    plan.Ok? && bytes in plan.value
  }

  /** Any datagrams of these sends, in any order and number, with sessions coming and going in between. */
  predicate PeerTraffic(sends: map<u32, seq<Sent>>, events: seq<Event>) {
    forall k :: 0 <= k < |events| && events[k].Datagram? ==>
      events[k].routerAccepts && FromPeer(sends, events[k].bytes)
  }

  /** The destination as the receiver reads it. */
  function Arrived(ip: IpText, d: Address): Address {
    Address(Reread(ip, d.host), d.port)
  }

  /** A frame decodes unless its destination is a bare pair of brackets, and is then a fragment of its send. */
  lemma FrameIsFragment(ip: IpText, sessionId: u32, s: Sent, bytes: seq<byte>)
    requires Lawful(ip) && GoodSend(sessionId, s) && IsFrameOf(sessionId, s, bytes)
    ensures DecodeMessage(ip, bytes).Ok? <==> s.packet.destination.host != BARE
    ensures s.packet.destination.host != BARE ==>
              var m := DecodeMessage(ip, bytes).value;
              && m.sessionId == sessionId
              && CopyOf(m, s.id, PiecesOf(s.packet, s.budget), Arrived(ip, s.packet.destination))
  {
    var d := s.packet.destination;
    PlanSound(sessionId, s.id, s.packet, s.budget);
    var frames, pieces := Plan(sessionId, s.id, s.packet, s.budget).value, PiecesOf(s.packet, s.budget);
    var k :| 0 <= k < |frames| && frames[k] == bytes;
    FrameFields(ip, UdpMessage(sessionId, s.id, k, |pieces|, d, pieces[k]));
    DisplayIsUtf8(d);
    PrintThenParse(ip, d);
    OnlyBareBracketsAreRefused(ip, d);
  }

  function ArrivedCut(ip: IpText, s: Sent): Cut {
    Cut(s.id, PiecesOf(s.packet, s.budget), Arrived(ip, s.packet.destination))
  }

  function ArrivedCuts(ip: IpText, sends: seq<Sent>): (cuts: seq<Cut>)
    ensures |cuts| == |sends| && forall i :: 0 <= i < |sends| ==> cuts[i] == ArrivedCut(ip, sends[i])
  {
    seq(|sends|, i requires 0 <= i < |sends| => ArrivedCut(ip, sends[i]))
  }

  lemma CutsAreGood(ip: IpText, sends: map<u32, seq<Sent>>)
    requires GoodSends(sends)
    ensures GoodCuts(map id | id in sends :: ArrivedCuts(ip, sends[id]))
  {
    forall id, i | id in sends && 0 <= i < |sends[id]|
      ensures |Concat(ArrivedCut(ip, sends[id][i]).pieces)| <= MAX_UDP_SIZE
    {
      var s := sends[id][i];
      assert GoodSend(id, s);
      PlanSound(id, s.id, s.packet, s.budget);
    }
  }

  predicate NoBareBrackets(sends: map<u32, seq<Sent>>) {
    forall id, i :: id in sends && 0 <= i < |sends[id]| ==> sends[id][i].packet.destination.host != BARE
  }

  /** Peers that send only what `send` produces, with different ids in each session and to no bare pair of
      brackets, never end the loop: not by losing, repeating, reordering or delaying datagrams. */
  lemma HonestPeersKeepTheLoopOpen(ip: IpText, sends: map<u32, seq<Sent>>, events: seq<Event>)
    requires Lawful(ip) && GoodSends(sends) && NoBareBrackets(sends) && PeerTraffic(sends, events)
    ensures After(ip, events).open
  {
    var cuts := map id | id in sends :: ArrivedCuts(ip, sends[id]);
    CutsAreGood(ip, sends);
    forall k | 0 <= k < |events| && events[k].Datagram? ensures Welcome(ip, cuts, events[k]) {
      var bytes := events[k].bytes;
      assert FromPeer(sends, bytes);
      var id, i :| id in sends && 0 <= i < |sends[id]| && IsFrameOf(id, sends[id][i], bytes);
      FrameIsFragment(ip, id, sends[id][i], bytes);
      assert cuts[id][i] == ArrivedCut(ip, sends[id][i]);
    }
    WelcomeRuns(ip, cuts, events);
  }

  /** Every frame of a send to a bare pair of brackets ends the loop, whenever it arrives. */
  lemma BareBracketsEndTheLoop(ip: IpText, events: seq<Event>, sessionId: u32, s: Sent, bytes: seq<byte>, at: nat)
    requires Lawful(ip) && After(ip, events).open
    requires GoodSend(sessionId, s) && s.packet.destination.host == BARE && IsFrameOf(sessionId, s, bytes)
    ensures !React(ip, After(ip, events), Datagram(bytes, at, true)).open
  {
    FrameIsFragment(ip, sessionId, s, bytes);
  }

  /** Such a send is not refused. */
  lemma BareBracketsAreSent(sessionId: u32, id: u16)
    ensures GoodSend(sessionId, Sent(id, Packet([], Address(BARE, 1)), INITIAL_UDP_MTU))
  {
    var d := Address(BARE, 1);
    assert Display(d) == BARE + [COLON] + [49];
    PlanAccepts(sessionId, id, Packet([], d), INITIAL_UDP_MTU);
    AsciiIsUtf8(BARE);
  }

  /** No traffic of these sends ends the loop. */
  ghost predicate AlwaysOpen(ip: IpText, sends: map<u32, seq<Sent>>) {
    forall events | PeerTraffic(sends, events) :: After(ip, events).open
  }

  /** Exactly the sends to a bare pair of brackets can end the loop. */
  lemma LoopOpenExactly(ip: IpText, sends: map<u32, seq<Sent>>)
    requires Lawful(ip) && GoodSends(sends)
    ensures AlwaysOpen(ip, sends) <==> NoBareBrackets(sends)
  {
    if NoBareBrackets(sends) {
      forall events | PeerTraffic(sends, events) ensures After(ip, events).open {
        HonestPeersKeepTheLoopOpen(ip, sends, events);
      }
    } else {
      var id, i :| id in sends && 0 <= i < |sends[id]| && sends[id][i].packet.destination.host == BARE;
      var s := sends[id][i];
      assert GoodSend(id, s);
      PlanSound(id, s.id, s.packet, s.budget);
      var bytes := Plan(id, s.id, s.packet, s.budget).value[0];
      BareBracketsEndTheLoop(ip, [], id, s, bytes, 0);
      OneDatagram(ip, bytes);
      assert IsFrameOf(id, sends[id][i], bytes) && PeerTraffic(sends, [Datagram(bytes, 0, true)]);
    }
  }

  lemma OneDatagram(ip: IpText, bytes: seq<byte>)
    ensures After(ip, [Datagram(bytes, 0, true)]) == React(ip, After(ip, []), Datagram(bytes, 0, true))
  {
    var events := [Datagram(bytes, 0, true)];
    assert events[..|events| - 1] == [];
  }

  // ---- ids that repeat ----

  /** Datagrams that decode to the messages of a trace, all of one session. */
  predicate Carries(ip: IpText, id: u32, events: seq<Event>, trace: seq<Arrival>) {
    && |events| == |trace|
    && forall k :: 0 <= k < |events| ==> CarriesOne(ip, id, events[k], trace[k])
  }

  predicate CarriesOne(ip: IpText, id: u32, e: Event, a: Arrival) {
    && e.Datagram? && e.routerAccepts && e.at == a.at
    && DecodeMessage(ip, e.bytes) == Ok(a.message) && a.message.sessionId == id
  }

  /** Nothing yet, or one live session for that id, fed with these messages. */
  predicate Serves(t: Table, id: u32, fed: seq<Arrival>) {
    if fed == [] then t == NEW_TABLE
    else |t.sessions| == 1 && Upgrade(t, id) == Some(0) && FedTo(t.log, 0) == fed
  }

  lemma ServesOn(ip: IpText, t: Table, id: u32, fed: seq<Arrival>, e: Event, a: Arrival)
    requires FragmentsValid(t) && (t.open ==> Serves(t, id, fed)) && CarriesOne(ip, id, e, a)
    ensures React(ip, t, e).open ==> Serves(React(ip, t, e), id, fed + [a])
  {
    if t.open {
      assert React(ip, t, e).log == t.log + [Entry(a, 0)];
      FedSnoc(t.log, Entry(a, 0), 0);
    }
  }

  ghost predicate ServesWhileOpen(ip: IpText, id: u32, events: seq<Event>, trace: seq<Arrival>) {
    After(ip, events).open ==> Serves(After(ip, events), id, trace)
  }

  lemma ServesNext(ip: IpText, id: u32, init: seq<Event>, e: Event, fed: seq<Arrival>, a: Arrival)
    requires ServesWhileOpen(ip, id, init, fed) && CarriesOne(ip, id, e, a)
    ensures ServesWhileOpen(ip, id, init + [e], fed + [a])
  {
    assert (init + [e])[..|init + [e]| - 1] == init;
    ServesOn(ip, After(ip, init), id, fed, e, a);
  }

  lemma NothingServed(ip: IpText, id: u32)
    ensures ServesWhileOpen(ip, id, [], [])
  {
  }

  /** As long as the loop is open, all of them go to one session. */
  lemma {:induction false} OneSession(ip: IpText, id: u32, events: seq<Event>, trace: seq<Arrival>, n: nat)
    requires Carries(ip, id, events, trace) && n <= |events|
    ensures ServesWhileOpen(ip, id, events[..n], trace[..n])
    decreases n
  {
    if n == 0 {
      NothingServed(ip, id);
    } else {
      OneSession(ip, id, events, trace, n - 1);
      SplitAt(events, n - 1);
      SplitAt(trace, n - 1);
      ServesNext(ip, id, events[..n - 1], events[n - 1], trace[..n - 1], trace[n - 1]);
    }
  }

  /** If the reassembler fails on the last of them, the loop ends. */
  lemma FailureEndsTheLoop(ip: IpText, id: u32, events: seq<Event>, trace: seq<Arrival>)
    requires Carries(ip, id, events, trace) && events != [] && Answer(map[], trace).Err?
    ensures !After(ip, events).open
  {
    var init := events[..|events| - 1];
    if After(ip, init).open {
      OneSession(ip, id, events, trace, |events| - 1);
      RunsAreSafe(ip, init);
      var t := After(ip, init);
      if init != [] {
        assert Reassembles(t.sessions[0], FedTo(t.log, 0));
      }
    }
  }

  /** A message that this send puts into a frame and that decodes from it. */
  predicate Sends(ip: IpText, id: u32, s: Sent, m: UdpMessage) {
    && |Display(m.destination)| <= MAX_ADDRESS_LENGTH && m.sessionId == id
    && IsFrameOf(id, s, Frame(m)) && DecodeMessage(ip, Frame(m)) == Ok(m)
  }

  lemma FragmentIsSent(ip: IpText, id: u32, s: Sent, k: nat)
    requires Lawful(ip) && Carried(ip, s.packet.destination) && Plan(id, s.id, s.packet, s.budget).Ok?
    requires k < |CutOf(s).pieces| <= 255
    ensures Sends(ip, id, s, FragmentTrace(id, CutOf(s))[k].message)
  {
    PlanSound(id, s.id, s.packet, s.budget);
    MessageRoundTrip(ip, FragmentTrace(id, CutOf(s))[k].message);
    assert Frame(FragmentTrace(id, CutOf(s))[k].message) == Plan(id, s.id, s.packet, s.budget).value[k];
  }

  /** The datagrams that carry a trace. */
  function Datagrams(trace: seq<Arrival>): (events: seq<Event>)
    requires forall x :: 0 <= x < |trace| ==> |Display(trace[x].message.destination)| <= MAX_ADDRESS_LENGTH
    ensures |events| == |trace|
    ensures forall x :: 0 <= x < |trace| ==> events[x] == Datagram(Frame(trace[x].message), trace[x].at, true)
  {
    seq(|trace|, x requires 0 <= x < |trace| => Datagram(Frame(trace[x].message), trace[x].at, true))
  }

  lemma IsTraffic(id: u32, sends: seq<Sent>, origin: seq<nat>, events: seq<Event>)
    requires |origin| == |events| && forall x :: 0 <= x < |events| ==> events[x].Datagram? && events[x].routerAccepts
    requires forall x :: 0 <= x < |events| ==>
               origin[x] < |sends| && IsFrameOf(id, sends[origin[x]], events[x].bytes)
    ensures PeerTraffic(map[id := sends], events)
  {
    var all := map[id := sends];
    forall x | 0 <= x < |events| ensures FromPeer(all, events[x].bytes) {
      assert IsFrameOf(id, all[id][origin[x]], events[x].bytes);
    }
  }

  /** Sends whose messages make the reassembler fail can end the loop. */
  lemma TraceEndsTheLoop(ip: IpText, id: u32, sends: seq<Sent>, origin: seq<nat>, trace: seq<Arrival>)
    returns (events: seq<Event>)
    requires |origin| == |trace| > 0 && Answer(map[], trace).Err?
    requires forall x :: 0 <= x < |trace| ==>
               origin[x] < |sends| && Sends(ip, id, sends[origin[x]], trace[x].message)
    ensures PeerTraffic(map[id := sends], events) && !After(ip, events).open
  {
    events := Datagrams(trace);
    assert Carries(ip, id, events, trace);
    IsTraffic(id, sends, origin, events);
    FailureEndsTheLoop(ip, id, events, trace);
  }

  lemma TakenIsSent(ip: IpText, id: u32, s: Sent, a: Arrival, x: nat)
    requires Lawful(ip) && x < |CutOf(s).pieces| <= 255 && a == FragmentTrace(id, CutOf(s))[x]
    requires Carried(ip, s.packet.destination) && Plan(id, s.id, s.packet, s.budget).Ok?
    ensures Sends(ip, id, s, a.message)
  {
    FragmentIsSent(ip, id, s, x);
  }

  function WrapSends(): seq<Sent> { [BEFORE_WRAP, AT_WRAP] }

  /** Three fragments of the first, and the last of the second. */
  function WrapOrigin(x: nat): nat { if x < 3 then 0 else 1 }

  lemma WrapMessage(ip: IpText, id: u32, trace: seq<Arrival>, x: nat)
    requires Lawful(ip) && |CutOf(BEFORE_WRAP).pieces| == |CutOf(AT_WRAP).pieces| == 4 && x < 4
    requires trace == FragmentTrace(id, Mixed(CutOf(BEFORE_WRAP), CutOf(AT_WRAP), 3))
    ensures Sends(ip, id, WrapSends()[WrapOrigin(x)], trace[x].message)
  {
    WrapBreaksReassembly(ip, id);
    PlainIsCarried(ip);
    if x < 3 {
      TakenIsSent(ip, id, BEFORE_WRAP, trace[x], x);
    } else {
      TakenIsSent(ip, id, AT_WRAP, trace[x], x);
    }
  }

  function WrapOrigins(): (origin: seq<nat>)
    ensures |origin| == 4 && forall x :: 0 <= x < 4 ==> origin[x] == WrapOrigin(x) < |WrapSends()|
  {
    [0, 0, 0, 1]
  }

  lemma WrapMessages(ip: IpText, id: u32) returns (trace: seq<Arrival>)
    requires Lawful(ip)
    ensures |trace| == 4 && Answer(map[], trace).Err?
    ensures forall x :: 0 <= x < 4 ==> Sends(ip, id, WrapSends()[WrapOrigins()[x]], trace[x].message)
  {
    WrapBreaksReassembly(ip, id);
    trace := FragmentTrace(id, Mixed(CutOf(BEFORE_WRAP), CutOf(AT_WRAP), 3));
    forall x | 0 <= x < 4 ensures Sends(ip, id, WrapSends()[WrapOrigins()[x]], trace[x].message) {
      WrapMessage(ip, id, trace, x);
    }
  }

  /** Different ids are needed: the two sends at the counter wrap can end the loop. */
  lemma WrapCanEndTheLoop(ip: IpText, sessionId: u32) returns (events: seq<Event>)
    requires Lawful(ip)
    ensures BEFORE_WRAP.id == AT_WRAP.id
    ensures PeerTraffic(map[sessionId := [BEFORE_WRAP, AT_WRAP]], events) && !After(ip, events).open
  {
    var trace := WrapMessages(ip, sessionId);
    events := TraceEndsTheLoop(ip, sessionId, WrapSends(), WrapOrigins(), trace);
    PacketIdsCollide(0xffff_fffe, 0xffff_ffff);
  }

  lemma PlannedIsGood(id: u32, s: Sent)
    requires s.packet.destination == PLAIN && Plan(id, s.id, s.packet, s.budget).Ok?
    ensures GoodSend(id, s)
  {
    AsciiIsUtf8(PLAIN.host);
  }

  /** Neither of the two is refused. */
  lemma WrapSendsAreGood(sessionId: u32)
    ensures GoodSend(sessionId, BEFORE_WRAP) && GoodSend(sessionId, AT_WRAP)
  {
    LawsHaveAModel();
    WrapBreaksReassembly(IpText(HexParse, HexShow), sessionId);
    PlannedIsGood(sessionId, BEFORE_WRAP);
    PlannedIsGood(sessionId, AT_WRAP);
  }
}
