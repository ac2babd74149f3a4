/** Reassembly of fragmented Hysteria2 UDP packets (`Defragger` in src/hysteria2/packet.rs).
    Time is a number of nanoseconds handed in by the caller. */
module Reassembly {
  import opened Bytes
  import opened Addresses
  import opened UdpFrames

  const MAX_UDP_SIZE := 4096
  const FRAGMENT_LIFETIME := 10_000_000_000

  datatype Packet = Packet(data: seq<byte>, destination: Address)

  datatype FragmentSet = FragmentSet(
    updatedAt: nat,
    destination: Address,
    parts: seq<Option<seq<byte>>>,
    received: nat)

  type Fragments = map<u16, FragmentSet>

  predicate Live(f: FragmentSet, now: nat) {
    now <= f.updatedAt || now - f.updatedAt <= FRAGMENT_LIFETIME
  }

  function Filled(parts: seq<Option<seq<byte>>>): (n: nat)
    ensures n <= |parts|
  {
    if parts == [] then 0 else (if parts[|parts| - 1].Some? then 1 else 0) + Filled(parts[..|parts| - 1])
  }

  /** What holds of every stored set between calls. */
  predicate SetValid(f: FragmentSet) {
    2 <= |f.parts| <= 255 && f.received == Filled(f.parts) < |f.parts|
  }

  predicate Valid(fragments: Fragments) {
    forall p | p in fragments :: SetValid(fragments[p])
  }

  predicate IsFragment(m: UdpMessage) {
    m.fragmentTotal > 1 && m.fragmentId < m.fragmentTotal
  }

  function Empty(m: UdpMessage, now: nat): FragmentSet {
    FragmentSet(now, m.destination, seq(m.fragmentTotal, _ => None), 0)
  }

  function Absorb(f: FragmentSet, m: UdpMessage, now: nat): FragmentSet
    requires m.fragmentId < |f.parts|
  {
    if f.parts[m.fragmentId].None?
    then f.(updatedAt := now, parts := f.parts[m.fragmentId := Some(m.data)], received := f.received + 1)
    else f.(updatedAt := now)
  }

  /** The set a fragment lands in: the stored one if it has the right number of slots, else a new one. */
  function Target(cell: Option<FragmentSet>, m: UdpMessage, now: nat): (f: FragmentSet)
    ensures |f.parts| == m.fragmentTotal
  {
    if cell.Some? && |cell.value.parts| == m.fragmentTotal then cell.value else Empty(m, now)
  }

  function Values(parts: seq<Option<seq<byte>>>): (s: seq<seq<byte>>)
    requires forall i :: 0 <= i < |parts| ==> parts[i].Some?
    ensures |s| == |parts| && forall i :: 0 <= i < |parts| ==> s[i] == parts[i].value
  {
    seq(|parts|, i requires 0 <= i < |parts| => parts[i].value)
  }

  function Assemble(f: FragmentSet): Result<Option<Packet>>
    requires forall i :: 0 <= i < |f.parts| ==> f.parts[i].Some?
  {
    var data := Concat(Values(f.parts));
    if |data| > MAX_UDP_SIZE then Err(Protocol("Hysteria2 reassembled UDP packet exceeds 4096 bytes"))
    else Ok(Some(Packet(data, f.destination)))
  }

  lemma {:induction false} FilledAll(parts: seq<Option<seq<byte>>>)
    ensures Filled(parts) == |parts| <==> forall i :: 0 <= i < |parts| ==> parts[i].Some?
  {
    if parts != [] {
      var init := parts[..|parts| - 1];
      FilledAll(init);
      assert forall i :: 0 <= i < |init| ==> init[i] == parts[i];
    }
  }

  lemma {:induction false} FilledNone(parts: seq<Option<seq<byte>>>)
    requires forall i :: 0 <= i < |parts| ==> parts[i].None?
    ensures Filled(parts) == 0
  {
    if parts != [] {
      FilledNone(parts[..|parts| - 1]);
    }
  }

  lemma {:induction false} FilledUpdate(parts: seq<Option<seq<byte>>>, k: nat, v: seq<byte>)
    requires k < |parts| && parts[k].None?
    ensures Filled(parts[k := Some(v)]) == Filled(parts) + 1
  {
    var init, next := parts[..|parts| - 1], parts[k := Some(v)];
    if k == |parts| - 1 {
      assert next[..|parts| - 1] == init;
    } else {
      FilledUpdate(init, k, v);
      assert next[..|parts| - 1] == init[k := Some(v)];
    }
  }

  /** Absorbing keeps the count exact, so a full count means every slot can be opened. */
  lemma AbsorbCounts(cell: Option<FragmentSet>, m: UdpMessage, now: nat)
    requires IsFragment(m) && (cell.Some? ==> SetValid(cell.value))
    ensures var f := Absorb(Target(cell, m, now), m, now);
            && |f.parts| == m.fragmentTotal
            && f.received == Filled(f.parts)
            && f.parts[m.fragmentId].Some?
            && (f.received == |f.parts| <==> forall i :: 0 <= i < |f.parts| ==> f.parts[i].Some?)
  {
    var t := Target(cell, m, now);
    if t == Empty(m, now) {
      FilledNone(Empty(m, now).parts);
    }
    if t.parts[m.fragmentId].None? {
      FilledUpdate(t.parts, m.fragmentId, m.data);
    }
    FilledAll(Absorb(t, m, now).parts);
  }

  /** One packet id, without regard to age: the cell after the fragment, and the answer. */
  function Step(cell: Option<FragmentSet>, m: UdpMessage, now: nat): (r: (Option<FragmentSet>, Result<Option<Packet>>))
    requires IsFragment(m) && (cell.Some? ==> SetValid(cell.value))
    ensures r.0.Some? ==> SetValid(r.0.value)
    ensures r.0.Some? ==> r.1 == Ok(None)
  {
    var f := Absorb(Target(cell, m, now), m, now);
    AbsorbCounts(cell, m, now);
    if f.received != m.fragmentTotal then (Some(f), Ok(None)) else (None, Assemble(f))
  }

  function Lookup(fragments: Fragments, p: u16): Option<FragmentSet> {
    if p in fragments then Some(fragments[p]) else None
  }

  function Store(fragments: Fragments, p: u16, cell: Option<FragmentSet>): Fragments {
    if cell.Some? then fragments[p := cell.value] else fragments - {p}
  }

  /** Drops every set, of any packet id, that has not been touched for ten seconds. */
  function Sweep(fragments: Fragments, now: nat): Fragments {
    map p | p in fragments && Live(fragments[p], now) :: fragments[p]
  }

  /** `feed` as a function of the stored fragments. */
  function Feed(fragments: Fragments, m: UdpMessage, now: nat): (r: (Fragments, Result<Option<Packet>>))
    requires Valid(fragments)
    ensures Valid(r.0)
  {
    if m.fragmentTotal <= 1 then (fragments, Ok(Some(Packet(m.data, m.destination))))
    else if m.fragmentId >= m.fragmentTotal then (fragments, Ok(None))
    else
      var swept := Sweep(fragments, now);
      var (cell, answer) := Step(Lookup(swept, m.packetId), m, now);
      (Store(swept, m.packetId, cell), answer)
  }

  /** The reassembler itself: one mutable map for all packet ids of a session. */
  class Defragger {
    var fragments: Fragments

    ghost predicate Invariant()
      reads this
    {
      Valid(fragments)
    }

    constructor ()
      ensures fragments == map[] && Invariant()
    {
      fragments := map[];
    }

    /** Sweep, find or make the set for this packet id, and put the fragment in its slot. */
    method Admit(m: UdpMessage, now: nat) returns (f: FragmentSet)
      requires Invariant() && IsFragment(m)
      modifies this
      ensures f == Absorb(Target(Lookup(Sweep(old(fragments), now), m.packetId), m, now), m, now)
      ensures fragments == Sweep(old(fragments), now)[m.packetId := f]
    {
      fragments := map p | p in fragments && Live(fragments[p], now) :: fragments[p];
      if m.packetId !in fragments {
        fragments := fragments[m.packetId := Empty(m, now)];
      }
      if |fragments[m.packetId].parts| != m.fragmentTotal {
        fragments := fragments[m.packetId := Empty(m, now)];
      }
      f := fragments[m.packetId].(updatedAt := now);
      if f.parts[m.fragmentId].None? {
        f := f.(parts := f.parts[m.fragmentId := Some(m.data)], received := f.received + 1);
      }
      fragments := fragments[m.packetId := f];
    }

    /** `feed`. The assertion is the removal the source unwraps; its two other unwraps, of filled
        slots, are the precondition of `Join`. */
    method FeedMessage(m: UdpMessage, now: nat) returns (answer: Result<Option<Packet>>)
      requires Invariant()
      modifies this
      ensures Invariant()
      ensures (fragments, answer) == Feed(old(fragments), m, now)
    {
      if m.fragmentTotal <= 1 {
        return Ok(Some(Packet(m.data, m.destination)));
      }
      if m.fragmentId >= m.fragmentTotal {
        return Ok(None);
      }
      ghost var swept := Sweep(fragments, now);
      AbsorbCounts(Lookup(swept, m.packetId), m, now);
      var f := Admit(m, now);
      if f.received != m.fragmentTotal {
        return Ok(None);
      }
      assert m.packetId in fragments;
      fragments := fragments - {m.packetId};
      assert fragments == swept - {m.packetId};
      answer := Join(f);
    }
  }

  /** Sum the lengths, refuse more than 4096 bytes, then concatenate slot by slot. */
  method Join(f: FragmentSet) returns (answer: Result<Option<Packet>>)
    requires forall i :: 0 <= i < |f.parts| ==> f.parts[i].Some?
    ensures answer == Assemble(f)
  {
    ghost var values := Values(f.parts);
    var length := 0;
    for i := 0 to |f.parts|
      invariant length == |Concat(values[..i])|
    {
      assert f.parts[i].Some?;
      assert values[..i + 1] == values[..i] + [values[i]];
      ConcatSnoc(values[..i], values[i]);
      length := length + |f.parts[i].value|;
    }
    assert values[..|f.parts|] == values;
    if length > MAX_UDP_SIZE {
      return Err(Protocol("Hysteria2 reassembled UDP packet exceeds 4096 bytes"));
    }
    var data := [];
    for i := 0 to |f.parts|
      invariant data == Concat(values[..i])
    {
      assert f.parts[i].Some?;
      assert values[..i + 1] == values[..i] + [values[i]];
      ConcatSnoc(values[..i], values[i]);
      data := data + f.parts[i].value;
    }
    return Ok(Some(Packet(data, f.destination)));
  }
}
