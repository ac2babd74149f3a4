/** Whole runs of the reassembler: arbitrary messages, any interleaving of packet ids. */
module ReassemblyRuns {
  import opened Bytes
  import opened Addresses
  import opened UdpFrames
  import opened Reassembly

  datatype Arrival = Arrival(message: UdpMessage, at: nat)

  /** The clock never goes back. */
  predicate Clocked(trace: seq<Arrival>) {
    forall i, j :: 0 <= i < j < |trace| ==> trace[i].at <= trace[j].at
  }

  function Init(trace: seq<Arrival>): seq<Arrival>
    requires trace != []
  {
    trace[..|trace| - 1]
  }

  function Last(trace: seq<Arrival>): Arrival
    requires trace != []
  {
    trace[|trace| - 1]
  }

  function Now(trace: seq<Arrival>): nat {
    if trace == [] then 0 else Last(trace).at
  }

  /** The stored fragments after a trace. */
  function Run(start: Fragments, trace: seq<Arrival>): (r: Fragments)
    requires Valid(start)
    ensures Valid(r)
    decreases |trace|
  {
    if trace == [] then start else Feed(Run(start, Init(trace)), Last(trace).message, Last(trace).at).0
  }

  /** The answer to the last message of a trace. */
  function Answer(start: Fragments, trace: seq<Arrival>): Result<Option<Packet>>
    requires Valid(start) && trace != []
  {
    Feed(Run(start, Init(trace)), Last(trace).message, Last(trace).at).1
  }

  predicate IsFor(a: Arrival, p: u16) {
    IsFragment(a.message) && a.message.packetId == p
  }

  /** The fragments of one packet id, in order. */
  function Filter(trace: seq<Arrival>, p: u16): (sub: seq<Arrival>)
    ensures forall i :: 0 <= i < |sub| ==> IsFor(sub[i], p)
    decreases |trace|
  {
    if trace == [] then []
    else Filter(Init(trace), p) + (if IsFor(Last(trace), p) then [Last(trace)] else [])
  }

  /** The answers given to the fragments of one packet id, in order. */
  function AnswersTo(start: Fragments, trace: seq<Arrival>, p: u16): seq<Result<Option<Packet>>>
    requires Valid(start)
    decreases |trace|
  {
    if trace == [] then []
    else AnswersTo(start, Init(trace), p) + (if IsFor(Last(trace), p) then [Answer(start, trace)] else [])
  }

  // ---- the reference: one cell per packet id, which looks at its own timer only ----

  function Aged(cell: Option<FragmentSet>, now: nat): Option<FragmentSet> {
    if cell.Some? && !Live(cell.value, now) then None else cell
  }

  predicate CellValid(cell: Option<FragmentSet>) { cell.Some? ==> SetValid(cell.value) }

  predicate AllFragments(sub: seq<Arrival>) {
    forall i :: 0 <= i < |sub| ==> IsFragment(sub[i].message)
  }

  function OwnRun(cell: Option<FragmentSet>, sub: seq<Arrival>): (r: Option<FragmentSet>)
    requires CellValid(cell) && AllFragments(sub)
    ensures CellValid(r)
    decreases |sub|
  {
    if sub == [] then cell
    else Step(Aged(OwnRun(cell, Init(sub)), Last(sub).at), Last(sub).message, Last(sub).at).0
  }

  function OwnAnswer(cell: Option<FragmentSet>, sub: seq<Arrival>): Result<Option<Packet>>
    requires CellValid(cell) && AllFragments(sub) && sub != []
  {
    Step(Aged(OwnRun(cell, Init(sub)), Last(sub).at), Last(sub).message, Last(sub).at).1
  }

  function OwnAnswers(cell: Option<FragmentSet>, sub: seq<Arrival>): seq<Result<Option<Packet>>>
    requires CellValid(cell) && AllFragments(sub)
    decreases |sub|
  {
    if sub == [] then [] else OwnAnswers(cell, Init(sub)) + [OwnAnswer(cell, sub)]
  }

  /** The shared map and the reference cell agree, except that the sweep may already have dropped a
      set whose own timer has run out. */
  predicate Agrees(shared: Option<FragmentSet>, own: Option<FragmentSet>, now: nat) {
    shared == own || (shared.None? && own.Some? && !Live(own.value, now))
  }

  lemma AgreeStep(f: Fragments, m: UdpMessage, now: nat, p: u16, own: Option<FragmentSet>, before: nat)
    requires Valid(f) && CellValid(own) && Agrees(Lookup(f, p), own, before) && before <= now
    ensures var (g, answer) := Feed(f, m, now);
            if IsFragment(m) && m.packetId == p
            then Lookup(g, p) == Step(Aged(own, now), m, now).0 && answer == Step(Aged(own, now), m, now).1
            else Agrees(Lookup(g, p), own, now)
  {
    if IsFragment(m) {
      assert Lookup(Sweep(f, now), p) == Aged(own, now);
    }
  }

  /** One more arrival: the agreement carries over, and a fragment of `p` gets the reference's answer. */
  lemma Advance(start: Fragments, trace: seq<Arrival>, p: u16)
    requires Valid(start) && trace != [] && Now(Init(trace)) <= Last(trace).at
    requires Agrees(Lookup(Run(start, Init(trace)), p), OwnRun(Lookup(start, p), Filter(Init(trace), p)),
                    Now(Init(trace)))
    ensures Agrees(Lookup(Run(start, trace), p), OwnRun(Lookup(start, p), Filter(trace, p)), Now(trace))
    ensures IsFor(Last(trace), p) ==>
              && Filter(trace, p) != [] && Init(Filter(trace, p)) == Filter(Init(trace), p)
              && Answer(start, trace) == OwnAnswer(Lookup(start, p), Filter(trace, p))
  {
    var init, last := Init(trace), Last(trace);
    if IsFor(last, p) {
      assert Filter(trace, p) == Filter(init, p) + [last];
    } else {
      assert Filter(trace, p) == Filter(init, p);
    }
    AgreeStep(Run(start, init), last.message, last.at, p, OwnRun(Lookup(start, p), Filter(init, p)), Now(init));
  }

  /** The shared map with its global sweep refines independent cells: same answers, fragment by
      fragment, for every trace and every clock that does not go back. */
  lemma {:induction false} Independence(start: Fragments, trace: seq<Arrival>, p: u16)
    requires Valid(start) && Clocked(trace)
    ensures Agrees(Lookup(Run(start, trace), p), OwnRun(Lookup(start, p), Filter(trace, p)), Now(trace))
    ensures AnswersTo(start, trace, p) == OwnAnswers(Lookup(start, p), Filter(trace, p))
    decreases |trace|
  {
    if trace != [] {
      ClockedInit(trace);
      Independence(start, Init(trace), p);
      Advance(start, trace, p);
      AnswersExtend(start, trace, p);
    }
  }

  lemma ClockedInit(trace: seq<Arrival>)
    requires Clocked(trace) && trace != []
    ensures Clocked(Init(trace)) && Now(Init(trace)) <= Last(trace).at
  {
  }

  lemma AnswersExtend(start: Fragments, trace: seq<Arrival>, p: u16)
    requires Valid(start) && trace != []
    requires AnswersTo(start, Init(trace), p) == OwnAnswers(Lookup(start, p), Filter(Init(trace), p))
    requires IsFor(Last(trace), p) ==>
               && Filter(trace, p) != [] && Init(Filter(trace, p)) == Filter(Init(trace), p)
               && Answer(start, trace) == OwnAnswer(Lookup(start, p), Filter(trace, p))
    ensures AnswersTo(start, trace, p) == OwnAnswers(Lookup(start, p), Filter(trace, p))
  {
    if !IsFor(Last(trace), p) {
      assert Filter(trace, p) == Filter(Init(trace), p);
    }
  }

  /** Traffic on other packet ids never changes a result. */
  lemma OtherIdsDoNotMatter(start: Fragments, other: Fragments, trace: seq<Arrival>, trace': seq<Arrival>, p: u16)
    requires Valid(start) && Valid(other) && Clocked(trace) && Clocked(trace')
    requires Filter(trace, p) == Filter(trace', p) && Lookup(start, p) == Lookup(other, p)
    ensures AnswersTo(start, trace, p) == AnswersTo(other, trace', p)
  {
    Independence(start, trace, p);
    Independence(other, trace', p);
  }

  // ---- provenance ----

  /** A message for slot k of a packet with that id and number of fragments. */
  predicate CarriesIndex(m: UdpMessage, p: u16, total: nat, k: nat) {
    m.packetId == p && m.fragmentTotal == total && m.fragmentId == k
  }

  /** `stamps[k]` is the arrival that filled slot k; `first` is the slot filled first. */
  predicate Traced(trace: seq<Arrival>, p: u16, f: FragmentSet, stamps: seq<nat>, first: nat) {
    && |stamps| == |f.parts|
    && (forall k :: 0 <= k < |stamps| && f.parts[k].Some? ==>
          && stamps[k] < |trace|
          && CarriesIndex(trace[stamps[k]].message, p, |f.parts|, k)
          && trace[stamps[k]].message.data == f.parts[k].value)
    && first < |f.parts| && f.parts[first].Some?
    && (forall k :: 0 <= k < |stamps| && f.parts[k].Some? ==> stamps[first] <= stamps[k])
    && trace[stamps[first]].message.destination == f.destination
  }

  /** When the last fragment of the id came. */
  function LastAt(trace: seq<Arrival>, p: u16): nat
    decreases |trace|
  {
    if trace == [] then 0 else if IsFor(Last(trace), p) then Last(trace).at else LastAt(Init(trace), p)
  }

  /** From arrival `from` on, all fragments of the id announce that total, and none comes more than ten seconds
      after the one before it. */
  predicate Steady(trace: seq<Arrival>, p: u16, from: nat, total: nat)
    decreases |trace|
  {
    && from < |trace|
    && (IsFor(Last(trace), p) ==> Last(trace).message.fragmentTotal == total)
    && (from == |trace| - 1 ==> IsFor(Last(trace), p))
    && (from < |trace| - 1 ==>
          && Steady(Init(trace), p, from, total)
          && (IsFor(Last(trace), p) ==> Last(trace).at - LastAt(Init(trace), p) <= 10_000_000_000))
  }

  /** The set began with arrival `from`, and has taken in every fragment of its id since, the first copy of each. */
  predicate Kept(trace: seq<Arrival>, p: u16, f: FragmentSet, stamps: seq<nat>, from: nat) {
    && |stamps| == |f.parts| && Steady(trace, p, from, |f.parts|) && f.updatedAt == LastAt(trace, p)
    && forall x :: from <= x < |trace| && IsFor(trace[x], p) ==> TakenIn(trace[x].message, f, stamps, x)
  }

  predicate TakenIn(m: UdpMessage, f: FragmentSet, stamps: seq<nat>, x: nat)
    requires |stamps| == |f.parts|
  {
    m.fragmentId < |f.parts| && f.parts[m.fragmentId].Some? && stamps[m.fragmentId] <= x
  }

  lemma KeptNew(trace: seq<Arrival>, stamps: seq<nat>)
    requires trace != [] && IsFragment(Last(trace).message) && |stamps| == Last(trace).message.fragmentTotal
    requires stamps[Last(trace).message.fragmentId] == |trace| - 1
    ensures var m, now := Last(trace).message, Last(trace).at;
            Kept(trace, m.packetId, Absorb(Empty(m, now), m, now), stamps, |trace| - 1)
  {
  }

  lemma KeptOn(trace: seq<Arrival>, f: FragmentSet, stamps: seq<nat>, stamps': seq<nat>, from: nat)
    requires trace != [] && IsFragment(Last(trace).message) && |f.parts| == Last(trace).message.fragmentTotal
    requires Kept(Init(trace), Last(trace).message.packetId, f, stamps, from) && Live(f, Last(trace).at)
    requires stamps' == if f.parts[Last(trace).message.fragmentId].Some? then stamps
                        else stamps[Last(trace).message.fragmentId := |trace| - 1]
    requires f.parts[Last(trace).message.fragmentId].Some? ==> stamps[Last(trace).message.fragmentId] < |trace|
    ensures var m, now := Last(trace).message, Last(trace).at;
            Kept(trace, m.packetId, Absorb(f, m, now), stamps', from)
  {
    var m, p := Last(trace).message, Last(trace).message.packetId;
    var g := Absorb(f, m, Last(trace).at);
    forall x | from <= x < |trace| && IsFor(trace[x], p) ensures TakenIn(trace[x].message, g, stamps', x) {
      if x < |trace| - 1 {
        assert Init(trace)[x] == trace[x] && TakenIn(trace[x].message, f, stamps, x);
      }
    }
  }

  lemma KeptSkips(trace: seq<Arrival>, p: u16, f: FragmentSet, stamps: seq<nat>, from: nat)
    requires trace != [] && !IsFor(Last(trace), p) && Kept(Init(trace), p, f, stamps, from)
    ensures Kept(trace, p, f, stamps, from)
  {
    forall x | from <= x < |trace| && IsFor(trace[x], p) ensures TakenIn(trace[x].message, f, stamps, x) {
      assert Init(trace)[x] == trace[x];
    }
  }

  lemma TracedStep(trace: seq<Arrival>, cell: Option<FragmentSet>, stamps: seq<nat>, first: nat)
    returns (stamps': seq<nat>, first': nat)
    requires trace != [] && IsFragment(Last(trace).message) && CellValid(cell)
    requires cell.Some? ==> Live(cell.value, Last(trace).at)
    requires cell.Some? ==>
               && Traced(Init(trace), Last(trace).message.packetId, cell.value, stamps, first)
               && Kept(Init(trace), Last(trace).message.packetId, cell.value, stamps, stamps[first])
    ensures var m, now := Last(trace).message, Last(trace).at;
            var f := Absorb(Target(cell, m, now), m, now);
            Traced(trace, m.packetId, f, stamps', first') && Kept(trace, m.packetId, f, stamps', stamps'[first'])
  {
    var m, now := Last(trace).message, Last(trace).at;
    var t := Target(cell, m, now);
    if cell.None? || |cell.value.parts| != m.fragmentTotal {
      stamps', first' := seq(m.fragmentTotal, _ => |trace| - 1), m.fragmentId;
      KeptNew(trace, stamps');
    } else {
      first' := first;
      stamps' := if t.parts[m.fragmentId].Some? then stamps else stamps[m.fragmentId := |trace| - 1];
      KeptOn(trace, t, stamps, stamps', stamps[first]);
    }
  }

  lemma TracedSkips(trace: seq<Arrival>, p: u16, f: FragmentSet, stamps: seq<nat>, first: nat)
    requires trace != [] && !IsFor(Last(trace), p) && Traced(Init(trace), p, f, stamps, first)
    requires Kept(Init(trace), p, f, stamps, stamps[first])
    ensures Traced(trace, p, f, stamps, first) && Kept(trace, p, f, stamps, stamps[first])
  {
    KeptSkips(trace, p, f, stamps, stamps[first]);
  }

  lemma OtherMessageKeeps(start: Fragments, m: UdpMessage, now: nat, p: u16)
    requires Valid(start) && !(IsFragment(m) && m.packetId == p)
    ensures p in Feed(start, m, now).0 ==> p in start && Feed(start, m, now).0[p] == start[p]
  {
  }

  /** Every stored set can be traced back to the arrivals that filled it: it has taken in all fragments of its id
      since it began, none of them more than ten seconds after the one before. */
  lemma {:induction false} StoredProvenance(trace: seq<Arrival>, p: u16) returns (stamps: seq<nat>, first: nat)
    ensures p in Run(map[], trace) ==>
              && Traced(trace, p, Run(map[], trace)[p], stamps, first)
              && Kept(trace, p, Run(map[], trace)[p], stamps, stamps[first])
    decreases |trace|
  {
    stamps, first := [], 0;
    if trace != [] {
      stamps, first := StoredProvenance(Init(trace), p);
      var before := Run(map[], Init(trace));
      if IsFor(Last(trace), p) {
        stamps, first := TracedStep(trace, Lookup(Sweep(before, Last(trace).at), p), stamps, first);
      } else {
        OtherMessageKeeps(before, Last(trace).message, Last(trace).at, p);
        if p in Run(map[], trace) {
          TracedSkips(trace, p, before[p], stamps, first);
        }
      }
    }
  }

  /** Arrivals x and y are fragments of the id with none in between. */
  predicate Consecutive(trace: seq<Arrival>, p: u16, x: nat, y: nat) {
    && x < y < |trace| && IsFor(trace[x], p) && IsFor(trace[y], p)
    && forall z :: x < z < y ==> !IsFor(trace[z], p)
  }

  lemma {:induction false} LastAtIs(trace: seq<Arrival>, p: u16, x: nat)
    requires x < |trace| && IsFor(trace[x], p) && forall z :: x < z < |trace| ==> !IsFor(trace[z], p)
    ensures LastAt(trace, p) == trace[x].at
    decreases |trace|
  {
    if x < |trace| - 1 {
      assert forall z :: 0 <= z < |Init(trace)| ==> Init(trace)[z] == trace[z];
      LastAtIs(Init(trace), p, x);
    }
  }

  lemma {:induction false} SteadyMeans(trace: seq<Arrival>, p: u16, from: nat, total: nat, x: nat, y: nat)
    requires Steady(trace, p, from, total) && from <= x && Consecutive(trace, p, x, y)
    ensures trace[x].message.fragmentTotal == trace[y].message.fragmentTotal == total
    ensures trace[y].at - trace[x].at <= 10_000_000_000
    decreases |trace|
  {
    var init := Init(trace);
    assert forall z :: 0 <= z < |init| ==> init[z] == trace[z];
    if y < |trace| - 1 {
      SteadyMeans(init, p, from, total, x, y);
    } else {
      LastAtIs(init, p, x);
      TotalOf(init, p, from, total, x);
    }
  }

  lemma {:induction false} TotalOf(trace: seq<Arrival>, p: u16, from: nat, total: nat, x: nat)
    requires Steady(trace, p, from, total) && from <= x < |trace| && IsFor(trace[x], p)
    ensures trace[x].message.fragmentTotal == total
    decreases |trace|
  {
    if x < |trace| - 1 {
      TotalOf(Init(trace), p, from, total, x);
    }
  }

  /** The set the last fragment of a trace lands in, with that fragment. */
  function LastSet(trace: seq<Arrival>): (f: FragmentSet)
    requires trace != [] && IsFragment(Last(trace).message)
    ensures |f.parts| == Last(trace).message.fragmentTotal
  {
    var m, now := Last(trace).message, Last(trace).at;
    Absorb(Target(Lookup(Sweep(Run(map[], Init(trace)), now), m.packetId), m, now), m, now)
  }

  predicate Complete(f: FragmentSet) { forall k :: 0 <= k < |f.parts| ==> f.parts[k].Some? }

  /** The last fragment is answered with nothing until it completes its set, and then with what the set holds. */
  lemma LastAnswer(trace: seq<Arrival>)
    requires trace != [] && IsFragment(Last(trace).message)
    ensures Answer(map[], trace) == if Complete(LastSet(trace)) then Assemble(LastSet(trace)) else Ok(None)
  {
    var m, now := Last(trace).message, Last(trace).at;
    AbsorbCounts(Lookup(Sweep(Run(map[], Init(trace)), now), m.packetId), m, now);
  }

  /** Messages at the given places, one per index, with their data in index order. */
  function DataAt(trace: seq<Arrival>, stamps: seq<nat>): seq<seq<byte>>
    requires forall k :: 0 <= k < |stamps| ==> stamps[k] < |trace|
  {
    seq(|stamps|, k requires 0 <= k < |stamps| => trace[stamps[k]].message.data)
  }

  /** A complete set holds one earlier message per index. */
  lemma CompletionProvenance(trace: seq<Arrival>) returns (stamps: seq<nat>, first: nat)
    requires trace != [] && IsFragment(Last(trace).message) && Complete(LastSet(trace))
    ensures Traced(trace, Last(trace).message.packetId, LastSet(trace), stamps, first)
    ensures Kept(trace, Last(trace).message.packetId, LastSet(trace), stamps, stamps[first])
    ensures Values(LastSet(trace).parts) == DataAt(trace, stamps)
  {
    var m, now := Last(trace).message, Last(trace).at;
    stamps, first := StoredProvenance(Init(trace), m.packetId);
    stamps, first := TracedStep(trace, Lookup(Sweep(Run(map[], Init(trace)), now), m.packetId), stamps, first);
  }

  /** A delivered packet is the concatenation, in index order, of one earlier message per index; it is at most
      4096 bytes long and goes where the first of those messages was going. Since that first one, all fragments of
      the id announced the same total, each index is taken from its first copy, and none came more than ten seconds
      after the one before it. */
  lemma DeliveryProvenance(trace: seq<Arrival>) returns (stamps: seq<nat>, first: nat)
    requires trace != [] && IsFragment(Last(trace).message)
    requires Answer(map[], trace).Ok? && Answer(map[], trace).value.Some?
    ensures var m, packet := Last(trace).message, Answer(map[], trace).value.value;
            && |stamps| == m.fragmentTotal
            && (forall k :: 0 <= k < |stamps| ==>
                  stamps[k] < |trace| && CarriesIndex(trace[stamps[k]].message, m.packetId, m.fragmentTotal, k))
            && (forall j, k :: 0 <= j < k < |stamps| ==> stamps[j] != stamps[k])
            && packet.data == Concat(DataAt(trace, stamps))
            && |packet.data| <= 4096
            && first < |stamps| && (forall k :: 0 <= k < |stamps| ==> stamps[first] <= stamps[k])
            && packet.destination == trace[stamps[first]].message.destination
    ensures GathersSince(trace, Last(trace).message.packetId, stamps, stamps[first])
  {
    LastAnswer(trace);
    stamps, first := CompletionProvenance(trace);
    forall j, k | 0 <= j < k < |stamps| ensures stamps[j] != stamps[k] {
      assert trace[stamps[j]].message.fragmentId == j && trace[stamps[k]].message.fragmentId == k;
    }
    Gathers(trace, Last(trace).message.packetId, LastSet(trace), stamps, stamps[first]);
  }

  /** Since arrival `from`, the fragments of the id all announced that total, each came within ten seconds of the
      one before it, and each index is taken from its first copy. */
  predicate GathersSince(trace: seq<Arrival>, p: u16, stamps: seq<nat>, from: nat) {
    && (forall x, y :: from <= x < y < |trace| && Consecutive(trace, p, x, y) ==>
          && trace[x].message.fragmentTotal == trace[y].message.fragmentTotal == |stamps|
          && trace[y].at - trace[x].at <= 10_000_000_000)
    && (forall x :: from <= x < |trace| && IsFor(trace[x], p) ==>
          trace[x].message.fragmentId < |stamps| && stamps[trace[x].message.fragmentId] <= x)
  }

  lemma Gathers(trace: seq<Arrival>, p: u16, f: FragmentSet, stamps: seq<nat>, from: nat)
    requires Kept(trace, p, f, stamps, from)
    ensures GathersSince(trace, p, stamps, from)
  {
    forall x: nat, y: nat | from <= x && Consecutive(trace, p, x, y)
      ensures trace[x].message.fragmentTotal == trace[y].message.fragmentTotal == |stamps|
      ensures trace[y].at - trace[x].at <= 10_000_000_000
    {
      SteadyMeans(trace, p, from, |stamps|, x, y);
    }
    forall x | from <= x < |trace| && IsFor(trace[x], p)
      ensures trace[x].message.fragmentId < |stamps| && stamps[trace[x].message.fragmentId] <= x
    {
      assert TakenIn(trace[x].message, f, stamps, x);
    }
  }

  /** A fragment that comes more than ten seconds after the one before it under its id is treated as the first of
      its packet: answer and stored set are those it would have at an empty reassembler. */
  lemma StaleSetsAreGone(trace: seq<Arrival>, p: u16)
    requires trace != [] && IsFor(Last(trace), p) && Last(trace).at - LastAt(Init(trace), p) > 10_000_000_000
    ensures Answer(map[], trace) == Answer(map[], [Last(trace)])
    ensures Lookup(Run(map[], trace), p) == Lookup(Run(map[], [Last(trace)]), p)
  {
    var stamps, first := StoredProvenance(Init(trace), p);
    var alone := [Last(trace)];
    assert Init(alone) == [] && Last(alone) == Last(trace);
    assert Lookup(Sweep(Run(map[], Init(trace)), Last(trace).at), p) == None;
    assert Lookup(Sweep(Run(map[], Init(alone)), Last(trace).at), p) == None;
  }

  // ---- conservation ----

  /** Packets delivered for a packet id and fragment count. */
  function Deliveries(trace: seq<Arrival>, p: u16, total: nat): nat
    decreases |trace|
  {
    if trace == [] then 0
    else
      var answer := Answer(map[], trace);
      Deliveries(Init(trace), p, total) +
        if IsFor(Last(trace), p) && Last(trace).message.fragmentTotal == total && answer.Ok? && answer.value.Some?
        then 1 else 0
  }

  /** Copies fed of one index of that packet. */
  function Copies(trace: seq<Arrival>, p: u16, total: nat, k: nat): nat
    decreases |trace|
  {
    if trace == [] then 0
    else
      var m := Last(trace).message;
      Copies(Init(trace), p, total, k) +
        if IsFor(Last(trace), p) && m.fragmentTotal == total && m.fragmentId == k then 1 else 0
  }

  /** 1 when a stored set of that packet already holds the index. */
  function Held(cell: Option<FragmentSet>, total: nat, k: nat): nat {
    if cell.Some? && |cell.value.parts| == total && k < total && cell.value.parts[k].Some? then 1 else 0
  }

  lemma ConservationStep(cell: Option<FragmentSet>, m: UdpMessage, now: nat, total: nat, k: nat)
    requires CellValid(cell) && IsFragment(m) && k < total
    ensures var (next, answer) := Step(cell, m, now);
            Held(next, total, k) + (if m.fragmentTotal == total && answer.Ok? && answer.value.Some? then 1 else 0)
            <= Held(cell, total, k) + (if m.fragmentTotal == total && m.fragmentId == k then 1 else 0)
  {
    AbsorbCounts(cell, m, now);
    var f := Absorb(Target(cell, m, now), m, now);
    if m.fragmentTotal == total && f.parts[k].Some? {
      assert Held(cell, total, k) == 1 || m.fragmentId == k;
    }
  }

  /** No fragment is used twice: deliveries never exceed the copies fed of any index. */
  lemma {:induction false} Conservation(trace: seq<Arrival>, p: u16, total: nat, k: nat)
    requires k < total
    ensures Deliveries(trace, p, total) + Held(Lookup(Run(map[], trace), p), total, k) <= Copies(trace, p, total, k)
    decreases |trace|
  {
    if trace != [] {
      Conservation(Init(trace), p, total, k);
      if IsFor(Last(trace), p) {
        var swept := Sweep(Run(map[], Init(trace)), Last(trace).at);
        ConservationStep(Lookup(swept, p), Last(trace).message, Last(trace).at, total, k);
      }
    }
  }

  // ---- the fragments of one packet ----

  /** A packet cut into pieces under an id. */
  datatype Cut = Cut(id: u16, pieces: seq<seq<byte>>, destination: Address)

  /** The answer to a packet that is all there. A single message is not measured. */
  function Whole(c: Cut): Result<Option<Packet>> {
    if |c.pieces| > 1 && |Concat(c.pieces)| > 4096
    then Err(Protocol("Hysteria2 reassembled UDP packet exceeds 4096 bytes"))
    else Ok(Some(Packet(Concat(c.pieces), c.destination)))
  }

  /** A copy of one of the fragments of a packet cut into `pieces`. */
  predicate CopyOf(m: UdpMessage, p: u16, pieces: seq<seq<byte>>, destination: Address) {
    && m.packetId == p && m.fragmentTotal == |pieces| && m.fragmentId < |pieces|
    && m.destination == destination && m.data == pieces[m.fragmentId]
  }

  function Seen(sub: seq<Arrival>): set<nat>
    decreases |sub|
  {
    if sub == [] then {} else Seen(Init(sub)) + {Last(sub).message.fragmentId as nat}
  }

  predicate Covers(sub: seq<Arrival>, total: nat) {
    forall k: nat :: k < total ==> k in Seen(sub)
  }

  predicate Prompt(sub: seq<Arrival>) {
    forall i :: 0 < i < |sub| ==> sub[i].at - sub[i - 1].at <= FRAGMENT_LIFETIME
  }

  /** The slots filled by the indices seen so far. */
  function Image(pieces: seq<seq<byte>>, seen: set<nat>): (parts: seq<Option<seq<byte>>>)
    ensures |parts| == |pieces|
  {
    seq(|pieces|, k requires 0 <= k < |pieces| => if k in seen then Some(pieces[k]) else None)
  }

  lemma AbsorbImage(cell: Option<FragmentSet>, seen: set<nat>, m: UdpMessage, now: nat, p: u16,
                    pieces: seq<seq<byte>>, destination: Address)
    requires IsFragment(m) && CopyOf(m, p, pieces, destination)
    requires cell.None? ==> seen == {}
    requires cell.Some? ==> cell.value.parts == Image(pieces, seen) && cell.value.destination == destination
    ensures var f := Absorb(Target(cell, m, now), m, now);
            && f.parts == Image(pieces, seen + {m.fragmentId as nat})
            && f.destination == destination && f.updatedAt == now
  {
    assert Target(cell, m, now).parts == Image(pieces, seen);
  }

  /** What one reference cell holds and answers while copies of one packet arrive. */
  predicate Collecting(cell: Option<FragmentSet>, sub: seq<Arrival>, pieces: seq<seq<byte>>, destination: Address)
    requires sub != []
  {
    && cell.Some?
    && cell.value.parts == Image(pieces, Seen(sub))
    && cell.value.destination == destination
    && cell.value.updatedAt == Last(sub).at
  }

  lemma CoversGrows(sub: seq<Arrival>, total: nat)
    requires sub != [] && !Covers(sub, total)
    ensures !Covers(Init(sub), total)
  {
    var k: nat :| k < total && k !in Seen(sub);
    assert k !in Seen(Init(sub));
  }

  lemma {:induction false} OwnIdentity(cell: Option<FragmentSet>, sub: seq<Arrival>, p: u16,
                                       pieces: seq<seq<byte>>, destination: Address)
    requires CellValid(cell) && AllFragments(sub) && sub != [] && 2 <= |pieces| <= 255
    requires forall i :: 0 <= i < |sub| ==> CopyOf(sub[i].message, p, pieces, destination)
    requires Prompt(sub) && Aged(cell, sub[0].at).None? && !Covers(Init(sub), |pieces|)
    ensures !Covers(sub, |pieces|) ==>
              OwnAnswer(cell, sub) == Ok(None) && Collecting(OwnRun(cell, sub), sub, pieces, destination)
    ensures Covers(sub, |pieces|) ==> OwnAnswer(cell, sub) == Whole(Cut(p, pieces, destination))
    decreases |sub|
  {
    var init, m, now := Init(sub), Last(sub).message, Last(sub).at;
    var before := Aged(OwnRun(cell, init), now);
    if init != [] {
      CoversGrows(init, |pieces|);
      OwnIdentity(cell, init, p, pieces, destination);
    }
    AbsorbImage(before, Seen(init), m, now, p, pieces, destination);
    AbsorbCounts(before, m, now);
    var f := Absorb(Target(before, m, now), m, now);
    assert f.parts == Image(pieces, Seen(sub));
    if Covers(sub, |pieces|) {
      FullImage(pieces, Seen(sub));
    } else {
      var k: nat :| k < |pieces| && k !in Seen(sub);
      assert f.parts[k].None?;
    }
  }

  lemma FullImage(pieces: seq<seq<byte>>, seen: set<nat>)
    requires forall k: nat :: k < |pieces| ==> k in seen
    ensures forall k :: 0 <= k < |pieces| ==> Image(pieces, seen)[k].Some?
    ensures Values(Image(pieces, seen)) == pieces
  {
  }

  /** Fragments of one packet, fed in any order, repeated and interleaved with anything under other ids,
      yield nothing until the last missing index arrives, and then exactly the packet, or the error that it is
      too long. */
  lemma Identity(start: Fragments, trace: seq<Arrival>, p: u16, pieces: seq<seq<byte>>, destination: Address)
    requires Valid(start) && Clocked(trace) && trace != [] && IsFor(Last(trace), p) && 2 <= |pieces| <= 255
    requires var sub := Filter(trace, p);
             && (forall i :: 0 <= i < |sub| ==> CopyOf(sub[i].message, p, pieces, destination))
             && Prompt(sub) && Aged(Lookup(start, p), sub[0].at).None?
             && !Covers(Init(sub), |pieces|)
    ensures !Covers(Filter(trace, p), |pieces|) ==> Answer(start, trace) == Ok(None)
    ensures Covers(Filter(trace, p), |pieces|) ==> Answer(start, trace) == Whole(Cut(p, pieces, destination))
  {
    Independence(start, trace, p);
    var sub := Filter(trace, p);
    OwnIdentity(Lookup(start, p), sub, p, pieces, destination);
    var mine, own := AnswersTo(start, trace, p), OwnAnswers(Lookup(start, p), sub);
    assert mine[|mine| - 1] == Answer(start, trace);
    assert own[|own| - 1] == OwnAnswer(Lookup(start, p), sub);
  }

  lemma FilterSnoc(trace: seq<Arrival>, a: Arrival, p: u16)
    requires IsFor(a, p)
    ensures Filter(trace + [a], p) == Filter(trace, p) + [a]
  {
    assert Init(trace + [a]) == trace;
  }

  lemma {:induction false} FilterPrefix(trace: seq<Arrival>, p: u16, n: nat)
    requires n <= |trace| && forall x :: 0 <= x < |trace| ==> IsFor(trace[x], p)
    ensures Filter(trace[..n], p) == trace[..n]
    decreases n
  {
    if n > 0 {
      FilterPrefix(trace, p, n - 1);
      SplitAt(trace, n - 1);
      FilterSnoc(trace[..n - 1], trace[n - 1], p);
    }
  }

  lemma FilterAll(trace: seq<Arrival>, p: u16)
    requires forall x :: 0 <= x < |trace| ==> IsFor(trace[x], p)
    ensures Filter(trace, p) == trace
  {
    FilterPrefix(trace, p, |trace|);
    assert trace[..|trace|] == trace;
  }

  lemma {:induction false} InSeen(sub: seq<Arrival>, k: nat)
    ensures k in Seen(sub) <==> exists x :: 0 <= x < |sub| && sub[x].message.fragmentId == k
    decreases |sub|
  {
    if sub != [] {
      InSeen(Init(sub), k);
      assert forall x :: 0 <= x < |Init(sub)| ==> Init(sub)[x] == sub[x];
    }
  }

  lemma {:induction false} SeenInOrder(trace: seq<Arrival>)
    requires trace != [] && forall x :: 0 <= x < |trace| ==> trace[x].message.fragmentId == x
    ensures Covers(trace, |trace|) && !Covers(Init(trace), |trace|)
  {
    forall k: nat | k < |trace| ensures k in Seen(trace) {
      InSeen(trace, k);
      assert trace[k].message.fragmentId == k;
    }
    InSeen(Init(trace), |trace| - 1);
    assert forall x :: 0 <= x < |Init(trace)| ==> Init(trace)[x] == trace[x];
  }

  // ---- the fragments of many packets ----

  /** Arrival x is a copy of a fragment of the packet `origin[x]`. */
  predicate CopiesOfCuts(cuts: seq<Cut>, origin: seq<nat>, trace: seq<Arrival>) {
    && |origin| == |trace|
    && forall x :: 0 <= x < |trace| ==>
         && origin[x] < |cuts|
         && var c := cuts[origin[x]]; CopyOf(trace[x].message, c.id, c.pieces, c.destination)
  }

  /** The pieces taken in index order from copies of one packet's fragments. */
  lemma CopiesAssemble(c: Cut, trace: seq<Arrival>, stamps: seq<nat>)
    requires |stamps| == |c.pieces| && forall k :: 0 <= k < |stamps| ==> stamps[k] < |trace|
    requires forall k :: 0 <= k < |stamps| ==> CopyOf(trace[stamps[k]].message, c.id, c.pieces, c.destination)
    requires forall k :: 0 <= k < |stamps| ==> CarriesIndex(trace[stamps[k]].message, c.id, |stamps|, k)
    ensures DataAt(trace, stamps) == c.pieces
  {
  }

  lemma SetOfOneCut(cuts: seq<Cut>, origin: seq<nat>, trace: seq<Arrival>)
    requires CopiesOfCuts(cuts, origin, trace) && trace != [] && IsFragment(Last(trace).message)
    requires forall i, j :: 0 <= i < j < |cuts| ==> cuts[i].id != cuts[j].id
    requires Complete(LastSet(trace))
    ensures Assemble(LastSet(trace)) == Whole(cuts[origin[|trace| - 1]])
  {
    var m, c := Last(trace).message, cuts[origin[|trace| - 1]];
    var stamps, first := CompletionProvenance(trace);
    forall k | 0 <= k < |stamps| ensures cuts[origin[stamps[k]]] == c {
      assert trace[stamps[k]].message.packetId == m.packetId;
    }
    CopiesAssemble(c, trace, stamps);
  }

  /** Fragments of packets with different ids, lost, repeated, reordered and delayed at will, never mix: the
      last arrival yields nothing or the packet it belongs to, and fails only if that packet is too long. */
  lemma NothingElseArrives(cuts: seq<Cut>, origin: seq<nat>, trace: seq<Arrival>)
    requires CopiesOfCuts(cuts, origin, trace) && trace != []
    requires forall i, j :: 0 <= i < j < |cuts| ==> cuts[i].id != cuts[j].id
    ensures var c := cuts[origin[|trace| - 1]];
            Answer(map[], trace) == Ok(None) || Answer(map[], trace) == Whole(c)
  {
    var m, c := Last(trace).message, cuts[origin[|trace| - 1]];
    if m.fragmentTotal == 1 {
      assert c.pieces[1..] == [] && Concat(c.pieces) == c.pieces[0] + Concat(c.pieces[1..]) == m.data;
      assert Answer(map[], trace) == Ok(Some(Packet(m.data, m.destination)));
    } else {
      LastAnswer(trace);
      if Complete(LastSet(trace)) {
        SetOfOneCut(cuts, origin, trace);
      }
    }
  }

  /** Copies of fragments of these packets, each from one or another. */
  lemma {:induction false} ChooseOrigins(cuts: seq<Cut>, trace: seq<Arrival>) returns (origin: seq<nat>)
    requires forall x :: 0 <= x < |trace| ==> OfCuts(cuts, trace[x].message)
    ensures CopiesOfCuts(cuts, origin, trace)
    decreases |trace|
  {
    origin := [];
    if trace != [] {
      origin := ChooseOrigins(cuts, Init(trace));
      assert OfCuts(cuts, Last(trace).message);
      var i :| 0 <= i < |cuts| && CopyOf(Last(trace).message, cuts[i].id, cuts[i].pieces, cuts[i].destination);
      origin := origin + [i];
    }
  }

  predicate OfCuts(cuts: seq<Cut>, m: UdpMessage) {
    exists i :: 0 <= i < |cuts| && CopyOf(m, cuts[i].id, cuts[i].pieces, cuts[i].destination)
  }
}
