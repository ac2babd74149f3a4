/** What reassembly means, said without the stored sets: the fragments of an id that belong together form an epoch,
    and a packet comes out exactly when an epoch covers all indices. */
module ReassemblyEpochs {
  import opened Bytes
  import opened UdpFrames
  import opened Reassembly
  import opened ReassemblyRuns

  /** The first copy of an index. */
  function FirstCopy(epoch: seq<Arrival>, k: nat): Option<seq<byte>>
    decreases |epoch|
  {
    if epoch == [] then None
    else
      var before := FirstCopy(Init(epoch), k);
      if before.Some? then before
      else if Last(epoch).message.fragmentId == k then Some(Last(epoch).message.data) else None
  }

  function Total(epoch: seq<Arrival>): nat
    requires epoch != []
  {
    Last(epoch).message.fragmentTotal
  }

  /** Every index is there. */
  predicate Full(epoch: seq<Arrival>) {
    epoch != [] && forall k :: 0 <= k < Total(epoch) ==> FirstCopy(epoch, k).Some?
  }

  /** A fragment continues an epoch that is not full, within ten seconds of its last and with the same total. */
  predicate Continues(epoch: seq<Arrival>, a: Arrival) {
    && epoch != [] && !Full(epoch)
    && a.message.fragmentTotal == Total(epoch) && a.at - Last(epoch).at <= 10_000_000_000
  }

  /** The epoch that the last of these fragments, all of one id, belongs to. */
  function Epoch(sub: seq<Arrival>): (epoch: seq<Arrival>)
    ensures sub != [] ==> epoch != [] && Last(epoch) == Last(sub)
    ensures sub == [] ==> epoch == []
    decreases |sub|
  {
    if sub == [] then []
    else
      var before := Epoch(Init(sub));
      if Continues(before, Last(sub)) then before + [Last(sub)] else [Last(sub)]
  }

  function Copies(epoch: seq<Arrival>): (parts: seq<Option<seq<byte>>>)
    requires epoch != []
    ensures |parts| == Total(epoch)
    ensures forall k :: 0 <= k < |parts| ==> parts[k] == FirstCopy(epoch, k)
  {
    seq(Total(epoch), k requires 0 <= k < Total(epoch) => FirstCopy(epoch, k))
  }

  /** What a full epoch amounts to: its first copies in index order, bound for where its first fragment was going,
      unless that is more than 4096 bytes. */
  function Outcome(epoch: seq<Arrival>): Result<Option<Packet>>
    requires Full(epoch)
  {
    var data := Concat(Values(Copies(epoch)));
    if |data| > 4096 then Err(Protocol("Hysteria2 reassembled UDP packet exceeds 4096 bytes"))
    else Ok(Some(Packet(data, epoch[0].message.destination)))
  }

  /** The cell that holds an epoch. */
  predicate Holds(cell: Option<FragmentSet>, epoch: seq<Arrival>)
    requires epoch != []
  {
    if Full(epoch) then cell.None?
    else
      && cell.Some? && cell.value.parts == Copies(epoch)
      && cell.value.destination == epoch[0].message.destination && cell.value.updatedAt == Last(epoch).at
  }

  /** The set an arrival lands in holds exactly its epoch. */
  predicate Lands(f: FragmentSet, epoch: seq<Arrival>)
    requires epoch != []
  {
    f.parts == Copies(epoch) && f.destination == epoch[0].message.destination && f.updatedAt == Last(epoch).at
  }

  lemma CopySnoc(epoch: seq<Arrival>, a: Arrival, k: nat)
    ensures FirstCopy(epoch + [a], k) ==
            if FirstCopy(epoch, k).Some? then FirstCopy(epoch, k)
            else if a.message.fragmentId == k then Some(a.message.data) else None
  {
    assert Init(epoch + [a]) == epoch && Last(epoch + [a]) == a;
  }

  lemma LandsInNew(a: Arrival, cell: Option<FragmentSet>)
    requires IsFragment(a.message) && (cell.Some? ==> |cell.value.parts| != a.message.fragmentTotal)
    ensures Lands(Absorb(Target(cell, a.message, a.at), a.message, a.at), [a])
  {
    var f := Absorb(Target(cell, a.message, a.at), a.message, a.at);
    forall k | 0 <= k < a.message.fragmentTotal ensures f.parts[k] == FirstCopy([a], k) {
      CopySnoc([], a, k);
      assert [] + [a] == [a];
    }
    assert f.parts == Copies([a]);
  }

  lemma LandsInOld(epoch: seq<Arrival>, a: Arrival, cell: Option<FragmentSet>)
    requires IsFragment(a.message) && Continues(epoch, a) && Holds(cell, epoch)
    ensures Lands(Absorb(Target(cell, a.message, a.at), a.message, a.at), epoch + [a])
  {
    var f := Absorb(Target(cell, a.message, a.at), a.message, a.at);
    forall k | 0 <= k < a.message.fragmentTotal ensures f.parts[k] == FirstCopy(epoch + [a], k) {
      CopySnoc(epoch, a, k);
    }
    assert f.parts == Copies(epoch + [a]);
  }

  /** From the set to the answer. */
  lemma LandedAnswer(cell: Option<FragmentSet>, a: Arrival, epoch: seq<Arrival>)
    requires IsFragment(a.message) && CellValid(cell) && epoch != [] && Last(epoch) == a
    requires Lands(Absorb(Target(cell, a.message, a.at), a.message, a.at), epoch)
    ensures var (next, answer) := Step(cell, a.message, a.at);
            Holds(next, epoch) && answer == if Full(epoch) then Outcome(epoch) else Ok(None)
  {
    AbsorbCounts(cell, a.message, a.at);
    var f := Absorb(Target(cell, a.message, a.at), a.message, a.at);
    assert Full(epoch) <==> forall k :: 0 <= k < |f.parts| ==> f.parts[k].Some?;
  }

  /** One id with its own timer holds and answers as its epochs say. */
  lemma {:induction false} OwnEpochs(sub: seq<Arrival>)
    requires AllFragments(sub) && sub != []
    ensures Holds(OwnRun(None, sub), Epoch(sub))
    ensures OwnAnswer(None, sub) == if Full(Epoch(sub)) then Outcome(Epoch(sub)) else Ok(None)
    decreases |sub|
  {
    var init, a := Init(sub), Last(sub);
    var before := OwnRun(None, init);
    var cell := Aged(before, a.at);
    if init != [] {
      OwnEpochs(init);
    }
    if Continues(Epoch(init), a) {
      LandsInOld(Epoch(init), a, cell);
    } else {
      LandsInNew(a, cell);
    }
    LandedAnswer(cell, a, Epoch(sub));
  }

  /** For every trace and every clock that does not go back: a fragment is answered with nothing, unless it
      completes the epoch of its id, and then with what the epoch amounts to. */
  lemma ReassemblyExact(trace: seq<Arrival>, p: u16)
    requires Clocked(trace) && trace != [] && IsFor(Last(trace), p)
    ensures var epoch := Epoch(Filter(trace, p));
            Answer(map[], trace) == if Full(epoch) then Outcome(epoch) else Ok(None)
  {
    Independence(map[], trace, p);
    var sub := Filter(trace, p);
    assert sub != [] && Last(sub) == Last(trace);
    OwnEpochs(sub);
    var mine, own := AnswersTo(map[], trace, p), OwnAnswers(None, sub);
    assert mine[|mine| - 1] == Answer(map[], trace);
    assert own[|own| - 1] == OwnAnswer(None, sub);
  }

  /** A message that is not a fragment is a packet of its own, or, with an index beyond its total, nothing; the
      stored sets stay as they are either way. */
  lemma WholeMessages(start: Fragments, m: UdpMessage, now: nat)
    requires Valid(start)
    ensures m.fragmentTotal <= 1 ==> Feed(start, m, now) == (start, Ok(Some(Packet(m.data, m.destination))))
    ensures 1 < m.fragmentTotal <= m.fragmentId ==> Feed(start, m, now) == (start, Ok(None))
  {
  }

  /** After a fragment no set is stored, under any id, that has not been touched for more than ten seconds. */
  lemma OnlyFreshSetsStay(start: Fragments, m: UdpMessage, now: nat, p: u16)
    requires Valid(start) && IsFragment(m) && p in Feed(start, m, now).0
    ensures now - Feed(start, m, now).0[p].updatedAt <= 10_000_000_000
  {
  }
}
