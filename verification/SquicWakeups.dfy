/** No lost wake-up in `IncomingUdpRegistry::wait` (src/shadowquic/mod.rs), under every interleaving. */
module SquicWakeups {
  import opened Bytes
  import opened SquicOutbound
  import opened SquicRegistry
  import opened SquicMachine

  /** A `register` of this id sits between its insert and its notify. */
  predicate Registering(s: State, id: u16) {
    exists j :: 0 <= j < |s.tasks| && s.tasks[j].phase.Notifying? && s.tasks[j].phase.id == id
  }

  /** A waiter that missed the route and has not been notified since. */
  predicate MissedOk(s: State, id: u16, generation: nat) {
    generation <= s.reg.generation &&
    (generation == s.reg.generation && id in s.reg.routes ==> Registering(s, id))
  }

  predicate WaiterOk(s: State, phase: Phase) {
    match phase
    case LookingUp(id, generation) => generation <= s.reg.generation
    case Checking(id, generation) => MissedOk(s, id, generation)
    case Parked(id, generation) =>
      MissedOk(s, id, generation) && (generation == s.reg.generation && s.reg.closed ==> s.closing.Stored?)
    case _ => true
  }

  predicate Inv(s: State) {
    && (forall i :: 0 <= i < |s.tasks| ==> WaiterOk(s, s.tasks[i].phase))
    && (s.reg.closed <==> !s.closing.NotClosing?)
  }

  /** Task i moved; routes were only taken away or added under a pending notify; nobody else stopped
      registering, unless everybody was notified. */
  lemma Moves(s: State, r: State, i: nat)
    requires Inv(s) && i < |s.tasks| == |r.tasks| && r.tasks == s.tasks[i := r.tasks[i]]
    requires WaiterOk(r, r.tasks[i].phase)
    requires r.reg.closed == s.reg.closed && r.closing == s.closing
    requires r.reg.generation > s.reg.generation
          || (r.reg.generation == s.reg.generation && !s.tasks[i].phase.Notifying?
              && forall id | id in r.reg.routes :: id in s.reg.routes || Registering(r, id))
    ensures Inv(r)
  {
    forall j | 0 <= j < |r.tasks| ensures WaiterOk(r, r.tasks[j].phase) {
      if j != i {
        assert WaiterOk(s, s.tasks[j].phase);
        if r.reg.generation == s.reg.generation {
          forall id: u16 | Registering(s, id) ensures Registering(r, id) {
            var k :| 0 <= k < |s.tasks| && s.tasks[k].phase.Notifying? && s.tasks[k].phase.id == id;
            assert r.tasks[k] == s.tasks[k];
          }
        }
      }
    }
  }

  lemma AdvanceKeeps(c: Config, s: State, i: nat)
    requires Inv(s) && i < |s.tasks|
    ensures Inv(DoAdvance(c, s, i))
  {
    var r := DoAdvance(c, s, i);
    assert WaiterOk(s, s.tasks[i].phase);
    if s.tasks[i].phase.Reading? && r != s {
      assert r.tasks[i].phase.Notifying? && Registering(r, r.tasks[i].phase.id);
    }
    if s.tasks[i].phase.Checking? && r.tasks[i].phase.Parked? {
      StillRegistering(s, i, r.tasks[i].phase);
    }
    Moves(s, r, i);
  }

  lemma StillRegistering(s: State, i: nat, phase: Phase)
    requires i < |s.tasks| && !s.tasks[i].phase.Notifying?
    ensures forall id: u16 :: Registering(s, id) ==> Registering(SetPhase(s, i, phase), id)
  {
    var r := SetPhase(s, i, phase);
    forall id: u16 | Registering(s, id) ensures Registering(r, id) {
      var k :| 0 <= k < |s.tasks| && s.tasks[k].phase.Notifying? && s.tasks[k].phase.id == id;
      assert r.tasks[k] == s.tasks[k];
    }
  }

  /** Steps that leave registry and tasks alone, or only append a task. */
  lemma AppendKeeps(s: State, r: State)
    requires Inv(s) && r.reg == s.reg && r.closing == s.closing && s.tasks <= r.tasks
    requires forall i :: |s.tasks| <= i < |r.tasks| ==> WaiterOk(r, r.tasks[i].phase)
    ensures Inv(r)
  {
    forall i | 0 <= i < |r.tasks| ensures WaiterOk(r, r.tasks[i].phase) {
      if i < |s.tasks| {
        assert WaiterOk(s, s.tasks[i].phase);
        forall id: u16 | Registering(s, id) ensures Registering(r, id) {
          var k :| 0 <= k < |s.tasks| && s.tasks[k].phase.Notifying? && s.tasks[k].phase.id == id;
          assert r.tasks[k] == s.tasks[k];
        }
      }
    }
  }

  lemma CloseKeeps(c: Config, s: State, step: Step)
    requires Inv(s) && (step.StoreClosed? || step.NotifyClosed?)
    ensures Inv(Apply(c, s, step))
  {
    var r := Apply(c, s, step);
    forall i | 0 <= i < |r.tasks| ensures WaiterOk(r, r.tasks[i].phase) {
      assert WaiterOk(s, s.tasks[i].phase);
      if r.reg.generation == s.reg.generation {
        assert forall id: u16 :: Registering(s, id) ==> Registering(r, id);
      }
    }
  }

  lemma StepKeeps(c: Config, s: State, step: Step)
    requires Inv(s)
    ensures Inv(Apply(c, s, step))
  {
    var r := Apply(c, s, step);
    match step
    case Advance(i) => if i < |s.tasks| { AdvanceKeeps(c, s, i); }
    case Fail(i) => if r != s { Moves(s, r, i); }
    case StoreClosed => CloseKeeps(c, s, step);
    case NotifyClosed => CloseKeeps(c, s, step);
    case _ => AppendKeeps(s, r);
  }

  lemma {:induction false} RunsKeep(c: Config, s: State, steps: seq<Step>)
    requires Inv(s)
    ensures Inv(Continue(c, s, steps))
    decreases |steps|
  {
    if steps != [] {
      StepKeeps(c, s, steps[0]);
      RunsKeep(c, Apply(c, s, steps[0]), steps[1..]);
    }
  }

  /** In every reachable state, whatever the peer has written (`o`), a parked waiter that has not been notified
      waits for an id that is not routed, on a registry that is open, except while a `register` of that id or
      the `close` is between its update and its notify. */
  lemma NoLostWakeup(c: Config, o: Outbound, steps: seq<Step>, i: nat)
    requires var s := Continue(c, Start(o), steps);
             i < |s.tasks| && s.tasks[i].phase.Parked? && s.tasks[i].phase.generation == s.reg.generation
    ensures var s := Continue(c, Start(o), steps);
            && (s.tasks[i].phase.id !in s.reg.routes || Registering(s, s.tasks[i].phase.id))
            && (!s.reg.closed || s.closing.Stored?)
  {
    RunsKeep(c, Start(o), steps);
    var s := Continue(c, Start(o), steps);
    assert WaiterOk(s, s.tasks[i].phase);
  }

  // ---- after close ----

  /** How many more moves of its own a waiter can need. */
  function Rank(phase: Phase): nat {
    match phase
    case Parked(_, _) => 4
    case Subscribe(_) => 3
    case LookingUp(_, _) => 2
    case Checking(_, _) => 1
    case _ => 0
  }

  function MovesOf(steps: seq<Step>, i: nat): nat
    decreases |steps|
  {
    if steps == [] then 0 else (if steps[0] == Advance(i) then 1 else 0) + MovesOf(steps[1..], i)
  }

  /** Once `close` has finished, a waiter is never stuck: each move of its own brings it closer to
      returning, and nothing another task does takes it back. */
  lemma ClosedStep(c: Config, s: State, step: Step, i: nat)
    requires Inv(s) && s.closing.Notified? && i < |s.tasks| && 0 < Rank(s.tasks[i].phase)
    ensures var r := Apply(c, s, step);
            && Inv(r) && r.closing.Notified? && i < |r.tasks|
            && (step == Advance(i) ==> Rank(r.tasks[i].phase) < Rank(s.tasks[i].phase))
            && (step != Advance(i) ==> r.tasks[i].phase == s.tasks[i].phase)
  {
    StepKeeps(c, s, step);
    assert WaiterOk(s, s.tasks[i].phase);
  }

  lemma {:induction false} ReturnsAfterClose(c: Config, s: State, steps: seq<Step>, i: nat)
    requires Inv(s) && s.closing.Notified? && i < |s.tasks| && 0 < Rank(s.tasks[i].phase)
    requires MovesOf(steps, i) >= Rank(s.tasks[i].phase)
    ensures exists k :: 0 <= k <= |steps| && i < |Continue(c, s, steps[..k]).tasks|
              && var phase := Continue(c, s, steps[..k]).tasks[i].phase;
              Rank(phase) == 0
    decreases |steps|
  {
    var r := Apply(c, s, steps[0]);
    ClosedStep(c, s, steps[0], i);
    if Rank(r.tasks[i].phase) == 0 {
      assert steps[..1] == [steps[0]];
      assert Continue(c, s, [steps[0]]) == Continue(c, r, []);
      assert i < |Continue(c, s, steps[..1]).tasks|;
    } else {
      ReturnsAfterClose(c, r, steps[1..], i);
      var k :| 0 <= k <= |steps[1..]| && i < |Continue(c, r, steps[1..][..k]).tasks|
               && Rank(Continue(c, r, steps[1..][..k]).tasks[i].phase) == 0;
      assert steps[..k + 1][1..] == steps[1..][..k];
      assert Continue(c, s, steps[..k + 1]) == Continue(c, r, steps[1..][..k]);
    }
  }

  /** After `close`, in every run and whatever the peer has written, every waiter returns within one further pass
      of its loop: a parked one needs at most four moves, however the other tasks run in between. */
  lemma WaitersReturnAfterClose(c: Config, o: Outbound, before: seq<Step>, steps: seq<Step>, i: nat)
    requires var s := Continue(c, Start(o), before);
             && s.closing.Notified? && i < |s.tasks| && 0 < Rank(s.tasks[i].phase)
             && MovesOf(steps, i) >= Rank(s.tasks[i].phase)
    ensures var s := Continue(c, Start(o), before);
            exists k :: 0 <= k <= |steps| && i < |Continue(c, s, steps[..k]).tasks|
              && var phase := Continue(c, s, steps[..k]).tasks[i].phase;
              Rank(phase) == 0
  {
    RunsKeep(c, Start(o), before);
    ReturnsAfterClose(c, Continue(c, Start(o), before), steps, i);
  }

  // ---- after register ----

  /** How many more moves of its own a waiter whose id is routed can need. */
  function RoutedRank(phase: Phase): nat {
    match phase
    case Checking(_, _) => 4
    case Parked(_, _) => 3
    case Subscribe(_) => 2
    case LookingUp(_, _) => 1
    case _ => 0
  }

  /** Waits for `id`, and is not parked on a notify that is still to come. */
  predicate Awake(s: State, phase: Phase, id: u16) {
    match phase
    case Checking(x, generation) => x == id && generation < s.reg.generation
    case Parked(x, generation) => x == id && generation < s.reg.generation
    case Subscribe(x) => x == id
    case LookingUp(x, _) => x == id
    case _ => false
  }

  /** A waiter for `id`. */
  predicate Waits(phase: Phase, id: u16) {
    phase == Subscribe(id) || ((phase.LookingUp? || phase.Parked? || phase.Checking?) && phase.id == id)
  }

  /** In every reachable state, a waiter for a routed id whose notify is done is awake. */
  lemma WaitersAreAwake(c: Config, o: Outbound, steps: seq<Step>, i: nat, id: u16)
    requires var s := Continue(c, Start(o), steps);
             i < |s.tasks| && Waits(s.tasks[i].phase, id) && id in s.reg.routes && !Registering(s, id)
    ensures var s := Continue(c, Start(o), steps); Awake(s, s.tasks[i].phase, id)
  {
    RunsKeep(c, Start(o), steps);
    var s := Continue(c, Start(o), steps);
    assert WaiterOk(s, s.tasks[i].phase);
  }

  /** The route stays along these steps and, where `open` asks for it, so does the open registry. */
  predicate Undisturbed(c: Config, s: State, steps: seq<Step>, id: u16, route: Route, open: bool)
    decreases |steps|
  {
    && id in s.reg.routes && s.reg.routes[id] == route && (open ==> !s.reg.closed)
    && (steps != [] ==> Undisturbed(c, Apply(c, s, steps[0]), steps[1..], id, route, open))
  }

  lemma OthersLeaveWaiter(c: Config, s: State, step: Step, i: nat, id: u16)
    requires i < |s.tasks| && Awake(s, s.tasks[i].phase, id) && step != Advance(i)
    ensures var r := Apply(c, s, step);
            i < |r.tasks| && r.tasks[i].phase == s.tasks[i].phase && s.reg.generation <= r.reg.generation
  {
    if step.Advance? && step.task < |s.tasks| {
      AdvanceTouchesOne(c, s, step.task);
    }
  }

  lemma OwnMove(c: Config, s: State, i: nat, id: u16)
    requires i < |s.tasks| && Awake(s, s.tasks[i].phase, id) && id in s.reg.routes
    requires s.tasks[i].phase.Checking? ==> !s.reg.closed
    ensures var phase, next := s.tasks[i].phase, DoAdvance(c, s, i).tasks[i].phase;
            && (phase.LookingUp? ==> next == Routed(s.reg.routes[id], 2))
            && (!phase.LookingUp? ==>
                  && DoAdvance(c, s, i).reg == s.reg
                  && Awake(s, next, id) && !next.Checking? && RoutedRank(next) < RoutedRank(phase))
  {
  }

  /** Once an id is routed and its notify is done, a waiter for it returns with that route within one further
      pass of its loop, however the other tasks run in between, as long as the route stays. A waiter that
      missed the route and is about to look at the closed flag also needs the registry to stay open. */
  lemma {:induction false} WaitersReturnAfterRegister(c: Config, s: State, steps: seq<Step>, i: nat, id: u16,
                                                      route: Route, open: bool)
    requires i < |s.tasks| && Awake(s, s.tasks[i].phase, id) && Undisturbed(c, s, steps, id, route, open)
    requires s.tasks[i].phase.Checking? ==> open
    requires MovesOf(steps, i) >= RoutedRank(s.tasks[i].phase)
    ensures exists k :: 0 <= k <= |steps| && i < |Continue(c, s, steps[..k]).tasks|
              && Continue(c, s, steps[..k]).tasks[i].phase == Routed(route, 2)
    decreases |steps|
  {
    var r := Apply(c, s, steps[0]);
    if steps[0] == Advance(i) {
      OwnMove(c, s, i, id);
    } else {
      OthersLeaveWaiter(c, s, steps[0], i, id);
    }
    if steps[0] == Advance(i) && s.tasks[i].phase.LookingUp? {
      assert steps[..1] == [steps[0]];
      assert Continue(c, s, [steps[0]]) == Continue(c, r, []);
      assert i < |Continue(c, s, steps[..1]).tasks|;
    } else {
      WaitersReturnAfterRegister(c, r, steps[1..], i, id, route, open);
      var k :| 0 <= k <= |steps[1..]| && i < |Continue(c, r, steps[1..][..k]).tasks|
               && Continue(c, r, steps[1..][..k]).tasks[i].phase == Routed(route, 2);
      assert steps[..k + 1][1..] == steps[1..][..k];
      assert Continue(c, s, steps[..k + 1]) == Continue(c, r, steps[1..][..k]);
    }
  }
}
