/** The SunnyQUIC authentication gate (src/shadowquic/mod.rs): nothing passes before a known credential, and
    the wait for it ends. */
module SquicGate {
  import opened Text
  import opened SquicOutbound
  import opened SquicMachine

  /** Among the first n events, a credential of the captured table was found whose stored name is `user`. */
  predicate Found(c: Config, events: seq<Event>, n: nat, user: text)
    requires c.role.Server? && c.role.auth.Sunny? && n <= |events|
  {
    exists j :: 0 <= j < n && events[j].CredentialFound?
      && events[j].credential in c.role.auth.users && c.role.auth.users[events[j].credential] == user
  }

  /** Some credential of the captured table was found. */
  predicate Opened(c: Config, events: seq<Event>, n: nat)
    requires c.role.Server? && c.role.auth.Sunny? && n <= |events|
  {
    exists j :: 0 <= j < n && events[j].CredentialFound? && events[j].credential in c.role.auth.users
  }

  predicate BeforeGate(phase: Phase) { phase.Fresh? || phase.Gated? || phase.Done? }

  predicate TaskGated(c: Config, s: State, phase: Phase)
    requires c.role.Server? && c.role.auth.Sunny?
  {
    && (phase.Admitted? ==> Found(c, s.events, |s.events|, phase.user))
    && (!BeforeGate(phase) ==> Opened(c, s.events, |s.events|))
  }

  /** What an event says about the events before it. */
  predicate EventGated(c: Config, events: seq<Event>, k: nat)
    requires c.role.Server? && c.role.auth.Sunny? && k < |events|
  {
    match events[k]
    case CredentialFound(credential) => true
    case StreamAccepted(user) => Found(c, events, k, user)
    case AssociationAccepted(_, _, _, user) => Found(c, events, k, user)
    case ExtensionReplied => Opened(c, events, k)
    case Queued(_, _, _) => Opened(c, events, k)
  }

  predicate Inv(c: Config, s: State)
    requires c.role.Server? && c.role.auth.Sunny?
  {
    && (s.cell.Some? && s.cell.value.Granted? ==> Found(c, s.events, |s.events|, s.cell.value.user))
    && (forall i :: 0 <= i < |s.tasks| ==> TaskGated(c, s, s.tasks[i].phase))
    && (forall k :: 0 <= k < |s.events| ==> EventGated(c, s.events, k))
  }

  /** What was found stays found. */
  lemma FoundStays(c: Config, events: seq<Event>, more: seq<Event>, user: text)
    requires c.role.Server? && c.role.auth.Sunny? && events <= more
    ensures Found(c, events, |events|, user) ==> Found(c, more, |more|, user)
    ensures Opened(c, events, |events|) ==> Opened(c, more, |more|)
  {
    if Found(c, events, |events|, user) {
      var j :| 0 <= j < |events| && events[j].CredentialFound?
               && events[j].credential in c.role.auth.users && c.role.auth.users[events[j].credential] == user;
      assert more[j] == events[j];
    }
    if Opened(c, events, |events|) {
      var j :| 0 <= j < |events| && events[j].CredentialFound? && events[j].credential in c.role.auth.users;
      assert more[j] == events[j];
    }
  }

  lemma EventStays(c: Config, events: seq<Event>, more: seq<Event>, k: nat)
    requires c.role.Server? && c.role.auth.Sunny? && events <= more && k < |events| && EventGated(c, events, k)
    ensures EventGated(c, more, k)
  {
    assert more[k] == events[k] && forall j :: 0 <= j < k ==> more[j] == events[j];
  }

  lemma TaskStays(c: Config, s: State, r: State, phase: Phase)
    requires c.role.Server? && c.role.auth.Sunny? && s.events <= r.events && TaskGated(c, s, phase)
    ensures TaskGated(c, r, phase)
  {
    FoundStays(c, s.events, r.events, if phase.Admitted? then phase.user else []);
  }

  /** One task moved, one event at most was added, and both are justified by what came before. */
  lemma Moves(c: Config, s: State, r: State, i: nat)
    requires c.role.Server? && c.role.auth.Sunny? && Inv(c, s) && i < |s.tasks| == |r.tasks|
    requires r.tasks == s.tasks[i := r.tasks[i]] && s.events <= r.events && |r.events| <= |s.events| + 1
    requires TaskGated(c, r, r.tasks[i].phase)
    requires |r.events| > |s.events| ==> EventGated(c, r.events, |s.events|)
    requires r.cell.Some? && r.cell.value.Granted? ==> Found(c, r.events, |r.events|, r.cell.value.user)
    ensures Inv(c, r)
  {
    forall j | 0 <= j < |r.tasks| ensures TaskGated(c, r, r.tasks[j].phase) {
      if j != i { TaskStays(c, s, r, s.tasks[j].phase); }
    }
    forall k | 0 <= k < |r.events| ensures EventGated(c, r.events, k) {
      if k < |s.events| { EventStays(c, s.events, r.events, k); }
    }
  }

  lemma AdmittedKeeps(c: Config, s: State, i: nat)
    requires c.role.Server? && c.role.auth.Sunny? && Inv(c, s) && i < |s.tasks| && s.tasks[i].phase.Admitted?
    ensures Inv(c, DoAdvance(c, s, i))
  {
    var r, user := DoAdvance(c, s, i), s.tasks[i].phase.user;
    assert TaskGated(c, s, s.tasks[i].phase);
    FoundStays(c, s.events, r.events, user);
    if s.cell.Some? && s.cell.value.Granted? { FoundStays(c, s.events, r.events, s.cell.value.user); }
    if |r.events| > |s.events| {
      assert forall j :: 0 <= j < |s.events| ==> r.events[j] == s.events[j];
      assert Found(c, r.events, |s.events|, user);
    }
    Moves(c, s, r, i);
  }

  lemma DeliverKeeps(c: Config, s: State, i: nat)
    requires c.role.Server? && c.role.auth.Sunny? && Inv(c, s) && i < |s.tasks| && s.tasks[i].phase.Routed?
    ensures Inv(c, DoAdvance(c, s, i))
  {
    var r := DoAdvance(c, s, i);
    assert TaskGated(c, s, s.tasks[i].phase);
    FoundStays(c, s.events, r.events, if s.cell.Some? && s.cell.value.Granted? then s.cell.value.user else []);
    assert forall j :: 0 <= j < |s.events| ==> r.events[j] == s.events[j];
    assert Opened(c, r.events, |s.events|);
    Moves(c, s, r, i);
  }

  lemma AuthenticateKeeps(c: Config, s: State, i: nat, credential: Credential)
    requires c.role.Server? && c.role.auth.Sunny? && Inv(c, s) && i < |s.tasks|
    ensures Inv(c, DoAuthenticate(c, s, i, credential))
  {
    var r := DoAuthenticate(c, s, i, credential);
    if credential in c.role.auth.users {
      assert r.events[|s.events|] == CredentialFound(credential);
      assert Found(c, r.events, |r.events|, c.role.auth.users[credential]);
    }
    Moves(c, s, r, i);
  }

  lemma AdvanceKeeps(c: Config, s: State, i: nat)
    requires c.role.Server? && c.role.auth.Sunny? && Inv(c, s) && i < |s.tasks|
    ensures Inv(c, DoAdvance(c, s, i))
  {
    var r := DoAdvance(c, s, i);
    assert TaskGated(c, s, s.tasks[i].phase);
    match s.tasks[i].phase
    case Fresh =>
      if s.tasks[i].job.Authenticate? { AuthenticateKeeps(c, s, i, s.tasks[i].job.credential); }
    case Admitted(_, _, _) => AdmittedKeeps(c, s, i);
    case Routed(_, _) => DeliverKeeps(c, s, i);
    case _ => Moves(c, s, r, i);
  }

  lemma StepKeeps(c: Config, s: State, step: Step)
    requires c.role.Server? && c.role.auth.Sunny? && Inv(c, s)
    ensures Inv(c, Apply(c, s, step))
  {
    var r := Apply(c, s, step);
    match step
    case Advance(i) => if i < |s.tasks| { AdvanceKeeps(c, s, i); }
    case Fail(i) =>
      if i < |s.tasks| {
        assert TaskGated(c, s, s.tasks[i].phase);
        Moves(c, s, r, i);
      }
    case _ =>
      assert forall i :: 0 <= i < |s.tasks| ==> TaskGated(c, s, s.tasks[i].phase);
  }

  lemma {:induction false} RunsKeep(c: Config, s: State, steps: seq<Step>)
    requires c.role.Server? && c.role.auth.Sunny? && Inv(c, s)
    ensures Inv(c, Continue(c, s, steps))
    decreases |steps|
  {
    if steps != [] {
      StepKeeps(c, s, steps[0]);
      RunsKeep(c, Apply(c, s, steps[0]), steps[1..]);
    }
  }

  /** On a Sunny connection every accepted stream, accepted association, queued packet and extension reply
      comes after a credential of the captured table, and a reported user is the name stored for one. The
      peer may have written anything at all (`o`) to its streams and datagrams. */
  lemma GateHolds(c: Config, o: Outbound, steps: seq<Step>, k: nat)
    requires c.role.Server? && c.role.auth.Sunny? && k < |Continue(c, Start(o), steps).events|
    ensures EventGated(c, Continue(c, Start(o), steps).events, k)
  {
    RunsKeep(c, Start(o), steps);
  }

  // ---- the wait ----

  /** The first look, the one timed wait, or the second look, which finds a result. */
  predicate GateOk(s: State, phase: Phase) {
    match phase
    case Gated(Borrow(passes, waits, seen)) =>
      (passes == 0 && waits == 0 && seen == 0) || (passes == 1 && waits == 1 && s.cell.Some?)
    case Gated(Await(passes, waits, seen)) => passes == 1 && waits == 1 && seen == 0
    case Admitted(_, passes, waits) => passes <= 2 && waits <= 1
    case _ => true
  }

  predicate WaitInv(s: State) {
    && (s.version == 0 <==> s.cell.None?)
    && (forall i :: 0 <= i < |s.tasks| ==> GateOk(s, s.tasks[i].phase))
  }

  lemma WaitStep(c: Config, s: State, step: Step)
    requires WaitInv(s)
    ensures WaitInv(Apply(c, s, step))
  {
    if step.Advance? && step.task < |s.tasks| {
      var i, r := step.task, Apply(c, s, step);
      assert GateOk(s, s.tasks[i].phase);
      assert r.tasks == s.tasks[i := r.tasks[i]] && (s.cell.Some? ==> r.cell.Some?);
    }
  }

  lemma {:induction false} WaitRuns(c: Config, s: State, steps: seq<Step>)
    requires WaitInv(s)
    ensures WaitInv(Continue(c, s, steps))
    decreases |steps|
  {
    if steps != [] {
      WaitStep(c, s, steps[0]);
      WaitRuns(c, Apply(c, s, steps[0]), steps[1..]);
    }
  }

  /** Moves left before the wait returns. */
  function GateRank(gate: Gate): nat {
    match gate
    case Borrow(passes, _, _) => if passes == 0 then 3 else 1
    case Await(_, _, _) => 2
  }

  /** In every run the wait makes at most two passes and one timed wait. A move of the waiting task either
      brings it closer to its end or finds the timed wait before any result; once there is a result it is
      never stuck. */
  lemma WaitTerminates(c: Config, o: Outbound, steps: seq<Step>, i: nat)
    requires c.role.Server? && c.role.auth.Sunny?
    requires var s := Continue(c, Start(o), steps); i < |s.tasks| && s.tasks[i].phase.Gated?
    ensures var s := Continue(c, Start(o), steps);
            var gate, next := s.tasks[i].phase.gate, Apply(c, s, Advance(i)).tasks[i].phase;
            && gate.passes <= 1 && gate.waits <= 1
            && (next.Admitted? ==> next.passes <= 2 && next.waits <= 1)
            && (next.Gated? ==> GateRank(next.gate) < GateRank(gate) || (gate.Await? && s.cell.None?))
            && (s.cell.Some? ==> !next.Gated? || GateRank(next.gate) < GateRank(gate))
  {
    WaitRuns(c, Start(o), steps);
    var s := Continue(c, Start(o), steps);
    assert GateOk(s, s.tasks[i].phase);
  }
}
