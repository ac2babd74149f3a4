/** Who owns which route: the registry is the disjoint union of what the open control streams registered. */
module SquicOwnership {
  import opened Bytes
  import opened Text
  import opened Addresses
  import opened SquicOutbound
  import opened SquicOutboundProofs
  import opened SquicRegistry
  import opened SquicMachine
  import opened SquicIntegrity
  import opened SquicDelivery

  /** The ids a control task has put in the registry and not yet taken out. */
  function Registered(task: Task): set<u16> {
    match task.phase
    case Reading(_, ids) => Ids(ids)
    case Notifying(_, ids, id) => Ids(ids) + {id}
    case Removing(ids) => Ids(ids)
    case _ => {}
  }

  /** The ids of all control tasks together. */
  function Union(tasks: seq<Task>): set<u16> {
    if tasks == [] then {} else Union(tasks[..|tasks| - 1]) + Registered(tasks[|tasks| - 1])
  }

  lemma {:induction false} InUnion(tasks: seq<Task>, id: u16)
    ensures id in Union(tasks) <==> exists i :: 0 <= i < |tasks| && id in Registered(tasks[i])
    decreases |tasks|
  {
    if tasks != [] {
      var init := tasks[..|tasks| - 1];
      InUnion(init, id);
      assert forall i :: 0 <= i < |init| ==> init[i] == tasks[i];
    }
  }

  /** An id is registered by the one control task whose association it was given to. */
  lemma RegisteredIsOwn(c: Config, s: State, i: nat, id: u16)
    requires Inv(c, s) && i < |s.tasks| && id in Registered(s.tasks[i])
    ensures s.tasks[i].job.Associate? && id < |s.out.allocations|
    ensures s.out.allocations[id].association == s.tasks[i].job.association
  {
    assert TaskOk(c, s.out, s.tasks[i], QueuedBy(s.events, i));
    var a := s.tasks[i].job.association;
    assert SenderOk(c.ip, s.out, a);
    var ids := match s.tasks[i].phase
               case Reading(_, ids) => ids
               case Notifying(_, ids, id) => ids + [id]
               case Removing(ids) => ids
               case _ => [];
    assert id in ids && IdsPrefix(s.out.senders[a], ids);
    var j :| 0 <= j < |ids| && ids[j] == id;
    assert Allocated(s.out, s.out.senders[a].announced[j].id, a, s.out.senders[a].announced[j].destination);
  }

  /** Different control tasks never hold the same id. */
  lemma RegisteredDisjoint(c: Config, s: State, i: nat, j: nat)
    requires Inv(c, s) && i < j < |s.tasks|
    ensures Registered(s.tasks[i]) !! Registered(s.tasks[j])
  {
    forall id | id in Registered(s.tasks[i]) && id in Registered(s.tasks[j]) ensures false {
      RegisteredIsOwn(c, s, i, id);
      RegisteredIsOwn(c, s, j, id);
    }
  }

  predicate Own(s: State) {
    && (forall id | id in s.reg.routes :: exists i :: 0 <= i < |s.tasks| && id in Registered(s.tasks[i]))
    && (forall i :: 0 <= i < |s.tasks| ==> Registered(s.tasks[i]) <= s.reg.routes.Keys)
  }

  /** A task that keeps its ids, over an unchanged registry. */
  lemma OwnKept(s: State, r: State)
    requires Own(s) && r.reg.routes == s.reg.routes && |s.tasks| <= |r.tasks|
    requires forall i :: 0 <= i < |s.tasks| ==> Registered(r.tasks[i]) == Registered(s.tasks[i])
    requires forall i :: |s.tasks| <= i < |r.tasks| ==> Registered(r.tasks[i]) == {}
    ensures Own(r)
  {
    forall id | id in r.reg.routes ensures exists i :: 0 <= i < |r.tasks| && id in Registered(r.tasks[i]) {
      var i :| 0 <= i < |s.tasks| && id in Registered(s.tasks[i]);
      assert id in Registered(r.tasks[i]);
    }
  }

  lemma OwnInsert(s: State, i: nat, position: nat, ids: seq<u16>, position': nat, id: u16, route: Route)
    requires Own(s) && i < |s.tasks| && s.tasks[i].phase == Reading(position, ids)
    ensures Own(SetPhase(s.(reg := Insert(s.reg, id, route)), i, Notifying(position', ids, id)))
  {
    var r := SetPhase(s.(reg := Insert(s.reg, id, route)), i, Notifying(position', ids, id));
    assert Registered(r.tasks[i]) == Registered(s.tasks[i]) + {id};
    forall x | x in r.reg.routes ensures exists j :: 0 <= j < |r.tasks| && x in Registered(r.tasks[j]) {
      if x == id {
        assert x in Registered(r.tasks[i]);
      } else {
        var j :| 0 <= j < |s.tasks| && x in Registered(s.tasks[j]);
        assert x in Registered(r.tasks[j]);
      }
    }
  }

  lemma OwnRemove(c: Config, s: State, i: nat, ids: seq<u16>)
    requires Own(s) && Inv(c, s) && i < |s.tasks| && s.tasks[i].phase == Removing(ids)
    ensures Own(SetPhase(s.(reg := RemoveIds(s.reg, ids)), i, Done))
  {
    var r := SetPhase(s.(reg := RemoveIds(s.reg, ids)), i, Done);
    forall x | x in r.reg.routes ensures exists j :: 0 <= j < |r.tasks| && x in Registered(r.tasks[j]) {
      var j :| 0 <= j < |s.tasks| && x in Registered(s.tasks[j]);
      assert j != i && r.tasks[j] == s.tasks[j];
    }
    forall j | 0 <= j < |r.tasks| ensures Registered(r.tasks[j]) <= r.reg.routes.Keys {
      if j < i {
        RegisteredDisjoint(c, s, j, i);
      } else if i < j {
        RegisteredDisjoint(c, s, i, j);
      }
    }
  }

  predicate IsControl(phase: Phase) { phase.Reading? || phase.Notifying? || phase.Removing? }

  /** A task that is not in the control loop touches no route; it may at most enter the loop. */
  lemma OthersKeepRoutes(c: Config, s: State, i: nat)
    requires i < |s.tasks| && !IsControl(s.tasks[i].phase)
    ensures var r := DoAdvance(c, s, i);
            && r.reg.routes == s.reg.routes && |r.tasks| == |s.tasks|
            && r.tasks == s.tasks[i := r.tasks[i]]
            && Registered(r.tasks[i]) == {}
  {
    if s.tasks[i].phase.Admitted? {
      AdmittedKeepsRoutes(c, s, i, s.tasks[i].phase.user);
    }
  }

  lemma AdmittedKeepsRoutes(c: Config, s: State, i: nat, user: text)
    requires i < |s.tasks| && s.tasks[i].phase.Admitted?
    ensures var r := DoAdmitted(c, s, i, user);
            && r.reg == s.reg && |r.tasks| == |s.tasks|
            && r.tasks == s.tasks[i := r.tasks[i]]
            && Registered(r.tasks[i]) == {}
  {
  }

  lemma OwnAdvance(c: Config, s: State, i: nat)
    requires Own(s) && Inv(c, s) && i < |s.tasks|
    ensures Own(DoAdvance(c, s, i))
  {
    if s.tasks[i].phase.Reading? {
      OwnRead(c, s, i);
    } else if s.tasks[i].phase.Removing? {
      OwnRemove(c, s, i, s.tasks[i].phase.ids);
    } else {
      OwnOther(c, s, i);
    }
  }

  lemma OwnOther(c: Config, s: State, i: nat)
    requires Own(s) && i < |s.tasks| && !s.tasks[i].phase.Reading? && !s.tasks[i].phase.Removing?
    ensures Own(DoAdvance(c, s, i))
  {
    if !s.tasks[i].phase.Notifying? {
      OthersKeepRoutes(c, s, i);
    }
    OwnKept(s, DoAdvance(c, s, i));
  }

  lemma OwnRead(c: Config, s: State, i: nat)
    requires Own(s) && i < |s.tasks| && s.tasks[i].phase.Reading?
    ensures Own(DoAdvance(c, s, i))
  {
    var r := DoAdvance(c, s, i);
    if r != s {
      var p, n := s.tasks[i].phase, r.tasks[i].phase;
      OwnInsert(s, i, p.position, p.ids, n.position, n.id, r.reg.routes[n.id]);
    }
  }

  lemma OwnStep(c: Config, s: State, step: Step)
    requires Own(s) && Inv(c, s)
    ensures Own(Apply(c, s, step))
  {
    if step.Advance? && step.task < |s.tasks| {
      OwnAdvance(c, s, step.task);
    } else {
      QuietSteps(c, s, step);
    }
  }

  lemma FailKeepsIds(s: State, i: nat)
    requires i < |s.tasks|
    ensures var r := DoFail(s, i);
            r.reg == s.reg && r.tasks == s.tasks[i := r.tasks[i]] && Registered(r.tasks[i]) == Registered(s.tasks[i])
  {
  }

  lemma QuietSteps(c: Config, s: State, step: Step)
    requires Own(s) && (step.Advance? ==> step.task >= |s.tasks|)
    ensures Own(Apply(c, s, step))
  {
    if step.Fail? && step.task < |s.tasks| {
      FailKeepsIds(s, step.task);
    }
    OwnKept(s, Apply(c, s, step));
  }

  lemma {:induction false} OwnRuns(c: Config, steps: seq<Step>)
    requires Lawful(c.ip) && |Exec(c, steps).out.allocations| <= IDS
    ensures Own(Exec(c, steps))
    decreases |steps|
  {
    if steps != [] {
      var init, last := steps[..|steps| - 1], steps[|steps| - 1];
      AllocationsOnlyGrow(c, Exec(c, init), last);
      OwnRuns(c, init);
      RunsAreSound(c, init);
      OwnStep(c, Exec(c, init), last);
    }
  }

  /** The routed ids are the disjoint union of what the control tasks hold, each leading to the queue of the
      association whose control task registered it. */
  ghost predicate Partitioned(s: State) {
    && s.reg.routes.Keys == Union(s.tasks)
    && (forall i, j :: 0 <= i < j < |s.tasks| ==> Registered(s.tasks[i]) !! Registered(s.tasks[j]))
    && (forall i, id :: 0 <= i < |s.tasks| && id in Registered(s.tasks[i]) ==>
          && id in s.reg.routes && s.tasks[i].job == Associate(s.reg.routes[id].association))
  }

  lemma OwnersPartition(c: Config, s: State)
    requires Inv(c, s) && Own(s)
    ensures Partitioned(s)
  {
    forall id: u16 ensures id in s.reg.routes <==> id in Union(s.tasks) {
      InUnion(s.tasks, id);
    }
    forall i, j | 0 <= i < j < |s.tasks| ensures Registered(s.tasks[i]) !! Registered(s.tasks[j]) {
      RegisteredDisjoint(c, s, i, j);
    }
    forall i, id | 0 <= i < |s.tasks| && id in Registered(s.tasks[i])
      ensures id in s.reg.routes && s.tasks[i].job == Associate(s.reg.routes[id].association)
    {
      RegisteredIsOwn(c, s, i, id);
    }
  }

  /** The registry is partitioned among the control tasks in every run. */
  lemma RoutesAreOwned(c: Config, steps: seq<Step>)
    requires Lawful(c.ip) && |Exec(c, steps).out.allocations| <= IDS
    ensures Partitioned(Exec(c, steps))
  {
    OwnRuns(c, steps);
    RunsAreSound(c, steps);
    OwnersPartition(c, Exec(c, steps));
  }

  /** Closing one control stream removes exactly its own ids: every other task keeps all of its routes. */
  lemma ClosingRemovesOwnIds(c: Config, steps: seq<Step>, i: nat)
    requires Lawful(c.ip) && |Exec(c, steps).out.allocations| <= IDS
    requires i < |Exec(c, steps).tasks| && Exec(c, steps).tasks[i].phase.Removing?
    ensures var s := Exec(c, steps);
            var r := Apply(c, s, Advance(i));
            && r.reg.routes.Keys == s.reg.routes.Keys - Registered(s.tasks[i])
            && forall j :: 0 <= j < |s.tasks| && j != i ==>
                 forall id | id in Registered(s.tasks[j]) ::
                   id in r.reg.routes && id in s.reg.routes && r.reg.routes[id] == s.reg.routes[id]
  {
    var s := Exec(c, steps);
    OwnRuns(c, steps);
    RunsAreSound(c, steps);
    OwnRemove(c, s, i, s.tasks[i].phase.ids);
    var r := Apply(c, s, Advance(i));
    forall j | 0 <= j < |s.tasks| && j != i ensures Registered(s.tasks[j]) <= r.reg.routes.Keys {
      assert r.tasks[j] == s.tasks[j];
    }
  }
}
