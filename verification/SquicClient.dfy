/** The client's receiver loop (`spawn_client_udp_receiver` in src/shadowquic/mod.rs) takes one datagram at a time
    and waits for its route before it accepts anything else, and its registry is never closed: when it stalls, and
    when it goes on. */
module SquicClient {
  import opened Bytes
  import opened Addresses
  import opened SquicWire
  import opened SquicOutbound
  import opened SquicOutboundProofs
  import opened SquicMachine
  import opened SquicIntegrity
  import opened SquicDelivery
  import opened SquicOwnership
  import opened SquicSchedules
  import SquicWakeups
  import SquicProgress
  import SquicBound

  /** A datagram is being handled. */
  predicate Busy(s: State) {
    exists i :: 0 <= i < |s.tasks| && s.tasks[i].job.Payload? && !s.tasks[i].phase.Done?
  }

  predicate Incoming(job: Job) { job.Payload? || job.Stream? }

  /** The loop accepts datagrams and streams between two datagrams only. */
  predicate Allowed(s: State, step: Step) {
    step.Accept? && Incoming(step.job) ==> !Busy(s)
  }

  predicate AllowedRun(c: Config, s: State, steps: seq<Step>)
    decreases |steps|
  {
    steps == [] || (Allowed(s, steps[0]) && AllowedRun(c, Apply(c, s, steps[0]), steps[1..]))
  }

  // ---- one datagram at a time ----

  predicate OnePending(s: State) {
    forall i, j :: 0 <= i < j < |s.tasks| && s.tasks[i].job.Payload? && s.tasks[j].job.Payload? ==>
      s.tasks[i].phase.Done? || s.tasks[j].phase.Done?
  }

  /** A task keeps its job, and once done it stays done. */
  lemma TasksPersist(c: Config, s: State, step: Step)
    ensures var r := Apply(c, s, step);
            && |s.tasks| <= |r.tasks|
            && forall i :: 0 <= i < |s.tasks| ==>
                 r.tasks[i].job == s.tasks[i].job && (s.tasks[i].phase.Done? ==> r.tasks[i].phase.Done?)
  {
    if step.Advance? && step.task < |s.tasks| {
      AdvanceKeepsJob(c, s, step.task);
    }
  }

  lemma AdvanceKeepsJob(c: Config, s: State, i: nat)
    requires i < |s.tasks|
    ensures var r := DoAdvance(c, s, i);
            && |r.tasks| == |s.tasks| && r.tasks == s.tasks[i := r.tasks[i]]
            && r.tasks[i].job == s.tasks[i].job && (s.tasks[i].phase.Done? ==> r == s)
  {
    AdvanceTouchesOne(c, s, i);
  }

  lemma PendingStep(c: Config, s: State, step: Step)
    requires OnePending(s) && Allowed(s, step)
    ensures OnePending(Apply(c, s, step))
  {
    TasksPersist(c, s, step);
  }

  /** In every run of the loop at most one datagram is pending. */
  lemma {:induction false} OneAtATime(c: Config, s: State, steps: seq<Step>)
    requires OnePending(s) && AllowedRun(c, s, steps)
    ensures OnePending(Continue(c, s, steps))
    decreases |steps|
  {
    if steps != [] {
      PendingStep(c, s, steps[0]);
      OneAtATime(c, Apply(c, s, steps[0]), steps[1..]);
    }
  }

  // ---- the stall ----

  /** The datagram of task i waits for its id. */
  predicate Stalled(s: State, i: nat, id: u16) {
    && i < |s.tasks| && s.tasks[i].job.Payload? && SquicWakeups.Waits(s.tasks[i].phase, id)
    && s.closing.NotClosing? && !s.reg.closed
  }

  /** No datagram or stream has been accepted in between. */
  predicate NoneAccepted(s: State, r: State) {
    |s.tasks| <= |r.tasks| && forall j :: |s.tasks| <= j < |r.tasks| ==> !Incoming(r.tasks[j].job)
  }

  /** The id is routed in none of the states that these steps start from. */
  predicate Unrouted(c: Config, s: State, steps: seq<Step>, id: u16)
    decreases |steps|
  {
    steps == [] || (id !in s.reg.routes && Unrouted(c, Apply(c, s, steps[0]), steps[1..], id))
  }

  lemma OwnMoveStalls(c: Config, s: State, i: nat, id: u16)
    requires Stalled(s, i, id) && id !in s.reg.routes
    ensures Stalled(DoAdvance(c, s, i), i, id) && |DoAdvance(c, s, i).tasks| == |s.tasks|
  {
  }

  lemma OthersLeaveIt(c: Config, s: State, step: Step, i: nat, id: u16)
    requires c.role.Client? && Stalled(s, i, id) && step != Advance(i)
    ensures Stalled(Apply(c, s, step), i, id)
  {
    if step.Advance? && step.task < |s.tasks| {
      AdvanceTouchesOne(c, s, step.task);
      ClosedIsKept(c, s, step.task);
    }
  }

  lemma ClosedIsKept(c: Config, s: State, i: nat)
    requires i < |s.tasks|
    ensures DoAdvance(c, s, i).reg.closed == s.reg.closed
  {
  }

  lemma StalledStep(c: Config, s: State, step: Step, i: nat, id: u16)
    requires c.role.Client? && Stalled(s, i, id) && id !in s.reg.routes && Allowed(s, step)
    ensures Stalled(Apply(c, s, step), i, id) && NoneAccepted(s, Apply(c, s, step))
  {
    if step == Advance(i) {
      OwnMoveStalls(c, s, i, id);
    } else {
      OthersLeaveIt(c, s, step, i, id);
      assert Busy(s);
      if step.Advance? && step.task < |s.tasks| {
        AdvanceTouchesOne(c, s, step.task);
      }
    }
  }

  /** While its id is not routed, a datagram holds up everything behind it: nothing more is accepted. */
  lemma {:induction false} StalledWhileUnrouted(c: Config, s: State, steps: seq<Step>, i: nat, id: u16)
    requires c.role.Client? && Stalled(s, i, id) && AllowedRun(c, s, steps) && Unrouted(c, s, steps, id)
    ensures Stalled(Continue(c, s, steps), i, id) && NoneAccepted(s, Continue(c, s, steps))
    decreases |steps|
  {
    if steps != [] {
      StalledStep(c, s, steps[0], i, id);
      var r := Apply(c, s, steps[0]);
      StalledWhileUnrouted(c, r, steps[1..], i, id);
      var last := Continue(c, s, steps);
      forall j | |s.tasks| <= j < |last.tasks| ensures !Incoming(last.tasks[j].job) {
        if j < |r.tasks| { JobsPersist(c, r, steps[1..], j); }
      }
    }
  }

  lemma {:induction false} JobsPersist(c: Config, s: State, steps: seq<Step>, j: nat)
    requires j < |s.tasks|
    ensures var r := Continue(c, s, steps);
            && j < |r.tasks| && r.tasks[j].job == s.tasks[j].job
            && (s.tasks[j].phase.Done? ==> r.tasks[j].phase.Done?)
    decreases |steps|
  {
    if steps != [] {
      TasksPersist(c, s, steps[0]);
      JobsPersist(c, Apply(c, s, steps[0]), steps[1..], j);
    }
  }

  /** So the receiver goes on only after the id has been routed. */
  lemma GoingOnNeedsARoute(c: Config, s: State, steps: seq<Step>, i: nat, id: u16)
    requires c.role.Client? && Stalled(s, i, id) && AllowedRun(c, s, steps)
    requires !NoneAccepted(s, Continue(c, s, steps))
    ensures exists k :: 0 <= k < |steps| && id in Continue(c, s, steps[..k]).reg.routes
  {
    if Unrouted(c, s, steps, id) {
      StalledWhileUnrouted(c, s, steps, i, id);
    } else {
      RoutedSomewhere(c, s, steps, id);
    }
  }

  lemma {:induction false} RoutedSomewhere(c: Config, s: State, steps: seq<Step>, id: u16)
    requires !Unrouted(c, s, steps, id)
    ensures exists k :: 0 <= k < |steps| && id in Continue(c, s, steps[..k]).reg.routes
    decreases |steps|
  {
    if id in s.reg.routes {
      assert steps[..0] == [] && id in Continue(c, s, steps[..0]).reg.routes;
    } else {
      var r := Apply(c, s, steps[0]);
      RoutedSomewhere(c, r, steps[1..], id);
      var k :| 0 <= k < |steps[1..]| && id in Continue(c, r, steps[1..][..k]).reg.routes;
      assert steps[..k + 1][1..] == steps[1..][..k];
      assert Continue(c, s, steps[..k + 1]) == Continue(c, r, steps[1..][..k]);
    }
  }

  /** And a routed datagram is out of the way with one more move. */
  lemma RoutedGoesOn(c: Config, s: State, i: nat)
    requires i < |s.tasks| && s.tasks[i].job.Payload? && |s.tasks[i].job.datagram| >= 2 && s.tasks[i].phase.Routed?
    ensures Apply(c, s, Advance(i)).tasks[i].phase.Done?
  {
  }

  // ---- for good ----

  /** The control stream of the association that the id was given to has ended, and its route, if it ever had
      one, has been removed. */
  predicate Ended(s: State, j: nat, id: u16) {
    && id < |s.out.allocations| && j < |s.tasks|
    && s.tasks[j].job == Associate(s.out.allocations[id].association)
    && Over(s.tasks[j].phase, id)
  }

  predicate Over(phase: Phase, id: u16) {
    phase.Done? || (phase.Removing? && id !in phase.ids)
  }

  /** Only the control task of its own association holds an id. */
  lemma SoleHolder(c: Config, s: State, i: nat, j: nat, id: u16)
    requires SquicIntegrity.Inv(c, s) && i < |s.tasks| && j < |s.tasks| && id in Registered(s.tasks[i])
    requires id < |s.out.allocations| && s.tasks[j].job == Associate(s.out.allocations[id].association)
    ensures i == j
  {
    RegisteredIsOwn(c, s, i, id);
  }

  lemma EndedIsUnrouted(c: Config, s: State, j: nat, id: u16)
    requires SquicIntegrity.Inv(c, s) && Own(s) && Ended(s, j, id)
    ensures id !in s.reg.routes
  {
    if id in s.reg.routes {
      var i :| 0 <= i < |s.tasks| && id in Registered(s.tasks[i]);
      SoleHolder(c, s, i, j, id);
    }
  }

  lemma AllocationsKept(c: Config, s: State, step: Step)
    ensures s.out.allocations <= Apply(c, s, step).out.allocations
  {
  }

  lemma EndedStays(c: Config, s: State, step: Step, j: nat, id: u16)
    requires Ended(s, j, id)
    ensures Ended(Apply(c, s, step), j, id)
  {
    AllocationsKept(c, s, step);
    TasksPersist(c, s, step);
    if step.Advance? && step.task < |s.tasks| {
      AdvanceTouchesOne(c, s, step.task);
    }
  }

  lemma {:induction false} BoundHolds(c: Config, s: State, steps: seq<Step>)
    ensures |s.out.allocations| <= |Continue(c, s, steps).out.allocations|
    decreases |steps|
  {
    if steps != [] {
      AllocationsKept(c, s, steps[0]);
      BoundHolds(c, Apply(c, s, steps[0]), steps[1..]);
    }
  }

  lemma {:induction false} NeverRoutedAgain(c: Config, steps: seq<Step>, more: seq<Step>, j: nat, id: u16)
    requires Lawful(c.ip) && Ended(Exec(c, steps), j, id)
    requires |Continue(c, Exec(c, steps), more).out.allocations| <= IDS
    ensures Unrouted(c, Exec(c, steps), more, id)
    decreases |more|
  {
    if more != [] {
      var s := Exec(c, steps);
      BoundHolds(c, s, more);
      RunsAreSound(c, steps);
      OwnRuns(c, steps);
      EndedIsUnrouted(c, s, j, id);
      EndedStays(c, s, more[0], j, id);
      ExecSnoc(c, steps, more[0]);
      NeverRoutedAgain(c, steps + [more[0]], more[1..], j, id);
    }
  }

  /** A datagram that is taken up after the control stream of its id has ended stalls the client's receiver for
      good: within the id bound, no further datagram or stream is ever accepted. */
  lemma StalledForGood(c: Config, steps: seq<Step>, more: seq<Step>, i: nat, j: nat, id: u16)
    requires Lawful(c.ip) && c.role.Client? && Stalled(Exec(c, steps), i, id) && Ended(Exec(c, steps), j, id)
    requires AllowedRun(c, Exec(c, steps), more)
    requires |Continue(c, Exec(c, steps), more).out.allocations| <= IDS
    ensures var s := Exec(c, steps);
            Stalled(Continue(c, s, more), i, id) && NoneAccepted(s, Continue(c, s, more))
  {
    NeverRoutedAgain(c, steps, more, j, id);
    StalledWhileUnrouted(c, Exec(c, steps), more, i, id);
  }

  /** A control task fails and removes what it registered. */
  lemma EndsReading(c: Config, s: State) returns (r: State)
    requires Reachable(c, s) && Calm(c, s) && |s.tasks| == 1
    requires s.tasks[0].job.Associate? && s.tasks[0].phase.Reading?
    ensures Reachable(c, r) && Calm(c, r) && r.out == s.out && r.reg.closed == s.reg.closed
    ensures r.tasks == [Task(s.tasks[0].job, Done)]
  {
    r := Next(c, s, Fail(0));
    r := Next(c, r, Advance(0));
  }

  /** The control stream of a sent packet has come and gone. */
  lemma ComeAndGone(c: Config) returns (s: State)
    requires Lawful(c.ip) && c.role.Client?
    ensures Reachable(c, s) && Calm(c, s) && s.tasks == [Task(Associate(0), Done)]
    ensures s.out.allocations == [Allocation(0, SquicBound.FIRST.destination)]
    ensures s.out.datagrams == [Be16(0) + SquicBound.FIRST.data]
  {
    s := Announced(c);
    var d := SquicBound.FIRST.destination;
    var wire := EncodeAnnouncement(c.ip, Announcement(d, 0));
    assert [] + wire == wire;
    s := OpenControl(c, s, 0, DatagramMode, d, wire);
    s := EndsReading(c, s);
  }

  /** It happens: the control stream ends, and then a datagram of it is taken up. */
  lemma StallIsReachable(c: Config) returns (s: State)
    requires Lawful(c.ip) && c.role.Client?
    ensures Reachable(c, s) && Stalled(s, 1, 0) && Ended(s, 0, 0) && |s.out.allocations| == 1 && OnePending(s)
  {
    var bytes := Be16(0) + SquicBound.FIRST.data;
    assert bytes[..2] == Be16(0);
    s := ComeAndGone(c);
    ClientStaysOpen(c, s);
    s := Enter(c, s, Payload(bytes));
    Subscribes(c, s, 1, 0);
    s := Next(c, s, Advance(1));
  }

  /** A client's registry is never closed. */
  lemma ClientStaysOpen(c: Config, s: State)
    requires Reachable(c, s) && c.role.Client?
    ensures s.closing.NotClosing? && !s.reg.closed
  {
    var steps :| FeasibleRun(c, steps) && Exec(c, steps) == s;
    NeverClosed(c, steps);
  }

  lemma {:induction false} NeverClosed(c: Config, steps: seq<Step>)
    requires c.role.Client?
    ensures Exec(c, steps).closing.NotClosing? && !Exec(c, steps).reg.closed
    decreases |steps|
  {
    if steps != [] {
      var init, last := steps[..|steps| - 1], steps[|steps| - 1];
      NeverClosed(c, init);
      StaysOpen(c, Exec(c, init), last);
    }
  }

  lemma StaysOpen(c: Config, s: State, step: Step)
    requires c.role.Client? && s.closing.NotClosing? && !s.reg.closed
    ensures Apply(c, s, step).closing.NotClosing? && !Apply(c, s, step).reg.closed
  {
    if step.Advance? && step.task < |s.tasks| {
      AdvanceTouchesOne(c, s, step.task);
      ClosedIsKept(c, s, step.task);
    }
  }

  /** A packet has been sent and its destination announced. */
  lemma Announced(c: Config) returns (s: State)
    requires Lawful(c.ip) && c.role.Client?
    ensures Reachable(c, s) && s == Start(s.out) && Calm(c, s)
    ensures s.out.allocations == [Allocation(0, SquicBound.FIRST.destination)] && |s.out.senders| == 1
    ensures EncodeAddress(c.ip, SquicBound.FIRST.destination).Ok?
    ensures s.out.senders[0].control == EncodeAnnouncement(c.ip, Announcement(SquicBound.FIRST.destination, 0))
    ensures s.out.datagrams == [Be16(0) + SquicBound.FIRST.data]
  {
    SquicBound.HostsAreText();
    InitialIsReachable(c);
    s := Next(c, INITIAL, OpenAssociation(DatagramMode, SquicBound.FIRST.destination));
    s := Next(c, s, SendPacket(0, SquicBound.FIRST, NoFault));
    var wire := EncodeAnnouncement(c.ip, Announcement(SquicBound.FIRST.destination, 0));
    assert [] + wire == wire;
  }

  // ---- exactly when ----

  /** A reachable state of the client's loop, within the id bound. */
  ghost predicate Good(c: Config, s: State) {
    && Lawful(c.ip) && c.role.Client? && |s.out.allocations| <= IDS && s.closing.NotClosing? && !s.reg.closed
    && SquicIntegrity.Inv(c, s) && Own(s) && SquicWakeups.Inv(s) && OnePending(s)
  }

  lemma GoodAdvance(c: Config, s: State, j: nat)
    requires Good(c, s) && j < |s.tasks|
    ensures Good(c, Apply(c, s, Advance(j)))
  {
    AdvanceTouchesOne(c, s, j);
    ClosedIsKept(c, s, j);
    ApplyStep(c, s, Advance(j));
    OwnStep(c, s, Advance(j));
    SquicWakeups.StepKeeps(c, s, Advance(j));
    PendingStep(c, s, Advance(j));
  }

  lemma GoodAccept(c: Config, s: State, a: nat)
    requires Good(c, s)
    ensures Good(c, Apply(c, s, Accept(Associate(a))))
  {
    var step := Accept(Associate(a));
    ApplyStep(c, s, step);
    OwnStep(c, s, step);
    SquicWakeups.StepKeeps(c, s, step);
    PendingStep(c, s, step);
  }

  /** The loop can get from s to r. */
  ghost predicate Reaches(c: Config, s: State, r: State) {
    exists steps :: AllowedRun(c, s, steps) && Continue(c, s, steps) == r
  }

  lemma {:induction false} AllowedSnoc(c: Config, s: State, steps: seq<Step>, step: Step)
    requires AllowedRun(c, s, steps) && Allowed(Continue(c, s, steps), step)
    ensures AllowedRun(c, s, steps + [step])
    ensures Continue(c, s, steps + [step]) == Apply(c, Continue(c, s, steps), step)
    decreases |steps|
  {
    var more := steps + [step];
    if steps == [] {
      assert more[1..] == [];
      assert Continue(c, s, more) == Continue(c, Apply(c, s, step), []);
    } else {
      assert more[1..] == steps[1..] + [step];
      AllowedSnoc(c, Apply(c, s, steps[0]), steps[1..], step);
    }
  }

  lemma ReachNext(c: Config, s: State, r: State, step: Step) returns (q: State)
    requires Reaches(c, s, r) && Allowed(r, step)
    ensures q == Apply(c, r, step) && Reaches(c, s, q)
  {
    q := Apply(c, r, step);
    var steps :| AllowedRun(c, s, steps) && Continue(c, s, steps) == r;
    AllowedSnoc(c, s, steps, step);
  }

  /** Task j reads the control stream of association a and has registered the first n announcements. */
  predicate Reads(s: State, j: nat, a: nat, n: nat) {
    && j < |s.tasks| && s.tasks[j].job == Associate(a)
    && s.tasks[j].phase.Reading? && |s.tasks[j].phase.ids| == n
  }

  /** All tasks but j stand where they stood. */
  predicate OthersStay(s: State, r: State, j: nat) {
    && r.out == s.out && |r.tasks| == |s.tasks|
    && forall k :: 0 <= k < |s.tasks| && k != j ==> r.tasks[k] == s.tasks[k]
  }

  lemma AnnouncementIsRead(c: Config, s: State, j: nat, a: nat, n: nat)
    requires Good(c, s) && Reads(s, j, a, n) && a < |s.out.senders| && n < |s.out.senders[a].announced|
    ensures var r := Apply(c, s, Advance(j));
            && j < |r.tasks| && r.tasks[j].job == Associate(a)
            && r.tasks[j].phase.Notifying? && r.tasks[j].phase.ids == s.tasks[j].phase.ids
  {
    SquicProgress.NextIsInserted(c, s, j, a);
  }

  /** A move of task j. */
  lemma GoodMove(c: Config, s: State, r: State, j: nat) returns (q: State)
    requires Reaches(c, s, r) && Good(c, r) && j < |r.tasks|
    ensures q == Apply(c, r, Advance(j)) && Reaches(c, s, q) && Good(c, q) && OthersStay(r, q, j)
    ensures q.tasks[j].job == r.tasks[j].job
  {
    AdvanceKeepsJob(c, r, j);
    AdvanceTouchesOne(c, r, j);
    GoodAdvance(c, r, j);
    q := ReachNext(c, s, r, Advance(j));
  }

  lemma StayTogether(s: State, r: State, q: State, j: nat)
    requires OthersStay(s, r, j) && OthersStay(r, q, j)
    ensures OthersStay(s, q, j)
  {
  }

  lemma NotifyThenRead(c: Config, s: State, j: nat)
    requires j < |s.tasks| && s.tasks[j].phase.Notifying?
    ensures var r := Apply(c, s, Advance(j));
            j < |r.tasks| && r.tasks[j].phase.Reading? && |r.tasks[j].phase.ids| == |s.tasks[j].phase.ids| + 1
  {
  }

  lemma ReadsOne(c: Config, s: State, r: State, j: nat, a: nat, n: nat) returns (q: State)
    requires Reaches(c, s, r) && Good(c, r) && Reads(r, j, a, n)
    requires a < |r.out.senders| && n < |r.out.senders[a].announced|
    ensures Reaches(c, s, q) && Good(c, q) && OthersStay(r, q, j) && Reads(q, j, a, n + 1)
  {
    AnnouncementIsRead(c, r, j, a, n);
    var p := GoodMove(c, s, r, j);
    NotifyThenRead(c, p, j);
    q := GoodMove(c, s, p, j);
    StayTogether(r, p, q, j);
  }

  lemma {:induction false} ReadsOn(c: Config, s: State, r: State, j: nat, a: nat, n: nat, m: nat) returns (q: State)
    requires Reaches(c, s, r) && Good(c, r) && Reads(r, j, a, n)
    requires a < |r.out.senders| && n <= m <= |r.out.senders[a].announced|
    ensures Reaches(c, s, q) && Good(c, q) && OthersStay(r, q, j) && Reads(q, j, a, m)
    decreases m - n
  {
    q := r;
    if n < m {
      q := ReadsOne(c, s, r, j, a, n);
      q := ReadsOn(c, s, q, j, a, n + 1, m);
    }
  }

  /** The route is there, and whoever registered it has notified. */
  predicate Settled(s: State, id: u16) {
    id in s.reg.routes && !SquicWakeups.Registering(s, id)
  }

  /** What a control task holds, past its notify, is settled. */
  lemma HeldIsSettled(c: Config, s: State, j: nat, id: u16)
    requires Good(c, s) && j < |s.tasks| && id in Registered(s.tasks[j]) && !s.tasks[j].phase.Notifying?
    ensures Settled(s, id)
  {
    assert Registered(s.tasks[j]) <= s.reg.routes.Keys;
    RegisteredIsOwn(c, s, j, id);
    forall k | 0 <= k < |s.tasks| && s.tasks[k].phase.Notifying? ensures s.tasks[k].phase.id != id {
      if s.tasks[k].phase.id == id {
        SoleHolder(c, s, k, j, id);
      }
    }
  }

  /** Where the id of a pending datagram was announced. */
  lemma AnnouncedFor(c: Config, s: State, i: nat, id: u16) returns (a: nat, m: nat)
    requires Good(c, s) && Stalled(s, i, id)
    ensures id < |s.out.allocations| && a == s.out.allocations[id].association < |s.out.senders|
    ensures m < |s.out.senders[a].announced| && s.out.senders[a].announced[m].id == id
    ensures s.tasks[i].job.datagram in s.out.datagrams && |s.tasks[i].job.datagram| >= 2
  {
    assert TaskOk(c, s.out, s.tasks[i], QueuedBy(s.events, i));
    var bytes := s.tasks[i].job.datagram;
    assert DatagramOk(s.out, bytes);
    a := s.out.allocations[id].association;
    var n := Announcement(s.out.allocations[id].destination, id);
    m :| 0 <= m < |s.out.senders[a].announced| && s.out.senders[a].announced[m] == n;
  }

  /** A control task that reads gets to the announcement, and the route is settled. */
  lemma ReaderSettles(c: Config, s: State, r: State, i: nat, id: u16, j: nat, n: nat) returns (q: State)
    requires Reaches(c, s, r) && Good(c, r) && Stalled(r, i, id) && id < |r.out.allocations|
    requires Reads(r, j, r.out.allocations[id].association, n)
    ensures Reaches(c, s, q) && Good(c, q) && Stalled(q, i, id) && q.tasks[i] == r.tasks[i] && Settled(q, id)
  {
    var a, m := AnnouncedFor(c, r, i, id);
    q := r;
    if n <= m + 1 {
      q := ReadsOn(c, s, r, j, a, n, m + 1);
    }
    assert TaskOk(c, q.out, q.tasks[j], QueuedBy(q.events, j));
    assert q.tasks[j].phase.ids[m] == id;
    HeldIsSettled(c, q, j, id);
  }

  /** A control task that is not over can still settle the route. */
  lemma TaskCanSettle(c: Config, s: State, i: nat, id: u16, j: nat) returns (q: State)
    requires Good(c, s) && Reaches(c, s, s) && Stalled(s, i, id) && id < |s.out.allocations| && j < |s.tasks|
    requires s.tasks[j].job == Associate(s.out.allocations[id].association) && !Over(s.tasks[j].phase, id)
    ensures Reaches(c, s, q) && Good(c, q) && Stalled(q, i, id) && q.tasks[i] == s.tasks[i] && Settled(q, id)
  {
    assert TaskOk(c, s.out, s.tasks[j], QueuedBy(s.events, j));
    q := s;
    if s.tasks[j].phase.Removing? {
      HeldIsSettled(c, s, j, id);
    } else if s.tasks[j].phase.Reading? {
      q := ReaderSettles(c, s, s, i, id, j, |s.tasks[j].phase.ids|);
    } else {
      q := NotifierSettles(c, s, i, id, j);
    }
  }

  lemma NotifierSettles(c: Config, s: State, i: nat, id: u16, j: nat) returns (q: State)
    requires Good(c, s) && Reaches(c, s, s) && Stalled(s, i, id) && id < |s.out.allocations| && j < |s.tasks|
    requires s.tasks[j].job == Associate(s.out.allocations[id].association) && s.tasks[j].phase.Notifying?
    ensures Reaches(c, s, q) && Good(c, q) && Stalled(q, i, id) && q.tasks[i] == s.tasks[i] && Settled(q, id)
  {
    NotifyThenRead(c, s, j);
    q := GoodMove(c, s, s, j);
    q := ReaderSettles(c, s, q, i, id, j, |s.tasks[j].phase.ids| + 1);
  }

  lemma NewcomerSettles(c: Config, s: State, i: nat, id: u16) returns (q: State)
    requires Good(c, s) && Reaches(c, s, s) && Stalled(s, i, id) && id < |s.out.allocations|
    requires Arrives(c, s, Associate(s.out.allocations[id].association))
    ensures Reaches(c, s, q) && Good(c, q) && Stalled(q, i, id) && q.tasks[i] == s.tasks[i] && Settled(q, id)
  {
    var a := s.out.allocations[id].association;
    GoodAccept(c, s, a);
    q := ReachNext(c, s, s, Accept(Associate(a)));
    q := ReaderSettles(c, s, q, i, id, |s.tasks|, 0);
  }

  /** A control stream that is not over can still settle the route. */
  lemma CanSettle(c: Config, s: State, i: nat, id: u16) returns (q: State)
    requires Good(c, s) && Stalled(s, i, id) && !exists j :: Ended(s, j, id)
    ensures Reaches(c, s, q) && Good(c, q) && Stalled(q, i, id) && q.tasks[i] == s.tasks[i] && Settled(q, id)
  {
    var a, m := AnnouncedFor(c, s, i, id);
    Here(c, s);
    if j :| 0 <= j < |s.tasks| && s.tasks[j].job == Associate(a) {
      assert !Ended(s, j, id);
      q := TaskCanSettle(c, s, i, id, j);
    } else {
      q := NewcomerSettles(c, s, i, id);
    }
  }

  lemma Here(c: Config, s: State)
    ensures Reaches(c, s, s)
  {
    assert AllowedRun(c, s, []) && Continue(c, s, []) == s;
  }

  lemma StepCloser(c: Config, s: State, i: nat, id: u16)
    requires Stalled(s, i, id) && id in s.reg.routes && SquicWakeups.Awake(s, s.tasks[i].phase, id)
    requires !s.tasks[i].phase.LookingUp?
    ensures var r := Apply(c, s, Advance(i));
            && Stalled(r, i, id) && id in r.reg.routes && SquicWakeups.Awake(r, r.tasks[i].phase, id)
            && r.tasks[i].job == s.tasks[i].job
            && SquicWakeups.RoutedRank(r.tasks[i].phase) < SquicWakeups.RoutedRank(s.tasks[i].phase)
  {
    AdvanceKeepsJob(c, s, i);
    AdvanceTouchesOne(c, s, i);
    SquicWakeups.OwnMove(c, s, i, id);
  }

  lemma Finds(c: Config, s: State, i: nat)
    requires i < |s.tasks| && s.tasks[i].phase.LookingUp? && s.tasks[i].phase.id in s.reg.routes
    requires s.tasks[i].job.Payload? && |s.tasks[i].job.datagram| >= 2
    ensures var r := Apply(c, s, Advance(i));
            && |r.tasks| == |s.tasks| && r.tasks[i].job == s.tasks[i].job && r.tasks[i].phase.Routed?
            && Apply(c, r, Advance(i)).tasks[i].phase.Done?
  {
    RoutedGoesOn(c, Apply(c, s, Advance(i)), i);
  }

  lemma LooksAndDelivers(c: Config, s: State, r: State, i: nat) returns (q: State)
    requires Reaches(c, s, r) && Good(c, r) && i < |r.tasks| && r.tasks[i].phase.LookingUp?
    requires r.tasks[i].job.Payload? && |r.tasks[i].job.datagram| >= 2 && r.tasks[i].phase.id in r.reg.routes
    ensures Reaches(c, s, q) && Good(c, q) && OthersStay(r, q, i)
    ensures q.tasks[i].job == r.tasks[i].job && q.tasks[i].phase.Done?
  {
    Finds(c, r, i);
    var p := GoodMove(c, s, r, i);
    q := GoodMove(c, s, p, i);
    StayTogether(r, p, q, i);
  }

  /** A datagram whose route is settled is delivered by its own moves. */
  lemma {:induction false} GoesThrough(c: Config, s: State, r: State, i: nat, id: u16) returns (q: State)
    requires Reaches(c, s, r) && Good(c, r) && Stalled(r, i, id) && id in r.reg.routes
    requires SquicWakeups.Awake(r, r.tasks[i].phase, id) && |r.tasks[i].job.datagram| >= 2
    ensures Reaches(c, s, q) && Good(c, q) && OthersStay(r, q, i)
    ensures q.tasks[i].job == r.tasks[i].job && q.tasks[i].phase.Done?
    decreases SquicWakeups.RoutedRank(r.tasks[i].phase)
  {
    if r.tasks[i].phase.LookingUp? {
      q := LooksAndDelivers(c, s, r, i);
    } else {
      StepCloser(c, r, i, id);
      var p := GoodMove(c, s, r, i);
      q := GoesThrough(c, s, p, i, id);
      StayTogether(r, p, q, i);
    }
  }

  lemma SettledIsAwake(c: Config, s: State, i: nat, id: u16)
    requires Good(c, s) && Stalled(s, i, id) && Settled(s, id)
    ensures SquicWakeups.Awake(s, s.tasks[i].phase, id)
  {
    assert SquicWakeups.WaiterOk(s, s.tasks[i].phase);
  }

  lemma {:induction false} TasksGrow(c: Config, s: State, steps: seq<Step>)
    ensures |s.tasks| <= |Continue(c, s, steps).tasks|
    decreases |steps|
  {
    if steps != [] {
      TasksPersist(c, s, steps[0]);
      TasksGrow(c, Apply(c, s, steps[0]), steps[1..]);
    }
  }

  /** No datagram but that of task i is pending. */
  predicate OnlyPending(s: State, i: nat) {
    forall k :: 0 <= k < |s.tasks| && k != i && s.tasks[k].job.Payload? ==> s.tasks[k].phase.Done?
  }

  lemma StalledIsOnlyPending(c: Config, s: State, i: nat, id: u16)
    requires Good(c, s) && Stalled(s, i, id)
    ensures OnlyPending(s, i)
  {
  }

  /** With its one pending datagram done, the loop takes another. */
  lemma TakesAnother(c: Config, s: State, r: State, i: nat) returns (q: State)
    requires Reaches(c, s, r) && c.role.Client? && r.closing.NotClosing?
    requires i < |r.tasks| && r.tasks[i].job.Payload? && r.tasks[i].job.datagram in r.out.datagrams
    requires r.tasks[i].phase.Done? && OnlyPending(r, i)
    ensures Reaches(c, s, q) && q.out == r.out && !NoneAccepted(s, q)
  {
    var steps :| AllowedRun(c, s, steps) && Continue(c, s, steps) == r;
    TasksGrow(c, s, steps);
    q := ReachNext(c, s, r, Accept(Payload(r.tasks[i].job.datagram)));
    assert Incoming(q.tasks[|r.tasks|].job);
  }

  /** A datagram that is through makes way for another. */
  lemma MakesWay(c: Config, s: State, r: State, q: State, i: nat) returns (last: State)
    requires Reaches(c, s, q) && c.role.Client? && q.closing.NotClosing?
    requires i < |r.tasks| && OnlyPending(r, i) && OthersStay(r, q, i)
    requires q.tasks[i].job.Payload? && q.tasks[i].job.datagram in r.out.datagrams && q.tasks[i].phase.Done?
    ensures Reaches(c, s, last) && last.out == q.out && !NoneAccepted(s, last)
  {
    last := TakesAnother(c, s, q, i);
  }

  /** A settled datagram goes through, and the loop takes another. */
  lemma SettledGoesOn(c: Config, s: State, r: State, i: nat, id: u16) returns (q: State)
    requires Reaches(c, s, r) && Good(c, r) && Stalled(r, i, id) && Settled(r, id)
    ensures Reaches(c, s, q) && |q.out.allocations| <= IDS && !NoneAccepted(s, q)
  {
    SettledIsAwake(c, r, i, id);
    StalledIsOnlyPending(c, r, i, id);
    var a, m := AnnouncedFor(c, r, i, id);
    q := GoesThrough(c, s, r, i, id);
    q := MakesWay(c, s, r, q, i);
  }

  lemma CanGoOn(c: Config, s: State, i: nat, id: u16) returns (q: State)
    requires Good(c, s) && Stalled(s, i, id) && !exists j :: Ended(s, j, id)
    ensures Reaches(c, s, q) && |q.out.allocations| <= IDS && !NoneAccepted(s, q)
  {
    q := CanSettle(c, s, i, id);
    q := SettledGoesOn(c, s, q, i, id);
  }

  /** The stall lasts for good, in every run of the loop within the id bound, exactly when the control stream of
      the datagram's id has ended and left no route. */
  lemma StallExactly(c: Config, steps: seq<Step>, i: nat, id: u16)
    requires Lawful(c.ip) && c.role.Client? && |Exec(c, steps).out.allocations| <= IDS
    requires AllowedRun(c, INITIAL, steps) && Stalled(Exec(c, steps), i, id)
    ensures (forall r | Reaches(c, Exec(c, steps), r) && |r.out.allocations| <= IDS :: NoneAccepted(Exec(c, steps), r))
            <==> exists j :: Ended(Exec(c, steps), j, id)
  {
    var s := Exec(c, steps);
    if j :| Ended(s, j, id) {
      forall r | Reaches(c, s, r) && |r.out.allocations| <= IDS ensures NoneAccepted(s, r) {
        var more :| AllowedRun(c, s, more) && Continue(c, s, more) == r;
        StalledForGood(c, steps, more, i, j, id);
      }
    } else {
      LoopStateIsGood(c, steps);
      var q := CanGoOn(c, s, i, id);
    }
  }

  lemma LoopStateIsGood(c: Config, steps: seq<Step>)
    requires Lawful(c.ip) && c.role.Client? && |Exec(c, steps).out.allocations| <= IDS
    requires AllowedRun(c, INITIAL, steps)
    ensures Good(c, Exec(c, steps))
  {
    NeverClosed(c, steps);
    RunsAreSound(c, steps);
    OwnRuns(c, steps);
    ExecAppend(c, [], steps);
    assert [] + steps == steps;
    SquicWakeups.RunsKeep(c, INITIAL, steps);
    OneAtATime(c, INITIAL, steps);
  }
}
