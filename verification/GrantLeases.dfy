/**
 The grant queue and the scheduler together. The scheduler takes any steps at all, some of them grants
 made in answer to the queue's outstanding call; the queue works as before. What a queued grant's lease
 is, that it is new and that it still runs when the grant is handed out are not assumed here but follow
 from the scheduler's own registry.
 */
module GrantLeases {
  import opened Basics
  import opened TaskGrantKeepers
  import DispatcherModel
  import DispatcherProofs

  /** `granted`: what the scheduler has granted to the outstanding call; `withdrawn`: live tasks it gave up. */
  datatype Joint = Joint(
    scheduler: DispatcherModel.State, keeper: Keeper, granted: seq<Allocated>, withdrawn: set<nat>)

  datatype Act =
    | Scheduler(op: DispatcherProofs.Op)
    | GrantUs(request: DispatcherModel.Request, prefetch: bool)
    | Ours(action: Action)

  function JointInit(minMemory: nat, now: int): Joint
  {
    Joint(DispatcherModel.Init(minMemory), Init(now), [], {})
  }

  predicate Punctual(op: DispatcherProofs.Op, now: int)
  {
    match op
    case AllocateOp(at, _, _, _) => at == now
    case RenewOp(at, _, _) => at == now
    case HeartbeatOp(at, _, _) => at == now
    case TimerOp(at) => at == now
    case _ => true
  }

  /** A grant that nobody holds yet: queued, or on its way to the queue. */
  ghost predicate Unheld(j: Joint, id: nat)
  {
    || (exists i :: |j.keeper.fates| <= i < |j.keeper.log| && j.keeper.log[i].grant.id == id)
    || (exists g <- j.granted :: g.id == id)
  }

  /** Only the holder of a grant renews it; an answer carries what was granted to the call. */
  ghost predicate JointEnabled(j: Joint, a: Act, now: int)
  {
    && j.keeper.clock <= now
    && match a
       case Scheduler(op) => Punctual(op, now) && (op.RenewOp? ==> !Unheld(j, op.task))
       case GrantUs(_, _) => j.keeper.fetch.Calling?
       case Ours(b) =>
         if b.Answer? then
           j.keeper.fetch.Calling? && now <= j.keeper.fetch.since + RPC_TIMEOUT && b.grants == j.granted
         else Enabled(j.keeper, b, now)
  }

  ghost function Lost(s: DispatcherModel.State, r: DispatcherModel.State): set<nat>
  {
    set t | t in s.tasks && !s.tasks[t].zombie && t !in r.tasks
  }

  function NewGrant(outcome: DispatcherModel.Outcome, now: int): seq<Allocated>
  {
    if outcome.Granted? then [Allocated(outcome.task, outcome.location, now)] else []
  }

  ghost function JointStep(j: Joint, a: Act, now: int): Joint
    requires JointEnabled(j, a, now) && (a.Ours? ==> Enabled(j.keeper, a.action, now))
  {
    match a
    case Scheduler(op) =>
      var r := DispatcherProofs.Step(j.scheduler, op);
      j.(scheduler := r, keeper := j.keeper.(clock := now), withdrawn := j.withdrawn + Lost(j.scheduler, r))
    case GrantUs(request, prefetch) =>
      var (r, outcome) := DispatcherModel.Allocate(j.scheduler, now, request, EXPIRES_IN, prefetch);
      j.(scheduler := r, keeper := j.keeper.(clock := now), granted := j.granted + NewGrant(outcome, now))
    case Ours(b) =>
      j.(keeper := Step(j.keeper, b, now),
         granted := if b.BeginFetch? || b.Answer? || b.FailFetch? then [] else j.granted)
  }

  // ---------------------------------------------------------------- invariant

  /** What the scheduler knows of a grant that nobody holds yet. */
  ghost predicate Leased(s: DispatcherModel.State, withdrawn: set<nat>, clock: int, id: nat, lease: int)
  {
    && id < s.nextTask
    && if id in s.tasks then s.tasks[id].expiresAt == lease && (s.tasks[id].zombie ==> lease < clock)
       else id in withdrawn || lease < clock
  }

  ghost predicate QueueLeased(j: Joint)
  {
    && |j.keeper.fates| <= |j.keeper.log|
    && forall i :: |j.keeper.fates| <= i < |j.keeper.log| ==>
         Leased(j.scheduler, j.withdrawn, j.keeper.clock, j.keeper.log[i].grant.id, j.keeper.log[i].lease)
  }

  ghost predicate GrantedLeased(j: Joint)
  {
    forall i :: 0 <= i < |j.granted| ==>
      Leased(j.scheduler, j.withdrawn, j.keeper.clock, j.granted[i].id, j.granted[i].at + EXPIRES_IN)
  }

  /** Every id the queue has seen was issued, and what is on its way is new to it. */
  ghost predicate Fresh(j: Joint)
  {
    && (forall i :: 0 <= i < |j.keeper.log| ==> j.keeper.log[i].grant.id < j.scheduler.nextTask)
    && (j.granted != [] ==> j.keeper.fetch.Calling?)
    && (forall i :: 0 <= i < |j.granted| ==>
          j.keeper.fetch.Calling? && j.keeper.fetch.since <= j.granted[i].at <= j.keeper.clock
          && j.granted[i].id < j.scheduler.nextTask)
    && (forall i, k :: 0 <= i < |j.granted| && 0 <= k < |j.keeper.log| ==> j.keeper.log[k].grant.id != j.granted[i].id)
    && (forall i, k :: 0 <= i < k < |j.granted| ==> j.granted[i].id != j.granted[k].id)
  }

  ghost predicate JointInv(j: Joint)
  {
    && DispatcherModel.Inv(j.scheduler) && Inv(j.keeper)
    && QueueLeased(j) && GrantedLeased(j) && Fresh(j)
  }

  /** Genuine answers are not an assumption: the scheduler's ids make them so. */
  lemma AnswersAreGenuine(j: Joint, now: int)
    requires Fresh(j) && j.keeper.fetch.Calling? && j.keeper.clock <= now
    ensures Genuine(j.keeper.log, j.granted, j.keeper.fetch.since, now)
  {
    forall g | g in j.granted
      ensures j.keeper.fetch.since <= g.at <= now && forall p <- j.keeper.log :: p.grant.id != g.id
    {
      var i :| 0 <= i < |j.granted| && j.granted[i] == g;
      forall p | p in j.keeper.log ensures p.grant.id != g.id {
        var k :| 0 <= k < |j.keeper.log| && j.keeper.log[k] == p;
      }
    }
  }

  lemma ActionsAreEnabled(j: Joint, b: Action, now: int)
    requires JointInv(j) && JointEnabled(j, Ours(b), now)
    ensures Enabled(j.keeper, b, now)
  {
    if b.Answer? {
      AnswersAreGenuine(j, now);
    }
  }

  // ---------------------------------------------------------------- preservation

  /** No step of the scheduler but a renewal touches a lease, and zombies are late. */
  lemma LeaseKept(
    s: DispatcherModel.State, withdrawn: set<nat>, clock: int, op: DispatcherProofs.Op, now: int, id: nat, lease: int)
    requires DispatcherModel.Inv(s) && Leased(s, withdrawn, clock, id, lease) && clock <= now
    requires Punctual(op, now) && (op.RenewOp? ==> op.task != id)
    ensures var r := DispatcherProofs.Step(s, op); Leased(r, withdrawn + Lost(s, r), now, id, lease)
  {
    var r := DispatcherProofs.Step(s, op);
    DispatcherProofs.StepAges(s, op);
    if id in r.tasks {
      TaskAfter(s, op, id);
    }
  }

  /** The registry entry of a task after a step that is no renewal of it. */
  lemma TaskAfter(s: DispatcherModel.State, op: DispatcherProofs.Op, t: nat)
    requires t < s.nextTask && (op.RenewOp? ==> op.task != t) && t in DispatcherProofs.Step(s, op).tasks
    ensures t in s.tasks && DispatcherProofs.Step(s, op).tasks[t].expiresAt == s.tasks[t].expiresAt
    ensures DispatcherProofs.Step(s, op).tasks[t].zombie <==>
      s.tasks[t].zombie || (op.TimerOp? && s.tasks[t].expiresAt < op.now)
  {
  }

  lemma SchedulerKeeps(j: Joint, op: DispatcherProofs.Op, now: int)
    requires JointInv(j) && JointEnabled(j, Scheduler(op), now)
    ensures JointInv(JointStep(j, Scheduler(op), now))
  {
    hide DispatcherModel.Inv, DispatcherProofs.Step;
    var s := j.scheduler;
    var r := JointStep(j, Scheduler(op), now);
    DispatcherProofs.StepKeeps(s, op);
    DispatcherProofs.StepAges(s, op);
    ClockKeeps(j.keeper, now);
    forall i | |j.keeper.fates| <= i < |j.keeper.log|
      ensures Leased(r.scheduler, r.withdrawn, now, j.keeper.log[i].grant.id, j.keeper.log[i].lease)
    {
      LeaseKept(s, j.withdrawn, j.keeper.clock, op, now, j.keeper.log[i].grant.id, j.keeper.log[i].lease);
    }
    forall i | 0 <= i < |j.granted|
      ensures Leased(r.scheduler, r.withdrawn, now, j.granted[i].id, j.granted[i].at + EXPIRES_IN)
    {
      assert j.granted[i] in j.granted;
      LeaseKept(s, j.withdrawn, j.keeper.clock, op, now, j.granted[i].id, j.granted[i].at + EXPIRES_IN);
    }
  }

  lemma ClockKeeps(k: Keeper, now: int)
    requires Inv(k) && k.clock <= now
    ensures Inv(k.(clock := now))
  {
  }

  /** A grant made to us is an ordinary allocation, recorded. */
  lemma GrantKeeps(j: Joint, request: DispatcherModel.Request, prefetch: bool, now: int)
    requires JointInv(j) && JointEnabled(j, GrantUs(request, prefetch), now)
    ensures JointInv(JointStep(j, GrantUs(request, prefetch), now))
  {
    var op := DispatcherProofs.AllocateOp(now, request, EXPIRES_IN, prefetch);
    var plain := JointStep(j, Scheduler(op), now);
    var r := JointStep(j, GrantUs(request, prefetch), now);
    AllocationLosesNothing(j.scheduler, now, request, prefetch);
    assert plain == r.(granted := j.granted);
    SchedulerKeeps(j, op, now);
    var outcome := DispatcherModel.Allocate(j.scheduler, now, request, EXPIRES_IN, prefetch).1;
    assert r.granted == j.granted + NewGrant(outcome, now);
    hide DispatcherModel.Inv, DispatcherModel.Allocate, Inv, QueueLeased, JointStep, JointEnabled;
    assert QueueLeased(r) by { QueueLeasedAlone(plain, r); }
    if outcome.Granted? {
      RecordKeeps(j, plain, Allocated(outcome.task, outcome.location, now));
    } else {
      assert r == plain;
    }
  }

  lemma QueueLeasedAlone(j: Joint, r: Joint)
    requires QueueLeased(j) && r == j.(granted := r.granted)
    ensures QueueLeased(r)
  {
  }

  lemma RecordKeeps(j: Joint, r: Joint, g: Allocated)
    requires Fresh(j) && Fresh(r) && GrantedLeased(r) && r.granted == j.granted && r.keeper.log == j.keeper.log
    requires g.id == j.scheduler.nextTask < r.scheduler.nextTask && r.keeper.fetch.Calling? && g.at == r.keeper.clock
    requires r.keeper.fetch.since <= r.keeper.clock
    requires Leased(r.scheduler, {}, r.keeper.clock, g.id, g.at + EXPIRES_IN)
    ensures Fresh(r.(granted := j.granted + [g])) && GrantedLeased(r.(granted := j.granted + [g]))
  {
  }

  lemma AllocationLosesNothing(s: DispatcherModel.State, now: int, request: DispatcherModel.Request, prefetch: bool)
    ensures var op := DispatcherProofs.AllocateOp(now, request, EXPIRES_IN, prefetch);
      var (r, outcome) := DispatcherModel.Allocate(s, now, request, EXPIRES_IN, prefetch);
      && Lost(s, DispatcherProofs.Step(s, op)) == {}
      && (outcome.Granted? ==>
            && outcome.task == s.nextTask && r.nextTask == s.nextTask + 1
            && Leased(r, {}, now, outcome.task, now + EXPIRES_IN))
  {
  }

  lemma OursKeeps(j: Joint, b: Action, now: int)
    requires JointInv(j) && JointEnabled(j, Ours(b), now) && Enabled(j.keeper, b, now)
    ensures JointInv(JointStep(j, Ours(b), now))
  {
    StepKeeps(j.keeper, b, now);
    LogAfter(j.keeper, b, now);
    var r := JointStep(j, Ours(b), now);
    if b.Answer? {
      QueuedLeased(j, now);
    }
    hide DispatcherModel.Inv, Inv, Step, Enabled;
    LaterLeased(j, now);
  }

  /** Time alone keeps a lease. */
  lemma LaterLeased(j: Joint, now: int)
    requires j.keeper.clock <= now
    ensures QueueLeased(j) ==> QueueLeased(j.(keeper := j.keeper.(clock := now)))
    ensures GrantedLeased(j) ==> GrantedLeased(j.(keeper := j.keeper.(clock := now)))
  {
  }

  /** What the queue's steps do to its log. */
  lemma LogAfter(k: Keeper, b: Action, now: int)
    requires Inv(k) && Enabled(k, b, now)
    ensures var r := Step(k, b, now);
      && r.clock == now && |k.fates| <= |r.fates| <= |r.log|
      && r.log == (if b.Answer? then k.log + Queued(b.grants, k.fetch.since, now) else k.log)
      && (if b.BeginFetch? then r.fetch == Calling(now)
          else if b.Answer? || b.FailFetch? then r.fetch == NoFetch
          else r.fetch == k.fetch)
  {
    StepKeeps(k, b, now);
  }

  /** What the answer queues is leased as it was granted. */
  lemma QueuedLeased(j: Joint, now: int)
    requires GrantedLeased(j) && j.keeper.fetch.Calling? && j.keeper.clock <= now
    ensures var q := Queued(j.granted, j.keeper.fetch.since, now);
      && |q| == |j.granted|
      && forall i :: 0 <= i < |q| ==>
           q[i].grant.id == j.granted[i].id && Leased(j.scheduler, j.withdrawn, now, q[i].grant.id, q[i].lease)
  {
  }

  lemma JointStepKeeps(j: Joint, a: Act, now: int)
    requires JointInv(j) && JointEnabled(j, a, now)
    ensures a.Ours? ==> Enabled(j.keeper, a.action, now)
    ensures JointInv(JointStep(j, a, now))
  {
    hide JointInv, JointStep, Enabled;
    match a
    case Scheduler(op) => SchedulerKeeps(j, op, now);
    case GrantUs(request, prefetch) => GrantKeeps(j, request, prefetch, now);
    case Ours(b) =>
      ActionsAreEnabled(j, b, now);
      OursKeeps(j, b, now);
  }

  // ---------------------------------------------------------------- whole runs

  datatype TimedAct = TimedAct(act: Act, now: int)

  ghost predicate JointRunnable(j: Joint, run: seq<TimedAct>)
    requires JointInv(j)
    decreases |run|
  {
    run == [] ||
    (&& JointEnabled(j, run[0].act, run[0].now)
     && (JointStepKeeps(j, run[0].act, run[0].now); JointRunnable(JointStep(j, run[0].act, run[0].now), run[1..])))
  }

  ghost function JointRun(j: Joint, run: seq<TimedAct>): (r: Joint)
    requires JointInv(j) && JointRunnable(j, run)
    ensures JointInv(r)
    decreases |run|
  {
    if run == [] then j
    else JointStepKeeps(j, run[0].act, run[0].now); JointRun(JointStep(j, run[0].act, run[0].now), run[1..])
  }

  // ---------------------------------------------------------------- at hand-out

  /** The step hands out the grant at position `n` of the log. */
  predicate HandsOut(k: Keeper, b: Action, now: int, n: nat)
    requires Enabled(k, b, now)
  {
    var r := Step(k, b, now);
    |k.fates| <= n == |r.fates| - 1 && n < |k.log| && r.fates[n].HandedOut?
  }

  /**
   In every run of the scheduler and the queue, whatever the scheduler does besides, no grant id enters
   the queue twice, and when a grant is handed out the scheduler's own task for it is no zombie and
   expires no sooner than four seconds later, five if the caller did not wait, unless the scheduler has
   given the task up before.
   */
  lemma HandedOutIsLive(minMemory: nat, start: int, run: seq<TimedAct>, b: Action, now: int, n: nat)
    requires JointRunnable(JointInit(minMemory, start), run)
    requires var j := JointRun(JointInit(minMemory, start), run);
      JointEnabled(j, Ours(b), now) && Enabled(j.keeper, b, now) && HandsOut(j.keeper, b, now, n)
    ensures var j := JointRun(JointInit(minMemory, start), run);
      var id := j.keeper.log[n].grant.id;
      var wait := if b.WakeUp? then 4 * SECOND else 5 * SECOND;
      && (forall i :: 0 <= i < |j.keeper.log| && i != n ==> j.keeper.log[i].grant.id != id)
      && (id !in j.withdrawn ==>
            id in j.scheduler.tasks && !j.scheduler.tasks[id].zombie && j.scheduler.tasks[id].expiresAt >= now + wait)
  {
    var j := JointRun(JointInit(minMemory, start), run);
    HandOut(j, b, now, n);
  }

  lemma HandOut(j: Joint, b: Action, now: int, n: nat)
    requires JointInv(j) && Enabled(j.keeper, b, now) && HandsOut(j.keeper, b, now, n)
    ensures var id := j.keeper.log[n].grant.id;
      var wait := if b.WakeUp? then 4 * SECOND else 5 * SECOND;
      && (forall i :: 0 <= i < |j.keeper.log| && i != n ==> j.keeper.log[i].grant.id != id)
      && (id !in j.withdrawn ==>
            id in j.scheduler.tasks && !j.scheduler.tasks[id].zombie && j.scheduler.tasks[id].expiresAt >= now + wait)
  {
    StepKeeps(j.keeper, b, now);
    var r := Step(j.keeper, b, now);
    assert Proper(r.log[n], r.fates[n]);
    assert Leased(j.scheduler, j.withdrawn, j.keeper.clock, j.keeper.log[n].grant.id, j.keeper.log[n].lease);
  }

  /** What giving a live task up means: a free, or its servant's expiry. */
  lemma LostMeans(s: DispatcherModel.State, op: DispatcherProofs.Op, t: nat)
    requires DispatcherModel.Inv(s) && t in Lost(s, DispatcherProofs.Step(s, op))
    ensures op == DispatcherProofs.FreeOp(t) ||
      (op.TimerOp? && !DispatcherModel.Registered(DispatcherModel.Alive(s.servants, op.now), s.tasks[t].servant))
  {
    DispatcherProofs.TasksHoldTheirSlots(s, op, t);
  }

  /** Until its lease ends, whatever the scheduler does, such a task is there and no zombie, unless given up or renewed. */
  lemma {:induction false} StaysLive(s: DispatcherModel.State, ops: seq<DispatcherProofs.Op>, t: nat)
    requires DispatcherModel.Inv(s) && t in s.tasks && !s.tasks[t].zombie && t < s.nextTask
    requires forall i :: 0 <= i < |ops| ==>
      (ops[i].TimerOp? ==> ops[i].now <= s.tasks[t].expiresAt) && (ops[i].RenewOp? ==> ops[i].task != t)
    ensures var r := DispatcherProofs.Run(s, ops);
      || (t in r.tasks && !r.tasks[t].zombie && r.tasks[t].expiresAt == s.tasks[t].expiresAt)
      || GivenUp(s, ops, t)
  {
    if ops != [] {
      var front, op := ops[..|ops| - 1], ops[|ops| - 1];
      StaysLive(s, front, t);
      var q := DispatcherProofs.Run(s, front);
      DispatcherProofs.RunKeeps(s, front);
      DispatcherProofs.GrantIdsIncrease(s, front);
      hide DispatcherModel.Inv, DispatcherProofs.Step;
      if !GivenUp(s, front, t) {
        if t in DispatcherProofs.Step(q, op).tasks {
          TaskAfter(q, op, t);
        }
      }
    }
  }

  /** Some step of the run drops the live task. */
  ghost predicate GivenUp(s: DispatcherModel.State, ops: seq<DispatcherProofs.Op>, t: nat)
  {
    ops != [] &&
    var front := ops[..|ops| - 1];
    GivenUp(s, front, t) || t in Lost(DispatcherProofs.Run(s, front), DispatcherProofs.Run(s, ops))
  }
}
