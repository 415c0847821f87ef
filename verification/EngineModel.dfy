/**
 The servant's execution engine as a state machine. Every section under the engine's lock, every
 atomic operation outside it and every step of the child reaper is one action, in any interleaving;
 TryQueueTask is split further, because the reaper and Stop read the exit flag and the slot counter
 without the lock. The operating system is part of the state: children not yet waited for, and exit
 callbacks that were started but have not run.
 */
module EngineModel {

  datatype Task = Task(grant: nat, refs: int, running: bool, completedAt: int, pid: nat)

  /** Who holds the lock, and how far a TryQueueTask that holds it has come. */
  datatype Lock =
    | Free
    | Checked(grant: nat)              // has seen that the engine is not exiting
    | Reserved(grant: nat, task: nat)  // has counted its task
    | Started                          // has started its process

  /** Where the reaper thread stands in its loop. */
  datatype Phase = AtCheck | AtAcquire | AtRecheck | AtWait | Done | Crashed

  datatype Engine = Engine(
    limit: nat, tasks: map<nat, Task>, runningTasks: int, nextTask: nat, exiting: bool, semaphore: int,
    lock: Lock,
    phase: Phase,
    children: set<nat>, pending: set<nat>,
    killed: bool, released: bool,  // Stop has been through its locked section; has made its release
    held: bool,                    // the reaper's last acquire was not followed by a successful wait
    spawned: nat, exited: nat,     // processes started, exit callbacks run
    completed: seq<nat>)           // tasks whose completion callback ran, in order

  datatype Action =
    | Check(grant: nat)              // TryQueueTask, in four steps
    | Reserve
    | Spawn(pid: nat, memoryLow: bool)
    | Wake
    | Reference(task: nat)
    | FreeTask(task: nat)            // its locked section; the signal follows outside the lock
    | KillFreed(pid: nat)
    | BeginStop                      // Stop, in three steps
    | KillStop
    | ReleaseStop
    | Reap(pid: nat)                 // the reaper's next step; `pid` matters only when it waits
    | Exit(pid: nat, now: int)       // an exit callback
    | Cleanup(now: int)

  const ONE_MINUTE: int := 60_000_000_000

  function Init(limit: nat): Engine
  {
    Engine(limit, map[], 0, 1, false, 0, Free, AtCheck, {}, {}, false, false, false, 0, 0, [])
  }

  /** Process ids still in use: pids are not reused while a task or the system remembers them. */
  predicate FreshPid(e: Engine, pid: nat)
  {
    pid !in e.children && pid !in e.pending && forall t <- e.tasks :: e.tasks[t].pid != pid
  }

  predicate Enabled(e: Engine, a: Action)
  {
    match a
    case Reserve => e.lock.Checked?
    case Spawn(pid, _) => e.lock.Reserved? && FreshPid(e, pid)
    case Wake => e.lock.Started?
    case BeginStop => !e.exiting
    case KillStop => e.exiting && e.lock.Free?
    case ReleaseStop => e.killed && !e.released
    case KillFreed(_) => true
    case Reap(pid) =>
      (match e.phase
       case AtAcquire => e.semaphore > 0
       case AtWait => e.children == {} || pid in e.children
       case Done => false
       case Crashed => false
       case _ => true)
    case Exit(pid, _) => e.lock.Free? && pid in e.pending
    case _ => e.lock.Free?
  }

  // ---------------------------------------------------------------- steps

  function DoCheck(e: Engine, grant: nat): Engine
  {
    if e.exiting then e else e.(lock := Checked(grant))
  }

  function DoReserve(e: Engine): Engine
    requires e.lock.Checked?
  {
    e.(lock := Reserved(e.lock.grant, e.nextTask), nextTask := e.nextTask + 1, runningTasks := e.runningTasks + 1)
  }

  function DoSpawn(e: Engine, pid: nat, memoryLow: bool): Engine
    requires e.lock.Reserved?
  {
    if e.runningTasks > e.limit || memoryLow then e.(runningTasks := e.runningTasks - 1, lock := Free)
    else
      e.(tasks := e.tasks[e.lock.task := Task(e.lock.grant, 1, true, 0, pid)], lock := Started,
         children := e.children + {pid}, spawned := e.spawned + 1)
  }

  function DoWake(e: Engine): Engine
  {
    e.(semaphore := e.semaphore + 1, lock := Free)
  }

  function DoReference(e: Engine, task: nat): Engine
  {
    if task !in e.tasks then e
    else e.(tasks := e.tasks[task := e.tasks[task].(refs := e.tasks[task].refs + 1)])
  }

  function DoFree(e: Engine, task: nat): Engine
  {
    if task !in e.tasks then e
    else if e.tasks[task].refs - 1 > 0 then
      e.(tasks := e.tasks[task := e.tasks[task].(refs := e.tasks[task].refs - 1)])
    else e.(tasks := e.tasks - {task})
  }

  predicate MoreWorkToDo(e: Engine) { !e.exiting || e.runningTasks != 0 }

  function DoReap(e: Engine, pid: nat): Engine
  {
    match e.phase
    case AtCheck => e.(phase := if MoreWorkToDo(e) then AtAcquire else Done)
    case AtAcquire => e.(semaphore := e.semaphore - 1, held := true, phase := AtRecheck)
    case AtRecheck => e.(phase := if MoreWorkToDo(e) then AtWait else Done)
    case AtWait =>
      if e.children == {} then e.(phase := if e.exiting then Done else Crashed)
      else e.(children := e.children - {pid}, pending := e.pending + {pid}, held := false, phase := AtCheck)
    case _ => e
  }

  /** The retained tasks of a process. */
  ghost predicate Owns(e: Engine, t: nat, pid: nat)
  {
    t in e.tasks && e.tasks[t].pid == pid
  }

  ghost function DoExit(e: Engine, pid: nat, now: int): Engine
  {
    var left := e.(runningTasks := e.runningTasks - 1, pending := e.pending - {pid}, exited := e.exited + 1);
    if t: nat :| Owns(e, t, pid) then
      left.(tasks := e.tasks[t := e.tasks[t].(completedAt := now, running := false)], completed := e.completed + [t])
    else left
  }

  predicate Forgotten(task: Task, now: int)
  {
    !task.running && task.completedAt + ONE_MINUTE < now
  }

  function DoCleanup(e: Engine, now: int): Engine
  {
    e.(tasks := map t | t in e.tasks && !Forgotten(e.tasks[t], now) :: e.tasks[t])
  }

  ghost function Step(e: Engine, a: Action): Engine
    requires Enabled(e, a)
  {
    match a
    case Check(grant) => DoCheck(e, grant)
    case Reserve => DoReserve(e)
    case Spawn(pid, memoryLow) => DoSpawn(e, pid, memoryLow)
    case Wake => DoWake(e)
    case Reference(task) => DoReference(e, task)
    case FreeTask(task) => DoFree(e, task)
    case KillFreed(_) => e
    case BeginStop => e.(exiting := true)
    case KillStop => e.(killed := true)
    case ReleaseStop => e.(semaphore := e.semaphore + 1, released := true)
    case Reap(pid) => DoReap(e, pid)
    case Exit(pid, now) => DoExit(e, pid, now)
    case Cleanup(now) => DoCleanup(e, now)
  }

  /** Processes that KillExpiredTasks signals. */
  ghost predicate Signals(tasks: map<nat, Task>, expired: set<nat>, pid: nat)
  {
    exists t :: t in tasks && tasks[t].running && tasks[t].grant in expired && tasks[t].pid == pid
  }

  // ---------------------------------------------------------------- invariant

  function One(b: bool): nat { if b then 1 else 0 }

  /** What the counters must show when `c` children are unreaped and `p` exit callbacks outstanding. */
  predicate Balanced(e: Engine, c: int, p: int)
  {
    && c + p == e.spawned - e.exited <= e.limit
    && e.runningTasks == c + p + One(e.lock.Reserved?)
    && 0 <= e.semaphore
    && e.semaphore + One(e.held) + One(e.lock.Started?) == c + One(e.released)
  }

  ghost predicate CountersAgree(e: Engine)
  {
    e.children !! e.pending && Balanced(e, |e.children|, |e.pending|)
  }

  ghost predicate ReaperSane(e: Engine)
  {
    && (e.released ==> e.killed)
    && (e.killed ==> e.exiting && e.lock.Free?)
    && (e.phase == AtRecheck || e.phase == AtWait ==> e.held)
    && (e.phase == AtCheck || e.phase == AtAcquire ==> !e.held)
    && (e.phase == Done ==> e.exiting)
    && e.phase != Crashed
  }

  ghost predicate TaskSane(e: Engine, t: nat)
    requires t in e.tasks
  {
    && t < e.nextTask
    && e.tasks[t].refs >= 1
    && (e.tasks[t].running <==> e.tasks[t].pid in e.children || e.tasks[t].pid in e.pending)
  }

  ghost predicate TasksSane(e: Engine)
  {
    && (forall t <- e.tasks :: TaskSane(e, t))
    && (forall t, u :: t in e.tasks && u in e.tasks && t != u ==> e.tasks[t].pid != e.tasks[u].pid)
    && (e.lock.Reserved? ==> e.lock.task < e.nextTask && e.lock.task !in e.tasks && e.lock.task !in e.completed)
  }

  ghost predicate CompletedOnce(e: Engine)
  {
    && (forall i, j :: 0 <= i < j < |e.completed| ==> e.completed[i] != e.completed[j])
    && (forall t <- e.completed :: t < e.nextTask && (t in e.tasks ==> !e.tasks[t].running))
  }

  ghost predicate Inv(e: Engine)
  {
    CountersAgree(e) && ReaperSane(e) && TasksSane(e) && CompletedOnce(e)
  }

  lemma QuietStepsBalance(e: Engine, a: Action, c: int, p: int)
    requires Balanced(e, c, p) && ReaperSane(e) && Enabled(e, a) && !a.Exit? && !a.Spawn? && !(a.Reap? && e.phase == AtWait)
    ensures Step(e, a).children == e.children && Step(e, a).pending == e.pending
    ensures Balanced(Step(e, a), c, p)
  {
    if Bookkeeping(a) {
      BookkeepingFrame(e, a);
      hide Step;
    }
  }

  lemma WaitKeepsCounters(e: Engine, pid: nat)
    requires CountersAgree(e) && ReaperSane(e) && Enabled(e, Reap(pid)) && e.phase == AtWait
    ensures CountersAgree(DoReap(e, pid))
  {
    if e.children != {} {
      assert |e.children - {pid}| == |e.children| - 1 && |e.pending + {pid}| == |e.pending| + 1;
    }
  }

  lemma CountersKept(e: Engine, a: Action)
    requires CountersAgree(e) && ReaperSane(e) && Enabled(e, a) && !a.Exit? && !a.Spawn?
    ensures CountersAgree(Step(e, a))
  {
    if a.Reap? && e.phase == AtWait {
      WaitKeepsCounters(e, a.pid);
    } else {
      QuietStepsBalance(e, a, |e.children|, |e.pending|);
      hide Step, Balanced;
    }
  }

  lemma SpawnBalances(e: Engine, pid: nat, memoryLow: bool, c: int, p: int)
    requires Balanced(e, c, p) && e.lock.Reserved?
    ensures var r := DoSpawn(e, pid, memoryLow);
      Balanced(r, if r.lock.Started? then c + 1 else c, p)
  {
  }

  lemma SpawnKeepsCounters(e: Engine, pid: nat, memoryLow: bool)
    requires CountersAgree(e) && e.lock.Reserved? && FreshPid(e, pid)
    ensures CountersAgree(DoSpawn(e, pid, memoryLow))
  {
    hide Balanced;
    SpawnBalances(e, pid, memoryLow, |e.children|, |e.pending|);
    assert |e.children + {pid}| == |e.children| + 1;
  }

  lemma ExitBalances(e: Engine, pid: nat, now: int, c: int, p: int)
    requires Balanced(e, c, p) && ReaperSane(e) && e.lock.Free?
    ensures Balanced(DoExit(e, pid, now), c, p - 1) && ReaperSane(DoExit(e, pid, now))
    ensures DoExit(e, pid, now).children == e.children && DoExit(e, pid, now).pending == e.pending - {pid}
  {
  }

  lemma ExitKeepsCounters(e: Engine, pid: nat, now: int)
    requires CountersAgree(e) && ReaperSane(e) && pid in e.pending && e.lock.Free?
    ensures CountersAgree(DoExit(e, pid, now)) && ReaperSane(DoExit(e, pid, now))
  {
    hide DoExit, Balanced;
    ExitBalances(e, pid, now, |e.children|, |e.pending|);
    assert |e.pending - {pid}| == |e.pending| - 1;
  }

  predicate Bookkeeping(a: Action) { a.Reference? || a.FreeTask? || a.Cleanup? }

  lemma BookkeepingFrame(e: Engine, a: Action)
    requires Enabled(e, a) && Bookkeeping(a)
    ensures Step(e, a) == e.(tasks := Step(e, a).tasks)
  {
  }

  lemma ReaperKept(e: Engine, a: Action)
    requires CountersAgree(e) && ReaperSane(e) && Enabled(e, a) && !a.Exit?
    ensures ReaperSane(Step(e, a))
  {
    assert e.phase == AtWait && e.children == {} ==> e.released;
    hide CountersAgree;
    if Bookkeeping(a) {
      BookkeepingFrame(e, a);
      hide Step;
    } else {
      ReaperStepKept(e, a);
    }
  }

  lemma ReaperStepKept(e: Engine, a: Action)
    requires ReaperSane(e) && Enabled(e, a) && !a.Exit? && !Bookkeeping(a)
    requires e.phase == AtWait && e.children == {} ==> e.released
    ensures ReaperSane(Step(e, a))
  {
  }

  /** Steps that leave the tasks, the pids in use and the completions alone. */
  ghost predicate SameTasks(e: Engine, r: Engine)
  {
    && r.tasks == e.tasks && r.nextTask == e.nextTask && r.completed == e.completed
    && (r.lock == e.lock || !r.lock.Reserved?)
    && (forall p: nat :: p in r.children || p in r.pending <==> p in e.children || p in e.pending)
  }

  lemma SameTasksKept(e: Engine, r: Engine)
    requires TasksSane(e) && CompletedOnce(e) && SameTasks(e, r)
    ensures TasksSane(r) && CompletedOnce(r)
  {
    forall t | t in r.tasks ensures TaskSane(r, t) {
      assert TaskSane(e, t);
    }
  }

  /** Steps that drop tasks or change reference counts, and no more. */
  ghost predicate FewerTasks(e: Engine, r: Engine)
  {
    && r == e.(tasks := r.tasks)
    && (forall t <- r.tasks :: t in e.tasks && r.tasks[t].refs >= 1 && r.tasks[t] == e.tasks[t].(refs := r.tasks[t].refs))
  }

  lemma FewerTasksKept(e: Engine, r: Engine)
    requires TasksSane(e) && CompletedOnce(e) && FewerTasks(e, r)
    ensures TasksSane(r) && CompletedOnce(r)
  {
    forall t | t in r.tasks ensures TaskSane(r, t) {
      assert TaskSane(e, t);
    }
  }

  lemma ReserveKeepsTasks(e: Engine)
    requires TasksSane(e) && CompletedOnce(e) && e.lock.Checked?
    ensures TasksSane(DoReserve(e)) && CompletedOnce(DoReserve(e))
  {
    var r := DoReserve(e);
    assert forall t <- e.tasks :: TaskSane(e, t);
    forall t | t in r.tasks ensures TaskSane(r, t) {
      assert TaskSane(e, t);
    }
  }

  lemma SpawnKeepsTasks(e: Engine, pid: nat, memoryLow: bool)
    requires TasksSane(e) && CompletedOnce(e) && e.lock.Reserved? && FreshPid(e, pid)
    ensures TasksSane(DoSpawn(e, pid, memoryLow)) && CompletedOnce(DoSpawn(e, pid, memoryLow))
  {
    if DoSpawn(e, pid, memoryLow).lock.Free? {
      hide TasksSane, CompletedOnce;
      SameTasksKept(e, DoSpawn(e, pid, memoryLow));
    } else {
      StartKeepsTasks(e, pid);
      StartKeepsCompleted(e, pid);
    }
  }

  function Startup(e: Engine, pid: nat): Engine
    requires e.lock.Reserved?
  {
    e.(tasks := e.tasks[e.lock.task := Task(e.lock.grant, 1, true, 0, pid)], lock := Started,
       children := e.children + {pid}, spawned := e.spawned + 1)
  }

  lemma StartKeepsTasks(e: Engine, pid: nat)
    requires TasksSane(e) && e.lock.Reserved? && FreshPid(e, pid)
    ensures TasksSane(Startup(e, pid))
  {
    var r := Startup(e, pid);
    forall t | t in r.tasks ensures TaskSane(r, t) {
      if t != e.lock.task {
        EachSane(e, t);
      }
    }
  }

  lemma StartKeepsCompleted(e: Engine, pid: nat)
    requires TasksSane(e) && CompletedOnce(e) && e.lock.Reserved?
    ensures CompletedOnce(Startup(e, pid))
  {
  }

  /** Reference, free and cleanup only ever touch reference counts or drop tasks. */
  lemma BookkeepingOnlyDrops(e: Engine, a: Action)
    requires Enabled(e, a) && (a.Reference? || a.FreeTask? || a.Cleanup?)
    requires forall t <- e.tasks :: e.tasks[t].refs >= 1
    ensures FewerTasks(e, Step(e, a))
  {
  }

  lemma BookkeepingKeepsTasks(e: Engine, a: Action)
    requires TasksSane(e) && CompletedOnce(e) && Enabled(e, a) && (a.Reference? || a.FreeTask? || a.Cleanup?)
    ensures TasksSane(Step(e, a)) && CompletedOnce(Step(e, a))
  {
    var r := Step(e, a);
    hide CompletedOnce, FewerTasks, Step, Enabled;
    assert forall t <- e.tasks :: TaskSane(e, t);
    BookkeepingOnlyDrops(e, a);
    FewerTasksKept(e, r);
  }

  lemma QuietStepsKeepTasks(e: Engine, a: Action)
    requires TasksSane(e) && CompletedOnce(e) && Enabled(e, a)
    requires a.Check? || a.Wake? || a.KillFreed? || a.BeginStop? || a.KillStop? || a.ReleaseStop? || a.Reap?
    ensures TasksSane(Step(e, a)) && CompletedOnce(Step(e, a))
  {
    hide TasksSane, CompletedOnce;
    SameTasksKept(e, Step(e, a));
  }

  lemma TasksKept(e: Engine, a: Action)
    requires Inv(e) && Enabled(e, a) && !a.Exit?
    ensures TasksSane(Step(e, a)) && CompletedOnce(Step(e, a))
  {
    hide CountersAgree, ReaperSane, TasksSane, CompletedOnce;
    match a
    case Reserve => ReserveKeepsTasks(e);
    case Spawn(pid, memoryLow) => SpawnKeepsTasks(e, pid, memoryLow);
    case Reference(_) => BookkeepingKeepsTasks(e, a);
    case FreeTask(_) => BookkeepingKeepsTasks(e, a);
    case Cleanup(_) => BookkeepingKeepsTasks(e, a);
    case _ => QuietStepsKeepTasks(e, a);
  }

  lemma OwnerIsRunning(e: Engine, t: nat, pid: nat)
    requires TasksSane(e) && CompletedOnce(e) && pid in e.pending && Owns(e, t, pid)
    ensures e.tasks[t].running && t !in e.completed && t < e.nextTask
  {
    assert TaskSane(e, t);
  }

  /** The same tasks with the same processes, each of them sane. */
  lemma StillSane(e: Engine, r: Engine)
    requires TasksSane(e) && r.tasks.Keys == e.tasks.Keys && !r.lock.Reserved?
    requires forall t <- r.tasks :: r.tasks[t].pid == e.tasks[t].pid && TaskSane(r, t)
    ensures TasksSane(r)
  {
    hide TaskSane;
  }

  lemma ExitFrame(e: Engine, pid: nat, now: int)
    ensures var r := DoExit(e, pid, now);
      && r.tasks.Keys == e.tasks.Keys && r.children == e.children && r.pending == e.pending - {pid}
      && r.lock == e.lock && r.nextTask == e.nextTask
  {
  }

  lemma ExitKeepsTasks(e: Engine, pid: nat, now: int)
    requires CountersAgree(e) && TasksSane(e) && Enabled(e, Exit(pid, now))
    ensures TasksSane(DoExit(e, pid, now))
  {
    hide Balanced, DoExit, TasksSane;
    var r := DoExit(e, pid, now);
    ExitFrame(e, pid, now);
    forall t | t in r.tasks ensures r.tasks[t].pid == e.tasks[t].pid && TaskSane(r, t) {
      EachSane(e, t);
      TasksAfterExit(e, pid, now, t);
    }
    StillSane(e, r);
  }

  lemma EachSane(e: Engine, t: nat)
    requires TasksSane(e) && t in e.tasks
    ensures TaskSane(e, t)
  {
  }

  lemma ExitKeepsCompleted(e: Engine, pid: nat, now: int)
    requires Inv(e) && Enabled(e, Exit(pid, now))
    ensures CompletedOnce(DoExit(e, pid, now))
  {
    forall t: nat | Owns(e, t, pid) ensures e.tasks[t].running && t !in e.completed && t < e.nextTask {
      OwnerIsRunning(e, t, pid);
    }
    hide ReaperSane, CountersAgree, TasksSane;
  }

  lemma StepKeeps(e: Engine, a: Action)
    requires Inv(e) && Enabled(e, a)
    ensures Inv(Step(e, a))
  {
    if a.Exit? {
      ExitKeepsCounters(e, a.pid, a.now);
      ExitKeepsTasks(e, a.pid, a.now);
      ExitKeepsCompleted(e, a.pid, a.now);
    } else {
      if a.Spawn? {
        SpawnKeepsCounters(e, a.pid, a.memoryLow);
      } else {
        CountersKept(e, a);
      }
      ReaperKept(e, a);
      TasksKept(e, a);
    }
    hide CountersAgree, ReaperSane, TasksSane, CompletedOnce;
  }

  // ---------------------------------------------------------------- runs

  ghost predicate Runnable(e: Engine, actions: seq<Action>)
    decreases |actions|
  {
    actions == [] || (Enabled(e, actions[0]) && Runnable(Step(e, actions[0]), actions[1..]))
  }

  ghost function Run(e: Engine, actions: seq<Action>): Engine
    requires Runnable(e, actions)
    decreases |actions|
  {
    if actions == [] then e else Run(Step(e, actions[0]), actions[1..])
  }

  lemma {:induction false} RunKeeps(e: Engine, actions: seq<Action>)
    requires Inv(e) && Runnable(e, actions)
    ensures Inv(Run(e, actions)) && Run(e, actions).limit == e.limit
    decreases |actions|
  {
    if actions != [] {
      StepKeeps(e, actions[0]);
      RunKeeps(Step(e, actions[0]), actions[1..]);
    }
  }

  /**
   In every reachable state of every interleaving: the processes started minus the exit callbacks run
   never exceed the limit and are what the slot counter shows, but for one task that TryQueueTask has
   counted and not yet started or refused; retained tasks are referenced; no task completes twice; the
   reaper's wait has a child to wait for until Stop has made its release, and after that the reaper
   never blocks on an empty semaphore; the fatal check on wait never fires.
   */
  lemma EngineAccounting(limit: nat, actions: seq<Action>)
    requires Runnable(Init(limit), actions)
    ensures var e := Run(Init(limit), actions);
      && 0 <= e.spawned - e.exited <= limit
      && e.runningTasks == e.spawned - e.exited + One(e.lock.Reserved?)
      && (forall t <- e.tasks :: e.tasks[t].refs >= 1)
      && (forall i, j :: 0 <= i < j < |e.completed| ==> e.completed[i] != e.completed[j])
      && (e.phase == AtWait && !e.released ==> e.children != {})
      && (e.phase == AtAcquire && e.released ==> e.semaphore > 0)
      && e.phase != Crashed
  {
    var e := Run(Init(limit), actions);
    RunKeeps(Init(limit), actions);
    assert forall t <- e.tasks :: TaskSane(e, t);
    assert e.phase == AtWait && !e.released ==> |e.children| >= 1;
  }

  // ---------------------------------------------------------------- reference counts

  /** When a step drops a task. */
  predicate Drops(e: Engine, a: Action, t: nat)
    requires t in e.tasks
  {
    (a == FreeTask(t) && e.tasks[t].refs <= 1) || (a.Cleanup? && Forgotten(e.tasks[t], a.now))
  }

  /** And what a step makes of one that it does not drop. */
  function Becomes(task: Task, a: Action, t: nat): Task
  {
    match a
    case Reference(u) => if u == t then task.(refs := task.refs + 1) else task
    case FreeTask(u) => if u == t then task.(refs := task.refs - 1) else task
    case Exit(pid, now) => if task.pid == pid then task.(completedAt := now, running := false) else task
    case _ => task
  }

  lemma TasksAfterExit(e: Engine, pid: nat, now: int, t: nat)
    requires TasksSane(e) && t in e.tasks
    ensures var r := DoExit(e, pid, now); t in r.tasks && r.tasks[t] == Becomes(e.tasks[t], Exit(pid, now), t)
  {
    if e.tasks[t].pid == pid {
      assert Owns(e, t, pid);
      assert forall u: nat :: Owns(e, u, pid) ==> u == t;
    }
  }

  lemma TasksAfterBookkeeping(e: Engine, a: Action, t: nat)
    requires Enabled(e, a) && Bookkeeping(a) && t in e.tasks
    ensures t in Step(e, a).tasks <==> !Drops(e, a, t)
    ensures t in Step(e, a).tasks ==> Step(e, a).tasks[t] == Becomes(e.tasks[t], a, t)
  {
  }

  lemma TaskAfter(e: Engine, a: Action, t: nat)
    requires TasksSane(e) && Enabled(e, a) && t in e.tasks
    ensures t in Step(e, a).tasks <==> !Drops(e, a, t)
    ensures t in Step(e, a).tasks ==> Step(e, a).tasks[t] == Becomes(e.tasks[t], a, t)
  {
    if a.Exit? {
      TasksAfterExit(e, a.pid, a.now, t);
      hide DoExit, TasksSane;
    } else if Bookkeeping(a) {
      TasksAfterBookkeeping(e, a, t);
      hide Step, TasksSane;
    } else {
      TaskUntouched(e, a, t);
      hide Step, TasksSane;
    }
  }

  lemma TaskUntouched(e: Engine, a: Action, t: nat)
    requires TasksSane(e) && Enabled(e, a) && t in e.tasks && !a.Exit? && !Bookkeeping(a)
    ensures t in Step(e, a).tasks && Step(e, a).tasks[t] == e.tasks[t]
  {
  }

  /** A task is dropped by the last reference's release or by the cleanup of a long completed one, by nothing else. */
  lemma DroppedIff(e: Engine, a: Action, t: nat)
    requires Inv(e) && Enabled(e, a) && t in e.tasks
    ensures t !in Step(e, a).tasks <==>
      || (a == FreeTask(t) && e.tasks[t].refs == 1)
      || (a.Cleanup? && !e.tasks[t].running && e.tasks[t].completedAt + ONE_MINUTE < a.now)
  {
    TaskAfter(e, a, t);
    hide CountersAgree, ReaperSane, CompletedOnce, Step;
    assert TaskSane(e, t);
  }

  function Change(a: Action, t: nat): int
  {
    if a == Reference(t) then 1 else if a == FreeTask(t) then -1 else 0
  }

  function Changes(actions: seq<Action>, t: nat): int
  {
    if actions == [] then 0 else Change(actions[0], t) + Changes(actions[1..], t)
  }

  lemma ChangeOnce(e: Engine, a: Action, t: nat)
    requires TasksSane(e) && Enabled(e, a) && t in e.tasks && t in Step(e, a).tasks
    ensures Step(e, a).tasks[t].refs == e.tasks[t].refs + Change(a, t)
    ensures Step(e, a).tasks[t].grant == e.tasks[t].grant
  {
    hide TasksSane, Step, Enabled;
    TaskAfter(e, a, t);
  }

  lemma {:induction false} GoneForever(e: Engine, actions: seq<Action>, t: nat)
    requires Inv(e) && Runnable(e, actions) && t !in e.tasks && t < e.nextTask && !(e.lock.Reserved? && e.lock.task == t)
    ensures t !in Run(e, actions).tasks
    decreases |actions|
  {
    if actions != [] {
      StepKeeps(e, actions[0]);
      GoneOnce(e, actions[0], t);
      GoneForever(Step(e, actions[0]), actions[1..], t);
    }
  }

  lemma GoneOnce(e: Engine, a: Action, t: nat)
    requires Enabled(e, a) && t !in e.tasks && t < e.nextTask && !(e.lock.Reserved? && e.lock.task == t)
    ensures var r := Step(e, a); t !in r.tasks && t < r.nextTask && !(r.lock.Reserved? && r.lock.task == t)
  {
    if Bookkeeping(a) {
      BookkeepingFrame(e, a);
    }
  }

  /** While a task is retained its count is what clients added minus what they released. */
  lemma {:induction false} ReferencesBalance(e: Engine, actions: seq<Action>, t: nat)
    requires Inv(e) && Runnable(e, actions) && t in e.tasks && t in Run(e, actions).tasks
    ensures Run(e, actions).tasks[t].refs == e.tasks[t].refs + Changes(actions, t)
    ensures Run(e, actions).tasks[t].grant == e.tasks[t].grant
    decreases |actions|
  {
    if actions != [] {
      var r := Step(e, actions[0]);
      StepKeeps(e, actions[0]);
      if t !in r.tasks {
        assert TaskSane(e, t);
        DroppedFree(e, actions[0], t);
        GoneForever(r, actions[1..], t);
      } else {
        ChangeOnce(e, actions[0], t);
        ReferencesBalance(r, actions[1..], t);
      }
    }
  }

  lemma DroppedFree(e: Engine, a: Action, t: nat)
    requires Inv(e) && Enabled(e, a) && t in e.tasks && t !in Step(e, a).tasks
    ensures var r := Step(e, a); t < r.nextTask && !r.lock.Reserved?
  {
    DroppedIff(e, a, t);
    assert TaskSane(e, t);
  }

  lemma CompletedAfterExit(e: Engine, pid: nat, now: int, t: nat)
    requires TasksSane(e) && t !in e.completed
    ensures t in DoExit(e, pid, now).completed <==> Owns(e, t, pid)
  {
    if Owns(e, t, pid) {
      assert forall u: nat :: Owns(e, u, pid) ==> u == t;
    }
  }

  lemma CompletedOtherwise(e: Engine, a: Action)
    requires Enabled(e, a) && !a.Exit?
    ensures Step(e, a).completed == e.completed
  {
    if Bookkeeping(a) {
      BookkeepingFrame(e, a);
      hide Step;
    }
  }

  /** An exit callback completes exactly the running task of its process, if that is still retained. */
  lemma CompletedBy(e: Engine, a: Action, t: nat)
    requires Inv(e) && Enabled(e, a) && t !in e.completed
    ensures t in Step(e, a).completed <==> a.Exit? && Owns(e, t, a.pid)
    ensures t in Step(e, a).completed ==>
      t in Step(e, a).tasks && Step(e, a).tasks[t] == e.tasks[t].(running := false, completedAt := a.now)
  {
    hide CountersAgree, ReaperSane, CompletedOnce, TasksSane, DoExit;
    if a.Exit? {
      CompletedAfterExit(e, a.pid, a.now, t);
      if t in e.tasks {
        TaskAfter(e, a, t);
      }
    } else {
      CompletedOtherwise(e, a);
    }
  }

  // ---------------------------------------------------------------- shutdown

  /** Steps the reaper can still take once Stop is through. */
  function Remaining(e: Engine): nat
  {
    4 * |e.children| +
    (match e.phase case AtCheck => 4 case AtAcquire => 3 case AtRecheck => 2 case AtWait => 1 case _ => 0)
  }

  /** After Stop the reaper can always move, every move brings its exit nearer, and nothing sets it back. */
  lemma ReaperWindsDown(e: Engine, a: Action)
    requires Inv(e) && e.released && Enabled(e, a)
    ensures Remaining(Step(e, a)) <= Remaining(e)
    ensures a.Reap? ==> Remaining(Step(e, a)) < Remaining(e)
    ensures e.phase != Done ==> exists pid: nat :: Enabled(e, Reap(pid))
    ensures Step(e, a).released
  {
    hide TasksSane, CompletedOnce;
    if a.Reap? && e.phase == AtWait && e.children != {} {
      assert |Step(e, a).children| == |e.children| - 1;
    }
    if e.phase == AtWait && e.children != {} {
      var pid :| pid in e.children;
      assert Enabled(e, Reap(pid));
    } else if e.phase != Done {
      assert Enabled(e, Reap(0));
    }
  }

  /** Processes that have been signalled, and those whose freed task still owes them the signal. */
  datatype Kills = Kills(sent: set<nat>, owed: set<nat>)

  /**
   Stop signals every running task's process under the lock. A free that drops a running task signals its
   process only after it has let the lock go. A new process has not been signalled, whatever its id was
   used for before.
   */
  ghost function SignalsAfter(e: Engine, signals: Kills, a: Action): Kills
  {
    match a
    case Spawn(pid, _) => signals.(sent := signals.sent - {pid})
    case KillStop => signals.(sent := signals.sent + set t | t in e.tasks && e.tasks[t].running :: e.tasks[t].pid)
    case FreeTask(t) =>
      if t in e.tasks && e.tasks[t].refs <= 1 && e.tasks[t].running then signals.(owed := signals.owed + {e.tasks[t].pid})
      else signals
    case KillFreed(pid) =>
      if pid in signals.owed then Kills(signals.sent + {pid}, signals.owed - {pid}) else signals
    case _ => signals
  }

  ghost predicate Reached(signals: Kills, pid: nat) { pid in signals.sent || pid in signals.owed }

  ghost predicate Watched(e: Engine, signals: Kills, pid: nat)
  {
    Reached(signals, pid) || exists t: nat :: Owns(e, t, pid) && e.tasks[t].running
  }

  /** A child is signalled, about to be, or has a task to be signalled by; after Stop's round the last is out. */
  ghost predicate Tracked(e: Engine, signals: Kills)
  {
    && (forall p <- e.children :: Watched(e, signals, p))
    && (e.killed ==> forall p <- e.children :: Reached(signals, p))
  }

  lemma OwnerStays(e: Engine, a: Action, t: nat, pid: nat)
    requires Inv(e) && Enabled(e, a) && Owns(e, t, pid) && e.tasks[t].running && pid in e.children
    requires !a.KillStop? && !(a.FreeTask? && a.task == t && e.tasks[t].refs <= 1)
    ensures Owns(Step(e, a), t, pid) && Step(e, a).tasks[t].running
  {
    TaskAfter(e, a, t);
    hide ReaperSane, CompletedOnce, Balanced, TasksSane, Step;
  }

  lemma ChildrenAfter(e: Engine, a: Action)
    requires Inv(e) && Enabled(e, a)
    ensures var r := Step(e, a);
      && (forall p <- r.children :: p in e.children || (a.Spawn? && p == a.pid && Owns(r, e.lock.task, p) && r.tasks[e.lock.task].running))
      && (e.killed ==> r.killed && r.children <= e.children)
      && (r.killed ==> e.killed || a.KillStop?)
  {
    hide TasksSane, CompletedOnce, CountersAgree;
    if Bookkeeping(a) {
      BookkeepingFrame(e, a);
      hide Step;
    }
  }

  lemma SignalStep(e: Engine, signals: Kills, a: Action)
    requires Inv(e) && Enabled(e, a) && Tracked(e, signals)
    ensures Tracked(Step(e, a), SignalsAfter(e, signals, a))
  {
    var r, after := Step(e, a), SignalsAfter(e, signals, a);
    ChildrenAfter(e, a);
    hide Inv, Step;
    forall p | p in r.children ensures Watched(r, after, p) && (r.killed ==> Reached(after, p)) {
      if p in e.children {
        assert Watched(e, signals, p);
        SignalKept(e, signals, a, p);
      }
    }
  }

  lemma SignalKept(e: Engine, signals: Kills, a: Action, p: nat)
    requires Inv(e) && Enabled(e, a) && p in e.children && Watched(e, signals, p)
    ensures Watched(Step(e, a), SignalsAfter(e, signals, a), p)
    ensures Reached(signals, p) || a.KillStop? ==> Reached(SignalsAfter(e, signals, a), p)
  {
    hide Inv, Step;
    if !Reached(signals, p) {
      var t: nat :| Owns(e, t, p) && e.tasks[t].running;
      if a.KillStop? {
        assert e.tasks[t].pid in SignalsAfter(e, signals, a).sent;
      } else if !(a.FreeTask? && a.task == t && e.tasks[t].refs <= 1) {
        OwnerStays(e, a, t, p);
      }
    }
  }

  ghost function SignalsIn(e: Engine, signals: Kills, actions: seq<Action>): Kills
    requires Runnable(e, actions)
    decreases |actions|
  {
    if actions == [] then signals
    else SignalsIn(Step(e, actions[0]), SignalsAfter(e, signals, actions[0]), actions[1..])
  }

  lemma {:induction false} SignalRun(e: Engine, signals: Kills, actions: seq<Action>)
    requires Inv(e) && Runnable(e, actions) && Tracked(e, signals)
    ensures Tracked(Run(e, actions), SignalsIn(e, signals, actions))
    decreases |actions|
  {
    hide Inv, Tracked;
    if actions != [] {
      StepKeeps(e, actions[0]);
      SignalStep(e, signals, actions[0]);
      SignalRun(Step(e, actions[0]), SignalsAfter(e, signals, actions[0]), actions[1..]);
    }
  }

  /**
   Once Stop is through its locked section, every child still to be waited for has been signalled, or a
   free that dropped its task has its signal outstanding.
   */
  lemma StopSignalsEveryChild(limit: nat, actions: seq<Action>)
    requires Runnable(Init(limit), actions)
    ensures var e, signals := Run(Init(limit), actions), SignalsIn(Init(limit), Kills({}, {}), actions);
      e.killed ==> e.children <= signals.sent + signals.owed
  {
    SignalRun(Init(limit), Kills({}, {}), actions);
    var e, signals := Run(Init(limit), actions), SignalsIn(Init(limit), Kills({}, {}), actions);
    if e.killed {
      forall p | p in e.children ensures p in signals.sent + signals.owed {
        assert Reached(signals, p);
      }
    }
  }

  /** The reaper leaves while a TryQueueTask stands between its exit check and its reservation. */
  ghost predicate LeavesTooEarly(e: Engine, a: Action)
    requires Enabled(e, a)
  {
    a.Reap? && e.lock.Checked? && DoReap(e, a.pid).phase == Done
  }

  ghost predicate Unhurried(e: Engine, actions: seq<Action>)
    requires Runnable(e, actions)
    decreases |actions|
  {
    actions == [] || (!LeavesTooEarly(e, actions[0]) && Unhurried(Step(e, actions[0]), actions[1..]))
  }

  ghost predicate NobodyLeftBehind(e: Engine)
  {
    e.phase == Done ==> e.children == {} && !e.lock.Checked? && !e.lock.Reserved?
  }

  lemma UnhurriedStep(e: Engine, a: Action)
    requires Inv(e) && NobodyLeftBehind(e) && Enabled(e, a) && !LeavesTooEarly(e, a)
    ensures NobodyLeftBehind(Step(e, a))
  {
    hide TasksSane, CompletedOnce;
    if a.Reap? && e.phase == AtWait && e.children == {} {
      assert e.released;
    }
  }

  /** Unless it leaves too early, a finished reaper has waited for every child there ever was. */
  lemma {:induction false} EveryChildIsReaped(e: Engine, actions: seq<Action>)
    requires Inv(e) && NobodyLeftBehind(e) && Runnable(e, actions) && Unhurried(e, actions)
    ensures NobodyLeftBehind(Run(e, actions))
    decreases |actions|
  {
    if actions != [] {
      StepKeeps(e, actions[0]);
      UnhurriedStep(e, actions[0]);
      EveryChildIsReaped(Step(e, actions[0]), actions[1..]);
    }
  }

  lemma LeavesIdle(e: Engine, a: Action)
    requires Inv(e) && Enabled(e, a) && LeavesTooEarly(e, a)
    ensures e.runningTasks == 0
  {
    hide TasksSane, CompletedOnce;
    assert e.phase == AtWait && e.children == {} ==> e.released;
  }

  lemma RunNowhere(e: Engine)
    ensures Runnable(e, []) && Run(e, []) == e
  {
  }

  lemma RunFrom(e: Engine, a: Action, rest: seq<Action>)
    requires Enabled(e, a) && Runnable(Step(e, a), rest)
    ensures Runnable(e, [a] + rest) && Run(e, [a] + rest) == Run(Step(e, a), rest)
  {
    var all := [a] + rest;
    assert all[0] == a && all[1..] == rest;
  }

  /** A queueing that has passed its check goes through, whatever the reaper has done. */
  lemma QueueingGoesOn(e: Engine, pid: nat)
    requires e.lock.Checked? && e.runningTasks < e.limit && FreshPid(e, pid)
    ensures var rest := [Reserve] + ([Spawn(pid, false)] + ([Wake] + []));
      Runnable(e, rest) && Run(e, rest).phase == e.phase && pid in Run(e, rest).children
  {
    var e2 := DoReserve(e);
    assert FreshPid(e2, pid);
    var e3 := DoSpawn(e2, pid, false);
    var e4 := DoWake(e3);
    assert e4.phase == e.phase && pid in e4.children;
    hide Runnable, Run, FreshPid;
    RunNowhere(e4);
    RunFrom(e3, Wake, []);
    RunFrom(e2, Spawn(pid, false), [Wake] + []);
    RunFrom(e, Reserve, [Spawn(pid, false)] + ([Wake] + []));
  }

  /** And if it does leave too early, the queued task's process is never waited for. */
  lemma LeavingEarlyStrandsAChild(e: Engine, a: Action, pid: nat)
    requires Inv(e) && Enabled(e, a) && LeavesTooEarly(e, a) && FreshPid(e, pid) && e.limit > 0
    ensures var rest := [a] + ([Reserve] + ([Spawn(pid, false)] + ([Wake] + [])));
      Runnable(e, rest) && Run(e, rest).phase == Done && pid in Run(e, rest).children
  {
    LeavesIdle(e, a);
    hide Inv, Runnable, Run;
    var e1 := DoReap(e, a.pid);
    assert e1 == Step(e, a) && e1.lock == e.lock && e1.runningTasks == 0 && e1.limit == e.limit && e1.phase == Done;
    assert FreshPid(e1, pid);
    hide DoReap, Step, FreshPid;
    QueueingGoesOn(e1, pid);
    RunFrom(e, a, [Reserve] + ([Spawn(pid, false)] + ([Wake] + [])));
  }

  /** The race from the start: a task is being queued, Stop begins, the reaper leaves, the process starts. */
  lemma ChildStrandedFromStart(limit: nat, grant: nat, pid: nat)
    requires limit > 0
    ensures var run := [Check(grant)] + ([BeginStop] + ([Reap(0)] + ([Reserve] + ([Spawn(pid, false)] + ([Wake] + [])))));
      Runnable(Init(limit), run) && Run(Init(limit), run).phase == Done && pid in Run(Init(limit), run).children
  {
    var e0 := Init(limit);
    var e1 := DoCheck(e0, grant);
    var e2 := e1.(exiting := true);
    StepKeeps(e0, Check(grant));
    StepKeeps(e1, BeginStop);
    assert LeavesTooEarly(e2, Reap(0));
    LeavingEarlyStrandsAChild(e2, Reap(0), pid);
    var rest := [Reap(0)] + ([Reserve] + ([Spawn(pid, false)] + ([Wake] + [])));
    hide Inv, Runnable, Run;
    RunFrom(e1, BeginStop, rest);
    RunFrom(e0, Check(grant), [BeginStop] + rest);
  }

  lemma {:induction false} AbandonedForever(e: Engine, actions: seq<Action>, pid: nat)
    requires Inv(e) && e.phase == Done && pid in e.children && Runnable(e, actions)
    ensures Run(e, actions).phase == Done && pid in Run(e, actions).children
    decreases |actions|
  {
    if actions != [] {
      StepKeeps(e, actions[0]);
      AbandonedForever(Step(e, actions[0]), actions[1..], pid);
    }
  }
}
