/**
 The execution engine as the object it is. Each method is a locked section (or the part of Stop
 around one) and is proved to compute the steps of EngineModel named in its contract. Signals sent
 with kill are returned to the caller; the operating system's own state is ghost.
 */
module ExecutionEngines {
  import opened Basics
  import opened EngineModel
  import DispatcherModel
  import DispatcherProofs

  /** The steps of one undisturbed TryQueueTask. */
  ghost function Queued(e: Engine, grant: nat, pid: nat, memoryLow: bool): Engine
    requires e.lock.Free?
  {
    if e.exiting then e
    else
      var e2 := DoSpawn(DoReserve(DoCheck(e, grant)), pid, memoryLow);
      if e2.lock.Free? then e2 else DoWake(e2)
  }

  class ExecutionEngine {
    const limit: nat
    const minMemory: nat
    var tasks: map<nat, Task>
    var runningTasks: int
    var nextTask: nat
    var exiting: bool
    var semaphore: int
    /** Only the fields that the engine itself does not hold are meaningful here. */
    ghost var system: Engine

    ghost function View(): Engine
      reads this
    {
      system.(limit := limit, tasks := tasks, runningTasks := runningTasks, nextTask := nextTask,
              exiting := exiting, semaphore := semaphore)
    }

    constructor (limit: nat, minMemory: nat)
      ensures View() == Init(limit) && Inv(View()) && this.minMemory == minMemory
    {
      this.limit := limit;
      this.minMemory := minMemory;
      tasks := map[];
      runningTasks := 0;
      nextTask := 1;
      exiting := false;
      semaphore := 0;
      system := Init(limit);
    }

    method TryStartingNewTaskUnsafe(memoryAvailable: nat, ghost grant: nat, ghost pid: nat) returns (task: Option<nat>)
      requires Inv(View()) && View().lock.Free? && FreshPid(View(), pid)
      modifies this`runningTasks, this`nextTask
      ensures task.Some? <==> !exiting && old(runningTasks) < limit && memoryAvailable >= minMemory
      ensures task.Some? ==>
        && task.value == old(nextTask) && task.value !in tasks
        && View() == DoReserve(DoCheck(old(View()), grant)).(lock := Free)
      ensures task.None? ==> View() == Queued(old(View()), grant, pid, memoryAvailable < minMemory)
    {
      if exiting {
        return None;
      }
      assert nextTask !in tasks by {
        assert forall t <- tasks :: TaskSane(View(), t);
      }
      var id := nextTask;
      nextTask := nextTask + 1;
      runningTasks := runningTasks + 1;
      if runningTasks > limit {
        runningTasks := runningTasks - 1;
        return None;
      }
      if memoryAvailable < minMemory {
        runningTasks := runningTasks - 1;
        return None;
      }
      return Some(id);
    }

    /** `pid` is the id that the system gives the process, if one is started. */
    method TryQueueTask(grant: nat, pid: nat, memoryAvailable: nat) returns (task: Option<nat>)
      requires Inv(View()) && View().lock.Free? && FreshPid(View(), pid)
      modifies this
      ensures View() == Queued(old(View()), grant, pid, memoryAvailable < minMemory)
      ensures View().lock.Free? && Inv(View())
      ensures task.Some? <==> !exiting && old(runningTasks) < limit && memoryAvailable >= minMemory
      ensures task.Some? ==>
        && task.value !in old(tasks)
        && tasks == old(tasks)[task.value := Task(grant, 1, true, 0, pid)]
    {
      hide Inv;
      QueuedKeeps(View(), grant, pid, memoryAvailable < minMemory);
      task := TryStartingNewTaskUnsafe(memoryAvailable, grant, pid);
      if task.None? {
        return;
      }
      tasks := tasks[task.value := Task(grant, 1, true, 0, pid)];
      semaphore := semaphore + 1;
      system := system.(children := system.children + {pid}, spawned := system.spawned + 1);
    }

    method TryReferenceTask(task: nat) returns (known: bool)
      requires Inv(View()) && View().lock.Free?
      modifies this`tasks
      ensures known <==> task in old(tasks)
      ensures View() == DoReference(old(View()), task) && Inv(View())
    {
      hide Inv;
      StepKeeps(View(), Reference(task));
      if task !in tasks {
        return false;
      }
      tasks := tasks[task := tasks[task].(refs := tasks[task].refs + 1)];
      return true;
    }

    /** KillTask: the process group to signal, if any. */
    method KillTask(task: Task) returns (signalled: set<nat>)
      ensures signalled == if task.running then {task.pid} else {}
    {
      signalled := {};
      if task.running {
        signalled := {task.pid};
      }
    }

    method FreeTask(task: nat) returns (signalled: set<nat>)
      requires Inv(View()) && View().lock.Free?
      modifies this`tasks
      ensures View() == DoFree(old(View()), task) && Inv(View())
      ensures forall p :: p in signalled <==> task in old(tasks) && task !in tasks && old(tasks)[task].running && old(tasks)[task].pid == p
    {
      hide Inv;
      StepKeeps(View(), Action.FreeTask(task));
      signalled := {};
      if task !in tasks {
        return;
      }
      var desc := tasks[task];
      desc := desc.(refs := desc.refs - 1);
      if desc.refs > 0 {
        tasks := tasks[task := desc];
        return;
      }
      tasks := tasks - {task};
      signalled := KillTask(desc);
    }

    method KillExpiredTasks(expired: set<nat>) returns (signalled: set<nat>)
      ensures forall p :: p in signalled <==> Signals(tasks, expired, p)
    {
      signalled := {};
      var left := tasks.Keys;
      while left != {}
        invariant left <= tasks.Keys
        invariant forall p :: p in signalled <==>
          exists t :: t in tasks && t !in left && tasks[t].running && tasks[t].grant in expired && tasks[t].pid == p
        decreases left
      {
        var t :| t in left;
        if tasks[t].running && tasks[t].grant in expired {
          var one := KillTask(tasks[t]);
          signalled := signalled + one;
        }
        left := left - {t};
      }
    }

    /** Stop, run while nothing else does: every running process is signalled and the reaper woken. */
    method Stop() returns (signalled: set<nat>)
      requires Inv(View()) && View().lock.Free? && !exiting && !View().killed
      modifies this
      ensures Runnable(old(View()), [BeginStop, KillStop, ReleaseStop])
      ensures View() == Run(old(View()), [BeginStop, KillStop, ReleaseStop]) && Inv(View())
      ensures forall p :: p in signalled <==> exists t :: t in tasks && tasks[t].running && tasks[t].pid == p
    {
      hide Inv, Run, Runnable;
      ghost var e := View();
      NotReleased(e);
      StoppedKeeps(e);
      exiting := true;
      signalled := {};
      var left := tasks.Keys;
      while left != {}
        invariant left <= tasks.Keys
        invariant forall p :: p in signalled <==>
          exists t :: t in tasks && t !in left && tasks[t].running && tasks[t].pid == p
        invariant View() == e.(exiting := true)
        decreases left
      {
        var t :| t in left;
        var one := KillTask(tasks[t]);
        signalled := signalled + one;
        left := left - {t};
      }
      semaphore := semaphore + 1;
      system := system.(killed := true, released := true);
      assert View() == e.(exiting := true, killed := true, released := true, semaphore := e.semaphore + 1);
    }

    method OnCleanupTimer(now: int)
      requires Inv(View()) && View().lock.Free?
      modifies this`tasks
      ensures View() == DoCleanup(old(View()), now) && Inv(View())
    {
      hide Inv;
      StepKeeps(View(), Cleanup(now));
      var left := tasks.Keys;
      ghost var all := tasks;
      while left != {}
        invariant left <= tasks.Keys <= all.Keys
        invariant forall t <- tasks :: tasks[t] == all[t]
        invariant forall t <- all :: t !in left ==> (t in tasks <==> !Forgotten(all[t], now))
        decreases left
      {
        var t :| t in left;
        if !tasks[t].running && tasks[t].completedAt + ONE_MINUTE < now {
          tasks := tasks - {t};
        }
        left := left - {t};
      }
      assert tasks == DoCleanup(old(View()), now).tasks;
    }

    /** The traversal of the retained tasks. */
    method FindOwner(pid: nat) returns (task: Option<nat>)
      ensures task.None? <==> forall t <- tasks :: tasks[t].pid != pid
      ensures task.Some? ==> task.value in tasks && tasks[task.value].pid == pid
    {
      var left := tasks.Keys;
      while left != {}
        invariant left <= tasks.Keys
        invariant forall t <- tasks :: t !in left ==> tasks[t].pid != pid
        decreases left
      {
        var t :| t in left;
        if tasks[t].pid == pid {
          return Some(t);
        }
        left := left - {t};
      }
      return None;
    }

    /** `task` is the one whose completion callback is to run, if the process is still known. */
    method OnProcessExitCallback(pid: nat, now: int) returns (task: Option<nat>)
      requires Inv(View()) && View().lock.Free? && pid in View().pending
      modifies this
      ensures View() == DoExit(old(View()), pid, now) && Inv(View())
      ensures task.None? <==> forall t <- old(tasks) :: old(tasks)[t].pid != pid
      ensures task.Some? ==> Owns(old(View()), task.value, pid) && old(tasks)[task.value].running && !tasks[task.value].running
    {
      hide Inv, DoExit;
      ghost var e := View();
      task := FindOwner(pid);
      ExitedIs(e, task, pid, now);
      runningTasks := runningTasks - 1;
      system := system.(pending := system.pending - {pid}, exited := system.exited + 1);
      assert View() == e.(runningTasks := e.runningTasks - 1, pending := e.pending - {pid}, exited := e.exited + 1);
      if task.None? {
        return;
      }
      tasks := tasks[task.value := tasks[task.value].(completedAt := now, running := false)];
      system := system.(completed := system.completed + [task.value]);
    }
  }

  lemma QueuedKeeps(e: Engine, grant: nat, pid: nat, memoryLow: bool)
    requires Inv(e) && e.lock.Free? && FreshPid(e, pid)
    ensures Inv(Queued(e, grant, pid, memoryLow))
  {
    hide Inv;
    if !e.exiting {
      StepKeeps(e, Check(grant));
      var e1 := Step(e, Check(grant));
      StepKeeps(e1, Reserve);
      var e2 := Step(e1, Reserve);
      assert FreshPid(e2, pid);
      StepKeeps(e2, Spawn(pid, memoryLow));
      var e3 := Step(e2, Spawn(pid, memoryLow));
      if e3.lock.Started? {
        StepKeeps(e3, Wake);
      }
    }
  }

  lemma NotReleased(e: Engine)
    requires Inv(e) && !e.killed
    ensures !e.released
  {
  }

  lemma StoppedKeeps(e: Engine)
    requires Inv(e) && e.lock.Free? && !e.exiting && !e.killed && !e.released
    ensures var stop := [BeginStop, KillStop, ReleaseStop];
      && Runnable(e, stop) && Inv(Run(e, stop))
      && Run(e, stop) == e.(exiting := true, killed := true, released := true, semaphore := e.semaphore + 1)
  {
    hide Inv;
    var stop := [BeginStop, KillStop, ReleaseStop];
    var e1 := e.(exiting := true);
    var e2 := e1.(killed := true);
    var e3 := e2.(semaphore := e.semaphore + 1, released := true);
    RunNowhere(e3);
    RunFrom(e2, ReleaseStop, []);
    RunFrom(e1, KillStop, [ReleaseStop] + []);
    RunFrom(e, BeginStop, [KillStop] + ([ReleaseStop] + []));
    assert stop == [BeginStop] + ([KillStop] + ([ReleaseStop] + []));
    RunKeeps(e, stop);
  }

  /** The traversal finds the owner that the exit step speaks of. */
  lemma ExitedIs(e: Engine, owner: Option<nat>, pid: nat, now: int)
    requires Inv(e) && pid in e.pending
    requires owner.None? ==> forall t <- e.tasks :: e.tasks[t].pid != pid
    requires owner.Some? ==> Owns(e, owner.value, pid)
    ensures var left := e.(runningTasks := e.runningTasks - 1, pending := e.pending - {pid}, exited := e.exited + 1);
      DoExit(e, pid, now) ==
        if owner.None? then left
        else left.(tasks := e.tasks[owner.value := e.tasks[owner.value].(completedAt := now, running := false)],
                   completed := e.completed + [owner.value])
    ensures owner.Some? ==> e.tasks[owner.value].running
    ensures e.lock.Free? ==> Inv(DoExit(e, pid, now))
  {
    if e.lock.Free? {
      StepKeeps(e, Exit(pid, now));
    }
    if owner.Some? {
      OwnerIsRunning(e, owner.value, pid);
      assert forall t: nat :: Owns(e, t, pid) ==> t == owner.value;
    } else {
      assert forall t: nat :: !Owns(e, t, pid);
    }
  }

  // ---------------------------------------------------------------- with the scheduler

  /**
   A servant reports its running tasks; the scheduler answers with the grants it does not know; the
   answer arrives after anything at all has happened on either side. Whatever process is signalled
   then belongs to a task whose grant, if the scheduler ever issued it, is not live at this servant.
   */
  lemma DelayedReplyKillsNoLiveTask(
    s: DispatcherModel.State, location: string, report: seq<DispatcherModel.Running>, later: seq<DispatcherProofs.Op>,
    e: Engine, pid: nat, t: nat)
    requires DispatcherModel.Inv(s) && Inv(e)
    requires Signals(e.tasks, Answer(s, location, report), pid) && Owns(e, t, pid) && e.tasks[t].grant < s.nextTask
    ensures !DispatcherProofs.LiveAt(
              DispatcherProofs.Run(DispatcherModel.Notify(s, location, report).0, later), e.tasks[t].grant, location)
  {
    var u :| u in e.tasks && e.tasks[u].running && e.tasks[u].grant in Answer(s, location, report) && e.tasks[u].pid == pid;
    assert u == t;
    DispatcherProofs.ExpiryIsFinal(s, location, report, later, e.tasks[t].grant);
  }

  ghost function Answer(s: DispatcherModel.State, location: string, report: seq<DispatcherModel.Running>): set<nat>
  {
    var unknown := DispatcherModel.Notify(s, location, report).1;
    set g | g in unknown
  }
}
