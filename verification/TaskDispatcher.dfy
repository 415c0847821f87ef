/**
 The scheduler's dispatcher as the object it is: registries updated in place under one lock.  Each
 public method is one locked section and is proved to compute the step of DispatcherModel named in
 its contract.  A request that finds no free servant returns `Blocked`; the program then sleeps on a
 condition variable and tries again, or reports a timeout without touching its state.
 */
module TaskDispatchers {
  import opened DispatcherModel
  import opened DispatcherProofs

  class RunningTaskBookkeeper {
    var runningTasks: map<string, seq<Running>>

    constructor ()
      ensures runningTasks == map[]
    {
      runningTasks := map[];
    }

    method SetServantRunningTasks(location: string, tasks: seq<Running>)
      modifies this
      ensures runningTasks == old(runningTasks)[location := tasks]
    {
      runningTasks := runningTasks - {location};
      runningTasks := runningTasks[location := tasks];
    }

    method DropServant(location: string)
      modifies this
      ensures runningTasks == old(runningTasks) - {location}
    {
      runningTasks := runningTasks - {location};
    }

    /** All reports, one after the other, each location's once; in what order is not promised. */
    method GetRunningTasks() returns (result: seq<Running>, ghost order: seq<string>)
      ensures NoRepeats(order) && forall l :: l in order <==> l in runningTasks
      ensures result == Reported(runningTasks, order)
    {
      result, order := [], [];
      var left := runningTasks.Keys;
      while left != {}
        invariant left <= runningTasks.Keys && NoRepeats(order)
        invariant forall l :: l in order <==> l in runningTasks && l !in left
        invariant result == Reported(runningTasks, order)
        decreases left
      {
        var l :| l in left;
        result := runningTasks[l] + result;
        order := [l] + order;
        left := left - {l};
      }
    }
  }

  predicate NoRepeats(order: seq<string>)
  {
    forall i, j :: 0 <= i < j < |order| ==> order[i] != order[j]
  }

  /** The reports of some locations in a row. */
  function Reported(reports: map<string, seq<Running>>, order: seq<string>): seq<Running>
    requires forall l <- order :: l in reports
  {
    if order == [] then [] else reports[order[0]] + Reported(reports, order[1..])
  }

  lemma Pickable(s: State, r: Request)
    requires Inv(s)
    ensures AllFree(s.minMemory, Candidates(s, r))
    ensures Candidates(s, r) != [] <==> Pick(s.minMemory, Candidates(s, r), r.requestor).Chosen?
  {
    CandidatesAreFree(s, r);
    PickIsWellPicked(s.minMemory, Candidates(s, r), r.requestor);
  }

  lemma OthersHaveRoom(m: nat, candidates: seq<Servant>, ip: string)
    requires AllFree(m, candidates)
    ensures AllFree(m, OthersOf(candidates, ip))
    ensures var self := SelfIndex(candidates, ip); self < |candidates| ==> Capacity(m, candidates[self]) != 0
  {
    OthersSubset(candidates, ip);
    var self := SelfIndex(candidates, ip);
    if self < |candidates| {
      assert candidates[self] in candidates;
    }
    hide Capacity, SelfIndex;
  }

  /** Freeing one known task is a decrement of its servant's counter. */
  function Decremented(servants: seq<Servant>, id: nat): seq<Servant>
  {
    seq(|servants|, i requires 0 <= i < |servants| =>
      if servants[i].id == id then servants[i].(running := servants[i].running - 1) else servants[i])
  }

  lemma DecrementReleases(s: State, gone: set<nat>, t: nat)
    requires t in s.tasks && t !in gone
    ensures var r := Release(s, gone);
      && Decremented(r.servants, s.tasks[t].servant) == Release(s, gone + {t}).servants
      && r.tasks - {t} == s.tasks - (gone + {t})
  {
    var r := Release(s, gone);
    forall i | 0 <= i < |s.servants|
      ensures Decremented(r.servants, s.tasks[t].servant)[i] == Release(s, gone + {t}).servants[i]
    {
      var mine := TasksOf(s.tasks, s.servants[i].id);
      if s.servants[i].id == s.tasks[t].servant {
        assert mine * (gone + {t}) == mine * gone + {t};
      } else {
        assert mine * (gone + {t}) == mine * gone;
      }
    }
  }

  lemma {:induction false} AliveSnoc(front: seq<Servant>, e: Servant, now: int)
    ensures Alive(front + [e], now) == Alive(front, now) + (if e.expiresAt < now then [] else [e])
  {
    if front == [] {
      assert front + [e] == [e];
    } else {
      assert (front + [e])[1..] == front[1..] + [e];
      AliveSnoc(front[1..], e, now);
    }
  }

  lemma ExpiredSnoc(front: seq<Servant>, e: Servant, now: int)
    ensures Expired(front + [e], now) == Expired(front, now) + (if e.expiresAt < now then {e.personality.location} else {})
  {
  }

  lemma ReleaseNothing(s: State)
    ensures Release(s, {}) == s
  {
    assert forall i :: 0 <= i < |s.servants| ==> TasksOf(s.tasks, s.servants[i].id) * {} == {};
    assert Released(s.servants, s.tasks, {}) == s.servants;
    assert s.tasks - {} == s.tasks;
  }

  /** Freeing goes on up to the first id that is not, or no longer, on the books. */
  lemma {:induction false} FreesUpToUnknown(known: set<nat>, ids: seq<nat>, n: nat)
    requires n <= |ids| && forall i :: 0 <= i < n ==> ids[i] in known
    requires forall i, j :: 0 <= i < j < n ==> ids[i] != ids[j]
    requires n < |ids| ==> ids[n] !in known || ids[n] in ids[..n]
    ensures FreedBy(known, ids) == set t | t in ids[..n]
  {
    if n > 0 {
      var rest := ids[1..];
      var later, front := rest[..n - 1], ids[..n];
      assert later == front[1..];
      assert forall i :: 0 <= i < n - 1 ==> rest[i] == ids[i + 1];
      FreesUpToUnknown(known - {ids[0]}, rest, n - 1);
      assert (set t | t in front) == {ids[0]} + (set t | t in later);
    }
  }

  lemma FreedByKnown(known: set<nat>, ids: seq<nat>)
    requires forall i :: 0 <= i < |ids| ==> ids[i] in known
    requires forall i, j :: 0 <= i < j < |ids| ==> ids[i] != ids[j]
    ensures FreedBy(known, ids) == set t | t in ids
  {
    FreesUpToUnknown(known, ids, |ids|);
    assert ids[..|ids|] == ids;
  }

  class TaskDispatcher {
    const minMemoryForNewTask: nat
    const bookkeeper: RunningTaskBookkeeper
    var servants: seq<Servant>
    var tasks: map<nat, Task>
    var nextTaskId: nat
    var nextServantId: nat

    ghost function View(): State
      reads this, bookkeeper
    {
      State(servants, tasks, nextTaskId, nextServantId, bookkeeper.runningTasks, minMemoryForNewTask)
    }

    constructor (minMemory: nat)
      ensures View() == Init(minMemory) && fresh(bookkeeper)
    {
      minMemoryForNewTask := minMemory;
      bookkeeper := new RunningTaskBookkeeper();
      servants, tasks, nextTaskId, nextServantId := [], map[], 0, 0;
    }

    method UnsafeEnumerateEligibleServants(r: Request) returns (eligibles: seq<Servant>)
      ensures eligibles == EligibleOf(servants, r)
    {
      eligibles := [];
      for i := 0 to |servants|
        invariant eligibles + EligibleOf(servants[i..], r) == EligibleOf(servants, r)
      {
        assert servants[i..][1..] == servants[i + 1..];
        var e := servants[i];
        if r.environment in e.personality.environments && e.personality.maxTasks != 0 &&
           e.personality.version >= r.minVersion {
          eligibles := eligibles + [e];
        }
      }
    }

    method UnsafeEnumerateFreeServants(eligibles: seq<Servant>) returns (free: seq<Servant>)
      ensures free == FreeOf(minMemoryForNewTask, eligibles)
    {
      free := [];
      for i := 0 to |eligibles|
        invariant free + FreeOf(minMemoryForNewTask, eligibles[i..]) == FreeOf(minMemoryForNewTask, eligibles)
      {
        assert eligibles[i..][1..] == eligibles[i + 1..];
        if eligibles[i].running < Capacity(minMemoryForNewTask, eligibles[i]) {
          free := free + [eligibles[i]];
        }
      }
    }

    /** Fails its assertions for no candidate that has a free slot. */
    method UnsafeTryPickServantFor(candidates: seq<Servant>, dedicatedOnly: bool) returns (result: Choice)
      requires AllFree(minMemoryForNewTask, candidates)
      ensures result == Best(minMemoryForNewTask, candidates, dedicatedOnly)
    {
      result := Nobody;
      for i := 0 to |candidates|
        invariant result == Best(minMemoryForNewTask, candidates[..i], dedicatedOnly)
      {
        assert candidates[..i + 1][..i] == candidates[..i];
        var e := candidates[i];
        assert e in candidates;
        assert e.personality.maxTasks > e.running;
        assert e.personality.maxTasks != 0;
        assert Capacity(minMemoryForNewTask, e) != 0;
        if !dedicatedOnly || LightlyLoaded(e) {
          if result.Nobody? || Lower(minMemoryForNewTask, e, result.servant) {
            result := Chosen(e);
          }
        }
      }
      assert candidates[..|candidates|] == candidates;
    }

    method UnsafePickServantFor(candidates: seq<Servant>, requestor: string) returns (result: Choice)
      requires AllFree(minMemoryForNewTask, candidates)
      ensures result == Pick(minMemoryForNewTask, candidates, requestor)
    {
      hide Best, AllFree, Capacity, SelfIndex;
      OthersHaveRoom(minMemoryForNewTask, candidates, requestor);
      var self := SelfIndex(candidates, requestor);
      var others := if self < |candidates| then candidates[..self] + candidates[self + 1..] else candidates;
      result := UnsafeTryPickServantFor(others, true);
      if result.Chosen? {
        return;
      }
      result := UnsafeTryPickServantFor(others, false);
      if result.Chosen? {
        return;
      }
      if self < |candidates| {
        assert Capacity(minMemoryForNewTask, candidates[self]) != 0;
        result := Chosen(candidates[self]);
      }
    }

    /** One attempt under the lock. */
    method WaitForStartingNewTask(now: int, r: Request, expiresIn: int, prefetching: bool) returns (outcome: Outcome)
      requires Inv(View())
      modifies this
      ensures (View(), outcome) == Allocate(old(View()), now, r, expiresIn, prefetching)
      ensures Inv(View())
    {
      hide Pick, Inv, EligibleOf, FreeOf, AllFree;
      AllocateKeeps(View(), now, r, expiresIn, prefetching);
      Pickable(View(), r);
      var eligibles := UnsafeEnumerateEligibleServants(r);
      if eligibles == [] {
        return EnvironmentNotFound;
      }
      var free := UnsafeEnumerateFreeServants(eligibles);
      if free == [] {
        return Blocked;
      }
      var pick := UnsafePickServantFor(free, r.requestor);
      assert pick.Chosen?;
      servants := Assigned(servants, pick.servant.id);
      var taskId := nextTaskId;
      nextTaskId := nextTaskId + 1;
      tasks := tasks[taskId := Task(pick.servant.id, now, now + expiresIn, prefetching, false)];
      outcome := Granted(taskId, pick.servant.personality.location);
    }

    method KeepTaskAlive(now: int, t: nat, newExpiresIn: int) returns (renewed: bool)
      requires Inv(View())
      modifies this
      ensures (View(), renewed) == Renew(old(View()), now, t, newExpiresIn)
      ensures renewed <==> t in old(tasks) && !old(tasks)[t].zombie
      ensures renewed ==> t in tasks && tasks[t] == old(tasks)[t].(expiresAt := now + newExpiresIn)
      ensures Inv(View())
    {
      StepKeeps(View(), RenewOp(now, t, newExpiresIn));
      if t !in tasks {
        return false;
      }
      if tasks[t].zombie {
        return false;
      }
      tasks := tasks[t := tasks[t].(expiresAt := now + newExpiresIn)];
      renewed := true;
    }

    method FreeTask(t: nat)
      requires Inv(View())
      modifies this
      ensures View() == FreeTasks(old(View()), [t]) && Inv(View())
    {
      StepKeeps(View(), FreeOp(t));
      UnsafeFreeTasks([t]);
    }

    /** Gives the slots of the listed tasks back, up to the first unknown id. */
    method UnsafeFreeTasks(ids: seq<nat>)
      modifies this`servants, this`tasks
      ensures View() == FreeTasks(old(View()), ids)
    {
      ghost var s := View();
      ghost var gone: set<nat> := {};
      ReleaseNothing(s);
      assert ids[0..] == ids;
      for i := 0 to |ids|
        invariant View() == Release(s, gone) && gone <= s.tasks.Keys
        invariant tasks.Keys == s.tasks.Keys - gone
        invariant gone + FreedBy(tasks.Keys, ids[i..]) == FreedBy(s.tasks.Keys, ids)
      {
        var t := ids[i];
        assert ids[i..][1..] == ids[i + 1..];
        if t !in tasks {
          return;
        }
        DecrementReleases(s, gone, t);
        servants := Decremented(servants, tasks[t].servant);
        tasks := tasks - {t};
        gone := gone + {t};
      }
    }

    method KeepServantAlive(now: int, p: Personality, expiresIn: int)
      requires Inv(View())
      modifies this
      ensures View() == Heartbeat(old(View()), now, p, expiresIn) && Inv(View())
    {
      HeartbeatKeeps(View(), now, p, expiresIn);
      hide Inv;
      var i := FindServant(p.location);
      if i < |servants| {
        servants := servants[i := servants[i].(personality := p, expiresAt := now + expiresIn)];
        return;
      }
      servants := servants + [Servant(nextServantId, p, now, now + expiresIn, 0, 0)];
      nextServantId := nextServantId + 1;
    }

    /** The first servant observed at a location, or the number of servants. */
    method FindServant(location: string) returns (i: nat)
      ensures i == IndexOf(servants, location)
    {
      i := 0;
      while i < |servants| && servants[i].personality.location != location
        invariant i <= |servants|
        invariant i + IndexOf(servants[i..], location) == IndexOf(servants, location)
      {
        assert servants[i..][1..] == servants[i + 1..];
        i := i + 1;
      }
    }

    method NotifyServantRunningTasks(location: string, report: seq<Running>) returns (unknown: seq<nat>)
      requires Inv(View())
      modifies this, bookkeeper
      ensures (View(), unknown) == Notify(old(View()), location, report)
      ensures Inv(View())
    {
      NotifyKeeps(View(), location, report);
      hide Inv, Release, Known, Unknown;
      var i := FindServant(location);
      if i == |servants| {
        return Grants(report);
      }
      var id := servants[i].id;
      UnsafeSweepZombiesOf(id, report);
      var permitted := set t | t in tasks && tasks[t].servant == id && !tasks[t].zombie;
      assert permitted == Permitted(View(), id);
      var kept;
      kept, unknown := SplitReport(report, permitted);
      bookkeeper.SetServantRunningTasks(location, kept);
    }

    /** Parts a report into the entries of permitted grants and the other grant ids, in order. */
    method SplitReport(report: seq<Running>, permitted: set<nat>) returns (kept: seq<Running>, unknown: seq<nat>)
      ensures kept == Known(report, permitted) && unknown == Unknown(report, permitted)
    {
      kept, unknown := [], [];
      assert report[0..] == report;
      for k := 0 to |report|
        invariant kept + Known(report[k..], permitted) == Known(report, permitted)
        invariant unknown + Unknown(report[k..], permitted) == Unknown(report, permitted)
      {
        assert report[k..][1..] == report[k + 1..];
        ghost var ks, us := Known(report[k + 1..], permitted), Unknown(report[k + 1..], permitted);
        if report[k].grant !in permitted {
          assert (unknown + [report[k].grant]) + us == unknown + ([report[k].grant] + us);
          unknown := unknown + [report[k].grant];
        } else {
          assert (kept + [report[k]]) + ks == kept + ([report[k]] + ks);
          kept := kept + [report[k]];
        }
      }
    }

    method UnsafeSweepZombiesOf(id: nat, report: seq<Running>)
      modifies this`servants, this`tasks
      ensures View() == Release(old(View()), Swept(old(View()), id, report))
    {
      var sweeping := set t | t in tasks && tasks[t].servant == id && tasks[t].zombie && t !in Grants(report);
      FreeSet(sweeping);
    }

    /** Frees every task of a set, in whatever order the set is enumerated. */
    method FreeSet(sweeping: set<nat>)
      requires sweeping <= tasks.Keys
      modifies this`servants, this`tasks
      ensures View() == Release(old(View()), sweeping)
    {
      var ids: seq<nat> := [];
      var left := sweeping;
      while left != {}
        invariant left <= sweeping
        invariant forall i :: 0 <= i < |ids| ==> ids[i] in sweeping - left
        invariant forall i, j :: 0 <= i < j < |ids| ==> ids[i] != ids[j]
        invariant forall t <- sweeping - left :: t in ids
        decreases left
      {
        var t :| t in left;
        ids := ids + [t];
        left := left - {t};
      }
      FreedByKnown(tasks.Keys, ids);
      assert (set t | t in ids) == sweeping;
      UnsafeFreeTasks(ids);
    }

    method OnExpirationTimer(now: int)
      requires Inv(View())
      modifies this, bookkeeper
      ensures View() == Timer(old(View()), now) && Inv(View())
    {
      TimerKeeps(View(), now);
      hide Inv, SameDescriptors;
      RemoveExpiredServants(now);
      UnsafeSweepOrphans();
      MakeZombies(now);
    }

    method RemoveExpiredServants(now: int)
      modifies this`servants, bookkeeper
      ensures servants == Alive(old(servants), now)
      ensures bookkeeper.runningTasks == old(bookkeeper.runningTasks) - Expired(old(servants), now)
    {
      var all := servants;
      var alive: seq<Servant> := [];
      assert all[..0] == [] && Expired([], now) == {} && Alive([], now) == [];
      for i := 0 to |all|
        invariant servants == all == old(servants)
        invariant alive == Alive(all[..i], now)
        invariant bookkeeper.runningTasks == old(bookkeeper.runningTasks) - Expired(all[..i], now)
      {
        hide Alive, Expired;
        assert all[..i + 1] == all[..i] + [all[i]];
        AliveSnoc(all[..i], all[i], now);
        ExpiredSnoc(all[..i], all[i], now);
        if all[i].expiresAt < now {
          bookkeeper.DropServant(all[i].personality.location);
        } else {
          alive := alive + [all[i]];
        }
      }
      assert all[..|all|] == all;
      servants := alive;
    }

    method UnsafeSweepOrphans()
      modifies this`servants, this`tasks
      ensures View() == Release(old(View()), Orphans(old(servants), old(tasks)))
    {
      var alive := set e | e in servants :: e.id;
      var sweeping := set t | t in tasks && tasks[t].servant !in alive;
      forall t <- tasks ensures tasks[t].servant in alive <==> Registered(servants, tasks[t].servant) {
        if i :| 0 <= i < |servants| && servants[i].id == tasks[t].servant { assert servants[i] in servants; }
      }
      assert sweeping == Orphans(servants, tasks);
      FreeSet(sweeping);
    }

    method MakeZombies(now: int)
      modifies this`tasks
      ensures tasks == Zombified(old(tasks), now)
    {
      var left := tasks.Keys;
      ghost var target := Zombified(tasks, now);
      while left != {}
        invariant tasks.Keys == target.Keys && left <= tasks.Keys
        invariant forall t <- tasks :: tasks[t] == if t in left then old(tasks)[t] else target[t]
        decreases left
      {
        var t :| t in left;
        if tasks[t].expiresAt < now {
          tasks := tasks[t := tasks[t].(zombie := true)];
        }
        left := left - {t};
      }
    }
  }
}
