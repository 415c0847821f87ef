/** What the dispatcher keeps over every run, and what a grant means. */
module DispatcherProofs {
  import opened Basics
  import opened DispatcherModel

  datatype Op =
    | AllocateOp(now: int, request: Request, expiresIn: int, prefetch: bool)
    | RenewOp(now: int, task: nat, expiresIn: int)
    | FreeOp(task: nat)
    | HeartbeatOp(now: int, personality: Personality, expiresIn: int)
    | NotifyOp(location: string, report: seq<Running>)
    | TimerOp(now: int)

  ghost function Step(s: State, op: Op): State
  {
    match op
    case AllocateOp(now, request, expiresIn, prefetch) => Allocate(s, now, request, expiresIn, prefetch).0
    case RenewOp(now, task, expiresIn) => Renew(s, now, task, expiresIn).0
    case FreeOp(task) => FreeTasks(s, [task])
    case HeartbeatOp(now, personality, expiresIn) => Heartbeat(s, now, personality, expiresIn)
    case NotifyOp(location, report) => Notify(s, location, report).0
    case TimerOp(now) => Timer(s, now)
  }

  ghost function Run(s: State, ops: seq<Op>): State
  {
    if ops == [] then s else Step(Run(s, ops[..|ops| - 1]), ops[|ops| - 1])
  }

  // ---------------------------------------------------------------- the pick

  /** The first wanted servant that none compares as lower than. */
  ghost predicate FirstLower(minMemory: nat, servants: seq<Servant>, dedicatedOnly: bool, i: nat)
  {
    && i < |servants| && Wanted(dedicatedOnly, servants[i])
    && (forall j :: 0 <= j < |servants| && Wanted(dedicatedOnly, servants[j]) ==>
          !Lower(minMemory, servants[j], servants[i]))
    && (forall j :: 0 <= j < i && Wanted(dedicatedOnly, servants[j]) ==>
          Lower(minMemory, servants[i], servants[j]))
  }

  ghost predicate AllFree(minMemory: nat, servants: seq<Servant>)
  {
    forall e <- servants :: 0 <= e.running < Capacity(minMemory, e)
  }

  /**
   What room means: enough memory if it is reported at all, fewer tasks than the servant's own limit, and
   a processor left over by the load, be it the reported one or the tasks we know of.
   */
  lemma RoomIff(minMemory: nat, e: Servant)
    requires 0 <= e.running
    ensures var p := e.personality;
      Free(minMemory, e) <==>
        && (p.totalMemory == 0 || minMemory <= p.availableMemory)
        && e.running < p.maxTasks
        && Max(p.load, e.running) < p.processors
  {
  }

  lemma LowerTransitive(m: nat, a: Servant, b: Servant, c: Servant)
    requires Capacity(m, a) > 0 && Capacity(m, b) > 0 && Capacity(m, c) > 0
    ensures Lower(m, a, b) && !Lower(m, c, b) ==> Lower(m, a, c)
    ensures Lower(m, a, b) && Lower(m, b, c) ==> Lower(m, a, c)
  {
    CrossMultiply(a.running, Capacity(m, a), b.running, Capacity(m, b), c.running, Capacity(m, c));
  }

  lemma LowerAsymmetric(m: nat, a: Servant, b: Servant)
    ensures Lower(m, a, b) ==> !Lower(m, b, a)
  {
  }

  lemma CrossMultiply(a: int, ca: int, b: int, cb: int, c: int, cc: int)
    requires ca > 0 && cb > 0 && cc > 0
    ensures a * cb < b * ca && b * cc <= c * cb ==> a * cc < c * ca
  {
    if a * cb < b * ca && b * cc <= c * cb {
      ProductsOrdered(a * cb, b * ca, cc);
      ProductsMonotone(b * cc, c * cb, ca);
      assert (b * ca) * cc == (b * cc) * ca;
      assert (a * cb) * cc == (a * cc) * cb && (c * cb) * ca == (c * ca) * cb;
      assert (a * cc) * cb < (c * ca) * cb;
      if a * cc >= c * ca {
        ProductsMonotone(c * ca, a * cc, cb);
      }
    }
  }

  lemma ProductsOrdered(x: int, y: int, k: int)
    requires x < y && k > 0
    ensures x * k < y * k
  {
    assert (y - x) * k > 0;
  }

  lemma ProductsMonotone(x: int, y: int, k: int)
    requires x <= y && k > 0
    ensures x * k <= y * k
  {
    assert (y - x) * k >= 0;
  }

  /** One more servant that is not wanted, or not lower, changes nothing. */
  lemma LowestStays(m: nat, front: seq<Servant>, e: Servant, dedicatedOnly: bool, i: nat)
    requires FirstLower(m, front, dedicatedOnly, i)
    requires Wanted(dedicatedOnly, e) ==> !Lower(m, e, front[i])
    ensures FirstLower(m, front + [e], dedicatedOnly, i)
  {
    hide Lower, Wanted;
    var all := front + [e];
    assert forall j :: 0 <= j < |front| ==> all[j] == front[j];
  }

  /** One more servant that is lower becomes the first lowest. */
  lemma LowestMoves(m: nat, front: seq<Servant>, e: Servant, dedicatedOnly: bool, i: nat)
    requires AllFree(m, front + [e]) && Wanted(dedicatedOnly, e)
    requires if FirstLower(m, front, dedicatedOnly, i) then Lower(m, e, front[i])
             else forall x <- front :: !Wanted(dedicatedOnly, x)
    ensures FirstLower(m, front + [e], dedicatedOnly, |front|)
  {
    hide Lower, Wanted, Capacity;
    var all := front + [e];
    assert all[|front|] == e && e in all;
    LowerAsymmetric(m, e, e);
    forall j | 0 <= j < |front| && Wanted(dedicatedOnly, all[j])
      ensures Lower(m, e, all[j]) && !Lower(m, all[j], e)
    {
      assert all[j] == front[j] && front[j] in front && front[j] in all;
      assert front[i] == all[i] && all[i] in all;
      LowerTransitive(m, e, front[i], front[j]);
      LowerAsymmetric(m, e, front[j]);
    }
  }

  lemma {:induction false} BestIsFirstLower(m: nat, servants: seq<Servant>, dedicatedOnly: bool) returns (i: nat)
    requires AllFree(m, servants)
    ensures Best(m, servants, dedicatedOnly).Nobody? <==> forall e <- servants :: !Wanted(dedicatedOnly, e)
    ensures Best(m, servants, dedicatedOnly).Chosen? ==>
      FirstLower(m, servants, dedicatedOnly, i) && Best(m, servants, dedicatedOnly).servant == servants[i]
  {
    hide Lower, Wanted, Capacity, FirstLower;
    i := 0;
    if servants != [] {
      var n := |servants| - 1;
      var front, e := servants[..n], servants[n];
      assert servants == front + [e];
      assert forall x <- front :: x in servants;
      i := BestIsFirstLower(m, front, dedicatedOnly);
      var sofar := Best(m, front, dedicatedOnly);
      assert sofar.Chosen? ==> i < |front| by { LowestInRange(m, front, dedicatedOnly, i); }
      if Wanted(dedicatedOnly, e) && (sofar.Nobody? || Lower(m, e, sofar.servant)) {
        if sofar.Nobody? { LowestInRange(m, front, dedicatedOnly, i); }
        LowestMoves(m, front, e, dedicatedOnly, i);
        i := n;
      } else if sofar.Chosen? {
        LowestStays(m, front, e, dedicatedOnly, i);
      }
    }
  }

  lemma LowestInRange(m: nat, servants: seq<Servant>, dedicatedOnly: bool, i: nat)
    ensures FirstLower(m, servants, dedicatedOnly, i) ==>
      i < |servants| && servants[i] in servants && Wanted(dedicatedOnly, servants[i])
  {
  }

  /** What a servant with room can run for us: its own limit, or the processors that its foreign load leaves. */
  function Slots(e: Servant): int
  {
    Min(e.personality.maxTasks, e.personality.processors - Max(e.personality.load - e.running, 0))
  }

  lemma RoomySlots(minMemory: nat, e: Servant)
    requires 0 <= e.running && Free(minMemory, e)
    ensures Capacity(minMemory, e) == Slots(e) > e.running
  {
  }

  /** `servants[i]` is the first of the wanted servants of which the smallest part of its slots is taken. */
  ghost predicate FirstLowest(servants: seq<Servant>, dedicatedOnly: bool, i: nat)
  {
    && i < |servants| && (dedicatedOnly ==> LightlyLoaded(servants[i]))
    && forall j :: 0 <= j < |servants| && (dedicatedOnly ==> LightlyLoaded(servants[j])) ==>
         NoLower(servants[i], servants[j]) && (j < i ==> HigherThan(servants[j], servants[i]))
  }

  /** running/slots of `e` is at most that of `o`. */
  predicate NoLower(e: Servant, o: Servant) { e.running * Slots(o) <= o.running * Slots(e) }

  predicate HigherThan(o: Servant, e: Servant) { e.running * Slots(o) < o.running * Slots(e) }

  lemma LowerIsLowest(m: nat, servants: seq<Servant>, dedicatedOnly: bool, i: nat)
    requires AllFree(m, servants) && FirstLower(m, servants, dedicatedOnly, i)
    ensures FirstLowest(servants, dedicatedOnly, i)
  {
    hide LightlyLoaded, Slots, Capacity;
    assert servants[i] in servants;
    RoomySlots(m, servants[i]);
    forall j | 0 <= j < |servants| && Wanted(dedicatedOnly, servants[j])
      ensures NoLower(servants[i], servants[j]) && (j < i ==> HigherThan(servants[j], servants[i]))
    {
      assert servants[j] in servants;
      RoomySlots(m, servants[j]);
    }
  }

  /** The single pass over the candidates finds the first one of lowest utilisation, if any is wanted. */
  lemma BestIsFirstLowest(m: nat, servants: seq<Servant>, dedicatedOnly: bool) returns (i: nat)
    requires AllFree(m, servants)
    ensures Best(m, servants, dedicatedOnly).Nobody? <==>
      servants == [] || (dedicatedOnly && forall e <- servants :: !LightlyLoaded(e))
    ensures Best(m, servants, dedicatedOnly).Chosen? ==>
      FirstLowest(servants, dedicatedOnly, i) && Best(m, servants, dedicatedOnly).servant == servants[i]
  {
    i := BestIsFirstLower(m, servants, dedicatedOnly);
    hide Best, FirstLowest, FirstLower, LightlyLoaded;
    if Best(m, servants, dedicatedOnly).Chosen? {
      LowestInRange(m, servants, dedicatedOnly, i);
      LowerIsLowest(m, servants, dedicatedOnly, i);
    } else if servants != [] {
      assert servants[0] in servants;
    }
  }

  lemma CandidatesAreFree(s: State, r: Request)
    requires Inv(s)
    ensures AllFree(s.minMemory, Candidates(s, r))
    ensures forall e <- Candidates(s, r) ::
      e in s.servants && Eligible(r, e) && e.personality.maxTasks > e.running && Capacity(s.minMemory, e) > 0
  {
    forall e <- Candidates(s, r) ensures e in s.servants && e.running >= 0 {
      var i :| 0 <= i < |s.servants| && s.servants[i] == e;
    }
  }

  lemma OthersSubset(servants: seq<Servant>, ip: string)
    ensures forall e <- OthersOf(servants, ip) :: e in servants
    ensures servants != [] && OthersOf(servants, ip) == [] ==>
      SelfIndex(servants, ip) == 0 && |servants| == 1
  {
  }

  /** The three ways a servant may be picked, in order of preference. */
  ghost predicate WellPicked(candidates: seq<Servant>, ip: string, e: Servant)
  {
    var others := OthersOf(candidates, ip);
    if exists o <- others :: LightlyLoaded(o) then
      exists i: nat :: FirstLowest(others, true, i) && others[i] == e
    else if others != [] then
      exists i: nat :: FirstLowest(others, false, i) && others[i] == e
    else candidates == [e] && SameHost(e.personality.location, ip)
  }

  lemma PickIsWellPicked(m: nat, candidates: seq<Servant>, ip: string)
    requires AllFree(m, candidates)
    ensures Pick(m, candidates, ip).Chosen? <==> candidates != []
    ensures Pick(m, candidates, ip).Chosen? ==>
      Pick(m, candidates, ip).servant in candidates && WellPicked(candidates, ip, Pick(m, candidates, ip).servant)
  {
    var others := OthersOf(candidates, ip);
    OthersSubset(candidates, ip);
    var i := BestIsFirstLowest(m, others, true);
    var j := BestIsFirstLowest(m, others, false);
    if Best(m, others, true).Nobody? && others != [] {
      assert others[0] in others && Wanted(false, others[0]);
    }
  }

  /**
   A grant goes to a registered, eligible servant with a free slot, the best of its class: lightly
   loaded dedicated servants first, then any other servant, the requestor's own only when it is the
   sole candidate.  A request is refused exactly when no servant is eligible and blocked exactly when
   none of the eligible ones has room, so none of the assertions made while picking can fail.
   */
  lemma GrantIsWellPicked(s: State, now: int, r: Request, expiresIn: int, prefetch: bool)
    requires Inv(s)
    ensures var (s', out) := Allocate(s, now, r, expiresIn, prefetch);
      match out
      case EnvironmentNotFound => s' == s && forall e <- s.servants :: !Eligible(r, e)
      case Blocked => s' == s && (exists e <- s.servants :: Eligible(r, e)) &&
                      forall e <- s.servants :: Eligible(r, e) ==> !Free(s.minMemory, e)
      case Granted(t, location) =>
        exists e <- s.servants ::
          && e.personality.location == location && Eligible(r, e) && Free(s.minMemory, e)
          && e.running < e.personality.maxTasks
          && WellPicked(Candidates(s, r), r.requestor, e)
          && t !in s.tasks && s'.tasks == s.tasks[t := Task(e.id, now, now + expiresIn, prefetch, false)]
  {
    CandidatesAreFree(s, r);
    PickIsWellPicked(s.minMemory, Candidates(s, r), r.requestor);
    var (s', out) := Allocate(s, now, r, expiresIn, prefetch);
    if out.EnvironmentNotFound? {
      assert forall e :: e in EligibleOf(s.servants, r) <==> e in s.servants && Eligible(r, e);
    } else {
      assert EligibleOf(s.servants, r)[0] in EligibleOf(s.servants, r);
      if out.Blocked? {
        assert forall e :: e in Candidates(s, r) <==> e in s.servants && Eligible(r, e) && Free(s.minMemory, e);
      }
    }
  }

  // ---------------------------------------------------------------- counters

  lemma SameTasksOf(a: map<nat, Task>, b: map<nat, Task>, id: nat)
    requires a.Keys == b.Keys && forall t <- a :: a[t].servant == b[t].servant
    ensures TasksOf(a, id) == TasksOf(b, id)
  {
  }

  lemma AddTask(tasks: map<nat, Task>, t: nat, task: Task, id: nat)
    requires t !in tasks
    ensures |TasksOf(tasks[t := task], id)| == |TasksOf(tasks, id)| + (if task.servant == id then 1 else 0)
  {
    var after := TasksOf(tasks[t := task], id);
    assert after == TasksOf(tasks, id) + (if task.servant == id then {t} else {});
  }

  lemma DropTasks(tasks: map<nat, Task>, gone: set<nat>, id: nat)
    ensures |TasksOf(tasks - gone, id)| == |TasksOf(tasks, id)| - |TasksOf(tasks, id) * gone|
  {
    var a := TasksOf(tasks, id);
    assert TasksOf(tasks - gone, id) == a - gone;
    assert a == (a - gone) + (a * gone);
  }

  lemma AssignedCounters(servants: seq<Servant>, tasks: map<nat, Task>, t: nat, task: Task)
    requires CountersExact(servants, tasks) && t !in tasks
    ensures CountersExact(Assigned(servants, task.servant), tasks[t := task])
  {
    forall i | 0 <= i < |servants|
      ensures Assigned(servants, task.servant)[i].running
           == |TasksOf(tasks[t := task], Assigned(servants, task.servant)[i].id)|
    {
      AddTask(tasks, t, task, servants[i].id);
    }
  }

  lemma ReleasedCounters(servants: seq<Servant>, tasks: map<nat, Task>, gone: set<nat>)
    requires CountersExact(servants, tasks)
    ensures CountersExact(Released(servants, tasks, gone), tasks - gone)
  {
    forall i | 0 <= i < |servants|
      ensures Released(servants, tasks, gone)[i].running
           == |TasksOf(tasks - gone, Released(servants, tasks, gone)[i].id)|
    {
      DropTasks(tasks, gone, servants[i].id);
    }
  }

  /** Same descriptors at the same places, counters and leases aside. */
  ghost predicate SameDescriptors(a: seq<Servant>, b: seq<Servant>)
  {
    |a| == |b| && forall i :: 0 <= i < |a| ==>
      a[i].id == b[i].id && a[i].personality.location == b[i].personality.location
  }

  lemma SameDescriptorsKeep(a: seq<Servant>, b: seq<Servant>)
    requires SameDescriptors(a, b)
    ensures DistinctServants(a) ==> DistinctServants(b)
    ensures forall id :: Registered(a, id) <==> Registered(b, id)
    ensures forall l :: KnownLocation(a, l) <==> KnownLocation(b, l)
  {
    forall id ensures Registered(a, id) <==> Registered(b, id) {
      if i :| 0 <= i < |a| && a[i].id == id { assert b[i].id == id; }
      if i :| 0 <= i < |b| && b[i].id == id { assert a[i].id == id; }
    }
    forall l ensures KnownLocation(a, l) <==> KnownLocation(b, l) {
      if i :| 0 <= i < |a| && a[i].personality.location == l { assert b[i].personality.location == l; }
      if i :| 0 <= i < |b| && b[i].personality.location == l { assert a[i].personality.location == l; }
    }
  }

  // ---------------------------------------------------------------- every step keeps the invariant

  lemma AllocateKeeps(s: State, now: int, r: Request, expiresIn: int, prefetch: bool)
    requires Inv(s)
    ensures Inv(Allocate(s, now, r, expiresIn, prefetch).0)
  {
    hide Pick, Candidates, WellPicked, Eligible, EligibleOf, Capacity;
    var (s', out) := Allocate(s, now, r, expiresIn, prefetch);
    if out.Granted? {
      CandidatesAreFree(s, r);
      PickIsWellPicked(s.minMemory, Candidates(s, r), r.requestor);
      var e := Pick(s.minMemory, Candidates(s, r), r.requestor).servant;
      var task := Task(e.id, now, now + expiresIn, prefetch, false);
      assert s.nextTask !in s.tasks;
      AssignedCounters(s.servants, s.tasks, s.nextTask, task);
      SameDescriptorsKeep(s.servants, s'.servants);
      assert Registered(s.servants, e.id);
    }
  }

  lemma ReleaseKeeps(s: State, gone: set<nat>)
    requires Inv(s)
    ensures Inv(Release(s, gone)) && SameDescriptors(s.servants, Release(s, gone).servants)
    ensures forall i :: 0 <= i < |s.servants| ==> 0 <= Release(s, gone).servants[i].running <= s.servants[i].running
  {
    ReleasedCounters(s.servants, s.tasks, gone);
    SameDescriptorsKeep(s.servants, Release(s, gone).servants);
  }

  lemma HeartbeatKeeps(s: State, now: int, p: Personality, expiresIn: int)
    requires Inv(s)
    ensures Inv(Heartbeat(s, now, p, expiresIn))
  {
    var r := Heartbeat(s, now, p, expiresIn);
    if IndexOf(s.servants, p.location) < |s.servants| {
      SameDescriptorsKeep(s.servants, r.servants);
    } else {
      assert TasksOf(s.tasks, s.nextServant) == {} by {
        forall t <- s.tasks ensures s.tasks[t].servant != s.nextServant {
          var i :| 0 <= i < |s.servants| && s.servants[i].id == s.tasks[t].servant;
        }
      }
      forall t <- s.tasks ensures Registered(r.servants, s.tasks[t].servant) {
        var i :| 0 <= i < |s.servants| && s.servants[i].id == s.tasks[t].servant;
        assert r.servants[i].id == s.tasks[t].servant;
      }
      forall l <- s.book ensures KnownLocation(r.servants, l) {
        var i :| 0 <= i < |s.servants| && s.servants[i].personality.location == l;
        assert r.servants[i].personality.location == l;
      }
    }
  }

  lemma NotifyKeeps(s: State, location: string, report: seq<Running>)
    requires Inv(s)
    ensures Inv(Notify(s, location, report).0)
  {
    var i := IndexOf(s.servants, location);
    if i < |s.servants| {
      var gone := Swept(s, s.servants[i].id, report);
      ReleaseKeeps(s, gone);
      assert Release(s, gone).servants[i].personality.location == location;
    }
  }

  lemma {:induction false} AliveKeeps(servants: seq<Servant>, now: int)
    requires DistinctServants(servants)
    ensures DistinctServants(Alive(servants, now))
  {
    if servants != [] {
      var head, tail := servants[0], servants[1..];
      assert forall k :: 0 <= k < |tail| ==> tail[k] == servants[k + 1];
      AliveKeeps(tail, now);
      var rest := Alive(tail, now);
      if head.expiresAt >= now {
        forall i, j | 0 <= i < j < 1 + |rest|
          ensures ([head] + rest)[i].id != ([head] + rest)[j].id
          ensures ([head] + rest)[i].personality.location != ([head] + rest)[j].personality.location
        {
          if i == 0 {
            assert rest[j - 1] in tail;
            var k :| 0 <= k < |tail| && tail[k] == rest[j - 1];
          }
        }
      }
    }
  }

  lemma AliveCounters(s: State, now: int)
    requires Inv(s)
    ensures var alive := Alive(s.servants, now);
      && DistinctServants(alive) && CountersExact(alive, s.tasks)
      && forall i :: 0 <= i < |alive| ==> alive[i].id < s.nextServant
  {
    var alive := Alive(s.servants, now);
    AliveKeeps(s.servants, now);
    forall i | 0 <= i < |alive|
      ensures alive[i].running == |TasksOf(s.tasks, alive[i].id)| && alive[i].id < s.nextServant
    {
      assert alive[i] in s.servants;
      var j :| 0 <= j < |s.servants| && s.servants[j] == alive[i];
    }
  }

  lemma AliveBook(s: State, now: int)
    requires Inv(s)
    ensures forall l <- s.book - Expired(s.servants, now) :: KnownLocation(Alive(s.servants, now), l)
  {
    hide DistinctServants, CountersExact, Alive;
    forall l <- s.book - Expired(s.servants, now) ensures KnownLocation(Alive(s.servants, now), l) {
      AliveLocation(s.servants, now, l);
    }
  }

  lemma AliveLocation(servants: seq<Servant>, now: int, l: string)
    requires KnownLocation(servants, l) && l !in Expired(servants, now)
    ensures KnownLocation(Alive(servants, now), l)
  {
    hide Alive;
    var alive := Alive(servants, now);
    var i :| 0 <= i < |servants| && servants[i].personality.location == l;
    assert servants[i] in servants && servants[i].expiresAt >= now;
    assert servants[i] in alive;
    var j :| 0 <= j < |alive| && alive[j] == servants[i];
    assert alive[j].personality.location == l;
  }

  lemma TimerKeeps(s: State, now: int)
    requires Inv(s)
    ensures Inv(Timer(s, now)) && SameDescriptors(Alive(s.servants, now), Timer(s, now).servants)
  {
    hide Alive, Expired;
    var alive := s.(servants := Alive(s.servants, now), book := s.book - Expired(s.servants, now));
    var gone := Orphans(alive.servants, s.tasks);
    AliveCounters(s, now);
    AliveBook(s, now);
    var kept := alive.(tasks := s.tasks - gone, servants := Released(alive.servants, s.tasks, gone));
    ReleasedCounters(alive.servants, s.tasks, gone);
    SameDescriptorsKeep(alive.servants, kept.servants);
    assert Inv(kept);
    ZombifyKeeps(kept, now);
  }

  lemma ZombifyKeeps(s: State, now: int)
    requires Inv(s)
    ensures Inv(s.(tasks := Zombified(s.tasks, now)))
  {
    forall i | 0 <= i < |s.servants|
      ensures s.servants[i].running == |TasksOf(Zombified(s.tasks, now), s.servants[i].id)|
    {
      SameTasksOf(s.tasks, Zombified(s.tasks, now), s.servants[i].id);
    }
  }

  lemma StepKeeps(s: State, op: Op)
    requires Inv(s)
    ensures Inv(Step(s, op))
  {
    match op
    case AllocateOp(now, request, expiresIn, prefetch) => AllocateKeeps(s, now, request, expiresIn, prefetch);
    case RenewOp(now, task, expiresIn) =>
      var r := Step(s, op);
      forall i | 0 <= i < |s.servants| ensures r.servants[i].running == |TasksOf(r.tasks, r.servants[i].id)| {
        SameTasksOf(s.tasks, r.tasks, s.servants[i].id);
      }
    case FreeOp(task) => ReleaseKeeps(s, FreedBy(s.tasks.Keys, [task]));
    case HeartbeatOp(now, personality, expiresIn) => HeartbeatKeeps(s, now, personality, expiresIn);
    case NotifyOp(location, report) => NotifyKeeps(s, location, report);
    case TimerOp(now) => TimerKeeps(s, now);
  }

  lemma {:induction false} RunKeeps(s: State, ops: seq<Op>)
    requires Inv(s)
    ensures Inv(Run(s, ops))
  {
    if ops != [] {
      RunKeeps(s, ops[..|ops| - 1]);
      StepKeeps(Run(s, ops[..|ops| - 1]), ops[|ops| - 1]);
    }
  }

  function SumRunning(servants: seq<Servant>): int
  {
    if servants == [] then 0 else servants[0].running + SumRunning(servants[1..])
  }

  /** Tasks of a part of the servants. */
  ghost function TasksOfAll(servants: seq<Servant>, tasks: map<nat, Task>): set<nat>
  {
    set t | t in tasks && Registered(servants, tasks[t].servant)
  }

  lemma {:induction false} CountersAddUp(servants: seq<Servant>, tasks: map<nat, Task>)
    requires DistinctServants(servants) && CountersExact(servants, tasks)
    ensures SumRunning(servants) == |TasksOfAll(servants, tasks)|
  {
    if servants == [] {
      assert TasksOfAll(servants, tasks) == {};
    } else {
      var rest := servants[1..];
      assert forall i :: 0 <= i < |rest| ==> rest[i] == servants[i + 1];
      CountersAddUp(rest, tasks);
      var mine := TasksOf(tasks, servants[0].id);
      forall t <- tasks ensures Registered(servants, tasks[t].servant) <==>
          tasks[t].servant == servants[0].id || Registered(rest, tasks[t].servant) {
        if tasks[t].servant == servants[0].id { assert servants[0].id == tasks[t].servant; }
        if i :| 0 <= i < |rest| && rest[i].id == tasks[t].servant { assert servants[i + 1].id == tasks[t].servant; }
        if i :| 0 <= i < |servants| && servants[i].id == tasks[t].servant { assert i == 0 || rest[i - 1] == servants[i]; }
      }
      assert TasksOfAll(servants, tasks) == mine + TasksOfAll(rest, tasks);
      assert mine !! TasksOfAll(rest, tasks);
    }
  }

  /** In every reachable state the counters are exact, non-negative and add up to the tasks. */
  lemma CountersSumToTasks(minMemory: nat, ops: seq<Op>)
    ensures var s := Run(Init(minMemory), ops);
      && Inv(s) && SumRunning(s.servants) == |s.tasks|
      && forall i :: 0 <= i < |s.servants| ==> 0 <= s.servants[i].running
  {
    var s := Run(Init(minMemory), ops);
    RunKeeps(Init(minMemory), ops);
    CountersAddUp(s.servants, s.tasks);
    assert TasksOfAll(s.servants, s.tasks) == s.tasks.Keys;
  }

  // ---------------------------------------------------------------- expiry is final

  /** A grant that the scheduler honours at a location: known, not a zombie, its servant there. */
  ghost predicate LiveAt(s: State, t: nat, location: string)
  {
    && t in s.tasks && !s.tasks[t].zombie
    && exists i :: 0 <= i < |s.servants| && s.servants[i].id == s.tasks[t].servant &&
                   s.servants[i].personality.location == location
  }

  /** Descriptors never change location and never come back. */
  ghost predicate LocationsStay(s: State, r: State)
  {
    && s.nextServant <= r.nextServant
    && forall i :: 0 <= i < |r.servants| && r.servants[i].id < s.nextServant ==>
         exists j :: 0 <= j < |s.servants| && s.servants[j].id == r.servants[i].id &&
                     s.servants[j].personality.location == r.servants[i].personality.location
  }

  lemma StepLocations(s: State, op: Op)
    requires Inv(s)
    ensures LocationsStay(s, Step(s, op))
  {
    if op.TimerOp? {
      TimerLocations(s, op.now);
    } else {
      PlainLocations(s, op);
    }
  }

  lemma TimerLocations(s: State, now: int)
    requires Inv(s)
    ensures LocationsStay(s, Timer(s, now))
  {
    TimerKeeps(s, now);
    hide Inv;
    var r, alive := Timer(s, now), Alive(s.servants, now);
    forall i | 0 <= i < |r.servants|
      ensures exists j :: 0 <= j < |s.servants| && s.servants[j].id == r.servants[i].id &&
                          s.servants[j].personality.location == r.servants[i].personality.location
    {
      assert alive[i] in s.servants;
      var j :| 0 <= j < |s.servants| && s.servants[j] == alive[i];
    }
  }

  lemma PlainLocations(s: State, op: Op)
    requires !op.TimerOp?
    ensures LocationsStay(s, Step(s, op))
  {
    hide Pick, Candidates, EligibleOf;
    var r := Step(s, op);
    forall i | 0 <= i < |r.servants| && r.servants[i].id < s.nextServant
      ensures exists j :: 0 <= j < |s.servants| && s.servants[j].id == r.servants[i].id &&
                          s.servants[j].personality.location == r.servants[i].personality.location
    {
      assert i < |s.servants| && s.servants[i].id == r.servants[i].id;
    }
  }

  /** Tasks keep their servant, are never reused, and a zombie is never revived. */
  ghost predicate TasksOnlyAge(s: State, r: State)
  {
    && s.nextTask <= r.nextTask
    && forall t :: t in r.tasks && t < s.nextTask ==>
         t in s.tasks && r.tasks[t].servant == s.tasks[t].servant && (s.tasks[t].zombie ==> r.tasks[t].zombie)
  }

  lemma StepAges(s: State, op: Op)
    ensures TasksOnlyAge(s, Step(s, op))
  {
  }

  /** The ids granted in a run, in order. */
  ghost function GrantedIn(s: State, ops: seq<Op>): seq<nat>
  {
    if ops == [] then []
    else
      var front, op := ops[..|ops| - 1], ops[|ops| - 1];
      GrantedIn(s, front) + Granting(Run(s, front), op)
  }

  function Granting(s: State, op: Op): seq<nat>
  {
    if op.AllocateOp? then
      var out := Allocate(s, op.now, op.request, op.expiresIn, op.prefetch).1;
      if out.Granted? then [out.task] else []
    else []
  }

  /** Ids only grow: no run grants an id twice, or one that was granted before it began. */
  lemma {:induction false} GrantIdsIncrease(s: State, ops: seq<Op>)
    ensures s.nextTask <= Run(s, ops).nextTask
    ensures forall i :: 0 <= i < |GrantedIn(s, ops)| ==> s.nextTask <= GrantedIn(s, ops)[i] < Run(s, ops).nextTask
    ensures forall i, j :: 0 <= i < j < |GrantedIn(s, ops)| ==> GrantedIn(s, ops)[i] < GrantedIn(s, ops)[j]
  {
    if ops != [] {
      var front, op := ops[..|ops| - 1], ops[|ops| - 1];
      GrantIdsIncrease(s, front);
      StepAges(Run(s, front), op);
    }
  }

  /** A grant that is not live at a location never becomes live there. */
  lemma DeadStaysDead(s: State, op: Op, t: nat, location: string)
    requires Inv(s) && t < s.nextTask && !LiveAt(s, t, location)
    ensures !LiveAt(Step(s, op), t, location) && t < Step(s, op).nextTask
  {
    var r := Step(s, op);
    StepAges(s, op);
    StepLocations(s, op);
  }

  lemma {:induction false} DeadStaysDeadForever(s: State, ops: seq<Op>, t: nat, location: string)
    requires Inv(s) && t < s.nextTask && !LiveAt(s, t, location)
    ensures !LiveAt(Run(s, ops), t, location) && t < Run(s, ops).nextTask
  {
    if ops != [] {
      var front := ops[..|ops| - 1];
      DeadStaysDeadForever(s, front, t, location);
      RunKeeps(s, front);
      DeadStaysDead(Run(s, front), ops[|ops| - 1], t, location);
    }
  }

  /** What a servant's report returns is exactly the reported grants that are not live there. */
  lemma UnknownIsNotLive(s: State, location: string, report: seq<Running>)
    requires Inv(s)
    ensures var (r, unknown) := Notify(s, location, report);
      forall g :: g in unknown <==> g in Grants(report) && !LiveAt(r, g, location)
  {
    var (r, unknown) := Notify(s, location, report);
    NotifyKeeps(s, location, report);
    var i := IndexOf(s.servants, location);
    hide CountersExact, Known, IndexOf, Swept, Unknown;
    if i < |s.servants| {
      var id := s.servants[i].id;
      assert r.servants[i].id == id && r.servants[i].personality.location == location;
      assert forall g :: g in unknown <==> g in Grants(report) && g !in Permitted(r, id);
      hide Notify;
      forall g ensures LiveAt(r, g, location) <==> g in Permitted(r, id) {
        PermittedIsLive(r, i, g);
      }
    } else {
      assert forall g :: !LiveAt(r, g, location);
    }
  }

  lemma PermittedIsLive(s: State, i: nat, g: nat)
    requires DistinctServants(s.servants) && i < |s.servants|
    ensures LiveAt(s, g, s.servants[i].personality.location) <==> g in Permitted(s, s.servants[i].id)
  {
    if LiveAt(s, g, s.servants[i].personality.location) {
      var j :| 0 <= j < |s.servants| && s.servants[j].id == s.tasks[g].servant &&
               s.servants[j].personality.location == s.servants[i].personality.location;
      assert j == i;
    }
  }

  /**
   An allocated grant once returned to a servant as expired is never again live at that servant,
   whatever happens before the reply is acted on.
   */
  lemma ExpiryIsFinal(s: State, location: string, report: seq<Running>, later: seq<Op>, g: nat)
    requires Inv(s) && g in Notify(s, location, report).1 && g < s.nextTask
    ensures !LiveAt(Run(Notify(s, location, report).0, later), g, location)
  {
    NotifyKeeps(s, location, report);
    UnknownIsNotLive(s, location, report);
    DeadStaysDeadForever(Notify(s, location, report).0, later, g, location);
  }

  /** When a step takes a task off the books. */
  ghost predicate Forgets(s: State, op: Op, t: nat)
    requires t in s.tasks
  {
    match op
    case FreeOp(task) => task == t
    case NotifyOp(location, report) =>
      var i := IndexOf(s.servants, location);
      i < |s.servants| && s.servants[i].id == s.tasks[t].servant && s.tasks[t].zombie && t !in Grants(report)
    case TimerOp(now) => !Registered(Alive(s.servants, now), s.tasks[t].servant)
    case _ => false
  }

  /**
   A task keeps its slot, zombie or not, until it is freed, swept by its servant's report (zombies
   only) or orphaned by its servant's expiry; nothing else forgets it.
   */
  lemma TasksHoldTheirSlots(s: State, op: Op, t: nat)
    requires Inv(s) && t in s.tasks
    ensures var r := Step(s, op);
      && (t !in r.tasks <==> Forgets(s, op, t))
      && (t in r.tasks ==> t in TasksOf(r.tasks, s.tasks[t].servant) && (s.tasks[t].zombie ==> r.tasks[t].zombie))
  {
    StepAges(s, op);
    if op.FreeOp? {
      assert FreedBy(s.tasks.Keys, [op.task]) == if op.task in s.tasks then {op.task} else {};
    }
  }

  // ---------------------------------------------------------------- no servant is overbooked

  /** The largest limit a location has ever reported. */
  function Peak(ops: seq<Op>, location: string): (m: int)
    ensures m >= 0
  {
    if ops == [] then 0
    else
      var before := Peak(ops[..|ops| - 1], location);
      var op := ops[|ops| - 1];
      if op.HeartbeatOp? && op.personality.location == location then Max(before, op.personality.maxTasks)
      else before
  }

  ghost predicate WithinPeak(s: State, ops: seq<Op>)
  {
    forall i :: 0 <= i < |s.servants| ==>
      var e := s.servants[i];
      e.personality.maxTasks <= Peak(ops, e.personality.location) && e.running <= Peak(ops, e.personality.location)
  }

  lemma StepWithinPeak(s: State, ops: seq<Op>, op: Op)
    requires Inv(s) && WithinPeak(s, ops)
    ensures WithinPeak(Step(s, op), ops + [op])
  {
    hide Pick, Candidates, EligibleOf, CountersExact, DistinctServants;
    var r := Step(s, op);
    assert (ops + [op])[..|ops|] == ops;
    match op
    case AllocateOp(now, request, expiresIn, prefetch) =>
      AllocateWithinPeak(s, ops, op);
    case TimerOp(now) => TimerWithinPeak(s, ops, now);
    case NotifyOp(location, report) =>
      var i := IndexOf(s.servants, location);
      if i < |s.servants| {
        ReleaseWithinPeak(s, ops, Swept(s, s.servants[i].id, report));
      }
    case FreeOp(task) => ReleaseWithinPeak(s, ops, FreedBy(s.tasks.Keys, [task]));
    case _ =>
  }

  lemma ReleaseWithinPeak(s: State, ops: seq<Op>, gone: set<nat>)
    requires WithinPeak(s, ops)
    ensures WithinPeak(Release(s, gone), ops)
  {
  }

  lemma TimerWithinPeak(s: State, ops: seq<Op>, now: int)
    requires Inv(s) && WithinPeak(s, ops)
    ensures WithinPeak(Timer(s, now), ops)
  {
    hide Inv;
    var r, alive := Timer(s, now), Alive(s.servants, now);
    forall i | 0 <= i < |r.servants|
      ensures r.servants[i].personality == alive[i].personality && r.servants[i].running <= alive[i].running
      ensures alive[i] in s.servants
    {
    }
  }

  lemma AllocateWithinPeak(s: State, ops: seq<Op>, op: Op)
    requires Inv(s) && WithinPeak(s, ops) && op.AllocateOp?
    ensures WithinPeak(Step(s, op), ops)
  {
    hide Pick, Candidates, WellPicked, Eligible, EligibleOf, Capacity, AllFree, CountersExact;
    CandidatesAreFree(s, op.request);
    PickIsWellPicked(s.minMemory, Candidates(s, op.request), op.request.requestor);
    var choice := Pick(s.minMemory, Candidates(s, op.request), op.request.requestor);
    if Step(s, op) != s {
      var e := choice.servant;
      var k :| 0 <= k < |s.servants| && s.servants[k] == e;
    }
  }

  /** Over every run, a servant never holds more tasks than the largest limit it ever reported. */
  lemma {:induction false} NeverOverbooked(minMemory: nat, ops: seq<Op>)
    ensures WithinPeak(Run(Init(minMemory), ops), ops)
  {
    if ops != [] {
      var front := ops[..|ops| - 1];
      NeverOverbooked(minMemory, front);
      RunKeeps(Init(minMemory), front);
      StepWithinPeak(Run(Init(minMemory), front), front, ops[|ops| - 1]);
      assert front + [ops[|ops| - 1]] == ops;
    }
  }
}
