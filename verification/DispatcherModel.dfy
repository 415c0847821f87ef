/**
 The scheduler's task dispatcher and its running-task bookkeeper, on values: every locked section of
 the dispatcher is one step.  A servant descriptor carries an identity, because tasks refer to the
 descriptor and not to the location: a servant that expires and registers again is a new descriptor.
 */
module DispatcherModel {
  import opened Basics

  datatype Priority = Dedicated | User

  datatype Personality = Personality(
    version: nat, location: string, environments: seq<string>,
    processors: nat, load: nat, totalMemory: nat, availableMemory: nat,
    maxTasks: nat, priority: Priority)

  datatype Servant = Servant(
    id: nat, personality: Personality, discoveredAt: int, expiresAt: int, running: int, everAssigned: nat)

  datatype Task = Task(servant: nat, startedAt: int, expiresAt: int, prefetch: bool, zombie: bool)

  datatype Request = Request(requestor: string, minVersion: nat, environment: string)

  /** One entry of a servant's report. */
  datatype Running = Running(grant: nat, servantTask: nat)

  datatype State = State(
    servants: seq<Servant>, tasks: map<nat, Task>, nextTask: nat, nextServant: nat,
    book: map<string, seq<Running>>, minMemory: nat)

  datatype Outcome = EnvironmentNotFound | Blocked | Granted(task: nat, location: string)

  datatype Choice = Nobody | Chosen(servant: Servant)

  function Init(minMemory: nat): State { State([], map[], 0, 0, map[], minMemory) }

  // ---------------------------------------------------------------- invariant

  ghost function TasksOf(tasks: map<nat, Task>, id: nat): set<nat>
  {
    set t | t in tasks && tasks[t].servant == id
  }

  ghost predicate Registered(servants: seq<Servant>, id: nat)
  {
    exists i :: 0 <= i < |servants| && servants[i].id == id
  }

  ghost predicate KnownLocation(servants: seq<Servant>, location: string)
  {
    exists i :: 0 <= i < |servants| && servants[i].personality.location == location
  }

  ghost predicate DistinctServants(servants: seq<Servant>)
  {
    forall i, j :: 0 <= i < j < |servants| ==>
      servants[i].id != servants[j].id &&
      servants[i].personality.location != servants[j].personality.location
  }

  ghost predicate CountersExact(servants: seq<Servant>, tasks: map<nat, Task>)
  {
    forall i :: 0 <= i < |servants| ==> servants[i].running == |TasksOf(tasks, servants[i].id)|
  }

  /** What holds between any two steps. */
  ghost predicate Inv(s: State)
  {
    && DistinctServants(s.servants)
    && (forall i :: 0 <= i < |s.servants| ==> s.servants[i].id < s.nextServant)
    && CountersExact(s.servants, s.tasks)
    && (forall t <- s.tasks :: t < s.nextTask && Registered(s.servants, s.tasks[t].servant))
    && (forall l <- s.book :: KnownLocation(s.servants, l))
  }

  // ---------------------------------------------------------------- choosing a servant

  /** What the servant can run for us, given its memory, its foreign load and its own limit. */
  function Capacity(minMemory: nat, e: Servant): int
  {
    var p := e.personality;
    if p.totalMemory != 0 && p.availableMemory < minMemory then e.running
    else
      var foreignLoad := Max(p.load - e.running, 0);
      Min(p.maxTasks, Max(p.processors - foreignLoad, 0))
  }

  predicate Eligible(r: Request, e: Servant)
  {
    r.environment in e.personality.environments && e.personality.maxTasks != 0 &&
    e.personality.version >= r.minVersion
  }

  predicate Free(minMemory: nat, e: Servant) { e.running < Capacity(minMemory, e) }

  /** `location` is "ip:port" with exactly this ip. */
  predicate SameHost(location: string, ip: string)
  {
    |location| > |ip| && location[|ip|] == ':' && location[..|ip|] == ip
  }

  predicate LightlyLoaded(e: Servant)
  {
    e.personality.priority == Dedicated && e.running * 2 < e.personality.processors
  }

  function Candidates(s: State, r: Request): (cs: seq<Servant>)
  {
    FreeOf(s.minMemory, EligibleOf(s.servants, r))
  }

  function EligibleOf(servants: seq<Servant>, r: Request): (es: seq<Servant>)
    ensures forall e :: e in es <==> e in servants && Eligible(r, e)
  {
    if servants == [] then []
    else
      var rest := EligibleOf(servants[1..], r);
      if Eligible(r, servants[0]) then [servants[0]] + rest else rest
  }

  function FreeOf(minMemory: nat, servants: seq<Servant>): (fs: seq<Servant>)
    ensures forall e :: e in fs <==> e in servants && Free(minMemory, e)
  {
    if servants == [] then []
    else
      var rest := FreeOf(minMemory, servants[1..]);
      if Free(minMemory, servants[0]) then [servants[0]] + rest else rest
  }

  /** Strictly lower utilisation, as an exact comparison of running / capacity. */
  predicate Lower(minMemory: nat, a: Servant, b: Servant)
  {
    a.running * Capacity(minMemory, b) < b.running * Capacity(minMemory, a)
  }

  predicate Wanted(dedicatedOnly: bool, e: Servant) { dedicatedOnly ==> LightlyLoaded(e) }

  /** The first wanted servant of lowest utilisation. */
  function Best(minMemory: nat, servants: seq<Servant>, dedicatedOnly: bool): Choice
  {
    if servants == [] then Nobody
    else
      var n := |servants| - 1;
      var sofar := Best(minMemory, servants[..n], dedicatedOnly);
      if !Wanted(dedicatedOnly, servants[n]) then sofar
      else if sofar.Nobody? || Lower(minMemory, servants[n], sofar.servant) then Chosen(servants[n])
      else sofar
  }

  /** Index of the requestor's own first servant, or the length. */
  function SelfIndex(servants: seq<Servant>, ip: string): (i: nat)
    ensures i <= |servants|
    ensures i < |servants| ==> SameHost(servants[i].personality.location, ip)
    ensures forall j :: 0 <= j < i ==> !SameHost(servants[j].personality.location, ip)
  {
    if servants == [] then 0
    else if SameHost(servants[0].personality.location, ip) then 0
    else 1 + SelfIndex(servants[1..], ip)
  }

  function OthersOf(servants: seq<Servant>, ip: string): seq<Servant>
  {
    var i := SelfIndex(servants, ip);
    if i < |servants| then servants[..i] + servants[i + 1..] else servants
  }

  function Pick(minMemory: nat, servants: seq<Servant>, ip: string): Choice
  {
    var others := OthersOf(servants, ip);
    var dedicated := Best(minMemory, others, true);
    if dedicated.Chosen? then dedicated
    else
      var any := Best(minMemory, others, false);
      if any.Chosen? then any
      else
        var i := SelfIndex(servants, ip);
        if i < |servants| then Chosen(servants[i]) else Nobody
  }

  // ---------------------------------------------------------------- steps

  /** Changes one descriptor's counters. */
  function Assigned(servants: seq<Servant>, id: nat): (r: seq<Servant>)
  {
    seq(|servants|, i requires 0 <= i < |servants| =>
      if servants[i].id == id
      then servants[i].(running := servants[i].running + 1, everAssigned := servants[i].everAssigned + 1)
      else servants[i])
  }

  function Allocate(s: State, now: int, r: Request, expiresIn: int, prefetch: bool): (State, Outcome)
  {
    if EligibleOf(s.servants, r) == [] then (s, EnvironmentNotFound)
    else
      var choice := Pick(s.minMemory, Candidates(s, r), r.requestor);
      if choice.Nobody? then (s, Blocked)
      else
        var e := choice.servant;
        (s.(servants := Assigned(s.servants, e.id),
            tasks := s.tasks[s.nextTask := Task(e.id, now, now + expiresIn, prefetch, false)],
            nextTask := s.nextTask + 1),
         Granted(s.nextTask, e.personality.location))
  }

  function Renew(s: State, now: int, t: nat, expiresIn: int): (State, bool)
  {
    if t !in s.tasks || s.tasks[t].zombie then (s, false)
    else (s.(tasks := s.tasks[t := s.tasks[t].(expiresAt := now + expiresIn)]), true)
  }

  /** Forgets a set of tasks and gives their slots back. */
  ghost function Released(servants: seq<Servant>, tasks: map<nat, Task>, gone: set<nat>): seq<Servant>
  {
    seq(|servants|, i requires 0 <= i < |servants| =>
      servants[i].(running := servants[i].running - |TasksOf(tasks, servants[i].id) * gone|))
  }

  ghost function Release(s: State, gone: set<nat>): State
  {
    s.(servants := Released(s.servants, s.tasks, gone), tasks := s.tasks - gone)
  }

  /** What a free of several ids forgets: it stops at the first id it does not know. */
  function FreedBy(known: set<nat>, ids: seq<nat>): (gone: set<nat>)
    ensures gone <= known
  {
    if ids == [] || ids[0] !in known then {} else {ids[0]} + FreedBy(known - {ids[0]}, ids[1..])
  }

  ghost function FreeTasks(s: State, ids: seq<nat>): State
  {
    Release(s, FreedBy(s.tasks.Keys, ids))
  }

  function IndexOf(servants: seq<Servant>, location: string): (i: nat)
    ensures i <= |servants|
    ensures i < |servants| ==> servants[i].personality.location == location
    ensures forall j :: 0 <= j < i ==> servants[j].personality.location != location
  {
    if servants == [] then 0
    else if servants[0].personality.location == location then 0
    else 1 + IndexOf(servants[1..], location)
  }

  function Heartbeat(s: State, now: int, p: Personality, expiresIn: int): State
  {
    var i := IndexOf(s.servants, p.location);
    if i < |s.servants| then
      s.(servants := s.servants[i := s.servants[i].(personality := p, expiresAt := now + expiresIn)])
    else
      s.(servants := s.servants + [Servant(s.nextServant, p, now, now + expiresIn, 0, 0)],
         nextServant := s.nextServant + 1)
  }

  function Grants(report: seq<Running>): seq<nat>
  {
    seq(|report|, i requires 0 <= i < |report| => report[i].grant)
  }

  /** Zombies of a servant that its report no longer mentions. */
  function Swept(s: State, id: nat, report: seq<Running>): set<nat>
  {
    set t | t in s.tasks && s.tasks[t].servant == id && s.tasks[t].zombie && t !in Grants(report)
  }

  function Permitted(s: State, id: nat): set<nat>
  {
    set t | t in s.tasks && s.tasks[t].servant == id && !s.tasks[t].zombie
  }

  function Known(report: seq<Running>, permitted: set<nat>): seq<Running>
  {
    if report == [] then []
    else
      var rest := Known(report[1..], permitted);
      if report[0].grant in permitted then [report[0]] + rest else rest
  }

  function Unknown(report: seq<Running>, permitted: set<nat>): (ids: seq<nat>)
    ensures forall g :: g in ids <==> g in Grants(report) && g !in permitted
  {
    if report == [] then []
    else
      var rest := Unknown(report[1..], permitted);
      assert Grants(report) == [report[0].grant] + Grants(report[1..]);
      if report[0].grant in permitted then rest else [report[0].grant] + rest
  }

  ghost function Notify(s: State, location: string, report: seq<Running>): (State, seq<nat>)
  {
    var i := IndexOf(s.servants, location);
    if i == |s.servants| then (s, Grants(report))
    else
      var id := s.servants[i].id;
      var r := Release(s, Swept(s, id, report));
      var permitted := Permitted(r, id);
      (r.(book := r.book[location := Known(report, permitted)]), Unknown(report, permitted))
  }

  function Alive(servants: seq<Servant>, now: int): (r: seq<Servant>)
    ensures forall e :: e in r <==> e in servants && e.expiresAt >= now
    ensures |r| <= |servants|
  {
    if servants == [] then []
    else
      var rest := Alive(servants[1..], now);
      if servants[0].expiresAt < now then rest else [servants[0]] + rest
  }

  ghost function Orphans(servants: seq<Servant>, tasks: map<nat, Task>): set<nat>
  {
    set t | t in tasks && !Registered(servants, tasks[t].servant)
  }

  function Zombified(tasks: map<nat, Task>, now: int): map<nat, Task>
  {
    map t | t in tasks :: tasks[t].(zombie := tasks[t].zombie || tasks[t].expiresAt < now)
  }

  ghost function Expired(servants: seq<Servant>, now: int): set<string>
  {
    set e | e in servants && e.expiresAt < now :: e.personality.location
  }

  ghost function Timer(s: State, now: int): State
  {
    var alive := s.(servants := Alive(s.servants, now), book := s.book - Expired(s.servants, now));
    var r := Release(alive, Orphans(alive.servants, s.tasks));
    r.(tasks := Zombified(r.tasks, now))
  }
}
