/**
 Leases over whole runs of the dispatcher: what a heartbeat and a renewal are worth, whom the timer
 removes, and what the bookkeeper holds.
 */
module DispatcherLeases {
  import opened Basics
  import opened DispatcherModel
  import opened DispatcherProofs

  // ---------------------------------------------------------------- servants

  predicate BeatOf(op: Op, location: string)
  {
    op.HeartbeatOp? && op.personality.location == location
  }

  /** The latest heartbeat from a location. */
  function LatestBeat(ops: seq<Op>, location: string): (beat: Option<Op>)
    ensures beat.Some? ==> BeatOf(beat.value, location)
  {
    if ops == [] then None
    else
      var op := ops[|ops| - 1];
      if BeatOf(op, location) then Some(op) else LatestBeat(ops[..|ops| - 1], location)
  }

  /** `e` is `d` with another count of tasks. */
  predicate SameLease(d: Servant, e: Servant)
  {
    e.id == d.id && e.personality == d.personality && e.expiresAt == d.expiresAt && e.discoveredAt == d.discoveredAt
  }

  ghost predicate Held(servants: seq<Servant>, e: Servant)
  {
    exists j :: 0 <= j < |servants| && SameLease(servants[j], e)
  }

  /** Only a heartbeat from its own location changes what is known of a servant, or makes one known. */
  lemma OnlyBeatsSetLeases(s: State, op: Op, i: nat)
    requires Inv(s) && i < |Step(s, op).servants|
    ensures var e := Step(s, op).servants[i];
      if BeatOf(op, e.personality.location) then
        e.personality == op.personality && e.expiresAt == op.now + op.expiresIn
      else Held(s.servants, e)
  {
    hide Pick, Candidates, EligibleOf, CountersExact, Registered, KnownLocation;
    var e := Step(s, op).servants[i];
    match op
    case TimerOp(now) =>
      TimerLease(s, now, i);
    case HeartbeatOp(now, p, expiresIn) =>
      BeatLease(s, now, p, expiresIn, i);
    case _ =>
      assert SameLease(s.servants[i], e);
  }

  lemma TimerLease(s: State, now: int, i: nat)
    requires Inv(s) && i < |Timer(s, now).servants|
    ensures Held(s.servants, Timer(s, now).servants[i])
  {
    var alive := Alive(s.servants, now);
    assert SameLease(alive[i], Timer(s, now).servants[i]);
    hide Timer, Inv;
    assert alive[i] in alive;
    var j :| 0 <= j < |s.servants| && s.servants[j] == alive[i];
  }

  lemma BeatLease(s: State, now: int, p: Personality, expiresIn: int, i: nat)
    requires Inv(s) && i < |Heartbeat(s, now, p, expiresIn).servants|
    ensures var e := Heartbeat(s, now, p, expiresIn).servants[i];
      if e.personality.location == p.location then e.personality == p && e.expiresAt == now + expiresIn
      else Held(s.servants, e)
  {
    hide CountersExact, Registered, KnownLocation;
    var e := Heartbeat(s, now, p, expiresIn).servants[i];
    if i < |s.servants| && i != IndexOf(s.servants, p.location) {
      assert SameLease(s.servants[i], e);
    }
  }

  /**
   A heartbeat from a known location replaces what was reported and prolongs the lease, and leaves the
   servant's identity and counters; one from elsewhere adds a servant without tasks behind the others.
   */
  lemma BeatRegisters(s: State, now: int, p: Personality, expiresIn: int)
    requires Inv(s)
    ensures var r, known := Heartbeat(s, now, p, expiresIn), KnownLocation(s.servants, p.location);
      && |r.servants| == (if known then |s.servants| else |s.servants| + 1)
      && (forall i :: 0 <= i < |s.servants| ==>
            var d, e := s.servants[i], r.servants[i];
            if d.personality.location == p.location
            then SameCounters(d, e) && e.personality == p && e.expiresAt == now + expiresIn
            else e == d)
      && (!known ==> r.servants[|s.servants|] == Servant(s.nextServant, p, now, now + expiresIn, 0, 0))
      && r == s.(servants := r.servants, nextServant := if known then s.nextServant else s.nextServant + 1)
  {
    hide CountersExact, Registered;
    var i := IndexOf(s.servants, p.location);
    if i < |s.servants| {
      assert KnownLocation(s.servants, p.location);
    }
  }

  predicate SameCounters(d: Servant, e: Servant)
  {
    e.id == d.id && e.discoveredAt == d.discoveredAt && e.running == d.running && e.everAssigned == d.everAssigned
  }

  /**
   After every run a registered servant is what its location's latest heartbeat reported, and its lease
   ends when that heartbeat said.
   */
  lemma {:induction false} RegisteredAsReported(minMemory: nat, ops: seq<Op>, i: nat)
    requires i < |Run(Init(minMemory), ops).servants|
    ensures var e := Run(Init(minMemory), ops).servants[i]; var beat := LatestBeat(ops, e.personality.location);
      && beat.Some? && e.personality == beat.value.personality
      && e.expiresAt == beat.value.now + beat.value.expiresIn
  {
    hide Step, Inv;
    if ops != [] {
      var front, op := ops[..|ops| - 1], ops[|ops| - 1];
      var s := Run(Init(minMemory), front);
      assert Inv(Init(minMemory)) by { InitKeeps(minMemory); }
      RunKeeps(Init(minMemory), front);
      OnlyBeatsSetLeases(s, op, i);
      var e := Step(s, op).servants[i];
      if !BeatOf(op, e.personality.location) {
        var j :| 0 <= j < |s.servants| && SameLease(s.servants[j], e);
        RegisteredAsReported(minMemory, front, j);
      }
    }
  }

  lemma InitKeeps(minMemory: nat)
    ensures Inv(Init(minMemory))
  {
  }

  lemma TimerKeepsAlive(s: State, now: int)
    ensures var r, alive := Timer(s, now), Alive(s.servants, now);
      |r.servants| == |alive| && forall j :: 0 <= j < |alive| ==> SameLease(alive[j], r.servants[j])
  {
  }

  lemma AliveIff(servants: seq<Servant>, now: int, i: nat)
    requires DistinctServants(servants) && i < |servants|
    ensures Registered(Alive(servants, now), servants[i].id) <==> now <= servants[i].expiresAt
    ensures now <= servants[i].expiresAt ==>
      exists j :: 0 <= j < |Alive(servants, now)| && Alive(servants, now)[j] == servants[i]
  {
    hide Alive;
    var alive := Alive(servants, now);
    if now <= servants[i].expiresAt {
      assert servants[i] in alive;
      var j :| 0 <= j < |alive| && alive[j] == servants[i];
    }
    if Registered(alive, servants[i].id) {
      var j :| 0 <= j < |alive| && alive[j].id == servants[i].id;
      assert alive[j] in servants;
    }
  }

  /** The timer removes exactly the servants whose lease has ended, and leaves the others as they are. */
  lemma TimerRemovesIff(s: State, now: int, i: nat)
    requires Inv(s) && i < |s.servants|
    ensures Registered(Timer(s, now).servants, s.servants[i].id) <==> now <= s.servants[i].expiresAt
    ensures now <= s.servants[i].expiresAt ==>
      exists j :: 0 <= j < |Timer(s, now).servants| && SameLease(s.servants[i], Timer(s, now).servants[j])
  {
    hide Timer, CountersExact, KnownLocation, DistinctServants, Alive;
    var r, alive := Timer(s, now), Alive(s.servants, now);
    TimerKeepsAlive(s, now);
    AliveIff(s.servants, now, i);
    if now <= s.servants[i].expiresAt {
      var j :| 0 <= j < |alive| && alive[j] == s.servants[i];
      assert SameLease(s.servants[i], r.servants[j]);
    }
  }

  /** When the lease of a servant ends, having ended at `lease` before the run. */
  function LeaseEnd(lease: int, ops: seq<Op>, location: string): int
  {
    var beat := LatestBeat(ops, location);
    if beat.Some? then beat.value.now + beat.value.expiresIn else lease
  }

  /** No timer of the run finds the lease ended: each heartbeat is in before that. */
  ghost predicate InTime(lease: int, ops: seq<Op>, location: string)
  {
    forall k :: 0 <= k < |ops| && ops[k].TimerOp? ==> ops[k].now <= LeaseEnd(lease, ops[..k], location)
  }

  ghost predicate Leased(s: State, id: nat, location: string, until: int)
  {
    exists j :: 0 <= j < |s.servants| && s.servants[j].id == id &&
                s.servants[j].personality.location == location && s.servants[j].expiresAt == until
  }

  lemma StepLeases(s: State, op: Op, id: nat, location: string, until: int)
    requires Inv(s) && Leased(s, id, location, until) && (op.TimerOp? ==> op.now <= until)
    ensures Leased(Step(s, op), id, location, if BeatOf(op, location) then op.now + op.expiresIn else until)
  {
    hide Inv, Step, Timer;
    var j :| 0 <= j < |s.servants| && s.servants[j].id == id &&
             s.servants[j].personality.location == location && s.servants[j].expiresAt == until;
    if op.TimerOp? {
      TimerRemovesIff(s, op.now, j);
      var k :| 0 <= k < |Timer(s, op.now).servants| && SameLease(s.servants[j], Timer(s, op.now).servants[k]);
      assert Step(s, op) == Timer(s, op.now) by { TimerIs(s, op); }
      assert Step(s, op).servants[k].id == id;
    } else {
      StepLease(s, op, j);
    }
  }

  lemma TimerIs(s: State, op: Op)
    requires op.TimerOp?
    ensures Step(s, op) == Timer(s, op.now)
  {
  }

  lemma StepLease(s: State, op: Op, j: nat)
    requires Inv(s) && j < |s.servants| && !op.TimerOp?
    ensures var r, e := Step(s, op), s.servants[j];
      && j < |r.servants| && r.servants[j].id == e.id
      && r.servants[j].personality.location == e.personality.location
      && r.servants[j].expiresAt == if BeatOf(op, e.personality.location) then op.now + op.expiresIn else e.expiresAt
  {
    hide Pick, Candidates, EligibleOf, CountersExact, Registered, KnownLocation;
  }

  /** A servant whose heartbeats come in time stays registered, as the same descriptor, through every run. */
  lemma {:induction false} PunctualServantStays(s: State, ops: seq<Op>, id: nat, location: string, lease: int)
    requires Inv(s) && Leased(s, id, location, lease) && InTime(lease, ops, location)
    ensures Leased(Run(s, ops), id, location, LeaseEnd(lease, ops, location))
  {
    hide Step, Inv, Leased;
    if ops != [] {
      var front, op := ops[..|ops| - 1], ops[|ops| - 1];
      assert forall k :: 0 <= k < |front| ==> front[k] == ops[k] && front[..k] == ops[..k];
      PunctualServantStays(s, front, id, location, lease);
      RunKeeps(s, front);
      StepLeases(Run(s, front), op, id, location, LeaseEnd(lease, front, location));
    }
  }

  lemma {:induction false} NoBeatNoChange(lease: int, ops: seq<Op>, location: string, k: nat)
    requires k <= |ops| && forall m :: k <= m < |ops| ==> !BeatOf(ops[m], location)
    ensures LeaseEnd(lease, ops, location) == LeaseEnd(lease, ops[..k], location)
    decreases |ops|
  {
    if k < |ops| {
      var front := ops[..|ops| - 1];
      assert front[..k] == ops[..k];
      NoBeatNoChange(lease, front, location, k);
    } else {
      assert ops[..k] == ops;
    }
  }

  /** Timers and the location's heartbeats, whose times are on one clock. */
  predicate Timed(op: Op, location: string) { op.TimerOp? || BeatOf(op, location) }

  /** Each heartbeat comes before the lease ends, and the last one's lease outlasts the timers. */
  ghost predicate Punctual(lease: int, ops: seq<Op>, location: string)
  {
    && (forall j, k :: 0 <= j < k < |ops| && Timed(ops[j], location) && Timed(ops[k], location) ==>
          ops[j].now <= ops[k].now)
    && (forall k :: 0 <= k < |ops| && BeatOf(ops[k], location) ==>
          ops[k].now <= LeaseEnd(lease, ops[..k], location))
    && (forall k :: 0 <= k < |ops| && ops[k].TimerOp? ==>
          ops[k].now <= LeaseEnd(lease, ops, location) || exists m :: k < m < |ops| && BeatOf(ops[m], location))
  }

  /** So a servant that always renews before its lease ends is never found late by a timer. */
  lemma PunctualIsInTime(lease: int, ops: seq<Op>, location: string)
    requires Punctual(lease, ops, location)
    ensures InTime(lease, ops, location)
  {
    hide BeatOf;
    forall k | 0 <= k < |ops| && ops[k].TimerOp? ensures ops[k].now <= LeaseEnd(lease, ops[..k], location) {
      var m := k;
      while m < |ops| && !BeatOf(ops[m], location)
        invariant k <= m <= |ops| && forall n :: k <= n < m ==> !BeatOf(ops[n], location)
      {
        m := m + 1;
      }
      var front := ops[..m];
      assert front[..k] == ops[..k];
      NoBeatNoChange(lease, front, location, k);
      if m == |ops| {
        assert front == ops;
      } else {
        assert m != k by { BeatIsNoTimer(ops[k], location); }
        BeatHasTime(ops[m], location);
        assert Timed(ops[k], location) && Timed(ops[m], location);
      }
    }
  }

  lemma BeatIsNoTimer(op: Op, location: string)
    requires op.TimerOp?
    ensures !BeatOf(op, location)
  {
  }

  lemma BeatHasTime(op: Op, location: string)
    requires BeatOf(op, location)
    ensures op.HeartbeatOp?
  {
  }

  /** Whether a step gives a task up by name: a free of it, or a report of its servant that omits it. */
  predicate GivesUp(op: Op, t: nat, location: string)
  {
    match op
    case FreeOp(task) => task == t
    case NotifyOp(from, report) => from == location && t !in Grants(report)
    case _ => false
  }

  /** And its tasks stay with it, unless they are freed or its own reports omit them. */
  lemma {:induction false} PunctualServantKeepsTasks(s: State, ops: seq<Op>, id: nat, location: string, lease: int, t: nat)
    requires Inv(s) && Leased(s, id, location, lease) && InTime(lease, ops, location)
    requires t in s.tasks && s.tasks[t].servant == id
    requires forall k :: 0 <= k < |ops| ==> !GivesUp(ops[k], t, location)
    ensures t in Run(s, ops).tasks && Run(s, ops).tasks[t].servant == id
  {
    hide Step, Inv, Leased;
    if ops != [] {
      var front, op := ops[..|ops| - 1], ops[|ops| - 1];
      assert forall k :: 0 <= k < |front| ==> front[k] == ops[k] && front[..k] == ops[..k];
      PunctualServantKeepsTasks(s, front, id, location, lease, t);
      PunctualServantStays(s, front, id, location, lease);
      RunKeeps(s, front);
      StepKeepsTask(Run(s, front), op, id, location, LeaseEnd(lease, front, location), t);
    }
  }

  lemma StepKeepsTask(s: State, op: Op, id: nat, location: string, until: int, t: nat)
    requires Inv(s) && Leased(s, id, location, until) && (op.TimerOp? ==> op.now <= until)
    requires t in s.tasks && s.tasks[t].servant == id && !GivesUp(op, t, location)
    ensures t in Step(s, op).tasks && Step(s, op).tasks[t].servant == id
  {
    hide Step, CountersExact, KnownLocation;
    var j :| 0 <= j < |s.servants| && s.servants[j].id == id &&
             s.servants[j].personality.location == location && s.servants[j].expiresAt == until;
    TasksHoldTheirSlots(s, op, t);
    if op.TimerOp? {
      AliveIff(s.servants, op.now, j);
    }
  }

  // ---------------------------------------------------------------- tasks

  /** A task's lease and whether it is a zombie, told from the steps that concern it alone. */
  datatype Story = Story(expiresAt: int, zombie: bool)

  /** Renewals in time move the end of the lease; the first timer that finds it ended makes a zombie, for good. */
  function StoryOf(start: Story, ops: seq<Op>, t: nat): Story
  {
    if ops == [] then start
    else
      var before, op := StoryOf(start, ops[..|ops| - 1], t), ops[|ops| - 1];
      if op.RenewOp? && op.task == t && !before.zombie then Story(op.now + op.expiresIn, false)
      else if op.TimerOp? && before.expiresAt < op.now then Story(before.expiresAt, true)
      else before
  }

  /** Through every run a task is what its own story says, and stays with its servant, as long as it is on the books. */
  lemma {:induction false} TaskTellsItsStory(s: State, ops: seq<Op>, t: nat)
    requires t in s.tasks && t < s.nextTask && t in Run(s, ops).tasks
    ensures var story := StoryOf(Story(s.tasks[t].expiresAt, s.tasks[t].zombie), ops, t);
      Run(s, ops).tasks[t] == s.tasks[t].(expiresAt := story.expiresAt, zombie := story.zombie)
  {
    if ops != [] {
      hide Step;
      var front, op := ops[..|ops| - 1], ops[|ops| - 1];
      GrantIdsIncrease(s, front);
      StepAges(Run(s, front), op);
      TaskTellsItsStory(s, front, t);
      StepTellsStory(Run(s, front), op, t);
    }
  }

  lemma StepTellsStory(s: State, op: Op, t: nat)
    requires t in s.tasks && t < s.nextTask && t in Step(s, op).tasks
    ensures Step(s, op).tasks[t] ==
      if op.RenewOp? && op.task == t && !s.tasks[t].zombie then s.tasks[t].(expiresAt := op.now + op.expiresIn)
      else if op.TimerOp? && s.tasks[t].expiresAt < op.now then s.tasks[t].(zombie := true)
      else s.tasks[t]
  {
    hide Pick, Candidates, EligibleOf;
  }

  // ---------------------------------------------------------------- the bookkeeper

  /** `location`'s entries are those of the report whose grants are live there, each as often as reported. */
  ghost predicate HoldsLive(r: State, location: string, report: seq<Running>)
  {
    && location in r.book
    && forall e: Running :: multiset(r.book[location])[e] ==
         if LiveAt(r, e.grant, location) then multiset(report)[e] else 0
  }

  lemma {:induction false} KnownCounts(report: seq<Running>, permitted: set<nat>, e: Running)
    ensures multiset(Known(report, permitted))[e] == if e.grant in permitted then multiset(report)[e] else 0
  {
    if report != [] {
      var rest := Known(report[1..], permitted);
      KnownCounts(report[1..], permitted, e);
      assert report == [report[0]] + report[1..];
      assert multiset([report[0]] + rest) == multiset([report[0]]) + multiset(rest);
    }
  }

  lemma NotifyBooks(s: State, location: string, report: seq<Running>)
    ensures var r, i := Notify(s, location, report).0, IndexOf(s.servants, location);
      if i < |s.servants| then
        && |r.servants| == |s.servants| && r.servants[i].personality == s.servants[i].personality
        && r.book == s.book[location := Known(report, Permitted(r, r.servants[i].id))]
      else r == s
  {
  }

  lemma BookedIsLive(r: State, i: nat, report: seq<Running>)
    requires DistinctServants(r.servants) && i < |r.servants|
    requires var location := r.servants[i].personality.location;
      location in r.book && r.book[location] == Known(report, Permitted(r, r.servants[i].id))
    ensures HoldsLive(r, r.servants[i].personality.location, report)
  {
    hide Permitted, Known, LiveAt, DistinctServants;
    var location := r.servants[i].personality.location;
    forall e: Running ensures multiset(r.book[location])[e] ==
        if LiveAt(r, e.grant, location) then multiset(report)[e] else 0 {
      KnownCounts(report, Permitted(r, r.servants[i].id), e);
      PermittedIsLive(r, i, e.grant);
    }
  }

  /** A report of a registered servant puts its live part on the books; of an unknown one, nothing. */
  lemma ReportIsBooked(s: State, location: string, report: seq<Running>)
    requires Inv(s)
    ensures var r := Notify(s, location, report).0;
      && (forall l :: l != location ==> (l in r.book <==> l in s.book) && (l in r.book ==> r.book[l] == s.book[l]))
      && (if KnownLocation(s.servants, location) then HoldsLive(r, location, report) else r == s)
  {
    hide Known, Notify, HoldsLive, CountersExact, DistinctServants;
    var i := IndexOf(s.servants, location);
    NotifyKeeps(s, location, report);
    NotifyBooks(s, location, report);
    if i < |s.servants| {
      assert KnownLocation(s.servants, location);
      BookedIsLive(Notify(s, location, report).0, i, report);
    }
  }

  ghost predicate LeaseEndedAt(s: State, location: string, now: int)
  {
    exists e <- s.servants :: e.personality.location == location && e.expiresAt < now
  }

  /** Nothing else touches the books, but for the timer, which strikes exactly the locations it removes a servant from. */
  lemma BooksStand(s: State, op: Op, l: string)
    requires Inv(s) && (op.NotifyOp? ==> op.location != l)
    ensures var r := Step(s, op);
      && (l in r.book <==> (l in s.book && !(op.TimerOp? && LeaseEndedAt(s, l, op.now))))
      && (l in r.book ==> r.book[l] == s.book[l])
  {
    hide Pick, Candidates, EligibleOf, Inv;
    if op.NotifyOp? {
      ReportIsBooked(s, op.location, op.report);
    }
  }
}
