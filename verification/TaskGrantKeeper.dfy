/**
 The daemon's per-environment grant queue. A fetcher asks the scheduler for grants and queues them with
 a conservative expiry; Get takes the front of the queue at once or waits for it. Each locked section is
 one action of a state machine over which the lease-timing guarantee is proved; the class below is the
 object itself, proved against the same steps. Times are nanoseconds.
 */
module TaskGrantKeepers {
  import opened Basics
  import DispatcherModel

  const EXPIRES_IN: int := 15 * SECOND
  const TOLERANCE: int := 5 * SECOND
  const RPC_TIMEOUT: int := 10 * SECOND
  const GET_TIMEOUT: int := 1 * SECOND

  datatype Grant = Grant(expiresAt: int, id: nat, location: string)

  /** A grant as pushed, with what only the scheduler and the clock know. */
  datatype Pushed = Pushed(grant: Grant, lease: int, at: int)

  datatype Fate = HandedOut(at: int, waited: bool) | Dropped(at: int)

  datatype Fetch = NoFetch | Calling(since: int)

  /** `log` is every grant ever queued; the first |fates| of them have left the queue again. */
  datatype Keeper = Keeper(clock: int, log: seq<Pushed>, fates: seq<Fate>, waiters: map<nat, int>, fetch: Fetch)

  /** A grant in the scheduler's answer: allocated at `at`, within the call. */
  datatype Allocated = Allocated(id: nat, location: string, at: int)

  datatype Action =
    | Get(waiter: nat)                    // the locked section up to the wait; `waiter` names the caller if it waits
    | WakeUp(waiter: nat)                 // the wait ends with a grant in the queue
    | GiveUp(waiter: nat)                 // the wait ends without
    | BeginFetch
    | Answer(grants: seq<Allocated>)
    | FailFetch

  function Remaining(k: Keeper): seq<Pushed>
    requires |k.fates| <= |k.log|
  {
    k.log[|k.fates|..]
  }

  /** How many grants at the front have expired. */
  function ExpiredFront(queue: seq<Pushed>, now: int): (n: nat)
    ensures n <= |queue|
    ensures forall i :: 0 <= i < n ==> queue[i].grant.expiresAt < now
    ensures n < |queue| ==> queue[n].grant.expiresAt >= now
  {
    if queue == [] || queue[0].grant.expiresAt >= now then 0 else 1 + ExpiredFront(queue[1..], now)
  }

  function Repeat(n: nat, fate: Fate): seq<Fate> { seq(n, i => fate) }

  function Queued(grants: seq<Allocated>, since: int, now: int): seq<Pushed>
  {
    seq(|grants|, i requires 0 <= i < |grants| =>
      Pushed(Grant(since + EXPIRES_IN - TOLERANCE, grants[i].id, grants[i].location), grants[i].at + EXPIRES_IN, now))
  }

  /** Every grant of the answer was allocated during the call and is new. */
  predicate Genuine(log: seq<Pushed>, grants: seq<Allocated>, since: int, now: int)
  {
    && (forall g <- grants :: since <= g.at <= now && forall p <- log :: p.grant.id != g.id)
    && (forall i, j :: 0 <= i < j < |grants| ==> grants[i].id != grants[j].id)
  }

  predicate Enabled(k: Keeper, a: Action, now: int)
  {
    && k.clock <= now && |k.fates| <= |k.log|
    && match a
       case Get(w) => w !in k.waiters
       case WakeUp(w) => w in k.waiters && Remaining(k) != [] && now <= k.waiters[w] + GET_TIMEOUT
       case GiveUp(w) => w in k.waiters && Remaining(k) == []
       case BeginFetch => k.fetch.NoFetch? && Remaining(k) == []
       case Answer(grants) => k.fetch.Calling? && now <= k.fetch.since + RPC_TIMEOUT && Genuine(k.log, grants, k.fetch.since, now)
       case FailFetch => k.fetch.Calling?
  }

  function Step(k: Keeper, a: Action, now: int): Keeper
    requires Enabled(k, a, now)
  {
    var t := k.(clock := now);
    match a
    case Get(w) =>
      var gone := ExpiredFront(Remaining(k), now);
      var fates := k.fates + Repeat(gone, Dropped(now));
      if gone < |Remaining(k)| then t.(fates := fates + [HandedOut(now, false)])
      else t.(fates := fates, waiters := k.waiters[w := now])
    case WakeUp(w) => t.(fates := k.fates + [HandedOut(now, true)], waiters := k.waiters - {w})
    case GiveUp(w) => t.(waiters := k.waiters - {w})
    case BeginFetch => t.(fetch := Calling(now))
    case Answer(grants) => t.(log := k.log + Queued(grants, k.fetch.since, now), fetch := NoFetch)
    case FailFetch => t.(fetch := NoFetch)
  }

  // ---------------------------------------------------------------- invariant

  /** A queued grant outlives its local expiry by the tolerance, and was not expired when it was queued. */
  predicate Conservative(p: Pushed, clock: int)
  {
    p.lease >= p.grant.expiresAt + TOLERANCE && p.at <= p.grant.expiresAt && p.at <= clock
  }

  /** How a grant that has left the queue may have left it. */
  predicate Proper(p: Pushed, fate: Fate)
  {
    match fate
    case HandedOut(at, waited) => p.lease - at >= (if waited then 4 else 5) * SECOND
    case Dropped(at) => p.grant.expiresAt < at
  }

  ghost predicate QueueSane(k: Keeper)
  {
    && |k.fates| <= |k.log|
    && (forall p <- k.log :: Conservative(p, k.clock))
    && (forall i, j :: 0 <= i < j < |k.log| ==> k.log[i].grant.id != k.log[j].grant.id)
    && (forall i, j :: |k.fates| <= i < j < |k.log| ==> k.log[i].grant.expiresAt <= k.log[j].grant.expiresAt)
    && (k.fetch.Calling? ==> Remaining(k) == [] && k.fetch.since <= k.clock)
  }

  ghost predicate FatesProper(k: Keeper)
  {
    |k.fates| <= |k.log| && forall i :: 0 <= i < |k.fates| ==> Proper(k.log[i], k.fates[i])
  }

  /** Whatever is queued was queued after every present waiter began to wait. */
  ghost predicate WaitersFirst(k: Keeper)
  {
    && (forall w <- k.waiters :: k.waiters[w] <= k.clock)
    && forall w, i :: w in k.waiters && |k.fates| <= i < |k.log| ==> k.log[i].at >= k.waiters[w]
  }

  ghost predicate Inv(k: Keeper)
  {
    QueueSane(k) && FatesProper(k) && WaitersFirst(k)
  }

  lemma GetKeeps(k: Keeper, w: nat, now: int)
    requires Inv(k) && Enabled(k, Get(w), now)
    ensures Inv(Step(k, Get(w), now))
  {
    var gone := ExpiredFront(Remaining(k), now);
    var n := |k.fates|;
    var r := Step(k, Get(w), now);
    assert forall i :: 0 <= i < gone ==> Remaining(k)[i] == k.log[n + i];
    assert gone < |Remaining(k)| ==> Remaining(k)[gone] == k.log[n + gone];
    forall i | 0 <= i < |r.fates| ensures Proper(r.log[i], r.fates[i]) {
      if i == n + gone {
        assert k.log[i] in k.log;
      } else if i >= n {
        assert Remaining(k)[i - n] == k.log[i];
      }
    }
  }

  lemma WakeUpKeeps(k: Keeper, w: nat, now: int)
    requires Inv(k) && Enabled(k, WakeUp(w), now)
    ensures Inv(Step(k, WakeUp(w), now))
  {
    var n := |k.fates|;
    assert k.log[n] in k.log;
  }

  lemma AnswerKeeps(k: Keeper, grants: seq<Allocated>, now: int)
    requires Inv(k) && Enabled(k, Answer(grants), now)
    ensures Inv(Step(k, Answer(grants), now))
  {
    var r := Step(k, Answer(grants), now);
    var more := Queued(grants, k.fetch.since, now);
    forall p | p in r.log ensures Conservative(p, r.clock) {
      if p in more {
        var i :| 0 <= i < |more| && more[i] == p;
        assert grants[i] in grants;
      }
    }
    forall i, j | 0 <= i < j < |r.log| ensures r.log[i].grant.id != r.log[j].grant.id {
      if j >= |k.log| {
        assert grants[j - |k.log|] in grants;
        if i < |k.log| {
          assert k.log[i] in k.log;
        }
      }
    }
  }

  lemma StepKeeps(k: Keeper, a: Action, now: int)
    requires Inv(k) && Enabled(k, a, now)
    ensures Inv(Step(k, a, now))
  {
    match a
    case Get(w) => GetKeeps(k, w, now);
    case WakeUp(w) => WakeUpKeeps(k, w, now);
    case Answer(grants) => AnswerKeeps(k, grants, now);
    case _ =>
  }

  // ---------------------------------------------------------------- whole runs

  datatype Timed = Timed(action: Action, now: int)

  predicate Runnable(k: Keeper, run: seq<Timed>)
    decreases |run|
  {
    run == [] || (Enabled(k, run[0].action, run[0].now) && Runnable(Step(k, run[0].action, run[0].now), run[1..]))
  }

  function Run(k: Keeper, run: seq<Timed>): Keeper
    requires Runnable(k, run)
    decreases |run|
  {
    if run == [] then k else Run(Step(k, run[0].action, run[0].now), run[1..])
  }

  function Init(now: int): Keeper { Keeper(now, [], [], map[], NoFetch) }

  lemma {:induction false} RunKeeps(k: Keeper, run: seq<Timed>)
    requires Inv(k) && Runnable(k, run)
    ensures Inv(Run(k, run))
    decreases |run|
  {
    if run != [] {
      StepKeeps(k, run[0].action, run[0].now);
      hide Inv, Step, Enabled;
      RunKeeps(Step(k, run[0].action, run[0].now), run[1..]);
    }
  }

  /**
   Lease timing: in every run in which answers are genuine and come within the call's timeout and waits
   end within theirs, every grant handed out still has five seconds on its lease, or four if the caller
   waited; only grants past their local expiry are dropped; and no id is handed out twice. That answers
   are genuine, and that the lease is the scheduler's own, is proved in GrantLeases.
   */
  lemma LeaseTiming(start: int, run: seq<Timed>)
    requires Runnable(Init(start), run)
    ensures var k := Run(Init(start), run);
      && |k.fates| <= |k.log|
      && (forall i :: 0 <= i < |k.fates| && k.fates[i].HandedOut? ==>
            k.log[i].lease - k.fates[i].at >= (if k.fates[i].waited then 4 else 5) * SECOND)
      && (forall i :: 0 <= i < |k.fates| && k.fates[i].Dropped? ==> k.log[i].grant.expiresAt < k.fates[i].at)
      && (forall i, j :: 0 <= i < j < |k.log| ==> k.log[i].grant.id != k.log[j].grant.id)
  {
    RunKeeps(Init(start), run);
    var k := Run(Init(start), run);
    assert forall i :: 0 <= i < |k.fates| ==> Proper(k.log[i], k.fates[i]);
  }

  /** Get leaves no locally expired grant in the queue: the queue is sorted, so the front tells for all. */
  lemma GetDropsEveryExpired(k: Keeper, w: nat, now: int, i: nat)
    requires Inv(k) && Enabled(k, Get(w), now)
    requires |Step(k, Get(w), now).fates| <= i < |k.log|
    ensures k.log[i].grant.expiresAt >= now
  {
    var gone := ExpiredFront(Remaining(k), now);
    var n := |k.fates|;
    assert Remaining(k)[gone] == k.log[n + gone];
  }

  /** The lease that `Allocated.at` stands for is the one the scheduler registers, under an id not in use. */
  lemma SchedulerLease(s: DispatcherModel.State, now: int, r: DispatcherModel.Request, prefetch: bool)
    requires DispatcherModel.Inv(s) && DispatcherModel.Allocate(s, now, r, EXPIRES_IN, prefetch).1.Granted?
    ensures var (after, granted) := DispatcherModel.Allocate(s, now, r, EXPIRES_IN, prefetch);
      && granted.task !in s.tasks && granted.task in after.tasks
      && after.tasks[granted.task].expiresAt == now + EXPIRES_IN && !after.tasks[granted.task].zombie
  {
  }

  // ---------------------------------------------------------------- the object

  function Grants(queue: seq<Pushed>): seq<Grant>
  {
    seq(|queue|, i requires 0 <= i < |queue| => queue[i].grant)
  }

  /** What Get leaves of the queue. */
  lemma AfterGet(k: Keeper, w: nat, now: int)
    requires Enabled(k, Get(w), now)
    ensures var gone := ExpiredFront(Remaining(k), now);
      var queue := Grants(Remaining(k));
      var r := Step(k, Get(w), now);
      && |queue| == |Remaining(k)| && |r.fates| <= |r.log|
      && Grants(Remaining(r)) == (if gone < |queue| then queue[gone + 1..] else [])
      && (forall i :: 0 <= i < gone ==> queue[i].expiresAt < now)
      && (gone < |queue| ==> queue[gone].expiresAt >= now && r.waiters == k.waiters)
      && (gone == |queue| ==> r.waiters == k.waiters[w := now] && |r.waiters| == |k.waiters| + 1)
  {
    var gone := ExpiredFront(Remaining(k), now);
    var r := Step(k, Get(w), now);
    if gone < |Remaining(k)| {
      assert Remaining(r) == Remaining(k)[gone + 1..];
    } else {
      assert k.waiters[w := now].Keys == k.waiters.Keys + {w};
    }
  }

  /** `g` is the first grant of the queue not expired at `now`, and `rest` what was behind it. */
  ghost predicate FirstUnexpired(queue: seq<Grant>, now: int, g: Grant, rest: seq<Grant>)
  {
    exists n ::
      && 0 <= n < |queue| && (forall i :: 0 <= i < n ==> queue[i].expiresAt < now)
      && queue[n].expiresAt >= now && g == queue[n] && rest == queue[n + 1..]
  }

  /** The grant that left the queue last. */
  ghost function LastOut(k: Keeper): Grant
    requires 0 < |k.fates| <= |k.log|
  {
    k.log[|k.fates| - 1].grant
  }

  /** The grant a Get takes is the one that the model counts as handed out. */
  lemma TakenIsLastOut(k: Keeper, a: Action, now: int, n: nat)
    requires Enabled(k, a, now) && n < |Remaining(k)| && (a.Get? || a.WakeUp?)
    requires n == if a.Get? then ExpiredFront(Remaining(k), now) else 0
    ensures var r := Step(k, a, now); 0 < |r.fates| <= |r.log| && LastOut(r) == Grants(Remaining(k))[n]
    ensures Step(k, a, now).fates[|Step(k, a, now).fates| - 1].HandedOut?
  {
  }

  class PerEnvGrantKeeper {
    var remaining: seq<Grant>
    var waiters: int
    ghost var model: Keeper

    ghost predicate Valid()
      reads this
    {
      Inv(model) && remaining == Grants(Remaining(model)) && waiters == |model.waiters|
    }

    constructor (now: int)
      ensures Valid() && model == Init(now)
    {
      remaining := [];
      waiters := 0;
      model := Init(now);
    }

    /** Get up to the point where it would wait. */
    method TakeFront(now: int, ghost waiter: nat) returns (result: Option<Grant>)
      requires Valid() && Enabled(model, Get(waiter), now)
      modifies this
      ensures Valid() && model == Step(old(model), Get(waiter), now)
      ensures result.Some? ==> FirstUnexpired(old(remaining), now, result.value, remaining)
      ensures result.Some? ==> model.fates != [] && result.value == LastOut(model) && model.waiters == old(model).waiters
      ensures result.None? <==> waiter in model.waiters
      ensures result.None? ==> remaining == [] && forall g <- old(remaining) :: g.expiresAt < now
    {
      StepKeeps(model, Get(waiter), now);
      ghost var k := model;
      AfterGet(k, waiter, now);
      ghost var gone := DropExpired(now);
      assert gone == ExpiredFront(Remaining(k), now);
      hide Inv, Step, ExpiredFront;
      model := Step(k, Get(waiter), now);
      if remaining != [] {
        TakenIsLastOut(k, Get(waiter), now, gone);
        result := Some(remaining[0]);
        remaining := remaining[1..];
        return;
      }
      waiters := waiters + 1;
      return None;
    }

    method DropExpired(now: int) returns (ghost n: nat)
      modifies this`remaining
      ensures n <= |old(remaining)| && remaining == old(remaining)[n..]
      ensures forall i :: 0 <= i < n ==> old(remaining)[i].expiresAt < now
      ensures remaining != [] ==> remaining[0].expiresAt >= now
    {
      n := 0;
      while remaining != [] && remaining[0].expiresAt < now
        invariant n <= |old(remaining)| && remaining == old(remaining)[n..]
        invariant forall i :: 0 <= i < n ==> old(remaining)[i].expiresAt < now
        decreases |remaining|
      {
        remaining := remaining[1..];
        n := n + 1;
      }
    }

    /** Get after its wait: `waiters` is put back on every path. */
    method FinishWait(now: int, ghost waiter: nat) returns (result: Option<Grant>)
      requires Valid() && waiter in model.waiters
      requires Enabled(model, if remaining == [] then GiveUp(waiter) else WakeUp(waiter), now)
      modifies this
      ensures Valid() && waiters == old(waiters) - 1 >= 0
      ensures model == Step(old(model), if old(remaining) == [] then GiveUp(waiter) else WakeUp(waiter), now)
      ensures old(remaining) == [] ==> result == None && remaining == []
      ensures old(remaining) != [] ==> result == Some(old(remaining)[0]) && remaining == old(remaining)[1..]
      ensures result.Some? ==> 0 < |model.fates| <= |model.log| && result.value == LastOut(model)
    {
      if remaining != [] { TakenIsLastOut(model, WakeUp(waiter), now, 0); }
      StepKeeps(model, if remaining == [] then GiveUp(waiter) else WakeUp(waiter), now);
      hide Inv;
      assert |model.waiters - {waiter}| == |model.waiters| - 1 by {
        assert (model.waiters - {waiter}).Keys == model.waiters.Keys - {waiter};
      }
      waiters := waiters - 1;
      if remaining == [] {
        model := Step(model, GiveUp(waiter), now);
        return None;
      }
      ghost var queue := Remaining(model);
      result := Some(remaining[0]);
      remaining := remaining[1..];
      model := Step(model, WakeUp(waiter), now);
      assert Remaining(model) == queue[1..];
    }

    /** The fetcher's last locked section, after a call begun at `beforeRpc` was answered. */
    method PushGrants(grants: seq<Allocated>, beforeRpc: int, now: int)
      requires Valid() && Enabled(model, Answer(grants), now) && model.fetch.since == beforeRpc
      modifies this
      ensures Valid() && model == Step(old(model), Answer(grants), now)
      ensures |remaining| == |grants|
      ensures forall i :: 0 <= i < |grants| ==>
        remaining[i] == Grant(beforeRpc + 10 * SECOND, grants[i].id, grants[i].location)
    {
      StepKeeps(model, Answer(grants), now);
      assert remaining == [];
      hide Inv;
      ghost var queue := Queued(grants, beforeRpc, now);
      for i := 0 to |grants|
        invariant remaining == Grants(queue[..i]) && waiters == |model.waiters| && model == old(model)
      {
        remaining := remaining + [Grant(beforeRpc + EXPIRES_IN - TOLERANCE, grants[i].id, grants[i].location)];
        assert queue[..i + 1] == queue[..i] + [queue[i]];
      }
      model := Step(model, Answer(grants), now);
      assert Remaining(model) == queue == queue[..|grants|];
    }
  }
}
