/**
 The cache server as far as its Bloom filter is concerned: a timed state machine in which PutEntry
 runs in three separate steps (second layer, first layer, generator), the rebuild timer in several
 (start, snapshot of the first layer, of each directory of the second, rebuild), and evictions,
 promotions and other requests fall anywhere in between. Each layer records when the present residence of a key began.
 */
module CacheServerModel {
  import opened Basics
  import opened BloomGeneration

  const COMPENSATION: int := 10 * SECOND

  /** How far a PutEntry has come; `p2` and `p1` number the steps that stored into each layer. */
  datatype Put =
    | Received(key: string)
    | StoredL2(key: string, p2: nat)
    | StoredL1(key: string, p2: nat, p1: nat)

  /** A completed PutEntry. */
  datatype Done = Done(entry: Entry, p2: nat, p1: nat)

  /** A snapshot of the first layer, and the step at which it was taken. */
  datatype Snapshot = Snapshot(step: nat, keys: set<string>)

  /**
   A snapshot of the second layer, read directory by directory: `read` says when the directory of a key
   was read, `rest` when the last one was, to which all other keys belong.
   */
  datatype Gathered = Gathered(read: map<string, nat>, rest: nat, keys: set<string>)

  datatype Rebuild =
    | Idle
    | Begun(start: int)
    | HaveL1(start: int, one: Snapshot, read: map<string, nat>, keys: set<string>)  // and some of the second
    | HaveBoth(start: int, one: Snapshot, two: Gathered)

  datatype Server = Server(
    clock: int, steps: nat,
    l1: map<string, nat>, l2: map<string, nat>,
    filter: set<string>, history: seq<Entry>,
    puts: map<nat, Put>, done: seq<Done>,
    rebuild: Rebuild,
    one: Snapshot, two: Gathered)  // what the last completed rebuild was made from

  datatype Action =
    | Receive(id: nat, key: string)
    | StoreL2(id: nat, evicted: set<string>)
    | StoreL1(id: nat, evicted: set<string>)
    | Announce(id: nat)                          // bf_gen_.Add
    | EvictL1(evicted: set<string>)
    | EvictL2(evicted: set<string>)
    | Promote(key: string, evicted: set<string>) // TryGetEntry puts what it found into the first layer
    | BeginRebuild
    | SnapL1
    | SnapDir(keys: set<string>)                 // one directory of the second layer: the keys that belong there
    | SnapL2                                     // the last directory
    | FinishRebuild
    | Query(recent: int)                         // an incremental fetch

  /** Start() builds the first filter from what the second layer already holds. */
  ghost function Init(stored: set<string>, now: int): Server
  {
    Server(now, 1, map[], map k | k in stored :: 0, stored, [], map[], [], Idle, Snapshot(1, {}), Gathered(map[], 1, stored))
  }

  predicate Enabled(s: Server, a: Action, now: int)
  {
    && s.clock <= now
    && match a
       case Receive(id, _) => id !in s.puts
       case StoreL2(id, _) => id in s.puts && s.puts[id].Received?
       case StoreL1(id, _) => id in s.puts && s.puts[id].StoredL2?
       case Announce(id) => id in s.puts && s.puts[id].StoredL1?
       case BeginRebuild => s.rebuild.Idle?
       case SnapL1 => s.rebuild.Begun?
       case SnapDir(keys) => s.rebuild.HaveL1? && keys !! s.rebuild.read.Keys
       case SnapL2 => s.rebuild.HaveL1?
       case FinishRebuild => s.rebuild.HaveBoth?
       case _ => true
  }

  /** A key is written into a layer: an unbroken residence goes on, and anything may be evicted. */
  function Written(layer: map<string, nat>, key: string, step: nat, evicted: set<string>): map<string, nat>
  {
    (if key in layer then layer else layer[key := step]) - evicted
  }

  ghost function Act(s: Server, a: Action, now: int): Server
    requires Enabled(s, a, now)
  {
    match a
    case Receive(id, key) => s.(puts := s.puts[id := Received(key)])
    case StoreL2(id, evicted) =>
      s.(puts := s.puts[id := StoredL2(s.puts[id].key, s.steps)], l2 := Written(s.l2, s.puts[id].key, s.steps, evicted))
    case StoreL1(id, evicted) =>
      s.(puts := s.puts[id := StoredL1(s.puts[id].key, s.puts[id].p2, s.steps)],
         l1 := Written(s.l1, s.puts[id].key, s.steps, evicted))
    case Announce(id) =>
      var e := Entry(s.puts[id].key, now);
      s.(puts := s.puts - {id}, filter := s.filter + {e.key}, history := s.history + [e],
         done := s.done + [Done(e, s.puts[id].p2, s.puts[id].p1)])
    case EvictL1(evicted) => s.(l1 := s.l1 - evicted)
    case EvictL2(evicted) => s.(l2 := s.l2 - evicted)
    case Promote(key, evicted) => s.(l1 := Written(s.l1, key, s.steps, evicted))
    case BeginRebuild => s.(rebuild := Begun(now))
    case SnapL1 => s.(rebuild := HaveL1(s.rebuild.start, Snapshot(s.steps, s.l1.Keys), map[], {}))
    case SnapDir(keys) =>
      s.(rebuild := HaveL1(s.rebuild.start, s.rebuild.one,
           s.rebuild.read + map k | k in keys :: s.steps, s.rebuild.keys + keys * s.l2.Keys))
    case SnapL2 =>
      s.(rebuild := HaveBoth(s.rebuild.start, s.rebuild.one,
           Gathered(s.rebuild.read, s.steps, s.rebuild.keys + (s.l2.Keys - s.rebuild.read.Keys))))
    case FinishRebuild =>
      s.(rebuild := Idle, one := s.rebuild.one, two := s.rebuild.two,
         filter := s.rebuild.one.keys + s.rebuild.two.keys + NewSince(s.history, now - COMPENSATION, now - HISTORY),
         history := DropOld(s.history, now - HISTORY))
    case Query(_) => s.(history := DropOld(s.history, now - HISTORY))
  }

  ghost function Step(s: Server, a: Action, now: int): Server
    requires Enabled(s, a, now)
  {
    Act(s, a, now).(clock := now, steps := s.steps + 1)
  }

  /** The one assumption on speed: from the start of the snapshots to Rebuild takes at most 10 s. */
  predicate Prompt(s: Server, a: Action, now: int)
  {
    a.FinishRebuild? && s.rebuild.HaveBoth? ==> now <= s.rebuild.start + COMPENSATION
  }

  // ---------------------------------------------------------------- invariant

  /** The generator's history is the recent part of the completed puts. */
  ghost predicate RecentPart(done: seq<Done>, history: seq<Entry>, clock: int)
  {
    && |history| <= |done|
    && (forall i :: 0 <= i < |history| ==> history[i] == done[|done| - |history| + i].entry)
    && (forall i :: 0 <= i < |done| - |history| ==> done[i].entry.at < clock - HISTORY)
  }

  ghost predicate HistoryRecent(s: Server)
  {
    RecentPart(s.done, s.history, s.clock)
  }

  ghost predicate Ordered(s: Server)
  {
    && (forall i, j :: 0 <= i < j < |s.done| ==> s.done[i].entry.at <= s.done[j].entry.at)
    && (forall i :: 0 <= i < |s.done| ==> s.done[i].entry.at <= s.clock && s.done[i].p2 < s.steps && s.done[i].p1 < s.steps)
    && (forall id <- s.puts :: (s.puts[id].StoredL2? || s.puts[id].StoredL1? ==> s.puts[id].p2 < s.steps)
                            && (s.puts[id].StoredL1? ==> s.puts[id].p1 < s.steps))
    && (forall k <- s.l1 :: s.l1[k] < s.steps)
    && (forall k <- s.l2 :: s.l2[k] < s.steps)
  }

  /** A layer's snapshot holds every key whose present residence was under way when it was taken. */
  ghost predicate Faithful(layer: map<string, nat>, snap: Snapshot)
  {
    forall k <- layer :: layer[k] < snap.step ==> k in snap.keys
  }

  /** Puts that reached the first layer only after its snapshot were announced after the rebuild began. */
  ghost predicate LateL1(done: seq<Done>, start: int, snap: Snapshot)
  {
    forall d <- done :: d.p1 >= snap.step ==> d.entry.at >= start
  }

  /** When the directory of a key was read. */
  function ReadAt(two: Gathered, k: string): nat
  {
    if k in two.read then two.read[k] else two.rest
  }

  /** The second layer's snapshot holds every key whose present residence was under way when its directory was read. */
  ghost predicate Faithful2(layer: map<string, nat>, two: Gathered)
  {
    forall k <- layer :: layer[k] < ReadAt(two, k) ==> k in two.keys
  }

  ghost predicate LateL2(done: seq<Done>, start: int, two: Gathered)
  {
    forall d <- done :: d.p2 >= ReadAt(two, d.entry.key) ==> d.entry.at >= start
  }

  /** The same of the directories read so far. */
  ghost predicate SoFar(s: Server, start: int, read: map<string, nat>, keys: set<string>)
  {
    && (forall k <- read :: read[k] < s.steps)
    && (forall k <- s.l2 :: k in read && s.l2[k] < read[k] ==> k in keys)
    && (forall d <- s.done :: d.entry.key in read && d.p2 >= read[d.entry.key] ==> d.entry.at >= start)
  }

  ghost predicate ReadBefore(two: Gathered, step: nat)
  {
    two.rest < step && forall k <- two.read :: two.read[k] < step
  }

  ghost predicate RebuildSane(s: Server)
  {
    && s.one.step <= s.steps && ReadBefore(s.two, s.steps + 1)
    && Faithful(s.l1, s.one) && Faithful2(s.l2, s.two)
    && (!s.rebuild.Idle? ==> s.rebuild.start <= s.clock)
    && (s.rebuild.HaveL1? || s.rebuild.HaveBoth? ==> L1Snapped(s, s.rebuild.start, s.rebuild.one))
    && (s.rebuild.HaveL1? ==> SoFar(s, s.rebuild.start, s.rebuild.read, s.rebuild.keys))
    && (s.rebuild.HaveBoth? ==> L2Snapped(s, s.rebuild.start, s.rebuild.two))
  }

  ghost predicate L1Snapped(s: Server, start: int, snap: Snapshot)
  {
    snap.step < s.steps && Faithful(s.l1, snap) && LateL1(s.done, start, snap)
  }

  ghost predicate L2Snapped(s: Server, start: int, two: Gathered)
  {
    ReadBefore(two, s.steps) && Faithful2(s.l2, two) && LateL2(s.done, start, two)
  }

  /** The put missed neither layer's last snapshot, or at least not both: if it came first, it was seen. */
  ghost predicate Survived(s: Server, d: Done)
  {
    || (d.p1 < s.one.step ==> d.entry.key in s.one.keys)
    || (d.p2 < ReadAt(s.two, d.entry.key) ==> d.entry.key in s.two.keys)
  }

  ghost predicate Covered(s: Server)
  {
    forall d <- s.done :: Survived(s, d) ==> d.entry.key in s.filter
  }

  ghost predicate Inv(s: Server)
  {
    HistoryRecent(s) && Ordered(s) && RebuildSane(s) && Covered(s)
  }

  /** The key has been in one layer without a break since this put stored it there. */
  ghost predicate StillCached(s: Server, d: Done)
  {
    || (d.entry.key in s.l1 && s.l1[d.entry.key] <= d.p1)
    || (d.entry.key in s.l2 && s.l2[d.entry.key] <= d.p2)
  }

  // ---------------------------------------------------------------- preservation

  lemma HistorySorted(s: Server)
    requires HistoryRecent(s) && Ordered(s)
    ensures Sorted(s.history) && Until(s.history, s.clock)
  {
  }

  lemma RecentPartCut(done: seq<Done>, history: seq<Entry>, clock: int, now: int, n: nat)
    requires RecentPart(done, history, clock) && clock <= now && n <= |history|
    requires forall i :: 0 <= i < n ==> history[i].at < now - HISTORY
    ensures RecentPart(done, history[n..], now)
  {
    var base := |done| - |history|;
    forall i | 0 <= i < base + n ensures done[i].entry.at < now - HISTORY {
      if i >= base {
        assert history[i - base] == done[i].entry;
      }
    }
  }

  lemma RecentPartGrows(done: seq<Done>, history: seq<Entry>, clock: int, d: Done)
    requires RecentPart(done, history, clock)
    ensures RecentPart(done + [d], history + [d.entry], clock)
  {
  }

  lemma HistoryKept(s: Server, a: Action, now: int)
    requires HistoryRecent(s) && Ordered(s) && Enabled(s, a, now)
    ensures HistoryRecent(Step(s, a, now))
  {
    HistorySorted(s);
    hide RecentPart, Ordered;
    var n := 0;
    if a.FinishRebuild? || a.Query? {
      n := DropOldCuts(s.history, now - HISTORY);
    }
    hide Sorted, DropOld;
    RecentPartCut(s.done, s.history, s.clock, now, n);
    assert n == 0 ==> s.history[n..] == s.history;
    if a.Announce? {
      RecentPartGrows(s.done, s.history, now, Done(Entry(s.puts[a.id].key, now), s.puts[a.id].p2, s.puts[a.id].p1));
    }
  }

  lemma OrderKept(s: Server, a: Action, now: int)
    requires Ordered(s) && Enabled(s, a, now)
    ensures Ordered(Step(s, a, now))
  {
  }

  /** Present residences of a layer only end or begin anew. */
  ghost predicate Residences(before: map<string, nat>, after: map<string, nat>, step: nat)
  {
    forall k <- after :: (k in before && before[k] == after[k]) || after[k] == step
  }

  lemma LayersKept(s: Server, a: Action, now: int)
    requires Enabled(s, a, now)
    ensures Residences(s.l1, Step(s, a, now).l1, s.steps) && Residences(s.l2, Step(s, a, now).l2, s.steps)
  {
  }

  lemma FaithfulKept(before: map<string, nat>, after: map<string, nat>, step: nat, snap: Snapshot)
    requires Residences(before, after, step) && Faithful(before, snap) && snap.step <= step
    ensures Faithful(after, snap)
  {
  }

  /** The only step that completes a put gives it the present time. */
  lemma DoneGrows(s: Server, a: Action, now: int)
    requires Ordered(s) && Enabled(s, a, now)
    ensures var r := Step(s, a, now);
      r.done == s.done || (r.done == s.done + [r.done[|s.done|]] && r.done[|s.done|].entry.at == now
        && r.done[|s.done|].p1 < s.steps && r.done[|s.done|].p2 < s.steps && r.done[|s.done|].entry.key in r.filter)
  {
  }

  lemma Faithful2Kept(before: map<string, nat>, after: map<string, nat>, step: nat, two: Gathered)
    requires Residences(before, after, step) && Faithful2(before, two) && ReadBefore(two, step + 1)
    ensures Faithful2(after, two)
  {
  }

  lemma FrameKept(s: Server, a: Action, now: int)
    requires Enabled(s, a, now)
    ensures Step(s, a, now).steps == s.steps + 1 && Step(s, a, now).clock == now
  {
  }

  lemma L1SnappedKept(s: Server, a: Action, now: int, start: int, snap: Snapshot)
    requires Ordered(s) && Enabled(s, a, now) && start <= s.clock && L1Snapped(s, start, snap)
    ensures L1Snapped(Step(s, a, now), start, snap)
  {
    LayersKept(s, a, now);
    DoneGrows(s, a, now);
    FrameKept(s, a, now);
    hide Step, Ordered, Enabled;
    FaithfulKept(s.l1, Step(s, a, now).l1, s.steps, snap);
  }

  lemma L2SnappedKept(s: Server, a: Action, now: int, start: int, two: Gathered)
    requires Ordered(s) && Enabled(s, a, now) && start <= s.clock && L2Snapped(s, start, two)
    ensures L2Snapped(Step(s, a, now), start, two)
  {
    LayersKept(s, a, now);
    DoneGrows(s, a, now);
    FrameKept(s, a, now);
    hide Step, Ordered, Enabled;
    Faithful2Kept(s.l2, Step(s, a, now).l2, s.steps, two);
  }

  lemma SoFarKept(s: Server, a: Action, now: int, start: int, read: map<string, nat>, keys: set<string>)
    requires Ordered(s) && Enabled(s, a, now) && start <= s.clock && SoFar(s, start, read, keys)
    ensures SoFar(Step(s, a, now), start, read, keys)
  {
    LayersKept(s, a, now);
    DoneGrows(s, a, now);
    FrameKept(s, a, now);
    hide Step, Ordered, Enabled;
  }

  /** Reading one more directory, or the last one. */
  lemma DirectoryRead(s: Server, a: Action, now: int)
    requires Ordered(s) && Enabled(s, a, now) && s.rebuild.HaveL1? && (a.SnapDir? || a.SnapL2?)
    requires SoFar(s, s.rebuild.start, s.rebuild.read, s.rebuild.keys)
    ensures var r := Step(s, a, now);
      && (a.SnapDir? ==> r.rebuild.HaveL1? && SoFar(r, r.rebuild.start, r.rebuild.read, r.rebuild.keys))
      && (a.SnapL2? ==> r.rebuild.HaveBoth? && L2Snapped(r, r.rebuild.start, r.rebuild.two))
  {
  }

  lemma SnapshotsKept(s: Server, a: Action, now: int)
    requires Ordered(s) && RebuildSane(s) && Enabled(s, a, now)
    ensures var r := Step(s, a, now);
      && (r.rebuild.HaveL1? || r.rebuild.HaveBoth? ==> L1Snapped(r, r.rebuild.start, r.rebuild.one))
      && (r.rebuild.HaveL1? ==> SoFar(r, r.rebuild.start, r.rebuild.read, r.rebuild.keys))
      && (r.rebuild.HaveBoth? ==> L2Snapped(r, r.rebuild.start, r.rebuild.two))
  {
    if s.rebuild.HaveL1? {
      L1SnappedKept(s, a, now, s.rebuild.start, s.rebuild.one);
      if a.SnapDir? || a.SnapL2? {
        DirectoryRead(s, a, now);
      } else {
        SoFarKept(s, a, now, s.rebuild.start, s.rebuild.read, s.rebuild.keys);
      }
      hide Ordered, L1Snapped, L2Snapped, SoFar;
    } else if s.rebuild.HaveBoth? {
      L1SnappedKept(s, a, now, s.rebuild.start, s.rebuild.one);
      L2SnappedKept(s, a, now, s.rebuild.start, s.rebuild.two);
      hide Ordered, L1Snapped, L2Snapped;
    }
  }

  lemma RebuildKept(s: Server, a: Action, now: int)
    requires Ordered(s) && RebuildSane(s) && Enabled(s, a, now)
    ensures RebuildSane(Step(s, a, now))
  {
    var r := Step(s, a, now);
    LayersKept(s, a, now);
    FrameKept(s, a, now);
    FaithfulKept(s.l1, r.l1, s.steps, s.one);
    Faithful2Kept(s.l2, r.l2, s.steps, s.two);
    SnapshotsKept(s, a, now);
    hide Faithful, Faithful2, LateL1, LateL2, SoFar, Ordered;
  }

  /** The heart of it: what the snapshots missed was announced recently enough to be compensated. */
  lemma RebuildCovers(s: Server, now: int)
    requires Inv(s) && Enabled(s, FinishRebuild, now) && Prompt(s, FinishRebuild, now)
    ensures Covered(Step(s, FinishRebuild, now))
  {
    var r := Step(s, FinishRebuild, now);
    var recent := NewSince(s.history, now - COMPENSATION, now - HISTORY);
    forall d | d in s.done && Survived(r, d) && d.entry.key !in r.one.keys && d.entry.key !in r.two.keys
      ensures d.entry.key in recent
    {
      assert d.entry.at >= s.rebuild.start;
      RecentIsKnown(s, now, now - COMPENSATION, d);
    }
  }

  lemma RecentIsKnown(s: Server, now: int, since: int, d: Done)
    requires HistoryRecent(s) && s.clock <= now && since >= now - HISTORY
    requires d in s.done && d.entry.at >= since
    ensures d.entry.key in NewSince(s.history, since, now - HISTORY)
  {
    var i :| 0 <= i < |s.done| && s.done[i] == d;
    var base := |s.done| - |s.history|;
    assert i >= base;
    assert s.history[i - base] == d.entry;
  }

  lemma CoveredKept(s: Server, a: Action, now: int)
    requires Inv(s) && Enabled(s, a, now) && Prompt(s, a, now)
    ensures Covered(Step(s, a, now))
  {
    if a.FinishRebuild? {
      RebuildCovers(s, now);
    } else {
      DoneGrows(s, a, now);
    }
  }

  lemma StepKeeps(s: Server, a: Action, now: int)
    requires Inv(s) && Enabled(s, a, now) && Prompt(s, a, now)
    ensures Inv(Step(s, a, now))
  {
    HistoryKept(s, a, now);
    OrderKept(s, a, now);
    RebuildKept(s, a, now);
    CoveredKept(s, a, now);
    hide HistoryRecent, Ordered, RebuildSane, Covered;
  }

  lemma InitHolds(stored: set<string>, now: int)
    ensures Inv(Init(stored, now))
  {
  }

  /** Server coverage: a key that one layer has held since its put is in the filter. */
  lemma CachedIsReported(s: Server, d: Done)
    requires Inv(s) && d in s.done && StillCached(s, d)
    ensures d.entry.key in s.filter
  {
    assert Survived(s, d);
  }

  /** A residence never begins earlier than it did. */
  lemma StillCachedBefore(s: Server, a: Action, now: int, d: Done)
    requires Ordered(s) && Enabled(s, a, now) && d in s.done && StillCached(Step(s, a, now), d)
    ensures StillCached(s, d)
  {
    LayersKept(s, a, now);
  }

  // ---------------------------------------------------------------- whole runs

  datatype Timed = Timed(action: Action, now: int)

  ghost predicate Runnable(s: Server, run: seq<Timed>)
    decreases |run|
  {
    run == [] ||
    (&& Enabled(s, run[0].action, run[0].now) && Prompt(s, run[0].action, run[0].now)
     && Runnable(Step(s, run[0].action, run[0].now), run[1..]))
  }

  ghost function Run(s: Server, run: seq<Timed>): Server
    requires Runnable(s, run)
    decreases |run|
  {
    if run == [] then s else Run(Step(s, run[0].action, run[0].now), run[1..])
  }

  lemma {:induction false} RunKeeps(s: Server, run: seq<Timed>)
    requires Inv(s) && Runnable(s, run)
    ensures Inv(Run(s, run))
    decreases |run|
  {
    if run != [] {
      StepKeeps(s, run[0].action, run[0].now);
      RunKeeps(Step(s, run[0].action, run[0].now), run[1..]);
    }
  }

  /**
   At every moment of every run in which rebuilds take at most 10 s: a key whose PutEntry has
   completed is in the filter if a layer has held it ever since, and more generally if the last
   snapshot of a layer, should it have come after the put reached that layer, saw it.
   */
  lemma ServerCoverage(stored: set<string>, now: int, run: seq<Timed>, d: Done)
    requires Runnable(Init(stored, now), run) && d in Run(Init(stored, now), run).done
    ensures var s := Run(Init(stored, now), run);
      Survived(s, d) || StillCached(s, d) ==> d.entry.key in s.filter
  {
    InitHolds(stored, now);
    RunKeeps(Init(stored, now), run);
    var s := Run(Init(stored, now), run);
    if StillCached(s, d) {
      CachedIsReported(s, d);
    }
  }

  // ---------------------------------------------------------------- the 10 s are needed

  /** A put that runs entirely between the snapshots and a rebuild `delay` after their start. */
  ghost function Overtaken(key: string): Server
  {
    var s0 := Init({}, 0);
    var s1 := Step(s0, BeginRebuild, 0);
    var s2 := Step(s1, SnapL1, 0);
    var s3 := Step(s2, SnapL2, 0);
    var s4 := Step(s3, Receive(0, key), 0);
    var s5 := Step(s4, StoreL2(0, {}), 0);
    var s6 := Step(s5, StoreL1(0, {}), 0);
    Step(s6, Announce(0), 0)
  }

  /** A rebuild that takes longer than the compensation forgets a key that both layers still hold. */
  lemma LateRebuildForgets(key: string, delay: int)
    requires delay > COMPENSATION
    ensures var s := Overtaken(key);
      && Enabled(s, FinishRebuild, delay)
      && |s.done| == 1 && s.done[0].entry == Entry(key, 0)
      && StillCached(Step(s, FinishRebuild, delay), s.done[0])
      && key !in Step(s, FinishRebuild, delay).filter
  {
    var s := Overtaken(key);
    assert s.l1 == map[key := 6] && s.history == [Entry(key, 0)];
  }
}
