/**
 The three programs of the synchronisation in their own form: the service's request handlers around
 the generator, and the daemon's reader. The service carries the server model's state along and each
 statement that the model knows as a step is proved to be that step; the reader is proved to compute the
 protocol's functions. The remote call between the reader's two halves is the protocol's business, and
 the cache layers are reduced to the keys they hold.
 */
module CacheServices {
  import opened Basics
  import opened BloomGeneration
  import opened CacheServerModel
  import opened BloomSync

  /** One undisturbed PutEntry. */
  ghost predicate IsPut(s: Server, r: Server, id: nat, key: string, evicted2: set<string>, evicted1: set<string>, now: int)
    requires s.clock <= now && id !in s.puts
  {
    var s1 := CacheServerModel.Step(s, Receive(id, key), now);
    var s2 := CacheServerModel.Step(s1, StoreL2(id, evicted2), now);
    var s3 := CacheServerModel.Step(s2, StoreL1(id, evicted1), now);
    r == CacheServerModel.Step(s3, Announce(id), now)
  }

  /** One undisturbed OnRebuildTimer. */
  ghost function Rebuilt(s: Server, now: int): Server
    requires s.clock <= now && s.rebuild.Idle?
  {
    var s1 := CacheServerModel.Step(s, BeginRebuild, now);
    var s2 := CacheServerModel.Step(s1, SnapL1, now);
    var s3 := CacheServerModel.Step(s2, SnapL2, now);
    CacheServerModel.Step(s3, FinishRebuild, now)
  }

  class CacheService {
    const generator: BloomFilterGenerator
    var l1: set<string>
    var l2: set<string>
    ghost var model: Server

    ghost predicate Valid()
      reads this, generator
    {
      && CacheServerModel.Inv(model)
      && model.l1.Keys == l1 && model.l2.Keys == l2
      && model.filter == generator.currentBf && model.history == generator.newlyPopulatedKeys
    }

    constructor (generator: BloomFilterGenerator, stored: set<string>, now: int)
      requires generator.newlyPopulatedKeys == []
      modifies generator
      ensures this.generator == generator && Valid() && model == CacheServerModel.Init(stored, now)
    {
      this.generator := generator;
      l1 := {};
      l2 := stored;
      model := CacheServerModel.Init(stored, now);
      new;
      var keys := GetKeys();
      generator.Rebuild(keys, 0, now, now);
      InitHolds(stored, now);
    }

    method KeysOf(layer: set<string>) returns (keys: seq<string>)
      ensures layer == set k | k in keys
    {
      keys := [];
      var left := layer;
      while left != {}
        invariant left <= layer
        invariant forall k :: k in keys <==> k in layer && k !in left
        decreases left
      {
        var k :| k in left;
        keys := keys + [k];
        left := left - {k};
      }
    }

    method GetKeys() returns (keys: seq<string>)
      ensures l1 + l2 == set k | k in keys
    {
      keys := KeysOf(l1);
      var more := KeysOf(l2);
      keys := keys + more;
    }

    /** The two snapshots and the rebuild, with nothing in between. */
    method OnRebuildTimer(now: int)
      requires Valid() && model.clock <= now && model.rebuild.Idle?
      modifies this`model, generator
      ensures Valid() && model == Rebuilt(old(model), now)
    {
      hide CacheServerModel.Inv, CacheServerModel.Step, DropOld, NewSince, Sorted, Until, Rebuilt;
      InOrder(model, now);
      RebuildIs(model, now);
      var keys := GetKeys();
      generator.Rebuild(keys, 10 * SECOND, now, now);
      model := Rebuilt(model, now);
    }

    /** cache_->Put of an entry that is being put. */
    method StoreInL2(ghost id: nat, key: string, evicted: set<string>, now: int)
      requires Valid() && CacheServerModel.Enabled(model, StoreL2(id, evicted), now) && model.puts[id].key == key
      modifies this`l2, this`model
      ensures Valid() && model == CacheServerModel.Step(old(model), StoreL2(id, evicted), now)
    {
      StepKeeps(model, StoreL2(id, evicted), now);
      l2 := l2 + {key} - evicted;
      model := CacheServerModel.Step(model, StoreL2(id, evicted), now);
    }

    /** in_memory_cache_->Put of an entry that the second layer has been given. */
    method StoreInL1(ghost id: nat, key: string, evicted: set<string>, now: int)
      requires Valid() && CacheServerModel.Enabled(model, StoreL1(id, evicted), now) && model.puts[id].key == key
      modifies this`l1, this`model
      ensures Valid() && model == CacheServerModel.Step(old(model), StoreL1(id, evicted), now)
    {
      StepKeeps(model, StoreL1(id, evicted), now);
      l1 := l1 + {key} - evicted;
      model := CacheServerModel.Step(model, StoreL1(id, evicted), now);
    }

    /** bf_gen_.Add of an entry that both layers have been given. */
    method AnnounceKey(ghost id: nat, key: string, now: int)
      requires Valid() && CacheServerModel.Enabled(model, Announce(id), now) && model.puts[id].key == key
      modifies this`model, generator
      ensures Valid() && model == CacheServerModel.Step(old(model), Announce(id), now)
    {
      InOrder(model, now);
      StepKeeps(model, Announce(id), now);
      generator.Add(key, now);
      model := CacheServerModel.Step(model, Announce(id), now);
    }

    /** The layers first, then the generator; each layer may evict as it stores, even the new key. */
    method PutEntry(key: string, evicted2: set<string>, evicted1: set<string>, now: int, ghost id: nat)
      requires Valid() && model.clock <= now && id !in model.puts
      modifies this`l1, this`l2, this`model, generator
      ensures Valid() && IsPut(old(model), model, id, key, evicted2, evicted1, now)
      ensures key in generator.currentBf
    {
      StepKeeps(model, Receive(id, key), now);
      model := CacheServerModel.Step(model, Receive(id, key), now);
      StoreInL2(id, key, evicted2, now);
      StoreInL1(id, key, evicted1, now);
      AnnounceKey(id, key, now);
    }

    /** `clientBias` is the client's hash modulo 120, `random` a number of at most 120. */
    method FetchBloomFilter(seconds: int, fullSeconds: int, clientBias: nat, random: nat, now: int) returns (reply: Reply)
      requires Valid() && model.clock <= now && clientBias < 120 && random <= 120
      modifies this`model, generator
      ensures Valid() && PossibleInterval(600 + clientBias + random)
      ensures reply == Answer(old(model).history, old(model).filter, seconds, fullSeconds, 600 + clientBias + random, now)
      ensures reply.Refused? <==> seconds > fullSeconds
      ensures reply.Full? <==> seconds <= fullSeconds && 600 + clientBias + random <= fullSeconds
      ensures reply.Full? ==> reply.filter == old(model).filter
      ensures model ==
        if reply.Incremental? then CacheServerModel.Step(old(model), Query(Window(seconds)), now) else old(model)
    {
      hide CacheServerModel.Inv, CacheServerModel.Step, RecentFirst, DropOld, Sorted, Until;
      if seconds > fullSeconds {
        return Refused;
      }
      if fullSeconds < 600 + clientBias + random {
        InOrder(model, now);
        QueryIs(model, Window(seconds), now);
        var keys := generator.GetNewlyPopulatedKeys(seconds * SECOND + 5 * SECOND, now, now);
        model := CacheServerModel.Step(model, Query(Window(seconds)), now);
        return Incremental(keys);
      }
      var filter := generator.GetBloomFilter();
      return Full(filter);
    }
  }

  lemma InOrder(s: Server, now: int)
    requires CacheServerModel.Inv(s) && s.clock <= now
    ensures Sorted(s.history) && Until(s.history, now)
  {
    HistorySorted(s);
  }

  lemma RebuildIs(s: Server, now: int)
    requires CacheServerModel.Inv(s) && s.clock <= now && s.rebuild.Idle?
    ensures var r := Rebuilt(s, now);
      && CacheServerModel.Inv(r) && r.l1 == s.l1 && r.l2 == s.l2
      && r.filter == s.l1.Keys + s.l2.Keys + NewSince(s.history, now - 10 * SECOND, now - HISTORY)
      && r.history == DropOld(s.history, now - HISTORY)
  {
    hide CacheServerModel.Inv, DropOld, NewSince;
    var s1 := CacheServerModel.Step(s, BeginRebuild, now);
    StepKeeps(s, BeginRebuild, now);
    var s2 := CacheServerModel.Step(s1, SnapL1, now);
    StepKeeps(s1, SnapL1, now);
    var s3 := CacheServerModel.Step(s2, SnapL2, now);
    StepKeeps(s2, SnapL2, now);
    StepKeeps(s3, FinishRebuild, now);
  }

  lemma QueryIs(s: Server, recent: int, now: int)
    requires CacheServerModel.Inv(s) && s.clock <= now
    ensures var r := CacheServerModel.Step(s, Query(recent), now);
      && CacheServerModel.Inv(r) && r.l1 == s.l1 && r.l2 == s.l2 && r.filter == s.filter
      && r.history == DropOld(s.history, now - HISTORY)
  {
    StepKeeps(s, Query(recent), now);
  }

  class DistributedCacheReader {
    var cacheBf: set<string>
    var lastBfUpdate: int
    var lastBfFullUpdate: int

    ghost function View(): Reader
      reads this
    {
      Reader(cacheBf, lastBfUpdate, lastBfFullUpdate)
    }

    /** The first half of LoadCacheBloomFilter: the request made at `now`. */
    method MakeRequest(now: int) returns (seconds: int, fullSeconds: int)
      requires lastBfUpdate <= now && lastBfFullUpdate <= now
      ensures (seconds, fullSeconds) == SecondsSince(View(), now)
    {
      if lastBfFullUpdate == 0 {
        return 0x7fff_ffff, 0x7fff_ffff;
      }
      return (now - lastBfUpdate) / SECOND, (now - lastBfFullUpdate) / SECOND;
    }

    /** The second half, for a call that succeeded; `now` is still the time of the request. */
    method ApplyReply(now: int, reply: Reply)
      modifies this
      ensures View() == Accept(old(View()), now, reply)
    {
      if reply.Incremental? {
        lastBfUpdate := now;
        for i := 0 to |reply.keys|
          invariant View() == old(View()).(last := now, bf := old(cacheBf) + set k | k in reply.keys[..i])
        {
          cacheBf := cacheBf + {reply.keys[i]};
          assert reply.keys[..i + 1] == reply.keys[..i] + [reply.keys[i]];
        }
        assert reply.keys[..|reply.keys|] == reply.keys;
      } else if !reply.Refused? {
        lastBfFullUpdate := now;
        lastBfUpdate := now;
        if reply.Garbled? {
          return;
        }
        cacheBf := reply.filter;
      }
    }

    /** The first load asked at `now` and was over at `later`. */
    constructor (now: int, later: int, reply: Reply)
      requires 0 <= now <= later
      ensures View() == Stamped(Accept(Reader({}, 0, 0), now, reply), later)
    {
      cacheBf := {};
      lastBfUpdate := 0;
      lastBfFullUpdate := 0;
      new;
      ApplyReply(now, reply);
      lastBfUpdate := later;
      lastBfFullUpdate := later;
    }

    /** TryRead's gate: whether the server is asked at all. */
    method ConsultsServer(key: string, now: int) returns (asks: bool)
      ensures asks <==> Asks(View(), key, now)
      ensures asks <==> key in cacheBf || now - lastBfUpdate >= 600 * SECOND
    {
      if lastBfUpdate + 600 * SECOND > now && key !in cacheBf {
        return false;
      }
      return true;
    }
  }
}
