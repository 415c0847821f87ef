/**
 Whole runs of the in-memory cache: the invariants of every reachable state, and refinement of a
 lossy map.
 */
module ArcRuns {
  import opened CacheLists
  import opened ArcModel
  import opened ArcProofs
  import opened ArcRoom

  datatype Op = PutOp(key: Key, buffer: Buffer) | GetOp(key: Key) | RemoveOp(keys: seq<Key>)

  predicate Defined(s: Arc, op: Op)
  {
    op.PutOp? && |op.buffer| <= s.max ==> TargetDefined(s, op.key)
  }

  function Step(s: Arc, op: Op): Arc
    requires s.target <= s.max && Defined(s, op)
  {
    match op
    case PutOp(key, buffer) => Put(s, key, buffer)
    case GetOp(key) => Get(s, key)
    case RemoveOp(keys) => Remove(s, keys)
  }

  ghost predicate Sound(s: Arc) { WellFormed(s) && Fits(s) }

  lemma StepKeeps(s: Arc, op: Op)
    requires Sound(s) && Defined(s, op)
    ensures Sound(Step(s, op)) && Step(s, op).max == s.max
  {
    match op
    case PutOp(key, buffer) => PutKeeps(s, key, buffer);
    case GetOp(key) => GetKeeps(s, key);
    case RemoveOp(keys) => RemoveKeeps(s, keys);
  }

  /** A run is defined when every Put of it can compute its target. */
  ghost predicate Runnable(s: Arc, ops: seq<Op>)
    requires Sound(s)
    decreases |ops|
  {
    ops == [] ||
    (Defined(s, ops[0]) && (StepKeeps(s, ops[0]); Runnable(Step(s, ops[0]), ops[1..])))
  }

  ghost function Run(s: Arc, ops: seq<Op>): (r: Arc)
    requires Sound(s) && Runnable(s, ops)
    ensures Sound(r) && r.max == s.max
    decreases |ops|
  {
    if ops == [] then s else StepKeeps(s, ops[0]); Run(Step(s, ops[0]), ops[1..])
  }

  /** The map a cache that never evicts would be: refused Puts change nothing. */
  function Reference(max: nat, start: map<Key, Buffer>, ops: seq<Op>): map<Key, Buffer>
    decreases |ops|
  {
    if ops == [] then start else Reference(max, ReferenceStep(max, start, ops[0]), ops[1..])
  }

  function ReferenceStep(max: nat, m: map<Key, Buffer>, op: Op): map<Key, Buffer>
  {
    match op
    case PutOp(key, buffer) => if |buffer| <= max then m[key := buffer] else m
    case GetOp(_) => m
    case RemoveOp(keys) => map k | k in m && k !in keys :: m[k]
  }

  ghost predicate Submap(a: map<Key, Buffer>, b: map<Key, Buffer>)
  {
    forall k <- a :: k in b && a[k] == b[k]
  }

  lemma StepRefines(s: Arc, m: map<Key, Buffer>, op: Op)
    requires Sound(s) && Defined(s, op) && Submap(s.content, m)
    ensures Submap(Step(s, op).content, ReferenceStep(s.max, m, op))
  {
    match op
    case PutOp(key, buffer) => PutKeeps(s, key, buffer);
    case GetOp(key) => GetKeeps(s, key);
    case RemoveOp(keys) => RemoveKeeps(s, keys);
  }

  lemma {:induction false} RunRefines(s: Arc, m: map<Key, Buffer>, ops: seq<Op>)
    requires Sound(s) && Runnable(s, ops) && Submap(s.content, m)
    ensures Submap(Run(s, ops).content, Reference(s.max, m, ops))
    decreases |ops|
  {
    if ops != [] {
      StepRefines(s, m, ops[0]);
      StepKeeps(s, ops[0]);
      RunRefines(Step(s, ops[0]), ReferenceStep(s.max, m, ops[0]), ops[1..]);
    }
  }

  lemma EmptySound(max: nat)
    ensures Sound(Empty(max))
  {
  }

  /**
   Every reachable state: lists disjoint and duplicate-free, exactly the resident keys have buffers
   of the recorded sizes, the byte bounds hold, and a hit returns the buffer of the latest accepted
   Put of the key that no Remove followed.
   */
  lemma ReachableStates(max: nat, ops: seq<Op>)
    requires Runnable(Empty(max), ops)
    ensures var s := Run(Empty(max), ops);
      && WellFormed(s) && Apart(s)
      && s.Resident() <= max && Bytes(s.t1) + Bytes(s.b1) <= max && s.Total() <= 2 * max
      && s.target <= max
      && Submap(s.content, Reference(max, map[], ops))
  {
    EmptySound(max);
    RunRefines(Empty(max), map[], ops);
    ApartIff(Run(Empty(max), ops));
  }

  /** t2 with b2 is within the limit after any Put that evicts, and only a lookup can undo that. */
  lemma MoreListsBound(s: Arc, op: Op)
    requires Sound(s) && Defined(s, op)
    requires Bytes(s.t2) + Bytes(s.b2) <= s.max && !op.GetOp?
    ensures var r := Step(s, op); Bytes(r.t2) + Bytes(r.b2) <= r.max
  {
    match op
    case PutOp(key, buffer) =>
      if |buffer| <= s.max && key in s.content {
        ReplaceKeeps(s, key, buffer);
        ApartIff(s);
        ResizedFacts(if key in Keys(s.t1) then s.t1 else s.t2, key, |buffer|);
      }
    case RemoveOp(keys) =>
      RemoveBound(s, keys);
      RemoveKeeps(s, keys);
  }

  lemma {:induction false} RemoveBound(s: Arc, keys: seq<Key>)
    requires Sound(s)
    ensures Bytes(Remove(s, keys).t2) <= Bytes(s.t2) && Remove(s, keys).b2 == s.b2
    decreases |keys|
  {
    if keys != [] {
      RemoveOneKeeps(s, keys[0]);
      if keys[0] in s.content && keys[0] !in Keys(s.t1) {
        ApartIff(s);
        WithoutFacts(s.t2, keys[0]);
      }
      RemoveBound(RemoveOne(s, keys[0]), keys[1..]);
    }
  }

  // ---------------------------------------------------------------- when runs are defined

  lemma PositiveAdjust(s: Arc, phantomIndex: nat)
    requires AllPositive(s) && s.target <= s.max
    ensures AllPositive(Adjust(s, phantomIndex))
  {
    if s.t1 != [] { PositivePopped(s.t1); PositivePush(Back(s.t1), s.b1); }
    if s.t2 != [] { PositivePopped(s.t2); PositivePush(Back(s.t2), s.b2); }
  }

  lemma {:induction false} PositiveTryEvict(s: Arc, id: ListId, desired: nat)
    requires AllPositive(s) && s.target <= s.max
    ensures AllPositive(TryEvict(s, id, desired).0)
    decreases Fuel(s, id)
  {
    TryEvictUnfolds(s, id, desired);
    hide TryEvict, Fuel, AllPositive, EvictStep;
    if desired != 0 && Bytes(s.Of(id)) != 0 {
      PositiveEvictStep(s, id);
      var size := Back(s.Of(id)).size;
      PositiveTryEvict(EvictStep(s, id), id, if desired > size then desired - size else 0);
    }
  }

  lemma PositiveEvictStep(s: Arc, id: ListId)
    requires AllPositive(s) && s.target <= s.max && Bytes(s.Of(id)) > 0
    ensures AllPositive(EvictStep(s, id))
  {
    PositivePopped(s.Of(id));
    PositiveAdjust(Drop(s, id), 1);
  }

  lemma {:induction false} PositiveShrink(s: Arc)
    requires AllPositive(s) && s.target <= s.max
    ensures AllPositive(Shrink(s))
    decreases |s.t1| + |s.t2|
  {
    if s.Resident() > s.max {
      if Bytes(s.t1) > s.target {
        PositivePopped(s.t1);
        PositivePush(Back(s.t1), s.b1);
        PositiveShrink(EvictOnce(s));
      } else {
        PositivePopped(s.t2);
        PositivePush(Back(s.t2), s.b2);
        PositiveShrink(EvictMore(s));
      }
    }
  }

  lemma {:induction false} PositiveTrimOnce(s: Arc)
    requires AllPositive(s) && Bytes(s.t1) <= s.max
    ensures AllPositive(TrimOnce(s))
    decreases |s.b1|
  {
    if Bytes(s.t1) + Bytes(s.b1) > s.max {
      PositivePopped(s.b1);
      PositiveTrimOnce(Drop(s, B1));
    }
  }

  lemma {:induction false} PositiveTrimMore(s: Arc)
    requires AllPositive(s) && Bytes(s.t2) <= s.max
    ensures AllPositive(TrimMore(s))
    decreases |s.b2|
  {
    if Bytes(s.t2) + Bytes(s.b2) > s.max {
      PositivePopped(s.b2);
      PositiveTrimMore(Drop(s, B2));
    }
  }

  lemma PositiveOverflow(s: Arc)
    requires AllPositive(s) && s.target <= s.max
    ensures AllPositive(Overflow(s))
  {
    PositiveShrink(s);
    PositiveTrimOnce(Shrink(s));
    PositiveTrimMore(TrimOnce(Shrink(s)));
  }

  lemma PositiveMakeRoom(s: Arc, size: nat)
    requires AllPositive(s) && s.target <= s.max
    ensures AllPositive(MakeRoom(s, size))
  {
    hide TryEvict, Adjust, AllPositive, Bytes;
    PositiveTryEvict(s, B1, size);
    var r1 := if Bytes(s.b1) > 0 then TryEvict(s, B1, size) else (s, size);
    PositiveTryEvict(r1.0, T1, r1.1);
    var x := MakeRoomOnce(s, size);
    PositiveTryEvict(x.0, B2, x.1);
    var r2 := if Bytes(x.0.b2) > 0 then TryEvict(x.0, B2, x.1) else x;
    PositiveTryEvict(r2.0, T2, r2.1);
    PositiveAdjust(x.0, 1);
  }

  lemma PositivePut(s: Arc, key: Key, buffer: Buffer)
    requires Sound(s) && AllPositive(s) && TargetDefined(s, key) && 0 < |buffer| <= s.max
    ensures AllPositive(Put(s, key, buffer))
  {
    var n := Node(key, |buffer|);
    if key in s.content {
      PositiveResized(if key in Keys(s.t1) then s.t1 else s.t2, key, |buffer|);
      PositiveOverflow(Replace(s, key, buffer));
    } else {
      if key in Keys(s.b1) {
        var a := Adjust(s.(target := RaisedTarget(s, |buffer|)), 1);
        PositiveAdjust(s.(target := RaisedTarget(s, |buffer|)), 1);
        PositiveWithout(a.b1, key);
        PositivePush(n, a.t2);
      } else if key in Keys(s.b2) {
        var a := Adjust(s.(target := LoweredTarget(s, |buffer|)), 2);
        PositiveAdjust(s.(target := LoweredTarget(s, |buffer|)), 2);
        PositiveWithout(a.b2, key);
        PositivePush(n, a.t2);
      } else {
        PositiveMakeRoom(s, |buffer|);
        PositivePush(n, MakeRoom(s, |buffer|).t1);
      }
      PositiveOverflow(Inserted(s, key, buffer));
    }
  }

  lemma PositiveGet(s: Arc, key: Key)
    requires Sound(s) && AllPositive(s)
    ensures AllPositive(Get(s, key))
  {
    if key in s.content {
      var l := if key in Keys(s.t1) then s.t1 else s.t2;
      PositiveSizeOf(l, key);
      SizesWithout(l, s.content, key);
      PositiveWithout(l, key);
      PositivePush(Node(key, |s.content[key]|), if key in Keys(s.t1) then s.t2 else Without(s.t2, key));
    }
  }

  lemma {:induction false} PositiveSizeOf(l: seq<Node>, key: Key)
    requires Positive(l) && key in Keys(l)
    ensures SizeOf(l, key) > 0
  {
    if l[0].key != key {
      PositiveSizeOf(l[1..], key);
    }
  }

  lemma {:induction false} PositiveRemove(s: Arc, keys: seq<Key>)
    requires AllPositive(s)
    ensures AllPositive(Remove(s, keys))
    decreases |keys|
  {
    if keys != [] {
      PositiveWithout(s.t1, keys[0]);
      PositiveWithout(s.t2, keys[0]);
      PositiveRemove(RemoveOne(s, keys[0]), keys[1..]);
    }
  }

  predicate NonEmptyBuffers(ops: seq<Op>)
  {
    forall i :: 0 <= i < |ops| && ops[i].PutOp? ==> ops[i].buffer != ""
  }

  /** With non-empty buffers no Put ever divides by zero, so every run is defined. */
  lemma {:induction false} NonEmptyRunsAreDefined(s: Arc, ops: seq<Op>)
    requires Sound(s) && AllPositive(s) && NonEmptyBuffers(ops)
    ensures Runnable(s, ops)
    decreases |ops|
  {
    hide Sound, AllPositive, Step, Defined;
    if ops != [] {
      PositiveStep(s, ops[0]);
      StepKeeps(s, ops[0]);
      NonEmptyRunsAreDefined(Step(s, ops[0]), ops[1..]);
    }
  }

  lemma PositiveStep(s: Arc, op: Op)
    requires Sound(s) && AllPositive(s) && (op.PutOp? ==> op.buffer != "")
    ensures s.target <= s.max && Defined(s, op) && AllPositive(Step(s, op))
  {
    match op
    case PutOp(key, buffer) =>
      if key in Keys(s.b1) {
        PositiveBytes(s.b1);
      }
      if key in Keys(s.b2) {
        PositiveBytes(s.b2);
      }
      if |buffer| <= s.max {
        PositivePut(s, key, buffer);
      }
    case GetOp(key) => PositiveGet(s, key);
    case RemoveOp(keys) => PositiveRemove(s, keys);
  }

  // ---------------------------------------------------------------- runs from an empty cache

  lemma RunNowhere(s: Arc)
    requires Sound(s)
    ensures Runnable(s, []) && Run(s, []) == s
  {
  }

  /** `r` is reached from `s` by `op`, and `t` from there by `rest`. */
  lemma RunFrom(s: Arc, op: Op, r: Arc, rest: seq<Op>, t: Arc)
    requires Sound(s) && Defined(s, op) && Step(s, op) == r && Sound(r) && Runnable(r, rest) && Run(r, rest) == t
    ensures Runnable(s, [op] + rest) && Run(s, [op] + rest) == t
  {
    var all := [op] + rest;
    assert all[0] == op && all[1..] == rest;
  }

  lemma SoundTarget(s: Arc)
    requires Sound(s)
    ensures s.target <= s.max
  {
  }

  lemma EmptyTarget(max: nat)
    ensures Empty(max).target <= Empty(max).max
  {
  }

  /** Two five-byte keys under a ten-byte limit, "k" the older. */
  function TwoKeys(): Arc
  {
    Arc(10, 0, [Node("a", 5), Node("k", 5)], [], [], [], map["a" := "aaaaa", "k" := "kkkkk"])
  }

  function OneKey(): Arc { Arc(10, 0, [Node("k", 5)], [], [], [], map["k" := "kkkkk"]) }

  /** Nothing overflows that fits. */
  lemma FittingStays(s: Arc)
    requires s.target <= s.max && s.Resident() <= s.max
    requires Bytes(s.t1) + Bytes(s.b1) <= s.max && Bytes(s.t2) + Bytes(s.b2) <= s.max
    ensures Overflow(s) == s
  {
    assert Shrink(s) == s;
    hide Bytes;
  }

  /** A new key that fits beside what is resident enters t1, and that is all, if nothing was evicted before. */
  lemma PlainPut(s: Arc, key: Key, buffer: Buffer)
    requires s.target <= s.max && s.b1 == [] && s.b2 == [] && key !in s.content && s.Resident() + |buffer| <= s.max
    ensures TargetDefined(s, key) && Put(s, key, buffer) == PushOnce(s, key, buffer)
  {
    hide Overflow, MakeRoomOnce, MakeRoomMore, PhantomHit;
    var r := PushOnce(s, key, buffer);
    PushFacts(Node(key, |buffer|), s.t1);
    assert Bytes(s.b1) == 0 && Keys(s.b1) == {} && Keys(s.b2) == {};
    assert MakeRoom(s, |buffer|) == s;
    assert Inserted(s, key, buffer) == r;
    FittingStays(r);
    hide Bytes, Keys;
  }

  lemma BytesOfOne(n: Node)
    ensures Bytes([n]) == n.size && Bytes([]) == 0
  {
    assert [n][1..] == [];
  }

  lemma FirstKey()
    ensures Defined(Empty(10), PutOp("k", "kkkkk")) && Step(Empty(10), PutOp("k", "kkkkk")) == OneKey()
  {
    hide Put;
    PlainPut(Empty(10), "k", "kkkkk");
  }

  lemma SecondKey()
    ensures Defined(OneKey(), PutOp("a", "aaaaa")) && Step(OneKey(), PutOp("a", "aaaaa")) == TwoKeys()
  {
    hide Put, Bytes;
    BytesOfOne(Node("k", 5));
    PlainPut(OneKey(), "a", "aaaaa");
  }

  lemma TwoKeysReached()
    ensures Sound(Empty(10)) && Sound(TwoKeys())
    ensures var ops := [PutOp("k", "kkkkk")] + ([PutOp("a", "aaaaa")] + []);
      Runnable(Empty(10), ops) && Run(Empty(10), ops) == TwoKeys()
  {
    EmptySound(10);
    FirstKey();
    SecondKey();
    hide Sound, Step, Runnable, Run, Empty, OneKey, TwoKeys;
    EmptyTarget(10);
    StepKeeps(Empty(10), PutOp("k", "kkkkk"));
    SoundTarget(OneKey());
    StepKeeps(OneKey(), PutOp("a", "aaaaa"));
    RunNowhere(TwoKeys());
    RunFrom(OneKey(), PutOp("a", "aaaaa"), TwoKeys(), [], TwoKeys());
    RunFrom(Empty(10), PutOp("k", "kkkkk"), OneKey(), [PutOp("a", "aaaaa")] + [], TwoKeys());
  }

  /** A larger overwrite of an older key can lose the key entirely: two Puts, then the overwrite. */
  lemma OverwriteCanForget(buffer: Buffer)
    requires 5 < |buffer| <= 10
    ensures Sound(Empty(10)) && var ops := [PutOp("k", "kkkkk")] + ([PutOp("a", "aaaaa")] + []);
      && Runnable(Empty(10), ops)
      && var s := Run(Empty(10), ops);
         "k" in s.content && Defined(s, PutOp("k", buffer)) && "k" !in Step(s, PutOp("k", buffer)).AllKeys()
  {
    hide Sound, Step, Runnable, Run, Empty, TwoKeys;
    TwoKeysReached();
    KForgotten(buffer);
  }

  lemma KForgotten(buffer: Buffer)
    requires 5 < |buffer| <= 10 && Sound(TwoKeys())
    ensures var s := TwoKeys();
      "k" in s.content && Defined(s, PutOp("k", buffer)) && "k" !in Step(s, PutOp("k", buffer)).AllKeys()
  {
    hide Put;
    var s := TwoKeys();
    assert s.t1[1..] == [Node("k", 5)];
    AcceptedPutIsKnownIff(s, "k", buffer);
  }

  /** One byte, seen twice, under a limit of three. */
  function OneByte(): Arc { Arc(3, 0, [], [Node("x", 1)], [], [], map["x" := "x"]) }

  /** The same after a look at "x", an empty buffer "e" and a full-sized "w", which it has only in memory of. */
  function OneEmptyBuffer(): Arc
  {
    Arc(3, 0, [], [Node("x", 1)], [Node("w", 3), Node("e", 0)], [], map["x" := "x"])
  }

  lemma OneByteSteps()
    ensures Defined(Empty(3), PutOp("x", "x"))
    ensures var one := Arc(3, 0, [Node("x", 1)], [], [], [], map["x" := "x"]);
      && Step(Empty(3), PutOp("x", "x")) == one
      && Defined(one, GetOp("x")) && Step(one, GetOp("x")) == OneByte()
  {
    hide Put;
    PlainPut(Empty(3), "x", "x");
  }

  lemma OneByteReached(rest: seq<Op>)
    requires Sound(OneByte()) && Runnable(OneByte(), rest)
    ensures Sound(Empty(3))
    ensures var ops := [PutOp("x", "x")] + ([GetOp("x")] + rest);
      Runnable(Empty(3), ops) && Run(Empty(3), ops) == Run(OneByte(), rest)
  {
    hide Sound, Step, Runnable, Run, OneByte, Empty;
    EmptySound(3);
    EmptyTarget(3);
    var one := Arc(3, 0, [Node("x", 1)], [], [], [], map["x" := "x"]);
    OneByteSteps();
    StepKeeps(Empty(3), PutOp("x", "x"));
    StepKeeps(one, GetOp("x"));
    RunFrom(one, GetOp("x"), OneByte(), rest, Run(OneByte(), rest));
    RunFrom(Empty(3), PutOp("x", "x"), one, [GetOp("x")] + rest, Run(OneByte(), rest));
  }

  /** Three bytes beside one are too many: "w" goes straight to b1. */
  lemma WMisses()
    ensures Defined(OneByte(), PutOp("w", "www"))
    ensures Step(OneByte(), PutOp("w", "www")) == Arc(3, 0, [], [Node("x", 1)], [Node("w", 3)], [], map["x" := "x"])
  {
    var x := Arc(3, 0, [Node("w", 3)], [Node("x", 1)], [], [], map["x" := "x", "w" := "www"]);
    var r := Arc(3, 0, [], [Node("x", 1)], [Node("w", 3)], [], map["x" := "x"]);
    NoRoomMade(OneByte());
    assert Inserted(OneByte(), "w", "www") == x by { hide MakeRoom; }
    assert Overflow(x) == r by {
      hide MakeRoom, Inserted;
      assert EvictOnce(x) == r;
      assert Shrink(r) == r;
    }
    hide Overflow, Inserted;
  }

  /** With "x" alone in t2 and no bytes in t1, three more bytes call for no eviction beforehand. */
  lemma NoRoomMade(s: Arc)
    requires s.max == 3 && s.target == 0 && s.t2 == [Node("x", 1)] && s.b1 == [] && s.b2 == [] && Bytes(s.t1) == 0
    ensures MakeRoom(s, 3) == s
  {
    assert s.t2[1..] == [] && Bytes(s.t2) == 1;
    assert MakeRoomOnce(s, 3) == (s, 3);
    assert MakeRoomMore(s, 3) == Adjust(s, 1) == s;
  }

  /** A Put of a new key that is no hit afterwards: Put one byte, look at it, Put three. */
  lemma PutCanMiss()
    ensures Sound(Empty(3)) && var ops := [PutOp("x", "x")] + ([GetOp("x")] + ([PutOp("w", "www")] + []));
      && Runnable(Empty(3), ops) && "w" !in Run(Empty(3), ops).content
  {
    OneByteSound();
    WMisses();
    var r := Arc(3, 0, [], [Node("x", 1)], [Node("w", 3)], [], map["x" := "x"]);
    hide Sound, Step, Runnable, Run, OneByte;
    SoundTarget(OneByte());
    StepKeeps(OneByte(), PutOp("w", "www"));
    RunNowhere(r);
    RunFrom(OneByte(), PutOp("w", "www"), r, [], r);
    OneByteReached([PutOp("w", "www")] + []);
  }

  lemma OneByteSound()
    ensures Sound(OneByte())
  {
    ApartIff(OneByte());
  }

  lemma OneEmptyBufferReached()
    ensures Sound(Empty(3)) && Sound(OneEmptyBuffer())
    ensures var ops := [PutOp("x", "x")] + ([GetOp("x")] + ([PutOp("e", "")] + ([PutOp("w", "www")] + [])));
      Runnable(Empty(3), ops) && Run(Empty(3), ops) == OneEmptyBuffer()
  {
    OneByteSound();
    var s := OneByte();
    var e := Arc(3, 0, [Node("e", 0)], [Node("x", 1)], [], [], map["x" := "x", "e" := ""]);
    EmptyIsPut();
    hide Sound, Step, Runnable, Run, OneByte, OneEmptyBuffer;
    SoundTarget(s);
    StepKeeps(s, PutOp("e", ""));
    WFills(e);
    RunNowhere(OneEmptyBuffer());
    RunFrom(e, PutOp("w", "www"), OneEmptyBuffer(), [], OneEmptyBuffer());
    RunFrom(s, PutOp("e", ""), e, [PutOp("w", "www")] + [], OneEmptyBuffer());
    OneByteReached([PutOp("e", "")] + ([PutOp("w", "www")] + []));
  }

  lemma EmptyIsPut()
    ensures Defined(OneByte(), PutOp("e", ""))
    ensures Step(OneByte(), PutOp("e", "")) == Arc(3, 0, [Node("e", 0)], [Node("x", 1)], [], [], map["x" := "x", "e" := ""])
  {
    hide Put, Bytes;
    BytesOfOne(Node("x", 1));
    PlainPut(OneByte(), "e", "");
  }

  /** "w" comes, pushes "e" and then itself into b1. */
  lemma WFills(e: Arc)
    requires e == Arc(3, 0, [Node("e", 0)], [Node("x", 1)], [], [], map["x" := "x", "e" := ""]) && Sound(e)
    ensures Defined(e, PutOp("w", "www")) && Step(e, PutOp("w", "www")) == OneEmptyBuffer() && Sound(OneEmptyBuffer())
  {
    var x := Arc(3, 0, [Node("w", 3), Node("e", 0)], [Node("x", 1)], [], [], map["x" := "x", "e" := "", "w" := "www"]);
    var y := Arc(3, 0, [Node("w", 3)], [Node("x", 1)], [Node("e", 0)], [], map["x" := "x", "w" := "www"]);
    NoRoomMade(e);
    assert Inserted(e, "w", "www") == x by { hide MakeRoom; }
    assert Overflow(x) == OneEmptyBuffer() by {
      hide MakeRoom, Inserted;
      assert x.t1[1..] == [Node("e", 0)];
      assert EvictOnce(x) == y && EvictOnce(y) == OneEmptyBuffer();
      assert OneEmptyBuffer().b1[1..] == [Node("e", 0)];
      assert Shrink(OneEmptyBuffer()) == OneEmptyBuffer();
      assert Shrink(y) == OneEmptyBuffer();
      assert Shrink(x) == OneEmptyBuffer();
    }
    StepKeeps(e, PutOp("w", "www"));
    hide Overflow, Inserted;
  }

  /** One remembered empty buffer is enough: after a Put of "w" every Put of "e" divides by zero. */
  lemma EmptyBufferDividesByZero(buffer: Buffer)
    requires |buffer| <= 3
    ensures Sound(Empty(3))
    ensures var ops := [PutOp("x", "x")] + ([GetOp("x")] + ([PutOp("e", "")] + ([PutOp("w", "www")] + [])));
      && Runnable(Empty(3), ops)
      && var s := Run(Empty(3), ops);
         Defined(s, PutOp("w", "ww")) && !Defined(Step(s, PutOp("w", "ww")), PutOp("e", buffer))
  {
    hide Sound, Step, Runnable, Run, OneEmptyBuffer, Empty;
    OneEmptyBufferReached();
    SoundTarget(OneEmptyBuffer());
    WAgain();
  }

  lemma WAgain()
    ensures Defined(OneEmptyBuffer(), PutOp("w", "ww"))
    ensures Step(OneEmptyBuffer(), PutOp("w", "ww"))
         == Arc(3, 2, [], [Node("w", 2)], [Node("e", 0)], [Node("x", 1)], map["w" := "ww"])
  {
    hide Overflow, Inserted, OneEmptyBuffer;
    var s := OneEmptyBuffer();
    var r := Arc(3, 2, [], [Node("w", 2)], [Node("e", 0)], [Node("x", 1)], map["w" := "ww"]);
    WPromoted();
    NothingOverflows(r);
    assert s.max == 3 && "w" !in s.content by { OneEmptyBufferIs(); }
  }

  lemma OneEmptyBufferIs()
    ensures OneEmptyBuffer().max == 3 && OneEmptyBuffer().content.Keys == {"x"}
  {
  }

  lemma OneEmptyBufferBytes()
    ensures var s := OneEmptyBuffer();
      && Bytes(s.t1) == 0 && Bytes(s.t2) == 1 && Bytes(s.b1) == 3 && Bytes(s.b2) == 0
      && Keys(s.b1) == {"w", "e"} && Keys(s.b2) == {} && Without(s.b1, "w") == [Node("e", 0)]
  {
    var s := OneEmptyBuffer();
    assert s.b1[1..] == [Node("e", 0)] && [Node("e", 0)][1..] == [];
    BytesOfOne(Node("x", 1));
  }

  lemma WPromoted()
    ensures Defined(OneEmptyBuffer(), PutOp("w", "ww")) && TargetDefined(OneEmptyBuffer(), "w")
    ensures OneEmptyBuffer().target <= OneEmptyBuffer().max
    ensures Inserted(OneEmptyBuffer(), "w", "ww")
         == Arc(3, 2, [], [Node("w", 2)], [Node("e", 0)], [Node("x", 1)], map["w" := "ww"])
  {
    hide Bytes, Keys, Without;
    OneEmptyBufferBytes();
    var s := OneEmptyBuffer();
    var v := s.(target := 2);
    assert RaisedTarget(s, 2) == 2;
    assert Adjust(v, 1) == EvictMore(v) == Arc(3, 2, [], [], s.b1, [Node("x", 1)], map[]);
  }

  lemma NothingOverflows(s: Arc)
    requires s == Arc(3, 2, [], [Node("w", 2)], [Node("e", 0)], [Node("x", 1)], map["w" := "ww"])
    ensures Overflow(s) == s
  {
    BytesOfOne(Node("w", 2));
    BytesOfOne(Node("e", 0));
    BytesOfOne(Node("x", 1));
    FittingStays(s);
    hide Bytes;
  }
}
