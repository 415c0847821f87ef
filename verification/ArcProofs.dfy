/**
 What every call of the in-memory cache keeps, for all states, keys and buffers.
 */
module ArcProofs {
  import opened Basics
  import opened CacheLists
  import opened ArcModel

  /** Evictions only forget: no new key, no changed buffer, same limit and target. */
  ghost predicate Forgets(s: Arc, r: Arc)
  {
    && r.max == s.max && r.target == s.target
    && r.AllKeys() <= s.AllKeys()
    && (forall k <- r.content :: k in s.content && r.content[k] == s.content[k])
  }

  // ---------------------------------------------------------------- evictions keep the invariant

  /** Each list of `r` holds some of the keys of `s`'s list. */
  ghost predicate Narrower(s: Arc, r: Arc)
  {
    && NoDup(r.t1) && NoDup(r.t2) && NoDup(r.b1) && NoDup(r.b2)
    && Keys(r.t1) <= Keys(s.t1) && Keys(r.t2) <= Keys(s.t2)
    && Keys(r.b1) <= Keys(s.b1) && Keys(r.b2) <= Keys(s.b2)
  }

  lemma NarrowerApart(s: Arc, r: Arc)
    requires Apart(s) && Narrower(s, r)
    ensures NoDup((r.t1 + r.b1) + (r.t2 + r.b2))
  {
    ApartIff(r);
  }

  lemma EvictOnceKeeps(s: Arc)
    requires WellFormed(s) && s.t1 != []
    ensures var r := EvictOnce(s);
      WellFormed(r) && Forgets(s, r) && Keys(s.b1) <= Keys(r.b1) && r.t1 + r.b1 == s.t1 + s.b1
  {
    var n, r := Back(s.t1), EvictOnce(s);
    ApartIff(s);
    MoveBack(s.t1, s.b1);
    hide NoDup, Keys, SizesMatch, Back, Popped;
    PopFacts(s.t1);
    PushFacts(n, s.b1);
    SizesPopped(s.t1, s.content);
    SizesFrame(r.t1, s.content, r.content);
    SizesFrame(r.t2, s.content, r.content);
  }

  lemma EvictMoreKeeps(s: Arc)
    requires WellFormed(s) && s.t2 != []
    ensures var r := EvictMore(s);
      WellFormed(r) && Forgets(s, r) && Keys(s.b2) <= Keys(r.b2) && r.t2 + r.b2 == s.t2 + s.b2
  {
    var n, r := Back(s.t2), EvictMore(s);
    ApartIff(s);
    MoveBack(s.t2, s.b2);
    hide NoDup, Keys, SizesMatch, Back, Popped;
    PopFacts(s.t2);
    PushFacts(n, s.b2);
    SizesPopped(s.t2, s.content);
    SizesFrame(r.t1, s.content, r.content);
    SizesFrame(r.t2, s.content, r.content);
  }

  lemma DropKeeps(s: Arc, id: ListId)
    requires WellFormed(s) && s.Of(id) != []
    ensures var r := Drop(s, id); WellFormed(r) && Forgets(s, r)
  {
    var l, r := s.Of(id), Drop(s, id);
    ApartIff(s);
    PopFacts(l);
    NarrowerApart(s, r);
    if id == T1 || id == T2 {
      SizesPopped(l, s.content);
      SizesFrame(r.t1, s.content, r.content);
      SizesFrame(r.t2, s.content, r.content);
    }
  }

  lemma AdjustKeeps(s: Arc, phantomIndex: nat)
    requires WellFormed(s)
    ensures var r := Adjust(s, phantomIndex);
      && WellFormed(r) && Forgets(s, r)
      && Keys(s.b1) <= Keys(r.b1) && Keys(s.b2) <= Keys(r.b2)
  {
    if Bytes(s.t1) > s.target || (phantomIndex == 2 && Bytes(s.t1) >= s.target) {
      if Bytes(s.t1) > 0 {
        EvictOnceKeeps(s);
      }
    } else if Bytes(s.t2) > 0 {
      EvictMoreKeeps(s);
    }
  }

  lemma EvictStepKeeps(s: Arc, id: ListId)
    requires WellFormed(s) && Bytes(s.Of(id)) > 0
    ensures var r := EvictStep(s, id); WellFormed(r) && Forgets(s, r)
  {
    DropKeeps(s, id);
    AdjustKeeps(Drop(s, id), 1);
  }

  /** One unfolding of the eviction loop, both ways it can go. */
  lemma TryEvictUnfolds(v: Arc, id: ListId, desired: nat)
    requires v.target <= v.max
    ensures desired == 0 || Bytes(v.Of(id)) == 0 ==> TryEvict(v, id, desired) == (v, desired)
    ensures desired != 0 && Bytes(v.Of(id)) != 0 ==>
      v.Of(id) != [] &&
      var size := Back(v.Of(id)).size;
      TryEvict(v, id, desired) == TryEvict(EvictStep(v, id), id, if desired > size then desired - size else 0)
  {
  }

  lemma {:induction false} TryEvictKeeps(s: Arc, id: ListId, desired: nat)
    requires WellFormed(s)
    ensures var r := TryEvict(s, id, desired).0; WellFormed(r) && Forgets(s, r)
    decreases Fuel(s, id)
  {
    TargetInRange(s);
    TryEvictUnfolds(s, id, desired);
    hide WellFormed, Forgets, EvictStep, Fuel, TryEvict;
    if desired == 0 || Bytes(s.Of(id)) == 0 {
      ForgetsItself(s);
    } else {
      EvictStepKeeps(s, id);
      var size := Back(s.Of(id)).size;
      var left := if desired > size then desired - size else 0;
      TryEvictKeeps(EvictStep(s, id), id, left);
      ForgetsMore(s, EvictStep(s, id), TryEvict(EvictStep(s, id), id, left).0);
    }
  }

  lemma TargetInRange(s: Arc)
    requires WellFormed(s)
    ensures s.target <= s.max
  {
  }

  lemma ForgetsItself(s: Arc)
    ensures Forgets(s, s)
  {
  }

  lemma ForgetsMore(s: Arc, q: Arc, r: Arc)
    requires Forgets(s, q) && Forgets(q, r)
    ensures Forgets(s, r)
  {
  }

  lemma MakeRoomOnceKeeps(s: Arc, size: nat)
    requires WellFormed(s)
    ensures var r := MakeRoomOnce(s, size).0; WellFormed(r) && Forgets(s, r)
  {
    var r := if Bytes(s.b1) > 0 then TryEvict(s, B1, size) else (s, size);
    TryEvictKeeps(s, B1, size);
    TryEvictKeeps(r.0, T1, r.1);
  }

  lemma MakeRoomMoreKeeps(s: Arc, size: nat)
    requires WellFormed(s)
    ensures var r := MakeRoomMore(s, size); WellFormed(r) && Forgets(s, r)
  {
    if s.Total() + size >= 2 * s.max {
      var r := if Bytes(s.b2) > 0 then TryEvict(s, B2, size) else (s, size);
      TryEvictKeeps(s, B2, size);
      TryEvictKeeps(r.0, T2, r.1);
    } else {
      AdjustKeeps(s, 1);
    }
  }

  lemma MakeRoomKeeps(s: Arc, size: nat)
    requires WellFormed(s)
    ensures var r := MakeRoom(s, size); WellFormed(r) && Forgets(s, r)
  {
    var once := MakeRoomOnce(s, size);
    MakeRoomOnceKeeps(s, size);
    MakeRoomMoreKeeps(once.0, once.1);
  }

  // ---------------------------------------------------------------- overflow as two LRU chains

  /** The longest prefix (most recent part) of a list whose bytes fit. */
  function FitPrefix(l: seq<Node>, max: nat): (p: seq<Node>)
    ensures Bytes(p) <= max && p <= l
    ensures |p| < |l| ==> Bytes(l[..|p| + 1]) > max
  {
    if Bytes(l) <= max then l
    else
      var p := FitPrefix(Popped(l), max);
      assert |p| < |l| - 1 ==> Popped(l)[..|p| + 1] == l[..|p| + 1];
      assert |p| == |l| - 1 ==> l[..|p| + 1] == l;
      p
  }

  lemma {:induction false} ShrinkKeeps(s: Arc)
    requires WellFormed(s)
    ensures var r := Shrink(s);
      && WellFormed(r) && Forgets(s, r)
      && r.t1 + r.b1 == s.t1 + s.b1 && r.t2 + r.b2 == s.t2 + s.b2
    decreases |s.t1| + |s.t2|
  {
    if s.Resident() > s.max {
      if Bytes(s.t1) > s.target {
        EvictOnceKeeps(s);
        ShrinkKeeps(EvictOnce(s));
      } else {
        EvictMoreKeeps(s);
        ShrinkKeeps(EvictMore(s));
      }
    }
  }

  lemma {:induction false} TrimOnceKeeps(s: Arc)
    requires WellFormed(s) && Bytes(s.t1) <= s.max
    ensures var r := TrimOnce(s);
      WellFormed(r) && Forgets(s, r) && r.t1 + r.b1 == FitPrefix(s.t1 + s.b1, s.max)
    decreases |s.b1|
  {
    ConcatFacts(s.t1, s.b1);
    if Bytes(s.t1) + Bytes(s.b1) > s.max {
      DropKeeps(s, B1);
      assert Popped(s.t1 + s.b1) == s.t1 + Popped(s.b1);
      TrimOnceKeeps(Drop(s, B1));
    }
  }

  lemma {:induction false} TrimMoreKeeps(s: Arc)
    requires WellFormed(s) && Bytes(s.t2) <= s.max
    ensures var r := TrimMore(s);
      WellFormed(r) && Forgets(s, r) && r.t2 + r.b2 == FitPrefix(s.t2 + s.b2, s.max)
    decreases |s.b2|
  {
    ConcatFacts(s.t2, s.b2);
    if Bytes(s.t2) + Bytes(s.b2) > s.max {
      DropKeeps(s, B2);
      assert Popped(s.t2 + s.b2) == s.t2 + Popped(s.b2);
      TrimMoreKeeps(Drop(s, B2));
    }
  }

  /**
   Evicting memory overflow never reorders: whatever its loops do, t1 followed by b1 becomes the
   longest prefix of itself that fits the limit, and so does t2 followed by b2.
   */
  lemma OverflowKeepsRecentPrefixes(s: Arc)
    requires WellFormed(s)
    ensures var r := Overflow(s);
      && WellFormed(r) && Forgets(s, r) && Fits(r)
      && r.t1 + r.b1 == FitPrefix(s.t1 + s.b1, s.max)
      && r.t2 + r.b2 == FitPrefix(s.t2 + s.b2, s.max)
  {
    var shrunk := Shrink(s);
    ShrinkKeeps(s);
    TrimOnceKeeps(shrunk);
    TrimMoreKeeps(TrimOnce(shrunk));
  }

  // ---------------------------------------------------------------- calls keep the invariant

  lemma PushMoreKeeps(s: Arc, key: Key, buffer: Buffer)
    requires WellFormed(s) && key !in s.AllKeys()
    ensures WellFormed(PushMore(s, key, buffer))
  {
    ApartIff(s);
    ApartIff(PushMore(s, key, buffer));
    var r := PushMore(s, key, buffer);
    PushFacts(Node(key, |buffer|), s.t2);
    SizesFrame(s.t1, s.content, r.content);
    SizesFrame(s.t2, s.content, r.content);
    assert r.t2[1..] == s.t2;
  }

  lemma PushOnceKeeps(s: Arc, key: Key, buffer: Buffer)
    requires WellFormed(s) && key !in s.AllKeys()
    ensures WellFormed(PushOnce(s, key, buffer))
  {
    ApartIff(s);
    ApartIff(PushOnce(s, key, buffer));
    var r := PushOnce(s, key, buffer);
    PushFacts(Node(key, |buffer|), s.t1);
    SizesFrame(s.t1, s.content, r.content);
    SizesFrame(s.t2, s.content, r.content);
    assert r.t1[1..] == s.t1;
  }

  /** `a` without the phantom node of `key`. */
  function Unlinked(a: Arc, key: Key): Arc
  {
    if key in Keys(a.b1) then a.(b1 := Without(a.b1, key)) else a.(b2 := Without(a.b2, key))
  }

  lemma UnlinkKeeps(a: Arc, key: Key)
    requires WellFormed(a) && key in Keys(a.b1) + Keys(a.b2)
    ensures var u, l := Unlinked(a, key), if key in Keys(a.b1) then a.b1 else a.b2;
      && WellFormed(u) && key !in u.AllKeys()
      && Keys(u.b1) == Keys(a.b1) - {key} && Keys(u.b2) == Keys(a.b2) - {key}
      && Bytes(l) == Bytes(Without(l, key)) + SizeOf(l, key)
  {
    ApartIff(a);
    WithoutFacts(if key in Keys(a.b1) then a.b1 else a.b2, key);
    NarrowerApart(a, Unlinked(a, key));
  }

  lemma PhantomHitKeeps(s: Arc, key: Key, buffer: Buffer)
    requires WellFormed(s) && key in Keys(s.b1) + Keys(s.b2) && TargetDefined(s, key)
    ensures var r := PhantomHit(s, key, buffer);
      && WellFormed(r) && r.max == s.max
      && r.t2 != [] && r.t2[0] == Node(key, |buffer|) && r.content[key] == buffer
      && (forall k <- r.content :: k != key ==> k in s.content && r.content[k] == s.content[k])
  {
    var hit1 := key in Keys(s.b1);
    var x := s.(target := if hit1 then RaisedTarget(s, |buffer|) else LoweredTarget(s, |buffer|));
    var a := Adjust(x, if hit1 then 1 else 2);
    AdjustKeeps(x, if hit1 then 1 else 2);
    UnlinkKeeps(a, key);
    PushMoreKeeps(Unlinked(a, key), key, buffer);
    if !hit1 { ApartIff(a); }
  }

  lemma MissKeeps(s: Arc, key: Key, buffer: Buffer)
    requires WellFormed(s) && key !in s.AllKeys()
    ensures var r := Miss(s, key, buffer);
      && WellFormed(r) && r.max == s.max && r.target == s.target
      && r.t1 != [] && r.t1[0] == Node(key, |buffer|) && r.content[key] == buffer
      && (forall k <- r.content :: k != key ==> k in s.content && r.content[k] == s.content[k])
  {
    MakeRoomKeeps(s, |buffer|);
    PushOnceKeeps(MakeRoom(s, |buffer|), key, buffer);
  }

  lemma ReplaceKeeps(s: Arc, key: Key, buffer: Buffer)
    requires WellFormed(s) && key in s.content
    ensures WellFormed(Replace(s, key, buffer))
  {
    var r := Replace(s, key, buffer);
    var l := if key in Keys(s.t1) then s.t1 else s.t2;
    ApartIff(s);
    ResizedFacts(l, key, |buffer|);
    NarrowerApart(s, r);
    SizesResized(l, s.content, key, buffer);
    SizesFrame(if key in Keys(s.t1) then s.t2 else s.t1, s.content, r.content);
  }

  /** What a Put may change among the buffers: only its own key's, and other keys may be evicted. */
  ghost predicate PutsOnly(s: Arc, r: Arc, key: Key, buffer: Buffer)
  {
    && (forall k <- r.content :: k != key ==> k in s.content && r.content[k] == s.content[k])
    && (key in r.content ==> r.content[key] == buffer)
  }

  lemma OverwriteKeeps(s: Arc, key: Key, buffer: Buffer)
    requires WellFormed(s) && Fits(s) && key in s.content
    ensures var r := Overwrite(s, key, buffer);
      WellFormed(r) && Fits(r) && r.max == s.max && PutsOnly(s, r, key, buffer)
  {
    var x := Replace(s, key, buffer);
    ReplaceKeeps(s, key, buffer);
    assert PutsOnly(s, x, key, buffer);
    if Overwrite(s, key, buffer) == x {
      ReplaceFits(s, key, buffer);
    } else {
      OverflowKeepsRecentPrefixes(x);
    }
  }

  lemma ReplaceFits(s: Arc, key: Key, buffer: Buffer)
    requires WellFormed(s) && Fits(s) && key in s.content
    requires Overwrite(s, key, buffer) == Replace(s, key, buffer)
    ensures Fits(Replace(s, key, buffer))
  {
    ApartIff(s);
    ReplaceKeeps(s, key, buffer);
    OverflowKeepsRecentPrefixes(Replace(s, key, buffer));
    ResizedFacts(if key in Keys(s.t1) then s.t1 else s.t2, key, |buffer|);
  }

  lemma InsertKeeps(s: Arc, key: Key, buffer: Buffer)
    requires WellFormed(s) && key !in s.content && TargetDefined(s, key)
    ensures var x := Inserted(s, key, buffer);
      && WellFormed(x) && PutsOnly(s, x, key, buffer)
      && WellFormed(Overflow(x)) && Fits(Overflow(x)) && PutsOnly(s, Overflow(x), key, buffer)
  {
    if key in Keys(s.b1) + Keys(s.b2) {
      PhantomHitKeeps(s, key, buffer);
    } else {
      MissKeeps(s, key, buffer);
    }
    OverflowKeepsRecentPrefixes(Inserted(s, key, buffer));
  }

  /** After any Put the cache is sound and within its limits, and only `key`'s buffer may be new. */
  lemma PutKeeps(s: Arc, key: Key, buffer: Buffer)
    requires WellFormed(s) && Fits(s) && (|buffer| <= s.max ==> TargetDefined(s, key))
    ensures var r := Put(s, key, buffer);
      && WellFormed(r) && Fits(r) && r.max == s.max
      && (if |buffer| > s.max then r == s else PutsOnly(s, r, key, buffer))
  {
    if |buffer| <= s.max {
      if key in s.content {
        OverwriteKeeps(s, key, buffer);
      } else {
        InsertKeeps(s, key, buffer);
      }
    }
  }

  /** A lookup moves bytes between t1 and t2 and conserves every total. */
  lemma GetKeeps(s: Arc, key: Key)
    requires WellFormed(s) && Fits(s)
    ensures var r := Get(s, key);
      && WellFormed(r) && Fits(r) && r.content == s.content && r.max == s.max
      && r.Resident() == s.Resident() && r.Total() == s.Total() && r.AllKeys() == s.AllKeys()
      && r.b1 == s.b1 && r.b2 == s.b2 && Bytes(r.t1) <= Bytes(s.t1)
      && (key in s.content ==> r.t2 != [] && r.t2[0].key == key)
  {
    hide NoDup, Bytes, Keys, SizeOf, Without;
    ApartIff(s);
    ApartIff(Get(s, key));
    if key in s.content {
      var n := Node(key, |s.content[key]|);
      var l := if key in Keys(s.t1) then s.t1 else s.t2;
      WithoutFacts(l, key);
      SizesWithout(l, s.content, key);
      var rest := if key in Keys(s.t1) then s.t2 else Without(s.t2, key);
      PushFacts(n, rest);
      assert ([n] + rest)[1..] == rest;
    }
  }

  lemma RemoveOneKeeps(s: Arc, key: Key)
    requires WellFormed(s) && Fits(s)
    ensures var r := RemoveOne(s, key);
      && WellFormed(r) && Fits(r) && r.max == s.max && r.content == s.content - {key}
      && Forgets(s, r) && r.b1 == s.b1 && r.b2 == s.b2
  {
    if key in s.content {
      ApartIff(s);
      if key in Keys(s.t1) {
        RemoveOnceKeeps(s, key);
      } else {
        RemoveMoreKeeps(s, key);
      }
    }
  }

  lemma RemoveOnceKeeps(s: Arc, key: Key)
    requires WellFormed(s) && Fits(s) && Apart(s) && key in Keys(s.t1)
    ensures var r := s.(t1 := Without(s.t1, key), content := s.content - {key});
      WellFormed(r) && Fits(r) && Forgets(s, r)
  {
    hide NoDup, SizesMatch, Without, Bytes, SizeOf, Keys;
    var r := s.(t1 := Without(s.t1, key), content := s.content - {key});
    WithoutFacts(s.t1, key);
    SizesWithout(s.t1, s.content, key);
    NarrowerApart(s, r);
    SizesFrame(r.t1, s.content, r.content);
    SizesFrame(r.t2, s.content, r.content);
  }

  lemma RemoveMoreKeeps(s: Arc, key: Key)
    requires WellFormed(s) && Fits(s) && Apart(s) && key in Keys(s.t2)
    ensures var r := s.(t2 := Without(s.t2, key), content := s.content - {key});
      WellFormed(r) && Fits(r) && Forgets(s, r)
  {
    hide NoDup, SizesMatch, Without, Bytes, SizeOf, Keys;
    var r := s.(t2 := Without(s.t2, key), content := s.content - {key});
    WithoutFacts(s.t2, key);
    SizesWithout(s.t2, s.content, key);
    NarrowerApart(s, r);
    SizesFrame(r.t1, s.content, r.content);
    SizesFrame(r.t2, s.content, r.content);
  }

  lemma {:induction false} RemoveKeeps(s: Arc, keys: seq<Key>)
    requires WellFormed(s) && Fits(s)
    ensures var r := Remove(s, keys);
      && WellFormed(r) && Fits(r) && r.max == s.max
      && (forall k :: k in r.content <==> k in s.content && k !in keys)
      && (forall k <- r.content :: r.content[k] == s.content[k])
    decreases |keys|
  {
    if keys != [] {
      RemoveOneKeeps(s, keys[0]);
      RemoveKeeps(RemoveOne(s, keys[0]), keys[1..]);
    }
  }

  // ---------------------------------------------------------------- where a Put leaves its key

  /** A key survives in the fitting prefix exactly when everything up to and including it fits. */
  lemma {:induction false} FitPrefixKeeps(l: seq<Node>, max: nat, k: Key)
    requires NoDup(l) && k in Keys(l)
    ensures k in Keys(FitPrefix(l, max)) <==> Newer(l, k) + SizeOf(l, k) <= max
    decreases |l|
  {
    if Bytes(l) <= max {
      NewerFacts(l, [], k);
    } else {
      var p, n := Popped(l), Back(l);
      assert l == p + [n];
      PopFacts(l);
      if k in Keys(p) {
        NewerFacts(p, [n], k);
        FitPrefixKeeps(p, max, k);
      } else {
        NewerBack(p, n);
        PrefixKeys(FitPrefix(p, max), p);
      }
    }
  }

  lemma {:induction false} PrefixKeys(p: seq<Node>, l: seq<Node>)
    requires p <= l
    ensures Keys(p) <= Keys(l)
  {
    assert l == p + l[|p|..];
    ConcatFacts(p, l[|p|..]);
  }

  /** Overflow forgets a resident key exactly when the key and what is more recent do not fit. */
  lemma OverflowKnows(s: Arc, key: Key)
    requires WellFormed(s) && key in s.content
    ensures key in Overflow(s).AllKeys() <==>
      if key in Keys(s.t1) then Newer(s.t1, key) + SizeOf(s.t1, key) <= s.max
      else Newer(s.t2, key) + SizeOf(s.t2, key) <= s.max
  {
    ApartIff(s);
    var r := Overflow(s);
    OverflowKeepsRecentPrefixes(s);
    ConcatFacts(s.t1, s.b1);
    ConcatFacts(s.t2, s.b2);
    ConcatFacts(r.t1, r.b1);
    ConcatFacts(r.t2, r.b2);
    PrefixKeys(r.t1 + r.b1, s.t1 + s.b1);
    PrefixKeys(r.t2 + r.b2, s.t2 + s.b2);
    if key in Keys(s.t1) {
      NewerFacts(s.t1, s.b1, key);
      FitPrefixKeeps(s.t1 + s.b1, s.max, key);
    } else {
      NewerFacts(s.t2, s.b2, key);
      FitPrefixKeeps(s.t2 + s.b2, s.max, key);
    }
  }

  /** Bytes that a Put of `key` competes with: those more recent than it in its resident list. */
  ghost function Competing(s: Arc, key: Key): nat
  {
    if key in Keys(s.t1) then Newer(s.t1, key) else if key in Keys(s.t2) then Newer(s.t2, key) else 0
  }

  lemma OverwriteIsKnownIff(s: Arc, key: Key, buffer: Buffer)
    requires WellFormed(s) && Fits(s) && key in s.content
    ensures key in Overwrite(s, key, buffer).AllKeys() <==> Competing(s, key) + |buffer| <= s.max
  {
    var x := Replace(s, key, buffer);
    var l := if key in Keys(s.t1) then s.t1 else s.t2;
    ApartIff(s);
    ReplaceKeeps(s, key, buffer);
    NewerFacts(l, [], key);
    ResizedFacts(l, key, |buffer|);
    OverflowKnows(x, key);
  }

  lemma InsertIsKnown(s: Arc, key: Key, buffer: Buffer)
    requires WellFormed(s) && key !in s.content && TargetDefined(s, key) && |buffer| <= s.max
    ensures key in Overflow(Inserted(s, key, buffer)).AllKeys()
  {
    var x := Inserted(s, key, buffer);
    if key in Keys(s.b1) + Keys(s.b2) {
      PhantomHitKeeps(s, key, buffer);
      ApartIff(x);
    } else {
      MissKeeps(s, key, buffer);
    }
    OverflowKnows(x, key);
  }

  /**
   An accepted Put leaves its key known, resident with the new buffer or in a phantom list, if and
   only if the key still fits behind the more recent keys of its list.  For a key that was not
   resident nothing competes, so it is never lost.
   */
  lemma AcceptedPutIsKnownIff(s: Arc, key: Key, buffer: Buffer)
    requires WellFormed(s) && Fits(s) && TargetDefined(s, key) && |buffer| <= s.max
    ensures var r := Put(s, key, buffer);
      && (key in r.AllKeys() <==> Competing(s, key) + |buffer| <= s.max)
      && (key in r.AllKeys() ==>
            (key in r.content && r.content[key] == buffer) || key in Keys(r.b1) + Keys(r.b2))
  {
    PutKeeps(s, key, buffer);
    if key in s.content {
      OverwriteIsKnownIff(s, key, buffer);
    } else {
      InsertIsKnown(s, key, buffer);
    }
  }

  // ---------------------------------------------------------------- when a Put stays resident

  /** Overflow evicts t1 first: the phase during which t1 is over its target. */
  function ShrinkOnce(s: Arc): (r: Arc)
    requires s.target <= s.max
    ensures r.max == s.max && r.target == s.target && r.t2 == s.t2
    decreases |s.t1|
  {
    if s.Resident() <= s.max || Bytes(s.t1) <= s.target then s else ShrinkOnce(EvictOnce(s))
  }

  lemma {:induction false} ShrinkIsTwoPhase(s: Arc)
    requires s.target <= s.max
    ensures Shrink(s) == Shrink(ShrinkOnce(s))
    decreases |s.t1|
  {
    if s.Resident() > s.max && Bytes(s.t1) > s.target {
      ShrinkIsTwoPhase(EvictOnce(s));
    }
  }

  /** Once t1 is within its target, Shrink takes from t2 alone, and only what it must. */
  lemma {:induction false} ShrinkMoreFront(s: Arc, key: Key)
    requires WellFormed(s) && Bytes(s.t1) <= s.target && s.t2 != [] && s.t2[0].key == key
    ensures key in Shrink(s).content <==> Bytes(s.t1) + s.t2[0].size <= s.max
    decreases |s.t2|
  {
    ApartIff(s);
    if s.Resident() > s.max {
      var r := EvictMore(s);
      EvictMoreKeeps(s);
      ShrinkKeeps(r);
      if |s.t2| == 1 {
        assert s.t2 == [s.t2[0]];
        assert key !in r.content;
      } else {
        ShrinkMoreFront(r, key);
      }
    }
  }

  lemma {:induction false} ShrinkOnceFront(s: Arc, key: Key)
    requires WellFormed(s) && s.t1 != [] && s.t1[0].key == key
    ensures key in Shrink(s).content <==>
      s.t1[0].size <= s.target || s.t1[0].size + Bytes(s.t2) <= s.max
    decreases |s.t1| + |s.t2|
  {
    ApartIff(s);
    if s.Resident() > s.max {
      if Bytes(s.t1) > s.target {
        var r := EvictOnce(s);
        EvictOnceKeeps(s);
        ShrinkKeeps(r);
        if |s.t1| == 1 {
          assert s.t1 == [s.t1[0]];
          assert key !in r.content;
        } else {
          ShrinkOnceFront(r, key);
        }
      } else {
        EvictMoreKeeps(s);
        ShrinkOnceFront(EvictMore(s), key);
      }
    }
  }

  lemma {:induction false} ShrinkOnceKeeps(s: Arc)
    requires WellFormed(s)
    ensures WellFormed(ShrinkOnce(s))
    decreases |s.t1|
  {
    if s.Resident() > s.max && Bytes(s.t1) > s.target {
      EvictOnceKeeps(s);
      ShrinkOnceKeeps(EvictOnce(s));
    }
  }

  /** What the first phase leaves of t1. */
  lemma {:induction false} ShrinkOnceCloses(s: Arc)
    requires s.target <= s.max
    ensures ShrinkOnce(s).t1 == FitPrefix(s.t1, Bound(s))
    decreases |s.t1|
  {
    if s.Resident() > s.max && Bytes(s.t1) > s.target {
      ShrinkOnceCloses(EvictOnce(s));
    }
  }

  function Bound(s: Arc): nat
  {
    if s.target < s.max - Bytes(s.t2) then s.max - Bytes(s.t2) else s.target
  }

  /** What a hit in b2 leaves of t1: the adjustment takes one node even if t1 just meets the new target. */
  function LeftByLowering(t1: seq<Node>, target: nat): seq<Node>
  {
    if Bytes(t1) == target > 0 then (assert t1 != []; Popped(t1)) else FitPrefix(t1, target)
  }

  /** The state in which a phantom hit pushes its key. */
  function Adjusted(s: Arc, key: Key, size: nat): Arc
    requires TargetDefined(s, key) && s.target <= s.max && key in Keys(s.b1) + Keys(s.b2)
  {
    if key in Keys(s.b1) then Adjust(s.(target := RaisedTarget(s, size)), 1)
    else Adjust(s.(target := LoweredTarget(s, size)), 2)
  }

  lemma PhantomStays(s: Arc, key: Key, buffer: Buffer)
    requires WellFormed(s) && Fits(s) && TargetDefined(s, key)
    requires |buffer| <= s.max && key !in s.content && key in Keys(s.b1) + Keys(s.b2)
    ensures var a := Adjusted(s, key, |buffer|);
      key in Put(s, key, buffer).content <==> Bytes(FitPrefix(a.t1, a.target)) + |buffer| <= s.max
  {
    var x := Inserted(s, key, buffer);
    var a := Adjusted(s, key, |buffer|);
    PhantomHitKeeps(s, key, buffer);
    assert x.t1 == a.t1 && x.t2 == [Node(key, |buffer|)] + a.t2 && x.target == a.target && x.max == s.max;
    PushFacts(Node(key, |buffer|), a.t2);
    StaysBesideOnce(x, key);
    hide Inserted, Adjusted, FitPrefix, Bytes;
    assert key in Put(s, key, buffer).content <==> key in Shrink(x).content by {
      ShrinkKeeps(x);
    }
  }

  /** A key just pushed on t2 survives the overflow exactly if it fits beside what the target lets t1 keep. */
  lemma StaysBesideOnce(x: Arc, key: Key)
    requires WellFormed(x) && x.t2 != [] && x.t2[0].key == key && x.t2[0].size <= x.max
    ensures key in Shrink(x).content <==> Bytes(FitPrefix(x.t1, x.target)) + x.t2[0].size <= x.max
  {
    var y := ShrinkOnce(x);
    ShrinkIsTwoPhase(x);
    ShrinkOnceKeeps(x);
    ShrinkOnceCloses(x);
    ShrinkOnceStops(x);
    assert x.t2 == [x.t2[0]] + x.t2[1..];
    PushFacts(x.t2[0], x.t2[1..]);
    if y.Resident() > y.max {
      ShrinkMoreFront(y, key);
    }
  }

  /** The adjustment before the push takes nothing of t1 that the new target would let stay, or one node on a b2 hit. */
  lemma PhantomLeaves(s: Arc, key: Key, buffer: Buffer)
    requires WellFormed(s) && TargetDefined(s, key) && key in Keys(s.b1) + Keys(s.b2)
    ensures var a := Adjusted(s, key, |buffer|);
      FitPrefix(a.t1, a.target) ==
        if key in Keys(s.b1) then FitPrefix(s.t1, RaisedTarget(s, |buffer|))
        else LeftByLowering(s.t1, LoweredTarget(s, |buffer|))
  {
    if s.t1 != [] {
      PopFacts(s.t1);
    }
  }

  lemma {:induction false} PrefixBytes(p: seq<Node>, l: seq<Node>)
    requires p <= l
    ensures Bytes(p) <= Bytes(l)
  {
    assert l == p + l[|p|..];
    ConcatFacts(p, l[|p|..]);
  }

  lemma {:induction false} TryEvictLeavesPrefixes(s: Arc, id: ListId, desired: nat)
    requires s.target <= s.max
    ensures var r := TryEvict(s, id, desired).0; r.t1 <= s.t1 && r.t2 <= s.t2
    decreases Fuel(s, id)
  {
    hide EvictStep, Fuel, Back;
    if desired != 0 && Bytes(s.Of(id)) != 0 {
      EvictStepLeavesPrefixes(s, id);
      var size := Back(s.Of(id)).size;
      TryEvictLeavesPrefixes(EvictStep(s, id), id, if desired > size then desired - size else 0);
    }
  }

  lemma EvictStepLeavesPrefixes(s: Arc, id: ListId)
    requires Bytes(s.Of(id)) > 0 && s.target <= s.max
    ensures EvictStep(s, id).t1 <= s.t1 && EvictStep(s, id).t2 <= s.t2
  {
  }

  /** Making room leaves the recent part of t1 and of t2. */
  lemma MakeRoomLeavesPrefixes(s: Arc, size: nat)
    requires s.target <= s.max
    ensures MakeRoom(s, size).t1 <= s.t1 && MakeRoom(s, size).t2 <= s.t2
  {
    var b1 := if Bytes(s.b1) > 0 then TryEvict(s, B1, size) else (s, size);
    TryEvictLeavesPrefixes(s, B1, size);
    TryEvictLeavesPrefixes(b1.0, T1, b1.1);
    var once := MakeRoomOnce(s, size);
    hide TryEvict;
    MakeRoomMoreLeavesPrefixes(once.0, once.1);
  }

  lemma MakeRoomMoreLeavesPrefixes(s: Arc, size: nat)
    requires s.target <= s.max
    ensures MakeRoomMore(s, size).t1 <= s.t1 && MakeRoomMore(s, size).t2 <= s.t2
  {
    hide TryEvict;
    var b2 := if Bytes(s.b2) > 0 then TryEvict(s, B2, size) else (s, size);
    TryEvictLeavesPrefixes(s, B2, size);
    TryEvictLeavesPrefixes(b2.0, T2, b2.1);
  }

  lemma {:induction false} ShrinkOnceStops(s: Arc)
    requires s.target <= s.max
    ensures var r := ShrinkOnce(s); r.Resident() <= r.max || Bytes(r.t1) <= r.target
    decreases |s.t1|
  {
    if s.Resident() > s.max && Bytes(s.t1) > s.target {
      ShrinkOnceStops(EvictOnce(s));
    }
  }

  // ---------------------------------------------------------------- what evictions cost

  /** Both chains read the same, so all totals are conserved. */
  predicate SameChains(s: Arc, r: Arc)
  {
    r.t1 + r.b1 == s.t1 + s.b1 && r.t2 + r.b2 == s.t2 + s.b2
  }

  lemma SameChainsSameTotal(s: Arc, r: Arc)
    requires SameChains(s, r)
    ensures r.Total() == s.Total()
  {
    ConcatFacts(s.t1, s.b1);
    ConcatFacts(s.t2, s.b2);
    ConcatFacts(r.t1, r.b1);
    ConcatFacts(r.t2, r.b2);
  }

  lemma MoveBack(a: seq<Node>, b: seq<Node>)
    requires a != []
    ensures Popped(a) + ([Back(a)] + b) == a + b
  {
    assert a == Popped(a) + [Back(a)];
  }

  /** Adjusting moves at most one node within a chain. */
  lemma AdjustKeepsChains(s: Arc, phantomIndex: nat)
    requires s.target <= s.max
    ensures SameChains(s, Adjust(s, phantomIndex)) && Adjust(s, phantomIndex).Total() == s.Total()
  {
    if s.t1 != [] {
      MoveBack(s.t1, s.b1);
    }
    if s.t2 != [] {
      MoveBack(s.t2, s.b2);
    }
    hide Back, Popped;
    SameChainsSameTotal(s, Adjust(s, phantomIndex));
  }

  /** `r` has forgotten only the least recent end of the chain that `id` is in, and of that list alone if it is resident. */
  predicate ForgetsEnd(s: Arc, r: Arc, id: ListId)
  {
    match id
    case T1 => r.t2 == s.t2 && r.b2 == s.b2 && r.b1 == s.b1 && r.t1 <= s.t1
    case T2 => r.t1 == s.t1 && r.b1 == s.b1 && r.b2 == s.b2 && r.t2 <= s.t2
    case B1 => r.t2 + r.b2 == s.t2 + s.b2 && r.t1 + r.b1 <= s.t1 + s.b1
    case B2 => r.t1 + r.b1 == s.t1 + s.b1 && r.t2 + r.b2 <= s.t2 + s.b2
  }

  lemma ForgetsEndTransitive(s: Arc, q: Arc, r: Arc, id: ListId)
    requires ForgetsEnd(s, q, id) && ForgetsEnd(q, r, id)
    ensures ForgetsEnd(s, r, id)
  {
  }

  lemma DropForgetsEnd(s: Arc, id: ListId)
    requires s.Of(id) != []
    ensures ForgetsEnd(s, Drop(s, id), id) && Drop(s, id).Total() == s.Total() - Back(s.Of(id)).size
  {
    PopFacts(s.Of(id));
    if id == B1 {
      assert s.t1 + s.b1 == s.t1 + Popped(s.b1) + [Back(s.b1)];
    } else if id == B2 {
      assert s.t2 + s.b2 == s.t2 + Popped(s.b2) + [Back(s.b2)];
    }
  }

  /** One round of the eviction loop forgets exactly the bytes at the back of its list. */
  lemma EvictStepFrees(s: Arc, id: ListId)
    requires Bytes(s.Of(id)) > 0 && s.target <= s.max
    ensures ForgetsEnd(s, EvictStep(s, id), id) && EvictStep(s, id).Total() == s.Total() - Back(s.Of(id)).size
  {
    DropForgetsEnd(s, id);
    var dropped := Drop(s, id);
    AdjustKeepsChains(dropped, 1);
    hide Drop, Adjust, Bytes;
  }

  /**
   The eviction loop frees what it was asked for or leaves its list empty of bytes, and what it could
   not free it returns; it forgets the least recent end of its own chain and nothing of the other one,
   although it may push more onto the very list it drains.
   */
  lemma {:induction false} TryEvictFrees(s: Arc, id: ListId, desired: nat)
    requires s.target <= s.max
    ensures var (r, rest) := TryEvict(s, id, desired);
      && rest <= desired && desired - rest <= s.Total() - r.Total()
      && (rest > 0 ==> Bytes(r.Of(id)) == 0)
      && ForgetsEnd(s, r, id)
    decreases Fuel(s, id)
  {
    hide ForgetsEnd, EvictStep, Fuel;
    if desired == 0 || Bytes(s.Of(id)) == 0 {
      ForgetsNothing(s, id);
    } else {
      var size := Back(s.Of(id)).size;
      var left := if desired > size then desired - size else 0;
      EvictStepFrees(s, id);
      TryEvictFrees(EvictStep(s, id), id, left);
      ForgetsEndTransitive(s, EvictStep(s, id), TryEvict(EvictStep(s, id), id, left).0, id);
    }
  }

  lemma ForgetsNothing(s: Arc, id: ListId)
    ensures ForgetsEnd(s, s, id)
  {
  }

  /** A new key that fits beside what is resident evicts nothing. */
  lemma RoomyPutEvictsNothing(s: Arc, key: Key, buffer: Buffer)
    requires WellFormed(s) && Fits(s) && key !in s.AllKeys() && s.Resident() + |buffer| <= s.max
    ensures TargetDefined(s, key)
    ensures var r := Put(s, key, buffer);
      && r.content == s.content[key := buffer] && r.t1 == [Node(key, |buffer|)] + s.t1 && r.t2 == s.t2
      && r.t1 + r.b1 == FitPrefix(r.t1 + s.b1, s.max) && r.target == s.target
  {
    MissKeeps(s, key, buffer);
    OverflowKeepsRecentPrefixes(Miss(s, key, buffer));
  }

  /** A phantom hit moves the target towards the list it hit, by at least the buffer's size; nothing else does. */
  lemma TargetAdapts(s: Arc, key: Key, buffer: Buffer)
    requires WellFormed(s) && TargetDefined(s, key) && |buffer| <= s.max
    ensures var r := Put(s, key, buffer);
      && (key in Keys(s.b1) ==> r.target >= Min(s.target + |buffer|, s.max))
      && (key in Keys(s.b2) ==> r.target <= s.target && (r.target == 0 || r.target <= s.target - |buffer|))
      && (key !in Keys(s.b1) + Keys(s.b2) ==> r.target == s.target)
  {
    ApartIff(s);
    hide NoDup, Bytes, SizesMatch, Overflow, MakeRoom, Adjust, Keys;
    if key !in s.content && key in Keys(s.b1) + Keys(s.b2) {
      AdjustKeepsTarget(s.(target := if key in Keys(s.b1) then RaisedTarget(s, |buffer|) else LoweredTarget(s, |buffer|)), 1);
      AdjustKeepsTarget(s.(target := if key in Keys(s.b1) then RaisedTarget(s, |buffer|) else LoweredTarget(s, |buffer|)), 2);
    }
  }

  lemma AdjustKeepsTarget(s: Arc, phantomIndex: nat)
    requires s.target <= s.max
    ensures Adjust(s, phantomIndex).target == s.target && Adjust(s, phantomIndex).max == s.max
  {
  }
}
