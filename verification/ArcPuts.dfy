/**
 What the calls of the in-memory cache leave of its lists, told from the lists before the call.
 */
module ArcPuts {
  import opened Basics
  import opened CacheLists
  import opened ArcModel
  import opened ArcProofs
  import opened ArcRoom

  // ---------------------------------------------------------------- the lists after a Put

  lemma {:induction false} ShrinkMoreCloses(s: Arc)
    requires s.target <= s.max && (s.Resident() <= s.max || Bytes(s.t1) <= s.target)
    ensures Bytes(s.t1) <= s.max
    ensures Shrink(s).t1 == s.t1 && Shrink(s).t2 == FitPrefix(s.t2, s.max - Bytes(s.t1))
    decreases |s.t2|
  {
    if s.Resident() > s.max {
      ShrinkMoreCloses(EvictMore(s));
    }
  }

  /** `r` is what memory overflow leaves of `x`: told by the lists' own bytes. */
  ghost predicate Overflown(x: Arc, r: Arc)
  {
    && r.max == x.max && r.target == x.target
    && r.t1 == FitPrefix(x.t1, Max(x.target, x.max - Bytes(x.t2)))
    && (var room := x.max - Bytes(r.t1); room >= 0 && r.t2 == FitPrefix(x.t2, room))
    && r.t1 + r.b1 == FitPrefix(x.t1 + x.b1, x.max)
    && r.t2 + r.b2 == FitPrefix(x.t2 + x.b2, x.max)
    && r.content.Keys == Keys(r.t1) + Keys(r.t2)
    && (forall k <- r.content :: k in x.content && r.content[k] == x.content[k])
  }

  lemma ShrinkSplits(s: Arc)
    requires s.target <= s.max
    ensures var r := Shrink(s);
      && r.t1 == FitPrefix(s.t1, Max(s.target, s.max - Bytes(s.t2)))
      && Bytes(r.t1) <= s.max && r.t2 == FitPrefix(s.t2, s.max - Bytes(r.t1))
  {
    hide Shrink, ShrinkOnce, FitPrefix, Bytes, Bound;
    var o := ShrinkOnce(s);
    ShrinkIsTwoPhase(s);
    ShrinkOnceCloses(s);
    BoundIs(s);
    ShrinkOnceStops(s);
    ShrinkMoreCloses(o);
  }

  lemma BoundIs(s: Arc)
    requires s.target <= s.max
    ensures Bound(s) == Max(s.target, s.max - Bytes(s.t2))
  {
  }

  lemma OverflowTrims(s: Arc)
    requires s.target <= s.max
    ensures Overflow(s).t1 == Shrink(s).t1 && Overflow(s).t2 == Shrink(s).t2
  {
  }

  /** Overflow splits both chains as the target says, and cuts their ends at the limit. */
  lemma OverflowSplits(s: Arc)
    requires WellFormed(s)
    ensures Overflown(s, Overflow(s))
  {
    hide Overflow, Shrink, FitPrefix, Bytes, NoDup, Keys, SizesMatch, Fits;
    OverflowKeepsRecentPrefixes(s);
    ShrinkSplits(s);
    OverflowTrims(s);
  }

  // ---------------------------------------------------------------- erasing and replacing, by position

  lemma GapBehind(l: seq<Node>, i: nat)
    requires i < |l| - 1
    ensures l[1..][i] == l[i + 1] && [l[0]] + (l[1..][..i] + l[1..][i + 1..]) == l[..i + 1] + l[i + 2..]
  {
  }

  /** Erasing a node closes the gap it leaves and moves nothing else. */
  lemma {:induction false} WithoutAt(l: seq<Node>, k: Key)
    requires k in Keys(l)
    ensures exists i :: 0 <= i < |l| && l[i].key == k && Without(l, k) == l[..i] + l[i + 1..]
    decreases |l|
  {
    if l[0].key == k {
      assert l[..0] + l[1..] == l[1..];
    } else {
      WithoutAt(l[1..], k);
      var i :| 0 <= i < |l[1..]| && l[1..][i].key == k && Without(l[1..], k) == l[1..][..i] + l[1..][i + 1..];
      hide Keys, Without;
      GapBehind(l, i);
    }
  }

  /** Recording a size changes the node in place. */
  lemma {:induction false} ResizedAt(l: seq<Node>, k: Key, size: nat)
    requires k in Keys(l)
    ensures exists i :: 0 <= i < |l| && l[i].key == k && Resized(l, k, size) == l[i := Node(k, size)]
    decreases |l|
  {
    if l[0].key == k {
      assert l[0 := Node(k, size)] == [Node(k, size)] + l[1..];
    } else {
      ResizedAt(l[1..], k, size);
      var i :| 0 <= i < |l[1..]| && l[1..][i].key == k && Resized(l[1..], k, size) == l[1..][i := Node(k, size)];
      assert l[1..][i] == l[i + 1];
      assert l[i + 1 := Node(k, size)] == [l[0]] + l[1..][i := Node(k, size)];
    }
  }

  /** `m` is `l` without the node of `k`. */
  ghost predicate Erased(l: seq<Node>, k: Key, m: seq<Node>)
  {
    exists i :: 0 <= i < |l| && l[i].key == k && m == l[..i] + l[i + 1..]
  }

  /** `m` is `l` with another size for `k`. */
  ghost predicate Recorded(l: seq<Node>, k: Key, size: nat, m: seq<Node>)
  {
    exists i :: 0 <= i < |l| && l[i].key == k && m == l[i := Node(k, size)]
  }

  /** A lookup takes its key out of its list, changing no other node's place, and puts it in front of t2. */
  lemma GetMoves(s: Arc, key: Key)
    requires WellFormed(s) && key in s.content
    ensures var r, n := Get(s, key), Node(key, |s.content[key]|);
      && r.max == s.max && r.target == s.target && r.content == s.content && r.b1 == s.b1 && r.b2 == s.b2
      && (if key in Keys(s.t1) then Erased(s.t1, key, r.t1) && r.t2 == [n] + s.t2
          else r.t1 == s.t1 && r.t2 != [] && r.t2[0] == n && Erased(s.t2, key, r.t2[1..]))
  {
    WithoutAt(if key in Keys(s.t1) then s.t1 else s.t2, key);
    hide Without, Keys, NoDup;
  }

  /** Removing a resident key takes out its node and its buffer and nothing else. */
  lemma RemoveOneErases(s: Arc, key: Key)
    requires WellFormed(s) && key in s.content
    ensures var r := RemoveOne(s, key);
      && r == s.(t1 := r.t1, t2 := r.t2, content := s.content - {key})
      && (if key in Keys(s.t1) then Erased(s.t1, key, r.t1) && r.t2 == s.t2
          else r.t1 == s.t1 && Erased(s.t2, key, r.t2))
  {
    WithoutAt(if key in Keys(s.t1) then s.t1 else s.t2, key);
    hide Without, Keys, NoDup;
  }

  // ---------------------------------------------------------------- the lists after a Put, case by case

  lemma ReplaceRecords(s: Arc, key: Key, buffer: Buffer)
    requires WellFormed(s) && key in s.content
    ensures var x := Replace(s, key, buffer);
      && x == s.(t1 := x.t1, t2 := x.t2, content := s.content[key := buffer])
      && (if key in Keys(s.t1) then Recorded(s.t1, key, |buffer|, x.t1) && x.t2 == s.t2
          else x.t1 == s.t1 && Recorded(s.t2, key, |buffer|, x.t2))
  {
    ResizedAt(if key in Keys(s.t1) then s.t1 else s.t2, key, |buffer|);
    hide Resized, Keys, NoDup;
  }

  lemma ResidentIsNoPhantom(s: Arc, key: Key)
    requires WellFormed(s) && key in s.content
    ensures TargetDefined(s, key)
    ensures (if key in Keys(s.t1) then SizeOf(s.t1, key) else SizeOf(s.t2, key)) == |s.content[key]|
  {
    ApartIff(s);
    SizesWithout(if key in Keys(s.t1) then s.t1 else s.t2, s.content, key);
    hide Keys, NoDup, SizeOf, Without;
  }

  /** A Put of a resident key records its buffer in place; only a larger one can evict. */
  lemma OverwriteLists(s: Arc, key: Key, buffer: Buffer)
    requires WellFormed(s) && key in s.content && |buffer| <= s.max
    ensures TargetDefined(s, key)
    ensures exists x: Arc ::
      && x == s.(t1 := x.t1, t2 := x.t2, content := s.content[key := buffer])
      && (if key in Keys(s.t1) then Recorded(s.t1, key, |buffer|, x.t1) && x.t2 == s.t2
          else x.t1 == s.t1 && Recorded(s.t2, key, |buffer|, x.t2))
      && (if |buffer| > |s.content[key]| then Overflown(x, Put(s, key, buffer)) else Put(s, key, buffer) == x)
  {
    hide Overflow, Keys, Overflown, WellFormed, SizeOf, Recorded, Replace;
    var x := Replace(s, key, buffer);
    assert s.target <= s.max by { TargetInRange(s); }
    ReplaceKeeps(s, key, buffer);
    OverflowSplits(x);
    ReplaceRecords(s, key, buffer);
    ResidentIsNoPhantom(s, key);
  }

  /** A Put of an unknown key makes room, enters the front of t1 and lets memory overflow. */
  lemma NewKeyLists(s: Arc, key: Key, buffer: Buffer)
    requires WellFormed(s) && key !in s.AllKeys() && |buffer| <= s.max
    ensures TargetDefined(s, key)
    ensures var v := Room(s, |buffer|);
      Overflown(v.(t1 := [Node(key, |buffer|)] + v.t1, content := v.content[key := buffer]), Put(s, key, buffer))
  {
    MakeRoomIs(s, |buffer|);
    MissKeeps(s, key, buffer);
    OverflowSplits(Miss(s, key, buffer));
    hide Overflow, Room, MakeRoom, Overflown, Keys;
  }

  /** `d` is `size` scaled by the ratio of the phantom lists' bytes, rounded down; it is never scaled down. */
  ghost predicate IsStep(d: nat, size: nat, own: nat, other: nat)
  {
    if own < other then d * own <= size * other < d * own + own else d == size
  }

  lemma ScaledIsStep(size: nat, own: nat, other: nat)
    requires own < other ==> own > 0
    ensures IsStep(Scaled(size, own, other), size, own, other)
  {
    if own < other {
      var q, m := size * other / own, size * other % own;
      assert q * own + m == size * other;
    }
  }

  lemma ErasedBehind(p: seq<Node>, l: seq<Node>, k: Key, m: seq<Node>)
    requires Erased(l, k, m)
    ensures Erased(p + l, k, p + m)
  {
    var i :| 0 <= i < |l| && l[i].key == k && m == l[..i] + l[i + 1..];
    var j := |p| + i;
    assert (p + l)[j] == l[i];
    assert (p + l)[..j] + (p + l)[j + 1..] == p + (l[..i] + l[i + 1..]);
  }

  /** The target moves towards the phantom list that was hit. */
  ghost predicate Retargeted(s: Arc, key: Key, size: nat, d: nat, target: nat)
  {
    if key in Keys(s.b1) then
      IsStep(d, size, Bytes(s.b1), Bytes(s.b2)) && target == Min(s.target + d, s.max)
    else
      IsStep(d, size, Bytes(s.b2), Bytes(s.b1)) && target == Max(s.target - d, 0)
  }

  /**
   `x` is `s` after a hit in a phantom list, before memory overflows: under the new target t1 may give
   one node to b1, or t2 one to b2, and the key leaves its phantom list for the front of t2.
   */
  ghost predicate Promoted(s: Arc, key: Key, buffer: Buffer, x: Arc)
  {
    var n, lowered := Node(key, |buffer|), key in Keys(s.b2);
    var over := if lowered then Bytes(s.t1) >= x.target else Bytes(s.t1) > x.target;
    var once := over && Bytes(s.t1) > 0;
    var more := !over && Bytes(s.t2) > 0 && Bytes(s.t2) >= s.max - x.target;
    && x.max == s.max
    && (once ==> s.t1 != []) && (more ==> s.t2 != [])
    && x.t1 == (if once then s.t1[..|s.t1| - 1] else s.t1)
    && x.t2 == [n] + (if more then s.t2[..|s.t2| - 1] else s.t2)
    && (if lowered then x.t1 + x.b1 == s.t1 + s.b1 && Erased(s.t2 + s.b2, key, (x.t2 + x.b2)[1..])
        else Erased(s.t1 + s.b1, key, x.t1 + x.b1) && (x.t2 + x.b2)[1..] == s.t2 + s.b2)
    && x.content.Keys == Keys(x.t1) + Keys(x.t2) && x.content[key] == buffer
    && (forall k <- x.content :: k != key ==> k in s.content && x.content[k] == s.content[k])
  }

  lemma AdjustIs(s: Arc, lowered: bool)
    requires s.target <= s.max
    ensures
      var r := Adjust(s, if lowered then 2 else 1);
      var over := if lowered then Bytes(s.t1) >= s.target else Bytes(s.t1) > s.target;
      var once := over && Bytes(s.t1) > 0;
      var more := !over && Bytes(s.t2) > 0 && Bytes(s.t2) >= s.max - s.target;
      && r.max == s.max && r.target == s.target
      && (once ==> s.t1 != []) && (more ==> s.t2 != [])
      && r.t1 == (if once then s.t1[..|s.t1| - 1] else s.t1)
      && r.t2 == (if more then s.t2[..|s.t2| - 1] else s.t2)
  {
  }

  lemma WithoutErases(l: seq<Node>, k: Key)
    requires k in Keys(l)
    ensures Erased(l, k, Without(l, k))
  {
    WithoutAt(l, k);
    hide Keys, Without;
  }

  /** The adjustment under the new target keeps the phantom key in its list. */
  lemma AdjustsBeforePush(v: Arc, key: Key, lowered: bool)
    requires WellFormed(v) && key in Keys(if lowered then v.b2 else v.b1)
    ensures var a := Adjust(v, if lowered then 2 else 1);
      && key in Keys(if lowered then a.b2 else a.b1)
      && a.t1 + a.b1 == v.t1 + v.b1 && a.t2 + a.b2 == v.t2 + v.b2
      && Erased(if lowered then v.t2 + v.b2 else v.t1 + v.b1, key,
                if lowered then a.t2 + Without(a.b2, key) else a.t1 + Without(a.b1, key))
  {
    hide Adjust, Erased, Without, SizesMatch, Keys, NoDup;
    AdjustKeeps(v, if lowered then 2 else 1);
    AdjustKeepsChains(v, if lowered then 2 else 1);
    var a := Adjust(v, if lowered then 2 else 1);
    WithoutErases(if lowered then a.b2 else a.b1, key);
    if lowered {
      ErasedBehind(a.t2, a.b2, key, Without(a.b2, key));
    } else {
      ErasedBehind(a.t1, a.b1, key, Without(a.b1, key));
    }
  }

  lemma PushedChain(n: Node, t: seq<Node>, b: seq<Node>)
    ensures (([n] + t) + b)[1..] == t + b
  {
  }

  lemma PromotesFromOnce(s: Arc, key: Key, buffer: Buffer)
    requires WellFormed(s) && key in Keys(s.b1) && key !in Keys(s.b2) && TargetDefined(s, key)
    ensures Promoted(s, key, buffer, Inserted(s, key, buffer))
  {
    hide Adjust, Erased, Without, SizesMatch, SizeOf, NoDup, Bytes, Keys;
    var v := s.(target := RaisedTarget(s, |buffer|));
    var a := Adjust(v, 1);
    AdjustIs(v, false);
    AdjustsBeforePush(v, key, false);
    PhantomHitKeeps(s, key, buffer);
    PushedChain(Node(key, |buffer|), a.t2, a.b2);
  }

  lemma PromotesFromMore(s: Arc, key: Key, buffer: Buffer)
    requires WellFormed(s) && key in Keys(s.b2) && key !in Keys(s.b1) && TargetDefined(s, key)
    ensures Promoted(s, key, buffer, Inserted(s, key, buffer))
  {
    hide Adjust, Erased, Without, SizesMatch, SizeOf, NoDup, Bytes, Keys;
    var v := s.(target := LoweredTarget(s, |buffer|));
    var a := Adjust(v, 2);
    AdjustIs(v, true);
    AdjustsBeforePush(v, key, true);
    PhantomHitKeeps(s, key, buffer);
    PushedChain(Node(key, |buffer|), a.t2, Without(a.b2, key));
  }

  lemma Retargets(s: Arc, key: Key, buffer: Buffer)
    requires s.target <= s.max && key in Keys(s.b1) + Keys(s.b2) && TargetDefined(s, key)
    ensures exists d: nat :: Retargeted(s, key, |buffer|, d, Inserted(s, key, buffer).target)
  {
    hide Bytes, Keys, Without, Scaled;
    var own, other := if key in Keys(s.b1) then Bytes(s.b1) else Bytes(s.b2), if key in Keys(s.b1) then Bytes(s.b2) else Bytes(s.b1);
    ScaledIsStep(|buffer|, own, other);
    AdjustKeepsTarget(s.(target := if key in Keys(s.b1) then RaisedTarget(s, |buffer|) else LoweredTarget(s, |buffer|)), 1);
    AdjustKeepsTarget(s.(target := if key in Keys(s.b1) then RaisedTarget(s, |buffer|) else LoweredTarget(s, |buffer|)), 2);
    hide IsStep, Adjust;
    assert Retargeted(s, key, |buffer|, Scaled(|buffer|, own, other), Inserted(s, key, buffer).target);
  }

  /** A Put of a key still in a phantom list retargets t1, promotes the key and lets memory overflow. */
  lemma PhantomLists(s: Arc, key: Key, buffer: Buffer)
    requires WellFormed(s) && key in Keys(s.b1) + Keys(s.b2) && TargetDefined(s, key) && |buffer| <= s.max
    ensures key !in s.content
    ensures exists x: Arc, d: nat ::
      && Retargeted(s, key, |buffer|, d, x.target) && Promoted(s, key, buffer, x) && Overflown(x, Put(s, key, buffer))
  {
    hide Promoted, Overflown, Overflow, Retargeted, WellFormed, Keys, Inserted;
    PhantomIsNotResident(s, key);
    var x := Inserted(s, key, buffer);
    assert WellFormed(x) by { PhantomIsKept(s, key, buffer); }
    if key in Keys(s.b1) { PromotesFromOnce(s, key, buffer); } else { PromotesFromMore(s, key, buffer); }
    Retargets(s, key, buffer);
    OverflowSplits(x);
    var d: nat :| Retargeted(s, key, |buffer|, d, x.target);
    assert Retargeted(s, key, |buffer|, d, x.target) && Promoted(s, key, buffer, x) && Overflown(x, Put(s, key, buffer));
  }

  lemma PhantomIsNotResident(s: Arc, key: Key)
    requires WellFormed(s) && key in Keys(s.b1) + Keys(s.b2)
    ensures s.target <= s.max && key !in s.content && !(key in Keys(s.b1) && key in Keys(s.b2))
  {
    ApartIff(s);
    hide Keys, NoDup;
  }

  lemma PhantomIsKept(s: Arc, key: Key, buffer: Buffer)
    requires WellFormed(s) && key in Keys(s.b1) + Keys(s.b2) && TargetDefined(s, key)
    ensures WellFormed(Inserted(s, key, buffer))
  {
    PhantomHitKeeps(s, key, buffer);
  }

  // ---------------------------------------------------------------- when a Put is a hit

  /**
   A Put of a key that was not resident is a hit afterwards exactly when, on a phantom hit, its buffer
   fits beside the part of t1 that the new target lets stay, and else, when it fits the target of t1 or
   beside the part of t2 that making room leaves; all of it can be told before the call. "Put, then TryGet hits"
   is therefore not a law of this cache.
   */
  lemma PutStaysResidentIff(s: Arc, key: Key, buffer: Buffer)
    requires WellFormed(s) && Fits(s) && TargetDefined(s, key)
    requires |buffer| <= s.max && key !in s.content
    ensures key in Put(s, key, buffer).content <==>
      if key in Keys(s.b1) then Bytes(FitPrefix(s.t1, RaisedTarget(s, |buffer|))) + |buffer| <= s.max
      else if key in Keys(s.b2) then Bytes(LeftByLowering(s.t1, LoweredTarget(s, |buffer|))) + |buffer| <= s.max
      else |buffer| <= s.target || |buffer| + Bytes(Room(s, |buffer|).t2) <= s.max
  {
    if key in Keys(s.b1) + Keys(s.b2) {
      PhantomStays(s, key, buffer);
      PhantomLeaves(s, key, buffer);
    } else {
      MakeRoomIs(s, |buffer|);
      MissKeeps(s, key, buffer);
      ShrinkOnceFront(Inserted(s, key, buffer), key);
    }
  }

  /** A new key whose buffer fits the target, or fits beside t2 as it is, is always a hit afterwards. */
  lemma ModestPutStays(s: Arc, key: Key, buffer: Buffer)
    requires WellFormed(s) && Fits(s) && key !in s.AllKeys()
    requires |buffer| <= s.target || |buffer| + Bytes(s.t2) <= s.max
    ensures TargetDefined(s, key) && key in Put(s, key, buffer).content
  {
    ApartIff(s);
    PutStaysResidentIff(s, key, buffer);
    MakeRoomIs(s, |buffer|);
    MakeRoomLeavesPrefixes(s, |buffer|);
    PrefixBytes(Room(s, |buffer|).t2, s.t2);
  }

  /** A full cache that has to forget "y" and then "d" before "c" comes. */
  function Crowded(): Arc
  {
    var buffers := map["b" := seq(60, _ => 'b'), "d" := seq(30, _ => 'd')];
    Arc(100, 0, [], [Node("b", 60), Node("d", 30)], [Node("x", 80)], [Node("y", 10)], buffers)
  }

  lemma CrowdedIsSound()
    ensures WellFormed(Crowded()) && Fits(Crowded()) && AllPositive(Crowded()) && "c" !in Crowded().AllKeys()
  {
    var s := Crowded();
    assert s.t2[1..] == [Node("d", 30)] && [Node("d", 30)][1..] == [] && s.b1[1..] == [] && s.b2[1..] == [];
    ApartIff(s);
  }

  lemma ThreeNodes(l: seq<Node>, p: seq<Node>)
    requires l == [Node("b", 60), Node("d", 30), Node("y", 10)] && IsCut(l, p, 20)
    ensures Bytes(p) == 60
  {
    assert Bytes(l[..0]) == 0;
    OneMore(l, 0);
    OneMore(l, 1);
    OneMore(l, 2);
    assert l[..3] == l && p == l[..|p|];
    hide Bytes;
  }

  lemma OneMore(l: seq<Node>, i: nat)
    requires i < |l|
    ensures Bytes(l[..i + 1]) == Bytes(l[..i]) + l[i].size
  {
    PopFacts(l[..i + 1]);
    assert Popped(l[..i + 1]) == l[..i];
  }

  lemma RoomInTheCrowd()
    ensures Crowded().target <= Crowded().max && Bytes(Room(Crowded(), 20).t2) <= 60
  {
    hide Bytes, Room, MakeRoom, IsCut, AllPositive, WellFormed, Fits;
    var s := Crowded();
    CrowdedIsSound();
    CrowdedBytes();
    assert s.t2 + s.b2 == [Node("b", 60), Node("d", 30), Node("y", 10)];
    MakeRoomCuts(s, 20);
    MakeRoomIs(s, 20);
    var r := Room(s, 20);
    ConcatFacts(s.t1, s.b1);
    ConcatFacts(s.t2, s.b2);
    ThreeNodes(s.t2 + s.b2, r.t2 + r.b2);
    ConcatFacts(r.t2, r.b2);
  }

  /** Making room is what turns the Put of "c" into a hit. */
  lemma RoomMakesAHit(buffer: Buffer)
    requires |buffer| == 20
    ensures TargetDefined(Crowded(), "c") && "c" in Put(Crowded(), "c", buffer).content
  {
    hide Bytes, Keys, Room, Put, AllPositive, WellFormed, Fits;
    CrowdedIsSound();
    RoomInTheCrowd();
    PutStaysResidentIff(Crowded(), "c", buffer);
  }

  lemma CrowdedBytes()
    ensures var s := Crowded(); Bytes(s.t1) == 0 && Bytes(s.t2) == 90 && Bytes(s.b1) == 80 && Bytes(s.b2) == 10
  {
    var s := Crowded();
    assert s.t2[1..] == [Node("d", 30)] && [Node("d", 30)][1..] == [] && s.b1[1..] == [] && s.b2[1..] == [];
  }
}
