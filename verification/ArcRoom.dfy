/**
 What making room for a new key does, said of the lists as they are before the call.

 A round of the eviction loop over a phantom list takes its back node and pushes at most one resident
 node to the front of a phantom list, possibly of the very list being drained.  So after `k` rounds
 every list is a stretch of its chain (t1 then b1, t2 then b2), and the number of rounds is the least
 that frees the bytes asked for or leaves the list without any.
 */
module ArcRoom {
  import opened Basics
  import opened CacheLists
  import opened ArcModel
  import opened ArcProofs

  // ---------------------------------------------------------------- rounds in closed form

  /** The longest prefix that is empty of bytes or below `bound`. */
  function Below(l: seq<Node>, bound: nat): (p: seq<Node>)
    ensures p <= l && (Bytes(p) == 0 || Bytes(p) < bound)
    ensures |p| < |l| ==> Bytes(l[..|p| + 1]) > 0 && Bytes(l[..|p| + 1]) >= bound
  {
    if Bytes(l) == 0 || Bytes(l) < bound then l
    else
      var p := Below(Popped(l), bound);
      assert |p| < |l| - 1 ==> Popped(l)[..|p| + 1] == l[..|p| + 1];
      assert |p| == |l| - 1 ==> l[..|p| + 1] == l;
      p
  }

  /** How many nodes `k` rounds leave in t1: they take them while it is over its target. */
  function OnceLeft(s: Arc, k: nat): (n: nat)
    ensures n <= |s.t1| && |s.t1| - n <= k
  {
    Max(|s.t1| - k, |FitPrefix(s.t1, s.target)|)
  }

  /** And in t2: what rounds remain take them while it holds at least its share. */
  function MoreLeft(s: Arc, k: nat): (n: nat)
    requires s.target <= s.max
    ensures n <= |s.t2|
  {
    Max(|s.t2| - (k - (|s.t1| - OnceLeft(s, k))), |Below(s.t2, s.max - s.target)|)
  }

  /** t1 and t2 keep `i` and `j` nodes; the rest goes to the front of their phantom lists. */
  function Shift(s: Arc, i: nat, j: nat): Arc
    requires i <= |s.t1| && j <= |s.t2|
  {
    s.(t1 := s.t1[..i], b1 := s.t1[i..] + s.b1, t2 := s.t2[..j], b2 := s.t2[j..] + s.b2,
       content := s.content - (Keys(s.t1[i..]) + Keys(s.t2[j..])))
  }

  /** The ends of t1 and t2 that `k` rounds take, at the front of their phantom lists. */
  function Shifted(s: Arc, k: nat): Arc
    requires s.target <= s.max
  {
    Shift(s, OnceLeft(s, k), MoreLeft(s, k))
  }

  /** `s` without the last `k` nodes of one list. */
  function Cut(s: Arc, id: ListId, k: nat): Arc
    requires k <= |s.Of(id)|
  {
    var n := |s.Of(id)| - k;
    match id
    case T1 => s.(t1 := s.t1[..n], content := s.content - Keys(s.t1[n..]))
    case T2 => s.(t2 := s.t2[..n], content := s.content - Keys(s.t2[n..]))
    case B1 => s.(b1 := s.b1[..n])
    case B2 => s.(b2 := s.b2[..n])
  }

  predicate Phantom(id: ListId) { id == B1 || id == B2 }

  /** The list that `k` rounds over `id` cut from. */
  function Whole(s: Arc, id: ListId, k: nat): Arc
    requires s.target <= s.max
  {
    if Phantom(id) then Shifted(s, k) else s
  }

  predicate Possible(s: Arc, id: ListId, k: nat)
    requires s.target <= s.max
  {
    k <= |Whole(s, id, k).Of(id)|
  }

  /** The state after `k` rounds over the list `id`. */
  function After(s: Arc, id: ListId, k: nat): (r: Arc)
    requires s.target <= s.max && Possible(s, id, k)
    ensures r.target == s.target && r.max == s.max
  {
    Cut(Whole(s, id, k), id, k)
  }

  /** Rounds end when they have freed the bytes wanted or left the list empty of bytes. */
  predicate Enough(s: Arc, id: ListId, wanted: nat, k: nat)
    requires s.target <= s.max && Possible(s, id, k)
  {
    After(s, id, k).Total() + wanted <= s.Total() || Bytes(After(s, id, k).Of(id)) == 0
  }

  /** The nodes that rounds over `id` can reach. */
  function Reach(s: Arc, id: ListId): nat
  {
    match id
    case T1 => |s.t1| case T2 => |s.t2| case B1 => |s.t1| + |s.b1| case B2 => |s.t2| + |s.b2|
  }

  lemma AnotherRound(s: Arc, id: ListId, k: nat)
    requires s.target <= s.max && Possible(s, id, k) && Bytes(After(s, id, k).Of(id)) > 0
    ensures Possible(s, id, k + 1) && k < Reach(s, id)
  {
    assert |After(s, id, k).Of(id)| == |Whole(s, id, k).Of(id)| - k;
    hide FitPrefix, Below;
  }

  lemma NoRound(s: Arc, id: ListId)
    requires s.target <= s.max
    ensures Possible(s, id, 0)
  {
  }

  /** Another round takes place when the rounds so far are not enough. */
  predicate Continues(s: Arc, id: ListId, wanted: nat, k: nat)
  {
    s.target <= s.max && Possible(s, id, k) && !Enough(s, id, wanted, k)
  }

  lemma ContinuesPossibly(s: Arc, id: ListId, wanted: nat, k: nat)
    requires Continues(s, id, wanted, k)
    ensures s.target <= s.max && Possible(s, id, k + 1) && k < Reach(s, id)
  {
    AnotherRound(s, id, k);
  }

  /** The first number of rounds from `k` on that is enough. */
  function FirstEnough(s: Arc, id: ListId, wanted: nat, k: nat): (n: nat)
    ensures n >= k && !Continues(s, id, wanted, n)
    ensures forall j | k <= j < n :: Continues(s, id, wanted, j)
    decreases Reach(s, id) - k
  {
    hide Continues, Reach;
    if !Continues(s, id, wanted, k) then k
    else ContinuesPossibly(s, id, wanted, k); FirstEnough(s, id, wanted, k + 1)
  }

  lemma FirstIsPossible(s: Arc, id: ListId, wanted: nat, k: nat)
    requires s.target <= s.max && Possible(s, id, k)
    ensures Possible(s, id, FirstEnough(s, id, wanted, k)) && Enough(s, id, wanted, FirstEnough(s, id, wanted, k))
  {
    var n := FirstEnough(s, id, wanted, k);
    hide Possible, Enough, FirstEnough;
    if n > k {
      assert Continues(s, id, wanted, n - 1);
      ContinuesPossibly(s, id, wanted, n - 1);
    }
  }

  /** What is left once `id` has given up `wanted` bytes or all it has. */
  function Drained(s: Arc, id: ListId, wanted: nat): (r: Arc)
    requires s.target <= s.max
    ensures r.target == s.target && r.max == s.max
  {
    NoRound(s, id);
    FirstIsPossible(s, id, wanted, 0);
    After(s, id, FirstEnough(s, id, wanted, 0))
  }

  function Missing(s: Arc, r: Arc, wanted: nat): nat { Max(wanted + r.Total() - s.Total(), 0) }

  // ---------------------------------------------------------------- the rounds are those of the loop

  lemma KeysSplit(l: seq<Node>, i: nat, j: nat)
    requires i <= j <= |l|
    ensures Keys(l[i..]) == Keys(l[i..j]) + Keys(l[j..]) && l[i..] == l[i..j] + l[j..]
  {
    assert l[i..] == l[i..j] + l[j..];
    ConcatFacts(l[i..j], l[j..]);
  }

  lemma KeysOne(n: Node)
    ensures Keys([n]) == {n.key}
  {
    assert [n][1..] == [];
  }

  /** Shorter prefixes have no more bytes. */
  lemma {:induction false} OverTarget(s: Arc, i: nat)
    requires i <= |s.t1|
    ensures Bytes(s.t1[..i]) > s.target <==> i > |FitPrefix(s.t1, s.target)|
  {
    var p := FitPrefix(s.t1, s.target);
    if i <= |p| {
      assert s.t1[..i] == p[..i];
      PrefixBytes(s.t1[..i], p);
    } else {
      assert s.t1[..|p| + 1] <= s.t1[..i];
      PrefixBytes(s.t1[..|p| + 1], s.t1[..i]);
    }
  }

  lemma {:induction false} OverShare(l: seq<Node>, bound: nat, i: nat)
    requires i <= |l|
    ensures Bytes(l[..i]) > 0 && Bytes(l[..i]) >= bound <==> i > |Below(l, bound)|
  {
    var p := Below(l, bound);
    if i <= |p| {
      assert l[..i] == p[..i];
      PrefixBytes(l[..i], p);
    } else {
      assert l[..|p| + 1] <= l[..i];
      PrefixBytes(l[..|p| + 1], l[..i]);
    }
  }

  /** Taking the last node of `l[..i]` to the front of what `l[i..]` is in front of. */
  lemma TakeLast(l: seq<Node>, m: seq<Node>, i: nat)
    requires 0 < i <= |l|
    ensures l[..i] != [] && Popped(l[..i]) == l[..i - 1] && [Back(l[..i])] + (l[i..] + m) == l[i - 1..] + m
    ensures Keys(l[i - 1..]) == Keys(l[i..]) + {Back(l[..i]).key}
  {
    KeysSplit(l, i - 1, i);
    assert l[i - 1..i] == [l[i - 1]];
    KeysOne(l[i - 1]);
  }

  lemma ShiftOnce(s: Arc, i: nat, j: nat)
    requires 0 < i <= |s.t1| && j <= |s.t2|
    ensures Shift(s, i, j).t1 != [] && EvictOnce(Shift(s, i, j)) == Shift(s, i - 1, j)
  {
    TakeLast(s.t1, s.b1, i);
    hide Back, Popped, Keys;
  }

  lemma ShiftMore(s: Arc, i: nat, j: nat)
    requires i <= |s.t1| && 0 < j <= |s.t2|
    ensures Shift(s, i, j).t2 != [] && EvictMore(Shift(s, i, j)) == Shift(s, i, j - 1)
  {
    TakeLast(s.t2, s.b2, j);
    hide Back, Popped, Keys;
  }

  /** Where the adjustment looks, and what it does. */
  lemma AdjustCases(s: Arc)
    requires s.target <= s.max
    ensures Bytes(s.t1) > s.target ==> s.t1 != [] && Adjust(s, 1) == EvictOnce(s)
    ensures Bytes(s.t1) <= s.target && Bytes(s.t2) > 0 && Bytes(s.t2) >= s.max - s.target ==>
      s.t2 != [] && Adjust(s, 1) == EvictMore(s)
    ensures Bytes(s.t1) <= s.target && (Bytes(s.t2) == 0 || Bytes(s.t2) < s.max - s.target) ==> Adjust(s, 1) == s
  {
  }

  lemma AdjustShift(s: Arc, i: nat, j: nat)
    requires s.target <= s.max && i <= |s.t1| && j <= |s.t2|
    ensures Adjust(Shift(s, i, j), 1) ==
      if i > |FitPrefix(s.t1, s.target)| then Shift(s, i - 1, j)
      else if j > |Below(s.t2, s.max - s.target)| then Shift(s, i, j - 1)
      else Shift(s, i, j)
  {
    hide FitPrefix, Below, Bytes, Keys, Adjust, EvictOnce, EvictMore;
    OverTarget(s, i);
    OverShare(s.t2, s.max - s.target, j);
    AdjustCases(Shift(s, i, j));
    if i > |FitPrefix(s.t1, s.target)| {
      ShiftOnce(s, i, j);
    } else if j > |Below(s.t2, s.max - s.target)| {
      ShiftMore(s, i, j);
    }
  }

  /** The adjustment of a round shifts one node more. */
  lemma ShiftsOne(s: Arc, k: nat)
    requires s.target <= s.max
    ensures Adjust(Shifted(s, k), 1) == Shifted(s, k + 1)
  {
    hide FitPrefix, Below, Adjust, OnceLeft, MoreLeft, Shift;
    AdjustShift(s, OnceLeft(s, k), MoreLeft(s, k));
    ShiftsOneNode(s, k);
  }

  lemma ShiftsOneNode(s: Arc, k: nat)
    requires s.target <= s.max
    ensures var i, j := OnceLeft(s, k), MoreLeft(s, k);
      && OnceLeft(s, k + 1) == (if i > |FitPrefix(s.t1, s.target)| then i - 1 else i)
      && MoreLeft(s, k + 1) == (if i > |FitPrefix(s.t1, s.target)| || j <= |Below(s.t2, s.max - s.target)| then j else j - 1)
  {
    hide FitPrefix, Below;
  }

  /** Cutting a phantom list's end and shifting to its front do not meet. */
  lemma AdjustCut(s: Arc, id: ListId, k: nat)
    requires s.target <= s.max && Phantom(id) && k <= |s.Of(id)|
    ensures k <= |Adjust(s, 1).Of(id)| && Adjust(Cut(s, id, k), 1) == Cut(Adjust(s, 1), id, k)
  {
    hide Bytes, Keys;
  }

  lemma DropCut(s: Arc, id: ListId, k: nat)
    requires Phantom(id) && k < |s.Of(id)|
    ensures Cut(s, id, k).Of(id) != [] && Drop(Cut(s, id, k), id) == Cut(s, id, k + 1)
  {
  }

  lemma DropCutResident(s: Arc, id: ListId, k: nat)
    requires !Phantom(id) && k < |s.Of(id)|
    ensures Cut(s, id, k).Of(id) != [] && Drop(Cut(s, id, k), id) == Cut(s, id, k + 1)
  {
    TakeLast(s.Of(id), [], |s.Of(id)| - k);
    hide Keys;
  }

  /** One more round is one more turn of the loop. */
  lemma RoundIsStep(s: Arc, id: ListId, k: nat)
    requires s.target <= s.max && Possible(s, id, k) && Bytes(After(s, id, k).Of(id)) > 0
    ensures Possible(s, id, k + 1) && EvictStep(After(s, id, k), id) == After(s, id, k + 1)
  {
    var w := Whole(s, id, k);
    AnotherRound(s, id, k);
    assert k < |w.Of(id)|;
    if Phantom(id) {
      DropCut(w, id, k);
      AdjustCut(w, id, k + 1);
      ShiftsOne(s, k);
    } else {
      DropCutResident(w, id, k);
    }
    hide Bytes, Adjust, Drop, Cut, Shifted;
  }

  lemma FreedByRound(s: Arc, id: ListId, k: nat)
    requires s.target <= s.max && Possible(s, id, k) && Bytes(After(s, id, k).Of(id)) > 0
    ensures Possible(s, id, k + 1) && After(s, id, k).Of(id) != []
    ensures After(s, id, k + 1).Total() == After(s, id, k).Total() - Back(After(s, id, k).Of(id)).size
  {
    RoundIsStep(s, id, k);
    EvictStepFrees(After(s, id, k), id);
    hide After, Possible, EvictStep, Back;
  }

  lemma MissingAfterRound(s: Arc, v: Arc, r: Arc, freed: nat, wanted: nat)
    requires Missing(s, v, wanted) != 0 && r.Total() == v.Total() - freed
    ensures var left := Missing(s, v, wanted);
      Missing(s, r, wanted) == if left > freed then left - freed else 0
  {
  }

  lemma FirstEnoughUnfolds(s: Arc, id: ListId, wanted: nat, k: nat)
    ensures FirstEnough(s, id, wanted, k) ==
      if Continues(s, id, wanted, k) then FirstEnough(s, id, wanted, k + 1) else k
  {
  }

  lemma ContinuesIff(s: Arc, id: ListId, wanted: nat, k: nat)
    requires s.target <= s.max && Possible(s, id, k)
    ensures Continues(s, id, wanted, k) <==>
      Missing(s, After(s, id, k), wanted) != 0 && Bytes(After(s, id, k).Of(id)) != 0
  {
    hide After, Possible, Bytes;
    MissingIff(s, After(s, id, k), wanted);
  }

  lemma MissingIff(s: Arc, v: Arc, wanted: nat)
    ensures Missing(s, v, wanted) != 0 <==> v.Total() + wanted > s.Total()
  {
  }

  /** From any round on, the loop does the rounds that remain. */
  lemma {:induction false} LoopIsRounds(s: Arc, id: ListId, wanted: nat, k: nat)
    requires s.target <= s.max && Possible(s, id, k)
    ensures var n := FirstEnough(s, id, wanted, k);
      && Possible(s, id, n)
      && TryEvict(After(s, id, k), id, Missing(s, After(s, id, k), wanted))
      == (After(s, id, n), Missing(s, After(s, id, n), wanted))
    decreases Reach(s, id) - k
  {
    hide TryEvict, After, Possible, Reach, EvictStep, Back, Continues, Missing, FirstEnough, Bytes;
    var v := After(s, id, k);
    var left := Missing(s, v, wanted);
    TryEvictUnfolds(v, id, left);
    FirstEnoughUnfolds(s, id, wanted, k);
    ContinuesIff(s, id, wanted, k);
    if Continues(s, id, wanted, k) {
      FreedByRound(s, id, k);
      RoundIsStep(s, id, k);
      AnotherRound(s, id, k);
      MissingAfterRound(s, v, After(s, id, k + 1), Back(v.Of(id)).size, wanted);
      LoopIsRounds(s, id, wanted, k + 1);
    }
  }

  /** The eviction loop drains its list of the bytes wanted and says what it could not get. */
  lemma TryEvictDrains(s: Arc, id: ListId, wanted: nat)
    requires s.target <= s.max
    ensures TryEvict(s, id, wanted) == (Drained(s, id, wanted), Missing(s, Drained(s, id, wanted), wanted))
  {
    NoRound(s, id);
    AfterNone(s, id);
    LoopIsRounds(s, id, wanted, 0);
    hide TryEvict, After;
  }

  lemma AfterNone(s: Arc, id: ListId)
    requires s.target <= s.max && Possible(s, id, 0)
    ensures After(s, id, 0) == s
  {
    hide Shifted, Keys;
    ShiftsNothing(s);
    CutsNothing(s, id);
  }

  lemma CutsNothing(s: Arc, id: ListId)
    ensures Cut(s, id, 0) == s
  {
    assert Keys([]) == {};
  }

  lemma ShiftsNothing(s: Arc)
    requires s.target <= s.max
    ensures Shifted(s, 0) == s
  {
    hide FitPrefix, Below;
    assert OnceLeft(s, 0) == |s.t1| && MoreLeft(s, 0) == |s.t2|;
    assert s.t1[|s.t1|..] == [] && s.t2[|s.t2|..] == [];
  }

  // ---------------------------------------------------------------- making room

  /** Drains a phantom list, and of its resident one what is then missing. */
  function DrainedBoth(s: Arc, first: ListId, second: ListId, wanted: nat): (r: Arc)
    requires s.target <= s.max
    ensures r.target == s.target && r.max == s.max
  {
    var b := Drained(s, first, wanted);
    Drained(b, second, Missing(s, b, wanted))
  }

  /** When t1 and b1 leave no room for a new buffer: b1 gives it up, and t1 what b1 could not. */
  function RoomOnce(s: Arc, size: nat): (r: Arc)
    requires s.target <= s.max
    ensures r.target == s.target && r.max == s.max
  {
    if Bytes(s.t1) + Bytes(s.b1) + size <= s.max then s else DrainedBoth(s, B1, T1, size)
  }

  /**
   The lists that making room for `size` bytes leaves.  When all four of them and what is still missing
   reach twice the limit, b2 gives it up, and t2 what b2 could not; above the limit one node is shifted.
   */
  function Room(s: Arc, size: nat): Arc
    requires s.target <= s.max
  {
    var o := RoomOnce(s, size);
    var rest := Missing(s, o, size);
    if s.Resident() + size <= s.max then s
    else if rest == 0 || o.Total() + rest <= s.max then o
    else if o.Total() + rest < 2 * s.max then Shifted(o, 1)
    else DrainedBoth(o, B2, T2, rest)
  }

  lemma DrainsNothing(s: Arc, id: ListId, wanted: nat)
    requires s.target <= s.max && (wanted == 0 || Bytes(s.Of(id)) == 0)
    ensures Drained(s, id, wanted) == s && Missing(s, s, wanted) == wanted
  {
    TryEvictDrains(s, id, wanted);
    TryEvictUnfolds(s, id, wanted);
  }

  /** Draining one list after another, as both halves of the room making do. */
  lemma DrainTwo(s: Arc, first: ListId, second: ListId, wanted: nat)
    requires s.target <= s.max
    ensures var b := Drained(s, first, wanted);
      var r := if Bytes(s.Of(first)) > 0 then TryEvict(s, first, wanted) else (s, wanted);
      && r == (b, Missing(s, b, wanted))
      && (var d := Drained(b, second, r.1);
          (if r.1 > 0 then TryEvict(b, second, r.1) else r) == (d, Missing(b, d, r.1)))
  {
    hide Drained, TryEvict, Bytes;
    TryEvictDrains(s, first, wanted);
    var b := Drained(s, first, wanted);
    var y := Missing(s, b, wanted);
    TryEvictDrains(b, second, y);
    if Bytes(s.Of(first)) == 0 { DrainsNothing(s, first, wanted); }
    if y == 0 { DrainsNothing(b, second, y); }
  }

  lemma MissingAdds(s: Arc, b: Arc, d: Arc, wanted: nat)
    requires b.Total() <= s.Total() && d.Total() <= b.Total() && (Missing(s, b, wanted) == 0 ==> d == b)
    ensures Missing(b, d, Missing(s, b, wanted)) == Missing(s, d, wanted)
  {
  }

  lemma DrainedTotal(s: Arc, id: ListId, wanted: nat)
    requires s.target <= s.max
    ensures Drained(s, id, wanted).Total() <= s.Total()
  {
    TryEvictDrains(s, id, wanted);
    TryEvictFrees(s, id, wanted);
    hide Drained, TryEvict;
  }

  lemma MakeRoomOnceUnfolds(s: Arc, size: nat)
    requires s.target <= s.max
    ensures MakeRoomOnce(s, size) ==
      if Bytes(s.t1) + Bytes(s.b1) + size <= s.max then (s, size)
      else
        var r := if Bytes(s.b1) > 0 then TryEvict(s, B1, size) else (s, size);
        if r.1 > 0 then TryEvict(r.0, T1, r.1) else r
  {
  }

  lemma MakeRoomOnceIs(s: Arc, size: nat)
    requires s.target <= s.max
    ensures MakeRoomOnce(s, size) == (RoomOnce(s, size), Missing(s, RoomOnce(s, size), size))
  {
    hide Drained, TryEvict, Bytes, MakeRoomOnce, Missing;
    MakeRoomOnceUnfolds(s, size);
    DrainTwo(s, B1, T1, size);
    var b := Drained(s, B1, size);
    DrainedTotal(s, B1, size);
    DrainedTotal(b, T1, Missing(s, b, size));
    if Missing(s, b, size) == 0 { DrainsNothing(b, T1, 0); }
    MissingAdds(s, b, Drained(b, T1, Missing(s, b, size)), size);
    DrainsNothing(s, B1, 0);
    MissingNone(s, size);
  }

  lemma MissingNone(s: Arc, wanted: nat)
    ensures Missing(s, s, wanted) == wanted
  {
  }

  lemma MakeRoomMoreUnfolds(s: Arc, size: nat)
    requires s.target <= s.max
    ensures MakeRoomMore(s, size) ==
      if size == 0 || s.Total() + size <= s.max then s
      else if s.Total() + size >= 2 * s.max then
        var r := if Bytes(s.b2) > 0 then TryEvict(s, B2, size) else (s, size);
        if r.1 > 0 then TryEvict(r.0, T2, r.1).0 else r.0
      else Adjust(s, 1)
  {
  }

  lemma MakeRoomUnfolds(s: Arc, size: nat)
    requires s.target <= s.max
    ensures MakeRoom(s, size) ==
      if s.Resident() + size <= s.max then s
      else MakeRoomMore(MakeRoomOnce(s, size).0, MakeRoomOnce(s, size).1)
  {
  }

  /** Making room for a new key leaves exactly those lists. */
  lemma MakeRoomIs(s: Arc, size: nat)
    requires s.target <= s.max
    ensures MakeRoom(s, size) == Room(s, size)
  {
    hide Drained, TryEvict, Bytes, Shifted, Adjust, MakeRoomOnce, MakeRoomMore, MakeRoom, RoomOnce, Missing;
    var o := RoomOnce(s, size);
    var rest := Missing(s, o, size);
    MakeRoomUnfolds(s, size);
    MakeRoomOnceIs(s, size);
    MakeRoomMoreUnfolds(o, rest);
    DrainTwo(o, B2, T2, rest);
    ShiftsNothing(o);
    ShiftsOne(o, 0);
  }

  // ---------------------------------------------------------------- what that means for the chains

  predicate AllPositive(s: Arc)
  {
    Positive(s.t1) && Positive(s.t2) && Positive(s.b1) && Positive(s.b2)
  }

  /** A least recent end of `l` was cut off: no node more than it takes to free `wanted` bytes. */
  ghost predicate IsCut(l: seq<Node>, p: seq<Node>, wanted: nat)
  {
    && p <= l && (p == [] || Bytes(l) - Bytes(p) >= wanted)
    && (|p| < |l| ==> Bytes(l) - Bytes(l[..|p| + 1]) < wanted)
  }

  /** The chain that rounds over `id` cut from. */
  function Chain(s: Arc, id: ListId): seq<Node>
  {
    match id
    case T1 => s.t1 case T2 => s.t2 case B1 => s.t1 + s.b1 case B2 => s.t2 + s.b2
  }

  /** What rounds over `id` leave alone. */
  predicate Beside(s: Arc, r: Arc, id: ListId)
  {
    match id
    case T1 => r.b1 == s.b1 && r.t2 == s.t2 && r.b2 == s.b2
    case T2 => r.b2 == s.b2 && r.t1 == s.t1 && r.b1 == s.b1
    case B1 => r.t2 + r.b2 == s.t2 + s.b2
    case B2 => r.t1 + r.b1 == s.t1 + s.b1
  }

  lemma WholeReads(s: Arc, id: ListId, k: nat)
    requires s.target <= s.max
    ensures Chain(Whole(s, id, k), id) == Chain(s, id) && Beside(s, Whole(s, id, k), id)
  {
    hide OnceLeft, MoreLeft, Shift;
    ShiftReads(s, OnceLeft(s, k), MoreLeft(s, k));
  }

  lemma CutReads(s: Arc, id: ListId, k: nat)
    requires k <= |s.Of(id)|
    ensures var r, l := Cut(s, id, k), Chain(s, id);
      k <= |l| && Chain(r, id) == l[..|l| - k] && Beside(s, r, id)
  {
  }

  lemma BesideTotal(s: Arc, r: Arc, id: ListId)
    requires Beside(s, r, id)
    ensures s.Total() - r.Total() == Bytes(Chain(s, id)) - Bytes(Chain(r, id))
  {
    ConcatFacts(s.t1, s.b1);
    ConcatFacts(s.t2, s.b2);
    ConcatFacts(r.t1, r.b1);
    ConcatFacts(r.t2, r.b2);
    hide Bytes, Keys, NoDup;
  }

  lemma BesideBoth(s: Arc, w: Arc, r: Arc, id: ListId)
    requires Beside(s, w, id) && Beside(w, r, id)
    ensures Beside(s, r, id)
  {
  }

  lemma AfterCuts(s: Arc, id: ListId, k: nat)
    requires s.target <= s.max && Possible(s, id, k)
    ensures var r, l := After(s, id, k), Chain(s, id);
      && k <= |l| && Chain(r, id) == l[..|l| - k] && Beside(s, r, id)
      && s.Total() - r.Total() == Bytes(l) - Bytes(l[..|l| - k])
  {
    hide Whole, Cut, Chain, Bytes, Beside;
    WholeReads(s, id, k);
    CutReads(Whole(s, id, k), id, k);
    BesideBoth(s, Whole(s, id, k), After(s, id, k), id);
    BesideTotal(s, After(s, id, k), id);
  }

  lemma ShiftReads(s: Arc, i: nat, j: nat)
    requires i <= |s.t1| && j <= |s.t2|
    ensures Shift(s, i, j).t1 + Shift(s, i, j).b1 == s.t1 + s.b1
    ensures Shift(s, i, j).t2 + Shift(s, i, j).b2 == s.t2 + s.b2
  {
  }

  /** Draining a list of non-empty buffers cuts its chain: it frees enough, or the list is empty, and no node too many goes. */
  lemma DrainCuts(s: Arc, id: ListId, wanted: nat)
    requires s.target <= s.max
    ensures var r, l := Drained(s, id, wanted), Chain(s, id); var p := Chain(r, id);
      && p <= l && Beside(s, r, id) && s.Total() - r.Total() == Bytes(l) - Bytes(p)
      && (Bytes(l) - Bytes(p) >= wanted || Bytes(r.Of(id)) == 0)
      && (|p| < |l| ==> Bytes(l) - Bytes(l[..|p| + 1]) < wanted)
  {
    hide After, Possible, Bytes, Chain, Beside, FirstEnough;
    var n := FirstEnough(s, id, wanted, 0);
    NoRound(s, id);
    FirstIsPossible(s, id, wanted, 0);
    AfterCuts(s, id, n);
    if n > 0 {
      assert Continues(s, id, wanted, n - 1);
      AfterCuts(s, id, n - 1);
    }
  }

  /** Cutting a list, and then the one before it in the chain of what the first could not give up. */
  lemma CutsJoin(l: seq<Node>, p: seq<Node>, q: seq<Node>, wanted: nat, rest: nat)
    requires p <= l && q <= p && rest == Max(wanted - (Bytes(l) - Bytes(p)), 0)
    requires |p| < |l| ==> Bytes(l) - Bytes(l[..|p| + 1]) < wanted
    requires |q| < |p| ==> Bytes(p) - Bytes(p[..|q| + 1]) < rest
    requires Bytes(p) - Bytes(q) >= rest || q == []
    ensures IsCut(l, q, wanted)
  {
    hide Bytes;
    if |q| < |p| {
      assert p[..|q| + 1] == l[..|q| + 1];
      PrefixBytes(p[..|q| + 1], p);
    } else {
      assert q == p;
    }
  }

  lemma {:induction false} NoBytesNoNodes(l: seq<Node>)
    requires Positive(l) && Bytes(l) == 0
    ensures l == []
  {
  }

  lemma PositivePrefix(p: seq<Node>, l: seq<Node>)
    requires p <= l && Positive(l)
    ensures Positive(p)
  {
    assert l == p + l[|p|..];
    PositiveConcat(p, l[|p|..]);
  }

  predicate Pair(first: ListId, second: ListId) { (first == B1 && second == T1) || (first == B2 && second == T2) }

  /** When a phantom list has no bytes left, its chain is its resident list. */
  lemma EmptiedChain(s: Arc, first: ListId, second: ListId)
    requires Pair(first, second) && Positive(Chain(s, first)) && Bytes(s.Of(first)) == 0
    ensures Chain(s, first) == s.Of(second) == Chain(s, second) && s.Of(first) == []
  {
    PositiveConcat(s.Of(second), s.Of(first));
    NoBytesNoNodes(s.Of(first));
  }

  lemma SecondDrained(b: Arc, r: Arc, first: ListId, second: ListId)
    requires Pair(first, second) && b.Of(first) == [] && Beside(b, r, second)
    ensures Chain(r, first) == r.Of(second) == Chain(r, second)
  {
  }

  lemma BesidePair(s: Arc, b: Arc, r: Arc, first: ListId, second: ListId)
    requires Pair(first, second) && Beside(s, b, first) && Beside(b, r, second)
    ensures Beside(s, r, first)
  {
  }

  lemma PositiveChain(s: Arc, first: ListId, second: ListId)
    requires Pair(first, second) && AllPositive(s)
    ensures Positive(Chain(s, first))
  {
    PositiveConcat(s.Of(second), s.Of(first));
  }

  /** Both cuts together are one cut of the chain. */
  lemma DrainedBothCuts(s: Arc, first: ListId, second: ListId, wanted: nat)
    requires s.target <= s.max && AllPositive(s) && Pair(first, second)
    ensures var r := DrainedBoth(s, first, second, wanted);
      && Beside(s, r, first) && IsCut(Chain(s, first), Chain(r, first), wanted)
      && s.Total() - r.Total() == Bytes(Chain(s, first)) - Bytes(Chain(r, first))
  {
    hide Drained, Bytes, IsCut, Positive, Chain, Beside, Pair, AllPositive;
    var b := Drained(s, first, wanted);
    var rest := Missing(s, b, wanted);
    var r := Drained(b, second, rest);
    DrainCuts(s, first, wanted);
    DrainCuts(b, second, rest);
    BesidePair(s, b, r, first, second);
    if rest == 0 {
      DrainsNothing(b, second, 0);
      CutsJoin(Chain(s, first), Chain(b, first), Chain(b, first), wanted, 0);
    } else {
      PositiveChain(s, first, second);
      PositivePrefix(Chain(b, first), Chain(s, first));
      EmptiedChain(b, first, second);
      SecondDrained(b, r, first, second);
      PositivePrefix(r.Of(second), b.Of(second));
      if Bytes(r.Of(second)) == 0 { NoBytesNoNodes(r.Of(second)); }
      CutsJoin(Chain(s, first), Chain(b, first), Chain(r, first), wanted, rest);
    }
    BesideTotal(s, r, first);
  }

  lemma PositiveChains(s: Arc)
    ensures AllPositive(s) <==> Positive(s.t1 + s.b1) && Positive(s.t2 + s.b2)
  {
    PositiveConcat(s.t1, s.b1);
    PositiveConcat(s.t2, s.b2);
  }

  lemma RoomOnceCuts(s: Arc, size: nat)
    requires s.target <= s.max && AllPositive(s)
    ensures var o := RoomOnce(s, size); var once, kept := s.t1 + s.b1, o.t1 + o.b1;
      && AllPositive(o) && o.t2 + o.b2 == s.t2 + s.b2
      && s.Total() - o.Total() == Bytes(once) - Bytes(kept) && o.Total() == Bytes(kept) + Bytes(s.t2 + s.b2)
      && (if Bytes(once) + size <= s.max then kept == once else IsCut(once, kept, size))
  {
    hide DrainedBoth, Bytes, AllPositive, Positive;
    var o := RoomOnce(s, size);
    ConcatFacts(s.t1, s.b1);
    PositiveChains(s);
    PositiveChains(o);
    ConcatFacts(o.t1, o.b1);
    ConcatFacts(o.t2, o.b2);
    if Bytes(s.t1) + Bytes(s.b1) + size > s.max {
      DrainedBothCuts(s, B1, T1, size);
      PositivePrefix(o.t1 + o.b1, s.t1 + s.b1);
    }
  }

  lemma ShiftedChains(s: Arc, k: nat)
    requires s.target <= s.max
    ensures var r := Shifted(s, k); r.t1 + r.b1 == s.t1 + s.b1 && r.t2 + r.b2 == s.t2 + s.b2
  {
    ShiftReads(s, OnceLeft(s, k), MoreLeft(s, k));
  }

  /**
   Making room among non-empty buffers: if the new buffer does not fit behind t1 and b1, their chain
   loses its least recent end, the shortest that frees its size; if what that could not free makes all
   lists reach twice the limit, the chain of t2 and b2 loses the shortest end that frees the rest; and
   nothing else is forgotten.
   */
  lemma MakeRoomCuts(s: Arc, size: nat)
    requires s.target <= s.max && AllPositive(s)
    ensures
      var r := MakeRoom(s, size);
      var once, more, kept := s.t1 + s.b1, s.t2 + s.b2, r.t1 + r.b1;
      var rest := Max(size - (Bytes(once) - Bytes(kept)), 0);
      if s.Resident() + size <= s.max then r == s
      else
        && (if Bytes(once) + size <= s.max then kept == once else IsCut(once, kept, size))
        && (if rest > 0 && Bytes(kept) + Bytes(more) + rest >= 2 * s.max then IsCut(more, r.t2 + r.b2, rest)
            else r.t2 + r.b2 == more)
  {
    hide Bytes, IsCut, Shifted, RoomOnce, DrainedBoth, MakeRoom, AllPositive;
    MakeRoomIs(s, size);
    var o := RoomOnce(s, size);
    var rest := Missing(s, o, size);
    RoomOnceCuts(s, size);
    if rest > 0 {
      DrainedBothCuts(o, B2, T2, rest);
      ShiftedChains(o, 1);
    }
  }
}
