/**
 The byte-weighted variant of ARC that backs the in-memory cache, on values.

 A state is four recency lists (`t1` hit once, `t2` hit more than once, and the phantom lists `b1`
 and `b2` of keys recently evicted from them), the buffers of the resident keys, and the adaptive
 target for the bytes of `t1`.  There are no cached totals and no index maps here: those belong to
 the class in InMemoryCache.dfy, whose methods are proved to compute these functions.
 */
module ArcModel {
  import opened Basics
  import opened CacheLists

  datatype ListId = T1 | T2 | B1 | B2

  datatype Arc = Arc(
    max: nat, target: nat,
    t1: seq<Node>, t2: seq<Node>, b1: seq<Node>, b2: seq<Node>,
    content: map<Key, Buffer>)
  {
    function Of(id: ListId): seq<Node>
    {
      match id case T1 => t1 case T2 => t2 case B1 => b1 case B2 => b2
    }

    function Resident(): nat { Bytes(t1) + Bytes(t2) }

    function Total(): nat { Bytes(t1) + Bytes(t2) + Bytes(b1) + Bytes(b2) }

    function AllKeys(): set<Key> { Keys(t1) + Keys(t2) + Keys(b1) + Keys(b2) }
  }

  function Empty(max: nat): Arc { Arc(max, 0, [], [], [], [], map[]) }

  // ---------------------------------------------------------------- invariants

  /** No key is listed twice, in one list or in two. */
  predicate Apart(s: Arc)
  {
    && NoDup(s.t1) && NoDup(s.t2) && NoDup(s.b1) && NoDup(s.b2)
    && Keys(s.t1) !! Keys(s.t2) && Keys(s.t1) !! Keys(s.b1) && Keys(s.t1) !! Keys(s.b2)
    && Keys(s.t2) !! Keys(s.b1) && Keys(s.t2) !! Keys(s.b2) && Keys(s.b1) !! Keys(s.b2)
  }

  /** `Apart` (see ApartIff), and exactly the keys of t1 and t2 have buffers, of the sizes recorded. */
  predicate WellFormed(s: Arc)
  {
    && NoDup((s.t1 + s.b1) + (s.t2 + s.b2))
    && s.content.Keys == Keys(s.t1) + Keys(s.t2)
    && SizesMatch(s.t1, s.content) && SizesMatch(s.t2, s.content)
    && s.target <= s.max
  }

  /** The lists are apart exactly when all their nodes in a row have distinct keys. */
  lemma ApartIff(s: Arc)
    ensures NoDup((s.t1 + s.b1) + (s.t2 + s.b2)) <==> Apart(s)
  {
    ConcatFacts(s.t1 + s.b1, s.t2 + s.b2);
    ConcatFacts(s.t1, s.b1);
    ConcatFacts(s.t2, s.b2);
  }

  /** What holds between any two calls. */
  predicate Fits(s: Arc)
  {
    s.Resident() <= s.max && Bytes(s.t1) + Bytes(s.b1) <= s.max && s.Total() <= 2 * s.max
  }

  // ---------------------------------------------------------------- evictions

  /** The back of t1 becomes the front of b1 and loses its buffer. */
  function EvictOnce(s: Arc): (r: Arc)
    requires s.t1 != []
  {
    var n := Back(s.t1);
    s.(t1 := Popped(s.t1), b1 := [n] + s.b1, content := s.content - {n.key})
  }

  function EvictMore(s: Arc): (r: Arc)
    requires s.t2 != []
  {
    var n := Back(s.t2);
    s.(t2 := Popped(s.t2), b2 := [n] + s.b2, content := s.content - {n.key})
  }

  function Adjust(s: Arc, phantomIndex: nat): (r: Arc)
    requires s.target <= s.max
  {
    if Bytes(s.t1) > s.target || (phantomIndex == 2 && Bytes(s.t1) >= s.target) then
      if Bytes(s.t1) > 0 then EvictOnce(s) else s
    else if Bytes(s.t2) > 0 && Bytes(s.t2) >= s.max - s.target then EvictMore(s)
    else s
  }

  /** Forgets the back node of a list altogether. */
  function Drop(s: Arc, id: ListId): (r: Arc)
    requires s.Of(id) != []
  {
    var l := s.Of(id);
    match id
    case T1 => s.(t1 := Popped(l), content := s.content - {Back(l).key})
    case T2 => s.(t2 := Popped(l), content := s.content - {Back(l).key})
    case B1 => s.(b1 := Popped(l))
    case B2 => s.(b2 := Popped(l))
  }

  /** Nodes that an eviction loop over `id` can still meet: the list itself and the one feeding it. */
  function Fuel(s: Arc, id: ListId): (n: nat)
  {
    if id == T1 || id == B1 then |s.t1| + |s.b1| else |s.t2| + |s.b2|
  }

  function EvictStep(s: Arc, id: ListId): (r: Arc)
    requires Bytes(s.Of(id)) > 0 && s.target <= s.max
    ensures Fuel(r, id) < Fuel(s, id)
    ensures r.max == s.max && r.target == s.target
  {
    var dropped := Drop(s, id);
    if id == B1 || id == B2 then Adjust(dropped, 1) else dropped
  }

  /** The eviction loop: the state it leaves and the bytes it could not free. */
  function TryEvict(s: Arc, id: ListId, desired: nat): (r: (Arc, nat))
    requires s.target <= s.max
    ensures r.0.max == s.max && r.0.target == s.target
    decreases Fuel(s, id)
  {
    if desired == 0 || Bytes(s.Of(id)) == 0 then (s, desired)
    else
      var size := Back(s.Of(id)).size;
      TryEvict(EvictStep(s, id), id, if desired > size then desired - size else 0)
  }

  /** The resident bytes are brought down to the limit, t1 first while it is over its target. */
  function Shrink(s: Arc): (r: Arc)
    requires s.target <= s.max
    ensures r.Resident() <= r.max
    ensures r.max == s.max && r.target == s.target
    decreases |s.t1| + |s.t2|
  {
    if s.Resident() <= s.max then s
    else if Bytes(s.t1) > s.target then Shrink(EvictOnce(s))
    else Shrink(EvictMore(s))
  }

  function TrimOnce(s: Arc): (r: Arc)
    requires Bytes(s.t1) <= s.max
    ensures Bytes(r.t1) + Bytes(r.b1) <= r.max
    ensures r == s.(b1 := r.b1)
    decreases |s.b1|
  {
    if Bytes(s.t1) + Bytes(s.b1) <= s.max then s else TrimOnce(Drop(s, B1))
  }

  function TrimMore(s: Arc): (r: Arc)
    requires Bytes(s.t2) <= s.max
    ensures Bytes(r.t2) + Bytes(r.b2) <= r.max
    ensures r == s.(b2 := r.b2)
    decreases |s.b2|
  {
    if Bytes(s.t2) + Bytes(s.b2) <= s.max then s else TrimMore(Drop(s, B2))
  }

  function Overflow(s: Arc): (r: Arc)
    requires s.target <= s.max
    ensures r.Resident() <= r.max
    ensures Bytes(r.t1) + Bytes(r.b1) <= r.max && Bytes(r.t2) + Bytes(r.b2) <= r.max
    ensures r.max == s.max && r.target == s.target
  {
    TrimMore(TrimOnce(Shrink(s)))
  }

  // ---------------------------------------------------------------- calls

  /** Whether `Put` can compute the new target: it divides by the byte size of the phantom list hit. */
  predicate TargetDefined(s: Arc, key: Key)
  {
    && (key in Keys(s.b1) ==> Bytes(s.b1) < Bytes(s.b2) ==> Bytes(s.b1) > 0)
    && (key in Keys(s.b2) ==> Bytes(s.b2) < Bytes(s.b1) ==> Bytes(s.b2) > 0)
  }

  /** The bytes by which a phantom hit moves the target: the buffer scaled by the lists' ratio. */
  function Scaled(size: nat, own: nat, other: nat): (bytes: nat)
    requires own < other ==> own > 0
    ensures size <= bytes
  {
    if own < other then
      ScaledAtLeast(size, own, other);
      size * other / own
    else size
  }

  lemma ScaledAtLeast(size: nat, own: nat, other: nat)
    requires 0 < own < other
    ensures size <= size * other / own
  {
    var q, m := size * other / own, size * other % own;
    assert q * own + m == size * other;
    assert size * other == size * own + size * (other - own);
    if q < size {
      QuotientBelow(q, size, own);
    }
  }

  lemma QuotientBelow(q: nat, size: nat, own: nat)
    requires q < size
    ensures q * own + own <= size * own
  {
    assert (size - q - 1) * own >= 0;
    assert size * own == (q + 1) * own + (size - q - 1) * own;
  }

  function RaisedTarget(s: Arc, size: nat): (t: nat)
    requires Bytes(s.b1) < Bytes(s.b2) ==> Bytes(s.b1) > 0
  {
    Min(s.target + Scaled(size, Bytes(s.b1), Bytes(s.b2)), s.max)
  }

  function LoweredTarget(s: Arc, size: nat): (t: nat)
    requires Bytes(s.b2) < Bytes(s.b1) ==> Bytes(s.b2) > 0
  {
    var delta := Scaled(size, Bytes(s.b2), Bytes(s.b1));
    if s.target > delta then s.target - delta else 0
  }

  function PushMore(s: Arc, key: Key, buffer: Buffer): Arc
  {
    s.(t2 := [Node(key, |buffer|)] + s.t2, content := s.content[key := buffer])
  }

  function PushOnce(s: Arc, key: Key, buffer: Buffer): Arc
  {
    s.(t1 := [Node(key, |buffer|)] + s.t1, content := s.content[key := buffer])
  }

  function PhantomHit(s: Arc, key: Key, buffer: Buffer): Arc
    requires key in Keys(s.b1) + Keys(s.b2) && TargetDefined(s, key) && s.target <= s.max
  {
    if key in Keys(s.b1) then
      var a := Adjust(s.(target := RaisedTarget(s, |buffer|)), 1);
      PushMore(a.(b1 := Without(a.b1, key)), key, buffer)
    else
      var a := Adjust(s.(target := LoweredTarget(s, |buffer|)), 2);
      PushMore(a.(b2 := Without(a.b2, key)), key, buffer)
  }

  /** First half of the room making for a new key: b1, then t1, when t1 and b1 are too full. */
  function MakeRoomOnce(s: Arc, size: nat): (r: (Arc, nat))
    requires s.target <= s.max
    ensures r.0.max == s.max && r.0.target == s.target
  {
    if Bytes(s.t1) + Bytes(s.b1) + size <= s.max then (s, size)
    else
      var r := if Bytes(s.b1) > 0 then TryEvict(s, B1, size) else (s, size);
      if r.1 > 0 then TryEvict(r.0, T1, r.1) else r
  }

  /** Second half: b2, then t2, when all four lists are nearly twice the limit. */
  function MakeRoomMore(s: Arc, size: nat): (r: Arc)
    requires s.target <= s.max
    ensures r.max == s.max && r.target == s.target
  {
    if size == 0 || s.Total() + size <= s.max then s
    else if s.Total() + size >= 2 * s.max then
      var r := if Bytes(s.b2) > 0 then TryEvict(s, B2, size) else (s, size);
      if r.1 > 0 then TryEvict(r.0, T2, r.1).0 else r.0
    else Adjust(s, 1)
  }

  function MakeRoom(s: Arc, size: nat): (r: Arc)
    requires s.target <= s.max
    ensures r.max == s.max && r.target == s.target
  {
    if s.Resident() + size <= s.max then s
    else var r := MakeRoomOnce(s, size); MakeRoomMore(r.0, r.1)
  }

  function Miss(s: Arc, key: Key, buffer: Buffer): Arc
    requires s.target <= s.max
  {
    PushOnce(MakeRoom(s, |buffer|), key, buffer)
  }

  function Replace(s: Arc, key: Key, buffer: Buffer): Arc
  {
    if key in Keys(s.t1) then
      s.(t1 := Resized(s.t1, key, |buffer|), content := s.content[key := buffer])
    else
      s.(t2 := Resized(s.t2, key, |buffer|), content := s.content[key := buffer])
  }

  function Overwrite(s: Arc, key: Key, buffer: Buffer): Arc
    requires key in s.content && s.target <= s.max
  {
    var r := Replace(s, key, buffer);
    var origin := if key in Keys(s.t1) then SizeOf(s.t1, key) else SizeOf(s.t2, key);
    if |buffer| > origin then Overflow(r) else r
  }

  /** The state of a new key's `Put` just before memory overflow is evicted. */
  function Inserted(s: Arc, key: Key, buffer: Buffer): (r: Arc)
    requires TargetDefined(s, key) && s.target <= s.max
    ensures r.max == s.max && r.target <= r.max
  {
    if key in Keys(s.b1) + Keys(s.b2) then PhantomHit(s, key, buffer) else Miss(s, key, buffer)
  }

  function Put(s: Arc, key: Key, buffer: Buffer): Arc
    requires |buffer| <= s.max ==> TargetDefined(s, key)
    requires s.target <= s.max
  {
    if |buffer| > s.max then s
    else if key in s.content then Overwrite(s, key, buffer)
    else Overflow(Inserted(s, key, buffer))
  }

  /** A hit moves its key to the front of t2. */
  function Get(s: Arc, key: Key): Arc
  {
    if key !in s.content then s
    else if key in Keys(s.t1) then
      s.(t1 := Without(s.t1, key), t2 := [Node(key, |s.content[key]|)] + s.t2)
    else
      s.(t2 := [Node(key, |s.content[key]|)] + Without(s.t2, key))
  }

  function RemoveOne(s: Arc, key: Key): Arc
  {
    if key !in s.content then s
    else if key in Keys(s.t1) then s.(t1 := Without(s.t1, key), content := s.content - {key})
    else s.(t2 := Without(s.t2, key), content := s.content - {key})
  }

  function Remove(s: Arc, keys: seq<Key>): Arc
    decreases |keys|
  {
    if keys == [] then s else Remove(RemoveOne(s, keys[0]), keys[1..])
  }
}
