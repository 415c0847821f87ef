/**
 The in-memory (L1) cache: four lists with cached byte totals, two index maps and the adaptive
 target, updated in place.  Every method is proved to compute the function of ArcModel named in its
 contract, so the cached totals always equal the bytes listed and the index maps always agree with
 the lists.  List nodes are identified by key where the program keeps an iterator.
 */
module InMemoryCaches {
  import opened Basics
  import opened CacheLists
  import opened ArcModel
  import opened ArcProofs

  datatype CacheList = CacheList(size: nat, list: seq<Node>)

  datatype Belonging = Nowhere | In(id: ListId)

  datatype CacheEntry = CacheEntry(buffer: Buffer, belonging: Belonging)

  datatype Lookup = Hit(buffer: Buffer) | MissingKey

  /** The eviction loop discounts a list's back node before it unlinks the node. */
  datatype Dangling = Nothing | BackOf(id: ListId)

  /** List `id` after `key`'s entry left the list it belonged to and became the front of `dst`. */
  function Moved(l: CacheList, id: ListId, key: Key, entry: CacheEntry, dst: ListId): CacheList
    requires entry.belonging == In(id) ==> SizeOf(l.list, key) <= l.size
  {
    var left := if entry.belonging == In(id)
                then CacheList(l.size - SizeOf(l.list, key), Without(l.list, key)) else l;
    if id == dst then CacheList(left.size + |entry.buffer|, [Node(key, |entry.buffer|)] + left.list)
    else left
  }

  lemma {:induction false} WithoutBack(l: seq<Node>)
    requires NoDup(l) && l != []
    ensures Without(l, Back(l).key) == Popped(l) && SizeOf(l, Back(l).key) == Back(l).size
    ensures Back(l).key in Keys(l)
  {
    if |l| == 1 {
      assert l[1..] == Popped(l);
    } else {
      assert Back(l[1..]) == Back(l);
      WithoutBack(l[1..]);
      assert [l[0]] + Popped(l[1..]) == Popped(l);
    }
  }

  /** Pushing in front and popping the back of a non-empty list commute. */
  lemma PushPopped(n: Node, l: seq<Node>)
    requires l != []
    ensures Popped([n] + l) == [n] + Popped(l) && Back([n] + l) == Back(l)
  {
  }

  ghost function Contents(memory: map<Key, CacheEntry>): map<Key, Buffer>
  {
    map k | k in memory :: memory[k].buffer
  }

  function MemoryIndex(content: map<Key, Buffer>, once: set<Key>): map<Key, CacheEntry>
  {
    map k | k in content :: CacheEntry(content[k], In(if k in once then T1 else T2))
  }

  function PhantomIndex(once: set<Key>, more: set<Key>): map<Key, nat>
  {
    map k | k in once + more :: if k in once then 1 else 2
  }

  /** The two index maps name the list every key is in. */
  ghost predicate Indexed(v: Arc, memory: map<Key, CacheEntry>, phantom: map<Key, nat>)
  {
    && memory == MemoryIndex(v.content, Keys(v.t1))
    && phantom == PhantomIndex(Keys(v.b1), Keys(v.b2))
  }

  lemma MemoryRemove(content: map<Key, Buffer>, once: set<Key>, key: Key)
    ensures MemoryIndex(content, once) - {key} == MemoryIndex(content - {key}, once - {key})
    ensures key !in once ==> MemoryIndex(content, once) - {key} == MemoryIndex(content - {key}, once)
    ensures Contents(MemoryIndex(content, once)) == content
  {
  }

  lemma IndexedContents(v: Arc, memory: map<Key, CacheEntry>, phantom: map<Key, nat>)
    requires Indexed(v, memory, phantom)
    ensures Contents(memory) == v.content
  {
  }

  lemma MemoryPut(content: map<Key, Buffer>, once: set<Key>, key: Key, buffer: Buffer)
    ensures MemoryIndex(content, once)[key := CacheEntry(buffer, In(T1))] == MemoryIndex(content[key := buffer], once + {key})
    ensures MemoryIndex(content, once)[key := CacheEntry(buffer, In(T2))] == MemoryIndex(content[key := buffer], once - {key})
  {
  }

  lemma PhantomUpdates(once: set<Key>, more: set<Key>, key: Key)
    ensures PhantomIndex(once, more) - {key} == PhantomIndex(once - {key}, more - {key})
    ensures PhantomIndex(once, more)[key := 1] == PhantomIndex(once + {key}, more)
    ensures key !in once ==> PhantomIndex(once, more)[key := 2] == PhantomIndex(once, more + {key})
  {
  }

  /** The cached totals are the bytes listed. */
  ghost predicate Totalled(v: Arc, t1: nat, t2: nat, b1: nat, b2: nat)
  {
    t1 == Bytes(v.t1) && t2 == Bytes(v.t2) && b1 == Bytes(v.b1) && b2 == Bytes(v.b2)
  }

  /** All that evicting the back node of t1 needs: where it is, its bytes, and the maps after. */
  lemma EvictOnceFacts(v: Arc, memory: map<Key, CacheEntry>, phantom: map<Key, nat>)
    requires WellFormed(v) && Indexed(v, memory, phantom) && v.t1 != []
    ensures var n, r := Back(v.t1), EvictOnce(v);
      && n.key in memory && memory[n.key] == CacheEntry(v.content[n.key], In(T1))
      && n.size == |memory[n.key].buffer|
      && n.key in Keys(v.t1) && SizeOf(v.t1, n.key) == n.size && Without(v.t1, n.key) == Popped(v.t1)
      && Bytes(v.t1) == Bytes(r.t1) + n.size && Bytes(r.b1) == Bytes(v.b1) + n.size
      && WellFormed(r) && Indexed(r, memory - {n.key}, phantom[n.key := 1])
  {
    var n := Back(v.t1);
    ApartIff(v);
    WithoutBack(v.t1);
    SizesPopped(v.t1, v.content);
    PopFacts(v.t1);
    PushFacts(n, v.b1);
    MemoryRemove(v.content, Keys(v.t1), n.key);
    PhantomUpdates(Keys(v.b1), Keys(v.b2), n.key);
    EvictOnceKeeps(v);
  }

  /** All that evicting the back node of t2 needs: where it is, its bytes, and the maps after. */
  lemma EvictMoreFacts(v: Arc, memory: map<Key, CacheEntry>, phantom: map<Key, nat>)
    requires WellFormed(v) && Indexed(v, memory, phantom) && v.t2 != []
    ensures var n, r := Back(v.t2), EvictMore(v);
      && n.key in memory && memory[n.key] == CacheEntry(v.content[n.key], In(T2))
      && n.size == |memory[n.key].buffer|
      && n.key in Keys(v.t2) && SizeOf(v.t2, n.key) == n.size && Without(v.t2, n.key) == Popped(v.t2)
      && Bytes(v.t2) == Bytes(r.t2) + n.size && Bytes(r.b2) == Bytes(v.b2) + n.size
      && WellFormed(r) && Indexed(r, memory - {n.key}, phantom[n.key := 2])
  {
    var n := Back(v.t2);
    ApartIff(v);
    WithoutBack(v.t2);
    SizesPopped(v.t2, v.content);
    PopFacts(v.t2);
    PushFacts(n, v.b2);
    MemoryRemove(v.content, Keys(v.t1), n.key);
    PhantomUpdates(Keys(v.b1), Keys(v.b2), n.key);
    EvictMoreKeeps(v);
  }

  /** Forgetting the back node of a list, and its map entry, keeps the maps in step. */
  lemma DropFacts(v: Arc, id: ListId, memory: map<Key, CacheEntry>, phantom: map<Key, nat>)
    requires WellFormed(v) && Indexed(v, memory, phantom) && v.Of(id) != []
    ensures var n, r := Back(v.Of(id)), Drop(v, id);
      && Bytes(v.Of(id)) == Bytes(r.Of(id)) + n.size && WellFormed(r)
      && (if id == T1 || id == T2 then Indexed(r, memory - {n.key}, phantom)
          else Indexed(r, memory, phantom - {n.key}))
  {
    var n := Back(v.Of(id));
    ApartIff(v);
    PopFacts(v.Of(id));
    MemoryRemove(v.content, Keys(v.t1), n.key);
    PhantomUpdates(Keys(v.b1), Keys(v.b2), n.key);
    assert Keys(v.b1) - {n.key} == if id == B1 then Keys(Popped(v.b1)) else Keys(v.b1);
    assert Keys(v.b2) - {n.key} == if id == B2 then Keys(Popped(v.b2)) else Keys(v.b2);
    DropKeeps(v, id);
  }

  lemma EmptyIsValid(max: nat)
    ensures WellFormed(Empty(max)) && Fits(Empty(max)) && Indexed(Empty(max), map[], map[]) && Totalled(Empty(max), 0, 0, 0, 0)
  {
    assert MemoryIndex(map[], Keys([])) == map[];
    assert PhantomIndex(Keys([]), Keys([])) == map[];
  }

  lemma GetUnknown(v: Arc, key: Key)
    requires key !in v.content
    ensures Get(v, key) == v
  {
  }

  lemma Resident(v: Arc, memory: map<Key, CacheEntry>, phantom: map<Key, nat>, key: Key)
    requires Indexed(v, memory, phantom)
    ensures key in memory <==> key in v.content
    ensures key in memory ==> memory[key].buffer == v.content[key]
  {
  }

  lemma PhantomAt(v: Arc, memory: map<Key, CacheEntry>, phantom: map<Key, nat>, key: Key)
    requires WellFormed(v) && Indexed(v, memory, phantom)
    ensures key in Keys(v.b1) <==> key in phantom && phantom[key] == 1
    ensures key in Keys(v.b2) <==> key in phantom && phantom[key] == 2
    ensures key in phantom ==> key !in v.content && (phantom[key] == 1 || phantom[key] == 2)
    ensures key in memory <==> key in v.content
    ensures key in phantom || key in memory <==> key in v.AllKeys()
  {
    ApartIff(v);
  }

  lemma Retarget(v: Arc, target: nat, memory: map<Key, CacheEntry>, phantom: map<Key, nat>)
    requires WellFormed(v) && Indexed(v, memory, phantom) && target <= v.max
    ensures WellFormed(v.(target := target)) && Indexed(v.(target := target), memory, phantom)
  {
  }

  lemma NotEmpty(l: seq<Node>)
    requires Bytes(l) > 0
    ensures l != []
  {
  }

  lemma ShrinkUnfolds(v: Arc)
    requires v.target <= v.max
    ensures v.Resident() <= v.max ==> Shrink(v) == v
    ensures v.Resident() > v.max && Bytes(v.t1) > v.target ==> v.t1 != [] && Shrink(v) == Shrink(EvictOnce(v))
    ensures v.Resident() > v.max && Bytes(v.t1) <= v.target ==> v.t2 != [] && Shrink(v) == Shrink(EvictMore(v))
  {
  }

  lemma TrimUnfolds(v: Arc)
    ensures Bytes(v.t1) <= v.max && Bytes(v.t1) + Bytes(v.b1) <= v.max ==> TrimOnce(v) == v
    ensures Bytes(v.t1) <= v.max < Bytes(v.t1) + Bytes(v.b1) ==> v.b1 != [] && TrimOnce(v) == TrimOnce(Drop(v, B1))
    ensures Bytes(v.t2) <= v.max && Bytes(v.t2) + Bytes(v.b2) <= v.max ==> TrimMore(v) == v
    ensures Bytes(v.t2) <= v.max < Bytes(v.t2) + Bytes(v.b2) ==> v.b2 != [] && TrimMore(v) == TrimMore(Drop(v, B2))
  {
  }

  /** Taking a key out of its phantom list and pushing it on t2. */
  lemma FromPhantomFacts(a: Arc, key: Key, buffer: Buffer, memory: map<Key, CacheEntry>, phantom: map<Key, nat>)
    requires WellFormed(a) && Indexed(a, memory, phantom) && key in phantom
    ensures var id, r := if phantom[key] == 1 then B1 else B2, PushMore(Unlinked(a, key), key, buffer);
      && key in Keys(a.Of(id)) && Unlinked(a, key).Of(id) == Without(a.Of(id), key)
      && Bytes(a.Of(id)) == Bytes(r.Of(id)) + SizeOf(a.Of(id), key)
      && Bytes(r.t2) == Bytes(a.t2) + |buffer|
      && WellFormed(r) && Indexed(r, memory[key := CacheEntry(buffer, In(T2))], phantom - {key})
  {
    hide WellFormed, Bytes, SizeOf, Without;
    PhantomAt(a, memory, phantom, key);
    UnlinkKeeps(a, key);
    PushMoreKeeps(Unlinked(a, key), key, buffer);
    PushFacts(Node(key, |buffer|), a.t2);
    MemoryPut(a.content, Keys(a.t1), key, buffer);
    PhantomUpdates(Keys(a.b1), Keys(a.b2), key);
    assert Keys(a.t1) - {key} == Keys(a.t1);
  }

  lemma PushOnceFacts(a: Arc, key: Key, buffer: Buffer, memory: map<Key, CacheEntry>, phantom: map<Key, nat>)
    requires WellFormed(a) && Indexed(a, memory, phantom) && key !in a.AllKeys()
    ensures var r := PushOnce(a, key, buffer);
      && Bytes(r.t1) == Bytes(a.t1) + |buffer|
      && WellFormed(r) && Indexed(r, memory[key := CacheEntry(buffer, In(T1))], phantom)
  {
    PushOnceKeeps(a, key, buffer);
    PushFacts(Node(key, |buffer|), a.t1);
    MemoryPut(a.content, Keys(a.t1), key, buffer);
  }

  /** The resident list of a key, its recorded size there, and the size's share of the total. */
  lemma ResidentFacts(v: Arc, key: Key, memory: map<Key, CacheEntry>, phantom: map<Key, nat>)
    requires WellFormed(v) && Indexed(v, memory, phantom) && key in memory
    ensures var id := if key in Keys(v.t1) then T1 else T2;
      && key in v.content && memory[key] == CacheEntry(v.content[key], In(id)) && key in Keys(v.Of(id))
      && SizeOf(v.Of(id), key) == |v.content[key]| && SizeOf(v.Of(id), key) <= Bytes(v.Of(id))
      && (id == T2 ==> key !in Keys(v.t1)) && (id == T1 ==> key !in Keys(v.t2))
      && NoDup(v.t1) && NoDup(v.t2)
  {
    ApartIff(v);
    var l := if key in Keys(v.t1) then v.t1 else v.t2;
    SizesWithout(l, v.content, key);
    NewerFacts(l, [], key);
  }

  lemma ReplaceFacts(v: Arc, key: Key, buffer: Buffer, memory: map<Key, CacheEntry>, phantom: map<Key, nat>)
    requires WellFormed(v) && Indexed(v, memory, phantom) && key in memory
    ensures var id, r := if key in Keys(v.t1) then T1 else T2, Replace(v, key, buffer);
      && Bytes(r.Of(id)) == Bytes(v.Of(id)) - SizeOf(v.Of(id), key) + |buffer|
      && WellFormed(r) && Indexed(r, memory[key := CacheEntry(buffer, In(id))], phantom)
  {
    hide WellFormed, Bytes, SizeOf, Resized;
    ResidentFacts(v, key, memory, phantom);
    var id := if key in Keys(v.t1) then T1 else T2;
    ResizedFacts(v.Of(id), key, |buffer|);
    ReplaceKeeps(v, key, buffer);
    MemoryPut(v.content, Keys(v.t1), key, buffer);
    assert Keys(v.t1) + {key} == Keys(v.t1) || Keys(v.t1) - {key} == Keys(v.t1);
  }

  lemma GetFacts(v: Arc, key: Key, memory: map<Key, CacheEntry>, phantom: map<Key, nat>)
    requires WellFormed(v) && Fits(v) && Indexed(v, memory, phantom) && key in memory
    ensures var moved, r := if key in Keys(v.t1) then SizeOf(v.t1, key) else 0, Get(v, key);
      && Bytes(r.t1) == Bytes(v.t1) - moved && Bytes(r.t2) == Bytes(v.t2) + moved
      && WellFormed(r) && Indexed(r, memory[key := CacheEntry(v.content[key], In(T2))], phantom)
  {
    hide WellFormed, Bytes, SizeOf, Without;
    ResidentFacts(v, key, memory, phantom);
    var id := if key in Keys(v.t1) then T1 else T2;
    WithoutFacts(v.Of(id), key);
    PushFacts(Node(key, |v.content[key]|), if id == T1 then v.t2 else Without(v.t2, key));
    GetKeeps(v, key);
    MemoryPut(v.content, Keys(v.t1), key, v.content[key]);
    assert v.content[key := v.content[key]] == v.content;
    assert id == T2 ==> Keys(v.t1) - {key} == Keys(v.t1);
  }

  lemma RemoveFacts(v: Arc, key: Key, memory: map<Key, CacheEntry>, phantom: map<Key, nat>)
    requires WellFormed(v) && Fits(v) && Indexed(v, memory, phantom) && key in memory
    ensures var id, r := if key in Keys(v.t1) then T1 else T2, RemoveOne(v, key);
      && Bytes(r.Of(id)) == Bytes(v.Of(id)) - |v.content[key]|
      && WellFormed(r) && Fits(r) && Indexed(r, memory - {key}, phantom)
  {
    ResidentFacts(v, key, memory, phantom);
    WithoutFacts(if key in Keys(v.t1) then v.t1 else v.t2, key);
    RemoveOneKeeps(v, key);
    MemoryRemove(v.content, Keys(v.t1), key);
  }

  class InMemoryCache {
    const maxSizeInBytes: nat
    var hits: nat
    var misses: nat
    var adaptiveSizeOfOnce: nat
    var hitOnce: CacheList
    var hitOncePhantom: CacheList
    var moreThanOnce: CacheList
    var moreThanOncePhantom: CacheList
    var memory: map<Key, CacheEntry>
    var phantom: map<Key, nat>

    function ListOf(id: ListId): CacheList
      reads this
    {
      match id
      case T1 => hitOnce
      case T2 => moreThanOnce
      case B1 => hitOncePhantom
      case B2 => moreThanOncePhantom
    }

    /** The nodes of a list that its cached size counts. */
    ghost function Counted(id: ListId, d: Dangling): seq<Node>
      reads this
    {
      var l := ListOf(id).list;
      if d == BackOf(id) && l != [] then Popped(l) else l
    }

    ghost function View(d: Dangling): Arc
      reads this
    {
      Arc(maxSizeInBytes, adaptiveSizeOfOnce,
          Counted(T1, d), Counted(T2, d), Counted(B1, d), Counted(B2, d), Contents(memory))
    }

    ghost predicate Valid(d: Dangling)
      reads this
    {
      && WellFormed(View(d)) && adaptiveSizeOfOnce <= maxSizeInBytes
      && Indexed(View(d), memory, phantom)
      && Totalled(View(d), hitOnce.size, moreThanOnce.size, hitOncePhantom.size, moreThanOncePhantom.size)
      && (d.BackOf? ==> d.id in {B1, B2} && ListOf(d.id).list != [])
    }

    /** Between calls: nothing dangles and the byte bounds hold. */
    ghost predicate Settled()
      reads this
    {
      Valid(Nothing) && Fits(View(Nothing))
    }

    constructor (maxSize: nat)
      ensures Settled() && View(Nothing) == Empty(maxSize) && hits == misses == 0
    {
      maxSizeInBytes, hits, misses, adaptiveSizeOfOnce := maxSize, 0, 0, 0;
      hitOnce, moreThanOnce := CacheList(0, []), CacheList(0, []);
      hitOncePhantom, moreThanOncePhantom := CacheList(0, []), CacheList(0, []);
      memory, phantom := map[], map[];
      new;
      EmptyIsValid(maxSize);
      hide WellFormed, Bytes, Keys, Indexed;
      assert View(Nothing) == Empty(maxSize);
    }

    method SetList(id: ListId, l: CacheList)
      modifies this`hitOnce, this`moreThanOnce, this`hitOncePhantom, this`moreThanOncePhantom
      ensures hitOnce == if id == T1 then l else old(hitOnce)
      ensures moreThanOnce == if id == T2 then l else old(moreThanOnce)
      ensures hitOncePhantom == if id == B1 then l else old(hitOncePhantom)
      ensures moreThanOncePhantom == if id == B2 then l else old(moreThanOncePhantom)
    {
      match id
      case T1 => hitOnce := l;
      case T2 => moreThanOnce := l;
      case B1 => hitOncePhantom := l;
      case B2 => moreThanOncePhantom := l;
    }

    /** Takes the entry out of the list it belongs to, if any, and puts it in front of `dst`. */
    method UnsafePutEntryIntoList(key: Key, entry: CacheEntry, dst: ListId) returns (moved: CacheEntry)
      requires entry.belonging.In? ==>
        var l := ListOf(entry.belonging.id); key in Keys(l.list) && SizeOf(l.list, key) <= l.size
      modifies this`hitOnce, this`moreThanOnce, this`hitOncePhantom, this`moreThanOncePhantom
      ensures moved == CacheEntry(entry.buffer, In(dst))
      ensures hitOnce == Moved(old(hitOnce), T1, key, entry, dst)
      ensures moreThanOnce == Moved(old(moreThanOnce), T2, key, entry, dst)
      ensures hitOncePhantom == Moved(old(hitOncePhantom), B1, key, entry, dst)
      ensures moreThanOncePhantom == Moved(old(moreThanOncePhantom), B2, key, entry, dst)
    {
      if entry.belonging.In? {
        var from := ListOf(entry.belonging.id);
        SetList(entry.belonging.id, CacheList(from.size - SizeOf(from.list, key), Without(from.list, key)));
      }
      var to := ListOf(dst);
      SetList(dst, CacheList(to.size + |entry.buffer|, [Node(key, |entry.buffer|)] + to.list));
      moved := entry.(belonging := In(dst));
    }

    method EvictHitOnceToPhantom(ghost d: Dangling)
      requires Valid(d) && hitOnce.list != []
      modifies this`hitOnce, this`moreThanOnce, this`hitOncePhantom, this`moreThanOncePhantom
      modifies this`memory, this`phantom
      ensures Valid(d) && View(d) == EvictOnce(old(View(d)))
      ensures d.BackOf? ==> Back(ListOf(d.id).list) == old(Back(ListOf(d.id).list))
    {
      hide WellFormed, Bytes, Keys, Indexed, SizeOf, Without, Contents;
      ghost var v := View(d);
      EvictOnceFacts(v, memory, phantom);
      if hitOncePhantom.list != [] {
        PushPopped(Back(v.t1), hitOncePhantom.list);
      }
      var key := Back(hitOnce.list).key;
      var entry := UnsafePutEntryIntoList(key, memory[key], B1);
      phantom := phantom[key := 1];
      memory := memory - {key};
      IndexedContents(EvictOnce(v), memory, phantom);
      assert Counted(B1, d) == [Back(v.t1)] + v.b1;
      assert View(d) == EvictOnce(v);
    }

    method EvictMoreThanOnceToPhantom(ghost d: Dangling)
      requires Valid(d) && moreThanOnce.list != []
      modifies this`hitOnce, this`moreThanOnce, this`hitOncePhantom, this`moreThanOncePhantom
      modifies this`memory, this`phantom
      ensures Valid(d) && View(d) == EvictMore(old(View(d)))
      ensures d.BackOf? ==> Back(ListOf(d.id).list) == old(Back(ListOf(d.id).list))
    {
      hide WellFormed, Bytes, Keys, Indexed, SizeOf, Without, Contents;
      ghost var v := View(d);
      EvictMoreFacts(v, memory, phantom);
      if moreThanOncePhantom.list != [] {
        PushPopped(Back(v.t2), moreThanOncePhantom.list);
      }
      var key := Back(moreThanOnce.list).key;
      var entry := UnsafePutEntryIntoList(key, memory[key], B2);
      phantom := phantom[key := 2];
      memory := memory - {key};
      IndexedContents(EvictMore(v), memory, phantom);
      assert Counted(B2, d) == [Back(v.t2)] + v.b2;
      assert View(d) == EvictMore(v);
    }

    method UnsafeAdaptiveAdjust(phantomIndex: nat, ghost d: Dangling)
      requires Valid(d)
      modifies this`hitOnce, this`moreThanOnce, this`hitOncePhantom, this`moreThanOncePhantom
      modifies this`memory, this`phantom
      ensures Valid(d) && View(d) == Adjust(old(View(d)), phantomIndex)
      ensures d.BackOf? ==> Back(ListOf(d.id).list) == old(Back(ListOf(d.id).list))
    {
      if hitOnce.size > adaptiveSizeOfOnce || (phantomIndex == 2 && hitOnce.size >= adaptiveSizeOfOnce) {
        if hitOnce.size != 0 {
          EvictHitOnceToPhantom(d);
        }
      } else {
        var adaptiveSizeOfT2 := maxSizeInBytes - adaptiveSizeOfOnce;
        if moreThanOnce.size != 0 && moreThanOnce.size >= adaptiveSizeOfT2 {
          EvictMoreThanOnceToPhantom(d);
        }
      }
    }

    /** Frees up to `desired` bytes at the back of one list; the result is what is still missing. */
    method UnsafeTryEvict(id: ListId, desired: nat, inMemory: bool) returns (rest: nat)
      requires Valid(Nothing) && inMemory == (id == T1 || id == T2)
      modifies this`hitOnce, this`moreThanOnce, this`hitOncePhantom, this`moreThanOncePhantom
      modifies this`memory, this`phantom
      ensures Valid(Nothing) && (View(Nothing), rest) == TryEvict(old(View(Nothing)), id, desired)
    {
      hide WellFormed, Keys, Bytes, Indexed, TryEvict, EvictStep;
      rest := desired;
      while rest != 0 && ListOf(id).size != 0
        invariant Valid(Nothing) && adaptiveSizeOfOnce == old(adaptiveSizeOfOnce)
        invariant TryEvict(View(Nothing), id, rest) == TryEvict(old(View(Nothing)), id, desired)
        decreases Fuel(View(Nothing), id)
      {
        TryEvictUnfolds(View(Nothing), id, rest);
        rest := EvictBack(id, rest, inMemory);
      }
      TryEvictUnfolds(View(Nothing), id, rest);
    }

    /** One round of the eviction loop. */
    method EvictBack(id: ListId, desired: nat, inMemory: bool) returns (rest: nat)
      requires Valid(Nothing) && inMemory == (id == T1 || id == T2) && ListOf(id).size > 0
      modifies this`hitOnce, this`moreThanOnce, this`hitOncePhantom, this`moreThanOncePhantom
      modifies this`memory, this`phantom
      ensures Valid(Nothing) && View(Nothing) == EvictStep(old(View(Nothing)), id)
      ensures var size := Back(old(ListOf(id).list)).size;
        rest == if desired > size then desired - size else 0
    {
      hide WellFormed, Keys, Bytes, Indexed, Contents, Adjust;
      ghost var v := View(Nothing);
      NotEmpty(ListOf(id).list);
      DropFacts(v, id, memory, phantom);
      var l := ListOf(id);
      var back := Back(l.list);
      SetList(id, l.(size := l.size - back.size));
      rest := if desired > back.size then desired - back.size else 0;
      if inMemory {
        memory := memory - {back.key};
      } else {
        phantom := phantom - {back.key};
        assert View(BackOf(id)) == Drop(v, id);
        UnsafeAdaptiveAdjust(1, BackOf(id));
      }
      l := ListOf(id);
      SetList(id, l.(list := Popped(l.list)));
      if inMemory {
        IndexedContents(Drop(v, id), memory, phantom);
        assert View(Nothing) == Drop(v, id);
      } else {
        assert View(Nothing) == Adjust(Drop(v, id), 1);
      }
    }

    /** The resident lists are brought within the limit. */
    method EvictResident()
      requires Valid(Nothing)
      modifies this`hitOnce, this`moreThanOnce, this`hitOncePhantom, this`moreThanOncePhantom
      modifies this`memory, this`phantom
      ensures Valid(Nothing) && View(Nothing) == Shrink(old(View(Nothing)))
    {
      hide WellFormed, Keys, Bytes, Indexed, Shrink;
      while hitOnce.size + moreThanOnce.size > maxSizeInBytes
        invariant Valid(Nothing) && adaptiveSizeOfOnce == old(adaptiveSizeOfOnce)
        invariant Shrink(View(Nothing)) == Shrink(old(View(Nothing)))
        decreases |hitOnce.list| + |moreThanOnce.list|
      {
        ShrinkUnfolds(View(Nothing));
        if hitOnce.size > adaptiveSizeOfOnce {
          EvictHitOnceToPhantom(Nothing);
        } else {
          EvictMoreThanOnceToPhantom(Nothing);
        }
      }
      ShrinkUnfolds(View(Nothing));
    }

    /** b1 is cut until it fits beside t1. */
    method TrimHitOncePhantom()
      requires Valid(Nothing) && hitOnce.size <= maxSizeInBytes
      modifies this`hitOncePhantom, this`phantom
      ensures Valid(Nothing) && View(Nothing) == TrimOnce(old(View(Nothing)))
    {
      hide WellFormed, Keys, Bytes, Indexed, TrimOnce;
      while hitOnce.size + hitOncePhantom.size > maxSizeInBytes
        invariant Valid(Nothing)
        invariant TrimOnce(View(Nothing)) == TrimOnce(old(View(Nothing)))
        decreases |hitOncePhantom.list|
      {
        ghost var v := View(Nothing);
        TrimUnfolds(v);
        DropFacts(v, B1, memory, phantom);
        var back := Back(hitOncePhantom.list);
        hitOncePhantom := hitOncePhantom.(size := hitOncePhantom.size - back.size);
        phantom := phantom - {back.key};
        hitOncePhantom := hitOncePhantom.(list := Popped(hitOncePhantom.list));
        assert View(Nothing) == Drop(v, B1);
      }
      TrimUnfolds(View(Nothing));
    }

    /** b2 is cut until it fits beside t2. */
    method TrimMoreThanOncePhantom()
      requires Valid(Nothing) && moreThanOnce.size <= maxSizeInBytes
      modifies this`moreThanOncePhantom, this`phantom
      ensures Valid(Nothing) && View(Nothing) == TrimMore(old(View(Nothing)))
    {
      hide WellFormed, Keys, Bytes, Indexed, TrimMore;
      while moreThanOnce.size + moreThanOncePhantom.size > maxSizeInBytes
        invariant Valid(Nothing)
        invariant TrimMore(View(Nothing)) == TrimMore(old(View(Nothing)))
        decreases |moreThanOncePhantom.list|
      {
        ghost var v := View(Nothing);
        TrimUnfolds(v);
        DropFacts(v, B2, memory, phantom);
        var back := Back(moreThanOncePhantom.list);
        moreThanOncePhantom := moreThanOncePhantom.(size := moreThanOncePhantom.size - back.size);
        phantom := phantom - {back.key};
        moreThanOncePhantom := moreThanOncePhantom.(list := Popped(moreThanOncePhantom.list));
        assert View(Nothing) == Drop(v, B2);
      }
      TrimUnfolds(View(Nothing));
    }

    method EvictMemoryOverflow()
      requires Valid(Nothing)
      modifies this`hitOnce, this`moreThanOnce, this`hitOncePhantom, this`moreThanOncePhantom
      modifies this`memory, this`phantom
      ensures Valid(Nothing) && View(Nothing) == Overflow(old(View(Nothing)))
    {
      hide WellFormed, Keys, Bytes, Indexed, Shrink, TrimOnce, TrimMore;
      EvictResident();
      TrimHitOncePhantom();
      TrimMoreThanOncePhantom();
    }

    method UnsafeOverwrite(key: Key, buffer: Buffer)
      requires Valid(Nothing) && key in memory
      modifies this`hitOnce, this`moreThanOnce, this`hitOncePhantom, this`moreThanOncePhantom
      modifies this`memory, this`phantom
      ensures Valid(Nothing) && View(Nothing) == Overwrite(old(View(Nothing)), key, buffer)
    {
      hide WellFormed, Bytes, Keys, MemoryIndex, PhantomIndex;
      ghost var v := View(Nothing);
      ResidentFacts(v, key, memory, phantom);
      ReplaceFacts(v, key, buffer, memory, phantom);
      var id := memory[key].belonging.id;
      memory := memory[key := memory[key].(buffer := buffer)];
      var l := ListOf(id);
      var originSize := SizeOf(l.list, key);
      SetList(id, CacheList(l.size - originSize + |buffer|, Resized(l.list, key, |buffer|)));
      IndexedContents(Replace(v, key, buffer), memory, phantom);
      assert View(Nothing) == Replace(v, key, buffer);
      if |buffer| > originSize {
        EvictMemoryOverflow();
      }
    }

    /** A hit in b1 raises the target for t1, a hit in b2 lowers it, both by the scaled size. */
    method UpdateTarget(phantomIndex: nat, size: nat)
      requires Valid(Nothing)
      requires phantomIndex == 1 ==> hitOncePhantom.size < moreThanOncePhantom.size ==> hitOncePhantom.size > 0
      requires phantomIndex != 1 ==> moreThanOncePhantom.size < hitOncePhantom.size ==> moreThanOncePhantom.size > 0
      modifies this`adaptiveSizeOfOnce
      ensures Valid(Nothing)
      ensures View(Nothing) == var v := old(View(Nothing));
        v.(target := if phantomIndex == 1 then RaisedTarget(v, size) else LoweredTarget(v, size))
    {
      hide WellFormed, Bytes, Keys, Indexed;
      ghost var v := View(Nothing);
      if phantomIndex == 1 {
        var delta := Scaled(size, hitOncePhantom.size, moreThanOncePhantom.size);
        adaptiveSizeOfOnce := Min(adaptiveSizeOfOnce + delta, maxSizeInBytes);
      } else {
        var delta := Scaled(size, moreThanOncePhantom.size, hitOncePhantom.size);
        adaptiveSizeOfOnce := if adaptiveSizeOfOnce > delta then adaptiveSizeOfOnce - delta else 0;
      }
      Retarget(v, adaptiveSizeOfOnce, memory, phantom);
    }

    method UnsafeCacheInPhantom(phantomIndex: nat, key: Key, buffer: Buffer)
      requires Valid(Nothing) && key in phantom && phantomIndex == phantom[key]
      requires TargetDefined(View(Nothing), key)
      modifies this`hitOnce, this`moreThanOnce, this`hitOncePhantom, this`moreThanOncePhantom
      modifies this`memory, this`phantom, this`adaptiveSizeOfOnce
      ensures Valid(Nothing) && View(Nothing) == PhantomHit(old(View(Nothing)), key, buffer)
    {
      hide WellFormed, Bytes, Keys, Indexed, Adjust;
      PhantomAt(View(Nothing), memory, phantom, key);
      UpdateTarget(phantomIndex, |buffer|);
      AdjustKeeps(View(Nothing), phantomIndex);
      UnsafeAdaptiveAdjust(phantomIndex, Nothing);
      PhantomAt(View(Nothing), memory, phantom, key);
      Promote(phantomIndex, key, buffer);
    }

    /** Moves a key from its phantom list to the front of t2, now with a buffer. */
    method Promote(phantomIndex: nat, key: Key, buffer: Buffer)
      requires Valid(Nothing) && key in phantom && phantomIndex == phantom[key]
      modifies this`hitOnce, this`moreThanOnce, this`hitOncePhantom, this`moreThanOncePhantom
      modifies this`memory, this`phantom
      ensures Valid(Nothing) && View(Nothing) == PushMore(Unlinked(old(View(Nothing)), key), key, buffer)
    {
      hide WellFormed, Bytes, Keys, Indexed;
      ghost var a := View(Nothing);
      PhantomAt(a, memory, phantom, key);
      FromPhantomFacts(a, key, buffer, memory, phantom);
      var entry := CacheEntry(buffer, In(if phantomIndex == 1 then B1 else B2));
      entry := UnsafePutEntryIntoList(key, entry, T2);
      memory := memory[key := entry];
      phantom := phantom - {key};
      IndexedContents(PushMore(Unlinked(a, key), key, buffer), memory, phantom);
      assert View(Nothing) == PushMore(Unlinked(a, key), key, buffer);
    }

    /** Room among t1 and b1 for a new key; the result is what is still missing. */
    method MakeRoomInOnceLists(size: nat) returns (remaining: nat)
      requires Valid(Nothing)
      modifies this`hitOnce, this`moreThanOnce, this`hitOncePhantom, this`moreThanOncePhantom
      modifies this`memory, this`phantom
      ensures Valid(Nothing) && (View(Nothing), remaining) == MakeRoomOnce(old(View(Nothing)), size)
    {
      hide WellFormed, Bytes, Keys, MemoryIndex, PhantomIndex, TryEvict;
      remaining := size;
      if hitOnce.size + hitOncePhantom.size + remaining > maxSizeInBytes {
        if hitOncePhantom.size > 0 {
          remaining := UnsafeTryEvict(B1, remaining, false);
        }
        if remaining != 0 {
          remaining := UnsafeTryEvict(T1, remaining, true);
        }
      }
    }

    /** Room among t2 and b2, or one adjustment, when all lists together are still too full. */
    method MakeRoomInMoreLists(size: nat)
      requires Valid(Nothing)
      modifies this`hitOnce, this`moreThanOnce, this`hitOncePhantom, this`moreThanOncePhantom
      modifies this`memory, this`phantom
      ensures Valid(Nothing) && View(Nothing) == MakeRoomMore(old(View(Nothing)), size)
    {
      hide WellFormed, Bytes, Keys, MemoryIndex, PhantomIndex, TryEvict;
      var remaining := size;
      if remaining != 0 {
        var total := hitOnce.size + moreThanOnce.size + hitOncePhantom.size + moreThanOncePhantom.size;
        if total + remaining > maxSizeInBytes {
          if total + remaining >= 2 * maxSizeInBytes {
            if moreThanOncePhantom.size > 0 {
              remaining := UnsafeTryEvict(B2, remaining, false);
            }
            if remaining != 0 {
              remaining := UnsafeTryEvict(T2, remaining, true);
            }
          } else {
            UnsafeAdaptiveAdjust(1, Nothing);
          }
        }
      }
    }

    method UnsafeCacheIfMiss(key: Key, buffer: Buffer)
      requires Valid(Nothing) && key !in memory && key !in phantom
      modifies this`hitOnce, this`moreThanOnce, this`hitOncePhantom, this`moreThanOncePhantom
      modifies this`memory, this`phantom
      ensures Valid(Nothing) && View(Nothing) == Miss(old(View(Nothing)), key, buffer)
    {
      hide WellFormed, Bytes, Keys, MemoryIndex, PhantomIndex, MakeRoomOnce, MakeRoomMore;
      ghost var v := View(Nothing);
      MakeRoomKeeps(v, |buffer|);
      PhantomAt(v, memory, phantom, key);
      if hitOnce.size + moreThanOnce.size + |buffer| > maxSizeInBytes {
        var remaining := MakeRoomInOnceLists(|buffer|);
        MakeRoomInMoreLists(remaining);
      }
      ghost var a := View(Nothing);
      assert a == MakeRoom(v, |buffer|);
      PushOnceFacts(a, key, buffer, memory, phantom);
      var entry := UnsafePutEntryIntoList(key, CacheEntry(buffer, Nowhere), T1);
      memory := memory[key := entry];
      IndexedContents(PushOnce(a, key, buffer), memory, phantom);
      assert View(Nothing) == PushOnce(a, key, buffer);
    }

    method Put(key: Key, buffer: Buffer) returns (accepted: bool)
      requires Settled() && (|buffer| <= maxSizeInBytes ==> TargetDefined(View(Nothing), key))
      modifies this`hitOnce, this`moreThanOnce, this`hitOncePhantom, this`moreThanOncePhantom
      modifies this`memory, this`phantom, this`adaptiveSizeOfOnce
      ensures accepted == (|buffer| <= maxSizeInBytes)
      ensures Settled() && View(Nothing) == ArcModel.Put(old(View(Nothing)), key, buffer)
    {
      hide WellFormed, Bytes, Keys, MemoryIndex, PhantomIndex, Overflow, Overwrite, PhantomHit, Miss;
      PhantomAt(View(Nothing), memory, phantom, key);
      PutKeeps(View(Nothing), key, buffer);
      if |buffer| > maxSizeInBytes {
        return false;
      }
      if key in memory {
        UnsafeOverwrite(key, buffer);
        return true;
      }
      if key in phantom {
        UnsafeCacheInPhantom(phantom[key], key, buffer);
      } else {
        UnsafeCacheIfMiss(key, buffer);
      }
      EvictMemoryOverflow();
      accepted := true;
    }

    method TryGet(key: Key) returns (result: Lookup)
      requires Settled()
      modifies this`hitOnce, this`moreThanOnce, this`hitOncePhantom, this`moreThanOncePhantom
      modifies this`memory, this`hits, this`misses
      ensures result == var c := old(View(Nothing)).content; if key in c then Hit(c[key]) else MissingKey
      ensures Settled() && View(Nothing) == Get(old(View(Nothing)), key)
      ensures hits == old(hits) + (if result.Hit? then 1 else 0)
      ensures misses == old(misses) + (if result.Hit? then 0 else 1)
    {
      hide WellFormed, Bytes, Keys, Indexed, Get;
      Resident(View(Nothing), memory, phantom, key);
      GetKeeps(View(Nothing), key);
      if key !in memory {
        GetUnknown(View(Nothing), key);
        misses := misses + 1;
        return MissingKey;
      }
      hits := hits + 1;
      result := Hit(memory[key].buffer);
      MoveToFront(key);
    }

    /** A resident key becomes the most recent one. */
    method MoveToFront(key: Key)
      requires Valid(Nothing) && Fits(View(Nothing)) && key in memory
      modifies this`hitOnce, this`moreThanOnce, this`hitOncePhantom, this`moreThanOncePhantom, this`memory
      ensures Valid(Nothing) && View(Nothing) == Get(old(View(Nothing)), key)
    {
      hide WellFormed, Bytes, Keys, MemoryIndex, PhantomIndex, Fits;
      ghost var v := View(Nothing);
      ResidentFacts(v, key, memory, phantom);
      GetFacts(v, key, memory, phantom);
      var entry := UnsafePutEntryIntoList(key, memory[key], T2);
      memory := memory[key := entry];
      IndexedContents(Get(v, key), memory, phantom);
      assert View(Nothing) == Get(v, key);
    }

    method Remove(keys: seq<Key>)
      requires Settled()
      modifies this`hitOnce, this`moreThanOnce, this`hitOncePhantom, this`moreThanOncePhantom, this`memory
      ensures Settled() && View(Nothing) == ArcModel.Remove(old(View(Nothing)), keys)
    {
      hide WellFormed, Bytes, Keys, MemoryIndex, PhantomIndex;
      for i := 0 to |keys|
        invariant Settled()
        invariant ArcModel.Remove(View(Nothing), keys[i..]) == ArcModel.Remove(old(View(Nothing)), keys)
      {
        var key := keys[i];
        assert keys[i..][1..] == keys[i + 1..];
        if key in memory {
          ghost var v := View(Nothing);
          ResidentFacts(v, key, memory, phantom);
          RemoveFacts(v, key, memory, phantom);
          var id := memory[key].belonging.id;
          var l := ListOf(id);
          SetList(id, CacheList(l.size - |memory[key].buffer|, Without(l.list, key)));
          memory := memory - {key};
          IndexedContents(RemoveOne(v, key), memory, phantom);
          assert View(Nothing) == RemoveOne(v, key);
        }
      }
    }

    /** The resident keys, each once, in no particular order. */
    method GetKeys() returns (keys: seq<Key>)
      requires Settled()
      ensures forall k :: k in keys <==> k in View(Nothing).content
      ensures forall i, j :: 0 <= i < j < |keys| ==> keys[i] != keys[j]
    {
      keys := [];
      var left := memory.Keys;
      while left != {}
        invariant left <= memory.Keys
        invariant forall k :: k in keys <==> k in memory && k !in left
        invariant forall i, j :: 0 <= i < j < |keys| ==> keys[i] != keys[j]
        decreases left
      {
        var k :| k in left;
        keys := keys + [k];
        left := left - {k};
      }
    }
  }
}
