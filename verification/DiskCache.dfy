/**
 The disk cache: an index per leaf directory over a file store, kept in agreement through loading,
 Put, TryGet and Purge. The file store is part of the object; whether a file can be created or read is
 the environment's choice and is passed in. A checksum match is the flag `intact`. Each call runs undisturbed
 here; how Purge interleaves with the others is the subject of DiskSteps.
 */
module DiskCaches {
  import opened Basics
  import opened DiskPaths
  import ConsistentHashing

  datatype ActionOnMisplacedEntry = Delete | Move | Ignore

  /** `hash` is the key hash; `shardOf` is the consistent-hash ring, which answers with a configured shard. */
  datatype Options = Options(
    shards: seq<(string, nat)>, action: ActionOnMisplacedEntry, level: nat, subDirs: nat,
    hash: string -> nat, shardOf: nat -> string)

  datatype File = File(body: string, intact: bool, mtime: int)

  datatype Entry = Entry(size: nat, lastAccessed: int)

  const HEADER: nat := 64

  function Size(f: File): nat { HEADER + |f.body| }

  ghost predicate Sound(o: Options)
  {
    && o.level >= 1 && o.subDirs >= 1
    && forall h: nat :: h < SPAN ==> Configured(o, o.shardOf(h))
  }

  ghost predicate Configured(o: Options, shard: string)
  {
    exists i :: 0 <= i < |o.shards| && o.shards[i].0 == shard
  }

  ghost predicate Registered(o: Options, dir: string)
  {
    exists i :: 0 <= i < |o.shards| && IsLeaf(o.shards[i].0, o.level, o.subDirs, dir)
  }

  /**
   The ring of the shards answers every hash with a configured shard: what ConsistentHash.GetNode
   promises of its answer makes the options sound.
   */
  lemma RingIsSound(o: Options, nodeHash: ConsistentHashing.Hash)
    requires o.level >= 1 && o.subDirs >= 1
    requires forall h: nat :: h < SPAN ==>
      ConsistentHashing.Serves(ConsistentHashing.WeightsOf(o.shards), nodeHash, h, o.shardOf(h))
    ensures Sound(o)
  {
    forall h: nat | h < SPAN ensures Configured(o, o.shardOf(h)) {
      var dirs := ConsistentHashing.WeightsOf(o.shards);
      assert ConsistentHashing.Serves(dirs, nodeHash, h, o.shardOf(h));
      var n: ConsistentHashing.Node :| n.dir == o.shardOf(h) && ConsistentHashing.Nearest(dirs, nodeHash, h, n);
      ConsistentHashing.InSpan(dirs, nodeHash, n);
      ConsistentHashing.OnlyConfigured(o.shards, n.dir);
    }
  }

  // ---------------------------------------------------------------- where a key belongs

  function LeafOf(o: Options, key: string): string
    requires o.subDirs >= 1
  {
    Leaf(o.shardOf(o.hash(key) % SPAN), Subdirs(o.hash(key), o.level, o.subDirs))
  }

  function PathOf(o: Options, key: string): string
    requires o.subDirs >= 1 && Bytes(key)
  {
    FileOf(LeafOf(o, key), key)
  }

  predicate TooLong(key: string)
    requires Bytes(key)
  {
    |Encode(key)| > PATH_MAX
  }

  /** Every key's path lies in a registered leaf directory and reads back as the key. */
  lemma PathIsRegistered(o: Options, key: string)
    requires Sound(o) && Bytes(key)
    ensures Registered(o, LeafOf(o, key))
    ensures DirectoryName(PathOf(o, key)) == LeafOf(o, key) && KeyFromPath(PathOf(o, key)) == Some(key)
  {
    FileReadsBack(LeafOf(o, key), key);
    var ds := Subdirs(o.hash(key), o.level, o.subDirs);
    var shard := o.shardOf(o.hash(key) % SPAN);
    assert Configured(o, shard);
    var i :| 0 <= i < |o.shards| && o.shards[i].0 == shard;
    assert IsLeaf(shard, o.level, o.subDirs, Leaf(shard, ds));
  }

  /** `n` directories up. */
  function Up(path: string, n: nat): string
  {
    if n == 0 then path else DirectoryName(Up(path, n - 1))
  }

  lemma {:induction false} UpFromLeaf(shard: string, ds: seq<nat>, file: string, n: nat)
    requires n <= |ds| && DirectoryName(file) == Leaf(shard, ds)
    ensures Up(file, n + 1) == Leaf(shard, ds[..|ds| - n])
  {
    if n == 0 {
      assert ds[..|ds|] == ds;
    } else {
      UpFromLeaf(shard, ds, file, n - 1);
      var here := ds[..|ds| - n + 1];
      LeafReadsBack(shard, here);
      assert here[..|here| - 1] == ds[..|ds| - n];
    }
  }

  /**
   The path of a key leads from the shard that the ring gives its 32-bit hash through one directory per level,
   each named in decimal by the next digit of the full hash.
   */
  lemma PathSpellsHash(o: Options, key: string, j: nat)
    requires o.subDirs >= 1 && Bytes(key)
    ensures Up(PathOf(o, key), o.level + 1) == o.shardOf(o.hash(key) % 0x1_0000_0000)
    ensures j < o.level ==>
      var below, above := Up(PathOf(o, key), o.level - j), Up(PathOf(o, key), o.level - j + 1);
      && above + "/" <= below && Decimals.AllDigits(below[|above| + 1..])
      && Power(o.subDirs, j) > 0
      && Decimals.Value(below[|above| + 1..]) == o.hash(key) / Power(o.subDirs, j) % o.subDirs
  {
    hide Up, FileOf, Leaf, DirectoryName, Subdirs;
    var h := o.hash(key);
    var shard, ds := o.shardOf(h % SPAN), Subdirs(h, o.level, o.subDirs);
    FileReadsBack(Leaf(shard, ds), key);
    UpFromLeaf(shard, ds, PathOf(o, key), o.level);
    LeafReadsBack(shard, [0]);
    assert ds[..0] == [];
    if j < o.level {
      UpFromLeaf(shard, ds, PathOf(o, key), o.level - j - 1);
      UpFromLeaf(shard, ds, PathOf(o, key), o.level - j);
      var here := ds[..j + 1];
      LeafReadsBack(shard, here);
      assert here[..|here| - 1] == ds[..j];
      SubdirAt(h, o.level, o.subDirs, j);
    }
  }

  // ---------------------------------------------------------------- the index and the files

  type Index = map<string, map<string, Entry>>
  type Files = map<string, File>

  ghost predicate IndexAgrees(o: Options, entries: Index, files: Files)
    requires o.subDirs >= 1
  {
    forall d, k :: d in entries && k in entries[d] ==> Backed(o, files, d, k)
  }

  /** An entry in its place, with its file. */
  ghost predicate Backed(o: Options, files: Files, d: string, k: string)
    requires o.subDirs >= 1
  {
    Bytes(k) && !TooLong(k) && d == LeafOf(o, k) && PathOf(o, k) in files
  }

  /** A file named by this cache, in one of its directories, though maybe not in the right one. */
  ghost predicate OurFile(o: Options, path: string)
  {
    exists d: string, k: string :: Registered(o, d) && Bytes(k) && path == FileOf(d, k)
  }

  ghost predicate AllOurs(o: Options, files: Files)
  {
    forall p <- files :: OurFile(o, p)
  }

  /** The file is where its key belongs. */
  predicate Placed(o: Options, path: string)
    requires o.subDirs >= 1
  {
    var key := KeyFromPath(path);
    key.Some? && Bytes(key.value) && !TooLong(key.value) && DirectoryName(path) == LeafOf(o, key.value)
  }

  lemma PlacedPath(o: Options, path: string)
    requires o.subDirs >= 1 && OurFile(o, path)
    ensures KeyFromPath(path).Some? && Bytes(KeyFromPath(path).value)
    ensures Registered(o, DirectoryName(path)) && path == FileOf(DirectoryName(path), KeyFromPath(path).value)
    ensures Placed(o, path) ==> path == PathOf(o, KeyFromPath(path).value)
  {
    var d: string, k: string :| Registered(o, d) && Bytes(k) && path == FileOf(d, k);
    FileReadsBack(d, k);
  }

  predicate Indexed(entries: Index, path: string)
  {
    var key := KeyFromPath(path);
    DirectoryName(path) in entries && key.Some? && key.value in entries[DirectoryName(path)]
  }

  // ---------------------------------------------------------------- forgetting files

  function Trim(d: string, entries: map<string, Entry>, gone: set<string>): map<string, Entry>
  {
    map k | k in entries && !(Bytes(k) && FileOf(d, k) in gone) :: entries[k]
  }

  /** The index without the entries of some files. */
  function Without(entries: Index, gone: set<string>): Index
  {
    map d | d in entries :: Trim(d, entries[d], gone)
  }

  lemma WithoutNothing(entries: Index)
    ensures Without(entries, {}) == entries
  {
    forall d | d in entries ensures Trim(d, entries[d], {}) == entries[d] {
    }
  }

  lemma TrimOneMore(e: string, entries: map<string, Entry>, gone: set<string>, d: string, k: string)
    requires Bytes(k)
    ensures Trim(e, entries, gone + {FileOf(d, k)}) ==
      if e == d then Trim(e, entries, gone) - {k} else Trim(e, entries, gone)
  {
    forall l | l in entries && Bytes(l) ensures FileOf(e, l) == FileOf(d, k) <==> e == d && l == k {
      if FileOf(e, l) == FileOf(d, k) {
        FileInjective(e, l, d, k);
      }
    }
    hide FileOf, Bytes;
    assert Trim(e, entries, gone + {FileOf(d, k)}).Keys == (if e == d then Trim(e, entries, gone) - {k} else Trim(e, entries, gone)).Keys;
  }

  lemma WithoutOneMore(entries: Index, gone: set<string>, d: string, k: string)
    requires Bytes(k)
    ensures var w := Without(entries, gone);
      Without(entries, gone + {FileOf(d, k)}) == if d in w && k in w[d] then w[d := w[d] - {k}] else w
  {
    hide Trim, FileOf, Bytes;
    forall e | e in entries
      ensures Without(entries, gone + {FileOf(d, k)})[e] == if e == d then Without(entries, gone)[e] - {k} else Without(entries, gone)[e]
    {
      TrimOneMore(e, entries[e], gone, d, k);
    }
    assert forall m: map<string, Entry> :: k !in m ==> m - {k} == m;
  }

  lemma WithoutAgrees(o: Options, entries: Index, files: Files, gone: set<string>)
    requires o.subDirs >= 1 && IndexAgrees(o, entries, files)
    ensures IndexAgrees(o, Without(entries, gone), files - gone)
  {
  }

  // ---------------------------------------------------------------- purging

  datatype FileInfo = FileInfo(path: string, size: nat, lastUsed: int)

  function Total(infos: seq<FileInfo>): nat
  {
    if infos == [] then 0 else infos[0].size + Total(infos[1..])
  }

  function Paths(infos: seq<FileInfo>): set<string>
  {
    set i | 0 <= i < |infos| :: infos[i].path
  }

  predicate OldestFirst(infos: seq<FileInfo>)
  {
    forall i, j :: 0 <= i < j < |infos| ==> infos[i].lastUsed <= infos[j].lastUsed
  }

  predicate Distinct(infos: seq<FileInfo>)
  {
    forall i, j :: 0 <= i < j < |infos| ==> infos[i].path != infos[j].path
  }

  /** `infos` describes exactly the files of some directories. */
  ghost predicate Describes(infos: seq<FileInfo>, files: Files, dirs: seq<string>)
  {
    && Distinct(infos)
    && (forall i :: 0 <= i < |infos| ==>
          infos[i].path in files && infos[i].size == Size(files[infos[i].path]) && infos[i].lastUsed == files[infos[i].path].mtime)
    && Paths(infos) == set p | p in files && DirectoryName(p) in dirs
  }

  /** Usage is below 95 % of the limit. */
  predicate Below(used: nat, limit: nat) { used * 100 < limit * 95 }

  /** `n` is the length of the shortest prefix whose removal is enough, or everything. */
  predicate ShortestPurge(order: seq<FileInfo>, limit: nat, n: nat)
  {
    && n <= |order|
    && (forall m :: 0 <= m < n ==> !Below(Total(order[m..]), limit))
    && (n < |order| ==> Below(Total(order[n..]), limit))
  }

  method Enumerate(files: Files, dirs: seq<string>) returns (infos: seq<FileInfo>)
    ensures Describes(infos, files, dirs)
  {
    infos := [];
    var left := files.Keys;
    while left != {}
      invariant left <= files.Keys
      invariant Distinct(infos)
      invariant forall i :: 0 <= i < |infos| ==>
        infos[i].path in files && infos[i].size == Size(files[infos[i].path]) && infos[i].lastUsed == files[infos[i].path].mtime
      invariant Paths(infos) == set p | p in files && p !in left && DirectoryName(p) in dirs
      decreases left
    {
      var p :| p in left;
      left := left - {p};
      if DirectoryName(p) in dirs {
        var info := FileInfo(p, Size(files[p]), files[p].mtime);
        PathsMore(infos, info);
        assert forall i :: 0 <= i < |infos| ==> infos[i].path in Paths(infos);
        infos := infos + [info];
      }
    }
  }

  lemma PathsMore(infos: seq<FileInfo>, info: FileInfo)
    ensures Paths(infos + [info]) == Paths(infos) + {info.path}
  {
    var more := infos + [info];
    assert more[|infos|] == info;
    forall p | p in Paths(infos) ensures p in Paths(more) {
      var i :| 0 <= i < |infos| && infos[i].path == p;
      assert more[i].path == p;
    }
  }

  /** std::sort by last use. */
  method SortByUse(infos: seq<FileInfo>) returns (order: seq<FileInfo>)
    ensures OldestFirst(order) && multiset(order) == multiset(infos)
  {
    order := [];
    for i := 0 to |infos|
      invariant OldestFirst(order) && multiset(order) == multiset(infos[..i])
    {
      var k := Place(order, infos[i].lastUsed);
      InsertInOrder(order, k, infos[i]);
      hide OldestFirst;
      assert infos[..i + 1] == infos[..i] + [infos[i]];
      order := order[..k] + [infos[i]] + order[k..];
    }
    assert infos[..|infos|] == infos;
  }

  /** Where a file used at `lastUsed` goes. */
  method Place(order: seq<FileInfo>, lastUsed: int) returns (k: nat)
    requires OldestFirst(order)
    ensures k <= |order|
    ensures forall j :: 0 <= j < k ==> order[j].lastUsed <= lastUsed
    ensures forall j :: k <= j < |order| ==> order[j].lastUsed > lastUsed
  {
    k := |order|;
    while k > 0 && order[k - 1].lastUsed > lastUsed
      invariant 0 <= k <= |order|
      invariant forall j :: k <= j < |order| ==> order[j].lastUsed > lastUsed
    {
      k := k - 1;
    }
  }

  lemma InsertInOrder(order: seq<FileInfo>, k: nat, info: FileInfo)
    requires OldestFirst(order) && k <= |order|
    requires forall j :: 0 <= j < k ==> order[j].lastUsed <= info.lastUsed
    requires forall j :: k <= j < |order| ==> order[j].lastUsed > info.lastUsed
    ensures OldestFirst(order[..k] + [info] + order[k..])
    ensures multiset(order[..k] + [info] + order[k..]) == multiset(order) + multiset{info}
  {
    assert order == order[..k] + order[k..];
  }

  /** A rearranged description is still one. */
  lemma SortedDescribes(infos: seq<FileInfo>, order: seq<FileInfo>, files: Files, dirs: seq<string>)
    requires Describes(infos, files, dirs) && multiset(order) == multiset(infos)
    ensures Describes(order, files, dirs)
  {
    SameElements(infos, order);
    forall p ensures p in Paths(order) <==> p in Paths(infos) {
      if p in Paths(order) {
        var i :| 0 <= i < |order| && order[i].path == p;
        assert order[i] in infos;
      }
      if p in Paths(infos) {
        var i :| 0 <= i < |infos| && infos[i].path == p;
        assert infos[i] in order;
      }
    }
    forall i | 0 <= i < |order|
      ensures order[i].path in files && order[i].size == Size(files[order[i].path]) && order[i].lastUsed == files[order[i].path].mtime
    {
      assert order[i] in infos;
    }
    forall i, j | 0 <= i < j < |order| ensures order[i].path != order[j].path {
      OccursOnce(infos, order, i, j);
    }
  }

  lemma SameElements(a: seq<FileInfo>, b: seq<FileInfo>)
    requires multiset(a) == multiset(b)
    ensures forall x :: x in a <==> x in b
  {
    forall x ensures x in a <==> x in b {
      assert x in a <==> x in multiset(a);
      assert x in b <==> x in multiset(b);
    }
  }

  /** Two places of a rearrangement of distinct paths hold distinct paths. */
  lemma OccursOnce(infos: seq<FileInfo>, order: seq<FileInfo>, i: nat, j: nat)
    requires Distinct(infos) && multiset(order) == multiset(infos) && i < j < |order|
    ensures order[i].path != order[j].path
  {
    SameElements(infos, order);
    assert order[i] in infos && order[j] in infos;
    if order[i] == order[j] {
      var x := order[i];
      assert order == order[..i] + [x] + order[i + 1..j] + [x] + order[j + 1..];
      assert multiset(order)[x] >= 2;
      DistinctOnce(infos, x);
    }
  }

  lemma {:induction false} DistinctOnce(infos: seq<FileInfo>, x: FileInfo)
    requires Distinct(infos)
    ensures multiset(infos)[x] <= 1
  {
    if infos != [] {
      assert infos == [infos[0]] + infos[1..];
      DistinctOnce(infos[1..], x);
      if infos[0] == x {
        assert x !in infos[1..] by {
          assert forall j :: 1 <= j < |infos| ==> infos[j].path != x.path;
        }
        assert multiset(infos[1..])[x] == 0;
      }
    }
  }

  // ---------------------------------------------------------------- the states after each operation

  ghost predicate Agreement(o: Options, entries: Index, files: Files)
  {
    && Sound(o)
    && (forall d :: d in entries <==> Registered(o, d))
    && IndexAgrees(o, entries, files)
    && AllOurs(o, files)
  }

  /** The index with a key's entry replaced. */
  function WithEntry(entries: Index, dir: string, key: string, e: Entry): Index
    requires dir in entries
  {
    entries[dir := entries[dir][key := e]]
  }

  function WithoutEntry(entries: Index, dir: string, key: string): Index
    requires dir in entries
  {
    entries[dir := entries[dir] - {key}]
  }

  /** What Put leaves: the file and its entry, or no entry if the file cannot be created. */
  function Filled(o: Options, entries: Index, files: Files, key: string, bytes: string, now: int, opens: bool): (Index, Files)
    requires o.subDirs >= 1 && Bytes(key) && LeafOf(o, key) in entries
  {
    var dir := LeafOf(o, key);
    var accessed := if key in entries[dir] then entries[dir][key].lastAccessed else now;
    if TooLong(key) then (entries, files)
    else if opens then
      (WithEntry(entries, dir, key, Entry(HEADER + |bytes|, accessed)), files[PathOf(o, key) := File(bytes, true, now)])
    else (WithoutEntry(entries, dir, key), files)
  }

  /** What TryGet leaves: the times of the file and of its entry, if there are both. */
  function Touched(o: Options, entries: Index, files: Files, key: string, now: int): (Index, Files)
    requires o.subDirs >= 1 && Bytes(key) && LeafOf(o, key) in entries
  {
    var dir, path := LeafOf(o, key), PathOf(o, key);
    if TooLong(key) || key !in entries[dir] || path !in files then (entries, files)
    else
      (WithEntry(entries, dir, key, entries[dir][key].(lastAccessed := now)), files[path := files[path].(mtime := now)])
  }

  /** Every other key keeps its entry, and every other file is as it was. */
  ghost predicate ElsewhereSame(o: Options, key: string, e: Index, f: Files, e': Index, f': Files)
    requires o.subDirs >= 1 && Bytes(key)
  {
    && e'.Keys == e.Keys
    && (forall d, k :: d in e && !(d == LeafOf(o, key) && k == key) ==>
          (k in e'[d] <==> k in e[d]) && (k in e[d] ==> e'[d][k] == e[d][k]))
    && (forall p :: p != PathOf(o, key) ==> (p in f' <==> p in f) && (p in f ==> f'[p] == f[p]))
  }

  /**
   A Put writes its bytes, with a fresh checksum and time, to the key's file and its size to the key's
   entry, which keeps its time of use if it was there; a file that cannot be opened costs the key its entry
   and leaves the file; a key too long for a file name changes nothing.
   */
  lemma PutWrites(o: Options, entries: Index, files: Files, key: string, bytes: string, now: int, opens: bool)
    requires o.subDirs >= 1 && Bytes(key) && LeafOf(o, key) in entries
    ensures var (e, f) := Filled(o, entries, files, key, bytes, now, opens);
      var d, p := LeafOf(o, key), PathOf(o, key);
      && ElsewhereSame(o, key, entries, files, e, f)
      && (TooLong(key) ==> e == entries && f == files)
      && (!TooLong(key) && opens ==>
            && p in f && f[p].body == bytes && f[p].intact && f[p].mtime == now
            && key in e[d] && e[d][key].size == 64 + |bytes|
            && e[d][key].lastAccessed == if key in entries[d] then entries[d][key].lastAccessed else now)
      && (!TooLong(key) && !opens ==> key !in e[d] && f == files)
  {
    hide LeafOf, PathOf, Bytes, TooLong;
  }

  /** A lookup that finds entry and file marks both as used now, and changes nothing else. */
  lemma GetMarks(o: Options, entries: Index, files: Files, key: string, now: int)
    requires o.subDirs >= 1 && Bytes(key) && LeafOf(o, key) in entries
    ensures var (e, f) := Touched(o, entries, files, key, now);
      var d, p := LeafOf(o, key), PathOf(o, key);
      && ElsewhereSame(o, key, entries, files, e, f)
      && (if !TooLong(key) && key in entries[d] && p in files then
            && p in f && f[p].body == files[p].body && f[p].intact == files[p].intact && f[p].mtime == now
            && key in e[d] && e[d][key].size == entries[d][key].size && e[d][key].lastAccessed == now
          else e == entries && f == files)
  {
    hide LeafOf, PathOf, Bytes, TooLong;
  }

  lemma WriteKeepsIndex(o: Options, entries: Index, files: Files, key: string, e: Entry, f: File)
    requires o.subDirs >= 1 && IndexAgrees(o, entries, files) && Bytes(key) && !TooLong(key) && LeafOf(o, key) in entries
    ensures IndexAgrees(o, WithEntry(entries, LeafOf(o, key), key, e), files[PathOf(o, key) := f])
  {
    var path, more := PathOf(o, key), files[PathOf(o, key) := f];
    assert Backed(o, more, LeafOf(o, key), key);
    forall d, k | Backed(o, files, d, k) ensures Backed(o, more, d, k) {
    }
    hide Backed, LeafOf, PathOf;
  }

  lemma WriteKeepsOurs(o: Options, files: Files, key: string, f: File)
    requires Sound(o) && AllOurs(o, files) && Bytes(key)
    ensures AllOurs(o, files[PathOf(o, key) := f])
  {
    PathIsRegistered(o, key);
    assert OurFile(o, PathOf(o, key));
    hide OurFile, PathOf;
  }

  lemma WriteKeeps(o: Options, entries: Index, files: Files, key: string, e: Entry, f: File)
    requires Agreement(o, entries, files) && Bytes(key) && !TooLong(key)
    ensures LeafOf(o, key) in entries
    ensures Agreement(o, WithEntry(entries, LeafOf(o, key), key, e), files[PathOf(o, key) := f])
  {
    PathIsRegistered(o, key);
    WriteKeepsOurs(o, files, key, f);
    WriteKeepsIndex(o, entries, files, key, e, f);
    hide Registered, IndexAgrees, AllOurs, Sound, LeafOf, PathOf, Bytes, TooLong;
  }

  lemma EraseKeeps(o: Options, entries: Index, files: Files, key: string)
    requires Agreement(o, entries, files) && Bytes(key)
    ensures LeafOf(o, key) in entries
    ensures Agreement(o, WithoutEntry(entries, LeafOf(o, key), key), files)
  {
    PathIsRegistered(o, key);
    hide Registered, LeafOf, PathOf, Bytes, TooLong, Backed;
  }

  /** What the operations on a key need to know of a sound state. */
  lemma Ready(o: Options, entries: Index, files: Files, key: string)
    requires Agreement(o, entries, files) && Bytes(key)
    ensures Sound(o) && o.subDirs >= 1 && LeafOf(o, key) in entries
    ensures DirectoryName(PathOf(o, key)) == LeafOf(o, key)
    ensures key in entries[LeafOf(o, key)] ==> PathOf(o, key) in files
  {
    PathIsRegistered(o, key);
    assert key in entries[LeafOf(o, key)] ==> Backed(o, files, LeafOf(o, key), key);
  }

  lemma DiscardKeeps(o: Options, entries: Index, files: Files, gone: set<string>)
    requires Agreement(o, entries, files)
    ensures Agreement(o, Without(entries, gone), files - gone)
  {
    WithoutAgrees(o, entries, files, gone);
    hide Registered, IndexAgrees, OurFile;
  }

  /** Discarding one of our files touches at most its own entry. */
  lemma DiscardOne(o: Options, entries: Index, files: Files, path: string)
    requires Agreement(o, entries, files) && path in files
    ensures KeyFromPath(path).Some?
    ensures var d, k := DirectoryName(path), KeyFromPath(path).value;
      Without(entries, {path}) == if d in entries && k in entries[d] then WithoutEntry(entries, d, k) else entries
  {
    hide OurFile, IndexAgrees, Registered, KeyFromPath, DirectoryName, FileOf, Without, Bytes;
    assert OurFile(o, path);
    PlacedPath(o, path);
    var d, k := DirectoryName(path), KeyFromPath(path).value;
    WithoutNothing(entries);
    WithoutOneMore(entries, {}, d, k);
    assert {} + {FileOf(d, k)} == {path};
  }

  // ---------------------------------------------------------------- loading

  predicate LongName(path: string)
  {
    var key := KeyFromPath(path);
    key.Some? && Bytes(key.value) && TooLong(key.value)
  }

  /** Loading is through with the file: it is indexed in its place, or was left alone on purpose. */
  ghost predicate Settled(o: Options, entries: Index, path: string)
    requires o.subDirs >= 1
  {
    LongName(path) || (if Placed(o, path) then Indexed(entries, path) else o.action == Ignore)
  }

  /** The state after loading one file. */
  function LoadedEntries(o: Options, entries: Index, path: string, e: Entry): Index
    requires o.subDirs >= 1 && KeyFromPath(path).Some? && LeafOf(o, KeyFromPath(path).value) in entries
  {
    if LongName(path) || (!Placed(o, path) && o.action != Move) then entries
    else WithEntry(entries, LeafOf(o, KeyFromPath(path).value), KeyFromPath(path).value, e)
  }

  function LoadedFiles(o: Options, files: Files, path: string): Files
    requires o.subDirs >= 1 && path in files && KeyFromPath(path).Some? && Bytes(KeyFromPath(path).value)
  {
    if LongName(path) || Placed(o, path) || o.action == Ignore then files
    else if o.action == Delete then files - {path}
    else (files - {path})[PathOf(o, KeyFromPath(path).value) := files[path]]
  }

  /** No entry relies on a misplaced file. */
  lemma RemoveMisplaced(o: Options, entries: Index, files: Files, path: string)
    requires Agreement(o, entries, files) && path in files && !Placed(o, path)
    ensures Agreement(o, entries, files - {path})
  {
    forall d, k | d in entries && k in entries[d] ensures Backed(o, files - {path}, d, k) {
      assert Backed(o, files, d, k);
      PathIsRegistered(o, k);
    }
  }

  /** What is known of a file that the store holds. */
  lemma Ours(o: Options, entries: Index, files: Files, path: string)
    requires Agreement(o, entries, files) && path in files
    ensures o.subDirs >= 1 && KeyFromPath(path).Some? && Bytes(KeyFromPath(path).value)
    ensures LeafOf(o, KeyFromPath(path).value) in entries
    ensures Placed(o, path) ==> path == PathOf(o, KeyFromPath(path).value) && !LongName(path)
    ensures !LongName(path) ==> !TooLong(KeyFromPath(path).value)
    ensures DirectoryName(PathOf(o, KeyFromPath(path).value)) == LeafOf(o, KeyFromPath(path).value)
    ensures KeyFromPath(PathOf(o, KeyFromPath(path).value)) == KeyFromPath(path)
  {
    assert OurFile(o, path);
    hide OurFile, Registered, IndexAgrees;
    PlacedPath(o, path);
    PathIsRegistered(o, KeyFromPath(path).value);
  }

  lemma LoadOneKeeps(o: Options, entries: Index, files: Files, path: string, e: Entry)
    requires Agreement(o, entries, files) && path in files
    ensures o.subDirs >= 1 && KeyFromPath(path).Some? && Bytes(KeyFromPath(path).value)
    ensures LeafOf(o, KeyFromPath(path).value) in entries
    ensures Agreement(o, LoadedEntries(o, entries, path, e), LoadedFiles(o, files, path))
  {
    hide Agreement, LeafOf, PathOf, KeyFromPath, Bytes, TooLong, LongName, Placed, WithEntry;
    Ours(o, entries, files, path);
    var key := KeyFromPath(path).value;
    if LongName(path) {
    } else if Placed(o, path) {
      WriteKeeps(o, entries, files, key, e, files[path]);
      assert files[path := files[path]] == files;
    } else {
      RemoveMisplaced(o, entries, files, path);
      if o.action == Move {
        WriteKeeps(o, entries, files - {path}, key, e, files[path]);
      }
    }
  }

  /** After loading one file, every file is settled or is another one that was there before. */
  lemma LoadOneSettles(o: Options, entries: Index, files: Files, path: string, e: Entry, q: string)
    requires Agreement(o, entries, files) && path in files
    requires o.subDirs >= 1 && KeyFromPath(path).Some? && Bytes(KeyFromPath(path).value)
    requires LeafOf(o, KeyFromPath(path).value) in entries && q in LoadedFiles(o, files, path)
    ensures Settled(o, LoadedEntries(o, entries, path, e), q) || (q in files && q != path)
    ensures q in files && Settled(o, entries, q) ==> Settled(o, LoadedEntries(o, entries, path, e), q)
  {
    hide Agreement, LeafOf, PathOf, KeyFromPath, DirectoryName, Bytes, TooLong;
    Ours(o, entries, files, path);
  }

  /** Loading loses no well-placed file, and moving loses no key. */
  ghost predicate Survives(o: Options, path: string, files: Files)
    requires o.subDirs >= 1 && KeyFromPath(path).Some? && Bytes(KeyFromPath(path).value)
  {
    && (Placed(o, path) || LongName(path) || o.action == Ignore ==> path in files)
    && (o.action == Move ==> path in files || PathOf(o, KeyFromPath(path).value) in files)
  }

  lemma SurvivalKept(o: Options, entries: Index, files: Files, path: string, q: string)
    requires Agreement(o, entries, files) && path in files && o.subDirs >= 1
    requires KeyFromPath(path).Some? && Bytes(KeyFromPath(path).value)
    requires KeyFromPath(q).Some? && Bytes(KeyFromPath(q).value) && Survives(o, q, files)
    ensures Survives(o, q, LoadedFiles(o, files, path))
  {
    hide Agreement, LeafOf, PathOf, KeyFromPath, DirectoryName, Bytes, TooLong, LongName, Placed, LoadedFiles;
    OwnPathPlaced(o, KeyFromPath(q).value);
    LoadedKeys(o, files, path, q);
    LoadedKeys(o, files, path, PathOf(o, KeyFromPath(q).value));
  }

  lemma LoadedKeys(o: Options, files: Files, path: string, p: string)
    requires o.subDirs >= 1 && path in files && KeyFromPath(path).Some? && Bytes(KeyFromPath(path).value)
    ensures var kept := LongName(path) || Placed(o, path) || o.action == Ignore;
      p in LoadedFiles(o, files, path) <==>
        (p in files && (p != path || kept)) || (!kept && o.action == Move && p == PathOf(o, KeyFromPath(path).value))
  {
    hide LeafOf, PathOf, KeyFromPath, Bytes, TooLong, LongName, Placed;
  }

  /** The path of a key is a well-placed one, unless the name is too long. */
  lemma OwnPathPlaced(o: Options, key: string)
    requires o.subDirs >= 1 && Bytes(key)
    ensures Placed(o, PathOf(o, key)) || LongName(PathOf(o, key))
  {
    FileReadsBack(LeafOf(o, key), key);
  }

  /** The file lies in a shard from number `from` on. */
  ghost predicate InShardsFrom(o: Options, from: nat, path: string)
  {
    exists i :: from <= i < |o.shards| && IsLeaf(o.shards[i].0, o.level, o.subDirs, DirectoryName(path))
  }

  /** All files are settled but for some still to be looked at. */
  ghost predicate SettledBut(o: Options, entries: Index, files: Files, from: nat, pending: set<string>)
    requires o.subDirs >= 1
  {
    forall p <- files :: Settled(o, entries, p) || InShardsFrom(o, from, p) || p in pending
  }

  ghost predicate AllSurvive(o: Options, stored: Files, files: Files)
    requires o.subDirs >= 1
  {
    forall p <- stored :: KeyFromPath(p).Some? && Bytes(KeyFromPath(p).value) && Survives(o, p, files)
  }

  lemma LoadNext(o: Options, entries: Index, files: Files, infos: seq<FileInfo>, j: nat, e: Entry, from: nat, stored: Files)
    requires Agreement(o, entries, files) && Distinct(infos) && j < |infos|
    requires Paths(infos[j..]) <= files.Keys && SettledBut(o, entries, files, from, Paths(infos[j..])) && AllSurvive(o, stored, files)
    ensures infos[j].path in files
    ensures var path := infos[j].path;
      && KeyFromPath(path).Some? && Bytes(KeyFromPath(path).value) && LeafOf(o, KeyFromPath(path).value) in entries
      && SettledBut(o, LoadedEntries(o, entries, path, e), LoadedFiles(o, files, path), from, Paths(infos[j + 1..]))
      && Paths(infos[j + 1..]) <= LoadedFiles(o, files, path).Keys
      && AllSurvive(o, stored, LoadedFiles(o, files, path))
  {
    hide Agreement, LeafOf, PathOf, KeyFromPath, DirectoryName, Bytes, TooLong, LongName, Placed, LoadedFiles, LoadedEntries, Settled, Survives, InShardsFrom;
    var path := infos[j].path;
    PathsRest(infos, j);
    LoadOneKeeps(o, entries, files, path, e);
    var after := LoadedFiles(o, files, path);
    forall q | q in after
      ensures Settled(o, LoadedEntries(o, entries, path, e), q) || InShardsFrom(o, from, q) || q in Paths(infos[j + 1..])
    {
      LoadOneSettles(o, entries, files, path, e, q);
    }
    forall q | q in Paths(infos[j + 1..]) ensures q in after {
      LoadedKeys(o, files, path, q);
    }
    forall q | q in stored ensures Survives(o, q, after) {
      SurvivalKept(o, entries, files, path, q);
    }
  }

  /** The file at `p` is the one stored there, or one of the same key that was moved. */
  ghost predicate Origin(o: Options, stored: Files, p: string, f: File)
    requires o.subDirs >= 1
  {
    exists q <- stored :: stored[q] == f && (q == p || Moved(o, q, p))
  }

  ghost predicate Moved(o: Options, q: string, p: string)
    requires o.subDirs >= 1
  {
    o.action == Move && !Placed(o, q) && KeyFromPath(q) == KeyFromPath(p)
  }

  /** An entry records the size and time of a stored file of its key. */
  ghost predicate EntryOrigin(stored: Files, k: string, e: Entry)
  {
    exists q <- stored :: KeyFromPath(q) == Some(k) && e == Entry(Size(stored[q]), stored[q].mtime)
  }

  /** Nothing was made up: contents and entries are those of stored files. */
  ghost predicate FromStored(o: Options, stored: Files, entries: Index, files: Files)
    requires o.subDirs >= 1
  {
    && (forall p <- files :: Origin(o, stored, p, files[p]))
    && (forall d, k :: d in entries && k in entries[d] ==> EntryOrigin(stored, k, entries[d][k]))
  }

  ghost predicate InfosFromStored(stored: Files, infos: seq<FileInfo>)
  {
    forall i :: 0 <= i < |infos| ==>
      KeyFromPath(infos[i].path).Some? && EntryOrigin(stored, KeyFromPath(infos[i].path).value, Entry(infos[i].size, infos[i].lastUsed))
  }

  lemma MovedOrigin(o: Options, stored: Files, path: string, to: string, f: File)
    requires o.subDirs >= 1 && Origin(o, stored, path, f)
    requires o.action == Move && !Placed(o, path) && KeyFromPath(to) == KeyFromPath(path)
    ensures Origin(o, stored, to, f)
  {
    hide Placed, KeyFromPath;
    var q :| q in stored && stored[q] == f && (q == path || Moved(o, q, path));
    assert Moved(o, q, to);
  }

  lemma LoadOneOrigins(o: Options, entries: Index, files: Files, path: string, e: Entry, stored: Files)
    requires Agreement(o, entries, files) && path in files && o.subDirs >= 1 && FromStored(o, stored, entries, files)
    requires KeyFromPath(path).Some? && Bytes(KeyFromPath(path).value) && LeafOf(o, KeyFromPath(path).value) in entries
    requires EntryOrigin(stored, KeyFromPath(path).value, e)
    ensures FromStored(o, stored, LoadedEntries(o, entries, path, e), LoadedFiles(o, files, path))
  {
    hide Agreement, LeafOf, PathOf, KeyFromPath, DirectoryName, Bytes, TooLong, LongName, Placed, Origin, EntryOrigin;
    Ours(o, entries, files, path);
    var after := LoadedFiles(o, files, path);
    forall p | p in after ensures Origin(o, stored, p, after[p]) {
      if p !in files || after[p] != files[p] {
        MovedOrigin(o, stored, path, p, files[path]);
      }
    }
  }

  lemma EnumeratedFromStored(o: Options, stored: Files, entries: Index, files: Files, infos: seq<FileInfo>, dirs: seq<string>)
    requires Agreement(o, entries, files) && o.subDirs >= 1 && FromStored(o, stored, entries, files) && Describes(infos, files, dirs)
    ensures InfosFromStored(stored, infos)
  {
    hide Agreement, LeafOf, PathOf, KeyFromPath, DirectoryName, Bytes, TooLong, Placed;
    forall i | 0 <= i < |infos|
      ensures KeyFromPath(infos[i].path).Some?
      ensures EntryOrigin(stored, KeyFromPath(infos[i].path).value, Entry(infos[i].size, infos[i].lastUsed))
    {
      var p := infos[i].path;
      Ours(o, entries, files, p);
      var q :| q in stored && stored[q] == files[p] && (q == p || Moved(o, q, p));
      assert KeyFromPath(q) == KeyFromPath(p);
    }
  }

  lemma StoredFromStored(o: Options, entries: Index, stored: Files)
    requires o.subDirs >= 1 && forall d <- entries :: entries[d] == map[]
    ensures FromStored(o, stored, entries, stored)
  {
    hide Moved, EntryOrigin;
  }

  lemma PathsRest(infos: seq<FileInfo>, j: nat)
    requires Distinct(infos) && j < |infos|
    ensures Paths(infos[j..]) == {infos[j].path} + Paths(infos[j + 1..])
    ensures infos[j].path !in Paths(infos[j + 1..])
  {
    var here, rest := infos[j..], infos[j + 1..];
    assert here[0] == infos[j];
    forall p | p in Paths(here) ensures p == infos[j].path || p in Paths(rest) {
      var i :| 0 <= i < |here| && here[i].path == p;
      if i > 0 {
        assert rest[i - 1].path == p;
      }
    }
    forall p | p in Paths(rest) ensures p in Paths(here) {
      var i :| 0 <= i < |rest| && rest[i].path == p;
      assert here[i + 1].path == p;
    }
  }

  // ---------------------------------------------------------------- the object

  class DiskCache {
    const options: Options
    var entriesPerDir: Index
    var files: Files

    ghost predicate Valid()
      reads this
    {
      Agreement(options, entriesPerDir, files)
    }

    /** The registered directories of all shards, nothing indexed in any of them yet. */
    static method Registry(o: Options) returns (entries: Index)
      ensures o.level >= 1 ==> forall d :: d in entries <==> Registered(o, d)
      ensures o.level == 0 ==> entries == map[]
      ensures forall d <- entries :: entries[d] == map[]
    {
      entries := map[];
      for i := 0 to |o.shards|
        invariant o.level >= 1 ==>
          forall d :: d in entries <==> exists j :: 0 <= j < i && IsLeaf(o.shards[j].0, o.level, o.subDirs, d)
        invariant o.level == 0 ==> entries == map[]
        invariant forall d <- entries :: entries[d] == map[]
      {
        var registered, _ := InitializeWorkspaceAt(o.shards[i].0, o.level, o.subDirs);
        entries := entries + map d | d in registered :: map[];
      }
    }

    /**
     Opens the cache over the files found on disk, all of them named by a cache like this one. Afterwards
     index and store agree, every file is indexed in its place, unless misplaced files are to be ignored
     or its name is too long, and only misplaced files have been deleted or moved.
     */
    constructor (o: Options, stored: Files)
      requires Sound(o) && AllOurs(o, stored)
      ensures Valid() && options == o
      ensures forall p <- files :: Settled(o, entriesPerDir, p)
      ensures AllSurvive(o, stored, files) && FromStored(o, stored, entriesPerDir, files)
    {
      hide Agreement, Settled, InShardsFrom, Survives, AllOurs, FromStored, InfosFromStored, SettledBut, AllSurvive, Describes, Registered, IsLeaf;
      options := o;
      files := stored;
      HasSubDirs(o);
      var entries := Registry(o);
      entriesPerDir := entries;
      new;
      Opened(o, entriesPerDir, stored);
      StoredFromStored(o, entriesPerDir, stored);
      for i := 0 to |options.shards|
        invariant Valid() && options == o
        invariant SettledBut(o, entriesPerDir, files, i, {}) && AllSurvive(o, stored, files)
        invariant FromStored(o, stored, entriesPerDir, files)
      {
        var _, dirs := InitializeWorkspaceAt(options.shards[i].0, options.level, options.subDirs);
        var infos := Enumerate(files, dirs);
        NextShard(o, entriesPerDir, files, i, dirs, infos);
        EnumeratedFromStored(o, stored, entriesPerDir, files, infos, dirs);
        LoadFiles(infos, i + 1, stored);
      }
      AllSettled(o, entriesPerDir, files);
    }

    method LoadFiles(infos: seq<FileInfo>, ghost from: nat, ghost stored: Files)
      requires Valid() && options.subDirs >= 1 && Distinct(infos) && Paths(infos) <= files.Keys
      requires SettledBut(options, entriesPerDir, files, from, Paths(infos)) && AllSurvive(options, stored, files)
      requires FromStored(options, stored, entriesPerDir, files) && InfosFromStored(stored, infos)
      modifies this`entriesPerDir, this`files
      ensures Valid()
      ensures SettledBut(options, entriesPerDir, files, from, {}) && AllSurvive(options, stored, files)
      ensures FromStored(options, stored, entriesPerDir, files)
    {
      hide Agreement, SettledBut, AllSurvive, Paths, Distinct, FromStored, EntryOrigin, KeyFromPath;
      assert infos[0..] == infos;
      for j := 0 to |infos|
        invariant Valid() && Paths(infos[j..]) <= files.Keys
        invariant SettledBut(options, entriesPerDir, files, from, Paths(infos[j..])) && AllSurvive(options, stored, files)
        invariant FromStored(options, stored, entriesPerDir, files)
      {
        LoadNext(options, entriesPerDir, files, infos, j, Entry(infos[j].size, infos[j].lastUsed), from, stored);
        LoadOneOrigins(options, entriesPerDir, files, infos[j].path, Entry(infos[j].size, infos[j].lastUsed), stored);
        LoadFile(infos[j]);
      }
      NoPaths(infos);
    }

    method LoadFile(info: FileInfo)
      requires Valid() && info.path in files
      requires options.subDirs >= 1 && KeyFromPath(info.path).Some? && Bytes(KeyFromPath(info.path).value)
      requires LeafOf(options, KeyFromPath(info.path).value) in entriesPerDir
      modifies this`entriesPerDir, this`files
      ensures Valid()
      ensures entriesPerDir == LoadedEntries(options, old(entriesPerDir), info.path, Entry(info.size, info.lastUsed))
      ensures files == LoadedFiles(options, old(files), info.path)
    {
      ghost var e := Entry(info.size, info.lastUsed);
      LoadOneKeeps(options, entriesPerDir, files, info.path, e);
      Ours(options, entriesPerDir, files, info.path);
      Ready(options, entriesPerDir, files, KeyFromPath(info.path).value);
      hide Agreement, Sound, LeafOf, PathOf, KeyFromPath, DirectoryName, Bytes, TooLong;
      var key := KeyFromPath(info.path).value;
      var destination := TryGetPathOfKey(key);
      if destination.None? {
        return;
      }
      var dir := DirectoryName(info.path);
      if DirectoryName(destination.value) != dir {
        match options.action {
          case Move =>
            var moved := files[info.path];
            files := files - {info.path};
            files := files[destination.value := moved];
            dir := DirectoryName(destination.value);
          case Delete =>
            files := files - {info.path};
            return;
          case Ignore =>
            return;
        }
      }
      entriesPerDir := entriesPerDir[dir := entriesPerDir[dir][key := Entry(info.size, info.lastUsed)]];
    }

    method TryGetPathOfKey(key: string) returns (path: Option<string>)
      requires options.subDirs >= 1 && Bytes(key)
      ensures path == if TooLong(key) then None else Some(PathOf(options, key))
    {
      var marshalled := Encode(key);
      if |marshalled| > PATH_MAX {
        return None;
      }
      var hash := options.hash(key);
      var subdirs := GetSubdirsFor(hash, options.level, options.subDirs);
      var result := options.shardOf(hash % SPAN);
      var shard := result;
      for i := 0 to |subdirs|
        invariant result == Leaf(shard, subdirs[..i])
      {
        assert subdirs[..i + 1][..i] == subdirs[..i];
        result := result + "/" + Decimals.Decimal(subdirs[i]);
      }
      assert subdirs[..|subdirs|] == subdirs;
      result := result + "/" + marshalled;
      return Some(result);
    }

    /** `opens`: the file can be created. If it cannot, the key loses its entry. */
    method Put(key: string, bytes: string, now: int, opens: bool)
      requires Valid() && Bytes(key)
      modifies this`entriesPerDir, this`files
      ensures Valid() && LeafOf(options, key) in old(entriesPerDir)
      ensures (entriesPerDir, files) == Filled(options, old(entriesPerDir), old(files), key, bytes, now, opens)
      ensures ElsewhereSame(options, key, old(entriesPerDir), old(files), entriesPerDir, files)
      ensures opens && !TooLong(key) ==>
        && key in entriesPerDir[LeafOf(options, key)]
        && PathOf(options, key) in files && files[PathOf(options, key)] == File(bytes, true, now)
    {
      hide Agreement, Sound, LeafOf, PathOf, Bytes, TooLong, DirectoryName, ElsewhereSame;
      Ready(options, entriesPerDir, files, key);
      PutWrites(options, entriesPerDir, files, key, bytes, now, opens);
      var path := TryGetPathOfKey(key);
      if path.None? {
        return;
      }
      var dir := DirectoryName(path.value);
      var entries := entriesPerDir[dir];
      if key !in entries {
        entries := entries[key := Entry(0, now)];
      }
      if !opens {
        EraseKeeps(options, entriesPerDir, files, key);
        entries := entries - {key};
        assert entries == entriesPerDir[dir] - {key};
        entriesPerDir := entriesPerDir[dir := entries];
        return;
      }
      WriteKeeps(options, entriesPerDir, files, key, Entry(HEADER + |bytes|, entries[key].lastAccessed), File(bytes, true, now));
      files := files[path.value := File(bytes, true, now)];
      entries := entries[key := entries[key].(size := HEADER + |bytes|)];
      assert entries == entriesPerDir[dir][key := entries[key]];
      entriesPerDir := entriesPerDir[dir := entries];
    }

    /** `readable`: the read succeeds. In an agreeing state the open that the program insists on does. */
    method TryGet(key: string, now: int, readable: bool) returns (result: Option<string>)
      requires Valid() && Bytes(key)
      modifies this`entriesPerDir, this`files
      ensures Valid() && LeafOf(options, key) in old(entriesPerDir)
      ensures (entriesPerDir, files) == Touched(options, old(entriesPerDir), old(files), key, now)
      ensures var path := PathOf(options, key);
        if TooLong(key) || key !in old(entriesPerDir)[LeafOf(options, key)] then result == None
        else
          && path in old(files)
          && result == (if readable && old(files)[path].intact then Some(old(files)[path].body) else None)
    {
      hide Agreement, Sound, LeafOf, PathOf, Bytes, TooLong, DirectoryName;
      Ready(options, entriesPerDir, files, key);
      var path := TryGetPathOfKey(key);
      if path.None? {
        return None;
      }
      var dir := DirectoryName(path.value);
      var entries := entriesPerDir[dir];
      if key !in entries {
        return None;
      }
      var file := files[path.value];
      var touched := entries[key].(lastAccessed := now);
      WriteKeeps(options, entriesPerDir, files, key, touched, file.(mtime := now));
      files := files[path.value := file.(mtime := now)];
      entriesPerDir := entriesPerDir[dir := entries[key := touched]];
      if !readable || !file.intact {
        return None;
      }
      return Some(file.body);
    }

    /** Removes one file and what the index says of it, with nothing in between. */
    method Discard(path: string)
      requires Valid() && path in files
      modifies this`entriesPerDir, this`files
      ensures Valid()
      ensures files == old(files) - {path} && entriesPerDir == Without(old(entriesPerDir), {path})
    {
      hide Agreement, Without, KeyFromPath, DirectoryName;
      DiscardOne(options, entriesPerDir, files, path);
      DiscardKeeps(options, entriesPerDir, files, {path});
      var key := KeyFromPath(path);
      var dir := DirectoryName(path);
      files := files - {path};
      if dir in entriesPerDir && key.value in entriesPerDir[dir] {
        entriesPerDir := entriesPerDir[dir := entriesPerDir[dir] - {key.value}];
      }
    }

    /**
     An undisturbed Purge of one shard: removes its oldest files, no more than it takes to bring its usage below 95 % of the
     limit, and exactly their entries. `order` and `n` say which.
     */
    method PurgeCacheAt(shard: string, limit: nat) returns (ghost dirs: seq<string>, ghost order: seq<FileInfo>, ghost n: nat)
      requires Valid()
      modifies this`entriesPerDir, this`files
      ensures Valid()
      ensures forall d :: d in dirs <==> IsLeaf(shard, options.level, options.subDirs, d)
      ensures Describes(order, old(files), dirs) && OldestFirst(order) && ShortestPurge(order, limit, n)
      ensures files == old(files) - Paths(order[..n])
      ensures entriesPerDir == Without(old(entriesPerDir), Paths(order[..n]))
    {
      var _, leaves := InitializeWorkspaceAt(shard, options.level, options.subDirs);
      dirs := leaves;
      var infos := Enumerate(files, leaves);
      var sorted := SortByUse(infos);
      SortedDescribes(infos, sorted, files, dirs);
      order := sorted;
      n := DiscardUntilBelow(sorted, dirs, limit);
    }

    /** The purging loop over files in the given order. */
    method DiscardUntilBelow(sorted: seq<FileInfo>, ghost dirs: seq<string>, limit: nat) returns (ghost n: nat)
      requires Valid() && Describes(sorted, files, dirs)
      modifies this`entriesPerDir, this`files
      ensures Valid() && ShortestPurge(sorted, limit, n)
      ensures files == old(files) - Paths(sorted[..n])
      ensures entriesPerDir == Without(old(entriesPerDir), Paths(sorted[..n]))
    {
      hide Agreement, Without, Describes, Paths;
      var used := Total(sorted);
      n := 0;
      NothingGone(entriesPerDir, files, sorted);
      for i := 0 to |sorted|
        invariant Valid() && n == i
        invariant files == old(files) - Paths(sorted[..i]) && entriesPerDir == Without(old(entriesPerDir), Paths(sorted[..i]))
        invariant used == Total(sorted[i..])
        invariant forall m :: 0 <= m < i ==> !Below(Total(sorted[m..]), limit)
      {
        if used * 100 < limit * 95 {
          return;
        }
        DiscardNext(old(entriesPerDir), old(files), sorted, dirs, i);
        Discard(sorted[i].path);
        TotalNext(sorted, i);
        used := used - sorted[i].size;
        n := i + 1;
      }
    }
  }

  /** What was put is what a lookup of the same key then reads. */
  method ReadBack(cache: DiskCache, key: string, bytes: string, now: int, later: int) returns (result: Option<string>)
    requires cache.Valid() && Bytes(key)
    modifies cache`entriesPerDir, cache`files
    ensures cache.Valid()
    ensures result == if TooLong(key) then None else Some(bytes)
  {
    hide LeafOf, PathOf, Bytes, TooLong, Agreement;
    cache.Put(key, bytes, now, true);
    result := cache.TryGet(key, later, true);
  }

  lemma TotalNext(infos: seq<FileInfo>, i: nat)
    requires i < |infos|
    ensures Total(infos[i..]) == infos[i].size + Total(infos[i + 1..])
  {
    assert infos[i..][1..] == infos[i + 1..];
  }

  lemma NoPaths(infos: seq<FileInfo>)
    ensures Paths(infos[|infos|..]) == {}
  {
  }

  lemma HasSubDirs(o: Options)
    requires Sound(o)
    ensures o.level >= 1 && o.subDirs >= 1
  {
  }

  lemma AllSettled(o: Options, entries: Index, files: Files)
    requires o.subDirs >= 1 && SettledBut(o, entries, files, |o.shards|, {})
    ensures forall p <- files :: Settled(o, entries, p)
  {
  }

  lemma Opened(o: Options, entries: Index, stored: Files)
    requires Sound(o) && AllOurs(o, stored) && (forall d :: d in entries <==> Registered(o, d)) && (forall d <- entries :: entries[d] == map[])
    ensures Agreement(o, entries, stored) && SettledBut(o, entries, stored, 0, {}) && AllSurvive(o, stored, stored)
  {
    forall p | p in stored ensures InShardsFrom(o, 0, p) && KeyFromPath(p).Some? && Bytes(KeyFromPath(p).value) {
      assert OurFile(o, p);
      PlacedPath(o, p);
    }
  }

  /** Files waiting from shard `i` on are those just enumerated and those of later shards. */
  lemma NextShard(o: Options, entries: Index, files: Files, i: nat, dirs: seq<string>, infos: seq<FileInfo>)
    requires o.subDirs >= 1 && i < |o.shards| && SettledBut(o, entries, files, i, {}) && Describes(infos, files, dirs)
    requires forall d :: d in dirs <==> IsLeaf(o.shards[i].0, o.level, o.subDirs, d)
    ensures SettledBut(o, entries, files, i + 1, Paths(infos)) && Paths(infos) <= files.Keys && Distinct(infos)
  {
    hide Settled;
    forall p | p in files && InShardsFrom(o, i, p) ensures InShardsFrom(o, i + 1, p) || p in Paths(infos) {
    }
  }

  lemma NothingGone(entries: Index, files: Files, order: seq<FileInfo>)
    ensures files - Paths(order[..0]) == files && Without(entries, Paths(order[..0])) == entries
    ensures order[0..] == order
  {
    WithoutNothing(entries);
    assert Paths(order[..0]) == {};
  }

  lemma DiscardNext(entries: Index, files: Files, order: seq<FileInfo>, dirs: seq<string>, i: nat)
    requires Describes(order, files, dirs) && i < |order|
    ensures order[i].path in files - Paths(order[..i])
    ensures files - Paths(order[..i + 1]) == files - Paths(order[..i]) - {order[i].path}
    ensures Without(Without(entries, Paths(order[..i])), {order[i].path}) == Without(entries, Paths(order[..i + 1]))
  {
    assert order[..i + 1] == order[..i] + [order[i]];
    PathsMore(order[..i], order[i]);
    forall d | d in entries
      ensures Trim(d, Trim(d, entries[d], Paths(order[..i])), {order[i].path}) == Trim(d, entries[d], Paths(order[..i + 1]))
    {
    }
  }
}
