/**
 The consistent-hash ring that spreads disk-cache keys over directories. The hash function is a
 parameter; positions are 32 bits wide.
 */
module ConsistentHashing {
  import opened Basics
  import opened Decimals

  const VIRTUAL_NODE_FACTOR: nat := 100

  type Hash = string -> nat

  datatype Node = Node(position: nat, dir: string)

  function NodeName(dir: string, i: nat): string { dir + "#VN" + Decimal(i) }

  function VirtualNode(hash: Hash, dir: string, i: nat): Node
  {
    Node(hash(NodeName(dir, i)) % SPAN, dir)
  }

  // ---------------------------------------------------------------- what the ring means

  /** How far clockwise a position is from a hash. */
  function Distance(h: int, position: int): int
  {
    if position >= h then position - h else position - h + SPAN
  }

  /** The nodes of a configuration. */
  ghost predicate IsNode(dirs: map<string, nat>, hash: Hash, n: Node)
  {
    exists i: nat :: n.dir in dirs && i < dirs[n.dir] * VIRTUAL_NODE_FACTOR && n == VirtualNode(hash, n.dir, i)
  }

  ghost predicate Nearest(dirs: map<string, nat>, hash: Hash, h: int, n: Node)
  {
    && IsNode(dirs, hash, n)
    && forall m: Node :: IsNode(dirs, hash, m) ==> Distance(h, n.position) <= Distance(h, m.position)
  }

  /** `dir` serves `h`: it has a node nearest clockwise. */
  ghost predicate Serves(dirs: map<string, nat>, hash: Hash, h: int, dir: string)
  {
    exists n: Node :: n.dir == dir && Nearest(dirs, hash, h, n)
  }

  /** No position is shared between directories. */
  ghost predicate Unambiguous(dirs: map<string, nat>, hash: Hash)
  {
    forall m: Node, n: Node :: IsNode(dirs, hash, m) && IsNode(dirs, hash, n) && m.position == n.position ==> m.dir == n.dir
  }

  lemma OneServer(dirs: map<string, nat>, hash: Hash, h: nat, d: string, e: string)
    requires h < SPAN && Unambiguous(dirs, hash) && Serves(dirs, hash, h, d) && Serves(dirs, hash, h, e)
    ensures d == e
  {
    var m: Node :| m.dir == d && Nearest(dirs, hash, h, m);
    var n: Node :| n.dir == e && Nearest(dirs, hash, h, n);
    InSpan(dirs, hash, m);
    InSpan(dirs, hash, n);
  }

  lemma InSpan(dirs: map<string, nat>, hash: Hash, n: Node)
    requires IsNode(dirs, hash, n)
    ensures n.position < SPAN && n.dir in dirs
  {
  }

  // ---------------------------------------------------------------- monotonicity

  /** Every node of `a` is a node of `b`, and what `b` has more belongs to `dir`. */
  ghost predicate GrowsBy(a: map<string, nat>, b: map<string, nat>, dir: string)
  {
    && (forall d <- a :: d in b && a[d] <= b[d])
    && (forall d <- b :: d != dir ==> d in a && a[d] == b[d])
  }

  /** Growing one directory moves a hash only to that directory; shrinking it moves only hashes it served. */
  lemma Monotone(a: map<string, nat>, b: map<string, nat>, hash: Hash, dir: string, h: nat, before: string, after: string)
    requires h < SPAN && GrowsBy(a, b, dir) && Unambiguous(b, hash)
    requires Serves(a, hash, h, before) && Serves(b, hash, h, after)
    ensures after == before || after == dir
  {
    forall n: Node | IsNode(a, hash, n) ensures IsNode(b, hash, n) {
      var i: nat :| i < a[n.dir] * VIRTUAL_NODE_FACTOR && n == VirtualNode(hash, n.dir, i);
      assert i < b[n.dir] * VIRTUAL_NODE_FACTOR;
    }
    var n: Node :| n.dir == after && Nearest(b, hash, h, n);
    if after != dir {
      assert IsNode(a, hash, n);
      assert Nearest(a, hash, h, n);
      assert Serves(a, hash, h, after);
      assert Unambiguous(a, hash);
      OneServer(a, hash, h, before, after);
    }
  }

  /** Adding a directory changes GetNode(h) only to the new one. */
  lemma AddingMovesOnlyToTheNew(
    dirs: map<string, nat>, hash: Hash, added: string, weight: nat, h: nat, before: string, after: string)
    requires h < SPAN && added !in dirs && Unambiguous(dirs[added := weight], hash)
    requires Serves(dirs, hash, h, before) && Serves(dirs[added := weight], hash, h, after)
    ensures after == before || after == added
  {
    Monotone(dirs, dirs[added := weight], hash, added, h, before, after);
  }

  /** Removing a directory changes GetNode(h) only for the hashes it served. */
  lemma RemovingMovesOnlyItsOwn(
    dirs: map<string, nat>, hash: Hash, removed: string, h: nat, before: string, after: string)
    requires h < SPAN && removed in dirs && Unambiguous(dirs, hash)
    requires Serves(dirs, hash, h, before) && Serves(dirs - {removed}, hash, h, after)
    ensures before == removed || after == before
  {
    Monotone(dirs - {removed}, dirs, hash, removed, h, after, before);
  }

  // ---------------------------------------------------------------- sorting and searching

  predicate SortedRing(ring: seq<Node>)
  {
    forall i, j :: 0 <= i < j < |ring| ==> ring[i].position <= ring[j].position
  }

  /** std::sort by position. */
  method SortRing(nodes: seq<Node>) returns (ring: seq<Node>)
    ensures SortedRing(ring) && multiset(ring) == multiset(nodes)
  {
    ring := [];
    for i := 0 to |nodes|
      invariant SortedRing(ring) && multiset(ring) == multiset(nodes[..i])
    {
      hide SortedRing;
      var k := LowerBound(ring, nodes[i].position);
      InsertKeepsSorted(ring, k, nodes[i]);
      assert nodes[..i + 1] == nodes[..i] + [nodes[i]];
      ring := ring[..k] + [nodes[i]] + ring[k..];
    }
    assert nodes[..|nodes|] == nodes;
  }

  lemma InsertKeepsSorted(ring: seq<Node>, k: nat, n: Node)
    requires SortedRing(ring) && IsLowerBound(ring, n.position, k)
    ensures SortedRing(ring[..k] + [n] + ring[k..])
    ensures multiset(ring[..k] + [n] + ring[k..]) == multiset(ring) + multiset{n}
  {
    assert ring == ring[..k] + ring[k..];
  }

  /** The first index whose position is not below `h`. */
  ghost predicate IsLowerBound(ring: seq<Node>, h: nat, k: nat)
  {
    && k <= |ring|
    && (forall i :: 0 <= i < k ==> ring[i].position < h)
    && (forall i :: k <= i < |ring| ==> ring[i].position >= h)
  }

  /** std::lower_bound. */
  method LowerBound(ring: seq<Node>, h: nat) returns (k: nat)
    requires SortedRing(ring)
    ensures k <= |ring| && IsLowerBound(ring, h, k)
  {
    k := 0;
    var count := |ring|;
    while count > 0
      invariant 0 <= k && 0 <= count && k + count <= |ring|
      invariant forall i :: 0 <= i < k ==> ring[i].position < h
      invariant forall i :: k + count <= i < |ring| ==> ring[i].position >= h
    {
      var half := count / 2;
      if ring[k + half].position < h {
        k, count := k + half + 1, count - half - 1;
      } else {
        count := half;
      }
    }
  }

  class ConsistentHash {
    var hashRing: seq<Node>

    /** The ring holds exactly the nodes of the configuration, in order. */
    ghost predicate Valid(dirs: map<string, nat>, hash: Hash)
      reads this
    {
      SortedRing(hashRing) && forall n: Node :: n in hashRing <==> IsNode(dirs, hash, n)
    }

    constructor (dirs: map<string, nat>, hash: Hash)
      ensures Valid(dirs, hash)
      ensures (exists d :: d in dirs && dirs[d] >= 1) ==> hashRing != []
    {
      var ring: seq<Node> := [];
      var left := dirs.Keys;
      while left != {}
        invariant left <= dirs.Keys
        invariant forall n: Node :: n in ring <==> n.dir !in left && IsNode(dirs, hash, n)
        decreases left
      {
        var dir :| dir in left;
        left := left - {dir};
        ghost var before := ring;
        var size := dirs[dir] * VIRTUAL_NODE_FACTOR;
        for i := 0 to size
          invariant forall n: Node :: n in ring <==> n in before || IsAmong(hash, dir, i, n)
        {
          AmongMore(hash, dir, i);
          ring := ring + [VirtualNode(hash, dir, i)];
        }
        forall n: Node ensures n in ring <==> n.dir !in left && IsNode(dirs, hash, n) {
          AmongIsNode(dirs, hash, dir, n);
        }
      }
      var sorted := SortRing(ring);
      forall n: Node ensures n in sorted <==> n in ring {
        assert n in sorted <==> n in multiset(sorted);
      }
      hashRing := sorted;
      if d :| d in dirs && dirs[d] >= 1 {
        assert 0 < dirs[d] * VIRTUAL_NODE_FACTOR;
        assert IsNode(dirs, hash, VirtualNode(hash, d, 0));
      }
    }

    /** The directory of a node nearest clockwise: one that is configured, whatever the hash. */
    method GetNode(h: nat, ghost dirs: map<string, nat>, ghost hash: Hash) returns (dir: string)
      requires Valid(dirs, hash) && hashRing != [] && h < SPAN
      ensures Serves(dirs, hash, h, dir) && dir in dirs
    {
      var k := LowerBound(hashRing, h);
      if k == |hashRing| {
        k := 0;
      }
      dir := hashRing[k].dir;
      ghost var n := hashRing[k];
      assert n in hashRing;
      forall m: Node | IsNode(dirs, hash, m) ensures Distance(h, n.position) <= Distance(h, m.position) {
        InSpan(dirs, hash, m);
        InSpan(dirs, hash, n);
        assert m in hashRing;
        var j :| 0 <= j < |hashRing| && hashRing[j] == m;
      }
      assert Nearest(dirs, hash, h, n);
      InSpan(dirs, hash, n);
    }
  }

  ghost predicate IsAmong(hash: Hash, dir: string, count: nat, n: Node)
  {
    exists i: nat :: i < count && n == VirtualNode(hash, dir, i)
  }

  lemma AmongMore(hash: Hash, dir: string, i: nat)
    ensures forall n: Node :: IsAmong(hash, dir, i + 1, n) <==> IsAmong(hash, dir, i, n) || n == VirtualNode(hash, dir, i)
  {
    assert IsAmong(hash, dir, i + 1, VirtualNode(hash, dir, i));
    forall n: Node | IsAmong(hash, dir, i, n) ensures IsAmong(hash, dir, i + 1, n) {
    }
  }

  lemma AmongIsNode(dirs: map<string, nat>, hash: Hash, dir: string, n: Node)
    requires dir in dirs
    ensures IsAmong(hash, dir, dirs[dir] * VIRTUAL_NODE_FACTOR, n) <==> n.dir == dir && IsNode(dirs, hash, n)
  {
  }

  // ---------------------------------------------------------------- weights

  const DIR_UNIT: nat := 0x800_0000  // 128 MB

  function Weight(size: nat): nat { if size / DIR_UNIT == 0 then 1 else size / DIR_UNIT }

  /** The last of several entries for one directory counts. */
  function WeightsOf(directories: seq<(string, nat)>): (dirs: map<string, nat>)
  {
    if directories == [] then map[]
    else
      var last := directories[|directories| - 1];
      WeightsOf(directories[..|directories| - 1])[last.0 := Weight(last.1)]
  }

  method GetWeightedDirs(directories: seq<(string, nat)>) returns (dirs: map<string, nat>)
    ensures dirs == WeightsOf(directories)
  {
    dirs := map[];
    for i := 0 to |directories|
      invariant dirs == WeightsOf(directories[..i])
    {
      var weight := directories[i].1 / 0x10_0000 / 128;
      if weight == 0 {
        weight := 1;
      }
      ShiftTwice(directories[i].1);
      assert directories[..i + 1][..i] == directories[..i];
      dirs := dirs[directories[i].0 := weight];
    }
    assert directories[..|directories|] == directories;
  }

  lemma ShiftTwice(size: nat)
    ensures size / 0x10_0000 / 128 == size / DIR_UNIT
  {
  }

  /** Every configured directory has a node, so a ring over any shard at all is never empty. */
  lemma {:induction false} EveryDirectoryHasANode(directories: seq<(string, nat)>, hash: Hash, i: nat)
    requires i < |directories|
    ensures var dirs := WeightsOf(directories);
      && directories[i].0 in dirs && dirs[directories[i].0] >= 1
      && IsNode(dirs, hash, VirtualNode(hash, directories[i].0, 0))
  {
    var dirs := WeightsOf(directories);
    if i < |directories| - 1 {
      EveryDirectoryHasANode(directories[..|directories| - 1], hash, i);
    }
    assert 0 < dirs[directories[i].0] * VIRTUAL_NODE_FACTOR;
  }

  /** And only configured directories appear. */
  lemma {:induction false} OnlyConfigured(directories: seq<(string, nat)>, dir: string)
    requires dir in WeightsOf(directories)
    ensures exists i :: 0 <= i < |directories| && directories[i].0 == dir
  {
    var last := directories[|directories| - 1];
    if dir != last.0 {
      OnlyConfigured(directories[..|directories| - 1], dir);
    }
  }

  /** The nodes of a directory are its numbered names' hashes, a hundred for each unit of weight. */
  lemma NodesOf(dirs: map<string, nat>, hash: Hash, dir: string, position: nat)
    ensures IsNode(dirs, hash, Node(position, dir)) <==>
      dir in dirs && exists k: nat ::
        k < 100 * dirs[dir] && position == hash(NodeName(dir, k)) % 0x1_0000_0000
  {
    if dir in dirs {
      forall k: nat | k < 100 * dirs[dir] && position == hash(NodeName(dir, k)) % 0x1_0000_0000
        ensures IsNode(dirs, hash, Node(position, dir)) {
        assert Node(position, dir) == VirtualNode(hash, dir, k);
      }
      if IsNode(dirs, hash, Node(position, dir)) {
        var k: nat :| k < dirs[dir] * VIRTUAL_NODE_FACTOR && Node(position, dir) == VirtualNode(hash, dir, k);
        assert position == hash(NodeName(dir, k)) % 0x1_0000_0000;
      }
    }
  }

  /** The weight of a directory is its size in whole units of 128 MB, and one if it is smaller; its last entry counts. */
  lemma {:induction false} WeightCountsUnits(directories: seq<(string, nat)>, i: nat)
    requires i < |directories| && forall j :: i < j < |directories| ==> directories[j].0 != directories[i].0
    ensures var (dir, size) := directories[i]; var dirs := WeightsOf(directories);
      && dir in dirs
      && (if size < 128 * 1024 * 1024 then dirs[dir] == 1
          else dirs[dir] * (128 * 1024 * 1024) <= size < (dirs[dir] + 1) * (128 * 1024 * 1024))
  {
    if i < |directories| - 1 {
      WeightCountsUnits(directories[..|directories| - 1], i);
    }
  }

  /** A directory's virtual nodes have different names. */
  lemma NodeNamesDiffer(dir: string, i: nat, j: nat)
    ensures NodeName(dir, i) == NodeName(dir, j) <==> i == j
    ensures NodeName("/d", 7) == "/d#VN7"
  {
    var a, b := NodeName(dir, i), NodeName(dir, j);
    if a == b {
      assert a[|dir| + 3..] == Decimal(i) && b[|dir| + 3..] == Decimal(j);
      DecimalRoundTrip(i);
      DecimalRoundTrip(j);
    }
  }
}
