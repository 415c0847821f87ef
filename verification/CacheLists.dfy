/** Recency lists of the L1 cache: most recently used node first, evictions at the back. */
module CacheLists {

  type Key = string
  type Buffer = string

  datatype Node = Node(key: Key, size: nat)

  function Bytes(l: seq<Node>): (total: nat)
  {
    if l == [] then 0 else l[0].size + Bytes(l[1..])
  }

  function Keys(l: seq<Node>): (keys: set<Key>)
  {
    if l == [] then {} else Keys(l[1..]) + {l[0].key}
  }

  predicate NoDup(l: seq<Node>)
  {
    l == [] || (l[0].key !in Keys(l[1..]) && NoDup(l[1..]))
  }

  /** Every recorded size is the byte size of the key's buffer. */
  predicate SizesMatch(l: seq<Node>, content: map<Key, Buffer>)
  {
    l == [] ||
    (l[0].key in content && l[0].size == |content[l[0].key]| && SizesMatch(l[1..], content))
  }

  function Back(l: seq<Node>): (n: Node)
    requires l != []
  {
    l[|l| - 1]
  }

  function Popped(l: seq<Node>): (rest: seq<Node>)
    requires l != []
  {
    l[..|l| - 1]
  }

  /** Erases the node of `k`, as `std::list::erase` does through the node's iterator. */
  function Without(l: seq<Node>, k: Key): (rest: seq<Node>)
  {
    if l == [] then []
    else if l[0].key == k then l[1..]
    else [l[0]] + Without(l[1..], k)
  }

  /** The recorded size of `k`'s node. */
  function SizeOf(l: seq<Node>, k: Key): (size: nat)
  {
    if l == [] then 0 else if l[0].key == k then l[0].size else SizeOf(l[1..], k)
  }

  /** Records a new size in `k`'s node, in place. */
  function Resized(l: seq<Node>, k: Key, size: nat): (rest: seq<Node>)
  {
    if l == [] then []
    else if l[0].key == k then [Node(k, size)] + l[1..]
    else [l[0]] + Resized(l[1..], k, size)
  }

  /** Bytes of the nodes more recent than `k`. */
  function Newer(l: seq<Node>, k: Key): (bytes: nat)
  {
    if l == [] || l[0].key == k then 0 else l[0].size + Newer(l[1..], k)
  }

  // ---------------------------------------------------------------- facts

  lemma {:induction false} ConcatFacts(a: seq<Node>, b: seq<Node>)
    ensures Bytes(a + b) == Bytes(a) + Bytes(b)
    ensures Keys(a + b) == Keys(a) + Keys(b)
    ensures NoDup(a + b) <==> NoDup(a) && NoDup(b) && Keys(a) !! Keys(b)
    decreases |a|
  {
    if a == [] {
      assert a + b == b;
    } else {
      assert (a + b)[1..] == a[1..] + b;
      ConcatFacts(a[1..], b);
    }
  }

  lemma PopFacts(l: seq<Node>)
    requires l != []
    ensures Bytes(l) == Bytes(Popped(l)) + Back(l).size
    ensures Keys(l) == Keys(Popped(l)) + {Back(l).key}
    ensures NoDup(l) ==> NoDup(Popped(l)) && Back(l).key !in Keys(Popped(l))
  {
    assert l == Popped(l) + [Back(l)];
    ConcatFacts(Popped(l), [Back(l)]);
  }

  lemma PushFacts(n: Node, l: seq<Node>)
    ensures Bytes([n] + l) == n.size + Bytes(l)
    ensures Keys([n] + l) == Keys(l) + {n.key}
    ensures NoDup([n] + l) <==> NoDup(l) && n.key !in Keys(l)
  {
    assert ([n] + l)[1..] == l;
  }

  lemma {:induction false} WithoutFacts(l: seq<Node>, k: Key)
    requires NoDup(l) && k in Keys(l)
    ensures Bytes(l) == Bytes(Without(l, k)) + SizeOf(l, k)
    ensures Keys(Without(l, k)) == Keys(l) - {k}
    ensures NoDup(Without(l, k))
  {
    if l[0].key != k {
      WithoutFacts(l[1..], k);
      PushFacts(l[0], Without(l[1..], k));
    }
  }

  lemma {:induction false} ResizedFacts(l: seq<Node>, k: Key, size: nat)
    requires NoDup(l) && k in Keys(l)
    ensures Bytes(l) + size == Bytes(Resized(l, k, size)) + SizeOf(l, k)
    ensures Keys(Resized(l, k, size)) == Keys(l)
    ensures NoDup(Resized(l, k, size))
    ensures Newer(Resized(l, k, size), k) == Newer(l, k) && SizeOf(Resized(l, k, size), k) == size
  {
    if l[0].key == k {
      PushFacts(Node(k, size), l[1..]);
    } else {
      ResizedFacts(l[1..], k, size);
      PushFacts(l[0], Resized(l[1..], k, size));
    }
  }

  /** Only the buffers of a list's own keys matter to it. */
  lemma {:induction false} SizesFrame(l: seq<Node>, c: map<Key, Buffer>, d: map<Key, Buffer>)
    requires SizesMatch(l, c)
    requires forall k <- Keys(l) :: k in c ==> k in d && d[k] == c[k]
    ensures SizesMatch(l, d)
  {
    if l != [] {
      SizesFrame(l[1..], c, d);
    }
  }

  lemma {:induction false} SizesPopped(l: seq<Node>, c: map<Key, Buffer>)
    requires SizesMatch(l, c) && l != []
    ensures SizesMatch(Popped(l), c)
    ensures Back(l).key in c && Back(l).size == |c[Back(l).key]|
  {
    if |l| > 1 {
      assert Popped(l)[1..] == Popped(l[1..]);
      SizesPopped(l[1..], c);
    }
  }

  lemma {:induction false} SizesWithout(l: seq<Node>, c: map<Key, Buffer>, k: Key)
    requires SizesMatch(l, c) && k in Keys(l)
    ensures SizesMatch(Without(l, k), c)
    ensures k in c && SizeOf(l, k) == |c[k]|
  {
    if l[0].key != k {
      SizesWithout(l[1..], c, k);
      assert ([l[0]] + Without(l[1..], k))[1..] == Without(l[1..], k);
    }
  }

  lemma {:induction false} SizesResized(l: seq<Node>, c: map<Key, Buffer>, k: Key, buffer: Buffer)
    requires SizesMatch(l, c) && NoDup(l) && k in Keys(l)
    ensures SizesMatch(Resized(l, k, |buffer|), c[k := buffer])
    ensures k in c && SizeOf(l, k) == |c[k]|
  {
    var r := Resized(l, k, |buffer|);
    assert r[1..] == if l[0].key == k then l[1..] else Resized(l[1..], k, |buffer|);
    if l[0].key == k {
      SizesFrame(l[1..], c, c[k := buffer]);
    } else {
      SizesResized(l[1..], c, k, buffer);
    }
  }

  lemma {:induction false} NewerFacts(l: seq<Node>, m: seq<Node>, k: Key)
    requires k in Keys(l)
    ensures Newer(l + m, k) == Newer(l, k) && SizeOf(l + m, k) == SizeOf(l, k)
    ensures Newer(l, k) + SizeOf(l, k) <= Bytes(l)
  {
    if l[0].key != k {
      assert (l + m)[1..] == l[1..] + m;
      NewerFacts(l[1..], m, k);
    }
  }

  lemma {:induction false} NewerBack(l: seq<Node>, n: Node)
    requires n.key !in Keys(l)
    ensures Newer(l + [n], n.key) == Bytes(l) && SizeOf(l + [n], n.key) == n.size
  {
    if l != [] {
      assert (l + [n])[1..] == l[1..] + [n];
      NewerBack(l[1..], n);
    }
  }

  // ---------------------------------------------------------------- non-empty buffers

  /** No empty buffer was ever recorded, resident or phantom. */
  predicate Positive(l: seq<Node>)
  {
    l == [] || (l[0].size > 0 && Positive(l[1..]))
  }

  lemma {:induction false} PositiveConcat(a: seq<Node>, b: seq<Node>)
    ensures Positive(a + b) <==> Positive(a) && Positive(b)
    decreases |a|
  {
    if a == [] {
      assert a + b == b;
    } else {
      assert (a + b)[1..] == a[1..] + b;
      PositiveConcat(a[1..], b);
    }
  }

  lemma PositivePopped(l: seq<Node>)
    requires Positive(l) && l != []
    ensures Positive(Popped(l)) && Back(l).size > 0
  {
    assert l == Popped(l) + [Back(l)];
    PositiveConcat(Popped(l), [Back(l)]);
  }

  lemma PositivePush(n: Node, l: seq<Node>)
    requires Positive(l) && n.size > 0
    ensures Positive([n] + l)
  {
    PositiveConcat([n], l);
  }

  lemma {:induction false} PositiveBytes(l: seq<Node>)
    requires Positive(l) && Keys(l) != {}
    ensures Bytes(l) > 0
  {
  }

  lemma {:induction false} PositiveWithout(l: seq<Node>, k: Key)
    requires Positive(l)
    ensures Positive(Without(l, k))
  {
    if l != [] && l[0].key != k {
      PositiveWithout(l[1..], k);
      PositivePush(l[0], Without(l[1..], k));
    }
  }

  lemma {:induction false} PositiveResized(l: seq<Node>, k: Key, size: nat)
    requires Positive(l) && size > 0
    ensures Positive(Resized(l, k, size))
  {
    if l != [] {
      if l[0].key == k {
        PositivePush(Node(k, size), l[1..]);
      } else {
        PositiveResized(l[1..], k, size);
        PositivePush(l[0], Resized(l[1..], k, size));
      }
    }
  }
}
