/**
 Where the disk cache keeps a key: a shard, one numbered sub-directory per level, and the key in
 percent-encoding (section 2.1 of RFC 3986). Strings are byte strings: characters below 256.
 */
module DiskPaths {
  import opened Basics
  import opened Decimals

  predicate Bytes(s: string) { forall i :: 0 <= i < |s| ==> s[i] < 256 as char }

  // ---------------------------------------------------------------- percent-encoding

  /** Section 2.3 of RFC 3986. */
  predicate Unreserved(c: char)
  {
    'a' <= c <= 'z' || 'A' <= c <= 'Z' || '0' <= c <= '9' || c == '-' || c == '.' || c == '_' || c == '~'
  }

  function HexDigit(d: nat): (c: char)
    requires d < 16
    ensures Unreserved(c) && HexValue(c) == Some(d)
  {
    if d < 10 then '0' + d as char else 'A' + (d - 10) as char
  }

  function HexValue(c: char): (r: Option<nat>)
    ensures r.Some? ==> r.value < 16
  {
    if '0' <= c <= '9' then Some((c - '0') as nat)
    else if 'A' <= c <= 'F' then Some((c - 'A') as nat + 10)
    else if 'a' <= c <= 'f' then Some((c - 'a') as nat + 10)
    else None
  }

  function EncodeChar(c: char): (r: string)
    requires c < 256 as char
    ensures r != []
  {
    if Unreserved(c) then [c] else ['%', HexDigit(c as nat / 16), HexDigit(c as nat % 16)]
  }

  function Encode(s: string): (r: string)
    requires Bytes(s)
  {
    if s == [] then [] else EncodeChar(s[0]) + Encode(s[1..])
  }

  function Decode(s: string): (r: Option<string>)
  {
    if s == [] then Some([])
    else if s[0] != '%' then
      var rest := Decode(s[1..]);
      if rest.None? then None else Some([s[0]] + rest.value)
    else if |s| < 3 || HexValue(s[1]).None? || HexValue(s[2]).None? then None
    else
      var rest := Decode(s[3..]);
      if rest.None? then None
      else Some([(HexValue(s[1]).value * 16 + HexValue(s[2]).value) as char] + rest.value)
  }

  lemma {:induction false} EncodeRoundTrip(s: string)
    requires Bytes(s)
    ensures Decode(Encode(s)) == Some(s)
  {
    if s != [] {
      var c, rest := s[0], Encode(s[1..]);
      EncodeRoundTrip(s[1..]);
      var e := Encode(s);
      assert [c] + s[1..] == s;
      if Unreserved(c) {
        assert e[0] == c && e[1..] == rest;
      } else {
        assert e[0] == '%' && e[1] == HexDigit(c as nat / 16) && e[2] == HexDigit(c as nat % 16) && e[3..] == rest;
      }
    }
  }

  lemma {:induction false} EncodeHasNoSlash(s: string)
    requires Bytes(s)
    ensures forall c <- Encode(s) :: c != '/'
  {
    if s != [] {
      EncodeHasNoSlash(s[1..]);
    }
  }

  /** How many characters need three. */
  function Reserved(s: string): nat
  {
    if s == [] then 0 else (if Unreserved(s[0]) then 0 else 1) + Reserved(s[1..])
  }

  /** Every other character stands for itself, and the escapes are upper-case. */
  lemma {:induction false} EncodeShape(s: string)
    requires Bytes(s)
    ensures |Encode(s)| == |s| + 2 * Reserved(s)
    ensures Reserved(s) == 0 ==> Encode(s) == s
    ensures forall c <- Encode(s) :: Unreserved(c) || c == '%'
    ensures Encode("a/b") == "a%2Fb"
  {
    if s != [] {
      EncodeShape(s[1..]);
    }
    assert "a/b"[1..] == "/b" && "/b"[1..] == "b" && "b"[1..] == "";
    assert Encode("b") == "b";
    assert Encode("/b") == "%2Fb";
  }

  // ---------------------------------------------------------------- directory and file names

  /** The position of the last slash, if any. */
  function LastSlash(path: string): (r: Option<nat>)
    ensures r.Some? ==> r.value < |path| && path[r.value] == '/' && forall i :: r.value < i < |path| ==> path[i] != '/'
    ensures r.None? ==> forall i :: 0 <= i < |path| ==> path[i] != '/'
  {
    if path == [] then None
    else if path[|path| - 1] == '/' then Some(|path| - 1)
    else LastSlash(path[..|path| - 1])
  }

  /** GetDirectoryName, for paths with a slash. */
  function DirectoryName(path: string): string
  {
    var pos := LastSlash(path);
    if pos.None? then path else path[..pos.value]
  }

  function KeyFromPath(path: string): Option<string>
  {
    var pos := LastSlash(path);
    if pos.None? then None else Decode(path[pos.value + 1..])
  }

  lemma SplitPath(dir: string, name: string)
    requires forall c <- name :: c != '/'
    ensures LastSlash(dir + "/" + name) == Some(|dir|)
  {
    var path := dir + "/" + name;
    assert path[|dir|] == '/';
    forall i | |dir| < i < |path| ensures path[i] != '/' {
      assert path[i] == name[i - |dir| - 1] && name[i - |dir| - 1] in name;
    }
  }

  /** A file named by this cache. */
  function FileOf(dir: string, key: string): string
    requires Bytes(key)
  {
    dir + "/" + Encode(key)
  }

  /** Such a path gives back its directory and its key. */
  lemma FileReadsBack(dir: string, key: string)
    requires Bytes(key)
    ensures DirectoryName(FileOf(dir, key)) == dir
    ensures KeyFromPath(FileOf(dir, key)) == Some(key)
  {
    EncodeHasNoSlash(key);
    SplitPath(dir, Encode(key));
    EncodeRoundTrip(key);
    var path := FileOf(dir, key);
    assert path[..|dir|] == dir && path[|dir| + 1..] == Encode(key);
  }

  lemma FileInjective(dir: string, key: string, dir2: string, key2: string)
    requires Bytes(key) && Bytes(key2) && FileOf(dir, key) == FileOf(dir2, key2)
    ensures dir == dir2 && key == key2
  {
    FileReadsBack(dir, key);
    FileReadsBack(dir2, key2);
  }

  // ---------------------------------------------------------------- sub-directories

  /** One digit per level, least significant first. */
  function Subdirs(hash: nat, level: nat, subDirs: nat): (ds: seq<nat>)
    requires subDirs > 0
    ensures Digits(ds, level, subDirs)
    decreases level
  {
    if level == 0 then [] else [hash % subDirs] + Subdirs(hash / subDirs, level - 1, subDirs)
  }

  method GetSubdirsFor(hash: nat, level: nat, subDirs: nat) returns (result: seq<nat>)
    requires subDirs > 0
    ensures result == Subdirs(hash, level, subDirs)
  {
    result := [];
    var h: nat := hash;
    for i := 0 to level
      invariant result + Subdirs(h, level - i, subDirs) == Subdirs(hash, level, subDirs)
    {
      var next := h / subDirs;
      assert result + Subdirs(h, level - i, subDirs) == result + [h % subDirs] + Subdirs(next, level - i - 1, subDirs);
      result := result + [h % subDirs];
      h := next;
    }
  }

  function Leaf(shard: string, ds: seq<nat>): string
  {
    if ds == [] then shard else Leaf(shard, ds[..|ds| - 1]) + "/" + Decimal(ds[|ds| - 1])
  }

  /** The number whose digits these are, least significant first. */
  function FromDigits(ds: seq<nat>, base: nat): nat
  {
    if ds == [] then 0 else ds[0] + base * FromDigits(ds[1..], base)
  }

  function Power(base: nat, n: nat): nat { if n == 0 then 1 else base * Power(base, n - 1) }

  /** The sub-directories are the lowest digits of the hash. */
  lemma {:induction false} SubdirsAreDigits(hash: nat, level: nat, subDirs: nat)
    requires subDirs > 0
    ensures FromDigits(Subdirs(hash, level, subDirs), subDirs) < Power(subDirs, level)
    ensures exists q: nat :: hash == FromDigits(Subdirs(hash, level, subDirs), subDirs) + Power(subDirs, level) * q
    decreases level
  {
    if level == 0 {
      assert hash == 0 + 1 * hash;
    } else {
      var next, ds := hash / subDirs, Subdirs(hash, level, subDirs);
      SubdirsAreDigits(next, level - 1, subDirs);
      var low, p := FromDigits(Subdirs(next, level - 1, subDirs), subDirs), Power(subDirs, level - 1);
      var q: nat :| next == low + p * q;
      assert ds[1..] == Subdirs(next, level - 1, subDirs);
      DigitsBelow(hash % subDirs, low, subDirs, p);
      DigitsAdd(hash, subDirs, low, p, q);
      assert hash == FromDigits(ds, subDirs) + Power(subDirs, level) * q;
    }
  }

  /** One by one: digit `j` of the hash names level `j`. */
  lemma {:induction false} SubdirAt(hash: nat, level: nat, subDirs: nat, j: nat)
    requires subDirs > 0 && j < level
    ensures Power(subDirs, j) > 0 && Subdirs(hash, level, subDirs)[j] == hash / Power(subDirs, j) % subDirs
    decreases level
  {
    if j > 0 {
      SubdirAt(hash / subDirs, level - 1, subDirs, j - 1);
      DivideTwice(hash, subDirs, Power(subDirs, j - 1));
    }
  }

  lemma DivideTwice(n: nat, a: nat, b: nat)
    requires a > 0 && b > 0
    ensures a * b > 0 && n / a / b == n / (a * b)
  {
    var q, r := n / a / b, n / a % b;
    var m := n % a;
    assert n == a * (b * q + r) + m;
    assert a * (b * q + r) == a * b * q + a * r;
    RemainderBelow(a, b, r, m);
    QuotientIs(n, a * b, q, a * r + m);
  }

  lemma RemainderBelow(a: nat, b: nat, r: nat, m: nat)
    requires r < b && m < a
    ensures a * r + m < a * b
  {
    assert a * (b - 1 - r) >= 0;
    assert a * b == a * r + a + a * (b - 1 - r);
  }

  lemma QuotientIs(n: nat, d: nat, q: nat, rest: nat)
    requires d > 0 && n == d * q + rest && rest < d
    ensures n / d == q
  {
    SameQuotient(d, n / d, n % d, q, rest);
  }

  lemma SameQuotient(d: nat, p: nat, m: nat, q: nat, rest: nat)
    requires d * p + m == d * q + rest && m < d && rest < d
    ensures p == q
  {
    if p < q {
      NextMultiple(d, p, q);
    } else if q < p {
      NextMultiple(d, q, p);
    }
  }

  lemma NextMultiple(d: nat, p: nat, q: nat)
    requires p < q
    ensures d * p + d <= d * q
  {
    var k := q - p - 1;
    assert d * k >= 0;
    assert d * (p + 1 + k) == d * p + d + d * k;
  }

  lemma DigitsBelow(d: nat, low: nat, base: nat, p: nat)
    requires d < base && low < p
    ensures d + base * low < base * p
  {
    assert base * (p - 1 - low) >= 0;
    assert base * p == base * low + base + base * (p - 1 - low);
  }

  lemma DigitsAdd(hash: nat, base: nat, low: nat, p: nat, q: nat)
    requires base > 0 && hash / base == low + p * q
    ensures hash == hash % base + base * low + base * p * q
  {
    assert hash == base * (hash / base) + hash % base;
    assert base * (low + p * q) == base * low + base * p * q;
  }

  /** Each level is one directory below the one before, named by its digit. */
  lemma LeafReadsBack(shard: string, ds: seq<nat>)
    requires ds != []
    ensures var dir, above := Leaf(shard, ds), Leaf(shard, ds[..|ds| - 1]);
      && DirectoryName(dir) == above && above + "/" <= dir
      && AllDigits(dir[|above| + 1..]) && Value(dir[|above| + 1..]) == ds[|ds| - 1]
    ensures Leaf(shard, []) == shard
  {
    var above, name := Leaf(shard, ds[..|ds| - 1]), Decimal(ds[|ds| - 1]);
    forall c | c in name ensures c != '/' {
      assert IsDigit(c);
    }
    SplitPath(above, name);
    DecimalRoundTrip(ds[|ds| - 1]);
    var dir := above + "/" + name;
    assert dir[..|above|] == above && dir[|above| + 1..] == name;
  }

  predicate Digits(ds: seq<nat>, level: nat, subDirs: nat) { |ds| == level && forall i :: 0 <= i < |ds| ==> ds[i] < subDirs }

  /** The directories at a given depth below a shard. */
  ghost predicate IsLeaf(shard: string, level: nat, subDirs: nat, dir: string)
  {
    exists ds: seq<nat> :: Digits(ds, level, subDirs) && dir == Leaf(shard, ds)
  }

  /**
   The directories that are registered for a shard: those of the lowest level, and none if there are
   no levels. `dirs` are all directories of the lowest level, which are created on disk.
   */
  method InitializeWorkspaceAt(shard: string, level: nat, subDirs: nat) returns (registered: set<string>, dirs: seq<string>)
    ensures forall d :: d in dirs <==> IsLeaf(shard, level, subDirs, d)
    ensures level > 0 ==> forall d :: d in registered <==> IsLeaf(shard, level, subDirs, d)
    ensures level == 0 ==> registered == {}
  {
    registered := {};
    dirs := [shard];
    assert Digits([], 0, subDirs) && Leaf(shard, []) == shard;
    assert forall ds: seq<nat> :: Digits(ds, 0, subDirs) ==> ds == [];
    for l := 0 to level
      invariant forall d :: d in dirs <==> IsLeaf(shard, l, subDirs, d)
      invariant l < level || level == 0 ==> registered == {}
      invariant l == level > 0 ==> forall d :: d in registered <==> d in dirs
    {
      var values, newly := NextLevel(dirs, subDirs, l + 1 == level);
      registered := registered + newly;
      forall d ensures d in values <==> IsLeaf(shard, l + 1, subDirs, d) {
        LeafBelow(shard, l, subDirs, dirs, d);
      }
      dirs := values;
    }
  }

  /** All sub-directories of all `dirs`, registered if they are at the lowest level. */
  method NextLevel(dirs: seq<string>, subDirs: nat, lowest: bool) returns (values: seq<string>, registered: set<string>)
    ensures forall d :: d in values <==> IsBelow(dirs, subDirs, d)
    ensures registered == if lowest then set d | d in values else {}
  {
    values, registered := [], {};
    for j := 0 to |dirs|
      invariant forall d :: d in values <==> IsBelow(dirs[..j], subDirs, d)
      invariant registered == if lowest then set d | d in values else {}
    {
      ghost var before := values;
      for i := 0 to subDirs
        invariant forall d :: d in values <==> d in before || IsChild(dirs[j], i, d)
        invariant registered == if lowest then set d | d in values else {}
      {
        var dir := dirs[j] + "/" + Decimal(i);
        ChildMore(dirs[j], i);
        if lowest {
          registered := registered + {dir};
        }
        values := values + [dir];
      }
      BelowMore(dirs, j, subDirs);
    }
    assert dirs[..|dirs|] == dirs;
  }

  ghost predicate IsChild(parent: string, count: nat, d: string)
  {
    exists i: nat :: i < count && d == parent + "/" + Decimal(i)
  }

  ghost predicate IsBelow(dirs: seq<string>, subDirs: nat, d: string)
  {
    exists p <- dirs :: IsChild(p, subDirs, d)
  }

  lemma ChildMore(parent: string, i: nat)
    ensures forall d :: IsChild(parent, i + 1, d) <==> IsChild(parent, i, d) || d == parent + "/" + Decimal(i)
  {
    forall d ensures IsChild(parent, i + 1, d) <==> IsChild(parent, i, d) || d == parent + "/" + Decimal(i) {
      if d == parent + "/" + Decimal(i) {
        assert IsChild(parent, i + 1, d);
      }
      if IsChild(parent, i, d) {
        var k: nat :| k < i && d == parent + "/" + Decimal(k);
        assert k < i + 1;
      }
    }
  }

  lemma BelowMore(dirs: seq<string>, j: nat, subDirs: nat)
    requires j < |dirs|
    ensures forall d :: IsBelow(dirs[..j + 1], subDirs, d) <==> IsBelow(dirs[..j], subDirs, d) || IsChild(dirs[j], subDirs, d)
  {
    assert dirs[..j + 1] == dirs[..j] + [dirs[j]];
  }

  lemma LeafBelow(shard: string, level: nat, subDirs: nat, dirs: seq<string>, d: string)
    requires forall p :: p in dirs <==> IsLeaf(shard, level, subDirs, p)
    ensures IsBelow(dirs, subDirs, d) <==> IsLeaf(shard, level + 1, subDirs, d)
  {
    if IsBelow(dirs, subDirs, d) {
      var p :| p in dirs && IsChild(p, subDirs, d);
      var ds: seq<nat> :| Digits(ds, level, subDirs) && p == Leaf(shard, ds);
      var i: nat :| i < subDirs && d == p + "/" + Decimal(i);
      var more := ds + [i];
      assert more[..level] == ds;
      assert Digits(more, level + 1, subDirs) && d == Leaf(shard, more);
    }
    if IsLeaf(shard, level + 1, subDirs, d) {
      var ds: seq<nat> :| Digits(ds, level + 1, subDirs) && d == Leaf(shard, ds);
      var front := ds[..level];
      assert Digits(front, level, subDirs);
      assert ds[level] in ds;
      assert IsLeaf(shard, level, subDirs, Leaf(shard, front));
      assert Leaf(shard, front) in dirs;
      assert IsChild(Leaf(shard, front), subDirs, d);
    }
  }
}
