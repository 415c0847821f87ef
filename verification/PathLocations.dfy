/**
 The servant's half of path patching: the long build directory whose name reserves room, and the scan
 that locates every string starting with it in a compiler's output.
 */
module PathLocations {
  import opened Basics

  type byte = x: int | 0 <= x < 256

  const SLASH: byte := 47
  const FILLER: byte := 65  // 'A'
  const OUTPUT: seq<byte> := [47, 111, 117, 116, 112, 117, 116]  // "/output"

  /** A located string: where it starts, how long it is, how much of it follows the prefix. */
  datatype Location = Location(position: nat, total: nat, suffix: nat)

  // ---------------------------------------------------------------- the long directory name

  /** Directory names made of `path` from `from` on are not longer than the file system allows. */
  predicate ShortNames(path: seq<byte>, from: nat)
  {
    forall i: nat :: from <= i && i + NAME_MAX < |path| ==> SlashWithin(path, i)
  }

  predicate SlashWithin(path: seq<byte>, i: nat)
    requires i + NAME_MAX < |path|
  {
    exists j :: i <= j <= i + NAME_MAX && path[j] == SLASH
  }

  lemma SlashIsNoNul()
    ensures NulFree([SLASH]) && NulFree(OUTPUT)
  {
  }

  method Filled(n: nat) returns (s: seq<byte>)
    ensures |s| == n && (forall i :: 0 <= i < n ==> s[i] == FILLER) && NulFree(s)
  {
    s := seq(n, i => FILLER);
  }

  /**
   The full path of the directory; the caller is told its part below `base`. Its length is at least
   PATH_MAX - 32, so that with "/output" the prefix to be patched has at least PATH_MAX - 25 bytes.
   */
  method MakeLongLongRelativePathWith(base: seq<byte>, salt: seq<byte>) returns (relative: seq<byte>)
    ensures var full := base + [SLASH] + relative;
      && |full + OUTPUT| >= PATH_MAX - 25
      && |full| <= Max(PATH_MAX - 31, |base| + |salt| + 1)
      && salt <= relative
      && ShortNames(full + [SLASH], |base| + |salt| + 2)
      && (NulFree(base) && NulFree(salt) ==> NulFree(full + OUTPUT))
  {
    var kMaxPath := PATH_MAX - 30;
    var result := base + [SLASH] + salt + [SLASH];
    var start := |result|;
    ghost var head := result;
    NulFreeConcat(base, [SLASH]);
    NulFreeConcat(base + [SLASH], salt);
    NulFreeConcat(base + [SLASH] + salt, [SLASH]);
    hide NulFree;
    SlashIsNoNul();
    while |result| + 1 < kMaxPath
      invariant |result| >= start && result[..start] == head
      invariant result[|result| - 1] == SLASH
      invariant |result| <= Max(kMaxPath, start)
      invariant ShortNames(result, start)
      invariant NulFree(base) && NulFree(salt) ==> NulFree(result)
      decreases kMaxPath - |result|
    {
      var n := Min(NAME_MAX, kMaxPath - |result| - 1);
      var name := Filled(n);
      ShortNamesGrow(result, start, name);
      NulFreeConcat(result, name);
      NulFreeConcat(result + name, [SLASH]);
      result := result + name + [SLASH];
    }
    assert result[..|result| - 1] + [SLASH] == result;
    NulFreeConcat(result[..|result| - 1], [SLASH]);
    result := result[..|result| - 1];
    NulFreeConcat(result, OUTPUT);
    relative := result[|base| + 1..];
    assert base + [SLASH] + relative == result by {
      assert result[..|base| + 1] == base + [SLASH];
    }
    assert relative[..|salt|] == salt by {
      assert result[..start - 1] == head[..start - 1] == base + [SLASH] + salt;
      assert relative[..|salt|] == result[..start - 1][|base| + 1..];
    }
  }

  lemma ShortNamesGrow(path: seq<byte>, from: nat, name: seq<byte>)
    requires ShortNames(path, from) && path != [] && path[|path| - 1] == SLASH && |name| <= NAME_MAX && from <= |path|
    ensures ShortNames(path + name + [SLASH], from)
  {
    var longer := path + name + [SLASH];
    forall i: nat | from <= i && i + NAME_MAX < |longer| ensures SlashWithin(longer, i) {
      if i < |path| {
        if i + NAME_MAX < |path| {
          assert SlashWithin(path, i);
          var j :| i <= j <= i + NAME_MAX && path[j] == SLASH;
          assert longer[j] == SLASH;
        } else {
          assert longer[|path| - 1] == SLASH;
        }
      } else {
        assert longer[|longer| - 1] == SLASH;
      }
    }
  }

  // ---------------------------------------------------------------- what the scan is to find

  predicate Occurs(b: seq<byte>, prefix: seq<byte>, k: nat)
  {
    k + |prefix| <= |b| && b[k..k + |prefix|] == prefix
  }

  /** No occurrence comes before it in the same NUL-delimited run. */
  ghost predicate FirstInRun(b: seq<byte>, prefix: seq<byte>, k: nat)
  {
    && Occurs(b, prefix, k)
    && forall j: nat :: j < k && Occurs(b, prefix, j) ==> exists n :: j <= n < k && b[n] == 0
  }

  /** The string at `k` ends at `e`. */
  predicate EndsAt(b: seq<byte>, k: nat, e: nat)
  {
    k <= e < |b| && b[e] == 0 && forall n :: k <= n < e ==> b[n] != 0
  }

  ghost predicate Located(b: seq<byte>, prefix: seq<byte>, k: nat, total: nat)
  {
    FirstInRun(b, prefix, k) && EndsAt(b, k, k + total) && total <= PATH_MAX
  }

  predicate NulFree(s: seq<byte>) { forall x <- s :: x != 0 }

  lemma NulFreeConcat(s: seq<byte>, t: seq<byte>)
    ensures NulFree(s + t) <==> NulFree(s) && NulFree(t)
  {
    if NulFree(s + t) {
      assert forall x <- s :: x in s + t;
      assert forall x <- t :: x in s + t;
    }
  }

  /** Locations as the client may rely on them. */
  ghost predicate WellLocated(b: seq<byte>, prefix: seq<byte>, loc: Location)
  {
    && Occurs(b, prefix, loc.position)
    && EndsAt(b, loc.position, loc.position + loc.total)
    && loc.total <= PATH_MAX
    && loc.total == |prefix| + loc.suffix
  }

  ghost predicate Apart(locations: seq<Location>)
  {
    forall i, j :: 0 <= i < j < |locations| ==> locations[i].position + locations[i].total < locations[j].position
  }

  ghost predicate Has(locations: seq<Location>, k: nat, total: nat)
  {
    exists loc <- locations :: loc.position == k && loc.total == total
  }

  /** `locations` holds exactly the located strings that start before `limit`. */
  ghost predicate FoundUpTo(b: seq<byte>, prefix: seq<byte>, locations: seq<Location>, limit: nat)
  {
    && (forall loc <- locations :: WellLocated(b, prefix, loc) && Located(b, prefix, loc.position, loc.total)
                                && loc.position + loc.total <= limit)
    && (forall k: nat, t: nat :: Located(b, prefix, k, t) && k < limit ==> Has(locations, k, t))
    && Apart(locations)
  }

  // ---------------------------------------------------------------- the scan

  /** std::search: the first occurrence at or after `from`, or the end. */
  method Search(b: seq<byte>, from: nat, what: seq<byte>) returns (k: nat)
    requires from <= |b|
    ensures from <= k <= |b|
    ensures k < |b| ==> Occurs(b, what, k)
    ensures forall j: nat :: from <= j < k ==> !Occurs(b, what, j)
    ensures k == |b| && what != [] ==> !Occurs(b, what, k)
  {
    k := from;
    while k < |b| && !(k + |what| <= |b| && b[k..k + |what|] == what)
      invariant from <= k <= |b|
      invariant forall j: nat :: from <= j < k ==> !Occurs(b, what, j)
    {
      k := k + 1;
    }
  }

  predicate NoNul(b: seq<byte>, from: nat, to: nat)
    requires to <= |b|
  {
    forall n :: from <= n < to ==> b[n] != 0
  }

  lemma NulAt(b: seq<byte>, k: nat)
    ensures Occurs(b, [0], k) <==> k < |b| && b[k] == 0
  {
    if k < |b| {
      assert b[k..k + 1] == [b[k]];
    }
  }

  lemma OccursAt(b: seq<byte>, prefix: seq<byte>, k: nat, i: nat)
    requires Occurs(b, prefix, k) && i < |prefix|
    ensures b[k + i] == prefix[i]
  {
    assert b[k..k + |prefix|][i] == b[k + i];
  }

  /** One round of the scan: the run that holds `pos` and ends at `end`. */
  ghost predicate RunAt(b: seq<byte>, prefix: seq<byte>, start: nat, pos: nat, end: nat)
  {
    && start <= pos && pos + |prefix| <= end <= |b|
    && (end < |b| ==> b[end] == 0) && NoNul(b, pos, end)
    && FirstInRun(b, prefix, pos)
    && (forall j: nat :: start <= j < pos ==> !Occurs(b, prefix, j))
    && (forall j: nat :: pos < j < end ==> !FirstInRun(b, prefix, j))
  }

  lemma RunFound(b: seq<byte>, prefix: seq<byte>, start: nat, pos: nat, end: nat)
    requires prefix != [] && NulFree(prefix)
    requires start <= pos < |b| && (start == 0 || start == |b| || b[start] == 0)
    requires Occurs(b, prefix, pos) && forall j: nat :: start <= j < pos ==> !Occurs(b, prefix, j)
    requires pos <= end <= |b| && (end < |b| ==> Occurs(b, [0], end))
    requires forall j: nat :: pos <= j < end ==> !Occurs(b, [0], j)
    ensures RunAt(b, prefix, start, pos, end) && (start == 0 || start < pos)
  {
    NulAt(b, end);
    forall n | pos <= n < end ensures b[n] != 0 {
      NulAt(b, n);
    }
    forall n | pos <= n < pos + |prefix| ensures b[n] != 0 {
      OccursAt(b, prefix, pos, n - pos);
      assert prefix[n - pos] in prefix;
    }
    assert b[pos] != 0;
    forall j: nat | j < pos && Occurs(b, prefix, j) ensures exists n :: j <= n < pos && b[n] == 0 {
      assert j < start && b[start] == 0;
    }
    forall j: nat | pos < j < end ensures !FirstInRun(b, prefix, j) {
      assert forall n :: pos <= n < j ==> b[n] != 0;
    }
  }

  lemma NothingFurther(b: seq<byte>, prefix: seq<byte>, locations: seq<Location>, start: nat)
    requires prefix != [] && FoundUpTo(b, prefix, locations, start) && start <= |b|
    requires forall j: nat :: start <= j ==> !Occurs(b, prefix, j)
    ensures FoundUpTo(b, prefix, locations, |b|)
  {
  }

  lemma SkipRun(b: seq<byte>, prefix: seq<byte>, locations: seq<Location>, start: nat, pos: nat, end: nat)
    requires FoundUpTo(b, prefix, locations, start) && RunAt(b, prefix, start, pos, end)
    requires end == |b| || end - pos > PATH_MAX
    ensures FoundUpTo(b, prefix, locations, end)
  {
    forall k: nat, t: nat | Located(b, prefix, k, t) && k < end ensures Has(locations, k, t) {
      assert b[k + t] == 0;
    }
  }

  lemma TakeRun(b: seq<byte>, prefix: seq<byte>, locations: seq<Location>, start: nat, pos: nat, end: nat)
    requires FoundUpTo(b, prefix, locations, start) && RunAt(b, prefix, start, pos, end)
    requires end < |b| && end - pos <= PATH_MAX
    requires prefix != [] && (start == 0 || start < pos)
    ensures FoundUpTo(b, prefix, locations + [Location(pos, end - pos, end - pos - |prefix|)], end)
  {
    var added := Location(pos, end - pos, end - pos - |prefix|);
    var more := locations + [added];
    assert Located(b, prefix, pos, end - pos) && WellLocated(b, prefix, added);
    assert forall loc <- locations :: loc.position + loc.total < pos;
    forall k: nat, t: nat | Located(b, prefix, k, t) && k < end ensures Has(more, k, t) {
      if k >= start {
        LocatedInRun(b, prefix, start, pos, end, k, t);
        assert added in more;
      } else {
        assert Has(locations, k, t);
        assert forall loc <- locations :: loc in more;
      }
    }
    hide Located, WellLocated, RunAt, Has;
  }

  /** The only located string of a run is the one at its first occurrence. */
  lemma LocatedInRun(b: seq<byte>, prefix: seq<byte>, start: nat, pos: nat, end: nat, k: nat, t: nat)
    requires RunAt(b, prefix, start, pos, end) && Located(b, prefix, k, t) && start <= k < end < |b|
    ensures k == pos && k + t == end
  {
    assert b[k + t] == 0 && b[end] == 0;
  }

  method FindAllPathLocation(b: seq<byte>, prefix: seq<byte>) returns (locations: seq<Location>)
    requires prefix != [] && NulFree(prefix)
    ensures forall k: nat, t: nat :: Has(locations, k, t) <==> Located(b, prefix, k, t)
    ensures forall loc <- locations :: WellLocated(b, prefix, loc)
    ensures Apart(locations)
  {
    locations := [];
    var start := 0;
    while true
      invariant start <= |b|
      invariant start == 0 || start == |b| || b[start] == 0
      invariant FoundUpTo(b, prefix, locations, start)
      decreases |b| - start
    {
      var pos := Search(b, start, prefix);
      if pos == |b| {
        NothingFurther(b, prefix, locations, start);
        break;
      }
      var end := Search(b, pos, [0]);
      RunFound(b, prefix, start, pos, end);
      if end == |b| || end - pos > PATH_MAX {
        SkipRun(b, prefix, locations, start, pos, end);
        start := end;
        continue;
      }
      TakeRun(b, prefix, locations, start, pos, end);
      locations := locations + [Location(pos, end - pos, end - pos - |prefix|)];
      start := end;
    }
  }
}
