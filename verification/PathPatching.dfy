/**
 The client's half of path patching: every located string is rewritten in place so that it starts with
 the desired path instead of the servant's, keeps its suffix and is padded with NULs.
 */
module PathPatching {
  import opened Basics
  import opened PathLocations

  // ---------------------------------------------------------------- one location

  /** Room for the new string in place of the old one. */
  predicate Fits(loc: Location, desired: seq<byte>)
  {
    loc.suffix <= loc.total && |desired| + loc.suffix <= loc.total
  }

  predicate Inside(b: seq<byte>, loc: Location)
  {
    loc.suffix <= loc.total && loc.position + loc.total <= |b|
  }

  function Zeros(n: nat): seq<byte> { seq(n, i => 0) }

  function Patched(b: seq<byte>, loc: Location, desired: seq<byte>): (r: seq<byte>)
    requires Inside(b, loc) && Fits(loc, desired)
    ensures |r| == |b|
  {
    b[..loc.position] + desired + Suffix(b, loc) + Zeros(loc.total - loc.suffix - |desired|) + b[loc.position + loc.total..]
  }

  function Overwritten(b: seq<byte>, at: nat, data: seq<byte>): (r: seq<byte>)
    requires at + |data| <= |b|
    ensures |r| == |b|
  {
    b[..at] + data + b[at + |data|..]
  }

  /** memcpy */
  method CopyIn(file: array<byte>, at: nat, data: seq<byte>)
    requires at + |data| <= file.Length
    modifies file
    ensures file[..] == Overwritten(old(file[..]), at, data)
  {
    for i := 0 to |data|
      invariant file[..at] == old(file[..at])
      invariant file[at..at + i] == data[..i]
      invariant file[at + |data|..] == old(file[at + |data|..])
    {
      file[at + i] := data[i];
      assert file[at..at + i + 1] == file[at..at + i] + [data[i]];
    }
    assert file[..] == file[..at] + file[at..at + |data|] + file[at + |data|..];
  }

  /** memmove towards the front: as if through a buffer, though the ranges may overlap. */
  method Move(file: array<byte>, to: nat, from: nat, n: nat)
    requires to <= from && from + n <= file.Length
    modifies file
    ensures file[..] == Overwritten(old(file[..]), to, old(file[..])[from..from + n])
  {
    for i := 0 to n
      invariant file[..to] == old(file[..to])
      invariant file[to..to + i] == old(file[from..from + i])
      invariant file[to + i..] == old(file[to + i..])
    {
      assert file[from + i] == old(file[from + i]) by {
        assert file[to + i..][from - to] == old(file[to + i..])[from - to];
      }
      file[to + i] := file[from + i];
      assert file[to..to + i + 1] == file[to..to + i] + [file[to + i]];
      assert old(file[from..from + i + 1]) == old(file[from..from + i]) + [old(file[from + i])];
      assert file[to + i + 1..] == old(file[to + i..])[1..];
    }
    assert file[..] == file[..to] + file[to..to + n] + file[to + n..];
    assert old(file[from..from + n]) == old(file[..])[from..from + n];
  }

  /** memset */
  method Clear(file: array<byte>, at: nat, n: nat)
    requires at + n <= file.Length
    modifies file
    ensures file[..] == Overwritten(old(file[..]), at, Zeros(n))
  {
    for i := 0 to n
      invariant file[..at] == old(file[..at])
      invariant file[at..at + i] == Zeros(i)
      invariant file[at + n..] == old(file[at + n..])
    {
      file[at + i] := 0;
      assert file[at..at + i + 1] == file[at..at + i] + [0];
    }
    assert file[..] == file[..at] + file[at..at + n] + file[at + n..];
  }

  method ApplyPatch(file: array<byte>, loc: Location, desired: seq<byte>)
    requires Inside(file[..], loc) && Fits(loc, desired)
    modifies file
    ensures file[..] == Patched(old(file[..]), loc, desired)
  {
    hide *;
    ghost var b := file[..];
    ThreeWrites(b, loc, desired);
    CopyIn(file, loc.position, desired);
    ghost var b1 := file[..];
    Move(file, loc.position + |desired|, loc.position + loc.total - loc.suffix, loc.suffix);
    ghost var b2 := file[..];
    var newSize := |desired| + loc.suffix;
    Clear(file, loc.position + newSize, loc.total - newSize);
  }

  /** Copying, moving and clearing together make the patch: the copy does not reach the suffix. */
  lemma ThreeWrites(b: seq<byte>, loc: Location, desired: seq<byte>)
    requires Inside(b, loc) && Fits(loc, desired)
    ensures |desired| + loc.suffix <= loc.total && loc.position + loc.total <= |b|
    ensures var from := loc.position + loc.total - loc.suffix;
      var b1 := Overwritten(b, loc.position, desired);
      var b2 := Overwritten(b1, loc.position + |desired|, b1[from..from + loc.suffix]);
      Overwritten(b2, loc.position + |desired| + loc.suffix, Zeros(loc.total - |desired| - loc.suffix))
        == Patched(b, loc, desired)
  {
    var from := loc.position + loc.total - loc.suffix;
    var b1 := Overwritten(b, loc.position, desired);
    assert b1[from..from + loc.suffix] == Suffix(b, loc);
    var b2 := Overwritten(b1, loc.position + |desired|, Suffix(b, loc));
    var head := b[..loc.position] + desired + Suffix(b, loc);
    assert b2[..|head|] == head;
    assert b2[loc.position + loc.total..] == b[loc.position + loc.total..];
  }

  // ---------------------------------------------------------------- all locations of a file

  ghost predicate AllFit(n: nat, locations: seq<Location>, desired: seq<byte>)
  {
    forall i :: 0 <= i < |locations| ==> FitsIn(n, locations[i], desired)
  }

  predicate FitsIn(n: nat, loc: Location, desired: seq<byte>)
  {
    Fits(loc, desired) && loc.position + loc.total <= n
  }

  lemma FitsAt(n: nat, locations: seq<Location>, desired: seq<byte>, i: nat)
    requires AllFit(n, locations, desired) && i < |locations|
    ensures FitsIn(n, locations[i], desired)
    ensures AllFit(n, locations[..i], desired)
  {
  }

  ghost function PatchedAll(b: seq<byte>, locations: seq<Location>, desired: seq<byte>): (r: seq<byte>)
    requires AllFit(|b|, locations, desired)
    ensures |r| == |b|
  {
    if locations == [] then b
    else
      var last := locations[|locations| - 1];
      assert FitsIn(|b|, last, desired);
      Patched(PatchedAll(b, locations[..|locations| - 1], desired), last, desired)
  }

  predicate Within(loc: Location, k: int) { loc.position <= k < loc.position + loc.total }

  /** Both files agree on the located range. */
  ghost predicate SameWithin(b: seq<byte>, c: seq<byte>, loc: Location)
  {
    |b| == |c| && forall k :: 0 <= k < |b| && Within(loc, k) ==> b[k] == c[k]
  }

  ghost predicate SameOutside(b: seq<byte>, c: seq<byte>, loc: Location)
  {
    |b| == |c| && forall k :: 0 <= k < |b| && !Within(loc, k) ==> b[k] == c[k]
  }

  /** What a patch writes depends on the located range alone, and it writes nowhere else. */
  lemma PatchedIsLocal(b: seq<byte>, c: seq<byte>, loc: Location, desired: seq<byte>)
    requires Inside(b, loc) && Fits(loc, desired) && SameWithin(b, c, loc)
    ensures Inside(c, loc)
    ensures SameWithin(Patched(b, loc, desired), Patched(c, loc, desired), loc)
    ensures SameOutside(Patched(b, loc, desired), b, loc)
  {
    var start, end := loc.position, loc.position + loc.total;
    assert Suffix(b, loc) == Suffix(c, loc);
    var written := desired + Suffix(b, loc) + Zeros(loc.total - loc.suffix - |desired|);
    assert Patched(b, loc, desired) == b[..start] + written + b[end..];
    assert Patched(c, loc, desired) == c[..start] + written + c[end..];
  }

  /** No location covers `k`. */
  predicate Uncovered(locations: seq<Location>, k: int)
  {
    forall i :: 0 <= i < |locations| ==> !Within(locations[i], k)
  }

  lemma {:induction false} OutsideIsKept(b: seq<byte>, locations: seq<Location>, desired: seq<byte>, k: nat)
    requires AllFit(|b|, locations, desired) && k < |b| && Uncovered(locations, k)
    ensures PatchedAll(b, locations, desired)[k] == b[k]
  {
    if locations != [] {
      var n := |locations| - 1;
      FitsAt(|b|, locations, desired, n);
      assert Uncovered(locations[..n], k) && !Within(locations[n], k);
      hide AllFit, Uncovered, Patched;
      var front := PatchedAll(b, locations[..n], desired);
      OutsideIsKept(b, locations[..n], desired, k);
      PatchedIsLocal(front, front, locations[n], desired);
    }
  }

  lemma ApartWithin(locations: seq<Location>, i: nat, j: nat, k: int)
    requires Apart(locations) && i < |locations| && j < |locations| && i != j && Within(locations[i], k)
    ensures !Within(locations[j], k)
  {
  }

  /** The last location is found as it was. */
  lemma LastUntouched(b: seq<byte>, locations: seq<Location>, desired: seq<byte>)
    requires AllFit(|b|, locations, desired) && Apart(locations) && locations != []
    ensures AllFit(|b|, locations[..|locations| - 1], desired)
    ensures SameWithin(PatchedAll(b, locations[..|locations| - 1], desired), b, locations[|locations| - 1])
  {
    var n := |locations| - 1;
    FitsAt(|b|, locations, desired, n);
    hide AllFit, PatchedAll;
    forall k | 0 <= k < |b| && Within(locations[n], k) ensures PatchedAll(b, locations[..n], desired)[k] == b[k] {
      forall j | 0 <= j < n ensures !Within(locations[j], k) {
        ApartWithin(locations, n, j, k);
      }
      OutsideIsKept(b, locations[..n], desired, k);
    }
  }

  lemma ElsewhereUntouched(b: seq<byte>, locations: seq<Location>, i: nat, desired: seq<byte>)
    requires Apart(locations) && i < |locations| - 1 && FitsIn(|b|, locations[|locations| - 1], desired)
    ensures SameWithin(Patched(b, locations[|locations| - 1], desired), b, locations[i])
  {
    var n := |locations| - 1;
    hide Patched;
    PatchedIsLocal(b, b, locations[n], desired);
    forall k | 0 <= k < |b| && Within(locations[i], k) ensures Patched(b, locations[n], desired)[k] == b[k] {
      ApartWithin(locations, i, n, k);
    }
  }

  lemma ApartFront(locations: seq<Location>, n: nat)
    requires Apart(locations) && n <= |locations|
    ensures Apart(locations[..n])
  {
  }

  lemma SameWithinTransitive(a: seq<byte>, b: seq<byte>, c: seq<byte>, loc: Location)
    requires SameWithin(a, b, loc) && SameWithin(b, c, loc)
    ensures SameWithin(a, c, loc)
  {
  }

  /** Locations apart from each other are patched as if each were alone. */
  lemma {:induction false} EachAsIfAlone(b: seq<byte>, locations: seq<Location>, desired: seq<byte>, i: nat)
    requires AllFit(|b|, locations, desired) && Apart(locations) && i < |locations|
    ensures FitsIn(|b|, locations[i], desired)
    ensures SameWithin(PatchedAll(b, locations, desired), Patched(b, locations[i], desired), locations[i])
  {
    hide Patched, SameOutside, SameWithin, Apart, AllFit;
    var n := |locations| - 1;
    FitsAt(|b|, locations, desired, i);
    FitsAt(|b|, locations, desired, n);
    var last, rest := locations[n], locations[..n];
    var front := PatchedAll(b, rest, desired);
    if i == n {
      LastUntouched(b, locations, desired);
      PatchedIsLocal(front, b, last, desired);
    } else {
      assert rest[i] == locations[i];
      ApartFront(locations, n);
      EachAsIfAlone(b, rest, desired, i);
      ElsewhereUntouched(front, locations, i, desired);
      SameWithinTransitive(Patched(front, last, desired), front, Patched(b, locations[i], desired), locations[i]);
    }
  }

  /** `text` is the NUL-terminated string at `k`. */
  predicate ReadsAt(b: seq<byte>, k: nat, text: seq<byte>)
  {
    k + |text| < |b| && b[k..k + |text|] == text && b[k + |text|] == 0 && NulFree(text)
  }

  /** What follows the prefix in a located string. */
  function Suffix(b: seq<byte>, loc: Location): seq<byte>
    requires Inside(b, loc)
  {
    b[loc.position + loc.total - loc.suffix..loc.position + loc.total]
  }

  lemma LocatedReads(b: seq<byte>, prefix: seq<byte>, loc: Location)
    requires WellLocated(b, prefix, loc) && NulFree(prefix)
    ensures Inside(b, loc) && ReadsAt(b, loc.position, prefix + Suffix(b, loc)) && NulFree(Suffix(b, loc))
  {
    var suffix := Suffix(b, loc);
    assert b[loc.position..loc.position + loc.total] == b[loc.position..loc.position + |prefix|] + suffix;
    forall x | x in suffix ensures x != 0 {
      var i :| 0 <= i < |suffix| && suffix[i] == x;
      assert b[loc.position + |prefix| + i] == x;
    }
  }

  /** The located range starts with `text`, followed by a NUL if there is room. */
  ghost predicate Written(r: seq<byte>, loc: Location, text: seq<byte>)
  {
    && |text| <= loc.total && loc.position + loc.total <= |r|
    && r[loc.position..loc.position + |text|] == text
    && (|text| < loc.total ==> r[loc.position + |text|] == 0)
  }

  lemma AloneReads(b: seq<byte>, loc: Location, desired: seq<byte>)
    requires Inside(b, loc) && Fits(loc, desired)
    ensures Written(Patched(b, loc, desired), loc, desired + Suffix(b, loc))
  {
    var text := desired + Suffix(b, loc);
    assert Patched(b, loc, desired)
        == b[..loc.position] + text + Zeros(loc.total - loc.suffix - |desired|) + b[loc.position + loc.total..];
  }

  lemma ReadsTransfer(r: seq<byte>, alone: seq<byte>, loc: Location, text: seq<byte>)
    requires SameWithin(r, alone, loc) && Written(alone, loc, text) && NulFree(text)
    requires loc.position + loc.total < |r| && r[loc.position + loc.total] == 0
    ensures ReadsAt(r, loc.position, text)
  {
    assert r[loc.position..loc.position + |text|] == alone[loc.position..loc.position + |text|];
  }

  lemma LocationReads(b: seq<byte>, prefix: seq<byte>, locations: seq<Location>, desired: seq<byte>, i: nat)
    requires Apart(locations) && NulFree(prefix) && NulFree(desired) && AllFit(|b|, locations, desired)
    requires i < |locations| && WellLocated(b, prefix, locations[i])
    ensures Inside(b, locations[i])
    ensures ReadsAt(PatchedAll(b, locations, desired), locations[i].position, desired + Suffix(b, locations[i]))
  {
    hide Patched, PatchedAll, SameWithin, Suffix, ReadsAt, NulFree, Apart, WellLocated, Written, AllFit;
    var loc := locations[i];
    LocatedReads(b, prefix, loc);
    EachAsIfAlone(b, locations, desired, i);
    AloneReads(b, loc, desired);
    TerminatorKept(b, prefix, locations, desired, i);
    NulFreeConcat(desired, Suffix(b, loc));
    ReadsTransfer(PatchedAll(b, locations, desired), Patched(b, loc, desired), loc, desired + Suffix(b, loc));
  }

  lemma TerminatorKept(b: seq<byte>, prefix: seq<byte>, locations: seq<Location>, desired: seq<byte>, i: nat)
    requires AllFit(|b|, locations, desired) && Apart(locations) && i < |locations| && WellLocated(b, prefix, locations[i])
    ensures var end := locations[i].position + locations[i].total;
      end < |b| && PatchedAll(b, locations, desired)[end] == 0
  {
    hide PatchedAll, AllFit;
    OutsideIsKept(b, locations, desired, locations[i].position + locations[i].total);
  }

  /**
   Scan plus patch: with locations as the scan reports them and any NUL-free path no longer than the
   servant's prefix, every located string, which read prefix and suffix before, reads desired path and
   the same suffix afterwards; the file keeps its length and no byte outside the located strings changes.
   */
  lemma ScanPlusPatch(b: seq<byte>, prefix: seq<byte>, locations: seq<Location>, desired: seq<byte>)
    requires (forall loc <- locations :: WellLocated(b, prefix, loc)) && Apart(locations)
    requires NulFree(prefix) && NulFree(desired) && |desired| <= |prefix|
    ensures AllFit(|b|, locations, desired)
    ensures |PatchedAll(b, locations, desired)| == |b|
    ensures forall loc <- locations ::
      && ReadsAt(b, loc.position, prefix + Suffix(b, loc))
      && ReadsAt(PatchedAll(b, locations, desired), loc.position, desired + Suffix(b, loc))
    ensures forall k :: 0 <= k < |b| && Uncovered(locations, k) ==> PatchedAll(b, locations, desired)[k] == b[k]
  {
    hide PatchedAll, ReadsAt, Suffix;
    forall i | 0 <= i < |locations| ensures FitsIn(|b|, locations[i], desired) {
      assert locations[i] in locations;
    }
    forall loc | loc in locations
      ensures Inside(b, loc) && ReadsAt(b, loc.position, prefix + Suffix(b, loc))
      ensures ReadsAt(PatchedAll(b, locations, desired), loc.position, desired + Suffix(b, loc))
    {
      LocatedReads(b, prefix, loc);
      var i :| 0 <= i < |locations| && locations[i] == loc;
      LocationReads(b, prefix, locations, desired, i);
    }
    forall k | 0 <= k < |b| && Uncovered(locations, k) ensures PatchedAll(b, locations, desired)[k] == b[k] {
      OutsideIsKept(b, locations, desired, k);
    }
  }

  /** The client's own check only compares with the whole string: it lets through what does not fit. */
  lemma CheckIsTooWeak(b: seq<byte>, prefix: seq<byte>, loc: Location, desired: seq<byte>)
    requires WellLocated(b, prefix, loc)
    ensures Fits(loc, desired) <==> |desired| <= |prefix|
    ensures |desired| <= loc.total && !Fits(loc, desired) <==> |prefix| < |desired| <= |prefix| + loc.suffix
  {
  }

  /** For instance ".gcno" after a prefix of the servant's least length, and a path up to five bytes longer than that. */
  lemma CheckIsTooWeakExample(prefix: seq<byte>, desired: seq<byte>)
    requires |prefix| == PATH_MAX - 25 < |desired| <= PATH_MAX - 20 && NulFree(prefix)
    ensures var b := prefix + [46, 103, 99, 110, 111, 0];
      var loc := Location(0, |prefix| + 5, 5);
      WellLocated(b, prefix, loc) && |desired| <= loc.total && !Fits(loc, desired)
  {
    var b := prefix + [46, 103, 99, 110, 111, 0];
    assert b[0..|prefix|] == prefix;
    forall n | 0 <= n < |prefix| ensures b[n] != 0 {
      assert prefix[n] in prefix;
    }
  }

  /** The long directory name leaves room for every path of up to PATH_MAX - 25 bytes. */
  lemma LongPrefixLeavesRoom(b: seq<byte>, prefix: seq<byte>, locations: seq<Location>, desired: seq<byte>)
    requires |prefix| >= PATH_MAX - 25 >= |desired|
    requires forall loc <- locations :: WellLocated(b, prefix, loc)
    ensures Patchable(|b|, locations, desired) && LargeEnough(locations, desired) && AllFit(|b|, locations, desired)
  {
  }

  // ---------------------------------------------------------------- all files

  datatype OutputFile = OutputFile(suffix: string, bytes: array<byte>)

  /** What the rewriting silently demands: a string that passes the size check also fits. */
  ghost predicate Patchable(n: nat, locations: seq<Location>, desired: seq<byte>)
  {
    forall loc <- locations ::
      loc.suffix <= loc.total && loc.position + loc.total <= n && (|desired| <= loc.total ==> Fits(loc, desired))
  }

  predicate LargeEnough(locations: seq<Location>, desired: seq<byte>)
  {
    forall loc <- locations :: |desired| <= loc.total
  }

  /** The file after the first `n` of its patches. */
  ghost predicate PatchedTo(now: seq<byte>, was: seq<byte>, locations: seq<Location>, n: nat, desired: seq<byte>)
  {
    n <= |locations| && AllFit(|was|, locations[..n], desired) && now == PatchedAll(was, locations[..n], desired)
  }

  method PatchFile(file: array<byte>, locations: seq<Location>, desired: seq<byte>) returns (ok: bool, ghost n: nat)
    requires Patchable(file.Length, locations, desired)
    modifies file
    ensures ok <==> LargeEnough(locations, desired)
    ensures PatchedTo(file[..], old(file[..]), locations, n, desired) && (ok ==> n == |locations|)
  {
    n := 0;
    for i := 0 to |locations|
      invariant PatchedTo(file[..], old(file[..]), locations, i, desired)
      invariant LargeEnough(locations[..i], desired)
    {
      var loc := locations[i];
      assert loc in locations;
      if |desired| > loc.total {
        return false, i;
      }
      NextPatch(file[..], old(file[..]), locations, i, desired);
      ApplyPatch(file, loc, desired);
    }
    assert locations[..|locations|] == locations;
    return true, |locations|;
  }

  lemma NextPatch(now: seq<byte>, was: seq<byte>, locations: seq<Location>, n: nat, desired: seq<byte>)
    requires PatchedTo(now, was, locations, n, desired) && LargeEnough(locations[..n], desired)
    requires n < |locations| && Inside(now, locations[n]) && Fits(locations[n], desired)
    ensures PatchedTo(Patched(now, locations[n], desired), was, locations, n + 1, desired)
    ensures LargeEnough(locations[..n + 1], desired)
  {
    var more := locations[..n + 1];
    assert more == locations[..n] + [locations[n]];
    assert more[..|more| - 1] == locations[..n];
  }

  ghost predicate Separate(files: seq<OutputFile>)
  {
    forall i, j :: 0 <= i < j < |files| ==> files[i].bytes != files[j].bytes
  }

  function LocationsOf(patches: map<string, seq<Location>>, suffix: string): seq<Location>
  {
    if suffix in patches then patches[suffix] else []
  }

  /** Everything a patch was sent for is there and is large enough. */
  ghost predicate Appliable(files: seq<OutputFile>, patches: map<string, seq<Location>>, desired: seq<byte>)
  {
    && (forall f <- files :: LargeEnough(LocationsOf(patches, f.suffix), desired))
    && (forall s <- patches :: exists f <- files :: f.suffix == s)
  }

  method PatchPathOccurrences(files: seq<OutputFile>, patches: map<string, seq<Location>>, desired: seq<byte>)
    returns (ok: bool, ghost done: seq<nat>)
    requires Separate(files)
    requires forall f <- files :: Patchable(f.bytes.Length, LocationsOf(patches, f.suffix), desired)
    modifies set f | f in files :: f.bytes
    ensures ok <==> Appliable(files, patches, desired)
    ensures |done| == |files|
    ensures forall i :: 0 <= i < |files| ==>
      PatchedTo(files[i].bytes[..], old(files[i].bytes[..]), LocationsOf(patches, files[i].suffix), done[i], desired)
    ensures ok ==> forall i :: 0 <= i < |files| ==> done[i] == |LocationsOf(patches, files[i].suffix)|
  {
    hide PatchedTo, LargeEnough, Patchable, Appliable, Suffixes, LocationsOf;
    NoSuffixes(files);
    var applied: set<string> := {};
    done := seq(|files|, i => 0);
    forall i | 0 <= i < |files|
      ensures PatchedTo(files[i].bytes[..], files[i].bytes[..], LocationsOf(patches, files[i].suffix), 0, desired)
    {
      Unpatched(files[i].bytes[..], LocationsOf(patches, files[i].suffix), desired);
    }
    for i := 0 to |files|
      invariant |done| == |files|
      invariant forall j :: 0 <= j < |files| ==>
        PatchedTo(files[j].bytes[..], old(files[j].bytes[..]), LocationsOf(patches, files[j].suffix), done[j], desired)
      invariant forall j :: 0 <= j < i ==> done[j] == |LocationsOf(patches, files[j].suffix)|
      invariant forall j :: i <= j < |files| ==> files[j].bytes[..] == old(files[j].bytes[..]) && done[j] == 0
      invariant forall j :: 0 <= j < i ==> LargeEnough(LocationsOf(patches, files[j].suffix), desired)
      invariant applied == Suffixes(files, i) * patches.Keys
    {
      var file := files[i];
      assert file in files;
      NextSuffix(files, i);
      if file.suffix !in patches {
        NothingToPatch(patches, file.suffix, desired);
        continue;
      }
      applied := applied + {file.suffix};
      TheLocations(patches, file.suffix);
      var large, n := PatchFile(file.bytes, patches[file.suffix], desired);
      done := done[i := n];
      if !large {
        TooSmall(files, patches, desired, i);
        return false, done;
      }
    }
    ok := AllApplied(patches, applied);
    AppliableIff(files, patches, desired);
  }

  method AllApplied(patches: map<string, seq<Location>>, applied: set<string>) returns (ok: bool)
    ensures ok <==> patches.Keys <= applied
  {
    var left := patches.Keys;
    while left != {}
      invariant left <= patches.Keys
      invariant patches.Keys - left <= applied
      decreases left
    {
      var s :| s in left;
      if s !in applied {
        return false;
      }
      left := left - {s};
    }
    return true;
  }

  ghost function Suffixes(files: seq<OutputFile>, n: nat): set<string>
    requires n <= |files|
  {
    set i | 0 <= i < n :: files[i].suffix
  }

  lemma NoSuffixes(files: seq<OutputFile>)
    ensures Suffixes(files, 0) == {}
  {
  }

  lemma NextSuffix(files: seq<OutputFile>, i: nat)
    requires i < |files|
    ensures Suffixes(files, i + 1) == Suffixes(files, i) + {files[i].suffix}
  {
  }

  lemma TheLocations(patches: map<string, seq<Location>>, suffix: string)
    requires suffix in patches
    ensures LocationsOf(patches, suffix) == patches[suffix]
  {
  }

  lemma NothingToPatch(patches: map<string, seq<Location>>, suffix: string, desired: seq<byte>)
    requires suffix !in patches
    ensures LocationsOf(patches, suffix) == [] && LargeEnough(LocationsOf(patches, suffix), desired)
  {
  }

  lemma TooSmall(files: seq<OutputFile>, patches: map<string, seq<Location>>, desired: seq<byte>, i: nat)
    requires i < |files| && !LargeEnough(LocationsOf(patches, files[i].suffix), desired)
    ensures !Appliable(files, patches, desired)
  {
    assert files[i] in files;
  }

  lemma AppliableIff(files: seq<OutputFile>, patches: map<string, seq<Location>>, desired: seq<byte>)
    requires forall i :: 0 <= i < |files| ==> LargeEnough(LocationsOf(patches, files[i].suffix), desired)
    ensures Appliable(files, patches, desired) <==> patches.Keys <= Suffixes(files, |files|) * patches.Keys
  {
    forall s | s in patches ensures s in Suffixes(files, |files|) <==> exists f <- files :: f.suffix == s {
      if s in Suffixes(files, |files|) {
        var i :| 0 <= i < |files| && files[i].suffix == s;
        assert files[i] in files;
      }
    }
  }

  lemma Unpatched(b: seq<byte>, locations: seq<Location>, desired: seq<byte>)
    ensures PatchedTo(b, b, locations, 0, desired)
  {
  }

  // ---------------------------------------------------------------- both programs in a row

  /** No located string covers the byte. */
  ghost predicate OutsideAll(b: seq<byte>, prefix: seq<byte>, i: nat)
  {
    forall k: nat, t: nat :: Located(b, prefix, k, t) ==> !(k <= i < k + t)
  }

  /** The string located at `k` starts with the client's path now and goes on as before. */
  ghost predicate Renamed(was: seq<byte>, now: seq<byte>, prefix: seq<byte>, desired: seq<byte>, k: nat, t: nat)
  {
    |prefix| <= t && k + t <= |was| && ReadsAt(now, k, desired + was[k + |prefix|..k + t])
  }

  /** What the client may expect of a file: located strings begin with its own path, all else is as it was. */
  ghost predicate Relocated(was: seq<byte>, now: seq<byte>, prefix: seq<byte>, desired: seq<byte>)
  {
    && |now| == |was|
    && (forall k: nat, t: nat :: Located(was, prefix, k, t) ==> Renamed(was, now, prefix, desired, k, t))
    && (forall i: nat :: i < |was| && OutsideAll(was, prefix, i) ==> now[i] == was[i])
  }

  /**
   The servant builds below its long directory, scans a file for it and the client patches what was found:
   for every path of up to PATH_MAX - 25 bytes the patch succeeds and every string that named the servant's
   output names the client's instead.
   */
  method ServantThenClient(base: seq<byte>, salt: seq<byte>, file: array<byte>, desired: seq<byte>)
    returns (ok: bool, ghost prefix: seq<byte>)
    requires NulFree(base) && NulFree(salt) && NulFree(desired) && |desired| <= PATH_MAX - 25
    modifies file
    ensures ok && |prefix| >= PATH_MAX - 25 && base + [SLASH] + salt <= prefix
    ensures Relocated(old(file[..]), file[..], prefix, desired)
  {
    var relative := MakeLongLongRelativePathWith(base, salt);
    var servants := base + [SLASH] + relative + OUTPUT;
    prefix := servants;
    ghost var was := file[..];
    var locations := FindAllPathLocation(file[..], servants);
    LongPrefixLeavesRoom(was, servants, locations, desired);
    ghost var n: nat;
    ok, n := PatchFile(file, locations, desired);
    assert locations[..n] == locations;
    RelocatedByPatch(was, servants, locations, desired);
    assert base + [SLASH] + salt <= base + [SLASH] + relative <= servants;
  }

  /** The scan has found exactly the located strings. */
  ghost predicate Found(b: seq<byte>, prefix: seq<byte>, locations: seq<Location>)
  {
    && (forall loc <- locations :: WellLocated(b, prefix, loc)) && Apart(locations)
    && forall k: nat, t: nat :: Has(locations, k, t) <==> Located(b, prefix, k, t)
  }

  lemma RenamedByPatch(b: seq<byte>, prefix: seq<byte>, locations: seq<Location>, desired: seq<byte>, k: nat, t: nat)
    requires Found(b, prefix, locations) && Located(b, prefix, k, t)
    requires NulFree(prefix) && NulFree(desired) && AllFit(|b|, locations, desired)
    ensures Renamed(b, PatchedAll(b, locations, desired), prefix, desired, k, t)
  {
    hide PatchedAll, ReadsAt, Located, Apart, NulFree, AllFit;
    assert Has(locations, k, t);
    var loc :| loc in locations && loc.position == k && loc.total == t;
    var i :| 0 <= i < |locations| && locations[i] == loc;
    LocationReads(b, prefix, locations, desired, i);
    assert Suffix(b, loc) == b[k + |prefix|..k + t];
  }

  lemma KeptByPatch(b: seq<byte>, prefix: seq<byte>, locations: seq<Location>, desired: seq<byte>, i: nat)
    requires Found(b, prefix, locations) && AllFit(|b|, locations, desired) && i < |b| && OutsideAll(b, prefix, i)
    ensures PatchedAll(b, locations, desired)[i] == b[i]
  {
    hide PatchedAll, Located, Apart, AllFit, WellLocated;
    forall j | 0 <= j < |locations| ensures !Within(locations[j], i) {
      assert locations[j] in locations;
      assert Has(locations, locations[j].position, locations[j].total);
    }
    OutsideIsKept(b, locations, desired, i);
  }

  lemma RelocatedByPatch(b: seq<byte>, prefix: seq<byte>, locations: seq<Location>, desired: seq<byte>)
    requires Found(b, prefix, locations) && NulFree(prefix) && NulFree(desired) && AllFit(|b|, locations, desired)
    ensures Relocated(b, PatchedAll(b, locations, desired), prefix, desired)
  {
    hide PatchedAll, Located, AllFit, Found, NulFree, OutsideAll, Renamed;
    forall k: nat, t: nat | Located(b, prefix, k, t)
      ensures Renamed(b, PatchedAll(b, locations, desired), prefix, desired, k, t)
    {
      RenamedByPatch(b, prefix, locations, desired, k, t);
    }
    forall i: nat | i < |b| && OutsideAll(b, prefix, i) ensures PatchedAll(b, locations, desired)[i] == b[i] {
      KeptByPatch(b, prefix, locations, desired, i);
    }
  }
}
