/** Splitting text at every occurrence of a pattern, empty pieces left out. */
module TextSplit {

  predicate Matches(s: string, pattern: string, k: nat)
  {
    k + |pattern| <= |s| && s[k..k + |pattern|] == pattern
  }

  /** string_view::find: the first match, or the length if there is none. */
  ghost predicate IsFind(s: string, pattern: string, k: nat)
  {
    && k <= |s|
    && (k < |s| ==> Matches(s, pattern, k))
    && forall j: nat :: j < k ==> !Matches(s, pattern, j)
  }

  method Find(s: string, pattern: string) returns (k: nat)
    ensures k <= |s| && IsFind(s, pattern, k)
  {
    k := 0;
    while k < |s| && !(k + |pattern| <= |s| && s[k..k + |pattern|] == pattern)
      invariant k <= |s|
      invariant forall j: nat :: j < k ==> !Matches(s, pattern, j)
    {
      k := k + 1;
    }
  }

  function Piece(s: string): seq<string> { if s == [] then [] else [s] }

  /** The text between matches, scanned from the left. */
  ghost function Pieces(s: string, pattern: string): seq<string>
    requires pattern != []
    decreases |s|
  {
    if k: nat :| IsFind(s, pattern, k) && k < |s| then Piece(s[..k]) + Pieces(s[k + |pattern|..], pattern)
    else Piece(s)
  }

  lemma FindUnique(s: string, pattern: string, k: nat, j: nat)
    requires IsFind(s, pattern, k) && IsFind(s, pattern, j)
    ensures k == j
  {
  }

  lemma PiecesStep(s: string, pattern: string, k: nat)
    requires pattern != [] && IsFind(s, pattern, k)
    ensures k < |s| ==> k + |pattern| <= |s| && Pieces(s, pattern) == Piece(s[..k]) + Pieces(s[k + |pattern|..], pattern)
    ensures k == |s| ==> Pieces(s, pattern) == Piece(s)
  {
    forall j: nat | IsFind(s, pattern, j) ensures j == k {
      FindUnique(s, pattern, k, j);
    }
  }

  method Split(text: string, pattern: string) returns (result: seq<string>)
    requires pattern != []
    ensures result == Pieces(text, pattern)
    ensures forall p <- result :: p != []
  {
    result := [];
    if text == [] {
      assert IsFind(text, pattern, 0);
      PiecesStep(text, pattern, 0);
      return;
    }
    var rest := text;
    hide Pieces, IsFind, Matches;
    while true
      invariant Pieces(text, pattern) == result + Pieces(rest, pattern)
      invariant forall p <- result :: p != []
      decreases |rest|
    {
      var pos := Find(rest, pattern);
      PiecesStep(rest, pattern, pos);
      if pos == |rest| {
        break;
      }
      var part := rest[..pos];
      rest := rest[pos + |pattern|..];
      Regroup(result, Piece(part), Pieces(rest, pattern));
      if part != [] {
        result := result + [part];
      }
    }
    if rest != [] {
      result := result + [rest];
    }
  }

  lemma Regroup(a: seq<string>, b: seq<string>, c: seq<string>)
    ensures a + (b + c) == (a + b) + c
    ensures a + [] == a
  {
  }

  // ---------------------------------------------------------------- joining and splitting at one character

  function Joined(parts: seq<string>, c: char): string
  {
    if parts == [] then [] else if |parts| == 1 then parts[0] else parts[0] + [c] + Joined(parts[1..], c)
  }

  predicate Without(s: string, c: char) { forall x <- s :: x != c }

  lemma FindFirst(a: string, c: char, b: string)
    requires Without(a, c)
    ensures IsFind(a + [c] + b, [c], |a|)
  {
    var s := a + [c] + b;
    assert s[|a|..|a| + 1] == [c];
    forall j: nat | j < |a| ensures !Matches(s, [c], j) {
      assert s[j] == a[j] && a[j] in a;
      assert s[j..j + 1][0] == s[j];
    }
  }

  lemma FindNone(a: string, c: char)
    requires Without(a, c)
    ensures IsFind(a, [c], |a|)
  {
    forall j: nat | j < |a| ensures !Matches(a, [c], j) {
      assert a[j] in a;
      assert a[j..j + 1][0] == a[j];
    }
  }

  /** Splitting undoes joining for non-empty parts without the separator. */
  lemma {:induction false} SplitJoined(parts: seq<string>, c: char)
    requires forall p <- parts :: p != [] && Without(p, c)
    ensures Pieces(Joined(parts, c), [c]) == parts
  {
    if parts == [] {
      FindNone([], c);
      PiecesStep([], [c], 0);
    } else if |parts| == 1 {
      assert parts[0] in parts;
      FindNone(parts[0], c);
      PiecesStep(parts[0], [c], |parts[0]|);
    } else {
      assert parts[0] in parts;
      var rest := Joined(parts[1..], c);
      FindFirst(parts[0], c, rest);
      var s := parts[0] + [c] + rest;
      PiecesStep(s, [c], |parts[0]|);
      assert s[|parts[0]| + 1..] == rest && s[..|parts[0]|] == parts[0];
      assert forall p <- parts[1..] :: p in parts;
      SplitJoined(parts[1..], c);
      assert parts == [parts[0]] + parts[1..];
    }
  }
}
