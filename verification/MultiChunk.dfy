/**
 The multi-chunk format: the sizes in decimal, separated by commas and ended by CRLF, then the chunks.
 Bytes are characters. The parser adds sizes in 64 bits, so its total may wrap.
 */
module MultiChunk {
  import opened Decimals
  import opened TextSplit

  const WORD: int := 0x1_0000_0000_0000_0000

  /** `Overrun`: the sizes passed the check only because their sum wrapped, and the cutting runs off the end. */
  datatype Parsed = Chunks(parts: seq<string>) | Malformed | Overrun

  // ---------------------------------------------------------------- printing

  function Sizes(parts: seq<string>): seq<string>
  {
    seq(|parts|, i requires 0 <= i < |parts| => Decimal(|parts[i]|))
  }

  function Concat(parts: seq<string>): string
  {
    if parts == [] then [] else parts[0] + Concat(parts[1..])
  }

  function HeaderOf(parts: seq<string>): string
  {
    if parts == [] then "" else Joined(Sizes(parts), ',') + "\r\n"
  }

  /** The sizes so far, each followed by a comma. */
  function Listed(sizes: seq<string>): string
  {
    if sizes == [] then [] else sizes[0] + [','] + Listed(sizes[1..])
  }

  lemma {:induction false} ListedSnoc(sizes: seq<string>, s: string)
    ensures Listed(sizes + [s]) == Listed(sizes) + s + [',']
  {
    if sizes == [] {
      assert sizes + [s] == [s];
    } else {
      assert (sizes + [s])[1..] == sizes[1..] + [s];
      ListedSnoc(sizes[1..], s);
    }
  }

  lemma {:induction false} ListedIsJoined(sizes: seq<string>)
    requires sizes != []
    ensures Listed(sizes) == Joined(sizes, ',') + [',']
  {
    if |sizes| == 1 {
      assert sizes[1..] == [];
    } else {
      ListedIsJoined(sizes[1..]);
    }
  }

  lemma {:induction false} ConcatSnoc(parts: seq<string>, s: string)
    ensures Concat(parts + [s]) == Concat(parts) + s
  {
    if parts == [] {
      assert parts + [s] == [s];
    } else {
      assert (parts + [s])[1..] == parts[1..] + [s];
      ConcatSnoc(parts[1..], s);
    }
  }

  method MakeMultiChunkHeader(parts: seq<string>) returns (result: string)
    ensures result == HeaderOf(parts)
  {
    if parts == [] {
      return "";
    }
    result := "";
    for i := 0 to |parts|
      invariant result == Listed(Sizes(parts[..i]))
    {
      assert Sizes(parts[..i + 1]) == Sizes(parts[..i]) + [Decimal(|parts[i]|)];
      ListedSnoc(Sizes(parts[..i]), Decimal(|parts[i]|));
      result := result + Decimal(|parts[i]|) + ",";
    }
    assert parts[..|parts|] == parts;
    ListedIsJoined(Sizes(parts));
    result := result[..|result| - 1];
    assert result == Joined(Sizes(parts), ',');
    result := result + "\r\n";
  }

  method MakeMultiChunk(parts: seq<string>) returns (result: string)
    ensures result == HeaderOf(parts) + Concat(parts)
  {
    if parts == [] {
      return "";
    }
    result := "";
    for i := 0 to |parts|
      invariant result == Listed(Sizes(parts[..i]))
    {
      assert Sizes(parts[..i + 1]) == Sizes(parts[..i]) + [Decimal(|parts[i]|)];
      ListedSnoc(Sizes(parts[..i]), Decimal(|parts[i]|));
      result := result + Decimal(|parts[i]|) + ",";
    }
    assert parts[..|parts|] == parts;
    ListedIsJoined(Sizes(parts));
    result := result[..|result| - 1];
    assert result == Joined(Sizes(parts), ',');
    result := result + "\r\n";
    for i := 0 to |parts|
      invariant result == HeaderOf(parts) + Concat(parts[..i])
    {
      assert parts[..i + 1] == parts[..i] + [parts[i]];
      ConcatSnoc(parts[..i], parts[i]);
      result := result + parts[i];
    }
  }

  // ---------------------------------------------------------------- parsing

  predicate AcceptableSize(n: int) { 0 < n && n != LONG_MAX }

  function ReadSizes(sizes: seq<string>): seq<int>
  {
    seq(|sizes|, i requires 0 <= i < |sizes| => Strtol(sizes[i]))
  }

  function Sum(ns: seq<int>): int
  {
    if ns == [] then 0 else Sum(ns[..|ns| - 1]) + ns[|ns| - 1]
  }

  predicate Positive(ns: seq<int>) { forall i :: 0 <= i < |ns| ==> 0 < ns[i] }

  predicate AllAcceptable(ns: seq<int>) { forall i :: 0 <= i < |ns| ==> AcceptableSize(ns[i]) }

  /** Cuts chunks of the given sizes off the front. */
  function Cut(rest: string, ns: seq<int>): Parsed
    requires Positive(ns)
  {
    if ns == [] then Chunks([])
    else if ns[0] > |rest| then Overrun
    else
      var tail := Cut(rest[ns[0]..], ns[1..]);
      if tail.Chunks? then Chunks([rest[..ns[0]]] + tail.parts) else tail
  }

  /** The parser as a function of where the header ends and what it lists. */
  ghost function ParseOf(view: string, delim: nat): Parsed
    requires IsFind(view, "\n", delim)
  {
    if view == [] then Chunks([])
    else if delim == |view| || delim == 0 || view[delim - 1] != '\r' then Malformed
    else Judge(view[delim + 1..], ReadSizes(Pieces(view[..delim - 1], ",")))
  }

  /** Chunks from the bytes after the header and the sizes it lists. */
  function Judge(bytes: string, ns: seq<int>): Parsed
  {
    if !AllAcceptable(ns) || Sum(ns) % WORD != |bytes| then Malformed else Cut(bytes, ns)
  }

  ghost function Parse(view: string): Parsed
  {
    FindExists(view, "\n");
    var delim: nat :| IsFind(view, "\n", delim);
    ParseOf(view, delim)
  }

  lemma {:induction false} FindFrom(s: string, pattern: string, from: nat)
    requires from <= |s| && forall j: nat :: j < from ==> !Matches(s, pattern, j)
    ensures exists k: nat :: IsFind(s, pattern, k)
    decreases |s| - from
  {
    if from == |s| || Matches(s, pattern, from) {
      assert IsFind(s, pattern, from);
    } else {
      FindFrom(s, pattern, from + 1);
    }
  }

  lemma FindExists(s: string, pattern: string)
    ensures exists k: nat :: IsFind(s, pattern, k)
  {
    FindFrom(s, pattern, 0);
  }

  lemma ParseAt(view: string, delim: nat)
    requires IsFind(view, "\n", delim)
    ensures Parse(view) == ParseOf(view, delim)
  {
    forall k: nat | IsFind(view, "\n", k) ensures k == delim {
      FindUnique(view, "\n", k, delim);
    }
  }

  method TryParseMultiChunk(view: string) returns (result: Parsed)
    ensures result == Parse(view)
  {
    var delim := Find(view, "\n");
    ParseAt(view, delim);
    if view == [] {
      return Chunks([]);
    }
    if delim == |view| || delim == 0 || view[delim - 1] != '\r' {
      return Malformed;
    }
    var sizes := Split(view[..delim - 1], ",");
    var rest := view[delim + 1..];
    var ok, parsed, total := ParseSizes(sizes);
    if !ok {
      return Malformed;
    }
    if total != |rest| {
      return Malformed;
    }
    result := CutChunks(rest, parsed);
  }

  method ParseSizes(sizes: seq<string>) returns (ok: bool, parsed: seq<int>, total: int)
    ensures ok <==> AllAcceptable(ReadSizes(sizes))
    ensures ok ==> parsed == ReadSizes(sizes) && total == Sum(parsed) % WORD
  {
    hide Sum, Strtol;
    parsed, total := [], 0;
    SumNothing();
    for i := 0 to |sizes|
      invariant parsed == ReadSizes(sizes)[..i] && total == Sum(parsed) % WORD
      invariant AllAcceptable(parsed)
    {
      var size := Strtol(sizes[i]);
      assert ReadSizes(sizes)[i] == size;
      if size <= 0 || size == LONG_MAX || size == LONG_MIN {
        return false, parsed, total;
      }
      SumMore(parsed, size);
      parsed := parsed + [size];
      total := (total + size) % WORD;
    }
    assert parsed == ReadSizes(sizes);
    return true, parsed, total;
  }

  lemma SumNothing()
    ensures Sum([]) % WORD == 0
  {
  }

  lemma SumMore(ns: seq<int>, n: int)
    ensures Sum(ns + [n]) % WORD == (Sum(ns) % WORD + n) % WORD
  {
    assert (ns + [n])[..|ns|] == ns;
    var y := Sum(ns) % WORD + n;
    Remainder(Sum(ns) + n, Sum(ns) / WORD + y / WORD, y % WORD);
  }

  lemma Remainder(x: int, q: int, r: int)
    requires x == WORD * q + r && 0 <= r < WORD
    ensures x % WORD == r
  {
  }

  method CutChunks(bytes: string, sizes: seq<int>) returns (result: Parsed)
    requires Positive(sizes)
    ensures result == Cut(bytes, sizes)
  {
    var parts: seq<string> := [];
    var rest := bytes;
    for i := 0 to |sizes|
      invariant Cut(bytes, sizes) == Prepended(parts, Cut(rest, sizes[i..]))
    {
      assert sizes[i..][1..] == sizes[i + 1..];
      if sizes[i] > |rest| {
        return Overrun;
      }
      PrependedMore(parts, rest[..sizes[i]], Cut(rest[sizes[i]..], sizes[i + 1..]));
      parts := parts + [rest[..sizes[i]]];
      rest := rest[sizes[i]..];
    }
    assert parts + [] == parts;
    return Chunks(parts);
  }

  function Prepended(parts: seq<string>, p: Parsed): Parsed
  {
    if p.Chunks? then Chunks(parts + p.parts) else p
  }

  lemma PrependedMore(parts: seq<string>, s: string, p: Parsed)
    ensures Prepended(parts, Prepended([s], p)) == Prepended(parts + [s], p)
  {
    if p.Chunks? {
      assert parts + ([s] + p.parts) == (parts + [s]) + p.parts;
    }
  }

  // ---------------------------------------------------------------- the round trip

  function Lengths(parts: seq<string>): seq<int>
  {
    seq(|parts|, i requires 0 <= i < |parts| => |parts[i]|)
  }

  lemma {:induction false} SumFront(ns: seq<int>)
    requires ns != []
    ensures Sum(ns) == ns[0] + Sum(ns[1..])
  {
    if |ns| > 1 {
      SumFront(ns[..|ns| - 1]);
      assert ns[1..][..|ns| - 2] == ns[..|ns| - 1][1..];
    }
  }

  lemma {:induction false} CutConcat(parts: seq<string>)
    requires Positive(Lengths(parts))
    ensures Cut(Concat(parts), Lengths(parts)) == Chunks(parts)
    ensures Sum(Lengths(parts)) == |Concat(parts)|
  {
    if parts != [] {
      var rest := Concat(parts[1..]);
      assert Lengths(parts)[1..] == Lengths(parts[1..]);
      assert Concat(parts)[..|parts[0]|] == parts[0] && Concat(parts)[|parts[0]|..] == rest;
      CutConcat(parts[1..]);
      SumFront(Lengths(parts));
    }
  }

  lemma {:induction false} PartsAreShorter(parts: seq<string>, i: nat)
    requires i < |parts|
    ensures |parts[i]| <= |Concat(parts)|
  {
    if i > 0 {
      PartsAreShorter(parts[1..], i - 1);
    }
  }

  /** The header is found again: it holds no newline before its end, and splits into the printed sizes. */
  lemma HeaderIsFound(parts: seq<string>)
    requires parts != []
    ensures var text := Joined(Sizes(parts), ',');
      var view := HeaderOf(parts) + Concat(parts);
      && IsFind(view, "\n", |text| + 1)
      && view[..|text|] == text && view[|text|] == '\r' && view[|text| + 2..] == Concat(parts)
      && Pieces(text, ",") == Sizes(parts)
  {
    var text := Joined(Sizes(parts), ',');
    assert forall s <- Sizes(parts) :: s != [] && AllDigits(s);
    SplitJoined(Sizes(parts), ',');
    JoinedWithout(Sizes(parts), ',', '\n');
    FindFirst(text + ['\r'], '\n', Concat(parts));
    assert HeaderOf(parts) + Concat(parts) == text + ['\r'] + ['\n'] + Concat(parts);
  }

  lemma {:induction false} JoinedWithout(parts: seq<string>, c: char, d: char)
    requires c != d && forall p <- parts :: Without(p, d)
    ensures Without(Joined(parts, c), d)
  {
    if parts != [] {
      assert parts[0] in parts;
      assert forall p <- parts[1..] :: p in parts;
      if |parts| > 1 {
        JoinedWithout(parts[1..], c, d);
      }
    }
  }

  lemma SizesReadBack(parts: seq<string>)
    requires |Concat(parts)| < LONG_MAX
    ensures ReadSizes(Sizes(parts)) == Lengths(parts)
    ensures forall i :: 0 <= i < |parts| ==> Lengths(parts)[i] < LONG_MAX
  {
    forall i | 0 <= i < |parts| ensures Strtol(Decimal(|parts[i]|)) == |parts[i]| < LONG_MAX {
      PartsAreShorter(parts, i);
      StrtolOfDecimal(|parts[i]|);
    }
  }

  /**
   What was made is parsed back exactly when no part is empty, and is refused otherwise. (No string
   of LONG_MAX bytes or more exists.)
   */
  lemma RoundTrip(parts: seq<string>)
    requires |HeaderOf(parts) + Concat(parts)| < LONG_MAX
    ensures Parse(HeaderOf(parts) + Concat(parts)) ==
      if forall i :: 0 <= i < |parts| ==> parts[i] != [] then Chunks(parts) else Malformed
  {
    var view := HeaderOf(parts) + Concat(parts);
    if parts == [] {
      FindNone("", '\n');
      ParseAt(view, 0);
    } else {
      var text := Joined(Sizes(parts), ',');
      HeaderIsFound(parts);
      ParseAt(view, |text| + 1);
      hide Joined, Pieces, IsFind, Cut, Judge, ReadSizes, Parse;
      assert Parse(view) == Judge(Concat(parts), ReadSizes(Sizes(parts)));
      SizesReadBack(parts);
      JudgeOwn(parts);
    }
  }

  lemma JudgeOwn(parts: seq<string>)
    requires |Concat(parts)| < LONG_MAX && forall i :: 0 <= i < |parts| ==> Lengths(parts)[i] < LONG_MAX
    ensures Judge(Concat(parts), Lengths(parts)) ==
      if forall i :: 0 <= i < |parts| ==> parts[i] != [] then Chunks(parts) else Malformed
  {
    hide Cut, Concat, Sum;
    if i :| 0 <= i < |parts| && parts[i] == [] {
      assert Lengths(parts)[i] == 0;
    } else {
      assert AllAcceptable(Lengths(parts));
      CutConcat(parts);
      SmallModulo(|Concat(parts)|);
    }
  }

  lemma SmallModulo(n: nat)
    requires n < LONG_MAX
    ensures n % WORD == n
  {
  }

  // ---------------------------------------------------------------- soundness

  lemma {:induction false} CutIsExact(rest: string, ns: seq<int>)
    requires Positive(ns)
    ensures 0 <= Sum(ns) && Cut(rest, ns) != Malformed
    ensures Cut(rest, ns).Chunks? <==> Sum(ns) <= |rest|
    ensures Cut(rest, ns).Chunks? ==> Lengths(Cut(rest, ns).parts) == ns && Concat(Cut(rest, ns).parts) == rest[..Sum(ns)]
    decreases |ns|
  {
    if ns != [] {
      SumFront(ns);
      if ns[0] <= |rest| {
        CutIsExact(rest[ns[0]..], ns[1..]);
        if Cut(rest, ns).Chunks? {
          var tail := Cut(rest[ns[0]..], ns[1..]).parts;
          assert Cut(rest, ns).parts[1..] == tail;
          assert rest[..Sum(ns)] == rest[..ns[0]] + rest[ns[0]..][..Sum(ns[1..])];
        }
      } else {
        CutIsExact("", ns[1..]);
      }
    }
  }

  /** A header without newline, CRLF and what follows. */
  ghost predicate Framed(view: string, text: string, bytes: string)
  {
    Without(text, '\n') && view == text + "\r\n" + bytes
  }

  ghost function SizesIn(text: string): seq<int> { ReadSizes(Pieces(text, ",")) }

  /** Sizes that the parser accepts for this many bytes although they add up to more than a word holds. */
  predicate Wraps(ns: seq<int>, bytes: string)
  {
    AllAcceptable(ns) && Sum(ns) >= WORD && Sum(ns) % WORD == |bytes|
  }

  /** All three outcomes, exactly. */
  lemma JudgeExact(bytes: string, ns: seq<int>)
    ensures Judge(bytes, ns).Overrun? <==> Wraps(ns, bytes)
    ensures Judge(bytes, ns).Chunks? <==> AllAcceptable(ns) && Sum(ns) == |bytes| < WORD
    ensures Judge(bytes, ns).Chunks? ==>
      Concat(Judge(bytes, ns).parts) == bytes && Lengths(Judge(bytes, ns).parts) == ns && Positive(ns)
  {
    if AllAcceptable(ns) {
      CutIsExact(bytes, ns);
      hide Cut, Concat, Sum;
      if Sum(ns) % WORD == |bytes| {
        if Sum(ns) <= |bytes| {
          SumFits(ns, |bytes|);
          assert bytes[..|bytes|] == bytes;
        } else {
          SumWraps(Sum(ns), |bytes|);
        }
      }
    }
  }

  lemma SumWraps(sum: nat, n: nat)
    requires sum % WORD == n < sum
    ensures sum >= WORD
  {
  }

  /** A framed message is judged by its header and its bytes. */
  lemma FramedParse(view: string, text: string, bytes: string)
    requires Framed(view, text, bytes)
    ensures Parse(view) == Judge(bytes, SizesIn(text))
  {
    assert view == text + ['\r'] + ['\n'] + bytes;
    FindFirst(text + ['\r'], '\n', bytes);
    ParseAt(view, |text| + 1);
    assert view[..|text|] == text && view[|text| + 2..] == bytes;
  }

  /** What is not framed is refused, but for the empty view. */
  lemma UnframedIsMalformed(view: string)
    requires view != [] && Parse(view) != Malformed
    ensures exists text: string, bytes: string :: Framed(view, text, bytes)
  {
    FindExists(view, "\n");
    var delim: nat :| IsFind(view, "\n", delim);
    ParseAt(view, delim);
    NewlineFound(view, delim);
    assert Framed(view, view[..delim - 1], view[delim + 1..]);
  }

  ghost predicate IsMessage(view: string, text: string, parts: seq<string>)
  {
    Framed(view, text, Concat(parts)) && SizesIn(text) == Lengths(parts) && AllAcceptable(Lengths(parts))
  }

  /**
   Exactly what parses as chunks: a header without newline, CRLF and those chunks, none of them empty,
   with the header listing their sizes. (No string of 2^64 bytes exists.)
   */
  lemma ParseIsSound(view: string, parts: seq<string>)
    requires view != [] && |view| < WORD
    ensures Parse(view) == Chunks(parts) <==> exists text: string :: IsMessage(view, text, parts)
  {
    hide Parse, Judge, Concat, Pieces, ReadSizes;
    if Parse(view) == Chunks(parts) {
      UnframedIsMalformed(view);
      var text: string, bytes: string :| Framed(view, text, bytes);
      FramedParse(view, text, bytes);
      JudgeExact(bytes, SizesIn(text));
      assert IsMessage(view, text, parts);
    }
    if text: string :| IsMessage(view, text, parts) {
      FramedParse(view, text, Concat(parts));
      CutConcat(parts);
      JudgeParts(parts);
    }
  }

  lemma JudgeParts(parts: seq<string>)
    requires AllAcceptable(Lengths(parts)) && |Concat(parts)| < WORD
    ensures Judge(Concat(parts), Lengths(parts)) == Chunks(parts)
  {
    CutConcat(parts);
    JudgeExact(Concat(parts), Lengths(parts));
  }

  /** The cutting runs off the end exactly when the listed sizes wrap around to the number of bytes there are. */
  lemma OverrunIff(view: string)
    ensures Parse(view) == Overrun <==>
      exists text: string, bytes: string :: Framed(view, text, bytes) && Wraps(SizesIn(text), bytes)
  {
    if Parse(view) == Overrun {
      NotEmpty(view);
      UnframedIsMalformed(view);
      var text: string, bytes: string :| Framed(view, text, bytes);
      FramedParse(view, text, bytes);
      JudgeExact(bytes, SizesIn(text));
    }
    if text: string, bytes: string :| Framed(view, text, bytes) && Wraps(SizesIn(text), bytes) {
      FramedParse(view, text, bytes);
      JudgeExact(bytes, SizesIn(text));
    }
  }

  lemma NotEmpty(view: string)
    requires Parse(view) == Overrun
    ensures view != []
  {
  }

  const HUGE: nat := 9223372036854775806

  /** The header "9223372036854775806,9223372036854775806,4". */
  function HugeHeader(): string { Decimal(HUGE) + "," + Decimal(HUGE) + "," + Decimal(4) }

  lemma HugeSizes()
    ensures SizesIn(HugeHeader()) == [HUGE, HUGE, 4] && Without(HugeHeader(), '\n')
  {
    hide Decimal, Strtol, Pieces;
    var d, four := Decimal(HUGE), Decimal(4);
    var sizes := [d, d, four];
    assert sizes[1..] == [d, four] && sizes[1..][1..] == [four];
    assert Joined([d, four], ',') == d + "," + four;
    assert Joined(sizes, ',') == d + "," + (d + "," + four);
    assert d + "," + (d + "," + four) == HugeHeader();
    assert forall s <- sizes :: s != [] && AllDigits(s);
    SplitJoined(sizes, ',');
    JoinedWithout(sizes, ',', '\n');
    StrtolOfDecimal(HUGE);
    StrtolOfDecimal(4);
  }

  lemma HugeWraps()
    ensures Wraps([HUGE, HUGE, 4], "")
  {
    var one: seq<int>, two: seq<int>, three: seq<int> := [HUGE], [HUGE, HUGE], [HUGE, HUGE, 4];
    assert one[..0] == [] && two[..1] == one && three[..2] == two;
    assert Sum([]) == 0;
    assert Sum(one) == Sum(one[..0]) + HUGE;
    assert Sum(two) == Sum(two[..1]) + HUGE;
    assert Sum(three) == Sum(three[..2]) + 4 == WORD;
  }

  /** And there is such a message: three sizes that add up to exactly 2^64, and no bytes at all. */
  lemma OverrunExample()
    ensures Parse(HugeHeader() + "\r\n") == Overrun
  {
    HugeSizes();
    HugeWraps();
    hide HugeHeader, SizesIn, Wraps, Parse;
    var view := HugeHeader() + "\r\n";
    assert view == HugeHeader() + "\r\n" + "";
    assert Framed(view, HugeHeader(), "");
    OverrunIff(view);
  }

  lemma SumFits(ns: seq<int>, n: nat)
    requires 0 <= Sum(ns) <= n && Sum(ns) % WORD == n
    ensures Sum(ns) == n
  {
  }

  lemma NewlineFound(view: string, delim: nat)
    requires IsFind(view, "\n", delim) && 0 < delim < |view| && view[delim - 1] == '\r'
    ensures view == view[..delim - 1] + "\r\n" + view[delim + 1..] && Without(view[..delim - 1], '\n')
  {
    assert view[delim..delim + 1] == "\n";
    assert view[delim..delim + 1][0] == view[delim];
    var text := view[..delim - 1];
    forall x | x in text ensures x != '\n' {
      var j :| 0 <= j < |text| && text[j] == x;
      assert !Matches(view, "\n", j);
      assert view[j..j + 1] == [view[j]];
    }
  }

  /** What goes over the wire for two parts. */
  lemma MessageExample()
    ensures HeaderOf(["something", "fancy"]) == "9,5\r\n"
  {
  }
}
