/**
 The server's Bloom-filter generator. The filter is abstracted to the set of keys it was fed: what was
 added is reported. Times are nanoseconds of a steady clock and are passed in where the program reads
 the clock.
 */
module BloomGeneration {

  import opened Basics

  const HISTORY: int := 3600 * SECOND

  datatype Entry = Entry(key: string, at: int)

  /** The history after forgetting what is older than `keepSince`, scanning from the front. */
  function DropOld(history: seq<Entry>, keepSince: int): seq<Entry>
  {
    if history == [] || history[0].at >= keepSince then history else DropOld(history[1..], keepSince)
  }

  /** Keys not older than `since`, latest first, scanning from the back. */
  function RecentFirst(history: seq<Entry>, since: int): seq<string>
  {
    if history == [] || history[|history| - 1].at < since then []
    else [history[|history| - 1].key] + RecentFirst(history[..|history| - 1], since)
  }

  predicate Sorted(history: seq<Entry>)
  {
    forall i, j :: 0 <= i < j < |history| ==> history[i].at <= history[j].at
  }

  /** No entry is later than `now`. */
  predicate Until(history: seq<Entry>, now: int)
  {
    forall e <- history :: e.at <= now
  }

  ghost predicate Holds(history: seq<Entry>, key: string, since: int)
  {
    exists e <- history :: e.key == key && e.at >= since
  }

  /** Scanning a sorted history from the back finds exactly the keys added since then. */
  lemma {:induction false} RecentIsComplete(history: seq<Entry>, since: int, key: string)
    requires Sorted(history)
    ensures key in RecentFirst(history, since) <==> Holds(history, key, since)
  {
    if history != [] {
      var last := history[|history| - 1];
      var front := history[..|history| - 1];
      if last.at >= since {
        assert last in history;
        assert forall e <- history :: e == last || e in front;
        RecentIsComplete(front, since, key);
      } else {
        forall e | e in history ensures e.at < since {
          var i :| 0 <= i < |history| && history[i] == e;
        }
      }
    }
  }

  /** Forgetting cuts a prefix off, loses nothing young enough and keeps nothing too old. */
  lemma {:induction false} DropOldCuts(history: seq<Entry>, keepSince: int) returns (n: nat)
    requires Sorted(history)
    ensures n <= |history| && DropOld(history, keepSince) == history[n..]
    ensures forall i :: 0 <= i < n ==> history[i].at < keepSince
    ensures forall i :: n <= i < |history| ==> history[i].at >= keepSince
    ensures Sorted(history[n..])
  {
    if history == [] || history[0].at >= keepSince {
      n := 0;
    } else {
      var m := DropOldCuts(history[1..], keepSince);
      n := m + 1;
      assert history[n..] == history[1..][m..];
      forall i | 1 <= i < |history| ensures history[i] == history[1..][i - 1] {
      }
    }
  }

  /** An unsorted history would make the backward scan stop too early. */
  lemma UnsortedHistoryHidesKeys()
    ensures Holds([Entry("a", 7), Entry("b", 3)], "a", 5)
    ensures "a" !in RecentFirst([Entry("a", 7), Entry("b", 3)], 5)
  {
    var h := [Entry("a", 7), Entry("b", 3)];
    assert h[0] in h;
    assert RecentFirst(h, 5) == [];
  }

  /** What the generator knows as new at `now`: at most an hour's history, cut at `since`. */
  ghost function NewSince(history: seq<Entry>, since: int, keepSince: int): set<string>
  {
    set e | e in history && e.at >= since && e.at >= keepSince :: e.key
  }

  lemma NewSinceIsRecent(history: seq<Entry>, since: int, keepSince: int)
    requires Sorted(history)
    ensures forall k :: k in RecentFirst(DropOld(history, keepSince), since) <==> k in NewSince(history, since, keepSince)
  {
    var n := DropOldCuts(history, keepSince);
    var kept := history[n..];
    forall k ensures k in RecentFirst(kept, since) <==> k in NewSince(history, since, keepSince) {
      RecentIsComplete(kept, since, k);
      if k in NewSince(history, since, keepSince) {
        var e :| e in history && e.at >= since && e.at >= keepSince && e.key == k;
        var i :| 0 <= i < |history| && history[i] == e;
        assert kept[i - n] == e;
      }
    }
  }

  lemma DropOldInOrder(history: seq<Entry>, keepSince: int, now: int)
    requires Sorted(history) && Until(history, now)
    ensures Sorted(DropOld(history, keepSince)) && Until(DropOld(history, keepSince), now)
  {
    var n := DropOldCuts(history, keepSince);
  }

  lemma UntilLater(history: seq<Entry>, now: int, later: int)
    requires Until(history, now) && now <= later
    ensures Until(history, later)
  {
  }

  /** The backward scan. */
  method ScanBack(history: seq<Entry>, since: int) returns (result: seq<string>)
    ensures result == RecentFirst(history, since)
  {
    result := [];
    var i := |history|;
    assert history[..i] == history;
    while i > 0
      invariant 0 <= i <= |history|
      invariant RecentFirst(history, since) == result + RecentFirst(history[..i], since)
    {
      if history[i - 1].at < since {
        break;
      }
      assert history[..i][..i - 1] == history[..i - 1];
      result := result + [history[i - 1].key];
      i := i - 1;
    }
  }

  class BloomFilterGenerator {
    var currentBf: set<string>
    var newlyPopulatedKeys: seq<Entry>

    ghost predicate Valid(now: int)
      reads this
    {
      Sorted(newlyPopulatedKeys) && Until(newlyPopulatedKeys, now)
    }

    constructor ()
      ensures currentBf == {} && newlyPopulatedKeys == []
    {
      currentBf := {};
      newlyPopulatedKeys := [];
    }

    method Add(key: string, now: int)
      requires Valid(now)
      modifies this
      ensures Valid(now)
      ensures currentBf == old(currentBf) + {key}
      ensures newlyPopulatedKeys == old(newlyPopulatedKeys) + [Entry(key, now)]
    {
      currentBf := currentBf + {key};
      newlyPopulatedKeys := newlyPopulatedKeys + [Entry(key, now)];
    }

    /** The clock is read twice. */
    method UnsafeGetNewlyPopulatedKeys(recent: int, now: int, again: int) returns (result: seq<string>)
      requires Valid(now) && now <= again
      modifies this`newlyPopulatedKeys
      ensures Valid(again)
      ensures newlyPopulatedKeys == DropOld(old(newlyPopulatedKeys), again - HISTORY)
      ensures result == RecentFirst(newlyPopulatedKeys, now - recent)
      ensures forall k :: k in result <==> k in NewSince(old(newlyPopulatedKeys), now - recent, again - HISTORY)
    {
      var since := now - recent;
      var keepSince := again - HISTORY;
      NewSinceIsRecent(newlyPopulatedKeys, since, keepSince);
      DropOldInOrder(newlyPopulatedKeys, keepSince, now);
      UntilLater(DropOld(newlyPopulatedKeys, keepSince), now, again);
      hide NewSince, Sorted, Until;
      while newlyPopulatedKeys != [] && newlyPopulatedKeys[0].at < keepSince
        invariant DropOld(newlyPopulatedKeys, keepSince) == DropOld(old(newlyPopulatedKeys), keepSince)
        decreases |newlyPopulatedKeys|
      {
        newlyPopulatedKeys := newlyPopulatedKeys[1..];
      }
      result := ScanBack(newlyPopulatedKeys, since);
    }

    method GetNewlyPopulatedKeys(recent: int, now: int, again: int) returns (result: seq<string>)
      requires Valid(now) && now <= again
      modifies this`newlyPopulatedKeys
      ensures Valid(again)
      ensures newlyPopulatedKeys == DropOld(old(newlyPopulatedKeys), again - HISTORY)
      ensures result == RecentFirst(newlyPopulatedKeys, now - recent)
    {
      result := UnsafeGetNewlyPopulatedKeys(recent, now, again);
    }

    method GetBloomFilter() returns (filter: set<string>)
      ensures filter == currentBf
    {
      return currentBf;
    }

    method Rebuild(keys: seq<string>, compensation: int, now: int, again: int)
      requires Valid(now) && now <= again
      modifies this
      ensures Valid(again)
      ensures newlyPopulatedKeys == DropOld(old(newlyPopulatedKeys), again - HISTORY)
      ensures currentBf == (set k | k in keys) + NewSince(old(newlyPopulatedKeys), now - compensation, again - HISTORY)
    {
      var recent := UnsafeGetNewlyPopulatedKeys(compensation, now, again);
      var filter: set<string> := {};
      for i := 0 to |keys|
        invariant filter == set k | k in keys[..i]
      {
        filter := filter + {keys[i]};
        assert keys[..i + 1] == keys[..i] + [keys[i]];
      }
      assert keys[..|keys|] == keys;
      ghost var fromKeys := filter;
      for i := 0 to |recent|
        invariant filter == fromKeys + set k | k in recent[..i]
      {
        filter := filter + {recent[i]};
        assert recent[..i + 1] == recent[..i] + [recent[i]];
      }
      assert recent[..|recent|] == recent;
      currentBf := filter;
    }
  }
}
