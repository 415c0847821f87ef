/**
 Which servant a request is granted, told in the servants' own reports: who has room, who is lightly
 loaded and how much of whose slots is taken.
 */
module DispatcherGrants {
  import opened Basics
  import opened DispatcherModel
  import opened DispatcherProofs

  /** May serve the request at all. */
  predicate Serves(r: Request, e: Servant)
  {
    var p := e.personality;
    r.environment in p.environments && p.maxTasks != 0 && p.version >= r.minVersion
  }

  /** Memory, its own limit and its load, reported or known, leave it a slot. */
  predicate Roomy(minMemory: nat, e: Servant)
  {
    var p := e.personality;
    && (p.totalMemory == 0 || minMemory <= p.availableMemory)
    && e.running < p.maxTasks && Max(p.load, e.running) < p.processors
  }

  predicate Idle(e: Servant)
  {
    e.personality.priority == Dedicated && 2 * e.running < e.personality.processors
  }

  predicate AtHost(e: Servant, ip: string)
  {
    ip + ":" <= e.personality.location
  }

  predicate Contender(s: State, r: Request, i: nat)
  {
    i < |s.servants| && Serves(r, s.servants[i]) && Roomy(s.minMemory, s.servants[i])
  }

  /** The requestor's own servant: the first contender on its host. */
  ghost predicate Own(s: State, r: Request, i: nat)
  {
    && Contender(s, r, i) && AtHost(s.servants[i], r.requestor)
    && forall j :: 0 <= j < i && Contender(s, r, j) ==> !AtHost(s.servants[j], r.requestor)
  }

  /**
   The contender `i` is the right one: the requestor's own only if there is no other; lightly loaded and
   dedicated if some other contender is; and of those that qualify the first of which the smallest part
   of its slots is taken.
   */
  ghost predicate RightOne(s: State, r: Request, i: nat)
  {
    && Contender(s, r, i)
    && forall j :: 0 <= j < |s.servants| && j != i && Contender(s, r, j) && !Own(s, r, j) ==>
         var e, o := s.servants[i], s.servants[j];
         && !Own(s, r, i)
         && (Idle(o) ==> Idle(e))
         && (Idle(e) == Idle(o) ==>
               && e.running * Slots(o) <= o.running * Slots(e)
               && (j < i ==> e.running * Slots(o) < o.running * Slots(e)))
  }

  /** `x` comes before `y` in `l`. */
  ghost predicate Before(l: seq<Servant>, x: Servant, y: Servant)
  {
    exists i, j :: 0 <= i < j < |l| && l[i] == x && l[j] == y
  }

  lemma BeforeTail(l: seq<Servant>, x: Servant, y: Servant)
    requires l != [] && Before(l[1..], x, y)
    ensures Before(l, x, y)
  {
    var i, j :| 0 <= i < j < |l[1..]| && l[1..][i] == x && l[1..][j] == y;
    assert l[i + 1] == x && l[j + 1] == y;
  }

  lemma BeforeHead(l: seq<Servant>, y: Servant)
    requires l != [] && y in l[1..]
    ensures Before(l, l[0], y)
  {
    var j :| 0 <= j < |l[1..]| && l[1..][j] == y;
    assert l[0] == l[0] && l[j + 1] == y;
  }

  lemma {:induction false} EligibleInOrder(servants: seq<Servant>, r: Request, x: Servant, y: Servant)
    requires Before(EligibleOf(servants, r), x, y)
    ensures Before(servants, x, y)
    decreases |servants|
  {
    hide Eligible;
    var l := EligibleOf(servants, r);
    var i, j :| 0 <= i < j < |l| && l[i] == x && l[j] == y;
    var rest := EligibleOf(servants[1..], r);
    if Eligible(r, servants[0]) {
      assert l[1..] == rest;
      assert y == rest[j - 1];
      if i == 0 {
        BeforeHead(servants, y);
        return;
      }
      assert rest[i - 1] == x && rest[j - 1] == y;
    }
    EligibleInOrder(servants[1..], r, x, y);
    BeforeTail(servants, x, y);
  }

  lemma {:induction false} FreeInOrder(m: nat, servants: seq<Servant>, x: Servant, y: Servant)
    requires Before(FreeOf(m, servants), x, y)
    ensures Before(servants, x, y)
    decreases |servants|
  {
    hide Free;
    var l := FreeOf(m, servants);
    var i, j :| 0 <= i < j < |l| && l[i] == x && l[j] == y;
    var rest := FreeOf(m, servants[1..]);
    if Free(m, servants[0]) {
      assert l[1..] == rest;
      assert y == rest[j - 1];
      if i == 0 {
        BeforeHead(servants, y);
        return;
      }
      assert rest[i - 1] == x && rest[j - 1] == y;
    }
    FreeInOrder(m, servants[1..], x, y);
    BeforeTail(servants, x, y);
  }

  lemma OthersInOrder(servants: seq<Servant>, ip: string, x: Servant, y: Servant)
    requires Before(OthersOf(servants, ip), x, y)
    ensures Before(servants, x, y)
  {
    var l, k := OthersOf(servants, ip), SelfIndex(servants, ip);
    var i, j :| 0 <= i < j < |l| && l[i] == x && l[j] == y;
    if k < |servants| {
      var i', j' := if i < k then i else i + 1, if j < k then j else j + 1;
      assert servants[i'] == x && servants[j'] == y;
    }
  }

  /** Candidates stand in the servants' order. */
  lemma CandidatesInOrder(s: State, r: Request, x: Servant, y: Servant)
    requires Before(Candidates(s, r), x, y)
    ensures Before(s.servants, x, y)
  {
    FreeInOrder(s.minMemory, EligibleOf(s.servants, r), x, y);
    EligibleInOrder(s.servants, r, x, y);
  }

  lemma SamePlace(s: State, i: nat, j: nat)
    requires Inv(s) && i < |s.servants| && j < |s.servants|
    ensures Before(s.servants, s.servants[i], s.servants[j]) <==> i < j
    ensures s.servants[i] == s.servants[j] <==> i == j
  {
    if Before(s.servants, s.servants[i], s.servants[j]) {
      var a, b :| 0 <= a < b < |s.servants| && s.servants[a] == s.servants[i] && s.servants[b] == s.servants[j];
      assert a == i && b == j;
    }
  }

  lemma CountersAreNatural(s: State, i: nat)
    requires Inv(s) && i < |s.servants|
    ensures 0 <= s.servants[i].running
  {
  }

  /** A contender is what enumerating eligible and then free servants finds. */
  lemma ContenderIff(s: State, r: Request, i: nat)
    requires Inv(s) && i < |s.servants|
    ensures Contender(s, r, i) <==> s.servants[i] in Candidates(s, r)
  {
    CountersAreNatural(s, i);
    RoomIff(s.minMemory, s.servants[i]);
    hide Free, Inv;
    assert s.servants[i] in s.servants;
    assert s.servants[i] in EligibleOf(s.servants, r) <==> Serves(r, s.servants[i]);
  }

  lemma HostIff(e: Servant, ip: string)
    ensures AtHost(e, ip) <==> SameHost(e.personality.location, ip)
  {
    var l := e.personality.location;
    if SameHost(l, ip) {
      assert l[..|ip| + 1] == ip + ":";
    }
    if AtHost(e, ip) {
      assert l[|ip|] == (ip + ":")[|ip|] && l[..|ip|] == (ip + ":")[..|ip|] == ip;
    }
  }

  /** The own servant is the one that the pick sets aside. */
  lemma OwnIff(s: State, r: Request, i: nat)
    requires Inv(s) && Contender(s, r, i)
    ensures var cs := Candidates(s, r); var k := SelfIndex(cs, r.requestor);
      Own(s, r, i) <==> k < |cs| && cs[k] == s.servants[i]
  {
    hide Inv, Candidates, SelfIndex, AtHost, SameHost;
    var cs := Candidates(s, r);
    var k := SelfIndex(cs, r.requestor);
    ContenderIff(s, r, i);
    HostIff(s.servants[i], r.requestor);
    if k < |cs| {
      assert cs[k] in cs;
      var j := PlaceOf(s, r, cs[k]);
      HostIff(s.servants[j], r.requestor);
      SamePlace(s, i, j);
      if Own(s, r, i) && i != j {
        assert i < j;
        var q :| 0 <= q < |cs| && cs[q] == s.servants[i];
        if q > k {
          assert cs[k] == s.servants[j] && cs[q] == s.servants[i];
          assert Before(cs, s.servants[j], s.servants[i]);
          CandidatesInOrder(s, r, s.servants[j], s.servants[i]);
          SamePlace(s, j, i);
        }
      }
      if i == j {
        forall h | 0 <= h < i && Contender(s, r, h) ensures !AtHost(s.servants[h], r.requestor) {
          NoEarlierOwn(s, r, i, h, k);
        }
      }
    } else {
      var q :| 0 <= q < |cs| && cs[q] == s.servants[i];
    }
  }

  lemma NoEarlierOwn(s: State, r: Request, i: nat, h: nat, k: nat)
    requires Inv(s) && h < i < |s.servants| && Contender(s, r, h)
    requires k == SelfIndex(Candidates(s, r), r.requestor) < |Candidates(s, r)| && Candidates(s, r)[k] == s.servants[i]
    ensures !AtHost(s.servants[h], r.requestor)
  {
    hide Inv, Candidates, AtHost, SameHost;
    var cs := Candidates(s, r);
    ContenderIff(s, r, h);
    var q :| 0 <= q < |cs| && cs[q] == s.servants[h];
    HostIff(s.servants[h], r.requestor);
    if q > k {
      assert Before(cs, s.servants[i], s.servants[h]);
      CandidatesInOrder(s, r, s.servants[i], s.servants[h]);
      SamePlace(s, i, h);
    } else if q == k {
      SamePlace(s, h, i);
    }
  }

  /** Where a candidate stands among the servants. */
  lemma PlaceOf(s: State, r: Request, e: Servant) returns (i: nat)
    requires Inv(s) && e in Candidates(s, r)
    ensures i < |s.servants| && s.servants[i] == e && Contender(s, r, i)
  {
    CandidatesAreFree(s, r);
    assert e in s.servants;
    i :| 0 <= i < |s.servants| && s.servants[i] == e;
    ContenderIff(s, r, i);
  }

  /** The others, among which the pick compares, are the contenders other than the own one. */
  lemma OtherIff(s: State, r: Request, i: nat)
    requires Inv(s) && i < |s.servants|
    ensures Contender(s, r, i) && !Own(s, r, i) <==> s.servants[i] in OthersOf(Candidates(s, r), r.requestor)
  {
    hide Inv, Candidates, SelfIndex, Contender, Own;
    var cs := Candidates(s, r);
    var k := SelfIndex(cs, r.requestor);
    var others := OthersOf(cs, r.requestor);
    ContenderIff(s, r, i);
    OthersSubset(cs, r.requestor);
    if Contender(s, r, i) {
      OwnIff(s, r, i);
      var q :| 0 <= q < |cs| && cs[q] == s.servants[i];
      if q < k {
        assert others[q] == s.servants[i];
      } else if q > k {
        assert others[q - 1] == s.servants[i];
      }
      if s.servants[i] in others && k < |cs| && cs[k] == s.servants[i] {
        var h :| 0 <= h < |others| && others[h] == s.servants[i];
        var h' := if h < k then h else h + 1;
        assert cs[h'] == s.servants[i];
        NoTwice(s, r, if h' < k then h' else k, if h' < k then k else h');
      }
    }
  }

  lemma NoTwice(s: State, r: Request, a: nat, b: nat)
    requires Inv(s) && a < b < |Candidates(s, r)|
    ensures Candidates(s, r)[a] != Candidates(s, r)[b]
  {
    hide Candidates, Inv;
    var cs := Candidates(s, r);
    if cs[a] == cs[b] {
      var i := PlaceOf(s, r, cs[a]);
      assert Before(cs, cs[a], cs[b]);
      CandidatesInOrder(s, r, cs[a], cs[b]);
      SamePlace(s, i, i);
    }
  }

  /** The first lowest of the others is the right one. */
  lemma LowestIsRight(s: State, r: Request, dedicatedOnly: bool, p: nat, i: nat)
    requires Inv(s) && i < |s.servants|
    requires var others := OthersOf(Candidates(s, r), r.requestor);
      FirstLowest(others, dedicatedOnly, p) && others[p] == s.servants[i] &&
      (!dedicatedOnly ==> forall o <- others :: !LightlyLoaded(o))
    ensures RightOne(s, r, i)
  {
    hide Inv, Candidates, Contender, Own, OthersOf, FirstLowest, Slots;
    var cs := Candidates(s, r);
    var others := OthersOf(cs, r.requestor);
    LowestMeans(others, dedicatedOnly, p);
    assert s.servants[i] in others;
    OtherIff(s, r, i);
    forall j | 0 <= j < |s.servants| && j != i && Contender(s, r, j) && !Own(s, r, j)
      ensures var e, o := s.servants[i], s.servants[j];
        && (Idle(o) ==> Idle(e))
        && (Idle(e) == Idle(o) ==> NoLower(e, o) && (j < i ==> HigherThan(o, e)))
    {
      OtherIff(s, r, j);
      var q :| 0 <= q < |others| && others[q] == s.servants[j];
      SamePlace(s, i, j);
      SamePlace(s, j, i);
      LowestBeats(others, dedicatedOnly, p, q);
      if j < i && q > p {
        assert Before(others, s.servants[i], s.servants[j]);
        OthersInOrder(cs, r.requestor, s.servants[i], s.servants[j]);
        CandidatesInOrder(s, r, s.servants[i], s.servants[j]);
      }
    }
  }

  lemma LowestMeans(servants: seq<Servant>, dedicatedOnly: bool, p: nat)
    requires FirstLowest(servants, dedicatedOnly, p)
    ensures p < |servants| && (dedicatedOnly ==> Idle(servants[p]))
  {
  }

  lemma LowestBeats(servants: seq<Servant>, dedicatedOnly: bool, p: nat, q: nat)
    requires FirstLowest(servants, dedicatedOnly, p) && q < |servants| && q != p
    ensures (dedicatedOnly ==> Idle(servants[q])) ==>
      (NoLower(servants[p], servants[q]) && (q < p ==> HigherThan(servants[q], servants[p])))
  {
    hide Slots, NoLower, HigherThan;
  }

  /**
   A grant goes to the right one of the contenders, which gets one task more and is otherwise unchanged
   like every other servant; there is a grant whenever there is a contender, and a refusal, as opposed to
   a wait, when nobody serves such requests at all.
   */
  lemma GrantGoesToTheRightOne(s: State, now: int, r: Request, expiresIn: int, prefetch: bool)
    requires Inv(s)
    ensures var (s', out) := Allocate(s, now, r, expiresIn, prefetch);
      match out
      case EnvironmentNotFound => s' == s && forall i :: 0 <= i < |s.servants| ==> !Serves(r, s.servants[i])
      case Blocked =>
        && s' == s && (exists i :: 0 <= i < |s.servants| && Serves(r, s.servants[i]))
        && forall i :: 0 <= i < |s.servants| ==> !Contender(s, r, i)
      case Granted(t, location) =>
        exists i: nat ::
          && RightOne(s, r, i)
          && location == s.servants[i].personality.location && t == s.nextTask
          && s' == s.(servants := s'.servants, nextTask := t + 1,
                      tasks := s.tasks[t := Task(s.servants[i].id, now, now + expiresIn, prefetch, false)])
          && s'.servants == s.servants[i := s.servants[i].(
               running := s.servants[i].running + 1, everAssigned := s.servants[i].everAssigned + 1)]
  {
    hide Inv, Candidates, Contender, RightOne, Pick;
    var (s', out) := Allocate(s, now, r, expiresIn, prefetch);
    CandidatesAreFree(s, r);
    PickIsWellPicked(s.minMemory, Candidates(s, r), r.requestor);
    if out.Granted? {
      var e := Pick(s.minMemory, Candidates(s, r), r.requestor).servant;
      var i := PlaceOf(s, r, e);
      PickedIsRight(s, r, i);
      AssignedAt(s, i);
    } else {
      ServesIff(s, r);
      forall i | 0 <= i < |s.servants| ensures Contender(s, r, i) <==> s.servants[i] in Candidates(s, r) {
        ContenderIff(s, r, i);
      }
    }
  }

  lemma ServesIff(s: State, r: Request)
    ensures EligibleOf(s.servants, r) == [] <==> forall i :: 0 <= i < |s.servants| ==> !Serves(r, s.servants[i])
  {
    var es := EligibleOf(s.servants, r);
    if es != [] {
      assert es[0] in es;
      var i :| 0 <= i < |s.servants| && s.servants[i] == es[0];
      assert Serves(r, s.servants[i]);
    }
    forall i | 0 <= i < |s.servants| && Serves(r, s.servants[i]) ensures es != [] {
      assert s.servants[i] in es;
    }
  }

  lemma AssignedAt(s: State, i: nat)
    requires Inv(s) && i < |s.servants|
    ensures Assigned(s.servants, s.servants[i].id) == s.servants[i := s.servants[i].(
      running := s.servants[i].running + 1, everAssigned := s.servants[i].everAssigned + 1)]
  {
  }

  lemma PickedIsRight(s: State, r: Request, i: nat)
    requires Inv(s) && i < |s.servants| && Contender(s, r, i) && WellPicked(Candidates(s, r), r.requestor, s.servants[i])
    ensures RightOne(s, r, i)
  {
    hide Inv, Candidates, Contender, Own, OthersOf, Slots, NoLower, HigherThan, LightlyLoaded;
    var cs := Candidates(s, r);
    var others := OthersOf(cs, r.requestor);
    if exists o <- others :: LightlyLoaded(o) {
      var p: nat :| FirstLowest(others, true, p) && others[p] == s.servants[i];
      LowestIsRight(s, r, true, p, i);
    } else if others != [] {
      var p: nat :| FirstLowest(others, false, p) && others[p] == s.servants[i];
      LowestIsRight(s, r, false, p, i);
    } else {
      forall j | 0 <= j < |s.servants| && Contender(s, r, j) ensures j == i {
        ContenderIff(s, r, j);
        SamePlace(s, i, j);
      }
    }
  }
}
