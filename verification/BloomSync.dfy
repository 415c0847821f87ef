/**
 The synchronisation between one daemon's copy of the Bloom filter and the cache server: the reader
 asks, the server handles the request some time later, the answer arrives later still or never, and
 the server goes on working all the while. Both steady clocks are taken to advance alike.
 */
module BloomSync {
  import opened Basics
  import opened BloomGeneration
  import opened CacheServerModel

  const NEVER: int := 0x7fff_ffff
  const NETWORK_DELAY: int := 5 * SECOND

  datatype Reader = Reader(bf: set<string>, last: int, lastFull: int)

  datatype Reply = Incremental(keys: seq<string>) | Full(filter: set<string>) | Garbled | Refused

  datatype Flight =
    | NoFetch
    | Asked(q: int, seconds: int, fullSeconds: int)
    | Answered(q: int, h: int, index: nat, reply: Reply)  // `index`: puts completed when it was handled

  datatype Sync = Sync(
    server: Server, reader: Reader, flight: Flight,
    constructed: bool,  // the reader's constructor has finished
    sound: bool,        // the last full answer arrived and was usable
    covered: nat,       // puts completed when the last successful fetch was handled
    slack: int)         // how much the constructor's stamp is ahead of that moment

  datatype Action =
    | Serve(action: CacheServerModel.Action)
    | Ask
    | Handle(interval: int, garbled: bool)
    | Deliver
    | Fail

  // ---------------------------------------------------------------- the two programs

  /** Whole seconds since the last fetch and since the last full fetch. */
  function SecondsSince(r: Reader, now: int): (int, int)
  {
    if r.lastFull == 0 then (NEVER, NEVER)
    else ((now - r.last) / SECOND, (now - r.lastFull) / SECOND)
  }

  function Window(seconds: int): int { seconds * SECOND + NETWORK_DELAY }

  /** FetchBloomFilter; `interval` is this client's full-fetch interval in seconds. */
  function Answer(history: seq<Entry>, filter: set<string>, seconds: int, fullSeconds: int, interval: int, now: int): Reply
  {
    if seconds > fullSeconds then Refused
    else if fullSeconds < interval then Incremental(RecentFirst(DropOld(history, now - HISTORY), now - Window(seconds)))
    else Full(filter)
  }

  /** Ten minutes, up to 119 s by client and up to 120 s at random. */
  predicate PossibleInterval(interval: int) { 600 <= interval <= 600 + 119 + 120 }

  function Accept(r: Reader, q: int, reply: Reply): Reader
  {
    match reply
    case Incremental(keys) => r.(last := q, bf := r.bf + set k | k in keys)
    case Full(filter) => Reader(filter, q, q)
    case Garbled => r.(last := q, lastFull := q)
    case Refused => r
  }

  /** The constructor stamps both times once its first load is over, however that went. */
  function Stamped(r: Reader, now: int): Reader { r.(last := now, lastFull := now) }

  /** TryRead asks the server unless a fresh filter says that the key is not there. */
  predicate Asks(r: Reader, key: string, now: int)
  {
    !(r.last + 600 * SECOND > now && key !in r.bf)
  }

  // ---------------------------------------------------------------- the protocol

  ghost function Init(server: Server): Sync
  {
    Sync(server, Reader({}, 0, 0), NoFetch, false, false, 0, 0)
  }

  ghost predicate Enabled(s: Sync, a: Action, now: int)
  {
    && s.server.clock <= now
    && match a
       case Serve(b) => CacheServerModel.Enabled(s.server, b, now)
       case Ask => s.flight.NoFetch?
       case Handle(interval, _) => s.flight.Asked? && PossibleInterval(interval)
       case Deliver => s.flight.Answered? && !s.flight.reply.Refused?
       case Fail => s.flight.Asked? || s.flight.Answered?
  }

  ghost function Handled(s: Sync, interval: int, garbled: bool, now: int): Sync
    requires s.flight.Asked? && s.server.clock <= now
  {
    var f := s.flight;
    var reply := Answer(s.server.history, s.server.filter, f.seconds, f.fullSeconds, interval, now);
    s.(flight := Answered(f.q, now, |s.server.done|, if reply.Full? && garbled then Garbled else reply),
       server := if reply.Incremental? then CacheServerModel.Step(s.server, Query(Window(f.seconds)), now)
                 else s.server.(clock := now))
  }

  ghost function Delivered(s: Sync, now: int): Sync
    requires s.flight.Answered?
  {
    var f := s.flight;
    var accepted := Accept(s.reader, f.q, f.reply);
    s.(server := s.server.(clock := now), flight := NoFetch, constructed := true,
       reader := if s.constructed then accepted else Stamped(accepted, now),
       sound := if f.reply.Full? then true else if f.reply.Garbled? then false else s.sound,
       covered := f.index,
       slack := if s.constructed then 0 else now - f.h)
  }

  ghost function Failed(s: Sync, now: int): Sync
  {
    s.(server := s.server.(clock := now), flight := NoFetch, constructed := true,
       reader := if s.constructed then s.reader else Stamped(s.reader, now))
  }

  ghost function Step(s: Sync, a: Action, now: int): Sync
    requires Enabled(s, a, now)
  {
    match a
    case Serve(b) => s.(server := CacheServerModel.Step(s.server, b, now))
    case Ask =>
      var (seconds, fullSeconds) := SecondsSince(s.reader, now);
      s.(server := s.server.(clock := now), flight := Asked(now, seconds, fullSeconds))
    case Handle(interval, garbled) => Handled(s, interval, garbled, now)
    case Deliver => Delivered(s, now)
    case Fail => Failed(s, now)
  }

  /**
   What a request may cost: its way to the server, what flooring to whole seconds took off and, until
   the first answer after construction, the way back of the first full fetch.
   */
  function Cost(s: Sync, now: int): int
    requires s.flight.Asked?
  {
    now - s.flight.q + s.slack + (s.flight.q - s.reader.last) % SECOND
  }

  ghost predicate Timely(s: Sync, a: Action, now: int)
  {
    match a
    case Serve(b) => Prompt(s.server, b, now)
    case Handle(_, _) => s.flight.Asked? && s.constructed ==> Cost(s, now) <= NETWORK_DELAY
    case _ => true
  }

  /** Four seconds on the way are always affordable. */
  lemma FourSecondsSuffice(s: Sync, interval: int, garbled: bool, now: int)
    requires s.flight.Asked? && now - s.flight.q + s.slack <= 4 * SECOND
    ensures Timely(s, Handle(interval, garbled), now)
  {
  }

  // ---------------------------------------------------------------- invariant

  ghost predicate Clocks(s: Sync)
  {
    && 0 < s.server.clock && 0 <= s.slack
    && (if s.constructed then 0 < s.reader.lastFull <= s.reader.last <= s.server.clock
        else s.reader.last == s.reader.lastFull == 0 && !s.sound)
    && (s.flight.Asked? ==> AskedAt(s, s.flight.q, s.flight.seconds, s.flight.fullSeconds))
    && (s.flight.Answered? ==> AnsweredAt(s, s.flight.q, s.flight.h, s.flight.reply))
  }

  ghost predicate AskedAt(s: Sync, q: int, seconds: int, fullSeconds: int)
  {
    && 0 < q && s.reader.last <= q <= s.server.clock
    && (seconds, fullSeconds) == SecondsSince(s.reader, q)
  }

  ghost predicate AnsweredAt(s: Sync, q: int, h: int, reply: Reply)
  {
    && 0 < q && s.reader.last <= q <= h <= s.server.clock
    && !reply.Refused? && (reply.Incremental? ==> s.constructed)
  }

  /** Every completed put from number `from` on was announced at `time` or later. */
  ghost predicate AllSince(s: Server, from: nat, time: int)
  {
    && from <= |s.done|
    && forall i :: from <= i < |s.done| ==> s.done[i].entry.at >= time
  }

  /** Of the first `n` completed puts, every key that is still cached is in `bf`. */
  ghost predicate Covers(s: Server, n: nat, bf: set<string>)
  {
    && n <= |s.done|
    && forall i :: 0 <= i < n && StillCached(s, s.done[i]) ==> s.done[i].entry.key in bf
  }

  /** The keys of the puts numbered `from` to `to`. */
  ghost predicate Names(s: Server, from: nat, to: nat, keys: seq<string>)
  {
    && from <= to <= |s.done|
    && forall i :: from <= i < to ==> s.done[i].entry.key in keys
  }

  ghost predicate ReaderCovers(s: Sync)
  {
    s.sound ==> Covers(s.server, s.covered, s.reader.bf) && AllSince(s.server, s.covered, s.reader.last - s.slack)
  }

  ghost predicate ReplyCovers(s: Sync)
  {
    s.flight.Answered? ==>
      && AllSince(s.server, s.flight.index, s.flight.h)
      && (s.flight.reply.Full? ==> Covers(s.server, s.flight.index, s.flight.reply.filter))
      && (s.flight.reply.Incremental? && s.sound ==> Names(s.server, s.covered, s.flight.index, s.flight.reply.keys))
  }

  ghost predicate Inv(s: Sync)
  {
    CacheServerModel.Inv(s.server) && Clocks(s) && ReaderCovers(s) && ReplyCovers(s)
  }

  // ---------------------------------------------------------------- windows

  /** The window reaches back to the last fetch exactly when the request's cost is within five seconds. */
  lemma WindowExact(last: int, slack: int, q: int, h: int)
    requires last <= q
    ensures h - Window((q - last) / SECOND) <= last - slack <==> h - q + slack + (q - last) % SECOND <= NETWORK_DELAY
  {
  }

  /** Incremental answers never need more than the hour of history that the server keeps. */
  lemma WindowInHistory(seconds: int, fullSeconds: int, interval: int)
    requires seconds <= fullSeconds < interval && PossibleInterval(interval)
    ensures Window(seconds) < HISTORY
  {
  }

  /** A request is never refused: the last full fetch is never after the last fetch. */
  lemma NeverRefused(r: Reader, now: int)
    requires r.lastFull <= r.last <= now
    ensures var (seconds, fullSeconds) := SecondsSince(r, now); seconds <= fullSeconds
  {
  }

  /** Beyond that cost the answer lacks a key announced at the reader's last fetch. */
  lemma TooLateMisses(s: Sync, interval: int, now: int, key: string)
    requires CacheServerModel.Inv(s.server) && Clocks(s) && s.constructed && s.flight.Asked? && Cost(s, now) > NETWORK_DELAY
    requires forall e <- s.server.history :: e.key == key ==> e.at <= s.reader.last - s.slack
    requires s.server.clock <= now && s.flight.fullSeconds < interval && PossibleInterval(interval)
    ensures Handled(s, interval, false, now).flight.reply.Incremental?
    ensures key !in Handled(s, interval, false, now).flight.reply.keys
  {
    NeverRefused(s.reader, s.flight.q);
    WindowExact(s.reader.last, s.slack, s.flight.q, now);
    HistorySorted(s.server);
    NewSinceIsRecent(s.server.history, now - Window(s.flight.seconds), now - HISTORY);
  }

  // ---------------------------------------------------------------- preservation

  lemma ClockTicks(s: Server, now: int)
    requires CacheServerModel.Inv(s) && s.clock <= now
    ensures CacheServerModel.Inv(s.(clock := now))
  {
  }

  lemma CoversKept(s: Server, a: CacheServerModel.Action, now: int, n: nat, bf: set<string>)
    requires CacheServerModel.Inv(s) && CacheServerModel.Enabled(s, a, now) && Covers(s, n, bf)
    ensures Covers(CacheServerModel.Step(s, a, now), n, bf)
  {
    DoneGrows(s, a, now);
    var r := CacheServerModel.Step(s, a, now);
    forall i | 0 <= i < n && StillCached(r, r.done[i]) ensures r.done[i].entry.key in bf {
      StillCachedBefore(s, a, now, s.done[i]);
    }
  }

  lemma SinceKept(s: Server, a: CacheServerModel.Action, now: int, from: nat, time: int)
    requires CacheServerModel.Inv(s) && CacheServerModel.Enabled(s, a, now) && AllSince(s, from, time) && time <= s.clock
    ensures AllSince(CacheServerModel.Step(s, a, now), from, time)
  {
    DoneGrows(s, a, now);
  }

  lemma NamesKept(s: Server, a: CacheServerModel.Action, now: int, from: nat, to: nat, keys: seq<string>)
    requires CacheServerModel.Inv(s) && CacheServerModel.Enabled(s, a, now) && Names(s, from, to, keys)
    ensures Names(CacheServerModel.Step(s, a, now), from, to, keys)
  {
    DoneGrows(s, a, now);
  }

  lemma ServeKeeps(s: Sync, a: CacheServerModel.Action, now: int)
    requires Inv(s) && CacheServerModel.Enabled(s.server, a, now) && Prompt(s.server, a, now)
    ensures Inv(s.(server := CacheServerModel.Step(s.server, a, now)))
  {
    StepKeeps(s.server, a, now);
    var r := CacheServerModel.Step(s.server, a, now);
    assert r.clock == now;
    if s.sound {
      CoversKept(s.server, a, now, s.covered, s.reader.bf);
      SinceKept(s.server, a, now, s.covered, s.reader.last - s.slack);
    }
    if s.flight.Answered? {
      SinceKept(s.server, a, now, s.flight.index, s.flight.h);
      if s.flight.reply.Full? {
        CoversKept(s.server, a, now, s.flight.index, s.flight.reply.filter);
      } else if s.flight.reply.Incremental? && s.sound {
        NamesKept(s.server, a, now, s.covered, s.flight.index, s.flight.reply.keys);
      }
    }
    hide CacheServerModel.Inv, Covers, AllSince, Names, CacheServerModel.Step, CacheServerModel.Enabled;
  }

  lemma WindowSuffices(s: Sync, interval: int, now: int)
    requires Clocks(s) && s.sound && Enabled(s, Handle(interval, false), now) && Timely(s, Handle(interval, false), now)
    requires s.flight.seconds <= s.flight.fullSeconds < interval
    ensures now - HISTORY <= now - Window(s.flight.seconds) <= s.reader.last - s.slack
  {
    WindowExact(s.reader.last, s.slack, s.flight.q, now);
    WindowInHistory(s.flight.seconds, s.flight.fullSeconds, interval);
  }

  /** An incremental answer names every key announced since the last successful fetch was handled. */
  lemma IncrementalNames(s: Sync, interval: int, now: int)
    requires Inv(s) && s.sound && Enabled(s, Handle(interval, false), now) && Timely(s, Handle(interval, false), now)
    requires s.flight.seconds <= s.flight.fullSeconds < interval
    ensures Names(s.server, s.covered, |s.server.done|,
                  RecentFirst(DropOld(s.server.history, now - HISTORY), now - Window(s.flight.seconds)))
  {
    var since := now - Window(s.flight.seconds);
    WindowSuffices(s, interval, now);
    HistorySorted(s.server);
    NewSinceIsRecent(s.server.history, since, now - HISTORY);
    hide RecentFirst, DropOld, Sorted, NewSince, Window, Clocks, Timely;
    forall i | s.covered <= i < |s.server.done|
      ensures s.server.done[i].entry.key in NewSince(s.server.history, since, now - HISTORY)
    {
      RecentIsKnown(s.server, now, since, s.server.done[i]);
    }
  }

  /** A full answer covers every put completed so far. */
  lemma FullCovers(s: Server)
    requires CacheServerModel.Inv(s)
    ensures Covers(s, |s.done|, s.filter)
  {
    forall i | 0 <= i < |s.done| && StillCached(s, s.done[i]) ensures s.done[i].entry.key in s.filter {
      CachedIsReported(s, s.done[i]);
    }
  }

  /** The same with time passing and nothing else. */
  lemma Waiting(s: Sync, now: int)
    requires Inv(s) && s.server.clock <= now
    ensures Inv(s.(server := s.server.(clock := now)))
  {
    ClockTicks(s.server, now);
    hide CacheServerModel.Inv;
  }

  lemma AskKeeps(s: Sync, now: int)
    requires Inv(s) && Enabled(s, Ask, now)
    ensures Inv(Step(s, Ask, now))
  {
    Waiting(s, now);
    hide CacheServerModel.Inv, Covers, AllSince, Names;
  }

  lemma HandleIncremental(s: Sync, interval: int, garbled: bool, now: int)
    requires Inv(s) && Enabled(s, Handle(interval, garbled), now) && Timely(s, Handle(interval, garbled), now)
    requires s.flight.fullSeconds < interval
    ensures Inv(Handled(s, interval, garbled, now))
  {
    var f := s.flight;
    NeverRefused(s.reader, f.q);
    var r := Handled(s, interval, garbled, now);
    ServeKeeps(s, Query(Window(f.seconds)), now);
    if s.sound {
      IncrementalNames(s, interval, now);
      NamesKept(s.server, Query(Window(f.seconds)), now, s.covered, |s.server.done|, r.flight.reply.keys);
    }
    assert r.server.done == s.server.done && r.server.clock == now;
    assert AllSince(r.server, |s.server.done|, now);
    hide CacheServerModel.Inv, Covers, Names, AllSince, CacheServerModel.Step, RecentFirst, DropOld;
  }

  lemma HandleFull(s: Sync, interval: int, garbled: bool, now: int)
    requires Inv(s) && Enabled(s, Handle(interval, garbled), now)
    requires s.flight.fullSeconds >= interval
    ensures Inv(Handled(s, interval, garbled, now))
  {
    var r := Handled(s, interval, garbled, now);
    NeverRefused(s.reader, s.flight.q);
    Waiting(s, now);
    FullCovers(s.server);
    assert Covers(r.server, |s.server.done|, s.server.filter);
    assert AllSince(r.server, |s.server.done|, now);
    hide CacheServerModel.Inv, Covers, Names, AllSince;
  }

  lemma HandleKeeps(s: Sync, interval: int, garbled: bool, now: int)
    requires Inv(s) && Enabled(s, Handle(interval, garbled), now) && Timely(s, Handle(interval, garbled), now)
    ensures Inv(Handled(s, interval, garbled, now))
  {
    hide Inv;
    if s.flight.fullSeconds < interval {
      HandleIncremental(s, interval, garbled, now);
    } else {
      HandleFull(s, interval, garbled, now);
    }
  }

  /** The union of what was covered and what was named covers both. */
  lemma CoversMore(s: Server, n: nat, to: nat, bf: set<string>, keys: seq<string>)
    requires Covers(s, n, bf) && Names(s, n, to, keys)
    ensures Covers(s, to, bf + set k | k in keys)
  {
  }

  lemma DeliverKeeps(s: Sync, now: int)
    requires Inv(s) && Enabled(s, Deliver, now)
    ensures Inv(Delivered(s, now))
  {
    Waiting(s, now);
    var f := s.flight;
    var r := Delivered(s, now);
    if f.reply.Incremental? && s.sound {
      CoversMore(r.server, s.covered, f.index, s.reader.bf, f.reply.keys);
    }
    assert AllSince(r.server, f.index, r.reader.last - r.slack);
    hide CacheServerModel.Inv, Covers, Names, AllSince;
  }

  lemma FailKeeps(s: Sync, now: int)
    requires Inv(s) && Enabled(s, Fail, now)
    ensures Inv(Failed(s, now))
  {
    Waiting(s, now);
    hide CacheServerModel.Inv, Covers, Names, AllSince;
  }

  lemma SyncStepKeeps(s: Sync, a: Action, now: int)
    requires Inv(s) && Enabled(s, a, now) && Timely(s, a, now)
    ensures Inv(Step(s, a, now))
  {
    hide Inv;
    match a
    case Serve(b) => ServeKeeps(s, b, now);
    case Ask => AskKeeps(s, now);
    case Handle(interval, garbled) => HandleKeeps(s, interval, garbled, now);
    case Deliver => DeliverKeeps(s, now);
    case Fail => FailKeeps(s, now);
  }

  // ---------------------------------------------------------------- whole runs

  datatype Timed = Timed(action: Action, now: int)

  ghost predicate Runnable(s: Sync, run: seq<Timed>)
    decreases |run|
  {
    run == [] ||
    (&& Enabled(s, run[0].action, run[0].now) && Timely(s, run[0].action, run[0].now)
     && Runnable(Step(s, run[0].action, run[0].now), run[1..]))
  }

  ghost function Run(s: Sync, run: seq<Timed>): Sync
    requires Runnable(s, run)
    decreases |run|
  {
    if run == [] then s else Run(Step(s, run[0].action, run[0].now), run[1..])
  }

  lemma {:induction false} SyncRunKeeps(s: Sync, run: seq<Timed>)
    requires Inv(s) && Runnable(s, run)
    ensures Inv(Run(s, run))
    decreases |run|
  {
    hide Inv, Step, Enabled;
    if run != [] {
      SyncStepKeeps(s, run[0].action, run[0].now);
      SyncRunKeeps(Step(s, run[0].action, run[0].now), run[1..]);
    }
  }

  /**
   Reader coverage: in every run from any sound server state, whatever fetches fail, once a usable full
   answer has arrived the reader's filter holds every key that was announced before the last successful
   fetch was handled and that a cache layer has held ever since its put; so TryRead asks for it.
   */
  lemma ReaderCoverage(server: Server, run: seq<Timed>, i: nat)
    requires CacheServerModel.Inv(server) && server.clock > 0 && Runnable(Init(server), run)
    requires var s := Run(Init(server), run);
      s.sound && i < s.covered && i < |s.server.done| && StillCached(s.server, s.server.done[i])
    ensures var s := Run(Init(server), run);
      && s.server.done[i].entry.key in s.reader.bf
      && forall now :: Asks(s.reader, s.server.done[i].entry.key, now)
  {
    assert Inv(Init(server));
    SyncRunKeeps(Init(server), run);
  }

  // ---------------------------------------------------------------- where coverage is lost

  /** Every completed put of the key was announced before `time`. */
  ghost predicate OnlyBefore(s: Server, key: string, time: int)
  {
    forall d <- s.done :: d.entry.key == key ==> d.entry.at < time
  }

  /**
   The reader has stamped a fetch at `stamp` or later without having the key, which was announced only
   before the window that reaches back from there; nothing under way names it but a full answer.
   */
  ghost predicate Blind(s: Sync, key: string, stamp: int)
  {
    && s.constructed && stamp <= s.reader.last && key !in s.reader.bf
    && OnlyBefore(s.server, key, stamp - NETWORK_DELAY)
    && (s.flight.Answered? && s.flight.reply.Incremental? ==> key !in s.flight.reply.keys)
  }

  /** The step delivers no usable full answer and announces the key no more. */
  ghost predicate TellsNothing(s: Sync, a: Action, key: string)
  {
    && (a.Deliver? && s.flight.Answered? ==> !s.flight.reply.Full?)
    && (a.Serve? && a.action.Announce? && a.action.id in s.server.puts ==> s.server.puts[a.action.id].key != key)
  }

  ghost predicate TellsNothingEver(s: Sync, run: seq<Timed>, key: string)
    requires Runnable(s, run)
    decreases |run|
  {
    run == [] ||
    (TellsNothing(s, run[0].action, key) && TellsNothingEver(Step(s, run[0].action, run[0].now), run[1..], key))
  }

  /** The first load failed: the constructor stamps all the same. */
  lemma FailedFirstLoadIsBlind(s: Sync, now: int, key: string)
    requires Inv(s) && !s.constructed && Enabled(s, Fail, now) && key !in s.reader.bf
    requires OnlyBefore(s.server, key, now - NETWORK_DELAY)
    ensures Blind(Step(s, Fail, now), key, now) && OnlyIncremental(Step(s, Fail, now), now) && !Step(s, Fail, now).sound
  {
  }

  /** A full answer that cannot be read is stamped as well, and leaves the old filter in place. */
  lemma GarbledAnswerIsBlind(s: Sync, now: int, key: string)
    requires Inv(s) && Enabled(s, Deliver, now) && s.flight.reply.Garbled? && key !in s.reader.bf
    requires OnlyBefore(s.server, key, s.flight.q - NETWORK_DELAY)
    ensures Blind(Step(s, Deliver, now), key, s.flight.q) && OnlyIncremental(Step(s, Deliver, now), s.flight.q)
    ensures !Step(s, Deliver, now).sound
  {
  }

  /** A later request's window never reaches back beyond the stamp by more than the compensation. */
  lemma WindowAfterStamp(last: int, q: int, h: int)
    requires last <= q <= h
    ensures h - Window((q - last) / SECOND) >= last - NETWORK_DELAY
  {
  }

  /** An incremental answer to a request made after the stamp does not name the key. */
  lemma BlindAnswer(s: Server, last: int, q: int, now: int, key: string, stamp: int)
    requires CacheServerModel.Inv(s) && stamp <= last <= q <= now && OnlyBefore(s, key, stamp - NETWORK_DELAY)
    ensures key !in RecentFirst(DropOld(s.history, now - HISTORY), now - Window((q - last) / SECOND))
  {
    WindowAfterStamp(last, q, now);
    HistorySorted(s);
    var since := now - Window((q - last) / SECOND);
    NewSinceIsRecent(s.history, since, now - HISTORY);
    hide Window, RecentFirst, DropOld, Sorted;
    forall e | e in s.history && e.key == key ensures e.at < stamp - NETWORK_DELAY {
      InDone(s, e);
    }
  }

  lemma BlindHandle(s: Sync, interval: int, garbled: bool, now: int, key: string, stamp: int)
    requires Inv(s) && Enabled(s, Handle(interval, garbled), now) && Blind(s, key, stamp)
    ensures Blind(Handled(s, interval, garbled, now), key, stamp)
  {
    BlindAnswer(s.server, s.reader.last, s.flight.q, now, key, stamp);
    hide CacheServerModel.Inv, Window, RecentFirst, DropOld, ReaderCovers, ReplyCovers;
  }

  lemma InDone(s: Server, e: Entry)
    requires HistoryRecent(s) && e in s.history
    ensures exists d <- s.done :: d.entry == e
  {
    var i :| 0 <= i < |s.history| && s.history[i] == e;
    assert s.done[|s.done| - |s.history| + i] in s.done;
  }

  lemma BlindServe(s: Sync, b: CacheServerModel.Action, now: int, key: string, stamp: int)
    requires Inv(s) && Enabled(s, Serve(b), now) && Blind(s, key, stamp) && TellsNothing(s, Serve(b), key)
    ensures Blind(Step(s, Serve(b), now), key, stamp)
  {
    DoneGrows(s.server, b, now);
  }

  lemma BlindStep(s: Sync, a: Action, now: int, key: string, stamp: int)
    requires Inv(s) && Enabled(s, a, now) && Blind(s, key, stamp) && TellsNothing(s, a, key)
    ensures Blind(Step(s, a, now), key, stamp)
  {
    match a
    case Serve(b) => BlindServe(s, b, now, key, stamp);
    case Handle(interval, garbled) => BlindHandle(s, interval, garbled, now, key, stamp);
    case _ => hide CacheServerModel.Inv, ReaderCovers, ReplyCovers;
  }

  /**
   From then on, in every run in which no usable full answer arrives and the key is not announced anew,
   however many fetches succeed, the key is not in the reader's filter, cached or not.
   */
  lemma {:induction false} BlindForever(s: Sync, run: seq<Timed>, key: string, stamp: int)
    requires Inv(s) && Blind(s, key, stamp) && Runnable(s, run) && TellsNothingEver(s, run, key)
    ensures Blind(Run(s, run), key, stamp) && key !in Run(s, run).reader.bf
    decreases |run|
  {
    hide Inv, Step, Enabled, Timely, TellsNothing;
    if run != [] {
      SyncStepKeeps(s, run[0].action, run[0].now);
      BlindStep(s, run[0].action, run[0].now, key, stamp);
      BlindForever(Step(s, run[0].action, run[0].now), run[1..], key, stamp);
    }
  }

  /** And for ten minutes after the stamp no full answer is even given. */
  ghost predicate OnlyIncremental(s: Sync, stamp: int)
  {
    && s.constructed && stamp <= s.reader.lastFull
    && (s.flight.Answered? ==> !s.flight.reply.Full? && !s.flight.reply.Garbled?)
    && (s.flight.Asked? ==> s.flight.q < stamp + 600 * SECOND)
  }

  lemma TenMinutesIncremental(s: Sync, a: Action, now: int, stamp: int)
    requires Inv(s) && Enabled(s, a, now) && OnlyIncremental(s, stamp) && now < stamp + 600 * SECOND
    ensures OnlyIncremental(Step(s, a, now), stamp)
    ensures !(a.Deliver? && s.flight.Answered? && s.flight.reply.Full?)
  {
    if a.Handle? {
      assert s.flight.fullSeconds < 600;
    }
    hide CacheServerModel.Inv, ReaderCovers, ReplyCovers;
  }

  /** The key is not announced in the run. */
  ghost predicate NeverAnnounced(s: Sync, run: seq<Timed>, key: string)
    requires Runnable(s, run)
    decreases |run|
  {
    run == [] ||
    var a := run[0].action;
    && (a.Serve? && a.action.Announce? && a.action.id in s.server.puts ==> s.server.puts[a.action.id].key != key)
    && NeverAnnounced(Step(s, a, run[0].now), run[1..], key)
  }

  lemma {:induction false} NothingToldForTenMinutes(s: Sync, run: seq<Timed>, key: string, stamp: int)
    requires Inv(s) && OnlyIncremental(s, stamp) && Runnable(s, run) && NeverAnnounced(s, run, key)
    requires forall i :: 0 <= i < |run| ==> run[i].now < stamp + 600 * SECOND
    ensures TellsNothingEver(s, run, key)
    decreases |run|
  {
    hide Inv, Step, Enabled, Timely, OnlyIncremental;
    if run != [] {
      SyncStepKeeps(s, run[0].action, run[0].now);
      TenMinutesIncremental(s, run[0].action, run[0].now, stamp);
      NothingToldForTenMinutes(Step(s, run[0].action, run[0].now), run[1..], key, stamp);
    }
  }

  /**
   So after a failed first load or an unreadable full answer, a key announced more than five seconds
   before the stamp and not since is missing for ten minutes, whatever fetches succeed in between.
   */
  lemma TenMinutesBlind(s: Sync, run: seq<Timed>, key: string, stamp: int)
    requires Inv(s) && Blind(s, key, stamp) && OnlyIncremental(s, stamp) && Runnable(s, run) && NeverAnnounced(s, run, key)
    requires forall i :: 0 <= i < |run| ==> run[i].now < stamp + 600 * SECOND
    ensures key !in Run(s, run).reader.bf
  {
    NothingToldForTenMinutes(s, run, key, stamp);
    BlindForever(s, run, key, stamp);
  }

  // ---------------------------------------------------------------- the five seconds are needed

  /** A first load, then a put announced at the very moment of the reader's stamp. */
  ghost function Announced(key: string): Sync
  {
    var s0 := Init(CacheServerModel.Init({}, 1));
    var s1 := Step(s0, Ask, 1);
    var s2 := Step(s1, Handle(600, false), 1);
    var s3 := Step(s2, Deliver, 1);
    var s4 := Step(s3, Serve(Receive(0, key)), 1);
    var s5 := Step(s4, Serve(StoreL2(0, {})), 1);
    var s6 := Step(s5, Serve(StoreL1(0, {})), 1);
    Step(s6, Serve(Announce(0)), 1)
  }

  lemma AnnouncedIs(key: string)
    ensures var s := Announced(key);
      && s.server.clock == 1 && s.flight.NoFetch? && s.constructed && s.sound && s.slack == 0
      && s.reader == Reader({}, 1, 1)
      && s.server.history == [Entry(key, 1)] && s.server.done == [Done(Entry(key, 1), 2, 3)]
      && s.server.l1 == map[key := 3]
  {
  }

  /** The next fetch, asked at once and handled `delay` later. */
  ghost function FetchedLate(key: string, delay: int): Sync
    requires delay > NETWORK_DELAY
  {
    AnnouncedIs(key);
    var s8 := Step(Announced(key), Ask, 1);
    var s9 := Step(s8, Handle(600, false), 1 + delay);
    Step(s9, Deliver, 1 + delay)
  }

  /**
   A request that takes longer than five seconds loses the key: the fetch succeeds, counts the put as
   covered, and the reader's filter lacks a key that both layers still hold.
   */
  lemma LateRequestLosesKey(key: string, delay: int)
    requires delay > NETWORK_DELAY
    ensures var s := FetchedLate(key, delay);
      && s.sound && s.covered == 1 == |s.server.done| && s.server.done[0].entry.key == key
      && StillCached(s.server, s.server.done[0]) && key !in s.reader.bf
  {
    AnnouncedIs(key);
    hide Announced;
    var s8 := Step(Announced(key), Ask, 1);
    assert s8.flight == Asked(1, 0, 0);
    assert RecentFirst(DropOld([Entry(key, 1)], 1 + delay - HISTORY), 1 + delay - NETWORK_DELAY) == [];
    var s9 := Step(s8, Handle(600, false), 1 + delay);
    assert s9.flight.reply == Incremental([]);
  }

  // ---------------------------------------------------------------- what the reader hears

  /** A request made at `q` gets the whole filter exactly if the last full fetch is an interval ago, or never was. */
  lemma FullWhenDue(r: Reader, history: seq<Entry>, filter: set<string>, q: int, interval: int, now: int)
    requires 0 <= r.lastFull <= r.last <= q && PossibleInterval(interval)
    ensures var (seconds, fullSeconds) := SecondsSince(r, q);
      var reply := Answer(history, filter, seconds, fullSeconds, interval, now);
      if r.lastFull == 0 || q - r.lastFull >= interval * SECOND then reply == Full(filter) else reply.Incremental?
  {
    hide RecentFirst, DropOld;
  }

  /** Else it gets the keys announced in the seconds since its last fetch and five more, as far as the hour goes. */
  lemma NamedSince(r: Reader, history: seq<Entry>, filter: set<string>, q: int, interval: int, now: int, key: string)
    requires 0 < r.lastFull <= r.last <= q && PossibleInterval(interval) && q - r.lastFull < interval * SECOND && Sorted(history)
    ensures var (seconds, fullSeconds) := SecondsSince(r, q);
      var reply := Answer(history, filter, seconds, fullSeconds, interval, now);
      && reply.Incremental?
      && (key in reply.keys <==>
            exists e <- history :: e.key == key && e.at >= now - 3600 * SECOND &&
                                   e.at >= now - 5 * SECOND - (q - r.last) / SECOND * SECOND)
  {
    var (seconds, fullSeconds) := SecondsSince(r, q);
    FullWhenDue(r, history, filter, q, interval, now);
    NewSinceIsRecent(history, now - Window(seconds), now - HISTORY);
    hide RecentFirst, DropOld, Sorted;
  }

  /** What the reader was told: the latest usable filter, and every key named to it since. */
  datatype Told = Told(keys: set<string>, last: int, lastFull: int)

  ghost function Heard(t: Told, s: Sync, a: Action, now: int): Told
    requires Enabled(s, a, now)
  {
    if a.Deliver? && s.constructed then
      var f := s.flight;
      Told(
        if f.reply.Full? then f.reply.filter
        else if f.reply.Incremental? then t.keys + (set k | k in f.reply.keys)
        else t.keys,
        f.q, if f.reply.Incremental? then t.lastFull else f.q)
    else if (a.Deliver? || a.Fail?) && !s.constructed then
      // the first load: an empty reader's, stamped when it is over
      Told(if a.Deliver? && s.flight.reply.Full? then s.flight.reply.filter else {}, now, now)
    else t
  }

  ghost function HeardIn(t: Told, s: Sync, run: seq<Timed>): Told
    requires Runnable(s, run)
    decreases |run|
  {
    if run == [] then t
    else HeardIn(Heard(t, s, run[0].action, run[0].now), Step(s, run[0].action, run[0].now), run[1..])
  }

  ghost predicate Untold(s: Sync) { s.constructed || s.reader == Reader({}, 0, 0) }

  lemma StepHears(s: Sync, a: Action, now: int)
    requires Inv(s) && Enabled(s, a, now) && Untold(s)
    ensures var r, t := Step(s, a, now).reader, Heard(Told(s.reader.bf, s.reader.last, s.reader.lastFull), s, a, now);
      r == Reader(t.keys, t.last, t.lastFull) && Untold(Step(s, a, now))
  {
    hide CacheServerModel.Inv, ReaderCovers, ReplyCovers;
  }

  /**
   In every run the reader's filter is the latest full one that reached it with exactly the keys named to it
   since: a full answer replaces what was there.  Its stamps are the times of the requests answered.
   */
  lemma {:induction false} ReaderHoldsWhatItHeard(s: Sync, run: seq<Timed>)
    requires Inv(s) && Untold(s) && Runnable(s, run)
    ensures var r, t := Run(s, run).reader, HeardIn(Told(s.reader.bf, s.reader.last, s.reader.lastFull), s, run);
      r == Reader(t.keys, t.last, t.lastFull)
    decreases |run|
  {
    hide Inv, Step, Enabled, Timely, Heard, Untold;
    if run != [] {
      var a, now := run[0].action, run[0].now;
      SyncStepKeeps(s, a, now);
      StepHears(s, a, now);
      ReaderHoldsWhatItHeard(Step(s, a, now), run[1..]);
    }
  }

  /** A lookup bypasses the server exactly for a key not in a filter updated in the last ten minutes. */
  lemma AsksIff(r: Reader, key: string, now: int)
    ensures Asks(r, key, now) <==> key in r.bf || now - r.last >= 600 * SECOND
  {
  }
}
