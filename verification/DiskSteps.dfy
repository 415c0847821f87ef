/**
 The disk cache at the program's own granularity. Put and TryGet run under their directory's lock from
 start to end; Purge lists files without any lock, looks at each of them under the lock, and unlinks a file
 that has no entry only after it has let the lock go. Puts, lookups and one Purge interleave freely.
 */
module DiskSteps {
  import opened Basics
  import opened DiskPaths
  import opened DiskCaches

  /** `queue`: listed and not yet looked at; `doomed`: found without entry, and to be unlinked next. */
  datatype Disk = Disk(entries: Index, files: Files, queue: set<string>, doomed: Option<string>)

  datatype Act =
    | Put(key: string, bytes: string, now: int, opens: bool)
    | Get(key: string, now: int)
    | List(path: string)
    | Look(path: string)
    | Unlink
    | EndPurge

  // ---------------------------------------------------------------- what every state has

  ghost predicate InPlace(o: Options, d: string, k: string)
    requires o.subDirs >= 1
  {
    Bytes(k) && !TooLong(k) && d == LeafOf(o, k)
  }

  /** All of an agreement but that indexed keys have their files; and Purge's files exist. */
  ghost predicate Shaped(o: Options, s: Disk)
  {
    && Sound(o)
    && (forall d :: d in s.entries <==> Registered(o, d))
    && (forall d, k :: d in s.entries && k in s.entries[d] ==> InPlace(o, d, k))
    && AllOurs(o, s.files)
    && s.queue <= s.files.Keys
    && (s.doomed.Some? ==> s.doomed.value in s.files && s.doomed.value !in s.queue)
  }

  /** Every indexed key has its file. */
  ghost predicate Whole(o: Options, s: Disk)
    requires Shaped(o, s)
  {
    forall d, k :: d in s.entries && k in s.entries[d] ==> PathOf(o, k) in s.files
  }

  lemma WholeIsAgreement(o: Options, s: Disk)
    requires Shaped(o, s)
    ensures Whole(o, s) <==> Agreement(o, s.entries, s.files)
  {
    if Whole(o, s) {
      forall d, k | d in s.entries && k in s.entries[d] ensures Backed(o, s.files, d, k) {
        assert InPlace(o, d, k);
      }
    }
    if Agreement(o, s.entries, s.files) {
      forall d, k | d in s.entries && k in s.entries[d] ensures PathOf(o, k) in s.files {
        assert InPlace(o, d, k) && Backed(o, s.files, d, k);
      }
    }
  }

  /** A file is indexed by the entry of its own key in its own place, and by no other. */
  lemma IndexedPath(o: Options, s: Disk, p: string)
    requires Shaped(o, s) && p in s.files
    ensures KeyFromPath(p).Some? && Bytes(KeyFromPath(p).value)
    ensures Indexed(s.entries, p) ==>
      p == PathOf(o, KeyFromPath(p).value) && DirectoryName(p) == LeafOf(o, KeyFromPath(p).value) && Placed(o, p)
  {
    assert OurFile(o, p);
    PlacedPath(o, p);
    if Indexed(s.entries, p) {
      assert InPlace(o, DirectoryName(p), KeyFromPath(p).value);
    }
  }

  lemma EntryIndexes(o: Options, s: Disk, d: string, k: string)
    requires Shaped(o, s) && d in s.entries && k in s.entries[d]
    ensures Bytes(k) && !TooLong(k) && d == LeafOf(o, k) && Indexed(s.entries, PathOf(o, k))
    ensures KeyFromPath(PathOf(o, k)) == Some(k) && DirectoryName(PathOf(o, k)) == d
  {
    assert InPlace(o, d, k);
    FileReadsBack(LeafOf(o, k), k);
  }

  lemma Home(o: Options, s: Disk, key: string)
    requires Shaped(o, s) && Bytes(key)
    ensures LeafOf(o, key) in s.entries
    ensures KeyFromPath(PathOf(o, key)) == Some(key) && DirectoryName(PathOf(o, key)) == LeafOf(o, key)
    ensures OurFile(o, PathOf(o, key))
  {
    PathIsRegistered(o, key);
  }

  // ---------------------------------------------------------------- steps

  predicate Enabled(s: Disk, a: Act)
  {
    match a
    case Put(key, _, _, _) => Bytes(key)
    case Get(key, _) => Bytes(key)
    case List(path) => s.doomed.None? && path in s.files && path !in s.queue
    case Look(path) => s.doomed.None? && path in s.queue
    case Unlink => s.doomed.Some?
    case EndPurge => s.doomed.None?
  }

  /** Put, whole under the lock. */
  function DoPut(o: Options, s: Disk, key: string, bytes: string, now: int, opens: bool): Disk
    requires o.subDirs >= 1 && Bytes(key) && LeafOf(o, key) in s.entries
  {
    var (entries, files) := Filled(o, s.entries, s.files, key, bytes, now, opens);
    s.(entries := entries, files := files)
  }

  /** TryGet opens the file of an indexed key and insists on it. */
  predicate Aborts(o: Options, s: Disk, a: Act)
    requires o.subDirs >= 1
  {
    && a.Get? && Bytes(a.key) && !TooLong(a.key)
    && LeafOf(o, a.key) in s.entries && a.key in s.entries[LeafOf(o, a.key)]
    && PathOf(o, a.key) !in s.files
  }

  function DoGet(o: Options, s: Disk, key: string, now: int): Disk
    requires o.subDirs >= 1 && Bytes(key) && LeafOf(o, key) in s.entries
  {
    var (entries, files) := Touched(o, s.entries, s.files, key, now);
    s.(entries := entries, files := files)
  }

  /** Under the lock: a file with an entry goes with it, one without is left for Unlink. */
  function DoLook(s: Disk, path: string): Disk
  {
    var left := s.(queue := s.queue - {path});
    if Indexed(s.entries, path) then
      left.(entries := WithoutEntry(s.entries, DirectoryName(path), KeyFromPath(path).value), files := s.files - {path})
    else left.(doomed := Some(path))
  }

  function DoUnlink(s: Disk): Disk
    requires s.doomed.Some?
  {
    s.(files := s.files - {s.doomed.value}, doomed := None)
  }

  ghost function Step(o: Options, s: Disk, a: Act): Disk
    requires Shaped(o, s) && Enabled(s, a)
  {
    match a
    case Put(key, bytes, now, opens) =>
      Home(o, s, key);
      DoPut(o, s, key, bytes, now, opens)
    case Get(key, now) =>
      Home(o, s, key);
      DoGet(o, s, key, now)
    case List(path) => s.(queue := s.queue + {path})
    case Look(path) => DoLook(s, path)
    case Unlink => DoUnlink(s)
    case EndPurge => s.(queue := {})
  }

  /** Which files an index with one more, or one less, entry speaks of. */
  lemma IndexedWith(entries: Index, dir: string, key: string, e: Entry, p: string)
    requires dir in entries
    ensures Indexed(WithEntry(entries, dir, key, e), p) <==>
      Indexed(entries, p) || (DirectoryName(p) == dir && KeyFromPath(p) == Some(key))
    ensures Indexed(WithoutEntry(entries, dir, key), p) <==>
      Indexed(entries, p) && !(DirectoryName(p) == dir && KeyFromPath(p) == Some(key))
  {
    hide DirectoryName, KeyFromPath;
  }

  // ---------------------------------------------------------------- shape is always kept

  lemma FillKeepsShape(o: Options, s: Disk, key: string, e: Entry, f: File)
    requires Shaped(o, s) && Bytes(key) && !TooLong(key) && LeafOf(o, key) in s.entries && OurFile(o, PathOf(o, key))
    ensures Shaped(o, s.(entries := WithEntry(s.entries, LeafOf(o, key), key, e), files := s.files[PathOf(o, key) := f]))
  {
    hide LeafOf, PathOf, OurFile, Registered, Sound, TooLong, Bytes;
  }

  lemma EraseKeepsShape(o: Options, s: Disk, key: string)
    requires Shaped(o, s) && Bytes(key) && LeafOf(o, key) in s.entries
    ensures Shaped(o, s.(entries := WithoutEntry(s.entries, LeafOf(o, key), key)))
  {
    hide LeafOf, PathOf, OurFile, Registered, Sound, TooLong, Bytes, InPlace;
  }

  lemma PutKeepsShape(o: Options, s: Disk, key: string, bytes: string, now: int, opens: bool)
    requires Shaped(o, s) && Bytes(key) && LeafOf(o, key) in s.entries
    ensures Shaped(o, DoPut(o, s, key, bytes, now, opens))
  {
    hide Shaped, LeafOf, PathOf, OurFile, TooLong, Bytes, WithEntry, WithoutEntry;
    Home(o, s, key);
    HasSubdirectories(o, s);
    EraseKeepsShape(o, s, key);
    if !TooLong(key) && opens {
      var dir := LeafOf(o, key);
      var accessed := if key in s.entries[dir] then s.entries[dir][key].lastAccessed else now;
      FillKeepsShape(o, s, key, Entry(HEADER + |bytes|, accessed), File(bytes, true, now));
    }
  }

  lemma GetKeepsShape(o: Options, s: Disk, key: string, now: int)
    requires Shaped(o, s) && Bytes(key) && LeafOf(o, key) in s.entries
    ensures Shaped(o, DoGet(o, s, key, now))
  {
    hide Shaped, LeafOf, PathOf, OurFile, TooLong, Bytes, WithEntry;
    Home(o, s, key);
    HasSubdirectories(o, s);
    var dir, path := LeafOf(o, key), PathOf(o, key);
    if !TooLong(key) && key in s.entries[dir] && path in s.files {
      FillKeepsShape(o, s, key, s.entries[dir][key].(lastAccessed := now), s.files[path].(mtime := now));
    }
  }

  lemma LookKeepsShape(o: Options, s: Disk, path: string)
    requires Shaped(o, s) && Enabled(s, Look(path))
    ensures Shaped(o, DoLook(s, path))
  {
    hide OurFile, Registered, Sound, InPlace, KeyFromPath, DirectoryName;
  }

  lemma QueueKeepsShape(o: Options, s: Disk, a: Act)
    requires Shaped(o, s) && Enabled(s, a) && (a.List? || a.EndPurge? || a.Unlink?)
    ensures Shaped(o, Step(o, s, a))
  {
    hide OurFile, Registered, Sound, InPlace;
  }

  lemma StepKeepsShape(o: Options, s: Disk, a: Act)
    requires Shaped(o, s) && Enabled(s, a)
    ensures Shaped(o, Step(o, s, a))
  {
    match a {
      case Put(key, bytes, now, opens) =>
        Home(o, s, key);
        PutKeepsShape(o, s, key, bytes, now, opens);
        hide Shaped, DoPut;
      case Get(key, now) =>
        Home(o, s, key);
        GetKeepsShape(o, s, key, now);
        hide Shaped, DoGet;
      case Look(path) =>
        LookKeepsShape(o, s, path);
        hide Shaped, DoLook;
      case _ =>
        QueueKeepsShape(o, s, a);
        hide Shaped;
    }
  }

  // ---------------------------------------------------------------- what a step makes of one key

  /** The entry and the file of a key. */
  datatype Holding = Holding(entry: Option<Entry>, file: Option<File>)

  function HoldingOf(o: Options, s: Disk, key: string): Holding
    requires o.subDirs >= 1 && Bytes(key) && LeafOf(o, key) in s.entries
  {
    var in_dir, p := s.entries[LeafOf(o, key)], PathOf(o, key);
    Holding(if key in in_dir then Some(in_dir[key]) else None, if p in s.files then Some(s.files[p]) else None)
  }

  /**
   A Put of the key writes its bytes and the time, and makes an entry unless the file cannot be opened,
   which costs the entry; a lookup that finds both marks both as used now; Purge's look takes entry and
   file together, and its unlinking the file alone. Steps that concern other keys change nothing.
   */
  function Becomes(o: Options, s: Disk, a: Act, key: string, h: Holding): Holding
    requires o.subDirs >= 1 && Bytes(key)
  {
    match a
    case Put(k, bytes, now, opens) =>
      if k != key then h
      else if !opens then h.(entry := None)
      else Holding(
        Some(Entry(64 + |bytes|, if h.entry.Some? then h.entry.value.lastAccessed else now)),
        Some(File(bytes, true, now)))
    case Get(k, now) =>
      if k == key && h.entry.Some? && h.file.Some? then
        Holding(Some(h.entry.value.(lastAccessed := now)), Some(h.file.value.(mtime := now)))
      else h
    case Look(p) => if p == PathOf(o, key) && h.entry.Some? then Holding(None, None) else h
    case Unlink => if s.doomed == Some(PathOf(o, key)) then h.(file := None) else h
    case _ => h
  }

  lemma KeyAfter(o: Options, s: Disk, a: Act, key: string)
    requires Shaped(o, s) && Enabled(s, a) && Bytes(key) && !TooLong(key)
    ensures o.subDirs >= 1 && LeafOf(o, key) in s.entries && LeafOf(o, key) in Step(o, s, a).entries
    ensures HoldingOf(o, Step(o, s, a), key) == Becomes(o, s, a, key, HoldingOf(o, s, key))
  {
    hide Shaped, DoPut, DoGet, DoLook, LeafOf, PathOf, HoldingOf, Becomes, Bytes, TooLong;
    Home(o, s, key);
    HasSubdirectories(o, s);
    match a {
      case Put(k, bytes, now, opens) =>
        Home(o, s, k);
        PutAfter(o, s, k, bytes, now, opens, key);
      case Get(k, now) =>
        Home(o, s, k);
        GetAfter(o, s, k, now, key);
      case Look(p) => LookAfter(o, s, p, key);
      case _ => PurgeAfter(o, s, a, key);
    }
  }

  lemma PurgeAfter(o: Options, s: Disk, a: Act, key: string)
    requires Shaped(o, s) && Enabled(s, a) && (a.List? || a.Unlink? || a.EndPurge?)
    requires o.subDirs >= 1 && Bytes(key) && LeafOf(o, key) in s.entries
    ensures LeafOf(o, key) in Step(o, s, a).entries
    ensures HoldingOf(o, Step(o, s, a), key) == Becomes(o, s, a, key, HoldingOf(o, s, key))
  {
    hide Shaped, LeafOf, PathOf, Bytes;
  }

  /** Different keys have different files. */
  lemma OtherPath(o: Options, k: string, key: string)
    requires o.subDirs >= 1 && Bytes(k) && Bytes(key)
    ensures PathOf(o, k) == PathOf(o, key) <==> k == key
  {
    if PathOf(o, k) == PathOf(o, key) {
      FileInjective(LeafOf(o, k), k, LeafOf(o, key), key);
    }
  }

  lemma PutAfter(o: Options, s: Disk, k: string, bytes: string, now: int, opens: bool, key: string)
    requires Shaped(o, s) && o.subDirs >= 1 && Bytes(k) && Bytes(key) && !TooLong(key)
    requires LeafOf(o, k) in s.entries && LeafOf(o, key) in s.entries
    ensures var r := DoPut(o, s, k, bytes, now, opens);
      && LeafOf(o, key) in r.entries
      && HoldingOf(o, r, key) == Becomes(o, s, Put(k, bytes, now, opens), key, HoldingOf(o, s, key))
  {
    hide Shaped, LeafOf, PathOf, TooLong, Bytes;
    OtherPath(o, k, key);
  }

  lemma GetAfter(o: Options, s: Disk, k: string, now: int, key: string)
    requires Shaped(o, s) && o.subDirs >= 1 && Bytes(k) && Bytes(key) && !TooLong(key)
    requires LeafOf(o, k) in s.entries && LeafOf(o, key) in s.entries
    ensures var r := DoGet(o, s, k, now);
      && LeafOf(o, key) in r.entries
      && HoldingOf(o, r, key) == Becomes(o, s, Get(k, now), key, HoldingOf(o, s, key))
  {
    hide Shaped, LeafOf, PathOf, TooLong, Bytes;
    OtherPath(o, k, key);
  }

  lemma LookAfter(o: Options, s: Disk, p: string, key: string)
    requires Shaped(o, s) && o.subDirs >= 1 && Enabled(s, Look(p)) && Bytes(key) && !TooLong(key)
    requires LeafOf(o, key) in s.entries
    requires KeyFromPath(PathOf(o, key)) == Some(key) && DirectoryName(PathOf(o, key)) == LeafOf(o, key)
    ensures var r := DoLook(s, p);
      && LeafOf(o, key) in r.entries
      && HoldingOf(o, r, key) == Becomes(o, s, Look(p), key, HoldingOf(o, s, key))
  {
    hide Shaped, LeafOf, PathOf, TooLong, Bytes, KeyFromPath, DirectoryName, Indexed, WithoutEntry;
    ListedExists(o, s, p);
    IndexedPath(o, s, p);
    IndexedHere(o, s, key);
    if Indexed(s.entries, p) {
      HoldingWithout(o, s, p, key);
    }
  }

  lemma ListedExists(o: Options, s: Disk, p: string)
    requires Shaped(o, s) && p in s.queue
    ensures p in s.files
  {
  }

  lemma IndexedHere(o: Options, s: Disk, key: string)
    requires o.subDirs >= 1 && Bytes(key) && LeafOf(o, key) in s.entries
    requires KeyFromPath(PathOf(o, key)) == Some(key) && DirectoryName(PathOf(o, key)) == LeafOf(o, key)
    ensures Indexed(s.entries, PathOf(o, key)) <==> key in s.entries[LeafOf(o, key)]
  {
    hide LeafOf, PathOf, Bytes, KeyFromPath, DirectoryName;
  }

  lemma HoldingWithout(o: Options, s: Disk, p: string, key: string)
    requires o.subDirs >= 1 && Bytes(key) && LeafOf(o, key) in s.entries && p in s.files && Indexed(s.entries, p)
    requires Bytes(KeyFromPath(p).value) && p == PathOf(o, KeyFromPath(p).value) && DirectoryName(p) == LeafOf(o, KeyFromPath(p).value)
    ensures var r := s.(entries := WithoutEntry(s.entries, DirectoryName(p), KeyFromPath(p).value), files := s.files - {p});
      && LeafOf(o, key) in r.entries
      && HoldingOf(o, r, key) == if p == PathOf(o, key) then Holding(None, None) else HoldingOf(o, s, key)
  {
    hide LeafOf, PathOf, Bytes, KeyFromPath, DirectoryName;
    OtherPath(o, KeyFromPath(p).value, key);
  }

  // ---------------------------------------------------------------- wholeness, step by step

  lemma PutKeepsWhole(o: Options, s: Disk, key: string, bytes: string, now: int, opens: bool)
    requires Shaped(o, s) && Whole(o, s) && Bytes(key) && LeafOf(o, key) in s.entries
    ensures Shaped(o, DoPut(o, s, key, bytes, now, opens)) && Whole(o, DoPut(o, s, key, bytes, now, opens))
  {
    hide Shaped, LeafOf, PathOf, TooLong, Bytes, WithEntry, WithoutEntry;
    PutKeepsShape(o, s, key, bytes, now, opens);
    HasSubdirectories(o, s);
    var r, dir := DoPut(o, s, key, bytes, now, opens), LeafOf(o, key);
    var accessed := if key in s.entries[dir] then s.entries[dir][key].lastAccessed else now;
    forall d, k | d in r.entries && k in r.entries[d] ensures Bytes(k) && PathOf(o, k) in r.files {
      EntryIndexes(o, r, d, k);
      if !TooLong(key) {
        if opens {
          EntriesMore(s.entries, dir, key, Entry(HEADER + |bytes|, accessed), d, k);
        } else {
          EntriesLeft(s.entries, dir, key, d, k);
        }
      }
    }
  }

  lemma GetKeepsWhole(o: Options, s: Disk, key: string, now: int)
    requires Shaped(o, s) && Whole(o, s) && Bytes(key) && LeafOf(o, key) in s.entries
    ensures Shaped(o, DoGet(o, s, key, now)) && Whole(o, DoGet(o, s, key, now))
  {
    hide Shaped, LeafOf, PathOf, TooLong, Bytes, WithEntry;
    GetKeepsShape(o, s, key, now);
    HasSubdirectories(o, s);
    var r, dir := DoGet(o, s, key, now), LeafOf(o, key);
    forall d, k | d in r.entries && k in r.entries[d] ensures Bytes(k) && PathOf(o, k) in r.files {
      EntryIndexes(o, r, d, k);
      if r != s {
        EntriesMore(s.entries, dir, key, s.entries[dir][key].(lastAccessed := now), d, k);
      }
    }
  }

  /** Other entries have other files. */
  lemma OtherEntry(o: Options, s: Disk, path: string, d: string, k: string)
    requires Shaped(o, s) && d in s.entries && k in s.entries[d]
    requires !(d == DirectoryName(path) && Some(k) == KeyFromPath(path))
    ensures Bytes(k) && PathOf(o, k) != path
  {
    EntryIndexes(o, s, d, k);
  }

  lemma LookKeepsWhole(o: Options, s: Disk, path: string)
    requires Shaped(o, s) && Whole(o, s) && Enabled(s, Look(path))
    ensures Shaped(o, DoLook(s, path)) && Whole(o, DoLook(s, path))
  {
    LookKeepsShape(o, s, path);
    if Indexed(s.entries, path) {
      GoneWithItsEntry(o, s, path);
    } else {
      hide Shaped;
    }
  }

  lemma EntriesMore(entries: Index, dir: string, key: string, e: Entry, d: string, k: string)
    requires dir in entries && d in WithEntry(entries, dir, key, e) && k in WithEntry(entries, dir, key, e)[d]
    ensures d in entries && (k in entries[d] || (d == dir && k == key))
  {
  }

  lemma EntriesLeft(entries: Index, dir: string, key: string, d: string, k: string)
    requires dir in entries && d in WithoutEntry(entries, dir, key) && k in WithoutEntry(entries, dir, key)[d]
    ensures d in entries && k in entries[d] && !(d == dir && k == key)
  {
  }

  lemma GoneWithItsEntry(o: Options, s: Disk, path: string)
    requires Shaped(o, s) && Whole(o, s) && path in s.files && Indexed(s.entries, path) && Shaped(o, DoLook(s, path))
    ensures Whole(o, DoLook(s, path))
  {
    hide Shaped, KeyFromPath, DirectoryName, LeafOf, PathOf, Bytes, TooLong, WithoutEntry;
    var r := DoLook(s, path);
    HasSubdirectories(o, s);
    forall d, k | d in r.entries && k in r.entries[d] ensures Bytes(k) && PathOf(o, k) in r.files {
      EntriesLeft(s.entries, DirectoryName(path), KeyFromPath(path).value, d, k);
      OtherEntry(o, s, path, d, k);
    }
  }

  lemma HasSubdirectories(o: Options, s: Disk)
    requires Shaped(o, s)
    ensures o.subDirs >= 1
  {
  }

  lemma DoomedExists(o: Options, s: Disk)
    requires Shaped(o, s) && s.doomed.Some?
    ensures s.doomed.value in s.files
  {
  }

  /** Unlinking a file without looking again breaks the agreement exactly if the file is indexed by then. */
  lemma UnlinkKeepsWholeIff(o: Options, s: Disk)
    requires Shaped(o, s) && Whole(o, s) && s.doomed.Some?
    ensures var r := DoUnlink(s); Shaped(o, r) && (Whole(o, r) <==> !Indexed(s.entries, s.doomed.value))
  {
    hide Shaped, KeyFromPath, DirectoryName, LeafOf, PathOf, Bytes, TooLong, Placed, Indexed;
    var p := s.doomed.value;
    StepKeepsShape(o, s, Unlink);
    DoomedExists(o, s);
    IndexedPath(o, s, p);
    HasSubdirectories(o, s);
    IndexedMeans(s.entries, p);
    forall d, k | d in s.entries && k in s.entries[d] ensures Bytes(k) && (PathOf(o, k) == p ==> Indexed(s.entries, p)) {
      EntryIndexes(o, s, d, k);
    }
  }

  /** The only step that can break an agreement is the unlinking of a file that has got an entry since the look. */
  lemma StepAgreesIff(o: Options, s: Disk, a: Act)
    requires Shaped(o, s) && Whole(o, s) && Enabled(s, a)
    ensures Shaped(o, Step(o, s, a))
    ensures Whole(o, Step(o, s, a)) <==> !(a.Unlink? && Indexed(s.entries, s.doomed.value))
  {
    StepKeepsShape(o, s, a);
    match a {
      case Put(key, bytes, now, opens) =>
        Home(o, s, key);
        PutKeepsWhole(o, s, key, bytes, now, opens);
        hide Shaped, Whole, DoPut;
      case Get(key, now) =>
        Home(o, s, key);
        GetKeepsWhole(o, s, key, now);
        hide Shaped, Whole, DoGet;
      case Look(path) =>
        LookKeepsWhole(o, s, path);
        hide Shaped, Whole, DoLook;
      case Unlink =>
        UnlinkKeepsWholeIff(o, s);
        hide Shaped, Whole;
      case _ => hide Shaped;
    }
  }

  // ---------------------------------------------------------------- runs

  ghost predicate Runnable(o: Options, s: Disk, run: seq<Act>)
    requires Shaped(o, s)
    decreases |run|
  {
    run == [] ||
    (Enabled(s, run[0]) && (StepKeepsShape(o, s, run[0]); Runnable(o, Step(o, s, run[0]), run[1..])))
  }

  ghost function Run(o: Options, s: Disk, run: seq<Act>): (r: Disk)
    requires Shaped(o, s) && Runnable(o, s, run)
    ensures Shaped(o, r)
    decreases |run|
  {
    if run == [] then s else StepKeepsShape(o, s, run[0]); Run(o, Step(o, s, run[0]), run[1..])
  }

  /** Bytes and soundness of a key's file, told from the Puts of the key alone. */
  function LatestPut(start: (string, bool), run: seq<Act>, key: string): (string, bool)
    decreases |run|
  {
    if run == [] then start else LatestPut(PutLast(start, run[0], key), run[1..], key)
  }

  function PutLast(before: (string, bool), a: Act, key: string): (string, bool)
  {
    if a.Put? && a.key == key && a.opens then (a.bytes, true) else before
  }

  /** The key's file, if there is one, holds these bytes. */
  predicate Holds(o: Options, s: Disk, key: string, bytes: (string, bool))
    requires Bytes(key)
  {
    o.subDirs >= 1 && (PathOf(o, key) in s.files ==>
      bytes == (s.files[PathOf(o, key)].body, s.files[PathOf(o, key)].intact))
  }

  lemma StepHolds(o: Options, s: Disk, a: Act, key: string, bytes: (string, bool))
    requires Shaped(o, s) && Enabled(s, a) && Bytes(key) && !TooLong(key) && Holds(o, s, key, bytes)
    ensures Holds(o, Step(o, s, a), key, PutLast(bytes, a, key))
  {
    hide Shaped, Step, PathOf, LeafOf, Bytes, TooLong, Enabled;
    KeyAfter(o, s, a, key);
  }

  /**
   Through every run, races or not, the file of a key, if there is one, holds the bytes of the latest Put of
   that key whose file opened, or those it had at the start if there was none.
   */
  lemma {:induction false} FileHoldsLatestPut(o: Options, s: Disk, run: seq<Act>, key: string, start: (string, bool))
    requires Shaped(o, s) && Runnable(o, s, run) && Bytes(key) && !TooLong(key) && Holds(o, s, key, start)
    ensures Holds(o, Run(o, s, run), key, LatestPut(start, run, key))
    decreases |run|
  {
    if run != [] {
      hide Shaped, Step, Bytes, TooLong, Enabled, Holds, PutLast;
      StepKeepsShape(o, s, run[0]);
      StepHolds(o, s, run[0], key, start);
      FileHoldsLatestPut(o, Step(o, s, run[0]), run[1..], key, PutLast(start, run[0], key));
    }
  }

  /** What TryGet answers if the read succeeds: an indexed key's file, unless its checksum fails. */
  function Answer(o: Options, s: Disk, key: string): Option<string>
    requires o.subDirs >= 1 && Bytes(key) && LeafOf(o, key) in s.entries
  {
    var h := HoldingOf(o, s, key);
    if TooLong(key) || h.entry.None? || h.file.None? || !h.file.value.intact then None else Some(h.file.value.body)
  }

  /** So a lookup after any run answers with the latest bytes put or not at all. */
  lemma LookupIsLatestPut(o: Options, s: Disk, run: seq<Act>, key: string, start: (string, bool))
    requires Shaped(o, s) && Runnable(o, s, run) && Bytes(key) && !TooLong(key) && Holds(o, s, key, start)
    ensures o.subDirs >= 1 && LeafOf(o, key) in Run(o, s, run).entries
    ensures var r, latest := Run(o, s, run), LatestPut(start, run, key);
      Answer(o, r, key) ==
        if key in r.entries[LeafOf(o, key)] && PathOf(o, key) in r.files && latest.1 then Some(latest.0) else None
  {
    FileHoldsLatestPut(o, s, run, key, start);
    Home(o, Run(o, s, run), key);
    hide Shaped, Run, Runnable, PathOf, LeafOf, Bytes, TooLong, LatestPut;
  }

  /** The step is a successful Put of the very file that Purge is about to unlink. */
  ghost predicate Races(o: Options, s: Disk, a: Act)
    requires o.subDirs >= 1
  {
    a.Put? && a.opens && Bytes(a.key) && !TooLong(a.key) && s.doomed == Some(PathOf(o, a.key))
  }

  ghost predicate RaceFree(o: Options, s: Disk, run: seq<Act>)
    requires Shaped(o, s) && Runnable(o, s, run)
    decreases |run|
  {
    run == [] ||
    (!Races(o, s, run[0]) && (StepKeepsShape(o, s, run[0]); RaceFree(o, Step(o, s, run[0]), run[1..])))
  }

  /** What Purge is about to unlink has no entry. */
  ghost predicate DoomedUnindexed(s: Disk)
  {
    s.doomed.Some? ==> !Indexed(s.entries, s.doomed.value)
  }

  lemma PutElsewhere(o: Options, s: Disk, a: Act)
    requires Shaped(o, s) && Enabled(s, a) && a.Put? && DoomedUnindexed(s) && !Races(o, s, a)
    ensures DoomedUnindexed(Step(o, s, a))
  {
    Home(o, s, a.key);
    if s.doomed.Some? {
      var p, dir := s.doomed.value, LeafOf(o, a.key);
      assert OurFile(o, p);
      PlacedPath(o, p);
      hide Shaped, OurFile, KeyFromPath, DirectoryName, LeafOf, Bytes, TooLong, Indexed, WithEntry, WithoutEntry;
      var accessed := if a.key in s.entries[dir] then s.entries[dir][a.key].lastAccessed else a.now;
      IndexedWith(s.entries, dir, a.key, Entry(HEADER + |a.bytes|, accessed), p);
    }
  }

  lemma IndexedMeans(entries: Index, path: string)
    ensures Indexed(entries, path) <==>
      KeyFromPath(path).Some? && DirectoryName(path) in entries && KeyFromPath(path).value in entries[DirectoryName(path)]
  {
  }

  lemma GetElsewhere(o: Options, s: Disk, a: Act)
    requires Shaped(o, s) && Enabled(s, a) && a.Get? && DoomedUnindexed(s)
    ensures DoomedUnindexed(Step(o, s, a))
  {
    hide Shaped, KeyFromPath, DirectoryName, LeafOf, PathOf, Bytes, TooLong, Indexed, WithEntry;
    Home(o, s, a.key);
    HasSubdirectories(o, s);
    if s.doomed.Some? && LeafOf(o, a.key) in s.entries && a.key in s.entries[LeafOf(o, a.key)] {
      var p, dir := s.doomed.value, LeafOf(o, a.key);
      IndexedWith(s.entries, dir, a.key, s.entries[dir][a.key].(lastAccessed := a.now), p);
      IndexedMeans(s.entries, p);
    }
  }

  lemma PurgeElsewhere(s: Disk, path: string)
    requires DoomedUnindexed(s) && Enabled(s, Look(path))
    ensures DoomedUnindexed(DoLook(s, path))
  {
    hide KeyFromPath, DirectoryName;
  }

  lemma RaceFreeStep(o: Options, s: Disk, a: Act)
    requires Shaped(o, s) && Whole(o, s) && DoomedUnindexed(s) && Enabled(s, a) && !Races(o, s, a)
    ensures Shaped(o, Step(o, s, a)) && Whole(o, Step(o, s, a)) && DoomedUnindexed(Step(o, s, a))
  {
    StepAgreesIff(o, s, a);
    hide Shaped, Whole, Indexed, DoPut, DoGet, DoLook;
    if a.Put? {
      PutElsewhere(o, s, a);
    } else if a.Get? {
      GetElsewhere(o, s, a);
    } else if a.Look? {
      PurgeElsewhere(s, a.path);
    }
  }

  /**
   Over every interleaving of Puts, lookups and Purge in which no Put succeeds on a file between Purge's
   look at it and its unlinking, index and store agree; so no lookup ever misses the file of its entry.
   */
  lemma {:induction false} RaceFreeRunsAgree(o: Options, s: Disk, run: seq<Act>)
    requires Shaped(o, s) && Whole(o, s) && DoomedUnindexed(s) && Runnable(o, s, run) && RaceFree(o, s, run)
    ensures Agreement(o, Run(o, s, run).entries, Run(o, s, run).files)
    ensures forall a: Act :: !Aborts(o, Run(o, s, run), a)
    decreases |run|
  {
    if run == [] {
      WholeIsAgreement(o, s);
      forall a: Act ensures !Aborts(o, s, a) {
      }
    } else {
      StepKeepsShape(o, s, run[0]);
      hide Shaped, Whole, DoomedUnindexed, Step, Enabled, Races, Agreement, Aborts;
      RaceFreeStep(o, s, run[0]);
      RaceFreeRunsAgree(o, Step(o, s, run[0]), run[1..]);
    }
  }

  // ---------------------------------------------------------------- no failing open, no race

  /** Every file in its place is indexed, and Purge is about to unlink misplaced files only. */
  ghost predicate Full(o: Options, s: Disk)
    requires o.subDirs >= 1
  {
    && (forall p <- s.files :: Placed(o, p) ==> Indexed(s.entries, p))
    && (s.doomed.Some? ==> !Placed(o, s.doomed.value))
  }

  /** A cache just opened is such a one. */
  ghost function Opened(o: Options, entries: Index, files: Files): (s: Disk)
    requires Agreement(o, entries, files) && forall p <- files :: Settled(o, entries, p)
    ensures Shaped(o, s) && Whole(o, s) && DoomedUnindexed(s) && Full(o, s) && s.queue == {} && s.doomed.None?
  {
    var s := Disk(entries, files, {}, None);
    OpenedIsFull(o, s);
    s
  }

  lemma OpenedIsFull(o: Options, s: Disk)
    requires Agreement(o, s.entries, s.files) && (forall p <- s.files :: Settled(o, s.entries, p))
    requires s.queue == {} && s.doomed.None?
    ensures Shaped(o, s) && Whole(o, s) && Full(o, s)
  {
    forall d, k | d in s.entries && k in s.entries[d] ensures InPlace(o, d, k) {
      assert Backed(o, s.files, d, k);
    }
    WholeIsAgreement(o, s);
    forall p | p in s.files && Placed(o, p) ensures Indexed(s.entries, p) {
      assert Settled(o, s.entries, p);
    }
  }

  lemma OwnPathIsPlaced(o: Options, s: Disk, key: string)
    requires Shaped(o, s) && Bytes(key) && !TooLong(key)
    ensures Placed(o, PathOf(o, key))
  {
    Home(o, s, key);
  }

  lemma PutKeepsFull(o: Options, s: Disk, a: Act)
    requires Shaped(o, s) && Full(o, s) && Enabled(s, a) && a.Put? && a.opens
    ensures Full(o, Step(o, s, a)) && !Races(o, s, a)
  {
    Home(o, s, a.key);
    if !TooLong(a.key) {
      OwnPathIsPlaced(o, s, a.key);
      var dir := LeafOf(o, a.key);
      hide Shaped, KeyFromPath, DirectoryName, LeafOf, PathOf, Bytes, TooLong, Placed, Indexed, WithEntry;
      var accessed := if a.key in s.entries[dir] then s.entries[dir][a.key].lastAccessed else a.now;
      forall p: string
        ensures Indexed(Step(o, s, a).entries, p) <==> Indexed(s.entries, p) || (DirectoryName(p) == dir && KeyFromPath(p) == Some(a.key))
      {
        IndexedWith(s.entries, dir, a.key, Entry(HEADER + |a.bytes|, accessed), p);
      }
    }
  }

  lemma GetKeepsFull(o: Options, s: Disk, a: Act)
    requires Shaped(o, s) && Full(o, s) && Enabled(s, a) && a.Get?
    ensures Full(o, Step(o, s, a))
  {
    Home(o, s, a.key);
    var dir := LeafOf(o, a.key);
    hide Shaped, KeyFromPath, DirectoryName, LeafOf, PathOf, Bytes, TooLong, Placed, Indexed, WithEntry;
    if a.key in s.entries[dir] {
      forall p: string
        ensures Indexed(WithEntry(s.entries, dir, a.key, s.entries[dir][a.key].(lastAccessed := a.now)), p) <==>
          Indexed(s.entries, p) || (DirectoryName(p) == dir && KeyFromPath(p) == Some(a.key))
      {
        IndexedWith(s.entries, dir, a.key, s.entries[dir][a.key].(lastAccessed := a.now), p);
      }
    }
  }

  lemma LookKeepsFull(o: Options, s: Disk, path: string)
    requires Shaped(o, s) && Full(o, s) && Enabled(s, Look(path))
    ensures Full(o, DoLook(s, path))
  {
    var r := DoLook(s, path);
    if Indexed(s.entries, path) {
      var dir, key := DirectoryName(path), KeyFromPath(path).value;
      assert forall p <- s.files :: OurFile(o, p);
      assert path in s.files && dir in s.entries && o.subDirs >= 1;
      hide Shaped, OurFile, KeyFromPath, DirectoryName, Placed, Indexed, WithoutEntry, Bytes;
      forall p | p in r.files && Placed(o, p) ensures Indexed(r.entries, p) {
        PlacedPath(o, p);
        PlacedPath(o, path);
        IndexedWith(s.entries, dir, key, Entry(0, 0), p);
      }
    }
  }

  lemma FullStep(o: Options, s: Disk, a: Act)
    requires Shaped(o, s) && Full(o, s) && Enabled(s, a) && (a.Put? ==> a.opens)
    ensures Full(o, Step(o, s, a)) && !Races(o, s, a)
  {
    if a.Put? {
      PutKeepsFull(o, s, a);
    } else if a.Get? {
      GetKeepsFull(o, s, a);
    } else if a.Look? {
      LookKeepsFull(o, s, a.path);
      hide Shaped, Full, DoLook;
    } else {
      hide Shaped, Placed, Indexed;
    }
  }

  lemma {:induction false} OpeningRunsAreRaceFree(o: Options, s: Disk, run: seq<Act>)
    requires Shaped(o, s) && Full(o, s) && Runnable(o, s, run)
    requires forall i :: 0 <= i < |run| && run[i].Put? ==> run[i].opens
    ensures RaceFree(o, s, run)
    decreases |run|
  {
    if run != [] {
      StepKeepsShape(o, s, run[0]);
      FullStep(o, s, run[0]);
      assert o.subDirs >= 1;
      hide Shaped, Full, Step, Enabled, Races;
      OpeningRunsAreRaceFree(o, Step(o, s, run[0]), run[1..]);
    }
  }

  /**
   From an opened cache, in every interleaving in which no Put fails to open its file, index and store
   agree and no lookup aborts, whatever Purge does.
   */
  lemma OpeningRunsAgree(o: Options, entries: Index, files: Files, run: seq<Act>)
    requires Agreement(o, entries, files) && forall p <- files :: Settled(o, entries, p)
    requires Runnable(o, Opened(o, entries, files), run)
    requires forall i :: 0 <= i < |run| && run[i].Put? ==> run[i].opens
    ensures var r := Run(o, Opened(o, entries, files), run);
      Agreement(o, r.entries, r.files) && forall a: Act :: !Aborts(o, r, a)
  {
    var s := Opened(o, entries, files);
    OpeningRunsAreRaceFree(o, s, run);
    RaceFreeRunsAgree(o, s, run);
  }

  // ---------------------------------------------------------------- the race

  lemma RunNowhere(o: Options, s: Disk)
    requires Shaped(o, s)
    ensures Runnable(o, s, []) && Run(o, s, []) == s
  {
  }

  lemma RunFrom(o: Options, s: Disk, a: Act, r: Disk, rest: seq<Act>, t: Disk)
    requires Shaped(o, s) && Enabled(s, a) && Step(o, s, a) == r && Shaped(o, r) && Runnable(o, r, rest) && Run(o, r, rest) == t
    ensures Runnable(o, s, [a] + rest) && Run(o, s, [a] + rest) == t
  {
    var all := [a] + rest;
    assert all[0] == a && all[1..] == rest;
  }

  /** From a file without entry, looked at and put again before it is unlinked. */
  lemma PutBeforeUnlink(o: Options, s: Disk, key: string, bytes: string, now: int)
    requires Shaped(o, s) && Bytes(key) && !TooLong(key) && s.doomed.None? && s.queue == {}
    requires PathOf(o, key) in s.files && LeafOf(o, key) in s.entries && key !in s.entries[LeafOf(o, key)]
    ensures var p := PathOf(o, key);
      var run := [List(p)] + ([Look(p)] + ([Put(key, bytes, now, true)] + ([Unlink] + [])));
      && Runnable(o, s, run)
      && var r := Run(o, s, run);
         LeafOf(o, key) in r.entries && key in r.entries[LeafOf(o, key)] && p !in r.files
  {
    var p := PathOf(o, key);
    Home(o, s, key);
    var s1 := Step(o, s, List(p));
    StepKeepsShape(o, s, List(p));
    assert !Indexed(s.entries, p);
    var s2 := Step(o, s1, Look(p));
    StepKeepsShape(o, s1, Look(p));
    assert s2 == s.(doomed := Some(p)) by { hide Shaped, Indexed, PathOf; }
    hide Shaped, Step, Runnable, Run, PathOf, LeafOf, TooLong, Bytes, Enabled, Indexed;
    PutThenUnlink(o, s2, key, bytes, now);
    var rest := [Put(key, bytes, now, true)] + ([Unlink] + []);
    CanList(s, p);
    CanLook(s1, p);
    RunFrom(o, s1, Look(p), s2, rest, Run(o, s2, rest));
    RunFrom(o, s, List(p), s1, [Look(p)] + rest, Run(o, s2, rest));
  }

  lemma CanList(s: Disk, p: string)
    requires s.doomed.None? && p in s.files && p !in s.queue
    ensures Enabled(s, List(p))
  {
  }

  lemma CanLook(s: Disk, p: string)
    requires s.doomed.None? && p in s.queue
    ensures Enabled(s, Look(p))
  {
  }

  lemma PutThenUnlink(o: Options, s: Disk, key: string, bytes: string, now: int)
    requires Shaped(o, s) && Bytes(key) && !TooLong(key) && s.doomed == Some(PathOf(o, key))
    ensures var run := [Put(key, bytes, now, true)] + ([Unlink] + []);
      && Runnable(o, s, run)
      && var r := Run(o, s, run);
         LeafOf(o, key) in r.entries && key in r.entries[LeafOf(o, key)] && PathOf(o, key) !in r.files
  {
    hide Shaped, Step, Runnable, Run, PathOf, LeafOf, TooLong, Bytes, Enabled;
    var a := Put(key, bytes, now, true);
    PutIs(o, s, key, bytes, now);
    var s3 := Step(o, s, a);
    StepKeepsShape(o, s, a);
    UnlinkIs(o, s3);
    var s4 := Step(o, s3, Unlink);
    StepKeepsShape(o, s3, Unlink);
    RunNowhere(o, s4);
    RunFrom(o, s3, Unlink, s4, [], s4);
    RunFrom(o, s, a, s3, [Unlink] + [], s4);
  }

  lemma PutIs(o: Options, s: Disk, key: string, bytes: string, now: int)
    requires Shaped(o, s) && Bytes(key) && !TooLong(key)
    ensures Enabled(s, Put(key, bytes, now, true)) && o.subDirs >= 1
    ensures var r := Step(o, s, Put(key, bytes, now, true));
      && LeafOf(o, key) in r.entries && key in r.entries[LeafOf(o, key)] && PathOf(o, key) in r.files
      && r.doomed == s.doomed && r.queue == s.queue
  {
    Home(o, s, key);
    hide PathOf, LeafOf, TooLong, Bytes;
  }

  lemma UnlinkIs(o: Options, s: Disk)
    requires Shaped(o, s) && s.doomed.Some?
    ensures Enabled(s, Unlink) && Step(o, s, Unlink) == s.(files := s.files - {s.doomed.value}, doomed := None)
  {
  }

  /**
   From any cache at rest and for any key: Put it, Put it again with an open that fails, let Purge list and
   look at the file, Put it once more, let Purge unlink. The key is indexed and its file is gone, so the
   next lookup of it aborts.
   */
  lemma RacingPutStrandsItsEntry(o: Options, s: Disk, key: string, bytes: string, now: int)
    requires Shaped(o, s) && Bytes(key) && !TooLong(key) && s.doomed.None? && s.queue == {}
    ensures var p := PathOf(o, key);
      var run := [Put(key, bytes, now, true)] + ([Put(key, bytes, now, false)] +
        ([List(p)] + ([Look(p)] + ([Put(key, bytes, now, true)] + ([Unlink] + [])))));
      && Runnable(o, s, run)
      && var r := Run(o, s, run);
         Aborts(o, r, Get(key, now)) && !Agreement(o, r.entries, r.files)
  {
    var p := PathOf(o, key);
    Home(o, s, key);
    var s1 := Step(o, s, Put(key, bytes, now, true));
    StepKeepsShape(o, s, Put(key, bytes, now, true));
    Home(o, s1, key);
    var s2 := Step(o, s1, Put(key, bytes, now, false));
    StepKeepsShape(o, s1, Put(key, bytes, now, false));
    assert p in s2.files && key !in s2.entries[LeafOf(o, key)] && s2.doomed.None? && s2.queue == {};
    var rest := [List(p)] + ([Look(p)] + ([Put(key, bytes, now, true)] + ([Unlink] + [])));
    PutBeforeUnlink(o, s2, key, bytes, now);
    var r := Run(o, s2, rest);
    NoFileNoAgreement(o, r, key);
    hide Shaped, Step, Runnable, Run, PathOf, LeafOf, TooLong, Bytes, Agreement;
    RunFrom(o, s1, Put(key, bytes, now, false), s2, rest, r);
    RunFrom(o, s, Put(key, bytes, now, true), s1, [Put(key, bytes, now, false)] + rest, r);
  }

  lemma NoFileNoAgreement(o: Options, s: Disk, key: string)
    requires Shaped(o, s) && Bytes(key) && LeafOf(o, key) in s.entries && key in s.entries[LeafOf(o, key)]
    requires PathOf(o, key) !in s.files
    ensures !Agreement(o, s.entries, s.files)
  {
    WholeIsAgreement(o, s);
  }

  // ---------------------------------------------------------------- an undisturbed Purge

  /** A look, and the unlinking at once if it has to be. */
  function Discarded(s: Disk, path: string): Disk
  {
    var looked := DoLook(s, path);
    if looked.doomed.None? then looked else DoUnlink(looked)
  }

  function Purged(s: Disk, paths: seq<string>): Disk
    decreases |paths|
  {
    if paths == [] then s else Purged(Discarded(s, paths[0]), paths[1..])
  }

  /** One file discarded: what Discard does in one go. */
  lemma DiscardedIs(o: Options, s: Disk, path: string)
    requires Shaped(o, s) && Whole(o, s) && s.doomed.None? && path in s.queue
    ensures Discarded(s, path) == Disk(Without(s.entries, {path}), s.files - {path}, s.queue - {path}, None)
    ensures Shaped(o, Discarded(s, path)) && Whole(o, Discarded(s, path))
  {
    WholeIsAgreement(o, s);
    assert path in s.files;
    DiscardOne(o, s.entries, s.files, path);
    DiscardedShape(o, s, path);
    hide Shaped, Whole, Agreement, Without, KeyFromPath, DirectoryName;
  }

  lemma DiscardedShape(o: Options, s: Disk, path: string)
    requires Shaped(o, s) && Whole(o, s) && s.doomed.None? && path in s.queue
    ensures Shaped(o, Discarded(s, path)) && Whole(o, Discarded(s, path))
  {
    hide Shaped, Whole, Indexed;
    StepAgreesIff(o, s, Look(path));
    var looked := DoLook(s, path);
    if looked.doomed.Some? {
      StepAgreesIff(o, looked, Unlink);
    }
  }

  lemma WithoutTwice(entries: Index, a: set<string>, b: set<string>)
    ensures Without(Without(entries, a), b) == Without(entries, a + b)
  {
    forall d | d in entries ensures Trim(d, Trim(d, entries[d], a), b) == Trim(d, entries[d], a + b) {
    }
  }

  function Set(paths: seq<string>): set<string> { set p | p in paths }

  /** So an undisturbed Purge of listed files removes exactly them and their entries, as PurgeCacheAt does. */
  lemma {:induction false} UndisturbedPurge(o: Options, s: Disk, paths: seq<string>)
    requires Shaped(o, s) && Whole(o, s) && s.doomed.None? && Set(paths) <= s.queue
    requires forall i, j :: 0 <= i < j < |paths| ==> paths[i] != paths[j]
    ensures Purged(s, paths) == Disk(Without(s.entries, Set(paths)), s.files - Set(paths), s.queue - Set(paths), None)
    decreases |paths|
  {
    hide Shaped, Whole, Without, Discarded;
    if paths == [] {
      WithoutNothing(s.entries);
      assert Set(paths) == {};
    } else {
      var p, rest := paths[0], paths[1..];
      assert p in paths && p !in rest && Set(paths) == {p} + Set(rest);
      DiscardedIs(o, s, p);
      UndisturbedPurge(o, Discarded(s, p), rest);
      WithoutTwice(s.entries, {p}, Set(rest));
    }
  }
}
