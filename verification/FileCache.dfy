/**
 The pinning file cache of file_cache.cpp as a step relation: any number of
 threads, any interleaving of the steps of pin and unpin.

 A thread takes and releases the reader-writer lock in steps of its own; each
 round of the eviction loop is one step, and evicts any unpinned entry.  File
 sizes do not change.  A handle is the name of the file, and may be unpinned once
 by any thread.

 History variables, read by no step: `handles` (how many handles to a file are
 out), `unpinning` (which thread is giving back which handle) and `evicted` (the
 files evicted so far).
 */
module FileCache {
  const NONE: int := -1

  /** Stands for the name of a file. */
  type File = int

  /** How a call of pin ends: with a handle, or without one because the file could
      not be loaded, was put in the cache meanwhile, or does not fit. */
  datatype Outcome = Pinned | NoFile | Taken | NoRoom

  datatype Pc =
    | Idle
      // pin
    | PinLock(file: File) | Find(file: File) | AddPin(file: File) | HitUnlock(file: File) | MissUnlock(file: File)
    | Load(file: File)
    | InsertLock(file: File) | Evict(file: File) | Insert(file: File) | InsertUnlock(file: File, outcome: Outcome)
    | Return(file: File, outcome: Outcome)
      // unpin
    | UnpinLock(file: File) | UnpinFind(file: File) | UnpinTest(file: File) | UnpinSub(file: File)
    | UnpinUnlock(file: File)
      // unpin met an entry without pins
    | Fatal

  datatype State = State(
    threads: seq<Pc>,
    sizes: map<File, int>,
    maxSize: int,
    stats: map<File, int>,      // the entries of the cache, with their pin counts
    bytesUsed: int,
    readers: set<int>,
    writer: int,
    handles: map<File, int>,
    unpinning: map<int, File>,
    evicted: seq<File>)

  predicate IsThread(s: State, t: int) {
    0 <= t < |s.threads|
  }

  /** getFileSize: 0 for a file that cannot be opened. */
  function SizeOf(sizes: map<File, int>, f: File): (n: int)
    ensures n >= 0
  {
    if f in sizes && sizes[f] >= 0 then sizes[f] else 0
  }

  function HandlesOf(s: State, f: File): int {
    if f in s.handles then s.handles[f] else 0
  }

  function Go(s: State, t: int, pc: Pc): State
    requires IsThread(s, t)
  {
    s.(threads := s.threads[t := pc])
  }

  predicate Room(s: State, f: File) {
    s.bytesUsed + SizeOf(s.sizes, f) <= s.maxSize
  }

  // ----- pin -----

  function DoAddPin(s: State, t: int, f: File): State
    requires IsThread(s, t) && f in s.stats
  {
    s.(threads := s.threads[t := HitUnlock(f)], stats := s.stats[f := s.stats[f] + 1],
       handles := s.handles[f := HandlesOf(s, f) + 1])
  }

  function DoEvict(s: State, t: int, victim: File): State
    requires IsThread(s, t)
  {
    s.(bytesUsed := s.bytesUsed - SizeOf(s.sizes, victim), stats := s.stats - {victim}, evicted := s.evicted + [victim])
  }

  function DoInsert(s: State, t: int, f: File): State
    requires IsThread(s, t)
  {
    if Room(s, f) && f !in s.stats then
      s.(threads := s.threads[t := InsertUnlock(f, Pinned)], stats := s.stats[f := 1],
         bytesUsed := s.bytesUsed + SizeOf(s.sizes, f), handles := s.handles[f := HandlesOf(s, f) + 1])
    else
      Go(s, t, InsertUnlock(f, if Room(s, f) then Taken else NoRoom))
  }

  // ----- unpin -----

  function DoBeginUnpin(s: State, t: int, f: File): State
    requires IsThread(s, t) && HandlesOf(s, f) > 0
  {
    s.(threads := s.threads[t := UnpinLock(f)], handles := s.handles[f := HandlesOf(s, f) - 1],
       unpinning := s.unpinning[t := f])
  }

  function DoUnpinSub(s: State, t: int, f: File): State
    requires IsThread(s, t) && f in s.stats
  {
    s.(threads := s.threads[t := UnpinUnlock(f)], stats := s.stats[f := s.stats[f] - 1],
       unpinning := s.unpinning - {t})
  }

  // ----- steps -----

  /** Choices that a step does not determine: which call to make, which entry to
      evict, and whether a file can be loaded. */
  datatype Choice = Choice(unpin: bool, file: File, loads: bool)

  predicate Free(s: State) {
    s.writer == NONE && s.readers == {}
  }

  ghost predicate StepBy(s: State, s': State, t: int, c: Choice) {
    && IsThread(s, t)
    && match s.threads[t]
       case Idle =>
         if c.unpin then HandlesOf(s, c.file) > 0 && s' == DoBeginUnpin(s, t, c.file)
         else s' == Go(s, t, PinLock(c.file))
       case PinLock(f) => s.writer == NONE && s' == Go(s.(readers := s.readers + {t}), t, Find(f))
       case Find(f) => s' == Go(s, t, if f in s.stats then AddPin(f) else MissUnlock(f))
       case AddPin(f) => f in s.stats ==> s' == DoAddPin(s, t, f)
       case HitUnlock(f) => s' == Go(s.(readers := s.readers - {t}), t, Return(f, Pinned))
       case MissUnlock(f) => s' == Go(s.(readers := s.readers - {t}), t, Load(f))
       case Load(f) => s' == Go(s, t, if c.loads then InsertLock(f) else Return(f, NoFile))
       case InsertLock(f) => Free(s) && s' == Go(s.(writer := t), t, Evict(f))
       case Evict(f) =>
         if !Room(s, f) && exists g :: g in s.stats && s.stats[g] == 0
         then c.file in s.stats && s.stats[c.file] == 0 && s' == DoEvict(s, t, c.file)
         else s' == Go(s, t, Insert(f))
       case Insert(f) => s' == DoInsert(s, t, f)
       case InsertUnlock(f, outcome) => s' == Go(s.(writer := NONE), t, Return(f, outcome))
       case Return(f, _) => s' == Go(s, t, Idle)
       case UnpinLock(f) => s.writer == NONE && s' == Go(s.(readers := s.readers + {t}), t, UnpinFind(f))
       case UnpinFind(f) => s' == Go(s, t, if f in s.stats then UnpinTest(f) else UnpinUnlock(f))
       case UnpinTest(f) => f in s.stats ==> s' == Go(s, t, if s.stats[f] != 0 then UnpinSub(f) else Fatal)
       case UnpinSub(f) => f in s.stats ==> s' == DoUnpinSub(s, t, f)
       case UnpinUnlock(f) => s' == Go(s.(readers := s.readers - {t}), t, Idle)
       case Fatal => false
  }

  ghost predicate Next(s: State, s': State) {
    exists t, c :: StepBy(s, s', t, c)
  }

  ghost predicate NextAt(run: seq<State>, i: nat) {
    i + 1 < |run| && Next(run[i], run[i + 1])
  }

  predicate Init(s: State) {
    && (forall t :: 0 <= t < |s.threads| ==> s.threads[t].Idle?)
    && s.maxSize >= 0 && s.stats == map[] && s.bytesUsed == 0 && s.readers == {} && s.writer == NONE
    && s.handles == map[] && s.unpinning == map[] && s.evicted == []
  }

  ghost predicate IsRun(run: seq<State>) {
    |run| > 0 && Init(run[0]) && forall i :: 0 <= i < |run| - 1 ==> NextAt(run, i)
  }

  // ----- sums and counts -----

  /** The sizes of the cached files, added up. */
  ghost function Total(sizes: map<File, int>, files: set<File>): int {
    if exists f :: f in files then
      var f :| f in files;
      SizeOf(sizes, f) + Total(sizes, files - {f})
    else 0
  }

  lemma {:induction false} TotalRemove(sizes: map<File, int>, files: set<File>, f: File)
    requires f in files
    ensures Total(sizes, files) == SizeOf(sizes, f) + Total(sizes, files - {f})
    decreases |files|
  {
    var g :| g in files && Total(sizes, files) == SizeOf(sizes, g) + Total(sizes, files - {g});
    if g != f {
      TotalRemove(sizes, files - {g}, f);
      TotalRemove(sizes, files - {f}, g);
      assert files - {g} - {f} == files - {f} - {g};
    }
  }

  /** The threads that are giving back a handle to `f`. */
  ghost function Unpinners(m: map<int, File>, f: File): set<int> {
    set t | t in m && m[t] == f
  }

  lemma UnpinnersAdd(m: map<int, File>, t: int, f: File, g: File)
    requires t !in m
    ensures |Unpinners(m[t := f], g)| == |Unpinners(m, g)| + if g == f then 1 else 0
  {
    if g == f {
      assert Unpinners(m[t := f], g) == Unpinners(m, g) + {t};
    } else {
      assert Unpinners(m[t := f], g) == Unpinners(m, g);
    }
  }

  lemma UnpinnersRemove(m: map<int, File>, t: int, f: File, g: File)
    requires t in m && m[t] == f
    ensures |Unpinners(m - {t}, g)| == |Unpinners(m, g)| - if g == f then 1 else 0
  {
    if g == f {
      assert Unpinners(m, g) == Unpinners(m - {t}, g) + {t};
    } else {
      assert Unpinners(m - {t}, g) == Unpinners(m, g);
    }
  }

  // ----- the invariant -----

  predicate Reading(pc: Pc) {
    || pc.Find? || pc.AddPin? || pc.HitUnlock? || pc.MissUnlock?
    || pc.UnpinFind? || pc.UnpinTest? || pc.UnpinSub? || pc.UnpinUnlock?
  }

  predicate Writing(pc: Pc) {
    pc.Evict? || pc.Insert? || pc.InsertUnlock?
  }

  /** Between the start of unpin and the end of the pin. */
  predicate Unpinning(pc: Pc) {
    pc.UnpinLock? || pc.UnpinFind? || pc.UnpinTest? || pc.UnpinSub?
  }

  predicate ThreadOk(s: State, t: int)
    requires IsThread(s, t)
  {
    var pc := s.threads[t];
    && !pc.Fatal?
    && (Reading(pc) <==> t in s.readers)
    && (Writing(pc) <==> s.writer == t)
    && (pc.AddPin? || pc.UnpinTest? || pc.UnpinSub? ==> pc.file in s.stats)
    && (if Unpinning(pc) then t in s.unpinning && s.unpinning[t] == pc.file else t !in s.unpinning)
  }

  /** The pin count of a file is the number of handles that are out or on their way
      back; a file without entry has none. */
  ghost predicate PinsOk(s: State, f: File) {
    && HandlesOf(s, f) >= 0
    && (if f in s.stats then s.stats[f] else 0) == HandlesOf(s, f) + |Unpinners(s.unpinning, f)|
  }

  ghost predicate Inv(s: State) {
    && (s.writer != NONE ==> s.readers == {})
    && s.bytesUsed == Total(s.sizes, s.stats.Keys) && s.bytesUsed <= s.maxSize
    && (forall t :: t in s.unpinning ==> IsThread(s, t))
    && (forall t :: t in s.readers ==> IsThread(s, t)) && (s.writer != NONE ==> IsThread(s, s.writer))
    && (forall t {:trigger ThreadOk(s, t)} :: 0 <= t < |s.threads| ==> ThreadOk(s, t))
    && (forall f {:trigger PinsOk(s, f)} :: PinsOk(s, f))
  }

  // ----- steps -----

  /** The threads other than the one that moved are as they were. */
  lemma OthersOk(s: State, s': State, t: int, pc: Pc)
    requires Inv(s) && IsThread(s, t) && s'.threads == s.threads[t := pc] && ThreadOk(s', t)
    requires s'.readers - {t} == s.readers - {t}
    requires s'.writer == s.writer || ((s.writer == NONE || s.writer == t) && (s'.writer == NONE || s'.writer == t))
    requires s'.unpinning - {t} == s.unpinning - {t}
    requires s.readers == {} || s.stats.Keys <= s'.stats.Keys
    ensures forall u :: 0 <= u < |s'.threads| ==> ThreadOk(s', u)
  {
    forall u | 0 <= u < |s'.threads| ensures ThreadOk(s', u) {
      assert ThreadOk(s, u);
      if u != t {
        assert u in s.readers <==> u in s.readers - {t};
        assert u in s'.readers <==> u in s'.readers - {t};
        SameAt(s.unpinning, s'.unpinning, t, u);
      }
    }
  }

  lemma SameAt(m: map<int, File>, m': map<int, File>, t: int, u: int)
    requires m - {t} == m' - {t} && u != t
    ensures (u in m <==> u in m') && (u in m ==> m[u] == m'[u])
  {
    assert u in m <==> u in m - {t};
    assert u in m' <==> u in m' - {t};
    if u in m { assert (m - {t})[u] == m[u] && (m' - {t})[u] == m'[u]; }
  }

  /** Steps that change neither entries nor handles. */
  lemma QuietOk(s: State, s': State, t: int, pc: Pc)
    requires Inv(s) && IsThread(s, t)
    requires s' == Go(s.(readers := s'.readers, writer := s'.writer), t, pc) && ThreadOk(s', t)
    requires s'.readers - {t} == s.readers - {t} && (s'.writer != NONE ==> s'.readers == {})
    requires s'.writer == s.writer || ((s.writer == NONE || s.writer == t) && (s'.writer == NONE || s'.writer == t))
    ensures Inv(s')
  {
    OthersOk(s, s', t, pc);
    forall u | u in s'.readers ensures IsThread(s', u) { assert u == t || u in s'.readers - {t}; }
    forall f ensures PinsOk(s', f) { assert PinsOk(s, f); }
  }

  lemma AddPinOk(s: State, t: int, f: File)
    requires Inv(s) && IsThread(s, t) && s.threads[t] == AddPin(f)
    ensures f in s.stats && Inv(DoAddPin(s, t, f))
  {
    assert ThreadOk(s, t);
    var s' := DoAddPin(s, t, f);
    OthersOk(s, s', t, HitUnlock(f));
    assert s'.stats.Keys == s.stats.Keys;
    forall g ensures PinsOk(s', g) { assert PinsOk(s, g); }
  }

  /** Only an entry without pins is evicted, and then no handle to it is out. */
  lemma EvictOk(s: State, t: int, f: File, victim: File)
    requires Inv(s) && IsThread(s, t) && s.threads[t] == Evict(f) && victim in s.stats && s.stats[victim] == 0
    ensures HandlesOf(s, victim) == 0 && Unpinners(s.unpinning, victim) == {}
    ensures Inv(DoEvict(s, t, victim))
  {
    assert ThreadOk(s, t);
    assert PinsOk(s, victim);
    var s' := DoEvict(s, t, victim);
    assert s'.threads == s.threads[t := Evict(f)];
    OthersOk(s, s', t, Evict(f));
    TotalRemove(s.sizes, s.stats.Keys, victim);
    assert s'.stats.Keys == s.stats.Keys - {victim};
    forall g ensures PinsOk(s', g) { assert PinsOk(s, g); }
  }

  lemma OneMore(s: State, f: File)
    requires f !in s.stats
    ensures Total(s.sizes, s.stats[f := 1].Keys) == Total(s.sizes, s.stats.Keys) + SizeOf(s.sizes, f)
  {
    TotalRemove(s.sizes, s.stats[f := 1].Keys, f);
    assert s.stats[f := 1].Keys - {f} == s.stats.Keys;
  }

  lemma InsertOk(s: State, t: int, f: File)
    requires Inv(s) && IsThread(s, t) && s.threads[t] == Insert(f)
    ensures Inv(DoInsert(s, t, f))
  {
    assert ThreadOk(s, t);
    var s' := DoInsert(s, t, f);
    if Room(s, f) && f !in s.stats {
      OthersOk(s, s', t, s'.threads[t]);
      OneMore(s, f);
      forall g ensures PinsOk(s', g) { assert PinsOk(s, g); }
    } else {
      QuietOk(s, s', t, s'.threads[t]);
    }
  }

  lemma BeginUnpinOk(s: State, t: int, f: File)
    requires Inv(s) && IsThread(s, t) && s.threads[t].Idle? && HandlesOf(s, f) > 0
    ensures Inv(DoBeginUnpin(s, t, f))
  {
    assert ThreadOk(s, t);
    var s' := DoBeginUnpin(s, t, f);
    assert s'.unpinning - {t} == s.unpinning - {t};
    OthersOk(s, s', t, UnpinLock(f));
    forall g ensures PinsOk(s', g) {
      assert PinsOk(s, g);
      UnpinnersAdd(s.unpinning, t, f, g);
    }
  }

  /** The thread that gives back a handle finds its entry, and finds it pinned. */
  lemma UnpinnerIsPinned(s: State, t: int)
    requires Inv(s) && IsThread(s, t) && Unpinning(s.threads[t])
    ensures s.threads[t].file in s.stats && s.stats[s.threads[t].file] > 0
  {
    var f := s.threads[t].file;
    assert ThreadOk(s, t) && PinsOk(s, f);
    assert t in Unpinners(s.unpinning, f);
  }

  lemma UnpinSubOk(s: State, t: int, f: File)
    requires Inv(s) && IsThread(s, t) && s.threads[t] == UnpinSub(f)
    ensures f in s.stats && Inv(DoUnpinSub(s, t, f))
  {
    assert ThreadOk(s, t);
    var s' := DoUnpinSub(s, t, f);
    OthersOk(s, s', t, UnpinUnlock(f));
    assert s'.stats.Keys == s.stats.Keys;
    forall g ensures PinsOk(s', g) {
      assert PinsOk(s, g);
      UnpinnersRemove(s.unpinning, t, f, g);
    }
  }

  /** Steps that take or release the lock. */
  lemma LockingOk(s: State, s': State, t: int, c: Choice)
    requires Inv(s) && StepBy(s, s', t, c)
    requires var pc := s.threads[t];
      || pc.PinLock? || pc.HitUnlock? || pc.MissUnlock? || pc.InsertLock? || pc.InsertUnlock?
      || pc.UnpinLock? || pc.UnpinUnlock?
    ensures Inv(s')
  {
    assert ThreadOk(s, t);
    QuietOk(s, s', t, s'.threads[t]);
  }

  /** Steps that only move a thread. */
  lemma MovingOk(s: State, s': State, t: int, c: Choice)
    requires Inv(s) && StepBy(s, s', t, c)
    requires var pc := s.threads[t];
      || pc.Find? || pc.Load? || pc.Return? || pc.UnpinFind? || pc.UnpinTest? || (pc.Idle? && !c.unpin)
    ensures Inv(s')
  {
    assert ThreadOk(s, t);
    if Unpinning(s.threads[t]) { UnpinnerIsPinned(s, t); }
    QuietOk(s, s', t, s'.threads[t]);
  }

  lemma EvictStepOk(s: State, s': State, t: int, c: Choice)
    requires Inv(s) && StepBy(s, s', t, c) && s.threads[t].Evict?
    ensures Inv(s')
  {
    assert ThreadOk(s, t);
    var f := s.threads[t].file;
    if !Room(s, f) && exists g :: g in s.stats && s.stats[g] == 0 {
      EvictOk(s, t, f, c.file);
    } else {
      QuietOk(s, s', t, Insert(f));
    }
  }

  lemma StepKeepsInv(s: State, s': State, t: int, c: Choice)
    requires Inv(s) && StepBy(s, s', t, c)
    ensures Inv(s')
  {
    match s.threads[t]
    case Idle => if c.unpin { BeginUnpinOk(s, t, c.file); } else { MovingOk(s, s', t, c); }
    case AddPin(f) => AddPinOk(s, t, f);
    case Evict(f) => EvictStepOk(s, s', t, c);
    case Insert(f) => InsertOk(s, t, f);
    case UnpinSub(f) => UnpinSubOk(s, t, f);
    case Find(_) | Load(_) | UnpinFind(_) | UnpinTest(_) | Return(_, _) => MovingOk(s, s', t, c);
    case _ => LockingOk(s, s', t, c);
  }

  lemma InitInv(s: State)
    requires Init(s)
    ensures Inv(s)
  {
    forall f ensures PinsOk(s, f) { assert Unpinners(s.unpinning, f) == {}; }
  }

  lemma {:induction false} RunKeepsInv(run: seq<State>, i: nat)
    requires IsRun(run) && i < |run|
    ensures Inv(run[i])
  {
    if i == 0 {
      InitInv(run[0]);
    } else {
      RunKeepsInv(run, i - 1);
      assert NextAt(run, i - 1);
      var t, c :| StepBy(run[i - 1], run[i], t, c);
      StepKeepsInv(run[i - 1], run[i], t, c);
    }
  }

  // ----- what every run keeps -----

  /** `bytes_used_` is the sum of the sizes of the cached files, and within the
      limit, at every moment. */
  lemma BytesAreAccounted(run: seq<State>, i: nat)
    requires IsRun(run) && i < |run|
    ensures run[i].bytesUsed == Total(run[i].sizes, run[i].stats.Keys) <= run[i].maxSize
  {
    RunKeepsInv(run, i);
  }

  /** The pin count of an entry is the number of handles to it that are out or on
      their way back; as long as there is one, the entry is in the cache. */
  lemma PinsAreCounted(run: seq<State>, i: nat, f: File)
    requires IsRun(run) && i < |run|
    ensures f in run[i].stats ==> run[i].stats[f] == HandlesOf(run[i], f) + |Unpinners(run[i].unpinning, f)|
    ensures HandlesOf(run[i], f) > 0 ==> f in run[i].stats && run[i].stats[f] > 0
  {
    RunKeepsInv(run, i);
    assert PinsOk(run[i], f);
  }

  /** Only the eviction loop removes entries. */
  lemma OnlyEvictionRemoves(s: State, s': State, t: int, c: Choice, f: File)
    requires Inv(s) && StepBy(s, s', t, c) && f in s.stats && f !in s'.stats
    ensures s.threads[t].Evict? && !Room(s, s.threads[t].file) && f == c.file && s.stats[f] == 0
  {
    assert ThreadOk(s, t);
    if Unpinning(s.threads[t]) { UnpinnerIsPinned(s, t); }
  }

  /** An entry that leaves the cache has no pins and no handle in use, and makes way
      for a file that does not fit. */
  lemma PinnedIsNeverEvicted(run: seq<State>, i: nat, f: File)
    requires IsRun(run) && i + 1 < |run| && f in run[i].stats && f !in run[i + 1].stats
    ensures run[i].stats[f] == 0 && HandlesOf(run[i], f) == 0 && Unpinners(run[i].unpinning, f) == {}
    ensures exists t :: IsThread(run[i], t) && run[i].threads[t].Evict? && !Room(run[i], run[i].threads[t].file)
  {
    RunKeepsInv(run, i);
    assert NextAt(run, i);
    var t, c :| StepBy(run[i], run[i + 1], t, c);
    OnlyEvictionRemoves(run[i], run[i + 1], t, c, f);
    EvictOk(run[i], t, run[i].threads[t].file, f);
  }

  /** unpin always finds its entry pinned: the fatal branch is dead. */
  lemma UnpinNeverFails(run: seq<State>, i: nat, t: int)
    requires IsRun(run) && i < |run| && IsThread(run[i], t)
    ensures !run[i].threads[t].Fatal?
    ensures Unpinning(run[i].threads[t]) ==>
      run[i].threads[t].file in run[i].stats && run[i].stats[run[i].threads[t].file] > 0
  {
    RunKeepsInv(run, i);
    assert ThreadOk(run[i], t);
    if Unpinning(run[i].threads[t]) { UnpinnerIsPinned(run[i], t); }
  }

  /** While a thread evicts, no other thread changes an entry or the byte count. */
  lemma EvictionIsAlone(s: State, s': State, t: int, u: int, c: Choice)
    requires Inv(s) && IsThread(s, t) && Writing(s.threads[t]) && u != t && StepBy(s, s', u, c)
    ensures s'.stats == s.stats && s'.bytesUsed == s.bytesUsed && IsThread(s', t) && s'.threads[t] == s.threads[t]
    ensures s'.sizes == s.sizes && s'.maxSize == s.maxSize
  {
    assert ThreadOk(s, t) && ThreadOk(s, u);
  }

  /** The eviction loop terminates: each of its rounds removes an entry, and no
      other thread changes the entries before it is done. */
  lemma EvictionTerminates(run: seq<State>, i: nat, t: int, u: int, c: Choice)
    requires IsRun(run) && i + 1 < |run| && IsThread(run[i], t) && run[i].threads[t].Evict?
    requires StepBy(run[i], run[i + 1], u, c)
    ensures IsThread(run[i + 1], t)
    ensures u != t ==> run[i + 1].stats == run[i].stats && run[i + 1].threads[t] == run[i].threads[t]
    ensures u == t ==> run[i + 1].threads[t].Insert? || |run[i + 1].stats| < |run[i].stats|
  {
    RunKeepsInv(run, i);
    if u != t {
      EvictionIsAlone(run[i], run[i + 1], t, u, c);
    } else if c.file in run[i].stats {
      FewerEntries(run[i].stats, c.file);
    }
  }

  lemma FewerEntries(stats: map<File, int>, f: File)
    requires f in stats
    ensures |stats - {f}| < |stats|
  {
    assert stats.Keys == (stats - {f}).Keys + {f};
  }

  predicate AllPinned(stats: map<File, int>) {
    forall g :: g in stats ==> stats[g] > 0
  }

  /** A pin for want of space fails only when every entry that is left is pinned,
      and even then the file would not fit. */
  lemma FailsOnlyWhenPinnedFull(run: seq<State>, i: nat, t: int, c: Choice)
    requires IsRun(run) && i + 1 < |run| && StepBy(run[i], run[i + 1], t, c) && run[i].threads[t].Evict?
    requires run[i + 1].threads[t].Insert? && !Room(run[i + 1], run[i].threads[t].file)
    ensures run[i + 1].stats == run[i].stats && AllPinned(run[i].stats)
  {
    RunKeepsInv(run, i);
    forall g | g in run[i].stats ensures run[i].stats[g] > 0 { assert PinsOk(run[i], g); }
  }

  // ----- how a call of pin ends -----

  predicate Looking(pc: Pc) {
    pc.PinLock? || pc.Find?
  }

  /** Past the lookup, with an entry or without one. */
  predicate Hit(pc: Pc) {
    pc.AddPin?
  }

  predicate Missing(pc: Pc) {
    pc.MissUnlock? || pc.Load? || pc.InsertLock? || pc.Evict? || pc.Insert?
  }

  predicate Decided(pc: Pc) {
    pc.HitUnlock? || pc.InsertUnlock? || pc.Return?
  }

  predicate Pinning(pc: Pc) {
    Looking(pc) || Hit(pc) || Missing(pc) || Decided(pc)
  }

  function OutcomeOf(pc: Pc): Outcome
    requires Decided(pc)
  {
    if pc.HitUnlock? then Pinned else pc.outcome
  }

  /** Thread `t` is in pin for file `f`. */
  predicate Pins(s: State, t: int, f: File) {
    IsThread(s, t) && Pinning(s.threads[t]) && s.threads[t].file == f
  }

  /** From `s` to `s'` thread `t` begins a call, and it can only be one of pin for `f`. */
  ghost predicate Begins(s: State, s': State, t: int, f: File) {
    && IsThread(s, t) && s.threads[t].Idle? && (exists c :: StepBy(s, s', t, c))
    && (forall c :: StepBy(s, s', t, c) ==> !c.unpin && c.file == f)
  }

  /** From `s` to `s'` thread `t` looks `f` up. */
  predicate LooksUp(s: State, s': State, t: int, f: File) {
    && IsThread(s, t) && s.threads[t] == Find(f) && IsThread(s', t)
    && (if f in s.stats then Hit(s'.threads[t]) else Missing(s'.threads[t]))
  }

  /** `s'` has one more pin of `f` and one more handle to it than `s`. */
  predicate OneMorePin(s: State, s': State, f: File) {
    && s'.stats == s.stats[f := (if f in s.stats then s.stats[f] else 0) + 1]
    && s'.handles == s.handles[f := HandlesOf(s, f) + 1]
  }

  /** From `s` to `s'` thread `t` reaches this outcome for `f`, for a reason. */
  ghost predicate Decides(s: State, s': State, t: int, f: File, outcome: Outcome) {
    && IsThread(s, t) && (Hit(s.threads[t]) || Missing(s.threads[t]))
    && match outcome
       case Pinned => (f in s.stats <==> Hit(s.threads[t])) && (f !in s.stats ==> Room(s, f)) && OneMorePin(s, s', f)
       case NoFile => s.threads[t].Load? && forall c :: StepBy(s, s', t, c) ==> !c.loads
       case Taken => s.threads[t].Insert? && f in s.stats
       case NoRoom => s.threads[t].Insert? && !Room(s, f) && AllPinned(s.stats)
  }

  /** A thread that is about to insert has room, or all the entries are pinned. */
  predicate Ready(s: State, t: int) {
    IsThread(s, t) && s.threads[t].Insert? ==> Room(s, s.threads[t].file) || AllPinned(s.stats)
  }

  /** What a step can do to a thread in pin. */
  ghost predicate Sees(s: State, s': State, t: int) {
    && IsThread(s, t) && IsThread(s', t)
    && var pc, pc' := s.threads[t], s'.threads[t];
    && (Pinning(pc') ==> if Pinning(pc) then pc.file == pc'.file else Looking(pc') && Begins(s, s', t, pc'.file))
    && (Looking(pc') && Pinning(pc) ==> Looking(pc))
    && (Hit(pc') ==> Hit(pc) || LooksUp(s, s', t, pc'.file))
    && (Missing(pc') ==> Missing(pc) || (LooksUp(s, s', t, pc'.file) && pc'.MissUnlock?))
    && (Decided(pc') ==>
          Pinning(pc)
          && if Decided(pc) then OutcomeOf(pc) == OutcomeOf(pc') else Decides(s, s', t, pc.file, OutcomeOf(pc')))
  }

  /** A step moves one thread. */
  predicate OneMoves(s: State, s': State, u: int) {
    IsThread(s, u) && |s'.threads| == |s.threads| && s'.threads == s.threads[u := s'.threads[u]]
  }

  lemma PinMovesOne(s: State, s': State, u: int, c: Choice)
    requires IsThread(s, u) && ThreadOk(s, u) && StepBy(s, s', u, c) && Pinning(s.threads[u])
    ensures OneMoves(s, s', u)
  {
  }

  lemma UnpinMovesOne(s: State, s': State, u: int, c: Choice)
    requires IsThread(s, u) && ThreadOk(s, u) && StepBy(s, s', u, c) && !Pinning(s.threads[u])
    ensures OneMoves(s, s', u)
  {
  }

  lemma StepMovesOne(s: State, s': State, u: int, c: Choice)
    requires Inv(s) && StepBy(s, s', u, c)
    ensures OneMoves(s, s', u)
  {
    assert ThreadOk(s, u);
    if Pinning(s.threads[u]) { PinMovesOne(s, s', u, c); } else { UnpinMovesOne(s, s', u, c); }
  }

  lemma BeginStep(s: State, s': State, t: int, c: Choice)
    requires StepBy(s, s', t, c) && s.threads[t].Idle?
    ensures IsThread(s', t) && s'.threads[t] == if c.unpin then UnpinLock(c.file) else PinLock(c.file)
  {
  }

  lemma IdleSees(s: State, s': State, t: int, c: Choice)
    requires StepBy(s, s', t, c) && s.threads[t].Idle?
    ensures Sees(s, s', t)
  {
    BeginStep(s, s', t, c);
    forall c' | StepBy(s, s', t, c')
      ensures s'.threads[t] == if c'.unpin then UnpinLock(c'.file) else PinLock(c'.file)
    {
      BeginStep(s, s', t, c');
    }
  }

  lemma LookingSees(s: State, s': State, t: int, c: Choice)
    requires IsThread(s, t) && ThreadOk(s, t) && StepBy(s, s', t, c)
    requires Looking(s.threads[t]) || Hit(s.threads[t]) || Decided(s.threads[t])
    ensures Sees(s, s', t)
  {
  }

  lemma LoadSees(s: State, s': State, t: int, c: Choice)
    requires StepBy(s, s', t, c) && s.threads[t].Load?
    ensures Sees(s, s', t)
  {
  }

  lemma MissingSees(s: State, s': State, t: int, c: Choice)
    requires IsThread(s, t) && ThreadOk(s, t) && StepBy(s, s', t, c)
    requires Missing(s.threads[t]) && !s.threads[t].Load? && Ready(s, t)
    ensures Sees(s, s', t)
  {
  }

  lemma UnpinSees(s: State, s': State, t: int, c: Choice)
    requires IsThread(s, t) && ThreadOk(s, t) && StepBy(s, s', t, c) && !Pinning(s.threads[t]) && !s.threads[t].Idle?
    ensures Sees(s, s', t)
  {
  }

  lemma StepSees(s: State, s': State, t: int, c: Choice)
    requires IsThread(s, t) && ThreadOk(s, t) && StepBy(s, s', t, c) && Ready(s, t)
    ensures Sees(s, s', t)
  {
    var pc := s.threads[t];
    if pc.Idle? {
      IdleSees(s, s', t, c);
    } else if pc.Load? {
      LoadSees(s, s', t, c);
    } else if Missing(pc) {
      MissingSees(s, s', t, c);
    } else if Pinning(pc) {
      LookingSees(s, s', t, c);
    } else {
      UnpinSees(s, s', t, c);
    }
  }

  lemma EvictReadies(s: State, s': State, t: int, c: Choice)
    requires Inv(s) && StepBy(s, s', t, c) && s.threads[t].Evict?
    ensures Ready(s', t)
  {
    forall g | g in s.stats ensures s.stats[g] >= 0 { assert PinsOk(s, g); }
  }

  lemma OnlyEvictInserts(s: State, s': State, t: int, c: Choice)
    requires StepBy(s, s', t, c) && IsThread(s', t) && s'.threads[t].Insert? && Missing(s.threads[t])
    ensures s.threads[t].Evict?
  {
  }

  lemma ReadyStep(s: State, s': State, t: int, u: int, c: Choice)
    requires Inv(s) && Ready(s, t) && StepBy(s, s', u, c) && OneMoves(s, s', u) && IsThread(s, t)
    ensures Ready(s', t)
  {
    assert ThreadOk(s, t);
    if s'.threads[t].Insert? {
      if u != t {
        EvictionIsAlone(s, s', t, u, c);
      } else {
        StepSees(s, s', t, c);
        OnlyEvictInserts(s, s', t, c);
        EvictReadies(s, s', t, c);
      }
    }
  }

  /** The eviction loop leaves room, or entries that are all pinned, and that stays
      so until the insertion. */
  lemma {:induction false} InsertIsReady(run: seq<State>, i: nat, t: int)
    requires IsRun(run) && i < |run|
    ensures Ready(run[i], t) && |run[i].threads| == |run[0].threads|
  {
    if i > 0 {
      InsertIsReady(run, i - 1, t);
      RunKeepsInv(run, i - 1);
      assert NextAt(run, i - 1);
      var u, c :| StepBy(run[i - 1], run[i], u, c);
      StepMovesOne(run[i - 1], run[i], u, c);
      if IsThread(run[i], t) { ReadyStep(run[i - 1], run[i], t, u, c); }
    }
  }

  lemma SeesAt(run: seq<State>, i: nat, t: int)
    requires IsRun(run) && 0 < i < |run| && IsThread(run[i], t)
    ensures Sees(run[i - 1], run[i], t)
  {
    RunKeepsInv(run, i - 1);
    InsertIsReady(run, i - 1, t);
    InsertIsReady(run, i, t);
    assert NextAt(run, i - 1);
    var u, c :| StepBy(run[i - 1], run[i], u, c);
    assert ThreadOk(run[i - 1], u);
    if u == t { StepSees(run[i - 1], run[i], t, c); } else { StepMovesOne(run[i - 1], run[i], u, c); }
  }

  lemma {:induction false} CallBegan(run: seq<State>, i: nat, t: int, f: File) returns (a: nat)
    requires IsRun(run) && i < |run| && Pins(run[i], t, f)
    ensures a < i && Begins(run[a], run[a + 1], t, f) && forall k :: a < k <= i ==> Pins(run[k], t, f)
    ensures Looking(run[i].threads[t]) ==> forall k :: a < k <= i ==> Pins(run[k], t, f) && Looking(run[k].threads[t])
  {
    assert i > 0;
    SeesAt(run, i, t);
    a := i - 1;
    if Pinning(run[i - 1].threads[t]) { a := CallBegan(run, i - 1, t, f); }
  }

  lemma {:induction false} LookedUp(run: seq<State>, i: nat, t: int, f: File) returns (l: nat)
    requires IsRun(run) && i < |run| && Pins(run[i], t, f) && (Hit(run[i].threads[t]) || Missing(run[i].threads[t]))
    ensures l < i && LooksUp(run[l], run[l + 1], t, f) && (Hit(run[i].threads[t]) <==> f in run[l].stats)
    ensures forall k :: l < k <= i ==> Pins(run[k], t, f) && !Decided(run[k].threads[t])
  {
    assert i > 0;
    SeesAt(run, i, t);
    l := i - 1;
    if !LooksUp(run[i - 1], run[i], t, f) { l := LookedUp(run, i - 1, t, f); }
  }

  lemma {:induction false} WasDecided(run: seq<State>, i: nat, t: int, f: File) returns (j: nat)
    requires IsRun(run) && i < |run| && Pins(run[i], t, f) && Decided(run[i].threads[t])
    ensures j < i && Pins(run[j], t, f) && Decides(run[j], run[j + 1], t, f, OutcomeOf(run[i].threads[t]))
    ensures forall k :: j < k <= i ==> Pins(run[k], t, f) && Decided(run[k].threads[t])
  {
    assert i > 0;
    SeesAt(run, i, t);
    j := i - 1;
    if Decided(run[i - 1].threads[t]) { j := WasDecided(run, i - 1, t, f); }
  }

  /** No step of `t` from `s` to `s'` changes the handles. */
  ghost predicate KeepsHandles(s: State, s': State, t: int) {
    forall c :: StepBy(s, s', t, c) ==> s'.handles == s.handles
  }

  /** Steps of pin other than the one that decides leave the handles alone. */
  lemma OnlyDecisionPins(s: State, s': State, t: int)
    requires IsThread(s, t) && ThreadOk(s, t) && Pinning(s.threads[t]) && IsThread(s', t)
    requires Decided(s.threads[t]) || !Decided(s'.threads[t])
    ensures KeepsHandles(s, s', t)
  {
  }

  /** What a call of pin returns.  It was called, in step `a`, with the file that it
      works on; it looked the file up in step `l`, and decided in step `j`.  A file
      that was there is pinned.  The call ends with one more handle, or without one
      because the file did not load, had been put in the cache by the time of the
      insertion, or would not fit with all the entries left pinned. */
  lemma PinOutcome(run: seq<State>, i: nat, t: int) returns (a: nat, l: nat, j: nat)
    requires IsRun(run) && i < |run| && IsThread(run[i], t) && run[i].threads[t].Return?
    ensures
      var f := run[i].threads[t].file;
      && a < l < j < i && Begins(run[a], run[a + 1], t, f) && LooksUp(run[l], run[l + 1], t, f)
      && Decides(run[j], run[j + 1], t, f, run[i].threads[t].outcome)
      && (f in run[l].stats <==> Hit(run[j].threads[t]))
      && (f in run[l].stats ==> run[i].threads[t].outcome == Pinned)
      && (forall k :: a < k <= i ==> Pins(run[k], t, f))
      && (forall k {:trigger run[k]} :: a < k < i && k != j ==> KeepsHandles(run[k], run[k + 1], t))
  {
    var f := run[i].threads[t].file;
    j := WasDecided(run, i, t, f);
    l := LookedUp(run, j, t, f);
    a := CallBegan(run, l, t, f);
    forall k | a < k < i && k != j ensures KeepsHandles(run[k], run[k + 1], t) {
      RunKeepsInv(run, k);
      assert Pins(run[k], t, f) && Pins(run[k + 1], t, f);
      assert ThreadOk(run[k], t);
      OnlyDecisionPins(run[k], run[k + 1], t);
    }
  }

  // ----- every call ends -----

  /** A step that does not begin a call. */
  ghost predicate Moves(s: State, s': State, t: int, c: Choice) {
    StepBy(s, s', t, c) && !s.threads[t].Idle?
  }

  /** The steps that are left to a thread, not counting evictions; an insertion brings
      one eviction with it. */
  function ThreadWork(pc: Pc): nat {
    match pc
    case Idle => 0
    case PinLock(_) => 10
    case Find(_) => 9
    case AddPin(_) => 3
    case HitUnlock(_) => 2
    case MissUnlock(_) => 8
    case Load(_) => 7
    case InsertLock(_) => 6
    case Evict(_) => 5
    case Insert(_) => 4
    case InsertUnlock(_, _) => 2
    case Return(_, _) => 1
    case UnpinLock(_) => 5
    case UnpinFind(_) => 4
    case UnpinTest(_) => 3
    case UnpinSub(_) => 2
    case UnpinUnlock(_) => 1
    case Fatal => 0
  }

  function ThreadsWork(threads: seq<Pc>): nat {
    if threads == [] then 0 else ThreadWork(threads[0]) + ThreadsWork(threads[1..])
  }

  /** A bound on the steps to come without new calls. */
  function Work(s: State): nat {
    ThreadsWork(s.threads) + |s.stats|
  }

  lemma {:induction false} ThreadsWorkAt(threads: seq<Pc>, t: nat, pc: Pc)
    requires t < |threads|
    ensures ThreadsWork(threads[t := pc]) + ThreadWork(threads[t]) == ThreadsWork(threads) + ThreadWork(pc)
  {
    if t > 0 {
      ThreadsWorkAt(threads[1..], t - 1, pc);
      assert threads[t := pc][1..] == threads[1..][t - 1 := pc];
    }
  }

  lemma OneMoreEntry(stats: map<File, int>, f: File, n: int)
    ensures |stats[f := n]| == |stats| + if f in stats then 0 else 1
  {
    if f in stats {
      assert stats[f := n].Keys == stats.Keys;
    } else {
      assert stats[f := n].Keys == stats.Keys + {f};
    }
  }

  /** Each step of a thread does some of its work, or evicts an entry. */
  predicate Works(s: State, s': State, t: int) {
    && OneMoves(s, s', t)
    && ThreadWork(s'.threads[t]) + |s'.stats| < ThreadWork(s.threads[t]) + |s.stats|
  }

  predicate ChangesEntries(pc: Pc) {
    pc.AddPin? || pc.Insert? || pc.Evict? || pc.UnpinSub?
  }

  lemma CountWorks(s: State, s': State, t: int, c: Choice)
    requires IsThread(s, t) && ThreadOk(s, t) && StepBy(s, s', t, c) && OneMoves(s, s', t)
    requires s.threads[t].AddPin? || s.threads[t].UnpinSub?
    ensures Works(s, s', t)
  {
    var f := s.threads[t].file;
    OneMoreEntry(s.stats, f, s'.stats[f]);
  }

  lemma InsertWorks(s: State, s': State, t: int, c: Choice)
    requires StepBy(s, s', t, c) && OneMoves(s, s', t) && s.threads[t].Insert?
    ensures Works(s, s', t)
  {
    OneMoreEntry(s.stats, s.threads[t].file, 1);
  }

  lemma EvictWorks(s: State, s': State, t: int, c: Choice)
    requires StepBy(s, s', t, c) && OneMoves(s, s', t) && s.threads[t].Evict?
    ensures Works(s, s', t)
  {
    if c.file in s.stats { FewerEntries(s.stats, c.file); }
  }

  lemma MissWorks(s: State, s': State, t: int, c: Choice)
    requires StepBy(s, s', t, c) && OneMoves(s, s', t) && Missing(s.threads[t]) && !ChangesEntries(s.threads[t])
    ensures Works(s, s', t)
  {
  }

  lemma PinWorks(s: State, s': State, t: int, c: Choice)
    requires StepBy(s, s', t, c) && OneMoves(s, s', t) && (Looking(s.threads[t]) || Decided(s.threads[t]))
    ensures Works(s, s', t)
  {
  }

  lemma UnpinWorks(s: State, s': State, t: int, c: Choice)
    requires IsThread(s, t) && ThreadOk(s, t) && Moves(s, s', t, c)
    requires !Pinning(s.threads[t]) && !ChangesEntries(s.threads[t])
    requires s.threads[t].UnpinTest? ==> s.stats[s.threads[t].file] != 0
    ensures Works(s, s', t)
  {
  }

  lemma MoveWorks(s: State, s': State, t: int, c: Choice)
    requires Inv(s) && Moves(s, s', t, c)
    ensures Works(s, s', t)
  {
    assert ThreadOk(s, t);
    StepMovesOne(s, s', t, c);
    if s.threads[t].AddPin? || s.threads[t].UnpinSub? {
      CountWorks(s, s', t, c);
    } else if s.threads[t].Insert? {
      InsertWorks(s, s', t, c);
    } else if s.threads[t].Evict? {
      EvictWorks(s, s', t, c);
    } else if Missing(s.threads[t]) {
      MissWorks(s, s', t, c);
    } else if Pinning(s.threads[t]) {
      PinWorks(s, s', t, c);
    } else {
      if Unpinning(s.threads[t]) { UnpinnerIsPinned(s, t); }
      UnpinWorks(s, s', t, c);
    }
  }

  ghost predicate MoveTo(s: State, s': State) {
    exists t, c :: Moves(s, s', t, c)
  }

  ghost predicate MovesAt(run: seq<State>, i: nat) {
    i + 1 < |run| && MoveTo(run[i], run[i + 1])
  }

  /** However the threads are scheduled: without new calls, a run ends after at most
      as many steps as there is work. */
  lemma {:induction false} WorkIsBounded(run: seq<State>, i: nat, j: nat)
    requires IsRun(run) && i <= j < |run| && forall k :: i <= k < j ==> MovesAt(run, k)
    ensures Work(run[j]) + (j - i) <= Work(run[i])
    decreases j
  {
    if i < j {
      WorkIsBounded(run, i, j - 1);
      RunKeepsInv(run, j - 1);
      assert MovesAt(run, j - 1);
      var t, c :| Moves(run[j - 1], run[j], t, c);
      MoveWorks(run[j - 1], run[j], t, c);
      ThreadsWorkAt(run[j - 1].threads, t, run[j].threads[t]);
    }
  }

  lemma NoneMeansEmpty(readers: set<int>)
    ensures (forall t :: t !in readers) ==> readers == {}
  {
    if forall t :: t !in readers { assert readers == {}; }
  }

  lemma AnyOf(readers: set<int>) returns (t: int)
    requires readers != {}
    ensures t in readers
  {
    NoneMeansEmpty(readers);
    t :| t in readers;
  }

  predicate AllIdle(s: State) {
    forall t :: 0 <= t < |s.threads| ==> s.threads[t].Idle?
  }

  /** And it cannot end before every call has returned: no thread waits for ever. */
  lemma IdleIffStuck(run: seq<State>, i: nat)
    requires IsRun(run) && i < |run|
    ensures AllIdle(run[i]) <==> !exists s', t, c :: Moves(run[i], s', t, c)
  {
    RunKeepsInv(run, i);
    var s := run[i];
    if !AllIdle(s) {
      var t :| 0 <= t < |s.threads| && !s.threads[t].Idle?;
      if s.writer != NONE {
        t := s.writer;
      } else if s.readers != {} {
        t := AnyOf(s.readers);
      }
      assert ThreadOk(s, t);
      var s', c := Unblocked(s, t);
      assert Moves(s, s', t, c);
    }
  }

  /** A holder of the lock can go on, and any thread if the lock is free. */
  lemma Unblocked(s: State, t: int) returns (s': State, c: Choice)
    requires Inv(s) && IsThread(s, t) && !s.threads[t].Idle?
    requires s.writer == t || t in s.readers || Free(s)
    ensures Moves(s, s', t, c)
  {
    assert ThreadOk(s, t);
    if s.threads[t].Evict? {
      s', c := EvictMoves(s, t);
    } else if Pinning(s.threads[t]) {
      s', c := PinMoves(s, t);
    } else {
      s', c := UnpinMoves(s, t);
    }
  }

  lemma EvictMoves(s: State, t: int) returns (s': State, c: Choice)
    requires IsThread(s, t) && s.threads[t].Evict?
    ensures Moves(s, s', t, c)
  {
    c := Choice(false, s.threads[t].file, true);
    if !Room(s, s.threads[t].file) && exists g :: g in s.stats && s.stats[g] == 0 {
      var g :| g in s.stats && s.stats[g] == 0;
      c := c.(file := g);
      s' := DoEvict(s, t, g);
    } else {
      s' := Go(s, t, Insert(s.threads[t].file));
    }
  }

  lemma PinMoves(s: State, t: int) returns (s': State, c: Choice)
    requires Inv(s) && IsThread(s, t) && Pinning(s.threads[t]) && !s.threads[t].Evict?
    requires s.writer == t || t in s.readers || Free(s)
    ensures Moves(s, s', t, c)
  {
    assert ThreadOk(s, t);
    c := Choice(false, s.threads[t].file, true);
    match s.threads[t]
    case PinLock(f) => s' := Go(s.(readers := s.readers + {t}), t, Find(f));
    case Find(f) => s' := Go(s, t, if f in s.stats then AddPin(f) else MissUnlock(f));
    case AddPin(f) => s' := DoAddPin(s, t, f);
    case HitUnlock(f) => s' := Go(s.(readers := s.readers - {t}), t, Return(f, Pinned));
    case MissUnlock(f) => s' := Go(s.(readers := s.readers - {t}), t, Load(f));
    case Load(f) => s' := Go(s, t, InsertLock(f));
    case InsertLock(f) => s' := Go(s.(writer := t), t, Evict(f));
    case Insert(f) => s' := DoInsert(s, t, f);
    case InsertUnlock(f, outcome) => s' := Go(s.(writer := NONE), t, Return(f, outcome));
    case Return(_, _) => s' := Go(s, t, Idle);
  }

  lemma UnpinMoves(s: State, t: int) returns (s': State, c: Choice)
    requires Inv(s) && IsThread(s, t) && !Pinning(s.threads[t]) && !s.threads[t].Idle?
    requires s.writer == t || t in s.readers || Free(s)
    ensures Moves(s, s', t, c)
  {
    assert ThreadOk(s, t);
    if Unpinning(s.threads[t]) { UnpinnerIsPinned(s, t); }
    c := Choice(false, s.threads[t].file, true);
    match s.threads[t]
    case UnpinLock(f) => s' := Go(s.(readers := s.readers + {t}), t, UnpinFind(f));
    case UnpinFind(f) => s' := Go(s, t, UnpinTest(f));
    case UnpinTest(f) => s' := Go(s, t, UnpinSub(f));
    case UnpinSub(f) => s' := DoUnpinSub(s, t, f);
    case UnpinUnlock(_) => s' := Go(s.(readers := s.readers - {t}), t, Idle);
  }
}
