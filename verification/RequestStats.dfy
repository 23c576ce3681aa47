/**
 The sliding-window request counter of request_stats.cpp, over exact arithmetic.

 Each thread has 20 slots, each for a twentieth of a second modulo a second.  A
 slot keeps a count and the time of the first request it counts.  `log` is the
 history of all recorded requests.
 */
module RequestStats {
  const SLOTS: int := 20

  datatype Event = Event(thread: int, time: real)

  /** `ticks` per second; `born[i][j]` is when slot `j` of thread `i` was made. */
  datatype Setup = Setup(threads: nat, ticks: real, born: seq<seq<real>>)

  datatype Slot = Slot(count: int, lastUpdate: real)

  predicate IsSetup(c: Setup) {
    c.ticks > 0.0 && |c.born| == c.threads && forall i :: 0 <= i < c.threads ==> |c.born[i]| == SLOTS
  }

  function Born(c: Setup, i: int, j: int): real {
    if 0 <= i < |c.born| && 0 <= j < |c.born[i]| then c.born[i][j] else 0.0
  }

  // ----- twentieths of a second -----

  function Epoch(c: Setup, time: real): int
    requires c.ticks > 0.0
  {
    (time * 20.0 / c.ticks).Floor
  }

  function SlotIndex(c: Setup, time: real): (j: int)
    requires c.ticks > 0.0
    ensures 0 <= j < SLOTS
  {
    Epoch(c, time) % SLOTS
  }

  lemma EpochBounds(c: Setup, time: real)
    requires c.ticks > 0.0
    ensures Epoch(c, time) as real * c.ticks <= time * 20.0
    ensures time * 20.0 - c.ticks < Epoch(c, time) as real * c.ticks
  {
    DivideTimes(time * 20.0, c.ticks);
    TimesBetween(Epoch(c, time) as real, time * 20.0 / c.ticks, c.ticks, time * 20.0);
  }

  lemma DivideTimes(x: real, z: real)
    requires z > 0.0
    ensures x / z * z == x
  {
  }

  lemma TimesMonotone(x: real, y: real, z: real)
    requires x <= y && z > 0.0
    ensures x * z <= y * z && (x < y ==> x * z < y * z)
  {
  }

  lemma TimesBetween(e: real, q: real, z: real, x: real)
    requires e <= q < e + 1.0 && z > 0.0 && q * z == x
    ensures e * z <= x && x - z < e * z
  {
    var d := q - e;
    TimesMonotone(0.0, d, z);
    TimesMonotone(d, 1.0, z);
    var ez, dz := e * z, d * z;
    assert dz < z;
    assert q * z == ez + dz;
    assert x - z < ez;
  }

  /** Times in one twentieth are less than a twentieth of a second apart. */
  lemma SameEpoch(c: Setup, s: real, t: real)
    requires c.ticks > 0.0 && Epoch(c, s) == Epoch(c, t)
    ensures (t - s) * 20.0 < c.ticks
  {
    EpochBounds(c, s);
    EpochBounds(c, t);
  }

  lemma Distribute(x: real, y: real, z: real)
    ensures (y - x) * z == y * z - x * z
  {
  }

  lemma Apart(s: real, t: real, x: real, y: real, z: real)
    requires x + 20.0 <= y && z > 0.0 && s - z < x * z && y * z <= t
    ensures t - s > 19.0 * z
  {
    TimesMonotone(20.0, y - x, z);
    Distribute(x, y, z);
    var xz, yz, dz := x * z, y * z, (y - x) * z;
    assert 20.0 * z <= dz == yz - xz;
    assert t - s > dz - z;
  }

  /** Times in different twentieths that share a slot are far apart. */
  lemma OtherEpoch(c: Setup, s: real, t: real)
    requires c.ticks > 0.0 && Epoch(c, s) < Epoch(c, t) && SlotIndex(c, s) == SlotIndex(c, t)
    ensures (t - s) * 20.0 > 19.0 * c.ticks
  {
    var a, b := Epoch(c, s), Epoch(c, t);
    assert a + 20 <= b;
    EpochBounds(c, s);
    EpochBounds(c, t);
    var x, y := a as real, b as real;
    Apart(s * 20.0, t * 20.0, x, y, c.ticks);
  }

  lemma EpochMonotone(c: Setup, s: real, t: real)
    requires c.ticks > 0.0 && s <= t
    ensures Epoch(c, s) <= Epoch(c, t)
  {
    var p, q := s * 20.0 / c.ticks, t * 20.0 / c.ticks;
    assert p * c.ticks == s * 20.0 <= t * 20.0 == q * c.ticks;
    if q < p { TimesMonotone(q, p, c.ticks); }
  }

  // ----- one slot -----

  predicate InSlot(c: Setup, e: Event, i: int, j: int) {
    c.ticks > 0.0 && e.thread == i && SlotIndex(c, e.time) == j
  }

  /** What finishedRequest does to the slot of its request. */
  function Update(c: Setup, slot: Slot, time: real): Slot {
    if (time - slot.lastUpdate) * 20.0 < c.ticks then slot.(count := slot.count + 1) else Slot(1, time)
  }

  function SlotAfter(c: Setup, log: seq<Event>, i: int, j: int): Slot {
    if log == [] then Slot(0, Born(c, i, j))
    else
      var slot := SlotAfter(c, log[..|log| - 1], i, j);
      var e := log[|log| - 1];
      if InSlot(c, e, i, j) then Update(c, slot, e.time) else slot
  }

  /** What getStats adds for a slot. */
  function Contribution(c: Setup, slot: Slot, now: real): int {
    if now - slot.lastUpdate < c.ticks then slot.count else 0
  }

  // ----- counting -----

  ghost function Count(log: seq<Event>, p: Event -> bool): nat {
    if log == [] then 0 else Count(log[..|log| - 1], p) + (if p(log[|log| - 1]) then 1 else 0)
  }

  lemma {:induction false} CountAtMost(log: seq<Event>, p: Event -> bool, q: Event -> bool)
    requires forall k :: 0 <= k < |log| && p(log[k]) ==> q(log[k])
    ensures Count(log, p) <= Count(log, q)
  {
    if log != [] { CountAtMost(log[..|log| - 1], p, q); }
  }

  lemma {:induction false} CountNone(log: seq<Event>, p: Event -> bool)
    requires forall k :: 0 <= k < |log| ==> !p(log[k])
    ensures Count(log, p) == 0
  {
    if log != [] { CountNone(log[..|log| - 1], p); }
  }

  lemma {:induction false} CountSome(log: seq<Event>, p: Event -> bool, k: nat)
    requires k < |log| && p(log[k])
    ensures Count(log, p) > 0
  {
    if k < |log| - 1 { CountSome(log[..|log| - 1], p, k); }
  }

  ghost function RowSum(f: (int, int) -> int, i: int, m: nat): int {
    if m == 0 then 0 else RowSum(f, i, m - 1) + f(i, m - 1)
  }

  ghost function GridSum(f: (int, int) -> int, n: nat): int {
    if n == 0 then 0 else GridSum(f, n - 1) + RowSum(f, n - 1, SLOTS)
  }

  lemma {:induction false} RowAtMost(f: (int, int) -> int, g: (int, int) -> int, i: int, m: nat)
    requires forall j :: 0 <= j < m ==> f(i, j) <= g(i, j)
    ensures RowSum(f, i, m) <= RowSum(g, i, m)
    ensures (exists j :: 0 <= j < m && f(i, j) < g(i, j)) ==> RowSum(f, i, m) < RowSum(g, i, m)
  {
    if m > 0 { RowAtMost(f, g, i, m - 1); }
  }

  lemma {:induction false} GridAtMost(f: (int, int) -> int, g: (int, int) -> int, n: nat)
    requires forall i, j :: 0 <= i < n && 0 <= j < SLOTS ==> f(i, j) <= g(i, j)
    ensures GridSum(f, n) <= GridSum(g, n)
    ensures (exists i, j :: 0 <= i < n && 0 <= j < SLOTS && f(i, j) < g(i, j)) ==> GridSum(f, n) < GridSum(g, n)
  {
    if n > 0 {
      GridAtMost(f, g, n - 1);
      RowAtMost(f, g, n - 1, SLOTS);
    }
  }

  /** `g` is `f` with one more at a single cell. */
  lemma {:induction false} RowOneMore(f: (int, int) -> int, g: (int, int) -> int, i: int, m: nat, a: int, b: int)
    requires forall j :: 0 <= j < m ==> g(i, j) == f(i, j) + if i == a && j == b then 1 else 0
    ensures RowSum(g, i, m) == RowSum(f, i, m) + if i == a && 0 <= b < m then 1 else 0
  {
    if m > 0 { RowOneMore(f, g, i, m - 1, a, b); }
  }

  lemma {:induction false} GridOneMore(f: (int, int) -> int, g: (int, int) -> int, n: nat, a: int, b: int)
    requires 0 <= b < SLOTS
    requires forall i, j :: 0 <= i < n && 0 <= j < SLOTS ==> g(i, j) == f(i, j) + if i == a && j == b then 1 else 0
    ensures GridSum(g, n) == GridSum(f, n) + if 0 <= a < n then 1 else 0
  {
    if n > 0 {
      GridOneMore(f, g, n - 1, a, b);
      RowOneMore(f, g, n - 1, SLOTS, a, b);
    }
  }

  // ----- which requests -----

  ghost function AtLeast(x: real): Event -> bool {
    (e: Event) => e.time >= x
  }

  ghost function MoreThan(x: real): Event -> bool {
    (e: Event) => e.time > x
  }

  ghost function InEpoch(c: Setup, n: int): Event -> bool {
    (e: Event) => c.ticks > 0.0 && Epoch(c, e.time) == n
  }

  /** The requests of one slot among those that satisfy `p`. */
  ghost function Within(c: Setup, i: int, j: int, p: Event -> bool): Event -> bool {
    (e: Event) => InSlot(c, e, i, j) && p(e)
  }

  /** Times do not decrease, and all slots are made before the first request. */
  predicate Ordered(c: Setup, log: seq<Event>) {
    && IsSetup(c)
    && (forall k :: 0 <= k < |log| ==> 0 <= log[k].thread < c.threads && Started(c, log[k].time))
    && (forall k, m :: 0 <= k < m < |log| ==> log[k].time <= log[m].time)
  }

  predicate Started(c: Setup, time: real) {
    forall i, j :: 0 <= i < c.threads && 0 <= j < SLOTS ==> Born(c, i, j) <= time
  }

  /** `now` is not earlier than the last request. */
  predicate NotBefore(c: Setup, log: seq<Event>, now: real) {
    Started(c, now) && forall k :: 0 <= k < |log| ==> log[k].time <= now
  }

  /** Within a twentieth of a second after the slot was made. */
  predicate Early(c: Setup, time: real, i: int, j: int) {
    (time - Born(c, i, j)) * 20.0 < c.ticks
  }

  /** Two requests of one thread in the same twentieth of a second, one early for
      their slot and the other not. */
  predicate Straddle(c: Setup, log: seq<Event>, a: int, b: int)
    requires c.ticks > 0.0
  {
    && 0 <= a < b < |log| && log[a].thread == log[b].thread && Epoch(c, log[a].time) == Epoch(c, log[b].time)
    && Early(c, log[a].time, log[a].thread, SlotIndex(c, log[a].time))
    && !Early(c, log[b].time, log[b].thread, SlotIndex(c, log[b].time))
  }

  ghost predicate Straddles(c: Setup, log: seq<Event>)
    requires c.ticks > 0.0
  {
    exists a, b :: Straddle(c, log, a, b)
  }

  // ----- bounds for one slot -----

  /** A slot counts only requests that are not older than its time stamp. */
  lemma {:induction false} SlotUpper(c: Setup, log: seq<Event>, i: int, j: int)
    requires Ordered(c, log) && 0 <= i < c.threads && 0 <= j < SLOTS
    ensures var slot := SlotAfter(c, log, i, j);
      && 0 <= slot.count <= Count(log, Within(c, i, j, AtLeast(slot.lastUpdate)))
      && (forall k :: 0 <= k < |log| ==> Born(c, i, j) <= log[k].time)
      && (slot.lastUpdate == Born(c, i, j) || (log != [] && slot.lastUpdate <= log[|log| - 1].time))
  {
    if log != [] {
      var n := |log| - 1;
      var prefix, e := log[..n], log[n];
      SlotUpper(c, prefix, i, j);
      var slot, before := SlotAfter(c, log, i, j), SlotAfter(c, prefix, i, j);
      assert n > 0 ==> log[n - 1].time <= e.time;
      if InSlot(c, e, i, j) && slot.count != before.count + 1 {
        CountSome(log, Within(c, i, j, AtLeast(slot.lastUpdate)), n);
      }
    }
  }

  /** The last request of a slot, or -1. */
  function LastIn(c: Setup, log: seq<Event>, i: int, j: int): (l: int)
    ensures -1 <= l < |log| && (l >= 0 ==> InSlot(c, log[l], i, j))
  {
    if log == [] then -1
    else if InSlot(c, log[|log| - 1], i, j) then |log| - 1
    else LastIn(c, log[..|log| - 1], i, j)
  }

  lemma {:induction false} LastInIsLast(c: Setup, log: seq<Event>, i: int, j: int)
    ensures forall k :: 0 <= k < |log| && InSlot(c, log[k], i, j) ==> k <= LastIn(c, log, i, j)
  {
    if log != [] && !InSlot(c, log[|log| - 1], i, j) { LastInIsLast(c, log[..|log| - 1], i, j); }
  }

  /** A slot is stamped by a request of the latest twentieth it has seen, or has
      seen only early requests and is stamped by its construction. */
  predicate Stamped(c: Setup, slot: Slot, latest: real, i: int, j: int)
    requires c.ticks > 0.0
  {
    || (Epoch(c, slot.lastUpdate) == Epoch(c, latest) && slot.lastUpdate <= latest)
    || (slot.lastUpdate == Born(c, i, j) && Early(c, latest, i, j))
  }

  /** A slot counts all requests of the latest twentieth of a second it has seen. */
  lemma {:induction false} SlotLower(c: Setup, log: seq<Event>, i: int, j: int)
    requires Ordered(c, log) && !Straddles(c, log) && 0 <= i < c.threads && 0 <= j < SLOTS
    ensures var slot, l := SlotAfter(c, log, i, j), LastIn(c, log, i, j);
      && slot.count >= 0
      && (l < 0 ==> slot == Slot(0, Born(c, i, j)))
      && (l >= 0 ==> Stamped(c, slot, log[l].time, i, j) &&
                     slot.count >= Count(log, Within(c, i, j, InEpoch(c, Epoch(c, log[l].time)))))
  {
    if log != [] {
      var n := |log| - 1;
      var prefix, e := log[..n], log[n];
      assert !Straddles(c, prefix) by {
        if Straddles(c, prefix) {
          var a, b :| Straddle(c, prefix, a, b);
          assert Straddle(c, log, a, b);
        }
      }
      SlotLower(c, prefix, i, j);
      if InSlot(c, e, i, j) { SlotLowerStep(c, log, i, j); }
    }
  }

  lemma SlotLowerStep(c: Setup, log: seq<Event>, i: int, j: int)
    requires Ordered(c, log) && !Straddles(c, log) && log != [] && InSlot(c, log[|log| - 1], i, j)
    requires 0 <= i < c.threads && 0 <= j < SLOTS
    requires var prefix := log[..|log| - 1]; var slot, l := SlotAfter(c, prefix, i, j), LastIn(c, prefix, i, j);
      && slot.count >= 0
      && (l < 0 ==> slot == Slot(0, Born(c, i, j)))
      && (l >= 0 ==> Stamped(c, slot, prefix[l].time, i, j) &&
                     slot.count >= Count(prefix, Within(c, i, j, InEpoch(c, Epoch(c, prefix[l].time)))))
    ensures var slot, e := SlotAfter(c, log, i, j), log[|log| - 1];
      && slot.count >= 0 && Stamped(c, slot, e.time, i, j)
      && slot.count >= Count(log, Within(c, i, j, InEpoch(c, Epoch(c, e.time))))
  {
    var n := |log| - 1;
    var prefix, e := log[..n], log[n];
    var slot, l := SlotAfter(c, prefix, i, j), LastIn(c, prefix, i, j);
    if l < 0 || Epoch(c, prefix[l].time) != Epoch(c, e.time) {
      NoneInEpoch(c, log, i, j);
      if l >= 0 { NewEpoch(c, slot, prefix[l].time, e.time, i, j); }
    } else {
      assert !Straddle(c, log, l, n);
      if Epoch(c, slot.lastUpdate) == Epoch(c, prefix[l].time) { SameEpoch(c, slot.lastUpdate, e.time); }
    }
  }

  /** A later twentieth of a second starts the slot anew, or is still early. */
  lemma NewEpoch(c: Setup, slot: Slot, latest: real, time: real, i: int, j: int)
    requires c.ticks > 0.0 && Stamped(c, slot, latest, i, j) && latest <= time
    requires Epoch(c, latest) != Epoch(c, time) && SlotIndex(c, latest) == SlotIndex(c, time)
    ensures Stamped(c, Update(c, slot, time), time, i, j)
  {
    EpochMonotone(c, latest, time);
    if Epoch(c, slot.lastUpdate) == Epoch(c, latest) { OtherEpoch(c, slot.lastUpdate, time); }
  }

  /** The first request of a new twentieth is the only one of its slot there. */
  lemma NoneInEpoch(c: Setup, log: seq<Event>, i: int, j: int)
    requires Ordered(c, log) && log != [] && InSlot(c, log[|log| - 1], i, j)
    requires var l := LastIn(c, log[..|log| - 1], i, j);
      l < 0 || Epoch(c, log[l].time) != Epoch(c, log[|log| - 1].time)
    ensures Count(log[..|log| - 1], Within(c, i, j, InEpoch(c, Epoch(c, log[|log| - 1].time)))) == 0
  {
    var n := |log| - 1;
    var prefix, e := log[..n], log[n];
    var l := LastIn(c, prefix, i, j);
    LastInIsLast(c, prefix, i, j);
    if l >= 0 { EpochMonotone(c, prefix[l].time, e.time); }
    forall k | 0 <= k < n && InSlot(c, prefix[k], i, j) ensures Epoch(c, prefix[k].time) != Epoch(c, e.time) {
      if k < l { EpochMonotone(c, prefix[k].time, prefix[l].time); }
    }
    CountNone(prefix, Within(c, i, j, InEpoch(c, Epoch(c, e.time))));
  }

  /** At most the requests of the last second. */
  lemma ContributionUpper(c: Setup, log: seq<Event>, i: int, j: int, now: real)
    requires Ordered(c, log) && 0 <= i < c.threads && 0 <= j < SLOTS
    ensures Contribution(c, SlotAfter(c, log, i, j), now) <= Count(log, Within(c, i, j, MoreThan(now - c.ticks)))
  {
    var slot := SlotAfter(c, log, i, j);
    SlotUpper(c, log, i, j);
    if now - slot.lastUpdate < c.ticks {
      CountAtMost(log, Within(c, i, j, AtLeast(slot.lastUpdate)), Within(c, i, j, MoreThan(now - c.ticks)));
    }
  }

  /** At least the requests of the last 19/20 of a second. */
  lemma ContributionLower(c: Setup, log: seq<Event>, i: int, j: int, now: real)
    requires Ordered(c, log) && !Straddles(c, log) && NotBefore(c, log, now) && 0 <= i < c.threads && 0 <= j < SLOTS
    ensures Contribution(c, SlotAfter(c, log, i, j), now)
         >= Count(log, Within(c, i, j, AtLeast(now - c.ticks * 19.0 / 20.0)))
  {
    var x := now - c.ticks * 19.0 / 20.0;
    var slot, l := SlotAfter(c, log, i, j), LastIn(c, log, i, j);
    SlotLower(c, log, i, j);
    LastInIsLast(c, log, i, j);
    if forall k :: 0 <= k < |log| ==> !(InSlot(c, log[k], i, j) && log[k].time >= x) {
      CountNone(log, Within(c, i, j, AtLeast(x)));
    } else {
      var k :| 0 <= k < |log| && InSlot(c, log[k], i, j) && log[k].time >= x;
      forall m | 0 <= m < |log| && InSlot(c, log[m], i, j) && log[m].time >= x
        ensures Epoch(c, log[m].time) == Epoch(c, log[l].time)
      {
        RecentIsLatest(c, log[m].time, log[l].time, now);
      }
      CountAtMost(log, Within(c, i, j, AtLeast(x)), Within(c, i, j, InEpoch(c, Epoch(c, log[l].time))));
      StampIsRecent(c, slot, log[k].time, log[l].time, now, i, j);
    }
  }

  lemma RecentIsLatest(c: Setup, time: real, latest: real, now: real)
    requires c.ticks > 0.0 && time <= latest <= now && SlotIndex(c, time) == SlotIndex(c, latest)
    requires time >= now - c.ticks * 19.0 / 20.0
    ensures Epoch(c, time) == Epoch(c, latest)
  {
    EpochMonotone(c, time, latest);
    if Epoch(c, time) != Epoch(c, latest) { OtherEpoch(c, time, latest); }
  }

  lemma StampIsRecent(c: Setup, slot: Slot, time: real, latest: real, now: real, i: int, j: int)
    requires c.ticks > 0.0 && Stamped(c, slot, latest, i, j) && time <= latest
    requires Epoch(c, time) == Epoch(c, latest) && time >= now - c.ticks * 19.0 / 20.0
    ensures now - slot.lastUpdate < c.ticks
  {
    if Epoch(c, slot.lastUpdate) == Epoch(c, latest) { SameEpoch(c, slot.lastUpdate, time); }
  }

  // ----- all slots -----

  /** What getStats reports. */
  ghost function Report(c: Setup, log: seq<Event>, now: real): int {
    GridSum(Contributions(c, log, now), c.threads)
  }

  ghost function Contributions(c: Setup, log: seq<Event>, now: real): (int, int) -> int {
    (i: int, j: int) => Contribution(c, SlotAfter(c, log, i, j), now)
  }

  ghost function Counts(c: Setup, log: seq<Event>, p: Event -> bool): (int, int) -> int {
    (i: int, j: int) => Count(log, Within(c, i, j, p))
  }

  lemma {:induction false} RowZero(f: (int, int) -> int, i: int, m: nat)
    requires forall j :: 0 <= j < m ==> f(i, j) == 0
    ensures RowSum(f, i, m) == 0
  {
    if m > 0 { RowZero(f, i, m - 1); }
  }

  lemma {:induction false} GridZero(f: (int, int) -> int, n: nat)
    requires forall i, j :: 0 <= i < n && 0 <= j < SLOTS ==> f(i, j) == 0
    ensures GridSum(f, n) == 0
  {
    if n > 0 {
      GridZero(f, n - 1);
      RowZero(f, n - 1, SLOTS);
    }
  }

  lemma {:induction false} GridSame(f: (int, int) -> int, g: (int, int) -> int, n: nat)
    requires forall i, j :: 0 <= i < n && 0 <= j < SLOTS ==> f(i, j) == g(i, j)
    ensures GridSum(f, n) == GridSum(g, n)
  {
    GridAtMost(f, g, n);
    GridAtMost(g, f, n);
  }

  /** Every request belongs to exactly one slot. */
  lemma {:induction false} CountBySlots(c: Setup, log: seq<Event>, p: Event -> bool)
    requires Ordered(c, log)
    ensures Count(log, p) == GridSum(Counts(c, log, p), c.threads)
  {
    if log == [] {
      GridZero(Counts(c, log, p), c.threads);
    } else {
      var n := |log| - 1;
      var prefix, e := log[..n], log[n];
      CountBySlots(c, prefix, p);
      if p(e) {
        GridOneMore(Counts(c, prefix, p), Counts(c, log, p), c.threads, e.thread, SlotIndex(c, e.time));
      } else {
        GridSame(Counts(c, prefix, p), Counts(c, log, p), c.threads);
      }
    }
  }

  /** The report at `now` lies between the number of requests in the last 19/20 of
      a second and the number of requests in the last second. */
  ghost predicate InBounds(c: Setup, log: seq<Event>, now: real) {
    Count(log, AtLeast(now - c.ticks * 19.0 / 20.0)) <= Report(c, log, now) <= Count(log, MoreThan(now - c.ticks))
  }

  lemma ReportUpper(c: Setup, log: seq<Event>, now: real)
    requires Ordered(c, log)
    ensures Report(c, log, now) <= Count(log, MoreThan(now - c.ticks))
  {
    forall i, j | 0 <= i < c.threads && 0 <= j < SLOTS
      ensures Contributions(c, log, now)(i, j) <= Counts(c, log, MoreThan(now - c.ticks))(i, j)
    {
      ContributionUpper(c, log, i, j, now);
    }
    GridAtMost(Contributions(c, log, now), Counts(c, log, MoreThan(now - c.ticks)), c.threads);
    CountBySlots(c, log, MoreThan(now - c.ticks));
  }

  lemma ReportLower(c: Setup, log: seq<Event>, now: real)
    requires Ordered(c, log) && !Straddles(c, log) && NotBefore(c, log, now)
    ensures Report(c, log, now) >= Count(log, AtLeast(now - c.ticks * 19.0 / 20.0))
  {
    var p := AtLeast(now - c.ticks * 19.0 / 20.0);
    forall i, j | 0 <= i < c.threads && 0 <= j < SLOTS
      ensures Counts(c, log, p)(i, j) <= Contributions(c, log, now)(i, j)
    {
      ContributionLower(c, log, i, j, now);
    }
    GridAtMost(Counts(c, log, p), Contributions(c, log, now), c.threads);
    CountBySlots(c, log, p);
  }

  // ----- early requests can be lost -----

  ghost function Late(c: Setup, i: int, j: int): Event -> bool {
    (e: Event) => !Early(c, e.time, i, j)
  }

  /** Once a slot has seen a request that is not early, it counts none that is. */
  lemma {:induction false} LateOnly(c: Setup, log: seq<Event>, i: int, j: int)
    requires Ordered(c, log) && 0 <= i < c.threads && 0 <= j < SLOTS
    ensures var slot, late := SlotAfter(c, log, i, j), Count(log, Within(c, i, j, Late(c, i, j)));
      if late == 0 then slot.lastUpdate == Born(c, i, j) else slot.count <= late
  {
    if log != [] {
      var n := |log| - 1;
      var prefix, e := log[..n], log[n];
      LateOnly(c, prefix, i, j);
      if InSlot(c, e, i, j) && Early(c, e.time, i, j) {
        forall k | 0 <= k < n ensures !Within(c, i, j, Late(c, i, j))(prefix[k]) { assert log[k].time <= e.time; }
        CountNone(prefix, Within(c, i, j, Late(c, i, j)));
      }
    }
  }

  lemma {:induction false} CountBoth(log: seq<Event>, p: Event -> bool, q: Event -> bool, r: Event -> bool)
    requires forall k :: 0 <= k < |log| ==> (p(log[k]) || q(log[k]) ==> r(log[k])) && !(p(log[k]) && q(log[k]))
    ensures Count(log, p) + Count(log, q) <= Count(log, r)
  {
    if log != [] { CountBoth(log[..|log| - 1], p, q, r); }
  }

  ghost function EarlyOnly(c: Setup, i: int, j: int): Event -> bool {
    (e: Event) => Early(c, e.time, i, j)
  }

  /** A slot that has seen an early request and one that is not has lost one. */
  lemma SlotLoses(c: Setup, log: seq<Event>, i: int, j: int, a: nat, b: nat, x: real)
    requires Ordered(c, log) && 0 <= i < c.threads && 0 <= j < SLOTS && a < |log| && b < |log|
    requires InSlot(c, log[a], i, j) && Early(c, log[a].time, i, j)
    requires InSlot(c, log[b], i, j) && !Early(c, log[b].time, i, j)
    requires forall k :: 0 <= k < |log| ==> log[k].time >= x
    ensures SlotAfter(c, log, i, j).count < Count(log, Within(c, i, j, AtLeast(x)))
  {
    var late, early := Within(c, i, j, Late(c, i, j)), Within(c, i, j, EarlyOnly(c, i, j));
    LateOnly(c, log, i, j);
    CountSome(log, late, b);
    CountSome(log, early, a);
    CountBoth(log, late, early, Within(c, i, j, AtLeast(x)));
  }

  /** All requests up to a straddling one are recent. */
  lemma StraddleIsRecent(c: Setup, log: seq<Event>, a: nat, b: nat, k: nat)
    requires Ordered(c, log) && Straddle(c, log, a, b) && k < |log|
    ensures log[k].time >= log[b].time - c.ticks * 19.0 / 20.0
    ensures SlotIndex(c, log[a].time) == SlotIndex(c, log[b].time)
  {
    var i, j := log[a].thread, SlotIndex(c, log[a].time);
    SameEpoch(c, log[a].time, log[b].time);
    assert Started(c, log[k].time) && Born(c, i, j) <= log[k].time;
  }

  /** At a straddling request, the report misses a request of the last moments. */
  lemma StraddleBreaksBound(c: Setup, log: seq<Event>, a: nat, b: nat)
    requires Ordered(c, log) && Straddle(c, log, a, b) && b == |log| - 1
    ensures !InBounds(c, log, log[b].time)
  {
    var now := log[b].time;
    var x := now - c.ticks * 19.0 / 20.0;
    var i, j := log[a].thread, SlotIndex(c, log[a].time);
    forall k | 0 <= k < |log| ensures log[k].time >= x { StraddleIsRecent(c, log, a, b, k); }
    StraddleIsRecent(c, log, a, b, a);
    SlotLoses(c, log, i, j, a, b, x);
    SlotUpper(c, log, i, j);
    var f, g := Contributions(c, log, now), Counts(c, log, AtLeast(x));
    assert f(i, j) < g(i, j);
    forall u, v | 0 <= u < c.threads && 0 <= v < SLOTS ensures f(u, v) <= g(u, v) {
      ContributionUpper(c, log, u, v, now);
      CountAtMost(log, Within(c, u, v, MoreThan(now - c.ticks)), Within(c, u, v, AtLeast(x)));
    }
    GridAtMost(f, g, c.threads);
    CountBySlots(c, log, AtLeast(x));
  }

  ghost predicate AlwaysInBounds(c: Setup, log: seq<Event>) {
    forall k, now :: 0 <= k <= |log| && NotBefore(c, log[..k], now) ==> InBounds(c, log[..k], now)
  }

  /** The reports stay in bounds, after every request and at all later times, if
      and only if no thread finishes two requests in the same twentieth of a second
      of which one is early for its slot and the other is not. */
  lemma BoundsIffNoStraddle(c: Setup, log: seq<Event>)
    requires Ordered(c, log)
    ensures AlwaysInBounds(c, log) <==> !Straddles(c, log)
  {
    if Straddles(c, log) {
      var a, b :| Straddle(c, log, a, b);
      var prefix := log[..b + 1];
      assert Straddle(c, prefix, a, b);
      StraddleBreaksBound(c, prefix, a, b);
      assert NotBefore(c, log[..b + 1], log[b].time);
    } else {
      forall k, now | 0 <= k <= |log| && NotBefore(c, log[..k], now) ensures InBounds(c, log[..k], now) {
        var prefix := log[..k];
        if Straddles(c, prefix) {
          var a, b :| Straddle(c, prefix, a, b);
          assert Straddle(c, log, a, b);
        }
        ReportLower(c, prefix, now);
        ReportUpper(c, prefix, now);
      }
    }
  }

  /** In particular when all requests come a twentieth of a second after the slots
      were made, or later. */
  lemma BoundsOnceWarm(c: Setup, log: seq<Event>)
    requires Ordered(c, log)
    requires forall k, i, j :: 0 <= k < |log| && 0 <= i < c.threads && 0 <= j < SLOTS ==> !Early(c, log[k].time, i, j)
    ensures AlwaysInBounds(c, log)
  {
    BoundsIffNoStraddle(c, log);
  }

  /** A second of 80 ticks, slots made at tick 2, requests at ticks 5 and 7: the
      second request erases the first. */
  lemma EarlyRequestIsLost()
    ensures var c := Setup(1, 80.0, [seq(SLOTS, j => 2.0)]);
      var log := [Event(0, 5.0), Event(0, 7.0)];
      Ordered(c, log) && !AlwaysInBounds(c, log)
  {
    var c := Setup(1, 80.0, [seq(SLOTS, j => 2.0)]);
    var log := [Event(0, 5.0), Event(0, 7.0)];
    assert Epoch(c, 5.0) == 1 && Epoch(c, 7.0) == 1;
    assert Straddle(c, log, 0, 1);
    BoundsIffNoStraddle(c, log);
  }

  // ----- the counters -----

  class Stats {
    const setup: Setup
    const counts: array2<int>
    const updates: array2<real>
    ghost var log: seq<Event>

    ghost predicate Valid()
      reads this, counts, updates
    {
      && IsSetup(setup)
      && counts.Length0 == updates.Length0 == setup.threads && counts.Length1 == updates.Length1 == SLOTS
      && forall i, j :: 0 <= i < setup.threads && 0 <= j < SLOTS ==> SlotOk(i, j)
    }

    ghost predicate SlotOk(i: int, j: int)
      requires 0 <= i < counts.Length0 == updates.Length0 && 0 <= j < counts.Length1 == updates.Length1
      reads this, counts, updates
    {
      Slot(counts[i, j], updates[i, j]) == SlotAfter(setup, log, i, j)
    }

    constructor (c: Setup)
      requires IsSetup(c)
      ensures Valid() && setup == c && log == [] && fresh(counts) && fresh(updates)
    {
      setup, log := c, [];
      counts := new int[c.threads, SLOTS]((i, j) => 0);
      updates := new real[c.threads, SLOTS]((i, j) => Born(c, i, j));
    }

    method FinishedRequest(thread: int, now: real)
      requires Valid() && 0 <= thread < setup.threads
      modifies this`log, counts, updates
      ensures Valid() && log == old(log) + [Event(thread, now)]
    {
      var slot := SlotIndex(setup, now);
      ghost var before := log;
      assert SlotOk(thread, slot);
      if (now - updates[thread, slot]) * 20.0 < setup.ticks {
        counts[thread, slot] := counts[thread, slot] + 1;
      } else {
        counts[thread, slot] := 1;
        updates[thread, slot] := now;
      }
      log := log + [Event(thread, now)];
      forall i, j | 0 <= i < setup.threads && 0 <= j < SLOTS ensures SlotOk(i, j) {
        assert old(SlotOk(i, j));
        assert log[..|log| - 1] == before;
      }
    }

    method GetStats(now: real) returns (requests: int)
      requires Valid()
      ensures requests == Report(setup, log, now)
    {
      ghost var f := Contributions(setup, log, now);
      requests := 0;
      for i := 0 to setup.threads
        invariant requests == GridSum(f, i)
      {
        for j := 0 to SLOTS
          invariant requests == GridSum(f, i) + RowSum(f, i, j)
        {
          assert SlotOk(i, j);
          if now - updates[i, j] < setup.ticks { requests := requests + counts[i, j]; }
        }
      }
    }
  }
}
