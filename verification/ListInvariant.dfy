/**
 The inductive invariant of the lock-free list, and the lemmas that show that
 each kind of step keeps it.

 The proof is by rely and guarantee: what a thread knows (`ThreadOk`) survives
 every step of another thread that satisfies `Rely`, and every step satisfies
 `Rely` for all threads but the one that takes it.
 */
module ListInvariant {
  import opened ListModel

  // ----- the shared list -----

  ghost function At(c: seq<Addr>, i: nat): Addr {
    if i < |c| then c[i] else NULL
  }

  ghost predicate LinksOn(heap: map<Addr, Node>, c: seq<Addr>, i: nat) {
    i < |c| && c[i] in heap && heap[c[i]].next == At(c, i + 1)
  }

  /** `c` lists the linked nodes in the order in which `next` visits them. */
  ghost predicate IsChain(heap: map<Addr, Node>, head: Addr, c: seq<Addr>) {
    && (forall i :: 0 <= i < |c| ==> c[i] in heap && heap[c[i]].status.Linked?)
    && (forall a :: a in heap && heap[a].status.Linked? ==> a in c)
    && (forall i, j :: 0 <= i < j < |c| ==> heap[c[i]].key < heap[c[j]].key)
    && (forall i :: 0 <= i < |c| ==> LinksOn(heap, c, i))
    && head == At(c, 0)
  }

  ghost predicate HeapOk(heap: map<Addr, Node>, head: Addr) {
    && NULL !in heap
    && (exists c :: IsChain(heap, head, c))
    && (forall a :: a in heap && heap[a].status.Unlinked? ==> heap[a].marked)
    && (forall a :: a in heap && heap[a].status.Private? ==> !heap[a].marked)
  }

  // ----- what a thread holds on to -----

  predicate UsesPrev(pc: Pc) {
    !(pc.Idle? || pc.ReadHead? || pc.AdvanceMid? || pc.DeleteNew? || pc.Return? || pc.Fault?)
  }

  predicate HoldsCur(pc: Pc) {
    || pc.ReadNext? || pc.Unlink? || pc.ReadKey? || pc.Recheck? || pc.Advance?
    || pc.LinkNew? || pc.InsertCas? || pc.MarkCas? || pc.UnlinkCas?
  }

  /** Nodes whose hazard the thread has validated and not dropped since. */
  function Protected(th: Thread): set<Addr> {
    (if UsesPrev(th.pc) then LocNode(th.prev) else {}) +
    (if HoldsCur(th.pc) && th.cur != NULL then {th.cur} else {})
  }

  ghost predicate ProtectOk(heap: map<Addr, Node>, th: Thread) {
    && (forall a :: a in Protected(th) ==> a in heap && !heap[a].status.Private?)
    && (UsesPrev(th.pc) && th.prev.NextOf? ==> th.prev.node == th.hp1 && heap[th.prev.node].key < th.key)
    && (HoldsCur(th.pc) && th.cur != NULL ==> th.cur == th.hp0)
  }

  /** The new node of an insert, and the nodes the thread has unlinked. */
  ghost predicate OwnOk(heap: map<Addr, Node>, t: nat, th: Thread) {
    && (th.node != NULL ==>
          && th.node in heap && heap[th.node].status == Private(t) && heap[th.node].key == th.key
          && th.op.Insert? && th.point == 0)
    && (forall a :: a in heap && heap[a].status == Private(t) ==> a == th.node)
    && (th.op.Insert? && th.point == 0 && !th.pc.Idle? && !th.pc.Return? ==> th.node != NULL)
    && (th.pc.Idle? || th.pc.Return? ==> th.node == NULL)
    && (forall a :: a in th.retired ==> a in heap && heap[a].status == Unlinked(t))
    && (forall a :: a in heap && heap[a].status == Unlinked(t) ==>
          a in th.retired || (th.pc.Retire? && a == th.cur))
    && (th.pc.Retire? ==> th.cur in heap && heap[th.cur].status == Unlinked(t) && th.cur !in th.retired)
  }

  // ----- what a thread has seen of the abstract set -----

  predicate Seen?(th: Thread, log: seq<Moment>, present: bool) {
    th.start <= th.wit < |log| && (th.key in log[th.wit].keys) == present
  }

  /** What reading an unmarked `cur->next` told about the key. */
  ghost predicate Observed(heap: map<Addr, Node>, log: seq<Moment>, th: Thread) {
    && th.cur != NULL && th.cur in heap
    && th.start <= th.wit < |log|
    && (heap[th.cur].key == th.key ==> Seen?(th, log, true))
    && (heap[th.cur].key < th.key && th.next == NULL ==> Seen?(th, log, false))
  }

  /** `cur` is logically deleted and `next` is its frozen successor. */
  ghost predicate Dead(heap: map<Addr, Node>, th: Thread) {
    th.cur != NULL && th.cur in heap && heap[th.cur].marked && heap[th.cur].next == th.next
  }

  ghost predicate RetireOk(log: seq<Moment>, th: Thread, last: bool) {
    if last then th.point != 0 else th.next == NULL ==> Seen?(th, log, false)
  }

  ghost predicate PcOk(heap: map<Addr, Node>, log: seq<Moment>, th: Thread) {
    match th.pc
    case Idle => true
    case ReadHead => true
    case Publish => th.cur != NULL
    case Validate => th.cur != NULL && th.cur == th.hp0
    case ReadNext => th.cur != NULL
    case Unlink => Dead(heap, th)
    case ReadKey => Observed(heap, log, th)
    case Recheck => Observed(heap, log, th) && th.curKey == heap[th.cur].key
    case Advance => Observed(heap, log, th) && heap[th.cur].key < th.key
    case AdvanceMid =>
      && Observed(heap, log, th) && th.prev == NextOf(th.cur)
      && heap[th.cur].key < th.key && !heap[th.cur].status.Private?
    case DeleteNew => th.op.Insert? && th.point == 0 && Seen?(th, log, true)
    case LinkNew => th.op.Insert? && th.point == 0 && (th.cur == NULL || (th.cur in heap && heap[th.cur].key > th.key))
    case InsertCas =>
      && th.op.Insert? && th.point == 0 && (th.cur == NULL || (th.cur in heap && heap[th.cur].key > th.key))
      && th.node in heap && heap[th.node].next == th.cur
    case MarkCas => th.op.Remove? && th.point == 0 && th.cur != NULL && th.cur in heap && heap[th.cur].key == th.key
    case UnlinkCas => th.point != 0 && Dead(heap, th)
    case Retire(last) => RetireOk(log, th, last)
    case Scan(last, _, slot, _) => RetireOk(log, th, last) && slot <= 1
    case Free(last, _) => RetireOk(log, th, last)
    case Return(b) =>
      if th.point != 0 then b
      else (match th.op
            case Lookup => Seen?(th, log, b)
            case Insert => !b && Seen?(th, log, true)
            case Remove => !b && Seen?(th, log, false))
    case Fault => false
  }

  predicate By(e: Effect, t: nat) {
    !e.Quiet? && e.who == t
  }

  /** The call has had exactly the effects on the abstract set that `point` says. */
  ghost predicate CallOk(log: seq<Moment>, t: nat, th: Thread) {
    !th.pc.Idle? ==>
      && 0 < th.start < |log|
      && (th.point != 0 ==>
            && th.start < th.point < |log|
            && !th.op.Lookup?
            && log[th.point].effect == (if th.op.Insert? then Added(t, th.key) else Removed(t, th.key)))
      && (th.point != 0 && !th.pc.Return? ==> th.op.Remove?)
      && (forall m :: th.start <= m < |log| && By(log[m].effect, t) ==> m == th.point)
  }

  ghost predicate ThreadOk(s: State, t: nat)
    requires t < |s.threads|
  {
    var th := s.threads[t];
    && ProtectOk(s.heap, th)
    && OwnOk(s.heap, t, th)
    && PcOk(s.heap, s.log, th)
    && CallOk(s.log, t, th)
    && (th.pc.AdvanceMid? ==> |s.threads| <= 1)
  }

  /** Node `n` of thread `u` has been seen by a scan at `pc`, or will be. */
  predicate Covered(pc: Pc, u: nat, hp1: Addr, n: Addr) {
    match pc
    case Scan(_, i, slot, active) => (u < i ==> n in active) && (u == i && slot == 1 ==> n in active || n == hp1)
    case Free(_, active) => n in active
    case _ => true
  }

  /** Thread `r`, scanning, cannot miss a retired node that `u` protects. */
  ghost predicate ScanOk(s: State, r: nat, u: nat)
    requires r < |s.threads| && u < |s.threads|
  {
    var th := s.threads[u];
    forall n :: n in s.threads[r].retired && n in Protected(th) ==> Covered(s.threads[r].pc, u, th.hp1, n)
  }

  ghost predicate Legal(before: set<int>, m: Moment) {
    match m.effect
    case Quiet => m.keys == before
    case Added(_, k) => k !in before && m.keys == before + {k}
    case Removed(_, k) => k in before && m.keys == before - {k}
  }

  ghost predicate LogOk(s: State) {
    && |s.log| > 0
    && s.log[|s.log| - 1].keys == Keys(s.heap)
    && (forall m :: 0 < m < |s.log| ==> Legal(s.log[m - 1].keys, s.log[m]))
  }

  /** No other thread can look between the two stores of the slot exchange. */
  predicate SwapIsSafe(s: State) {
    s.atomicSwap || |s.threads| <= 1
  }

  ghost predicate Inv(s: State) {
    && SwapIsSafe(s)
    && HeapOk(s.heap, s.head)
    && LogOk(s)
    && (forall t :: 0 <= t < |s.threads| ==> ThreadOk(s, t))
    && (forall r, u :: 0 <= r < |s.threads| && 0 <= u < |s.threads| ==> ScanOk(s, r, u))
  }

  lemma InitInv(s: State)
    requires Init(s) && SwapIsSafe(s)
    ensures Inv(s)
  {
    assert IsChain(s.heap, s.head, []);
  }

  // ----- reading the chain -----

  predicate LinkedAt(heap: map<Addr, Node>, a: Addr) {
    a in heap && heap[a].status.Linked?
  }

  /** `b` follows the location that holds `*loc == b`, unmarked. */
  lemma Successor(s: State, loc: Loc, b: Addr)
    requires HeapOk(s.heap, s.head) && LocNode(loc) <= s.heap.Keys
    requires loc.NextOf? ==> !s.heap[loc.node].status.Private?
    requires Holds(s, loc, b)
    ensures loc.NextOf? ==> s.heap[loc.node].status.Linked?
    ensures b != NULL ==> LinkedAt(s.heap, b)
    ensures b != NULL && loc.NextOf? ==> s.heap[loc.node].key < s.heap[b].key
    // and no linked node lies between
    ensures forall x :: LinkedAt(s.heap, x) ==>
      || (loc.NextOf? && s.heap[x].key <= s.heap[loc.node].key)
      || (b != NULL && s.heap[b].key <= s.heap[x].key)
  {
    var c :| IsChain(s.heap, s.head, c);
    if loc.NextOf? {
      var i :| 0 <= i < |c| && c[i] == loc.node;
      assert LinksOn(s.heap, c, i);
    }
  }

  lemma LinkedKeysDistinct(heap: map<Addr, Node>, head: Addr, a: Addr, b: Addr)
    requires HeapOk(heap, head)
    requires LinkedAt(heap, a) && LinkedAt(heap, b) && heap[a].key == heap[b].key
    ensures a == b
  {
    var c :| IsChain(heap, head, c);
    var i :| 0 <= i < |c| && c[i] == a;
    var j :| 0 <= j < |c| && c[j] == b;
  }

  // ----- interference -----

  ghost predicate KeptShared(s: State, s': State, a: Addr)
    requires a in s.heap
  {
    && a in s'.heap
    && s'.heap[a].key == s.heap[a].key
    && !s'.heap[a].status.Private?
    && (s.heap[a].marked ==> s'.heap[a].marked && s'.heap[a].next == s.heap[a].next)
  }

  predicate OwnedBy(n: Node, u: nat) {
    n.status == Private(u) || n.status == Unlinked(u)
  }

  /** What thread `u` may rely on when another thread takes a step. */
  ghost predicate Rely(s: State, s': State, u: nat) {
    && u < |s.threads| == |s'.threads|
    && s'.threads[u] == s.threads[u]
    && |s'.log| == |s.log| + 1
    && s'.log[..|s.log|] == s.log
    && !By(s'.log[|s.log|].effect, u)
    && (forall a :: a in s.heap && a in Protected(s.threads[u]) ==> KeptShared(s, s', a))
    && (forall a :: a in s.heap && OwnedBy(s.heap[a], u) ==> a in s'.heap && s'.heap[a] == s.heap[a])
    && (forall a :: a in s'.heap && OwnedBy(s'.heap[a], u) ==> a in s.heap && s.heap[a].status == s'.heap[a].status)
  }

  /** What a step of thread `t` may do to a node that stays allocated. */
  predicate NodeKept(n: Node, n': Node, t: nat) {
    || n' == n
    || (n'.key == n.key && n.status == Private(t) && (n'.status == n.status || n'.status.Linked?))
    || (n'.key == n.key && n.status.Linked? && (n.marked ==> n'.marked && n'.next == n.next) &&
        (n'.status.Linked? || (n.marked && n'.status == Unlinked(t))))
  }

  /** A step that allocates and frees nothing, as the other threads see it. */
  lemma KeptRely(s: State, heap: map<Addr, Node>, head: Addr, t: nat, th: Thread, e: Effect, u: nat)
    requires t < |s.threads| && u < |s.threads| && u != t && ProtectOk(s.heap, s.threads[u])
    requires heap.Keys == s.heap.Keys && forall a :: a in heap ==> NodeKept(s.heap[a], heap[a], t)
    requires e.Quiet? || e.who == t
    ensures Rely(s, Note(Put(s.(heap := heap, head := head), t, th), e), u)
  {
  }

  lemma RelyKeepsOwn(s: State, s': State, u: nat)
    requires u < |s.threads| && OwnOk(s.heap, u, s.threads[u])
    requires Rely(s, s', u)
    ensures OwnOk(s'.heap, u, s.threads[u])
  {
    var th := s.threads[u];
    if th.node != NULL { assert OwnedBy(s.heap[th.node], u); }
    assert forall a :: a in th.retired ==> OwnedBy(s.heap[a], u);
    assert forall a :: a in s'.heap && s'.heap[a].status == Private(u) ==> OwnedBy(s'.heap[a], u);
    assert forall a :: a in s'.heap && s'.heap[a].status == Unlinked(u) ==> OwnedBy(s'.heap[a], u);
    if th.pc.Retire? { assert OwnedBy(s.heap[th.cur], u); }
  }

  lemma RelyKeepsCall(s: State, s': State, u: nat)
    requires u < |s.threads| && CallOk(s.log, u, s.threads[u])
    requires Rely(s, s', u)
    ensures CallOk(s'.log, u, s.threads[u])
  {
    assert forall m :: 0 <= m < |s.log| ==> s'.log[m] == s.log[m];
  }

  lemma RelyKeepsPc(s: State, s': State, u: nat)
    requires u < |s.threads| && ThreadOk(s, u) && !s.threads[u].pc.AdvanceMid?
    requires Rely(s, s', u)
    ensures PcOk(s'.heap, s'.log, s.threads[u])
  {
    var th := s.threads[u];
    assert forall m :: 0 <= m < |s.log| ==> s'.log[m] == s.log[m];
    if HoldsCur(th.pc) && th.cur != NULL {
      assert th.cur in Protected(th);
      assert KeptShared(s, s', th.cur);
    }
    if th.pc.InsertCas? {
      assert OwnedBy(s.heap[th.node], u);
    }
  }

  lemma RelyKeepsThread(s: State, s': State, u: nat)
    requires u < |s.threads| && ThreadOk(s, u) && !s.threads[u].pc.AdvanceMid?
    requires Rely(s, s', u)
    ensures ThreadOk(s', u)
  {
    RelyKeepsOwn(s, s', u);
    RelyKeepsCall(s, s', u);
    RelyKeepsPc(s, s', u);
  }

  /** Scans stay complete when only thread `t` changes and `t` is not scanning. */
  ghost predicate ScanSafe(s: State, th: Thread, th': Thread) {
    && (forall a :: a in Protected(th') ==>
          || LinkedAt(s.heap, a)
          || (a in Protected(th) && (a == th'.hp1 || th'.hp1 == th.hp1)))
    && (th'.pc.Scan? || th'.pc.Free? ==> th'.pc == th.pc && th'.retired <= th.retired)
  }

  lemma ScanKept(s: State, s': State, t: nat)
    requires Inv(s) && t < |s.threads| == |s'.threads|
    requires s'.threads == s.threads[t := s'.threads[t]]
    requires ScanSafe(s, s.threads[t], s'.threads[t])
    ensures forall r, u :: 0 <= r < |s'.threads| && 0 <= u < |s'.threads| ==> ScanOk(s', r, u)
  {
    forall r, u | 0 <= r < |s'.threads| && 0 <= u < |s'.threads| ensures ScanOk(s', r, u) {
      assert ScanOk(s, r, u);
      assert ThreadOk(s, r);
    }
  }

  /** Closing argument shared by all steps. */
  lemma Conclude(s: State, s': State, t: nat, effect: Effect)
    requires Inv(s) && t < |s.threads| == |s'.threads|
    requires s'.threads == s.threads[t := s'.threads[t]] && SwapIsSafe(s')
    requires s'.log == s.log + [Moment(Keys(s'.heap), effect)]
    requires Legal(Keys(s.heap), Moment(Keys(s'.heap), effect))
    requires HeapOk(s'.heap, s'.head)
    requires ThreadOk(s', t)
    requires forall u :: 0 <= u < |s.threads| && u != t ==> Rely(s, s', u)
    requires forall r, u :: 0 <= r < |s'.threads| && 0 <= u < |s'.threads| ==> ScanOk(s', r, u)
    ensures Inv(s')
  {
    forall u | 0 <= u < |s'.threads| ensures ThreadOk(s', u) {
      if u != t { RelyKeepsThread(s, s', u); }
    }
  }

  /** A step that leaves the heap alone. */
  lemma HeaplessStep(s: State, t: nat, th': Thread)
    requires Inv(s) && t < |s.threads|
    requires ThreadOk(Note(Put(s, t, th'), Quiet), t)
    requires forall r, u :: 0 <= r < |s.threads| && 0 <= u < |s.threads| ==> ScanOk(Put(s, t, th'), r, u)
    ensures Inv(Note(Put(s, t, th'), Quiet))
  {
    var s' := Note(Put(s, t, th'), Quiet);
    forall r, u | 0 <= r < |s.threads| && 0 <= u < |s.threads| ensures ScanOk(s', r, u) {
      assert ScanOk(Put(s, t, th'), r, u);
    }
    forall u | 0 <= u < |s.threads| && u != t ensures Rely(s, s', u) {
      assert ThreadOk(s, u);
    }
    Conclude(s, s', t, Quiet);
  }

  /** A step that leaves the heap and all scans alone. */
  lemma LocalStep(s: State, t: nat, th': Thread)
    requires Inv(s) && t < |s.threads|
    requires ThreadOk(Note(Put(s, t, th'), Quiet), t)
    requires ScanSafe(s, s.threads[t], th')
    ensures Inv(Note(Put(s, t, th'), Quiet))
  {
    ScanKept(s, Put(s, t, th'), t);
    HeaplessStep(s, t, th');
  }
}
