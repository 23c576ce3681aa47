/**
 Every call on the lock-free list returns when its thread runs alone: from every
 reachable state, whatever the other threads were doing, a bounded number of steps
 of one thread brings its call to the end.

 A thread whose view of the list is fresh walks on without restarting; each node
 that it passes or unlinks pays for what it does until the next one.  A thread
 whose view is stale restarts once.
 */
module ListProgress {
  import opened ListModel
  import opened ListInvariant
  import opened ListTheorems

  predicate Ended(pc: Pc) {
    pc.Idle? || pc.Return? || pc.Fault?
  }

  // ----- fresh and stale views -----

  ghost predicate Leads(s: State, loc: Loc, a: Addr) {
    LocNode(loc) <= s.heap.Keys && Holds(s, loc, a)
  }

  /** What the thread remembers of the list is still so. */
  ghost predicate Fresh(s: State, th: Thread) {
    match th.pc
    case Publish | Validate | ReadNext | Unlink | LinkNew | InsertCas | UnlinkCas => Leads(s, th.prev, th.cur)
    case ReadKey | Recheck | Advance | MarkCas => Leads(s, th.prev, th.cur) && Leads(s, NextOf(th.cur), th.next)
    case AdvanceMid => Leads(s, NextOf(th.cur), th.next)
    case Retire(last) => last || Leads(s, th.prev, th.next)
    case Scan(last, _, _, _) => last || Leads(s, th.prev, th.next)
    case Free(last, _) => last || Leads(s, th.prev, th.next)
    case _ => true
  }

  // ----- how much is left to do -----

  /** The linked nodes behind a location. */
  ghost function Ahead(heap: map<Addr, Node>, loc: Loc): set<Addr> {
    set a | a in heap && heap[a].status.Linked? && Behind(heap, loc, a)
  }

  predicate Behind(heap: map<Addr, Node>, loc: Loc, a: Addr)
    requires a in heap
  {
    loc.NextOf? ==> loc.node in heap && heap[loc.node].key < heap[a].key
  }

  function Base(th: Thread): Loc {
    if th.pc.ReadHead? then Head else th.prev
  }

  /** The steps of retireNode and maybeFreeNodes, one per retired node apart; `n` is
      the number of threads. */
  function Reclaiming(pc: Pc, n: nat): nat {
    match pc
    case Retire(_) => 2 * n + 16
    case Scan(_, thread, slot, _) => 13 + (if thread < n && slot <= 1 then 2 * (n - thread) - slot else 0)
    case Free(_, _) => 12
    case _ => 0
  }

  /** The steps until the next node is passed or unlinked. */
  function FreshRank(pc: Pc, n: nat): nat {
    match pc
    case ReadHead | AdvanceMid => 9
    case Publish => 8
    case Validate => 7
    case ReadNext => 6
    case Unlink | ReadKey => 5
    case Recheck => 4
    case Advance | LinkNew | MarkCas => 3
    case InsertCas | UnlinkCas | DeleteNew => 2
    case _ => Reclaiming(pc, n)
  }

  /** The steps until a stale view is noticed. */
  function StaleRank(pc: Pc, n: nat): nat {
    match pc
    case ReadNext => 7
    case Unlink | ReadKey => 6
    case Recheck => 5
    case Advance => 4
    case AdvanceMid => 3
    case Publish | LinkNew | MarkCas => 2
    case Validate | InsertCas | UnlinkCas => 1
    case _ => Reclaiming(pc, n)
  }

  /** What one node is worth. */
  function Worth(n: nat): nat {
    2 * n + 30
  }

  /** A bound on the steps of thread `t` until its call returns, if it runs alone. */
  ghost function Work(s: State, t: nat): nat
    requires t < |s.threads|
  {
    var th, n := s.threads[t], |s.threads|;
    if Ended(th.pc) then 0
    else if Fresh(s, th) then |Ahead(s.heap, Base(th))| * Worth(n) + |th.retired| + FreshRank(th.pc, n) + 1
    else (|Ahead(s.heap, Head)| + 1) * Worth(n) + |th.retired| + StaleRank(th.pc, n) + 1
  }

  // ----- arithmetic -----

  lemma SubsetCard(a: set<Addr>, b: set<Addr>)
    requires a <= b
    ensures |a| <= |b| && (|a| == |b| ==> a == b)
  {
    assert b == a + (b - a);
  }

  lemma {:induction false} Times(a: nat, b: nat, k: nat)
    ensures a <= b ==> a * k <= b * k
    ensures a < b ==> a * k + k <= b * k
    decreases b
  {
    if a < b {
      Times(a, b - 1, k);
      assert b * k == (b - 1) * k + k;
    }
  }

  lemma FreshRankFits(pc: Pc, n: nat)
    ensures FreshRank(pc, n) + 2 <= Worth(n)
  {
  }

  /** No linked node appears, and none moves. */
  ghost predicate Shrinks(heap: map<Addr, Node>, heap': map<Addr, Node>) {
    forall a :: a in heap' && heap'[a].status.Linked? ==>
      a in heap && heap[a].status.Linked? && heap'[a].key == heap[a].key
  }

  lemma AheadOfHead(heap: map<Addr, Node>, loc: Loc)
    ensures |Ahead(heap, loc)| <= |Ahead(heap, Head)|
  {
    SubsetCard(Ahead(heap, loc), Ahead(heap, Head));
  }

  /** A fresh thread stays fresh and does some of its work on the same node. */
  lemma FreshStep(s: State, s': State, t: nat)
    requires t < |s.threads| == |s'.threads| && !Ended(s.threads[t].pc)
    requires Fresh(s, s.threads[t]) && Fresh(s', s'.threads[t])
    requires Ahead(s'.heap, Base(s'.threads[t])) <= Ahead(s.heap, Base(s.threads[t]))
    requires var n := |s.threads|; var th, th' := s.threads[t], s'.threads[t];
      |th'.retired| + FreshRank(th'.pc, n) < |th.retired| + FreshRank(th.pc, n)
    ensures Work(s', t) < Work(s, t)
  {
    var a, a' := Ahead(s.heap, Base(s.threads[t])), Ahead(s'.heap, Base(s'.threads[t]));
    SubsetCard(a', a);
    Times(|a'|, |a|, Worth(|s.threads|));
  }

  /** A fresh thread stays fresh and is done with node `x`. */
  lemma NodeStep(s: State, s': State, t: nat, x: Addr)
    requires t < |s.threads| == |s'.threads| && !Ended(s.threads[t].pc)
    requires Fresh(s, s.threads[t]) && Fresh(s', s'.threads[t])
    requires Ahead(s'.heap, Base(s'.threads[t])) <= Ahead(s.heap, Base(s.threads[t])) - {x}
    requires x in Ahead(s.heap, Base(s.threads[t])) && s'.threads[t].retired == s.threads[t].retired
    ensures Work(s', t) < Work(s, t)
  {
    var a, a' := Ahead(s.heap, Base(s.threads[t])), Ahead(s'.heap, Base(s'.threads[t]));
    SubsetCard(a', a - {x});
    Times(|a'|, |a|, Worth(|s.threads|));
    FreshRankFits(s'.threads[t].pc, |s.threads|);
  }

  /** A stale thread restarts, or comes closer to that. */
  lemma StaleStep(s: State, s': State, t: nat)
    requires t < |s.threads| == |s'.threads| && !Ended(s.threads[t].pc)
    requires !Fresh(s, s.threads[t]) && Shrinks(s.heap, s'.heap)
    requires var n := |s.threads|; var th, th' := s.threads[t], s'.threads[t];
      if Fresh(s', th') then |th'.retired| <= |th.retired|
      else |th'.retired| + StaleRank(th'.pc, n) < |th.retired| + StaleRank(th.pc, n)
    ensures Work(s', t) < Work(s, t)
  {
    var k := Worth(|s.threads|);
    var a, a', b' := Ahead(s.heap, Head), Ahead(s'.heap, Head), Ahead(s'.heap, Base(s'.threads[t]));
    SubsetCard(a', a);
    AheadOfHead(s'.heap, Base(s'.threads[t]));
    Times(|a'| + 1, |a| + 1, k);
    Times(|b'|, |a| + 1, k);
    FreshRankFits(s'.threads[t].pc, |s.threads|);
  }

  // ----- steps that leave the heap alone -----

  /** What makes a step of a thread to `th'` progress, in a list that does not change. */
  ghost predicate Progress(s: State, th: Thread, th': Thread) {
    var n := |s.threads|;
    || Ended(th'.pc)
    || (if Fresh(s, th) then
          && Fresh(s, th') && Base(th') == Base(th)
          && |th'.retired| + FreshRank(th'.pc, n) < |th.retired| + FreshRank(th.pc, n)
        else if Fresh(s, th') then |th'.retired| <= |th.retired|
        else |th'.retired| + StaleRank(th'.pc, n) < |th.retired| + StaleRank(th.pc, n))
  }

  lemma SameList(s: State, s': State, th: Thread)
    requires s'.heap == s.heap && s'.head == s.head
    ensures Fresh(s', th) == Fresh(s, th)
  {
  }

  lemma QuietCloser(s: State, t: nat, th': Thread)
    requires t < |s.threads| && !Ended(s.threads[t].pc) && Progress(s, s.threads[t], th')
    ensures Work(Note(Put(s, t, th'), Quiet), t) < Work(s, t)
  {
    var s' := Note(Put(s, t, th'), Quiet);
    SameList(s, s', th');
    if !Ended(th'.pc) {
      if Fresh(s, s.threads[t]) { FreshStep(s, s', t); } else { StaleStep(s, s', t); }
    }
  }

  /** Going on at `a`, or to the end of the lookup, when it is what `prev` leads to. */
  lemma GoToProgress(s: State, th: Thread, a: Addr)
    ensures var th' := GoTo(th, a);
      && th'.prev == th.prev && th'.retired == th.retired && !th'.pc.ReadHead?
      && (Leads(s, th.prev, a) ==> Fresh(s, th'))
      && FreshRank(th'.pc, |s.threads|) <= 8 && (!Ended(th'.pc) ==> StaleRank(th'.pc, |s.threads|) <= 2)
  {
  }

  lemma ReadHeadCloser(s: State, t: nat)
    requires t < |s.threads| && s.threads[t].pc.ReadHead?
    ensures Work(DoReadHead(s, t), t) < Work(s, t)
  {
    var th := s.threads[t].(prev := Head, wit := |s.log|);
    GoToProgress(s, th, s.head);
    QuietCloser(s, t, GoTo(th, s.head));
  }

  lemma PublishCloser(s: State, t: nat)
    requires t < |s.threads| && s.threads[t].pc.Publish?
    ensures Work(DoPublish(s, t), t) < Work(s, t)
  {
    QuietCloser(s, t, s.threads[t].(hp0 := s.threads[t].cur, pc := Validate));
  }

  lemma ValidateCloser(s: State, t: nat)
    requires t < |s.threads| && s.threads[t].pc.Validate? && LocNode(s.threads[t].prev) <= s.heap.Keys
    ensures Work(DoValidate(s, t), t) < Work(s, t)
  {
    var th := s.threads[t];
    QuietCloser(s, t, if Holds(s, th.prev, th.cur) then th.(pc := ReadNext) else Restart(th));
  }

  lemma ReadNextCloser(s: State, t: nat)
    requires t < |s.threads| && s.threads[t].pc.ReadNext? && s.threads[t].cur in s.heap
    ensures Work(DoReadNext(s, t), t) < Work(s, t)
  {
    var th := s.threads[t];
    var n := s.heap[th.cur];
    QuietCloser(s, t, th.(next := n.next, wit := |s.log|, pc := if n.marked then Unlink else ReadKey));
  }

  lemma ReadKeyCloser(s: State, t: nat)
    requires t < |s.threads| && s.threads[t].pc.ReadKey? && s.threads[t].cur in s.heap
    ensures Work(DoReadKey(s, t), t) < Work(s, t)
  {
    QuietCloser(s, t, s.threads[t].(curKey := s.heap[s.threads[t].cur].key, pc := Recheck));
  }

  lemma RecheckCloser(s: State, t: nat)
    requires t < |s.threads| && s.threads[t].pc.Recheck? && LocNode(s.threads[t].prev) <= s.heap.Keys
    ensures Work(DoRecheck(s, t), t) < Work(s, t)
  {
    var th := s.threads[t];
    var th' :=
      if !Holds(s, th.prev, th.cur) then Restart(th)
      else if th.curKey == th.key then AfterLookup(th, true)
      else if th.curKey > th.key then AfterLookup(th.(wit := |s.log|), false)
      else th.(pc := Advance);
    QuietCloser(s, t, th');
  }

  lemma AdvanceMidCloser(s: State, t: nat)
    requires t < |s.threads| && s.threads[t].pc.AdvanceMid? && s.threads[t].prev == NextOf(s.threads[t].cur)
    ensures Work(DoAdvanceMid(s, t), t) < Work(s, t)
  {
    var th := s.threads[t].(hp1 := s.threads[t].cur);
    GoToProgress(s, th, th.next);
    QuietCloser(s, t, GoTo(th, th.next));
  }

  lemma AfterRetireProgress(s: State, th: Thread, last: bool)
    ensures var th' := AfterRetire(th, last);
      && th'.prev == th.prev && th'.retired == th.retired && !th'.pc.ReadHead?
      && (last || Leads(s, th.prev, th.next) ==> Fresh(s, th'))
      && FreshRank(th'.pc, |s.threads|) <= 8 && (!Ended(th'.pc) ==> StaleRank(th'.pc, |s.threads|) <= 2)
      && (Ended(th'.pc) || Fresh(s, th') == Leads(s, th.prev, th.next))
  {
    GoToProgress(s, th, th.next);
  }

  lemma RetireCloser(s: State, t: nat)
    requires t < |s.threads| && s.threads[t].pc.Retire?
    ensures Work(DoRetire(s, t), t) < Work(s, t)
  {
    var th := s.threads[t];
    var th1 := th.(retired := th.retired + {th.cur});
    assert |th1.retired| <= |th.retired| + 1;
    AfterRetireProgress(s, th1, th.pc.last);
    QuietCloser(s, t, if |th1.retired| > s.maxRetired then th1.(pc := Scan(th.pc.last, 0, 0, {}))
                      else AfterRetire(th1, th.pc.last));
  }

  lemma ScanCloser(s: State, t: nat)
    requires t < |s.threads| && s.threads[t].pc.Scan? && s.threads[t].pc.slot <= 1
    ensures Work(DoScan(s, t), t) < Work(s, t)
  {
    var th := s.threads[t];
    var pc := th.pc;
    var pc' :=
      if pc.thread >= |s.threads| then Free(pc.last, pc.active)
      else if pc.slot == 0 then pc.(slot := 1, active := Seen(pc.active, s.threads[pc.thread].hp0))
      else pc.(thread := pc.thread + 1, slot := 0, active := Seen(pc.active, s.threads[pc.thread].hp1));
    QuietCloser(s, t, th.(pc := pc'));
  }

  // ----- steps that pass a node, or change the heap -----

  /** The node that a fresh thread looks at is linked, behind its location. */
  lemma CurIsAhead(s: State, t: nat)
    requires Inv(s) && t < |s.threads| && Leads(s, s.threads[t].prev, s.threads[t].cur)
    requires UsesPrev(s.threads[t].pc) && HoldsCur(s.threads[t].pc) && s.threads[t].cur != NULL
    ensures var th := s.threads[t];
      && th.cur in Ahead(s.heap, th.prev)
      && (th.prev.NextOf? ==> s.heap[th.prev.node].status.Linked? && s.heap[th.prev.node].key < s.heap[th.cur].key)
  {
    var th := s.threads[t];
    assert ThreadOk(s, t);
    assert LocNode(th.prev) <= Protected(th);
    Successor(s, th.prev, th.cur);
  }

  lemma FewerBehind(heap: map<Addr, Node>, loc: Loc, a: Addr)
    requires a in Ahead(heap, loc)
    ensures Ahead(heap, NextOf(a)) <= Ahead(heap, loc) - {a}
  {
  }

  lemma AdvanceCloser(s: State, t: nat)
    requires Inv(s) && t < |s.threads| && s.threads[t].pc.Advance?
    ensures Work(DoAdvance(s, t), t) < Work(s, t)
  {
    var th, s' := s.threads[t], DoAdvance(s, t);
    var th1 := th.(prev := NextOf(th.cur), hp0 := th.hp1, hp1 := th.hp0);
    GoToProgress(s, th1, th.next);
    SameList(s, s', s'.threads[t]);
    assert ThreadOk(s, t);
    if Fresh(s, th) {
      CurIsAhead(s, t);
      FewerBehind(s.heap, th.prev, th.cur);
      NodeStep(s, s', t, th.cur);
    } else if !Ended(s'.threads[t].pc) {
      StaleStep(s, s', t);
    }
  }

  lemma UnlinkMovesOn(s: State, t: nat, last: bool)
    requires Inv(s) && t < |s.threads| && s.threads[t].pc == (if last then UnlinkCas else Unlink)
    requires Leads(s, s.threads[t].prev, s.threads[t].cur)
    ensures var s', th := DoUnlink(s, t, last), s.threads[t];
      && th.cur in Ahead(s.heap, th.prev) && Leads(s', th.prev, th.next)
      && Ahead(s'.heap, th.prev) <= Ahead(s.heap, th.prev) - {th.cur}
  {
    assert ThreadOk(s, t);
    CurIsAhead(s, t);
  }

  lemma UnlinkCloser(s: State, t: nat, last: bool)
    requires Inv(s) && t < |s.threads| && s.threads[t].pc == (if last then UnlinkCas else Unlink)
    requires LocNode(s.threads[t].prev) <= s.heap.Keys
    ensures Work(DoUnlink(s, t, last), t) < Work(s, t)
  {
    var th := s.threads[t];
    if Holds(s, th.prev, th.cur) {
      UnlinkMovesOn(s, t, last);
      NodeStep(s, DoUnlink(s, t, last), t, th.cur);
    } else {
      QuietCloser(s, t, Restart(th));
    }
  }

  /** One node that is not linked changes, or goes. */
  ghost predicate Aside(s: State, s': State, a: Addr) {
    && s'.head == s.head && (a in s.heap ==> !s.heap[a].status.Linked?)
    && (a in s'.heap ==> !s'.heap[a].status.Linked?) && s'.heap - {a} == s.heap - {a}
  }

  lemma AsideKeeps(s: State, s': State, a: Addr, loc: Loc)
    requires Aside(s, s', a)
    ensures Shrinks(s.heap, s'.heap)
    ensures !(a in LocNode(loc)) ==> Ahead(s'.heap, loc) <= Ahead(s.heap, loc)
    ensures forall b :: !(a in LocNode(loc)) && Leads(s, loc, b) ==> Leads(s', loc, b)
  {
    forall b | b != a ensures (b in s.heap <==> b in s'.heap) && (b in s.heap ==> s'.heap[b] == s.heap[b]) {
      SameAt(s.heap, s'.heap, a, b);
    }
  }

  lemma SameAt(h: map<Addr, Node>, h': map<Addr, Node>, a: Addr, b: Addr)
    requires h - {a} == h' - {a} && a != b
    ensures (b in h <==> b in h') && (b in h ==> h'[b] == h[b])
  {
    assert b in h <==> b in h - {a};
    assert b in h' <==> b in h' - {a};
    if b in h { assert (h - {a})[b] == h[b] && (h' - {a})[b] == h'[b]; }
  }

  /** A location that leads somewhere is the head, or in a linked node. */
  lemma PrevIsLinked(s: State, t: nat, a: Addr)
    requires Inv(s) && t < |s.threads| && UsesPrev(s.threads[t].pc) && Leads(s, s.threads[t].prev, a)
    ensures forall b :: b in LocNode(s.threads[t].prev) ==> s.heap[b].status.Linked?
  {
    assert ThreadOk(s, t);
    assert LocNode(s.threads[t].prev) <= Protected(s.threads[t]);
    Successor(s, s.threads[t].prev, a);
  }

  lemma LinkNewCloser(s: State, t: nat)
    requires Inv(s) && t < |s.threads| && s.threads[t].pc.LinkNew? && s.threads[t].node in s.heap
    ensures Work(DoLinkNew(s, t), t) < Work(s, t)
  {
    var th, s' := s.threads[t], DoLinkNew(s, t);
    assert ThreadOk(s, t);
    assert s'.heap - {th.node} == s.heap - {th.node};
    AsideKeeps(s, s', th.node, th.prev);
    if Fresh(s, th) {
      PrevIsLinked(s, t, th.cur);
      FreshStep(s, s', t);
    } else {
      StaleStep(s, s', t);
    }
  }

  lemma InsertCloser(s: State, t: nat)
    requires t < |s.threads| && s.threads[t].pc.InsertCas? && LocNode(s.threads[t].prev) <= s.heap.Keys
    ensures Work(DoInsertCas(s, t), t) < Work(s, t)
  {
    var th := s.threads[t];
    if !Holds(s, th.prev, th.cur) { QuietCloser(s, t, Restart(th)); }
  }

  lemma MarkKeeps(s: State, t: nat)
    requires Inv(s) && t < |s.threads| && s.threads[t].pc.MarkCas?
    ensures s.threads[t].cur in s.heap
    ensures var heap' := s.heap[s.threads[t].cur := s.heap[s.threads[t].cur].(marked := true)];
      Shrinks(s.heap, heap') && Ahead(heap', s.threads[t].prev) <= Ahead(s.heap, s.threads[t].prev)
  {
    assert ThreadOk(s, t);
  }

  lemma MarkCloser(s: State, t: nat)
    requires Inv(s) && t < |s.threads| && s.threads[t].pc.MarkCas? && s.threads[t].cur in s.heap
    ensures Work(DoMarkCas(s, t), t) < Work(s, t)
  {
    var th, s' := s.threads[t], DoMarkCas(s, t);
    assert ThreadOk(s, t);
    if s.heap[th.cur].next == th.next && !s.heap[th.cur].marked {
      MarkKeeps(s, t);
      if Fresh(s, th) {
        CurIsAhead(s, t);
        FreshStep(s, s', t);
      } else {
        StaleStep(s, s', t);
      }
    } else {
      QuietCloser(s, t, Restart(th));
    }
  }

  lemma FreeOneCloser(s: State, t: nat, a: Addr)
    requires Inv(s) && t < |s.threads| && s.threads[t].pc.Free? && a in s.threads[t].retired
    ensures
      var th' := s.threads[t].(retired := s.threads[t].retired - {a});
      Work(Note(Put(s.(heap := s.heap - {a}), t, th'), Quiet), t) < Work(s, t)
  {
    var th := s.threads[t];
    var s' := Note(Put(s.(heap := s.heap - {a}), t, th.(retired := th.retired - {a})), Quiet);
    assert ThreadOk(s, t);
    assert s'.heap - {a} == s.heap - {a};
    AsideKeeps(s, s', a, th.prev);
    if Fresh(s, th) {
      if !th.pc.last { PrevIsLinked(s, t, th.next); }
      FreedAhead(s, s', t, a);
      FreshStep(s, s', t);
    } else {
      StaleStep(s, s', t);
    }
  }

  lemma FreedAhead(s: State, s': State, t: nat, a: Addr)
    requires t < |s.threads| && a in s.heap && !s.heap[a].status.Linked? && s'.heap == s.heap - {a}
    ensures Ahead(s'.heap, s.threads[t].prev) <= Ahead(s.heap, s.threads[t].prev)
  {
  }

  lemma FreeCloser(s: State, t: nat, c: Choice)
    requires Inv(s) && t < |s.threads| && s.threads[t].pc.Free? && Allowed(s, t, c)
    ensures Work(DoFree(s, t, c), t) < Work(s, t)
  {
    var th := s.threads[t];
    if th.retired <= th.pc.active {
      AfterRetireProgress(s, th, th.pc.last);
      QuietCloser(s, t, AfterRetire(th, th.pc.last));
    } else {
      FreeOneCloser(s, t, c.addr);
    }
  }

  // ----- the bound -----

  predicate Walking(pc: Pc) {
    || pc.ReadHead? || pc.Publish? || pc.Validate? || pc.ReadNext? || pc.ReadKey? || pc.Recheck?
    || pc.Advance? || pc.AdvanceMid?
  }

  lemma WalkIsCloser(s: State, t: nat, c: Choice)
    requires Inv(s) && t < |s.threads| && Walking(s.threads[t].pc) && Touches(s.threads[t]) <= s.heap.Keys
    ensures |Do(s, t, c).threads| == |s.threads| && Work(Do(s, t, c), t) < Work(s, t)
  {
    assert ThreadOk(s, t);
    match s.threads[t].pc
    case ReadHead => ReadHeadCloser(s, t);
    case Publish => PublishCloser(s, t);
    case Validate => ValidateCloser(s, t);
    case ReadNext => ReadNextCloser(s, t);
    case ReadKey => ReadKeyCloser(s, t);
    case Recheck => RecheckCloser(s, t);
    case Advance => AdvanceCloser(s, t);
    case AdvanceMid => AdvanceMidCloser(s, t);
  }

  predicate IsReclaiming(pc: Pc) {
    pc.Retire? || pc.Scan? || pc.Free?
  }

  lemma ReclaimIsCloser(s: State, t: nat, c: Choice)
    requires Inv(s) && t < |s.threads| && IsReclaiming(s.threads[t].pc) && Allowed(s, t, c)
    requires Touches(s.threads[t]) <= s.heap.Keys
    ensures |Do(s, t, c).threads| == |s.threads| && Work(Do(s, t, c), t) < Work(s, t)
  {
    assert ThreadOk(s, t);
    match s.threads[t].pc
    case Retire(_) => RetireCloser(s, t);
    case Scan(_, _, _, _) => ScanCloser(s, t);
    case Free(_, _) => FreeCloser(s, t, c);
  }

  lemma DeleteCloser(s: State, t: nat)
    requires t < |s.threads| && s.threads[t].pc.DeleteNew?
    ensures Work(DoDeleteNew(s, t), t) < Work(s, t)
  {
  }

  lemma ChangeIsCloser(s: State, t: nat, c: Choice)
    requires Inv(s) && t < |s.threads| && Touches(s.threads[t]) <= s.heap.Keys
    requires !Walking(s.threads[t].pc) && !IsReclaiming(s.threads[t].pc) && !Ended(s.threads[t].pc)
    ensures |Do(s, t, c).threads| == |s.threads| && Work(Do(s, t, c), t) < Work(s, t)
  {
    match s.threads[t].pc
    case Unlink => UnlinkCloser(s, t, false);
    case DeleteNew => DeleteCloser(s, t);
    case LinkNew => LinkNewCloser(s, t);
    case InsertCas => InsertCloser(s, t);
    case MarkCas => MarkCloser(s, t);
    case UnlinkCas => UnlinkCloser(s, t, true);
  }

  /** Every step of a call leaves less to do. */
  lemma StepIsCloser(s: State, s': State, t: nat, c: Choice)
    requires Inv(s) && StepBy(s, s', t, c) && !Ended(s.threads[t].pc)
    ensures t < |s'.threads| && Work(s', t) < Work(s, t)
  {
    StepKeepsInv(s, s', t, c);
    if Walking(s.threads[t].pc) {
      WalkIsCloser(s, t, c);
    } else if IsReclaiming(s.threads[t].pc) {
      ReclaimIsCloser(s, t, c);
    } else {
      ChangeIsCloser(s, t, c);
    }
  }

  /** The same, with the return itself. */
  ghost function StepsLeft(s: State, t: nat): nat
    requires t < |s.threads|
  {
    if s.threads[t].pc.Idle? then 0 else Work(s, t) + 1
  }

  lemma StepIsCounted(s: State, s': State, t: nat, c: Choice)
    requires Inv(s) && StepBy(s, s', t, c) && !s.threads[t].pc.Idle?
    ensures t < |s'.threads| && StepsLeft(s', t) < StepsLeft(s, t)
  {
    if !s.threads[t].pc.Return? { StepIsCloser(s, s', t, c); }
  }

  /** Step `i` is one of thread `t`, inside a call. */
  ghost predicate StepsAlone(run: seq<State>, i: nat, t: nat) {
    && i + 1 < |run| && t < |run[i].threads| && !run[i].threads[t].pc.Idle?
    && StepOf(run[i], run[i + 1], t)
  }

  ghost predicate StepOf(s: State, s': State, t: nat) {
    exists c :: StepBy(s, s', t, c)
  }

  /** A thread that runs alone, from any reachable state, returns from its call within
      `StepsLeft` steps: a number that grows with the nodes in the list to pass or
      unlink, with the threads whose slots are scanned, and with the nodes to free. */
  lemma {:induction false} AloneReturns(run: seq<State>, i: nat, j: nat, t: nat)
    requires IsRun(run) && SwapIsSafe(run[0]) && i <= j < |run| && t < |run[i].threads|
    requires forall k: nat :: i <= k < j ==> StepsAlone(run, k, t)
    ensures t < |run[j].threads| && StepsLeft(run[j], t) + (j - i) <= StepsLeft(run[i], t)
    decreases j
  {
    if i < j {
      AloneReturns(run, i, j - 1, t);
      RunKeepsInv(run, j - 1);
      assert StepsAlone(run, j - 1, t);
      var c :| StepBy(run[j - 1], run[j], t, c);
      StepIsCounted(run[j - 1], run[j], t, c);
    }
  }

  lemma AllSeen(retired: set<Addr>, active: set<Addr>)
    ensures (forall a :: a in retired ==> a in active) ==> retired <= active
  {
    if forall a :: a in retired ==> a in active { assert retired <= active; }
  }

  /** And it can always take its next step. */
  lemma NeverBlocked(run: seq<State>, i: nat, t: nat) returns (s': State)
    requires IsRun(run) && SwapIsSafe(run[0]) && i < |run| && t < |run[i].threads| && !run[i].threads[t].pc.Idle?
    ensures StepOf(run[i], s', t)
  {
    NoThreadFaults(run, i, t);
    var s := run[i];
    var c := Choice(Lookup, 0, NULL);
    if s.threads[t].pc.Free? {
      var th := s.threads[t];
      if !(th.retired <= th.pc.active) {
        AllSeen(th.retired, th.pc.active);
        var a :| a in th.retired && a !in th.pc.active;
        c := c.(addr := a);
      }
    }
    s' := Do(s, t, c);
    assert StepBy(s, s', t, c);
  }
}
