/**
 What holds in every run of the lock-free list, for any number of threads and
 any interleaving: memory safety, the shape of the list, single retirement and
 linearizability.  The hazard-slot exchange is one step, or there is one thread;
 ListSwapTheorem shows that nothing weaker will do.
 */
module ListTheorems {
  import opened ListModel
  import opened ListInvariant
  import opened ListSteps
  import opened ListCas

  /** Every step keeps the invariant, and touches only allocated memory. */
  lemma StepKeepsInv(s: State, s': State, t: nat, c: Choice)
    requires Inv(s) && StepBy(s, s', t, c)
    ensures Touches(s.threads[t]) <= s.heap.Keys
    ensures Inv(s')
  {
    assert ThreadOk(s, t);
    match s.threads[t].pc
    case Idle => BeginOk(s, t, c);
    case ReadHead => ReadHeadOk(s, t);
    case Publish => PublishOk(s, t);
    case Validate => ValidateOk(s, t);
    case ReadNext => ReadNextOk(s, t);
    case Unlink => UnlinkOk(s, t, false);
    case ReadKey => ReadKeyOk(s, t);
    case Recheck => RecheckOk(s, t);
    case Advance => AdvanceOk(s, t);
    case AdvanceMid => AdvanceMidOk(s, t);
    case DeleteNew => DeleteNewOk(s, t);
    case LinkNew => LinkNewOk(s, t);
    case InsertCas => InsertOk(s, t);
    case MarkCas => MarkOk(s, t);
    case UnlinkCas => UnlinkOk(s, t, true);
    case Retire(_) => ListSteps.RetireOk(s, t);
    case Scan(_, _, _, _) => ScanOkStep(s, t);
    case Free(_, _) => FreeOk(s, t, c);
    case Return(_) => ReturnOk(s, t);
  }

  lemma {:induction false} RunKeepsInv(run: seq<State>, i: nat)
    requires IsRun(run) && SwapIsSafe(run[0]) && i < |run|
    ensures Inv(run[i])
  {
    if i == 0 {
      InitInv(run[0]);
    } else {
      RunKeepsInv(run, i - 1);
      assert NextAt(run, i - 1);
      NextKeepsInv(run[i - 1], run[i]);
    }
  }

  lemma NextKeepsInv(s: State, s': State)
    requires Inv(s) && Next(s, s')
    ensures Inv(s')
  {
    var t: nat, c :| StepBy(s, s', t, c);
    StepKeepsInv(s, s', t, c);
  }

  // ----- memory safety -----

  /** No thread ever dereferences, compares-and-swaps through or frees memory
      that is not allocated. */
  lemma NoThreadFaults(run: seq<State>, i: nat, t: nat)
    requires IsRun(run) && SwapIsSafe(run[0]) && i < |run| && t < |run[i].threads|
    ensures !run[i].threads[t].pc.Fault?
    ensures Touches(run[i].threads[t]) <= run[i].heap.Keys
  {
    RunKeepsInv(run, i);
    var s := run[i];
    assert ThreadOk(s, t);
    var c := Choice(Lookup, 0, 0);
    if s.threads[t].pc.Free? {
      assert forall a :: a in s.threads[t].retired ==> a in s.heap;
    } else {
      assert Allowed(s, t, c);
      StepKeepsInv(s, if Touches(s.threads[t]) <= s.heap.Keys then Do(s, t, c) else Crash(s, t), t, c);
    }
  }

  /** A node that disappears from the heap is protected by no thread. */
  lemma FreedNodeIsUnprotected(run: seq<State>, i: nat, a: Addr, u: nat)
    requires IsRun(run) && SwapIsSafe(run[0]) && i + 1 < |run| && u < |run[i].threads|
    requires a in run[i].heap && a !in run[i + 1].heap
    ensures a !in Protected(run[i].threads[u])
  {
    RunKeepsInv(run, i);
    assert NextAt(run, i);
    var t: nat, c :| StepBy(run[i], run[i + 1], t, c);
    FreedInStep(run[i], run[i + 1], t, c, a, u);
  }

  lemma FreedInStep(s: State, s': State, t: nat, c: Choice, a: Addr, u: nat)
    requires Inv(s) && StepBy(s, s', t, c) && u < |s.threads| && a in s.heap && a !in s'.heap
    ensures a !in Protected(s.threads[u])
  {
    assert Touches(s.threads[t]) <= s.heap.Keys by { StepKeepsInv(s, s', t, c); }
    FreeingSteps(s, t, c, a);
    if s.threads[t].pc.Free? {
      UnseenUnprotected(s, t, a, u);
    } else {
      assert ThreadOk(s, t);
      PrivateUnprotected(s, a, u);
    }
  }

  /** The steps that free memory. */
  lemma FreeingSteps(s: State, t: nat, c: Choice, a: Addr)
    requires t < |s.threads| && Touches(s.threads[t]) <= s.heap.Keys && !s.threads[t].pc.Fault? && Allowed(s, t, c)
    requires a in s.heap && a !in Do(s, t, c).heap
    ensures
      var th := s.threads[t];
      (th.pc.Free? && a == c.addr && a in th.retired - th.pc.active) || (th.pc.DeleteNew? && a == th.node)
  {
  }

  // ----- the shape of the list -----

  /** `p` is the sequence of nodes met when following `next` from the head. */
  ghost predicate IsPath(s: State, p: seq<Addr>) {
    && (|p| > 0 ==> p[0] == s.head)
    && (forall i :: 0 <= i < |p| ==> p[i] in s.heap)
    && (forall i, j :: 0 <= i && j == i + 1 && j < |p| ==> p[j] == s.heap[p[i]].next)
  }

  /** The path ends in NULL and meets every linked node. */
  ghost predicate IsFullPath(s: State, p: seq<Addr>) {
    && IsPath(s, p)
    && (if |p| == 0 then s.head == NULL else s.heap[p[|p| - 1]].next == NULL)
    && forall a :: a in s.heap && s.heap[a].status.Linked? ==> a in p
  }

  lemma PathFollowsChain(s: State, p: seq<Addr>, c: seq<Addr>)
    requires HeapOk(s.heap, s.head) && IsPath(s, p) && IsChain(s.heap, s.head, c)
    ensures p <= c
  {
    if |p| == 0 {
    } else if |p| == 1 {
    } else {
      var q := p[..|p| - 1];
      PathFollowsChain(s, q, c);
      assert q[|q| - 1] == p[|p| - 2] == c[|p| - 2];
      assert LinksOn(s.heap, c, |p| - 2);
      assert p[|p| - 1] == s.heap[p[|p| - 2]].next;
    }
  }

  /** In every reachable state the list is finite and strictly increasing, and
      following `next` from the head visits exactly the nodes that an insert
      linked and no one has unlinked; an unmarked inserted node is one of them. */
  lemma ListShape(run: seq<State>, i: nat)
    requires IsRun(run) && SwapIsSafe(run[0]) && i < |run|
    ensures forall p, j, k :: IsPath(run[i], p) && 0 <= j < k < |p| ==> run[i].heap[p[j]].key < run[i].heap[p[k]].key
    ensures forall p, a :: IsPath(run[i], p) && a in p ==> run[i].heap[a].status.Linked?
    ensures exists p :: IsFullPath(run[i], p)
    ensures forall a :: a in run[i].heap && !run[i].heap[a].marked && !run[i].heap[a].status.Private? ==>
      run[i].heap[a].status.Linked?
  {
    RunKeepsInv(run, i);
    var s := run[i];
    var c :| IsChain(s.heap, s.head, c);
    forall p | IsPath(s, p) ensures p <= c { PathFollowsChain(s, p, c); }
    forall i, j | 0 <= i && j == i + 1 && j < |c| ensures c[j] == s.heap[c[i]].next { assert LinksOn(s.heap, c, i); }
    assert IsPath(s, c);
    if |c| > 0 { assert LinksOn(s.heap, c, |c| - 1); }
    assert IsFullPath(s, c);
  }

  /** A node that stays allocated in a step is left alone, or is the new node of
      the thread that moves, or is linked and then either has its successor
      changed while unmarked, or is marked, or is unlinked once marked. */
  lemma NodesStep(s: State, s': State, t: nat, c: Choice, a: Addr)
    requires Inv(s) && StepBy(s, s', t, c)
    requires a in s.heap && a in s'.heap
    ensures NodeKept(s.heap[a], s'.heap[a], t)
    ensures t < |s'.threads| && (s'.heap[a].status.Unlinked? && !s.heap[a].status.Unlinked? ==>
      s'.threads[t].pc.Retire? && s'.threads[t].cur == a)
  {
    StepKeepsInv(s, s', t, c);
    assert ThreadOk(s, t);
    var pc := s.threads[t].pc;
    if Heapless(pc) {
      HeaplessHeap(s, t, c);
    } else if pc.Unlink? || pc.UnlinkCas? {
      UnlinkNodes(s, t, pc.UnlinkCas?, a);
    } else if pc.InsertCas? {
      InsertNodes(s, t, a);
    } else {
      OwnNodes(s, s', t, c, a);
    }
  }

  /** Steps of a call that leave the heap alone. */
  predicate Heapless(pc: Pc) {
    || pc.ReadHead? || pc.Publish? || pc.Validate? || pc.ReadNext? || pc.ReadKey? || pc.Recheck?
    || pc.Advance? || pc.AdvanceMid? || pc.Retire? || pc.Scan? || pc.Return?
  }

  lemma HeaplessHeap(s: State, t: nat, c: Choice)
    requires t < |s.threads| && Heapless(s.threads[t].pc) && Touches(s.threads[t]) <= s.heap.Keys
    ensures Do(s, t, c).heap == s.heap && |Do(s, t, c).threads| == |s.threads|
  {
  }

  lemma OwnNodes(s: State, s': State, t: nat, c: Choice, a: Addr)
    requires t < |s.threads| && ThreadOk(s, t) && HeapOk(s.heap, s.head) && StepBy(s, s', t, c)
    requires Touches(s.threads[t]) <= s.heap.Keys && a in s.heap && a in s'.heap
    requires var pc := s.threads[t].pc; pc.Idle? || pc.DeleteNew? || pc.LinkNew? || pc.Free? || pc.MarkCas?
    ensures NodeKept(s.heap[a], s'.heap[a], t)
    ensures |s'.threads| == |s.threads| && (s'.heap[a].status.Unlinked? ==> s.heap[a].status.Unlinked?)
  {
    if s.threads[t].pc.MarkCas? { assert s.threads[t].cur in Protected(s.threads[t]); }
  }

  lemma UnlinkNodes(s: State, t: nat, last: bool, a: Addr)
    requires t < |s.threads| && ThreadOk(s, t) && HeapOk(s.heap, s.head)
    requires s.threads[t].pc == (if last then UnlinkCas else Unlink)
    requires a in s.heap && LocNode(s.threads[t].prev) <= s.heap.Keys
    ensures
      var s' := DoUnlink(s, t, last);
      && a in s'.heap && NodeKept(s.heap[a], s'.heap[a], t)
      && (s'.heap[a].status.Unlinked? && !s.heap[a].status.Unlinked? ==>
            s'.threads[t].pc.Retire? && s'.threads[t].cur == a)
  {
    var th := s.threads[t];
    assert th.cur in Protected(th) && LocNode(th.prev) <= Protected(th);
    if Holds(s, th.prev, th.cur) {
      Successor(s, th.prev, th.cur);
      UnlinkKept(s, th.prev, th.next, th.cur, t);
    }
  }

  lemma InsertNodes(s: State, t: nat, a: Addr)
    requires t < |s.threads| && ThreadOk(s, t) && HeapOk(s.heap, s.head) && s.threads[t].pc.InsertCas?
    requires a in s.heap && LocNode(s.threads[t].prev) <= s.heap.Keys
    ensures
      var s' := DoInsertCas(s, t);
      && a in s'.heap && NodeKept(s.heap[a], s'.heap[a], t)
      && (s'.heap[a].status.Unlinked? ==> s.heap[a].status.Unlinked?)
  {
    var th := s.threads[t];
    assert LocNode(th.prev) <= Protected(th);
    if Holds(s, th.prev, th.cur) {
      Successor(s, th.prev, th.cur);
      InsertKept(s, th.prev, th.cur, th.node, t);
    }
  }

  /** Once marked, the two halves of a node's `next` never change again. */
  lemma MarkedIsFrozen(s: State, s': State, t: nat, c: Choice, a: Addr)
    requires Inv(s) && StepBy(s, s', t, c)
    requires a in s.heap && s.heap[a].marked && a in s'.heap
    ensures s'.heap[a].marked && s'.heap[a].next == s.heap[a].next && s'.heap[a].key == s.heap[a].key
  {
    NodesStep(s, s', t, c, a);
  }

  function Rank(st: Status): nat {
    match st
    case Private(_) => 0
    case Linked => 1
    case Unlinked(_) => 2
  }

  /** Between its allocation and its reclamation a node is linked at most once
      and unlinked at most once, by one thread, which goes on to retire it. */
  lemma NodeLifeGoesForward(s: State, s': State, t: nat, c: Choice, a: Addr)
    requires Inv(s) && StepBy(s, s', t, c)
    requires a in s.heap && a in s'.heap
    ensures t < |s'.threads|
    ensures Rank(s.heap[a].status) <= Rank(s'.heap[a].status)
    ensures s.heap[a].status.Unlinked? ==> s'.heap[a].status == s.heap[a].status
    ensures s'.heap[a].status.Unlinked? && !s.heap[a].status.Unlinked? ==>
      && s.heap[a].status.Linked? && s.heap[a].marked
      && s'.heap[a].status == Unlinked(t) && s'.threads[t].pc.Retire? && s'.threads[t].cur == a
  {
    NodesStep(s, s', t, c, a);
  }

  /** A node enters a retired list once: it is in none before, it is then in
      exactly one, and it is no longer reachable from the head. */
  lemma RetiredOnce(run: seq<State>, i: nat, t: nat)
    requires IsRun(run) && SwapIsSafe(run[0]) && i < |run| && t < |run[i].threads|
    requires run[i].threads[t].pc.Retire?
    ensures forall u :: 0 <= u < |run[i].threads| ==> run[i].threads[t].cur !in run[i].threads[u].retired
    ensures forall p :: IsPath(run[i], p) ==> run[i].threads[t].cur !in p
    ensures forall u, v :: 0 <= u < v < |run[i].threads| ==> run[i].threads[u].retired !! run[i].threads[v].retired
    ensures forall u, p, a ::
      0 <= u < |run[i].threads| && IsPath(run[i], p) && a in run[i].threads[u].retired ==> a !in p
  {
    RunKeepsInv(run, i);
    var s := run[i];
    ListShape(run, i);
    forall u | 0 <= u < |s.threads|
      ensures forall a :: a in s.threads[u].retired ==> a in s.heap && s.heap[a].status == Unlinked(u)
      ensures s.threads[t].cur !in s.threads[u].retired
    {
      assert ThreadOk(s, u) && ThreadOk(s, t);
    }
    assert ThreadOk(s, t);
  }

  ghost predicate OwnersInRange(s: State) {
    forall a :: a in s.heap ==>
      match s.heap[a].status
      case Private(u) => u < |s.threads|
      case Linked => true
      case Unlinked(u) => u < |s.threads|
  }

  lemma {:induction false} OwnersStayInRange(run: seq<State>, i: nat)
    requires IsRun(run) && i < |run|
    ensures OwnersInRange(run[i])
  {
    if i > 0 {
      OwnersStayInRange(run, i - 1);
      var _ := RunStep(run, i);
    }
  }

  ghost predicate InTransit(th: Thread, a: Addr) {
    a in th.retired || (th.pc.Retire? && th.cur == a)
  }

  /** No node is lost: an unlinked node that has not been freed is in a retired
      list, or is about to be put there. */
  lemma NothingLeaks(run: seq<State>, i: nat, a: Addr)
    requires IsRun(run) && SwapIsSafe(run[0]) && i < |run|
    requires a in run[i].heap && run[i].heap[a].status.Unlinked?
    ensures exists u :: 0 <= u < |run[i].threads| && InTransit(run[i].threads[u], a)
  {
    RunKeepsInv(run, i);
    OwnersStayInRange(run, i);
    var u := run[i].heap[a].status.who;
    assert ThreadOk(run[i], u) && InTransit(run[i].threads[u], a);
  }

  // ----- linearizability -----

  /** The abstract set changes only at the linking CAS of an insert, which adds
      a key that was absent, and at the marking CAS of a remove, which takes
      out a key that was present. */
  lemma SetChangesOnlyAtCas(s: State, s': State, t: nat, c: Choice)
    requires Inv(s) && StepBy(s, s', t, c) && Keys(s'.heap) != Keys(s.heap)
    ensures
      var k := s.threads[t].key;
      || (s.threads[t].pc.InsertCas? && k !in Keys(s.heap) && Keys(s'.heap) == Keys(s.heap) + {k})
      || (s.threads[t].pc.MarkCas? && k in Keys(s.heap) && Keys(s'.heap) == Keys(s.heap) - {k})
  {
    StepKeepsInv(s, s', t, c);
    if s.threads[t].pc.InsertCas? {
      InsertIsLegal(s, t);
    } else if s.threads[t].pc.MarkCas? {
      MarkIsLegal(s, t);
    } else {
      OthersAreQuiet(s, t, c);
      QuietIsLegal(s, s');
    }
  }

  lemma InsertIsLegal(s: State, t: nat)
    requires t < |s.threads| && s.threads[t].pc.InsertCas? && LocNode(s.threads[t].prev) <= s.heap.Keys
    requires LogOk(s) && LogOk(DoInsertCas(s, t)) && Keys(DoInsertCas(s, t).heap) != Keys(s.heap)
    ensures var k := s.threads[t].key; k !in Keys(s.heap) && Keys(DoInsertCas(s, t).heap) == Keys(s.heap) + {k}
  {
    var s' := DoInsertCas(s, t);
    assert Legal(s'.log[|s.log| - 1].keys, s'.log[|s.log|]);
  }

  lemma MarkIsLegal(s: State, t: nat)
    requires t < |s.threads| && s.threads[t].pc.MarkCas? && s.threads[t].cur in s.heap
    requires LogOk(s) && LogOk(DoMarkCas(s, t)) && Keys(DoMarkCas(s, t).heap) != Keys(s.heap)
    ensures var k := s.threads[t].key; k in Keys(s.heap) && Keys(DoMarkCas(s, t).heap) == Keys(s.heap) - {k}
  {
    var s' := DoMarkCas(s, t);
    assert Legal(s'.log[|s.log| - 1].keys, s'.log[|s.log|]);
  }

  lemma OthersAreQuiet(s: State, t: nat, c: Choice)
    requires t < |s.threads| && Touches(s.threads[t]) <= s.heap.Keys
    requires !s.threads[t].pc.Fault? && !s.threads[t].pc.InsertCas? && !s.threads[t].pc.MarkCas?
    ensures var s' := Do(s, t, c); s'.log == s.log + [Moment(Keys(s'.heap), Quiet)]
  {
  }

  lemma QuietIsLegal(s: State, s': State)
    requires LogOk(s) && LogOk(s') && s'.log == s.log + [Moment(Keys(s'.heap), Quiet)]
    ensures Keys(s'.heap) == Keys(s.heap)
  {
    assert Legal(s'.log[|s.log| - 1].keys, s'.log[|s.log|]);
  }

  predicate SameCall(a: Thread, b: Thread) {
    !a.pc.Idle? && !b.pc.Idle? && a.start == b.start && a.op == b.op && a.key == b.key
  }

  predicate HandedOutBy(st: Status, t: nat) {
    st.Linked? || st == Private(t) || st == Unlinked(t)
  }

  /** A step of thread `t`: it moves no other thread, it appends one moment to
      the history, it hands nodes to no other thread, and `t` stays in its call
      or begins or ends one. */
  ghost predicate Moved(s: State, s': State, t: nat) {
    && t < |s.threads| == |s'.threads|
    && (forall u :: 0 <= u < |s.threads| && u != t ==> s'.threads[u] == s.threads[u])
    && |s'.log| == |s.log| + 1
    && s'.log[..|s.log|] == s.log
    && s'.log[|s.log|].keys == Keys(s'.heap)
    && (forall a :: a in s'.heap && (a !in s.heap || s'.heap[a].status != s.heap[a].status) ==>
          HandedOutBy(s'.heap[a].status, t))
    && (s'.threads[t].pc.Idle? ||
        (if s.threads[t].pc.Idle? then s'.threads[t].start == |s.log| else SameCall(s.threads[t], s'.threads[t])))
  }

  lemma NoteMoves(s: State, heap: map<Addr, Node>, head: Addr, t: nat, th: Thread, e: Effect)
    requires t < |s.threads|
    requires forall a :: a in heap && (a !in s.heap || heap[a].status != s.heap[a].status) ==>
      HandedOutBy(heap[a].status, t)
    requires th.pc.Idle? || (if s.threads[t].pc.Idle? then th.start == |s.log| else SameCall(s.threads[t], th))
    ensures Moved(s, Note(Put(s.(heap := heap, head := head), t, th), e), t)
  {
  }

  lemma HeaplessMoves(s: State, t: nat, c: Choice)
    requires t < |s.threads| && Heapless(s.threads[t].pc) && Touches(s.threads[t]) <= s.heap.Keys
    ensures Moved(s, Do(s, t, c), t)
  {
    NoteMoves(s, s.heap, s.head, t, Do(s, t, c).threads[t], Quiet);
  }

  lemma InsertMoves(s: State, t: nat)
    requires t < |s.threads| && s.threads[t].pc.InsertCas? && Touches(s.threads[t]) <= s.heap.Keys
    ensures Moved(s, DoInsertCas(s, t), t)
  {
    var th := s.threads[t];
    if Holds(s, th.prev, th.cur) {
      var s1 := SetStatus(Store(s, th.prev, th.node), th.node, Linked);
      NoteMoves(s, s1.heap, s1.head, t, th.(node := NULL, point := |s.log|, pc := Return(true)), Added(t, th.key));
    } else {
      NoteMoves(s, s.heap, s.head, t, Restart(th), Quiet);
    }
  }

  lemma MarkMoves(s: State, t: nat)
    requires t < |s.threads| && s.threads[t].pc.MarkCas? && Touches(s.threads[t]) <= s.heap.Keys
    ensures Moved(s, DoMarkCas(s, t), t)
  {
    var s' := DoMarkCas(s, t);
    NoteMoves(s, s'.heap, s'.head, t, s'.threads[t], s'.log[|s.log|].effect);
  }

  lemma UnlinkMoves(s: State, t: nat, last: bool)
    requires t < |s.threads| && s.threads[t].pc == (if last then UnlinkCas else Unlink)
    requires Touches(s.threads[t]) <= s.heap.Keys
    ensures Moved(s, DoUnlink(s, t, last), t)
  {
    var th := s.threads[t];
    if Holds(s, th.prev, th.cur) {
      var s1 := SetStatus(Store(s, th.prev, th.next), th.cur, Unlinked(t));
      NoteMoves(s, s1.heap, s1.head, t, th.(wit := |s.log|, pc := Retire(last)), Quiet);
    } else {
      NoteMoves(s, s.heap, s.head, t, Restart(th), Quiet);
    }
  }

  lemma OwnMoves(s: State, t: nat, c: Choice)
    requires t < |s.threads| && Touches(s.threads[t]) <= s.heap.Keys
    requires s.threads[t].pc.Idle? || s.threads[t].pc.DeleteNew? || s.threads[t].pc.LinkNew? || s.threads[t].pc.Free?
    ensures Moved(s, Do(s, t, c), t)
  {
    var s' := Do(s, t, c);
    NoteMoves(s, s'.heap, s.head, t, s'.threads[t], Quiet);
  }

  lemma StepMoves(s: State, s': State, t: nat, c: Choice)
    requires StepBy(s, s', t, c)
    ensures Moved(s, s', t)
  {
    var pc := s.threads[t].pc;
    if !(Touches(s.threads[t]) <= s.heap.Keys) {
      NoteMoves(s, s.heap, s.head, t, s.threads[t].(pc := Fault), Quiet);
    } else if Heapless(pc) {
      HeaplessMoves(s, t, c);
    } else if pc.InsertCas? {
      InsertMoves(s, t);
    } else if pc.MarkCas? {
      MarkMoves(s, t);
    } else if pc.Unlink? || pc.UnlinkCas? {
      UnlinkMoves(s, t, pc.UnlinkCas?);
    } else {
      OwnMoves(s, t, c);
    }
  }

  /** The step that leads to state `i` of a run. */
  lemma RunStep(run: seq<State>, i: nat) returns (t: nat)
    requires IsRun(run) && 0 < i < |run|
    ensures Moved(run[i - 1], run[i], t)
  {
    assert NextAt(run, i - 1);
    var c;
    t, c :| StepBy(run[i - 1], run[i], t, c);
    StepMoves(run[i - 1], run[i], t, c);
  }

  /** The log is the history of the abstract set along the run. */
  lemma {:induction false} LogIsHistory(run: seq<State>, i: nat, m: nat)
    requires IsRun(run) && m <= i < |run|
    ensures |run[i].log| == i + 1
    ensures run[i].log[m].keys == Keys(run[m].heap)
  {
    if i == 0 {
      assert Keys(run[0].heap) == {};
    } else {
      var _ := RunStep(run, i);
      LogIsHistory(run, i - 1, if m < i then m else 0);
    }
  }

  /** Throughout `[start, i]` the thread has been in the call it is in now. */
  lemma {:induction false} CallSpansRun(run: seq<State>, i: nat, t: nat)
    requires IsRun(run) && i < |run| && t < |run[i].threads|
    requires !run[i].threads[t].pc.Idle?
    ensures
      var th := run[i].threads[t];
      && 0 < th.start <= i
      && t < |run[th.start - 1].threads|
      && run[th.start - 1].threads[t].pc.Idle?
      && forall m :: th.start <= m <= i ==> t < |run[m].threads| && SameCall(run[m].threads[t], th)
  {
    if i > 0 {
      var _ := RunStep(run, i);
      LogIsHistory(run, i - 1, 0);
      if !run[i - 1].threads[t].pc.Idle? { CallSpansRun(run, i - 1, t); }
    }
  }

  /** What the sequential set does for one operation, as a relation between the
      sets before and after it and the boolean it returns. */
  predicate SetSpec(op: Op, key: int, result: bool, before: set<int>, after: set<int>) {
    match op
    case Insert => result == (key !in before) && after == before + {key}
    case Remove => result == (key in before) && after == before - {key}
    case Lookup => result == (key in before) && after == before
  }

  /** Step `j` of the run is the call of thread `t` with these arguments. */
  ghost predicate BeginsAt(run: seq<State>, j: nat, t: nat, c: Choice) {
    && 0 < j < |run| && t < |run[j - 1].threads| && run[j - 1].threads[t].pc.Idle?
    && StepBy(run[j - 1], run[j], t, c)
  }

  /** What a thread works on is what it was called with. */
  lemma CallBegan(run: seq<State>, i: nat, t: nat) returns (c: Choice)
    requires IsRun(run) && i < |run| && t < |run[i].threads| && !run[i].threads[t].pc.Idle?
    ensures
      var th := run[i].threads[t];
      && 0 < th.start <= i && BeginsAt(run, th.start, t, c)
      && forall c' :: BeginsAt(run, th.start, t, c') ==> c'.op == th.op && c'.key == th.key
  {
    CallSpansRun(run, i, t);
    var j := run[i].threads[t].start;
    assert SameCall(run[j].threads[t], run[i].threads[t]);
    assert NextAt(run, j - 1);
    var u: nat, c0 :| StepBy(run[j - 1], run[j], u, c0);
    StepMoves(run[j - 1], run[j], u, c0);
    c := c0;
    forall c' | BeginsAt(run, j, t, c') ensures c'.op == run[i].threads[t].op && c'.key == run[i].threads[t].key {
      BeginKeepsArguments(run[j - 1], run[j], t, c');
    }
  }

  lemma BeginKeepsArguments(s: State, s': State, t: nat, c: Choice)
    requires StepBy(s, s', t, c) && s.threads[t].pc.Idle?
    ensures t < |s'.threads| && s'.threads[t].op == c.op && s'.threads[t].key == c.key
  {
  }

  /** At moment `m` the sequential set gives `result` for this operation: a
      successful insert or remove is the step that changes the set there, any other
      call leaves the set alone, and no other step since `start` is one of `t` that
      changes the set. */
  ghost predicate TakesEffect(run: seq<State>, i: nat, t: nat, start: nat, m: nat, op: Op, key: int, result: bool)
    requires 0 < m <= i < |run| && |run[i].log| == i + 1
  {
    var effective := result && !op.Lookup?;
    && (if effective
        then SetSpec(op, key, true, Keys(run[m - 1].heap), Keys(run[m].heap))
        else SetSpec(op, key, result, Keys(run[m].heap), Keys(run[m].heap)))
    && (effective ==> By(run[i].log[m].effect, t))
    && (forall j :: start <= j < |run[i].log| && By(run[i].log[j].effect, t) ==> effective && j == m)
  }

  lemma EffectOfThread(run: seq<State>, i: nat, t: nat) returns (m: nat)
    requires IsRun(run) && SwapIsSafe(run[0]) && i < |run| && t < |run[i].threads|
    requires run[i].threads[t].pc.Return?
    ensures
      var th := run[i].threads[t];
      && 0 < th.start <= m <= i && |run[i].log| == i + 1
      && TakesEffect(run, i, t, th.start, m, th.op, th.key, th.pc.result)
  {
    RunKeepsInv(run, i);
    var s := run[i];
    var th := s.threads[t];
    assert ThreadOk(s, t);
    LogIsHistory(run, i, i);
    if th.point != 0 {
      m := th.point;
      LogIsHistory(run, i, m);
      LogIsHistory(run, i, m - 1);
      assert Legal(s.log[m - 1].keys, s.log[m]);
    } else {
      m := th.wit;
      LogIsHistory(run, i, m);
    }
  }

  /** Linearizability.  A call that was made with some operation and key, and is
      about to return `result`, has a point between its first step and now at which
      the sequential set gives `result` for that operation and key. */
  lemma Linearizable(run: seq<State>, i: nat, t: nat) returns (m: nat, c: Choice)
    requires IsRun(run) && SwapIsSafe(run[0]) && i < |run| && t < |run[i].threads|
    requires run[i].threads[t].pc.Return?
    ensures
      var th := run[i].threads[t];
      && 0 < th.start <= m <= i && |run[i].log| == i + 1 && BeginsAt(run, th.start, t, c)
      && forall c' :: BeginsAt(run, th.start, t, c') ==>
           TakesEffect(run, i, t, th.start, m, c'.op, c'.key, th.pc.result)
  {
    m := EffectOfThread(run, i, t);
    c := CallBegan(run, i, t);
  }
}
