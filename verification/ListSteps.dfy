/** Every step of the lock-free list keeps the invariant. */
module ListSteps {
  import opened ListModel
  import opened ListInvariant

  // ----- steps that only change the thread's own variables -----

  /** The log grows by one moment, which no effect by `t` marks. */
  lemma QuietCall(s: State, t: nat, th: Thread)
    requires Inv(s) && t < |s.threads|
    requires !th.pc.Idle? && !s.threads[t].pc.Idle?
    requires th.start == s.threads[t].start && th.point == s.threads[t].point
    requires th.op == s.threads[t].op && th.key == s.threads[t].key
    requires th.point != 0 && !th.pc.Return? ==> th.op.Remove?
    ensures CallOk(s.log + [Moment(Keys(s.heap), Quiet)], t, th)
  {
    assert ThreadOk(s, t);
  }

  lemma ReadHeadOk(s: State, t: nat)
    requires Inv(s) && t < |s.threads| && s.threads[t].pc.ReadHead?
    ensures Inv(DoReadHead(s, t))
  {
    var th := s.threads[t];
    var th' := GoTo(th.(prev := Head, wit := |s.log|), s.head);
    assert ThreadOk(s, t);
    Successor(s, Head, s.head);
    QuietCall(s, t, th');
    LocalStep(s, t, th');
  }

  lemma PublishOk(s: State, t: nat)
    requires Inv(s) && t < |s.threads| && s.threads[t].pc.Publish?
    ensures Inv(DoPublish(s, t))
  {
    var th := s.threads[t];
    var th' := th.(hp0 := th.cur, pc := Validate);
    assert ThreadOk(s, t);
    QuietCall(s, t, th');
    LocalStep(s, t, th');
  }

  lemma ReturnOk(s: State, t: nat)
    requires Inv(s) && t < |s.threads| && s.threads[t].pc.Return?
    ensures Inv(DoReturn(s, t))
  {
    var th' := s.threads[t].(pc := Idle);
    assert ThreadOk(s, t);
    LocalStep(s, t, th');
  }

  lemma RestartOk(s: State, t: nat)
    requires Inv(s) && t < |s.threads|
    requires UsesPrev(s.threads[t].pc) && !s.threads[t].pc.Retire?
    ensures Inv(Note(Put(s, t, Restart(s.threads[t])), Quiet))
  {
    var th' := Restart(s.threads[t]);
    assert ThreadOk(s, t);
    QuietCall(s, t, th');
    LocalStep(s, t, th');
  }

  lemma ValidateOk(s: State, t: nat)
    requires Inv(s) && t < |s.threads| && s.threads[t].pc.Validate?
    ensures LocNode(s.threads[t].prev) <= s.heap.Keys
    ensures Inv(DoValidate(s, t))
  {
    var th := s.threads[t];
    assert ThreadOk(s, t);
    assert LocNode(th.prev) <= Protected(th);
    if Holds(s, th.prev, th.cur) {
      Successor(s, th.prev, th.cur);
      var th' := th.(pc := ReadNext);
      QuietCall(s, t, th');
      LocalStep(s, t, th');
    } else {
      RestartOk(s, t);
    }
  }

  /** What an unmarked `cur->next` says about the key at this very moment. */
  lemma ObserveNext(s: State, a: Addr, k: int)
    requires HeapOk(s.heap, s.head)
    requires a in s.heap && !s.heap[a].status.Private? && !s.heap[a].marked
    ensures s.heap[a].key == k ==> k in Keys(s.heap)
    ensures s.heap[a].key < k && s.heap[a].next == NULL ==> k !in Keys(s.heap)
  {
    Successor(s, NextOf(a), s.heap[a].next);
  }

  lemma ReadNextOk(s: State, t: nat)
    requires Inv(s) && t < |s.threads| && s.threads[t].pc.ReadNext?
    ensures s.threads[t].cur in s.heap
    ensures Inv(DoReadNext(s, t))
  {
    var th := s.threads[t];
    assert ThreadOk(s, t);
    assert th.cur in Protected(th);
    var n := s.heap[th.cur];
    var th' := th.(next := n.next, wit := |s.log|, pc := if n.marked then Unlink else ReadKey);
    if !n.marked { ObserveNext(s, th.cur, th.key); }
    QuietCall(s, t, th');
    LocalStep(s, t, th');
  }

  lemma ReadKeyOk(s: State, t: nat)
    requires Inv(s) && t < |s.threads| && s.threads[t].pc.ReadKey?
    ensures s.threads[t].cur in s.heap
    ensures Inv(DoReadKey(s, t))
  {
    var th := s.threads[t];
    assert ThreadOk(s, t);
    assert th.cur in Protected(th);
    var th' := th.(curKey := s.heap[th.cur].key, pc := Recheck);
    QuietCall(s, t, th');
    LocalStep(s, t, th');
  }

  /** lookupInternal found the key, and has seen it in the abstract set. */
  lemma FoundOk(s: State, t: nat)
    requires Inv(s) && t < |s.threads| && s.threads[t].pc.Recheck?
    requires s.threads[t].curKey == s.threads[t].key
    ensures Inv(Note(Put(s, t, AfterLookup(s.threads[t], true)), Quiet))
  {
    var th := s.threads[t];
    var th' := AfterLookup(th, true);
    assert ThreadOk(s, t);
    QuietCall(s, t, th');
    LocalStep(s, t, th');
  }

  /** lookupInternal stopped at a larger key, and the key is absent right now. */
  lemma PassedOk(s: State, t: nat)
    requires Inv(s) && t < |s.threads| && s.threads[t].pc.Recheck?
    requires LocNode(s.threads[t].prev) <= s.heap.Keys && Holds(s, s.threads[t].prev, s.threads[t].cur)
    requires s.threads[t].curKey > s.threads[t].key
    ensures Inv(Note(Put(s, t, AfterLookup(s.threads[t].(wit := |s.log|), false)), Quiet))
  {
    var th := s.threads[t];
    var th' := AfterLookup(th.(wit := |s.log|), false);
    assert ThreadOk(s, t);
    Successor(s, th.prev, th.cur);
    assert th.key !in Keys(s.heap);
    QuietCall(s, t, th');
    LocalStep(s, t, th');
  }

  lemma RecheckOk(s: State, t: nat)
    requires Inv(s) && t < |s.threads| && s.threads[t].pc.Recheck?
    ensures LocNode(s.threads[t].prev) <= s.heap.Keys
    ensures Inv(DoRecheck(s, t))
  {
    var th := s.threads[t];
    assert ThreadOk(s, t);
    assert LocNode(th.prev) <= Protected(th);
    if !Holds(s, th.prev, th.cur) {
      RestartOk(s, t);
    } else if th.curKey == th.key {
      FoundOk(s, t);
    } else if th.curKey > th.key {
      PassedOk(s, t);
    } else {
      var th' := th.(pc := Advance);
      QuietCall(s, t, th');
      LocalStep(s, t, th');
    }
  }

  lemma AdvanceThread(s: State, t: nat, th': Thread)
    requires t < |s.threads| && s.threads[t].pc.Advance? && ThreadOk(s, t)
    requires th' == GoTo(s.threads[t].(prev := NextOf(s.threads[t].cur), hp0 := s.threads[t].hp1,
                                       hp1 := s.threads[t].hp0), s.threads[t].next)
    requires CallOk(s.log + [Moment(Keys(s.heap), Quiet)], t, th')
    ensures ThreadOk(Note(Put(s, t, th'), Quiet), t)
  {
    assert s.threads[t].cur in Protected(s.threads[t]);
  }

  lemma AdvanceOk(s: State, t: nat)
    requires Inv(s) && t < |s.threads| && s.threads[t].pc.Advance?
    ensures Inv(DoAdvance(s, t))
  {
    if s.atomicSwap { SwapOk(s, t); } else { FirstStoreOk(s, t); }
  }

  /** The first store of an exchange in two steps. */
  lemma FirstStoreOk(s: State, t: nat)
    requires Inv(s) && t < |s.threads| && s.threads[t].pc.Advance? && !s.atomicSwap
    ensures Inv(DoAdvance(s, t))
  {
    var th := s.threads[t];
    var th' := th.(prev := NextOf(th.cur), hp0 := th.hp1, pc := AdvanceMid);
    assert ThreadOk(s, t);
    QuietCall(s, t, th');
    assert th.cur in Protected(th);
    LocalStep(s, t, th');
  }

  /** The second one. */
  lemma AdvanceMidOk(s: State, t: nat)
    requires Inv(s) && t < |s.threads| && s.threads[t].pc.AdvanceMid?
    ensures Inv(DoAdvanceMid(s, t))
  {
    var th := s.threads[t];
    var th' := GoTo(th.(hp1 := th.cur), th.next);
    assert ThreadOk(s, t);
    QuietCall(s, t, th');
    HeaplessStep(s, t, th');
  }

  lemma SwapOk(s: State, t: nat)
    requires Inv(s) && t < |s.threads| && s.threads[t].pc.Advance? && s.atomicSwap
    ensures Inv(DoAdvance(s, t))
  {
    var th := s.threads[t];
    assert ThreadOk(s, t);
    var th' := GoTo(th.(prev := NextOf(th.cur), hp0 := th.hp1, hp1 := th.hp0), th.next);
    QuietCall(s, t, th');
    AdvanceThread(s, t, th');
    assert th.cur in Protected(th);
    LocalStep(s, t, th');
  }

  // ----- reclamation -----

  /** The caller of retireNode goes on. */
  lemma ResumeThread(s: State, t: nat, th: Thread, last: bool)
    requires Inv(s) && t < |s.threads| && !s.threads[t].pc.Idle? && UsesPrev(s.threads[t].pc)
    requires th.(retired := s.threads[t].retired) == s.threads[t]
    requires ProtectOk(s.heap, th)
    requires PcOk(s.heap, s.log, th) && ListInvariant.RetireOk(s.log, th, last)
    requires OwnOk(s.heap, t, th.(pc := Free(last, {})))
    ensures ThreadOk(Note(Put(s, t, AfterRetire(th, last)), Quiet), t)
  {
    var th' := AfterRetire(th, last);
    assert ThreadOk(s, t);
    QuietCall(s, t, th');
    ResumePc(s.heap, s.log, t, th, last);
  }

  lemma ResumePc(heap: map<Addr, Node>, log: seq<Moment>, t: nat, th: Thread, last: bool)
    requires ProtectOk(heap, th) && UsesPrev(th.pc) && CallOk(log, t, th) && !th.pc.Idle?
    requires ListInvariant.RetireOk(log, th, last) && OwnOk(heap, t, th.(pc := Free(last, {})))
    requires last || th.point == 0 || th.op.Remove?
    ensures ProtectOk(heap, AfterRetire(th, last)) && OwnOk(heap, t, AfterRetire(th, last))
    ensures forall m :: PcOk(heap, log + [m], AfterRetire(th, last))
  {
  }

  lemma RetireThread(s: State, t: nat)
    requires Inv(s) && t < |s.threads| && s.threads[t].pc.Retire?
    ensures ThreadOk(DoRetire(s, t), t)
  {
    var th := s.threads[t];
    assert ThreadOk(s, t);
    var th1 := th.(retired := th.retired + {th.cur});
    if |th1.retired| > s.maxRetired {
      QuietCall(s, t, th1.(pc := Scan(th.pc.last, 0, 0, {})));
    } else {
      ResumeThread(s, t, th1, th.pc.last);
    }
  }

  /** Going on after retireNode keeps `prev`, and starts no scan. */
  lemma AfterRetireFacts(th: Thread, last: bool)
    requires UsesPrev(th.pc)
    ensures
      var th' := AfterRetire(th, last);
      && !th'.pc.Scan? && !th'.pc.Free? && th'.hp1 == th.hp1 && th'.retired == th.retired
      && Protected(th') <= LocNode(th.prev)
  {
  }

  /** A scan that has read nothing yet has missed nothing. */
  lemma FreshScan(s: State, t: nat, th': Thread, r: nat, u: nat)
    requires t < |s.threads| && r < |s.threads| && u < |s.threads|
    requires ScanOk(s, r, u)
    requires Protected(th') <= Protected(s.threads[t]) && th'.hp1 == s.threads[t].hp1
    requires !th'.pc.Free? && (th'.pc.Scan? ==> th'.pc.thread == 0 && th'.pc.slot == 0)
    ensures ScanOk(Put(s, t, th'), r, u)
  {
    var s' := Put(s, t, th');
    forall n | n in s'.threads[r].retired && n in Protected(s'.threads[u])
      ensures Covered(s'.threads[r].pc, u, s'.threads[u].hp1, n)
    {
      assert n in Protected(s.threads[u]);
    }
  }

  lemma RetireOk(s: State, t: nat)
    requires Inv(s) && t < |s.threads| && s.threads[t].pc.Retire?
    ensures Inv(DoRetire(s, t))
  {
    var th' := DoRetire(s, t).threads[t];
    RetireThread(s, t);
    AfterRetireFacts(s.threads[t].(retired := s.threads[t].retired + {s.threads[t].cur}), s.threads[t].pc.last);
    forall r, u | 0 <= r < |s.threads| && 0 <= u < |s.threads| ensures ScanOk(Put(s, t, th'), r, u) {
      assert ScanOk(s, r, u);
      FreshScan(s, t, th', r, u);
    }
    HeaplessStep(s, t, th');
  }

  lemma ScanThread(s: State, t: nat)
    requires Inv(s) && t < |s.threads| && s.threads[t].pc.Scan?
    ensures ThreadOk(DoScan(s, t), t)
  {
    assert ThreadOk(s, t);
    QuietCall(s, t, DoScan(s, t).threads[t]);
  }

  /** Reading slot 0 before slot 1 is what makes the scan complete: a node that
      its thread moves to slot 1 meanwhile is still ahead of the scan. */
  lemma ScanCovers(s: State, t: nat, u: nat, n: Addr)
    requires t < |s.threads| && s.threads[t].pc.Scan? && s.threads[t].pc.slot <= 1
    requires u < |s.threads| && n != NULL
    requires n == s.threads[u].hp0 || n == s.threads[u].hp1
    requires Covered(s.threads[t].pc, u, s.threads[u].hp1, n)
    ensures Covered(DoScan(s, t).threads[t].pc, u, s.threads[u].hp1, n)
  {
  }

  lemma ScanScan(s: State, t: nat, r: nat, u: nat)
    requires t < |s.threads| && s.threads[t].pc.Scan? && s.threads[t].pc.slot <= 1
    requires r < |s.threads| && u < |s.threads|
    requires ScanOk(s, r, u) && ProtectOk(s.heap, s.threads[u]) && NULL !in s.threads[r].retired
    ensures ScanOk(Put(s, t, DoScan(s, t).threads[t]), r, u)
  {
    var s' := Put(s, t, DoScan(s, t).threads[t]);
    assert Protected(s'.threads[u]) == Protected(s.threads[u]) && s'.threads[u].hp1 == s.threads[u].hp1;
    forall n | n in s'.threads[r].retired && n in Protected(s.threads[u])
      ensures Covered(s'.threads[r].pc, u, s.threads[u].hp1, n)
    {
      if r == t { ScanCovers(s, t, u, n); }
    }
  }

  lemma ScanOkStep(s: State, t: nat)
    requires Inv(s) && t < |s.threads| && s.threads[t].pc.Scan?
    ensures Inv(DoScan(s, t))
  {
    var th' := DoScan(s, t).threads[t];
    ScanThread(s, t);
    forall r, u | 0 <= r < |s.threads| && 0 <= u < |s.threads| ensures ScanOk(Put(s, t, th'), r, u) {
      assert ThreadOk(s, t) && ThreadOk(s, r) && ThreadOk(s, u);
      ScanScan(s, t, r, u);
    }
    HeaplessStep(s, t, th');
  }

  // ----- steps on nodes that no other thread can reach -----

  ghost predicate SameLinked(h: map<Addr, Node>, h': map<Addr, Node>) {
    forall a :: (LinkedAt(h, a) <==> LinkedAt(h', a)) && (LinkedAt(h, a) ==> h'[a] == h[a])
  }

  lemma SameLinkedChain(h: map<Addr, Node>, h': map<Addr, Node>, head: Addr, c: seq<Addr>)
    requires SameLinked(h, h') && IsChain(h, head, c)
    ensures IsChain(h', head, c)
  {
    assert forall i :: 0 <= i < |c| ==> LinkedAt(h, c[i]);
    assert forall a :: a in h' && h'[a].status.Linked? ==> LinkedAt(h', a);
    forall i | 0 <= i < |c| ensures LinksOn(h', c, i) { assert LinksOn(h, c, i); }
  }

  lemma SameLinkedKeys(h: map<Addr, Node>, h': map<Addr, Node>)
    requires SameLinked(h, h')
    ensures Keys(h') == Keys(h)
  {
    assert forall a :: Live(h, a) ==> LinkedAt(h, a) && Live(h', a);
    assert forall a :: Live(h', a) ==> LinkedAt(h', a) && Live(h, a);
  }

  lemma SameLinkedHeap(h: map<Addr, Node>, h': map<Addr, Node>, head: Addr)
    requires HeapOk(h, head) && SameLinked(h, h') && NULL !in h'
    requires forall a :: a in h' && h'[a].status.Unlinked? ==> h'[a].marked
    requires forall a :: a in h' && h'[a].status.Private? ==> !h'[a].marked
    ensures HeapOk(h', head) && Keys(h') == Keys(h)
  {
    var c :| IsChain(h, head, c);
    SameLinkedChain(h, h', head, c);
    SameLinkedKeys(h, h');
  }

  lemma HeapDrop(heap: map<Addr, Node>, head: Addr, a: Addr)
    requires HeapOk(heap, head) && a in heap && !heap[a].status.Linked?
    ensures HeapOk(heap - {a}, head) && Keys(heap - {a}) == Keys(heap)
  {
    SameLinkedHeap(heap, heap - {a}, head);
  }

  lemma HeapPrivate(heap: map<Addr, Node>, head: Addr, a: Addr, n: Node)
    requires HeapOk(heap, head) && a != NULL
    requires a in heap ==> heap[a].status.Private?
    requires n.status.Private? && !n.marked
    ensures HeapOk(heap[a := n], head) && Keys(heap[a := n]) == Keys(heap)
  {
    SameLinkedHeap(heap, heap[a := n], head);
  }

  /** Only node `a`, which belongs to `t` and is not protected, differs. */
  lemma OwnStep(s: State, s': State, t: nat, a: Addr)
    requires Inv(s) && t < |s.threads| == |s'.threads|
    requires s'.threads == s.threads[t := s'.threads[t]] && SwapIsSafe(s')
    requires s'.log == s.log + [Moment(Keys(s'.heap), Quiet)]
    requires a in s.heap ==> OwnedBy(s.heap[a], t)
    requires a in s'.heap ==> OwnedBy(s'.heap[a], t)
    requires forall b :: b != a ==> (b in s.heap <==> b in s'.heap) && (b in s.heap ==> s'.heap[b] == s.heap[b])
    requires forall u :: 0 <= u < |s.threads| && u != t ==> a !in s.heap || a !in Protected(s.threads[u])
    requires HeapOk(s'.heap, s'.head) && Keys(s'.heap) == Keys(s.heap)
    requires ThreadOk(s', t)
    requires ScanSafe(s, s.threads[t], s'.threads[t])
    ensures Inv(s')
  {
    ScanKept(s, s', t);
    forall u | 0 <= u < |s.threads| && u != t ensures Rely(s, s', u) { assert ThreadOk(s, u); }
    Conclude(s, s', t, Quiet);
  }

  lemma PrivateUnprotected(s: State, a: Addr, u: nat)
    requires Inv(s) && u < |s.threads| && a in s.heap && s.heap[a].status.Private?
    ensures a !in Protected(s.threads[u])
  {
    assert ThreadOk(s, u);
  }

  lemma BeginOk(s: State, t: nat, c: Choice)
    requires Inv(s) && t < |s.threads| && s.threads[t].pc.Idle? && Allowed(s, t, c)
    ensures Inv(Begin(s, t, c))
  {
    var s' := Begin(s, t, c);
    assert ThreadOk(s, t);
    if c.op.Insert? {
      HeapPrivate(s.heap, s.head, c.addr, Node(c.key, NULL, false, Private(t)));
      assert ThreadOk(s', t);
      OwnStep(s, s', t, c.addr);
    } else {
      LocalStep(s, t, s'.threads[t]);
    }
  }

  lemma DeleteNewOk(s: State, t: nat)
    requires Inv(s) && t < |s.threads| && s.threads[t].pc.DeleteNew?
    ensures s.threads[t].node in s.heap
    ensures Inv(DoDeleteNew(s, t))
  {
    var th := s.threads[t];
    var s' := DoDeleteNew(s, t);
    assert ThreadOk(s, t);
    HeapDrop(s.heap, s.head, th.node);
    QuietCall(s, t, s'.threads[t]);
    assert ThreadOk(s', t);
    forall u | 0 <= u < |s.threads| ensures th.node !in Protected(s.threads[u]) { PrivateUnprotected(s, th.node, u); }
    OwnStep(s, s', t, th.node);
  }

  lemma LinkNewOk(s: State, t: nat)
    requires Inv(s) && t < |s.threads| && s.threads[t].pc.LinkNew?
    ensures s.threads[t].node in s.heap
    ensures Inv(DoLinkNew(s, t))
  {
    var th := s.threads[t];
    assert ThreadOk(s, t);
    var s' := DoLinkNew(s, t);
    HeapPrivate(s.heap, s.head, th.node, s.heap[th.node].(next := th.cur));
    QuietCall(s, t, s'.threads[t]);
    forall u | 0 <= u < |s.threads| ensures th.node !in Protected(s.threads[u]) { PrivateUnprotected(s, th.node, u); }
    assert ThreadOk(s', t);
    OwnStep(s, s', t, th.node);
  }

  /** A node that a finished scan did not see is protected by nobody. */
  lemma UnseenUnprotected(s: State, t: nat, a: Addr, u: nat)
    requires Inv(s) && t < |s.threads| && u < |s.threads| && s.threads[t].pc.Free?
    requires a in s.threads[t].retired - s.threads[t].pc.active
    ensures a !in Protected(s.threads[u])
  {
    assert ScanOk(s, t, u);
  }

  lemma FreeOneOk(s: State, t: nat, c: Choice)
    requires Inv(s) && t < |s.threads| && s.threads[t].pc.Free? && Allowed(s, t, c)
    requires !(s.threads[t].retired <= s.threads[t].pc.active)
    ensures Inv(DoFree(s, t, c))
  {
    var th := s.threads[t];
    assert ThreadOk(s, t);
    var s' := DoFree(s, t, c);
    HeapDrop(s.heap, s.head, c.addr);
    QuietCall(s, t, s'.threads[t]);
    forall u | 0 <= u < |s.threads| ensures c.addr !in Protected(s.threads[u]) { UnseenUnprotected(s, t, c.addr, u); }
    assert ThreadOk(s', t);
    OwnStep(s, s', t, c.addr);
  }

  lemma RetiredAllocated(s: State, t: nat)
    requires Inv(s) && t < |s.threads|
    ensures s.threads[t].retired <= s.heap.Keys
  {
    assert ThreadOk(s, t);
    forall a | a in s.threads[t].retired ensures a in s.heap.Keys { assert a in s.heap; }
  }

  lemma FreeDoneOk(s: State, t: nat)
    requires Inv(s) && t < |s.threads| && s.threads[t].pc.Free?
    ensures Inv(Note(Put(s, t, AfterRetire(s.threads[t], s.threads[t].pc.last)), Quiet))
  {
    var th := s.threads[t];
    assert ThreadOk(s, t);
    ResumeThread(s, t, th, th.pc.last);
    AfterRetireFacts(th, th.pc.last);
    LocalStep(s, t, AfterRetire(th, th.pc.last));
  }

  lemma FreeOk(s: State, t: nat, c: Choice)
    requires Inv(s) && t < |s.threads| && s.threads[t].pc.Free? && Allowed(s, t, c)
    ensures s.threads[t].retired <= s.heap.Keys
    ensures Inv(DoFree(s, t, c))
  {
    var th := s.threads[t];
    RetiredAllocated(s, t);
    if th.retired <= th.pc.active {
      FreeDoneOk(s, t);
    } else {
      FreeOneOk(s, t, c);
    }
  }
}
