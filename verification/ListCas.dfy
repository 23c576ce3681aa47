/** The three compare-and-swap steps of the lock-free list keep the invariant. */
module ListCas {
  import opened ListModel
  import opened ListInvariant
  import opened ListSteps

  // ----- what the updates do to the chain -----

  /** The heap after location `i` of the chain (0 is the head) points to `a`. */
  ghost function Aim(heap: map<Addr, Node>, c: seq<Addr>, i: nat, a: Addr): map<Addr, Node>
    requires i <= |c| && (i > 0 ==> c[i - 1] in heap)
  {
    if i == 0 then heap else heap[c[i - 1] := heap[c[i - 1]].(next := a)]
  }

  /** `h'` keeps the nodes of the chain but for `next`, which is `b` at `i - 1`. */
  ghost predicate Aimed(h: map<Addr, Node>, h': map<Addr, Node>, x: Addr, p: Addr, b: Addr) {
    && LinkedAt(h, x) && LinkedAt(h', x)
    && h'[x].key == h[x].key
    && h'[x].next == if x == p then b else h[x].next
  }

  /** The node before position `i`, or NULL when that is the list head. */
  ghost function Before(c: seq<Addr>, i: nat): Addr
    requires i <= |c|
  {
    if i == 0 then NULL else c[i - 1]
  }

  lemma InsertSorted(h: map<Addr, Node>, h': map<Addr, Node>, c: seq<Addr>, i: nat, a: Addr, c': seq<Addr>)
    requires i <= |c| && a in h' && c' == c[..i] + [a] + c[i..]
    requires forall j :: 0 <= j < |c| ==> c[j] in h && c[j] in h' && h'[c[j]].key == h[c[j]].key
    requires forall j, k :: 0 <= j < k < |c| ==> h[c[j]].key < h[c[k]].key
    requires i > 0 ==> h[c[i - 1]].key < h'[a].key
    requires i < |c| ==> h'[a].key < h[c[i]].key
    ensures forall j, k :: 0 <= j < k < |c'| ==> c'[j] in h' && c'[k] in h' && h'[c'[j]].key < h'[c'[k]].key
  {
    forall j, k | 0 <= j < k < |c'| ensures c'[j] in h' && c'[k] in h' && h'[c'[j]].key < h'[c'[k]].key {
      if j < i - 1 && k == i { assert h[c[j]].key < h[c[i - 1]].key; }
      if j == i && k > i + 1 { assert h[c[i]].key < h[c[k - 1]].key; }
    }
  }

  lemma InsertLinks(h: map<Addr, Node>, head: Addr, c: seq<Addr>, i: nat, a: Addr, h': map<Addr, Node>, c': seq<Addr>,
                    j: nat)
    requires IsChain(h, head, c) && NULL !in h && i <= |c| && c' == c[..i] + [a] + c[i..] && j < |c'|
    requires j != i ==> Aimed(h, h', c'[j], Before(c, i), a)
    requires LinkedAt(h', a) && h'[a].next == At(c, i)
    ensures LinksOn(h', c', j)
  {
    ChainDistinct(h, head, c);
    if j < i {
      assert LinksOn(h, c, j) && c'[j] == c[j];
    } else if j > i {
      assert LinksOn(h, c, j - 1) && c'[j] == c[j - 1];
    }
  }

  lemma InsertKeepsMember(c: seq<Addr>, i: nat, a: Addr, x: Addr)
    requires i <= |c| && x in c
    ensures x in c[..i] + [a] + c[i..]
  {
    var j :| 0 <= j < |c| && c[j] == x;
    assert (c[..i] + [a] + c[i..])[if j < i then j else j + 1] == x;
  }

  lemma ChainInsert(h: map<Addr, Node>, head: Addr, c: seq<Addr>, i: nat, a: Addr, h': map<Addr, Node>)
    requires IsChain(h, head, c) && NULL !in h && i <= |c|
    requires forall x :: LinkedAt(h, x) ==> Aimed(h, h', x, Before(c, i), a)
    requires forall x :: LinkedAt(h', x) ==> x == a || LinkedAt(h, x)
    requires LinkedAt(h', a) && !LinkedAt(h, a) && h'[a].next == At(c, i)
    requires i > 0 ==> h[c[i - 1]].key < h'[a].key
    requires i < |c| ==> h'[a].key < h[c[i]].key
    ensures IsChain(h', if i == 0 then a else head, c[..i] + [a] + c[i..])
  {
    var c' := c[..i] + [a] + c[i..];
    forall j | 0 <= j < |c| ensures c[j] in h && c[j] in h' && h'[c[j]].key == h[c[j]].key {
      assert LinkedAt(h, c[j]);
    }
    InsertSorted(h, h', c, i, a, c');
    forall x | LinkedAt(h', x) ensures x in c' {
      if x != a { InsertKeepsMember(c, i, a, x); }
    }
    forall j | 0 <= j < |c'| ensures LinksOn(h', c', j) && LinkedAt(h', c'[j]) {
      if j < i { assert LinkedAt(h, c[j]); } else if j > i { assert LinkedAt(h, c[j - 1]); }
      InsertLinks(h, head, c, i, a, h', c', j);
    }
  }

  lemma RemoveLinks(h: map<Addr, Node>, head: Addr, c: seq<Addr>, i: nat, h': map<Addr, Node>, c': seq<Addr>, j: nat)
    requires IsChain(h, head, c) && NULL !in h && i < |c| && c' == c[..i] + c[i + 1..] && j < |c'|
    requires Aimed(h, h', c'[j], Before(c, i), At(c, i + 1))
    ensures LinksOn(h', c', j)
  {
    ChainDistinct(h, head, c);
    if j < i {
      assert LinksOn(h, c, j) && c'[j] == c[j];
    } else {
      assert LinksOn(h, c, j + 1) && c'[j] == c[j + 1];
    }
  }

  lemma RemoveSorted(h: map<Addr, Node>, h': map<Addr, Node>, c: seq<Addr>, i: nat, c': seq<Addr>)
    requires i < |c| && c' == c[..i] + c[i + 1..]
    requires forall j :: 0 <= j < |c| ==> c[j] in h
    requires forall j, k :: 0 <= j < k < |c| ==> h[c[j]].key < h[c[k]].key
    requires forall j :: 0 <= j < |c'| ==> c'[j] in h && c'[j] in h' && h'[c'[j]].key == h[c'[j]].key
    ensures forall j, k :: 0 <= j < k < |c'| ==> h'[c'[j]].key < h'[c'[k]].key
  {
  }

  lemma RemoveKeeps(h: map<Addr, Node>, head: Addr, c: seq<Addr>, i: nat, c': seq<Addr>, j: nat)
    requires IsChain(h, head, c) && i < |c| && c' == c[..i] + c[i + 1..] && j < |c'|
    ensures LinkedAt(h, c'[j]) && c'[j] != c[i]
  {
    ChainDistinct(h, head, c);
    assert c'[j] == if j < i then c[j] else c[j + 1];
  }

  lemma RemoveMembers(h: map<Addr, Node>, head: Addr, c: seq<Addr>, i: nat, h': map<Addr, Node>, c': seq<Addr>)
    requires IsChain(h, head, c) && i < |c| && c' == c[..i] + c[i + 1..]
    requires forall x :: LinkedAt(h', x) ==> LinkedAt(h, x) && x != c[i]
    ensures forall x :: LinkedAt(h', x) ==> x in c'
  {
    forall x | LinkedAt(h', x) ensures x in c' {
      var j :| 0 <= j < |c| && c[j] == x;
      assert c'[if j < i then j else j - 1] == x;
    }
  }

  lemma RemoveNode(h: map<Addr, Node>, head: Addr, c: seq<Addr>, i: nat, h': map<Addr, Node>, c': seq<Addr>, j: nat)
    requires IsChain(h, head, c) && NULL !in h && i < |c| && c' == c[..i] + c[i + 1..] && j < |c'|
    requires forall x :: LinkedAt(h, x) && x != c[i] ==> Aimed(h, h', x, Before(c, i), At(c, i + 1))
    ensures LinksOn(h', c', j) && LinkedAt(h', c'[j]) && c'[j] in h && h'[c'[j]].key == h[c'[j]].key
  {
    RemoveKeeps(h, head, c, i, c', j);
    RemoveLinks(h, head, c, i, h', c', j);
  }

  lemma RemoveNodes(h: map<Addr, Node>, head: Addr, c: seq<Addr>, i: nat, h': map<Addr, Node>, c': seq<Addr>)
    requires IsChain(h, head, c) && NULL !in h && i < |c| && c' == c[..i] + c[i + 1..]
    requires forall x :: LinkedAt(h, x) && x != c[i] ==> Aimed(h, h', x, Before(c, i), At(c, i + 1))
    ensures forall j :: 0 <= j < |c'| ==> LinksOn(h', c', j)
    ensures forall j :: 0 <= j < |c'| ==> LinkedAt(h', c'[j]) && c'[j] in h && h'[c'[j]].key == h[c'[j]].key
  {
    forall j | 0 <= j < |c'|
      ensures LinksOn(h', c', j) && LinkedAt(h', c'[j]) && c'[j] in h && h'[c'[j]].key == h[c'[j]].key
    {
      RemoveNode(h, head, c, i, h', c', j);
    }
  }

  lemma MakeChain(h: map<Addr, Node>, head: Addr, c: seq<Addr>)
    requires forall j :: 0 <= j < |c| ==> LinksOn(h, c, j)
    requires forall j :: 0 <= j < |c| ==> c[j] in h && LinkedAt(h, c[j])
    requires forall j, k :: 0 <= j < k < |c| ==> h[c[j]].key < h[c[k]].key
    requires forall x :: LinkedAt(h, x) ==> x in c
    requires head == At(c, 0)
    ensures IsChain(h, head, c)
  {
    assert forall a :: a in h && h[a].status.Linked? ==> LinkedAt(h, a);
  }

  lemma ChainRemove(h: map<Addr, Node>, head: Addr, c: seq<Addr>, i: nat, h': map<Addr, Node>, c': seq<Addr>)
    requires IsChain(h, head, c) && NULL !in h && i < |c| && c' == c[..i] + c[i + 1..]
    requires forall x :: LinkedAt(h, x) && x != c[i] ==> Aimed(h, h', x, Before(c, i), At(c, i + 1))
    requires forall x :: LinkedAt(h', x) ==> LinkedAt(h, x) && x != c[i]
    ensures IsChain(h', if i == 0 then At(c, 1) else head, c')
  {
    RemoveNodes(h, head, c, i, h', c');
    RemoveSorted(h, h', c, i, c');
    RemoveMembers(h, head, c, i, h', c');
    MakeChain(h', if i == 0 then At(c, 1) else head, c');
  }

  lemma ChainDistinct(heap: map<Addr, Node>, head: Addr, c: seq<Addr>)
    requires IsChain(heap, head, c)
    ensures forall i, j :: 0 <= i < j < |c| ==> c[i] != c[j]
  {
    forall i, j | 0 <= i < j < |c| ensures c[i] != c[j] {
      assert heap[c[i]].key < heap[c[j]].key;
    }
  }

  /** The chain position behind a location that is unmarked and not private. */
  lemma Locate(s: State, loc: Loc, b: Addr) returns (c: seq<Addr>, i: nat)
    requires HeapOk(s.heap, s.head) && LocNode(loc) <= s.heap.Keys
    requires loc.NextOf? ==> !s.heap[loc.node].status.Private?
    requires Holds(s, loc, b)
    ensures IsChain(s.heap, s.head, c) && i <= |c| && b == At(c, i)
    ensures loc.Head? <==> i == 0
    ensures loc.NextOf? ==> c[i - 1] == loc.node
    ensures forall a :: Store(s, loc, a).heap == Aim(s.heap, c, i, a)
  {
    c :| IsChain(s.heap, s.head, c);
    if loc.Head? {
      i := 0;
    } else {
      var j :| 0 <= j < |c| && c[j] == loc.node;
      assert LinksOn(s.heap, c, j);
      i := j + 1;
    }
  }

  // ----- what the updates do to the abstract set -----

  lemma KeysSame(h: map<Addr, Node>, h': map<Addr, Node>)
    requires forall x :: (Live(h, x) <==> Live(h', x)) && (Live(h, x) ==> h'[x].key == h[x].key)
    ensures Keys(h') == Keys(h)
  {
  }

  lemma KeysAdd(h: map<Addr, Node>, h': map<Addr, Node>, a: Addr)
    requires Live(h', a)
    requires forall x :: (Live(h', x) <==> Live(h, x) || x == a) && (Live(h, x) ==> h'[x].key == h[x].key != h'[a].key)
    ensures h'[a].key !in Keys(h) && Keys(h') == Keys(h) + {h'[a].key}
  {
    assert forall x :: Live(h, x) ==> Live(h', x);
  }

  lemma KeysRemove(h: map<Addr, Node>, h': map<Addr, Node>, a: Addr)
    requires Live(h, a)
    requires forall x :: (Live(h', x) <==> Live(h, x) && x != a) && (Live(h', x) ==> h'[x].key == h[x].key != h[a].key)
    ensures h[a].key in Keys(h) && Keys(h') == Keys(h) - {h[a].key}
  {
    assert forall x :: Live(h, x) && x != a ==> Live(h', x);
  }

  /** A step that changes linked nodes as `NodeKept` allows. */
  lemma CasStep(s: State, heap: map<Addr, Node>, head: Addr, t: nat, th: Thread, e: Effect)
    requires Inv(s) && t < |s.threads| && (e.Quiet? || e.who == t)
    requires heap.Keys == s.heap.Keys && forall a :: a in heap ==> NodeKept(s.heap[a], heap[a], t)
    requires HeapOk(heap, head) && Legal(Keys(s.heap), Moment(Keys(heap), e))
    requires ThreadOk(Note(Put(s.(heap := heap, head := head), t, th), e), t)
    requires ScanSafe(s, s.threads[t], th)
    ensures Inv(Note(Put(s.(heap := heap, head := head), t, th), e))
  {
    var s' := Note(Put(s.(heap := heap, head := head), t, th), e);
    ScanKept(s, s', t);
    forall u | 0 <= u < |s.threads| && u != t ensures Rely(s, s', u) {
      assert ThreadOk(s, u);
      KeptRely(s, heap, head, t, th, e, u);
    }
    Conclude(s, s', t, e);
  }

  // ----- remove: the marking CAS -----

  lemma MarkHeap(heap: map<Addr, Node>, head: Addr, a: Addr)
    requires HeapOk(heap, head) && Live(heap, a)
    ensures
      var h' := heap[a := heap[a].(marked := true)];
      HeapOk(h', head) && heap[a].key in Keys(heap) && Keys(h') == Keys(heap) - {heap[a].key}
  {
    var h' := heap[a := heap[a].(marked := true)];
    var c :| IsChain(heap, head, c);
    forall i | 0 <= i < |c| ensures LinksOn(h', c, i) { assert LinksOn(heap, c, i); }
    assert IsChain(h', head, c);
    forall x | Live(h', x) ensures heap[x].key != heap[a].key {
      if heap[x].key == heap[a].key { LinkedKeysDistinct(heap, head, x, a); }
    }
    KeysRemove(heap, h', a);
  }

  lemma MarkThread(s: State, t: nat)
    requires Inv(s) && t < |s.threads| && s.threads[t].pc.MarkCas? && s.threads[t].cur in s.heap
    requires s.heap[s.threads[t].cur].next == s.threads[t].next && !s.heap[s.threads[t].cur].marked
    ensures ThreadOk(DoMarkCas(s, t), t)
  {
    assert ThreadOk(s, t);
  }

  lemma MarkOk(s: State, t: nat)
    requires Inv(s) && t < |s.threads| && s.threads[t].pc.MarkCas?
    ensures s.threads[t].cur in s.heap
    ensures Inv(DoMarkCas(s, t))
  {
    var th := s.threads[t];
    assert ThreadOk(s, t);
    assert th.cur in Protected(th);
    var n := s.heap[th.cur];
    if n.next == th.next && !n.marked {
      var s' := DoMarkCas(s, t);
      MarkHeap(s.heap, s.head, th.cur);
      MarkThread(s, t);
      CasStep(s, s'.heap, s.head, t, s'.threads[t], Removed(t, th.key));
    } else {
      RestartOk(s, t);
    }
  }

  // ----- insert: the linking CAS -----

  ghost predicate InsertReady(s: State, loc: Loc, b: Addr, a: Addr) {
    && HeapOk(s.heap, s.head) && LocNode(loc) <= s.heap.Keys && Holds(s, loc, b)
    && a in s.heap && s.heap[a].status.Private? && s.heap[a].next == b
    && (loc.NextOf? ==> !s.heap[loc.node].status.Private? && s.heap[loc.node].key < s.heap[a].key)
    && (b != NULL ==> b in s.heap && s.heap[a].key < s.heap[b].key)
  }

  /** A store through `loc`, and a new status for `y`, on the other linked nodes. */
  lemma StoreAims(s: State, loc: Loc, b: Addr, y: Addr, status: Status, p: Addr)
    requires LocNode(loc) <= s.heap.Keys && NULL !in s.heap && y in s.heap
    requires p == if loc.Head? then NULL else loc.node
    ensures forall x :: LinkedAt(s.heap, x) && x != y ==>
      Aimed(s.heap, SetStatus(Store(s, loc, b), y, status).heap, x, p, b)
  {
  }

  lemma InsertChain(s: State, loc: Loc, b: Addr, a: Addr, s': State)
    requires InsertReady(s, loc, b, a)
    requires s' == SetStatus(Store(s, loc, a), a, Linked)
    ensures exists c :: IsChain(s'.heap, s'.head, c)
  {
    var c, i := Locate(s, loc, b);
    StoreAims(s, loc, a, a, Linked, Before(c, i));
    assert forall x :: LinkedAt(s.heap, x) ==> x != a;
    ChainInsert(s.heap, s.head, c, i, a, s'.heap);
  }

  lemma InsertHeap(s: State, loc: Loc, b: Addr, a: Addr)
    requires InsertReady(s, loc, b, a)
    ensures var s' := SetStatus(Store(s, loc, a), a, Linked); HeapOk(s'.heap, s'.head)
  {
    InsertChain(s, loc, b, a, SetStatus(Store(s, loc, a), a, Linked));
  }

  lemma InsertKeys(s: State, loc: Loc, b: Addr, a: Addr)
    requires InsertReady(s, loc, b, a)
    ensures
      var s' := SetStatus(Store(s, loc, a), a, Linked);
      s.heap[a].key !in Keys(s.heap) && Keys(s'.heap) == Keys(s.heap) + {s.heap[a].key}
  {
    var s' := SetStatus(Store(s, loc, a), a, Linked);
    Successor(s, loc, b);
    assert forall x :: Live(s.heap, x) ==> LinkedAt(s.heap, x);
    KeysAdd(s.heap, s'.heap, a);
  }

  lemma InsertKept(s: State, loc: Loc, b: Addr, a: Addr, t: nat)
    requires LocNode(loc) <= s.heap.Keys && Holds(s, loc, b) && a in s.heap
    requires s.heap[a].status == Private(t) && (loc.NextOf? ==> s.heap[loc.node].status.Linked?)
    ensures
      var s1 := SetStatus(Store(s, loc, a), a, Linked);
      s1.heap.Keys == s.heap.Keys && forall x :: x in s.heap ==> NodeKept(s.heap[x], s1.heap[x], t)
  {
  }

  lemma InsertThread(s: State, t: nat)
    requires Inv(s) && t < |s.threads| && s.threads[t].pc.InsertCas?
    requires InsertReady(s, s.threads[t].prev, s.threads[t].cur, s.threads[t].node)
    ensures ThreadOk(DoInsertCas(s, t), t)
  {
    assert ThreadOk(s, t);
    Successor(s, s.threads[t].prev, s.threads[t].cur);
  }

  lemma InsertIsReady(s: State, t: nat)
    requires Inv(s) && t < |s.threads| && s.threads[t].pc.InsertCas?
    ensures LocNode(s.threads[t].prev) <= s.heap.Keys
    ensures Holds(s, s.threads[t].prev, s.threads[t].cur) ==>
      && InsertReady(s, s.threads[t].prev, s.threads[t].cur, s.threads[t].node)
      && s.heap[s.threads[t].node].status == Private(t) && s.heap[s.threads[t].node].key == s.threads[t].key
      && (s.threads[t].prev.NextOf? ==> s.heap[s.threads[t].prev.node].status.Linked?)
  {
    var th := s.threads[t];
    assert ThreadOk(s, t);
    assert LocNode(th.prev) <= Protected(th);
    if Holds(s, th.prev, th.cur) { Successor(s, th.prev, th.cur); }
  }

  lemma InsertOk(s: State, t: nat)
    requires Inv(s) && t < |s.threads| && s.threads[t].pc.InsertCas?
    ensures LocNode(s.threads[t].prev) <= s.heap.Keys
    ensures Inv(DoInsertCas(s, t))
  {
    var th := s.threads[t];
    InsertIsReady(s, t);
    if Holds(s, th.prev, th.cur) {
      var s' := DoInsertCas(s, t);
      assert ThreadOk(s', t) by { InsertThread(s, t); }
      InsertHeap(s, th.prev, th.cur, th.node);
      InsertKeys(s, th.prev, th.cur, th.node);
      InsertKept(s, th.prev, th.cur, th.node, t);
      CasStep(s, s'.heap, s'.head, t, s'.threads[t], Added(t, th.key));
    } else {
      RestartOk(s, t);
    }
  }

  // ----- lookupInternal and remove: the unlinking CAS -----

  ghost predicate UnlinkReady(s: State, loc: Loc, a: Addr) {
    && HeapOk(s.heap, s.head) && LocNode(loc) <= s.heap.Keys && Holds(s, loc, a)
    && (loc.NextOf? ==> !s.heap[loc.node].status.Private?)
    && a != NULL && a in s.heap && s.heap[a].marked
  }

  lemma UnlinkChain(s: State, loc: Loc, a: Addr, t: nat, s': State)
    requires UnlinkReady(s, loc, a)
    requires s' == SetStatus(Store(s, loc, s.heap[a].next), a, Unlinked(t))
    ensures exists c :: IsChain(s'.heap, s'.head, c)
  {
    Successor(s, loc, a);
    var c, i := Locate(s, loc, a);
    assert LinksOn(s.heap, c, i);
    StoreAims(s, loc, s.heap[a].next, a, Unlinked(t), Before(c, i));
    ChainRemove(s.heap, s.head, c, i, s'.heap, c[..i] + c[i + 1..]);
  }

  lemma UnlinkHeap(s: State, loc: Loc, a: Addr, t: nat)
    requires UnlinkReady(s, loc, a)
    ensures var s' := SetStatus(Store(s, loc, s.heap[a].next), a, Unlinked(t)); HeapOk(s'.heap, s'.head)
  {
    UnlinkChain(s, loc, a, t, SetStatus(Store(s, loc, s.heap[a].next), a, Unlinked(t)));
  }

  lemma UnlinkKeys(s: State, loc: Loc, a: Addr, t: nat)
    requires UnlinkReady(s, loc, a)
    ensures Keys(SetStatus(Store(s, loc, s.heap[a].next), a, Unlinked(t)).heap) == Keys(s.heap)
  {
    KeysSame(s.heap, SetStatus(Store(s, loc, s.heap[a].next), a, Unlinked(t)).heap);
  }

  /** Unlinking the last node that could hold the key shows that it is absent. */
  lemma UnlinkAbsent(s: State, loc: Loc, k: int)
    requires HeapOk(s.heap, s.head) && LocNode(loc) <= s.heap.Keys && Holds(s, loc, NULL)
    requires loc.NextOf? ==> !s.heap[loc.node].status.Private? && s.heap[loc.node].key < k
    ensures k !in Keys(s.heap)
  {
    Successor(s, loc, NULL);
    assert forall x :: Live(s.heap, x) ==> LinkedAt(s.heap, x);
  }

  lemma UnlinkOwn(s: State, t: nat, last: bool)
    requires t < |s.threads| && OwnOk(s.heap, t, s.threads[t])
    requires s.threads[t].pc == (if last then UnlinkCas else Unlink)
    requires UnlinkReady(s, s.threads[t].prev, s.threads[t].cur) && LinkedAt(s.heap, s.threads[t].cur)
    requires s.threads[t].prev.NextOf? ==> LinkedAt(s.heap, s.threads[t].prev.node)
    ensures OwnOk(DoUnlink(s, t, last).heap, t, DoUnlink(s, t, last).threads[t])
  {
  }

  lemma UnlinkPc(s: State, t: nat, last: bool)
    requires t < |s.threads| && ThreadOk(s, t)
    requires s.threads[t].pc == (if last then UnlinkCas else Unlink)
    requires UnlinkReady(s, s.threads[t].prev, s.threads[t].cur)
    requires s.threads[t].prev != NextOf(s.threads[t].cur)
    requires HeapOk(DoUnlink(s, t, last).heap, DoUnlink(s, t, last).head)
    ensures PcOk(DoUnlink(s, t, last).heap, DoUnlink(s, t, last).log, DoUnlink(s, t, last).threads[t])
  {
    var th := s.threads[t];
    if th.next == NULL && !last { UnlinkAbsent(DoUnlink(s, t, last), th.prev, th.key); }
  }

  lemma UnlinkThread(s: State, t: nat, last: bool)
    requires Inv(s) && t < |s.threads|
    requires s.threads[t].pc == (if last then UnlinkCas else Unlink)
    requires UnlinkReady(s, s.threads[t].prev, s.threads[t].cur)
    requires HeapOk(DoUnlink(s, t, last).heap, DoUnlink(s, t, last).head)
    requires Keys(DoUnlink(s, t, last).heap) == Keys(s.heap)
    ensures ThreadOk(DoUnlink(s, t, last), t)
  {
    assert ThreadOk(s, t);
    Successor(s, s.threads[t].prev, s.threads[t].cur);
    QuietCall(s, t, DoUnlink(s, t, last).threads[t]);
    UnlinkOwn(s, t, last);
    UnlinkPc(s, t, last);
  }

  lemma UnlinkKept(s: State, loc: Loc, b: Addr, a: Addr, t: nat)
    requires LocNode(loc) <= s.heap.Keys && Holds(s, loc, a) && LinkedAt(s.heap, a) && s.heap[a].marked
    requires loc.NextOf? ==> s.heap[loc.node].status.Linked?
    ensures
      var s1 := SetStatus(Store(s, loc, b), a, Unlinked(t));
      s1.heap.Keys == s.heap.Keys && forall x :: x in s.heap ==> NodeKept(s.heap[x], s1.heap[x], t)
  {
  }

  lemma UnlinkIsReady(s: State, t: nat, last: bool)
    requires Inv(s) && t < |s.threads|
    requires s.threads[t].pc == if last then UnlinkCas else Unlink
    ensures LocNode(s.threads[t].prev) <= s.heap.Keys
    ensures Holds(s, s.threads[t].prev, s.threads[t].cur) ==>
      && UnlinkReady(s, s.threads[t].prev, s.threads[t].cur) && LinkedAt(s.heap, s.threads[t].cur)
      && s.heap[s.threads[t].cur].next == s.threads[t].next
      && (s.threads[t].prev.NextOf? ==> s.heap[s.threads[t].prev.node].status.Linked?)
  {
    var th := s.threads[t];
    assert ThreadOk(s, t);
    assert LocNode(th.prev) <= Protected(th) && th.cur in Protected(th);
    if Holds(s, th.prev, th.cur) { Successor(s, th.prev, th.cur); }
  }

  /** A successful unlinking CAS. */
  lemma UnlinkDone(s: State, t: nat, last: bool)
    requires Inv(s) && t < |s.threads|
    requires s.threads[t].pc == if last then UnlinkCas else Unlink
    requires UnlinkReady(s, s.threads[t].prev, s.threads[t].cur) && LinkedAt(s.heap, s.threads[t].cur)
    requires s.heap[s.threads[t].cur].next == s.threads[t].next
    requires s.threads[t].prev.NextOf? ==> s.heap[s.threads[t].prev.node].status.Linked?
    ensures Inv(DoUnlink(s, t, last))
  {
    var th := s.threads[t];
    var s' := DoUnlink(s, t, last);
    assert HeapOk(s'.heap, s'.head) && Keys(s'.heap) == Keys(s.heap) by {
      UnlinkHeap(s, th.prev, th.cur, t);
      UnlinkKeys(s, th.prev, th.cur, t);
    }
    UnlinkConclude(s, t, last);
  }

  lemma UnlinkConclude(s: State, t: nat, last: bool)
    requires Inv(s) && t < |s.threads|
    requires s.threads[t].pc == if last then UnlinkCas else Unlink
    requires UnlinkReady(s, s.threads[t].prev, s.threads[t].cur) && LinkedAt(s.heap, s.threads[t].cur)
    requires s.threads[t].prev.NextOf? ==> s.heap[s.threads[t].prev.node].status.Linked?
    requires HeapOk(DoUnlink(s, t, last).heap, DoUnlink(s, t, last).head)
    requires Keys(DoUnlink(s, t, last).heap) == Keys(s.heap)
    ensures Inv(DoUnlink(s, t, last))
  {
    var th := s.threads[t];
    var s' := DoUnlink(s, t, last);
    UnlinkThread(s, t, last);
    UnlinkKept(s, th.prev, th.next, th.cur, t);
    CasStep(s, s'.heap, s'.head, t, s'.threads[t], Quiet);
  }

  lemma UnlinkOk(s: State, t: nat, last: bool)
    requires Inv(s) && t < |s.threads|
    requires s.threads[t].pc == if last then UnlinkCas else Unlink
    ensures LocNode(s.threads[t].prev) <= s.heap.Keys
    ensures Inv(DoUnlink(s, t, last))
  {
    UnlinkIsReady(s, t, last);
    if Holds(s, s.threads[t].prev, s.threads[t].cur) { UnlinkDone(s, t, last); } else { RestartOk(s, t); }
  }
}
