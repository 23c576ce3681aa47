/**
 Why the slot exchange of lookupInternal must be one step, or alone.

 The code exchanges the two hazard slots with two stores, in such an order that
 between them the current node is in neither slot.  For every number of threads
 above one and every scan threshold there is a run in which a node is freed at
 that moment and dereferenced afterwards: thread 0 inserts keys 2 and 1, thread 1
 looks up key 3 and stops in the middle of its exchange at the node of key 1,
 thread 0 removes that key, and then inserts and removes key 0 until a scan frees
 the node.
 */
module ListSplitSwap {
  import opened ListModel

  const quiet: Thread := Thread(Idle, Lookup, 0, Head, 0, 0, 0, 0, 0, 0, {}, 0, 0, 0)

  /** For steps that leave no choice. */
  const go: Choice := Choice(Lookup, 0, 0)

  /** A thread without its history variables. */
  function Bare(th: Thread): Thread {
    th.(start := 0, wit := 0, point := if th.point == 0 then 0 else 1)
  }

  /** Shared memory and the first two threads; the other threads do nothing. */
  datatype View = View(heap: map<Addr, Node>, head: Addr, a: Thread, b: Thread)

  function Who(v: View, t: nat): Thread {
    if t == 0 then v.a else v.b
  }

  ghost predicate At(s: State, n: nat, r: nat, v: View) {
    && s.heap == v.heap && s.head == v.head && |s.log| > 0 && !s.atomicSwap && s.maxRetired == r
    && |s.threads| == n >= 2 && Bare(s.threads[0]) == v.a && Bare(s.threads[1]) == v.b
    && forall t :: 2 <= t < n ==> s.threads[t] == quiet
  }

  ghost predicate Setup(s: State, n: nat, r: nat) {
    !s.atomicSwap && s.maxRetired == r && |s.threads| == n
  }

  ghost predicate RunTo(run: seq<State>, n: nat, r: nat, v: View) {
    IsRun(run) && Setup(run[0], n, r) && At(run[|run| - 1], n, r, v)
  }

  function With(v: View, t: nat, th: Thread): View {
    if t == 0 then v.(a := th) else v.(b := th)
  }

  /** A possible step, of a kind that the run below takes: at the head of the list,
      without interference, and not a scan, which looks at all threads. */
  predicate CanPlay(v: View, t: nat, c: Choice) {
    var th := Who(v, t);
    && t < 2 && Touches(th) <= v.heap.Keys
    && match th.pc
       case Idle => c.op.Insert? ==> c.addr !in v.heap && c.addr != NULL
       case ReadHead | Publish | Advance | AdvanceMid => true
       case Validate | Recheck | InsertCas | UnlinkCas => th.prev == Head && v.head == th.cur
       case ReadNext => !v.heap[th.cur].marked
       case ReadKey | LinkNew => true
       case MarkCas => !v.heap[th.cur].marked && v.heap[th.cur].next == th.next
       case Retire(_) => true
       case Free(_, active) => th.retired <= active || c.addr in th.retired - active
       case Return(_) => true
       case _ => false
  }

  /** What such a step does, history aside. */
  function Play(v: View, r: nat, t: nat, c: Choice): View
    requires CanPlay(v, t, c)
  {
    var th := Who(v, t);
    match th.pc
    case Idle =>
      var th' := th.(pc := ReadHead, op := c.op, key := c.key, prev := Head, node := NULL, point := 0);
      if c.op.Insert?
      then With(v.(heap := v.heap[c.addr := Node(c.key, NULL, false, Private(t))]), t, th'.(node := c.addr))
      else With(v, t, th')
    case ReadHead => With(v, t, GoTo(th.(prev := Head), v.head))
    case Publish => With(v, t, th.(hp0 := th.cur, pc := Validate))
    case Validate => With(v, t, th.(pc := ReadNext))
    case ReadNext => With(v, t, th.(next := v.heap[th.cur].next, pc := ReadKey))
    case ReadKey => With(v, t, th.(curKey := v.heap[th.cur].key, pc := Recheck))
    case Recheck =>
      With(v, t, if th.curKey >= th.key then AfterLookup(th, th.curKey == th.key) else th.(pc := Advance))
    case Advance => With(v, t, th.(prev := NextOf(th.cur), hp0 := th.hp1, pc := AdvanceMid))
    case AdvanceMid => With(v, t, GoTo(th.(hp1 := th.cur), th.next))
    case LinkNew => With(v.(heap := v.heap[th.node := v.heap[th.node].(next := th.cur)]), t, th.(pc := InsertCas))
    case InsertCas =>
      With(View(if th.node in v.heap then v.heap[th.node := v.heap[th.node].(status := Linked)] else v.heap,
                th.node, v.a, v.b), t, th.(node := NULL, point := 1, pc := Return(true)))
    case MarkCas =>
      With(v.(heap := v.heap[th.cur := v.heap[th.cur].(marked := true)]), t, th.(point := 1, pc := UnlinkCas))
    case UnlinkCas =>
      With(View(if th.cur in v.heap then v.heap[th.cur := v.heap[th.cur].(status := Unlinked(t))] else v.heap,
                th.next, v.a, v.b), t, th.(pc := Retire(true)))
    case Retire(last) =>
      var th' := th.(retired := th.retired + {th.cur});
      With(v, t, if |th'.retired| > r then th'.(pc := Scan(last, 0, 0, {})) else AfterRetire(th', last))
    case Free(last, active) =>
      if th.retired <= active then With(v, t, AfterRetire(th, last))
      else With(v.(heap := v.heap - {c.addr}), t, th.(retired := th.retired - {c.addr}))
    case Return(_) => With(v, t, th.(pc := Idle))
  }

  /** The step of thread `t` in the whole system is the one in the small system. */
  ghost predicate Follows(s: State, n: nat, r: nat, v: View, t: nat, c: Choice)
    requires CanPlay(v, t, c)
  {
    && t < |s.threads| && Allowed(s, t, c) && Touches(s.threads[t]) <= s.heap.Keys && !s.threads[t].pc.Fault?
    && At(Do(s, t, c), n, r, Play(v, r, t, c))
  }

  lemma PlayBegin(s: State, n: nat, r: nat, v: View, t: nat, c: Choice)
    requires At(s, n, r, v) && CanPlay(v, t, c)
    requires var pc := Who(v, t).pc; pc.Idle?
    ensures Follows(s, n, r, v, t, c)
  {
  }

  lemma PlayRead(s: State, n: nat, r: nat, v: View, t: nat, c: Choice)
    requires At(s, n, r, v) && CanPlay(v, t, c)
    requires var pc := Who(v, t).pc; pc.ReadHead? || pc.Publish? || pc.Validate? || pc.ReadNext? || pc.ReadKey?
    ensures Follows(s, n, r, v, t, c)
  {
  }

  lemma PlayAdvance(s: State, n: nat, r: nat, v: View, t: nat, c: Choice)
    requires At(s, n, r, v) && CanPlay(v, t, c)
    requires var pc := Who(v, t).pc; pc.Recheck? || pc.Advance? || pc.AdvanceMid?
    ensures Follows(s, n, r, v, t, c)
  {
  }

  lemma PlayLink(s: State, n: nat, r: nat, v: View, t: nat, c: Choice)
    requires At(s, n, r, v) && CanPlay(v, t, c)
    requires var pc := Who(v, t).pc; pc.LinkNew?
    ensures Follows(s, n, r, v, t, c)
  {
  }

  lemma PlayInsert(s: State, n: nat, r: nat, v: View, t: nat, c: Choice)
    requires At(s, n, r, v) && CanPlay(v, t, c)
    requires var pc := Who(v, t).pc; pc.InsertCas?
    ensures Follows(s, n, r, v, t, c)
  {
  }

  lemma PlayMark(s: State, n: nat, r: nat, v: View, t: nat, c: Choice)
    requires At(s, n, r, v) && CanPlay(v, t, c)
    requires var pc := Who(v, t).pc; pc.MarkCas?
    ensures Follows(s, n, r, v, t, c)
  {
  }

  lemma PlayUnlink(s: State, n: nat, r: nat, v: View, t: nat, c: Choice)
    requires At(s, n, r, v) && CanPlay(v, t, c)
    requires var pc := Who(v, t).pc; pc.UnlinkCas?
    ensures Follows(s, n, r, v, t, c)
  {
  }

  lemma PlayRetire(s: State, n: nat, r: nat, v: View, t: nat, c: Choice)
    requires At(s, n, r, v) && CanPlay(v, t, c)
    requires var pc := Who(v, t).pc; pc.Retire?
    ensures Follows(s, n, r, v, t, c)
  {
  }

  lemma PlayFree(s: State, n: nat, r: nat, v: View, t: nat, c: Choice)
    requires At(s, n, r, v) && CanPlay(v, t, c)
    requires var pc := Who(v, t).pc; pc.Free?
    ensures Follows(s, n, r, v, t, c)
  {
  }

  lemma PlayReturn(s: State, n: nat, r: nat, v: View, t: nat, c: Choice)
    requires At(s, n, r, v) && CanPlay(v, t, c)
    requires var pc := Who(v, t).pc; pc.Return?
    ensures Follows(s, n, r, v, t, c)
  {
  }

  lemma PlayIsStep(s: State, n: nat, r: nat, v: View, t: nat, c: Choice)
    requires At(s, n, r, v) && CanPlay(v, t, c)
    ensures Follows(s, n, r, v, t, c)
  {
    match Who(v, t).pc
    case Idle => PlayBegin(s, n, r, v, t, c);
    case Recheck | Advance | AdvanceMid => PlayAdvance(s, n, r, v, t, c);
    case LinkNew => PlayLink(s, n, r, v, t, c);
    case InsertCas => PlayInsert(s, n, r, v, t, c);
    case MarkCas => PlayMark(s, n, r, v, t, c);
    case UnlinkCas => PlayUnlink(s, n, r, v, t, c);
    case Retire(_) => PlayRetire(s, n, r, v, t, c);
    case Free(_, _) => PlayFree(s, n, r, v, t, c);
    case Return(_) => PlayReturn(s, n, r, v, t, c);
    case _ => PlayRead(s, n, r, v, t, c);
  }

  // ----- runs -----

  lemma Extend(run: seq<State>, s: State, t: nat, c: Choice)
    requires IsRun(run) && StepBy(run[|run| - 1], s, t, c)
    ensures IsRun(run + [s])
  {
    var run' := run + [s];
    forall i | 0 <= i < |run'| - 1 ensures NextAt(run', i) {
      if i < |run| - 1 { assert NextAt(run, i); }
    }
  }

  /** One more step of thread `t`. */
  lemma Step(run: seq<State>, n: nat, r: nat, v: View, t: nat, c: Choice) returns (run': seq<State>, v': View)
    requires RunTo(run, n, r, v) && CanPlay(v, t, c)
    ensures v' == Play(v, r, t, c) && RunTo(run', n, r, v')
  {
    var s := run[|run| - 1];
    PlayIsStep(s, n, r, v, t, c);
    Extend(run, Do(s, t, c), t, c);
    run', v' := run + [Do(s, t, c)], Play(v, r, t, c);
  }

  lemma Start(n: nat, r: nat) returns (run: seq<State>)
    requires n >= 2
    ensures RunTo(run, n, r, View(map[], NULL, quiet, quiet))
  {
    run := [State(map[], NULL, seq(n, _ => quiet), [Moment({}, Quiet)], false, r)];
  }

  /** Thread `t` goes from `v` to `v'` in one step. */
  ghost predicate Plays(v: View, r: nat, t: nat, c: Choice, v': View) {
    CanPlay(v, t, c) && v' == Play(v, r, t, c)
  }

  /** `vs` is a sequence of steps of thread `t`, of which the first one chooses. */
  ghost predicate IsPlay(vs: seq<View>, r: nat, t: nat, c: Choice) {
    |vs| > 0 && forall i {:trigger PlaysAt(vs, r, t, c, i)} :: 0 <= i < |vs| - 1 ==> PlaysAt(vs, r, t, c, i)
  }

  ghost predicate PlaysAt(vs: seq<View>, r: nat, t: nat, c: Choice, i: nat)
    requires i + 1 < |vs|
  {
    Plays(vs[i], r, t, if i == 0 then c else go, vs[i + 1])
  }

  lemma {:induction false} PlayOn(run0: seq<State>, n: nat, r: nat, vs: seq<View>, t: nat, c: Choice)
    returns (run: seq<State>)
    requires IsPlay(vs, r, t, c) && RunTo(run0, n, r, vs[0])
    ensures RunTo(run, n, r, vs[|vs| - 1])
    decreases |vs|
  {
    var k := |vs| - 1;
    if k == 0 {
      run := run0;
    } else {
      forall i | 0 <= i < k - 1 ensures PlaysAt(vs[..k], r, t, c, i) { assert PlaysAt(vs, r, t, c, i); }
      run := PlayOn(run0, n, r, vs[..k], t, c);
      assert PlaysAt(vs, r, t, c, k - 1);
      var v;
      run, v := Step(run, n, r, vs[k - 1], t, if k == 1 then c else go);
    }
  }

  /** Five steps. */
  lemma Five(run0: seq<State>, n: nat, r: nat, t: nat, c: Choice,
             v0: View, v1: View, v2: View, v3: View, v4: View, v5: View)
    returns (run: seq<State>)
    requires RunTo(run0, n, r, v0)
    requires Plays(v0, r, t, c, v1) && Plays(v1, r, t, go, v2) && Plays(v2, r, t, go, v3)
    requires Plays(v3, r, t, go, v4) && Plays(v4, r, t, go, v5)
    ensures RunTo(run, n, r, v5)
  {
    run := PlayOn(run0, n, r, [v0, v1, v2, v3, v4, v5], t, c);
  }

  // ----- inserting and removing at the front -----

  /** Thread 0 inserts a key into an empty list. */
  lemma InsertFirst(run0: seq<State>, n: nat, r: nat, v0: View, key: int, a: Addr) returns (run: seq<State>, v: View)
    requires RunTo(run0, n, r, v0) && v0.a.pc.Idle? && v0.head == NULL && a != NULL && a !in v0.heap
    ensures RunTo(run, n, r, v) && v.heap == v0.heap[a := Node(key, NULL, false, Linked)] && v.head == a
    ensures v.b == v0.b && v.a.pc.Idle? && v.a.hp1 == v0.a.hp1 && v.a.retired == v0.a.retired
  {
    var c := Choice(Insert, key, a);
    var th := v0.a.(op := Insert, key := key, prev := Head, cur := NULL, node := a, point := 0);
    var v1 := View(v0.heap[a := Node(key, NULL, false, Private(0))], NULL, th.(cur := v0.a.cur, pc := ReadHead), v0.b);
    var v2 := v1.(a := th.(pc := LinkNew));
    var v3 := v1.(a := th.(pc := InsertCas));
    var v4 := View(v0.heap[a := Node(key, NULL, false, Linked)], a, th.(node := NULL, point := 1, pc := Return(true)),
                   v0.b);
    v := v4.(a := v4.a.(pc := Idle));
    run := Five(run0, n, r, 0, c, v0, v1, v2, v3, v4, v);
  }

  /** A thread looks at the first node, and stops before it reads its key. */
  lemma ReachFirst(run0: seq<State>, n: nat, r: nat, v0: View, t: nat, c: Choice, th: Thread, h: map<Addr, Node>)
    returns (run: seq<State>)
    requires RunTo(run0, n, r, v0) && CanPlay(v0, t, c) && Who(v0, t).pc.Idle?
    requires Play(v0, r, t, c) == With(v0.(heap := h), t, th) && th.pc.ReadHead?
    requires v0.head in h && v0.head != NULL && !h[v0.head].marked
    ensures RunTo(run, n, r, With(v0.(heap := h), t,
      th.(prev := Head, cur := v0.head, hp0 := v0.head, next := h[v0.head].next, pc := ReadKey)))
  {
    var v := v0.(heap := h);
    var at := th.(prev := Head, cur := v0.head);
    var held := at.(hp0 := v0.head);
    run := Five(run0, n, r, t, c, v0, With(v, t, th), With(v, t, at.(pc := Publish)), With(v, t, held.(pc := Validate)),
                With(v, t, held.(pc := ReadNext)), With(v, t, held.(next := h[v0.head].next, pc := ReadKey)));
  }

  /** Thread 0 inserts a key in front of a larger one. */
  lemma InsertFront(run0: seq<State>, n: nat, r: nat, v0: View, key: int, a: Addr) returns (run: seq<State>, v: View)
    requires RunTo(run0, n, r, v0) && v0.a.pc.Idle? && a != NULL && a !in v0.heap
    requires v0.head != NULL && v0.head in v0.heap && !v0.heap[v0.head].marked && key < v0.heap[v0.head].key
    ensures RunTo(run, n, r, v) && v.heap == v0.heap[a := Node(key, v0.head, false, Linked)] && v.head == a
    ensures v.b == v0.b && v.a.pc.Idle? && v.a.hp1 == v0.a.hp1 && v.a.retired == v0.a.retired
  {
    var c := Choice(Insert, key, a);
    var y := v0.head;
    var h := v0.heap[a := Node(key, NULL, false, Private(0))];
    var th := v0.a.(op := Insert, key := key, prev := Head, node := a, point := 0);
    run := ReachFirst(run0, n, r, v0, 0, c, th.(pc := ReadHead), h);
    th := th.(cur := y, hp0 := y, next := v0.heap[y].next);
    var found := th.(curKey := v0.heap[y].key);
    var v5 := View(h, y, th.(pc := ReadKey), v0.b);
    var v8 := View(h[a := Node(key, y, false, Private(0))], y, found.(pc := InsertCas), v0.b);
    v := View(v0.heap[a := Node(key, y, false, Linked)], a, found.(node := NULL, point := 1, pc := Idle), v0.b);
    run := Five(run, n, r, 0, go, v5, v5.(a := found.(pc := Recheck)), v5.(a := found.(pc := LinkNew)), v8,
                v.(a := v.a.(pc := Return(true))), v);
  }

  /** retireNode, up to the scan. */
  function RetireTest(th: Thread, r: nat): Thread {
    var retired := th.retired + {th.cur};
    th.(retired := retired, pc := if |retired| > r then Scan(true, 0, 0, {}) else Return(true))
  }

  /** Thread 0 removes the first key, up to the test whether it has to scan. */
  lemma RemoveFront(run0: seq<State>, n: nat, r: nat, v0: View) returns (run: seq<State>, v: View)
    requires RunTo(run0, n, r, v0) && v0.a.pc.Idle?
    requires v0.head != NULL && v0.head in v0.heap && !v0.heap[v0.head].marked
    ensures
      var a := v0.head;
      && RunTo(run, n, r, v) && v.b == v0.b && v.head == v0.heap[a].next
      && v.heap == v0.heap[a := v0.heap[a].(marked := true, status := Unlinked(0))]
      && v.a.retired == v0.a.retired + {a} && v.a.hp0 == a && v.a.hp1 == v0.a.hp1
      && v.a.pc == (if |v.a.retired| > r then Scan(true, 0, 0, {}) else Return(true))
  {
    var c := Choice(Remove, v0.heap[v0.head].key, NULL);
    var th := v0.a.(op := Remove, key := c.key, prev := Head, node := NULL, point := 0);
    run := ReachFirst(run0, n, r, v0, 0, c, th.(pc := ReadHead), v0.heap);
    th := th.(cur := v0.head, hp0 := v0.head, next := v0.heap[v0.head].next, pc := ReadKey);
    run, v := RemoveFound(run, n, r, v0.(a := th));
  }

  lemma RemoveFound(run0: seq<State>, n: nat, r: nat, v0: View) returns (run: seq<State>, v: View)
    requires RunTo(run0, n, r, v0) && v0.head in v0.heap && !v0.heap[v0.head].marked
    requires
      var th := v0.a;
      && th.pc.ReadKey? && th.op.Remove? && th.point == 0 && th.prev == Head
      && th.cur == v0.head && th.key == v0.heap[v0.head].key && th.next == v0.heap[v0.head].next
    ensures
      var a := v0.head;
      && RunTo(run, n, r, v) && v.b == v0.b && v.head == v0.heap[a].next
      && v.heap == v0.heap[a := v0.heap[a].(marked := true, status := Unlinked(0))]
      && v.a.retired == v0.a.retired + {a} && v.a.hp0 == v0.a.hp0 && v.a.hp1 == v0.a.hp1
      && v.a.pc == (if |v.a.retired| > r then Scan(true, 0, 0, {}) else Return(true))
  {
    var a := v0.head;
    var node := v0.heap[a];
    var found := v0.a.(curKey := node.key);
    var v2 := v0.(a := found.(pc := MarkCas));
    var v3 := v0.(heap := v0.heap[a := node.(marked := true)], a := found.(point := 1, pc := UnlinkCas));
    var v4 := View(v0.heap[a := node.(marked := true, status := Unlinked(0))], node.next,
                   found.(point := 1, pc := Retire(true)), v0.b);
    v := v4.(a := RetireTest(v4.a, r));
    run := Five(run0, n, r, 0, go, v0, v0.(a := found.(pc := Recheck)), v2, v3, v4, v);
  }

  // ----- scanning -----

  /** What a scan sees in the slots of thread `k`. */
  function Slots(v: View, k: nat, active: set<Addr>): set<Addr> {
    if k < 2 then Seen(Seen(active, Who(v, k).hp0), Who(v, k).hp1) else active
  }

  function Scanning(v: View, k: nat, slot: nat, active: set<Addr>): View {
    v.(a := v.a.(pc := Scan(true, k, slot, active)))
  }

  lemma ScanOne(run0: seq<State>, n: nat, r: nat, v: View, k: nat, active: set<Addr>) returns (run: seq<State>)
    requires RunTo(run0, n, r, Scanning(v, k, 0, active)) && k < n
    ensures RunTo(run, n, r, Scanning(v, k + 1, 0, Slots(v, k, active)))
  {
    var s := run0[|run0| - 1];
    var s1 := DoScan(s, 0);
    Extend(run0, s1, 0, go);
    var s2 := DoScan(s1, 0);
    Extend(run0 + [s1], s2, 0, go);
    run := run0 + [s1] + [s2];
  }

  /** The slots of the threads that do nothing are empty. */
  lemma {:induction false} ScanIdle(run0: seq<State>, n: nat, r: nat, v: View, k: nat, active: set<Addr>)
    returns (run: seq<State>)
    requires RunTo(run0, n, r, Scanning(v, k, 0, active)) && 2 <= k <= n
    ensures RunTo(run, n, r, Scanning(v, n, 0, active))
    decreases n - k
  {
    run := run0;
    if k < n {
      run := ScanOne(run, n, r, v, k, active);
      run := ScanIdle(run, n, r, v, k + 1, active);
    }
  }

  lemma ScanEnd(run0: seq<State>, n: nat, r: nat, v: View, active: set<Addr>) returns (run: seq<State>)
    requires RunTo(run0, n, r, Scanning(v, n, 0, active))
    ensures RunTo(run, n, r, v.(a := v.a.(pc := Free(true, active))))
  {
    var s := run0[|run0| - 1];
    Extend(run0, DoScan(s, 0), 0, go);
    run := run0 + [DoScan(s, 0)];
  }

  /** A scan sees the node that thread 0 has just unlinked, and no other. */
  lemma ScanAll(run0: seq<State>, n: nat, r: nat, v: View) returns (run: seq<State>)
    requires RunTo(run0, n, r, v) && v.a.pc == Scan(true, 0, 0, {}) && n >= 2
    requires v.a.hp0 != NULL && v.a.hp1 == NULL && v.b.hp0 == NULL && v.b.hp1 == NULL
    ensures RunTo(run, n, r, v.(a := v.a.(pc := Free(true, {v.a.hp0}))))
  {
    assert v == Scanning(v, 0, 0, {});
    run := ScanOne(run0, n, r, v, 0, {});
    assert Slots(v, 0, {}) == {v.a.hp0};
    run := ScanOne(run, n, r, v, 1, {v.a.hp0});
    run := ScanIdle(run, n, r, v, 2, {v.a.hp0});
    run := ScanEnd(run, n, r, v, {v.a.hp0});
  }

  // ----- filling the retired set -----

  /** Thread 0 is idle, node `y` is the list, node `x` is retired, and thread 1 is
      caught with empty slots. */
  ghost predicate Stocked(v: View, x: Addr, y: Addr, m: int) {
    && v.a.pc.Idle? && v.a.hp1 == NULL && v.b.hp0 == NULL && v.b.hp1 == NULL
    && v.head == y && y in v.heap && v.heap[y] == Node(2, NULL, false, Linked)
    && x in v.a.retired && v.a.retired <= v.heap.Keys
    && forall a :: a in v.heap ==> NULL < a <= m
  }

  /** One more key, inserted and removed. */
  lemma Pair(run0: seq<State>, n: nat, r: nat, v0: View, x: Addr, y: Addr, m: int) returns (run: seq<State>, v: View)
    requires RunTo(run0, n, r, v0) && Stocked(v0, x, y, m)
    ensures RunTo(run, n, r, v) && v.b == v0.b && v.a.hp0 == m + 1 && v.a.retired == v0.a.retired + {m + 1}
    ensures v.a.pc == if |v.a.retired| > r then Scan(true, 0, 0, {}) else Return(true)
    ensures Stocked(v.(a := v.a.(pc := Idle)), x, y, m + 1)
  {
    var v1;
    run, v1 := InsertFront(run0, n, r, v0, 0, m + 1);
    run, v := RemoveFront(run, n, r, v1);
  }

  /** Sooner or later a scan frees `x`. */
  lemma {:induction false} Fill(run0: seq<State>, n: nat, r: nat, v0: View, x: Addr, y: Addr, m: int)
    returns (run: seq<State>, v: View)
    requires RunTo(run0, n, r, v0) && Stocked(v0, x, y, m)
    ensures RunTo(run, n, r, v) && v.b == v0.b && x !in v.heap
    decreases r - |v0.a.retired|
  {
    run, v := Pair(run0, n, r, v0, x, y, m);
    if |v.a.retired| <= r {
      run, v := Step(run, n, r, v, 0, go);
      run, v := Fill(run, n, r, v, x, y, m + 1);
    } else {
      run := ScanAll(run, n, r, v);
      v := v.(a := v.a.(pc := Free(true, {m + 1})));
      run, v := Step(run, n, r, v, 0, Choice(Lookup, 0, x));
    }
  }

  // ----- the whole run -----

  /** Thread 1 looks up key 3 and stops between its two stores at the first node. */
  lemma StopInSwap(run0: seq<State>, n: nat, r: nat, v0: View) returns (run: seq<State>, v: View)
    requires RunTo(run0, n, r, v0) && v0.b == quiet
    requires v0.head != NULL && v0.head in v0.heap && !v0.heap[v0.head].marked && v0.heap[v0.head].key < 3
    ensures RunTo(run, n, r, v) && v == v0.(b := v.b) && v.b.pc.AdvanceMid? && v.b.hp0 == NULL && v.b.hp1 == NULL
    ensures v.b.cur == v0.head && v.b.prev == NextOf(v0.head) && v.b.next == v0.heap[v0.head].next
  {
    var x := v0.head;
    var th := quiet.(op := Lookup, key := 3, pc := ReadHead);
    run := ReachFirst(run0, n, r, v0, 1, Choice(Lookup, 3, NULL), th, v0.heap);
    th := th.(cur := x, hp0 := x, next := v0.heap[x].next, pc := ReadKey);
    v := v0.(b := th);
    run, v := Step(run, n, r, v, 1, go);
    run, v := Step(run, n, r, v, 1, go);
    run, v := Step(run, n, r, v, 1, go);
  }

  /** Thread 0 removes the first key; a scan, if there is one, spares its node. */
  lemma RemoveAndKeep(run0: seq<State>, n: nat, r: nat, v0: View, x: Addr, y: Addr) returns (run: seq<State>, v: View)
    requires RunTo(run0, n, r, v0) && v0.a.pc.Idle? && v0.a.hp1 == NULL && v0.a.retired == {} && v0.head == x != y
    requires v0.heap == map[y := Node(2, NULL, false, Linked), x := Node(1, y, false, Linked)]
    requires 0 < x <= 2 && 0 < y <= 2
    requires v0.b.hp0 == NULL && v0.b.hp1 == NULL
    ensures RunTo(run, n, r, v) && v.b == v0.b && Stocked(v, x, y, 2)
  {
    run, v := RemoveFront(run0, n, r, v0);
    if |v.a.retired| > r {
      run := ScanAll(run, n, r, v);
      v := v.(a := v.a.(pc := Free(true, {x})));
      run, v := Step(run, n, r, v, 0, go);
    }
    run, v := Step(run, n, r, v, 0, go);
  }

  /** With two threads or more, and whatever the threshold of the scan, there is a
      run of the exchange in two stores in which a thread touches freed memory. */
  lemma SplitSwapFaults(n: nat, r: nat) returns (run: seq<State>)
    requires n >= 2
    ensures IsRun(run) && Setup(run[0], n, r)
    ensures |run[|run| - 1].threads| == n && run[|run| - 1].threads[1].pc.Fault?
  {
    var v;
    run := Start(n, r);
    run, v := InsertFirst(run, n, r, View(map[], NULL, quiet, quiet), 2, 2);
    run, v := InsertFront(run, n, r, v, 1, 1);
    run, v := StopInSwap(run, n, r, v);
    run, v := RemoveAndKeep(run, n, r, v, 1, 2);
    run, v := Fill(run, n, r, v, 1, 2, 2);
    run, v := Step(run, n, r, v, 1, go);
    run, v := Step(run, n, r, v, 1, go);
    var s := run[|run| - 1];
    assert StepBy(s, Crash(s, 1), 1, go);
    Extend(run, Crash(s, 1), 1, go);
    run := run + [Crash(s, 1)];
  }
}

/** When the slot exchange of the code is safe. */
module ListSwapTheorem {
  import opened ListModel
  import opened ListInvariant
  import opened ListTheorems
  import opened ListSplitSwap

  /** No run of the exchange in two stores, with `n` threads and a threshold of `r`
      retired nodes, ever touches memory that is not allocated. */
  ghost predicate AlwaysSafe(n: nat, r: nat) {
    forall run, i, t :: IsRun(run) && Setup(run[0], n, r) && FaultsAt(run, i, t) ==> false
  }

  ghost predicate FaultsAt(run: seq<State>, i: int, t: int) {
    0 <= i < |run| && 0 <= t < |run[i].threads| && run[i].threads[t].pc.Fault?
  }

  /** The code, which exchanges the slots in two stores, is safe if and only if there
      is at most one thread, whatever the threshold of the scan. */
  lemma SafeIffAlone(n: nat, r: nat)
    ensures AlwaysSafe(n, r) <==> n <= 1
  {
    if n <= 1 {
      forall run, i, t | IsRun(run) && Setup(run[0], n, r) && FaultsAt(run, i, t) ensures false {
        NoThreadFaults(run, i, t);
      }
    } else {
      var run := SplitSwapFaults(n, r);
      assert FaultsAt(run, |run| - 1, 1);
    }
  }
}
