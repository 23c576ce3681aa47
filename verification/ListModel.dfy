/**
 The lock-free sorted set of lock_free_list.hpp together with the hazard
 pointers of hazard_pointers.hpp, as a step relation over a sequentially
 consistent shared state.

 One step of one thread is one access to shared memory, followed by the local
 computation that depends on it.  Any number of threads take steps in any
 order.  Addresses are reused: allocation may return any address that is not
 currently allocated, including one that was freed before.

 A step that touches an address that is not allocated moves its thread to
 `Fault`; nothing in the step relation assumes that this does not happen.

 History variables, read by no step: `Node.status`, `Thread.start`,
 `Thread.wit`, `Thread.point`, `State.log`.
 */
module ListModel {
  type Addr = int

  const NULL: Addr := 0

  /** Where an allocated node is in its life. */
  datatype Status =
    | Private(owner: nat)  // allocated by an insert that has not linked it
    | Linked               // published by a successful insert CAS
    | Unlinked(who: nat)   // physically removed by thread `who`

  /** `next` and `marked` are the two halves of one markable pointer. */
  datatype Node = Node(key: int, next: Addr, marked: bool, status: Status)

  /** A `Node**`: the list head or the `next` field of a node. */
  datatype Loc = Head | NextOf(node: Addr)

  datatype Op = Insert | Remove | Lookup

  datatype Pc =
    | Idle
      // lookupInternal
    | ReadHead | Publish | Validate | ReadNext | Unlink
    | ReadKey | Recheck | Advance | AdvanceMid
      // insert
    | DeleteNew | LinkNew | InsertCas
      // remove
    | MarkCas | UnlinkCas
      // retireNode and maybeFreeNodes; `last` says that remove called them
    | Retire(last: bool)
    | Scan(last: bool, thread: nat, slot: nat, active: set<Addr>)
    | Free(last: bool, active: set<Addr>)
      // the call is about to return `result`
    | Return(result: bool)
      // an unallocated address was touched
    | Fault

  datatype Thread = Thread(
    pc: Pc,
    op: Op,
    key: int,
    prev: Loc,
    cur: Addr,
    next: Addr,
    curKey: int,
    node: Addr,          // the node an insert allocated and still owns
    hp0: Addr,
    hp1: Addr,
    retired: set<Addr>,
    start: nat,          // moment at which the current call began
    wit: nat,            // moment of the last decisive observation
    point: nat)          // moment at which the call took effect, 0 if none

  datatype Effect = Quiet | Added(who: nat, key: int) | Removed(who: nat, key: int)

  /** The abstract set after a step, and what that step did to it. */
  datatype Moment = Moment(keys: set<int>, effect: Effect)

  /** `atomicSwap` selects how lookupInternal exchanges its two hazard slots:
      in one step, or as the two stores that the code performs.  `maxRetired`
      is the threshold above which retireNode scans the hazard slots, a mutable
      static in the code. */
  datatype State = State(
    heap: map<Addr, Node>,
    head: Addr,
    threads: seq<Thread>,
    log: seq<Moment>,
    atomicSwap: bool,
    maxRetired: nat)

  /** Choices that a step does not determine by itself. */
  datatype Choice = Choice(op: Op, key: int, addr: Addr)

  predicate Live(heap: map<Addr, Node>, a: Addr) {
    a in heap && heap[a].status.Linked? && !heap[a].marked
  }

  /** The abstract set: keys of linked nodes that are not marked. */
  ghost function Keys(heap: map<Addr, Node>): set<int> {
    set a | a in heap && Live(heap, a) :: heap[a].key
  }

  // ----- memory -----

  function LocNode(loc: Loc): set<Addr> {
    if loc.Head? then {} else {loc.node}
  }

  /** `*loc == a` with the mark bit clear. */
  predicate Holds(s: State, loc: Loc, a: Addr)
    requires LocNode(loc) <= s.heap.Keys
  {
    match loc
    case Head => s.head == a
    case NextOf(n) => s.heap[n].next == a && !s.heap[n].marked
  }

  function Store(s: State, loc: Loc, a: Addr): State
    requires LocNode(loc) <= s.heap.Keys
  {
    match loc
    case Head => s.(head := a)
    case NextOf(n) => s.(heap := s.heap[n := s.heap[n].(next := a)])
  }

  function SetStatus(s: State, a: Addr, status: Status): State {
    if a in s.heap then s.(heap := s.heap[a := s.heap[a].(status := status)]) else s
  }

  function Put(s: State, t: nat, th: Thread): State
    requires t < |s.threads|
  {
    s.(threads := s.threads[t := th])
  }

  /** Closes a step: appends the resulting abstract set to the history. */
  ghost function Note(s: State, effect: Effect): State {
    s.(log := s.log + [Moment(Keys(s.heap), effect)])
  }

  /** Addresses that the thread's next step dereferences, or frees. */
  function Touches(th: Thread): set<Addr> {
    match th.pc
    case Validate | Unlink | Recheck | InsertCas | UnlinkCas => LocNode(th.prev)
    case ReadNext | ReadKey | MarkCas => {th.cur}
    case LinkNew | DeleteNew => {th.node}
    case Free(_, active) => th.retired - active
    case _ => {}
  }

  // ----- control flow between calls -----

  /** Where lookupInternal continues in its caller; a set `point` means that
      remove already marked its node and is only cleaning up. */
  function AfterLookup(th: Thread, found: bool): Thread {
    th.(pc :=
      if th.point != 0 then Return(true)
      else match th.op
           case Lookup => Return(found)
           case Insert => if found then DeleteNew else LinkNew
           case Remove => if found then MarkCas else Return(false))
  }

  /** Where the caller of retireNode continues. */
  function AfterRetire(th: Thread, last: bool): Thread {
    if last then th.(pc := Return(true))
    else GoTo(th, th.next)
  }

  /** `cur = a`, then the test of the traversal loop. */
  function GoTo(th: Thread, a: Addr): Thread {
    if a == NULL then AfterLookup(th.(cur := NULL), false)
    else th.(cur := a, pc := Publish)
  }

  function Restart(th: Thread): Thread {
    th.(pc := ReadHead)
  }

  // ----- one function per step -----

  ghost function Begin(s: State, t: nat, c: Choice): State
    requires t < |s.threads| && s.threads[t].pc.Idle?
  {
    var th := s.threads[t].(pc := ReadHead, op := c.op, key := c.key, prev := Head, node := NULL,
                            start := |s.log|, point := 0);
    if c.op.Insert? then
      Note(Put(s.(heap := s.heap[c.addr := Node(c.key, NULL, false, Private(t))]), t, th.(node := c.addr)), Quiet)
    else
      Note(Put(s, t, th), Quiet)
  }

  ghost function DoReadHead(s: State, t: nat): State
    requires t < |s.threads| && !s.threads[t].pc.Idle?
  {
    Note(Put(s, t, GoTo(s.threads[t].(prev := Head, wit := |s.log|), s.head)), Quiet)
  }

  ghost function DoPublish(s: State, t: nat): State
    requires t < |s.threads| && !s.threads[t].pc.Idle?
  {
    var th := s.threads[t];
    Note(Put(s, t, th.(hp0 := th.cur, pc := Validate)), Quiet)
  }

  ghost function DoValidate(s: State, t: nat): State
    requires t < |s.threads| && !s.threads[t].pc.Idle? && LocNode(s.threads[t].prev) <= s.heap.Keys
  {
    var th := s.threads[t];
    Note(Put(s, t, if Holds(s, th.prev, th.cur) then th.(pc := ReadNext) else Restart(th)), Quiet)
  }

  ghost function DoReadNext(s: State, t: nat): State
    requires t < |s.threads| && !s.threads[t].pc.Idle? && s.threads[t].cur in s.heap
  {
    var th := s.threads[t];
    var n := s.heap[th.cur];
    Note(Put(s, t, th.(next := n.next, wit := |s.log|, pc := if n.marked then Unlink else ReadKey)), Quiet)
  }

  ghost function DoReadKey(s: State, t: nat): State
    requires t < |s.threads| && !s.threads[t].pc.Idle? && s.threads[t].cur in s.heap
  {
    var th := s.threads[t];
    Note(Put(s, t, th.(curKey := s.heap[th.cur].key, pc := Recheck)), Quiet)
  }

  ghost function DoRecheck(s: State, t: nat): State
    requires t < |s.threads| && !s.threads[t].pc.Idle? && LocNode(s.threads[t].prev) <= s.heap.Keys
  {
    var th := s.threads[t];
    var th' :=
      if !Holds(s, th.prev, th.cur) then Restart(th)
      else if th.curKey == th.key then AfterLookup(th, true)
      else if th.curKey > th.key then AfterLookup(th.(wit := |s.log|), false)
      else th.(pc := Advance);
    Note(Put(s, t, th'), Quiet)
  }

  /** The slot exchange of lookupInternal: one step, or the first of two. */
  ghost function DoAdvance(s: State, t: nat): State
    requires t < |s.threads| && !s.threads[t].pc.Idle?
  {
    var th := s.threads[t];
    if s.atomicSwap then
      Note(Put(s, t, GoTo(th.(prev := NextOf(th.cur), hp0 := th.hp1, hp1 := th.hp0), th.next)), Quiet)
    else
      Note(Put(s, t, th.(prev := NextOf(th.cur), hp0 := th.hp1, pc := AdvanceMid)), Quiet)
  }

  ghost function DoAdvanceMid(s: State, t: nat): State
    requires t < |s.threads| && !s.threads[t].pc.Idle?
  {
    var th := s.threads[t];
    Note(Put(s, t, GoTo(th.(hp1 := th.cur), th.next)), Quiet)
  }

  /** `*prev` from `cur` to `next`, by lookupInternal or by remove. */
  ghost function DoUnlink(s: State, t: nat, last: bool): State
    requires t < |s.threads| && !s.threads[t].pc.Idle? && LocNode(s.threads[t].prev) <= s.heap.Keys
  {
    var th := s.threads[t];
    if Holds(s, th.prev, th.cur) then
      Note(Put(SetStatus(Store(s, th.prev, th.next), th.cur, Unlinked(t)), t,
               th.(wit := |s.log|, pc := Retire(last))), Quiet)
    else
      Note(Put(s, t, Restart(th)), Quiet)
  }

  ghost function DoRetire(s: State, t: nat): State
    requires t < |s.threads| && s.threads[t].pc.Retire?
  {
    var th := s.threads[t];
    var th' := th.(retired := th.retired + {th.cur});
    Note(Put(s, t, if |th'.retired| > s.maxRetired then th'.(pc := Scan(th.pc.last, 0, 0, {}))
                   else AfterRetire(th', th.pc.last)), Quiet)
  }

  /** Reads one hazard slot; slot 0 of a thread before its slot 1. */
  ghost function DoScan(s: State, t: nat): State
    requires t < |s.threads| && s.threads[t].pc.Scan?
  {
    var th := s.threads[t];
    var pc := th.pc;
    var pc' :=
      if pc.thread >= |s.threads| then Free(pc.last, pc.active)
      else if pc.slot == 0 then pc.(slot := 1, active := Seen(pc.active, s.threads[pc.thread].hp0))
      else pc.(thread := pc.thread + 1, slot := 0, active := Seen(pc.active, s.threads[pc.thread].hp1));
    Note(Put(s, t, th.(pc := pc')), Quiet)
  }

  function Seen(active: set<Addr>, hazard: Addr): set<Addr> {
    if hazard == NULL then active else active + {hazard}
  }

  /** Frees one retired node that the scan did not see, or leaves the loop. */
  ghost function DoFree(s: State, t: nat, c: Choice): State
    requires t < |s.threads| && s.threads[t].pc.Free?
  {
    var th := s.threads[t];
    if th.retired <= th.pc.active then
      Note(Put(s, t, AfterRetire(th, th.pc.last)), Quiet)
    else
      Note(Put(s.(heap := s.heap - {c.addr}), t, th.(retired := th.retired - {c.addr})), Quiet)
  }

  ghost function DoDeleteNew(s: State, t: nat): State
    requires t < |s.threads| && !s.threads[t].pc.Idle?
  {
    var th := s.threads[t];
    Note(Put(s.(heap := s.heap - {th.node}), t, th.(node := NULL, pc := Return(false))), Quiet)
  }

  ghost function DoLinkNew(s: State, t: nat): State
    requires t < |s.threads| && !s.threads[t].pc.Idle? && s.threads[t].node in s.heap
  {
    var th := s.threads[t];
    Note(Put(s.(heap := s.heap[th.node := s.heap[th.node].(next := th.cur)]), t, th.(pc := InsertCas)), Quiet)
  }

  ghost function DoInsertCas(s: State, t: nat): State
    requires t < |s.threads| && !s.threads[t].pc.Idle? && LocNode(s.threads[t].prev) <= s.heap.Keys
  {
    var th := s.threads[t];
    if Holds(s, th.prev, th.cur) then
      Note(Put(SetStatus(Store(s, th.prev, th.node), th.node, Linked), t,
               th.(node := NULL, point := |s.log|, pc := Return(true))), Added(t, th.key))
    else
      Note(Put(s, t, Restart(th)), Quiet)
  }

  ghost function DoMarkCas(s: State, t: nat): State
    requires t < |s.threads| && !s.threads[t].pc.Idle? && s.threads[t].cur in s.heap
  {
    var th := s.threads[t];
    var n := s.heap[th.cur];
    if n.next == th.next && !n.marked then
      Note(Put(s.(heap := s.heap[th.cur := n.(marked := true)]), t, th.(point := |s.log|, pc := UnlinkCas)),
           Removed(t, th.key))
    else
      Note(Put(s, t, Restart(th)), Quiet)
  }

  ghost function DoReturn(s: State, t: nat): State
    requires t < |s.threads| && !s.threads[t].pc.Idle?
  {
    Note(Put(s, t, s.threads[t].(pc := Idle)), Quiet)
  }

  ghost function Crash(s: State, t: nat): State
    requires t < |s.threads| && !s.threads[t].pc.Idle?
  {
    Note(Put(s, t, s.threads[t].(pc := Fault)), Quiet)
  }

  /** Which choices a thread may make in its next step. */
  predicate Allowed(s: State, t: nat, c: Choice)
    requires t < |s.threads|
  {
    var th := s.threads[t];
    match th.pc
    case Idle => c.op.Insert? ==> c.addr !in s.heap && c.addr != NULL
    case Free(_, active) => th.retired <= active || c.addr in th.retired - active
    case Fault => false
    case _ => true
  }

  ghost function Do(s: State, t: nat, c: Choice): State
    requires t < |s.threads| && Touches(s.threads[t]) <= s.heap.Keys
    requires !s.threads[t].pc.Fault?
  {
    match s.threads[t].pc
    case Idle => Begin(s, t, c)
    case ReadHead => DoReadHead(s, t)
    case Publish => DoPublish(s, t)
    case Validate => DoValidate(s, t)
    case ReadNext => DoReadNext(s, t)
    case Unlink => DoUnlink(s, t, false)
    case ReadKey => DoReadKey(s, t)
    case Recheck => DoRecheck(s, t)
    case Advance => DoAdvance(s, t)
    case AdvanceMid => DoAdvanceMid(s, t)
    case DeleteNew => DoDeleteNew(s, t)
    case LinkNew => DoLinkNew(s, t)
    case InsertCas => DoInsertCas(s, t)
    case MarkCas => DoMarkCas(s, t)
    case UnlinkCas => DoUnlink(s, t, true)
    case Retire(_) => DoRetire(s, t)
    case Scan(_, _, _, _) => DoScan(s, t)
    case Free(_, _) => DoFree(s, t, c)
    case Return(_) => DoReturn(s, t)
  }

  /** Thread `t` takes its next step. */
  ghost predicate StepBy(s: State, s': State, t: nat, c: Choice) {
    && t < |s.threads|
    && Allowed(s, t, c)
    && s' == if Touches(s.threads[t]) <= s.heap.Keys then Do(s, t, c) else Crash(s, t)
  }

  ghost predicate Next(s: State, s': State) {
    exists t: nat, c: Choice :: StepBy(s, s', t, c)
  }

  /** An empty list and idle threads; the hazard slots, which the constructor
      leaves uninitialised, hold anything. */
  ghost predicate Init(s: State) {
    && s.heap == map[]
    && s.head == NULL
    && s.log == [Moment({}, Quiet)]
    && forall t :: 0 <= t < |s.threads| ==>
         s.threads[t].pc.Idle? && s.threads[t].retired == {} && s.threads[t].node == NULL
  }

  ghost predicate IsRun(run: seq<State>) {
    && |run| > 0
    && Init(run[0])
    && forall i :: 0 <= i < |run| - 1 ==> NextAt(run, i)
  }

  ghost predicate NextAt(run: seq<State>, i: nat) {
    i + 1 < |run| && Next(run[i], run[i + 1])
  }
}
