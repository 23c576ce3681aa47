/**
 The queue lock of spinlock_mcs.hpp as a step relation: any number of threads,
 any interleaving of single accesses to shared memory.

 The thread-local node of a thread is identified with the thread.  History
 variables, read by no step: `tickets` (the threads in the order of their tail
 exchanges), `done` (how many of them have finished their unlock), `grants` (the
 threads in the order in which lock returned to them) and `Thread.ticket`.
 */
module McsLock {
  const NONE: int := -1

  datatype Pc =
    | Idle
      // lock
    | ClearNext | Exchange | SetLocked | LinkPred | Spin
    | Critical
      // unlock
    | ReadNext | CasTail | WaitNext | ReadSucc | Release

  datatype Thread = Thread(pc: Pc, next: int, locked: bool, pred: int, succ: int, ticket: int)

  datatype State = State(threads: seq<Thread>, tail: int, tickets: seq<int>, done: int, grants: seq<int>)

  predicate IsThread(s: State, t: int) {
    0 <= t < |s.threads|
  }

  function Put(s: State, t: int, th: Thread): State
    requires IsThread(s, t)
  {
    s.(threads := s.threads[t := th])
  }

  function DoExchange(s: State, t: int): State
    requires IsThread(s, t)
  {
    var th := s.threads[t].(ticket := |s.tickets|);
    var s' := s.(tail := t, tickets := s.tickets + [t]);
    if s.tail == NONE then Put(s'.(grants := s.grants + [t]), t, th.(pc := Critical))
    else Put(s', t, th.(pc := SetLocked, pred := s.tail))
  }

  function DoLinkPred(s: State, t: int): State
    requires IsThread(s, t) && IsThread(s, s.threads[t].pred)
  {
    var pred := s.threads[t].pred;
    var s' := Put(s, pred, s.threads[pred].(next := t));
    Put(s', t, s'.threads[t].(pc := Spin))
  }

  function DoCasTail(s: State, t: int): State
    requires IsThread(s, t)
  {
    if s.tail == t then Put(s.(tail := NONE, done := s.done + 1), t, s.threads[t].(pc := Idle))
    else Put(s, t, s.threads[t].(pc := WaitNext))
  }

  function DoRelease(s: State, t: int): State
    requires IsThread(s, t) && IsThread(s, s.threads[t].succ)
  {
    var succ := s.threads[t].succ;
    var s' := Put(s.(done := s.done + 1), succ, s.threads[succ].(locked := false));
    Put(s', t, s'.threads[t].(pc := Idle))
  }

  /** What a step writes through is the node of some thread. */
  predicate Safe(s: State, t: int)
    requires IsThread(s, t)
  {
    var th := s.threads[t];
    && (th.pc.LinkPred? ==> IsThread(s, th.pred))
    && (th.pc.Release? ==> IsThread(s, th.succ))
  }

  function Do(s: State, t: int): State
    requires IsThread(s, t) && Safe(s, t)
  {
    var th := s.threads[t];
    match th.pc
    case Idle => Put(s, t, th.(pc := ClearNext))
    case ClearNext => Put(s, t, th.(next := NONE, pc := Exchange))
    case Exchange => DoExchange(s, t)
    case SetLocked => Put(s, t, th.(locked := true, pc := LinkPred))
    case LinkPred => DoLinkPred(s, t)
    case Spin => if th.locked then s else Put(s.(grants := s.grants + [t]), t, th.(pc := Critical))
    case Critical => Put(s, t, th.(pc := ReadNext))
    case ReadNext => Put(s, t, th.(pc := if th.next == NONE then CasTail else ReadSucc))
    case CasTail => DoCasTail(s, t)
    case WaitNext => if th.next == NONE then s else Put(s, t, th.(pc := ReadSucc))
    case ReadSucc => Put(s, t, th.(succ := th.next, pc := Release))
    case Release => DoRelease(s, t)
  }

  /** Thread `t` takes its next step.  Nothing is said about a step that writes
      through a pointer to no node; the invariant rules it out. */
  ghost predicate StepBy(s: State, s': State, t: int) {
    IsThread(s, t) && (Safe(s, t) ==> s' == Do(s, t))
  }

  ghost predicate Next(s: State, s': State) {
    exists t :: StepBy(s, s', t)
  }

  ghost predicate NextAt(run: seq<State>, i: nat) {
    i + 1 < |run| && Next(run[i], run[i + 1])
  }

  predicate Init(s: State) {
    && s.tail == NONE && s.tickets == [] && s.done == 0 && s.grants == []
    && forall t :: 0 <= t < |s.threads| ==> s.threads[t].pc.Idle?
  }

  ghost predicate IsRun(run: seq<State>) {
    |run| > 0 && Init(run[0]) && forall i :: 0 <= i < |run| - 1 ==> NextAt(run, i)
  }

  // ----- the invariant -----

  /** Between the return of lock and the end of unlock. */
  predicate Holding(pc: Pc) {
    pc.Critical? || pc.ReadNext? || pc.CasTail? || pc.WaitNext? || pc.ReadSucc? || pc.Release?
  }

  predicate Waiting(pc: Pc) {
    pc.SetLocked? || pc.LinkPred? || pc.Spin?
  }

  predicate Queued(pc: Pc) {
    Holding(pc) || Waiting(pc)
  }

  /** Ticket `k` is held by a thread in the queue. */
  predicate TicketOk(s: State, k: int)
    requires 0 <= k < |s.tickets|
  {
    IsThread(s, s.tickets[k]) && s.threads[s.tickets[k]].ticket == k && Queued(s.threads[s.tickets[k]].pc)
  }

  /** The thread behind ticket `k` has made itself known to its predecessor. */
  predicate LinkedBehind(s: State, k: int) {
    0 <= k + 1 < |s.tickets| && IsThread(s, s.tickets[k + 1]) && s.threads[s.tickets[k + 1]].pc.Spin?
  }

  /** What holds of a thread in the queue. */
  predicate SlotOk(s: State, th: Thread) {
    var k := th.ticket;
    && 0 <= s.done <= k < |s.tickets|
    && (if k == s.done then Holding(th.pc) || (th.pc.Spin? && !th.locked)
        else Waiting(th.pc) && (!th.pc.SetLocked? ==> th.locked) && (!th.pc.Spin? ==> th.pred == s.tickets[k - 1]))
    && th.next == (if LinkedBehind(s, k) then s.tickets[k + 1] else NONE)
    && (th.pc.WaitNext? ==> k + 1 < |s.tickets|)
    && (th.pc.ReadSucc? || th.pc.Release? ==> th.next != NONE)
    && (th.pc.Release? ==> th.succ == th.next)
  }

  predicate ThreadOk(s: State, t: int)
    requires IsThread(s, t)
  {
    var th := s.threads[t];
    && (th.pc.Exchange? ==> th.next == NONE)
    && (Queued(th.pc) ==> SlotOk(s, th) && s.tickets[th.ticket] == t)
  }

  predicate Holder(s: State) {
    && 0 <= s.done < |s.tickets| && IsThread(s, s.tickets[s.done])
    && Holding(s.threads[s.tickets[s.done]].pc)
  }

  /** Locks are granted in the order of the tail exchanges. */
  predicate History(s: State) {
    && 0 <= s.done <= |s.tickets|
    && s.tail == (if s.done == |s.tickets| then NONE else s.tickets[|s.tickets| - 1])
    && s.grants == s.tickets[..if Holder(s) then s.done + 1 else s.done]
  }

  predicate Inv(s: State) {
    && History(s)
    && (forall k {:trigger TicketOk(s, k)} :: s.done <= k < |s.tickets| ==> TicketOk(s, k))
    && (forall t {:trigger ThreadOk(s, t)} :: 0 <= t < |s.threads| ==> ThreadOk(s, t))
  }

  // ----- steps -----

  lemma InitInv(s: State)
    requires Init(s)
    ensures Inv(s)
  {
  }

  /** A step that changes one thread, and neither its place nor its link. */
  lemma LocalStep(s: State, t: int, th: Thread)
    requires Inv(s) && IsThread(s, t) && th.ticket == s.threads[t].ticket
    requires Queued(th.pc) == Queued(s.threads[t].pc) && Holding(th.pc) == Holding(s.threads[t].pc)
    requires th.pc.Spin? == s.threads[t].pc.Spin?
    requires th.pc.Exchange? ==> th.next == NONE
    requires Queued(th.pc) ==> SlotOk(s, th)
    ensures Inv(Put(s, t, th))
  {
    var s' := Put(s, t, th);
    forall k | s'.done <= k < |s'.tickets| ensures TicketOk(s', k) { assert TicketOk(s, k); }
    forall u | 0 <= u < |s'.threads| ensures ThreadOk(s', u) { assert ThreadOk(s, u); }
  }

  lemma ExchangeFirstOk(s: State, t: int)
    requires Inv(s) && IsThread(s, t) && s.threads[t].pc.Exchange? && s.done == |s.tickets|
    ensures Inv(DoExchange(s, t))
  {
    var s' := DoExchange(s, t);
    assert ThreadOk(s, t);
    forall u | 0 <= u < |s'.threads| ensures ThreadOk(s', u) { assert ThreadOk(s, u); }
  }

  lemma ExchangeBehindOk(s: State, t: int)
    requires Inv(s) && IsThread(s, t) && s.threads[t].pc.Exchange? && s.done < |s.tickets|
    ensures Inv(DoExchange(s, t))
  {
    var s' := DoExchange(s, t);
    var n := |s.tickets|;
    assert ThreadOk(s, t);
    assert TicketOk(s, n - 1) && TicketOk(s, s.done);
    forall k | s'.done <= k < |s'.tickets| ensures TicketOk(s', k) {
      if k < n { assert TicketOk(s, k); }
    }
    forall u | 0 <= u < |s'.threads| ensures ThreadOk(s', u) { assert ThreadOk(s, u); }
  }

  /** The thread behind a queued one holds the next ticket. */
  lemma BehindIsOther(s: State, u: int)
    requires Inv(s) && IsThread(s, u) && Queued(s.threads[u].pc)
    ensures var k := s.threads[u].ticket;
      0 <= s.done <= k && (k + 1 < |s.tickets| ==> TicketOk(s, k + 1))
  {
    assert ThreadOk(s, u);
  }

  /** The predecessor that a thread remembers is the one in front of it. */
  lemma PredInFront(s: State, t: int)
    requires Inv(s) && IsThread(s, t) && s.threads[t].pc.LinkPred?
    ensures var k := s.threads[t].ticket;
      s.done < k < |s.tickets| && TicketOk(s, k - 1) && s.threads[t].pred == s.tickets[k - 1] && s.tickets[k] == t
  {
    assert ThreadOk(s, t);
    assert TicketOk(s, s.threads[t].ticket - 1);
  }

  lemma LinkPredOk(s: State, t: int)
    requires Inv(s) && IsThread(s, t) && s.threads[t].pc.LinkPred?
    ensures Safe(s, t) && Inv(DoLinkPred(s, t))
  {
    PredInFront(s, t);
    var s' := DoLinkPred(s, t);
    var k := s.threads[t].ticket;
    assert ThreadOk(s, t);
    assert TicketOk(s, s.done);
    forall j | s'.done <= j < |s'.tickets| ensures TicketOk(s', j) { assert TicketOk(s, j); }
    forall u | 0 <= u < |s'.threads| ensures ThreadOk(s', u) {
      assert ThreadOk(s, u);
      if Queued(s.threads[u].pc) { BehindIsOther(s, u); }
    }
  }

  lemma EnterOk(s: State, t: int)
    requires Inv(s) && IsThread(s, t) && s.threads[t].pc.Spin? && !s.threads[t].locked
    ensures s.threads[t].ticket == s.done && Inv(Do(s, t))
  {
    var s' := Do(s, t);
    assert ThreadOk(s, t);
    forall k | s'.done <= k < |s'.tickets| ensures TicketOk(s', k) { assert TicketOk(s, k); }
    forall u | 0 <= u < |s'.threads| ensures ThreadOk(s', u) {
      assert ThreadOk(s, u);
      if Queued(s.threads[u].pc) { BehindIsOther(s, u); }
    }
  }

  lemma CasTailOk(s: State, t: int)
    requires Inv(s) && IsThread(s, t) && s.threads[t].pc.CasTail?
    ensures Inv(DoCasTail(s, t))
  {
    assert ThreadOk(s, t);
    if s.tail != t {
      LocalStep(s, t, s.threads[t].(pc := WaitNext));
    } else {
      var s' := DoCasTail(s, t);
      assert TicketOk(s, |s.tickets| - 1);
      forall u | 0 <= u < |s'.threads| ensures ThreadOk(s', u) { assert ThreadOk(s, u); }
    }
  }

  /** The successor that a thread is about to release spins right behind it. */
  lemma SuccBehind(s: State, t: int)
    requires Inv(s) && IsThread(s, t) && s.threads[t].pc.Release?
    ensures var k := s.done;
      && 0 <= k && k + 1 < |s.tickets| && s.threads[t].ticket == k && s.tickets[k] == t && TicketOk(s, k + 1)
      && s.threads[t].succ == s.tickets[k + 1] && s.threads[s.tickets[k + 1]].pc.Spin?
  {
    assert ThreadOk(s, t);
    assert TicketOk(s, s.done + 1);
  }

  lemma ReleaseOk(s: State, t: int)
    requires Inv(s) && IsThread(s, t) && s.threads[t].pc.Release?
    ensures Safe(s, t) && Inv(DoRelease(s, t))
  {
    SuccBehind(s, t);
    var s' := DoRelease(s, t);
    var succ := s.threads[t].succ;
    assert ThreadOk(s, succ);
    forall j | s'.done <= j < |s'.tickets| ensures TicketOk(s', j) { assert TicketOk(s, j); }
    forall u | 0 <= u < |s'.threads| ensures ThreadOk(s', u) { assert ThreadOk(s, u); }
  }

  lemma StepKeepsInv(s: State, s': State, t: int)
    requires Inv(s) && StepBy(s, s', t)
    ensures Safe(s, t) && Inv(s') && |s'.threads| == |s.threads|
  {
    var th := s.threads[t];
    assert ThreadOk(s, t);
    match th.pc
    case Idle => LocalStep(s, t, th.(pc := ClearNext));
    case ClearNext => LocalStep(s, t, th.(next := NONE, pc := Exchange));
    case Exchange => if s.done == |s.tickets| { ExchangeFirstOk(s, t); } else { ExchangeBehindOk(s, t); }
    case SetLocked => LocalStep(s, t, th.(locked := true, pc := LinkPred));
    case LinkPred => LinkPredOk(s, t);
    case Spin => if !th.locked { EnterOk(s, t); }
    case Critical => LocalStep(s, t, th.(pc := ReadNext));
    case ReadNext => LocalStep(s, t, th.(pc := if th.next == NONE then CasTail else ReadSucc));
    case CasTail => CasTailOk(s, t);
    case WaitNext => if th.next != NONE { LocalStep(s, t, th.(pc := ReadSucc)); }
    case ReadSucc => LocalStep(s, t, th.(succ := th.next, pc := Release));
    case Release => ReleaseOk(s, t);
  }

  lemma {:induction false} RunKeepsInv(run: seq<State>, i: nat)
    requires IsRun(run) && i < |run|
    ensures Inv(run[i])
  {
    if i == 0 {
      InitInv(run[0]);
    } else {
      RunKeepsInv(run, i - 1);
      assert NextAt(run, i - 1);
      var t :| StepBy(run[i - 1], run[i], t);
      StepKeepsInv(run[i - 1], run[i], t);
    }
  }

  // ----- what every run keeps -----

  /** At most one thread is between the return of lock and the end of unlock. */
  lemma MutualExclusion(run: seq<State>, i: nat, t: int, u: int)
    requires IsRun(run) && i < |run| && IsThread(run[i], t) && IsThread(run[i], u)
    requires Holding(run[i].threads[t].pc) && Holding(run[i].threads[u].pc)
    ensures t == u
  {
    RunKeepsInv(run, i);
    assert ThreadOk(run[i], t) && ThreadOk(run[i], u);
  }

  /** The lock is granted in the order of the tail exchanges: the grants are a
      prefix of the tickets, and everyone granted but the holder has left. */
  lemma FirstComeFirstServed(run: seq<State>, i: nat)
    requires IsRun(run) && i < |run|
    ensures run[i].grants <= run[i].tickets
    ensures run[i].done <= |run[i].grants| <= run[i].done + 1
    ensures |run[i].grants| == run[i].done + 1 <==>
      exists t :: IsThread(run[i], t) && Holding(run[i].threads[t].pc)
  {
    RunKeepsInv(run, i);
    var s := run[i];
    forall t | IsThread(s, t) && Holding(s.threads[t].pc) ensures Holder(s) { assert ThreadOk(s, t); }
    if Holder(s) { assert IsThread(s, s.tickets[s.done]) && Holding(s.threads[s.tickets[s.done]].pc); }
  }

  /** No step ever writes through a pointer to no node. */
  lemma NoWildWrites(run: seq<State>, i: nat, t: int)
    requires IsRun(run) && i < |run| && IsThread(run[i], t)
    ensures Safe(run[i], t)
  {
    RunKeepsInv(run, i);
    var s := run[i];
    StepKeepsInv(s, if Safe(s, t) then Do(s, t) else s, t);
  }

  // ----- progress -----

  /** The thread that everyone waits for: the head of the queue, unless it waits
      for its successor to link itself. */
  function Mover(s: State): int
    requires 0 <= s.done < |s.tickets|
  {
    var head := s.tickets[s.done];
    if IsThread(s, head) && s.threads[head].pc.WaitNext? && s.threads[head].next == NONE && s.done + 1 < |s.tickets|
    then s.tickets[s.done + 1] else head
  }

  /** How many steps of movers are left until the head of the queue has gone. */
  function Rank(s: State): nat
    requires 0 <= s.done < |s.tickets|
  {
    var head := s.tickets[s.done];
    if !IsThread(s, head) then 0
    else match s.threads[head].pc
         case Spin => 9
         case Critical => 8
         case ReadNext => 7
         case CasTail => 6
         case WaitNext => 3 + (if s.threads[head].next == NONE then Unlinked(s) else 0)
         case ReadSucc => 2
         case Release => 1
         case _ => 0
  }

  /** Steps of the second in the queue until it has linked itself. */
  function Unlinked(s: State): nat
    requires 0 <= s.done < |s.tickets|
  {
    if s.done + 1 < |s.tickets| && IsThread(s, s.tickets[s.done + 1]) then
      match s.threads[s.tickets[s.done + 1]].pc
      case SetLocked => 2
      case LinkPred => 1
      case _ => 0
    else 0
  }

  /** With a non-empty queue there is always a thread that can move the lock on:
      its step lets the head go, or brings that strictly closer. */
  lemma MoverMoves(s: State)
    requires Inv(s) && s.done < |s.tickets|
    ensures IsThread(s, Mover(s)) && Safe(s, Mover(s)) && 1 <= Rank(s) <= 9
    ensures var s' := Do(s, Mover(s));
      s'.done == s.done + 1 || (s'.done == s.done && s'.tickets == s.tickets && Rank(s') < Rank(s))
  {
    var head := s.tickets[s.done];
    assert TicketOk(s, s.done) && ThreadOk(s, head);
    if s.done + 1 < |s.tickets| {
      assert TicketOk(s, s.done + 1) && ThreadOk(s, s.tickets[s.done + 1]);
    }
    var t := Mover(s);
    StepKeepsInv(s, if Safe(s, t) then Do(s, t) else s, t);
  }

  /** No step of any other thread undoes that. */
  lemma OthersDoNotHinder(s: State, s': State, t: int)
    requires Inv(s) && s.done < |s.tickets| && StepBy(s, s', t)
    ensures s'.done == s.done + 1 || (s'.done == s.done && s.tickets <= s'.tickets && Rank(s') <= Rank(s))
  {
    var head := s.tickets[s.done];
    assert TicketOk(s, s.done) && ThreadOk(s, head);
    if s.done + 1 < |s.tickets| {
      assert TicketOk(s, s.done + 1) && ThreadOk(s, s.tickets[s.done + 1]);
    }
    assert ThreadOk(s, t);
    StepKeepsInv(s, s', t);
  }

  /** `who[i]` is the thread that takes step `i` of the run. */
  ghost predicate IsSchedule(run: seq<State>, who: seq<int>) {
    |who| + 1 == |run| && forall i :: 0 <= i < |who| ==> StepAt(run, who, i)
  }

  ghost predicate StepAt(run: seq<State>, who: seq<int>, i: nat)
    requires |who| + 1 == |run| && i < |who|
  {
    StepBy(run[i], run[i + 1], who[i])
  }

  /** How many of the steps from `i` to `j` were steps of the mover. */
  ghost function Moves(run: seq<State>, who: seq<int>, i: nat, j: nat): nat
    requires i <= j <= |who| && |who| + 1 == |run|
    decreases j
  {
    if i == j then 0
    else
      var s := run[j - 1];
      Moves(run, who, i, j - 1) + (if 0 <= s.done < |s.tickets| && who[j - 1] == Mover(s) then 1 else 0)
  }

  lemma {:induction false} RankPaysForMoves(run: seq<State>, who: seq<int>, i: nat, j: nat)
    requires IsRun(run) && IsSchedule(run, who) && i <= j <= |who| && 0 <= run[i].done < |run[i].tickets|
    ensures 0 <= run[i].done <= run[j].done
    ensures run[j].done == run[i].done ==>
      run[j].done < |run[j].tickets| && Rank(run[j]) + Moves(run, who, i, j) <= Rank(run[i])
    decreases j
  {
    if i < j {
      RankPaysForMoves(run, who, i, j - 1);
      RunKeepsInv(run, j - 1);
      var s, s', t := run[j - 1], run[j], who[j - 1];
      assert StepAt(run, who, j - 1);
      StepKeepsInv(s, s', t);
      if s.done == run[i].done {
        OthersDoNotHinder(s, s', t);
        if t == Mover(s) { MoverMoves(s); }
      } else if s.done < |s.tickets| {
        OthersDoNotHinder(s, s', t);
      }
    }
  }

  /** The lock moves on within nine steps of movers, whatever the other threads
      do in between: the thread at the head of the queue is gone by then. */
  lemma HandOffIsBounded(run: seq<State>, who: seq<int>, i: nat, j: nat)
    requires IsRun(run) && IsSchedule(run, who) && i <= j <= |who| && 0 <= run[i].done < |run[i].tickets|
    requires Moves(run, who, i, j) >= 9
    ensures run[j].done > run[i].done
  {
    RankPaysForMoves(run, who, i, j);
    RunKeepsInv(run, i);
    RunKeepsInv(run, j);
    MoverMoves(run[i]);
    if run[j].done == run[i].done { MoverMoves(run[j]); }
  }

  // ----- the calls of a thread -----

  lemma OnlyOneMoves(s: State, s': State, t: int, u: int)
    requires Inv(s) && StepBy(s, s', u) && IsThread(s, t)
    ensures IsThread(s', t) && (u != t ==> s'.threads[t].pc == s.threads[t].pc)
    ensures s'.threads[t].pc.Exchange? || s'.threads[t].pc.ClearNext? ==> !Queued(s.threads[t].pc)
    ensures Waiting(s.threads[t].pc) ==> Waiting(s'.threads[t].pc) || s'.threads[t].pc.Critical?
  {
    StepKeepsInv(s, s', u);
  }

  lemma {:induction false} PastExchange(run: seq<State>, i: nat, j: nat, t: int) returns (k: nat)
    requires IsRun(run) && i < j < |run| && StepBy(run[i], run[i + 1], t) && run[i].threads[t].pc.Exchange?
    ensures IsThread(run[j], t)
    ensures (i < k <= j && IsThread(run[k], t) && run[k].threads[t].pc.Idle?) || Queued(run[j].threads[t].pc)
    decreases j
  {
    RunKeepsInv(run, j - 1);
    k := j;
    if i + 1 < j {
      k := PastExchange(run, i, j - 1, t);
      assert NextAt(run, j - 1);
      var u :| StepBy(run[j - 1], run[j], u);
      OnlyOneMoves(run[j - 1], run[j], t, u);
      if Queued(run[j - 1].threads[t].pc) && run[j].threads[t].pc.Idle? { k := j; }
    }
  }

  /** A thread that comes to the tail exchange again has returned from unlock in
      between. */
  lemma ReturnsBetween(run: seq<State>, i: nat, j: nat, t: int) returns (k: nat)
    requires IsRun(run) && i < j < |run| && StepBy(run[i], run[i + 1], t) && run[i].threads[t].pc.Exchange?
    requires IsThread(run[j], t) && run[j].threads[t].pc.Exchange?
    ensures i < k < j && IsThread(run[k], t) && run[k].threads[t].pc.Idle?
  {
    k := PastExchange(run, i, j, t);
  }

  lemma {:induction false} WaitsUntilCritical(run: seq<State>, i: nat, j: nat, t: int) returns (k: nat)
    requires IsRun(run) && i < j < |run| && StepBy(run[i], run[i + 1], t) && run[i].threads[t].pc.Exchange?
    ensures IsThread(run[j], t)
    ensures (i < k <= j && IsThread(run[k], t) && run[k].threads[t].pc.Critical?) || Waiting(run[j].threads[t].pc)
    decreases j
  {
    RunKeepsInv(run, j - 1);
    k := j;
    if i + 1 < j {
      k := WaitsUntilCritical(run, i, j - 1, t);
      assert NextAt(run, j - 1);
      var u :| StepBy(run[j - 1], run[j], u);
      OnlyOneMoves(run[j - 1], run[j], t, u);
      if Waiting(run[j - 1].threads[t].pc) && run[j].threads[t].pc.Critical? { k := j; }
    }
  }

  /** A thread that has left the queue was given its critical section in between. */
  lemma EntersBetween(run: seq<State>, i: nat, j: nat, t: int) returns (k: nat)
    requires IsRun(run) && i < j < |run| && StepBy(run[i], run[i + 1], t) && run[i].threads[t].pc.Exchange?
    requires IsThread(run[j], t) && !Queued(run[j].threads[t].pc)
    ensures i < k < j && IsThread(run[k], t) && run[k].threads[t].pc.Critical?
  {
    k := WaitsUntilCritical(run, i, j, t);
  }
}
