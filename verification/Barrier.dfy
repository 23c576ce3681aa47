/**
 The reusable two-semaphore barrier of thread_barrier.hpp as a step relation: any
 number of calling threads, any interleaving of semaphore operations and of
 single reads and writes of the unprotected counter.

 History variables, read by no step: `owner` (the thread between a sem_wait and
 the matching sem_post), `arrived` and `departed` (the threads that passed the
 two gates in the current round) and `rounds` (the completed rounds).
 */
module Barrier {
  const NONE: int := -1

  datatype Pc =
    | Idle
    | WaitArrival | ReadUp | WriteUp | TestUp | PostArrival | PostDeparture
    | WaitDeparture | ReadDown | WriteDown | TestDown | PostDepartureAgain | PostArrivalAgain

  /** `seen` is the value of the counter between its read and its write. */
  datatype Thread = Thread(pc: Pc, seen: int)

  datatype Round = Round(arrived: set<int>, departed: set<int>)

  datatype State = State(
    threads: seq<Thread>,
    participants: int,
    arrival: int,
    departure: int,
    counter: int,
    owner: int,
    arrived: set<int>,
    departed: set<int>,
    rounds: seq<Round>)

  predicate IsThread(s: State, t: int) {
    0 <= t < |s.threads|
  }

  function Put(s: State, t: int, th: Thread): State
    requires IsThread(s, t)
  {
    s.(threads := s.threads[t := th])
  }

  /** sem_wait blocks on 0. */
  predicate Enabled(s: State, t: int)
    requires IsThread(s, t)
  {
    var pc := s.threads[t].pc;
    (pc.WaitArrival? ==> s.arrival > 0) && (pc.WaitDeparture? ==> s.departure > 0)
  }

  /** Writes the decremented counter; at 0 the round is over. */
  function DoWriteDown(s: State, t: int): State
    requires IsThread(s, t)
  {
    var c := s.threads[t].seen - 1;
    var s' := Put(s.(counter := c), t, s.threads[t].(pc := TestDown));
    if c == 0 then s'.(arrived := {}, departed := {}, rounds := s.rounds + [Round(s.arrived, s.departed)]) else s'
  }

  function Do(s: State, t: int): State
    requires IsThread(s, t)
  {
    var th := s.threads[t];
    match th.pc
    case Idle => Put(s, t, th.(pc := WaitArrival))
    case WaitArrival => Put(s.(arrival := s.arrival - 1, owner := t, arrived := s.arrived + {t}), t, th.(pc := ReadUp))
    case ReadUp => Put(s, t, th.(seen := s.counter, pc := WriteUp))
    case WriteUp => Put(s.(counter := th.seen + 1), t, th.(pc := TestUp))
    case TestUp => Put(s, t, th.(pc := if s.counter < s.participants then PostArrival else PostDeparture))
    case PostArrival => Put(s.(arrival := s.arrival + 1, owner := NONE), t, th.(pc := WaitDeparture))
    case PostDeparture => Put(s.(departure := s.departure + 1, owner := NONE), t, th.(pc := WaitDeparture))
    case WaitDeparture =>
      Put(s.(departure := s.departure - 1, owner := t, departed := s.departed + {t}), t, th.(pc := ReadDown))
    case ReadDown => Put(s, t, th.(seen := s.counter, pc := WriteDown))
    case WriteDown => DoWriteDown(s, t)
    case TestDown => Put(s, t, th.(pc := if s.counter > 0 then PostDepartureAgain else PostArrivalAgain))
    case PostDepartureAgain => Put(s.(departure := s.departure + 1, owner := NONE), t, th.(pc := Idle))
    case PostArrivalAgain => Put(s.(arrival := s.arrival + 1, owner := NONE), t, th.(pc := Idle))
  }

  ghost predicate StepBy(s: State, s': State, t: int) {
    IsThread(s, t) && Enabled(s, t) && s' == Do(s, t)
  }

  ghost predicate Next(s: State, s': State) {
    exists t :: StepBy(s, s', t)
  }

  ghost predicate NextAt(run: seq<State>, i: nat) {
    i + 1 < |run| && Next(run[i], run[i + 1])
  }

  predicate Init(s: State) {
    && s.participants >= 1 && s.arrival == 1 && s.departure == 0 && s.counter == 0
    && s.owner == NONE && s.arrived == {} && s.departed == {} && s.rounds == []
    && forall t :: 0 <= t < |s.threads| ==> s.threads[t].pc.Idle?
  }

  ghost predicate IsRun(run: seq<State>) {
    |run| > 0 && Init(run[0]) && forall i :: 0 <= i < |run| - 1 ==> NextAt(run, i)
  }

  // ----- the invariant -----

  predicate Critical(pc: Pc) {
    !pc.Idle? && !pc.WaitArrival? && !pc.WaitDeparture?
  }

  /** Past the first gate of a round and not past the second. */
  predicate Between(pc: Pc) {
    pc.ReadUp? || pc.WriteUp? || pc.TestUp? || pc.PostArrival? || pc.PostDeparture? || pc.WaitDeparture?
  }

  predicate ThreadOk(s: State, t: int)
    requires IsThread(s, t)
  {
    && (Critical(s.threads[t].pc) <==> t == s.owner)
    && (Between(s.threads[t].pc) <==> t in s.arrived && t !in s.departed)
  }

  /** Filling up: `counted` threads have arrived and counted themselves. */
  predicate Filling(s: State, counted: int) {
    s.departed == {} && s.counter == counted && 0 <= counted < s.participants
  }

  /** Everyone has arrived, and `counted` threads have left and said so. */
  predicate Draining(s: State, counted: int) {
    |s.arrived| == s.participants && s.counter == s.participants - counted && 0 <= counted < s.participants
  }

  predicate Fresh(s: State) {
    s.arrived == {} && s.departed == {} && s.counter == 0
  }

  /** Who holds the token, and what the counter says. */
  predicate TokenOk(s: State) {
    if s.owner == NONE then
      || (s.arrival == 1 && s.departure == 0 && Filling(s, |s.arrived|))
      || (s.arrival == 0 && s.departure == 1 && Draining(s, |s.departed|))
    else
      && IsThread(s, s.owner) && s.arrival == 0 && s.departure == 0
      && OwnerOk(s, s.threads[s.owner])
  }

  predicate OwnerOk(s: State, th: Thread) {
    var a, d := |s.arrived|, |s.departed|;
    match th.pc
    case ReadUp => Filling(s, a - 1)
    case WriteUp => Filling(s, a - 1) && th.seen == s.counter
    case TestUp => d == 0 && s.counter == a <= s.participants
    case PostArrival => Filling(s, a)
    case PostDeparture => d == 0 && Draining(s, 0)
    case ReadDown => Draining(s, d - 1)
    case WriteDown => Draining(s, d - 1) && th.seen == s.counter
    case TestDown => Draining(s, d) || Fresh(s)
    case PostDepartureAgain => Draining(s, d)
    case PostArrivalAgain => Fresh(s)
    case _ => false
  }

  predicate RoundOk(s: State, r: Round) {
    |r.arrived| == s.participants && r.departed == r.arrived
  }

  predicate Inv(s: State) {
    && s.participants >= 1
    && s.departed <= s.arrived
    && TokenOk(s)
    && (forall t :: t in s.arrived ==> IsThread(s, t))
    && (forall t {:trigger ThreadOk(s, t)} :: 0 <= t < |s.threads| ==> ThreadOk(s, t))
    && (forall k :: 0 <= k < |s.rounds| ==> RoundOk(s, s.rounds[k]))
  }

  lemma SubsetCard(a: set<int>, b: set<int>)
    requires a <= b
    ensures |a| <= |b| && (|a| == |b| ==> a == b)
  {
    assert b == a + (b - a);
  }

  /** After a step, the threads other than the one that moved are as they were. */
  lemma OthersOk(s: State, s': State, t: int)
    requires Inv(s) && IsThread(s, t) && |s'.threads| == |s.threads|
    requires forall u :: 0 <= u < |s.threads| && u != t ==> s'.threads[u] == s.threads[u]
    requires s'.owner == s.owner || ((s.owner == NONE || s.owner == t) && (s'.owner == NONE || s'.owner == t))
    requires forall u :: u != t ==> (u in s.arrived && u !in s.departed <==> u in s'.arrived && u !in s'.departed)
    requires ThreadOk(s', t)
    ensures forall u :: 0 <= u < |s'.threads| ==> ThreadOk(s', u)
  {
    forall u | 0 <= u < |s'.threads| ensures ThreadOk(s', u) {
      assert ThreadOk(s, u);
    }
  }

  lemma WriteDownOk(s: State, t: int)
    requires Inv(s) && IsThread(s, t) && s.threads[t].pc.WriteDown?
    ensures Inv(DoWriteDown(s, t))
  {
    assert ThreadOk(s, t);
    SubsetCard(s.departed, s.arrived);
    OthersOk(s, DoWriteDown(s, t), t);
  }

  lemma ArriveOk(s: State, t: int)
    requires Inv(s) && IsThread(s, t) && Enabled(s, t) && s.threads[t].pc.WaitArrival?
    ensures Inv(Do(s, t))
  {
    assert ThreadOk(s, t);
    OthersOk(s, Do(s, t), t);
  }

  lemma DepartOk(s: State, t: int)
    requires Inv(s) && IsThread(s, t) && Enabled(s, t) && s.threads[t].pc.WaitDeparture?
    ensures Inv(Do(s, t))
  {
    assert ThreadOk(s, t);
    SubsetCard(s.departed, s.arrived);
    OthersOk(s, Do(s, t), t);
  }

  /** The steps between a sem_wait and the matching sem_post. */
  lemma CountOk(s: State, t: int)
    requires Inv(s) && IsThread(s, t)
    requires var pc := s.threads[t].pc;
      pc.ReadUp? || pc.WriteUp? || pc.TestUp? || pc.ReadDown? || pc.TestDown? || pc.Idle?
    ensures Inv(Do(s, t))
  {
    assert ThreadOk(s, t);
    OthersOk(s, Do(s, t), t);
  }

  lemma PostOk(s: State, t: int)
    requires Inv(s) && IsThread(s, t)
    requires var pc := s.threads[t].pc;
      pc.PostArrival? || pc.PostDeparture? || pc.PostDepartureAgain? || pc.PostArrivalAgain?
    ensures Inv(Do(s, t))
  {
    assert ThreadOk(s, t);
    OthersOk(s, Do(s, t), t);
  }

  lemma StepKeepsInv(s: State, s': State, t: int)
    requires Inv(s) && StepBy(s, s', t)
    ensures Inv(s') && s'.participants == s.participants && |s'.threads| == |s.threads|
  {
    match s.threads[t].pc
    case WaitArrival => ArriveOk(s, t);
    case WaitDeparture => DepartOk(s, t);
    case WriteDown => WriteDownOk(s, t);
    case PostArrival | PostDeparture | PostDepartureAgain | PostArrivalAgain => PostOk(s, t);
    case _ => CountOk(s, t);
  }

  lemma {:induction false} RunKeepsInv(run: seq<State>, i: nat)
    requires IsRun(run) && i < |run|
    ensures Inv(run[i])
  {
    if i > 0 {
      RunKeepsInv(run, i - 1);
      assert NextAt(run, i - 1);
      var t :| StepBy(run[i - 1], run[i], t);
      StepKeepsInv(run[i - 1], run[i], t);
    }
  }

  // ----- what every run keeps -----

  /** The two semaphores and the threads in a critical section total one. */
  lemma OneToken(run: seq<State>, i: nat)
    requires IsRun(run) && i < |run|
    ensures run[i].arrival >= 0 && run[i].departure >= 0
    ensures run[i].arrival + run[i].departure
          + |set t | 0 <= t < |run[i].threads| && Critical(run[i].threads[t].pc)| == 1
  {
    RunKeepsInv(run, i);
    var s := run[i];
    var critical := set t | 0 <= t < |s.threads| && Critical(s.threads[t].pc);
    forall t | 0 <= t < |s.threads| ensures Critical(s.threads[t].pc) <==> t == s.owner { assert ThreadOk(s, t); }
    assert critical == if s.owner == NONE then {} else {s.owner};
  }

  /** A thread passes the second gate of a round only after exactly as many threads
      as there are participants passed the first one, and it is one of them. */
  lemma GateOpensWhenAllArrived(run: seq<State>, i: nat, t: int)
    requires IsRun(run) && i + 1 < |run| && StepBy(run[i], run[i + 1], t) && run[i].threads[t].pc.WaitDeparture?
    ensures |run[i].arrived| == run[i].participants && t in run[i].arrived && t !in run[i].departed
  {
    RunKeepsInv(run, i);
    assert ThreadOk(run[i], t);
  }

  /** A thread passes the first gate only when no one is still between the gates of
      an earlier round, or has left it without saying so. */
  lemma AllLeftBeforeNextRound(run: seq<State>, i: nat, t: int)
    requires IsRun(run) && i + 1 < |run| && StepBy(run[i], run[i + 1], t) && run[i].threads[t].pc.WaitArrival?
    ensures run[i].departed == {} && |run[i].arrived| < run[i].participants
    ensures forall u :: IsThread(run[i], u) ==> !Critical(run[i].threads[u].pc)
    ensures forall u :: IsThread(run[i], u) && Between(run[i].threads[u].pc) ==> u in run[i].arrived
  {
    RunKeepsInv(run, i);
    assert ThreadOk(run[i], t);
    forall u | IsThread(run[i], u)
      ensures !Critical(run[i].threads[u].pc) && (Between(run[i].threads[u].pc) ==> u in run[i].arrived)
    {
      assert ThreadOk(run[i], u);
    }
  }

  /** Every completed round had exactly the right number of threads, and those that
      left it are those that arrived. */
  lemma RoundsAreComplete(run: seq<State>, i: nat, k: nat)
    requires IsRun(run) && i < |run| && k < |run[i].rounds|
    ensures |run[i].rounds[k].arrived| == run[i].participants
    ensures run[i].rounds[k].departed == run[i].rounds[k].arrived
  {
    RunKeepsInv(run, i);
  }

  /** No thread that has called wait can move. */
  predicate Stuck(s: State) {
    forall t :: 0 <= t < |s.threads| && !s.threads[t].pc.Idle? ==> !Enabled(s, t)
  }

  /** Only missing participants can hold up the others: if no thread in wait can move,
      then all of them wait at the second gate, and are too few. */
  lemma BlockedOnlyForMissing(run: seq<State>, i: nat)
    requires IsRun(run) && i < |run| && Stuck(run[i])
    ensures |run[i].arrived| < run[i].participants
    ensures forall u :: u in run[i].arrived <==> IsThread(run[i], u) && !run[i].threads[u].pc.Idle?
    ensures forall u :: u in run[i].arrived ==> IsThread(run[i], u) && run[i].threads[u].pc.WaitDeparture?
  {
    RunKeepsInv(run, i);
    var s := run[i];
    if s.owner != NONE {
      OwnerMoves(s);
    } else if s.departure == 1 {
      var _ := LeaverMoves(s);
    }
    forall u | IsThread(s, u)
      ensures u in s.arrived <==> !s.threads[u].pc.Idle?
      ensures !s.threads[u].pc.Idle? ==> s.threads[u].pc.WaitDeparture?
    {
      assert ThreadOk(s, u);
    }
  }

  lemma OwnerMoves(s: State)
    requires Inv(s) && s.owner != NONE
    ensures IsThread(s, s.owner) && !s.threads[s.owner].pc.Idle? && Enabled(s, s.owner)
  {
    assert ThreadOk(s, s.owner);
  }

  /** While a round drains, a thread that has not left it can. */
  lemma LeaverMoves(s: State) returns (t: int)
    requires Inv(s) && s.owner == NONE && s.departure == 1
    ensures IsThread(s, t) && !s.threads[t].pc.Idle? && Enabled(s, t)
  {
    SameIfAllIn(s.arrived, s.departed);
    t :| t in s.arrived && t !in s.departed;
    assert ThreadOk(s, t);
  }

  lemma SameIfAllIn(a: set<int>, b: set<int>)
    ensures b <= a && (forall t :: t in a ==> t in b) ==> a == b
  {
    if b <= a && forall t :: t in a ==> t in b { assert a == b; }
  }

  // ----- every call returns -----

  /** The steps that are left until wait returns. */
  function ThreadWork(pc: Pc): nat {
    match pc
    case Idle => 0
    case WaitArrival => 11
    case ReadUp => 10
    case WriteUp => 9
    case TestUp => 8
    case PostArrival | PostDeparture => 7
    case WaitDeparture => 6
    case ReadDown => 5
    case WriteDown => 4
    case TestDown => 3
    case PostDepartureAgain | PostArrivalAgain => 2
  }

  /** The steps of a thread that has called wait lead to its return, one by one: so it
      returns after at most eleven steps of its own. */
  lemma {:induction false} StepsOfCall(run: seq<State>, i: nat, j: nat, t: int)
    requires IsRun(run) && i <= j < |run| && IsThread(run[i], t)
    requires forall k :: i <= k < j ==> IsThread(run[k], t) && !run[k].threads[t].pc.Idle?
    ensures IsThread(run[j], t)
    ensures ThreadWork(run[j].threads[t].pc) + StepsOf(run, i, j, t) <= ThreadWork(run[i].threads[t].pc)
    decreases j
  {
    if i < j {
      StepsOfCall(run, i, j - 1, t);
      assert NextAt(run, j - 1);
      var u :| StepBy(run[j - 1], run[j], u);
      StepWorks(run[j - 1], run[j], t, u);
    }
  }

  lemma StepWorks(s: State, s': State, t: int, u: int)
    requires StepBy(s, s', u) && IsThread(s, t) && !s.threads[t].pc.Idle?
    ensures IsThread(s', t)
    ensures PcAt(s', t) == PcAt(s, t) || ThreadWork(PcAt(s', t)) < ThreadWork(PcAt(s, t))
  {
  }

  /** How many of the steps from `i` to `j` moved thread `t`. */
  function StepsOf(run: seq<State>, i: nat, j: nat, t: int): nat
    requires i <= j < |run|
    decreases j
  {
    if i == j then 0
    else StepsOf(run, i, j - 1, t) + if PcAt(run[j], t) != PcAt(run[j - 1], t) then 1 else 0
  }

  function PcAt(s: State, t: int): Pc {
    if IsThread(s, t) then s.threads[t].pc else Idle
  }

  lemma {:induction false} PastFirstGate(run: seq<State>, i: nat, j: nat, t: int) returns (k: nat)
    requires IsRun(run) && i < j < |run| && StepBy(run[i], run[i + 1], t) && run[i].threads[t].pc.WaitArrival?
    ensures IsThread(run[j], t)
    ensures || (i < k <= j && IsThread(run[k], t) && run[k].threads[t].pc.Idle?)
            || 0 < ThreadWork(run[j].threads[t].pc) < ThreadWork(WaitArrival)
    decreases j
  {
    k := j;
    if i + 1 < j {
      k := PastFirstGate(run, i, j - 1, t);
      assert NextAt(run, j - 1);
      var u :| StepBy(run[j - 1], run[j], u);
      if !(i < k <= j - 1 && IsThread(run[k], t) && run[k].threads[t].pc.Idle?) { k := j; }
    }
  }

  /** A thread that comes to the first gate again has returned from wait in between. */
  lemma ReturnsBetween(run: seq<State>, i: nat, j: nat, t: int) returns (k: nat)
    requires IsRun(run) && i < j < |run| && StepBy(run[i], run[i + 1], t) && run[i].threads[t].pc.WaitArrival?
    requires IsThread(run[j], t) && run[j].threads[t].pc.WaitArrival?
    ensures i < k < j && IsThread(run[k], t) && run[k].threads[t].pc.Idle?
  {
    k := PastFirstGate(run, i, j, t);
  }
}
