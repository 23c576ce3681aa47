/**
 The output side of an established connection: startWrite and doWrite of
 connection.cpp with the readiness hand-off of io_manager.cpp, as a step relation
 over any number of threads.  A thread appends to the output buffer, calls
 startWrite, runs a scheduled write turn, or reports a readiness event.

 A section under `m_write_` is one step that needs the mutex, except for the one
 that calls writeWhenReady: it holds the mutex over several steps.  A section
 under the descriptor's mutex is one step.  What the socket does is a choice.

 History variables, read by no step: `appended` and `sent` (all bytes ever put in
 the output buffer, and accepted by the socket), `turn` (where the write turn is),
 `unstarted` (bytes were appended since the last call of startWrite), `hollow`
 (some turn was started on an empty buffer), and the counts `events` (readiness
 events), `resumed` (those that resumed a turn), `merged` (those that found one
 remembered already) and `taken` (scheduled turns that were taken).
 */
module Connection {
  const NONE: int := -1

  type Bytes = seq<char>

  datatype Pc =
    | Idle
      // doWrite: at the top of the loop, before the write, and behind it
    | Top
    | Sending(size: int)
    | Settling(size: int, written: int)
    | TryAgain
      // in writeWhenReady, with `m_write_` held
    | Flags | Reschedule | Unlock
      // in writeIfWaiting, behind the descriptor's mutex
    | Notify

  /** Where the single write turn is. */
  datatype Turn =
    | Nowhere
    | Running(thread: int)
    | Scheduled
    | Waiting
    | Notified(thread: int)
    | Dead               // given up after an error or a write of no bytes

  datatype State = State(
    threads: seq<Pc>,
    out: Bytes,          // what the output buffer holds
    writing: bool,
    lock: int,           // the holder of `m_write_`
    canWrite: bool,
    waitingWrite: bool,
    scheduled: int,      // write turns in the task queue
    appended: Bytes,
    sent: Bytes,
    turn: Turn,
    unstarted: bool,
    hollow: bool,        // some write turn was started on an empty buffer
    events: int,
    resumed: int,
    merged: int,
    taken: int)

  predicate IsThread(s: State, t: int) {
    0 <= t < |s.threads|
  }

  // ----- steps -----

  datatype Step =
    | Append(bytes: Bytes)
    | StartWrite
    | TakeTurn
    | Ready              // a readiness event
    | ReadSize(size: int)
    | Sent(written: int)
    | Again
    | Failed
    | Go                 // the only thing to do

  function With(s: State, t: int, pc: Pc): seq<Pc>
    requires IsThread(s, t)
  {
    s.threads[t := pc]
  }

  function DoStartWrite(s: State, t: int): State
    requires IsThread(s, t)
  {
    if s.writing then s.(unstarted := false)
    else s.(threads := With(s, t, Top), writing := true, turn := Running(t), unstarted := false,
            hollow := s.hollow || s.out == [])
  }

  function DoReady(s: State, t: int): State
    requires IsThread(s, t)
  {
    if s.waitingWrite then
      s.(threads := With(s, t, Notify), waitingWrite := false, turn := Notified(t), events := s.events + 1,
         resumed := s.resumed + 1)
    else s.(canWrite := true, events := s.events + 1, merged := s.merged + if s.canWrite then 1 else 0)
  }

  /** What the thread does after a write of some bytes, under the mutex. */
  function DoSettle(s: State, t: int, size: int, written: int): State
    requires IsThread(s, t) && 0 <= written <= |s.out|
  {
    var rest := s.out[written..];
    if size == written && rest == []
    then s.(threads := With(s, t, Idle), out := rest, writing := false, turn := Nowhere)
    else s.(threads := With(s, t, Top), out := rest)
  }

  function DoFlags(s: State, t: int): State
    requires IsThread(s, t)
  {
    if s.canWrite then s.(threads := With(s, t, Reschedule), canWrite := false, resumed := s.resumed + 1)
    else s.(threads := With(s, t, Unlock), waitingWrite := true, turn := Waiting)
  }

  ghost predicate StepBy(s: State, s': State, t: int, e: Step) {
    && IsThread(s, t)
    && match s.threads[t]
       case Idle =>
         (match e
          case Append(bytes) =>
            s.lock == NONE && s' == s.(out := s.out + bytes, appended := s.appended + bytes, unstarted := true)
          case StartWrite => s.lock == NONE && s' == DoStartWrite(s, t)
          case TakeTurn =>
            && s.scheduled > 0
            && s' == s.(threads := With(s, t, Top), scheduled := s.scheduled - 1, turn := Running(t),
                        taken := s.taken + 1)
          case Ready => s' == DoReady(s, t)
          case _ => false)
       case Top =>
         // the contiguous part of a readable buffer is empty only if all of it is
         && e.ReadSize? && s.lock == NONE && 0 <= e.size <= |s.out| && (e.size == 0 ==> s.out == [])
         && s' == s.(threads := With(s, t, Sending(e.size)))
       case Sending(size) =>
         (match e
          case Sent(k) =>
            && 0 < k <= size
            && (k <= |s.out| ==> s' == s.(threads := With(s, t, Settling(size, k)), sent := s.sent + s.out[..k]))
          case Again => s' == s.(threads := With(s, t, TryAgain))
          case Failed => s.lock == NONE && s' == s.(threads := With(s, t, Idle), turn := Dead)
          case _ => false)
       case Settling(size, written) =>
         e.Go? && s.lock == NONE && (0 <= written <= |s.out| ==> s' == DoSettle(s, t, size, written))
       case TryAgain => e.Go? && s.lock == NONE && s' == s.(threads := With(s, t, Flags), lock := t)
       case Flags => e.Go? && s' == DoFlags(s, t)
       case Reschedule =>
         e.Go? && s' == s.(threads := With(s, t, Unlock), scheduled := s.scheduled + 1, turn := Scheduled)
       case Unlock => e.Go? && s' == s.(threads := With(s, t, Idle), lock := NONE)
       case Notify => e.Go? && s' == s.(threads := With(s, t, Idle), scheduled := s.scheduled + 1, turn := Scheduled)
  }

  ghost predicate Next(s: State, s': State) {
    exists t, e :: StepBy(s, s', t, e)
  }

  ghost predicate NextAt(run: seq<State>, i: nat) {
    i + 1 < |run| && Next(run[i], run[i + 1])
  }

  predicate Init(s: State) {
    && (forall t :: 0 <= t < |s.threads| ==> s.threads[t].Idle?)
    && s.out == [] && !s.writing && s.lock == NONE && !s.canWrite && !s.waitingWrite && s.scheduled == 0
    && s.appended == [] && s.sent == [] && s.turn == Nowhere && !s.unstarted && !s.hollow
    && s.events == 0 && s.resumed == 0 && s.merged == 0 && s.taken == 0
  }

  ghost predicate IsRun(run: seq<State>) {
    |run| > 0 && Init(run[0]) && forall i :: 0 <= i < |run| - 1 ==> NextAt(run, i)
  }

  // ----- the invariant -----

  /** In the loop of doWrite, or in writeWhenReady before it has passed it on. */
  predicate InTurn(pc: Pc) {
    pc.Top? || pc.Sending? || pc.Settling? || pc.TryAgain? || pc.Flags? || pc.Reschedule?
  }

  predicate HoldsLock(pc: Pc) {
    pc.Flags? || pc.Reschedule? || pc.Unlock?
  }

  predicate ThreadOk(s: State, t: int)
    requires IsThread(s, t)
  {
    var pc := s.threads[t];
    && (InTurn(pc) <==> s.turn == Running(t))
    && (pc.Notify? <==> s.turn == Notified(t))
    && (HoldsLock(pc) <==> s.lock == t)
    && (pc.Sending? ==> 0 <= pc.size <= |s.out| && (pc.size == 0 ==> s.hollow))
    && (pc.Settling? ==> 0 < pc.written <= pc.size <= |s.out|)
  }

  /** How many of the bytes in the buffer the socket has accepted already. */
  function InFlight(s: State): int {
    if s.turn.Running? && IsThread(s, s.turn.thread) && s.threads[s.turn.thread].Settling?
    then s.threads[s.turn.thread].written else 0
  }

  /** How many turns an event has resumed that no thread has taken yet. */
  function Underway(s: State): int {
    if s.turn.Scheduled? || s.turn.Notified? then 1
    else if s.turn.Running? && IsThread(s, s.turn.thread) && s.threads[s.turn.thread].Reschedule? then 1
    else 0
  }

  predicate StreamOk(s: State) {
    && 0 <= InFlight(s) <= |s.out|
    && s.appended == s.sent + s.out[InFlight(s)..]
  }

  predicate TurnOk(s: State) {
    && (s.writing <==> s.turn != Nowhere)
    && (s.turn.Running? ==> IsThread(s, s.turn.thread))
    && (s.turn.Notified? ==> IsThread(s, s.turn.thread))
    && s.scheduled == (if s.turn.Scheduled? then 1 else 0)
    && (s.waitingWrite <==> s.turn.Waiting?)
    && !(s.canWrite && s.waitingWrite)
    && s.events == s.resumed + s.merged + (if s.canWrite then 1 else 0)
    && s.resumed == s.taken + Underway(s) && s.merged >= 0 && s.taken >= 0
    && (s.lock == NONE || IsThread(s, s.lock))
    && (s.turn.Nowhere? && !s.unstarted ==> s.out == [])
    && (!s.turn.Nowhere? && !s.turn.Dead? && !s.hollow ==> s.out != [])
  }

  predicate Inv(s: State) {
    && StreamOk(s)
    && TurnOk(s)
    && (forall t {:trigger ThreadOk(s, t)} :: 0 <= t < |s.threads| ==> ThreadOk(s, t))
  }

  lemma InitInv(s: State)
    requires Init(s)
    ensures Inv(s)
  {
    assert InFlight(s) == 0 && s.sent + s.out[0..] == [];
    assert TurnOk(s);
    forall t | 0 <= t < |s.threads| ensures ThreadOk(s, t) { assert s.threads[t].Idle?; }
  }

  /** Calls and events that leave the buffer alone. */
  lemma CallOk(s: State, s': State, t: int, e: Step)
    requires Inv(s) && StepBy(s, s', t, e) && s.threads[t].Idle? && !e.Append?
    ensures Inv(s')
  {
    assert ThreadOk(s, t);
    forall u | 0 <= u < |s'.threads| ensures ThreadOk(s', u) { assert ThreadOk(s, u); }
  }

  /** Steps of a turn that leave the buffer alone. */
  lemma LoopOk(s: State, s': State, t: int, e: Step)
    requires Inv(s) && StepBy(s, s', t, e) && !e.Sent?
    requires s.threads[t].Top? || s.threads[t].Sending? || s.threads[t].TryAgain?
    ensures Inv(s')
  {
    assert ThreadOk(s, t);
    forall u | 0 <= u < |s'.threads| ensures ThreadOk(s', u) { assert ThreadOk(s, u); }
  }

  /** Steps in writeWhenReady, and behind the descriptor's mutex. */
  lemma HandOffOk(s: State, s': State, t: int, e: Step)
    requires Inv(s) && StepBy(s, s', t, e) && (HoldsLock(s.threads[t]) || s.threads[t].Notify?)
    ensures Inv(s')
  {
    assert ThreadOk(s, t);
    forall u | 0 <= u < |s'.threads| ensures ThreadOk(s', u) { assert ThreadOk(s, u); }
  }

  lemma StreamGrows(sent: Bytes, out: Bytes, n: int, bytes: Bytes)
    requires 0 <= n <= |out|
    ensures (sent + out[n..]) + bytes == sent + (out + bytes)[n..]
  {
  }

  lemma AppendOk(s: State, s': State, t: int, e: Step)
    requires Inv(s) && StepBy(s, s', t, e) && e.Append?
    ensures Inv(s')
  {
    assert ThreadOk(s, t);
    StreamGrows(s.sent, s.out, InFlight(s), e.bytes);
    forall u | 0 <= u < |s'.threads| ensures ThreadOk(s', u) { assert ThreadOk(s, u); }
  }

  lemma SentOk(s: State, s': State, t: int, e: Step)
    requires Inv(s) && StepBy(s, s', t, e) && e.Sent?
    ensures Inv(s')
  {
    assert ThreadOk(s, t);
    assert s.out == s.out[..e.written] + s.out[e.written..];
    forall u | 0 <= u < |s'.threads| ensures ThreadOk(s', u) { assert ThreadOk(s, u); }
  }

  lemma SettleOk(s: State, s': State, t: int, e: Step)
    requires Inv(s) && StepBy(s, s', t, e) && s.threads[t].Settling?
    ensures Inv(s')
  {
    assert ThreadOk(s, t);
    forall u | 0 <= u < |s'.threads| ensures ThreadOk(s', u) { assert ThreadOk(s, u); }
  }

  lemma StepKeepsInv(s: State, s': State, t: int, e: Step)
    requires Inv(s) && StepBy(s, s', t, e)
    ensures Inv(s')
  {
    if e.Append? {
      AppendOk(s, s', t, e);
    } else if e.Sent? {
      SentOk(s, s', t, e);
    } else if s.threads[t].Settling? {
      SettleOk(s, s', t, e);
    } else if s.threads[t].Idle? {
      CallOk(s, s', t, e);
    } else if HoldsLock(s.threads[t]) || s.threads[t].Notify? {
      HandOffOk(s, s', t, e);
    } else {
      LoopOk(s, s', t, e);
    }
  }

  lemma {:induction false} RunKeepsInv(run: seq<State>, i: nat)
    requires IsRun(run) && i < |run|
    ensures Inv(run[i])
  {
    if i == 0 {
      InitInv(run[0]);
    } else {
      RunKeepsInv(run, i - 1);
      assert NextAt(run, i - 1);
      var t, e :| StepBy(run[i - 1], run[i], t, e);
      StepKeepsInv(run[i - 1], run[i], t, e);
    }
  }

  // ----- what every run keeps -----

  /** Bytes leave the connection in the order in which they were appended, none
      lost, repeated or reordered. */
  lemma SentIsPrefix(run: seq<State>, i: nat)
    requires IsRun(run) && i < |run|
    ensures run[i].sent <= run[i].appended
    ensures run[i].turn == Nowhere && !run[i].unstarted ==> run[i].sent == run[i].appended
  {
    RunKeepsInv(run, i);
    var s := run[i];
    if s.out == [] { assert s.sent + s.out[InFlight(s)..] == s.sent; }
  }

  /** At most one write turn is running, scheduled, waiting for readiness, or about
      to be scheduled; and there is none only if `writing_` is clear. */
  lemma AtMostOneTurn(run: seq<State>, i: nat, t: int, u: int)
    requires IsRun(run) && i < |run| && IsThread(run[i], t) && IsThread(run[i], u)
    requires InTurn(run[i].threads[t]) || run[i].threads[t].Notify?
    ensures InTurn(run[i].threads[u]) || run[i].threads[u].Notify? ==> t == u
    ensures run[i].scheduled == 0 && !run[i].waitingWrite && run[i].writing
  {
    RunKeepsInv(run, i);
    assert ThreadOk(run[i], t) && ThreadOk(run[i], u);
  }

  lemma FlagsExclude(run: seq<State>, i: nat)
    requires IsRun(run) && i < |run|
    ensures !(run[i].canWrite && run[i].waitingWrite)
    ensures 0 <= run[i].scheduled <= 1 && (run[i].scheduled == 1 ==> !run[i].waitingWrite && run[i].writing)
    ensures run[i].waitingWrite ==> run[i].writing
  {
    RunKeepsInv(run, i);
  }

  /** Every event is accounted for: it resumed a turn, is remembered, or found one
      that was remembered already; and every turn that an event resumed was taken by
      a thread or is on its way there. */
  lemma EventsAreAccounted(run: seq<State>, i: nat)
    requires IsRun(run) && i < |run|
    ensures run[i].events == run[i].resumed + run[i].merged + if run[i].canWrite then 1 else 0
    ensures run[i].resumed == run[i].taken + Underway(run[i])
    ensures run[i].merged >= 0 && run[i].taken >= 0
  {
    RunKeepsInv(run, i);
  }

  /** From `i` on, the first state in which `t` has moved has the turn in the queue. */
  ghost predicate SchedulesNext(run: seq<State>, i: nat, t: int) {
    forall j: nat :: i < j < |run| && Stays(run, i, j - 1, t) ==> Stays(run, i, j, t) || run[j].scheduled == 1
  }

  ghost predicate Stays(run: seq<State>, i: nat, j: nat, t: int) {
    && i <= j < |run| && IsThread(run[i], t)
    && forall k :: i <= k <= j ==> IsThread(run[k], t) && run[k].threads[t] == run[i].threads[t]
  }

  lemma ScheduleStep(s: State, s': State, t: int, u: int, e: Step)
    requires Inv(s) && IsThread(s, t) && (s.threads[t].Notify? || s.threads[t].Reschedule?) && StepBy(s, s', u, e)
    ensures IsThread(s', t) && (s'.threads[t] == s.threads[t] || s'.scheduled == 1)
  {
    assert ThreadOk(s, t) && ThreadOk(s, u);
  }

  lemma AboutToSchedule(run: seq<State>, i: nat, t: int)
    requires IsRun(run) && i < |run| && IsThread(run[i], t)
    requires run[i].threads[t].Notify? || run[i].threads[t].Reschedule?
    ensures SchedulesNext(run, i, t)
  {
    forall j: nat | i < j < |run| && Stays(run, i, j - 1, t) ensures Stays(run, i, j, t) || run[j].scheduled == 1 {
      RunKeepsInv(run, j - 1);
      assert NextAt(run, j - 1);
      var u, e :| StepBy(run[j - 1], run[j], u, e);
      ScheduleStep(run[j - 1], run[j], t, u, e);
      assert run[j - 1].threads[t] == run[i].threads[t];
      if run[j].threads[t] == run[i].threads[t] {
        forall k | i <= k <= j ensures IsThread(run[k], t) && run[k].threads[t] == run[i].threads[t] {
          if k < j { assert Stays(run, i, j - 1, t); }
        }
      }
    }
  }

  /** An event that comes while the turn waits ends the waiting, and what its thread
      does next is to schedule the turn. */
  lemma EventResumesWaiter(run: seq<State>, i: nat, t: int)
    requires IsRun(run) && i + 1 < |run| && run[i].waitingWrite && StepBy(run[i], run[i + 1], t, Ready)
    ensures !run[i + 1].waitingWrite && run[i + 1].threads[t].Notify? && SchedulesNext(run, i + 1, t)
  {
    AboutToSchedule(run, i + 1, t);
  }

  /** A turn that gets to writeWhenReady uses the event that is remembered, and what
      its thread does next is to schedule the turn; without one it waits. */
  lemma EventIsRemembered(run: seq<State>, i: nat, t: int, e: Step)
    requires IsRun(run) && i + 1 < |run| && StepBy(run[i], run[i + 1], t, e) && run[i].threads[t].Flags?
    ensures !run[i + 1].canWrite && (run[i + 1].waitingWrite <==> !run[i].canWrite)
    ensures run[i].canWrite ==> run[i + 1].threads[t].Reschedule? && SchedulesNext(run, i + 1, t)
  {
    RunKeepsInv(run, i);
    assert ThreadOk(run[i], t);
    if run[i].canWrite { AboutToSchedule(run, i + 1, t); }
  }

  /** An event that comes while no turn waits is remembered. */
  lemma EventIsKept(run: seq<State>, i: nat, t: int)
    requires IsRun(run) && i + 1 < |run| && !run[i].waitingWrite && StepBy(run[i], run[i + 1], t, Ready)
    ensures run[i + 1].canWrite
  {
  }

  /** After a write that the socket refused, nothing is sent before the turn was
      resumed by an event and taken again. */
  lemma {:induction false} RefusedWaitsForEvent(run: seq<State>, i: nat, j: nat, t: int)
    requires IsRun(run) && i < j < |run| && StepBy(run[i], run[i + 1], t, Again)
    ensures run[j].taken > run[i].taken || AfterRefusal(run[i], run[j], t)
    decreases j
  {
    RunKeepsInv(run, j - 1);
    if i + 1 < j {
      RefusedWaitsForEvent(run, i, j - 1, t);
      assert NextAt(run, j - 1);
      var u, e :| StepBy(run[j - 1], run[j], u, e);
      assert ThreadOk(run[j - 1], u);
      if AfterRefusal(run[i], run[j - 1], t) { RefusalGoesOn(run[i], run[j - 1], run[j], t, u, e); }
    } else {
      assert ThreadOk(run[i], t);
    }
  }

  /** The turn of `t` is on its way from the refusal to the queue. */
  predicate AfterRefusal(s: State, s': State, t: int) {
    && s'.sent == s.sent && s'.taken == s.taken
    && (match s'.turn
        case Running(u) =>
          u == t && IsThread(s', t) && (s'.threads[t].TryAgain? || s'.threads[t].Flags? || s'.threads[t].Reschedule?)
        case Nowhere | Dead => false
        case _ => true)
  }

  lemma RefusalGoesOn(s: State, s1: State, s2: State, t: int, u: int, e: Step)
    requires Inv(s1) && AfterRefusal(s, s1, t) && StepBy(s1, s2, u, e)
    ensures s2.taken > s.taken || AfterRefusal(s, s2, t)
  {
    assert ThreadOk(s1, u);
    if IsThread(s1, t) { assert ThreadOk(s1, t); }
  }

  // ----- when sending stops for good -----

  /** Once the turn was given up, nothing is ever sent again. */
  lemma {:induction false} DeadForever(run: seq<State>, i: nat, j: nat)
    requires IsRun(run) && i <= j < |run| && run[i].turn == Dead
    ensures run[j].turn == Dead && run[j].writing && run[j].sent == run[i].sent
    decreases j
  {
    RunKeepsInv(run, i);
    if i < j {
      DeadForever(run, i, j - 1);
      RunKeepsInv(run, j - 1);
      assert NextAt(run, j - 1);
      var t, e :| StepBy(run[j - 1], run[j], t, e);
      assert ThreadOk(run[j - 1], t);
    }
  }

  /** Step `i` gives up the turn. */
  ghost predicate GivesUpAt(run: seq<State>, i: nat, t: int) {
    i + 1 < |run| && StepBy(run[i], run[i + 1], t, Failed)
  }

  /** The socket never fails a write of bytes. */
  ghost predicate BytesNeverFail(run: seq<State>) {
    forall i: nat, t {:trigger GivesUpAt(run, i, t)} :: GivesUpAt(run, i, t) ==> run[i].threads[t] == Sending(0)
  }

  /** Step `i` is a call of startWrite that takes the turn on an empty buffer. */
  ghost predicate HollowStartAt(run: seq<State>, i: nat) {
    i + 1 < |run| && run[i].out == [] && !run[i].writing && exists t :: StartsAt(run, i, t)
  }

  ghost predicate StartsAt(run: seq<State>, i: nat, t: int) {
    i + 1 < |run| && StepBy(run[i], run[i + 1], t, StartWrite)
  }

  lemma {:induction false} HollowHasStart(run: seq<State>, i: nat) returns (j: nat)
    requires IsRun(run) && i < |run| && run[i].hollow
    ensures j < i && HollowStartAt(run, j)
  {
    assert i > 0;
    if run[i - 1].hollow {
      j := HollowHasStart(run, i - 1);
    } else {
      RunKeepsInv(run, i - 1);
      assert NextAt(run, i - 1);
      var t, e :| StepBy(run[i - 1], run[i], t, e);
      assert ThreadOk(run[i - 1], t);
      assert e.StartWrite? && StartsAt(run, i - 1, t);
      j := i - 1;
    }
  }

  lemma OnlyFailedKills(s: State, s': State, t: int, e: Step)
    requires Inv(s) && StepBy(s, s', t, e) && s.turn != Dead && s'.turn == Dead
    ensures e == Failed
  {
    assert ThreadOk(s, t);
  }

  /** As long as the socket fails no write of bytes, the turn is given up only after
      some call of startWrite has taken it on an empty buffer. */
  lemma {:induction false} DeadNeedsHollowStart(run: seq<State>, i: nat) returns (j: nat)
    requires IsRun(run) && i < |run| && BytesNeverFail(run) && run[i].turn == Dead
    ensures j < i && HollowStartAt(run, j)
  {
    assert i > 0;
    if run[i - 1].turn == Dead {
      j := DeadNeedsHollowStart(run, i - 1);
    } else {
      RunKeepsInv(run, i - 1);
      assert NextAt(run, i - 1);
      var t, e :| StepBy(run[i - 1], run[i], t, e);
      OnlyFailedKills(run[i - 1], run[i], t, e);
      assert GivesUpAt(run, i - 1, t);
      assert ThreadOk(run[i - 1], t);
      j := HollowHasStart(run, i - 1);
    }
  }

  /** A call of startWrite that may take the turn can kill it, without any failure of
      the socket and any other thread, if and only if the buffer is empty. */
  lemma FatalIffEmpty(s: State, t: int)
    requires IsThread(s, t) && s.threads[t].Idle? && s.lock == NONE && !s.writing
    ensures CanKill(s, t) <==> s.out == []
  {
    var s1 := DoStartWrite(s, t);
    var s2 := s1.(threads := With(s1, t, Sending(0)));
    var s3 := s2.(threads := With(s2, t, Idle), turn := Dead);
    assert StepBy(s, s1, t, StartWrite);
    if s.out == [] {
      assert StepBy(s1, s2, t, ReadSize(0));
      assert StepBy(s2, s3, t, Failed);
    }
  }

  ghost predicate CanKill(s: State, t: int) {
    exists s1, s2, s3 :: StepBy(s, s1, t, StartWrite) && StepBy(s1, s2, t, ReadSize(0)) && StepBy(s2, s3, t, Failed)
  }

  lemma Extend(run: seq<State>, s: State, t: int, e: Step)
    requires IsRun(run) && StepBy(run[|run| - 1], s, t, e)
    ensures IsRun(run + [s])
  {
    var run' := run + [s];
    forall i | 0 <= i < |run'| - 1 ensures NextAt(run', i) {
      if i < |run| - 1 { assert NextAt(run, i); }
    }
  }

  /** The mutex is held by no thread, or by one that is about to release it. */
  lemma LockIsReleased(run: seq<State>, t: int) returns (run': seq<State>)
    requires IsRun(run) && IsThread(run[|run| - 1], t) && run[|run| - 1].threads[t] == Sending(0)
    ensures IsRun(run') && run <= run' && |run'| <= |run| + 1 && run'[|run'| - 1].lock == NONE
    ensures run'[|run'| - 1].sent == run[|run| - 1].sent && run'[|run'| - 1].writing
    ensures IsThread(run'[|run'| - 1], t) && run'[|run'| - 1].threads[t] == Sending(0)
  {
    RunKeepsInv(run, |run| - 1);
    var s := run[|run| - 1];
    run' := run;
    assert ThreadOk(s, t);
    if s.lock != NONE {
      var u := s.lock;
      assert ThreadOk(s, u);
      var s' := s.(threads := With(s, u, Idle), lock := NONE);
      Extend(run, s', u, Go);
      run' := run + [s'];
    }
  }

  /** Every turn that is asked to write nothing can be given up right there: from every
      reachable state with a thread at `Sending(0)` the run goes on to `Dead`, in at
      most two steps and with nothing sent. */
  lemma EmptyTurnCanDie(run: seq<State>, t: int) returns (run': seq<State>)
    requires IsRun(run) && IsThread(run[|run| - 1], t) && run[|run| - 1].threads[t] == Sending(0)
    ensures IsRun(run') && run <= run' && |run'| <= |run| + 2
    ensures run'[|run'| - 1].turn == Dead && run'[|run'| - 1].sent == run[|run| - 1].sent
    ensures |run'| >= 2 && GivesUpAt(run', |run'| - 2, t) && run'[|run'| - 2].threads[t] == Sending(0)
  {
    run' := LockIsReleased(run, t);
    var s := run'[|run'| - 1];
    var s' := s.(threads := With(s, t, Idle), turn := Dead);
    Extend(run', s', t, Failed);
    run' := run' + [s'];
  }

  // ----- sending is possible unless the turn was given up -----

  function Unsent(s: State): int {
    |s.out| - InFlight(s)
  }

  /** How far the thread of the turn is from a write of bytes. */
  function Distance(pc: Pc): int {
    match pc
    case Top => 1
    case Sending(size) => if size == 0 then 9 else 0
    case Settling(_, _) => 2
    case TryAgain => 8
    case Flags => 7
    case Reschedule => 6
    case _ => 0
  }

  /** How far the turn is from a write of bytes; a mutex that is about to be released
      comes first. */
  function Rank(s: State): int {
    var d := match s.turn
      case Running(t) => if IsThread(s, t) then Distance(s.threads[t]) else 0
      case Nowhere => 2
      case Scheduled => 3
      case Notified(_) => 4
      case Waiting => 5
      case Dead => 0;
    2 * d + if IsThread(s, s.lock) && s.threads[s.lock].Unlock? then 1 else 0
  }

  /** One step closer to having sent what is in the buffer, without giving up. */
  ghost predicate Closer(s: State, s': State, t: int, e: Step) {
    && StepBy(s, s', t, e) && s'.turn != Dead && s'.appended == s.appended
    && 0 <= Unsent(s') <= Unsent(s) && (Unsent(s') == Unsent(s) ==> 0 <= Rank(s') < Rank(s))
  }

  /** The thread that holds the mutex is in writeWhenReady, or leaving it. */
  lemma HolderMoves(s: State) returns (s': State, t: int, e: Step)
    requires Inv(s) && s.turn != Dead && s.lock != NONE
    ensures Closer(s, s', t, e)
  {
    t, e := s.lock, Go;
    assert ThreadOk(s, t);
    if s.threads[t].Flags? {
      s' := DoFlags(s, t);
    } else if s.threads[t].Reschedule? {
      s' := s.(threads := With(s, t, Unlock), scheduled := s.scheduled + 1, turn := Scheduled);
    } else {
      s' := s.(threads := With(s, t, Idle), lock := NONE);
    }
    StepKeepsInv(s, s', t, e);
    if s.turn.Running? { assert ThreadOk(s, s.turn.thread); }
  }

  lemma RunnerMoves(s: State) returns (s': State, t: int, e: Step)
    requires Inv(s) && s.turn.Running? && s.lock == NONE && Unsent(s) > 0
    ensures Closer(s, s', t, e)
  {
    t := s.turn.thread;
    assert ThreadOk(s, t);
    match s.threads[t]
    case Top =>
      e, s' := ReadSize(|s.out|), s.(threads := With(s, t, Sending(|s.out|)));
    case Sending(size) =>
      if size == 0 {
        e, s' := Again, s.(threads := With(s, t, TryAgain));
      } else {
        e, s' := Sent(size), s.(threads := With(s, t, Settling(size, size)), sent := s.sent + s.out[..size]);
      }
    case Settling(size, written) =>
      e, s' := Go, DoSettle(s, t, size, written);
    case TryAgain =>
      e, s' := Go, s.(threads := With(s, t, Flags), lock := t);
  }

  /** With no turn at work and the mutex free, any thread can bring it back. */
  lemma CallerMoves(s: State, caller: int) returns (s': State, t: int, e: Step)
    requires Inv(s) && IsThread(s, caller) && !s.turn.Running? && s.turn != Dead && s.lock == NONE
    ensures Closer(s, s', t, e)
  {
    t := if s.turn.Notified? then s.turn.thread else caller;
    assert ThreadOk(s, t);
    match s.turn
    case Nowhere => e, s' := StartWrite, DoStartWrite(s, t);
    case Scheduled =>
      e, s' := TakeTurn, s.(threads := With(s, t, Top), scheduled := s.scheduled - 1, turn := Running(t),
                            taken := s.taken + 1);
    case Waiting => e, s' := Ready, DoReady(s, t);
    case Notified(_) => e, s' := Go, s.(threads := With(s, t, Idle), scheduled := s.scheduled + 1, turn := Scheduled);
  }

  lemma AppendOnly(s: State, s': State, t: int, e: Step)
    requires Inv(s) && StepBy(s, s', t, e)
    ensures |s.threads| == |s'.threads| && |s.appended| <= |s'.appended|
  {
    assert ThreadOk(s, t);
  }

  lemma BytesNeedThread(run: seq<State>)
    requires IsRun(run) && run[|run| - 1].out != []
    ensures IsThread(run[|run| - 1], 0)
  {
    assert |run| > 1;
    assert NextAt(run, |run| - 2);
    RunKeepsInv(run, |run| - 2);
    var t, e :| StepBy(run[|run| - 2], run[|run| - 1], t, e);
    AppendOnly(run[|run| - 2], run[|run| - 1], t, e);
  }

  /** Unless the turn was given up, the run can go on until all bytes are sent. */
  lemma {:induction false} CanDeliver(run: seq<State>) returns (run': seq<State>)
    requires IsRun(run) && run[|run| - 1].turn != Dead
    ensures IsRun(run') && run <= run' && run'[|run'| - 1].appended == run[|run| - 1].appended
    ensures run'[|run'| - 1].sent == run[|run| - 1].appended
    decreases Unsent(run[|run| - 1]), Rank(run[|run| - 1])
  {
    RunKeepsInv(run, |run| - 1);
    var s := run[|run| - 1];
    if Unsent(s) == 0 {
      run' := run;
      assert s.out[InFlight(s)..] == [];
    } else {
      BytesNeedThread(run);
      var s', t, e;
      if s.lock != NONE {
        s', t, e := HolderMoves(s);
      } else if s.turn.Running? {
        s', t, e := RunnerMoves(s);
      } else {
        s', t, e := CallerMoves(s, 0);
      }
      Extend(run, s', t, e);
      run' := CanDeliver(run + [s']);
    }
  }

  ghost predicate Delivers(run: seq<State>, run': seq<State>) {
    IsRun(run') && run <= run' && run'[|run'| - 1].sent == run'[|run'| - 1].appended
  }

  lemma {:induction false} AppendedGrows(run: seq<State>, i: nat, j: nat)
    requires IsRun(run) && i <= j < |run|
    ensures |run[i].appended| <= |run[j].appended|
    decreases j
  {
    if i < j {
      AppendedGrows(run, i, j - 1);
      RunKeepsInv(run, j - 1);
      assert NextAt(run, j - 1);
      var t, e :| StepBy(run[j - 1], run[j], t, e);
      AppendOnly(run[j - 1], run[j], t, e);
    }
  }

  /** What was appended can still be sent in full, if and only if the turn was not
      given up with bytes left. */
  lemma DeliverableIffAlive(run: seq<State>)
    requires IsRun(run)
    ensures (exists run' :: Delivers(run, run')) <==>
            run[|run| - 1].turn != Dead || run[|run| - 1].sent == run[|run| - 1].appended
  {
    var n := |run| - 1;
    if run[n].turn != Dead {
      var run' := CanDeliver(run);
      assert Delivers(run, run');
    } else if run[n].sent == run[n].appended {
      assert Delivers(run, run);
    } else {
      forall run' | Delivers(run, run') ensures false {
        assert run'[n] == run[n];
        SentIsPrefix(run, n);
        DeadForever(run', n, |run'| - 1);
        AppendedGrows(run', n, |run'| - 1);
      }
    }
  }

  // ----- how that happens -----

  /** The parts of a state that change below. */
  function Snap(threads: seq<Pc>, out: Bytes, appended: Bytes, sent: Bytes, turn: Turn,
                unstarted: bool, hollow: bool): State
  {
    State(threads, out, turn != Nowhere, NONE, false, false, 0, appended, sent, turn, unstarted, hollow,
          0, 0, 0, 0)
  }

  function Idlers(n: nat): seq<Pc> {
    seq(n, _ => Idle)
  }

  /** Thread 0 appends `x` and starts to send it; thread 1 appends `y` meanwhile; the
      turn of thread 0 sends both; then thread 1 calls startWrite, as it must. */
  function Stage(n: nat, x: Bytes, y: Bytes, z: Bytes, i: nat): State
    requires n >= 2
  {
    var idle := Idlers(n);
    match i
    case 0 => Snap(idle, [], [], [], Nowhere, false, false)
    case 1 => Snap(idle, x, x, [], Nowhere, true, false)
    case 2 => Snap(idle[0 := Top], x, x, [], Running(0), false, false)
    case 3 => Snap(idle[0 := Sending(|x|)], x, x, [], Running(0), false, false)
    case 4 => Snap(idle[0 := Sending(|x|)], x + y, x + y, [], Running(0), true, false)
    case 5 => Snap(idle[0 := Settling(|x|, |x|)], x + y, x + y, x, Running(0), true, false)
    case 6 => Snap(idle[0 := Top], y, x + y, x, Running(0), true, false)
    case 7 => Snap(idle[0 := Sending(|y|)], y, x + y, x, Running(0), true, false)
    case 8 => Snap(idle[0 := Settling(|y|, |y|)], y, x + y, x + y, Running(0), true, false)
    case 9 => Snap(idle, [], x + y, x + y, Nowhere, true, false)
    case 10 => Snap(idle[1 := Top], [], x + y, x + y, Running(1), false, true)
    case 11 => Snap(idle[1 := Sending(0)], [], x + y, x + y, Running(1), false, true)
    case 12 => Snap(idle, [], x + y, x + y, Dead, false, true)
    case _ => Snap(idle, z, x + y + z, x + y, Dead, true, true)
  }

  lemma StagesStart(n: nat, x: Bytes, y: Bytes, z: Bytes)
    requires n >= 2 && x != []
    ensures StepBy(Stage(n, x, y, z, 0), Stage(n, x, y, z, 1), 0, Append(x))
    ensures StepBy(Stage(n, x, y, z, 1), Stage(n, x, y, z, 2), 0, StartWrite)
    ensures StepBy(Stage(n, x, y, z, 2), Stage(n, x, y, z, 3), 0, ReadSize(|x|))
  {
    assert [] + x == x;
  }

  lemma StagesFirst(n: nat, x: Bytes, y: Bytes, z: Bytes)
    requires n >= 2 && x != [] && y != []
    ensures StepBy(Stage(n, x, y, z, 3), Stage(n, x, y, z, 4), 1, Append(y))
    ensures StepBy(Stage(n, x, y, z, 4), Stage(n, x, y, z, 5), 0, Sent(|x|))
    ensures StepBy(Stage(n, x, y, z, 5), Stage(n, x, y, z, 6), 0, Go)
  {
    assert (x + y)[..|x|] == x && (x + y)[|x|..] == y && [] + x == x;
    assert Idlers(n)[0 := Settling(|x|, |x|)][0 := Top] == Idlers(n)[0 := Top];
  }

  lemma StagesSecond(n: nat, x: Bytes, y: Bytes, z: Bytes)
    requires n >= 2 && y != []
    ensures StepBy(Stage(n, x, y, z, 6), Stage(n, x, y, z, 7), 0, ReadSize(|y|))
    ensures StepBy(Stage(n, x, y, z, 7), Stage(n, x, y, z, 8), 0, Sent(|y|))
    ensures StepBy(Stage(n, x, y, z, 8), Stage(n, x, y, z, 9), 0, Go)
  {
    assert y[..|y|] == y && y[|y|..] == [];
    assert Idlers(n)[0 := Settling(|y|, |y|)][0 := Idle] == Idlers(n);
  }

  lemma StagesStop(n: nat, x: Bytes, y: Bytes, z: Bytes)
    requires n >= 2
    ensures StepBy(Stage(n, x, y, z, 9), Stage(n, x, y, z, 10), 1, StartWrite)
    ensures StepBy(Stage(n, x, y, z, 10), Stage(n, x, y, z, 11), 1, ReadSize(0))
    ensures StepBy(Stage(n, x, y, z, 11), Stage(n, x, y, z, 12), 1, Failed)
    ensures StepBy(Stage(n, x, y, z, 12), Stage(n, x, y, z, 13), 0, Append(z))
  {
    assert Idlers(n)[1 := Sending(0)][1 := Idle] == Idlers(n);
    assert [] + z == z;
  }

  lemma StagesFollow(n: nat, x: Bytes, y: Bytes, z: Bytes, i: nat)
    requires n >= 2 && x != [] && y != [] && i < 13
    ensures Next(Stage(n, x, y, z, i), Stage(n, x, y, z, i + 1))
  {
    if i < 3 {
      StagesStart(n, x, y, z);
    } else if i < 6 {
      StagesFirst(n, x, y, z);
    } else if i < 9 {
      StagesSecond(n, x, y, z);
    } else {
      StagesStop(n, x, y, z);
    }
  }

  /** The race of two threads that both append and then call startWrite: whatever
      they append, the call that comes late can end all sending, and what is appended
      then stays in the buffer for ever, although every write of bytes succeeded. */
  lemma DeliveryCanStop(n: nat, x: Bytes, y: Bytes, z: Bytes) returns (run: seq<State>)
    requires n >= 2 && x != [] && y != []
    ensures IsRun(run) && |run| == 14 && GivesUpAt(run, 11, 1) && run[11].threads[1] == Sending(0)
    ensures BytesNeverFail(run)
    ensures run[13].turn == Dead && run[13].sent == x + y && run[13].appended == x + y + z
  {
    StagesStop(n, x, y, z);
    run := seq(14, i requires 0 <= i => Stage(n, x, y, z, i));
    forall i | 0 <= i < 13 ensures NextAt(run, i) {
      assert run[i] == Stage(n, x, y, z, i) && run[i + 1] == Stage(n, x, y, z, i + 1);
      StagesFollow(n, x, y, z, i);
    }
    forall i: nat, t | GivesUpAt(run, i, t) ensures run[i].threads[t] == Sending(0) {
      OneGivesUp(n, x, y, z, i, t);
    }
  }

  lemma OneGivesUp(n: nat, x: Bytes, y: Bytes, z: Bytes, i: nat, t: int)
    requires n >= 2 && i < 13 && StepBy(Stage(n, x, y, z, i), Stage(n, x, y, z, i + 1), t, Failed)
    ensures Stage(n, x, y, z, i).threads[t] == Sending(0)
  {
    assert Stage(n, x, y, z, i + 1).turn == Dead;
  }
}
