/**
 The hand-off thread pool of thread_pool_fast.cpp as a step relation: any number
 of workers and of other threads that call the pool, in any interleaving.

 The dispatch mutex is taken and released in steps of its own.  The mutex of a
 worker is folded into the two short sections that it protects: the assignment of
 a task, and the loop of the worker that waits for one.  A worker reads its task
 slot after it has left that section.

 Task 0 is the NULL callback.  The list of free workers is kept with its front at
 the end.  History variables, read by no step: `added` (the tasks in the order of
 the calls of addTask), `handed` and `handedTo` (the tasks in the order in which
 they were assigned, and to whom), `pending` (a task between its removal from the
 queue and its assignment), `taken` and `finished` (which of the handed tasks their
 worker has taken, and has run to the end), `quit` (the workers that left as the
 last one), and the fields `status`, `index` and `place` of a worker.
 */
module ThreadPool {
  const NONE: int := -1
  const NULL: int := 0

  datatype Call = Add(task: int) | Enlist(worker: int)

  /** Where a thread is in addTask or queueWorker. */
  datatype Pc =
    | Outside
    | Lock(call: Call)
    | Decide(call: Call)
    | Assign(task: int, worker: int)
    | Unlock

  /** Where a worker is in its loop. */
  datatype Loop = Waiting | Testing | Running | Returning | Exited

  datatype Status =
    | New
    | Listing(who: int)    // queueWorker was called for it by thread `who`
    | Free
    | Reserved             // taken off the list, or picked for a queued task
    | Assigned             // has a task that it has not taken
    | Busy                 // has taken it

  datatype Worker = Worker(loop: Loop, hasTask: bool, task: int, status: Status, index: int, place: int)

  /** Thread `i` with `i < |workers|` is the thread of worker `i`. */
  datatype State = State(
    workers: seq<Worker>,
    threads: seq<Pc>,
    lock: int,
    free: seq<int>,
    queue: seq<int>,
    added: seq<int>,
    handed: seq<int>,
    handedTo: seq<int>,
    pending: seq<int>,
    taken: set<int>,
    finished: set<int>,
    quit: set<int>)

  predicate IsWorker(s: State, w: int) {
    0 <= w < |s.workers|
  }

  predicate IsThread(s: State, t: int) {
    0 <= t < |s.threads|
  }

  function SetPc(s: State, t: int, pc: Pc): State
    requires IsThread(s, t)
  {
    s.(threads := s.threads[t := pc])
  }

  function SetWorker(s: State, w: int, wk: Worker): State
    requires IsWorker(s, w)
  {
    s.(workers := s.workers[w := wk])
  }

  // ----- addTask and queueWorker -----

  /** A thread may call addTask unless it is a worker outside of its task. */
  predicate MayAdd(s: State, t: int)
    requires IsThread(s, t)
  {
    s.threads[t].Outside? && (IsWorker(s, t) ==> s.workers[t].loop.Running?)
  }

  function DoAdd(s: State, t: int, task: int): State
    requires IsThread(s, t)
  {
    SetPc(s, t, Lock(Add(task)))
  }

  /** The constructor of the pool calls queueWorker for each new worker. */
  predicate MayEnlist(s: State, t: int, w: int)
    requires IsThread(s, t)
  {
    MayAdd(s, t) && IsWorker(s, w) && s.workers[w].status.New?
  }

  function DoEnlist(s: State, t: int, w: int): State
    requires IsThread(s, t) && IsWorker(s, w)
  {
    SetWorker(SetPc(s, t, Lock(Enlist(w))), w, s.workers[w].(status := Listing(t)))
  }

  function DoLock(s: State, t: int): State
    requires IsThread(s, t) && s.threads[t].Lock?
  {
    SetPc(s.(lock := t), t, Decide(s.threads[t].call))
  }

  function DoDecideAdd(s: State, t: int, task: int): State
    requires IsThread(s, t) && (s.free != [] ==> IsWorker(s, s.free[|s.free| - 1]))
  {
    var s' := s.(added := s.added + [task]);
    if s.free != [] then
      var n := |s.free| - 1;
      var w := s.free[n];
      SetWorker(SetPc(s'.(free := s.free[..n], pending := [task]), t, Assign(task, w)),
                w, s.workers[w].(status := Reserved))
    else
      SetPc(s'.(queue := s.queue + [task]), t, Unlock)
  }

  function DoDecideEnlist(s: State, t: int, w: int): State
    requires IsThread(s, t) && IsWorker(s, w)
  {
    if s.queue != [] then
      SetWorker(SetPc(s.(queue := s.queue[1..], pending := [s.queue[0]]), t, Assign(s.queue[0], w)),
                w, s.workers[w].(status := Reserved))
    else
      SetWorker(SetPc(s.(free := s.free + [w]), t, Unlock), w, s.workers[w].(status := Free, place := |s.free|))
  }

  /** assignTask. */
  function DoAssign(s: State, t: int, task: int, w: int): State
    requires IsThread(s, t) && IsWorker(s, w)
  {
    var s' := s.(handed := s.handed + [task], handedTo := s.handedTo + [w], pending := []);
    SetWorker(SetPc(s', t, Unlock), w,
              s.workers[w].(task := task, hasTask := true, status := Assigned, index := |s.handed|))
  }

  /** A worker that called queueWorker is back at the top of its loop. */
  function DoUnlock(s: State, t: int): State
    requires IsThread(s, t)
  {
    var s' := SetPc(s.(lock := NONE), t, Outside);
    if IsWorker(s, t) && s.workers[t].loop.Returning? then SetWorker(s', t, s.workers[t].(loop := Waiting)) else s'
  }

  // ----- workerLoop -----

  function DoTake(s: State, w: int): State
    requires IsWorker(s, w)
  {
    var wk := s.workers[w];
    SetWorker(s.(taken := s.taken + {wk.index}), w, wk.(hasTask := false, loop := Testing, status := Busy))
  }

  function DoTest(s: State, w: int): State
    requires IsWorker(s, w)
  {
    var wk := s.workers[w];
    SetWorker(s, w, wk.(loop := if wk.task == NULL then Exited else Running))
  }

  /** The task is done; the worker that ran the tear-down leaves. */
  function DoFinish(s: State, w: int, last: bool): State
    requires IsWorker(s, w) && IsThread(s, w)
  {
    var wk := s.workers[w];
    var s' := s.(finished := s.finished + {wk.index});
    if last then SetWorker(s'.(quit := s.quit + {w}), w, wk.(loop := Exited))
    else SetWorker(SetPc(s', w, Lock(Enlist(w))), w, wk.(loop := Returning, status := Listing(w)))
  }

  // ----- steps -----

  datatype Step =
    | AddStep(t: int, task: int)
    | EnlistStep(t: int, w: int)
    | LockStep(t: int)
    | DecideStep(t: int)
    | AssignStep(t: int)
    | UnlockStep(t: int)
    | TakeStep(w: int)
    | TestStep(w: int)
    | FinishStep(w: int, last: bool)

  ghost predicate StepBy(s: State, s': State, e: Step) {
    match e
    case AddStep(t, task) => IsThread(s, t) && MayAdd(s, t) && s' == DoAdd(s, t, task)
    case EnlistStep(t, w) => IsThread(s, t) && MayEnlist(s, t, w) && s' == DoEnlist(s, t, w)
    case LockStep(t) => IsThread(s, t) && s.threads[t].Lock? && s.lock == NONE && s' == DoLock(s, t)
    case DecideStep(t) =>
      && IsThread(s, t) && s.threads[t].Decide?
      && (match s.threads[t].call
          case Add(task) => (s.free != [] ==> IsWorker(s, s.free[|s.free| - 1])) ==> s' == DoDecideAdd(s, t, task)
          case Enlist(w) => IsWorker(s, w) ==> s' == DoDecideEnlist(s, t, w))
    case AssignStep(t) =>
      && IsThread(s, t) && s.threads[t].Assign?
      && (IsWorker(s, s.threads[t].worker) ==> s' == DoAssign(s, t, s.threads[t].task, s.threads[t].worker))
    case UnlockStep(t) => IsThread(s, t) && s.threads[t].Unlock? && s' == DoUnlock(s, t)
    case TakeStep(w) => IsWorker(s, w) && s.workers[w].loop.Waiting? && s.workers[w].hasTask && s' == DoTake(s, w)
    case TestStep(w) => IsWorker(s, w) && s.workers[w].loop.Testing? && s' == DoTest(s, w)
    case FinishStep(w, last) =>
      && IsWorker(s, w) && IsThread(s, w) && s.workers[w].loop.Running? && s.threads[w].Outside?
      && s' == DoFinish(s, w, last)
  }

  ghost predicate Next(s: State, s': State) {
    exists e :: StepBy(s, s', e)
  }

  ghost predicate NextAt(run: seq<State>, i: nat) {
    i + 1 < |run| && Next(run[i], run[i + 1])
  }

  predicate Init(s: State) {
    && |s.workers| <= |s.threads|
    && (forall w :: 0 <= w < |s.workers| ==>
          s.workers[w].loop.Waiting? && !s.workers[w].hasTask && s.workers[w].status.New?)
    && (forall t :: 0 <= t < |s.threads| ==> s.threads[t].Outside?)
    && s.lock == NONE && s.free == [] && s.queue == []
    && s.added == [] && s.handed == [] && s.handedTo == [] && s.pending == []
    && s.taken == {} && s.finished == {} && s.quit == {}
  }

  ghost predicate IsRun(run: seq<State>) {
    |run| > 0 && Init(run[0]) && forall i :: 0 <= i < |run| - 1 ==> NextAt(run, i)
  }

  // ----- the invariant -----

  predicate InSection(pc: Pc) {
    pc.Decide? || pc.Assign? || pc.Unlock?
  }

  predicate ThreadOk(s: State, t: int)
    requires IsThread(s, t)
  {
    var pc := s.threads[t];
    && (InSection(pc) <==> s.lock == t)
    && ((pc.Lock? || pc.Decide?) && pc.call.Enlist? ==>
          IsWorker(s, pc.call.worker) && s.workers[pc.call.worker].status == Listing(t))
    && (pc.Assign? ==> IsWorker(s, pc.worker) && s.workers[pc.worker].status.Reserved? && s.pending == [pc.task])
    && (s.lock == t && !pc.Assign? ==> s.pending == [])
    && (IsWorker(s, t) && !pc.Outside? ==> s.workers[t].loop.Running? || s.workers[t].loop.Returning?)
  }

  predicate WorkerOk(s: State, w: int)
    requires IsWorker(s, w)
  {
    var wk := s.workers[w];
    && (wk.hasTask <==> wk.status.Assigned?)
    && (if wk.status.Busy? then wk.loop.Testing? || wk.loop.Running? || wk.loop.Exited?
        else wk.loop.Waiting? || wk.loop.Returning?)
    && (wk.status.Free? ==> 0 <= wk.place < |s.free| && s.free[wk.place] == w)
    && (wk.status.Assigned? || wk.status.Busy? ==>
          0 <= wk.index < |s.handed| && |s.handedTo| == |s.handed|
          && s.handed[wk.index] == wk.task && s.handedTo[wk.index] == w
          && (wk.index in s.taken <==> wk.status.Busy?)
          && (wk.index in s.finished <==> w in s.quit))
    && (wk.loop.Running? ==> wk.task != NULL)
    && (wk.loop.Exited? <==> w in s.quit || (wk.status.Busy? && wk.task == NULL && !wk.loop.Testing?))
    && (w in s.quit ==> wk.task != NULL)
  }

  /** A worker that has no task is in the hands of a thread, or in the free list. */
  predicate PlaceOk(s: State, w: int)
    requires IsWorker(s, w)
  {
    var wk := s.workers[w];
    && (wk.loop.Returning? ==> IsThread(s, w) && !s.threads[w].Outside?)
    && (match wk.status
        case Listing(t) => IsThread(s, t) && IsEnlisting(s.threads[t], w)
        case Reserved => IsThread(s, s.lock) && s.threads[s.lock].Assign? && s.threads[s.lock].worker == w
        case _ => true)
  }

  predicate IsEnlisting(pc: Pc, w: int) {
    (pc.Lock? || pc.Decide?) && pc.call == Enlist(w)
  }

  /** Place `k` of the free list. */
  predicate FreeOk(s: State, k: int)
    requires 0 <= k < |s.free|
  {
    IsWorker(s, s.free[k]) && s.workers[s.free[k]].status.Free? && s.workers[s.free[k]].place == k
  }

  /** A handed task sits in the slot of the worker it is for; once taken, the worker
      tests or runs it until it is finished; NULL keeps its worker for good. */
  predicate HandedOk(s: State, i: int)
    requires 0 <= i < |s.handed|
  {
    && |s.handedTo| == |s.handed| && IsWorker(s, s.handedTo[i])
    && var wk := s.workers[s.handedTo[i]];
    && !wk.status.New?
    && (i !in s.taken ==> wk.status.Assigned? && wk.index == i)
    && (i in s.taken && i !in s.finished ==>
          wk.status.Busy? && wk.index == i && (if s.handed[i] == NULL then !wk.loop.Running? else !wk.loop.Exited?))
    && (i in s.finished ==> i in s.taken && s.handed[i] != NULL)
  }

  predicate Queues(s: State) {
    && |s.workers| <= |s.threads| && |s.handedTo| == |s.handed|
    && (s.lock == NONE || IsThread(s, s.lock))
    && (s.lock == NONE ==> s.pending == [])
    && s.added == s.handed + s.pending + s.queue
    && (s.free == [] || s.queue == [])
    && (forall i :: i in s.taken ==> 0 <= i < |s.handed|)
    && (forall i :: i in s.finished ==> 0 <= i < |s.handed|)
  }

  predicate Inv(s: State) {
    && Queues(s)
    && (forall t {:trigger ThreadOk(s, t)} :: 0 <= t < |s.threads| ==> ThreadOk(s, t))
    && (forall w {:trigger WorkerOk(s, w)} :: 0 <= w < |s.workers| ==> WorkerOk(s, w))
    && (forall w {:trigger PlaceOk(s, w)} :: 0 <= w < |s.workers| ==> PlaceOk(s, w))
    && (forall k {:trigger FreeOk(s, k)} :: 0 <= k < |s.free| ==> FreeOk(s, k))
    && (forall i {:trigger HandedOk(s, i)} :: 0 <= i < |s.handed| ==> HandedOk(s, i))
  }

  lemma InitInv(s: State)
    requires Init(s)
    ensures Inv(s)
  {
  }

  lemma DecideAddOk(s: State, t: int, task: int)
    requires Inv(s) && IsThread(s, t) && s.threads[t] == Decide(Add(task))
    ensures s.free != [] ==> IsWorker(s, s.free[|s.free| - 1])
    ensures Inv(DoDecideAdd(s, t, task))
  {
    assert ThreadOk(s, t);
    var n := |s.free| - 1;
    if s.free != [] { assert FreeOk(s, n); }
    var s' := DoDecideAdd(s, t, task);
    forall u | 0 <= u < |s'.threads| ensures ThreadOk(s', u) { assert ThreadOk(s, u); }
    forall w | 0 <= w < |s'.workers| ensures WorkerOk(s', w) && PlaceOk(s', w) {
      assert WorkerOk(s, w) && PlaceOk(s, w);
    }
    forall k | 0 <= k < |s'.free| ensures FreeOk(s', k) { assert FreeOk(s, k); }
    forall i | 0 <= i < |s'.handed| ensures HandedOk(s', i) { assert HandedOk(s, i); }
  }

  lemma DecideEnlistOk(s: State, t: int, w: int)
    requires Inv(s) && IsThread(s, t) && s.threads[t] == Decide(Enlist(w))
    ensures IsWorker(s, w) && Inv(DoDecideEnlist(s, t, w))
  {
    assert ThreadOk(s, t);
    var s' := DoDecideEnlist(s, t, w);
    forall u | 0 <= u < |s'.threads| ensures ThreadOk(s', u) { assert ThreadOk(s, u); }
    forall v | 0 <= v < |s'.workers| ensures WorkerOk(s', v) && PlaceOk(s', v) {
      assert WorkerOk(s, v) && PlaceOk(s, v);
    }
    forall k | 0 <= k < |s'.free| ensures FreeOk(s', k) {
      if k < |s.free| { assert FreeOk(s, k); }
    }
    forall i | 0 <= i < |s'.handed| ensures HandedOk(s', i) { assert HandedOk(s, i); }
  }

  lemma AssignOk(s: State, t: int)
    requires Inv(s) && IsThread(s, t) && s.threads[t].Assign?
    ensures IsWorker(s, s.threads[t].worker) && !s.workers[s.threads[t].worker].hasTask
    ensures Inv(DoAssign(s, t, s.threads[t].task, s.threads[t].worker))
  {
    assert ThreadOk(s, t);
    assert WorkerOk(s, s.threads[t].worker);
    var s' := DoAssign(s, t, s.threads[t].task, s.threads[t].worker);
    forall u | 0 <= u < |s'.threads| ensures ThreadOk(s', u) { assert ThreadOk(s, u); }
    forall w | 0 <= w < |s'.workers| ensures WorkerOk(s', w) && PlaceOk(s', w) {
      assert WorkerOk(s, w) && PlaceOk(s, w);
    }
    forall k | 0 <= k < |s'.free| ensures FreeOk(s', k) { assert FreeOk(s, k); }
    forall i | 0 <= i < |s'.handed| ensures HandedOk(s', i) {
      if i < |s.handed| { assert HandedOk(s, i); }
    }
  }

  lemma AddOk(s: State, s': State, t: int, task: int)
    requires Inv(s) && StepBy(s, s', AddStep(t, task))
    ensures Inv(s')
  {
    assert ThreadOk(s, t);
    forall u | 0 <= u < |s'.threads| ensures ThreadOk(s', u) { assert ThreadOk(s, u); }
    forall w | 0 <= w < |s'.workers| ensures WorkerOk(s', w) && PlaceOk(s', w) {
      assert WorkerOk(s, w) && PlaceOk(s, w);
    }
    forall k | 0 <= k < |s'.free| ensures FreeOk(s', k) { assert FreeOk(s, k); }
    forall i | 0 <= i < |s'.handed| ensures HandedOk(s', i) { assert HandedOk(s, i); }
  }

  lemma LockOk(s: State, s': State, t: int)
    requires Inv(s) && StepBy(s, s', LockStep(t))
    ensures Inv(s')
  {
    assert ThreadOk(s, t);
    forall u | 0 <= u < |s'.threads| ensures ThreadOk(s', u) { assert ThreadOk(s, u); }
    forall w | 0 <= w < |s'.workers| ensures WorkerOk(s', w) && PlaceOk(s', w) {
      assert WorkerOk(s, w) && PlaceOk(s, w);
    }
    forall k | 0 <= k < |s'.free| ensures FreeOk(s', k) { assert FreeOk(s, k); }
    forall i | 0 <= i < |s'.handed| ensures HandedOk(s', i) { assert HandedOk(s, i); }
  }

  lemma UnlockOk(s: State, s': State, t: int)
    requires Inv(s) && StepBy(s, s', UnlockStep(t)) && !(IsWorker(s, t) && s.workers[t].loop.Returning?)
    ensures Inv(s')
  {
    assert ThreadOk(s, t);
    forall u | 0 <= u < |s'.threads| ensures ThreadOk(s', u) { assert ThreadOk(s, u); }
    forall w | 0 <= w < |s'.workers| ensures WorkerOk(s', w) && PlaceOk(s', w) {
      assert WorkerOk(s, w) && PlaceOk(s, w);
    }
    forall k | 0 <= k < |s'.free| ensures FreeOk(s', k) { assert FreeOk(s, k); }
    forall i | 0 <= i < |s'.handed| ensures HandedOk(s', i) { assert HandedOk(s, i); }
  }

  lemma ReturnOk(s: State, s': State, t: int)
    requires Inv(s) && StepBy(s, s', UnlockStep(t)) && IsWorker(s, t) && s.workers[t].loop.Returning?
    ensures Inv(s')
  {
    assert ThreadOk(s, t);
    forall u | 0 <= u < |s'.threads| ensures ThreadOk(s', u) { assert ThreadOk(s, u); }
    forall w | 0 <= w < |s'.workers| ensures WorkerOk(s', w) && PlaceOk(s', w) {
      assert WorkerOk(s, w) && PlaceOk(s, w);
    }
    forall k | 0 <= k < |s'.free| ensures FreeOk(s', k) { assert FreeOk(s, k); }
    forall i | 0 <= i < |s'.handed| ensures HandedOk(s', i) { assert HandedOk(s, i); }
  }

  lemma EnlistOk(s: State, t: int, w: int)
    requires Inv(s) && IsThread(s, t) && MayEnlist(s, t, w)
    ensures Inv(DoEnlist(s, t, w))
  {
    var s' := DoEnlist(s, t, w);
    assert ThreadOk(s, t);
    forall u | 0 <= u < |s'.threads| ensures ThreadOk(s', u) { assert ThreadOk(s, u); }
    forall v | 0 <= v < |s'.workers| ensures WorkerOk(s', v) && PlaceOk(s', v) {
      assert WorkerOk(s, v) && PlaceOk(s, v);
    }
    forall k | 0 <= k < |s'.free| ensures FreeOk(s', k) { assert FreeOk(s, k); }
    forall i | 0 <= i < |s'.handed| ensures HandedOk(s', i) { assert HandedOk(s, i); }
  }

  lemma TakeOk(s: State, w: int)
    requires Inv(s) && IsWorker(s, w) && s.workers[w].loop.Waiting? && s.workers[w].hasTask
    ensures s.workers[w].index !in s.taken && Inv(DoTake(s, w))
  {
    var s' := DoTake(s, w);
    assert WorkerOk(s, w);
    forall u | 0 <= u < |s'.threads| ensures ThreadOk(s', u) { assert ThreadOk(s, u); }
    forall v | 0 <= v < |s'.workers| ensures WorkerOk(s', v) && PlaceOk(s', v) {
      assert WorkerOk(s, v) && PlaceOk(s, v);
    }
    forall k | 0 <= k < |s'.free| ensures FreeOk(s', k) { assert FreeOk(s, k); }
    forall i | 0 <= i < |s'.handed| ensures HandedOk(s', i) { assert HandedOk(s, i); }
  }

  lemma TestOk(s: State, s': State, w: int)
    requires Inv(s) && StepBy(s, s', TestStep(w))
    ensures Inv(s')
  {
    assert WorkerOk(s, w);
    forall u | 0 <= u < |s'.threads| ensures ThreadOk(s', u) { assert ThreadOk(s, u); }
    forall v | 0 <= v < |s'.workers| ensures WorkerOk(s', v) && PlaceOk(s', v) {
      assert WorkerOk(s, v) && PlaceOk(s, v);
    }
    forall k | 0 <= k < |s'.free| ensures FreeOk(s', k) { assert FreeOk(s, k); }
    forall i | 0 <= i < |s'.handed| ensures HandedOk(s', i) { assert HandedOk(s, i); }
  }

  lemma FinishOk(s: State, s': State, w: int, last: bool)
    requires Inv(s) && StepBy(s, s', FinishStep(w, last))
    ensures s.workers[w].index !in s.finished && Inv(s')
  {
    assert WorkerOk(s, w);
    forall u | 0 <= u < |s'.threads| ensures ThreadOk(s', u) { assert ThreadOk(s, u); }
    forall v | 0 <= v < |s'.workers| ensures WorkerOk(s', v) && PlaceOk(s', v) {
      assert WorkerOk(s, v) && PlaceOk(s, v);
    }
    forall k | 0 <= k < |s'.free| ensures FreeOk(s', k) { assert FreeOk(s, k); }
    forall i | 0 <= i < |s'.handed| ensures HandedOk(s', i) { assert HandedOk(s, i); }
  }

  lemma StepKeepsInv(s: State, s': State, e: Step)
    requires Inv(s) && StepBy(s, s', e)
    ensures Inv(s')
  {
    match e
    case AddStep(t, task) => AddOk(s, s', t, task);
    case LockStep(t) => LockOk(s, s', t);
    case UnlockStep(t) =>
      if IsWorker(s, t) && s.workers[t].loop.Returning? { ReturnOk(s, s', t); } else { UnlockOk(s, s', t); }
    case EnlistStep(t, w) => EnlistOk(s, t, w);
    case DecideStep(t) =>
      match s.threads[t].call {
        case Add(task) => DecideAddOk(s, t, task);
        case Enlist(w) => DecideEnlistOk(s, t, w);
      }
    case AssignStep(t) => AssignOk(s, t);
    case TakeStep(w) => TakeOk(s, w);
    case TestStep(w) => TestOk(s, s', w);
    case FinishStep(w, last) => FinishOk(s, s', w, last);
  }

  lemma {:induction false} RunKeepsInv(run: seq<State>, i: nat)
    requires IsRun(run) && i < |run|
    ensures Inv(run[i])
  {
    if i == 0 {
      InitInv(run[0]);
    } else {
      RunKeepsInv(run, i - 1);
      assert NextAt(run, i - 1);
      var e :| StepBy(run[i - 1], run[i], e);
      StepKeepsInv(run[i - 1], run[i], e);
    }
  }

  // ----- what every run keeps -----

  /** No worker idles while a task waits. */
  lemma NeverBothWaiting(run: seq<State>, i: nat)
    requires IsRun(run) && i < |run|
    ensures run[i].free == [] || run[i].queue == []
  {
    RunKeepsInv(run, i);
  }

  /** Tasks are handed out in the order in which they were added, and none is lost
      or repeated: what was added is what was handed out, then at most one task on
      its way to a worker, then what waits in the queue. */
  lemma HandedInOrder(run: seq<State>, i: nat)
    requires IsRun(run) && i < |run|
    ensures run[i].handed <= run[i].added
    ensures |run[i].pending| <= 1 && run[i].added == run[i].handed + run[i].pending + run[i].queue
    ensures |run[i].handedTo| == |run[i].handed|
  {
    RunKeepsInv(run, i);
    var s := run[i];
    if s.lock != NONE { assert ThreadOk(s, s.lock); }
  }

  /** Step `i` is a call of addTask. */
  ghost predicate CallsAt(run: seq<State>, i: nat, t: int, task: int) {
    i + 1 < |run| && StepBy(run[i], run[i + 1], AddStep(t, task))
  }

  predicate InCall(pc: Pc, call: Call) {
    pc == Lock(call) || pc == Decide(call)
  }

  lemma StepOfCall(s: State, s': State, e: Step, t: int, call: Call)
    requires Inv(s) && StepBy(s, s', e) && IsThread(s', t) && InCall(s'.threads[t], call) && call.Add?
    ensures IsThread(s, t) && (InCall(s.threads[t], call) || (s.threads[t].Outside? && e == AddStep(t, call.task)))
  {
    if e.DecideStep? || e.AssignStep? { assert ThreadOk(s, e.t); }
    if e.DecideStep? && s.free != [] { assert FreeOk(s, |s.free| - 1); }
  }

  /** A thread inside addTask works on the task that it was called with. */
  lemma {:induction false} CallBegan(run: seq<State>, j: nat, t: int, task: int) returns (i: nat)
    requires IsRun(run) && j < |run| && IsThread(run[j], t) && InCall(run[j].threads[t], Add(task))
    ensures i < j && IsThread(run[i], t) && run[i].threads[t].Outside? && CallsAt(run, i, t, task)
    ensures forall k :: i < k <= j ==> IsThread(run[k], t) && InCall(run[k].threads[t], Add(task))
  {
    assert j > 0;
    RunKeepsInv(run, j - 1);
    assert NextAt(run, j - 1);
    var e :| StepBy(run[j - 1], run[j], e);
    StepOfCall(run[j - 1], run[j], e, t, Add(task));
    if run[j - 1].threads[t].Outside? {
      i := j - 1;
    } else {
      i := CallBegan(run, j - 1, t, task);
    }
  }

  lemma OnlyDecideAdds(s: State, s': State, e: Step)
    requires Inv(s) && StepBy(s, s', e) && s'.added != s.added
    ensures e.DecideStep? && s.threads[e.t].call.Add? && s'.added == s.added + [s.threads[e.t].call.task]
    ensures IsThread(s', e.t) && (s'.threads[e.t].Assign? || s'.threads[e.t].Unlock?)
  {
    if e.DecideStep? || e.AssignStep? { assert ThreadOk(s, e.t); }
    if e.DecideStep? && s.free != [] { assert FreeOk(s, |s.free| - 1); }
  }

  /** What a call of addTask appends to the tasks is what it was called with, once,
      and nothing else is ever appended. */
  lemma AddedAsCalled(run: seq<State>, j: nat) returns (i: nat, t: int)
    requires IsRun(run) && j + 1 < |run| && run[j + 1].added != run[j].added
    ensures i < j && (exists task :: CallsAt(run, i, t, task))
    ensures forall task :: CallsAt(run, i, t, task) ==> run[j + 1].added == run[j].added + [task]
    ensures forall k :: i < k <= j ==> IsThread(run[k], t) && (run[k].threads[t].Lock? || run[k].threads[t].Decide?)
    ensures IsThread(run[j + 1], t) && (run[j + 1].threads[t].Assign? || run[j + 1].threads[t].Unlock?)
  {
    RunKeepsInv(run, j);
    assert NextAt(run, j);
    var e :| StepBy(run[j], run[j + 1], e);
    OnlyDecideAdds(run[j], run[j + 1], e);
    t := e.t;
    var task := run[j].threads[t].call.task;
    i := CallBegan(run, j, t, task);
    assert InCall(run[i + 1].threads[t], Add(task));
  }

  /** Step `j` appends the task of thread `t`. */
  predicate AppendsAt(run: seq<State>, j: nat, t: int, task: int) {
    && j + 1 < |run| && IsThread(run[j], t) && run[j].threads[t] == Decide(Add(task))
    && run[j + 1].added == run[j].added + [task]
  }

  lemma CallStep(s: State, s': State, e: Step, t: int, task: int)
    requires Inv(s) && StepBy(s, s', e) && IsThread(s, t)
    ensures IsThread(s', t)
    ensures InCall(s.threads[t], Add(task)) && !InCall(s'.threads[t], Add(task)) ==>
      s.threads[t] == Decide(Add(task)) && s'.added == s.added + [task]
  {
    if e.DecideStep? || e.AssignStep? { assert ThreadOk(s, e.t); }
    if e.DecideStep? && s.free != [] { assert FreeOk(s, |s.free| - 1); }
  }

  /** A call of addTask that has returned, or is past its decision, has appended
      the task that it was called with. */
  lemma {:induction false} EveryCallAdds(run: seq<State>, i: nat, m: nat, t: int, task: int) returns (j: nat)
    requires IsRun(run) && i < m < |run| && CallsAt(run, i, t, task)
    requires forall k :: i < k < m ==> IsThread(run[k], t) && !run[k].threads[t].Outside?
    ensures IsThread(run[m], t)
    ensures InCall(run[m].threads[t], Add(task)) || (i < j < m && AppendsAt(run, j, t, task))
    decreases m
  {
    j := m - 1;
    RunKeepsInv(run, m - 1);
    if i + 1 < m {
      j := EveryCallAdds(run, i, m - 1, t, task);
      assert NextAt(run, m - 1);
      var e :| StepBy(run[m - 1], run[m], e);
      CallStep(run[m - 1], run[m], e, t, task);
      if InCall(run[m - 1].threads[t], Add(task)) { j := m - 1; }
    }
  }

  /** The slot of a worker is written only when the worker has taken, and is done
      with, what it held before. */
  lemma SlotIsFreeWhenWritten(run: seq<State>, i: nat, t: int)
    requires IsRun(run) && i + 1 < |run| && StepBy(run[i], run[i + 1], AssignStep(t))
    ensures var w := run[i].threads[t].worker;
      && IsWorker(run[i], w) && !run[i].workers[w].hasTask
      && (run[i].workers[w].loop.Waiting? || run[i].workers[w].loop.Returning?)
  {
    RunKeepsInv(run, i);
    AssignOk(run[i], t);
    assert ThreadOk(run[i], t);
    assert WorkerOk(run[i], run[i].threads[t].worker);
  }

  /** From the moment a worker takes a task until it is done with it, its slot
      holds exactly the task that was handed to it. */
  lemma SlotIsStable(run: seq<State>, i: nat, w: int)
    requires IsRun(run) && i < |run| && IsWorker(run[i], w)
    requires run[i].workers[w].hasTask || run[i].workers[w].loop.Testing? || run[i].workers[w].loop.Running?
    ensures var wk := run[i].workers[w];
      && 0 <= wk.index < |run[i].handed| == |run[i].handedTo|
      && wk.task == run[i].handed[wk.index] && run[i].handedTo[wk.index] == w
      && (wk.hasTask <==> wk.index !in run[i].taken)
  {
    RunKeepsInv(run, i);
    assert WorkerOk(run[i], w);
  }

  /** Each handed task is taken at most once, by the worker it was handed to; until
      then it is in the slot of that worker, and in no other slot. */
  lemma TakenOnceByItsWorker(run: seq<State>, i: nat, k: int)
    requires IsRun(run) && i < |run| && 0 <= k < |run[i].handed|
    ensures |run[i].handedTo| == |run[i].handed| && IsWorker(run[i], run[i].handedTo[k])
    ensures k !in run[i].taken ==>
      run[i].workers[run[i].handedTo[k]].hasTask && run[i].workers[run[i].handedTo[k]].index == k
    ensures forall w :: i + 1 < |run| && StepBy(run[i], run[i + 1], TakeStep(w)) ==>
      run[i].workers[w].index !in run[i].taken && run[i + 1].taken == run[i].taken + {run[i].workers[w].index}
  {
    RunKeepsInv(run, i);
    assert HandedOk(run[i], k);
    assert WorkerOk(run[i], run[i].handedTo[k]);
    forall w | i + 1 < |run| && StepBy(run[i], run[i + 1], TakeStep(w))
      ensures run[i].workers[w].index !in run[i].taken
    {
      TakeOk(run[i], w);
    }
  }

  /** When a worker is told to exit, every task that was added before the first
      NULL has been handed out, and handed out earlier. */
  lemma StopComesLast(run: seq<State>, i: nat, w: int, k: int)
    requires IsRun(run) && i < |run| && IsWorker(run[i], w)
    requires run[i].workers[w].task == NULL && (run[i].workers[w].hasTask || run[i].workers[w].loop.Testing?)
    requires 0 <= k < |run[i].added| && forall j :: 0 <= j <= k ==> run[i].added[j] != NULL
    ensures k < run[i].workers[w].index < |run[i].handed| && run[i].handed[k] == run[i].added[k]
  {
    SlotIsStable(run, i, w);
    HandedInOrder(run, i);
    var s := run[i];
    assert s.handed[s.workers[w].index] == s.added[s.workers[w].index];
  }

  /** Worker `w` is with the task that was handed out as number `k`. */
  predicate IsAt(s: State, w: int, k: int, loop: Loop) {
    IsWorker(s, w) && s.workers[w].loop == loop && s.workers[w].index == k
  }

  /** A task that was taken is being tested or is running in the worker it was handed
      to, or has run to its end; a NULL never runs, and ends its worker. */
  lemma TakenIsRun(run: seq<State>, i: nat, k: int)
    requires IsRun(run) && i < |run| && k in run[i].taken
    ensures 0 <= k < |run[i].handed| == |run[i].handedTo|
    ensures
      var s := run[i];
      var w := s.handedTo[k];
      if s.handed[k] == NULL then k !in s.finished && (IsAt(s, w, k, Testing) || IsAt(s, w, k, Exited))
      else k in s.finished || IsAt(s, w, k, Testing) || IsAt(s, w, k, Running)
  {
    RunKeepsInv(run, i);
    assert HandedOk(run[i], k);
    assert WorkerOk(run[i], run[i].handedTo[k]);
  }

  /** What runs is a task that was taken, is not NULL, and has not run to its end
      before; what has run to its end was taken. */
  lemma RunsOnce(run: seq<State>, i: nat)
    requires IsRun(run) && i < |run|
    ensures run[i].finished <= run[i].taken
    ensures forall w :: IsWorker(run[i], w) && run[i].workers[w].loop.Running? ==>
      run[i].workers[w].task != NULL && run[i].workers[w].index in run[i].taken - run[i].finished
    ensures forall w, last :: i + 1 < |run| && StepBy(run[i], run[i + 1], FinishStep(w, last)) ==>
      run[i + 1].finished == run[i].finished + {run[i].workers[w].index}
  {
    RunKeepsInv(run, i);
    forall k | k in run[i].finished ensures k in run[i].taken { assert HandedOk(run[i], k); }
    forall w | IsWorker(run[i], w) && run[i].workers[w].loop.Running?
      ensures run[i].workers[w].task != NULL && run[i].workers[w].index in run[i].taken - run[i].finished
    {
      assert WorkerOk(run[i], w);
    }
  }

  /** The worker took a NULL, and has looked at it. */
  ghost predicate ToldToExit(s: State, w: int) {
    exists k :: k in s.taken && 0 <= k < |s.handed| == |s.handedTo| && s.handedTo[k] == w && s.handed[k] == NULL
                && !IsAt(s, w, k, Testing)
  }

  /** A worker has left its loop if and only if it took a NULL, or ran its last task
      as the last worker. */
  lemma ExitedIff(run: seq<State>, i: nat, w: int)
    requires IsRun(run) && i < |run| && IsWorker(run[i], w)
    ensures run[i].workers[w].loop.Exited? <==> ToldToExit(run[i], w) || w in run[i].quit
    ensures !(ToldToExit(run[i], w) && w in run[i].quit)
  {
    RunKeepsInv(run, i);
    var s := run[i];
    assert WorkerOk(s, w);
    if s.workers[w].loop.Exited? && w !in s.quit {
      assert !IsAt(s, w, s.workers[w].index, Testing);
    }
    forall k | k in s.taken && 0 <= k < |s.handed| && s.handedTo[k] == w && s.handed[k] == NULL
      ensures IsAt(s, w, k, Testing) || (s.workers[w].loop.Exited? && w !in s.quit)
    {
      assert HandedOk(s, k);
    }
  }

  lemma OnlyFinishQuits(s: State, s': State, e: Step)
    requires Inv(s) && StepBy(s, s', e)
    ensures s'.quit == s.quit + if e.FinishStep? && e.last then {e.w} else {}
  {
    if e.DecideStep? || e.AssignStep? { assert ThreadOk(s, e.t); }
    if e.DecideStep? && s.free != [] { assert FreeOk(s, |s.free| - 1); }
  }

  /** Only the end of a task as the last worker puts a worker among those. */
  lemma QuitsOnlyAsLast(run: seq<State>, i: nat, e: Step, w: int)
    requires IsRun(run) && i + 1 < |run| && StepBy(run[i], run[i + 1], e)
    requires w in run[i + 1].quit && w !in run[i].quit
    ensures e == FinishStep(w, true)
  {
    RunKeepsInv(run, i);
    OnlyFinishQuits(run[i], run[i + 1], e);
  }

  /** No worker is lost: one without a task was never enlisted, is in the free list,
      is in the hands of a thread that enlists it or gives it a task, or has left. */
  lemma WorkerIsAccounted(run: seq<State>, i: nat, w: int)
    requires IsRun(run) && i < |run| && IsWorker(run[i], w)
    ensures
      var s := run[i];
      var wk := s.workers[w];
      || wk.hasTask || wk.loop.Testing? || wk.loop.Running? || wk.loop.Exited?
      || w in s.free
      || (exists t :: IsThread(s, t) && (IsEnlisting(s.threads[t], w) || Assigns(s.threads[t], w)))
      || (wk.status.New? && w !in s.handedTo)
  {
    RunKeepsInv(run, i);
    var s := run[i];
    assert WorkerOk(s, w) && PlaceOk(s, w);
    if s.workers[w].status.New? {
      forall k | 0 <= k < |s.handedTo| ensures s.handedTo[k] != w { assert HandedOk(s, k); }
    }
  }

  predicate Assigns(pc: Pc, w: int) {
    pc.Assign? && pc.worker == w
  }

  /** No thread is inside the pool, and no worker has anything to do. */
  predicate AtRest(s: State) {
    && (forall t :: 0 <= t < |s.threads| ==> s.threads[t].Outside?)
    && (forall w :: 0 <= w < |s.workers| ==>
          !s.workers[w].hasTask && !s.workers[w].loop.Testing? && !s.workers[w].loop.Running?)
  }

  /** When the pool is at rest, every task that was handed out has run to its end;
      and if tasks still wait, no worker that was ever enlisted is left. */
  lemma RestMeansDone(run: seq<State>, i: nat)
    requires IsRun(run) && i < |run| && AtRest(run[i])
    ensures forall k :: 0 <= k < |run[i].handed| && run[i].handed[k] != NULL ==> k in run[i].finished
    ensures run[i].queue != [] ==> forall w :: IsWorker(run[i], w) ==>
      run[i].workers[w].loop.Exited? || (run[i].workers[w].status.New? && w !in run[i].handedTo)
  {
    RunKeepsInv(run, i);
    var s := run[i];
    forall k | 0 <= k < |s.handed| && s.handed[k] != NULL ensures k in s.finished {
      TakenOnceByItsWorker(run, i, k);
      TakenIsRun(run, i, k);
    }
    forall w | s.queue != [] && IsWorker(s, w)
      ensures s.workers[w].loop.Exited? || (s.workers[w].status.New? && w !in s.handedTo)
    {
      WorkerIsAccounted(run, i, w);
    }
  }

  // ----- the pool comes to rest -----

  /** A step that is not a new call. */
  ghost predicate Moves(s: State, s': State, e: Step) {
    StepBy(s, s', e) && !e.AddStep? && !e.EnlistStep?
  }

  /** The steps that a thread still causes, and those of the task that it brings. */
  function ThreadWork(pc: Pc): nat {
    match pc
    case Outside => 0
    case Lock(call) => if call.Add? then 20 else 4
    case Decide(call) => if call.Add? then 19 else 3
    case Assign(_, _) => 15
    case Unlock => 1
  }

  function WorkerWork(wk: Worker): nat {
    if wk.hasTask then 13 else if wk.loop.Testing? then 12 else if wk.loop.Running? then 11 else 0
  }

  function ThreadsWork(threads: seq<Pc>): nat {
    if threads == [] then 0 else ThreadWork(threads[0]) + ThreadsWork(threads[1..])
  }

  function WorkersWork(workers: seq<Worker>): nat {
    if workers == [] then 0 else WorkerWork(workers[0]) + WorkersWork(workers[1..])
  }

  /** A bound on the steps to come without new calls. */
  function Work(s: State): nat {
    ThreadsWork(s.threads) + WorkersWork(s.workers) + 17 * |s.queue|
  }

  lemma {:induction false} ThreadsWorkAt(threads: seq<Pc>, t: nat, pc: Pc)
    requires t < |threads|
    ensures ThreadsWork(threads[t := pc]) + ThreadWork(threads[t]) == ThreadsWork(threads) + ThreadWork(pc)
  {
    if t > 0 {
      ThreadsWorkAt(threads[1..], t - 1, pc);
      assert threads[t := pc][1..] == threads[1..][t - 1 := pc];
    }
  }

  lemma {:induction false} WorkersWorkAt(workers: seq<Worker>, w: nat, wk: Worker)
    requires w < |workers|
    ensures WorkersWork(workers[w := wk]) + WorkerWork(workers[w]) == WorkersWork(workers) + WorkerWork(wk)
  {
    if w > 0 {
      WorkersWorkAt(workers[1..], w - 1, wk);
      assert workers[w := wk][1..] == workers[1..][w - 1 := wk];
    }
  }

  lemma LockMoveWorks(s: State, s': State, e: Step)
    requires Inv(s) && StepBy(s, s', e) && (e.LockStep? || e.UnlockStep?)
    ensures Work(s') < Work(s)
  {
    assert ThreadOk(s, e.t);
    ThreadsWorkAt(s.threads, e.t, s'.threads[e.t]);
    if IsWorker(s, e.t) {
      assert WorkerOk(s, e.t);
      WorkersWorkAt(s.workers, e.t, s.workers[e.t].(loop := Waiting));
    }
  }

  lemma AssignMoveWorks(s: State, s': State, t: int)
    requires Inv(s) && StepBy(s, s', AssignStep(t))
    ensures Work(s') < Work(s)
  {
    assert ThreadOk(s, t);
    var w := s.threads[t].worker;
    assert WorkerOk(s, w);
    ThreadsWorkAt(s.threads, t, Unlock);
    WorkersWorkAt(s.workers, w, s'.workers[w]);
  }

  lemma DecideAddWorks(s: State, s': State, t: int)
    requires Inv(s) && StepBy(s, s', DecideStep(t)) && s.threads[t].call.Add?
    ensures Work(s') < Work(s)
  {
    assert ThreadOk(s, t);
    if s.free != [] {
      var w := s.free[|s.free| - 1];
      assert FreeOk(s, |s.free| - 1);
      assert WorkerOk(s, w);
      WorkersWorkAt(s.workers, w, s'.workers[w]);
    }
    ThreadsWorkAt(s.threads, t, s'.threads[t]);
  }

  lemma DecideEnlistWorks(s: State, s': State, t: int)
    requires Inv(s) && StepBy(s, s', DecideStep(t)) && s.threads[t].call.Enlist?
    ensures Work(s') < Work(s)
  {
    assert ThreadOk(s, t);
    var w := s.threads[t].call.worker;
    assert WorkerOk(s, w);
    WorkersWorkAt(s.workers, w, s'.workers[w]);
    ThreadsWorkAt(s.threads, t, s'.threads[t]);
  }

  lemma WorkerMoveWorks(s: State, s': State, e: Step)
    requires Inv(s) && StepBy(s, s', e) && (e.TakeStep? || e.TestStep? || e.FinishStep?)
    ensures Work(s') < Work(s)
  {
    assert WorkerOk(s, e.w);
    WorkersWorkAt(s.workers, e.w, s'.workers[e.w]);
    if e.FinishStep? { ThreadsWorkAt(s.threads, e.w, s'.threads[e.w]); }
  }

  lemma MoveWorks(s: State, s': State, e: Step)
    requires Inv(s) && Moves(s, s', e)
    ensures Work(s') < Work(s)
  {
    match e
    case LockStep(_) | UnlockStep(_) => LockMoveWorks(s, s', e);
    case AssignStep(t) => AssignMoveWorks(s, s', t);
    case DecideStep(t) => if s.threads[t].call.Add? { DecideAddWorks(s, s', t); } else { DecideEnlistWorks(s, s', t); }
    case _ => WorkerMoveWorks(s, s', e);
  }

  ghost predicate MoveTo(s: State, s': State) {
    exists e :: Moves(s, s', e)
  }

  ghost predicate MovesAt(run: seq<State>, i: nat) {
    i + 1 < |run| && MoveTo(run[i], run[i + 1])
  }

  /** However the threads are scheduled: without new calls, a run ends after at most
      as many steps as there is work. */
  lemma {:induction false} WorkIsBounded(run: seq<State>, i: nat, j: nat)
    requires IsRun(run) && i <= j < |run| && forall k :: i <= k < j ==> MovesAt(run, k)
    ensures Work(run[j]) + (j - i) <= Work(run[i])
    decreases j
  {
    if i < j {
      WorkIsBounded(run, i, j - 1);
      RunKeepsInv(run, j - 1);
      assert MovesAt(run, j - 1);
      var e :| Moves(run[j - 1], run[j], e);
      MoveWorks(run[j - 1], run[j], e);
    }
  }

  /** And it cannot end before the pool is at rest. */
  lemma RestIffStuck(run: seq<State>, i: nat)
    requires IsRun(run) && i < |run|
    ensures AtRest(run[i]) <==> !exists s', e :: Moves(run[i], s', e)
  {
    RunKeepsInv(run, i);
    var s := run[i];
    if !AtRest(s) {
      var s', e;
      if IsInside(s) {
        s', e := InsideMoves(s);
      } else {
        s', e := WorkerMoves(s);
      }
      assert Moves(s, s', e);
    }
    forall s', e ensures AtRest(s) ==> !Moves(s, s', e) {
      if AtRest(s) { NobodyMoves(s, s', e); }
    }
  }

  lemma NobodyMoves(s: State, s': State, e: Step)
    requires AtRest(s)
    ensures !Moves(s, s', e)
  {
  }

  predicate IsInside(s: State) {
    exists t :: 0 <= t < |s.threads| && !s.threads[t].Outside?
  }

  lemma WorkerMoves(s: State) returns (s': State, e: Step)
    requires Inv(s) && !IsInside(s) && !AtRest(s)
    ensures Moves(s, s', e)
  {
    var w :| 0 <= w < |s.workers| && (s.workers[w].hasTask || s.workers[w].loop.Testing? || s.workers[w].loop.Running?);
    assert WorkerOk(s, w) && PlaceOk(s, w);
    if s.workers[w].hasTask {
      s', e := DoTake(s, w), TakeStep(w);
    } else if s.workers[w].loop.Testing? {
      s', e := DoTest(s, w), TestStep(w);
    } else {
      s', e := DoFinish(s, w, false), FinishStep(w, false);
    }
  }

  /** The holder of the mutex, or else any thread that wants it. */
  lemma InsideMoves(s: State) returns (s': State, e: Step)
    requires Inv(s) && IsInside(s)
    ensures Moves(s, s', e)
  {
    var t :| 0 <= t < |s.threads| && !s.threads[t].Outside?;
    t := if s.lock != NONE then s.lock else t;
    assert ThreadOk(s, t);
    if s.threads[t].Lock? {
      s', e := DoLock(s, t), LockStep(t);
    } else if s.threads[t].Unlock? {
      s', e := DoUnlock(s, t), UnlockStep(t);
    } else if s.threads[t].Assign? {
      s', e := DoAssign(s, t, s.threads[t].task, s.threads[t].worker), AssignStep(t);
    } else if s.threads[t].call.Add? {
      DecideAddOk(s, t, s.threads[t].call.task);
      s', e := DoDecideAdd(s, t, s.threads[t].call.task), DecideStep(t);
    } else {
      s', e := DoDecideEnlist(s, t, s.threads[t].call.worker), DecideStep(t);
    }
  }
}
