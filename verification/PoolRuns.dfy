/** The thread pool over whole runs: any number of workers and loops, any program on the loop
    threads, any interleaving. */
module PoolRuns {
  import opened Options
  import opened ThreadPool
  import opened PoolSafety
  import opened PoolWakeups
  import V = WorkItems

  /** Workers that have handed an item over, but still use it to reach the loop, do so while
      it waits in the loop's queue. */
  ghost predicate Held(s: State) {
    forall w :: 0 <= w < |s.workers| ==>
      var pc := s.workers[w];
      pc.ToSend? || pc.ToWrite? || pc.ToUnlockLoop? ==>
        pc.i in s.items && s.items[pc.i].place == Queued
  }

  ghost predicate Inv(s: State) {
    V.Inv(V.ViewOf(s)) && Locks(s) && Awake(s) && Held(s)
  }

  function Initial(workers: nat, loops: nat, capacity: nat): State {
    State(map[], [], None, seq(workers, _ => ToLock),
          seq(loops, _ => LoopState([], None, false, 0, NoOp, Idle, [])), capacity, NotExiting)
  }

  lemma InitialInv(workers: nat, loops: nat, capacity: nat)
    requires capacity > 0
    ensures Inv(Initial(workers, loops, capacity))
  {
    var s := Initial(workers, loops, capacity);
    forall l | 0 <= l < loops ensures V.LoopQueues(V.ViewOf(s), l) && V.OpOk(V.ViewOf(s), l) && LoopMutexOk(s, l) {
      assert V.ViewOf(s).loops[l] == V.ViewOfLoop(s.loops[l]);
    }
  }

  // ---- one step ----

  lemma TakeStep(s: State, w: nat, wake: nat)
    requires Inv(s) && w < |s.workers| && TakeNext(s, w, wake).Some?
    ensures Inv(TakeNext(s, w, wake).value)
  {
    var s', v := TakeNext(s, w, wake).value, V.ViewOf(s);
    TakeView(s, w, wake);
    if s.workers[w] == Holding && s.wq != [] && s.wq[0].Request? {
      V.TakeKeeps(v, w);
    } else if s.workers[w].Running? {
      V.ExecuteKeeps(v, w);
    }
    TakeLocks(s, w, wake);
    TakePool(s, w, wake);
    forall l | 0 <= l < |s'.loops| ensures LoopAwake(s', l) {
      TakeLoop(s, w, wake, l);
    }
    TakeHeld(s, w, wake);
  }

  lemma TakeHeld(s: State, w: nat, wake: nat)
    requires Inv(s) && w < |s.workers| && TakeNext(s, w, wake).Some?
    ensures Held(TakeNext(s, w, wake).value)
  {
    hide Locks, V.Items;
    if s.wq != [] && s.wq[0].Request? {
      assert Request(s.wq[0].i) in s.wq;
    }
  }

  lemma DeliverStep(s: State, w: nat)
    requires Inv(s) && w < |s.workers| && DeliverNext(s, w).Some?
    ensures Inv(DeliverNext(s, w).value)
  {
    var s', v := DeliverNext(s, w).value, V.ViewOf(s);
    DeliverView(s, w);
    if s.workers[w].InLoop? {
      V.HandKeeps(v, w);
    } else if s.workers[w].ToUnlockLoop? {
      V.DepartKeeps(v, w);
    }
    DeliverLocks(s, w);
    DeliverPool(s, w);
    forall l | 0 <= l < |s'.loops| ensures LoopAwake(s', l) {
      if l == s.items[s.workers[w].i].loop {
        DeliverHomeLoop(s, w);
      } else {
        DeliverElsewhereLoop(s, w, l);
      }
    }
    DeliverHeld(s, w);
  }

  lemma DeliverHeld(s: State, w: nat)
    requires Inv(s) && w < |s.workers| && DeliverNext(s, w).Some?
    ensures Held(DeliverNext(s, w).value)
  {
    hide Locks, V.Items, V.Queues, PoolAwake, LoopAwake;
  }

  lemma PostStep(s: State, l: nat, wake: nat)
    requires Inv(s) && l < |s.loops| && PostNext(s, l, wake).Some?
    ensures Inv(PostNext(s, l, wake).value)
  {
    var s', v := PostNext(s, l, wake).value, V.ViewOf(s);
    PostView(s, l, wake);
    assert v.loops[l] == V.ViewOfLoop(s.loops[l]) && V.OpOk(v, l);
    if s.loops[l].op.PostBody? {
      V.PostKeeps(v, l);
      SignalWakes(s.workers, wake);
    }
    PostLocks(s, l, wake);
    PostPool(s, l, wake);
    forall k | 0 <= k < |s'.loops| ensures LoopAwake(s', k) {
      PostLoop(s, l, wake, k);
    }
  }

  lemma CancelStep(s: State, l: nat)
    requires Inv(s) && l < |s.loops| && CancelNext(s, l).Some?
    ensures Inv(CancelNext(s, l).value)
  {
    var s', v := CancelNext(s, l).value, V.ViewOf(s);
    CancelView(s, l);
    assert v.loops[l] == V.ViewOfLoop(s.loops[l]) && V.OpOk(v, l);
    if s.loops[l].op.CancelTest? && V.Cancellable(v, s.loops[l].op.i) {
      V.HitKeeps(v, l);
    } else if s.loops[l].op.CancelUnlock? && !s.loops[l].op.hit {
      V.MissKeeps(v, l);
    }
    CancelLocks(s, l);
    CancelPool(s, l);
    forall k | 0 <= k < |s'.loops| ensures LoopAwake(s', k) {
      CancelLoop(s, l, k);
    }
    CancelHeld(s, l);
  }

  /** A cancel holds the loop's lock when it looks: no worker is using an item there. */
  lemma CancelHeld(s: State, l: nat)
    requires Inv(s) && l < |s.loops| && CancelNext(s, l).Some?
    ensures Held(CancelNext(s, l).value)
  {
    hide MutexOk, PoolAwake, LoopAwake;
    assert LoopMutexOk(s, l);
    assert V.ViewOf(s).loops[l] == V.ViewOfLoop(s.loops[l]) && V.OpOk(V.ViewOf(s), l);
  }

  lemma RequeueStep(s: State, l: nat)
    requires Inv(s) && l < |s.loops| && RequeueNext(s, l).Some?
    ensures Inv(RequeueNext(s, l).value)
  {
    hide Locks, LoopMutexOk, V.Items, V.Queues;
    var s', v := RequeueNext(s, l).value, V.ViewOf(s);
    assert v.loops[l] == V.ViewOfLoop(s.loops[l]) && V.OpOk(v, l);
    if s.loops[l].op.CancelInsert? {
      InsertView(s, l);
      V.GiveKeeps(v, l);
    } else {
      RequeueView(s, l);
      if s.loops[l].op.CancelMark? {
        V.MarkKeeps(v, l);
      } else if s.loops[l].op.CancelEnd? {
        V.Return0Keeps(v, l);
      }
    }
    RequeueLocks(s, l);
    forall k | 0 <= k < |s'.loops| ensures LoopAwake(s', k) {
      RequeueLoop(s, l, k);
    }
  }

  lemma PollStep(s: State, l: nat)
    requires Inv(s) && l < |s.loops| && s.loops[l].op == NoOp && PollNext(s, l).Some?
    ensures Inv(PollNext(s, l).value)
  {
    hide Locks, V.Items;
    var s' := PollNext(s, l).value;
    V.LoopViewsUpdate(s.loops, l, s'.loops[l]);
    SameAt(V.LoopViews(s.loops), l);
    PollLocks(s, l);
    forall k | 0 <= k < |s'.loops| ensures LoopAwake(s', k) {
      PollLoop(s, l, k);
    }
  }

  lemma DoneStep(s: State, l: nat)
    requires Inv(s) && l < |s.loops| && s.loops[l].op == NoOp && DoneNext(s, l).Some?
    ensures Inv(DoneNext(s, l).value)
  {
    var s', v := DoneNext(s, l).value, V.ViewOf(s);
    assert v.loops[l] == V.ViewOfLoop(s.loops[l]);
    V.LoopViewsUpdate(s.loops, l, s'.loops[l]);
    SameAt(V.LoopViews(s.loops), l);
    if s.loops[l].io == DoneSplit {
      V.SplitKeeps(v, l);
    } else if s.loops[l].io == Calling && s.loops[l].batch != [] {
      V.CallKeeps(v, l);
    }
    DoneLocks(s, l);
    forall k | 0 <= k < |s'.loops| ensures LoopAwake(s', k) {
      DoneLoop(s, l, k);
    }
    DoneHeld(s, l);
  }

  lemma DoneHeld(s: State, l: nat)
    requires Inv(s) && l < |s.loops| && s.loops[l].op == NoOp && DoneNext(s, l).Some?
    ensures Held(DoneNext(s, l).value)
  {
    assert LoopMutexOk(s, l);
    assert V.ViewOf(s).loops[l] == V.ViewOfLoop(s.loops[l]) && V.LoopQueues(V.ViewOf(s), l);
    if s.loops[l].batch != [] {
      assert s.loops[l].batch[0] in s.loops[l].batch;
    }
  }

  lemma SpuriousStep(s: State, w: nat)
    requires Inv(s) && w < |s.workers| && s.workers[w] == Waiting
    ensures Inv(SetWorker(s, w, ToLock))
  {
    var s' := SetWorker(s, w, ToLock);
    V.StagesUpdate(s.workers, w, ToLock);
    SameAt(V.Stages(s.workers), w);
    assert s'.workers[w] == ToLock;
    forall l | 0 <= l < |s.loops| ensures LoopMutexOk(s', l) && LoopAwake(s', l) {
      assert LoopMutexOk(s, l) && LoopAwake(s, l);
    }
  }

  lemma SubmitStep(s: State, l: nat, i: nat)
    requires Inv(s) && Next(s, Submit(l, i)).Some?
    ensures Inv(Next(s, Submit(l, i)).value)
  {
    hide V.Items, V.Queues;
    var s', v := Next(s, Submit(l, i)).value, V.ViewOf(s);
    V.LoopViewsUpdate(s.loops, l, s'.loops[l]);
    assert v.loops[l] == V.ViewOfLoop(s.loops[l]);
    V.BeginKeeps(v, l, i);
    forall k | 0 <= k < |s.loops| ensures LoopMutexOk(s', k) && IoOk(s'.loops[k]) && LoopAwake(s', k) {
      assert LoopMutexOk(s, k) && LoopAwake(s, k);
      forall w | 0 <= w < |s.workers| ensures WorkerInLoop(s', s.workers[w], k) <==> WorkerInLoop(s, s.workers[w], k) {
        assert v.workers[w] == V.StageOf(s.workers[w]) && V.WorkerOk(v, w);
      }
    }
  }

  lemma CancelCallStep(s: State, l: nat, i: nat)
    requires Inv(s) && Next(s, Cancel(l, i)).Some?
    ensures Inv(Next(s, Cancel(l, i)).value)
  {
    hide V.Items;
    var s', v := Next(s, Cancel(l, i)).value, V.ViewOf(s);
    V.LoopViewsUpdate(s.loops, l, s'.loops[l]);
    assert v.loops[l] == V.ViewOfLoop(s.loops[l]);
    V.TryKeeps(v, l, i);
    forall k | 0 <= k < |s.loops| ensures LoopMutexOk(s', k) && IoOk(s'.loops[k]) && LoopAwake(s', k) {
      assert LoopMutexOk(s, k) && LoopAwake(s, k);
    }
  }

  lemma OtherSendStep(s: State, l: nat)
    requires Inv(s) && Next(s, OtherSend(l)).Some?
    ensures Inv(Next(s, OtherSend(l)).value)
  {
    var s' := Next(s, OtherSend(l)).value;
    V.LoopViewsUpdate(s.loops, l, s'.loops[l]);
    SameAt(V.LoopViews(s.loops), l);
    forall k | 0 <= k < |s.loops| ensures LoopMutexOk(s', k) && IoOk(s'.loops[k]) && LoopAwake(s', k) {
      assert LoopMutexOk(s, k) && LoopAwake(s, k);
    }
  }

  lemma CleanerStepKeeps(s: State, wake: nat)
    requires Inv(s) && CleanerNext(s, wake).Some?
    ensures Inv(CleanerNext(s, wake).value)
  {
    var s', v := CleanerNext(s, wake).value, V.ViewOf(s);
    CleanerLocks(s, wake);
    CleanerPool(s, wake);
    if s.cleaner == ExitBody {
      SignalView(s.workers, wake);
      SignalWakes(s.workers, wake);
      V.StopKeeps(v);
    }
    forall k | 0 <= k < |s.loops| ensures LoopAwake(s', k) {
      assert LoopMutexOk(s, k) && LoopAwake(s, k);
    }
  }

  lemma AtExitStep(s: State)
    requires Inv(s) && s.cleaner == NotExiting
    ensures Inv(s.(cleaner := ExitLock))
  {
    forall k | 0 <= k < |s.loops|
      ensures LoopMutexOk(s.(cleaner := ExitLock), k) && LoopAwake(s.(cleaner := ExitLock), k) {
      assert LoopMutexOk(s, k) && LoopAwake(s, k);
    }
  }

  lemma StepKeeps(s: State, e: Event)
    requires Inv(s) && Next(s, e).Some?
    ensures Inv(Next(s, e).value)
  {
    match e
    case WorkerStep(w, wake) => if Delivering(s.workers[w]) { DeliverStep(s, w); } else { TakeStep(s, w, wake); }
    case SpuriousWake(w) => SpuriousStep(s, w);
    case Submit(l, i) => SubmitStep(s, l, i);
    case Cancel(l, i) => CancelCallStep(s, l, i);
    case OpStep(l, wake) =>
      var op := s.loops[l].op;
      if op.PostLock? || op.PostBody? || op.PostUnlock? {
        PostStep(s, l, wake);
      } else if op.CancelLock? || op.CancelLockLoop? || op.CancelTest? || op.CancelUnlockLoop? || op.CancelUnlock? {
        CancelStep(s, l);
      } else {
        RequeueStep(s, l);
      }
    case IoStep(l) => if s.loops[l].io in {Idle, Reading, Testing} { PollStep(s, l); } else { DoneStep(s, l); }
    case OtherSend(l) => OtherSendStep(s, l);
    case AtExit => AtExitStep(s);
    case CleanerStep(wake) => CleanerStepKeeps(s, wake);
  }

  // ---- whole runs ----

  /** What a sequence of events leads to; events that are not possible are passed over. */
  function Run(s: State, events: seq<Event>): State
    decreases |events|
  {
    if events == [] then s
    else Run(if Next(s, events[0]).Some? then Next(s, events[0]).value else s, events[1..])
  }

  lemma {:induction false} RunKeeps(s: State, events: seq<Event>)
    requires Inv(s)
    ensures Inv(Run(s, events))
    decreases |events|
  {
    if events != [] {
      if Next(s, events[0]).Some? {
        StepKeeps(s, events[0]);
        RunKeeps(Next(s, events[0]).value, events[1..]);
      } else {
        RunKeeps(s, events[1..]);
      }
    }
  }

  ghost predicate Reachable(s: State) {
    exists workers, loops, capacity: nat, events ::
      capacity > 0 && s == Run(Initial(workers, loops, capacity), events)
  }

  lemma ReachableInv(s: State)
    requires Reachable(s)
    ensures Inv(s)
  {
    var workers, loops, capacity: nat, events :|
      capacity > 0 && s == Run(Initial(workers, loops, capacity), events);
    InitialInv(workers, loops, capacity);
    RunKeeps(Initial(workers, loops, capacity), events);
  }

  /** Where the program's own data structures and threads show item `i` to be. */
  predicate Occurs(s: State, i: nat, p: Place)
    requires Known(s, i)
  {
    var ls := Home(s, i);
    match p
    case Entering => ls.op in {PostLock(i), PostBody(i)}
    case Global => Request(i) in s.wq
    case Executing(w) => w < |s.workers| && s.workers[w] in {ToUnlock(i), Running(i), ToLockLoop(i), InLoop(i)}
    case Cancelling =>
      ls.op in {CancelUnlockLoop(i, true), CancelUnlock(i, true), CancelMark(i), CancelRelock(i), CancelInsert(i)}
    case Queued => i in ls.queue
    case Drained => i in ls.batch
    case Finished => s.items[i].done != []
  }

  lemma PlaceIff(s: State, i: nat, p: Place)
    requires Inv(s) && i in s.items
    ensures Known(s, i) && (Occurs(s, i, p) <==> p == s.items[i].place)
  {
    hide Locks, Awake, Held, Distinct;
    var v := V.ViewOf(s);
    assert V.ItemOk(v, i);
    var l := s.items[i].loop;
    assert v.loops[l] == V.ViewOfLoop(s.loops[l]) && V.OpOk(v, l) && V.LoopQueues(v, l);
    if p.Executing? && p.w < |s.workers| {
      assert v.workers[p.w] == V.StageOf(s.workers[p.w]) && V.WorkerOk(v, p.w);
    }
  }

  lemma HomeOnly(s: State, l: nat)
    requires Inv(s) && l < |s.loops|
    ensures Distinct(s.loops[l].queue) && Distinct(s.loops[l].batch)
    ensures forall i | i in s.loops[l].queue || i in s.loops[l].batch :: i in s.items && s.items[i].loop == l
  {
    hide Locks, Awake, Held, Distinct;
    var v := V.ViewOf(s);
    assert v.loops[l] == V.ViewOfLoop(s.loops[l]) && V.LoopQueues(v, l);
  }

  /** Each submitted item is in exactly one place, and nowhere twice. */
  lemma ExactlyOnePlace(s: State, i: nat, p: Place)
    requires Reachable(s) && i in s.items
    ensures Known(s, i)
    ensures Occurs(s, i, p) <==> p == s.items[i].place
    ensures Distinct(s.wq) && Distinct(Home(s, i).queue) && Distinct(Home(s, i).batch)
    ensures forall l :: 0 <= l < |s.loops| && (i in s.loops[l].queue || i in s.loops[l].batch) ==> l == s.items[i].loop
  {
    ReachableInv(s);
    hide Locks, Awake, Held, Distinct, Occurs;
    PlaceIff(s, i, p);
    forall l | 0 <= l < |s.loops|
      ensures Distinct(s.loops[l].queue) && Distinct(s.loops[l].batch)
      ensures i in s.loops[l].queue || i in s.loops[l].batch ==> l == s.items[i].loop
    {
      HomeOnly(s, l);
    }
  }

  /** The done callback is called at most once; it is told that the item was cancelled if and
      only if the work function never ran, and if and only if a uv_cancel returned 0. */
  lemma DoneTellsTheTruth(s: State, i: nat)
    requires Reachable(s) && i in s.items
    ensures |s.items[i].done| <= 1
    ensures s.items[i].done != [] ==>
      && (s.items[i].done[0] <==> !s.items[i].ran)
      && (s.items[i].done[0] <==> s.items[i].cancelReturned0)
    ensures s.items[i].ran ==> !s.items[i].cancelReturned0
  {
    ReachableInv(s);
    assert V.ItemOk(V.ViewOf(s), i);
  }

  /** A worker about to call w->work finds the caller's function there, never NULL and never
      uv__cancelled; and no worker still uses an item whose done callback has been called. */
  lemma WorkersUseLiveItems(s: State, w: nat)
    requires Reachable(s) && w < |s.workers|
    ensures s.workers[w].Running? ==>
      Known(s, s.workers[w].i) && s.items[s.workers[w].i].work == Function && !s.items[s.workers[w].i].ran
    ensures V.StageOf(s.workers[w]) != V.Away ==>
      s.workers[w].i in s.items && s.items[s.workers[w].i].done == []
  {
    ReachableInv(s);
    var v := V.ViewOf(s);
    assert v.workers[w] == V.StageOf(s.workers[w]) && V.WorkerOk(v, w);
    if V.StageOf(s.workers[w]) != V.Away {
      assert V.ItemOk(v, s.workers[w].i);
    }
  }

  // ---- locks ----

  function Mover(e: Event): Option<Thread> {
    match e
    case WorkerStep(w, _) => Some(Worker(w))
    case OpStep(l, _) => Some(Loop(l))
    case IoStep(l) => Some(Loop(l))
    case CleanerStep(_) => Some(Cleaner)
    case _ => None
  }

  ghost predicate CanMove(s: State, t: Thread) {
    exists e :: Mover(e) == Some(t) && Next(s, e).Some?
  }

  /** Some choice of the woken worker is always possible. */
  lemma SignalPossible(ws: seq<WorkerPc>) returns (wake: nat)
    ensures Signal(ws, wake).Some?
  {
    if AnyWaiting(ws) {
      wake :| wake < |ws| && ws[wake] == Waiting;
    } else {
      wake := |ws|;
    }
  }

  lemma WorkerInside(s: State, w: nat, l: nat)
    requires Inv(s) && l < |s.loops| && s.loops[l].mutex == Some(Worker(w))
    ensures CanMove(s, Worker(w))
  {
    hide MutexOk, PoolAwake, LoopAwake, Held;
    assert LoopMutexOk(s, l);
    var v := V.ViewOf(s);
    assert v.workers[w] == V.StageOf(s.workers[w]) && V.WorkerOk(v, w) && V.ItemOk(v, s.workers[w].i);
    assert Next(s, WorkerStep(w, 0)).Some?;
  }

  lemma LoopInside(s: State, l: nat)
    requires Inv(s) && l < |s.loops| && s.loops[l].mutex == Some(Loop(l))
    ensures CanMove(s, Loop(l))
  {
    hide MutexOk, PoolAwake, LoopAwake, Held;
    assert LoopMutexOk(s, l) && IoOk(s.loops[l]);
    if s.loops[l].op == NoOp {
      assert Next(s, IoStep(l)).Some?;
    } else {
      var v := V.ViewOf(s);
      assert v.loops[l] == V.ViewOfLoop(s.loops[l]) && V.OpOk(v, l) && V.ItemOk(v, s.loops[l].op.i);
      assert Next(s, OpStep(l, 0)).Some?;
    }
  }

  lemma LoopHolder(s: State, l: nat)
    requires Inv(s) && l < |s.loops| && s.loops[l].mutex.Some?
    ensures CanMove(s, s.loops[l].mutex.value)
  {
    hide V.Inv, Awake, Held, CanMove;
    assert LoopMutexOk(s, l);
    match s.loops[l].mutex.value
    case Worker(w) => WorkerInside(s, w, l);
    case Loop(k) => LoopInside(s, l);
  }

  lemma MutexHolder(s: State)
    requires Inv(s) && s.mutex.Some?
    ensures CanMove(s, s.mutex.value) ||
      (&& s.mutex.value.Loop? && s.mutex.value.l < |s.loops| && s.loops[s.mutex.value.l].mutex.Some?
       && CanMove(s, s.loops[s.mutex.value.l].mutex.value))
  {
    var v := V.ViewOf(s);
    match s.mutex.value
    case Worker(w) =>
      var wake := SignalPossible(s.workers[w := ToUnlockExit]);
      if s.wq != [] && s.wq[0].Request? {
        assert Request(s.wq[0].i) in s.wq && V.ItemOk(v, s.wq[0].i);
      }
      assert Next(s, WorkerStep(w, wake)).Some?;
    case Loop(l) =>
      assert LoopMutexOk(s, l) && IoOk(s.loops[l]);
      assert v.loops[l] == V.ViewOfLoop(s.loops[l]) && V.OpOk(v, l);
      if s.loops[l].op.CancelLockLoop? && s.loops[l].mutex.Some? {
        LoopHolder(s, l);
      } else {
        var wake := SignalPossible(s.workers);
        if s.loops[l].op.PostBody? || s.loops[l].op.CancelTest? {
          assert V.ItemOk(v, s.loops[l].op.i);
        }
        assert Next(s, OpStep(l, wake)).Some?;
      }
    case Cleaner =>
      var wake := SignalPossible(s.workers);
      assert Next(s, CleanerStep(wake)).Some?;
  }

  /** The thread inside a loop's critical section can always go on. */
  lemma LoopHolderMoves(s: State, l: nat)
    requires Reachable(s) && l < |s.loops| && s.loops[l].mutex.Some?
    ensures CanMove(s, s.loops[l].mutex.value)
  {
    ReachableInv(s);
    LoopHolder(s, l);
  }

  /** The thread that holds the global mutex can go on, or waits for a loop's lock, whose
      holder can: the locks never form a cycle. */
  lemma MutexHolderMoves(s: State)
    requires Reachable(s) && s.mutex.Some?
    ensures CanMove(s, s.mutex.value) ||
      (&& s.mutex.value.Loop? && s.mutex.value.l < |s.loops| && s.loops[s.mutex.value.l].mutex.Some?
       && CanMove(s, s.loops[s.mutex.value.l].mutex.value))
  {
    ReachableInv(s);
    MutexHolder(s);
  }

  // ---- wake-ups ----

  /** While requests wait, some worker is awake and not on its way out, unless the exit message is at
      the head of the queue and no worker sleeps any more. */
  lemma WaitingRequestsHaveAWorker(s: State)
    requires Reachable(s) && s.wq != []
    ensures SomeActive(s.workers) || (!AnyWaiting(s.workers) && (s.workers != [] ==> s.wq[0] == Exit))
  {
    ReachableInv(s);
    if !SomeActive(s.workers) && s.workers != [] {
      assert s.workers[0] in {ToUnlockExit, Dead};
    }
  }

  /** A loop thread that is about to wait for events does not sleep on decided items: unless
      another thread is just adding one, its pipe is readable. */
  lemma QuietLoopWillPoll(s: State, l: nat)
    requires Reachable(s) && l < |s.loops|
    requires s.loops[l].queue != [] && s.loops[l].mutex == None && s.loops[l].op == NoOp && s.loops[l].io == Idle
    ensures s.loops[l].pending && s.loops[l].pipe > 0 && Next(s, IoStep(l)).Some?
  {
    ReachableInv(s);
    assert LoopAwake(s, l);
  }

  /** At any time, a decided item has a wake-up under way, and so has a raised pending flag. */
  lemma NoLostWakeUp(s: State, l: nat)
    requires Reachable(s) && l < |s.loops|
    ensures s.loops[l].queue != [] ==> QueueWatched(s, l)
    ensures s.loops[l].pending ==> FlagWatched(s, l)
  {
    ReachableInv(s);
    assert LoopAwake(s, l);
  }
}
