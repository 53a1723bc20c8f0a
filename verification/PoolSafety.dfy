/** What every interleaving of the thread pool keeps: its items, its locks and its wake-ups. */
module PoolSafety {
  import opened Options
  import opened ThreadPool
  import V = WorkItems

  // ---- the items: every step is one move, or none, of WorkItems ----

  /** A signal is no move. */
  lemma SignalView(ws: seq<WorkerPc>, wake: nat)
    ensures Signal(ws, wake).Some? ==> V.Stages(Signal(ws, wake).value) == V.Stages(ws)
  {
  }

  /** The move of a worker step. */
  function WorkerMove(s: State, w: nat): V.View
    requires w < |s.workers|
  {
    var v := V.ViewOf(s);
    match s.workers[w]
    case Holding =>
      if s.wq != [] && s.wq[0].Request? && s.wq[0].i in s.items then V.Take(v, w) else v
    case Running(i) => if i in s.items then V.Execute(v, w) else v
    case InLoop(i) => if Known(s, i) then V.Hand(v, w) else v
    case ToUnlockLoop(i) => V.Depart(v, w)
    case _ => v
  }

  lemma TakeView(s: State, w: nat, wake: nat)
    requires w < |s.workers| && TakeNext(s, w, wake).Some?
    ensures V.ViewOf(TakeNext(s, w, wake).value) == WorkerMove(s, w)
  {
    var s' := TakeNext(s, w, wake).value;
    if s.workers[w] == Holding && s.wq != [] && s.wq[0] == Exit {
      SignalView(s.workers[w := ToUnlockExit], wake);
      V.StagesUpdate(s.workers, w, ToUnlockExit);
    } else {
      V.StagesUpdate(s.workers, w, s'.workers[w]);
    }
    SameAt(V.Stages(s.workers), w);
  }

  lemma DeliverView(s: State, w: nat)
    requires w < |s.workers| && DeliverNext(s, w).Some?
    ensures V.ViewOf(DeliverNext(s, w).value) == WorkerMove(s, w)
  {
    var s', i := DeliverNext(s, w).value, s.workers[w].i;
    V.StagesUpdate(s.workers, w, s'.workers[w]);
    SameAt(V.Stages(s.workers), w);
    if s.workers[w].InLoop? {
      EnqueueView(SetWorker(s, w, ToSend(i)), i, Null);
    } else {
      var l := s.items[i].loop;
      V.LoopViewsUpdate(s.loops, l, s'.loops[l]);
      SameAt(V.LoopViews(s.loops), l);
    }
  }

  /** The move of a step of an operation on a loop thread. */
  function OpMove(s: State, l: nat): V.View
    requires l < |s.loops|
  {
    var v := V.ViewOf(s);
    match s.loops[l].op
    case PostBody(i) => if i in s.items then V.Post(v, l) else v
    case CancelTest(i) => if V.Cancellable(v, i) then V.Hit(v, l) else v
    case CancelUnlock(i, hit) => if hit then v else V.Miss(v, l)
    case CancelMark(i) => if i in s.items then V.Mark(v, l) else v
    case CancelInsert(i) => if i in s.items && s.items[i].loop == l then V.Give(v, l) else v
    case CancelEnd(i) => if i in s.items then V.Return0(v, l) else v
    case _ => v
  }

  lemma PostView(s: State, l: nat, wake: nat)
    requires l < |s.loops| && PostNext(s, l, wake).Some?
    ensures V.ViewOf(PostNext(s, l, wake).value) == OpMove(s, l)
  {
    var s' := PostNext(s, l, wake).value;
    SignalView(s.workers, wake);
    assert s'.loops == s.loops[l := s'.loops[l]];
    V.LoopViewsUpdate(s.loops, l, s'.loops[l]);
    SameAt(V.LoopViews(s.loops), l);
  }

  lemma TestView(s: State, l: nat)
    requires l < |s.loops| && CancelNext(s, l).Some? && s.loops[l].op.CancelTest?
    ensures V.ViewOf(CancelNext(s, l).value) == OpMove(s, l)
  {
    var s' := CancelNext(s, l).value;
    assert s'.loops == s.loops[l := s'.loops[l]];
    V.LoopViewsUpdate(s.loops, l, s'.loops[l]);
    SameAt(V.LoopViews(s.loops), l);
  }

  lemma CancelView(s: State, l: nat)
    requires l < |s.loops| && CancelNext(s, l).Some?
    ensures V.ViewOf(CancelNext(s, l).value) == OpMove(s, l)
  {
    if s.loops[l].op.CancelTest? {
      TestView(s, l);
    } else {
      var s' := CancelNext(s, l).value;
      assert s'.loops == s.loops[l := s'.loops[l]];
      V.LoopViewsUpdate(s.loops, l, s'.loops[l]);
      SameAt(V.LoopViews(s.loops), l);
    }
  }

  lemma EnqueueView(s: State, i: nat, work: Work)
    requires Known(s, i)
    ensures V.ViewOf(Enqueue(s, i, work)) == V.Enqueue(V.ViewOf(s), i, work)
  {
    V.LoopViewsUpdate(s.loops, s.items[i].loop, Enqueue(s, i, work).loops[s.items[i].loop]);
  }

  lemma InsertView(s: State, l: nat)
    requires l < |s.loops| && RequeueNext(s, l).Some? && s.loops[l].op.CancelInsert?
    ensures V.ViewOf(RequeueNext(s, l).value) == OpMove(s, l)
  {
    var i := s.loops[l].op.i;
    var s' := SetOp(s, l, CancelSend(i));
    V.LoopViewsUpdate(s.loops, l, s'.loops[l]);
    EnqueueView(s', i, s.items[i].work);
  }

  lemma RequeueView(s: State, l: nat)
    requires l < |s.loops| && RequeueNext(s, l).Some? && !s.loops[l].op.CancelInsert?
    ensures V.ViewOf(RequeueNext(s, l).value) == OpMove(s, l)
  {
    var s' := RequeueNext(s, l).value;
    assert s'.loops == s.loops[l := s'.loops[l]];
    V.LoopViewsUpdate(s.loops, l, s'.loops[l]);
    SameAt(V.LoopViews(s.loops), l);
  }

  lemma SameAt<T>(s: seq<T>, i: nat)
    requires i < |s|
    ensures s[i := s[i]] == s
  {
  }

  // ---- the locks ----

  predicate WorkerHolds(pc: WorkerPc) {
    pc.Holding? || pc.ToUnlock? || pc.ToUnlockExit?
  }

  predicate OpHolds(op: Op) {
    op.PostBody? || op.PostUnlock? || op.CancelLockLoop? || op.CancelTest? || op.CancelUnlockLoop? || op.CancelUnlock?
  }

  /** The global mutex is held by exactly the thread that is between lock and unlock. */
  ghost predicate MutexOk(s: State) {
    && (forall w :: 0 <= w < |s.workers| ==> (WorkerHolds(s.workers[w]) <==> s.mutex == Some(Worker(w))))
    && (forall l :: 0 <= l < |s.loops| ==> (OpHolds(s.loops[l].op) <==> s.mutex == Some(Loop(l))))
    && (s.cleaner in {ExitBody, ExitUnlock} <==> s.mutex == Some(Cleaner))
    && match s.mutex
       case Some(Worker(w)) => w < |s.workers|
       case Some(Loop(l)) => l < |s.loops|
       case _ => true
  }

  /** Worker `pc` is inside the critical section of loop `l`. */
  predicate WorkerInLoop(s: State, pc: WorkerPc, l: nat) {
    (pc.InLoop? || pc.ToSend? || pc.ToWrite? || pc.ToUnlockLoop?) && pc.i in s.items && s.items[pc.i].loop == l
  }

  predicate SelfInLoop(ls: LoopState) {
    || ls.op.CancelTest? || ls.op.CancelUnlockLoop?
    || ls.op.CancelInsert? || ls.op.CancelSend? || ls.op.CancelWrite? || ls.op.CancelEnd?
    || ls.io in {DoneSplit, DoneUnlock}
  }

  ghost predicate LoopMutexOk(s: State, l: nat)
    requires l < |s.loops|
  {
    var m := s.loops[l].mutex;
    && (forall w :: 0 <= w < |s.workers| ==> (WorkerInLoop(s, s.workers[w], l) <==> m == Some(Worker(w))))
    && (SelfInLoop(s.loops[l]) <==> m == Some(Loop(l)))
    && match m
       case Some(Worker(w)) => w < |s.workers|
       case Some(Loop(k)) => k == l
       case Some(Cleaner) => false
       case None => true
  }

  /** Callbacks run, and operations start, only outside the locked part of uv__work_done. */
  predicate IoOk(ls: LoopState) {
    && (ls.io in {Reading, DoneLock, DoneSplit, DoneUnlock} ==> ls.op == NoOp)
    && (ls.io !in {DoneUnlock, Calling} ==> ls.batch == [])
  }

  ghost predicate Locks(s: State) {
    && MutexOk(s)
    && (forall l :: 0 <= l < |s.loops| ==> LoopMutexOk(s, l) && IoOk(s.loops[l]))
  }

  lemma TakeMutex(s: State, w: nat, wake: nat)
    requires Locks(s) && w < |s.workers| && TakeNext(s, w, wake).Some?
    ensures MutexOk(TakeNext(s, w, wake).value)
  {
  }

  lemma TakeLoopMutex(s: State, w: nat, wake: nat, k: nat)
    requires Locks(s) && w < |s.workers| && TakeNext(s, w, wake).Some? && k < |s.loops|
    ensures LoopMutexOk(TakeNext(s, w, wake).value, k) && IoOk(TakeNext(s, w, wake).value.loops[k])
  {
    assert LoopMutexOk(s, k);
  }

  lemma TakeLocks(s: State, w: nat, wake: nat)
    requires Locks(s) && w < |s.workers| && TakeNext(s, w, wake).Some?
    ensures Locks(TakeNext(s, w, wake).value)
  {
    TakeMutex(s, w, wake);
    forall k | 0 <= k < |s.loops| ensures LoopMutexOk(TakeNext(s, w, wake).value, k) && IoOk(TakeNext(s, w, wake).value.loops[k]) {
      TakeLoopMutex(s, w, wake, k);
    }
  }

  /** Handing an item over has nothing to do with the global mutex. */
  lemma DeliverAside(s: State, w: nat)
    requires w < |s.workers| && DeliverNext(s, w).Some?
    ensures var s' := DeliverNext(s, w).value;
      && s'.mutex == s.mutex && s'.cleaner == s.cleaner && |s'.loops| == |s.loops|
      && s'.workers == s.workers[w := s'.workers[w]] && !WorkerHolds(s.workers[w]) && !WorkerHolds(s'.workers[w])
      && forall l :: 0 <= l < |s.loops| ==> s'.loops[l].op == s.loops[l].op
  {
  }

  lemma DeliverMutex(s: State, w: nat)
    requires Locks(s) && w < |s.workers| && DeliverNext(s, w).Some?
    ensures MutexOk(DeliverNext(s, w).value)
  {
    hide DeliverNext, LoopMutexOk;
    DeliverAside(s, w);
  }

  lemma DeliverFar(s: State, w: nat, k: nat)
    requires w < |s.workers| && DeliverNext(s, w).Some? && k < |s.loops|
    requires k != s.items[s.workers[w].i].loop
    ensures var s' := DeliverNext(s, w).value;
      && |s'.loops| == |s.loops| && s'.loops[k] == s.loops[k]
      && s'.workers == s.workers[w := s'.workers[w]]
      && !WorkerInLoop(s, s.workers[w], k) && !WorkerInLoop(s', s'.workers[w], k)
      && s'.items.Keys == s.items.Keys && forall i | i in s.items :: s'.items[i].loop == s.items[i].loop
  {
  }

  lemma DeliverElsewhere(s: State, w: nat, k: nat)
    requires Locks(s) && w < |s.workers| && DeliverNext(s, w).Some? && k < |s.loops|
    requires k != s.items[s.workers[w].i].loop
    ensures |DeliverNext(s, w).value.loops| == |s.loops| && LoopMutexOk(DeliverNext(s, w).value, k)
  {
    hide DeliverNext, MutexOk;
    assert LoopMutexOk(s, k);
    DeliverFar(s, w, k);
  }

  lemma DeliverHome(s: State, w: nat)
    requires Locks(s) && w < |s.workers| && DeliverNext(s, w).Some?
    ensures LoopMutexOk(DeliverNext(s, w).value, s.items[s.workers[w].i].loop)
  {
    assert LoopMutexOk(s, s.items[s.workers[w].i].loop);
  }

  lemma DeliverLoopMutex(s: State, w: nat, k: nat)
    requires Locks(s) && w < |s.workers| && DeliverNext(s, w).Some? && k < |s.loops|
    ensures LoopMutexOk(DeliverNext(s, w).value, k)
  {
    if k == s.items[s.workers[w].i].loop {
      DeliverHome(s, w);
    } else {
      DeliverElsewhere(s, w, k);
    }
  }

  lemma DeliverIo(s: State, w: nat, k: nat)
    requires Locks(s) && w < |s.workers| && DeliverNext(s, w).Some? && k < |s.loops|
    ensures IoOk(DeliverNext(s, w).value.loops[k])
  {
    assert LoopMutexOk(s, k);
  }

  lemma DeliverLocks(s: State, w: nat)
    requires Locks(s) && w < |s.workers| && DeliverNext(s, w).Some?
    ensures Locks(DeliverNext(s, w).value)
  {
    DeliverMutex(s, w);
    forall k | 0 <= k < |s.loops| ensures LoopMutexOk(DeliverNext(s, w).value, k) && IoOk(DeliverNext(s, w).value.loops[k]) {
      DeliverLoopMutex(s, w, k);
      DeliverIo(s, w, k);
    }
  }

  lemma PostMutex(s: State, l: nat, wake: nat)
    requires Locks(s) && l < |s.loops| && PostNext(s, l, wake).Some?
    ensures MutexOk(PostNext(s, l, wake).value)
  {
  }

  lemma PostLoopMutex(s: State, l: nat, wake: nat, k: nat)
    requires Locks(s) && l < |s.loops| && PostNext(s, l, wake).Some? && k < |s.loops|
    ensures LoopMutexOk(PostNext(s, l, wake).value, k) && IoOk(PostNext(s, l, wake).value.loops[k])
  {
    assert LoopMutexOk(s, k);
  }

  lemma PostLocks(s: State, l: nat, wake: nat)
    requires Locks(s) && l < |s.loops| && PostNext(s, l, wake).Some?
    ensures Locks(PostNext(s, l, wake).value)
  {
    PostMutex(s, l, wake);
    forall k | 0 <= k < |s.loops| ensures LoopMutexOk(PostNext(s, l, wake).value, k) && IoOk(PostNext(s, l, wake).value.loops[k]) {
      PostLoopMutex(s, l, wake, k);
    }
  }

  lemma CancelMutex(s: State, l: nat)
    requires Locks(s) && l < |s.loops| && CancelNext(s, l).Some?
    ensures MutexOk(CancelNext(s, l).value)
  {
  }

  lemma CancelLoopMutex(s: State, l: nat, k: nat)
    requires Locks(s) && l < |s.loops| && CancelNext(s, l).Some? && k < |s.loops|
    ensures LoopMutexOk(CancelNext(s, l).value, k)
  {
    assert LoopMutexOk(s, k);
  }

  lemma CancelIo(s: State, l: nat, k: nat)
    requires Locks(s) && l < |s.loops| && CancelNext(s, l).Some? && k < |s.loops|
    ensures IoOk(CancelNext(s, l).value.loops[k])
  {
    assert LoopMutexOk(s, k);
  }

  lemma CancelLocks(s: State, l: nat)
    requires Locks(s) && l < |s.loops| && CancelNext(s, l).Some?
    ensures Locks(CancelNext(s, l).value)
  {
    CancelMutex(s, l);
    forall k | 0 <= k < |s.loops| ensures LoopMutexOk(CancelNext(s, l).value, k) && IoOk(CancelNext(s, l).value.loops[k]) {
      CancelLoopMutex(s, l, k);
      CancelIo(s, l, k);
    }
  }

  lemma RequeueMutex(s: State, l: nat)
    requires Locks(s) && l < |s.loops| && RequeueNext(s, l).Some?
    ensures MutexOk(RequeueNext(s, l).value)
  {
  }

  lemma RequeueElsewhere(s: State, l: nat, k: nat)
    requires Locks(s) && l < |s.loops| && RequeueNext(s, l).Some? && k < |s.loops| && k != l
    ensures LoopMutexOk(RequeueNext(s, l).value, k)
  {
    assert LoopMutexOk(s, k);
    assert RequeueNext(s, l).value.loops[k] == s.loops[k];
    hide MutexOk, IoOk;
  }

  lemma RequeueHere(s: State, l: nat)
    requires Locks(s) && l < |s.loops| && RequeueNext(s, l).Some?
    ensures LoopMutexOk(RequeueNext(s, l).value, l)
  {
    assert LoopMutexOk(s, l) && IoOk(s.loops[l]);
    hide MutexOk;
  }

  lemma RequeueLoopMutex(s: State, l: nat, k: nat)
    requires Locks(s) && l < |s.loops| && RequeueNext(s, l).Some? && k < |s.loops|
    ensures LoopMutexOk(RequeueNext(s, l).value, k)
  {
    hide Locks, LoopMutexOk;
    if k == l {
      RequeueHere(s, l);
    } else {
      RequeueElsewhere(s, l, k);
    }
  }

  lemma RequeueIo(s: State, l: nat, k: nat)
    requires Locks(s) && l < |s.loops| && RequeueNext(s, l).Some? && k < |s.loops|
    ensures IoOk(RequeueNext(s, l).value.loops[k])
  {
    assert LoopMutexOk(s, k);
  }

  lemma RequeueLocks(s: State, l: nat)
    requires Locks(s) && l < |s.loops| && RequeueNext(s, l).Some?
    ensures Locks(RequeueNext(s, l).value)
  {
    RequeueMutex(s, l);
    forall k | 0 <= k < |s.loops| ensures LoopMutexOk(RequeueNext(s, l).value, k) && IoOk(RequeueNext(s, l).value.loops[k]) {
      RequeueLoopMutex(s, l, k);
      RequeueIo(s, l, k);
    }
  }

  lemma PollMutex(s: State, l: nat)
    requires Locks(s) && l < |s.loops| && s.loops[l].op == NoOp && PollNext(s, l).Some?
    ensures MutexOk(PollNext(s, l).value)
  {
  }

  lemma PollLoopMutex(s: State, l: nat, k: nat)
    requires Locks(s) && l < |s.loops| && s.loops[l].op == NoOp && PollNext(s, l).Some? && k < |s.loops|
    ensures LoopMutexOk(PollNext(s, l).value, k) && IoOk(PollNext(s, l).value.loops[k])
  {
    assert LoopMutexOk(s, k);
  }

  lemma PollLocks(s: State, l: nat)
    requires Locks(s) && l < |s.loops| && s.loops[l].op == NoOp && PollNext(s, l).Some?
    ensures Locks(PollNext(s, l).value)
  {
    PollMutex(s, l);
    forall k | 0 <= k < |s.loops| ensures LoopMutexOk(PollNext(s, l).value, k) && IoOk(PollNext(s, l).value.loops[k]) {
      PollLoopMutex(s, l, k);
    }
  }

  lemma DoneMutex(s: State, l: nat)
    requires Locks(s) && l < |s.loops| && s.loops[l].op == NoOp && DoneNext(s, l).Some?
    ensures MutexOk(DoneNext(s, l).value)
  {
  }

  lemma DoneLoopMutex(s: State, l: nat, k: nat)
    requires Locks(s) && l < |s.loops| && s.loops[l].op == NoOp && DoneNext(s, l).Some? && k < |s.loops|
    ensures LoopMutexOk(DoneNext(s, l).value, k) && IoOk(DoneNext(s, l).value.loops[k])
  {
    assert LoopMutexOk(s, k);
    SameHomes(s, DoneNext(s, l).value, k);
  }

  lemma DoneLocks(s: State, l: nat)
    requires Locks(s) && l < |s.loops| && s.loops[l].op == NoOp && DoneNext(s, l).Some?
    ensures Locks(DoneNext(s, l).value)
  {
    DoneMutex(s, l);
    forall k | 0 <= k < |s.loops| ensures LoopMutexOk(DoneNext(s, l).value, k) && IoOk(DoneNext(s, l).value.loops[k]) {
      DoneLoopMutex(s, l, k);
    }
  }

  /** Who is in a critical section depends only on the workers and on where items belong. */
  lemma SameHomes(s: State, s': State, k: nat)
    requires s'.workers == s.workers
    requires forall i :: (i in s'.items <==> i in s.items) && (i in s.items ==> s'.items[i].loop == s.items[i].loop)
    ensures forall w :: 0 <= w < |s.workers| ==>
      (WorkerInLoop(s', s'.workers[w], k) <==> WorkerInLoop(s, s.workers[w], k))
  {
  }

  lemma CleanerLocks(s: State, wake: nat)
    requires Locks(s) && CleanerNext(s, wake).Some?
    ensures Locks(CleanerNext(s, wake).value)
  {
    var s' := CleanerNext(s, wake).value;
    forall k | 0 <= k < |s'.loops| ensures LoopMutexOk(s', k) && IoOk(s'.loops[k]) {
      assert LoopMutexOk(s, k);
    }
  }
}
