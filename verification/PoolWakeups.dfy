/** No wake-up of the thread pool is lost. */
module PoolWakeups {
  import opened ThreadPool
  import opened PoolSafety

  predicate Active(pc: WorkerPc) {
    pc != Waiting && pc != Dead
  }

  ghost predicate SomeActive(ws: seq<WorkerPc>) {
    exists w :: 0 <= w < |ws| && Active(ws[w]) && ws[w] != ToUnlockExit
  }

  ghost predicate SomeLeft(ws: seq<WorkerPc>) {
    exists w :: 0 <= w < |ws| && ws[w] in {ToUnlockExit, Dead}
  }

  /** While the global queue is not empty, the workers do not all sleep. Once a worker has
      seen the exit message, the message stays at the head for the others; it never leaves the queue. */
  ghost predicate PoolAwake(s: State) {
    && (s.wq != [] ==> SomeActive(s.workers) || !AnyWaiting(s.workers))
    && (SomeLeft(s.workers) ==> s.wq != [] && s.wq[0] == Exit)
    && (forall i, j :: 0 <= i < j < |s.wq| && s.wq[i] == Exit ==> s.wq[j] != Exit)
    && (Exit in s.wq <==> s.cleaner in {ExitUnlock, Joining})
  }

  /** What the holder of the loop's mutex is about to do, if it is a worker. */
  function HolderPc(s: State, l: nat): WorkerPc
    requires l < |s.loops|
  {
    var m := s.loops[l].mutex;
    if m.Some? && m.value.Worker? && m.value.w < |s.workers| then s.workers[m.value.w] else Dead
  }

  /** Someone is going to look at the loop's queue. */
  predicate QueueWatched(s: State, l: nat)
    requires l < |s.loops|
  {
    var ls := s.loops[l];
    ls.pending || ls.io in {DoneLock, DoneSplit} || ls.op.CancelSend? || HolderPc(s, l).ToSend?
  }

  /** Someone is going to look at the pending flag. */
  predicate FlagWatched(s: State, l: nat)
    requires l < |s.loops|
  {
    var ls := s.loops[l];
    ls.pipe > 0 || ls.io in {Reading, Testing} || ls.op.CancelWrite? || HolderPc(s, l).ToWrite?
  }

  predicate LoopAwake(s: State, l: nat)
    requires l < |s.loops|
  {
    (s.loops[l].queue != [] ==> QueueWatched(s, l)) && (s.loops[l].pending ==> FlagWatched(s, l))
  }

  ghost predicate Awake(s: State) {
    s.capacity > 0 && PoolAwake(s) && forall l :: 0 <= l < |s.loops| ==> LoopAwake(s, l)
  }

  // ---- the workers ----

  lemma SignalWakes(ws: seq<WorkerPc>, wake: nat)
    requires Signal(ws, wake).Some?
    ensures var ws' := Signal(ws, wake).value;
      && |ws'| == |ws|
      && (SomeActive(ws') || !AnyWaiting(ws'))
      && (SomeLeft(ws') ==> SomeLeft(ws))
      && forall w :: 0 <= w < |ws| ==> ws'[w] == ws[w] || (ws[w] == Waiting && ws'[w] == ToLock)
  {
    if wake < |ws| && ws[wake] == Waiting {
      assert Signal(ws, wake).value[wake] == ToLock;
    }
  }

  lemma TakePool(s: State, w: nat, wake: nat)
    requires PoolAwake(s) && w < |s.workers| && TakeNext(s, w, wake).Some?
    ensures PoolAwake(TakeNext(s, w, wake).value)
  {
    var s' := TakeNext(s, w, wake).value;
    if s.workers[w] == Holding && s.wq != [] && s.wq[0] == Exit {
      SignalWakes(s.workers[w := ToUnlockExit], wake);
    } else {
      assert forall v :: 0 <= v < |s.workers| && v != w ==> s'.workers[v] == s.workers[v];
      if s.wq != [] && SomeActive(s.workers) {
        var v :| 0 <= v < |s.workers| && Active(s.workers[v]) && s.workers[v] != ToUnlockExit;
        assert Active(s'.workers[v]) && s'.workers[v] != ToUnlockExit;
      }
    }
  }

  lemma DeliverPool(s: State, w: nat)
    requires PoolAwake(s) && w < |s.workers| && DeliverNext(s, w).Some?
    ensures PoolAwake(DeliverNext(s, w).value)
  {
    var s' := DeliverNext(s, w).value;
    assert Active(s'.workers[w]) && s'.workers[w] != ToUnlockExit;
    assert forall v :: 0 <= v < |s.workers| && v != w ==> s'.workers[v] == s.workers[v];
  }

  lemma PostPool(s: State, l: nat, wake: nat)
    requires PoolAwake(s) && l < |s.loops| && PostNext(s, l, wake).Some?
    ensures PoolAwake(PostNext(s, l, wake).value)
  {
    if s.loops[l].op.PostBody? {
      SignalWakes(s.workers, wake);
    }
  }

  lemma CancelPool(s: State, l: nat)
    requires PoolAwake(s) && l < |s.loops| && CancelNext(s, l).Some?
    ensures PoolAwake(CancelNext(s, l).value)
  {
    if s.loops[l].op.CancelTest? {
      WithoutRequest(s.wq, s.loops[l].op.i);
    }
  }

  /** Taking a request out of the queue moves no other entry past another one. */
  lemma {:induction false} WithoutRequest(wq: seq<Entry>, i: nat)
    ensures var r := Without(wq, Request(i));
      && (wq != [] && wq[0] == Exit ==> r != [] && r[0] == Exit)
      && (r != [] ==> wq != []) && (Exit in r <==> Exit in wq)
      && ((forall a, b :: 0 <= a < b < |wq| && wq[a] == Exit ==> wq[b] != Exit) ==>
            forall a, b :: 0 <= a < b < |r| && r[a] == Exit ==> r[b] != Exit)
  {
    if wq != [] {
      WithoutRequest(wq[1..], i);
      if forall a, b :: 0 <= a < b < |wq| && wq[a] == Exit ==> wq[b] != Exit {
        assert forall a :: 0 <= a < |wq[1..]| ==> wq[1..][a] == wq[a + 1];
        assert wq[0] == Exit ==> Exit !in wq[1..];
      }
    }
  }

  lemma CleanerPool(s: State, wake: nat)
    requires PoolAwake(s) && CleanerNext(s, wake).Some?
    ensures PoolAwake(CleanerNext(s, wake).value)
  {
    if s.cleaner == ExitBody {
      SignalWakes(s.workers, wake);
    }
  }

  // ---- the loops ----

  lemma TakeLoop(s: State, w: nat, wake: nat, l: nat)
    requires Locks(s) && w < |s.workers| && TakeNext(s, w, wake).Some? && l < |s.loops| && LoopAwake(s, l)
    ensures LoopAwake(TakeNext(s, w, wake).value, l)
  {
    assert LoopMutexOk(s, l);
    if TakeNext(s, w, wake).value.workers != s.workers[w := TakeNext(s, w, wake).value.workers[w]] {
      SignalWakes(s.workers[w := ToUnlockExit], wake);
    }
  }

  lemma DeliverElsewhereLoop(s: State, w: nat, l: nat)
    requires Locks(s) && w < |s.workers| && DeliverNext(s, w).Some? && l < |s.loops| && LoopAwake(s, l)
    requires l != s.items[s.workers[w].i].loop
    ensures LoopAwake(DeliverNext(s, w).value, l)
  {
    assert LoopMutexOk(s, l);
    assert DeliverNext(s, w).value.loops[l] == s.loops[l];
  }

  lemma DeliverHomeLoop(s: State, w: nat)
    requires Locks(s) && s.capacity > 0 && w < |s.workers| && DeliverNext(s, w).Some?
    requires LoopAwake(s, s.items[s.workers[w].i].loop)
    ensures LoopAwake(DeliverNext(s, w).value, s.items[s.workers[w].i].loop)
  {
    assert LoopMutexOk(s, s.items[s.workers[w].i].loop);
  }

  lemma PostLoop(s: State, l: nat, wake: nat, k: nat)
    requires Locks(s) && l < |s.loops| && PostNext(s, l, wake).Some? && k < |s.loops| && LoopAwake(s, k)
    ensures LoopAwake(PostNext(s, l, wake).value, k)
  {
    assert LoopMutexOk(s, k);
    if s.loops[l].op.PostBody? {
      SignalWakes(s.workers, wake);
    }
  }

  lemma CancelLoop(s: State, l: nat, k: nat)
    requires Locks(s) && l < |s.loops| && CancelNext(s, l).Some? && k < |s.loops| && LoopAwake(s, k)
    ensures LoopAwake(CancelNext(s, l).value, k)
  {
    assert LoopMutexOk(s, k);
  }

  lemma RequeueLoop(s: State, l: nat, k: nat)
    requires Locks(s) && s.capacity > 0 && l < |s.loops| && RequeueNext(s, l).Some? && k < |s.loops| && LoopAwake(s, k)
    ensures LoopAwake(RequeueNext(s, l).value, k)
  {
    assert LoopMutexOk(s, k);
  }

  lemma PollLoop(s: State, l: nat, k: nat)
    requires Locks(s) && l < |s.loops| && PollNext(s, l).Some? && k < |s.loops| && LoopAwake(s, k)
    ensures LoopAwake(PollNext(s, l).value, k)
  {
  }

  lemma DoneLoop(s: State, l: nat, k: nat)
    requires Locks(s) && l < |s.loops| && DoneNext(s, l).Some? && k < |s.loops| && LoopAwake(s, k)
    ensures LoopAwake(DoneNext(s, l).value, k)
  {
    assert LoopMutexOk(s, k);
  }
}
