/** The thread pool gets its work done: left to itself, it comes to rest, and then every item that
    was submitted has had its done callback; once the exit message is posted, all workers end. */
module PoolCompletion {
  import opened Options
  import opened ThreadPool
  import opened PoolSafety
  import opened PoolWakeups
  import opened PoolRuns
  import V = WorkItems

  /** The steps of workers, loop threads and an exit under way, without new calls and other handles. */
  predicate Inner(e: Event) {
    e.WorkerStep? || e.OpStep? || e.IoStep? || e.CleanerStep?
  }

  // ---- how much is left to do ----

  function Total<T>(s: seq<T>, f: T -> nat): nat {
    if s == [] then 0 else f(s[0]) + Total(s[1..], f)
  }

  lemma {:induction false} TotalUpdate<T>(s: seq<T>, i: nat, x: T, f: T -> nat)
    requires i < |s|
    ensures Total(s[i := x], f) + f(s[i]) == Total(s, f) + f(x)
  {
    var u := s[i := x];
    if i == 0 {
      assert u[1..] == s[1..];
    } else {
      assert u[1..] == s[1..][i - 1 := x];
      TotalUpdate(s[1..], i - 1, x, f);
    }
  }

  /** The steps of a worker until it sleeps, and three more while it has not ended; handing an item over
      leaves two more to its loop, and a worker that ends wakes another one. */
  function WorkerWork(pc: WorkerPc): nat {
    match pc
    case Dead => 0
    case ToUnlockExit => 1
    case Waiting => 3
    case Holding => 4
    case ToLock => 5
    case ToUnlockLoop(_) => 6
    case ToWrite(_) => 7
    case ToSend(_) => 8
    case InLoop(_) => 11
    case ToLockLoop(_) => 12
    case Running(_) => 13
    case ToUnlock(_) => 14
  }

  /** The steps of an operation; posting leaves an entry in the global queue and wakes a worker. */
  function OpWork(op: Op): nat {
    match op
    case NoOp => 0
    case PostUnlock => 1
    case PostBody(_) => 24
    case PostLock(_) => 25
    case CancelEnd(_) => 1
    case CancelWrite(_) => 2
    case CancelSend(_) => 3
    case CancelInsert(_) => 6
    case CancelRelock(_) => 7
    case CancelMark(_) => 8
    case CancelUnlock(_, _) => 9
    case CancelUnlockLoop(_, _) => 10
    case CancelTest(_) => 11
    case CancelLockLoop(_) => 12
    case CancelLock(_) => 13
  }

  function LoopWork(ls: LoopState): nat {
    OpWork(ls.op) + 2 * |ls.queue| + |ls.batch|
  }

  function Bytes(ls: LoopState): nat {
    ls.pipe
  }

  /** How far the loop is from asking for events again, or from the next read if there are any. */
  function Turn(ls: LoopState): nat {
    if ls.pipe > 0 then
      match ls.io
      case Reading => 0
      case Idle => 1
      case Calling => 2
      case DoneUnlock => 3
      case DoneSplit => 4
      case DoneLock => 5
      case Testing => 6
    else
      match ls.io
      case Idle => 0
      case Calling => 1
      case DoneUnlock => 2
      case DoneSplit => 3
      case DoneLock => 4
      case Testing => 5
      case Reading => 6
  }

  /** The exit message is one more entry. */
  function CleanerWork(pc: CleanPc): nat {
    match pc
    case ExitLock => 25
    case ExitBody => 24
    case ExitUnlock => 1
    case _ => 0
  }

  function Work(s: State): nat {
    CleanerWork(s.cleaner) + 20 * |s.wq| + Total(s.workers, WorkerWork) + Total(s.loops, LoopWork)
  }

  /** `t` has less left to do than `s`. */
  predicate Closer(s: State, t: State) {
    || Work(t) < Work(s)
    || (Work(t) == Work(s) && Total(t.loops, Bytes) < Total(s.loops, Bytes))
    || (Work(t) == Work(s) && Total(t.loops, Bytes) == Total(s.loops, Bytes) && Total(t.loops, Turn) < Total(s.loops, Turn))
  }

  /** No exit begins, and nothing is submitted or forgotten. */
  predicate Goes(s: State, t: State) {
    (t.cleaner == NotExiting <==> s.cleaner == NotExiting) && t.items.Keys == s.items.Keys && |t.workers| == |s.workers|
  }

  // ---- every step brings the end closer ----

  lemma TakeCloser(s: State, w: nat, wake: nat)
    requires w < |s.workers| && TakeNext(s, w, wake).Some?
    ensures Closer(s, TakeNext(s, w, wake).value) && Goes(s, TakeNext(s, w, wake).value)
  {
    hide Total;
    var t := TakeNext(s, w, wake).value;
    if s.workers[w] == Holding && s.wq != [] && s.wq[0] == Exit {
      TotalUpdate(s.workers, w, ToUnlockExit, WorkerWork);
      SignalWork(s.workers[w := ToUnlockExit], wake);
    } else {
      assert t.workers == s.workers[w := t.workers[w]] && t.loops == s.loops;
      TotalUpdate(s.workers, w, t.workers[w], WorkerWork);
    }
  }

  lemma CleanerCloser(s: State, wake: nat)
    requires CleanerNext(s, wake).Some?
    ensures Closer(s, CleanerNext(s, wake).value) && Goes(s, CleanerNext(s, wake).value)
  {
    hide Total;
    if s.cleaner == ExitBody { SignalWork(s.workers, wake); }
  }

  lemma DeliverCloser(s: State, w: nat)
    requires w < |s.workers| && DeliverNext(s, w).Some?
    ensures Closer(s, DeliverNext(s, w).value) && Goes(s, DeliverNext(s, w).value)
  {
    hide Total;
    var t := DeliverNext(s, w).value;
    var l := s.items[s.workers[w].i].loop;
    assert t.workers == s.workers[w := t.workers[w]] && t.loops == s.loops[l := t.loops[l]];
    TotalUpdate(s.workers, w, t.workers[w], WorkerWork);
    TotalUpdate(s.loops, l, t.loops[l], LoopWork);
  }

  lemma SignalWork(ws: seq<WorkerPc>, wake: nat)
    requires Signal(ws, wake).Some?
    ensures |Signal(ws, wake).value| == |ws|
    ensures Total(Signal(ws, wake).value, WorkerWork) <= Total(ws, WorkerWork) + 2
  {
    if wake < |ws| && ws[wake] == Waiting {
      TotalUpdate(ws, wake, ToLock, WorkerWork);
    }
  }

  lemma PostCloser(s: State, l: nat, wake: nat)
    requires l < |s.loops| && PostNext(s, l, wake).Some?
    ensures Closer(s, PostNext(s, l, wake).value) && Goes(s, PostNext(s, l, wake).value)
  {
    var t := PostNext(s, l, wake).value;
    if s.loops[l].op.PostBody? { SignalWork(s.workers, wake); }
    assert t.loops == s.loops[l := t.loops[l]];
    TotalUpdate(s.loops, l, t.loops[l], LoopWork);
  }

  lemma {:induction false} WithoutShorter<T>(s: seq<T>, x: T)
    ensures |Without(s, x)| <= |s|
  {
    if s != [] { WithoutShorter(s[1..], x); }
  }

  lemma CancelCloser(s: State, l: nat)
    requires l < |s.loops| && CancelNext(s, l).Some?
    ensures Closer(s, CancelNext(s, l).value) && Goes(s, CancelNext(s, l).value)
  {
    hide Total;
    var t := CancelNext(s, l).value;
    if s.loops[l].op.CancelTest? {
      var i := s.loops[l].op.i;
      WithoutShorter(s.wq, Request(i));
      WithoutShorter(s.loops[l].queue, i);
      WithoutShorter(s.loops[l].batch, i);
    }
    assert t.loops == s.loops[l := t.loops[l]];
    TotalUpdate(s.loops, l, t.loops[l], LoopWork);
  }

  lemma RequeueCloser(s: State, l: nat)
    requires l < |s.loops| && RequeueNext(s, l).Some?
    ensures Closer(s, RequeueNext(s, l).value) && Goes(s, RequeueNext(s, l).value)
  {
    hide Total;
    var t := RequeueNext(s, l).value;
    var ls := t.loops[l];
    if s.loops[l].op.CancelInsert? {
      assert |ls.queue| == |s.loops[l].queue| + 1 && ls.batch == s.loops[l].batch;
    }
    assert t.loops == s.loops[l := ls] && t.wq == s.wq && t.workers == s.workers;
    TotalUpdate(s.loops, l, ls, LoopWork);
  }

  lemma LoopCloser(s: State, t: State, l: nat)
    requires l < |s.loops| && |t.loops| == |s.loops| && t.loops == s.loops[l := t.loops[l]]
    requires t.wq == s.wq && t.workers == s.workers && t.cleaner == s.cleaner
    requires var a, b := s.loops[l], t.loops[l];
      || LoopWork(b) < LoopWork(a)
      || (LoopWork(b) == LoopWork(a) && b.pipe < a.pipe)
      || (LoopWork(b) == LoopWork(a) && b.pipe == a.pipe && Turn(b) < Turn(a))
    ensures Closer(s, t)
  {
    hide Total, LoopWork, Turn;
    TotalUpdate(s.loops, l, t.loops[l], LoopWork);
    TotalUpdate(s.loops, l, t.loops[l], Bytes);
    TotalUpdate(s.loops, l, t.loops[l], Turn);
  }

  lemma IoCloser(s: State, l: nat)
    requires l < |s.loops| && IoNext(s, l).Some?
    ensures Closer(s, IoNext(s, l).value) && Goes(s, IoNext(s, l).value)
  {
    hide Closer;
    var t := IoNext(s, l).value;
    assert t.loops == s.loops[l := t.loops[l]];
    LoopCloser(s, t, l);
  }

  /** Every step that is possible brings the pool closer to rest, so that under no schedule it is busy
      for ever. */
  lemma StepCloser(s: State, e: Event)
    requires Inner(e) && Next(s, e).Some?
    ensures Closer(s, Next(s, e).value) && Goes(s, Next(s, e).value)
  {
    hide Closer, Goes;
    match e
    case WorkerStep(w, wake) => if Delivering(s.workers[w]) { DeliverCloser(s, w); } else { TakeCloser(s, w, wake); }
    case OpStep(l, wake) =>
      var op := s.loops[l].op;
      if op.PostLock? || op.PostBody? || op.PostUnlock? {
        PostCloser(s, l, wake);
      } else if op.CancelLock? || op.CancelLockLoop? || op.CancelTest? || op.CancelUnlockLoop? || op.CancelUnlock? {
        CancelCloser(s, l);
      } else {
        RequeueCloser(s, l);
      }
    case IoStep(l) => IoCloser(s, l);
    case CleanerStep(wake) => CleanerCloser(s, wake);
  }

  // ---- at rest everything is done ----

  /** No worker, no loop thread and no exit can go on. */
  ghost predicate Stuck(s: State) {
    forall e | Inner(e) :: Next(s, e).None?
  }

  lemma FreeLocks(s: State, l: nat)
    requires Inv(s) && Stuck(s)
    ensures s.mutex == None && (l < |s.loops| ==> s.loops[l].mutex == None)
  {
    if l < |s.loops| && s.loops[l].mutex.Some? {
      LoopHolder(s, l);
      Blocked(s, s.loops[l].mutex.value);
    }
    if s.mutex.Some? {
      MutexHolder(s);
      Blocked(s, s.mutex.value);
      if s.mutex.value.Loop? && s.mutex.value.l < |s.loops| && s.loops[s.mutex.value.l].mutex.Some? {
        Blocked(s, s.loops[s.mutex.value.l].mutex.value);
      }
    }
  }

  lemma Blocked(s: State, t: Thread)
    requires Stuck(s)
    ensures !CanMove(s, t)
  {
    forall e | Mover(e) == Some(t) ensures Next(s, e).None? { assert Inner(e); }
  }

  lemma OpMoves(s: State, l: nat) returns (e: Event)
    requires Inv(s) && s.mutex == None && l < |s.loops| && s.loops[l].mutex == None && s.loops[l].op != NoOp
    ensures Inner(e) && Next(s, e).Some?
  {
    var v := V.ViewOf(s);
    assert v.loops[l] == V.ViewOfLoop(s.loops[l]) && V.OpOk(v, l);
    if !s.loops[l].op.PostUnlock? { assert V.ItemOk(v, s.loops[l].op.i); }
    var wake := SignalPossible(s.workers);
    e := OpStep(l, wake);
  }

  lemma NoOps(s: State, l: nat)
    requires Inv(s) && Stuck(s) && l < |s.loops|
    ensures s.loops[l].op == NoOp
  {
    FreeLocks(s, l);
    if s.loops[l].op != NoOp {
      var e := OpMoves(s, l);
    }
  }

  lemma WorkerMoves(s: State, w: nat) returns (e: Event)
    requires Inv(s) && s.mutex == None && forall l | 0 <= l < |s.loops| :: s.loops[l].mutex == None
    requires w < |s.workers| && s.workers[w] != Waiting && s.workers[w] != Dead
    ensures Inner(e) && Next(s, e).Some?
  {
    var v := V.ViewOf(s);
    assert v.workers[w] == V.StageOf(s.workers[w]) && V.WorkerOk(v, w);
    if V.StageOf(s.workers[w]) != V.Away { assert V.ItemOk(v, s.workers[w].i); }
    e := WorkerStep(w, 0);
  }

  lemma AllSleep(s: State, w: nat)
    requires Inv(s) && Stuck(s) && w < |s.workers|
    ensures s.workers[w] == Waiting || s.workers[w] == Dead
  {
    FreeLocks(s, 0);
    forall l | 0 <= l < |s.loops| ensures s.loops[l].mutex == None { FreeLocks(s, l); }
    if s.workers[w] != Waiting && s.workers[w] != Dead {
      var e := WorkerMoves(s, w);
    }
  }

  /** The exit message is posted, or there is no exit. */
  lemma CleanerRests(s: State)
    requires Inv(s) && Stuck(s)
    ensures s.cleaner == NotExiting || s.cleaner == Joining
  {
    FreeLocks(s, 0);
    var wake := SignalPossible(s.workers);
    assert Inner(CleanerStep(wake));
  }

  lemma LoopsSleep(s: State, l: nat)
    requires Inv(s) && Stuck(s) && l < |s.loops|
    ensures s.loops[l].io == Idle && s.loops[l].queue == [] && s.loops[l].batch == []
  {
    FreeLocks(s, l);
    NoOps(s, l);
    var v := V.ViewOf(s);
    assert v.loops[l] == V.ViewOfLoop(s.loops[l]) && V.LoopQueues(v, l) && IoOk(s.loops[l]);
    if s.loops[l].batch != [] {
      assert s.loops[l].batch[0] in s.loops[l].batch && V.ItemOk(v, s.loops[l].batch[0]);
    }
    assert Next(s, IoStep(l)).None?;
    assert LoopMutexOk(s, l) && LoopAwake(s, l);
  }

  lemma AllAway(s: State)
    requires Inv(s) && Stuck(s) && s.workers != []
    ensures s.cleaner == NotExiting ==> s.wq == []
    ensures s.cleaner != NotExiting ==> s.cleaner == Joining && forall w | 0 <= w < |s.workers| :: s.workers[w] == Dead
  {
    CleanerRests(s);
    forall w | 0 <= w < |s.workers| ensures s.workers[w] == Waiting || s.workers[w] == Dead { AllSleep(s, w); }
    assert PoolAwake(s);
    assert s.workers[0] == Waiting || s.workers[0] == Dead;
  }

  /** The item has had its one done callback, or it was left in the global queue by an exit. */
  predicate OverFor(s: State, i: nat)
    requires i in s.items
  {
    var it := s.items[i];
    (it.place == Finished && |it.done| == 1)
    || (s.cleaner == Joining && Request(i) in s.wq && it.place == Global && !it.ran && it.done == [])
  }

  /** Of a pool with at least one worker. */
  lemma RestMeansDone(s: State, i: nat)
    requires Inv(s) && Stuck(s) && s.workers != [] && i in s.items
    ensures OverFor(s, i)
  {
    var v := V.ViewOf(s);
    assert V.ItemOk(v, i);
    var l := s.items[i].loop;
    NoOps(s, l);
    LoopsSleep(s, l);
    assert v.loops[l] == V.ViewOfLoop(s.loops[l]);
    forall w | 0 <= w < |s.workers| ensures v.workers[w] == V.Away { AllSleep(s, w); }
    AllAway(s);
  }

  // ---- completion ----

  lemma RunOne(s: State, e: Event, rest: seq<Event>)
    requires Next(s, e).Some?
    ensures Run(s, [e] + rest) == Run(Next(s, e).value, rest)
  {
    assert ([e] + rest)[1..] == rest;
  }

  /** What is left when the pool has come to rest. */
  ghost predicate AtRest(s: State) {
    && Stuck(s)
    && (s.cleaner == NotExiting || s.cleaner == Joining)
    && (s.cleaner == Joining ==> forall w | 0 <= w < |s.workers| :: s.workers[w] == Dead)
    && forall i | i in s.items :: OverFor(s, i)
  }

  lemma {:induction false} Completes(s: State) returns (events: seq<Event>)
    requires Inv(s) && s.workers != []
    ensures forall e | e in events :: Inner(e)
    ensures AtRest(Run(s, events)) && Run(s, events).items.Keys == s.items.Keys
    ensures Run(s, events).cleaner == NotExiting <==> s.cleaner == NotExiting
    ensures |Run(s, events).workers| == |s.workers|
    decreases Work(s), Total(s.loops, Bytes), Total(s.loops, Turn)
  {
    hide Inv, Next, Work, Total;
    if e :| Inner(e) && Next(s, e).Some? {
      StepCloser(s, e);
      StepKeeps(s, e);
      var rest := Completes(Next(s, e).value);
      events := [e] + rest;
      RunOne(s, e, rest);
    } else {
      events := [];
      AllAway(s);
      forall i | i in s.items
        ensures OverFor(s, i)
      {
        RestMeansDone(s, i);
      }
    }
  }

  /** From every reachable state without an exit and with at least one worker, the workers and loop
      threads by themselves bring every item that was submitted to its one done callback. */
  lemma EveryItemIsDone(s: State) returns (events: seq<Event>)
    requires Reachable(s) && s.cleaner == NotExiting && s.workers != []
    ensures forall e | e in events :: Inner(e)
    ensures Stuck(Run(s, events)) && Run(s, events).items.Keys == s.items.Keys
    ensures forall i | i in s.items :: Run(s, events).items[i].place == Finished && |Run(s, events).items[i].done| == 1
  {
    ReachableInv(s);
    events := Completes(s);
  }

  /** And once the exit has begun, all workers end, so that joining them returns; every item has had its
      done callback then, but for those that wait in the global queue and were not begun. */
  lemma EveryWorkerEnds(s: State) returns (events: seq<Event>)
    requires Reachable(s) && s.cleaner != NotExiting && s.workers != []
    ensures forall e | e in events :: Inner(e)
    ensures var t := Run(s, events);
      && Stuck(t) && t.cleaner == Joining
      && |t.workers| == |s.workers| && (forall w | 0 <= w < |t.workers| :: t.workers[w] == Dead)
      && t.items.Keys == s.items.Keys
      && forall i | i in t.items ::
           (t.items[i].place == Finished && |t.items[i].done| == 1)
           || (Request(i) in t.wq && !t.items[i].ran && t.items[i].done == [])
  {
    ReachableInv(s);
    events := Completes(s);
  }
}
