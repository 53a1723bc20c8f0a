/** The thread pool of libuv/src/unix/threadpool.c with the wake-up protocol of
    libuv/src/unix/async.c, as a state machine: any number of workers, loops and work items,
    one event per atomic step. What a lock protects happens in one step; taking and releasing
    a lock, and the unprotected accesses to the pending flag and the pipe, are steps of
    their own. */
module ThreadPool {
  import opened Options

  datatype Thread = Worker(w: nat) | Loop(l: nat) | Cleaner

  /** The field uv__work.work: the caller's function, NULL, or uv__cancelled. */
  datatype Work = Function | Null | Cancelled

  /** Where a work item is; for the proof only, no step looks at it. */
  datatype Place = Entering | Global | Executing(w: nat) | Cancelling | Queued | Drained | Finished

  datatype Item = Item(
    loop: nat,
    work: Work,
    selfLinked: bool,      // ngx_queue_empty(&w->wq)
    place: Place,
    ran: bool,             // the caller's function has been called
    cancelReturned0: bool, // some uv_cancel of it has returned 0
    done: seq<bool>)       // the calls of its done callback: with -UV_ECANCELED?

  /** An entry of the global queue. */
  datatype Entry = Request(i: nat) | Exit

  datatype WorkerPc =
    | ToLock | Holding | Waiting
    | ToUnlock(i: nat) | Running(i: nat)
    | ToLockLoop(i: nat) | InLoop(i: nat) | ToSend(i: nat) | ToWrite(i: nat) | ToUnlockLoop(i: nat)
    | ToUnlockExit | Dead

  /** uv__work_submit and uv__work_cancel, as called on a loop thread. */
  datatype Op =
    | NoOp
    | PostLock(i: nat) | PostBody(i: nat) | PostUnlock
    | CancelLock(i: nat) | CancelLockLoop(i: nat) | CancelTest(i: nat)
    | CancelUnlockLoop(i: nat, hit: bool) | CancelUnlock(i: nat, hit: bool)
    | CancelMark(i: nat) | CancelRelock(i: nat) | CancelInsert(i: nat)
    | CancelSend(i: nat) | CancelWrite(i: nat) | CancelEnd(i: nat)

  /** uv__async_io and uv__work_done. */
  datatype Io = Idle | Reading | Testing | DoneLock | DoneSplit | DoneUnlock | Calling

  datatype LoopState = LoopState(
    queue: seq<nat>,            // loop->wq
    mutex: Option<Thread>,      // loop->wq_mutex
    pending: bool,              // loop->wq_async.pending
    pipe: nat,                  // bytes in loop->async_pipefd
    op: Op,
    io: Io,
    batch: seq<nat>)            // the local queue of uv__work_done

  datatype CleanPc = NotExiting | ExitLock | ExitBody | ExitUnlock | Joining

  datatype State = State(
    items: map<nat, Item>,
    wq: seq<Entry>,
    mutex: Option<Thread>,
    workers: seq<WorkerPc>,
    loops: seq<LoopState>,
    capacity: nat,              // of the pipes
    cleaner: CleanPc)

  /** `wake` selects the waiting worker that a uv_cond_signal wakes up. */
  datatype Event =
    | WorkerStep(w: nat, wake: nat)
    | SpuriousWake(w: nat)
    | Submit(l: nat, i: nat)
    | Cancel(l: nat, i: nat)
    | OpStep(l: nat, wake: nat)
    | IoStep(l: nat)
    | OtherSend(l: nat)         // another handle's byte in the same pipe
    | AtExit
    | CleanerStep(wake: nat)

  const PIPE_READ := 1024

  // ---- the steps ----

  function Without<T(==)>(s: seq<T>, x: T): (r: seq<T>)
  {
    if s == [] then [] else if s[0] == x then Without(s[1..], x) else [s[0]] + Without(s[1..], x)
  }

  predicate AnyWaiting(workers: seq<WorkerPc>) {
    exists w :: 0 <= w < |workers| && workers[w] == Waiting
  }

  /** uv_cond_signal: one of the waiting workers, if there is one, goes on to relock. */
  function Signal(workers: seq<WorkerPc>, wake: nat): Option<seq<WorkerPc>> {
    if wake < |workers| && workers[wake] == Waiting then Some(workers[wake := ToLock])
    else if AnyWaiting(workers) then None
    else Some(workers)
  }

  function SetItem(s: State, i: nat, it: Item): State {
    s.(items := s.items[i := it])
  }

  function SetWorker(s: State, w: nat, pc: WorkerPc): State
    requires w < |s.workers|
  {
    s.(workers := s.workers[w := pc])
  }

  function SetLoop(s: State, l: nat, ls: LoopState): State
    requires l < |s.loops|
  {
    s.(loops := s.loops[l := ls])
  }

  /** The item exists, and so does its loop. */
  predicate Known(s: State, i: nat) {
    i in s.items && s.items[i].loop < |s.loops|
  }

  /** The loop that item `i` belongs to. */
  function Home(s: State, i: nat): LoopState
    requires Known(s, i)
  {
    s.loops[s.items[i].loop]
  }

  function SetHome(s: State, i: nat, ls: LoopState): State
    requires Known(s, i)
  {
    SetLoop(s, s.items[i].loop, ls)
  }

  /** w->work is set and `i` goes to the tail of its loop's queue; wq_mutex is held. */
  function Enqueue(s: State, i: nat, work: Work): State
    requires Known(s, i)
  {
    SetItem(SetHome(s, i, Home(s, i).(queue := Home(s, i).queue + [i])), i,
            s.items[i].(work := work, selfLinked := false, place := Queued))
  }

  /** A byte is written to the pipe, unless it is full (EAGAIN). */
  function WriteByte(s: State, ls: LoopState): LoopState {
    if ls.pipe < s.capacity then ls.(pipe := ls.pipe + 1) else ls
  }

  /** worker() from the lock of the global mutex to the end of the work function. */
  function TakeNext(s: State, w: nat, wake: nat): Option<State>
    requires w < |s.workers|
  {
    match s.workers[w]
    case ToLock =>
      if s.mutex == None then Some(SetWorker(s, w, Holding).(mutex := Some(Worker(w)))) else None
    case Holding =>
      if s.wq == [] then Some(SetWorker(s, w, Waiting).(mutex := None))
      else if s.wq[0] == Exit then
        match Signal(s.workers[w := ToUnlockExit], wake)
        case None => None
        case Some(ws) => Some(s.(workers := ws))
      else
        var i := s.wq[0].i;
        if !Known(s, i) then None else
        Some(SetItem(SetWorker(s, w, ToUnlock(i)), i, s.items[i].(selfLinked := true, place := Executing(w)))
             .(wq := s.wq[1..]))
    case ToUnlock(i) => Some(SetWorker(s, w, Running(i)).(mutex := None))
    case Running(i) =>
      if Known(s, i) && s.items[i].work == Function then
        Some(SetItem(SetWorker(s, w, ToLockLoop(i)), i, s.items[i].(ran := true)))
      else None
    case ToUnlockExit => Some(SetWorker(s, w, Dead).(mutex := None))
    case _ => None
  }

  /** worker() from there to the end of the loop body: the item goes back to its loop. */
  function DeliverNext(s: State, w: nat): Option<State>
    requires w < |s.workers|
  {
    match s.workers[w]
    case ToLockLoop(i) =>
      if Known(s, i) && Home(s, i).mutex == None then
        Some(SetHome(SetWorker(s, w, InLoop(i)), i, Home(s, i).(mutex := Some(Worker(w)))))
      else None
    case InLoop(i) =>
      if !Known(s, i) then None else
      Some(Enqueue(SetWorker(s, w, ToSend(i)), i, Null))
    case ToSend(i) =>
      if !Known(s, i) then None else
      Some(SetHome(SetWorker(s, w, if Home(s, i).pending then ToUnlockLoop(i) else ToWrite(i)), i,
                   Home(s, i).(pending := true)))
    case ToWrite(i) =>
      if !Known(s, i) then None else
      Some(SetHome(SetWorker(s, w, ToUnlockLoop(i)), i, WriteByte(s, Home(s, i))))
    case ToUnlockLoop(i) =>
      if !Known(s, i) then None else
      Some(SetHome(SetWorker(s, w, ToLock), i, Home(s, i).(mutex := None)))
    case _ => None
  }

  predicate Delivering(pc: WorkerPc) {
    pc.ToLockLoop? || pc.InLoop? || pc.ToSend? || pc.ToWrite? || pc.ToUnlockLoop?
  }

  /** The next step of worker(). */
  function WorkerNext(s: State, w: nat, wake: nat): Option<State>
    requires w < |s.workers|
  {
    if Delivering(s.workers[w]) then DeliverNext(s, w) else TakeNext(s, w, wake)
  }

  function SetOp(s: State, l: nat, op: Op): State
    requires l < |s.loops|
  {
    SetLoop(s, l, s.loops[l].(op := op))
  }

  /** ngx_queue_remove: `i` leaves whichever queue it is linked into, but keeps its links. */
  function Unlink(s: State, l: nat, i: nat): State
    requires l < |s.loops| && i in s.items
  {
    var ls := s.loops[l];
    SetItem(SetLoop(s, l, ls.(queue := Without(ls.queue, i), batch := Without(ls.batch, i))), i,
            s.items[i].(place := Cancelling)).(wq := Without(s.wq, Request(i)))
  }

  /** post(), called by uv__work_submit on loop thread `l`. */
  function PostNext(s: State, l: nat, wake: nat): Option<State>
    requires l < |s.loops|
  {
    match s.loops[l].op
    case PostLock(i) =>
      if s.mutex == None then Some(SetOp(s, l, PostBody(i)).(mutex := Some(Loop(l)))) else None
    case PostBody(i) =>
      (match Signal(s.workers, wake)
       case None => None
       case Some(ws) =>
         if !Known(s, i) then None else
         Some(SetItem(SetOp(s, l, PostUnlock), i, s.items[i].(selfLinked := false, place := Global))
              .(wq := s.wq + [Request(i)], workers := ws)))
    case PostUnlock => Some(SetOp(s, l, NoOp).(mutex := None))
    case _ => None
  }

  /** uv__work_cancel up to the point where it is decided. */
  function CancelNext(s: State, l: nat): Option<State>
    requires l < |s.loops|
  {
    var ls := s.loops[l];
    match ls.op
    case CancelLock(i) =>
      if s.mutex == None then Some(SetOp(s, l, CancelLockLoop(i)).(mutex := Some(Loop(l)))) else None
    case CancelLockLoop(i) =>
      if ls.mutex == None then Some(SetLoop(s, l, ls.(op := CancelTest(i), mutex := Some(Loop(l))))) else None
    case CancelTest(i) =>
      if !Known(s, i) then None else
      var hit := !s.items[i].selfLinked && s.items[i].work != Null;
      var s' := SetOp(s, l, CancelUnlockLoop(i, hit));
      Some(if hit then Unlink(s', l, i) else s')
    case CancelUnlockLoop(i, hit) => Some(SetLoop(s, l, ls.(op := CancelUnlock(i, hit), mutex := None)))
    case CancelUnlock(i, hit) => Some(SetOp(s, l, if hit then CancelMark(i) else NoOp).(mutex := None))
    case _ => None
  }

  /** The rest of uv__work_cancel, when it has taken the item out of its queue. */
  function RequeueNext(s: State, l: nat): Option<State>
    requires l < |s.loops|
  {
    var ls := s.loops[l];
    match ls.op
    case CancelMark(i) =>
      if !Known(s, i) then None else
      Some(SetItem(SetOp(s, l, CancelRelock(i)), i, s.items[i].(work := Cancelled)))
    case CancelRelock(i) =>
      if ls.mutex == None then Some(SetLoop(s, l, ls.(op := CancelInsert(i), mutex := Some(Loop(l))))) else None
    case CancelInsert(i) =>
      if !Known(s, i) || s.items[i].loop != l then None else
      Some(Enqueue(SetOp(s, l, CancelSend(i)), i, s.items[i].work))
    case CancelSend(i) =>
      Some(SetLoop(s, l, ls.(op := if ls.pending then CancelEnd(i) else CancelWrite(i), pending := true)))
    case CancelWrite(i) => Some(SetLoop(s, l, WriteByte(s, ls).(op := CancelEnd(i))))
    case CancelEnd(i) =>
      if !Known(s, i) then None else
      Some(SetItem(SetLoop(s, l, ls.(op := NoOp, mutex := None)), i, s.items[i].(cancelReturned0 := true)))
    case _ => None
  }

  /** The next step of the operation under way on loop thread `l`. */
  function OpNext(s: State, l: nat, wake: nat): Option<State>
    requires l < |s.loops|
  {
    var op := s.loops[l].op;
    if op.NoOp? then None
    else if op.PostLock? || op.PostBody? || op.PostUnlock? then PostNext(s, l, wake)
    else if op.CancelLock? || op.CancelLockLoop? || op.CancelTest? || op.CancelUnlockLoop? || op.CancelUnlock? then
      CancelNext(s, l)
    else RequeueNext(s, l)
  }

  /** uv__async_io: empty the pipe, then look at the pending flag. */
  function PollNext(s: State, l: nat): Option<State>
    requires l < |s.loops|
  {
    var ls := s.loops[l];
    match ls.io
    case Idle => if ls.pipe > 0 then Some(SetLoop(s, l, ls.(io := Reading))) else None
    case Reading =>
      // a full buffer asks for another read, a short one or EAGAIN ends the loop
      if ls.pipe >= PIPE_READ then Some(SetLoop(s, l, ls.(pipe := ls.pipe - PIPE_READ)))
      else Some(SetLoop(s, l, ls.(pipe := 0, io := Testing)))
    case Testing =>
      Some(SetLoop(s, l, if ls.pending then ls.(pending := false, io := DoneLock) else ls.(io := Idle)))
    case _ => None
  }

  /** uv__work_done: take over the loop's queue, then call the done callbacks in order. */
  function DoneNext(s: State, l: nat): Option<State>
    requires l < |s.loops|
  {
    var ls := s.loops[l];
    match ls.io
    case DoneLock =>
      if ls.mutex == None then Some(SetLoop(s, l, ls.(io := DoneSplit, mutex := Some(Loop(l))))) else None
    case DoneSplit =>
      Some(SetLoop(s, l, ls.(io := DoneUnlock, queue := [], batch := ls.queue)).(items := Drain(s.items, ls.queue)))
    case DoneUnlock => Some(SetLoop(s, l, ls.(io := Calling, mutex := None)))
    case Calling =>
      if ls.batch == [] then Some(SetLoop(s, l, ls.(io := Idle)))
      else
        var i := ls.batch[0];
        if !Known(s, i) then None else
        var it := s.items[i];
        Some(SetItem(SetLoop(s, l, ls.(batch := ls.batch[1..])), i,
                     it.(place := Finished, done := it.done + [it.work == Cancelled])))
    case _ => None
  }

  /** The next step of the loop thread's own work; while a callback has an operation under
      way, that operation goes first. */
  function IoNext(s: State, l: nat): Option<State>
    requires l < |s.loops|
  {
    if s.loops[l].op != NoOp then None
    else if s.loops[l].io in {Idle, Reading, Testing} then PollNext(s, l)
    else DoneNext(s, l)
  }

  function Drain(items: map<nat, Item>, queue: seq<nat>): map<nat, Item> {
    map i | i in items :: if i in queue then items[i].(place := Drained) else items[i]
  }

  /** Callers may act whenever no operation is under way on the thread: between two turns
      of the loop, in the callbacks of other async handles, and inside a done callback. */
  predicate UserCode(ls: LoopState) {
    ls.op == NoOp && ls.io in {Idle, Testing, Calling}
  }

  function CleanerNext(s: State, wake: nat): Option<State> {
    match s.cleaner
    case NotExiting => None
    case ExitLock => if s.mutex == None then Some(s.(cleaner := ExitBody, mutex := Some(Cleaner))) else None
    case ExitBody =>
      (match Signal(s.workers, wake)
       case None => None
       case Some(ws) => Some(s.(cleaner := ExitUnlock, wq := s.wq + [Exit], workers := ws)))
    case ExitUnlock => Some(s.(cleaner := Joining, mutex := None))
    case Joining => None
  }

  function Next(s: State, e: Event): Option<State> {
    match e
    case WorkerStep(w, wake) => if w < |s.workers| then WorkerNext(s, w, wake) else None
    case SpuriousWake(w) =>
      if w < |s.workers| && s.workers[w] == Waiting then Some(SetWorker(s, w, ToLock)) else None
    case Submit(l, i) =>
      if l < |s.loops| && UserCode(s.loops[l]) && i !in s.items then
        Some(SetItem(SetOp(s, l, PostLock(i)), i, Item(l, Function, false, Entering, false, false, [])))
      else None
    case Cancel(l, i) =>
      if l < |s.loops| && UserCode(s.loops[l]) && Known(s, i) && s.items[i].loop == l && s.items[i].place != Finished then
        Some(SetOp(s, l, CancelLock(i)))
      else None
    case OpStep(l, wake) => if l < |s.loops| then OpNext(s, l, wake) else None
    case IoStep(l) => if l < |s.loops| then IoNext(s, l) else None
    case OtherSend(l) => if l < |s.loops| then Some(SetLoop(s, l, WriteByte(s, s.loops[l]))) else None
    case AtExit => if s.cleaner == NotExiting then Some(s.(cleaner := ExitLock)) else None
    case CleanerStep(wake) => CleanerNext(s, wake)
  }
}
