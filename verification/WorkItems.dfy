/** Where the work items of the thread pool are: the protocol of ThreadPool without its locks
    and wake-ups. An item moves from place to place; nothing else is visible here. */
module WorkItems {
  import opened Options
  import opened ThreadPool

  /** What a worker's position means for the item it carries. */
  datatype WorkerStage = Away | NotRun(i: nat) | HasRun(i: nat) | Sent(i: nat)

  function StageOf(pc: WorkerPc): WorkerStage {
    match pc
    case ToUnlock(i) => NotRun(i)
    case Running(i) => NotRun(i)
    case ToLockLoop(i) => HasRun(i)
    case InLoop(i) => HasRun(i)
    case ToSend(i) => Sent(i)
    case ToWrite(i) => Sent(i)
    case ToUnlockLoop(i) => Sent(i)
    case _ => Away
  }

  /** What a loop thread's position in an operation means for the item. */
  datatype OpStage = NoItem | Enter(i: nat) | Trying(i: nat) | Taken(i: nat) | Marked(i: nat) | Given(i: nat)

  function OpStageOf(op: Op): OpStage {
    match op
    case NoOp => NoItem
    case PostUnlock => NoItem
    case PostLock(i) => Enter(i)
    case PostBody(i) => Enter(i)
    case CancelLock(i) => Trying(i)
    case CancelLockLoop(i) => Trying(i)
    case CancelTest(i) => Trying(i)
    case CancelUnlockLoop(i, hit) => if hit then Taken(i) else Trying(i)
    case CancelUnlock(i, hit) => if hit then Taken(i) else Trying(i)
    case CancelMark(i) => Taken(i)
    case CancelRelock(i) => Marked(i)
    case CancelInsert(i) => Marked(i)
    case CancelSend(i) => Given(i)
    case CancelWrite(i) => Given(i)
    case CancelEnd(i) => Given(i)
  }

  datatype LoopView = LoopView(op: OpStage, queue: seq<nat>, batch: seq<nat>)

  datatype View = View(items: map<nat, Item>, wq: seq<Entry>, workers: seq<WorkerStage>, loops: seq<LoopView>)

  function ViewOfLoop(ls: LoopState): LoopView {
    LoopView(OpStageOf(ls.op), ls.queue, ls.batch)
  }

  function Stages(ws: seq<WorkerPc>): seq<WorkerStage> {
    seq(|ws|, w requires 0 <= w < |ws| => StageOf(ws[w]))
  }

  function LoopViews(loops: seq<LoopState>): seq<LoopView> {
    seq(|loops|, l requires 0 <= l < |loops| => ViewOfLoop(loops[l]))
  }

  lemma StagesUpdate(ws: seq<WorkerPc>, w: nat, pc: WorkerPc)
    requires w < |ws|
    ensures Stages(ws[w := pc]) == Stages(ws)[w := StageOf(pc)]
  {
  }

  lemma LoopViewsUpdate(loops: seq<LoopState>, l: nat, ls: LoopState)
    requires l < |loops|
    ensures LoopViews(loops[l := ls]) == LoopViews(loops)[l := ViewOfLoop(ls)]
  {
  }

  function ViewOf(s: State): View {
    View(s.items, s.wq, Stages(s.workers), LoopViews(s.loops))
  }

  // ---- the invariant on views ----

  predicate Fresh(it: Item) {
    it.work == Function && !it.ran && !it.cancelReturned0 && it.done == []
  }

  /** The item has been decided, one way or the other, and waits for its done callback. */
  predicate Decided(it: Item, op: OpStage, i: nat) {
    && !it.selfLinked && it.done == []
    && if it.work == Cancelled then !it.ran && (it.cancelReturned0 || op == Given(i))
       else it.work == Null && it.ran && !it.cancelReturned0
  }

  predicate Settled(it: Item) {
    if it.work == Cancelled then !it.ran && it.cancelReturned0 && it.done == [true]
    else it.work == Null && it.ran && !it.cancelReturned0 && it.done == [false]
  }

  /** Where an item is, and what its fields say there. */
  predicate ItemOk(v: View, i: nat)
    requires i in v.items
  {
    var it := v.items[i];
    && it.loop < |v.loops|
    && var ls := v.loops[it.loop];
       match it.place
       case Entering => ls.op == Enter(i) && Fresh(it)
       case Global => Request(i) in v.wq && Fresh(it) && !it.selfLinked
       case Executing(w) =>
         && w < |v.workers| && v.workers[w] == (if it.ran then HasRun(i) else NotRun(i))
         && it.selfLinked && it.work == Function && !it.cancelReturned0 && it.done == []
       case Cancelling =>
         && ls.op in {Taken(i), Marked(i)}
         && !it.ran && !it.selfLinked && it.done == [] && it.work != Null
         && (ls.op == Marked(i) || it.cancelReturned0 ==> it.work == Cancelled)
       case Queued => i in ls.queue && Decided(it, ls.op, i)
       case Drained => i in ls.batch && Decided(it, ls.op, i)
       case Finished => Settled(it)
  }

  ghost predicate Items(v: View) {
    forall i :: i in v.items ==> ItemOk(v, i)
  }

  /** The queues hold what the places say, each item once. */
  ghost predicate LoopQueues(v: View, l: nat)
    requires l < |v.loops|
  {
    var ls := v.loops[l];
    && Distinct(ls.queue) && Distinct(ls.batch)
    && (forall i :: i in ls.queue ==> i in v.items && v.items[i].loop == l && v.items[i].place == Queued)
    && (forall i :: i in ls.batch ==> i in v.items && v.items[i].loop == l && v.items[i].place == Drained)
  }

  ghost predicate Queues(v: View) {
    && Distinct(v.wq)
    && (forall i :: Request(i) in v.wq ==> i in v.items && v.items[i].place == Global)
    && (forall l :: 0 <= l < |v.loops| ==> LoopQueues(v, l))
  }

  /** Whoever works on an item finds it in the right place. */
  predicate WorkerOk(v: View, w: nat)
    requires w < |v.workers|
  {
    match v.workers[w]
    case Away => true
    case NotRun(i) => i in v.items && v.items[i].place == Executing(w)
    case HasRun(i) => i in v.items && v.items[i].place == Executing(w)
    case Sent(i) => i in v.items
  }

  predicate OpOk(v: View, l: nat)
    requires l < |v.loops|
  {
    match v.loops[l].op
    case NoItem => true
    case Enter(i) => Belongs(v, l, i) && v.items[i].place == Entering
    case Trying(i) => Belongs(v, l, i) && v.items[i].place !in {Entering, Cancelling, Finished}
    case Taken(i) => Belongs(v, l, i) && v.items[i].place == Cancelling
    case Marked(i) => Belongs(v, l, i) && v.items[i].place == Cancelling
    case Given(i) => Belongs(v, l, i) && v.items[i].place == Queued && v.items[i].work == Cancelled
  }

  predicate Belongs(v: View, l: nat, i: nat) {
    i in v.items && v.items[i].loop == l
  }

  ghost predicate Carriers(v: View) {
    && (forall w :: 0 <= w < |v.workers| ==> WorkerOk(v, w))
    && (forall l :: 0 <= l < |v.loops| ==> OpOk(v, l))
  }

  ghost predicate Inv(v: View) {
    Items(v) && Queues(v) && Carriers(v)
  }

  // ---- the moves of an item ----

  function SetItem(v: View, i: nat, it: Item): View {
    v.(items := v.items[i := it])
  }

  function SetOp(v: View, l: nat, op: OpStage): View
    requires l < |v.loops|
  {
    v.(loops := v.loops[l := v.loops[l].(op := op)])
  }

  function SetWorker(v: View, w: nat, st: WorkerStage): View
    requires w < |v.workers|
  {
    v.(workers := v.workers[w := st])
  }

  /** `i` goes to the tail of its loop's queue. */
  function Enqueue(v: View, i: nat, work: Work): View
    requires i in v.items && v.items[i].loop < |v.loops|
  {
    var it := v.items[i];
    var ls := v.loops[it.loop];
    SetItem(v, i, it.(work := work, selfLinked := false, place := Queued))
    .(loops := v.loops[it.loop := ls.(queue := ls.queue + [i])])
  }

  /** The test in uv__work_cancel. */
  predicate Cancellable(v: View, i: nat) {
    i in v.items && !v.items[i].selfLinked && v.items[i].work != Null
  }

  lemma {:induction false} WithoutKeeps<T(!new)>(s: seq<T>, x: T)
    ensures forall y :: y in Without(s, x) <==> y in s && y != x
    ensures Distinct(s) ==> Distinct(Without(s, x))
  {
    if s != [] {
      WithoutKeeps(s[1..], x);
      if Distinct(s) {
        assert forall i :: 0 <= i < |s[1..]| ==> s[1..][i] == s[i + 1];
        assert s[0] !in s[1..];
      }
    }
  }

  /** A worker takes the head of the global queue. */
  function Take(v: View, w: nat): View
    requires w < |v.workers| && v.wq != [] && v.wq[0].Request? && v.wq[0].i in v.items
  {
    var i := v.wq[0].i;
    SetItem(SetWorker(v, w, NotRun(i)), i, v.items[i].(selfLinked := true, place := Executing(w))).(wq := v.wq[1..])
  }

  lemma TakeKeeps(v: View, w: nat)
    requires Inv(v) && w < |v.workers| && v.workers[w] == Away && v.wq != [] && v.wq[0].Request?
    ensures v.wq != [] && v.wq[0].Request? && v.wq[0].i in v.items && Inv(Take(v, w))
  {
    assert Request(v.wq[0].i) in v.wq;
    var v' := Take(v, w);
    forall j | j in v'.items ensures ItemOk(v', j) {
      assert j in v.items ==> ItemOk(v, j);
    }
    forall l | 0 <= l < |v'.loops| ensures LoopQueues(v', l) && OpOk(v', l) {
      assert LoopQueues(v, l) && OpOk(v, l);
    }
    forall x | 0 <= x < |v'.workers| ensures WorkerOk(v', x) {
      assert WorkerOk(v, x);
    }
  }

  /** A worker calls the work function. */
  function Execute(v: View, w: nat): View
    requires w < |v.workers| && v.workers[w].NotRun? && v.workers[w].i in v.items
  {
    var i := v.workers[w].i;
    SetItem(SetWorker(v, w, HasRun(i)), i, v.items[i].(ran := true))
  }

  lemma ExecuteKeeps(v: View, w: nat)
    requires Inv(v) && w < |v.workers| && v.workers[w].NotRun?
    ensures v.workers[w].NotRun? && v.workers[w].i in v.items && Inv(Execute(v, w))
  {
    assert WorkerOk(v, w);
    var v' := Execute(v, w);
    forall j | j in v'.items ensures ItemOk(v', j) {
      assert j in v.items ==> ItemOk(v, j);
    }
    forall l | 0 <= l < |v'.loops| ensures LoopQueues(v', l) && OpOk(v', l) {
      assert LoopQueues(v, l) && OpOk(v, l);
    }
    forall x | 0 <= x < |v'.workers| ensures WorkerOk(v', x) {
      assert WorkerOk(v, x);
    }
  }

  /** A worker hands the item over to its loop. */
  function Hand(v: View, w: nat): View
    requires w < |v.workers| && v.workers[w].HasRun? && v.workers[w].i in v.items && v.items[v.workers[w].i].loop < |v.loops|
  {
    var i := v.workers[w].i;
    Enqueue(SetWorker(v, w, Sent(i)), i, Null)
  }

  lemma HandKeeps(v: View, w: nat)
    requires Inv(v) && w < |v.workers| && v.workers[w].HasRun?
    ensures v.workers[w].HasRun? && v.workers[w].i in v.items && v.items[v.workers[w].i].loop < |v.loops| && Inv(Hand(v, w))
  {
    assert WorkerOk(v, w) && ItemOk(v, v.workers[w].i);
    var v' := Hand(v, w);
    forall j | j in v'.items ensures ItemOk(v', j) {
      assert j in v.items ==> ItemOk(v, j);
    }
    forall l | 0 <= l < |v'.loops| ensures LoopQueues(v', l) && OpOk(v', l) {
      assert LoopQueues(v, l) && OpOk(v, l);
    }
    forall x | 0 <= x < |v'.workers| ensures WorkerOk(v', x) {
      assert WorkerOk(v, x);
    }
  }

  /** A worker is done with an item. */
  function Depart(v: View, w: nat): View
    requires w < |v.workers| && v.workers[w].Sent?
  {
    SetWorker(v, w, Away)
  }

  lemma DepartKeeps(v: View, w: nat)
    requires Inv(v) && w < |v.workers| && v.workers[w].Sent?
    ensures v.workers[w].Sent? && Inv(Depart(v, w))
  {
    var v' := Depart(v, w);
    forall j | j in v'.items ensures ItemOk(v', j) {
      assert j in v.items ==> ItemOk(v, j);
    }
    forall l | 0 <= l < |v'.loops| ensures LoopQueues(v', l) && OpOk(v', l) {
      assert LoopQueues(v, l) && OpOk(v, l);
    }
    forall x | 0 <= x < |v'.workers| ensures WorkerOk(v', x) {
      assert WorkerOk(v, x);
    }
  }

  /** The item enters the global queue. */
  function Post(v: View, l: nat): View
    requires l < |v.loops| && v.loops[l].op.Enter? && v.loops[l].op.i in v.items
  {
    var i := v.loops[l].op.i;
    SetItem(SetOp(v, l, NoItem), i, v.items[i].(selfLinked := false, place := Global)).(wq := v.wq + [Request(i)])
  }

  lemma PostKeeps(v: View, l: nat)
    requires Inv(v) && l < |v.loops| && v.loops[l].op.Enter?
    ensures v.loops[l].op.Enter? && v.loops[l].op.i in v.items && Inv(Post(v, l))
  {
    assert OpOk(v, l);
    var v' := Post(v, l);
    forall j | j in v'.items ensures ItemOk(v', j) {
      assert j in v.items ==> ItemOk(v, j);
    }
    forall k | 0 <= k < |v'.loops| ensures LoopQueues(v', k) && OpOk(v', k) {
      assert LoopQueues(v, k) && OpOk(v, k);
    }
    forall x | 0 <= x < |v'.workers| ensures WorkerOk(v', x) {
      assert WorkerOk(v, x);
    }
  }

  /** A cancel comes too late. */
  function Miss(v: View, l: nat): View
    requires l < |v.loops| && v.loops[l].op.Trying?
  {
    SetOp(v, l, NoItem)
  }

  lemma MissKeeps(v: View, l: nat)
    requires Inv(v) && l < |v.loops| && v.loops[l].op.Trying?
    ensures v.loops[l].op.Trying? && Inv(Miss(v, l))
  {
    var v' := Miss(v, l);
    forall j | j in v'.items ensures ItemOk(v', j) {
      assert j in v.items ==> ItemOk(v, j);
    }
    forall k | 0 <= k < |v'.loops| ensures LoopQueues(v', k) && OpOk(v', k) {
      assert LoopQueues(v, k) && OpOk(v, k);
    }
    forall x | 0 <= x < |v'.workers| ensures WorkerOk(v', x) {
      assert WorkerOk(v, x);
    }
  }

  /** The item is marked as cancelled. */
  function Mark(v: View, l: nat): View
    requires l < |v.loops| && v.loops[l].op.Taken? && v.loops[l].op.i in v.items
  {
    var i := v.loops[l].op.i;
    SetItem(SetOp(v, l, Marked(i)), i, v.items[i].(work := Cancelled))
  }

  lemma MarkKeeps(v: View, l: nat)
    requires Inv(v) && l < |v.loops| && v.loops[l].op.Taken?
    ensures v.loops[l].op.Taken? && v.loops[l].op.i in v.items && Inv(Mark(v, l))
  {
    assert OpOk(v, l);
    var v' := Mark(v, l);
    forall j | j in v'.items ensures ItemOk(v', j) {
      assert j in v.items ==> ItemOk(v, j);
    }
    forall k | 0 <= k < |v'.loops| ensures LoopQueues(v', k) && OpOk(v', k) {
      assert LoopQueues(v, k) && OpOk(v, k);
    }
    forall x | 0 <= x < |v'.workers| ensures WorkerOk(v', x) {
      assert WorkerOk(v, x);
    }
  }

  /** The cancelled item goes to the loop queue. */
  function Give(v: View, l: nat): View
    requires l < |v.loops| && v.loops[l].op.Marked? && v.loops[l].op.i in v.items && v.items[v.loops[l].op.i].loop == l
  {
    var i := v.loops[l].op.i;
    Enqueue(SetOp(v, l, Given(i)), i, v.items[i].work)
  }

  lemma GiveKeeps(v: View, l: nat)
    requires Inv(v) && l < |v.loops| && v.loops[l].op.Marked?
    ensures v.loops[l].op.Marked? && v.loops[l].op.i in v.items && v.items[v.loops[l].op.i].loop == l && Inv(Give(v, l))
  {
    assert OpOk(v, l) && ItemOk(v, v.loops[l].op.i);
    var v' := Give(v, l);
    forall j | j in v'.items ensures ItemOk(v', j) {
      assert j in v.items ==> ItemOk(v, j);
    }
    forall k | 0 <= k < |v'.loops| ensures LoopQueues(v', k) && OpOk(v', k) {
      assert LoopQueues(v, k) && OpOk(v, k);
    }
    forall x | 0 <= x < |v'.workers| ensures WorkerOk(v', x) {
      assert WorkerOk(v, x);
    }
  }

  /** uv_cancel returns 0. */
  function Return0(v: View, l: nat): View
    requires l < |v.loops| && v.loops[l].op.Given? && v.loops[l].op.i in v.items
  {
    var i := v.loops[l].op.i;
    SetItem(SetOp(v, l, NoItem), i, v.items[i].(cancelReturned0 := true))
  }

  lemma Return0Keeps(v: View, l: nat)
    requires Inv(v) && l < |v.loops| && v.loops[l].op.Given?
    ensures v.loops[l].op.Given? && v.loops[l].op.i in v.items && Inv(Return0(v, l))
  {
    assert OpOk(v, l);
    var v' := Return0(v, l);
    forall j | j in v'.items ensures ItemOk(v', j) {
      assert j in v.items ==> ItemOk(v, j);
    }
    forall k | 0 <= k < |v'.loops| ensures LoopQueues(v', k) && OpOk(v', k) {
      assert LoopQueues(v, k) && OpOk(v, k);
    }
    forall x | 0 <= x < |v'.workers| ensures WorkerOk(v', x) {
      assert WorkerOk(v, x);
    }
  }

  /** A cancel takes the item out of the queue it is in. */
  function Hit(v: View, l: nat): View
    requires l < |v.loops| && v.loops[l].op.Trying? && v.loops[l].op.i in v.items
  {
    var i, ls := v.loops[l].op.i, v.loops[l];
    SetItem(v, i, v.items[i].(place := Cancelling))
    .(wq := Without(v.wq, Request(i)),
      loops := v.loops[l := LoopView(Taken(i), Without(ls.queue, i), Without(ls.batch, i))])
  }

  lemma HitMembers(v: View, l: nat)
    requires Inv(v) && l < |v.loops| && v.loops[l].op.Trying? && v.loops[l].op.i in v.items
    ensures var i := v.loops[l].op.i;
      && (Distinct(v.wq) ==> Distinct(Without(v.wq, Request(i))))
      && (forall e :: e in Without(v.wq, Request(i)) <==> e in v.wq && e != Request(i))
      && Distinct(Without(v.loops[l].queue, i)) && Distinct(Without(v.loops[l].batch, i))
      && (forall j :: j in Without(v.loops[l].queue, i) <==> j in v.loops[l].queue && j != i)
      && (forall j :: j in Without(v.loops[l].batch, i) <==> j in v.loops[l].batch && j != i)
  {
    assert LoopQueues(v, l);
    WithoutKeeps(v.wq, Request(v.loops[l].op.i));
    WithoutKeeps(v.loops[l].queue, v.loops[l].op.i);
    WithoutKeeps(v.loops[l].batch, v.loops[l].op.i);
  }

  lemma HitItems(v: View, l: nat)
    requires Inv(v) && l < |v.loops| && v.loops[l].op.Trying? && Cancellable(v, v.loops[l].op.i)
    ensures Items(Hit(v, l))
  {
    hide Distinct, Without;
    assert OpOk(v, l) && ItemOk(v, v.loops[l].op.i);
    HitMembers(v, l);
    var v' := Hit(v, l);
    forall j | j in v'.items ensures ItemOk(v', j) {
      assert j in v.items ==> ItemOk(v, j);
    }
  }

  lemma HitQueues(v: View, l: nat)
    requires Inv(v) && l < |v.loops| && v.loops[l].op.Trying? && Cancellable(v, v.loops[l].op.i)
    ensures Queues(Hit(v, l))
  {
    hide Distinct, Without;
    assert OpOk(v, l) && ItemOk(v, v.loops[l].op.i);
    HitMembers(v, l);
    var v' := Hit(v, l);
    forall k | 0 <= k < |v'.loops| ensures LoopQueues(v', k) {
      assert LoopQueues(v, k);
    }
  }

  lemma HitCarriers(v: View, l: nat)
    requires Inv(v) && l < |v.loops| && v.loops[l].op.Trying? && Cancellable(v, v.loops[l].op.i)
    ensures Carriers(Hit(v, l))
  {
    hide Distinct, Without;
    assert OpOk(v, l) && ItemOk(v, v.loops[l].op.i);
    var v' := Hit(v, l);
    forall k | 0 <= k < |v'.loops| ensures OpOk(v', k) {
      assert OpOk(v, k);
    }
    forall x | 0 <= x < |v'.workers| ensures WorkerOk(v', x) {
      assert WorkerOk(v, x);
    }
  }

  lemma HitKeeps(v: View, l: nat)
    requires Inv(v) && l < |v.loops| && v.loops[l].op.Trying? && Cancellable(v, v.loops[l].op.i)
    ensures v.loops[l].op.Trying? && v.loops[l].op.i in v.items && Inv(Hit(v, l))
  {
    HitItems(v, l);
    HitQueues(v, l);
    HitCarriers(v, l);
  }

  /** The loop takes over its whole queue. */
  function Split(v: View, l: nat): View
    requires l < |v.loops|
  {
    v.(loops := v.loops[l := v.loops[l].(queue := [], batch := v.loops[l].queue)],
       items := Drain(v.items, v.loops[l].queue))
  }

  lemma SplitKeeps(v: View, l: nat)
    requires Inv(v) && l < |v.loops| && v.loops[l].op == NoItem && v.loops[l].batch == []
    ensures Inv(Split(v, l))
  {
    assert LoopQueues(v, l);
    var v' := Split(v, l);
    forall j | j in v'.items ensures ItemOk(v', j) {
      assert j in v.items ==> ItemOk(v, j);
    }
    forall k | 0 <= k < |v'.loops| ensures LoopQueues(v', k) && OpOk(v', k) {
      assert LoopQueues(v, k) && OpOk(v, k);
    }
    forall x | 0 <= x < |v'.workers| ensures WorkerOk(v', x) {
      assert WorkerOk(v, x);
    }
  }

  /** The done callback of the first item in the batch is called. */
  function Call(v: View, l: nat): View
    requires l < |v.loops| && v.loops[l].batch != [] && v.loops[l].batch[0] in v.items
  {
    var i := v.loops[l].batch[0];
    SetItem(v, i, v.items[i].(place := Finished, done := v.items[i].done + [v.items[i].work == Cancelled]))
    .(loops := v.loops[l := v.loops[l].(batch := v.loops[l].batch[1..])])
  }

  lemma CallKeeps(v: View, l: nat)
    requires Inv(v) && l < |v.loops| && v.loops[l].op == NoItem && v.loops[l].batch != []
    ensures v.loops[l].batch != [] && v.loops[l].batch[0] in v.items && Inv(Call(v, l))
  {
    assert LoopQueues(v, l) && v.loops[l].batch[0] in v.loops[l].batch && ItemOk(v, v.loops[l].batch[0]);
    var v' := Call(v, l);
    forall j | j in v'.items ensures ItemOk(v', j) {
      assert j in v.items ==> ItemOk(v, j);
    }
    forall k | 0 <= k < |v'.loops| ensures LoopQueues(v', k) && OpOk(v', k) {
      assert LoopQueues(v, k) && OpOk(v, k);
    }
    forall x | 0 <= x < |v'.workers| ensures WorkerOk(v', x) {
      assert WorkerOk(v, x);
    }
  }

  /** A caller submits a new item. */
  function Begin(v: View, l: nat, i: nat): View
    requires l < |v.loops|
  {
    SetItem(SetOp(v, l, Enter(i)), i, Item(l, Function, false, Entering, false, false, []))
  }

  lemma BeginKeeps(v: View, l: nat, i: nat)
    requires Inv(v) && l < |v.loops| && v.loops[l].op == NoItem && i !in v.items
    ensures Inv(Begin(v, l, i))
  {
    var v' := Begin(v, l, i);
    forall j | j in v'.items ensures ItemOk(v', j) {
      assert j in v.items ==> ItemOk(v, j);
    }
    forall k | 0 <= k < |v'.loops| ensures LoopQueues(v', k) && OpOk(v', k) {
      assert LoopQueues(v, k) && OpOk(v, k);
    }
    forall x | 0 <= x < |v'.workers| ensures WorkerOk(v', x) {
      assert WorkerOk(v, x);
    }
  }

  /** A caller asks for an item to be cancelled. */
  function Try(v: View, l: nat, i: nat): View
    requires l < |v.loops|
  {
    SetOp(v, l, Trying(i))
  }

  lemma TryKeeps(v: View, l: nat, i: nat)
    requires Inv(v) && l < |v.loops| && v.loops[l].op == NoItem
    requires Belongs(v, l, i) && v.items[i].place != Finished
    ensures Inv(Try(v, l, i))
  {
    var v' := Try(v, l, i);
    assert ItemOk(v, i);
    forall j | j in v'.items ensures ItemOk(v', j) {
      assert j in v.items ==> ItemOk(v, j);
    }
    forall k | 0 <= k < |v'.loops| ensures LoopQueues(v', k) && OpOk(v', k) {
      assert LoopQueues(v, k) && OpOk(v, k);
    }
    forall x | 0 <= x < |v'.workers| ensures WorkerOk(v', x) {
      assert WorkerOk(v, x);
    }
  }

  /** The exit message enters the global queue. */
  lemma StopKeeps(v: View)
    requires Inv(v) && Exit !in v.wq
    ensures Inv(v.(wq := v.wq + [Exit]))
  {
    var v' := v.(wq := v.wq + [Exit]);
    forall j | j in v'.items ensures ItemOk(v', j) {
      assert j in v.items ==> ItemOk(v, j);
    }
    forall k | 0 <= k < |v'.loops| ensures LoopQueues(v', k) && OpOk(v', k) {
      assert LoopQueues(v, k) && OpOk(v, k);
    }
    forall x | 0 <= x < |v'.workers| ensures WorkerOk(v', x) {
      assert WorkerOk(v, x);
    }
  }
}
