/** First come, first served: workers begin the requests in the order in which they were posted, and a
    loop calls the done callbacks in the order in which the items came to its queue. */
module PoolOrder {
  import opened Options
  import opened ThreadPool
  import opened PoolSafety
  import opened PoolWakeups
  import opened PoolRuns
  import opened PoolCompletion
  import V = WorkItems

  // ---- order in a sequence ----

  ghost predicate Precedes<T>(q: seq<T>, x: T, y: T) {
    exists a, b :: 0 <= a < b < |q| && q[a] == x && q[b] == y
  }

  lemma PrecedesIn<T>(q: seq<T>, x: T, y: T)
    requires Precedes(q, x, y)
    ensures x in q && y in q
  {
  }

  lemma PrecedesLonger<T>(q: seq<T>, z: T, x: T, y: T)
    ensures Precedes(q, x, y) ==> Precedes(q + [z], x, y)
    ensures x in q ==> Precedes(q + [z], x, z)
  {
    if Precedes(q, x, y) {
      var a, b :| 0 <= a < b < |q| && q[a] == x && q[b] == y;
      assert (q + [z])[a] == x && (q + [z])[b] == y;
    }
    if x in q {
      var a :| 0 <= a < |q| && q[a] == x;
      assert (q + [z])[a] == x && (q + [z])[|q|] == z;
    }
  }

  lemma PrecedesShorter<T>(q: seq<T>, x: T, y: T)
    requires Precedes(q, x, y) && Distinct(q) && q[0] != x
    ensures q[0] != y && Precedes(q[1..], x, y)
  {
    var a, b :| 0 <= a < b < |q| && q[a] == x && q[b] == y;
    assert q[1..][a - 1] == x && q[1..][b - 1] == y;
  }

  lemma {:induction false} WithoutSplits<T>(a: seq<T>, b: seq<T>, z: T)
    ensures Without(a + b, z) == Without(a, z) + Without(b, z)
  {
    if a == [] {
      assert a + b == b;
    } else {
      assert (a + b)[1..] == a[1..] + b;
      WithoutSplits(a[1..], b, z);
    }
  }

  lemma {:induction false} PrecedesWithout<T(!new)>(q: seq<T>, z: T, x: T, y: T)
    requires Precedes(q, x, y) && z != x && z != y
    ensures Precedes(Without(q, z), x, y)
  {
    var a, b :| 0 <= a < b < |q| && q[a] == x && q[b] == y;
    var before, after := q[..b], q[b..];
    assert q == before + after && before[a] == x && after[0] == y;
    WithoutSplits(before, after, z);
    V.WithoutKeeps(before, z);
    V.WithoutKeeps(after, z);
    assert x in before && y in after;
    assert x in Without(before, z) && y in Without(after, z);
    var c :| 0 <= c < |Without(before, z)| && Without(before, z)[c] == x;
    var d :| 0 <= d < |Without(after, z)| && Without(after, z)[d] == y;
    assert Without(q, z)[c] == x && Without(q, z)[|Without(before, z)| + d] == y;
  }

  // ---- done callbacks ----

  /** The items that wait for their done callbacks on a loop: those it has taken over come first. */
  function Line(s: State, l: nat): seq<nat>
    requires l < |s.loops|
  {
    s.loops[l].batch + s.loops[l].queue
  }

  /** `i` has its done callback before `j`: it had it already, is ahead in the line, or `j` has left the line. */
  ghost predicate Ahead(s: State, l: nat, i: nat, j: nat) {
    && l < |s.loops| && i in s.items && j in s.items && i != j && s.items[i].loop == l == s.items[j].loop
    && (|| s.items[i].place == Finished
        || Precedes(Line(s, l), i, j)
        || (i in Line(s, l) && j !in Line(s, l) && s.items[j].place != Finished))
  }

  predicate Cancels(op: Op, i: nat) {
    !op.NoOp? && !op.PostLock? && !op.PostBody? && !op.PostUnlock? && op.i == i
  }

  /** In the line there are no others than the places say, and nobody twice. */
  lemma LineOk(s: State, l: nat)
    requires Inv(s) && l < |s.loops|
    ensures Distinct(Line(s, l))
    ensures forall k :: k in Line(s, l) <==> k in s.items && s.items[k].loop == l && s.items[k].place in {Queued, Drained}
  {
    hide Locks, Awake, Held;
    var v, q := V.ViewOf(s), Line(s, l);
    assert v.loops[l] == V.ViewOfLoop(s.loops[l]) && V.LoopQueues(v, l);
    forall a, b | 0 <= a < b < |q| ensures q[a] != q[b] {
      if a < |s.loops[l].batch| <= b {
        assert q[a] in s.loops[l].batch && q[b] in s.loops[l].queue;
      }
    }
    forall k | k in s.items && s.items[k].loop == l && s.items[k].place in {Queued, Drained} ensures k in q {
      assert V.ItemOk(v, k);
    }
  }

  /** Nothing that matters here has changed. */
  predicate SameLine(s: State, t: State, l: nat) {
    && |t.loops| == |s.loops| && l < |s.loops| && Line(t, l) == Line(s, l)
    && forall k | k in s.items ::
         k in t.items && t.items[k].loop == s.items[k].loop && (t.items[k].place == Finished <==> s.items[k].place == Finished)
  }

  lemma SameAhead(s: State, t: State, l: nat, i: nat, j: nat)
    requires Ahead(s, l, i, j) && SameLine(s, t, l)
    ensures Ahead(t, l, i, j)
  {
  }

  /** Somebody joins the line at its end. */
  lemma JoinAhead(s: State, t: State, l: nat, i: nat, j: nat, k: nat)
    requires Ahead(s, l, i, j) && l < |t.loops| && Line(t, l) == Line(s, l) + [k]
    requires forall h | h in s.items ::
      h in t.items && t.items[h].loop == s.items[h].loop && (t.items[h].place == Finished <==> s.items[h].place == Finished)
    ensures Ahead(t, l, i, j)
  {
    PrecedesLonger(Line(s, l), k, i, j);
  }

  lemma TakeAhead(s: State, w: nat, wake: nat, l: nat, i: nat, j: nat)
    requires Inv(s) && Ahead(s, l, i, j) && w < |s.workers| && TakeNext(s, w, wake).Some?
    ensures Ahead(TakeNext(s, w, wake).value, l, i, j)
  {
    var t := TakeNext(s, w, wake).value;
    if s.workers[w] == Holding && s.wq != [] && s.wq[0].Request? {
      assert Request(s.wq[0].i) in s.wq;
    }
    hide Ahead, Awake, Held, Locks;
    assert t.loops == s.loops;
    SameAhead(s, t, l, i, j);
  }

  lemma DeliverAhead(s: State, w: nat, l: nat, i: nat, j: nat)
    requires Inv(s) && Ahead(s, l, i, j) && w < |s.workers| && DeliverNext(s, w).Some?
    ensures Ahead(DeliverNext(s, w).value, l, i, j)
  {
    var t, k := DeliverNext(s, w).value, s.workers[w].i;
    var v := V.ViewOf(s);
    assert v.workers[w] == V.StageOf(s.workers[w]) && V.WorkerOk(v, w) && V.ItemOk(v, k);
    hide Awake, Held, Locks, V.Inv;
    if s.workers[w].InLoop? && l == s.items[k].loop {
      assert t.loops[l].batch == s.loops[l].batch && t.loops[l].queue == s.loops[l].queue + [k];
      assert Line(t, l) == Line(s, l) + [k];
      JoinAhead(s, t, l, i, j, k);
    } else {
      SameAhead(s, t, l, i, j);
    }
  }

  lemma PostAhead(s: State, m: nat, wake: nat, l: nat, i: nat, j: nat)
    requires Inv(s) && Ahead(s, l, i, j) && m < |s.loops| && PostNext(s, m, wake).Some?
    ensures Ahead(PostNext(s, m, wake).value, l, i, j)
  {
    var t := PostNext(s, m, wake).value;
    var v := V.ViewOf(s);
    assert v.loops[m] == V.ViewOfLoop(s.loops[m]) && V.OpOk(v, m);
    hide Awake, Held, Locks, V.Inv, Ahead;
    assert Ahead(s, l, i, j);
    if l < |s.loops| { SameAhead(s, t, l, i, j); }
  }

  /** Somebody other than `i` leaves the line to be cancelled. */
  lemma LeaveAhead(s: State, t: State, l: nat, i: nat, j: nat, k: nat)
    requires Ahead(s, l, i, j) && l < |t.loops| && k != i && k in t.items && t.items[k].place == Cancelling
    requires t.loops[l].batch == Without(s.loops[l].batch, k) && t.loops[l].queue == Without(s.loops[l].queue, k)
    requires forall h | h in s.items ::
      h in t.items && t.items[h].loop == s.items[h].loop && (h != k ==> t.items[h].place == s.items[h].place)
    ensures Ahead(t, l, i, j)
  {
    WithoutSplits(s.loops[l].batch, s.loops[l].queue, k);
    V.WithoutKeeps(Line(s, l), k);
    if s.items[i].place != Finished && Precedes(Line(s, l), i, j) {
      PrecedesIn(Line(s, l), i, j);
      if k != j { PrecedesWithout(Line(s, l), k, i, j); }
    }
  }

  lemma CancelAhead(s: State, m: nat, l: nat, i: nat, j: nat)
    requires Inv(s) && Ahead(s, l, i, j) && m < |s.loops| && CancelNext(s, m).Some? && !Cancels(s.loops[l].op, i)
    ensures Ahead(CancelNext(s, m).value, l, i, j)
  {
    var t := CancelNext(s, m).value;
    var v, k := V.ViewOf(s), s.loops[m].op.i;
    assert v.loops[m] == V.ViewOfLoop(s.loops[m]) && V.OpOk(v, m);
    hide Awake, Held, Locks, V.Inv;
    if s.loops[m].op.CancelTest? && m == l && k in t.items && t.items[k].place == Cancelling {
      LeaveAhead(s, t, l, i, j, k);
    } else {
      SameAhead(s, t, l, i, j);
    }
  }

  lemma RequeueAhead(s: State, m: nat, l: nat, i: nat, j: nat)
    requires Inv(s) && Ahead(s, l, i, j) && m < |s.loops| && RequeueNext(s, m).Some?
    ensures Ahead(RequeueNext(s, m).value, l, i, j)
  {
    hide Precedes, V.Items;
    var t, k := RequeueNext(s, m).value, s.loops[m].op.i;
    var v := V.ViewOf(s);
    assert v.loops[m] == V.ViewOfLoop(s.loops[m]) && V.OpOk(v, m);
    hide Awake, Held, Locks, V.Inv;
    if s.loops[m].op.CancelInsert? && m == l {
      assert t.loops[l].batch == s.loops[l].batch && t.loops[l].queue == s.loops[l].queue + [k];
      assert Line(t, l) == Line(s, l) + [k];
      JoinAhead(s, t, l, i, j, k);
    } else {
      SameAhead(s, t, l, i, j);
    }
  }

  /** The first of the line has its callback. */
  lemma CalledAhead(s: State, t: State, l: nat, i: nat, j: nat)
    requires Ahead(s, l, i, j) && l < |t.loops| && Line(s, l) != [] && Line(t, l) == Line(s, l)[1..] && Distinct(Line(s, l))
    requires Line(s, l)[0] in t.items && t.items[Line(s, l)[0]].place == Finished
    requires forall h | h in s.items ::
      h in t.items && t.items[h].loop == s.items[h].loop && (h != Line(s, l)[0] ==> t.items[h].place == s.items[h].place)
    ensures Ahead(t, l, i, j)
  {
    var q := Line(s, l);
    if s.items[i].place != Finished && q[0] != i {
      if Precedes(q, i, j) {
        PrecedesShorter(q, i, j);
      } else {
        assert i in q[1..] && q[0] in q;
      }
    }
  }

  lemma SplitAhead(s: State, m: nat, l: nat, i: nat, j: nat)
    requires Inv(s) && Ahead(s, l, i, j) && m < |s.loops| && DoneNext(s, m).Some?
    requires s.loops[m].op == NoOp && (s.loops[m].io != Calling || s.loops[m].batch == [])
    ensures Ahead(DoneNext(s, m).value, l, i, j)
  {
    var t, ls := DoneNext(s, m).value, s.loops[m];
    assert IoOk(ls);
    LineOk(s, m);
    hide Awake, Held, Locks, V.Inv, Precedes, Distinct;
    assert Line(t, l) == Line(s, l);
    SameAhead(s, t, l, i, j);
  }

  lemma DoneAhead(s: State, m: nat, l: nat, i: nat, j: nat)
    requires Inv(s) && Ahead(s, l, i, j) && m < |s.loops| && s.loops[m].op == NoOp && DoneNext(s, m).Some?
    ensures Ahead(DoneNext(s, m).value, l, i, j)
  {
    LineOk(s, m);
    hide Inv, Ahead, DoneNext;
    if s.loops[m].io != Calling || s.loops[m].batch == [] {
      SplitAhead(s, m, l, i, j);
    } else {
      CallAhead(s, m, l, i, j);
    }
  }

  lemma CallAhead(s: State, m: nat, l: nat, i: nat, j: nat)
    requires Inv(s) && Ahead(s, l, i, j) && m < |s.loops| && s.loops[m].op == NoOp && DoneNext(s, m).Some?
    requires s.loops[m].io == Calling && s.loops[m].batch != [] && Distinct(Line(s, m))
    requires forall k | k in Line(s, m) :: k in s.items && s.items[k].loop == m
    ensures Ahead(DoneNext(s, m).value, l, i, j)
  {
    hide Inv, Precedes, Distinct, Drain;
    var t, ls := DoneNext(s, m).value, s.loops[m];
    assert ls.batch[0] in Line(s, m);
    if m == l {
      assert Line(s, l)[0] == ls.batch[0] && Line(t, l) == Line(s, l)[1..];
      CalledAhead(s, t, l, i, j);
    } else {
      OtherCall(s, t, m, l, i, j);
    }
  }

  /** A done callback on another loop. */
  lemma OtherCall(s: State, t: State, m: nat, l: nat, i: nat, j: nat)
    requires Inv(s) && Ahead(s, l, i, j) && m < |s.loops| && m != l && l < |t.loops| && t.loops[l] == s.loops[l]
    requires s.loops[m].batch != [] && s.items.Keys == t.items.Keys
    requires forall h | h in s.items ::
      t.items[h].loop == s.items[h].loop && (h != s.loops[m].batch[0] ==> t.items[h].place == s.items[h].place)
    requires s.loops[m].batch[0] in s.items && s.items[s.loops[m].batch[0]].loop == m
    requires t.items[s.loops[m].batch[0]].place == Finished
    ensures Ahead(t, l, i, j)
  {
  }

  lemma StepAhead(s: State, e: Event, l: nat, i: nat, j: nat)
    requires Inv(s) && Ahead(s, l, i, j) && Next(s, e).Some? && !Cancels(s.loops[l].op, i)
    ensures Ahead(Next(s, e).value, l, i, j)
  {
    hide Ahead, Inv, Cancels, TakeNext, DeliverNext, PostNext, CancelNext, RequeueNext, DoneNext;
    match e
    case WorkerStep(w, wake) =>
      if Delivering(s.workers[w]) { DeliverAhead(s, w, l, i, j); } else { TakeAhead(s, w, wake, l, i, j); }
    case OpStep(m, wake) =>
      var op := s.loops[m].op;
      if op.PostLock? || op.PostBody? || op.PostUnlock? {
        PostAhead(s, m, wake, l, i, j);
      } else if op.CancelLock? || op.CancelLockLoop? || op.CancelTest? || op.CancelUnlockLoop? || op.CancelUnlock? {
        CancelAhead(s, m, l, i, j);
      } else {
        RequeueAhead(s, m, l, i, j);
      }
    case IoStep(m) =>
      if s.loops[m].io in {Idle, Reading, Testing} {
        InItems(s, l, i, j);
        SameAhead(s, Next(s, e).value, l, i, j);
      } else {
        DoneAhead(s, m, l, i, j);
      }
    case _ =>
      InItems(s, l, i, j);
      SameAhead(s, Next(s, e).value, l, i, j);
  }

  lemma InItems(s: State, l: nat, i: nat, j: nat)
    requires Ahead(s, l, i, j)
    ensures l < |s.loops| && i in s.items && j in s.items && s.items[i].loop == l
  {
  }

  /** Nobody tries to cancel `i`. */
  predicate Uncancelled(events: seq<Event>, i: nat) {
    forall e | e in events :: e.Cancel? ==> e.i != i
  }

  lemma OpUncancelled(s: State, m: nat, wake: nat, l: nat, i: nat)
    requires m < |s.loops| && OpNext(s, m, wake).Some? && l < |s.loops| && !Cancels(s.loops[l].op, i)
    ensures |OpNext(s, m, wake).value.loops| == |s.loops| && !Cancels(OpNext(s, m, wake).value.loops[l].op, i)
  {
    if m != l { assert OpNext(s, m, wake).value.loops[l].op == s.loops[l].op; }
  }

  lemma StillUncancelled(s: State, e: Event, l: nat, i: nat)
    requires Next(s, e).Some? && l < |s.loops| && !Cancels(s.loops[l].op, i) && (e.Cancel? ==> e.i != i)
    requires Inv(s)
    ensures l < |Next(s, e).value.loops| && !Cancels(Next(s, e).value.loops[l].op, i)
  {
    hide Inv, OpNext;
    match e
    case OpStep(m, wake) => OpUncancelled(s, m, wake, l, i);
    case _ =>
  }

  lemma {:induction false} RunAhead(s: State, events: seq<Event>, l: nat, i: nat, j: nat)
    requires Inv(s) && Ahead(s, l, i, j) && !Cancels(s.loops[l].op, i) && Uncancelled(events, i)
    ensures Ahead(Run(s, events), l, i, j)
    decreases |events|
  {
    hide Inv, Next, Cancels;
    if events != [] {
      assert events[0] in events && Uncancelled(events[1..], i);
      InItems(s, l, i, j);
      if Next(s, events[0]).Some? {
        StepAhead(s, events[0], l, i, j);
        StillUncancelled(s, events[0], l, i);
        StepKeeps(s, events[0]);
        RunAhead(Next(s, events[0]).value, events[1..], l, i, j);
      } else {
        RunAhead(s, events[1..], l, i, j);
      }
    }
  }

  /** Done callbacks come in the order of the line: if `i` is ahead of `j` on their loop and nobody
      tries to cancel `i`, then whatever happens, `j` never has its callback before `i`. */
  lemma DoneInOrder(s: State, events: seq<Event>, l: nat, i: nat, j: nat)
    requires Reachable(s) && l < |s.loops| && Precedes(Line(s, l), i, j)
    requires !Cancels(s.loops[l].op, i) && Uncancelled(events, i)
    ensures var t := Run(s, events);
      i in t.items && j in t.items && (t.items[j].done != [] ==> t.items[i].done != [])
  {
    hide Inv, Run, Cancels, Uncancelled, Reachable;
    ReachableInv(s);
    LineOk(s, l);
    PrecedesIn(Line(s, l), i, j);
    RunAhead(s, events, l, i, j);
    RunKeeps(s, events);
    var t := Run(s, events);
    PlaceIff(t, i, Finished);
    PlaceIff(t, j, Finished);
    LineOk(t, l);
  }

  // ---- work functions ----

  /** `i` leaves the global queue before a worker begins `j`. */
  ghost predicate Earlier(s: State, i: nat, j: nat) {
    && i in s.items && j in s.items && i != j && s.items[i].place != Entering
    && (s.items[i].place == Global ==>
          || Precedes(s.wq, Request(i), Request(j))
          || (s.items[j].place in {Cancelling, Queued, Drained, Finished} && !s.items[j].ran))
  }

  /** In the global queue are the requests that the places say, and none twice. */
  lemma QueueOk(s: State)
    requires Inv(s)
    ensures Distinct(s.wq)
    ensures forall k :: Request(k) in s.wq <==> k in s.items && s.items[k].place == Global
  {
    hide Locks, Awake, Held;
    var v := V.ViewOf(s);
    forall k | k in s.items && s.items[k].place == Global ensures Request(k) in s.wq {
      assert V.ItemOk(v, k);
    }
  }

  /** One item moves on, which was not in the global queue, and is not begun. */
  lemma MoveEarlier(s: State, t: State, i: nat, j: nat, k: nat)
    requires Inv(s) && Earlier(s, i, j) && t.wq == s.wq && k in s.items
    requires s.items[k].place != Global && t.items.Keys >= s.items.Keys
    requires forall h | h in s.items && h != k :: t.items[h].place == s.items[h].place && t.items[h].ran == s.items[h].ran
    requires t.items[k].place in {Cancelling, Queued, Drained, Finished}
    requires s.items[k].place.Executing? || t.items[k].ran == s.items[k].ran
    ensures Earlier(t, i, j)
  {
    QueueOk(s);
    if s.items[i].place == Global && Precedes(s.wq, Request(i), Request(j)) {
      PrecedesIn(s.wq, Request(i), Request(j));
    }
  }

  lemma SameEarlier(s: State, t: State, i: nat, j: nat)
    requires Earlier(s, i, j) && t.wq == s.wq && t.items.Keys >= s.items.Keys
    requires forall h | h in s.items ::
      || (t.items[h].place == s.items[h].place && t.items[h].ran == s.items[h].ran)
      || (s.items[h].place == Queued && t.items[h].place == Drained && t.items[h].ran == s.items[h].ran)
    ensures Earlier(t, i, j)
  {
  }

  /** The first request of the queue goes to a worker. */
  lemma HeadEarlier(s: State, t: State, i: nat, j: nat, w: nat)
    requires Earlier(s, i, j) && Distinct(s.wq) && s.wq != [] && s.wq[0].Request? && t.wq == s.wq[1..]
    requires t.items.Keys == s.items.Keys && s.wq[0].i in s.items && s.items[s.wq[0].i].place == Global
    requires t.items[s.wq[0].i].place == Executing(w)
    requires forall h | h in s.items && h != s.wq[0].i :: t.items[h] == s.items[h]
    ensures Earlier(t, i, j)
  {
    if s.items[i].place == Global && s.wq[0].i != i && Precedes(s.wq, Request(i), Request(j)) {
      PrecedesShorter(s.wq, Request(i), Request(j));
    }
  }

  /** A worker has called the work function of an item that had left the queue. */
  lemma RanEarlier(s: State, t: State, i: nat, j: nat, k: nat)
    requires Earlier(s, i, j) && t.wq == s.wq && t.items.Keys == s.items.Keys && k in s.items
    requires s.items[k].place.Executing? && t.items[k].place == s.items[k].place
    requires forall h | h in s.items && h != k :: t.items[h] == s.items[h]
    ensures Earlier(t, i, j)
  {
  }

  lemma TakeEarlier(s: State, w: nat, wake: nat, i: nat, j: nat)
    requires Inv(s) && Earlier(s, i, j) && w < |s.workers| && TakeNext(s, w, wake).Some?
    ensures Earlier(TakeNext(s, w, wake).value, i, j)
  {
    var t, v := TakeNext(s, w, wake).value, V.ViewOf(s);
    QueueOk(s);
    assert v.workers[w] == V.StageOf(s.workers[w]) && V.WorkerOk(v, w);
    hide Locks, Awake, Held, V.Inv, Earlier, Distinct;
    if s.workers[w] == Holding && s.wq != [] && s.wq[0].Request? {
      assert s.wq[0] in s.wq;
      HeadEarlier(s, t, i, j, w);
    } else if s.workers[w].Running? {
      RanEarlier(s, t, i, j, s.workers[w].i);
    } else {
      SameEarlier(s, t, i, j);
    }
  }

  lemma DeliverEarlier(s: State, w: nat, i: nat, j: nat)
    requires Inv(s) && Earlier(s, i, j) && w < |s.workers| && DeliverNext(s, w).Some?
    ensures Earlier(DeliverNext(s, w).value, i, j)
  {
    var t, v := DeliverNext(s, w).value, V.ViewOf(s);
    QueueOk(s);
    assert v.workers[w] == V.StageOf(s.workers[w]) && V.WorkerOk(v, w);
    hide Locks, Awake, Held, V.Inv;
    if s.workers[w].InLoop? {
      HandedEarlier(s, t, i, j, s.workers[w].i);
    } else {
      SameEarlier(s, t, i, j);
    }
  }

  lemma HandedEarlier(s: State, t: State, i: nat, j: nat, k: nat)
    requires Earlier(s, i, j) && t.wq == s.wq && k in s.items && s.items[k].place.Executing? && t.items.Keys == s.items.Keys
    requires forall h :: Request(h) in s.wq <==> h in s.items && s.items[h].place == Global
    requires forall h | h in s.items && h != k :: t.items[h].place == s.items[h].place && t.items[h].ran == s.items[h].ran
    requires t.items[k].place == Queued
    ensures Earlier(t, i, j)
  {
    if s.items[i].place == Global && Precedes(s.wq, Request(i), Request(j)) {
      PrecedesIn(s.wq, Request(i), Request(j));
    }
  }

  lemma PostEarlier(s: State, m: nat, wake: nat, i: nat, j: nat)
    requires Inv(s) && Earlier(s, i, j) && m < |s.loops| && PostNext(s, m, wake).Some?
    ensures Earlier(PostNext(s, m, wake).value, i, j)
  {
    var t, v := PostNext(s, m, wake).value, V.ViewOf(s);
    QueueOk(s);
    assert v.loops[m] == V.ViewOfLoop(s.loops[m]) && V.OpOk(v, m);
    hide Locks, Awake, Held, V.Inv, Precedes;
    if s.loops[m].op.PostBody? {
      PrecedesLonger(s.wq, Request(s.loops[m].op.i), Request(i), Request(j));
    }
  }

  /** An item that has not run leaves all queues to be cancelled. */
  lemma HitEarlier(s: State, t: State, i: nat, j: nat, k: nat)
    requires Earlier(s, i, j) && t.wq == Without(s.wq, Request(k)) && t.items.Keys == s.items.Keys
    requires k in s.items && t.items[k].place == Cancelling && !t.items[k].ran
    requires forall h | h in s.items && h != k :: t.items[h].place == s.items[h].place && t.items[h].ran == s.items[h].ran
    ensures Earlier(t, i, j)
  {
    if s.items[i].place == Global && k != i && k != j && Precedes(s.wq, Request(i), Request(j)) {
      PrecedesWithout(s.wq, Request(k), Request(i), Request(j));
    }
  }

  lemma CancelEarlier(s: State, m: nat, i: nat, j: nat)
    requires Inv(s) && Earlier(s, i, j) && m < |s.loops| && CancelNext(s, m).Some?
    ensures Earlier(CancelNext(s, m).value, i, j)
  {
    var t, v := CancelNext(s, m).value, V.ViewOf(s);
    assert v.loops[m] == V.ViewOfLoop(s.loops[m]) && V.OpOk(v, m);
    if s.loops[m].op.CancelTest? { assert V.ItemOk(v, s.loops[m].op.i); }
    hide Locks, Awake, Held, V.Inv, Precedes;
    if s.loops[m].op.CancelTest? && t.loops[m].op == CancelUnlockLoop(s.loops[m].op.i, true) {
      HitEarlier(s, t, i, j, s.loops[m].op.i);
    } else {
      SameEarlier(s, t, i, j);
    }
  }

  lemma RequeueEarlier(s: State, m: nat, i: nat, j: nat)
    requires Inv(s) && Earlier(s, i, j) && m < |s.loops| && RequeueNext(s, m).Some?
    ensures Earlier(RequeueNext(s, m).value, i, j)
  {
    var t, v := RequeueNext(s, m).value, V.ViewOf(s);
    assert v.loops[m] == V.ViewOfLoop(s.loops[m]) && V.OpOk(v, m);
    hide Locks, Awake, Held, Precedes, V.Items, V.Queues;
    if s.loops[m].op.CancelInsert? {
      MoveEarlier(s, t, i, j, s.loops[m].op.i);
    } else {
      SameEarlier(s, t, i, j);
    }
  }

  lemma DoneEarlier(s: State, m: nat, i: nat, j: nat)
    requires Inv(s) && Earlier(s, i, j) && m < |s.loops| && DoneNext(s, m).Some?
    ensures Earlier(DoneNext(s, m).value, i, j)
  {
    var t := DoneNext(s, m).value;
    LineOk(s, m);
    hide Inv, Precedes, Distinct;
    if s.loops[m].io == Calling && s.loops[m].batch != [] {
      assert s.loops[m].batch[0] in Line(s, m);
      MoveEarlier(s, t, i, j, s.loops[m].batch[0]);
    } else {
      assert forall k | k in s.loops[m].queue :: k in Line(s, m);
      SplitEarlier(s, m, i, j);
    }
  }

  lemma SplitEarlier(s: State, m: nat, i: nat, j: nat)
    requires Inv(s) && Earlier(s, i, j) && m < |s.loops| && DoneNext(s, m).Some?
    requires s.loops[m].io != Calling || s.loops[m].batch == []
    ensures Earlier(DoneNext(s, m).value, i, j)
  {
    var v := V.ViewOf(s);
    assert v.loops[m] == V.ViewOfLoop(s.loops[m]) && V.LoopQueues(v, m);
    hide Locks, Awake, Held, Precedes, Distinct, V.Inv;
    SameEarlier(s, DoneNext(s, m).value, i, j);
  }

  lemma StepEarlier(s: State, e: Event, i: nat, j: nat)
    requires Inv(s) && Earlier(s, i, j) && Next(s, e).Some?
    ensures Earlier(Next(s, e).value, i, j)
  {
    hide Inv, Precedes, TakeNext, DeliverNext, PostNext, CancelNext, RequeueNext, DoneNext;
    match e
    case WorkerStep(w, wake) =>
      if Delivering(s.workers[w]) { DeliverEarlier(s, w, i, j); } else { TakeEarlier(s, w, wake, i, j); }
    case OpStep(m, wake) =>
      var op := s.loops[m].op;
      if op.PostLock? || op.PostBody? || op.PostUnlock? {
        PostEarlier(s, m, wake, i, j);
      } else if op.CancelLock? || op.CancelLockLoop? || op.CancelTest? || op.CancelUnlockLoop? || op.CancelUnlock? {
        CancelEarlier(s, m, i, j);
      } else {
        RequeueEarlier(s, m, i, j);
      }
    case IoStep(m) => if s.loops[m].io !in {Idle, Reading, Testing} { DoneEarlier(s, m, i, j); }
    case CleanerStep(_) => PrecedesLonger(s.wq, Exit, Request(i), Request(j));
    case _ =>
  }

  lemma {:induction false} RunEarlier(s: State, events: seq<Event>, i: nat, j: nat)
    requires Inv(s) && Earlier(s, i, j)
    ensures Earlier(Run(s, events), i, j)
    decreases |events|
  {
    hide Inv, Next, Earlier;
    if events != [] {
      if Next(s, events[0]).Some? {
        StepEarlier(s, events[0], i, j);
        StepKeeps(s, events[0]);
        RunEarlier(Next(s, events[0]).value, events[1..], i, j);
      } else {
        RunEarlier(s, events[1..], i, j);
      }
    }
  }

  /** Requests are begun in the order of the global queue: if `i` is ahead of `j`, then whatever happens,
      no worker has `j` while `i` is still in the queue. */
  lemma BegunInOrder(s: State, events: seq<Event>, i: nat, j: nat)
    requires Reachable(s) && Precedes(s.wq, Request(i), Request(j))
    ensures var t := Run(s, events);
      && i in t.items && j in t.items
      && (t.items[j].place.Executing? || t.items[j].ran ==> Request(i) !in t.wq)
  {
    hide Inv, Run, Reachable;
    ReachableInv(s);
    QueueOk(s);
    PrecedesIn(s.wq, Request(i), Request(j));
    assert i != j by {
      if i == j { NotItself(s.wq, Request(i)); }
    }
    RunEarlier(s, events, i, j);
    RunKeeps(s, events);
    var t := Run(s, events);
    QueueOk(t);
    if t.items[i].place == Global && Precedes(t.wq, Request(i), Request(j)) {
      PrecedesIn(t.wq, Request(i), Request(j));
      BegunNotQueued(t, j);
    }
  }

  lemma NotItself<T>(q: seq<T>, x: T)
    requires Distinct(q)
    ensures !Precedes(q, x, x)
  {
  }

  /** A request in the queue has not been begun. */
  lemma BegunNotQueued(s: State, j: nat)
    requires Inv(s) && Request(j) in s.wq
    ensures j in s.items && !s.items[j].place.Executing? && !s.items[j].ran
  {
    QueueOk(s);
    hide Locks, Awake, Held;
    assert V.ItemOk(V.ViewOf(s), j);
  }

  // ---- the exit ----

  /** `i` has left the global queue, or is ahead of the exit message there. */
  ghost predicate BeforeExit(s: State, i: nat) {
    && i in s.items && s.items[i].place != Entering
    && (s.items[i].place == Global ==> Precedes(s.wq, Request(i), Exit))
  }

  /** Nothing enters the global queue again. */
  predicate NoReturn(s: State, t: State) {
    forall k | k in s.items && s.items[k].place != Entering ::
      k in t.items && t.items[k].place != Entering && (t.items[k].place == Global ==> s.items[k].place == Global)
  }

  lemma SameQueue(s: State, t: State, i: nat)
    requires BeforeExit(s, i) && NoReturn(s, t) && t.wq == s.wq
    ensures BeforeExit(t, i)
  {
  }

  lemma LongerQueue(s: State, t: State, i: nat, x: Entry)
    requires BeforeExit(s, i) && NoReturn(s, t) && t.wq == s.wq + [x]
    ensures BeforeExit(t, i)
  {
    PrecedesLonger(s.wq, x, Request(i), Exit);
  }

  lemma TakeExit(s: State, w: nat, wake: nat, i: nat)
    requires Inv(s) && BeforeExit(s, i) && w < |s.workers| && TakeNext(s, w, wake).Some?
    ensures BeforeExit(TakeNext(s, w, wake).value, i)
  {
    QueueOk(s);
    hide Inv;
    var t := TakeNext(s, w, wake).value;
    if s.workers[w] == Holding && s.wq != [] && s.wq[0].Request? {
      assert s.wq[0] in s.wq;
      if s.items[i].place == Global && s.wq[0].i != i { PrecedesShorter(s.wq, Request(i), Exit); }
    } else {
      SameQueue(s, t, i);
    }
  }

  lemma OpExit(s: State, l: nat, wake: nat, i: nat)
    requires Inv(s) && BeforeExit(s, i) && l < |s.loops| && OpNext(s, l, wake).Some?
    ensures BeforeExit(OpNext(s, l, wake).value, i)
  {
    var op := s.loops[l].op;
    hide Inv, BeforeExit, CancelNext, PostNext, RequeueNext;
    if op.PostLock? || op.PostBody? || op.PostUnlock? {
      PostExit(s, l, wake, i);
    } else if op.CancelLock? || op.CancelLockLoop? || op.CancelTest? || op.CancelUnlockLoop? || op.CancelUnlock? {
      CancelExit(s, l, i);
    } else {
      RequeueExit(s, l, i);
    }
  }

  lemma PostExit(s: State, l: nat, wake: nat, i: nat)
    requires Inv(s) && BeforeExit(s, i) && l < |s.loops| && PostNext(s, l, wake).Some?
    ensures BeforeExit(PostNext(s, l, wake).value, i)
  {
    var t, v := PostNext(s, l, wake).value, V.ViewOf(s);
    assert v.loops[l] == V.ViewOfLoop(s.loops[l]) && V.OpOk(v, l);
    hide Locks, Awake, Held, V.Inv, BeforeExit;
    if s.loops[l].op.PostBody? {
      LongerQueue(s, t, i, Request(s.loops[l].op.i));
    } else {
      SameQueue(s, t, i);
    }
  }

  lemma CancelExit(s: State, l: nat, i: nat)
    requires Inv(s) && BeforeExit(s, i) && l < |s.loops| && CancelNext(s, l).Some?
    ensures BeforeExit(CancelNext(s, l).value, i)
  {
    var t, v, op := CancelNext(s, l).value, V.ViewOf(s), s.loops[l].op;
    assert v.loops[l] == V.ViewOfLoop(s.loops[l]) && V.OpOk(v, l);
    hide Locks, Awake, Held, V.Inv, BeforeExit;
    if op.CancelTest? && t.items[op.i].place == Cancelling {
      HitExit(s, t, i, op.i);
    } else {
      SameQueue(s, t, i);
    }
  }

  lemma RequeueExit(s: State, l: nat, i: nat)
    requires Inv(s) && BeforeExit(s, i) && l < |s.loops| && RequeueNext(s, l).Some?
    ensures BeforeExit(RequeueNext(s, l).value, i)
  {
    hide V.Items;
    var t, v := RequeueNext(s, l).value, V.ViewOf(s);
    assert v.loops[l] == V.ViewOfLoop(s.loops[l]) && V.OpOk(v, l);
    hide Locks, Awake, Held, V.Inv, BeforeExit;
    SameQueue(s, t, i);
  }

  lemma HitExit(s: State, t: State, i: nat, k: nat)
    requires BeforeExit(s, i) && k in t.items && t.items[k].place == Cancelling
    requires t.wq == Without(s.wq, Request(k)) || t.wq == s.wq
    requires forall h | h in s.items && h != k :: h in t.items && t.items[h] == s.items[h]
    ensures BeforeExit(t, i)
  {
    if k != i && s.items[i].place == Global { PrecedesWithout(s.wq, Request(k), Request(i), Exit); }
  }

  lemma OthersExit(s: State, e: Event, i: nat)
    requires Inv(s) && BeforeExit(s, i) && Next(s, e).Some?
    requires e.IoStep? || (e.WorkerStep? && Delivering(s.workers[e.w]))
    ensures BeforeExit(Next(s, e).value, i)
  {
    hide Inv, BeforeExit;
    SameQueue(s, Next(s, e).value, i);
  }

  lemma StepExit(s: State, e: Event, i: nat)
    requires Inv(s) && BeforeExit(s, i) && Next(s, e).Some?
    ensures BeforeExit(Next(s, e).value, i)
  {
    hide Inv, BeforeExit, TakeNext, DeliverNext, OpNext, IoNext;
    match e
    case WorkerStep(w, wake) => if Delivering(s.workers[w]) { OthersExit(s, e, i); } else { TakeExit(s, w, wake, i); }
    case OpStep(l, wake) => OpExit(s, l, wake, i);
    case IoStep(_) => OthersExit(s, e, i);
    case CleanerStep(_) =>
      if s.cleaner == ExitBody { LongerQueue(s, Next(s, e).value, i, Exit); } else { SameQueue(s, Next(s, e).value, i); }
    case _ => SameQueue(s, Next(s, e).value, i);
  }

  lemma {:induction false} RunExit(s: State, events: seq<Event>, i: nat)
    requires Inv(s) && BeforeExit(s, i)
    ensures BeforeExit(Run(s, events), i)
    decreases |events|
  {
    hide Inv, Next, BeforeExit;
    if events != [] {
      if Next(s, events[0]).Some? {
        StepExit(s, events[0], i);
        StepKeeps(s, events[0]);
        RunExit(Next(s, events[0]).value, events[1..], i);
      } else {
        RunExit(s, events[1..], i);
      }
    }
  }

  /** A request that is ahead of the exit message is still completed. */
  lemma PostedBeforeExit(s: State, i: nat) returns (events: seq<Event>)
    requires Reachable(s) && s.workers != [] && Precedes(s.wq, Request(i), Exit)
    ensures forall e | e in events :: Inner(e)
    ensures var t := Run(s, events);
      && |t.workers| == |s.workers| && (forall w | 0 <= w < |t.workers| :: t.workers[w] == Dead)
      && i in t.items && t.items[i].place == Finished && |t.items[i].done| == 1
  {
    hide Run, Stuck;
    ReachableInv(s);
    QueueOk(s);
    PrecedesIn(s.wq, Request(i), Exit);
    assert s.cleaner != NotExiting by { assert PoolAwake(s); }
    events := Completes(s);
    RunExit(s, events, i);
    RunKeeps(s, events);
    var t := Run(s, events);
    QueueOk(t);
    assert OverFor(t, i);
    if Request(i) in t.wq {
      ExitIsFirst(t);
      NotAfterFirst(t.wq, Request(i));
    }
  }

  lemma NotAfterFirst<T>(q: seq<T>, x: T)
    requires Distinct(q) && q != []
    ensures !Precedes(q, x, q[0])
  {
  }

  /** When all workers have ended. */
  lemma ExitIsFirst(s: State)
    requires Inv(s) && s.workers != [] && forall w | 0 <= w < |s.workers| :: s.workers[w] == Dead
    ensures s.wq != [] && s.wq[0] == Exit
  {
    assert PoolAwake(s) && s.workers[0] == Dead;
  }
}
