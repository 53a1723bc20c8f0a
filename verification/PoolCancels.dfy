/** What uv_cancel promises: which items it can still stop, and what it tells its caller. */
module PoolCancels {
  import opened Options
  import opened ThreadPool
  import opened PoolSafety
  import opened PoolWakeups
  import opened PoolRuns
  import opened PoolCompletion
  import V = WorkItems

  // ---- reachable states lead to reachable states ----

  lemma {:induction false} RunAppend(s: State, a: seq<Event>, b: seq<Event>)
    ensures Run(s, a + b) == Run(Run(s, a), b)
    decreases |a|
  {
    if a == [] {
      assert a + b == b;
    } else {
      assert (a + b)[1..] == a[1..] + b;
      RunAppend(if Next(s, a[0]).Some? then Next(s, a[0]).value else s, a[1..], b);
    }
  }

  lemma ReachableRun(s: State, events: seq<Event>)
    requires Reachable(s)
    ensures Reachable(Run(s, events))
  {
    var workers, loops, capacity: nat, before :|
      capacity > 0 && s == Run(Initial(workers, loops, capacity), before);
    RunAppend(Initial(workers, loops, capacity), before, events);
  }

  lemma ReachableNext(s: State, e: Event)
    requires Reachable(s) && Next(s, e).Some?
    ensures Reachable(Next(s, e).value)
  {
    hide Reachable, Next;
    ReachableRun(s, [e]);
    RunOne(s, e, []);
    assert [e] + [] == [e];
  }

  // ---- the test under both locks ----

  /** Still waiting to be run, or cancelled before and waiting for its done callback. */
  predicate CanBeCancelled(it: Item) {
    (it.place == Global || it.place == Queued || it.place == Drained) && !it.ran
  }

  /** With both locks held, an item is taken out if and only if no worker has begun it; all other
      items stay what they were. */
  lemma CancelDecides(s: State, l: nat, wake: nat)
    requires Reachable(s) && l < |s.loops| && s.loops[l].op.CancelTest?
    ensures Next(s, OpStep(l, wake)).Some?
    ensures var i, t := s.loops[l].op.i, Next(s, OpStep(l, wake)).value;
      && i in s.items && t.items.Keys == s.items.Keys
      && (t.items[i].place == Cancelling <==> CanBeCancelled(s.items[i]))
      && (!CanBeCancelled(s.items[i]) ==> t.items[i] == s.items[i] && t.wq == s.wq
                                          && t.loops[l].queue == s.loops[l].queue && t.loops[l].batch == s.loops[l].batch)
      && forall j | j in s.items && j != i :: t.items[j] == s.items[j]
  {
    ReachableInv(s);
    hide Locks, Awake, Held;
    var v, i := V.ViewOf(s), s.loops[l].op.i;
    assert v.loops[l] == V.ViewOfLoop(s.loops[l]) && V.OpOk(v, l) && V.ItemOk(v, i);
  }

  // ---- the whole call ----

  /** uv_cancel of `i` on loop `l` has taken the item out and has not returned yet. */
  predicate Succeeding(op: Op, i: nat) {
    op in {CancelUnlockLoop(i, true), CancelUnlock(i, true), CancelMark(i), CancelRelock(i), CancelInsert(i),
           CancelSend(i), CancelWrite(i), CancelEnd(i)}
  }

  predicate Decided(s: State, l: nat, i: nat) {
    l < |s.loops| && i in s.items && (s.items[i].cancelReturned0 || Succeeding(s.loops[l].op, i))
  }

  lemma OpKeepsDecided(s: State, m: nat, wake: nat, l: nat, i: nat)
    requires Decided(s, l, i) && m < |s.loops| && OpNext(s, m, wake).Some?
    ensures Decided(OpNext(s, m, wake).value, l, i)
  {
    var t := OpNext(s, m, wake).value;
    assert |t.loops| == |s.loops|;
    if l != m { assert t.loops[l].op == s.loops[l].op; }
  }

  lemma StepKeepsDecided(s: State, e: Event, l: nat, i: nat)
    requires Decided(s, l, i) && Next(s, e).Some?
    ensures Decided(Next(s, e).value, l, i)
  {
    if e.OpStep? {
      OpKeepsDecided(s, e.l, e.wake, l, i);
    } else {
      var t := Next(s, e).value;
      assert i in t.items && t.items[i].cancelReturned0 == s.items[i].cancelReturned0;
      assert |t.loops| == |s.loops|;
      assert s.loops[l].op != NoOp ==> t.loops[l].op == s.loops[l].op;
    }
  }

  lemma {:induction false} RunKeepsDecided(s: State, events: seq<Event>, l: nat, i: nat)
    requires Decided(s, l, i)
    ensures Decided(Run(s, events), l, i)
    decreases |events|
  {
    if events != [] {
      if Next(s, events[0]).Some? {
        StepKeepsDecided(s, events[0], l, i);
        RunKeepsDecided(Next(s, events[0]).value, events[1..], l, i);
      } else {
        RunKeepsDecided(s, events[1..], l, i);
      }
    }
  }

  lemma HitIsDecided(s: State, l: nat, wake: nat)
    requires Reachable(s) && l < |s.loops| && s.loops[l].op.CancelTest?
    requires s.loops[l].op.i in s.items && CanBeCancelled(s.items[s.loops[l].op.i])
    ensures Next(s, OpStep(l, wake)).Some? && Decided(Next(s, OpStep(l, wake)).value, l, s.loops[l].op.i)
  {
    var v, i := V.ViewOf(s), s.loops[l].op.i;
    ReachableInv(s);
    hide Locks, Awake, Held, Reachable;
    assert v.loops[l] == V.ViewOfLoop(s.loops[l]) && V.OpOk(v, l) && V.ItemOk(v, i);
  }

  /** An item that no worker has begun when uv_cancel holds both locks: whatever happens then, the call
      has returned 0 as soon as the loop thread is out of it, and the work function never runs. */
  lemma CancelReturns0(s: State, l: nat, wake: nat, events: seq<Event>)
    requires Reachable(s) && l < |s.loops| && s.loops[l].op.CancelTest?
    requires s.loops[l].op.i in s.items && CanBeCancelled(s.items[s.loops[l].op.i])
    ensures Next(s, OpStep(l, wake)).Some?
    ensures var i, t := s.loops[l].op.i, Run(s, [OpStep(l, wake)] + events);
      && i in t.items && l < |t.loops|
      && (t.loops[l].op == NoOp ==> t.items[i].cancelReturned0 && !t.items[i].ran)
  {
    hide Next, Reachable, Inv, Run;
    var i, first := s.loops[l].op.i, OpStep(l, wake);
    HitIsDecided(s, l, wake);
    RunOne(s, first, events);
    RunKeepsDecided(Next(s, first).value, events, l, i);
    ReachableRun(s, [first] + events);
    DoneTellsTheTruth(Run(s, [first] + events), i);
  }

  /** And the done callback of such an item comes, once, with UV_ECANCELED, even after an exit has begun. */
  lemma CancelledIsToldSo(s: State, l: nat) returns (events: seq<Event>)
    requires Reachable(s) && s.workers != []
    requires l < |s.loops| && s.loops[l].op.CancelTest?
    requires s.loops[l].op.i in s.items && CanBeCancelled(s.items[s.loops[l].op.i])
    ensures var i, t := s.loops[l].op.i, Run(s, events);
      i in t.items && t.items[i].done == [true] && t.items[i].cancelReturned0 && !t.items[i].ran
  {
    hide Next, Reachable, Inv, Run, Stuck, Decided;
    var i, first := s.loops[l].op.i, OpStep(l, 0);
    CancelDecides(s, l, 0);
    ReachableInv(s);
    StepCloser(s, first);
    ReachableNext(s, first);
    ReachableInv(Next(s, first).value);
    var rest := Completes(Next(s, first).value);
    events := [first] + rest;
    RunOne(s, first, rest);
    CancelReturns0(s, l, 0, rest);
    var t := Run(s, events);
    ReachableRun(s, events);
    ReachableInv(t);
    NoOps(t, l);
    DoneTellsTheTruth(t, i);
    NotLeft(t, i);
  }

  /** What uv_cancel has taken out does not go back to the global queue. */
  lemma NotLeft(s: State, i: nat)
    requires Inv(s) && i in s.items && s.items[i].cancelReturned0
    ensures s.items[i].place != Global
  {
    hide Locks, Awake, Held;
    assert V.ItemOk(V.ViewOf(s), i);
  }
}
