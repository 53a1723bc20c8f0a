/** Whole runs of the cothread scheduler: what holds whenever user code or the event loop is in
    control, whatever the cothreads call and in whatever order the timers fire. */
module GeventRuns {
  import opened Options
  import opened SchedulerState
  import opened Gevent
  import opened Receipts

  /** What the context in control does next: the running cothread calls a function of the library or
      returns from its run function; the event loop fires a timer or ends. */
  datatype Event =
    | Init(t: nat)
    | Spawn(t: nat)
    | Sleep
    | Wait
    | NewChannel(id: nat)
    | Receive(id: nat)
    | Send(id: nat, value: int)
    | NewSemaphore(s: nat, n: int)
    | Acquire(s: nat)
    | Release(s: nat)
    | Finish
    | FireTimer(t: nat)
    | EndLoop

  /** A run of any events, as far as each is possible when its turn comes, keeps every invariant. */
  method Run(h: Hub, script: seq<Event>)
    requires h.Valid()
    modifies h
    ensures h.Valid()
  {
    var i := 0;
    while i < |script|
      invariant 0 <= i <= |script| && h.Valid()
    {
      Step(h, script[i]);
      i := i + 1;
    }
  }

  method Step(h: Hub, e: Event)
    requires h.Valid()
    modifies h
    ensures h.Valid()
  {
    hide Consistent, Fifos, Semaphores, Hub.Running, Kept;
    if h.current.None? {
      match e {
        case FireTimer(t) => if t in h.timers { h.FireTimer(t); }
        case EndLoop => h.EndLoop();
        case _ =>
      }
    } else {
      match e {
        case Init(t) => if t !in h.co { h.Init(t); }
        case Spawn(t) => if t in h.co && h.co[t].state == New { h.Spawn(t); }
        case Sleep => h.Sleep();
        case Wait => h.Wait();
        case NewChannel(id) => if Plain(id) !in h.ch { h.NewChannel(Plain(id)); }
        case Receive(id) => if Plain(id) in h.ch { h.Receive(Plain(id)); }
        case Send(id, value) => if Plain(id) in h.ch { h.Send(Plain(id), value); }
        case NewSemaphore(s, n) => if OfSemaphore(s) !in h.ch { h.InitSemaphore(s, n); }
        case Acquire(s) => if s in h.counter { h.Acquire(s); }
        case Release(s) => if s in h.counter { h.Release(s); }
        case Finish => if h.current != Some(MAIN) { h.Finish(); }
        case _ =>
      }
    }
  }

  // ---- what the invariants mean ----

  /** Suspended stacks have distinct handles, all unused, each leading back to its own stack. */
  lemma DistinctHandles(hub: Hub, t: nat, u: nat)
    requires hub.Valid() && t in hub.rest && u in hub.rest && t != u
    requires hub.current != Some(t) && hub.current != Some(u)
    ensures t in hub.co && u in hub.co && hub.co[t].stacklet.Some? && hub.co[u].stacklet.Some?
    ensures hub.co[t].stacklet != hub.co[u].stacklet && hub.co[t].stacklet != hub.stacklet
    ensures var h := hub.co[t].stacklet.value;
      h !in hub.used && h in hub.suspended && hub.suspended[h] == Stack(Some(t), hub.rest[t])
  {
    hide Queues, Exits, Fifos, Semaphores;
    var s := hub.Now();
    HandleOf(s, None, t);
    HandleOf(s, None, u);
    HubHandleOf(s, None);
  }

  ghost predicate InChannel(s: Snapshot, t: nat, c: Name) {
    c in s.ch && (t in s.ch[c].receivers || t in s.ch[c].senders)
  }

  lemma InChannelRest(s: Snapshot, t: nat)
    requires Queues(s.co, s.ready, s.ch, s.timers, s.rest, None) && t in s.rest
    ensures t in s.co && forall c :: InChannel(s, t, c) <==> s.rest[t] == Receiving(c) || s.rest[t] == Sending(c)
    ensures forall c | InChannel(s, t, c) :: (t in s.ch[c].receivers <==> s.rest[t].Receiving?)
                                             && (t in s.ch[c].senders <==> s.rest[t].Sending?)
    ensures t in s.timers <==> s.rest[t] == StopTimer
    ensures s.rest[t] == Return ==> (t in s.ready <==> s.co[t].state != Current)
    ensures s.rest[t] != Return ==> t !in s.ready && s.co[t].state != Current
  {
    assert Placed(t, s.co[t].state, s.rest[t], s.ready, s.ch, s.timers, None);
  }

  lemma Places(s: Snapshot, t: nat)
    requires Consistent(s, None) && t in s.rest
    ensures t in s.co
    ensures s.co[t].state == Current <==> t !in s.ready && t !in s.timers && forall c :: !InChannel(s, t, c)
    ensures t in s.ready ==> t !in s.timers && forall c :: !InChannel(s, t, c)
    ensures t in s.timers ==> forall c :: !InChannel(s, t, c)
    ensures forall c, d | InChannel(s, t, c) && InChannel(s, t, d) :: c == d
  {
    hide Stacks, Queues, Exits, InChannel;
    InChannelRest(s, t);
    match s.rest[t]
    case Receiving(c) => assert InChannel(s, t, c);
    case Sending(c) => assert InChannel(s, t, c);
    case _ =>
  }

  lemma DistinctTogether(r: seq<nat>, q: seq<nat>)
    requires Distinct(r) && Distinct(q) && forall t | t in r :: t !in q
    ensures Distinct(r + q)
  {
    forall i, j | 0 <= i < j < |r + q| ensures (r + q)[i] != (r + q)[j] {
      assert i < |r| ==> (r + q)[i] in r;
      assert |r| <= j ==> (r + q)[j] in q;
    }
  }

  lemma NobodyTwice(s: Snapshot)
    requires Consistent(s, None)
    ensures Distinct(s.ready)
    ensures forall c | c in s.ch :: Distinct(s.ch[c].receivers + s.ch[c].senders)
  {
    forall c | c in s.ch ensures Distinct(s.ch[c].receivers + s.ch[c].senders) {
      var r, q := s.ch[c].receivers, s.ch[c].senders;
      assert forall t | t in r :: s.rest[t] == Receiving(c);
      assert forall t | t in q :: s.rest[t] == Sending(c);
      DistinctTogether(r, q);
    }
  }

  /** A live cothread waits in at most one place, and in none only while it runs or sits in a
      gevent_wait without a timeout; and nobody is in a queue twice. */
  lemma OnePlace(hub: Hub, t: nat)
    requires hub.Valid() && t in hub.rest
    ensures var s := hub.Now();
      && t in s.co
      && (s.co[t].state == Current <==> t !in s.ready && t !in s.timers && forall c :: !InChannel(s, t, c))
      && (t in s.ready ==> t !in s.timers && forall c :: !InChannel(s, t, c))
      && (t in s.timers ==> forall c :: !InChannel(s, t, c))
      && (forall c, d | InChannel(s, t, c) && InChannel(s, t, d) :: c == d)
      && Distinct(s.ready) && forall c | c in s.ch :: Distinct(s.ch[c].receivers + s.ch[c].senders)
  {
    hide Consistent, Fifos, Semaphores, InChannel;
    Places(hub.Now(), t);
    NobodyTwice(hub.Now());
  }

  /** On every channel, and of the calls that the fallback did not break off: the k-th receive returns
      the value of the k-th send, once both were called, and blocks until then. */
  lemma Rendezvous(hub: Hub, c: Name)
    requires hub.Valid() && c in hub.ch
    ensures c in hub.logs
    ensures var k, l := hub.ch[c], hub.logs[c];
      && (forall i | 0 <= i < |l.got| :: l.got[i] == if i < |l.sent| then Some(l.sent[i]) else None)
      && |k.receivers| == (if |l.sent| < |l.got| then |l.got| - |l.sent| else 0)
      && |k.senders| == if |l.got| < |l.sent| then |l.sent| - |l.got| else 0
  {
    hide Consistent, Semaphores;
    assert Fifo(hub.co, hub.ch[c], hub.logs[c]);
  }

  /** What `*result` holds: if the last receive of `t` was the k-th on its channel, the value of the k-th
      send, once that was made; until then `t` waits in the queue of the channel. */
  lemma ReceivedIsSent(hub: Hub, t: nat)
    requires hub.Valid() && t in hub.last
    ensures var r := hub.last[t];
      && r.c in hub.ch && r.c in hub.logs
      && (if r.k < |hub.logs[r.c].sent| then t in hub.result && hub.result[t] == hub.logs[r.c].sent[r.k]
          else t in hub.ch[r.c].receivers)
  {
    hide Consistent, Semaphores;
    var r := hub.last[t];
    assert Right(hub.logs, hub.result, t, r);
    Rendezvous(hub, r.c);
    var k, l := hub.ch[r.c], hub.logs[r.c];
    assert InOrder(r.c, k.receivers, |l.got|, hub.last);
    if |l.sent| <= r.k {
      var u := k.receivers[r.k - |l.sent|];
      assert hub.last[u] == r;
    }
  }

  /** A semaphore grants no more than it was given, and makes nobody wait while it could grant. */
  lemma SemaphoreBound(hub: Hub, s: nat)
    requires hub.Valid() && s in hub.counter
    ensures s in hub.accounts && OfSemaphore(s) in hub.ch
    ensures var a := hub.accounts[s];
      && a.initial + a.released == hub.counter[s] + a.granted
      && (0 <= a.initial ==> 0 <= hub.counter[s] && a.granted <= a.initial + a.released)
      && (hub.ch[OfSemaphore(s)].receivers != [] ==> hub.counter[s] <= 0 && a.initial + a.released <= a.granted)
  {
    hide Consistent, Fifos;
    assert Balanced(hub.ch[OfSemaphore(s)], hub.counter[s], hub.accounts[s]);
  }

  method MainBlocks() returns (h: Hub)
    ensures fresh(h) && h.Valid() && h.current == None && h.exits == [] && h.broken == 0
    ensures MAIN in h.rest && h.rest[MAIN] == Receiving(Plain(0))
    ensures Plain(0) in h.logs && h.logs[Plain(0)].sent == []
  {
    hide Consistent, Fifos, Semaphores, Kept;
    h := new Hub();
    h.NewChannel(Plain(0));
    h.Receive(Plain(0));
    assert h.ch[Plain(0)].receivers == [MAIN];
    Waiting(h.Now(), Plain(0), MAIN);
  }

  /** Of the fallback to `main`: a receive of `main` returns although nothing was ever sent. */
  method ReceiveWithoutSend() returns (h: Hub)
    ensures fresh(h) && h.Valid() && h.current == Some(MAIN) && h.broken == 1
    ensures h.exits == [] && Plain(0) in h.logs && h.logs[Plain(0)].sent == []
  {
    hide Consistent, Fifos, Semaphores, Hub.Running, Kept;
    h := MainBlocks();
    h.EndLoop();
  }

  /** Cothread 1 runs again, and is the only one: `main` has gone to sleep, cothread 2 has ended. */
  method MainSleeps() returns (h: Hub)
    ensures fresh(h) && h.Valid() && h.current == Some(1) && h.ready == [] && h.stacklet == None
    ensures MAIN in h.rest && h.rest[MAIN] == StopTimer && h.cutShort == 0 && h.exits == [2]
  {
    hide Hub.Valid, SameSent;
    h := new Hub();
    h.Init(1);
    h.Spawn(1);
    h.Init(2);
    h.Spawn(2);
    h.Finish();
    h.Sleep();
  }

  /** Of the fallback to `main`, too: cothread 1 ends while `main` sleeps, and the event loop was never
      started, so that the sleep returns with its timer still armed. */
  method SleepCutShort() returns (h: Hub)
    ensures fresh(h) && h.Valid() && h.current == Some(MAIN) && h.cutShort == 1 && h.exits == [2, 1]
  {
    hide Hub.Valid, SameSent;
    h := MainSleeps();
    h.Finish();
  }
}
