/** The coalescing wake-up of libuv/src/unix/async.c: any number of handles share one pipe, and
    any number of threads send to them while the loop drains the pipe and sweeps the handles.
    Every access to a pending flag and to the pipe is a step of its own. */
module AsyncHandles {
  import opened Options

  /** uv_async_send on handle `h`: the cheap read, the exchange, and the write. */
  datatype Sender = Out | Testing(h: nat) | Exchanging(h: nat) | Writing(h: nat)

  /** uv__async_io; handle `k` is the one that the walk of the list has come to. */
  datatype Loop = Polling | Reading | Looking(k: nat) | Clearing(k: nat) | Calling(k: nat)

  /** `asked` and `served` record what was promised: how many sends have seen or set the flag,
      how many of those the callbacks so far were called after, and how many callbacks. */
  datatype Handle = Handle(pending: bool, asked: nat, served: nat, calls: nat)

  datatype State = State(
    handles: seq<Handle>,   // loop->async_handles, in the order of the list
    senders: seq<Sender>,
    loop: Loop,
    pipe: nat,              // bytes in the pipe
    capacity: nat,
    atomicOps: bool)        // does the platform have an atomic exchange?

  /** `again`: the system call of this step is interrupted by a signal. */
  datatype Event =
    | Init
    | Send(t: nat, h: nat)
    | SenderStep(t: nat, again: bool)
    | LoopStep(again: bool)

  const PIPE_READ := 1024

  // ---- the steps ----

  /** A send to `h` is from now on covered by the flag. */
  function Ask(s: State, h: nat): State
    requires h < |s.handles|
  {
    s.(handles := s.handles[h := s.handles[h].(pending := true, asked := s.handles[h].asked + 1)])
  }

  function SetSender(s: State, t: nat, pc: Sender): State
    requires t < |s.senders|
  {
    s.(senders := s.senders[t := pc])
  }

  function SenderNext(s: State, t: nat, again: bool): Option<State>
    requires t < |s.senders|
  {
    match s.senders[t]
    case Out => None
    case Testing(h) =>
      if h >= |s.handles| then None
      else if s.handles[h].pending then Some(SetSender(Ask(s, h), t, Out))
      else Some(SetSender(s, t, Exchanging(h)))
    case Exchanging(h) =>
      if h >= |s.handles| then None
      else Some(SetSender(Ask(s, h), t, if s.atomicOps && s.handles[h].pending then Out else Writing(h)))
    case Writing(h) =>
      if again then Some(s)
      else if s.pipe < s.capacity then Some(SetSender(s.(pipe := s.pipe + 1), t, Out))
      else Some(SetSender(s, t, Out)) // EAGAIN
  }

  function LoopNext(s: State, again: bool): Option<State> {
    match s.loop
    case Polling => if s.pipe > 0 then Some(s.(loop := Reading)) else None
    case Reading =>
      if again then Some(s)
      else if s.pipe >= PIPE_READ then Some(s.(pipe := s.pipe - PIPE_READ))
      else Some(s.(pipe := 0, loop := Looking(0)))
    case Looking(k) =>
      if k >= |s.handles| then Some(s.(loop := Polling))
      else if s.handles[k].pending then Some(s.(loop := Clearing(k)))
      else Some(s.(loop := Looking(k + 1)))
    case Clearing(k) =>
      if k >= |s.handles| then None else
      var h := s.handles[k];
      Some(s.(handles := s.handles[k := h.(pending := false, served := h.asked, calls := h.calls + 1)],
              loop := Calling(k)))
    case Calling(k) => Some(s.(loop := Looking(k + 1)))
  }

  /** Handles are initialised on the loop thread, outside of uv__async_io or in a callback. */
  function Next(s: State, e: Event): Option<State> {
    match e
    case Init =>
      if s.loop.Polling? || s.loop.Calling? then Some(s.(handles := s.handles + [Handle(false, 0, 0, 0)])) else None
    case Send(t, h) =>
      if t < |s.senders| && s.senders[t] == Out && h < |s.handles| then Some(SetSender(s, t, Testing(h))) else None
    case SenderStep(t, again) => if t < |s.senders| then SenderNext(s, t, again) else None
    case LoopStep(again) => LoopNext(s, again)
  }

  function Run(s: State, events: seq<Event>): State
    decreases |events|
  {
    if events == [] then s
    else match Next(s, events[0])
         case None => Run(s, events[1..])
         case Some(s') => Run(s', events[1..])
  }

  function Initial(threads: nat, capacity: nat, atomicOps: bool): State {
    State([], seq(threads, _ => Out), Polling, 0, capacity, atomicOps)
  }

  // ---- the invariant ----

  /** Some sender to `h` has set the flag but not written its byte yet. */
  ghost predicate AboutToWrite(s: State, h: nat) {
    exists t :: 0 <= t < |s.senders| && s.senders[t] == Writing(h)
  }

  /** The walk of the list is still to come to `h`. */
  predicate Ahead(loop: Loop, h: nat) {
    match loop
    case Polling => false
    case Reading => true
    case Looking(k) => k <= h
    case Clearing(k) => k <= h
    case Calling(k) => k < h
  }

  /** A set flag is going to be seen; it is set exactly while some send is not served. */
  ghost predicate HandleOk(s: State, h: nat)
    requires h < |s.handles|
  {
    var a := s.handles[h];
    && (a.pending ==> s.pipe > 0 || AboutToWrite(s, h) || Ahead(s.loop, h))
    && a.served <= a.asked && (a.pending <==> a.served < a.asked)
    && a.calls + (if a.pending then 1 else 0) <= a.asked
  }

  predicate Names(s: State, pc: Sender) {
    pc.Out? || pc.h < |s.handles|
  }

  /** The walk stays inside the list, which only grows. */
  predicate InList(s: State) {
    match s.loop
    case Polling => true
    case Reading => true
    case Looking(k) => k <= |s.handles|
    case Clearing(k) => k < |s.handles|
    case Calling(k) => k < |s.handles|
  }

  ghost predicate Inv(s: State) {
    && s.capacity > 0 && InList(s)
    && (forall h :: 0 <= h < |s.handles| ==> HandleOk(s, h))
    && (forall t :: 0 <= t < |s.senders| ==> Names(s, s.senders[t]))
    && (s.loop.Clearing? ==> s.handles[s.loop.k].pending)
  }

  lemma SenderKeeps(s: State, t: nat, again: bool)
    requires Inv(s) && t < |s.senders| && SenderNext(s, t, again).Some?
    ensures Inv(SenderNext(s, t, again).value)
  {
    var s' := SenderNext(s, t, again).value;
    forall h | 0 <= h < |s'.handles| ensures HandleOk(s', h) {
      assert HandleOk(s, h) && s'.senders[t] == s'.senders[t];
      if u :| 0 <= u < |s.senders| && s.senders[u] == Writing(h) {
        assert u != t ==> s'.senders[u] == Writing(h);
      }
    }
    forall u | 0 <= u < |s'.senders| ensures Names(s', s'.senders[u]) {
      assert Names(s, s.senders[u]);
    }
  }

  lemma LoopKeeps(s: State, again: bool)
    requires Inv(s) && LoopNext(s, again).Some?
    ensures Inv(LoopNext(s, again).value)
  {
    var s' := LoopNext(s, again).value;
    forall h | 0 <= h < |s'.handles| ensures HandleOk(s', h) {
      assert HandleOk(s, h);
      assert s'.senders == s.senders;
    }
    forall u | 0 <= u < |s'.senders| ensures Names(s', s'.senders[u]) {
      assert Names(s, s.senders[u]);
    }
  }

  lemma StepKeeps(s: State, e: Event)
    requires Inv(s) && Next(s, e).Some?
    ensures Inv(Next(s, e).value)
  {
    match e
    case SenderStep(t, again) => SenderKeeps(s, t, again);
    case LoopStep(again) => LoopKeeps(s, again);
    case _ =>
      var s' := Next(s, e).value;
      forall h | 0 <= h < |s'.handles| ensures HandleOk(s', h) {
        if h < |s.handles| {
          assert HandleOk(s, h);
          if u :| 0 <= u < |s.senders| && s.senders[u] == Writing(h) {
            assert s'.senders[u] == Writing(h);
          }
        }
      }
      forall u | 0 <= u < |s'.senders| ensures Names(s', s'.senders[u]) {
        assert u < |s.senders| && Names(s, s.senders[u]);
      }
  }

  lemma {:induction false} RunKeeps(s: State, events: seq<Event>)
    requires Inv(s)
    ensures Inv(Run(s, events))
    decreases |events|
  {
    if events != [] {
      match Next(s, events[0])
      case None => RunKeeps(s, events[1..]);
      case Some(s') =>
        StepKeeps(s, events[0]);
        RunKeeps(s', events[1..]);
    }
  }

  // ---- what it means ----

  /** No lost wake-up, in every reachable state: if some send to `h` has not been followed by
      a callback yet, then there is a byte in the pipe, or a sender to this very handle is
      between its exchange and its write, or the sweep is still to come to it. */
  lemma NoLostWakeUp(threads: nat, capacity: nat, atomicOps: bool, events: seq<Event>, h: nat)
    requires capacity > 0
    requires h < |Run(Initial(threads, capacity, atomicOps), events).handles|
    ensures var s := Run(Initial(threads, capacity, atomicOps), events);
      s.handles[h].served < s.handles[h].asked ==>
        s.handles[h].pending && (s.pipe > 0 || AboutToWrite(s, h) || Ahead(s.loop, h))
  {
    RunKeeps(Initial(threads, capacity, atomicOps), events);
    assert HandleOk(Run(Initial(threads, capacity, atomicOps), events), h);
  }

  /** Callbacks may be fewer than sends but never more. */
  lemma NoSpuriousCallback(threads: nat, capacity: nat, atomicOps: bool, events: seq<Event>, h: nat)
    requires capacity > 0
    requires h < |Run(Initial(threads, capacity, atomicOps), events).handles|
    ensures var s := Run(Initial(threads, capacity, atomicOps), events);
      s.handles[h].calls <= s.handles[h].asked
  {
    RunKeeps(Initial(threads, capacity, atomicOps), events);
    assert HandleOk(Run(Initial(threads, capacity, atomicOps), events), h);
  }

  /** How far the loop has to go in the present turn. */
  function Rank(s: State): nat {
    match s.loop
    case Polling => if s.pipe > 0 then 1 else 0
    case Reading => if s.pipe > 0 then 0 else 2
    case _ => if s.pipe > 0 then 2 else 1
  }

  function StepsLeft(s: State): int {
    match s.loop
    case Polling => 0
    case Reading => 0
    case Looking(k) => 3 * (|s.handles| - k) + 3
    case Clearing(k) => 3 * (|s.handles| - k) + 2
    case Calling(k) => 3 * (|s.handles| - k) + 1
  }

  /** All sends to the handle are served now; it had one more callback if there was a send
      since its last one, and otherwise none. */
  predicate Served(before: Handle, after: Handle) {
    && !after.pending && after.served == after.asked == before.asked
    && after.calls == before.calls + if before.served < before.asked then 1 else 0
  }

  /** Every send is served: from any state in which nobody is in the middle of a send, the
      loop by itself comes to rest after finitely many steps, and then each handle has had a
      callback after its last send: exactly one more if there was a send since the last. */
  lemma {:induction false} EverySendIsServed(s: State) returns (events: seq<Event>)
    requires Inv(s) && forall t :: 0 <= t < |s.senders| ==> s.senders[t] == Out
    ensures forall i :: 0 <= i < |events| ==> events[i] == LoopStep(false)
    ensures var s' := Run(s, events);
      && s'.loop == Polling && s'.pipe == 0 && |s'.handles| == |s.handles|
      && forall h :: 0 <= h < |s.handles| ==> Served(s.handles[h], s'.handles[h])
    decreases s.pipe, Rank(s), StepsLeft(s)
  {
    match LoopNext(s, false)
    case None =>
      events := [];
      forall h | 0 <= h < |s.handles| ensures Served(s.handles[h], s.handles[h]) {
        assert HandleOk(s, h);
      }
    case Some(s1) =>
      LoopKeeps(s, false);
      var rest := EverySendIsServed(s1);
      events := [LoopStep(false)] + rest;
      assert events[1..] == rest && Run(s, events) == Run(s1, rest);
      forall h | 0 <= h < |s.handles| ensures Served(s.handles[h], Run(s, events).handles[h]) {
        assert HandleOk(s, h) && HandleOk(s1, h);
        assert Served(s1.handles[h], Run(s1, rest).handles[h]);
      }
  }
}
