/** The cothread scheduler of gevent.c over single-use stack handles: switching, sleeping, waiting,
    channels and semaphores.  One method call is what happens between two points where user code
    (or the event loop) is in control, across the switch from one stack to another. */
module SchedulerState {
  import opened Options

  datatype State = Current | New | Ready | Dead | ChannelR | ChannelS | WaitingTimer

  /** `state`, `stacklet` and `op.channel.value` of a cothread. */
  datatype Cothread = Cothread(state: State, stacklet: Option<nat>, value: int)

  /** A channel of its own, or the one inside a semaphore. */
  datatype Name = Plain(id: nat) | OfSemaphore(id: nat)

  datatype Channel = Channel(receivers: seq<nat>, senders: seq<nat>)

  /** What a suspended stack does after gevent_switch or gevent_switch_to_hub has returned in it. */
  datatype Rest = Return | StopTimer | Receiving(c: Name) | Sending(c: Name)

  /** A suspended stack: the local variable `current` (None in the event loop) and what is left to do. */
  datatype Stack = Stack(current: Option<nat>, rest: Rest)

  /** What a switch hands to its target: the stack left behind, or EMPTY_STACKLET_HANDLE. */
  datatype Source = Empty | Handle(h: nat)

  /** Calls on a channel in the order in which they were made, without those that the fallback to
      `main` broke off: the values sent, and what each receive returned (None while it blocks). */
  datatype Log = Log(sent: seq<int>, got: seq<Option<int>>)

  /** Calls on a semaphore: release calls made and acquire calls that were granted. */
  datatype Account = Account(initial: int, released: nat, granted: nat)

  const MAIN: nat := 0

  // ---- the invariants, part by part ----

  /** `rest` says of every started, live cothread what its stack has left to do.  Each of them, except
      the running one, owns a stack of its own, and so does the event loop if it is suspended. */
  ghost predicate Stacks(co: map<nat, Cothread>, current: Option<nat>, hub: Option<nat>,
                         suspended: map<nat, Stack>, next: nat, rest: map<nat, Rest>) {
    && MAIN in rest
    && (forall t | t in rest :: t in co && co[t].state != New && co[t].state != Dead)
    && (forall t | t in co && t !in rest :: co[t].state == New || co[t].state == Dead)
    && (current.Some? ==> current.value in rest)
    && (forall t | t in rest && current != Some(t) ::
          co[t].stacklet.Some? && co[t].stacklet.value in suspended
          && suspended[co[t].stacklet.value] == Stack(Some(t), rest[t]))
    && (hub.Some? ==> hub.value in suspended && suspended[hub.value] == Stack(None, Return))
    && (forall h | h in suspended :: h < next && Owned(h, suspended[h].current, co, current, hub, rest))
  }

  ghost predicate Owned(h: nat, owner: Option<nat>, co: map<nat, Cothread>, current: Option<nat>,
                        hub: Option<nat>, rest: map<nat, Rest>) {
    match owner
    case None => hub == Some(h)
    case Some(t) => t in rest && t in co && current != Some(t) && co[t].stacklet == Some(h)
  }

  /** Where a cothread is queued, by what it is in the middle of; `due` is being woken. */
  ghost predicate Placed(t: nat, state: State, r: Rest, ready: seq<nat>, ch: map<Name, Channel>,
                         timers: set<nat>, due: Option<nat>) {
    match r
    case Return => state == Current || (state == Ready && (t in ready || due == Some(t)))
    case StopTimer => state == WaitingTimer && (t in timers || due == Some(t))
    case Receiving(c) => state == ChannelR && c in ch && t in ch[c].receivers
    case Sending(c) => state == ChannelS && c in ch && t in ch[c].senders
  }

  ghost predicate Queues(co: map<nat, Cothread>, ready: seq<nat>, ch: map<Name, Channel>,
                         timers: set<nat>, rest: map<nat, Rest>, due: Option<nat>) {
    && (forall t | t in rest :: t in co && Placed(t, co[t].state, rest[t], ready, ch, timers, due))
    && Distinct(ready)
    && (forall t | t in ready :: t in rest && rest[t] == Return && co[t].state == Ready && due != Some(t))
    && (forall t | t in timers :: t in rest && rest[t] == StopTimer && due != Some(t))
    && (forall c | c in ch :: Distinct(ch[c].receivers) && Distinct(ch[c].senders))
    && (forall c, t | c in ch && t in ch[c].receivers :: t in rest && rest[t] == Receiving(c))
    && (forall c, t | c in ch && t in ch[c].senders :: t in rest && rest[t] == Sending(c))
  }

  /** First come, first served: of the calls on a channel the k-th send and the k-th receive belong
      together; what is left of one side waits in its queue. */
  ghost predicate Fifo(co: map<nat, Cothread>, k: Channel, l: Log) {
    && (k.receivers == [] || k.senders == [])
    && |l.sent| - |k.senders| == |l.got| - |k.receivers| >= 0
    && (forall i | 0 <= i < |l.got| - |k.receivers| :: l.got[i] == Some(l.sent[i]))
    && (forall i | |l.got| - |k.receivers| <= i < |l.got| :: l.got[i] == None)
    && (forall j | 0 <= j < |k.senders| ::
          k.senders[j] in co && co[k.senders[j]].value == l.sent[|l.sent| - |k.senders| + j])
  }

  ghost predicate Fifos(co: map<nat, Cothread>, ch: map<Name, Channel>, logs: map<Name, Log>) {
    ch.Keys == logs.Keys && forall c | c in ch :: Fifo(co, ch[c], logs[c])
  }

  /** Nothing is granted that was not released or there from the start. */
  ghost predicate Balanced(k: Channel, n: int, a: Account) {
    && k.senders == []
    && (0 < n ==> k.receivers == [])
    && a.initial + a.released == n + a.granted
    && (0 <= a.initial ==> 0 <= n)
  }

  ghost predicate Semaphores(ch: map<Name, Channel>, counter: map<nat, int>, accounts: map<nat, Account>) {
    && counter.Keys == accounts.Keys
    && (forall s | s in counter :: OfSemaphore(s) in ch && Balanced(ch[OfSemaphore(s)], counter[s], accounts[s]))
    && (forall s | OfSemaphore(s) in ch :: s in counter)
  }

  /** exit_fn has run once for every dead cothread. */
  ghost predicate Exits(co: map<nat, Cothread>, exits: seq<nat>) {
    && Distinct(exits)
    && (forall t | t in exits :: t in co && co[t].state == Dead)
    && (forall t | t in co && co[t].state == Dead :: t in exits)
  }

  // ---- what a switch does to the records ----

  /** The context left behind is noted: its new handle, or its death. */
  function Noted(co: map<nat, Cothread>, current: Option<nat>, source: Source): map<nat, Cothread>
    requires current.Some? ==> current.value in co
  {
    if current.None? then co
    else if source.Empty? then co[current.value := co[current.value].(state := Dead, stacklet := None)]
    else co[current.value := co[current.value].(stacklet := Some(source.h))]
  }

  function Entered(co: map<nat, Cothread>, to: Option<nat>): map<nat, Cothread>
    requires to.Some? ==> to.value in co
  {
    if to.None? then co else co[to.value := co[to.value].(state := Current, stacklet := None)]
  }

  function Moved(co: map<nat, Cothread>, current: Option<nat>, source: Source, to: Option<nat>): map<nat, Cothread>
    requires current.Some? ==> current.value in co
    requires to.Some? ==> to.value in co
  {
    Entered(Noted(co, current, source), to)
  }

  /** The handle that resumes the event loop, after a switch. */
  function HubHandle(hub: Option<nat>, current: Option<nat>, source: Source, to: Option<nat>): Option<nat> {
    if to.None? then None
    else if current.Some? then hub
    else if source.Empty? then None else Some(source.h)
  }

  function RestOf(current: Option<nat>, rest: map<nat, Rest>): Rest
    requires current.Some? ==> current.value in rest
  {
    if current.Some? then rest[current.value] else Return
  }

  function Returned(rest: map<nat, Rest>, to: Option<nat>): map<nat, Rest> {
    if to.Some? then rest[to.value := Return] else rest
  }

  /** Leaving: the running stack, too, is suspended under a fresh handle, and nothing runs. */
  lemma LeaveStacks(co: map<nat, Cothread>, current: Option<nat>, hub: Option<nat>,
                    suspended: map<nat, Stack>, next: nat, rest: map<nat, Rest>)
    requires Stacks(co, current, hub, suspended, next, rest) && (current.None? ==> hub.None?)
    ensures Stacks(Noted(co, current, Handle(next)), None, if current.None? then Some(next) else hub,
                   suspended[next := Stack(current, RestOf(current, rest))], next + 1, rest)
  {
    forall h | h in suspended ensures h != next && Owned(h, suspended[h].current, co, current, hub, rest) {}
  }

  /** Entering a suspended stack uses up its handle. */
  lemma EnterStacks(co: map<nat, Cothread>, hub: Option<nat>,
                    suspended: map<nat, Stack>, next: nat, rest: map<nat, Rest>, h: nat)
    requires Stacks(co, None, hub, suspended, next, rest) && h in suspended
    ensures var to := suspended[h].current;
            && (to.Some? ==> to.value in co)
            && Stacks(Entered(co, to), to, if to.None? then None else hub, suspended - {h}, next, Returned(rest, to))
  {
    assert Owned(h, suspended[h].current, co, None, hub, rest);
    forall k | k in suspended ensures Owned(k, suspended[k].current, co, None, hub, rest) {}
  }

  lemma StartStacks(co: map<nat, Cothread>, hub: Option<nat>,
                    suspended: map<nat, Stack>, next: nat, rest: map<nat, Rest>, t: nat)
    requires Stacks(co, None, hub, suspended, next, rest)
    requires t in co && co[t].state == New
    ensures Stacks(Entered(co, Some(t)), Some(t), hub, suspended, next, rest[t := Return])
  {
    forall k | k in suspended ensures Owned(k, suspended[k].current, co, None, hub, rest) {}
  }

  /** The end of the running stack. */
  lemma EndStacks(co: map<nat, Cothread>, current: Option<nat>, hub: Option<nat>,
                  suspended: map<nat, Stack>, next: nat, rest: map<nat, Rest>)
    requires Stacks(co, current, hub, suspended, next, rest) && current != Some(MAIN)
    ensures Stacks(Noted(co, current, Empty), None, hub, suspended, next,
                   if current.Some? then rest - {current.value} else rest)
  {
    forall k | k in suspended ensures Owned(k, suspended[k].current, co, current, hub, rest) {}
  }

  /** A switch to a live cothread, or to the event loop, kills nobody and changes one state. */
  lemma MovedFacts(co: map<nat, Cothread>, current: Option<nat>, n: nat, to: Option<nat>, exits: seq<nat>)
    requires current.Some? ==> current.value in co
    requires to.Some? ==> to.value in co && co[to.value].state != Dead
    requires Exits(co, exits)
    ensures var m := Moved(co, current, Handle(n), to);
            && m.Keys == co.Keys && Exits(m, exits)
            && forall u | u in co :: m[u].value == co[u].value
                                     && m[u].state == if to == Some(u) then Current else co[u].state
  {
  }

  /** A handle leads to the stack of its owner, which does not run. */
  lemma OwnerOf(co: map<nat, Cothread>, current: Option<nat>, hub: Option<nat>,
                suspended: map<nat, Stack>, next: nat, rest: map<nat, Rest>, h: nat)
    requires Stacks(co, current, hub, suspended, next, rest) && (current.None? ==> hub.None?)
    requires h in suspended
    ensures h < next && (current.Some? ==> current.value in co && current.value in rest)
    ensures var to := suspended[h].current;
            && current != to
            && (to.Some? ==> to.value in co && to.value in rest && suspended[h].rest == rest[to.value]
                             && co[to.value].state != Dead)
            && (to.None? ==> suspended[h].rest == Return)
  {
    assert Owned(h, suspended[h].current, co, current, hub, rest);
  }

  /** A switch to a suspended stack. */
  lemma SwitchedStacks(co: map<nat, Cothread>, current: Option<nat>, hub: Option<nat>,
                       suspended: map<nat, Stack>, next: nat, rest: map<nat, Rest>, h: nat)
    requires Stacks(co, current, hub, suspended, next, rest) && (current.None? ==> hub.None?)
    requires h in suspended
    ensures h < next
    ensures var to := suspended[h].current;
            && current != to && (to.Some? ==> to.value in co && to.value in rest && suspended[h].rest == rest[to.value])
            && (to.None? ==> suspended[h].rest == Return)
            && Stacks(Moved(co, current, Handle(next), to), to, HubHandle(hub, current, Handle(next), to),
                      suspended[next := Stack(current, RestOf(current, rest))] - {h}, next + 1, Returned(rest, to))
  {
    hide Stacks, Owned;
    OwnerOf(co, current, hub, suspended, next, rest, h);
    LeaveStacks(co, current, hub, suspended, next, rest);
    EnterStacks(Noted(co, current, Handle(next)), if current.None? then Some(next) else hub,
                suspended[next := Stack(current, RestOf(current, rest))], next + 1, rest, h);
  }

  /** A switch to a new cothread. */
  lemma StartedStacks(co: map<nat, Cothread>, current: Option<nat>, hub: Option<nat>,
                      suspended: map<nat, Stack>, next: nat, rest: map<nat, Rest>, t: nat)
    requires Stacks(co, current, hub, suspended, next, rest) && (current.None? ==> hub.None?)
    requires t in co && co[t].state == New
    ensures current != Some(t) && t !in rest && (current.Some? ==> current.value in co)
    ensures Stacks(Moved(co, current, Handle(next), Some(t)), Some(t),
                   HubHandle(hub, current, Handle(next), Some(t)),
                   suspended[next := Stack(current, RestOf(current, rest))], next + 1, rest[t := Return])
  {
    assert current != Some(t) && t !in rest && (current.Some? ==> current.value in co);
    LeaveStacks(co, current, hub, suspended, next, rest);
    hide Stacks, Owned;
    StartStacks(Noted(co, current, Handle(next)), if current.None? then Some(next) else hub,
                suspended[next := Stack(current, RestOf(current, rest))], next + 1, rest, t);
  }

  // ---- the queues ----

  /** ngx_queue_remove. */
  function Without(s: seq<nat>, t: nat): seq<nat> {
    if s == [] then [] else if s[0] == t then s[1..] else [s[0]] + Without(s[1..], t)
  }

  lemma {:induction false} WithoutMembers(s: seq<nat>, t: nat)
    requires Distinct(s)
    ensures Distinct(Without(s, t)) && t !in Without(s, t)
    ensures forall u | u != t :: u in Without(s, t) <==> u in s
    ensures |Without(s, t)| == if t in s then |s| - 1 else |s|
  {
    if s != [] {
      var r := s[1..];
      assert s == [s[0]] + r;
      assert forall i | 0 <= i < |r| :: r[i] == s[i + 1];
      assert Distinct(r) && s[0] !in r;
      if s[0] != t {
        WithoutMembers(r, t);
        var w := Without(r, t);
        assert forall i | 0 < i < |[s[0]] + w| :: ([s[0]] + w)[i] == w[i - 1];
      }
    }
  }

  /** What the woken stack does to the channel it waited in. */
  function Unqueued(ch: map<Name, Channel>, r: Rest, t: nat): map<Name, Channel> {
    match r
    case Receiving(c) => if c in ch then ch[c := ch[c].(receivers := Without(ch[c].receivers, t))] else ch
    case Sending(c) => if c in ch then ch[c := ch[c].(senders := Without(ch[c].senders, t))] else ch
    case _ => ch
  }

  lemma WakeReceiver(co: map<nat, Cothread>, co': map<nat, Cothread>, ready: seq<nat>, ch: map<Name, Channel>,
                     timers: set<nat>, rest: map<nat, Rest>, due: Option<nat>, t: nat, c: Name)
    requires Queues(co, ready, ch, timers, rest, due)
    requires t in rest && rest[t] == Receiving(c) && (due == None || due == Some(t))
    requires co'.Keys == co.Keys
    requires forall u | u in rest :: co'[u].state == if u == t then Current else co[u].state
    ensures Queues(co', ready, Unqueued(ch, rest[t], t), timers, rest[t := Return], None)
  {
    hide Distinct;
    WithoutMembers(ch[c].receivers, t);
    hide Without;
  }

  lemma WakeSender(co: map<nat, Cothread>, co': map<nat, Cothread>, ready: seq<nat>, ch: map<Name, Channel>,
                   timers: set<nat>, rest: map<nat, Rest>, due: Option<nat>, t: nat, c: Name)
    requires Queues(co, ready, ch, timers, rest, due)
    requires t in rest && rest[t] == Sending(c) && (due == None || due == Some(t))
    requires co'.Keys == co.Keys
    requires forall u | u in rest :: co'[u].state == if u == t then Current else co[u].state
    ensures Queues(co', ready, Unqueued(ch, rest[t], t), timers, rest[t := Return], None)
  {
    hide Distinct;
    WithoutMembers(ch[c].senders, t);
    hide Without;
  }

  /** Waking a cothread takes it out of the queue it is in. */
  lemma WakeQueues(co: map<nat, Cothread>, co': map<nat, Cothread>, ready: seq<nat>, ch: map<Name, Channel>,
                   timers: set<nat>, rest: map<nat, Rest>, due: Option<nat>, t: nat)
    requires Queues(co, ready, ch, timers, rest, due)
    requires t in rest && t !in ready && (due == None || due == Some(t))
    requires co'.Keys == co.Keys
    requires forall u | u in rest :: co'[u].state == if u == t then Current else co[u].state
    ensures Queues(co', ready, Unqueued(ch, rest[t], t), timers - {t}, rest[t := Return], None)
  {
    match rest[t]
    case Receiving(c) =>
      assert timers - {t} == timers;
      WakeReceiver(co, co', ready, ch, timers, rest, due, t, c);
    case Sending(c) =>
      assert timers - {t} == timers;
      WakeSender(co, co', ready, ch, timers, rest, due, t, c);
    case _ =>
  }

  /** A new cothread is in no queue. */
  lemma StartQueues(co: map<nat, Cothread>, co': map<nat, Cothread>, ready: seq<nat>, ch: map<Name, Channel>,
                    timers: set<nat>, rest: map<nat, Rest>, t: nat)
    requires Queues(co, ready, ch, timers, rest, None) && t !in rest
    requires co'.Keys == co.Keys && t in co && co'[t].state == Current
    requires forall u | u in rest :: co'[u].state == co[u].state
    ensures Queues(co', ready, ch, timers, rest[t := Return], None)
  {
  }

  /** Nor is one that runs to its end. */
  lemma EndQueues(co: map<nat, Cothread>, co': map<nat, Cothread>, ready: seq<nat>, ch: map<Name, Channel>,
                  timers: set<nat>, rest: map<nat, Rest>, due: Option<nat>, c: nat)
    requires Queues(co, ready, ch, timers, rest, due)
    requires c in rest && rest[c] == Return && co[c].state == Current
    requires co'.Keys == co.Keys && forall u | u in rest && u != c :: co'[u].state == co[u].state
    ensures Queues(co', ready, ch, timers, rest - {c}, due)
  {
  }

  // ---- first come, first served ----

  function Removed<T>(s: seq<T>, i: nat): seq<T>
    requires i < |s|
  {
    s[..i] + s[i + 1..]
  }

  function IndexOf(s: seq<nat>, t: nat): (i: nat)
    requires t in s
    ensures i < |s| && s[i] == t && Without(s, t) == Removed(s, i)
  {
    if s[0] == t then
      assert Removed(s, 0) == s[1..];
      0
    else
      var i := IndexOf(s[1..], t);
      assert Removed(s, i + 1) == [s[0]] + Removed(s[1..], i);
      i + 1
  }

  /** A call of gevent_channel_receive by `me`, up to where the next context is in control. */
  ghost predicate ReceiveCall(me: nat, c: Name, ready: seq<nat>, ch: map<Name, Channel>, logs: map<Name, Log>,
                              current': Option<nat>, ready': seq<nat>, ch': map<Name, Channel>, logs': map<Name, Log>) {
    && c in ch && c in logs
    && var k, l := ch[c], logs[c];
       if k.senders == [] then
         && current' == (if ready == [] then None else Some(ready[0]))
         && ready' == (if ready == [] then [] else ready[1..])
         && ch' == ch[c := Channel(k.receivers + [me], [])]
         && logs' == logs[c := l.(got := l.got + [None])]
       else
         && current' == Some(k.senders[0]) && ready' == ready + [me]
         && ch' == ch[c := k.(senders := k.senders[1..])]
         && |k.senders| <= |l.sent|
         && logs' == logs[c := l.(got := l.got + [Some(l.sent[|l.sent| - |k.senders|])])]
  }

  /** A call of gevent_channel_send by `me`. */
  ghost predicate SendCall(me: nat, c: Name, value: int, ready: seq<nat>, ch: map<Name, Channel>, logs: map<Name, Log>,
                           current': Option<nat>, ready': seq<nat>, ch': map<Name, Channel>, logs': map<Name, Log>) {
    && c in ch && c in logs
    && var k, l := ch[c], logs[c];
       if k.receivers == [] then
         && current' == (if ready == [] then None else Some(ready[0]))
         && ready' == (if ready == [] then [] else ready[1..])
         && ch' == ch[c := Channel([], k.senders + [me])]
         && logs' == logs[c := l.(sent := l.sent + [value])]
       else
         && current' == Some(k.receivers[0]) && ready' == ready + [me]
         && ch' == ch[c := k.(receivers := k.receivers[1..])]
         && |k.receivers| <= |l.got|
         && logs' == logs[c := Log(l.sent + [value], l.got[|l.got| - |k.receivers| := Some(value)])]
  }

  /** A call that blocks joins the end of its queue. */
  lemma FifoBlocks(co: map<nat, Cothread>, k: Channel, l: Log, t: nat, v: int)
    requires Fifo(co, k, l) && t in co
    ensures k.senders == [] ==>
      Fifo(co, k.(receivers := k.receivers + [t]), l.(got := l.got + [None]))
    ensures k.receivers == [] && co[t].value == v ==>
      Fifo(co, k.(senders := k.senders + [t]), l.(sent := l.sent + [v]))
  {
  }

  /** A send that meets a waiting receive completes the oldest one. */
  lemma FifoDelivers(co: map<nat, Cothread>, k: Channel, l: Log, v: int)
    requires Fifo(co, k, l) && k.receivers != []
    ensures Fifo(co, k.(receivers := k.receivers[1..]),
                 Log(l.sent + [v], l.got[|l.got| - |k.receivers| := Some(v)]))
  {
  }

  /** A receive that meets a waiting send takes the value of the oldest one. */
  lemma FifoTakes(co: map<nat, Cothread>, k: Channel, l: Log)
    requires Fifo(co, k, l) && k.senders != []
    ensures k.senders[0] in co
    ensures Fifo(co, k.(senders := k.senders[1..]), l.(got := l.got + [Some(co[k.senders[0]].value)]))
  {
  }

  /** The fallback to `main` breaks off the call in which `main` waits. */
  function Broken(ch: map<Name, Channel>, logs: map<Name, Log>, r: Rest, t: nat): map<Name, Log>
    requires forall c | c in ch :: c in logs && |ch[c].receivers| <= |logs[c].got| && |ch[c].senders| <= |logs[c].sent|
  {
    match r
    case Receiving(c) =>
      if c in ch && t in ch[c].receivers then
        var l := logs[c];
        logs[c := l.(got := Removed(l.got, |l.got| - |ch[c].receivers| + IndexOf(ch[c].receivers, t)))]
      else logs
    case Sending(c) =>
      if c in ch && t in ch[c].senders then
        var l := logs[c];
        logs[c := l.(sent := Removed(l.sent, |l.sent| - |ch[c].senders| + IndexOf(ch[c].senders, t)))]
      else logs
    case _ => logs
  }

  lemma FifoBreaks(co: map<nat, Cothread>, k: Channel, l: Log, i: nat)
    requires Fifo(co, k, l)
    ensures i < |k.receivers| ==>
      Fifo(co, k.(receivers := Removed(k.receivers, i)), l.(got := Removed(l.got, |l.got| - |k.receivers| + i)))
    ensures i < |k.senders| ==>
      Fifo(co, k.(senders := Removed(k.senders, i)), l.(sent := Removed(l.sent, |l.sent| - |k.senders| + i)))
  {
  }

  lemma FifosSizes(co: map<nat, Cothread>, ch: map<Name, Channel>, logs: map<Name, Log>)
    requires Fifos(co, ch, logs)
    ensures forall c | c in ch ::
      c in logs && |ch[c].receivers| <= |logs[c].got| && |ch[c].senders| <= |logs[c].sent|
  {
    forall c | c in ch ensures Fifo(co, ch[c], logs[c]) {}
  }

  lemma FifosBreak(co: map<nat, Cothread>, ch: map<Name, Channel>, logs: map<Name, Log>, r: Rest, t: nat)
    requires Fifos(co, ch, logs)
    requires r.Receiving? ==> r.c in ch && t in ch[r.c].receivers
    requires r.Sending? ==> r.c in ch && t in ch[r.c].senders
    ensures forall c | c in ch :: c in logs && |ch[c].receivers| <= |logs[c].got| && |ch[c].senders| <= |logs[c].sent|
    ensures Fifos(co, Unqueued(ch, r, t), Broken(ch, logs, r, t))
  {
    FifosSizes(co, ch, logs);
    match r
    case Receiving(c) => BreakReceive(co, ch, logs, t, c);
    case Sending(c) => BreakSend(co, ch, logs, t, c);
    case _ =>
  }

  lemma BreakReceive(co: map<nat, Cothread>, ch: map<Name, Channel>, logs: map<Name, Log>, t: nat, c: Name)
    requires Fifos(co, ch, logs) && c in ch && t in ch[c].receivers
    ensures forall d | d in ch :: d in logs && |ch[d].receivers| <= |logs[d].got| && |ch[d].senders| <= |logs[d].sent|
    ensures Fifos(co, Unqueued(ch, Receiving(c), t), Broken(ch, logs, Receiving(c), t))
  {
    hide Fifo, Without, Removed;
    FifosSizes(co, ch, logs);
    var i, k, l := IndexOf(ch[c].receivers, t), ch[c], logs[c];
    FifoBreaks(co, k, l, i);
    FifosUpdate(co, co, ch, logs, c, k.(receivers := Removed(k.receivers, i)),
                l.(got := Removed(l.got, |l.got| - |k.receivers| + i)));
  }

  lemma BreakSend(co: map<nat, Cothread>, ch: map<Name, Channel>, logs: map<Name, Log>, t: nat, c: Name)
    requires Fifos(co, ch, logs) && c in ch && t in ch[c].senders
    ensures forall d | d in ch :: d in logs && |ch[d].receivers| <= |logs[d].got| && |ch[d].senders| <= |logs[d].sent|
    ensures Fifos(co, Unqueued(ch, Sending(c), t), Broken(ch, logs, Sending(c), t))
  {
    hide Fifo, Without, Removed;
    FifosSizes(co, ch, logs);
    var i, k, l := IndexOf(ch[c].senders, t), ch[c], logs[c];
    FifoBreaks(co, k, l, i);
    FifosUpdate(co, co, ch, logs, c, k.(senders := Removed(k.senders, i)),
                l.(sent := Removed(l.sent, |l.sent| - |k.senders| + i)));
  }

  /** What happens in one channel leaves the others as they were. */
  lemma FifosUpdate(co: map<nat, Cothread>, co': map<nat, Cothread>, ch: map<Name, Channel>,
                    logs: map<Name, Log>, c: Name, k: Channel, l: Log)
    requires Fifos(co, ch, logs) && c in ch && co'.Keys == co.Keys
    requires forall d, t | d in ch && d != c && t in ch[d].senders && t in co :: co'[t].value == co[t].value
    requires Fifo(co', k, l)
    ensures Fifos(co', ch[c := k], logs[c := l])
  {
    forall d | d in ch && d != c ensures Fifo(co', ch[d], logs[d]) {
      assert Fifo(co, ch[d], logs[d]);
    }
  }

  // ---- the whole state between two steps ----

  datatype Snapshot = Snapshot(co: map<nat, Cothread>, current: Option<nat>, hub: Option<nat>, ready: seq<nat>,
                               ch: map<Name, Channel>, timers: set<nat>, suspended: map<nat, Stack>, next: nat,
                               used: set<nat>, rest: map<nat, Rest>, exits: seq<nat>)

  /** Every handle is given out once and used at most once; every stack and every queue entry is
      accounted for; `due` is the cothread about to be woken, already taken off its queue. */
  ghost predicate Consistent(s: Snapshot, due: Option<nat>) {
    && Stacks(s.co, s.current, s.hub, s.suspended, s.next, s.rest)
    && Queues(s.co, s.ready, s.ch, s.timers, s.rest, due)
    && (s.current.None? ==> s.hub.None? && s.ready == [])
    && Exits(s.co, s.exits)
    && forall h | h in s.used :: h < s.next && h !in s.suspended
  }

  /** After a switch from the stack that runs, to go on at `r`, to the stack of `h`. */
  function Switched(s: Snapshot, h: nat, r: Rest): Snapshot
    requires h in s.suspended && (s.current.Some? ==> s.current.value in s.co)
    requires var to := s.suspended[h].current; to.Some? ==> to.value in s.co && to.value in s.rest
  {
    var to := s.suspended[h].current;
    s.(co := Moved(s.co, s.current, Handle(s.next), to),
       current := to,
       hub := HubHandle(s.hub, s.current, Handle(s.next), to),
       suspended := s.suspended[s.next := Stack(s.current, r)] - {h},
       next := s.next + 1,
       used := s.used + {h},
       ch := if to.Some? then Unqueued(s.ch, s.rest[to.value], to.value) else s.ch,
       timers := if to.Some? && s.rest[to.value] == StopTimer then s.timers - {to.value} else s.timers,
       rest := Returned(s.rest, to))
  }

  /** After a switch to a new cothread. */
  function Started(s: Snapshot, t: nat, r: Rest): Snapshot
    requires t in s.co && (s.current.Some? ==> s.current.value in s.co)
  {
    s.(co := Moved(s.co, s.current, Handle(s.next), Some(t)),
       current := Some(t),
       hub := HubHandle(s.hub, s.current, Handle(s.next), Some(t)),
       suspended := s.suspended[s.next := Stack(s.current, r)],
       next := s.next + 1,
       rest := s.rest[t := Return])
  }

  /** After a switch to the event loop on a new stack. */
  function LoopStarted(s: Snapshot, r: Rest): Snapshot
    requires s.current.Some? ==> s.current.value in s.co
  {
    s.(co := Moved(s.co, s.current, Handle(s.next), None),
       current := None,
       hub := None,
       suspended := s.suspended[s.next := Stack(s.current, r)],
       next := s.next + 1)
  }

  /** After the end of the stack that runs, and the switch to the stack of `h`. */
  function Ended(s: Snapshot, h: nat): Snapshot
    requires h in s.suspended && (s.current.Some? ==> s.current.value in s.co)
    requires var to := s.suspended[h].current; to.Some? ==> to.value in s.co && to.value in s.rest
  {
    var to := s.suspended[h].current;
    s.(co := Moved(s.co, s.current, Empty, to),
       current := to,
       hub := HubHandle(s.hub, s.current, Empty, to),
       suspended := s.suspended - {h},
       used := s.used + {h},
       ch := if to.Some? then Unqueued(s.ch, s.rest[to.value], to.value) else s.ch,
       timers := if to.Some? && s.rest[to.value] == StopTimer then s.timers - {to.value} else s.timers,
       rest := Returned(if s.current.Some? then s.rest - {s.current.value} else s.rest, to),
       exits := s.exits + if s.current.Some? then [s.current.value] else [])
  }

  /** The handle of a suspended cothread is unused and leads to its own stack. */
  lemma HandleOf(s: Snapshot, due: Option<nat>, t: nat)
    requires Consistent(s, due) && t in s.rest && s.current != Some(t)
    ensures t in s.co && s.co[t].state != Dead && s.co[t].stacklet.Some?
    ensures var h := s.co[t].stacklet.value;
            h in s.suspended && h !in s.used && h < s.next && s.suspended[h] == Stack(Some(t), s.rest[t])
  {
  }

  lemma HubHandleOf(s: Snapshot, due: Option<nat>)
    requires Consistent(s, due)
    ensures s.hub.Some? ==> s.hub.value in s.suspended && s.hub.value !in s.used && s.hub.value < s.next
                            && s.suspended[s.hub.value] == Stack(None, Return)
    ensures s.current.Some? ==> s.current.value in s.co && s.current.value in s.rest
    ensures forall u | u in s.rest :: u in s.co
  {
  }

  /** The queues depend on nothing of a cothread but its state. */
  lemma QueuesDepend(co: map<nat, Cothread>, co': map<nat, Cothread>, ready: seq<nat>, ch: map<Name, Channel>,
                     timers: set<nat>, rest: map<nat, Rest>, due: Option<nat>)
    requires Queues(co, ready, ch, timers, rest, due)
    requires co'.Keys == co.Keys && forall u | u in rest && u in co :: co'[u].state == co[u].state
    ensures Queues(co', ready, ch, timers, rest, due)
  {
  }

  lemma SwitchedQueues(s: Snapshot, due: Option<nat>, h: nat, r: Rest)
    requires Queues(s.co, s.ready, s.ch, s.timers, s.rest, due) && h in s.suspended
    requires s.current.Some? ==> s.current.value in s.co
    requires match s.suspended[h].current
             case None => due == None
             case Some(t) => t in s.rest && t in s.co && t !in s.ready && (due == None || due == Some(t))
    ensures var e := Switched(s, h, r); Queues(e.co, e.ready, e.ch, e.timers, e.rest, None)
  {
    var to := s.suspended[h].current;
    var m := Moved(s.co, s.current, Handle(s.next), to);
    if to.Some? {
      assert s.rest[to.value] != StopTimer ==> s.timers - {to.value} == s.timers;
      WakeQueues(s.co, m, s.ready, s.ch, s.timers, s.rest, due, to.value);
    } else {
      QueuesDepend(s.co, m, s.ready, s.ch, s.timers, s.rest, None);
    }
  }

  /** Switching back keeps everything consistent. */
  lemma SwitchKeeps(s: Snapshot, due: Option<nat>, t: nat)
    requires Consistent(s, due) && t in s.rest && s.current != Some(t) && t !in s.ready
    requires due == None || due == Some(t)
    ensures t in s.co && s.co[t].stacklet.Some? && (s.current.Some? ==> s.current.value in s.rest && s.current.value in s.co)
    ensures var h := s.co[t].stacklet.value;
      && h in s.suspended && s.suspended[h].current == Some(t)
      && Consistent(Switched(s, h, RestOf(s.current, s.rest)), None)
  {
    hide Owned, Placed, Exits, Moved, Unqueued, Queues, Stacks;
    HandleOf(s, due, t);
    HubHandleOf(s, due);
    var h := s.co[t].stacklet.value;
    SwitchedStacks(s.co, s.current, s.hub, s.suspended, s.next, s.rest, h);
    MovedFacts(s.co, s.current, s.next, Some(t), s.exits);
    SwitchedQueues(s, due, h, RestOf(s.current, s.rest));
  }

  lemma StartKeeps(s: Snapshot, t: nat)
    requires Consistent(s, None) && t in s.co && s.co[t].state == New
    ensures t !in s.rest && (s.current.Some? ==> s.current.value in s.rest && s.current.value in s.co)
    ensures Consistent(Started(s, t, RestOf(s.current, s.rest)), None)
  {
    hide Owned, Placed, Exits, Moved, Queues, Stacks;
    HubHandleOf(s, None);
    StartedStacks(s.co, s.current, s.hub, s.suspended, s.next, s.rest, t);
    MovedFacts(s.co, s.current, s.next, Some(t), s.exits);
    StartQueues(s.co, Moved(s.co, s.current, Handle(s.next), Some(t)), s.ready, s.ch, s.timers, s.rest, t);
  }

  lemma ResumeLoopKeeps(s: Snapshot)
    requires Consistent(s, None) && s.current.Some? && s.ready == [] && s.hub.Some?
    ensures s.current.value in s.rest && s.current.value in s.co
    ensures s.hub.value in s.suspended && s.suspended[s.hub.value].current == None
    ensures Consistent(Switched(s, s.hub.value, RestOf(s.current, s.rest)), None)
  {
    hide Owned, Placed, Exits, Moved, Queues, Stacks;
    HubHandleOf(s, None);
    SwitchedStacks(s.co, s.current, s.hub, s.suspended, s.next, s.rest, s.hub.value);
    MovedFacts(s.co, s.current, s.next, None, s.exits);
    SwitchedQueues(s, None, s.hub.value, RestOf(s.current, s.rest));
  }

  lemma StartLoopKeeps(s: Snapshot)
    requires Consistent(s, None) && s.current.Some? && s.ready == [] && s.hub.None?
    ensures s.current.value in s.rest && s.current.value in s.co
    ensures Consistent(LoopStarted(s, RestOf(s.current, s.rest)), None)
  {
    hide Owned, Placed, Exits, Queues, Stacks;
    HubHandleOf(s, None);
    LeaveStacks(s.co, s.current, s.hub, s.suspended, s.next, s.rest);
    MovedFacts(s.co, s.current, s.next, None, s.exits);
    QueuesDepend(s.co, Moved(s.co, s.current, Handle(s.next), None), s.ready, s.ch, s.timers, s.rest, None);
  }

  lemma EndExits(co: map<nat, Cothread>, current: Option<nat>, to: Option<nat>, exits: seq<nat>)
    requires Exits(co, exits) && current != to
    requires current.Some? ==> current.value in co && co[current.value].state != Dead
    requires to.Some? ==> to.value in co && co[to.value].state != Dead
    ensures Exits(Moved(co, current, Empty, to), exits + if current.Some? then [current.value] else [])
  {
  }

  /** The end of a cothread or of the event loop, and the switch to a cothread that is not queued as
      ready any more, or to the event loop. */
  lemma EndKeeps(s: Snapshot, due: Option<nat>, h: nat)
    requires Consistent(s, due) && h in s.suspended && s.current != Some(MAIN)
    requires s.current.Some? ==> s.current.value in s.rest && s.rest[s.current.value] == Return
                                 && s.current.value in s.co && s.co[s.current.value].state == Current
    requires match s.suspended[h].current
             case None => due == None && s.ready == []
             case Some(t) => t !in s.ready && (due == None || due == Some(t))
    ensures var to := s.suspended[h].current; to != s.current && (to.Some? ==> to.value in s.rest && to.value in s.co)
    ensures Consistent(Ended(s, h), None)
  {
    hide Owned, Placed, Exits, Moved, Queues, Stacks, Unqueued, RestOf;
    var to := s.suspended[h].current;
    OwnerOf(s.co, s.current, s.hub, s.suspended, s.next, s.rest, h);
    EndedStacks(s, due, h);
    EndExits(s.co, s.current, to, s.exits);
    EndedQueues(s, due, h);
  }

  lemma EndedStacks(s: Snapshot, due: Option<nat>, h: nat)
    requires Consistent(s, due) && h in s.suspended && s.current != Some(MAIN)
    requires s.current.Some? ==> s.current.value in s.co
    requires var to := s.suspended[h].current; to.Some? ==> to.value in s.rest && to.value in s.co
    ensures var e := Ended(s, h); Stacks(e.co, e.current, e.hub, e.suspended, e.next, e.rest)
  {
    EndStacks(s.co, s.current, s.hub, s.suspended, s.next, s.rest);
    EnterStacks(Noted(s.co, s.current, Empty), s.hub, s.suspended, s.next,
                if s.current.Some? then s.rest - {s.current.value} else s.rest, h);
  }

  lemma EndedQueues(s: Snapshot, due: Option<nat>, h: nat)
    requires Consistent(s, due) && h in s.suspended && s.current != s.suspended[h].current
    requires s.current.Some? ==> s.current.value in s.rest && s.rest[s.current.value] == Return
                                 && s.current.value in s.co && s.co[s.current.value].state == Current
    requires match s.suspended[h].current
             case None => due == None
             case Some(t) => t in s.rest && t in s.co && t !in s.ready && (due == None || due == Some(t))
    ensures var e := Ended(s, h); Queues(e.co, e.ready, e.ch, e.timers, e.rest, None)
  {
    var to := s.suspended[h].current;
    var n := Noted(s.co, s.current, Empty);
    var r := if s.current.Some? then s.rest - {s.current.value} else s.rest;
    if s.current.Some? {
      EndQueues(s.co, n, s.ready, s.ch, s.timers, s.rest, due, s.current.value);
    }
    if to.Some? {
      assert s.rest[to.value] != StopTimer ==> s.timers - {to.value} == s.timers;
      WakeQueues(n, Entered(n, to), s.ready, s.ch, s.timers, r, due, to.value);
    }
  }

  /** Taking the head off the queue of ready cothreads. */
  lemma ReadyQueues(co: map<nat, Cothread>, ready: seq<nat>, ch: map<Name, Channel>, timers: set<nat>,
                    rest: map<nat, Rest>)
    requires Queues(co, ready, ch, timers, rest, None) && ready != []
    ensures Queues(co, ready[1..], ch, timers, rest, Some(ready[0]))
    ensures ready[0] !in ready[1..] && ready[0] in rest && rest[ready[0]] == Return
  {
    assert ready == [ready[0]] + ready[1..];
  }

  lemma ReadyHead(s: Snapshot)
    requires Consistent(s, None) && s.ready != [] && (s.current.Some? ==> s.current.value !in s.ready)
    ensures Consistent(s.(ready := s.ready[1..]), Some(s.ready[0]))
    ensures var t := s.ready[0]; t !in s.ready[1..] && t in s.rest && s.rest[t] == Return && s.current != Some(t)
  {
    hide Owned, Placed, Exits, Moved, Queues, Stacks;
    ReadyQueues(s.co, s.ready, s.ch, s.timers, s.rest);
  }

  /** What the caller of gevent_switch sees: `t` runs, out of the queue it waited in, and nothing
      else has changed but handles. */
  ghost predicate Woke(s: Snapshot, s': Snapshot, t: nat) {
    && s'.current == Some(t) && t in s'.co
    && (s.current.Some? ==> s'.hub == s.hub)
    && s'.rest == s.rest[t := Return]
    && s'.ch == (if t in s.rest then Unqueued(s.ch, s.rest[t], t) else s.ch)
    && s'.ready == s.ready && s'.exits == s.exits
    && s'.timers == (if t in s.rest && s.rest[t] == StopTimer then s.timers - {t} else s.timers)
    && s'.co.Keys == s.co.Keys
    && forall u | u in s.co ::
         s'.co[u].value == s.co[u].value && s'.co[u].state == if u == t then Current else s.co[u].state
  }

  lemma SwitchWakes(s: Snapshot, due: Option<nat>, t: nat, r: Rest)
    requires Consistent(s, due) && t in s.rest && s.current != Some(t)
    ensures t in s.co && s.co[t].stacklet.Some? && s.co[t].stacklet.value in s.suspended
    ensures s.suspended[s.co[t].stacklet.value].current == Some(t) && (s.current.Some? ==> s.current.value in s.co)
    ensures Woke(s, Switched(s, s.co[t].stacklet.value, r), t)
  {
    hide Queues, Placed, Without, Noted, Owned, Stacks, Exits;
    HandleOf(s, due, t);
    HubHandleOf(s, due);
    MovedFacts(s.co, s.current, s.next, Some(t), s.exits);
    hide Stacks, Owned, Exits, Moved, Unqueued;
  }

  lemma StartWakes(s: Snapshot, t: nat, r: Rest)
    requires Consistent(s, None) && t in s.co && s.co[t].state == New
    ensures t !in s.rest && (s.current.Some? ==> s.current.value in s.co)
    ensures Woke(s, Started(s, t, r), t)
  {
    hide Queues, Placed, Moved;
    HubHandleOf(s, None);
    MovedFacts(s.co, s.current, s.next, Some(t), s.exits);
  }

  // ---- what the running cothread does to itself before a switch ----

  /** The stacks depend neither on the value nor on the state of a live cothread, nor on what the
      running one has left to do. */
  lemma StacksDepend(s: Snapshot, co': map<nat, Cothread>, rest': map<nat, Rest>)
    requires Stacks(s.co, s.current, s.hub, s.suspended, s.next, s.rest)
    requires co'.Keys == s.co.Keys && rest'.Keys == s.rest.Keys
    requires forall t | t in s.co :: (
      && co'[t].stacklet == s.co[t].stacklet
      && if t in s.rest then co'[t].state != New && co'[t].state != Dead else co'[t].state == s.co[t].state)
    requires forall t | t in s.rest && s.current != Some(t) :: rest'[t] == s.rest[t]
    ensures Stacks(co', s.current, s.hub, s.suspended, s.next, rest')
  {
    forall h | h in s.suspended ensures Owned(h, s.suspended[h].current, co', s.current, s.hub, rest') {
      assert Owned(h, s.suspended[h].current, s.co, s.current, s.hub, s.rest);
    }
  }

  lemma ExitsDepend(co: map<nat, Cothread>, co': map<nat, Cothread>, exits: seq<nat>)
    requires Exits(co, exits) && co.Keys <= co'.Keys
    requires forall t | t in co' :: co'[t].state == Dead <==> t in co && co[t].state == Dead
    ensures Exits(co', exits)
  {
  }

  lemma StacksOfLive(s: Snapshot)
    requires Stacks(s.co, s.current, s.hub, s.suspended, s.next, s.rest)
    ensures forall t | t in s.rest :: t in s.co && s.co[t].state != New && s.co[t].state != Dead
  {
  }

  /** The running cothread changes its state and what it has left to do. */
  lemma StateKeeps(s: Snapshot, e: Snapshot, c: nat)
    requires Consistent(s, None) && s.current == Some(c) && c in s.co && c in s.rest
    requires e.co.Keys == s.co.Keys && e.rest.Keys == s.rest.Keys
    requires forall t | t in s.co && t != c :: e.co[t] == s.co[t]
    requires forall t | t in s.rest && t != c :: e.rest[t] == s.rest[t]
    requires e.co[c].stacklet == s.co[c].stacklet && e.co[c].state != New && e.co[c].state != Dead
    requires e == s.(co := e.co, rest := e.rest, ch := e.ch, ready := e.ready, timers := e.timers)
    requires Queues(e.co, e.ready, e.ch, e.timers, e.rest, None)
    ensures Consistent(e, None)
  {
    hide Queues, Stacks, Exits;
    StacksOfLive(s);
    StacksDepend(s, e.co, e.rest);
    ExitsDepend(s.co, e.co, s.exits);
  }

  lemma ActivateQueues(co: map<nat, Cothread>, co': map<nat, Cothread>, ready: seq<nat>, ch: map<Name, Channel>,
                       timers: set<nat>, rest: map<nat, Rest>, c: nat)
    requires Queues(co, ready, ch, timers, rest, None) && c in co && c in rest
    requires co[c].state == Current && rest[c] == Return && co' == co[c := co[c].(state := Ready)]
    ensures Queues(co', ready + [c], ch, timers, rest, None)
  {
    assert c !in ready;
  }

  /** _activate: the running cothread joins the end of the ready queue. */
  lemma ActivateKeeps(s: Snapshot, c: nat)
    requires Consistent(s, None) && s.current == Some(c) && c in s.co && c in s.rest
    requires s.co[c].state == Current && s.rest[c] == Return
    ensures Consistent(s.(co := s.co[c := s.co[c].(state := Ready)], ready := s.ready + [c]), None)
  {
    hide Stacks, Queues, Exits;
    var e := s.(co := s.co[c := s.co[c].(state := Ready)], ready := s.ready + [c]);
    ActivateQueues(s.co, e.co, s.ready, s.ch, s.timers, s.rest, c);
    StateKeeps(s, e, c);
  }

  /** Going to sleep, and joining the end of a channel's queue. */
  lemma SleepQueues(co: map<nat, Cothread>, co': map<nat, Cothread>, ready: seq<nat>, ch: map<Name, Channel>,
                    timers: set<nat>, rest: map<nat, Rest>, c: nat)
    requires Queues(co, ready, ch, timers, rest, None) && c in co && c in rest
    requires co[c].state == Current && rest[c] == Return && co' == co[c := co[c].(state := WaitingTimer)]
    ensures c !in ready && Queues(co', ready, ch, timers + {c}, rest[c := StopTimer], None)
  {
  }

  lemma ReceiverQueues(co: map<nat, Cothread>, co': map<nat, Cothread>, ready: seq<nat>, ch: map<Name, Channel>,
                       timers: set<nat>, rest: map<nat, Rest>, c: nat, n: Name)
    requires Queues(co, ready, ch, timers, rest, None) && c in co && c in rest && n in ch
    requires co[c].state == Current && rest[c] == Return && co' == co[c := co[c].(state := ChannelR)]
    ensures c !in ready
    ensures Queues(co', ready, ch[n := ch[n].(receivers := ch[n].receivers + [c])], timers, rest[c := Receiving(n)], None)
  {
    assert c !in ch[n].receivers;
  }

  lemma SenderQueues(co: map<nat, Cothread>, co': map<nat, Cothread>, ready: seq<nat>, ch: map<Name, Channel>,
                     timers: set<nat>, rest: map<nat, Rest>, c: nat, n: Name)
    requires Queues(co, ready, ch, timers, rest, None) && c in co && c in rest && n in ch
    requires co[c].state == Current && rest[c] == Return
    requires co'.Keys == co.Keys && co'[c].state == ChannelS && forall t | t in co && t != c :: co'[t] == co[t]
    ensures c !in ready
    ensures Queues(co', ready, ch[n := ch[n].(senders := ch[n].senders + [c])], timers, rest[c := Sending(n)], None)
  {
    assert c !in ch[n].senders;
  }

  function Asleep(s: Snapshot, c: nat): Snapshot
    requires c in s.co
  {
    s.(co := s.co[c := s.co[c].(state := WaitingTimer)], timers := s.timers + {c}, rest := s.rest[c := StopTimer])
  }

  function AwaitingValue(s: Snapshot, c: nat, n: Name): Snapshot
    requires c in s.co && n in s.ch
  {
    s.(co := s.co[c := s.co[c].(state := ChannelR)],
       ch := s.ch[n := s.ch[n].(receivers := s.ch[n].receivers + [c])], rest := s.rest[c := Receiving(n)])
  }

  function Offering(s: Snapshot, c: nat, n: Name, v: int): Snapshot
    requires c in s.co && n in s.ch
  {
    s.(co := s.co[c := s.co[c].(state := ChannelS, value := v)],
       ch := s.ch[n := s.ch[n].(senders := s.ch[n].senders + [c])], rest := s.rest[c := Sending(n)])
  }

  lemma SleepKeeps(s: Snapshot, c: nat)
    requires Consistent(s, None) && s.current == Some(c) && c in s.co && c in s.rest
    requires s.co[c].state == Current && s.rest[c] == Return
    ensures c !in s.ready && Consistent(Asleep(s, c), None)
  {
    hide Stacks, Queues, Exits;
    SleepQueues(s.co, Asleep(s, c).co, s.ready, s.ch, s.timers, s.rest, c);
    StateKeeps(s, Asleep(s, c), c);
  }

  /** A cothread that blocks is queued where its next wake-up will look for it. */
  lemma BlockKeeps(s: Snapshot, c: nat, n: Name, v: int)
    requires Consistent(s, None) && s.current == Some(c) && c in s.co && c in s.rest && n in s.ch
    requires s.co[c].state == Current && s.rest[c] == Return
    ensures c !in s.ready && Consistent(AwaitingValue(s, c, n), None) && Consistent(Offering(s, c, n, v), None)
  {
    hide Stacks, Queues, Exits;
    var r, w := AwaitingValue(s, c, n), Offering(s, c, n, v);
    ReceiverQueues(s.co, r.co, s.ready, s.ch, s.timers, s.rest, c, n);
    SenderQueues(s.co, w.co, s.ready, s.ch, s.timers, s.rest, c, n);
    StateKeeps(s, r, c);
    StateKeeps(s, w, c);
  }

  /** A value left for a cothread changes nothing else. */
  lemma ValueKeeps(s: Snapshot, t: nat, v: int)
    requires Consistent(s, None) && t in s.co
    ensures Consistent(s.(co := s.co[t := s.co[t].(value := v)]), None)
  {
    hide Stacks, Queues, Exits;
    var e := s.co[t := s.co[t].(value := v)];
    QueuesDepend(s.co, e, s.ready, s.ch, s.timers, s.rest, None);
    StacksOfLive(s);
    StacksDepend(s, e, s.rest);
    ExitsDepend(s.co, e, s.exits);
  }

  /** Who waits in a channel's queue is suspended there. */
  lemma Waiting(s: Snapshot, n: Name, t: nat)
    requires Consistent(s, None) && n in s.ch
    ensures t in s.ch[n].receivers ==> t in s.rest && s.rest[t] == Receiving(n) && t in s.co && s.co[t].state == ChannelR
    ensures t in s.ch[n].senders ==> t in s.rest && s.rest[t] == Sending(n) && t in s.co && s.co[t].state == ChannelS
    ensures t in s.ch[n].receivers + s.ch[n].senders ==> t !in s.ready
  {
  }

  lemma NewCothreadStacks(s: Snapshot, e: map<nat, Cothread>, t: nat)
    requires Stacks(s.co, s.current, s.hub, s.suspended, s.next, s.rest) && t !in s.co
    requires e == s.co[t := Cothread(New, None, 0)]
    ensures Stacks(e, s.current, s.hub, s.suspended, s.next, s.rest)
    ensures forall u | u in s.rest :: u in s.co
  {
    forall h | h in s.suspended ensures Owned(h, s.suspended[h].current, e, s.current, s.hub, s.rest) {
      assert Owned(h, s.suspended[h].current, s.co, s.current, s.hub, s.rest);
    }
  }

  lemma NewCothreadQueues(co: map<nat, Cothread>, co': map<nat, Cothread>, ready: seq<nat>, ch: map<Name, Channel>,
                          timers: set<nat>, rest: map<nat, Rest>)
    requires Queues(co, ready, ch, timers, rest, None)
    requires forall u | u in co :: u in co' && co'[u] == co[u]
    ensures Queues(co', ready, ch, timers, rest, None)
  {
  }

  lemma NewChannelQueues(co: map<nat, Cothread>, ready: seq<nat>, ch: map<Name, Channel>,
                         timers: set<nat>, rest: map<nat, Rest>, n: Name)
    requires Queues(co, ready, ch, timers, rest, None) && n !in ch
    ensures Queues(co, ready, ch[n := Channel([], [])], timers, rest, None)
  {
  }

  /** A new cothread. */
  lemma NewCothreadKeeps(s: Snapshot, t: nat)
    requires Consistent(s, None) && t !in s.co
    ensures Consistent(s.(co := s.co[t := Cothread(New, None, 0)]), None)
  {
    hide Exits, Stacks, Queues;
    var e := s.co[t := Cothread(New, None, 0)];
    ExitsDepend(s.co, e, s.exits);
    NewCothreadStacks(s, e, t);
    NewCothreadQueues(s.co, e, s.ready, s.ch, s.timers, s.rest);
  }

  /** A new channel. */
  lemma NewChannelKeeps(s: Snapshot, n: Name)
    requires Consistent(s, None) && n !in s.ch
    ensures Consistent(s.(ch := s.ch[n := Channel([], [])]), None)
  {
    hide Exits, Stacks, Queues;
    NewChannelQueues(s.co, s.ready, s.ch, s.timers, s.rest, n);
  }
}
