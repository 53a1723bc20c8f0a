/** The functions of gevent.c, on the state of one hub. */
module Gevent {
  import opened Options
  import opened SchedulerState
  import opened Receipts

  /** `*result` after a receive of `me`: the oldest value sent and not received yet, if there is one; a
      receive that blocks leaves it for the send that will wake it. */
  ghost predicate ReceiveResult(me: nat, k: Channel, l: Log, before: map<nat, int>, after: map<nat, int>) {
    if k.senders == [] then after == before
    else |k.senders| <= |l.sent| && after == before[me := l.sent[|l.sent| - |k.senders|]]
  }

  class Hub {
    var co: map<nat, Cothread>
    var current: Option<nat>
    var ready: seq<nat>
    var stacklet: Option<nat>
    var loopAlive: bool
    var ch: map<Name, Channel>
    var counter: map<nat, int>
    /** The timers that are armed, each for the cothread that sleeps on it. */
    var timers: set<nat>
    /** `*result` of the last receive of each cothread. */
    var result: map<nat, int>

    /** The stack handles: those that can still be used, and the next one to give out. */
    var suspended: map<nat, Stack>
    var next: nat
    ghost var used: set<nat>

    /** What the running or suspended stack of each cothread has left to do after its next switch. */
    ghost var rest: map<nat, Rest>
    ghost var logs: map<Name, Log>
    ghost var accounts: map<nat, Account>
    /** The last receive of each cothread. */
    ghost var last: map<nat, Receipt>
    /** The cothreads whose exit_fn has run, in this order. */
    ghost var exits: seq<nat>
    /** How many blocked calls of `main` the fallback has broken off. */
    ghost var broken: nat
    /** How many sleeps of `main` it has ended before their timers fired. */
    ghost var cutShort: nat

    ghost function Now(): Snapshot
      reads `co, `current, `stacklet, `ready, `ch, `timers, `suspended, `next, `used, `rest, `exits
    {
      Snapshot(co, current, stacklet, ready, ch, timers, suspended, next, used, rest, exits)
    }

    /** The running cothread is in the middle of nothing. */
    ghost predicate Running()
      reads `co, `current, `rest
    {
      current.Some? ==> current.value in co && co[current.value].state == Current
                        && current.value in rest && rest[current.value] == Return
    }

    ghost predicate Ordered()
      reads `co, `current, `stacklet, `ready, `ch, `timers, `suspended, `next, `used, `rest, `exits, `logs
    {
      Consistent(Now(), None) && Running() && Fifos(co, ch, logs)
    }

    /** Holds whenever user code or the event loop is in control. */
    ghost predicate Valid()
      reads this
    {
      Ordered() && Semaphores(ch, counter, accounts) && Received()
    }

    /** `*result` of every cothread is what its last receive returned. */
    ghost predicate Received()
      reads `ch, `logs, `result, `last
    {
      Kept(ch, logs, result, last)
    }

    /** gevent_hub_init. */
    constructor ()
      ensures Valid() && current == Some(MAIN) && co.Keys == {MAIN} && ch == map[] && timers == {} && ready == []
      ensures stacklet == None && broken == 0 && cutShort == 0 && exits == []
    {
      co := map[MAIN := Cothread(Current, None, 0)];
      current := Some(MAIN);
      ready := [];
      stacklet := None;
      loopAlive := true;
      ch := map[];
      counter := map[];
      timers := {};
      result := map[];
      suspended := map[];
      next := 0;
      used := {};
      rest := map[MAIN := Return];
      logs := map[];
      accounts := map[];
      last := map[];
      exits := [];
      broken := 0;
      cutShort := 0;
    }

    // ---- switching ----

    /** _after_switch: the target notes in what way the stack before it was left. */
    method AfterSwitch(to: Option<nat>, source: Source)
      requires current != to
      requires current.Some? ==> current.value in co
      requires to.Some? ==> to.value in co
      requires current.Some? && source.Empty? ==> current.value != MAIN && co[current.value].state == Current
      modifies `co, `current, `stacklet, `exits
      ensures co == Moved(old(co), old(current), source, to)
      ensures current == to
      ensures stacklet == HubHandle(old(stacklet), old(current), source, to)
      ensures exits == old(exits) + if old(current).Some? && source.Empty? then [old(current).value] else []
    {
      var whoDied := None;
      if current.Some? {
        var c := current.value;
        if source.Empty? {
          co := co[c := co[c].(state := Dead)];
          whoDied := current;
          co := co[c := co[c].(stacklet := None)];
        } else {
          co := co[c := co[c].(stacklet := Some(source.h))];
        }
      } else {
        if source.Empty? {
          stacklet := None;
        } else {
          stacklet := Some(source.h);
        }
      }
      current := to;
      if to.Some? {
        co := co[to.value := co[to.value].(state := Current)];
        co := co[to.value := co[to.value].(stacklet := None)];
      } else {
        stacklet := None;
      }
      if whoDied.Some? {
        CallExitFn(whoDied.value);
      }
    }

    /** The exit_fn of a cothread that has died: it runs in another context, and finds the cothread dead. */
    method CallExitFn(t: nat)
      requires current != Some(t) && t in co && co[t].state == Dead && co[t].stacklet == None
      modifies `exits
      ensures exits == old(exits) + [t]
    {
      exits := exits + [t];
    }

    /** The stack that runs is put aside under a fresh handle; `r` is where it goes on. */
    method Suspend(r: Rest) returns (h: nat)
      modifies `suspended, `next
      ensures h == old(next) && next == h + 1
      ensures suspended == old(suspended)[h := Stack(current, r)]
    {
      h := next;
      suspended := suspended[h := Stack(current, r)];
      next := next + 1;
    }

    /** stacklet_switch, or the end of a run function: the stack of `h` goes on, with `source` telling
        what it was left for, and does what it has left to do. */
    method Resume(h: nat, source: Source)
      requires h in suspended && h !in used
      requires current != suspended[h].current
      requires current.Some? ==> current.value in co
      requires current.Some? && source.Empty? ==> current.value != MAIN && co[current.value].state == Current
      requires var s := suspended[h];
        && (s.current.Some? ==> s.current.value in co && s.current.value in rest && rest[s.current.value] == s.rest)
        && (s.current.None? ==> s.rest == Return)
      modifies `co, `current, `stacklet, `exits, `suspended, `used, `ch, `timers, `result, `rest
      ensures var to := old(suspended[h].current);
        && current == to
        && co == Moved(old(co), old(current), source, to)
        && stacklet == HubHandle(old(stacklet), old(current), source, to)
        && rest == Returned(old(rest), to)
        && ch == (if to.Some? then Unqueued(old(ch), old(rest)[to.value], to.value) else old(ch))
        && timers == (if to.Some? && old(rest)[to.value] == StopTimer then old(timers) - {to.value} else old(timers))
        && result == (if to.Some? && old(rest)[to.value].Receiving? then old(result)[to.value := old(co)[to.value].value]
                      else old(result))
      ensures suspended == old(suspended) - {h} && used == old(used) + {h}
      ensures exits == old(exits) + if old(current).Some? && source.Empty? then [old(current).value] else []
    {
      hide HubHandle, Without;
      var s := suspended[h];
      suspended := suspended - {h};
      used := used + {h};
      AfterSwitch(s.current, source);
      if s.current.Some? {
        var t := s.current.value;
        match s.rest {
          case Return =>
          case StopTimer => timers := timers - {t};
          case Receiving(c) =>
            if c in ch { ch := ch[c := ch[c].(receivers := Without(ch[c].receivers, t))]; }
            result := result[t := co[t].value];
          case Sending(c) =>
            if c in ch { ch := ch[c := ch[c].(senders := Without(ch[c].senders, t))]; }
        }
        rest := rest[t := Return];
      }
    }

    // ---- switching to a cothread ----

    /** gevent_switch to a cothread that never ran: cothread_starter_fn begins on a new stack. */
    method Start(t: nat, r: Rest)
      requires Consistent(Now(), None) && t in co && co[t].state == New
      requires current.Some? ==> current.value in rest
      requires r == RestOf(current, rest)
      modifies `co, `current, `stacklet, `exits, `suspended, `next, `rest
      ensures Consistent(Now(), None) && Woke(old(Now()), Now(), t)
    {
      hide Consistent, Moved, Woke;
      StartKeeps(Now(), t);
      StartWakes(Now(), t, r);
      ghost var was := Now();
      var source := Suspend(r);
      AfterSwitch(Some(t), Handle(source));
      rest := rest[t := Return];
      assert Now() == Started(was, t, r);
    }

    /** gevent_switch to a cothread that is suspended: it goes on where it was left. */
    method SwitchBack(t: nat, r: Rest, ghost due: Option<nat>)
      requires Consistent(Now(), due) && t in rest && current != Some(t) && t !in ready
      requires due == None || due == Some(t)
      requires current.Some? ==> current.value in rest
      requires r == RestOf(current, rest)
      modifies `co, `current, `stacklet, `exits, `suspended, `next, `used, `ch, `timers, `result, `rest
      ensures Consistent(Now(), None) && Woke(old(Now()), Now(), t)
      ensures t in old(co)
      ensures result == if old(rest)[t].Receiving? then old(result)[t := old(co)[t].value] else old(result)
    {
      hide Consistent, Moved, Woke, Unqueued;
      SwitchKeeps(Now(), due, t);
      SwitchWakes(Now(), due, t, r);
      HandleOf(Now(), due, t);
      ghost var was := Now();
      var h := co[t].stacklet.value;
      var source := Suspend(r);
      Resume(h, Handle(source));
      assert Now() == Switched(was, h, r);
    }

    /** gevent_switch. */
    method Switch(t: nat, r: Rest, ghost due: Option<nat>)
      requires Consistent(Now(), due) && t in co && current != Some(t) && (due == None || due == Some(t))
      requires if t in rest then t !in ready && co[t].state != New else co[t].state == New && due == None
      requires current.Some? ==> current.value in rest
      requires r == RestOf(current, rest)
      modifies `co, `current, `stacklet, `exits, `suspended, `next, `used, `ch, `timers, `result, `rest
      ensures Consistent(Now(), None) && Woke(old(Now()), Now(), t)
      ensures result == if t in old(rest) && old(rest)[t].Receiving? then old(result)[t := old(co)[t].value]
                        else old(result)
    {
      hide Consistent, Woke;
      if co[t].state == New {
        Start(t, r);
      } else {
        SwitchBack(t, r, due);
      }
    }

    /** The event loop goes on where it was left. */
    method ResumeLoop(r: Rest)
      requires Consistent(Now(), None) && current.Some? && ready == [] && stacklet.Some?
      requires current.value in rest && r == RestOf(current, rest)
      modifies `co, `current, `stacklet, `exits, `suspended, `next, `used, `ch, `timers, `result, `rest
      ensures Consistent(Now(), None) && current == None
      ensures ready == [] && ch == old(ch) && rest == old(rest) && exits == old(exits) && result == old(result)
      ensures timers == old(timers)
      ensures co.Keys == old(co).Keys
      ensures forall u | u in co :: co[u].value == old(co)[u].value && co[u].state == old(co)[u].state
    {
      hide Consistent, Moved;
      ghost var was := Now();
      HubHandleOf(was, None);
      ResumeLoopKeeps(was);
      ToHub(was);
      var h := stacklet.value;
      var source := Suspend(r);
      Resume(h, Handle(source));
      assert Now() == Switched(was, h, r);
    }

    /** The event loop begins on a stack of its own. */
    method StartLoop(r: Rest)
      requires Consistent(Now(), None) && current.Some? && ready == [] && stacklet.None?
      requires current.value in rest && r == RestOf(current, rest)
      modifies `co, `current, `stacklet, `exits, `suspended, `next, `used, `ch, `timers, `result, `rest, `loopAlive
      ensures Consistent(Now(), None) && current == None && (old(stacklet).None? ==> loopAlive)
      ensures ready == [] && ch == old(ch) && rest == old(rest) && exits == old(exits) && result == old(result)
      ensures timers == old(timers)
      ensures co.Keys == old(co).Keys
      ensures forall u | u in co :: co[u].value == old(co)[u].value && co[u].state == old(co)[u].state
    {
      hide Consistent, Moved;
      ghost var was := Now();
      HubHandleOf(was, None);
      StartLoopKeeps(was);
      ToHub(was);
      var source := Suspend(r);
      AfterSwitch(None, Handle(source));
      loopAlive := true;
      assert Now() == LoopStarted(was, r);
    }

    /** gevent_switch_to_hub. */
    method SwitchToHub(r: Rest)
      requires Consistent(Now(), None) && current.Some? && ready == []
      requires current.value in rest && r == RestOf(current, rest)
      modifies `co, `current, `stacklet, `exits, `suspended, `next, `used, `ch, `timers, `result, `rest, `loopAlive
      ensures Consistent(Now(), None) && current == None && (old(stacklet).None? ==> loopAlive)
      ensures ready == [] && ch == old(ch) && rest == old(rest) && exits == old(exits) && result == old(result)
      ensures timers == old(timers)
      ensures co.Keys == old(co).Keys
      ensures forall u | u in co :: co[u].value == old(co)[u].value && co[u].state == old(co)[u].state
    {
      hide Consistent;
      if stacklet.Some? {
        ResumeLoop(r);
      } else {
        StartLoop(r);
      }
    }

    /** gevent_yield: to the cothread that has been ready longest, else to the event loop. */
    method Yield(r: Rest)
      requires Consistent(Now(), None) && current.Some? && current.value !in ready
      requires current.value in rest && r == RestOf(current, rest)
      modifies `co, `current, `ready, `stacklet, `exits, `suspended, `next, `used, `ch, `timers, `result, `rest, `loopAlive
      ensures Consistent(Now(), None) && Running()
      ensures current == if old(ready) == [] then None else Some(old(ready)[0])
      ensures ready == if old(ready) == [] then [] else old(ready)[1..]
      ensures rest == old(rest) && exits == old(exits) && ch == old(ch) && result == old(result)
      ensures timers == old(timers)
      ensures current.Some? ==> stacklet == old(stacklet)
      ensures co.Keys == old(co).Keys && forall u | u in co :: co[u].value == old(co)[u].value
      ensures forall u | u in co && current != Some(u) :: co[u].state == old(co)[u].state
    {
      hide Consistent;
      if ready != [] {
        var tmp := ready[0];
        ReadyHead(Now());
        ready := ready[1..];
        assert rest[tmp := Return] == rest;
        SwitchBack(tmp, r, Some(tmp));
      } else {
        SwitchToHub(r);
      }
    }

    // ---- cothreads ----

    /** gevent_cothread_init. */
    method Init(t: nat)
      requires Valid() && t !in co
      modifies `co
      ensures Valid() && co == old(co)[t := Cothread(New, None, 0)]
    {
      hide Consistent, Fifo, Kept;
      NewCothreadKeeps(Now(), t);
      FifosValues(co, co[t := Cothread(New, None, 0)], ch, logs);
      co := co[t := Cothread(New, None, 0)];
    }

    /** _activate. */
    method Activate(c: nat)
      requires Ordered() && current == Some(c)
      modifies `co, `ready
      ensures Consistent(Now(), None) && Fifos(co, ch, logs)
      ensures ready == old(ready) + [c] && co == old(co)[c := old(co)[c].(state := Ready)]
    {
      hide Consistent, Fifo, Kept;
      ActivateKeeps(Now(), c);
      FifosValues(co, co[c := co[c].(state := Ready)], ch, logs);
      co := co[c := co[c].(state := Ready)];
      ready := ready + [c];
    }

    /** gevent_cothread_spawn: the new cothread runs at once, the caller when its turn comes. */
    method Spawn(t: nat)
      requires Valid() && current.Some? && t in co && co[t].state == New
      modifies `co, `current, `ready, `stacklet, `exits, `suspended, `next, `used, `ch, `timers, `result, `rest
      ensures Valid() && current == Some(t) && co.Keys == old(co).Keys && stacklet == old(stacklet)
      ensures ready == old(ready) + [old(current).value] && ch == old(ch) && exits == old(exits)
      ensures result == old(result)
    {
      hide Consistent, Fifo, Kept;
      var c := current.value;
      Activate(c);
      NewIsNotLive(Now(), t);
      ghost var s := Now();
      Switch(t, Return, None);
      FifosValues(s.co, co, ch, logs);
    }

    /** gevent_sleep, and gevent_wait with a positive timeout. */
    method Sleep()
      requires Valid() && current.Some?
      modifies `co, `current, `ready, `stacklet, `exits, `suspended, `next, `used, `ch, `timers, `result, `rest, `loopAlive
      ensures Valid()
      ensures current == if old(ready) == [] then None else Some(old(ready)[0])
      ensures ready == if old(ready) == [] then [] else old(ready)[1..]
      ensures current.Some? ==> stacklet == old(stacklet)
      ensures ch == old(ch) && exits == old(exits)
      ensures var c := old(current).value;
        && c in co && co[c].state == WaitingTimer && timers == old(timers) + {c} && rest == old(rest)[c := StopTimer]
      ensures result == old(result)
    {
      hide Consistent, Fifo, Semaphores, Kept;
      var c := current.value;
      SetTimer(c);
      ghost var before := co;
      Yield(StopTimer);
      FifosValues(before, co, ch, logs);
    }

    /** The running cothread arms its timer, as it is about to sleep. */
    method SetTimer(c: nat)
      requires Ordered() && current == Some(c)
      modifies `co, `timers, `rest
      ensures Consistent(Now(), None) && c !in ready && Fifos(co, ch, logs)
      ensures c in old(co) && co == old(co)[c := old(co)[c].(state := WaitingTimer)]
      ensures timers == old(timers) + {c} && rest == old(rest)[c := StopTimer]
    {
      hide Consistent, Fifo;
      ghost var s := Now();
      SleepKeeps(s, c);
      timers := timers + {c};
      co := co[c := co[c].(state := WaitingTimer)];
      rest := rest[c := StopTimer];
      assert Now() == Asleep(s, c);
      FifosValues(s.co, co, ch, logs);
    }

    /** gevent_wait with a timeout of zero or less: the caller is put aside with its state still
        CURRENT. */
    method Wait()
      requires Valid() && current.Some?
      modifies `co, `current, `ready, `stacklet, `exits, `suspended, `next, `used, `ch, `timers, `result, `rest, `loopAlive
      ensures Valid()
      ensures current == if old(ready) == [] then None else Some(old(ready)[0])
      ensures ready == if old(ready) == [] then [] else old(ready)[1..]
      ensures ch == old(ch) && exits == old(exits)
      ensures old(current).value in co && co[old(current).value].state == Current
      ensures timers == old(timers) && rest == old(rest)
      ensures result == old(result)
    {
      hide Consistent, Fifo, Kept;
      ghost var s := Now();
      SleepKeeps(s, current.value);
      Yield(Return);
      FifosValues(s.co, co, ch, logs);
    }

    /** sleep_cb: the event loop fires the timer of a sleeping cothread and switches to it. */
    method FireTimer(t: nat)
      requires Valid() && current.None? && t in timers
      modifies `co, `current, `stacklet, `exits, `suspended, `next, `used, `ch, `timers, `result, `rest
      ensures Valid() && current == Some(t) && ready == [] && ch == old(ch) && exits == old(exits)
      ensures timers == old(timers) - {t} && rest == old(rest)[t := Return]
      ensures result == old(result)
    {
      hide Consistent, Fifo, Kept;
      ghost var s := Now();
      LoopRuns(s);
      TimerFires(s, t);
      assert co[t].state == WaitingTimer;
      timers := timers - {t};
      Switch(t, Return, Some(t));
      FifosValues(s.co, co, ch, logs);
    }

    // ---- channels ----

    /** gevent_channel_init. */
    method InitChannel(c: Name)
      requires Ordered() && Received() && c !in ch
      modifies `ch, `logs
      ensures Ordered() && Received() && ch == old(ch)[c := Channel([], [])] && logs == old(logs)[c := Log([], [])]
    {
      hide Consistent, Kept, Fifo;
      NewChannelKeeps(Now(), c);
      FifosNew(co, ch, logs, c);
      KeptElsewhere(ch, logs, result, last, ch[c := Channel([], [])], logs[c := Log([], [])]);
      ch := ch[c := Channel([], [])];
      logs := logs[c := Log([], [])];
    }

    /** gevent_channel_receive without a sender waiting: the caller joins the receivers. */
    method ReceiveBlocks(c: Name)
      requires Ordered() && current.Some? && c in ch && ch[c].senders == []
      modifies `co, `current, `ready, `stacklet, `exits, `suspended, `next, `used, `ch, `timers, `result, `rest,
               `loopAlive, `logs
      ensures Ordered() && exits == old(exits)
      ensures current == if old(ready) == [] then None else Some(old(ready)[0])
      ensures ready == if old(ready) == [] then [] else old(ready)[1..]
      ensures c in old(logs)
      ensures ch == old(ch)[c := Channel(old(ch)[c].receivers + [old(current).value], [])]
      ensures logs == old(logs)[c := old(logs)[c].(got := old(logs)[c].got + [None])]
      ensures result == old(result)
    {
      hide Consistent, Fifo;
      var t := current.value;
      ghost var s := Now();
      BlockKeeps(s, t, c, 0);
      FifosReceiveBlocks(co, ch, logs, c, t);
      ch := ch[c := ch[c].(receivers := ch[c].receivers + [t])];
      co := co[t := co[t].(state := ChannelR)];
      rest := rest[t := Receiving(c)];
      logs := logs[c := logs[c].(got := logs[c].got + [None])];
      assert Now() == AwaitingValue(s, t, c);
      Yield(Receiving(c));
      FifosValues(s.co, co, ch, logs);
    }

    /** gevent_channel_receive with senders waiting: the first one's value is taken, and it goes on. */
    method ReceiveTakes(c: Name) returns (value: int)
      requires Ordered() && current.Some? && c in ch && ch[c].senders != []
      modifies `co, `current, `ready, `stacklet, `exits, `suspended, `next, `used, `ch, `timers, `result, `rest, `logs
      ensures Ordered() && exits == old(exits)
      ensures current == Some(old(ch)[c].senders[0]) && ready == old(ready) + [old(current).value]
      ensures old(ch)[c].senders[0] in old(co) && value == old(co)[old(ch)[c].senders[0]].value
      ensures c in old(logs) && ch == old(ch)[c := old(ch)[c].(senders := old(ch)[c].senders[1..])]
      ensures logs == old(logs)[c := old(logs)[c].(got := old(logs)[c].got + [Some(value)])]
      ensures var k, l := old(ch)[c], old(logs)[c];
        && |k.senders| <= |l.sent| && value == l.sent[|l.sent| - |k.senders|]
        && result == old(result)[old(current).value := l.sent[|l.sent| - |k.senders|]]
    {
      hide Consistent, Fifo, Placed, Distinct;
      var t := current.value;
      var sender := ch[c].senders[0];
      Waiting(Now(), c, sender);
      assert co[sender].state == ChannelS;
      value := co[sender].value;
      HeadSender(co, ch, logs, c);
      FifosTake(co, ch, logs, c);
      ghost var before := co;
      ghost var l := logs[c].(got := logs[c].got + [Some(value)]);
      Activate(t);
      result := result[t := value];
      Waiting(Now(), c, sender);
      WakeSender(c, sender);
      logs := logs[c := l];
      FifosValues(before, co, ch, logs);
    }

    /** The switch to the first sender of a channel. */
    method WakeSender(c: Name, sender: nat)
      requires Consistent(Now(), None) && current.Some? && current.value in rest && rest[current.value] == Return
      requires c in ch && ch[c].senders != [] && sender == ch[c].senders[0]
      requires current != Some(sender) && sender !in ready && sender in co && sender in rest
      requires rest[sender] == Sending(c) && co[sender].state != New
      modifies `co, `current, `stacklet, `exits, `suspended, `next, `used, `ch, `timers, `result, `rest
      ensures Consistent(Now(), None) && Running() && current == Some(sender) && ready == old(ready) && exits == old(exits)
      ensures ch == old(ch)[c := old(ch)[c].(senders := old(ch)[c].senders[1..])] && result == old(result)
      ensures forall u | u in old(co) :: u in co && co[u].value == old(co)[u].value
    {
      hide Consistent;
      ghost var k := ch[c];
      ghost var was := ch;
      Switch(sender, Return, None);
      assert Unqueued(was, Sending(c), sender) == was[c := k.(senders := k.senders[1..])];
    }

    /** gevent_channel_send without a receiver waiting: the caller joins the senders. */
    method SendBlocks(c: Name, value: int)
      requires Ordered() && current.Some? && c in ch && ch[c].receivers == []
      modifies `co, `current, `ready, `stacklet, `exits, `suspended, `next, `used, `ch, `timers, `result, `rest,
               `loopAlive, `logs
      ensures Ordered() && exits == old(exits)
      ensures current == if old(ready) == [] then None else Some(old(ready)[0])
      ensures ready == if old(ready) == [] then [] else old(ready)[1..]
      ensures c in old(logs)
      ensures ch == old(ch)[c := Channel([], old(ch)[c].senders + [old(current).value])]
      ensures logs == old(logs)[c := old(logs)[c].(sent := old(logs)[c].sent + [value])]
      ensures result == old(result)
    {
      hide Consistent, Fifo;
      var t := current.value;
      ghost var s := Now();
      BlockKeeps(s, t, c, value);
      FifosSendBlocks(s, logs, c, t, value);
      ch := ch[c := ch[c].(senders := ch[c].senders + [t])];
      co := co[t := co[t].(value := value)];
      co := co[t := co[t].(state := ChannelS)];
      rest := rest[t := Sending(c)];
      logs := logs[c := logs[c].(sent := logs[c].sent + [value])];
      assert Now() == Offering(s, t, c, value);
      ghost var b := Now();
      Yield(Sending(c));
      FifosValues(b.co, co, ch, logs);
    }

    /** gevent_channel_send with receivers waiting: the first one gets the value and goes on. */
    method SendDelivers(c: Name, value: int)
      requires Ordered() && current.Some? && c in ch && ch[c].receivers != []
      modifies `co, `current, `ready, `stacklet, `exits, `suspended, `next, `used, `ch, `timers, `result, `rest, `logs
      ensures Ordered() && exits == old(exits)
      ensures current == Some(old(ch)[c].receivers[0]) && ready == old(ready) + [old(current).value]
      ensures c in old(logs) && ch == old(ch)[c := old(ch)[c].(receivers := old(ch)[c].receivers[1..])]
      ensures result == old(result)[old(ch)[c].receivers[0] := value]
      ensures var l, k := old(logs)[c], old(ch)[c];
        && |k.receivers| <= |l.got|
        && logs == old(logs)[c := Log(l.sent + [value], l.got[|l.got| - |k.receivers| := Some(value)])]
    {
      hide Consistent, Fifo, Placed, Distinct, Exits;
      var t := current.value;
      var receiver := ch[c].receivers[0];
      Waiting(Now(), c, receiver);
      assert co[receiver].state == ChannelR;
      FifosDeliver(Now(), logs, c, receiver, value);
      ghost var k, l := ch[c], logs[c];
      ValueKeeps(Now(), receiver, value);
      FifosValue(Now(), logs, receiver, c, value);
      co := co[receiver := co[receiver].(value := value)];
      ghost var before := co;
      Activate(t);
      Waiting(Now(), c, receiver);
      WakeReceiver(c, receiver);
      logs := logs[c := Log(l.sent + [value], l.got[|l.got| - |k.receivers| := Some(result[receiver])])];
      FifosValues(before, co, ch, logs);
    }

    /** The switch to the first receiver of a channel, which fetches its value. */
    method WakeReceiver(c: Name, receiver: nat)
      requires Consistent(Now(), None) && current.Some? && current.value in rest && rest[current.value] == Return
      requires c in ch && ch[c].receivers != [] && receiver == ch[c].receivers[0]
      requires current != Some(receiver) && receiver !in ready && receiver in co && receiver in rest
      requires rest[receiver] == Receiving(c) && co[receiver].state != New
      modifies `co, `current, `stacklet, `exits, `suspended, `next, `used, `ch, `timers, `result, `rest
      ensures Consistent(Now(), None) && Running() && current == Some(receiver) && ready == old(ready) && exits == old(exits)
      ensures ch == old(ch)[c := old(ch)[c].(receivers := old(ch)[c].receivers[1..])]
      ensures result == old(result)[receiver := old(co)[receiver].value]
      ensures forall u | u in old(co) :: u in co && co[u].value == old(co)[u].value
    {
      hide Consistent;
      ghost var k := ch[c];
      ghost var was := ch;
      Switch(receiver, Return, None);
      assert Unqueued(was, Receiving(c), receiver) == was[c := k.(receivers := k.receivers[1..])];
    }

    /** gevent_channel_receive. */
    method ChannelReceive(c: Name)
      requires Ordered() && Received() && current.Some? && c in ch
      modifies `co, `current, `ready, `stacklet, `exits, `suspended, `next, `used, `ch, `timers, `result, `rest,
               `loopAlive, `logs, `last
      ensures Ordered() && Received() && exits == old(exits)
      ensures ReceiveCall(old(current).value, c, old(ready), old(ch), old(logs), current, ready, ch, logs)
      ensures ReceiveResult(old(current).value, old(ch)[c], old(logs)[c], old(result), result)
      ensures last == old(last)[old(current).value := Receipt(c, |old(logs)[c].got|)]
    {
      hide Consistent, Fifo, Kept;
      HeadSender(co, ch, logs, c);
      ghost var t, k, l, called := current.value, ch[c], logs[c], last[current.value := Receipt(c, |logs[c].got|)];
      NotWaiting(Now(), t);
      if ch[c].senders == [] {
        KeptBlocks(ch, logs, result, last, c, t);
        ReceiveBlocks(c);
      } else {
        OneSided(co, ch, logs, c);
        KeptTakes(ch, logs, result, last, c, t, l.sent[|l.sent| - |k.senders|], k.(senders := k.senders[1..]));
        var value := ReceiveTakes(c);
      }
      last := called;
    }

    /** gevent_channel_send. */
    method ChannelSend(c: Name, value: int)
      requires Ordered() && Received() && current.Some? && c in ch
      modifies `co, `current, `ready, `stacklet, `exits, `suspended, `next, `used, `ch, `timers, `result, `rest,
               `loopAlive, `logs
      ensures Ordered() && Received() && exits == old(exits)
      ensures SendCall(old(current).value, c, value, old(ready), old(ch), old(logs), current, ready, ch, logs)
      ensures result == if old(ch)[c].receivers == [] then old(result) else old(result)[old(ch)[c].receivers[0] := value]
    {
      hide Consistent, Fifo, Kept;
      ghost var k, l := ch[c], logs[c];
      if ch[c].receivers == [] {
        KeptElsewhere(ch, logs, result, last, ch[c := Channel([], k.senders + [current.value])],
                      logs[c := l.(sent := l.sent + [value])]);
        SendBlocks(c, value);
      } else {
        KeptDelivers(ch, logs, result, last, c, value);
        SendDelivers(c, value);
      }
    }

    /** A channel of its own. */
    method NewChannel(c: Name)
      requires Valid() && c !in ch && c.Plain?
      modifies `ch, `logs
      ensures Valid() && ch == old(ch)[c := Channel([], [])] && logs == old(logs)[c := Log([], [])]
    {
      hide Consistent, Fifo, Kept;
      InitChannel(c);
    }

    /** A call of gevent_channel_receive by user code. */
    method Receive(c: Name)
      requires Valid() && current.Some? && c in ch && c.Plain?
      modifies `co, `current, `ready, `stacklet, `exits, `suspended, `next, `used, `ch, `timers, `result, `rest,
               `loopAlive, `logs, `last
      ensures Valid() && exits == old(exits)
      ensures ReceiveCall(old(current).value, c, old(ready), old(ch), old(logs), current, ready, ch, logs)
      ensures ReceiveResult(old(current).value, old(ch)[c], old(logs)[c], old(result), result)
      ensures last == old(last)[old(current).value := Receipt(c, |old(logs)[c].got|)]
    {
      hide Consistent, Fifo, Balanced, Kept;
      ghost var was := ch;
      ChannelReceive(c);
      SemaphoresElsewhere(was, ch, counter, accounts, c);
    }

    /** A call of gevent_channel_send by user code. */
    method Send(c: Name, value: int)
      requires Valid() && current.Some? && c in ch && c.Plain?
      modifies `co, `current, `ready, `stacklet, `exits, `suspended, `next, `used, `ch, `timers, `result, `rest,
               `loopAlive, `logs
      ensures Valid() && exits == old(exits)
      ensures SendCall(old(current).value, c, value, old(ready), old(ch), old(logs), current, ready, ch, logs)
      ensures result == if old(ch)[c].receivers == [] then old(result) else old(result)[old(ch)[c].receivers[0] := value]
    {
      hide Consistent, Fifo, Balanced, Kept;
      ghost var was := ch;
      ChannelSend(c, value);
      SemaphoresElsewhere(was, ch, counter, accounts, c);
    }

    // ---- semaphores ----

    /** gevent_semaphore_init. */
    method InitSemaphore(s: nat, n: int)
      requires Valid() && OfSemaphore(s) !in ch
      modifies `ch, `logs, `counter, `accounts
      ensures Valid() && counter == old(counter)[s := n] && accounts == old(accounts)[s := Account(n, 0, 0)]
    {
      hide Consistent, Fifo, Kept;
      counter := counter[s := n];
      InitChannel(OfSemaphore(s));
      accounts := accounts[s := Account(n, 0, 0)];
    }

    /** gevent_semaphore_acquire. */
    method Acquire(s: nat)
      requires Valid() && current.Some? && s in counter
      modifies `co, `current, `ready, `stacklet, `exits, `suspended, `next, `used, `ch, `timers, `result, `rest,
               `loopAlive, `logs, `last, `counter, `accounts
      ensures Valid() && exits == old(exits)
      ensures old(counter)[s] > 0 ==>
        && current == old(current) && ready == old(ready) && ch == old(ch)
        && counter == old(counter)[s := old(counter)[s] - 1]
        && s in old(accounts) && accounts == old(accounts)[s := old(accounts)[s].(granted := old(accounts)[s].granted + 1)]
      ensures old(counter)[s] <= 0 ==>
        && counter == old(counter) && accounts == old(accounts) && OfSemaphore(s) in old(ch)
        && ch == old(ch)[OfSemaphore(s) := Channel(old(ch)[OfSemaphore(s)].receivers + [old(current).value], [])]
        && current == (if old(ready) == [] then None else Some(old(ready)[0]))
        && ready == if old(ready) == [] then [] else old(ready)[1..]
      ensures result == old(result)
    {
      hide Consistent, Fifo, Kept;
      if counter[s] > 0 {
        counter := counter[s := counter[s] - 1];
        accounts := accounts[s := accounts[s].(granted := accounts[s].granted + 1)];
      } else {
        assert Balanced(ch[OfSemaphore(s)], counter[s], accounts[s]);
        ChannelReceive(OfSemaphore(s));
      }
    }

    /** gevent_semaphore_release. */
    method Release(s: nat)
      requires Valid() && current.Some? && s in counter
      modifies `co, `current, `ready, `stacklet, `exits, `suspended, `next, `used, `ch, `timers, `result, `rest,
               `loopAlive, `logs, `counter, `accounts
      ensures Valid() && exits == old(exits) && OfSemaphore(s) in old(ch) && s in old(accounts)
      ensures var waiting, a := old(ch)[OfSemaphore(s)].receivers, old(accounts)[s];
        if waiting == [] then
          && current == old(current) && ready == old(ready) && ch == old(ch)
          && counter == old(counter)[s := old(counter)[s] + 1]
          && accounts == old(accounts)[s := a.(released := a.released + 1)]
        else
          && current == Some(waiting[0]) && ready == old(ready) + [old(current).value]
          && counter == old(counter)
          && accounts == old(accounts)[s := a.(released := a.released + 1, granted := a.granted + 1)]
      ensures result == if old(ch)[OfSemaphore(s)].receivers == [] then old(result)
                        else old(result)[old(ch)[OfSemaphore(s)].receivers[0] := 0]
    {
      hide Consistent, Fifos, Semaphores, Hub.Running, Kept;
      SemaphoreReleased(ch, counter, accounts, s);
      if ch[OfSemaphore(s)].receivers != [] {
        ChannelSend(OfSemaphore(s), 0);
        accounts := accounts[s := accounts[s].(released := accounts[s].released + 1, granted := accounts[s].granted + 1)];
      } else {
        counter := counter[s := counter[s] + 1];
        accounts := accounts[s := accounts[s].(released := accounts[s].released + 1)];
      }
    }

    // ---- ends ----

    /** _get_next_stacklet: the cothread ready longest, else the event loop, else `main`, whether or not
        `main` is blocked. */
    method GetNext() returns (h: nat)
      requires Ordered() && current != Some(MAIN)
      modifies `ready
      ensures h in suspended && h !in used
      ensures old(ready) != [] ==>
        && ready == old(ready)[1..] && Consistent(Now(), Some(old(ready)[0]))
        && suspended[h].current == Some(old(ready)[0]) && old(ready)[0] !in ready
        && old(ready)[0] in rest && rest[old(ready)[0]] == Return
      ensures old(ready) == [] ==> ready == [] && Consistent(Now(), None)
      ensures old(ready) == [] && stacklet.Some? ==> suspended[h].current == None && current.Some?
      ensures old(ready) == [] && stacklet.None? ==> suspended[h].current == Some(MAIN) && MAIN in rest
    {
      hide Consistent, Fifo, Kept;
      HubHandleOf(Now(), None);
      if ready != [] {
        var tmp := ready[0];
        CurrentIsNotReady(Now());
        ReadyHead(Now());
        ready := ready[1..];
        HandleOf(Now(), Some(tmp), tmp);
        return co[tmp].stacklet.value;
      }
      LoopRuns(Now());
      if stacklet.Some? {
        assert current.Some?;
        return stacklet.value;
      }
      HandleOf(Now(), None, MAIN);
      return co[MAIN].stacklet.value;
    }

    /** The run function of the current cothread returns: its stack ends, and with it the cothread. */
    method Finish()
      requires Valid() && current.Some? && current.value != MAIN
      modifies `co, `current, `ready, `stacklet, `exits, `suspended, `used, `ch, `timers, `result, `rest, `logs, `last, `broken,
               `cutShort
      ensures Valid() && exits == old(exits) + [old(current).value]
      ensures current == if old(ready) != [] then Some(old(ready)[0]) else if old(stacklet).Some? then None else Some(MAIN)
      ensures ready == if old(ready) != [] then old(ready)[1..] else []
      ensures old(current).Some? && current.Some? ==> stacklet == old(stacklet)
      ensures MAIN in old(rest)
      ensures broken == old(broken) +
        if old(ready) == [] && old(stacklet).None? && (old(rest)[MAIN].Receiving? || old(rest)[MAIN].Sending?) then 1 else 0
      ensures cutShort == old(cutShort) +
        if old(ready) == [] && old(stacklet).None? && old(rest)[MAIN].StopTimer? then 1 else 0
      ensures cutShort > old(cutShort) ==> MAIN in old(timers) && timers == old(timers) - {MAIN}
      ensures broken == old(broken) ==> ch == old(ch) && logs == old(logs) && last == old(last)
      ensures MAIN in old(co) && result ==
        if old(ready) == [] && old(stacklet).None? && old(rest)[MAIN].Receiving? then old(result)[MAIN := old(co)[MAIN].value]
        else old(result)
      ensures !old(rest)[MAIN].Sending? ==> SameSent(old(logs), logs)
    {
      hide Consistent, Fifo, Balanced, Kept;
      EndStack();
    }

    /** uv_run returns to hub_starter_fn: the event loop ends. */
    method EndLoop()
      requires Valid() && current.None?
      modifies `co, `current, `ready, `stacklet, `exits, `suspended, `used, `ch, `timers, `result, `rest, `logs, `last, `broken,
               `cutShort, `loopAlive
      ensures Valid() && exits == old(exits) && current == Some(MAIN) && !loopAlive
      ensures MAIN in old(rest)
      ensures broken == old(broken) + if old(rest)[MAIN].Receiving? || old(rest)[MAIN].Sending? then 1 else 0
      ensures cutShort == old(cutShort) + if old(rest)[MAIN].StopTimer? then 1 else 0
      ensures cutShort > old(cutShort) ==> MAIN in old(timers) && timers == old(timers) - {MAIN}
      ensures broken == old(broken) ==> ch == old(ch) && logs == old(logs) && last == old(last)
      ensures MAIN in old(co) && result ==
        if old(rest)[MAIN].Receiving? then old(result)[MAIN := old(co)[MAIN].value] else old(result)
      ensures !old(rest)[MAIN].Sending? ==> SameSent(old(logs), logs)
    {
      hide Consistent, Fifo, Balanced, Kept;
      LoopRuns(Now());
      loopAlive := false;
      stacklet := None;
      EndStack();
    }

    method EndStack()
      requires Valid() && current != Some(MAIN)
      modifies `co, `current, `ready, `stacklet, `exits, `suspended, `used, `ch, `timers, `result, `rest, `logs, `last, `broken,
               `cutShort
      ensures Valid() && exits == old(exits) + if old(current).Some? then [old(current).value] else []
      ensures current == if old(ready) != [] then Some(old(ready)[0]) else if old(stacklet).Some? then None else Some(MAIN)
      ensures ready == if old(ready) != [] then old(ready)[1..] else []
      ensures old(current).Some? && current.Some? ==> stacklet == old(stacklet)
      ensures MAIN in old(rest)
      ensures broken == old(broken) +
        if old(ready) == [] && old(stacklet).None? && (old(rest)[MAIN].Receiving? || old(rest)[MAIN].Sending?) then 1 else 0
      ensures cutShort == old(cutShort) +
        if old(ready) == [] && old(stacklet).None? && old(rest)[MAIN].StopTimer? then 1 else 0
      ensures cutShort > old(cutShort) ==> MAIN in old(timers) && timers == old(timers) - {MAIN}
      ensures broken == old(broken) ==> ch == old(ch) && logs == old(logs) && last == old(last)
      ensures MAIN in old(co) && result ==
        if old(ready) == [] && old(stacklet).None? && old(rest)[MAIN].Receiving? then old(result)[MAIN := old(co)[MAIN].value]
        else old(result)
      ensures !old(rest)[MAIN].Sending? ==> SameSent(old(logs), logs)
    {
      hide Consistent, Fifos, Semaphores, Unqueued, Broken, SameSent, Kept;
      ghost var was, got, v := ch, result, if MAIN in co then co[MAIN].value else 0;
      ghost var r := LeaveFor();
      NoteBreak(was, got, r, v);
      cutShort := cutShort + if r.StopTimer? then 1 else 0;
    }

    /** The stack that runs ends; `r` is what the fallback to `main` makes of the call it is in. */
    method LeaveFor() returns (ghost r: Rest)
      requires Ordered() && current != Some(MAIN)
      modifies `co, `current, `ready, `stacklet, `exits, `suspended, `used, `ch, `timers, `result, `rest
      ensures Consistent(Now(), None) && Running() && Fifos(co, old(ch), logs)
      ensures exits == old(exits) + if old(current).Some? then [old(current).value] else []
      ensures current == if old(ready) != [] then Some(old(ready)[0]) else if old(stacklet).Some? then None else Some(MAIN)
      ensures ready == if old(ready) != [] then old(ready)[1..] else []
      ensures old(current).Some? && current.Some? ==> stacklet == old(stacklet)
      ensures MAIN in old(rest)
      ensures r == if old(ready) == [] && old(stacklet).None? then old(rest)[MAIN] else Return
      ensures r.Receiving? ==> r.c in old(ch) && MAIN in old(ch)[r.c].receivers
      ensures r.Sending? ==> r.c in old(ch) && MAIN in old(ch)[r.c].senders
      ensures r.StopTimer? ==> MAIN in old(timers) && timers == old(timers) - {MAIN}
      ensures exists u :: ch == Unqueued(old(ch), r, u) && (r.Receiving? || r.Sending? ==> u == MAIN)
      ensures MAIN in old(co) && result == if r.Receiving? then old(result)[MAIN := old(co)[MAIN].value] else old(result)
      ensures r.Receiving? ==> Distinct(old(ch)[r.c].receivers)
    {
      hide Consistent, Fifos, Unqueued;
      LoopRuns(Now());
      r := if ready == [] && stacklet.None? then rest[MAIN] else Return;
      ghost var due := if ready == [] then None else Some(ready[0]);
      ghost var was := ch;
      var h := GetNext();
      MainWaits(Now(), due);
      EndInto(h, due);
      if current.None? { NothingQueued(was); }
      assert ch == Unqueued(was, r, if current.Some? then current.value else MAIN);
    }

    /** The call that the fallback has broken off is struck from the log. */
    ghost method NoteBreak(was: map<Name, Channel>, got: map<nat, int>, r: Rest, v: int)
      requires Fifos(co, was, logs) && Semaphores(was, counter, accounts) && Kept(was, logs, got, last)
      requires r.Receiving? ==> r.c in was && MAIN in was[r.c].receivers && Distinct(was[r.c].receivers)
      requires r.Sending? ==> r.c in was && MAIN in was[r.c].senders
      requires exists u :: ch == Unqueued(was, r, u) && (r.Receiving? || r.Sending? ==> u == MAIN)
      requires result == if r.Receiving? then got[MAIN := v] else got
      modifies `logs, `broken, `last
      ensures Fifos(co, ch, logs) && Semaphores(ch, counter, accounts) && Received()
      ensures broken == old(broken) + if r.Receiving? || r.Sending? then 1 else 0
      ensures broken == old(broken) ==> ch == was && logs == old(logs) && last == old(last)
      ensures !r.Sending? ==> SameSent(old(logs), logs)
    {
      hide Fifos, Semaphores, Unqueued, Broken, SameSent, Kept, Forgotten;
      BreakOff(co, was, logs, counter, accounts, r);
      ghost var kept := KeptBreak(was, logs, got, result, last, r, v);
      logs := Broken(was, logs, r, MAIN);
      last := kept;
      broken := broken + if r.Receiving? || r.Sending? then 1 else 0;
    }

    /** The switch from a stack that ends to the stack of `h`. */
    method EndInto(h: nat, ghost due: Option<nat>)
      requires Consistent(Now(), due) && h in suspended && h !in used && current != Some(MAIN) && Running()
      requires match suspended[h].current
               case None => due == None && ready == []
               case Some(t) => t !in ready && (due == None || due == Some(t))
      requires Fifos(co, ch, logs)
      modifies `co, `current, `stacklet, `exits, `suspended, `used, `ch, `timers, `result, `rest
      ensures Consistent(Now(), None) && Running() && Fifos(co, old(ch), logs)
      ensures current == old(suspended)[h].current
      ensures exits == old(exits) + if old(current).Some? then [old(current).value] else []
      ensures current.Some? ==> current.value in old(rest)
      ensures ch == if current.Some? then Unqueued(old(ch), old(rest)[current.value], current.value) else old(ch)
      ensures current.Some? && old(rest)[current.value].StopTimer? ==> timers == old(timers) - {current.value}
      ensures old(current).Some? && current.Some? ==> stacklet == old(stacklet)
      ensures current.Some? && old(rest)[current.value].Receiving? ==>
        current.value in old(co) && result == old(result)[current.value := old(co)[current.value].value]
      ensures current.None? || !old(rest)[current.value].Receiving? ==> result == old(result)
    {
      hide Consistent, Fifos, Unqueued, Moved;
      ghost var s := Now();
      StackOf(s, due, h);
      EndKeeps(s, due, h);
      EndEffects(s, h);
      if current.Some? { rest := rest - {current.value}; }
      Resume(h, Empty);
      assert Now() == Ended(s, h);
      FifosValues(s.co, co, s.ch, logs);
    }
  }

  lemma ToHub(s: Snapshot)
    requires s.current.Some? && s.current.value in s.co
    ensures var m := Moved(s.co, s.current, Handle(s.next), None);
            && m.Keys == s.co.Keys
            && forall u | u in s.co :: m[u].value == s.co[u].value && m[u].state == s.co[u].state
  {
  }

  lemma NewIsNotLive(s: Snapshot, t: nat)
    requires Consistent(s, None) && t in s.co && s.co[t].state == New
    ensures t !in s.rest && s.current != Some(t)
    ensures forall n | n in s.ch :: t !in s.ch[n].receivers && t !in s.ch[n].senders
  {
  }

  /** A timer that is armed is the timer of a cothread that sleeps. */
  lemma TimerFires(s: Snapshot, t: nat)
    requires Consistent(s, None) && t in s.timers
    ensures t in s.rest && t in s.co && s.rest[t] == StopTimer && s.co[t].state == WaitingTimer && t !in s.ready
    ensures Consistent(s.(timers := s.timers - {t}), Some(t))
  {
    hide Stacks, Exits, Distinct;
  }

  lemma FifosValues(co: map<nat, Cothread>, co': map<nat, Cothread>, ch: map<Name, Channel>, logs: map<Name, Log>)
    requires Fifos(co, ch, logs)
    requires forall u | u in co :: u in co' && co'[u].value == co[u].value
    ensures Fifos(co', ch, logs)
  {
    forall c | c in ch ensures Fifo(co', ch[c], logs[c]) { assert Fifo(co, ch[c], logs[c]); }
  }

  lemma FifosNew(co: map<nat, Cothread>, ch: map<Name, Channel>, logs: map<Name, Log>, c: Name)
    requires Fifos(co, ch, logs) && c !in ch
    ensures Fifos(co, ch[c := Channel([], [])], logs[c := Log([], [])])
  {
  }

  lemma FifosReceiveBlocks(co: map<nat, Cothread>, ch: map<Name, Channel>, logs: map<Name, Log>, c: Name, t: nat)
    requires Fifos(co, ch, logs) && c in ch && t in co && ch[c].senders == []
    ensures Fifos(co, ch[c := ch[c].(receivers := ch[c].receivers + [t])], logs[c := logs[c].(got := logs[c].got + [None])])
  {
    FifoBlocks(co, ch[c], logs[c], t, 0);
    FifosUpdate(co, co, ch, logs, c, ch[c].(receivers := ch[c].receivers + [t]), logs[c].(got := logs[c].got + [None]));
  }

  lemma FifosTake(co: map<nat, Cothread>, ch: map<Name, Channel>, logs: map<Name, Log>, c: Name)
    requires Fifos(co, ch, logs) && c in ch && ch[c].senders != []
    ensures ch[c].senders[0] in co
    ensures Fifos(co, ch[c := ch[c].(senders := ch[c].senders[1..])],
                  logs[c := logs[c].(got := logs[c].got + [Some(co[ch[c].senders[0]].value)])])
  {
    FifoTakes(co, ch[c], logs[c]);
    FifosUpdate(co, co, ch, logs, c, ch[c].(senders := ch[c].senders[1..]),
                logs[c].(got := logs[c].got + [Some(co[ch[c].senders[0]].value)]));
  }

  lemma FifosSendBlocks(s: Snapshot, logs: map<Name, Log>, c: Name, t: nat, v: int)
    requires Fifos(s.co, s.ch, logs) && c in s.ch && t in s.co && s.ch[c].receivers == []
    requires Consistent(s, None) && t in s.rest && s.rest[t] == Return
    ensures Fifos(Offering(s, t, c, v).co, Offering(s, t, c, v).ch, logs[c := logs[c].(sent := logs[c].sent + [v])])
  {
    var e := Offering(s, t, c, v);
    FifosValue(s, logs, t, c, v);
    var co := s.co[t := s.co[t].(value := v)];
    FifoBlocks(co, s.ch[c], logs[c], t, v);
    FifosUpdate(co, e.co, s.ch, logs, c, e.ch[c], logs[c].(sent := logs[c].sent + [v]));
  }

  /** The value of a cothread that waits in no queue of senders is of no account. */
  lemma FifosValue(s: Snapshot, logs: map<Name, Log>, t: nat, c: Name, v: int)
    requires Fifos(s.co, s.ch, logs) && t in s.co && Consistent(s, None)
    requires t in s.rest && !s.rest[t].Sending?
    ensures Fifos(s.co[t := s.co[t].(value := v)], s.ch, logs)
  {
    var e := s.co[t := s.co[t].(value := v)];
    forall n | n in s.ch ensures Fifo(e, s.ch[n], logs[n]) {
      hide Consistent;
      assert Fifo(s.co, s.ch[n], logs[n]);
      Waiting(s, n, t);
    }
  }

  lemma FifosDeliver(s: Snapshot, logs: map<Name, Log>, c: Name, t: nat, v: int)
    requires Fifos(s.co, s.ch, logs) && c in s.ch && s.ch[c].receivers != [] && t in s.co && Consistent(s, None)
    requires t in s.rest && !s.rest[t].Sending?
    ensures |s.ch[c].receivers| <= |logs[c].got|
    ensures var k, l := s.ch[c], logs[c];
      Fifos(s.co[t := s.co[t].(value := v)], s.ch[c := k.(receivers := k.receivers[1..])],
            logs[c := Log(l.sent + [v], l.got[|l.got| - |k.receivers| := Some(v)])])
  {
    var e := s.co[t := s.co[t].(value := v)];
    var k, l := s.ch[c], logs[c];
    FifosValue(s, logs, t, c, v);
    FifoDelivers(e, k, l, v);
    FifosUpdate(e, e, s.ch, logs, c, k.(receivers := k.receivers[1..]),
                Log(l.sent + [v], l.got[|l.got| - |k.receivers| := Some(v)]));
  }

  lemma HeadSender(co: map<nat, Cothread>, ch: map<Name, Channel>, logs: map<Name, Log>, c: Name)
    requires Fifos(co, ch, logs) && c in ch
    ensures |ch[c].senders| <= |logs[c].sent|
    ensures ch[c].senders != [] ==>
      ch[c].senders[0] in co && co[ch[c].senders[0]].value == logs[c].sent[|logs[c].sent| - |ch[c].senders|]
  {
    assert Fifo(co, ch[c], logs[c]);
  }

  /** Semaphores do not depend on the channels of others. */
  lemma SemaphoresElsewhere(ch: map<Name, Channel>, ch': map<Name, Channel>, counter: map<nat, int>,
                            accounts: map<nat, Account>, c: Name)
    requires Semaphores(ch, counter, accounts) && c.Plain? && c in ch
    requires ch'.Keys == ch.Keys && forall n | n in ch && n != c :: ch'[n] == ch[n]
    ensures Semaphores(ch', counter, accounts)
  {
  }

  /** A release grants the longest waiter, or raises the counter. */
  lemma SemaphoreReleased(ch: map<Name, Channel>, counter: map<nat, int>, accounts: map<nat, Account>, s: nat)
    requires Semaphores(ch, counter, accounts) && s in counter
    ensures s in accounts && OfSemaphore(s) in ch && ch[OfSemaphore(s)].senders == []
    ensures var k, a := ch[OfSemaphore(s)], accounts[s];
      if k.receivers == [] then
        Semaphores(ch, counter[s := counter[s] + 1], accounts[s := a.(released := a.released + 1)])
      else
        Semaphores(ch[OfSemaphore(s) := k.(receivers := k.receivers[1..])], counter,
                   accounts[s := a.(released := a.released + 1, granted := a.granted + 1)])
  {
    assert Balanced(ch[OfSemaphore(s)], counter[s], accounts[s]);
  }

  /** A wait that is broken off leaves the accounts as they are. */
  lemma SemaphoresBreak(ch: map<Name, Channel>, counter: map<nat, int>, accounts: map<nat, Account>, r: Rest, t: nat)
    requires Semaphores(ch, counter, accounts)
    ensures Semaphores(Unqueued(ch, r, t), counter, accounts)
  {
    forall s | s in counter ensures Balanced(Unqueued(ch, r, t)[OfSemaphore(s)], counter[s], accounts[s]) {
      assert Balanced(ch[OfSemaphore(s)], counter[s], accounts[s]);
    }
  }

  /** The values sent on every channel are still the same. */
  ghost predicate SameSent(logs: map<Name, Log>, logs': map<Name, Log>) {
    logs.Keys == logs'.Keys && forall c | c in logs :: logs[c].sent == logs'[c].sent
  }

  /** What the fallback leaves of the channels and their calls. */
  lemma BreakOff(co: map<nat, Cothread>, ch: map<Name, Channel>, logs: map<Name, Log>, counter: map<nat, int>,
                 accounts: map<nat, Account>, r: Rest)
    requires Fifos(co, ch, logs) && Semaphores(ch, counter, accounts)
    requires r.Receiving? ==> r.c in ch && MAIN in ch[r.c].receivers
    requires r.Sending? ==> r.c in ch && MAIN in ch[r.c].senders
    ensures forall c | c in ch :: c in logs && |ch[c].receivers| <= |logs[c].got| && |ch[c].senders| <= |logs[c].sent|
    ensures !r.Sending? ==> SameSent(logs, Broken(ch, logs, r, MAIN))
    ensures Fifos(co, Unqueued(ch, r, MAIN), Broken(ch, logs, r, MAIN))
    ensures Semaphores(Unqueued(ch, r, MAIN), counter, accounts)
    ensures !r.Receiving? && !r.Sending? ==> Broken(ch, logs, r, MAIN) == logs && forall u :: Unqueued(ch, r, u) == ch
  {
    FifosSizes(co, ch, logs);
    assert !r.Sending? ==> SameSent(logs, Broken(ch, logs, r, MAIN)) by { hide Fifos, Semaphores, Unqueued, Removed; }
    hide Fifos, Semaphores, Unqueued, Broken;
    FifosBreak(co, ch, logs, r, MAIN);
    SemaphoresBreak(ch, counter, accounts, r, MAIN);
    if !r.Receiving? && !r.Sending? { NoBreak(ch, logs, r, MAIN); }
  }

  lemma EndEffects(s: Snapshot, h: nat)
    requires h in s.suspended && (s.current.Some? ==> s.current.value in s.co)
    requires var to := s.suspended[h].current; to != s.current && (to.Some? ==> to.value in s.co && to.value in s.rest)
    ensures var e, to := Ended(s, h), s.suspended[h].current;
      && e.co.Keys == s.co.Keys
      && (forall u | u in s.co :: e.co[u].value == s.co[u].value)
      && (to.Some? ==> e.co[to.value].state == Current && to.value in e.rest && e.rest[to.value] == Return)
  {
  }

  lemma CurrentIsNotReady(s: Snapshot)
    requires Consistent(s, None)
    ensures s.current.Some? && s.current.value in s.co && s.co[s.current.value].state == Current ==>
      s.current.value !in s.ready
  {
  }

  lemma LoopRuns(s: Snapshot)
    requires Consistent(s, None)
    ensures s.current.None? ==> s.hub.None? && s.ready == []
    ensures MAIN in s.rest
  {
  }

  lemma StackOf(s: Snapshot, due: Option<nat>, h: nat)
    requires Consistent(s, due) && h in s.suspended
    ensures (s.current.Some? ==> s.current.value in s.co && s.current.value in s.rest)
    ensures var to := s.suspended[h].current;
      && to != s.current && (to.None? ==> s.suspended[h].rest == Return)
      && (to.Some? ==> to.value in s.co && to.value in s.rest && s.rest[to.value] == s.suspended[h].rest)
  {
    hide Queues, Exits;
    OwnerOf(s.co, s.current, s.hub, s.suspended, s.next, s.rest, h);
  }

  lemma MainWaits(s: Snapshot, due: Option<nat>)
    requires Consistent(s, due)
    ensures MAIN in s.rest
    ensures s.rest[MAIN].Receiving? ==> s.rest[MAIN].c in s.ch && MAIN in s.ch[s.rest[MAIN].c].receivers
    ensures s.rest[MAIN].Sending? ==> s.rest[MAIN].c in s.ch && MAIN in s.ch[s.rest[MAIN].c].senders
    ensures s.rest[MAIN].StopTimer? && due == None ==> MAIN in s.timers
    ensures MAIN in s.co && (s.rest[MAIN].Receiving? ==> Distinct(s.ch[s.rest[MAIN].c].receivers))
  {
  }

  /** A cothread that runs waits in no channel. */
  lemma NotWaiting(s: Snapshot, t: nat)
    requires Consistent(s, None) && t in s.rest && s.rest[t] == Return
    ensures forall c | c in s.ch :: t !in s.ch[c].receivers
  {
    hide Stacks, Exits, Distinct;
  }

  lemma OneSided(co: map<nat, Cothread>, ch: map<Name, Channel>, logs: map<Name, Log>, c: Name)
    requires Fifos(co, ch, logs) && c in ch && ch[c].senders != []
    ensures ch[c].receivers == []
  {
    assert Fifo(co, ch[c], logs[c]);
  }

  /** What the fallback leaves of the last receives. */
  lemma KeptBreak(ch: map<Name, Channel>, logs: map<Name, Log>, got: map<nat, int>, result: map<nat, int>,
                  last: map<nat, Receipt>, r: Rest, v: int) returns (last': map<nat, Receipt>)
    requires Kept(ch, logs, got, last)
    requires forall c | c in ch :: c in logs && |ch[c].receivers| <= |logs[c].got| && |ch[c].senders| <= |logs[c].sent|
    requires r.Receiving? ==> r.c in ch && MAIN in ch[r.c].receivers && Distinct(ch[r.c].receivers)
    requires r.Sending? ==> r.c in ch && MAIN in ch[r.c].senders
    requires result == if r.Receiving? then got[MAIN := v] else got
    ensures Kept(Unqueued(ch, r, MAIN), Broken(ch, logs, r, MAIN), result, last')
    ensures !r.Receiving? ==> last' == last
  {
    hide Kept, Unqueued, Broken, Forgotten, Distinct, Without, Removed, IndexOf;
    match r
    case Receiving(c) =>
      last' := Forgotten(last, c, |logs[c].got| - |ch[c].receivers| + IndexOf(ch[c].receivers, MAIN));
      KeptBreakReceive(ch, logs, got, last, r, v);
    case Sending(c) =>
      KeptBreakSend(ch, logs, got, last, r);
      last' := last;
    case _ =>
      NoBreak(ch, logs, r, MAIN);
      last' := last;
  }

  lemma KeptBreakReceive(ch: map<Name, Channel>, logs: map<Name, Log>, got: map<nat, int>, last: map<nat, Receipt>, r: Rest,
                         v: int)
    requires Kept(ch, logs, got, last)
    requires forall c | c in ch :: c in logs && |ch[c].receivers| <= |logs[c].got| && |ch[c].senders| <= |logs[c].sent|
    requires r.Receiving? && r.c in ch && MAIN in ch[r.c].receivers && Distinct(ch[r.c].receivers)
    ensures Kept(Unqueued(ch, r, MAIN), Broken(ch, logs, r, MAIN), got[MAIN := v],
                 Forgotten(last, r.c, |logs[r.c].got| - |ch[r.c].receivers| + IndexOf(ch[r.c].receivers, MAIN)))
  {
    hide Kept, Unqueued, Broken, Forgotten, Distinct, Without, Removed, IndexOf;
    UnqueuedReceive(ch, logs, r);
    KeptBroken(ch, logs, got, last, r.c, MAIN, v);
  }

  lemma UnqueuedReceive(ch: map<Name, Channel>, logs: map<Name, Log>, r: Rest)
    requires r.Receiving? && r.c in ch && MAIN in ch[r.c].receivers && Distinct(ch[r.c].receivers)
    requires forall c | c in ch :: c in logs && |ch[c].receivers| <= |logs[c].got| && |ch[c].senders| <= |logs[c].sent|
    ensures var k, l, p := ch[r.c], logs[r.c], IndexOf(ch[r.c].receivers, MAIN);
      && Unqueued(ch, r, MAIN) == ch[r.c := k.(receivers := Removed(k.receivers, p))]
      && Broken(ch, logs, r, MAIN) == logs[r.c := l.(got := Removed(l.got, |l.got| - |k.receivers| + p))]
  {
    hide Distinct, Removed, Without;
  }

  lemma KeptBreakSend(ch: map<Name, Channel>, logs: map<Name, Log>, got: map<nat, int>, last: map<nat, Receipt>, r: Rest)
    requires Kept(ch, logs, got, last)
    requires forall c | c in ch :: c in logs && |ch[c].receivers| <= |logs[c].got| && |ch[c].senders| <= |logs[c].sent|
    requires r.Sending? && r.c in ch && MAIN in ch[r.c].senders
    ensures Kept(Unqueued(ch, r, MAIN), Broken(ch, logs, r, MAIN), got, last)
  {
    assert ch.Keys == logs.Keys;
    hide Kept, Unqueued, Broken;
    UnqueuedSend(ch, logs, r);
    KeptElsewhere(ch, logs, got, last, Unqueued(ch, r, MAIN), Broken(ch, logs, r, MAIN));
  }

  lemma UnqueuedSend(ch: map<Name, Channel>, logs: map<Name, Log>, r: Rest)
    requires r.Sending? && r.c in ch && MAIN in ch[r.c].senders
    requires forall c | c in ch :: c in logs && |ch[c].receivers| <= |logs[c].got| && |ch[c].senders| <= |logs[c].sent|
    requires ch.Keys == logs.Keys
    ensures var ch', logs' := Unqueued(ch, r, MAIN), Broken(ch, logs, r, MAIN);
      && ch'.Keys == ch.Keys == logs'.Keys
      && forall c | c in ch :: ch'[c].receivers == ch[c].receivers && logs'[c].got == logs[c].got
  {
    hide Without, Removed;
  }

  lemma NothingQueued(ch: map<Name, Channel>)
    ensures Unqueued(ch, Return, MAIN) == ch
  {
  }

  /** Only a blocked call can be broken off. */
  lemma NoBreak(ch: map<Name, Channel>, logs: map<Name, Log>, r: Rest, t: nat)
    requires forall c | c in ch :: c in logs && |ch[c].receivers| <= |logs[c].got| && |ch[c].senders| <= |logs[c].sent|
    requires !r.Receiving? && !r.Sending?
    ensures Broken(ch, logs, r, t) == logs
    ensures forall u :: Unqueued(ch, r, u) == ch
  {
  }
}
