/** The file watchers of libuv/src/fs-poll.c: contexts that outlive the watcher they were made for
    until their stat request and their timer are done. */
module FsPoll {
  import opened Options

  datatype Timer = Idle | Armed(due: int) | Closing

  type errno = x: int | 0 < x witness 1

  /** What a stat request finds: a buffer, as a value, or an error. */
  datatype Result = Found(buf: int) | Missing(error: errno)

  /** struct poll_ctx; `stat` tells whether its request is under way. */
  datatype Context = Context(parent: Option<nat>, busyPolling: int, interval: int, startTime: int,
                             stat: bool, timer: Timer, statbuf: int)

  /** A call of the user's callback: for which watcher, with the buffer of the last success (zeros if
      there was none) and the new result. */
  datatype Notice = Notice(handle: nat, before: int, now: Result)

  const ZEROS: int := 0

  /** The buffer of the last success, zeros if there was none. */
  function LastBuf(found: seq<Result>): int {
    if found == [] then ZEROS
    else if found[|found| - 1].Found? then found[|found| - 1].buf
    else LastBuf(found[..|found| - 1])
  }

  lemma {:induction false} LastBufIs(found: seq<Result>, i: nat)
    requires i < |found| && found[i].Found? && forall j | i < j < |found| :: found[j].Missing?
    ensures LastBuf(found) == found[i].buf
  {
    if i < |found| - 1 { LastBufIs(found[..|found| - 1], i); }
  }

  /** The watcher hears of a result that differs from the one before, and of a first failure. */
  predicate Newsworthy(found: seq<Result>, r: Result) {
    if found == [] then r.Missing? else found[|found| - 1] != r
  }

  /** What a callback may do. */
  datatype Op = Start(h: nat, interval: nat) | Stop(h: nat) | Wait(ms: nat)

  /** Whether a watcher is active after `ops`: the last one that names it decides. */
  predicate ActiveAfter(ops: seq<Op>, h: nat, was: bool) {
    if ops == [] then was else
    match ops[|ops| - 1]
    case Start(g, _) => g == h || ActiveAfter(ops[..|ops| - 1], h, was)
    case Stop(g) => g != h && ActiveAfter(ops[..|ops| - 1], h, was)
    case Wait(_) => ActiveAfter(ops[..|ops| - 1], h, was)
  }

  /** A context after `ops`: it has lost its watcher if and only if they stop that. */
  function ContextAfter(x: Context, ops: seq<Op>): Context {
    if x.parent.Some? && Stop(x.parent.value) in ops then LetGo(x) else x
  }

  /** The next point of the grid `start + k * interval` strictly after `now`. */
  function NextPoint(start: int, interval: int, now: int): int
    requires 0 < interval
  {
    now + (interval - (now - start) % interval)
  }

  function Point(start: int, interval: int, k: int): int {
    start + k * interval
  }

  ghost predicate OnGrid(start: int, interval: int, p: int) {
    exists k :: p == Point(start, interval, k)
  }

  lemma PointsGrow(start: int, interval: int, j: int, k: int)
    requires 0 < interval && j < k
    ensures Point(start, interval, j) + interval <= Point(start, interval, k)
  {
    assert (k - j - 1) * interval >= 0;
    assert (k - j) * interval == (k - j - 1) * interval + interval;
  }

  /** The re-arming aims at the first point of the grid strictly after now. */
  lemma NextPointIsNext(start: int, interval: int, now: int)
    requires 0 < interval && start <= now
    ensures var p := NextPoint(start, interval, now);
      && now < p <= now + interval && OnGrid(start, interval, p)
      && forall q | OnGrid(start, interval, q) && now < q :: p <= q
  {
    var p, k := NextPoint(start, interval, now), (now - start) / interval;
    assert now - start == k * interval + (now - start) % interval;
    assert (k + 1) * interval == k * interval + interval;
    assert p == Point(start, interval, k + 1);
    forall q | OnGrid(start, interval, q) && now < q ensures p <= q {
      var j :| q == Point(start, interval, j);
      if j < k + 1 { PointsGrow(start, interval, j, k + 1); }
      if k + 1 < j { PointsGrow(start, interval, k + 1, j); }
    }
  }

  // ---- the invariant ----

  /** Of stat request, armed timer and closing timer a context has exactly one, except in its own
      callback; an armed timer belongs to a watcher, and aims at a point of the grid. */
  ghost predicate Alive(x: Context, inCallback: bool) {
    && 0 < x.interval
    && (if inCallback then !x.stat && x.timer == Idle else x.stat == (x.timer == Idle))
    && (x.timer.Armed? ==> x.parent.Some? && x.startTime < x.timer.due && OnGrid(x.startTime, x.interval, x.timer.due))
    && (x.timer == Closing ==> x.parent == None)
  }

  /** What a context remembers of the results. */
  ghost predicate Remembers(x: Context, found: seq<Result>) {
    && x.statbuf == LastBuf(found)
    && if found == [] then x.busyPolling == 0 else
       match found[|found| - 1]
       case Found(_) => x.busyPolling == 1
       case Missing(e) => x.busyPolling + e == 0
  }

  ghost predicate Consistent(ctxs: map<nat, Context>, pollCtx: map<nat, nat>, results: map<nat, seq<Result>>,
                             next: nat, freed: seq<nat>, now: int, running: Option<nat>) {
    && ctxs.Keys == results.Keys
    && (forall c | c in ctxs :: c < next && c !in freed && Alive(ctxs[c], running == Some(c)))
    && (forall c | c in ctxs :: ctxs[c].startTime <= now && Remembers(ctxs[c], results[c]))
    && (forall c | c in ctxs && ctxs[c].parent.Some? ::
          ctxs[c].parent.value in pollCtx && pollCtx[ctxs[c].parent.value] == c)
    && (forall h | h in pollCtx :: pollCtx[h] in ctxs && ctxs[pollCtx[h]].parent == Some(h))
    && (forall i | 0 <= i < |freed| :: freed[i] < next)
    && (forall i, j | 0 <= i < j < |freed| :: freed[i] != freed[j])
    && (running.Some? ==> running.value in ctxs)
  }

  function LetGo(x: Context): Context {
    x.(parent := None, timer := if x.timer.Armed? then Closing else x.timer)
  }

  lemma LetGoKeeps(x: Context, inCallback: bool, results: seq<Result>)
    requires Alive(x, inCallback) && Remembers(x, results)
    ensures Alive(LetGo(x), inCallback) && Remembers(LetGo(x), results)
  {
  }

  /** A watcher lets go of its context. */
  lemma StopKeeps(ctxs: map<nat, Context>, pollCtx: map<nat, nat>, results: map<nat, seq<Result>>,
                  next: nat, freed: seq<nat>, now: int, running: Option<nat>, h: nat)
    requires Consistent(ctxs, pollCtx, results, next, freed, now, running) && h in pollCtx
    ensures var c := pollCtx[h];
      && c in ctxs && ctxs[c].parent.Some?
      && Consistent(ctxs[c := LetGo(ctxs[c])], pollCtx - {h}, results, next, freed, now, running)
  {
    hide Alive, Remembers;
    var c := pollCtx[h];
    LetGoKeeps(ctxs[c], running == Some(c), results[c]);
    var p := pollCtx - {h};
    var d := ctxs[c := LetGo(ctxs[c])];
    forall k | k in d && d[k].parent.Some? ensures d[k].parent.value in p && p[d[k].parent.value] == k {
      assert k != c && d[k] == ctxs[k];
    }
    forall g | g in p ensures p[g] in d && d[p[g]].parent == Some(g) {
      assert pollCtx[g] != c;
    }
  }

  /** A context changes, but not its owner. */
  lemma ChangeKeeps(ctxs: map<nat, Context>, pollCtx: map<nat, nat>, results: map<nat, seq<Result>>,
                    next: nat, freed: seq<nat>, now: int, was: Option<nat>, running: Option<nat>,
                    c: nat, x: Context, l: seq<Result>)
    requires Consistent(ctxs, pollCtx, results, next, freed, now, was) && c in ctxs
    requires x.parent == ctxs[c].parent && x.startTime <= now && Alive(x, running == Some(c)) && Remembers(x, l)
    requires (was == None || was == Some(c)) && (running == None || running == Some(c))
    ensures Consistent(ctxs[c := x], pollCtx, results[c := l], next, freed, now, running)
  {
    hide OnGrid;
    var d := ctxs[c := x];
    forall k | k in d ensures Alive(d[k], running == Some(k)) {
      if k != c { assert Alive(ctxs[k], was == Some(k)); }
    }
  }

  /** What is known of one context. */
  lemma OneContext(ctxs: map<nat, Context>, pollCtx: map<nat, nat>, results: map<nat, seq<Result>>,
                   next: nat, freed: seq<nat>, now: int, running: Option<nat>, c: nat)
    requires Consistent(ctxs, pollCtx, results, next, freed, now, running) && c in ctxs
    ensures Alive(ctxs[c], running == Some(c)) && c in results && Remembers(ctxs[c], results[c]) && ctxs[c].startTime <= now
    ensures ctxs[c].parent.Some? ==> ctxs[c].parent.value in pollCtx && pollCtx[ctxs[c].parent.value] == c
  {
  }

  class Loop {
    var now: int
    var ctxs: map<nat, Context>
    var next: nat
    /** handle->poll_ctx of the active watchers. */
    var pollCtx: map<nat, nat>
    var reports: seq<Notice>
    /** The contexts that were freed. */
    var freed: seq<nat>
    ghost var running: Option<nat>
    /** What the stat requests of each context have found while it had its watcher. */
    ghost var results: map<nat, seq<Result>>

    ghost predicate Valid()
      reads this
    {
      Consistent(ctxs, pollCtx, results, next, freed, now, running)
    }

    constructor ()
      ensures Valid() && running == None && ctxs == map[]
    {
      now, ctxs, next, pollCtx, reports, freed := 0, map[], 0, map[], [], [];
      running, results := None, map[];
    }

    /** uv_fs_poll_start: an inactive watcher gets a new context, with a stat request under way. */
    method StartWatcher(h: nat, interval: nat)
      requires Valid()
      modifies `ctxs, `next, `pollCtx, `results
      ensures Valid() && h in pollCtx
      ensures h in old(pollCtx) ==> ctxs == old(ctxs) && pollCtx == old(pollCtx)
      ensures h !in old(pollCtx) ==>
        pollCtx == old(pollCtx)[h := old(next)]
        && ctxs == old(ctxs)[old(next) := Context(Some(h), 0, if interval == 0 then 1 else interval, now, true, Idle, ZEROS)]
      ensures forall c | c in old(results) :: c in results && results[c] == old(results)[c]
    {
      if h in pollCtx { return; }
      var c := next;
      next := next + 1;
      ctxs := ctxs[c := Context(Some(h), 0, if interval == 0 then 1 else interval, now, true, Idle, ZEROS)];
      results := results[c := []];
      pollCtx := pollCtx[h := c];
    }

    /** uv_fs_poll_stop: the watcher lets go of its context; an armed timer is closed, else the stat
        request or the callback under way sees to it. */
    method StopWatcher(h: nat)
      requires Valid()
      modifies `ctxs, `pollCtx
      ensures Valid() && pollCtx == old(pollCtx) - {h}
      ensures h in old(pollCtx) ==>
        var c := old(pollCtx)[h];
        && c in old(ctxs)
        && ctxs == old(ctxs)[c := old(ctxs)[c].(parent := None,
                                  timer := if old(ctxs)[c].timer.Armed? then Closing else old(ctxs)[c].timer)]
      ensures h !in old(pollCtx) ==> ctxs == old(ctxs)
    {
      hide Remembers;
      if h !in pollCtx { return; }
      hide Consistent;
      StopKeeps(ctxs, pollCtx, results, next, freed, now, running, h);
      var c := pollCtx[h];
      assert ctxs[c].parent != None;
      ghost var goal := ctxs[c := LetGo(ctxs[c])];
      ctxs := ctxs[c := ctxs[c].(parent := None)];
      pollCtx := pollCtx - {h};
      if ctxs[c].timer.Armed? {
        ctxs := ctxs[c := ctxs[c].(timer := Closing)];
      }
      assert ctxs == goal;
    }

    /** The user's callback: it may stop and start any watchers, its own included, and take time. */
    method RunOps(ops: seq<Op>)
      requires Valid()
      modifies `ctxs, `next, `pollCtx, `results, `now
      ensures Valid() && old(now) <= now
      ensures forall h :: h in pollCtx <==> ActiveAfter(ops, h, h in old(pollCtx))
      ensures forall c | c in old(ctxs) ::
        && c in ctxs && ctxs[c] == ContextAfter(old(ctxs)[c], ops)
        && c in old(results) && c in results && results[c] == old(results)[c]
      ensures forall c | c in ctxs && c !in old(ctxs) :: ctxs[c].stat && c in results && results[c] == []
    {
      hide Consistent, OnGrid;
      var i := 0;
      TheResults();
      while i < |ops|
        invariant 0 <= i <= |ops| && Valid() && old(now) <= now
        invariant forall h :: h in pollCtx <==> ActiveAfter(ops[..i], h, h in old(pollCtx))
        invariant forall c | c in old(ctxs) ::
          && c in ctxs && ctxs[c] == ContextAfter(old(ctxs)[c], ops[..i])
          && c in results && results[c] == old(results)[c]
        invariant forall c | c in ctxs && c !in old(ctxs) :: ctxs[c].stat && c in results && results[c] == []
      {
        assert ops[..i + 1] == ops[..i] + [ops[i]] && ops[..i + 1][..i] == ops[..i];
        RunOp(ops[i]);
        i := i + 1;
      }
      assert ops[..i] == ops;
    }

    lemma TheResults()
      requires Valid()
      ensures ctxs.Keys == results.Keys
    {
    }

    method RunOp(op: Op)
      requires Valid()
      modifies `ctxs, `next, `pollCtx, `results, `now
      ensures Valid() && old(now) <= now
      ensures forall h :: h in pollCtx <==> match op
                                            case Start(g, _) => g == h || h in old(pollCtx)
                                            case Stop(g) => g != h && h in old(pollCtx)
                                            case Wait(_) => h in old(pollCtx)
      ensures forall c | c in old(ctxs) ::
        && c in ctxs && ctxs[c] == ContextAfter(old(ctxs)[c], [op])
        && c in old(results) && c in results && results[c] == old(results)[c]
      ensures forall c | c in ctxs && c !in old(ctxs) :: ctxs[c].stat && c in results && results[c] == []
    {
      hide Alive, LastBuf;
      match op {
        case Start(h, interval) => StartWatcher(h, interval);
        case Stop(h) => StopWatcher(h);
        case Wait(ms) => now := now + ms;
      }
    }

    /** timer_cb: the timer of a context fires, and the next stat request is made. */
    method TimerFires(c: nat)
      requires Valid() && running == None && c in ctxs && ctxs[c].timer.Armed?
      modifies `ctxs
      ensures Valid() && ctxs == old(ctxs)[c := old(ctxs)[c].(timer := Idle, startTime := now, stat := true)]
    {
      hide Consistent, OnGrid;
      OneContext(ctxs, pollCtx, results, next, freed, now, running, c);
      assert ctxs[c].parent != None;
      assert pollCtx[ctxs[c].parent.value] == c;
      ChangeKeeps(ctxs, pollCtx, results, next, freed, now, None, None, c,
                  ctxs[c].(timer := Idle, startTime := now, stat := true), results[c]);
      assert results[c := results[c]] == results;
      ctxs := ctxs[c := ctxs[c].(timer := Idle, startTime := now, stat := true)];
    }

    /** timer_close_cb: the context is freed. */
    method TimerClosed(c: nat)
      requires Valid() && running == None && c in ctxs && ctxs[c].timer == Closing
      modifies `ctxs, `freed, `results
      ensures Valid() && c !in ctxs && freed == old(freed) + [c] && c !in old(freed)
    {
      hide OnGrid, Remembers;
      ctxs := ctxs - {c};
      results := results - {c};
      freed := freed + [c];
    }

    /** A callback reports a result to a watcher that is active. */
    method Report(c: nat, r: Result, ops: seq<Op>)
      requires Valid() && running == Some(c) && c in ctxs && ctxs[c].parent.Some?
      modifies `ctxs, `next, `pollCtx, `results, `now, `reports
      ensures Valid() && old(now) <= now && c in ctxs && c in results && c in old(results) && results[c] == old(results)[c]
      ensures ctxs[c] == ContextAfter(old(ctxs)[c], ops)
      ensures forall h :: h in pollCtx <==> ActiveAfter(ops, h, h in old(pollCtx))
      ensures reports == old(reports) + [Notice(old(ctxs)[c].parent.value, LastBuf(old(results)[c]), r)]
    {
      hide Consistent, OnGrid;
      OneContext(ctxs, pollCtx, results, next, freed, now, running, c);
      var h := ctxs[c].parent.value;
      assert h in pollCtx && pollCtx[h] == c;
      assert Remembers(ctxs[c], results[c]);
      reports := reports + [Notice(h, ctxs[c].statbuf, r)];
      RunOps(ops);
    }

    /** poll_cb: the watcher hears of the result if it differs from the one before, but not of the first
        success; then the timer is armed for the next point of the grid, or, if the watcher was stopped,
        closed. */
    method StatDone(c: nat, r: Result, ops: seq<Op>)
      requires Valid() && running == None && c in ctxs && ctxs[c].stat
      modifies this
      ensures Valid() && running == None && c in old(results)
      ensures reports == old(reports) +
        if old(ctxs)[c].parent.Some? && Newsworthy(old(results)[c], r)
        then [Notice(old(ctxs)[c].parent.value, LastBuf(old(results)[c]), r)] else []
      ensures c in ctxs && c in results
      ensures results[c] == old(results)[c] + if old(ctxs)[c].parent.Some? then [r] else []
      ensures ctxs[c].timer == if ctxs[c].parent == None then Closing
        else Armed(NextPoint(ctxs[c].startTime, old(ctxs)[c].interval, now))
      ensures ctxs[c].parent == ContextAfter(old(ctxs)[c], if reports == old(reports) then [] else ops).parent
      ensures forall h :: h in pollCtx <==>
        ActiveAfter(if reports == old(reports) then [] else ops, h, h in old(pollCtx))
      ensures ctxs[c].startTime == old(ctxs)[c].startTime && ctxs[c].interval == old(ctxs)[c].interval
    {
      hide Consistent, OnGrid;
      Answered(c);
      ctxs := ctxs[c := ctxs[c].(stat := false)];
      running := Some(c);
      OneContext(ctxs, pollCtx, results, next, freed, now, running, c);
      if ctxs[c].parent == None {
        Finish(c, results[c]);
        return;
      }
      match r {
        case Missing(e) =>
          var code: int := e;
          if ctxs[c].busyPolling != -code {
            Report(c, r, ops);
            Noted(c, ctxs[c].(busyPolling := -code), r);
            ctxs := ctxs[c := ctxs[c].(busyPolling := -code)];
          } else {
            Noted(c, ctxs[c], r);
            assert ctxs[c := ctxs[c]] == ctxs;
          }
        case Found(buf) =>
          if ctxs[c].busyPolling != 0 {
            if ctxs[c].busyPolling < 0 || ctxs[c].statbuf != buf {
              Report(c, r, ops);
            }
          }
          Noted(c, ctxs[c].(statbuf := buf, busyPolling := 1), r);
          ctxs := ctxs[c := ctxs[c].(statbuf := buf, busyPolling := 1)];
      }
      results := results[c := results[c] + [r]];
      Finish(c, results[c]);
    }

    lemma Answered(c: nat)
      requires Valid() && running == None && c in ctxs && ctxs[c].stat
      ensures Consistent(ctxs[c := ctxs[c].(stat := false)], pollCtx, results, next, freed, now, Some(c))
    {
      OneContext(ctxs, pollCtx, results, next, freed, now, running, c);
      ChangeKeeps(ctxs, pollCtx, results, next, freed, now, None, Some(c), c, ctxs[c].(stat := false), results[c]);
      assert results[c := results[c]] == results;
    }

    lemma Noted(c: nat, x: Context, r: Result)
      requires Valid() && running == Some(c) && c in ctxs
      requires x == ctxs[c].(statbuf := x.statbuf, busyPolling := x.busyPolling)
      requires match r
               case Found(buf) => x.busyPolling == 1 && x.statbuf == buf
               case Missing(e) => x.busyPolling + e == 0 && x.statbuf == ctxs[c].statbuf
      ensures c in results && Consistent(ctxs[c := x], pollCtx, results[c := results[c] + [r]], next, freed, now, running)
    {
      OneContext(ctxs, pollCtx, results, next, freed, now, running, c);
      ChangeKeeps(ctxs, pollCtx, results, next, freed, now, running, running, c, x, results[c] + [r]);
    }

    /** The end of poll_cb. */
    method Finish(c: nat, ghost l: seq<Result>)
      requires Valid() && running == Some(c) && c in ctxs && c in results && results[c] == l
      modifies `ctxs, `running
      ensures Valid() && running == None && c in ctxs
      ensures ctxs[c].timer == if ctxs[c].parent == None then Closing
        else Armed(NextPoint(ctxs[c].startTime, ctxs[c].interval, now))
      ensures ctxs[c] == old(ctxs)[c].(timer := ctxs[c].timer) && 0 < ctxs[c].interval
    {
      hide Consistent;
      OneContext(ctxs, pollCtx, results, next, freed, now, running, c);
      var timer := Closing;
      if ctxs[c].parent != None {
        NextPointIsNext(ctxs[c].startTime, ctxs[c].interval, now);
        timer := Armed(NextPoint(ctxs[c].startTime, ctxs[c].interval, now));
      }
      hide OnGrid;
      ChangeKeeps(ctxs, pollCtx, results, next, freed, now, running, None, c, ctxs[c].(timer := timer), l);
      assert results[c := l] == results;
      ctxs := ctxs[c := ctxs[c].(timer := timer)];
      running := None;
    }
  }

  // ---- whole runs ----

  datatype Event = User(op: Op) | Stat(c: nat, r: Result, ops: seq<Op>) | Fire(c: nat) | Closed(c: nat)

  /** In every run each context is freed at most once, and none is used after that. */
  method Run(loop: Loop, events: seq<Event>)
    requires loop.Valid() && loop.running == None
    modifies loop
    ensures loop.Valid() && loop.running == None
  {
    hide Consistent;
    var i := 0;
    while i < |events|
      invariant 0 <= i <= |events| && loop.Valid() && loop.running == None
    {
      match events[i] {
        case User(op) => loop.RunOps([op]);
        case Stat(c, r, ops) => if c in loop.ctxs && loop.ctxs[c].stat { loop.StatDone(c, r, ops); }
        case Fire(c) => if c in loop.ctxs && loop.ctxs[c].timer.Armed? { loop.TimerFires(c); }
        case Closed(c) => if c in loop.ctxs && loop.ctxs[c].timer == Closing { loop.TimerClosed(c); }
      }
      i := i + 1;
    }
  }

  /** Between callbacks a context is doing exactly one thing; it was never freed; and an active watcher
      has exactly one context, which a stopped one has let go of. */
  lemma OneThing(loop: Loop, c: nat)
    requires loop.Valid() && loop.running == None && c in loop.ctxs
    ensures var x := loop.ctxs[c];
      && (x.stat ==> x.timer == Idle) && (!x.stat ==> x.timer.Armed? || x.timer == Closing)
      && (x.timer.Armed? ==> x.parent.Some?)
      && (x.parent.Some? <==> exists h :: h in loop.pollCtx && loop.pollCtx[h] == c)
    ensures c !in loop.freed
    ensures forall g, h | g in loop.pollCtx && h in loop.pollCtx && loop.pollCtx[g] == loop.pollCtx[h] :: g == h
  {
    hide OnGrid;
    assert Alive(loop.ctxs[c], false);
    if loop.ctxs[c].parent.Some? { assert loop.pollCtx[loop.ctxs[c].parent.value] == c; }
  }
}
