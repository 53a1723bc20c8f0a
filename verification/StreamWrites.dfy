/** The write side of libuv/src/unix/stream.c: the queue of write requests, a kernel that takes any
    part of what it is offered, and the callbacks. */
module StreamWrites {
  import opened Options

  /** What write or writev returns: a number of bytes taken, EAGAIN, or another error. */
  datatype Outcome = Wrote(n: nat) | Again | Failed(errno: errno)

  type errno = x: int | 0 < x witness 1

  /** One call of write or writev: what it was offered, and what it returned. */
  datatype Offer = Offer(data: seq<int>, answer: Outcome)

  /** A write request in a queue: its buffers as they are, with what is written cut off. */
  datatype Request = Request(id: nat, bufs: seq<seq<int>>, index: nat, error: int)

  /** A callback: 0, an error of the kernel, or ECANCELED. */
  datatype Call = Call(id: nat, status: int)

  const ECANCELED: int := -1

  /** What a callback may do with the stream. */
  datatype Op = Write(bufs: seq<seq<int>>) | Shutdown | Close

  // ---- buffers ----

  function Flat(bufs: seq<seq<int>>): seq<int> {
    if bufs == [] then [] else bufs[0] + Flat(bufs[1..])
  }

  /** The bytes of a request that are not written yet. */
  function Left(r: Request): seq<int>
    requires r.index <= |r.bufs|
  {
    Flat(r.bufs[r.index..])
  }

  /** uv__buf_count. */
  method BufCount(bufs: seq<seq<int>>) returns (total: nat)
    ensures total == |Flat(bufs)|
  {
    total := 0;
    var i := 0;
    assert bufs[0..] == bufs;
    while i < |bufs|
      invariant 0 <= i <= |bufs|
      invariant total + |Flat(bufs[i..])| == |Flat(bufs)|
    {
      assert bufs[i..][1..] == bufs[i + 1..];
      total := total + |bufs[i]|;
      i := i + 1;
    }
  }

  // ---- the kernel ----

  /** What the kernel takes of one offer: as many of the first bytes as it says, and never more than
      there are. */
  function Accepted(o: Offer): seq<int> {
    match o.answer
    case Wrote(k) => if k < |o.data| then o.data[..k] else o.data
    case _ => []
  }

  /** All that the kernel has taken. */
  function OnTheWire(offers: seq<Offer>): seq<int> {
    if offers == [] then [] else OnTheWire(offers[..|offers| - 1]) + Accepted(offers[|offers| - 1])
  }

  lemma WireMore(offers: seq<Offer>, o: Offer)
    ensures OnTheWire(offers + [o]) == OnTheWire(offers) + Accepted(o)
  {
    assert (offers + [o])[..|offers|] == offers;
  }

  /** What the kernel answers to its `n`-th offer. */
  function AnswerTo(answers: seq<Outcome>, n: nat, size: nat): Outcome {
    if n < |answers| then answers[n] else Wrote(size)
  }

  ghost predicate InQueue(r: Request) {
    r.index < |r.bufs| && r.error == 0
  }

  ghost function Sum(q: seq<Request>): nat
    requires forall i | 0 <= i < |q| :: InQueue(q[i])
  {
    if q == [] then 0 else
      assert InQueue(q[0]);
      |Left(q[0])| + Sum(q[1..])
  }

  // ---- the ledger ----

  /** What was submitted, in order, and how much of each request the kernel has taken. */
  function Sent(submitted: seq<seq<int>>, taken: seq<nat>, n: nat): seq<int>
    requires n <= |submitted| == |taken|
    requires forall i | 0 <= i < |taken| :: taken[i] <= |submitted[i]|
  {
    if n == 0 then [] else Sent(submitted, taken, n - 1) + submitted[n - 1][..taken[n - 1]]
  }

  /** Callbacks are called in the order of submission, the completed requests are next, then those in
      the write queue; a status of 0 means that the kernel has taken all of the data; of the queue only
      the first request is begun. */
  ghost predicate Ledger(submitted: seq<seq<int>>, taken: seq<nat>, calls: seq<Call>,
                         completed: seq<Request>, queue: seq<Request>) {
    && |taken| == |submitted| == |calls| + |completed| + |queue|
    && (forall i | 0 <= i < |taken| :: taken[i] <= |submitted[i]|)
    && (forall i | 0 <= i < |calls| :: calls[i].id == i && (calls[i].status == 0 ==> taken[i] == |submitted[i]|))
    && (forall i | 0 <= i < |completed| ::
          completed[i].id == |calls| + i
          && (completed[i].error == 0 ==> taken[|calls| + i] == |submitted[|calls| + i]|))
    && AllWait(submitted, taken, |calls| + |completed|, queue)
  }

  ghost predicate AllWait(submitted: seq<seq<int>>, taken: seq<nat>, done: nat, queue: seq<Request>)
    requires done + |queue| == |submitted| == |taken|
    requires forall i | 0 <= i < |taken| :: taken[i] <= |submitted[i]|
  {
    forall j | 0 <= j < |queue| :: Waits(submitted, taken, queue[j], done + j, j == 0)
  }

  ghost predicate Waits(submitted: seq<seq<int>>, taken: seq<nat>, r: Request, id: nat, first: bool)
    requires id < |submitted| == |taken|
    requires forall i | 0 <= i < |taken| :: taken[i] <= |submitted[i]|
  {
    && InQueue(r) && r.id == id
    && Left(r) == submitted[id][taken[id]..]
    && (first || taken[id] == 0)
  }

  lemma {:induction false} SentLater(submitted: seq<seq<int>>, taken: seq<nat>, h: nat, n: nat)
    requires h < n <= |submitted| == |taken|
    requires forall i | 0 <= i < |taken| :: taken[i] <= |submitted[i]|
    requires forall i | h < i < n :: taken[i] == 0
    ensures Sent(submitted, taken, n) == Sent(submitted, taken, h) + submitted[h][..taken[h]]
  {
    if h + 1 < n { SentLater(submitted, taken, h, n - 1); }
  }

  lemma {:induction false} SentSame(s: seq<seq<int>>, t: seq<nat>, s': seq<seq<int>>, t': seq<nat>, n: nat)
    requires n <= |s| == |t| && n <= |s'| == |t'|
    requires forall i | 0 <= i < |t| :: t[i] <= |s[i]|
    requires forall i | 0 <= i < |t'| :: t'[i] <= |s'[i]|
    requires forall i | 0 <= i < n :: s[i] == s'[i] && t[i] == t'[i]
    ensures Sent(s, t, n) == Sent(s', t', n)
  {
    if 0 < n { SentSame(s, t, s', t', n - 1); }
  }

  /** The first unfinished request takes `n` more bytes: they are the next ones on the wire. */
  lemma SentMore(submitted: seq<seq<int>>, taken: seq<nat>, h: nat, n: nat)
    requires h < |submitted| == |taken|
    requires forall i | 0 <= i < |taken| :: taken[i] <= |submitted[i]|
    requires forall i | h < i < |taken| :: taken[i] == 0
    requires taken[h] + n <= |submitted[h]|
    ensures var t := taken[h := taken[h] + n];
      Sent(submitted, t, |t|) == Sent(submitted, taken, |taken|) + submitted[h][taken[h]..taken[h] + n]
  {
    var t := taken[h := taken[h] + n];
    SentLater(submitted, taken, h, |taken|);
    SentLater(submitted, t, h, |t|);
    SentSame(submitted, taken, submitted, t, h);
    assert submitted[h][..t[h]] == submitted[h][..taken[h]] + submitted[h][taken[h]..t[h]];
  }

  // ---- one request and the kernel ----

  /** The inner loop of uv__write: the buffers are advanced by the `n` bytes that were taken. */
  method Advance(r: Request, n: nat, size: nat) returns (r': Request, size': nat)
    requires InQueue(r) && n <= |Left(r)| <= size
    ensures r' == r.(bufs := r'.bufs, index := r'.index) && |r'.bufs| == |r.bufs| && r'.index <= |r.bufs|
    ensures Left(r') == Left(r)[n..]
    ensures size' == size - n
    ensures n == |Left(r)| <==> r'.index == |r.bufs|
  {
    r', size' := r, size;
    var rest := n;
    while true
      invariant r' == r.(bufs := r'.bufs, index := r'.index) && |r'.bufs| == |r.bufs| && r'.index < |r.bufs|
      invariant 0 <= rest <= n && size' == size - (n - rest)
      invariant rest <= |Left(r')| && Left(r')[rest..] == Left(r)[n..]
      invariant |Left(r')| - rest == |Left(r)| - n
      decreases |r.bufs| - r'.index
    {
      var len := |r'.bufs[r'.index]|;
      ghost var tail := r'.bufs[r'.index + 1..];
      assert r'.bufs[r'.index..][1..] == tail;
      assert Left(r') == r'.bufs[r'.index] + Flat(tail);
      if rest < len {
        var b := r'.bufs[r'.index := r'.bufs[r'.index][rest..]];
        assert b[r'.index..][1..] == tail;
        ghost var before := Left(r');
        assert before[rest..] == r'.bufs[r'.index][rest..] + Flat(tail);
        r' := r'.(bufs := b);
        assert Left(r') == before[rest..];
        size' := size' - rest;
        return;
      }
      assert Left(r')[rest..] == Flat(tail)[rest - len..];
      r' := r'.(index := r'.index + 1);
      rest := rest - len;
      size' := size' - len;
      if r'.index == |r'.bufs| {
        assert tail == [] && rest == 0;
        return;
      }
    }
  }

  // ---- the ledger, step by step ----

  lemma {:induction false} SumMore(q: seq<Request>, r: Request)
    requires forall i | 0 <= i < |q| :: InQueue(q[i])
    requires InQueue(r)
    ensures Sum(q + [r]) == Sum(q) + |Left(r)|
  {
    if q == [] {
      assert q + [r] == [r];
    } else {
      assert (q + [r])[1..] == q[1..] + [r];
      SumMore(q[1..], r);
    }
  }

  lemma SentNew(submitted: seq<seq<int>>, taken: seq<nat>, data: seq<int>)
    requires |taken| == |submitted| && forall i | 0 <= i < |taken| :: taken[i] <= |submitted[i]|
    ensures var s, t := submitted + [data], taken + [0];
      && (forall i | 0 <= i < |t| :: t[i] <= |s[i]|)
      && Sent(s, t, |t|) == Sent(submitted, taken, |taken|)
  {
    var s, t := submitted + [data], taken + [0];
    SentSame(submitted, taken, s, t, |taken|);
    assert s[|taken|] == data && t[|taken|] == 0;
    assert Sent(s, t, |t|) == Sent(s, t, |taken|) + data[..0];
  }

  lemma WaitsNew(submitted: seq<seq<int>>, taken: seq<nat>, done: nat, queue: seq<Request>, r: Request, data: seq<int>)
    requires done + |queue| == |submitted| == |taken|
    requires forall i | 0 <= i < |taken| :: taken[i] <= |submitted[i]|
    requires AllWait(submitted, taken, done, queue)
    requires InQueue(r) && r.id == |submitted| && Left(r) == data
    ensures var s, t := submitted + [data], taken + [0];
      (forall i | 0 <= i < |t| :: t[i] <= |s[i]|) && AllWait(s, t, done, queue + [r])
  {
    hide Left, Flat;
    var s, t, q := submitted + [data], taken + [0], queue + [r];
    forall j | 0 <= j < |q| ensures Waits(s, t, q[j], done + j, j == 0) {
      if j < |queue| {
        assert q[j] == queue[j] && Waits(submitted, taken, queue[j], done + j, j == 0);
      } else {
        assert data[0..] == data;
      }
    }
  }

  /** A new request waits behind all others. */
  lemma Submits(submitted: seq<seq<int>>, taken: seq<nat>, calls: seq<Call>, completed: seq<Request>,
                queue: seq<Request>, r: Request, data: seq<int>)
    requires Ledger(submitted, taken, calls, completed, queue)
    requires InQueue(r) && r.id == |submitted| && Left(r) == data
    ensures Ledger(submitted + [data], taken + [0], calls, completed, queue + [r])
    ensures Sent(submitted + [data], taken + [0], |taken| + 1) == Sent(submitted, taken, |taken|)
  {
    hide Left, Flat, Sent, AllWait;
    SentNew(submitted, taken, data);
    WaitsNew(submitted, taken, |calls| + |completed|, queue, r, data);
  }

  /** The kernel takes part of what the first request has left. */
  lemma Takes(submitted: seq<seq<int>>, taken: seq<nat>, calls: seq<Call>, completed: seq<Request>,
              queue: seq<Request>, r: Request, n: nat)
    requires Ledger(submitted, taken, calls, completed, queue) && queue != []
    requires queue[0].index <= |queue[0].bufs| && n < |Left(queue[0])|
    requires InQueue(r) && r.id == queue[0].id && Left(r) == Left(queue[0])[n..]
    ensures queue[0].id < |taken|
    ensures var h := queue[0].id; var t := taken[h := taken[h] + n];
      && Ledger(submitted, t, calls, completed, [r] + queue[1..])
      && Sent(submitted, t, |t|) == Sent(submitted, taken, |taken|) + Left(queue[0])[..n]
  {
    hide Left, Flat, Sent;
    var done := |calls| + |completed|;
    assert Waits(submitted, taken, queue[0], done, true);
    var h := queue[0].id;
    var t, q := taken[h := taken[h] + n], [r] + queue[1..];
    forall i | h < i < |taken| ensures taken[i] == 0 {
      assert Waits(submitted, taken, queue[i - done], i, false);
    }
    SentMore(submitted, taken, h, n);
    assert submitted[h][taken[h]..][n..] == submitted[h][t[h]..];
    assert submitted[h][taken[h]..][..n] == submitted[h][taken[h]..t[h]];
    forall j | 0 <= j < |q| ensures Waits(submitted, t, q[j], done + j, j == 0) {
      if 0 < j { assert q[j] == queue[j] && Waits(submitted, taken, queue[j], done + j, false); }
    }
  }

  lemma FinishedLedger(submitted: seq<seq<int>>, taken: seq<nat>, t: seq<nat>, calls: seq<Call>,
                       completed: seq<Request>, queue: seq<Request>, r: Request)
    requires Ledger(submitted, taken, calls, completed, queue) && queue != []
    requires var h := |calls| + |completed|;
      r.id == h && t == if r.error == 0 then taken[h := |submitted[h]|] else taken
    requires AllWait(submitted, t, |calls| + |completed| + 1, queue[1..])
    ensures Ledger(submitted, t, calls, completed + [r], queue[1..])
  {
    hide AllWait, Left, Flat;
  }

  /** The first request is finished: with all its data taken, or with an error. */
  lemma Finishes(submitted: seq<seq<int>>, taken: seq<nat>, calls: seq<Call>, completed: seq<Request>,
                 queue: seq<Request>, r: Request)
    requires Ledger(submitted, taken, calls, completed, queue) && queue != []
    requires r.id == queue[0].id
    ensures queue[0].id < |taken| == |submitted| && taken[queue[0].id] <= |submitted[queue[0].id]|
    ensures queue[0].index <= |queue[0].bufs|
    ensures r.error == 0 ==>
      var h := queue[0].id; var t := taken[h := |submitted[h]|];
      && Ledger(submitted, t, calls, completed + [r], queue[1..])
      && Sent(submitted, t, |t|) == Sent(submitted, taken, |taken|) + Left(queue[0])
    ensures r.error != 0 ==> Ledger(submitted, taken, calls, completed + [r], queue[1..])
  {
    hide Left, Flat, Sent;
    var done := |calls| + |completed|;
    assert Waits(submitted, taken, queue[0], done, true);
    var h := queue[0].id;
    var t := if r.error == 0 then taken[h := |submitted[h]|] else taken;
    forall i | h < i < |taken| ensures taken[i] == 0 {
      assert Waits(submitted, taken, queue[i - done], i, false);
    }
    SentMore(submitted, taken, h, |submitted[h]| - taken[h]);
    assert submitted[h][taken[h]..|submitted[h]|] == submitted[h][taken[h]..];
    var q := queue[1..];
    forall j | 0 <= j < |q| ensures Waits(submitted, t, q[j], done + 1 + j, j == 0) {
      assert q[j] == queue[j + 1] && Waits(submitted, taken, queue[j + 1], done + (j + 1), false);
    }
    FinishedLedger(submitted, taken, t, calls, completed, queue, r);
  }

  /** The oldest completed request gets its callback. */
  lemma CallsBack(submitted: seq<seq<int>>, taken: seq<nat>, calls: seq<Call>, completed: seq<Request>,
                  queue: seq<Request>)
    requires Ledger(submitted, taken, calls, completed, queue) && completed != []
    ensures Ledger(submitted, taken, calls + [Call(completed[0].id, completed[0].error)], completed[1..], queue)
  {
    var c := calls + [Call(completed[0].id, completed[0].error)];
    assert |c| + |completed[1..]| == |calls| + |completed|;
    forall i | 0 <= i < |completed[1..]|
      ensures completed[1..][i].id == |c| + i
        && (completed[1..][i].error == 0 ==> taken[|c| + i] == |submitted[|c| + i]|)
    {
      assert completed[1..][i] == completed[i + 1];
    }
  }

  // ---- shutdown requests ----

  /** How many callbacks request `id` has had. */
  function CallsOf(calls: seq<Call>, id: nat): nat {
    if calls == [] then 0
    else CallsOf(calls[..|calls| - 1], id) + if calls[|calls| - 1].id == id then 1 else 0
  }

  lemma CallsOfMore(calls: seq<Call>, c: Call, id: nat)
    ensures CallsOf(calls + [c], id) == CallsOf(calls, id) + if c.id == id then 1 else 0
  {
    assert (calls + [c])[..|calls|] == calls;
  }

  lemma {:induction false} CallsOfNone(calls: seq<Call>, id: nat)
    requires forall k | 0 <= k < |calls| :: calls[k].id != id
    ensures CallsOf(calls, id) == 0
  {
    if calls != [] { CallsOfNone(calls[..|calls| - 1], id); }
  }

  /** The request was overwritten by the next one before it was carried out. */
  predicate Replaced(overlaps: seq<bool>, id: nat) {
    id + 1 < |overlaps| && overlaps[id + 1]
  }

  /** A request that is neither pending nor replaced has had its callback, once; one that is, none. */
  ghost predicate ShutdownLedger(overlaps: seq<bool>, calls: seq<Call>, pending: Option<nat>) {
    && (pending.Some? ==> pending.value + 1 == |overlaps|)
    && (overlaps != [] ==> !overlaps[0])
    && (forall k | 0 <= k < |calls| :: 0 <= calls[k].id < |overlaps|)
    && forall id | 0 <= id < |overlaps| ::
         CallsOf(calls, id) == if Replaced(overlaps, id) || pending == Some(id) then 0 else 1
  }

  lemma RecordShutdown(overlaps: seq<bool>, calls: seq<Call>, pending: Option<nat>)
    requires ShutdownLedger(overlaps, calls, pending)
    ensures ShutdownLedger(overlaps + [pending.Some?], calls, Some(|overlaps|))
  {
    var n := |overlaps|;
    CallsOfNone(calls, n);
    forall id | 0 <= id <= n
      ensures CallsOf(calls, id) == if Replaced(overlaps + [pending.Some?], id) || id == n then 0 else 1
    {
      assert id < n ==> CallsOf(calls, id) == if Replaced(overlaps, id) || pending == Some(id) then 0 else 1;
    }
  }

  lemma CallShutdownBack(overlaps: seq<bool>, calls: seq<Call>, id: nat, status: int)
    requires ShutdownLedger(overlaps, calls, Some(id))
    ensures ShutdownLedger(overlaps, calls + [Call(id, status)], None)
  {
    forall j | 0 <= j < |overlaps|
      ensures CallsOf(calls + [Call(id, status)], j) == if Replaced(overlaps, j) then 0 else 1
    {
      CallsOfMore(calls, Call(id, status), j);
    }
  }

  /** Each of the first `n` requests has had exactly one callback. */
  ghost predicate OneCallEach(n: nat, calls: seq<Call>) {
    forall id | 0 <= id < n :: CallsOf(calls, id) == 1
  }

  /** With nothing pending any more, every request has had exactly one callback if and only if none
      was made while another one was pending. */
  lemma EachShutdownOnce(overlaps: seq<bool>, calls: seq<Call>)
    requires ShutdownLedger(overlaps, calls, None)
    ensures OneCallEach(|overlaps|, calls) <==> true !in overlaps
  {
    if true in overlaps {
      var i :| 0 <= i < |overlaps| && overlaps[i];
      assert Replaced(overlaps, i - 1) && CallsOf(calls, i - 1) == 0;
    } else {
      forall id | 0 <= id < |overlaps| ensures CallsOf(calls, id) == 1 {
        assert !Replaced(overlaps, id);
      }
    }
  }

  // ---- one call of write ----

  /** One more request is completed, with this status. */
  ghost predicate Completes(before: seq<Request>, after: seq<Request>, id: nat, error: int) {
    && before <= after && |after| == |before| + 1
    && after[|before|].id == id && after[|before|].error == error && after[|before|].bufs == []
  }

  /** The first request has `n` bytes less left. */
  ghost predicate HasLeft(before: seq<Request>, after: seq<Request>, n: nat) {
    && before != [] && |after| == |before| && after[1..] == before[1..] && after[0].id == before[0].id
    && InQueue(before[0]) && InQueue(after[0])
    && n <= |Left(before[0])| && Left(after[0]) == Left(before[0])[n..]
  }

  /** What becomes of the first request, of the completed ones and of the wire by one answer of the kernel. */
  ghost predicate OneWrite(answer: Outcome, queue: seq<Request>, completed: seq<Request>, wire: seq<int>,
                           queue': seq<Request>, completed': seq<Request>, wire': seq<int>) {
    && queue != [] && InQueue(queue[0])
    && match answer
       case Wrote(k) =>
         if |Left(queue[0])| <= k then
           && queue' == queue[1..] && Completes(completed, completed', queue[0].id, 0)
           && wire' == wire + Left(queue[0])
         else
           HasLeft(queue, queue', k) && completed' == completed && wire' == wire + Left(queue[0])[..k]
       case Again => queue' == queue && completed' == completed && wire' == wire
       case Failed(e) =>
         queue' == queue[1..] && Completes(completed, completed', queue[0].id, e) && wire' == wire
  }

  function ErrorOf(answer: Outcome): int {
    if answer.Failed? then answer.errno else 0
  }

  /** What the kernel has taken is what the books say. */
  ghost predicate BooksMatch(offers: seq<Offer>, submitted: seq<seq<int>>, taken: seq<nat>) {
    && |submitted| == |taken| && (forall i | 0 <= i < |taken| :: taken[i] <= |submitted[i]|)
    && OnTheWire(offers) == Sent(submitted, taken, |taken|)
  }

  // ---- callbacks ----

  /** The data that a callback submits: of its writes, up to where it closes the stream. */
  function DataOf(ops: seq<Op>): seq<seq<int>> {
    if ops == [] || ops[0].Close? then []
    else (if ops[0].Write? && ops[0].bufs != [] then [Flat(ops[0].bufs)] else []) + DataOf(ops[1..])
  }

  /** How often it asks for a shutdown up to there. */
  function ShutdownsOf(ops: seq<Op>): nat {
    if ops == [] || ops[0].Close? then 0 else (if ops[0].Shutdown? then 1 else 0) + ShutdownsOf(ops[1..])
  }

  lemma FirstOp(ops: seq<Op>, before: seq<seq<int>>)
    ensures ops == [] ==> before + DataOf(ops) == before && ShutdownsOf(ops) == 0
    ensures ops != [] ==>
      && before + DataOf(ops) == before + DataOf(ops[..1]) + (if ops[0].Close? then [] else DataOf(ops[1..]))
      && ShutdownsOf(ops) == ShutdownsOf(ops[..1]) + if ops[0].Close? then 0 else ShutdownsOf(ops[1..])
    ensures ops != [] ==> ops[..1] == [ops[0]]
  {
    if ops != [] {
      assert ops[..1][1..] == [];
      var first := if ops[0].Write? && ops[0].bufs != [] then [Flat(ops[0].bufs)] else [];
      assert before + (first + DataOf(ops[1..])) == before + first + DataOf(ops[1..]);
      assert first + [] == first;
    }
  }

  // ---- the stream ----

  class Stream {
    var writeQueue: seq<Request>
    var completed: seq<Request>
    var queueSize: nat
    var closing: bool
    const blocking: bool
    var connecting: bool
    /** The flags UV_STREAM_SHUTTING and UV_STREAM_SHUT, and whether shutdown_req is set. */
    var shutting: bool
    var shut: bool
    var shutdownReq: Option<nat>
    /** The watcher waits for POLLOUT, or is in the queue of pending watchers. */
    var pollout: bool
    var fed: bool
    /** An assertion of the program has failed. */
    var aborted: bool

    /** The kernel: what it will answer (everything is taken once this is used up), and what it was offered. */
    const answers: seq<Outcome>
    var offers: seq<Offer>
    var shutdownErrors: seq<int>
    /** The callbacks: what they will do, and those that were called. */
    var script: seq<seq<Op>>
    var calls: seq<Call>
    var shutdownCalls: seq<Call>
    /** For every shutdown request that was accepted: was another one still pending then? */
    var overlaps: seq<bool>

    ghost var submitted: seq<seq<int>>
    ghost var taken: seq<nat>
    /** For every shutdown(2): how many requests had been submitted. */
    ghost var shutdowns: seq<nat>
    ghost var shutdownFailed: bool

    ghost predicate Books()
      reads this
    {
      Owing([])
    }

    /** The kernel has taken what the books say, and `more`. */
    ghost predicate Owing(more: seq<int>)
      reads this
    {
      && Ledger(submitted, taken, calls, completed, writeQueue)
      && (forall i | 0 <= i < |writeQueue| :: InQueue(writeQueue[i]))
      && queueSize == Sum(writeQueue)
      && OnTheWire(offers) == Sent(submitted, taken, |taken|) + more
      && (forall i | 0 <= i < |shutdowns| :: shutdowns[i] <= |calls|)
    }

    /** The answers of the kernel are used up: it takes everything. */
    ghost predicate Greedy()
      reads `offers
    {
      |answers| <= |offers|
    }

    ghost predicate Flags()
      reads this
    {
      && (blocking ==> !connecting)
      && (connecting && !closing ==> pollout)
      && (shutting ==> shutdownReq.Some? || shut || shutdownFailed)
      && (shutdownReq.Some? ==> shutting && !shut)
      && (aborted ==> shutdownFailed)
    }

    ghost predicate ShutdownBooks()
      reads this
    {
      ShutdownLedger(overlaps, shutdownCalls, shutdownReq)
    }

    /** A blocking stream keeps nothing in its queue. */
    ghost predicate Flushed()
      reads this
    {
      blocking && !closing ==> writeQueue == []
    }

    ghost predicate Valid()
      reads this
    {
      Books() && Flags() && Flushed() && ShutdownBooks()
    }

    /** Whatever is still to be done, the event loop will call back for it. */
    ghost predicate WritesArmed()
      reads this
    {
      writeQueue != [] && !closing ==> pollout || fed
    }

    ghost predicate CallsArmed()
      reads this
    {
      completed != [] && !closing ==> pollout || fed
    }

    ghost predicate ShutdownArmed()
      reads this
    {
      shutdownReq.Some? && !closing ==> pollout || fed
    }

    ghost predicate Armed()
      reads this
    {
      WritesArmed() && CallsArmed() && ShutdownArmed()
    }

    /** An open stream; a terminal blocks, a socket may still be connecting. */
    constructor (blocking: bool, connecting: bool, answers: seq<Outcome>, shutdownErrors: seq<int>, script: seq<seq<Op>>)
      requires blocking ==> !connecting
      ensures Valid() && Armed() && !closing && !aborted && !shutting && !shut && shutdownReq.None? && !shutdownFailed
      ensures submitted == [] && calls == [] && completed == [] && writeQueue == [] && shutdowns == []
      ensures shutdownCalls == [] && overlaps == []
      ensures this.blocking == blocking && this.connecting == connecting && pollout == connecting && !fed
      ensures this.answers == answers && offers == [] && this.shutdownErrors == shutdownErrors && this.script == script
    {
      writeQueue, completed, queueSize := [], [], 0;
      closing, this.blocking, this.connecting := false, blocking, connecting;
      shutting, shut, shutdownReq := false, false, None;
      pollout, fed, aborted := connecting, false, false;
      this.answers, this.shutdownErrors, offers := answers, shutdownErrors, [];
      this.script, calls, shutdownCalls, overlaps := script, [], [], [];
      submitted, taken, shutdowns, shutdownFailed := [], [], [], false;
      new;
      hide Stream.Valid, Stream.Armed;
      StartsValid();
    }

    lemma StartsValid()
      requires writeQueue == completed == [] && queueSize == 0 && !closing && !shutting && !shut && shutdownReq.None?
      requires !fed && !aborted && offers == [] && calls == shutdownCalls == [] && overlaps == []
      requires submitted == [] && taken == shutdowns == [] && !shutdownFailed
      requires pollout == connecting && (blocking ==> !connecting)
      ensures Valid() && Armed()
    {
    }

    /** uv__write_req_finish. */
    method FinishRequest(req: Request)
      requires writeQueue != []
      modifies `writeQueue, `completed, `fed
      ensures writeQueue == old(writeQueue)[1..] && completed == old(completed) + [req.(bufs := [])] && fed
    {
      writeQueue := writeQueue[1..];
      completed := completed + [req.(bufs := [])];
      fed := true;
    }

    /** write or writev; EINTR is not seen, as the call is repeated. */
    method KernelWrite(data: seq<int>) returns (answer: Outcome)
      modifies `offers
      ensures answer == AnswerTo(answers, |old(offers)|, |data|) && offers == old(offers) + [Offer(data, answer)]
      ensures OnTheWire(offers) == old(OnTheWire(offers)) + Accepted(Offer(data, answer))
    {
      answer := if |offers| < |answers| then answers[|offers|] else Wrote(|data|);
      WireMore(offers, Offer(data, answer));
      offers := offers + [Offer(data, answer)];
    }

    /** The kernel has taken `n` bytes of the first request. */
    method TakeBytes(n: nat)
      requires writeQueue != [] && writeQueue[0].index <= |writeQueue[0].bufs| && n <= |Left(writeQueue[0])|
      requires Owing(Left(writeQueue[0])[..n])
      modifies `writeQueue, `completed, `queueSize, `taken, `fed
      ensures Books() && InQueue(old(writeQueue[0]))
      ensures if n == old(|Left(writeQueue[0])|)
              then writeQueue == old(writeQueue)[1..] && fed && Completes(old(completed), completed, old(writeQueue[0].id), 0)
              else fed == old(fed) && completed == old(completed) && HasLeft(old(writeQueue), writeQueue, n)
    {
      hide Ledger, Sent, Left;
      var req := writeQueue[0];
      ghost var rest := writeQueue[1..];
      assert forall i | 0 <= i < |rest| :: rest[i] == writeQueue[i + 1];
      var r, size := Advance(req, n, queueSize);
      queueSize := size;
      if r.index == |r.bufs| {
        Finishes(submitted, taken, calls, completed, writeQueue, r.(bufs := []));
        assert Left(req)[..n] == Left(req);
        taken := taken[req.id := |submitted[req.id]|];
        FinishRequest(r);
      } else {
        Takes(submitted, taken, calls, completed, writeQueue, r, n);
        taken := taken[req.id := taken[req.id] + n];
        writeQueue := writeQueue[0 := r];
        assert writeQueue == [r] + rest;
      }
    }

    /** The kernel refuses the first request for good. */
    method FailRequest(e: errno)
      requires Books() && writeQueue != []
      modifies `writeQueue, `completed, `queueSize, `fed
      ensures Books() && fed && writeQueue == old(writeQueue)[1..]
      ensures Completes(old(completed), completed, old(writeQueue[0].id), e)
    {
      hide Ledger, Sent, Left;
      var req := writeQueue[0].(error := e);
      ghost var rest := writeQueue[1..];
      assert forall i | 0 <= i < |rest| :: rest[i] == writeQueue[i + 1];
      Finishes(submitted, taken, calls, completed, writeQueue, req.(bufs := []));
      var size := BufCount(req.bufs[req.index..]);
      LeftIs(writeQueue[0]);
      queueSize := queueSize - size;
      FinishRequest(req);
    }

    /** One call of write or writev for the first request, and what follows from its result; `again`
        stands for "goto start". */
    method Attempt() returns (again: bool)
      requires Books() && Flags() && !connecting && !closing && writeQueue != []
      modifies `writeQueue, `completed, `queueSize, `taken, `fed, `pollout, `offers
      ensures Books() && Flags() && InQueue(old(writeQueue[0]))
      ensures var answer := AnswerTo(answers, |old(offers)|, old(|Left(writeQueue[0])|));
        && offers == old(offers) + [Offer(old(Left(writeQueue[0])), answer)]
        && OneWrite(answer, old(writeQueue), old(completed), old(OnTheWire(offers)),
                    writeQueue, completed, OnTheWire(offers))
      ensures again <==> blocking && |writeQueue| == |old(writeQueue)|
      ensures pollout == (old(pollout) || (!blocking && |writeQueue| == |old(writeQueue)|))
      ensures fed == (old(fed) || |writeQueue| < |old(writeQueue)|)
    {
      hide Ledger, Sent, Sum, Left, Flat, OnTheWire;
      var req := writeQueue[0];
      assert InQueue(req);
      LeftIs(req);
      var answer := KernelWrite(Flat(req.bufs[req.index..]));
      match answer {
        case Wrote(k) =>
          var total := BufCount(req.bufs[req.index..]);
          var n := if k <= total then k else total;
          TakeBytes(n);
          if n == total { return false; }
        case Again =>
        case Failed(e) =>
          FailRequest(e);
          return false;
      }
      if blocking { return true; }
      pollout := true;
      again := false;
    }

    /** uv__write: at most one request is finished. */
    method WriteHead()
      requires Books() && Flags() && !connecting
      modifies `writeQueue, `completed, `queueSize, `taken, `fed, `pollout, `offers
      ensures Books() && Flags() && WritesArmed()
      ensures closing || old(writeQueue) == [] ==>
        && completed == old(completed) && pollout == old(pollout) && fed == old(fed)
        && writeQueue == old(writeQueue) && offers == old(offers)
      ensures !closing && old(writeQueue) != [] ==>
        && InQueue(old(writeQueue[0]))
        && fed == (old(fed) || |writeQueue| < |old(writeQueue)|)
        && pollout == (old(pollout) || |writeQueue| == |old(writeQueue)|)
        && (!blocking ==>
              var answer := AnswerTo(answers, |old(offers)|, old(|Left(writeQueue[0])|));
              && offers == old(offers) + [Offer(old(Left(writeQueue[0])), answer)]
              && OneWrite(answer, old(writeQueue), old(completed), old(OnTheWire(offers)),
                          writeQueue, completed, OnTheWire(offers)))
        && (blocking ==>
              && old(offers) < offers && writeQueue == old(writeQueue)[1..]
              && Completes(old(completed), completed, old(writeQueue[0].id), ErrorOf(offers[|offers| - 1].answer))
              && (offers[|offers| - 1].answer.Wrote? ==>
                    OnTheWire(offers) == old(OnTheWire(offers)) + old(Left(writeQueue[0]))))
      ensures old(offers) <= offers
      ensures old(Greedy()) && old(writeQueue) != [] && !closing ==> fed && |writeQueue| == |old(writeQueue)| - 1
    {
      hide Ledger, Sent, Sum, Left, OnTheWire;
      if closing { return; }
      while true
        invariant Books() && Flags()
        invariant pollout == old(pollout) && fed == old(fed) && completed == old(completed)
        invariant |writeQueue| == |old(writeQueue)| && old(offers) <= offers
        invariant offers == old(offers) ==> writeQueue == old(writeQueue)
        invariant offers != old(offers) ==> blocking && writeQueue != [] && |old(offers)| < |answers|
        invariant writeQueue != [] ==>
          && InQueue(old(writeQueue[0])) && InQueue(writeQueue[0])
          && writeQueue[0].id == old(writeQueue[0].id) && writeQueue[1..] == old(writeQueue)[1..]
          && OnTheWire(offers) + Left(writeQueue[0]) == old(OnTheWire(offers)) + old(Left(writeQueue[0]))
        decreases |answers| - |offers|
      {
        if writeQueue == [] {
          QueueEmpty();
          assert queueSize == 0;
          return;
        }
        var again := Attempt();
        if !again { return; }
      }
    }

    lemma QueueEmpty()
      requires writeQueue == []
      ensures Sum(writeQueue) == 0
    {
    }

    lemma Match()
      requires Books()
      ensures BooksMatch(offers, submitted, taken)
    {
    }

    // ---- what users call ----

    /** uv_write2 without a handle to send: false stands for EBADF on a closed stream. */
    method WriteRequest(bufs: seq<seq<int>>) returns (ok: bool)
      requires Valid() && WritesArmed() && 0 < |bufs|
      modifies `writeQueue, `completed, `queueSize, `taken, `fed, `pollout, `offers, `submitted
      ensures Valid() && WritesArmed()
      ensures ok <==> !closing
      ensures submitted == if ok then old(submitted) + [Flat(bufs)] else old(submitted)
      ensures old(CallsArmed()) ==> CallsArmed()
      ensures old(ShutdownArmed()) ==> ShutdownArmed()
      ensures closing ==> completed == old(completed)
      ensures old(completed) <= completed
      ensures old(offers) <= offers
      ensures old(Greedy()) && old(writeQueue) == [] && !closing && !connecting ==> writeQueue == [] && fed
      ensures !closing && !connecting && old(queueSize) == 0 <==> offers != old(offers)
      ensures !closing && old(queueSize) != 0 && !connecting ==> pollout
      ensures closing || connecting || old(queueSize) != 0 ==> completed == old(completed) && fed == old(fed)
      ensures closing ==> writeQueue == old(writeQueue) && pollout == old(pollout)
    {
      hide Ledger, Sent, Sum, Flat, ShutdownLedger;
      if closing { return false; }
      var emptyQueue := queueSize == 0;
      if writeQueue == [] { QueueEmpty(); }
      Enqueue(bufs);
      if connecting {
      } else if emptyQueue {
        WriteHead();
      } else {
        assert !blocking;
        pollout := true;
      }
      ok := true;
    }

    /** The request becomes the last of the queue. */
    method Enqueue(bufs: seq<seq<int>>)
      requires Books() && 0 < |bufs|
      modifies `writeQueue, `queueSize, `submitted, `taken
      ensures Books() && submitted == old(submitted) + [Flat(bufs)] && |writeQueue| == |old(writeQueue)| + 1
    {
      hide Ledger, Sent, Sum, Left, Flat;
      var req := Request(|calls| + |completed| + |writeQueue|, bufs, 0, 0);
      var size := BufCount(bufs);
      NewRequest(req);
      Submits(submitted, taken, calls, completed, writeQueue, req, Flat(bufs));
      SumMore(writeQueue, req);
      submitted, taken := submitted + [Flat(bufs)], taken + [0];
      queueSize := queueSize + size;
      writeQueue := writeQueue + [req];
    }

    lemma NewRequest(req: Request)
      requires Books() && req.id == |calls| + |completed| + |writeQueue| && req.index == 0
      ensures req.id == |submitted| && Left(req) == Flat(req.bufs)
    {
      assert req.bufs[0..] == req.bufs;
    }

    /** uv_shutdown; the descriptor is open and the stream was writable. */
    method ShutdownRequest() returns (ok: bool)
      requires Valid() && WritesArmed()
      modifies `shutdownReq, `shutting, `pollout, `overlaps
      ensures Valid() && WritesArmed() && (ok <==> !shut && !closing)
      ensures ok ==> shutdownReq == Some(|old(overlaps)|) && shutting
      ensures overlaps == if ok then old(overlaps) + [old(shutdownReq).Some?] else old(overlaps)
      ensures old(CallsArmed()) ==> CallsArmed()
      ensures old(ShutdownArmed()) ==> ShutdownArmed()
    {
      if shut || closing { return false; }
      RecordShutdown(overlaps, shutdownCalls, shutdownReq);
      overlaps, shutdownReq := overlaps + [shutdownReq.Some?], Some(|overlaps|);
      shutting := true;
      pollout := true;
      ok := true;
    }

    /** uv_close, up to uv__stream_close: the watcher is taken off the loop and the descriptor closed. */
    method CloseStream()
      requires Valid() && !closing
      modifies `closing, `pollout, `fed
      ensures Valid() && Armed() && closing && !pollout && !fed
    {
      closing := true;
      pollout, fed := false, false;
    }

    /** One thing that a callback does. */
    method RunOp(op: Op)
      requires Valid() && WritesArmed()
      modifies `writeQueue, `completed, `queueSize, `taken, `fed, `pollout, `offers, `submitted,
               `shutdownReq, `shutting, `closing, `overlaps
      ensures Valid() && WritesArmed()
      ensures old(CallsArmed()) ==> CallsArmed()
      ensures old(ShutdownArmed()) ==> ShutdownArmed()
      ensures old(closing) ==> closing && completed == old(completed)
      ensures old(completed) <= completed && old(overlaps) <= overlaps
      ensures old(offers) <= offers
      ensures submitted == old(submitted) + if old(closing) then [] else DataOf([op])
      ensures |overlaps| == |old(overlaps)| + if old(closing) || shut then 0 else ShutdownsOf([op])
      ensures closing <==> old(closing) || op == Close
    {
      hide Books, Flags, Flushed, ShutdownLedger, Flat;
      match op {
        case Write(bufs) => if bufs != [] { var ok := WriteRequest(bufs); }
        case Shutdown => if !closing { var ok := ShutdownRequest(); }
        case Close => if !closing { CloseStream(); }
      }
    }

    /** A callback. */
    method RunOps(ops: seq<Op>)
      requires Valid() && WritesArmed()
      modifies `writeQueue, `completed, `queueSize, `taken, `fed, `pollout, `offers, `submitted,
               `shutdownReq, `shutting, `closing, `overlaps
      ensures Valid() && WritesArmed()
      ensures old(CallsArmed()) ==> CallsArmed()
      ensures old(ShutdownArmed()) ==> ShutdownArmed()
      ensures ops == [] ==>
        completed == old(completed) && writeQueue == old(writeQueue) && closing == old(closing)
        && shutdownReq == old(shutdownReq) && shutting == old(shutting)
      ensures old(closing) ==> closing && completed == old(completed)
      ensures old(completed) <= completed && old(overlaps) <= overlaps
      ensures old(offers) <= offers
      ensures submitted == old(submitted) + if old(closing) then [] else DataOf(ops)
      ensures |overlaps| == |old(overlaps)| + if old(closing) || shut then 0 else ShutdownsOf(ops)
      ensures closing <==> old(closing) || Close in ops
    {
      hide Stream.Valid, Stream.WritesArmed, Stream.CallsArmed, Stream.ShutdownArmed, DataOf, ShutdownsOf;
      var i := 0;
      assert ops[0..] == ops;
      while i < |ops|
        invariant 0 <= i <= |ops| && Valid() && WritesArmed()
        invariant old(CallsArmed()) ==> CallsArmed()
        invariant old(ShutdownArmed()) ==> ShutdownArmed()
        invariant i == 0 ==>
          completed == old(completed) && writeQueue == old(writeQueue) && closing == old(closing)
          && shutdownReq == old(shutdownReq) && shutting == old(shutting)
        invariant old(closing) ==> closing && completed == old(completed)
        invariant old(completed) <= completed && old(overlaps) <= overlaps
        invariant old(offers) <= offers
        invariant submitted + (if closing then [] else DataOf(ops[i..])) ==
                  old(submitted) + if old(closing) then [] else DataOf(ops)
        invariant |overlaps| + (if closing || shut then 0 else ShutdownsOf(ops[i..])) ==
                  |old(overlaps)| + if old(closing) || shut then 0 else ShutdownsOf(ops)
        invariant closing <==> old(closing) || Close in ops[..i]
      {
        FirstOp(ops[i..], submitted);
        assert ops[i..][1..] == ops[i + 1..];
        assert ops[..i + 1] == ops[..i] + [ops[i]];
        RunOp(ops[i]);
        i := i + 1;
      }
      FirstOp(ops[i..], submitted);
      assert ops[..i] == ops;
    }

    /** What the next callback does; nothing once the script is over. */
    method NextOps() returns (ops: seq<Op>)
      modifies `script
      ensures old(Valid()) ==> Valid()
      ensures if old(script) == [] then ops == [] && script == [] else [ops] + script == old(script)
    {
      ops := [];
      if script != [] { ops, script := script[0], script[1..]; }
    }

    // ---- the event loop ----

    /** The oldest completed request is taken off the queue. */
    method PopCompleted()
      requires Valid() && WritesArmed() && completed != []
      modifies `calls, `completed
      ensures Valid() && WritesArmed()
      ensures completed == old(completed)[1..]
      ensures calls == old(calls) + [Call(old(completed)[0].id, old(completed)[0].error)]
    {
      hide Ledger, Sent, Sum;
      CallsBack(submitted, taken, calls, completed, writeQueue);
      calls := calls + [Call(completed[0].id, completed[0].error)];
      completed := completed[1..];
    }

    /** The callback of the oldest completed request. */
    method CallBack()
      requires Valid() && WritesArmed() && completed != []
      modifies this
      ensures Valid() && WritesArmed()
      ensures shutdowns == old(shutdowns) && aborted == old(aborted) && shutdownFailed == old(shutdownFailed)
      ensures old(shut) == shut && old(connecting) == connecting && shutdownErrors == old(shutdownErrors)
      ensures calls == old(calls) + [Call(old(completed)[0].id, old(completed)[0].error)]
      ensures old(completed)[1..] <= completed && old(overlaps) <= overlaps && shutdownCalls == old(shutdownCalls)
      ensures |script| < |old(script)| || (|script| == |old(script)| && |completed| < |old(completed)|)
      ensures submitted == old(submitted) + if old(closing) || old(script) == [] then [] else DataOf(old(script)[0])
      ensures closing <==> old(closing) || (old(script) != [] && Close in old(script)[0])
      ensures script == if old(script) == [] then [] else old(script)[1..]
      ensures old(script) == [] ==>
        script == [] && closing == old(closing) && writeQueue == old(writeQueue)
        && shutdownReq == old(shutdownReq) && shutting == old(shutting)
      ensures old(offers) <= offers
    {
      hide Books, Flags, Flushed, ShutdownLedger;
      PopCompleted();
      var ops := NextOps();
      RunOps(ops);
    }

    /** uv__write_callbacks. */
    method WriteCallbacks()
      requires Valid() && WritesArmed() && !connecting
      modifies this
      ensures Valid() && Armed() && !connecting
      ensures old(calls) + Settled(old(completed)) <= calls
      ensures old(overlaps) <= overlaps && OneMore(old(shutdownCalls), shutdownCalls)
      ensures aborted && !old(aborted) ==> old(shutdownFailed)
      ensures old(offers) <= offers
      ensures old(script) == [] && old(writeQueue) == [] && !old(closing) && old(shutting) && !old(shut) ==>
        if old(shutdownReq).Some? then script == [] && writeQueue == [] && !closing && shutdownReq.None? && shutting
                                 && (old(shutdownErrors) != [] && old(shutdownErrors)[0] != 0 ==> !shut && shutdownFailed)
        else aborted
    {
      hide Books;
      while completed != []
        invariant Valid() && WritesArmed()
        invariant old(calls) + Settled(old(completed)) <= calls + Settled(completed)
        invariant old(overlaps) <= overlaps && shutdownCalls == old(shutdownCalls)
        invariant shutdowns == old(shutdowns) && aborted == old(aborted) && shutdownFailed == old(shutdownFailed)
        invariant old(offers) <= offers
        invariant !connecting && shut == old(shut) && shutdownErrors == old(shutdownErrors)
        invariant old(script) == [] ==>
          script == [] && closing == old(closing) && writeQueue == old(writeQueue)
          && shutdownReq == old(shutdownReq) && shutting == old(shutting)
        decreases |script|, |completed|
      {
        ghost var waiting, before := completed, calls;
        CallBack();
        SettledMore(before, waiting, completed);
      }
      if writeQueue == [] {
        Drain();
      }
    }

    /** uv__drain: shutdown(2) once nothing is left to write and every callback has been called. */
    method Drain()
      requires Valid() && !connecting && writeQueue == [] && completed == []
      modifies this
      ensures Valid() && Armed() && !connecting
      ensures old(offers) <= offers
      ensures old(script) == [] && old(writeQueue) == [] && !old(closing) && old(shutting) && !old(shut) ==>
        if old(shutdownReq).Some? then script == [] && writeQueue == [] && !closing && shutdownReq.None? && shutting
                                 && (old(shutdownErrors) != [] && old(shutdownErrors)[0] != 0 ==> !shut && shutdownFailed)
        else aborted
      ensures aborted == (old(aborted) || old(shutting && !closing && !shut && shutdownReq.None?))
      ensures aborted && !old(aborted) ==> old(shutdownFailed)
      ensures shutdowns == old(shutdowns) + if old(shutting && !closing && !shut && shutdownReq.Some?)
                                            then [|old(submitted)|] else []
      ensures calls == old(calls) && old(overlaps) <= overlaps
      ensures !old(shutting && !closing && !shut && shutdownReq.Some?) ==> !pollout
      ensures shutdownCalls == old(shutdownCalls) +
        if old(shutting && !closing && !shut && shutdownReq.Some?)
        then [Call(old(shutdownReq).value, Answer(old(shutdownErrors)))] else []
    {
      hide Sent, Sum;
      assert |submitted| == |calls|;
      pollout := false;
      if shutting && !closing && !shut {
        if shutdownReq.None? {
          aborted := true;
          return;
        }
        IssueShutdown();
      }
    }

    /** shutdown(2). */
    method CallShutdown()
      requires Valid() && shutdownReq.Some? && !shut && |submitted| == |calls|
      modifies `shutdownReq, `shutdownErrors, `shutdowns, `shutdownFailed, `shut, `shutdownCalls
      ensures Valid() && shutdownReq.None?
      ensures shutdowns == old(shutdowns) + [|submitted|]
      ensures shut != (old(shutdownErrors) != [] && old(shutdownErrors)[0] != 0)
      ensures !shut ==> shutdownFailed
      ensures shutdownCalls == old(shutdownCalls) + [Call(old(shutdownReq).value, Answer(old(shutdownErrors)))]
    {
      hide Ledger, Sent, Sum, ShutdownLedger;
      CallShutdownBack(overlaps, shutdownCalls, shutdownReq.value, Answer(shutdownErrors));
      var id := shutdownReq.value;
      shutdownReq := None;
      var error := 0;
      if shutdownErrors != [] { error, shutdownErrors := shutdownErrors[0], shutdownErrors[1..]; }
      shutdowns := shutdowns + [|submitted|];
      if error != 0 {
        shutdownFailed := true;
      } else {
        shut := true;
      }
      shutdownCalls := shutdownCalls + [Call(id, error)];
    }

    /** shutdown(2) and the callback of its request. */
    method IssueShutdown()
      requires Valid() && shutdownReq.Some? && !closing && !shut && |submitted| == |calls|
      requires writeQueue == [] && completed == [] && !connecting
      modifies this
      ensures Valid() && Armed() && aborted == old(aborted) && connecting == old(connecting)
      ensures submitted == old(submitted) + if old(script) == [] then [] else DataOf(old(script)[0])
      ensures shutdowns == old(shutdowns) + [|old(submitted)|]
      ensures shut != (old(shutdownErrors) != [] && old(shutdownErrors)[0] != 0)
      ensures !shut ==> shutdownFailed
      ensures calls == old(calls) && old(overlaps) <= overlaps
      ensures shutdownCalls == old(shutdownCalls) + [Call(old(shutdownReq).value, Answer(old(shutdownErrors)))]
      ensures old(offers) <= offers
      ensures old(script) == [] ==> script == [] && writeQueue == [] && !closing && shutdownReq.None? && shutting == old(shutting)
    {
      hide Books, Flags, Flushed, ShutdownLedger;
      CallShutdown();
      var ops := NextOps();
      RunOps(ops);
    }

    /** The watcher leaves the queue of pending watchers. */
    method Unfeed()
      requires Valid()
      modifies `fed
      ensures Valid() && !fed
    {
      fed := false;
    }

    /** uv__stream_io for POLLOUT, because the descriptor is writable or because the watcher was fed. */
    method Writable(pending: bool)
      requires Valid() && Armed() && !closing && !connecting && if pending then fed else pollout
      modifies this
      ensures Valid() && Armed() && !connecting
      ensures old(writeQueue) != [] ==>
        InQueue(old(writeQueue[0])) && old(offers) < offers && offers[|old(offers)|].data == old(Left(writeQueue[0]))
      ensures old(calls) + Settled(old(completed)) <= calls
      ensures old(overlaps) <= overlaps && OneMore(old(shutdownCalls), shutdownCalls)
      ensures aborted && !old(aborted) ==> old(shutdownFailed)
      ensures old(offers) <= offers
      ensures old(script) == [] && old(writeQueue) == [] && !old(closing) && old(shutting) && !old(shut) ==>
        if old(shutdownReq).Some? then script == [] && writeQueue == [] && !closing && shutdownReq.None? && shutting
                                 && (old(shutdownErrors) != [] && old(shutdownErrors)[0] != 0 ==> !shut && shutdownFailed)
        else aborted
    {
      hide Stream.Books, ShutdownLedger, Settled, Left, Sent, OnTheWire;
      if pending { Unfeed(); }
      WriteHead();
      SettledPrefix(old(completed), completed);
      WriteCallbacks();
    }

    /** uv__stream_connect: the connection is there, or has failed. */
    method Connected()
      requires Valid() && Armed() && connecting && !closing
      modifies this
      ensures Valid() && Armed() && !connecting
      ensures aborted == old(aborted)
      ensures calls == old(calls) && shutdownCalls == old(shutdownCalls) && old(overlaps) <= overlaps
      ensures submitted == old(submitted) + if old(script) == [] then [] else DataOf(old(script)[0])
    {
      hide Ledger, Sent, Sum;
      connecting := false;
      var ops := NextOps();
      RunOps(ops);
    }

    /** uv__stream_destroy: what is still queued is cancelled, what is completed gets its status. */
    method Destroy()
      requires Valid() && closing
      modifies `writeQueue, `completed, `calls, `shutdownReq, `shutdownCalls, `connecting
      ensures writeQueue == [] && completed == [] && shutdownReq.None? && !connecting
      ensures calls == old(calls) + Cancelled(old(writeQueue)) + Settled(old(completed))
      ensures shutdownCalls == old(shutdownCalls) + if old(shutdownReq).Some? then [Call(old(shutdownReq).value, ECANCELED)] else []
      ensures OnceEach(submitted, taken, calls)
      ensures ShutdownLedger(overlaps, shutdownCalls, None)
      ensures OneCallEach(|overlaps|, shutdownCalls) <==> true !in overlaps
    {
      hide Ledger, Sent, Sum, Cancelled, Settled, ShutdownLedger;
      OnceEachAfter(submitted, taken, calls, completed, writeQueue);
      connecting := false;
      CancelQueued();
      SettleCompleted();
      if shutdownReq.Some? {
        CallShutdownBack(overlaps, shutdownCalls, shutdownReq.value, ECANCELED);
        shutdownCalls := shutdownCalls + [Call(shutdownReq.value, ECANCELED)];
        shutdownReq := None;
      }
      EachShutdownOnce(overlaps, shutdownCalls);
    }

    method CancelQueued()
      modifies `writeQueue, `calls
      ensures writeQueue == [] && calls == old(calls) + Cancelled(old(writeQueue))
    {
      while writeQueue != []
        invariant calls + Cancelled(writeQueue) == old(calls) + Cancelled(old(writeQueue))
        decreases |writeQueue|
      {
        var req := writeQueue[0];
        ghost var before, rest := calls, Cancelled(writeQueue[1..]);
        assert Cancelled(writeQueue) == [Call(req.id, ECANCELED)] + rest;
        writeQueue := writeQueue[1..];
        calls := calls + [Call(req.id, ECANCELED)];
        JoinCalls(before, Call(req.id, ECANCELED), rest);
      }
      assert calls + [] == calls;
    }

    method SettleCompleted()
      modifies `completed, `calls
      ensures completed == [] && calls == old(calls) + Settled(old(completed))
    {
      while completed != []
        invariant calls + Settled(completed) == old(calls) + Settled(old(completed))
        decreases |completed|
      {
        var req := completed[0];
        ghost var before, rest := calls, Settled(completed[1..]);
        assert Settled(completed) == [Call(req.id, req.error)] + rest;
        completed := completed[1..];
        calls := calls + [Call(req.id, req.error)];
        JoinCalls(before, Call(req.id, req.error), rest);
      }
      assert calls + [] == calls;
    }
  }

  function Cancelled(q: seq<Request>): (c: seq<Call>)
    ensures |c| == |q| && forall i | 0 <= i < |q| :: c[i] == Call(q[i].id, ECANCELED)
  {
    if q == [] then [] else [Call(q[0].id, ECANCELED)] + Cancelled(q[1..])
  }

  /** What the next shutdown(2) answers. */
  function Answer(errors: seq<int>): int {
    if errors == [] then 0 else errors[0]
  }

  predicate OneMore(before: seq<Call>, after: seq<Call>) {
    before <= after && |after| <= |before| + 1
  }

  lemma SettledMore(calls: seq<Call>, waiting: seq<Request>, completed: seq<Request>)
    requires waiting != [] && waiting[1..] <= completed
    ensures calls + Settled(waiting) <= calls + [Call(waiting[0].id, waiting[0].error)] + Settled(completed)
  {
    var c := Call(waiting[0].id, waiting[0].error);
    SettledPrefix(waiting[1..], completed);
    assert Settled(waiting) == [c] + Settled(waiting[1..]);
    assert calls + [c] + Settled(waiting[1..]) == calls + Settled(waiting);
    PrefixAfter(calls + [c], Settled(waiting[1..]), Settled(completed));
  }

  lemma PrefixAfter(a: seq<Call>, b: seq<Call>, c: seq<Call>)
    requires b <= c
    ensures a + b <= a + c
  {
    assert c == b + c[|b|..];
    assert a + c == (a + b) + c[|b|..];
  }

  lemma JoinCalls(a: seq<Call>, c: Call, b: seq<Call>)
    ensures a + [c] + b == a + ([c] + b)
  {
  }

  lemma SettledPrefix(q: seq<Request>, r: seq<Request>)
    requires q <= r
    ensures Settled(q) <= Settled(r)
  {
  }

  function Settled(q: seq<Request>): (c: seq<Call>)
    ensures |c| == |q| && forall i | 0 <= i < |q| :: c[i] == Call(q[i].id, q[i].error)
  {
    if q == [] then [] else [Call(q[0].id, q[0].error)] + Settled(q[1..])
  }

  /** Every request submitted has had exactly one callback, with status 0 only if all of it was taken. */
  ghost predicate OnceEach(submitted: seq<seq<int>>, taken: seq<nat>, calls: seq<Call>) {
    && |calls| == |submitted| == |taken|
    && (forall k | 0 <= k < |calls| :: 0 <= calls[k].id < |submitted|)
    && (forall k, l | 0 <= k < l < |calls| :: calls[k].id != calls[l].id)
    && (forall k | 0 <= k < |calls| :: calls[k].status == 0 ==> taken[calls[k].id] == |submitted[calls[k].id]|)
  }

  /** The order of the callbacks is broken at the end: what was cancelled comes before what was
      completed, but nothing is missed or called twice. */
  lemma OnceEachAfter(submitted: seq<seq<int>>, taken: seq<nat>, calls: seq<Call>, completed: seq<Request>,
                      queue: seq<Request>)
    requires Ledger(submitted, taken, calls, completed, queue)
    ensures OnceEach(submitted, taken, calls + Cancelled(queue) + Settled(completed))
  {
    var n, q := |calls|, |queue|;
    var all := calls + Cancelled(queue) + Settled(completed);
    forall j | 0 <= j < q ensures queue[j].id == n + |completed| + j {
      assert Waits(submitted, taken, queue[j], n + |completed| + j, j == 0);
    }
    forall k | 0 <= k < |all|
      ensures all[k].id == if k < n then k else if k < n + q then k + |completed| else k - q
    {
    }
    forall k | 0 <= k < |all| && all[k].status == 0 ensures taken[all[k].id] == |submitted[all[k].id]| {
      if n + q <= k { assert completed[k - n - q].error == 0; }
    }
  }

  lemma LeftIs(r: Request)
    requires r.index <= |r.bufs|
    ensures Left(r) == Flat(r.bufs[r.index..])
  {
  }

  // ---- whole runs ----

  datatype Event = User(op: Op) | Poll | Pending | Connect

  /** Whatever the program, the kernel and the callbacks do, until the stream is closed for good: the
      books are right, and nothing that is still to be done is forgotten by the event loop. */
  method Run(s: Stream, events: seq<Event>)
    requires s.Valid() && s.Armed()
    modifies s
    ensures s.Valid() && s.Armed()
    ensures s.aborted ==> s.shutdownFailed
    ensures BooksMatch(s.offers, s.submitted, s.taken)
  {
    hide Stream.Books, Stream.Flushed, BooksMatch;
    var i := 0;
    while i < |events|
      invariant 0 <= i <= |events| && s.Valid() && s.Armed()
    {
      if !s.aborted {
        match events[i] {
          case User(op) => s.RunOps([op]);
          case Poll => if !s.closing && !s.connecting && s.pollout { s.Writable(false); }
          case Pending => if !s.closing && !s.connecting && s.fed { s.Writable(true); }
          case Connect => if s.connecting && !s.closing { s.Connected(); }
        }
      }
      i := i + 1;
    }
    s.Match();
  }

  /** The same up to the end of the stream: every write request has had exactly one callback, and so has
      every shutdown request if and only if none was made while another one was pending. */
  method RunToTheEnd(s: Stream, events: seq<Event>)
    requires s.Valid() && s.Armed()
    modifies s
    ensures OnceEach(s.submitted, s.taken, s.calls) && BooksMatch(s.offers, s.submitted, s.taken)
    ensures OneCallEach(|s.overlaps|, s.shutdownCalls) <==> true !in s.overlaps
  {
    hide Stream.Valid, Stream.Armed, OnceEach, BooksMatch;
    Run(s, events);
    if !s.closing { s.CloseStream(); }
    s.Destroy();
  }

  /** After a shutdown(2) that fails, the next write ends in an assertion of uv__drain that does not
      hold: the stream still counts as shutting down, but has no request to do it for. */
  method FailedShutdownThenWrite() returns (s: Stream)
    ensures s.aborted && s.shutdownFailed
  {
    hide Stream.Books, Stream.Flushed, ShutdownLedger, Settled;
    s := new Stream(false, false, [], [1], []);
    var asked := s.ShutdownRequest();
    s.Writable(false);
    assert s.shutdownFailed && !s.shut && s.shutting;
    var written := s.WriteRequest([[7]]);
    s.Writable(true);
  }

  /** A second uv_shutdown before the first is carried out: the first never gets its callback. */
  method TwoShutdowns() returns (s: Stream)
    ensures [false, true] <= s.overlaps && CallsOf(s.shutdownCalls, 0) == 0
  {
    hide Stream.Books, Stream.Flushed, Stream.Flags, Stream.ShutdownBooks, ShutdownLedger, Settled, CallsOf, Stream.WritesArmed;
    s := new Stream(false, false, [], [], []);
    var first := s.ShutdownRequest();
    var second := s.ShutdownRequest();
    s.Writable(false);
    if !s.closing { s.CloseStream(); }
    s.Destroy();
    ReplacedIsLost(s.overlaps, s.shutdownCalls, 0);
  }

  lemma ReplacedIsLost(overlaps: seq<bool>, calls: seq<Call>, id: nat)
    requires ShutdownLedger(overlaps, calls, None) && id + 1 < |overlaps| && overlaps[id + 1]
    ensures CallsOf(calls, id) == 0
  {
    assert Replaced(overlaps, id);
  }

  // ---- what the ledger means ----

  /** The bytes that the kernel has taken are, in order of submission, a prefix of the data of each
      request, and all of it where the callback reports success. */
  lemma {:induction false} TakenInOrder(submitted: seq<seq<int>>, taken: seq<nat>, n: nat, k: nat)
    requires k < n <= |submitted| == |taken|
    requires forall i | 0 <= i < |taken| :: taken[i] <= |submitted[i]|
    ensures var before := Sent(submitted, taken, k);
      && before <= Sent(submitted, taken, n)
      && |before| + taken[k] <= |Sent(submitted, taken, n)|
      && Sent(submitted, taken, n)[|before|..|before| + taken[k]] == submitted[k][..taken[k]]
  {
    if k + 1 < n { TakenInOrder(submitted, taken, n - 1, k); }
  }

  /** While nothing failed, what the kernel has taken is the beginning of all data, in order. */
  lemma {:induction false} NothingSkipped(submitted: seq<seq<int>>, taken: seq<nat>, calls: seq<Call>,
                                          completed: seq<Request>, queue: seq<Request>)
    requires Ledger(submitted, taken, calls, completed, queue)
    requires forall i | 0 <= i < |calls| :: calls[i].status == 0
    requires forall i | 0 <= i < |completed| :: completed[i].error == 0
    ensures Sent(submitted, taken, |taken|) <= Flat(submitted)
  {
    hide Left;
    var done := |calls| + |completed|;
    forall i | 0 <= i < done ensures taken[i] == |submitted[i]| {
      if |calls| <= i { assert completed[i - |calls|].error == 0; }
    }
    AllSent(submitted, taken, done);
    FlatSplit(submitted[..done], submitted[done..]);
    assert submitted == submitted[..done] + submitted[done..];
    if queue != [] {
      forall i | done < i < |taken| ensures taken[i] == 0 {
        assert Waits(submitted, taken, queue[i - done], i, false);
      }
      SentLater(submitted, taken, done, |taken|);
      assert submitted[done..][0] == submitted[done];
    }
  }

  lemma {:induction false} FlatSplit(a: seq<seq<int>>, b: seq<seq<int>>)
    ensures Flat(a + b) == Flat(a) + Flat(b)
  {
    if a == [] {
      assert a + b == b;
    } else {
      assert (a + b)[1..] == a[1..] + b;
      FlatSplit(a[1..], b);
    }
  }

  lemma {:induction false} AllSent(submitted: seq<seq<int>>, taken: seq<nat>, n: nat)
    requires n <= |submitted| == |taken|
    requires forall i | 0 <= i < |taken| :: taken[i] <= |submitted[i]|
    requires forall i | 0 <= i < n :: taken[i] == |submitted[i]|
    ensures Sent(submitted, taken, n) == Flat(submitted[..n])
  {
    if 0 < n {
      AllSent(submitted, taken, n - 1);
      assert submitted[..n] == submitted[..n - 1] + [submitted[n - 1]];
      FlatSplit(submitted[..n - 1], [submitted[n - 1]]);
      assert Flat([submitted[n - 1]]) == submitted[n - 1] + Flat([]);
    }
  }
}
