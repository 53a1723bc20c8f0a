/** The prepare, check and idle watchers of libuv/src/win/loop-watcher.c: a doubly linked list that
    callbacks may change while it is walked. */
module LoopWatcher {
  import opened Options

  class Handle {
    var active: bool
    var next: Handle?
    var prev: Handle?
    var cb: int
    constructor ()
      ensures !active
    {
      active, next, prev, cb := false, null, null, 0;
    }
  }

  /** What a callback may do: start a handle (None stands for a null callback) or stop one. */
  datatype Op = Start(h: Handle, cb: Option<int>) | Stop(h: Handle)

  // ---- lists ----

  function Minus(s: seq<Handle>, h: Handle): seq<Handle> {
    if s == [] then [] else if s[0] == h then s[1..] else [s[0]] + Minus(s[1..], h)
  }

  lemma {:induction false} MinusAt(s: seq<Handle>, i: nat)
    requires Distinct(s) && i < |s|
    ensures Minus(s, s[i]) == s[..i] + s[i + 1..]
  {
    if 0 < i {
      MinusAt(s[1..], i - 1);
      assert s[1..][..i - 1] == s[1..i] && s[1..][i..] == s[i + 1..];
      assert [s[0]] + s[1..i] == s[..i];
    }
  }

  lemma {:induction false} MinusAbsent(s: seq<Handle>, h: Handle)
    requires h !in s
    ensures Minus(s, h) == s
  {
    if s != [] { MinusAbsent(s[1..], h); }
  }

  function First(s: seq<Handle>): Handle? {
    if s == [] then null else s[0]
  }

  function After(s: seq<Handle>, i: nat): Handle? {
    if i + 1 < |s| then s[i + 1] else null
  }

  function Before(s: seq<Handle>, i: nat): Handle? {
    if 0 < i <= |s| then s[i - 1] else null
  }

  ghost predicate Linked(s: seq<Handle>)
    reads s
  {
    && (forall i {:trigger s[i].next} | 0 <= i < |s| :: s[i].next == After(s, i))
    && (forall i {:trigger s[i].prev} | 0 <= i < |s| :: s[i].prev == Before(s, i))
  }

  ghost predicate Suffix(d: seq<Handle>, s: seq<Handle>) {
    |d| <= |s| && d == s[|s| - |d|..]
  }

  lemma NextOf(s: seq<Handle>, i: nat)
    requires Linked(s) && i < |s|
    ensures s[i].next == After(s, i)
  {
  }

  class Loop {
    /** loop->name_handles and loop->next_name_handle. */
    var handles: Handle?
    var nextHandle: Handle?

    /** The handles of this loop, the active ones in list order, and those whose turn is still to
        come in the pass that is under way. */
    ghost const all: set<Handle>
    ghost var list: seq<Handle>
    ghost var due: seq<Handle>

    ghost predicate Valid()
      reads this, all
    {
      && Distinct(list)
      && (forall i | 0 <= i < |list| :: list[i] in all)
      && (forall h | h in all :: h.active <==> h in list)
      && handles == First(list)
      && Linked(list)
      && Suffix(due, list)
      && nextHandle == First(due)
    }

    constructor (hs: set<Handle>)
      requires forall h | h in hs :: !h.active
      ensures Valid() && all == hs && list == [] && due == []
    {
      handles, nextHandle := null, null;
      all, list, due := hs, [], [];
    }

    /** uv_name_start: an inactive handle becomes the first of the list. */
    method StartHandle(h: Handle, cb: Option<int>) returns (ok: bool)
      requires Valid() && h in all
      modifies this, all
      ensures Valid() && due == old(due)
      ensures ok <==> old(h.active) || cb.Some?
      ensures list == if !old(h.active) && cb.Some? then [h] + old(list) else old(list)
      ensures !old(h.active) && cb.Some? ==> h.cb == cb.value
      ensures forall x | x in all && x != h :: x.cb == old(x.cb)
    {
      if h.active { return true; }
      if cb.None? { return false; }
      hide Distinct, Suffix, Linked;
      LongerList(h, list, due, all);
      LinkFirst(h, handles, list, all);
      handles := h;
      h.cb := cb.value;
      h.active := true;
      ok := true;
      list := [h] + list;
    }

    /** uv_name_stop: an active handle leaves the list, and loses its turn. */
    method StopHandle(h: Handle)
      requires Valid() && h in all
      modifies this, all
      ensures Valid() && !h.active
      ensures list == Minus(old(list), h) && due == Minus(old(due), h)
      ensures forall x | x in all :: x.cb == old(x.cb)
    {
      hide Minus, Distinct, Suffix, Linked, After;
      if !h.active {
        MinusAbsent(list, h);
        if h in due { SuffixOf(due, list, h); }
        MinusAbsent(due, h);
        return;
      }
      ghost var was := list;
      ghost var i: nat :| i < |was| && was[i] == h;
      UnlinkedList(was, i, all);
      UnlinkedDue(was, due, i);
      NextOf(was, i);
      if handles == h {
        handles := h.next;
      }
      if nextHandle == h {
        nextHandle := h.next;
      }
      due := Minus(due, h);
      list := Minus(was, h);
      Unlink(h, was, i, all);
      h.active := false;
    }
  }

  // ---- a pass ----

  predicate Stops(ops: seq<Op>, h: Handle) {
    exists i | 0 <= i < |ops| :: ops[i] == Stop(h)
  }

  /** The list after a callback: started handles come first, stopped ones are out. */
  function Play(list: seq<Handle>, ops: seq<Op>): seq<Handle>
    decreases |ops|
  {
    if ops == [] then list
    else
      var op := ops[0];
      Play(match op
           case Start(h, cb) => if h in list || cb.None? then list else [h] + list
           case Stop(h) => Minus(list, h), ops[1..])
  }

  /** The turns that are left after a callback: started handles get none, stopped ones lose theirs. */
  function Left(due: seq<Handle>, ops: seq<Op>): (d: seq<Handle>)
    ensures |d| <= |due|
    decreases |ops|
  {
    if ops == [] then due
    else if ops[0].Stop? then
      MinusShorter(due, ops[0].h);
      Left(Minus(due, ops[0].h), ops[1..])
    else Left(due, ops[1..])
  }

  lemma {:induction false} MinusShorter(s: seq<Handle>, h: Handle)
    ensures |Minus(s, h)| <= |s|
  {
    if s != [] { MinusShorter(s[1..], h); }
  }

  /** What the i-th callback of a pass does. */
  function Nth(behaviour: seq<seq<Op>>, i: nat): seq<Op> {
    if i < |behaviour| then behaviour[i] else []
  }

  /** The handles that a pass calls, when `due` have their turn and `i` callbacks are over. */
  function Turns(due: seq<Handle>, behaviour: seq<seq<Op>>, i: nat): seq<Handle>
    decreases |due|
  {
    if due == [] then [] else [due[0]] + Turns(Left(due[1..], Nth(behaviour, i)), behaviour, i + 1)
  }

  function PlayAll(list: seq<Handle>, behaviour: seq<seq<Op>>, n: nat): seq<Handle> {
    if n == 0 then list else Play(PlayAll(list, behaviour, n - 1), Nth(behaviour, n - 1))
  }

  /** A callback that starts and stops handles of its loop. */
  method Callback(loop: Loop, ops: seq<Op>)
    requires loop.Valid() && forall i | 0 <= i < |ops| :: ops[i].h in loop.all
    modifies loop, loop.all
    ensures loop.Valid()
    ensures loop.list == Play(old(loop.list), ops) && loop.due == Left(old(loop.due), ops)
  {
    var i := 0;
    while i < |ops|
      invariant 0 <= i <= |ops| && loop.Valid()
      invariant Play(loop.list, ops[i..]) == Play(old(loop.list), ops)
      invariant Left(loop.due, ops[i..]) == Left(old(loop.due), ops)
    {
      hide Minus;
      assert ops[i..][0] == ops[i] && ops[i..][1..] == ops[i + 1..];
      match ops[i] {
        case Start(h, cb) => var ok := loop.StartHandle(h, cb);
        case Stop(h) => loop.StopHandle(h);
      }
      i := i + 1;
    }
  }

  /** All callbacks are about handles of `all`. */
  ghost predicate Within(behaviour: seq<seq<Op>>, all: set<Handle>) {
    forall i, j | 0 <= i < |behaviour| && 0 <= j < |behaviour[i]| :: behaviour[i][j].h in all
  }

  /** One turn: the pointer moves on, then the callback is called. */
  method RunTurn(loop: Loop, behaviour: seq<seq<Op>>, n: nat) returns (handle: Handle)
    requires loop.Valid() && loop.due != [] && Within(behaviour, loop.all)
    modifies loop, loop.all
    ensures loop.Valid() && handle == old(loop.due)[0]
    ensures loop.due == Left(old(loop.due)[1..], Nth(behaviour, n)) && |loop.due| < |old(loop.due)|
    ensures loop.list == Play(old(loop.list), Nth(behaviour, n))
  {
    hide Minus, Distinct, Linked, Play, Left, Nth, Within;
    handle := loop.nextHandle;
    TakeTurn(loop);
    OfLoop(behaviour, n, loop.all);
    Callback(loop, Nth(behaviour, n));
  }

  /** uv_name_invoke: one pass over the active handles, with callbacks that start and stop any. */
  method Invoke(loop: Loop, behaviour: seq<seq<Op>>) returns (called: seq<Handle>)
    requires loop.Valid() && loop.due == [] && Within(behaviour, loop.all)
    modifies loop, loop.all
    ensures loop.Valid() && loop.due == []
    ensures called == Turns(old(loop.list), behaviour, 0)
    ensures loop.list == PlayAll(old(loop.list), behaviour, |called|)
  {
    hide Minus, Distinct, Linked, Play, Left, Turns, PlayAll, Nth, Within;
    called := [];
    loop.nextHandle := loop.handles;
    loop.due := loop.list;
    NothingPlayed(loop.list, behaviour);
    while loop.nextHandle != null
      invariant loop.Valid()
      invariant called + Turns(loop.due, behaviour, |called|) == Turns(old(loop.list), behaviour, 0)
      invariant loop.list == PlayAll(old(loop.list), behaviour, |called|)
      decreases |loop.due|
    {
      ghost var was, before := called, loop.due;
      var handle := RunTurn(loop, behaviour, |called|);
      called := called + [handle];
      NextTurn(before, behaviour, was, loop.due);
      NextPlay(old(loop.list), behaviour, |was|);
    }
    NoTurns(called, behaviour);
  }

  lemma NothingPlayed(list: seq<Handle>, behaviour: seq<seq<Op>>)
    ensures PlayAll(list, behaviour, 0) == list
    ensures [] + Turns(list, behaviour, 0) == Turns(list, behaviour, 0)
  {
  }

  lemma NoTurns(called: seq<Handle>, behaviour: seq<seq<Op>>)
    ensures called + Turns([], behaviour, |called|) == called
  {
  }

  lemma NextPlay(list: seq<Handle>, behaviour: seq<seq<Op>>, n: nat)
    ensures PlayAll(list, behaviour, n + 1) == Play(PlayAll(list, behaviour, n), Nth(behaviour, n))
  {
  }

  lemma OfLoop(behaviour: seq<seq<Op>>, n: nat, all: set<Handle>)
    requires Within(behaviour, all)
    ensures forall j | 0 <= j < |Nth(behaviour, n)| :: Nth(behaviour, n)[j].h in all
  {
  }

  lemma NextTurn(due: seq<Handle>, behaviour: seq<seq<Op>>, called: seq<Handle>, due': seq<Handle>)
    requires due != [] && due' == Left(due[1..], Nth(behaviour, |called|))
    ensures |due'| < |due|
    ensures called + [due[0]] + Turns(due', behaviour, |called| + 1) == called + Turns(due, behaviour, |called|)
  {
  }

  /** The pointer for the next turn moves on before the callback is called. */
  method TakeTurn(loop: Loop)
    requires loop.Valid() && loop.due != []
    modifies loop`nextHandle, loop`due
    ensures loop.Valid() && loop.due == old(loop.due)[1..]
  {
    NextOf(loop.list, |loop.list| - |loop.due|);
    loop.nextHandle := loop.nextHandle.next;
    loop.due := loop.due[1..];
  }

  // ---- who is called ----

  ghost predicate Precedes(s: seq<Handle>, x: Handle, y: Handle) {
    exists i, j :: 0 <= i < j < |s| && s[i] == x && s[j] == y
  }

  lemma OrderKept(s: seq<Handle>, i: nat, m: seq<Handle>, x: Handle, y: Handle)
    requires i < |s| && m == s[..i] + s[i + 1..] && Precedes(m, x, y)
    ensures Precedes(s, x, y)
  {
    var a, b :| 0 <= a < b < |m| && m[a] == x && m[b] == y;
    var a', b' := if a < i then a else a + 1, if b < i then b else b + 1;
    assert s[a'] == x && s[b'] == y;
  }

  lemma MinusKeeps(s: seq<Handle>, h: Handle)
    requires Distinct(s)
    ensures Distinct(Minus(s, h)) && h !in Minus(s, h)
    ensures forall x | x != h :: x in Minus(s, h) <==> x in s
    ensures forall x, y | Precedes(Minus(s, h), x, y) :: Precedes(s, x, y)
  {
    hide Minus, Precedes;
    if h in s {
      var i :| 0 <= i < |s| && s[i] == h;
      UnlinkedList(s, i, set x | x in s);
      MinusAt(s, i);
      forall x, y | Precedes(Minus(s, h), x, y) ensures Precedes(s, x, y) {
        OrderKept(s, i, Minus(s, h), x, y);
      }
    } else {
      MinusAbsent(s, h);
    }
  }

  lemma {:induction false} LeftKeeps(due: seq<Handle>, ops: seq<Op>)
    requires Distinct(due)
    ensures Distinct(Left(due, ops))
    ensures forall x :: x in Left(due, ops) <==> x in due && !Stops(ops, x)
    ensures forall x, y | Precedes(Left(due, ops), x, y) :: Precedes(due, x, y)
    decreases |ops|
  {
    if ops != [] {
      var next := if ops[0].Stop? then Minus(due, ops[0].h) else due;
      if ops[0].Stop? { MinusKeeps(due, ops[0].h); }
      LeftKeeps(next, ops[1..]);
      forall x ensures Stops(ops, x) <==> ops[0] == Stop(x) || Stops(ops[1..], x) {
        if Stops(ops, x) {
          var i :| 0 <= i < |ops| && ops[i] == Stop(x);
          if 0 < i { assert ops[1..][i - 1] == Stop(x); }
        }
        if Stops(ops[1..], x) {
          var i :| 0 <= i < |ops[1..]| && ops[1..][i] == Stop(x);
          assert ops[i + 1] == Stop(x);
        }
      }
    }
  }

  /** The k-th callback from the n-th on stops a handle. */
  predicate StoppedBy(behaviour: seq<seq<Op>>, n: nat, k: nat, x: Handle) {
    Stops(Nth(behaviour, n + k), x)
  }

  /** Of `due`, those are called, each once and in this order, that no earlier callback stops; what
      callbacks start is not called. */
  ghost predicate CallsEach(due: seq<Handle>, behaviour: seq<seq<Op>>, n: nat, called: seq<Handle>) {
    && Distinct(called)
    && (forall i | 0 <= i < |called| :: called[i] in due)
    && (forall i, j | 0 <= i < j < |called| :: Precedes(due, called[i], called[j]))
    && (forall p, k | 0 <= k < p < |called| :: !StoppedBy(behaviour, n, k, called[p]))
    && (forall x | x in due && x !in called ::
          exists k | 0 <= k < |called| :: Precedes(due, called[k], x) && StoppedBy(behaviour, n, k, x))
  }

  /** Every active handle is called once, in list order, unless a callback before its turn stops it;
      no other handle is called. */
  lemma {:induction false} WhoIsCalled(due: seq<Handle>, behaviour: seq<seq<Op>>, n: nat)
    requires Distinct(due)
    ensures CallsEach(due, behaviour, n, Turns(due, behaviour, n))
    decreases |due|
  {
    if due != [] {
      hide Precedes, CallsEach;
      var rest, ops := due[1..], Nth(behaviour, n);
      var d := Left(rest, ops);
      assert Distinct(rest) && Turns(due, behaviour, n) == [due[0]] + Turns(d, behaviour, n + 1);
      LeftKeeps(rest, ops);
      WhoIsCalled(d, behaviour, n + 1);
      CalledLater(due, behaviour, n, d, Turns(d, behaviour, n + 1));
    }
  }

  lemma FirstPrecedes(due: seq<Handle>)
    requires Distinct(due) && due != []
    ensures forall x | x in due[1..] :: Precedes(due, due[0], x) && x != due[0]
    ensures forall x, y | Precedes(due[1..], x, y) :: Precedes(due, x, y)
  {
    assert forall i | 0 <= i < |due[1..]| :: due[1..][i] == due[i + 1];
  }

  lemma ConsDistinct(x: Handle, t: seq<Handle>)
    requires Distinct(t) && forall i | 0 <= i < |t| :: t[i] != x
    ensures Distinct([x] + t)
  {
  }

  lemma CalledLater(due: seq<Handle>, behaviour: seq<seq<Op>>, n: nat, d: seq<Handle>, t: seq<Handle>)
    requires due != [] && Distinct(due)
    requires forall x :: x in d <==> x in due[1..] && !Stops(Nth(behaviour, n), x)
    requires forall x, y | Precedes(d, x, y) :: Precedes(due[1..], x, y)
    requires CallsEach(d, behaviour, n + 1, t)
    ensures CallsEach(due, behaviour, n, [due[0]] + t)
  {
    hide Precedes, Nth, Distinct, Stops;
    FirstPrecedes(due);
    var called := [due[0]] + t;
    CalledInOrder(due, behaviour, n, d, t);
    forall p, k | 0 <= k < p < |called| ensures !StoppedBy(behaviour, n, k, called[p]) {
      NotStopped(due[0], behaviour, n, d, t, p, k);
    }
    hide StoppedBy;
    forall x | x in due && x !in called
      ensures exists k | 0 <= k < |called| :: Precedes(due, called[k], x) && StoppedBy(behaviour, n, k, x)
    {
      NotCalled(due, behaviour, n, d, t, called, x);
    }
  }

  lemma CalledInOrder(due: seq<Handle>, behaviour: seq<seq<Op>>, n: nat, d: seq<Handle>, t: seq<Handle>)
    requires due != [] && CallsEach(d, behaviour, n + 1, t)
    requires forall x | x in d :: x in due[1..] && x != due[0] && Precedes(due, due[0], x)
    requires forall x, y | Precedes(d, x, y) :: Precedes(due, x, y)
    ensures var called := [due[0]] + t;
      && Distinct(called)
      && (forall i | 0 <= i < |called| :: called[i] in due)
      && (forall i, j | 0 <= i < j < |called| :: Precedes(due, called[i], called[j]))
  {
    hide Precedes, Distinct, StoppedBy;
    var called := [due[0]] + t;
    forall i | 0 <= i < |t| ensures t[i] != due[0] && t[i] in due && t[i] in d { assert t[i] in due[1..]; }
    ConsDistinct(due[0], t);
    forall i, j | 0 <= i < j < |called| ensures Precedes(due, called[i], called[j]) {
      if 0 < i { assert Precedes(d, t[i - 1], t[j - 1]); }
    }
  }

  lemma NotStopped(x: Handle, behaviour: seq<seq<Op>>, n: nat, d: seq<Handle>, t: seq<Handle>, p: nat, k: nat)
    requires k < p <= |t| && CallsEach(d, behaviour, n + 1, t)
    requires forall y | y in d :: !Stops(Nth(behaviour, n), y)
    ensures !StoppedBy(behaviour, n, k, ([x] + t)[p])
  {
    hide Precedes, Distinct, Stops, Nth;
    var y := t[p - 1];
    assert y in d;
    if 0 < k { assert !StoppedBy(behaviour, n + 1, k - 1, y); }
  }

  lemma NotCalled(due: seq<Handle>, behaviour: seq<seq<Op>>, n: nat, d: seq<Handle>, t: seq<Handle>,
                  called: seq<Handle>, x: Handle)
    requires due != [] && called == [due[0]] + t && x in due && x !in called
    requires forall x | x in due[1..] :: Precedes(due, due[0], x)
    requires forall x :: x in d <==> x in due[1..] && !Stops(Nth(behaviour, n), x)
    requires forall x, y | Precedes(d, x, y) :: Precedes(due, x, y)
    requires CallsEach(d, behaviour, n + 1, t)
    ensures exists k | 0 <= k < |called| :: Precedes(due, called[k], x) && StoppedBy(behaviour, n, k, x)
  {
    hide Precedes, Distinct, Stops, Nth;
    assert x in due[1..];
    assert forall i | 0 <= i < |t| :: called[i + 1] == t[i];
    if Stops(Nth(behaviour, n), x) {
      assert Precedes(due, called[0], x) && StoppedBy(behaviour, n, 0, x);
    } else {
      assert x !in t;
      var k :| 0 <= k < |t| && Precedes(d, t[k], x) && StoppedBy(behaviour, n + 1, k, x);
      assert Precedes(due, called[k + 1], x) && StoppedBy(behaviour, n, k + 1, x);
    }
  }

  lemma LongerList(h: Handle, was: seq<Handle>, due: seq<Handle>, all: set<Handle>)
    requires Distinct(was) && h !in was && h in all && Suffix(due, was) && forall i | 0 <= i < |was| :: was[i] in all
    ensures Distinct([h] + was) && Suffix(due, [h] + was)
    ensures forall i | 0 <= i < |[h] + was| :: ([h] + was)[i] in all
    ensures forall x :: x in [h] + was <==> x == h || x in was
  {
    assert forall i | 0 < i < |[h] + was| :: ([h] + was)[i] == was[i - 1] && was[i - 1] in was;
  }

  /** A new first handle is linked to the old one. */
  method LinkFirst(h: Handle, oldHead: Handle?, ghost was: seq<Handle>, ghost all: set<Handle>)
    requires Linked(was) && Distinct(was) && h !in was && oldHead == First(was)
    requires h in all && forall k | 0 <= k < |was| :: was[k] in all
    modifies all
    ensures Linked([h] + was)
    ensures forall x | x in all :: x.active == old(x.active) && x.cb == old(x.cb)
  {
    h.next := oldHead;
    h.prev := null;
    if oldHead != null {
      oldHead.prev := h;
    }
    ghost var m := [h] + was;
    forall k | 0 <= k < |m| ensures m[k].next == After(m, k) && m[k].prev == Before(m, k) {
      if 0 < k {
        assert m[k] == was[k - 1] && was[k - 1] in was;
        assert old(was[k - 1].next) == After(was, k - 1) && old(was[k - 1].prev) == Before(was, k - 1);
      }
    }
  }

  /** The neighbours of a handle are linked to each other. */
  method Unlink(h: Handle, ghost s: seq<Handle>, ghost i: nat, ghost all: set<Handle>)
    requires Distinct(s) && Linked(s) && i < |s| && s[i] == h && forall k | 0 <= k < |s| :: s[k] in all
    modifies all
    ensures Linked(Minus(s, h))
    ensures forall x | x in all :: x.active == old(x.active) && x.cb == old(x.cb)
  {
    MinusAt(s, i);
    hide Minus;
    assert h.prev != null ==> h.prev == s[i - 1];
    assert h.next != null ==> h.next == s[i + 1];
    if h.prev != null {
      h.prev.next := h.next;
    }
    if h.next != null {
      h.next.prev := h.prev;
    }
    ghost var m := s[..i] + s[i + 1..];
    forall k | 0 <= k < |m| ensures m[k].next == After(m, k) && m[k].prev == Before(m, k) {
      var j := if k < i then k else k + 1;
      assert m[k] == s[j];
      assert old(s[j].next) == After(s, j) && old(s[j].prev) == Before(s, j);
    }
  }

  lemma SuffixOf(d: seq<Handle>, s: seq<Handle>, h: Handle)
    requires Suffix(d, s) && h in d
    ensures h in s
  {
  }

  /** Taking out the element at `i` leaves all others. */
  lemma UnlinkedList(s: seq<Handle>, i: nat, all: set<Handle>)
    requires Distinct(s) && i < |s| && forall k | 0 <= k < |s| :: s[k] in all
    ensures var l := Minus(s, s[i]);
      && Distinct(l) && (forall k | 0 <= k < |l| :: l[k] in all)
      && (forall x :: x in l <==> x in s && x != s[i])
    ensures First(s) == s[i] ==> First(Minus(s, s[i])) == After(s, i)
    ensures First(s) != s[i] ==> First(Minus(s, s[i])) == First(s)
  {
    MinusAt(s, i);
    hide Minus;
    var l := s[..i] + s[i + 1..];
    forall k | 0 <= k < |s| && k != i ensures s[k] in l {
      assert s[k] == l[if k < i then k else k - 1];
    }
  }

  /** What is still to come stays at the end of the list. */
  lemma UnlinkedDue(s: seq<Handle>, due: seq<Handle>, i: nat)
    requires Distinct(s) && i < |s| && Suffix(due, s)
    ensures Suffix(Minus(due, s[i]), Minus(s, s[i]))
    ensures First(due) == s[i] ==> First(Minus(due, s[i])) == After(s, i)
    ensures First(due) != s[i] ==> First(Minus(due, s[i])) == First(due)
  {
    MinusAt(s, i);
    hide Minus;
    var n := |s| - |due|;
    if n <= i {
      MinusAt(due, i - n);
      assert due[i - n] == s[i];
    } else {
      MinusAbsent(due, s[i]);
    }
  }
}
