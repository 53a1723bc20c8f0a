/** The timers of libuv/src/unix/timer.c, in a red-black tree ordered by time and address. */
module Timers {
  import opened TreeOrder
  import opened TreeShape
  import opened RedBlackTree

  /** The key under which a timer is in the tree. */
  function KeyOf(deadline: int, address: int): Key {
    Key(deadline, 0, address)
  }

  /** Conversion to a 32-bit int. */
  function ToInt32(n: int): int {
    var m := n % 0x1_0000_0000;
    if m < 0x8000_0000 then m else m - 0x1_0000_0000
  }

  /** What the tree contains: every active timer under its deadline. */
  ghost function Entries(handles: map<int, Node>, deadline: map<int, int>): set<Element>
    requires deadline.Keys <= handles.Keys
  {
    set a | a in deadline :: Element(handles[a], KeyOf(deadline[a], a))
  }

  // ---- what the calls do to the deadlines ----

  /** The active timers with their deadlines, the repeats, and which timers were ever started. */
  datatype Table = Table(deadline: map<int, int>, repeat: map<int, int>, started: set<int>)

  /** What a callback may do. The repeat of a timer that was never started is overwritten by the start,
      so that setting it has no effect. */
  datatype Op = StartOp(a: int, timeout: nat, rep: nat) | StopOp(a: int) | AgainOp(a: int) | SetRepeatOp(a: int, rep: nat)

  function Started(t: Table, a: int, timeout: int, rep: int, time: int): Table {
    Table(t.deadline[a := time + timeout], t.repeat[a := rep], t.started + {a})
  }

  function Stopped(t: Table, a: int): Table {
    t.(deadline := t.deadline - {a})
  }

  function Repeated(t: Table, a: int, time: int): Table {
    if a in t.started && a in t.repeat && t.repeat[a] != 0 then t.(deadline := t.deadline[a := time + t.repeat[a]]) else t
  }

  function Done(t: Table, op: Op, time: int, known: set<int>): Table {
    if op.a !in known then t else
    match op
    case StartOp(a, timeout, rep) => Started(t, a, timeout, rep, time)
    case StopOp(a) => Stopped(t, a)
    case AgainOp(a) => Repeated(t, a, time)
    case SetRepeatOp(a, rep) => if a in t.started then t.(repeat := t.repeat[a := rep]) else t
  }

  function AllDone(t: Table, ops: seq<Op>, time: int, known: set<int>): Table
    decreases |ops|
  {
    if ops == [] then t else AllDone(Done(t, ops[0], time, known), ops[1..], time, known)
  }

  /** One turn of uv__run_timers for timer `a`, whose callback does `ops`. */
  function Turn(t: Table, a: int, ops: seq<Op>, time: int, known: set<int>): Table {
    AllDone(Repeated(Stopped(t, a), a, time), ops, time, known)
  }

  /** Due first, of those due at the same time at the lowest address. */
  ghost predicate IsFirst(deadline: map<int, int>, a: int) {
    a in deadline && forall b | b in deadline && b != a :: Less(KeyOf(deadline[a], a), KeyOf(deadline[b], b))
  }

  /** What the callback of turn `i` does: nothing once the script is used up. */
  function OpsOf(script: seq<seq<Op>>, i: nat): seq<Op> {
    if i < |script| then script[i] else []
  }

  /** Each call is of the timer that comes first and is due at that very moment, and leads from one
      table to the next. */
  ghost predicate Turns(tables: seq<Table>, called: seq<int>, script: seq<seq<Op>>, time: int, known: set<int>) {
    && |tables| == |called| + 1
    && forall i | 0 <= i < |called| ::
         && IsFirst(tables[i].deadline, called[i]) && tables[i].deadline[called[i]] <= time
         && tables[i + 1] == Turn(tables[i], called[i], OpsOf(script, i), time, known)
  }

  function Due(deadline: map<int, int>, time: int): set<int> {
    set a | a in deadline && deadline[a] <= time
  }

  /** A whole pass: it ends when no timer is due. */
  ghost predicate IsPass(tables: seq<Table>, called: seq<int>, script: seq<seq<Op>>, time: int, known: set<int>) {
    && Turns(tables, called, script, time, known)
    && forall a | a in tables[|called|].deadline :: time < tables[|called|].deadline[a]
  }

  class Loop {
    var time: int
    const heap: Head
    /** The timers of the loop by address; each has its node of the tree inside. */
    const handles: map<int, Node>
    var active: set<int>
    var started: set<int>
    var repeat: map<int, int>

    /** When each active timer is due. */
    ghost var deadline: map<int, int>
    ghost const nodes: set<Node>

    ghost predicate Valid()
      reads this, heap, nodes
    {
      && Injective(handles) && nodes == (set a | a in handles :: handles[a])
      && Nodes(heap.tree) <= nodes && heap.Valid()
      && active == deadline.Keys && active <= started && started <= handles.Keys
      && heap.Contents() == Entries(handles, deadline)
      && (forall a | a in active :: handles[a].key == KeyOf(deadline[a], a))
      && repeat.Keys == started && (forall a | a in repeat :: 0 <= repeat[a])
    }

    constructor (handles: map<int, Node>)
      requires Injective(handles)
      ensures Valid() && fresh(heap) && this.handles == handles && time == 0
      ensures active == {} && Times() == Table(map[], map[], {})
    {
      time := 0;
      var h := new Head();
      heap := h;
      this.handles := handles;
      active, started, repeat, deadline := {}, {}, map[], map[];
      nodes := set a | a in handles :: handles[a];
      new;
      NoMembers(Elements(heap.tree));
      NoNodes(heap.tree);
    }

    /** A timer's node is in the tree exactly while it is active. */
    lemma NodesInTree()
      requires Valid()
      ensures Nodes(heap.tree) == set a | a in active :: handles[a]
      ensures forall a | a in handles :: handles[a] in Nodes(heap.tree) <==> a in active
      ensures forall a | a in active :: Element(handles[a], KeyOf(deadline[a], a)) in heap.Contents()
    {
      hide Zip, RedBlack, Sorted, Elements, Nodes;
      NodesOfElements(heap.tree);
      forall n | n in Nodes(heap.tree) ensures exists a :: a in active && handles[a] == n {
        var e :| e in Elements(heap.tree) && e.node == n;
        assert e in heap.Contents();
      }
      forall a | a in active ensures handles[a] in Nodes(heap.tree) {
        assert Element(handles[a], KeyOf(deadline[a], a)) in heap.Contents();
      }
    }

    /** The tree's nodes after a change of its contents. */
    lemma NodesWithin(d: map<int, int>)
      requires d.Keys <= handles.Keys && heap.Contents() == Entries(handles, d)
      requires nodes == (set a | a in handles :: handles[a])
      ensures Nodes(heap.tree) <= nodes
    {
      hide Elements, Nodes;
      NodesOfElements(heap.tree);
      forall n | n in Nodes(heap.tree) ensures n in nodes {
        var e :| e in Elements(heap.tree) && e.node == n;
        assert e in heap.Contents();
      }
    }

    /** An inactive timer enters the tree under a new deadline. */
    method Arm(a: int, due: int)
      requires Valid() && a in started && a !in active && a in repeat && 0 <= repeat[a]
      modifies this`active, this`deadline, heap, nodes
      ensures Valid() && deadline == old(deadline)[a := due]
    {
      hide Zip, RedBlack, Sorted, Elements, Nodes, Shape, Head.Valid;
      NodesInTree();
      var node := handles[a];
      node.key := KeyOf(due, a);
      assert allocated(Nodes(heap.tree));
      var r := heap.Insert(node);
      assert r == null;
      active := active + {a};
      deadline := deadline[a := due];
      NodesWithin(deadline);
    }

    /** uv_timer_start. */
    method Start(a: int, timeout: int, rep: int)
      requires Valid() && a in handles && 0 <= timeout && 0 <= rep
      modifies this, heap, nodes
      ensures Valid() && time == old(time)
      ensures deadline == old(deadline)[a := time + timeout]
      ensures repeat == old(repeat)[a := rep] && started == old(started) + {a}
    {
      hide Zip, RedBlack, Sorted, Elements, Nodes, Shape;
      if a in active {
        Stop(a);
      }
      started := started + {a};
      repeat := repeat[a := rep];
      Arm(a, time + timeout);
    }

    /** uv_timer_stop. */
    method Stop(a: int)
      requires Valid() && a in handles
      modifies this`active, this`deadline, heap, nodes
      ensures Valid() && deadline == old(deadline) - {a} && a !in active
    {
      hide Zip, RedBlack, Sorted, Elements, Nodes, Shape, Entries, Head.Valid;
      if a !in active { return; }
      NodesInTree();
      assert allocated(Nodes(heap.tree));
      EntriesWithout(handles, deadline, a);
      var removed := heap.Remove(handles[a]);
      active := active - {a};
      deadline := deadline - {a};
    }

    /** uv_timer_again: false stands for UV_EINVAL. */
    method Again(a: int) returns (ok: bool)
      requires Valid() && a in handles
      modifies this, heap, nodes
      ensures Valid() && time == old(time) && repeat == old(repeat) && started == old(started)
      ensures ok <==> a in started
      ensures deadline == if a in started && repeat[a] != 0 then old(deadline)[a := time + repeat[a]] else old(deadline)
    {
      hide Zip, RedBlack, Sorted, Elements, Nodes, Shape;
      if a !in started { return false; }
      if repeat[a] != 0 {
        var r := repeat[a];
        Stop(a);
        Start(a, r, r);
      }
      ok := true;
    }

    ghost function Times(): Table
      reads this
    {
      Table(deadline, repeat, started)
    }

    /** RB_MIN, from the node back to its timer. */
    method First() returns (a: int, found: bool)
      requires Valid()
      ensures found <==> deadline != map[]
      ensures found ==> IsFirst(deadline, a) && handles[a].key.major == deadline[a]
    {
      hide Zip, RedBlack, Nodes, Shape;
      var node := heap.Min();
      NodesInTree();
      ghost var es := Elements(heap.tree);
      if node == null {
        assert heap.Contents() == {};
        assert deadline.Keys == {};
        return 0, false;
      }
      assert es[0] in heap.Contents();
      a, found := node.key.address, true;
      forall b | b in deadline && b != a ensures Less(KeyOf(deadline[a], a), KeyOf(deadline[b], b)) {
        var e := Element(handles[b], KeyOf(deadline[b], b));
        assert e in heap.Contents();
        var i :| 0 <= i < |es| && es[i] == e;
        assert i != 0;
      }
    }

    /** uv__next_timeout. */
    method NextTimeout() returns (t: int)
      requires Valid()
      ensures deadline == map[] ==> t == -1
      ensures forall a | IsFirst(deadline, a) :: t == if deadline[a] <= time then 0 else ToInt32(deadline[a] - time)
    {
      hide Zip, RedBlack, Sorted, Elements, Nodes, Shape;
      var a, found := First();
      if !found { return -1; }
      forall b | IsFirst(deadline, b) ensures b == a {
        if b != a { CompareIsATotalOrder(KeyOf(deadline[a], a), KeyOf(deadline[b], b), KeyOf(deadline[a], a)); }
      }
      if handles[a].key.major <= time { return 0; }
      t := ToInt32(handles[a].key.major - time);
    }

    /** uv_timer_set_repeat. */
    method SetRepeat(a: int, rep: int)
      requires Valid() && a in handles && 0 <= rep
      modifies this`repeat
      ensures Valid() && repeat == if a in started then old(repeat)[a := rep] else old(repeat)
    {
      hide Zip, RedBlack, Sorted, Elements, Nodes, Shape, Entries;
      if a in started { repeat := repeat[a := rep]; }
    }

    /** A callback. */
    method RunOps(ops: seq<Op>)
      requires Valid()
      modifies this, heap, nodes
      ensures Valid() && time == old(time) && Times() == AllDone(old(Times()), ops, time, handles.Keys)
    {
      hide Zip, RedBlack, Sorted, Elements, Nodes, Shape, Entries, Loop.Valid;
      var i := 0;
      assert ops[0..] == ops;
      while i < |ops|
        invariant 0 <= i <= |ops| && Valid() && time == old(time)
        invariant AllDone(Times(), ops[i..], time, handles.Keys) == AllDone(old(Times()), ops, time, handles.Keys)
      {
        RunOp(ops[i]);
        assert ops[i..][1..] == ops[i + 1..];
        i := i + 1;
      }
    }

    method RunOp(op: Op)
      requires Valid()
      modifies this, heap, nodes
      ensures Valid() && time == old(time) && Times() == Done(old(Times()), op, time, handles.Keys)
    {
      hide Zip, RedBlack, Sorted, Elements, Nodes, Shape, Entries;
      if op.a !in handles { return; }
      match op {
        case StartOp(a, timeout, rep) => Start(a, timeout, rep);
        case StopOp(a) => Stop(a);
        case AgainOp(a) => var ok := Again(a);
        case SetRepeatOp(a, rep) => SetRepeat(a, rep);
      }
    }

    /** uv__run_timers, with callbacks that start, stop and repeat any timers: it ends, whatever the
        finitely many callbacks of `script` do; each call is of the timer that comes first and is due when
        it is called. If all callbacks leave the timers alone, every timer that is due is called once, in
        order of time and address; the repeating ones are armed anew, the others stopped. */
    method RunTimers(script: seq<seq<Op>>) returns (called: seq<int>, ghost tables: seq<Table>)
      requires Valid()
      modifies this, heap, nodes
      ensures Valid() && time == old(time)
      ensures IsPass(tables, called, script, time, handles.Keys)
      ensures |tables| == |called| + 1 && tables[0] == old(Times()) && tables[|called|] == Times()
      ensures script == [] ==>
        && InOrder(called, old(deadline))
        && (forall a :: a in called <==> a in old(deadline) && old(deadline)[a] <= time)
        && deadline == Rearmed(old(deadline), old(repeat), time)
    {
      hide Loop.Valid, InOrder, Turns, Less, IsFirst;
      called, tables := [], [Times()];
      TimesAreKnown();
      var rest := script;
      assert Turns(tables, called, script, time, handles.Keys) by { NoTurns(Times(), script, time, handles.Keys); }
      while true
        invariant Valid() && time == old(time)
        invariant Turns(tables, called, script, time, handles.Keys)
        invariant |tables| == |called| + 1 && tables[0] == old(Times()) && tables[|called|] == Times()
        invariant rest == if |called| < |script| then script[|called|..] else []
        decreases |rest|, |Due(deadline, time)|
      {
        ghost var before := Times();
        var a, due := NextDue();
        if !due { break; }
        StopAndRepeat(a);
        DueLess(before, a, time);
        var ops := if rest == [] then [] else rest[0];
        rest := if rest == [] then [] else rest[1..];
        RunOps(ops);
        OneTurn(tables, called, script, time, handles.Keys, a, Times());
        called, tables := called + [a], tables + [Times()];
      }
      if script == [] { QuietPass(tables, called, time, handles.Keys); }
    }

    lemma TimesAreKnown()
      requires Valid()
      ensures deadline.Keys <= repeat.Keys && deadline.Keys <= started && repeat.Keys == started
      ensures forall a | a in repeat :: 0 <= repeat[a]
    {
    }

    /** The test of the loop: the first timer, if it is due. */
    method NextDue() returns (a: int, due: bool)
      requires Valid()
      ensures due ==>
        && IsFirst(deadline, a) && a in deadline && deadline[a] <= time
        && a in started && a in repeat && 0 <= repeat[a] && a in handles
      ensures !due ==> forall b | b in deadline :: time < deadline[b]
    {
      hide Zip, RedBlack, Sorted, Elements, Nodes, Shape, Entries;
      var found;
      a, found := First();
      due := found && handles[a].key.major <= time;
    }

    /** uv_timer_stop and uv_timer_again, as for every timer whose turn has come. */
    method StopAndRepeat(a: int)
      requires Valid() && a in handles
      modifies this, heap, nodes
      ensures Valid() && time == old(time) && Times() == Repeated(Stopped(old(Times()), a), a, time)
    {
      hide Zip, RedBlack, Sorted, Elements, Nodes, Shape, Entries;
      Stop(a);
      var ok := Again(a);
    }
  }

  lemma NoTurns(t: Table, script: seq<seq<Op>>, time: int, known: set<int>)
    ensures Turns([t], [], script, time, known)
  {
  }

  lemma OneTurn(tables: seq<Table>, called: seq<int>, script: seq<seq<Op>>, time: int, known: set<int>, a: int, next: Table)
    requires Turns(tables, called, script, time, known)
    requires |tables| == |called| + 1
    requires IsFirst(tables[|called|].deadline, a) && tables[|called|].deadline[a] <= time
    requires next == Turn(tables[|called|], a, OpsOf(script, |called|), time, known)
    ensures Turns(tables + [next], called + [a], script, time, known)
  {
    hide Turn, IsFirst;
  }

  /** A turn whose callback does nothing leaves one timer less that is due. */
  lemma DueLess(t: Table, a: int, time: int)
    requires a in t.deadline && t.deadline[a] <= time && a in t.repeat && 0 <= t.repeat[a]
    ensures |Due(Repeated(Stopped(t, a), a, time).deadline, time)| < |Due(t.deadline, time)|
  {
    assert Due(Repeated(Stopped(t, a), a, time).deadline, time) == Due(t.deadline, time) - {a};
  }

  /** A pass in which the callbacks leave the timers alone. */
  lemma QuietPass(tables: seq<Table>, called: seq<int>, time: int, known: set<int>)
    requires IsPass(tables, called, [], time, known)
    requires var t := tables[0];
      t.deadline.Keys <= t.repeat.Keys && t.deadline.Keys <= t.started && t.repeat.Keys == t.started
      && forall a | a in t.repeat :: 0 <= t.repeat[a]
    ensures var t := tables[0];
      && InOrder(called, t.deadline)
      && (forall a :: a in called <==> a in t.deadline && t.deadline[a] <= time)
      && tables[|called|].deadline == Rearmed(t.deadline, t.repeat, time)
  {
    QuietProgress(tables, called, time, known, |called|);
    assert called[..|called|] == called;
    AllRearmed(called, tables[0].deadline, tables[0].repeat, time, tables[|called|].deadline);
  }

  lemma {:induction false} QuietProgress(tables: seq<Table>, called: seq<int>, time: int, known: set<int>, n: nat)
    requires Turns(tables, called, [], time, known) && n <= |called|
    requires var t := tables[0];
      t.deadline.Keys <= t.repeat.Keys && t.repeat.Keys == t.started
      && forall a | a in t.repeat :: 0 <= t.repeat[a]
    ensures var t := tables[0];
      && Progress(called[..n], t.deadline, t.repeat, time, tables[n].deadline)
      && tables[n].repeat == t.repeat && tables[n].started == t.started
  {
    hide Progress;
    var t := tables[0];
    if n == 0 {
      NoProgress(t.deadline, t.repeat, time);
    } else {
      QuietProgress(tables, called, time, known, n - 1);
      var a := called[n - 1];
      OneMore(called[..n - 1], t.deadline, t.repeat, time, tables[n - 1].deadline, a);
      assert called[..n] == called[..n - 1] + [a];
    }
  }

  // ---- what a turn comes to, timer by timer ----

  /** No operation of a callback from the `k`-th on starts, stops or repeats timer `b`. */
  ghost predicate Untouched(ops: seq<Op>, k: nat, b: int) {
    forall m | k <= m < |ops| :: ops[m].a == b ==> ops[m].SetRepeatOp?
  }

  /** The repeat of `b` after `ops`: what the last start or set_repeat says, else what it was. */
  function RepeatThen(ops: seq<Op>, b: int, was: int): int
    decreases |ops|
  {
    if ops == [] then was else
    var n := |ops| - 1;
    match ops[n]
    case StartOp(a, _, rep) => if a == b then rep else RepeatThen(ops[..n], b, was)
    case SetRepeatOp(a, rep) => if a == b then rep else RepeatThen(ops[..n], b, was)
    case _ => RepeatThen(ops[..n], b, was)
  }

  /** The same timer is due at the same time, or not at all. */
  ghost predicate SameDeadline(d: map<int, int>, d': map<int, int>, b: int) {
    (b in d <==> b in d') && (b in d ==> d'[b] == d[b])
  }

  ghost predicate DueAt(d: map<int, int>, b: int, time: int) {
    b in d && d[b] == time
  }

  lemma {:induction false} UntouchedKeeps(t: Table, ops: seq<Op>, time: int, known: set<int>, b: int)
    requires Untouched(ops, 0, b)
    ensures SameDeadline(t.deadline, AllDone(t, ops, time, known).deadline, b)
    decreases |ops|
  {
    if ops != [] {
      assert ops[0].a == b ==> ops[0].SetRepeatOp?;
      assert forall m | 0 <= m < |ops[1..]| :: ops[1..][m] == ops[m + 1];
      UntouchedKeeps(Done(t, ops[0], time, known), ops[1..], time, known, b);
    }
  }

  lemma {:induction false} DoneInParts(t: Table, p: seq<Op>, q: seq<Op>, time: int, known: set<int>)
    ensures AllDone(t, p + q, time, known) == AllDone(AllDone(t, p, time, known), q, time, known)
    decreases |p|
  {
    if p == [] {
      assert p + q == q;
    } else {
      assert (p + q)[1..] == p[1..] + q;
      DoneInParts(Done(t, p[0], time, known), p[1..], q, time, known);
    }
  }

  /** Of the operations on a timer the last one counts that starts, stops or repeats it. */
  lemma LastOp(t: Table, ops: seq<Op>, time: int, known: set<int>, b: int, k: nat)
    requires k < |ops| && Untouched(ops, k + 1, b)
    ensures SameDeadline(Done(AllDone(t, ops[..k], time, known), ops[k], time, known).deadline,
                         AllDone(t, ops, time, known).deadline, b)
  {
    hide Done;
    var p, q := ops[..k], ops[k..];
    assert ops == p + q && q[0] == ops[k] && q[1..] == ops[k + 1..];
    assert forall m | 0 <= m < |q[1..]| :: q[1..][m] == ops[k + 1 + m];
    DoneInParts(t, p, q, time, known);
    UntouchedKeeps(Done(AllDone(t, p, time, known), ops[k], time, known), q[1..], time, known, b);
  }

  lemma {:induction false} RepeatIs(t: Table, ops: seq<Op>, time: int, known: set<int>, b: int)
    requires b in t.started && b in t.repeat && b in known
    ensures var e := AllDone(t, ops, time, known);
      b in e.started && b in e.repeat && e.repeat[b] == RepeatThen(ops, b, t.repeat[b])
    decreases |ops|
  {
    if ops != [] {
      var n := |ops| - 1;
      assert ops == ops[..n] + [ops[n]];
      RepeatIs(t, ops[..n], time, known, b);
      DoneInParts(t, ops[..n], [ops[n]], time, known);
      assert AllDone(AllDone(t, ops[..n], time, known), [ops[n]], time, known)
          == Done(AllDone(t, ops[..n], time, known), ops[n], time, known);
    }
  }

  /** A timer that the callback stops, and does not start or repeat after that, is not armed when the
      callback is over, the called one included. */
  lemma StopInCallback(tables: seq<Table>, called: seq<int>, script: seq<seq<Op>>, time: int, known: set<int>, i: nat,
                       b: int, k: nat)
    requires Turns(tables, called, script, time, known) && i < |called| && b in known
    requires k < |OpsOf(script, i)| && OpsOf(script, i)[k] == StopOp(b) && Untouched(OpsOf(script, i), k + 1, b)
    ensures b !in tables[i + 1].deadline
  {
    LastOp(Repeated(Stopped(tables[i], called[i]), called[i], time), OpsOf(script, i), time, known, b, k);
  }

  /** One that it starts, and does not touch after that, is due after the timeout. */
  lemma StartInCallback(tables: seq<Table>, called: seq<int>, script: seq<seq<Op>>, time: int, known: set<int>, i: nat,
                        b: int, k: nat)
    requires Turns(tables, called, script, time, known) && i < |called| && b in known
    requires k < |OpsOf(script, i)| && OpsOf(script, i)[k].StartOp? && OpsOf(script, i)[k].a == b
    requires Untouched(OpsOf(script, i), k + 1, b)
    ensures DueAt(tables[i + 1].deadline, b, time + OpsOf(script, i)[k].timeout)
  {
    LastOp(Repeated(Stopped(tables[i], called[i]), called[i], time), OpsOf(script, i), time, known, b, k);
  }

  /** One that it repeats is due after what is its repeat then, if that is not zero. */
  lemma AgainInCallback(tables: seq<Table>, called: seq<int>, script: seq<seq<Op>>, time: int, known: set<int>, i: nat,
                        b: int, k: nat)
    requires Turns(tables, called, script, time, known) && i < |called| && b in known
    requires b in tables[i].started && b in tables[i].repeat
    requires k < |OpsOf(script, i)| && OpsOf(script, i)[k] == AgainOp(b) && Untouched(OpsOf(script, i), k + 1, b)
    ensures var r := RepeatThen(OpsOf(script, i)[..k], b, tables[i].repeat[b]);
      r != 0 ==> DueAt(tables[i + 1].deadline, b, time + r)
  {
    var t := Repeated(Stopped(tables[i], called[i]), called[i], time);
    LastOp(t, OpsOf(script, i), time, known, b, k);
    RepeatIs(t, OpsOf(script, i)[..k], time, known, b);
  }

  /** If the callback does not start, stop or repeat the timer it is called for, that is due after the
      repeat it had before the callback, which may change the repeat from the next call on only; with no
      repeat it is not armed. */
  lemma CalledTimer(tables: seq<Table>, called: seq<int>, script: seq<seq<Op>>, time: int, known: set<int>, i: nat)
    requires Turns(tables, called, script, time, known) && i < |called| && called[i] in known
    requires Untouched(OpsOf(script, i), 0, called[i])
    ensures var a, t, d := called[i], tables[i], tables[i + 1].deadline;
      if a in t.started && a in t.repeat && t.repeat[a] != 0 then DueAt(d, a, time + t.repeat[a]) else a !in d
  {
    UntouchedKeeps(Repeated(Stopped(tables[i], called[i]), called[i], time), OpsOf(script, i), time, known, called[i]);
  }

  /** Every other timer that the callback leaves alone is due when it was. */
  lemma OtherTimers(tables: seq<Table>, called: seq<int>, script: seq<seq<Op>>, time: int, known: set<int>, i: nat, b: int)
    requires Turns(tables, called, script, time, known) && i < |called| && b != called[i]
    requires Untouched(OpsOf(script, i), 0, b)
    ensures SameDeadline(tables[i].deadline, tables[i + 1].deadline, b)
  {
    UntouchedKeeps(Repeated(Stopped(tables[i], called[i]), called[i], time), OpsOf(script, i), time, known, b);
  }

  /** The repeat of a timer is what the callback has set last. */
  lemma RepeatAfter(tables: seq<Table>, called: seq<int>, script: seq<seq<Op>>, time: int, known: set<int>, i: nat, b: int)
    requires Turns(tables, called, script, time, known) && i < |called| && b in known
    requires b in tables[i].started && b in tables[i].repeat
    ensures b in tables[i + 1].started && b in tables[i + 1].repeat
    ensures tables[i + 1].repeat[b] == RepeatThen(OpsOf(script, i), b, tables[i].repeat[b])
  {
    RepeatIs(Repeated(Stopped(tables[i], called[i]), called[i], time), OpsOf(script, i), time, known, b);
  }

  lemma {:induction false} StaysUnstarted(t: Table, ops: seq<Op>, time: int, known: set<int>, b: int)
    requires b !in t.started && b !in t.deadline && forall m | 0 <= m < |ops| && ops[m].a == b :: !ops[m].StartOp?
    ensures b !in AllDone(t, ops, time, known).started && b !in AllDone(t, ops, time, known).deadline
    decreases |ops|
  {
    if ops != [] {
      assert ops[0].a == b ==> !ops[0].StartOp?;
      assert forall m | 0 <= m < |ops[1..]| :: ops[1..][m] == ops[m + 1];
      StaysUnstarted(Done(t, ops[0], time, known), ops[1..], time, known, b);
    }
  }

  /** A timer that was never started is not armed by anything but a start. */
  lemma NeverStarted(tables: seq<Table>, called: seq<int>, script: seq<seq<Op>>, time: int, known: set<int>, i: nat, b: int)
    requires Turns(tables, called, script, time, known) && i < |called|
    requires b !in tables[i].started && b !in tables[i].deadline
    requires forall m | 0 <= m < |OpsOf(script, i)| && OpsOf(script, i)[m].a == b :: !OpsOf(script, i)[m].StartOp?
    ensures b !in tables[i + 1].started && b !in tables[i + 1].deadline
  {
    StaysUnstarted(Repeated(Stopped(tables[i], called[i]), called[i], time), OpsOf(script, i), time, known, b);
  }

  // ---- passes with callbacks that change timers ----

  /** `a` is not armed by `op`. */
  predicate LeavesOff(op: Op, a: int) {
    (op.StartOp? || op.AgainOp?) ==> op.a != a
  }

  lemma {:induction false} StaysOff(t: Table, ops: seq<Op>, time: int, known: set<int>, a: int)
    requires a !in t.deadline && forall k | 0 <= k < |ops| :: LeavesOff(ops[k], a)
    ensures a !in AllDone(t, ops, time, known).deadline
    decreases |ops|
  {
    if ops != [] {
      assert LeavesOff(ops[0], a);
      StaysOff(Done(t, ops[0], time, known), ops[1..], time, known, a);
    }
  }

  /** A timer that is stopped before its turn is not called, unless a later callback of the pass
      starts it again. */
  lemma {:induction false} StoppedIsNotCalled(tables: seq<Table>, called: seq<int>, script: seq<seq<Op>>, time: int,
                                              known: set<int>, a: int, i: nat, j: nat)
    requires Turns(tables, called, script, time, known) && i <= j < |called|
    requires a !in tables[i].deadline
    requires forall k, m | i <= k < j && 0 <= m < |OpsOf(script, k)| :: LeavesOff(OpsOf(script, k)[m], a)
    ensures called[j] != a && a !in tables[j].deadline
  {
    if i < j {
      StoppedIsNotCalled(tables, called, script, time, known, a, i, j - 1);
      var b := called[j - 1];
      StaysOff(Repeated(Stopped(tables[j - 1], b), b, time), OpsOf(script, j - 1), time, known, a);
    }
  }

  /** `n` callbacks that all start timer `a` for now. */
  function ForNow(a: int, n: nat): seq<seq<Op>> {
    seq(n, _ => [StartOp(a, 0, 0)])
  }

  /** A callback that starts its timer for now is called again, as often as it does so: there is no
      bound on the calls of a pass. */
  lemma {:induction false} StartedForNow(tables: seq<Table>, called: seq<int>, time: int, known: set<int>, a: int, n: nat)
    requires IsPass(tables, called, ForNow(a, n), time, known) && a in known
    requires tables[0] == Table(map[a := time], map[a := 0], {a})
    ensures |called| == n + 1 && forall i | 0 <= i <= n :: called[i] == a
  {
    var script := ForNow(a, n);
    var i := 0;
    while i < n && i < |called|
      invariant 0 <= i <= n && i <= |called| && tables[i] == Table(map[a := time], map[a := 0], {a})
      invariant forall k | 0 <= k < i :: called[k] == a
    {
      var t := Repeated(Stopped(tables[i], a), a, time);
      assert AllDone(t, [StartOp(a, 0, 0)], time, known) == AllDone(Started(t, a, 0, 0, time), [], time, known);
      assert called[i] == a && OpsOf(script, i) == [StartOp(a, 0, 0)];
      assert tables[i + 1].deadline == map[a := time];
      i := i + 1;
    }
    assert i == n && n < |called| by { assert a in tables[i].deadline; }
    assert called[n] == a && OpsOf(script, n) == [];
    assert tables[n + 1].deadline == map[];
    if n + 1 < |called| {
      assert false;
    }
  }

  /** A pass in which one timer, with its node of the tree, is started for now by `n` callbacks. */
  method CalledAsOftenAsStarted(node: Node, n: nat) returns (called: seq<int>)
    modifies node
    ensures |called| == n + 1
  {
    hide Loop.Valid, Turns, Turn, IsPass;
    var loop := new Loop(map[7 := node]);
    assert loop.handles.Keys == {7};
    loop.Start(7, 0, 0);
    ghost var tables;
    called, tables := loop.RunTimers(ForNow(7, n));
    assert tables[0] == Table(map[7 := 0], map[7 := 0], {7});
    StartedForNow(tables, called, 0, {7}, 7, n);
  }

  /** What a pass has done so far: it has called some of the timers that were due, in order, and the
      others are due after them. */
  ghost predicate Progress(called: seq<int>, all: map<int, int>, rep: map<int, int>, time: int, deadline: map<int, int>) {
    && InOrder(called, all)
    && all.Keys <= rep.Keys && (forall a | a in rep :: 0 <= rep[a])
    && (forall a | a in called :: a in all && all[a] <= time)
    && (forall a | a in all :: if a in called then (a in deadline <==> 0 < rep[a]) else a in deadline)
    && (forall a | a in deadline :: a in all && deadline[a] == if a in called then time + rep[a] else all[a])
    && (forall a, b | a in called && b in all && b !in called :: Less(KeyOf(all[a], a), KeyOf(all[b], b)))
  }

  lemma NoProgress(all: map<int, int>, rep: map<int, int>, time: int)
    requires all.Keys <= rep.Keys && forall a | a in rep :: 0 <= rep[a]
    ensures Progress([], all, rep, time, all)
  {
  }

  /** The next timer of a pass. */
  lemma OneMore(called: seq<int>, all: map<int, int>, rep: map<int, int>, time: int, deadline: map<int, int>, a: int)
    requires Progress(called, all, rep, time, deadline)
    requires a in deadline && deadline[a] <= time
    requires forall b | b in deadline && b != a :: Less(KeyOf(deadline[a], a), KeyOf(deadline[b], b))
    ensures a in rep && |called| < |all|
    ensures Progress(called + [a], all, rep, time, if rep[a] != 0 then (deadline - {a})[a := time + rep[a]] else deadline - {a})
  {
    assert a !in called && a in all;
    NotAll(called, all, a);
    MoreInOrder(called, all, a);
    hide InOrder;
  }

  lemma MoreInOrder(called: seq<int>, all: map<int, int>, a: int)
    requires InOrder(called, all) && a in all
    requires forall b | b in called :: b in all && Less(KeyOf(all[b], b), KeyOf(all[a], a))
    ensures InOrder(called + [a], all)
  {
  }

  lemma AllRearmed(called: seq<int>, all: map<int, int>, rep: map<int, int>, time: int, deadline: map<int, int>)
    requires Progress(called, all, rep, time, deadline)
    requires forall a | a in deadline :: time < deadline[a]
    ensures InOrder(called, all)
    ensures forall a :: a in called <==> a in all && all[a] <= time
    ensures deadline == Rearmed(all, rep, time)
  {
    hide InOrder;
    var r := Rearmed(all, rep, time);
    forall a ensures a in deadline <==> a in r {
      if a in all && a !in called { assert time < deadline[a]; }
    }
    assert deadline.Keys == r.Keys;
    forall a | a in deadline ensures deadline[a] == r[a] {
      assert a in all && a in rep;
    }
  }

  /** In order of time and address, none twice. */
  ghost predicate InOrder(called: seq<int>, deadline: map<int, int>) {
    && (forall i | 0 <= i < |called| :: called[i] in deadline)
    && (forall i, j | 0 <= i < j < |called| ::
          Less(KeyOf(deadline[called[i]], called[i]), KeyOf(deadline[called[j]], called[j])))
  }

  /** The deadlines after a pass at `time`. */
  ghost function Rearmed(deadline: map<int, int>, repeat: map<int, int>, time: int): map<int, int> {
    map a | a in deadline && (time < deadline[a] || (a in repeat && 0 < repeat[a]))
      :: if time < deadline[a] then deadline[a] else time + (if a in repeat then repeat[a] else 0)
  }

  lemma NotAll(called: seq<int>, all: map<int, int>, a: int)
    requires InOrder(called, all) && a in all && a !in called
    ensures |called| < |all|
  {
    var s := set x | x in called;
    DistinctSize(called, all, s);
    assert s < all.Keys;
    SmallerSet(s, all.Keys);
  }

  lemma SmallerSet(s: set<int>, t: set<int>)
    requires s < t
    ensures |s| < |t|
  {
    assert t == s + (t - s);
    assert t - s != {};
  }

  lemma {:induction false} DistinctSize(called: seq<int>, all: map<int, int>, s: set<int>)
    requires InOrder(called, all) && s == set x | x in called
    ensures |s| == |called|
  {
    if called != [] {
      var n := |called| - 1;
      var rest := called[..n];
      var r := set x | x in rest;
      DistinctSize(rest, all, r);
      assert called == rest + [called[n]];
      assert s == r + {called[n]};
      assert called[n] !in r;
    } else {
      assert s == {};
    }
  }

  lemma EntriesWithout(handles: map<int, Node>, deadline: map<int, int>, a: int)
    requires Injective(handles) && deadline.Keys <= handles.Keys && a in deadline
    ensures Entries(handles, deadline) - {Element(handles[a], KeyOf(deadline[a], a))} == Entries(handles, deadline - {a})
  {
  }

  /** The timeout is exact unless the distance does not fit: then the loop may wait too short, or,
      negative, for ever. */
  lemma ExactTimeout(distance: int)
    requires 0 < distance
    ensures ToInt32(distance) == distance <==> distance < 0x8000_0000
    ensures distance == 0x8000_0000 ==> ToInt32(distance) < 0
    ensures distance == 0x1_0000_0000 ==> ToInt32(distance) == 0
  {
  }
}
